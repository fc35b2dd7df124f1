/** The syntax tree of a read query, as far as the guard and the engine look at it.
  *
  * `T` is what sits at a table leaf: the mutable parser node while the guard works
  * (`SqlGuard.TableNode`), an immutable `TableRef` everywhere else.
  */
module SqlAst {
  import opened Common

  datatype Value = Null | Boolean(b: bool) | Integer(i: int) | Text(s: string)

  /** A name of up to three parts, of a table or in front of a column; an absent part is the empty string. */
  datatype TableRef = TableRef(catalog: string, db: string, name: string) {
    predicate Bare() {
      catalog == "" && db == ""
    }
  }

  const Unnamed := TableRef("", "", "")

  datatype SetOperator = UnionAll | UnionDistinct | Intersect | Except

  /** A LIMIT that is an integer literal, or one that is not (LIMIT ALL). */
  datatype LimitClause = Count(n: nat) | LimitAll

  datatype Kind =
    | OneRow                        // the source of a SELECT without FROM
    | Alias(alias: string)          // relation
    | Join                          // left, right, condition
    | Select(names: seq<string>)    // source, condition, one expression per output name
    | SelectStar                    // source, condition
    | SetOp(op: SetOperator)        // left, right
    | OrderBy(keys: seq<nat>)       // query, sorted by output positions
    | Limit(clause: LimitClause)    // query
    | Column(qualifier: TableRef, name: string)
    | Literal(value: Value)
    | Equals | Less | And | Not
    | Exists | InQuery | ScalarQuery
    | Write(verb: string)           // INSERT, DROP, SET, ... wherever the parser put it

  datatype Sql<T> =
    | Table(ref: T)
    | With(alias: string, def: Sql<T>, body: Sql<T>)
    | Node(kind: Kind, kids: seq<Sql<T>>)

  function MapRefs<T, U>(n: Sql<T>, f: T -> U): Sql<U> {
    match n
    case Table(ref) => Table(f(ref))
    case With(alias, def, body) => With(alias, MapRefs(def, f), MapRefs(body, f))
    case Node(kind, kids) =>
      Node(kind, seq(|kids|, i requires 0 <= i < |kids| => MapRefs(kids[i], f)))
  }

  /** Every table leaf of the tree. */
  function Refs<T(==)>(n: Sql<T>): set<T> {
    match n
    case Table(ref) => {ref}
    case With(_, def, body) => Refs(def) + Refs(body)
    case Node(_, kids) => set i, t | 0 <= i < |kids| && t in Refs(kids[i]) :: t
  }

  /** The aliases of every WITH anywhere in the tree. */
  function Aliases<T>(n: Sql<T>): set<string> {
    match n
    case Table(_) => {}
    case With(alias, def, body) => {alias} + Aliases(def) + Aliases(body)
    case Node(_, kids) => set i, a | 0 <= i < |kids| && a in Aliases(kids[i]) :: a
  }

  /** How many of the first parts are sources, whose rows the other parts see. */
  function SourceCount(kind: Kind): nat {
    match kind
    case Join => 2
    case Select(_) => 1
    case SelectStar => 1
    case _ => 0
  }

  /** How many of the first parts pass their columns on under the names they came with. */
  function PassedOn(kind: Kind): nat {
    match kind
    case Join => 2
    case SetOp(_) => 1
    case OrderBy(_) => 1
    case Limit(_) => 1
    case _ => 0
  }

  /** The tables that can be named in front of a column of this part: not those under an alias, in a
    * subquery or in a selection. */
  function Exposes<T(==)>(n: Sql<T>): set<T> {
    match n
    case Table(ref) => {ref}
    case With(_, _, body) => Exposes(body)
    case Node(kind, kids) => set i, t | 0 <= i < |kids| && i < PassedOn(kind) && t in Exposes(kids[i]) :: t
  }

  /** The tables in sight of a part of a node, given those in sight of the node. */
  function SightOf<T(==)>(kind: Kind, kids: seq<Sql<T>>, i: nat, sight: set<T>): set<T> {
    if i < SourceCount(kind) then sight
    else sight + set j, t | 0 <= j < |kids| && j < SourceCount(kind) && t in Exposes(kids[j]) :: t
  }

  /** Every column qualifier of the tree with the tables in sight where it stands. */
  function Sights<T(==)>(n: Sql<T>, sight: set<T>): set<(TableRef, set<T>)> {
    match n
    case Table(_) => {}
    case With(_, def, body) => Sights(def, {}) + Sights(body, sight)
    case Node(kind, kids) =>
      (if kind.Column? then {(kind.qualifier, sight)} else {}) +
      set i, p | 0 <= i < |kids| && p in Sights(kids[i], SightOf(kind, kids, i, sight)) :: p
  }

  lemma {:induction false} ExposedAreRefs<T>(n: Sql<T>)
    ensures Exposes(n) <= Refs(n)
  {
    match n
    case Table(_) =>
    case With(_, _, body) => ExposedAreRefs(body);
    case Node(_, kids) =>
      forall i | 0 <= i < |kids| ensures Exposes(kids[i]) <= Refs(kids[i]) {
        ExposedAreRefs(kids[i]);
      }
  }

  /** Only tables of the tree come into sight. */
  lemma {:induction false} SightsAreRefs<T>(n: Sql<T>, sight: set<T>, p: (TableRef, set<T>))
    requires p in Sights(n, sight)
    ensures p.1 <= sight + Refs(n)
  {
    match n
    case Table(_) =>
    case With(_, def, body) =>
      if p in Sights(def, {}) {
        SightsAreRefs(def, {}, p);
      } else {
        SightsAreRefs(body, sight, p);
      }
    case Node(kind, kids) =>
      if !(kind.Column? && p == (kind.qualifier, sight)) {
        var i :| 0 <= i < |kids| && p in Sights(kids[i], SightOf(kind, kids, i, sight));
        SightsAreRefs(kids[i], SightOf(kind, kids, i, sight), p);
        forall j | 0 <= j < |kids| ensures Exposes(kids[j]) <= Refs(kids[j]) {
          ExposedAreRefs(kids[j]);
        }
        assert Refs(kids[i]) <= Refs(n);
      }
  }

  /** A write operation occurs somewhere in the tree. */
  predicate ContainsWrite<T>(n: Sql<T>) {
    match n
    case Table(_) => false
    case With(_, def, body) => ContainsWrite(def) || ContainsWrite(body)
    case Node(kind, kids) => kind.Write? || exists i :: 0 <= i < |kids| && ContainsWrite(kids[i])
  }

  /** The statement is a SELECT, a set operation or a parenthesized query. */
  predicate IsReadStatement<T>(n: Sql<T>) {
    match n
    case Table(_) => false
    case With(_, _, body) => IsReadStatement(body)
    case Node(kind, kids) =>
      match kind
      case Select(_) => true
      case SelectStar => true
      case SetOp(_) => true
      case Alias(_) => |kids| == 1 && IsReadStatement(kids[0])
      case OrderBy(_) => |kids| == 1 && IsReadStatement(kids[0])
      case Limit(_) => |kids| == 1 && IsReadStatement(kids[0])
      case _ => false
  }

  lemma {:induction false} RefsOfMapped<T, U>(n: Sql<T>, f: T -> U)
    ensures Refs(MapRefs(n, f)) == set t | t in Refs(n) :: f(t)
  {
    match n
    case Table(_) =>
    case With(_, def, body) =>
      RefsOfMapped(def, f);
      RefsOfMapped(body, f);
    case Node(_, kids) =>
      var mapped := MapRefs(n, f);
      forall i | 0 <= i < |kids| ensures mapped.kids[i] == MapRefs(kids[i], f)
        && Refs(mapped.kids[i]) == set t | t in Refs(kids[i]) :: f(t)
      {
        RefsOfMapped(kids[i], f);
      }
      forall r | r in Refs(mapped) ensures r in set t | t in Refs(n) :: f(t) {
        var i :| 0 <= i < |kids| && r in Refs(mapped.kids[i]);
        var t :| t in Refs(kids[i]) && f(t) == r;
        assert t in Refs(n);
      }
      forall t | t in Refs(n) ensures f(t) in Refs(mapped) {
        var i :| 0 <= i < |kids| && t in Refs(kids[i]);
        assert f(t) in Refs(mapped.kids[i]);
      }
  }

  // ------------------------------------------------------------ parts of a tree

  /** The tree itself, the definition and the body of a WITH, the parts of a node, and their parts. */
  ghost predicate IsPart<T(!new)>(p: Sql<T>, n: Sql<T>) {
    || p == n
    || (match n
        case Table(_) => false
        case With(_, def, body) => IsPart(p, def) || IsPart(p, body)
        case Node(_, kids) => exists i :: 0 <= i < |kids| && IsPart(p, kids[i]))
  }

  ghost predicate IsWrite<T>(p: Sql<T>) {
    p.Node? && p.kind.Write?
  }

  /** The statement below its WITHs, parentheses, ORDER BY and LIMIT. */
  function Top<T>(n: Sql<T>): Sql<T> {
    match n
    case Table(_) => n
    case With(_, _, body) => Top(body)
    case Node(kind, kids) => if (kind.Alias? || kind.OrderBy? || kind.Limit?) && |kids| == 1 then Top(kids[0]) else n
  }

  /** A write is found wherever it stands. */
  lemma {:induction false} WritesAreFound<T(!new)>(n: Sql<T>)
    ensures ContainsWrite(n) <==> exists p :: IsPart(p, n) && IsWrite(p)
  {
    match n
    case Table(_) =>
    case With(_, def, body) =>
      WritesAreFound(def);
      WritesAreFound(body);
    case Node(kind, kids) =>
      forall i | 0 <= i < |kids| ensures ContainsWrite(kids[i]) <==> exists p :: IsPart(p, kids[i]) && IsWrite(p) {
        WritesAreFound(kids[i]);
      }
      if kind.Write? {
        assert IsPart(n, n) && IsWrite(n);
      } else if ContainsWrite(n) {
        var i :| 0 <= i < |kids| && ContainsWrite(kids[i]);
        var p :| IsPart(p, kids[i]) && IsWrite(p);
        assert IsPart(p, n);
      }
  }

  /** A read statement is a selection or a set operation, however it is wrapped. */
  lemma {:induction false} ReadsByTheirTop<T>(n: Sql<T>)
    ensures IsReadStatement(n) <==> Top(n).Node? && (Top(n).kind.Select? || Top(n).kind.SelectStar? || Top(n).kind.SetOp?)
  {
    match n
    case Table(_) =>
    case With(_, _, body) => ReadsByTheirTop(body);
    case Node(kind, kids) =>
      if |kids| == 1 {
        ReadsByTheirTop(kids[0]);
      }
  }

  /** The tables of a tree are its table leaves. */
  lemma {:induction false} RefsAreParts<T(!new)>(n: Sql<T>, t: T)
    ensures t in Refs(n) <==> IsPart(Table(t), n)
  {
    match n
    case Table(_) =>
    case With(_, def, body) =>
      RefsAreParts(def, t);
      RefsAreParts(body, t);
    case Node(_, kids) =>
      forall i | 0 <= i < |kids| ensures t in Refs(kids[i]) <==> IsPart(Table(t), kids[i]) {
        RefsAreParts(kids[i], t);
      }
  }

  ghost predicate Binds<T(!new)>(n: Sql<T>, a: string) {
    exists def, body :: IsPart(With(a, def, body), n)
  }

  /** The aliases of a tree are those of its WITHs. */
  lemma {:induction false} AliasesAreParts<T(!new)>(n: Sql<T>, a: string)
    ensures a in Aliases(n) <==> Binds(n, a)
  {
    match n
    case Table(_) =>
    case With(alias, def, body) =>
      AliasesAreParts(def, a);
      AliasesAreParts(body, a);
      assert IsPart(With(alias, def, body), n);
      if a in Aliases(def) {
        var d, b :| IsPart(With(a, d, b), def);
        assert IsPart(With(a, d, b), n);
      } else if a in Aliases(body) {
        var d, b :| IsPart(With(a, d, b), body);
        assert IsPart(With(a, d, b), n);
      }
    case Node(_, kids) =>
      forall i | 0 <= i < |kids| ensures a in Aliases(kids[i]) <==> Binds(kids[i], a) {
        AliasesAreParts(kids[i], a);
      }
      if a in Aliases(n) {
        var i :| 0 <= i < |kids| && a in Aliases(kids[i]);
        var d, b :| IsPart(With(a, d, b), kids[i]);
        assert IsPart(With(a, d, b), n);
      }
  }
}
