/** What a query means.
  *
  * `Fold` gives a query its meaning in any engine that is compositional: one that builds
  * the meaning of a node from the meanings of its parts. `Trino` is one such engine, with
  * joins, correlated subqueries, set operations, ordering and limits. A name is looked up
  * in the common table expressions in scope first and in the database `db` after that.
  */
module SqlEngine {
  import opened Common
  import opened SqlAst

  type Row = seq<Value>

  /** A stored table. */
  datatype Relation = Relation(cols: seq<string>, rows: seq<Row>)

  /** A table as a database finds it: under its full name, however it was referred to. */
  datatype Stored = Stored(fullName: TableRef, table: Relation)

  type Database = TableRef -> Option<Stored>

  datatype Engine<!M> = Engine(
    scan: Relation -> M,            // read a stored table
    missing: M,                     // a name that resolves to nothing
    named: (TableRef, M) -> M,      // a relation under the name its columns can be qualified with
    bound: M -> M,                  // what a CTE name stands for, given its definition
    letIn: (M, M) -> M,             // definition, body
    node: (Kind, seq<M>) -> M
  )

  function Fold<M>(n: Sql<TableRef>, e: Engine<M>, db: Database, ctes: map<string, M>): M {
    match n
    case Table(ref) =>
      var key := Lower(ref.name);
      if ref.Bare() && key in ctes then e.named(TableRef("", "", key), ctes[key])
      else
        var found := db(ref);
        if found.None? then e.missing else e.named(found.value.fullName, e.scan(found.value.table))
    case With(alias, def, body) =>
      var d := Fold(def, e, db, ctes);
      e.letIn(d, Fold(body, e, db, ctes[Lower(alias) := e.bound(d)]))
    case Node(kind, kids) =>
      e.node(kind, seq(|kids|, i requires 0 <= i < |kids| => Fold(kids[i], e, db, ctes)))
  }

  /** The meanings of the parts from which the meaning of a node is made. */
  lemma FoldNode<M>(kind: Kind, kids: seq<Sql<TableRef>>, e: Engine<M>, db: Database, ctes: map<string, M>)
    returns (parts: seq<M>)
    ensures |parts| == |kids|
    ensures forall i :: 0 <= i < |kids| ==> parts[i] == Fold(kids[i], e, db, ctes)
    ensures Fold(Node(kind, kids), e, db, ctes) == e.node(kind, parts)
  {
    parts := seq(|kids|, i requires 0 <= i < |kids| => Fold(kids[i], e, db, ctes));
    var n := Node(kind, kids);
    assert Fold(n, e, db, ctes) == e.node(kind, seq(|n.kids|, i requires 0 <= i < |n.kids| => Fold(n.kids[i], e, db, ctes)));
    assert parts == seq(|n.kids|, i requires 0 <= i < |n.kids| => Fold(n.kids[i], e, db, ctes));
  }

  // ------------------------------------------------------------ a concrete engine

  datatype ColumnId = ColumnId(qualifier: TableRef, name: string)
  datatype Frame = Frame(cols: seq<ColumnId>, row: Row)

  /** The outcome of evaluating a piece of a query. `Failed` is the engine's analysis error. */
  datatype Result = Failed | Rows(cols: seq<ColumnId>, rows: seq<Row>) | Cell(v: Value)

  /** A meaning is evaluated under the rows of the enclosing queries, innermost first. */
  type Meaning = seq<Frame> -> Result

  function Qualified(names: seq<string>, qualifier: TableRef): seq<ColumnId> {
    seq(|names|, i requires 0 <= i < |names| => ColumnId(qualifier, names[i]))
  }

  function Requalified(cols: seq<ColumnId>, qualifier: TableRef): seq<ColumnId> {
    seq(|cols|, i requires 0 <= i < |cols| => ColumnId(qualifier, cols[i].name))
  }

  function Scan(rel: Relation): Meaning {
    frames => Rows(Qualified(rel.cols, Unnamed), rel.rows)
  }

  function Named(name: TableRef, m: Meaning): Meaning {
    frames =>
      match m(frames)
      case Rows(cols, rows) => Rows(Requalified(cols, name), rows)
      case _ => Failed
  }

  /** A CTE is not correlated with the query that uses it. */
  function Bound(m: Meaning): Meaning {
    frames => m([])
  }

  function LetIn(def: Meaning, body: Meaning): Meaning {
    frames => if def([]).Rows? then body(frames) else Failed
  }

  function Arity(kind: Kind): Option<nat> {
    match kind
    case OneRow => Some(0)
    case Alias(_) => Some(1)
    case Join => Some(3)
    case Select(names) => Some(2 + |names|)
    case SelectStar => Some(2)
    case SetOp(_) => Some(2)
    case OrderBy(_) => Some(1)
    case Limit(_) => Some(1)
    case Column(_, _) => Some(0)
    case Literal(_) => Some(0)
    case Equals => Some(2)
    case Less => Some(2)
    case And => Some(2)
    case Not => Some(1)
    case Exists => Some(1)
    case InQuery => Some(2)
    case ScalarQuery => Some(1)
    case Write(_) => None
  }

  /** A qualifier means every relation whose full name ends in it. */
  predicate Means(qualifier: TableRef, relation: TableRef) {
    qualifier.name == "" ||
    (Lower(relation.name) == Lower(qualifier.name) &&
     (qualifier.db == "" ||
      (Lower(relation.db) == Lower(qualifier.db) &&
       (qualifier.catalog == "" || Lower(relation.catalog) == Lower(qualifier.catalog)))))
  }

  /** Where a column of a row is. */
  datatype Place = Nowhere | Position(i: nat) | Ambiguous

  function PlaceOf(cols: seq<ColumnId>, qualifier: TableRef, name: string): Place {
    if cols == [] then Nowhere
    else
      var rest := PlaceOf(cols[1..], qualifier, name);
      if Lower(cols[0].name) == Lower(name) && Means(qualifier, cols[0].qualifier) then
        if rest.Nowhere? then Position(0) else Ambiguous
      else if rest.Position? then Position(rest.i + 1)
      else rest
  }

  function At(row: Row, i: nat): Value {
    if i < |row| then row[i] else Null
  }

  function LookUp(frames: seq<Frame>, qualifier: TableRef, name: string): Result {
    if frames == [] then Failed
    else
      match PlaceOf(frames[0].cols, qualifier, name)
      case Position(i) => Cell(At(frames[0].row, i))
      case Ambiguous => Failed
      case Nowhere => LookUp(frames[1..], qualifier, name)
  }

  function Nulls(n: nat): Row {
    seq(n, i => Null)
  }

  function CellValue(r: Result): Value {
    if r.Cell? then r.v else Null
  }

  /** SQL comparison and connectives are three-valued: NULL is unknown. */
  function EqualValue(a: Value, b: Value): Value {
    if a.Null? || b.Null? then Null else Boolean(a == b)
  }

  function LessValue(a: Value, b: Value): Value {
    if a.Null? || b.Null? then Null else Boolean(Before(a, b))
  }

  function AndValue(a: Value, b: Value): Value {
    if a == Boolean(false) || b == Boolean(false) then Boolean(false)
    else if a == Boolean(true) && b == Boolean(true) then Boolean(true)
    else Null
  }

  function NotValue(a: Value): Value {
    if a.Boolean? then Boolean(!a.b) else Null
  }

  function InValue(v: Value, rows: seq<Row>): Value {
    if rows == [] then Boolean(false)
    else
      var first := EqualValue(v, At(rows[0], 0));
      if first == Boolean(true) then first
      else
        var rest := InValue(v, rows[1..]);
        if rest == Boolean(true) || first.Boolean? then rest else Null
  }

  /** A total order on values of one type; NULL sorts last. */
  predicate Before(a: Value, b: Value) {
    match (a, b)
    case (Boolean(x), Boolean(y)) => !x && y
    case (Integer(x), Integer(y)) => x < y
    case (Text(x), Text(y)) => TextBefore(x, y)
    case (Null, _) => false
    case (_, Null) => true
    case (Boolean(_), _) => true
    case (Integer(_), Text(_)) => true
    case (_, _) => false
  }

  predicate RowBefore(keys: seq<nat>, a: Row, b: Row) {
    keys != [] &&
    (Before(At(a, keys[0]), At(b, keys[0])) ||
     (!Before(At(b, keys[0]), At(a, keys[0])) && RowBefore(keys[1..], a, b)))
  }

  /** Insert after every row that does not come later: sorting is stable. */
  function InsertSorted(row: Row, rows: seq<Row>, keys: seq<nat>): seq<Row> {
    if rows == [] || RowBefore(keys, row, rows[0]) then [row] + rows
    else [rows[0]] + InsertSorted(row, rows[1..], keys)
  }

  function SortRows(rows: seq<Row>, keys: seq<nat>): seq<Row> {
    if rows == [] then []
    else InsertSorted(rows[|rows| - 1], SortRows(rows[..|rows| - 1], keys), keys)
  }

  function Distinct(rows: seq<Row>): seq<Row> {
    if rows == [] then []
    else
      var rest := Distinct(rows[..|rows| - 1]);
      if rows[|rows| - 1] in rest then rest else rest + [rows[|rows| - 1]]
  }

  function Restrict(rows: seq<Row>, other: seq<Row>, keep: bool): seq<Row> {
    if rows == [] then []
    else (if (rows[0] in other) == keep then [rows[0]] else []) + Restrict(rows[1..], other, keep)
  }

  function Combine(op: SetOperator, left: seq<Row>, right: seq<Row>): seq<Row> {
    match op
    case UnionAll => left + right
    case UnionDistinct => Distinct(left + right)
    case Intersect => Distinct(Restrict(left, right, true))
    case Except => Distinct(Restrict(left, right, false))
  }

  function Take<T>(n: nat, s: seq<T>): seq<T> {
    if n < |s| then s[..n] else s
  }

  /** Rows on which the condition is true (not false, not NULL). */
  function Filter(rows: seq<Row>, cols: seq<ColumnId>, cond: Meaning, frames: seq<Frame>): seq<Row> {
    if rows == [] then []
    else
      (if cond([Frame(cols, rows[0])] + frames) == Cell(Boolean(true)) then [rows[0]] else []) +
      Filter(rows[1..], cols, cond, frames)
  }

  function PairWith(row: Row, rows: seq<Row>): seq<Row> {
    seq(|rows|, i requires 0 <= i < |rows| => row + rows[i])
  }

  function Product(left: seq<Row>, right: seq<Row>): seq<Row> {
    if left == [] then [] else PairWith(left[0], right) + Product(left[1..], right)
  }

  function Project(rows: seq<Row>, cols: seq<ColumnId>, items: seq<Meaning>, frames: seq<Frame>): seq<Row> {
    seq(|rows|, i requires 0 <= i < |rows| =>
        seq(|items|, j requires 0 <= j < |items| => CellValue(items[j]([Frame(cols, rows[i])] + frames))))
  }

  /** Names are resolved before any row is read: an expression is analyzed under a row of NULLs. */
  predicate Analyzes(exprs: seq<Meaning>, cols: seq<ColumnId>, frames: seq<Frame>) {
    forall i :: 0 <= i < |exprs| ==> exprs[i]([Frame(cols, Nulls(|cols|))] + frames).Cell?
  }

  function JoinRows(left: Result, right: Result, cond: Meaning, frames: seq<Frame>): Result {
    if left.Rows? && right.Rows? && Analyzes([cond], left.cols + right.cols, frames) then
      var cols := left.cols + right.cols;
      Rows(cols, Filter(Product(left.rows, right.rows), cols, cond, frames))
    else Failed
  }

  function SelectRows(names: seq<string>, src: Result, cond: Meaning, items: seq<Meaning>, frames: seq<Frame>): Result {
    if src.Rows? && Analyzes([cond] + items, src.cols, frames) then
      Rows(Qualified(names, Unnamed), Project(Filter(src.rows, src.cols, cond, frames), src.cols, items, frames))
    else Failed
  }

  function StarRows(src: Result, cond: Meaning, frames: seq<Frame>): Result {
    if src.Rows? && Analyzes([cond], src.cols, frames) then
      Rows(Requalified(src.cols, Unnamed), Filter(src.rows, src.cols, cond, frames))
    else Failed
  }

  function Binary(kind: Kind, a: Result, b: Result): Result {
    if a.Cell? && b.Cell? then
      match kind
      case Equals => Cell(EqualValue(a.v, b.v))
      case Less => Cell(LessValue(a.v, b.v))
      case _ => Cell(AndValue(a.v, b.v))
    else Failed
  }

  function LimitRows(clause: LimitClause, r: Result): Result {
    if r.Rows? then (if clause.Count? then Rows(r.cols, Take(clause.n, r.rows)) else r) else Failed
  }

  function OrderRows(keys: seq<nat>, r: Result): Result {
    if r.Rows? && (forall k :: k in keys ==> k < |r.cols|) then Rows(r.cols, SortRows(r.rows, keys))
    else Failed
  }

  function Apply(kind: Kind, parts: seq<Meaning>, frames: seq<Frame>): Result
    requires Arity(kind) == Some(|parts|)
  {
    match kind
    case OneRow => Rows([], [[]])
    case Alias(alias) => Named(TableRef("", "", alias), parts[0])(frames)
    case Join => JoinRows(parts[0](frames), parts[1](frames), parts[2], frames)
    case Select(names) => SelectRows(names, parts[0](frames), parts[1], parts[2..], frames)
    case SelectStar => StarRows(parts[0](frames), parts[1], frames)
    case SetOp(op) =>
      var left, right := parts[0](frames), parts[1](frames);
      if left.Rows? && right.Rows? && |left.cols| == |right.cols| then
        Rows(left.cols, Combine(op, left.rows, right.rows))
      else Failed
    case OrderBy(keys) => OrderRows(keys, parts[0](frames))
    case Limit(clause) => LimitRows(clause, parts[0](frames))
    case Column(qualifier, name) => LookUp(frames, qualifier, name)
    case Literal(value) => Cell(value)
    case Not => var a := parts[0](frames); if a.Cell? then Cell(NotValue(a.v)) else Failed
    case Exists => var q := parts[0](frames); if q.Rows? then Cell(Boolean(q.rows != [])) else Failed
    case InQuery =>
      var a, q := parts[0](frames), parts[1](frames);
      if a.Cell? && q.Rows? then Cell(InValue(a.v, q.rows)) else Failed
    case ScalarQuery =>
      var q := parts[0](frames);
      if q.Rows? then Cell(if q.rows == [] then Null else At(q.rows[0], 0)) else Failed
    case _ => Binary(kind, parts[0](frames), parts[1](frames))
  }

  function NodeMeaning(kind: Kind, parts: seq<Meaning>): Meaning {
    frames => if Arity(kind) == Some(|parts|) then Apply(kind, parts, frames) else Failed
  }

  const Trino: Engine<Meaning> :=
    Engine(rel => Scan(rel), (frames => Failed), (name, m) => Named(name, m), m => Bound(m),
           (d, b) => LetIn(d, b), (kind, parts) => NodeMeaning(kind, parts))

  /** The answer to a whole statement: columns have names and no qualifiers. */
  function Answer(r: Result): Result {
    if r.Rows? then Rows(Requalified(r.cols, Unnamed), r.rows) else r
  }

  /** The result of a whole statement. */
  function Run(q: Sql<TableRef>, db: Database): Result {
    Answer(Fold(q, Trino, db, map[])([]))
  }

  // ------------------------------------------------------------ names are resolved strictly

  /** The full names columns can be qualified with; None stands for any names. */
  type Names = Option<set<TableRef>>

  ghost predicate Within(cols: seq<ColumnId>, names: Names) {
    names.Some? ==> forall i :: 0 <= i < |cols| ==> cols[i].qualifier.db == "" || cols[i].qualifier in names.value
  }

  ghost predicate AllWithin(frames: seq<Frame>, names: Names) {
    forall i :: 0 <= i < |frames| ==> Within(frames[i].cols, names)
  }

  /** Whatever this part sees, it shows only relations of these names. */
  ghost predicate Shows(m: Meaning, names: Names) {
    forall frames :: m(frames).Rows? ==> Within(m(frames).cols, names)
  }

  /** This part fails wherever only relations of these names are in sight. */
  ghost predicate Broken(m: Meaning, names: Names) {
    forall frames :: AllWithin(frames, names) ==> m(frames).Failed?
  }

  predicate Wider(inner: Names, names: Names) {
    inner.Some? ==> names.Some? && names.value <= inner.value
  }

  /** The sources of a node show only relations of these names. */
  ghost predicate SourcesShow(kind: Kind, parts: seq<Meaning>, names: Names) {
    forall i :: 0 <= i < |parts| && i < SourceCount(kind) ==> Shows(parts[i], names)
  }

  /** An expression that is broken is found out, whatever the rows are. */
  lemma BrokenExpression(exprs: seq<Meaning>, i: nat, cols: seq<ColumnId>, frames: seq<Frame>, names: Names)
    requires i < |exprs| && Broken(exprs[i], names)
    requires Within(cols, names) && AllWithin(frames, names)
    ensures !Analyzes(exprs, cols, frames)
  {
    var inner := [Frame(cols, Nulls(|cols|))] + frames;
    assert AllWithin(inner, names);
    assert exprs[i](inner).Failed?;
  }

  /** A node with one broken part is broken: no part is skipped by analysis. The part may see the rows
    * of the sources beside what the node sees. */
  lemma BrokenPart(kind: Kind, parts: seq<Meaning>, i: nat, names: Names, inner: Names)
    requires i < |parts| && Broken(parts[i], inner) && Wider(inner, names) && SourcesShow(kind, parts, inner)
    ensures Broken(NodeMeaning(kind, parts), names)
  {
    forall frames | AllWithin(frames, names) ensures NodeMeaning(kind, parts)(frames).Failed? {
      if Arity(kind) == Some(|parts|) {
        assert AllWithin(frames, inner);
        BrokenPartFails(kind, parts, i, inner, frames);
      }
    }
  }

  lemma BrokenPartFails(kind: Kind, parts: seq<Meaning>, i: nat, inner: Names, frames: seq<Frame>)
    requires i < |parts| && Broken(parts[i], inner) && Arity(kind) == Some(|parts|) && SourcesShow(kind, parts, inner)
    requires AllWithin(frames, inner)
    ensures Apply(kind, parts, frames).Failed?
  {
    assert forall j :: 0 <= j < |parts| && j < SourceCount(kind) && parts[j](frames).Rows? ==> Within(parts[j](frames).cols, inner);
    hide Analyzes;
    match kind
    case Join =>
      if i == 2 {
        var l, r := parts[0](frames), parts[1](frames);
        if l.Rows? && r.Rows? {
          BrokenExpression([parts[2]], 0, l.cols + r.cols, frames, inner);
        }
      }
    case SelectStar =>
      if i == 1 {
        var src := parts[0](frames);
        if src.Rows? {
          BrokenExpression([parts[1]], 0, src.cols, frames, inner);
        }
      }
    case Select(names) =>
      if i >= 1 {
        var src := parts[0](frames);
        if src.Rows? {
          BrokenExpression([parts[1]] + parts[2..], i - 1, src.cols, frames, inner);
        }
      }
    case _ =>
  }

  // ------------------------------------------------------------ what a part shows

  /** The full names under which a database knows these tables. */
  function NamesIn(refs: set<TableRef>, db: Database): Names {
    Some(set t | t in refs && db(t).Some? :: db(t).value.fullName)
  }

  lemma NamesGrow(refs: set<TableRef>, more: set<TableRef>, db: Database)
    requires refs <= more
    ensures Wider(NamesIn(more, db), NamesIn(refs, db))
  {
  }

  lemma NodeShows(kind: Kind, parts: seq<Meaning>, names: Names)
    requires forall i :: 0 <= i < |parts| && i < PassedOn(kind) ==> Shows(parts[i], names)
    ensures Shows(NodeMeaning(kind, parts), names)
  {
    forall frames | NodeMeaning(kind, parts)(frames).Rows? ensures Within(NodeMeaning(kind, parts)(frames).cols, names) {
      assert forall i :: 0 <= i < |parts| && i < PassedOn(kind) && parts[i](frames).Rows? ==> Within(parts[i](frames).cols, names);
      ApplyShows(kind, parts, frames, names);
    }
  }

  lemma ApplyShows(kind: Kind, parts: seq<Meaning>, frames: seq<Frame>, names: Names)
    requires Arity(kind) == Some(|parts|) && Apply(kind, parts, frames).Rows?
    requires forall i :: 0 <= i < |parts| && i < PassedOn(kind) && parts[i](frames).Rows? ==> Within(parts[i](frames).cols, names)
    ensures Within(Apply(kind, parts, frames).cols, names)
  {
    hide Filter, Analyzes, Project, LookUp, Combine, SortRows, InValue, Product;
    match kind
    case Column(x, name) => LookUpIsNoRows(frames, x, name);
    case _ =>
  }

  lemma {:induction false} LookUpIsNoRows(frames: seq<Frame>, qualifier: TableRef, name: string)
    ensures !LookUp(frames, qualifier, name).Rows?
  {
    if frames != [] {
      LookUpIsNoRows(frames[1..], qualifier, name);
    }
  }

  lemma NamedShows(name: TableRef, m: Meaning, names: set<TableRef>)
    requires name.db == "" || name in names
    ensures Shows(Named(name, m), Some(names))
  {
    forall frames | Named(name, m)(frames).Rows? ensures Within(Named(name, m)(frames).cols, Some(names)) {
      assert Named(name, m)(frames).cols == Requalified(m(frames).cols, name);
    }
  }

  /** A part of a query shows no relation but the tables it exposes and relations outside any schema. */
  lemma {:induction false} FoldShows(n: Sql<TableRef>, db: Database, ctes: map<string, Meaning>, refs: set<TableRef>)
    requires Exposes(n) <= refs
    ensures Shows(Fold(n, Trino, db, ctes), NamesIn(refs, db))
  {
    hide Lower, Shows;
    match n
    case Table(t) => LeafShows(t, db, ctes, refs);
    case With(alias, def, body) =>
      var d := Fold(def, Trino, db, ctes);
      assert Trino.bound(d) == Bound(d);
      FoldShows(body, db, ctes[Lower(alias) := Bound(d)], refs);
      LetInShows(d, Fold(body, Trino, db, ctes[Lower(alias) := Bound(d)]), NamesIn(refs, db));
    case Node(kind, kids) =>
      var parts := FoldNode(kind, kids, Trino, db, ctes);
      forall i | 0 <= i < |kids| && i < PassedOn(kind) ensures Shows(parts[i], NamesIn(refs, db)) {
        assert Exposes(kids[i]) <= Exposes(n);
        FoldShows(kids[i], db, ctes, refs);
      }
      NodeShows(kind, parts, NamesIn(refs, db));
  }

  lemma LeafShows(t: TableRef, db: Database, ctes: map<string, Meaning>, refs: set<TableRef>)
    requires t in refs
    ensures Shows(Fold(Table(t), Trino, db, ctes), NamesIn(refs, db))
  {
    var key := Lower(t.name);
    if t.Bare() && key in ctes {
      NamedShows(TableRef("", "", key), ctes[key], NamesIn(refs, db).value);
    } else if db(t).Some? {
      NamedShows(db(t).value.fullName, Scan(db(t).value.table), NamesIn(refs, db).value);
    }
  }

  lemma LetInShows(d: Meaning, body: Meaning, names: Names)
    requires Shows(body, names)
    ensures Shows(LetIn(d, body), names)
  {
  }
}
