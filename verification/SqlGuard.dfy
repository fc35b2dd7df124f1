/** The guard: which table names a query may use, and what they are rewritten to. */
module SqlGuard {
  import opened Common
  import opened SqlAst

  /** A table leaf of the parsed statement; the guard rewrites its qualifiers in place. */
  class TableNode {
    const name: string
    var db: string
    var catalog: string

    constructor (catalog: string, db: string, name: string)
      ensures Ref() == TableRef(catalog, db, name)
    {
      this.catalog, this.db, this.name := catalog, db, name;
    }

    function Ref(): TableRef
      reads this
    {
      TableRef(catalog, db, name)
    }
  }

  type Tree = Sql<TableNode>

  /** The caller's namespace, the catalog, the shared schemas and, when the scratchpad is
    * enabled, where the caller's scratch tables live (an empty catalog switches it off). */
  datatype Config = Config(tenant: string, catalog: string, sharedSchemas: seq<string>,
                           scratchCatalog: string, scratchSchema: string)

  const ScratchAlias := "scratch"
  const DeniedSchemas := {"information_schema", "system", "jdbc", "metadata", "sys", "pg_catalog"}

  /** What the callers of the guard pass: the names it writes into the query are not empty. */
  predicate ValidConfig(cfg: Config) {
    cfg.tenant != "" && cfg.catalog != "" && (cfg.scratchCatalog != "" ==> cfg.scratchSchema != "")
  }

  function Shared(cfg: Config): set<string> {
    set s | s in cfg.sharedSchemas && Trim(s) != "" :: Lower(Trim(s))
  }

  datatype Reason = UnsupportedTable | ForeignCatalog | RestrictedSchema | ForeignNamespace

  /** The decision on one table reference. */
  datatype Verdict = CteName | Scratch | Own | SharedPlane | Refused(reason: Reason)

  function Classify(t: TableRef, names: set<string>, cfg: Config): Verdict {
    var name, db, cat := Lower(t.name), Lower(t.db), Lower(t.catalog);
    if db == "" && cat == "" && name in names then CteName
    else if name == "" then Refused(UnsupportedTable)
    else if cfg.scratchCatalog != "" && db == ScratchAlias && cat == "" then Scratch
    else if cat != "" && cat != Lower(cfg.catalog) then Refused(ForeignCatalog)
    else if db in DeniedSchemas then Refused(RestrictedSchema)
    else if db == "" || db == Lower(cfg.tenant) then Own
    else if db in Shared(cfg) then SharedPlane
    else Refused(ForeignNamespace)
  }

  function Requalify(t: TableRef, names: set<string>, cfg: Config): TableRef {
    match Classify(t, names, cfg)
    case CteName => t
    case Scratch => t.(catalog := cfg.scratchCatalog, db := cfg.scratchSchema)
    case Own => t.(catalog := cfg.catalog, db := cfg.tenant)
    case SharedPlane => t.(catalog := cfg.catalog, db := Lower(t.db))
    case Refused(_) => t
  }

  /** The names bound by any WITH of the statement, wherever it stands. */
  function CteNames<T>(q: Sql<T>): set<string> {
    set a | a in Aliases(q) && a != "" :: Lower(a)
  }

  /** The statement is read-only and every table reference is permitted. */
  predicate Accepts(q: Sql<TableRef>, cfg: Config) {
    IsReadStatement(q) && !ContainsWrite(q) &&
    forall t :: t in Refs(q) ==> Permitted(t, CteNames(q), cfg)
  }

  /** What a query may read, in terms of the words of the reference and the configuration: a name some
    * WITH of the query binds; a scratch table, when the scratchpad is on; the tenant's own tables and those
    * of a shared schema, never a restricted schema and never another catalog. */
  ghost predicate MayRead(t: TableRef, q: Sql<TableRef>, cfg: Config) {
    var name, db, cat := Lower(t.name), Lower(t.db), Lower(t.catalog);
    || (t.db == "" && t.catalog == "" && exists a :: Binds(q, a) && a != "" && Lower(a) == name)
    || (t.name != "" && cfg.scratchCatalog != "" && db == "scratch" && t.catalog == "")
    || (&& t.name != "" && (t.catalog == "" || cat == Lower(cfg.catalog))
        && db != "information_schema" && db != "system" && db != "jdbc" && db != "metadata" && db != "sys" && db != "pg_catalog"
        && (t.db == "" || db == Lower(cfg.tenant)
            || exists s :: s in cfg.sharedSchemas && Trim(s) != "" && Lower(Trim(s)) == db))
  }

  /** The guard accepts exactly the selections and set operations in which no part is a write and every
    * table leaf is one the tenant may read. */
  lemma AcceptsInWords(q: Sql<TableRef>, cfg: Config)
    ensures
      (Accepts(q, cfg)
       <==> && Top(q).Node? && (Top(q).kind.Select? || Top(q).kind.SelectStar? || Top(q).kind.SetOp?)
            && ReadsOnlyPermitted(q, cfg))
  {
    ReadsByTheirTop(q);
    WritesAreFound(q);
    forall t: TableRef ensures t in Refs(q) <==> IsPart(Table(t), q) {
      RefsAreParts(q, t);
    }
    forall t: TableRef ensures Permitted(t, CteNames(q), cfg) <==> MayRead(t, q, cfg) {
      PermittedInWords(t, q, cfg);
    }
    hide MayRead, Classify, CteNames;
  }

  lemma PermittedInWords(t: TableRef, q: Sql<TableRef>, cfg: Config)
    ensures Permitted(t, CteNames(q), cfg) <==> MayRead(t, q, cfg)
  {
    EmptyLower(t.name);
    EmptyLower(t.db);
    EmptyLower(t.catalog);
    CteNamesInWords(q, Lower(t.name));
    hide CteNames, Lower, Trim;
  }

  lemma EmptyLower(s: string)
    ensures Lower(s) == "" <==> s == ""
  {
  }

  lemma CteNamesInWords(q: Sql<TableRef>, name: string)
    ensures name in CteNames(q) <==> exists a :: Binds(q, a) && a != "" && Lower(a) == name
  {
    forall a ensures a in Aliases(q) <==> Binds(q, a) {
      AliasesAreParts(q, a);
    }
  }

  /** The statement the guard hands to the engine. */
  function Rewrite(q: Sql<TableRef>, cfg: Config): Sql<TableRef> {
    MapRefs(q, Renaming(CteNames(q), cfg))
  }

  function Renaming(names: set<string>, cfg: Config): TableRef -> TableRef {
    t => Requalify(t, names, cfg)
  }

  /** The names in a list of references that got a given kind of verdict, in order of first use. */
  function Mentioned(refs: seq<TableRef>, names: set<string>, cfg: Config, scratch: bool): seq<string> {
    if refs == [] then []
    else
      var t := refs[|refs| - 1];
      Mention(Mentioned(refs[..|refs| - 1], names, cfg, scratch), Classify(t, names, cfg), Lower(t.name), scratch)
  }

  function Mention(before: seq<string>, v: Verdict, name: string, scratch: bool): seq<string> {
    if (if scratch then v.Scratch? else v.Own? || v.SharedPlane?) && name !in before then before + [name]
    else before
  }

  /** Names come in the order of their first use: what is mentioned so far only gets longer. */
  lemma {:induction false} MentionedInOrder(refs: seq<TableRef>, i: nat, names: set<string>, cfg: Config, scratch: bool)
    requires i <= |refs|
    ensures Mentioned(refs[..i], names, cfg, scratch) <= Mentioned(refs, names, cfg, scratch)
  {
    hide Classify;
    if i == |refs| {
      assert refs[..i] == refs;
    } else {
      var front := refs[..|refs| - 1];
      MentionedInOrder(front, i, names, cfg, scratch);
      assert front[..i] == refs[..i];
    }
  }

  lemma MentionedFrom(refs: seq<TableRef>, i: nat, names: set<string>, cfg: Config)
    requires i <= |refs|
    ensures forall scratch :: Mentioned(refs[..0], names, cfg, scratch) == []
    ensures i < |refs| ==>
      forall scratch ::
        Mentioned(refs[..i + 1], names, cfg, scratch) ==
        Mention(Mentioned(refs[..i], names, cfg, scratch), Classify(refs[i], names, cfg), Lower(refs[i].name), scratch)
  {
    if i < |refs| {
      assert refs[..i + 1][..i] == refs[..i];
    }
  }

  // ------------------------------------------------------------ the tree in the heap

  /** The tree with each parser node replaced by what `m` says it reads. */
  function Substitute(tree: Tree, m: map<TableNode, TableRef>): Sql<TableRef>
    requires Refs(tree) <= m.Keys
  {
    match tree
    case Table(ref) => Table(m[ref])
    case With(alias, def, body) => With(alias, Substitute(def, m), Substitute(body, m))
    case Node(kind, kids) =>
      Node(kind, seq(|kids|, i requires 0 <= i < |kids| => assert Refs(kids[i]) <= Refs(tree); Substitute(kids[i], m)))
  }

  function Readings(tree: Tree): map<TableNode, TableRef>
    reads Refs(tree)
  {
    map t | t in Refs(tree) :: t.Ref()
  }

  /** The statement as a value: what the parser nodes say now. */
  function Snapshot(tree: Tree): Sql<TableRef>
    reads Refs(tree)
  {
    Substitute(tree, Readings(tree))
  }

  lemma {:induction false} SubstituteShape(tree: Tree, m: map<TableNode, TableRef>)
    requires Refs(tree) <= m.Keys
    ensures Aliases(Substitute(tree, m)) == Aliases(tree)
    ensures ContainsWrite(Substitute(tree, m)) == ContainsWrite(tree)
    ensures IsReadStatement(Substitute(tree, m)) == IsReadStatement(tree)
    ensures forall t :: t in Refs(tree) ==> m[t] in Refs(Substitute(tree, m))
    ensures forall r :: r in Refs(Substitute(tree, m)) ==> exists t :: t in Refs(tree) && m[t] == r
  {
    match tree
    case Table(_) =>
    case With(_, def, body) =>
      SubstituteShape(def, m);
      SubstituteShape(body, m);
    case Node(kind, kids) =>
      var out := Substitute(tree, m);
      forall i | 0 <= i < |kids|
        ensures Refs(kids[i]) <= m.Keys && out.kids[i] == Substitute(kids[i], m)
        ensures Aliases(out.kids[i]) == Aliases(kids[i])
        ensures ContainsWrite(out.kids[i]) == ContainsWrite(kids[i])
        ensures IsReadStatement(out.kids[i]) == IsReadStatement(kids[i])
        ensures forall t :: t in Refs(kids[i]) ==> m[t] in Refs(out.kids[i])
        ensures forall r :: r in Refs(out.kids[i]) ==> exists t :: t in Refs(kids[i]) && m[t] == r
      {
        assert forall t :: t in Refs(kids[i]) ==> t in Refs(tree);
        SubstituteShape(kids[i], m);
      }
      forall r | r in Refs(out) ensures exists t :: t in Refs(tree) && m[t] == r {
        var i :| 0 <= i < |kids| && r in Refs(out.kids[i]);
        var t :| t in Refs(kids[i]) && m[t] == r;
        assert t in Refs(tree);
      }
  }

  /** When every leaf was changed by `f`, the statement was changed by `f`. */
  lemma {:induction false} SubstituteMapped(tree: Tree, m: map<TableNode, TableRef>,
                                            m': map<TableNode, TableRef>, f: TableRef -> TableRef)
    requires Refs(tree) <= m.Keys && Refs(tree) <= m'.Keys
    requires forall t :: t in Refs(tree) ==> m'[t] == f(m[t])
    ensures Substitute(tree, m') == MapRefs(Substitute(tree, m), f)
  {
    match tree
    case Table(_) =>
    case With(_, def, body) =>
      SubstituteMapped(def, m, m', f);
      SubstituteMapped(body, m, m', f);
    case Node(kind, kids) =>
      forall i | 0 <= i < |kids|
        ensures Refs(kids[i]) <= m.Keys && Refs(kids[i]) <= m'.Keys
        ensures Substitute(kids[i], m') == MapRefs(Substitute(kids[i], m), f)
      {
        assert forall t :: t in Refs(kids[i]) ==> t in Refs(tree);
        SubstituteMapped(kids[i], m, m', f);
      }
      assert Substitute(tree, m').kids == MapRefs(Substitute(tree, m), f).kids;
  }

  // ------------------------------------------------------------ the guard itself

  method CollectCteNames(tree: Tree) returns (names: set<string>)
    ensures names == CteNames(tree)
  {
    names := {};
    var rest := Aliases(tree);
    while rest != {}
      invariant rest <= Aliases(tree)
      invariant names == set a | a in Aliases(tree) - rest && a != "" :: Lower(a)
      decreases rest
    {
      var alias :| alias in rest;
      rest := rest - {alias};
      if alias != "" {
        names := names + {Lower(alias)};
      }
    }
  }

  datatype Rejection = NotOneStatement | NotARead | ContainsNonRead | BadReference(reason: Reason)

  datatype Guarded = Accepted(referenced: seq<string>, scratchRefs: seq<string>)
                   | Rejected(why: Rejection)

  /** The references of a walk over the nodes, as the statement stands. */
  ghost function RefsOf(walk: seq<TableNode>): seq<TableRef>
    reads walk
  {
    seq(|walk|, i requires 0 <= i < |walk| reads walk => walk[i].Ref())
  }

  predicate Permitted(t: TableRef, names: set<string>, cfg: Config) {
    !Classify(t, names, cfg).Refused?
  }

  /** Decides on one reference and sets the qualifiers of its node accordingly. */
  method QualifyTable(table: TableNode, names: set<string>, cfg: Config) returns (verdict: Verdict)
    modifies table
    ensures verdict == Classify(old(table.Ref()), names, cfg)
    ensures table.Ref() == Requalify(old(table.Ref()), names, cfg)
  {
    verdict := Classify(table.Ref(), names, cfg);
    match verdict
    case Scratch =>
      table.catalog := cfg.scratchCatalog;
      table.db := cfg.scratchSchema;
    case Own =>
      table.db := cfg.tenant;
      table.catalog := cfg.catalog;
    case SharedPlane =>
      table.db := Lower(table.db);
      table.catalog := cfg.catalog;
    case _ =>
  }

  /** The first reference of a walk that is refused, and why. */
  ghost predicate RefusedFirst(refs: seq<TableRef>, i: nat, reason: Reason, names: set<string>, cfg: Config) {
    && i < |refs| && Classify(refs[i], names, cfg) == Refused(reason)
    && forall j :: 0 <= j < i ==> Permitted(refs[j], names, cfg)
  }

  /** The reasons in terms of the reference: no name, another catalog, a restricted schema, or a schema
    * that is neither the tenant's nor shared; the first that applies. */
  lemma ReasonInWords(t: TableRef, names: set<string>, cfg: Config)
    requires !Permitted(t, names, cfg)
    ensures var reason, db := Classify(t, names, cfg).reason, Lower(t.db);
      && (reason == UnsupportedTable <==> t.name == "")
      && (reason == ForeignCatalog <==> t.name != "" && t.catalog != "" && Lower(t.catalog) != Lower(cfg.catalog))
      && (reason == RestrictedSchema <==>
            && t.name != "" && (t.catalog == "" || Lower(t.catalog) == Lower(cfg.catalog))
            && db in {"information_schema", "system", "jdbc", "metadata", "sys", "pg_catalog"})
      && (reason == ForeignNamespace ==> db != "" && db != Lower(cfg.tenant) && db !in Shared(cfg))
  {
    EmptyLower(t.name);
    EmptyLower(t.db);
    EmptyLower(t.catalog);
    hide Lower, Shared;
  }

  /** Checks one reference after the other, rewriting each that is permitted. */
  method QualifyTables(walk: seq<TableNode>, names: set<string>, cfg: Config) returns (r: Guarded)
    requires NoDuplicates(walk)
    modifies walk
    ensures r.Accepted? <==> forall i :: 0 <= i < |walk| ==> Permitted(old(RefsOf(walk))[i], names, cfg)
    ensures r.Accepted? ==>
      && (forall i :: 0 <= i < |walk| ==> walk[i].Ref() == Requalify(old(RefsOf(walk))[i], names, cfg))
      && r.referenced == Mentioned(old(RefsOf(walk)), names, cfg, false)
      && r.scratchRefs == Mentioned(old(RefsOf(walk)), names, cfg, true)
    ensures r.Rejected? ==>
      r.why.BadReference? && exists i :: RefusedFirst(old(RefsOf(walk)), i, r.why.reason, names, cfg)
  {
    hide Classify, Requalify, Mentioned;
    MentionedFrom(RefsOf(walk), 0, names, cfg);
    var referenced, scratchRefs := [], [];
    ghost var refs := RefsOf(walk);
    var i := 0;
    while i < |walk|
      invariant 0 <= i <= |walk|
      invariant forall j :: 0 <= j < i ==> Permitted(refs[j], names, cfg)
      invariant forall j :: 0 <= j < i ==> walk[j].Ref() == Requalify(refs[j], names, cfg)
      invariant forall j :: i <= j < |walk| ==> walk[j].Ref() == refs[j]
      invariant referenced == Mentioned(refs[..i], names, cfg, false)
      invariant scratchRefs == Mentioned(refs[..i], names, cfg, true)
    {
      var table := walk[i];
      MentionedFrom(refs, i, names, cfg);
      assert forall j :: 0 <= j < |walk| && j != i ==> walk[j] != table;
      var name := Lower(table.name);
      var verdict := QualifyTable(table, names, cfg);
      match verdict {
        case Refused(reason) =>
          assert !Permitted(refs[i], names, cfg) && RefusedFirst(refs, i, reason, names, cfg);
          return Rejected(BadReference(reason));
        case CteName =>
        case Scratch =>
          if name !in scratchRefs {
            scratchRefs := scratchRefs + [name];
          }
        case _ =>
          if name !in referenced {
            referenced := referenced + [name];
          }
      }
      i := i + 1;
    }
    assert refs[..i] == refs;
    r := Accepted(referenced, scratchRefs);
  }

  /** The value of the one statement the parser produced, if it is just one. */
  function Statement(parsed: seq<Option<Tree>>, walk: seq<TableNode>): Option<Sql<TableRef>>
    requires |Present(parsed)| == 1 ==> Refs(Present(parsed)[0]) == set n | n in walk
    reads walk
  {
    var trees := Present(parsed);
    if |trees| == 1 then Some(Snapshot(trees[0])) else None
  }

  /** Qualifies the tables of one tree: all of it is rewritten if every reference is permitted. */
  method QualifyTree(tree: Tree, walk: seq<TableNode>, names: set<string>, cfg: Config) returns (r: Guarded)
    requires NoDuplicates(walk) && Refs(tree) == set n | n in walk
    modifies walk
    ensures r.Accepted? <==> forall t :: t in Refs(old(Snapshot(tree))) ==> Permitted(t, names, cfg)
    ensures r.Accepted? ==>
      && Snapshot(tree) == MapRefs(old(Snapshot(tree)), Renaming(names, cfg))
      && r.referenced == Mentioned(old(RefsOf(walk)), names, cfg, false)
      && r.scratchRefs == Mentioned(old(RefsOf(walk)), names, cfg, true)
    ensures r.Rejected? ==>
      r.why.BadReference? && exists i :: RefusedFirst(old(RefsOf(walk)), i, r.why.reason, names, cfg)
  {
    ghost var before, refs := Readings(tree), RefsOf(walk);
    SameReferences(walk, refs, tree, before);
    r := QualifyTables(walk, names, cfg);
    assert (forall i :: 0 <= i < |walk| ==> Permitted(refs[i], names, cfg))
      <==> (forall t :: t in refs ==> Permitted(t, names, cfg));
    if r.Accepted? {
      forall t: TableNode | t in Refs(tree) ensures t.Ref() == Requalify(before[t], names, cfg) {
        var i :| 0 <= i < |walk| && walk[i] == t;
      }
      SubstituteMapped(tree, before, Readings(tree), Renaming(names, cfg));
    }
  }

  /** Validates parsed statements and qualifies the tables of the one it accepts, in place.
    * `walk` is the order in which the parser's tree walk meets the table nodes. */
  method ValidateSelect(parsed: seq<Option<Tree>>, walk: seq<TableNode>, cfg: Config) returns (r: Guarded)
    requires NoDuplicates(walk)
    requires |Present(parsed)| == 1 ==> Refs(Present(parsed)[0]) == set n | n in walk
    modifies walk
    ensures r.Accepted? <==> old(Statement(parsed, walk)).Some? && Accepts(old(Statement(parsed, walk)).value, cfg)
    ensures r.Accepted? ==>
      var q := old(Statement(parsed, walk)).value;
      && Statement(parsed, walk) == Some(Rewrite(q, cfg))
      && r.referenced == Mentioned(old(RefsOf(walk)), CteNames(q), cfg, false)
      && r.scratchRefs == Mentioned(old(RefsOf(walk)), CteNames(q), cfg, true)
      && ReadsOnlyPermitted(q, cfg)
    ensures r.Rejected? ==>
      RejectedFor(r.why, |Present(parsed)|, old(Statement(parsed, walk)), old(RefsOf(walk)), cfg)
  {
    hide ReadsOnlyPermitted, RejectedFor, RefusedFirst, Mentioned, Requalify, Classify, CteNames, IsReadStatement, ContainsWrite,
         Substitute, MapRefs, RefsOf;
    var trees := Present(parsed);
    ghost var refs := RefsOf(walk);
    if |trees| != 1 {
      NotOneRejected(|trees|, refs, cfg);
      return Rejected(NotOneStatement);
    }
    var tree := trees[0];
    ghost var q := Snapshot(tree);
    SubstituteShape(tree, Readings(tree));
    if !IsReadStatement(tree) {
      NotReadRejected(q, refs, cfg);
      return Rejected(NotARead);
    }
    if ContainsWrite(tree) {
      WriteRejected(q, refs, cfg);
      return Rejected(ContainsNonRead);
    }
    var names := CollectCteNames(tree);
    assert names == CteNames(q) by {
      SameCteNames(tree, q);
    }
    r := QualifyTree(tree, walk, names, cfg);
    if r.Accepted? {
      AcceptedInWords(q, cfg);
    } else {
      ReferenceRejected(q, refs, r.why.reason, cfg);
    }
  }

  lemma SameCteNames<T, U>(a: Sql<T>, b: Sql<U>)
    requires Aliases(a) == Aliases(b)
    ensures CteNames(a) == CteNames(b)
  {
  }

  /** In words: no part of the query is a write, and every table leaf is one the tenant may read. */
  ghost predicate ReadsOnlyPermitted(q: Sql<TableRef>, cfg: Config) {
    && (forall p :: IsPart(p, q) ==> !IsWrite(p))
    && (forall t: TableRef :: IsPart(Table(t), q) ==> MayRead(t, q, cfg))
  }

  /** What is behind each rejection; the checks come in this order. */
  ghost predicate RejectedFor(why: Rejection, statements: nat, q: Option<Sql<TableRef>>, refs: seq<TableRef>, cfg: Config) {
    match why
    case NotOneStatement => statements != 1
    case NotARead => q.Some? && !IsReadStatement(q.value)
    case ContainsNonRead => q.Some? && IsReadStatement(q.value) && exists p :: IsPart(p, q.value) && IsWrite(p)
    case BadReference(reason) =>
      && q.Some? && IsReadStatement(q.value) && (forall p :: IsPart(p, q.value) ==> !IsWrite(p))
      && exists i :: RefusedFirst(refs, i, reason, CteNames(q.value), cfg)
  }

  lemma NotOneRejected(statements: nat, refs: seq<TableRef>, cfg: Config)
    requires statements != 1
    ensures RejectedFor(NotOneStatement, statements, None, refs, cfg)
  {
  }

  lemma NotReadRejected(q: Sql<TableRef>, refs: seq<TableRef>, cfg: Config)
    requires !IsReadStatement(q)
    ensures RejectedFor(NotARead, 1, Some(q), refs, cfg)
  {
  }

  lemma WriteRejected(q: Sql<TableRef>, refs: seq<TableRef>, cfg: Config)
    requires IsReadStatement(q) && ContainsWrite(q)
    ensures RejectedFor(ContainsNonRead, 1, Some(q), refs, cfg)
  {
    WritesAreFound(q);
  }

  lemma ReferenceRejected(q: Sql<TableRef>, refs: seq<TableRef>, reason: Reason, cfg: Config)
    requires IsReadStatement(q) && !ContainsWrite(q)
    requires exists i :: RefusedFirst(refs, i, reason, CteNames(q), cfg)
    ensures RejectedFor(BadReference(reason), 1, Some(q), refs, cfg)
  {
    WritesAreFound(q);
    hide RefusedFirst;
  }

  lemma AcceptedInWords(q: Sql<TableRef>, cfg: Config)
    requires Accepts(q, cfg)
    ensures ReadsOnlyPermitted(q, cfg)
  {
    AcceptsInWords(q, cfg);
    hide Accepts, IsPart, IsWrite, MayRead;
  }

  /** Walking the nodes meets exactly the references of the statement. */
  lemma SameReferences(walk: seq<TableNode>, refs: seq<TableRef>, tree: Tree, m: map<TableNode, TableRef>)
    requires |refs| == |walk| && Refs(tree) <= m.Keys && Refs(tree) == set n | n in walk
    requires forall i :: 0 <= i < |walk| ==> walk[i] in Refs(tree) && refs[i] == m[walk[i]]
    ensures forall r :: r in refs <==> r in Refs(Substitute(tree, m))
  {
    SubstituteShape(tree, m);
    forall r | r in Refs(Substitute(tree, m)) ensures r in refs {
      var t :| t in Refs(tree) && m[t] == r;
      var i :| 0 <= i < |walk| && walk[i] == t;
      assert refs[i] == r;
    }
  }

  /** There is one statement exactly when one entry of the parser's list is not empty. */
  lemma {:induction false} OneStatement<T>(parsed: seq<Option<T>>)
    ensures (Present(parsed) == [] <==> forall i :: 0 <= i < |parsed| ==> parsed[i].None?)
    ensures |Present(parsed)| == 1 <==> exists i :: OnlyOne(parsed, i)
    ensures forall i :: OnlyOne(parsed, i) ==> Present(parsed) == [parsed[i].value]
  {
    if parsed != [] {
      OneStatement(parsed[1..]);
      assert forall i :: 1 <= i < |parsed| ==> parsed[i] == parsed[1..][i - 1];
      if parsed[0].Some? {
        assert Present(parsed[1..]) == [] ==> OnlyOne(parsed, 0);
        forall i | OnlyOne(parsed, i) ensures i == 0 && Present(parsed[1..]) == [] {
          assert parsed[0].Some?;
        }
      } else {
        if exists j :: OnlyOne(parsed[1..], j) {
          var j :| OnlyOne(parsed[1..], j);
          assert OnlyOne(parsed, j + 1);
        }
        forall i | OnlyOne(parsed, i) ensures i >= 1 && OnlyOne(parsed[1..], i - 1) {
        }
      }
    }
  }

  ghost predicate OnlyOne<T>(parsed: seq<Option<T>>, i: int) {
    0 <= i < |parsed| && parsed[i].Some? && forall j :: 0 <= j < |parsed| && j != i ==> parsed[j].None?
  }

  /** The statements the parser produced, without the empty ones. */
  function Present<T>(parsed: seq<Option<T>>): seq<T> {
    if parsed == [] then []
    else (if parsed[0].Some? then [parsed[0].value] else []) + Present(parsed[1..])
  }
}
