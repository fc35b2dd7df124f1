/** Queries the guard accepts and the rewrite changes the meaning of. */
module SqlExamples {
  import opened Common
  import opened SqlAst
  import opened SqlEngine
  import opened SqlGuard
  import opened SqlMeaning
  import opened SqlColumns

  // ------------------------------------------------------------ a CTE name out of scope

  function StarFrom(name: string, cond: Sql<TableRef>): Sql<TableRef> {
    Node(SelectStar, [Table(TableRef("", "", name)), cond])
  }

  const Always: Sql<TableRef> := Node(Literal(Boolean(true)), [])

  /** EXISTS (WITH c AS (SELECT * FROM e) SELECT * FROM c) */
  const ScopedPart: Sql<TableRef> := Node(Exists, [With("c", StarFrom("e", Always), StarFrom("c", Always))])

  /** SELECT * FROM c WHERE EXISTS (WITH c AS (SELECT * FROM e) SELECT * FROM c) */
  const OutOfScopeExample: Sql<TableRef> := StarFrom("c", ScopedPart)

  lemma OutOfScopeSyntax(cfg: Config)
    requires ValidConfig(cfg)
    ensures Accepts(OutOfScopeExample, cfg) && !WellScoped(OutOfScopeExample)
  {
    assert Lower("c") == "c";
    OutOfScopeNames();
    OutOfScopeRefs();
    BareNamePermitted("c", {"c"}, cfg);
    BareNamePermitted("e", {"c"}, cfg);
    assert !ContainsWrite(OutOfScopeExample) by {
      assert !ContainsWrite(StarFrom("e", Always)) && !ContainsWrite(StarFrom("c", Always));
      assert !ContainsWrite(ScopedPart);
    }
    assert !Scoped(OutOfScopeExample, {"c"}, {}) by {
      assert !Scoped(OutOfScopeExample.kids[0], {"c"}, {});
    }
  }

  lemma OutOfScopeNames()
    ensures CteNames(OutOfScopeExample) == {"c"}
  {
    var q := OutOfScopeExample;
    assert Lower("c") == "c";
    assert Aliases(q) == {"c"} by {
      assert Aliases(ScopedPart.kids[0]) == {"c"};
      assert Aliases(q.kids[1]) == {"c"} && Aliases(q.kids[0]) == {};
      assert "c" in Aliases(q);
    }
    assert "c" in CteNames(q);
  }

  lemma OutOfScopeRefs()
    ensures Refs(OutOfScopeExample) <= {TableRef("", "", "c"), TableRef("", "", "e")}
  {
    assert Refs(OutOfScopeExample.kids[0]) == {TableRef("", "", "c")};
    assert Refs(StarFrom("e", Always)) <= {TableRef("", "", "e")};
    assert Refs(StarFrom("c", Always)) <= {TableRef("", "", "c")};
    assert Refs(ScopedPart) <= {TableRef("", "", "c"), TableRef("", "", "e")};
  }

  lemma BareNamePermitted(name: string, names: set<string>, cfg: Config)
    requires name != ""
    ensures Permitted(TableRef("", "", name), names, cfg)
  {
    assert Lower("") == "" && Lower(name) != "";
  }

  /** This part yields rows wherever it is evaluated. */
  ghost predicate YieldsRows(m: Meaning) {
    forall frames :: m(frames).Rows?
  }

  ghost predicate YieldsCells(m: Meaning) {
    forall frames :: m(frames).Cell?
  }

  lemma StarYieldsRows(name: string, cond: Sql<TableRef>, db: Database, ctes: map<string, Meaning>)
    requires Lower(name) == name && db(TableRef("", "", name)).Some?
    requires forall c :: c in ctes ==> YieldsRows(ctes[c])
    requires YieldsCells(Fold(cond, Trino, db, ctes))
    ensures YieldsRows(Fold(StarFrom(name, cond), Trino, db, ctes))
  {
    var q := StarFrom(name, cond);
    var parts := FoldNode(q.kind, q.kids, Trino, db, ctes);
    forall frames ensures Fold(q, Trino, db, ctes)(frames).Rows? {
      var src := parts[0](frames);
      assert src.Rows?;
      assert Arity(q.kind) == Some(|parts|);
      assert Fold(q, Trino, db, ctes) == NodeMeaning(q.kind, parts);
      assert NodeMeaning(q.kind, parts)(frames) == StarRows(src, parts[1], frames);
    }
  }

  lemma ScopedPartYieldsCells(db: Database)
    requires db(TableRef("", "", "c")).Some? && db(TableRef("", "", "e")).Some?
    ensures YieldsCells(Fold(ScopedPart, Trino, db, map[]))
  {
    var noCtes: map<string, Meaning> := map[];
    AlwaysYieldsCells(db, noCtes);
    StarYieldsRows("e", Always, db, noCtes);
    var d := Fold(StarFrom("e", Always), Trino, db, noCtes);
    assert Lower("c") == "c";
    var ctes: map<string, Meaning> := noCtes["c" := Bound(d)];
    assert YieldsRows(Bound(d));
    AlwaysYieldsCells(db, ctes);
    StarYieldsRows("c", Always, db, ctes);
    var parts := FoldNode(Exists, ScopedPart.kids, Trino, db, noCtes);
    assert parts[0] == LetIn(d, Fold(StarFrom("c", Always), Trino, db, ctes));
    forall frames ensures parts[0](frames).Rows? {
    }
    ExistsYieldsCells(parts);
    assert Fold(ScopedPart, Trino, db, noCtes) == NodeMeaning(Exists, parts);
  }

  lemma ExistsYieldsCells(parts: seq<Meaning>)
    requires |parts| == 1 && YieldsRows(parts[0])
    ensures YieldsCells(NodeMeaning(Exists, parts))
  {
    assert Arity(Exists) == Some(|parts|);
    forall frames ensures NodeMeaning(Exists, parts)(frames).Cell? {
      assert parts[0](frames).Rows?;
    }
  }

  lemma AlwaysYieldsCells(db: Database, ctes: map<string, Meaning>)
    ensures YieldsCells(Fold(Always, Trino, db, ctes))
  {
    var parts := FoldNode(Always.kind, Always.kids, Trino, db, ctes);
    assert Fold(Always, Trino, db, ctes) == NodeMeaning(Always.kind, parts);
    assert Arity(Always.kind) == Some(|parts|);
  }

  /** A tenant with tables c and e: the guard accepts the query, the user's view answers it, and
    * the rewritten statement fails, because CTE names are collected without their scope. */
  lemma OutOfScopeWitness(cfg: Config, rel: Relation)
    requires ValidConfig(cfg)
    ensures Accepts(OutOfScopeExample, cfg)
    ensures
      var g: Global := map[(Lower(cfg.catalog), Lower(cfg.tenant), "c") := rel,
                           (Lower(cfg.catalog), Lower(cfg.tenant), "e") := rel];
      && Run(OutOfScopeExample, ViewDatabase(ViewOf(g, cfg), cfg)).Rows?
      && Run(Rewrite(OutOfScopeExample, cfg), GlobalDatabase(g, cfg)).Failed?
  {
    var g: Global := map[(Lower(cfg.catalog), Lower(cfg.tenant), "c") := rel,
                         (Lower(cfg.catalog), Lower(cfg.tenant), "e") := rel];
    var db := ViewDatabase(ViewOf(g, cfg), cfg);
    hide ViewOf, ViewDatabase, GlobalDatabase, Rewrite, Run;
    OwnTableFound("c", g, cfg, rel);
    OwnTableFound("e", g, cfg, rel);
    OutOfScopeSyntax(cfg);
    assert Lower("c") == "c";
    ScopedPartYieldsCells(db);
    StarYieldsRows("c", ScopedPart, db, map[]);
    assert Run(OutOfScopeExample, db).Rows? by {
      RunIsFold(OutOfScopeExample, db);
    }
    RewriteMeaning(OutOfScopeExample, cfg, g);
  }

  lemma RunIsFold(q: Sql<TableRef>, db: Database)
    ensures Run(q, db).Rows? <==> Fold(q, Trino, db, map[])([]).Rows?
    ensures Run(q, db).Failed? <==> Fold(q, Trino, db, map[])([]).Failed?
  {
  }

  lemma OwnTableFound(name: string, g: Global, cfg: Config, rel: Relation)
    requires Lower(name) == name && Lookup(g, (Lower(cfg.catalog), Lower(cfg.tenant), name)) == Some(rel)
    ensures ViewDatabase(ViewOf(g, cfg), cfg)(TableRef("", "", name)).Some?
  {
    hide ViewOf;
    ViewHolds(g, cfg, "", name);
    assert Lower("") == "";
  }

  // ------------------------------------------------------------ columns of a scratch table

  const Adults := TableRef("", "scratch", "adults")

  /** SELECT schema.adults.id FROM scratch.adults */
  function ScratchColumn(schema: string): Sql<TableRef> {
    Node(Select(["id"]), [Table(Adults), Always, Node(Column(TableRef("", schema, "adults"), "id"), [])])
  }

  lemma OneColumn(full: TableRef, row: Row, x: TableRef)
    ensures LookUp([Frame([ColumnId(full, "id")], row)], x, "id").Cell? <==> Means(x, full)
  {
    hide Means;
    var cols := [ColumnId(full, "id")];
    assert cols[1..] == [];
    assert PlaceOf(cols, x, "id") == if Means(x, full) then Position(0) else Nowhere;
    assert [Frame(cols, row)][1..] == [];
  }

  /** The answer depends on whether the qualifier means the scratch table. */
  lemma ScratchColumnAnswer(schema: string, db: Database, rel: Relation, full: TableRef)
    requires db(Adults) == Some(Stored(full, rel)) && rel.cols == ["id"]
    ensures Run(ScratchColumn(schema), db).Rows? <==> Means(TableRef("", schema, "adults"), full)
    ensures Run(ScratchColumn(schema), db).Failed? <==> !Means(TableRef("", schema, "adults"), full)
  {
    hide Means, Lower;
    var q := ScratchColumn(schema);
    var none: map<string, Meaning> := map[];
    var frames: seq<Frame> := [];
    var x := TableRef("", schema, "adults");
    AlwaysYieldsCells(db, none);
    var parts := FoldNode(q.kind, q.kids, Trino, db, none);
    assert parts[0] == Named(full, Scan(rel)) by {
      assert parts[0] == Fold(q.kids[0], Trino, db, none);
    }
    var src := parts[0](frames);
    assert src.cols == [ColumnId(full, "id")] by {
      assert src == Rows(Requalified(Qualified(rel.cols, Unnamed), full), rel.rows);
    }
    var inner := [Frame(src.cols, Nulls(1))];
    var item := FoldNode(q.kids[2].kind, [], Trino, db, none);
    assert parts[2](inner) == LookUp(inner, x, "id");
    OneColumn(full, Nulls(1), x);
    assert parts[1](inner).Cell?;
    var exprs := [parts[1]] + parts[2..];
    assert inner + frames == inner;
    assert Analyzes(exprs, src.cols, frames) <==> parts[2](inner).Cell? by {
      assert |exprs| == 2 && exprs[0] == parts[1] && exprs[1] == parts[2];
    }
    assert Fold(q, Trino, db, none)(frames) == SelectRows(["id"], src, parts[1], parts[2..], frames);
  }

  lemma ScratchColumnLeaves(schema: string)
    ensures var q := ScratchColumn(schema);
      && Refs(q) == {Adults} && Aliases(q) == {} && Sights(q, {}) == {(TableRef("", schema, "adults"), {Adults})}
  {
    var q := ScratchColumn(schema);
    var column := q.kids[2];
    assert Refs(q.kids[0]) == {Adults} && Refs(Always) == {} && Refs(column) == {};
    assert Aliases(q.kids[0]) == {} && Aliases(Always) == {} && Aliases(column) == {};
    assert Exposes(q.kids[0]) == {Adults};
    var inner := SightOf(q.kind, q.kids, 1, {});
    assert inner == SightOf(q.kind, q.kids, 2, {}) == {Adults};
    assert Sights(q.kids[0], {}) == {} && Sights(Always, inner) == {};
    assert Sights(column, inner) == {(TableRef("", schema, "adults"), inner)};
  }

  lemma ScratchColumnSyntax(schema: string, cfg: Config)
    requires ValidConfig(cfg) && cfg.scratchCatalog != ""
    ensures var q := ScratchColumn(schema);
      && Accepts(q, cfg) && WellScoped(q)
      && Sights(q, {}) == {(TableRef("", schema, "adults"), {Adults})} && CteNames(q) == {}
  {
    var q := ScratchColumn(schema);
    ScratchColumnLeaves(schema);
    ScratchColumnReads(schema);
    AdultsAreScratch(cfg);
    hide Refs, Aliases, Sights, ScratchColumn, Classify, ContainsWrite, Scoped, IsReadStatement, Shared;
    assert CteNames(q) == {};
  }

  lemma ScratchColumnReads(schema: string)
    ensures var q := ScratchColumn(schema);
      IsReadStatement(q) && !ContainsWrite(q) && Scoped(q, {}, {})
  {
    var q := ScratchColumn(schema);
    var column := q.kids[2];
    assert !ContainsWrite(q.kids[0]) && !ContainsWrite(Always) && !ContainsWrite(column);
    assert Scoped(q.kids[0], {}, {}) && Scoped(Always, {}, {}) && Scoped(column, {}, {});
  }

  lemma AdultsAreScratch(cfg: Config)
    requires cfg.scratchCatalog != ""
    ensures Classify(Adults, {}, cfg).Scratch? && Lower(Adults.name) == "adults"
  {
    assert Lower("adults") == "adults" && Lower("scratch") == "scratch" && Lower("") == "";
  }

  /** A catalog in which the tenant has the scratch table of the example. */
  function AdultsOnly(cfg: Config, rel: Relation): Global {
    map[(Lower(cfg.scratchCatalog), Lower(cfg.scratchSchema), "adults") := rel]
  }

  /** What the scratch table is in the two views. */
  lemma AdultsFound(cfg: Config, rel: Relation)
    requires ValidConfig(cfg) && cfg.scratchCatalog != ""
    ensures var v := ViewOf(AdultsOnly(cfg, rel), cfg);
      && ViewDatabase(v, cfg)(Adults) == Some(Stored(AliasSchema.(name := "adults"), rel))
      && PlacedDatabase(v, cfg)(Adults) == Some(Stored(ScratchPlace(cfg).(name := "adults"), rel))
  {
    assert Lower("adults") == "adults" && Lower("scratch") == "scratch";
    ViewHolds(AdultsOnly(cfg, rel), cfg, "", "adults");
    hide ViewOf;
  }

  /** The alias qualifies the table before the rewrite only, its real schema after the rewrite only. */
  lemma AdultsQualified(cfg: Config)
    requires ValidConfig(cfg) && cfg.scratchCatalog != "" && AliasIsReserved(cfg)
    ensures Means(TableRef("", "scratch", "adults"), AliasSchema.(name := "adults"))
    ensures !Means(TableRef("", cfg.scratchSchema, "adults"), AliasSchema.(name := "adults"))
    ensures Means(TableRef("", cfg.scratchSchema, "adults"), ScratchPlace(cfg).(name := "adults"))
  {
    LowerIdempotent(cfg.scratchSchema);
    LowerEmpty(cfg.scratchSchema);
    assert Lower("adults") == "adults" && Lower("scratch") == "scratch";
  }

  lemma AliasColumnIsLost(cfg: Config)
    requires ValidConfig(cfg) && cfg.scratchCatalog != "" && AliasIsReserved(cfg)
    ensures Occurs(Lost, ScratchColumn("scratch"), cfg)
  {
    var q, x := ScratchColumn("scratch"), TableRef("", "scratch", "adults");
    ScratchColumnSyntax("scratch", cfg);
    AdultsAreScratch(cfg);
    assert Lower("adults") == "adults" && Lower("scratch") == "scratch";
    hide ScratchColumn, Accepts, FateOf, Sights, AliasIsReserved, Classify;
    AliasQualifierIsLost(x, Adults, {Adults}, {}, cfg);
    assert (x, {Adults}) in Sights(q, {});
  }

  /** A column qualified through the alias: the tenant's view answers, the rewritten statement fails. */
  lemma LostColumnWitness(cfg: Config, rel: Relation)
    requires ValidConfig(cfg) && cfg.scratchCatalog != "" && AliasIsReserved(cfg) && rel.cols == ["id"]
    ensures
      var q, g := ScratchColumn("scratch"), AdultsOnly(cfg, rel);
      && Accepts(q, cfg) && WellScoped(q)
      && Run(q, ViewDatabase(ViewOf(g, cfg), cfg)).Rows?
      && Run(Rewrite(q, cfg), GlobalDatabase(g, cfg)).Failed?
  {
    hide *;
    var q, g := ScratchColumn("scratch"), AdultsOnly(cfg, rel);
    ScratchColumnSyntax("scratch", cfg);
    AdultsFound(cfg, rel);
    AdultsQualified(cfg);
    AliasColumnIsLost(cfg);
    ScratchColumnAnswer("scratch", ViewDatabase(ViewOf(g, cfg), cfg), rel, AliasSchema.(name := "adults"));
    RewriteMeaning(q, cfg, g);
  }

  /** A column qualified with the schema the scratch table is really in: the tenant's view has no such
    * table, the rewritten statement answers. */
  lemma GainedColumnWitness(cfg: Config, rel: Relation)
    requires ValidConfig(cfg) && cfg.scratchCatalog != "" && AliasIsReserved(cfg) && rel.cols == ["id"]
    ensures
      var q, g := ScratchColumn(cfg.scratchSchema), AdultsOnly(cfg, rel);
      && Accepts(q, cfg) && WellScoped(q)
      && Run(q, ViewDatabase(ViewOf(g, cfg), cfg)).Failed?
      && Run(Rewrite(q, cfg), GlobalDatabase(g, cfg)).Rows?
  {
    hide *;
    var q, g, x := ScratchColumn(cfg.scratchSchema), AdultsOnly(cfg, rel), cfg.scratchSchema;
    ScratchColumnSyntax(x, cfg);
    AdultsFound(cfg, rel);
    AdultsQualified(cfg);
    ScratchColumnAnswer(x, ViewDatabase(ViewOf(g, cfg), cfg), rel, AliasSchema.(name := "adults"));
    ScratchColumnAnswer(x, PlacedDatabase(ViewOf(g, cfg), cfg), rel, ScratchPlace(cfg).(name := "adults"));
    RewriteMeaning(q, cfg, g);
  }

  // ------------------------------------------------------------ a captured column

  function One(b: bool): Relation {
    Relation(["id"], [[Boolean(b)]])
  }

  function OwnAdults(tenant: string): TableRef {
    TableRef("", tenant, "adults")
  }

  /** SELECT * FROM scratch.adults WHERE tenant.adults.id */
  function InnerPart(tenant: string): Sql<TableRef> {
    Node(SelectStar, [Table(Adults), Node(Column(OwnAdults(tenant), "id"), [])])
  }

  /** SELECT * FROM tenant.adults WHERE EXISTS (SELECT * FROM scratch.adults WHERE tenant.adults.id) */
  function Correlated(tenant: string): Sql<TableRef> {
    Node(SelectStar, [Table(OwnAdults(tenant)), Node(Exists, [InnerPart(tenant)])])
  }

  function IdOf(full: TableRef): seq<ColumnId> {
    [ColumnId(full, "id")]
  }

  lemma TwoFrames(x: TableRef, inner: TableRef, innerRow: Row, outer: TableRef, outerRow: Row)
    requires Means(x, outer)
    ensures LookUp([Frame(IdOf(inner), innerRow), Frame(IdOf(outer), outerRow)], x, "id")
         == Cell(if Means(x, inner) then At(innerRow, 0) else At(outerRow, 0))
  {
    hide Means;
    var frames := [Frame(IdOf(inner), innerRow), Frame(IdOf(outer), outerRow)];
    assert IdOf(inner)[1..] == [] && IdOf(outer)[1..] == [];
    assert PlaceOf(IdOf(inner), x, "id") == if Means(x, inner) then Position(0) else Nowhere;
    assert PlaceOf(IdOf(outer), x, "id") == Position(0);
    assert frames[1..] == [Frame(IdOf(outer), outerRow)];
  }

  /** A whole table of one column. */
  lemma OneTable(t: TableRef, db: Database, full: TableRef, b: bool, frames: seq<Frame>)
    requires db(t) == Some(Stored(full, One(b))) && !t.Bare()
    ensures Fold(Table(t), Trino, db, map[])(frames) == Rows(IdOf(full), [[Boolean(b)]])
  {
    hide Lower;
    var none: map<string, Meaning> := map[];
    assert Fold(Table(t), Trino, db, none) == Named(full, Scan(One(b)));
    assert Requalified(Qualified(["id"], Unnamed), full) == IdOf(full);
  }

  lemma StarMeans(t: TableRef, cond: Sql<TableRef>, db: Database, frames: seq<Frame>)
    ensures Fold(Node(SelectStar, [Table(t), cond]), Trino, db, map[])(frames)
         == StarRows(Fold(Table(t), Trino, db, map[])(frames), Fold(cond, Trino, db, map[]), frames)
  {
    var none: map<string, Meaning> := map[];
    var kids := [Table(t), cond];
    var parts := FoldNode(SelectStar, kids, Trino, db, none);
    assert parts[0] == Fold(kids[0], Trino, db, none) && parts[1] == Fold(kids[1], Trino, db, none);
    assert Fold(Node(SelectStar, kids), Trino, db, none) == NodeMeaning(SelectStar, parts);
    hide StarRows;
  }

  lemma ExistsMeans(q: Sql<TableRef>, db: Database, frames: seq<Frame>)
    requires Fold(q, Trino, db, map[])(frames).Rows?
    ensures Fold(Node(Exists, [q]), Trino, db, map[])(frames) == Cell(Boolean(Fold(q, Trino, db, map[])(frames).rows != []))
  {
    var none: map<string, Meaning> := map[];
    var kids := [q];
    var parts := FoldNode(Exists, kids, Trino, db, none);
    assert parts[0] == Fold(kids[0], Trino, db, none);
    assert Fold(Node(Exists, kids), Trino, db, none) == NodeMeaning(Exists, parts);
  }

  lemma ColumnMeans(x: TableRef, db: Database, frames: seq<Frame>)
    ensures Fold(Node(Column(x, "id"), []), Trino, db, map[])(frames) == LookUp(frames, x, "id")
  {
    var none: map<string, Meaning> := map[];
    var parts := FoldNode(Column(x, "id"), [], Trino, db, none);
    assert Fold(Node(Column(x, "id"), []), Trino, db, none) == NodeMeaning(Column(x, "id"), parts);
  }

  /** Selecting from one row: it stays if the condition is true of it. */
  lemma StarOverOne(full: TableRef, v: Value, cond: Meaning, frames: seq<Frame>)
    requires cond([Frame(IdOf(full), Nulls(1))] + frames).Cell?
    ensures StarRows(Rows(IdOf(full), [[v]]), cond, frames)
         == Rows(IdOf(Unnamed), if cond([Frame(IdOf(full), [v])] + frames) == Cell(Boolean(true)) then [[v]] else [])
  {
    var rows := [[v]];
    assert Analyzes([cond], IdOf(full), frames);
    assert rows[1..] == [];
    assert Filter(rows, IdOf(full), cond, frames)
        == (if cond([Frame(IdOf(full), [v])] + frames) == Cell(Boolean(true)) then [[v]] else []);
    assert Requalified(IdOf(full), Unnamed) == IdOf(Unnamed);
  }

  lemma InnerAnswer(tenant: string, db: Database, outer: TableRef, inner: TableRef, row: Row)
    requires db(Adults) == Some(Stored(inner, One(false))) && Means(OwnAdults(tenant), outer)
    ensures var seen := if Means(OwnAdults(tenant), inner) then Boolean(false) else At(row, 0);
      Fold(InnerPart(tenant), Trino, db, map[])([Frame(IdOf(outer), row)])
      == Rows(IdOf(Unnamed), if seen == Boolean(true) then [[Boolean(false)]] else [])
  {
    var x, frames := OwnAdults(tenant), [Frame(IdOf(outer), row)];
    var cond := Fold(Node(Column(x, "id"), []), Trino, db, map[]);
    StarMeans(Adults, Node(Column(x, "id"), []), db, frames);
    OneTable(Adults, db, inner, false, frames);
    hide Fold, LookUp, StarRows, Means, Lower;
    forall r: Row
      ensures cond([Frame(IdOf(inner), r)] + frames) == Cell(if Means(x, inner) then At(r, 0) else At(row, 0))
    {
      ColumnMeans(x, db, [Frame(IdOf(inner), r)] + frames);
      TwoFrames(x, inner, r, outer, row);
      assert [Frame(IdOf(inner), r)] + frames == [Frame(IdOf(inner), r), Frame(IdOf(outer), row)];
    }
    StarOverOne(inner, Boolean(false), cond, frames);
  }

  lemma CorrelatedAnswer(tenant: string, db: Database, outer: TableRef, inner: TableRef)
    requires tenant != "" && Means(OwnAdults(tenant), outer)
    requires db(OwnAdults(tenant)) == Some(Stored(outer, One(true))) && db(Adults) == Some(Stored(inner, One(false)))
    ensures Run(Correlated(tenant), db)
         == Rows(IdOf(Unnamed), if Means(OwnAdults(tenant), inner) then [] else [[Boolean(true)]])
  {
    var frames: seq<Frame> := [];
    var cond := Node(Exists, [InnerPart(tenant)]);
    StarMeans(OwnAdults(tenant), cond, db, frames);
    OneTable(OwnAdults(tenant), db, outer, true, frames);
    hide Fold, StarRows, Means, Lower;
    forall r: Row
      ensures Fold(cond, Trino, db, map[])([Frame(IdOf(outer), r)] + frames)
           == Cell(Boolean(!Means(OwnAdults(tenant), inner) && At(r, 0) == Boolean(true)))
    {
      assert [Frame(IdOf(outer), r)] + frames == [Frame(IdOf(outer), r)];
      InnerAnswer(tenant, db, outer, inner, r);
      ExistsMeans(InnerPart(tenant), db, [Frame(IdOf(outer), r)]);
    }
    StarOverOne(outer, Boolean(true), Fold(cond, Trino, db, map[]), frames);
    assert Requalified(IdOf(Unnamed), Unnamed) == IdOf(Unnamed);
  }

  /** The tenant's own table holds true, its scratch table of the same name false. */
  function TwoAdults(cfg: Config): Global {
    map[(Lower(cfg.catalog), Lower(cfg.tenant), "adults") := One(true),
        (Lower(cfg.scratchCatalog), Lower(cfg.scratchSchema), "adults") := One(false)]
  }

  /** How the scratchpad is set up: the tenant's schema in a catalog of its own. */
  predicate SameSchema(cfg: Config) {
    && ValidConfig(cfg) && cfg.scratchCatalog != "" && cfg.scratchSchema == cfg.tenant && AliasIsReserved(cfg)
    && Lower(cfg.catalog) != Lower(cfg.scratchCatalog) && Lower(cfg.tenant) !in DeniedSchemas
  }

  lemma CorrelatedLeaves(tenant: string)
    ensures var q := Correlated(tenant);
      && Refs(q) == {OwnAdults(tenant), Adults} && Aliases(q) == {}
      && Sights(q, {}) == {(OwnAdults(tenant), {OwnAdults(tenant), Adults})}
  {
    var q, inner, own := Correlated(tenant), InnerPart(tenant), OwnAdults(tenant);
    assert Refs(inner.kids[0]) == {Adults} && Refs(inner.kids[1]) == {} && Refs(inner) == {Adults};
    assert q.kids[1].kids[0] == inner;
    assert Refs(q.kids[0]) == {own} && Refs(q.kids[1]) == {Adults};
    assert Aliases(inner) == {} && Aliases(q.kids[1]) == {};
    CorrelatedSights(tenant);
  }

  lemma CorrelatedSights(tenant: string)
    ensures Sights(Correlated(tenant), {}) == {(OwnAdults(tenant), {OwnAdults(tenant), Adults})}
  {
    var q, inner, own := Correlated(tenant), InnerPart(tenant), OwnAdults(tenant);
    assert Exposes(q.kids[0]) == {own} && Exposes(inner.kids[0]) == {Adults};
    assert SightOf(q.kind, q.kids, 1, {}) == {own};
    assert SightOf(inner.kind, inner.kids, 1, {own}) == {own, Adults};
    assert Sights(inner.kids[1], {own, Adults}) == {(own, {own, Adults})};
    assert Sights(inner, {own}) == {(own, {own, Adults})};
    assert q.kids[1].kids[0] == inner && SightOf(Exists, q.kids[1].kids, 0, {own}) == {own};
    assert Sights(q.kids[1], {own}) == {(own, {own, Adults})};
  }

  lemma CorrelatedReads(tenant: string)
    requires tenant != ""
    ensures var q := Correlated(tenant); IsReadStatement(q) && !ContainsWrite(q) && Scoped(q, {}, {})
  {
    var q, inner := Correlated(tenant), InnerPart(tenant);
    var part := q.kids[1];
    assert part == Node(Exists, [inner]);
    assert !ContainsWrite(inner.kids[0]) && !ContainsWrite(inner.kids[1]);
    NoWrite(SelectStar, inner.kids);
    NoWrite(Exists, part.kids);
    NoWrite(SelectStar, q.kids);
    assert Scoped(inner.kids[1], {}, {}) && Scoped(inner, {}, {}) && Scoped(q.kids[1], {}, {});
  }

  lemma NoWrite(kind: Kind, kids: seq<Sql<TableRef>>)
    requires !kind.Write? && forall i :: 0 <= i < |kids| ==> !ContainsWrite(kids[i])
    ensures !ContainsWrite(Node(kind, kids))
  {
  }

  /** What the two tables are before and after, and which of them the qualifier means. */
  lemma CorrelatedNames(cfg: Config)
    requires SameSchema(cfg)
    ensures var own, x := OwnAdults(cfg.tenant), OwnAdults(cfg.tenant);
      && Classify(own, {}, cfg).Own? && Classify(Adults, {}, cfg).Scratch?
      && Means(x, NameBefore(own, {}, cfg)) && Means(x, NameAfter(own, {}, cfg))
      && !Means(x, NameBefore(Adults, {}, cfg)) && Means(x, NameAfter(Adults, {}, cfg))
      && NameBefore(own, {}, cfg) == TableRef(Lower(cfg.catalog), Lower(cfg.tenant), "adults")
      && NameBefore(Adults, {}, cfg) == AliasSchema.(name := "adults")
      && NameAfter(Adults, {}, cfg) == ScratchPlace(cfg).(name := "adults")
  {
    LowerIdempotent(cfg.tenant);
    LowerEmpty(cfg.tenant);
    assert Lower("adults") == "adults" && Lower("scratch") == "scratch" && Lower("") == "";
  }

  lemma CorrelatedFound(cfg: Config)
    requires SameSchema(cfg)
    ensures var v, own := ViewOf(TwoAdults(cfg), cfg), OwnAdults(cfg.tenant);
      && ViewDatabase(v, cfg)(own) == PlacedDatabase(v, cfg)(own) == Some(Stored(NameBefore(own, {}, cfg), One(true)))
      && ViewDatabase(v, cfg)(Adults) == Some(Stored(NameBefore(Adults, {}, cfg), One(false)))
      && PlacedDatabase(v, cfg)(Adults) == Some(Stored(NameAfter(Adults, {}, cfg), One(false)))
  {
    CorrelatedNames(cfg);
    assert Lower("adults") == "adults" && Lower("scratch") == "scratch" && Lower("") == "";
    ViewHolds(TwoAdults(cfg), cfg, "", "adults");
    hide ViewOf, NameBefore, NameAfter, Classify, Means;
  }

  lemma CorrelatedAccepted(cfg: Config)
    requires SameSchema(cfg)
    ensures var q := Correlated(cfg.tenant); Accepts(q, cfg) && WellScoped(q) && CteNames(q) == {}
  {
    var q := Correlated(cfg.tenant);
    CorrelatedLeaves(cfg.tenant);
    CorrelatedReads(cfg.tenant);
    CorrelatedNames(cfg);
    hide Refs, Aliases, Sights, Correlated, OwnAdults, Classify, ContainsWrite, Scoped, IsReadStatement, Shared, Means,
         NameBefore, NameAfter, SameSchema;
    assert CteNames(q) == {};
  }

  lemma CorrelatedFate(cfg: Config)
    requires SameSchema(cfg)
    ensures FateOf(OwnAdults(cfg.tenant), {OwnAdults(cfg.tenant), Adults}, {}, cfg) == Captured
  {
    CorrelatedNames(cfg);
    hide OwnAdults, Means, NameBefore, NameAfter, SameSchema, Classify;
    var own := OwnAdults(cfg.tenant);
    assert own in {own, Adults} && Adults in {own, Adults};
  }

  lemma CorrelatedSyntax(cfg: Config)
    requires SameSchema(cfg)
    ensures var q := Correlated(cfg.tenant); Accepts(q, cfg) && WellScoped(q) && Undecided(q, cfg)
  {
    var q, own := Correlated(cfg.tenant), OwnAdults(cfg.tenant);
    CorrelatedAccepted(cfg);
    CorrelatedLeaves(cfg.tenant);
    CorrelatedFate(cfg);
    hide Refs, Aliases, Sights, Correlated, OwnAdults, Accepts, WellScoped, CteNames, FateOf, SameSchema;
    assert (own, {own, Adults}) in Sights(q, {});
  }

  /** An inner scratch table captures a column of the outer own table of the same name: the user's query
    * and the rewritten statement both answer, with different rows. */
  lemma CapturedRowsWitness(cfg: Config)
    requires SameSchema(cfg)
    ensures
      var q, g := Correlated(cfg.tenant), TwoAdults(cfg);
      && Accepts(q, cfg) && Undecided(q, cfg)
      && Run(q, ViewDatabase(ViewOf(g, cfg), cfg)) == Rows(IdOf(Unnamed), [[Boolean(true)]])
      && Run(Rewrite(q, cfg), GlobalDatabase(g, cfg)) == Rows(IdOf(Unnamed), [])
  {
    hide *;
    var g, own := TwoAdults(cfg), OwnAdults(cfg.tenant);
    CorrelatedSyntax(cfg);
    CorrelatedNames(cfg);
    CorrelatedFound(cfg);
    TenantIsNamed(cfg);
    CorrelatedAnswer(cfg.tenant, ViewDatabase(ViewOf(g, cfg), cfg), NameBefore(own, {}, cfg), NameBefore(Adults, {}, cfg));
    CorrelatedAnswer(cfg.tenant, PlacedDatabase(ViewOf(g, cfg), cfg), NameBefore(own, {}, cfg), NameAfter(Adults, {}, cfg));
    RewriteMeaning(Correlated(cfg.tenant), cfg, g);
  }

  lemma TenantIsNamed(cfg: Config)
    requires SameSchema(cfg)
    ensures cfg.tenant != "" && ValidConfig(cfg)
  {
  }
}
