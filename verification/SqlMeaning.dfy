/** What the rewrite of the guard does to the meaning of a query.
  *
  * The user writes against a `TenantView`: own tables, shared schemas, scratch tables. The
  * engine runs the rewritten statement against the one global catalog of all tenants.
  */
module SqlMeaning {
  import opened Common
  import opened SqlAst
  import opened SqlEngine
  import opened SqlGuard

  /** Every table of every catalog, under its full lower-case name. */
  type Global = map<(string, string, string), Relation>

  /** The tables one tenant is entitled to see. */
  datatype TenantView = TenantView(own: map<string, Relation>,
                                   shared: map<(string, string), Relation>,
                                   scratch: map<string, Relation>)

  function ViewOf(g: Global, cfg: Config): TenantView {
    TenantView(
      map k | k in g && k.0 == Lower(cfg.catalog) && k.1 == Lower(cfg.tenant) :: k.2 := g[k],
      map k | k in g && k.0 == Lower(cfg.catalog) && k.1 in Shared(cfg) :: (k.1, k.2) := g[k],
      map k | k in g && k.0 == Lower(cfg.scratchCatalog) && k.1 == Lower(cfg.scratchSchema) :: k.2 := g[k])
  }

  /** A table, if there is one, under its full name. */
  function Under(fullName: TableRef, found: Option<Relation>): Option<Stored> {
    if found.None? then None else Some(Stored(fullName, found.value))
  }

  /** Names as the user means them: bare and own-schema names are the tenant's tables, `scratch.x` a
    * scratch table, a shared schema is itself. `scratch` is the schema part of the full name of a
    * scratch table. */
  function ViewWith(v: TenantView, cfg: Config, scratch: TableRef): Database {
    (t: TableRef) =>
      var name, db := Lower(t.name), Lower(t.db);
      if cfg.scratchCatalog != "" && db == ScratchAlias && t.catalog == "" then
        Under(scratch.(name := name), Lookup(v.scratch, name))
      else if t.catalog != "" && Lower(t.catalog) != Lower(cfg.catalog) then None
      else if db == "" || db == Lower(cfg.tenant) then
        Under(TableRef(Lower(cfg.catalog), Lower(cfg.tenant), name), Lookup(v.own, name))
      else Under(TableRef(Lower(cfg.catalog), db, name), Lookup(v.shared, (db, name)))
  }

  const AliasSchema := TableRef("", ScratchAlias, "")

  /** Where the scratch tables of the tenant really are. */
  function ScratchPlace(cfg: Config): TableRef {
    TableRef(Lower(cfg.scratchCatalog), Lower(cfg.scratchSchema), "")
  }

  /** What the user writes against: a scratch table is known under the alias. */
  function ViewDatabase(v: TenantView, cfg: Config): Database {
    ViewWith(v, cfg, AliasSchema)
  }

  /** The same tables, with scratch tables known under the catalog and schema they are in. */
  function PlacedDatabase(v: TenantView, cfg: Config): Database {
    ViewWith(v, cfg, ScratchPlace(cfg))
  }

  /** The full name the engine gives a reference: the session has a catalog but no schema. */
  function FullName(t: TableRef, cfg: Config): TableRef {
    TableRef(Lower(if t.catalog == "" then cfg.catalog else t.catalog), Lower(t.db), Lower(t.name))
  }

  function GlobalDatabase(g: Global, cfg: Config): Database {
    (t: TableRef) =>
      var full := FullName(t, cfg);
      if t.db == "" then None else Under(full, Lookup(g, (full.catalog, full.db, full.name)))
  }

  /** The guard turns nothing away that the user can mean: a name that finds a table in the
    * tenant's view is permitted, unless it is empty or in a restricted schema. */
  lemma VisibleNamesArePermitted(t: TableRef, names: set<string>, cfg: Config, g: Global)
    requires ViewDatabase(ViewOf(g, cfg), cfg)(t).Some?
    requires t.name != "" && Lower(t.db) !in DeniedSchemas
    ensures Permitted(t, names, cfg)
  {
    LowerEmpty(t.name);
    LowerEmpty(t.catalog);
    var v := ViewOf(g, cfg);
    assert forall k :: k in v.shared ==> k.0 in Shared(cfg);
  }

  // ------------------------------------------------------------ scope

  /** A bare name that some WITH binds is only used where a WITH has bound it. */
  predicate Scoped(n: Sql<TableRef>, names: set<string>, inScope: set<string>) {
    match n
    case Table(ref) => ref.Bare() && Lower(ref.name) in names ==> Lower(ref.name) in inScope
    case With(alias, def, body) =>
      Scoped(def, names, inScope) && Scoped(body, names, inScope + {Lower(alias)})
    case Node(_, kids) => forall i :: 0 <= i < |kids| ==> Scoped(kids[i], names, inScope)
  }

  predicate WellScoped(q: Sql<TableRef>) {
    Scoped(q, CteNames(q), {})
  }

  // ------------------------------------------------------------ the core induction

  /** At this leaf, `f` keeps the name and finds in `db'` what the leaf found in `db`. */
  predicate AgreesAt(t: TableRef, f: TableRef -> TableRef, db: Database, db': Database, inScope: set<string>) {
    && Lower(f(t).name) == Lower(t.name)
    && (if t.Bare() && Lower(t.name) in inScope then f(t).Bare()
        else !(f(t).Bare() && Lower(t.name) in inScope) && db'(f(t)) == db(t))
  }

  predicate Agrees(n: Sql<TableRef>, f: TableRef -> TableRef, db: Database, db': Database, inScope: set<string>) {
    match n
    case Table(ref) => AgreesAt(ref, f, db, db', inScope)
    case With(alias, def, body) =>
      Agrees(def, f, db, db', inScope) && Agrees(body, f, db, db', inScope + {Lower(alias)})
    case Node(_, kids) => forall i :: 0 <= i < |kids| ==> Agrees(kids[i], f, db, db', inScope)
  }

  /** Changing the names and the database together changes no meaning, in any engine. */
  lemma {:induction false} RenamingPreservesMeaning<M>(
      n: Sql<TableRef>, f: TableRef -> TableRef, e: Engine<M>, db: Database, db': Database, ctes: map<string, M>)
    requires Agrees(n, f, db, db', ctes.Keys)
    ensures Fold(MapRefs(n, f), e, db', ctes) == Fold(n, e, db, ctes)
  {
    match n
    case Table(_) =>
    case With(alias, def, body) =>
      RenamingPreservesMeaning(def, f, e, db, db', ctes);
      var ctes' := ctes[Lower(alias) := e.bound(Fold(def, e, db, ctes))];
      assert ctes'.Keys == ctes.Keys + {Lower(alias)};
      RenamingPreservesMeaning(body, f, e, db, db', ctes');
    case Node(kind, kids) =>
      forall i | 0 <= i < |kids|
        ensures Fold(MapRefs(kids[i], f), e, db', ctes) == Fold(kids[i], e, db, ctes)
      {
        RenamingPreservesMeaning(kids[i], f, e, db, db', ctes);
      }
      var mapped := MapRefs(n, f);
      var parts := FoldNode(kind, kids, e, db, ctes);
      var parts' := FoldNode(kind, mapped.kids, e, db', ctes);
      assert parts == parts' && mapped == Node(kind, mapped.kids);
  }

  // ------------------------------------------------------------ the guard's renaming

  /** A permitted name that is no CTE name is looked up where the user meant it. */
  lemma QualifiedNameFindsTheUsersTable(t: TableRef, names: set<string>, cfg: Config, g: Global)
    requires ValidConfig(cfg) && Permitted(t, names, cfg)
    requires !(t.Bare() && Lower(t.name) in names)
    ensures GlobalDatabase(g, cfg)(Requalify(t, names, cfg)) == PlacedDatabase(ViewOf(g, cfg), cfg)(t)
    ensures Requalify(t, names, cfg).db != ""
  {
    hide ViewOf, Shared, GlobalDatabase, PlacedDatabase, Requalify, Lower;
    match Classify(t, names, cfg)
    case Scratch => ScratchNameFound(t, names, cfg, g);
    case Own => OwnNameFound(t, names, cfg, g);
    case SharedPlane => SharedNameFound(t, names, cfg, g);
    case CteName =>
      LowerEmpty(t.db);
      LowerEmpty(t.catalog);
  }

  lemma ScratchNameFound(t: TableRef, names: set<string>, cfg: Config, g: Global)
    requires ValidConfig(cfg) && Classify(t, names, cfg) == Scratch
    ensures GlobalDatabase(g, cfg)(Requalify(t, names, cfg)) == PlacedDatabase(ViewOf(g, cfg), cfg)(t)
    ensures Requalify(t, names, cfg).db != ""
  {
    hide ViewOf, Shared;
    LowerEmpty(t.catalog);
    ViewHolds(g, cfg, Lower(t.db), Lower(t.name));
  }

  lemma OwnNameFound(t: TableRef, names: set<string>, cfg: Config, g: Global)
    requires ValidConfig(cfg) && Classify(t, names, cfg) == Own
    ensures GlobalDatabase(g, cfg)(Requalify(t, names, cfg)) == PlacedDatabase(ViewOf(g, cfg), cfg)(t)
    ensures Requalify(t, names, cfg).db != ""
  {
    hide ViewOf, Shared;
    LowerEmpty(t.catalog);
    ViewHolds(g, cfg, Lower(t.db), Lower(t.name));
  }

  lemma SharedNameFound(t: TableRef, names: set<string>, cfg: Config, g: Global)
    requires ValidConfig(cfg) && Classify(t, names, cfg) == SharedPlane
    ensures GlobalDatabase(g, cfg)(Requalify(t, names, cfg)) == PlacedDatabase(ViewOf(g, cfg), cfg)(t)
    ensures Requalify(t, names, cfg).db != ""
  {
    hide ViewOf;
    LowerIdempotent(t.db);
    LowerEmpty(t.db);
    LowerEmpty(t.catalog);
    ViewHolds(g, cfg, Lower(t.db), Lower(t.name));
  }

  /** The view is the part of the global catalog under the tenant's three kinds of names. */
  lemma ViewHolds(g: Global, cfg: Config, db: string, name: string)
    ensures Lookup(ViewOf(g, cfg).own, name) == Lookup(g, (Lower(cfg.catalog), Lower(cfg.tenant), name))
    ensures db in Shared(cfg) ==> Lookup(ViewOf(g, cfg).shared, (db, name)) == Lookup(g, (Lower(cfg.catalog), db, name))
    ensures Lookup(ViewOf(g, cfg).scratch, name) == Lookup(g, (Lower(cfg.scratchCatalog), Lower(cfg.scratchSchema), name))
  {
    var v := ViewOf(g, cfg);
    assert name in v.own <==> (Lower(cfg.catalog), Lower(cfg.tenant), name) in g;
    assert db in Shared(cfg) ==> ((db, name) in v.shared <==> (Lower(cfg.catalog), db, name) in g);
    assert name in v.scratch <==> (Lower(cfg.scratchCatalog), Lower(cfg.scratchSchema), name) in g;
  }

  lemma LowerEmpty(s: string)
    ensures Lower(s) == "" <==> s == ""
  {
  }

  lemma ScopedLeafAgrees(t: TableRef, names: set<string>, cfg: Config, g: Global, inScope: set<string>)
    requires ValidConfig(cfg) && Permitted(t, names, cfg)
    requires t.Bare() && Lower(t.name) in names ==> Lower(t.name) in inScope
    requires inScope <= names + {""}
    ensures AgreesAt(t, Renaming(names, cfg), PlacedDatabase(ViewOf(g, cfg), cfg), GlobalDatabase(g, cfg), inScope)
  {
    hide ViewOf, PlacedDatabase, GlobalDatabase, Classify, Requalify, Permitted, ValidConfig, Lower;
    RenamedNameIsKept(t, names, cfg);
    if !(t.Bare() && Lower(t.name) in names) {
      QualifiedNameFindsTheUsersTable(t, names, cfg, g);
    }
  }

  /** The rewrite only touches qualifiers, leaves a CTE name alone and refuses an empty name. */
  lemma RenamedNameIsKept(t: TableRef, names: set<string>, cfg: Config)
    requires Permitted(t, names, cfg)
    ensures Requalify(t, names, cfg).name == t.name
    ensures t.Bare() && Lower(t.name) in names ==> Requalify(t, names, cfg) == t
    ensures Lower(t.name) in names || Lower(t.name) != ""
  {
    LowerEmpty(t.db);
    LowerEmpty(t.catalog);
  }

  lemma {:induction false} ScopedRenamingAgrees(
      n: Sql<TableRef>, names: set<string>, cfg: Config, g: Global, inScope: set<string>)
    requires ValidConfig(cfg)
    requires forall t :: t in Refs(n) ==> Permitted(t, names, cfg)
    requires Scoped(n, names, inScope)
    requires inScope <= names + {""}
    requires forall a :: a in Aliases(n) && a != "" ==> Lower(a) in names
    ensures Agrees(n, Renaming(names, cfg), PlacedDatabase(ViewOf(g, cfg), cfg), GlobalDatabase(g, cfg), inScope)
  {
    match n
    case Table(t) => ScopedLeafAgrees(t, names, cfg, g, inScope);
    case With(alias, def, body) =>
      ScopedRenamingAgrees(def, names, cfg, g, inScope);
      LowerEmpty(alias);
      ScopedRenamingAgrees(body, names, cfg, g, inScope + {Lower(alias)});
    case Node(_, kids) =>
      forall i | 0 <= i < |kids|
        ensures Agrees(kids[i], Renaming(names, cfg), PlacedDatabase(ViewOf(g, cfg), cfg), GlobalDatabase(g, cfg), inScope)
      {
        ScopedRenamingAgrees(kids[i], names, cfg, g, inScope);
      }
  }

  lemma {:induction false} SameTablesSameMeaning<M>(
      n: Sql<TableRef>, e: Engine<M>, db: Database, db': Database, ctes: map<string, M>)
    requires forall t :: t in Refs(n) ==> db(t) == db'(t)
    ensures Fold(n, e, db, ctes) == Fold(n, e, db', ctes)
  {
    match n
    case Table(_) =>
    case With(alias, def, body) =>
      SameTablesSameMeaning(def, e, db, db', ctes);
      SameTablesSameMeaning(body, e, db, db', ctes[Lower(alias) := e.bound(Fold(def, e, db, ctes))]);
    case Node(kind, kids) =>
      forall i | 0 <= i < |kids| ensures Fold(kids[i], e, db, ctes) == Fold(kids[i], e, db', ctes) {
        SameTablesSameMeaning(kids[i], e, db, db', ctes);
      }
      var parts := FoldNode(kind, kids, e, db, ctes);
      var parts' := FoldNode(kind, kids, e, db', ctes);
      assert parts == parts';
  }

  /** The database without tables of these bare names. */
  function Without(db: Database, names: set<string>): Database {
    (t: TableRef) => if t.Bare() && Lower(t.name) in names then None else db(t)
  }

  /** While CTE names are used in scope, the database is not asked for a table of such a name. */
  lemma {:induction false} BoundNamesNeedNoTable<M>(
      n: Sql<TableRef>, e: Engine<M>, db: Database, names: set<string>, ctes: map<string, M>)
    requires Scoped(n, names, ctes.Keys)
    ensures Fold(n, e, Without(db, names), ctes) == Fold(n, e, db, ctes)
  {
    match n
    case Table(_) =>
    case With(alias, def, body) =>
      BoundNamesNeedNoTable(def, e, db, names, ctes);
      var ctes' := ctes[Lower(alias) := e.bound(Fold(def, e, db, ctes))];
      assert ctes'.Keys == ctes.Keys + {Lower(alias)};
      BoundNamesNeedNoTable(body, e, db, names, ctes');
    case Node(kind, kids) =>
      forall i | 0 <= i < |kids| ensures Fold(kids[i], e, Without(db, names), ctes) == Fold(kids[i], e, db, ctes) {
        BoundNamesNeedNoTable(kids[i], e, db, names, ctes);
      }
      var parts := FoldNode(kind, kids, e, db, ctes);
      var parts' := FoldNode(kind, kids, e, Without(db, names), ctes);
      assert parts == parts';
  }

  /** No reference of the query is a scratch table. */
  predicate WithoutScratch(q: Sql<TableRef>, cfg: Config) {
    forall t :: t in Refs(q) ==> !Classify(t, CteNames(q), cfg).Scratch?
  }

  /** Without scratch tables it makes no difference under which name they are known. */
  lemma SameWithoutScratch(q: Sql<TableRef>, cfg: Config, v: TenantView)
    requires Accepts(q, cfg) && WithoutScratch(q, cfg)
    ensures forall t :: t in Refs(q) ==> PlacedDatabase(v, cfg)(t) == ViewDatabase(v, cfg)(t)
  {
    forall t | t in Refs(q) ensures PlacedDatabase(v, cfg)(t) == ViewDatabase(v, cfg)(t) {
      LowerEmpty(t.catalog);
    }
  }

  /** In every compositional engine: the rewritten query on the global catalog means what the
    * user's query means on the tenant's own view, its scratch tables under their real names. If the
    * query reads none, that is the view the user writes against. */
  lemma RewritePreservesMeaning<M>(q: Sql<TableRef>, cfg: Config, g: Global, e: Engine<M>)
    requires ValidConfig(cfg) && Accepts(q, cfg) && WellScoped(q)
    ensures Fold(Rewrite(q, cfg), e, GlobalDatabase(g, cfg), map[])
         == Fold(q, e, PlacedDatabase(ViewOf(g, cfg), cfg), map[])
    ensures WithoutScratch(q, cfg) ==>
      Fold(Rewrite(q, cfg), e, GlobalDatabase(g, cfg), map[]) == Fold(q, e, ViewDatabase(ViewOf(g, cfg), cfg), map[])
  {
    var names := CteNames(q);
    var noCtes: map<string, M> := map[];
    assert noCtes.Keys == {};
    ScopedRenamingAgrees(q, names, cfg, g, {});
    RenamingPreservesMeaning(q, Renaming(names, cfg), e, PlacedDatabase(ViewOf(g, cfg), cfg), GlobalDatabase(g, cfg), noCtes);
    if WithoutScratch(q, cfg) {
      SameWithoutScratch(q, cfg, ViewOf(g, cfg));
      SameTablesSameMeaning(q, e, PlacedDatabase(ViewOf(g, cfg), cfg), ViewDatabase(ViewOf(g, cfg), cfg), noCtes);
    }
  }

  // ------------------------------------------------------------ isolation

  /** Two global catalogs hold the same tables wherever this tenant may look. */
  predicate SameForTenant(g1: Global, g2: Global, cfg: Config) {
    ViewOf(g1, cfg) == ViewOf(g2, cfg)
  }

  /** Where a reference of the rewritten statement can point. */
  lemma RewrittenNameSeesOnlyTheView(t: TableRef, names: set<string>, cfg: Config, g1: Global, g2: Global)
    requires ValidConfig(cfg) && Permitted(t, names, cfg) && SameForTenant(g1, g2, cfg)
    ensures GlobalDatabase(g1, cfg)(Requalify(t, names, cfg)) == GlobalDatabase(g2, cfg)(Requalify(t, names, cfg))
  {
    LowerEmpty(t.db);
    LowerEmpty(t.catalog);
    if !(t.Bare() && Lower(t.name) in names) {
      QualifiedNameFindsTheUsersTable(t, names, cfg, g1);
      QualifiedNameFindsTheUsersTable(t, names, cfg, g2);
    }
  }

  /** The result of an accepted query depends on nothing outside the tenant's view: not on
    * other tenants, and not on how names are scoped. */
  lemma ResultIndependence<M>(q: Sql<TableRef>, cfg: Config, g1: Global, g2: Global, e: Engine<M>)
    requires ValidConfig(cfg) && Accepts(q, cfg) && SameForTenant(g1, g2, cfg)
    ensures Fold(Rewrite(q, cfg), e, GlobalDatabase(g1, cfg), map[])
         == Fold(Rewrite(q, cfg), e, GlobalDatabase(g2, cfg), map[])
  {
    var names := CteNames(q);
    RefsOfMapped(q, Renaming(names, cfg));
    forall t' | t' in Refs(Rewrite(q, cfg)) ensures GlobalDatabase(g1, cfg)(t') == GlobalDatabase(g2, cfg)(t') {
      var t :| t in Refs(q) && Renaming(names, cfg)(t) == t';
      RewrittenNameSeesOnlyTheView(t, names, cfg, g1, g2);
    }
    SameTablesSameMeaning(Rewrite(q, cfg), e, GlobalDatabase(g1, cfg), GlobalDatabase(g2, cfg), map[]);
  }
}
