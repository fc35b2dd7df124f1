/** Deriving an object from a guarded query, and the lineage recorded for it. */
module Derive {
  import opened Common
  import opened SqlAst
  import opened SqlGuard
  import E = SqlEngine
  import M = SqlMeaning
  import C = Catalog
  import R = Registry

  /** Names used in the query as tenant tables or shared tables, as opposed to CTE and scratch names. */
  ghost predicate NamesTable(t: TableRef, names: set<string>, cfg: Config, l: Label) {
    Lower(t.name) == l && (Classify(t, names, cfg).Own? || Classify(t, names, cfg).SharedPlane?)
  }

  /** Names used in the query as scratch tables. */
  ghost predicate NamesScratch(t: TableRef, names: set<string>, cfg: Config, l: Label) {
    Lower(t.name) == l && Classify(t, names, cfg).Scratch?
  }

  /** What the guard reports as referenced: the own and shared table names of the query, each once. */
  lemma {:induction false} MentionedMembers(refs: seq<TableRef>, names: set<string>, cfg: Config, l: Label)
    ensures l in Mentioned(refs, names, cfg, false) <==> exists t :: t in refs && NamesTable(t, names, cfg, l)
    ensures NoDuplicates(Mentioned(refs, names, cfg, false))
  {
    hide Classify;
    if refs != [] {
      var front, t := refs[..|refs| - 1], refs[|refs| - 1];
      MentionedMembers(front, names, cfg, l);
      assert refs == front + [t] && t in refs;
      assert l in Mentioned(refs, names, cfg, false) <==> l in Mentioned(front, names, cfg, false) || NamesTable(t, names, cfg, l);
      if exists t :: t in refs && NamesTable(t, names, cfg, l) {
        var u :| u in refs && NamesTable(u, names, cfg, l);
        assert u in front || u == t;
      }
    }
  }

  /** And as scratch references: the scratch names, each once. */
  lemma {:induction false} ScratchMembers(refs: seq<TableRef>, names: set<string>, cfg: Config, l: Label)
    ensures l in Mentioned(refs, names, cfg, true) <==> exists t :: t in refs && NamesScratch(t, names, cfg, l)
    ensures NoDuplicates(Mentioned(refs, names, cfg, true))
  {
    hide Classify;
    if refs != [] {
      var front, t := refs[..|refs| - 1], refs[|refs| - 1];
      ScratchMembers(front, names, cfg, l);
      assert refs == front + [t] && t in refs;
      assert l in Mentioned(refs, names, cfg, true) <==> l in Mentioned(front, names, cfg, true) || NamesScratch(t, names, cfg, l);
      if exists t :: t in refs && NamesScratch(t, names, cfg, l) {
        var u :| u in refs && NamesScratch(u, names, cfg, l);
        assert u in front || u == t;
      }
    }
  }

  /** The rewritten statement reads this table of the tenant. */
  predicate ReadsTenantTable(t: TableRef, cfg: Config, l: Label) {
    && Lower(t.catalog) == Lower(cfg.catalog) && Lower(t.db) == Lower(cfg.tenant) && Lower(t.name) == l
  }

  /** What a derive records as parents of `new`. */
  function Parents(referenced: seq<Label>, tables: set<Key>, tenant: Tenant): seq<Label> {
    if referenced == [] then []
    else (if Key(tenant, referenced[0]) in tables then [referenced[0]] else []) + Parents(referenced[1..], tables, tenant)
  }

  lemma {:induction false} ParentsMembers(referenced: seq<Label>, tables: set<Key>, tenant: Tenant, l: Label)
    ensures l in Parents(referenced, tables, tenant) <==> l in referenced && Key(tenant, l) in tables
  {
    if referenced != [] {
      ParentsMembers(referenced[1..], tables, tenant, l);
    }
  }

  ghost predicate NoSharedTable(q: Sql<TableRef>, names: set<string>, cfg: Config, l: Label) {
    forall t :: t in Refs(q) && Lower(t.name) == l ==> !Classify(t, names, cfg).SharedPlane?
  }

  /** Where the lineage of a derive comes from. Every table of the tenant that the rewritten
    * statement reads, other than the new one, and that exists, is recorded as a parent; every
    * recorded parent is another existing table of the tenant whose name the query uses for a table,
    * and if the query reads no shared table of that name, the rewritten statement does read it. */
  lemma LineageOfDerive(q: Sql<TableRef>, cfg: Config, refs: seq<TableRef>, tables: set<Key>, st: R.State, k: Key,
                        e: R.Entry, now: nat, l: Label)
    requires ValidConfig(cfg) && Accepts(q, cfg) && R.Consistent(st)
    requires Lower(cfg.scratchCatalog) != Lower(cfg.catalog)
    requires forall t :: t in refs <==> t in Refs(q)
    ensures
      var names := CteNames(q);
      var parents := Parents(Mentioned(refs, names, cfg, false), tables, k.tenant);
      var recorded := R.ParentsOf(R.Recorded(st, k, e, Some(parents), now), k);
      && (ReadBy(q, cfg, l) && Key(k.tenant, l) in tables && l != k.name ==> l in recorded)
      && (l in recorded ==> l != k.name && Key(k.tenant, l) in tables && exists t :: t in Refs(q) && NamesTable(t, names, cfg, l))
      && (l in recorded && NoSharedTable(q, names, cfg, l) ==> ReadBy(q, cfg, l))
  {
    var names := CteNames(q);
    var parents := Parents(Mentioned(refs, names, cfg, false), tables, k.tenant);
    MentionedMembers(refs, names, cfg, l);
    ParentsMembers(Mentioned(refs, names, cfg, false), tables, k.tenant, l);
    R.RecordKeepsConsistent(st, k, e, Some(parents), now, k);
    hide Mentioned, Parents, R.Recorded, R.ParentsOf;
    ReadersAreMentioned(q, cfg, l);
  }

  /** The rewritten statement reads the tenant's table `l`. */
  ghost predicate ReadBy(q: Sql<TableRef>, cfg: Config, l: Label) {
    exists t :: t in Refs(Rewrite(q, cfg)) && ReadsTenantTable(t, cfg, l)
  }

  lemma ReadersAreMentioned(q: Sql<TableRef>, cfg: Config, l: Label)
    requires ValidConfig(cfg) && Accepts(q, cfg) && Lower(cfg.scratchCatalog) != Lower(cfg.catalog)
    ensures var names := CteNames(q);
      && (ReadBy(q, cfg, l) ==> exists t :: t in Refs(q) && NamesTable(t, names, cfg, l))
      && ((exists t :: t in Refs(q) && NamesTable(t, names, cfg, l)) && NoSharedTable(q, names, cfg, l) ==> ReadBy(q, cfg, l))
  {
    var names := CteNames(q);
    RefsOfMapped(q, Renaming(names, cfg));
    forall t | t in Refs(q)
      ensures ReadsTenantTable(Requalify(t, names, cfg), cfg, l) ==> NamesTable(t, names, cfg, l)
      ensures NamesTable(t, names, cfg, l) && Classify(t, names, cfg).Own? ==> ReadsTenantTable(Requalify(t, names, cfg), cfg, l)
    {
      RewrittenTenantTable(t, names, cfg, l);
    }
    hide Classify, Requalify;
    if ReadBy(q, cfg, l) {
      var t' :| t' in Refs(Rewrite(q, cfg)) && ReadsTenantTable(t', cfg, l);
      var t :| t in Refs(q) && Renaming(names, cfg)(t) == t';
      assert NamesTable(t, names, cfg, l);
    }
    if exists t :: t in Refs(q) && NamesTable(t, names, cfg, l) {
      var t :| t in Refs(q) && NamesTable(t, names, cfg, l);
      assert Renaming(names, cfg)(t) in Refs(Rewrite(q, cfg));
    }
  }

  lemma RewrittenTenantTable(t: TableRef, names: set<string>, cfg: Config, l: Label)
    requires ValidConfig(cfg) && Permitted(t, names, cfg) && Lower(cfg.scratchCatalog) != Lower(cfg.catalog)
    ensures ReadsTenantTable(Requalify(t, names, cfg), cfg, l) ==> NamesTable(t, names, cfg, l)
    ensures NamesTable(t, names, cfg, l) && Classify(t, names, cfg).Own? ==> ReadsTenantTable(Requalify(t, names, cfg), cfg, l)
  {
    assert Lower(cfg.catalog) != "";
    hide Shared;
  }

  // ------------------------------------------------------------ the tool

  datatype Mode = Create | Replace

  datatype Derived =
    | Done
    | MetadataPending(parents: seq<Label>)
    | Rejected(why: Rejection)
    | AlreadyExists
    | ShapeChanged
    | QueryFailed
    | DataFailed
    | RegistryRaised

  /** The referenced labels that exist as tables now. */
  method KeepExisting(cat: C.Store, referenced: seq<Label>, tenant: Tenant) returns (kept: seq<Label>)
    ensures kept == Parents(referenced, cat.tables.Keys, tenant)
  {
    hide Parents;
    kept := [];
    var i := 0;
    assert referenced[0..] == referenced;
    while i < |referenced|
      invariant 0 <= i <= |referenced|
      invariant Parents(referenced, cat.tables.Keys, tenant) == kept + Parents(referenced[i..], cat.tables.Keys, tenant)
    {
      ParentsFrom(referenced, i, cat.tables.Keys, tenant);
      if Key(tenant, referenced[i]) in cat.tables {
        kept := kept + [referenced[i]];
      }
      i := i + 1;
    }
    ParentsFrom(referenced, i, cat.tables.Keys, tenant);
  }

  lemma ParentsFrom(referenced: seq<Label>, i: nat, tables: set<Key>, tenant: Tenant)
    requires i <= |referenced|
    ensures i == |referenced| ==> Parents(referenced[i..], tables, tenant) == []
    ensures i < |referenced| ==>
      Parents(referenced[i..], tables, tenant) ==
      (if Key(tenant, referenced[i]) in tables then [referenced[i]] else []) + Parents(referenced[i + 1..], tables, tenant)
  {
    if i < |referenced| {
      assert referenced[i..][1..] == referenced[i + 1..];
    }
  }

  /** How the engine stores an answer: a type for each column and a text for each value. */
  datatype Storage = Storage(typeOf: nat -> C.ArrowType, show: Value -> string)

  function NamesOf(cols: seq<E.ColumnId>): seq<string> {
    seq(|cols|, i requires 0 <= i < |cols| => cols[i].name)
  }

  function NameSet(names: seq<string>): set<string> {
    set i | 0 <= i < |names| :: names[i]
  }

  function RecordOf(names: seq<string>, row: E.Row, storage: Storage): C.Record {
    if names == [] then map[]
    else
      var last := |names| - 1;
      RecordOf(names[..last], row, storage)[names[last] := storage.show(E.At(row, last))]
  }

  /** The table that CREATE TABLE AS makes of a relation. */
  function Materialized(rel: E.Relation, storage: Storage): C.Table {
    C.Table(seq(|rel.cols|, i requires 0 <= i < |rel.cols| =>
                C.Field(rel.cols[i], C.StoredType(storage.typeOf(i)), true)),
            seq(|rel.rows|, i requires 0 <= i < |rel.rows| => RecordOf(rel.cols, rel.rows[i], storage)))
  }

  /** An answer as a relation. */
  function AsRelation(answer: E.Result): E.Relation
    requires answer.Rows?
  {
    E.Relation(NamesOf(answer.cols), answer.rows)
  }

  /** No later column has the name of column `i`. */
  ghost predicate LastNamed(names: seq<string>, i: int) {
    0 <= i < |names| && forall j :: i < j < |names| ==> names[j] != names[i]
  }

  /** The record shows the row's value in column `i`. */
  ghost predicate Shows(record: C.Record, names: seq<string>, row: E.Row, storage: Storage, i: int) {
    LastNamed(names, i) && i < |row| ==> names[i] in record && record[names[i]] == storage.show(row[i])
  }

  /** The record of a row: a cell for every name and no other, each holding the text of the row's value in
    * that column (in the last of several columns of one name). */
  ghost predicate Holds(record: C.Record, names: seq<string>, row: E.Row, storage: Storage) {
    && (forall n :: n in record <==> n in names)
    && forall i :: Shows(record, names, row, storage, i)
  }

  /** The catalog's table is the engine's relation: the same columns in order, and row by row the record
    * that holds it. */
  ghost predicate Stands(t: C.Table, rel: E.Relation, storage: Storage) {
    && |t.schema| == |rel.cols| && (forall i :: 0 <= i < |rel.cols| ==> t.schema[i].name == rel.cols[i])
    && |t.rows| == |rel.rows| && (forall i :: 0 <= i < |rel.rows| ==> Holds(t.rows[i], rel.cols, rel.rows[i], storage))
  }

  function EngineKey(cfg: Config, name: Label): (string, string, string) {
    (Lower(cfg.catalog), Lower(cfg.tenant), name)
  }

  /** The engine and the catalog hold the same tables of the tenant. */
  ghost predicate InStep(g: M.Global, tables: map<Key, C.Table>, cfg: Config, storage: Storage) {
    forall name: Label ::
      && (EngineKey(cfg, name) in g <==> Key(cfg.tenant, name) in tables)
      && (EngineKey(cfg, name) in g ==> Stands(tables[Key(cfg.tenant, name)], g[EngineKey(cfg, name)], storage))
  }

  /** A derived table has the columns of the answer, as the format stores their types, and one record for
    * each of its rows, which holds it. */
  lemma MaterializedShape(rel: E.Relation, storage: Storage)
    ensures var t := Materialized(rel, storage);
      && Stands(t, rel, storage) && C.ColumnNames(t.schema) == NameSet(rel.cols)
      && forall i :: 0 <= i < |t.schema| ==> t.schema[i].typ == C.StoredType(storage.typeOf(i)) && t.schema[i].nullable
  {
    var t := Materialized(rel, storage);
    assert forall i :: 0 <= i < |rel.cols| ==> t.schema[i].name == rel.cols[i];
    forall n | n in NameSet(rel.cols) ensures n in C.ColumnNames(t.schema) {
      var i :| 0 <= i < |rel.cols| && rel.cols[i] == n;
      assert t.schema[i].name == n;
    }
    forall i | 0 <= i < |rel.rows| ensures Holds(t.rows[i], rel.cols, rel.rows[i], storage) {
      RecordHolds(rel.cols, rel.rows[i], storage);
    }
  }

  /** The table made from an answer: the answer's columns by name, and its rows. */
  lemma AnswerMaterialized(answer: E.Result, storage: Storage)
    requires answer.Rows?
    ensures var t := Materialized(AsRelation(answer), storage);
      && |t.schema| == |answer.cols| && |t.rows| == |answer.rows|
      && (forall i :: 0 <= i < |answer.cols| ==> t.schema[i].name == answer.cols[i].name)
      && forall i :: 0 <= i < |answer.rows| ==> Holds(t.rows[i], NamesOf(answer.cols), answer.rows[i], storage)
  {
    MaterializedShape(AsRelation(answer), storage);
    hide Materialized, Holds;
  }

  lemma RecordHolds(names: seq<string>, row: E.Row, storage: Storage)
    ensures Holds(RecordOf(names, row, storage), names, row, storage)
  {
    RecordKeys(names, row, storage);
    forall i ensures Shows(RecordOf(names, row, storage), names, row, storage, i) {
      RecordCell(names, row, storage, i);
    }
    hide RecordOf, Shows;
  }

  lemma {:induction false} RecordCell(names: seq<string>, row: E.Row, storage: Storage, i: int)
    ensures Shows(RecordOf(names, row, storage), names, row, storage, i)
  {
    if LastNamed(names, i) && i < |names| - 1 {
      var front := names[..|names| - 1];
      assert forall j :: 0 <= j < |front| ==> front[j] == names[j];
      assert names[|names| - 1] != names[i];
      RecordCell(front, row, storage, i);
    }
  }

  lemma {:induction false} RecordKeys(names: seq<string>, row: E.Row, storage: Storage)
    ensures forall n :: n in RecordOf(names, row, storage) <==> n in names
  {
    if names != [] {
      var last := |names| - 1;
      RecordKeys(names[..last], row, storage);
      assert names == names[..last] + [names[last]];
    }
  }

  /** A table made from an answer keeps the two in step. */
  lemma StaysInStep(g: M.Global, tables: map<Key, C.Table>, cfg: Config, storage: Storage, new_: Label, rel: E.Relation)
    requires InStep(g, tables, cfg, storage)
    ensures InStep(g[EngineKey(cfg, new_) := rel], tables[Key(cfg.tenant, new_) := Materialized(rel, storage)], cfg, storage)
  {
    MaterializedShape(rel, storage);
    hide Stands, Materialized;
    var g', tables' := g[EngineKey(cfg, new_) := rel], tables[Key(cfg.tenant, new_) := Materialized(rel, storage)];
    forall name: Label
      ensures EngineKey(cfg, name) in g' <==> Key(cfg.tenant, name) in tables'
      ensures EngineKey(cfg, name) in g' ==> Stands(tables'[Key(cfg.tenant, name)], g'[EngineKey(cfg, name)], storage)
    {
      assert EngineKey(cfg, name) in g <==> Key(cfg.tenant, name) in tables;
      assert EngineKey(cfg, name) == EngineKey(cfg, new_) <==> name == new_;
    }
  }

  /** CREATE [OR REPLACE] TABLE AS the rewritten query, then row, tags and lineage in one transaction.
    * The engine runs the rewritten statement against the catalogs `g`, in which the tenant has the tables
    * of `cat`; afterwards it has the new table as well. */
  method DeriveObject(cat: C.Store, reg: R.Store, new_: Label, parsed: seq<Option<Tree>>, walk: seq<TableNode>,
                      cfg: Config, mode: Mode, g: M.Global, storage: Storage, tags: seq<string>, sql: string, now: nat)
    returns (r: Derived, ghost parents: seq<Label>)
    requires NoDuplicates(walk)
    requires |Present(parsed)| == 1 ==> Refs(Present(parsed)[0]) == set n | n in walk
    requires InStep(g, cat.tables, cfg, storage)
    modifies cat, reg, walk
    ensures r.Rejected? <==> !Accepted(old(Statement(parsed, walk)), cfg)
    ensures !r.Rejected? ==> ReadsOnlyPermitted(old(Statement(parsed, walk)).value, cfg)
    ensures Accepted(old(Statement(parsed, walk)), cfg) ==>
      var k, q := Key(cfg.tenant, new_), old(Statement(parsed, walk)).value;
      var answer := E.Run(Rewrite(q, cfg), M.GlobalDatabase(g, cfg));
      && (r.AlreadyExists? <==> mode == Create && k in old(cat.tables))
      && (r.QueryFailed? <==> !r.AlreadyExists? && !answer.Rows?)
      && (r.ShapeChanged? <==> answer.Rows? && mode == Replace && k in old(cat.tables)
                               && C.ColumnNames(old(cat.tables)[k].schema) != NameSet(NamesOf(answer.cols)))
      && (if r.Done? || r.MetadataPending? || r.RegistryRaised? then
            && answer.Rows? && cat.tables == old(cat.tables)[k := Materialized(AsRelation(answer), storage)]
            && |cat.tables[k].schema| == |answer.cols| && |cat.tables[k].rows| == |answer.rows|
            && (forall i :: 0 <= i < |answer.cols| ==> cat.tables[k].schema[i].name == answer.cols[i].name)
            && InStep(g[EngineKey(cfg, new_) := AsRelation(answer)], cat.tables, cfg, storage)
            && parents == Parents(Mentioned(old(RefsOf(walk)), CteNames(q), cfg, false), cat.tables.Keys, cfg.tenant)
          else cat.tables == old(cat.tables))
    ensures r.Rejected? ==>
      && cat.tables == old(cat.tables)
      && RejectedFor(r.why, |Present(parsed)|, old(Statement(parsed, walk)), old(RefsOf(walk)), cfg)
    ensures
      var entry := R.Entry(R.Derived, None, Some(sql), tags);
      reg.View() == if r.Done? then R.Recorded(old(reg.View()), Key(cfg.tenant, new_), entry, Some(parents), now)
                    else old(reg.View())
    ensures r.MetadataPending? ==> r.parents == parents
    ensures old(cat.commitsLeft) == None && old(reg.failAfter) == None ==>
      !r.DataFailed? && !r.MetadataPending? && !r.RegistryRaised?
  {
    hide Classify, Mentioned, Accepts, ReadsOnlyPermitted, RejectedFor, Rewrite, CteNames, RefsOf, Snapshot,
         E.Run, M.GlobalDatabase, Materialized, InStep, R.Recorded;
    parents := [];
    var k := Key(cfg.tenant, new_);
    var guarded := ValidateSelect(parsed, walk, cfg);
    if guarded.Rejected? {
      return Derived.Rejected(guarded.why), parents;
    }
    var existing := cat.Get(k);
    if mode == Create && existing.Some? {
      return AlreadyExists, parents;
    }
    var answer := E.Run(Statement(parsed, walk).value, M.GlobalDatabase(g, cfg));
    if !answer.Rows? {
      return QueryFailed, parents;
    }
    if mode == Replace && existing.Some? && C.ColumnNames(existing.value.schema) != NameSet(NamesOf(answer.cols)) {
      return ShapeChanged, parents;
    }
    AnswerMaterialized(answer, storage);
    StaysInStep(g, cat.tables, cfg, storage, new_, AsRelation(answer));
    var ok := cat.Commit(k, Materialized(AsRelation(answer), storage));
    if !ok {
      return DataFailed, parents;
    }
    var kept := KeepExisting(cat, guarded.referenced, cfg.tenant);
    parents := kept;
    var outcome := reg.RecordObjectGuarded(k, R.Entry(R.Derived, None, Some(sql), tags), Some(kept), now);
    r := match outcome case Committed => Done case Pending => MetadataPending(kept) case Raised => RegistryRaised;
  }

  /** The guard lets the statement through. */
  predicate Accepted(q: Option<Sql<TableRef>>, cfg: Config) {
    q.Some? && Accepts(q.value, cfg)
  }
}
