/** What the rewrite does to qualified columns, and with that exactly when it keeps the meaning.
  *
  * The guard rewrites the names of tables and leaves the qualifiers of columns as they are. Own and
  * shared tables have the same full name before and after. A scratch table is known under the alias
  * schema before the rewrite and under the catalog and schema it is in after it.
  */
module SqlColumns {
  import opened Common
  import opened SqlAst
  import opened SqlEngine
  import opened SqlGuard
  import opened SqlMeaning

  // ------------------------------------------------------------ relations under other names

  function RenamedCols(cols: seq<ColumnId>, f: TableRef -> TableRef): seq<ColumnId> {
    seq(|cols|, i requires 0 <= i < |cols| => ColumnId(f(cols[i].qualifier), cols[i].name))
  }

  function RenamedFrames(frames: seq<Frame>, f: TableRef -> TableRef): seq<Frame> {
    seq(|frames|, i requires 0 <= i < |frames| => Frame(RenamedCols(frames[i].cols, f), frames[i].row))
  }

  function RenamedResult(r: Result, f: TableRef -> TableRef): Result {
    if r.Rows? then Rows(RenamedCols(r.cols, f), r.rows) else r
  }

  /** Relations outside any schema keep their names. */
  ghost predicate KeepsPlain(f: TableRef -> TableRef) {
    forall r: TableRef :: r.db == "" ==> f(r) == r
  }

  /** Among these relations the qualifier means the same ones before and after. */
  ghost predicate Blind(qualifier: TableRef, names: set<TableRef>, f: TableRef -> TableRef) {
    forall r :: r in names ==> Means(qualifier, f(r)) == Means(qualifier, r)
  }

  /** `m'` is `m` on relations under other names, where only relations of these names are in sight. */
  ghost predicate Follows(m': Meaning, m: Meaning, names: Names, f: TableRef -> TableRef) {
    forall frames :: AllWithin(frames, names) ==> m'(RenamedFrames(frames, f)) == RenamedResult(m(frames), f)
  }

  lemma FollowsAt(m': Meaning, m: Meaning, frames: seq<Frame>, names: Names, f: TableRef -> TableRef)
    requires Follows(m', m, names, f) && AllWithin(frames, names)
    ensures m'(RenamedFrames(frames, f)) == RenamedResult(m(frames), f)
  {
  }

  lemma FollowsMore(m': Meaning, m: Meaning, names: Names, inner: Names, f: TableRef -> TableRef)
    requires Follows(m', m, inner, f) && Wider(inner, names)
    ensures Follows(m', m, names, f)
  {
    forall frames | AllWithin(frames, names) ensures m'(RenamedFrames(frames, f)) == RenamedResult(m(frames), f) {
      assert AllWithin(frames, inner);
    }
  }

  lemma {:induction false} PlaceFollows(cols: seq<ColumnId>, qualifier: TableRef, name: string, names: set<TableRef>,
                                        f: TableRef -> TableRef)
    requires Blind(qualifier, names, f) && KeepsPlain(f) && Within(cols, Some(names))
    ensures PlaceOf(RenamedCols(cols, f), qualifier, name) == PlaceOf(cols, qualifier, name)
  {
    hide Means;
    if cols != [] {
      PlaceFollows(cols[1..], qualifier, name, names, f);
      assert RenamedCols(cols, f)[1..] == RenamedCols(cols[1..], f);
    }
  }

  lemma {:induction false} LookUpFollows(frames: seq<Frame>, qualifier: TableRef, name: string, names: set<TableRef>,
                                         f: TableRef -> TableRef)
    requires Blind(qualifier, names, f) && KeepsPlain(f) && AllWithin(frames, Some(names))
    ensures LookUp(RenamedFrames(frames, f), qualifier, name) == LookUp(frames, qualifier, name)
  {
    hide Blind, KeepsPlain, Within, PlaceOf;
    if frames != [] {
      assert Within(frames[0].cols, Some(names));
      PlaceFollows(frames[0].cols, qualifier, name, names, f);
      LookUpFollows(frames[1..], qualifier, name, names, f);
      assert RenamedFrames(frames, f)[1..] == RenamedFrames(frames[1..], f);
    }
  }

  /** An expression gives the same cell under renamed rows. */
  lemma InnerFollows(m': Meaning, m: Meaning, cols: seq<ColumnId>, row: Row, frames: seq<Frame>, names: Names,
                     f: TableRef -> TableRef)
    requires Follows(m', m, names, f) && Within(cols, names) && AllWithin(frames, names)
    ensures m'([Frame(RenamedCols(cols, f), row)] + RenamedFrames(frames, f))
         == RenamedResult(m([Frame(cols, row)] + frames), f)
  {
    var inner := [Frame(cols, row)] + frames;
    assert AllWithin(inner, names);
    assert RenamedFrames(inner, f) == [Frame(RenamedCols(cols, f), row)] + RenamedFrames(frames, f);
  }

  lemma {:induction false} FilterFollows(rows: seq<Row>, cols: seq<ColumnId>, cond': Meaning, cond: Meaning,
                                         frames: seq<Frame>, names: Names, f: TableRef -> TableRef)
    requires Follows(cond', cond, names, f) && Within(cols, names) && AllWithin(frames, names)
    ensures Filter(rows, RenamedCols(cols, f), cond', RenamedFrames(frames, f)) == Filter(rows, cols, cond, frames)
  {
    hide Follows, RenamedCols, RenamedFrames, Within, AllWithin;
    if rows != [] {
      InnerFollows(cond', cond, cols, rows[0], frames, names, f);
      FilterFollows(rows[1..], cols, cond', cond, frames, names, f);
    }
  }

  lemma AnalyzesFollows(exprs': seq<Meaning>, exprs: seq<Meaning>, cols: seq<ColumnId>, frames: seq<Frame>, names: Names,
                        f: TableRef -> TableRef)
    requires |exprs'| == |exprs| && forall i :: 0 <= i < |exprs| ==> Follows(exprs'[i], exprs[i], names, f)
    requires Within(cols, names) && AllWithin(frames, names)
    ensures Analyzes(exprs', RenamedCols(cols, f), RenamedFrames(frames, f)) == Analyzes(exprs, cols, frames)
  {
    hide Follows, RenamedFrames, Within, AllWithin;
    forall i | 0 <= i < |exprs|
      ensures exprs'[i]([Frame(RenamedCols(cols, f), Nulls(|cols|))] + RenamedFrames(frames, f))
           == RenamedResult(exprs[i]([Frame(cols, Nulls(|cols|))] + frames), f)
    {
      InnerFollows(exprs'[i], exprs[i], cols, Nulls(|cols|), frames, names, f);
    }
  }

  lemma ProjectFollows(rows: seq<Row>, cols: seq<ColumnId>, items': seq<Meaning>, items: seq<Meaning>,
                       frames: seq<Frame>, names: Names, f: TableRef -> TableRef)
    requires |items'| == |items| && forall i :: 0 <= i < |items| ==> Follows(items'[i], items[i], names, f)
    requires Within(cols, names) && AllWithin(frames, names)
    ensures Project(rows, RenamedCols(cols, f), items', RenamedFrames(frames, f)) == Project(rows, cols, items, frames)
  {
    hide Follows, RenamedFrames, RenamedCols, Within, AllWithin;
    forall i, j | 0 <= i < |rows| && 0 <= j < |items|
      ensures items'[j]([Frame(RenamedCols(cols, f), rows[i])] + RenamedFrames(frames, f))
           == RenamedResult(items[j]([Frame(cols, rows[i])] + frames), f)
    {
      InnerFollows(items'[j], items[j], cols, rows[i], frames, names, f);
    }
    var a, b := Project(rows, RenamedCols(cols, f), items', RenamedFrames(frames, f)), Project(rows, cols, items, frames);
    forall i | 0 <= i < |rows| ensures a[i] == b[i] {
      assert |a[i]| == |b[i]|;
      assert forall j :: 0 <= j < |items| ==> a[i][j] == b[i][j];
    }
  }

  lemma RelabelFollows(cols: seq<ColumnId>, label': TableRef, f: TableRef -> TableRef)
    requires label'.db == "" && KeepsPlain(f)
    ensures Requalified(RenamedCols(cols, f), label') == Requalified(cols, label')
         == RenamedCols(Requalified(cols, label'), f)
  {
  }

  lemma FreshNamesFollow(names: seq<string>, f: TableRef -> TableRef)
    requires KeepsPlain(f)
    ensures RenamedCols(Qualified(names, Unnamed), f) == Qualified(names, Unnamed)
  {
  }

  lemma JoinFollows(left: Result, right: Result, cond': Meaning, cond: Meaning, frames: seq<Frame>, names: Names,
                    f: TableRef -> TableRef)
    requires Follows(cond', cond, names, f) && AllWithin(frames, names)
    requires left.Rows? ==> Within(left.cols, names)
    requires right.Rows? ==> Within(right.cols, names)
    ensures JoinRows(RenamedResult(left, f), RenamedResult(right, f), cond', RenamedFrames(frames, f))
         == RenamedResult(JoinRows(left, right, cond, frames), f)
  {
    if left.Rows? && right.Rows? {
      var cols := left.cols + right.cols;
      assert RenamedCols(left.cols, f) + RenamedCols(right.cols, f) == RenamedCols(cols, f);
      assert Within(cols, names);
      hide Follows, RenamedCols, RenamedFrames, Filter, Analyzes, Product, Within, AllWithin;
      FilterFollows(Product(left.rows, right.rows), cols, cond', cond, frames, names, f);
      AnalyzesFollows([cond'], [cond], cols, frames, names, f);
    }
  }

  lemma SelectFollows(columns: seq<string>, src: Result, cond': Meaning, cond: Meaning, items': seq<Meaning>,
                      items: seq<Meaning>, frames: seq<Frame>, names: Names, f: TableRef -> TableRef)
    requires Follows(cond', cond, names, f) && KeepsPlain(f) && AllWithin(frames, names)
    requires |items'| == |items| && forall i :: 0 <= i < |items| ==> Follows(items'[i], items[i], names, f)
    requires src.Rows? ==> Within(src.cols, names)
    ensures SelectRows(columns, RenamedResult(src, f), cond', items', RenamedFrames(frames, f))
         == RenamedResult(SelectRows(columns, src, cond, items, frames), f)
  {
    hide Follows, RenamedCols, RenamedFrames, Filter, Analyzes, Project, KeepsPlain, Within, AllWithin;
    if src.Rows? {
      FilterFollows(src.rows, src.cols, cond', cond, frames, names, f);
      AnalyzesFollows([cond'] + items', [cond] + items, src.cols, frames, names, f);
      ProjectFollows(Filter(src.rows, src.cols, cond, frames), src.cols, items', items, frames, names, f);
      FreshNamesFollow(columns, f);
    }
  }

  lemma StarFollows(src: Result, cond': Meaning, cond: Meaning, frames: seq<Frame>, names: Names, f: TableRef -> TableRef)
    requires Follows(cond', cond, names, f) && KeepsPlain(f) && AllWithin(frames, names)
    requires src.Rows? ==> Within(src.cols, names)
    ensures StarRows(RenamedResult(src, f), cond', RenamedFrames(frames, f)) == RenamedResult(StarRows(src, cond, frames), f)
  {
    hide Follows, RenamedCols, RenamedFrames, Filter, Analyzes, KeepsPlain, Requalified, Within, AllWithin;
    if src.Rows? {
      FilterFollows(src.rows, src.cols, cond', cond, frames, names, f);
      AnalyzesFollows([cond'], [cond], src.cols, frames, names, f);
      RelabelFollows(src.cols, Unnamed, f);
    }
  }

  lemma NamedFollows(name: TableRef, m': Meaning, m: Meaning, names: Names, f: TableRef -> TableRef)
    requires name.db == "" && KeepsPlain(f) && Follows(m', m, names, f)
    ensures Follows(Named(name, m'), Named(name, m), names, f)
  {
    hide RenamedCols, RenamedFrames, KeepsPlain, Requalified, AllWithin;
    forall frames | AllWithin(frames, names)
      ensures Named(name, m')(RenamedFrames(frames, f)) == RenamedResult(Named(name, m)(frames), f)
    {
      if m(frames).Rows? {
        RelabelFollows(m(frames).cols, name, f);
      }
    }
  }

  /** The parts of a node follow, each where it sees what it sees. */
  ghost predicate PartsFollow(kind: Kind, parts': seq<Meaning>, parts: seq<Meaning>, names: Names, inner: Names,
                              f: TableRef -> TableRef)
  {
    && |parts'| == |parts|
    && (forall i :: 0 <= i < |parts| ==> Follows(parts'[i], parts[i], if i < SourceCount(kind) then names else inner, f))
    && Wider(inner, names) && SourcesShow(kind, parts, inner)
  }

  lemma NodeFollows(kind: Kind, parts': seq<Meaning>, parts: seq<Meaning>, names: set<TableRef>, inner: set<TableRef>,
                    f: TableRef -> TableRef)
    requires PartsFollow(kind, parts', parts, Some(names), Some(inner), f)
    requires KeepsPlain(f) && (kind.Column? ==> Blind(kind.qualifier, names, f))
    ensures Follows(NodeMeaning(kind, parts'), NodeMeaning(kind, parts), Some(names), f)
  {
    if Arity(kind) == Some(|parts|) {
      forall frames | AllWithin(frames, Some(names))
        ensures NodeMeaning(kind, parts')(RenamedFrames(frames, f)) == RenamedResult(NodeMeaning(kind, parts)(frames), f)
      {
        ApplyFollows(kind, parts', parts, frames, names, inner, f);
      }
    }
  }

  lemma ApplyFollows(kind: Kind, parts': seq<Meaning>, parts: seq<Meaning>, frames: seq<Frame>, names: set<TableRef>,
                     inner: set<TableRef>, f: TableRef -> TableRef)
    requires Arity(kind) == Some(|parts|) && PartsFollow(kind, parts', parts, Some(names), Some(inner), f)
    requires KeepsPlain(f) && (kind.Column? ==> Blind(kind.qualifier, names, f)) && AllWithin(frames, Some(names))
    ensures Apply(kind, parts', RenamedFrames(frames, f)) == RenamedResult(Apply(kind, parts, frames), f)
  {
    var frames' := RenamedFrames(frames, f);
    assert AllWithin(frames, Some(inner));
    forall i | 0 <= i < |parts| ensures parts'[i](frames') == RenamedResult(parts[i](frames), f) {
      FollowsAt(parts'[i], parts[i], frames, if i < SourceCount(kind) then Some(names) else Some(inner), f);
    }
    assert forall i :: 0 <= i < |parts| && i < SourceCount(kind) && parts[i](frames).Rows? ==>
        Within(parts[i](frames).cols, Some(inner));
    hide Follows, KeepsPlain, Blind, RenamedFrames, AllWithin, Within, JoinRows, SelectRows, StarRows, Named, LookUp, Combine,
         SortRows, InValue, Shows;
    match kind
    case Alias(alias) =>
      NamedFollows(TableRef("", "", alias), parts'[0], parts[0], Some(inner), f);
      FollowsAt(Named(TableRef("", "", alias), parts'[0]), Named(TableRef("", "", alias), parts[0]), frames, Some(inner), f);
    case Join => JoinFollows(parts[0](frames), parts[1](frames), parts'[2], parts[2], frames, Some(inner), f);
    case Select(columns) =>
      SelectFollows(columns, parts[0](frames), parts'[1], parts[1], parts'[2..], parts[2..], frames, Some(inner), f);
    case SelectStar => StarFollows(parts[0](frames), parts'[1], parts[1], frames, Some(inner), f);
    case Column(qualifier, name) =>
      LookUpFollows(frames, qualifier, name, names, f);
      LookUpIsNoRows(frames, qualifier, name);
    case _ =>
  }

  lemma ScanFollows(fullName: TableRef, rel: Relation, names: Names, f: TableRef -> TableRef)
    ensures Follows(Named(f(fullName), Scan(rel)), Named(fullName, Scan(rel)), names, f)
  {
    var cols := Qualified(rel.cols, Unnamed);
    assert Requalified(cols, f(fullName)) == RenamedCols(Requalified(cols, fullName), f);
  }

  /** What a CTE stands for does not depend on where it is used. */
  lemma LetInFollows(d': Meaning, d: Meaning, body': Meaning, body: Meaning, nothing: Names, names: Names, f: TableRef -> TableRef)
    requires Follows(d', d, nothing, f)
    ensures Follows(Bound(d'), Bound(d), None, f)
    ensures Follows(body', body, names, f) ==> Follows(LetIn(d', body'), LetIn(d, body), names, f)
  {
    var none: seq<Frame> := [];
    assert RenamedFrames(none, f) == none && AllWithin(none, nothing);
    FollowsAt(d', d, none, nothing, f);
  }

  /** One database knows its tables by renamed full names. */
  predicate RenamesAt(t: TableRef, db': Database, db: Database, f: TableRef -> TableRef) {
    db'(t) == if db(t).None? then None else Some(Stored(f(db(t).value.fullName), db(t).value.table))
  }

  /** No qualifier of the query can tell the names of the tables in its sight apart. */
  ghost predicate AllBlind(n: Sql<TableRef>, sight: set<TableRef>, db: Database, f: TableRef -> TableRef) {
    forall p :: p in Sights(n, sight) ==> Blind(p.0, NamesIn(p.1, db).value, f)
  }

  /** Knowing tables by other full names changes nothing in a query whose qualifiers are blind to it. */
  lemma {:induction false} FoldFollows(n: Sql<TableRef>, sight: set<TableRef>, db': Database, db: Database,
                                       ctes': map<string, Meaning>, ctes: map<string, Meaning>, f: TableRef -> TableRef)
    requires KeepsPlain(f) && AllBlind(n, sight, db, f)
    requires forall t :: t in Refs(n) ==> RenamesAt(t, db', db, f)
    requires ctes'.Keys == ctes.Keys && forall c :: c in ctes ==> Follows(ctes'[c], ctes[c], None, f)
    ensures Follows(Fold(n, Trino, db', ctes'), Fold(n, Trino, db, ctes), NamesIn(sight, db), f)
  {
    hide Follows, KeepsPlain, Blind, Named, Scan, Bound, LetIn, NodeMeaning, Lower, NamesIn;
    match n
    case Table(t) => LeafFollows(t, NamesIn(sight, db), db', db, ctes', ctes, f);
    case With(alias, def, body) =>
      var d', d := Fold(def, Trino, db', ctes'), Fold(def, Trino, db, ctes);
      FoldFollows(def, {}, db', db, ctes', ctes, f);
      var in', in_ := ctes'[Lower(alias) := Bound(d')], ctes[Lower(alias) := Bound(d)];
      LetInFollows(d', d, d', d, NamesIn({}, db), NamesIn(sight, db), f);
      FoldFollows(body, sight, db', db, in', in_, f);
      assert Trino.bound(d') == Bound(d') && Trino.bound(d) == Bound(d);
      LetInFollows(d', d, Fold(body, Trino, db', in'), Fold(body, Trino, db, in_), NamesIn({}, db), NamesIn(sight, db), f);
    case Node(kind, kids) =>
      var inner := SightOf(kind, kids, SourceCount(kind), sight);
      forall i | 0 <= i < |kids|
        ensures Follows(Fold(kids[i], Trino, db', ctes'), Fold(kids[i], Trino, db, ctes),
                        NamesIn(if i < SourceCount(kind) then sight else inner, db), f)
      {
        assert SightOf(kind, kids, i, sight) == if i < SourceCount(kind) then sight else inner;
        assert Refs(kids[i]) <= Refs(n);
        FoldFollows(kids[i], SightOf(kind, kids, i, sight), db', db, ctes', ctes, f);
      }
      var parts' := FoldNode(kind, kids, Trino, db', ctes');
      var parts := FoldNode(kind, kids, Trino, db, ctes);
      SourcesInSight(kind, kids, parts, sight, db, ctes);
      SomeNames(sight, db);
      SomeNames(inner, db);
      assert kind.Column? ==> (kind.qualifier, sight) in Sights(n, sight);
      NodeFollows(kind, parts', parts, NamesIn(sight, db).value, NamesIn(inner, db).value, f);
  }

  lemma SomeNames(refs: set<TableRef>, db: Database)
    ensures NamesIn(refs, db) == Some(NamesIn(refs, db).value)
  {
  }

  /** The sources of a node show what comes into the sight of its other parts. */
  lemma SourcesInSight(kind: Kind, kids: seq<Sql<TableRef>>, parts: seq<Meaning>, sight: set<TableRef>, db: Database,
                       ctes: map<string, Meaning>)
    requires |parts| == |kids| && forall i :: 0 <= i < |kids| ==> parts[i] == Fold(kids[i], Trino, db, ctes)
    ensures var inner := SightOf(kind, kids, SourceCount(kind), sight);
      SourcesShow(kind, parts, NamesIn(inner, db)) && Wider(NamesIn(inner, db), NamesIn(sight, db))
  {
    var inner := SightOf(kind, kids, SourceCount(kind), sight);
    NamesGrow(sight, inner, db);
    forall i | 0 <= i < |parts| && i < SourceCount(kind) ensures Shows(parts[i], NamesIn(inner, db)) {
      assert Exposes(kids[i]) <= inner;
      FoldShows(kids[i], db, ctes, inner);
    }
  }

  lemma LeafFollows(t: TableRef, names: Names, db': Database, db: Database, ctes': map<string, Meaning>,
                    ctes: map<string, Meaning>, f: TableRef -> TableRef)
    requires KeepsPlain(f) && RenamesAt(t, db', db, f)
    requires ctes'.Keys == ctes.Keys && forall c :: c in ctes ==> Follows(ctes'[c], ctes[c], None, f)
    ensures Follows(Fold(Table(t), Trino, db', ctes'), Fold(Table(t), Trino, db, ctes), names, f)
  {
    var key := Lower(t.name);
    if t.Bare() && key in ctes {
      FollowsMore(ctes'[key], ctes[key], names, None, f);
      NamedFollows(TableRef("", "", key), ctes'[key], ctes[key], names, f);
    } else if db(t).Some? {
      ScanFollows(db(t).value.fullName, db(t).value.table, names, f);
    }
  }

  lemma {:induction false} RunFollows(q: Sql<TableRef>, db': Database, db: Database, f: TableRef -> TableRef)
    requires KeepsPlain(f) && AllBlind(q, {}, db, f)
    requires forall t :: t in Refs(q) ==> RenamesAt(t, db', db, f)
    ensures Run(q, db') == Run(q, db)
  {
    var none: map<string, Meaning> := map[];
    FoldFollows(q, {}, db', db, none, none, f);
    var frames: seq<Frame> := [];
    assert RenamedFrames(frames, f) == frames && AllWithin(frames, NamesIn({}, db));
    var r := Fold(q, Trino, db, none)(frames);
    FollowsAt(Fold(q, Trino, db', none), Fold(q, Trino, db, none), frames, NamesIn({}, db), f);
    if r.Rows? {
      assert Requalified(RenamedCols(r.cols, f), Unnamed) == Requalified(r.cols, Unnamed);
    }
  }

  // ------------------------------------------------------------ qualifiers that mean nothing

  /** The qualifier names a schema, and no relation without one is meant by it. */
  predicate NamesSchema(qualifier: TableRef) {
    qualifier.name != "" && qualifier.db != ""
  }

  lemma PlainIsNotMeant(qualifier: TableRef, relation: TableRef)
    requires NamesSchema(qualifier) && relation.db == ""
    ensures !Means(qualifier, relation)
  {
    LowerEmpty(qualifier.db);
  }

  ghost predicate Meaningless(qualifier: TableRef, names: set<TableRef>) {
    NamesSchema(qualifier) && forall r :: r in names ==> !Means(qualifier, r)
  }

  lemma {:induction false} MeaninglessPlace(cols: seq<ColumnId>, qualifier: TableRef, name: string, names: set<TableRef>)
    requires Meaningless(qualifier, names) && Within(cols, Some(names))
    ensures PlaceOf(cols, qualifier, name) == Nowhere
  {
    hide Means, NamesSchema;
    if cols != [] {
      MeaninglessPlace(cols[1..], qualifier, name, names);
      if cols[0].qualifier.db == "" {
        PlainIsNotMeant(qualifier, cols[0].qualifier);
      }
    }
  }

  lemma {:induction false} MeaninglessColumnFails(frames: seq<Frame>, qualifier: TableRef, name: string, names: set<TableRef>)
    requires Meaningless(qualifier, names) && AllWithin(frames, Some(names))
    ensures LookUp(frames, qualifier, name).Failed?
  {
    hide Meaningless, Within;
    if frames != [] {
      assert Within(frames[0].cols, Some(names));
      MeaninglessPlace(frames[0].cols, qualifier, name, names);
      MeaninglessColumnFails(frames[1..], qualifier, name, names);
    }
  }

  lemma MeaninglessLeaf(name: string, parts: seq<Meaning>, qualifier: TableRef, names: set<TableRef>)
    requires Meaningless(qualifier, names)
    ensures Broken(NodeMeaning(Column(qualifier, name), parts), Some(names))
  {
    forall frames | AllWithin(frames, Some(names)) ensures NodeMeaning(Column(qualifier, name), parts)(frames).Failed? {
      MeaninglessColumnFails(frames, qualifier, name, names);
    }
  }

  /** A column whose qualifier means no table in its sight fails the whole query. */
  lemma {:induction false} UnknownQualifierBreaksTheQuery(
      n: Sql<TableRef>, sight: set<TableRef>, db: Database, ctes: map<string, Meaning>, p: (TableRef, set<TableRef>))
    requires p in Sights(n, sight) && Meaningless(p.0, NamesIn(p.1, db).value)
    ensures Broken(Fold(n, Trino, db, ctes), NamesIn(sight, db))
  {
    hide Lower, Meaningless, NamesIn;
    var none: seq<Frame> := [];
    match n
    case With(alias, def, body) =>
      var d := Fold(def, Trino, db, ctes);
      assert Trino.bound(d) == Bound(d);
      if p in Sights(def, {}) {
        UnknownQualifierBreaksTheQuery(def, {}, db, ctes, p);
        assert AllWithin(none, NamesIn({}, db)) && d(none).Failed?;
      } else {
        UnknownQualifierBreaksTheQuery(body, sight, db, ctes[Lower(alias) := Bound(d)], p);
      }
    case Node(kind, kids) =>
      var parts := FoldNode(kind, kids, Trino, db, ctes);
      SomeNames(sight, db);
      if kind.Column? && p == (kind.qualifier, sight) {
        MeaninglessLeaf(kind.name, parts, kind.qualifier, NamesIn(sight, db).value);
      } else {
        var i :| 0 <= i < |kids| && p in Sights(kids[i], SightOf(kind, kids, i, sight));
        UnknownQualifierBreaksTheQuery(kids[i], SightOf(kind, kids, i, sight), db, ctes, p);
        hide Broken;
        BrokenKid(kind, kids, parts, i, sight, db, ctes);
      }
  }

  lemma BrokenKid(kind: Kind, kids: seq<Sql<TableRef>>, parts: seq<Meaning>, i: nat, sight: set<TableRef>, db: Database,
                  ctes: map<string, Meaning>)
    requires i < |kids| && |parts| == |kids| && forall j :: 0 <= j < |kids| ==> parts[j] == Fold(kids[j], Trino, db, ctes)
    requires Broken(parts[i], NamesIn(SightOf(kind, kids, i, sight), db))
    ensures Broken(NodeMeaning(kind, parts), NamesIn(sight, db))
  {
    var inner := SightOf(kind, kids, SourceCount(kind), sight);
    SourcesInSight(kind, kids, parts, sight, db, ctes);
    hide NamesIn;
    if i < SourceCount(kind) {
      forall frames | AllWithin(frames, NamesIn(sight, db)) ensures NodeMeaning(kind, parts)(frames).Failed? {
        assert parts[i](frames).Failed?;
      }
    } else {
      assert SightOf(kind, kids, i, sight) == inner;
      BrokenPart(kind, parts, i, NamesIn(sight, db), NamesIn(inner, db));
    }
  }

  // ------------------------------------------------------------ CTE names out of scope

  /** A CTE name used outside its scope stays bare, resolves to nothing and fails the query. */
  lemma {:induction false} OutOfScopeNameBreaksTheQuery(
      n: Sql<TableRef>, names: set<string>, cfg: Config, g: Global, ctes: map<string, Meaning>)
    requires !Scoped(n, names, ctes.Keys)
    ensures Broken(Fold(MapRefs(n, Renaming(names, cfg)), Trino, GlobalDatabase(g, cfg), ctes), None)
  {
    var db := GlobalDatabase(g, cfg);
    var mapped := MapRefs(n, Renaming(names, cfg));
    var none: seq<Frame> := [];
    assert AllWithin(none, None);
    match n
    case Table(t) =>
      LowerEmpty(t.db);
      LowerEmpty(t.catalog);
      assert mapped == n;
    case With(alias, def, body) =>
      var d := Fold(mapped.def, Trino, db, ctes);
      var ctes' := ctes[Lower(alias) := Bound(d)];
      assert ctes'.Keys == ctes.Keys + {Lower(alias)};
      if !Scoped(def, names, ctes.Keys) {
        OutOfScopeNameBreaksTheQuery(def, names, cfg, g, ctes);
        assert d(none).Failed?;
      } else {
        OutOfScopeNameBreaksTheQuery(body, names, cfg, g, ctes');
        assert Trino.bound(d) == Bound(d);
      }
    case Node(kind, kids) =>
      var i :| 0 <= i < |kids| && !Scoped(kids[i], names, ctes.Keys);
      OutOfScopeNameBreaksTheQuery(kids[i], names, cfg, g, ctes);
      var parts := FoldNode(kind, mapped.kids, Trino, db, ctes);
      assert mapped == Node(kind, mapped.kids);
      assert mapped.kids[i] == MapRefs(kids[i], Renaming(names, cfg));
      BrokenPart(kind, parts, i, None, None);
  }

  // ------------------------------------------------------------ exactly when the rewrite keeps the meaning

  /** What becomes of a column qualifier where it stands, when the scratch tables in its sight change
    * their full names: it means the same tables as before; it names a schema and means none, before or
    * after; it means none any more; it meant none and now means some; or it meant some and means others. */
  datatype Fate = Kept | Unknown | Lost | Gained | Captured

  /** The full name of a table once the guard has rewritten its name, and the one the user knows. */
  function NameAfter(t: TableRef, names: set<string>, cfg: Config): TableRef {
    FullName(Requalify(t, names, cfg), cfg)
  }

  function NameBefore(t: TableRef, names: set<string>, cfg: Config): TableRef {
    if Classify(t, names, cfg).Scratch? then AliasSchema.(name := Lower(t.name)) else NameAfter(t, names, cfg)
  }

  predicate MeansAfter(qualifier: TableRef, sight: set<TableRef>, names: set<string>, cfg: Config) {
    exists t :: t in sight && Means(qualifier, NameAfter(t, names, cfg))
  }

  predicate MeansBefore(qualifier: TableRef, sight: set<TableRef>, names: set<string>, cfg: Config) {
    exists t :: t in sight && Means(qualifier, NameBefore(t, names, cfg))
  }

  predicate MeansTheSame(qualifier: TableRef, sight: set<TableRef>, names: set<string>, cfg: Config) {
    forall t :: t in sight ==> (Means(qualifier, NameBefore(t, names, cfg)) <==> Means(qualifier, NameAfter(t, names, cfg)))
  }

  function FateOf(qualifier: TableRef, sight: set<TableRef>, names: set<string>, cfg: Config): Fate {
    var before, after := MeansBefore(qualifier, sight, names, cfg), MeansAfter(qualifier, sight, names, cfg);
    if MeansTheSame(qualifier, sight, names, cfg) then (if NamesSchema(qualifier) && !before then Unknown else Kept)
    else if !after then Lost
    else if !before then Gained
    else Captured
  }

  /** Some column of the query has a qualifier with this fate. */
  predicate Occurs(fate: Fate, q: Sql<TableRef>, cfg: Config) {
    exists p :: p in Sights(q, {}) && FateOf(p.0, p.1, CteNames(q), cfg) == fate
  }

  predicate AllKept(q: Sql<TableRef>, cfg: Config) {
    forall p :: p in Sights(q, {}) ==> FateOf(p.0, p.1, CteNames(q), cfg) == Kept
  }

  /** The scratch tables the query reads. */
  function ScratchNames(q: Sql<TableRef>, cfg: Config): set<string> {
    set t | t in Refs(q) && Classify(t, CteNames(q), cfg).Scratch? :: Lower(t.name)
  }

  /** The full name of a scratch table before the rewrite becomes its full name after. */
  function Moved(names: set<string>, cfg: Config): TableRef -> TableRef {
    (r: TableRef) => if r.catalog == "" && r.db == ScratchAlias && r.name in names then ScratchPlace(cfg).(name := r.name) else r
  }

  lemma PlacedIsMoved(t: TableRef, q: Sql<TableRef>, cfg: Config, v: TenantView)
    requires ValidConfig(cfg) && t in Refs(q) && Permitted(t, CteNames(q), cfg)
    ensures RenamesAt(t, PlacedDatabase(v, cfg), ViewDatabase(v, cfg), Moved(ScratchNames(q, cfg), cfg))
  {
    hide CteNames;
    LowerEmpty(t.catalog);
    LowerEmpty(cfg.catalog);
    if cfg.scratchCatalog != "" && Lower(t.db) == ScratchAlias && t.catalog == "" {
      assert Classify(t, CteNames(q), cfg).Scratch?;
      assert Lower(t.name) in ScratchNames(q, cfg);
    }
  }

  /** A database that is not asked for CTE names knows the tables of the view by these full names. */
  lemma PlacedNames(t: TableRef, names: set<string>, cfg: Config, g: Global)
    requires ValidConfig(cfg) && Permitted(t, names, cfg)
    ensures var found := Without(PlacedDatabase(ViewOf(g, cfg), cfg), names)(t);
      found.Some? ==> found.value.fullName == NameAfter(t, names, cfg)
  {
    hide ViewOf, PlacedDatabase, Classify, Requalify;
    if !(t.Bare() && Lower(t.name) in names) {
      QualifiedNameFindsTheUsersTable(t, names, cfg, g);
    }
  }

  lemma ViewNames(t: TableRef, names: set<string>, cfg: Config, g: Global)
    requires ValidConfig(cfg) && Permitted(t, names, cfg)
    ensures var found := Without(ViewDatabase(ViewOf(g, cfg), cfg), names)(t);
      found.Some? ==> found.value.fullName == NameBefore(t, names, cfg)
  {
    PlacedNames(t, names, cfg, g);
    hide ViewOf, Requalify, FullName, Shared;
    LowerEmpty(t.catalog);
    if !Classify(t, names, cfg).Scratch? && !(t.Bare() && Lower(t.name) in names) {
      assert ViewDatabase(ViewOf(g, cfg), cfg)(t) == PlacedDatabase(ViewOf(g, cfg), cfg)(t);
    }
  }

  lemma MovedName(t: TableRef, names: set<string>, cfg: Config, scratch: set<string>)
    requires Classify(t, names, cfg).Scratch? && Lower(t.name) in scratch
    ensures Moved(scratch, cfg)(NameBefore(t, names, cfg)) == NameAfter(t, names, cfg)
  {
  }

  /** A qualifier that is kept cannot tell the names in its sight before and after. */
  lemma KeptIsBlind(p: (TableRef, set<TableRef>), q: Sql<TableRef>, cfg: Config, g: Global)
    requires ValidConfig(cfg) && Accepts(q, cfg) && p.1 <= Refs(q)
    requires FateOf(p.0, p.1, CteNames(q), cfg) == Kept
    ensures Blind(p.0, NamesIn(p.1, Without(ViewDatabase(ViewOf(g, cfg), cfg), CteNames(q))).value, Moved(ScratchNames(q, cfg), cfg))
  {
    var names, f, db := CteNames(q), Moved(ScratchNames(q, cfg), cfg), Without(ViewDatabase(ViewOf(g, cfg), cfg), CteNames(q));
    hide Means, Classify, Requalify, CteNames, ViewOf, ViewDatabase, Moved, Without;
    forall r | r in NamesIn(p.1, db).value ensures Means(p.0, f(r)) == Means(p.0, r) {
      var t :| t in p.1 && db(t).Some? && db(t).value.fullName == r;
      assert Permitted(t, names, cfg);
      ViewNames(t, names, cfg, g);
      if Classify(t, names, cfg).Scratch? {
        assert Lower(t.name) in ScratchNames(q, cfg);
        MovedName(t, names, cfg, ScratchNames(q, cfg));
      } else {
        UnmovedName(t, names, cfg, ScratchNames(q, cfg));
      }
    }
  }

  lemma UnmovedName(t: TableRef, names: set<string>, cfg: Config, scratch: set<string>)
    requires ValidConfig(cfg) && Permitted(t, names, cfg) && !Classify(t, names, cfg).Scratch?
    ensures Moved(scratch, cfg)(NameBefore(t, names, cfg)) == NameBefore(t, names, cfg)
  {
    LowerEmpty(cfg.catalog);
    hide Shared;
  }

  lemma RunWithout(q: Sql<TableRef>, db: Database)
    requires WellScoped(q)
    ensures Run(q, Without(db, CteNames(q))) == Run(q, db)
  {
    var none: map<string, Meaning> := map[];
    assert none.Keys == {};
    BoundNamesNeedNoTable(q, Trino, db, CteNames(q), none);
  }

  /** The two views, not asked for CTE names, differ in the full names of scratch tables only. */
  lemma WithoutIsMoved(q: Sql<TableRef>, cfg: Config, v: TenantView)
    requires ValidConfig(cfg) && Accepts(q, cfg)
    ensures forall t :: t in Refs(q) ==>
      RenamesAt(t, Without(PlacedDatabase(v, cfg), CteNames(q)), Without(ViewDatabase(v, cfg), CteNames(q)),
                Moved(ScratchNames(q, cfg), cfg))
  {
    hide PlacedDatabase, ViewDatabase, Moved, ScratchNames, CteNames;
    forall t | t in Refs(q)
      ensures RenamesAt(t, Without(PlacedDatabase(v, cfg), CteNames(q)), Without(ViewDatabase(v, cfg), CteNames(q)),
                        Moved(ScratchNames(q, cfg), cfg))
    {
      PlacedIsMoved(t, q, cfg, v);
    }
  }

  lemma KeptAreBlind(q: Sql<TableRef>, cfg: Config, g: Global)
    requires ValidConfig(cfg) && Accepts(q, cfg) && AllKept(q, cfg)
    ensures AllBlind(q, {}, Without(ViewDatabase(ViewOf(g, cfg), cfg), CteNames(q)), Moved(ScratchNames(q, cfg), cfg))
    ensures KeepsPlain(Moved(ScratchNames(q, cfg), cfg))
  {
    hide Blind, Without, ViewDatabase, ViewOf, Accepts, CteNames, FateOf, ScratchNames;
    var f := Moved(ScratchNames(q, cfg), cfg);
    var view := Without(ViewDatabase(ViewOf(g, cfg), cfg), CteNames(q));
    forall p | p in Sights(q, {}) ensures Blind(p.0, NamesIn(p.1, view).value, f) {
      SightIsPermitted(q, cfg, p);
      KeptIsBlind(p, q, cfg, g);
    }
  }

  /** While every qualifier is kept, the two views answer alike. */
  lemma PlacedViewAnswersAlike(q: Sql<TableRef>, cfg: Config, g: Global)
    requires ValidConfig(cfg) && Accepts(q, cfg) && WellScoped(q) && AllKept(q, cfg)
    ensures Run(q, PlacedDatabase(ViewOf(g, cfg), cfg)) == Run(q, ViewDatabase(ViewOf(g, cfg), cfg))
  {
    hide *;
    var placed, view := PlacedDatabase(ViewOf(g, cfg), cfg), ViewDatabase(ViewOf(g, cfg), cfg);
    WithoutIsMoved(q, cfg, ViewOf(g, cfg));
    KeptAreBlind(q, cfg, g);
    RunFollows(q, Without(placed, CteNames(q)), Without(view, CteNames(q)), Moved(ScratchNames(q, cfg), cfg));
    RunWithout(q, placed);
    RunWithout(q, view);
  }

  /** Only a qualifier that names a schema can tell the two full names of a scratch table apart. */
  lemma OnlySchemasChange(x: TableRef, sight: set<TableRef>, names: set<string>, cfg: Config)
    requires FateOf(x, sight, names, cfg) != Kept
    ensures NamesSchema(x)
  {
    if !MeansTheSame(x, sight, names, cfg) {
      var t :| t in sight && Means(x, NameBefore(t, names, cfg)) != Means(x, NameAfter(t, names, cfg));
      assert NameBefore(t, names, cfg).name == Lower(t.name) == NameAfter(t, names, cfg).name;
      hide Lower;
    }
  }

  /** A query with a qualifier that means no table fails. */
  lemma MeaninglessFails(q: Sql<TableRef>, db: Database, p: (TableRef, set<TableRef>))
    requires WellScoped(q) && p in Sights(q, {}) && NamesSchema(p.0)
    requires forall t :: t in p.1 && Without(db, CteNames(q))(t).Some? ==>
      !Means(p.0, Without(db, CteNames(q))(t).value.fullName)
    ensures Run(q, db).Failed?
  {
    hide Means, CteNames, NamesSchema, WellScoped, Without;
    var none: map<string, Meaning> := map[];
    var frames: seq<Frame> := [];
    var db' := Without(db, CteNames(q));
    assert Meaningless(p.0, NamesIn(p.1, db').value);
    UnknownQualifierBreaksTheQuery(q, {}, db', none, p);
    assert AllWithin(frames, NamesIn({}, db'));
    RunWithout(q, db);
  }

  lemma SightIsPermitted(q: Sql<TableRef>, cfg: Config, p: (TableRef, set<TableRef>))
    requires Accepts(q, cfg) && p in Sights(q, {})
    ensures p.1 <= Refs(q) && forall t :: t in p.1 ==> Permitted(t, CteNames(q), cfg)
  {
    SightsAreRefs(q, {}, p);
  }

  lemma LostMeansNothing(p: (TableRef, set<TableRef>), names: set<string>, cfg: Config, g: Global)
    requires ValidConfig(cfg) && (FateOf(p.0, p.1, names, cfg) == Lost || FateOf(p.0, p.1, names, cfg) == Unknown)
    requires forall t :: t in p.1 ==> Permitted(t, names, cfg)
    ensures forall t :: t in p.1 && Without(PlacedDatabase(ViewOf(g, cfg), cfg), names)(t).Some? ==>
      !Means(p.0, Without(PlacedDatabase(ViewOf(g, cfg), cfg), names)(t).value.fullName)
  {
    hide Means, NameBefore, NameAfter, PlacedDatabase, ViewOf, Without, Permitted, ValidConfig;
    forall t | t in p.1 && Without(PlacedDatabase(ViewOf(g, cfg), cfg), names)(t).Some?
      ensures !Means(p.0, Without(PlacedDatabase(ViewOf(g, cfg), cfg), names)(t).value.fullName)
    {
      PlacedNames(t, names, cfg, g);
    }
  }

  lemma GainedMeantNothing(p: (TableRef, set<TableRef>), names: set<string>, cfg: Config, g: Global)
    requires ValidConfig(cfg) && (FateOf(p.0, p.1, names, cfg) == Gained || FateOf(p.0, p.1, names, cfg) == Unknown)
    requires forall t :: t in p.1 ==> Permitted(t, names, cfg)
    ensures forall t :: t in p.1 && Without(ViewDatabase(ViewOf(g, cfg), cfg), names)(t).Some? ==>
      !Means(p.0, Without(ViewDatabase(ViewOf(g, cfg), cfg), names)(t).value.fullName)
  {
    hide Means, NameBefore, NameAfter, ViewDatabase, ViewOf, Without, Permitted, ValidConfig;
    forall t | t in p.1 && Without(ViewDatabase(ViewOf(g, cfg), cfg), names)(t).Some?
      ensures !Means(p.0, Without(ViewDatabase(ViewOf(g, cfg), cfg), names)(t).value.fullName)
    {
      ViewNames(t, names, cfg, g);
    }
  }

  /** A qualifier that means nothing after the rewrite fails the query on the view under real names, and
    * with it the rewritten statement. */
  lemma LostQualifierBreaksTheQuery(q: Sql<TableRef>, cfg: Config, g: Global, fate: Fate)
    requires ValidConfig(cfg) && Accepts(q, cfg) && WellScoped(q)
    requires Occurs(fate, q, cfg) && (fate == Lost || fate == Unknown)
    ensures Run(q, PlacedDatabase(ViewOf(g, cfg), cfg)).Failed?
  {
    var p :| p in Sights(q, {}) && FateOf(p.0, p.1, CteNames(q), cfg) == fate;
    hide *;
    SightIsPermitted(q, cfg, p);
    OnlySchemasChange(p.0, p.1, CteNames(q), cfg);
    LostMeansNothing(p, CteNames(q), cfg, g);
    MeaninglessFails(q, PlacedDatabase(ViewOf(g, cfg), cfg), p);
  }

  /** A qualifier that means nothing before the rewrite fails the user's own query. */
  lemma GainedQualifierFailsBefore(q: Sql<TableRef>, cfg: Config, g: Global, fate: Fate)
    requires ValidConfig(cfg) && Accepts(q, cfg) && WellScoped(q)
    requires Occurs(fate, q, cfg) && (fate == Gained || fate == Unknown)
    ensures Run(q, ViewDatabase(ViewOf(g, cfg), cfg)).Failed?
  {
    var p :| p in Sights(q, {}) && FateOf(p.0, p.1, CteNames(q), cfg) == fate;
    hide *;
    SightIsPermitted(q, cfg, p);
    OnlySchemasChange(p.0, p.1, CteNames(q), cfg);
    GainedMeantNothing(p, CteNames(q), cfg, g);
    MeaninglessFails(q, ViewDatabase(ViewOf(g, cfg), cfg), p);
  }

  /** What the rewritten statement answers, for every accepted query, against two readings of it.
    *
    * It answers the user's query on the view with scratch tables under their real names if CTE names are
    * used in scope, and fails otherwise. It fails as well when a qualifier is lost; when one is gained
    * the user's own view fails. Against the user's own view the answer is therefore the same exactly when
    * CTE names are used in scope and every qualifier is kept, or the view fails and so does the answer.
    * What is left undecided is a query all of whose changed qualifiers mean some tables in their sight
    * before and other tables in their sight after: there it is up to the tables. */
  lemma RewriteMeaning(q: Sql<TableRef>, cfg: Config, g: Global)
    requires ValidConfig(cfg) && Accepts(q, cfg)
    ensures
      var answer := Run(Rewrite(q, cfg), GlobalDatabase(g, cfg));
      var placed := Run(q, PlacedDatabase(ViewOf(g, cfg), cfg));
      var meant := Run(q, ViewDatabase(ViewOf(g, cfg), cfg));
      && (answer == placed <==> WellScoped(q) || placed.Failed?)
      && (!WellScoped(q) || Occurs(Lost, q, cfg) || Occurs(Unknown, q, cfg) ==> answer.Failed?)
      && (WellScoped(q) && (Occurs(Gained, q, cfg) || Occurs(Unknown, q, cfg)) ==>
            meant.Failed? && (answer == meant <==> placed.Failed?))
      && (!WellScoped(q) || Occurs(Lost, q, cfg) || AllKept(q, cfg) ==>
            (answer == meant <==> (WellScoped(q) && AllKept(q, cfg)) || meant.Failed?))
      && (WellScoped(q) && !AllKept(q, cfg) && (forall fate :: Occurs(fate, q, cfg) ==> fate == Kept || fate == Captured)
          <==> Undecided(q, cfg))
  {
    hide Accepts, ViewOf, ViewDatabase, PlacedDatabase, GlobalDatabase, Rewrite, FateOf, WellScoped, Sights, CteNames, Occurs,
         AllKept;
    OneFateOccurs(q, cfg);
    if WellScoped(q) {
      RewritePreservesMeaning(q, cfg, g, Trino);
      if Occurs(Lost, q, cfg) {
        LostQualifierBreaksTheQuery(q, cfg, g, Lost);
      }
      if Occurs(Gained, q, cfg) {
        GainedQualifierFailsBefore(q, cfg, g, Gained);
      }
      if Occurs(Unknown, q, cfg) {
        LostQualifierBreaksTheQuery(q, cfg, g, Unknown);
        GainedQualifierFailsBefore(q, cfg, g, Unknown);
      }
      if AllKept(q, cfg) {
        PlacedViewAnswersAlike(q, cfg, g);
      }
    } else {
      OutOfScopeFails(q, cfg, g);
    }
  }

  /** Some qualifier is captured and nothing else is amiss. */
  predicate Undecided(q: Sql<TableRef>, cfg: Config) {
    && WellScoped(q) && Occurs(Captured, q, cfg)
    && !Occurs(Unknown, q, cfg) && !Occurs(Lost, q, cfg) && !Occurs(Gained, q, cfg)
  }

  lemma OneFateOccurs(q: Sql<TableRef>, cfg: Config)
    ensures AllKept(q, cfg) <==> forall fate :: Occurs(fate, q, cfg) ==> fate == Kept
  {
    hide FateOf, Sights, CteNames;
    forall p | p in Sights(q, {}) ensures Occurs(FateOf(p.0, p.1, CteNames(q), cfg), q, cfg) {
    }
  }

  lemma OutOfScopeFails(q: Sql<TableRef>, cfg: Config, g: Global)
    requires !WellScoped(q)
    ensures Run(Rewrite(q, cfg), GlobalDatabase(g, cfg)).Failed?
  {
    var none: map<string, Meaning> := map[];
    var frames: seq<Frame> := [];
    assert none.Keys == {};
    OutOfScopeNameBreaksTheQuery(q, CteNames(q), cfg, g, none);
    assert AllWithin(frames, None);
  }

  /** The alias schema is the tenant's word for its scratch tables and nothing else has that name. */
  predicate AliasIsReserved(cfg: Config) {
    ScratchAlias != Lower(cfg.tenant) && ScratchAlias != Lower(cfg.scratchSchema) && ScratchAlias !in Shared(cfg)
  }

  /** With the scratchpad on, a column qualified through the alias of a scratch table in sight is lost. */
  lemma AliasQualifierIsLost(x: TableRef, t: TableRef, sight: set<TableRef>, names: set<string>, cfg: Config)
    requires ValidConfig(cfg) && AliasIsReserved(cfg) && forall u :: u in sight ==> Permitted(u, names, cfg)
    requires t in sight && Classify(t, names, cfg).Scratch?
    requires x.catalog == "" && Lower(x.db) == ScratchAlias && Lower(x.name) == Lower(t.name)
    ensures FateOf(x, sight, names, cfg) == Lost
  {
    LowerEmpty(x.name);
    LowerIdempotent(t.name);
    LowerIdempotent(cfg.scratchSchema);
    assert Lower(ScratchAlias) == ScratchAlias;
    assert Means(x, NameBefore(t, names, cfg)) && !Means(x, NameAfter(t, names, cfg));
    forall u | u in sight ensures !Means(x, NameAfter(u, names, cfg)) {
      SchemaAfterRewrite(u, names, cfg);
    }
  }

  /** The schemas a rewritten reference can be in. */
  lemma SchemaAfterRewrite(t: TableRef, names: set<string>, cfg: Config)
    requires Permitted(t, names, cfg)
    ensures var db := Lower(NameAfter(t, names, cfg).db);
      db == "" || db == Lower(cfg.tenant) || db == Lower(cfg.scratchSchema) || db in Shared(cfg)
  {
    hide Shared;
    LowerIdempotent(cfg.tenant);
    LowerIdempotent(cfg.scratchSchema);
    LowerIdempotent(t.db);
    LowerIdempotent(Lower(t.db));
  }
}
