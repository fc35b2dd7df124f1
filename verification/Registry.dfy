/** The metadata registry: four tables, changed in transactions.
  *
  * `State` is the value of the tables and the functions on it say what each transaction
  * does. `Store` is the mutable database the statements run against; a statement can fail,
  * and then the transaction is rolled back.
  */
module Registry {
  import opened Common

  datatype Source = Inline | S3Parquet | Upload | Stream | Derived | Reconciled

  datatype Row = Row(source: Source, sourceRef: Option<string>, producingSql: Option<string>,
                     createdAt: nat, updatedAt: nat)

  /** What a producer records about an object, besides lineage. */
  datatype Entry = Entry(source: Source, sourceRef: Option<string>, producingSql: Option<string>, tags: seq<string>)

  /** The stub written by the reconciler and by read-repair. */
  const Stub := Entry(Reconciled, None, None, [])

  datatype State = State(objects: map<Key, Row>, tags: set<(Key, string)>,
                         lineage: set<(Key, Label)>, tombstones: map<Key, nat>)

  const Empty := State(map[], {}, {}, map[])

  function Elements<T>(s: seq<T>): set<T> {
    set x | x in s
  }

  // ------------------------------------------------------------ what the transactions do

  function Upserted(st: State, k: Key, e: Entry, now: nat): State {
    var created := if k in st.objects then st.objects[k].createdAt else now;
    st.(objects := st.objects[k := Row(e.source, e.sourceRef, e.producingSql, created, now)])
  }

  function Retagged(st: State, k: Key, tags: set<string>): State {
    st.(tags := (set p | p in st.tags && p.0 != k) + (set t | t in tags :: (k, t)))
  }

  function Relinked(st: State, k: Key, parents: set<Label>): State {
    st.(lineage := (set p | p in st.lineage && p.0 != k) + (set l | l in parents && l != k.name :: (k, l)))
  }

  /** One guarded write: row and tags, and lineage when it is given. */
  function Recorded(st: State, k: Key, e: Entry, parents: Option<seq<Label>>, now: nat): State {
    var st' := Retagged(Upserted(st, k, e, now), k, Elements(e.tags));
    if parents.Some? then Relinked(st', k, Elements(parents.value)) else st'
  }

  function Deleted(st: State, k: Key): State {
    st.(objects := st.objects - {k}, tags := (set p | p in st.tags && p.0 != k),
        lineage := (set p | p in st.lineage && p.0 != k))
  }

  function Bumped(st: State, k: Key): State {
    st.(tombstones := st.tombstones[k := Count(st, k) + 1])
  }

  function Cleared(st: State, k: Key): State {
    st.(tombstones := st.tombstones - {k})
  }

  /** Consecutive sweeps in which the row was absent; no tombstone counts as zero. */
  function Count(st: State, k: Key): nat {
    if k in st.tombstones then st.tombstones[k] else 0
  }

  function TagsOf(st: State, k: Key): set<string> {
    set p | p in st.tags && p.0 == k :: p.1
  }

  function ParentsOf(st: State, k: Key): set<Label> {
    set p | p in st.lineage && p.0 == k :: p.1
  }

  // ------------------------------------------------------------ the invariant over runs

  /** Tags and lineage hang off existing rows and no row is its own parent. */
  ghost predicate Consistent(st: State) {
    && (forall p :: p in st.tags ==> p.0 in st.objects)
    && (forall p :: p in st.lineage ==> p.0 in st.objects && p.1 != p.0.name)
  }

  datatype Write =
    | Record(k: Key, entry: Entry, parents: Option<seq<Label>>, now: nat)
    | Forget(k: Key)
    | RolledBack(k: Key)     // a write whose transaction failed
    | Sweep(k: Key, bump: bool)

  function Perform(st: State, w: Write): State {
    match w
    case Record(k, e, parents, now) => Recorded(st, k, e, parents, now)
    case Forget(k) => Deleted(st, k)
    case RolledBack(_) => st
    case Sweep(k, bump) => if bump then Bumped(st, k) else Cleared(st, k)
  }

  function RunWrites(ws: seq<Write>): State {
    if ws == [] then Empty else Perform(RunWrites(ws[..|ws| - 1]), ws[|ws| - 1])
  }

  /** The last write to `k` that took effect, if the object was not forgotten since. */
  function LastRecord(ws: seq<Write>, k: Key): Option<Entry> {
    if ws == [] then None
    else
      var w := ws[|ws| - 1];
      if w.k == k && w.Record? then Some(w.entry)
      else if w.k == k && w.Forget? then None
      else LastRecord(ws[..|ws| - 1], k)
  }

  /** When the first write since the object was last forgotten happened. */
  function FirstTime(ws: seq<Write>, k: Key): Option<nat> {
    if ws == [] then None
    else
      var w, before := ws[|ws| - 1], FirstTime(ws[..|ws| - 1], k);
      if w.k == k && w.Record? then (if before.Some? then before else Some(w.now))
      else if w.k == k && w.Forget? then None
      else before
  }

  /** When the last write that took effect happened. */
  function LastTime(ws: seq<Write>, k: Key): Option<nat> {
    if ws == [] then None
    else
      var w := ws[|ws| - 1];
      if w.k == k && w.Record? then Some(w.now)
      else if w.k == k && w.Forget? then None
      else LastTime(ws[..|ws| - 1], k)
  }

  /** The parents given by the last write to `k` that gave any, since it was last forgotten. */
  function LastParents(ws: seq<Write>, k: Key): set<Label> {
    if ws == [] then {}
    else
      var w := ws[|ws| - 1];
      if w.k == k && w.Record? && w.parents.Some? then Elements(w.parents.value) - {k.name}
      else if w.k == k && w.Forget? then {}
      else LastParents(ws[..|ws| - 1], k)
  }

  /** How often the object was found absent since its counter was last cleared. */
  function Absences(ws: seq<Write>, k: Key): nat {
    if ws == [] then 0
    else
      var w, before := ws[|ws| - 1], Absences(ws[..|ws| - 1], k);
      if w.k != k || !w.Sweep? then before else if w.bump then before + 1 else 0
  }

  /** Only sweeps touch the counters, and a counter says how often since the last clear. */
  lemma {:induction false} RunsCountAbsences(ws: seq<Write>, k: Key)
    ensures k in RunWrites(ws).tombstones <==> Absences(ws, k) > 0
    ensures k in RunWrites(ws).tombstones ==> RunWrites(ws).tombstones[k] == Absences(ws, k)
  {
    if ws != [] {
      RunsCountAbsences(ws[..|ws| - 1], k);
    }
  }

  /** After any run: the tables are consistent, and what they say of an object is exactly what
    * its last surviving write said, tags without repetition and lineage without itself. */
  lemma {:induction false} RunsKeepTheRegistryConsistent(ws: seq<Write>, k: Key)
    ensures Consistent(RunWrites(ws))
    ensures k in RunWrites(ws).objects <==> LastRecord(ws, k).Some?
    ensures LastRecord(ws, k).Some? ==>
      var e := LastRecord(ws, k).value;
      && FirstTime(ws, k).Some? && LastTime(ws, k).Some?
      && RunWrites(ws).objects[k] ==
           Row(e.source, e.sourceRef, e.producingSql, FirstTime(ws, k).value, LastTime(ws, k).value)
    ensures LastRecord(ws, k).None? ==> FirstTime(ws, k).None?
    ensures forall t :: (k, t) in RunWrites(ws).tags <==> LastRecord(ws, k).Some? && t in LastRecord(ws, k).value.tags
    ensures forall l :: (k, l) in RunWrites(ws).lineage <==> l in LastParents(ws, k)
  {
    RunsKeepTags(ws, k);
    var st := RunWrites(ws);
    assert forall t :: (k, t) in st.tags <==> t in TagsOf(st, k);
    assert forall l :: (k, l) in st.lineage <==> l in ParentsOf(st, k);
  }

  lemma {:induction false} RunsKeepTags(ws: seq<Write>, k: Key)
    ensures Consistent(RunWrites(ws))
    ensures k in RunWrites(ws).objects <==> LastRecord(ws, k).Some?
    ensures LastRecord(ws, k).Some? ==>
      var e := LastRecord(ws, k).value;
      && FirstTime(ws, k).Some? && LastTime(ws, k).Some?
      && RunWrites(ws).objects[k] ==
           Row(e.source, e.sourceRef, e.producingSql, FirstTime(ws, k).value, LastTime(ws, k).value)
      && TagsOf(RunWrites(ws), k) == Elements(LastRecord(ws, k).value.tags)
    ensures LastRecord(ws, k).None? ==> TagsOf(RunWrites(ws), k) == {} && FirstTime(ws, k).None?
    ensures ParentsOf(RunWrites(ws), k) == LastParents(ws, k)
  {
    if ws != [] {
      var w, st := ws[|ws| - 1], RunWrites(ws[..|ws| - 1]);
      RunsKeepTags(ws[..|ws| - 1], k);
      match w
      case Record(k', e, parents, now) => RecordKeepsConsistent(st, k', e, parents, now, k);
      case Forget(k') => DeleteKeepsConsistent(st, k', k);
      case RolledBack(_) =>
      case Sweep(k', bump) => SweepKeepsConsistent(st, k', bump, k);
    }
  }

  lemma SweepKeepsConsistent(st: State, k: Key, bump: bool, other: Key)
    requires Consistent(st)
    ensures var st' := if bump then Bumped(st, k) else Cleared(st, k);
      Consistent(st') && TagsOf(st', other) == TagsOf(st, other) && ParentsOf(st', other) == ParentsOf(st, other)
  {
  }

  lemma RecordKeepsConsistent(st: State, k: Key, e: Entry, parents: Option<seq<Label>>, now: nat, other: Key)
    requires Consistent(st)
    ensures var st' := Recorded(st, k, e, parents, now);
      && Consistent(st') && k in st'.objects
      && TagsOf(st', k) == Elements(e.tags)
      && ParentsOf(st', k) == (if parents.Some? then Elements(parents.value) - {k.name} else ParentsOf(st, k))
      && (other != k ==> TagsOf(st', other) == TagsOf(st, other) && ParentsOf(st', other) == ParentsOf(st, other))
  {
    var st1 := Retagged(Upserted(st, k, e, now), k, Elements(e.tags));
    RetagFacts(Upserted(st, k, e, now), k, Elements(e.tags), other);
    if parents.Some? {
      RelinkFacts(st1, k, Elements(parents.value), other);
    }
  }

  lemma RetagFacts(st: State, k: Key, tags: set<string>, other: Key)
    requires Consistent(st) && k in st.objects
    ensures var st' := Retagged(st, k, tags);
      Consistent(st') && TagsOf(st', k) == tags && (other != k ==> TagsOf(st', other) == TagsOf(st, other))
  {
    var st' := Retagged(st, k, tags);
    assert forall t :: t in tags ==> (k, t) in st'.tags;
    assert forall t :: t in TagsOf(st, other) ==> (other, t) in st.tags;
    assert forall t :: other != k && (other, t) in st.tags ==> (other, t) in st'.tags;
  }

  lemma RelinkFacts(st: State, k: Key, parents: set<Label>, other: Key)
    requires Consistent(st) && k in st.objects
    ensures var st' := Relinked(st, k, parents);
      && Consistent(st') && ParentsOf(st', k) == parents - {k.name}
      && (other != k ==> ParentsOf(st', other) == ParentsOf(st, other))
  {
    var st' := Relinked(st, k, parents);
    assert forall l :: l in parents && l != k.name ==> (k, l) in st'.lineage;
    assert forall l :: l in ParentsOf(st, other) ==> (other, l) in st.lineage;
    assert forall l :: other != k && (other, l) in st.lineage ==> (other, l) in st'.lineage;
  }

  lemma DeleteKeepsConsistent(st: State, k: Key, other: Key)
    requires Consistent(st)
    ensures var st' := Deleted(st, k);
      && Consistent(st') && k !in st'.objects && TagsOf(st', k) == {} && ParentsOf(st', k) == {}
      && (other != k ==> TagsOf(st', other) == TagsOf(st, other) && ParentsOf(st', other) == ParentsOf(st, other))
  {
    var st' := Deleted(st, k);
    assert forall t :: other != k && (other, t) in st.tags ==> (other, t) in st'.tags;
    assert forall l :: other != k && (other, l) in st.lineage ==> (other, l) in st'.lineage;
    assert forall t :: t in TagsOf(st, other) ==> (other, t) in st.tags;
    assert forall l :: l in ParentsOf(st, other) ==> (other, l) in st.lineage;
  }

  // ------------------------------------------------------------ the database

  /** How a guarded write ends: recorded, swallowed because the registry is down, or raised. */
  datatype Outcome = Committed | Pending | Raised

  class Store {
    var objects: map<Key, Row>
    var tags: set<(Key, string)>
    var lineage: set<(Key, Label)>
    var tombstones: map<Key, nat>
    var failAfter: Option<nat>   // statements that still succeed; None while the store is healthy
    var down: bool               // whether a failure means the registry is unreachable

    constructor ()
      ensures View() == Empty && failAfter == None
    {
      objects, tags, lineage, tombstones := map[], {}, {}, map[];
      failAfter, down := None, false;
    }

    function View(): State
      reads this
    {
      State(objects, tags, lineage, tombstones)
    }

    /** One statement reaches the database, or it raises. */
    method Statement() returns (ok: bool)
      modifies this`failAfter
      ensures old(failAfter) == None ==> ok && failAfter == None
      ensures old(failAfter) != None ==> failAfter != None
    {
      ok := failAfter != Some(0);
      if failAfter.Some? && ok {
        failAfter := Some(failAfter.value - 1);
      }
    }

    method ReplaceTags(k: Key, newTags: seq<string>) returns (ok: bool)
      modifies this`tags, this`failAfter
      ensures ok ==> View() == Retagged(old(View()), k, Elements(newTags))
      ensures old(failAfter) == None ==> ok && failAfter == None
      ensures old(failAfter) != None ==> failAfter != None
    {
      ok := Statement();
      if !ok { return; }
      ghost var others := set p | p in tags && p.0 != k;
      tags := set p | p in tags && p.0 != k;
      var i, seen := 0, {};
      while i < |newTags|
        invariant 0 <= i <= |newTags| && ok
        invariant seen == Elements(newTags[..i])
        invariant tags == others + (set t | t in seen :: (k, t))
        invariant failAfter == None <==> old(failAfter) == None
      {
        var tag := newTags[i];
        assert newTags[..i + 1] == newTags[..i] + [tag];
        if tag !in seen {
          ok := Statement();
          if !ok { return; }
          assert (k, tag) !in tags;     // the insert breaks no primary key
          tags := tags + {(k, tag)};
          seen := seen + {tag};
        }
        i := i + 1;
      }
      assert newTags[..i] == newTags;
    }

    method SetLineage(k: Key, parents: seq<Label>) returns (ok: bool)
      modifies this`lineage, this`failAfter
      ensures ok ==> View() == Relinked(old(View()), k, Elements(parents))
      ensures old(failAfter) == None ==> ok && failAfter == None
      ensures old(failAfter) != None ==> failAfter != None
    {
      ok := Statement();
      if !ok { return; }
      ghost var others := set p | p in lineage && p.0 != k;
      lineage := set p | p in lineage && p.0 != k;
      var i := 0;
      while i < |parents|
        invariant 0 <= i <= |parents| && ok
        invariant lineage == others + (set l | l in Elements(parents[..i]) && l != k.name :: (k, l))
        invariant failAfter == None <==> old(failAfter) == None
      {
        var parent := parents[i];
        assert parents[..i + 1] == parents[..i] + [parent];
        if parent != k.name {
          ok := Statement();
          if !ok { return; }
          lineage := lineage + {(k, parent)};
        }
        i := i + 1;
      }
      assert parents[..i] == parents;
    }

    /** Row, tags and given lineage in one transaction: all of it, or none of it. */
    method RecordObjectGuarded(k: Key, e: Entry, parents: Option<seq<Label>>, now: nat) returns (outcome: Outcome)
      modifies this
      ensures View() == if outcome == Committed then Recorded(old(View()), k, e, parents, now) else old(View())
      ensures outcome == Pending ==> old(down)
      ensures outcome == Raised ==> !old(down)
      ensures old(failAfter) == None ==> outcome == Committed && failAfter == None
      ensures down == old(down)
    {
      var saved := View();
      var ok := Statement();
      if ok {
        var created := if k in objects then objects[k].createdAt else now;
        objects := objects[k := Row(e.source, e.sourceRef, e.producingSql, created, now)];
        ok := ReplaceTags(k, e.tags);
      }
      if ok && parents.Some? {
        ok := SetLineage(k, parents.value);
      }
      if ok {
        return Committed;
      }
      objects, tags, lineage, tombstones := saved.objects, saved.tags, saved.lineage, saved.tombstones;
      outcome := if down then Pending else Raised;
    }

    /** The same write without the guard: any failure is raised to the caller. */
    method RecordObject(k: Key, e: Entry, now: nat) returns (ok: bool)
      modifies this
      ensures View() == if ok then Recorded(old(View()), k, e, None, now) else old(View())
      ensures old(failAfter) == None ==> ok && failAfter == None
    {
      var outcome := RecordObjectGuarded(k, e, None, now);
      ok := outcome == Committed;
    }

    method DeleteObject(k: Key) returns (ok: bool)
      modifies this
      ensures View() == if ok then Deleted(old(View()), k) else old(View())
      ensures old(failAfter) == None ==> ok && failAfter == None
    {
      var saved := View();
      ok := Statement();
      if ok {
        objects := objects - {k};
        ok := Statement();
      }
      if ok {
        tags := set p | p in tags && p.0 != k;
        ok := Statement();
      }
      if ok {
        lineage := set p | p in lineage && p.0 != k;
      } else {
        objects, tags, lineage := saved.objects, saved.tags, saved.lineage;
      }
    }

    method BumpTombstone(k: Key) returns (ok: bool)
      modifies this`tombstones, this`failAfter
      ensures View() == if ok then Bumped(old(View()), k) else old(View())
      ensures old(failAfter) == None ==> ok && failAfter == None
    {
      ok := Statement();
      if ok {
        tombstones := tombstones[k := (if k in tombstones then tombstones[k] + 1 else 1)];
      }
    }

    method ClearTombstone(k: Key) returns (ok: bool)
      modifies this`tombstones, this`failAfter
      ensures View() == if ok then Cleared(old(View()), k) else old(View())
      ensures old(failAfter) == None ==> ok && failAfter == None
    {
      ok := Statement();
      if ok {
        tombstones := tombstones - {k};
      }
    }

    method GetObject(k: Key) returns (r: Option<(Row, seq<string>)>)
      ensures r.Some? <==> k in objects
      ensures r.Some? ==>
        && r.value.0 == objects[k] && IsSortedListing(r.value.1, TagsOf(View(), k))
        && forall t :: t in r.value.1 <==> (k, t) in tags
    {
      if k !in objects {
        return None;
      }
      var found := ListElements(TagsOf(View(), k));
      EnumeratesMembers(found, TagsOf(View(), k));
      var sorted := SortStrings(found);
      ListedMembers(sorted, View(), k);
      r := Some((objects[k], sorted));
    }

    /** The tenant's objects, most recently updated first, each with its tags; with a tag list,
      * only the objects that carry one of those tags. */
    method ListObjects(tenant: Tenant, wanted: seq<string>) returns (rows: seq<Listed>)
      ensures NoDuplicates(KeysOf(rows)) && |KeysOf(rows)| == |rows|
      ensures forall i :: 0 <= i < |rows| ==> KeysOf(rows)[i] == rows[i].k
      ensures forall k :: k in KeysOf(rows) <==>
        && k in objects && k.tenant == tenant
        && (wanted == [] || exists t :: t in wanted && (k, t) in tags)
      ensures forall i :: 0 <= i < |rows| ==>
        && rows[i].k in objects && rows[i].row == objects[rows[i].k]
        && IsSortedListing(rows[i].tags, TagsOf(View(), rows[i].k))
        && forall t :: t in rows[i].tags <==> (rows[i].k, t) in tags
      ensures forall i, j :: 0 <= i < j < |rows| ==> rows[i].row.updatedAt >= rows[j].row.updatedAt
    {
      hide IsSortedListing, Matching, Enumerates;
      MatchingInWords(View(), tenant, wanted);
      var keys := SelectNewestFirst(objects, Matching(View(), tenant, wanted));
      EnumeratesMembers(keys, Matching(View(), tenant, wanted));
      EnumeratesOnce(keys, Matching(View(), tenant, wanted));
      var tagRows := ListElements(set p | p in tags && p.0.tenant == tenant);
      EnumeratesMembers(tagRows, set p | p in tags && p.0.tenant == tenant);
      EnumeratesOnce(tagRows, set p | p in tags && p.0.tenant == tenant);
      var byLabel := GroupByLabel(tagRows);
      rows := [];
      var i := 0;
      while i < |keys|
        invariant 0 <= i <= |keys| && |rows| == i
        invariant forall j :: 0 <= j < i ==>
          && rows[j].k == keys[j] && rows[j].row == objects[keys[j]]
          && IsSortedListing(rows[j].tags, TagsOf(View(), keys[j]))
      {
        var found := if keys[i].name in byLabel then byLabel[keys[i].name] else [];
        assert keys[i] in keys;
        ghost var own := Grouped(tagRows, keys[i].name);
        assert NoDuplicates(found) && Elements(found) == own;
        assert own == TagsOf(View(), keys[i]) by {
          GroupedIsTagsOf(View(), tenant, tagRows, keys[i]);
        }
        var sorted := SortStrings(found);
        rows := rows + [Listed(keys[i], objects[keys[i]], sorted)];
        i := i + 1;
      }
      assert KeysOf(rows) == keys;
      ListedTags(rows, View());
    }
  }

  lemma ListedTags(rows: seq<Listed>, st: State)
    requires forall i :: 0 <= i < |rows| ==> IsSortedListing(rows[i].tags, TagsOf(st, rows[i].k))
    ensures forall i :: 0 <= i < |rows| ==> forall t :: t in rows[i].tags <==> (rows[i].k, t) in st.tags
  {
    forall i | 0 <= i < |rows| ensures forall t :: t in rows[i].tags <==> (rows[i].k, t) in st.tags {
      ListedMembers(rows[i].tags, st, rows[i].k);
    }
  }

  lemma ListedMembers(s: seq<string>, st: State, k: Key)
    requires IsSortedListing(s, TagsOf(st, k))
    ensures forall t :: t in s <==> (k, t) in st.tags
  {
    assert forall t :: t in s <==> t in Elements(s);
    assert forall t :: (k, t) in st.tags <==> t in TagsOf(st, k);
  }

  datatype Listed = Listed(k: Key, row: Row, tags: seq<string>)

  function KeysOf(rows: seq<Listed>): seq<Key> {
    seq(|rows|, i requires 0 <= i < |rows| => rows[i].k)
  }

  function Matching(st: State, tenant: Tenant, wanted: seq<string>): set<Key> {
    set k | k in st.objects && k.tenant == tenant && (wanted == [] || exists t :: t in wanted && (k, t) in st.tags)
  }

  lemma MatchingInWords(st: State, tenant: Tenant, wanted: seq<string>)
    ensures forall k :: k in Matching(st, tenant, wanted) <==>
      && k in st.objects && k.tenant == tenant
      && (wanted == [] || exists t :: t in wanted && (k, t) in st.tags)
  {
  }

  /** The tags among some tag rows that belong to a label. */
  function Grouped(rows: seq<(Key, string)>, name: Label): set<string> {
    set p | p in rows && p.0.name == name :: p.1
  }

  lemma GroupedIsTagsOf(st: State, tenant: Tenant, rows: seq<(Key, string)>, k: Key)
    requires Enumerates(rows, set p | p in st.tags && p.0.tenant == tenant)
    requires k.tenant == tenant
    ensures Grouped(rows, k.name) == TagsOf(st, k)
  {
    EnumeratesMembers(rows, set p | p in st.tags && p.0.tenant == tenant);
    forall t | t in Grouped(rows, k.name) ensures t in TagsOf(st, k) {
      var p :| p in rows && p.0.name == k.name && p.1 == t;
      assert p.0 == k;
    }
    forall t | t in TagsOf(st, k) ensures t in Grouped(rows, k.name) {
      assert (k, t) in rows && (k, t).0.name == k.name;
    }
  }

  method GroupByLabel(rows: seq<(Key, string)>) returns (byLabel: map<Label, seq<string>>)
    requires NoDuplicates(rows)
    requires forall p, q :: p in rows && q in rows ==> p.0.tenant == q.0.tenant
    ensures forall l :: var found := if l in byLabel then byLabel[l] else [];
      NoDuplicates(found) && Elements(found) == Grouped(rows, l)
  {
    byLabel := map[];
    var i := 0;
    while i < |rows|
      invariant 0 <= i <= |rows|
      invariant forall l :: var found := if l in byLabel then byLabel[l] else [];
        NoDuplicates(found) && Elements(found) == Grouped(rows[..i], l)
    {
      var name, tag := rows[i].0.name, rows[i].1;
      ghost var before := byLabel;
      var found := if name in byLabel then byLabel[name] else [];
      assert NoDuplicates(found) && Elements(found) == Grouped(rows[..i], name);
      assert tag !in found by {
        assert rows[i] !in rows[..i];
        assert forall p :: p in rows[..i] && p.0.name == name ==> p.1 != tag;
        assert forall t :: t in found ==> t in Elements(found);
      }
      byLabel := byLabel[name := found + [tag]];
      assert rows[..i + 1] == rows[..i] + [rows[i]];
      forall l
        ensures var found := if l in byLabel then byLabel[l] else [];
          NoDuplicates(found) && Elements(found) == Grouped(rows[..i + 1], l)
      {
        var prior := if l in before then before[l] else [];
        assert NoDuplicates(prior) && Elements(prior) == Grouped(rows[..i], l);
        assert Grouped(rows[..i + 1], l) == Grouped(rows[..i], l) + (if l == name then {tag} else {});
      }
      i := i + 1;
    }
    assert rows[..i] == rows;
  }

  /** Keys ordered by the time of their last update, newest first. */
  method SelectNewestFirst(objects: map<Key, Row>, keys: set<Key>) returns (s: seq<Key>)
    requires keys <= objects.Keys
    ensures Enumerates(s, keys)
    ensures forall i, j :: 0 <= i < j < |s| ==> objects[s[i]].updatedAt >= objects[s[j]].updatedAt
  {
    s := [];
    var rest := keys;
    while rest != {}
      invariant rest <= keys
      invariant Enumerates(s, keys - rest)
      invariant forall k :: k in s ==> k in keys
      invariant forall i, j :: 0 <= i < j < |s| ==> objects[s[i]].updatedAt >= objects[s[j]].updatedAt
      invariant forall i, k :: 0 <= i < |s| && k in rest ==> objects[s[i]].updatedAt >= objects[k].updatedAt
      decreases rest
    {
      var newest := Newest(objects, rest);
      ghost var seen := set y | y in s;
      rest := rest - {newest};
      s := s + [newest];
      assert (set y | y in s) == seen + {newest} == keys - rest;
    }
    assert keys - rest == keys;
    EnumeratesMembers(s, keys);
  }

  method Newest(objects: map<Key, Row>, keys: set<Key>) returns (newest: Key)
    requires keys != {} && keys <= objects.Keys
    ensures newest in keys && forall k :: k in keys ==> objects[newest].updatedAt >= objects[k].updatedAt
  {
    newest :| newest in keys;
    var rest := keys - {newest};
    while rest != {}
      invariant rest <= keys && newest in keys
      invariant forall k :: k in keys - rest ==> objects[newest].updatedAt >= objects[k].updatedAt
      decreases rest
    {
      var k :| k in rest;
      rest := rest - {k};
      if objects[k].updatedAt > objects[newest].updatedAt {
        newest := k;
      }
    }
  }

  // ------------------------------------------------------------ sorted tag lists

  /** The elements of a set in strictly increasing order. */
  ghost predicate IsSortedListing(s: seq<string>, xs: set<string>) {
    && Elements(s) == xs
    && forall i, j :: 0 <= i < j < |s| ==> TextBefore(s[i], s[j])
  }

  lemma {:induction false} TextOrder(a: string, b: string, c: string)
    ensures !TextBefore(a, a)
    ensures TextBefore(a, b) && TextBefore(b, c) ==> TextBefore(a, c)
    ensures a == b || TextBefore(a, b) || TextBefore(b, a)
    ensures !(TextBefore(a, b) && TextBefore(b, a))
  {
    var a', b', c' := (if a == "" then a else a[1..]), (if b == "" then b else b[1..]), if c == "" then c else c[1..];
    if a != "" || b != "" || c != "" {
      TextOrder(a', b', c');
      assert a != "" && b != "" && a[0] == b[0] && a' == b' ==> a == b;
    }
  }

  /** There is only one sorted list of a set: however the tags were gathered, the lists agree. */
  lemma {:induction false} SortedListingIsUnique(s: seq<string>, t: seq<string>, xs: set<string>)
    requires IsSortedListing(s, xs) && IsSortedListing(t, xs)
    ensures s == t
  {
    if s == [] {
      assert xs == {};
      NoElements(t);
    } else {
      assert s[0] in xs;
      assert s[0] in t;
      assert t[0] in Elements(t);
      assert t[0] in s;
      var i :| 0 <= i < |t| && t[i] == s[0];
      var j :| 0 <= j < |s| && s[j] == t[0];
      TextOrder(s[0], t[0], s[0]);
      assert s[0] == t[0];
      TailListing(s, xs);
      TailListing(t, xs);
      SortedListingIsUnique(s[1..], t[1..], xs - {s[0]});
    }
  }

  lemma NoElements<T>(s: seq<T>)
    ensures s == [] <==> Elements(s) == {}
  {
    if s != [] {
      assert s[0] in Elements(s);
    }
  }

  lemma TailListing(s: seq<string>, xs: set<string>)
    requires s != [] && IsSortedListing(s, xs)
    ensures IsSortedListing(s[1..], xs - {s[0]})
  {
    forall x | x in s[1..] ensures x in xs - {s[0]} {
      var i :| 1 <= i < |s| && s[i] == x;
      assert x in Elements(s);
      TextOrder(s[0], s[0], x);
    }
    forall x | x in xs - {s[0]} ensures x in s[1..] {
      assert x in s;
      var i :| 0 <= i < |s| && s[i] == x;
      assert s[1..][i - 1] == x;
    }
  }

  method SortStrings(s: seq<string>) returns (sorted: seq<string>)
    requires NoDuplicates(s)
    ensures IsSortedListing(sorted, Elements(s))
  {
    sorted := [];
    var i := 0;
    while i < |s|
      invariant 0 <= i <= |s|
      invariant IsSortedListing(sorted, Elements(s[..i]))
    {
      assert forall x :: x in sorted ==> x in Elements(s[..i]);
      assert s[i] !in sorted;
      assert s[..i + 1] == s[..i] + [s[i]];
      sorted := InsertString(s[i], sorted);
      i := i + 1;
    }
    assert s[..i] == s;
  }

  method InsertString(x: string, s: seq<string>) returns (r: seq<string>)
    requires IsSortedListing(s, Elements(s)) && x !in s
    ensures IsSortedListing(r, Elements(s) + {x})
  {
    var i := 0;
    while i < |s| && TextBefore(s[i], x)
      invariant 0 <= i <= |s|
      invariant forall j :: 0 <= j < i ==> TextBefore(s[j], x)
    {
      i := i + 1;
    }
    r := s[..i] + [x] + s[i..];
    forall j | i <= j < |s| ensures TextBefore(x, s[j]) {
      TextOrder(x, s[i], s[j]);
    }
    forall j, k | 0 <= j < k < |r| ensures TextBefore(r[j], r[k]) {
      if j < i && k == i {
        assert r[j] == s[j];
      } else if j == i {
        assert r[k] == s[k - 1];
      } else if j < i {
        assert r[j] == s[j] && (k < i ==> r[k] == s[k]) && (k > i ==> r[k] == s[k - 1]);
      } else {
        assert r[j] == s[j - 1] && r[k] == s[k - 1];
      }
    }
    assert Elements(r) == Elements(s[..i]) + {x} + Elements(s[i..]);
    assert Elements(s) == Elements(s[..i]) + Elements(s[i..]) by {
      assert s == s[..i] + s[i..];
    }
  }
}
