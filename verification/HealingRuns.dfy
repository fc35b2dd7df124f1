/** What holds over whole runs of the self-healing protocol. */
module HealingRuns {
  import opened Common
  import opened Reconciler
  import opened Healing
  import R = Registry

  /** The visits so far, with the one in progress. */
  function Seen(w: World): seq<Visit> {
    w.history + Record(w)
  }

  // ------------------------------------------------------------ sweeps and namespaces

  /** The namespaces of the current sweep that are behind the sweeper. */
  function Behind(z: Sweeper): seq<Tenant> {
    match z
    case Asleep => []
    case Between(all, todo) => if |todo| <= |all| then all[..|all| - |todo|] else []
    case Listed(all, todo, _, _) => if |todo| < |all| then all[..|all| - |todo| - 1] else []
    case Counted(all, todo, _, _, _) => if |todo| < |all| then all[..|all| - |todo| - 1] else []
    case Applying(all, todo, _, _) => if |todo| < |all| then all[..|all| - |todo| - 1] else []
  }

  function Current(z: Sweeper): seq<Tenant> {
    match z
    case Listed(_, _, t, _) => [t]
    case Counted(_, _, t, _, _) => [t]
    case Applying(_, _, v, _) => [v.tenant]
    case _ => []
  }

  ghost predicate Numbered(w: World) {
    && (forall i :: 0 <= i < |w.history| ==> w.history[i].sweep <= w.sweeps)
    && (forall i, j :: 0 <= i < j < |w.history| ==> w.history[i].sweep <= w.history[j].sweep)
    && (forall i, j :: 0 <= i < j < |w.history| && w.history[i].tenant == w.history[j].tenant ==>
          w.history[i].sweep < w.history[j].sweep)
    && (!w.sweeper.Asleep? ==>
          && NoDuplicates(w.sweeper.all)
          && w.sweeper.all == Behind(w.sweeper) + Current(w.sweeper) + w.sweeper.todo
          && (forall t :: t in Behind(w.sweeper) <==>
                exists i :: 0 <= i < |w.history| && w.history[i].sweep == w.sweeps && w.history[i].tenant == t))
    && (w.sweeper.Applying? ==> w.sweeper.visit.sweep == w.sweeps)
  }

  /** The sweep numbers stay in order when the visit of the current namespace is added. */
  lemma VisitKeepsOrder(w: World, v: Visit)
    requires Numbered(w) && Current(w.sweeper) == [v.tenant] && v.sweep == w.sweeps
    ensures var h := w.history + [v];
      && (forall i, j :: 0 <= i < j < |h| ==> h[i].sweep <= h[j].sweep)
      && (forall i, j :: 0 <= i < j < |h| && h[i].tenant == h[j].tenant ==> h[i].sweep < h[j].sweep)
  {
    assert w.sweeper.all[|Behind(w.sweeper)|] == v.tenant;
    assert v.tenant !in Behind(w.sweeper);
    forall i | 0 <= i < |w.history| && w.history[i].tenant == v.tenant ensures w.history[i].sweep < v.sweep {
    }
  }

  /** Adding the visit of the current namespace to the history. */
  lemma VisitRecorded(w: World, v: Visit)
    requires Numbered(w) && Current(w.sweeper) == [v.tenant] && v.sweep == w.sweeps
    ensures Numbered(w.(history := w.history + [v], sweeper := Between(w.sweeper.all, w.sweeper.todo)))
    ensures Numbered(w.(history := w.history + [v], sweeper := Asleep))
  {
    VisitKeepsOrder(w, v);
    var h, z' := w.history + [v], Between(w.sweeper.all, w.sweeper.todo);
    assert Behind(z') == Behind(w.sweeper) + [v.tenant];
    forall t | t in Behind(z') ensures exists i :: 0 <= i < |h| && h[i].sweep == w.sweeps && h[i].tenant == t {
      if t == v.tenant {
        assert h[|w.history|] == v;
      } else {
        var i :| 0 <= i < |w.history| && w.history[i].sweep == w.sweeps && w.history[i].tenant == t;
        assert h[i] == w.history[i];
      }
    }
  }

  lemma SweepStarted(w: World, namespaces: seq<Tenant>)
    requires Numbered(w) && Enabled(w, WakeUp(namespaces))
    ensures Numbered(Next(w, WakeUp(namespaces)))
  {
    assert Behind(Next(w, WakeUp(namespaces)).sweeper) == [];
  }

  /** The same place in the same sweep. */
  lemma PlaceKept(w: World, w': World)
    requires Numbered(w) && w'.history == w.history && w'.sweeps == w.sweeps
    requires w'.sweeper.Asleep? == w.sweeper.Asleep?
    requires !w.sweeper.Asleep? ==>
      && w'.sweeper.all == w.sweeper.all && Behind(w'.sweeper) == Behind(w.sweeper)
      && Current(w'.sweeper) + w'.sweeper.todo == Current(w.sweeper) + w.sweeper.todo
    requires w'.sweeper.Applying? ==>
      w'.sweeper.visit.sweep == if w.sweeper.Applying? then w.sweeper.visit.sweep else w.sweeps
    ensures Numbered(w')
  {
    if !w.sweeper.Asleep? {
      var behind := Behind(w.sweeper);
      assert behind + Current(w'.sweeper) + w'.sweeper.todo == behind + (Current(w'.sweeper) + w'.sweeper.todo);
      assert behind + Current(w.sweeper) + w.sweeper.todo == behind + (Current(w.sweeper) + w.sweeper.todo);
    }
  }

  lemma NamespaceListed(w: World, live: set<Label>)
    requires Numbered(w) && Enabled(w, ListNamespace(live))
    ensures Numbered(Next(w, ListNamespace(live)))
  {
    var w' := Next(w, ListNamespace(live));
    hide Numbered;
    assert [w.sweeper.todo[0]] + w.sweeper.todo[1..] == w.sweeper.todo == [] + w.sweeper.todo;
    PlaceKept(w, w');
  }

  lemma SweeperStopped(w: World, s: Step)
    requires Numbered(w) && Enabled(w, s) && (s.SweeperDies? || s.EndSweep?)
    ensures Numbered(Next(w, s))
  {
    if s.SweeperDies? {
      if Record(w) == [] {
        assert Next(w, s).history == w.history;
      } else {
        VisitRecorded(w, Record(w)[0]);
        assert Record(w) == [Record(w)[0]];
      }
    }
  }

  lemma VisitEnded(w: World, s: Step)
    requires Numbered(w) && Enabled(w, s) && (s.FinishVisit? || s.FailVisit?)
    ensures Numbered(Next(w, s))
  {
    if s.FinishVisit? {
      VisitRecorded(w, w.sweeper.visit.(completed := true));
    } else {
      VisitRecorded(w, Record(w)[0]);
      assert Record(w) == [Record(w)[0]];
    }
  }

  lemma StepKeepsNumbered(w: World, s: Step)
    requires Numbered(w) && Enabled(w, s)
    ensures Numbered(Next(w, s))
  {
    hide Numbered;
    match s
    case WakeUp(namespaces) => SweepStarted(w, namespaces);
    case ListNamespace(live) => NamespaceListed(w, live);
    case FinishVisit => VisitEnded(w, s);
    case FailVisit => VisitEnded(w, s);
    case SweeperDies => SweeperStopped(w, s);
    case EndSweep => SweeperStopped(w, s);
    case _ => PlaceKept(w, Next(w, s));
  }

  lemma {:induction false} NumberedHolds(params: Params, steps: seq<Step>, worlds: seq<World>, i: nat)
    requires IsRun(params, steps, worlds) && i < |worlds|
    ensures Numbered(worlds[i])
  {
    if i > 0 {
      NumberedHolds(params, steps, worlds, i - 1);
      assert Steps(worlds[i - 1], steps[i - 1], worlds[i]);
      StepKeepsNumbered(worlds[i - 1], steps[i - 1]);
    }
  }

  /** When a sweep ends, it has been to every namespace it started with: a namespace that fails
    * stops nobody else. */
  lemma NoNamespaceIsStarved(params: Params, steps: seq<Step>, worlds: seq<World>, i: nat, t: Tenant)
    requires IsRun(params, steps, worlds) && i < |worlds|
    requires Enabled(worlds[i], EndSweep) && t in worlds[i].sweeper.all
    ensures exists v :: v in worlds[i].history && v.sweep == worlds[i].sweeps && v.tenant == t
  {
    NumberedHolds(params, steps, worlds, i);
    assert worlds[i].sweeper.all == Behind(worlds[i].sweeper);
  }

  // ------------------------------------------------------------ grace

  function AbsentVisits(history: seq<Visit>, from: nat, upto: nat, k: Key): set<nat>
    requires upto <= |history|
  {
    set j | from <= j < upto && SawAbsent(history[j], k)
  }

  /** A streak is a stretch of visits, in none of which the row was seen back. */
  lemma {:induction false} StreakWitness(history: seq<Visit>, h: nat, k: Key) returns (from: nat)
    requires h <= |history|
    ensures from <= h
    ensures |AbsentVisits(history, from, h, k)| == Streak(history[..h], k)
    ensures forall j :: from <= j < h ==> !SawBack(history[j], k)
  {
    from := h;
    assert AbsentVisits(history, h, h, k) == {};
    if h != 0 {
      assert history[..h][..h - 1] == history[..h - 1];
      if !SawBack(history[h - 1], k) {
        from := StreakWitness(history, h - 1, k);
        assert AbsentVisits(history, from, h, k)
            == AbsentVisits(history, from, h - 1, k) + (if SawAbsent(history[h - 1], k) then {h - 1} else {});
      }
    }
  }

  /** In at least `n` distinct sweeps up to visit `h` the row was seen registered but unlisted, and
    * in no completed visit among or between them was it seen back. */
  ghost predicate GraceMet(history: seq<Visit>, h: nat, k: Key, n: int)
    requires h < |history|
  {
    exists from: nat :: GraceMetFrom(history, from, h, k, n)
  }

  ghost predicate GraceMetFrom(history: seq<Visit>, from: nat, h: nat, k: Key, n: int)
    requires h < |history|
  {
    && |AbsentVisits(history, from, h + 1, k)| >= n
    && (forall j :: from <= j <= h ==> !SawBack(history[j], k))
    && (forall i, j :: i in AbsentVisits(history, from, h + 1, k) && j in AbsentVisits(history, from, h + 1, k) && i < j ==>
          history[i].sweep < history[j].sweep)
  }

  ghost predicate SweepsIncrease(history: seq<Visit>) {
    forall i, j :: 0 <= i < j < |history| && history[i].tenant == history[j].tenant ==> history[i].sweep < history[j].sweep
  }

  lemma GraceOfVisit(history: seq<Visit>, h: nat, l: Label, p: Params)
    requires h < |history| && SweepsIncrease(history)
    requires VisitSound(history[..h], history[h], p) && l in history[h].deleted
    ensures GraceMet(history, h, Key(history[h].tenant, l), if p.minAbsentSweeps > 1 then p.minAbsentSweeps else 1)
  {
    var v, k := history[h], Key(history[h].tenant, l);
    assert l in v.planned;
    var streak := Streak(history[..h], k);
    assert streak + 1 >= p.minAbsentSweeps;
    var from := StreakWitness(history, h, k);
    hide Streak, VisitSound;
    assert SawAbsent(v, k) && !SawBack(v, k);
    assert AbsentVisits(history, from, h + 1, k) == AbsentVisits(history, from, h, k) + {h};
    assert GraceMetFrom(history, from, h, k, if p.minAbsentSweeps > 1 then p.minAbsentSweeps else 1);
  }

  lemma SeenIsSound(w: World)
    requires Inv(w) && Numbered(w)
    ensures HistorySound(Seen(w), w.params)
    ensures SweepsIncrease(Seen(w))
  {
    var z, h := w.sweeper, w.history;
    if Record(w) == [] {
      assert Seen(w) == h;
    } else {
      var v := Record(w)[0];
      assert Record(w) == [v];
      HistoryGrows(h, v, w.params);
      assert Current(z) == [v.tenant];
      assert z.all[|Behind(z)|] == v.tenant;
      assert v.tenant !in Behind(z);
      forall i | 0 <= i < |h| && h[i].tenant == v.tenant ensures h[i].sweep < v.sweep {
      }
    }
  }

  /** Over every run, whatever the catalog lists and whatever clients do in between: a row the
    * sweeper has deleted went through its grace period. */
  lemma GraceOverRuns(params: Params, steps: seq<Step>, worlds: seq<World>, i: nat, h: nat, l: Label)
    requires IsRun(params, steps, worlds) && i < |worlds|
    requires h < |Seen(worlds[i])| && l in Seen(worlds[i])[h].deleted
    ensures var history := Seen(worlds[i]);
      GraceMet(history, h, Key(history[h].tenant, l),
               if params.minAbsentSweeps > 1 then params.minAbsentSweeps else 1)
  {
    InvHolds(params, steps, worlds, i);
    NumberedHolds(params, steps, worlds, i);
    SeenIsSound(worlds[i]);
    GraceOfVisit(Seen(worlds[i]), h, l, params);
  }

  // ------------------------------------------------------------ bounded deletion

  /** In every visit of every run: at most the cap, nothing on an empty listing, and only rows
    * whose table was missing at the live re-check. */
  lemma DeletionIsBounded(params: Params, steps: seq<Step>, worlds: seq<World>, i: nat, h: nat)
    requires IsRun(params, steps, worlds) && i < |worlds| && h < |Seen(worlds[i])|
    ensures var v := Seen(worlds[i])[h];
      && (v.deleted == {} || WithinCap(|v.deleted|, |v.reg|, params))
      && (v.live == {} ==> v.deleted == {})
      && v.deleted <= v.missing <= v.reg - v.live
  {
    InvHolds(params, steps, worlds, i);
    NumberedHolds(params, steps, worlds, i);
    SeenIsSound(worlds[i]);
    var v := Seen(worlds[i])[h];
    assert VisitSound(Seen(worlds[i])[..h], v, params);
    SubsetSize(v.deleted, v.planned);
  }

  function AtLeast(a: real, b: real): real {
    if a >= b then a else b
  }

  function CapOf(v: Visit, p: Params): real {
    AtLeast(0.0, AtLeast(p.capMin as real, p.capRatio * |v.reg| as real))
  }

  function TotalDeleted(history: seq<Visit>, t: Tenant): nat {
    if history == [] then 0
    else
      var v := history[|history| - 1];
      TotalDeleted(history[..|history| - 1], t) + if v.tenant == t then |v.deleted| else 0
  }

  function TotalCap(history: seq<Visit>, t: Tenant, p: Params): real {
    if history == [] then 0.0
    else
      var v := history[|history| - 1];
      TotalCap(history[..|history| - 1], t, p) + if v.tenant == t then CapOf(v, p) else 0.0
  }

  /** The bounds add up over a run. */
  lemma TotalDeletionIsBounded(params: Params, steps: seq<Step>, worlds: seq<World>, i: nat, t: Tenant)
    requires IsRun(params, steps, worlds) && i < |worlds|
    ensures TotalDeleted(Seen(worlds[i]), t) as real <= TotalCap(Seen(worlds[i]), t, params)
  {
    var history := Seen(worlds[i]);
    forall h | 0 <= h < |history| ensures |history[h].deleted| as real <= CapOf(history[h], params) {
      DeletionIsBounded(params, steps, worlds, i, h);
    }
    BoundsAddUp(history, t, params);
  }

  lemma {:induction false} BoundsAddUp(history: seq<Visit>, t: Tenant, p: Params)
    requires forall h :: 0 <= h < |history| ==> |history[h].deleted| as real <= CapOf(history[h], p)
    ensures TotalDeleted(history, t) as real <= TotalCap(history, t, p)
  {
    if history != [] {
      BoundsAddUp(history[..|history| - 1], t, p);
    }
  }

  // ------------------------------------------------------------ what a sweeper step can touch

  predicate SameFor(a: R.State, b: R.State, k: Key) {
    && (k in a.objects <==> k in b.objects) && (k in a.objects ==> a.objects[k] == b.objects[k])
    && (k in a.tombstones <==> k in b.tombstones) && (k in a.tombstones ==> a.tombstones[k] == b.tombstones[k])
    && R.TagsOf(a, k) == R.TagsOf(b, k) && R.ParentsOf(a, k) == R.ParentsOf(b, k)
  }

  /** One call changes what the registry says of one key only. */
  lemma CallTouchesOneKey(t: Tenant, instr: Instr, st: R.State, now: nat, other: Key)
    requires R.Consistent(st) && other != Key(t, instr.l)
    ensures SameFor(st, Effect(t, instr, st, now), other)
  {
    match instr
    case Backfill(_) => R.RecordKeepsConsistent(st, Key(t, instr.l), R.Stub, None, now, other);
    case DeleteRow(_) => R.DeleteKeepsConsistent(st, Key(t, instr.l), other);
    case _ =>
  }

  /** A sweeper step leaves other tenants alone, and a row it removes is one it records as deleted,
    * absent from the listing and missing at the re-check. */
  lemma SweeperStepIsContained(params: Params, steps: seq<Step>, worlds: seq<World>, i: nat, k: Key)
    requires IsRun(params, steps, worlds) && i < |steps| && IsSweeperStep(steps[i])
    ensures var w, w' := worlds[i], worlds[i + 1];
      && w'.tables == w.tables && w'.ops == w.ops
      && (!SameFor(w.reg, w'.reg, k) ==> w.sweeper.Applying? && k.tenant == w.sweeper.visit.tenant)
      && (k in w.reg.objects && k !in w'.reg.objects ==>
            w'.sweeper.Applying? && k.name in w'.sweeper.visit.deleted && k.name !in w'.sweeper.visit.live)
  {
    var w, w' := worlds[i], worlds[i + 1];
    InvHolds(params, steps, worlds, i);
    InvHolds(params, steps, worlds, i + 1);
    assert Steps(w, steps[i], w');
    if steps[i].NextCall? {
      var v, instr := w.sweeper.visit, w.sweeper.queue[0];
      if k != Key(v.tenant, instr.l) {
        CallTouchesOneKey(v.tenant, instr, w.reg, steps[i].now, k);
      }
    }
  }

  // ------------------------------------------------------------ visibility

  /** When a visit completes, every table it listed has a row, unless a client's forget removed
    * that row while the visit was under way. */
  lemma CompletedVisitRegistersWhatItListed(params: Params, steps: seq<Step>, worlds: seq<World>, i: nat, l: Label)
    requires IsRun(params, steps, worlds) && i < |steps| && steps[i] == FinishVisit
    requires worlds[i].sweeper.Applying? && l in worlds[i].sweeper.visit.live
    ensures var k := Key(worlds[i].sweeper.visit.tenant, l);
      k in worlds[i + 1].reg.objects || k in worlds[i + 1].forgotten
  {
    InvHolds(params, steps, worlds, i);
    assert Steps(worlds[i], steps[i], worlds[i + 1]);
  }

  /** From any reachable world, whatever crashed before: one undisturbed describe of a table without
    * a row registers it and changes nothing about any other object. */
  lemma DescribeRestoresVisibility(params: Params, steps: seq<Step>, worlds: seq<World>, i: nat, id: nat, k: Key, now: nat)
    requires IsRun(params, steps, worlds) && i < |worlds|
    requires k in worlds[i].tables && k !in worlds[i].reg.objects && id !in worlds[i].ops
    ensures var w := worlds[i];
      && Enabled(w, LookupMissed(id, k))
      && Enabled(Next(w, LookupMissed(id, k)), RepairChecked(id))
      && Enabled(Next(Next(w, LookupMissed(id, k)), RepairChecked(id)), RowRepaired(id, now))
      && var w' := Next(Next(Next(w, LookupMissed(id, k)), RepairChecked(id)), RowRepaired(id, now));
         && k in w'.reg.objects && w'.reg.objects[k].source == R.Reconciled && w'.tables == w.tables && w'.ops == w.ops
         && forall other :: other != k ==> SameFor(w.reg, w'.reg, other)
  {
    var w := worlds[i];
    InvHolds(params, steps, worlds, i);
    var w' := Next(Next(Next(w, LookupMissed(id, k)), RepairChecked(id)), RowRepaired(id, now));
    assert w'.ops == w.ops;
    forall other | other != k ensures SameFor(w.reg, w'.reg, other) {
      R.RecordKeepsConsistent(w.reg, k, R.Stub, None, now, other);
    }
  }
}
