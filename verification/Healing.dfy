/** The self-healing protocol as a transition system.
  *
  * Two stores change in separate steps: the catalog (which tables exist) and the registry.
  * Clients write, forget and describe; each of their operations is cut where a crash can leave
  * it. One sweeper at a time walks the namespaces; between any two of its store calls any client
  * step may happen, and it may fail on a namespace or die at any point.
  */
module Healing {
  import opened Common
  import opened Reconciler
  import R = Registry

  /** A client operation between its two store updates. */
  datatype Op =
    | Recording(k: Key, entry: R.Entry, parents: Option<seq<Label>>)  // data committed, registry write is next
    | Forgetting(k: Key)       // table dropped, row delete is next
    | LookedUp(k: Key)         // describe found no row, asking for the table is next
    | Repairing(k: Key)        // describe found the table, writing the stub is next

  /** One namespace of one sweep: what the sweeper saw and did there. */
  datatype Visit = Visit(sweep: nat, tenant: Tenant, live: set<Label>, reg: set<Label>, planned: set<Label>,
                         bumped: set<Label>, missing: set<Label>, deleted: set<Label>, completed: bool)

  datatype Sweeper =
    | Asleep
    | Between(all: seq<Tenant>, todo: seq<Tenant>)
    | Listed(all: seq<Tenant>, todo: seq<Tenant>, tenant: Tenant, live: set<Label>)
    | Counted(all: seq<Tenant>, todo: seq<Tenant>, tenant: Tenant, live: set<Label>, reg: set<Label>)
    | Applying(all: seq<Tenant>, todo: seq<Tenant>, visit: Visit, queue: seq<Instr>)

  datatype World = World(
    params: Params,
    tables: set<Key>,
    reg: R.State,
    ops: map<nat, Op>,
    sweeper: Sweeper,
    sweeps: nat,               // sweeps started so far
    history: seq<Visit>,       // finished and failed visits, oldest first
    forgotten: set<Key>        // rows clients deleted since the sweeper last read the rows
  )

  function Initial(params: Params): World {
    World(params, {}, R.Empty, map[], Asleep, 0, [], {})
  }

  function LabelsOf(st: R.State, t: Tenant): set<Label> {
    set k | k in st.objects && k.tenant == t :: k.name
  }

  function TombstonesOf(st: R.State, t: Tenant): map<Label, nat> {
    map k | k in st.tombstones && k.tenant == t :: k.name := st.tombstones[k]
  }

  // ------------------------------------------------------------ steps

  datatype Step =
    | DataCommitted(id: nat, k: Key, entry: R.Entry, parents: Option<seq<Label>>)
    | RegistryWritten(id: nat, now: nat)
    | OpLost(id: nat)                         // a crash, or a registry write that was swallowed
    | TableDropped(id: nat, k: Key)
    | RowForgotten(id: nat)
    | LookupMissed(id: nat, k: Key)
    | RepairChecked(id: nat)
    | RowRepaired(id: nat, now: nat)
    | WakeUp(namespaces: seq<Tenant>)
    | ListNamespace(live: set<Label>)         // whatever the catalog answers; nothing if it failed
    | ReadRows
    | MakePlan(plan: Plan)
    | NextCall(now: nat)
    | FinishVisit
    | FailVisit
    | SweeperDies
    | EndSweep

  predicate IsSweeperStep(s: Step) {
    s.WakeUp? || s.ListNamespace? || s.ReadRows? || s.MakePlan? || s.NextCall? || s.FinishVisit? || s.FailVisit?
    || s.SweeperDies? || s.EndSweep?
  }

  ghost predicate Enabled(w: World, s: Step) {
    match s
    case DataCommitted(id, _, _, _) => id !in w.ops
    case RegistryWritten(id, _) => id in w.ops && w.ops[id].Recording?
    case OpLost(id) => id in w.ops
    case TableDropped(id, k) => id !in w.ops && k in w.tables
    case RowForgotten(id) => id in w.ops && w.ops[id].Forgetting?
    case LookupMissed(id, k) => id !in w.ops && k !in w.reg.objects
    case RepairChecked(id) => id in w.ops && w.ops[id].LookedUp?
    case RowRepaired(id, _) => id in w.ops && w.ops[id].Repairing?
    case WakeUp(namespaces) => w.sweeper.Asleep? && NoDuplicates(namespaces)
    case ListNamespace(_) => w.sweeper.Between? && w.sweeper.todo != []
    case ReadRows => w.sweeper.Listed?
    case MakePlan(plan) => w.sweeper.Counted? &&
      IsPlan(plan, w.sweeper.live, w.sweeper.reg, TombstonesOf(w.reg, w.sweeper.tenant), w.params)
    case NextCall(_) => w.sweeper.Applying? && w.sweeper.queue != []
    case FinishVisit => w.sweeper.Applying? && w.sweeper.queue == []
    case FailVisit => w.sweeper.Listed? || w.sweeper.Counted? || w.sweeper.Applying?
    case SweeperDies => !w.sweeper.Asleep?
    case EndSweep => w.sweeper.Between? && w.sweeper.todo == []
  }

  function Finished(ops: map<nat, Op>, id: nat): map<nat, Op> {
    ops - {id}
  }

  /** The record of the visit in progress, if the sweeper is on a namespace. */
  function Record(w: World): seq<Visit> {
    match w.sweeper
    case Listed(_, _, t, _) => [Visit(w.sweeps, t, {}, {}, {}, {}, {}, {}, false)]
    case Counted(_, _, t, _, _) => [Visit(w.sweeps, t, {}, {}, {}, {}, {}, {}, false)]
    case Applying(_, _, v, _) => [v]
    case _ => []
  }

  /** One store call of the sweeper. */
  function Called(w: World, now: nat): World
    requires w.sweeper.Applying? && w.sweeper.queue != []
  {
    var v, instr := w.sweeper.visit, w.sweeper.queue[0];
    var gone := instr.Recheck? && Key(v.tenant, instr.l) !in w.tables;
    var v' := v.(bumped := v.bumped + (if instr.Bump? then {instr.l} else {}),
                 missing := v.missing + (if gone then {instr.l} else {}),
                 deleted := v.deleted + (if instr.DeleteRow? then {instr.l} else {}));
    w.(reg := Effect(v.tenant, instr, w.reg, now),
       sweeper := w.sweeper.(visit := v', queue := Follow(v.tenant, instr, w.tables) + w.sweeper.queue[1..]))
  }

  ghost function Next(w: World, s: Step): World
    requires Enabled(w, s)
  {
    match s
    case DataCommitted(id, k, entry, parents) =>
      w.(tables := w.tables + {k}, ops := w.ops[id := Recording(k, entry, parents)])
    case RegistryWritten(id, now) =>
      var op := w.ops[id];
      w.(reg := R.Recorded(w.reg, op.k, op.entry, op.parents, now), ops := Finished(w.ops, id))
    case OpLost(id) => w.(ops := Finished(w.ops, id))
    case TableDropped(id, k) => w.(tables := w.tables - {k}, ops := w.ops[id := Forgetting(k)])
    case RowForgotten(id) =>
      var k := w.ops[id].k;
      w.(reg := R.Deleted(w.reg, k), ops := Finished(w.ops, id), forgotten := w.forgotten + {k})
    case LookupMissed(id, k) => w.(ops := w.ops[id := LookedUp(k)])
    case RepairChecked(id) =>
      var k := w.ops[id].k;
      w.(ops := if k in w.tables then w.ops[id := Repairing(k)] else Finished(w.ops, id))
    case RowRepaired(id, now) =>
      w.(reg := R.Recorded(w.reg, w.ops[id].k, R.Stub, None, now), ops := Finished(w.ops, id))
    case WakeUp(namespaces) => w.(sweeper := Between(namespaces, namespaces), sweeps := w.sweeps + 1)
    case ListNamespace(live) =>
      w.(sweeper := Listed(w.sweeper.all, w.sweeper.todo[1..], w.sweeper.todo[0], live))
    case ReadRows =>
      var z := w.sweeper;
      w.(sweeper := Counted(z.all, z.todo, z.tenant, z.live, LabelsOf(w.reg, z.tenant)), forgotten := {})
    case MakePlan(plan) =>
      var z := w.sweeper;
      var planned := ToDelete(z.live, z.reg, TombstonesOf(w.reg, z.tenant), w.params);
      w.(sweeper := Applying(z.all, z.todo, Visit(w.sweeps, z.tenant, z.live, z.reg, planned, {}, {}, {}, false),
                             Program(plan)))
    case NextCall(now) => Called(w, now)
    case FinishVisit =>
      w.(history := w.history + [w.sweeper.visit.(completed := true)], sweeper := Between(w.sweeper.all, w.sweeper.todo))
    case FailVisit => w.(history := w.history + Record(w), sweeper := Between(w.sweeper.all, w.sweeper.todo))
    case SweeperDies => w.(history := w.history + Record(w), sweeper := Asleep)
    case EndSweep => w.(sweeper := Asleep)
  }

  /** A run: from the initial world, every step enabled when it was taken. */
  ghost predicate IsRun(params: Params, steps: seq<Step>, worlds: seq<World>) {
    && |worlds| == |steps| + 1
    && worlds[0] == Initial(params)
    && forall i :: 0 <= i < |steps| ==> Steps(worlds[i], steps[i], worlds[i + 1])
  }

  ghost predicate Steps(w: World, s: Step, w': World) {
    Enabled(w, s) && w' == Next(w, s)
  }

  // ------------------------------------------------------------ what a visit saw

  predicate SawAbsent(v: Visit, k: Key) {
    v.tenant == k.tenant && k.name in v.reg && k.name !in v.live
  }

  /** A completed visit that saw the row registered and its table listed. */
  predicate SawBack(v: Visit, k: Key) {
    v.completed && v.tenant == k.tenant && k.name in v.reg && k.name in v.live
  }

  /** Visits that saw the row absent since one last saw it back. */
  function Streak(history: seq<Visit>, k: Key): nat {
    if history == [] then 0
    else
      var v := history[|history| - 1];
      if SawBack(v, k) then 0
      else Streak(history[..|history| - 1], k) + if SawAbsent(v, k) then 1 else 0
  }

  // ------------------------------------------------------------ invariants

  /** What a visit may do, given the visits before it. */
  ghost predicate VisitSound(history: seq<Visit>, v: Visit, p: Params) {
    && v.bumped <= v.reg - v.live
    && v.planned <= v.reg - v.live
    && v.deleted <= v.missing <= v.planned
    && (v.live == {} ==> v.planned == {})
    && (v.planned == {} || WithinCap(|v.planned|, |v.reg|, p))
    && forall l :: l in v.planned ==> Streak(history, Key(v.tenant, l)) + 1 >= p.minAbsentSweeps
  }

  ghost predicate HistorySound(history: seq<Visit>, p: Params) {
    forall i :: 0 <= i < |history| ==> VisitSound(history[..i], history[i], p)
  }

  predicate BumpedNow(w: World, k: Key) {
    w.sweeper.Applying? && w.sweeper.visit.tenant == k.tenant && k.name in w.sweeper.visit.bumped
  }

  /** A tombstone never counts more absences than were seen. */
  ghost predicate CountersSound(w: World) {
    forall k :: k in w.reg.tombstones ==>
      w.reg.tombstones[k] <= Streak(w.history, k) + if BumpedNow(w, k) then 1 else 0
  }

  /** The calls still queued are ones the plan allows. */
  ghost predicate QueueSound(w: World) {
    w.sweeper.Applying? ==>
      var v, queue := w.sweeper.visit, w.sweeper.queue;
      && VisitSound(w.history, v, w.params) && !v.completed && v.sweep == w.sweeps
      && (forall i :: 0 <= i < |queue| ==> CallSound(v, queue[i]))
      && BumpsOnce(queue)
      && (forall l :: l in v.reg * v.live && Key(v.tenant, l) in w.reg.tombstones ==> Clear(l) in queue)
  }

  predicate CallSound(v: Visit, instr: Instr) {
    match instr
    case Backfill(l) => l in v.live - v.reg
    case Bump(l) => l in v.reg - v.live && l !in v.bumped
    case Recheck(l) => l in v.planned
    case DeleteRow(l) => l in v.missing
    case Clear(_) => true
  }

  ghost predicate BumpsOnce(queue: seq<Instr>) {
    forall i, j :: 0 <= i < j < |queue| && queue[i].Bump? && queue[j].Bump? ==> queue[i].l != queue[j].l
  }

  /** Every listed label has a row, or is about to get one, or was forgotten meanwhile. */
  ghost predicate ListedAreRegistered(w: World) {
    match w.sweeper
    case Counted(_, _, t, _, reg) =>
      forall l :: l in reg ==> Key(t, l) in w.reg.objects || Key(t, l) in w.forgotten
    case Applying(_, _, v, queue) =>
      forall l :: l in v.live ==>
        Key(v.tenant, l) in w.reg.objects || Key(v.tenant, l) in w.forgotten || Backfill(l) in queue
    case _ => true
  }

  ghost predicate Inv(w: World) {
    R.Consistent(w.reg) && HistorySound(w.history, w.params) && CountersSound(w) && QueueSound(w) && ListedAreRegistered(w)
  }

  // ------------------------------------------------------------ steps keep the invariant

  lemma ClientStepKeepsInv(w: World, s: Step)
    requires Inv(w) && Enabled(w, s) && !IsSweeperStep(s)
    ensures Inv(Next(w, s))
  {
    match s
    case RegistryWritten(id, now) =>
      R.RecordKeepsConsistent(w.reg, w.ops[id].k, w.ops[id].entry, w.ops[id].parents, now, w.ops[id].k);
    case RowRepaired(id, now) =>
      R.RecordKeepsConsistent(w.reg, w.ops[id].k, R.Stub, None, now, w.ops[id].k);
    case RowForgotten(id) =>
      R.DeleteKeepsConsistent(w.reg, w.ops[id].k, w.ops[id].k);
    case _ =>
  }

  lemma HistoryGrows(history: seq<Visit>, v: Visit, p: Params)
    requires HistorySound(history, p) && VisitSound(history, v, p)
    ensures HistorySound(history + [v], p)
  {
    var h := history + [v];
    forall i | 0 <= i < |h| ensures VisitSound(h[..i], h[i], p) {
      if i < |history| {
        assert h[..i] == history[..i];
      } else {
        assert h[..i] == history;
      }
    }
  }

  lemma StreakGrows(history: seq<Visit>, v: Visit, k: Key)
    ensures Streak(history + [v], k) == if SawBack(v, k) then 0 else Streak(history, k) + if SawAbsent(v, k) then 1 else 0
  {
    assert (history + [v])[..|history|] == history;
  }

  /** A visit that completes leaves no tombstone on a row it saw back. */
  lemma FinishVisitKeepsInv(w: World)
    requires Inv(w) && Enabled(w, FinishVisit)
    ensures Inv(Next(w, FinishVisit))
    ensures forall k :: SawBack(w.sweeper.visit.(completed := true), k) ==> k !in Next(w, FinishVisit).reg.tombstones
  {
    var v := w.sweeper.visit.(completed := true);
    HistoryGrows(w.history, v, w.params);
    forall k | k in w.reg.tombstones ensures w.reg.tombstones[k] <= Streak(w.history + [v], k) {
      StreakGrows(w.history, v, k);
    }
    forall k | SawBack(v, k) ensures k !in w.reg.tombstones {
      assert k == Key(v.tenant, k.name) && k.name in v.reg * v.live;
    }
  }

  lemma AbandonedVisitKeepsInv(w: World, s: Step)
    requires Inv(w) && Enabled(w, s) && (s.FailVisit? || s.SweeperDies?)
    ensures Inv(Next(w, s))
  {
    if Record(w) == [] {
      assert w.history + Record(w) == w.history;
    } else {
      var v := Record(w)[0];
      assert Record(w) == [v];
      HistoryGrows(w.history, v, w.params);
      forall k | k in w.reg.tombstones ensures w.reg.tombstones[k] <= Streak(w.history + [v], k) {
        StreakGrows(w.history, v, k);
      }
    }
  }

  lemma ProgramCalls(plan: Plan)
    ensures forall l :: Backfill(l) in Program(plan) <==> l in plan.backfill
    ensures forall l :: l in plan.clear ==> Clear(l) in Program(plan)
    ensures forall instr :: instr in Program(plan) ==>
      match instr
      case Backfill(l) => l in plan.backfill
      case Clear(l) => l in plan.clear
      case Bump(l) => l in plan.bump
      case Recheck(l) => l in plan.delete
      case DeleteRow(_) => false
    ensures NoDuplicates(plan.bump) ==> BumpsOnce(Program(plan))
  {
    var a := Backfills(plan.backfill);
    var b := Clears(plan.clear);
    var c := Bumps(plan.bump);
    var d := Rechecks(plan.delete);
    var all := Program(plan);
    assert all == a + b + c + d;
    forall l | l in plan.backfill ensures Backfill(l) in all {
      var i :| 0 <= i < |plan.backfill| && plan.backfill[i] == l;
      assert a[i] == Backfill(l) && all[i] == a[i];
    }
    forall l | l in plan.clear ensures Clear(l) in all {
      var i :| 0 <= i < |plan.clear| && plan.clear[i] == l;
      assert b[i] == Clear(l) && all[|a| + i] == b[i];
    }
    forall i | 0 <= i < |all| && all[i].Bump?
      ensures |a| + |b| <= i < |a| + |b| + |c| && all[i] == c[i - |a| - |b|]
    {
    }
  }

  /** A fresh plan deletes only rows whose grace is over. */
  lemma PlannedVisitIsSound(w: World, plan: Plan)
    requires Inv(w) && Enabled(w, MakePlan(plan))
    ensures VisitSound(w.history, Next(w, MakePlan(plan)).sweeper.visit, w.params)
  {
    var z := w.sweeper;
    var v := Next(w, MakePlan(plan)).sweeper.visit;
    var tombs := TombstonesOf(w.reg, z.tenant);
    hide WithinCap, Streak;
    DeletionIsTimid(z.live, z.reg, tombs, w.params);
    forall l | l in v.planned ensures Streak(w.history, Key(z.tenant, l)) + 1 >= w.params.minAbsentSweeps {
      assert Due(l, tombs, w.params);
      assert l in tombs ==> Key(z.tenant, l) in w.reg.tombstones;
    }
  }

  lemma PlannedQueueIsSound(w: World, plan: Plan)
    requires Inv(w) && Enabled(w, MakePlan(plan))
    ensures QueueSound(Next(w, MakePlan(plan))) && ListedAreRegistered(Next(w, MakePlan(plan)))
  {
    PlannedVisitIsSound(w, plan);
    var z, w' := w.sweeper, Next(w, MakePlan(plan));
    var v, tombs := w'.sweeper.visit, TombstonesOf(w.reg, z.tenant);
    hide VisitSound, Streak, Program, HistorySound, R.Consistent;
    ProgramCalls(plan);
    EnumeratesMembers(plan.backfill, z.live - z.reg);
    EnumeratesMembers(plan.bump, ToBump(z.live, z.reg, tombs, w.params));
    EnumeratesMembers(plan.delete, v.planned);
    EnumeratesMembers(plan.clear, ToClear(z.live, z.reg, tombs));
    var queue := w'.sweeper.queue;
    forall i | 0 <= i < |queue| ensures CallSound(v, queue[i]) {
      assert queue[i] in Program(plan);
    }
    forall l | l in v.reg * v.live && Key(v.tenant, l) in w.reg.tombstones ensures Clear(l) in queue {
      assert l in tombs;
    }
  }

  lemma MakePlanKeepsInv(w: World, plan: Plan)
    requires Inv(w) && Enabled(w, MakePlan(plan))
    ensures Inv(Next(w, MakePlan(plan)))
  {
    PlannedQueueIsSound(w, plan);
    hide QueueSound, ListedAreRegistered, Program, IsPlan, ToDelete;
  }

  lemma CallKeepsCounters(w: World, now: nat)
    requires Inv(w) && Enabled(w, NextCall(now))
    ensures CountersSound(Called(w, now))
  {
    assert CallSound(w.sweeper.visit, w.sweeper.queue[0]);
    hide VisitSound, HistorySound, BumpsOnce, Streak, R.Consistent;
  }

  lemma CallKeepsQueue(w: World, now: nat)
    requires Inv(w) && Enabled(w, NextCall(now))
    ensures QueueSound(Called(w, now))
  {
    var w' := Called(w, now);
    var v, queue, instr := w.sweeper.visit, w.sweeper.queue, w.sweeper.queue[0];
    var v', queue', more := w'.sweeper.visit, w'.sweeper.queue, Follow(v.tenant, instr, w.tables);
    assert CallSound(v, instr);
    hide HistorySound, Streak, R.Consistent, WithinCap, CountersSound, ListedAreRegistered;
    assert VisitSound(w.history, v', w.params);
    forall i | 0 <= i < |queue'| ensures CallSound(v', queue'[i]) {
      if i >= |more| {
        assert queue'[i] == queue[i - |more| + 1];
        assert CallSound(v, queue'[i]);
      }
    }
    assert BumpsOnce(queue') by {
      assert forall i :: |more| <= i < |queue'| ==> queue'[i] == queue[i - |more| + 1];
    }
    CallKeepsClears(w, now);
  }

  /** Until its tombstone is cleared, a row seen back has its clear call queued. */
  lemma CallKeepsClears(w: World, now: nat)
    requires Inv(w) && Enabled(w, NextCall(now))
    ensures var w' := Called(w, now);
      forall l :: l in w.sweeper.visit.reg * w.sweeper.visit.live && Key(w.sweeper.visit.tenant, l) in w'.reg.tombstones
        ==> Clear(l) in w'.sweeper.queue
  {
    var w' := Called(w, now);
    var v, queue, instr := w.sweeper.visit, w.sweeper.queue, w.sweeper.queue[0];
    assert CallSound(v, instr);
    hide HistorySound, Streak, R.Consistent, WithinCap, CountersSound, ListedAreRegistered, BumpsOnce;
    forall l | l in v.reg * v.live && Key(v.tenant, l) in w'.reg.tombstones ensures Clear(l) in w'.sweeper.queue {
      assert Key(v.tenant, l) in w.reg.tombstones;
      assert Clear(l) in queue && Clear(l) != instr;
      assert Clear(l) in queue[1..];
    }
  }

  lemma CallKeepsListed(w: World, now: nat)
    requires Inv(w) && Enabled(w, NextCall(now))
    ensures ListedAreRegistered(Called(w, now))
  {
    var w' := Called(w, now);
    var v, queue, instr := w.sweeper.visit, w.sweeper.queue, w.sweeper.queue[0];
    assert CallSound(v, instr);
    assert v.missing <= v.reg - v.live;
    hide VisitSound, HistorySound, Streak, R.Consistent, CountersSound, BumpsOnce;
    forall l | l in v.live
      ensures Key(v.tenant, l) in w'.reg.objects || Key(v.tenant, l) in w'.forgotten || Backfill(l) in w'.sweeper.queue
    {
      if Backfill(l) in queue && Backfill(l) != instr {
        assert Backfill(l) in queue[1..];
      }
    }
  }

  lemma NextCallKeepsInv(w: World, now: nat)
    requires Inv(w) && Enabled(w, NextCall(now))
    ensures Inv(Next(w, NextCall(now)))
  {
    var v, instr := w.sweeper.visit, w.sweeper.queue[0];
    var k := Key(v.tenant, instr.l);
    CallKeepsCounters(w, now);
    CallKeepsQueue(w, now);
    CallKeepsListed(w, now);
    hide QueueSound, ListedAreRegistered, CountersSound, HistorySound;
    match instr
    case Backfill(_) => R.RecordKeepsConsistent(w.reg, k, R.Stub, None, now, k);
    case DeleteRow(_) => R.DeleteKeepsConsistent(w.reg, k, k);
    case _ =>
  }

  lemma StepKeepsInv(w: World, s: Step)
    requires Inv(w) && Enabled(w, s)
    ensures Inv(Next(w, s))
  {
    if !IsSweeperStep(s) {
      ClientStepKeepsInv(w, s);
    } else {
      match s
      case MakePlan(plan) => MakePlanKeepsInv(w, plan);
      case NextCall(now) => NextCallKeepsInv(w, now);
      case FinishVisit => FinishVisitKeepsInv(w);
      case FailVisit => AbandonedVisitKeepsInv(w, s);
      case SweeperDies => AbandonedVisitKeepsInv(w, s);
      case _ =>
    }
  }

  lemma {:induction false} InvHolds(params: Params, steps: seq<Step>, worlds: seq<World>, i: nat)
    requires IsRun(params, steps, worlds) && i < |worlds|
    ensures Inv(worlds[i]) && worlds[i].params == params
  {
    if i > 0 {
      InvHolds(params, steps, worlds, i - 1);
      assert Steps(worlds[i - 1], steps[i - 1], worlds[i]);
      StepKeepsInv(worlds[i - 1], steps[i - 1]);
    }
  }
}
