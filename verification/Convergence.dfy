/** Sweeps of a namespace whose catalog is quiet: when they converge, how fast, and when never. */
module Convergence {
  import opened Common
  import opened Reconciler
  import opened Healing
  import R = Registry

  /** What the registry holds for one tenant, as far as sweeps are concerned. */
  datatype Namespace = Namespace(reg: set<Label>, tombstones: map<Label, nat>)

  function NamespaceOf(st: R.State, t: Tenant): Namespace {
    Namespace(LabelsOf(st, t), TombstonesOf(st, t))
  }

  /** The tables the catalog has for one tenant. */
  function Live(tables: set<Key>, t: Tenant): set<Label> {
    set k | k in tables && k.tenant == t :: k.name
  }

  /** One undisturbed sweep when the catalog lists `live`. */
  function Sweep(live: set<Label>, s: Namespace, p: Params): Namespace {
    var delete := ToDelete(live, s.reg, s.tombstones, p);
    var bump := ToBump(live, s.reg, s.tombstones, p);
    var clear := ToClear(live, s.reg, s.tombstones);
    Namespace(s.reg + live - delete, Raised(s.tombstones - clear, bump) - delete)
  }

  /** The counters of `xs` go up by one; a counter that is not there counts zero. */
  function Raised(tombstones: map<Label, nat>, xs: set<Label>): map<Label, nat> {
    map l | l in tombstones.Keys + xs :: (if l in tombstones then tombstones[l] else 0) + if l in xs then 1 else 0
  }

  function Sweeps(live: set<Label>, s: Namespace, p: Params, n: nat): Namespace {
    if n == 0 then s else Sweep(live, Sweeps(live, s, p, n - 1), p)
  }

  // ------------------------------------------------------------ the calls of a sweep add up to it

  /** The registry once the whole queue has been carried out. */
  function Outcome(t: Tenant, queue: seq<Instr>, tables: set<Key>, st: R.State, now: nat): R.State {
    if queue == [] then st
    else Outcome(t, queue[1..], tables, Settle(t, queue[0], tables, st, now), now)
  }

  /** A call together with the calls it leads to. */
  function Settle(t: Tenant, instr: Instr, tables: set<Key>, st: R.State, now: nat): R.State {
    var k := Key(t, instr.l);
    if !instr.Recheck? then Effect(t, instr, st, now)
    else if k in tables then R.Cleared(st, k)
    else R.Cleared(R.Deleted(st, k), k)
  }

  lemma {:induction false} OutcomeOfConcat(t: Tenant, a: seq<Instr>, b: seq<Instr>, tables: set<Key>, st: R.State, now: nat)
    ensures Outcome(t, a + b, tables, st, now) == Outcome(t, b, tables, Outcome(t, a, tables, st, now), now)
  {
    if a == [] {
      assert a + b == b;
    } else {
      assert (a + b)[0] == a[0] && (a + b)[1..] == a[1..] + b;
      OutcomeOfConcat(t, a[1..], b, tables, Settle(t, a[0], tables, st, now), now);
    }
  }

  /** Carrying out calls one by one does not change where the queue leads. */
  lemma {:induction false} OutcomeIsFixed(t: Tenant, queue: seq<Instr>, tables: set<Key>, st: R.State, now: nat, n: nat)
    ensures var p := Applied(t, queue, tables, st, now, n);
      Outcome(t, p.queue, tables, p.st, now) == Outcome(t, queue, tables, st, now)
  {
    hide Settle, Effect, Follow;
    if n > 0 {
      OutcomeIsFixed(t, queue, tables, st, now, n - 1);
      var p := Applied(t, queue, tables, st, now, n - 1);
      if p.queue != [] {
        var more, rest := Follow(t, p.queue[0], tables), p.queue[1..];
        var st' := Effect(t, p.queue[0], p.st, now);
        OutcomeOfConcat(t, more, rest, tables, st', now);
        FollowSettles(t, p.queue[0], tables, p.st, now);
      }
    }
  }

  lemma FollowSettles(t: Tenant, instr: Instr, tables: set<Key>, st: R.State, now: nat)
    ensures Outcome(t, Follow(t, instr, tables), tables, Effect(t, instr, st, now), now) == Settle(t, instr, tables, st, now)
  {
    var more, st' := Follow(t, instr, tables), Effect(t, instr, st, now);
    if instr.Recheck? {
      var first := Settle(t, more[0], tables, st', now);
      if Key(t, instr.l) in tables {
        assert more[1..] == [];
      } else {
        assert more[1..] == [Clear(instr.l)] && more[1..][1..] == [];
        assert Outcome(t, more[1..], tables, first, now) == Settle(t, Clear(instr.l), tables, first, now);
      }
      assert Outcome(t, more, tables, st', now) == Outcome(t, more[1..], tables, first, now);
    }
  }

  /** Membership in a namespace, entry by entry. */
  lemma NamespaceEntries(st: R.State, t: Tenant)
    ensures forall l :: l in NamespaceOf(st, t).reg <==> Key(t, l) in st.objects
    ensures forall l :: l in NamespaceOf(st, t).tombstones <==> Key(t, l) in st.tombstones
    ensures forall l :: l in NamespaceOf(st, t).tombstones ==> NamespaceOf(st, t).tombstones[l] == st.tombstones[Key(t, l)]
  {
    forall l | Key(t, l) in st.objects ensures l in LabelsOf(st, t) {
      var k := Key(t, l);
      assert k.tenant == t && k.name == l;
    }
  }

  lemma RaisedByNone(tombstones: map<Label, nat>)
    ensures Raised(tombstones, {}) == tombstones
  {
  }

  lemma RaisedInTurn(tombstones: map<Label, nat>, x: Label, xs: set<Label>)
    requires x !in xs
    ensures Raised(Raised(tombstones, {x}), xs) == Raised(tombstones, {x} + xs)
  {
    var one := Raised(tombstones, {x});
    assert one.Keys == tombstones.Keys + {x};
    assert Raised(one, xs).Keys == Raised(tombstones, {x} + xs).Keys;
    forall l | l in Raised(one, xs) ensures Raised(one, xs)[l] == Raised(tombstones, {x} + xs)[l] {
    }
  }

  lemma CallOnNamespace(t: Tenant, instr: Instr, tables: set<Key>, st: R.State, now: nat)
    ensures var s, s', l := NamespaceOf(st, t), NamespaceOf(Settle(t, instr, tables, st, now), t), instr.l;
      match instr
      case Backfill(_) => s' == s.(reg := s.reg + {l})
      case Clear(_) => s' == s.(tombstones := s.tombstones - {l})
      case Bump(_) => s' == s.(tombstones := Raised(s.tombstones, {l}))
      case Recheck(_) => s' == Namespace(if Key(t, l) in tables then s.reg else s.reg - {l}, s.tombstones - {l})
      case DeleteRow(_) => s' == s.(reg := s.reg - {l})
  {
    hide NamespaceOf;
    NamespaceEntries(st, t);
    NamespaceEntries(Settle(t, instr, tables, st, now), t);
  }

  lemma {:induction false} BackfillsOnNamespace(t: Tenant, labels: seq<Label>, tables: set<Key>, st: R.State, now: nat)
    ensures var s := NamespaceOf(st, t);
      NamespaceOf(Outcome(t, Backfills(labels), tables, st, now), t) == s.(reg := s.reg + R.Elements(labels))
  {
    if labels != [] {
      var calls := Backfills(labels);
      assert calls[1..] == Backfills(labels[1..]);
      CallOnNamespace(t, calls[0], tables, st, now);
      BackfillsOnNamespace(t, labels[1..], tables, Settle(t, calls[0], tables, st, now), now);
      FirstElement(labels);
    }
  }

  lemma {:induction false} ClearsOnNamespace(t: Tenant, labels: seq<Label>, tables: set<Key>, st: R.State, now: nat)
    ensures var s := NamespaceOf(st, t);
      NamespaceOf(Outcome(t, Clears(labels), tables, st, now), t) == s.(tombstones := s.tombstones - R.Elements(labels))
  {
    if labels != [] {
      var calls := Clears(labels);
      assert calls[1..] == Clears(labels[1..]);
      CallOnNamespace(t, calls[0], tables, st, now);
      ClearsOnNamespace(t, labels[1..], tables, Settle(t, calls[0], tables, st, now), now);
      FirstElement(labels);
    }
  }

  lemma {:induction false} BumpsOnNamespace(t: Tenant, labels: seq<Label>, tables: set<Key>, st: R.State, now: nat)
    requires NoDuplicates(labels)
    ensures var s := NamespaceOf(st, t);
      NamespaceOf(Outcome(t, Bumps(labels), tables, st, now), t) == s.(tombstones := Raised(s.tombstones, R.Elements(labels)))
  {
    hide NamespaceOf, Settle, Raised;
    var s := NamespaceOf(st, t);
    if labels == [] {
      RaisedByNone(s.tombstones);
      assert R.Elements(labels) == {};
      assert Outcome(t, Bumps(labels), tables, st, now) == st;
    } else {
      var calls := Bumps(labels);
      assert calls[1..] == Bumps(labels[1..]);
      CallOnNamespace(t, calls[0], tables, st, now);
      BumpsOnNamespace(t, labels[1..], tables, Settle(t, calls[0], tables, st, now), now);
      FirstElement(labels);
      assert labels[0] !in R.Elements(labels[1..]);
      RaisedInTurn(s.tombstones, labels[0], R.Elements(labels[1..]));
    }
  }

  /** The labels whose table does not exist. */
  function Missing(t: Tenant, labels: seq<Label>, tables: set<Key>): set<Label> {
    set l | l in labels && Key(t, l) !in tables
  }

  lemma {:induction false} RechecksOnNamespace(t: Tenant, labels: seq<Label>, tables: set<Key>, st: R.State, now: nat)
    ensures var s := NamespaceOf(st, t);
      NamespaceOf(Outcome(t, Rechecks(labels), tables, st, now), t)
      == Namespace(s.reg - Missing(t, labels, tables), s.tombstones - R.Elements(labels))
  {
    hide NamespaceOf, Settle;
    var s := NamespaceOf(st, t);
    if labels == [] {
      assert Missing(t, labels, tables) == {} == R.Elements(labels);
      assert s.tombstones - {} == s.tombstones;
      assert Outcome(t, Rechecks(labels), tables, st, now) == st;
    } else {
      var calls := Rechecks(labels);
      assert calls[1..] == Rechecks(labels[1..]);
      CallOnNamespace(t, calls[0], tables, st, now);
      RechecksOnNamespace(t, labels[1..], tables, Settle(t, calls[0], tables, st, now), now);
      FirstElement(labels);
      FirstMissing(t, labels, tables);
    }
  }

  lemma FirstMissing(t: Tenant, labels: seq<Label>, tables: set<Key>)
    requires labels != []
    ensures Missing(t, labels, tables)
         == (if Key(t, labels[0]) in tables then {} else {labels[0]}) + Missing(t, labels[1..], tables)
  {
    assert labels == [labels[0]] + labels[1..];
  }

  lemma FirstElement(labels: seq<Label>)
    requires labels != []
    ensures R.Elements(labels) == {labels[0]} + R.Elements(labels[1..])
  {
    assert labels == [labels[0]] + labels[1..];
  }

  lemma ProgramOnNamespace(t: Tenant, plan: Plan, tables: set<Key>, st: R.State, now: nat)
    requires NoDuplicates(plan.bump)
    ensures var s := NamespaceOf(st, t);
      NamespaceOf(Outcome(t, Program(plan), tables, st, now), t) ==
      Namespace(s.reg + R.Elements(plan.backfill) - Missing(t, plan.delete, tables),
                Raised(s.tombstones - R.Elements(plan.clear), R.Elements(plan.bump)) - R.Elements(plan.delete))
  {
    var st1 := Outcome(t, Backfills(plan.backfill), tables, st, now);
    var st2 := Outcome(t, Clears(plan.clear), tables, st1, now);
    var st3 := Outcome(t, Bumps(plan.bump), tables, st2, now);
    OutcomeOfConcat(t, Backfills(plan.backfill) + Clears(plan.clear) + Bumps(plan.bump), Rechecks(plan.delete), tables, st, now);
    OutcomeOfConcat(t, Backfills(plan.backfill) + Clears(plan.clear), Bumps(plan.bump), tables, st, now);
    OutcomeOfConcat(t, Backfills(plan.backfill), Clears(plan.clear), tables, st, now);
    hide NamespaceOf, Outcome, Raised;
    BackfillsOnNamespace(t, plan.backfill, tables, st, now);
    ClearsOnNamespace(t, plan.clear, tables, st1, now);
    BumpsOnNamespace(t, plan.bump, tables, st2, now);
    RechecksOnNamespace(t, plan.delete, tables, st3, now);
  }

  /** While the catalog is quiet the calls of a plan lead to one `Sweep` of the namespace; also when the
    * listing failed and reads as empty. */
  lemma PlanLeadsToSweep(t: Tenant, plan: Plan, live: set<Label>, tables: set<Key>, p: Params, st: R.State, now: nat)
    requires live == Live(tables, t) || live == {}
    requires IsPlan(plan, live, LabelsOf(st, t), TombstonesOf(st, t), p)
    ensures NamespaceOf(Outcome(t, Program(plan), tables, st, now), t) == Sweep(live, NamespaceOf(st, t), p)
  {
    hide Outcome, Raised, NamespaceOf, Program, ToDelete, ToBump, ToClear, LabelsOf, TombstonesOf;
    SameNamespace(st, t);
    var s := NamespaceOf(st, t);
    EnumeratesMembers(plan.delete, ToDelete(live, s.reg, s.tombstones, p));
    DeletionIsTimid(live, s.reg, s.tombstones, p);
    forall l | l in plan.delete ensures Key(t, l) !in tables {
      assert l !in live && live != {};
      assert Key(t, l) in tables ==> Key(t, l).name in Live(tables, t);
    }
    ProgramOnNamespace(t, plan, tables, st, now);
    assert Missing(t, plan.delete, tables) == R.Elements(plan.delete);
    assert s.reg + (live - s.reg) == s.reg + live;
  }

  /** A plan that is carried out while the catalog is quiet is one `Sweep` of the namespace. */
  lemma CarriedOutPlanIsSweep(t: Tenant, plan: Plan, live: set<Label>, tables: set<Key>, p: Params,
                              st: R.State, st': R.State, now: nat)
    requires live == Live(tables, t) || live == {}
    requires IsPlan(plan, live, LabelsOf(st, t), TombstonesOf(st, t), p)
    requires Reaches(t, Program(plan), tables, st, now, Progress(st', []))
    ensures NamespaceOf(st', t) == Sweep(live, NamespaceOf(st, t), p)
  {
    hide *;
    EmptiedQueue(t, Program(plan), tables, st, now, st');
    PlanLeadsToSweep(t, plan, live, tables, p, st, now);
  }

  /** Any plan that is carried out, label by label: who has a row afterwards and what its counter says.
    * A row goes only if its table is missing at the re-check, and either way its counter goes. */
  lemma PlanCarriedOut(t: Tenant, plan: Plan, tables: set<Key>, st: R.State, st': R.State, now: nat, l: Label)
    requires NoDuplicates(plan.bump) && Reaches(t, Program(plan), tables, st, now, Progress(st', []))
    ensures var k := Key(t, l);
      && (k in st'.objects <==> (k in st.objects || l in plan.backfill) && !(l in plan.delete && k !in tables))
      && (k in st'.tombstones <==>
            l !in plan.delete && (l in plan.bump || (k in st.tombstones && l !in plan.clear)))
      && (k in st'.tombstones ==>
            st'.tombstones[k] == (if k in st.tombstones && l !in plan.clear then st.tombstones[k] else 0)
                                 + if l in plan.bump then 1 else 0)
  {
    hide Outcome, Reaches, Program, NamespaceOf;
    EmptiedQueue(t, Program(plan), tables, st, now, st');
    ProgramOnNamespace(t, plan, tables, st, now);
    NamespaceEntries(st, t);
    NamespaceEntries(st', t);
    assert l in NamespaceOf(st', t).tombstones <==> Key(t, l) in st'.tombstones;
  }

  lemma EmptiedQueue(t: Tenant, queue: seq<Instr>, tables: set<Key>, st: R.State, now: nat, st': R.State)
    requires Reaches(t, queue, tables, st, now, Progress(st', []))
    ensures st' == Outcome(t, queue, tables, st, now)
  {
    var n: nat :| Applied(t, queue, tables, st, now, n) == Progress(st', []);
    OutcomeIsFixed(t, queue, tables, st, now, n);
  }

  lemma SameNamespace(st: R.State, t: Tenant)
    ensures NamespaceOf(st, t) == Namespace(LabelsOf(st, t), TombstonesOf(st, t))
  {
  }

  /** One undisturbed sweep, label by label, in terms of the listing, the rows and the counters alone. */
  lemma SweepInWords(live: set<Label>, s: Namespace, p: Params, l: Label)
    ensures
      var s' := Sweep(live, s, p);
      var skipped := live == {} && s.reg != {};
      var capped := |s.reg - live| > p.capMin && |s.reg - live| as real > p.capRatio * |s.reg| as real;
      var counted := if l in s.tombstones then s.tombstones[l] else 0;
      if l in s.reg && l !in live && !skipped && !capped then
        if counted + 1 >= p.minAbsentSweeps then l !in s'.reg && l !in s'.tombstones
        else l in s'.reg && l in s'.tombstones && s'.tombstones[l] == counted + 1
      else
        && (l in s'.reg <==> l in s.reg || l in live)
        && (l in s'.tombstones <==> l in s.tombstones && ((l in s.reg) != (l in live) || (skipped && l !in s.reg)))
        && (l in s'.tombstones ==> s'.tombstones[l] == counted)
  {
  }

  /** What the catalog has for a tenant, table by table. */
  lemma LiveInWords(tables: set<Key>, t: Tenant, l: Label)
    ensures l in Live(tables, t) <==> Key(t, l) in tables
  {
    if Key(t, l) in tables {
      var k := Key(t, l);
      assert k.tenant == t && k.name == l;
    }
  }

  // ------------------------------------------------------------ what sweeps converge to

  /** The registry knows exactly the listed tables and no grace period is running. */
  predicate Settled(live: set<Label>, s: Namespace) {
    s.reg == live && s.tombstones == map[]
  }

  /** Sweeps of a quiet namespace will settle: the listing is believed, and once every listed table
    * has a row the absent ones are within the deletion cap. */
  predicate WillSettle(live: set<Label>, s: Namespace, p: Params) {
    !Skips(live, s.reg) && WithinCap(|s.reg - live|, |s.reg + live|, p)
  }

  /** This sweep is neither skipped nor capped. */
  predicate Sweeping(live: set<Label>, s: Namespace, p: Params) {
    !Skips(live, s.reg) && !Caps(live, s.reg, p)
  }

  function Rounds(p: Params): nat {
    if p.minAbsentSweeps > 2 then p.minAbsentSweeps else 2
  }

  // ------------------------------------------------------------ the cap

  /** Removing rows that are absent keeps the absent ones within the cap. */
  lemma CapSurvivesDeletion(absent: nat, rows: nat, deleted: nat, rows': nat, p: Params)
    requires 0.0 <= p.capRatio && deleted <= absent && absent - deleted <= rows' && rows - deleted <= rows'
    requires WithinCap(absent, rows, p)
    ensures WithinCap(absent - deleted, rows', p)
  {
    if absent > p.capMin {
      var a, d := absent as real, deleted as real;
      RatioSurvivesDeletion(p.capRatio, a, d, rows as real, rows' as real);
      assert (absent - deleted) as real == a - d;
    }
  }

  lemma RatioSurvivesDeletion(r: real, a: real, d: real, x: real, y: real)
    requires 0.0 <= r && 0.0 <= d <= a && a - d <= y && x - d <= y && a <= r * x
    ensures a - d <= r * y
  {
    if r <= 1.0 {
      ShrinkTogether(r, a, d, x);
      Ordered(r, x - d, y);
    } else {
      Scaled(1.0, y, r);
      assert 1.0 * y == y;
    }
  }

  /** Below a ratio of at most one, taking the same amount from both sides keeps the bound. */
  lemma ShrinkTogether(r: real, a: real, d: real, x: real)
    requires r <= 1.0 && 0.0 <= d && a <= r * x
    ensures a - d <= r * (x - d)
  {
    Scaled(r, d, 1.0);
    assert r * (x - d) == r * x - r * d;
  }

  lemma Scaled(a: real, x: real, b: real)
    requires a <= b && 0.0 <= x
    ensures a * x <= b * x
  {
    assert (b - a) * x >= 0.0;
    assert (b - a) * x == b * x - a * x;
  }

  lemma Ordered(r: real, x: real, y: real)
    requires 0.0 <= r && x <= y
    ensures r * x <= r * y
  {
    assert r * (y - x) >= 0.0;
    assert r * (y - x) == r * y - r * x;
  }

  lemma CapIsMonotone(absent: nat, rows: nat, rows': nat, p: Params)
    requires 0.0 <= p.capRatio && rows <= rows' && WithinCap(absent, rows, p)
    ensures WithinCap(absent, rows', p)
  {
    Ordered(p.capRatio, rows as real, rows' as real);
  }

  /** Once a sweep is neither skipped nor capped, the next one is not either. */
  lemma SweepingGoesOn(live: set<Label>, s: Namespace, p: Params)
    requires 0.0 <= p.capRatio && Sweeping(live, s, p)
    ensures Sweeping(live, Sweep(live, s, p), p)
  {
    var delete, s' := ToDelete(live, s.reg, s.tombstones, p), Sweep(live, s, p);
    assert delete <= s.reg - live;
    var absent := s.reg - live;
    assert s'.reg - live == absent - delete;
    SubsetSize(delete, absent);
    SizeOfDifference(absent, delete);
    SizeOfDifference(s.reg, delete);
    SubsetSize(s.reg - delete, s'.reg);
    SubsetSize(s'.reg - live, s'.reg);
    CapSurvivesDeletion(|absent|, |s.reg|, |delete|, |s'.reg|, p);
  }

  lemma SizeOfDifference<T>(a: set<T>, b: set<T>)
    requires b <= a
    ensures |a - b| == |a| - |b|
  {
    assert a == (a - b) + b;
  }

  lemma {:induction false} NoLaterSweepIsCapped(live: set<Label>, s: Namespace, p: Params, n: nat)
    requires 0.0 <= p.capRatio && Sweeping(live, s, p)
    ensures Sweeping(live, Sweeps(live, s, p, n), p)
  {
    hide Sweep, Sweeping;
    if n > 0 {
      NoLaterSweepIsCapped(live, s, p, n - 1);
      SweepingGoesOn(live, Sweeps(live, s, p, n - 1), p);
    }
  }

  // ------------------------------------------------------------ progress

  /** The measure: after `n` sweeps every absent row that is left has been counted `n` times, and
    * after two sweeps only absent rows have tombstones. */
  ghost predicate Counted(live: set<Label>, s: Namespace, n: nat) {
    && (n >= 1 ==> live <= s.reg)
    && (forall l :: l in s.reg - live && n >= 1 ==> l in s.tombstones && s.tombstones[l] >= n)
    && (n >= 2 ==> s.tombstones.Keys <= s.reg - live)
  }

  lemma SweepCounts(live: set<Label>, s: Namespace, p: Params, n: nat)
    requires Sweeping(live, s, p) && Counted(live, s, n)
    ensures Counted(live, Sweep(live, s, p), n + 1)
    ensures n + 1 >= p.minAbsentSweeps ==> Sweep(live, s, p).reg == live
  {
    var delete, bump, clear := ToDelete(live, s.reg, s.tombstones, p), ToBump(live, s.reg, s.tombstones, p),
                               ToClear(live, s.reg, s.tombstones);
    var s' := Sweep(live, s, p);
    forall l | l in s'.reg - live ensures l in bump && l in s'.tombstones && s'.tombstones[l] >= n + 1 {
      assert l in s.reg - live && l !in delete;
    }
    if n + 1 >= p.minAbsentSweeps {
      forall l | l in s.reg - live ensures l in delete {
        assert n >= 1 ==> s.tombstones[l] >= n;
      }
    }
    if n + 1 >= 2 {
      forall l | l in s'.tombstones ensures l in s'.reg - live {
        assert l in bump || (l in s.tombstones && l !in clear && l !in delete);
        assert l in bump || l in s.reg - live;
      }
    }
  }

  lemma NothingCounted(live: set<Label>, s: Namespace)
    ensures Counted(live, s, 0)
  {
  }

  lemma {:induction false} SweepsCount(live: set<Label>, s: Namespace, p: Params, n: nat)
    requires 0.0 <= p.capRatio && Sweeping(live, s, p)
    ensures Counted(live, Sweeps(live, s, p, n), n)
    ensures n >= 1 && n >= p.minAbsentSweeps ==> Sweeps(live, s, p, n).reg == live
  {
    NothingCounted(live, s);
    hide Sweep, Sweeping, Counted;
    if n > 0 {
      SweepsCount(live, s, p, n - 1);
      NoLaterSweepIsCapped(live, s, p, n - 1);
      SweepCounts(live, Sweeps(live, s, p, n - 1), p, n - 1);
    }
  }

  /** From a sweep that is neither skipped nor capped, max(2, minAbsentSweeps) sweeps settle the
    * namespace, and it stays settled. */
  lemma SweepingSettles(live: set<Label>, s: Namespace, p: Params, n: nat)
    requires 0.0 <= p.capRatio && Sweeping(live, s, p) && n >= Rounds(p)
    ensures Settled(live, Sweeps(live, s, p, n))
  {
    SweepsCount(live, s, p, n);
    var s' := Sweeps(live, s, p, n);
    assert s'.tombstones.Keys <= s'.reg - live == {};
  }

  /** A settled namespace has nothing left to plan. */
  lemma SettledPlanIsEmpty(live: set<Label>, s: Namespace, p: Params, plan: Plan)
    requires Settled(live, s) && 0.0 <= p.capRatio && IsPlan(plan, live, s.reg, s.tombstones, p)
    ensures plan == Plan([], [], [], [], false, false)
  {
    hide Enumerates, ToDelete, ToBump, ToClear, Skips, Caps;
    NothingToPlan(live, s, p);
    NothingListed(plan.backfill, live - s.reg);
    NothingListed(plan.delete, ToDelete(live, s.reg, s.tombstones, p));
    NothingListed(plan.bump, ToBump(live, s.reg, s.tombstones, p));
    NothingListed(plan.clear, ToClear(live, s.reg, s.tombstones));
  }

  lemma NothingToPlan(live: set<Label>, s: Namespace, p: Params)
    requires Settled(live, s) && 0.0 <= p.capRatio
    ensures live - s.reg == {} && ToDelete(live, s.reg, s.tombstones, p) == {} == ToBump(live, s.reg, s.tombstones, p)
    ensures ToClear(live, s.reg, s.tombstones) == {} && !Skips(live, s.reg) && !Caps(live, s.reg, p)
  {
    var absent := s.reg - live;
    assert absent == {};
    Ordered(p.capRatio, 0.0, |s.reg| as real);
    assert WithinCap(|absent|, |s.reg|, p);
  }

  lemma NothingListed(labels: seq<Label>, xs: set<Label>)
    requires Enumerates(labels, xs) && xs == {}
    ensures labels == []
  {
    R.NoElements(labels);
  }

  // ------------------------------------------------------------ and when they never settle

  /** Two sweeps in a row that were capped are capped forever; a skipped one is skipped forever. */
  lemma {:induction false} StuckForever(live: set<Label>, s: Namespace, p: Params, n: nat)
    requires Skips(live, s.reg) || (live <= s.reg && Caps(live, s.reg, p))
    ensures Sweeps(live, s, p, n).reg == s.reg
  {
    hide Sweep, Skips, Caps;
    if n > 0 {
      StuckForever(live, s, p, n - 1);
      StuckOnce(live, Sweeps(live, s, p, n - 1), p);
    }
  }

  lemma StuckOnce(live: set<Label>, s: Namespace, p: Params)
    requires Skips(live, s.reg) || (live <= s.reg && Caps(live, s.reg, p))
    ensures Sweep(live, s, p).reg == s.reg
  {
    assert s.reg + live == s.reg;
  }

  lemma {:induction false} SweepsAfterOne(live: set<Label>, s: Namespace, p: Params, n: nat)
    ensures Sweeps(live, s, p, n + 1) == Sweeps(live, Sweep(live, s, p), p, n)
  {
    hide Sweep;
    if n > 0 {
      SweepsAfterOne(live, s, p, n - 1);
    }
  }

  /** A capped sweep only adds the missing rows. */
  lemma CappedSweep(live: set<Label>, s: Namespace, p: Params)
    requires Caps(live, s.reg, p)
    ensures Sweep(live, s, p).reg == s.reg + live
    ensures (s.reg + live) - live == s.reg - live
  {
  }

  lemma TwiceCappedIsStuck(live: set<Label>, s: Namespace, p: Params, n: nat)
    requires Caps(live, s.reg, p) && Caps(live, Sweep(live, s, p).reg, p)
    ensures Caps(live, Sweeps(live, s, p, n).reg, p)
  {
    hide Sweep, Caps;
    CappedSweep(live, s, p);
    if n > 0 {
      SweepsAfterOne(live, s, p, n - 1);
      StuckForever(live, Sweep(live, s, p), p, n - 1);
    }
  }

  /** Convergence, decided from the start: a quiet namespace ever settles exactly when the listing
    * is believed and the absent rows are within the cap of all rows and listed tables together;
    * and then it is settled from sweep max(2, minAbsentSweeps) + 1 on. */
  lemma Convergence(live: set<Label>, s: Namespace, p: Params)
    requires 0.0 <= p.capRatio
    ensures WillSettle(live, s, p) <==>
      exists n :: n >= 1 && Settled(live, Sweeps(live, s, p, n))
    ensures WillSettle(live, s, p) ==> forall n :: n >= Rounds(p) + 1 ==> Settled(live, Sweeps(live, s, p, n))
  {
    hide Sweep, Settled, WithinCap, Caps;
    if WillSettle(live, s, p) {
      forall n | n >= Rounds(p) + 1 ensures Settled(live, Sweeps(live, s, p, n)) {
        if Sweeping(live, s, p) {
          SweepingSettles(live, s, p, n);
        } else {
          CappedOnceThenSweeping(live, s, p);
          SweepsAfterOne(live, s, p, n - 1);
          SweepingSettles(live, Sweep(live, s, p), p, n - 1);
        }
      }
      assert Settled(live, Sweeps(live, s, p, Rounds(p) + 1));
    } else {
      forall n | n >= 1 ensures !Settled(live, Sweeps(live, s, p, n)) {
        NeverSettles(live, s, p, n);
        NotSettled(live, Sweeps(live, s, p, n));
      }
    }
  }

  /** The same in terms of sizes alone: after max(2, minAbsentSweeps) + 1 sweeps the registry knows exactly
    * the listed tables and counts nothing if and only if the listing was not suspiciously empty and the
    * absent rows were no more than the cap minimum, or no more than the cap ratio of rows and tables. */
  lemma SettlesExactly(live: set<Label>, s: Namespace, p: Params, n: nat)
    requires 0.0 <= p.capRatio && n >= 3 && n > p.minAbsentSweeps
    ensures
      var s', absent, all := Sweeps(live, s, p, n), s.reg - live, s.reg + live;
      (s'.reg == live && s'.tombstones == map[]
       <==> (live != {} || s.reg == {}) && (|absent| <= p.capMin || |absent| as real <= p.capRatio * |all| as real))
  {
    WillSettleInWords(live, s, p);
    hide Sweep, Sweeps, WillSettle, WithinCap;
    if WillSettle(live, s, p) {
      Convergence(live, s, p);
      assert Settled(live, Sweeps(live, s, p, n));
    } else {
      NeverSettles(live, s, p, n);
    }
  }

  lemma WillSettleInWords(live: set<Label>, s: Namespace, p: Params)
    ensures var absent, all := s.reg - live, s.reg + live;
      WillSettle(live, s, p)
      <==> (live != {} || s.reg == {}) && (|absent| <= p.capMin || |absent| as real <= p.capRatio * |all| as real)
  {
  }

  lemma NotSettled(live: set<Label>, s: Namespace)
    requires s.reg != live
    ensures !Settled(live, s)
  {
  }

  lemma CappedOnceThenSweeping(live: set<Label>, s: Namespace, p: Params)
    requires WillSettle(live, s, p) && !Sweeping(live, s, p)
    ensures Sweeping(live, Sweep(live, s, p), p)
  {
    CappedSweep(live, s, p);
    hide Sweep, WithinCap;
  }

  lemma NeverSettles(live: set<Label>, s: Namespace, p: Params, n: nat)
    requires 0.0 <= p.capRatio && !WillSettle(live, s, p) && n >= 1
    ensures Sweeps(live, s, p, n).reg != live
  {
    hide Sweep, Sweeps;
    if Skips(live, s.reg) {
      StuckForever(live, s, p, n);
    } else {
      OverTheCapForGood(live, s, p);
      CappedSweep(live, s, p);
      SweepsAfterOne(live, s, p, n - 1);
      StuckForever(live, Sweep(live, s, p), p, n - 1);
    }
  }

  lemma OverTheCapForGood(live: set<Label>, s: Namespace, p: Params)
    requires 0.0 <= p.capRatio && !WillSettle(live, s, p) && !Skips(live, s.reg)
    ensures Caps(live, s.reg, p) && Caps(live, s.reg + live, p) && s.reg + live != live
  {
    var absent, all := s.reg - live, s.reg + live;
    assert all - live == absent;
    SubsetSize(s.reg, all);
    if WithinCap(|absent|, |s.reg|, p) {
      CapIsMonotone(|absent|, |s.reg|, |all|, p);
    }
    Ordered(p.capRatio, 0.0, |all| as real);
    assert |absent| != 0;
  }

  /** Two sweeps can be needed even without a grace period: a listed table whose row is missing but
    * whose tombstone is pending is backfilled by the first sweep and cleared only by the second. */
  lemma OneSweepIsNotEnough(l: Label, p: Params)
    requires 0.0 <= p.capRatio
    ensures var s := Namespace({}, map[l := 1]);
      && Sweeping({l}, s, p)
      && !Settled({l}, Sweeps({l}, s, p, 1)) && Settled({l}, Sweeps({l}, s, p, Rounds(p)))
  {
    var s := Namespace({}, map[l := 1]);
    var absent: set<Label> := s.reg - {l};
    assert absent == {};
    assert WithinCap(|absent|, |s.reg|, p);
    SweepingSettles({l}, s, p, Rounds(p));
    assert Sweeps({l}, s, p, 0) == s;
    assert Sweeps({l}, s, p, 1) == Sweep({l}, s, p);
    assert l in Sweep({l}, s, p).tombstones;
  }
}
