/** Convergence inside the transition system: a stretch of a run in which only the sweeper acts. */
module QuietRuns {
  import opened Common
  import opened Reconciler
  import opened Healing
  import opened HealingRuns
  import opened Convergence
  import opened ReconcileSweep
  import R = Registry

  predicate Visiting(w: World, t: Tenant) {
    Current(w.sweeper) == [t]
  }

  /** A step of the sweeper that neither lists the tenant's namespace wrongly nor breaks off its visit. */
  predicate Undisturbed(w: World, s: Step, t: Tenant) {
    && IsSweeperStep(s)
    && (s.ListNamespace? && w.sweeper.Between? && w.sweeper.todo != [] && w.sweeper.todo[0] == t ==>
          s.live == Live(w.tables, t))
    && (s.FailVisit? || s.SweeperDies? ==> !Visiting(w, t))
  }

  ghost predicate Quiet(steps: seq<Step>, worlds: seq<World>, a: nat, b: nat, t: Tenant)
    requires a <= b <= |steps| < |worlds|
  {
    forall i :: a <= i < b ==> Undisturbed(worlds[i], steps[i], t)
  }

  /** The visits of the tenant's namespace that were completed from step `a` up to step `b`. */
  function Completed(steps: seq<Step>, worlds: seq<World>, a: nat, b: nat, t: Tenant): nat
    requires a <= b <= |steps| < |worlds|
  {
    if a == b then 0
    else Completed(steps, worlds, a, b - 1, t) + if steps[b - 1].FinishVisit? && Visiting(worlds[b - 1], t) then 1 else 0
  }

  /** With the calls that are queued carried out, the registry has gone as far as the sweeps say. */
  predicate OnCourse(w: World, t: Tenant, live: set<Label>, s: Namespace) {
    match w.sweeper
    case Listed(_, _, u, listed) => NamespaceOf(w.reg, t) == s && (u == t ==> listed == live)
    case Counted(_, _, u, listed, reg) => NamespaceOf(w.reg, t) == s && (u == t ==> listed == live && reg == s.reg)
    case Applying(_, _, v, queue) =>
      if v.tenant == t then NamespaceOf(Outcome(t, queue, w.tables, w.reg, 0), t) == Sweep(live, s, w.params)
      else NamespaceOf(w.reg, t) == s
    case _ => NamespaceOf(w.reg, t) == s
  }

  // ------------------------------------------------------------ calls at different times

  /** What a call makes of a namespace depends on the namespace only, not on when it is made. */
  lemma SettleOnNamespace(t: Tenant, instr: Instr, tables: set<Key>, st: R.State, st': R.State, now: nat, now': nat)
    requires NamespaceOf(st, t) == NamespaceOf(st', t)
    ensures NamespaceOf(Settle(t, instr, tables, st, now), t) == NamespaceOf(Settle(t, instr, tables, st', now'), t)
  {
    var call := if instr.Recheck? && Key(t, instr.l) in tables then Clear(instr.l) else instr;
    assert Settle(t, instr, tables, st, now) == Settle(t, call, tables, st, now);
    assert Settle(t, instr, tables, st', now') == Settle(t, call, tables, st', now');
    hide Settle, NamespaceOf, Raised;
    CallOnNamespace(t, call, tables, st, now);
    CallOnNamespace(t, call, tables, st', now');
  }

  lemma {:induction false} OutcomeOnNamespace(t: Tenant, queue: seq<Instr>, tables: set<Key>, st: R.State, st': R.State,
                                              now: nat, now': nat)
    requires NamespaceOf(st, t) == NamespaceOf(st', t)
    ensures NamespaceOf(Outcome(t, queue, tables, st, now), t) == NamespaceOf(Outcome(t, queue, tables, st', now'), t)
  {
    hide Settle, NamespaceOf;
    if queue != [] {
      SettleOnNamespace(t, queue[0], tables, st, st', now, now');
      OutcomeOnNamespace(t, queue[1..], tables, Settle(t, queue[0], tables, st, now),
                         Settle(t, queue[0], tables, st', now'), now, now');
    }
  }

  lemma EffectOnNamespace(t: Tenant, instr: Instr, st: R.State, now: nat, now': nat)
    ensures NamespaceOf(Effect(t, instr, st, now), t) == NamespaceOf(Effect(t, instr, st, now'), t)
  {
    if !instr.Recheck? {
      SettleOnNamespace(t, instr, {}, st, st, now, now');
    }
  }

  /** A call at any time keeps the queue on course. */
  lemma CallKeepsOutcome(t: Tenant, queue: seq<Instr>, tables: set<Key>, st: R.State, now: nat)
    requires queue != []
    ensures NamespaceOf(Outcome(t, Follow(t, queue[0], tables) + queue[1..], tables, Effect(t, queue[0], st, now), 0), t)
         == NamespaceOf(Outcome(t, queue, tables, st, 0), t)
  {
    hide NamespaceOf, Effect, Follow, Settle;
    var more, rest := Follow(t, queue[0], tables), queue[1..];
    var here, there := Effect(t, queue[0], st, now), Effect(t, queue[0], st, 0);
    EffectOnNamespace(t, queue[0], st, now, 0);
    OutcomeOnNamespace(t, more + rest, tables, here, there, 0, 0);
    OutcomeOfConcat(t, more, rest, tables, there, 0);
    FollowSettles(t, queue[0], tables, st, 0);
  }

  // ------------------------------------------------------------ steps stay on course

  lemma OtherCallKeepsNamespace(w: World, now: nat, t: Tenant)
    requires R.Consistent(w.reg) && Enabled(w, NextCall(now)) && w.sweeper.visit.tenant != t
    ensures NamespaceOf(Called(w, now).reg, t) == NamespaceOf(w.reg, t)
  {
    hide NamespaceOf, R.Consistent, SameFor;
    forall k: Key | k.tenant == t ensures SameFor(w.reg, Called(w, now).reg, k) {
      CallTouchesOneKey(w.sweeper.visit.tenant, w.sweeper.queue[0], w.reg, now, k);
    }
    SameNamespaceFor(w.reg, Called(w, now).reg, t);
  }

  lemma CallStaysOnCourse(w: World, now: nat, t: Tenant, live: set<Label>, s: Namespace)
    requires R.Consistent(w.reg) && Enabled(w, NextCall(now)) && OnCourse(w, t, live, s)
    ensures OnCourse(Next(w, NextCall(now)), t, live, s)
  {
    hide NamespaceOf, Sweep, Outcome, Effect, Follow, R.Consistent;
    if w.sweeper.visit.tenant == t {
      CallKeepsOutcome(t, w.sweeper.queue, w.tables, w.reg, now);
    } else {
      OtherCallKeepsNamespace(w, now, t);
    }
  }

  lemma PlanStaysOnCourse(w: World, plan: Plan, t: Tenant, live: set<Label>, s: Namespace)
    requires Enabled(w, MakePlan(plan)) && OnCourse(w, t, live, s) && live == Live(w.tables, t)
    ensures OnCourse(Next(w, MakePlan(plan)), t, live, s)
  {
    hide Sweep, Outcome, Program, IsPlan, Live, ToDelete;
    if w.sweeper.tenant == t {
      SameNamespace(w.reg, t);
      hide NamespaceOf, LabelsOf, TombstonesOf;
      PlanLeadsToSweep(t, plan, live, w.tables, w.params, w.reg, 0);
    }
  }

  lemma StepStaysOnCourse(w: World, step: Step, t: Tenant, live: set<Label>, s: Namespace)
    requires R.Consistent(w.reg) && Enabled(w, step) && Undisturbed(w, step, t)
    requires OnCourse(w, t, live, s) && live == Live(w.tables, t)
    ensures var w' := Next(w, step);
      && w'.tables == w.tables && w'.params == w.params
      && OnCourse(w', t, live, if step.FinishVisit? && Visiting(w, t) then Sweep(live, s, w.params) else s)
  {
    hide Sweep, R.Consistent, Live, ToDelete, Program, IsPlan;
    match step
    case MakePlan(plan) => PlanStaysOnCourse(w, plan, t, live, s);
    case NextCall(now) => CallStaysOnCourse(w, now, t, live, s);
    case ReadRows => SameNamespace(w.reg, t);
    case _ =>
  }

  lemma {:induction false} StaysOnCourse(params: Params, steps: seq<Step>, worlds: seq<World>, a: nat, b: nat, t: Tenant)
    requires IsRun(params, steps, worlds) && a <= b < |worlds|
    requires !Visiting(worlds[a], t) && Quiet(steps, worlds, a, b, t)
    ensures var live, s := Live(worlds[a].tables, t), NamespaceOf(worlds[a].reg, t);
      && worlds[b].tables == worlds[a].tables && worlds[b].params == params
      && OnCourse(worlds[b], t, live, Sweeps(live, s, params, Completed(steps, worlds, a, b, t)))
  {
    hide Inv, Sweep, NamespaceOf, Live, Undisturbed, Enabled;
    InvHolds(params, steps, worlds, b);
    if a < b {
      StaysOnCourse(params, steps, worlds, a, b - 1, t);
      InvHolds(params, steps, worlds, b - 1);
      InvIsConsistent(worlds[b - 1]);
      var live, s := Live(worlds[a].tables, t), NamespaceOf(worlds[a].reg, t);
      assert Steps(worlds[b - 1], steps[b - 1], worlds[b]);
      hide OnCourse;
      StepStaysOnCourse(worlds[b - 1], steps[b - 1], t, live, Sweeps(live, s, params, Completed(steps, worlds, a, b - 1, t)));
    }
  }

  lemma InvIsConsistent(w: World)
    requires Inv(w)
    ensures R.Consistent(w.reg)
  {
  }

  /** Convergence of the protocol itself. In any run, take a stretch in which only the sweeper acts, one
    * call at a time and interleaved with its visits to other namespaces, in which the tenant's namespace
    * is listed truly and no visit to it fails. After `n` completed visits the namespace is where `n`
    * sweeps take it; so it is settled from visit max(2, minAbsentSweeps) + 1 on if it ever settles. */
  lemma QuietRunSettles(params: Params, steps: seq<Step>, worlds: seq<World>, a: nat, b: nat, t: Tenant)
    requires 0.0 <= params.capRatio
    requires IsRun(params, steps, worlds) && a <= b < |worlds|
    requires !Visiting(worlds[a], t) && !Visiting(worlds[b], t) && Quiet(steps, worlds, a, b, t)
    ensures
      var live, s, n := Live(worlds[a].tables, t), NamespaceOf(worlds[a].reg, t), Completed(steps, worlds, a, b, t);
      && NamespaceOf(worlds[b].reg, t) == Sweeps(live, s, params, n)
      && (n >= Rounds(params) + 1 ==> (Settled(live, NamespaceOf(worlds[b].reg, t)) <==> WillSettle(live, s, params)))
  {
    var live, s, n := Live(worlds[a].tables, t), NamespaceOf(worlds[a].reg, t), Completed(steps, worlds, a, b, t);
    StaysOnCourse(params, steps, worlds, a, b, t);
    hide Settled, WillSettle, Sweeps, Live, NamespaceOf;
    Convergence.Convergence(live, s, params);
  }
}
