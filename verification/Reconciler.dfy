/** One namespace of a sweep: the plan made from a snapshot, and the store calls that carry it out.
  *
  * The calls are a queue of instructions. `Applied` runs the queue one call at a time, so that
  * `Healing` can interleave other work between any two calls; `ApplyPlan` is the loop that
  * issues them.
  */
module Reconciler {
  import opened Common
  import R = Registry
  import C = Catalog

  datatype Params = Params(minAbsentSweeps: int, capRatio: real, capMin: int)

  datatype Plan = Plan(backfill: seq<Label>, delete: seq<Label>, bump: seq<Label>, clear: seq<Label>,
                       skipped: bool, capped: bool)

  // ------------------------------------------------------------ planning

  /** The registry has rows but the catalog listed nothing: the listing is not believed. */
  predicate Skips(live: set<Label>, reg: set<Label>) {
    reg != {} && live == {}
  }

  predicate WithinCap(n: nat, rows: nat, p: Params) {
    n <= p.capMin || n as real <= p.capRatio * rows as real
  }

  /** The deletion cap stops this sweep. */
  predicate Caps(live: set<Label>, reg: set<Label>, p: Params) {
    !Skips(live, reg) && !WithinCap(|reg - live|, |reg|, p)
  }

  predicate Due(l: Label, tombstones: map<Label, nat>, p: Params) {
    (if l in tombstones then tombstones[l] else 0) + 1 >= p.minAbsentSweeps
  }

  /** Rows this sweep will try to delete: absent past their grace, in a sweep that may delete. */
  function ToDelete(live: set<Label>, reg: set<Label>, tombstones: map<Label, nat>, p: Params): set<Label> {
    if Skips(live, reg) || Caps(live, reg, p) then {} else set l | l in reg - live && Due(l, tombstones, p)
  }

  function ToBump(live: set<Label>, reg: set<Label>, tombstones: map<Label, nat>, p: Params): set<Label> {
    if Skips(live, reg) || Caps(live, reg, p) then {} else set l | l in reg - live && !Due(l, tombstones, p)
  }

  /** Tombstones of rows that are back; and orphans, unless the listing is not believed. */
  function ToClear(live: set<Label>, reg: set<Label>, tombstones: map<Label, nat>): set<Label> {
    if Skips(live, reg) then reg * live * tombstones.Keys
    else reg * live * tombstones.Keys + (tombstones.Keys - reg - live)
  }

  ghost predicate IsPlan(plan: Plan, live: set<Label>, reg: set<Label>, tombstones: map<Label, nat>, p: Params) {
    && Enumerates(plan.backfill, live - reg)
    && Enumerates(plan.delete, ToDelete(live, reg, tombstones, p))
    && Enumerates(plan.bump, ToBump(live, reg, tombstones, p))
    && Enumerates(plan.clear, ToClear(live, reg, tombstones))
    && plan.skipped == Skips(live, reg)
    && plan.capped == Caps(live, reg, p)
  }

  /** What a plan says, label by label. */
  ghost predicate PlansFor(plan: Plan, live: set<Label>, reg: set<Label>, tombstones: map<Label, nat>, p: Params, l: Label) {
    var absences := if l in tombstones then tombstones[l] + 1 else 1;
    var deleting := !plan.skipped && !plan.capped && l in reg && l !in live;
    && (l in plan.backfill <==> l in live && l !in reg)
    && (l in plan.delete <==> deleting && absences >= p.minAbsentSweeps)
    && (l in plan.bump <==> deleting && absences < p.minAbsentSweeps)
    && (l in plan.clear <==> l in tombstones && ((l in reg && l in live) || (l !in reg && l !in live && !plan.skipped)))
  }

  method PlanNamespace(live: set<Label>, reg: set<Label>, tombstones: map<Label, nat>, p: Params) returns (plan: Plan)
    ensures IsPlan(plan, live, reg, tombstones, p)
    ensures plan.skipped <==> live == {} && exists l :: l in reg
    ensures plan.capped <==>
      !plan.skipped && |reg - live| > p.capMin && |reg - live| as real > p.capRatio * |reg| as real
    ensures forall l :: PlansFor(plan, live, reg, tombstones, p, l)
    ensures NoDuplicates(plan.backfill) && NoDuplicates(plan.delete) && NoDuplicates(plan.bump) && NoDuplicates(plan.clear)
  {
    hide Enumerates, NoDuplicates, PlansFor, Due, IsPlan, ToDelete, ToBump, ToClear;
    var backfill := ListElements(live - reg);
    var absent := reg - live;
    var reappeared := reg * live * tombstones.Keys;
    var orphaned := tombstones.Keys - reg - live;
    if reg != {} && live == {} {
      var clear := ListElements(reappeared);
      plan := Plan(backfill, [], [], clear, true, false);
      UndeletingPlan(plan, live, reg, tombstones, p);
      PlanInWords(plan, live, reg, tombstones, p);
      return;
    }
    var clear := ListElements(reappeared + orphaned);
    if |absent| > p.capMin && |absent| as real > p.capRatio * |reg| as real {
      plan := Plan(backfill, [], [], clear, false, true);
      UndeletingPlan(plan, live, reg, tombstones, p);
      PlanInWords(plan, live, reg, tombstones, p);
      return;
    }
    var labels := ListElements(absent);
    ListedElements(labels, absent);
    var delete, bump := SplitByGrace(labels, tombstones, p);
    plan := Plan(backfill, delete, bump, clear, false, false);
    DeletingPlan(plan, live, reg, tombstones, p, labels);
    PlanInWords(plan, live, reg, tombstones, p);
  }

  /** A plan in terms of the listing, the rows, the counters and the parameters alone. */
  lemma PlanInWords(plan: Plan, live: set<Label>, reg: set<Label>, tombstones: map<Label, nat>, p: Params)
    requires IsPlan(plan, live, reg, tombstones, p)
    ensures plan.skipped <==> live == {} && exists l :: l in reg
    ensures plan.capped <==>
      !plan.skipped && |reg - live| > p.capMin && |reg - live| as real > p.capRatio * |reg| as real
    ensures forall l :: PlansFor(plan, live, reg, tombstones, p, l)
    ensures NoDuplicates(plan.backfill) && NoDuplicates(plan.delete) && NoDuplicates(plan.bump) && NoDuplicates(plan.clear)
  {
    FlagsInWords(live, reg, p);
    ListsInWords(plan, live, reg, tombstones, p);
    hide Skips, Caps, ToDelete, ToBump, ToClear, Enumerates, NoDuplicates, PlansFor;
  }

  lemma FlagsInWords(live: set<Label>, reg: set<Label>, p: Params)
    ensures Skips(live, reg) <==> live == {} && exists l :: l in reg
    ensures Caps(live, reg, p) <==>
      !Skips(live, reg) && |reg - live| > p.capMin && |reg - live| as real > p.capRatio * |reg| as real
  {
  }

  lemma ListsInWords(plan: Plan, live: set<Label>, reg: set<Label>, tombstones: map<Label, nat>, p: Params)
    requires IsPlan(plan, live, reg, tombstones, p)
    ensures forall l :: PlansFor(plan, live, reg, tombstones, p, l)
    ensures NoDuplicates(plan.backfill) && NoDuplicates(plan.delete) && NoDuplicates(plan.bump) && NoDuplicates(plan.clear)
  {
    hide Skips, Caps;
    EnumeratesMembers(plan.backfill, live - reg);
    EnumeratesMembers(plan.delete, ToDelete(live, reg, tombstones, p));
    EnumeratesMembers(plan.bump, ToBump(live, reg, tombstones, p));
    EnumeratesMembers(plan.clear, ToClear(live, reg, tombstones));
    EnumeratesOnce(plan.backfill, live - reg);
    EnumeratesOnce(plan.delete, ToDelete(live, reg, tombstones, p));
    EnumeratesOnce(plan.bump, ToBump(live, reg, tombstones, p));
    EnumeratesOnce(plan.clear, ToClear(live, reg, tombstones));
    hide Enumerates, NoDuplicates;
  }

  lemma UndeletingPlan(plan: Plan, live: set<Label>, reg: set<Label>, tombstones: map<Label, nat>, p: Params)
    requires Skips(live, reg) || Caps(live, reg, p)
    requires Enumerates(plan.backfill, live - reg) && plan.delete == [] == plan.bump
    requires Enumerates(plan.clear, if Skips(live, reg) then reg * live * tombstones.Keys
                                    else reg * live * tombstones.Keys + (tombstones.Keys - reg - live))
    requires plan.skipped == Skips(live, reg) && plan.capped == Caps(live, reg, p)
    ensures IsPlan(plan, live, reg, tombstones, p)
  {
    NothingToEnumerate();
    hide Enumerates;
  }

  lemma DeletingPlan(plan: Plan, live: set<Label>, reg: set<Label>, tombstones: map<Label, nat>, p: Params, labels: seq<Label>)
    requires !Skips(live, reg) && !Caps(live, reg, p) && !plan.skipped && !plan.capped
    requires forall l :: l in labels <==> l in reg - live
    requires Enumerates(plan.backfill, live - reg)
    requires Enumerates(plan.clear, reg * live * tombstones.Keys + (tombstones.Keys - reg - live))
    requires Enumerates(plan.delete, Eligible(labels, tombstones, p, true))
    requires Enumerates(plan.bump, Eligible(labels, tombstones, p, false))
    ensures IsPlan(plan, live, reg, tombstones, p)
  {
    hide Enumerates, Due;
    assert Eligible(labels, tombstones, p, true) == ToDelete(live, reg, tombstones, p);
    assert Eligible(labels, tombstones, p, false) == ToBump(live, reg, tombstones, p);
  }

  /** The labels whose grace is over, or those whose grace is not. */
  function Eligible(labels: seq<Label>, tombstones: map<Label, nat>, p: Params, due: bool): set<Label> {
    set l | l in labels && Due(l, tombstones, p) == due
  }

  method SplitByGrace(labels: seq<Label>, tombstones: map<Label, nat>, p: Params) returns (delete: seq<Label>, bump: seq<Label>)
    requires NoDuplicates(labels)
    ensures Enumerates(delete, Eligible(labels, tombstones, p, true))
    ensures Enumerates(bump, Eligible(labels, tombstones, p, false))
  {
    hide Enumerates;
    delete, bump := [], [];
    NothingToEnumerate();
    assert forall due :: Eligible(labels[..0], tombstones, p, due) == {};
    var i := 0;
    while i < |labels|
      invariant 0 <= i <= |labels|
      invariant Enumerates(delete, Eligible(labels[..i], tombstones, p, true))
      invariant Enumerates(bump, Eligible(labels[..i], tombstones, p, false))
    {
      var l := labels[i];
      assert labels[..i + 1] == labels[..i] + [l];
      assert l !in labels[..i];
      ghost var due := Due(l, tombstones, p);
      assert Eligible(labels[..i + 1], tombstones, p, due) == Eligible(labels[..i], tombstones, p, due) + {l};
      assert Eligible(labels[..i + 1], tombstones, p, !due) == Eligible(labels[..i], tombstones, p, !due);
      if (if l in tombstones then tombstones[l] else 0) + 1 >= p.minAbsentSweeps {
        EnumerateOneMore(delete, Eligible(labels[..i], tombstones, p, true), l);
        delete := delete + [l];
      } else {
        EnumerateOneMore(bump, Eligible(labels[..i], tombstones, p, false), l);
        bump := bump + [l];
      }
      i := i + 1;
    }
    assert labels[..i] == labels;
  }

  lemma ListedElements(labels: seq<Label>, xs: set<Label>)
    requires Enumerates(labels, xs)
    ensures NoDuplicates(labels) && forall l :: l in labels <==> l in xs
  {
    EnumeratesMembers(labels, xs);
  }

  lemma NothingToEnumerate()
    ensures Enumerates<Label>([], {})
  {
  }

  /** Whatever was listed: nothing is deleted on an empty listing, and otherwise no more than the
    * cap minimum or the cap ratio of the rows, whichever is larger. */
  lemma DeletionIsTimid(live: set<Label>, reg: set<Label>, tombstones: map<Label, nat>, p: Params)
    ensures var delete := ToDelete(live, reg, tombstones, p);
      && delete <= reg - live
      && (live == {} ==> delete == {})
      && (delete == {} || WithinCap(|delete|, |reg|, p))
  {
    var delete := ToDelete(live, reg, tombstones, p);
    assert delete <= reg - live;
    SubsetSize(delete, reg - live);
    if delete != {} && |delete| > p.capMin {
      assert |delete| as real <= |reg - live| as real <= p.capRatio * |reg| as real;
    }
  }

  lemma {:induction false} SubsetSize<T>(a: set<T>, b: set<T>)
    requires a <= b
    ensures |a| <= |b|
  {
    if a != {} {
      var x :| x in a;
      SubsetSize(a - {x}, b - {x});
    }
  }

  // ------------------------------------------------------------ store calls

  /** One call on the registry or the catalog. */
  datatype Instr =
    | Backfill(l: Label)
    | Clear(l: Label)
    | Bump(l: Label)
    | Recheck(l: Label)       // does the table exist now?
    | DeleteRow(l: Label)

  function Backfills(labels: seq<Label>): seq<Instr> {
    seq(|labels|, i requires 0 <= i < |labels| => Backfill(labels[i]))
  }

  function Clears(labels: seq<Label>): seq<Instr> {
    seq(|labels|, i requires 0 <= i < |labels| => Clear(labels[i]))
  }

  function Bumps(labels: seq<Label>): seq<Instr> {
    seq(|labels|, i requires 0 <= i < |labels| => Bump(labels[i]))
  }

  function Rechecks(labels: seq<Label>): seq<Instr> {
    seq(|labels|, i requires 0 <= i < |labels| => Recheck(labels[i]))
  }

  function Program(plan: Plan): seq<Instr> {
    Backfills(plan.backfill) + Clears(plan.clear) + Bumps(plan.bump) + Rechecks(plan.delete)
  }

  /** What a call does to the registry. */
  function Effect(t: Tenant, instr: Instr, st: R.State, now: nat): R.State {
    var k := Key(t, instr.l);
    match instr
    case Backfill(_) => R.Recorded(st, k, R.Stub, None, now)
    case Clear(_) => R.Cleared(st, k)
    case Bump(_) => R.Bumped(st, k)
    case Recheck(_) => st
    case DeleteRow(_) => R.Deleted(st, k)
  }

  /** The calls a re-check leads to: a table that is back is spared. */
  function Follow(t: Tenant, instr: Instr, tables: set<Key>): seq<Instr> {
    if instr.Recheck? then
      if Key(t, instr.l) in tables then [Clear(instr.l)] else [DeleteRow(instr.l), Clear(instr.l)]
    else []
  }

  datatype Progress = Progress(st: R.State, queue: seq<Instr>)

  /** The queue after `n` calls, when nothing else happens in between. */
  function Applied(t: Tenant, queue: seq<Instr>, tables: set<Key>, st: R.State, now: nat, n: nat): Progress {
    if n == 0 then Progress(st, queue)
    else
      var p := Applied(t, queue, tables, st, now, n - 1);
      if p.queue == [] then p
      else Progress(Effect(t, p.queue[0], p.st, now), Follow(t, p.queue[0], tables) + p.queue[1..])
  }

  ghost predicate Reaches(t: Tenant, queue: seq<Instr>, tables: set<Key>, st: R.State, now: nat, p: Progress) {
    exists n: nat :: Applied(t, queue, tables, st, now, n) == p
  }

  lemma OneMoreCall(t: Tenant, queue: seq<Instr>, tables: set<Key>, st: R.State, now: nat, p: Progress)
    requires Reaches(t, queue, tables, st, now, p) && p.queue != []
    ensures Reaches(t, queue, tables, st, now,
                    Progress(Effect(t, p.queue[0], p.st, now), Follow(t, p.queue[0], tables) + p.queue[1..]))
  {
    var n: nat :| Applied(t, queue, tables, st, now, n) == p;
    assert Applied(t, queue, tables, st, now, n + 1)
        == Progress(Effect(t, p.queue[0], p.st, now), Follow(t, p.queue[0], tables) + p.queue[1..]);
  }

  /** Issues one call. */
  method Call(reg: R.Store, t: Tenant, instr: Instr, now: nat) returns (ok: bool)
    requires !instr.Recheck?
    modifies reg
    ensures reg.View() == if ok then Effect(t, instr, old(reg.View()), now) else old(reg.View())
    ensures old(reg.failAfter) == None ==> ok && reg.failAfter == None
  {
    var k := Key(t, instr.l);
    match instr
    case Backfill(_) => ok := reg.RecordObject(k, R.Stub, now);
    case Clear(_) => ok := reg.ClearTombstone(k);
    case Bump(_) => ok := reg.BumpTombstone(k);
    case DeleteRow(_) => ok := reg.DeleteObject(k);
  }

  /** Issues the calls of one list of the plan, in order, until one fails. */
  method CallEach(reg: R.Store, t: Tenant, instrs: seq<Instr>, now: nat,
                  ghost queue: seq<Instr>, ghost tables: set<Key>, ghost start: R.State, ghost rest: seq<Instr>)
    returns (ok: bool)
    requires forall i :: i in instrs ==> !i.Recheck?
    requires Reaches(t, queue, tables, start, now, Progress(reg.View(), instrs + rest))
    modifies reg
    ensures ok ==> Reaches(t, queue, tables, start, now, Progress(reg.View(), rest))
    ensures !ok ==> exists left :: Reaches(t, queue, tables, start, now, Progress(reg.View(), left))
    ensures old(reg.failAfter) == None ==> ok && reg.failAfter == None
  {
    ok := true;
    var i := 0;
    assert instrs[0..] == instrs;
    while i < |instrs|
      invariant 0 <= i <= |instrs| && ok
      invariant Reaches(t, queue, tables, start, now, Progress(reg.View(), instrs[i..] + rest))
      invariant old(reg.failAfter) == None ==> reg.failAfter == None
    {
      ghost var p := Progress(reg.View(), instrs[i..] + rest);
      OneMoreCall(t, queue, tables, start, now, p);
      assert p.queue[0] == instrs[i] && p.queue[1..] == instrs[i + 1..] + rest;
      assert Follow(t, instrs[i], tables) + p.queue[1..] == instrs[i + 1..] + rest;
      ok := Call(reg, t, instrs[i], now);
      if !ok {
        return;
      }
      i := i + 1;
    }
    assert instrs[i..] + rest == rest;
  }

  /** The delete list: each label is looked for once more, and its row goes if it is still missing. */
  method DeleteEach(cat: C.Store, reg: R.Store, t: Tenant, labels: seq<Label>, now: nat,
                    ghost queue: seq<Instr>, ghost tables: set<Key>, ghost start: R.State)
    returns (ok: bool, deleted: seq<Label>)
    requires tables == cat.tables.Keys
    requires Reaches(t, queue, tables, start, now, Progress(reg.View(), Rechecks(labels)))
    modifies reg
    ensures ok ==> Reaches(t, queue, tables, start, now, Progress(reg.View(), []))
    ensures !ok ==> exists left :: Reaches(t, queue, tables, start, now, Progress(reg.View(), left))
    ensures forall l :: l in deleted ==> l in labels && Key(t, l) !in tables
    ensures ok ==> forall l :: l in labels ==> (l in deleted <==> Key(t, l) !in tables)
    ensures old(reg.failAfter) == None ==> ok && reg.failAfter == None
  {
    hide Reaches;
    deleted, ok := [], true;
    assert labels[0..] == labels;
    var i := 0;
    while i < |labels|
      invariant 0 <= i <= |labels| && ok
      invariant Reaches(t, queue, tables, start, now, Progress(reg.View(), Rechecks(labels[i..])))
      invariant forall l :: l in deleted ==> l in labels && Key(t, l) !in tables
      invariant forall j :: 0 <= j < i ==> (labels[j] in deleted <==> Key(t, labels[j]) !in tables)
      invariant old(reg.failAfter) == None ==> reg.failAfter == None
    {
      var l := labels[i];
      var missing := Key(t, l) !in cat.tables;
      ghost var later := Rechecks(labels[i + 1..]);
      ghost var p := Progress(reg.View(), Rechecks(labels[i..]));
      OneMoreCall(t, queue, tables, start, now, p);
      assert p.queue[0] == Recheck(l) && p.queue[1..] == later;
      ok := CallEach(reg, t, if missing then [DeleteRow(l), Clear(l)] else [Clear(l)], now, queue, tables, start, later);
      if !ok { return; }
      if missing {
        deleted := deleted + [l];
      }
      i := i + 1;
    }
    assert Rechecks(labels[i..]) == [];
  }

  /** Carries out a plan. Every point where it can stop is a point of the call queue; a plan that
    * is carried out leaves no call. Only rows whose table is missing at the re-check are deleted. */
  method ApplyPlan(cat: C.Store, reg: R.Store, t: Tenant, plan: Plan, now: nat)
    returns (ok: bool, deleted: seq<Label>)
    modifies reg
    ensures ok ==> Reaches(t, Program(plan), old(cat.tables).Keys, old(reg.View()), now, Progress(reg.View(), []))
    ensures !ok ==> exists left ::
      Reaches(t, Program(plan), old(cat.tables).Keys, old(reg.View()), now, Progress(reg.View(), left))
    ensures forall l :: l in deleted ==> l in plan.delete && Key(t, l) !in cat.tables
    ensures ok ==> forall l :: l in plan.delete ==> (l in deleted <==> Key(t, l) !in cat.tables)
    ensures old(reg.failAfter) == None ==> ok && reg.failAfter == None
  {
    var backfills := Backfills(plan.backfill);
    var clears := Clears(plan.clear);
    var bumps := Bumps(plan.bump);
    ghost var rechecks := Rechecks(plan.delete);
    ghost var queue, tables, start := Program(plan), cat.tables.Keys, reg.View();
    assert Applied(t, queue, tables, start, now, 0) == Progress(start, queue);
    assert Reaches(t, queue, tables, start, now, Progress(start, queue));
    hide Reaches, Applied;
    assert queue == backfills + (clears + (bumps + rechecks));
    deleted := [];
    ok := CallEach(reg, t, backfills, now, queue, tables, start, clears + (bumps + rechecks));
    if !ok { return; }
    ok := CallEach(reg, t, clears, now, queue, tables, start, bumps + rechecks);
    if !ok { return; }
    ok := CallEach(reg, t, bumps, now, queue, tables, start, rechecks);
    if !ok { return; }
    ok, deleted := DeleteEach(cat, reg, t, plan.delete, now, queue, tables, start);
  }
}
