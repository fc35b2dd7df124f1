/** One full sweep: every namespace is planned and applied on its own. */
module ReconcileSweep {
  import opened Common
  import opened Reconciler
  import opened Healing
  import opened HealingRuns
  import opened Convergence
  import C = Catalog
  import R = Registry

  datatype Report = Report(deleted: seq<Key>, skipped: seq<Tenant>, capped: seq<Tenant>, errored: seq<Tenant>)

  /** However far a plan got, it changed nothing outside its tenant. */
  lemma {:induction false} CallsStayInTenant(t: Tenant, queue: seq<Instr>, tables: set<Key>, st: R.State, now: nat, n: nat, k: Key)
    requires R.Consistent(st) && k.tenant != t
    ensures var st' := Applied(t, queue, tables, st, now, n).st;
      R.Consistent(st') && SameFor(st, st', k)
  {
    if n > 0 {
      CallsStayInTenant(t, queue, tables, st, now, n - 1, k);
      var p := Applied(t, queue, tables, st, now, n - 1);
      if p.queue != [] {
        var own := Key(t, p.queue[0].l);
        CallTouchesOneKey(t, p.queue[0], p.st, now, k);
        match p.queue[0]
        case Backfill(_) => R.RecordKeepsConsistent(p.st, own, R.Stub, None, now, k);
        case DeleteRow(_) => R.DeleteKeepsConsistent(p.st, own, k);
        case _ =>
      }
    }
  }

  lemma ApplyingStaysInTenant(t: Tenant, queue: seq<Instr>, tables: set<Key>, st: R.State, now: nat, p: Progress)
    requires R.Consistent(st) && Reaches(t, queue, tables, st, now, p)
    ensures R.Consistent(p.st)
    ensures forall k: Key :: k.tenant != t ==> SameFor(st, p.st, k)
  {
    var n: nat :| Applied(t, queue, tables, st, now, n) == p;
    forall k: Key | k.tenant != t ensures SameFor(st, p.st, k) {
      CallsStayInTenant(t, queue, tables, st, now, n, k);
    }
    var other := Key(t + "x", "");
    assert |other.tenant| != |t|;
    CallsStayInTenant(t, queue, tables, st, now, n, other);
  }

  // ------------------------------------------------------------ metadata under a sweep

  /** What a sweep may do to the metadata of one object: nothing, take all of it away, or register a table
    * that had no row by a stub with no tags and no parents. */
  ghost predicate Kept(a: R.State, b: R.State, k: Key, now: nat) {
    k in b.objects ==>
      if k in a.objects then
        && b.objects[k] == a.objects[k]
        && forall x :: ((k, x) in b.tags <==> (k, x) in a.tags) && ((k, x) in b.lineage <==> (k, x) in a.lineage)
      else
        && b.objects[k] == R.Row(R.Reconciled, None, None, now, now)
        && forall x :: (k, x) !in b.tags && (k, x) !in b.lineage
  }

  lemma SameForInWords(a: R.State, b: R.State, k: Key)
    requires SameFor(a, b, k)
    ensures k in a.objects <==> k in b.objects
    ensures k in a.objects ==> a.objects[k] == b.objects[k]
    ensures forall x :: ((k, x) in b.tags <==> (k, x) in a.tags) && ((k, x) in b.lineage <==> (k, x) in a.lineage)
  {
    assert forall x :: (k, x) in a.tags <==> x in R.TagsOf(a, k);
    assert forall x :: (k, x) in b.tags <==> x in R.TagsOf(b, k);
    assert forall x :: (k, x) in a.lineage <==> x in R.ParentsOf(a, k);
    assert forall x :: (k, x) in b.lineage <==> x in R.ParentsOf(b, k);
  }

  lemma KeptThenSame(a: R.State, b: R.State, c: R.State, k: Key, now: nat)
    requires Kept(a, b, k, now) && SameFor(b, c, k)
    ensures Kept(a, c, k, now)
  {
    SameForInWords(b, c, k);
    hide SameFor;
  }

  lemma SameThenKept(a: R.State, b: R.State, c: R.State, k: Key, now: nat)
    requires SameFor(a, b, k) && Kept(b, c, k, now)
    ensures Kept(a, c, k, now)
  {
    SameForInWords(a, b, k);
    hide SameFor;
  }

  /** The calls never come to backfill anything but what the plan says. */
  lemma {:induction false} OnlyPlannedBackfills(t: Tenant, plan: Plan, tables: set<Key>, st: R.State, now: nat, n: nat)
    ensures forall instr :: instr in Applied(t, Program(plan), tables, st, now, n).queue && instr.Backfill? ==>
      instr.l in plan.backfill
  {
    hide Effect;
    if n > 0 {
      OnlyPlannedBackfills(t, plan, tables, st, now, n - 1);
    }
  }

  /** A plan that only backfills labels without a row leaves the metadata of every row as it was, however
    * far it got: rows go as a whole, and rows that come are stubs of planned labels. */
  lemma {:induction false} CallsKeepMetadata(t: Tenant, plan: Plan, tables: set<Key>, st: R.State, now: nat, n: nat, k: Key)
    requires R.Consistent(st) && k.tenant == t && (k.name in plan.backfill ==> k !in st.objects)
    ensures var st' := Applied(t, Program(plan), tables, st, now, n).st;
      && R.Consistent(st') && Kept(st, st', k, now)
      && (k in st'.objects && k !in st.objects ==> k.name in plan.backfill)
  {
    hide Program;
    if n > 0 {
      CallsKeepMetadata(t, plan, tables, st, now, n - 1, k);
      OnlyPlannedBackfills(t, plan, tables, st, now, n - 1);
      var p := Applied(t, Program(plan), tables, st, now, n - 1);
      if p.queue != [] {
        assert p.queue[0] in p.queue;
        CallKeepsMetadata(t, plan, p.queue[0], st, p.st, now, k);
      }
    }
  }

  lemma CallKeepsMetadata(t: Tenant, plan: Plan, instr: Instr, start: R.State, st: R.State, now: nat, k: Key)
    requires R.Consistent(st) && k.tenant == t && (k.name in plan.backfill ==> k !in start.objects)
    requires instr.Backfill? ==> instr.l in plan.backfill
    requires Kept(start, st, k, now) && (k in st.objects && k !in start.objects ==> k.name in plan.backfill)
    ensures var st' := Effect(t, instr, st, now);
      && R.Consistent(st') && Kept(start, st', k, now)
      && (k in st'.objects && k !in start.objects ==> k.name in plan.backfill)
  {
    var own, st' := Key(t, instr.l), Effect(t, instr, st, now);
    match instr {
      case Backfill(_) => R.RecordKeepsConsistent(st, own, R.Stub, None, now, k);
      case DeleteRow(_) => R.DeleteKeepsConsistent(st, own, k);
      case _ =>
    }
    if own != k {
      CallTouchesOneKey(t, instr, st, now, k);
      KeptThenSame(start, st, st', k, now);
      SameForInWords(st, st', k);
    } else if instr.Backfill? {
      StubHasNothing(st, st', k, now);
    }
  }

  lemma StubHasNothing(st: R.State, st': R.State, k: Key, now: nat)
    requires R.Consistent(st) && st' == R.Recorded(st, k, R.Stub, None, now)
    requires k in st.objects ==> st.objects[k].createdAt == now && forall x :: (k, x) !in st.lineage
    ensures st'.objects[k] == R.Row(R.Reconciled, None, None, now, now)
    ensures forall x :: (k, x) !in st'.tags && (k, x) !in st'.lineage
  {
    R.RecordKeepsConsistent(st, k, R.Stub, None, now, k);
    assert forall x :: (k, x) in st'.tags ==> x in R.TagsOf(st', k);
  }

  lemma ApplyingKeepsMetadata(t: Tenant, plan: Plan, tables: set<Key>, st: R.State, now: nat, p: Progress)
    requires R.Consistent(st) && Reaches(t, Program(plan), tables, st, now, p)
    requires forall l :: l in plan.backfill ==> Key(t, l) !in st.objects
    ensures forall k: Key :: k.tenant == t ==>
      Kept(st, p.st, k, now) && (k in p.st.objects && k !in st.objects ==> k.name in plan.backfill)
  {
    var n: nat :| Applied(t, Program(plan), tables, st, now, n) == p;
    hide Applied, Program, Kept;
    forall k: Key | k.tenant == t
      ensures Kept(st, p.st, k, now) && (k in p.st.objects && k !in st.objects ==> k.name in plan.backfill)
    {
      assert k == Key(t, k.name);
      CallsKeepMetadata(t, plan, tables, st, now, n, k);
    }
  }

  /** What listing a namespace answers: a failed listing reads as empty. */
  function Listing(tables: set<Key>, fails: set<Tenant>, t: Tenant): set<Label> {
    if t in fails then {} else Live(tables, t)
  }

  lemma ListingInWords(tables: set<Key>, fails: set<Tenant>, t: Tenant, l: Label)
    ensures l in Listing(tables, fails, t) <==> t !in fails && Key(t, l) in tables
  {
    LiveInWords(tables, t, l);
  }

  lemma RowsInWords(st: R.State, t: Tenant)
    ensures forall l :: l in LabelsOf(st, t) <==> Key(t, l) in st.objects
  {
    NamespaceEntries(st, t);
  }

  /** One namespace of the sweep. `false` is the exception the sweep swallows. */
  method SweepNamespace(cat: C.Store, reg: R.Store, t: Tenant, listingFails: set<Tenant>, p: Params, now: nat)
    returns (ok: bool, plan: Plan, deleted: seq<Label>)
    requires R.Consistent(reg.View())
    modifies reg
    ensures R.Consistent(reg.View())
    ensures forall k: Key :: k.tenant != t ==> SameFor(old(reg.View()), reg.View(), k)
    ensures ok ==>
      var live, s := Listing(cat.tables.Keys, listingFails, t), NamespaceOf(old(reg.View()), t);
      && NamespaceOf(reg.View(), t) == Sweep(live, s, p)
      && plan.skipped == Skips(live, s.reg) && plan.capped == Caps(live, s.reg, p)
      && forall l :: l in deleted <==> l in ToDelete(live, s.reg, s.tombstones, p) && Key(t, l) !in cat.tables
    ensures forall l :: l in deleted ==> Key(t, l) !in cat.tables && Key(t, l) in old(reg.objects) && t !in listingFails
    ensures forall k: Key :: k.tenant == t ==> Kept(old(reg.View()), reg.View(), k, now)
    ensures forall k: Key :: k.tenant == t && k in reg.objects && k !in old(reg.objects) ==> k in cat.tables && t !in listingFails
    ensures old(reg.failAfter) == None ==> ok && reg.failAfter == None
  {
    ghost var start := reg.View();
    SameForAll(start);
    KeptAll(start, now);
    hide R.Consistent, SameFor, Kept, Listing, Sweep, IsPlan, Program, Reaches, NamespaceOf, LabelsOf, TombstonesOf, Live;
    plan, deleted := Plan([], [], [], [], false, false), [];
    var live := Listing(cat.tables.Keys, listingFails, t);
    ok := reg.Statement();
    if !ok { return; }
    var rows := LabelsOf(reg.View(), t);
    ok := reg.Statement();
    if !ok { return; }
    var tombstones := TombstonesOf(reg.View(), t);
    plan := PlanNamespace(live, rows, tombstones, p);
    RowsInWords(start, t);
    ok, deleted := ApplyPlan(cat, reg, t, plan, now);
    PlannedInWords(plan, cat.tables.Keys, listingFails, t, start, tombstones, p);
    ghost var left: seq<Instr> := [];
    if !ok {
      left :| Reaches(t, Program(plan), cat.tables.Keys, start, now, Progress(reg.View(), left));
    }
    ApplyingStaysInTenant(t, Program(plan), cat.tables.Keys, start, now, Progress(reg.View(), left));
    ApplyingKeepsMetadata(t, plan, cat.tables.Keys, start, now, Progress(reg.View(), left));
    if ok {
      SameNamespace(start, t);
      PlanOf(plan, live, rows, tombstones, p);
      CarriedOutPlanIsSweep(t, plan, live, cat.tables.Keys, p, start, reg.View(), now);
    }
  }

  /** What is backfilled is listed and has no row; what is deleted has one and is not listed. */
  lemma PlannedInWords(plan: Plan, tables: set<Key>, fails: set<Tenant>, t: Tenant, st: R.State, tombstones: map<Label, nat>,
                       p: Params)
    requires forall l :: PlansFor(plan, Listing(tables, fails, t), LabelsOf(st, t), tombstones, p, l)
    requires plan.skipped <==> Listing(tables, fails, t) == {} && exists l :: l in LabelsOf(st, t)
    ensures forall l :: l in plan.backfill ==> Key(t, l) in tables && t !in fails && Key(t, l) !in st.objects
    ensures forall l :: l in plan.delete ==> Key(t, l) in st.objects && t !in fails
  {
    RowsInWords(st, t);
    forall l | l in plan.backfill ensures Key(t, l) in tables && t !in fails && Key(t, l) !in st.objects {
      assert PlansFor(plan, Listing(tables, fails, t), LabelsOf(st, t), tombstones, p, l);
      ListingInWords(tables, fails, t, l);
    }
    forall l | l in plan.delete ensures Key(t, l) in st.objects && t !in fails {
      assert PlansFor(plan, Listing(tables, fails, t), LabelsOf(st, t), tombstones, p, l);
    }
  }

  lemma KeptAll(st: R.State, now: nat)
    ensures forall k :: Kept(st, st, k, now)
  {
  }

  lemma PlanOf(plan: Plan, live: set<Label>, rows: set<Label>, tombstones: map<Label, nat>, p: Params)
    requires IsPlan(plan, live, rows, tombstones, p)
    ensures plan.skipped == Skips(live, rows) && plan.capped == Caps(live, rows, p)
    ensures forall l :: l in plan.delete <==> l in ToDelete(live, rows, tombstones, p)
  {
    EnumeratesMembers(plan.delete, ToDelete(live, rows, tombstones, p));
  }

  /** The namespace got its own sweep, and the report says of it what happened. */
  ghost predicate Swept(before: R.State, after: R.State, t: Tenant, live: set<Label>, tables: set<Key>, p: Params,
                        report: Report) {
    var s := NamespaceOf(before, t);
    && NamespaceOf(after, t) == Sweep(live, s, p)
    && (t in report.skipped <==> Skips(live, s.reg))
    && (t in report.capped <==> Caps(live, s.reg, p))
    && forall l :: Key(t, l) in report.deleted <==> l in ToDelete(live, s.reg, s.tombstones, p) && Key(t, l) !in tables
  }

  /** The report says nothing about the tenant yet. */
  predicate Unmentioned(report: Report, t: Tenant) {
    t !in report.skipped && t !in report.capped && t !in report.errored && forall k :: k in report.deleted ==> k.tenant != t
  }

  /** How things stand when the namespaces `done` had their turn. */
  ghost predicate Progressed(start: R.State, st: R.State, done: seq<Tenant>, listingFails: set<Tenant>, outages: map<Tenant, nat>,
                             tables: set<Key>, p: Params, now: nat, report: Report) {
    && R.Consistent(st)
    && (forall t :: t in report.errored ==> t in done && t in outages)
    && (forall t :: t in done && t !in report.errored ==>
          Swept(start, st, t, Listing(tables, listingFails, t), tables, p, report))
    && (forall t :: t !in done ==> Unmentioned(report, t))
    && (forall k: Key :: k.tenant !in done ==> SameFor(start, st, k))
    && (forall k: Key :: k in report.deleted ==> k !in tables && k in start.objects && k.tenant !in listingFails)
    && (forall k: Key :: Kept(start, st, k, now))
    && (forall k: Key :: k in st.objects && k !in start.objects ==> k in tables && k.tenant !in listingFails)
  }

  /** The sweep over all namespaces. In the turn of a namespace in `outages` the registry fails after so
    * many statements. Whatever fails in whichever turns: every namespace that did not fail gets exactly
    * its own sweep and a true report, only failures are reported as errors, tenants that are not listed
    * are not touched, and no row that stays loses any of its metadata. */
  method Reconcile(cat: C.Store, reg: R.Store, namespaces: seq<Tenant>, listingFails: set<Tenant>,
                   outages: map<Tenant, nat>, p: Params, now: nat)
    returns (report: Report)
    requires R.Consistent(reg.View()) && NoDuplicates(namespaces)
    modifies reg
    ensures R.Consistent(reg.View())
    ensures forall t :: t in report.errored ==> t in namespaces && t in outages
    ensures forall t :: t in namespaces && t !in report.errored ==>
      Swept(old(reg.View()), reg.View(), t, Listing(cat.tables.Keys, listingFails, t), cat.tables.Keys, p, report)
    ensures forall t :: t !in namespaces ==> Unmentioned(report, t)
    ensures forall k: Key :: k.tenant !in namespaces ==> SameFor(old(reg.View()), reg.View(), k)
    ensures forall k: Key :: k in report.deleted ==> k !in cat.tables && k in old(reg.objects) && k.tenant !in listingFails
    ensures forall k: Key :: Kept(old(reg.View()), reg.View(), k, now)
    ensures forall k: Key :: k in reg.objects && k !in old(reg.objects) ==> k in cat.tables && k.tenant !in listingFails
  {
    ghost var start, tables := reg.View(), cat.tables.Keys;
    report := Report([], [], [], []);
    NothingProgressed(start, listingFails, outages, tables, p, now);
    hide *;
    var i := 0;
    assert namespaces[..0] == [];
    while i < |namespaces|
      invariant 0 <= i <= |namespaces|
      invariant Progressed(start, reg.View(), namespaces[..i], listingFails, outages, tables, p, now, report)
    {
      var t := namespaces[i];
      ghost var before, said := reg.View(), report;
      assert namespaces[..i + 1] == namespaces[..i] + [t];
      NotYet(namespaces, i);
      AllProgressed(start, before, namespaces[..i], listingFails, outages, tables, p, now, said);
      reg.failAfter := if t in outages then Some(outages[t]) else None;
      var ok, plan, deleted := SweepNamespace(cat, reg, t, listingFails, p, now);
      var keys := seq(|deleted|, j requires 0 <= j < |deleted| => Key(t, deleted[j]));
      report := report.(deleted := report.deleted + keys);
      if !ok {
        report := report.(errored := report.errored + [t]);
      } else {
        if plan.skipped {
          report := report.(skipped := report.skipped + [t]);
        }
        if plan.capped {
          report := report.(capped := report.capped + [t]);
        }
      }
      AddedInTurn(said, report, t, ok, plan, deleted);
      TurnProgresses(start, before, reg.View(), namespaces[..i], t, listingFails, outages, tables, p, now, said, ok, plan,
                     deleted);
      i := i + 1;
    }
    assert namespaces[..i] == namespaces;
    AllProgressed(start, reg.View(), namespaces, listingFails, outages, tables, p, now, report);
  }

  lemma NotYet<T>(s: seq<T>, i: nat)
    requires NoDuplicates(s) && i < |s|
    ensures s[i] !in s[..i]
  {
  }

  lemma AddedInTurn(said: Report, report: Report, t: Tenant, ok: bool, plan: Plan, deleted: seq<Label>)
    requires report.deleted == said.deleted + seq(|deleted|, j requires 0 <= j < |deleted| => Key(t, deleted[j]))
    requires report.skipped == if ok && plan.skipped then said.skipped + [t] else said.skipped
    requires report.capped == if ok && plan.capped then said.capped + [t] else said.capped
    requires report.errored == if ok then said.errored else said.errored + [t]
    ensures report == Added(said, t, ok, plan, deleted)
  {
  }

  lemma AllProgressed(start: R.State, st: R.State, done: seq<Tenant>, listingFails: set<Tenant>, outages: map<Tenant, nat>,
                      tables: set<Key>, p: Params, now: nat, report: Report)
    requires Progressed(start, st, done, listingFails, outages, tables, p, now, report)
    ensures R.Consistent(st)
    ensures forall t :: t in report.errored ==> t in done && t in outages
    ensures forall t :: t in done && t !in report.errored ==>
      Swept(start, st, t, Listing(tables, listingFails, t), tables, p, report)
    ensures forall t :: t !in done ==> Unmentioned(report, t)
    ensures forall k: Key :: k.tenant !in done ==> SameFor(start, st, k)
    ensures forall k: Key :: k in report.deleted ==> k !in tables && k in start.objects && k.tenant !in listingFails
    ensures forall k: Key :: Kept(start, st, k, now)
    ensures forall k: Key :: k in st.objects && k !in start.objects ==> k in tables && k.tenant !in listingFails
  {
    hide R.Consistent, Swept, Listing, Unmentioned, SameFor, Kept;
  }

  lemma NothingProgressed(start: R.State, listingFails: set<Tenant>, outages: map<Tenant, nat>, tables: set<Key>, p: Params,
                          now: nat)
    requires R.Consistent(start)
    ensures Progressed(start, start, [], listingFails, outages, tables, p, now, Report([], [], [], []))
  {
    SameForAll(start);
    KeptAll(start, now);
    NothingMentioned();
    hide SameFor, Kept, Unmentioned, R.Consistent;
  }

  lemma TurnProgresses(start: R.State, before: R.State, after: R.State, done: seq<Tenant>, t: Tenant, listingFails: set<Tenant>,
                       outages: map<Tenant, nat>, tables: set<Key>, p: Params, now: nat, said: Report, ok: bool, plan: Plan,
                       deleted: seq<Label>)
    requires Progressed(start, before, done, listingFails, outages, tables, p, now, said) && t !in done
    requires R.Consistent(after) && (!ok ==> t in outages)
    requires forall k: Key :: k.tenant != t ==> SameFor(before, after, k)
    requires ok ==>
      var live, s := Listing(tables, listingFails, t), NamespaceOf(before, t);
      && NamespaceOf(after, t) == Sweep(live, s, p)
      && plan.skipped == Skips(live, s.reg) && plan.capped == Caps(live, s.reg, p)
      && forall l :: l in deleted <==> l in ToDelete(live, s.reg, s.tombstones, p) && Key(t, l) !in tables
    requires forall l :: l in deleted ==> Key(t, l) !in tables && Key(t, l) in before.objects && t !in listingFails
    requires forall k: Key :: k.tenant == t ==> Kept(before, after, k, now)
    requires forall k: Key :: k.tenant == t && k in after.objects && k !in before.objects ==> k in tables && t !in listingFails
    ensures Progressed(start, after, done + [t], listingFails, outages, tables, p, now, Added(said, t, ok, plan, deleted))
  {
    hide R.Consistent, Sweep, SameFor, NamespaceOf, Swept, Unmentioned, Kept, Listing, Skips, Caps, ToDelete;
    var report := Added(said, t, ok, plan, deleted);
    TurnSweeps(start, before, after, done, t, listingFails, outages, tables, p, now, said, ok, plan, deleted);
    AddedKeys(said, t, ok, plan, deleted);
    forall l | l in deleted ensures Key(t, l) in start.objects {
      RowKept(start, before, Key(t, l));
    }
    forall other | other !in done + [t] ensures Unmentioned(report, other) {
      StillUnmentioned(said, t, ok, plan, deleted, other);
    }
    forall k: Key | k.tenant !in done + [t] ensures SameFor(start, after, k) {
      SameForTransitive(start, before, after, k);
    }
    forall k: Key
      ensures Kept(start, after, k, now)
      ensures k in after.objects && k !in start.objects ==> k in tables && k.tenant !in listingFails
    {
      if k.tenant == t {
        SameThenKept(start, before, after, k, now);
        RowKept(start, before, k);
      } else {
        KeptThenSame(start, before, after, k, now);
        RowKept(before, after, k);
      }
    }
    assert forall k: Key :: k in report.deleted && k !in said.deleted ==> k == Key(t, k.name);
  }

  lemma TurnSweeps(start: R.State, before: R.State, after: R.State, done: seq<Tenant>, t: Tenant, listingFails: set<Tenant>,
                   outages: map<Tenant, nat>, tables: set<Key>, p: Params, now: nat, said: Report, ok: bool, plan: Plan,
                   deleted: seq<Label>)
    requires Progressed(start, before, done, listingFails, outages, tables, p, now, said) && t !in done
    requires forall k: Key :: k.tenant != t ==> SameFor(before, after, k)
    requires ok ==>
      var live, s := Listing(tables, listingFails, t), NamespaceOf(before, t);
      && NamespaceOf(after, t) == Sweep(live, s, p)
      && plan.skipped == Skips(live, s.reg) && plan.capped == Caps(live, s.reg, p)
      && forall l :: l in deleted <==> l in ToDelete(live, s.reg, s.tombstones, p) && Key(t, l) !in tables
    ensures var report := Added(said, t, ok, plan, deleted);
      forall u :: u in done + [t] && u !in report.errored ==>
        Swept(start, after, u, Listing(tables, listingFails, u), tables, p, report)
  {
    hide R.Consistent, Sweep, SameFor, NamespaceOf, Swept, Unmentioned, Kept, Listing, Skips, Caps, ToDelete;
    SameNamespaceFor(start, before, t);
    var report := Added(said, t, ok, plan, deleted);
    forall u | u in done + [t] && u !in report.errored
      ensures Swept(start, after, u, Listing(tables, listingFails, u), tables, p, report)
    {
      if u == t {
        assert ok by {
          assert !ok ==> t in said.errored + [t];
        }
        SweptNow(start, before, after, t, Listing(tables, listingFails, t), tables, p, said, plan, deleted);
      } else {
        assert u !in said.errored by {
          assert u in said.errored ==> u in said.errored + [t];
        }
        SameNamespaceFor(before, after, u);
        SweptStays(start, before, after, u, Listing(tables, listingFails, u), tables, p, said, t, ok, plan, deleted);
      }
    }
  }

  lemma NothingMentioned()
    ensures forall t :: Unmentioned(Report([], [], [], []), t)
  {
  }

  /** What the turn of one namespace adds to the report. */
  function Added(said: Report, t: Tenant, ok: bool, plan: Plan, deleted: seq<Label>): Report {
    Report(said.deleted + seq(|deleted|, j requires 0 <= j < |deleted| => Key(t, deleted[j])),
           said.skipped + (if ok && plan.skipped then [t] else []),
           said.capped + (if ok && plan.capped then [t] else []),
           said.errored + (if ok then [] else [t]))
  }

  lemma AddedKeys(said: Report, t: Tenant, ok: bool, plan: Plan, deleted: seq<Label>)
    ensures forall k :: k in Added(said, t, ok, plan, deleted).deleted <==>
      k in said.deleted || (k.tenant == t && k.name in deleted)
  {
    var keys := seq(|deleted|, j requires 0 <= j < |deleted| => Key(t, deleted[j]));
    forall l | l in deleted ensures Key(t, l) in keys {
      var j :| 0 <= j < |deleted| && deleted[j] == l;
      assert keys[j] == Key(t, l);
    }
  }

  lemma StillUnmentioned(said: Report, t: Tenant, ok: bool, plan: Plan, deleted: seq<Label>, other: Tenant)
    requires Unmentioned(said, other) && other != t
    ensures Unmentioned(Added(said, t, ok, plan, deleted), other)
  {
    AddedKeys(said, t, ok, plan, deleted);
  }

  lemma SweptNow(start: R.State, before: R.State, after: R.State, t: Tenant, live: set<Label>, tables: set<Key>, p: Params,
                 said: Report, plan: Plan, deleted: seq<Label>)
    requires Unmentioned(said, t) && NamespaceOf(before, t) == NamespaceOf(start, t)
    requires var s := NamespaceOf(before, t);
      && NamespaceOf(after, t) == Sweep(live, s, p)
      && plan.skipped == Skips(live, s.reg) && plan.capped == Caps(live, s.reg, p)
      && forall l :: l in deleted <==> l in ToDelete(live, s.reg, s.tombstones, p) && Key(t, l) !in tables
    ensures Swept(start, after, t, live, tables, p, Added(said, t, true, plan, deleted))
  {
    hide NamespaceOf, Sweep, Skips, Caps, ToDelete;
    AddedKeys(said, t, true, plan, deleted);
    hide Added;
    var report := Added(said, t, true, plan, deleted);
    forall l ensures Key(t, l) in report.deleted <==> l in deleted {
      var k := Key(t, l);
      assert k in said.deleted ==> k.tenant != t;
    }
    ReportedFlags(said, t, plan, deleted);
  }

  lemma ReportedFlags(said: Report, t: Tenant, plan: Plan, deleted: seq<Label>)
    requires Unmentioned(said, t)
    ensures var report := Added(said, t, true, plan, deleted);
      (t in report.skipped <==> plan.skipped) && (t in report.capped <==> plan.capped)
  {
  }

  lemma SweptStays(start: R.State, before: R.State, after: R.State, u: Tenant, live: set<Label>, tables: set<Key>, p: Params,
                   said: Report, t: Tenant, ok: bool, plan: Plan, deleted: seq<Label>)
    requires u != t && Swept(start, before, u, live, tables, p, said)
    requires NamespaceOf(before, u) == NamespaceOf(after, u)
    ensures Swept(start, after, u, live, tables, p, Added(said, t, ok, plan, deleted))
  {
    hide NamespaceOf, Sweep, Skips, Caps, ToDelete;
    AddedKeys(said, t, ok, plan, deleted);
    var report := Added(said, t, ok, plan, deleted);
    assert (u in report.skipped <==> u in said.skipped) && (u in report.capped <==> u in said.capped);
    hide Added;
    forall l ensures Key(u, l) in report.deleted <==> Key(u, l) in said.deleted {
      var k := Key(u, l);
      assert k.tenant != t;
    }
  }

  lemma SameForAll(st: R.State)
    ensures forall k :: SameFor(st, st, k)
  {
  }

  lemma RowKept(a: R.State, b: R.State, k: Key)
    requires SameFor(a, b, k)
    ensures k in a.objects <==> k in b.objects
  {
  }

  lemma SameForTransitive(a: R.State, b: R.State, c: R.State, k: Key)
    requires SameFor(a, b, k) && SameFor(b, c, k)
    ensures SameFor(a, c, k)
  {
  }

  /** States that agree on every key of a tenant agree on its namespace. */
  lemma SameNamespaceFor(a: R.State, b: R.State, t: Tenant)
    requires forall k: Key :: k.tenant == t ==> SameFor(a, b, k)
    ensures NamespaceOf(a, t) == NamespaceOf(b, t)
  {
    NamespaceEntries(a, t);
    NamespaceEntries(b, t);
    forall l ensures l in NamespaceOf(a, t).reg <==> l in NamespaceOf(b, t).reg {
      assert SameFor(a, b, Key(t, l));
    }
    forall l
      ensures l in NamespaceOf(a, t).tombstones <==> l in NamespaceOf(b, t).tombstones
      ensures l in NamespaceOf(a, t).tombstones ==> NamespaceOf(a, t).tombstones[l] == NamespaceOf(b, t).tombstones[l]
    {
      assert SameFor(a, b, Key(t, l));
    }
  }
}
