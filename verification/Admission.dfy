/** Whole runs of the budget system: admissions decided by the policy bridge, row updates made
    by the observability bridge, in any interleaving. */
module Admission {
  import opened Prelude
  import opened TaskRuns
  import opened Budget
  import opened TaskRunStore

  /** `ApprovalPolicy._is_auto_approved`. */
  predicate AutoApproved(c: ApprovalClass, r: RiskLevel) {
    match c
    case NoApproval => true
    case LowApproval => r.Low? || r.Medium?
    case MediumApproval => r.Low?
    case HighApproval => false
    case CriticalApproval => false
  }

  /** `allowed=True`: no scope of the request blocks it and no human approval is needed. */
  ghost predicate Allowed(items: Items, rows: Rows, policies: Policies, req: Request, day: int) {
    && (forall s :: s in ScopesOf(req) ==> !Blocks(items, rows, policies, s, req, day))
    && AutoApproved(req.approvalPolicy, req.riskLevel)
  }

  // ---------------------------------------------------------------- scope alignment

  /** The row that is created for an admitted request. */
  function NewRun(req: Request, day: int): TaskRun {
    TaskRun(req.workItemId, req.agentProfileId, Pending, None, None, None, None, None, None, None, day)
  }

  /** The request repeats what its work item's row says. */
  predicate Faithful(items: Items, req: Request) {
    && req.workItemId in items
    && items[req.workItemId] == WorkItem(req.workspaceId, req.workItemKind)
  }

  /** Scopes a request cannot misstate: the global one, and its agent profile, which the run takes over from it. */
  predicate Intrinsic(s: Scope) {
    s.kind.Global? || s.kind.AgentProfile?
  }

  /** SQL counts every run under any scope of type global, but only the id "global" is ever looked up. */
  predicate LookedUp(s: Scope) {
    s.kind.Global? ==> s.id == "global"
  }

  /** A run created from a request counts in exactly the scopes the request was checked
      against, if and only if the request is faithful to the work item's row. */
  lemma ScopeAlignment(items: Items, req: Request, day: int)
    requires req.workItemId in items
    ensures Faithful(items, req) <==>
            forall s :: s in ScopesOf(req) <==> LookedUp(s) && InScope(items, NewRun(req, day), s)
  {
    var r := NewRun(req, day);
    if Faithful(items, req) {
      forall s ensures s in ScopesOf(req) <==> LookedUp(s) && InScope(items, r, s) {
        match s.kind {
          case Global => assert s == Scope(Global, s.id);
          case Workspace => assert s == Scope(Workspace, s.id);
          case AgentProfile => assert s == Scope(AgentProfile, s.id);
          case WorkItemKind => assert s == Scope(WorkItemKind, s.id);
        }
      }
    } else {
      var w, k := Scope(Workspace, req.workspaceId), Scope(WorkItemKind, req.workItemKind);
      assert w in ScopesOf(req) && k in ScopesOf(req);
      assert !InScope(items, r, w) || !InScope(items, r, k);
    }
  }

  /** Under an intrinsic scope a new run is counted only if the request was checked there, whatever it claims. */
  lemma AlignedAnyway(items: Items, req: Request, day: int, s: Scope)
    requires req.workItemId in items && LookedUp(s) && InScope(items, NewRun(req, day), s)
    requires Faithful(items, req) || Intrinsic(s)
    ensures s in ScopesOf(req)
  {
    ScopeAlignment(items, req, day);
    if s.kind.Global? {
      assert s == Scope(Global, "global");
    } else if s.kind.AgentProfile? {
      assert s == Scope(AgentProfile, s.id);
    }
  }

  // ---------------------------------------------------------------- the system

  /** A run with what it was admitted for. It is `open` while its cost may still rise. */
  datatype Entry = Entry(run: TaskRun, estimate: nat, open: bool)
  datatype System = System(items: Items, entries: seq<Entry>)

  function RowsOf(es: seq<Entry>): Rows {
    seq(|es|, i requires 0 <= i < |es| => es[i].run)
  }

  datatype Step =
    | NewWorkItem(id: string, item: WorkItem)
    | Admit(req: Request, day: int)
    | Update(i: nat, write: Write)
    | Begin(i: nat, startedAt: int)
    | Close(i: nat)

  /** What is summed over entries, beside the two measures of the table itself. */
  datatype Tally = Exposure(day: int) | Spent(day: int) | Excess(day: int) | Live | LateOn(day: int)

  /** The part of a run's cost that is beyond its estimate. */
  function Beyond(e: Entry): nat {
    if CostOf(e.run) > e.estimate then CostOf(e.run) - e.estimate else 0
  }

  /** The most that one run can spend within its estimate: the cost column holds no more than `COST_BOUND - 1`. */
  function Allowance(e: Entry): nat {
    Min(e.estimate, COST_BOUND - 1)
  }

  function EntryWeight(e: Entry, t: Tally): nat {
    match t
    case Exposure(day) => if e.run.day != day then 0 else if e.open then Allowance(e) else CostOf(e.run) - Beyond(e)
    case Spent(day) => Weight(e.run, SpendOn(day))
    case Excess(day) => if e.run.day == day then Beyond(e) else 0
    case Live => Weight(e.run, ActiveNow)
    case LateOn(day) => if e.run.day == day && e.open && !Active(e.run.status) then 1 else 0
  }

  function Share(items: Items, e: Entry, s: Scope, t: Tally): nat {
    if InScope(items, e.run, s) then EntryWeight(e, t) else 0
  }

  function Total(items: Items, es: seq<Entry>, s: Scope, t: Tally): nat {
    if es == [] then 0 else Total(items, es[..|es| - 1], s, t) + Share(items, es[|es| - 1], s, t)
  }

  /** The environment's obligations and the services' guards. `late` bounds, at each admission, how many
      finished runs of a scope are still waiting for their cost. Runs are created in the same
      step as the evaluation that allowed them, a closed run's cost never rises, and a completion
      reports a terminal status. */
  ghost predicate Next(policies: Policies, late: nat, s: System, step: Step, s': System) {
    match step
    case NewWorkItem(id, item) =>
      id !in s.items && s' == s.(items := s.items[id := item])
    case Admit(req, day) =>
      && req.workItemId in s.items
      && Allowed(s.items, RowsOf(s.entries), policies, req, day)
      && (forall sc :: sc in policies ==> Total(s.items, s.entries, sc, LateOn(day)) <= late)
      && s' == s.(entries := s.entries + [Entry(NewRun(req, day), CostEstimate(req), true)])
    case Update(i, w) =>
      && i < |s.entries|
      && Accepted(s.entries[i].run, w)
      && (w.Complete? ==> !Active(w.event.status))
      && (w.Metrics? && w.metrics.cost.Some? && !s.entries[i].open ==> w.metrics.cost.value <= CostOf(s.entries[i].run))
      && s' == s.(entries := s.entries[i := s.entries[i].(run := Apply(s.entries[i].run, w))])
    case Begin(i, at) =>
      && i < |s.entries| && s.entries[i].run.status.Pending?
      && var run := s.entries[i].run.(status := Running, startedAt := Some(at));
         s' == s.(entries := s.entries[i := s.entries[i].(run := run)])
    case Close(i) =>
      && i < |s.entries| && !Active(s.entries[i].run.status)
      && s' == s.(entries := s.entries[i := s.entries[i].(open := false)])
  }

  const INIT := System(map[], [])

  ghost predicate Execution(policies: Policies, late: nat, ss: seq<System>, steps: seq<Step>) {
    && |ss| == |steps| + 1
    && ss[0] == INIT
    && forall i :: 0 <= i < |steps| ==> Next(policies, late, ss[i], steps[i], ss[i + 1])
  }

  /** The step records no cost beyond the admitted estimate. */
  ghost predicate WithinEstimate(s: System, step: Step) {
    step.Update? && step.i < |s.entries| && step.write.Metrics? && step.write.metrics.cost.Some? ==>
      step.write.metrics.cost.value <= s.entries[step.i].estimate
  }

  /** The step admits no request that misstates its work item's workspace or kind. */
  ghost predicate WithinTruth(s: System, step: Step) {
    step.Admit? ==> Faithful(s.items, step.req)
  }

  /** No admitted request misstates its work item. No service checks this. */
  ghost predicate Truthful(ss: seq<System>, steps: seq<Step>) {
    forall i :: 0 <= i < |steps| && i < |ss| ==> WithinTruth(ss[i], steps[i])
  }

  /** No cost is ever recorded beyond its estimate. */
  ghost predicate Honest(ss: seq<System>, steps: seq<Step>) {
    forall i :: 0 <= i < |steps| && i < |ss| ==> WithinEstimate(ss[i], steps[i])
  }

  // ---------------------------------------------------------------- totals

  lemma TotalInsert(items: Items, es: seq<Entry>, e: Entry, s: Scope, t: Tally)
    ensures Total(items, es + [e], s, t) == Total(items, es, s, t) + Share(items, e, s, t)
  {
    assert (es + [e])[..|es|] == es;
  }

  lemma {:induction false} TotalUpdate(items: Items, es: seq<Entry>, i: nat, e: Entry, s: Scope, t: Tally)
    requires i < |es|
    ensures Total(items, es[i := e], s, t) + Share(items, es[i], s, t) == Total(items, es, s, t) + Share(items, e, s, t)
  {
    var n := |es| - 1;
    if i == n {
      assert es[i := e][..n] == es[..n];
    } else {
      assert es[i := e][..n] == es[..n][i := e];
      TotalUpdate(items, es[..n], i, e, s, t);
    }
  }

  /** The tallies `Spent` and `Live` are the table's own aggregates. */
  lemma {:induction false} TotalIsAggregate(items: Items, es: seq<Entry>, s: Scope, day: int)
    ensures Total(items, es, s, Spent(day)) == DailySpend(items, RowsOf(es), s, day)
    ensures Total(items, es, s, Live) == ActiveCount(items, RowsOf(es), s)
  {
    if es != [] {
      var n := |es| - 1;
      TotalIsAggregate(items, es[..n], s, day);
      assert RowsOf(es)[..n] == RowsOf(es[..n]);
    }
  }

  /** A work item nobody refers to yet changes no total. */
  lemma {:induction false} TotalNewItem(items: Items, id: string, item: WorkItem, es: seq<Entry>, s: Scope, t: Tally)
    requires id !in items && forall i :: 0 <= i < |es| ==> es[i].run.workItem in items
    ensures Total(items[id := item], es, s, t) == Total(items, es, s, t)
  {
    if es != [] { TotalNewItem(items, id, item, es[..|es| - 1], s, t); }
  }

  /** What may still be spent is at most what is spent plus one cap for each open run of the day. */
  lemma {:induction false} ExposureSplit(items: Items, es: seq<Entry>, s: Scope, day: int, cap: nat)
    requires forall i :: 0 <= i < |es| && InScope(items, es[i].run, s) ==> Allowance(es[i]) <= cap
    ensures Total(items, es, s, Exposure(day))
         <= Total(items, es, s, Spent(day)) + cap * (Total(items, es, s, Live) + Total(items, es, s, LateOn(day)))
  {
    if es != [] {
      var n := |es| - 1;
      ExposureSplit(items, es[..n], s, day, cap);
      var e := es[n];
      var open := Share(items, e, s, Live) + Share(items, e, s, LateOn(day));
      assert Share(items, e, s, Exposure(day)) <= Share(items, e, s, Spent(day)) + cap * open by {
        if InScope(items, e.run, s) && e.run.day == day && e.open {
          assert open == 1;
        }
      }
      var before := Total(items, es[..n], s, Live) + Total(items, es[..n], s, LateOn(day));
      assert cap * (before + open) == cap * before + cap * open;
    }
  }

  /** Money already spent is part of the exposure, up to what went beyond the estimates. */
  lemma {:induction false} SpentWithinExposure(items: Items, es: seq<Entry>, s: Scope, day: int)
    requires forall i :: 0 <= i < |es| ==> CostOf(es[i].run) < COST_BOUND
    ensures Total(items, es, s, Spent(day)) <= Total(items, es, s, Exposure(day)) + Total(items, es, s, Excess(day))
  {
    if es != [] { SpentWithinExposure(items, es[..|es| - 1], s, day); }
  }

  lemma {:induction false} NoExcess(items: Items, es: seq<Entry>, s: Scope, day: int)
    requires forall i :: 0 <= i < |es| ==> CostOf(es[i].run) <= es[i].estimate
    ensures Total(items, es, s, Excess(day)) == 0
  {
    if es != [] { NoExcess(items, es[..|es| - 1], s, day); }
  }

  // ---------------------------------------------------------------- the invariant

  /** The most that one admitted run can spend within its estimate: neither limit may be passed, and the column has to
      hold it. */
  function Cap(limits: Limits): nat {
    Min(Min(limits.perTaskCost, limits.dailyCost), COST_BOUND - 1)
  }

  function Ceiling(limits: Limits, late: nat): nat
    requires limits.concurrency > 0
  {
    limits.dailyCost + (limits.concurrency - 1 + late) * Cap(limits)
  }

  /** A scope whose policy is enforced: enabled, and under an id that is looked up. */
  predicate Enforced(policies: Policies, s: Scope) {
    InForce(policies, s) && LookedUp(s)
  }

  ghost predicate WellFormed(s: System) {
    && (forall i :: 0 <= i < |s.entries| ==> s.entries[i].run.workItem in s.items)
    && (forall i :: 0 <= i < |s.entries| ==> CostOf(s.entries[i].run) < COST_BOUND)
    && (forall i :: 0 <= i < |s.entries| && Active(s.entries[i].run.status) ==> s.entries[i].open)
  }

  ghost predicate ScopeOk(limits: Limits, late: nat, s: System, sc: Scope, day: int)
    requires limits.concurrency > 0
  {
    && (forall i :: 0 <= i < |s.entries| && InScope(s.items, s.entries[i].run, sc) ==>
        Allowance(s.entries[i]) <= Cap(limits))
    && Total(s.items, s.entries, sc, Live) <= limits.concurrency
    && Total(s.items, s.entries, sc, Exposure(day)) <= Ceiling(limits, late)
  }

  /** A step that rewrites one entry moves a total by the difference of its two shares. */
  lemma EntryChange(items: Items, es: seq<Entry>, i: nat, e: Entry, sc: Scope, day: int)
    requires i < |es|
    requires e.run.workItem == es[i].run.workItem && e.run.agent == es[i].run.agent && e.run.day == es[i].run.day
    requires EntryWeight(e, Live) <= EntryWeight(es[i], Live)
    requires EntryWeight(e, Exposure(day)) <= EntryWeight(es[i], Exposure(day))
    ensures Total(items, es[i := e], sc, Live) <= Total(items, es, sc, Live)
    ensures Total(items, es[i := e], sc, Exposure(day)) <= Total(items, es, sc, Exposure(day))
  {
    TotalUpdate(items, es, i, e, sc, Live);
    TotalUpdate(items, es, i, e, sc, Exposure(day));
  }

  /** A run that passes the four tests of a scope keeps the scope's invariant. */
  lemma InsertKeeps(limits: Limits, late: nat, s: System, e: Entry, sc: Scope, day: int)
    requires limits.concurrency > 0 && ScopeOk(limits, late, s, sc, day) && e.open
    requires InScope(s.items, e.run, sc) ==>
               && Allowance(e) <= Cap(limits)
               && Total(s.items, s.entries, sc, Spent(e.run.day)) + e.estimate <= limits.dailyCost
               && Total(s.items, s.entries, sc, Live) < limits.concurrency
               && Total(s.items, s.entries, sc, LateOn(e.run.day)) <= late
    ensures ScopeOk(limits, late, s.(entries := s.entries + [e]), sc, day)
  {
    LiveInsert(s.items, s.entries, e, sc, limits.concurrency);
    ExposureInsert(limits, late, s.items, s.entries, e, sc, day);
    AllowancesInsert(s.items, s.entries, e, sc, Cap(limits));
  }

  lemma LiveInsert(items: Items, es: seq<Entry>, e: Entry, sc: Scope, slots: nat)
    requires Total(items, es, sc, Live) <= slots
    requires InScope(items, e.run, sc) ==> Total(items, es, sc, Live) < slots
    ensures Total(items, es + [e], sc, Live) <= slots
  {
    TotalInsert(items, es, e, sc, Live);
  }

  lemma AllowancesInsert(items: Items, es: seq<Entry>, e: Entry, sc: Scope, cap: nat)
    requires forall i :: 0 <= i < |es| && InScope(items, es[i].run, sc) ==> Allowance(es[i]) <= cap
    requires InScope(items, e.run, sc) ==> Allowance(e) <= cap
    ensures var fs := es + [e];
            forall i :: 0 <= i < |fs| && InScope(items, fs[i].run, sc) ==> Allowance(fs[i]) <= cap
  {
  }

  lemma ExposureInsert(limits: Limits, late: nat, items: Items, es: seq<Entry>, e: Entry, sc: Scope, day: int)
    requires limits.concurrency > 0 && e.open && Total(items, es, sc, Exposure(day)) <= Ceiling(limits, late)
    requires forall i :: 0 <= i < |es| && InScope(items, es[i].run, sc) ==> Allowance(es[i]) <= Cap(limits)
    requires InScope(items, e.run, sc) ==>
               && Total(items, es, sc, Spent(e.run.day)) + e.estimate <= limits.dailyCost
               && Total(items, es, sc, Live) < limits.concurrency
               && Total(items, es, sc, LateOn(e.run.day)) <= late
    ensures Total(items, es + [e], sc, Exposure(day)) <= Ceiling(limits, late)
  {
    TotalInsert(items, es, e, sc, Exposure(day));
    if InScope(items, e.run, sc) && e.run.day == day {
      RoomForOne(limits, late, items, es, sc, day);
    }
  }

  /** With a slot free and the late costs within their bound, the exposure leaves room for what the daily limit
      leaves. */
  lemma RoomForOne(limits: Limits, late: nat, items: Items, es: seq<Entry>, sc: Scope, day: int)
    requires limits.concurrency > 0
    requires forall i :: 0 <= i < |es| && InScope(items, es[i].run, sc) ==> Allowance(es[i]) <= Cap(limits)
    requires Total(items, es, sc, Live) < limits.concurrency && Total(items, es, sc, LateOn(day)) <= late
    ensures Total(items, es, sc, Exposure(day)) - Total(items, es, sc, Spent(day))
            <= Ceiling(limits, late) - limits.dailyCost
  {
    ExposureSplit(items, es, sc, day, Cap(limits));
    var open := Total(items, es, sc, Live) + Total(items, es, sc, LateOn(day));
    Scale(Cap(limits), open, limits.concurrency - 1 + late);
  }

  lemma AdmitKeeps(policies: Policies, late: nat, s: System, req: Request, on: int, s': System, sc: Scope, day: int)
    requires Checked(policies) && Enforced(policies, sc)
    requires WellFormed(s) && ScopeOk(policies[sc].limits, late, s, sc, day)
    requires Next(policies, late, s, Admit(req, on), s') && (Faithful(s.items, req) || Intrinsic(sc))
    ensures WellFormed(s') && ScopeOk(policies[sc].limits, late, s', sc, day)
  {
    var e := Entry(NewRun(req, on), CostEstimate(req), true);
    if InScope(s.items, e.run, sc) {
      AlignedAnyway(s.items, req, on, sc);
      assert !Blocks(s.items, RowsOf(s.entries), policies, sc, req, on);
      TotalIsAggregate(s.items, s.entries, sc, on);
    }
    InsertKeeps(policies[sc].limits, late, s, e, sc, day);
  }

  lemma Scale(c: nat, a: nat, b: nat)
    requires a <= b
    ensures c * a <= b * c
  {
  }

  /** A step that rewrites one entry without raising its shares keeps the invariant. */
  lemma RewriteKeeps(limits: Limits, late: nat, s: System, i: nat, e: Entry, sc: Scope, day: int)
    requires limits.concurrency > 0 && WellFormed(s) && ScopeOk(limits, late, s, sc, day) && i < |s.entries|
    requires e.run.workItem == s.entries[i].run.workItem && e.run.agent == s.entries[i].run.agent
    requires e.run.day == s.entries[i].run.day && e.estimate == s.entries[i].estimate
    requires CostOf(e.run) < COST_BOUND
    requires Active(e.run.status) ==> Active(s.entries[i].run.status) && e.open
    requires e.open == s.entries[i].open || !e.open
    requires !e.open && !s.entries[i].open ==> CostOf(e.run) <= CostOf(s.entries[i].run)
    ensures WellFormed(s.(entries := s.entries[i := e]))
            && ScopeOk(limits, late, s.(entries := s.entries[i := e]), sc, day)
  {
    EntryChange(s.items, s.entries, i, e, sc, day);
  }

  lemma StepKeeps(policies: Policies, late: nat, s: System, step: Step, s': System, sc: Scope, day: int)
    requires Checked(policies) && Enforced(policies, sc)
    requires WellFormed(s) && ScopeOk(policies[sc].limits, late, s, sc, day)
    requires Next(policies, late, s, step, s') && (WithinTruth(s, step) || Intrinsic(sc))
    ensures WellFormed(s') && ScopeOk(policies[sc].limits, late, s', sc, day)
  {
    match step {
      case NewWorkItem(id, item) =>
        TotalNewItem(s.items, id, item, s.entries, sc, Live);
        TotalNewItem(s.items, id, item, s.entries, sc, Exposure(day));
      case Admit(req, on) =>
        AdmitKeeps(policies, late, s, req, on, s', sc, day);
      case Update(i, w) =>
        RewriteKeeps(policies[sc].limits, late, s, i, s.entries[i].(run := Apply(s.entries[i].run, w)), sc, day);
      case Begin(i, at) =>
        RewriteKeeps(policies[sc].limits, late, s, i,
                     s.entries[i].(run := s.entries[i].run.(status := Running, startedAt := Some(at))), sc, day);
      case Close(i) =>
        RewriteKeeps(policies[sc].limits, late, s, i, s.entries[i].(open := false), sc, day);
    }
  }

  lemma {:induction false} ExecutionKeeps(policies: Policies, late: nat, ss: seq<System>, steps: seq<Step>, k: nat,
                                          sc: Scope, day: int)
    requires Checked(policies) && Enforced(policies, sc) && Execution(policies, late, ss, steps) && k < |ss|
    requires Truthful(ss, steps) || Intrinsic(sc)
    ensures WellFormed(ss[k]) && ScopeOk(policies[sc].limits, late, ss[k], sc, day)
  {
    if k > 0 {
      ExecutionKeeps(policies, late, ss, steps, k - 1, sc, day);
      assert Truthful(ss, steps) ==> WithinTruth(ss[k - 1], steps[k - 1]);
      StepKeeps(policies, late, ss[k - 1], steps[k - 1], ss[k], sc, day);
    }
  }

  // ---------------------------------------------------------------- the theorems

  /** In every state of every execution no enforced scope has more than `concurrency_limit` active runs. */
  lemma ConcurrencySafety(policies: Policies, late: nat, ss: seq<System>, steps: seq<Step>, k: nat, sc: Scope)
    requires Checked(policies) && Enforced(policies, sc) && Execution(policies, late, ss, steps) && k < |ss|
    requires Truthful(ss, steps) || Intrinsic(sc)
    ensures ActiveCount(ss[k].items, RowsOf(ss[k].entries), sc) <= policies[sc].limits.concurrency
  {
    ExecutionKeeps(policies, late, ss, steps, k, sc, 0);
    TotalIsAggregate(ss[k].items, ss[k].entries, sc, 0);
  }

  /** Bounded overspend without any trust in estimates: in every state of every execution, the spend of an enforced
      scope on a day passes the bound by no more than what the costs of that day went beyond their estimates. */
  lemma OverspendWithExcess(policies: Policies, late: nat, ss: seq<System>, steps: seq<Step>, k: nat, sc: Scope,
                            day: int)
    requires Checked(policies) && Enforced(policies, sc) && Execution(policies, late, ss, steps) && k < |ss|
    requires Truthful(ss, steps) || Intrinsic(sc)
    ensures DailySpend(ss[k].items, RowsOf(ss[k].entries), sc, day)
            <= Ceiling(policies[sc].limits, late) + Total(ss[k].items, ss[k].entries, sc, Excess(day))
  {
    ExecutionKeeps(policies, late, ss, steps, k, sc, day);
    SpentWithinExposure(ss[k].items, ss[k].entries, sc, day);
    TotalIsAggregate(ss[k].items, ss[k].entries, sc, day);
  }

  lemma {:induction false} HonestKeeps(policies: Policies, late: nat, ss: seq<System>, steps: seq<Step>, k: nat, i: nat)
    requires Execution(policies, late, ss, steps) && Honest(ss, steps) && k < |ss| && i < |ss[k].entries|
    ensures CostOf(ss[k].entries[i].run) <= ss[k].entries[i].estimate
  {
    if k > 0 {
      assert Next(policies, late, ss[k - 1], steps[k - 1], ss[k]) && WithinEstimate(ss[k - 1], steps[k - 1]);
      if i < |ss[k - 1].entries| {
        HonestKeeps(policies, late, ss, steps, k - 1, i);
      }
    }
  }

  /** Bounded overspend, for every enforced scope and every day of every execution that records no cost beyond
      its estimate. With no late run at any admission (`late == 0`) the excess over the daily limit is at most
      one capped task for each concurrency slot but one. */
  lemma BoundedOverspend(policies: Policies, late: nat, ss: seq<System>, steps: seq<Step>, k: nat, sc: Scope, day: int)
    requires Checked(policies) && Enforced(policies, sc) && Execution(policies, late, ss, steps) && Honest(ss, steps)
             && k < |ss|
    requires Truthful(ss, steps) || Intrinsic(sc)
    ensures var limits := policies[sc].limits;
            DailySpend(ss[k].items, RowsOf(ss[k].entries), sc, day)
            <= limits.dailyCost
               + (limits.concurrency - 1 + late) * Min(Min(limits.perTaskCost, limits.dailyCost), COST_BOUND - 1)
  {
    OverspendWithExcess(policies, late, ss, steps, k, sc, day);
    forall i | 0 <= i < |ss[k].entries| ensures CostOf(ss[k].entries[i].run) <= ss[k].entries[i].estimate {
      HonestKeeps(policies, late, ss, steps, k, i);
    }
    NoExcess(ss[k].items, ss[k].entries, sc, day);
  }
}
