/** How far the guarantees of `Admission` go: the overspend bound is attained, and runs
    that break an obligation behind it, one at a time, break the guarantee. */
module AdmissionLimits {
  import opened Prelude
  import opened TaskRuns
  import opened Budget
  import opened TaskRunStore
  import opened Admission

  // ---------------------------------------------------------------- the bound is attained

  /** Some execution that records no cost beyond its estimate leads to the state; `truthful` says whether requests
      have to repeat what their work items' rows say. */
  ghost predicate ReachableBy(truthful: bool, policies: Policies, late: nat, s: System) {
    exists ss: seq<System>, steps: seq<Step> ::
      && Execution(policies, late, ss, steps) && Honest(ss, steps) && (truthful ==> Truthful(ss, steps))
      && ss[|steps|] == s
  }

  ghost predicate Reachable(policies: Policies, late: nat, s: System) {
    ReachableBy(true, policies, late, s)
  }

  lemma ReachStart(policies: Policies, late: nat)
    ensures Reachable(policies, late, INIT)
  {
    assert Execution(policies, late, [INIT], []) && Honest([INIT], []) && Truthful([INIT], []) && [INIT][0] == INIT;
  }

  lemma ReachNextBy(truthful: bool, policies: Policies, late: nat, s: System, step: Step, s': System)
    requires ReachableBy(truthful, policies, late, s) && Next(policies, late, s, step, s')
    requires WithinEstimate(s, step) && (truthful ==> WithinTruth(s, step))
    ensures ReachableBy(truthful, policies, late, s')
  {
    var ss: seq<System>, steps: seq<Step> :|
      && Execution(policies, late, ss, steps) && Honest(ss, steps) && (truthful ==> Truthful(ss, steps))
      && ss[|steps|] == s;
    var tt, more := ss + [s'], steps + [step];
    forall i | 0 <= i < |more|
      ensures Next(policies, late, tt[i], more[i], tt[i + 1]) && WithinEstimate(tt[i], more[i])
      ensures truthful ==> WithinTruth(tt[i], more[i])
    {
      if i < |steps| {
        assert tt[i] == ss[i] && tt[i + 1] == ss[i + 1] && more[i] == steps[i];
      }
    }
    assert Execution(policies, late, tt, more) && Honest(tt, more) && (truthful ==> Truthful(tt, more))
           && tt[|more|] == s';
  }

  lemma ReachNext(policies: Policies, late: nat, s: System, step: Step, s': System)
    requires Reachable(policies, late, s) && Next(policies, late, s, step, s')
    requires WithinEstimate(s, step) && WithinTruth(s, step)
    ensures Reachable(policies, late, s')
  {
    ReachNextBy(true, policies, late, s, step, s');
  }

  const G := Scope(Global, "global")
  const ONE_ITEM: Items := map["w" := WorkItem("ws", "kind")]

  function OnePolicy(limits: Limits): Policies {
    map[G := PolicyRow(limits, true)]
  }

  function Ask(est: nat): Request {
    Request("w", None, "ws", "kind", "manager", "reviewers", RiskLevel.Low, NoApproval, None, Some(est), None, map[])
  }

  function Fresh(est: nat): Entry {
    Entry(NewRun(Ask(est), 0), est, true)
  }

  /** The entry after a metrics write of its full estimate. */
  function Charged(e: Entry): Entry {
    e.(run := e.run.(traceId := Some("t"), cost := Some(e.estimate)))
  }

  /** The entry after a successful completion event. */
  function Finished(e: Entry): Entry {
    e.(run := e.run.(status := Succeeded, endedAt := Some(0)))
  }

  function Copies(e: Entry, n: nat): seq<Entry> {
    if n == 0 then [] else Copies(e, n - 1) + [e]
  }

  function SpentToday(es: seq<Entry>): nat { Total(ONE_ITEM, es, G, Spent(0)) }
  function LiveNow(es: seq<Entry>): nat { Total(ONE_ITEM, es, G, Live) }
  function LateToday(es: seq<Entry>): nat { Total(ONE_ITEM, es, G, LateOn(0)) }

  function At(es: seq<Entry>): System {
    System(ONE_ITEM, es)
  }

  lemma OneMore(n: nat, x: nat)
    requires n > 0
    ensures n * x == (n - 1) * x + x
  {
  }

  lemma {:induction false} TotalCopies(es: seq<Entry>, e: Entry, n: nat, t: Tally)
    ensures Total(ONE_ITEM, es + Copies(e, n), G, t) == Total(ONE_ITEM, es, G, t) + n * Share(ONE_ITEM, e, G, t)
  {
    if n == 0 {
      assert es + Copies(e, n) == es;
    } else {
      TotalCopies(es, e, n - 1, t);
      assert es + Copies(e, n) == (es + Copies(e, n - 1)) + [e];
      TotalInsert(ONE_ITEM, es + Copies(e, n - 1), e, G, t);
      OneMore(n, Share(ONE_ITEM, e, G, t));
    }
  }

  lemma AllowsOne(limits: Limits, rows: Rows, est: nat)
    requires DailySpend(ONE_ITEM, rows, G, 0) + est <= limits.dailyCost && est <= limits.perTaskCost
    requires ActiveCount(ONE_ITEM, rows, G) < limits.concurrency
    ensures Faithful(ONE_ITEM, Ask(est)) && Allowed(ONE_ITEM, rows, OnePolicy(limits), Ask(est), 0)
  {
  }

  lemma ReachAdmit(limits: Limits, late: nat, es: seq<Entry>, est: nat)
    requires limits.concurrency > 0 && Reachable(OnePolicy(limits), late, At(es))
    requires SpentToday(es) + est <= limits.dailyCost && est <= limits.perTaskCost
    requires LiveNow(es) < limits.concurrency && LateToday(es) <= late
    ensures Reachable(OnePolicy(limits), late, At(es + [Fresh(est)]))
  {
    TotalIsAggregate(ONE_ITEM, es, G, 0);
    AllowsOne(limits, RowsOf(es), est);
    ReachNext(OnePolicy(limits), late, At(es), Admit(Ask(est), 0), At(es + [Fresh(est)]));
  }

  lemma ReachCharge(limits: Limits, late: nat, es: seq<Entry>, i: nat)
    requires i < |es| && es[i].open && es[i].estimate < COST_BOUND && Reachable(OnePolicy(limits), late, At(es))
    ensures Reachable(OnePolicy(limits), late, At(es[i := Charged(es[i])]))
  {
    ReachNext(OnePolicy(limits), late, At(es), Update(i, Metrics(TraceMetrics("t", Some(es[i].estimate), None))),
              At(es[i := Charged(es[i])]));
  }

  lemma ReachFinish(limits: Limits, late: nat, es: seq<Entry>, i: nat)
    requires i < |es| && es[i].run.startedAt.None? && Reachable(OnePolicy(limits), late, At(es))
    ensures Reachable(OnePolicy(limits), late, At(es[i := Finished(es[i])]))
  {
    var e := CompleteEvent(i, Succeeded, None, None, None, None, false);
    ReachNext(OnePolicy(limits), late, At(es), Update(i, Complete(e, 0)), At(es[i := Finished(es[i])]));
  }

  /** The settled unit-cost run the budget is filled up with. */
  function Unit(): Entry {
    Finished(Charged(Fresh(1))).(open := false)
  }

  lemma ReachChargeLast(limits: Limits, late: nat, es: seq<Entry>, e: Entry)
    requires e.open && e.estimate < COST_BOUND && Reachable(OnePolicy(limits), late, At(es + [e]))
    ensures Reachable(OnePolicy(limits), late, At(es + [Charged(e)]))
  {
    ReachCharge(limits, late, es + [e], |es|);
    assert (es + [e])[|es| := Charged(e)] == es + [Charged(e)];
  }

  lemma ReachFinishLast(limits: Limits, late: nat, es: seq<Entry>, e: Entry)
    requires e.run.startedAt.None? && Reachable(OnePolicy(limits), late, At(es + [e]))
    ensures Reachable(OnePolicy(limits), late, At(es + [Finished(e)]))
  {
    ReachFinish(limits, late, es + [e], |es|);
    assert (es + [e])[|es| := Finished(e)] == es + [Finished(e)];
  }

  lemma ReachCloseLast(limits: Limits, late: nat, es: seq<Entry>, e: Entry)
    requires !Active(e.run.status) && Reachable(OnePolicy(limits), late, At(es + [e]))
    ensures Reachable(OnePolicy(limits), late, At(es + [e.(open := false)]))
  {
    var next := es + [e.(open := false)];
    assert (es + [e])[|es| := e.(open := false)] == next;
    ReachNext(OnePolicy(limits), late, At(es + [e]), Close(|es|), At(next));
  }

  /** One more unit-cost run, admitted, charged, finished and closed with nothing in between. */
  lemma FillOne(limits: Limits, late: nat, es: seq<Entry>)
    requires limits.concurrency > 0 && limits.perTaskCost > 0 && Reachable(OnePolicy(limits), late, At(es))
    requires SpentToday(es) < limits.dailyCost && LiveNow(es) == 0 && LateToday(es) <= late
    ensures Reachable(OnePolicy(limits), late, At(es + [Unit()]))
  {
    ReachAdmit(limits, late, es, 1);
    Settle(limits, late, es, Fresh(1));
  }

  lemma Settle(limits: Limits, late: nat, es: seq<Entry>, e: Entry)
    requires e.open && e.estimate < COST_BOUND && e.run.startedAt.None?
    requires Reachable(OnePolicy(limits), late, At(es + [e]))
    ensures Reachable(OnePolicy(limits), late, At(es + [Finished(Charged(e)).(open := false)]))
  {
    ReachChargeLast(limits, late, es, e);
    ReachFinishLast(limits, late, es, Charged(e));
    ReachCloseLast(limits, late, es, Finished(Charged(e)));
  }

  lemma UnitWeights()
    ensures Unit().run.workItem == "w"
    ensures EntryWeight(Unit(), Spent(0)) == 1 && EntryWeight(Unit(), Live) == 0 && EntryWeight(Unit(), LateOn(0)) == 0
  {
  }

  lemma FillTotals(n: nat)
    ensures SpentToday(Copies(Unit(), n)) == n && LiveNow(Copies(Unit(), n)) == 0 && LateToday(Copies(Unit(), n)) == 0
  {
    UnitWeights();
    LoneTotals(Unit(), n);
  }

  lemma LoneTotals(e: Entry, n: nat)
    requires e.run.workItem == "w"
    ensures SpentToday(Copies(e, n)) == n * EntryWeight(e, Spent(0))
    ensures LiveNow(Copies(e, n)) == n * EntryWeight(e, Live)
    ensures LateToday(Copies(e, n)) == n * EntryWeight(e, LateOn(0))
  {
    CopiesTotals([], e, n);
    assert [] + Copies(e, n) == Copies(e, n);
  }

  lemma ReachItem(policies: Policies, late: nat)
    ensures Reachable(policies, late, At([]))
  {
    ReachStart(policies, late);
    ReachNext(policies, late, INIT, NewWorkItem("w", WorkItem("ws", "kind")), At([]));
  }

  lemma {:induction false} Fill(limits: Limits, late: nat, n: nat)
    requires limits.concurrency > 0 && limits.perTaskCost > 0 && n <= limits.dailyCost
    ensures Reachable(OnePolicy(limits), late, At(Copies(Unit(), n)))
  {
    if n == 0 {
      ReachItem(OnePolicy(limits), late);
    } else {
      var es := Copies(Unit(), n - 1);
      Fill(limits, late, n - 1);
      FillTotals(n - 1);
      FillOne(limits, late, es);
    }
  }

  lemma CopiesTotals(es: seq<Entry>, e: Entry, n: nat)
    requires e.run.workItem == "w"
    ensures SpentToday(es + Copies(e, n)) == SpentToday(es) + n * EntryWeight(e, Spent(0))
    ensures LiveNow(es + Copies(e, n)) == LiveNow(es) + n * EntryWeight(e, Live)
    ensures LateToday(es + Copies(e, n)) == LateToday(es) + n * EntryWeight(e, LateOn(0))
  {
    TotalCopies(es, e, n, Spent(0));
    TotalCopies(es, e, n, Live);
    TotalCopies(es, e, n, LateOn(0));
  }

  lemma FreshTotals(es: seq<Entry>, est: nat, n: nat)
    ensures SpentToday(es + Copies(Fresh(est), n)) == SpentToday(es)
    ensures LiveNow(es + Copies(Fresh(est), n)) == LiveNow(es) + n
    ensures LateToday(es + Copies(Fresh(est), n)) == LateToday(es)
  {
    CopiesTotals(es, Fresh(est), n);
  }

  lemma FinishedTotals(es: seq<Entry>, est: nat, n: nat)
    ensures SpentToday(es + Copies(Finished(Fresh(est)), n)) == SpentToday(es)
    ensures LiveNow(es + Copies(Finished(Fresh(est)), n)) == LiveNow(es)
    ensures LateToday(es + Copies(Finished(Fresh(est)), n)) == LateToday(es) + n
  {
    CopiesTotals(es, Finished(Fresh(est)), n);
  }

  /** `n` further runs that finish before anyone asks Langfuse for their cost. */
  lemma {:induction false} AddLate(limits: Limits, late: nat, es: seq<Entry>, n: nat)
    requires limits.concurrency > 0 && Reachable(OnePolicy(limits), late, At(es)) && n <= late
    requires SpentToday(es) + Cap(limits) <= limits.dailyCost
    requires LiveNow(es) == 0 && LateToday(es) == 0
    ensures Reachable(OnePolicy(limits), late, At(es + Copies(Finished(Fresh(Cap(limits))), n)))
  {
    var c := Fresh(Cap(limits));
    if n == 0 {
      assert es + Copies(Finished(c), 0) == es;
    } else {
      AddLate(limits, late, es, n - 1);
      FinishedTotals(es, Cap(limits), n - 1);
      var before := es + Copies(Finished(c), n - 1);
      ReachAdmit(limits, late, before, Cap(limits));
      ReachFinishLast(limits, late, before, c);
      assert before + [Finished(c)] == es + Copies(Finished(c), n);
    }
  }

  /** `n` further runs in flight at the same time. */
  lemma {:induction false} AddLive(limits: Limits, late: nat, es: seq<Entry>, n: nat)
    requires limits.concurrency >= n && limits.concurrency > 0 && Reachable(OnePolicy(limits), late, At(es))
    requires SpentToday(es) + Cap(limits) <= limits.dailyCost
    requires LiveNow(es) == 0 && LateToday(es) <= late
    ensures Reachable(OnePolicy(limits), late, At(es + Copies(Fresh(Cap(limits)), n)))
  {
    var c := Fresh(Cap(limits));
    if n == 0 {
      assert es + Copies(c, 0) == es;
    } else {
      AddLive(limits, late, es, n - 1);
      FreshTotals(es, Cap(limits), n - 1);
      ReachAdmit(limits, late, es + Copies(c, n - 1), Cap(limits));
      assert es + Copies(c, n - 1) + [c] == es + Copies(c, n);
    }
  }

  /** Every open run among the last `n` is charged in full. */
  lemma {:induction false} ChargeAll(limits: Limits, late: nat, es: seq<Entry>, e: Entry, n: nat, tail: seq<Entry>)
    requires e.open && e.estimate < COST_BOUND
    requires Reachable(OnePolicy(limits), late, At(es + Copies(e, n) + tail))
    ensures Reachable(OnePolicy(limits), late, At(es + Copies(Charged(e), n) + tail))
  {
    if n == 0 {
      assert es + Copies(e, 0) + tail == es + Copies(Charged(e), 0) + tail;
    } else {
      var head := es + Copies(e, n - 1);
      assert es + Copies(e, n) + tail == head + [e] + tail;
      ReachCharge(limits, late, head + [e] + tail, |head|);
      assert (head + [e] + tail)[|head| := Charged(e)] == head + ([Charged(e)] + tail);
      ChargeAll(limits, late, es, e, n - 1, [Charged(e)] + tail);
      assert es + Copies(Charged(e), n) + tail == es + Copies(Charged(e), n - 1) + ([Charged(e)] + tail);
    }
  }

  /** The overspend bound is the best possible: for any limits and any number of late runs there is
      an execution in which the global spend of a day equals it. In particular the daily limit
      itself is kept by all executions only without concurrency and without late costs. */
  lemma BoundAttained(limits: Limits, late: nat)
    requires limits.concurrency > 0 && limits.perTaskCost > 0
    ensures exists s :: Reachable(OnePolicy(limits), late, s)
              && DailySpend(s.items, RowsOf(s.entries), G, 0)
                 == limits.dailyCost
                    + (limits.concurrency - 1 + late) * Min(Min(limits.perTaskCost, limits.dailyCost), COST_BOUND - 1)
  {
    WorstCaseReached(limits, late);
    WorstCaseSpend(limits, late);
    TotalIsAggregate(ONE_ITEM, WorstCase(limits, late), G, 0);
    assert Reachable(OnePolicy(limits), late, At(WorstCase(limits, late)));
  }

  /** The budget filled up to one cap, then all late runs, then every slot taken at once, all charged in full. */
  function WorstCase(limits: Limits, late: nat): seq<Entry> {
    var c := Fresh(Cap(limits));
    Copies(Unit(), limits.dailyCost - Cap(limits)) + Copies(Charged(Finished(c)), late)
        + Copies(Charged(c), limits.concurrency)
  }

  lemma WorstCaseSpend(limits: Limits, late: nat)
    requires limits.concurrency > 0
    ensures SpentToday(WorstCase(limits, late)) == limits.dailyCost + (limits.concurrency - 1 + late) * Cap(limits)
  {
    var c, base := Fresh(Cap(limits)), Copies(Unit(), limits.dailyCost - Cap(limits));
    FillTotals(limits.dailyCost - Cap(limits));
    CopiesTotals(base, Charged(Finished(c)), late);
    CopiesTotals(base + Copies(Charged(Finished(c)), late), Charged(c), limits.concurrency);
    Spread(limits.concurrency, late, Cap(limits));
  }

  lemma Spread(a: nat, b: nat, c: nat)
    requires a > 0
    ensures (a - 1 + b) * c == a * c + b * c - c
  {
  }

  lemma WorstCaseReached(limits: Limits, late: nat)
    requires limits.concurrency > 0 && limits.perTaskCost > 0
    ensures Reachable(OnePolicy(limits), late, At(WorstCase(limits, late)))
  {
    var n: nat := limits.dailyCost - Cap(limits);
    Fill(limits, late, n);
    FillTotals(n);
    AddRuns(limits, late, Copies(Unit(), n));
    ChargeWorstCase(limits, late, Copies(Unit(), n), Fresh(Cap(limits)));
  }

  lemma AddRuns(limits: Limits, late: nat, base: seq<Entry>)
    requires limits.concurrency > 0 && Reachable(OnePolicy(limits), late, At(base))
    requires SpentToday(base) + Cap(limits) <= limits.dailyCost && LiveNow(base) == 0 && LateToday(base) == 0
    ensures Reachable(OnePolicy(limits), late,
                      At(base + Copies(Finished(Fresh(Cap(limits))), late)
                          + Copies(Fresh(Cap(limits)), limits.concurrency)))
  {
    var c := Fresh(Cap(limits));
    AddLate(limits, late, base, late);
    FinishedTotals(base, Cap(limits), late);
    AddLive(limits, late, base + Copies(Finished(c), late), limits.concurrency);
  }

  lemma ChargeWorstCase(limits: Limits, late: nat, base: seq<Entry>, c: Entry)
    requires c.open && c.estimate < COST_BOUND
    requires Reachable(OnePolicy(limits), late, At(base + Copies(Finished(c), late) + Copies(c, limits.concurrency)))
    ensures Reachable(OnePolicy(limits), late,
                      At(base + Copies(Charged(Finished(c)), late) + Copies(Charged(c), limits.concurrency)))
  {
    var mid, live := base + Copies(Finished(c), late), Copies(Charged(c), limits.concurrency);
    assert mid + Copies(c, limits.concurrency) + [] == mid + Copies(c, limits.concurrency);
    ChargeAll(limits, late, mid, c, limits.concurrency, []);
    assert mid + live + [] == mid + live;
    ChargeAll(limits, late, base, Finished(c), late, live);
  }

  /** The daily limit of a lone global policy is kept by every execution exactly when there is
      one slot and no late cost, or nothing can be spent at all. */
  lemma DailyLimitExact(limits: Limits, late: nat)
    requires limits.concurrency > 0 && limits.tokensPerTask > 0
    ensures (forall s :: Reachable(OnePolicy(limits), late, s) ==>
                DailySpend(s.items, RowsOf(s.entries), G, 0) <= limits.dailyCost)
        <==> (limits.concurrency == 1 && late == 0) || limits.perTaskCost == 0 || limits.dailyCost == 0
  {
    var extra := limits.concurrency - 1 + late;
    if extra == 0 || Cap(limits) == 0 {
      Product(extra, Cap(limits));
      forall s | Reachable(OnePolicy(limits), late, s)
        ensures DailySpend(s.items, RowsOf(s.entries), G, 0) <= limits.dailyCost
      {
        ReachableBound(limits, late, s);
      }
    } else {
      BoundAttained(limits, late);
      Product(extra, Cap(limits));
    }
  }

  lemma Product(a: nat, b: nat)
    ensures a * b > 0 <==> a > 0 && b > 0
    ensures a * b >= 0
  {
  }

  lemma OnePolicyEnforced(limits: Limits)
    requires limits.concurrency > 0 && limits.tokensPerTask > 0
    ensures Checked(OnePolicy(limits)) && Enforced(OnePolicy(limits), G) && OnePolicy(limits)[G].limits == limits
  {
  }

  lemma ReachableBound(limits: Limits, late: nat, s: System)
    requires limits.concurrency > 0 && limits.tokensPerTask > 0 && Reachable(OnePolicy(limits), late, s)
    ensures DailySpend(s.items, RowsOf(s.entries), G, 0)
            <= limits.dailyCost + (limits.concurrency - 1 + late) * Cap(limits)
  {
    var p := OnePolicy(limits);
    OnePolicyEnforced(limits);
    var ss: seq<System>, steps: seq<Step> :|
      Execution(p, late, ss, steps) && Honest(ss, steps) && Truthful(ss, steps) && ss[|steps|] == s;
    BoundedOverspend(p, late, ss, steps, |steps|, G, 0);
  }

  // ---------------------------------------------------------------- costs within their estimates

  ghost predicate ReachableWithExcess(policies: Policies, late: nat, s: System) {
    exists ss: seq<System>, steps: seq<Step> ::
      Execution(policies, late, ss, steps) && Truthful(ss, steps) && ss[|steps|] == s
  }

  lemma ReachExcess(policies: Policies, late: nat, s: System, step: Step, s': System)
    requires Reachable(policies, late, s) && Next(policies, late, s, step, s') && WithinTruth(s, step)
    ensures ReachableWithExcess(policies, late, s')
  {
    var ss: seq<System>, steps: seq<Step> :|
      Execution(policies, late, ss, steps) && Honest(ss, steps) && Truthful(ss, steps) && ss[|steps|] == s;
    var tt, more := ss + [s'], steps + [step];
    forall i | 0 <= i < |more| ensures Next(policies, late, tt[i], more[i], tt[i + 1]) && WithinTruth(tt[i], more[i]) {
      if i < |steps| {
        assert tt[i] == ss[i] && tt[i + 1] == ss[i + 1] && more[i] == steps[i];
      }
    }
    assert Execution(policies, late, tt, more) && Truthful(tt, more) && tt[|more|] == s';
  }

  /** The entry after a metrics write of `x` beyond its estimate. */
  function Overcharged(e: Entry, x: nat): Entry {
    e.(run := e.run.(traceId := Some("t"), cost := Some(e.estimate + x)))
  }

  /** Costs have to stay within their estimates: for any limits and any excess `x` of a single run there is an execution
      whose global spend passes the bound by exactly `x`, which is all that `OverspendWithExcess` concedes. */
  lemma ExcessAttained(limits: Limits, late: nat, x: nat)
    requires limits.concurrency > 0 && limits.perTaskCost > 0 && Cap(limits) + x < COST_BOUND
    ensures exists s :: ReachableWithExcess(OnePolicy(limits), late, s)
              && Total(s.items, s.entries, G, Excess(0)) == x
              && DailySpend(s.items, RowsOf(s.entries), G, 0) == Ceiling(limits, late) + x
  {
    var es := WorstCase(limits, late);
    WorstCaseReached(limits, late);
    WorstCaseSpend(limits, late);
    WorstCaseExcess(limits, late);
    WorstCaseLast(limits, late);
    OverchargeLast(limits, late, es, Fresh(Cap(limits)), x);
    var s := At(es[|es| - 1 := Overcharged(Charged(Fresh(Cap(limits))), x)]);
    assert ReachableWithExcess(OnePolicy(limits), late, s);
  }

  lemma OverchargeLast(limits: Limits, late: nat, es: seq<Entry>, c: Entry, x: nat)
    requires es != [] && es[|es| - 1] == Charged(c) && c.open && c.estimate + x < COST_BOUND
    requires c.run.workItem == "w" && c.run.day == 0
    requires Reachable(OnePolicy(limits), late, At(es))
    ensures var tt := es[|es| - 1 := Overcharged(Charged(c), x)];
            && ReachableWithExcess(OnePolicy(limits), late, At(tt))
            && Total(ONE_ITEM, tt, G, Excess(0)) == Total(ONE_ITEM, es, G, Excess(0)) + x
            && DailySpend(ONE_ITEM, RowsOf(tt), G, 0) == SpentToday(es) + x
  {
    var i, d := |es| - 1, Overcharged(Charged(c), x);
    var tt := es[i := d];
    TotalUpdate(ONE_ITEM, es, i, d, G, Spent(0));
    TotalUpdate(ONE_ITEM, es, i, d, G, Excess(0));
    TotalIsAggregate(ONE_ITEM, tt, G, 0);
    ReachExcess(OnePolicy(limits), late, At(es), Update(i, Metrics(TraceMetrics("t", Some(c.estimate + x), None))),
        At(tt));
  }

  lemma WorstCaseLast(limits: Limits, late: nat)
    requires limits.concurrency > 0
    ensures WorstCase(limits, late) != []
            && WorstCase(limits, late)[|WorstCase(limits, late)| - 1] == Charged(Fresh(Cap(limits)))
  {
  }

  lemma CopiesWithin(es: seq<Entry>, e: Entry, n: nat)
    requires Beyond(e) == 0
    ensures Total(ONE_ITEM, es + Copies(e, n), G, Excess(0)) == Total(ONE_ITEM, es, G, Excess(0))
  {
    TotalCopies(es, e, n, Excess(0));
    assert Share(ONE_ITEM, e, G, Excess(0)) == 0;
  }

  lemma WorstCaseExcess(limits: Limits, late: nat)
    ensures Total(ONE_ITEM, WorstCase(limits, late), G, Excess(0)) == 0
  {
    var c, n: nat := Fresh(Cap(limits)), limits.dailyCost - Cap(limits);
    FullyCharged(c);
    FullyCharged(Finished(c));
    CopiesWithin([], Unit(), n);
    assert [] + Copies(Unit(), n) == Copies(Unit(), n);
    TwoWithin(Copies(Unit(), n), Charged(Finished(c)), late, Charged(c), limits.concurrency);
  }

  lemma FullyCharged(e: Entry)
    ensures Beyond(Charged(e)) == 0
  {
  }

  lemma TwoWithin(es: seq<Entry>, d: Entry, m: nat, e: Entry, n: nat)
    requires Beyond(d) == 0 && Beyond(e) == 0
    ensures Total(ONE_ITEM, es + Copies(d, m) + Copies(e, n), G, Excess(0)) == Total(ONE_ITEM, es, G, Excess(0))
  {
    CopiesWithin(es, d, m);
    CopiesWithin(es + Copies(d, m), e, n);
  }

  // ---------------------------------------------------------------- terminal completions

  /** A completion event may carry any status. On a table at its concurrency limit the write keeps
      the limit exactly when it does not put a finished run back to an active status. */
  lemma CompletionStatusMatters(items: Items, rows: Rows, sc: Scope, i: nat, e: CompleteEvent, endedAt: int, limit: nat)
    requires i < |rows| && InScope(items, rows[i], sc) && Accepted(rows[i], Complete(e, endedAt))
    requires ActiveCount(items, rows, sc) == limit
    ensures ActiveCount(items, UpdateRows(rows, i, Complete(e, endedAt), NoFault), sc) <= limit
        <==> !Active(e.status) || Active(rows[i].status)
  {
    AggregateUpdate(items, rows, i, Apply(rows[i], Complete(e, endedAt)), sc, ActiveNow);
  }

  /** `n` further runs without cost, all in flight. */
  lemma {:induction false} AddIdle(limits: Limits, late: nat, es: seq<Entry>, n: nat)
    requires n <= limits.concurrency && limits.concurrency > 0 && Reachable(OnePolicy(limits), late, At(es))
    requires SpentToday(es) == 0 && LiveNow(es) == 0 && LateToday(es) == 0
    ensures Reachable(OnePolicy(limits), late, At(es + Copies(Fresh(0), n)))
  {
    if n == 0 {
      assert es + Copies(Fresh(0), 0) == es;
    } else {
      AddIdle(limits, late, es, n - 1);
      FreshTotals(es, 0, n - 1);
      ReachAdmit(limits, late, es + Copies(Fresh(0), n - 1), 0);
      assert es + Copies(Fresh(0), n - 1) + [Fresh(0)] == es + Copies(Fresh(0), n);
    }
  }

  function Idle(): Entry {
    Finished(Fresh(0)).(open := false)
  }

  lemma IdleTotals()
    ensures SpentToday([Idle()]) == 0 && LiveNow([Idle()]) == 0 && LateToday([Idle()]) == 0
  {
    LoneTotals(Idle(), 1);
    assert Copies(Idle(), 1) == [Idle()];
  }

  lemma FreshAlone(n: nat)
    ensures SpentToday(Copies(Fresh(0), n)) == 0 && LiveNow(Copies(Fresh(0), n)) == n
            && LateToday(Copies(Fresh(0), n)) == 0
  {
    FreshTotals([], 0, n);
    assert [] + Copies(Fresh(0), n) == Copies(Fresh(0), n);
  }

  lemma ReachIdle(limits: Limits, late: nat)
    requires limits.concurrency > 0
    ensures Reachable(OnePolicy(limits), late, At([Idle()]))
  {
    ReachItem(OnePolicy(limits), late);
    ReachAdmit(limits, late, [], 0);
    assert [] + [Fresh(0)] == [Fresh(0)];
    ReachFinishLast(limits, late, [], Fresh(0));
    ReachCloseLast(limits, late, [], Finished(Fresh(0)));
    assert [] + [Idle()] == [Idle()];
  }

  /** A table at its limit, with a finished run in its first row. */
  function FullTable(limits: Limits): seq<Entry> {
    [Idle()] + Copies(Fresh(0), limits.concurrency)
  }

  lemma ReachFullTable(limits: Limits, late: nat)
    requires limits.concurrency > 0
    ensures Reachable(OnePolicy(limits), late, At(FullTable(limits)))
    ensures ActiveCount(ONE_ITEM, RowsOf(FullTable(limits)), G) == limits.concurrency
  {
    ReachIdle(limits, late);
    IdleTotals();
    AddIdle(limits, late, [Idle()], limits.concurrency);
    FreshTotals([Idle()], 0, limits.concurrency);
    TotalIsAggregate(ONE_ITEM, FullTable(limits), G, 0);
  }

  /** Completions have to be terminal: for any limits some reachable table is at its limit and holds a finished
      run, which an accepted "running" event brings back over the limit. */
  lemma CompletionBreaksLimit(limits: Limits, late: nat) returns (rows: Rows, w: Write)
    requires limits.concurrency > 0
    ensures Reachable(OnePolicy(limits), late, At(FullTable(limits))) && rows == RowsOf(FullTable(limits))
    ensures rows != [] && !Active(rows[0].status) && ActiveCount(ONE_ITEM, rows, G) == limits.concurrency
    ensures w.Complete? && Accepted(rows[0], w)
            && ActiveCount(ONE_ITEM, UpdateRows(rows, 0, w, NoFault), G) == limits.concurrency + 1
  {
    ReachFullTable(limits, late);
    rows := RowsOf(FullTable(limits));
    w := Complete(CompleteEvent(0, Running, None, None, None, None, false), 0);
    AggregateUpdate(ONE_ITEM, rows, 0, Apply(rows[0], w), G, ActiveNow);
  }

  // ---------------------------------------------------------------- admission in one step

  /** Admission has to be atomic. Of two requests that the same table allows, both fit exactly when two slots were
      free. */
  lemma StaleEvaluation(items: Items, rows: Rows, policies: Policies, a: Request, b: Request, day: int, sc: Scope)
    requires Faithful(items, a) && Faithful(items, b) && Enforced(policies, sc)
    requires sc in ScopesOf(a) && sc in ScopesOf(b)
    requires Allowed(items, rows, policies, a, day) && Allowed(items, rows, policies, b, day)
    ensures ActiveCount(items, rows + [NewRun(a, day)] + [NewRun(b, day)], sc) <= policies[sc].limits.concurrency
        <==> ActiveCount(items, rows, sc) + 2 <= policies[sc].limits.concurrency
    ensures ActiveCount(items, rows, sc) + 1 <= policies[sc].limits.concurrency
  {
    ScopeAlignment(items, a, day);
    ScopeAlignment(items, b, day);
    AggregateInsert(items, rows, NewRun(a, day), sc, ActiveNow);
    AggregateInsert(items, rows + [NewRun(a, day)], NewRun(b, day), sc, ActiveNow);
    assert !Blocks(items, rows, policies, sc, a, day);
  }

  lemma TwoMore(rows: Rows)
    ensures ActiveCount(ONE_ITEM, rows + [NewRun(Ask(0), 0)] + [NewRun(Ask(0), 0)], G)
            == ActiveCount(ONE_ITEM, rows, G) + 2
  {
    AggregateInsert(ONE_ITEM, rows, NewRun(Ask(0), 0), G, ActiveNow);
    AggregateInsert(ONE_ITEM, rows + [NewRun(Ask(0), 0)], NewRun(Ask(0), 0), G, ActiveNow);
  }

  /** A table with `n` slots taken and nothing spent. */
  lemma IdleTable(limits: Limits, late: nat, n: nat)
    requires n <= limits.concurrency && limits.concurrency > 0
    ensures Reachable(OnePolicy(limits), late, At(Copies(Fresh(0), n)))
    ensures DailySpend(ONE_ITEM, RowsOf(Copies(Fresh(0), n)), G, 0) == 0
    ensures ActiveCount(ONE_ITEM, RowsOf(Copies(Fresh(0), n)), G) == n
  {
    ReachItem(OnePolicy(limits), late);
    AddIdle(limits, late, [], n);
    assert [] + Copies(Fresh(0), n) == Copies(Fresh(0), n);
    FreshAlone(n);
    TotalIsAggregate(ONE_ITEM, Copies(Fresh(0), n), G, 0);
  }

  /** One free slot is enough to allow both: for any limits some reachable table has exactly one free slot and
      allows two requests, whose runs together pass the limit. */
  lemma OneSlotAllowsBoth(limits: Limits, late: nat) returns (es: seq<Entry>)
    requires limits.concurrency > 0
    ensures Reachable(OnePolicy(limits), late, At(es))
    ensures ActiveCount(ONE_ITEM, RowsOf(es), G) + 1 == limits.concurrency
    ensures Faithful(ONE_ITEM, Ask(0)) && Allowed(ONE_ITEM, RowsOf(es), OnePolicy(limits), Ask(0), 0)
    ensures ActiveCount(ONE_ITEM, RowsOf(es) + [NewRun(Ask(0), 0)] + [NewRun(Ask(0), 0)], G) == limits.concurrency + 1
  {
    es := Copies(Fresh(0), limits.concurrency - 1);
    IdleTable(limits, late, limits.concurrency - 1);
    AllowsOne(limits, RowsOf(es), 0);
    TwoMore(RowsOf(es));
  }

  // ---------------------------------------------------------------- policies nobody looks up

  /** A table with one policy. */
  function LonePolicy(sc: Scope, limits: Limits): Policies {
    map[sc := PolicyRow(limits, true)]
  }

  /** A free request for work item "w". */
  function AskFor(workspace: string, kind: string): Request {
    Ask(0).(workspaceId := workspace, workItemKind := kind)
  }

  function IdleEntry(req: Request): Entry {
    Entry(NewRun(req, 0), 0, true)
  }

  function OneItem(item: WorkItem): Items {
    map["w" := item]
  }

  lemma {:induction false} UnseenTotals(items: Items, req: Request, n: nat, sc: Scope)
    requires InScope(items, NewRun(req, 0), sc)
    ensures Total(items, Copies(IdleEntry(req), n), sc, Live) == n
    ensures Total(items, Copies(IdleEntry(req), n), sc, LateOn(0)) == 0
  {
    if n > 0 {
      UnseenTotals(items, req, n - 1, sc);
      TotalInsert(items, Copies(IdleEntry(req), n - 1), IdleEntry(req), sc, Live);
      TotalInsert(items, Copies(IdleEntry(req), n - 1), IdleEntry(req), sc, LateOn(0));
    }
  }

  lemma NobodyLooks(sc: Scope, limits: Limits, items: Items, rows: Rows, workspace: string, kind: string)
    requires sc !in ScopesOf(AskFor(workspace, kind))
    ensures Allowed(items, rows, LonePolicy(sc, limits), AskFor(workspace, kind), 0)
  {
  }

  lemma AdmitUnseen(sc: Scope, limits: Limits, late: nat, items: Items, workspace: string, kind: string, es: seq<Entry>)
    requires sc !in ScopesOf(AskFor(workspace, kind)) && "w" in items && Total(items, es, sc, LateOn(0)) == 0
    ensures var req := AskFor(workspace, kind);
            Next(LonePolicy(sc, limits), late, System(items, es), Admit(req, 0), System(items, es + [IdleEntry(req)]))
  {
    NobodyLooks(sc, limits, items, RowsOf(es), workspace, kind);
  }

  lemma ReachOneItem(policies: Policies, late: nat, item: WorkItem)
    ensures Reachable(policies, late, System(OneItem(item), []))
  {
    ReachStart(policies, late);
    ReachNext(policies, late, INIT, NewWorkItem("w", item), System(OneItem(item), []));
  }

  lemma Weaken(truthful: bool, policies: Policies, late: nat, s: System)
    requires Reachable(policies, late, s)
    ensures ReachableBy(truthful, policies, late, s)
  {
    var ss: seq<System>, steps: seq<Step> :|
      Execution(policies, late, ss, steps) && Honest(ss, steps) && Truthful(ss, steps) && ss[|steps|] == s;
  }

  /** Nothing stops admissions when no request looks the policy up. */
  lemma {:induction false} AdmitForever(truthful: bool, sc: Scope, limits: Limits, late: nat, item: WorkItem,
                                        workspace: string, kind: string, n: nat)
    requires sc !in ScopesOf(AskFor(workspace, kind))
    requires InScope(OneItem(item), NewRun(AskFor(workspace, kind), 0), sc)
    requires truthful ==> Faithful(OneItem(item), AskFor(workspace, kind))
    ensures ReachableBy(truthful, LonePolicy(sc, limits), late,
                        System(OneItem(item), Copies(IdleEntry(AskFor(workspace, kind)), n)))
  {
    if n == 0 {
      ReachOneItem(LonePolicy(sc, limits), late, item);
      Weaken(truthful, LonePolicy(sc, limits), late, System(OneItem(item), []));
    } else {
      AdmitForever(truthful, sc, limits, late, item, workspace, kind, n - 1);
      AdmitNext(truthful, sc, limits, late, item, workspace, kind, n - 1);
    }
  }

  lemma AdmitNext(truthful: bool, sc: Scope, limits: Limits, late: nat, item: WorkItem,
                  workspace: string, kind: string, n: nat)
    requires sc !in ScopesOf(AskFor(workspace, kind))
    requires InScope(OneItem(item), NewRun(AskFor(workspace, kind), 0), sc)
    requires truthful ==> Faithful(OneItem(item), AskFor(workspace, kind))
    requires ReachableBy(truthful, LonePolicy(sc, limits), late,
                         System(OneItem(item), Copies(IdleEntry(AskFor(workspace, kind)), n)))
    ensures ReachableBy(truthful, LonePolicy(sc, limits), late,
                        System(OneItem(item), Copies(IdleEntry(AskFor(workspace, kind)), n + 1)))
  {
    var req := AskFor(workspace, kind);
    UnseenTotals(OneItem(item), req, n, sc);
    ReachUnseen(truthful, sc, limits, late, OneItem(item), workspace, kind, Copies(IdleEntry(req), n));
  }

  lemma ReachUnseen(truthful: bool, sc: Scope, limits: Limits, late: nat, items: Items,
                    workspace: string, kind: string, es: seq<Entry>)
    requires sc !in ScopesOf(AskFor(workspace, kind)) && "w" in items && Total(items, es, sc, LateOn(0)) == 0
    requires truthful ==> Faithful(items, AskFor(workspace, kind))
    requires ReachableBy(truthful, LonePolicy(sc, limits), late, System(items, es))
    ensures ReachableBy(truthful, LonePolicy(sc, limits), late,
                        System(items, es + [IdleEntry(AskFor(workspace, kind))]))
  {
    var req := AskFor(workspace, kind);
    AdmitUnseen(sc, limits, late, items, workspace, kind, es);
    ReachNextBy(truthful, LonePolicy(sc, limits), late, System(items, es), Admit(req, 0),
        System(items, es + [IdleEntry(req)]));
  }

  /** Every execution keeps the concurrency limit of the policy's scope. */
  ghost predicate KeepsLimit(truthful: bool, sc: Scope, limits: Limits, late: nat) {
    forall s :: ReachableBy(truthful, LonePolicy(sc, limits), late, s) ==>
                  ActiveCount(s.items, RowsOf(s.entries), sc) <= limits.concurrency
  }

  lemma LimitPassed(truthful: bool, sc: Scope, limits: Limits, late: nat, item: WorkItem, workspace: string,
                    kind: string)
    requires sc !in ScopesOf(AskFor(workspace, kind))
    requires InScope(OneItem(item), NewRun(AskFor(workspace, kind), 0), sc)
    requires truthful ==> Faithful(OneItem(item), AskFor(workspace, kind))
    ensures !KeepsLimit(truthful, sc, limits, late)
  {
    var n := limits.concurrency + 1;
    var s := System(OneItem(item), Copies(IdleEntry(AskFor(workspace, kind)), n));
    AdmitForever(truthful, sc, limits, late, item, workspace, kind, n);
    UnseenTotals(s.items, AskFor(workspace, kind), n, sc);
    TotalIsAggregate(s.items, s.entries, sc, 0);
  }

  lemma LimitKept(truthful: bool, sc: Scope, limits: Limits, late: nat)
    requires limits.concurrency > 0 && limits.tokensPerTask > 0 && LookedUp(sc) && (truthful || Intrinsic(sc))
    ensures KeepsLimit(truthful, sc, limits, late)
  {
    var p := LonePolicy(sc, limits);
    forall s | ReachableBy(truthful, p, late, s)
      ensures ActiveCount(s.items, RowsOf(s.entries), sc) <= limits.concurrency
    {
      var ss: seq<System>, steps: seq<Step> :|
        && Execution(p, late, ss, steps) && Honest(ss, steps) && (truthful ==> Truthful(ss, steps))
        && ss[|steps|] == s;
      ConcurrencySafety(p, late, ss, steps, |steps|, sc);
    }
  }

  /** The concurrency limit of a lone global policy is kept by every execution exactly when the policy's id is "global",
      the only one a request looks up; under any other id every number of active runs is reached. */
  lemma GlobalIdExact(id: string, limits: Limits, late: nat)
    requires limits.concurrency > 0 && limits.tokensPerTask > 0
    ensures KeepsLimit(true, Scope(Global, id), limits, late) <==> id == "global"
  {
    if id == "global" {
      LimitKept(true, Scope(Global, id), limits, late);
    } else {
      LimitPassed(true, Scope(Global, id), limits, late, WorkItem("ws", "kind"), "ws", "kind");
    }
  }

  /** No service compares a request with its work item. Without that, executions keep the limit of a lone policy exactly
      for the global scope and the agent profiles: under a workspace or a kind, requests that claim another one
      reach every number of active runs. */
  lemma TruthNeeded(sc: Scope, limits: Limits, late: nat)
    requires limits.concurrency > 0 && limits.tokensPerTask > 0 && LookedUp(sc)
    ensures KeepsLimit(false, sc, limits, late) <==> Intrinsic(sc)
    ensures KeepsLimit(true, sc, limits, late)
  {
    LimitKept(true, sc, limits, late);
    var other := sc.id + "x";
    assert other != sc.id by { assert |other| == |sc.id| + 1; }
    match sc.kind {
      case Workspace => LimitPassed(false, sc, limits, late, WorkItem(sc.id, "kind"), other, "kind");
      case WorkItemKind => LimitPassed(false, sc, limits, late, WorkItem("ws", sc.id), "ws", other);
      case Global => LimitKept(false, sc, limits, late);
      case AgentProfile => LimitKept(false, sc, limits, late);
    }
  }
}
