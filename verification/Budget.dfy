/** Budget evaluation: the fold of `BudgetPolicy.evaluate` over the scopes of a request. */
module Budget {
  import opened Prelude
  import opened TaskRuns

  datatype RiskLevel = Low | Medium | High | Critical
  datatype ApprovalClass = NoApproval | LowApproval | MediumApproval | HighApproval | CriticalApproval

  datatype Request = Request(
    workItemId: string,
    taskRunId: Option<nat>,
    workspaceId: string,
    workItemKind: string,
    requestedBy: string,
    requestedFrom: string,
    riskLevel: RiskLevel,
    approvalPolicy: ApprovalClass,
    agentProfileId: Option<string>,
    estimatedCost: Option<nat>,
    estimatedTokens: Option<nat>,
    metadata: map<string, string>)

  function CostEstimate(req: Request): nat {
    if req.estimatedCost.Some? then req.estimatedCost.value else 0
  }

  function TokenEstimate(req: Request): nat {
    if req.estimatedTokens.Some? then req.estimatedTokens.value else 0
  }

  /** One row of `budget_policies`; the CHECK constraints make every limit a natural number
      and the token and concurrency limits positive. */
  datatype Limits = Limits(dailyCost: nat, perTaskCost: nat, tokensPerTask: nat, concurrency: nat)
  datatype PolicyRow = PolicyRow(limits: Limits, enabled: bool)
  type Policies = map<Scope, PolicyRow>

  ghost predicate Checked(policies: Policies) {
    forall s :: s in policies ==> policies[s].limits.tokensPerTask > 0 && policies[s].limits.concurrency > 0
  }

  function FetchPolicy(policies: Policies, s: Scope): Option<Limits> {
    if s in policies && policies[s].enabled then Some(policies[s].limits) else None
  }

  datatype ScopeEvaluation = ScopeEvaluation(
    scope: Scope,
    limits: Limits,
    dailySpend: nat,
    remaining: nat,
    activeCount: nat,
    dailyExceeded: bool,
    perTaskExceeded: bool,
    tokensExceeded: bool,
    atConcurrencyLimit: bool)

  /** One entry of `violated_policies`; `Message` is the text it stands for. */
  datatype LimitKind = DailyCost | PerTaskCost | TokensPerTask | Concurrency
  datatype Violation = Violation(scope: Scope, limit: LimitKind)

  datatype BudgetEvaluation = BudgetEvaluation(
    budgetExceeded: bool,
    remaining: Option<nat>,
    atConcurrencyLimit: bool,
    violatedPolicies: seq<Violation>,
    evaluations: seq<ScopeEvaluation>)

  function Min(a: nat, b: nat): nat {
    if b < a then b else a
  }

  function ScopesOf(req: Request): seq<Scope> {
    [Scope(Global, "global"), Scope(Workspace, req.workspaceId), Scope(WorkItemKind, req.workItemKind)]
    + if req.agentProfileId.Some? then [Scope(AgentProfile, req.agentProfileId.value)] else []
  }

  /** What the three queries answer for one scope, each on the tables and the day it finds; without a policy the
      last two are not made. */
  datatype Reading = Reading(policy: Option<Limits>, spend: nat, active: nat)

  /** The answers by scope. A scope without an entry is one for which a query raised. */
  type Readings = map<Scope, Reading>

  function EvaluateScope(s: Scope, limits: Limits, spend: nat, active: nat, req: Request): ScopeEvaluation {
    ScopeEvaluation(
      s, limits, spend,
      if limits.dailyCost > spend then limits.dailyCost - spend else 0,
      active,
      spend + CostEstimate(req) > limits.dailyCost,
      CostEstimate(req) > limits.perTaskCost,
      TokenEstimate(req) > limits.tokensPerTask,
      active >= limits.concurrency)
  }

  predicate HasPolicy(readings: Readings, s: Scope) {
    s in readings && readings[s].policy.Some?
  }

  function EvaluationAt(readings: Readings, s: Scope, req: Request): ScopeEvaluation
    requires HasPolicy(readings, s)
  {
    EvaluateScope(s, readings[s].policy.value, readings[s].spend, readings[s].active, req)
  }

  /** The evaluations of those listed scopes for which an enabled policy was found, in list order. */
  function Applicable(scopes: seq<Scope>, readings: Readings, req: Request): seq<ScopeEvaluation> {
    if scopes == [] then []
    else
      var n := |scopes| - 1;
      Applicable(scopes[..n], readings, req)
      + if HasPolicy(readings, scopes[n]) then [EvaluationAt(readings, scopes[n], req)] else []
  }

  /** No query raised. */
  predicate AllRead(readings: Readings, scopes: seq<Scope>) {
    forall s :: s in scopes ==> s in readings
  }

  predicate OverBudget(e: ScopeEvaluation) {
    e.dailyExceeded || e.perTaskExceeded || e.tokensExceeded
  }

  function ScopeTypeValue(t: ScopeType): (r: string)
    ensures |r| > 4
    ensures r[0] == match t case Global => 'g' case Workspace => 'w' case AgentProfile => 'a' case WorkItemKind => 'w'
    ensures t.Workspace? || t.WorkItemKind? ==> r[4] == if t.Workspace? then 's' else '_'
  {
    match t
    case Global => "global"
    case Workspace => "workspace"
    case AgentProfile => "agent_profile"
    case WorkItemKind => "work_item_kind"
  }

  predicate Exceeds(e: ScopeEvaluation, k: LimitKind) {
    match k
    case DailyCost => e.dailyExceeded
    case PerTaskCost => e.perTaskExceeded
    case TokensPerTask => e.tokensExceeded
    case Concurrency => e.atConcurrencyLimit
  }

  /** Counted from the end, the 21st character already tells the four texts apart. */
  function LimitText(k: LimitKind): (r: string)
    ensures |r| >= 21
    ensures r[|r| - 21] == match k
                           case DailyCost => 'y'
                           case PerTaskCost => 'k'
                           case TokensPerTask => ' '
                           case Concurrency => 'u'
  {
    match k
    case DailyCost => " daily cost limit exceeded"
    case PerTaskCost => " per-task cost limit exceeded"
    case TokensPerTask => " token limit exceeded"
    case Concurrency => " concurrency limit reached"
  }

  function Message(v: Violation): string {
    ScopeTypeValue(v.scope.kind) + ":" + v.scope.id + LimitText(v.limit)
  }

  lemma Marks(a: string, b: string, c: string)
    requires |a| > 4 && |c| >= 21
    ensures var m := a + ":" + b + c; |m| > 21 && m[0] == a[0] && m[4] == a[4] && m[|m| - 21] == c[|c| - 21]
  {
  }

  lemma SameMarks(a: string, b: string, c: string, x: string, y: string, z: string)
    requires |a| > 4 && |c| >= 21 && |x| > 4 && |z| >= 21 && a + ":" + b + c == x + ":" + y + z
    ensures a[0] == x[0] && a[4] == x[4] && c[|c| - 21] == z[|z| - 21]
  {
    Marks(a, b, c);
    Marks(x, y, z);
  }

  lemma SameKind(t: ScopeType, u: ScopeType)
    requires ScopeTypeValue(t)[0] == ScopeTypeValue(u)[0] && ScopeTypeValue(t)[4] == ScopeTypeValue(u)[4]
    ensures t == u
  {
  }

  lemma SameLimit(k: LimitKind, l: LimitKind)
    requires LimitText(k)[|LimitText(k)| - 21] == LimitText(l)[|LimitText(l)| - 21]
    ensures k == l
  {
  }

  /** The text of each message. */
  lemma MessageText(v: Violation)
    ensures Message(v) == (match v.scope.kind
                           case Global => "global:"
                           case Workspace => "workspace:"
                           case AgentProfile => "agent_profile:"
                           case WorkItemKind => "work_item_kind:")
                          + v.scope.id
                          + (match v.limit
                             case DailyCost => " daily cost limit exceeded"
                             case PerTaskCost => " per-task cost limit exceeded"
                             case TokensPerTask => " token limit exceeded"
                             case Concurrency => " concurrency limit reached")
  {
    match v.scope.kind {
      case Global => assert "global" + ":" == "global:";
      case Workspace => assert "workspace" + ":" == "workspace:";
      case AgentProfile => assert "agent_profile" + ":" == "agent_profile:";
      case WorkItemKind => assert "work_item_kind" + ":" == "work_item_kind:";
    }
  }

  /** A message says which limit of which scope was passed, whatever characters the scope's id holds. */
  lemma MessagesDistinct(v: Violation, u: Violation)
    requires Message(v) == Message(u)
    ensures v == u
  {
    SameMarks(ScopeTypeValue(v.scope.kind), v.scope.id, LimitText(v.limit),
              ScopeTypeValue(u.scope.kind), u.scope.id, LimitText(u.limit));
    SameKind(v.scope.kind, u.scope.kind);
    SameLimit(v.limit, u.limit);
    SameMiddle(ScopeTypeValue(v.scope.kind) + ":", v.scope.id, u.scope.id, LimitText(v.limit));
  }

  lemma SameMiddle(a: string, b: string, c: string, d: string)
    requires a + b + d == a + c + d
    ensures b == c
  {
    assert |b| == |c|;
    assert (a + b + d)[|a|..|a| + |b|] == b && (a + c + d)[|a|..|a| + |c|] == c;
  }

  function Report(e: ScopeEvaluation, k: LimitKind): seq<Violation> {
    if Exceeds(e, k) then [Violation(e.scope, k)] else []
  }

  /** The messages one scope adds, in the order of the four tests. */
  function ScopeViolations(e: ScopeEvaluation): seq<Violation> {
    Report(e, DailyCost) + Report(e, PerTaskCost) + Report(e, TokensPerTask) + Report(e, Concurrency)
  }

  function Violations(es: seq<ScopeEvaluation>): seq<Violation> {
    if es == [] then [] else Violations(es[..|es| - 1]) + ScopeViolations(es[|es| - 1])
  }

  ghost predicate IsMinimumRemaining(es: seq<ScopeEvaluation>, r: Option<nat>) {
    && (r.None? <==> es == [])
    && (r.Some? ==> exists i :: 0 <= i < |es| && es[i].remaining == r.value)
    && (r.Some? ==> forall i :: 0 <= i < |es| ==> r.value <= es[i].remaining)
  }

  /** What a verdict says about the evaluations it summarises. */
  ghost predicate Summarises(v: BudgetEvaluation, es: seq<ScopeEvaluation>) {
    && v.evaluations == es
    && (v.budgetExceeded <==> exists i :: 0 <= i < |es| && OverBudget(es[i]))
    && (v.atConcurrencyLimit <==> exists i :: 0 <= i < |es| && es[i].atConcurrencyLimit)
    && v.violatedPolicies == Violations(es)
    && IsMinimumRemaining(es, v.remaining)
  }

  method IterScopes(req: Request) returns (scopes: seq<Scope>)
    ensures scopes == ScopesOf(req)
  {
    scopes := [Scope(Global, "global")];
    scopes := scopes + [Scope(Workspace, req.workspaceId)];
    scopes := scopes + [Scope(WorkItemKind, req.workItemKind)];
    if req.agentProfileId.Some? {
      scopes := scopes + [Scope(AgentProfile, req.agentProfileId.value)];
    }
  }

  lemma MinimumNext(es: seq<ScopeEvaluation>, r: Option<nat>, e: ScopeEvaluation)
    requires IsMinimumRemaining(es, r)
    ensures IsMinimumRemaining(es + [e], if r.None? then Some(e.remaining) else Some(Min(r.value, e.remaining)))
  {
    var fs := es + [e];
    assert fs[|es|] == e;
    if r.Some? {
      var i :| 0 <= i < |es| && es[i].remaining == r.value;
      assert fs[i].remaining == r.value;
    }
  }

  lemma FlagsNext(es: seq<ScopeEvaluation>, e: ScopeEvaluation)
    ensures (exists i :: 0 <= i < |es + [e]| && OverBudget((es + [e])[i]))
        <==> (exists i :: 0 <= i < |es| && OverBudget(es[i])) || OverBudget(e)
    ensures (exists i :: 0 <= i < |es + [e]| && (es + [e])[i].atConcurrencyLimit)
        <==> (exists i :: 0 <= i < |es| && es[i].atConcurrencyLimit) || e.atConcurrencyLimit
  {
    var fs := es + [e];
    assert fs[|es|] == e && forall i :: 0 <= i < |es| ==> fs[i] == es[i];
  }

  lemma ViolationsNext(es: seq<ScopeEvaluation>, e: ScopeEvaluation)
    ensures Violations(es + [e]) == Violations(es) + ScopeViolations(e)
  {
    assert (es + [e])[..|es|] == es;
  }

  /** One more applicable scope: how the running verdict has to change. */
  lemma SummariseNext(v: BudgetEvaluation, es: seq<ScopeEvaluation>, e: ScopeEvaluation, next: BudgetEvaluation)
    requires Summarises(v, es)
    requires next.evaluations == es + [e]
    requires next.budgetExceeded == (v.budgetExceeded || OverBudget(e))
    requires next.atConcurrencyLimit == (v.atConcurrencyLimit || e.atConcurrencyLimit)
    requires next.violatedPolicies == v.violatedPolicies + ScopeViolations(e)
    requires next.remaining ==
             if v.remaining.None? then Some(e.remaining) else Some(Min(v.remaining.value, e.remaining))
    ensures Summarises(next, es + [e])
  {
    MinimumNext(es, v.remaining, e);
    FlagsNext(es, e);
    ViolationsNext(es, e);
  }

  /** The four tests of the loop body, in order. */
  method RecordViolations(e: ScopeEvaluation, violatedSoFar: seq<Violation>)
    returns (violated: seq<Violation>, over: bool, atLimit: bool)
    ensures violated == violatedSoFar + ScopeViolations(e)
    ensures over == OverBudget(e) && atLimit == e.atConcurrencyLimit
  {
    violated, over, atLimit := violatedSoFar, false, false;
    if e.dailyExceeded {
      over := true;
      violated := violated + [Violation(e.scope, DailyCost)];
    }
    if e.perTaskExceeded {
      over := true;
      violated := violated + [Violation(e.scope, PerTaskCost)];
    }
    if e.tokensExceeded {
      over := true;
      violated := violated + [Violation(e.scope, TokensPerTask)];
    }
    if e.atConcurrencyLimit {
      atLimit := true;
      violated := violated + [Violation(e.scope, Concurrency)];
    }
  }

  lemma ApplicableNext(scopes: seq<Scope>, readings: Readings, k: nat, req: Request)
    requires k < |scopes|
    ensures Applicable(scopes[..k + 1], readings, req)
         == Applicable(scopes[..k], readings, req)
            + if HasPolicy(readings, scopes[k]) then [EvaluationAt(readings, scopes[k], req)] else []
  {
    assert scopes[..k + 1][..k] == scopes[..k];
  }

  /** The loop of `BudgetPolicy.evaluate`; the first query that raises ends it. */
  method EvaluateScopes(scopes: seq<Scope>, readings: Readings, req: Request) returns (answer: Option<BudgetEvaluation>)
    ensures answer.Some? <==> AllRead(readings, scopes)
    ensures answer.Some? ==> Summarises(answer.value, Applicable(scopes, readings, req))
  {
    var v := BudgetEvaluation(false, None, false, [], []);
    for k := 0 to |scopes|
      invariant AllRead(readings, scopes[..k])
      invariant Summarises(v, Applicable(scopes[..k], readings, req))
    {
      ApplicableNext(scopes, readings, k, req);
      if scopes[k] !in readings {
        return None;
      }
      var policy := readings[scopes[k]].policy;
      if policy.None? {
        continue;
      }
      var e := EvaluateScope(scopes[k], policy.value, readings[scopes[k]].spend, readings[scopes[k]].active, req);
      var violated, over, atLimit := RecordViolations(e, v.violatedPolicies);
      var next := BudgetEvaluation(
        v.budgetExceeded || over,
        if v.remaining.None? then Some(e.remaining) else Some(Min(v.remaining.value, e.remaining)),
        v.atConcurrencyLimit || atLimit,
        violated,
        v.evaluations + [e]);
      SummariseNext(v, v.evaluations, e, next);
      v := next;
    }
    assert scopes[..|scopes|] == scopes;
    answer := Some(v);
  }

  /** `BudgetPolicy.evaluate`, whatever the tables were when each of its queries ran. */
  method Evaluate(req: Request, readings: Readings) returns (answer: Option<BudgetEvaluation>)
    ensures answer.Some? <==> AllRead(readings, ScopesOf(req))
    ensures answer.Some? ==> Summarises(answer.value, Applicable(ScopesOf(req), readings, req))
    ensures answer.Some? ==> forall i :: 0 <= i < |answer.value.evaluations| ==>
                                           Reports(answer.value.evaluations[i], req, readings)
    ensures answer.Some? ==> (answer.value.remaining == Some(0) <==> Exhausted(req, readings))
  {
    var scopes := IterScopes(req);
    answer := EvaluateScopes(scopes, readings, req);
    if answer.Some? {
      ReportsReadings(req, readings, answer.value);
    }
  }

  /** What a scope's report says, on the figures read for the scope. What is left of the daily limit makes up for
      the spend and is nothing once the spend reaches the limit; a missing estimate never passes a limit by itself. */
  ghost predicate Reports(e: ScopeEvaluation, req: Request, readings: Readings) {
    && e.scope in ScopesOf(req) && e.scope in readings && readings[e.scope].policy == Some(e.limits)
    && e.dailySpend == readings[e.scope].spend && e.activeCount == readings[e.scope].active
    && (if e.dailySpend >= e.limits.dailyCost then e.remaining == 0
        else e.remaining + e.dailySpend == e.limits.dailyCost)
    && (e.atConcurrencyLimit <==> e.activeCount >= e.limits.concurrency)
    && (match req.estimatedCost
        case None => !e.perTaskExceeded && (e.dailyExceeded <==> e.dailySpend > e.limits.dailyCost)
        case Some(c) =>
          (e.perTaskExceeded <==> c > e.limits.perTaskCost)
          && (e.dailyExceeded <==> e.dailySpend + c > e.limits.dailyCost))
    && (match req.estimatedTokens
        case None => !e.tokensExceeded
        case Some(n) => e.tokensExceeded <==> n > e.limits.tokensPerTask)
  }

  /** Some scope of the request has spent its daily limit. */
  ghost predicate Exhausted(req: Request, readings: Readings) {
    exists s :: s in ScopesOf(req) && s in readings && readings[s].policy.Some?
                && readings[s].spend >= readings[s].policy.value.dailyCost
  }

  lemma EvaluationReports(req: Request, readings: Readings, s: Scope)
    requires s in ScopesOf(req) && HasPolicy(readings, s)
    ensures Reports(EvaluationAt(readings, s, req), req, readings)
  {
  }

  /** Every report is that of its scope's figures, and the budget that remains is zero exactly when a scope is
      exhausted. */
  lemma ReportsReadings(req: Request, readings: Readings, v: BudgetEvaluation)
    requires Summarises(v, Applicable(ScopesOf(req), readings, req))
    ensures forall i :: 0 <= i < |v.evaluations| ==> Reports(v.evaluations[i], req, readings)
    ensures v.remaining == Some(0) <==> Exhausted(req, readings)
  {
    var es := v.evaluations;
    ApplicableAt(ScopesOf(req), readings, req);
    forall i | 0 <= i < |es| ensures Reports(es[i], req, readings) {
      assert es[i] in es;
      EvaluationReports(req, readings, es[i].scope);
    }
    if v.remaining == Some(0) {
      var i :| 0 <= i < |es| && es[i].remaining == 0;
      assert Reports(es[i], req, readings);
    }
    if s :| s in ScopesOf(req) && HasPolicy(readings, s) && readings[s].spend >= readings[s].policy.value.dailyCost {
      assert EvaluationAt(readings, s, req) in es;
    }
  }

  // ---------------------------------------------------------------- what the verdict means

  predicate Rejected(v: BudgetEvaluation) {
    v.budgetExceeded || v.atConcurrencyLimit
  }

  /** Every applicable scope is reported, with the figures read for that scope, and nothing else is. */
  lemma {:induction false} ApplicableAt(scopes: seq<Scope>, readings: Readings, req: Request)
    ensures forall j :: 0 <= j < |scopes| && HasPolicy(readings, scopes[j]) ==>
              EvaluationAt(readings, scopes[j], req) in Applicable(scopes, readings, req)
    ensures forall e :: e in Applicable(scopes, readings, req) ==>
              e.scope in scopes && HasPolicy(readings, e.scope) && e == EvaluationAt(readings, e.scope, req)
  {
    if scopes != [] {
      ApplicableAt(scopes[..|scopes| - 1], readings, req);
    }
  }

  /** A message is emitted for each failed test: the list is empty exactly when no test fails. */
  lemma {:induction false} ViolationsEmpty(es: seq<ScopeEvaluation>)
    ensures Violations(es) == [] <==> forall i :: 0 <= i < |es| ==> !OverBudget(es[i]) && !es[i].atConcurrencyLimit
  {
    if es != [] { ViolationsEmpty(es[..|es| - 1]); }
  }

  /** One of the four limits is passed by the figures. */
  predicate PassesLimit(limits: Limits, spend: nat, active: nat, req: Request) {
    || spend + CostEstimate(req) > limits.dailyCost
    || CostEstimate(req) > limits.perTaskCost
    || TokenEstimate(req) > limits.tokensPerTask
    || active >= limits.concurrency
  }

  /** What was read for the scope rejects the request. */
  predicate Refuses(readings: Readings, s: Scope, req: Request) {
    && HasPolicy(readings, s)
    && PassesLimit(readings[s].policy.value, readings[s].spend, readings[s].active, req)
  }

  /** Verdict correctness over the whole scope list, stated on what was read rather than on the fold. */
  lemma VerdictCorrect(req: Request, readings: Readings, v: BudgetEvaluation)
    requires Summarises(v, Applicable(ScopesOf(req), readings, req))
    ensures v.violatedPolicies == [] <==> !Rejected(v)
    ensures Rejected(v) <==> exists s :: s in ScopesOf(req) && Refuses(readings, s, req)
    ensures !Rejected(v) && v.remaining.Some? ==> CostEstimate(req) <= v.remaining.value
    ensures v.remaining.None? <==> forall s :: s in ScopesOf(req) ==> !HasPolicy(readings, s)
  {
    var es := Applicable(ScopesOf(req), readings, req);
    ViolationsEmpty(es);
    ApplicableAt(ScopesOf(req), readings, req);
    forall s | s in ScopesOf(req) && HasPolicy(readings, s) ensures EvaluationAt(readings, s, req) in es {
    }
    if Rejected(v) {
      var i :| 0 <= i < |es| && (OverBudget(es[i]) || es[i].atConcurrencyLimit);
      assert es[i] in es;
      assert Refuses(readings, es[i].scope, req);
    }
    if s :| s in ScopesOf(req) && Refuses(readings, s, req) {
      assert EvaluationAt(readings, s, req) in es;
    }
    if es != [] { assert es[0] in es; }
  }

  /** What the queries for a scope answer on one state of the tables and one day. */
  function ReadAt(items: Items, rows: Rows, policies: Policies, s: Scope, day: int): Reading {
    Reading(FetchPolicy(policies, s), DailySpend(items, rows, s, day), ActiveCount(items, rows, s))
  }

  /** The tables and the day stayed the same through all queries of the request. */
  ghost predicate OneState(readings: Readings, items: Items, rows: Rows, policies: Policies, req: Request, day: int) {
    forall s :: s in ScopesOf(req) ==> s in readings && readings[s] == ReadAt(items, rows, policies, s, day)
  }

  /** Then the verdict is that of the tables. */
  lemma VerdictOnTables(items: Items, rows: Rows, policies: Policies, req: Request, day: int,
                        readings: Readings, v: BudgetEvaluation)
    requires OneState(readings, items, rows, policies, req, day)
    requires Summarises(v, Applicable(ScopesOf(req), readings, req))
    ensures Rejected(v) <==> exists s :: s in ScopesOf(req) && Blocks(items, rows, policies, s, req, day)
    ensures v.remaining.None? <==> forall s :: s in ScopesOf(req) ==> !InForce(policies, s)
  {
    VerdictCorrect(req, readings, v);
    forall s | s in ScopesOf(req)
      ensures Refuses(readings, s, req) <==> Blocks(items, rows, policies, s, req, day)
      ensures HasPolicy(readings, s) <==> InForce(policies, s)
    {
    }
  }

  /** The scope has a policy and the policy is enabled. */
  predicate InForce(policies: Policies, s: Scope) {
    s in policies && policies[s].enabled
  }

  /** A scope blocks a request: its policy is enabled and one of the four limits is passed. */
  predicate Blocks(items: Items, rows: Rows, policies: Policies, s: Scope, req: Request, day: int) {
    && InForce(policies, s)
    && PassesLimit(policies[s].limits, DailySpend(items, rows, s, day), ActiveCount(items, rows, s), req)
  }

  // ---------------------------------------------------------------- the order of the messages

  function KindRank(t: ScopeType): nat {
    match t case Global => 0 case Workspace => 1 case WorkItemKind => 2 case AgentProfile => 3
  }

  /** Messages are told apart by rank: by scope first, and within a scope daily cost, cost per task, tokens,
      concurrency. */
  function MessageRank(v: Violation): nat {
    4 * KindRank(v.scope.kind)
    + match v.limit case DailyCost => 0 case PerTaskCost => 1 case TokensPerTask => 2 case Concurrency => 3
  }

  ghost predicate RanksWithin(vs: seq<Violation>, low: nat, high: nat) {
    && (forall k :: 0 <= k < |vs| ==> low <= MessageRank(vs[k]) < high)
    && (forall j, k :: 0 <= j < k < |vs| ==> MessageRank(vs[j]) < MessageRank(vs[k]))
  }

  ghost predicate ScopesBelow(es: seq<ScopeEvaluation>, n: nat) {
    && (forall k :: 0 <= k < |es| ==> KindRank(es[k].scope.kind) < n)
    && (forall j, k :: 0 <= j < k < |es| ==> KindRank(es[j].scope.kind) < KindRank(es[k].scope.kind))
  }

  /** The scope's report says that the limit is passed. */
  ghost predicate Passed(e: ScopeEvaluation, v: Violation) {
    && v.scope == e.scope
    && match v.limit
       case DailyCost => e.dailyExceeded
       case PerTaskCost => e.perTaskExceeded
       case TokensPerTask => e.tokensExceeded
       case Concurrency => e.atConcurrencyLimit
  }

  lemma OneScopeListed(e: ScopeEvaluation, v: Violation)
    ensures v in ScopeViolations(e) <==> Passed(e, v)
  {
    var a, b := Report(e, DailyCost), Report(e, PerTaskCost);
    var c, d := Report(e, TokensPerTask), Report(e, Concurrency);
    assert v in a + b + c + d <==> v in a || v in b || v in c || v in d;
  }

  ghost predicate SomePassed(es: seq<ScopeEvaluation>, v: Violation) {
    exists i :: 0 <= i < |es| && Passed(es[i], v)
  }

  lemma SomePassedSnoc(es: seq<ScopeEvaluation>, v: Violation)
    requires es != []
    ensures SomePassed(es, v) <==> SomePassed(es[..|es| - 1], v) || Passed(es[|es| - 1], v)
  {
    var n := |es| - 1;
    assert forall i :: 0 <= i < n ==> es[..n][i] == es[i];
  }

  /** A message is listed exactly when some report says that its limit is passed. */
  lemma {:induction false} MessagesListed(es: seq<ScopeEvaluation>, v: Violation)
    ensures v in Violations(es) <==> SomePassed(es, v)
  {
    if es != [] {
      var n := |es| - 1;
      MessagesListed(es[..n], v);
      OneScopeListed(es[n], v);
      SomePassedSnoc(es, v);
    }
  }

  lemma RanksAppend(vs: seq<Violation>, ws: seq<Violation>, low: nat, middle: nat, high: nat)
    requires RanksWithin(vs, low, middle) && RanksWithin(ws, middle, high) && low <= middle <= high
    ensures RanksWithin(vs + ws, low, high)
  {
  }

  lemma OneReport(e: ScopeEvaluation, k: LimitKind, n: nat)
    requires MessageRank(Violation(e.scope, k)) == n
    ensures RanksWithin(Report(e, k), n, n + 1)
  {
  }

  lemma OneScopeSorted(e: ScopeEvaluation)
    ensures RanksWithin(ScopeViolations(e), 4 * KindRank(e.scope.kind), 4 * KindRank(e.scope.kind) + 4)
  {
    var n := 4 * KindRank(e.scope.kind);
    var a, b := Report(e, DailyCost), Report(e, PerTaskCost);
    var c, d := Report(e, TokensPerTask), Report(e, Concurrency);
    OneReport(e, DailyCost, n);
    OneReport(e, PerTaskCost, n + 1);
    OneReport(e, TokensPerTask, n + 2);
    OneReport(e, Concurrency, n + 3);
    RanksAppend(a, b, n, n + 1, n + 2);
    RanksAppend(a + b, c, n, n + 2, n + 3);
    RanksAppend(a + b + c, d, n, n + 3, n + 4);
  }

  lemma {:induction false} MessagesSorted(es: seq<ScopeEvaluation>, n: nat)
    requires ScopesBelow(es, n)
    ensures RanksWithin(Violations(es), 0, 4 * n)
  {
    if es != [] {
      var last := es[|es| - 1];
      var r := KindRank(last.scope.kind);
      MessagesSorted(es[..|es| - 1], r);
      OneScopeSorted(last);
      RanksAppend(Violations(es[..|es| - 1]), ScopeViolations(last), 0, 4 * r, 4 * r + 4);
    }
  }

  lemma {:induction false} ReportsOrdered(scopes: seq<Scope>, readings: Readings, req: Request, n: nat)
    requires |scopes| <= n && forall k :: 0 <= k < |scopes| ==> KindRank(scopes[k].kind) == k
    ensures ScopesBelow(Applicable(scopes, readings, req), n)
  {
    if scopes != [] {
      ReportsOrdered(scopes[..|scopes| - 1], readings, req, |scopes| - 1);
    }
  }

  /** The messages of a verdict: exactly one for each limit that some report says is passed, in the order of the
      scopes and within a scope of the four tests. */
  lemma MessagesExact(req: Request, readings: Readings, v: BudgetEvaluation, m: Violation)
    requires Summarises(v, Applicable(ScopesOf(req), readings, req))
    ensures m in v.violatedPolicies <==> SomePassed(v.evaluations, m)
    ensures RanksWithin(v.violatedPolicies, 0, 16) && ScopesBelow(v.evaluations, 4)
  {
    MessagesListed(v.evaluations, m);
    ScopesRanked(req);
    ReportsOrdered(ScopesOf(req), readings, req, 4);
    MessagesSorted(v.evaluations, 4);
  }

  lemma ScopesRanked(req: Request)
    ensures forall k :: 0 <= k < |ScopesOf(req)| ==> KindRank(ScopesOf(req)[k].kind) == k
  {
  }

  predicate Overspent(e: ScopeEvaluation) {
    e.dailySpend > e.limits.dailyCost
  }

  /** The reported minimum decides the daily test except for scopes that are already overspent:
      a daily limit is exceeded exactly when the estimate is above the minimum or some
      scope has spent more than its limit before the request. */
  lemma DailyTestFromMinimum(req: Request, readings: Readings, v: BudgetEvaluation)
    requires Summarises(v, Applicable(ScopesOf(req), readings, req))
    ensures (exists i :: 0 <= i < |v.evaluations| && v.evaluations[i].dailyExceeded)
        <==> || (v.remaining.Some? && CostEstimate(req) > v.remaining.value)
             || (exists i :: 0 <= i < |v.evaluations| && Overspent(v.evaluations[i]))
  {
    var es := v.evaluations;
    ApplicableAt(ScopesOf(req), readings, req);
    forall i | 0 <= i < |es|
      ensures es[i].dailyExceeded <==> CostEstimate(req) > es[i].remaining || Overspent(es[i])
    {
      assert es[i] in es;
    }
  }
}
