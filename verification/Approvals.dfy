/** The approvals ledger, the approval policy and the evaluator that composes it with the budget. */
module Approvals {
  import opened Prelude
  import opened TaskRuns
  import opened Budget
  import opened TaskRunStore
  import opened Admission

  datatype Decision = Undecided | Approved | Declined

  /** A value of the evidence object: a text, or the request's own metadata object. */
  datatype Evidence = Note(text: string) | Metadata(entries: map<string, string>)

  /** One row of `approvals`; its id is its index. */
  datatype Approval = Approval(
    workItemId: string,
    taskRunId: Option<nat>,
    gateName: string,
    requestedFrom: string,
    decision: Decision,
    decidedAt: Option<int>,
    decidedBy: Option<string>,
    evidence: map<string, Evidence>,
    notes: Option<string>,
    createdAt: int)

  type Ledger = seq<Approval>

  function ClassValue(c: ApprovalClass): string {
    match c
    case NoApproval => "none"
    case LowApproval => "low"
    case MediumApproval => "medium"
    case HighApproval => "high"
    case CriticalApproval => "critical"
  }

  function RiskValue(r: RiskLevel): string {
    match r
    case Low => "low"
    case Medium => "medium"
    case High => "high"
    case Critical => "critical"
  }

  /** The row `ApprovalPolicy.evaluate` inserts. */
  function RequestedApproval(req: Request, now: int): Approval {
    Approval(
      req.workItemId, req.taskRunId, "approval:" + ClassValue(req.approvalPolicy), req.requestedFrom,
      Undecided, None, None,
      map["approval_policy" := Note(ClassValue(req.approvalPolicy)),
          "risk_level" := Note(RiskValue(req.riskLevel)),
          "requested_by" := Note(req.requestedBy),
          "metadata" := Metadata(req.metadata)],
      Some("Human approval required before work can proceed"), now)
  }

  /** The row asks for the request's approval: it is undecided, carries the request's own columns and names its gate and
      its evidence by the texts of the source. */
  ghost predicate AsksFor(a: Approval, req: Request, now: int) {
    && a.decision.Undecided? && a.decidedAt.None? && a.decidedBy.None? && a.createdAt == now
    && a.workItemId == req.workItemId && a.taskRunId == req.taskRunId && a.requestedFrom == req.requestedFrom
    && a.notes == Some("Human approval required before work can proceed")
    && a.gateName == (match req.approvalPolicy
                      case NoApproval => "approval:none"
                      case LowApproval => "approval:low"
                      case MediumApproval => "approval:medium"
                      case HighApproval => "approval:high"
                      case CriticalApproval => "approval:critical")
    && a.evidence.Keys == {"approval_policy", "risk_level", "requested_by", "metadata"}
    && a.evidence["approval_policy"].Note? && a.gateName == "approval:" + a.evidence["approval_policy"].text
    && a.evidence["risk_level"] == (match req.riskLevel
                                    case Low => Note("low")
                                    case Medium => Note("medium")
                                    case High => Note("high")
                                    case Critical => Note("critical"))
    && a.evidence["requested_by"] == Note(req.requestedBy) && a.evidence["metadata"] == Metadata(req.metadata)
  }

  lemma RequestAsks(req: Request, now: int)
    ensures AsksFor(RequestedApproval(req, now), req, now)
  {
    match req.approvalPolicy {
      case NoApproval => assert "approval:" + "none" == "approval:none";
      case LowApproval => assert "approval:" + "low" == "approval:low";
      case MediumApproval => assert "approval:" + "medium" == "approval:medium";
      case HighApproval => assert "approval:" + "high" == "approval:high";
      case CriticalApproval => assert "approval:" + "critical" == "approval:critical";
    }
  }

  /** The two routes decide with `approved` or `rejected`, whatever the row said before. */
  datatype Ruling = Ruling(
    approve: bool,
    decider: string,
    at: int,
    notes: Option<string>,
    evidence: map<string, Evidence>)

  function Ruled(a: Approval, r: Ruling): Approval {
    a.(decision := if r.approve then Approved else Declined,
       decidedBy := Some(r.decider),
       decidedAt := Some(r.at),
       notes := Coalesce(r.notes, a.notes),
       evidence := a.evidence + r.evidence)
  }

  // ---------------------------------------------------------------- verdicts

  datatype Status = StatusApproved | StatusPendingApproval | StatusRejected

  /** One evaluation: what its queries read, the tables the INSERT finds, and how the INSERT ends. */
  datatype Evaluation = Evaluation(
    req: Request,
    readings: Readings,
    items: Items,
    rows: Rows,
    insert: Fault,
    now: int)

  /** The verdict, from the limits and the approval matrix. */
  ghost function Verdict(req: Request, readings: Readings): Status {
    if exists s :: s in ScopesOf(req) && Refuses(readings, s, req) then StatusRejected
    else if AutoApproved(req.approvalPolicy, req.riskLevel) then StatusApproved
    else StatusPendingApproval
  }

  lemma VerdictDecides(req: Request, readings: Readings, v: BudgetEvaluation)
    requires Summarises(v, Applicable(ScopesOf(req), readings, req))
    ensures Verdict(req, readings).StatusRejected? <==> v.budgetExceeded || v.atConcurrencyLimit
    ensures Verdict(req, readings).StatusRejected? <==> v.violatedPolicies != []
    ensures !Verdict(req, readings).StatusRejected? ==>
              (Verdict(req, readings).StatusApproved? <==> AutoApproved(req.approvalPolicy, req.riskLevel))
  {
    VerdictCorrect(req, readings, v);
  }

  /** When every query ran on one state of the tables, "approved" is exactly what `Admission` calls allowed. */
  lemma VerdictAllows(req: Request, readings: Readings, items: Items, rows: Rows, policies: Policies, day: int)
    requires OneState(readings, items, rows, policies, req, day)
    ensures Verdict(req, readings).StatusApproved? <==> Allowed(items, rows, policies, req, day)
    ensures Verdict(req, readings).StatusRejected? <==>
              exists s :: s in ScopesOf(req) && Blocks(items, rows, policies, s, req, day)
  {
    forall s | s in ScopesOf(req)
      ensures Refuses(readings, s, req) <==> Blocks(items, rows, policies, s, req, day)
    {
    }
  }

  /** The foreign keys of `approvals`: the request names them, and nothing has checked them before the INSERT. */
  predicate Insertable(req: Request, items: Items, rows: Rows) {
    && req.workItemId in items
    && (req.taskRunId.Some? ==> req.taskRunId.value < |rows|)
  }

  /** The evaluation comes to its INSERT. */
  ghost predicate Asks(e: Evaluation) {
    AllRead(e.readings, ScopesOf(e.req)) && Verdict(e.req, e.readings).StatusPendingApproval?
  }

  /** It inserts a row. */
  ghost predicate Inserts(e: Evaluation) {
    Asks(e) && Insertable(e.req, e.items, e.rows) && !e.insert.RaisedBefore?
  }

  /** It returns the pending verdict. */
  ghost predicate AnswersPending(e: Evaluation) {
    Asks(e) && Insertable(e.req, e.items, e.rows) && e.insert.NoFault?
  }

  /** It returns a verdict at all; otherwise the caller gets an exception. */
  ghost predicate Answers(e: Evaluation) {
    AllRead(e.readings, ScopesOf(e.req)) && (Verdict(e.req, e.readings).StatusPendingApproval? ==> AnswersPending(e))
  }

  // ---------------------------------------------------------------- storage and evaluator

  datatype RulingAnswer = RowRuled(row: Approval) | NoSuchApproval | RulingRaised

  class PolicyStorage {
    var items: Items
    var approvals: Ledger
    const runs: TaskRunTable

    constructor (items: Items, runs: TaskRunTable)
      ensures this.items == items && this.runs == runs && approvals == []
    {
      this.items, this.runs := items, runs;
      approvals := [];
    }

    /** The id of the new row, or none when the statement raised. */
    method CreateApprovalRequest(a: Approval, fault: Fault) returns (id: Option<nat>)
      modifies this`approvals
      ensures var known := a.workItemId in items && (a.taskRunId.Some? ==> a.taskRunId.value < |runs.rows|);
              && id == (if known && fault.NoFault? then Some(|old(approvals)|) else None)
              && approvals == old(approvals) + if known && !fault.RaisedBefore? then [a] else []
    {
      if fault.RaisedBefore? || a.workItemId !in items {
        return None;
      }
      if a.taskRunId.Some? && a.taskRunId.value >= |runs.rows| {
        return None;
      }
      id := if fault.NoFault? then Some(|approvals|) else None;
      approvals := approvals + [a];
    }

    method RecordApprovalDecision(id: nat, r: Ruling, fault: Fault) returns (answer: RulingAnswer)
      modifies this`approvals
      ensures approvals == ApplyOp(old(approvals), Rule(id, r, fault))
      ensures answer.RowRuled? ==> id < |approvals| && answer.row == approvals[id] && DecidedBy(answer.row, r)
      ensures answer.RulingRaised? <==> !fault.NoFault?
      ensures answer.NoSuchApproval? <==> fault.NoFault? && id >= |approvals|
    {
      if fault.RaisedBefore? {
        return RulingRaised;
      }
      if id >= |approvals| {
        return if fault.NoFault? then NoSuchApproval else RulingRaised;
      }
      var a := approvals[id].(decision := if r.approve then Approved else Declined,
                              decidedBy := Some(r.decider), decidedAt := Some(r.at));
      if r.notes.Some? {
        a := a.(notes := r.notes);
      }
      a := a.(evidence := a.evidence + r.evidence);
      approvals := approvals[id := a];
      answer := if fault.NoFault? then RowRuled(a) else RulingRaised;
    }
  }

  datatype PolicyDecision = PolicyDecision(
    allowed: bool,
    status: Status,
    approvalId: Option<nat>,
    budget: BudgetEvaluation)

  datatype ApprovalAnswer = Automatic | Requested(id: nat) | ApprovalRaised

  class PolicyEvaluator {
    const storage: PolicyStorage

    constructor (storage: PolicyStorage)
      ensures this.storage == storage
    {
      this.storage := storage;
    }

    /** `ApprovalPolicy.evaluate`. The Matrix notification changes nothing, whether it fails or not. */
    method EvaluateApproval(req: Request, insert: Fault, now: int) returns (answer: ApprovalAnswer)
      modifies storage`approvals
      ensures answer.Automatic? <==> AutoApproved(req.approvalPolicy, req.riskLevel)
      ensures answer.Automatic? <==>
                match req.approvalPolicy
                case NoApproval => true
                case LowApproval => req.riskLevel != High && req.riskLevel != Critical
                case MediumApproval => req.riskLevel == RiskLevel.Low
                case HighApproval => false
                case CriticalApproval => false
      ensures answer.Automatic? ==> storage.approvals == old(storage.approvals)
      ensures var known := Insertable(req, storage.items, storage.runs.rows);
              !answer.Automatic? ==>
                && answer == (if known && insert.NoFault? then Requested(|old(storage.approvals)|) else ApprovalRaised)
                && storage.approvals == old(storage.approvals)
                                        + if known && !insert.RaisedBefore? then [RequestedApproval(req, now)] else []
      ensures |storage.approvals| > |old(storage.approvals)| ==>
                AsksFor(storage.approvals[|old(storage.approvals)|], req, now)
    {
      RequestAsks(req, now);
      if AutoApproved(req.approvalPolicy, req.riskLevel) {
        return Automatic;
      }
      var id := storage.CreateApprovalRequest(RequestedApproval(req, now), insert);
      answer := if id.Some? then Requested(id.value) else ApprovalRaised;
    }

    /** The evaluation of a request, with its INSERT on the tables as they are now. */
    ghost function Now(req: Request, readings: Readings, insert: Fault, now: int): Evaluation
      reads this, storage, storage.runs
    {
      Evaluation(req, readings, storage.items, storage.runs.rows, insert, now)
    }

    /** `PolicyEvaluator.evaluate`: the answer is the verdict of the limits and the approval matrix, or an
        exception; the ledger grows by one row exactly when an INSERT committed. */
    method Evaluate(req: Request, readings: Readings, insert: Fault, now: int) returns (d: Option<PolicyDecision>)
      modifies storage`approvals
      ensures d.Some? <==> Answers(old(Now(req, readings, insert, now)))
      ensures d.Some? ==>
                && Summarises(d.value.budget, Applicable(ScopesOf(req), readings, req))
                && d.value.status == Verdict(req, readings)
                && (d.value.allowed <==> d.value.status.StatusApproved?)
                && (d.value.status.StatusRejected? <==> d.value.budget.violatedPolicies != [])
                && d.value.approvalId
                    == (if d.value.status.StatusPendingApproval? then Some(|old(storage.approvals)|) else None)
      ensures storage.approvals == ApplyOp(old(storage.approvals), Evaluated(old(Now(req, readings, insert, now))))
    {
      var v := Budget.Evaluate(req, readings);
      if v.None? {
        return None;
      }
      VerdictDecides(req, readings, v.value);
      if v.value.budgetExceeded || v.value.atConcurrencyLimit {
        return Some(PolicyDecision(false, StatusRejected, None, v.value));
      }
      var approval := EvaluateApproval(req, insert, now);
      match approval {
        case ApprovalRaised => d := None;
        case Requested(id) => d := Some(PolicyDecision(false, StatusPendingApproval, Some(id), v.value));
        case Automatic => d := Some(PolicyDecision(true, StatusApproved, None, v.value));
      }
    }
  }

  // ---------------------------------------------------------------- runs of the ledger

  /** What the service is asked to do: evaluate a request, or rule on a row. */
  datatype Op = Evaluated(evaluation: Evaluation) | Rule(id: nat, ruling: Ruling, fault: Fault)

  ghost function ApplyOp(l: Ledger, op: Op): Ledger {
    match op
    case Evaluated(e) => if Inserts(e) then l + [RequestedApproval(e.req, e.now)] else l
    case Rule(id, r, fault) => if id < |l| && !fault.RaisedBefore? then l[id := Ruled(l[id], r)] else l
  }

  ghost function ApplyOps(l: Ledger, ops: seq<Op>): Ledger {
    if ops == [] then l else ApplyOp(ApplyOps(l, ops[..|ops| - 1]), ops[|ops| - 1])
  }

  /** An evaluation that adds a row. */
  ghost predicate Inserting(op: Op) {
    op.Evaluated? && Inserts(op.evaluation)
  }

  /** An evaluation that returns the pending verdict. */
  ghost predicate AnsweringPending(op: Op) {
    op.Evaluated? && AnswersPending(op.evaluation)
  }

  /** An evaluation whose INSERT committed and then raised. */
  ghost predicate LosingAnswer(op: Op) {
    op.Evaluated? && Inserts(op.evaluation) && op.evaluation.insert.RaisedAfter?
  }

  /** The positions of the operations that meet a condition. */
  ghost function Steps(ops: seq<Op>, p: Op -> bool): seq<nat> {
    if ops == [] then []
    else Steps(ops[..|ops| - 1], p) + if p(ops[|ops| - 1]) then [|ops| - 1] else []
  }

  /** Positions below `n`, in order. */
  ghost predicate Ascending(xs: seq<nat>, n: nat) {
    && (forall k :: 0 <= k < |xs| ==> xs[k] < n)
    && (forall j, k :: 0 <= j < k < |xs| ==> xs[j] < xs[k])
  }

  lemma AscendingSnoc(xs: seq<nat>, n: nat, more: bool)
    requires Ascending(xs, n)
    ensures Ascending(xs + if more then [n] else [], n + 1)
  {
  }

  lemma MemberSnoc(xs: seq<nat>, n: nat, more: bool, i: nat)
    ensures i in xs + (if more then [n] else []) <==> i in xs || (more && i == n)
  {
  }

  lemma {:induction false} StepsAscend(ops: seq<Op>, p: Op -> bool)
    ensures Ascending(Steps(ops, p), |ops|)
  {
    if ops != [] {
      var n := |ops| - 1;
      StepsAscend(ops[..n], p);
      AscendingSnoc(Steps(ops[..n], p), n, p(ops[n]));
    }
  }

  /** Exactly the positions of those operations. */
  lemma {:induction false} StepsExact(ops: seq<Op>, p: Op -> bool, i: nat)
    ensures i in Steps(ops, p) <==> i < |ops| && p(ops[i])
  {
    if ops != [] {
      var n := |ops| - 1;
      StepsExact(ops[..n], p, i);
      MemberSnoc(Steps(ops[..n], p), n, p(ops[n]), i);
      assert i < n ==> ops[..n][i] == ops[i];
    }
  }

  /** The rulings on row `id` among operations, applied to it in order. */
  function AfterRulings(a: Approval, ops: seq<Op>, id: nat): Approval {
    if ops == [] then a
    else
      var before := AfterRulings(a, ops[..|ops| - 1], id);
      var op := ops[|ops| - 1];
      if RulesOn(op, id) then Ruled(before, op.ruling) else before
  }

  /** Over any run of evaluations and rulings the ledger grows by one row for each pending answer returned and one for
      each INSERT that committed and then raised. */
  lemma {:induction false} LedgerCountsRequests(l: Ledger, ops: seq<Op>)
    ensures |ApplyOps(l, ops)| == |l| + |Steps(ops, Inserting)|
    ensures |Steps(ops, Inserting)| == |Steps(ops, AnsweringPending)| + |Steps(ops, LosingAnswer)|
  {
    if ops != [] { LedgerCountsRequests(l, ops[..|ops| - 1]); }
  }

  lemma RowOfOp(l: Ledger, op: Op, i: nat)
    requires i < |l|
    ensures i < |ApplyOp(l, op)| && ApplyOp(l, op)[i] == if RulesOn(op, i) then Ruled(l[i], op.ruling) else l[i]
  {
  }

  /** What the last operation does to a row that was there before it. */
  lemma RowNext(l: Ledger, ops: seq<Op>, i: nat)
    requires ops != [] && i < |ApplyOps(l, ops[..|ops| - 1])|
    ensures i < |ApplyOps(l, ops)|
    ensures var before, op := ApplyOps(l, ops[..|ops| - 1])[i], ops[|ops| - 1];
            ApplyOps(l, ops)[i] == if RulesOn(op, i) then Ruled(before, op.ruling) else before
  {
    RowOfOp(ApplyOps(l, ops[..|ops| - 1]), ops[|ops| - 1], i);
  }

  lemma RulingsNext(a: Approval, ops: seq<Op>, j: nat, id: nat)
    requires j < |ops| - 1
    ensures var n := |ops| - 1;
            var before := AfterRulings(a, ops[..n][j + 1..], id);
            AfterRulings(a, ops[j + 1..], id) == if RulesOn(ops[n], id) then Ruled(before, ops[n].ruling) else before
  {
    var n, later := |ops| - 1, ops[j + 1..];
    assert later[..|later| - 1] == ops[..n][j + 1..] && later[|later| - 1] == ops[n];
  }

  function RowAt(ops: seq<Op>, j: nat, id: nat): Approval
    requires j < |ops| && ops[j].Evaluated?
  {
    AfterRulings(RequestedApproval(ops[j].evaluation.req, ops[j].evaluation.now), ops[j + 1..], id)
  }

  lemma RowAtNext(ops: seq<Op>, j: nat, id: nat)
    requires j < |ops| - 1 && ops[j].Evaluated?
    ensures var n := |ops| - 1;
            var before := RowAt(ops[..n], j, id);
            RowAt(ops, j, id) == if RulesOn(ops[n], id) then Ruled(before, ops[n].ruling) else before
  {
    RulingsNext(RequestedApproval(ops[j].evaluation.req, ops[j].evaluation.now), ops, j, id);
  }

  /** Row `i` is what evaluation `j` inserted, as the rulings since have left it. */
  ghost predicate RowIs(l: Ledger, ops: seq<Op>, j: nat, i: nat) {
    && j < |ops| && ops[j].Evaluated? && i < |ApplyOps(l, ops)|
    && ApplyOps(l, ops)[i] == RowAt(ops, j, i)
  }

  lemma RowKept(l: Ledger, ops: seq<Op>, j: nat, i: nat)
    requires ops != [] && RowIs(l, ops[..|ops| - 1], j, i)
    ensures RowIs(l, ops, j, i)
  {
    RowNext(l, ops, i);
    RowAtNext(ops, j, i);
  }

  lemma StepsNext(ops: seq<Op>, p: Op -> bool)
    requires ops != []
    ensures var n := |ops| - 1;
            Steps(ops, p) == Steps(ops[..n], p) + if p(ops[n]) then [n] else []
  {
  }

  /** The `k`-th row inserted is the approval requested for that evaluation's own request, as the rulings recorded on it
      since have left it. */
  lemma {:induction false} RowOfVerdict(l: Ledger, ops: seq<Op>, k: nat)
    requires k < |Steps(ops, Inserting)|
    ensures Steps(ops, Inserting)[k] < |ops| && Inserting(ops[Steps(ops, Inserting)[k]])
    ensures RowIs(l, ops, Steps(ops, Inserting)[k], |l| + k)
  {
    var before := ops[..|ops| - 1];
    StepsExact(ops, Inserting, Steps(ops, Inserting)[k]);
    StepsNext(ops, Inserting);
    if k < |Steps(before, Inserting)| {
      RowOfVerdict(l, before, k);
      RowKept(l, ops, Steps(before, Inserting)[k], |l| + k);
    } else {
      LedgerCountsRequests(l, before);
      NewRow(l, ops);
    }
  }

  lemma NewRow(l: Ledger, ops: seq<Op>)
    requires ops != [] && Inserting(ops[|ops| - 1])
    ensures RowIs(l, ops, |ops| - 1, |ApplyOps(l, ops[..|ops| - 1])|)
  {
    var e := ops[|ops| - 1].evaluation;
    assert ApplyOps(l, ops) == ApplyOps(l, ops[..|ops| - 1]) + [RequestedApproval(e.req, e.now)];
    assert ops[|ops| - 1 + 1..] == [];
  }

  /** A ruling on row `i` that committed, whether or not its answer was lost. */
  predicate RulesOn(op: Op, i: nat) {
    op.Rule? && op.id == i && !op.fault.RaisedBefore?
  }

  ghost predicate NeverRuled(ops: seq<Op>, i: nat) {
    forall j :: 0 <= j < |ops| ==> !RulesOn(ops[j], i)
  }

  lemma NeverRuledNext(ops: seq<Op>, i: nat)
    requires ops != []
    ensures NeverRuled(ops, i) <==> NeverRuled(ops[..|ops| - 1], i) && !RulesOn(ops[|ops| - 1], i)
  {
    var n := |ops| - 1;
    assert forall j :: 0 <= j < n ==> ops[..n][j] == ops[j];
  }

  /** A decided row never becomes pending again; it is decided from its first ruling on. */
  lemma {:induction false} DecidedStaysDecided(l: Ledger, ops: seq<Op>, i: nat)
    requires i < |l|
    ensures i < |ApplyOps(l, ops)|
    ensures ApplyOps(l, ops)[i].decision.Undecided? <==> l[i].decision.Undecided? && NeverRuled(ops, i)
  {
    if ops != [] {
      DecidedStaysDecided(l, ops[..|ops| - 1], i);
      RowNext(l, ops, i);
      NeverRuledNext(ops, i);
    }
  }

  /** The last committed ruling on row `i` is the operation at `k`. */
  ghost predicate LastRuling(ops: seq<Op>, i: nat, k: nat) {
    && k < |ops| && RulesOn(ops[k], i)
    && forall j :: k < j < |ops| ==> !RulesOn(ops[j], i)
  }

  /** The three columns that every ruling sets. */
  ghost predicate DecidedBy(a: Approval, r: Ruling) {
    && (r.approve ==> a.decision == Approved) && (!r.approve ==> a.decision == Declined)
    && a.decidedBy == Some(r.decider) && a.decidedAt == Some(r.at)
  }

  lemma RuledColumns(a: Approval, r: Ruling)
    ensures DecidedBy(Ruled(a, r), r)
    ensures Ruled(a, r).notes == if r.notes.Some? then r.notes else a.notes
  {
  }

  lemma LastRulingBefore(ops: seq<Op>, i: nat, k: nat)
    requires ops != [] && LastRuling(ops, i, k) && k < |ops| - 1
    ensures LastRuling(ops[..|ops| - 1], i, k) && !RulesOn(ops[|ops| - 1], i)
    ensures ops[..|ops| - 1][k] == ops[k] && ops[..|ops| - 1][..k] == ops[..k]
  {
    var n := |ops| - 1;
    assert forall j :: 0 <= j < n ==> ops[..n][j] == ops[j];
  }

  /** A row's decision, and who made it and when, are those of the last committed ruling on it, whether the row was
      there from the start or inserted on the way. */
  lemma {:induction false} DecisionIsLatest(l: Ledger, ops: seq<Op>, i: nat, k: nat)
    requires LastRuling(ops, i, k) && i < |ApplyOps(l, ops[..k])|
    ensures i < |ApplyOps(l, ops)|
    ensures ops[k].ruling.approve ==> ApplyOps(l, ops)[i].decision == Approved
    ensures !ops[k].ruling.approve ==> ApplyOps(l, ops)[i].decision == Declined
    ensures ApplyOps(l, ops)[i].decidedBy == Some(ops[k].ruling.decider)
    ensures ApplyOps(l, ops)[i].decidedAt == Some(ops[k].ruling.at)
  {
    var n := |ops| - 1;
    if k == n {
      RowNext(l, ops, i);
      RuledColumns(ApplyOps(l, ops[..n])[i], ops[n].ruling);
    } else {
      LastRulingBefore(ops, i, k);
      DecisionIsLatest(l, ops[..n], i, k);
      RowNext(l, ops, i);
    }
  }

  predicate CarriesNotes(op: Op, i: nat) {
    RulesOn(op, i) && op.ruling.notes.Some?
  }

  /** From the operation at `b` on, `k` is the last committed ruling on row `i` that carried notes, or `b - 1` when none
      did. */
  ghost predicate LastNotes(ops: seq<Op>, i: nat, b: nat, k: int) {
    && b - 1 <= k < |ops| && (k >= b ==> CarriesNotes(ops[k], i))
    && forall j :: k < j < |ops| ==> !CarriesNotes(ops[j], i)
  }

  lemma NotesBefore(ops: seq<Op>, i: nat, b: nat, k: int)
    requires ops != [] && LastNotes(ops, i, b, k) && k < |ops| - 1 && b < |ops|
    ensures LastNotes(ops[..|ops| - 1], i, b, k) && !CarriesNotes(ops[|ops| - 1], i)
    ensures ops[..|ops| - 1][..b] == ops[..b] && (k >= 0 ==> ops[..|ops| - 1][k] == ops[k])
  {
    var n := |ops| - 1;
    assert forall j :: 0 <= j < n ==> ops[..n][j] == ops[j];
  }

  lemma NotesNext(l: Ledger, ops: seq<Op>, i: nat)
    requires ops != [] && i < |ApplyOps(l, ops[..|ops| - 1])|
    ensures i < |ApplyOps(l, ops)|
    ensures var op := ops[|ops| - 1];
            ApplyOps(l, ops)[i].notes
            == if CarriesNotes(op, i) then op.ruling.notes else ApplyOps(l, ops[..|ops| - 1])[i].notes
  {
    var op := ops[|ops| - 1];
    RowNext(l, ops, i);
    if op.Rule? { RuledColumns(ApplyOps(l, ops[..|ops| - 1])[i], op.ruling); }
  }

  /** Once a row is there, its notes are those of the last committed ruling on it that carried any, else the ones it
      had. */
  lemma {:induction false} NotesAreLatest(l: Ledger, ops: seq<Op>, i: nat, b: nat, k: int)
    requires b <= |ops| && i < |ApplyOps(l, ops[..b])| && LastNotes(ops, i, b, k)
    ensures i < |ApplyOps(l, ops)|
    ensures ApplyOps(l, ops)[i].notes == if k >= b then ops[k].ruling.notes else ApplyOps(l, ops[..b])[i].notes
  {
    var n := |ops| - 1;
    if b == |ops| {
      assert ops[..b] == ops;
    } else {
      RowStays(l, ops, i, b);
      NotesNext(l, ops, i);
      if k < n {
        NotesBefore(ops, i, b, k);
        NotesAreLatest(l, ops[..n], i, b, k);
      }
    }
  }

  /** A row that was there after `b` operations is there just before the last one. */
  lemma {:induction false} RowStays(l: Ledger, ops: seq<Op>, i: nat, b: nat)
    requires b < |ops| && i < |ApplyOps(l, ops[..b])|
    ensures i < |ApplyOps(l, ops[..|ops| - 1])|
  {
    var before := ops[..|ops| - 1];
    assert before[..b] == ops[..b];
    if b < |before| {
      RowStays(l, before, i, b);
      RowNext(l, before, i);
    } else {
      assert before == ops[..b];
    }
  }

  /** What a request asked for is never rewritten: rulings leave a row's request columns alone. */
  lemma {:induction false} RequestColumnsStay(l: Ledger, ops: seq<Op>, i: nat)
    requires i < |l|
    ensures i < |ApplyOps(l, ops)|
    ensures var a := ApplyOps(l, ops)[i];
            && a.workItemId == l[i].workItemId && a.taskRunId == l[i].taskRunId && a.gateName == l[i].gateName
            && a.requestedFrom == l[i].requestedFrom && a.createdAt == l[i].createdAt
  {
    if ops != [] {
      RequestColumnsStay(l, ops[..|ops| - 1], i);
      RowNext(l, ops, i);
    }
  }

  predicate Carries(op: Op, i: nat, key: string) {
    RulesOn(op, i) && key in op.ruling.evidence
  }

  /** `k` is the last ruling on row `i` that carried the key, or -1 when none did. */
  ghost predicate LastCarrier(ops: seq<Op>, i: nat, key: string, k: int) {
    && -1 <= k < |ops| && (k >= 0 ==> Carries(ops[k], i, key))
    && forall j :: k < j < |ops| ==> !Carries(ops[j], i, key)
  }

  function EvidenceUnder(a: Approval, key: string): Option<Evidence> {
    if key in a.evidence then Some(a.evidence[key]) else None
  }

  lemma CarrierBefore(ops: seq<Op>, i: nat, key: string, k: int)
    requires ops != [] && LastCarrier(ops, i, key, k) && k < |ops| - 1
    ensures LastCarrier(ops[..|ops| - 1], i, key, k) && !Carries(ops[|ops| - 1], i, key)
    ensures k >= 0 ==> ops[..|ops| - 1][k] == ops[k]
  {
  }

  lemma EvidenceNext(l: Ledger, ops: seq<Op>, i: nat, key: string)
    requires ops != [] && i < |ApplyOps(l, ops[..|ops| - 1])|
    ensures i < |ApplyOps(l, ops)|
    ensures var before, op := ApplyOps(l, ops[..|ops| - 1])[i], ops[|ops| - 1];
            EvidenceUnder(ApplyOps(l, ops)[i], key)
            == if Carries(op, i, key) then Some(op.ruling.evidence[key]) else EvidenceUnder(before, key)
  {
    RowNext(l, ops, i);
  }

  /** Evidence is the right-biased merge of everything recorded: under each key a row holds what the last
      ruling on it that carried the key said, else what it held before. So no key is ever lost. */
  lemma {:induction false} EvidenceIsLatest(l: Ledger, ops: seq<Op>, i: nat, key: string, k: int)
    requires i < |l| && LastCarrier(ops, i, key, k)
    ensures |ApplyOps(l, ops)| >= |l|
    ensures EvidenceUnder(ApplyOps(l, ops)[i], key)
         == if k >= 0 then Some(ops[k].ruling.evidence[key]) else EvidenceUnder(l[i], key)
  {
    if ops != [] {
      var n := |ops| - 1;
      LedgerCountsRequests(l, ops[..n]);
      EvidenceNext(l, ops, i, key);
      if k < n {
        CarrierBefore(ops, i, key, k);
        EvidenceIsLatest(l, ops[..n], i, key, k);
      }
    }
  }

  // ---------------------------------------------------------------- the pending list

  predicate Listed(a: Approval, workItemId: Option<string>) {
    a.decision.Undecided? && (workItemId.Some? ==> a.workItemId == workItemId.value)
  }

  function InsertByAge(l: Ledger, ids: seq<nat>, i: nat): seq<nat>
    requires i < |l| && forall k :: 0 <= k < |ids| ==> ids[k] < |l|
  {
    if ids == [] || l[ids[|ids| - 1]].createdAt <= l[i].createdAt then ids + [i]
    else InsertByAge(l, ids[..|ids| - 1], i) + [ids[|ids| - 1]]
  }

  /** The pending ids with row `i` considered too. */
  function WithRow(l: Ledger, workItemId: Option<string>, ids: seq<nat>, i: nat): (next: seq<nat>)
    requires i < |l| && forall k :: 0 <= k < |ids| ==> ids[k] < i
    ensures forall k :: 0 <= k < |next| ==> next[k] < i + 1
  {
    if Listed(l[i], workItemId) then InsertWithin(l, ids, i); InsertByAge(l, ids, i) else ids
  }

  /** The ids of the pending rows among the first `n`, ordered by `created_at`. */
  function PendingIds(l: Ledger, workItemId: Option<string>, n: nat): (ids: seq<nat>)
    requires n <= |l|
    ensures forall k :: 0 <= k < |ids| ==> ids[k] < n
  {
    if n == 0 then [] else WithRow(l, workItemId, PendingIds(l, workItemId, n - 1), n - 1)
  }

  lemma {:induction false} InsertWithin(l: Ledger, ids: seq<nat>, i: nat)
    requires i < |l| && forall k :: 0 <= k < |ids| ==> ids[k] < i
    ensures forall x :: x in InsertByAge(l, ids, i) <==> x in ids || x == i
    ensures forall k :: 0 <= k < |InsertByAge(l, ids, i)| ==> InsertByAge(l, ids, i)[k] <= i
    ensures |InsertByAge(l, ids, i)| == |ids| + 1
  {
    if !(ids == [] || l[ids[|ids| - 1]].createdAt <= l[i].createdAt) {
      var n := |ids| - 1;
      InsertWithin(l, ids[..n], i);
      assert ids == ids[..n] + [ids[n]];
    }
  }

  predicate Older(l: Ledger, i: nat, j: nat) {
    i != j && i < |l| && j < |l| && l[i].createdAt <= l[j].createdAt
  }

  /** Oldest first, each id once. */
  ghost predicate SortedByAge(l: Ledger, ids: seq<nat>) {
    forall j, k :: 0 <= j < k < |ids| ==> Older(l, ids[j], ids[k])
  }

  lemma SortedSnoc(l: Ledger, ids: seq<nat>, x: nat)
    requires SortedByAge(l, ids) && forall y :: y in ids ==> Older(l, y, x)
    ensures SortedByAge(l, ids + [x])
  {
  }

  lemma {:induction false} InsertSorted(l: Ledger, ids: seq<nat>, i: nat)
    requires i < |l| && SortedByAge(l, ids) && forall k :: 0 <= k < |ids| ==> ids[k] < i
    ensures SortedByAge(l, InsertByAge(l, ids, i))
  {
    if ids != [] {
      var n := |ids| - 1;
      var last := ids[n];
      assert forall y :: y in ids ==> y == last || y in ids[..n];
      assert forall y :: y in ids[..n] ==> Older(l, y, last);
      if l[last].createdAt <= l[i].createdAt {
        SortedSnoc(l, ids, i);
      } else {
        InsertSorted(l, ids[..n], i);
        InsertWithin(l, ids[..n], i);
        SortedSnoc(l, InsertByAge(l, ids[..n], i), last);
      }
    }
  }

  lemma WithRowSorted(l: Ledger, workItemId: Option<string>, ids: seq<nat>, i: nat)
    requires i < |l| && SortedByAge(l, ids) && forall k :: 0 <= k < |ids| ==> ids[k] < i
    ensures SortedByAge(l, WithRow(l, workItemId, ids, i))
  {
    InsertSorted(l, ids, i);
  }

  lemma {:induction false} PendingIdsSorted(l: Ledger, workItemId: Option<string>, n: nat)
    requires n <= |l|
    ensures SortedByAge(l, PendingIds(l, workItemId, n))
  {
    if n > 0 {
      PendingIdsSorted(l, workItemId, n - 1);
      WithRowSorted(l, workItemId, PendingIds(l, workItemId, n - 1), n - 1);
    }
  }

  lemma {:induction false} PendingIdsComplete(l: Ledger, workItemId: Option<string>, n: nat, i: nat)
    requires n <= |l|
    ensures i in PendingIds(l, workItemId, n) <==> i < n && Listed(l[i], workItemId)
  {
    if n > 0 {
      PendingIdsComplete(l, workItemId, n - 1, i);
      if Listed(l[n - 1], workItemId) {
        InsertWithin(l, PendingIds(l, workItemId, n - 1), n - 1);
      }
    }
  }

  /** `list_pending_approvals`. */
  function ListPending(l: Ledger, workItemId: Option<string>, limit: nat): seq<nat> {
    var ids := PendingIds(l, workItemId, |l|);
    if limit < |ids| then ids[..limit] else ids
  }

  /** The page lists pending rows of the work item only, oldest first and each once, and is cut only by the limit. */
  lemma PendingPage(l: Ledger, workItemId: Option<string>, limit: nat)
    ensures SortedByAge(l, ListPending(l, workItemId, limit)) && |ListPending(l, workItemId, limit)| <= limit
    ensures forall i :: i in ListPending(l, workItemId, limit) ==>
                          && i < |l| && l[i].decision.Undecided?
                          && (workItemId.None? || workItemId.value == l[i].workItemId)
    ensures |ListPending(l, workItemId, limit)| < limit ==>
              forall i: nat :: i < |l| && l[i].decision.Undecided?
                               && (workItemId.None? || workItemId.value == l[i].workItemId) ==>
                                 i in ListPending(l, workItemId, limit)
  {
    var ids := PendingIds(l, workItemId, |l|);
    PendingIdsSorted(l, workItemId, |l|);
    assert ids[..|ids|] == ids;
    forall i: nat ensures i in ids <==> i < |l| && Listed(l[i], workItemId) {
      PendingIdsComplete(l, workItemId, |l|, i);
    }
  }

  /** A pending row that is left out is left out because the page is full, and is no older than any listed row. */
  lemma NothingOlderOmitted(l: Ledger, workItemId: Option<string>, limit: nat, out: nat, listed: nat)
    requires out < |l| && Listed(l[out], workItemId) && out !in ListPending(l, workItemId, limit)
    requires listed in ListPending(l, workItemId, limit)
    ensures |ListPending(l, workItemId, limit)| == limit
    ensures listed < |l| && l[listed].createdAt <= l[out].createdAt
  {
    var ids := PendingIds(l, workItemId, |l|);
    PendingIdsSorted(l, workItemId, |l|);
    PendingIdsComplete(l, workItemId, |l|, out);
    var b :| 0 <= b < |ids| && ids[b] == out;
    var a :| 0 <= a < |ListPending(l, workItemId, limit)| && ListPending(l, workItemId, limit)[a] == listed;
    assert Older(l, ids[a], ids[b]);
  }

  /** A ruling that commits takes its row off the pending list, and changes nothing else about who is on it. */
  lemma RuledRowLeavesList(l: Ledger, id: nat, r: Ruling, fault: Fault, workItemId: Option<string>, i: nat)
    requires id < |l|
    ensures i in PendingIds(ApplyOp(l, Rule(id, r, fault)), workItemId, |l|) <==>
              i in PendingIds(l, workItemId, |l|) && (i != id || fault.RaisedBefore?)
  {
    PendingIdsComplete(l, workItemId, |l|, i);
    PendingIdsComplete(ApplyOp(l, Rule(id, r, fault)), workItemId, |l|, i);
  }
}
