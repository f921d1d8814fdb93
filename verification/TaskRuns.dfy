/** The `task_runs` table, the budget scopes over it and the two aggregates the
    policy bridge computes: spend on a day and number of active runs. */
module TaskRuns {
  import opened Prelude

  datatype RunStatus = Pending | Running | Succeeded | Failed | Cancelled

  predicate Active(s: RunStatus) {
    s.Pending? || s.Running?
  }

  datatype WorkItem = WorkItem(workspace: string, kind: string)

  /** Money is a whole number of micro-USD (`numeric(10,6)`); `day` is the UTC day of `created_at`. */
  datatype TaskRun = TaskRun(
    workItem: string,
    agent: Option<string>,
    status: RunStatus,
    traceId: Option<string>,
    cost: Option<nat>,
    tokens: Option<nat>,
    startedAt: Option<int>,
    endedAt: Option<int>,
    summary: Option<string>,
    error: Option<string>,
    day: int)

  /** A row's id is its index: rows are only ever inserted and updated. */
  type Rows = seq<TaskRun>
  type Items = map<string, WorkItem>

  datatype ScopeType = Global | Workspace | AgentProfile | WorkItemKind
  datatype Scope = Scope(kind: ScopeType, id: string)

  /** The WHERE clause shared by the two aggregate queries, after the inner join with `work_items`. */
  predicate InScope(items: Items, r: TaskRun, s: Scope) {
    && r.workItem in items
    && match s.kind
       case Global => true
       case Workspace => items[r.workItem].workspace == s.id
       case AgentProfile => r.agent == Some(s.id)
       case WorkItemKind => items[r.workItem].kind == s.id
  }

  function CostOf(r: TaskRun): nat {
    if r.cost.Some? then r.cost.value else 0
  }

  /** What is aggregated: recorded cost of the runs created on a day, or one per active run. */
  datatype Measure = SpendOn(day: int) | ActiveNow

  function Weight(r: TaskRun, m: Measure): nat {
    match m
    case SpendOn(day) => if r.day == day then CostOf(r) else 0
    case ActiveNow => if Active(r.status) then 1 else 0
  }

  function Contribution(items: Items, r: TaskRun, s: Scope, m: Measure): nat {
    if InScope(items, r, s) then Weight(r, m) else 0
  }

  function Aggregate(items: Items, rows: Rows, s: Scope, m: Measure): nat {
    if rows == [] then 0
    else Aggregate(items, rows[..|rows| - 1], s, m) + Contribution(items, rows[|rows| - 1], s, m)
  }

  function DailySpend(items: Items, rows: Rows, s: Scope, day: int): nat {
    Aggregate(items, rows, s, SpendOn(day))
  }

  function ActiveCount(items: Items, rows: Rows, s: Scope): nat {
    Aggregate(items, rows, s, ActiveNow)
  }

  // ---------------------------------------------------------------- how an aggregate moves

  lemma AggregateInsert(items: Items, rows: Rows, r: TaskRun, s: Scope, m: Measure)
    ensures Aggregate(items, rows + [r], s, m) == Aggregate(items, rows, s, m) + Contribution(items, r, s, m)
  {
    assert (rows + [r])[..|rows|] == rows;
  }

  /** The two figures, row by row: a run counts as spend with its recorded cost on the day it was created, and as active
      while it is pending or running; under a scope it counts when its work item exists and matches. */
  lemma OneMoreRun(items: Items, rows: Rows, r: TaskRun, s: Scope, day: int)
    ensures DailySpend(items, [], s, day) == 0 && ActiveCount(items, [], s) == 0
    ensures var counted := r.workItem in items
                           && match s.kind
                              case Global => true
                              case Workspace => s.id == items[r.workItem].workspace
                              case AgentProfile => r.agent.Some? && s.id == r.agent.value
                              case WorkItemKind => s.id == items[r.workItem].kind;
            && DailySpend(items, rows + [r], s, day) - DailySpend(items, rows, s, day)
               == (match r.cost case None => 0 case Some(c) => if counted && r.day == day then c else 0)
            && ActiveCount(items, rows + [r], s) - ActiveCount(items, rows, s)
               == (if counted && r.status in {Pending, Running} then 1 else 0)
  {
    AggregateInsert(items, rows, r, s, SpendOn(day));
    AggregateInsert(items, rows, r, s, ActiveNow);
  }

  lemma {:induction false} AggregateUpdate(items: Items, rows: Rows, i: nat, r: TaskRun, s: Scope, m: Measure)
    requires i < |rows|
    ensures Aggregate(items, rows[i := r], s, m) + Contribution(items, rows[i], s, m)
         == Aggregate(items, rows, s, m) + Contribution(items, r, s, m)
  {
    var n := |rows| - 1;
    if i == n {
      assert rows[i := r][..n] == rows[..n];
    } else {
      assert rows[i := r][..n] == rows[..n][i := r];
      AggregateUpdate(items, rows[..n], i, r, s, m);
    }
  }

  // ---------------------------------------------------------------- conservation across scopes

  /** The sum of one aggregate over the scopes of one type named by `ids`. */
  function SumOverScopes(items: Items, rows: Rows, kind: ScopeType, ids: seq<string>, m: Measure): nat {
    if ids == [] then 0
    else SumOverScopes(items, rows, kind, ids[1..], m) + Aggregate(items, rows, Scope(kind, ids[0]), m)
  }

  /** The id under which a run is counted in the scopes of one type, if it is counted at all. */
  function ScopeIdOf(items: Items, r: TaskRun, kind: ScopeType): Option<string>
    requires r.workItem in items
  {
    match kind
    case Global => Some("global")
    case Workspace => Some(items[r.workItem].workspace)
    case AgentProfile => r.agent
    case WorkItemKind => Some(items[r.workItem].kind)
  }

  predicate CountedUnder(items: Items, r: TaskRun, kind: ScopeType, ids: seq<string>)
    requires r.workItem in items
  {
    ScopeIdOf(items, r, kind).Some? && ScopeIdOf(items, r, kind).value in ids
  }

  lemma {:induction false} SumOfEmptyTable(items: Items, kind: ScopeType, ids: seq<string>, m: Measure)
    ensures SumOverScopes(items, [], kind, ids, m) == 0
  {
    if ids != [] { SumOfEmptyTable(items, kind, ids[1..], m); }
  }

  /** One more row adds its weight once if some listed scope counts it, and nothing otherwise. */
  lemma {:induction false} SumOverScopesInsert(items: Items, rows: Rows, r: TaskRun, kind: ScopeType,
                                               ids: seq<string>, m: Measure)
    requires r.workItem in items && kind != Global && Distinct(ids)
    ensures SumOverScopes(items, rows + [r], kind, ids, m)
         == SumOverScopes(items, rows, kind, ids, m) + (if CountedUnder(items, r, kind, ids) then Weight(r, m) else 0)
  {
    if ids != [] {
      AggregateInsert(items, rows, r, Scope(kind, ids[0]), m);
      SumOverScopesInsert(items, rows, r, kind, ids[1..], m);
      assert forall x :: x in ids <==> x == ids[0] || x in ids[1..];
    }
  }

  /** Spend and active count are conserved: the listed scopes of one type never sum to more than
      the global figure, and to exactly it when they cover every run of the table. */
  lemma {:induction false} Conservation(items: Items, rows: Rows, kind: ScopeType, ids: seq<string>, m: Measure,
                                        g: string)
    requires forall i :: 0 <= i < |rows| ==> rows[i].workItem in items
    requires kind != Global && Distinct(ids)
    ensures SumOverScopes(items, rows, kind, ids, m) <= Aggregate(items, rows, Scope(Global, g), m)
    ensures (forall i :: 0 <= i < |rows| ==> CountedUnder(items, rows[i], kind, ids))
            ==> SumOverScopes(items, rows, kind, ids, m) == Aggregate(items, rows, Scope(Global, g), m)
  {
    if rows == [] {
      SumOfEmptyTable(items, kind, ids, m);
    } else {
      var n := |rows| - 1;
      Conservation(items, rows[..n], kind, ids, m, g);
      assert rows == rows[..n] + [rows[n]];
      SumOverScopesInsert(items, rows[..n], rows[n], kind, ids, m);
      AggregateInsert(items, rows[..n], rows[n], Scope(Global, g), m);
    }
  }

  /** The workspaces partition the global figure, the kinds do too, and the agent profiles fall
      short of it by exactly the runs that name no profile. */
  lemma {:induction false} ProfileShortfall(items: Items, rows: Rows, ids: seq<string>, m: Measure, g: string)
    requires forall i :: 0 <= i < |rows| ==> rows[i].workItem in items
    requires Distinct(ids) && forall i :: 0 <= i < |rows| && rows[i].agent.Some? ==> rows[i].agent.value in ids
    ensures SumOverScopes(items, rows, AgentProfile, ids, m) + WithoutProfile(rows, m)
         == Aggregate(items, rows, Scope(Global, g), m)
  {
    if rows == [] {
      SumOfEmptyTable(items, AgentProfile, ids, m);
    } else {
      var n := |rows| - 1;
      ProfileShortfall(items, rows[..n], ids, m, g);
      assert rows == rows[..n] + [rows[n]];
      SumOverScopesInsert(items, rows[..n], rows[n], AgentProfile, ids, m);
      AggregateInsert(items, rows[..n], rows[n], Scope(Global, g), m);
    }
  }

  function WithoutProfile(rows: Rows, m: Measure): nat {
    if rows == [] then 0
    else
      var last := rows[|rows| - 1];
      WithoutProfile(rows[..|rows| - 1], m) + if last.agent.None? then Weight(last, m) else 0
  }
}
