/** Row updates of `task_runs` by the observability bridge and the handlers that issue them. */
module TaskRunStore {
  import opened Prelude
  import opened TaskRuns

  /** What Langfuse reported for a trace; the table's types and CHECKs decide whether it can be stored. */
  datatype TraceMetrics = TraceMetrics(traceId: string, cost: Option<int>, tokens: Option<int>)

  const COST_BOUND: int := 10_000_000_000    // numeric(10,6), in micro-USD
  const INTEGER_BOUND: int := 0x8000_0000    // integer

  predicate Storable(m: TraceMetrics) {
    && (m.cost.Some? ==> 0 <= m.cost.value < COST_BOUND)
    && (m.tokens.Some? ==> 0 <= m.tokens.value < INTEGER_BOUND)
  }

  datatype CompleteEvent = CompleteEvent(
    taskRunId: nat,
    status: RunStatus,
    traceId: Option<string>,
    completedAt: Option<int>,
    summary: Option<string>,
    error: Option<string>,
    syncGraphiti: bool)

  /** One committed UPDATE of a row. */
  datatype Write =
    | Link(traceId: string)
    | Metrics(metrics: TraceMetrics)
    | Complete(event: CompleteEvent, endedAt: int)

  function AsNat(v: Option<int>): Option<nat>
    requires v.Some? ==> v.value >= 0
  {
    match v case None => None case Some(n) => Some(n)
  }

  /** The CHECK constraints a write must meet; the UPDATE raises, and changes nothing, otherwise. */
  predicate Accepted(r: TaskRun, w: Write) {
    match w
    case Link(_) => true
    case Metrics(m) => Storable(m)
    case Complete(_, endedAt) => r.startedAt.Some? ==> r.startedAt.value <= endedAt
  }

  function Apply(r: TaskRun, w: Write): TaskRun
    requires Accepted(r, w)
  {
    match w
    case Link(t) => r.(traceId := Some(t))
    case Metrics(m) => r.(
      traceId := Coalesce(Some(m.traceId), r.traceId),
      cost := Coalesce(AsNat(m.cost), r.cost),
      tokens := Coalesce(AsNat(m.tokens), r.tokens))
    case Complete(e, endedAt) => r.(
      status := e.status,
      endedAt := Some(endedAt),
      summary := Coalesce(e.summary, r.summary),
      error := Coalesce(e.error, r.error),
      traceId := Coalesce(e.traceId, r.traceId))
  }

  // ---------------------------------------------------------------- the store

  class TaskRunTable {
    var rows: Rows

    constructor (rows: Rows)
      ensures this.rows == rows
    {
      this.rows := rows;
    }
  }

  /** A statement returns the updated row, returns no row, or raises. */
  datatype Updated = Row(row: TaskRun) | NoRow | Raised

  /** The answer of one UPDATE by id, and the table after it. */
  function UpdateOutcome(rows: Rows, id: nat, w: Write, fault: Fault): Updated {
    if !fault.NoFault? then Raised
    else if id >= |rows| then NoRow
    else if !Accepted(rows[id], w) then Raised
    else Row(Apply(rows[id], w))
  }

  function UpdateRows(rows: Rows, id: nat, w: Write, fault: Fault): Rows {
    if id < |rows| && Accepted(rows[id], w) && !fault.RaisedBefore? then rows[id := Apply(rows[id], w)] else rows
  }

  class Store {
    const table: TaskRunTable

    constructor (table: TaskRunTable)
      ensures this.table == table
    {
      this.table := table;
    }

    method UpdateTraceLink(id: nat, traceId: string, fault: Fault) returns (u: Updated)
      modifies table
      ensures u == UpdateOutcome(old(table.rows), id, Link(traceId), fault)
      ensures u.Row? <==> fault.NoFault? && id < |old(table.rows)|
      ensures u.NoRow? <==> fault.NoFault? && id >= |old(table.rows)|
      ensures table.rows == UpdateRows(old(table.rows), id, Link(traceId), fault)
    {
      if fault.RaisedBefore? {
        return Raised;
      }
      if id >= |table.rows| {
        return if fault.NoFault? then NoRow else Raised;
      }
      var r := table.rows[id].(traceId := Some(traceId));
      table.rows := table.rows[id := r];
      u := if fault.NoFault? then Row(r) else Raised;
    }

    /** An empty trace id reads as none. */
    method GetTraceId(id: nat) returns (t: Option<string>)
      ensures t.Some? <==> id < |table.rows| && table.rows[id].traceId.Some? && table.rows[id].traceId.value != ""
      ensures t.Some? ==> t == table.rows[id].traceId
    {
      t := if id < |table.rows| then table.rows[id].traceId else None;
      if t == Some("") {
        t := None;
      }
    }

    method UpdateTraceMetrics(id: nat, m: TraceMetrics, fault: Fault) returns (u: Updated)
      modifies table
      ensures u == UpdateOutcome(old(table.rows), id, Metrics(m), fault)
      ensures u.Row? <==> && fault.NoFault? && id < |old(table.rows)|
                          && (m.cost.Some? ==> 0 <= m.cost.value < 10_000_000_000)
                          && (m.tokens.Some? ==> 0 <= m.tokens.value < 0x8000_0000)
      ensures u.NoRow? <==> fault.NoFault? && id >= |old(table.rows)|
      ensures table.rows == UpdateRows(old(table.rows), id, Metrics(m), fault)
    {
      if fault.RaisedBefore? {
        return Raised;
      }
      if id >= |table.rows| {
        return if fault.NoFault? then NoRow else Raised;
      }
      if !Storable(m) {
        return Raised;
      }
      var r := table.rows[id];
      r := r.(traceId := Some(m.traceId), cost := Coalesce(AsNat(m.cost), r.cost),
          tokens := Coalesce(AsNat(m.tokens), r.tokens));
      table.rows := table.rows[id := r];
      u := if fault.NoFault? then Row(r) else Raised;
    }

    method CompleteTaskRun(e: CompleteEvent, now: int, fault: Fault) returns (u: Updated)
      modifies table
      ensures u == UpdateOutcome(old(table.rows), e.taskRunId, Complete(e, EndedAt(e, now)), fault)
      ensures u.Row? <==> && fault.NoFault? && e.taskRunId < |old(table.rows)|
                          && match old(table.rows)[e.taskRunId].startedAt
                             case None => true
                             case Some(t) => t <= if e.completedAt.Some? then e.completedAt.value else now
      ensures u.NoRow? <==> fault.NoFault? && e.taskRunId >= |old(table.rows)|
      ensures table.rows == UpdateRows(old(table.rows), e.taskRunId, Complete(e, EndedAt(e, now)), fault)
    {
      var endedAt := if e.completedAt.Some? then e.completedAt.value else now;
      if fault.RaisedBefore? {
        return Raised;
      }
      if e.taskRunId >= |table.rows| {
        return if fault.NoFault? then NoRow else Raised;
      }
      var r := table.rows[e.taskRunId];
      if r.startedAt.Some? && r.startedAt.value > endedAt {
        return Raised;
      }
      r := r.(status := e.status, endedAt := Some(endedAt), summary := Coalesce(e.summary, r.summary),
              error := Coalesce(e.error, r.error), traceId := Coalesce(e.traceId, r.traceId));
      table.rows := table.rows[e.taskRunId := r];
      u := if fault.NoFault? then Row(r) else Raised;
    }
  }

  function EndedAt(e: CompleteEvent, now: int): int {
    if e.completedAt.Some? then e.completedAt.value else now
  }

  // ---------------------------------------------------------------- the handlers

  /** The answer of `fetch_trace_metrics` for a trace id, or its failure. */
  datatype Fetched = Found(cost: Option<int>, tokens: Option<int>) | FetchFailed

  datatype SyncResponse = Synced(run: TaskRun, metrics: TraceMetrics) | TraceIdRequired | TaskRunNotFound | ServerError

  datatype CompleteResponse =
    | Completed(run: TaskRun, traceSynced: bool, graphitiRequested: bool, graphitiCompleted: bool)
    | CompleteNotFound
    | CompleteError

  predicate Usable(t: Option<string>) {
    t.Some? && t.value != ""
  }

  /** The metrics write a completion goes on to make, given the row its own write left. */
  function FollowUp(r: TaskRun, e: CompleteEvent, fetched: Fetched): seq<Write> {
    var t := if Usable(e.traceId) then e.traceId else r.traceId;
    if !Usable(t) || fetched.FetchFailed? then []
    else
      var m := TraceMetrics(t.value, fetched.cost, fetched.tokens);
      if Storable(m) then [Metrics(m)] else []
  }

  /** `link_trace`: a 404 is the `NoRow` outcome. */
  method LinkTrace(store: Store, id: nat, traceId: string, fault: Fault) returns (u: Updated)
    requires traceId != ""
    modifies store.table
    ensures u == UpdateOutcome(old(store.table.rows), id, Link(traceId), fault)
    ensures store.table.rows == UpdateRows(old(store.table.rows), id, Link(traceId), fault)
  {
    u := store.UpdateTraceLink(id, traceId, fault);
  }

  /** `sync_trace`: the payload's trace id, else the linked one, else a 422. Every exception propagates. */
  method SyncTrace(store: Store, id: nat, traceId: Option<string>, readOk: bool, fetched: Fetched, fault: Fault)
    returns (resp: SyncResponse)
    modifies store.table
    ensures var before := old(store.table.rows);
            var t := if Usable(traceId) then traceId else if id < |before| then before[id].traceId else None;
            if !Usable(traceId) && !readOk then resp == ServerError && store.table.rows == before
            else if !Usable(t) then resp == TraceIdRequired && store.table.rows == before
            else if fetched.FetchFailed? then resp == ServerError && store.table.rows == before
            else
              var m := TraceMetrics(t.value, fetched.cost, fetched.tokens);
              && store.table.rows == UpdateRows(before, id, Metrics(m), fault)
              && resp == match UpdateOutcome(before, id, Metrics(m), fault)
                         case Row(r) => Synced(r, m)
                         case NoRow => TaskRunNotFound
                         case Raised => ServerError
  {
    var t := traceId;
    if !Usable(t) {
      if !readOk {
        return ServerError;
      }
      t := store.GetTraceId(id);
    }
    if !Usable(t) {
      return TraceIdRequired;
    }
    if fetched.FetchFailed? {
      return ServerError;
    }
    var m := TraceMetrics(t.value, fetched.cost, fetched.tokens);
    var u := store.UpdateTraceMetrics(id, m, fault);
    match u {
      case Row(r) => resp := Synced(r, m);
      case NoRow => resp := TaskRunNotFound;
      case Raised => resp := ServerError;
    }
  }

  /** What a completion that answers leaves of a row, column by column. Cost and tokens are those Langfuse answered
      for the event's trace id or, when that is missing or empty, for the row's; a missing figure keeps the old one. */
  ghost predicate Landed(was: TaskRun, row: TaskRun, e: CompleteEvent, now: int, fetched: Fetched, sync: Fault,
                         resp: CompleteResponse)
    requires resp.Completed?
  {
    var traced := match e.traceId
                  case None => was.traceId.Some? && was.traceId.value != ""
                  case Some(t) => t != "";
    var stores := traced && fetched.Found?
                  && (fetched.cost.Some? ==> 0 <= fetched.cost.value < 10_000_000_000)
                  && (fetched.tokens.Some? ==> 0 <= fetched.tokens.value < 0x8000_0000);
    && row.status == e.status && row.endedAt == (match e.completedAt case None => Some(now) case Some(t) => Some(t))
    && row.summary == (match e.summary case None => was.summary case Some(s) => Some(s))
    && row.error == (match e.error case None => was.error case Some(s) => Some(s))
    && row.traceId == (match e.traceId case None => was.traceId case Some(t) => Some(t))
    && (if stores && !sync.RaisedBefore? && fetched.cost.Some? then row.cost == Some(fetched.cost.value)
        else row.cost == was.cost)
    && (if stores && !sync.RaisedBefore? && fetched.tokens.Some? then row.tokens == Some(fetched.tokens.value)
        else row.tokens == was.tokens)
    && row.workItem == was.workItem && row.agent == was.agent && row.startedAt == was.startedAt && row.day == was.day
    && (resp.traceSynced <==> stores && sync.NoFault?)
    && (resp.traceSynced ==> resp.run == row)
  }

  lemma CompletionLands(was: TaskRun, e: CompleteEvent, now: int, fetched: Fetched, sync: Fault, resp: CompleteResponse)
    requires resp.Completed? && Accepted(was, Complete(e, EndedAt(e, now)))
    requires var r := Apply(was, Complete(e, EndedAt(e, now)));
             resp.run == RowAnswered(r, e, fetched, sync) && resp.traceSynced == Synchronised(r, e, fetched, sync)
    ensures var r := Apply(was, Complete(e, EndedAt(e, now)));
            Landed(was, RowAfterSync(r, e, fetched, sync), e, now, fetched, sync, resp)
  {
  }

  /** `complete_task`: the completion write, then a trace sync and a Graphiti sync whose failures are swallowed.
      The answer carries the row as the last successful write returned it. */
  method CompleteTask(store: Store, e: CompleteEvent, now: int, first: Fault, fetched: Fetched, sync: Fault,
                      graphitiEnabled: bool, graphitiOk: bool) returns (resp: CompleteResponse)
    modifies store.table
    ensures resp.Completed? ==>
              && e.taskRunId < |old(store.table.rows)| == |store.table.rows|
              && Landed(old(store.table.rows)[e.taskRunId], store.table.rows[e.taskRunId], e, now, fetched, sync, resp)
    ensures var before := old(store.table.rows);
            var w := Complete(e, EndedAt(e, now));
            match UpdateOutcome(before, e.taskRunId, w, first)
            case NoRow => resp == CompleteNotFound && store.table.rows == before
            case Raised => resp == CompleteError && store.table.rows == UpdateRows(before, e.taskRunId, w, first)
            case Row(r) =>
              && store.table.rows == before[e.taskRunId := RowAfterSync(r, e, fetched, sync)]
              && resp == Completed(RowAnswered(r, e, fetched, sync), Synchronised(r, e, fetched, sync),
                                   e.syncGraphiti && graphitiEnabled, e.syncGraphiti && graphitiEnabled && graphitiOk)
  {
    var u := store.CompleteTaskRun(e, now, first);
    if u.NoRow? {
      return CompleteNotFound;
    }
    if u.Raised? {
      return CompleteError;
    }
    var taskRun, traceSynced := FollowTrace(store, e, u.row, fetched, sync);
    var requested := e.syncGraphiti && graphitiEnabled;
    var completed := false;
    if requested && graphitiOk {
      completed := true;
    }
    resp := Completed(taskRun, traceSynced, requested, completed);
    CompletionLands(old(store.table.rows)[e.taskRunId], e, now, fetched, sync, resp);
  }

  /** Its trace sync, for the row that the completion write returned. */
  method FollowTrace(store: Store, e: CompleteEvent, completed: TaskRun, fetched: Fetched, sync: Fault)
    returns (taskRun: TaskRun, traceSynced: bool)
    requires e.taskRunId < |store.table.rows| && store.table.rows[e.taskRunId] == completed
    modifies store.table
    ensures taskRun == RowAnswered(completed, e, fetched, sync)
    ensures traceSynced == Synchronised(completed, e, fetched, sync)
    ensures store.table.rows == old(store.table.rows)[e.taskRunId := RowAfterSync(completed, e, fetched, sync)]
  {
    taskRun, traceSynced := completed, false;
    var t := if Usable(e.traceId) then e.traceId else taskRun.traceId;
    if Usable(t) {
      if fetched.Found? {
        var synced := store.UpdateTraceMetrics(e.taskRunId, TraceMetrics(t.value, fetched.cost, fetched.tokens), sync);
        if synced.Row? {
          taskRun := synced.row;
          traceSynced := true;
        }
      }
    }
  }

  predicate Synchronised(r: TaskRun, e: CompleteEvent, fetched: Fetched, sync: Fault) {
    FollowUp(r, e, fetched) != [] && sync.NoFault?
  }

  /** The row in the table once a completion that left row `r` has ended. */
  function RowAfterSync(r: TaskRun, e: CompleteEvent, fetched: Fetched, sync: Fault): TaskRun {
    var ws := FollowUp(r, e, fetched);
    if ws == [] || sync.RaisedBefore? then r else Apply(r, ws[0])
  }

  /** The row its answer carries. */
  function RowAnswered(r: TaskRun, e: CompleteEvent, fetched: Fetched, sync: Fault): TaskRun {
    if Synchronised(r, e, fetched, sync) then Apply(r, FollowUp(r, e, fetched)[0]) else r
  }

  /** The answer carries the row as it is in the table exactly when no metrics write that changes the row committed
      and then raised; and it never reports a sync that did not commit. */
  lemma AnswerIsCurrent(r: TaskRun, e: CompleteEvent, fetched: Fetched, sync: Fault)
    ensures var ws := FollowUp(r, e, fetched);
            RowAnswered(r, e, fetched, sync) == RowAfterSync(r, e, fetched, sync)
            <==> !(ws != [] && sync.RaisedAfter? && Apply(r, ws[0]) != r)
    ensures Synchronised(r, e, fetched, sync) ==>
              RowAfterSync(r, e, fetched, sync) == Apply(r, FollowUp(r, e, fetched)[0])
  {
  }

  /** A stale answer exists: the cost of a run was stored although its answer says that the sync failed. */
  lemma AnswerCanBeStale(r: TaskRun, e: CompleteEvent, cost: nat)
    requires Usable(e.traceId) && r.traceId == e.traceId && cost < COST_BOUND && r.cost != Some(cost)
    ensures RowAnswered(r, e, Found(Some(cost), None), RaisedAfter) == r
    ensures !Synchronised(r, e, Found(Some(cost), None), RaisedAfter)
    ensures RowAfterSync(r, e, Found(Some(cost), None), RaisedAfter).cost == Some(cost)
  {
  }

  // ---------------------------------------------------------------- any sequence of writes

  predicate AllAccepted(r: TaskRun, ws: seq<Write>)
    decreases |ws|
  {
    ws == [] || (Accepted(r, ws[0]) && AllAccepted(Apply(r, ws[0]), ws[1..]))
  }

  function ApplyAll(r: TaskRun, ws: seq<Write>): TaskRun
    requires AllAccepted(r, ws)
    decreases |ws|
  {
    if ws == [] then r else ApplyAll(Apply(r, ws[0]), ws[1..])
  }

  datatype Column = TraceId | Cost | Tokens | Summary | ErrorMessage | EndTime

  /** A column's value, with every type coded as one option of an integer-or-text value. */
  datatype Cell = Text(s: string) | Number(n: int)

  function Read(r: TaskRun, c: Column): Option<Cell> {
    match c
    case TraceId => TextCell(r.traceId)
    case Cost => NumberCell(r.cost)
    case Tokens => NumberCell(r.tokens)
    case Summary => TextCell(r.summary)
    case ErrorMessage => TextCell(r.error)
    case EndTime => NumberCell(r.endedAt)
  }

  function TextCell(v: Option<string>): Option<Cell> {
    match v case None => None case Some(s) => Some(Text(s))
  }

  function NumberCell(v: Option<int>): Option<Cell> {
    match v case None => None case Some(n) => Some(Number(n))
  }

  /** The non-null value a write carries for a column, if any: what the caller supplied. */
  function Supplies(w: Write, c: Column): Option<Cell> {
    match w
    case Link(t) => if c.TraceId? then Some(Text(t)) else None
    case Metrics(m) =>
      if c.TraceId? then Some(Text(m.traceId))
      else if c.Cost? then NumberCell(m.cost)
      else if c.Tokens? then NumberCell(m.tokens)
      else None
    case Complete(e, endedAt) =>
      if c.TraceId? then TextCell(e.traceId)
      else if c.Summary? then TextCell(e.summary)
      else if c.ErrorMessage? then TextCell(e.error)
      else if c.EndTime? then Some(Number(endedAt))
      else None
  }

  /** `v` is the latest value supplied for `c`, and `k` says where: every later write is silent on it. */
  ghost predicate LatestAt(ws: seq<Write>, c: Column, k: int, v: Option<Cell>) {
    && 0 <= k < |ws| && Supplies(ws[k], c).Some? && v == Supplies(ws[k], c)
    && forall j :: k < j < |ws| ==> Supplies(ws[j], c).None?
  }

  /** After any accepted writes by any handlers in any order, each column holds the latest non-null
      value supplied for it, or its original value when none was supplied. So no column returns to null. */
  lemma {:induction false} LastNonNullWins(r: TaskRun, ws: seq<Write>, c: Column)
    requires AllAccepted(r, ws)
    ensures (forall j :: 0 <= j < |ws| ==> Supplies(ws[j], c).None?) ==> Read(ApplyAll(r, ws), c) == Read(r, c)
    ensures (exists j :: 0 <= j < |ws| && Supplies(ws[j], c).Some?) ==>
              exists k :: LatestAt(ws, c, k, Read(ApplyAll(r, ws), c))
    ensures Read(r, c).Some? ==> Read(ApplyAll(r, ws), c).Some?
    decreases |ws|
  {
    if ws != [] {
      var rest := ws[1..];
      LastNonNullWins(Apply(r, ws[0]), rest, c);
      OneWrite(r, ws[0], c);
      if exists j :: 0 <= j < |rest| && Supplies(rest[j], c).Some? {
        var k :| LatestAt(rest, c, k, Read(ApplyAll(r, ws), c));
        LatestLater(ws, c, k, Read(ApplyAll(r, ws), c));
      } else {
        SilentRest(ws, c);
        assert Supplies(ws[0], c).Some? ==> LatestAt(ws, c, 0, Read(ApplyAll(r, ws), c));
      }
    }
  }

  lemma OneWrite(r: TaskRun, w: Write, c: Column)
    requires Accepted(r, w)
    ensures Read(Apply(r, w), c) == if Supplies(w, c).Some? then Supplies(w, c) else Read(r, c)
  {
  }

  lemma LatestLater(ws: seq<Write>, c: Column, k: int, v: Option<Cell>)
    requires ws != [] && LatestAt(ws[1..], c, k, v)
    ensures LatestAt(ws, c, k + 1, v)
  {
    assert ws[k + 1] == ws[1..][k];
    forall j | k + 1 < j < |ws| ensures Supplies(ws[j], c).None? {
      assert ws[j] == ws[1..][j - 1];
    }
  }

  /** When the later writes are silent, the first write decides. */
  lemma SilentRest(ws: seq<Write>, c: Column)
    requires ws != [] && forall j :: 0 <= j < |ws[1..]| ==> Supplies(ws[1..][j], c).None?
    ensures Supplies(ws[0], c).Some? ==> LatestAt(ws, c, 0, Supplies(ws[0], c))
    ensures (exists j :: 0 <= j < |ws| && Supplies(ws[j], c).Some?) <==> Supplies(ws[0], c).Some?
  {
    forall j | 0 < j < |ws| ensures Supplies(ws[j], c).None? {
      assert ws[j] == ws[1..][j - 1];
    }
  }

  /** Only a completion moves the status and the end time: they are those of the last one, at `k`. */
  lemma {:induction false} StatusIsLastCompletion(r: TaskRun, ws: seq<Write>, k: int)
    requires AllAccepted(r, ws)
    requires -1 <= k < |ws| && (k >= 0 ==> ws[k].Complete?) && forall j :: k < j < |ws| ==> !ws[j].Complete?
    ensures k >= 0 ==> ApplyAll(r, ws).status == ws[k].event.status && ApplyAll(r, ws).endedAt == Some(ws[k].endedAt)
    ensures k == -1 ==> ApplyAll(r, ws).status == r.status && ApplyAll(r, ws).endedAt == r.endedAt
    decreases |ws|
  {
    if ws != [] {
      StatusIsLastCompletion(Apply(r, ws[0]), ws[1..], if k > 0 then k - 1 else -1);
    }
  }

  /** Whatever Langfuse answers or fails to, and whether or not Graphiti works, a completion leaves the row
      with exactly the status, end time, summary and error its own write set; only trace id,
      cost and tokens can still move, and with a failed fetch they do not. */
  lemma FollowUpKeepsCompletion(r: TaskRun, e: CompleteEvent, endedAt: int, fetched: Fetched)
    requires Accepted(r, Complete(e, endedAt))
    ensures var done := Apply(r, Complete(e, endedAt));
            var ws := FollowUp(done, e, fetched);
            && AllAccepted(done, ws)
            && var final := ApplyAll(done, ws);
               && final.status == e.status && final.endedAt == Some(endedAt)
               && final.summary == done.summary && final.error == done.error
               && (fetched.FetchFailed? ==> final == done)
               && (final.traceId == done.traceId)
  {
    var done := Apply(r, Complete(e, endedAt));
    var ws := FollowUp(done, e, fetched);
    if ws != [] {
      assert ws[1..] == [];
      assert ApplyAll(done, ws) == Apply(done, ws[0]);
    }
  }

  /** The trace id never returns to null, but a completion can blank it: a stored usable trace id
      survives a completion write as a usable one exactly when the event does not carry the empty string. */
  lemma EmptyTraceIdErases(r: TaskRun, e: CompleteEvent, endedAt: int)
    requires Accepted(r, Complete(e, endedAt)) && Usable(r.traceId)
    ensures Usable(Apply(r, Complete(e, endedAt)).traceId) <==> e.traceId != Some("")
  {
  }
}
