/** The publish handler run by itself: the repository class, the handler method with its exception
    paths, and its refinement of the step machine. */
module PublishHandler {
  import opened Prelude
  import opened Ledger
  import opened PublishProtocol

  /** How one statement ends: it commits, or it raises before or after committing. */
  datatype WriteOutcome = Stored | RaisesBefore(badRequest: bool) | RaisesAfter(badRequest: bool)

  datatype CallOutcome = Succeeds(result: PublishResult) | Raises(badRequest: bool)

  /** How a status write outside the `try` ends: it commits, or it raises and has committed or not. */
  datatype StatusOutcome = Written | Lost(committed: bool)

  /** What the database and the publisher do during one request. `first` is the write before the `try`, and
      `fail` the one in the exception handlers. */
  datatype Env = Env(
    readOk: bool,
    first: StatusOutcome,
    call: CallOutcome,
    upsert: WriteOutcome,
    record: WriteOutcome,
    complete: WriteOutcome,
    fail: StatusOutcome)

  datatype Statement = Ok(refs: Refs) | Raised(badRequest: bool)

  class Repository {
    var ledger: map<string, Row>
    var status: map<string, Status>
    const runs: set<nat>
    var artifacts: seq<Artifact>

    constructor (db: Db)
      ensures Contents() == db
    {
      ledger, status, runs, artifacts := db.ledger, db.status, db.runs, db.artifacts;
    }

    function Contents(): Db
      reads this
    {
      Db(ledger, status, runs, artifacts)
    }

    method GetExternalRefs(workItem: string) returns (refs: Refs)
      ensures refs == RefsOf(Contents(), workItem)
    {
      if workItem !in ledger {
        return map[];
      }
      refs := Extract(ledger[workItem]);
    }

    method UpdateWorkItemStatus(workItem: string, st: Status, outcome: StatusOutcome) returns (ok: bool)
      modifies this`status
      ensures ok <==> outcome.Written?
      ensures Contents() == StatusEffect(old(Contents()), workItem, st, outcome)
    {
      if outcome == Lost(false) {
        return false;
      }
      if workItem in status {
        status := status[workItem := st];
      }
      ok := outcome.Written?;
    }

    method UpsertExternalRefs(workItem: string, refs: PublisherRefs, outcome: WriteOutcome) returns (r: Statement)
      modifies this`ledger
      ensures r == UpsertStatement(old(Contents()), workItem, refs, outcome)
      ensures Contents() == UpsertEffect(old(Contents()), workItem, refs, outcome)
    {
      var payload := Payload(refs);
      if outcome.RaisesBefore? {
        return Raised(outcome.badRequest);
      }
      if payload == map[] {
        if outcome.RaisesAfter? {
          return Raised(outcome.badRequest);
        }
        var existing := GetExternalRefs(workItem);
        return Ok(existing);
      }
      if workItem !in status {
        return Raised(false);
      }
      var existing := if workItem in ledger then Some(ledger[workItem]) else None;
      ledger := ledger[workItem := Upsert(existing, payload)];
      if outcome.RaisesAfter? {
        return Raised(outcome.badRequest);
      }
      r := Ok(Extract(ledger[workItem]));
    }

    method RecordArtifacts(taskRun: nat, more: seq<PublishedArtifact>, outcome: WriteOutcome) returns (r: Statement)
      modifies this`artifacts
      ensures r == RecordStatement(old(Contents()), taskRun, more, outcome)
      ensures Contents() == RecordEffect(old(Contents()), taskRun, more, outcome)
      ensures if outcome.RaisesBefore? || (more != [] && taskRun !in runs) then artifacts == old(artifacts)
              else Appended(old(artifacts), artifacts, taskRun, more)
    {
      if outcome.RaisesBefore? {
        return Raised(outcome.badRequest);
      }
      if more != [] && taskRun !in runs {
        return Raised(false);
      }
      artifacts := artifacts + ArtifactRows(taskRun, more);
      r := if outcome.RaisesAfter? then Raised(outcome.badRequest) else Ok(map[]);
    }
  }

  /** One row more for each artifact, in order, under the task run and with the artifact's own kind and URI. */
  ghost predicate Appended(before: seq<Artifact>, after: seq<Artifact>, taskRun: nat, more: seq<PublishedArtifact>) {
    && |after| == |before| + |more| && after[..|before|] == before
    && forall i :: 0 <= i < |more| ==>
         after[|before| + i].taskRun == taskRun
         && after[|before| + i].kind == more[i].kind && after[|before| + i].uri == more[i].uri
  }

  /** What a request that answers "published" leaves: each named column of its work item's row, a row for each
      artifact and the status; and nothing else. */
  ghost predicate Delivered(before: Db, after: Db, req: Request, result: PublishResult) {
    var w := req.workItem;
    && w in after.ledger && after.ledger == before.ledger[w := after.ledger[w]]
    && (forall c: Column ::
          Get(after.ledger[w], c)
          == if Known(c) in result.refs && result.refs[Known(c)].Some? then result.refs[Known(c)]
             else if w in before.ledger then Get(before.ledger[w], c) else None)
    && Appended(before.artifacts, after.artifacts, req.taskRun, result.artifacts)
    && w in before.status && after.status == before.status[w := Complete] && after.runs == before.runs
  }

  /** Some call or statement of the `try` raises, and as a `ValueError` or not. */
  predicate RaisesAs(env: Env, badRequest: bool) {
    || env.call == Raises(badRequest)
    || env.upsert in {RaisesBefore(badRequest), RaisesAfter(badRequest)}
    || env.record in {RaisesBefore(badRequest), RaisesAfter(badRequest)}
    || env.complete in {RaisesBefore(badRequest), RaisesAfter(badRequest)}
  }

  function StatusEffect(db: Db, w: string, st: Status, outcome: StatusOutcome): Db {
    if outcome == Lost(false) then db else SetStatus(db, w, st)
  }

  function UpsertStatement(db: Db, w: string, refs: PublisherRefs, outcome: WriteOutcome): Statement {
    if outcome.RaisesBefore? then Raised(outcome.badRequest)
    else if !UpsertAccepted(db, w, refs) then Raised(false)
    else if outcome.RaisesAfter? then Raised(outcome.badRequest)
    else Ok(RefsOf(UpsertRefs(db, w, refs), w))
  }

  function UpsertEffect(db: Db, w: string, refs: PublisherRefs, outcome: WriteOutcome): Db {
    if outcome.RaisesBefore? || !UpsertAccepted(db, w, refs) then db else UpsertRefs(db, w, refs)
  }

  function RecordStatement(db: Db, taskRun: nat, more: seq<PublishedArtifact>, outcome: WriteOutcome): Statement {
    if outcome.RaisesBefore? then Raised(outcome.badRequest)
    else if !RecordAccepted(db, taskRun, more) then Raised(false)
    else if outcome.RaisesAfter? then Raised(outcome.badRequest)
    else Ok(map[])
  }

  function RecordEffect(db: Db, taskRun: nat, more: seq<PublishedArtifact>, outcome: WriteOutcome): Db {
    if outcome.RaisesBefore? || !RecordAccepted(db, taskRun, more) then db else Record(db, taskRun, more)
  }

  // ---------------------------------------------------------------- runs of the machine with one handler

  /** Some run of the machine takes a single handler of the request from one state to another. */
  ghost predicate Runs(db: Db, req: Request, pc: Pc, db': Db, pc': Pc) {
    exists ss: seq<State>, steps: seq<Step> ::
      && Execution(ss, steps)
      && ss[0] == Lone(db, req, pc) && ss[|steps|] == Lone(db', req, pc')
      && forall i :: 0 <= i < |steps| ==> steps[i].h == 0
  }

  function Lone(db: Db, req: Request, pc: Pc): State {
    State(db, map[0 := Handler(req, pc)])
  }

  lemma RunsNothing(db: Db, req: Request, pc: Pc)
    ensures Runs(db, req, pc, db, pc)
  {
    assert Execution([Lone(db, req, pc)], []);
  }

  lemma RunsOn(db: Db, req: Request, pc: Pc, db': Db, pc': Pc, a: Action, db'': Db, pc'': Pc)
    requires Runs(db, req, pc, db', pc') && Acts(db', Handler(req, pc'), a, db'', pc'')
    ensures Runs(db, req, pc, db'', pc'')
  {
    var ss: seq<State>, steps: seq<Step> :|
      && Execution(ss, steps)
      && ss[0] == Lone(db, req, pc) && ss[|steps|] == Lone(db', req, pc')
      && forall i :: 0 <= i < |steps| ==> steps[i].h == 0;
    var tt, more := ss + [Lone(db'', req, pc'')], steps + [Step(0, a)];
    assert Next(Lone(db', req, pc'), Step(0, a), Lone(db'', req, pc''));
    forall i | 0 <= i < |more| ensures Next(tt[i], more[i], tt[i + 1]) && more[i].h == 0 {
      if i < |steps| {
        assert tt[i] == ss[i] && tt[i + 1] == ss[i + 1] && more[i] == steps[i];
      }
    }
    assert Execution(tt, more);
  }

  // ---------------------------------------------------------------- the handler

  /** The request gets past the ledger read and the "publishing" write. */
  predicate EntersTry(db: Db, req: Request, env: Env) {
    env.readOk && env.first.Written? && !Present(db, req.workItem, req.target)
  }

  predicate Upserted(db: Db, req: Request, env: Env) {
    env.call.Succeeds? && env.upsert.Stored? && UpsertAccepted(db, req.workItem, env.call.result.refs)
  }

  predicate Recorded(db: Db, req: Request, env: Env) {
    Upserted(db, req, env)
    && (env.call.result.artifacts == [] || RecordStatement(db, req.taskRun, env.call.result.artifacts, env.record).Ok?)
  }

  /** The first exception inside the `try`, by whether it is a `ValueError`. */
  function FirstRaise(db: Db, req: Request, env: Env): Option<bool> {
    if env.call.Raises? then Some(env.call.badRequest)
    else if env.upsert.RaisesBefore? then Some(env.upsert.badRequest)
    else if !UpsertAccepted(db, req.workItem, env.call.result.refs) then Some(false)
    else if !env.upsert.Stored? then Some(env.upsert.badRequest)
    else if !Recorded(db, req, env)
    then Some(RecordStatement(db, req.taskRun, env.call.result.artifacts, env.record).badRequest)
    else if !env.complete.Stored? then Some(env.complete.badRequest)
    else None
  }

  function LedgerAfter(db: Db, req: Request, env: Env): map<string, Row> {
    if env.call.Raises? then db.ledger else UpsertEffect(db, req.workItem, env.call.result.refs, env.upsert).ledger
  }

  function ArtifactsAfter(db: Db, req: Request, env: Env): seq<Artifact> {
    if Upserted(db, req, env) then RecordEffect(db, req.taskRun, env.call.result.artifacts, env.record).artifacts
    else db.artifacts
  }

  /** The status at the end of a request that entered the `try`: what the last committed write said. */
  function StatusAfter(db: Db, req: Request, env: Env): Status {
    if FirstRaise(db, req, env).None? then Complete
    else if env.fail != Lost(false) then Failed
    else if Recorded(db, req, env) && env.complete.RaisesAfter? then Complete
    else Publishing
  }

  function ResponseOf(db: Db, req: Request, env: Env): Response
    requires env.call.Raises? ==> FirstRaise(db, req, env).Some?
  {
    match FirstRaise(db, req, env)
    case None => Published(RefsOf(db, req.workItem) + Payload(env.call.result.refs))
    case Some(bad) => if env.fail.Lost? then ServerError else if bad then BadRequest else BadGateway
  }

  /** `publish`: whatever the environment does, the request as a whole is a run of the machine from the
      handler's start to its response; and the response and the final tables are those stated. */
  method Publish(repo: Repository, req: Request, env: Env) returns (resp: Response)
    requires env.call.Succeeds? ==> Contract(req.target, env.call.result)
    modifies repo
    ensures Runs(old(repo.Contents()), req, Start, repo.Contents(), Done(resp))
    ensures !env.readOk ==> resp == ServerError && repo.Contents() == old(repo.Contents())
    ensures env.readOk && Present(old(repo.Contents()), req.workItem, req.target) ==>
              && resp == (if env.first.Written? then Skipped(RefsOf(old(repo.Contents()), req.workItem))
                          else ServerError)
              && repo.Contents() == StatusEffect(old(repo.Contents()), req.workItem, Complete, env.first)
    ensures env.readOk && !Present(old(repo.Contents()), req.workItem, req.target) && env.first.Lost? ==>
              && resp == ServerError
              && repo.Contents() == StatusEffect(old(repo.Contents()), req.workItem, Publishing, env.first)
    ensures resp.Published? ==>
              env.call.Succeeds? && Delivered(old(repo.Contents()), repo.Contents(), req, env.call.result)
    ensures if env.readOk && !Present(old(repo.Contents()), req.workItem, req.target) && env.first.Written?
               && env.call.Succeeds? && req.workItem in old(repo.status) && env.upsert.Stored?
               && req.taskRun in repo.runs && !env.record.RaisesBefore?
            then Appended(old(repo.artifacts), repo.artifacts, req.taskRun, env.call.result.artifacts)
            else repo.artifacts == old(repo.artifacts)
    ensures resp.BadRequest? ==> RaisesAs(env, true)
    ensures resp.BadGateway? ==>
              RaisesAs(env, false) || req.workItem !in old(repo.status) || req.taskRun !in repo.runs
    ensures resp.ServerError? ==> !env.readOk || env.first.Lost? || env.fail.Lost?
    ensures (resp.BadRequest? || resp.BadGateway?) && req.workItem in old(repo.status) ==>
              repo.status == old(repo.status)[req.workItem := Failed]
    ensures resp.Skipped? ==>
              && repo.ledger == old(repo.ledger) && repo.artifacts == old(repo.artifacts)
              && repo.status == if req.workItem in old(repo.status)
                                then old(repo.status)[req.workItem := Complete] else old(repo.status)
    ensures EntersTry(old(repo.Contents()), req, env) ==>
              && resp == ResponseOf(old(repo.Contents()), req, env)
              && (resp.Published? ==> resp.refs == RefsOf(repo.Contents(), req.workItem))
              && repo.ledger == LedgerAfter(old(repo.Contents()), req, env)
              && repo.artifacts == ArtifactsAfter(old(repo.Contents()), req, env)
              && var db := old(repo.Contents());
                 repo.status == SetStatus(db, req.workItem, StatusAfter(db, req, env)).status
  {
    ghost var db := repo.Contents();
    RunsNothing(db, req, Start);
    if !env.readOk {
      RunsOn(db, req, Start, db, Start, ReadFails, db, Done(ServerError));
      return ServerError;
    }
    var existing := repo.GetExternalRefs(req.workItem);
    if TargetRefPresent(existing, req.target) {
      RunsOn(db, req, Start, db, Start, ReadLedger, db, Skipping(existing));
      var ok := repo.UpdateWorkItemStatus(req.workItem, Complete, env.first);
      if !ok {
        RunsOn(db, req, Start, db, Skipping(existing), WriteSkippedRaises(env.first.committed), repo.Contents(),
            Done(ServerError));
        return ServerError;
      }
      RunsOn(db, req, Start, db, Skipping(existing), WriteSkipped, repo.Contents(), Done(Skipped(existing)));
      return Skipped(existing);
    }
    RunsOn(db, req, Start, db, Start, ReadLedger, db, Claiming);
    resp := Attempt(repo, req, env, db);
    if env.first.Written? {
      ArtifactsExact(db, req, env);
      ResponseExact(db, req, env);
      if resp.Published? {
        PublishedDelivers(db, req, env);
      }
    }
  }

  lemma ArtifactsExact(db: Db, req: Request, env: Env)
    requires env.call.Succeeds? ==> Contract(req.target, env.call.result)
    ensures if env.call.Succeeds? && req.workItem in db.status && env.upsert.Stored?
               && req.taskRun in db.runs && !env.record.RaisesBefore?
            then Appended(db.artifacts, ArtifactsAfter(db, req, env), req.taskRun, env.call.result.artifacts)
            else ArtifactsAfter(db, req, env) == db.artifacts
  {
  }

  lemma ResponseExact(db: Db, req: Request, env: Env)
    requires env.call.Succeeds? ==> Contract(req.target, env.call.result)
    ensures ResponseOf(db, req, env).BadRequest? ==> RaisesAs(env, true)
    ensures ResponseOf(db, req, env).BadGateway? ==>
              RaisesAs(env, false) || req.workItem !in db.status || req.taskRun !in db.runs
    ensures ResponseOf(db, req, env).ServerError? ==> env.fail.Lost?
  {
  }

  lemma PublishedDelivers(db: Db, req: Request, env: Env)
    requires env.call.Succeeds? ==> Contract(req.target, env.call.result)
    requires FirstRaise(db, req, env).None?
    ensures env.call.Succeeds?
    ensures var after := Db(LedgerAfter(db, req, env), SetStatus(db, req.workItem, Complete).status, db.runs,
                            ArtifactsAfter(db, req, env));
            Delivered(db, after, req, env.call.result)
  {
    var w, refs := req.workItem, env.call.result.refs;
    ArtifactsExact(db, req, env);
    assert LedgerAfter(db, req, env) == UpsertRefs(db, w, refs).ledger;
    forall c: Column
      ensures w in LedgerAfter(db, req, env)
      ensures Get(LedgerAfter(db, req, env)[w], c)
              == if Known(c) in refs && refs[Known(c)].Some? then refs[Known(c)]
                 else if w in db.ledger then Get(db.ledger[w], c) else None
    {
      UpsertColumns(db, w, refs, c);
    }
  }

  /** The tables differ at most in the statuses that their work items have. */
  predicate SameButStatuses(a: Db, b: Db) {
    && a.ledger == b.ledger && a.artifacts == b.artifacts && a.runs == b.runs
    && a.status.Keys == b.status.Keys
  }

  lemma SameUpsert(a: Db, b: Db, req: Request, env: Env)
    requires SameButStatuses(a, b)
    ensures Upserted(a, req, env) == Upserted(b, req, env)
    ensures LedgerAfter(a, req, env) == LedgerAfter(b, req, env) && RefsOf(a, req.workItem) == RefsOf(b, req.workItem)
  {
  }

  lemma SameRecord(a: Db, b: Db, req: Request, env: Env)
    requires SameButStatuses(a, b)
    ensures Recorded(a, req, env) == Recorded(b, req, env)
    ensures ArtifactsAfter(a, req, env) == ArtifactsAfter(b, req, env)
    ensures env.call.Succeeds? ==>
              RecordStatement(a, req.taskRun, env.call.result.artifacts, env.record)
              == RecordStatement(b, req.taskRun, env.call.result.artifacts, env.record)
  {
  }

  lemma SameRaise(a: Db, b: Db, req: Request, env: Env)
    requires SameButStatuses(a, b)
    ensures FirstRaise(a, req, env) == FirstRaise(b, req, env) && StatusAfter(a, req, env) == StatusAfter(b, req, env)
  {
    SameRecord(a, b, req, env);
  }

  /** The "publishing" write makes no difference to what the rest of the handler does. */
  lemma ClaimInvisible(db: Db, req: Request, env: Env, st: Status)
    ensures var claimed := SetStatus(db, req.workItem, Publishing);
            && FirstRaise(claimed, req, env) == FirstRaise(db, req, env)
            && LedgerAfter(claimed, req, env) == LedgerAfter(db, req, env)
            && ArtifactsAfter(claimed, req, env) == ArtifactsAfter(db, req, env)
            && StatusAfter(claimed, req, env) == StatusAfter(db, req, env)
            && RefsOf(claimed, req.workItem) == RefsOf(db, req.workItem)
            && SetStatus(claimed, req.workItem, st).status == SetStatus(db, req.workItem, st).status
  {
    var claimed := SetStatus(db, req.workItem, Publishing);
    assert SameButStatuses(claimed, db);
    SameUpsert(claimed, db, req, env);
    SameRecord(claimed, db, req, env);
    SameRaise(claimed, db, req, env);
  }

  /** The handler once the ledger showed no ref: claim, try, and the exception handlers. */
  method Attempt(repo: Repository, req: Request, env: Env, ghost db: Db) returns (resp: Response)
    requires env.call.Succeeds? ==> Contract(req.target, env.call.result)
    requires db == repo.Contents() && Runs(db, req, Start, db, Claiming)
    modifies repo
    ensures Runs(db, req, Start, repo.Contents(), Done(resp))
    ensures env.first.Lost? ==>
                resp == ServerError && repo.Contents() == StatusEffect(db, req.workItem, Publishing, env.first)
    ensures env.first.Written? ==>
              && resp == ResponseOf(db, req, env)
              && (resp.Published? ==> resp.refs == RefsOf(repo.Contents(), req.workItem))
              && repo.ledger == LedgerAfter(db, req, env)
              && repo.artifacts == ArtifactsAfter(db, req, env)
              && repo.status == SetStatus(db, req.workItem, StatusAfter(db, req, env)).status
  {
    var claimed := repo.UpdateWorkItemStatus(req.workItem, Publishing, env.first);
    if !claimed {
      RunsOn(db, req, Start, db, Claiming, WritePublishingRaises(env.first.committed), repo.Contents(),
          Done(ServerError));
      return ServerError;
    }
    RunsOn(db, req, Start, db, Claiming, WritePublishing, repo.Contents(), Calling);
    ClaimInvisible(db, req, env, StatusAfter(db, req, env));
    resp := TryExcept(repo, req, env, db);
  }

  /** The `try` statement with its exception handlers, for a work item that is "publishing" when it exists. */
  method TryExcept(repo: Repository, req: Request, env: Env, ghost origin: Db) returns (resp: Response)
    requires env.call.Succeeds? ==> Contract(req.target, env.call.result)
    requires Runs(origin, req, Start, repo.Contents(), Calling)
    requires req.workItem in repo.status ==> repo.status[req.workItem] == Publishing
    modifies repo
    ensures Runs(origin, req, Start, repo.Contents(), Done(resp))
    ensures var db := old(repo.Contents());
            && resp == ResponseOf(db, req, env)
            && (resp.Published? ==> resp.refs == RefsOf(repo.Contents(), req.workItem))
            && repo.ledger == LedgerAfter(db, req, env)
            && repo.artifacts == ArtifactsAfter(db, req, env)
            && repo.status == SetStatus(db, req.workItem, StatusAfter(db, req, env)).status
  {
    var tried := Try(repo, req, env, origin);
    if tried.Ok? {
      return Published(tried.refs);
    }
    resp := HandleException(repo, req, env.fail, tried.badRequest, origin);
  }

  /** The two `except` blocks: the "failed" write and the error response. */
  method HandleException(repo: Repository, req: Request, fail: StatusOutcome, badRequest: bool, ghost origin: Db)
    returns (resp: Response)
    requires Runs(origin, req, Start, repo.Contents(), Failing(badRequest))
    modifies repo`status
    ensures Runs(origin, req, Start, repo.Contents(), Done(resp))
    ensures resp == if fail.Lost? then ServerError else if badRequest then BadRequest else BadGateway
    ensures repo.Contents() == StatusEffect(old(repo.Contents()), req.workItem, Failed, fail)
  {
    ghost var before := repo.Contents();
    var ok := repo.UpdateWorkItemStatus(req.workItem, Failed, fail);
    if !ok {
      RunsOn(origin, req, Start, before, Failing(badRequest), WriteFailedRaises(fail.committed), repo.Contents(),
          Done(ServerError));
      return ServerError;
    }
    resp := if badRequest then BadRequest else BadGateway;
    RunsOn(origin, req, Start, before, Failing(badRequest), WriteFailed, repo.Contents(), Done(resp));
  }

  /** The body of the `try`: the merged refs, or the exception that leaves it. */
  method Try(repo: Repository, req: Request, env: Env, ghost origin: Db) returns (r: Statement)
    requires env.call.Succeeds? ==> Contract(req.target, env.call.result)
    requires Runs(origin, req, Start, repo.Contents(), Calling)
    modifies repo
    ensures match FirstRaise(old(repo.Contents()), req, env)
            case None =>
              && r.Ok? && Runs(origin, req, Start, repo.Contents(), Done(Published(r.refs)))
              && r.refs == RefsOf(repo.Contents(), req.workItem)
              && r.refs == old(RefsOf(repo.Contents(), req.workItem)) + Payload(env.call.result.refs)
              && repo.status == SetStatus(old(repo.Contents()), req.workItem, Complete).status
            case Some(bad) =>
              && r == Raised(bad) && Runs(origin, req, Start, repo.Contents(), Failing(bad))
              && repo.status == if Recorded(old(repo.Contents()), req, env) && env.complete.RaisesAfter?
                                then SetStatus(old(repo.Contents()), req.workItem, Complete).status
                                else old(repo.status)
    ensures repo.ledger == LedgerAfter(old(repo.Contents()), req, env)
    ensures repo.artifacts == ArtifactsAfter(old(repo.Contents()), req, env)
  {
    ghost var db := repo.Contents();
    if env.call.Raises? {
      RunsOn(origin, req, Start, db, Calling, CallRaises(env.call.badRequest), db, Failing(env.call.badRequest));
      return Raised(env.call.badRequest);
    }
    RunsOn(origin, req, Start, db, Calling, CallSucceeds(env.call.result), db, Upserting(env.call.result));
    r := AfterCall(repo, req, env, origin);
  }

  /** The `try` once the publisher has returned. */
  method AfterCall(repo: Repository, req: Request, env: Env, ghost origin: Db) returns (r: Statement)
    requires env.call.Succeeds? && Contract(req.target, env.call.result)
    requires Runs(origin, req, Start, repo.Contents(), Upserting(env.call.result))
    modifies repo
    ensures match FirstRaise(old(repo.Contents()), req, env)
            case None =>
              && r.Ok? && Runs(origin, req, Start, repo.Contents(), Done(Published(r.refs)))
              && r.refs == RefsOf(repo.Contents(), req.workItem)
              && r.refs == old(RefsOf(repo.Contents(), req.workItem)) + Payload(env.call.result.refs)
              && repo.status == SetStatus(old(repo.Contents()), req.workItem, Complete).status
            case Some(bad) =>
              && r == Raised(bad) && Runs(origin, req, Start, repo.Contents(), Failing(bad))
              && repo.status == if Recorded(old(repo.Contents()), req, env) && env.complete.RaisesAfter?
                                then SetStatus(old(repo.Contents()), req.workItem, Complete).status
                                else old(repo.status)
    ensures repo.ledger == LedgerAfter(old(repo.Contents()), req, env)
    ensures repo.artifacts == ArtifactsAfter(old(repo.Contents()), req, env)
  {
    ghost var db := repo.Contents();
    var result := env.call.result;
    var merged := repo.UpsertExternalRefs(req.workItem, result.refs, env.upsert);
    ghost var db1 := repo.Contents();
    if merged.Raised? {
      ghost var committed := env.upsert.RaisesAfter? && UpsertAccepted(db, req.workItem, result.refs);
      RunsOn(origin, req, Start, db, Upserting(result), UpsertRaises(committed, merged.badRequest), db1,
          Failing(merged.badRequest));
      return merged;
    }
    var refs := merged.refs;
    UpsertRefsIsMerge(db, req.workItem, result.refs);
    RunsOn(origin, req, Start, db, Upserting(result), CommitUpsert, db1,
           if result.artifacts == [] then Finishing(refs) else Recording(result, refs));
    r := Finish(repo, req, env, result, refs, origin);
  }

  /** The `try` after the upsert: the artifacts, then the "complete" write. */
  method Finish(repo: Repository, req: Request, env: Env, result: PublishResult, merged: Refs, ghost origin: Db)
    returns (r: Statement)
    requires Runs(origin, req, Start, repo.Contents(),
                  if result.artifacts == [] then Finishing(merged) else Recording(result, merged))
    modifies repo`artifacts, repo`status
    ensures var recorded := if result.artifacts == [] then Ok(map[])
                            else RecordStatement(old(repo.Contents()), req.taskRun, result.artifacts, env.record);
            if recorded.Raised? then r == recorded && repo.status == old(repo.status)
            else
              && r == (if env.complete.Stored? then Ok(merged) else Raised(env.complete.badRequest))
              && repo.status == if env.complete.RaisesBefore? then old(repo.status)
                                else SetStatus(old(repo.Contents()), req.workItem, Complete).status
    ensures repo.artifacts == RecordEffect(old(repo.Contents()), req.taskRun, result.artifacts, env.record).artifacts
    ensures Runs(origin, req, Start, repo.Contents(),
                 if r.Raised? then Failing(r.badRequest) else Done(Published(merged)))
  {
    ghost var db := repo.Contents();
    if result.artifacts != [] {
      var recorded := repo.RecordArtifacts(req.taskRun, result.artifacts, env.record);
      if recorded.Raised? {
        ghost var committed := env.record.RaisesAfter? && RecordAccepted(db, req.taskRun, result.artifacts);
        RunsOn(origin, req, Start, db, Recording(result, merged),
               RecordRaises(committed, recorded.badRequest), repo.Contents(), Failing(recorded.badRequest));
        return recorded;
      }
      RunsOn(origin, req, Start, db, Recording(result, merged), PublishProtocol.RecordArtifacts,
             repo.Contents(), Finishing(merged));
    }
    r := WriteTerminal(repo, req, env.complete, merged, origin);
  }

  /** The last write of the `try`. */
  method WriteTerminal(repo: Repository, req: Request, complete: WriteOutcome, merged: Refs, ghost origin: Db)
    returns (r: Statement)
    requires Runs(origin, req, Start, repo.Contents(), Finishing(merged))
    modifies repo`status
    ensures r == if complete.Stored? then Ok(merged) else Raised(complete.badRequest)
    ensures repo.Contents() == if complete.RaisesBefore? then old(repo.Contents())
                               else SetStatus(old(repo.Contents()), req.workItem, Complete)
    ensures Runs(origin, req, Start, repo.Contents(),
                 if r.Raised? then Failing(r.badRequest) else Done(Published(merged)))
  {
    ghost var db := repo.Contents();
    if complete.RaisesBefore? {
      RunsOn(origin, req, Start, db, Finishing(merged), WriteCompleteRaises(false, complete.badRequest),
             db, Failing(complete.badRequest));
      return Raised(complete.badRequest);
    }
    var written := repo.UpdateWorkItemStatus(req.workItem, Complete, if complete.Stored? then Written else Lost(true));
    if !written {
      RunsOn(origin, req, Start, db, Finishing(merged), WriteCompleteRaises(true, complete.badRequest),
             repo.Contents(), Failing(complete.badRequest));
      return Raised(complete.badRequest);
    }
    RunsOn(origin, req, Start, db, Finishing(merged), WriteComplete, repo.Contents(), Done(Published(merged)));
    r := Ok(merged);
  }

  // ---------------------------------------------------------------- requests for a missing task run

  /** A request whose task run has no row, when nothing else fails: the publisher has published and the ref is recorded,
      but the request answers an error, leaves the item "failed" and records no artifact. */
  lemma MissingRunFails(db: Db, req: Request, env: Env)
    requires EntersTry(db, req, env) && req.workItem in db.status && req.taskRun !in db.runs
    requires env.call.Succeeds? && Contract(req.target, env.call.result)
    requires env.upsert.Stored? && env.record.Stored? && env.fail.Written?
    ensures ResponseOf(db, req, env) == BadGateway && StatusAfter(db, req, env) == Failed
    ensures Present(db.(ledger := LedgerAfter(db, req, env)), req.workItem, req.target)
    ensures ArtifactsAfter(db, req, env) == db.artifacts
  {
    UpsertRefsIsMerge(db, req.workItem, env.call.result.refs);
  }
}
