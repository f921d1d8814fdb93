/** When a handler can publish: exactly the ledger check decides it, and what that check does not prevent. */
module PublishRaces {
  import opened Ledger
  import opened PublishProtocol
  import opened PublishStatus

  /** Some run leads from one state to another. */
  ghost predicate Continues(s: State, s': State) {
    exists ss: seq<State>, steps: seq<Step> :: Execution(ss, steps) && ss[0] == s && ss[|steps|] == s'
  }

  ghost predicate Reachable(s: State) {
    exists start :: Started(start) && Continues(start, s)
  }

  lemma ContinuesSelf(s: State)
    ensures Continues(s, s)
  {
    assert Execution([s], []) && [s][0] == s;
  }

  lemma ContinuesNext(s: State, m: State, h: nat, a: Action, m': State)
    requires Continues(s, m) && Next(m, Step(h, a), m')
    ensures Continues(s, m')
  {
    var ss: seq<State>, steps: seq<Step> :| Execution(ss, steps) && ss[0] == s && ss[|steps|] == m;
    var tt, more := ss + [m'], steps + [Step(h, a)];
    forall i | 0 <= i < |more| ensures Next(tt[i], more[i], tt[i + 1]) {
      if i < |steps| {
        assert tt[i] == ss[i] && tt[i + 1] == ss[i + 1] && more[i] == steps[i];
      }
    }
    assert Execution(tt, more) && tt[0] == s && tt[|more|] == m';
  }

  lemma ContinuesActs(s: State, db: Db, hs: map<nat, Handler>, h: nat, a: Action, db': Db, pc: Pc)
    requires h in hs && !a.Arrive? && Continues(s, State(db, hs)) && Acts(db, hs[h], a, db', pc)
    ensures Continues(s, State(db', hs[h := Handler(hs[h].req, pc)]))
  {
    ContinuesNext(s, State(db, hs), h, a, State(db', hs[h := Handler(hs[h].req, pc)]));
  }

  lemma ReachableCarries(s: State)
    requires Reachable(s)
    ensures CarriesContract(s)
  {
    var start :| Started(start) && Continues(start, s);
    var ss: seq<State>, steps: seq<Step> :| Execution(ss, steps) && ss[0] == start && ss[|steps|] == s;
    ContractThroughout(ss, steps, |steps|);
  }

  // ---------------------------------------------------------------- exactly when handlers can publish

  /** Whether a handler can still answer "published". Before its ledger read that depends on the ref; until its upsert
      on the work item; until its artifacts are recorded on the request's task run; after that on nothing. */
  predicate CanPublish(db: Db, hd: Handler) {
    match hd.pc
    case Start => BothExist(db, hd.req) && !Present(db, hd.req.workItem, hd.req.target)
    case Claiming => BothExist(db, hd.req)
    case Calling => BothExist(db, hd.req)
    case Upserting(_) => BothExist(db, hd.req)
    case Recording(_, _) => hd.req.taskRun in db.runs
    case Finishing(_) => true
    case Done(response) => response.Published?
    case Skipping(_) => false
    case Failing(_) => false
  }

  /** The rows that a request's foreign keys need. */
  predicate BothExist(db: Db, req: Request) {
    req.workItem in db.status && req.taskRun in db.runs
  }

  ghost predicate AllCan(s: State, hs: set<nat>) {
    forall h :: h in hs ==> h in s.handlers && CanPublish(s.db, s.handlers[h])
  }

  ghost predicate AllPublished(s: State, hs: set<nat>) {
    forall h :: h in hs ==> h in s.handlers && s.handlers[h].pc.Done? && s.handlers[h].pc.response.Published?
  }

  /** Handlers outside the set are where they were, and the work items and task runs are the same. */
  ghost predicate OthersAsBefore(s: State, s': State, hs: set<nat>) {
    && s'.db.status.Keys == s.db.status.Keys && s'.db.runs == s.db.runs
    && forall g :: g in s.handlers && g !in hs ==> g in s'.handlers && s'.handlers[g] == s.handlers[g]
  }

  /** First everyone reads the ledger, which changes nothing in it. */
  lemma {:induction false} ReadAll(s: State, hs: set<nat>) returns (m: State)
    requires AllCan(s, hs)
    ensures Continues(s, m) && m.db == s.db && OthersAsBefore(s, m, hs)
    ensures AllCan(m, hs) && forall h :: h in hs ==> !m.handlers[h].pc.Start?
    decreases |hs|
  {
    if hs == {} {
      m := s;
      ContinuesSelf(s);
    } else {
      var h :| h in hs;
      m := ReadAll(s, hs - {h});
      assert m.handlers[h] == s.handlers[h];
      if m.handlers[h].pc.Start? {
        ContinuesActs(s, m.db, m.handlers, h, ReadLedger, m.db, Claiming);
        m := State(m.db, m.handlers[h := Handler(m.handlers[h].req, Claiming)]);
      }
    }
  }

  /** A step of one handler that brings it nearer to "published". */
  lemma Advance(s: State, m: State, h: nat, a: Action, db: Db, pc: Pc) returns (m': State)
    requires Continues(s, m) && h in m.handlers && !a.Arrive? && Acts(m.db, m.handlers[h], a, db, pc)
    requires db.status.Keys == m.db.status.Keys && db.runs == m.db.runs
             && CanPublish(db, Handler(m.handlers[h].req, pc))
    requires Rank(pc) > Rank(m.handlers[h].pc)
    ensures Continues(s, m') && AllCan(m', {h}) && OthersAsBefore(m, m', {h})
    ensures Rank(m'.handlers[h].pc) > Rank(m.handlers[h].pc)
  {
    ContinuesActs(s, m.db, m.handlers, h, a, db, pc);
    m' := State(db, m.handlers[h := Handler(m.handlers[h].req, pc)]);
  }

  /** The next step towards "published", when nothing fails. */
  lemma Onward(s: State, m: State, h: nat) returns (m': State)
    requires Continues(s, m) && AllCan(m, {h}) && !m.handlers[h].pc.Start? && !m.handlers[h].pc.Done?
    ensures Continues(s, m') && AllCan(m', {h}) && OthersAsBefore(m, m', {h})
    ensures Rank(m'.handlers[h].pc) > Rank(m.handlers[h].pc)
  {
    var req, db := m.handlers[h].req, m.db;
    var w := req.workItem;
    match m.handlers[h].pc {
      case Claiming => m' := Advance(s, m, h, WritePublishing, SetStatus(db, w, Publishing), Calling);
      case Calling =>
        var r := SuccessResult(req.target, "id", 1, "uri", "mr");
        PublishersMeetContract(req.target, "id", 1, "uri", "mr");
        m' := Advance(s, m, h, CallSucceeds(r), db, Upserting(r));
      case Upserting(r) =>
        var next := UpsertRefs(db, w, r.refs);
        var pc := if r.artifacts == [] then Finishing(RefsOf(next, w)) else Recording(r, RefsOf(next, w));
        m' := Advance(s, m, h, CommitUpsert, next, pc);
      case Recording(r, merged) =>
        m' := Advance(s, m, h, RecordArtifacts, Record(db, req.taskRun, r.artifacts), Finishing(merged));
      case Finishing(merged) =>
        m' := Advance(s, m, h, WriteComplete, SetStatus(db, w, Complete), Done(Published(merged)));
    }
  }

  lemma {:induction false} Drive(s: State, m: State, h: nat) returns (m': State)
    requires Continues(s, m) && AllCan(m, {h}) && !m.handlers[h].pc.Start?
    ensures Continues(s, m') && AllPublished(m', {h}) && OthersAsBefore(m, m', {h})
    decreases 7 - Rank(m.handlers[h].pc)
  {
    m' := m;
    if !m.handlers[h].pc.Done? {
      var next := Onward(s, m, h);
      m' := Drive(s, next, h);
    }
  }

  /** Then they go on one after the other. */
  lemma {:induction false} DriveAll(s: State, m: State, hs: set<nat>) returns (m': State)
    requires Continues(s, m) && AllCan(m, hs) && forall h :: h in hs ==> !m.handlers[h].pc.Start?
    ensures Continues(s, m') && AllPublished(m', hs) && OthersAsBefore(m, m', hs)
    decreases |hs|
  {
    m' := m;
    if hs != {} {
      var h :| h in hs;
      var before := DriveAll(s, m, hs - {h});
      assert before.handlers[h] == m.handlers[h];
      m' := Drive(s, before, h);
    }
  }

  lemma CommitNeedsWorkItem(s: State, st: Step, s': State)
    requires Next(s, st, s') && CarriesContract(s) && Commits(st.action)
    ensures s.handlers[st.h].req.workItem in s.db.status
  {
  }

  /** A handler that has not committed and later answers "published" works on an existing work item. */
  lemma PublisherHasWorkItem(ss: seq<State>, steps: seq<Step>, h: nat)
    requires Execution(ss, steps) && CarriesContract(ss[0]) && AllPublished(ss[|steps|], {h})
    requires h in ss[0].handlers && !PastCommit(ss[0].handlers[h].pc)
    ensures ss[0].handlers[h].req.workItem in ss[0].db.status
  {
    var n := |steps|;
    RankFrom(ss, steps, 0, n, h);
    var i := CommitOf(ss, steps, n, h);
    ContractThroughout(ss, steps, i);
    CommitNeedsWorkItem(ss[i], steps[i], ss[i + 1]);
    SameWorkItems(ss, steps, i, ss[0].handlers[h].req.workItem);
  }

  predicate PastRecord(pc: Pc) {
    pc.Finishing? || (pc.Done? && pc.response.Published?)
  }

  lemma StepRecord(s: State, st: Step, s': State, h: nat)
    requires Next(s, st, s') && CarriesContract(s) && h in s.handlers
    ensures h in s'.handlers && s'.handlers[h].req == s.handlers[h].req && s'.db.runs == s.db.runs
    ensures PastRecord(s'.handlers[h].pc) && !PastRecord(s.handlers[h].pc) ==> s.handlers[h].req.taskRun in s.db.runs
  {
  }

  /** A handler that gets its artifacts recorded works for an existing task run. */
  lemma {:induction false} PublisherHasRun(ss: seq<State>, steps: seq<Step>, k: nat, h: nat)
    requires Execution(ss, steps) && CarriesContract(ss[0]) && k < |ss|
    requires h in ss[0].handlers && !PastRecord(ss[0].handlers[h].pc)
    ensures h in ss[k].handlers && ss[k].handlers[h].req == ss[0].handlers[h].req && ss[k].db.runs == ss[0].db.runs
    ensures PastRecord(ss[k].handlers[h].pc) ==> ss[0].handlers[h].req.taskRun in ss[0].db.runs
  {
    if k > 0 {
      PublisherHasRun(ss, steps, k - 1, h);
      ContractThroughout(ss, steps, k - 1);
      StepRecord(ss[k - 1], steps[k - 1], ss[k], h);
    }
  }

  predicate Lost(pc: Pc) {
    pc.Skipping? || pc.Failing? || (pc.Done? && !pc.response.Published?)
  }

  lemma {:induction false} LostStaysLost(ss: seq<State>, steps: seq<Step>, k: nat, h: nat)
    requires Execution(ss, steps) && k < |ss| && h in ss[0].handlers && Lost(ss[0].handlers[h].pc)
    ensures h in ss[k].handlers && Lost(ss[k].handlers[h].pc)
  {
    if k > 0 {
      LostStaysLost(ss, steps, k - 1, h);
      assert Next(ss[k - 1], steps[k - 1], ss[k]);
    }
  }

  lemma PublisherCould(s: State, s': State, h: nat)
    requires CarriesContract(s) && h in s.handlers && Continues(s, s') && AllPublished(s', {h})
    ensures CanPublish(s.db, s.handlers[h])
  {
    var ss: seq<State>, steps: seq<Step> :| Execution(ss, steps) && ss[0] == s && ss[|steps|] == s';
    var req := s.handlers[h].req;
    if !PastCommit(s.handlers[h].pc) {
      PublisherHasWorkItem(ss, steps, h);
    }
    if !PastRecord(s.handlers[h].pc) {
      PublisherHasRun(ss, steps, |steps|, h);
    }
    if Lost(s.handlers[h].pc) {
      LostStaysLost(ss, steps, |steps|, h);
    }
    if s.handlers[h].pc.Start? && Present(s.db, req.workItem, req.target) {
      RankFrom(ss, steps, 0, |steps|, h);
      assert Harmless(s, h, req.workItem, req.target);
      HarmlessFrom(ss, steps, 0, |steps|, h, req.workItem, req.target);
    }
  }

  /** Exactly when handlers can publish. From any reachable state, any set of handlers can all go on to answer
      "published" if and only if each of them can by itself: a handler that has not read the ledger exactly when it
      would find no ref and its work item and task run exist, a later one whatever the ledger has come to hold. */
  lemma PublishableExact(s: State, hs: set<nat>)
    requires Reachable(s) && forall h :: h in hs ==> h in s.handlers
    ensures (exists s' :: Continues(s, s') && AllPublished(s', hs)) <==>
                forall h :: h in hs ==> CanPublish(s.db, s.handlers[h])
  {
    ReachableCarries(s);
    if AllCan(s, hs) {
      var m := ReadAll(s, hs);
      var s' := DriveAll(s, m, hs);
    }
    if s' :| Continues(s, s') && AllPublished(s', hs) {
      forall h | h in hs ensures CanPublish(s.db, s.handlers[h]) {
        assert AllPublished(s', {h});
        PublisherCould(s, s', h);
      }
    }
  }

  /** Handlers of the pair that have arrived and not read the ledger yet. */
  ghost predicate Waiting(s: State, hs: set<nat>, w: string, t: Target) {
    forall h :: h in hs ==> h in s.handlers && SamePair(s.handlers[h], w, t) && s.handlers[h].pc.Start?
  }

  /** For waiting handlers of one pair whose task runs exist the check admits all of them or none: one can publish, two
      can, and any number can, if and only if the work item exists and its ref is absent. */
  lemma WaitingExact(s: State, hs: set<nat>, w: string, t: Target)
    requires Reachable(s) && hs != {} && Waiting(s, hs, w, t)
    ensures (exists s' :: Continues(s, s') && AllPublished(s', hs))
            <==> && w in s.db.status && !Present(s.db, w, t)
                 && forall h :: h in hs ==> s.handlers[h].req.taskRun in s.db.runs
  {
    PublishableExact(s, hs);
    var g :| g in hs;
    assert forall h :: h in hs ==> (CanPublish(s.db, s.handlers[h])
        <==> w in s.db.status && !Present(s.db, w, t) && s.handlers[h].req.taskRun in s.db.runs);
  }

  // ---------------------------------------------------------------- a missing task run

  /** Artifacts are only ever recorded under existing task runs. */
  lemma {:induction false} ArtifactsHaveRuns(ss: seq<State>, steps: seq<Step>, k: nat)
    requires Execution(ss, steps) && k < |ss|
    ensures ss[k].db.runs == ss[0].db.runs && ss[0].db.artifacts <= ss[k].db.artifacts
    ensures forall i :: |ss[0].db.artifacts| <= i < |ss[k].db.artifacts| ==>
                ss[k].db.artifacts[i].taskRun in ss[0].db.runs
  {
    if k > 0 {
      ArtifactsHaveRuns(ss, steps, k - 1);
      StepArtifacts(ss[k - 1], steps[k - 1], ss[k]);
    }
  }

  lemma StepArtifacts(s: State, st: Step, s': State)
    requires Next(s, st, s')
    ensures s'.db.runs == s.db.runs && s.db.artifacts <= s'.db.artifacts
    ensures forall i :: |s.db.artifacts| <= i < |s'.db.artifacts| ==> s'.db.artifacts[i].taskRun in s.db.runs
  {
  }

  /** What a request for a missing task run leaves behind, with a retry after it: the publisher has published and
      the ref is recorded, the request answers an error, and the retry answers "skipped", sets the item to
      "complete" and records nothing, so the publication never gets an artifact. */
  lemma MissingRunThenSkipped(s: State, g: nat, h: nat, w: string, t: Target) returns (s': State)
    requires g != h && Waiting(s, {g, h}, w, t) && w in s.db.status && !Present(s.db, w, t)
    requires s.handlers[g].req.taskRun !in s.db.runs
    ensures Continues(s, s') && g in s'.handlers && s'.handlers[g].pc == Done(BadGateway)
    ensures h in s'.handlers && s'.handlers[h].pc == Done(Skipped(RefsOf(s'.db, w))) && Present(s'.db, w, t)
    ensures w in s'.db.status && s'.db.status[w] == Complete && s'.db.artifacts == s.db.artifacts
  {
    var m := FailsWithoutRun(s, g, w, t);
    var refs, req := RefsOf(m.db, w), m.handlers[h].req;
    ContinuesActs(s, m.db, m.handlers, h, ReadLedger, m.db, Skipping(refs));
    var a := m.handlers[h := Handler(req, Skipping(refs))];
    var db := SetStatus(m.db, w, Complete);
    ContinuesActs(s, m.db, a, h, WriteSkipped, db, Done(Skipped(refs)));
    s' := State(db, a[h := Handler(req, Done(Skipped(refs)))]);
  }

  lemma FailsWithoutRun(s: State, g: nat, w: string, t: Target) returns (m: State)
    requires Waiting(s, {g}, w, t) && w in s.db.status && !Present(s.db, w, t)
    ensures Continues(s, m) && OthersAsBefore(s, m, {g}) && g in m.handlers && m.handlers[g].pc == Done(BadGateway)
    ensures w in m.db.status && Present(m.db, w, t) && m.db.artifacts == s.db.artifacts
  {
    var req := s.handlers[g].req;
    var r := SuccessResult(t, "id", 1, "uri", "mr");
    PublishersMeetContract(t, "id", 1, "uri", "mr");
    ContinuesSelf(s);
    ContinuesActs(s, s.db, s.handlers, g, ReadLedger, s.db, Claiming);
    var hs := s.handlers[g := Handler(req, Claiming)];
    var db := SetStatus(s.db, w, Publishing);
    ContinuesActs(s, s.db, hs, g, WritePublishing, db, Calling);
    hs := hs[g := Handler(req, Calling)];
    ContinuesActs(s, db, hs, g, CallSucceeds(r), db, Upserting(r));
    hs := hs[g := Handler(req, Upserting(r))];
    m := FailsAfterUpsert(s, db, hs, g, r);
  }

  lemma FailsAfterUpsert(s: State, db: Db, hs: map<nat, Handler>, g: nat, r: PublishResult) returns (m: State)
    requires Continues(s, State(db, hs)) && g in hs && hs[g].pc == Upserting(r) && Contract(hs[g].req.target, r)
    requires hs[g].req.workItem in db.status
    ensures Continues(s, m) && OthersAsBefore(State(db, hs), m, {g}) && g in m.handlers
            && m.handlers[g].pc == Done(BadGateway)
    ensures Present(m.db, hs[g].req.workItem, hs[g].req.target) && m.db.artifacts == db.artifacts
  {
    var req := hs[g].req;
    var w := req.workItem;
    var next := UpsertRefs(db, w, r.refs);
    UpsertRefsIsMerge(db, w, r.refs);
    ContinuesActs(s, db, hs, g, CommitUpsert, next, Recording(r, RefsOf(next, w)));
    var a := hs[g := Handler(req, Recording(r, RefsOf(next, w)))];
    m := FailsAtRecord(s, next, a, g);
  }

  lemma FailsAtRecord(s: State, db: Db, hs: map<nat, Handler>, g: nat) returns (m: State)
    requires Continues(s, State(db, hs)) && g in hs && hs[g].pc.Recording?
    ensures Continues(s, m) && m.db == SetStatus(db, hs[g].req.workItem, Failed)
    ensures m.handlers == hs[g := Handler(hs[g].req, Done(BadGateway))]
  {
    var req := hs[g].req;
    ContinuesActs(s, db, hs, g, RecordRaises(false, false), db, Failing(false));
    var b := hs[g := Handler(req, Failing(false))];
    var failed := SetStatus(db, req.workItem, Failed);
    ContinuesActs(s, db, b, g, WriteFailed, failed, Done(BadGateway));
    m := State(failed, b[g := Handler(req, Done(BadGateway))]);
    assert m.handlers == hs[g := Handler(req, Done(BadGateway))];
  }

  // ---------------------------------------------------------------- a stranded claim

  /** Every handler that can publish can also leave its work item "publishing" for good: its "publishing" write commits
      and raises, and nobody is left to write another status. */
  lemma ClaimCanStrand(s: State, h: nat, w: string, t: Target) returns (s': State)
    requires Waiting(s, {h}, w, t) && w in s.db.status && !Present(s.db, w, t)
    ensures Continues(s, s') && w in s'.db.status && s'.db.status[w].Publishing?
    ensures s'.handlers == s.handlers[h := Handler(s.handlers[h].req, Done(ServerError))]
    ensures Quiet(s, w) ==> Quiet(s', w)
  {
    var req := s.handlers[h].req;
    ContinuesSelf(s);
    ContinuesActs(s, s.db, s.handlers, h, ReadLedger, s.db, Claiming);
    var a := s.handlers[h := Handler(req, Claiming)];
    var db := SetStatus(s.db, w, Publishing);
    ContinuesActs(s, s.db, a, h, WritePublishingRaises(true), db, Done(ServerError));
    assert a[h := Handler(req, Done(ServerError))] == s.handlers[h := Handler(req, Done(ServerError))];
    s' := State(db, s.handlers[h := Handler(req, Done(ServerError))]);
  }

  // ---------------------------------------------------------------- duplicates

  const WORK_ITEM := "w"
  const ASK := Request(WORK_ITEM, 0, Outline)

  /** The document handler `h` creates. */
  function Doc(h: nat): string {
    seq(h + 1, i => 'd')
  }

  function Refs1(h: nat): Refs {
    map[OutlineDocId := Text(Doc(h))]
  }

  function ResultOf(h: nat): PublishResult {
    SuccessResult(Outline, Doc(h), 0, "outline://documents/" + Doc(h), "")
  }

  /** `n` handlers, of which the first `k` have answered and the others are about to call the publisher. */
  function Handlers(n: nat, k: nat): map<nat, Handler> {
    map h: nat | h < n :: Handler(ASK, if h < k then Done(Published(Refs1(h))) else Calling)
  }

  /** The service starts over one approved work item with a task run, and an empty ledger. */
  const START := State(Db(map[], map[WORK_ITEM := Unclaimed("approved")], {0}, []), map[])

  /** Any number of handlers can read an empty ledger before anyone publishes. */
  lemma {:induction false} AllClaim(n: nat) returns (db: Db)
    ensures Continues(START, State(db, Handlers(n, 0)))
    ensures WORK_ITEM in db.status && RefsOf(db, WORK_ITEM) == map[] && db.runs == {0} && db.artifacts == []
  {
    if n == 0 {
      db := START.db;
      ContinuesSelf(START);
      assert Handlers(0, 0) == map[];
    } else {
      var before := AllClaim(n - 1);
      var hs := Handlers(n - 1, 0);
      db := SetStatus(before, WORK_ITEM, Publishing);
      Claim(before, hs, n - 1);
      assert hs[n - 1 := Handler(ASK, Calling)] == Handlers(n, 0);
    }
  }

  lemma Claim(db: Db, hs: map<nat, Handler>, h: nat)
    requires h !in hs && Continues(START, State(db, hs)) && RefsOf(db, WORK_ITEM) == map[]
    ensures Continues(START, State(SetStatus(db, WORK_ITEM, Publishing), hs[h := Handler(ASK, Calling)]))
  {
    var a := hs[h := Handler(ASK, Start)];
    ContinuesNext(START, State(db, hs), h, Arrive(ASK), State(db, a));
    ContinuesActs(START, db, a, h, ReadLedger, db, Claiming);
    var b := a[h := Handler(ASK, Claiming)];
    ContinuesActs(START, db, b, h, WritePublishing, SetStatus(db, WORK_ITEM, Publishing), Calling);
    assert b[h := Handler(ASK, Calling)] == hs[h := Handler(ASK, Calling)];
  }

  lemma DocResult(h: nat, db: Db)
    requires RefsOf(db, WORK_ITEM).Keys <= {OutlineDocId}
    ensures Contract(Outline, ResultOf(h)) && |ResultOf(h).artifacts| == 1
    ensures RefsOf(UpsertRefs(db, WORK_ITEM, ResultOf(h).refs), WORK_ITEM) == Refs1(h)
  {
    assert Doc(h) != "" by { assert |Doc(h)| == h + 1; }
    PublishersMeetContract(Outline, Doc(h), 0, "outline://documents/" + Doc(h), "");
    assert Payload(ResultOf(h).refs) == Refs1(h);
    UpsertRefsIsMerge(db, WORK_ITEM, ResultOf(h).refs);
  }

  lemma Deliver(db: Db, hs: map<nat, Handler>, h: nat) returns (db': Db)
    requires h in hs && hs[h] == Handler(ASK, Calling) && Continues(START, State(db, hs))
    requires WORK_ITEM in db.status && RefsOf(db, WORK_ITEM).Keys <= {OutlineDocId} && db.runs == {0}
    ensures Continues(START, State(db', hs[h := Handler(ASK, Done(Published(Refs1(h))))]))
    ensures WORK_ITEM in db'.status && RefsOf(db', WORK_ITEM) == Refs1(h) && db'.runs == {0}
    ensures |db'.artifacts| == |db.artifacts| + 1
  {
    var r := ResultOf(h);
    DocResult(h, db);
    ContinuesActs(START, db, hs, h, CallSucceeds(r), db, Upserting(r));
    var db1 := UpsertRefs(db, WORK_ITEM, r.refs);
    var a := hs[h := Handler(ASK, Upserting(r))];
    ContinuesActs(START, db, a, h, CommitUpsert, db1, Recording(r, Refs1(h)));
    var b := a[h := Handler(ASK, Recording(r, Refs1(h)))];
    db' := DeliverRest(db1, b, h);
    assert b[h := Handler(ASK, Done(Published(Refs1(h))))] == hs[h := Handler(ASK, Done(Published(Refs1(h))))];
  }

  lemma DeliverRest(db: Db, hs: map<nat, Handler>, h: nat) returns (db': Db)
    requires h in hs && hs[h] == Handler(ASK, Recording(ResultOf(h), Refs1(h))) && Continues(START, State(db, hs))
    requires WORK_ITEM in db.status && db.runs == {0} && |ResultOf(h).artifacts| == 1
    ensures Continues(START, State(db', hs[h := Handler(ASK, Done(Published(Refs1(h))))]))
    ensures WORK_ITEM in db'.status && RefsOf(db', WORK_ITEM) == RefsOf(db, WORK_ITEM) && db'.runs == {0}
    ensures |db'.artifacts| == |db.artifacts| + 1
  {
    var db1 := Record(db, 0, ResultOf(h).artifacts);
    ContinuesActs(START, db, hs, h, RecordArtifacts, db1, Finishing(Refs1(h)));
    var a := hs[h := Handler(ASK, Finishing(Refs1(h)))];
    db' := SetStatus(db1, WORK_ITEM, Complete);
    ContinuesActs(START, db1, a, h, WriteComplete, db', Done(Published(Refs1(h))));
    assert a[h := Handler(ASK, Done(Published(Refs1(h))))] == hs[h := Handler(ASK, Done(Published(Refs1(h))))];
  }

  lemma HandlersNext(n: nat, k: nat)
    requires k < n
    ensures k in Handlers(n, k) && Handlers(n, k)[k] == Handler(ASK, Calling)
    ensures Handlers(n, k)[k := Handler(ASK, Done(Published(Refs1(k))))] == Handlers(n, k + 1)
  {
  }

  lemma {:induction false} SomeDeliver(n: nat, k: nat) returns (db: Db)
    requires k <= n
    ensures Continues(START, State(db, Handlers(n, k)))
    ensures WORK_ITEM in db.status && RefsOf(db, WORK_ITEM) == if k == 0 then map[] else Refs1(k - 1)
    ensures db.runs == {0} && |db.artifacts| == k
  {
    if k == 0 {
      db := AllClaim(n);
    } else {
      var before := SomeDeliver(n, k - 1);
      HandlersNext(n, k - 1);
      db := Deliver(before, Handlers(n, k - 1), k - 1);
    }
  }

  /** Without an order between reads and commits there is no bound on duplicates: for every `n` there is a
      run from the start in which `n` requests for one work item and target all answer "published", each with its own
      document and artifact, while the ledger ends up naming only the last of them. */
  lemma DuplicatesUnbounded(n: nat)
    requires n > 0
    ensures Started(START) && Settled(START.db)
    ensures exists s :: Continues(START, s)
              && (forall h: nat :: h < n ==>
                  h in s.handlers && s.handlers[h] == Handler(ASK, Done(Published(Refs1(h)))))
              && RefsOf(s.db, WORK_ITEM) == Refs1(n - 1) && |s.db.artifacts| == n
    ensures forall g: nat, h: nat :: g != h ==> Refs1(g) != Refs1(h)
  {
    var db := SomeDeliver(n, n);
    var s := State(db, Handlers(n, n));
    assert Continues(START, s);
    forall g: nat, h: nat | g != h ensures Refs1(g) != Refs1(h) {
      assert |Doc(g)| != |Doc(h)|;
      assert Refs1(g)[OutlineDocId] != Refs1(h)[OutlineDocId];
    }
  }
}
