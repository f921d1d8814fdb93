/** The publish handler as a step machine: any number of handlers, each a client of the same
    database, taking their steps in any order, with a failure possible at every call. */
module PublishProtocol {
  import opened Prelude
  import opened Ledger

  // ---------------------------------------------------------------- the database

  datatype Status = Unclaimed(name: string) | Publishing | Complete | Failed

  /** The artifact kinds that publishers use; the table's CHECK allows all of them. */
  datatype ArtifactKind = OutlineDraft | BranchRef | MrRef | WorkflowDraft

  datatype Artifact = Artifact(taskRun: nat, kind: ArtifactKind, uri: string)

  /** The rows the service reads and writes. A work item exists exactly when it has a status; `runs` are the task
      runs. */
  datatype Db = Db(ledger: map<string, Row>, status: map<string, Status>, runs: set<nat>, artifacts: seq<Artifact>)

  function RefsOf(db: Db, workItem: string): Refs {
    if workItem in db.ledger then Extract(db.ledger[workItem]) else map[]
  }

  predicate Present(db: Db, workItem: string, t: Target) {
    TargetRefPresent(RefsOf(db, workItem), t)
  }

  /** An UPDATE of a missing work item changes no row. */
  function SetStatus(db: Db, workItem: string, st: Status): Db {
    if workItem in db.status then db.(status := db.status[workItem := st]) else db
  }

  /** An upsert for a missing work item violates the foreign key; an empty payload runs no statement. */
  predicate UpsertAccepted(db: Db, workItem: string, refs: PublisherRefs) {
    Payload(refs) == map[] || workItem in db.status
  }

  function UpsertRefs(db: Db, workItem: string, refs: PublisherRefs): Db {
    if Payload(refs) == map[] then db
    else
      var existing := if workItem in db.ledger then Some(db.ledger[workItem]) else None;
      db.(ledger := db.ledger[workItem := Upsert(existing, Payload(refs))])
  }

  /** The upsert in terms of what it makes readable: a right-biased merge of the work item's refs. */
  lemma UpsertRefsIsMerge(db: Db, workItem: string, refs: PublisherRefs)
    ensures RefsOf(UpsertRefs(db, workItem, refs), workItem) == RefsOf(db, workItem) + Payload(refs)
    ensures forall w :: w != workItem ==> RefsOf(UpsertRefs(db, workItem, refs), w) == RefsOf(db, w)
  {
    UpsertIsMerge(if workItem in db.ledger then Some(db.ledger[workItem]) else None, Payload(refs));
  }

  // ---------------------------------------------------------------- handlers

  datatype Request = Request(workItem: string, taskRun: nat, target: Target)

  datatype PublishedArtifact = PublishedArtifact(kind: ArtifactKind, uri: string)

  datatype PublishResult = PublishResult(refs: PublisherRefs, artifacts: seq<PublishedArtifact>)

  /** The rows of `record_artifacts`: each artifact under the request's task run. */
  function ArtifactRows(taskRun: nat, artifacts: seq<PublishedArtifact>): (rows: seq<Artifact>)
    ensures |rows| == |artifacts| && forall i :: 0 <= i < |rows| ==> rows[i].taskRun == taskRun
  {
    seq(|artifacts|, i requires 0 <= i < |artifacts| => Artifact(taskRun, artifacts[i].kind, artifacts[i].uri))
  }

  /** Rows for a missing task run violate the foreign key; without rows no statement runs. */
  predicate RecordAccepted(db: Db, taskRun: nat, artifacts: seq<PublishedArtifact>) {
    artifacts == [] || taskRun in db.runs
  }

  function Record(db: Db, taskRun: nat, artifacts: seq<PublishedArtifact>): Db {
    db.(artifacts := db.artifacts + ArtifactRows(taskRun, artifacts))
  }

  datatype Response =
    | Skipped(refs: Refs)
    | Published(refs: Refs)
    | BadRequest
    | BadGateway
    | ServerError

  /** Where a handler stands: what it has done, and what it does next. */
  datatype Pc =
    | Start
    | Skipping(existing: Refs)
    | Claiming
    | Calling
    | Upserting(result: PublishResult)
    | Recording(result: PublishResult, merged: Refs)
    | Finishing(merged: Refs)
    | Failing(badRequest: bool)
    | Done(response: Response)

  datatype Handler = Handler(req: Request, pc: Pc)

  datatype State = State(db: Db, handlers: map<nat, Handler>)

  datatype Action =
    | Arrive(req: Request)
    | ReadLedger
    | ReadFails
    | WriteSkipped
    | WriteSkippedRaises(committed: bool)
    | WritePublishing
    | WritePublishingRaises(committed: bool)
    | CallSucceeds(result: PublishResult)
    | CallRaises(badRequest: bool)
    | CommitUpsert
    | UpsertRaises(committed: bool, badRequest: bool)
    | RecordArtifacts
    | RecordRaises(committed: bool, badRequest: bool)
    | WriteComplete
    | WriteCompleteRaises(committed: bool, badRequest: bool)
    | WriteFailed
    | WriteFailedRaises(committed: bool)

  datatype Step = Step(h: nat, action: Action)

  /** A publisher that returns has a ref for its target and an artifact, records no empty text, and never an MR without
      its project. */
  predicate Contract(t: Target, r: PublishResult) {
    && FieldOf(t) in Payload(r.refs)
    && (forall c :: c in Payload(r.refs) ==> Payload(r.refs)[c] != Text(""))
    && (GitlabMrIid in Payload(r.refs) ==> GitlabProjectId in Payload(r.refs))
    && r.artifacts != []
  }

  /** What each publisher actually returns on success: `id` is checked to be non-empty before it does. */
  function SuccessRefs(t: Target, id: string, iid: int): PublisherRefs {
    if t.GitlabMr? then map[Known(GitlabProjectId) := Some(Text(id)), Known(GitlabMrIid) := Some(Number(iid))]
    else map[Known(FieldOf(t)) := Some(Text(id))]
  }

  function SuccessArtifacts(t: Target, uri: string, mrUri: string): seq<PublishedArtifact> {
    match t
    case Outline => [PublishedArtifact(OutlineDraft, uri)]
    case GitlabBranch => [PublishedArtifact(BranchRef, uri)]
    case GitlabMr => [PublishedArtifact(BranchRef, uri), PublishedArtifact(MrRef, mrUri)]
    case Dify => [PublishedArtifact(WorkflowDraft, uri)]
    case N8n => [PublishedArtifact(WorkflowDraft, uri)]
  }

  function SuccessResult(t: Target, id: string, iid: int, uri: string, mrUri: string): PublishResult {
    PublishResult(SuccessRefs(t, id, iid), SuccessArtifacts(t, uri, mrUri))
  }

  lemma PublishersMeetContract(t: Target, id: string, iid: int, uri: string, mrUri: string)
    requires id != ""
    ensures Contract(t, SuccessResult(t, id, iid, uri, mrUri))
  {
    var refs := SuccessRefs(t, id, iid);
    assert Known(FieldOf(t)) in refs;
    if t.GitlabMr? {
      assert Known(GitlabProjectId) in refs;
    }
  }

  /** The columns that each publisher's success sets; a merge request comes with its project. */
  function SuccessColumns(t: Target, id: string, iid: int): Refs {
    match t
    case Outline => map[OutlineDocId := Text(id)]
    case GitlabBranch => map[GitlabProjectId := Text(id)]
    case GitlabMr => map[GitlabProjectId := Text(id), GitlabMrIid := Number(iid)]
    case Dify => map[DifyWorkflowId := Text(id)]
    case N8n => map[N8nWorkflowId := Text(id)]
  }

  lemma SuccessPayload(t: Target, id: string, iid: int)
    ensures Payload(SuccessRefs(t, id, iid)) == SuccessColumns(t, id, iid)
  {
  }

  /** Where each target's ref is looked up. */
  lemma GateReads(refs: Refs, t: Target)
    ensures TargetRefPresent(refs, t) <==>
              match t
              case Outline => OutlineDocId in refs && refs[OutlineDocId] != Text("")
              case GitlabBranch => GitlabProjectId in refs && refs[GitlabProjectId] != Text("")
              case GitlabMr => GitlabMrIid in refs && refs[GitlabMrIid] != Text("")
              case Dify => DifyWorkflowId in refs && refs[DifyWorkflowId] != Text("")
              case N8n => N8nWorkflowId in refs && refs[N8nWorkflowId] != Text("")
  {
  }

  lemma GateAfterColumns(before: Refs, t: Target, id: string, iid: int, u: Target)
    requires id != ""
    ensures TargetRefPresent(before + SuccessColumns(t, id, iid), u)
            <==> TargetRefPresent(before, u) || u == t || (t.GitlabMr? && u.GitlabBranch?)
  {
    GateReads(before, u);
    GateReads(before + SuccessColumns(t, id, iid), u);
  }

  /** Once a publisher's success is upserted, the gate skips its target, after a merge request also the branch target,
      and what it skipped before; nothing else. */
  lemma GateAfterPublish(db: Db, w: string, t: Target, id: string, iid: int, uri: string, mrUri: string, u: Target)
    requires id != ""
    ensures var after := UpsertRefs(db, w, SuccessResult(t, id, iid, uri, mrUri).refs);
            && RefsOf(after, w) == RefsOf(db, w) + SuccessColumns(t, id, iid)
            && (Present(after, w, u) <==> Present(db, w, u) || u == t || (t.GitlabMr? && u.GitlabBranch?))
  {
    UpsertRefsIsMerge(db, w, SuccessRefs(t, id, iid));
    SuccessPayload(t, id, iid);
    GateAfterColumns(RefsOf(db, w), t, id, iid, u);
  }

  /** The artifacts that each publisher's success names. */
  lemma SuccessNames(t: Target, id: string, iid: int, uri: string, mrUri: string)
    ensures var artifacts := SuccessResult(t, id, iid, uri, mrUri).artifacts;
            && |artifacts| == (if t.GitlabMr? then 2 else 1)
            && artifacts[0].uri == uri && (t.GitlabMr? ==> artifacts[1] == PublishedArtifact(MrRef, mrUri))
            && artifacts[0].kind == match t
                                    case Outline => OutlineDraft
                                    case GitlabBranch => BranchRef
                                    case GitlabMr => BranchRef
                                    case Dify => WorkflowDraft
                                    case N8n => WorkflowDraft
  {
  }

  /** Column by column: an upsert sets the columns that are named with a value and keeps the others. */
  lemma UpsertColumns(db: Db, w: string, refs: PublisherRefs, c: Column)
    requires Payload(refs) != map[]
    ensures w in UpsertRefs(db, w, refs).ledger
    ensures Get(UpsertRefs(db, w, refs).ledger[w], c)
            == if Known(c) in refs && refs[Known(c)].Some? then refs[Known(c)]
               else if w in db.ledger then Get(db.ledger[w], c) else None
  {
    UpsertRefsIsMerge(db, w, refs);
    var row := UpsertRefs(db, w, refs).ledger[w];
    assert Extract(row) == RefsOf(db, w) + Payload(refs);
    assert c in Extract(row) <==> Get(row, c).Some?;
    assert c in Payload(refs) <==> Known(c) in refs && refs[Known(c)].Some?;
    assert Get(row, c).Some? ==> Extract(row)[c] == Get(row, c).value;
  }

  /** One step of handler `h`, from its program counter to the next, with its effect on the database. */
  ghost predicate Acts(db: Db, hd: Handler, a: Action, db': Db, pc': Pc) {
    var w := hd.req.workItem;
    match a
    case Arrive(_) => false
    case ReadLedger =>
      && hd.pc.Start? && db' == db
      && pc' == if TargetRefPresent(RefsOf(db, w), hd.req.target) then Skipping(RefsOf(db, w)) else Claiming
    case ReadFails => hd.pc.Start? && db' == db && pc' == Done(ServerError)
    case WriteSkipped => hd.pc.Skipping? && db' == SetStatus(db, w, Complete) && pc' == Done(Skipped(hd.pc.existing))
    case WriteSkippedRaises(committed) =>
      hd.pc.Skipping? && db' == (if committed then SetStatus(db, w, Complete) else db) && pc' == Done(ServerError)
    case WritePublishing => hd.pc.Claiming? && db' == SetStatus(db, w, Publishing) && pc' == Calling
    case WritePublishingRaises(committed) =>
      hd.pc.Claiming? && db' == (if committed then SetStatus(db, w, Publishing) else db) && pc' == Done(ServerError)
    case CallSucceeds(result) =>
      hd.pc.Calling? && Contract(hd.req.target, result) && db' == db && pc' == Upserting(result)
    case CallRaises(bad) => hd.pc.Calling? && db' == db && pc' == Failing(bad)
    case CommitUpsert =>
      && hd.pc.Upserting? && UpsertAccepted(db, w, hd.pc.result.refs)
      && db' == UpsertRefs(db, w, hd.pc.result.refs)
      && pc' == if hd.pc.result.artifacts == [] then Finishing(RefsOf(db', w))
                else Recording(hd.pc.result, RefsOf(db', w))
    case UpsertRaises(committed, bad) =>
      && hd.pc.Upserting? && (committed ==> UpsertAccepted(db, w, hd.pc.result.refs))
      && db' == (if committed then UpsertRefs(db, w, hd.pc.result.refs) else db)
      && pc' == Failing(bad)
    case RecordArtifacts =>
      && hd.pc.Recording? && RecordAccepted(db, hd.req.taskRun, hd.pc.result.artifacts)
      && db' == Record(db, hd.req.taskRun, hd.pc.result.artifacts)
      && pc' == Finishing(hd.pc.merged)
    case RecordRaises(committed, bad) =>
      && hd.pc.Recording? && (committed ==> RecordAccepted(db, hd.req.taskRun, hd.pc.result.artifacts))
      && db' == (if committed then Record(db, hd.req.taskRun, hd.pc.result.artifacts) else db)
      && pc' == Failing(bad)
    case WriteComplete => hd.pc.Finishing? && db' == SetStatus(db, w, Complete) && pc' == Done(Published(hd.pc.merged))
    case WriteCompleteRaises(committed, bad) =>
      && hd.pc.Finishing? && db' == (if committed then SetStatus(db, w, Complete) else db) && pc' == Failing(bad)
    case WriteFailed =>
      && hd.pc.Failing? && db' == SetStatus(db, w, Failed)
      && pc' == Done(if hd.pc.badRequest then BadRequest else BadGateway)
    case WriteFailedRaises(committed) =>
      hd.pc.Failing? && db' == (if committed then SetStatus(db, w, Failed) else db) && pc' == Done(ServerError)
  }

  ghost predicate Next(s: State, st: Step, s': State) {
    if st.action.Arrive? then
      st.h !in s.handlers && s' == s.(handlers := s.handlers[st.h := Handler(st.action.req, Start)])
    else
      && st.h in s.handlers && st.h in s'.handlers
      && s'.handlers == s.handlers[st.h := Handler(s.handlers[st.h].req, s'.handlers[st.h].pc)]
      && Acts(s.db, s.handlers[st.h], st.action, s'.db, s'.handlers[st.h].pc)
  }

  /** The service starts, over any database. */
  predicate Started(s: State) {
    s.handlers == map[]
  }

  /** The statuses it finds are what it left behind: nothing is being published, and what is complete has a ref. */
  ghost predicate Settled(db: Db) {
    forall w :: w in db.status ==>
      !db.status[w].Publishing? && (db.status[w].Complete? ==> exists t :: Present(db, w, t))
  }

  ghost predicate Execution(ss: seq<State>, steps: seq<Step>) {
    && |ss| == |steps| + 1
    && forall i :: 0 <= i < |steps| ==> Next(ss[i], steps[i], ss[i + 1])
  }

  // ---------------------------------------------------------------- the ledger only grows

  /** Only a committed upsert touches the ledger. */
  predicate Commits(a: Action) {
    a.CommitUpsert? || (a.UpsertRaises? && a.committed)
  }

  lemma StepLedger(s: State, st: Step, s': State)
    requires Next(s, st, s')
    ensures !Commits(st.action) ==> s'.db.ledger == s.db.ledger
    ensures Commits(st.action) ==> s.handlers[st.h].pc.Upserting?
    ensures Commits(st.action) ==>
                s'.db == UpsertRefs(s.db, s.handlers[st.h].req.workItem, s.handlers[st.h].pc.result.refs)
  {
  }

  /** What a handler carries towards the ledger and the artifacts comes from a successful call. */
  ghost predicate CarriesContract(s: State) {
    forall h :: h in s.handlers && (s.handlers[h].pc.Upserting? || s.handlers[h].pc.Recording?) ==>
      Contract(s.handlers[h].req.target, s.handlers[h].pc.result)
  }

  lemma StepCarriesContract(s: State, st: Step, s': State)
    requires Next(s, st, s') && CarriesContract(s)
    ensures CarriesContract(s')
  {
  }

  lemma StepKeepsPresent(s: State, st: Step, s': State, w: string, t: Target)
    requires Next(s, st, s') && CarriesContract(s) && Present(s.db, w, t)
    ensures Present(s'.db, w, t)
  {
    StepLedger(s, st, s');
    if Commits(st.action) {
      UpsertRefsIsMerge(s.db, s.handlers[st.h].req.workItem, s.handlers[st.h].pc.result.refs);
    }
  }

  lemma CommitMakesPresent(s: State, st: Step, s': State)
    requires Next(s, st, s') && CarriesContract(s) && Commits(st.action)
    ensures Present(s'.db, s.handlers[st.h].req.workItem, s.handlers[st.h].req.target)
  {
    StepLedger(s, st, s');
    UpsertRefsIsMerge(s.db, s.handlers[st.h].req.workItem, s.handlers[st.h].pc.result.refs);
  }

  // ---------------------------------------------------------------- publish once after commit

  predicate SamePair(hd: Handler, w: string, t: Target) {
    hd.req.workItem == w && hd.req.target == t
  }

  /** Handler `h` is not on the way to publishing the pair: it has not read the ledger, or it is skipping. */
  predicate Harmless(s: State, h: nat, w: string, t: Target) {
    h in s.handlers && SamePair(s.handlers[h], w, t) ==>
      var pc := s.handlers[h].pc;
      pc.Start? || pc.Skipping? || (pc.Done? && !pc.response.Published?)
  }

  lemma StepHarmless(s: State, st: Step, s': State, h: nat, w: string, t: Target)
    requires Next(s, st, s') && Present(s.db, w, t) && Harmless(s, h, w, t)
    ensures Harmless(s', h, w, t)
  {
  }

  lemma {:induction false} ContractThroughout(ss: seq<State>, steps: seq<Step>, k: nat)
    requires Execution(ss, steps) && CarriesContract(ss[0]) && k < |ss|
    ensures CarriesContract(ss[k])
  {
    if k > 0 {
      ContractThroughout(ss, steps, k - 1);
      StepCarriesContract(ss[k - 1], steps[k - 1], ss[k]);
    }
  }

  lemma {:induction false} HarmlessFrom(ss: seq<State>, steps: seq<Step>, m: nat, k: nat, h: nat, w: string, t: Target)
    requires Execution(ss, steps) && CarriesContract(ss[0]) && m <= k < |ss|
    requires Present(ss[m].db, w, t) && Harmless(ss[m], h, w, t)
    ensures Present(ss[k].db, w, t) && Harmless(ss[k], h, w, t)
  {
    if m < k {
      HarmlessFrom(ss, steps, m, k - 1, h, w, t);
      ContractThroughout(ss, steps, k - 1);
      StepKeepsPresent(ss[k - 1], steps[k - 1], ss[k], w, t);
      StepHarmless(ss[k - 1], steps[k - 1], ss[k], h, w, t);
    }
  }

  /** Handlers are never forgotten and never change their request, and each step moves its handler forward. */
  function Rank(pc: Pc): nat {
    match pc
    case Start => 0
    case Skipping(_) => 1
    case Claiming => 1
    case Calling => 2
    case Upserting(_) => 3
    case Recording(_, _) => 4
    case Finishing(_) => 5
    case Failing(_) => 6
    case Done(_) => 7
  }

  lemma StepRank(s: State, st: Step, s': State, h: nat)
    requires Next(s, st, s') && h in s.handlers
    ensures h in s'.handlers && s'.handlers[h].req == s.handlers[h].req
    ensures st.h != h ==> s'.handlers[h] == s.handlers[h]
    ensures st.h == h ==> Rank(s'.handlers[h].pc) > Rank(s.handlers[h].pc)
  {
  }

  lemma {:induction false} RankFrom(ss: seq<State>, steps: seq<Step>, m: nat, k: nat, h: nat)
    requires Execution(ss, steps) && m <= k < |ss| && h in ss[m].handlers
    ensures h in ss[k].handlers && ss[k].handlers[h].req == ss[m].handlers[h].req
    ensures Rank(ss[k].handlers[h].pc) >= Rank(ss[m].handlers[h].pc)
  {
    if m < k {
      RankFrom(ss, steps, m, k - 1, h);
      StepRank(ss[k - 1], steps[k - 1], ss[k], h);
    }
  }

  lemma {:induction false} PresentFrom(ss: seq<State>, steps: seq<Step>, m: nat, k: nat, w: string, t: Target)
    requires Execution(ss, steps) && CarriesContract(ss[0]) && m <= k < |ss| && Present(ss[m].db, w, t)
    ensures Present(ss[k].db, w, t)
  {
    if m < k {
      PresentFrom(ss, steps, m, k - 1, w, t);
      ContractThroughout(ss, steps, k - 1);
      StepKeepsPresent(ss[k - 1], steps[k - 1], ss[k], w, t);
    }
  }

  /** Step `i` is taken by a handler of the pair. */
  ghost predicate StepOfPair(ss: seq<State>, steps: seq<Step>, i: nat, w: string, t: Target)
    requires Execution(ss, steps)
  {
    i < |steps| && steps[i].h in ss[i].handlers && SamePair(ss[i].handlers[steps[i].h], w, t)
  }

  ghost predicate CommitsPair(ss: seq<State>, steps: seq<Step>, i: nat, w: string, t: Target)
    requires Execution(ss, steps)
  {
    StepOfPair(ss, steps, i, w, t) && Commits(steps[i].action)
  }

  predicate CallsPublisher(a: Action) {
    a.CallSucceeds? || a.CallRaises?
  }

  /** Publish once after commit. Under any interleaving, a handler whose ledger read follows a committed
      upsert for its work item and target never calls the publisher and never answers "published". */
  lemma PublishOnceAfterCommit(ss: seq<State>, steps: seq<Step>, i: nat, j: nat, k: nat, w: string, t: Target)
    requires Execution(ss, steps) && Started(ss[0])
    requires CommitsPair(ss, steps, i, w, t)
    requires i < j && StepOfPair(ss, steps, j, w, t) && steps[j].action.ReadLedger?
    requires j < k < |ss|
    ensures k < |steps| && steps[k].h == steps[j].h ==> !CallsPublisher(steps[k].action)
    ensures steps[j].h in ss[k].handlers
    ensures ss[k].handlers[steps[j].h].pc.Done? ==> !ss[k].handlers[steps[j].h].pc.response.Published?
  {
    var h := steps[j].h;
    PresentAfterCommit(ss, steps, i, j, w, t);
    ReadSeesRef(ss[j], steps[j], ss[j + 1], w, t);
    PresentAfterCommit(ss, steps, i, j + 1, w, t);
    HarmlessFrom(ss, steps, j + 1, k, h, w, t);
    RankFrom(ss, steps, j, k, h);
    if k < |steps| {
      CallPc(ss[k], steps[k], ss[k + 1]);
    }
  }

  lemma CallPc(s: State, st: Step, s': State)
    requires Next(s, st, s')
    ensures CallsPublisher(st.action) ==> s.handlers[st.h].pc.Calling?
  {
  }

  lemma PresentAfterCommit(ss: seq<State>, steps: seq<Step>, i: nat, k: nat, w: string, t: Target)
    requires Execution(ss, steps) && CarriesContract(ss[0]) && CommitsPair(ss, steps, i, w, t) && i < k < |ss|
    ensures Present(ss[k].db, w, t)
  {
    ContractThroughout(ss, steps, i);
    CommitMakesPresent(ss[i], steps[i], ss[i + 1]);
    PresentFrom(ss, steps, i + 1, k, w, t);
  }

  lemma ReadSeesRef(s: State, st: Step, s': State, w: string, t: Target)
    requires Next(s, st, s') && st.action.ReadLedger? && SamePair(s.handlers[st.h], w, t) && Present(s.db, w, t)
    ensures Harmless(s', st.h, w, t)
  {
  }

  // ---------------------------------------------------------------- sequential runs

  predicate InFlight(s: State, h: nat, w: string) {
    && h in s.handlers && s.handlers[h].req.workItem == w
    && !s.handlers[h].pc.Start? && !s.handlers[h].pc.Done?
  }

  predicate PairInFlight(s: State, h: nat, w: string, t: Target) {
    InFlight(s, h, w) && SamePair(s.handlers[h], w, t)
  }

  /** No two handlers of the pair are in flight at the same time. Other targets of the work item may overlap. */
  ghost predicate Sequential(ss: seq<State>, w: string, t: Target) {
    forall k, g, h :: 0 <= k < |ss| && PairInFlight(ss[k], g, w, t) && PairInFlight(ss[k], h, w, t) ==> g == h
  }

  /** A handler of the pair that is not in flight when another one commits never reaches its own upsert. */
  lemma OthersStayHarmless(ss: seq<State>, steps: seq<Step>, i: nat, k: nat, h: nat, w: string, t: Target)
    requires Execution(ss, steps) && CarriesContract(ss[0]) && CommitsPair(ss, steps, i, w, t) && i < k < |ss|
    requires h != steps[i].h && !PairInFlight(ss[i], h, w, t)
    requires h in ss[k].handlers && SamePair(ss[k].handlers[h], w, t)
    ensures !ss[k].handlers[h].pc.Upserting?
  {
    if h in ss[i].handlers {
      RankFrom(ss, steps, i, k, h);
      StepRank(ss[i], steps[i], ss[i + 1], h);
    }
    if !(h in ss[i].handlers && ss[i].handlers[h].pc.Done?) {
      PresentAfterCommit(ss, steps, i, i + 1, w, t);
      assert Harmless(ss[i + 1], h, w, t);
      HarmlessFrom(ss, steps, i + 1, k, h, w, t);
    }
  }

  lemma CommitPc(ss: seq<State>, steps: seq<Step>, i: nat, w: string, t: Target)
    requires Execution(ss, steps) && CommitsPair(ss, steps, i, w, t)
    ensures ss[i].handlers[steps[i].h].pc.Upserting? && PairInFlight(ss[i], steps[i].h, w, t)
  {
    assert Next(ss[i], steps[i], ss[i + 1]);
  }

  lemma LaterCommitImpossible(ss: seq<State>, steps: seq<Step>, i: nat, k: nat, w: string, t: Target)
    requires Execution(ss, steps) && Started(ss[0]) && Sequential(ss, w, t) && i < k
    requires CommitsPair(ss, steps, i, w, t)
    ensures !CommitsPair(ss, steps, k, w, t)
  {
    if CommitsPair(ss, steps, k, w, t) {
      var g, h := steps[i].h, steps[k].h;
      CommitPc(ss, steps, i, w, t);
      CommitPc(ss, steps, k, w, t);
      if h == g {
        StepRank(ss[i], steps[i], ss[i + 1], g);
        RankFrom(ss, steps, i + 1, k, h);
      } else {
        OthersStayHarmless(ss, steps, i, k, h, w, t);
      }
    }
  }

  /** In a run without overlap on a pair, at most one upsert of the pair commits, however attempts fail. */
  lemma SequentialCommitsOnce(ss: seq<State>, steps: seq<Step>, i: nat, k: nat, w: string, t: Target)
    requires Execution(ss, steps) && Started(ss[0]) && Sequential(ss, w, t)
    requires CommitsPair(ss, steps, i, w, t) && CommitsPair(ss, steps, k, w, t)
    ensures i == k
  {
    if i < k {
      LaterCommitImpossible(ss, steps, i, k, w, t);
    } else if k < i {
      LaterCommitImpossible(ss, steps, k, i, w, t);
    }
  }

  predicate PastCommit(pc: Pc) {
    pc.Recording? || pc.Finishing? || (pc.Done? && pc.response.Published?)
  }

  /** A handler that got past its upsert committed it. */
  lemma {:induction false} CommitOf(ss: seq<State>, steps: seq<Step>, k: nat, h: nat) returns (i: nat)
    requires Execution(ss, steps) && k < |ss| && h in ss[k].handlers && PastCommit(ss[k].handlers[h].pc)
    requires h in ss[0].handlers ==> !PastCommit(ss[0].handlers[h].pc)
    ensures i < k && steps[i].h == h
    ensures CommitsPair(ss, steps, i, ss[k].handlers[h].req.workItem, ss[k].handlers[h].req.target)
  {
    var st := steps[k - 1];
    if h in ss[k - 1].handlers {
      StepRank(ss[k - 1], st, ss[k], h);
    }
    if st.h == h && Commits(st.action) {
      i := k - 1;
    } else {
      i := CommitOf(ss, steps, k - 1, h);
    }
  }

  /** And at most one handler answers "published" for the pair. */
  lemma SequentialPublishesOnce(ss: seq<State>, steps: seq<Step>, k: nat, g: nat, h: nat, w: string, t: Target)
    requires Execution(ss, steps) && Started(ss[0]) && Sequential(ss, w, t) && k < |ss|
    requires g in ss[k].handlers && SamePair(ss[k].handlers[g], w, t) && PastCommit(ss[k].handlers[g].pc)
    requires h in ss[k].handlers && SamePair(ss[k].handlers[h], w, t) && PastCommit(ss[k].handlers[h].pc)
    ensures g == h
  {
    var i := CommitOf(ss, steps, k, g);
    var j := CommitOf(ss, steps, k, h);
    SequentialCommitsOnce(ss, steps, i, j, w, t);
  }

  // ---------------------------------------------------------------- merge requests imply branches

  ghost predicate MrImpliesBranch(db: Db, w: string) {
    Present(db, w, GitlabMr) ==> Present(db, w, GitlabBranch)
  }

  /** From any ledger with the property, every reachable one has it: whenever the MR target is
      reported as published the branch target is too, so a later branch publish is skipped. */
  lemma {:induction false} MrImpliesBranchThroughout(ss: seq<State>, steps: seq<Step>, k: nat, w: string)
    requires Execution(ss, steps) && Started(ss[0]) && k < |ss| && MrImpliesBranch(ss[0].db, w)
    requires GitlabMrIid in RefsOf(ss[0].db, w) ==> RefsOf(ss[0].db, w)[GitlabMrIid] != Text("")
    ensures MrImpliesBranch(ss[k].db, w)
    ensures GitlabMrIid in RefsOf(ss[k].db, w) ==> RefsOf(ss[k].db, w)[GitlabMrIid] != Text("")
  {
    if k > 0 {
      var s, st, s' := ss[k - 1], steps[k - 1], ss[k];
      MrImpliesBranchThroughout(ss, steps, k - 1, w);
      ContractThroughout(ss, steps, k - 1);
      MrImpliesBranchNext(s, st, s', w);
    }
  }

  lemma MrImpliesBranchNext(s: State, st: Step, s': State, w: string)
    requires Next(s, st, s') && CarriesContract(s) && MrImpliesBranch(s.db, w)
    requires GitlabMrIid in RefsOf(s.db, w) ==> RefsOf(s.db, w)[GitlabMrIid] != Text("")
    ensures MrImpliesBranch(s'.db, w)
    ensures GitlabMrIid in RefsOf(s'.db, w) ==> RefsOf(s'.db, w)[GitlabMrIid] != Text("")
  {
    StepLedger(s, st, s');
    if Commits(st.action) {
      UpsertRefsIsMerge(s.db, s.handlers[st.h].req.workItem, s.handlers[st.h].pc.result.refs);
    }
  }
}
