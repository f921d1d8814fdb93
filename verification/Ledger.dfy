/** The `external_refs` ledger: one row of nullable columns for each work item, and the upsert that merges into it. */
module Ledger {
  import opened Prelude

  datatype Target = Outline | GitlabBranch | GitlabMr | Dify | N8n

  datatype Column =
    | OutlineDocId | GitlabProjectId | GitlabIssueIid | GitlabMrIid
    | DifyWorkflowId | N8nWorkflowId | MatrixRoomId | HatchetWorkflowRunId

  datatype RefValue = Text(s: string) | Number(n: int)

  datatype Row = Row(
    outlineDocId: Option<RefValue>,
    gitlabProjectId: Option<RefValue>,
    gitlabIssueIid: Option<RefValue>,
    gitlabMrIid: Option<RefValue>,
    difyWorkflowId: Option<RefValue>,
    n8nWorkflowId: Option<RefValue>,
    matrixRoomId: Option<RefValue>,
    hatchetWorkflowRunId: Option<RefValue>)

  /** The keys of the dictionaries publishers return: a ledger column or something else. */
  datatype Key = Known(column: Column) | Unknown(name: string)

  type Refs = map<Column, RefValue>
  type PublisherRefs = map<Key, Option<RefValue>>

  function Get(r: Row, c: Column): Option<RefValue> {
    match c
    case OutlineDocId => r.outlineDocId
    case GitlabProjectId => r.gitlabProjectId
    case GitlabIssueIid => r.gitlabIssueIid
    case GitlabMrIid => r.gitlabMrIid
    case DifyWorkflowId => r.difyWorkflowId
    case N8nWorkflowId => r.n8nWorkflowId
    case MatrixRoomId => r.matrixRoomId
    case HatchetWorkflowRunId => r.hatchetWorkflowRunId
  }

  function RowOf(f: Column -> Option<RefValue>): Row {
    Row(f(OutlineDocId), f(GitlabProjectId), f(GitlabIssueIid), f(GitlabMrIid),
        f(DifyWorkflowId), f(N8nWorkflowId), f(MatrixRoomId), f(HatchetWorkflowRunId))
  }

  /** `_extract_external_refs`: the non-null columns. */
  function Extract(r: Row): Refs {
    map c: Column | Get(r, c).Some? :: Get(r, c).value
  }

  /** The columns the upsert names: known keys with a value. */
  function Payload(refs: PublisherRefs): Refs {
    map c: Column | Known(c) in refs && refs[Known(c)].Some? :: refs[Known(c)].value
  }

  function Excluded(payload: Refs, c: Column): Option<RefValue> {
    if c in payload then Some(payload[c]) else None
  }

  /** The statement itself: INSERT the named columns, or on conflict SET each named
      column to `COALESCE(EXCLUDED.column, external_refs.column)`. */
  function Upsert(existing: Option<Row>, payload: Refs): Row {
    RowOf(c =>
      if existing.None? then Excluded(payload, c)
      else if c in payload then Coalesce(Excluded(payload, c), Get(existing.value, c))
      else Get(existing.value, c))
  }

  function ExtractExisting(existing: Option<Row>): Refs {
    if existing.None? then map[] else Extract(existing.value)
  }

  /** The generated statement is a right-biased merge of the known non-null columns. */
  lemma UpsertIsMerge(existing: Option<Row>, payload: Refs)
    ensures Extract(Upsert(existing, payload)) == ExtractExisting(existing) + payload
  {
    var row := Upsert(existing, payload);
    forall c: Column
      ensures Get(row, c) == if c in payload then Some(payload[c])
                             else if existing.None? then None else Get(existing.value, c)
    {
      match c {
        case OutlineDocId =>
        case GitlabProjectId =>
        case GitlabIssueIid =>
        case GitlabMrIid =>
        case DifyWorkflowId =>
        case N8nWorkflowId =>
        case MatrixRoomId =>
        case HatchetWorkflowRunId =>
      }
    }
  }

  /** Two rows with the same non-null columns are the same row. */
  lemma ExtractInjective(a: Row, b: Row)
    requires Extract(a) == Extract(b)
    ensures a == b
  {
    forall c: Column ensures Get(a, c) == Get(b, c) {
      assert c in Extract(a) <==> c in Extract(b);
    }
    assert Get(a, OutlineDocId) == Get(b, OutlineDocId) && Get(a, GitlabProjectId) == Get(b, GitlabProjectId)
        && Get(a, GitlabIssueIid) == Get(b, GitlabIssueIid) && Get(a, GitlabMrIid) == Get(b, GitlabMrIid)
        && Get(a, DifyWorkflowId) == Get(b, DifyWorkflowId) && Get(a, N8nWorkflowId) == Get(b, N8nWorkflowId)
        && Get(a, MatrixRoomId) == Get(b, MatrixRoomId) && Get(a, HatchetWorkflowRunId) == Get(b, HatchetWorkflowRunId);
  }

  /** A recorded column never returns to null. */
  lemma UpsertNeverClears(existing: Row, payload: Refs, c: Column)
    requires Get(existing, c).Some?
    ensures Get(Upsert(Some(existing), payload), c).Some?
  {
    UpsertIsMerge(Some(existing), payload);
    assert c in Extract(existing);
    assert c in Extract(Upsert(Some(existing), payload));
  }

  predicate Agree(a: Refs, b: Refs) {
    forall c :: c in a && c in b ==> a[c] == b[c]
  }

  lemma MergesCommute(base: Refs, a: Refs, b: Refs)
    ensures base + a + b == base + b + a <==> Agree(a, b)
  {
    if !Agree(a, b) {
      var c :| c in a && c in b && a[c] != b[c];
      assert (base + a + b)[c] == b[c] && (base + b + a)[c] == a[c];
    }
  }

  /** Two upserts commute exactly when they agree on the columns they share; disjoint ones always do. */
  lemma UpsertsCommute(existing: Option<Row>, a: Refs, b: Refs)
    ensures Upsert(Some(Upsert(existing, a)), b) == Upsert(Some(Upsert(existing, b)), a) <==> Agree(a, b)
  {
    UpsertTwice(existing, a, b);
    UpsertTwice(existing, b, a);
    MergesCommute(ExtractExisting(existing), a, b);
    if Agree(a, b) {
      ExtractInjective(Upsert(Some(Upsert(existing, a)), b), Upsert(Some(Upsert(existing, b)), a));
    }
  }

  lemma UpsertTwice(existing: Option<Row>, a: Refs, b: Refs)
    ensures Extract(Upsert(Some(Upsert(existing, a)), b)) == ExtractExisting(existing) + a + b
  {
    UpsertIsMerge(existing, a);
    UpsertIsMerge(Some(Upsert(existing, a)), b);
  }

  // ---------------------------------------------------------------- targets

  function FieldOf(t: Target): Column {
    match t
    case Outline => OutlineDocId
    case GitlabBranch => GitlabProjectId
    case GitlabMr => GitlabMrIid
    case Dify => DifyWorkflowId
    case N8n => N8nWorkflowId
  }

  /** `target_ref_present`: a recorded ref that is not the empty string. */
  predicate TargetRefPresent(refs: Refs, t: Target) {
    FieldOf(t) in refs && refs[FieldOf(t)] != Text("")
  }

  const TARGETS: seq<Target> := [Outline, GitlabBranch, GitlabMr, Dify, N8n]

  function TableIndex(t: Target): nat {
    match t
    case Outline => 0
    case GitlabBranch => 1
    case GitlabMr => 2
    case Dify => 3
    case N8n => 4
  }

  /** `_published_targets` lists exactly the targets the idempotency gate would skip, in table order. */
  method PublishedTargets(refs: Refs) returns (published: seq<Target>)
    ensures forall t :: t in published <==> TargetRefPresent(refs, t)
    ensures forall i, j :: 0 <= i < j < |published| ==> TableIndex(published[i]) < TableIndex(published[j])
    ensures TableIndex(Outline) < TableIndex(GitlabBranch) < TableIndex(GitlabMr) < TableIndex(Dify) < TableIndex(N8n)
  {
    published := [];
    for k := 0 to |TARGETS|
      invariant forall t :: t in published <==> TableIndex(t) < k && TargetRefPresent(refs, t)
      invariant forall i, j :: 0 <= i < j < |published| ==> TableIndex(published[i]) < TableIndex(published[j])
    {
      var t := TARGETS[k];
      assert TableIndex(t) == k && forall u: Target :: TableIndex(u) == k ==> u == t;
      assert forall i :: 0 <= i < |published| ==> published[i] in published;
      if FieldOf(t) in refs && refs[FieldOf(t)] != Text("") {
        published := published + [t];
      }
    }
  }
}
