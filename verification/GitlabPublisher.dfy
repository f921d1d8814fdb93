/** The GitLab publisher: the commit actions it derives from a request, and what it does to the project. */
module GitlabPublisher {
  import opened Prelude
  import Text
  import opened Ledger
  import opened PublishProtocol

  // ---------------------------------------------------------------- action specs

  datatype ActionSpec = ActionSpec(
    action: Option<string>, filePath: Option<string>, encoding: Option<string>,
    content: Option<string>, artifactUri: Option<string>, executeFilemode: Option<bool>)

  datatype CommitAction = CommitAction(
    action: string, filePath: string, content: string, encoding: Option<string>, executeFilemode: Option<bool>)

  /** A JSON artifact as far as it can be a manifest. */
  datatype Document = Manifest(actions: seq<ActionSpec>) | BadManifest | NoManifest

  /** What the artifact store can read: text, base64 of bytes, JSON. Reading anything else raises. */
  datatype ArtifactStore = ArtifactStore(texts: map<string, string>, encoded: map<string, string>,
                                         documents: map<string, Document>)

  datatype BuildError = MissingPath | MissingContent(path: string) | Unreadable(uri: string) | ActionsNotAList

  datatype Build<+T> = Built(value: T) | Raises(error: BuildError)

  function EncodingOf(spec: ActionSpec): string {
    if spec.encoding.Some? then spec.encoding.value else "text"
  }

  function Lookup(m: map<string, string>, uri: string): Option<string> {
    if uri in m then Some(m[uri]) else None
  }

  /** The inline content, or what the store holds under the artifact's URI in the form the encoding asks for. */
  function ContentOf(store: ArtifactStore, spec: ActionSpec): Option<string> {
    if spec.content.Some? then spec.content
    else if spec.artifactUri.None? || spec.artifactUri.value == "" then None
    else Lookup(if EncodingOf(spec) == "base64" then store.encoded else store.texts, spec.artifactUri.value)
  }

  predicate HasPath(spec: ActionSpec) {
    spec.filePath.Some? && spec.filePath.value != ""
  }

  predicate Resolvable(store: ArtifactStore, spec: ActionSpec) {
    HasPath(spec) && ContentOf(store, spec).Some?
  }

  function ErrorOf(spec: ActionSpec): BuildError {
    if !HasPath(spec) then MissingPath
    else if spec.artifactUri.Some? && spec.artifactUri.value != "" then Unreadable(spec.artifactUri.value)
    else MissingContent(spec.filePath.value)
  }

  function ActionOf(store: ArtifactStore, spec: ActionSpec): CommitAction
    requires Resolvable(store, spec)
  {
    CommitAction(
      if spec.action.Some? then spec.action.value else "create",
      spec.filePath.value,
      ContentOf(store, spec).value,
      if EncodingOf(spec) == "text" then None else Some(EncodingOf(spec)),
      spec.executeFilemode)
  }

  function Resolve(store: ArtifactStore, specs: seq<ActionSpec>): Build<seq<CommitAction>> {
    if specs == [] then Built([])
    else
      var n := |specs| - 1;
      var before := Resolve(store, specs[..n]);
      if before.Raises? then before
      else if !Resolvable(store, specs[n]) then Raises(ErrorOf(specs[n]))
      else Built(before.value + [ActionOf(store, specs[n])])
  }

  lemma ResolveNext(store: ArtifactStore, specs: seq<ActionSpec>, k: nat)
    requires k < |specs| && Resolve(store, specs[..k]).Built?
    ensures Resolve(store, specs[..k + 1])
            == if Resolvable(store, specs[k]) then Built(Resolve(store, specs[..k]).value + [ActionOf(store, specs[k])])
               else Raises(ErrorOf(specs[k]))
  {
    assert specs[..k + 1][..k] == specs[..k];
  }

  lemma {:induction false} RaisedStays(store: ArtifactStore, specs: seq<ActionSpec>, k: nat)
    requires k <= |specs| && Resolve(store, specs[..k]).Raises?
    ensures Resolve(store, specs) == Resolve(store, specs[..k])
  {
    if k < |specs| {
      var n := |specs| - 1;
      assert specs[..n][..k] == specs[..k];
      RaisedStays(store, specs[..n], k);
    } else {
      assert specs[..k] == specs;
    }
  }

  /** `_resolve_commit_actions`. */
  method ResolveCommitActions(store: ArtifactStore, specs: seq<ActionSpec>) returns (r: Build<seq<CommitAction>>)
    ensures r == Resolve(store, specs)
  {
    var actions: seq<CommitAction> := [];
    for k := 0 to |specs|
      invariant Resolve(store, specs[..k]) == Built(actions)
    {
      ResolveNext(store, specs, k);
      if !Resolvable(store, specs[k]) { RaisedStays(store, specs, k + 1); }
      var spec := specs[k];
      if spec.filePath.None? || spec.filePath.value == "" {
        return Raises(MissingPath);
      }
      var encoding := EncodingOf(spec);
      var content := spec.content;
      if content.None? && spec.artifactUri.Some? && spec.artifactUri.value != "" {
        content := Lookup(if encoding == "base64" then store.encoded else store.texts, spec.artifactUri.value);
        if content.None? {
          return Raises(Unreadable(spec.artifactUri.value));
        }
      }
      if content.None? {
        return Raises(MissingContent(spec.filePath.value));
      }
      var action := if spec.action.Some? then spec.action.value else "create";
      var payload := CommitAction(action, spec.filePath.value, content.value, None, None);
      if encoding != "text" {
        payload := payload.(encoding := Some(encoding));
      }
      if spec.executeFilemode.Some? {
        payload := payload.(executeFilemode := spec.executeFilemode);
      }
      actions := actions + [payload];
    }
    assert specs[..|specs|] == specs;
    r := Built(actions);
  }

  /** The action a spec stands for: its own path, content, action and mode, where a missing action means "create",
      content that is not given is read in the form of the encoding, and the encoding is passed on unless it is
      "text". */
  predicate Answers(store: ArtifactStore, spec: ActionSpec, a: CommitAction) {
    && a.filePath != "" && Some(a.filePath) == spec.filePath
    && a.action == (match spec.action case None => "create" case Some(name) => name)
    && (match spec.content
        case Some(text) => a.content == text
        case None =>
          spec.artifactUri.Some? && spec.artifactUri.value != ""
          && var held := if spec.encoding == Some("base64") then store.encoded else store.texts;
             spec.artifactUri.value in held && a.content == held[spec.artifactUri.value])
    && a.encoding == (if spec.encoding == Some("text") then None else spec.encoding)
    && a.executeFilemode == spec.executeFilemode
  }

  /** The spec has a path, and content of its own or an artifact that can be read in the form of the encoding. */
  predicate Supplied(store: ArtifactStore, spec: ActionSpec) {
    && spec.filePath.Some? && spec.filePath.value != ""
    && (spec.content.None? ==>
          spec.artifactUri.Some? && spec.artifactUri.value != ""
          && spec.artifactUri.value in if spec.encoding == Some("base64") then store.encoded else store.texts)
  }

  /** Why it is not: the path first, then an artifact that cannot be read, then no content at all. */
  predicate Lacks(store: ArtifactStore, spec: ActionSpec, error: BuildError) {
    match error
    case MissingPath => spec.filePath.None? || spec.filePath.value == ""
    case Unreadable(uri) =>
      && spec.filePath.Some? && spec.filePath.value != "" && spec.content.None?
      && spec.artifactUri == Some(uri) && uri != ""
      && uri !in if spec.encoding == Some("base64") then store.encoded else store.texts
    case MissingContent(path) =>
      && path != "" && spec.filePath == Some(path) && spec.content.None?
      && (spec.artifactUri.None? || spec.artifactUri.value == "")
    case ActionsNotAList => false
  }

  lemma ResolvableMeans(store: ArtifactStore, spec: ActionSpec)
    ensures Resolvable(store, spec) <==> Supplied(store, spec)
    ensures !Resolvable(store, spec) ==> Lacks(store, spec, ErrorOf(spec))
  {
  }

  lemma ActionAnswers(store: ArtifactStore, spec: ActionSpec)
    requires Resolvable(store, spec)
    ensures Answers(store, spec, ActionOf(store, spec))
  {
  }

  /** Resolution gives one action for each spec, in order. */
  lemma {:induction false} ResolutionAnswers(store: ArtifactStore, specs: seq<ActionSpec>)
    requires Resolve(store, specs).Built?
    ensures |Resolve(store, specs).value| == |specs|
    ensures forall i :: 0 <= i < |specs| ==>
                Supplied(store, specs[i]) && Answers(store, specs[i], Resolve(store, specs).value[i])
  {
    if specs != [] {
      var n := |specs| - 1;
      ResolutionAnswers(store, specs[..n]);
      ResolvableMeans(store, specs[n]);
      ActionAnswers(store, specs[n]);
      forall i | 0 <= i < |specs|
        ensures Supplied(store, specs[i]) && Answers(store, specs[i], Resolve(store, specs).value[i])
      {
        if i < n { assert specs[..n][i] == specs[i]; }
      }
    }
  }

  /** It fails at the first spec without a path or readable content, with that spec's error. */
  lemma {:induction false} ResolutionRaises(store: ArtifactStore, specs: seq<ActionSpec>) returns (k: nat)
    requires Resolve(store, specs).Raises?
    ensures k < |specs| && !Supplied(store, specs[k]) && Lacks(store, specs[k], Resolve(store, specs).error)
    ensures Resolve(store, specs[..k]).Built?
  {
    var n := |specs| - 1;
    if Resolve(store, specs[..n]).Raises? {
      k := ResolutionRaises(store, specs[..n]);
      assert specs[..n][..k] == specs[..k];
    } else {
      k := n;
      ResolvableMeans(store, specs[n]);
    }
  }

  /** Resolution succeeds exactly when every spec has a path and readable content. */
  lemma {:induction false} ResolutionExact(store: ArtifactStore, specs: seq<ActionSpec>)
    ensures Resolve(store, specs).Built? <==> forall i :: 0 <= i < |specs| ==> Supplied(store, specs[i])
    ensures Resolve(store, specs) == Built([]) <==> specs == []
  {
    if Resolve(store, specs).Built? {
      ResolutionAnswers(store, specs);
    } else {
      var k := ResolutionRaises(store, specs);
    }
  }

  // ---------------------------------------------------------------- where the actions come from

  datatype Publication = Publication(
    target: Target, projectId: string, branch: string, base: string,
    commitActions: seq<ActionSpec>, files: seq<ActionSpec>, artifactUris: seq<string>, targetDirectory: string)

  predicate IsJson(uri: string) {
    var n := |uri| - |".json"|;
    n >= 0 && Text.Lower(uri)[n..] == ".json"
  }

  function FirstJson(uris: seq<string>): Option<string> {
    if uris == [] then None else if IsJson(uris[0]) then Some(uris[0]) else FirstJson(uris[1..])
  }

  /** `_actions_from_artifact_manifest`: `None` when there is no manifest. */
  function FromManifest(store: ArtifactStore, uris: seq<string>): Build<Option<seq<CommitAction>>> {
    var uri := FirstJson(uris);
    if uri.None? then Built(None)
    else if uri.value !in store.documents then Raises(Unreadable(uri.value))
    else
      match store.documents[uri.value]
      case NoManifest => Built(None)
      case BadManifest => Raises(ActionsNotAList)
      case Manifest(specs) =>
        var r := Resolve(store, specs);
        if r.Raises? then Raises(r.error) else Built(Some(r.value))
  }

  /** The name ends in ".json", whatever the case. */
  predicate JsonName(uri: string) {
    var n := |uri| - 5;
    n >= 0 && uri[n] == '.' && uri[n + 1] in {'j', 'J'} && uri[n + 2] in {'s', 'S'} && uri[n + 3] in {'o', 'O'}
    && uri[n + 4] in {'n', 'N'}
  }

  lemma IsJsonMeans(uri: string)
    ensures IsJson(uri) <==> JsonName(uri)
  {
    var n := |uri| - 5;
    if n >= 0 {
      var t := Text.Lower(uri)[n..];
      assert forall i :: 0 <= i < 5 ==> t[i] == Text.LowerChar(uri[n + i]);
      assert t == ".json" <==> t[0] == '.' && t[1] == 'j' && t[2] == 's' && t[3] == 'o' && t[4] == 'n';
    }
  }

  /** The first artifact with such a name is the manifest. */
  ghost predicate ManifestAt(uris: seq<string>, k: int) {
    0 <= k < |uris| && JsonName(uris[k]) && forall i :: 0 <= i < k ==> !JsonName(uris[i])
  }

  lemma {:induction false} FirstJsonExact(uris: seq<string>)
    ensures FirstJson(uris).None? <==> forall i :: 0 <= i < |uris| ==> !JsonName(uris[i])
    ensures forall k :: ManifestAt(uris, k) ==> FirstJson(uris) == Some(uris[k])
  {
    if uris != [] {
      IsJsonMeans(uris[0]);
      FirstJsonExact(uris[1..]);
      assert forall i :: 0 < i < |uris| ==> uris[i] == uris[1..][i - 1];
      forall k | ManifestAt(uris, k) && k > 0 ensures ManifestAt(uris[1..], k - 1) {
        assert !JsonName(uris[0]);
      }
    }
  }

  /** What the actions are when the request names neither actions nor files: those of the manifest or, without one, the
      default ones. */
  ghost predicate Derived(store: ArtifactStore, directory: string, uris: seq<string>, r: Build<seq<CommitAction>>) {
    && ((forall i :: 0 <= i < |uris| ==> !JsonName(uris[i])) ==> DefaultOutcome(store, directory, uris, r))
    && forall k :: ManifestAt(uris, k) ==>
         if uris[k] !in store.documents then r == Raises(Unreadable(uris[k]))
         else
           match store.documents[uris[k]]
           case NoManifest => DefaultOutcome(store, directory, uris, r)
           case BadManifest => r == Raises(ActionsNotAList)
           case Manifest(specs) => r == Resolve(store, specs)
  }

  lemma DerivedFrom(store: ArtifactStore, directory: string, uris: seq<string>, r: Build<seq<CommitAction>>)
    requires match FromManifest(store, uris)
             case Raises(error) => r == Raises(error)
             case Built(Some(actions)) => r == Built(actions)
             case Built(None) => DefaultOutcome(store, directory, uris, r)
    ensures Derived(store, directory, uris, r)
  {
    FirstJsonExact(uris);
  }

  /** `.strip("/")`. */
  function StripSlashes(s: string): string {
    if s != "" && s[0] == '/' then StripSlashes(s[1..])
    else if s != "" && s[|s| - 1] == '/' then StripSlashes(s[..|s| - 1])
    else s
  }

  function LastPart(s: string, part: string, last: string): string {
    var next := if part == "" || part == "." then last else part;
    if s == "" then next
    else if s[0] == '/' then LastPart(s[1..], "", next)
    else LastPart(s[1..], part + [s[0]], last)
  }

  /** `PurePosixPath(uri).name`: the last component, where empty and `.` components do not count. */
  function FileName(uri: string): string {
    LastPart(uri, "", "")
  }

  function DefaultPath(directory: string, uri: string): string {
    StripSlashes(directory) + "/" + FileName(uri)
  }

  /** One new file for each artifact, in order, or the first artifact that cannot be read. */
  ghost predicate DefaultOutcome(store: ArtifactStore, directory: string, uris: seq<string>,
                                 r: Build<seq<CommitAction>>) {
    match r
    case Built(actions) =>
      && |actions| == |uris|
      && forall i :: 0 <= i < |uris| ==>
           && uris[i] in store.texts
           && actions[i] == CommitAction("create", DefaultPath(directory, uris[i]), store.texts[uris[i]], None, None)
    case Raises(error) =>
      exists k :: 0 <= k < |uris| && uris[k] !in store.texts && error == Unreadable(uris[k])
                  && forall i :: 0 <= i < k ==> uris[i] in store.texts
  }

  /** The loop over the artifacts, which reads every one as text. */
  method DefaultActions(store: ArtifactStore, directory: string, uris: seq<string>)
    returns (r: Build<seq<CommitAction>>)
    ensures DefaultOutcome(store, directory, uris, r)
  {
    var actions: seq<CommitAction> := [];
    for k := 0 to |uris|
      invariant |actions| == k && forall i :: 0 <= i < k ==> uris[i] in store.texts
      invariant forall i :: 0 <= i < k ==>
                  actions[i]
                  == CommitAction("create", DefaultPath(directory, uris[i]), store.texts[uris[i]], None, None)
    {
      if uris[k] !in store.texts {
        return Raises(Unreadable(uris[k]));
      }
      actions := actions + [CommitAction("create", DefaultPath(directory, uris[k]), store.texts[uris[k]], None, None)];
    }
    r := Built(actions);
  }

  /** `_build_commit_actions`: explicit actions, else files, else a manifest among the artifacts, else one new file
      for each artifact. The commit is empty only without artifacts or for a manifest that lists no actions. */
  method BuildCommitActions(store: ArtifactStore, p: Publication) returns (r: Build<seq<CommitAction>>)
    ensures p.commitActions != [] ==> r == Resolve(store, p.commitActions)
    ensures p.commitActions == [] && p.files != [] ==> r == Resolve(store, p.files)
    ensures p.commitActions == [] && p.files == [] ==>
              match FromManifest(store, p.artifactUris)
              case Raises(error) => r == Raises(error)
              case Built(Some(actions)) => r == Built(actions)
              case Built(None) => DefaultOutcome(store, p.targetDirectory, p.artifactUris, r)
    ensures p.commitActions == [] && p.files == [] ==> Derived(store, p.targetDirectory, p.artifactUris, r)
    ensures r == Built([]) <==>
              p.commitActions == [] && p.files == []
              && (p.artifactUris == [] || FromManifest(store, p.artifactUris) == Built(Some([])))
  {
    if p.commitActions != [] {
      r := ResolveCommitActions(store, p.commitActions);
      ResolutionExact(store, p.commitActions);
      return;
    }
    if p.files != [] {
      r := ResolveCommitActions(store, p.files);
      ResolutionExact(store, p.files);
      return;
    }
    var derived := FromManifest(store, p.artifactUris);
    if derived.Raises? {
      r := Raises(derived.error);
    } else if derived.value.Some? {
      r := Built(derived.value.value);
    } else {
      r := DefaultActions(store, p.targetDirectory, p.artifactUris);
    }
    DerivedFrom(store, p.targetDirectory, p.artifactUris, r);
  }

  predicate Slashes(s: string) {
    forall i :: 0 <= i < |s| ==> s[i] == '/'
  }

  /** Stripping takes the slashes off both ends and nothing else. */
  lemma {:induction false} SlashesStripped(s: string) returns (a: string, b: string)
    ensures s == a + StripSlashes(s) + b && Slashes(a) && Slashes(b)
    ensures StripSlashes(s) != "" ==> StripSlashes(s)[0] != '/' && StripSlashes(s)[|StripSlashes(s)| - 1] != '/'
  {
    a, b := "", "";
    if s != "" && s[0] == '/' {
      a, b := SlashesStripped(s[1..]);
      a := "/" + a;
    } else if s != "" && s[|s| - 1] == '/' {
      a, b := SlashesStripped(s[..|s| - 1]);
      b := b + "/";
    }
  }

  lemma {:induction false} LastPartWhole(s: string, part: string, last: string)
    requires '/' !in s
    ensures LastPart(s, part, last) == if part + s == "" || part + s == "." then last else part + s
  {
    if s == "" {
      assert part + s == part;
    } else {
      LastPartWhole(s[1..], part + [s[0]], last);
      assert part + [s[0]] + s[1..] == part + s;
    }
  }

  lemma {:induction false} LastPartAfter(s: string, t: string, part: string, last: string)
    ensures LastPart(s + "/" + t, part, last) == LastPart(t, "", LastPart(s, part, last))
  {
    var next := if part == "" || part == "." then last else part;
    if s == "" {
      assert s + "/" + t == "/" + t && ("/" + t)[1..] == t;
    } else {
      assert (s + "/" + t)[1..] == s[1..] + "/" + t;
      if s[0] == '/' {
        LastPartAfter(s[1..], t, "", next);
      } else {
        LastPartAfter(s[1..], t, part + [s[0]], last);
      }
    }
  }

  /** The file name of a path: its last component, or that of the path before it when that is empty or a single dot. */
  lemma FileNameMeans(path: string, part: string)
    requires '/' !in part
    ensures FileName(path + "/" + part) == if part == "" || part == "." then FileName(path) else part
    ensures FileName(part) == if part == "." then "" else part
  {
    LastPartAfter(path, part, "", "");
    LastPartWhole(part, "", FileName(path));
    LastPartWhole(part, "", "");
    assert "" + part == part;
  }

  lemma {:induction false} LastPartPlain(s: string, part: string, last: string)
    requires '/' !in part && '/' !in last && last != "."
    ensures '/' !in LastPart(s, part, last) && LastPart(s, part, last) != "."
  {
    var next := if part == "" || part == "." then last else part;
    if s != "" {
      if s[0] == '/' {
        LastPartPlain(s[1..], "", next);
      } else {
        LastPartPlain(s[1..], part + [s[0]], last);
      }
    }
  }

  /** A file directly in a directory. */
  ghost predicate DirectlyIn(directory: string, path: string) {
    exists name :: path == directory + "/" + name && '/' !in name && name !in {"", ".", ".."}
  }

  /** Two default files collide exactly when the artifacts' file names do, and a default file lands directly in the
      target directory exactly when its file name is neither empty nor "..". */
  lemma DefaultPathsCollide(directory: string, a: string, b: string)
    ensures DefaultPath(directory, a) == DefaultPath(directory, b) <==> FileName(a) == FileName(b)
    ensures DirectlyIn(StripSlashes(directory), DefaultPath(directory, a)) <==> FileName(a) != "" && FileName(a) != ".."
  {
    LastPartPlain(a, "", "");
    var prefix := StripSlashes(directory) + "/";
    assert DefaultPath(directory, a)[|prefix|..] == FileName(a);
    assert DefaultPath(directory, b)[|prefix|..] == FileName(b);
    forall name | DefaultPath(directory, a) == StripSlashes(directory) + "/" + name ensures name == FileName(a) {
      assert (StripSlashes(directory) + "/" + name)[|prefix|..] == name;
    }
  }

  lemma {:induction false} LastPartUp(s: string, part: string, last: string)
    ensures LastPart(s + "/..", part, last) == ".."
  {
    if s == "" {
      var next := if part == "" || part == "." then last else part;
      var t := "/..";
      assert s + t == t && t[1..] == ".." && ".."[1..] == "." && "."[1..] == "";
      assert "" + ['.'] == "." && "." + ['.'] == "..";
      assert LastPart("", "..", next) == "..";
      assert LastPart(".", ".", next) == "..";
      assert LastPart("..", "", next) == "..";
    } else {
      var next := if part == "" || part == "." then last else part;
      assert (s + "/..")[1..] == s[1..] + "/..";
      if s[0] == '/' {
        LastPartUp(s[1..], "", next);
      } else {
        LastPartUp(s[1..], part + [s[0]], last);
      }
    }
  }

  /** Such artifacts exist under every prefix: the default file of one that ends in "/.." is the directory above. */
  lemma DefaultPathLeaves(directory: string, uri: string)
    ensures DefaultPath(directory, uri + "/..") == StripSlashes(directory) + "/.."
    ensures !DirectlyIn(StripSlashes(directory), DefaultPath(directory, uri + "/.."))
  {
    LastPartUp(uri, "", "");
    DefaultPathsCollide(directory, uri + "/..", "");
    assert StripSlashes(directory) + "/" + ".." == StripSlashes(directory) + "/..";
  }

  // ---------------------------------------------------------------- the project

  datatype Commit = Commit(message: string, actions: seq<CommitAction>)

  datatype MergeRequest = MergeRequest(iid: int, sourceBranch: string, targetBranch: string)

  /** How the remote calls end: looking up the branch, creating it, committing, opening a merge request. A call that
      raises after it took effect has lost its response. */
  datatype Remote = Remote(lookUp: bool, create: Fault, commit: Fault, open: Fault)

  datatype Outcome = Landed(result: PublishResult) | Aborted

  type Branches = map<string, seq<Commit>>

  /** The branches once the server has seen the creation call. */
  function Prepared(branches: Branches, branch: string, base: string, create: Fault): Branches {
    if branch in branches || base !in branches || create.RaisedBefore? then branches
    else branches[branch := branches[base]]
  }

  /** `_ensure_branch` returns: the branch was found, or the creation call was answered by success or by a refusal
      because the branch exists. */
  predicate Ready(branches: Branches, branch: string, base: string, remote: Remote) {
    (remote.lookUp && branch in branches) || (remote.create.NoFault? && (branch in branches || base in branches))
  }

  /** The result of `publish`; `quoted` is the percent-encoded branch name. */
  function ResultFor(p: Publication, quoted: string, iid: nat): PublishResult {
    SuccessResult(p.target, p.projectId, iid, "gitlab://" + p.projectId + "/branches/" + quoted,
                  "gitlab://" + p.projectId + "/merge_requests/" + Decimal(iid))
  }

  /** The result names the project and the branch and, for a merge request, its number. */
  predicate Describes(p: Publication, quoted: string, iid: nat, result: PublishResult) {
    var branch := PublishedArtifact(BranchRef, "gitlab://" + p.projectId + "/branches/" + quoted);
    if p.target.GitlabMr? then
      && Payload(result.refs) == map[GitlabProjectId := RefValue.Text(p.projectId), GitlabMrIid := Number(iid)]
      && |result.artifacts| == 2 && result.artifacts[0] == branch
      && result.artifacts[1].kind == MrRef
      && var start := "gitlab://" + p.projectId + "/merge_requests/";
         start <= result.artifacts[1].uri && NumberOf(result.artifacts[1].uri[|start|..]) == iid
    else
      && Payload(result.refs) == map[GitlabProjectId := RefValue.Text(p.projectId)]
      && result.artifacts == [branch]
  }

  lemma ResultDescribes(p: Publication, quoted: string, iid: nat)
    requires p.target.GitlabMr? || p.target.GitlabBranch?
    ensures Describes(p, quoted, iid, ResultFor(p, quoted, iid))
  {
    SuccessPayload(p.target, p.projectId, iid);
    DecimalReads(iid);
    var start := "gitlab://" + p.projectId + "/merge_requests/";
    assert (start + Decimal(iid))[|start|..] == Decimal(iid);
  }

  /** A GitLab project: the commits of each branch, and the merge requests, the last with the highest number. */
  class Project {
    var branches: Branches
    var mergeRequests: seq<MergeRequest>

    constructor (branches: Branches)
      ensures this.branches == branches && mergeRequests == []
    {
      this.branches, mergeRequests := branches, [];
    }

    /** `_ensure_branch`: a failing look-up counts as a missing branch, and a refusal to create an existing
        branch counts as success. */
    method EnsureBranch(branch: string, base: string, remote: Remote) returns (ok: bool)
      modifies this`branches
      ensures ok == Ready(old(branches), branch, base, remote)
      ensures branches == Prepared(old(branches), branch, base, remote.create)
      ensures ok ==> branch in branches
      ensures ok <==> if branch in old(branches) then remote.lookUp || remote.create.NoFault?
                      else base in old(branches) && remote.create.NoFault?
      ensures forall b :: b in branches <==>
                            b in old(branches) || (b == branch && base in old(branches) && !remote.create.RaisedBefore?)
      ensures forall b :: b in old(branches) ==> branches[b] == old(branches)[b]
      ensures branch in branches && branch !in old(branches) ==> branches[branch] == old(branches)[base]
    {
      if remote.lookUp && branch in branches {
        return true;
      }
      if remote.create.RaisedBefore? {
        return false;
      }
      if branch in branches {
        return remote.create.NoFault?;
      }
      if base !in branches {
        return false;
      }
      branches := branches[branch := branches[base]];
      ok := remote.create.NoFault?;
    }

    /** `_publish_sync` and the result of `publish`. Nothing is rolled back: what took effect before a call raised, or
        lost its response, stays. */
    method Publish(p: Publication, commit: Commit, quoted: string, remote: Remote) returns (r: Outcome)
      requires p.projectId != "" && (p.target.GitlabMr? || p.target.GitlabBranch?)
      modifies this
      ensures var ready := Ready(old(branches), p.branch, p.base, remote);
              var prepared := Prepared(old(branches), p.branch, p.base, remote.create);
              && branches == (if ready && !remote.commit.RaisedBefore?
                              then prepared[p.branch := prepared[p.branch] + [commit]]
                              else prepared)
              && (r.Landed? <==> ready && remote.commit.NoFault? && (p.target.GitlabMr? ==> remote.open.NoFault?))
              && mergeRequests == old(mergeRequests)
                 + if ready && remote.commit.NoFault? && p.target.GitlabMr? && !remote.open.RaisedBefore?
                   then [MergeRequest(old(|mergeRequests|) + 1, p.branch, p.base)] else []
      ensures r.Landed? ==> Contract(p.target, r.result) && r.result == ResultFor(p, quoted, |mergeRequests|)
      ensures r.Landed? ==> Describes(p, quoted, |mergeRequests|, r.result)
    {
      var ready := EnsureBranch(p.branch, p.base, remote);
      assert branches == Prepared(old(branches), p.branch, p.base, remote.create);
      if !ready || remote.commit.RaisedBefore? {
        return Aborted;
      }
      branches := branches[p.branch := branches[p.branch] + [commit]];
      if remote.commit.RaisedAfter? {
        return Aborted;
      }
      if p.target.GitlabMr? {
        if remote.open.RaisedBefore? {
          return Aborted;
        }
        mergeRequests := mergeRequests + [MergeRequest(|mergeRequests| + 1, p.branch, p.base)];
        if remote.open.RaisedAfter? {
          return Aborted;
        }
      }
      r := Landed(ResultFor(p, quoted, |mergeRequests|));
      ResultDescribes(p, quoted, |mergeRequests|);
      PublishersMeetContract(p.target, p.projectId, |mergeRequests|, "gitlab://" + p.projectId + "/branches/" + quoted,
                             "gitlab://" + p.projectId + "/merge_requests/" + Decimal(|mergeRequests|));
    }
  }
}
