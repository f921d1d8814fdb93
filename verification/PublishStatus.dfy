/** What the status of a work item says about its handlers and its ledger row. */
module PublishStatus {
  import opened Prelude
  import opened PublishProtocol

  // ---------------------------------------------------------------- the last write decides

  /** The status an action commits, if it commits one. */
  function Writes(a: Action): Option<Status> {
    match a
    case WriteSkipped => Some(Complete)
    case WriteSkippedRaises(committed) => if committed then Some(Complete) else None
    case WritePublishing => Some(Publishing)
    case WritePublishingRaises(committed) => if committed then Some(Publishing) else None
    case WriteComplete => Some(Complete)
    case WriteCompleteRaises(committed, _) => if committed then Some(Complete) else None
    case WriteFailed => Some(Failed)
    case WriteFailedRaises(committed) => if committed then Some(Failed) else None
    case _ => None
  }

  /** Step `i` commits a status of the work item. */
  ghost predicate WritesTo(ss: seq<State>, steps: seq<Step>, i: nat, w: string)
    requires Execution(ss, steps)
  {
    i < |steps| && steps[i].h in ss[i].handlers && ss[i].handlers[steps[i].h].req.workItem == w
    && Writes(steps[i].action).Some?
  }

  /** `i` is the last step before state `k` that commits a status of the work item, or -1 when none does. */
  ghost predicate LastWrite(ss: seq<State>, steps: seq<Step>, k: nat, w: string, i: int)
    requires Execution(ss, steps) && k < |ss|
  {
    && -1 <= i < k && (i >= 0 ==> WritesTo(ss, steps, i, w))
    && forall j: nat :: i < j < k ==> !WritesTo(ss, steps, j, w)
  }

  lemma {:induction false} LastWriteExists(ss: seq<State>, steps: seq<Step>, k: nat, w: string) returns (i: int)
    requires Execution(ss, steps) && k < |ss|
    ensures LastWrite(ss, steps, k, w, i)
  {
    if k == 0 {
      i := -1;
    } else if WritesTo(ss, steps, k - 1, w) {
      i := k - 1;
    } else {
      i := LastWriteExists(ss, steps, k - 1, w);
    }
  }

  lemma StepStatus(s: State, st: Step, s': State, w: string)
    requires Next(s, st, s')
    ensures w in s.db.status <==> w in s'.db.status
    ensures w in s.db.status ==>
              s'.db.status[w] == if st.h in s.handlers && s.handlers[st.h].req.workItem == w && Writes(st.action).Some?
                                 then Writes(st.action).value else s.db.status[w]
  {
  }

  lemma StatusNext(ss: seq<State>, steps: seq<Step>, k: nat, w: string)
    requires Execution(ss, steps) && k < |steps|
    ensures w in ss[k].db.status <==> w in ss[k + 1].db.status
    ensures w in ss[k].db.status ==>
              ss[k + 1].db.status[w] == if WritesTo(ss, steps, k, w) then Writes(steps[k].action).value
                                        else ss[k].db.status[w]
  {
    StepStatus(ss[k], steps[k], ss[k + 1], w);
  }

  lemma {:induction false} SameWorkItems(ss: seq<State>, steps: seq<Step>, k: nat, w: string)
    requires Execution(ss, steps) && k < |ss|
    ensures w in ss[k].db.status <==> w in ss[0].db.status
  {
    if k > 0 {
      SameWorkItems(ss, steps, k - 1, w);
      StatusNext(ss, steps, k - 1, w);
    }
  }

  lemma {:induction false} StatusUnwritten(ss: seq<State>, steps: seq<Step>, j: nat, k: nat, w: string)
    requires Execution(ss, steps) && j <= k < |ss| && w in ss[0].db.status
    requires forall m: nat :: j <= m < k ==> !WritesTo(ss, steps, m, w)
    ensures w in ss[j].db.status && w in ss[k].db.status && ss[k].db.status[w] == ss[j].db.status[w]
  {
    SameWorkItems(ss, steps, j, w);
    if j < k {
      StatusUnwritten(ss, steps, j, k - 1, w);
      StatusNext(ss, steps, k - 1, w);
    }
  }

  /** A status is what the last write committed, or what the service found. */
  lemma StatusIsLastWrite(ss: seq<State>, steps: seq<Step>, k: nat, w: string, i: int)
    requires Execution(ss, steps) && k < |ss| && w in ss[k].db.status && LastWrite(ss, steps, k, w, i)
    ensures w in ss[0].db.status
    ensures ss[k].db.status[w] == if i >= 0 then Writes(steps[i].action).value else ss[0].db.status[w]
  {
    SameWorkItems(ss, steps, k, w);
    StatusUnwritten(ss, steps, i + 1, k, w);
    if i >= 0 {
      SameWorkItems(ss, steps, i, w);
      StatusNext(ss, steps, i, w);
    }
  }

  // ---------------------------------------------------------------- complete means recorded

  /** What a handler relies on when it is about to write "complete". */
  predicate Backed(s: State, h: nat) {
    h in s.handlers && (s.handlers[h].pc.Skipping? || s.handlers[h].pc.Recording? || s.handlers[h].pc.Finishing?) ==>
      Present(s.db, s.handlers[h].req.workItem, s.handlers[h].req.target)
  }

  ghost predicate CompleteBacked(s: State, w: string) {
    w in s.db.status && s.db.status[w].Complete? ==> exists t :: Present(s.db, w, t)
  }

  lemma StepBacked(s: State, st: Step, s': State, h: nat)
    requires Next(s, st, s') && CarriesContract(s) && Backed(s, h)
    ensures Backed(s', h)
  {
    if h in s'.handlers {
      var w, t := s'.handlers[h].req.workItem, s'.handlers[h].req.target;
      if st.h == h && st.action.CommitUpsert? {
        CommitMakesPresent(s, st, s');
      } else if h in s.handlers && Present(s.db, w, t) {
        StepKeepsPresent(s, st, s', w, t);
      }
    }
  }

  lemma StepCompleteBacked(s: State, st: Step, s': State, w: string)
    requires Next(s, st, s') && CarriesContract(s) && Backed(s, st.h) && CompleteBacked(s, w)
    ensures CompleteBacked(s', w)
  {
    if w in s'.db.status && s'.db.status[w].Complete? {
      var t :| Present(s.db, w, t);
      StepKeepsPresent(s, st, s', w, t);
    }
  }

  /** Every step keeps: "complete" has a ref in the ledger, and so has every handler about to write it. */
  lemma {:induction false} StatusInvariant(ss: seq<State>, steps: seq<Step>, k: nat, w: string)
    requires Execution(ss, steps) && Started(ss[0]) && Settled(ss[0].db) && k < |ss|
    ensures CompleteBacked(ss[k], w) && forall h :: Backed(ss[k], h)
  {
    if k > 0 {
      var s, st, s' := ss[k - 1], steps[k - 1], ss[k];
      StatusInvariant(ss, steps, k - 1, w);
      ContractThroughout(ss, steps, k - 1);
      StepCompleteBacked(s, st, s', w);
      forall h ensures Backed(s', h) {
        StepBacked(s, st, s', h);
      }
    }
  }

  // ---------------------------------------------------------------- publishing means owned or stranded

  /** Between the handler's "publishing" write and its terminal write. */
  predicate Between(pc: Pc) {
    pc.Calling? || pc.Upserting? || pc.Recording? || pc.Finishing? || pc.Failing?
  }

  predicate Owns(s: State, h: nat, w: string) {
    h in s.handlers && s.handlers[h].req.workItem == w && Between(s.handlers[h].pc)
  }

  /** The two exceptions that end a handler between its writes: the "publishing" write raises after it committed, or
      the "failed" write raises before it does. */
  predicate Strands(a: Action) {
    a == WritePublishingRaises(true) || a == WriteFailedRaises(false)
  }

  /** The claim of step `i` was stranded before state `k`. */
  ghost predicate StrandedClaim(steps: seq<Step>, i: int, k: nat)
    requires k <= |steps|
  {
    && 0 <= i < k && Writes(steps[i].action) == Some(Publishing)
    && exists j :: i <= j < k && steps[j].h == steps[i].h && Strands(steps[j].action)
  }

  /** Until the next status write, a claimant is on its way or its claim is stranded. */
  lemma {:induction false} ClaimantAfter(ss: seq<State>, steps: seq<Step>, i: nat, k: nat, w: string)
    requires Execution(ss, steps) && i < k < |ss| && LastWrite(ss, steps, k, w, i)
    requires Writes(steps[i].action) == Some(Publishing)
    ensures steps[i].h in ss[k].handlers && ss[k].handlers[steps[i].h].req.workItem == w
    ensures Owns(ss[k], steps[i].h, w)
            || (ss[k].handlers[steps[i].h].pc == Done(ServerError) && StrandedClaim(steps, i, k))
  {
    var h := steps[i].h;
    assert Next(ss[k - 1], steps[k - 1], ss[k]);
    if k == i + 1 {
      assert steps[i].h == h;
    } else {
      ClaimantAfter(ss, steps, i, k - 1, w);
      assert !WritesTo(ss, steps, k - 1, w);
      ClaimantStep(ss[k - 1], steps[k - 1], ss[k], h, w);
      if !Owns(ss[k - 1], h, w) {
        var j :| i <= j < k - 1 && steps[j].h == h && Strands(steps[j].action);
      }
    }
  }

  lemma ClaimantStep(s: State, st: Step, s': State, h: nat, w: string)
    requires Next(s, st, s') && h in s.handlers && s.handlers[h].req.workItem == w
    requires st.h == h ==> Writes(st.action).None?
    requires Owns(s, h, w) || s.handlers[h].pc == Done(ServerError)
    ensures h in s'.handlers && s'.handlers[h].req.workItem == w
    ensures s.handlers[h].pc == Done(ServerError) ==> s'.handlers[h].pc == Done(ServerError)
    ensures Owns(s, h, w) ==>
                Owns(s', h, w) || (s'.handlers[h].pc == Done(ServerError) && st.h == h && Strands(st.action))
  {
  }

  predicate Quiet(s: State, w: string) {
    forall h :: h in s.handlers ==> !InFlight(s, h, w)
  }

  /** Exactly what a status means, in every interleaved run, where `i` is its last write: "publishing" means that
      write was a claim, whose handler is still on its way unless it was stranded; "complete" means some target is in
      the ledger. Once no handler of the work item is in flight, it is "publishing" if and only if its last
      write was a stranded claim; otherwise, if any handler wrote its status, it is "complete" or "failed". */
  lemma StatusExact(ss: seq<State>, steps: seq<Step>, k: nat, w: string, i: int)
    requires Execution(ss, steps) && Started(ss[0]) && Settled(ss[0].db) && k < |ss|
    requires w in ss[k].db.status && LastWrite(ss, steps, k, w, i)
    ensures ss[k].db.status[w].Publishing? <==> i >= 0 && Writes(steps[i].action) == Some(Publishing)
    ensures ss[k].db.status[w].Publishing? ==> Owns(ss[k], steps[i].h, w) || StrandedClaim(steps, i, k)
    ensures ss[k].db.status[w].Complete? ==> exists t :: Present(ss[k].db, w, t)
    ensures Quiet(ss[k], w) ==> (ss[k].db.status[w].Publishing? <==> StrandedClaim(steps, i, k))
    ensures Quiet(ss[k], w) && i >= 0 && !StrandedClaim(steps, i, k) ==>
                ss[k].db.status[w].Complete? || ss[k].db.status[w].Failed?
  {
    StatusIsLastWrite(ss, steps, k, w, i);
    StatusInvariant(ss, steps, k, w);
    if i >= 0 && Writes(steps[i].action) == Some(Publishing) {
      ClaimantAfter(ss, steps, i, k, w);
    }
  }

  /** Status safety in runs that strand no claim: "publishing" means some handler is still between its two writes, and
      a quiet work item that some handler wrote is "complete" or "failed". */
  lemma StatusSafety(ss: seq<State>, steps: seq<Step>, k: nat, w: string)
    requires Execution(ss, steps) && Started(ss[0]) && Settled(ss[0].db) && k < |ss| && w in ss[k].db.status
    requires forall j :: 0 <= j < k ==> !Strands(steps[j].action)
    ensures ss[k].db.status[w].Publishing? ==> exists h :: Owns(ss[k], h, w)
    ensures ss[k].db.status[w].Complete? ==> exists t :: Present(ss[k].db, w, t)
    ensures Quiet(ss[k], w) ==> !ss[k].db.status[w].Publishing?
    ensures Quiet(ss[k], w) && (exists i: nat :: i < k && WritesTo(ss, steps, i, w)) ==>
              ss[k].db.status[w].Complete? || ss[k].db.status[w].Failed?
  {
    var i := LastWriteExists(ss, steps, k, w);
    StatusExact(ss, steps, k, w, i);
    if ss[k].db.status[w].Publishing? {
      assert Owns(ss[k], steps[i].h, w);
    }
  }
}
