/**
  The two-phase rename-and-move (executeRenameAndMove) and the rename-only
  variant (executeRename): the rename plan, the destination detection with
  three attempts and its manual fallback, the per-item renames, and the
  single batch move. Replies, page snapshots and the operator's answers are
  inputs.
 */
module Orchestrator {
  import opened Text
  import opened Naming
  import opened Transport
  import opened Extractors
  import opened Resolver
  import Scanner

  // ---------------------------------------------------------------------
  // The rename plan.

  /** One entry of the rename list: the file, its old and its new name. */
  datatype PlanItem = PlanItem(fid: string, originalName: string, newName: string)

  /** The sequence `f(0), f(1), …, f(n - 1)`, built front to back. */
  function Tabulate<T>(f: nat --> T, n: nat): (s: seq<T>)
    requires forall k :: 0 <= k < n ==> f.requires(k)
    ensures |s| == n
  {
    if n == 0 then [] else Tabulate(f, n - 1) + [f(n - 1)]
  }

  /** Element `k` of a tabulated sequence is `f(k)`. */
  lemma {:induction false} TabulateAt<T>(f: nat --> T, n: nat)
    requires forall k :: 0 <= k < n ==> f.requires(k)
    ensures forall k :: 0 <= k < n ==> Tabulate(f, n)[k] == f(k)
  {
    if n > 0 {
      TabulateAt(f, n - 1);
    }
  }

  /** Item `i` of the rename list: the video and its name with ordinal `i + 1`. */
  function Numbered(videos: seq<Scanner.Video>): nat --> PlanItem {
    (i: nat) requires i < |videos| =>
      PlanItem(videos[i].fid, videos[i].fileName, GenerateStandardFileName(videos[i].fileName, i + 1))
  }

  /** The rename list built from the scanned videos (renameList). */
  function RenamePlan(videos: seq<Scanner.Video>): (plan: seq<PlanItem>)
    ensures |plan| == |videos|
  {
    Tabulate(Numbered(videos), |videos|)
  }

  /** Item `i` of the plan is video `i` under its standard name with
      ordinal `i + 1`. */
  lemma PlanItemNumbered(videos: seq<Scanner.Video>, i: nat)
    requires i < |videos|
    ensures RenamePlan(videos)[i].fid == videos[i].fid
    ensures RenamePlan(videos)[i].originalName == videos[i].fileName
    ensures RenamePlan(videos)[i].newName == GenerateStandardFileName(videos[i].fileName, i + 1)
    ensures LeadingOrdinal(RenamePlan(videos)[i].newName) == Some(i + 1)
  {
    TabulateAt(Numbered(videos), |videos|);
    var name := GenerateStandardFileName(videos[i].fileName, i + 1);
    assert RenamePlan(videos)[i] == PlanItem(videos[i].fid, videos[i].fileName, name);
    LeadingOrdinalOfGenerated(videos[i].fileName, i + 1);
  }

  /** The plan numbers the files 1, 2, … in scan order, keeps each file's
      id and old name, gives each the standard name for its ordinal, and
      gives no two files the same new name. */
  lemma RenamePlanSpec(videos: seq<Scanner.Video>)
    ensures forall i :: 0 <= i < |videos| ==>
      && RenamePlan(videos)[i].fid == videos[i].fid
      && RenamePlan(videos)[i].originalName == videos[i].fileName
      && RenamePlan(videos)[i].newName == GenerateStandardFileName(videos[i].fileName, i + 1)
      && LeadingOrdinal(RenamePlan(videos)[i].newName) == Some(i + 1)
    ensures forall i, j :: 0 <= i < j < |videos| ==>
      RenamePlan(videos)[i].newName != RenamePlan(videos)[j].newName
  {
    var plan := RenamePlan(videos);
    forall i | 0 <= i < |videos|
      ensures plan[i].fid == videos[i].fid && plan[i].originalName == videos[i].fileName
      ensures plan[i].newName == GenerateStandardFileName(videos[i].fileName, i + 1)
      ensures LeadingOrdinal(plan[i].newName) == Some(i + 1)
    {
      PlanItemNumbered(videos, i);
    }
    forall i, j | 0 <= i < j < |videos|
      ensures plan[i].newName != plan[j].newName
    {
      assert LeadingOrdinal(plan[i].newName) != LeadingOrdinal(plan[j].newName);
    }
  }

  // ---------------------------------------------------------------------
  // Destination detection.

  /** What one detection attempt sees: the clock and the page. */
  datatype Attempt = Attempt(now: int, snap: Snapshot)

  ghost predicate Decodable(attempts: seq<Attempt>) {
    forall i :: 0 <= i < |attempts| ==> ShrinksWhenChanging(attempts[i].snap.decode)
  }

  /** `currentDirId && currentDirId !== '0'` */
  predicate IsDetected(r: Resolution) {
    r.Resolved? && r.id != [] && r.id != "0"
  }

  /** The detection loop from attempt `k` on: the last resolution and the
      cache slot left behind. A hash that does not decode ends the loop with
      the exception. */
  function Detect(slot: Slot, attempts: seq<Attempt>, k: nat): (Resolution, Slot)
    requires k <= |attempts| && Decodable(attempts)
    decreases |attempts| - k
  {
    if k == |attempts| then (Unresolved, slot)
    else
      var step := ResolveStep(slot, attempts[k].now, attempts[k].snap);
      if step.0.HashUndecodable? || IsDetected(step.0) then step
      else Detect(step.1, attempts, k + 1)
  }

  /** The first attempt from the `k`-th on whose page yields an id or an
      exception, read without any cache. */
  function FirstLookup(attempts: seq<Attempt>, k: nat): (r: Resolution)
    requires k <= |attempts| && Decodable(attempts)
    decreases |attempts| - k
    ensures r.Resolved? ==> r.source != Cache && |r.id| > 5
  {
    if k == |attempts| then Unresolved
    else if !Cascade(attempts[k].snap).Unresolved? then Cascade(attempts[k].snap)
    else FirstLookup(attempts, k + 1)
  }

  /** Because the cache is emptied first and a failed attempt writes
      nothing, every attempt reads the page afresh: detection yields the
      first attempt's page that names a directory (or throws), and the cache
      ends up holding exactly the id it found, unless that was a title
      guess. */
  lemma {:induction false} DetectFromEmpty(attempts: seq<Attempt>, k: nat)
    requires k <= |attempts| && Decodable(attempts)
    decreases |attempts| - k
    ensures Detect(EmptySlot, attempts, k).0 == FirstLookup(attempts, k)
    ensures Detect(EmptySlot, attempts, k).1 ==
      if IsCachedResult(FirstLookup(attempts, k)) then Slot(Some(FirstLookup(attempts, k).id), AttemptTime(attempts, k))
      else EmptySlot
  {
    if k < |attempts| {
      ClearedSlotMisses(attempts[k].now, attempts[k].snap);
      if Cascade(attempts[k].snap).Unresolved? {
        DetectFromEmpty(attempts, k + 1);
        assert AttemptTime(attempts, k) == AttemptTime(attempts, k + 1);
      }
    }
  }

  /** The clock of the attempt that ended the detection from `k` on. */
  function AttemptTime(attempts: seq<Attempt>, k: nat): int
    requires k <= |attempts| && Decodable(attempts)
    decreases |attempts| - k
  {
    if k == |attempts| then 0
    else if !Cascade(attempts[k].snap).Unresolved? then attempts[k].now
    else AttemptTime(attempts, k + 1)
  }

  /** The operator's answers when detection fails: `confirm` (true chooses
      rename only) and the `prompt` text (`None` when cancelled). */
  datatype Operator = Operator(renameOnly: bool, manualInput: Option<string>)

  /** The manual fallback: the trimmed input, accepted when longer than
      five characters whatever characters it holds. */
  function ManualDestination(op: Operator): (d: Option<string>)
    ensures d.Some? <==> !op.renameOnly && op.manualInput.Some? && |Trim(op.manualInput.value)| > 5
    ensures d.Some? ==> d.value == Trim(op.manualInput.value) && d.value[0] !in " \t\n"
  {
    if !op.renameOnly && op.manualInput.Some? && op.manualInput.value != []
       && |Trim(op.manualInput.value)| > 5
    then Some(Trim(op.manualInput.value))
    else None
  }

  /** The move target once detection has run. */
  function Destination(detected: Resolution, op: Operator): (d: Option<string>)
    ensures d.Some? ==> d.value != [] && d.value != "0"
    ensures IsDetected(detected) ==> d == Some(detected.id)
    ensures !IsDetected(detected) ==> d == ManualDestination(op)
  {
    if IsDetected(detected) then Some(detected.id) else ManualDestination(op)
  }

  // ---------------------------------------------------------------------
  // The rename phase.

  /** The items of `plan[..n]` whose rename was accepted, in plan order;
      `replies(i)` answers the rename of item `i`. */
  function Succeeded(plan: seq<PlanItem>, replies: nat -> Reply, n: nat): seq<PlanItem>
    requires n <= |plan|
  {
    if n == 0 then []
    else Succeeded(plan, replies, n - 1) + if WriteAccepted(replies(n - 1)) then [plan[n - 1]] else []
  }

  /** Each step of the rename loop adds one to the success count exactly
      when the reply accepts the rename. */
  lemma SucceededCount(plan: seq<PlanItem>, replies: nat -> Reply, n: nat)
    requires n < |plan|
    ensures |Succeeded(plan, replies, n + 1)|
         == |Succeeded(plan, replies, n)| + if WriteAccepted(replies(n)) then 1 else 0
  {
  }

  /** The positions below `n` whose rename was accepted, ascending. */
  function AcceptedIndices(replies: nat -> Reply, n: nat): (idx: seq<nat>)
    ensures forall k :: 0 <= k < |idx| ==> idx[k] < n && WriteAccepted(replies(idx[k]))
    ensures forall k, m :: 0 <= k < m < |idx| ==> idx[k] < idx[m]
    ensures forall i :: 0 <= i < n && WriteAccepted(replies(i)) ==> i in idx
    ensures |idx| <= n
  {
    if n == 0 then []
    else AcceptedIndices(replies, n - 1) + if WriteAccepted(replies(n - 1)) then [n - 1] else []
  }

  /** `renamedFiles` is the subsequence of the plan at exactly the accepted
      positions, in plan order. */
  lemma {:induction false} SucceededAtAcceptedIndices(plan: seq<PlanItem>, replies: nat -> Reply, n: nat)
    requires n <= |plan|
    ensures |Succeeded(plan, replies, n)| == |AcceptedIndices(replies, n)|
    ensures forall k :: 0 <= k < |AcceptedIndices(replies, n)| ==>
      AcceptedIndices(replies, n)[k] < |plan| && Succeeded(plan, replies, n)[k] == plan[AcceptedIndices(replies, n)[k]]
  {
    if n > 0 {
      SucceededAtAcceptedIndices(plan, replies, n - 1);
    }
  }

  /** The rename loop of executeRenameAndMove: each item's failure is
      counted and the loop goes on. */
  method RenamePhase(plan: seq<PlanItem>, replies: nat -> Reply)
    returns (renameSuccess: nat, renameFail: nat, renamed: seq<PlanItem>)
    ensures renamed == Succeeded(plan, replies, |plan|)
    ensures renameSuccess == |renamed| && renameSuccess + renameFail == |plan|
  {
    renameSuccess, renameFail, renamed := 0, 0, [];
    var i := 0;
    while i < |plan|
      invariant i <= |plan|
      invariant renamed == Succeeded(plan, replies, i)
      invariant renameSuccess == |renamed| && renameSuccess + renameFail == i
    {
      if WriteAccepted(replies(i)) {
        renameSuccess := renameSuccess + 1;
        renamed := renamed + [plan[i]];
      } else {
        renameFail := renameFail + 1;
      }
      i := i + 1;
    }
  }

  // ---------------------------------------------------------------------
  // The move phase.

  /** The one batch move request: the files and the target directory. */
  datatype MoveCall = MoveCall(fids: seq<string>, target: string)

  function Fids(items: seq<PlanItem>): (fids: seq<string>)
    ensures |fids| == |items| && forall k :: 0 <= k < |items| ==> fids[k] == items[k].fid
  {
    seq(|items|, k requires 0 <= k < |items| => items[k].fid)
  }

  /** The move step: one request for all renamed files when there are any
      and a target exists; it succeeds or fails as a whole. */
  method MovePhase(renamed: seq<PlanItem>, destination: Option<string>, reply: Reply)
    returns (moveSuccess: nat, moveFail: nat, call: Option<MoveCall>)
    ensures call.Some? <==> |renamed| > 0 && destination.Some? && destination.value != []
    ensures call.Some? ==> call.value == MoveCall(Fids(renamed), destination.value)
    ensures call.Some? && WriteAccepted(reply) ==> moveSuccess == |renamed| && moveFail == 0
    ensures call.Some? && !WriteAccepted(reply) ==> moveFail == |renamed| && moveSuccess == 0
    ensures call.None? ==> moveSuccess == 0 && moveFail == 0
  {
    moveSuccess, moveFail, call := 0, 0, None;
    if |renamed| > 0 && destination.Some? && destination.value != [] {
      call := Some(MoveCall(Fids(renamed), destination.value));
      if WriteAccepted(reply) {
        moveSuccess := |renamed|;
      } else {
        moveFail := |renamed|;
      }
    }
  }

  /** Two of three renames accepted, the middle one refused: the move
      request carries exactly the first and the third file. */
  lemma TwoOfThreeRenamed(plan: seq<PlanItem>, replies: nat -> Reply)
    requires |plan| == 3
    requires WriteAccepted(replies(0)) && !WriteAccepted(replies(1)) && WriteAccepted(replies(2))
    ensures Succeeded(plan, replies, 3) == [plan[0], plan[2]]
    ensures Fids(Succeeded(plan, replies, 3)) == [plan[0].fid, plan[2].fid]
  {
    assert Succeeded(plan, replies, 1) == [plan[0]];
    assert Succeeded(plan, replies, 2) == [plan[0]];
  }

  // ---------------------------------------------------------------------
  // executeRenameAndMove

  datatype Stats = Stats(renameSuccess: nat, renameFail: nat, moveSuccess: nat, moveFail: nat)

  /** How a run ended: with its counters, the target, the renamed items and
      the move request, or with the detection's uncaught exception before
      any file was touched. */
  datatype RunOutcome =
    | Finished(stats: Stats, destination: Option<string>, renamed: seq<PlanItem>, move: Option<MoveCall>)
    | ThrewBeforeRenaming

  /** The detection loop: the cache is emptied, then up to three attempts. */
  method DetectDestination(resolver: DirectoryResolver, attempts: seq<Attempt>) returns (r: Resolution)
    requires Decodable(attempts)
    modifies resolver
    ensures (r, resolver.State()) == Detect(EmptySlot, attempts, 0)
    ensures resolver.lastUrl == old(resolver.lastUrl)
  {
    resolver.Clear();
    var k := 0;
    while k < |attempts|
      invariant k <= |attempts|
      invariant Detect(resolver.State(), attempts, k) == Detect(EmptySlot, attempts, 0)
      invariant resolver.lastUrl == old(resolver.lastUrl)
    {
      ghost var before := resolver.State();
      r := resolver.Resolve(attempts[k].now, attempts[k].snap);
      if r.HashUndecodable? || IsDetected(r) {
        assert Detect(before, attempts, k) == (r, resolver.State());
        return;
      }
      assert Detect(before, attempts, k) == Detect(resolver.State(), attempts, k + 1);
      k := k + 1;
    }
    r := Unresolved;
  }

  /** executeRenameAndMove(renameList) */
  method ExecuteRenameAndMove(resolver: DirectoryResolver, plan: seq<PlanItem>, attempts: seq<Attempt>,
                              op: Operator, renameReplies: nat -> Reply, moveReply: Reply)
    returns (out: RunOutcome)
    requires |attempts| == 3 && Decodable(attempts)
    modifies resolver
    ensures resolver.State() == Detect(EmptySlot, attempts, 0).1
    ensures resolver.lastUrl == old(resolver.lastUrl)
    ensures out.ThrewBeforeRenaming? <==> Detect(EmptySlot, attempts, 0).0.HashUndecodable?
    ensures out.Finished? ==> out.destination == Destination(Detect(EmptySlot, attempts, 0).0, op)
    ensures out.Finished? ==> out.renamed == Succeeded(plan, renameReplies, |plan|)
    ensures out.Finished? ==>
      out.stats.renameSuccess == |out.renamed| && out.stats.renameSuccess + out.stats.renameFail == |plan|
    ensures out.Finished? ==>
      out.move == if |out.renamed| > 0 && out.destination.Some?
                  then Some(MoveCall(Fids(out.renamed), out.destination.value)) else None
    ensures out.Finished? && out.move.Some? ==>
      (WriteAccepted(moveReply) <==> out.stats.moveSuccess == |out.renamed| && out.stats.moveFail == 0)
    ensures out.Finished? && out.move.Some? ==>
      (!WriteAccepted(moveReply) <==> out.stats.moveFail == |out.renamed| && out.stats.moveSuccess == 0)
    ensures out.Finished? && out.move.None? ==> out.stats.moveSuccess == 0 && out.stats.moveFail == 0
  {
    var detected := DetectDestination(resolver, attempts);
    if detected.HashUndecodable? {
      return ThrewBeforeRenaming;
    }
    var destination := if IsDetected(detected) then Some(detected.id) else ManualDestination(op);
    var renameSuccess, renameFail, renamed := RenamePhase(plan, renameReplies);
    var moveSuccess, moveFail, call := MovePhase(renamed, destination, moveReply);
    out := Finished(Stats(renameSuccess, renameFail, moveSuccess, moveFail), destination, renamed, call);
  }

  // ---------------------------------------------------------------------
  // executeRename

  /** executeRename(videos): renames every video with its plan name, in
      scan order, and counts the outcomes. `sent` lists the requests. */
  method ExecuteRename(videos: seq<Scanner.Video>, replies: nat -> Reply)
    returns (successCount: nat, failCount: nat, sent: seq<PlanItem>)
    ensures sent == RenamePlan(videos)
    ensures successCount + failCount == |videos|
    ensures successCount == |Succeeded(RenamePlan(videos), replies, |videos|)|
  {
    ghost var plan := RenamePlan(videos);
    successCount, failCount, sent := 0, 0, [];
    var i := 0;
    while i < |videos|
      invariant i <= |videos|
      invariant sent == Tabulate(Numbered(videos), i)
      invariant successCount == |Succeeded(plan, replies, i)|
      invariant successCount + failCount == i
    {
      var item := PlanItem(videos[i].fid, videos[i].fileName, GenerateStandardFileName(videos[i].fileName, i + 1));
      sent := sent + [item];
      SucceededCount(plan, replies, i);
      if WriteAccepted(replies(i)) {
        successCount := successCount + 1;
      } else {
        failCount := failCount + 1;
      }
      i := i + 1;
    }
  }
}
