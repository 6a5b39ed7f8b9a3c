/** AudioSplitter: copies one stream to several branches, each of which may take it at its own
    pace, be disabled and re-enabled, and acknowledge a flush in its own time
    (src/async/audio/AsyncAudioSplitter.cpp).

    A branch method that calls back into the splitter is a method of the splitter here. */
module Splitter {
  import opened AudioPipe
  import opened Tally

  class Branch {
    var currentBufPos: nat
    var isFlushed: bool
    var isEnabled: bool
    var isStopped: bool
    var isFlushing: bool

    // History: everything the branch has consumed, whether it was delivered to its sink or
    // discarded while disabled; what its sink has received; and where in the stream it joined.
    ghost var consumed: seq<Sample>
    ghost var delivered: seq<Sample>
    ghost const joinedAt: nat
    // How many writes its sink has taken nothing of.
    ghost var refusals: nat

    // Every sample since the branch joined was delivered.
    ghost predicate Lossless()
      reads `consumed, `delivered
    {
      joinedAt <= |consumed| && delivered == consumed[joinedAt..]
    }

    constructor (ghost history: seq<Sample>)
      ensures currentBufPos == 0 && isFlushed && isEnabled && !isStopped && !isFlushing
      ensures consumed == history && joinedAt == |history| && delivered == []
    {
      joinedAt := |history|;
      currentBufPos := 0;
      isFlushed, isEnabled := true, true;
      isStopped, isFlushing := false, false;
      consumed, delivered := history, [];
    }

    // Everything but whether the branch is enabled.
    ghost function State(): (nat, bool, bool, bool, seq<Sample>, seq<Sample>)
      reads this
    {
      (currentBufPos, isFlushed, isStopped, isFlushing, consumed, delivered)
    }

    // The branch's own sink: it takes any prefix.
    method SinkWrite(samples: seq<Sample>) returns (n: nat)
      requires 0 < |samples|
      modifies this`delivered, this`refusals
      ensures n <= |samples| && delivered == old(delivered) + samples[..n]
      ensures refusals == old(refusals) + if n == 0 then 1 else 0
    {
      n :| 0 <= n <= |samples|;
      delivered := delivered + samples[..n];
      refusals := refusals + if n == 0 then 1 else 0;
    }

    /** A disabled branch swallows everything; a stopped one takes nothing. */
    method SinkWriteSamples(samples: seq<Sample>) returns (n: nat)
      requires 0 < |samples| && (isStopped ==> isEnabled)
      modifies this
      ensures isEnabled == old(isEnabled) && !isFlushed && !isFlushing
      ensures n <= |samples| && currentBufPos == old(currentBufPos) + n
      ensures isStopped <==> n == 0
      ensures isStopped ==> isEnabled
      ensures old(isStopped) ==> n == 0
      // A branch is stopped by its sink only.
      ensures refusals == old(refusals) + if isStopped && !old(isStopped) then 1 else 0
      ensures consumed == old(consumed) + samples[..n]
      ensures delivered == old(delivered) + if isEnabled then samples[..n] else []
      ensures !isEnabled ==> n == |samples|
      ensures isEnabled && old(Lossless()) ==> Lossless()
    {
      isFlushed := false;
      isFlushing := false;
      if isEnabled {
        if isStopped {
          return 0;
        }
        n := SinkWrite(samples);
        isStopped := n == 0;
      } else {
        n := |samples|;
      }
      currentBufPos := currentBufPos + n;
      consumed := consumed + samples[..n];
    }
  }

  ghost function FlagsOf(bs: seq<Branch>): (s: seq<bool>)
    reads bs`isFlushing
    ensures |s| == |bs| && forall i :: 0 <= i < |bs| ==> s[i] == bs[i].isFlushing
  {
    if bs == [] then [] else FlagsOf(bs[..|bs| - 1]) + [bs[|bs| - 1].isFlushing]
  }

  class AudioSplitter {
    var branches: seq<Branch>
    var buf: array<Sample>
    var bufLen: nat
    var doFlush: bool
    var inputStopped: bool
    var flushedBranches: nat

    // History: the accepted stream; the flushes asked for, acknowledged, and given up because of
    // new samples; and the resumes sent to the source.
    ghost var accepted: seq<Sample>
    ghost var everDisabled: set<Branch>
    ghost var requests: nat
    ghost var acks: nat
    ghost var cancels: nat
    ghost var resumes: nat

    ghost function Enabled(): set<Branch>
      reads `branches, branches`isEnabled
    {
      set b | b in branches && b.isEnabled
    }

    ghost function Others(b: Branch): set<Branch>
      reads `branches
    {
      set c | c in branches && c != b
    }

    ghost predicate Distinct()
      reads `branches
    {
      forall i, j :: 0 <= i < j < |branches| ==> branches[i] != branches[j]
    }

    // What a branch still has to get from the buffer.
    ghost function Pending(b: Branch): seq<Sample>
      reads `buf, `bufLen, buf, b`currentBufPos
      requires bufLen <= buf.Length
    {
      if b.currentBufPos <= bufLen then buf[b.currentBufPos..bufLen] else []
    }

    // Stream fidelity of one branch: what it consumed and what is pending make up the input.
    ghost predicate Streams(b: Branch)
      reads `buf, `bufLen, `accepted, buf, b`currentBufPos, b`consumed
    {
      && bufLen <= buf.Length
      && (bufLen > 0 ==> b.currentBufPos <= bufLen)
      && accepted == b.consumed + Pending(b)
    }

    // A branch that was never disabled has had everything delivered.
    ghost predicate Follows(b: Branch)
      reads `buf, `bufLen, `accepted, buf, b`currentBufPos, b`consumed, b`delivered, b`isEnabled, `everDisabled
    {
      Streams(b) && (b !in everDisabled ==> b.isEnabled && b.Lossless())
    }

    ghost predicate StreamOK()
      reads `branches, `buf, `bufLen, `accepted, buf, branches`currentBufPos, branches`consumed
      reads branches`delivered, branches`isEnabled, `everDisabled
      ensures StreamOK() ==> Distinct()
    {
      Distinct() && bufLen <= buf.Length && forall i :: 0 <= i < |branches| ==> Follows(branches[i])
    }

    // A branch is stopped only while it has pending samples that its sink refused.
    ghost predicate StopsOK()
      reads `branches, `bufLen, branches`isStopped, branches`isEnabled, branches`currentBufPos
    {
      forall i :: 0 <= i < |branches| && branches[i].isStopped ==>
        branches[i].isEnabled && branches[i].currentBufPos < bufLen
    }

    // Whatever a branch still has to get was refused by its sink.
    ghost predicate Offered()
      reads `branches, `bufLen, branches`isStopped, branches`currentBufPos
    {
      forall i :: 0 <= i < |branches| && branches[i].currentBufPos < bufLen ==> branches[i].isStopped
    }

    // Between calls, a branch with pending samples is stopped or has joined in the middle of this
    // block, and the buffer is held by a stopped one.
    ghost predicate AtRest()
      reads `branches, `bufLen, branches`isStopped, branches`currentBufPos
    {
      && (forall i :: 0 <= i < |branches| && 0 < branches[i].currentBufPos < bufLen ==> branches[i].isStopped)
      && (bufLen > 0 ==> exists i :: 0 <= i < |branches| && branches[i].isStopped)
    }

    // The buffer holds the newest block of the stream.
    ghost predicate BlockOK()
      reads `buf, `bufLen, `accepted, buf
    {
      bufLen <= buf.Length && bufLen <= |accepted| && accepted[|accepted| - bufLen..] == buf[..bufLen]
    }

    ghost function FlushFlags(): (s: seq<bool>)
      reads `branches, branches`isFlushing
      ensures |s| == |branches| && forall i :: 0 <= i < |branches| ==> s[i] == branches[i].isFlushing
    {
      FlagsOf(branches)
    }

    ghost function Flushing(): nat
      reads `branches, branches`isFlushing
    {
      CountTrue(FlushFlags())
    }

    // While branches are flushing, every other branch has been counted.
    ghost predicate FlushOK()
      reads `branches, `bufLen, `doFlush, `flushedBranches, branches`isFlushing, branches`isEnabled
    {
      && (forall i :: 0 <= i < |branches| && branches[i].isFlushing ==> branches[i].isEnabled)
      && (bufLen > 0 ==> Flushing() == 0)
      && (Flushing() > 0 ==> flushedBranches + Flushing() == |branches|)
      && (doFlush && bufLen > 0 ==> flushedBranches == 0 && 0 < |branches|)
      && (doFlush && bufLen == 0 ==> Flushing() > 0)
    }

    // A flush has been asked for and neither acknowledged nor given up.
    ghost predicate Outstanding()
      reads `branches, `doFlush, branches`isFlushing
    {
      doFlush || Flushing() > 0
    }

    ghost predicate LedgerOK()
      reads `branches, `doFlush, branches`isFlushing, `requests, `acks, `cancels
    {
      requests == acks + cancels + if Outstanding() then 1 else 0
    }

    ghost predicate Valid()
      reads this, buf, branches
      ensures Valid() ==> bufLen <= buf.Length
    {
      && StreamOK() && StopsOK() && AtRest() && BlockOK() && FlushOK() && LedgerOK()
      && (inputStopped ==> bufLen > 0)
    }

    constructor ()
      ensures Valid() && fresh(buf) && fresh(branches) && |branches| == 1
      ensures accepted == [] && bufLen == 0 && !doFlush && !inputStopped
      ensures requests == 0 && acks == 0 && cancels == 0 && resumes == 0
      ensures Flushing() == 0 && branches[0].joinedAt == 0
    {
      hide *;
      var main := new Branch([]);
      branches := [main];
      buf := new Sample[0];
      bufLen := 0;
      doFlush, inputStopped, flushedBranches := false, false, 0;
      accepted, everDisabled, requests, acks, cancels, resumes := [], {}, 0, 0, 0, 0;
      new;
      StartsValid();
    }

    lemma StartsValid()
      requires |branches| == 1 && branches[0].consumed == branches[0].delivered == accepted == []
      requires !branches[0].isStopped && branches[0].isEnabled && !branches[0].isFlushing
      requires branches[0].joinedAt == branches[0].currentBufPos == 0
      requires bufLen == 0 && !doFlush && !inputStopped && requests == acks + cancels
      ensures Valid() && Flushing() == 0
    {
      hide FlagsOf, CountTrue;
      CountZero(FlushFlags());
    }

    // A branch that joins now leaves the flush bookkeeping right: a flush that is asked for has
    // begun, and one that has begun is still asked for.
    predicate JoinsCleanly()
      reads `branches, `bufLen, `doFlush, branches`isFlushing
    {
      if doFlush then bufLen == 0 else forall i :: 0 <= i < |branches| ==> !branches[i].isFlushing
    }

    /** Adds a branch, which gets the stream from the block in the buffer on and joins a flush that
        is under way. When the flush is still waiting for the buffer, the branch flushes too early,
        and when it has been called off, the branch is missing from the count. */
    method AddSink()
      requires Valid()
      modifies this`branches, this`flushedBranches, this`doFlush, this`acks
      ensures Valid() <==> old(JoinsCleanly())
      ensures StreamOK() && StopsOK() && AtRest() && BlockOK() && LedgerOK()
      ensures |branches| == |old(branches)| + 1 && branches[..|old(branches)|] == old(branches)
      ensures fresh(branches[|old(branches)|])
      ensures branches[|old(branches)|].joinedAt == |accepted| - bufLen
      ensures acks == old(acks) && doFlush == old(doFlush)
      ensures !doFlush ==> Flushing() == old(Flushing())
      ensures old(!JoinsCleanly()) ==>
                if doFlush then flushedBranches == if branches[|old(branches)|].isFlushing then 0 else 1
                else flushedBranches + Flushing() == |branches| - 1
    {
      hide StreamOK, StopsOK, AtRest, FlushOK, Outstanding, Flushing, FlushFlags, FlagsOf, CountTrue;
      FlushingGuard();
      var branch := new Branch(accepted[..|accepted| - bufLen]);
      JoinStream(branch);
      if doFlush {
        JoinFlush(branch);
      }
    }

    lemma FlushingGuard()
      ensures Flushing() == 0 <==> forall i :: 0 <= i < |branches| ==> !branches[i].isFlushing
    {
      CountZero(FlushFlags());
    }

    method JoinStream(branch: Branch)
      requires StreamOK() && StopsOK() && AtRest() && BlockOK() && branch !in branches && branch !in everDisabled
      requires branch.currentBufPos == 0 && !branch.isStopped && branch.isEnabled && !branch.isFlushing
      requires branch.consumed == accepted[..|accepted| - bufLen]
      requires branch.joinedAt == |branch.consumed| && branch.delivered == []
      requires FlushOK() && LedgerOK()
      modifies this`branches
      ensures branches == old(branches) + [branch]
      ensures StreamOK() && StopsOK() && AtRest() && LedgerOK()
      ensures Flushing() == old(Flushing())
      ensures if doFlush then 1 < |branches| && FlushWithout(branch)
              else (FlushOK() <==> Flushing() == 0)
                   && (Flushing() > 0 ==> flushedBranches + Flushing() == |branches| - 1)
    {
      hide CountTrue, FlagsOf, Follows, BlockOK;
      PushFlag(branches, branch);
      FollowsFromHere(branch);
      ghost var i := if bufLen == 0 then 0 else var i :| 0 <= i < |branches| && branches[i].isStopped; i;
      branches := branches + [branch];
      assert bufLen > 0 ==> branches[i].isStopped;
    }

    lemma FollowsFromHere(b: Branch)
      requires BlockOK() && b.currentBufPos == 0 && b.isEnabled
      requires b.consumed == accepted[..|accepted| - bufLen] && b.joinedAt == |b.consumed| && b.delivered == []
      ensures Follows(b)
    {
      assert Pending(b) == accepted[|accepted| - bufLen..];
    }

    // A flush that takes no notice of the branch.
    ghost predicate FlushWithout(branch: Branch)
      reads `branches, `bufLen, `flushedBranches, branches`isFlushing, branches`isEnabled, branch`isFlushing
      reads branch`isEnabled
    {
      && !branch.isFlushing && branch.isEnabled
      && (forall i :: 0 <= i < |branches| && branches[i].isFlushing ==> branches[i].isEnabled)
      && if bufLen == 0 then 0 < Flushing() && flushedBranches + Flushing() == |branches| - 1
         else Flushing() == flushedBranches == 0
    }

    method JoinFlush(branch: Branch)
      requires 1 < |branches| && branches[|branches| - 1] == branch && branch !in branches[..|branches| - 1]
      requires doFlush && LedgerOK() && FlushWithout(branch)
      modifies branch`isFlushing, branch`isFlushed, this`flushedBranches, this`doFlush, this`acks
      ensures (FlushOK() <==> bufLen == 0) && LedgerOK() && doFlush && acks == old(acks)
      ensures flushedBranches == old(flushedBranches) + if branch.isFlushing then 0 else 1
    {
      hide CountTrue;
      ghost var others := branches[..|branches| - 1];
      PushFlag(others, branch);
      assert others + [branch] == branches;
      FlushBranch(branch);
      PushFlag(others, branch);
    }

    // The outcome of a branch's turn in writeFromBuffer. It is stopped by its sink only.
    ghost predicate Fed(b: Branch, pos: nat, wasStopped: bool, refusals: nat)
      reads `bufLen, b`isEnabled, b`isFlushing, b`currentBufPos, b`isStopped, b`refusals
    {
      && b.refusals == refusals + (if b.isStopped && !wasStopped then 1 else 0)
      && !b.isFlushing
      && pos <= b.currentBufPos <= bufLen
      && (b.currentBufPos < bufLen ==> b.isStopped || pos < b.currentBufPos)
      && (b.isStopped ==> b.isEnabled && b.currentBufPos < bufLen)
    }

    method Feed(b: Branch) returns (written: nat)
      requires Follows(b) && 0 < bufLen && !b.isFlushing
      requires b.isStopped ==> b.isEnabled && b.currentBufPos < bufLen
      modifies b
      ensures Follows(b) && Fed(b, old(b.currentBufPos), old(b.isStopped), old(b.refusals))
      ensures b.isEnabled == old(b.isEnabled)
      ensures b.currentBufPos == old(b.currentBufPos) + written
    {
      written := 0;
      if b.currentBufPos < bufLen {
        ghost var rest, had := buf[b.currentBufPos..bufLen], b.consumed;
        written := b.SinkWriteSamples(buf[b.currentBufPos..bufLen]);
        assert buf[b.currentBufPos..bufLen] == rest[written..];
        assert had + rest == (had + rest[..written]) + rest[written..];
      }
    }

    // One round over all branches.
    method FeedAll() returns (samplesWritten: bool, allWritten: bool)
      requires StreamOK() && StopsOK() && 0 < bufLen
      requires forall i :: 0 <= i < |branches| ==> !branches[i].isFlushing
      modifies branches
      ensures StreamOK()
      ensures Enabled() == old(Enabled())
      ensures forall i :: 0 <= i < |branches| ==>
                Fed(branches[i], old(branches[i].currentBufPos), old(branches[i].isStopped), old(branches[i].refusals))
      ensures allWritten <==> forall i :: 0 <= i < |branches| ==> branches[i].currentBufPos == bufLen
      ensures samplesWritten <==>
                exists i :: 0 <= i < |branches| && old(branches[i].currentBufPos) < branches[i].currentBufPos
    {
      hide Follows, Fed;
      samplesWritten := false;
      allWritten := true;
      for i := 0 to |branches|
        invariant forall j :: 0 <= j < |branches| ==> Follows(branches[j])
        invariant forall j :: i <= j < |branches| ==> unchanged(branches[j])
        invariant forall j :: 0 <= j < i ==> branches[j].isEnabled == old(branches[j].isEnabled)
        invariant forall j :: 0 <= j < i ==>
                    Fed(branches[j], old(branches[j].currentBufPos), old(branches[j].isStopped),
                        old(branches[j].refusals))
        invariant allWritten <==> forall j :: 0 <= j < i ==> branches[j].currentBufPos == bufLen
        invariant samplesWritten <==>
                    exists j :: 0 <= j < i && old(branches[j].currentBufPos) < branches[j].currentBufPos
      {
        var written := Feed(branches[i]);
        samplesWritten := samplesWritten || written > 0;
        allWritten := allWritten && branches[i].currentBufPos == bufLen;
      }
    }

    // branchAllSamplesFlushed: the last branch to finish completes the flush.
    method CountFlushed()
      modifies this`flushedBranches, this`doFlush, this`acks
      ensures flushedBranches == old(flushedBranches) + 1
      ensures flushedBranches == |branches| ==> !doFlush && acks == old(acks) + 1
      ensures flushedBranches != |branches| ==> doFlush == old(doFlush) && acks == old(acks)
    {
      flushedBranches := flushedBranches + 1;
      if flushedBranches == |branches| {
        doFlush := false;
        acks := acks + 1;
      }
    }

    // Branch::allSamplesFlushed, without regard to the other branches.
    method FinishFlush(b: Branch) returns (counts: bool)
      modifies b`isFlushing, b`isFlushed
      ensures !b.isFlushing && b.isFlushed && counts == (b.isEnabled && old(b.isFlushing))
    {
      var wasFlushing := b.isFlushing;
      b.isFlushing := false;
      b.isFlushed := true;
      counts := b.isEnabled && wasFlushing;
    }

    /** Branch::sinkFlushSamples. An enabled branch waits for its sink, which may also acknowledge
        at once; a disabled one is done. */
    method FlushBranch(b: Branch)
      modifies b`isFlushing, b`isFlushed, this`flushedBranches, this`doFlush, this`acks
      requires b.isFlushing ==> b.isEnabled
      ensures b.isFlushing ==> b.isEnabled
      ensures flushedBranches == old(flushedBranches) + if b.isFlushing then 0 else 1
      ensures acks == old(acks) + if !b.isFlushing && flushedBranches == |branches| then 1 else 0
      ensures doFlush == (old(doFlush) && !(!b.isFlushing && flushedBranches == |branches|))
    {
      if b.isEnabled {
        b.isFlushing := true;
        if * {
          var counts := FinishFlush(b);
          if counts {
            CountFlushed();
          }
        }
      } else {
        b.isFlushed := true;
        CountFlushed();
      }
    }

    // A branch counted before the round began makes the acknowledgement go out one branch early.
    method FlushAllBranches()
      requires Distinct() && doFlush && flushedBranches < |branches|
      requires forall i :: 0 <= i < |branches| && branches[i].isFlushing ==> branches[i].isEnabled
      modifies branches`isFlushing, branches`isFlushed, this`flushedBranches, this`doFlush, this`acks
      ensures forall i :: 0 <= i < |branches| && branches[i].isFlushing ==> branches[i].isEnabled
      ensures flushedBranches + Flushing() == |branches| + old(flushedBranches)
      ensures doFlush == (Flushing() > old(flushedBranches))
      ensures acks == old(acks) + if Flushing() > old(flushedBranches) then 0 else 1
    {
      hide FlagsOf, CountTrue;
      assert FlagsOf(branches[..0]) == [];
      EmptyCount();
      for i := 0 to |branches|
        invariant forall j :: 0 <= j < |branches| && branches[j].isFlushing ==> branches[j].isEnabled
        invariant flushedBranches + CountTrue(FlagsOf(branches[..i])) == i + old(flushedBranches)
        invariant doFlush == (flushedBranches < |branches|)
        invariant acks == old(acks) + if doFlush then 0 else 1
      {
        FlagsPush(branches, i);
        FlushBranch(branches[i]);
        FlagsPush(branches, i);
      }
      assert branches[..|branches|] == branches;
    }

    ghost function Remaining(): (s: seq<nat>)
      reads `branches, `bufLen, branches`currentBufPos
      ensures |s| == |branches|
      ensures forall i :: 0 <= i < |branches| ==> s[i] == Max(0, bufLen - branches[i].currentBufPos)
    {
      RemainingOf(branches, bufLen)
    }

    // A round over the branches leaves flushing alone: nothing is flushing while samples are pending.
    method FeedRound() returns (samplesWritten: bool, allWritten: bool)
      requires StreamOK() && StopsOK() && FlushOK() && LedgerOK() && 0 < bufLen
      modifies branches
      ensures StreamOK() && StopsOK() && FlushOK() && LedgerOK()
      ensures !samplesWritten && !allWritten ==> AtRest() && Offered()
      ensures allWritten <==> forall i :: 0 <= i < |branches| ==> branches[i].currentBufPos == bufLen
      ensures forall i :: 0 <= i < |branches| ==>
                old(branches[i].currentBufPos) <= branches[i].currentBufPos <= old(bufLen)
      ensures samplesWritten ==>
                exists i :: 0 <= i < |branches| && old(branches[i].currentBufPos) < branches[i].currentBufPos
      ensures Outstanding() == old(Outstanding())
      ensures Enabled() == old(Enabled())
    {
      hide FlagsOf, CountTrue, StreamOK;
      CountZero(FlushFlags());
      samplesWritten, allWritten := FeedAll();
      CountZero(FlushFlags());
    }

    // All branches have the whole buffer.
    method DropBuffer()
      requires StreamOK() && StopsOK() && 0 < bufLen
      requires forall i :: 0 <= i < |branches| ==> branches[i].currentBufPos == bufLen
      modifies this`bufLen
      ensures StreamOK() && StopsOK() && AtRest() && Offered() && bufLen == 0
    {
      bufLen := 0;
    }

    method BeginFlush()
      requires Distinct() && doFlush && flushedBranches == 0 && 0 < |branches| && bufLen == 0
      requires forall i :: 0 <= i < |branches| && branches[i].isFlushing ==> branches[i].isEnabled
      requires requests == acks + cancels + 1
      modifies branches`isFlushing, branches`isFlushed, this`flushedBranches, this`doFlush, this`acks
      ensures FlushOK() && LedgerOK()
      ensures doFlush == Outstanding()
      ensures acks == old(acks) + if Outstanding() then 0 else 1
    {
      hide FlagsOf, CountTrue, FlushFlags;
      FlushAllBranches();
    }

    method EmptyBuffer()
      requires StreamOK() && StopsOK() && FlushOK() && LedgerOK() && 0 < bufLen
      requires forall i :: 0 <= i < |branches| ==> branches[i].currentBufPos == bufLen
      modifies branches`isFlushing, branches`isFlushed, this`bufLen, this`flushedBranches, this`doFlush, this`acks
      ensures StreamOK() && StopsOK() && FlushOK() && LedgerOK() && AtRest() && Offered()
      ensures bufLen == 0
      ensures !old(Outstanding()) ==> !Outstanding() && acks == old(acks)
    {
      hide FlagsOf, CountTrue, FlushFlags, StreamOK, StopsOK, AtRest, Flushing;
      DropBuffer();
      if doFlush {
        BeginFlush();
      }
    }

    // One round of the loop of writeFromBuffer.
    method WriteRound() returns (samplesWritten: bool, allWritten: bool)
      requires StreamOK() && StopsOK() && FlushOK() && LedgerOK() && 0 < bufLen
      modifies branches
      modifies this`bufLen, this`flushedBranches, this`doFlush, this`acks
      ensures StreamOK() && StopsOK() && FlushOK() && LedgerOK()
      ensures bufLen == if allWritten then 0 else old(bufLen)
      ensures !samplesWritten || allWritten ==> AtRest() && Offered()
      ensures Sum(Remaining()) <= old(Sum(Remaining()))
      ensures samplesWritten ==> Sum(Remaining()) < old(Sum(Remaining()))
      ensures !old(Outstanding()) ==> !Outstanding() && acks == old(acks)
      ensures Enabled() == old(Enabled())
    {
      hide StreamOK, StopsOK, FlushOK, LedgerOK, AtRest, Offered, Outstanding, Sum, Remaining, Enabled;
      ghost var before := Remaining();
      samplesWritten, allWritten := FeedRound();
      if allWritten {
        EmptyBuffer();
      }
      SumDrops(before, Remaining());
    }

    /** Offers the buffered samples to the branches until all have them or none takes any more.
        A flush that was waiting for the buffer starts when it has run empty. */
    method WriteFromBuffer()
      requires StreamOK() && StopsOK() && FlushOK() && LedgerOK()
      modifies branches
      modifies this`bufLen, this`flushedBranches, this`doFlush, this`acks
      ensures StreamOK() && StopsOK() && FlushOK() && LedgerOK() && AtRest() && Offered()
      ensures bufLen == 0 || bufLen == old(bufLen)
      ensures old(bufLen) == 0 ==> unchanged(branches) && doFlush == old(doFlush) && acks == old(acks)
      ensures !old(Outstanding()) ==> !Outstanding() && acks == old(acks)
      ensures Enabled() == old(Enabled())
    {
      hide StreamOK, StopsOK, AtRest, Offered, FlushOK, LedgerOK, Outstanding, Sum, Remaining, Enabled;
      EmptyIsOffered();
      var samplesWritten := true;
      var allWritten := bufLen == 0;
      while samplesWritten && !allWritten
        invariant StreamOK() && StopsOK() && FlushOK() && LedgerOK()
        invariant Enabled() == old(Enabled())
        invariant bufLen == 0 || bufLen == old(bufLen)
        invariant allWritten <==> bufLen == 0
        invariant !samplesWritten || allWritten ==> AtRest() && Offered()
        invariant old(bufLen) == 0 ==> unchanged(branches) && doFlush == old(doFlush) && acks == old(acks)
        invariant !old(Outstanding()) ==> !Outstanding() && acks == old(acks)
        decreases Sum(Remaining()), samplesWritten
      {
        samplesWritten, allWritten := WriteRound();
      }
    }

    lemma EmptyIsOffered()
      ensures bufLen == 0 ==> AtRest() && Offered()
    {
    }

    method BranchResumeOutput()
      requires StreamOK() && StopsOK() && FlushOK() && LedgerOK()
      modifies branches
      modifies this`bufLen, this`flushedBranches, this`doFlush, this`acks, this`inputStopped, this`resumes
      ensures StreamOK() && StopsOK() && FlushOK() && LedgerOK() && AtRest() && Offered()
      ensures inputStopped == (old(inputStopped) && bufLen > 0)
      ensures resumes == old(resumes) + if old(inputStopped) && !inputStopped then 1 else 0
      ensures bufLen == 0 || bufLen == old(bufLen)
      ensures old(bufLen) == 0 ==> unchanged(branches) && doFlush == old(doFlush) && acks == old(acks)
      ensures Enabled() == old(Enabled())
    {
      hide StreamOK, StopsOK, FlushOK, LedgerOK, AtRest, Offered, Enabled;
      WriteFromBuffer();
      if inputStopped && bufLen == 0 {
        inputStopped := false;
        resumes := resumes + 1;
      }
    }

    /** The sink of a branch can take samples again. */
    method ResumeBranch(b: Branch)
      requires Valid() && b in branches
      modifies branches
      modifies this`bufLen, this`flushedBranches, this`doFlush, this`acks, this`inputStopped, this`resumes
      ensures Valid()
      ensures resumes == old(resumes) + if old(inputStopped) && !inputStopped then 1 else 0
      ensures bufLen == 0 || bufLen == old(bufLen)
      ensures b.isEnabled ==> Offered()
    {
      hide FlagsOf, CountTrue, StreamOK, FlushOK, LedgerOK;
      b.isStopped := false;
      if b.isEnabled {
        BranchResumeOutput();
      }
    }

    // The flush bookkeeping when the flag of branch i, which was flushing, has just been cleared.
    ghost predicate OneJustFinished(before: seq<bool>, i: nat)
      reads `branches, branches`isFlushing, branches`isEnabled, `bufLen, `doFlush, `flushedBranches, `requests
      reads `acks, `cancels
    {
      && |before| == |branches| && i < |before| && before[i] && !branches[i].isFlushing
      && (forall j :: 0 <= j < |before| && j != i ==> branches[j].isFlushing == before[j])
      && (forall j :: 0 <= j < |branches| && branches[j].isFlushing ==> branches[j].isEnabled)
      && bufLen == 0
      && flushedBranches + CountTrue(before) == |branches|
      && requests == acks + cancels + 1
    }

    // One branch is done: the flush is acknowledged when it was the last.
    method CountBranchFlushed(ghost before: seq<bool>, ghost i: nat)
      requires OneJustFinished(before, i)
      modifies this`flushedBranches, this`doFlush, this`acks
      ensures FlushOK() && LedgerOK()
      ensures Flushing() == CountTrue(before) - 1
      ensures acks == old(acks) + if Flushing() == 0 then 1 else 0
      ensures doFlush == (old(doFlush) && Flushing() > 0)
    {
      hide FlagsOf, CountTrue;
      CountClear(before, FlushFlags(), i);
      CountFlushed();
    }

    lemma FlushingIsCounted(b: Branch)
      requires FlushOK() && LedgerOK() && b in branches && b.isFlushing
      ensures bufLen == 0 && Outstanding()
      ensures flushedBranches + CountTrue(FlushFlags()) == |branches|
    {
      CountZero(FlushFlags());
    }

    /** The sink of a branch has flushed. Only an awaited acknowledgement counts. */
    method AllSamplesFlushed(b: Branch)
      requires Valid() && b in branches
      modifies b`isFlushing, b`isFlushed, this`flushedBranches, this`doFlush, this`acks
      ensures Valid() && !b.isFlushing && b.isFlushed
      ensures Flushing() == old(Flushing()) - if old(b.isFlushing) then 1 else 0
      ensures acks == old(acks) + if old(b.isFlushing) && Flushing() == 0 then 1 else 0
    {
      hide FlagsOf, CountTrue, StreamOK, StopsOK, AtRest, BlockOK;
      ghost var before := FlushFlags();
      ghost var i :| 0 <= i < |branches| && branches[i] == b;
      if b.isFlushing {
        FlushingIsCounted(b);
      }
      var counts := FinishFlush(b);
      if counts {
        CountBranchFlushed(before, i);
      } else {
        assert FlushFlags() == before;
      }
    }

    /** Disabling a branch discards what it has pending, counts it as flushed when the splitter
        waits for it, and otherwise flushes its sink, unless that is already flushed. Enabling it
        changes nothing else. */
    method SetEnabled(b: Branch, enabled: bool)
      requires Valid() && b in branches
      modifies branches, this`everDisabled
      modifies this`bufLen, this`flushedBranches, this`doFlush, this`acks, this`inputStopped, this`resumes
      ensures Valid() && b.isEnabled == enabled
      ensures resumes == old(resumes) + if old(inputStopped) && !inputStopped then 1 else 0
      ensures if old(b.isEnabled) && !enabled
              then everDisabled == old(everDisabled) + {b} && LetGo(b, old(b.isStopped), old(b.isFlushing),
                                                                    old(Flushing()), old(bufLen), old(acks))
              else unchanged(this) && b.State() == old(b.State())
      ensures old(b.isEnabled) && !enabled ==>
                && !b.isStopped && !b.isFlushing
                && (old(b.isStopped) ==> forall c :: c in branches && c.currentBufPos < bufLen ==> c.isStopped)
                && (old(b.isFlushing) ==>
                      && Flushing() == old(Flushing()) - 1
                      && acks == old(acks) + if old(Flushing()) == 1 then 1 else 0)
                && (!old(b.isStopped) && !old(b.isFlushing) ==>
                      Flushing() == old(Flushing()) && acks == old(acks) && bufLen == old(bufLen))
      ensures Enabled() == if enabled then old(Enabled()) + {b} else old(Enabled()) - {b}
      ensures enabled ==> unchanged(Others(b))
    {
      hide Valid, StreamOK, StopsOK, AtRest, BlockOK, FlushOK, LedgerOK, Outstanding, Flushing;
      hide FlushFlags, FlagsOf, CountTrue, Counted, StopsApart;
      if enabled == b.isEnabled {
        return;
      }
      if enabled {
        Enable(b);
      } else {
        Disable(b);
      }
    }

    // What disabling has done about a branch that was stopped, flushing, or neither.
    ghost predicate LetGo(b: Branch, wasStopped: bool, wasFlushing: bool, flushing: nat, hadLen: nat, hadAcks: nat)
      reads `branches, `bufLen, `acks, branches`isFlushing, branches`isStopped, branches`currentBufPos
      reads b`isFlushing, b`isStopped
    {
      && !b.isStopped && !b.isFlushing
      && (wasStopped ==> Offered())
      && (wasFlushing ==> Flushing() == flushing - 1 && acks == hadAcks + if flushing == 1 then 1 else 0)
      && (!wasStopped && !wasFlushing ==> Flushing() == flushing && acks == hadAcks && bufLen == hadLen)
    }

    method Enable(b: Branch)
      requires Valid() && b in branches && !b.isEnabled
      modifies b`isEnabled
      ensures Valid() && b.isEnabled && b.State() == old(b.State())
      ensures Enabled() == old(Enabled()) + {b}
    {
      hide FlagsOf, CountTrue, FlushFlags, Flushing, Streams, Branch.Lossless;
      b.isEnabled := true;
    }

    method Disable(b: Branch)
      requires Valid() && b in branches && b.isEnabled
      modifies branches, this`everDisabled
      modifies this`bufLen, this`flushedBranches, this`doFlush, this`acks, this`inputStopped, this`resumes
      ensures Valid() && !b.isEnabled && everDisabled == old(everDisabled) + {b}
      ensures resumes == old(resumes) + if old(inputStopped) && !inputStopped then 1 else 0
      ensures Enabled() == old(Enabled()) - {b}
      ensures LetGo(b, old(b.isStopped), old(b.isFlushing), old(Flushing()), old(bufLen), old(acks))
    {
      hide Valid, StreamOK, StopsOK, AtRest, BlockOK, FlushOK, LedgerOK, Outstanding, Flushing, FlushFlags;
      hide FlagsOf, CountTrue, Enabled, Others, Counted, StopsApart;
      DisableOutput(b);
      ghost var wasStopped, wasFlushing, flushing := old(b.isStopped), b.isFlushing, Flushing();
      DisableFlush(b);
      assert LetGo(b, old(b.isStopped), old(b.isFlushing), old(Flushing()), old(bufLen), old(acks));
    }

    method MarkDisabled(b: Branch)
      requires StreamOK() && StopsOK() && FlushOK() && LedgerOK() && b in branches
      modifies b`isEnabled, this`everDisabled
      ensures StreamOK() && !b.isEnabled && everDisabled == old(everDisabled) + {b}
      ensures Enabled() == old(Enabled()) - {b}
      ensures Counted(b) && StopsApart(b) && (!b.isStopped ==> StopsOK())
    {
      hide FlagsOf, CountTrue, Streams, Branch.Lossless;
      if b.isFlushing {
        FlushingIsCounted(b);
      }
      everDisabled := everDisabled + {b};
      b.isEnabled := false;
    }

    // The flush bookkeeping still counts a branch that has just been disabled as flushing if it was.
    ghost predicate Counted(b: Branch)
      reads `branches, `bufLen, `doFlush, `flushedBranches, `requests, `acks, `cancels
      reads branches`isFlushing, branches`isEnabled, b`isFlushing
    {
      && (forall c :: c in branches && c != b && c.isFlushing ==> c.isEnabled)
      && if b.isFlushing
         then bufLen == 0 && flushedBranches + Flushing() == |branches| && requests == acks + cancels + 1
         else FlushOK() && LedgerOK()
    }

    method DisableOutput(b: Branch)
      requires Valid() && b in branches && b.isEnabled
      modifies branches, this`everDisabled
      modifies this`bufLen, this`flushedBranches, this`doFlush, this`acks, this`inputStopped, this`resumes
      ensures StreamOK() && StopsOK() && AtRest() && BlockOK() && (inputStopped ==> bufLen > 0)
      ensures !b.isEnabled && everDisabled == old(everDisabled) + {b}
      ensures Enabled() == old(Enabled()) - {b}
      ensures resumes == old(resumes) + if old(inputStopped) && !inputStopped then 1 else 0
      ensures Counted(b) && !b.isStopped
      ensures if old(b.isStopped) then Offered() && !old(b.isFlushing) && !b.isFlushing
              else Flushing() == old(Flushing()) && b.isFlushing == old(b.isFlushing)
                   && acks == old(acks) && bufLen == old(bufLen)
    {
      hide StreamOK, StopsOK, AtRest, Offered, FlushOK, LedgerOK, Outstanding, Flushing, FlushFlags;
      hide FlagsOf, CountTrue, Enabled, Others, LetGo, StopsApart;
      if b.isStopped {
        StoppedMeansNoFlush(b);
      }
      MarkDisabled(b);
      if b.isStopped {
        ReleaseBuffer(b);
      }
    }

    lemma StoppedMeansNoFlush(b: Branch)
      requires StopsOK() && FlushOK() && b in branches && b.isStopped
      ensures bufLen > 0 && forall c :: c in branches ==> !c.isFlushing
    {
      FlushingGuard();
    }

    ghost predicate StopsApart(b: Branch)
      reads `branches, `bufLen, branches`isStopped, branches`isEnabled, branches`currentBufPos
    {
      forall c :: c in branches && c != b && c.isStopped ==> c.isEnabled && c.currentBufPos < bufLen
    }

    // A stopped branch that has just been disabled no longer holds the buffer.
    method ReleaseBuffer(b: Branch)
      requires StreamOK() && StopsApart(b) && FlushOK() && LedgerOK() && b in branches && !b.isEnabled
      modifies branches
      modifies this`bufLen, this`flushedBranches, this`doFlush, this`acks, this`inputStopped, this`resumes
      ensures StreamOK() && StopsOK() && AtRest() && Offered() && Counted(b)
      ensures !b.isStopped && !b.isFlushing
      ensures inputStopped == (old(inputStopped) && bufLen > 0)
      ensures resumes == old(resumes) + if old(inputStopped) && !inputStopped then 1 else 0
      ensures bufLen == 0 || bufLen == old(bufLen)
      ensures !b.isEnabled && Enabled() == old(Enabled())
    {
      hide Valid, StreamOK, AtRest, Offered, BlockOK, LedgerOK, Outstanding, Flushing, FlushFlags, FlagsOf;
      hide CountTrue, Others, LetGo;
      b.isStopped := false;
      assert b !in Enabled();
      BranchResumeOutput();
      assert b !in Enabled();
    }

    method DisableFlush(b: Branch)
      requires StreamOK() && StopsOK() && AtRest() && BlockOK() && (inputStopped ==> bufLen > 0)
      requires b in branches && !b.isEnabled && Counted(b)
      modifies b`isFlushing, b`isFlushed, this`flushedBranches, this`doFlush, this`acks
      ensures Valid() && !b.isFlushing
      ensures if old(b.isFlushing)
              then Flushing() == old(Flushing()) - 1 && acks == old(acks) + if Flushing() == 0 then 1 else 0
              else Flushing() == old(Flushing()) && acks == old(acks) && doFlush == old(doFlush)
    {
      hide FlagsOf, CountTrue, StreamOK, StopsOK, AtRest, BlockOK;
      ghost var before := FlushFlags();
      if b.isFlushing {
        ghost var i :| 0 <= i < |branches| && branches[i] == b;
        b.isFlushing := false;
        CountBranchFlushed(before, i);
      } else if !b.isFlushed {
        // The sink is told to flush; its acknowledgement, now or later, only sets a flag.
        if * {
          var counts := FinishFlush(b);
        }
        assert FlushFlags() == before;
      }
    }

    /** A flush starts once the buffer is empty; a second request while one is waiting is ignored. */
    method FlushSamples()
      requires Valid()
      modifies branches`isFlushing, branches`isFlushed, this`flushedBranches, this`doFlush, this`acks, this`requests
      ensures Valid()
      ensures old(doFlush) ==> doFlush && acks == old(acks) && requests == old(requests)
      ensures !old(doFlush) ==>
                && doFlush == Outstanding()
                && acks == old(acks) + (if Outstanding() then 0 else 1)
                && requests == old(requests) + (if old(Outstanding()) then 0 else 1)
      ensures bufLen > 0 ==> doFlush && acks == old(acks)
    {
      hide StreamOK, StopsOK, AtRest, BlockOK, Flushing, Distinct, FlushFlags, FlagsOf, CountTrue;
      assert Distinct();
      if doFlush {
        return;
      }
      if !Outstanding() {
        requests := requests + 1;
      }
      if |branches| == 0 {
        NoBranchesNoFlushing();
        acks := acks + 1;
        return;
      }
      StartFlush();
    }

    method StartFlush()
      requires Distinct() && FlushOK() && !doFlush && requests == acks + cancels + 1
      requires 0 < |branches|
      modifies branches`isFlushing, branches`isFlushed, this`flushedBranches, this`doFlush, this`acks
      ensures FlushOK() && LedgerOK() && doFlush == Outstanding()
      ensures acks == old(acks) + if Outstanding() then 0 else 1
      ensures bufLen > 0 ==> doFlush
    {
      hide Flushing, Distinct, FlushFlags, FlagsOf, CountTrue;
      doFlush := true;
      flushedBranches := 0;
      if bufLen > 0 {
        return;
      }
      BeginFlush();
    }

    lemma NoBranchesNoFlushing()
      requires |branches| == 0 && AtRest()
      ensures Flushing() == 0 && bufLen == 0
    {
    }

    // Branch::sinkWriteSamples for a fresh block of samples.
    method Offer(b: Branch, samples: seq<Sample>) returns (written: nat)
      requires 0 < |samples| && !b.isStopped
      requires accepted == b.consumed && (b !in everDisabled ==> b.isEnabled && b.Lossless())
      modifies b
      ensures Took(b, samples) && b.currentBufPos == written
    {
      b.currentBufPos := 0;
      written := b.SinkWriteSamples(samples);
    }

    // The branch has taken a prefix of a block that comes after everything accepted so far.
    ghost predicate Took(b: Branch, samples: seq<Sample>)
      reads `accepted, `everDisabled, b
    {
      && b.currentBufPos <= |samples| && !b.isFlushing
      && (b !in everDisabled ==> b.isEnabled && b.Lossless())
      && b.consumed == accepted + samples[..b.currentBufPos]
      && (b.isStopped <==> b.currentBufPos == 0)
      && (b.isStopped ==> b.isEnabled)
    }

    method CopyToBuffer(samples: seq<Sample>)
      requires 0 < |samples|
      modifies this`buf, this`bufLen, buf
      ensures bufLen == |samples| <= buf.Length && buf[..bufLen] == samples
      ensures buf == old(buf) || fresh(buf)
    {
      if buf.Length < |samples| {
        buf := new Sample[|samples|];
      }
      forall k | 0 <= k < |samples| {
        buf[k] := samples[k];
      }
      bufLen := |samples|;
    }

    // The loop of writeSamples.
    method OfferAll(samples: seq<Sample>)
      requires 0 < |samples| && bufLen == 0 && Distinct()
      requires forall i :: 0 <= i < |branches| ==>
                 && !branches[i].isStopped && accepted == branches[i].consumed
                 && (branches[i] !in everDisabled ==> branches[i].isEnabled && branches[i].Lossless())
      modifies branches
      modifies this`buf, this`bufLen, buf
      ensures forall i :: 0 <= i < |branches| ==> Took(branches[i], samples)
      ensures bufLen == 0 ==> forall i :: 0 <= i < |branches| ==> branches[i].currentBufPos == |samples|
      ensures bufLen > 0 ==> bufLen == |samples| <= buf.Length && buf[..bufLen] == samples && 0 < |branches|
      ensures buf == old(buf) || fresh(buf)
    {
      hide Took;
      for i := 0 to |branches|
        invariant forall j :: i <= j < |branches| ==> unchanged(branches[j])
        invariant forall j :: 0 <= j < i ==> Took(branches[j], samples)
        invariant bufLen == 0 ==> forall j :: 0 <= j < i ==> branches[j].currentBufPos == |samples|
        invariant bufLen > 0 ==> bufLen == |samples| <= buf.Length && buf[..bufLen] == samples && 0 < |branches|
        invariant buf == old(buf) || fresh(buf)
      {
        var written := Offer(branches[i], samples);
        if written != |samples| {
          if bufLen == 0 {
            CopyToBuffer(samples);
          }
        }
      }
    }

    // Once every branch has had its turn the block counts as accepted.
    ghost method Accept(samples: seq<Sample>)
      requires Distinct() && 0 < |samples| && !doFlush
      requires forall i :: 0 <= i < |branches| ==> Took(branches[i], samples)
      requires bufLen == 0 ==> forall i :: 0 <= i < |branches| ==> branches[i].currentBufPos == |samples|
      requires bufLen > 0 ==> bufLen == |samples| <= buf.Length && buf[..bufLen] == samples && 0 < |branches|
      requires requests == acks + cancels
      modifies this`accepted
      ensures accepted == old(accepted) + samples
      ensures StreamOK() && StopsOK() && FlushOK() && LedgerOK() && !Outstanding()
      ensures bufLen <= buf.Length && BlockOK()
    {
      hide FlagsOf, CountTrue;
      CountZero(FlushFlags());
      accepted := accepted + samples;
      forall i | 0 <= i < |branches| ensures Follows(branches[i]) {
        var p := branches[i].currentBufPos;
        assert samples[..p] + samples[p..] == samples;
        assert old(accepted) + samples == (old(accepted) + samples[..p]) + samples[p..];
        if bufLen > 0 {
          assert buf[p..bufLen] == samples[p..];
        }
      }
    }

    // New samples call off a flush that is still waiting or running.
    method CallOffFlush(hasSamples: bool)
      requires FlushOK() && LedgerOK()
      modifies this`doFlush, this`cancels
      ensures !doFlush
      ensures requests == acks + cancels + if Flushing() > 0 && !hasSamples then 1 else 0
      ensures bufLen > 0 ==> Flushing() == 0
      ensures !hasSamples || bufLen > 0 ==> FlushOK() && LedgerOK()
    {
      hide FlagsOf, CountTrue, FlushFlags, Flushing;
      if Outstanding() && (hasSamples || Flushing() == 0) {
        cancels := cancels + 1;
      }
      doFlush := false;
    }

    /** Takes a whole block or nothing. Any flush still waiting is given up. */
    method WriteSamples(samples: seq<Sample>) returns (n: nat)
      requires Valid()
      modifies this, branches, buf
      ensures Valid() && branches == old(branches) && (fresh(buf) || buf == old(buf))
      ensures n == (if old(bufLen) == 0 then |samples| else 0)
      ensures accepted == old(accepted) + samples[..n]
      ensures |samples| > 0 ==> !Outstanding() && inputStopped == (old(bufLen) > 0)
      ensures acks == old(acks) && requests == old(requests) && resumes == old(resumes)
    {
      hide StreamOK, StopsOK, AtRest, BlockOK, FlushOK, LedgerOK, Flushing, FlushFlags, FlagsOf, CountTrue;
      assert samples[..0] == [];
      CallOffFlush(|samples| > 0);
      if |samples| == 0 {
        return 0;
      }
      if bufLen > 0 {
        inputStopped := true;
        return 0;
      }
      n := |samples|;
      assert samples[..n] == samples;
      WriteBlock(samples);
    }

    // The rest of writeSamples, for a block that meets an empty buffer.
    method WriteBlock(samples: seq<Sample>)
      requires StreamOK() && StopsOK() && bufLen == 0 && 0 < |samples|
      requires !doFlush && requests == acks + cancels
      modifies branches, this`buf, this`bufLen, buf, this`flushedBranches, this`doFlush, this`acks, this`accepted
      ensures StreamOK() && StopsOK() && AtRest() && BlockOK() && FlushOK() && LedgerOK() && !Outstanding()
      ensures accepted == old(accepted) + samples && acks == old(acks)
      ensures fresh(buf) || buf == old(buf)
    {
      hide Valid, StreamOK, StopsOK, AtRest, Offered, FlushOK, Flushing;
      assert Distinct();
      BeforeBlock();
      OfferAll(samples);
      Accept(samples);
      WriteFromBuffer();
    }

    // With an empty buffer every branch has had everything and none is stopped.
    lemma BeforeBlock()
      requires StreamOK() && StopsOK() && bufLen == 0
      ensures forall i :: 0 <= i < |branches| ==>
                && !branches[i].isStopped && accepted == branches[i].consumed
                && (branches[i] !in everDisabled ==> branches[i].isEnabled && branches[i].Lossless())
    {
    }
  }

  ghost function RemainingOf(bs: seq<Branch>, bufLen: nat): (s: seq<nat>)
    reads bs`currentBufPos
    ensures |s| == |bs| && forall i :: 0 <= i < |bs| ==> s[i] == Max(0, bufLen - bs[i].currentBufPos)
  {
    if bs == [] then []
    else RemainingOf(bs[..|bs| - 1], bufLen) + [Max(0, bufLen - bs[|bs| - 1].currentBufPos)]
  }

  lemma PushFlag(bs: seq<Branch>, b: Branch)
    ensures CountTrue(FlagsOf(bs + [b])) == CountTrue(FlagsOf(bs)) + if b.isFlushing then 1 else 0
  {
    assert (bs + [b])[..|bs|] == bs;
  }

  lemma EmptyCount()
    ensures CountTrue([]) == 0
  {
  }

  lemma FlagsPush(bs: seq<Branch>, i: nat)
    requires i < |bs|
    ensures CountTrue(FlagsOf(bs[..i + 1])) == CountTrue(FlagsOf(bs[..i])) + if bs[i].isFlushing then 1 else 0
  {
    assert bs[..i + 1][..i] == bs[..i];
  }

  // A branch that was never disabled gets exactly the input from where it joined: what its sink
  // has received, followed by what is still pending, with nothing lost, repeated or reordered.
  lemma EnabledBranchGetsTheStream(s: AudioSplitter, i: nat)
    requires s.Valid() && i < |s.branches| && s.branches[i] !in s.everDisabled
    ensures s.branches[i].joinedAt <= |s.accepted|
    ensures s.branches[i].delivered + s.Pending(s.branches[i]) == s.accepted[s.branches[i].joinedAt..]
  {
    hide AudioSplitter.StopsOK, AudioSplitter.AtRest, AudioSplitter.FlushOK, AudioSplitter.LedgerOK;
    var b := s.branches[i];
    assert s.Follows(b);
    assert s.accepted[b.joinedAt..] == b.consumed[b.joinedAt..] + s.Pending(b);
  }

  // Nothing waits for nobody: buffered samples, a stopped source and an unfinished flush are all
  // held up by a branch whose sink still owes a callback.
  lemma SomebodyOwesACallback(s: AudioSplitter)
    requires s.Valid()
    ensures s.bufLen > 0 || s.inputStopped ==>
              exists i :: 0 <= i < |s.branches| && s.branches[i].isStopped && s.branches[i].isEnabled
    ensures s.Outstanding() && s.bufLen == 0 ==>
              exists i :: 0 <= i < |s.branches| && s.branches[i].isFlushing && s.branches[i].isEnabled
  {
    hide AudioSplitter.StreamOK, CountTrue, FlagsOf;
    CountZero(s.FlushFlags());
  }

  lemma FlushesAreAccountedFor(s: AudioSplitter)
    requires s.Valid()
    ensures s.requests == s.acks + s.cancels + if s.Outstanding() then 1 else 0
  {
  }

  datatype Event =
    | Write(samples: seq<Sample>)
    | Flush
    | Resume(branch: nat)
    | Flushed(branch: nat)
    | Enable(branch: nat, enabled: bool)
    | Join

  method Step(s: AudioSplitter, e: Event)
    requires s.Valid()
    modifies s, s.branches, s.buf
    ensures s.Valid() && (s.buf == old(s.buf) || fresh(s.buf))
    ensures |old(s.branches)| <= |s.branches| && s.branches[..|old(s.branches)|] == old(s.branches)
    ensures fresh(s.branches[|old(s.branches)|..])
  {
    hide *;
    match e {
      case Write(samples) =>
        var n := s.WriteSamples(samples);
      case Flush =>
        s.FlushSamples();
      case Resume(i) =>
        if i < |s.branches| {
          s.ResumeBranch(s.branches[i]);
        }
      case Flushed(i) =>
        if i < |s.branches| {
          s.AllSamplesFlushed(s.branches[i]);
        }
      case Enable(i, enabled) =>
        if i < |s.branches| {
          s.SetEnabled(s.branches[i], enabled);
        }
      case Join =>
        if s.JoinsCleanly() {
          s.AddSink();
        }
    }
  }

  /** Any run of a splitter, to which branches are added wherever that keeps the flush bookkeeping:
      every branch follows the stream from where it joined, and every flush that was asked for is
      acknowledged once, given up once, or still outstanding. */
  method Run(events: seq<Event>) returns (s: AudioSplitter)
    ensures s.Valid() && 0 < |s.branches|
    ensures s.requests == s.acks + s.cancels + if s.Outstanding() then 1 else 0
    ensures forall i :: 0 <= i < |s.branches| && s.branches[i] !in s.everDisabled ==>
              && s.branches[i].joinedAt <= |s.accepted|
              && s.branches[i].delivered + s.Pending(s.branches[i]) == s.accepted[s.branches[i].joinedAt..]
    ensures s.branches[0].joinedAt == 0
  {
    hide AudioSplitter.Valid, AudioSplitter.Flushing, AudioSplitter.Outstanding;
    s := new AudioSplitter();
    for k := 0 to |events|
      invariant s.Valid() && fresh(s) && fresh(s.buf) && fresh(s.branches)
      invariant 0 < |s.branches| && s.branches[0].joinedAt == 0
    {
      ghost var had := s.branches;
      Step(s, events[k]);
      assert s.branches == had + s.branches[|had|..];
    }
    FlushesAreAccountedFor(s);
    forall i | 0 <= i < |s.branches| && s.branches[i] !in s.everDisabled
      ensures s.branches[i].joinedAt <= |s.accepted|
      ensures s.branches[i].delivered + s.Pending(s.branches[i]) == s.accepted[s.branches[i].joinedAt..]
    {
      EnabledBranchGetsTheStream(s, i);
    }
  }

  // --- A branch that joins too early ---

  /** One round of writeFromBuffer when a branch has been counted before the flush began: as soon as the
      buffer is empty and the flush has begun, it is acknowledged, although a branch is flushing. */
  method EarlyRound(s: AudioSplitter)
    requires s.StreamOK() && s.StopsOK() && 0 < s.bufLen && s.doFlush && s.flushedBranches == 1 < |s.branches|
    requires forall i :: 0 <= i < |s.branches| ==> !s.branches[i].isFlushing
    modifies s`bufLen, s`flushedBranches, s`doFlush, s`acks, s.branches
    ensures s.bufLen > 0 ==> s.acks == old(s.acks) && s.doFlush
    ensures s.bufLen == 0 ==>
              && s.flushedBranches + s.Flushing() == |s.branches| + 1
              && s.acks == old(s.acks) + (if s.Flushing() <= 1 then 1 else 0) && s.doFlush == (s.Flushing() > 1)
  {
    hide AudioSplitter.StreamOK, AudioSplitter.Flushing, AudioSplitter.AtRest, AudioSplitter.Offered;
    hide AudioSplitter.Enabled;
    var samplesWritten, allWritten := s.FeedAll();
    if allWritten {
      s.DropBuffer();
      assert s.Distinct();
      s.FlushAllBranches();
    }
  }

  // A branch whose sink acknowledges at once joins while a flush waits for the buffer.
  method JoinEarly(s: AudioSplitter) returns (early: bool)
    requires s.Valid() && s.doFlush && s.bufLen > 0
    modifies s`branches, s`flushedBranches, s`doFlush, s`acks
    ensures s.StreamOK() && s.StopsOK() && s.acks == old(s.acks) && s.doFlush && 1 < |s.branches|
    ensures s.branches[..|s.branches| - 1] == old(s.branches) && fresh(s.branches[|s.branches| - 1])
    ensures early ==> s.flushedBranches == 1 && forall i :: 0 <= i < |s.branches| ==> !s.branches[i].isFlushing
  {
    hide AudioSplitter.StreamOK, AudioSplitter.StopsOK, AudioSplitter.AtRest, AudioSplitter.BlockOK;
    hide AudioSplitter.LedgerOK;
    hide AudioSplitter.Flushing, AudioSplitter.FlushFlags;
    ghost var had := s.branches;
    s.FlushingGuard();
    s.AddSink();
    assert s.branches == had + [s.branches[|had|]];
    early := !s.branches[|s.branches| - 1].isFlushing;
  }

  // The first block, and a flush after it.
  method FlushedBlock(x: Sample) returns (s: AudioSplitter)
    ensures fresh(s) && fresh(s.branches) && s.Valid() && s.requests == 1
    ensures s.bufLen > 0 ==> s.doFlush && s.acks == 0
  {
    hide AudioSplitter.Valid, AudioSplitter.Flushing;
    s := new AudioSplitter();
    var n := s.WriteSamples([x]);
    s.FlushSamples();
  }

  /** That is within reach: a block whose rest is refused, a flush, and a branch whose sink acknowledges
      at once. If the rest is then taken and a sink is still flushing, the source has its
      acknowledgement too early. */
  method EarlyAcknowledgement(x: Sample) returns (s: AudioSplitter, early: bool)
    ensures early ==> s.requests == s.acks == 1 && exists i :: 0 <= i < |s.branches| && s.branches[i].isFlushing
  {
    hide *;
    s := FlushedBlock(x);
    early := false;
    if s.bufLen > 0 {
      ghost var had := s.branches;
      early := JoinEarly(s);
      assert s.branches == had + [s.branches[|s.branches| - 1]];
      if early {
        EarlyRound(s);
        early := s.bufLen == 0 && !s.doFlush && exists i :: 0 <= i < |s.branches| && s.branches[i].isFlushing;
      }
    }
  }
}
