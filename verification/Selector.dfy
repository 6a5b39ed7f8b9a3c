/** AudioSelector: lets one of several sources through to the sink, chosen by hand or by priority
    (src/async/audio/AsyncAudioSelector.cpp).

    A branch method that calls back into the selector is a method of the selector here. */
module Selector {
  import opened AudioPipe

  datatype StreamState = Idle | Writing | Stopped | Flushing

  class Branch {
    var autoSelect: bool
    var prio: int
    var streamState: StreamState
    var flushWait: bool

    // History: flushes asked for, acknowledged, and given up because of a new write; times the
    // source was stopped, resumed, and went on without being resumed.
    ghost var requests: nat
    ghost var acks: nat
    ghost var cancels: nat
    ghost var stops: nat
    ghost var resumes: nat
    ghost var overtaken: nat

    // Every flush and every stop has come to exactly one end, except one that is still open.
    ghost predicate LedgerOK()
      reads `streamState, `requests, `acks, `cancels, `stops, `resumes, `overtaken
    {
      && requests == acks + cancels + (if streamState.Flushing? then 1 else 0)
      && stops == resumes + overtaken + (if streamState.Stopped? then 1 else 0)
    }

    // Nothing is owed to the source.
    predicate Calm()
      reads `streamState
    {
      streamState.Idle? || streamState.Writing?
    }

    predicate Active()
      reads `streamState
    {
      streamState.Writing? || streamState.Stopped?
    }

    predicate Eligible()
      reads `streamState, `autoSelect
    {
      autoSelect && Active()
    }

    constructor ()
      ensures LedgerOK() && Calm() && !autoSelect && prio == 0 && flushWait && streamState.Idle?
      ensures requests == acks == cancels == stops == resumes == overtaken == 0
    {
      autoSelect, prio, streamState, flushWait := false, 0, Idle, true;
      requests, acks, cancels, stops, resumes, overtaken := 0, 0, 0, 0, 0, 0;
    }

    // A new write ends whatever was pending.
    method BeginWriting()
      requires LedgerOK()
      modifies this`streamState, this`cancels, this`overtaken
      ensures LedgerOK() && streamState.Writing?
      ensures cancels == old(cancels) + if old(streamState).Flushing? then 1 else 0
      ensures overtaken == old(overtaken) + if old(streamState).Stopped? then 1 else 0
    {
      if streamState.Flushing? {
        cancels := cancels + 1;
      }
      if streamState.Stopped? {
        overtaken := overtaken + 1;
      }
      streamState := Writing;
    }

    method Stop()
      requires LedgerOK() && streamState.Writing?
      modifies this`streamState, this`stops
      ensures LedgerOK() && streamState.Stopped? && stops == old(stops) + 1
    {
      stops := stops + 1;
      streamState := Stopped;
    }

    // A flush of an active branch.
    method BeginFlushing(waitForSink: bool)
      requires LedgerOK() && Active()
      modifies this`streamState, this`overtaken, this`requests, this`acks
      ensures LedgerOK() && streamState == if waitForSink then Flushing else Idle
      ensures requests == old(requests) + 1 && acks == old(acks) + if waitForSink then 0 else 1
      ensures overtaken == old(overtaken) + if old(streamState).Stopped? then 1 else 0
    {
      if streamState.Stopped? {
        overtaken := overtaken + 1;
      }
      requests := requests + 1;
      if waitForSink {
        streamState := Flushing;
      } else {
        streamState := Idle;
        acks := acks + 1;
      }
    }

    method ResumeOutput()
      requires LedgerOK()
      modifies this`streamState, this`resumes
      ensures LedgerOK() && !streamState.Stopped?
      ensures streamState == if old(streamState).Stopped? then Writing else old(streamState)
      ensures resumes == old(resumes) + if old(streamState).Stopped? then 1 else 0
    {
      if streamState.Stopped? {
        streamState := Writing;
        resumes := resumes + 1;
      }
    }

    /** A branch that loses the selection is let go: it is resumed or its flush acknowledged. */
    method Unselect()
      requires LedgerOK()
      modifies this`streamState, this`resumes, this`acks
      ensures LedgerOK() && Calm()
      // A branch that has samples to come stays a candidate.
      ensures streamState == if old(streamState.Writing? || streamState.Stopped?) then Writing else Idle
      ensures autoSelect == old(autoSelect) && (old(Eligible()) ==> Eligible())
      ensures resumes == old(resumes) + if old(streamState).Stopped? then 1 else 0
      ensures acks == old(acks) + if old(streamState).Flushing? then 1 else 0
    {
      match streamState {
        case Idle =>
        case Writing =>
        case Stopped =>
          streamState := Writing;
          resumes := resumes + 1;
        case Flushing =>
          streamState := Idle;
          acks := acks + 1;
      }
    }
  }

  function Rank(s: StreamState): nat {
    match s
    case Idle => 0
    case Flushing => 1
    case Writing => 2
    case Stopped => 2
  }

  class AudioSelector {
    // The branch map, in the order in which it is walked.
    var branches: seq<Branch>
    var selected: Branch?
    var streamState: StreamState

    // History: what the sink has received, and how often it was asked to flush.
    ghost var received: seq<Sample>
    ghost var sinkFlushes: nat
    // How many writes the sink has taken nothing of.
    ghost var refusals: nat

    // Only the selected branch can be waiting for something.
    ghost predicate BranchesOK()
      reads `branches, `selected, branches, selected
    {
      && (selected != null ==> selected.LedgerOK())
      && (forall i, j :: 0 <= i < j < |branches| ==> branches[i] != branches[j])
      && (forall b :: b in branches ==> b.LedgerOK())
      && (forall b :: b in branches && b != selected ==> b.Calm())
    }

    // With no branch selected nothing is being written or held back.
    ghost predicate NoneOK()
      reads `selected, `streamState
    {
      selected == null ==> streamState.Idle? || streamState.Flushing?
    }

    // What the selected branch is waiting for is what the selector is waiting for.
    ghost predicate Synced()
      reads `selected, `streamState, selected
    {
      selected != null ==>
        && (selected.streamState.Stopped? ==> streamState.Stopped?)
        && (selected.streamState.Flushing? ==> streamState.Flushing?)
    }

    ghost predicate Valid()
      reads this, branches, selected
    {
      BranchesOK() && NoneOK() && Synced() && Listed()
    }

    ghost predicate Listed()
      reads `branches, `selected
    {
      selected != null ==> selected in branches
    }

    constructor ()
      ensures Valid() && branches == [] && selected == null && streamState.Idle?
      ensures received == [] && sinkFlushes == 0
    {
      branches, selected, streamState, received, sinkFlushes, refusals := [], null, Idle, [], 0, 0;
    }

    // --- The sink ---

    method SinkWriteSamples(samples: seq<Sample>) returns (n: nat)
      requires 0 < |samples|
      modifies this`received, this`refusals
      ensures n <= |samples| && received == old(received) + samples[..n]
      ensures refusals == old(refusals) + if n == 0 then 1 else 0
    {
      n :| 0 <= n <= |samples|;
      received := received + samples[..n];
      refusals := refusals + if n == 0 then 1 else 0;
    }

    // A sink that holds nothing acknowledges a flush at once.
    method SinkFlushSamples()
      requires Valid() && streamState.Flushing?
      modifies selected, this`selected, this`streamState, this`sinkFlushes
      ensures Valid() && !Active(streamState) && sinkFlushes == old(sinkFlushes) + 1
      ensures old(selected) != null && old(selected.streamState).Flushing? ==>
                selected == if old(selected).streamState.Idle? && old(selected.autoSelect) then null else old(selected)
      ensures old(selected) != null ==> Answered(old(selected))
      ensures old(selected) == null || !old(selected.streamState).Flushing? ==>
                selected == old(selected) && (selected != null ==> unchanged(selected))
      decreases Rank(streamState), 3
    {
      sinkFlushes := sinkFlushes + 1;
      if * {
        AllSamplesFlushed();
      }
    }

    static predicate Active(s: StreamState) {
      s.Writing? || s.Stopped?
    }

    // A branch is where it was, unless its flush has been acknowledged.
    twostate predicate Answered(b: Branch)
      reads b
    {
      && unchanged(b`autoSelect, b`prio, b`flushWait, b`requests, b`cancels, b`stops, b`resumes, b`overtaken)
      && (unchanged(b`streamState, b`acks) || Acknowledged(b))
    }

    twostate predicate Acknowledged(b: Branch)
      reads b
    {
      && unchanged(b`autoSelect, b`prio, b`flushWait, b`requests, b`cancels, b`stops, b`resumes, b`overtaken)
      && old(b.streamState).Flushing? && b.streamState.Idle? && b.acks == old(b.acks) + 1
    }

    /** The sink has flushed: the flush of the selected branch, if it has one, is acknowledged, and
        an automatically selected branch gives up the selection. */
    method AllSamplesFlushed()
      requires Valid()
      modifies selected, this`selected, this`streamState, this`sinkFlushes
      ensures Valid()
      ensures streamState == if old(streamState).Flushing? then Idle else old(streamState)
      ensures old(selected) == null || !old(selected.streamState).Flushing? ==>
                selected == old(selected) && (selected != null ==> unchanged(selected))
      ensures old(selected) != null && old(selected.streamState).Flushing? ==>
                && Acknowledged(old(selected))
                && selected == if old(selected.autoSelect) then null else old(selected)
      ensures sinkFlushes == old(sinkFlushes)
      decreases Rank(streamState), 2
    {
      if streamState.Flushing? {
        streamState := Idle;
        if selected != null {
          BranchAllSamplesFlushed(selected);
        }
      }
    }

    // Branch::allSamplesFlushed for the selected branch; the selector is already idle.
    method BranchAllSamplesFlushed(b: Branch)
      requires BranchesOK() && Listed() && b == selected && streamState.Idle? && !b.streamState.Stopped?
      modifies b, this`selected, this`streamState, this`sinkFlushes
      ensures Valid() && streamState.Idle? && sinkFlushes == old(sinkFlushes)
      ensures !old(b.streamState).Flushing? ==> selected == b && unchanged(b)
      ensures old(b.streamState).Flushing? ==>
                && Acknowledged(b)
                && selected == if old(b.autoSelect) then null else b
      decreases Rank(streamState), 1
    {
      if b.streamState.Flushing? {
        b.streamState := Idle;
        b.acks := b.acks + 1;
        if b.autoSelect {
          SelectBranch(null);
        }
      }
    }

    // --- Selection ---

    // What a hand-over does to the branch that loses the selection.
    twostate predicate HandedOver(from: Branch?)
      reads from
    {
      from != null ==>
        && from.streamState == (if old(from.streamState.Writing? || from.streamState.Stopped?) then Writing else Idle)
        && from.acks == old(from.acks) + (if old(from.streamState).Flushing? then 1 else 0)
        && from.resumes == old(from.resumes) + (if old(from.streamState).Stopped? then 1 else 0)
        && unchanged(from`autoSelect, from`prio, from`flushWait, from`requests, from`cancels)
        && unchanged(from`stops, from`overtaken)
    }

    /** Hands the selection over. The branch that loses it is let go; the sink is flushed when
        nothing more comes right away. */
    method SelectBranch(branch: Branch?)
      requires BranchesOK() && NoneOK()
      requires branch == selected ==> Synced() && Listed()
      requires branch != null ==> branch in branches
      modifies selected, branch, this`selected, this`streamState, this`sinkFlushes
      ensures Valid() && selected == branch
      ensures branch != null && branch != old(selected) ==> unchanged(branch)
      ensures branch == old(selected) ==>
                (branch != null ==> unchanged(branch)) && streamState == old(streamState)
                  && sinkFlushes == old(sinkFlushes)
      ensures branch != old(selected) ==> HandedOver(old(selected))
      ensures old(selected) != null && old(selected.Eligible()) ==> old(selected).Eligible()
      ensures branch != old(selected) ==>
                sinkFlushes == old(sinkFlushes) +
                if Active(old(streamState)) && (branch == null || old(branch.streamState).Idle?) then 1 else 0
      ensures branch != null && branch != old(selected) && old(branch.streamState).Writing? ==>
                streamState == old(streamState)
      ensures sinkFlushes == old(sinkFlushes) ==> streamState == old(streamState)
      ensures sinkFlushes != old(sinkFlushes) ==> !Active(streamState)
      decreases Rank(streamState), 0
    {
      if branch == selected {
        return;
      }
      var prev := selected;
      selected := branch;
      if prev != null {
        prev.Unselect();
      }
      assert selected == null || selected.Calm();
      if Active(streamState) && (selected == null || selected.streamState.Idle?) {
        streamState := Flushing;
        SinkFlushSamples();
      }
    }

    // The branch that an automatic selection would go to: the first of highest priority.
    ghost predicate IsBest(best: Branch?)
      reads `branches, branches
    {
      && (best == null <==> forall b :: b in branches ==> !b.Eligible())
      && (best != null ==> exists k :: 0 <= k < |branches| && branches[k] == best && Leads(k))
    }

    ghost predicate Leads(k: nat)
      reads `branches, branches
      requires k < |branches|
    {
      && branches[k].Eligible()
      && (forall j :: 0 <= j < |branches| && branches[j].Eligible() ==> branches[j].prio <= branches[k].prio)
      && (forall j :: 0 <= j < k && branches[j].Eligible() ==> branches[j].prio < branches[k].prio)
    }

    // Another branch could take over from this one.
    ghost predicate HasRival(b: Branch)
      reads `branches, branches
    {
      exists x :: x in branches && x != b && x.Eligible()
    }

    // The branch that takes over from one that gives up the selection.
    ghost predicate Succeeds(best: Branch?, b: Branch)
      reads `branches, branches
    {
      && (best == null <==> !HasRival(b))
      && (best != null ==> best in branches && best != b && best.Eligible())
      && (best != null ==> forall x :: x in branches && x != b && x.Eligible() ==> x.prio <= best.prio)
    }

    // The loop of selectHighestPrioActiveBranch.
    method FindBest() returns (best: Branch?)
      ensures IsBest(best)
      ensures best == null <==>
                forall b :: b in branches ==> !(b.autoSelect && (b.streamState.Writing? || b.streamState.Stopped?))
      ensures best != null ==>
                && best in branches && best.autoSelect && (best.streamState.Writing? || best.streamState.Stopped?)
                && forall b :: b in branches && b.autoSelect && (b.streamState.Writing? || b.streamState.Stopped?) ==>
                     b.prio <= best.prio
    {
      best := null;
      ghost var at := 0;
      for i := 0 to |branches|
        invariant best == null ==> forall j :: 0 <= j < i ==> !branches[j].Eligible()
        invariant best != null ==> 0 <= at < i && branches[at] == best && best.Eligible()
        invariant best != null ==> forall j :: 0 <= j < i && branches[j].Eligible() ==> branches[j].prio <= best.prio
        invariant best != null ==> forall j :: 0 <= j < at && branches[j].Eligible() ==> branches[j].prio < best.prio
      {
        var branch := branches[i];
        if branch.autoSelect {
          if (branch.streamState.Writing? || branch.streamState.Stopped?)
             && (best == null || branch.prio > best.prio)
          {
            best, at := branch, i;
          }
        }
      }
      assert best != null ==> Leads(at);
    }

    /** Selects the best candidate. Without one the selection stays, or is cleared on request. */
    method SelectHighestPrioActiveBranch(clearIfNoActive: bool) returns (ghost best: Branch?)
      requires BranchesOK() && NoneOK()
      requires selected == null || selected !in branches || !selected.Eligible()
      modifies branches, selected, this`selected, this`streamState, this`sinkFlushes
      ensures best != null ==> best in old(branches) && best != old(selected)
      ensures best == null <==> old(forall b :: b in branches ==> !b.Eligible())
      ensures old(IsBest(best)) && IsBest(best)
      ensures best != null || clearIfNoActive ==> Valid() && selected == best && HandedOver(old(selected))
      ensures best != null ==> streamState == old(streamState) && sinkFlushes == old(sinkFlushes)
      ensures best == null && !clearIfNoActive ==>
                selected == old(selected) && unchanged(branches)
                && streamState == old(streamState) && sinkFlushes == old(sinkFlushes)
      ensures forall b :: b in branches && b != old(selected) ==> unchanged(b)
    {
      hide IsBest, Leads, Synced, Listed, Branch.LedgerOK, Branch.Calm;
      var candidate := FindBest();
      best := candidate;
      if candidate != null || clearIfNoActive {
        SelectBranch(candidate);
        StillBest(best);
      }
    }

    // A hand-over from a branch that is no candidate changes no candidate.
    twostate lemma StillBest(best: Branch?)
      requires old(IsBest(best)) && branches == old(branches)
      requires forall i :: 0 <= i < |branches| ==>
                 branches[i].prio == old(branches[i].prio) && branches[i].Eligible() == old(branches[i].Eligible())
      ensures IsBest(best)
    {
      if best != null {
        var k :| 0 <= k < |branches| && branches[k] == best && old(Leads(k));
        assert Leads(k);
      }
    }

    // --- Events ---

    /** A write that is not let through is swallowed. An automatic branch takes the selection from
        nobody, or from a branch of lower priority. */
    method WriteSamples(b: Branch, samples: seq<Sample>) returns (n: nat)
      requires Valid() && b in branches && 0 < |samples|
      modifies branches, this`selected, this`streamState, this`sinkFlushes, this`received, this`refusals
      ensures Valid() && n <= |samples|
      // A branch is stopped by the sink only.
      ensures refusals == old(refusals) + if selected == b && n == 0 then 1 else 0
      ensures selected == if old(b.autoSelect && (selected == null || selected.prio < b.prio)) then b else old(selected)
      ensures selected == b ==>
                && received == old(received) + samples[..n]
                && (n == 0 <==> b.streamState.Stopped?) && (n > 0 <==> b.streamState.Writing?)
                && streamState == (if n == 0 then Stopped else Writing)
      ensures selected != b ==>
                n == |samples| && b.streamState.Writing? && received == old(received) && streamState == old(streamState)
      ensures b.cancels == old(b.cancels) + if old(b.streamState).Flushing? then 1 else 0
      ensures b.acks == old(b.acks) && b.resumes == old(b.resumes)
      ensures unchanged(b`autoSelect, b`prio, b`flushWait)
      ensures selected != old(selected) ==> HandedOver(old(selected))
      ensures forall x :: x in branches && x != b && (x != old(selected) || selected == old(selected)) ==> unchanged(x)
    {
      Claim(b);
      n := |samples|;
      if selected == b {
        n := BranchWriteSamples(samples);
        if n == 0 {
          b.Stop();
        }
      }
    }

    // The first half of Branch::writeSamples: who gets to write.
    method Claim(b: Branch)
      requires Valid() && b in branches
      modifies branches, this`selected, this`streamState, this`sinkFlushes
      ensures Valid() && b.streamState.Writing?
      ensures selected == if old(b.autoSelect && (selected == null || selected.prio < b.prio)) then b else old(selected)
      ensures streamState == old(streamState)
      ensures b.cancels == old(b.cancels) + if old(b.streamState).Flushing? then 1 else 0
      ensures b.acks == old(b.acks) && b.resumes == old(b.resumes) && b.requests == old(b.requests)
      ensures unchanged(b`autoSelect, b`prio, b`flushWait)
      ensures selected != old(selected) ==> HandedOver(old(selected))
      ensures forall x :: x in branches && x != b && (x != old(selected) || selected == old(selected)) ==> unchanged(x)
    {
      b.BeginWriting();
      if b.autoSelect && selected != b {
        if selected == null || selected.prio < b.prio {
          SelectBranch(b);
        }
      }
    }

    method BranchWriteSamples(samples: seq<Sample>) returns (n: nat)
      requires 0 < |samples|
      modifies this`streamState, this`received, this`refusals
      ensures n <= |samples| && received == old(received) + samples[..n]
      ensures refusals == old(refusals) + if n == 0 then 1 else 0
      ensures streamState == if n == 0 then Stopped else Writing
    {
      streamState := Writing;
      n := SinkWriteSamples(samples);
      if n == 0 {
        streamState := Stopped;
      }
    }

    // The selected branch has just begun to flush.
    method BranchFlushSamples()
      requires BranchesOK() && NoneOK() && Listed() && selected != null && selected.streamState.Flushing?
      modifies branches, this`selected, this`streamState, this`sinkFlushes
      ensures Valid()
      ensures Answered(old(selected))
      ensures forall b :: b in branches && b != old(selected) ==> unchanged(b)
      // A branch that does not wait for its flush makes way for the best candidate, if there is one.
      ensures old(!selected.flushWait && exists b :: b in branches && b.Eligible()) ==>
                && old(selected).streamState.Idle? && selected != null && selected != old(selected) && IsBest(selected)
                && streamState == old(streamState) && sinkFlushes == old(sinkFlushes)
      ensures !old(!selected.flushWait && exists b :: b in branches && b.Eligible()) ==>
                && (old(streamState).Idle? ==> old(selected).streamState.Idle?)
                && sinkFlushes == old(sinkFlushes) + (if Active(old(streamState)) then 1 else 0)
                && selected ==
                   (if old(selected).streamState.Idle? && old(selected.autoSelect) then null else old(selected))
    {
      hide IsBest;
      var flusher := selected;
      if !selected.flushWait {
        ghost var best;
        best := SelectHighestPrioActiveBranch(false);
      }
      if selected == flusher {
        PassFlushOn();
      }
    }

    // Flushing stays with the selected branch: the sink is asked, unless it has nothing or is
    // flushing already.
    method PassFlushOn()
      requires BranchesOK() && Listed() && selected != null && selected.streamState.Flushing?
      modifies selected, this`selected, this`streamState, this`sinkFlushes
      ensures Valid() && Answered(old(selected))
      ensures old(streamState).Idle? ==> old(selected).streamState.Idle?
      ensures sinkFlushes == old(sinkFlushes) + if Active(old(streamState)) then 1 else 0
      ensures selected == if old(selected).streamState.Idle? && old(selected.autoSelect) then null else old(selected)
    {
      match streamState {
        case Idle =>
          BranchAllSamplesFlushed(selected);
        case Flushing =>
        case _ =>
          streamState := Flushing;
          SinkFlushSamples();
      }
    }

    /** A branch asks to flush. */
    method FlushSamples(b: Branch)
      requires Valid() && b in branches
      modifies branches, this`selected, this`streamState, this`sinkFlushes
      ensures Valid()
      ensures b.requests == old(b.requests) + if old(b.streamState).Flushing? then 0 else 1
      ensures b.streamState.Flushing? || b.streamState.Idle?
      ensures b.acks == old(b.acks) + if old(b.streamState).Flushing? || b.streamState.Flushing? then 0 else 1
      ensures b.streamState.Flushing? ==> b == selected
      ensures old(selected != b || b.streamState.Idle? || b.streamState.Flushing?) ==>
                selected == old(selected) && streamState == old(streamState) && sinkFlushes == old(sinkFlushes)
      // A selected branch makes way if it does not wait and there is a rival, or else takes the sink with it.
      ensures old(selected == b && b.Active() && !b.flushWait && HasRival(b)) ==>
                && b.streamState.Idle? && selected != null && selected != b && IsBest(selected)
                && streamState == old(streamState) && sinkFlushes == old(sinkFlushes)
      ensures old(selected == b && b.Active() && (b.flushWait || !HasRival(b))) ==>
                && sinkFlushes == old(sinkFlushes) + (if Active(old(streamState)) then 1 else 0)
                && selected == (if b.streamState.Idle? && old(b.autoSelect) then null else b)
      ensures forall x :: x in branches && x != b ==> unchanged(x)
    {
      match b.streamState {
        case Idle =>
          b.requests := b.requests + 1;
          b.acks := b.acks + 1;
        case Writing =>
          FlushActive(b);
        case Stopped =>
          FlushActive(b);
        case Flushing =>
      }
    }

    method FlushActive(b: Branch)
      requires Valid() && b in branches && b.Active()
      modifies branches, this`selected, this`streamState, this`sinkFlushes
      ensures Valid() && b.requests == old(b.requests) + 1
      ensures b.streamState.Flushing? || b.streamState.Idle?
      ensures b.acks == old(b.acks) + if b.streamState.Flushing? then 0 else 1
      ensures b.streamState.Flushing? ==> b == selected
      ensures old(selected) != b ==>
                selected == old(selected) && streamState == old(streamState) && sinkFlushes == old(sinkFlushes)
      // A selected branch makes way if it does not wait and there is a rival, or else takes the sink with it.
      ensures old(selected == b && b.Active() && !b.flushWait && HasRival(b)) ==>
                && b.streamState.Idle? && selected != null && selected != b && IsBest(selected)
                && streamState == old(streamState) && sinkFlushes == old(sinkFlushes)
      ensures old(selected == b && b.Active() && (b.flushWait || !HasRival(b))) ==>
                && sinkFlushes == old(sinkFlushes) + (if Active(old(streamState)) then 1 else 0)
                && selected == (if b.streamState.Idle? && old(b.autoSelect) then null else b)
      ensures forall x :: x in branches && x != b ==> unchanged(x)
    {
      if b == selected {
        b.BeginFlushing(true);
        BranchFlushSamples();
      } else {
        b.BeginFlushing(false);
      }
    }

    /** The sink can take samples again: a stopped branch hears of it. */
    method ResumeOutput()
      requires Valid()
      modifies selected, this`streamState
      ensures Valid()
      ensures streamState == if old(streamState).Stopped? then Writing else old(streamState)
      ensures selected != null && old(selected.streamState).Stopped? ==>
                selected.streamState.Writing? && selected.resumes == old(selected.resumes) + 1
      ensures selected != null && !old(selected.streamState).Stopped? ==>
                selected.streamState == old(selected.streamState) && selected.resumes == old(selected.resumes)
    {
      if streamState.Stopped? {
        streamState := Writing;
        assert selected != null;
        selected.ResumeOutput();
      }
    }

    method AddSource() returns (b: Branch)
      requires Valid()
      modifies this`branches
      ensures Valid() && fresh(b) && branches == old(branches) + [b] && b.streamState.Idle?
    {
      b := new Branch();
      branches := branches + [b];
    }

    /** A source that goes away is not left waiting, and the selection passes on. */
    method RemoveSource(i: nat) returns (b: Branch, ghost best: Branch?)
      requires Valid() && i < |branches|
      modifies this`branches, branches, this`selected, this`streamState, this`sinkFlushes
      ensures Valid() && b == old(branches[i]) && branches == old(branches[..i] + branches[i + 1..])
      ensures b.LedgerOK() && b.Calm() && b != selected
      ensures old(selected) != b ==> selected == old(selected) && unchanged(old(branches))
      ensures best != null ==> best in old(branches)
      ensures old(selected) == b ==>
                && selected == best && old(Succeeds(best, b))
                && HandedOver(b) && forall x :: x in branches ==> unchanged(x)
    {
      b := branches[i];
      best := null;
      ghost var all := branches;
      branches := branches[..i] + branches[i + 1..];
      Others(all, i, branches);
      if b == selected {
        best := SelectHighestPrioActiveBranch(true);
      }
    }

    lemma Others(all: seq<Branch>, i: nat, rest: seq<Branch>)
      requires i < |all| && rest == all[..i] + all[i + 1..]
      requires forall j, k :: 0 <= j < k < |all| ==> all[j] != all[k]
      ensures forall x :: x in rest <==> x in all && x != all[i]
    {
    }

    /** Taking a branch out of the automatic selection gives the selection to the best candidate. */
    method DisableAutoSelect(b: Branch) returns (ghost best: Branch?)
      requires Valid() && b in branches
      modifies branches, this`selected, this`streamState, this`sinkFlushes
      ensures Valid() && !b.autoSelect
      ensures old(selected) != b ==> selected == old(selected) && streamState == old(streamState)
      ensures best != null ==> best in old(branches)
      ensures old(selected) == b ==> selected == best && old(Succeeds(best, b))
      // The branch that loses the selection is resumed or its flush acknowledged.
      ensures if old(selected) == b
              then b.streamState == (if old(b.streamState.Writing? || b.streamState.Stopped?) then Writing else Idle)
                && b.acks == old(b.acks) + (if old(b.streamState).Flushing? then 1 else 0)
                && b.resumes == old(b.resumes) + (if old(b.streamState).Stopped? then 1 else 0)
              else b.streamState == old(b.streamState) && b.acks == old(b.acks) && b.resumes == old(b.resumes)
      ensures b.requests == old(b.requests) && b.cancels == old(b.cancels)
      ensures forall x :: x in branches && x != b ==> unchanged(x)
    {
      b.autoSelect := false;
      best := null;
      if b == selected {
        best := SelectHighestPrioActiveBranch(true);
      }
    }
  }

  /** A stopped automatic branch that loses the selection to one of higher priority has not lost its turn:
      when that one flushes without waiting, the selection goes to a branch of at least its priority. */
  method TurnComesBack(s: AudioSelector, a: Branch, b: Branch, samples: seq<Sample>)
    requires s.Valid() && s.selected == a && a in s.branches && b in s.branches && a != b && 0 < |samples|
    requires a.autoSelect && a.streamState.Stopped? && b.autoSelect && a.prio < b.prio && !b.flushWait
    modifies s, s.branches
    ensures s.Valid() && a.streamState.Writing? && a.resumes == old(a.resumes) + 1
    ensures s.selected != null && s.selected != b && a.prio <= s.selected.prio
  {
    hide AudioSelector.Valid;
    var n := s.WriteSamples(b, samples);
    assert a.Eligible() && s.HasRival(b);
    s.FlushSamples(b);
    assert a.Eligible();
    BestLeads(s, s.selected, a);
  }

  lemma BestLeads(s: AudioSelector, best: Branch?, a: Branch)
    requires s.IsBest(best) && a in s.branches && a.Eligible()
    ensures best != null && a.prio <= best.prio
  {
  }

  /** Nobody waits unheard: a source that was told to stop, or whose flush is open, is the selected
      one, and the sink owes the selector the matching callback. */
  lemma NobodyWaitsUnheard(s: AudioSelector, b: Branch)
    requires s.Valid() && b in s.branches
    ensures b.streamState.Stopped? ==> b == s.selected && s.streamState.Stopped?
    ensures b.streamState.Flushing? ==> b == s.selected && s.streamState.Flushing?
    ensures b.requests == b.acks + b.cancels + if b.streamState.Flushing? then 1 else 0
    ensures b.stops == b.resumes + b.overtaken + if b.streamState.Stopped? then 1 else 0
  {
    assert b != s.selected ==> b.Calm();
  }

  // --- Runs ---

  datatype Event =
    | Add
    | Remove(i: nat)
    | Write(i: nat, samples: seq<Sample>)
    | Flush(i: nat)
    | Select(i: nat)
    | SelectNone
    | SetPrio(i: nat, prio: int)
    | EnableAuto(i: nat, prio: int)
    | DisableAuto(i: nat)
    | SetFlushWait(i: nat, wait: bool)
    | Resume
    | Flushed

  // The source asserts that the branch it is asked about exists.
  predicate Possible(s: AudioSelector, e: Event)
    reads s`branches
  {
    match e
    case Write(i, samples) => i < |s.branches| && samples != []
    case Remove(i) => i < |s.branches|
    case Flush(i) => i < |s.branches|
    case Select(i) => i < |s.branches|
    case SetPrio(i, _) => i < |s.branches|
    case EnableAuto(i, _) => i < |s.branches|
    case DisableAuto(i) => i < |s.branches|
    case SetFlushWait(i, _) => i < |s.branches|
    case _ => true
  }

  // Settings take effect on the next write; only leaving the automatic selection acts at once.
  method Configure(s: AudioSelector, e: Event)
    requires s.Valid() && Possible(s, e)
    modifies s.branches
    ensures s.Valid()
  {
    match e {
      case SetPrio(i, prio) => s.branches[i].prio := prio;
      case EnableAuto(i, prio) => s.branches[i].prio, s.branches[i].autoSelect := prio, true;
      case SetFlushWait(i, wait) => s.branches[i].flushWait := wait;
      case _ =>
    }
  }

  method Step(s: AudioSelector, e: Event)
    requires s.Valid() && Possible(s, e)
    modifies s, s.branches
    ensures s.Valid()
    ensures forall b :: b in s.branches && b !in old(s.branches) ==> fresh(b)
  {
    hide AudioSelector.BranchesOK, AudioSelector.NoneOK, AudioSelector.Synced;
    match e {
      case Add => var b := s.AddSource();
      case Remove(i) => ghost var b, best := s.RemoveSource(i);
      case Write(i, samples) => var n := s.WriteSamples(s.branches[i], samples);
      case Flush(i) => s.FlushSamples(s.branches[i]);
      case Select(i) => s.SelectBranch(s.branches[i]);
      case SelectNone => s.SelectBranch(null);
      case DisableAuto(i) =>
        ghost var best := s.DisableAutoSelect(s.branches[i]);
      case Resume => s.ResumeOutput();
      case Flushed => s.AllSamplesFlushed();
      case _ => Configure(s, e);
    }
  }

  /** Every run, whatever the sources, the sink and the user do: no assert of the selector can fail
      on the way, and at the end every stop and every flush is answered, given up by the source
      itself, or waiting for a callback that the sink owes. */
  method Run(events: seq<Event>) returns (s: AudioSelector)
    ensures s.Valid()
    ensures forall b :: b in s.branches ==>
              && (b.streamState.Stopped? ==> b == s.selected && s.streamState.Stopped?)
              && (b.streamState.Flushing? ==> b == s.selected && s.streamState.Flushing?)
              && b.requests == b.acks + b.cancels + (if b.streamState.Flushing? then 1 else 0)
              && b.stops == b.resumes + b.overtaken + (if b.streamState.Stopped? then 1 else 0)
  {
    hide AudioSelector.Valid;
    s := new AudioSelector();
    for k := 0 to |events|
      invariant s.Valid() && fresh(s) && forall i :: 0 <= i < |s.branches| ==> fresh(s.branches[i])
    {
      if Possible(s, events[k]) {
        Step(s, events[k]);
        assert forall i :: 0 <= i < |s.branches| ==> s.branches[i] in s.branches;
      }
    }
    forall b | b in s.branches
      ensures (b.streamState.Stopped? ==> b == s.selected && s.streamState.Stopped?)
              && (b.streamState.Flushing? ==> b == s.selected && s.streamState.Flushing?)
              && b.requests == b.acks + b.cancels + (if b.streamState.Flushing? then 1 else 0)
              && b.stops == b.resumes + b.overtaken + (if b.streamState.Stopped? then 1 else 0)
    {
      NobodyWaitsUnheard(s, b);
    }
  }
}
