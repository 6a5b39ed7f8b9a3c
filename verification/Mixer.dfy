/** AudioMixer: adds up the streams of all active sources, block by block
    (src/async/audio/AsyncAudioMixer.cpp). */
module Mixer {
  import opened AudioPipe
  import opened MixerSource
  import opened MixTrack
  import opened Tally

  class AudioMixer {
    var sources: seq<MixerSrc>
    var outputTimer: bool
    const outbuf: array<Sample>
    var outbufPos: nat
    var outbufCnt: nat
    var isFlushed: bool
    var outputStopped: bool
    const sink: Sink

    // History: the mixed stream, and what each source put into it.
    ghost var produced: seq<Sample>
    ghost var tracks: seq<Track>
    ghost var flushes: nat
    // The sink has been asked to flush, has got no samples since, and has not answered yet.
    ghost var sinkOwes: bool
    // Flushes that came when nobody was going to answer them.
    ghost var unheard: nat

    // All objects that belong to the sources.
    ghost var footprint: set<object>

    ghost predicate Separate()
      reads `sources, `footprint
    {
      && outbuf !in footprint && sink !in footprint && this !in footprint
      && (forall i :: 0 <= i < |sources| ==> sources[i].Repr() <= footprint)
      && (forall i, j :: 0 <= i < j < |sources| ==> sources[i].Repr() !! sources[j].Repr())
    }

    ghost predicate SourcesValid()
      reads `sources, `footprint, footprint
      ensures SourcesValid() ==> Separate()
    {
      Separate() && forall i :: 0 <= i < |sources| ==> sources[i].Valid()
    }

    // Every sample read from a source is in its track, once and in order.
    ghost predicate TracksValid()
      reads `sources, `tracks, `footprint, footprint
      requires Separate()
    {
      |tracks| == |sources| && forall i :: 0 <= i < |sources| ==> SamplesOf(tracks[i]) == sources[i].Read()
    }

    // The mixed stream is what the sink has, followed by what the output buffer still holds.
    ghost predicate OutputValid()
      reads `produced, `outbufPos, `outbufCnt, outbuf, sink
      ensures OutputValid() ==> outbufPos <= outbufCnt <= OUTBUF_SIZE
    {
      && outbuf.Length == OUTBUF_SIZE && outbufPos <= outbufCnt <= OUTBUF_SIZE
      && sink.Valid()
      && produced == sink.received + outbuf[outbufPos..outbufCnt]
    }

    ghost predicate Valid()
      reads this, footprint, outbuf, sink
      ensures Valid() ==> SourcesValid()
    {
      SourcesValid() && TracksValid() && OutputValid() && IsMix(produced, tracks)
    }

    ghost predicate AllDrained()
      reads `sources, `footprint, `outbufPos, `outbufCnt, footprint
      requires SourcesValid()
    {
      outbufPos == outbufCnt && forall i :: 0 <= i < |sources| ==> sources[i].isFlushed && sources[i].Unread() == []
    }

    constructor (sink: Sink)
      requires sink.Valid() && sink.received == []
      ensures Valid() && sources == [] && produced == [] && this.sink == sink && fresh(outbuf)
      ensures isFlushed && !outputStopped && footprint == {} && outbufPos == outbufCnt && Awake()
      ensures Rested() && FlushesHeard() && unheard == 0 && !outputTimer && !sinkOwes
    {
      sources, outputTimer := [], false;
      outbuf := new Sample[OUTBUF_SIZE];
      outbufPos, outbufCnt := 0, 0;
      isFlushed, outputStopped := true, false;
      this.sink := sink;
      produced, tracks, flushes, sinkOwes, unheard, footprint := [], [], 0, false, 0, {};
    }

    method AddSource()
      requires Valid()
      modifies this`sources, this`tracks, this`footprint
      ensures Valid()
      ensures |sources| == |old(sources)| + 1 && sources[..|old(sources)|] == old(sources)
      ensures fresh(sources[|old(sources)|].Repr())
      ensures sources[|old(sources)|].fifo.accepted == []
      ensures old(AllDrained()) ==> AllDrained()
      ensures sources[|old(sources)|].isFlushed && !sources[|old(sources)|].doFlush && !sources[|old(sources)|].owed
      ensures sources[|old(sources)|].Unread() == []
      ensures sources[|old(sources)|].requests == sources[|old(sources)|].answers == 0
      ensures fresh(footprint - old(footprint))
      ensures old(Awake()) ==> Awake()
      ensures (old(Rested()) ==> Rested()) && (old(FlushesHeard()) ==> FlushesHeard())
    {
      hide MixerSrc.Valid, MixerSrc.Core, MixerSrc.Parking, MixerSrc.LedgerOK, SamplesOf, IsMix, Awake, Rested;
      hide FlushesHeard, AllDrained;
      var src := new MixerSrc();
      SilentTrackIsNeutral(produced, tracks);
      SamplesOfSilent(|produced|);
      Enlist(src);
      tracks := tracks + [AllSilent(|produced|)];
    }

    // A source that has nothing to play gives the mixer nothing new to do.
    method Enlist(src: MixerSrc)
      requires SourcesValid() && src.Valid() && src.isFlushed && src.Unread() == [] && !src.owed
      requires src.Repr() !! footprint && outbuf !in src.Repr() && sink !in src.Repr() && this !in src.Repr()
      modifies this`sources, this`footprint
      ensures SourcesValid() && sources == old(sources) + [src] && footprint == old(footprint) + src.Repr()
      ensures old(Awake()) ==> Awake()
      ensures (old(Rested()) ==> Rested()) && (old(FlushesHeard()) ==> FlushesHeard())
      ensures old(AllDrained()) ==> AllDrained()
    {
      hide MixerSrc.Valid, MixerSrc.Core, MixerSrc.Parking, MixerSrc.LedgerOK, MixerSrc.Unread;
      ghost var had := sources;
      footprint := footprint + src.Repr();
      sources := sources + [src];
      assert forall j :: 0 <= j < |had| ==> had[j] == sources[j];
      assert forall j :: 0 <= j < |sources| ==> sources[j] == if j < |had| then had[j] else src;
    }

    method WriteOnce() returns (samplesWritten: nat)
      requires OutputValid() && outbufPos < outbufCnt
      modifies this`outbufPos, this`sinkOwes, sink
      ensures OutputValid() && outbufPos == old(outbufPos) + samplesWritten
      ensures sink.refusals == old(sink.refusals) + if samplesWritten == 0 then 1 else 0
    {
      ghost var rest, before := outbuf[outbufPos..outbufCnt], sink.received;
      samplesWritten := sink.WriteSamples(outbuf[outbufPos..outbufCnt]);
      outbufPos := outbufPos + samplesWritten;
      sinkOwes := false;
      assert before + rest == (before + rest[..samplesWritten]) + rest[samplesWritten..];
    }

    // The loop that empties the output buffer into the sink.
    method WriteOutbuf() returns (samplesWritten: nat)
      requires OutputValid()
      modifies this`outbufPos, this`isFlushed, this`sinkOwes, sink
      ensures OutputValid()
      ensures samplesWritten > 0 ==> outbufPos == outbufCnt
      ensures samplesWritten == 0 ==> outbufPos < outbufCnt
      ensures sink.refusals == old(sink.refusals) + if samplesWritten == 0 then 1 else 0
      ensures isFlushed == (old(isFlushed) && old(outbufPos) == outbufCnt)
      ensures old(outbufPos) == outbufCnt ==> outbufPos == old(outbufPos) && sinkOwes == old(sinkOwes)
    {
      samplesWritten := 1;
      while outbufPos < outbufCnt && samplesWritten > 0
        invariant OutputValid()
        invariant samplesWritten == 0 ==> outbufPos < outbufCnt
        invariant sink.refusals == old(sink.refusals) + if samplesWritten == 0 then 1 else 0
        invariant isFlushed == old(isFlushed) || !isFlushed
        invariant old(outbufPos) <= outbufPos
        invariant samplesWritten == 0 || outbufPos > old(outbufPos) ==> !isFlushed
        invariant samplesWritten > 0 && outbufPos == old(outbufPos) ==> isFlushed == old(isFlushed)
        invariant old(outbufPos) == outbufCnt ==> sinkOwes == old(sinkOwes)
        decreases outbufCnt - outbufPos, samplesWritten
      {
        isFlushed := false;
        samplesWritten := WriteOnce();
      }
    }

    // How many samples every active source can deliver; 0 when there is no active source.
    method SamplesToRead() returns (n: nat)
      requires SourcesValid()
      ensures forall i :: 0 <= i < |sources| && sources[i].IsActive() ==> n <= |sources[i].Unread()|
      ensures n == 0 ==> NothingToRead()
      ensures n > 0 ==> !NothingToRead() && n <= OUTBUF_SIZE
      // It is what the active source with the least has.
      ensures n > 0 ==> exists i :: 0 <= i < |sources| && sources[i].IsActive() && n == |sources[i].Unread()|
    {
      hide MixerSrc.Valid, MixerSrc.Core, MixerSrc.Parking, MixerSrc.LedgerOK, MixerSrc.Unread;
      n := OUTBUF_SIZE + 1;
      for i := 0 to |sources|
        invariant forall j :: 0 <= j < i && sources[j].IsActive() ==> n <= |sources[j].Unread()|
        invariant n <= OUTBUF_SIZE + 1
        invariant n == OUTBUF_SIZE + 1 <==> forall j :: 0 <= j < i ==> !sources[j].IsActive()
        invariant n <= OUTBUF_SIZE ==> exists j :: 0 <= j < i && sources[j].IsActive() && n == |sources[j].Unread()|
      {
        if sources[i].IsActive() {
          var available := sources[i].SamplesInFifo();
          n := Min(n, available);
        }
      }
      if n == OUTBUF_SIZE + 1 {
        n := 0;
      }
    }

    ghost predicate NothingToRead()
      reads `sources, `footprint, footprint
      requires SourcesValid()
    {
      || (forall i :: 0 <= i < |sources| ==> !sources[i].IsActive())
      || (exists i :: 0 <= i < |sources| && sources[i].IsActive() && sources[i].Unread() == [])
    }

    /** There is nothing to read when everything has been read and flushed, or when a source that has not
        flushed has nothing. */
    lemma NothingMeansIdleOrWaiting()
      requires SourcesValid() && NothingToRead()
      ensures || (forall i :: 0 <= i < |sources| ==> sources[i].isFlushed && sources[i].Unread() == [])
              || (exists i :: 0 <= i < |sources| && !sources[i].isFlushed && sources[i].Unread() == [])
    {
      hide MixerSrc.Valid, MixerSrc.Core, MixerSrc.Parking, MixerSrc.LedgerOK, MixerSrc.Unread;
    }

    // No wake-up is lost: the sink or the timer will run the mixer again, or there is nothing to do,
    // and a downstream flush has been issued if one is due.
    ghost predicate Awake()
      reads `sources, `footprint, `outputTimer, `outputStopped, `outbufPos, `outbufCnt, `isFlushed, footprint
      requires SourcesValid()
    {
      outputStopped || outputTimer ||
      (outbufPos == outbufCnt && NothingToRead() && (AllDrained() ==> isFlushed))
    }

    // While the mixer is flushed, every active source has something for it.
    ghost predicate Rested()
      reads `sources, `footprint, `outbufPos, `outbufCnt, `isFlushed, footprint
      requires SourcesValid()
    {
      isFlushed ==>
        outbufPos == outbufCnt && forall i :: 0 <= i < |sources| ==> sources[i].isFlushed || sources[i].Unread() != []
    }

    // A flushed mixer that has nothing left to play and no answer to expect owes its sources none.
    ghost predicate FlushesHeard()
      reads `sources, `footprint, `outbufPos, `outbufCnt, `isFlushed, `sinkOwes, footprint
      requires SourcesValid()
    {
      isFlushed && !sinkOwes && AllDrained() ==> forall i :: 0 <= i < |sources| ==> !sources[i].owed
    }

    lemma NotYetFlushed()
      requires SourcesValid()
      ensures !isFlushed ==> Rested() && FlushesHeard()
      ensures outbufPos < outbufCnt ==> FlushesHeard()
    {
    }

    method CheckFlush()
      requires SourcesValid() && TracksValid() && NothingToRead() && outbufPos == outbufCnt
      modifies this`isFlushed, this`flushes, this`sinkOwes, footprint
      ensures SourcesValid() && TracksValid() && NothingToRead()
      ensures flushes == old(flushes) + if !old(isFlushed) && old(AllDrained()) then 1 else 0
      ensures isFlushed == (old(isFlushed) || old(AllDrained()))
      ensures AllDrained() ==> isFlushed
      ensures old(isFlushed) ==> unchanged(footprint) && sinkOwes == old(sinkOwes)
      ensures (old(Rested()) ==> Rested()) && (old(FlushesHeard()) ==> FlushesHeard())
    {
      hide SourcesValid, TracksValid, NothingToRead, AllDrained, Rested, FlushesHeard;
      if isFlushed {
        return;
      }
      var drained := EverySourceDone();
      if drained {
        isFlushed := true;
        DrainedHasNothing();
        SinkFlushSamples();
        DrainedHasNothing();
      } else {
        NotYetFlushed();
      }
    }

    lemma DrainedHasNothing()
      requires SourcesValid() && AllDrained()
      ensures NothingToRead() && Rested()
    {
      hide MixerSrc.Valid, MixerSrc.Core, MixerSrc.Parking, MixerSrc.LedgerOK, MixerSrc.Unread;
    }

    // The loop of checkFlush.
    method EverySourceDone() returns (done: bool)
      requires SourcesValid() && NothingToRead() && outbufPos == outbufCnt
      ensures done <==> AllDrained()
      ensures done <==> forall i :: 0 <= i < |sources| ==> sources[i].isFlushed && sources[i].Unread() == []
    {
      hide MixerSrc.Valid, MixerSrc.Core, MixerSrc.Parking, MixerSrc.LedgerOK, MixerSrc.Unread;
      for i := 0 to |sources|
        invariant forall j :: 0 <= j < i ==> !sources[j].IsActive() || sources[j].doFlush
      {
        if sources[i].IsActive() && !sources[i].doFlush {
          assert !sources[i].isFlushed || sources[i].Unread() != [];
          return false;
        }
      }
      assert forall j :: 0 <= j < |sources| && sources[j].doFlush ==> sources[j].isFlushed by {
        forall j | 0 <= j < |sources| && sources[j].doFlush ensures sources[j].isFlushed {
          sources[j].FlushingIsFlushed();
        }
      }
      return true;
    }

    // Flushing downstream is only allowed once everything has been played. A sink that holds
    // nothing acknowledges at once.
    method SinkFlushSamples()
      requires SourcesValid() && TracksValid() && AllDrained()
      modifies this`flushes, this`sinkOwes, footprint
      ensures SourcesValid() && TracksValid() && AllDrained() && FlushesHeard()
      ensures flushes == old(flushes) + 1
    {
      hide MixerSrc.Valid, MixerSrc.Core, MixerSrc.Parking, MixerSrc.LedgerOK, MixerSrc.Unread, SamplesOf;
      flushes := flushes + 1;
      sinkOwes := true;
      if * {
        AllSamplesFlushed();
      }
    }

    /** The sink has flushed: every flush that waited for this is answered, except where samples
        are still to be played before it. */
    method AllSamplesFlushed()
      requires SourcesValid()
      modifies this`sinkOwes, footprint
      ensures SourcesValid() && !sinkOwes
      ensures forall i :: 0 <= i < |sources| ==>
                && !sources[i].doFlush
                && sources[i].Read() == old(sources[i].Read())
                && sources[i].Unread() == old(sources[i].Unread())
                && sources[i].isFlushed == old(sources[i].isFlushed)
                && (sources[i].owed <==> old(sources[i].owed) && sources[i].Unread() != [])
                && sources[i].answers ==
                   old(sources[i].answers) + (if old(sources[i].owed) && !sources[i].owed then 1 else 0)
                && (sources[i].Ahead() <==>
                      old(sources[i].Ahead()) || (old(sources[i].doFlush) && sources[i].Unread() != []))
    {
      hide MixerSrc.Valid, MixerSrc.Core, MixerSrc.Parking, MixerSrc.LedgerOK, MixerSrc.Unread;
      for i := 0 to |sources|
        invariant forall j :: 0 <= j < |sources| ==> sources[j].Valid()
        invariant forall j :: i <= j < |sources| ==> unchanged(sources[j].Repr())
        invariant forall j :: 0 <= j < i ==>
                    && !sources[j].doFlush
                    && sources[j].Read() == old(sources[j].Read())
                    && sources[j].Unread() == old(sources[j].Unread())
                    && sources[j].isFlushed == old(sources[j].isFlushed)
                    && (sources[j].owed <==> old(sources[j].owed) && sources[j].Unread() != [])
                    && sources[j].answers ==
                       old(sources[j].answers) + (if old(sources[j].owed) && !sources[j].owed then 1 else 0)
                    && (sources[j].Ahead() <==>
                          old(sources[j].Ahead()) || (old(sources[j].doFlush) && sources[j].Unread() != []))
      {
        sources[i].MixerFlushedAllSamples();
      }
      sinkOwes := false;
    }

    method SourceWrite(i: nat, samples: seq<Sample>) returns (n: nat)
      requires Valid() && i < |sources| && 0 < |samples|
      modifies this`outputTimer, sources[i].Repr()
      ensures Valid() && outputTimer && n <= |samples|
      ensures |old(sources[i].Unread())| < OUTBUF_SIZE ==> 0 < n
      ensures sources[i].fifo.accepted == old(sources[i].fifo.accepted) + samples[..n]
      ensures !sources[i].owed && sources[i].cancels == old(sources[i].cancels) + if old(sources[i].owed) then 1 else 0
      ensures (old(Rested()) ==> Rested()) && FlushesHeard()
    {
      hide MixerSrc.Valid, MixerSrc.Core, MixerSrc.Parking, MixerSrc.LedgerOK, MixerSrc.Unread, SamplesOf, IsMix;
      outputTimer := true;
      n := sources[i].WriteSamples(samples);
    }

    // A flush that nobody will answer: the source has flushed already, and the flushed mixer has
    // neither anything left to play nor an answer to expect.
    ghost predicate Unheard(i: nat)
      reads `sources, `footprint, `outbufPos, `outbufCnt, `isFlushed, `sinkOwes, footprint
      requires SourcesValid() && i < |sources|
    {
      isFlushed && !sinkOwes && AllDrained() && sources[i].doFlush
    }

    method FlushOne(i: nat) returns (wake: bool)
      requires Valid() && i < |sources|
      modifies sources[i].Repr()
      ensures Valid() && sources[i].isFlushed && sources[i].doFlush && wake == (sources[i].Unread() == [])
      ensures sources[i].Unread() == old(sources[i].Unread())
      ensures sources[i].requests == old(sources[i].requests) + if old(sources[i].owed) then 0 else 1
      ensures sources[i].owed <==> !old(sources[i].isFlushed && !sources[i].doFlush && sources[i].Unread() == [])
      ensures sources[i].answers == old(sources[i].answers) + if sources[i].owed then 0 else 1
      ensures (old(Rested()) ==> Rested()) && (old(AllDrained()) ==> AllDrained())
    {
      hide MixerSrc.Valid, MixerSrc.Core, MixerSrc.Parking, MixerSrc.LedgerOK, MixerSrc.Unread, MixerSrc.IsActive;
      hide SamplesOf, IsMix, FlushesHeard, Awake, NothingToRead;
      wake := sources[i].FlushSamples();
    }

    method FlushAndWake(i: nat)
      requires Valid() && i < |sources|
      modifies this`outputTimer, sources[i].Repr()
      ensures Valid() && sources[i].isFlushed && sources[i].doFlush
      ensures sources[i].Unread() == old(sources[i].Unread())
      ensures outputTimer == (old(outputTimer) || sources[i].Unread() == [])
      ensures old(Awake()) ==> Awake()
      ensures sources[i].requests == old(sources[i].requests) + if old(sources[i].owed) then 0 else 1
      ensures sources[i].owed <==> !old(sources[i].isFlushed && !sources[i].doFlush && sources[i].Unread() == [])
      ensures sources[i].answers == old(sources[i].answers) + if sources[i].owed then 0 else 1
      ensures (old(Rested()) ==> Rested()) && (old(AllDrained()) ==> AllDrained())
    {
      hide MixerSrc.Valid, MixerSrc.Core, MixerSrc.Parking, MixerSrc.LedgerOK, MixerSrc.Unread, SamplesOf, IsMix;
      hide Rested, OutputValid, TracksValid, FlushesHeard;
      var wake := FlushOne(i);
      if wake {
        outputTimer := true;
      }
    }

    /** A flush of one source is answered at once if the source is idle and this is its first flush,
        and is owed an answer otherwise. Nobody will give it if and only if it comes as a second
        flush to a mixer that is done. */
    method SourceFlush(i: nat)
      requires Valid() && i < |sources|
      modifies this`outputTimer, this`unheard, sources[i].Repr()
      ensures Valid()
      ensures sources[i].isFlushed && sources[i].doFlush
      ensures outputTimer == (old(outputTimer) || sources[i].Unread() == [])
      ensures old(Awake()) ==> Awake()
      ensures sources[i].requests == old(sources[i].requests) + if old(sources[i].owed) then 0 else 1
      ensures sources[i].owed <==> !old(sources[i].isFlushed && !sources[i].doFlush && sources[i].Unread() == [])
      ensures sources[i].answers == old(sources[i].answers) + if sources[i].owed then 0 else 1
      ensures (old(Rested()) ==> Rested()) && (old(AllDrained()) ==> AllDrained())
      ensures unheard == old(unheard) + if old(Unheard(i)) then 1 else 0
      ensures old(Rested() && FlushesHeard()) ==> (FlushesHeard() <==> !old(Unheard(i)))
    {
      hide MixerSrc.Valid, MixerSrc.Core, MixerSrc.Parking, MixerSrc.LedgerOK, MixerSrc.Unread, SamplesOf, IsMix;
      hide Rested, OutputValid, TracksValid, Awake, NothingToRead, MixerSrc.IsActive;
      if Unheard(i) {
        unheard := unheard + 1;
      }
      ghost var playing := -1;
      if isFlushed && !AllDrained() && Rested() {
        playing := StillToPlay();
      }
      FlushAndWake(i);
      assert playing >= 0 ==> sources[playing].Unread() != [];
    }

    // What keeps a flushed mixer from being done is a source with samples.
    lemma StillToPlay() returns (j: int)
      requires SourcesValid() && isFlushed && Rested() && !AllDrained()
      ensures 0 <= j < |sources| && sources[j].Unread() != []
    {
      j :| 0 <= j < |sources| && (!sources[j].isFlushed || sources[j].Unread() != []);
    }

    method ClearOutbuf()
      modifies outbuf
      ensures forall k :: 0 <= k < outbuf.Length ==> outbuf[k] == 0.0
    {
      for i := 0 to outbuf.Length
        invariant forall k :: 0 <= k < i ==> outbuf[k] == 0.0
      {
        outbuf[i] := 0.0;
      }
    }

    // Adds a block onto the output buffer.
    method MixIn(block: seq<Sample>)
      requires |block| <= outbuf.Length
      modifies outbuf
      ensures forall k :: 0 <= k < |block| ==> outbuf[k] == old(outbuf[k]) + block[k]
    {
      for i := 0 to |block|
        invariant forall k :: 0 <= k < i ==> outbuf[k] == old(outbuf[k]) + block[k]
        invariant forall k :: i <= k < outbuf.Length ==> outbuf[k] == old(outbuf[k])
      {
        outbuf[i] := outbuf[i] + block[i];
      }
    }

    // The part that one source plays in a block of n samples: its next n samples, if it is active.
    ghost function Share(src: MixerSrc, n: nat): (t: Track)
      requires src.Valid() && (src.IsActive() ==> n <= |src.Unread()|)
      reads src, src.fifo, src.ring, src.reader
      ensures |t| == n
    {
      if src.IsActive() then AllPlayed(src.Unread()[..n]) else AllSilent(n)
    }

    method ReadSource(src: MixerSrc, n: nat) returns (ghost part: Track)
      requires src.Valid() && 0 < n <= outbuf.Length
      requires src.IsActive() ==> n <= |src.Unread()|
      requires outbuf !in src.Repr()
      modifies src.Repr(), outbuf
      ensures src.Valid() && part == old(Share(src, n))
      ensures src.Read() == old(src.Read()) + SamplesOf(part)
      ensures src.Unread() == if old(src.IsActive()) then old(src.Unread())[n..] else old(src.Unread())
      ensures forall k :: 0 <= k < n ==> outbuf[k] == old(outbuf[k]) + Level(part[k])
      ensures src.isFlushed == old(src.isFlushed) && src.doFlush == old(src.doFlush)
    {
      hide MixerSrc.Valid, MixerSrc.Core, MixerSrc.Parking, MixerSrc.LedgerOK, MixerSrc.Unread, SamplesOf;
      part := Share(src, n);
      if src.IsActive() {
        SamplesOfPlayed(src.Unread()[..n]);
        var tmp := src.ReadSamples(n);
        MixIn(tmp);
      } else {
        SamplesOfSilent(n);
      }
    }

    method ReadAndMix(src: MixerSrc, n: nat, ghost parts: seq<Track>) returns (ghost part: Track)
      requires src.Valid() && 0 < n <= outbuf.Length
      requires src.IsActive() ==> n <= |src.Unread()|
      requires outbuf !in src.Repr() && IsMix(outbuf[..n], parts)
      modifies src.Repr(), outbuf
      ensures src.Valid() && part == old(Share(src, n)) && IsMix(outbuf[..n], parts + [part])
      ensures src.Read() == old(src.Read()) + SamplesOf(part)
      ensures src.Unread() == if old(src.IsActive()) then old(src.Unread())[n..] else old(src.Unread())
    {
      hide MixerSrc.Valid, MixerSrc.Core, MixerSrc.Parking, MixerSrc.LedgerOK, MixerSrc.Unread, MixerSrc.IsActive;
      hide SamplesOf, IsMix, Share;
      ghost var block := outbuf[..n];
      part := ReadSource(src, n);
      MixOneMore(block, parts, part, outbuf[..n]);
    }

    // What reading one source has done to it.
    ghost predicate Gave(
      src: MixerSrc, part: Track, share: Track, read: seq<Sample>, unread: seq<Sample>, active: bool, n: nat)
      reads src, src.fifo, src.ring, src.reader
      requires src.Valid()
    {
      && part == share && src.Read() == read + SamplesOf(part)
      && (active ==> n <= |unread| && src.Unread() == unread[n..])
      && (!active ==> src.Unread() == unread)
    }

    method ReadNext(src: MixerSrc, n: nat, ghost parts: seq<Track>) returns (ghost part: Track)
      requires src.Valid() && 0 < n <= outbuf.Length
      requires src.IsActive() ==> n <= |src.Unread()|
      requires outbuf !in src.Repr() && IsMix(outbuf[..n], parts)
      modifies src.Repr(), outbuf
      ensures src.Valid() && IsMix(outbuf[..n], parts + [part])
      ensures Gave(src, part, old(Share(src, n)), old(src.Read()), old(src.Unread()), old(src.IsActive()), n)
    {
      hide MixerSrc.Valid, MixerSrc.Core, MixerSrc.Parking, MixerSrc.LedgerOK, MixerSrc.Unread, MixerSrc.IsActive;
      hide SamplesOf, IsMix, Share;
      part := ReadAndMix(src, n, parts);
    }

    // The loop of readBlock.
    method ReadAll(n: nat) returns (ghost parts: seq<Track>)
      requires SourcesValid() && 0 < n <= outbuf.Length
      requires forall i :: 0 <= i < |sources| && sources[i].IsActive() ==> n <= |sources[i].Unread()|
      modifies footprint, outbuf
      ensures SourcesValid()
      ensures IsMix(outbuf[..n], parts) && |parts| == |sources|
      ensures forall i :: 0 <= i < |sources| ==>
                Gave(sources[i], parts[i], old(Share(sources[i], n)), old(sources[i].Read()),
                     old(sources[i].Unread()), old(sources[i].IsActive()), n)
    {
      hide MixerSrc.Valid, MixerSrc.Core, MixerSrc.Parking, MixerSrc.LedgerOK, MixerSrc.Unread;
      hide MixerSrc.IsActive, SamplesOf, IsMix, Share, Gave;
      ClearOutbuf();
      parts := [];
      SilenceIsEmptyMix(outbuf[..n]);
      for i := 0 to |sources|
        invariant |parts| == i
        invariant forall j :: 0 <= j < |sources| ==> sources[j].Valid()
        invariant forall j :: i <= j < |sources| ==> unchanged(sources[j].Repr())
        invariant forall j :: 0 <= j < i ==>
                    Gave(sources[j], parts[j], old(Share(sources[j], n)), old(sources[j].Read()),
                         old(sources[j].Unread()), old(sources[j].IsActive()), n)
        invariant IsMix(outbuf[..n], parts)
      {
        ghost var part;
        part := ReadNext(sources[i], n, parts);
        parts := parts + [part];
      }
    }

    /** Fills the output buffer with the sum of one block from every active source. */
    method ReadBlock(n: nat) returns (ghost parts: seq<Track>)
      requires SourcesValid() && 0 < n <= outbuf.Length
      requires forall i :: 0 <= i < |sources| && sources[i].IsActive() ==> n <= |sources[i].Unread()|
      modifies footprint, outbuf
      ensures SourcesValid()
      ensures IsMix(outbuf[..n], parts) && |parts| == |sources|
      ensures forall i :: 0 <= i < |sources| ==> parts[i] == old(Share(sources[i], n))
      ensures forall i :: 0 <= i < |sources| ==> sources[i].Read() == old(sources[i].Read()) + SamplesOf(parts[i])
      ensures forall i :: 0 <= i < |sources| ==>
                sources[i].Unread() ==
                if old(sources[i].IsActive()) then old(sources[i].Unread())[n..] else old(sources[i].Unread())
    {
      hide MixerSrc.Valid, MixerSrc.Core, MixerSrc.Parking, MixerSrc.LedgerOK, MixerSrc.Unread;
      hide MixerSrc.IsActive, SamplesOf, IsMix, Share;
      parts := ReadAll(n);
    }

    // What the sources have buffered in all.
    ghost function Backlog(): nat
      reads `sources, `footprint, footprint
      requires SourcesValid()
    {
      Sum(Levels())
    }

    ghost function Levels(): (s: seq<nat>)
      reads `sources, `footprint, footprint
      requires SourcesValid()
      ensures |s| == |sources| && forall i :: 0 <= i < |sources| ==> s[i] == |sources[i].Unread()|
    {
      var srcs, fp := sources, footprint;
      seq(|srcs|, i requires 0 <= i < |srcs| && srcs[i].Repr() <= fp && srcs[i].Valid() reads fp
        => |srcs[i].Unread()|)
    }

    // Reading a block makes the backlog smaller.
    method ReadSomething(n: nat) returns (ghost parts: seq<Track>)
      requires SourcesValid() && 0 < n <= outbuf.Length
      requires forall i :: 0 <= i < |sources| && sources[i].IsActive() ==> n <= |sources[i].Unread()|
      requires !NothingToRead()
      modifies footprint, outbuf
      ensures SourcesValid()
      ensures IsMix(outbuf[..n], parts) && |parts| == |sources|
      ensures forall i :: 0 <= i < |sources| ==> parts[i] == old(Share(sources[i], n))
      ensures forall i :: 0 <= i < |sources| ==> sources[i].Read() == old(sources[i].Read()) + SamplesOf(parts[i])
      ensures Backlog() < old(Backlog())
    {
      hide MixerSrc.Valid, MixerSrc.Core, MixerSrc.Parking, MixerSrc.LedgerOK, MixerSrc.Unread;
      hide MixerSrc.IsActive, SamplesOf, IsMix, Share, Levels;
      ghost var levels := Levels();
      ghost var i :| 0 <= i < |sources| && sources[i].IsActive();
      parts := ReadBlock(n);
      assert Levels()[i] < levels[i];
      SumDrops(levels, Levels());
    }

    // One block: every active source gives its next n samples, and they are played together.
    method FillOutbuf(n: nat)
      requires Valid() && outbufPos == outbufCnt && 0 < n <= OUTBUF_SIZE
      requires forall i :: 0 <= i < |sources| && sources[i].IsActive() ==> n <= |sources[i].Unread()|
      requires !NothingToRead()
      modifies footprint, outbuf, this`outbufPos, this`outbufCnt, this`produced, this`tracks
      ensures Valid() && outbufPos == 0 && outbufCnt == n && |produced| == |old(produced)| + n
      ensures old(produced) <= produced
      ensures forall i :: 0 <= i < |sources| ==> tracks[i] == old(tracks[i]) + old(Share(sources[i], n))
      ensures Backlog() < old(Backlog())
    {
      hide MixerSrc.Valid, MixerSrc.Core, MixerSrc.Parking, MixerSrc.LedgerOK, MixerSrc.Unread;
      hide MixerSrc.IsActive, SamplesOf, IsMix, Share, NothingToRead, Backlog, Aligned;
      ghost var parts;
      parts := ReadSomething(n);
      ghost var joined := Join(tracks, parts);
      MixAppends(produced, tracks, outbuf[..n], parts, joined);
      forall i | 0 <= i < |sources| ensures SamplesOf(joined[i]) == sources[i].Read() {
        SamplesOfAppend(tracks[i], parts[i]);
      }
      outbufPos := 0;
      outbufCnt := n;
      produced := produced + outbuf[..n];
      tracks := joined;
    }

    lemma DrainedIsDone()
      requires SourcesValid()
      ensures AllDrained() ==> outbufPos == outbufCnt && NothingToRead()
    {
      hide MixerSrc.Valid, MixerSrc.Core, MixerSrc.Parking, MixerSrc.LedgerOK, MixerSrc.Unread;
    }

    // One round of the loop of outputHandler; it is the last if there is nothing more to read.
    method PlayRound() returns (samplesWritten: nat, done: bool)
      requires Valid() && (outbufPos < outbufCnt || Rested())
      modifies this`outbufPos, this`outbufCnt, this`isFlushed
      modifies this`produced, this`tracks, this`flushes, this`sinkOwes, footprint, outbuf, sink
      ensures Valid() && old(produced) <= produced && (old(FlushesHeard()) ==> FlushesHeard())
      ensures old(isFlushed && AllDrained()) ==>
                done && isFlushed && AllDrained() && unchanged(footprint) && sinkOwes == old(sinkOwes)
      ensures done ==> outbufPos == outbufCnt && NothingToRead() && (AllDrained() ==> isFlushed) && Rested()
      ensures !done ==> outbufPos < outbufCnt
      ensures !done && samplesWritten > 0 ==> Backlog() < old(Backlog())
      ensures samplesWritten == 0 ==> !done && Rested() && Backlog() == old(Backlog())
      ensures sink.refusals == old(sink.refusals) + if samplesWritten == 0 then 1 else 0
    {
      hide MixerSrc.Valid, MixerSrc.Core, MixerSrc.Parking, MixerSrc.LedgerOK, MixerSrc.Unread, MixerSrc.IsActive;
      hide SamplesOf, IsMix;
      hide SourcesValid, TracksValid, OutputValid, NothingToRead, Backlog, AllDrained, Rested, FlushesHeard;
      done := false;
      DrainedIsDone();
      samplesWritten := WriteOutbuf();
      NotYetFlushed();
      DrainedIsDone();
      if outbufPos >= outbufCnt {
        var samplesToRead := SamplesToRead();
        DrainedIsDone();
        if samplesToRead == 0 {
          CheckFlush();
          done := true;
        } else {
          FillOutbuf(samplesToRead);
          NotYetFlushed();
        }
      }
    }

    /** Plays everything that can be played now: on return the sink holds the mixer back, or the
        output buffer is empty and some active source has nothing more to give. */
    method OutputHandler()
      requires Valid() && Rested()
      modifies this`outputTimer, this`outbufPos, this`outbufCnt, this`isFlushed, this`outputStopped
      modifies this`produced, this`tracks, this`flushes, this`sinkOwes, footprint, outbuf, sink
      ensures Valid() && Rested() && old(produced) <= produced && (old(FlushesHeard()) ==> FlushesHeard())
      // A mixer that is done stays as it is.
      ensures old(isFlushed && AllDrained()) ==>
                isFlushed && AllDrained() && unchanged(footprint) && sinkOwes == old(sinkOwes)
      ensures old(outputStopped) ==> outputStopped && unchanged(`produced, `flushes, `outbufPos, `outbufCnt)
      ensures !old(outputStopped) && outputStopped ==> outbufPos < outbufCnt
      // The mixer is held back by the sink only.
      ensures sink.refusals == old(sink.refusals) + if outputStopped && !old(outputStopped) then 1 else 0
      ensures !outputStopped ==> outbufPos == outbufCnt && NothingToRead() && (AllDrained() ==> isFlushed)
      ensures !outputStopped ==>
                || (forall i :: 0 <= i < |sources| ==> sources[i].isFlushed && sources[i].Unread() == [])
                || (exists i :: 0 <= i < |sources| && !sources[i].isFlushed && sources[i].Unread() == [])
    {
      hide SourcesValid, TracksValid, OutputValid, NothingToRead, Backlog, AllDrained, Rested, FlushesHeard, IsMix;
      outputTimer := false;
      if outputStopped {
        return;
      }
      var samplesWritten, done := 1, false;
      while samplesWritten > 0 && !done
        invariant Valid() && old(produced) <= produced && (old(FlushesHeard()) ==> FlushesHeard())
        invariant old(isFlushed && AllDrained()) ==>
                    isFlushed && AllDrained() && unchanged(footprint) && sinkOwes == old(sinkOwes)
        invariant done ==>
                    outbufPos == outbufCnt && NothingToRead() && (AllDrained() ==> isFlushed) && samplesWritten > 0
        invariant samplesWritten == 0 ==> outbufPos < outbufCnt
        invariant sink.refusals == old(sink.refusals) + if samplesWritten == 0 then 1 else 0
        invariant done || samplesWritten == 0 || outbufPos == outbufCnt ==> Rested()
        decreases !done, Backlog(), samplesWritten
      {
        samplesWritten, done := PlayRound();
      }
      outputStopped := samplesWritten == 0;
      if !outputStopped {
        NothingMeansIdleOrWaiting();
      }
    }

    method ResumeOutput()
      requires Valid() && Rested()
      modifies this`outputTimer, this`outbufPos, this`outbufCnt, this`isFlushed, this`outputStopped
      modifies this`produced, this`tracks, this`flushes, this`sinkOwes, footprint, outbuf, sink
      ensures Valid() && Rested() && old(produced) <= produced && (old(FlushesHeard()) ==> FlushesHeard())
      // A mixer that is done stays as it is.
      ensures old(isFlushed && AllDrained()) ==>
                isFlushed && AllDrained() && unchanged(footprint) && sinkOwes == old(sinkOwes)
      ensures outputStopped ==> outbufPos < outbufCnt
      ensures sink.refusals == old(sink.refusals) + if outputStopped then 1 else 0
      ensures !outputStopped ==> outbufPos == outbufCnt && NothingToRead() && (AllDrained() ==> isFlushed)
    {
      hide MixerSrc.Valid, MixerSrc.Core, MixerSrc.Parking, MixerSrc.LedgerOK, SourcesValid, TracksValid;
      hide OutputValid, IsMix, AllDrained;
      outputStopped := false;
      OutputHandler();
    }
  }

  /** What the sink has received, with the rest of the output buffer, is the sum over all sources of
      one sample each at every position where they were active; and what a source has played that
      way, with what it still has buffered, is everything it has accepted. */
  lemma MixIsFaithful(m: AudioMixer)
    requires m.Valid()
    ensures IsMix(m.sink.received + m.outbuf[m.outbufPos..m.outbufCnt], m.tracks)
    ensures forall i :: 0 <= i < |m.sources| ==>
              m.sources[i].fifo.accepted == SamplesOf(m.tracks[i]) + m.sources[i].Unread()
  {
    hide MixerSrc.Valid, MixerSrc.Core, MixerSrc.Parking, MixerSrc.LedgerOK, MixerSrc.Unread, SamplesOf, IsMix;
    forall i | 0 <= i < |m.sources|
      ensures m.sources[i].fifo.accepted == SamplesOf(m.tracks[i]) + m.sources[i].Unread()
    {
      m.sources[i].Conserves();
    }
  }

  /** Where no flush has come unheard, a flush that is owed an answer waits for the sink, for the
      mixer to go on, or for a source that is active and has nothing to play. */
  lemma FlushIsAttended(m: AudioMixer, i: nat)
    requires m.Valid() && m.Awake() && m.FlushesHeard() && i < |m.sources| && m.sources[i].owed
    ensures || m.sinkOwes || m.outputStopped || m.outputTimer
            || exists j :: 0 <= j < |m.sources| && m.sources[j].IsActive() && m.sources[j].Unread() == []
  {
    hide MixerSrc.Valid, MixerSrc.Core, MixerSrc.Parking, MixerSrc.LedgerOK, MixerSrc.Unread, SamplesOf, IsMix;
    if forall j :: 0 <= j < |m.sources| ==> !m.sources[j].IsActive() {
      assert m.outbufPos == m.outbufCnt ==> m.AllDrained();
    }
  }

  // --- Runs ---

  datatype Event =
    | Write(i: nat, samples: seq<Sample>)
    | Flush(i: nat)
    | Timer
    | Resume
    | Flushed

  // Between two events.
  ghost predicate Between(m: AudioMixer)
    reads m, m.footprint, m.outbuf, m.sink
    ensures Between(m) ==> m.Valid()
  {
    && m.Valid() && m.Awake() && m.Rested()
    && (m.outputStopped ==> m.outbufPos < m.outbufCnt)
    && (m.unheard == 0 ==> m.FlushesHeard())
  }

  method Step(m: AudioMixer, e: Event)
    requires Between(m)
    modifies m, m.footprint, m.outbuf, m.sink
    ensures Between(m)
    ensures m.sources == old(m.sources) && m.footprint == old(m.footprint)
    ensures old(m.produced) <= m.produced
    ensures m.unheard == old(m.unheard) +
              if e.Flush? && e.i < |m.sources| && old(m.Unheard(e.i)) then 1 else 0
  {
    hide MixerSrc.Valid, MixerSrc.Core, MixerSrc.Parking, MixerSrc.LedgerOK, MixerSrc.Unread, SamplesOf, IsMix;
    match e {
      case Write(i, samples) =>
        if i < |m.sources| && samples != [] {
          var n := m.SourceWrite(i, samples);
        }
      case Flush(i) =>
        if i < |m.sources| {
          m.SourceFlush(i);
        }
      case Timer =>
        if m.outputTimer {
          m.OutputHandler();
        }
      case Resume =>
        m.ResumeOutput();
      case Flushed =>
        m.AllSamplesFlushed();
    }
  }

  /** Every run of a mixer with any number of sources plays the pointwise sum, and never falls
      asleep with something left to play or to flush downstream. Every flush of a source is
      answered once, given up by a write, or still owed an answer; and unless some flush has come
      unheard, whoever is owed one waits for the sink, for the mixer to go on, or for a source that
      is active and has nothing to play. */
  method Run(sourceCount: nat, events: seq<Event>) returns (m: AudioMixer)
    ensures m.Valid() && m.Awake() && |m.sources| == sourceCount
    ensures IsMix(m.sink.received + m.outbuf[m.outbufPos..m.outbufCnt], m.tracks)
    ensures forall i :: 0 <= i < sourceCount ==>
              m.sources[i].fifo.accepted == SamplesOf(m.tracks[i]) + m.sources[i].Unread()
    ensures forall i :: 0 <= i < sourceCount ==>
              m.sources[i].requests == m.sources[i].answers + m.sources[i].cancels + if m.sources[i].owed then 1 else 0
    ensures forall i :: 0 <= i < sourceCount ==>
              m.sources[i].jumps == m.sources[i].early + m.sources[i].undone + if m.sources[i].Ahead() then 1 else 0
    ensures m.unheard == 0 && (exists i :: 0 <= i < sourceCount && m.sources[i].owed) ==>
              || m.sinkOwes || m.outputStopped || m.outputTimer
              || exists j :: 0 <= j < sourceCount && m.sources[j].IsActive() && m.sources[j].Unread() == []
  {
    hide MixerSrc.Valid, MixerSrc.Unread, SamplesOf, IsMix, AudioMixer.Valid, AudioMixer.Awake;
    hide AudioMixer.Rested, AudioMixer.FlushesHeard, Between, MixerSrc.Core, MixerSrc.Parking;
    var sink := new Sink(false);
    m := new AudioMixer(sink);
    StartsBetween(m);
    while |m.sources| < sourceCount
      invariant Between(m) && fresh(m) && fresh(m.outbuf) && fresh(m.sink) && fresh(m.footprint)
      invariant |m.sources| <= sourceCount
    {
      AddSource(m);
    }
    for k := 0 to |events|
      invariant Between(m) && fresh(m) && fresh(m.outbuf) && fresh(m.sink) && fresh(m.footprint)
      invariant |m.sources| == sourceCount
    {
      Step(m, events[k]);
    }
    Conclude(m);
  }

  lemma StartsBetween(m: AudioMixer)
    requires m.Valid() && m.Awake() && m.Rested() && m.FlushesHeard() && !m.outputStopped
    ensures Between(m)
  {
  }

  method AddSource(m: AudioMixer)
    requires Between(m)
    modifies m
    ensures Between(m) && |m.sources| == |old(m.sources)| + 1 && fresh(m.footprint - old(m.footprint))
    ensures m.sources[..|old(m.sources)|] == old(m.sources)
  {
    hide MixerSrc.Valid, MixerSrc.Core, MixerSrc.Parking, MixerSrc.Unread, SamplesOf, IsMix;
    hide AudioMixer.Awake, AudioMixer.Rested, AudioMixer.FlushesHeard;
    m.AddSource();
  }

  lemma Conclude(m: AudioMixer)
    requires Between(m)
    ensures m.Awake() && IsMix(m.sink.received + m.outbuf[m.outbufPos..m.outbufCnt], m.tracks)
    ensures forall i :: 0 <= i < |m.sources| ==>
              m.sources[i].fifo.accepted == SamplesOf(m.tracks[i]) + m.sources[i].Unread()
    ensures forall i :: 0 <= i < |m.sources| ==>
              m.sources[i].requests == m.sources[i].answers + m.sources[i].cancels + if m.sources[i].owed then 1 else 0
    ensures forall i :: 0 <= i < |m.sources| ==>
              m.sources[i].jumps == m.sources[i].early + m.sources[i].undone + if m.sources[i].Ahead() then 1 else 0
    ensures m.unheard == 0 && (exists i :: 0 <= i < |m.sources| && m.sources[i].owed) ==>
              || m.sinkOwes || m.outputStopped || m.outputTimer
              || exists j :: 0 <= j < |m.sources| && m.sources[j].IsActive() && m.sources[j].Unread() == []
  {
    hide MixerSrc.Parking, MixerSrc.Unread, SamplesOf, IsMix, AudioMixer.Awake, AudioMixer.Rested;
    hide AudioMixer.FlushesHeard;
    MixIsFaithful(m);
    if m.unheard == 0 && exists i :: 0 <= i < |m.sources| && m.sources[i].owed {
      var i :| 0 <= i < |m.sources| && m.sources[i].owed;
      FlushIsAttended(m, i);
    }
  }

  // What still happens when no source writes and the sink has nothing to answer.
  datatype Idling = TimerFires | FlushAgain(i: nat)

  /** A flush that came unheard stays unanswered: neither the timer nor any further flush of any
      source changes that. */
  method StaysUnheard(m: AudioMixer, i: nat, events: seq<Idling>)
    requires Between(m) && i < |m.sources| && m.sources[i].owed
    requires m.isFlushed && m.AllDrained() && !m.sinkOwes
    modifies m, m.footprint, m.outbuf, m.sink
    ensures Between(m) && m.sources == old(m.sources) && !m.sinkOwes && !m.outputStopped
    ensures m.sources[i].owed && m.sources[i].answers == old(m.sources[i].answers)
    ensures m.sources[i].requests == old(m.sources[i].requests)
  {
    hide Between, AudioMixer.AllDrained, AudioMixer.Valid;
    BetweenParts(m);
    for k := 0 to |events|
      invariant Between(m) && m.sources == old(m.sources) && m.footprint == old(m.footprint)
      invariant m.isFlushed && m.AllDrained() && !m.sinkOwes && !m.outputStopped
      invariant m.sources[i].owed && m.sources[i].answers == old(m.sources[i].answers)
      invariant m.sources[i].requests == old(m.sources[i].requests)
    {
      Idle(m, i, events[k]);
    }
  }

  lemma BetweenParts(m: AudioMixer)
    requires Between(m) && m.AllDrained()
    ensures !m.outputStopped
  {
  }

  method Idle(m: AudioMixer, i: nat, e: Idling)
    requires Between(m) && i < |m.sources| && m.sources[i].owed
    requires m.isFlushed && m.AllDrained() && !m.sinkOwes && !m.outputStopped
    modifies m, m.footprint, m.outbuf, m.sink
    ensures Between(m) && m.sources == old(m.sources) && m.footprint == old(m.footprint)
    ensures m.isFlushed && m.AllDrained() && !m.sinkOwes && !m.outputStopped
    ensures m.sources[i].owed && m.sources[i].answers == old(m.sources[i].answers)
    ensures m.sources[i].requests == old(m.sources[i].requests)
  {
    hide MixerSrc.Parking, MixerSrc.LedgerOK, MixerSrc.Unread, SamplesOf, IsMix;
    match e {
      case TimerFires =>
        m.OutputHandler();
      case FlushAgain(j) =>
        if j < |m.sources| {
          DrainedSource(m, i);
          m.SourceFlush(j);
        }
    }
  }

  lemma DrainedSource(m: AudioMixer, i: nat)
    requires m.Valid() && m.AllDrained() && i < |m.sources| && m.sources[i].owed
    ensures m.sources[i].doFlush
  {
    hide MixerSrc.Valid, MixerSrc.Core, MixerSrc.Parking, MixerSrc.Unread;
    m.sources[i].OwedWaitsForMixer();
  }

  // A mixer with one source that has never written anything.
  method Unused() returns (m: AudioMixer)
    ensures Between(m) && |m.sources| == 1 && m.isFlushed && m.AllDrained() && !m.sinkOwes && !m.outputStopped
    ensures m.sources[0].isFlushed && !m.sources[0].doFlush && !m.sources[0].owed && m.sources[0].Unread() == []
    ensures m.sources[0].requests == m.sources[0].answers == 0
    ensures fresh(m) && fresh(m.outbuf) && fresh(m.sink) && fresh(m.footprint)
  {
    hide MixerSrc.Parking, MixerSrc.Unread, SamplesOf, IsMix, AudioMixer.Awake, AudioMixer.Rested;
    hide AudioMixer.FlushesHeard;
    var sink := new Sink(false);
    m := new AudioMixer(sink);
    m.AddSource();
  }

  /** Two flushes of a source that has never written anything are enough: the first is answered at
      once, the second never. */
  method SecondFlush(events: seq<Idling>) returns (m: AudioMixer)
    ensures Between(m) && |m.sources| == 1
    ensures m.sources[0].requests == 2 && m.sources[0].answers == 1 && m.sources[0].owed && !m.sinkOwes
  {
    hide MixerSrc.Parking, MixerSrc.Unread, SamplesOf, IsMix, AudioMixer.Awake, AudioMixer.Rested;
    hide AudioMixer.FlushesHeard;
    m := Unused();
    m.SourceFlush(0);
    m.SourceFlush(0);
    StaysUnheard(m, 0, events);
  }
}
