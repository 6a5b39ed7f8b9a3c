/** AudioJitterFifo: a ring buffer that evens out an irregular source by prebuffering, padding with
    silence while it does, and dropping half of a full ring
    (src/async/audio/AsyncAudioJitterFifo.cpp). */
module JitterFifo {
  import opened AudioPipe
  import opened Ring
  import opened Fates
  import opened MixTrack

  const MAX_WRITE_SIZE: nat := 800
  const UNSIGNED_RANGE: nat := 0x1_0000_0000

  // --- What the overflow rule keeps ---

  // How many of the newest samples are in a ring that `total` samples have been stored in.
  function Kept(total: nat, size: nat): (n: nat)
    requires 2 <= size
    ensures n < size && n <= total
    ensures total >= size ==> n >= size - size / 2
  {
    if total < size then total else size - size / 2 + (total - size) % (size / 2)
  }

  // One more sample is one more kept, until the ring is full and its older half goes.
  lemma KeptStep(total: nat, size: nat)
    requires 2 <= size
    ensures Kept(total + 1, size) ==
            if Kept(total, size) + 1 < size then Kept(total, size) + 1 else Kept(total, size) + 1 - size / 2
  {
    var h := size / 2;
    if total >= size {
      var q, r := (total - size) / h, (total - size) % h;
      assert total - size == h * q + r;
      if r + 1 < h {
        DivModUnique(total + 1 - size, h, q, r + 1);
      } else {
        assert h * (q + 1) == h * q + h;
        DivModUnique(total + 1 - size, h, q + 1, 0);
      }
    } else {
      DivModUnique(0, h, 0, 0);
    }
  }

  function Newest(s: seq<Sample>, n: nat): (r: seq<Sample>)
    requires n <= |s|
    ensures |r| == n
  {
    s[|s| - n..]
  }

  lemma NewestStep(all: seq<Sample>, x: Sample, size: nat)
    requires 2 <= size
    ensures |all + [x]| == |all| + 1
    ensures var was := Newest(all, Kept(|all|, size)) + [x];
            Newest(all + [x], Kept(|all| + 1, size)) == if |was| < size then was else was[size / 2..]
  {
    KeptStep(|all|, size);
  }

  lemma KeptSome(total: nat, size: nat)
    requires 2 <= size
    ensures 0 < total ==> 0 < Kept(total, size)
  {
  }

  lemma NewestIsAll(s: seq<Sample>)
    ensures Newest(s, |s|) == s
  {
  }

  // --- How much silence one prebuffering pass writes ---

  function Timeout(size: nat): nat {
    size * 16 % UNSIGNED_RANGE / MAX_WRITE_SIZE
  }

  // The rounds of a loop that counts an unsigned timeout down before testing it.
  function Rounds(timeout: nat): nat {
    if timeout == 0 then UNSIGNED_RANGE else timeout
  }

  function SilenceLimit(size: nat): nat {
    MAX_WRITE_SIZE * Rounds(Timeout(size))
  }

  /** One pass is limited to 16 times the ring exactly where the timeout does not start at 0: from
      50 samples on, while 16 times the size does not wrap around to a small number. It stays below
      that by less than one write. */
  lemma SilenceIsBounded(size: nat)
    requires 0 < size < UNSIGNED_RANGE
    ensures SilenceLimit(size) <= 16 * size <==> size * 16 % UNSIGNED_RANGE >= MAX_WRITE_SIZE
    ensures 50 <= size < UNSIGNED_RANGE / 16 ==> SilenceLimit(size) <= 16 * size
    ensures 50 <= size < UNSIGNED_RANGE / 16 ==> SilenceLimit(size) > 16 * size - 800
    ensures var wrapped := size * 16 % UNSIGNED_RANGE;
            wrapped >= 800 ==> wrapped - 800 < SilenceLimit(size) <= wrapped
    ensures size < 50 ==> SilenceLimit(size) == 800 * 0x1_0000_0000 > 16 * size
  {
    var wrapped := size * 16 % UNSIGNED_RANGE;
    DivModUnique(wrapped, MAX_WRITE_SIZE, Timeout(size), wrapped - MAX_WRITE_SIZE * Timeout(size));
    if size < UNSIGNED_RANGE / 16 {
      DivModUnique(size * 16, UNSIGNED_RANGE, 0, size * 16);
    }
  }

  class AudioJitterFifo {
    var fifo: array<Sample>
    var head: nat
    var tail: nat
    var outputStopped: bool
    var prebuf: bool
    var isFlushing: bool
    const sink: Sink

    // History: the accepted stream; the fate of every sample that left the ring; what was sent,
    // sample by sample or silence; and the flushes asked for, acknowledged and abandoned.
    ghost var accepted: seq<Sample>
    ghost var taken: seq<Fate>
    ghost var timeline: Track
    ghost var requests: nat
    ghost var acks: nat
    ghost var abandoned: nat
    ghost var sinkFlushes: nat

    predicate Empty()
      reads `tail, `head
    {
      tail == head
    }

    ghost predicate Shape()
      reads `fifo, `head, `tail
    {
      head < fifo.Length && tail < fifo.Length
    }

    ghost function Count(): (n: nat)
      reads `fifo, `head, `tail
      requires Shape()
      ensures n < fifo.Length && head == Wrap(tail, n, fifo.Length)
      ensures n == 0 <==> Empty()
    {
      CountOf(head, tail, false, fifo.Length)
    }

    ghost function Contents(): (s: seq<Sample>)
      reads `fifo, `head, `tail, fifo
      requires Shape()
      ensures |s| == Count()
    {
      Window(fifo[..], tail, CountOf(head, tail, false, fifo.Length))
    }

    // Every accepted sample is in the ring or has met its fate.
    ghost predicate Accounted()
      reads `fifo, `head, `tail, `accepted, `taken, fifo
      ensures Accounted() ==> Shape()
    {
      Shape() && accepted == Values(taken) + Contents()
    }

    // The sink has received the delivered samples in order, with silence in between.
    ghost predicate Played()
      reads `taken, `timeline, sink
    {
      && sink.Valid()
      && SamplesOf(timeline) == DeliveredOf(taken)
      && sink.received == Levels(timeline)
    }

    ghost predicate FlagsOK()
      reads `fifo, `head, `tail, `outputStopped, `prebuf, `isFlushing
      requires Shape()
    {
      // The output is stopped only with something to write, so that no empty write follows.
      && (outputStopped ==> !Empty())
      // Samples wait in the ring for the sink or for the prebuffer.
      && (!Empty() && !prebuf ==> outputStopped)
      // Prebuffering is over when the ring is half full.
      && (prebuf && !isFlushing ==> Count() < fifo.Length / 2)
    }

    ghost predicate LedgerOK()
      reads `isFlushing, `requests, `acks, `abandoned
    {
      requests == acks + abandoned + if isFlushing then 1 else 0
    }

    ghost predicate Valid()
      reads this, fifo, sink
      ensures Valid() ==> Shape()
    {
      2 <= fifo.Length && Accounted() && Played() && FlagsOK() && LedgerOK()
    }

    constructor (fifoSize: nat, sink: Sink)
      requires 2 <= fifoSize && sink.Valid() && sink.received == []
      ensures Valid() && fresh(fifo) && fifo.Length == fifoSize && this.sink == sink
      ensures accepted == [] && taken == [] && timeline == [] && Empty() && prebuf && !isFlushing && !outputStopped
      ensures requests == acks == abandoned == sinkFlushes == 0
    {
      fifo := new Sample[fifoSize];
      head, tail := 0, 0;
      outputStopped, prebuf, isFlushing := false, true, false;
      this.sink := sink;
      accepted, taken, timeline := [], [], [];
      requests, acks, abandoned, sinkFlushes := 0, 0, 0, 0;
    }

    // What samplesInFifo reports: nothing while prebuffering.
    ghost function Available(): nat
      reads `fifo, `head, `tail, `prebuf, `isFlushing
      requires Shape()
    {
      if prebuf && !isFlushing && Count() < fifo.Length / 2 then 0 else Count()
    }

    method SamplesInFifo() returns (n: nat)
      requires Shape()
      ensures n == Available()
      ensures n == 0 <==> Empty() || (prebuf && !isFlushing && Count() < fifo.Length / 2)
      ensures n == 0 || n == Count()
    {
      n := Distance(tail, head, fifo.Length);
      if prebuf && !isFlushing {
        if n < fifo.Length / 2 {
          n := 0;
        }
      }
    }

    // --- Storing ---

    // How many of the oldest samples go when the ring has run full.
    ghost function Dropped(): nat
      reads `fifo
    {
      if fifo.Length == 1 then 1 else fifo.Length / 2
    }

    /** Stores one sample. A ring that runs full loses its older half, a ring of one slot loses
        everything. */
    method Store(x: Sample)
      requires Accounted()
      modifies this`head, this`tail, this`taken, this`accepted, fifo
      ensures Accounted() && accepted == old(accepted) + [x]
      ensures old(Count()) + 1 < fifo.Length ==> Contents() == old(Contents()) + [x] && taken == old(taken)
      ensures old(Count()) + 1 == fifo.Length ==>
                var all := old(Contents()) + [x];
                Contents() == all[Dropped()..] && taken == old(taken) + AllDiscarded(all[..Dropped()])
      ensures old(taken) <= taken && DeliveredOf(taken) == DeliveredOf(old(taken))
    {
      hide Values, DeliveredOf, AllDiscarded, Window;
      ghost var all := Contents() + [x];
      PushAppends(fifo[..], tail, Count(), x);
      ghost var s := fifo[..][head := x];
      fifo[head] := x;
      assert fifo[..] == s;
      head := Advance(head, 1, fifo.Length);
      accepted := accepted + [x];
      assert accepted == Values(taken) + all;
      if head == tail {
        DropHalf(all);
      }
    }

    method DropHalf(ghost all: seq<Sample>)
      requires Shape() && head == tail && all == Window(fifo[..], tail, fifo.Length) && accepted == Values(taken) + all
      modifies this`tail, this`taken
      ensures Accounted() && Contents() == all[Dropped()..]
      ensures taken == old(taken) + AllDiscarded(all[..Dropped()]) && DeliveredOf(taken) == DeliveredOf(old(taken))
    {
      hide Values, DeliveredOf, AllDiscarded, Window;
      AdvanceDrops(fifo[..], tail, fifo.Length, fifo.Length / 2);
      tail := Advance(tail, fifo.Length / 2, fifo.Length);
      DiscardFront(taken, all, Dropped());
      taken := taken + AllDiscarded(all[..Dropped()]);
    }

    // The loop of writeSamples. Of all that was buffered or came in, the newest are kept.
    method Fill(samples: seq<Sample>)
      requires Accounted() && 2 <= fifo.Length
      modifies this`head, this`tail, this`taken, this`accepted, fifo
      ensures Accounted() && accepted == old(accepted) + samples
      ensures Contents() == Newest(old(Contents()) + samples, Kept(|old(Contents())| + |samples|, fifo.Length))
      ensures old(taken) <= taken && DeliveredOf(taken) == DeliveredOf(old(taken))
      ensures samples != [] ==> !Empty()
      ensures Contents() == old(Merged(samples))
      ensures old(Played()) ==> Played()
    {
      hide Values, DeliveredOf, AllDiscarded, Window, CountOf, Accounted, Kept, Newest, Contents;
      ghost var had := Contents();
      KeptShort(|had|, fifo.Length);
      assert accepted + samples[..0] == accepted;
      NewestIsAll(had);
      assert had + samples[..0] == had;
      for n := 0 to |samples|
        invariant Accounted() && accepted == old(accepted) + samples[..n]
        invariant Contents() == Newest(had + samples[..n], Kept(|had| + n, fifo.Length))
        invariant old(taken) <= taken && DeliveredOf(taken) == DeliveredOf(old(taken))
      {
        assert (had + samples[..n]) + [samples[n]] == had + samples[..n + 1];
        assert (old(accepted) + samples[..n]) + [samples[n]] == old(accepted) + samples[..n + 1];
        StoreNext(samples[n], had + samples[..n]);
      }
      assert samples[..|samples|] == samples;
      KeptSome(|had| + |samples|, fifo.Length);
    }

    // The ring keeps the newest of everything that has come in.
    method StoreNext(x: Sample, ghost all: seq<Sample>)
      requires Accounted() && 2 <= fifo.Length && Contents() == Newest(all, Kept(|all|, fifo.Length))
      modifies this`head, this`tail, this`taken, this`accepted, fifo
      ensures Accounted() && accepted == old(accepted) + [x]
      ensures Contents() == Newest(all + [x], Kept(|all| + 1, fifo.Length))
      ensures old(taken) <= taken && DeliveredOf(taken) == DeliveredOf(old(taken))
    {
      hide Values, DeliveredOf, AllDiscarded, Window, CountOf, Accounted, Kept, Newest, Contents;
      NewestStep(all, x, fifo.Length);
      Store(x);
    }

    // --- Output ---

    /** A prebuffering pass: silence, until the sink takes no more or a timeout runs out. */
    method WriteSilence() returns (samplesWritten: nat, ghost total: nat)
      requires Played()
      modifies this`timeline, sink
      ensures Played() && timeline == old(timeline) + AllSilent(total)
      ensures total <= SilenceLimit(fifo.Length)
      ensures sink.isReader && old(sink.Room()) >= SilenceLimit(fifo.Length) ==>
                total == SilenceLimit(fifo.Length) && samplesWritten > 0
      ensures sink.refusals == old(sink.refusals) + if samplesWritten == 0 then 1 else 0
      ensures samplesWritten > 0 ==> total > 0
    {
      hide SamplesOf, DeliveredOf;
      var silence := seq(MAX_WRITE_SIZE, _ => 0.0);
      var timeout: nat := fifo.Length * 16 % UNSIGNED_RANGE / MAX_WRITE_SIZE;
      ghost var limit := Rounds(timeout);
      assert timeline + AllSilent(0) == timeline;
      total := 0;
      samplesWritten := 1;
      ghost var rounds := 0;
      while true
        invariant Played() && timeline == old(timeline) + AllSilent(total)
        invariant rounds < limit && Rounds(timeout) == limit - rounds
        invariant total <= MAX_WRITE_SIZE * rounds
        invariant rounds == 0 <==> total == 0
        invariant samplesWritten > 0 && sink.refusals == old(sink.refusals)
        invariant sink.isReader && old(sink.Room()) >= MAX_WRITE_SIZE * limit ==>
                    total == MAX_WRITE_SIZE * rounds && sink.Room() == old(sink.Room()) - total
        decreases limit - rounds
      {
        samplesWritten := WriteSilenceOnce(silence);
        assert timeline == old(timeline) + AllSilent(total + samplesWritten);
        total := total + samplesWritten;
        rounds := rounds + 1;
        if samplesWritten == 0 {
          break;
        }
        timeout := if timeout == 0 then UNSIGNED_RANGE - 1 else timeout - 1;
        if timeout == 0 {
          break;
        }
      }
    }

    method WriteSilenceOnce(silence: seq<Sample>) returns (n: nat)
      requires Played() && |silence| == MAX_WRITE_SIZE && forall k :: 0 <= k < |silence| ==> silence[k] == 0.0
      modifies this`timeline, sink
      ensures Played() && n <= MAX_WRITE_SIZE && timeline == old(timeline) + AllSilent(n)
      ensures sink.refusals == old(sink.refusals) + if n == 0 then 1 else 0
      ensures sink.isReader ==> n == Min(MAX_WRITE_SIZE, old(sink.Room())) && sink.Room() == old(sink.Room()) - n
    {
      hide SamplesOf, DeliveredOf;
      n := sink.WriteSamples(silence);
      SamplesOfAppend(timeline, AllSilent(n));
      SamplesOfSilent(n);
      timeline := timeline + AllSilent(n);
    }

    method Consume(written: nat)
      requires Shape() && written <= Count()
      modifies this`tail
      ensures Shape() && Contents() == old(Contents())[written..]
    {
      TakeOut(fifo[..], head, tail, false, written);
      tail := Advance(tail, written, fifo.Length);
    }

    method WriteRun() returns (written: nat, ghost out: seq<Sample>)
      requires Accounted() && Played() && 0 < Available()
      modifies this`tail, this`taken, this`timeline, sink
      ensures Accounted() && Played()
      ensures sink.refusals == old(sink.refusals) + if written == 0 then 1 else 0
      ensures |out| == written && old(Contents()) == out + Contents()
      ensures taken == old(taken) + AllDelivered(out) && timeline == old(timeline) + AllPlayed(out)
    {
      hide Values, DeliveredOf, AllDelivered, Window, SamplesOf;
      ghost var before := Contents();
      var available := SamplesInFifo();
      var run := OldestRun(fifo, tail, available, MAX_WRITE_SIZE);
      written := sink.WriteSamples(run);
      out := before[..written];
      assert run[..written] == out;
      DeliverFront(taken, before, written);
      SamplesOfAppend(timeline, AllPlayed(out));
      SamplesOfPlayed(out);
      Consume(written);
      taken := taken + AllDelivered(out);
      timeline := timeline + AllPlayed(out);
    }

    // The loop that plays the ring.
    method Drain() returns (samplesWritten: nat, ghost out: seq<Sample>)
      requires Accounted() && Played() && !Empty() && !prebuf
      modifies this`tail, this`taken, this`timeline, sink
      ensures Accounted() && Played()
      ensures old(Contents()) == out + Contents()
      ensures taken == old(taken) + AllDelivered(out) && timeline == old(timeline) + AllPlayed(out)
      ensures samplesWritten == 0 <==> !Empty()
      ensures sink.refusals == old(sink.refusals) + if Empty() then 0 else 1
    {
      hide Values, DeliveredOf, AllDelivered, Window, CountOf, Accounted, Played, Contents, AllPlayed;
      samplesWritten, out := WriteRun();
      while samplesWritten > 0 && !Empty()
        invariant Accounted() && Played()
        invariant old(Contents()) == out + Contents()
        invariant taken == old(taken) + AllDelivered(out) && timeline == old(timeline) + AllPlayed(out)
        invariant samplesWritten == 0 ==> !Empty()
        invariant sink.refusals == old(sink.refusals) + if samplesWritten == 0 then 1 else 0
        decreases Count(), samplesWritten
      {
        ghost var before, run := out, [];
        samplesWritten, run := WriteRun();
        RunsJoin(old(taken), old(timeline), before, run, Contents());
        out := before + run;
      }
    }

    // Asks the sink to flush, which is done only with an empty ring. A sink that holds nothing
    // acknowledges at once.
    method SinkFlushSamples()
      requires Shape() && Empty() && LedgerOK()
      modifies this`isFlushing, this`prebuf, this`acks, this`sinkFlushes
      ensures LedgerOK() && sinkFlushes == old(sinkFlushes) + 1
      ensures isFlushing ==> old(isFlushing) && prebuf == old(prebuf)
      ensures old(isFlushing) && !isFlushing ==> prebuf && acks == old(acks) + 1
      ensures !old(isFlushing) ==> acks == old(acks) && (old(prebuf) ==> prebuf)
    {
      sinkFlushes := sinkFlushes + 1;
      if * {
        AllSamplesFlushed();
      }
    }

    method AllSamplesFlushed()
      requires LedgerOK()
      modifies this`isFlushing, this`prebuf, this`acks
      ensures LedgerOK()
      ensures isFlushing == (old(isFlushing) && !Empty())
      ensures prebuf == (old(prebuf) || Empty())
      ensures acks == old(acks) + if old(isFlushing) && !isFlushing then 1 else 0
    {
      if Empty() {
        if isFlushing {
          isFlushing := false;
          acks := acks + 1;
        }
        prebuf := true;
      }
    }

    /** Pads while prebuffering; otherwise plays until the ring is empty or the sink takes no more. */
    method WriteSamplesFromFifo() returns (ghost silence: nat, ghost out: seq<Sample>)
      requires Accounted() && Played() && !Empty() && LedgerOK()
      modifies this`tail, this`taken, this`timeline, sink
      modifies this`outputStopped, this`prebuf, this`isFlushing, this`acks, this`sinkFlushes
      ensures Accounted() && Played() && LedgerOK()
      ensures old(Contents()) == out + Contents() && taken == old(taken) + AllDelivered(out)
      ensures timeline == old(timeline) + AllSilent(silence) + AllPlayed(out)
      ensures silence <= SilenceLimit(fifo.Length)
      ensures old(outputStopped) ==>
                silence == 0 && out == [] && outputStopped && unchanged(`prebuf, `isFlushing, `acks, `sinkFlushes)
      ensures old(prebuf) ==> out == [] && prebuf && unchanged(`isFlushing, `acks, `sinkFlushes)
      // The output is stopped by the sink only.
      ensures sink.refusals == old(sink.refusals) + if outputStopped && !old(outputStopped) then 1 else 0
      ensures old(prebuf && !outputStopped) ==> silence > 0 || outputStopped
      ensures old(prebuf && !outputStopped) && sink.isReader && old(sink.Room()) >= SilenceLimit(fifo.Length) ==>
                silence == SilenceLimit(fifo.Length) && !outputStopped
      ensures !old(prebuf) ==> silence == 0
      ensures outputStopped ==> !Empty()
      ensures !Empty() ==> isFlushing == old(isFlushing) && prebuf == old(prebuf) && (!prebuf ==> outputStopped)
      ensures Empty() && old(isFlushing) ==> sinkFlushes == old(sinkFlushes) + 1
      ensures Empty() && !old(isFlushing) ==> prebuf
      ensures !(Empty() && old(isFlushing)) ==> sinkFlushes == old(sinkFlushes) && acks == old(acks)
      ensures isFlushing ==> old(isFlushing)
      ensures Empty() && !isFlushing ==> prebuf
    {
      hide Values, DeliveredOf, AllDelivered, Window, CountOf, Accounted, Played, SilenceLimit, LedgerOK, AllPlayed;
      silence, out := 0, [];
      NothingSent();
      if outputStopped {
        return;
      }
      var samplesWritten;
      if prebuf && !Empty() {
        samplesWritten, silence := WriteSilence();
      } else {
        samplesWritten, out := Drain();
      }
      Settle(samplesWritten == 0);
    }

    lemma NothingSent()
      requires Shape()
      ensures Contents() == [] + Contents() && taken == taken + AllDelivered([])
      ensures forall t: Track :: t + AllSilent(0) == t && t + AllPlayed([]) == t
    {
    }

    // What follows the loops of writeSamplesFromFifo.
    method Settle(sinkStopped: bool)
      requires Shape() && LedgerOK() && (sinkStopped ==> !Empty()) && !outputStopped
      modifies this`outputStopped, this`prebuf, this`isFlushing, this`acks, this`sinkFlushes
      ensures LedgerOK() && outputStopped == sinkStopped
      ensures !Empty() ==> unchanged(`prebuf, `isFlushing, `acks, `sinkFlushes)
      ensures Empty() && !isFlushing ==> prebuf
      ensures Empty() ==> sinkFlushes == old(sinkFlushes) + if old(isFlushing) then 1 else 0
      ensures !old(isFlushing) ==> acks == old(acks)
      ensures isFlushing ==> old(isFlushing)
    {
      if sinkStopped {
        outputStopped := true;
      }
      if Empty() {
        if isFlushing {
          SinkFlushSamples();
        } else {
          prebuf := true;
        }
      }
    }

    // --- Operations ---

    // What the ring keeps of its content and a block of new samples.
    ghost function Merged(samples: seq<Sample>): seq<Sample>
      reads `fifo, `head, `tail, fifo
      requires Shape() && 2 <= fifo.Length
    {
      Newest(Contents() + samples, Kept(|Contents()| + |samples|, fifo.Length))
    }

    /** Takes every sample; the oldest are dropped where they do not fit. Then, with less than half
        a ring, a prebuffering FIFO sends silence, and any other plays what the sink takes. A flush
        in progress is given up. */
    method WriteSamples(samples: seq<Sample>) returns (n: nat, ghost silence: nat, ghost out: seq<Sample>)
      requires Valid() && 0 < |samples|
      modifies this, fifo, sink
      ensures Valid() && fifo == old(fifo) && n == |samples| && accepted == old(accepted) + samples
      ensures old(Merged(samples)) == out + Contents()
      ensures timeline == old(timeline) + AllSilent(silence) + AllPlayed(out)
      ensures sink.refusals == old(sink.refusals) + if outputStopped && !old(outputStopped) then 1 else 0
      ensures old(outputStopped) ==> silence == 0 && out == [] && outputStopped
      ensures old(prebuf || isFlushing) && |old(Merged(samples))| < fifo.Length / 2 ==>
                && prebuf && out == [] && silence <= SilenceLimit(fifo.Length)
                && (!old(outputStopped) ==> silence > 0 || outputStopped)
                && (!old(outputStopped) && sink.isReader && old(sink.Room()) >= SilenceLimit(fifo.Length) ==>
                      silence == SilenceLimit(fifo.Length) && !outputStopped)
      ensures !(old(prebuf || isFlushing) && |old(Merged(samples))| < fifo.Length / 2) ==>
                prebuf == Empty() && silence == 0
      ensures !isFlushing && abandoned == old(abandoned) + if old(isFlushing) then 1 else 0
      ensures acks == old(acks) && sinkFlushes == old(sinkFlushes) && requests == old(requests)
    {
      hide Values, DeliveredOf, AllDelivered, Window, CountOf, Accounted, Kept, SilenceLimit, SamplesOf, Newest;
      hide Played, LedgerOK, Contents, Merged, AllPlayed, AllSilent;
      TakeIn(samples);
      n := |samples|;
      silence, out := WriteSamplesFromFifo();
    }

    // writeSamples, up to where the output is tried.
    method TakeIn(samples: seq<Sample>)
      requires Valid() && 0 < |samples|
      modifies this`head, this`tail, this`taken, this`accepted, this`isFlushing, this`prebuf, this`abandoned, fifo
      ensures Accounted() && Played() && LedgerOK() && !Empty() && !isFlushing
      ensures accepted == old(accepted) + samples && Contents() == old(Merged(samples))
      ensures prebuf == (old(prebuf || isFlushing) && |old(Merged(samples))| < fifo.Length / 2)
      ensures abandoned == old(abandoned) + if old(isFlushing) then 1 else 0
    {
      hide Values, DeliveredOf, AllDelivered, Window, CountOf, Accounted, Kept, SilenceLimit, SamplesOf, Newest;
      hide Played, LedgerOK, Contents, Merged, AllPlayed, AllSilent;
      GiveUpFlush();
      Fill(samples);
      EndPrebuffering();
    }

    method GiveUpFlush()
      requires LedgerOK()
      modifies this`isFlushing, this`prebuf, this`abandoned
      ensures LedgerOK() && !isFlushing && prebuf == old(prebuf || isFlushing)
      ensures abandoned == old(abandoned) + if old(isFlushing) then 1 else 0
    {
      if isFlushing {
        isFlushing := false;
        prebuf := true;
        abandoned := abandoned + 1;
      }
    }

    method EndPrebuffering()
      requires Shape() && !isFlushing && 2 <= fifo.Length
      modifies this`prebuf
      ensures prebuf == (old(prebuf) && Count() < fifo.Length / 2)
    {
      var available := SamplesInFifo();
      if available > 0 {
        prebuf := false;
      }
    }

    // A flush has been asked for, and everything the FIFO will send while it waits is silence.
    predicate Stranded()
      reads `isFlushing, `prebuf, `head, `tail
    {
      isFlushing && prebuf && !Empty()
    }

    /** An empty ring is flushed downstream at once. Otherwise the flush waits for a sink that has
        stopped the output, unless the FIFO is prebuffering: then it is stranded. */
    method FlushSamples()
      requires Valid()
      modifies this`isFlushing, this`prebuf, this`acks, this`sinkFlushes, this`requests
      ensures Valid()
      ensures requests == old(requests) + if old(isFlushing) then 0 else 1
      ensures sinkFlushes == old(sinkFlushes) + if Empty() then 1 else 0
      ensures !Empty() ==> isFlushing && prebuf == old(prebuf) && acks == old(acks)
      ensures Stranded() <==> old(prebuf && !Empty())
      ensures !Stranded() ==> Empty() || outputStopped
    {
      hide Accounted, Played;
      if !isFlushing {
        requests := requests + 1;
      }
      isFlushing := true;
      if Empty() {
        SinkFlushSamples();
      }
    }

    method ResumeOutput() returns (ghost silence: nat, ghost out: seq<Sample>)
      requires Valid()
      modifies this`tail, this`taken, this`timeline, sink
      modifies this`outputStopped, this`prebuf, this`isFlushing, this`acks, this`sinkFlushes
      ensures Valid() && old(Contents()) == out + Contents()
      ensures timeline == old(timeline) + AllSilent(silence) + AllPlayed(out)
      ensures silence > 0 ==> prebuf && silence <= SilenceLimit(fifo.Length)
      ensures !old(outputStopped) ==> silence == 0 && out == [] && unchanged(this)
      ensures old(prebuf && outputStopped) ==> silence > 0 || outputStopped
      ensures sink.refusals == old(sink.refusals) + if outputStopped then 1 else 0
      ensures old(prebuf) ==> out == [] && prebuf && unchanged(`isFlushing, `acks, `sinkFlushes)
      ensures fifo == old(fifo)
      ensures old(outputStopped && isFlushing && !prebuf) && Empty() ==> sinkFlushes == old(sinkFlushes) + 1
      ensures !Empty() ==> unchanged(`prebuf, `isFlushing, `acks, `sinkFlushes)
    {
      hide Values, DeliveredOf, AllDelivered, Window, CountOf, Accounted, Played, SilenceLimit, LedgerOK, AllPlayed;
      silence, out := 0, [];
      NothingSent();
      if outputStopped {
        outputStopped := false;
        silence, out := WriteSamplesFromFifo();
      }
    }

    /** The sink has flushed; this counts only when nothing has been buffered since. */
    method SinkHasFlushed()
      requires Valid()
      modifies this`isFlushing, this`prebuf, this`acks
      ensures Valid()
      ensures isFlushing == (old(isFlushing) && !Empty()) && prebuf == (old(prebuf) || Empty())
      ensures acks == old(acks) + if old(isFlushing) && !isFlushing then 1 else 0
    {
      hide Accounted, Played;
      AllSamplesFlushed();
    }

    /** Drops everything. A flush in progress is passed on when there was anything left of it, but
        it is never acknowledged to the source. */
    method Clear()
      requires Valid()
      modifies this`head, this`tail, this`outputStopped, this`prebuf, this`isFlushing
      modifies this`taken, this`abandoned, this`acks, this`sinkFlushes
      ensures Valid() && Empty() && prebuf && !outputStopped && !isFlushing
      ensures taken == old(taken) + AllDiscarded(old(Contents())) && timeline == old(timeline)
      ensures abandoned == old(abandoned) + (if old(isFlushing) then 1 else 0) && acks == old(acks)
      ensures sinkFlushes == old(sinkFlushes) + if old(isFlushing && !Empty()) then 1 else 0
    {
      hide Values, DeliveredOf, AllDiscarded, Window, SamplesOf;
      DiscardAll(Contents());
      Reset(Empty());
    }

    method DiscardAll(ghost buffered: seq<Sample>)
      requires accepted == Values(taken) + buffered && Played()
      modifies this`taken
      ensures accepted == Values(taken) && taken == old(taken) + AllDiscarded(buffered) && Played()
    {
      hide Values, DeliveredOf, AllDiscarded, SamplesOf;
      DiscardEverything(taken, buffered);
      taken := taken + AllDiscarded(buffered);
    }

    method Reset(wasEmpty: bool)
      requires 0 < fifo.Length && accepted == Values(taken) && LedgerOK()
      modifies this`head, this`tail, this`outputStopped, this`prebuf, this`isFlushing
      modifies this`abandoned, this`acks, this`sinkFlushes
      ensures Accounted() && LedgerOK() && Empty() && prebuf && !outputStopped && !isFlushing
      ensures abandoned == old(abandoned) + (if old(isFlushing) then 1 else 0) && acks == old(acks)
      ensures sinkFlushes == old(sinkFlushes) + if old(isFlushing) && !wasEmpty then 1 else 0
    {
      hide Values;
      tail, head := 0, 0;
      prebuf := true;
      outputStopped := false;
      assert Values(taken) + Contents() == Values(taken);
      if isFlushing {
        isFlushing := false;
        abandoned := abandoned + 1;
        if !wasEmpty {
          SinkFlushSamples();
        }
      }
    }

    // Called with at least two samples, like the constructor.
    method SetSize(newSize: nat)
      requires Valid() && 2 <= newSize
      modifies this
      ensures Valid() && Empty() && fifo.Length == newSize && prebuf && !outputStopped && !isFlushing
      ensures fifo == old(fifo) || fresh(fifo)
      ensures taken == old(taken) + AllDiscarded(old(Contents()))
      ensures accepted == old(accepted) && timeline == old(timeline)
      ensures abandoned == old(abandoned) + (if old(isFlushing) then 1 else 0)
      ensures requests == old(requests) && acks == old(acks)
      ensures sinkFlushes == old(sinkFlushes) + if old(isFlushing && !Empty()) then 1 else 0
    {
      hide Values, DeliveredOf, AllDiscarded, Window, SamplesOf;
      // What is discarded is what was in the ring, whichever array it is emptied in.
      ghost var buffered := Contents();
      // clear() is called last, after the indices have lost their meaning for the new array.
      var wasEmpty := Empty();
      if newSize != fifo.Length {
        fifo := new Sample[newSize];
      }
      DiscardAll(buffered);
      Reset(wasEmpty);
    }
  }

  // --- Runs ---

  datatype Event =
    | Write(samples: seq<Sample>)
    | Flush
    | Resume
    | Flushed
    | Clear
    | SetSize(size: nat)

  method Step(f: AudioJitterFifo, e: Event)
    requires f.Valid()
    modifies f, f.fifo, f.sink
    ensures f.Valid() && (f.fifo == old(f.fifo) || fresh(f.fifo))
  {
    hide AudioJitterFifo.Accounted, AudioJitterFifo.Played, AudioJitterFifo.FlagsOK;
    match e {
      case Write(samples) =>
        if samples != [] {
          ghost var n, silence, out;
          n, silence, out := f.WriteSamples(samples);
        }
      case Flush => f.FlushSamples();
      case Resume =>
        ghost var silence, out;
        silence, out := f.ResumeOutput();
      case Flushed => f.SinkHasFlushed();
      case Clear => f.Clear();
      case SetSize(size) =>
        if size >= 2 {
          f.SetSize(size);
        }
    }
  }

  /** Every run accounts for every accepted sample: the log tells for each, in order, whether it was
      delivered or dropped, the ring holds the rest, and the sink has received the delivered ones
      in order with nothing but silence between them. */
  method Run(fifoSize: nat, events: seq<Event>) returns (f: AudioJitterFifo)
    requires 2 <= fifoSize
    ensures f.Valid() && f.accepted == Values(f.taken) + f.Contents()
    ensures SamplesOf(f.timeline) == DeliveredOf(f.taken) && f.sink.received == Levels(f.timeline)
    ensures f.outputStopped ==> f.Count() > 0
    ensures f.requests == f.acks + f.abandoned + if f.isFlushing then 1 else 0
  {
    hide Values, DeliveredOf, SamplesOf;
    var sink := new Sink(false);
    f := new AudioJitterFifo(fifoSize, sink);
    for k := 0 to |events|
      invariant f.Valid() && fresh(f) && fresh(f.fifo) && fresh(f.sink)
    {
      Step(f, events[k]);
    }
  }

  // A FIFO that has just got its first sample.
  method FirstSample(fifoSize: nat, x: Sample) returns (f: AudioJitterFifo)
    requires 4 <= fifoSize
    ensures fresh(f) && fresh(f.fifo) && fresh(f.sink)
    ensures f.Valid() && !f.isFlushing && f.prebuf && f.Contents() == [x]
    ensures f.requests == f.acks == f.abandoned == f.sinkFlushes == 0
  {
    hide Values, DeliveredOf, SamplesOf, Window, AudioJitterFifo.Played, Newest, AllPlayed, AllSilent;
    var sink := new Sink(false);
    f := new AudioJitterFifo(fifoSize, sink);
    KeptShort(1, fifoSize);
    NewestIsAll([x]);
    assert f.Contents() + [x] == [x];
    assert f.Merged([x]) == [x];
    ghost var n, silence, out;
    n, silence, out := f.WriteSamples([x]);
  }

  // What the sink can do while a flush waits.
  datatype SinkCall = HasRoom | HasFlushed

  method Answer(f: AudioJitterFifo, call: SinkCall)
    requires f.Valid()
    modifies f, f.sink
    ensures f.Valid() && f.fifo == old(f.fifo)
    ensures old(f.Stranded()) ==>
              f.Stranded() && f.Contents() == old(f.Contents())
              && f.acks == old(f.acks) && f.sinkFlushes == old(f.sinkFlushes)
    ensures old(f.Empty()) ==> f.Empty() && f.sinkFlushes == old(f.sinkFlushes)
    ensures old(f.Empty() && !f.isFlushing) ==>
              !f.isFlushing && f.acks == old(f.acks) && f.requests == old(f.requests) && f.abandoned == old(f.abandoned)
    ensures old(f.isFlushing && !f.prebuf && !f.Empty()) ==>
              if f.Empty() then f.sinkFlushes == old(f.sinkFlushes) + 1
              else f.isFlushing && !f.prebuf && f.outputStopped && f.sinkFlushes == old(f.sinkFlushes)
                   && f.acks == old(f.acks)
  {
    hide AllPlayed, AllSilent, AudioJitterFifo.Accounted, AudioJitterFifo.Played, AudioJitterFifo.Contents;
    match call {
      case HasRoom =>
        ghost var silence, out;
        silence, out := f.ResumeOutput();
        assert [] + f.Contents() == f.Contents();
      case HasFlushed =>
        f.SinkHasFlushed();
    }
  }

  /** What becomes of a flush, whatever the sink does afterwards. It is stranded if and only if it
      comes while samples are buffered and the FIFO is prebuffering: it then neither reaches the
      sink nor moves a sample. Any other flush has been passed on with an empty ring, or waits for
      a sink that has stopped the output. */
  method StrandedFlush(f: AudioJitterFifo, calls: seq<SinkCall>)
    requires f.Valid() && !f.isFlushing
    modifies f, f.sink
    ensures f.Valid() && f.fifo == old(f.fifo)
    ensures f.Stranded() <==> old(f.prebuf && !f.Empty())
    ensures f.Stranded() ==>
              f.Contents() == old(f.Contents()) && f.acks == old(f.acks) && f.sinkFlushes == old(f.sinkFlushes)
    ensures !f.Stranded() ==>
              if f.Empty() then f.sinkFlushes == old(f.sinkFlushes) + 1
              else f.isFlushing && f.outputStopped && f.sinkFlushes == old(f.sinkFlushes)
  {
    hide AudioJitterFifo.Valid, AudioJitterFifo.Contents;
    f.FlushSamples();
    for k := 0 to |calls|
      invariant f.Valid() && f.fifo == old(f.fifo)
      invariant old(f.prebuf && !f.Empty()) ==>
                  f.Stranded() && f.Contents() == old(f.Contents())
                  && f.acks == old(f.acks) && f.sinkFlushes == old(f.sinkFlushes)
      invariant !old(f.prebuf && !f.Empty()) ==>
                  if f.Empty() then f.sinkFlushes == old(f.sinkFlushes) + 1
                  else f.isFlushing && !f.prebuf && f.outputStopped && f.sinkFlushes == old(f.sinkFlushes)
    {
      Answer(f, calls[k]);
    }
  }

  /** A flush can be stranded: one sample in a ring of four or more is enough. */
  method StrandedSample(fifoSize: nat, x: Sample, calls: seq<SinkCall>) returns (f: AudioJitterFifo)
    requires 4 <= fifoSize
    ensures f.Valid() && f.Stranded() && f.Contents() == [x]
    ensures f.acks == f.sinkFlushes == 0
  {
    hide AudioJitterFifo.Valid, AudioJitterFifo.Contents;
    f := FirstSample(fifoSize, x);
    StillThere(f, x);
    StrandedFlush(f, calls);
  }

  /** A clear leaves an open flush without an acknowledgement for good, whatever the sink does
      afterwards, although it is passed on when there was anything left of it. */
  method ClearAbandons(f: AudioJitterFifo, calls: seq<SinkCall>)
    requires f.Valid()
    modifies f, f.sink
    ensures f.Valid() && !f.isFlushing && f.acks == old(f.acks) && f.requests == old(f.requests)
    ensures f.abandoned == old(f.abandoned) + if old(f.isFlushing) then 1 else 0
    ensures f.sinkFlushes == old(f.sinkFlushes) + if old(f.isFlushing && !f.Empty()) then 1 else 0
  {
    hide AudioJitterFifo.Valid, AudioJitterFifo.Contents;
    f.Clear();
    ghost var flushes, given := f.sinkFlushes, f.abandoned;
    for k := 0 to |calls|
      invariant f.Valid() && f.fifo == old(f.fifo) && f.Empty() && !f.isFlushing
      invariant f.acks == old(f.acks) && f.requests == old(f.requests)
      invariant f.sinkFlushes == flushes && f.abandoned == given
    {
      Answer(f, calls[k]);
    }
  }

  /** That is within reach: one sample, a flush, and a clear. */
  method ClearedFlush(fifoSize: nat, x: Sample, calls: seq<SinkCall>) returns (f: AudioJitterFifo)
    requires 4 <= fifoSize
    ensures f.Valid() && !f.isFlushing
    ensures f.requests == f.sinkFlushes == f.abandoned == 1 && f.acks == 0
  {
    hide AudioJitterFifo.Valid, AudioJitterFifo.Contents;
    f := FirstSample(fifoSize, x);
    StillThere(f, x);
    f.FlushSamples();
    ClearAbandons(f, calls);
  }

  lemma StillThere(f: AudioJitterFifo, x: Sample)
    requires f.Shape() && f.Contents() == [x]
    ensures !f.Empty()
  {
  }

  // Playing one run after another is playing them together.
  lemma RunsJoin(log: seq<Fate>, timeline: Track, a: seq<Sample>, b: seq<Sample>, rest: seq<Sample>)
    ensures (log + AllDelivered(a)) + AllDelivered(b) == log + AllDelivered(a + b)
    ensures (timeline + AllPlayed(a)) + AllPlayed(b) == timeline + AllPlayed(a + b)
    ensures a + (b + rest) == (a + b) + rest
  {
    hide AllDelivered;
    DeliveriesJoin(log, a, b);
  }

  lemma KeptShort(total: nat, size: nat)
    requires 2 <= size && total < size
    ensures Kept(total, size) == total
  {
  }

  function Levels(t: Track): (s: seq<Sample>)
    ensures |s| == |t| && forall k :: 0 <= k < |t| ==> s[k] == Level(t[k])
  {
    seq(|t|, k requires 0 <= k < |t| => Level(t[k]))
  }
}
