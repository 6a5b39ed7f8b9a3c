/** AudioFifo: a ring buffer between a source and a sink, with prebuffering, overwrite mode,
    back-pressure and flushing (src/async/audio/AsyncAudioFifo.cpp). */
module Fifo {
  import opened AudioPipe
  import opened Ring
  import opened Fates

  const MAX_WRITE_SIZE: nat := 800

  class AudioFifo {
    var fifo: array<Sample>
    var head: nat
    var tail: nat
    var doOverwrite: bool
    var outputStopped: bool
    var prebufSamples: nat
    var prebuf: bool
    var isFlushing: bool
    var isFull: bool
    var bufferingEnabled: bool
    var disableBufferingWhenFlushed: bool
    var isIdle: bool
    var inputStopped: bool
    const sink: Sink

    // History: the accepted stream, the fate of every sample that left the ring, the stream
    // positions (accepted, left) at which a downstream flush was issued, the number of resume and
    // all-flushed callbacks made to the source, and of flushes asked for and given up.
    ghost var accepted: seq<Sample>
    ghost var taken: seq<Fate>
    ghost var flushPoints: seq<(nat, nat)>
    ghost var resumes: nat
    ghost var acks: nat
    ghost var requests: nat
    ghost var cancels: nat

    predicate Empty()
      reads `isFull, `tail, `head
    {
      !isFull && tail == head
    }

    ghost predicate Shape()
      reads `fifo, `head, `tail, `isFull
    {
      && 0 < fifo.Length
      && head < fifo.Length
      && tail < fifo.Length
      && (isFull ==> head == tail)
    }

    ghost function Count(): (n: nat)
      reads `fifo, `head, `tail, `isFull
      requires Shape()
      ensures n <= fifo.Length
      ensures head == Wrap(tail, n, fifo.Length)
      ensures n == 0 <==> Empty()
      ensures n == fifo.Length <==> isFull
    {
      CountOf(head, tail, isFull, fifo.Length)
    }

    ghost function Contents(): (s: seq<Sample>)
      reads `fifo, `head, `tail, `isFull, fifo
      requires Shape()
      ensures |s| == Count()
    {
      Window(fifo[..], tail, Count())
    }

    ghost predicate Valid()
      reads `fifo, `head, `tail, `isFull, `bufferingEnabled, `accepted, `taken, `flushPoints, fifo, sink
      ensures Valid() ==> Shape() && sink.Valid()
    {
      && Shape()
      && sink.Valid()
      && accepted == Values(taken) + Contents()
      && sink.received == DeliveredOf(taken)
      && (!bufferingEnabled ==> Empty())
      && (forall p :: p in flushPoints ==> p.0 == p.1)
    }

    // Samples stay in the ring only because the sink is holding them back, or because there are
    // too few of them for the prebuffer.
    ghost predicate Settled()
      reads `fifo, `head, `tail, `isFull, `prebuf, `isFlushing, `prebufSamples, `outputStopped
      requires Shape()
    {
      Count() > 0 ==> outputStopped || Available() == 0
    }

    // Every flush has been acknowledged once, given up because of new samples, or is still open.
    ghost predicate LedgerOK()
      reads `isFlushing, `requests, `acks, `cancels
    {
      requests == acks + cancels + if isFlushing then 1 else 0
    }

    // The prebuffer asks for more samples than the ring can hold.
    predicate Gated()
      reads `prebuf, `prebufSamples, `fifo
    {
      prebuf && fifo.Length < prebufSamples
    }

    // The sink is an AudioReader that nobody reads from right now.
    ghost predicate Parked()
      reads `outputStopped, sink
    {
      sink.isReader && sink.readTarget == 0 && (outputStopped ==> sink.inputStopped)
    }

    constructor (fifoSize: nat, sink: Sink)
      requires 0 < fifoSize
      requires sink.Valid() && sink.received == []
      ensures Valid() && fresh(fifo) && this.sink == sink
      ensures Contents() == [] && accepted == [] && taken == [] && flushPoints == []
      ensures fifo.Length == fifoSize && bufferingEnabled && !doOverwrite
      ensures !inputStopped && !outputStopped && !prebuf && prebufSamples == 0 && !isFlushing
      ensures !disableBufferingWhenFlushed && !isFull && resumes == acks == requests == cancels == 0
    {
      fifo := new Sample[fifoSize];
      head, tail := 0, 0;
      doOverwrite, outputStopped := false, false;
      prebufSamples, prebuf := 0, false;
      isFlushing, isFull := false, false;
      bufferingEnabled, disableBufferingWhenFlushed := true, false;
      isIdle, inputStopped := true, false;
      this.sink := sink;
      accepted, taken, flushPoints, resumes, acks, requests, cancels := [], [], [], 0, 0, 0, 0;
    }

    // With prebuffering, samples are reported only once there are enough of them.
    ghost function Available(): nat
      reads `fifo, `head, `tail, `isFull, `prebuf, `isFlushing, `prebufSamples
      requires Shape()
    {
      if prebuf && !isFlushing && Count() < prebufSamples then 0 else Count()
    }

    method SamplesInFifo(ignorePrebuf: bool) returns (n: nat)
      requires Shape()
      ensures n == if ignorePrebuf then Count() else Available()
      ensures ignorePrebuf ==> n == Count()
      ensures !ignorePrebuf ==>
                && (n == 0 <==> Empty() || (prebuf && !isFlushing && Count() < prebufSamples))
                && (n == 0 || n == Count())
    {
      var samplesInBuffer;
      if isFull {
        samplesInBuffer := fifo.Length;
      } else {
        samplesInBuffer := Distance(tail, head, fifo.Length);
      }
      if !ignorePrebuf && prebuf && !isFlushing {
        if samplesInBuffer < prebufSamples {
          return 0;
        }
      }
      return samplesInBuffer;
    }

    method AllSamplesFlushed()
      requires Valid()
      modifies this`disableBufferingWhenFlushed, this`bufferingEnabled, this`isFlushing, this`acks
      ensures Valid()
      ensures acks == old(acks) + if Empty() && old(isFlushing) then 1 else 0
      ensures isFlushing == (old(isFlushing) && !Empty())
      ensures bufferingEnabled == (old(bufferingEnabled) && !(Empty() && old(disableBufferingWhenFlushed)))
      ensures disableBufferingWhenFlushed == (old(disableBufferingWhenFlushed) && !Empty())
    {
      if Empty() {
        if disableBufferingWhenFlushed {
          disableBufferingWhenFlushed := false;
          bufferingEnabled := false;
        }
        if isFlushing {
          isFlushing := false;
          acks := acks + 1;
        }
      }
    }

    // Asks the sink to flush. A reader acknowledges at once, and so may any other sink.
    method SinkFlushSamples()
      requires Valid() && Empty()
      modifies this`disableBufferingWhenFlushed, this`bufferingEnabled, this`isFlushing, this`acks, this`flushPoints
      ensures Valid()
      ensures flushPoints == old(flushPoints) + [(|accepted|, |taken|)]
      ensures acks > old(acks) ==> !isFlushing
      ensures acks == old(acks) || (acks == old(acks) + 1 && old(isFlushing))
      ensures isFlushing ==> old(isFlushing)
      ensures old(isFlushing) && !isFlushing ==> acks == old(acks) + 1
      ensures sink.isReader ==> !isFlushing
      ensures !old(disableBufferingWhenFlushed) ==>
                bufferingEnabled == old(bufferingEnabled) && !disableBufferingWhenFlushed
    {
      flushPoints := flushPoints + [(|accepted|, |taken|)];
      if sink.isReader {
        AllSamplesFlushed();
      } else if * {
        AllSamplesFlushed();
      }
    }

    method Consume(written: nat)
      requires Shape() && written <= Count()
      modifies this`tail, this`isFull
      ensures Shape() && Contents() == old(Contents())[written..]
    {
      TakeOut(fifo[..], head, tail, isFull, written);
      if isFull && written > 0 {
        isFull := false;
      }
      tail := Advance(tail, written, fifo.Length);
    }

    method WriteRun() returns (written: nat, ghost out: seq<Sample>)
      requires Valid() && !Empty()
      modifies this`tail, this`isFull, this`taken, sink
      ensures Valid()
      ensures |out| == written && old(Contents()) == out + Contents()
      ensures sink.refusals == old(sink.refusals) + if written == 0 then 1 else 0
      ensures taken == old(taken) + AllDelivered(out)
      ensures sink.received == old(sink.received) + out
      ensures sink.isReader ==> (sink.inputStopped <==> written == 0)
      ensures sink.isReader && written == 0 ==> sink.Room() == 0
      ensures sink.isReader ==> sink.Took(old(sink.readTarget), old(sink.readBuf), out)
    {
      hide Values, DeliveredOf, AllDelivered, Window, CountOf, Wrap;
      ghost var before := Contents();
      var available := SamplesInFifo(true);
      var run := OldestRun(fifo, tail, available, MAX_WRITE_SIZE);
      written := sink.WriteSamples(run);
      out := before[..written];
      assert run[..written] == out;
      DeliverFront(taken, before, written);
      Consume(written);
      taken := taken + AllDelivered(out);
    }

    /** Hands the buffered samples to the sink until the ring is empty or the sink takes nothing.
        Everything that leaves the ring is delivered, in order. A source that was stopped by a
        full ring is resumed, once, as soon as there is room again. */
    method WriteSamplesFromFifo() returns (ghost out: seq<Sample>)
      requires Valid()
      modifies this`tail, this`isFull, this`taken, this`outputStopped, this`inputStopped, this`resumes
      modifies this`disableBufferingWhenFlushed, this`bufferingEnabled, this`isFlushing, this`acks, this`flushPoints
      modifies sink
      ensures Valid()
      ensures old(outputStopped) || old(Available()) == 0 ==>
                out == [] && outputStopped == old(outputStopped)
                && acks == old(acks) && flushPoints == old(flushPoints)
                && isFlushing == old(isFlushing) && inputStopped == old(inputStopped)
                && bufferingEnabled == old(bufferingEnabled)
      ensures old(Contents()) == out + Contents()
      ensures taken == old(taken) + AllDelivered(out)
      ensures sink.received == old(sink.received) + out
      // Either everything went out, or the sink is holding the rest back.
      ensures !old(outputStopped) ==> Settled()
      ensures !old(outputStopped) && old(Available()) > 0 ==> Count() == 0 || outputStopped
      ensures outputStopped && !old(outputStopped) ==> Count() > 0
      // The output is stopped by the sink only.
      ensures sink.refusals == old(sink.refusals) + if outputStopped && !old(outputStopped) then 1 else 0
      // Back-pressure is lifted by the step that makes room.
      ensures !old(outputStopped) && old(Available()) > 0 ==> inputStopped == (old(inputStopped) && isFull)
      ensures inputStopped ==> old(inputStopped)
      ensures resumes == old(resumes) + if old(inputStopped) && !inputStopped then 1 else 0
      // Flushing goes on downstream exactly when the ring has run empty.
      ensures !old(outputStopped) && old(Available()) > 0 ==>
                flushPoints == old(flushPoints)
                  + if old(isFlushing) && Count() == 0 then [(|accepted|, |taken|)] else []
      ensures acks == old(acks) + if old(isFlushing) && !isFlushing then 1 else 0
      ensures isFlushing ==> old(isFlushing)
      ensures !Empty() ==> isFlushing == old(isFlushing)
      ensures sink.isReader && Empty() && !old(Empty()) ==> !isFlushing
      ensures !old(disableBufferingWhenFlushed) ==>
                bufferingEnabled == old(bufferingEnabled) && !disableBufferingWhenFlushed
      ensures !old(isFlushing) ==> bufferingEnabled == old(bufferingEnabled)
                                   && disableBufferingWhenFlushed == old(disableBufferingWhenFlushed)
      ensures !old(outputStopped) && old(Available()) > 0 && sink.isReader ==>
                && sink.Took(old(sink.readTarget), old(sink.readBuf), out)
                && (outputStopped <==> sink.inputStopped)
                && (outputStopped ==> sink.Room() == 0)
      ensures old(outputStopped) || old(Available()) == 0 ==> unchanged(sink)
    {
      hide Values, DeliveredOf, AllDelivered, Window, CountOf, Valid;
      var available := SamplesInFifo(false);
      if outputStopped || available == 0 {
        out := [];
        return;
      }
      var samplesWritten;
      samplesWritten, out := Drain();
      Settle(samplesWritten == 0);
    }

    // What follows the loop of writeSamplesFromFifo.
    method Settle(sinkStopped: bool)
      requires Valid()
      modifies this`outputStopped, this`inputStopped, this`resumes
      modifies this`disableBufferingWhenFlushed, this`bufferingEnabled, this`isFlushing, this`acks, this`flushPoints
      ensures Valid()
      ensures outputStopped == (old(outputStopped) || sinkStopped)
      ensures inputStopped == (old(inputStopped) && isFull)
      ensures resumes == old(resumes) + if old(inputStopped) && !isFull then 1 else 0
      ensures flushPoints == old(flushPoints) + if old(isFlushing) && Empty() then [(|accepted|, |taken|)] else []
      ensures acks == old(acks) + if old(isFlushing) && !isFlushing then 1 else 0
      ensures isFlushing ==> old(isFlushing)
      ensures sink.isReader && Empty() ==> !isFlushing
      ensures !Empty() ==> isFlushing == old(isFlushing)
      ensures !old(disableBufferingWhenFlushed) ==>
                bufferingEnabled == old(bufferingEnabled) && !disableBufferingWhenFlushed
      ensures !old(isFlushing) ==> bufferingEnabled == old(bufferingEnabled)
                                   && disableBufferingWhenFlushed == old(disableBufferingWhenFlushed)
    {
      hide Values, DeliveredOf, AllDelivered, Window, CountOf, Valid;
      if sinkStopped {
        outputStopped := true;
      }
      if inputStopped && !isFull {
        inputStopped := false;
        resumes := resumes + 1;
      }
      if isFlushing && Empty() {
        SinkFlushSamples();
      }
    }

    // Samples handed to the sink without passing through the ring.
    method WriteThrough(samples: seq<Sample>) returns (written: nat)
      requires Valid() && Empty() && 0 < |samples|
      modifies this`taken, this`accepted, sink
      ensures Valid() && written <= |samples|
      ensures accepted == old(accepted) + samples[..written]
      ensures taken == old(taken) + AllDelivered(samples[..written])
      ensures sink.refusals == old(sink.refusals) + if written == 0 then 1 else 0
      ensures sink.received == old(sink.received) + samples[..written]
      ensures old(Parked()) ==> Parked() && sink.received == old(sink.received)
    {
      hide Values, DeliveredOf, AllDelivered, Window, CountOf;
      written := sink.WriteSamples(samples);
      DeliverFront(taken, samples[..written], written);
      assert samples[..written][..written] == samples[..written];
      accepted := accepted + samples[..written];
      taken := taken + AllDelivered(samples[..written]);
    }

    // One step of the inner loop of writeSamples.
    method Store(x: Sample)
      requires Valid() && !isFull && bufferingEnabled
      modifies this`head, this`tail, this`isFull, this`taken, this`accepted, fifo
      ensures Valid()
      ensures accepted == old(accepted) + [x]
      ensures !doOverwrite || old(Count()) + 1 < fifo.Length ==>
                Contents() == old(Contents()) + [x] && taken == old(taken)
      ensures doOverwrite && old(Count()) + 1 == fifo.Length ==>
                var all := old(Contents()) + [x];
                Contents() == all[1..] && taken == old(taken) + AllDiscarded(all[..1])
      ensures doOverwrite ==> !isFull
    {
      hide Values, DeliveredOf, AllDiscarded, Window;
      ghost var all := Contents() + [x];
      PushAppends(fifo[..], tail, Count(), x);
      ghost var s := fifo[..][head := x];
      fifo[head] := x;
      assert fifo[..] == s;
      head := if head < fifo.Length - 1 then head + 1 else 0;
      accepted := accepted + [x];
      assert accepted == Values(taken) + all;
      if head == tail {
        if doOverwrite {
          DropOldest(all);
        } else {
          isFull := true;
        }
      }
    }

    // A ring in overwrite mode has run full.
    method DropOldest(ghost all: seq<Sample>)
      requires Shape() && sink.Valid() && head == tail && !isFull && bufferingEnabled
      requires all == Window(fifo[..], tail, fifo.Length) && accepted == Values(taken) + all
      requires sink.received == DeliveredOf(taken) && forall p :: p in flushPoints ==> p.0 == p.1
      modifies this`tail, this`taken
      ensures Valid() && Contents() == all[1..] && taken == old(taken) + AllDiscarded(all[..1])
    {
      hide Values, DeliveredOf, AllDiscarded, Window;
      AdvanceDrops(fifo[..], tail, fifo.Length, 1);
      DiscardFront(taken, all, 1);
      tail := if tail < fifo.Length - 1 then tail + 1 else 0;
      taken := taken + AllDiscarded(all[..1]);
    }

    // The loop of writeSamplesFromFifo.
    method Drain() returns (samplesWritten: nat, ghost out: seq<Sample>)
      requires Valid() && !Empty()
      modifies this`tail, this`isFull, this`taken, sink
      ensures Valid()
      ensures old(Contents()) == out + Contents()
      ensures taken == old(taken) + AllDelivered(out)
      ensures sink.received == old(sink.received) + out
      ensures samplesWritten == 0 <==> Count() > 0
      ensures sink.refusals == old(sink.refusals) + if samplesWritten == 0 then 1 else 0
      ensures sink.isReader ==> sink.Took(old(sink.readTarget), old(sink.readBuf), out)
      ensures sink.isReader ==> (sink.inputStopped <==> samplesWritten == 0)
      ensures sink.isReader && samplesWritten == 0 ==> sink.Room() == 0
    {
      hide Values, DeliveredOf, AllDelivered, Window, CountOf, Valid, Contents, Count, Shape;
      samplesWritten, out := WriteRun();
      while samplesWritten > 0 && !Empty()
        invariant Valid()
        invariant old(Contents()) == out + Contents()
        invariant taken == old(taken) + AllDelivered(out)
        invariant sink.received == old(sink.received) + out
        invariant samplesWritten == 0 ==> Count() > 0
        invariant sink.refusals == old(sink.refusals) + if samplesWritten == 0 then 1 else 0
        invariant sink.isReader ==> sink.Took(old(sink.readTarget), old(sink.readBuf), out)
        invariant sink.isReader ==> (sink.inputStopped <==> samplesWritten == 0)
        invariant sink.isReader && samplesWritten == 0 ==> sink.Room() == 0
        decreases Count(), samplesWritten
      {
        ghost var before, run := out, [];
        samplesWritten, run := WriteRun();
        DeliveriesJoin(old(taken), before, run);
        out := before + run;
        Regroup(before, run, Contents());
        Regroup(old(sink.readBuf), before, run);
      }
    }

    // The inner loop of writeSamples.
    method Fill(samples: seq<Sample>, start: nat) returns (n: nat)
      requires Valid() && bufferingEnabled && !isFull && start < |samples|
      modifies this`head, this`tail, this`isFull, this`taken, this`accepted, fifo
      ensures Valid()
      ensures start < n <= |samples|
      ensures accepted == old(accepted) + samples[start..n]
      ensures Extends(old(taken), taken, !doOverwrite)
      ensures isFull || n == |samples|
      ensures fifo.Length > 1 ==> !Empty()
      ensures !doOverwrite ==> Contents() == old(Contents()) + samples[start..n]
    {
      hide Values, DeliveredOf, AllDiscarded, Window, CountOf, Valid;
      n := start;
      while !isFull && n < |samples|
        invariant Valid()
        invariant start <= n <= |samples|
        invariant n == start ==> !isFull
        invariant accepted == old(accepted) + samples[start..n]
        invariant Extends(old(taken), taken, !doOverwrite)
        invariant fifo.Length > 1 && n > start ==> !Empty()
        invariant !doOverwrite ==> Contents() == old(Contents()) + samples[start..n]
        decreases |samples| - n
      {
        Store(samples[n]);
        assert samples[start..n + 1] == samples[start..n] + [samples[n]];
        n := n + 1;
      }
    }

    method EndPrebuffering()
      requires Shape()
      modifies this`prebuf
      ensures prebuf == (old(prebuf) && old(Available()) == 0)
    {
      if prebuf {
        var available := SamplesInFifo(false);
        if available > 0 {
          prebuf := false;
        }
      }
    }

    // Ends the prebuffering if there is enough, and outputs what the sink takes.
    method Output()
      requires Valid() && bufferingEnabled && !isFlushing
      modifies this`tail, this`isFull, this`taken, this`prebuf, this`outputStopped, this`inputStopped, this`resumes
      modifies this`disableBufferingWhenFlushed, this`bufferingEnabled, this`isFlushing, this`acks, this`flushPoints
      modifies sink
      ensures Valid() && Settled()
      ensures Extends(old(taken), taken, true)
      ensures bufferingEnabled && !isFlushing && flushPoints == old(flushPoints) && acks == old(acks)
      ensures disableBufferingWhenFlushed == old(disableBufferingWhenFlushed)
      ensures outputStopped ==> Count() > 0 || old(outputStopped)
      ensures sink.refusals == old(sink.refusals) + if outputStopped && !old(outputStopped) then 1 else 0
      ensures old(outputStopped) ==> outputStopped
      ensures inputStopped ==> old(inputStopped)
      ensures !old(inputStopped) ==> resumes == old(resumes)
      ensures prebuf == (old(prebuf) && old(Count() == 0 || Count() < prebufSamples))
      ensures prebuf ==> sink.received == old(sink.received) && Contents() == old(Contents()) && isFull == old(isFull)
      ensures old(outputStopped) ==> Count() == old(Count())
      ensures old(Gated()) ==> Gated() && unchanged(sink) && outputStopped == old(outputStopped)
      ensures old(Parked()) ==> Parked() && sink.received == old(sink.received)
    {
      hide Values, DeliveredOf, AllDelivered, Window, CountOf, Valid, Extends, Contents, Shape;
      EndPrebuffering();
      ghost var out;
      out := WriteSamplesFromFifo();
      DeliveryExtends(old(taken), out, true);
    }

    // One round of the outer loop of writeSamples: fill the ring, then output what the sink takes.
    method FillAndOutput(samples: seq<Sample>, start: nat) returns (n: nat)
      requires Valid() && bufferingEnabled && !isFull && !isFlushing && start < |samples|
      modifies this`head, this`tail, this`isFull, this`taken, this`accepted, fifo, this`prebuf
      modifies this`outputStopped, this`inputStopped, this`resumes
      modifies this`disableBufferingWhenFlushed, this`bufferingEnabled, this`isFlushing, this`acks, this`flushPoints
      modifies sink
      ensures Valid() && Settled()
      ensures start < n <= |samples|
      ensures accepted == old(accepted) + samples[start..n]
      ensures Extends(old(taken), taken, !doOverwrite)
      ensures bufferingEnabled && !isFlushing && flushPoints == old(flushPoints) && acks == old(acks)
      ensures disableBufferingWhenFlushed == old(disableBufferingWhenFlushed)
      ensures outputStopped ==> Count() > 0 || (old(outputStopped) && old(Empty()))
      ensures sink.refusals == old(sink.refusals) + if outputStopped && !old(outputStopped) then 1 else 0
      ensures old(outputStopped) ==> outputStopped
      ensures inputStopped ==> old(inputStopped)
      ensures !old(inputStopped) ==> resumes == old(resumes)
      ensures prebuf ==> old(prebuf)
      ensures old(Gated()) ==> Gated() && unchanged(sink) && outputStopped == old(outputStopped)
      ensures old(Parked()) ==> Parked() && sink.received == old(sink.received)
      ensures old(prebuf && !doOverwrite) ==>
                (prebuf <==> Min(old(Count()) + |samples| - start, fifo.Length) < prebufSamples)
      ensures old(prebuf && !doOverwrite) && prebuf ==>
                sink.received == old(sink.received) && Contents() == old(Contents()) + samples[start..n]
      ensures prebuf ==> isFull || n == |samples|
    {
      hide Values, DeliveredOf, AllDelivered, Window, CountOf, Valid, Extends, Contents, Shape;
      assert fifo.Length == 1 ==> Count() == 0;
      n := Fill(samples, start);
      ghost var taken0 := taken;
      Output();
      LosslessExtends(taken0, taken, !doOverwrite);
      ExtendsTrans(old(taken), taken0, taken, !doOverwrite);
    }

    lemma SlicesJoin(s: seq<Sample>, a: nat, b: nat, c: nat)
      requires a <= b <= c <= |s|
      ensures s[a..b] + s[b..c] == s[a..c]
    {
    }

    // The outer loop of writeSamples.
    method Buffer(samples: seq<Sample>, start: nat) returns (n: nat)
      requires Valid() && bufferingEnabled && !isFull && !isFlushing
      requires start <= |samples| && (start == |samples| ==> Empty())
      modifies this`head, this`tail, this`isFull, this`taken, this`accepted, fifo, this`prebuf
      modifies this`outputStopped, this`inputStopped, this`resumes
      modifies this`disableBufferingWhenFlushed, this`bufferingEnabled, this`isFlushing, this`acks, this`flushPoints
      modifies sink
      ensures Valid() && Settled()
      ensures start <= n <= |samples| && (n == |samples| || isFull) && (start < |samples| ==> start < n)
      ensures accepted == old(accepted) + samples[start..n]
      ensures Extends(old(taken), taken, !doOverwrite)
      ensures bufferingEnabled && !isFlushing && flushPoints == old(flushPoints) && acks == old(acks)
      ensures disableBufferingWhenFlushed == old(disableBufferingWhenFlushed)
      ensures outputStopped ==> Count() > 0 || (old(outputStopped) && old(Empty()))
      ensures sink.refusals == old(sink.refusals) + if outputStopped && !old(outputStopped) then 1 else 0
      ensures old(outputStopped) ==> outputStopped
      ensures !old(inputStopped) ==> resumes == old(resumes)
      ensures prebuf ==> old(prebuf)
      ensures old(Gated()) ==> Gated() && unchanged(sink) && outputStopped == old(outputStopped)
      ensures old(Parked()) ==> Parked() && sink.received == old(sink.received)
      ensures old(prebuf && !doOverwrite) && start < |samples| ==>
                (prebuf <==> Min(old(Count()) + |samples| - start, fifo.Length) < prebufSamples)
      ensures old(prebuf && !doOverwrite) && start < |samples| && prebuf ==>
                sink.received == old(sink.received) && Contents() == old(Contents()) + samples[start..n]
    {
      hide Values, DeliveredOf, AllDelivered, Window, CountOf, Valid, Extends, Contents, Shape, Parked, Gated;
      n := start;
      ExtendsSelf(taken, !doOverwrite);
      while !isFull && n < |samples|
        invariant Valid() && start <= n <= |samples|
        invariant n == start ==> !isFull
        invariant n > start || start == |samples| ==> Settled()
        invariant n == start ==>
                    prebuf == old(prebuf) && Contents() == old(Contents()) && sink.received == old(sink.received)
        invariant n > start && old(prebuf && !doOverwrite) ==>
                    (prebuf <==> Min(old(Count()) + |samples| - start, fifo.Length) < prebufSamples)
        invariant n > start && old(prebuf && !doOverwrite) && prebuf ==>
                    && sink.received == old(sink.received) && Contents() == old(Contents()) + samples[start..n]
                    && (isFull || n == |samples|)
        invariant accepted == old(accepted) + samples[start..n]
        invariant Extends(old(taken), taken, !doOverwrite)
        invariant bufferingEnabled && !isFlushing && flushPoints == old(flushPoints) && acks == old(acks)
        invariant disableBufferingWhenFlushed == old(disableBufferingWhenFlushed)
        invariant outputStopped ==> Count() > 0 || (old(outputStopped) && old(Empty()))
        invariant sink.refusals == old(sink.refusals) + if outputStopped && !old(outputStopped) then 1 else 0
        invariant old(outputStopped) ==> outputStopped
        invariant inputStopped ==> old(inputStopped)
        invariant !old(inputStopped) ==> resumes == old(resumes)
        invariant prebuf ==> old(prebuf)
        invariant old(Gated()) ==> Gated() && unchanged(sink) && outputStopped == old(outputStopped)
        invariant old(Parked()) ==> Parked() && sink.received == old(sink.received)
        decreases |samples| - n
      {
        ghost var n0, taken0 := n, taken;
        n := FillAndOutput(samples, n);
        SlicesJoin(samples, start, n0, n);
        ExtendsTrans(old(taken), taken0, taken, !doOverwrite);
      }
    }

    // writeSamples for a ring that has room: directly to the sink as far as possible, then the ring.
    method Accept(samples: seq<Sample>) returns (n: nat)
      requires Valid() && 0 < |samples| && !isFull && !isFlushing
      modifies this`head, this`tail, this`isFull, this`taken, this`accepted, fifo, this`prebuf
      modifies this`outputStopped, this`inputStopped, this`resumes
      modifies this`disableBufferingWhenFlushed, this`bufferingEnabled, this`isFlushing, this`acks, this`flushPoints
      modifies sink
      ensures Valid() && n <= |samples| && accepted == old(accepted) + samples[..n]
      ensures Extends(old(taken), taken, !doOverwrite)
      ensures bufferingEnabled ==> 0 < n && (n == |samples| || isFull) && Settled()
      ensures !bufferingEnabled ==> outputStopped == (n == 0)
      ensures bufferingEnabled && outputStopped && !old(outputStopped) ==> sink.refusals > old(sink.refusals)
      ensures sink.refusals >= old(sink.refusals)
      ensures !bufferingEnabled ==>
                if old(prebuf) then n == 0 && prebuf && unchanged(sink)
                else sink.refusals == old(sink.refusals) + if n == 0 then 1 else 0
      ensures bufferingEnabled && outputStopped ==> Count() > 0 || (old(outputStopped) && old(Empty()))
      ensures bufferingEnabled == old(bufferingEnabled) && flushPoints == old(flushPoints)
      ensures disableBufferingWhenFlushed == old(disableBufferingWhenFlushed)
      ensures acks == old(acks) && !isFlushing
      ensures !old(inputStopped) ==> resumes == old(resumes)
      ensures prebuf ==> old(prebuf)
      ensures old(Gated()) && bufferingEnabled ==> Gated() && unchanged(sink) && outputStopped == old(outputStopped)
      ensures old(Parked()) && bufferingEnabled ==> Parked() && sink.received == old(sink.received)
      ensures old(prebuf && !doOverwrite && bufferingEnabled) ==>
                (prebuf <==> Min(old(Count()) + |samples|, fifo.Length) < prebufSamples)
      ensures old(prebuf && !doOverwrite && bufferingEnabled) && prebuf ==>
                sink.received == old(sink.received) && Contents() == old(Contents()) + samples[..n]
    {
      hide Values, DeliveredOf, AllDelivered, Window, CountOf, Valid, Extends, Contents, Count, Shape, Parked;
      hide Settled, Available;
      n := TryThrough(samples);
      if bufferingEnabled {
        ghost var taken0 := taken;
        n := Buffer(samples, n);
        ExtendsTrans(old(taken), taken0, taken, !doOverwrite);
      } else {
        outputStopped := n == 0;
      }
    }

    // Samples go past the ring only if it is empty and does not prebuffer.
    method TryThrough(samples: seq<Sample>) returns (n: nat)
      requires Valid() && 0 < |samples|
      modifies this`taken, this`accepted, sink
      ensures Valid() && n <= |samples| && accepted == old(accepted) + samples[..n] && (!bufferingEnabled ==> Empty())
      ensures Extends(old(taken), taken, !doOverwrite) && (n > 0 ==> Empty())
      ensures if Empty() && !prebuf then sink.refusals == old(sink.refusals) + if n == 0 then 1 else 0
              else n == 0 && unchanged(sink)
      ensures old(Parked()) ==> Parked() && sink.received == old(sink.received)
    {
      hide Values, DeliveredOf, AllDelivered, Window, CountOf, Extends, Contents, Count, Parked;
      ExtendsSelf(taken, !doOverwrite);
      n := 0;
      assert accepted + samples[..0] == accepted;
      if Empty() && !prebuf {
        n := WriteThrough(samples);
        DeliveryExtends(old(taken), samples[..n], !doOverwrite);
      }
    }

    // New samples give up a flush in progress.
    method BeginWrite()
      modifies this`isIdle, this`cancels, this`isFlushing
      ensures !isFlushing && !isIdle && cancels == old(cancels) + if old(isFlushing) then 1 else 0
    {
      isIdle := false;
      if isFlushing {
        cancels := cancels + 1;
      }
      isFlushing := false;
    }

    /** Accepts a prefix of the samples: none when the ring is full, otherwise as many as fit. */
    method WriteSamples(samples: seq<Sample>) returns (n: nat)
      requires Valid() && 0 < |samples|
      modifies this`isIdle, this`cancels, this`head, this`tail, this`isFull, this`taken, this`accepted, fifo
      modifies this`prebuf
      modifies this`outputStopped, this`inputStopped, this`resumes
      modifies this`disableBufferingWhenFlushed, this`bufferingEnabled, this`isFlushing, this`acks, this`flushPoints
      modifies sink
      ensures Valid()
      ensures n <= |samples| && accepted == old(accepted) + samples[..n]
      ensures Extends(old(taken), taken, !doOverwrite)
      ensures old(isFull) ==> n == 0 && unchanged(sink) && taken == old(taken) && isFull
                              && outputStopped == old(outputStopped) && resumes == old(resumes)
      ensures !old(isFull) && bufferingEnabled ==> 0 < n && (n == |samples| || isFull) && Settled()
      ensures !old(isFull) && !bufferingEnabled ==> outputStopped == (n == 0)
      // The output is stopped by the sink, except where nothing is buffered but the prebuffer waits.
      ensures bufferingEnabled && outputStopped && !old(outputStopped) ==> sink.refusals > old(sink.refusals)
      ensures sink.refusals >= old(sink.refusals)
      ensures !old(isFull) && !bufferingEnabled ==>
                if old(prebuf) then n == 0 && prebuf && unchanged(sink)
                else sink.refusals == old(sink.refusals) + if n == 0 then 1 else 0
      ensures inputStopped <==> n == 0
      ensures bufferingEnabled && outputStopped ==> Count() > 0 || (old(outputStopped) && old(Empty()))
      ensures bufferingEnabled == old(bufferingEnabled) && flushPoints == old(flushPoints)
      ensures disableBufferingWhenFlushed == old(disableBufferingWhenFlushed)
      ensures acks == old(acks) && !isFlushing
      ensures !old(inputStopped) ==> resumes == old(resumes)
      ensures prebuf ==> old(prebuf)
      ensures cancels == old(cancels) + (if old(isFlushing) then 1 else 0) && requests == old(requests)
      ensures old(Gated()) && bufferingEnabled ==> Gated() && unchanged(sink) && outputStopped == old(outputStopped)
      ensures old(Parked()) && bufferingEnabled ==> Parked() && sink.received == old(sink.received)
      // The prebuffer holds back everything until it is reached, and then nothing more.
      ensures old(prebuf && !doOverwrite && bufferingEnabled && !isFull) ==>
                (prebuf <==> Min(old(Count()) + |samples|, fifo.Length) < prebufSamples)
      ensures old(prebuf && !doOverwrite && bufferingEnabled && !isFull) && prebuf ==>
                sink.received == old(sink.received) && Contents() == old(Contents()) + samples[..n]
    {
      hide Values, DeliveredOf, AllDelivered, Window, CountOf, Valid, Extends, Contents, Count, Shape, Parked;
      hide Settled, Available, Gated, Empty;
      ExtendsSelf(taken, !doOverwrite);
      BeginWrite();
      if isFull {
        inputStopped := true;
        return 0;
      }
      n := Accept(samples);
      inputStopped := n == 0;
    }

    method FlushSamples()
      requires Valid()
      modifies this`tail, this`isFull, this`taken, this`outputStopped, this`inputStopped, this`resumes, this`prebuf
      modifies this`requests
      modifies this`disableBufferingWhenFlushed, this`bufferingEnabled, this`isFlushing, this`acks, this`flushPoints
      modifies sink
      ensures Valid() && Settled()
      ensures Extends(old(taken), taken, true)
      ensures prebuf == (prebufSamples > 0)
      // Flushing is passed on at once when the ring is empty, or when it could be emptied.
      ensures old(Empty()) ==> flushPoints == old(flushPoints) + [(|accepted|, |accepted|)] && unchanged(sink)
      ensures !old(Empty()) && Count() > 0 ==> flushPoints == old(flushPoints) && isFlushing && outputStopped
      ensures !old(Empty()) && Count() == 0 ==> flushPoints == old(flushPoints) + [(|accepted|, |accepted|)]
      ensures acks == old(acks) + if isFlushing then 0 else 1
      ensures requests == old(requests) + if old(isFlushing) then 0 else 1
      ensures sink.isReader && Empty() ==> !isFlushing
      ensures isFull ==> old(isFull)
      ensures inputStopped ==> old(inputStopped) && (old(isFull) ==> isFull)
      ensures resumes == old(resumes) + if old(inputStopped) && !inputStopped then 1 else 0
      ensures !old(disableBufferingWhenFlushed) ==>
                bufferingEnabled == old(bufferingEnabled) && !disableBufferingWhenFlushed
      ensures outputStopped ==> old(outputStopped) || Count() > 0
      ensures sink.refusals == old(sink.refusals) + if outputStopped && !old(outputStopped) then 1 else 0
      ensures old(Parked()) && old(outputStopped || Empty()) ==>
                Parked() && sink.received == old(sink.received) && outputStopped == old(outputStopped)
    {
      hide Values, DeliveredOf, AllDelivered, Window, CountOf, Valid, Extends, Contents, Shape, Parked;
      hide Available, Settled;
      ExtendsSelf(taken, true);
      BeginFlush();
      if Empty() {
        AllTaken();
        SinkFlushSamples();
        EmptyIsSettled();
      } else {
        FlushRing();
      }
    }

    method BeginFlush()
      modifies this`requests, this`isFlushing, this`prebuf
      ensures isFlushing && prebuf == (prebufSamples > 0)
      ensures requests == old(requests) + if old(isFlushing) then 0 else 1
    {
      if !isFlushing {
        requests := requests + 1;
      }
      isFlushing := true;
      prebuf := prebufSamples > 0;
    }

    // flushSamples for a ring that still holds samples.
    method FlushRing()
      requires Valid() && isFlushing && !Empty()
      modifies this`tail, this`isFull, this`taken, this`outputStopped, this`inputStopped, this`resumes
      modifies this`disableBufferingWhenFlushed, this`bufferingEnabled, this`isFlushing, this`acks, this`flushPoints
      modifies sink
      ensures Valid() && Settled()
      ensures Extends(old(taken), taken, true)
      ensures Count() > 0 ==> flushPoints == old(flushPoints) && isFlushing && outputStopped
      ensures Count() == 0 ==> flushPoints == old(flushPoints) + [(|accepted|, |accepted|)]
      ensures acks == old(acks) + if isFlushing then 0 else 1
      ensures sink.isReader && Empty() ==> !isFlushing
      ensures isFull ==> old(isFull)
      ensures inputStopped ==> old(inputStopped) && (old(isFull) ==> isFull)
      ensures resumes == old(resumes) + if old(inputStopped) && !inputStopped then 1 else 0
      ensures !old(disableBufferingWhenFlushed) ==>
                bufferingEnabled == old(bufferingEnabled) && !disableBufferingWhenFlushed
      ensures outputStopped ==> old(outputStopped) || Count() > 0
      ensures sink.refusals == old(sink.refusals) + if outputStopped && !old(outputStopped) then 1 else 0
      ensures old(Parked()) && old(outputStopped) ==>
                Parked() && sink.received == old(sink.received) && outputStopped == old(outputStopped)
    {
      hide Values, DeliveredOf, AllDelivered, Window, CountOf, Valid, Extends, Contents, Shape;
      ghost var out;
      out := WriteSamplesFromFifo();
      DeliveryExtends(old(taken), out, true);
      if Empty() {
        AllTaken();
      }
    }

    lemma EmptyIsSettled()
      requires Shape()
      ensures Empty() ==> Settled()
    {
    }

    // An empty ring means that everything accepted has left it.
    lemma AllTaken()
      requires Valid() && Empty()
      ensures |taken| == |accepted|
    {
    }

    // The ring has lost its front to the sink, and to the buffer of a reader.
    ghost predicate FrontWent(received: seq<Sample>, before: seq<Sample>, target: nat, filled: seq<Sample>)
      reads `fifo, `head, `tail, `isFull, fifo, sink
    {
      Shape() && Count() <= |before| &&
      var k := |before| - Count();
      && sink.received == received + before[..k] && Contents() == before[k..]
      && sink.Took(target, filled, before[..k])
    }

    lemma FrontGone(received: seq<Sample>, before: seq<Sample>, out: seq<Sample>, target: nat, filled: seq<Sample>)
      requires Shape() && before == out + Contents() && sink.received == received + out
      ensures sink.Took(target, filled, out) ==> FrontWent(received, before, target, filled)
    {
      hide Sink.Took, Contents;
      assert before[..|out|] == out && before[|out|..] == Contents();
    }

    method ResumeOutput()
      requires Valid()
      modifies this`tail, this`isFull, this`taken, this`outputStopped, this`inputStopped, this`resumes
      modifies this`disableBufferingWhenFlushed, this`bufferingEnabled, this`isFlushing, this`acks, this`flushPoints
      modifies sink
      ensures Valid()
      ensures Extends(old(taken), taken, true)
      ensures old(outputStopped) && old(bufferingEnabled) ==> Settled()
      ensures !old(disableBufferingWhenFlushed) ==>
                bufferingEnabled == old(bufferingEnabled) && !disableBufferingWhenFlushed
      ensures outputStopped ==> old(outputStopped) && Count() > 0
      ensures sink.refusals == old(sink.refusals) + if outputStopped then 1 else 0
      ensures !old(outputStopped) ==> unchanged(sink) && unchanged(this)
      ensures !old(bufferingEnabled) ==> unchanged(sink)
      // A source stopped by the full ring hears of the first free slot.
      ensures isFull ==> old(isFull)
      ensures inputStopped ==> old(inputStopped) && (old(isFull) ==> isFull || !old(bufferingEnabled))
      ensures old(bufferingEnabled) ==> resumes == old(resumes) + if old(inputStopped) && !inputStopped then 1 else 0
      ensures old(outputStopped && !bufferingEnabled && inputStopped) ==> resumes == old(resumes) + 1
      ensures (isFlushing ==> old(isFlushing)) && (!Empty() ==> isFlushing == old(isFlushing))
      ensures sink.isReader && Empty() && !old(Empty()) && old(bufferingEnabled) ==> !isFlushing
      ensures acks == old(acks) + if old(isFlushing) && !isFlushing then 1 else 0
      ensures old(outputStopped && isFlushing && !Empty() && bufferingEnabled) && Count() == 0 ==>
                flushPoints == old(flushPoints) + [(|accepted|, |accepted|)]
      ensures Count() <= old(Count())
      ensures old(outputStopped && bufferingEnabled && sink.isReader && Available() > 0) ==>
                && FrontWent(old(sink.received), old(Contents()), old(sink.readTarget), old(sink.readBuf))
                && (outputStopped <==> sink.inputStopped)
                && (Count() > 0 ==> sink.Room() == 0)
    {
      hide Values, DeliveredOf, AllDelivered, Window, CountOf, Wrap, Valid, Extends, Shape, Contents;
      hide Sink.Took, Sink.Room, Settled, Available, FrontWent;
      ExtendsSelf(taken, true);
      if outputStopped {
        outputStopped := false;
        if bufferingEnabled {
          ghost var received, before := sink.received, Contents();
          ghost var target, filled, out := sink.readTarget, sink.readBuf, [];
          out := WriteSamplesFromFifo();
          DeliveryExtends(old(taken), out, true);
          FrontGone(received, before, out, target, filled);
          if Empty() {
            AllTaken();
          }
        } else if inputStopped {
          resumes := resumes + 1;
        }
      }
    }

    // Empties the ring at once; everything that was in it has been discarded.
    method Reset(wasEmpty: bool)
      requires 0 < fifo.Length && sink.Valid()
      requires accepted == Values(taken) && sink.received == DeliveredOf(taken)
      requires forall p :: p in flushPoints ==> p.0 == p.1
      modifies this`head, this`tail, this`isFull, this`prebuf, this`outputStopped
      modifies this`disableBufferingWhenFlushed, this`bufferingEnabled, this`isFlushing, this`acks, this`flushPoints
      ensures Valid() && Empty() && !outputStopped
      ensures prebuf == (prebufSamples > 0)
      ensures flushPoints == old(flushPoints) +
                if old(isFlushing) && !wasEmpty then [(|accepted|, |accepted|)] else []
      ensures acks == old(acks) + if old(isFlushing) && !isFlushing then 1 else 0
      ensures isFlushing ==> old(isFlushing)
      ensures !(old(isFlushing) && !wasEmpty) ==>
                isFlushing == old(isFlushing) && bufferingEnabled == old(bufferingEnabled)
    {
      hide Values, DeliveredOf, Window, CountOf;
      isFull := false;
      tail, head := 0, 0;
      prebuf := prebufSamples > 0;
      outputStopped := false;
      EmptyContents();
      if isFlushing && !wasEmpty {
        AllTaken();
        SinkFlushSamples();
      }
    }

    lemma EmptyContents()
      requires Shape() && Empty()
      ensures Contents() == [] && Values(taken) + Contents() == Values(taken)
    {
    }

    method DiscardAll(ghost buffered: seq<Sample>)
      requires accepted == Values(taken) + buffered && sink.received == DeliveredOf(taken)
      modifies this`taken
      ensures accepted == Values(taken) && sink.received == DeliveredOf(taken)
      ensures taken == old(taken) + AllDiscarded(buffered)
    {
      hide Values, DeliveredOf, AllDiscarded;
      DiscardEverything(taken, buffered);
      taken := taken + AllDiscarded(buffered);
    }

    /** Drops everything buffered, and passes a flush on that was waiting for it. A source that was
        stopped by the full ring stays stopped: the pending resume is not issued, although there is
        room again. */
    method Clear()
      requires Valid()
      modifies this`head, this`tail, this`isFull, this`taken, this`prebuf, this`outputStopped
      modifies this`disableBufferingWhenFlushed, this`bufferingEnabled, this`isFlushing, this`acks, this`flushPoints
      ensures Valid() && Empty() && !outputStopped
      ensures taken == old(taken) + AllDiscarded(old(Contents()))
      ensures prebuf == (prebufSamples > 0)
      ensures flushPoints == old(flushPoints) +
                if old(isFlushing && !Empty()) then [(|accepted|, |accepted|)] else []
      ensures acks == old(acks) + if old(isFlushing) && !isFlushing then 1 else 0
      ensures isFlushing ==> old(isFlushing)
      ensures !old(isFlushing && !Empty()) ==>
                isFlushing == old(isFlushing) && bufferingEnabled == old(bufferingEnabled)
    {
      hide Values, DeliveredOf, AllDiscarded, Window, CountOf;
      var wasEmpty := Empty();
      DiscardAll(Contents());
      Reset(wasEmpty);
    }

    // As clear, which is called last, in a ring of the new size.
    method SetSize(newSize: nat)
      requires Valid() && 0 < newSize
      modifies this`fifo, this`head, this`tail, this`isFull, this`taken, this`prebuf, this`outputStopped
      modifies this`disableBufferingWhenFlushed, this`bufferingEnabled, this`isFlushing, this`acks, this`flushPoints
      ensures Valid() && Empty() && !outputStopped && fifo.Length == newSize
      ensures fifo == old(fifo) || fresh(fifo)
      ensures taken == old(taken) + AllDiscarded(old(Contents()))
      ensures prebuf == (prebufSamples > 0)
      ensures flushPoints == old(flushPoints) +
                if old(isFlushing && !Empty()) then [(|accepted|, |accepted|)] else []
      ensures acks == old(acks) + if old(isFlushing) && !isFlushing then 1 else 0
      ensures isFlushing ==> old(isFlushing)
      ensures !old(isFlushing && !Empty()) ==>
                isFlushing == old(isFlushing) && bufferingEnabled == old(bufferingEnabled)
    {
      hide Values, DeliveredOf, AllDiscarded, Window, CountOf;
      var wasEmpty := Empty();
      DiscardAll(Contents());
      if newSize != fifo.Length {
        fifo := new Sample[newSize];
      }
      Reset(wasEmpty);
    }

    method SetPrebufSamples(samples: nat)
      requires Valid()
      modifies this`prebufSamples, this`prebuf
      ensures Valid()
      ensures prebufSamples == Min(samples, fifo.Length - 1) && PrebufFits()
      ensures prebuf == if Empty() then samples > 0 else old(prebuf)
    {
      prebufSamples := Min(samples, fifo.Length - 1);
      if Empty() {
        prebuf := samples > 0;
      }
    }

    // Holds after every setPrebufSamples; setSize can break it.
    predicate PrebufFits()
      reads `prebufSamples, `fifo
    {
      prebufSamples <= fifo.Length - 1
    }

    method EnableBuffering(enable: bool)
      requires Valid()
      modifies this`disableBufferingWhenFlushed, this`bufferingEnabled, this`resumes
      ensures Valid()
      ensures enable ==> bufferingEnabled && !disableBufferingWhenFlushed
      ensures resumes == old(resumes) + if enable && !old(bufferingEnabled) && inputStopped then 1 else 0
      ensures !enable ==> bufferingEnabled == (old(bufferingEnabled) && !Empty())
      ensures disableBufferingWhenFlushed == (!enable && (old(disableBufferingWhenFlushed) || bufferingEnabled))
    {
      if enable {
        disableBufferingWhenFlushed := false;
        if !bufferingEnabled {
          bufferingEnabled := true;
          if inputStopped {
            resumes := resumes + 1;
          }
        }
      } else {
        if bufferingEnabled {
          if Empty() {
            bufferingEnabled := false;
          } else {
            disableBufferingWhenFlushed := true;
          }
        }
      }
    }

    method SetOverwrite(overwrite: bool)
      requires Valid()
      modifies this`doOverwrite
      ensures Valid() && doOverwrite == overwrite
    {
      doOverwrite := overwrite;
    }
  }

  // Whether a full ring gets past the prebuffer gate.
  lemma FullRingPassesGate(f: AudioFifo)
    requires f.Shape() && f.isFull
    ensures f.Available() == 0 <==> f.prebuf && !f.isFlushing && f.fifo.Length < f.prebufSamples
    ensures f.PrebufFits() ==> f.Available() > 0
  {
    assert f.Count() == f.fifo.Length;
  }

  // While nothing is thrown away, the sink has received the accepted stream up to what is buffered.
  lemma LosslessConserves(f: AudioFifo)
    requires f.Valid() && Extends([], f.taken, true)
    ensures f.accepted == f.sink.received + f.Contents()
    ensures f.Contents() == f.accepted[|f.sink.received|..]
  {
    assert f.taken[0..] == f.taken;
    NothingLost(f.taken);
  }

  // What the neighbours of a FIFO, and its owner, can do to it.
  datatype Event =
    | Write(samples: seq<Sample>)
    | Flush
    | Resume
    | Flushed
    | Prebuffer(n: nat)
    | Clear
    | SetSize(size: nat)
    | Buffering(enable: bool)
    | Overwrite(overwrite: bool)

  // The events that leave a FIFO buffering and lossless.
  predicate Plain(e: Event) {
    e.Write? || e.Flush? || e.Resume? || e.Flushed? || e.Prebuffer?
  }

  // The states of a buffering, non-overwriting FIFO between two such events.
  ghost predicate Streaming(f: AudioFifo)
    reads f, f.fifo, f.sink
  {
    && f.Valid() && f.PrebufFits()
    && f.bufferingEnabled && !f.disableBufferingWhenFlushed && !f.doOverwrite
    && Extends([], f.taken, true)
    && (f.inputStopped ==> f.isFull)
    && (f.isFull ==> f.outputStopped)
  }

  method PlainStep(f: AudioFifo, e: Event)
    requires Streaming(f) && Plain(e)
    modifies f, f.fifo, f.sink
    ensures Streaming(f) && f.fifo == old(f.fifo)
    ensures f.resumes == old(f.resumes) + if old(f.inputStopped) && !f.inputStopped then 1 else 0
    ensures f.outputStopped ==> f.sink.refusals > old(f.sink.refusals) || (old(f.outputStopped) && !e.Resume?)
    ensures f.sink.refusals >= old(f.sink.refusals)
  {
    hide Values, DeliveredOf, AllDelivered, AllDiscarded, Window, CountOf, Extends, AudioFifo.Valid;
    hide AudioFifo.Parked, AudioFifo.Gated;
    if e.Write? {
      if e.samples != [] {
        PlainWrite(f, e.samples);
      }
      return;
    }
    ghost var taken0 := f.taken;
    ExtendsSelf(taken0, true);
    match e {
      case Flush =>
        f.FlushSamples();
      case Resume =>
        f.ResumeOutput();
      case Flushed =>
        f.AllSamplesFlushed();
      case Prebuffer(n) =>
        f.SetPrebufSamples(n);
      case _ =>
    }
    ExtendsTrans([], taken0, f.taken, true);
    if f.isFull {
      FullRingPassesGate(f);
    }
  }

  method PlainWrite(f: AudioFifo, samples: seq<Sample>)
    requires Streaming(f) && samples != []
    modifies f, f.fifo, f.sink
    ensures Streaming(f) && f.fifo == old(f.fifo)
    ensures f.resumes == old(f.resumes) + if old(f.inputStopped) && !f.inputStopped then 1 else 0
    ensures f.outputStopped ==> f.sink.refusals > old(f.sink.refusals) || old(f.outputStopped)
    ensures f.sink.refusals >= old(f.sink.refusals)
  {
    hide Values, DeliveredOf, AllDelivered, AllDiscarded, Window, CountOf, Extends, AudioFifo.Valid;
    hide AudioFifo.Parked, AudioFifo.Gated, AudioFifo.Contents;
    ghost var taken0 := f.taken;
    var n := f.WriteSamples(samples);
    ExtendsTrans([], taken0, f.taken, true);
    if f.isFull {
      FullRingPassesGate(f);
    }
  }

  /** Any run of a buffering, non-overwriting FIFO against any sink: no sample is lost, repeated or
      reordered; each stop of the source is answered by one resume; and a stopped source means
      that the sink has refused samples since it last resumed the output, so that a resume is still
      to come. */
  method Run(fifoSize: nat, events: seq<Event>) returns (f: AudioFifo, ghost stops: nat, ghost at: seq<nat>)
    requires 0 < fifoSize && forall e :: e in events ==> Plain(e)
    ensures f.Valid() && f.accepted == f.sink.received + f.Contents()
    ensures f.inputStopped ==> f.isFull && f.outputStopped
    // The refusals up to each event.
    ensures |at| == |events| + 1 && at[0] == 0 && at[|events|] == f.sink.refusals
    ensures f.outputStopped ==> RefusedSince(events, at)
    ensures f.resumes == stops - if f.inputStopped then 1 else 0
    ensures forall p :: p in f.flushPoints ==> p.0 == p.1
  {
    hide Values, DeliveredOf, Window, CountOf, Extends, RefusedSince, AudioFifo.Contents, Plain;
    var sink := new Sink(false);
    f := new AudioFifo(fifoSize, sink);
    ExtendsSelf(f.taken, true);
    stops, at := 0, [0];
    for i := 0 to |events|
      invariant Streaming(f) && fresh(f) && fresh(f.fifo) && fresh(f.sink)
      invariant |at| == i + 1 && at[0] == 0 && at[i] == f.sink.refusals
      invariant f.outputStopped ==> RefusedSince(events[..i], at)
      invariant f.resumes == stops - if f.inputStopped then 1 else 0
    {
      ghost var wasStopped := f.inputStopped;
      ghost var was := at;
      PlainStep(f, events[i]);
      at := at + [f.sink.refusals];
      if f.outputStopped {
        StillRefused(events[..i], was, events[i], f.sink.refusals);
        assert events[..i] + [events[i]] == events[..i + 1];
      }
      if !wasStopped && f.inputStopped {
        stops := stops + 1;
      }
    }
    LosslessConserves(f);
    assert events[..|events|] == events;
  }

  // The sink has refused samples in an event after which it has not resumed the output.
  ghost predicate RefusedSince(events: seq<Event>, at: seq<nat>)
    requires |at| == |events| + 1
  {
    exists k :: RefusedIn(events, at, k)
  }

  ghost predicate RefusedIn(events: seq<Event>, at: seq<nat>, k: int)
    requires |at| == |events| + 1
  {
    0 <= k < |events| && at[k] < at[k + 1] && forall j :: k < j < |events| ==> !events[j].Resume?
  }

  lemma StillRefused(events: seq<Event>, at: seq<nat>, e: Event, refusals: nat)
    requires |at| == |events| + 1
    requires at[|events|] < refusals || (RefusedSince(events, at) && !e.Resume?)
    ensures RefusedSince(events + [e], at + [refusals])
  {
    if at[|events|] < refusals {
      assert RefusedIn(events + [e], at + [refusals], |events|);
    } else {
      var k :| RefusedIn(events, at, k);
      assert RefusedIn(events + [e], at + [refusals], k);
    }
  }

  method Step(f: AudioFifo, e: Event)
    requires f.Valid() && f.LedgerOK()
    modifies f, f.fifo, f.sink
    ensures f.Valid() && f.LedgerOK() && (f.fifo == old(f.fifo) || fresh(f.fifo))
  {
    hide Values, DeliveredOf, AllDelivered, AllDiscarded, Window, CountOf, Extends, AudioFifo.Valid;
    match e {
      case Write(samples) =>
        if samples != [] {
          var n := f.WriteSamples(samples);
        }
      case Flush => f.FlushSamples();
      case Resume => f.ResumeOutput();
      case Flushed => f.AllSamplesFlushed();
      case Prebuffer(n) => f.SetPrebufSamples(n);
      case Clear => f.Clear();
      case SetSize(size) =>
        if size > 0 {
          f.SetSize(size);
        }
      case Buffering(enable) => f.EnableBuffering(enable);
      case Overwrite(overwrite) => f.SetOverwrite(overwrite);
    }
  }

  /** Any run of any operations: the log tells what became of every accepted sample, delivered or
      discarded, in order, the ring holds the rest, and every flush is acknowledged once, given up
      by a write, or open. A flush goes downstream only when the ring is empty. */
  method RunAll(fifoSize: nat, events: seq<Event>) returns (f: AudioFifo)
    requires 0 < fifoSize
    ensures f.Valid() && f.accepted == Values(f.taken) + f.Contents() && f.sink.received == DeliveredOf(f.taken)
    ensures f.requests == f.acks + f.cancels + if f.isFlushing then 1 else 0
    ensures forall p :: p in f.flushPoints ==> p.0 == p.1
  {
    hide Values, DeliveredOf;
    var sink := new Sink(false);
    f := new AudioFifo(fifoSize, sink);
    for i := 0 to |events|
      invariant f.Valid() && f.LedgerOK() && fresh(f) && fresh(f.fifo) && fresh(f.sink)
    {
      Step(f, events[i]);
    }
  }

  // --- Stopped for good ---

  // What the sink can do.
  datatype SinkCall = HasRoom | HasFlushed

  method Answer(f: AudioFifo, call: SinkCall)
    requires f.Valid() && !f.outputStopped
    modifies f, f.sink
    ensures f.Valid() && f.fifo == old(f.fifo) && !f.outputStopped
    ensures f.inputStopped == old(f.inputStopped) && f.resumes == old(f.resumes)
            && f.sink.received == old(f.sink.received)
    ensures f.isFull == old(f.isFull) && f.Empty() == old(f.Empty()) && f.accepted == old(f.accepted)
    ensures !f.Empty() ==> f.bufferingEnabled == old(f.bufferingEnabled)
    ensures f.Gated() == old(f.Gated()) && (f.isFlushing ==> old(f.isFlushing))
  {
    hide AudioFifo.Valid, Values, DeliveredOf, Extends, Window;
    match call {
      case HasRoom => f.ResumeOutput();
      case HasFlushed => f.AllSamplesFlushed();
    }
  }

  /** After a clear, whatever the sink does, the source is stopped if and only if it was stopped
      before: there is room, and nobody tells it. */
  method ClearStrands(f: AudioFifo, calls: seq<SinkCall>)
    requires f.Valid()
    modifies f, f.sink
    ensures f.Valid() && f.Empty()
    ensures f.inputStopped == old(f.inputStopped) && f.resumes == old(f.resumes)
  {
    hide AudioFifo.Valid;
    f.Clear();
    for i := 0 to |calls|
      invariant f.Valid() && f.Empty() && !f.outputStopped
      invariant f.inputStopped == old(f.inputStopped) && f.resumes == old(f.resumes)
    {
      Answer(f, calls[i]);
    }
  }

  // A ring of one slot, a sink that takes nothing, and two writes stop a source.
  method StrandedByClear(a: Sample, b: Sample, calls: seq<SinkCall>) returns (f: AudioFifo)
    ensures f.Valid() && f.Empty() && f.inputStopped && f.resumes == 0
  {
    hide Values, DeliveredOf;
    var sink := new Sink(true);
    f := new AudioFifo(1, sink);
    var n := f.WriteSamples([a]);
    LosslessConserves(f);
    n := f.WriteSamples([b]);
    ClearStrands(f, calls);
  }

  // What can happen to a FIFO while nobody flushes or reconfigures it.
  datatype Traffic = Offer(samples: seq<Sample>) | FromSink(call: SinkCall)

  /** A full ring behind a prebuffer that it can never fill stays full for good, although the sink
      has not refused anything: no sample leaves it and every write is refused. */
  method StuckBehindGate(f: AudioFifo, traffic: seq<Traffic>)
    requires f.Valid() && f.bufferingEnabled && f.isFull && f.Gated() && !f.isFlushing && !f.outputStopped
    modifies f, f.fifo, f.sink
    ensures f.Valid() && f.isFull && f.Gated() && !f.isFlushing && !f.outputStopped
    ensures f.sink.received == old(f.sink.received) && f.accepted == old(f.accepted) && f.resumes == old(f.resumes)
  {
    hide AudioFifo.Valid, Values, DeliveredOf, Extends, Window;
    for i := 0 to |traffic|
      invariant f.Valid() && f.bufferingEnabled && f.isFull && f.Gated() && !f.isFlushing && !f.outputStopped
      invariant f.fifo == old(f.fifo)
      invariant f.sink.received == old(f.sink.received) && f.accepted == old(f.accepted) && f.resumes == old(f.resumes)
    {
      match traffic[i] {
        case Offer(samples) =>
          if samples != [] {
            var n := f.WriteSamples(samples);
            assert f.accepted == old(f.accepted) + samples[..0];
          }
        case FromSink(call) =>
          Answer(f, call);
      }
    }
  }

  // What can happen to a FIFO while nobody reconfigures it.
  datatype Attempt = TryWrite(samples: seq<Sample>) | TryFlush | TrySink(call: SinkCall)

  /** A FIFO that prebuffers with buffering switched off refuses every write, although there is nothing
      to wait for: the sink is never asked, and however often it resumes the output or the source
      flushes, this stays so. */
  method DeafWithoutBuffer(f: AudioFifo, attempts: seq<Attempt>)
    requires f.Valid() && !f.bufferingEnabled && !f.disableBufferingWhenFlushed && f.prebuf && f.prebufSamples > 0
    modifies f, f.fifo, f.sink
    ensures f.Valid() && !f.bufferingEnabled && f.prebuf && f.accepted == old(f.accepted) && unchanged(f.sink)
    ensures attempts != [] && (var last := attempts[|attempts| - 1]; last.TryWrite? && last.samples != []) ==>
              f.inputStopped && f.outputStopped
  {
    hide AudioFifo.Valid, Values, DeliveredOf, Extends, Window, AudioFifo.Parked, AudioFifo.Settled, AudioFifo.Contents;
    for i := 0 to |attempts|
      invariant f.Valid() && !f.bufferingEnabled && !f.disableBufferingWhenFlushed && f.prebuf && f.prebufSamples > 0
      invariant f.fifo == old(f.fifo) && f.accepted == old(f.accepted) && unchanged(f.sink)
      invariant i > 0 && attempts[i - 1].TryWrite? && attempts[i - 1].samples != [] ==>
                  f.inputStopped && f.outputStopped
    {
      Attempted(f, attempts[i]);
    }
  }

  method Attempted(f: AudioFifo, attempt: Attempt)
    requires f.Valid() && !f.bufferingEnabled && !f.disableBufferingWhenFlushed && f.prebuf && f.prebufSamples > 0
    modifies f, f.fifo, f.sink
    ensures f.Valid() && !f.bufferingEnabled && !f.disableBufferingWhenFlushed && f.prebuf && f.prebufSamples > 0
    ensures f.fifo == old(f.fifo) && f.accepted == old(f.accepted) && unchanged(f.sink)
    ensures attempt.TryWrite? && attempt.samples != [] ==> f.inputStopped && f.outputStopped
  {
    hide Values, DeliveredOf, Extends, Window, CountOf, AudioFifo.Parked, AudioFifo.Settled;
    match attempt {
      case TryWrite(samples) =>
        if samples != [] {
          var n := f.WriteSamples(samples);
          assert old(f.accepted) + samples[..0] == old(f.accepted);
        }
      case TryFlush => f.FlushSamples();
      case TrySink(HasRoom) => f.ResumeOutput();
      case TrySink(HasFlushed) => f.AllSamplesFlushed();
    }
  }

  // A prebuffer, buffering switched off, and one write.
  method DeafExample(a: Sample) returns (f: AudioFifo)
    ensures f.Valid() && f.inputStopped && f.outputStopped && f.sink.refusals == 0 && f.accepted == []
  {
    hide Values, DeliveredOf, Extends, Window, AudioFifo.Parked, AudioFifo.Settled;
    var sink := new Sink(false);
    f := new AudioFifo(2, sink);
    f.SetPrebufSamples(1);
    f.EnableBuffering(false);
    DeafWithoutBuffer(f, [TryWrite([a])]);
  }

  // A prebuffer set for a large ring, and then a smaller ring.
  method SmallRing() returns (f: AudioFifo)
    ensures f.Valid() && f.Gated() && !f.isFlushing && !f.outputStopped && !f.isFull && !f.doOverwrite
    ensures fresh(f) && fresh(f.fifo) && fresh(f.sink) && f.bufferingEnabled && f.fifo.Length == 5
    ensures f.accepted == [] && f.taken == [] && f.sink.received == []
  {
    hide Values, DeliveredOf, Extends, Window, AllDiscarded, AudioFifo.Valid, AudioFifo.Contents;
    var sink := new Sink(false);
    f := new AudioFifo(10, sink);
    f.SetPrebufSamples(9);
    f.SetSize(5);
    NothingDiscarded(f);
  }

  // Filling that ring closes the gate.
  method GateExample(samples: seq<Sample>) returns (f: AudioFifo)
    requires |samples| == 5
    ensures f.Valid() && f.isFull && f.Gated() && !f.isFlushing && !f.outputStopped && f.sink.received == []
  {
    hide Values, DeliveredOf, Extends, Window, AudioFifo.Valid, AudioFifo.Contents, AudioFifo.Settled, AudioFifo.Parked;
    f := SmallRing();
    var n := f.WriteSamples(samples);
    FullWhenAllIn(f, samples, n);
  }

  lemma NothingDiscarded(f: AudioFifo)
    requires f.Valid() && f.accepted == []
    ensures f.taken == [] && f.sink.received == []
  {
  }

  lemma FullWhenAllIn(f: AudioFifo, samples: seq<Sample>, n: nat)
    requires f.Valid() && Extends([], f.taken, true) && f.sink.received == []
    requires n <= |samples| == f.fifo.Length && f.accepted == samples[..n] && (n == |samples| || f.isFull)
    ensures f.isFull
  {
    hide Values, DeliveredOf, Extends;
    LosslessConserves(f);
    assert |f.accepted| == f.Count();
  }
}
