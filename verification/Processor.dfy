/** AudioProcessor: feeds a resampling stage in whole blocks and buffers its output for a sink
    that may take any part of it (src/async/audio/AsyncAudioProcessor.cpp). */
module Processor {
  import opened AudioPipe
  import opened Ring
  import opened Fir
  import opened Resamplers

  const BUFSIZE: nat := 256

  // The two subclasses that change the sample rate.
  datatype Stage = Down(dec: AudioDecimator) | Up(inter: AudioInterpolator)

  class AudioProcessor {
    const stage: Stage
    const buf: array<Sample>
    var bufCnt: nat
    var doFlush: bool
    var inputStopped: bool
    var outputStopped: bool
    const inputRate: nat
    const outputRate: nat
    const inputBuf: array<Sample>
    var inputBufCnt: nat
    const inputBufSize: nat
    const sink: Sink

    // History: the input stream, including the silence a flush pads it with; the part of it that
    // has been processed; everything the stage has put out; and the work handed to the event loop.
    ghost var stream: seq<Sample>
    ghost var processed: seq<Sample>
    ghost var produced: seq<Sample>
    ghost var flushTasks: nat
    ghost var resumeTasks: nat
    ghost var acks: nat

    // History of the flushes: whether the source waits for one; how many of those passed on have
    // reached the sink; whether the sink has one to acknowledge, having taken no samples since; the
    // acknowledgements that came to a source that did not wait or before its samples were out; and
    // whether anything came out of turn: a write or another flush while one was on its way, or an
    // acknowledgement that the sink did not owe.
    ghost var asked: bool
    ghost var ran: nat
    ghost var owed: bool
    ghost var wrong: nat
    ghost var crossed: bool

    ghost function StageObjects(): set<object> {
      match stage
      case Down(d) => {d, d.delay}
      case Up(i) => {i, i.delay}
    }

    // The output that a stage owes for an input stream.
    ghost function Resampled(x: seq<Sample>): seq<Sample>
      requires RatesOK()
    {
      match stage
      case Down(d) => Decimated(d.coeff, d.factorM, x)
      case Up(i) => Interpolated(i.Used(), i.factorL, x)
    }

    ghost predicate RatesOK() {
      && match stage {
        case Down(d) => 0 < d.factorM <= |d.coeff| && inputRate == d.factorM && outputRate == 1
        case Up(i) => 0 < i.factorL && 0 <= Times(i.taps, i.factorL) <= |i.coeff| && inputRate == 1
             && outputRate == i.factorL
      }
      && inputBufSize == (if inputRate > outputRate then inputRate / outputRate else 0)
      && inputBuf.Length == inputBufSize
    }

    // The stage has seen exactly the processed part of the stream.
    ghost predicate StageValid()
      reads `processed, StageObjects()
      ensures StageValid() ==> RatesOK()
    {
      && RatesOK()
      && match stage {
        case Down(d) => d.Valid() && d.history == processed
        case Up(i) => i.Valid() && i.history == processed
      }
    }

    ghost predicate StageOK()
      reads `processed, `produced, StageObjects()
      ensures StageOK() ==> RatesOK()
    {
      StageValid() && produced == Resampled(processed)
    }

    ghost predicate Separate() {
      && buf != inputBuf && buf !in StageObjects() && inputBuf !in StageObjects()
      && sink !in StageObjects() && this !in StageObjects() && buf.Length == BUFSIZE
    }

    // What the sink has and what is still buffered make up the output.
    ghost predicate OutputOK()
      reads `produced, `bufCnt, buf, sink
    {
      && buf.Length == BUFSIZE && bufCnt <= BUFSIZE && sink.Valid()
      && produced == sink.received + buf[..bufCnt]
    }

    // Less than a block waits in the input buffer.
    ghost predicate InputOK()
      reads `stream, `processed, `inputBufCnt, inputBuf
    {
      && inputBufCnt <= inputBuf.Length && (inputBufCnt > 0 ==> inputBufCnt < inputBufSize)
      && stream == processed + inputBuf[..inputBufCnt]
    }

    ghost predicate Valid()
      reads `stream, `processed, `produced, `bufCnt, `inputBufCnt, `outputStopped
      reads StageObjects(), buf, inputBuf, sink
      ensures Valid() ==> RatesOK()
    {
      && Separate() && StageOK() && OutputOK() && InputOK()
      && StopOK()
    }

    // The sink is asked to resume only when there is output for it.
    ghost predicate StopOK()
      reads `bufCnt, `outputStopped
    {
      outputStopped ==> bufCnt > 0
    }

    // The event loop still has a flush for the sink.
    ghost predicate Queued()
      reads `ran, `flushTasks
    {
      ran < flushTasks
    }

    // While nothing came out of turn, a flush on its way is what the source waits for, with all samples
    // out, and there is no more than one.
    ghost predicate TasksOK()
      reads `ran, `flushTasks, `owed, `asked, `wrong, `crossed, `doFlush, `bufCnt, `inputBufCnt
    {
      && ran <= flushTasks && (doFlush ==> asked && bufCnt > 0)
      && (!crossed ==>
            && wrong == 0 && (Queued() || owed ==> asked && bufCnt == inputBufCnt == 0)
            && flushTasks <= ran + 1 && !(Queued() && owed))
    }

    // Buffered output is waiting for the sink, which has stopped it.
    predicate Attended()
      reads `bufCnt, `outputStopped
    {
      bufCnt > 0 ==> outputStopped
    }

    constructor Decimating(dec: AudioDecimator, sink: Sink)
      requires dec.Valid() && dec.history == [] && sink.Valid() && sink.received == []
      ensures Valid() && fresh(buf) && fresh(inputBuf) && stage == Down(dec) && this.sink == sink
      ensures stream == [] && bufCnt == 0 && inputBufCnt == 0 && !doFlush && !inputStopped && !outputStopped
      ensures flushTasks == resumeTasks == acks == wrong == 0 && !crossed && TasksOK()
    {
      stage := Down(dec);
      inputRate, outputRate := dec.factorM, 1;
      inputBufSize := if dec.factorM > 1 then dec.factorM / 1 else 0;
      buf := new Sample[BUFSIZE];
      inputBuf := new Sample[if dec.factorM > 1 then dec.factorM / 1 else 0];
      bufCnt, inputBufCnt := 0, 0;
      doFlush, inputStopped, outputStopped := false, false, false;
      this.sink := sink;
      stream, processed, produced, flushTasks, resumeTasks, acks := [], [], [], 0, 0, 0;
      asked, ran, owed, wrong, crossed := false, 0, false, 0, false;
      new;
      assert Decimated(dec.coeff, dec.factorM, []) == [];
    }

    constructor Interpolating(inter: AudioInterpolator, sink: Sink)
      requires inter.Valid() && inter.history == [] && sink.Valid() && sink.received == []
      ensures Valid() && fresh(buf) && fresh(inputBuf) && stage == Up(inter) && this.sink == sink
      ensures stream == [] && bufCnt == 0 && inputBufCnt == 0 && !doFlush && !inputStopped && !outputStopped
      ensures flushTasks == resumeTasks == acks == wrong == 0 && !crossed && TasksOK()
    {
      stage := Up(inter);
      inputRate, outputRate := 1, inter.factorL;
      inputBufSize := 0;
      buf := new Sample[BUFSIZE];
      inputBuf := new Sample[0];
      bufCnt, inputBufCnt := 0, 0;
      doFlush, inputStopped, outputStopped := false, false, false;
      this.sink := sink;
      stream, processed, produced, flushTasks, resumeTasks, acks := [], [], [], 0, 0, 0;
      asked, ran, owed, wrong, crossed := false, 0, false, 0, false;
      new;
      TimesSteps(0, inter.factorL);
      assert Interpolated(inter.Used(), inter.factorL, []) == [];
    }

    // --- Room in the output buffer ---

    // The number of outputs for n inputs.
    ghost function OutLen(n: nat): nat
      requires RatesOK()
    {
      if stage.Down? then n / inputRate else
        TimesMonotone(0, n, outputRate);
        TimesSteps(0, outputRate);
        Times(n, outputRate)
    }

    // The most inputs that can be processed with b outputs already buffered.
    ghost function MaxFor(b: nat): (n: nat)
      requires RatesOK() && b <= BUFSIZE
    {
      if stage.Down? then
        TimesMonotone(0, BUFSIZE - b, inputRate); TimesSteps(0, inputRate);
        Times(BUFSIZE - b, inputRate)
      else (BUFSIZE - b) / outputRate
    }

    method MaxProc() returns (n: nat)
      requires RatesOK() && bufCnt <= BUFSIZE
      ensures n == MaxFor(bufCnt)
      ensures n == 0 ==> (BUFSIZE - bufCnt) * inputRate < outputRate
    {
      MaxForIsMost(bufCnt);
      MaxProcFormula(bufCnt);
      n := (BUFSIZE - bufCnt) * inputRate / outputRate;
    }

    lemma MaxProcFormula(b: nat)
      requires RatesOK() && b <= BUFSIZE
      ensures (BUFSIZE - b) * inputRate / outputRate == MaxFor(b)
    {
      if stage.Down? {
        assert (BUFSIZE - b) * inputRate == Times(BUFSIZE - b, inputRate);
      }
    }

    lemma OutLenFormula(n: nat)
      requires RatesOK()
      ensures n * outputRate / inputRate == OutLen(n)
    {
      assert n * outputRate == Times(n, outputRate);
    }

    lemma OneBlockOut()
      requires RatesOK() && inputBufSize > 0
      ensures stage.Down? && inputBufSize == inputRate && inputBufSize % inputRate == 0 && OutLen(inputBufSize) == 1
    {
      DivModUnique(inputRate, inputRate, 1, 0);
    }

    // Whatever is below the maximum, in whole blocks, fits.
    lemma FitsUnder(b: nat, c: nat)
      requires RatesOK() && b <= BUFSIZE && c <= MaxFor(b) && c % inputRate == 0
      ensures OutLen(c) <= BUFSIZE - b
    {
      if stage.Down? {
        var q := c / inputRate;
        WholeBlocks(c, inputRate);
        if q > BUFSIZE - b {
          TimesMonotone(BUFSIZE - b + 1, q, inputRate);
          TimesSteps(BUFSIZE - b, inputRate);
        }
      } else {
        var room := BUFSIZE - b;
        TimesMonotone(c, room / outputRate, outputRate);
        assert Times(room / outputRate, outputRate) == outputRate * (room / outputRate);
      }
    }

    lemma MaxForIsWhole(b: nat)
      requires RatesOK() && b <= BUFSIZE
      ensures MaxFor(b) % inputRate == 0
      ensures stage.Down? && b < BUFSIZE ==> inputRate <= MaxFor(b) && MaxFor(b + 1) == MaxFor(b) - inputRate
      ensures stage.Down? && b == BUFSIZE ==> MaxFor(b) == 0
    {
      if stage.Down? {
        DivModUnique(Times(BUFSIZE - b, inputRate), inputRate, BUFSIZE - b, 0);
        TimesSteps(BUFSIZE - b - 1, inputRate);
        TimesSteps(0, inputRate);
        if b < BUFSIZE {
          TimesMonotone(0, BUFSIZE - b - 1, inputRate);
        }
      }
    }

    /** That is the most there is room for: their output fits, and that of one more does not. */
    lemma MaxForIsMost(b: nat)
      requires RatesOK() && b <= BUFSIZE
      ensures MaxFor(b) * outputRate <= (BUFSIZE - b) * inputRate < (MaxFor(b) + 1) * outputRate
      ensures MaxFor(b) == 0 <==> (BUFSIZE - b) * inputRate < outputRate
    {
      if stage.Down? {
        assert (BUFSIZE - b) * inputRate == Times(BUFSIZE - b, inputRate);
      } else {
        var q := (BUFSIZE - b) / outputRate;
        assert q * outputRate <= BUFSIZE - b < (q + 1) * outputRate;
      }
    }

    // --- Processing ---

    // processSamples of the stage, writing behind what is buffered.
    method RunStage(src: seq<Sample>) returns (numOut: nat)
      requires Separate() && StageValid() && bufCnt <= BUFSIZE && |src| % inputRate == 0
      requires OutLen(|src|) <= BUFSIZE - bufCnt
      modifies StageObjects(), buf, this`processed
      ensures StageValid() && processed == old(processed) + src
      ensures numOut == OutLen(|src|) && buf[..bufCnt] == old(buf[..bufCnt])
      ensures Resampled(processed) == Resampled(old(processed)) + buf[bufCnt..bufCnt + numOut]
    {
      hide Decimated, Interpolated;
      match stage {
        case Down(d) =>
          numOut := d.ProcessSamples(buf, bufCnt, src);
        case Up(i) =>
          numOut := i.ProcessSamples(buf, bufCnt, src);
      }
      processed := processed + src;
    }

    method Process(src: seq<Sample>) returns (numOut: nat)
      requires Separate() && StageOK() && OutputOK() && |src| % inputRate == 0
      requires OutLen(|src|) <= BUFSIZE - bufCnt
      modifies StageObjects(), buf, this`processed, this`produced
      ensures StageOK() && processed == old(processed) + src
      ensures numOut == OutLen(|src|) && sink.Valid()
      ensures produced == sink.received + buf[..bufCnt + numOut]
    {
      hide StageValid, Resampled, OutLen;
      ghost var queued := buf[..bufCnt];
      numOut := RunStage(src);
      produced := produced + buf[bufCnt..bufCnt + numOut];
      assert buf[..bufCnt + numOut] == queued + buf[bufCnt..bufCnt + numOut];
    }

    // Processes the input buffer, which is full, into one output sample.
    method ProcessInputBuf()
      requires Separate() && StageOK() && OutputOK() && 0 < inputBufSize && bufCnt < BUFSIZE
      requires stream == processed + inputBuf[..inputBufSize]
      modifies StageObjects(), buf, this`processed, this`produced, this`bufCnt, this`inputBufCnt
      ensures Separate() && StageOK() && OutputOK() && InputOK()
      ensures bufCnt == old(bufCnt) + 1 && inputBufCnt == 0
    {
      OneBlockOut();
      assert inputBuf[..] == inputBuf[..inputBufSize];
      var numOut := Process(inputBuf[..]);
      bufCnt := bufCnt + 1;
      inputBufCnt := 0;
    }

    // Completes a partial block with silence.
    method PadInputBuf()
      requires Separate() && StageOK() && OutputOK() && InputOK() && 0 < inputBufCnt && bufCnt == 0
      modifies StageObjects(), buf, inputBuf, this`stream, this`processed, this`produced, this`bufCnt, this`inputBufCnt
      ensures Separate() && StageOK() && OutputOK() && InputOK()
      ensures bufCnt == 1 && inputBufCnt == 0
      ensures stream == old(stream) + Silence(inputBufSize - old(inputBufCnt))
    {
      ghost var waiting := inputBuf[..inputBufCnt];
      forall k | inputBufCnt <= k < inputBuf.Length {
        inputBuf[k] := 0.0;
      }
      assert inputBuf[..inputBufSize] == waiting + Silence(inputBufSize - inputBufCnt);
      stream := stream + Silence(inputBufSize - inputBufCnt);
      assert stream == processed + inputBuf[..inputBufSize];
      ProcessInputBuf();
    }

    // --- Output ---

    // Moves what the sink has not taken to the front.
    method RemoveFront(written: nat)
      requires 0 < written <= bufCnt <= buf.Length
      modifies this`bufCnt, buf
      ensures bufCnt == old(bufCnt) - written && buf[..bufCnt] == old(buf[..bufCnt])[written..]
    {
      bufCnt := bufCnt - written;
      if bufCnt > 0 {
        forall k | 0 <= k < bufCnt {
          buf[k] := buf[k + written];
        }
      }
    }

    method SendOnce() returns (written: nat)
      requires Separate() && OutputOK() && 0 < bufCnt
      modifies this`bufCnt, buf, sink
      ensures OutputOK() && written <= old(bufCnt) && bufCnt == old(bufCnt) - written
      ensures sink.refusals == old(sink.refusals) + if written == 0 then 1 else 0
    {
      ghost var queue, before := buf[..bufCnt], sink.received;
      written := sink.WriteSamples(buf[..bufCnt]);
      if written > 0 {
        RemoveFront(written);
      }
      assert before + queue == (before + queue[..written]) + queue[written..];
    }

    // The flush is passed on, by way of the event loop, only when nothing is left here.
    method ScheduleFlush()
      requires StageOK() && OutputOK() && InputOK() && bufCnt == 0 && inputBufCnt == 0
      modifies this`doFlush, this`flushTasks
      ensures !doFlush && flushTasks == old(flushTasks) + 1
      ensures sink.received == Resampled(stream)
    {
      doFlush := false;
      flushTasks := flushTasks + 1;
      EverythingOut();
    }

    lemma EverythingOut()
      requires StageOK() && OutputOK() && InputOK() && bufCnt == 0 && inputBufCnt == 0
      ensures sink.received == Resampled(stream)
    {
      assert sink.received + buf[..0] == sink.received;
      assert processed + inputBuf[..0] == processed;
    }

    // One round of the loop of writeFromBuf.
    method SendRound() returns (written: nat)
      requires Separate() && StageOK() && OutputOK() && InputOK() && 0 < bufCnt
      modifies StageObjects(), buf, inputBuf, sink
      modifies this`bufCnt, this`inputBufCnt, this`doFlush, this`stream, this`processed, this`produced, this`flushTasks
      ensures Separate() && StageOK() && OutputOK() && InputOK()
      ensures (inputBufCnt == old(inputBufCnt) && bufCnt == old(bufCnt) - written)
              || (inputBufCnt < old(inputBufCnt) && written > 0)
      ensures written <= old(bufCnt)
      ensures sink.refusals == old(sink.refusals) + if written == 0 then 1 else 0
      ensures !old(doFlush) ==>
                !doFlush && stream == old(stream) && inputBufCnt == old(inputBufCnt) && flushTasks == old(flushTasks)
      ensures old(doFlush) ==> (doFlush <==> bufCnt > 0) && flushTasks == old(flushTasks) + if doFlush then 0 else 1
      ensures stream == old(stream)
              + if inputBufCnt < old(inputBufCnt) then Silence(inputBufSize - old(inputBufCnt)) else []
      ensures inputBufCnt < old(inputBufCnt) ==> inputBufCnt == 0
      ensures !doFlush && old(doFlush) ==> inputBufCnt == 0 && sink.received == Resampled(stream)
    {
      hide StageOK;
      written := SendOnce();
      assert stream == stream + [];
      if doFlush && bufCnt == 0 {
        if inputBufCnt > 0 {
          PadInputBuf();
        } else {
          ScheduleFlush();
        }
      }
    }

    /** Sends buffered output until it is gone or the sink takes nothing. With a flush pending, the
        rest of a block is padded with silence and sent too, and then the flush is passed on. */
    method WriteFromBuf()
      requires Separate() && StageOK() && OutputOK() && InputOK()
      modifies StageObjects(), buf, inputBuf, sink
      modifies this`bufCnt, this`inputBufCnt, this`doFlush, this`stream, this`processed, this`produced, this`flushTasks
      modifies this`outputStopped, this`inputStopped, this`resumeTasks
      ensures old(StopOK()) ==> StopOK()
      // The output is stopped by the sink only.
      ensures sink.refusals == old(sink.refusals) + if outputStopped && !old(outputStopped) then 1 else 0
      ensures Separate() && StageOK() && OutputOK() && InputOK() && Attended()
      ensures !old(doFlush) ==>
                !doFlush && stream == old(stream) && inputBufCnt == old(inputBufCnt) && flushTasks == old(flushTasks)
      ensures !old(doFlush) ==> bufCnt <= old(bufCnt)
      ensures inputBufCnt == old(inputBufCnt) || inputBufCnt == 0
      ensures stream == old(stream)
              + if inputBufCnt < old(inputBufCnt) then Silence(inputBufSize - old(inputBufCnt)) else []
      ensures old(bufCnt) == 0 || old(outputStopped) ==>
                && stream == old(stream) && bufCnt == old(bufCnt) && outputStopped == old(outputStopped)
                && doFlush == old(doFlush) && inputStopped == old(inputStopped) && resumeTasks == old(resumeTasks)
                && flushTasks == old(flushTasks)
      // Otherwise either the sink has stopped the output, or everything is out, and with it a pending flush.
      ensures 0 < old(bufCnt) && !old(outputStopped) ==>
                && (outputStopped <==> bufCnt > 0)
                && (old(doFlush) ==>
                      (doFlush <==> bufCnt > 0) && flushTasks == old(flushTasks) + if doFlush then 0 else 1)
                && (old(doFlush) && !doFlush ==> inputBufCnt == 0 && sink.received == Resampled(stream))
                && inputStopped == (old(inputStopped) && bufCnt == BUFSIZE)
                && resumeTasks == old(resumeTasks) + if old(inputStopped) && !inputStopped then 1 else 0
    {
      hide StageOK, OutputOK, InputOK, Separate, Resampled;
      assert stream + [] == stream;
      if bufCnt == 0 || outputStopped {
        return;
      }
      var written := SendLoop();
      outputStopped := written == 0;
      OutputInRange();
      if inputStopped && bufCnt < BUFSIZE {
        inputStopped := false;
        resumeTasks := resumeTasks + 1;
      }
    }

    lemma OutputInRange()
      requires OutputOK()
      ensures bufCnt <= BUFSIZE
    {
    }

    method SendLoop() returns (written: nat)
      requires Separate() && StageOK() && OutputOK() && InputOK() && 0 < bufCnt
      modifies StageObjects(), buf, inputBuf, sink
      modifies this`bufCnt, this`inputBufCnt, this`doFlush, this`stream, this`processed, this`produced, this`flushTasks
      ensures Separate() && StageOK() && OutputOK() && InputOK()
      ensures written == 0 <==> bufCnt > 0
      ensures sink.refusals == old(sink.refusals) + if written == 0 then 1 else 0
      ensures inputBufCnt == old(inputBufCnt) || inputBufCnt == 0
      ensures stream == old(stream)
              + if inputBufCnt < old(inputBufCnt) then Silence(inputBufSize - old(inputBufCnt)) else []
      ensures !old(doFlush) ==>
                !doFlush && stream == old(stream) && inputBufCnt == old(inputBufCnt) && flushTasks == old(flushTasks)
      ensures !old(doFlush) ==> bufCnt <= old(bufCnt)
      ensures old(doFlush) ==> (doFlush <==> bufCnt > 0) && flushTasks == old(flushTasks) + if doFlush then 0 else 1
      ensures old(doFlush) && !doFlush ==> inputBufCnt == 0 && sink.received == Resampled(stream)
    {
      hide StageOK, OutputOK, InputOK, Separate, Resampled;
      InputBelowBlock();
      written := SendRound();
      while written > 0 && bufCnt > 0
        invariant Separate() && StageOK() && OutputOK() && InputOK()
        invariant written == 0 ==> bufCnt > 0
        invariant sink.refusals == old(sink.refusals) + if written == 0 then 1 else 0
        invariant inputBufCnt == old(inputBufCnt) || inputBufCnt == 0
        invariant stream == old(stream)
                  + if inputBufCnt < old(inputBufCnt) then Silence(inputBufSize - old(inputBufCnt)) else []
        invariant !old(doFlush) ==>
                    !doFlush && stream == old(stream) && inputBufCnt == old(inputBufCnt)
                      && flushTasks == old(flushTasks)
        invariant !old(doFlush) ==> bufCnt <= old(bufCnt)
        invariant old(doFlush) ==> (doFlush <==> bufCnt > 0) && flushTasks == old(flushTasks) + if doFlush then 0 else 1
        invariant old(doFlush) && !doFlush ==> inputBufCnt == 0 && sink.received == Resampled(stream)
        decreases inputBufCnt, bufCnt, written
      {
        written := SendRound();
      }
    }

    // --- Input ---

    // Fills up the input buffer, and processes it once it is full.
    method TopUp(samples: seq<Sample>, maxProc: nat) returns (used: nat, left: nat)
      requires Separate() && StageOK() && OutputOK() && InputOK()
      requires 0 < |samples| && 0 < inputBufCnt && maxProc == MaxFor(bufCnt) && 0 < maxProc
      modifies StageObjects(), buf, inputBuf
      modifies this`stream, this`processed, this`produced, this`bufCnt, this`inputBufCnt
      ensures StageOK() && OutputOK() && InputOK()
      ensures 0 < used <= |samples| && used == Min(inputBufSize - old(inputBufCnt), |samples|)
      ensures stream == old(stream) + samples[..used]
      ensures left == MaxFor(bufCnt)
      ensures inputBufCnt == 0 ==> left == maxProc - inputBufSize
      ensures inputBufCnt > 0 ==> used == |samples|
      ensures inputBufCnt == 0 <==> inputBufSize <= old(inputBufCnt) + |samples|
      ensures bufCnt == old(bufCnt) + if inputBufCnt == 0 then 1 else 0
    {
      hide MaxFor, OutLen, StageOK;
      used := Min(inputBufSize - inputBufCnt, |samples|);
      CopyIn(samples[..used]);
      left := maxProc;
      OneBlockOut();
      if inputBufCnt == inputBufSize {
        MaxForIsWhole(bufCnt);
        ProcessInputBuf();
        left := left - inputBufSize;
      }
    }

    // Appends samples to the input buffer.
    method CopyIn(part: seq<Sample>)
      requires InputOK() && inputBufCnt + |part| <= inputBufSize == inputBuf.Length
      modifies inputBuf, this`inputBufCnt, this`stream
      ensures inputBufCnt == old(inputBufCnt) + |part| && stream == old(stream) + part
      ensures stream == processed + inputBuf[..inputBufCnt]
    {
      ghost var waiting := inputBuf[..inputBufCnt];
      forall k | 0 <= k < |part| {
        inputBuf[inputBufCnt + k] := part[k];
      }
      assert inputBuf[..inputBufCnt + |part|] == waiting + part;
      inputBufCnt := inputBufCnt + |part|;
      stream := stream + part;
    }

    // Processes as many whole blocks as there are and fit, and sends the output on.
    method ProcessWhole(samples: seq<Sample>, maxProc: nat) returns (procCnt: nat)
      requires Separate() && StageOK() && OutputOK() && InputOK() && !doFlush
      requires maxProc == MaxFor(bufCnt) && (inputBufCnt > 0 ==> samples == [])
      modifies StageObjects(), buf, inputBuf, sink
      modifies this`bufCnt, this`inputBufCnt, this`doFlush, this`stream, this`processed, this`produced, this`flushTasks
      modifies this`outputStopped, this`inputStopped, this`resumeTasks
      ensures old(StopOK()) ==> StopOK()
      ensures StageOK() && OutputOK() && InputOK() && !doFlush && flushTasks == old(flushTasks)
      ensures procCnt <= |samples| && stream == old(stream) + samples[..procCnt] && inputBufCnt == old(inputBufCnt)
      ensures procCnt == Min(maxProc, |samples| - if inputBufSize > 0 then |samples| % inputBufSize else 0)
      ensures procCnt > 0 ==> Attended()
      ensures sink.refusals == old(sink.refusals) + if outputStopped && !old(outputStopped) then 1 else 0
      ensures old(outputStopped) ==> outputStopped
      ensures procCnt == 0 ==>
                bufCnt == old(bufCnt) && outputStopped == old(outputStopped) && inputStopped == old(inputStopped)
      ensures inputStopped ==> old(inputStopped)
      ensures resumeTasks == old(resumeTasks) + if old(inputStopped) && !inputStopped then 1 else 0
    {
      hide MaxFor, OutLen, StageOK;
      var reminder := 0;
      if inputBufSize > 0 {
        reminder := |samples| % inputBufSize;
        RemainderBounds(|samples|, inputBufSize);
      }
      procCnt := Min(maxProc, |samples| - reminder);
      assert samples[..0] == [];
      if procCnt > 0 {
        WholePart(|samples|, procCnt, maxProc);
        ProcessDirect(samples[..procCnt]);
        WriteFromBuf();
      }
    }

    lemma RemainderBounds(n: nat, d: nat)
      requires 0 < d
      ensures 0 <= n % d <= n && n % d < d
      ensures (n - n % d) % d == 0
      ensures n < d ==> n % d == n
      ensures n >= d ==> n - n % d >= d
    {
      var q := n / d;
      assert n == d * q + n % d;
      DivModUnique(n - n % d, d, q, 0);
      if n >= d {
        if q <= 0 {
          MulMonotone(d, q, 0);
        }
        MulMonotone(d, 1, q);
      } else {
        DivModUnique(n, d, 0, n);
      }
    }

    // What is processed directly is a whole number of blocks that fits.
    lemma WholePart(n: nat, procCnt: nat, maxProc: nat)
      requires RatesOK() && bufCnt <= BUFSIZE && maxProc == MaxFor(bufCnt)
      requires procCnt == Min(maxProc, n - if inputBufSize > 0 then n % inputBufSize else 0) && 0 < procCnt
      ensures procCnt % inputRate == 0 && OutLen(procCnt) <= BUFSIZE - bufCnt
    {
      MaxForIsWhole(bufCnt);
      if inputBufSize > 0 {
        OneBlockOut();
        RemainderBounds(n, inputBufSize);
      } else {
        RateOne();
      }
      FitsUnder(bufCnt, procCnt);
    }

    lemma RateOne()
      requires RatesOK() && inputBufSize == 0
      ensures inputRate == 1
    {
    }

    method ProcessDirect(part: seq<Sample>)
      requires Separate() && StageOK() && OutputOK() && InputOK() && inputBufCnt == 0
      requires |part| % inputRate == 0 && OutLen(|part|) <= BUFSIZE - bufCnt
      modifies StageObjects(), buf, this`stream, this`processed, this`produced, this`bufCnt
      ensures StageOK() && OutputOK() && InputOK() && stream == old(stream) + part
      ensures bufCnt >= old(bufCnt)
    {
      hide OutLen, StageOK;
      NothingWaiting();
      var numOut := Process(part);
      OutLenFormula(|part|);
      bufCnt := bufCnt + |part| * outputRate / inputRate;
      stream := stream + part;
      assert processed + inputBuf[..0] == processed;
    }

    lemma NothingWaiting()
      requires InputOK() && inputBufCnt == 0
      ensures stream == processed
    {
      assert processed + inputBuf[..0] == processed;
    }

    // Exactly one block is completed from the input buffer, and no whole block follows.
    predicate CompletesOneBlock(waiting: nat, len: nat) {
      0 < waiting && inputBufSize <= waiting + len < 2 * inputBufSize
    }

    /** Takes as many samples as there is room for. Output is left unattended, with neither the sink
        nor anybody else having reason to ask for it, if and only if the write completes exactly one
        block from the input buffer and finds no output buffered. */
    method WriteSamples(samples: seq<Sample>) returns (n: nat)
      requires Valid() && 0 < |samples|
      modifies this, StageObjects(), buf, inputBuf, sink
      ensures Valid() && !doFlush && flushTasks == old(flushTasks)
      ensures n <= |samples| && stream == old(stream) + samples[..n]
      ensures n == 0 ==> inputStopped && MaxFor(bufCnt) == 0 && bufCnt <= old(bufCnt) && Attended()
      ensures n == 0 ==> (BUFSIZE - bufCnt) * inputRate < outputRate
      ensures sink.refusals == old(sink.refusals) + if outputStopped && !old(outputStopped) then 1 else 0
      ensures old(outputStopped) ==> outputStopped
      // Samples are refused only when all the room that there was has been used.
      ensures 0 < n < |samples| ==> inputBufCnt == 0 && old(inputBufCnt) + n >= MaxFor(old(bufCnt))
      ensures 0 < n < |samples| && old(outputStopped) ==> old(inputBufCnt) + n == MaxFor(old(bufCnt))
      ensures old(Attended()) && n > 0 ==>
                (!Attended() <==> old(bufCnt) == 0 && CompletesOneBlock(old(inputBufCnt), |samples|))
      ensures n > 0 ==> (!Attended() <==> CompletesOneBlock(old(inputBufCnt), |samples|) && !outputStopped)
      ensures n > 0 ==> resumeTasks == old(resumeTasks) + if old(inputStopped) && !inputStopped then 1 else 0
      ensures inputStopped ==> n == 0 || old(inputStopped)
      ensures !old(inputStopped) ==> resumeTasks == old(resumeTasks)
      // A write crosses a flush that is queued, or at a sink that gets nothing of the write.
      ensures owed == (old(owed) && sink.received == old(sink.received))
      ensures crossed == (old(crossed) || Queued() || owed)
      ensures !asked && unchanged(`acks, `ran, `wrong)
    {
      hide Valid, StageOK, OutputOK, InputOK, Separate, StopOK, MaxFor, RatesOK, Resampled;
      ghost var received := sink.received;
      n := Accept(samples);
      NoteWrite(received);
    }

    // writeSamples, apart from what it means for a flush on its way.
    method Accept(samples: seq<Sample>) returns (n: nat)
      requires Valid() && 0 < |samples|
      modifies this, StageObjects(), buf, inputBuf, sink
      ensures Valid() && !doFlush && flushTasks == old(flushTasks)
      ensures n <= |samples| && stream == old(stream) + samples[..n]
      ensures n == 0 ==> inputStopped && MaxFor(bufCnt) == 0 && bufCnt <= old(bufCnt) && Attended()
      ensures n == 0 ==> (BUFSIZE - bufCnt) * inputRate < outputRate
      ensures sink.refusals == old(sink.refusals) + if outputStopped && !old(outputStopped) then 1 else 0
      ensures old(outputStopped) ==> outputStopped
      // Samples are refused only when all the room that there was has been used.
      ensures 0 < n < |samples| ==> inputBufCnt == 0 && old(inputBufCnt) + n >= MaxFor(old(bufCnt))
      ensures 0 < n < |samples| && old(outputStopped) ==> old(inputBufCnt) + n == MaxFor(old(bufCnt))
      ensures old(Attended()) && n > 0 ==>
                (!Attended() <==> old(bufCnt) == 0 && CompletesOneBlock(old(inputBufCnt), |samples|))
      ensures n > 0 ==> (!Attended() <==> CompletesOneBlock(old(inputBufCnt), |samples|) && !outputStopped)
      ensures n > 0 ==> resumeTasks == old(resumeTasks) + if old(inputStopped) && !inputStopped then 1 else 0
      ensures inputStopped ==> n == 0 || old(inputStopped)
      ensures !old(inputStopped) ==> resumeTasks == old(resumeTasks)
      ensures unchanged(`acks, `asked, `ran, `owed, `wrong, `crossed)
    {
      hide MaxFor, OutLen, StageOK, OutputOK, InputOK, Separate, Resampled, RatesOK, CompletesOneBlock;
      doFlush := false;
      OutputInRange();
      StageRates();
      ghost var before := bufCnt;
      WriteFromBuf();
      OutputInRange();
      MaxForShrinks(bufCnt, before);
      var maxProc := MaxProc();
      assert samples[..0] == [];
      if maxProc == 0 {
        inputStopped := true;
        return 0;
      }
      // Something is always taken from here on, so the code's last test for an empty return
      // never holds.
      n := Take(samples, maxProc);
    }

    // A write gives up a flush, but does not take back what is on its way.
    ghost method NoteWrite(received: seq<Sample>)
      modifies this`asked, this`owed, this`crossed
      ensures !asked && owed == (old(owed) && sink.received == received)
      ensures crossed == (old(crossed) || Queued() || owed)
    {
      asked, owed := false, owed && sink.received == received;
      crossed := crossed || Queued() || owed;
    }

    lemma MaxForShrinks(b: nat, c: nat)
      requires RatesOK() && b <= c <= BUFSIZE
      ensures MaxFor(c) <= MaxFor(b)
    {
      if stage.Down? {
        TimesMonotone(BUFSIZE - c, BUFSIZE - b, inputRate);
      } else {
        var q, r := (BUFSIZE - b) / outputRate, (BUFSIZE - c) / outputRate;
        assert BUFSIZE - b < outputRate * (q + 1) && outputRate * r <= BUFSIZE - c;
        if r > q {
          MulMonotone(outputRate, q + 1, r);
        }
      }
    }

    lemma StageRates()
      requires StageOK()
      ensures RatesOK()
    {
    }

    lemma InputBelowBlock()
      requires InputOK() && StageOK()
      ensures inputBufCnt > 0 ==> inputBufCnt < inputBufSize
      ensures inputBuf.Length == inputBufSize
    {
    }

    lemma NoRoomMeansFull()
      requires StageOK() && inputBufSize > 0 && bufCnt <= BUFSIZE
      ensures MaxFor(bufCnt) == 0 ==> bufCnt == BUFSIZE
    {
      OneBlockOut();
      MaxForIsWhole(bufCnt);
    }

    // writeSamples, once there is room for something: the partial block, then whole blocks.
    method TakeBlocks(samples: seq<Sample>, maxProc: nat) returns (n: nat)
      requires Separate() && StageOK() && OutputOK() && InputOK() && !doFlush && Attended()
      requires 0 < |samples| && maxProc == MaxFor(bufCnt) && 0 < maxProc
      modifies StageObjects(), buf, inputBuf, sink
      modifies this`bufCnt, this`inputBufCnt, this`doFlush, this`stream, this`processed, this`produced, this`flushTasks
      modifies this`outputStopped, this`inputStopped, this`resumeTasks
      ensures old(StopOK()) ==> StopOK()
      ensures StageOK() && OutputOK() && InputOK() && !doFlush && flushTasks == old(flushTasks)
      ensures n <= |samples| && stream == old(stream) + samples[..n]
      ensures inputBufCnt > 0 ==> 0 < n == |samples|
      ensures n == 0 ==> |samples| < inputBufSize
      ensures !Attended() <==> CompletesOneBlock(old(inputBufCnt), |samples|) && !outputStopped
      ensures CompletesOneBlock(old(inputBufCnt), |samples|) ==> outputStopped == old(outputStopped)
      ensures sink.refusals == old(sink.refusals) + if outputStopped && !old(outputStopped) then 1 else 0
      ensures old(outputStopped) ==> outputStopped
      ensures |samples| - n >= Max(1, inputBufSize) ==> inputBufCnt == 0 && old(inputBufCnt) + n == maxProc
      ensures inputStopped ==> old(inputStopped)
      ensures resumeTasks == old(resumeTasks) + if old(inputStopped) && !inputStopped then 1 else 0
    {
      hide MaxFor, OutLen, StageOK, OutputOK;
      var used, left := 0, maxProc;
      assert samples[..0] == [];
      InputBelowBlock();
      if inputBufCnt > 0 {
        used, left := TopUp(samples, maxProc);
        OutputInRange();
        NoRoomMeansFull();
      }
      var rest := samples[used..];
      if inputBufSize > 0 {
        RemainderBounds(|rest|, inputBufSize);
      }
      hide InputOK;
      var procCnt := ProcessWhole(rest, left);
      assert samples[..used] + rest[..procCnt] == samples[..used + procCnt];
      n := used + procCnt;
    }

    method Take(samples: seq<Sample>, maxProc: nat) returns (n: nat)
      requires Separate() && StageOK() && OutputOK() && InputOK() && !doFlush && Attended()
      requires 0 < |samples| && maxProc == MaxFor(bufCnt) && 0 < maxProc
      modifies StageObjects(), buf, inputBuf, sink
      modifies this`bufCnt, this`inputBufCnt, this`doFlush, this`stream, this`processed, this`produced, this`flushTasks
      modifies this`outputStopped, this`inputStopped, this`resumeTasks
      ensures old(StopOK()) ==> StopOK()
      ensures StageOK() && OutputOK() && InputOK() && !doFlush && flushTasks == old(flushTasks)
      ensures 0 < n <= |samples| && stream == old(stream) + samples[..n]
      ensures !Attended() <==> CompletesOneBlock(old(inputBufCnt), |samples|) && !outputStopped
      ensures CompletesOneBlock(old(inputBufCnt), |samples|) ==> outputStopped == old(outputStopped)
      ensures sink.refusals == old(sink.refusals) + if outputStopped && !old(outputStopped) then 1 else 0
      ensures old(outputStopped) ==> outputStopped
      ensures n < |samples| ==> inputBufCnt == 0 && old(inputBufCnt) + n == maxProc
      ensures inputStopped ==> old(inputStopped)
      ensures resumeTasks == old(resumeTasks) + if old(inputStopped) && !inputStopped then 1 else 0
    {
      hide MaxFor, OutLen, StageOK, OutputOK;
      n := TakeBlocks(samples, maxProc);
      var tail := samples[n..];
      InputBelowBlock();
      if 0 < |tail| < inputBufSize {
        CopyIn(tail);
        assert samples[..n] + tail == samples;
        assert samples[..|samples|] == samples;
        n := |samples|;
      }
    }

    // --- Flushing and callbacks ---

    /** Flushes at once when nothing is buffered, padding a partial block with silence first. When
        output is buffered the flush waits for the sink to resume. */
    method FlushSamples()
      requires Valid()
      modifies this, StageObjects(), buf, inputBuf, sink
      ensures Valid() && !inputStopped && resumeTasks == old(resumeTasks)
      ensures sink.refusals == old(sink.refusals) + if outputStopped && !old(outputStopped) then 1 else 0
      // The flush is passed on or waits for a sink that has stopped the output, if and only if no
      // output was left unattended before.
      ensures (!doFlush || outputStopped) <==> old(Attended())
      ensures old(bufCnt) > 0 ==>
                && doFlush && bufCnt == old(bufCnt) && stream == old(stream) && flushTasks == old(flushTasks)
                && sink.received == old(sink.received) && outputStopped == old(outputStopped)
      ensures old(bufCnt) == 0 ==>
                && stream == old(stream)
                   + (if old(inputBufCnt) > 0 then Silence(inputBufSize - old(inputBufCnt)) else [])
                && inputBufCnt == 0 && (doFlush <==> bufCnt > 0)
                && flushTasks == old(flushTasks) + (if doFlush then 0 else 1)
                && (!doFlush ==> sink.received == Resampled(stream))
      ensures asked && unchanged(`acks, `wrong) && (old(bufCnt == inputBufCnt == 0) ==> !doFlush)
      // With nothing buffered at all the sink is flushed right away, past any flush that is queued.
      ensures if old(bufCnt == inputBufCnt == 0)
              then owed && ran == old(ran) + 1 && crossed == (old(crossed) || old(Queued()))
              else owed == (old(owed) && sink.received == old(sink.received))
                   && ran == old(ran) && crossed == old(crossed)
    {
      hide Valid, StageOK, OutputOK, InputOK, Separate, StopOK, MaxFor, RatesOK, Resampled;
      ghost var received, direct, queued := sink.received, bufCnt == inputBufCnt == 0, Queued();
      BeginFlush();
      NoteFlush(received, direct, queued);
    }

    // flushSamples, apart from where the flush is on its way.
    method BeginFlush()
      requires Valid()
      modifies this, StageObjects(), buf, inputBuf, sink
      ensures Valid() && !inputStopped && resumeTasks == old(resumeTasks)
      ensures sink.refusals == old(sink.refusals) + if outputStopped && !old(outputStopped) then 1 else 0
      // The flush is passed on or waits for a sink that has stopped the output, if and only if no
      // output was left unattended before.
      ensures (!doFlush || outputStopped) <==> old(Attended())
      ensures old(bufCnt) > 0 ==>
                && doFlush && bufCnt == old(bufCnt) && stream == old(stream) && flushTasks == old(flushTasks)
                && sink.received == old(sink.received) && outputStopped == old(outputStopped)
      ensures old(bufCnt) == 0 ==>
                && stream == old(stream)
                   + (if old(inputBufCnt) > 0 then Silence(inputBufSize - old(inputBufCnt)) else [])
                && inputBufCnt == 0 && (doFlush <==> bufCnt > 0)
                && flushTasks == old(flushTasks) + (if doFlush then 0 else 1)
                && (!doFlush ==> sink.received == Resampled(stream))
      ensures unchanged(`acks, `asked, `ran, `owed, `wrong, `crossed)
      ensures old(bufCnt == inputBufCnt == 0) ==> !doFlush
    {
      hide StageOK, OutputOK, InputOK, Separate, Resampled, RatesOK;
      InputBelowBlock();
      doFlush := true;
      inputStopped := false;
      assert stream + [] == stream;
      if bufCnt == 0 {
        if inputBufCnt > 0 {
          PadInputBuf();
          WriteFromBuf();
        } else {
          ScheduleFlush();
        }
      }
    }

    ghost method NoteFlush(received: seq<Sample>, direct: bool, queued: bool)
      modifies this`asked, this`ran, this`owed, this`crossed
      ensures asked
      ensures if direct then owed && ran == old(ran) + 1 && crossed == (old(crossed) || queued)
              else owed == (old(owed) && sink.received == received) && ran == old(ran) && crossed == old(crossed)
    {
      asked := true;
      if direct {
        ran, owed, crossed := ran + 1, true, crossed || queued;
      } else {
        owed := owed && sink.received == received;
      }
    }

    /** The event loop hands a flush to the sink, if it has one. */
    ghost method RunFlushTask()
      modifies this`ran, this`owed
      ensures if old(Queued()) then ran == old(ran) + 1 && owed else unchanged(this)
      ensures old(Valid()) ==> Valid()
    {
      hide StageOK, OutputOK, InputOK;
      if Queued() {
        ran, owed := ran + 1, true;
      }
    }

    /** A sink that has room again gets the buffer until it refuses or everything is out; a flush
        that was waiting for this is then passed on, and a stopped source is woken. */
    method ResumeOutput()
      requires Valid()
      modifies this, StageObjects(), buf, inputBuf, sink
      ensures Valid() && Attended()
      ensures sink.refusals == old(sink.refusals) + if outputStopped then 1 else 0
      ensures inputBufCnt == old(inputBufCnt) || inputBufCnt == 0
      ensures stream == old(stream)
              + if inputBufCnt < old(inputBufCnt) then Silence(inputBufSize - old(inputBufCnt)) else []
      ensures !old(doFlush) ==>
                !doFlush && stream == old(stream) && bufCnt <= old(bufCnt) && flushTasks == old(flushTasks)
      ensures old(bufCnt) > 0 && old(doFlush) ==>
                && (doFlush <==> bufCnt > 0) && flushTasks == old(flushTasks) + (if doFlush then 0 else 1)
                && (!doFlush ==> sink.received == Resampled(stream))
      ensures old(bufCnt) > 0 ==>
                && inputStopped == (old(inputStopped) && bufCnt == BUFSIZE)
                && resumeTasks == old(resumeTasks) + if old(inputStopped) && !inputStopped then 1 else 0
      ensures old(bufCnt) > 0 && old(doFlush) && !doFlush ==> inputBufCnt == 0
      ensures old(bufCnt) == 0 ==> flushTasks == old(flushTasks) && bufCnt == 0 && doFlush == old(doFlush)
      ensures owed == (old(owed) && sink.received == old(sink.received))
      ensures unchanged(`acks, `asked, `ran, `wrong, `crossed)
    {
      hide StageOK, OutputOK, InputOK, Separate, Resampled, Attended;
      ghost var received := sink.received;
      outputStopped := false;
      WriteFromBuf();
      owed := owed && sink.received == received;
    }

    /** The sink has flushed, and this is passed on whatever the source has done meanwhile. */
    method AllSamplesFlushed()
      requires Valid()
      modifies this`doFlush, this`acks, this`asked, this`owed, this`wrong, this`crossed
      ensures Valid() && !doFlush && acks == old(acks) + 1 && !asked && !owed
      ensures crossed == (old(crossed) || !old(owed))
      ensures wrong == old(wrong) + if old(asked) && bufCnt == inputBufCnt == 0 then 0 else 1
    {
      hide StageOK, OutputOK, InputOK, Resampled, RatesOK;
      if !(asked && bufCnt == inputBufCnt == 0) {
        wrong := wrong + 1;
      }
      crossed := crossed || !owed;
      asked, owed := false, false;
      doFlush := false;
      acks := acks + 1;
    }

    /** However the input was cut into writes and the output into deliveries, the sink has got,
        and the buffer holds, the resampled input stream and nothing else. */
    lemma OutputIsResampled()
      requires Valid()
      ensures sink.received + buf[..bufCnt] == Resampled(stream)
      ensures stage.Down? ==> inputBufCnt == |stream| % inputRate
      ensures stage.Up? ==> inputBufCnt == 0
    {
      match stage
      case Down(d) =>
        PartialBlockIsSilent(d.coeff, d.factorM, processed, inputBuf[..inputBufCnt]);
        StreamRemainder(|processed|, inputBufCnt, d.factorM);
      case Up(i) =>
        NothingWaiting();
    }

    // A decimator owes one output for every whole block.
    lemma OutputCount()
      requires Valid() && stage.Down?
      ensures |sink.received| + bufCnt == |stream| / inputRate && inputBufCnt == |stream| % inputRate
      ensures MaxFor(0) > 0
    {
      OutputIsResampled();
      MaxForIsWhole(0);
    }

    lemma UnattendedIsWilling()
      requires Valid()
      ensures !Attended() ==> !outputStopped && bufCnt > 0
      ensures outputStopped ==> bufCnt > 0
    {
    }

    // A decimator with an empty output buffer always has room.
    lemma RoomWhenEmpty()
      requires Valid()
      ensures inputBufSize > 0 ==> stage.Down? && MaxFor(0) > 0
      ensures bufCnt <= BUFSIZE
    {
      MaxForIsWhole(0);
    }

    lemma StreamRemainder(whole: nat, part: nat, m: nat)
      requires 0 < m && whole % m == 0 && part < m
      ensures (whole + part) % m == part
    {
      var q := whole / m;
      assert whole == m * q;
      DivModUnique(whole + part, m, q, part);
    }
  }

  ghost predicate SameStage(a: Stage, b: Stage) {
    match (a, b)
    case (Down(d), Down(e)) => d.factorM == e.factorM && d.coeff == e.coeff
    case (Up(i), Up(j)) => i.factorL == j.factorL && i.coeff == j.coeff
    case _ => false
  }

  /** Two processors with the same filter that have taken the same stream differ at most in how
      much of the same output the sink already has. */
  lemma ChunkingDoesNotMatter(p: AudioProcessor, q: AudioProcessor)
    requires p.Valid() && q.Valid() && SameStage(p.stage, q.stage) && p.stream == q.stream
    ensures p.sink.received + p.buf[..p.bufCnt] == q.sink.received + q.buf[..q.bufCnt]
    ensures p.sink.received <= q.sink.received || q.sink.received <= p.sink.received
    ensures p.inputBuf[..p.inputBufCnt] == q.inputBuf[..q.inputBufCnt]
  {
    p.OutputIsResampled();
    q.OutputIsResampled();
    SameRemainder(p, q);
    var a, b := p.sink.received, q.sink.received;
    var all := a + p.buf[..p.bufCnt];
    assert a == all[..|a|] && b == all[..|b|];
  }

  lemma SameRemainder(p: AudioProcessor, q: AudioProcessor)
    requires p.InputOK() && q.InputOK() && p.stream == q.stream && p.inputBufCnt == q.inputBufCnt
    ensures p.inputBuf[..p.inputBufCnt] == q.inputBuf[..q.inputBufCnt]
  {
    var s := p.stream;
    assert p.inputBuf[..p.inputBufCnt] == s[|s| - p.inputBufCnt..];
    assert q.inputBuf[..q.inputBufCnt] == s[|s| - q.inputBufCnt..];
  }

  // --- Runs ---

  datatype Event =
    | Write(samples: seq<Sample>)
    | Flush
    | Resume
    | Flushed
    | Task

  // Samples are written only where there are any, as the source asserts.
  method Step(p: AudioProcessor, e: Event)
    requires p.Valid() && p.TasksOK()
    modifies p, p.StageObjects(), p.buf, p.inputBuf, p.sink
    ensures p.Valid() && p.TasksOK()
  {
    hide AudioProcessor.Valid, AudioProcessor.Resampled, AudioProcessor.MaxFor;
    match e {
      case Write(samples) =>
        if samples != [] {
          var n := p.WriteSamples(samples);
        }
      case Flush => p.FlushSamples();
      case Resume => p.ResumeOutput();
      case Flushed => p.AllSamplesFlushed();
      case Task => p.RunFlushTask();
    }
  }

  /** Every run keeps the output faithful to the stream. And as long as nothing comes out of turn, every
      acknowledgement reaches a source that waits for it, with all of its samples out. */
  method Run(p: AudioProcessor, events: seq<Event>)
    requires p.Valid() && p.TasksOK()
    modifies p, p.StageObjects(), p.buf, p.inputBuf, p.sink
    ensures p.Valid()
    ensures p.sink.received + p.buf[..p.bufCnt] == p.Resampled(p.stream)
    ensures p.stage.Down? ==> p.inputBufCnt == |p.stream| % p.inputRate
    ensures !p.crossed ==> p.wrong == 0
  {
    hide AudioProcessor.Valid, AudioProcessor.Resampled, AudioProcessor.RatesOK;
    for k := 0 to |events|
      invariant p.Valid() && p.TasksOK()
    {
      Step(p, events[k]);
    }
    p.OutputIsResampled();
  }

  /** Every flush that a write crosses brings the source an acknowledgement that it does not wait for:
      what is queued is not taken back, and what comes from the sink is passed on. */
  method StrayAcknowledgement(p: AudioProcessor)
    requires p.Valid() && !p.asked && (p.Queued() || p.owed)
    modifies p`ran, p`owed, p`doFlush, p`acks, p`asked, p`wrong, p`crossed
    ensures p.Valid() && p.acks == old(p.acks) + 1 && p.wrong == old(p.wrong) + 1
    ensures old(!p.crossed) ==> !p.crossed
  {
    hide AudioProcessor.Valid;
    p.RunFlushTask();
    p.AllSamplesFlushed();
  }

  /** And every flush that goes past a queued one brings the source two acknowledgements. */
  method SecondAcknowledgement(p: AudioProcessor)
    requires p.Valid() && p.asked && p.Queued() && p.owed
    modifies p`ran, p`owed, p`doFlush, p`acks, p`asked, p`wrong, p`crossed
    ensures p.Valid() && p.acks == old(p.acks) + 2 && p.wrong > old(p.wrong)
  {
    hide AudioProcessor.Valid;
    p.AllSamplesFlushed();
    StrayAcknowledgement(p);
  }

  /** That is within reach, with a sink that takes the first padded block: a sample to a decimator by two,
      a flush, another sample, and then the event loop. */
  method StrayExample(a: Sample, b: Sample) returns (p: AudioProcessor, taken: bool)
    ensures taken ==> p.acks == 1 && p.wrong == 1
  {
    hide AudioProcessor.StageOK, AudioProcessor.OutputOK, AudioProcessor.InputOK, AudioProcessor.Separate;
    var sink := new Sink(false);
    var dec := new AudioDecimator(2, [1.0, 1.0]);
    p := new AudioProcessor.Decimating(dec, sink);
    var n := p.WriteSamples([a]);
    p.OutputCount();
    p.FlushSamples();
    taken := p.bufCnt == 0;
    if taken {
      n := p.WriteSamples([b]);
      StrayAcknowledgement(p);
    }
  }

  /** What becomes of a flush with a sink that resumes only what it has stopped. If and only if output
      was left unattended before, the flush stalls: nothing is sent any more, although the sink has
      not refused anything. Otherwise it has been passed on, with all of the stream out, or waits
      for the sink. */
  method StalledFlush(p: AudioProcessor, resumes: nat)
    requires p.Valid()
    modifies p, p.StageObjects(), p.buf, p.inputBuf, p.sink
    ensures p.Valid()
    ensures !old(p.Attended()) ==>
              p.doFlush && !p.outputStopped && p.bufCnt == old(p.bufCnt) > 0
              && p.flushTasks == old(p.flushTasks) && p.sink.received == old(p.sink.received)
    ensures old(p.Attended()) ==>
              if p.doFlush then p.outputStopped && p.flushTasks == old(p.flushTasks)
              else p.flushTasks == old(p.flushTasks) + 1 && p.sink.received == p.Resampled(p.stream)
  {
    hide AudioProcessor.Valid, AudioProcessor.Resampled, AudioProcessor.RatesOK;
    p.UnattendedIsWilling();
    p.FlushSamples();
    p.UnattendedIsWilling();
    for k := 0 to resumes
      invariant p.Valid()
      invariant !old(p.Attended()) ==>
                  p.doFlush && !p.outputStopped && p.bufCnt == old(p.bufCnt) > 0
                  && p.flushTasks == old(p.flushTasks) && p.sink.received == old(p.sink.received)
      invariant old(p.Attended()) ==>
                  if p.doFlush then p.outputStopped && p.flushTasks == old(p.flushTasks)
                  else p.flushTasks == old(p.flushTasks) + 1 && p.sink.received == p.Resampled(p.stream)
                       && p.bufCnt == 0
    {
      p.UnattendedIsWilling();
      if p.outputStopped {
        p.ResumeOutput();
        p.UnattendedIsWilling();
      }
    }
  }

  /** The stall is within reach: from a partial block and no buffered output, a write that completes
      the block and no second one, and then a flush. */
  method StallABlock(p: AudioProcessor, samples: seq<Sample>) returns (n: nat)
    requires p.Valid() && p.bufCnt == 0 && p.CompletesOneBlock(p.inputBufCnt, |samples|) && 0 < |samples|
    modifies p, p.StageObjects(), p.buf, p.inputBuf, p.sink
    ensures p.Valid() && 0 < n
    ensures p.doFlush && !p.outputStopped && p.bufCnt > 0 && p.flushTasks == old(p.flushTasks)
  {
    hide AudioProcessor.Valid;
    p.RoomWhenEmpty();
    n := p.WriteSamples(samples);
    p.RoomWhenEmpty();
    StalledFlush(p, 0);
  }

  // A decimator by two and two writes of one sample get there.
  method StalledExample(a: Sample, b: Sample) returns (p: AudioProcessor)
    ensures fresh(p) && p.Valid() && p.doFlush && p.bufCnt > 0 && !p.outputStopped
    ensures p.flushTasks == 0 && p.resumeTasks == 0 && p.sink.received == []
  {
    hide AudioProcessor.StageOK, AudioProcessor.OutputOK, AudioProcessor.InputOK, AudioProcessor.Separate;
    var sink := new Sink(false);
    var dec := new AudioDecimator(2, [1.0, 1.0]);
    p := new AudioProcessor.Decimating(dec, sink);
    var n := p.WriteSamples([a]);
    p.OutputCount();
    n := p.WriteSamples([b]);
    p.OutputCount();
    p.FlushSamples();
    p.OutputCount();
  }
}
