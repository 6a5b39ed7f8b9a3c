/** AudioDelayLine: a ring of fixed size that samples pass through, with muting, clearing and
    fading (src/async/audio/AsyncAudioDelayLine.cpp). */
module DelayLine {
  import opened AudioPipe
  import opened Ring
  import opened Fading
  import Fir

  const INTERNAL_SAMPLE_RATE: nat := 16000
  const DEFAULT_FADE_TIME: nat := 10
  const OUTPUT_SIZE: nat := 512

  function SamplesIn(ms: nat): (n: nat)
    ensures n == 16 * ms
  {
    ms * INTERNAL_SAMPLE_RATE / 1000
  }

  // --- The ring, read from its oldest sample ---

  function Line(s: seq<Sample>, ptr: nat): (r: seq<Sample>)
    requires ptr < |s|
    ensures |r| == |s|
    ensures forall i :: 0 <= i < |s| ==> r[i] == s[Wrap(ptr, i, |s|)]
  {
    Window(s, ptr, |s|)
  }

  function NextIndex(ptr: nat, size: nat): (r: nat)
    requires ptr < size
    ensures r == Wrap(ptr, 1, size)
  {
    if ptr < size - 1 then ptr + 1 else 0
  }

  // Replacing the oldest sample makes it the newest.
  lemma ReplaceOldest(s: seq<Sample>, ptr: nat, x: Sample)
    requires ptr < |s|
    ensures Line(s[ptr := x], NextIndex(ptr, |s|)) == Line(s, ptr)[1..] + [x]
  {
  }

  lemma UpdateInLine(s: seq<Sample>, ptr: nat, i: nat, x: Sample)
    requires ptr < |s| && i < |s|
    ensures Line(s[Wrap(ptr, i, |s|) := x], ptr) == Line(s, ptr)[i := x]
  {
  }

  // --- What mute and clear do to the ring ---

  // The step of the loop over `count` samples that reaches position i of the line, if it is in
  // 0..count. The loop advances before it scales, so its last step comes round to the oldest.
  function Turn(size: nat, count: nat, i: nat): int {
    if i == 0 then count - 1 else i - (size - count + 1)
  }

  // The position that step j reaches.
  function Reached(size: nat, count: nat, j: nat): (i: nat)
    requires j < count <= size
    ensures i < size && Turn(size, count, i) == j
  {
    if j == count - 1 then 0 else size - count + 1 + j
  }

  lemma NextTurn(home: nat, size: nat, count: nat, j: nat)
    requires home < size && j < count <= size
    ensures var at := if j > 0 then Wrap(home, Reached(size, count, j - 1), size) else Wrap(home, size - count, size);
            NextIndex(at, size) == Wrap(home, Reached(size, count, j), size)
  {
  }

  lemma BackHome(home: nat, size: nat, count: nat)
    requires home < size && count <= size
    ensures count > 0 ==> Wrap(home, Reached(size, count, count - 1), size) == home
    ensures count == 0 ==> Wrap(home, size - count, size) == home
  {
  }

  // The line after the first n steps.
  function Rescaled(r: seq<Sample>, count: nat, n: nat, table: seq<real>, f: Fader): (s: seq<Sample>)
    requires InTable(f) && |table| == f.len
    ensures |s| == |r|
  {
    seq(|r|, i requires 0 <= i < |r| =>
      var j := Turn(|r|, count, i);
      if 0 <= j < n then Scale(r[i], Gain(table, Steps(f, j))) else r[i])
  }

  lemma RescaleStep(r: seq<Sample>, count: nat, n: nat, table: seq<real>, f: Fader)
    requires InTable(f) && |table| == f.len && n < count <= |r|
    ensures var i := Reached(|r|, count, n);
            && Rescaled(r, count, n, table, f)[i] == r[i]
            && Rescaled(r, count, n + 1, table, f) ==
               Rescaled(r, count, n, table, f)[i := Scale(r[i], Gain(table, Steps(f, n)))]
  {
    hide Scale, Gain, Steps;
    var i := Reached(|r|, count, n);
    forall k | 0 <= k < |r| && k != i ensures Turn(|r|, count, k) != n {
    }
  }

  /** What a mute or clear of the newest `count` samples makes of every sample: all of them but the first
      get the gains of the walk in their order, the oldest sample of the line gets the gain that comes
      next, and all others stay. */
  lemma LineProfile(r: seq<Sample>, count: nat, table: seq<real>, pos: nat)
    requires count <= |r| && pos < |table|
    ensures forall i :: 0 <= i < |r| ==>
              Rescaled(r, count, count, table, Fader(|table|, pos, 1))[i] ==
              if i == 0 && count > 0 then r[i] * table[Min(pos + count - 1, |table| - 1)]
              else if i > |r| - count then r[i] * table[Min(pos + i - (|r| - count + 1), |table| - 1)]
              else r[i]
  {
    hide Steps;
    var f := Fader(|table|, pos, 1);
    forall i | 0 <= i < |r|
      ensures Rescaled(r, count, count, table, f)[i] ==
              if i == 0 && count > 0 then r[i] * table[Min(pos + count - 1, |table| - 1)]
              else if i > |r| - count then r[i] * table[Min(pos + i - (|r| - count + 1), |table| - 1)]
              else r[i]
    {
      var j := Turn(|r|, count, i);
      if 0 <= j < count {
        FadesOut(f, j);
      }
    }
  }

  function LastClear(count: nat, fadeLen: nat): nat {
    Max(0, count - fadeLen)
  }

  ghost predicate TailIsSilent(r: seq<Sample>, n: nat)
    requires n <= |r|
  {
    forall i :: |r| - n <= i < |r| ==> r[i] == 0.0
  }

  /** The samples that a flush after a clear leaves out are silent, for every content of the line,
      exactly when fading is on. With fading off clear scales nothing, and the flush loses them. */
  lemma ClearedIsSilent(size: nat, count: nat, table: seq<real>, f: Fader)
    requires InTable(f) && |table| == f.len && IsTable(table) && f.dir == 1 && 0 < count <= size
    ensures (forall r :: |r| == size ==> TailIsSilent(Rescaled(r, count, count, table, f), LastClear(count, f.len)))
            <==> f.len > 0
  {
    hide Scale, Steps, Gain;
    if f.len > 0 {
      forall r | |r| == size ensures TailIsSilent(Rescaled(r, count, count, table, f), LastClear(count, f.len)) {
        forall i | size - LastClear(count, f.len) <= i < size
          ensures Rescaled(r, count, count, table, f)[i] == 0.0
        {
          EndOfFade(table, f, i - (size - count + 1));
          ScaleUnits(r[i]);
        }
      }
    } else {
      var loud := seq(size, _ => 1.0);
      assert Rescaled(loud, count, count, table, f)[size - 1] != 0.0 by {
        FullGain(table, f, Turn(size, count, size - 1));
        ScaleUnits(1.0);
      }
      assert !TailIsSilent(Rescaled(loud, count, count, table, f), count);
    }
  }

  lemma EndOfFade(table: seq<real>, f: Fader, n: nat)
    requires InTable(f) && |table| == f.len > 0 && IsTable(table) && f.dir == 1 && n >= f.len - 1
    ensures Gain(table, Steps(f, n)) == 0.0
  {
    hide Steps;
    FadesOut(f, n);
  }

  lemma FullGain(table: seq<real>, f: Fader, n: int)
    requires InTable(f) && |table| == f.len == 0
    ensures n >= 0 ==> Gain(table, Steps(f, n)) == 1.0
  {
  }

  // Only the newest samples are scaled, for every content of the line.
  ghost predicate SparesOlder(size: nat, count: nat, table: seq<real>, f: Fader)
    requires InTable(f) && |table| == f.len && count <= size
  {
    forall r :: |r| == size ==> Rescaled(r, count, count, table, f)[..size - count] == r[..size - count]
  }

  /** Only the newest samples are scaled exactly when the last gain that is applied is 1 or all samples
      are to be scaled anyway: otherwise the oldest sample, which is the next to be played, gets the
      gain that belongs to the newest. */
  lemma OldestIsScaled(size: nat, count: nat, table: seq<real>, f: Fader)
    requires InTable(f) && |table| == f.len && 0 < count <= size
    ensures SparesOlder(size, count, table, f) <==> count == size || Gain(table, Steps(f, count - 1)) == 1.0
  {
    hide Scale, Steps, Gain;
    if count == size || Gain(table, Steps(f, count - 1)) == 1.0 {
      forall r | |r| == size
        ensures Rescaled(r, count, count, table, f)[..size - count] == r[..size - count]
      {
        forall i | 0 <= i < size - count ensures Rescaled(r, count, count, table, f)[i] == r[i] {
          ScaleUnits(r[i]);
        }
      }
    } else {
      var loud := seq(size, _ => 1.0);
      assert Rescaled(loud, count, count, table, f)[0] != loud[0] by {
        ScaleOne(Gain(table, Steps(f, count - 1)));
      }
      assert Rescaled(loud, count, count, table, f)[..size - count][0] != loud[..size - count][0];
    }
  }

  lemma NothingIsScaled(size: nat, table: seq<real>, f: Fader)
    requires InTable(f) && |table| == f.len
    ensures SparesOlder(size, 0, table, f)
  {
    hide Rescaled;
    forall r | |r| == size ensures Rescaled(r, 0, 0, table, f)[..size] == r[..size] {
      RescaleNone(r, 0, table, f);
    }
  }

  // The curve of the source, pow(2, -15 * i / len), is below 1 after its start.
  ghost predicate FallsAtOnce(table: seq<real>) {
    forall i :: 0 < i < |table| ==> table[i] < 1.0
  }

  /** For a mute, in terms of its arguments: the samples from before the asked time are left alone
      exactly when fading is off, the whole line is muted, or at most one sample is. Otherwise the
      oldest sample is scaled, though it lies before that time. */
  lemma MuteReachesBack(size: nat, count: nat, table: seq<real>)
    requires IsTable(table) && FallsAtOnce(table) && count <= size
    ensures SparesOlder(size, count, table, Fader(|table|, 0, 1)) <==> table == [] || count == size || count <= 1
  {
    hide SparesOlder, Gain, Steps, FallsAtOnce, IsTable;
    if count == 0 {
      NothingIsScaled(size, table, Fader(|table|, 0, 1));
    } else {
      OldestIsScaled(size, count, table, Fader(|table|, 0, 1));
      LastMuteGain(table, count);
    }
  }

  lemma LastMuteGain(table: seq<real>, count: nat)
    requires IsTable(table) && FallsAtOnce(table) && 0 < count
    ensures Gain(table, Steps(Fader(|table|, 0, 1), count - 1)) == 1.0 <==> table == [] || count == 1
  {
    hide Steps;
    if table == [] {
      FullGain(table, Fader(0, 0, 1), count - 1);
    } else {
      FadesOut(Fader(|table|, 0, 1), count - 1);
    }
  }

  // The gains of a fade, as the source computes them with pow().
  type Curve = (nat, nat) -> real

  ghost predicate StartsFull(curve: Curve) {
    forall n :: 0 < n ==> curve(0, n) == 1.0
  }

  class AudioDelayLine {
    const buf: array<Sample>
    const size: nat
    var ptr: nat
    var flushCnt: nat
    var isMuted: bool
    var muteCnt: nat
    var lastClear: nat
    var fadeGain: seq<real>
    var fadeLen: nat
    var fadePos: int
    var fadeDir: int
    const curve: Curve
    const sink: Sink

    // History: everything that was put into the line, samples and the zeros of flushes; its part
    // before the zeros of the flush in progress, and how many those are; the flushes sent on and
    // acknowledged, and the resumes; and whether the line has never been muted or cleared.
    ghost var fed: seq<Sample>
    ghost var body: seq<Sample>
    ghost var padded: nat
    ghost var sinkFlushes: nat
    ghost var acks: nat
    ghost var resumes: nat
    ghost var pristine: bool
    // What the samples of all writes were stored as.
    ghost var stored: seq<Sample>

    ghost function Ring(): (r: seq<Sample>)
      reads `ptr, buf
      requires ptr < buf.Length
      ensures |r| == buf.Length
    {
      Line(buf[..], ptr)
    }

    function Now(): Fader
      reads `fadeLen, `fadePos, `fadeDir
    {
      Fader(fadeLen, fadePos, fadeDir)
    }

    ghost function Mute(): Muting
      reads `fadeLen, `fadePos, `fadeDir, `isMuted, `muteCnt
    {
      Muting(Now(), isMuted, muteCnt)
    }

    // A mute that has silenced the input or is about to.
    ghost predicate HeadingOut()
      reads `fadeLen, `fadePos, `fadeDir, `isMuted, `muteCnt
    {
      HeadsOut(Mute())
    }

    ghost predicate Shape()
      reads `ptr
    {
      0 < size == buf.Length && ptr < size
    }

    // The fade index never leaves the fade table.
    ghost predicate FadeOK()
      reads `fadeLen, `fadePos, `fadeDir, `fadeGain
    {
      InTable(Now()) && |fadeGain| == fadeLen && IsTable(fadeGain) && StartsFull(curve)
    }

    // A line that was never muted or cleared delays by exactly its size.
    ghost predicate LineOK()
      reads `ptr, `fed, `pristine, buf, sink
      requires Shape()
    {
      && sink.Valid() && |fed| == |sink.received|
      && (pristine ==> sink.received + Ring() == Fir.Silence(size) + fed)
    }

    ghost predicate FlushOK()
      reads `flushCnt, `lastClear, `fed, `body, `padded, `pristine
    {
      && flushCnt <= size && lastClear <= size
      && fed == body + Fir.Silence(padded)
      && (pristine ==> lastClear == 0 || (lastClear == size && fed == []))
      && (pristine && flushCnt > 0 ==> padded + flushCnt == size && lastClear == 0)
    }

    ghost predicate Quiet()
      reads `fadeLen, `fadePos, `fadeDir, `isMuted, `pristine
    {
      pristine ==> Transparent(Now()) && !isMuted
    }

    ghost predicate Valid()
      reads this, buf, sink
    {
      Shape() && FadeOK() && LineOK() && FlushOK() && Quiet()
    }

    constructor (lengthMs: nat, curve: Curve, sink: Sink)
      requires 0 < lengthMs && StartsFull(curve) && sink.Valid() && sink.received == []
      ensures Valid() && fresh(buf) && size == 16 * lengthMs && this.curve == curve && this.sink == sink
      ensures pristine && fed == stored == [] && lastClear == size && flushCnt == 0
      ensures sinkFlushes == acks == resumes == 0
      ensures fadeLen == SamplesIn(DEFAULT_FADE_TIME)
    {
      size := SamplesIn(lengthMs);
      buf := new Sample[SamplesIn(lengthMs)](_ => 0.0);
      ptr, flushCnt := 0, 0;
      isMuted, muteCnt, lastClear := false, 0, 0;
      fadeGain, fadeLen, fadePos, fadeDir := [], 0, 0, 0;
      this.curve := curve;
      this.sink := sink;
      fed, body, padded, sinkFlushes, acks, resumes, pristine, stored := [], [], 0, 0, 0, 0, true, [];
      new;
      StartsSilent(buf[..]);
      Prepare();
    }

    // The calls at the end of the constructor.
    method Prepare()
      requires Shape() && sink.Valid() && sink.received == fed == body == [] && padded == flushCnt == 0
      requires Now() == Fader(0, 0, 0) && fadeGain == [] && StartsFull(curve) && !isMuted && muteCnt == lastClear == 0
      requires Ring() == Fir.Silence(size)
      modifies this`ptr, this`lastClear, this`fadePos, this`fadeDir, this`pristine, buf, this`fadeGain, this`fadeLen
      ensures Valid() && pristine && lastClear == size
      ensures fadeLen == SamplesIn(DEFAULT_FADE_TIME)
    {
      hide Rescaled, Line, Steps;
      EmptyLine();
      Clear(-1);
      StillSilent();
      NeverMoves();
      SetFadeTime(DEFAULT_FADE_TIME as int);
      pristine := true;
      EmptyLine();
    }

    lemma EmptyLine()
      requires body == [] && padded == 0
      ensures body + Fir.Silence(padded) == []
    {
    }

    lemma NeverMoves()
      ensures Steps(Fader(0, 0, 1), size) == Fader(0, 0, 1)
    {
      StandsStill(Fader(0, 0, 1), size);
    }

    lemma StillSilent()
      requires Shape() && Ring() == Rescaled(Fir.Silence(size), size, size, [], Fader(0, 0, 1))
      ensures Ring() == Fir.Silence(size)
    {
      hide Scale;
      ScaleUnits(0.0);
      forall i | 0 <= i < size ensures Ring()[i] == 0.0 {
        FullGain([], Fader(0, 0, 1), Turn(size, size, i));
      }
    }

    // --- Fading ---

    /** Replaces the fade table and keeps the position in it; without a time fading is off. A mute
        goes on silencing the input if and only if it is still fading out, or the new table is no
        longer than the old one. */
    method SetFadeTime(timeMs: int)
      requires FadeOK()
      modifies this`fadeGain, this`fadeLen, this`fadePos, this`fadeDir
      ensures FadeOK() && fadeLen == if timeMs <= 0 then 0 else SamplesIn(timeMs)
      ensures forall i :: 0 <= i < fadeLen - 1 ==> fadeGain[i] == curve(i, fadeLen)
      ensures timeMs > 0 ==> fadePos == Min(old(fadePos), fadeLen - 1) && fadeDir == old(fadeDir)
      ensures timeMs <= 0 ==> fadePos == fadeDir == 0
      ensures old(HeadingOut()) ==>
                (HeadingOut() <==> timeMs > 0 && (old(fadeDir) == 1 || SamplesIn(timeMs) <= old(fadeLen)))
      ensures HeadingOut() <==> (isMuted && timeMs > 0 && (old(fadeDir) == 1 ||
                                  (old(fadeDir) == 0 && SamplesIn(timeMs) - 1 <= old(fadePos))))
      ensures old(Valid()) ==> Valid()
    {
      hide LineOK, FlushOK;
      fadeGain := [];
      if timeMs <= 0 {
        fadeLen, fadePos, fadeDir := 0, 0, 0;
        return;
      }
      fadeLen := SamplesIn(timeMs);
      fadePos := Min(fadePos, fadeLen - 1);
      var table := [];
      for i := 0 to fadeLen - 1
        invariant |table| == i && forall j :: 0 <= j < i ==> table[j] == curve(j, fadeLen)
      {
        table := table + [curve(i, fadeLen)];
      }
      fadeGain := table + [0.0];
    }

    method CurrentFadeGain() returns (gain: real)
      requires FadeOK()
      modifies this`fadePos, this`fadeDir
      ensures FadeOK() && gain == Gain(fadeGain, old(Now())) && Now() == Step(old(Now()))
    {
      if fadeLen == 0 {
        return 1.0;
      }
      gain := fadeGain[fadePos];
      fadePos := fadePos + fadeDir;
      if fadeDir > 0 && fadePos >= fadeLen - 1 {
        fadeDir := 0;
        fadePos := fadeLen - 1;
      } else if fadeDir < 0 && fadePos <= 0 {
        fadeDir := 0;
        fadePos := 0;
      }
    }

    // The loop that mute and clear share.
    method ScaleLine(count: nat)
      requires Shape() && FadeOK() && count <= size
      modifies this`ptr, this`fadePos, this`fadeDir, buf
      ensures Shape() && FadeOK() && ptr == old(ptr)
      ensures Ring() == Rescaled(old(Ring()), count, count, fadeGain, old(Now()))
      ensures Now() == Steps(old(Now()), count)
    {
      hide Scale, Rescaled, IsTable, Wrap, Reached, NextIndex, Line;
      ghost var home, r, f := ptr, Ring(), Now();
      ModIsWrap(ptr, size - count, size);
      ptr := (ptr + size - count) % size;
      RescaleNone(r, count, fadeGain, f);
      for i := 0 to count
        invariant Shape() && FadeOK() && Now() == Steps(f, i)
        invariant ptr == if i > 0 then Wrap(home, Reached(size, count, i - 1), size) else Wrap(home, size - count, size)
        invariant Line(buf[..], home) == Rescaled(r, count, i, fadeGain, f)
      {
        NextTurn(home, size, count, i);
        ptr := NextIndex(ptr, size);
        ScaleHere(home, Reached(size, count, i));
        RescaleStep(r, count, i, fadeGain, f);
      }
      BackHome(home, size, count);
    }

    // Scales the sample at position i of the line that starts at home.
    method ScaleHere(ghost home: nat, ghost i: nat)
      requires Shape() && FadeOK() && home < size && i < size && ptr == Wrap(home, i, size)
      modifies this`fadePos, this`fadeDir, buf
      ensures FadeOK() && Now() == Step(old(Now()))
      ensures Line(buf[..], home) == old(Line(buf[..], home)[i := Scale(Line(buf[..], home)[i], Gain(fadeGain, Now()))])
    {
      ghost var s := buf[..];
      var gain := CurrentFadeGain();
      UpdateInLine(s, home, i, Scale(s[ptr], gain));
      buf[ptr] := Scale(buf[ptr], gain);
      assert buf[..] == s[ptr := Scale(s[ptr], gain)];
    }

    // --- Muting and clearing ---

    /** Mutes the samples from now on, and up to a time back; or ends a mute, after a time. */
    method SetMute(doMute: bool, timeMs: int)
      requires Valid()
      modifies this`ptr, this`isMuted, this`muteCnt, this`fadePos, this`fadeDir, this`pristine, buf
      ensures Valid() && ptr == old(ptr) && pristine == (old(pristine) && !doMute)
      ensures var ext := if timeMs > 0 then Min(size, SamplesIn(timeMs)) else 0;
              if doMute then
                && Ring() == Rescaled(old(Ring()), ext, ext, fadeGain, Fader(fadeLen, 0, 1))
                && Mute() == Muting(Steps(Fader(fadeLen, 0, 1), ext), true, 0)
              else
                && Ring() == old(Ring())
                && Mute() == if ext == 0 then Muting(old(Now()).(dir := -1), false, old(muteCnt))
                             else Muting(old(Now()), old(isMuted), ext)
    {
      hide IsTable, Rescaled;
      var muteExt := 0;
      if timeMs > 0 {
        muteExt := Min(size, SamplesIn(timeMs));
      }
      if doMute {
        BeginMute(muteExt);
      } else {
        if muteExt == 0 {
          fadeDir := -1;
          isMuted := false;
        } else {
          muteCnt := muteExt;
        }
      }
    }

    method BeginMute(ext: nat)
      requires Shape() && FadeOK() && FlushOK() && sink.Valid() && |fed| == |sink.received| && ext <= size
      modifies this`ptr, this`isMuted, this`muteCnt, this`fadePos, this`fadeDir, this`pristine, buf
      ensures Valid() && ptr == old(ptr) && !pristine
      ensures Ring() == Rescaled(old(Ring()), ext, ext, fadeGain, Fader(fadeLen, 0, 1))
      ensures Mute() == Muting(Steps(Fader(fadeLen, 0, 1), ext), true, 0)
    {
      hide Ring, Sent, Line, Rescaled, Steps, IsTable, StartsFull, LastClear, Wrap, Fir.Silence, Scale;
      pristine := false;
      fadePos := 0;
      fadeDir := 1;
      ScaleLine(ext);
      isMuted := true;
      muteCnt := 0;
    }

    /** Fades out what was put in during a time back, and fades in again for what comes next. */
    method Clear(timeMs: int)
      requires Shape() && FadeOK() && FlushOK() && sink.Valid() && |fed| == |sink.received|
      modifies this`ptr, this`lastClear, this`fadePos, this`fadeDir, this`pristine, buf
      ensures Valid() && !pristine && ptr == old(ptr)
      ensures var count := if timeMs < 0 then size else Min(size, SamplesIn(timeMs));
              var faded := Steps(old(Now().(dir := 1)), count);
              && Ring() == Rescaled(old(Ring()), count, count, fadeGain, old(Now().(dir := 1)))
              && Now() == (if isMuted then faded else faded.(dir := -1))
              && lastClear == Max(0, count - fadeLen)
    {
      hide Ring, Mute, Sent, Line, Rescaled, Steps, IsTable, StartsFull, Wrap, Fir.Silence, Scale, FadeOK, LineOK;
      var count := size;
      if timeMs >= 0 {
        count := Min(size, SamplesIn(timeMs));
      }
      FadeOutLine(count);
      lastClear := Max(0, count - fadeLen);
    }

    method FadeOutLine(count: nat)
      requires Shape() && FadeOK() && FlushOK() && sink.Valid() && |fed| == |sink.received| && count <= size
      modifies this`ptr, this`fadePos, this`fadeDir, this`pristine, buf
      ensures Valid() && !pristine && ptr == old(ptr)
      ensures Ring() == Rescaled(old(Ring()), count, count, fadeGain, old(Now().(dir := 1)))
      ensures Now() == (var f := Steps(old(Now().(dir := 1)), count); if isMuted then f else f.(dir := -1))
    {
      hide Ring, Mute, Sent, Line, Rescaled, Steps, IsTable, StartsFull, Wrap, Fir.Silence, Scale;
      pristine := false;
      fadeDir := 1;
      ScaleLine(count);
      if !isMuted {
        fadeDir := -1;
      }
    }

    // --- Samples ---

    method ReadOldest(count: nat) returns (output: seq<Sample>)
      requires Shape() && count <= size
      ensures output == Ring()[..count]
    {
      output := [];
      var outPtr := ptr;
      for i := 0 to count
        invariant output == Ring()[..i] && outPtr == if i < size then Wrap(ptr, i, size) else ptr
      {
        output := output + [buf[outPtr]];
        outPtr := NextIndex(outPtr, size);
      }
    }

    method StoreOne(x: Sample)
      requires Shape() && FadeOK()
      modifies this`ptr, this`isMuted, this`muteCnt, this`fadePos, this`fadeDir, buf
      ensures Shape() && FadeOK()
      ensures Ring() == old(Ring())[1..] + [Scale(x, Gain(fadeGain, old(Now())))]
      ensures Mute() == Next(old(Mute()))
    {
      hide Scale, IsTable;
      ghost var s, was := buf[..], Ring();
      var gain := CurrentFadeGain();
      ReplaceOldest(s, ptr, Scale(x, gain));
      buf[ptr] := Scale(x, gain);
      assert buf[..] == s[ptr := Scale(x, gain)];
      if isMuted && muteCnt > 0 {
        muteCnt := muteCnt - 1;
        if muteCnt == 0 {
          fadeDir := -1;
          isMuted := false;
        }
      }
      ptr := NextIndex(ptr, size);
    }

    // The loop of writeSamples: each new sample takes the place of the oldest.
    method StoreFaded(samples: seq<Sample>)
      requires Shape() && FadeOK() && |samples| <= size
      modifies this`ptr, this`isMuted, this`muteCnt, this`fadePos, this`fadeDir, buf
      ensures Shape() && FadeOK()
      ensures Ring() == old(Ring())[|samples|..] + Faded(samples, fadeGain, old(Mute()))
      ensures Mute() == After(old(Mute()), |samples|)
    {
      hide Scale, IsTable, Line, Faded, Next, Gain;
      ghost var r, m := Ring(), Mute();
      ghost var stored := Faded(samples, fadeGain, m);
      assert r[0..] + stored[..0] == r;
      for i := 0 to |samples|
        invariant Shape() && FadeOK()
        invariant Ring() == r[i..] + stored[..i]
        invariant Mute() == After(m, i)
      {
        StoreOne(samples[i]);
        LineStep(r, stored, i);
      }
      assert stored[..|samples|] == stored;
    }

    /** Takes as many samples as the sink takes, which gets the oldest of the line for them. A flush
        in progress is given up. */
    method WriteSamples(samples: seq<Sample>) returns (written: nat)
      requires Valid() && 0 < |samples|
      modifies this`ptr, this`flushCnt, this`isMuted, this`muteCnt, this`lastClear, this`fadePos, this`fadeDir
      modifies this`fed, this`body, this`padded, this`stored, buf, sink
      ensures Valid() && written <= |samples| && written <= size
      ensures sink.refusals == old(sink.refusals) + if written == 0 then 1 else 0
      ensures sink.isReader ==> written == Min(Min(|samples|, size), old(sink.Room()))
      ensures sink.received == old(sink.received) + old(Ring())[..written]
      ensures Ring() == old(Ring())[written..] + Faded(samples[..written], fadeGain, old(Mute()))
      ensures Mute() == After(old(Mute()), written)
      ensures fed == old(fed) + samples[..written] && pristine == old(pristine)
      ensures flushCnt == 0 && lastClear == 0 && sinkFlushes == old(sinkFlushes)
      ensures old(pristine) ==> Ring() == old(Ring())[written..] + samples[..written]
      ensures stored == old(stored) + Faded(samples[..written], fadeGain, old(Mute()))
    {
      hide Scale, IsTable, Line, Faded, Next, Gain, Fir.Silence, After, Ring, Mute, Now, Quiet, FadeOK, LineOK;
      hide Transparent;
      flushCnt := 0;
      lastClear := 0;
      written := Transfer(samples);
      NoteWrite(written);
    }

    ghost method NoteWrite(written: nat)
      requires Shape() && written <= size
      modifies this`body, this`padded, this`stored
      ensures body == fed && padded == 0 && fed == body + Fir.Silence(padded)
      ensures stored == old(stored) + Ring()[size - written..]
    {
      hide Ring;
      body, padded := fed, 0;
      stored := stored + Ring()[size - written..];
      NothingPadded();
    }

    lemma StartsInTable()
      requires FadeOK()
      ensures InTable(Mute().fader) && Mute().fader.len == fadeLen
    {
    }

    // What goes through keeps the delay.
    method Transfer(samples: seq<Sample>) returns (written: nat)
      requires Shape() && FadeOK() && LineOK() && Quiet() && 0 < |samples|
      modifies this`ptr, this`isMuted, this`muteCnt, this`fadePos, this`fadeDir, this`fed, buf, sink
      ensures Shape() && FadeOK() && LineOK() && Quiet() && written <= |samples| && written <= size
      ensures sink.refusals == old(sink.refusals) + if written == 0 then 1 else 0
      ensures sink.isReader ==> written == Min(Min(|samples|, size), old(sink.Room()))
      ensures sink.received == old(sink.received) + old(Ring())[..written]
      ensures Ring() == old(Ring())[written..] + Faded(samples[..written], fadeGain, old(Mute()))
      ensures Mute() == After(old(Mute()), written)
      ensures fed == old(fed) + samples[..written]
      ensures pristine ==> Ring() == old(Ring())[written..] + samples[..written]
    {
      hide Scale, IsTable, Line, Faded, Next, Gain, Fir.Silence, After, Ring, Mute, Now, Quiet, FadeOK, Transparent;
      ghost var r, m, received := Ring(), Mute(), sink.received;
      StartsQuiet();
      written := Exchange(samples);
      PassesThrough(samples[..written], m);
      ShiftLine(received, r, fed, samples[..written], Fir.Silence(size));
      fed := fed + samples[..written];
    }

    lemma StartsQuiet()
      requires FadeOK() && Quiet()
      ensures Shape() ==> InTable(Mute().fader) && |fadeGain| == Mute().fader.len && IsTable(fadeGain)
      ensures pristine ==> Transparent(Mute().fader) && !Mute().muted
    {
    }

    // A line at full gain lets a block through unchanged and stays at full gain.
    lemma PassesThrough(part: seq<Sample>, m: Muting)
      requires FadeOK() && InTable(m.fader) && |fadeGain| == m.fader.len
      requires Mute() == After(m, |part|) && (pristine ==> Transparent(m.fader) && !m.muted)
      ensures Quiet() && (pristine ==> Faded(part, fadeGain, m) == part)
    {
      hide Transparent, After, Faded;
      if pristine {
        TransparentPasses(part, fadeGain, m);
      }
    }

    // Offers the oldest samples to the sink and replaces those it takes.
    method Exchange(samples: seq<Sample>) returns (written: nat)
      requires Shape() && FadeOK() && sink.Valid() && 0 < |samples|
      modifies this`ptr, this`isMuted, this`muteCnt, this`fadePos, this`fadeDir, buf, sink
      ensures Shape() && FadeOK() && sink.Valid() && written <= |samples| && written <= size
      ensures sink.refusals == old(sink.refusals) + if written == 0 then 1 else 0
      ensures sink.isReader ==> written == Min(Min(|samples|, size), old(sink.Room()))
      ensures sink.received == old(sink.received) + old(Ring())[..written]
      ensures Ring() == old(Ring())[written..] + Faded(samples[..written], fadeGain, old(Mute()))
      ensures Mute() == After(old(Mute()), written)
    {
      hide Scale, IsTable, Line, Faded, Next, Gain, After;
      var count := Min(|samples|, size);
      var output := ReadOldest(count);
      ghost var r := Ring();
      written := sink.WriteSamples(output);
      assert output[..written] == r[..written];
      StoreFaded(samples[..written]);
    }

    lemma NothingPadded()
      ensures body + Fir.Silence(0) == body
    {
    }

    // --- Flushing ---

    // A sink that holds nothing acknowledges at once.
    method SinkFlushSamples()
      modifies this`sinkFlushes, this`acks
      ensures sinkFlushes == old(sinkFlushes) + 1 && old(acks) <= acks <= old(acks) + 1
    {
      sinkFlushes := sinkFlushes + 1;
      if * {
        AllSamplesFlushed();
      }
    }

    method AllSamplesFlushed()
      modifies this`acks
      ensures acks == old(acks) + 1
      ensures old(Valid()) ==> Valid()
    {
      acks := acks + 1;
    }

    method StoreZeros(n: nat)
      requires Shape() && n <= size
      modifies this`ptr, buf
      ensures Shape() && Ring() == old(Ring())[n..] + Fir.Silence(n)
    {
      hide Line;
      ghost var r, zeros := Ring(), Fir.Silence(n);
      assert r[0..] + zeros[..0] == r;
      for i := 0 to n
        invariant Shape() && Ring() == r[i..] + zeros[..i]
      {
        StoreZero();
        LineStep(r, zeros, i);
      }
      assert zeros[..n] == zeros;
    }

    method StoreZero()
      requires Shape()
      modifies this`ptr, buf
      ensures Shape() && Ring() == old(Ring())[1..] + [0.0]
    {
      ghost var s := buf[..];
      ReplaceOldest(s, ptr, 0.0);
      buf[ptr] := 0.0;
      assert buf[..] == s[ptr := 0.0];
      ptr := NextIndex(ptr, size);
    }

    // One round of writeRemainingSamples.
    method WriteRemainingOnce() returns (written: nat)
      requires Valid() && 0 < flushCnt
      modifies this`ptr, this`flushCnt, this`fed, this`padded, buf, sink
      ensures Valid() && written <= old(flushCnt) && flushCnt == old(flushCnt) - written
      ensures sink.refusals == old(sink.refusals) + if written == 0 then 1 else 0
      ensures sink.received == old(sink.received) + old(Ring())[..written]
      ensures Ring() == old(Ring())[written..] + Fir.Silence(written)
      ensures fed == old(fed) + Fir.Silence(written) && padded == old(padded) + written
    {
      hide FadeOK, Line, Fir.Silence, Quiet, Ring;
      ghost var r, received := Ring(), sink.received;
      written := ExchangeZeros(Min(OUTPUT_SIZE, flushCnt));
      flushCnt := flushCnt - written;
      SilenceJoins(body, padded, written);
      ShiftLine(received, r, fed, Fir.Silence(written), Fir.Silence(size));
      fed := fed + Fir.Silence(written);
      padded := padded + written;
    }

    method SendMore(ghost received: seq<Sample>, ghost r: seq<Sample>, ghost had: seq<Sample>, ghost sent: nat)
      returns (written: nat)
      requires Valid() && 0 < flushCnt && Sent(received, r, had, sent) && sent + flushCnt <= size
      modifies this`ptr, this`flushCnt, this`fed, this`padded, buf, sink
      ensures Valid() && written <= old(flushCnt) && flushCnt == old(flushCnt) - written
      ensures sink.refusals == old(sink.refusals) + if written == 0 then 1 else 0
      ensures padded == old(padded) + written && Sent(received, r, had, sent + written)
    {
      hide FadeOK, LineOK, Quiet, Ring, Now, Mute, Line, Rescaled, Steps, IsTable, InTable, StartsFull;
      hide LastClear, Wrap, Fir.Silence, Scale;
      written := WriteRemainingOnce();
      MovedOn(received, r, had, sent, written);
    }

    // What has become of the line since a flush began to send it: zeros take the place of the samples
    // that went out.
    ghost predicate Sent(received: seq<Sample>, r: seq<Sample>, had: seq<Sample>, sent: int)
      reads `ptr, `fed, buf, sink
    {
      && Shape() && 0 <= sent <= size == |r|
      && sink.received == received + r[..sent]
      && Ring() == r[sent..] + Fir.Silence(sent)
      && fed == had + Fir.Silence(sent)
    }

    lemma NothingSent()
      requires Shape()
      ensures Sent(sink.received, Ring(), fed, 0)
    {
      hide Line;
    }

    method ExchangeZeros(count: nat) returns (written: nat)
      requires Shape() && sink.Valid() && 0 < count <= size
      modifies this`ptr, buf, sink
      ensures Shape() && sink.Valid() && written <= count
      ensures sink.refusals == old(sink.refusals) + if written == 0 then 1 else 0
      ensures sink.received == old(sink.received) + old(Ring())[..written]
      ensures Ring() == old(Ring())[written..] + Fir.Silence(written)
    {
      hide Line;
      var output := ReadOldest(count);
      ghost var r := Ring();
      written := sink.WriteSamples(output);
      assert output[..written] == r[..written];
      StoreZeros(written);
    }

    /** Sends what is left of the line, with zeros taking its place, and flushes the sink when all of
        it is out. */
    method WriteRemainingSamples()
      requires Valid() && 0 < flushCnt
      modifies this`ptr, this`flushCnt, this`fed, this`padded, this`sinkFlushes, this`acks, buf, sink
      ensures Valid() && flushCnt <= old(flushCnt)
      ensures Sent(old(sink.received), old(Ring()), old(fed), old(flushCnt) - flushCnt)
      // What is not sent has been refused.
      ensures sink.refusals == old(sink.refusals) + if flushCnt > 0 then 1 else 0
      ensures sinkFlushes == old(sinkFlushes) + if flushCnt == 0 then 1 else 0
      ensures pristine && flushCnt == 0 ==> sink.received == Fir.Silence(size) + body
    {
      hide FadeOK, LineOK, FlushOK, Quiet, Ring, Now, Mute, Sent, Line, Rescaled, Steps, IsTable, InTable;
      hide StartsFull, LastClear, Wrap, Fir.Silence, Scale;
      FlushBounds();
      var written := 1;
      ghost var r := Ring();
      NothingSent();
      while written > 0 && flushCnt > 0
        invariant Valid() && flushCnt <= old(flushCnt)
        invariant sink.refusals == old(sink.refusals) + if written == 0 then 1 else 0
        invariant written == 0 ==> flushCnt > 0
        invariant Sent(old(sink.received), r, old(fed), old(flushCnt) - flushCnt)
        invariant padded == old(padded) + old(flushCnt) - flushCnt && sinkFlushes == old(sinkFlushes)
        decreases flushCnt, written
      {
        written := SendMore(old(sink.received), r, old(fed), old(flushCnt) - flushCnt);
      }
      if flushCnt == 0 {
        FlushBounds();
        FlushedOut();
        SinkFlushSamples();
      }
    }

    /** Plays the whole line, except for what was cleared since the last write, and then flushes the
        sink. */
    method FlushSamples()
      requires Valid()
      modifies this`ptr, this`flushCnt, this`fed, this`body, this`padded, this`sinkFlushes, this`acks, buf, sink
      ensures Valid() && flushCnt <= size - lastClear && body == old(fed)
      ensures Sent(old(sink.received), old(Ring()), old(fed), size - lastClear - flushCnt)
      ensures sink.refusals == old(sink.refusals) + if flushCnt > 0 then 1 else 0
      ensures sinkFlushes == old(sinkFlushes) + if flushCnt == 0 then 1 else 0
      // An untouched line has then played all of its input, behind the initial delay.
      ensures pristine && flushCnt == 0 && lastClear == 0 ==> sink.received == Fir.Silence(size) + old(fed)
      ensures pristine && lastClear == size ==> old(fed) == [] && sink.received == old(sink.received) && flushCnt == 0
    {
      hide FadeOK, LineOK, Quiet, Ring, Now, Mute, Sent, Line, Rescaled, Steps, IsTable, InTable;
      hide StartsFull, LastClear, Wrap, Fir.Silence, Scale;
      flushCnt := size - lastClear;
      body, padded := fed, 0;
      NothingPadded();
      NothingSent();
      if flushCnt > 0 {
        WriteRemainingSamples();
      } else {
        SinkFlushSamples();
      }
    }

    /** A sink that can take samples again gets the rest of the flush, or wakes the source. */
    method ResumeOutput()
      requires Valid()
      modifies this`ptr, this`flushCnt, this`fed, this`padded, this`sinkFlushes, this`acks, this`resumes, buf, sink
      ensures Valid() && flushCnt <= old(flushCnt)
      ensures Sent(old(sink.received), old(Ring()), old(fed), old(flushCnt) - flushCnt)
      ensures sink.refusals == old(sink.refusals) + if flushCnt > 0 then 1 else 0
      ensures resumes == old(resumes) + if old(flushCnt) > 0 then 0 else 1
      ensures sinkFlushes == old(sinkFlushes) + if old(flushCnt) > 0 && flushCnt == 0 then 1 else 0
      ensures pristine && old(flushCnt) > 0 && flushCnt == 0 ==> sink.received == Fir.Silence(size) + body
    {
      hide FadeOK, LineOK, FlushOK, Quiet, Ring, Now, Mute, Sent, Line, Rescaled, Steps, IsTable, InTable;
      hide StartsFull, LastClear, Wrap, Fir.Silence, Scale;
      if flushCnt > 0 {
        WriteRemainingSamples();
      } else {
        NothingSent();
        resumes := resumes + 1;
      }
    }

    lemma FlushBounds()
      requires FlushOK()
      ensures flushCnt <= size && fed == body + Fir.Silence(padded)
      ensures pristine && flushCnt > 0 ==> padded + flushCnt == size
    {
    }

    lemma FlushedOut()
      requires Shape() && LineOK() && fed == body + Fir.Silence(padded)
      ensures pristine && padded == size ==> sink.received == Fir.Silence(size) + body
    {
      if pristine && padded == size {
        var all := Fir.Silence(size) + (body + Fir.Silence(size));
        assert sink.received == all[..|all| - size];
        assert all == (Fir.Silence(size) + body) + Fir.Silence(size);
      }
    }
  }

  // --- Runs ---

  datatype Event =
    | Write(samples: seq<Sample>)
    | Flush
    | Resume
    | Flushed
    | Mute(doMute: bool, muteMs: int)
    | Clear(clearMs: int)
    | FadeTime(fadeMs: int)

  // What may change samples that are in the line.
  predicate Touches(e: Event) {
    e.Clear? || (e.Mute? && e.doMute)
  }

  method DoStep(d: AudioDelayLine, e: Event)
    requires d.Valid()
    modifies d, d.buf, d.sink
    ensures d.Valid()
    ensures old(d.pristine) && !Touches(e) ==> d.pristine
  {
    hide AudioDelayLine.LineOK, AudioDelayLine.FlushOK, IsTable;
    match e {
      case Write(samples) =>
        if samples != [] {
          var n := d.WriteSamples(samples);
        }
      case Flush => d.FlushSamples();
      case Resume => d.ResumeOutput();
      case Flushed => d.AllSamplesFlushed();
      case Mute(doMute, ms) => d.SetMute(doMute, ms);
      case Clear(ms) => ClearLine(d, ms);
      case FadeTime(ms) => d.SetFadeTime(ms);
    }
  }

  method ClearLine(d: AudioDelayLine, ms: int)
    requires d.Valid()
    modifies d, d.buf
    ensures d.Valid()
  {
    hide AudioDelayLine.FlushOK, AudioDelayLine.FadeOK, Rescaled;
    d.Clear(ms);
  }

  /** Every run: the fade index stays in its table whatever is done, and a line that nobody mutes or
      clears delays its input by exactly its size. */
  method Run(lengthMs: nat, curve: Curve, events: seq<Event>) returns (d: AudioDelayLine)
    requires 0 < lengthMs && StartsFull(curve)
    ensures d.Valid() && d.size == 16 * lengthMs
    ensures d.fadeLen > 0 ==> 0 <= d.fadePos < d.fadeLen == |d.fadeGain|
    ensures |d.fed| == |d.sink.received|
    ensures (forall e :: e in events ==> !Touches(e)) ==>
              d.sink.received + d.Ring() == Fir.Silence(d.size) + d.fed
  {
    hide AudioDelayLine.Valid;
    var sink := new Sink(false);
    d := new AudioDelayLine(lengthMs, curve, sink);
    for k := 0 to |events|
      invariant d.Valid() && fresh(d) && fresh(d.buf) && fresh(d.sink)
      invariant (forall e :: e in events[..k] ==> !Touches(e)) ==> d.pristine
    {
      assert events[..k + 1] == events[..k] + [events[k]];
      DoStep(d, events[k]);
    }
    assert events[..|events|] == events;
    Delays(d);
  }

  // --- Muted runs ---

  // The walk through the table in a valid state.
  lemma InItsTable(d: AudioDelayLine)
    requires d.FadeOK()
    ensures InTable(d.Mute().fader) && d.Mute().fader.len == d.fadeLen == |d.fadeGain| && IsTable(d.fadeGain)
    ensures (d.fadeLen == 0 || d.fadeLen >= 2) && (d.HeadingOut() ==> d.isMuted && d.fadeLen > 0)
  {
  }

  lemma ValidFade(d: AudioDelayLine)
    requires d.Valid()
    ensures d.FadeOK() && d.Shape() && d.FlushOK() && d.sink.Valid() && |d.fed| == |d.sink.received|
  {
  }

  /** A new mute silences the input if and only if fading is on. */
  method BeginMute(d: AudioDelayLine, timeMs: int)
    requires d.Valid()
    modifies d, d.buf
    ensures d.Valid() && d.isMuted && d.muteCnt == 0 && d.fadeLen == old(d.fadeLen) && d.stored == old(d.stored)
    ensures d.HeadingOut() <==> d.fadeLen > 0
    ensures 0 <= d.fadePos && (timeMs > 0 && 0 < d.fadeLen <= Min(d.size, SamplesIn(timeMs)) ==> d.fadeDir == 0)
  {
    hide AudioDelayLine.Valid, AudioDelayLine.Ring, Rescaled, Steps, IsTable;
    ValidFade(d);
    InItsTable(d);
    d.SetMute(true, timeMs);
    if d.fadeLen > 0 {
      var ext := if timeMs > 0 then Min(d.size, SamplesIn(timeMs)) else 0;
      FadingOutHeadsOut(Fader(d.fadeLen, 0, 1), ext, 0);
    }
  }

  /** A clear puts a muted line on its way to silence if and only if fading is on. */
  method MutedClear(d: AudioDelayLine, timeMs: int)
    requires d.Valid()
    modifies d, d.buf
    ensures d.Valid() && d.isMuted == old(d.isMuted) && d.muteCnt == old(d.muteCnt) && d.stored == old(d.stored)
    ensures d.isMuted ==> (d.HeadingOut() <==> d.fadeLen > 0)
    ensures d.fadeLen == old(d.fadeLen) && (d.isMuted && d.fadeLen > 0 ==> old(d.fadePos) <= d.fadePos)
  {
    hide AudioDelayLine.Valid, AudioDelayLine.FlushOK, AudioDelayLine.FadeOK, AudioDelayLine.LineOK;
    hide AudioDelayLine.Ring, Rescaled, Steps;
    ValidFade(d);
    InItsTable(d);
    if d.fadeLen > 0 {
      var count := if timeMs < 0 then d.size else Min(d.size, SamplesIn(timeMs));
      FadingOutHeadsOut(d.Now().(dir := 1), count, d.muteCnt);
    }
    d.Clear(timeMs);
  }

  /** A write leaves it to the mute, while that lasts, whether the input is silenced. */
  method MutedWrite(d: AudioDelayLine, samples: seq<Sample>) returns (n: nat)
    requires d.Valid() && 0 < |samples|
    modifies d, d.buf, d.sink
    ensures d.Valid() && d.fadeLen == old(d.fadeLen) && n <= |samples|
    ensures d.isMuted ==> (d.HeadingOut() <==> old(d.HeadingOut()))
    ensures |d.stored| == |old(d.stored)| + n && d.stored[..|old(d.stored)|] == old(d.stored)
    ensures old(d.HeadingOut() && d.muteCnt == 0) ==>
              && d.isMuted && d.muteCnt == 0 && d.fadePos == Min(old(d.fadePos) + n, d.fadeLen - 1)
              && SilentFrom(d.stored[|old(d.stored)|..], Max(0, d.fadeLen - 1 - old(d.fadePos)))
  {
    hide AudioDelayLine.Valid, AudioDelayLine.Ring, Scale, Faded, After, Steps, Gain, Fir.Silence, SilentFrom, IsTable;
    ghost var m, table, before := d.Mute(), d.fadeGain, d.stored;
    ValidFade(d);
    InItsTable(d);
    n := d.WriteSamples(samples);
    if d.isMuted {
      HeadingStays(m, n);
    }
    if HeadsOut(m) && m.left == 0 {
      HeadsOn(m, n);
      HeadingOutIsSilent(samples[..n], table, m);
    }
    assert d.stored[|before|..] == Faded(samples[..n], table, m);
  }

  // The call that ends a mute, at once or after a time.
  method EndMute(d: AudioDelayLine, timeMs: int)
    requires d.Valid()
    modifies d, d.buf
    ensures d.Valid() && (d.isMuted ==> (d.HeadingOut() <==> old(d.HeadingOut())))
  {
    hide AudioDelayLine.Valid, AudioDelayLine.Ring, Rescaled, Steps, IsTable;
    d.SetMute(false, timeMs);
  }

  /** Which operations leave a muted line silencing its input: muting and clearing do if and only if
      fading is on, a new fade time if and only if the fade is still going on or does not become
      longer, and anything else if and only if it was so before. */
  method Outlook(d: AudioDelayLine, e: Event)
    requires d.Valid()
    modifies d, d.buf, d.sink
    ensures d.Valid()
    ensures d.isMuted && old(d.HeadingOut()) ==>
              (d.HeadingOut() <==>
                 (e.FadeTime? ==> e.fadeMs > 0 && (old(d.fadeDir) == 1 || SamplesIn(e.fadeMs) <= old(d.fadeLen))))
    ensures d.isMuted && !old(d.HeadingOut()) ==>
              (d.HeadingOut() <==>
                 if Touches(e) then d.fadeLen > 0
                 else e.FadeTime? && e.fadeMs > 0 &&
                      (old(d.fadeDir) == 1 || (old(d.fadeDir) == 0 && SamplesIn(e.fadeMs) - 1 <= old(d.fadePos))))
  {
    hide AudioDelayLine.Valid, AudioDelayLine.Ring, AudioDelayLine.Sent, AudioDelayLine.HeadingOut, SamplesIn, Faded;
    hide Fir.Silence;
    ValidFade(d);
    InItsTable(d);
    match e {
      case Write(samples) =>
        if samples != [] {
          var n := MutedWrite(d, samples);
        }
      case Flush => d.FlushSamples();
      case Resume => d.ResumeOutput();
      case Flushed => d.AllSamplesFlushed();
      case Mute(doMute, ms) =>
        if doMute {
          BeginMute(d, ms);
        } else {
          EndMute(d, ms);
        }
      case Clear(ms) => MutedClear(d, ms);
      case FadeTime(ms) => d.SetFadeTime(ms);
    }
  }

  // What leaves a mute and the fade table alone.
  predicate LeavesMute(e: Event) {
    e.Write? || e.Flush? || e.Resume? || e.Flushed? || e.Clear?
  }

  // Every sample is silent that was stored from this position of the history on, or still will be.
  ghost predicate Silencing(d: AudioDelayLine, from: nat)
    reads d, d.buf, d.sink
  {
    && d.Valid() && d.HeadingOut() && d.muteCnt == 0
    && SilentFrom(d.stored, from) && d.fadeLen - 1 - d.fadePos <= Max(0, from - |d.stored|)
  }

  method MutedStep(d: AudioDelayLine, e: Event, ghost from: nat)
    requires Silencing(d, from) && LeavesMute(e)
    modifies d, d.buf, d.sink
    ensures Silencing(d, from)
  {
    hide AudioDelayLine.Valid, AudioDelayLine.Ring, AudioDelayLine.Shape, Fir.Silence;
    match e {
      case Write(samples) =>
        if samples != [] {
          var n := MutedWrite(d, samples);
        }
      case Flush => d.FlushSamples();
      case Resume => d.ResumeOutput();
      case Flushed => d.AllSamplesFlushed();
      case Clear(ms) => MutedClear(d, ms);
      case _ =>
    }
  }

  /** From a mute with fading on, and until it is ended or the fade time is changed: whatever is
      written, flushed or cleared, no more than one fade of samples is heard, and all others are
      stored as silence. */
  method MutedRun(d: AudioDelayLine, timeMs: int, events: seq<Event>)
    requires d.Valid() && d.fadeLen > 0 && forall e :: e in events ==> LeavesMute(e)
    modifies d, d.buf, d.sink
    ensures d.Valid() && d.isMuted && d.HeadingOut()
    ensures SilentFrom(d.stored, |old(d.stored)| + old(d.fadeLen) - 1)
  {
    hide AudioDelayLine.Valid, SilentFrom;
    BeginMute(d, timeMs);
    ghost var from := |d.stored| + d.fadeLen - 1;
    SilentPastTheEnd(d.stored, from);
    for k := 0 to |events|
      invariant Silencing(d, from)
    {
      MutedStep(d, events[k], from);
    }
  }

  // An index that has stopped before the end of the table stays there.
  ghost predicate Stuck(m: Muting) {
    m.muted && m.left == 0 && m.fader.len > 0 && m.fader.dir == 0 && m.fader.pos < m.fader.len - 1
  }

  lemma StuckGain(samples: seq<Sample>, table: seq<real>, m: Muting)
    requires InTable(m.fader) && |table| == m.fader.len && Stuck(m)
    ensures After(m, |samples|) == m
    ensures forall i :: 0 <= i < |samples| ==> Faded(samples, table, m)[i] == Scale(samples[i], table[m.fader.pos])
  {
    hide Scale, After, Steps;
    OpenMuteFades(m, |samples|);
    StandsStill(m.fader, |samples|);
    forall i | 0 <= i < |samples| ensures Faded(samples, table, m)[i] == Scale(samples[i], table[m.fader.pos]) {
      OpenMuteFades(m, i);
      StandsStill(m.fader, i);
    }
  }

  /** Setting the fade time to 0 and back undoes a mute: although fading is on again, every input is
      stored as it is. */
  method FadeTimeUndoesMute(d: AudioDelayLine, timeMs: nat)
    requires d.Valid() && d.isMuted && d.muteCnt == 0 && 0 < timeMs
    modifies d
    ensures d.Valid() && d.isMuted && d.muteCnt == 0 && d.fadeLen == SamplesIn(timeMs) > 0
    ensures forall samples :: Faded(samples, d.fadeGain, d.Mute()) == samples
  {
    hide AudioDelayLine.Valid, AudioDelayLine.Ring, AudioDelayLine.HeadingOut, Faded, Scale;
    ValidFade(d);
    d.SetFadeTime(0);
    d.SetFadeTime(timeMs);
    InItsTable(d);
    forall samples ensures Faded(samples, d.fadeGain, d.Mute()) == samples {
      StuckGain(samples, d.fadeGain, d.Mute());
      forall i | 0 <= i < |samples| ensures Faded(samples, d.fadeGain, d.Mute())[i] == samples[i] {
        ScaleUnits(samples[i]);
      }
    }
  }

  /** A longer fade time weakens a mute that has faded out: every input is stored with one and the same
      gain from inside the new table. */
  method LongerFadeWeakensMute(d: AudioDelayLine, timeMs: nat)
    requires d.Valid() && d.HeadingOut() && d.muteCnt == 0 && d.fadeDir == 0 && d.fadeLen < SamplesIn(timeMs)
    modifies d
    ensures d.Valid() && d.isMuted && d.muteCnt == 0 && d.fadeLen == SamplesIn(timeMs)
    ensures forall samples, i :: 0 <= i < |samples| ==>
              Faded(samples, d.fadeGain, d.Mute())[i] == Scale(samples[i], d.curve(old(d.fadeLen) - 1, d.fadeLen))
  {
    hide AudioDelayLine.Valid, AudioDelayLine.Ring, Faded, Scale;
    ValidFade(d);
    d.SetFadeTime(timeMs);
    InItsTable(d);
    forall samples: seq<Sample>, i | 0 <= i < |samples|
      ensures Faded(samples, d.fadeGain, d.Mute())[i] == Scale(samples[i], d.curve(old(d.fadeLen) - 1, d.fadeLen))
    {
      StuckGain(samples, d.fadeGain, d.Mute());
    }
  }

  // A muted line that goes silent, and has done so for as much as is muted back.
  method MutedLine(curve: Curve, timeMs: nat) returns (d: AudioDelayLine)
    requires StartsFull(curve)
    ensures fresh(d) && d.Valid() && d.HeadingOut() && d.muteCnt == 0 && d.fadeLen == SamplesIn(DEFAULT_FADE_TIME)
    ensures timeMs >= DEFAULT_FADE_TIME ==> d.fadeDir == 0
    ensures d.curve == curve
  {
    hide AudioDelayLine.Valid, AudioDelayLine.Ring, Rescaled, Steps;
    var sink := new Sink(false);
    d := new AudioDelayLine(20, curve, sink);
    BeginMute(d, timeMs);
  }

  /** Both are within reach: a line that is muted, has its fade time set to 0 and back, and lets
      everything through. */
  method MuteUndone(curve: Curve) returns (d: AudioDelayLine)
    requires StartsFull(curve)
    ensures d.Valid() && d.isMuted && d.muteCnt == 0 && d.fadeLen > 0
    ensures forall samples :: Faded(samples, d.fadeGain, d.Mute()) == samples
  {
    hide AudioDelayLine.Valid, Faded;
    d := MutedLine(curve, 0);
    FadeTimeUndoesMute(d, DEFAULT_FADE_TIME);
  }

  /** And a line that is muted 10 ms back, and has its fade time set from 10 to 100 ms. */
  method MuteWeakened(curve: Curve) returns (d: AudioDelayLine)
    requires StartsFull(curve)
    ensures d.Valid() && d.isMuted && d.muteCnt == 0 && d.fadeLen == 1600
    ensures forall samples, i :: 0 <= i < |samples| ==>
              Faded(samples, d.fadeGain, d.Mute())[i] == Scale(samples[i], curve(159, 1600))
  {
    hide AudioDelayLine.Valid, AudioDelayLine.HeadingOut, Faded;
    d := MutedLine(curve, DEFAULT_FADE_TIME);
    LongerFadeWeakensMute(d, 100);
  }

  lemma SilentPastTheEnd(s: seq<Sample>, from: nat)
    requires |s| <= from
    ensures SilentFrom(s, from)
  {
  }

  lemma Delays(d: AudioDelayLine)
    requires d.Valid()
    ensures d.fadeLen > 0 ==> 0 <= d.fadePos < d.fadeLen == |d.fadeGain|
    ensures |d.fed| == |d.sink.received|
    ensures d.pristine ==> d.sink.received + d.Ring() == Fir.Silence(d.size) + d.fed
  {
  }

  lemma MovedOn(received: seq<Sample>, r: seq<Sample>, fed: seq<Sample>, a: nat, b: nat)
    requires a + b <= |r|
    ensures var now := r[a..] + Fir.Silence(a);
            && (received + r[..a]) + now[..b] == received + r[..a + b]
            && now[b..] + Fir.Silence(b) == r[a + b..] + Fir.Silence(a + b)
    ensures (fed + Fir.Silence(a)) + Fir.Silence(b) == fed + Fir.Silence(a + b)
  {
  }

  lemma SilenceJoins(s: seq<Sample>, a: nat, b: nat)
    ensures (s + Fir.Silence(a)) + Fir.Silence(b) == s + Fir.Silence(a + b)
  {
  }

  // What leaves the line goes to the sink, what comes in goes behind.
  lemma ShiftLine(received: seq<Sample>, r: seq<Sample>, fed: seq<Sample>, more: seq<Sample>, start: seq<Sample>)
    requires |more| <= |r|
    ensures received + r == start + fed ==>
              (received + r[..|more|]) + (r[|more|..] + more) == start + (fed + more)
  {
    if received + r == start + fed {
      var a, b := r[..|more|], r[|more|..];
      assert r == a + b;
      assert (received + a) + (b + more) == (received + (a + b)) + more;
      assert start + (fed + more) == (start + fed) + more;
    }
  }

  lemma LineStep(r: seq<Sample>, stored: seq<Sample>, i: nat)
    requires i < |stored| <= |r|
    ensures (r[i..] + stored[..i])[1..] + [stored[i]] == r[i + 1..] + stored[..i + 1]
  {
  }

  lemma StartsSilent(s: seq<Sample>)
    requires 0 < |s| && forall i :: 0 <= i < |s| ==> s[i] == 0.0
    ensures Line(s, 0) == Fir.Silence(|s|)
  {
  }

  lemma RescaleNone(r: seq<Sample>, count: nat, table: seq<real>, f: Fader)
    requires InTable(f) && |table| == f.len
    ensures Rescaled(r, count, 0, table, f) == r
  {
  }
}
