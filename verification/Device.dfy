/** AudioDevice::getBlocks: how much to play, from which of the AudioIO objects that share a device,
    and how their samples are mixed (src/async/audio/AsyncAudioDevice.cpp:292-391). */
module Device {
  import opened AudioPipe
  import opened Ring
  import opened Fir
  import opened Numbers

  const FULL_SCALE: int := 32767

  class AudioIO {
    const channel: nat
    var isIdle: bool
    var doFlush: bool
    // What it has ready to play.
    var fifo: seq<Sample>

    constructor (channel: nat, isIdle: bool, doFlush: bool, fifo: seq<Sample>)
      ensures this.channel == channel && this.isIdle == isIdle && this.doFlush == doFlush && this.fifo == fifo
    {
      this.channel, this.isIdle, this.doFlush, this.fifo := channel, isIdle, doFlush, fifo;
    }

    method ReadSamples(count: nat) returns (samples: seq<Sample>)
      modifies this`fifo
      ensures samples == old(Share(count)) && (!isIdle ==> fifo == old(Left(count)))
    {
      samples := fifo[..Min(count, |fifo|)];
      fifo := fifo[Min(count, |fifo|)..];
    }

    // The samples that reading so many gives.
    ghost function Share(count: nat): (s: seq<Sample>)
      reads `fifo
    {
      fifo[..Min(count, |fifo|)]
    }

    // What is left when so many frames have been played.
    ghost function Left(frames: nat): (s: seq<Sample>)
      reads `fifo, `isIdle
    {
      if isIdle then fifo else fifo[Min(frames, |fifo|)..]
    }
  }

  // --- The mix ---

  // One more sample on top of what is in the buffer, clipped at full scale.
  function MixSample(x: Sample, there: int): (r: int)
    ensures -FULL_SCALE <= r <= FULL_SCALE
  {
    var sample := FULL_SCALE as real * x + there as real;
    if sample > FULL_SCALE as real then FULL_SCALE
    else if sample < -FULL_SCALE as real then -FULL_SCALE
    else Truncated(sample)
  }

  /** The sample is added to what is there, in units of full scale, and rounded towards zero by less
      than one; a sum beyond full scale becomes the bound on its side. */
  lemma MixSampleAdds(x: Sample, there: int)
    ensures var sum, r := 32767.0 * x + there as real, MixSample(x, there);
            && (0.0 <= sum <= 32767.0 ==> r as real <= sum < r as real + 1.0)
            && (-32767.0 <= sum <= 0.0 ==> r as real - 1.0 < sum <= r as real)
            && (sum > 32767.0 ==> r == 32767) && (sum < -32767.0 ==> r == -32767)
    ensures x == 0.0 && -32767 <= there <= 32767 ==> MixSample(x, there) == there
  {
  }

  // What one object played, and on which channel.
  datatype Part = Part(channel: nat, samples: seq<Sample>)

  // The parts mixed, one after another, into frame i of a channel.
  function MixedAt(parts: seq<Part>, ch: nat, i: nat): (r: int)
    ensures -FULL_SCALE <= r <= FULL_SCALE
  {
    if parts == [] then 0
    else
      var last, rest := parts[|parts| - 1], MixedAt(parts[..|parts| - 1], ch, i);
      if last.channel == ch && i < |last.samples| then MixSample(last.samples[i], rest) else rest
  }

  // The samples that the parts have for frame i of a channel, added up, and their magnitudes.
  ghost function SumAt(parts: seq<Part>, ch: nat, i: nat): real {
    if parts == [] then 0.0
    else
      var last, rest := parts[|parts| - 1], SumAt(parts[..|parts| - 1], ch, i);
      if last.channel == ch && i < |last.samples| then rest + last.samples[i] else rest
  }

  ghost function LoudnessAt(parts: seq<Part>, ch: nat, i: nat): (r: real)
    ensures r >= 0.0
  {
    if parts == [] then 0.0
    else
      var last, rest := parts[|parts| - 1], LoudnessAt(parts[..|parts| - 1], ch, i);
      if last.channel == ch && i < |last.samples|
      then rest + (if last.samples[i] >= 0.0 then last.samples[i] else -last.samples[i])
      else rest
  }

  /** One more part is heard on its own channel, for as long as it has samples, and nowhere else. */
  lemma OneMorePart(parts: seq<Part>, p: Part, ch: nat, i: nat)
    ensures MixedAt([], ch, i) == 0 && SumAt([], ch, i) == LoudnessAt([], ch, i) == 0.0
    ensures var longer := parts + [p];
            if p.channel == ch && i < |p.samples| then
              && MixedAt(longer, ch, i) == MixSample(p.samples[i], MixedAt(parts, ch, i))
              && SumAt(longer, ch, i) == SumAt(parts, ch, i) + p.samples[i]
              && LoudnessAt(longer, ch, i) ==
                 LoudnessAt(parts, ch, i) + if p.samples[i] < 0.0 then -p.samples[i] else p.samples[i]
            else
              && MixedAt(longer, ch, i) == MixedAt(parts, ch, i)
              && SumAt(longer, ch, i) == SumAt(parts, ch, i)
              && LoudnessAt(longer, ch, i) == LoudnessAt(parts, ch, i)
  {
    hide MixSample;
    assert (parts + [p])[..|parts|] == parts;
  }

  /** Where the parts together cannot reach full scale, the mix is their sum in units of full scale, off
      by less than one for each of them. */
  lemma {:induction false} MixIsSum(parts: seq<Part>, ch: nat, i: nat)
    requires 32767.0 * LoudnessAt(parts, ch, i) + |parts| as real <= 32767.0
    ensures var sum, n := 32767.0 * SumAt(parts, ch, i), |parts| as real;
            sum - n <= MixedAt(parts, ch, i) as real <= sum + n
    ensures var loud := 32767.0 * LoudnessAt(parts, ch, i);
            -loud <= 32767.0 * SumAt(parts, ch, i) <= loud
  {
    hide MixSample;
    if parts != [] {
      var last, before := parts[|parts| - 1], parts[..|parts| - 1];
      MixIsSum(before, ch, i);
      if last.channel == ch && i < |last.samples| {
        MixSampleAdds(last.samples[i], MixedAt(before, ch, i));
      }
    }
  }

  // Every position of an interleaved buffer holds the mix for its frame and channel.
  ghost predicate IsMix(buf: seq<int>, channels: nat, parts: seq<Part>)
    requires 0 < channels
  {
    forall p :: 0 <= p < |buf| ==> buf[p] == MixedAt(parts, p % channels, p / channels)
  }

  // The same while the first n samples of the last part have been mixed in.
  ghost predicate IsMixUpTo(buf: seq<int>, channels: nat, parts: seq<Part>, part: Part, n: nat)
    requires 0 < channels && n <= |part.samples|
  {
    IsMix(buf, channels, parts + [part.(samples := part.samples[..n])])
  }

  lemma Position(i: nat, ch: nat, channels: nat)
    requires ch < channels
    ensures (i * channels + ch) % channels == ch && (i * channels + ch) / channels == i
  {
    DivModUnique(i * channels + ch, channels, i, ch);
  }

  lemma PositionBelow(i: nat, n: nat, ch: nat, channels: nat)
    requires ch < channels && i < n
    ensures i * channels + ch < n * channels
  {
    MulMonotone(channels, i + 1, n);
    assert channels * (i + 1) == i * channels + channels;
  }

  // A position determines its frame and channel.
  lemma PositionOf(p: nat, i: nat, ch: nat, channels: nat)
    requires ch < channels && p % channels == ch && p / channels == i
    ensures p == i * channels + ch
  {
    assert p == channels * (p / channels) + p % channels;
  }

  // Mixing in one more sample of a part.
  lemma MixOneSample(was: seq<int>, now: seq<int>, channels: nat, parts: seq<Part>, part: Part, n: nat, at: nat)
    requires 0 < channels && n < |part.samples| && part.channel < channels
    requires IsMixUpTo(was, channels, parts, part, n)
    requires at == n * channels + part.channel < |was|
    requires now == was[at := MixSample(part.samples[n], was[at])]
    ensures IsMixUpTo(now, channels, parts, part, n + 1)
  {
    hide MixSample;
    var before, after := part.(samples := part.samples[..n]), part.(samples := part.samples[..n + 1]);
    assert (parts + [before])[..|parts|] == parts == (parts + [after])[..|parts|];
    Position(n, part.channel, channels);
    forall p | 0 <= p < |now| ensures now[p] == MixedAt(parts + [after], p % channels, p / channels) {
      assert was[p] == MixedAt(parts + [before], p % channels, p / channels);
      if p != at && p % channels == part.channel && p / channels == n {
        PositionOf(p, n, part.channel, channels);
      }
    }
  }

  /** So is every position of the buffer, wherever nothing can be clipped. */
  lemma BufferIsSum(buf: seq<int>, channels: nat, parts: seq<Part>, ch: nat, i: nat)
    requires ch < channels && IsMix(buf, channels, parts) && i * channels + ch < |buf|
    requires 32767.0 * LoudnessAt(parts, ch, i) + |parts| as real <= 32767.0
    ensures var sum, n := 32767.0 * SumAt(parts, ch, i), |parts| as real;
            sum - n <= buf[i * channels + ch] as real <= sum + n
  {
    hide MixedAt, SumAt, LoudnessAt;
    Position(i, ch, channels);
    MixIsSum(parts, ch, i);
  }

  lemma NoSamplesYet(buf: seq<int>, channels: nat, parts: seq<Part>, part: Part)
    requires 0 < channels && IsMix(buf, channels, parts)
    ensures IsMixUpTo(buf, channels, parts, part, 0)
  {
    var empty := part.(samples := part.samples[..0]);
    assert (parts + [empty])[..|parts|] == parts;
  }

  method MixIn(buf: array<int>, channels: nat, part: Part, ghost parts: seq<Part>)
    requires 0 < channels && part.channel < channels && |part.samples| * channels <= buf.Length
    requires IsMix(buf[..], channels, parts)
    modifies buf
    ensures IsMix(buf[..], channels, parts + [part])
  {
    hide IsMix;
    NoSamplesYet(buf[..], channels, parts, part);
    for i := 0 to |part.samples|
      invariant IsMixUpTo(buf[..], channels, parts, part, i)
    {
      PositionBelow(i, |part.samples|, part.channel, channels);
      ghost var was := buf[..];
      var bufPos := i * channels + part.channel;
      buf[bufPos] := MixSample(part.samples[i], buf[bufPos]);
      assert buf[..] == was[bufPos := MixSample(part.samples[i], was[bufPos])];
      MixOneSample(was, buf[..], channels, parts, part, i, bufPos);
    }
    assert part.samples[..|part.samples|] == part.samples;
  }

  // --- How much to play ---

  ghost predicate Waiting(a: AudioIO)
    reads a
  {
    !a.isIdle && !a.doFlush
  }

  // No object that wants to go on playing is asked for more than it has.
  ghost predicate Covered(aios: seq<AudioIO>, frames: nat)
    reads aios
  {
    forall a :: a in aios && Waiting(a) ==> frames <= |a.fifo|
  }

  // Everything there is fits, and nobody wants to go on.
  ghost predicate Last(aios: seq<AudioIO>, frames: nat)
    reads aios
  {
    forall a :: a in aios && !a.isIdle ==> a.doFlush && |a.fifo| <= frames
  }

  // So many frames cannot be had: some object that wants to go on has fewer, or all have.
  ghost predicate Beyond(aios: seq<AudioIO>, frames: nat)
    reads aios
  {
    || (exists a :: a in aios && !a.isIdle && !a.doFlush && |a.fifo| < frames)
    || (forall a :: a in aios && !a.isIdle ==> |a.fifo| < frames)
  }

  lemma StaysBeyond(aios: seq<AudioIO>, m: nat, n: nat)
    requires m <= n && Beyond(aios, m)
    ensures Beyond(aios, n)
  {
  }

  /** The plan: how many frames, and whether this is the end of everything that is being played. */
  method Plan(aios: seq<AudioIO>, room: nat) returns (frames: nat, doFlush: bool)
    ensures frames <= room && Covered(aios, frames)
    ensures forall a :: a in aios && !a.isIdle && !a.doFlush ==> frames <= |a.fifo|
    ensures doFlush <==> Last(aios, frames)
    ensures doFlush <==> Last(aios, room)
    ensures doFlush <==> forall a :: a in aios && !a.isIdle ==> a.doFlush && |a.fifo| <= room
    // As much as can be played is played.
    ensures frames == room || (exists a :: a in aios && !a.isIdle && !a.doFlush && |a.fifo| == frames)
            || (forall a :: a in aios && !a.isIdle ==> |a.fifo| <= frames)
    ensures frames == room || Beyond(aios, frames + 1)
    ensures frames > 0 ==> exists a :: a in aios && !a.isIdle && frames <= |a.fifo|
  {
    frames := room;
    doFlush := true;
    var most := 0;
    for i := 0 to |aios|
      invariant frames <= room && forall j :: 0 <= j < i && Waiting(aios[j]) ==> frames <= |aios[j].fifo|
      invariant doFlush <==> forall j :: 0 <= j < i && !aios[j].isIdle ==> aios[j].doFlush
      invariant frames == room || exists j :: 0 <= j < i && Waiting(aios[j]) && |aios[j].fifo| == frames
      invariant forall j :: 0 <= j < i && !aios[j].isIdle ==> |aios[j].fifo| <= most
      invariant most == 0 || exists j :: 0 <= j < i && !aios[j].isIdle && |aios[j].fifo| == most
    {
      var a := aios[i];
      if !a.isIdle {
        var available := |a.fifo|;
        if !a.doFlush {
          doFlush := false;
          frames := Min(available, frames);
        }
        most := Max(available, most);
      }
    }
    doFlush := doFlush && most <= frames;
    frames := Min(most, frames);
  }

  // The parts that a number of frames takes from the objects, in order.
  ghost function PartsOf(aios: seq<AudioIO>, frames: nat): seq<Part>
    reads aios
  {
    if aios == [] then []
    else
      var last := aios[|aios| - 1];
      PartsOf(aios[..|aios| - 1], frames) + if last.isIdle then [] else [Part(last.channel, last.Share(frames))]
  }

  /** Every object that is playing takes part, once and in order, with the front of what it has. */
  lemma {:induction false} EveryObjectTakesPart(aios: seq<AudioIO>, a: AudioIO, more: seq<AudioIO>, frames: nat)
    ensures PartsOf(aios + [a] + more, frames) ==
            PartsOf(aios, frames)
            + (if a.isIdle then [] else [Part(a.channel, a.fifo[..Min(frames, |a.fifo|)])])
            + PartsOf(more, frames)
    decreases |more|
  {
    if more == [] {
      assert (aios + [a] + more)[..|aios|] == aios && aios + [a] + more == aios + [a];
    } else {
      var init := more[..|more| - 1];
      assert (aios + [a] + more)[..|aios| + |more|] == aios + [a] + init;
      EveryObjectTakesPart(aios, a, init, frames);
    }
  }

  /** What is read from an object, followed by what is left, is what it had. */
  lemma NothingIsSkipped(a: AudioIO, frames: nat)
    requires !a.isIdle
    ensures a.Share(frames) + a.Left(frames) == a.fifo
    ensures |a.Share(frames)| == if frames <= |a.fifo| then frames else |a.fifo|
  {
    assert a.fifo[..Min(frames, |a.fifo|)] + a.fifo[Min(frames, |a.fifo|)..] == a.fifo;
  }

  ghost predicate Distinct(aios: seq<AudioIO>) {
    forall i, j :: 0 <= i < j < |aios| ==> aios[i] != aios[j]
  }

  // Reads from one object and mixes what it gave.
  method MixOne(buf: array<int>, channels: nat, a: AudioIO, frames: nat, ghost parts: seq<Part>)
    requires 0 < channels && Times(frames, channels) <= buf.Length && a.channel < channels && !a.isIdle
    requires IsMix(buf[..], channels, parts)
    modifies buf, a`fifo
    ensures IsMix(buf[..], channels, parts + [Part(a.channel, old(a.Share(frames)))])
    ensures a.fifo == old(a.Left(frames))
  {
    hide IsMix;
    var samples := a.ReadSamples(frames);
    MulMonotone(channels, |samples|, frames);
    MixIn(buf, channels, Part(a.channel, samples), parts);
  }

  lemma IdleKeepsAll(a: AudioIO, frames: nat)
    ensures a.isIdle ==> a.Left(frames) == a.fifo
    ensures a.Left(0) == a.fifo
    ensures |a.fifo| <= frames && !a.isIdle ==> a.Left(frames) == []
  {
  }

  // Reads from every object that plays.
  method MixAll(buf: array<int>, channels: nat, aios: seq<AudioIO>, frames: nat)
    requires 0 < channels && Times(frames, channels) <= buf.Length && Distinct(aios)
    requires forall a :: a in aios ==> a.channel < channels
    requires forall p :: 0 <= p < buf.Length ==> buf[p] == 0
    modifies buf, aios`fifo
    ensures IsMix(buf[..], channels, old(PartsOf(aios, frames)))
    ensures forall i :: 0 <= i < |aios| ==> aios[i].fifo == old(aios[i].Left(frames))
  {
    hide IsMix, Times, AudioIO.Share, AudioIO.Left;
    ghost var parts := [];
    assert aios[..0] == [];
    NothingMixed(buf[..], channels);
    for i := 0 to |aios|
      invariant IsMix(buf[..], channels, parts) && parts == old(PartsOf(aios[..i], frames))
      invariant forall j :: i <= j < |aios| ==> aios[j].fifo == old(aios[j].fifo)
      invariant forall j :: 0 <= j < i ==> aios[j].fifo == old(aios[j].Left(frames))
    {
      var a := aios[i];
      assert aios[..i + 1][..i] == aios[..i];
      IdleKeepsAll(a, frames);
      if !a.isIdle {
        ghost var had := parts;
        parts := parts + [Part(a.channel, a.Share(frames))];
        MixOne(buf, channels, a, frames, had);
      }
    }
    assert aios[..|aios|] == aios;
  }

  lemma NothingMixed(buf: seq<int>, channels: nat)
    requires 0 < channels && forall p :: 0 <= p < |buf| ==> buf[p] == 0
    ensures IsMix(buf, channels, [])
  {
  }

  // Some object cannot fill a single block and is still waiting for more.
  ghost predicate Starving(aios: seq<AudioIO>, blockSize: nat)
    reads aios
  {
    exists a :: a in aios && Waiting(a) && |a.fifo| < blockSize
  }

  ghost predicate AllEmpty(aios: seq<AudioIO>)
    reads aios
  {
    forall a :: a in aios && !a.isIdle ==> a.fifo == []
  }

  lemma {:induction false} EmptyPartsAreSilent(parts: seq<Part>, ch: nat, i: nat)
    requires forall k :: 0 <= k < |parts| ==> parts[k].samples == []
    ensures MixedAt(parts, ch, i) == 0
  {
    if parts != [] {
      EmptyPartsAreSilent(parts[..|parts| - 1], ch, i);
    }
  }

  lemma {:induction false} NoFramesNoSamples(aios: seq<AudioIO>)
    ensures forall k :: 0 <= k < |PartsOf(aios, 0)| ==> PartsOf(aios, 0)[k].samples == []
  {
    if aios != [] {
      NoFramesNoSamples(aios[..|aios| - 1]);
    }
  }

  lemma BlockArithmetic(n: nat, size: nat, count: nat)
    requires 0 < size && n <= Times(count, size)
    ensures n / size <= count && 0 <= Times(n / size, size) <= n < Times(n / size, size) + size
    ensures Times(n / size, size) % size == 0 && Times(n / size, size) / size == n / size
    ensures Times(n / size, size) == 0 <==> n < size
    ensures n % size > 0 ==>
              && 0 <= Times(n / size + 1, size) / size == n / size + 1 <= count
              && Times(n / size + 1, size) == Times(n / size, size) + size
    ensures n % size == 0 ==> Times(n / size, size) == n
    ensures Times(count, size) == 0 <==> count == 0
    ensures count > 0 ==> Times(count, size) >= size
  {
    hide Times;
    var q := n / size;
    WholeBlocks(n, size);
    AtLeastOneBlock(count, size);
    AtLeastOneBlock(q, size);
    TimesSteps(q, size);
    TimesSteps(count, size);
    ExactBlocks(q, size);
    ExactBlocks(q + 1, size);
    if q > count {
      TimesMonotone(count + 1, q, size);
    }
    if n % size > 0 && q + 1 > count {
      TimesMonotone(count, q, size);
    }
  }

  lemma WholeBlocks(n: nat, size: nat)
    requires 0 < size
    ensures n == Times(n / size, size) + n % size
  {
  }

  lemma ExactBlocks(q: nat, size: nat)
    requires 0 < size
    ensures Times(q, size) % size == 0 && Times(q, size) / size == q
  {
    DivModUnique(q * size, size, q, 0);
  }

  lemma AtLeastOneBlock(count: nat, size: nat)
    requires 0 < size
    ensures Times(count, size) == 0 <==> count == 0
    ensures 0 <= Times(count, size) && (count > 0 ==> Times(count, size) >= size)
  {
    hide Times;
    TimesSteps(0, size);
    if count > 0 {
      TimesMonotone(1, count, size);
    }
  }

  // No more whole blocks can be had than the plan has.
  lemma MostBlocks(aios: seq<AudioIO>, n: nat, size: nat, count: nat)
    requires 0 < size && n <= Times(count, size) && (n == Times(count, size) || Beyond(aios, n + 1))
    ensures 0 <= Times(n / size, size)
    ensures Times(n / size, size) == Times(count, size) || Beyond(aios, Times(n / size, size) + size)
  {
    hide Times, Beyond;
    BlockArithmetic(n, size, count);
    if n == Times(count, size) {
      ExactBlocks(count, size);
    } else {
      StaysBeyond(aios, n + 1, Times(n / size, size) + size);
    }
  }

  // The frames to take: all of the plan at the very end, otherwise its whole blocks.
  method Choose(aios: seq<AudioIO>, blockSize: nat, blockCnt: nat) returns (frames: nat, doFlush: bool)
    requires 0 < blockSize && 0 <= Times(blockCnt, blockSize)
    ensures frames <= Times(blockCnt, blockSize) && Covered(aios, frames)
    ensures doFlush <==> Last(aios, Times(blockCnt, blockSize))
    ensures doFlush ==> Last(aios, frames)
    ensures !doFlush ==> frames % blockSize == 0
    ensures frames == 0 <==> blockCnt == 0 || Starving(aios, blockSize) || AllEmpty(aios)
    ensures !doFlush ==> frames == Times(blockCnt, blockSize) || Beyond(aios, frames + blockSize)
  {
    hide Beyond;
    frames, doFlush := Plan(aios, Times(blockCnt, blockSize));
    BlockArithmetic(frames, blockSize, blockCnt);
    if !doFlush {
      var a :| a in aios && !a.isIdle && !(a.doFlush && |a.fifo| <= frames);
      assert |a.fifo| <= frames ==> Waiting(a);
      MostBlocks(aios, frames, blockSize, blockCnt);
      frames := Times(frames / blockSize, blockSize);
    }
  }

  // The end of the audio leaves nothing behind.
  method PlayAll(buf: array<int>, channels: nat, aios: seq<AudioIO>, frames: nat)
    requires 0 < channels && Times(frames, channels) <= buf.Length && Distinct(aios)
    requires forall a :: a in aios ==> a.channel < channels
    requires forall p :: 0 <= p < buf.Length ==> buf[p] == 0
    modifies buf, aios`fifo
    ensures IsMix(buf[..], channels, old(PartsOf(aios, frames)))
    ensures forall i :: 0 <= i < |aios| ==> aios[i].fifo == old(aios[i].Left(frames))
    ensures old(Last(aios, frames)) ==> AllEmpty(aios)
  {
    hide IsMix, PartsOf, Times, AudioIO.Left, Last;
    LastLeavesNothing(aios, frames);
    MixAll(buf, channels, aios, frames);
  }

  /** Fills the buffer with the mix of as many frames as every object can keep up with, in whole
      blocks. Only the very end of the audio may leave a block incomplete, and it takes everything
      that is left. */
  method GetBlocks(buf: array<int>, channels: nat, aios: seq<AudioIO>, blockSize: nat, blockCnt: nat)
    returns (blocks: nat, ghost frames: nat)
    requires 0 < channels && 0 < blockSize && 0 <= Times(blockCnt, blockSize)
    requires buf.Length == Times(Times(blockCnt, blockSize), channels)
    requires Distinct(aios) && forall a :: a in aios ==> a.channel < channels
    modifies buf, aios`fifo
    ensures blocks <= blockCnt && old(Covered(aios, frames))
    ensures blocks == 0 <==> blockCnt == 0 || old(Starving(aios, blockSize)) || old(AllEmpty(aios))
    ensures blocks == 0 ==> frames == 0
    // Unless this is the very end, as many blocks are played as can be.
    ensures blocks < blockCnt && !old(Last(aios, Times(blockCnt, blockSize))) ==>
              || old(exists a :: a in aios && !a.isIdle && !a.doFlush && |a.fifo| < frames + blockSize)
              || old(forall a :: a in aios && !a.isIdle ==> |a.fifo| < frames + blockSize)
    ensures IsMix(buf[..], channels, old(PartsOf(aios, frames)))
    ensures forall i :: 0 <= i < |aios| ==> aios[i].fifo == old(aios[i].Left(frames))
    ensures !old(Last(aios, Times(blockCnt, blockSize))) ==> frames == Times(blocks, blockSize)
    ensures old(Last(aios, Times(blockCnt, blockSize))) ==>
              AllEmpty(aios) && frames <= Times(blocks, blockSize) < frames + blockSize
  {
    hide PartsOf, IsMix, Times, AudioIO.Share, AudioIO.Left, Starving, Covered, Last, AllEmpty;
    Clear(buf);
    var framesToWrite, doFlush := Choose(aios, blockSize, blockCnt);
    frames := framesToWrite;
    BlockArithmetic(framesToWrite, blockSize, blockCnt);
    ExactBlocks(blockCnt, blockSize);
    if framesToWrite == 0 {
      SilentMix(buf[..], channels, aios);
      NothingRead(aios);
      return 0, 0;
    }
    TimesMonotone(framesToWrite, Times(blockCnt, blockSize), channels);
    PlayAll(buf, channels, aios, framesToWrite);
    if doFlush && framesToWrite % blockSize > 0 {
      framesToWrite := framesToWrite / blockSize;
      framesToWrite := Times(framesToWrite + 1, blockSize);
    }
    blocks := framesToWrite / blockSize;
  }

  method Clear(buf: array<int>)
    modifies buf
    ensures forall p :: 0 <= p < buf.Length ==> buf[p] == 0
  {
    for p := 0 to buf.Length
      invariant forall q :: 0 <= q < p ==> buf[q] == 0
    {
      buf[p] := 0;
    }
  }

  lemma NothingRead(aios: seq<AudioIO>)
    ensures forall i :: 0 <= i < |aios| ==> aios[i].Left(0) == aios[i].fifo
    ensures Last(aios, 0) ==> AllEmpty(aios)
  {
  }

  lemma LastLeavesNothing(aios: seq<AudioIO>, frames: nat)
    ensures Last(aios, frames) ==> forall i :: 0 <= i < |aios| && !aios[i].isIdle ==> aios[i].Left(frames) == []
  {
  }

  lemma SilentMix(buf: seq<int>, channels: nat, aios: seq<AudioIO>)
    requires 0 < channels && forall p :: 0 <= p < |buf| ==> buf[p] == 0
    ensures IsMix(buf, channels, PartsOf(aios, 0))
  {
    hide PartsOf, MixedAt;
    NoFramesNoSamples(aios);
    var parts := PartsOf(aios, 0);
    forall ch, i ensures MixedAt(parts, ch, i) == 0 {
      EmptyPartsAreSilent(parts, ch, i);
    }
  }
}
