/** AudioDecimator and AudioInterpolator: FIR filters over a delay line that is shifted in place
    (src/async/audio/AsyncAudioDecimator.cpp, src/async/audio/AsyncAudioInterpolator.cpp). */
module Resamplers {
  import opened AudioPipe
  import opened Ring
  import opened Fir

  // The delay line holds the newest samples, the newest first.
  ghost predicate Holds(z: seq<Sample>, stream: seq<Sample>) {
    forall k :: 0 <= k < |z| ==> z[k] == Past(stream, |stream| - 1 - k)
  }

  // Shifting a delay line up by a block and putting the block, reversed, at its bottom.
  ghost predicate Shifted(z: seq<Sample>, was: seq<Sample>, block: seq<Sample>) {
    && |z| == |was| && |block| <= |z|
    && (forall k :: 0 <= k < |block| ==> z[k] == block[|block| - 1 - k])
    && (forall k :: |block| <= k < |z| ==> z[k] == was[k - |block|])
  }

  lemma ShiftedHolds(z: seq<Sample>, was: seq<Sample>, block: seq<Sample>, stream: seq<Sample>)
    requires Holds(was, stream) && Shifted(z, was, block)
    ensures Holds(z, stream + block)
  {
    forall k | 0 <= k < |z| ensures z[k] == Past(stream + block, |stream + block| - 1 - k) {
      if k >= |block| {
        assert z[k] == was[k - |block|];
      }
    }
  }

  method PushBlock(z: array<Sample>, block: seq<Sample>)
    requires 0 < |block| <= z.Length
    modifies z
    ensures Shifted(z[..], old(z[..]), block)
  {
    forall k | |block| <= k < z.Length {
      z[k] := z[k - |block|];
    }
    var tap := |block| - 1;
    while tap >= 0
      invariant -1 <= tap < |block|
      invariant forall k :: tap < k < |block| ==> z[k] == block[|block| - 1 - k]
      invariant forall k :: |block| <= k < z.Length ==> z[k] == old(z[k - |block|])
    {
      z[tap] := block[|block| - 1 - tap];
      tap := tap - 1;
    }
  }

  class AudioDecimator {
    const factorM: nat
    const coeff: seq<real>
    const delay: array<Sample>

    // The stream processed so far.
    ghost var history: seq<Sample>

    ghost predicate Valid()
      reads this, delay
    {
      && 0 < factorM <= |coeff| && delay.Length == |coeff|
      && |history| % factorM == 0
      && Holds(delay[..], history)
    }

    constructor (decimationFactor: nat, filterCoeff: seq<real>)
      requires 0 < decimationFactor <= |filterCoeff|
      ensures Valid() && history == [] && fresh(delay)
      ensures factorM == decimationFactor && coeff == filterCoeff
    {
      factorM := decimationFactor;
      coeff := filterCoeff;
      delay := new Sample[|filterCoeff|](_ => 0.0);
      history := [];
    }

    method FirSum() returns (sum: Sample)
      requires Valid()
      ensures sum == FirAt(coeff, history, |history| - 1, |coeff|)
    {
      sum := 0.0;
      for tap := 0 to |coeff|
        invariant sum == FirAt(coeff, history, |history| - 1, tap)
      {
        assert delay[tap] == delay[..][tap];
        sum := sum + coeff[tap] * delay[tap];
      }
    }

    method ProcessBlock(block: seq<Sample>) returns (sum: Sample)
      requires Valid() && |block| == factorM
      modifies this`history, delay
      ensures Valid() && history == old(history) + block
      ensures Decimated(coeff, factorM, history) == Decimated(coeff, factorM, old(history)) + [sum]
    {
      hide FirAt, Past;
      ghost var was := delay[..];
      PushBlock(delay, block);
      ShiftedHolds(delay[..], was, block, history);
      DecimateBlock(coeff, factorM, history, block);
      history := history + block;
      sum := FirSum();
    }

    /** Appends the decimated form of whole blocks to dest, from position at on. */
    method ProcessSamples(dest: array<Sample>, at: nat, src: seq<Sample>) returns (numOut: nat)
      requires Valid() && |src| % factorM == 0
      requires at + |src| / factorM <= dest.Length && dest != delay
      modifies this`history, delay, dest
      ensures Valid() && history == old(history) + src
      ensures numOut == |src| / factorM
      ensures dest[..at] == old(dest[..at])
      ensures Decimated(coeff, factorM, history) == Decimated(coeff, factorM, old(history)) + dest[at..at + numOut]
    {
      ghost var total := |src| / factorM;
      WholeBlocks(|src|, factorM);
      ProcessBlocks(dest, at, src, total);
      numOut := |src| / factorM;
    }

    // The loop of processSamples.
    method ProcessBlocks(dest: array<Sample>, at: nat, src: seq<Sample>, ghost total: nat)
      requires Valid() && |src| == Times(total, factorM)
      requires at + total <= dest.Length && dest != delay
      modifies this`history, delay, dest
      ensures Valid() && history == old(history) + src
      ensures dest[..at] == old(dest[..at])
      ensures Decimated(coeff, factorM, history) == Decimated(coeff, factorM, old(history)) + dest[at..at + total]
    {
      assert 0 < factorM;
      hide FirAt, Past, Decimated, Times, Valid;
      var numOut, done := 0, 0;
      ghost var y := Decimated(coeff, factorM, history);
      TimesSteps(0, factorM);
      assert old(history) + src[..0] == history;
      assert y + dest[at..at + 0] == y;
      while |src| - done >= factorM
        invariant Valid() && 0 <= done <= |src| && numOut <= total && done == Times(numOut, factorM)
        invariant history == old(history) + src[..done]
        invariant dest[..at] == old(dest[..at])
        invariant Decimated(coeff, factorM, history) == y + dest[at..at + numOut]
      {
        RoomForBlock(done, numOut, total, factorM);
        ghost var before := dest[at..at + numOut];
        var sum := ProcessBlock(src[done..done + factorM]);
        assert src[..done] + src[done..done + factorM] == src[..done + factorM];
        dest[at + numOut] := sum;
        assert dest[at..at + numOut + 1] == before + [sum];
        assert y + (before + [sum]) == (y + before) + [sum];
        done := done + factorM;
        numOut := numOut + 1;
      }
      RoomForBlock(done, numOut, total, factorM);
      assert src[..done] == src;
    }
  }

  lemma WholeBlocks(len: nat, m: nat)
    requires 0 < m && len % m == 0
    ensures Times(len / m, m) == len
  {
    assert len == m * (len / m);
  }

  // There is a whole block left exactly as long as not all blocks are done.
  lemma RoomForBlock(done: nat, n: nat, total: nat, m: nat)
    requires 0 < m && done == Times(n, m) && n <= total
    ensures Times(n + 1, m) == done + m
    ensures done + m <= Times(total, m) <==> n < total
    ensures done == Times(total, m) || n < total
  {
    hide Times;
    TimesSteps(n, m);
    if n < total {
      TimesMonotone(n + 1, total, m);
    }
  }

  class AudioInterpolator {
    const factorL: nat
    const coeff: seq<real>
    const taps: nat
    const delay: array<Sample>

    ghost var history: seq<Sample>

    // The taps in use: as many whole rounds of the phases as there are.
    ghost function Used(): seq<real>
      requires 0 <= Times(taps, factorL) <= |coeff|
    {
      coeff[..Times(taps, factorL)]
    }

    ghost predicate Valid()
      reads this, delay
    {
      && 0 < factorL && 0 < taps && taps == |coeff| / factorL
      && 0 <= Times(taps, factorL) <= |coeff|
      && delay.Length == taps
      && Holds(delay[..], history)
    }

    constructor (interpolationFactor: nat, filterCoeff: seq<real>)
      requires 0 < interpolationFactor <= |filterCoeff|
      ensures Valid() && history == [] && fresh(delay)
      ensures factorL == interpolationFactor && coeff == filterCoeff
    {
      factorL := interpolationFactor;
      coeff := filterCoeff;
      taps := |filterCoeff| / interpolationFactor;
      delay := new Sample[|filterCoeff| / interpolationFactor](_ => 0.0);
      history := [];
      TapsInUse(|filterCoeff|, interpolationFactor);
    }

    // The FIR sum of one phase, stepping through the coefficients by the factor.
    method PhaseOutput(phase: nat) returns (sum: Sample)
      requires Valid() && phase < factorL
      ensures sum == PhaseSum(Used(), history, factorL, phase, taps)
    {
      hide Times, Past;
      sum := 0.0;
      var pCoeff := phase;
      TimesSteps(0, factorL);
      for tap := 0 to taps
        invariant pCoeff == phase + Times(tap, factorL)
        invariant 0 <= Times(tap, factorL) <= |Used()|
        invariant sum == PhaseSum(Used(), history, factorL, phase, tap)
      {
        TimesSteps(tap, factorL);
        TimesMonotone(tap + 1, taps, factorL);
        assert delay[tap] == delay[..][tap];
        assert coeff[pCoeff] == Used()[pCoeff];
        sum := sum + coeff[pCoeff] * delay[tap];
        pCoeff := pCoeff + factorL;
      }
    }

    method ProcessSample(dest: array<Sample>, at: nat, s: Sample)
      requires Valid() && at + factorL <= dest.Length && dest != delay
      modifies this`history, delay, dest
      ensures Valid() && history == old(history) + [s]
      ensures dest[..at] == old(dest[..at])
      ensures Interpolated(Used(), factorL, history) ==
              Interpolated(Used(), factorL, old(history)) + dest[at..at + factorL]
    {
      hide Times, Past, FirAt, PhaseSum, ZeroStuffed, Interpolated;
      ghost var was := delay[..];
      PushBlock(delay, [s]);
      ShiftedHolds(delay[..], was, [s], history);
      history := history + [s];
      for phase := 0 to factorL
        invariant Valid() && history == old(history) + [s]
        invariant dest[..at] == old(dest[..at])
        invariant NewestOutputs(dest[at..at + phase], Used(), factorL, history)
      {
        ghost var block := dest[at..at + phase];
        var sum := PhaseOutput(phase);
        PolyphaseIsDirect(Used(), factorL, history, phase, taps);
        dest[at + phase] := sum * factorL as real;
        assert dest[at..at + phase + 1] == block + [sum * factorL as real];
      }
      InterpolateSample(Used(), factorL, old(history), s, dest[at..at + factorL]);
    }

    /** Appends the interpolated form of the samples to dest, from position at on. */
    method ProcessSamples(dest: array<Sample>, at: nat, src: seq<Sample>) returns (numOut: nat)
      requires Valid() && at + Times(|src|, factorL) <= dest.Length && dest != delay
      modifies this`history, delay, dest
      ensures Valid() && history == old(history) + src
      ensures numOut == Times(|src|, factorL)
      ensures dest[..at] == old(dest[..at])
      ensures Interpolated(Used(), factorL, history) ==
              Interpolated(Used(), factorL, old(history)) + dest[at..at + numOut]
    {
      assert 0 < factorL;
      hide Times, Past, FirAt, Interpolated, Valid, Used;
      numOut := 0;
      ghost var y := Interpolated(Used(), factorL, history);
      TimesSteps(0, factorL);
      TimesMonotone(0, |src|, factorL);
      assert old(history) + src[..0] == history;
      assert y + dest[at..at + 0] == y;
      for i := 0 to |src|
        invariant Valid() && numOut == Times(i, factorL)
        invariant history == old(history) + src[..i]
        invariant dest[..at] == old(dest[..at])
        invariant at + numOut <= dest.Length && Interpolated(Used(), factorL, history) == y + dest[at..at + numOut]
      {
        TimesSteps(i, factorL);
        TimesMonotone(i + 1, |src|, factorL);
        ghost var was := dest[..];
        ProcessSample(dest, at + numOut, src[i]);
        SliceGrows(was, dest[..], at, numOut, factorL);
        assert src[..i + 1] == src[..i] + [src[i]];
        numOut := numOut + factorL;
      }
      assert src[..|src|] == src;
    }
  }

  // Changing an array beyond a point extends a slice that ends there.
  lemma SliceGrows(was: seq<Sample>, now: seq<Sample>, at: nat, n: nat, k: nat)
    requires |was| == |now| && at + n + k <= |now| && now[..at + n] == was[..at + n]
    ensures now[at..at + n + k] == was[at..at + n] + now[at + n..at + n + k]
    ensures now[..at] == was[..at]
  {
    assert now[at..at + n] == now[..at + n][at..];
    assert was[at..at + n] == was[..at + n][at..];
    assert now[..at] == now[..at + n][..at];
    assert was[..at] == was[..at + n][..at];
  }

  lemma TapsInUse(len: nat, l: nat)
    requires 0 < l <= len
    ensures 0 < len / l && 0 <= Times(len / l, l) <= len
    ensures len % l == 0 <==> Times(len / l, l) == len
  {
    var q := len / l;
    assert len == l * q + len % l;
    assert q * l == l * q;
    if q <= 0 {
      MulMonotone(l, q, 0);
    }
    MulMonotone(l, 0, q);
  }
}
