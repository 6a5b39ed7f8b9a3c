/** What decimation and interpolation compute, as functions of the whole input stream. */
module Fir {
  import opened AudioPipe
  import opened Ring

  // The stream at position i; silence before its start and after its end.
  function Past(x: seq<Sample>, i: int): Sample {
    if 0 <= i < |x| then x[i] else 0.0
  }

  // The first n terms of the FIR sum at position at.
  function FirAt(h: seq<real>, x: seq<Sample>, at: int, n: nat): Sample
    requires n <= |h|
  {
    if n == 0 then 0.0 else FirAt(h, x, at, n - 1) + h[n - 1] * Past(x, at - (n - 1))
  }

  // Filter, then keep every m-th sample.
  function Decimated(h: seq<real>, m: nat, x: seq<Sample>): (y: seq<Sample>)
    requires 0 < m
    ensures |y| == |x| / m
    ensures forall n :: 0 <= n < |x| / m ==> y[n] == FirAt(h, x, (n + 1) * m - 1, |h|)
  {
    seq(|x| / m, n requires 0 <= n => FirAt(h, x, (n + 1) * m - 1, |h|))
  }

  function Silence(n: nat): (z: seq<Sample>)
    ensures |z| == n && forall i :: 0 <= i < n ==> z[i] == 0.0
  {
    seq(n, i => 0.0)
  }

  // Products of indices, kept out of sight of most proofs.
  function Times(n: int, l: int): int {
    n * l
  }

  lemma TimesSteps(n: int, l: int)
    ensures Times(n + 1, l) == Times(n, l) + l
    ensures Times(0, l) == 0 && Times(1, l) == l
  {
  }

  lemma TimesMonotone(a: int, b: int, l: nat)
    requires a <= b
    ensures Times(a, l) <= Times(b, l)
  {
    assert (b - a) * l >= 0;
  }

  // Put l-1 zeros after every sample.
  function ZeroStuffed(l: nat, x: seq<Sample>): (u: seq<Sample>)
    requires 0 < l
    ensures |u| == Times(|x|, l)
  {
    if x == [] then []
    else
      TimesSteps(|x| - 1, l);
      ZeroStuffed(l, x[..|x| - 1]) + ([x[|x| - 1]] + Silence(l - 1))
  }

  // One output of the filter over the zero-stuffed stream, with gain l.
  function InterpolatedAt(h: seq<real>, l: nat, x: seq<Sample>, m: int): Sample
    requires 0 < l
  {
    FirAt(h, ZeroStuffed(l, x), m, |h|) * l as real
  }

  // Filter the zero-stuffed stream.
  function Interpolated(h: seq<real>, l: nat, x: seq<Sample>): (y: seq<Sample>)
    requires 0 < l
    ensures |y| == Times(|x|, l)
    ensures forall m :: 0 <= m < |y| ==> y[m] == InterpolatedAt(h, l, x, m)
  {
    seq(|ZeroStuffed(l, x)|, m requires 0 <= m => InterpolatedAt(h, l, x, m))
  }

  lemma MulMonotone(l: nat, a: int, b: int)
    requires a <= b
    ensures l * a <= l * b
  {
    assert l * (b - a) >= 0;
  }

  // --- The FIR sum only looks at the past ---

  lemma {:induction false} FirAtAgrees(h: seq<real>, x: seq<Sample>, y: seq<Sample>, at: int, n: nat)
    requires n <= |h| && forall i :: i <= at ==> Past(x, i) == Past(y, i)
    ensures FirAt(h, x, at, n) == FirAt(h, y, at, n)
  {
    if n > 0 {
      FirAtAgrees(h, x, y, at, n - 1);
      assert Past(x, at - (n - 1)) == Past(y, at - (n - 1));
    }
  }

  lemma FirAtPrefix(h: seq<real>, x: seq<Sample>, more: seq<Sample>, at: int)
    requires at < |x|
    ensures FirAt(h, x + more, at, |h|) == FirAt(h, x, at, |h|)
  {
    FirAtAgrees(h, x + more, x, at, |h|);
  }

  // --- Decimation block by block ---

  lemma BlockEnd(x: seq<Sample>, m: nat, n: nat)
    requires 0 < m && |x| % m == 0 && n < |x| / m
    ensures (n + 1) * m - 1 < |x|
  {
    var q := |x| / m;
    assert |x| == m * q;
    MulMonotone(m, n + 1, q);
  }

  lemma OneMoreBlock(len: nat, m: nat)
    requires 0 < m && len % m == 0
    ensures (len + m) / m == len / m + 1 && (len + m) % m == 0
    ensures (len / m + 1) * m == len + m
  {
    var q := len / m;
    assert len == m * q;
    DivModUnique(len + m, m, q + 1, 0);
  }

  // One more block of m samples gives one more output sample.
  lemma DecimateBlock(h: seq<real>, m: nat, x: seq<Sample>, block: seq<Sample>)
    requires 0 < m && |x| % m == 0 && |block| == m
    ensures |x + block| % m == 0
    ensures Decimated(h, m, x + block) == Decimated(h, m, x) + [FirAt(h, x + block, |x + block| - 1, |h|)]
  {
    OneMoreBlock(|x|, m);
    var y, z := Decimated(h, m, x + block), Decimated(h, m, x);
    forall n | 0 <= n < |z| ensures y[n] == z[n] {
      BlockEnd(x, m, n);
      FirAtPrefix(h, x, block, (n + 1) * m - 1);
    }
  }

  // A block that is not complete gives no output.
  lemma PartialBlockIsSilent(h: seq<real>, m: nat, x: seq<Sample>, part: seq<Sample>)
    requires 0 < m && |x| % m == 0 && |part| < m
    ensures Decimated(h, m, x + part) == Decimated(h, m, x)
  {
    var q := |x| / m;
    assert |x| == m * q;
    DivModUnique(|x + part|, m, q, |part|);
    var y, z := Decimated(h, m, x + part), Decimated(h, m, x);
    forall n | 0 <= n < |z| ensures y[n] == z[n] {
      BlockEnd(x, m, n);
      FirAtPrefix(h, x, part, (n + 1) * m - 1);
    }
  }

  // --- Interpolation sample by sample ---

  // The first outputs that belong to the newest sample of x.
  ghost predicate NewestOutputs(block: seq<Sample>, h: seq<real>, l: nat, x: seq<Sample>)
    requires 0 < l
  {
    forall p :: 0 <= p < |block| ==> block[p] == InterpolatedAt(h, l, x, Times(|x| - 1, l) + p)
  }

  lemma StuffedAppends(l: nat, x: seq<Sample>, s: Sample)
    requires 0 < l
    ensures ZeroStuffed(l, x + [s]) == ZeroStuffed(l, x) + ([s] + Silence(l - 1))
  {
    hide Times;
    assert (x + [s])[..|x|] == x;
  }

  // Further input does not change the outputs before it.
  lemma InterpolatedPrefix(h: seq<real>, l: nat, x: seq<Sample>, s: Sample, m: nat)
    requires 0 < l && m < Times(|x|, l)
    ensures InterpolatedAt(h, l, x + [s], m) == InterpolatedAt(h, l, x, m)
  {
    hide Times, FirAt, ZeroStuffed;
    StuffedAppends(l, x, s);
    FirAtPrefix(h, ZeroStuffed(l, x), [s] + Silence(l - 1), m);
  }

  // One more input sample gives l more output samples.
  lemma InterpolateSample(h: seq<real>, l: nat, x: seq<Sample>, s: Sample, block: seq<Sample>)
    requires 0 < l && |block| == l && NewestOutputs(block, h, l, x + [s])
    ensures Interpolated(h, l, x + [s]) == Interpolated(h, l, x) + block
  {
    hide Times, InterpolatedAt, ZeroStuffed, Interpolated;
    TimesSteps(|x|, l);
    var n := Times(|x|, l);
    forall m | 0 <= m < n + l ensures Interpolated(h, l, x + [s])[m] == (Interpolated(h, l, x) + block)[m] {
      if m < n {
        InterpolatedPrefix(h, l, x, s, m);
      } else {
        assert m == Times(|x + [s]| - 1, l) + (m - n);
      }
    }
  }

  // --- Polyphase: only every l-th tap meets a sample that is not stuffing ---

  // The sum over the first n taps of one phase, against the newest samples of x.
  function PhaseSum(h: seq<real>, x: seq<Sample>, l: nat, phase: nat, n: nat): Sample
    requires phase < l && Times(n, l) <= |h|
  {
    if n == 0 then 0.0
    else
      TimesSteps(n - 1, l);
      TimesMonotone(0, n - 1, l);
      PhaseSum(h, x, l, phase, n - 1) + h[phase + Times(n - 1, l)] * Past(x, |x| - 1 - (n - 1))
  }

  // Reading the zero-stuffed stream at a distance d from the q-th sample.
  lemma {:induction false} PastOfStuffed(l: nat, x: seq<Sample>, q: int, d: int)
    requires 0 < l && -(l as int) < d < l
    ensures Past(ZeroStuffed(l, x), Times(q, l) + d) == if d == 0 then Past(x, q) else 0.0
  {
    hide Times;
    TimesSteps(0, l);
    if x == [] {
    } else {
      var n, x0 := |x|, x[..|x| - 1];
      TimesSteps(n - 1, l);
      if q > n {
        TimesMonotone(n + 1, q, l);
        TimesSteps(n, l);
      } else if q < n - 1 {
        TimesMonotone(q, n - 2, l);
        TimesSteps(n - 2, l);
        PastOfStuffed(l, x0, q, d);
      } else if q == n - 1 && d < 0 {
        PastOfStuffed(l, x0, q, d);
      }
    }
  }

  // The direct sum over n whole groups of l taps is the phase sum over n taps.
  lemma {:induction false} GroupsArePhase(h: seq<real>, l: nat, x: seq<Sample>, phase: nat, n: nat)
    requires phase < l && 0 <= Times(n, l) <= |h| && 0 < |x|
    ensures FirAt(h, ZeroStuffed(l, x), Times(|x| - 1, l) + phase, Times(n, l)) == PhaseSum(h, x, l, phase, n)
  {
    hide Times, ZeroStuffed;
    TimesSteps(0, l);
    if n > 0 {
      TimesSteps(n - 1, l);
      TimesMonotone(0, n - 1, l);
      GroupsArePhase(h, l, x, phase, n - 1);
      OneGroup(h, l, x, phase, n - 1, l);
    }
  }

  // Within a group only the tap of the phase counts.
  lemma {:induction false} OneGroup(h: seq<real>, l: nat, x: seq<Sample>, phase: nat, g: nat, j: nat)
    requires phase < l && j <= l && 0 <= Times(g, l) && Times(g, l) + l <= |h| && 0 < |x|
    ensures FirAt(h, ZeroStuffed(l, x), Times(|x| - 1, l) + phase, Times(g, l) + j) ==
            FirAt(h, ZeroStuffed(l, x), Times(|x| - 1, l) + phase, Times(g, l)) +
            if j > phase then h[phase + Times(g, l)] * Past(x, |x| - 1 - g) else 0.0
  {
    hide Times, ZeroStuffed, Past;
    if j > 0 {
      OneGroup(h, l, x, phase, g, j - 1);
      PastOfStuffed(l, x, |x| - 1 - g, phase - (j - 1));
      TimesSubtract(|x| - 1, g, l);
      TimesZeroReal(h[Times(g, l) + j - 1]);
    }
  }

  lemma TimesSubtract(a: int, b: int, l: int)
    ensures Times(a - b, l) == Times(a, l) - Times(b, l)
  {
  }

  lemma TimesZeroReal(x: real)
    ensures x * 0.0 == 0.0
  {
  }

  /** Polyphase interpolation is the direct form, as far as the taps go round evenly. */
  lemma PolyphaseIsDirect(h: seq<real>, l: nat, x: seq<Sample>, phase: nat, taps: nat)
    requires phase < l && 0 < |x| && Times(taps, l) == |h|
    ensures FirAt(h, ZeroStuffed(l, x), Times(|x| - 1, l) + phase, |h|) == PhaseSum(h, x, l, phase, taps)
  {
    GroupsArePhase(h, l, x, phase, taps);
  }

  // --- When the taps do not go round evenly ---

  lemma {:induction false} TrailingZeros(h: seq<real>, c: nat, u: seq<Sample>, at: int, n: nat)
    requires c <= n <= |h| && forall k :: c <= k < |h| ==> h[k] == 0.0
    ensures FirAt(h, u, at, n) == FirAt(h[..c], u, at, c)
  {
    if n > c {
      TrailingZeros(h, c, u, at, n - 1);
    } else {
      SameTaps(h, c, u, at, c);
    }
  }

  lemma {:induction false} SameTaps(h: seq<real>, c: nat, u: seq<Sample>, at: int, n: nat)
    requires n <= c <= |h|
    ensures FirAt(h, u, at, n) == FirAt(h[..c], u, at, n)
  {
    if n > 0 {
      SameTaps(h, c, u, at, n - 1);
    }
  }

  ghost predicate IsImpulse(u: seq<Sample>) {
    |u| > 0 && u[0] == 1.0 && forall i :: 0 < i < |u| ==> u[i] == 0.0
  }

  lemma {:induction false} StuffedImpulse(l: nat, n: nat)
    requires 0 < l
    ensures IsImpulse(ZeroStuffed(l, [1.0] + Silence(n)))
  {
    var x := [1.0] + Silence(n);
    if n == 0 {
      assert x[..0] == [];
    } else {
      assert x[..n] == [1.0] + Silence(n - 1);
      StuffedImpulse(l, n - 1);
    }
  }

  // The answer to an impulse is the filter itself.
  lemma {:induction false} ImpulseResponse(h: seq<real>, u: seq<Sample>, at: nat, n: nat)
    requires IsImpulse(u) && n <= |h|
    ensures FirAt(h, u, at, n) == if at < n then h[at] else 0.0
  {
    if n > 0 {
      ImpulseResponse(h, u, at, n - 1);
    }
  }

  /** Leaving out the taps from c on is harmless for every input exactly when they are all 0. */
  lemma DroppedTapsMatter(h: seq<real>, l: nat, c: nat)
    requires 0 < l && c <= |h|
    ensures (forall x :: Interpolated(h[..c], l, x) == Interpolated(h, l, x)) <==> forall k :: c <= k < |h| ==>
              h[k] == 0.0
  {
    hide Interpolated;
    if forall k :: c <= k < |h| ==> h[k] == 0.0 {
      forall x ensures Interpolated(h[..c], l, x) == Interpolated(h, l, x) {
        ZeroTapsAreHarmless(h, l, c, x);
      }
    } else {
      var k :| c <= k < |h| && h[k] != 0.0;
      DroppedTapShows(h, l, c, k);
    }
  }

  lemma ZeroTapsAreHarmless(h: seq<real>, l: nat, c: nat, x: seq<Sample>)
    requires 0 < l && c <= |h| && forall k :: c <= k < |h| ==> h[k] == 0.0
    ensures Interpolated(h[..c], l, x) == Interpolated(h, l, x)
  {
    hide Times, FirAt, ZeroStuffed;
    forall m | 0 <= m < Times(|x|, l) ensures Interpolated(h[..c], l, x)[m] == Interpolated(h, l, x)[m] {
      TrailingZeros(h, c, ZeroStuffed(l, x), m, |h|);
    }
  }

  lemma DroppedTapShows(h: seq<real>, l: nat, c: nat, k: nat)
    requires 0 < l && c <= k < |h| && h[k] != 0.0
    ensures exists x :: Interpolated(h[..c], l, x) != Interpolated(h, l, x)
  {
    hide Times;
    var x := [1.0] + Silence(k);
    StuffedImpulse(l, k);
    LongEnough(k, l);
    ImpulseResponse(h, ZeroStuffed(l, x), k, |h|);
    ImpulseResponse(h[..c], ZeroStuffed(l, x), k, c);
    GainShows(h[k], l);
    assert Interpolated(h[..c], l, x)[k] != Interpolated(h, l, x)[k];
  }

  lemma LongEnough(k: nat, l: nat)
    requires 0 < l
    ensures k < Times(k + 1, l)
  {
    assert Times(k + 1, l) == (k + 1) * l;
    MulMonotone(k + 1, 1, l);
  }

  lemma GainShows(a: real, l: nat)
    requires a != 0.0 && 0 < l
    ensures a * l as real != 0.0 * l as real
  {
  }

  // --- Linearity and the answer to a pulse, which together fix every output ---

  ghost predicate IsSum(z: seq<Sample>, x: seq<Sample>, y: seq<Sample>) {
    |x| == |y| == |z| && forall i :: 0 <= i < |z| ==> z[i] == x[i] + y[i]
  }

  // One sample a at position k, and nothing else.
  ghost predicate IsPulse(u: seq<Sample>, k: int, a: Sample) {
    0 <= k < |u| && forall i :: 0 <= i < |u| ==> u[i] == if i == k then a else 0.0
  }

  lemma {:induction false} FirAtAdds(h: seq<real>, x: seq<Sample>, y: seq<Sample>, z: seq<Sample>, at: int, n: nat)
    requires n <= |h| && IsSum(z, x, y)
    ensures FirAt(h, z, at, n) == FirAt(h, x, at, n) + FirAt(h, y, at, n)
  {
    if n > 0 {
      FirAtAdds(h, x, y, z, at, n - 1);
      assert Past(z, at - (n - 1)) == Past(x, at - (n - 1)) + Past(y, at - (n - 1));
    }
  }

  lemma {:induction false} FirAtPulse(h: seq<real>, u: seq<Sample>, k: int, a: Sample, at: int, n: nat)
    requires n <= |h| && IsPulse(u, k, a)
    ensures FirAt(h, u, at, n) == if 0 <= at - k < n then h[at - k] * a else 0.0
  {
    if n > 0 {
      FirAtPulse(h, u, k, a, at, n - 1);
      assert Past(u, at - (n - 1)) == if at - (n - 1) == k then a else 0.0;
    }
  }

  /** The decimation of a sum of streams is the sum of their decimations. */
  lemma DecimationAdds(h: seq<real>, m: nat, x: seq<Sample>, y: seq<Sample>, z: seq<Sample>)
    requires 0 < m && IsSum(z, x, y)
    ensures IsSum(Decimated(h, m, z), Decimated(h, m, x), Decimated(h, m, y))
  {
    hide FirAt;
    forall n | 0 <= n < |z| / m
      ensures Decimated(h, m, z)[n] == Decimated(h, m, x)[n] + Decimated(h, m, y)[n]
    {
      FirAtAdds(h, x, y, z, (n + 1) * m - 1, |h|);
    }
  }

  /** A pulse comes out of the decimator as every m-th tap, counted from the end of its block. */
  lemma DecimatedPulse(h: seq<real>, m: nat, u: seq<Sample>, k: int, a: Sample)
    requires 0 < m && IsPulse(u, k, a)
    ensures forall n :: 0 <= n < |u| / m ==>
              var tap := (n + 1) * m - 1 - k;
              Decimated(h, m, u)[n] == if 0 <= tap < |h| then h[tap] * a else 0.0
  {
    hide FirAt;
    forall n | 0 <= n < |u| / m
      ensures var tap := (n + 1) * m - 1 - k;
              Decimated(h, m, u)[n] == if 0 <= tap < |h| then h[tap] * a else 0.0
    {
      FirAtPulse(h, u, k, a, (n + 1) * m - 1, |h|);
    }
  }

  lemma {:induction false} StuffedSum(l: nat, x: seq<Sample>, y: seq<Sample>, z: seq<Sample>)
    requires 0 < l && IsSum(z, x, y)
    ensures IsSum(ZeroStuffed(l, z), ZeroStuffed(l, x), ZeroStuffed(l, y))
  {
    hide Times;
    if z != [] {
      var n := |z| - 1;
      StuffedSum(l, x[..n], y[..n], z[..n]);
    }
  }

  /** The interpolation of a sum of streams is the sum of their interpolations. */
  lemma InterpolationAdds(h: seq<real>, l: nat, x: seq<Sample>, y: seq<Sample>, z: seq<Sample>)
    requires 0 < l && IsSum(z, x, y)
    ensures IsSum(Interpolated(h, l, z), Interpolated(h, l, x), Interpolated(h, l, y))
  {
    hide FirAt, ZeroStuffed, Times;
    StuffedSum(l, x, y, z);
    forall m | 0 <= m < Times(|z|, l)
      ensures Interpolated(h, l, z)[m] == Interpolated(h, l, x)[m] + Interpolated(h, l, y)[m]
    {
      FirAtAdds(h, ZeroStuffed(l, x), ZeroStuffed(l, y), ZeroStuffed(l, z), m, |h|);
    }
  }

  lemma {:induction false} StuffedPulse(l: nat, u: seq<Sample>, k: int, a: Sample)
    requires 0 < l && IsPulse(u, k, a)
    ensures IsPulse(ZeroStuffed(l, u), Times(k, l), a)
  {
    hide Times;
    var n, v := |u| - 1, u[..|u| - 1];
    TimesSteps(n, l);
    TimesSteps(0, l);
    TimesMonotone(0, k, l);
    if k == n {
      StuffedZeros(l, v);
    } else {
      StuffedPulse(l, v, k, a);
    }
  }

  lemma {:induction false} StuffedZeros(l: nat, v: seq<Sample>)
    requires 0 < l && forall i :: 0 <= i < |v| ==> v[i] == 0.0
    ensures forall i :: 0 <= i < |ZeroStuffed(l, v)| ==> ZeroStuffed(l, v)[i] == 0.0
  {
    if v != [] {
      StuffedZeros(l, v[..|v| - 1]);
    }
  }

  /** A pulse at position k comes out of the interpolator as the taps themselves, from output k*l on,
      with gain l. */
  lemma InterpolatedPulse(h: seq<real>, l: nat, u: seq<Sample>, k: int, a: Sample)
    requires 0 < l && IsPulse(u, k, a)
    ensures |Interpolated(h, l, u)| == |u| * l
    ensures forall m :: 0 <= m < |u| * l ==>
              Interpolated(h, l, u)[m] == if 0 <= m - k * l < |h| then h[m - k * l] * a * l as real else 0.0
  {
    hide FirAt, ZeroStuffed;
    StuffedPulse(l, u, k, a);
    forall m | 0 <= m < |u| * l
      ensures Interpolated(h, l, u)[m] == if 0 <= m - k * l < |h| then h[m - k * l] * a * l as real else 0.0
    {
      FirAtPulse(h, ZeroStuffed(l, u), Times(k, l), a, m, |h|);
    }
  }
}
