/** fidlib's numeric searches over exact reals: the golden-section-like peak search and the
    bisection for the -3.01dB point (src/async/audio/fidlib.c:721-742, 1439-1485). */
module FidSearch {

  function Pow(base: real, n: nat): real {
    if n == 0 then 1.0 else Pow(base, n - 1) * base
  }

  function Abs(x: real): real {
    if x < 0.0 then -x else x
  }

  // --- search_peak ---

  // The response rises strictly up to p and falls strictly from there on.
  ghost predicate PeaksAt(r: real -> real, lo: real, hi: real, p: real) {
    && lo <= p <= hi
    && (forall x, y :: lo <= x < y <= p ==> r(x) < r(y))
    && (forall x, y :: p <= x < y <= hi ==> r(x) > r(y))
  }

  // Comparing the response at two inner points tells on which side the peak cannot be.
  lemma PeakStaysInside(r: real -> real, lo: real, hi: real, p: real, f1: real, f2: real)
    requires PeaksAt(r, lo, hi, p) && lo <= f1 < f2 <= hi
    ensures r(f1) > r(f2) ==> PeaksAt(r, lo, f2, p)
    ensures r(f1) <= r(f2) ==> PeaksAt(r, f1, hi, p)
  {
    assert f2 <= p ==> r(f1) < r(f2);
    assert p <= f1 ==> r(f1) > r(f2);
  }

  // The width of the bracket after n rounds.
  function Width(n: nat, full: real): real {
    if n == 0 then full else 0.51 * Width(n - 1, full)
  }

  lemma {:induction false} WidthIsPower(n: nat, full: real)
    ensures Width(n, full) == Pow(0.51, n) * full
    ensures full >= 0.0 ==> Width(n, full) >= 0.0
  {
    if n > 0 {
      WidthIsPower(n - 1, full);
      assert Pow(0.51, n) * full == 0.51 * (Pow(0.51, n - 1) * full);
    }
  }

  // Twenty rounds leave less than 1.5 millionths.
  lemma TwentyRounds()
    ensures 0.0 < Pow(0.51, 20) < 0.0000015
  {
    var p5 := Pow(0.51, 5);
    assert p5 == 0.51 * 0.51 * 0.51 * 0.51 * 0.51 by {
      assert Pow(0.51, 2) == 0.51 * 0.51;
      assert Pow(0.51, 4) == Pow(0.51, 2) * 0.51 * 0.51;
    }
    PowAdds(0.51, 5, 5);
    PowAdds(0.51, 10, 10);
    assert 0.034502 < p5 < 0.034503;
    ProductsGrow(p5, 0.034503);
    assert 0.0 < Pow(0.51, 10) < 0.0012;
    ProductsGrow(Pow(0.51, 10), 0.0012);
    assert Pow(0.51, 20) == Pow(0.51, 10) * Pow(0.51, 10);
  }

  lemma {:induction false} PowAdds(x: real, m: nat, n: nat)
    ensures Pow(x, m + n) == Pow(x, m) * Pow(x, n)
  {
    if n > 0 {
      PowAdds(x, m, n - 1);
      assert Pow(x, m) * Pow(x, n) == (Pow(x, m) * Pow(x, n - 1)) * x;
    }
  }

  // One round of the search.
  method Narrow(r: real -> real, f0: real, f3: real, f1: real, f2: real, ghost p: real) returns (g0: real, g3: real)
    requires PeaksAt(r, f0, f3, p) && f0 < f3
    requires f1 == 0.51 * f0 + 0.49 * f3 && f2 == 0.49 * f0 + 0.51 * f3
    ensures PeaksAt(r, g0, g3, p) && g3 - g0 == 0.51 * (f3 - f0) && f0 <= g0 && g3 <= f3
  {
    hide PeaksAt;
    g0, g3 := f0, f3;
    var r1, r2 := r(f1), r(f2);
    PeakStaysInside(r, f0, f3, p, f1, f2);
    if r1 > r2 {
      g3 := f2;
    } else {
      g0 := f1;
    }
  }

  // No further off than half of what twenty rounds leave of a bracket.
  ghost predicate CloseEnough(off: real, width: real) {
    Abs(off) <= 0.5 * Pow(0.51, 20) * width
  }

  /** Twenty rounds, each of which keeps 51% of the bracket and the peak inside it. */
  method SearchPeak(r: real -> real, from: real, to: real, ghost p: real) returns (peak: real)
    requires PeaksAt(r, from, to, p)
    ensures CloseEnough(peak - p, to - from)
    ensures from <= peak <= to
    ensures -0.00000075 * (to - from) <= peak - p <= 0.00000075 * (to - from)
  {
    hide Pow, CloseEnough;
    var f0, f3 := from, to;
    var a := 0;
    InBracket(r, f0, f3, p);
    while a < 20
      invariant 0 <= a <= 20
      invariant PeaksAt(r, f0, f3, p) && f0 <= p <= f3
      invariant f3 - f0 == Width(a, to - from) && from <= f0 && f3 <= to
      decreases 20 - a
    {
      hide PeaksAt;
      var f1 := 0.51 * f0 + 0.49 * f3;
      var f2 := 0.49 * f0 + 0.51 * f3;
      if f1 == f2 {
        break;
      }
      f0, f3 := Narrow(r, f0, f3, f1, f2, p);
      InBracket(r, f0, f3, p);
      a := a + 1;
    }
    peak := (f0 + f3) * 0.5;
    hide Width, PeaksAt;
    WidthIsPower(20, to - from);
    assert a < 20 ==> f3 - f0 == 0.0;
    Final(peak - p, f3 - f0, to - from);
  }

  // The middle of what is left is within half of it.
  lemma Final(d: real, rest: real, w: real)
    requires Abs(d) <= 0.5 * rest && rest <= Width(20, w) && 0.0 <= w
    ensures CloseEnough(d, w)
    ensures -0.00000075 * w <= d <= 0.00000075 * w
  {
    hide Width, Pow;
    WidthIsPower(20, w);
    HalfOfProduct(Pow(0.51, 20), w, Width(20, w));
    InNumbers(d, w);
  }

  lemma InNumbers(d: real, w: real)
    requires Abs(d) <= 0.5 * Pow(0.51, 20) * w && 0.0 <= w
    ensures -0.00000075 * w <= d <= 0.00000075 * w
  {
    TwentyRounds();
    hide Pow;
    LessThanHalf(Pow(0.51, 20), 0.0000015, w);
  }

  lemma LessThanHalf(x: real, y: real, w: real)
    requires x <= y && 0.0 <= w
    ensures 0.5 * x * w <= (0.5 * y) * w
  {
    assert (y - x) * w >= 0.0;
    assert 0.5 * x * w == 0.5 * (x * w) && (0.5 * y) * w == 0.5 * (y * w);
  }

  lemma InBracket(r: real -> real, lo: real, hi: real, p: real)
    requires PeaksAt(r, lo, hi, p)
    ensures lo <= p <= hi
  {
  }

  lemma HalfOfProduct(x: real, y: real, xy: real)
    requires xy == x * y
    ensures 0.5 * x * y == 0.5 * xy
  {
  }

  // --- auto_adjust_single ---

  const M301DB: real := 0.707106781186548

  // Half the width of the accepted band around M301DB.
  const TOLERANCE: real := 0.0000005 * M301DB

  // How much a response of slope at most k can change over a width.
  function Rise(k: real, width: real): real {
    k * width
  }

  ghost predicate Lipschitz(resp: real -> real, k: real) {
    k >= 0.0 && forall x, y :: 0.0 <= x <= y <= 0.5 ==> Abs(resp(x) - resp(y)) <= Rise(k, y - x)
  }

  lemma RiseHalves(k: real, width: real)
    ensures Rise(k, width * 0.5) == Rise(k, width) * 0.5
    ensures k >= 0.0 && width >= 0.0 ==> Rise(k, width) >= 0.0
  {
  }

  // The level is crossed between a0 and a2, upwards or downwards.
  ghost predicate Crosses(resp: real -> real, a0: real, a2: real, incr: bool) {
    && 0.0 <= a0 < a2 <= 0.5
    && if incr then resp(a0) <= M301DB <= resp(a2) else resp(a0) >= M301DB >= resp(a2)
  }

  predicate Accepted(x: real) {
    x >= 0.9999995 * M301DB && x < 1.0000005 * M301DB
  }

  lemma ProductsGrow(a: real, b: real)
    requires 0.0 <= a <= b
    ensures a * a <= b * b
  {
    assert a * a <= a * b <= b * b;
  }

  // What is accepted is half the power, to six figures.
  lemma AcceptedIsHalfPower(x: real)
    requires Accepted(x)
    ensures Abs(x * x - 0.5) < 0.0000006
  {
    var low, high := 0.7071064, 0.7071072;
    assert low <= x <= high;
    ProductsGrow(low, x);
    ProductsGrow(x, high);
    assert low * low > 0.4999994 && high * high < 0.5000006;
  }

  /** And whatever is close enough to the root of one half is accepted, and nothing else. */
  lemma NearIsAccepted(x: real)
    ensures Abs(x - 0.707106781186548) <= 0.00000035 ==> Accepted(x)
    ensures Accepted(x) ==> Abs(x - 0.707106781186548) <= 0.00000036
  {
  }

  // The a-th pair of design frequencies tried in search of a crossing.
  function Below(f0: real, a: nat): real
    requires 0 < a
  {
    f0 / (a as real)
  }

  function Above(f0: real, a: nat): real
    requires 0 < a
  {
    0.5 - (0.5 - f0) / (a as real)
  }

  predicate OtherSide(resp: real -> real, f0: real, x: real) {
    (resp(f0) < M301DB) != (resp(x) < M301DB)
  }

  // No frequency tried lies on the other side of the level.
  ghost predicate NoRange(resp: real -> real, f0: real) {
    forall a :: a in {2, 4, 8, 16, 32} ==> !OtherSide(resp, f0, Below(f0, a)) && !OtherSide(resp, f0, Above(f0, a))
  }

  // x is one of the ten trial frequencies, and on the other side of the level.
  ghost predicate IsCrossing(resp: real -> real, f0: real, a: nat, x: real) {
    && a in {2, 4, 8, 16, 32} && (x * a as real == f0 || (0.5 - x) * a as real == 0.5 - f0)
    && if resp(f0) < 0.707106781186548 then resp(x) >= 0.707106781186548 else resp(x) < 0.707106781186548
  }

  /** Where one of the trial frequencies lies on the other side of the level, there is a range. */
  lemma CrossingIsFound(resp: real -> real, f0: real, a: nat, x: real)
    requires 0.0 < f0 < 0.5 && IsCrossing(resp, f0, a, x)
    ensures !NoRange(resp, f0)
  {
    if x * a as real == f0 {
      OnlyQuotient(x, f0, a as real);
      assert x == Below(f0, a);
    } else {
      OnlyQuotient(0.5 - x, 0.5 - f0, a as real);
      assert x == Above(f0, a);
    }
    hide Below, Above;
  }

  /** And without one there is none. */
  lemma RangeHasCrossing(resp: real -> real, f0: real) returns (a: nat, x: real)
    requires 0.0 < f0 < 0.5 && !NoRange(resp, f0)
    ensures IsCrossing(resp, f0, a, x)
  {
    a :| a in {2, 4, 8, 16, 32} && (OtherSide(resp, f0, Below(f0, a)) || OtherSide(resp, f0, Above(f0, a)));
    x := if OtherSide(resp, f0, Below(f0, a)) then Below(f0, a) else Above(f0, a);
  }

  lemma OnlyQuotient(x: real, y: real, d: real)
    requires d > 0.0
    ensures x * d == y ==> x == y / d
  {
  }

  lemma TrialsInRange(f0: real, a: nat)
    requires 0.0 < f0 < 0.5 && 2 <= a
    ensures 0.0 <= Below(f0, a) < f0 < Above(f0, a) <= 0.5
  {
    DivideShrinks(f0, a as real);
    DivideShrinks(0.5 - f0, a as real);
  }

  lemma DivideShrinks(x: real, d: real)
    requires 0.0 < x && 2.0 <= d
    ensures 0.0 <= x / d < x
  {
    var q := x / d;
    assert q * d == x;
    assert q < 0.0 ==> q * d < 0.0;
    assert q * d >= q * 2.0;
  }

  method FindRange(resp: real -> real, f0: real) returns (found: bool, a2: real)
    requires 0.0 < f0 < 0.5
    ensures found ==> 0.0 <= a2 <= 0.5 && a2 != f0 && (resp(f0) < M301DB <==> M301DB <= resp(a2))
    ensures !found <==> NoRange(resp, f0)
  {
    var a := 2;
    while true
      invariant a in {2, 4, 8, 16, 32}
      invariant forall b :: b in {2, 4, 8, 16} && b < a ==>
                  !OtherSide(resp, f0, Below(f0, b)) && !OtherSide(resp, f0, Above(f0, b))
      decreases 32 - a
    {
      TrialsInRange(f0, a);
      a2 := f0 / (a as real);
      assert a2 == Below(f0, a);
      if (resp(f0) < M301DB) != (resp(a2) < M301DB) {
        return true, a2;
      }
      a2 := 0.5 - (0.5 - f0) / (a as real);
      assert a2 == Above(f0, a);
      if (resp(f0) < M301DB) != (resp(a2) < M301DB) {
        return true, a2;
      }
      if a == 32 {
        return false, a2;
      }
      a := a * 2;
    }
  }

  // The midpoint is as close to the level as the width of the bracket allows.
  lemma MidpointIsClose(resp: real -> real, k: real, a0: real, a2: real, incr: bool, a1: real)
    requires Lipschitz(resp, k) && Crosses(resp, a0, a2, incr) && a1 == 0.5 * (a0 + a2)
    ensures Abs(resp(a1) - M301DB) <= Rise(k, a2 - a0) * 0.5
    ensures Rise(k, a2 - a1) == Rise(k, a1 - a0) == Rise(k, a2 - a0) * 0.5
  {
    hide Rise;
    RiseHalves(k, a2 - a0);
    var d := (a2 - a0) * 0.5;
    assert a1 - a0 == d && a2 - a1 == d;
    assert Abs(resp(a0) - resp(a1)) <= Rise(k, a1 - a0);
    assert Abs(resp(a1) - resp(a2)) <= Rise(k, a2 - a1);
  }

  lemma {:induction false} PowOfTwoGrows(n: nat)
    ensures Pow(2.0, n) >= 1.0 + n as real
  {
    if n > 0 {
      PowOfTwoGrows(n - 1);
    }
  }

  // Halving often enough brings any width below the tolerance.
  lemma EnoughHalvings(x: real) returns (n: nat)
    requires x >= 0.0
    ensures x <= TOLERANCE * Pow(2.0, n)
  {
    var q := x / TOLERANCE;
    assert q * TOLERANCE == x;
    assert q < 0.0 ==> q * TOLERANCE < 0.0;
    n := q.Floor;
    PowOfTwoGrows(n);
    assert Pow(2.0, n) >= q;
    assert TOLERANCE * Pow(2.0, n) >= TOLERANCE * q;
  }

  datatype Adjusted<F> = Filter(filt: F) | NoEnclosingRange

  /** Designs filters until the response at f0 is sqrt(0.5) to six figures, in both the rising and
      the falling case. It gives up exactly when none of the ten trial designs is on the other
      side of the level. Termination: each round halves the bracket, and a bracket that is narrow
      enough for the Lipschitz constant must have an acceptable midpoint. */
  method AutoAdjustSingle<F>(design: real -> F, response: (F, real) -> real, f0: real, ghost k: real)
    returns (r: Adjusted<F>)
    requires 0.0 < f0 < 0.5
    requires Lipschitz(a => response(design(a), f0), k)
    ensures r.NoEnclosingRange? <==> NoRange(a => response(design(a), f0), f0)
    ensures r.Filter? ==> Accepted(response(r.filt, f0))
    ensures r.Filter? ==> exists a :: 0.0 <= a <= 0.5 && r.filt == design(a)
  {
    var resp: real -> real := a => response(design(a), f0);
    var found, a2 := FindRange(resp, f0);
    if !found {
      return NoEnclosingRange;
    }
    var a0 := f0;
    var incr := resp(a2) > resp(a0);
    if a0 > a2 {
      a0, a2 := a2, a0;
      incr := !incr;
    }
    hide Rise, Pow, Lipschitz, NoRange;
    RiseHalves(k, a2 - a0);
    ghost var halvings := EnoughHalvings(Rise(k, a2 - a0));
    var rv := design(a2);
    while true
      invariant Crosses(resp, a0, a2, incr)
      invariant Rise(k, a2 - a0) <= TOLERANCE * Pow(2.0, halvings)
      decreases halvings
    {
      var a1 := 0.5 * (a0 + a2);
      if a1 == a0 || a1 == a2 {
        break;
      }
      rv := design(a1);
      MidpointIsClose(resp, k, a0, a2, incr, a1);
      if resp(a1) >= 0.9999995 * M301DB && resp(a1) < 1.0000005 * M301DB {
        break;
      }
      halvings := FewerHalvings(Rise(k, a2 - a0), halvings, Abs(resp(a1) - M301DB));
      if incr == (resp(a1) > M301DB) {
        a2 := a1;
      } else {
        a0 := a1;
      }
    }
    return Filter(rv);
  }

  // A midpoint that is not accepted shows that there are halvings left.
  lemma FewerHalvings(rise: real, n: nat, off: real) returns (m: nat)
    requires rise <= TOLERANCE * Pow(2.0, n)
    requires TOLERANCE <= off <= rise * 0.5
    ensures n == m + 1 && rise * 0.5 <= TOLERANCE * Pow(2.0, m)
  {
    assert Pow(2.0, 0) == 1.0;
    m := n - 1;
    assert TOLERANCE * Pow(2.0, n) == (TOLERANCE * Pow(2.0, m)) * 2.0;
  }
}
