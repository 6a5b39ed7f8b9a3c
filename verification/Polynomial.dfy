/** Real polynomials as coefficient sequences, lowest power first, evaluated at complex points. */
module Polynomial {
  import opened Complex

  type Poly = seq<real>

  // The coefficient of the i-th power; 0 outside the sequence.
  function At(p: Poly, i: int): real {
    if 0 <= i < |p| then p[i] else 0.0
  }

  // The first n terms at z.
  function Partial(p: Poly, z: Complex, n: nat): Complex {
    if n == 0 then ZERO else Add(Partial(p, z, n - 1), Scale(At(p, n - 1), Power(z, n - 1)))
  }

  function Eval(p: Poly, z: Complex): Complex {
    Partial(p, z, |p|)
  }

  lemma {:induction false} PartialBeyondEnd(p: Poly, z: Complex, n: nat)
    requires |p| <= n
    ensures Partial(p, z, n) == Eval(p, z)
    decreases n
  {
    hide Power, Mul, Add, Scale;
    if n > |p| {
      PartialBeyondEnd(p, z, n - 1);
      AddNothing(Partial(p, z, n - 1), Power(z, n - 1));
    }
  }

  lemma AddNothing(a: Complex, w: Complex)
    ensures Add(a, Scale(0.0, w)) == a
  {
  }

  lemma {:induction false} PartialAgrees(p: Poly, q: Poly, z: Complex, n: nat)
    requires forall i :: 0 <= i < n ==> At(p, i) == At(q, i)
    ensures Partial(p, z, n) == Partial(q, z, n)
  {
    if n > 0 {
      PartialAgrees(p, q, z, n - 1);
    }
  }

  /** Horner's rule: the constant term, and z times the value of the rest. */
  lemma {:induction false} Horner(p: Poly, z: Complex, n: nat)
    requires 0 < |p| && n < |p|
    ensures Partial(p, z, n + 1) == Add(Complex(p[0], 0.0), Mul(z, Partial(p[1..], z, n)))
    ensures n == |p| - 1 ==> Eval(p, z) == Add(Complex(p[0], 0.0), Mul(z, Eval(p[1..], z)))
    ensures Eval([], z) == ZERO
  {
    hide Mul, Add, Scale;
    if n == 0 {
      ConstantTerm(p[0], z);
    } else {
      Horner(p, z, n - 1);
      var c, w, before := p[n], Power(z, n - 1), Partial(p[1..], z, n - 1);
      MulDistributes(z, before, Scale(c, w));
      ScaleOut(c, z, w);
      ScaleOut(c, w, z);
      MulCommutes(z, w);
      AddAssociates(Complex(p[0], 0.0), Mul(z, before), Scale(c, Mul(w, z)));
      assert At(p, n) == At(p[1..], n - 1) == c;
      assert Mul(z, Scale(c, w)) == Scale(c, Power(z, n));
    }
  }

  lemma ConstantTerm(c: real, z: Complex)
    ensures Add(ZERO, Scale(c, ONE)) == Add(Complex(c, 0.0), Mul(z, ZERO)) == Complex(c, 0.0)
  {
  }

  lemma AddAssociates(a: Complex, b: Complex, c: Complex)
    ensures Add(Add(a, b), c) == Add(a, Add(b, c))
  {
  }

  // Adding x times q, shifted by k places, adds x z^k q(z).
  lemma {:induction false} PartialShiftAdd(p: Poly, q: Poly, r: Poly, x: real, k: nat, z: Complex, n: nat)
    requires k <= n
    requires forall i :: 0 <= i < n ==> At(r, i) == At(p, i) + x * At(q, i - k)
    ensures Partial(r, z, n) == Add(Partial(p, z, n), Scale(x, Mul(Power(z, k), Partial(q, z, n - k))))
    decreases n
  {
    hide Mul, Scale, Add, At;
    if n == k {
      BelowShift(p, q, r, x, k, z, n);
      ScaledZero(x, Power(z, k), Partial(p, z, n));
    } else {
      PartialShiftAdd(p, q, r, x, k, z, n - 1);
      PowerAdds(z, k, n - 1 - k);
      assert Power(z, n - 1) == Mul(Power(z, k), Power(z, n - 1 - k));
      assert Partial(q, z, n - k) == Add(Partial(q, z, n - 1 - k), Scale(At(q, n - 1 - k), Power(z, n - 1 - k)));
      assert At(r, n - 1) == At(p, n - 1) + x * At(q, n - 1 - k);
      StepAlgebra(Partial(p, z, n - 1), At(p, n - 1), x, Power(z, k), Partial(q, z, n - 1 - k), At(q, n - 1 - k),
                  Power(z, n - 1 - k),
                  At(r, n - 1));
    }
  }

  lemma {:induction false} BelowShift(p: Poly, q: Poly, r: Poly, x: real, k: nat, z: Complex, n: nat)
    requires n <= k
    requires forall i :: 0 <= i < n ==> At(r, i) == At(p, i) + x * At(q, i - k)
    ensures Partial(r, z, n) == Partial(p, z, n)
  {
    if n > 0 {
      BelowShift(p, q, r, x, k, z, n - 1);
    }
  }

  lemma ScaledZero(x: real, a: Complex, b: Complex)
    ensures Add(b, Scale(x, Mul(a, ZERO))) == b
  {
  }

  lemma AddRegroups(a: Complex, b: Complex, c: Complex, d: Complex)
    ensures Add(Add(a, b), Add(c, d)) == Add(Add(a, c), Add(b, d))
  {
  }

  lemma ScaleDistributes(s: real, t: real, x: real, a: Complex, b: Complex, c: real)
    requires c == s + x * t
    ensures Scale(c, a) == Add(Scale(s, a), Scale(x, Scale(t, a)))
    ensures Scale(x, Add(a, b)) == Add(Scale(x, a), Scale(x, b))
  {
  }

  lemma MulDistributes(a: Complex, b: Complex, c: Complex)
    ensures Mul(a, Add(b, c)) == Add(Mul(a, b), Mul(a, c))
    ensures Mul(Add(b, c), a) == Add(Mul(b, a), Mul(c, a))
  {
  }

  // (P + x zk Q) + (s + x t) zk w == (P + s zk w) + x zk (Q + t w)
  lemma StepAlgebra(P: Complex, s: real, x: real, zk: Complex, Q: Complex, t: real, w: Complex, c: real)
    requires c == s + x * t
    ensures Add(Add(P, Scale(x, Mul(zk, Q))), Scale(c, Mul(zk, w)))
         == Add(Add(P, Scale(s, Mul(zk, w))), Scale(x, Mul(zk, Add(Q, Scale(t, w)))))
  {
    hide *;
    var m := Mul(zk, w);
    ScaleDistributes(s, t, x, m, m, c);
    AddRegroups(P, Scale(x, Mul(zk, Q)), Scale(s, m), Scale(x, Scale(t, m)));
    MulDistributes(zk, Q, Scale(t, w));
    ScaleOut(t, zk, w);
    ScaleOut(t, w, zk);
    assert Mul(zk, Scale(t, w)) == Scale(t, m);
    ScaleDistributes(s, t, x, Mul(zk, Q), Scale(t, m), c);
  }

  // --- Products ---

  // The sum over the first b coefficients of src that makes up coefficient a of the product.
  function ConvAt(dst: Poly, src: Poly, a: int, b: nat): real
    requires b <= |src|
  {
    if b == 0 then 0.0
    else ConvAt(dst, src, a, b - 1) + src[b - 1] * At(dst, a - (b - 1))
  }

  function Conv(dst: Poly, src: Poly): (p: Poly)
    requires 0 < |dst| && 0 < |src|
    ensures |p| == |dst| + |src| - 1
    ensures forall a :: 0 <= a < |p| ==> p[a] == ConvAt(dst, src, a, |src|)
  {
    seq(|dst| + |src| - 1, a requires 0 <= a => ConvAt(dst, src, a, |src|))
  }

  // The product without its last m factors' coefficients: src is only used up to b.
  function ConvUpTo(dst: Poly, src: Poly, b: nat): (p: Poly)
    requires b <= |src|
    ensures |p| == |dst| + |src|
    ensures forall a :: 0 <= a < |p| ==> p[a] == ConvAt(dst, src, a, b)
  {
    seq(|dst| + |src|, a requires 0 <= a => ConvAt(dst, src, a, b))
  }

  // Evaluation is multiplicative over convolution.
  lemma {:induction false} PartialProduct(dst: Poly, src: Poly, b: nat, z: Complex)
    requires b <= |src|
    ensures Eval(ConvUpTo(dst, src, b), z) == Mul(Eval(dst, z), Partial(src, z, b))
  {
    hide Mul, Scale, Add, At;
    var p := ConvUpTo(dst, src, b);
    var n := |dst| + |src|;
    if b == 0 {
      AllZero(p, z, n);
      MulZero(Eval(dst, z));
    } else {
      var p0 := ConvUpTo(dst, src, b - 1);
      var x, k := src[b - 1], b - 1;
      PartialProduct(dst, src, b - 1, z);
      OneMoreCoefficient(dst, src, b);
      PartialShiftAdd(p0, dst, p, x, k, z, n);
      PartialBeyondEnd(dst, z, n - k);
      LastTerm(src, b);
      ProductStep(Eval(dst, z), Partial(src, z, b - 1), x, Power(z, k));
    }
  }

  lemma LastTerm(src: Poly, b: nat)
    requires 0 < b <= |src|
    ensures At(src, b - 1) == src[b - 1]
  {
  }

  lemma OneMoreCoefficient(dst: Poly, src: Poly, b: nat)
    requires 0 < b <= |src|
    ensures forall i :: 0 <= i < |dst| + |src| ==>
              At(ConvUpTo(dst, src, b), i) == At(ConvUpTo(dst, src, b - 1), i) + src[b - 1] * At(dst, i - (b - 1))
  {
  }

  lemma {:induction false} AllZero(p: Poly, z: Complex, n: nat)
    requires forall i :: 0 <= i < |p| ==> p[i] == 0.0
    ensures Partial(p, z, n) == ZERO
  {
    if n > 0 {
      AllZero(p, z, n - 1);
    }
  }

  lemma MulZero(a: Complex)
    ensures Mul(a, ZERO) == ZERO
  {
  }

  lemma ProductStep(d: Complex, s: Complex, x: real, zk: Complex)
    ensures Add(Mul(d, s), Scale(x, Mul(zk, d))) == Mul(d, Add(s, Scale(x, zk)))
  {
    hide *;
    MulDistributes(d, s, Scale(x, zk));
    ScaleOut(x, d, zk);
    ScaleOut(x, zk, d);
    MulCommutes(zk, d);
  }

  lemma EvalOfProduct(dst: Poly, src: Poly, z: Complex)
    requires 0 < |dst| && 0 < |src|
    ensures Eval(Conv(dst, src), z) == Mul(Eval(dst, z), Eval(src, z))
  {
    var p, q := Conv(dst, src), ConvUpTo(dst, src, |src|);
    PartialProduct(dst, src, |src|, z);
    forall i | 0 <= i < |p| + 1 ensures At(p, i) == At(q, i) {
      if i == |p| {
        BeyondProduct(dst, src, i, |src|);
      }
    }
    PartialAgrees(p, q, z, |p| + 1);
    PartialBeyondEnd(p, z, |p| + 1);
  }

  lemma {:induction false} BeyondProduct(dst: Poly, src: Poly, a: int, b: nat)
    requires b <= |src| && |dst| + |src| - 1 <= a
    ensures ConvAt(dst, src, a, b) == 0.0
  {
    if b > 0 {
      BeyondProduct(dst, src, a, b - 1);
    }
  }

  // --- Scaling ---

  function ScaleAll(x: real, p: Poly): (q: Poly)
    ensures |q| == |p|
    ensures forall i :: 0 <= i < |p| ==> q[i] == p[i] * x
  {
    seq(|p|, i requires 0 <= i < |p| => p[i] * x)
  }

  lemma {:induction false} PartialScales(x: real, p: Poly, z: Complex, n: nat)
    ensures Partial(ScaleAll(x, p), z, n) == Scale(x, Partial(p, z, n))
  {
    hide Mul, Scale, Add, Power;
    if n == 0 {
      ScaledZeroIsZero(x);
    } else {
      PartialScales(x, p, z, n - 1);
      assert At(ScaleAll(x, p), n - 1) == At(p, n - 1) * x;
      ScaleStep(x, Partial(p, z, n - 1), At(p, n - 1), At(ScaleAll(x, p), n - 1), Power(z, n - 1));
    }
  }

  lemma ScaledZeroIsZero(x: real)
    ensures Scale(x, ZERO) == ZERO
  {
  }

  lemma ScaleStep(x: real, a: Complex, c: real, cx: real, w: Complex)
    requires cx == c * x
    ensures Add(Scale(x, a), Scale(cx, w)) == Scale(x, Add(a, Scale(c, w)))
  {
  }

  // The leading coefficient of a product is the product of the leading coefficients.
  lemma {:induction false} ConvAtZero(dst: Poly, src: Poly, b: nat)
    requires 0 < b <= |src| && 0 < |dst|
    ensures ConvAt(dst, src, 0, b) == dst[0] * src[0]
  {
    if b > 1 {
      ConvAtZero(dst, src, b - 1);
    }
  }
}
