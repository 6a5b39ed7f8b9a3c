/** Complex arithmetic over exact reals, with the formulas of fidlib's cmul and cdiv
    (src/async/audio/fidlib.c:334-340, 377-384). */
module Complex {

  datatype Complex = Complex(re: real, im: real)

  const ZERO := Complex(0.0, 0.0)
  const ONE := Complex(1.0, 0.0)

  function Add(a: Complex, b: Complex): Complex {
    Complex(a.re + b.re, a.im + b.im)
  }

  function Mul(a: Complex, b: Complex): Complex {
    Complex(a.re * b.re - a.im * b.im, a.re * b.im + a.im * b.re)
  }

  function Scale(x: real, a: Complex): Complex {
    Complex(x * a.re, x * a.im)
  }

  // The squared modulus.
  function Norm(a: Complex): real {
    a.re * a.re + a.im * a.im
  }

  function Div(a: Complex, b: Complex): Complex
    requires Norm(b) != 0.0
  {
    var rr := a.re * b.re + a.im * b.im;
    var ii := -a.re * b.im + a.im * b.re;
    var fact := 1.0 / (b.re * b.re + b.im * b.im);
    Complex(rr * fact, ii * fact)
  }

  function Power(z: Complex, n: nat): Complex {
    if n == 0 then ONE else Mul(Power(z, n - 1), z)
  }

  lemma MulOne(a: Complex)
    ensures Mul(ONE, a) == a == Mul(a, ONE)
  {
  }

  lemma MulCommutes(a: Complex, b: Complex)
    ensures Mul(a, b) == Mul(b, a)
  {
  }

  lemma MulAssociates(a: Complex, b: Complex, c: Complex)
    ensures Mul(Mul(a, b), c) == Mul(a, Mul(b, c))
  {
  }

  lemma ScaleOut(x: real, a: Complex, b: Complex)
    ensures Mul(Scale(x, a), b) == Scale(x, Mul(a, b)) == Mul(a, Scale(x, b))
  {
  }

  // With the linearity of both factors this fixes the multiplication.
  lemma ImaginaryUnit()
    ensures Mul(Complex(0.0, 1.0), Complex(0.0, 1.0)) == Complex(-1.0, 0.0)
    ensures Mul(Complex(0.0, 1.0), ONE) == Mul(ONE, Complex(0.0, 1.0)) == Complex(0.0, 1.0)
  {
  }

  lemma {:induction false} PowerAdds(z: Complex, m: nat, n: nat)
    ensures Mul(Power(z, m), Power(z, n)) == Power(z, m + n)
  {
    if n == 0 {
      MulOne(Power(z, m));
    } else {
      PowerAdds(z, m, n - 1);
      MulAssociates(Power(z, m), Power(z, n - 1), z);
    }
  }

  // Dividing undoes multiplying.
  lemma DivUndoesMul(a: Complex, b: Complex)
    requires Norm(b) != 0.0
    ensures Mul(Div(a, b), b) == a
  {
    var n := Norm(b);
    var fact := 1.0 / n;
    assert fact * n == 1.0;
    var rr := a.re * b.re + a.im * b.im;
    var ii := -a.re * b.im + a.im * b.re;
    assert rr * b.re - ii * b.im == a.re * n;
    assert rr * b.im + ii * b.re == a.im * n;
    assert (rr * fact) * b.re - (ii * fact) * b.im == fact * (rr * b.re - ii * b.im) == fact * (a.re * n) ==
           a.re * (fact * n);
    assert (rr * fact) * b.im + (ii * fact) * b.re == fact * (rr * b.im + ii * b.re) == fact * (a.im * n) ==
           a.im * (fact * n);
  }

  function Times(x: real, y: real): real {
    x * y
  }

  function Square(x: real): real {
    Times(x, x)
  }

  lemma SquareIsNonzero(x: real)
    requires x != 0.0
    ensures Square(x) != 0.0
  {
    hide Times;
    ProductIsNonzero(x, x);
  }

  lemma SquareIsPositive(x: real)
    ensures Square(x) >= 0.0 && (Square(x) == 0.0 <==> x == 0.0)
  {
    hide Times;
    if x == 0.0 {
      SquareOfZero();
    } else {
      SquareIsNonzero(x);
      SquareIsNotNegative(x);
    }
  }

  lemma SquareOfZero()
    ensures Square(0.0) == 0.0
  {
  }

  lemma SquareIsNotNegative(x: real)
    ensures Square(x) >= 0.0
  {
    if x < 0.0 {
      var y := -x;
      assert y * y >= 0.0 && x * x == y * y;
    }
  }

  lemma NormIsSquares(a: Complex)
    ensures Norm(a) == Square(a.re) + Square(a.im)
  {
  }

  // Only 0 has no inverse.
  lemma NormVanishes(a: Complex)
    ensures Norm(a) == 0.0 <==> a == Complex(0.0, 0.0)
  {
    hide *;
    NormIsSquares(a);
    SquareIsPositive(a.re);
    SquareIsPositive(a.im);
  }

  lemma ProductIsNonzero(x: real, y: real)
    requires x != 0.0 && y != 0.0
    ensures x * y != 0.0 && Times(x, y) != 0.0
  {
  }

  lemma InverseOfProduct(x: real, y: real)
    requires x != 0.0 && y != 0.0
    ensures x * y != 0.0 && 1.0 / (x * y) * x == 1.0 / y
  {
    ProductIsNonzero(x, y);
    var g := 1.0 / (x * y);
    assert g * (x * y) == 1.0;
    assert (g * x) * y == 1.0;
  }

  function Dot(a: Complex, b: Complex): real {
    a.re * b.re + a.im * b.im
  }

  function Cross(a: Complex, b: Complex): real {
    -a.re * b.im + a.im * b.re
  }

  lemma DivByParts(a: Complex, b: Complex)
    requires Norm(b) != 0.0
    ensures Div(a, b) == Complex(Dot(a, b) * (1.0 / Norm(b)), Cross(a, b) * (1.0 / Norm(b)))
  {
  }

  lemma PartsScale(x: real, a: Complex, b: Complex)
    ensures Dot(Scale(x, a), Scale(x, b)) == Square(x) * Dot(a, b)
    ensures Cross(Scale(x, a), Scale(x, b)) == Square(x) * Cross(a, b)
    ensures Norm(Scale(x, b)) == Square(x) * Norm(b)
  {
  }

  lemma FactorCancels(x: real, r: real, n: real)
    requires x != 0.0 && n != 0.0
    ensures x * n != 0.0 && (x * r) * (1.0 / (x * n)) == r * (1.0 / n)
  {
    InverseOfProduct(x, n);
    var g := 1.0 / (x * n);
    assert (x * r) * g == r * (g * x);
  }

  // A common real factor cancels out of a quotient.
  lemma CommonFactorCancels(x: real, a: Complex, b: Complex)
    requires x != 0.0 && Norm(b) != 0.0
    ensures Norm(Scale(x, b)) != 0.0
    ensures Div(Scale(x, a), Scale(x, b)) == Div(a, b)
  {
    hide *;
    SquareIsNonzero(x);
    PartsScale(x, a, b);
    FactorCancels(Square(x), Dot(a, b), Norm(b));
    FactorCancels(Square(x), Cross(a, b), Norm(b));
    DivByParts(a, b);
    DivByParts(Scale(x, a), Scale(x, b));
  }
}
