/** fidlib's filter algebra: in-place convolution, evaluation, response and flattening
    (src/async/audio/fidlib.c:467-497, 568-597, 1726-1805). */
module Fidlib {
  import opened Complex
  import opened Polynomial

  // One sub-filter: 'I' for the IIR part (denominator), 'F' for the FIR part (numerator).
  datatype Section = Section(typ: char, val: Poly)

  // A list of sub-filters; in memory a sub-filter without values ends the list.
  type Filter = seq<Section>

  ghost predicate WellFormed(filt: Filter) {
    forall i :: 0 <= i < |filt| ==> 0 < |filt[i].val|
  }

  predicate Known(typ: char) {
    typ == 'I' || typ == 'F'
  }

  ghost predicate AllKnown(filt: Filter) {
    forall i :: 0 <= i < |filt| ==> Known(filt[i].typ)
  }

  // --- What a filter means ---

  // The product of all sections of one kind, evaluated at z.
  ghost function Product(filt: Filter, typ: char, z: Complex): Complex {
    if filt == [] then ONE
    else
      var last, before := filt[|filt| - 1], Product(filt[..|filt| - 1], typ, z);
      if last.typ == typ then Mul(before, Eval(last.val, z)) else before
  }

  // The response is defined where the denominator does not vanish.
  ghost predicate Defined(filt: Filter, z: Complex) {
    Norm(Product(filt, 'I', z)) != 0.0
  }

  ghost function Response(filt: Filter, z: Complex): Complex
    requires Defined(filt, z)
  {
    Div(Product(filt, 'F', z), Product(filt, 'I', z))
  }

  /** The response times the denominator is the numerator. */
  lemma ResponseIsQuotient(filt: Filter, z: Complex)
    requires Defined(filt, z)
    ensures Mul(Response(filt, z), Product(filt, 'I', z)) == Product(filt, 'F', z)
  {
    hide Mul, Div, Product;
    DivUndoesMul(Product(filt, 'F', z), Product(filt, 'I', z));
  }

  // There is no response exactly where the denominator is 0.
  lemma DefinedOffTheZeros(filt: Filter, z: Complex)
    ensures Defined(filt, z) <==> Product(filt, 'I', z) != ZERO
  {
    NormVanishes(Product(filt, 'I', z));
  }

  /** A section counts for its own kind, with the value of its polynomial, and for no other. */
  lemma ProductOfSection(s: Section, typ: char, z: Complex)
    ensures Product([], typ, z) == ONE
    ensures Product([s], typ, z) == if s.typ == typ then Eval(s.val, z) else ONE
  {
    hide Mul, Eval;
    assert [s][..0] == [];
    MulOne(Eval(s.val, z));
  }

  // --- Evaluation ---

  /** Accumulates coefficient times power, raising the power by one cmul per coefficient. */
  method Evaluate(coef: Poly, z: Complex) returns (rv: Complex)
    requires 0 < |coef|
    ensures rv == Eval(coef, z)
  {
    hide Mul, Add, Scale;
    rv := Complex(coef[0], 0.0);
    FirstTerm(coef, z);
    if |coef| > 1 {
      var pz := z;
      rv := Add(rv, Scale(coef[1], pz));
      SecondTerm(coef, z);
      var k := 2;
      while k < |coef|
        invariant 2 <= k <= |coef|
        invariant pz == Power(z, k - 1)
        invariant rv == Partial(coef, z, k)
      {
        pz := Mul(pz, z);
        rv := Add(rv, Scale(coef[k], pz));
        NextTerm(coef, z, k);
        k := k + 1;
      }
    }
  }

  lemma FirstTerm(coef: Poly, z: Complex)
    requires 0 < |coef|
    ensures Partial(coef, z, 1) == Complex(coef[0], 0.0)
  {
  }

  lemma SecondTerm(coef: Poly, z: Complex)
    requires 1 < |coef|
    ensures Power(z, 1) == z
    ensures Partial(coef, z, 2) == Add(Partial(coef, z, 1), Scale(coef[1], z))
  {
    MulOne(z);
  }

  lemma NextTerm(coef: Poly, z: Complex, k: nat)
    requires k < |coef|
    ensures Partial(coef, z, k + 1) == Add(Partial(coef, z, k), Scale(coef[k], Power(z, k)))
  {
  }

  // --- Response ---

  datatype ResponseResult = Value(value: Complex) | DivisionByZero | UnknownType

  /** The loop of fid_response and fid_response_pha, at the point z of the unit circle. */
  method FidResponse(filt: Filter, z: Complex) returns (r: ResponseResult)
    requires WellFormed(filt)
    ensures r.UnknownType? <==> exists i :: 0 <= i < |filt| && filt[i].typ != 'I' && filt[i].typ != 'F'
    ensures r.Value? ==> Defined(filt, z) && r.value == Response(filt, z)
    ensures r.Value? ==> Mul(r.value, Product(filt, 'I', z)) == Product(filt, 'F', z)
    ensures r.DivisionByZero? ==> Product(filt, 'I', z) == ZERO
  {
    hide Mul, Eval, Div, Norm;
    var top, bot := ONE, ONE;
    for i := 0 to |filt|
      invariant top == Product(filt[..i], 'F', z)
      invariant bot == Product(filt[..i], 'I', z)
      invariant forall j :: 0 <= j < i ==> Known(filt[j].typ)
    {
      assert filt[..i + 1][..i] == filt[..i];
      var resp := Evaluate(filt[i].val, z);
      if filt[i].typ == 'I' {
        bot := Mul(bot, resp);
      } else if filt[i].typ == 'F' {
        top := Mul(top, resp);
      } else {
        return UnknownType;
      }
    }
    assert filt[..|filt|] == filt;
    NormVanishes(bot);
    if Norm(bot) == 0.0 {
      return DivisionByZero;
    }
    ResponseIsQuotient(filt, z);
    return Value(Div(top, bot));
  }

  // --- Convolution in place ---

  /** Works from the top down, so that each coefficient is read for the last time before it is
      overwritten. */
  method Convolve(dst: array<real>, nDst: nat, src: Poly) returns (len: nat)
    requires 0 < nDst && 0 < |src| && nDst + |src| - 1 <= dst.Length
    modifies dst
    ensures len == nDst + |src| - 1
    ensures dst[..len] == Conv(old(dst[..nDst]), src)
    ensures dst[len..] == old(dst[len..])
  {
    hide Conv, ConvAt;
    len := nDst + |src| - 1;
    ghost var was := dst[..nDst];
    var a := len - 1;
    while a >= 0
      invariant -1 <= a < len
      invariant forall i :: 0 <= i <= a && i < nDst ==> dst[i] == was[i]
      invariant forall i :: a < i < len ==> dst[i] == ConvAt(was, src, i, |src|)
      invariant dst[len..] == old(dst[len..])
    {
      var val := ConvolveOne(dst, nDst, src, a, was);
      dst[a] := val;
      a := a - 1;
    }
    ConvIs(dst[..len], was, src);
  }

  // One coefficient, from those that have not been overwritten yet.
  method ConvolveOne(dst: array<real>, nDst: nat, src: Poly, a: nat, ghost was: Poly) returns (val: real)
    requires nDst <= dst.Length && |was| == nDst
    requires forall i :: 0 <= i <= a && i < nDst ==> dst[i] == was[i]
    ensures val == ConvAt(was, src, a, |src|)
  {
    val := 0.0;
    for b := 0 to |src|
      invariant val == ConvAt(was, src, a, b)
    {
      if a - b >= 0 && a - b < nDst {
        val := val + src[b] * dst[a - b];
      }
    }
  }

  lemma ConvIs(p: Poly, a: Poly, b: Poly)
    requires 0 < |a| && 0 < |b| && |p| == |a| + |b| - 1
    requires forall i :: 0 <= i < |p| ==> p[i] == ConvAt(a, b, i, |b|)
    ensures p == Conv(a, b)
  {
    hide ConvAt;
  }

  // --- Flattening ---

  // All sections of one kind multiplied out.
  ghost function Merged(filt: Filter, typ: char): (p: Poly)
    requires WellFormed(filt)
    ensures |p| == 1 + Extra(filt, typ)
  {
    if filt == [] then [1.0]
    else
      var last, before := filt[|filt| - 1], Merged(filt[..|filt| - 1], typ);
      if last.typ == typ then Conv(before, last.val) else before
  }

  // The degree of the product.
  ghost function Extra(filt: Filter, typ: char): nat
    requires WellFormed(filt)
  {
    if filt == [] then 0
    else
      var last, before := filt[|filt| - 1], Extra(filt[..|filt| - 1], typ);
      if last.typ == typ then before + |last.val| - 1 else before
  }

  lemma {:induction false} ExtraGrows(filt: Filter, typ: char, k: nat)
    requires WellFormed(filt) && k <= |filt|
    ensures Extra(filt[..k], typ) <= Extra(filt, typ)
  {
    if k < |filt| {
      assert filt[..|filt| - 1][..k] == filt[..k];
      ExtraGrows(filt[..|filt| - 1], typ, k);
    } else {
      assert filt[..k] == filt;
    }
  }

  lemma {:induction false} MergedMeansProduct(filt: Filter, typ: char, z: Complex)
    requires WellFormed(filt)
    ensures Eval(Merged(filt, typ), z) == Product(filt, typ, z)
  {
    hide Mul, Conv, Eval;
    if filt == [] {
      EvalOfOne(z);
    } else {
      var last, before := filt[|filt| - 1], filt[..|filt| - 1];
      MergedMeansProduct(before, typ, z);
      if last.typ == typ {
        EvalOfProduct(Merged(before, typ), last.val, z);
      }
    }
  }

  lemma EvalOfOne(z: Complex)
    ensures Eval([1.0], z) == ONE
  {
    FirstTerm([1.0], z);
  }

  // The precondition of a division in fid_flatten: no IIR section starts with 0.
  ghost predicate NonzeroLeads(filt: Filter)
    requires WellFormed(filt)
  {
    forall i :: 0 <= i < |filt| && filt[i].typ == 'I' ==> filt[i].val[0] != 0.0
  }

  lemma {:induction false} LeadIsNonzero(filt: Filter)
    requires WellFormed(filt) && NonzeroLeads(filt)
    ensures Merged(filt, 'I')[0] != 0.0
  {
    if filt != [] {
      var last, before := filt[|filt| - 1], filt[..|filt| - 1];
      LeadIsNonzero(before);
      if last.typ == 'I' {
        ConvAtZero(Merged(before, 'I'), last.val, |last.val|);
        ProductIsNonzero(Merged(before, 'I')[0], last.val[0]);
      }
    }
  }

  datatype FlattenResult = Flat(iir: Poly, fir: Poly) | BadType

  ghost function Flattened(filt: Filter): FlattenResult
    requires WellFormed(filt) && NonzeroLeads(filt)
  {
    LeadIsNonzero(filt);
    var adj := 1.0 / Merged(filt, 'I')[0];
    Flat(ScaleAll(adj, Merged(filt, 'I')), ScaleAll(adj, Merged(filt, 'F')))
  }

  // The first loop of fid_flatten: the sizes of the two output arrays.
  method MeasureSections(filt: Filter) returns (ok: bool, mFir: nat, mIir: nat)
    requires WellFormed(filt)
    ensures ok <==> AllKnown(filt)
    ensures ok ==> mFir == 1 + Extra(filt, 'F') && mIir == 1 + Extra(filt, 'I')
  {
    mFir, mIir := 1, 1;
    for i := 0 to |filt|
      invariant forall j :: 0 <= j < i ==> Known(filt[j].typ)
      invariant mFir == 1 + Extra(filt[..i], 'F') && mIir == 1 + Extra(filt[..i], 'I')
    {
      assert filt[..i + 1][..i] == filt[..i];
      if filt[i].typ == 'I' {
        mIir := mIir + |filt[i].val| - 1;
      } else if filt[i].typ == 'F' {
        mFir := mFir + |filt[i].val| - 1;
      } else {
        return false, mFir, mIir;
      }
    }
    assert filt[..|filt|] == filt;
    ok := true;
  }

  // The second loop: convolve every section into the array of its kind.
  method MergeSections(filt: Filter, iir: array<real>, fir: array<real>) returns (nIir: nat, nFir: nat)
    requires WellFormed(filt) && AllKnown(filt) && iir != fir
    requires iir.Length == 1 + Extra(filt, 'I') && fir.Length == 1 + Extra(filt, 'F')
    modifies iir, fir
    ensures nIir == iir.Length && nFir == fir.Length
    ensures iir[..] == Merged(filt, 'I') && fir[..] == Merged(filt, 'F')
  {
    hide Conv;
    iir[0] := 1.0;
    nIir := 1;
    fir[0] := 1.0;
    nFir := 1;
    for i := 0 to |filt|
      invariant nIir == 1 + Extra(filt[..i], 'I') <= iir.Length
      invariant nFir == 1 + Extra(filt[..i], 'F') <= fir.Length
      invariant iir[..nIir] == Merged(filt[..i], 'I')
      invariant fir[..nFir] == Merged(filt[..i], 'F')
    {
      assert filt[..i + 1][..i] == filt[..i];
      ExtraGrows(filt, 'I', i + 1);
      ExtraGrows(filt, 'F', i + 1);
      if filt[i].typ == 'I' {
        nIir := Convolve(iir, nIir, filt[i].val);
      } else {
        nFir := Convolve(fir, nFir, filt[i].val);
      }
    }
    assert filt[..|filt|] == filt;
  }

  method ScaleInPlace(p: array<real>, adj: real)
    modifies p
    ensures p[..] == ScaleAll(adj, old(p[..]))
  {
    ghost var scaled := ScaleAll(adj, p[..]);
    for i := 0 to p.Length
      invariant forall k :: 0 <= k < i ==> p[k] == scaled[k]
      invariant forall k :: i <= k < p.Length ==> p[k] == old(p[k])
    {
      p[i] := p[i] * adj;
    }
  }

  /** Merges all sections into one IIR/FIR pair whose first IIR coefficient is 1. */
  method FidFlatten(filt: Filter) returns (r: FlattenResult)
    requires WellFormed(filt) && NonzeroLeads(filt)
    ensures r.BadType? <==> exists i :: 0 <= i < |filt| && filt[i].typ != 'I' && filt[i].typ != 'F'
    ensures r.Flat? ==> r == Flattened(filt)
  {
    hide Conv, Merged, Extra;
    var ok, mFir, mIir := MeasureSections(filt);
    if !ok {
      return BadType;
    }
    var iir, fir := new real[mIir], new real[mFir];
    var nIir, nFir := MergeSections(filt, iir, fir);
    LeadIsNonzero(filt);
    var adj := 1.0 / iir[0];
    ScaleInPlace(iir, adj);
    ScaleInPlace(fir, adj);
    return Flat(iir[..], fir[..]);
  }

  // The flattened filter as a list of two sections.
  ghost function AsFilter(r: FlattenResult): Filter
    requires r.Flat?
  {
    [Section('I', r.iir), Section('F', r.fir)]
  }

  lemma ProductOfPair(iir: Poly, fir: Poly, z: Complex)
    ensures Product([Section('I', iir), Section('F', fir)], 'I', z) == Eval(iir, z)
    ensures Product([Section('I', iir), Section('F', fir)], 'F', z) == Eval(fir, z)
  {
    hide Mul, Eval;
    var filt, one := [Section('I', iir), Section('F', fir)], [Section('I', iir)];
    assert filt[..|filt| - 1] == one && one[..|one| - 1] == [];
    assert Product([], 'I', z) == Product([], 'F', z) == ONE;
    assert Product(one, 'I', z) == Mul(ONE, Eval(iir, z)) && Product(one, 'F', z) == ONE;
    MulOne(Eval(iir, z));
    MulOne(Eval(fir, z));
  }

  // Numerator and denominator of the flattened filter are those of the original, divided by
  // the same real number.
  lemma FlattenedProducts(filt: Filter, z: Complex)
    requires WellFormed(filt) && NonzeroLeads(filt)
    ensures Merged(filt, 'I')[0] != 0.0
    ensures var adj := 1.0 / Merged(filt, 'I')[0];
            var flat := AsFilter(Flattened(filt));
            && Product(flat, 'I', z) == Scale(adj, Product(filt, 'I', z))
            && Product(flat, 'F', z) == Scale(adj, Product(filt, 'F', z))
  {
    hide Mul, Merged, Partial, Product, Scale;
    LeadIsNonzero(filt);
    var iir, fir := Merged(filt, 'I'), Merged(filt, 'F');
    var adj := 1.0 / iir[0];
    ProductOfPair(ScaleAll(adj, iir), ScaleAll(adj, fir), z);
    PartialScales(adj, iir, z, |iir|);
    PartialScales(adj, fir, z, |fir|);
    MergedMeansProduct(filt, 'I', z);
    MergedMeansProduct(filt, 'F', z);
  }

  /** Flattening preserves the frequency response: at every complex point the flattened filter
      has a response exactly when the original has one, and it is the same; cross-multiplied,
      this holds everywhere. The first IIR coefficient is 1. */
  lemma FlatteningPreservesResponse(filt: Filter, z: Complex)
    requires WellFormed(filt) && NonzeroLeads(filt)
    ensures var flat := AsFilter(Flattened(filt));
            && flat[0].val[0] == 1.0
            && (Defined(flat, z) <==> Defined(filt, z))
            && (Defined(filt, z) ==> Response(flat, z) == Response(filt, z))
            && Mul(Product(flat, 'F', z), Product(filt, 'I', z)) == Mul(Product(flat, 'I', z), Product(filt, 'F', z))
  {
    hide Mul, Merged, Product, Scale, Norm, Div;
    LeadIsNonzero(filt);
    FlattenedProducts(filt, z);
    var adj := 1.0 / Merged(filt, 'I')[0];
    var top, bot := Product(filt, 'F', z), Product(filt, 'I', z);
    assert adj != 0.0;
    if Norm(bot) != 0.0 {
      CommonFactorCancels(adj, top, bot);
    } else {
      VanishingScales(adj, bot);
    }
    ScaleOut(adj, top, bot);
    ScaleOut(adj, bot, top);
    MulCommutes(top, bot);
  }

  lemma VanishingScales(x: real, b: Complex)
    requires Norm(b) == 0.0
    ensures Norm(Scale(x, b)) == 0.0
  {
    hide *;
    PartsScale(x, b, b);
    TimesZero(Square(x));
  }

  lemma TimesZero(x: real)
    ensures x * 0.0 == 0.0
  {
  }
}
