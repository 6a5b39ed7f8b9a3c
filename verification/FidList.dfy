/** Building filter lists: from an array of numbers, and by joining filters
    (src/async/audio/fidlib.c:1985-2080). */
module FidList {
  import opened Complex
  import opened Polynomial
  import opened Fidlib
  import opened Numbers

  // --- fid_cv_array ---

  datatype Decoded = Converted(filt: Filter) | BadSectionType | BadSectionLength | Overrun

  // The type of a section, if the number stands for one.
  predicate IsType(x: real) {
    Truncated(x) == 'F' as int || Truncated(x) == 'I' as int
  }

  function TypeOf(x: real): char {
    if Truncated(x) == 'F' as int then 'F' else 'I'
  }

  // What the numbers from position p on mean: sections of type, length and values, up to a 0. An
  // array without its closing 0 is read beyond its end.
  function Decode(arr: seq<real>, p: nat): (r: Decoded)
    ensures r.Converted? ==> p < |arr| && WellFormed(r.filt) && AllKnown(r.filt)
    decreases |arr| - p
  {
    if p >= |arr| then Overrun
    else if arr[p] == 0.0 then Converted([])
    else if !IsType(arr[p]) then BadSectionType
    else if p + 1 >= |arr| then Overrun
    else
      var len := Truncated(arr[p + 1]);
      if len < 1 then BadSectionLength
      else
        var rest := Decode(arr, p + 2 + len);
        if rest.Converted? then Converted([Section(TypeOf(arr[p]), arr[p + 2..p + 2 + len])] + rest.filt)
        else rest
  }

  // The number of values in all sections.
  function Values(filt: Filter): nat {
    if filt == [] then 0 else |filt[0].val| + Values(filt[1..])
  }

  // The first scan: checks everything and adds up the sizes.
  method Measure(arr: seq<real>) returns (fault: Decoded, nHead: nat, nVal: nat)
    ensures fault.Converted? <==> Decode(arr, 0).Converted?
    ensures !fault.Converted? ==> fault == Decode(arr, 0)
    ensures fault.Converted? ==> nHead == |Decode(arr, 0).filt| && nVal == Values(Decode(arr, 0).filt)
  {
    nHead, nVal := 0, 0;
    var dp: nat := 0;
    while true
      invariant !Decode(arr, dp).Converted? ==> Decode(arr, 0) == Decode(arr, dp)
      invariant Decode(arr, dp).Converted? ==>
                  && Decode(arr, 0).Converted?
                  && |Decode(arr, 0).filt| == nHead + |Decode(arr, dp).filt|
                  && Values(Decode(arr, 0).filt) == nVal + Values(Decode(arr, dp).filt)
      decreases |arr| - dp
    {
      if dp >= |arr| {
        return Overrun, nHead, nVal;
      }
      if arr[dp] == 0.0 {
        return Converted([]), nHead, nVal;
      }
      if !IsType(arr[dp]) {
        return BadSectionType, nHead, nVal;
      }
      if dp + 1 >= |arr| {
        return Overrun, nHead, nVal;
      }
      var len := Truncated(arr[dp + 1]);
      if len < 1 {
        return BadSectionLength, nHead, nVal;
      }
      OneSection(arr, dp);
      nHead := nHead + 1;
      nVal := nVal + len;
      dp := dp + 2 + len;
    }
  }

  // The first section of what is decoded.
  lemma OneSection(arr: seq<real>, p: nat)
    requires p + 1 < |arr| && arr[p] != 0.0 && IsType(arr[p]) && Truncated(arr[p + 1]) >= 1
    ensures var len := Truncated(arr[p + 1]);
            var rest := Decode(arr, p + 2 + len);
            && Decode(arr, p).Converted? == rest.Converted?
            && (!rest.Converted? ==> Decode(arr, p) == rest)
            && (rest.Converted? ==>
                  && p + 2 + len <= |arr|
                  && Decode(arr, p).filt == [Section(TypeOf(arr[p]), arr[p + 2..p + 2 + len])] + rest.filt
                  && |Decode(arr, p).filt| == 1 + |rest.filt|
                  && Values(Decode(arr, p).filt) == len + Values(rest.filt))
  {
    var len := Truncated(arr[p + 1]);
    var rest := Decode(arr, p + 2 + len);
    if rest.Converted? {
      var first := Section(TypeOf(arr[p]), arr[p + 2..p + 2 + len]);
      assert ([first] + rest.filt)[1..] == rest.filt;
    }
  }

  // What the first scan has made sure of.
  lemma SectionHere(arr: seq<real>, p: nat)
    requires Decode(arr, p).Converted?
    ensures arr[p] != 0.0 ==> p + 1 < |arr| && IsType(arr[p]) && Truncated(arr[p + 1]) >= 1
    ensures arr[p] == 0.0 ==> Decode(arr, p).filt == [] && Values([]) == 0
  {
  }

  /** Converts an array to a filter; the second scan fills exactly the room that the first measured. */
  method FidCvArray(arr: seq<real>) returns (r: Decoded)
    ensures r == Decode(arr, 0)
  {
    hide Decode, Values, IsType, Truncated, TypeOf;
    var nHead, nVal;
    r, nHead, nVal := Measure(arr);
    if !r.Converted? {
      return;
    }
    var filt: Filter := [];
    var dp: nat := 0;
    ghost var filled := 0;
    while arr[dp] != 0.0
      invariant Decode(arr, dp).Converted? && dp < |arr|
      invariant Decode(arr, 0).filt == filt + Decode(arr, dp).filt
      invariant |filt| + |Decode(arr, dp).filt| == nHead && filled + Values(Decode(arr, dp).filt) == nVal
      decreases |arr| - dp
    {
      SectionHere(arr, dp);
      OneSection(arr, dp);
      var len := Truncated(arr[dp + 1]);
      var section := Section(TypeOf(arr[dp]), arr[dp + 2..dp + 2 + len]);
      assert (filt + [section]) + Decode(arr, dp + 2 + len).filt == filt + Decode(arr, dp).filt;
      filt := filt + [section];
      filled := filled + len;
      dp := dp + 2 + len;
    }
    SectionHere(arr, dp);
    assert |filt| == nHead && filled == nVal;
    r := Converted(filt);
  }

  function Head(s: Section): seq<real> {
    [s.typ as int as real, |s.val| as real] + s.val
  }

  // The sections of a filter in an array, without the closing 0.
  function Body(filt: Filter): seq<real> {
    if filt == [] then [] else Head(filt[0]) + Body(filt[1..])
  }

  // A filter written as an array.
  function Encode(filt: Filter): seq<real> {
    Body(filt) + [0.0]
  }

  // A whole number is converted to itself.
  lemma WholeNumber(n: nat)
    ensures Truncated(n as real) == n
  {
  }

  lemma TypeSurvives(typ: char)
    requires Known(typ)
    ensures var x := typ as int as real; x != 0.0 && IsType(x) && TypeOf(x) == typ
  {
  }

  lemma ReadHead(before: seq<real>, s: Section, after: seq<real>)
    ensures var arr, p := before + Head(s) + after, |before|;
            && p + 2 + |s.val| == |before + Head(s)| <= |arr|
            && arr[p] == s.typ as int as real && arr[p + 1] == |s.val| as real
            && arr[p + 2..p + 2 + |s.val|] == s.val
  {
  }

  lemma FirstAndRest(filt: Filter)
    requires WellFormed(filt) && AllKnown(filt) && filt != []
    ensures WellFormed(filt[1..]) && AllKnown(filt[1..]) && Known(filt[0].typ) && 0 < |filt[0].val|
    ensures filt == [filt[0]] + filt[1..]
  {
  }

  lemma BodyHead(filt: Filter)
    requires filt != []
    ensures Body(filt) == Head(filt[0]) + Body(filt[1..])
  {
  }

  lemma Regroup(a: seq<real>, b: seq<real>, c: seq<real>, d: seq<real>)
    ensures a + (b + c) == a + b + c
    ensures a + (b + c) + d == (a + b) + c + d == a + b + (c + d)
  {
  }

  lemma PutInFront(s: Section, more: Filter, rest: Filter)
    ensures [s] + (more + rest) == ([s] + more) + rest
  {
  }

  // A section is decoded to itself, and what follows it to whatever it means.
  lemma HeadDecodes(before: seq<real>, s: Section, after: seq<real>)
    requires Known(s.typ) && 0 < |s.val|
    ensures var arr := before + Head(s) + after;
            var rest := Decode(arr, |before + Head(s)|);
            Decode(arr, |before|) == if rest.Converted? then Converted([s] + rest.filt) else rest
  {
    ReadHead(before, s, after);
    TypeSurvives(s.typ);
    WholeNumber(|s.val|);
    hide Decode, Head, Truncated, IsType, TypeOf, Known;
    OneSection(before + Head(s) + after, |before|);
    assert Section(s.typ, s.val) == s;
  }

  // And so are any number of sections.
  lemma {:induction false} BodyDecodes(before: seq<real>, filt: Filter, after: seq<real>)
    requires WellFormed(filt) && AllKnown(filt)
    ensures var arr := before + Body(filt) + after;
            var rest := Decode(arr, |before + Body(filt)|);
            Decode(arr, |before|) == if rest.Converted? then Converted(filt + rest.filt) else rest
    decreases |filt|
  {
    if filt == [] {
      NothingBefore(before, after);
    } else {
      var s, more := filt[0], filt[1..];
      FirstAndRest(filt);
      BodyHead(filt);
      hide *;
      Regroup(before, Head(s), Body(more), after);
      BodyDecodes(before + Head(s), more, after);
      HeadDecodes(before, s, Body(more) + after);
      var rest := Decode(before + Body(filt) + after, |before + Body(filt)|);
      if rest.Converted? {
        PutInFront(s, more, rest.filt);
      }
    }
  }

  lemma NothingBefore(before: seq<real>, after: seq<real>)
    ensures before + Body([]) == before
    ensures var d := Decode(before + after, |before|);
            d.Converted? ==> Converted([] + d.filt) == d
  {
    var d := Decode(before + after, |before|);
    assert d.Converted? ==> [] + d.filt == d.filt;
  }

  /** Every filter survives being written as an array and converted back, wherever in an array it
      stands. */
  lemma DecodeEncode(filt: Filter, before: seq<real>)
    requires WellFormed(filt) && AllKnown(filt)
    ensures Decode(before + Encode(filt), |before|) == Converted(filt)
  {
    BodyDecodes(before, filt, [0.0]);
    var arr := before + Encode(filt);
    assert arr == before + Body(filt) + [0.0];
    assert arr[|before + Body(filt)|] == 0.0;
    assert filt + [] == filt;
  }

  // --- Malformed arrays ---

  /** The first type that is neither 'I' nor 'F' is found, whatever follows it. */
  lemma BadTypeIsFound(filt: Filter, x: real, after: seq<real>)
    requires WellFormed(filt) && AllKnown(filt)
    requires x != 0.0 && Truncated(x) != 'F' as int && Truncated(x) != 'I' as int
    ensures Decode(Body(filt) + [x] + after, 0) == BadSectionType
  {
    BodyDecodes([], filt, [x] + after);
    var arr := Body(filt) + [x] + after;
    assert arr == [] + Body(filt) + ([x] + after) && [] + Body(filt) == Body(filt);
    assert arr[|Body(filt)|] == x;
  }

  /** The first length below 1 is found. */
  lemma BadLengthIsFound(filt: Filter, typ: char, len: real, after: seq<real>)
    requires WellFormed(filt) && AllKnown(filt) && (typ == 'I' || typ == 'F') && Truncated(len) < 1
    ensures Decode(Body(filt) + [typ as int as real, len] + after, 0) == BadSectionLength
  {
    BodyDecodes([], filt, [typ as int as real, len] + after);
    TypeSurvives(typ);
    var arr := Body(filt) + [typ as int as real, len] + after;
    assert arr == [] + Body(filt) + ([typ as int as real, len] + after) && [] + Body(filt) == Body(filt);
    assert arr[|Body(filt)|] == typ as int as real && arr[|Body(filt)| + 1] == len;
  }

  /** Sections alone, without the closing 0, lead beyond the end of the array. */
  lemma UnclosedOverruns(filt: Filter)
    requires WellFormed(filt) && AllKnown(filt)
    ensures Decode(Body(filt), 0) == Overrun
  {
    BodyDecodes([], filt, []);
    assert [] + Body(filt) + [] == [] + Body(filt) == Body(filt);
  }

  // --- fid_cat ---

  function Joined(filters: seq<Filter>): Filter {
    if filters == [] then [] else Joined(filters[..|filters| - 1]) + filters[|filters| - 1]
  }

  /** Filters are joined as they are, in their order. */
  lemma {:induction false} JoinedInOrder(a: seq<Filter>, b: seq<Filter>)
    ensures Joined(a + b) == Joined(a) + Joined(b)
    ensures |b| == 1 ==> Joined(b) == b[0]
    decreases |b|
  {
    if b == [] {
      assert a + b == a;
    } else {
      var init := b[..|b| - 1];
      assert (a + b)[..|a + b| - 1] == a + init;
      JoinedInOrder(a, init);
    }
  }

  lemma {:induction false} ValuesOfJoin(a: Filter, b: Filter)
    ensures Values(a + b) == Values(a) + Values(b)
  {
    if a == [] {
      assert a + b == b;
    } else {
      assert (a + b)[1..] == a[1..] + b;
      ValuesOfJoin(a[1..], b);
    }
  }

  lemma JoinOneMore(filters: seq<Filter>, i: nat)
    requires i < |filters|
    ensures Joined(filters[..i + 1]) == Joined(filters[..i]) + filters[i]
    ensures Values(Joined(filters[..i + 1])) == Values(Joined(filters[..i])) + Values(filters[i])
  {
    assert filters[..i + 1][..i] == filters[..i];
    ValuesOfJoin(Joined(filters[..i]), filters[i]);
  }

  // Walks to the end of a filter, over so many sections with so many values.
  method Extent(filt: Filter) returns (heads: nat, values: nat)
    ensures heads == |filt| && values == Values(filt)
  {
    heads, values := 0, 0;
    while heads < |filt|
      invariant heads <= |filt| && values + Values(filt[heads..]) == Values(filt)
    {
      assert filt[heads..][1..] == filt[heads + 1..];
      values := values + |filt[heads].val|;
      heads := heads + 1;
    }
  }

  // The first scan: the room for all filters.
  method MeasureAll(filters: seq<Filter>) returns (nHead: nat, nVal: nat)
    ensures nHead == |Joined(filters)| && nVal == Values(Joined(filters))
  {
    nHead, nVal := 0, 0;
    for i := 0 to |filters|
      invariant nHead == |Joined(filters[..i])| && nVal == Values(Joined(filters[..i]))
    {
      JoinOneMore(filters, i);
      var heads, values := Extent(filters[i]);
      nHead, nVal := nHead + heads, nVal + values;
    }
    assert filters[..|filters|] == filters;
  }

  // memcpy of a whole filter.
  method CopyFilter(room: array<Section>, dst: nat, filt: Filter)
    requires dst + |filt| <= room.Length
    modifies room
    ensures room[..dst + |filt|] == old(room[..dst]) + filt
  {
    for k := 0 to |filt|
      invariant room[..dst + k] == old(room[..dst]) + filt[..k]
    {
      room[dst + k] := filt[k];
      assert room[..dst + k + 1] == room[..dst + k] + [filt[k]];
    }
  }

  lemma {:induction false} PrefixFits(filters: seq<Filter>, i: nat)
    requires i <= |filters|
    ensures |Joined(filters[..i])| <= |Joined(filters)| && Values(Joined(filters[..i])) <= Values(Joined(filters))
    decreases |filters| - i
  {
    hide Joined, Values;
    if i < |filters| {
      JoinOneMore(filters, i);
      PrefixFits(filters, i + 1);
    } else {
      assert filters[..i] == filters;
    }
  }

  /** Joins filters: the second scan fills exactly the room that the first one measured. */
  method FidCat(filters: seq<Filter>) returns (r: Filter)
    ensures r == Joined(filters)
  {
    hide Joined, Values;
    var nHead, nVal := MeasureAll(filters);
    var room := new Section[nHead];
    var dst, filled := 0, 0;
    NothingJoined(filters);
    for i := 0 to |filters|
      invariant dst == |Joined(filters[..i])| <= nHead && room[..dst] == Joined(filters[..i])
      invariant filled == Values(Joined(filters[..i])) <= nVal
    {
      JoinOneMore(filters, i);
      PrefixFits(filters, i + 1);
      var heads, values := Extent(filters[i]);
      CopyFilter(room, dst, filters[i]);
      dst, filled := dst + heads, filled + values;
    }
    assert filters[..|filters|] == filters;
    assert dst == nHead && filled == nVal;
    r := room[..];
  }

  lemma NothingJoined(filters: seq<Filter>)
    ensures Joined(filters[..0]) == [] && Values([]) == 0
  {
  }

  // Joining two filters multiplies what they do.
  lemma {:induction false} ProductOfJoin(a: Filter, b: Filter, typ: char, z: Complex)
    ensures Product(a + b, typ, z) == Mul(Product(a, typ, z), Product(b, typ, z))
    decreases |b|
  {
    hide Mul, Eval;
    if b == [] {
      assert a + b == a;
      MulOne(Product(a, typ, z));
    } else {
      var init, last := b[..|b| - 1], b[|b| - 1];
      assert (a + b)[..|a + b| - 1] == a + init;
      ProductOfJoin(a, init, typ, z);
      if last.typ == typ {
        MulAssociates(Product(a, typ, z), Product(init, typ, z), Eval(last.val, z));
      }
    }
  }

  // The product over a list of filters.
  ghost function ProductOfAll(filters: seq<Filter>, typ: char, z: Complex): Complex {
    if filters == [] then ONE
    else Mul(ProductOfAll(filters[..|filters| - 1], typ, z), Product(filters[|filters| - 1], typ, z))
  }

  /** Numerator and denominator of joined filters are the products of theirs. */
  lemma {:induction false} JoinedMultiplies(filters: seq<Filter>, typ: char, z: Complex)
    ensures Product(Joined(filters), typ, z) == ProductOfAll(filters, typ, z)
  {
    hide Mul;
    if filters != [] {
      var init, last := filters[..|filters| - 1], filters[|filters| - 1];
      JoinedMultiplies(init, typ, z);
      ProductOfJoin(Joined(init), last, typ, z);
    }
  }
}
