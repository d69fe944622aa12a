// Plane index <-> (Z, C, T) coordinates for a dimension order.  The
// library delegates both directions to FormatTools, which is not part of
// this model; they are specified here as the mixed-radix numbering whose
// fastest digit is the first of Z, C, T named after "XY" in the order.
module DimensionIndex {
  import opened Wrappers
  import MixedRadix

  datatype DimensionOrder = XYZCT | XYZTC | XYCTZ | XYCZT | XYTCZ | XYTZC

  /** A (Z, C, T) triple: a plane's coordinates, or the three sizes. */
  datatype ZCT = ZCT(z: nat, c: nat, t: nat)

  /** The triple's values, fastest-varying first, for the order. */
  function Digits(o: DimensionOrder, v: ZCT): (d: seq<nat>)
    ensures |d| == 3
  {
    match o
    case XYZCT => [v.z, v.c, v.t]
    case XYZTC => [v.z, v.t, v.c]
    case XYCTZ => [v.c, v.t, v.z]
    case XYCZT => [v.c, v.z, v.t]
    case XYTCZ => [v.t, v.c, v.z]
    case XYTZC => [v.t, v.z, v.c]
  }

  function FromDigits(o: DimensionOrder, d: seq<nat>): ZCT
    requires |d| == 3
  {
    match o
    case XYZCT => ZCT(d[0], d[1], d[2])
    case XYZTC => ZCT(d[0], d[2], d[1])
    case XYCTZ => ZCT(d[2], d[0], d[1])
    case XYCZT => ZCT(d[1], d[0], d[2])
    case XYTCZ => ZCT(d[2], d[1], d[0])
    case XYTZC => ZCT(d[1], d[2], d[0])
  }

  predicate Within(v: ZCT, sizes: ZCT)
  {
    v.z < sizes.z && v.c < sizes.c && v.t < sizes.t
  }

  function Count(sizes: ZCT): nat
  {
    sizes.z * sizes.c * sizes.t
  }

  lemma DigitsFacts(o: DimensionOrder, v: ZCT, sizes: ZCT)
    ensures FromDigits(o, Digits(o, v)) == v
    ensures MixedRadix.InRange(Digits(o, v), Digits(o, sizes)) <==> Within(v, sizes)
    ensures MixedRadix.Product(Digits(o, sizes)) == Count(sizes)
  {
    DigitsProduct(o, sizes);
  }

  lemma DigitsProduct(o: DimensionOrder, sizes: ZCT)
    ensures MixedRadix.Product(Digits(o, sizes)) == Count(sizes)
  {
    var d := Digits(o, sizes);
    ProductOfThree(d);
    var z, c, t := sizes.z, sizes.c, sizes.t;
    match o
    case XYZCT =>
    case XYZTC => assert z * (t * c) == z * c * t;
    case XYCTZ => assert c * (t * z) == z * c * t;
    case XYCZT => assert c * (z * t) == z * c * t;
    case XYTCZ => assert t * (c * z) == z * c * t;
    case XYTZC => assert t * (z * c) == z * c * t;
  }

  lemma ProductOfThree(d: seq<nat>)
    requires |d| == 3
    ensures MixedRadix.Product(d) == d[0] * (d[1] * d[2])
  {
    assert d[1..][1..][1..] == [];
    assert MixedRadix.Product(d[1..][1..]) == d[2];
  }

  lemma FromDigitsInverse(o: DimensionOrder, d: seq<nat>)
    requires |d| == 3
    ensures Digits(o, FromDigits(o, d)) == d
  {
  }

  /**
   * getIndex: the plane index of coordinates (z, c, t); coordinates
   * outside the sizes are an out_of_range error.
   */
  function GetIndex(o: DimensionOrder, sizes: ZCT, v: ZCT): (r: Result<nat>)
    ensures r.Ok? <==> Within(v, sizes)
    ensures r.Ok? ==> r.value < Count(sizes)
  {
    if !Within(v, sizes) then Err("Invalid Z, C or T index")
    else
      DigitsFacts(o, v, sizes);
      MixedRadix.EncodeBound(Digits(o, v), Digits(o, sizes));
      Ok(MixedRadix.Encode(Digits(o, v), Digits(o, sizes)))
  }

  /**
   * getZCTCoords: the coordinates of a plane index; an index at or past
   * the plane count is an out_of_range error.
   */
  function GetZCTCoords(o: DimensionOrder, sizes: ZCT, index: nat): (r: Result<ZCT>)
    ensures r.Ok? <==> index < Count(sizes)
    ensures r.Ok? ==> Within(r.value, sizes)
  {
    if index >= Count(sizes) then Err("Invalid image index")
    else
      var d := Digits(o, sizes);
      DigitsFacts(o, ZCT(0, 0, 0), sizes);
      MixedRadix.EncodeDecode(index, d);
      var v := FromDigits(o, MixedRadix.Decode(index, d));
      FromDigitsInverse(o, MixedRadix.Decode(index, d));
      DigitsFacts(o, v, sizes);
      Ok(v)
  }

  /** getZCTCoords undoes getIndex. */
  lemma {:induction false} CoordsOfIndex(o: DimensionOrder, sizes: ZCT, v: ZCT)
    requires Within(v, sizes)
    ensures GetIndex(o, sizes, v).Ok?
    ensures GetZCTCoords(o, sizes, GetIndex(o, sizes, v).value) == Ok(v)
  {
    DigitsFacts(o, v, sizes);
    MixedRadix.DecodeEncode(Digits(o, v), Digits(o, sizes));
  }

  /** getIndex undoes getZCTCoords. */
  lemma {:induction false} IndexOfCoords(o: DimensionOrder, sizes: ZCT, index: nat)
    requires index < Count(sizes)
    ensures GetZCTCoords(o, sizes, index).Ok?
    ensures GetIndex(o, sizes, GetZCTCoords(o, sizes, index).value) == Ok(index)
  {
    var d := Digits(o, sizes);
    DigitsFacts(o, ZCT(0, 0, 0), sizes);
    MixedRadix.EncodeDecode(index, d);
    FromDigitsInverse(o, MixedRadix.Decode(index, d));
  }

  /**
   * The library's own examples for XYZTC with 20 focal planes, 2
   * effective channels and 5 timepoints.
   */
  lemma {:induction false} XyztcExamples()
    ensures GetIndex(XYZTC, ZCT(20, 2, 5), ZCT(0, 0, 0)) == Ok(0)
    ensures GetIndex(XYZTC, ZCT(20, 2, 5), ZCT(1, 0, 0)) == Ok(1)
    ensures GetIndex(XYZTC, ZCT(20, 2, 5), ZCT(0, 0, 1)) == Ok(20)
    ensures GetIndex(XYZTC, ZCT(20, 2, 5), ZCT(0, 1, 0)) == Ok(100)
    ensures GetIndex(XYZTC, ZCT(20, 2, 5), ZCT(3, 1, 2)) == Ok(143)
    ensures GetIndex(XYZTC, ZCT(20, 2, 5), ZCT(19, 1, 4)) == Ok(199)
    ensures GetIndex(XYZTC, ZCT(20, 2, 5), ZCT(20, 0, 0)).Err?
    ensures GetIndex(XYZTC, ZCT(20, 2, 5), ZCT(0, 2, 0)).Err?
    ensures GetIndex(XYZTC, ZCT(20, 2, 5), ZCT(0, 0, 5)).Err?
    ensures GetZCTCoords(XYZTC, ZCT(20, 2, 5), 148) == Ok(ZCT(8, 1, 2))
    ensures GetZCTCoords(XYZTC, ZCT(20, 2, 5), 200).Err?
  {
    var s := ZCT(20, 2, 5);
    assert MixedRadix.Encode([0, 0, 0], [20, 5, 2]) == 0;
    assert MixedRadix.Encode([1, 0, 0], [20, 5, 2]) == 1;
    assert MixedRadix.Encode([0, 1, 0], [20, 5, 2]) == 20;
    assert MixedRadix.Encode([0, 0, 1], [20, 5, 2]) == 100;
    assert MixedRadix.Encode([3, 2, 1], [20, 5, 2]) == 143;
    assert MixedRadix.Encode([19, 4, 1], [20, 5, 2]) == 199;
    assert MixedRadix.Encode([8, 2, 1], [20, 5, 2]) == 148;
    assert GetIndex(XYZTC, s, ZCT(8, 1, 2)) == Ok(148);
    CoordsOfIndex(XYZTC, s, ZCT(8, 1, 2));
  }
}
