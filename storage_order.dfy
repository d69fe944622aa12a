// Storage orders of the four-dimensional pixel buffers (X, Y, Z,
// sample): which dimension varies fastest in memory, and whether each
// dimension is stored ascending.  Also the layout arithmetic that turns a
// logical coordinate into a memory offset and back.
module StorageOrders {
  import MixedRadix
  import DimensionIndex

  const DIM_SPATIAL_X: nat := 0
  const DIM_SPATIAL_Y: nat := 1
  const DIM_SPATIAL_Z: nat := 2
  const DIM_SAMPLE: nat := 3

  /** ordering[0] is the fastest-varying dimension; ascending is indexed by dimension. */
  datatype StorageOrder = StorageOrder(ordering: seq<nat>, ascending: seq<bool>)

  predicate ValidOrdering(ord: seq<nat>)
  {
    && |ord| == 4
    && (forall i :: 0 <= i < 4 ==> ord[i] < 4)
    && (forall i, j :: 0 <= i < j < 4 ==> ord[i] != ord[j])
  }

  predicate Valid(o: StorageOrder)
  {
    ValidOrdering(o.ordering) && |o.ascending| == 4
  }

  /**
   * make_storage_order: samples fastest (interleaved, chunky) or
   * slowest (planar), every dimension ascending.
   */
  function MakeStorageOrder(interleaved: bool): (o: StorageOrder)
    ensures Valid(o)
    ensures o.ascending == [true, true, true, true]
    ensures interleaved ==> o.ordering[0] == DIM_SAMPLE
    ensures !interleaved ==> o.ordering[3] == DIM_SAMPLE
    ensures o.ordering[1..] == [DIM_SPATIAL_X, DIM_SPATIAL_Y, DIM_SPATIAL_Z] ||
            o.ordering[..3] == [DIM_SPATIAL_X, DIM_SPATIAL_Y, DIM_SPATIAL_Z]
  {
    var asc := [true, true, true, true];
    if interleaved then
      StorageOrder([DIM_SAMPLE, DIM_SPATIAL_X, DIM_SPATIAL_Y, DIM_SPATIAL_Z], asc)
    else
      StorageOrder([DIM_SPATIAL_X, DIM_SPATIAL_Y, DIM_SPATIAL_Z, DIM_SAMPLE], asc)
  }

  /** The overload taking a dimension order, which it does not consult. */
  function MakeStorageOrderFor(order: DimensionIndex.DimensionOrder, interleaved: bool): (o: StorageOrder)
    ensures Valid(o)
    ensures o.ascending == [true, true, true, true]
    ensures o.ordering[0] == DIM_SAMPLE <==> interleaved
  {
    MakeStorageOrder(interleaved)
  }

  /** default_storage_order: the interleaved order, samples fastest, then X, Y and Z, all ascending. */
  function DefaultStorageOrder(): (o: StorageOrder)
    ensures Valid(o)
    ensures o.ordering == [DIM_SAMPLE, DIM_SPATIAL_X, DIM_SPATIAL_Y, DIM_SPATIAL_Z]
    ensures o.ascending == [true, true, true, true]
  {
    MakeStorageOrder(true)
  }

  /** The orders are the two documented ones, and the dimension order makes no difference. */
  lemma StorageOrderFacts(interleaved: bool, o1: DimensionIndex.DimensionOrder, o2: DimensionIndex.DimensionOrder)
    ensures MakeStorageOrder(true).ordering == [DIM_SAMPLE, DIM_SPATIAL_X, DIM_SPATIAL_Y, DIM_SPATIAL_Z]
    ensures MakeStorageOrder(false).ordering == [DIM_SPATIAL_X, DIM_SPATIAL_Y, DIM_SPATIAL_Z, DIM_SAMPLE]
    ensures MakeStorageOrderFor(o1, interleaved) == MakeStorageOrderFor(o2, interleaved)
    ensures DefaultStorageOrder() == MakeStorageOrder(true)
    ensures DefaultStorageOrder() != MakeStorageOrder(false)
  {
  }

  // ---- layout arithmetic ----

  predicate InBounds(c: seq<nat>, shape: seq<nat>)
  {
    |c| == 4 && |shape| == 4 && forall d :: 0 <= d < 4 ==> c[d] < shape[d]
  }

  /** Extent of each memory position, fastest first. */
  function Radices(o: StorageOrder, shape: seq<nat>): (r: seq<nat>)
    requires Valid(o) && |shape| == 4
    ensures |r| == 4
  {
    seq(4, j requires 0 <= j < 4 => shape[o.ordering[j]])
  }

  /** Number of elements a buffer of that shape and order holds. */
  function Size(o: StorageOrder, shape: seq<nat>): nat
    requires Valid(o) && |shape| == 4
  {
    MixedRadix.Product(Radices(o, shape))
  }

  function Flip(asc: bool, v: nat, extent: nat): nat
    requires v < extent
  {
    if asc then v else extent - 1 - v
  }

  function Digits(o: StorageOrder, shape: seq<nat>, c: seq<nat>): (d: seq<nat>)
    requires Valid(o) && InBounds(c, shape)
    ensures MixedRadix.InRange(d, Radices(o, shape))
  {
    seq(4, j requires 0 <= j < 4 =>
      var dim := o.ordering[j];
      Flip(o.ascending[dim], c[dim], shape[dim]))
  }

  /** Memory offset of a logical coordinate. */
  function Offset(o: StorageOrder, shape: seq<nat>, c: seq<nat>): (k: nat)
    requires Valid(o) && InBounds(c, shape)
    ensures k < Size(o, shape)
  {
    MixedRadix.EncodeBound(Digits(o, shape, c), Radices(o, shape));
    MixedRadix.Encode(Digits(o, shape, c), Radices(o, shape))
  }

  /** Memory position at which a dimension is stored. */
  function Position(ord: seq<nat>, dim: nat): (j: nat)
    requires ValidOrdering(ord) && dim < 4
    ensures j < 4 && ord[j] == dim
  {
    Covers(ord, dim);
    if ord[0] == dim then 0 else if ord[1] == dim then 1 else if ord[2] == dim then 2 else 3
  }

  lemma Covers(ord: seq<nat>, d: nat)
    requires ValidOrdering(ord) && d < 4
    ensures d in ord
  {
    var a, b, c, e := ord[0], ord[1], ord[2], ord[3];
    assert a != b && a != c && a != e && b != c && b != e && c != e;
    assert a < 4 && b < 4 && c < 4 && e < 4;
    if d != a && d != b && d != c && d != e {
      assert false;
    }
  }

  /** Logical coordinate of a memory offset. */
  function CoordOf(o: StorageOrder, shape: seq<nat>, k: nat): (c: seq<nat>)
    requires Valid(o) && |shape| == 4 && k < Size(o, shape)
    ensures InBounds(c, shape)
  {
    var r := Radices(o, shape);
    MixedRadix.EncodeDecode(k, r);
    var d := MixedRadix.Decode(k, r);
    seq(4, dim requires 0 <= dim < 4 =>
      var j := Position(o.ordering, dim);
      assert d[j] < r[j] == shape[dim];
      Flip(o.ascending[dim], d[j], shape[dim]))
  }

  /** Reading back the coordinate stored at a coordinate's offset gives that coordinate. */
  lemma {:induction false} CoordOfOffset(o: StorageOrder, shape: seq<nat>, c: seq<nat>)
    requires Valid(o) && InBounds(c, shape)
    ensures CoordOf(o, shape, Offset(o, shape, c)) == c
  {
    var r := Radices(o, shape);
    var d := Digits(o, shape, c);
    MixedRadix.DecodeEncode(d, r);
    var c2 := CoordOf(o, shape, Offset(o, shape, c));
    forall dim | 0 <= dim < 4 ensures c2[dim] == c[dim] {
      var j := Position(o.ordering, dim);
      assert d[j] == Flip(o.ascending[dim], c[dim], shape[dim]);
    }
  }

  /** Offsets and coordinates are in one-to-one correspondence. */
  lemma {:induction false} OffsetOfCoord(o: StorageOrder, shape: seq<nat>, k: nat)
    requires Valid(o) && |shape| == 4 && k < Size(o, shape)
    ensures Offset(o, shape, CoordOf(o, shape, k)) == k
  {
    var r := Radices(o, shape);
    MixedRadix.EncodeDecode(k, r);
    var d := MixedRadix.Decode(k, r);
    var c := CoordOf(o, shape, k);
    var d2 := Digits(o, shape, c);
    forall j | 0 <= j < 4 ensures d2[j] == d[j] {
      var dim := o.ordering[j];
      assert Position(o.ordering, dim) == j;
    }
    assert d2 == d;
  }

  /** Four-digit mixed-radix value, fastest digit first. */
  lemma {:induction false} EncodeFour(d: seq<nat>, r: seq<nat>)
    requires |d| == 4 && |r| == 4
    ensures MixedRadix.Encode(d, r) == d[0] + r[0] * (d[1] + r[1] * (d[2] + r[2] * d[3]))
    ensures MixedRadix.Product(r) == r[0] * (r[1] * (r[2] * r[3]))
  {
    var d1, r1 := d[1..], r[1..];
    var d2, r2 := d1[1..], r1[1..];
    var d3, r3 := d2[1..], r2[1..];
    assert d3[1..] == [] && r3[1..] == [];
    assert MixedRadix.Encode(d3, r3) == d[3] + r[3] * MixedRadix.Encode(d3[1..], r3[1..]);
    assert MixedRadix.Encode(d3, r3) == d[3];
    assert MixedRadix.Encode(d2, r2) == d[2] + r[2] * d[3];
    assert MixedRadix.Encode(d1, r1) == d[1] + r[1] * (d[2] + r[2] * d[3]);
    assert MixedRadix.Product(r3) == r[3] * MixedRadix.Product(r3[1..]);
    assert MixedRadix.Product(r3) == r[3];
    assert MixedRadix.Product(r2) == r[2] * r[3];
    assert MixedRadix.Product(r1) == r[1] * (r[2] * r[3]);
  }

  /** A planar buffer (x fastest, sample slowest) holds X * Y * Z * S elements. */
  lemma {:induction false} PlanarSize(shape: seq<nat>)
    requires |shape| == 4
    ensures Size(MakeStorageOrder(false), shape) == shape[0] * (shape[1] * (shape[2] * shape[3]))
  {
    var o := MakeStorageOrder(false);
    assert Radices(o, shape) == shape;
    EncodeFour(shape, shape);
  }

  /**
   * In planar order, all ascending, the element at (x, y, z, s) is at
   * x + X * (y + Y * (z + Z * s)).
   */
  lemma {:induction false} PlanarOffset(shape: seq<nat>, c: seq<nat>)
    requires InBounds(c, shape)
    ensures Offset(MakeStorageOrder(false), shape, c) == c[0] + shape[0] * (c[1] + shape[1] * (c[2] + shape[2] * c[3]))
  {
    var o := MakeStorageOrder(false);
    assert Radices(o, shape) == shape;
    assert Digits(o, shape, c) == c;
    EncodeFour(c, shape);
  }
}
