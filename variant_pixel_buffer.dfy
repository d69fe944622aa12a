// VariantPixelBuffer: a closed union over the eleven typed pixel buffers.
// The active alternative is `tag`; the held buffer may be null.  A typed
// buffer is shared between shallow copies, so it is an object of its own
// (class PixelBuffer) and the variant holds a reference to it.  Elements
// are abstract values kept in MEMORY order; their logical position
// (x, y, z, sample) is given by the storage order.
module VariantPixelBuffers {
  import opened Wrappers
  import opened PixelTypes
  import opened StorageOrders
  import MixedRadix

  datatype EndianType = BigEndian | LittleEndian | NativeEndian

  // ---- value-level layout operations ----

  predicate WellFormed(order: StorageOrder, shape: seq<nat>, elems: seq<int>)
  {
    |shape| == 4 && StorageOrders.Valid(order) && |elems| == Size(order, shape)
  }

  /** The element at a logical coordinate. */
  function ValueAt(order: StorageOrder, shape: seq<nat>, elems: seq<int>, c: seq<nat>): int
    requires WellFormed(order, shape, elems) && InBounds(c, shape)
  {
    elems[Offset(order, shape, c)]
  }

  /** The same logical contents laid out in another storage order. */
  function Relayout(order: StorageOrder, shape: seq<nat>, elems: seq<int>, target: StorageOrder): (r: seq<int>)
    requires WellFormed(order, shape, elems) && StorageOrders.Valid(target)
    ensures WellFormed(target, shape, r)
  {
    seq(Size(target, shape), k requires 0 <= k < Size(target, shape) =>
      ValueAt(order, shape, elems, CoordOf(target, shape, k)))
  }

  lemma {:induction false} RelayoutAt(order: StorageOrder, shape: seq<nat>, elems: seq<int>, target: StorageOrder, c: seq<nat>)
    requires WellFormed(order, shape, elems) && StorageOrders.Valid(target) && InBounds(c, shape)
    ensures ValueAt(target, shape, Relayout(order, shape, elems, target), c) == ValueAt(order, shape, elems, c)
  {
    CoordOfOffset(target, shape, c);
  }

  function WithSample(c: seq<nat>, s: nat): (r: seq<nat>)
    requires |c| == 4
    ensures |r| == 4 && r[..3] == c[..3] && r[3] == s
  {
    c[..3] + [s]
  }

  /** One sample plane of a buffer, as a buffer of sample extent 1 in the given order. */
  function SampleSlice(order: StorageOrder, shape: seq<nat>, elems: seq<int>, sample: nat, target: StorageOrder): (r: seq<int>)
    requires WellFormed(order, shape, elems) && StorageOrders.Valid(target) && sample < shape[DIM_SAMPLE]
    ensures WellFormed(target, WithSample(shape, 1), r)
  {
    var sliceShape := WithSample(shape, 1);
    seq(Size(target, sliceShape), k requires 0 <= k < Size(target, sliceShape) =>
      ValueAt(order, shape, elems, WithSample(CoordOf(target, sliceShape, k), sample)))
  }

  lemma {:induction false} SampleSliceAt(order: StorageOrder, shape: seq<nat>, elems: seq<int>, sample: nat, target: StorageOrder, c: seq<nat>)
    requires WellFormed(order, shape, elems) && StorageOrders.Valid(target) && sample < shape[DIM_SAMPLE]
    requires InBounds(c, WithSample(shape, 1))
    ensures InBounds(WithSample(c, sample), shape)
    ensures ValueAt(target, WithSample(shape, 1), SampleSlice(order, shape, elems, sample, target), c)
         == ValueAt(order, shape, elems, WithSample(c, sample))
  {
    var sliceShape := WithSample(shape, 1);
    assert forall d :: 0 <= d < 3 ==> sliceShape[d] == sliceShape[..3][d] == shape[..3][d] == shape[d];
    assert forall d :: 0 <= d < 3 ==> WithSample(c, sample)[d] == c[..3][d] == c[d];
    CoordOfOffset(target, sliceShape, c);
  }

  /** A buffer with one sample plane overwritten by a buffer of sample extent 1. */
  function MergeSlice(order: StorageOrder, shape: seq<nat>, elems: seq<int>, sample: nat,
                      srcOrder: StorageOrder, srcElems: seq<int>): (r: seq<int>)
    requires WellFormed(order, shape, elems) && sample < shape[DIM_SAMPLE]
    requires WellFormed(srcOrder, WithSample(shape, 1), srcElems)
    ensures WellFormed(order, shape, r)
  {
    seq(|elems|, k requires 0 <= k < |elems| =>
      var c := CoordOf(order, shape, k);
      if c[DIM_SAMPLE] == sample then ValueAt(srcOrder, WithSample(shape, 1), srcElems, WithSample(c, 0))
      else elems[k])
  }

  lemma {:induction false} MergeSliceAt(order: StorageOrder, shape: seq<nat>, elems: seq<int>, sample: nat,
                                        srcOrder: StorageOrder, srcElems: seq<int>, c: seq<nat>)
    requires WellFormed(order, shape, elems) && sample < shape[DIM_SAMPLE]
    requires WellFormed(srcOrder, WithSample(shape, 1), srcElems)
    requires InBounds(c, shape)
    ensures InBounds(WithSample(c, 0), WithSample(shape, 1))
    ensures ValueAt(order, shape, MergeSlice(order, shape, elems, sample, srcOrder, srcElems), c)
         == if c[DIM_SAMPLE] == sample then ValueAt(srcOrder, WithSample(shape, 1), srcElems, WithSample(c, 0))
            else ValueAt(order, shape, elems, c)
  {
    var sliceShape := WithSample(shape, 1);
    assert forall d :: 0 <= d < 3 ==> sliceShape[d] == sliceShape[..3][d] == shape[..3][d] == shape[d];
    assert forall d :: 0 <= d < 3 ==> WithSample(c, 0)[d] == c[..3][d] == c[d];
    CoordOfOffset(order, shape, c);
  }

  /** Logical equality of two laid-out buffers: same shape, same element at every coordinate. */
  ghost predicate SameContents(o1: StorageOrder, s1: seq<nat>, e1: seq<int>, o2: StorageOrder, s2: seq<nat>, e2: seq<int>)
    requires WellFormed(o1, s1, e1) && WellFormed(o2, s2, e2)
  {
    s1 == s2 && forall c :: InBounds(c, s1) ==> ValueAt(o1, s1, e1, c) == ValueAt(o2, s2, e2, c)
  }

  function Zeros(n: nat): (r: seq<int>)
    ensures |r| == n && forall i :: 0 <= i < n ==> r[i] == 0
  {
    seq(n, _ => 0)
  }

  /** Memory distance between neighbours along each dimension (negative when stored descending). */
  function Strides(order: StorageOrder, shape: seq<nat>): (r: seq<int>)
    requires StorageOrders.Valid(order) && |shape| == 4
    ensures |r| == 4
    ensures r[order.ordering[0]] == if order.ascending[order.ordering[0]] then 1 else -1
  {
    var radices := Radices(order, shape);
    assert radices[..0] == [];
    seq(4, d requires 0 <= d < 4 =>
      var stride: int := MixedRadix.Product(radices[..Position(order.ordering, d)]);
      if order.ascending[d] then stride else -stride)
  }

  /** The coordinate one step further along dimension d. */
  function Step(c: seq<nat>, d: nat): (r: seq<nat>)
    requires |c| == 4 && d < 4
    ensures |r| == 4 && r[d] == c[d] + 1 && forall e :: 0 <= e < 4 && e != d ==> r[e] == c[e]
  {
    c[d := c[d] + 1]
  }

  /** One step along dimension d moves the memory offset by exactly the stride of d. */
  lemma StrideStep(order: StorageOrder, shape: seq<nat>, c: seq<nat>, d: nat)
    requires StorageOrders.Valid(order) && InBounds(c, shape) && d < 4 && c[d] + 1 < shape[d]
    ensures InBounds(Step(c, d), shape)
    ensures Offset(order, shape, Step(c, d)) == Offset(order, shape, c) + Strides(order, shape)[d]
  {
    var c' := Step(c, d);
    var j := Position(order.ordering, d);
    var r := Radices(order, shape);
    var lo, hi := Digits(order, shape, c), Digits(order, shape, c');
    forall i | 0 <= i < 4 && i != j ensures hi[i] == lo[i] {
      assert order.ordering[i] != d;
    }
    if order.ascending[d] {
      assert hi == lo[j := lo[j] + 1];
      MixedRadix.EncodeStep(lo, r, j);
    } else {
      assert lo == hi[j := hi[j] + 1];
      MixedRadix.EncodeStep(hi, r, j);
    }
  }

  // ---- the typed buffer (PixelBuffer<T>) ----

  class PixelBuffer {
    var pixelType: PixelType
    var shape: seq<nat>
    var order: StorageOrder
    var endian: EndianType
    var managed: bool
    var elems: seq<int>

    ghost predicate Valid()
      reads this
    {
      WellFormed(order, shape, elems)
    }

    function At(c: seq<nat>): int
      reads this
      requires Valid() && InBounds(c, shape)
    {
      ValueAt(order, shape, elems, c)
    }

    /** An internally managed buffer of the given extents, value-initialised. */
    constructor (extents: seq<nat>, pt: PixelType, storage: StorageOrder)
      requires |extents| == 4 && StorageOrders.Valid(storage)
      ensures Valid() && pixelType == pt && shape == extents && order == storage
      ensures endian == NativeEndian && managed && elems == Zeros(Size(storage, extents))
    {
      pixelType := pt;
      shape := extents;
      order := storage;
      endian := NativeEndian;
      managed := true;
      elems := Zeros(Size(storage, extents));
    }
  }

  // ---- the variant ----

  class VariantPixelBuffer {
    /** Which of the eleven alternatives is active. */
    var tag: PixelType
    /** The held buffer; null when the alternative holds a null pointer. */
    var buffer: PixelBuffer?

    ghost predicate Valid()
      reads this, buffer
    {
      buffer != null ==> buffer.Valid() && buffer.pixelType == tag
    }

    /** The default buffer: 1x1x1x1 UINT8 in the default storage order. */
    constructor Default()
      ensures Valid() && buffer != null && fresh(buffer)
      ensures tag == UINT8 && buffer.shape == [1, 1, 1, 1] && buffer.order == DefaultStorageOrder()
    {
      tag := UINT8;
      buffer := new PixelBuffer([1, 1, 1, 1], UINT8, DefaultStorageOrder());
    }

    /** Construction from extents, pixel type and storage order. */
    constructor FromExtents(extents: seq<nat>, pt: PixelType, storage: StorageOrder)
      requires |extents| == 4 && StorageOrders.Valid(storage)
      ensures Valid() && buffer != null && fresh(buffer)
      ensures tag == pt && buffer.shape == extents && buffer.order == storage
      ensures buffer.elems == Zeros(Size(storage, extents))
    {
      tag := pt;
      buffer := new PixelBuffer(extents, pt, storage);
    }

    /** The copy constructor is shallow: the copy holds the very same typed buffer. */
    constructor Copy(other: VariantPixelBuffer)
      requires other.Valid()
      ensures Valid() && tag == other.tag && buffer == other.buffer
    {
      tag := other.tag;
      buffer := other.buffer;
    }

    /** Construction around an existing typed buffer (or a null one of that type). */
    constructor Adopt(pt: PixelType, existing: PixelBuffer?)
      requires existing != null ==> existing.Valid() && existing.pixelType == pt
      ensures Valid() && tag == pt && buffer == existing
    {
      tag := pt;
      buffer := existing;
    }

    /** setBuffer/createBuffer: a new buffer of exactly that type, extents and order; old contents are dropped. */
    method SetBuffer(extents: seq<nat>, pt: PixelType, storage: StorageOrder)
      requires |extents| == 4 && StorageOrders.Valid(storage)
      modifies this
      ensures Valid() && buffer != null && fresh(buffer)
      ensures tag == pt && buffer.pixelType == pt && buffer.shape == extents && buffer.order == storage
      ensures buffer.elems == Zeros(Size(storage, extents))
    {
      tag := pt;
      buffer := new PixelBuffer(extents, pt, storage);
    }

    // -- introspection: each fails with "Null pixel type" on a null buffer --

    function GetPixelType(): (r: Result<PixelType>)
      reads this, buffer
      requires Valid()
      ensures r.Err? <==> buffer == null
      ensures r.Ok? ==> r.value == tag
    {
      if buffer == null then Err("Null pixel type") else Ok(buffer.pixelType)
    }

    function GetShape(): (r: Result<seq<nat>>)
      reads this, buffer
      ensures r.Err? <==> buffer == null
      ensures r.Ok? ==> r.value == buffer.shape
    {
      if buffer == null then Err("Null pixel type") else Ok(buffer.shape)
    }

    function NumElements(): (r: Result<nat>)
      reads this, buffer
      requires Valid()
      ensures r.Err? <==> buffer == null
      ensures r.Ok? ==> r.value == |buffer.elems| == Size(buffer.order, buffer.shape)
    {
      if buffer == null then Err("Null pixel type") else Ok(|buffer.elems|)
    }

    function NumDimensions(): (r: Result<nat>)
      reads this, buffer
      requires Valid()
      ensures r.Err? <==> buffer == null
      ensures r.Ok? ==> r.value == |buffer.shape|
    {
      if buffer == null then Err("Null pixel type") else Ok(4)
    }

    function GetStrides(): (r: Result<seq<int>>)
      reads this, buffer
      requires Valid()
      ensures r.Err? <==> buffer == null
      ensures r.Ok? ==> |r.value| == 4
      ensures r.Ok? ==> forall c, d :: InBounds(c, buffer.shape) && 0 <= d < 4 && c[d] + 1 < buffer.shape[d] ==>
                InBounds(Step(c, d), buffer.shape) &&
                Offset(buffer.order, buffer.shape, Step(c, d)) == Offset(buffer.order, buffer.shape, c) + r.value[d]
      ensures r.Ok? ==> r.value[buffer.order.ordering[0]] == if buffer.order.ascending[buffer.order.ordering[0]] then 1 else -1
    {
      if buffer == null then Err("Null pixel type")
      else
        assert forall c, d :: InBounds(c, buffer.shape) && 0 <= d < 4 && c[d] + 1 < buffer.shape[d] ==>
                 InBounds(Step(c, d), buffer.shape) &&
                 Offset(buffer.order, buffer.shape, Step(c, d)) == Offset(buffer.order, buffer.shape, c) + Strides(buffer.order, buffer.shape)[d] by {
          forall c, d | InBounds(c, buffer.shape) && 0 <= d < 4 && c[d] + 1 < buffer.shape[d]
            ensures InBounds(Step(c, d), buffer.shape) &&
                    Offset(buffer.order, buffer.shape, Step(c, d)) == Offset(buffer.order, buffer.shape, c) + Strides(buffer.order, buffer.shape)[d]
          {
            StrideStep(buffer.order, buffer.shape, c, d);
          }
        }
        Ok(Strides(buffer.order, buffer.shape))
    }

    function GetIndexBases(): (r: Result<seq<int>>)
      reads this, buffer
      ensures r.Err? <==> buffer == null
      ensures r.Ok? ==> r.value == [0, 0, 0, 0]
    {
      if buffer == null then Err("Null pixel type") else Ok([0, 0, 0, 0])
    }

    function GetStorageOrder(): (r: Result<StorageOrder>)
      reads this, buffer
      ensures r.Err? <==> buffer == null
      ensures r.Ok? ==> r.value == buffer.order
    {
      if buffer == null then Err("Null pixel type") else Ok(buffer.order)
    }

    function GetEndianType(): (r: Result<EndianType>)
      reads this, buffer
      ensures r.Err? <==> buffer == null
      ensures r.Ok? ==> r.value == buffer.endian
    {
      if buffer == null then Err("Null pixel type") else Ok(buffer.endian)
    }

    /** valid(): a held buffer is always allocated, since every buffer here holds its elements. */
    function IsValid(): (r: Result<bool>)
      reads this, buffer
      ensures r.Err? <==> buffer == null
      ensures r.Err? ==> r.error == "Null pixel type"
      ensures r.Ok? ==> r.value
    {
      if buffer == null then Err("Null pixel type") else Ok(true)
    }

    function IsManaged(): (r: Result<bool>)
      reads this, buffer
      ensures r.Err? <==> buffer == null
      ensures r.Ok? ==> r.value == buffer.managed
    {
      if buffer == null then Err("Null pixel type") else Ok(buffer.managed)
    }

    // -- typed access --

    /**
     * array<T>(): the typed buffer, when T is the active alternative; the
     * type is checked before the pointer.
     */
    function Array(requested: PixelType): (r: Result<PixelBuffer?>)
      reads this
      ensures r.Ok? <==> requested == tag && buffer != null
      ensures r.Ok? ==> r.value == buffer
      ensures requested != tag ==> r == Err("Unsupported pixel type conversion for buffer")
      ensures requested == tag && buffer == null ==> r == Err("Null pixel type")
    {
      if requested != tag then Err("Unsupported pixel type conversion for buffer")
      else if buffer == null then Err("Null pixel type")
      else Ok(buffer)
    }

    /** data<T>(): the elements in memory order. */
    function Data(requested: PixelType): (r: Result<seq<int>>)
      reads this, buffer
      ensures r.Ok? <==> requested == tag && buffer != null
      ensures r.Ok? ==> r.value == buffer.elems
    {
      match Array(requested)
      case Err(e) => Err(e)
      case Ok(b) => Ok(b.elems)
    }

    /** origin<T>(): memory offset of the element at index (0, 0, 0, 0). */
    function Origin(requested: PixelType): (r: Result<nat>)
      reads this, buffer
      requires Valid()
      ensures r.Ok? <==> requested == tag && buffer != null
      ensures r.Ok? && InBounds([0, 0, 0, 0], buffer.shape) ==>
        r.value == Offset(buffer.order, buffer.shape, [0, 0, 0, 0])
    {
      match Array(requested)
      case Err(e) => Err(e)
      case Ok(b) =>
        if InBounds([0, 0, 0, 0], b.shape) then Ok(Offset(b.order, b.shape, [0, 0, 0, 0])) else Ok(0)
    }

    /**
     * assign(begin, end): fill the buffer in memory order from a range
     * whose element type must be the active one.
     */
    method Assign(elementType: PixelType, values: seq<int>) returns (r: Result<Unit>)
      requires Valid()
      requires elementType == tag && buffer != null ==> |values| == |buffer.elems|
      modifies buffer
      ensures Valid()
      ensures elementType != tag ==> r == Err("Unsupported pixel type conversion for assignment")
      ensures elementType == tag && buffer == null ==> r == Err("Null pixel type")
      ensures r.Ok? <==> elementType == tag && buffer != null
      ensures r.Ok? ==> buffer.elems == values
      ensures r.Err? && buffer != null ==> buffer.elems == old(buffer.elems)
      ensures buffer != null ==> buffer.shape == old(buffer.shape) && buffer.order == old(buffer.order)
    {
      if elementType != tag {
        return Err("Unsupported pixel type conversion for assignment");
      }
      if buffer == null {
        return Err("Null pixel type");
      }
      buffer.elems := values;
      r := Ok(Unit);
    }

    /** read(stream): the buffer's element count of values, taken in memory order. */
    method Read(stream: seq<int>) returns (r: Result<Unit>)
      requires Valid()
      requires buffer != null ==> |stream| >= |buffer.elems|
      modifies buffer
      ensures Valid()
      ensures r.Err? <==> buffer == null
      ensures buffer != null ==> buffer.elems == stream[..|old(buffer.elems)|]
      ensures buffer != null ==> buffer.shape == old(buffer.shape) && buffer.order == old(buffer.order)
    {
      if buffer == null {
        return Err("Null pixel type");
      }
      buffer.elems := stream[..|buffer.elems|];
      r := Ok(Unit);
    }

    /** write(stream): the elements in memory order. */
    function Write(): (r: Result<seq<int>>)
      reads this, buffer
      requires Valid()
      ensures r.Err? <==> buffer == null
      ensures r.Ok? ==> |r.value| == Size(buffer.order, buffer.shape)
      ensures r.Ok? ==> forall c :: InBounds(c, buffer.shape) ==>
        r.value[Offset(buffer.order, buffer.shape, c)] == buffer.At(c)
    {
      if buffer == null then Err("Null pixel type") else Ok(buffer.elems)
    }

    /**
     * operator==: same alternative, both held, same shape, and the other
     * buffer's elements, brought into this buffer's storage order, equal
     * this buffer's elements.
     */
    predicate Equals(other: VariantPixelBuffer)
      reads this, buffer, other, other.buffer
      requires Valid() && other.Valid()
      ensures Equals(other) <==>
                && tag == other.tag && buffer != null && other.buffer != null
                && SameContents(buffer.order, buffer.shape, buffer.elems, other.buffer.order, other.buffer.shape, other.buffer.elems)
    {
      && tag == other.tag
      && buffer != null && other.buffer != null
      && buffer.shape == other.buffer.shape
      && (RelayoutEqualIff(buffer.order, buffer.elems, other.buffer.order, buffer.shape, other.buffer.elems);
          Relayout(other.buffer.order, other.buffer.shape, other.buffer.elems, buffer.order) == buffer.elems)
    }

    /** operator!=: the negation of operator==, so buffers differ exactly when their type, shape or some logical element does. */
    predicate NotEquals(other: VariantPixelBuffer)
      reads this, buffer, other, other.buffer
      requires Valid() && other.Valid()
      ensures NotEquals(other) <==>
                || tag != other.tag || buffer == null || other.buffer == null
                || !SameContents(buffer.order, buffer.shape, buffer.elems, other.buffer.order, other.buffer.shape, other.buffer.elems)
    {
      !Equals(other)
    }

    /**
     * operator=: copies the logical contents of a buffer of the same
     * type and shape into this buffer, which keeps its own storage order.
     */
    method AssignFrom(rhs: VariantPixelBuffer) returns (r: Result<Unit>)
      requires Valid() && rhs.Valid()
      requires tag == rhs.tag ==> buffer != null && rhs.buffer != null
      modifies buffer
      ensures Valid() && rhs.Valid()
      ensures tag != rhs.tag ==> r == Err("Unsupported pixel type conversion for assignment")
      ensures tag == rhs.tag && old(buffer.shape) != old(rhs.buffer.shape) ==>
        r == Err("Buffer dimensions incompatible for assignment")
      ensures r.Ok? <==> tag == rhs.tag && old(buffer.shape) == old(rhs.buffer.shape)
      ensures r.Ok? ==> Equals(rhs)
      ensures buffer != null ==> buffer.shape == old(buffer.shape) && buffer.order == old(buffer.order)
      ensures r.Err? && buffer != null ==> buffer.elems == old(buffer.elems)
    {
      if tag != rhs.tag {
        return Err("Unsupported pixel type conversion for assignment");
      }
      if buffer.shape != rhs.buffer.shape {
        return Err("Buffer dimensions incompatible for assignment");
      }
      var src := rhs.buffer;
      var newElems := Relayout(src.order, src.shape, src.elems, buffer.order);
      if src == buffer {
        // Self-assignment through a shallow copy: the relayout is the identity.
        RelayoutIdentity(buffer.order, buffer.shape, buffer.elems);
      }
      buffer.elems := newElems;
      r := Ok(Unit);
    }

    /**
     * CopySampleVisitor applied to this buffer: dest becomes a new planar
     * buffer of this buffer's type and shape with one sample, holding
     * sample `sample` of this buffer.
     */
    method CopySampleTo(dest: VariantPixelBuffer, sample: nat)
      requires Valid() && dest != this && buffer != null
      requires sample < buffer.shape[DIM_SAMPLE]
      modifies dest
      ensures dest.Valid() && dest.buffer != null && fresh(dest.buffer)
      ensures dest.tag == tag && dest.buffer.pixelType == tag
      ensures dest.buffer.shape == WithSample(buffer.shape, 1)
      ensures dest.buffer.order == MakeStorageOrder(false)
      ensures forall c :: InBounds(c, dest.buffer.shape) ==>
        InBounds(WithSample(c, sample), buffer.shape) && dest.buffer.At(c) == buffer.At(WithSample(c, sample))
    {
      var planar := MakeStorageOrder(false);
      var sliceShape := WithSample(buffer.shape, 1);
      dest.SetBuffer(sliceShape, buffer.pixelType, planar);
      dest.buffer.elems := SampleSlice(buffer.order, buffer.shape, buffer.elems, sample, planar);
      forall c | InBounds(c, sliceShape)
        ensures InBounds(WithSample(c, sample), buffer.shape) && dest.buffer.At(c) == buffer.At(WithSample(c, sample))
      {
        SampleSliceAt(buffer.order, buffer.shape, buffer.elems, sample, planar, c);
      }
    }

    /**
     * MergeSampleVisitor applied to this buffer: sample `sample` of dest
     * is overwritten with this single-sample buffer; other samples of dest
     * are unchanged.  A dest of another alternative is an error.
     */
    method MergeSampleInto(dest: VariantPixelBuffer, sample: nat) returns (r: Result<Unit>)
      requires Valid() && dest.Valid() && buffer != null
      requires dest.tag == tag ==> dest.buffer != null && sample < dest.buffer.shape[DIM_SAMPLE]
      requires dest.tag == tag ==> buffer.shape == WithSample(dest.buffer.shape, 1)
      modifies dest.buffer
      ensures Valid() && dest.Valid()
      ensures r.Ok? <==> dest.tag == tag
      ensures r.Err? && dest.buffer != null ==> dest.buffer.elems == old(dest.buffer.elems)
      ensures dest.buffer != null ==> dest.buffer.shape == old(dest.buffer.shape) && dest.buffer.order == old(dest.buffer.order)
      ensures r.Ok? ==> forall c :: InBounds(c, dest.buffer.shape) ==>
        InBounds(WithSample(c, 0), old(buffer.shape)) &&
        dest.buffer.At(c) == if c[DIM_SAMPLE] == sample
                             then ValueAt(old(buffer.order), old(buffer.shape), old(buffer.elems), WithSample(c, 0))
                             else old(ValueAt(dest.buffer.order, dest.buffer.shape, dest.buffer.elems, c))
    {
      if dest.tag != tag {
        return Err("bad variant access");
      }
      var d := dest.buffer;
      ghost var dElems, srcOrder, srcShape, srcElems := d.elems, buffer.order, buffer.shape, buffer.elems;
      d.elems := MergeSlice(d.order, d.shape, d.elems, sample, buffer.order, buffer.elems);
      forall c | InBounds(c, d.shape)
        ensures InBounds(WithSample(c, 0), srcShape) &&
          d.At(c) == if c[DIM_SAMPLE] == sample
                     then ValueAt(srcOrder, srcShape, srcElems, WithSample(c, 0))
                     else ValueAt(d.order, d.shape, dElems, c)
      {
        MergeSliceAt(d.order, d.shape, dElems, sample, srcOrder, srcElems, c);
      }
      r := Ok(Unit);
    }
  }

  /** Relayout into the order a buffer already has changes nothing. */
  lemma {:induction false} RelayoutIdentity(order: StorageOrder, shape: seq<nat>, elems: seq<int>)
    requires WellFormed(order, shape, elems)
    ensures Relayout(order, shape, elems, order) == elems
  {
    var r := Relayout(order, shape, elems, order);
    forall k | 0 <= k < |elems|
      ensures r[k] == elems[k]
    {
      OffsetOfCoord(order, shape, k);
    }
  }

  /** Comparing after relayout is exactly logical equality, whatever the two storage orders. */
  lemma {:induction false} RelayoutEqualIff(o1: StorageOrder, e1: seq<int>, o2: StorageOrder, shape: seq<nat>, e2: seq<int>)
    requires WellFormed(o1, shape, e1) && WellFormed(o2, shape, e2)
    ensures Relayout(o2, shape, e2, o1) == e1 <==> SameContents(o1, shape, e1, o2, shape, e2)
  {
    var r := Relayout(o2, shape, e2, o1);
    if r == e1 {
      forall c | InBounds(c, shape)
        ensures ValueAt(o1, shape, e1, c) == ValueAt(o2, shape, e2, c)
      {
        RelayoutAt(o2, shape, e2, o1, c);
      }
    }
    if SameContents(o1, shape, e1, o2, shape, e2) {
      forall k | 0 <= k < |e1|
        ensures r[k] == e1[k]
      {
        var c := CoordOf(o1, shape, k);
        OffsetOfCoord(o1, shape, k);
      }
    }
  }

  /** Equality needs both buffers held; it is reflexive on held buffers and symmetric. */
  lemma EqualsFacts(a: VariantPixelBuffer, b: VariantPixelBuffer)
    requires a.Valid() && b.Valid()
    ensures a.tag != b.tag ==> !a.Equals(b)
    ensures a.buffer == null || b.buffer == null ==> !a.Equals(b)
    ensures a.buffer != null ==> a.Equals(a)
    ensures a.Equals(b) <==> b.Equals(a)
    ensures a.Equals(b) <==>
      (a.tag == b.tag && a.buffer != null && b.buffer != null &&
       SameContents(a.buffer.order, a.buffer.shape, a.buffer.elems, b.buffer.order, b.buffer.shape, b.buffer.elems))
  {
    if a.buffer != null {
      RelayoutEqualIff(a.buffer.order, a.buffer.elems, a.buffer.order, a.buffer.shape, a.buffer.elems);
    }
    if a.buffer != null && b.buffer != null && a.buffer.shape == b.buffer.shape {
      RelayoutEqualIff(a.buffer.order, a.buffer.elems, b.buffer.order, a.buffer.shape, b.buffer.elems);
      RelayoutEqualIff(b.buffer.order, b.buffer.elems, a.buffer.order, a.buffer.shape, a.buffer.elems);
    }
  }

  /** Logical equality ignores the storage order: a planar and a chunky copy of one buffer are equal. */
  lemma {:induction false} RelayoutIsEqual(order: StorageOrder, shape: seq<nat>, elems: seq<int>, target: StorageOrder)
    requires WellFormed(order, shape, elems) && StorageOrders.Valid(target)
    ensures SameContents(target, shape, Relayout(order, shape, elems, target), order, shape, elems)
  {
    forall c | InBounds(c, shape)
      ensures ValueAt(target, shape, Relayout(order, shape, elems, target), c) == ValueAt(order, shape, elems, c)
    {
      RelayoutAt(order, shape, elems, target, c);
    }
  }
}
