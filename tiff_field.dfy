// Typed access to the tags of one TIFF directory: the libtiff field
// description a field handle caches, its name and counts, and the count
// arithmetic and size checks of the generic array getters and setters.
// libtiff's own tag storage is modelled by what it receives (the count
// argument and the array pointers of a set) and what it hands back (the
// stored arrays of a get).
module TiffFields {
  import opened Wrappers
  import opened Decimals
  import TiffIfd

  // ---- libtiff constants ----

  /** Special read/write counts of a libtiff field description. */
  const TIFF_VARIABLE: int := -1
  const TIFF_SPP: int := -2
  const TIFF_VARIABLE2: int := -3

  const TAG_TRANSFERFUNCTION: nat := 301
  const TAG_STRIPOFFSETS: nat := 273
  const TAG_STRIPBYTECOUNTS: nat := 279
  const TAG_COLORMAP: nat := 320
  const TAG_TILEOFFSETS: nat := 324
  const TAG_TILEBYTECOUNTS: nat := 325
  const TAG_IMAGEJ_META_DATA_BYTE_COUNTS: nat := 50838
  const TAG_IMAGEJ_META_DATA: nat := 50839

  const PLANARCONFIG_CONTIG: nat := 1
  const PLANARCONFIG_SEPARATE: nat := 2

  /** TIFF field data types (the codes of the TIFF 6.0 and BigTIFF formats). */
  const TYPE_UNDEFINED: nat := 7
  const TYPE_SHORT: nat := 3
  const TYPE_LONG: nat := 4
  const TYPE_SSHORT: nat := 8
  const TYPE_SLONG: nat := 9
  const TYPE_IFD: nat := 13
  const TYPE_LONG8: nat := 16
  const TYPE_SLONG8: nat := 17
  const TYPE_IFD8: nat := 18

  const U16_MAX: nat := 65535
  const U32_MAX: nat := 4294967295
  const TWO_31: int := 2147483648
  const TWO_32: int := 4294967296

  const IfdGone := "Field reference to IFD no longer valid"
  const SppMismatch := "Field array size does not match SamplesPerPixel"
  const TooLong := "Field array size is greater than maximum write count"
  const UnequalSizes := "Field array sizes are not equal"

  // ---- machine integers ----

  /** Unsigned 32-bit wrap-around. */
  function U32(x: int): (r: nat)
    ensures r < TWO_32
    ensures 0 <= x < TWO_32 ==> r == x
  {
    x % TWO_32
  }

  /** static_cast<int> of a 32-bit unsigned value (two's complement). */
  function I32(x: nat): (r: int)
    requires x < TWO_32
    ensures -TWO_31 <= r < TWO_31
    ensures x < TWO_31 ==> r == x
    ensures x >= TWO_31 ==> r < 0
  {
    if x < TWO_31 then x else x - TWO_32
  }

  // ---- count arithmetic ----

  /** Integer ceiling of a / b, written as the source writes it. */
  function CeilDiv(a: nat, b: nat): nat
    requires b > 0
  {
    (a + b - 1) / b
  }

  /** CeilDiv(a, b) is the least multiple count of b reaching a. */
  lemma {:induction false} CeilDivBounds(a: nat, b: nat)
    requires b > 0
    ensures CeilDiv(a, b) * b >= a
    ensures CeilDiv(a, b) == 0 || (CeilDiv(a, b) - 1) * b < a
    ensures CeilDiv(a, b) <= a
  {
    var q := CeilDiv(a, b);
    var r := (a + b - 1) % b;
    assert a + b - 1 == q * b + r;
    assert 0 <= r < b;
    if q > 0 {
      assert (q - 1) * b == q * b - b;
      assert (q - 1) * b < a;
      if q > a {
        assert q - 1 >= a;
        MulAtLeast(q - 1, a, b);
        assert false;
      }
    }
  }

  lemma MulAtLeast(x: nat, a: nat, b: nat)
    requires x >= a && b >= 1
    ensures x * b >= a
  {
    assert x * b >= x * 1;
  }

  /**
   * Strips per image as computed when reading StripOffsets or
   * StripByteCounts: ImageLength + RowsPerStrip - 1 is formed in 32-bit
   * unsigned arithmetic, so it wraps before the division.
   */
  function StripsPerImageAsWritten(ilen: nat, rps: nat): (n: nat)
    requires ilen < TWO_32 && 0 < rps < TWO_32
    ensures n < TWO_32
    ensures ilen + rps - 1 < TWO_32 ==> n == CeilDiv(ilen, rps)
  {
    var sum := U32(ilen + rps - 1);
    assert ilen + rps - 1 < TWO_32 ==> sum / rps == CeilDiv(ilen, rps) by {
      if ilen + rps - 1 < TWO_32 {
        assert sum == ilen + rps - 1;
      }
    }
    sum / rps
  }

  /** The strip count as intended: one strip per RowsPerStrip rows, the last one possibly short. */
  function StripsPerImage(ilen: nat, rps: nat): (n: nat)
    requires rps > 0
    ensures n * rps >= ilen
    ensures n == 0 || (n - 1) * rps < ilen
    ensures n <= ilen
  {
    CeilDivBounds(ilen, rps);
    CeilDiv(ilen, rps)
  }

  /**
   * A RowsPerStrip of 2^32 - 1 (the TIFF default, "all rows in one
   * strip") makes the 32-bit sum wrap: an image of 2 rows is reported to
   * have no strip although it has one.
   */
  lemma StripsPerImageWraps()
    ensures StripsPerImageAsWritten(2, U32_MAX) == 0
    ensures StripsPerImage(2, U32_MAX) == 1
  {
    assert U32(2 + U32_MAX - 1) == 0;
    assert CeilDiv(2, U32_MAX) == 1;
  }

  /** Tiles per image in the 32-bit unsigned arithmetic of the source. */
  function TilesPerImage(iwid: nat, ilen: nat, twid: nat, tlen: nat): (n: nat)
    requires 0 < twid && 0 < tlen
    ensures n < TWO_32
    ensures (iwid + twid - 1 < TWO_32 && ilen + tlen - 1 < TWO_32 &&
             CeilDiv(iwid, twid) * CeilDiv(ilen, tlen) < TWO_32) ==>
            n == CeilDiv(iwid, twid) * CeilDiv(ilen, tlen)
  {
    var tacross := U32(iwid + twid - 1) / twid;
    var tdown := U32(ilen + tlen - 1) / tlen;
    U32(tacross * tdown)
  }

  /** The raw tags the count computation consults; None is an absent tag. */
  datatype RawTags = RawTags(
    planarConfig: Option<nat>,
    samplesPerPixel: Option<nat>,
    imageWidth: Option<nat>,
    imageLength: Option<nat>,
    rowsPerStrip: Option<nat>,
    tileWidth: Option<nat>,
    tileLength: Option<nat>,
    bitsPerSample: Option<nat>,
    extraSamples: nat)

  /** Tag values fit their 16- and 32-bit fields, and nothing divides by zero. */
  predicate RawTagsValid(t: RawTags)
  {
    && (t.planarConfig.Some? ==> t.planarConfig.value <= U16_MAX)
    && (t.samplesPerPixel.Some? ==> t.samplesPerPixel.value <= U16_MAX)
    && (t.imageWidth.Some? ==> t.imageWidth.value < TWO_32)
    && (t.imageLength.Some? ==> t.imageLength.value < TWO_32)
    && (t.rowsPerStrip.Some? ==> 0 < t.rowsPerStrip.value < TWO_32)
    && (t.tileWidth.Some? ==> 0 < t.tileWidth.value < TWO_32)
    && (t.tileLength.Some? ==> 0 < t.tileLength.value < TWO_32)
    && (t.bitsPerSample.Some? ==> t.bitsPerSample.value < 32)
    && t.extraSamples <= U16_MAX
  }

  predicate IsStripArray(tag: nat) { tag == TAG_STRIPOFFSETS || tag == TAG_STRIPBYTECOUNTS }
  predicate IsTileArray(tag: nat) { tag == TAG_TILEOFFSETS || tag == TAG_TILEBYTECOUNTS }
  predicate IsImageJArray(tag: nat) { tag == TAG_IMAGEJ_META_DATA || tag == TAG_IMAGEJ_META_DATA_BYTE_COUNTS }

  /** Strips (or tiles) per image, times the sample count for separate planes, cast to int; other planar configurations keep the field's count. */
  function PlaneCount(pc: nat, spp: nat, perImage: nat, readcount: int): (r: int)
    requires spp <= U16_MAX && perImage < TWO_32
    ensures pc == PLANARCONFIG_CONTIG && perImage < TWO_31 ==> r == perImage
    ensures pc == PLANARCONFIG_SEPARATE && spp * perImage < TWO_31 ==> r == spp * perImage
    ensures pc != PLANARCONFIG_CONTIG && pc != PLANARCONFIG_SEPARATE ==> r == readcount
  {
    if pc == PLANARCONFIG_CONTIG then I32(perImage)
    else if pc == PLANARCONFIG_SEPARATE then I32(U32(spp * perImage))
    else readcount
  }

  /**
   * The read count generic_array_get1 works with: the ImageJ metadata tags
   * are always variable-length with a 32-bit count, and the strip and tile
   * offset and byte-count arrays hold one entry per strip or tile (per
   * plane when planes are separate); the tags that count needs must be set.
   */
  function ArrayReadCount(tag: nat, readcount: int, t: RawTags): (r: Result<int>)
    requires RawTagsValid(t)
    ensures IsImageJArray(tag) ==> r == Ok(TIFF_VARIABLE2)
    ensures (!IsImageJArray(tag) && !IsStripArray(tag) && !IsTileArray(tag)) ==> r == Ok(readcount)
    ensures IsStripArray(tag) ==>
              (r.Ok? <==> (t.planarConfig.Some? && t.samplesPerPixel.Some? && t.imageLength.Some? && t.rowsPerStrip.Some?))
    ensures IsTileArray(tag) ==>
              (r.Ok? <==> (t.planarConfig.Some? && t.samplesPerPixel.Some? && t.imageLength.Some? && t.imageWidth.Some? &&
                           t.tileLength.Some? && t.tileWidth.Some?))
    ensures r.Err? ==> r.error == TiffIfd.TagNotFound
  {
    if IsImageJArray(tag) then Ok(TIFF_VARIABLE2)
    else if IsStripArray(tag) then
      var pc :- TiffIfd.TagValue(t.planarConfig);
      var spp :- TiffIfd.TagValue(t.samplesPerPixel);
      var ilen :- TiffIfd.TagValue(t.imageLength);
      var rps :- TiffIfd.TagValue(t.rowsPerStrip);
      Ok(PlaneCount(pc, spp, StripsPerImageAsWritten(ilen, rps), readcount))
    else if IsTileArray(tag) then
      var pc :- TiffIfd.TagValue(t.planarConfig);
      var spp :- TiffIfd.TagValue(t.samplesPerPixel);
      var ilen :- TiffIfd.TagValue(t.imageLength);
      var iwid :- TiffIfd.TagValue(t.imageWidth);
      var tlen :- TiffIfd.TagValue(t.tileLength);
      var twid :- TiffIfd.TagValue(t.tileWidth);
      Ok(PlaneCount(pc, spp, TilesPerImage(iwid, ilen, twid, tlen), readcount))
    else Ok(readcount)
  }

  /** Planes a strip or tile array covers: one when contiguous, one per sample when separate. */
  function Planes(pc: nat, spp: nat): nat
  {
    if pc == PLANARCONFIG_CONTIG then 1 else spp
  }

  /**
   * The strip arrays hold the strip count per plane, which is
   * ceil(ImageLength / RowsPerStrip) unless the 32-bit sum wraps; any
   * other planar configuration keeps the field's own count.
   */
  lemma {:induction false} StripArrayCount(tag: nat, readcount: int, t: RawTags)
    requires RawTagsValid(t) && IsStripArray(tag)
    requires ArrayReadCount(tag, readcount, t).Ok?
    ensures var pc := t.planarConfig.value;
            var spi := StripsPerImageAsWritten(t.imageLength.value, t.rowsPerStrip.value);
            var n := Planes(pc, t.samplesPerPixel.value) * spi;
            && (t.imageLength.value + t.rowsPerStrip.value - 1 < TWO_32 ==>
                  spi == StripsPerImage(t.imageLength.value, t.rowsPerStrip.value)
                  && spi * t.rowsPerStrip.value >= t.imageLength.value
                  && (spi == 0 || (spi - 1) * t.rowsPerStrip.value < t.imageLength.value))
            && ((pc == PLANARCONFIG_CONTIG || pc == PLANARCONFIG_SEPARATE) && n < TWO_31 ==>
                  ArrayReadCount(tag, readcount, t) == Ok(n))
            && (pc != PLANARCONFIG_CONTIG && pc != PLANARCONFIG_SEPARATE ==>
                  ArrayReadCount(tag, readcount, t) == Ok(readcount))
  {
    var pc := t.planarConfig.value;
    var spp := t.samplesPerPixel.value;
    var spi := StripsPerImageAsWritten(t.imageLength.value, t.rowsPerStrip.value);
    assert ArrayReadCount(tag, readcount, t) == Ok(PlaneCount(pc, spp, spi, readcount));
  }

  /**
   * The tile arrays hold ceil(ImageWidth / TileWidth) * ceil(ImageLength /
   * TileLength) entries per plane when no 32-bit intermediate overflows.
   */
  lemma {:induction false} TileArrayCount(tag: nat, readcount: int, t: RawTags)
    requires RawTagsValid(t) && IsTileArray(tag)
    requires ArrayReadCount(tag, readcount, t).Ok?
    ensures var pc := t.planarConfig.value;
            var across := CeilDiv(t.imageWidth.value, t.tileWidth.value);
            var down := CeilDiv(t.imageLength.value, t.tileLength.value);
            var n := Planes(pc, t.samplesPerPixel.value) * (across * down);
            && ((pc == PLANARCONFIG_CONTIG || pc == PLANARCONFIG_SEPARATE) &&
                t.imageWidth.value + t.tileWidth.value - 1 < TWO_32 &&
                t.imageLength.value + t.tileLength.value - 1 < TWO_32 &&
                across * down < TWO_32 && n < TWO_31 ==>
                  ArrayReadCount(tag, readcount, t) == Ok(n))
            && (pc != PLANARCONFIG_CONTIG && pc != PLANARCONFIG_SEPARATE ==>
                  ArrayReadCount(tag, readcount, t) == Ok(readcount))
  {
    var pc := t.planarConfig.value;
    var spp := t.samplesPerPixel.value;
    var tpi := TilesPerImage(t.imageWidth.value, t.imageLength.value, t.tileWidth.value, t.tileLength.value);
    assert ArrayReadCount(tag, readcount, t) == Ok(PlaneCount(pc, spp, tpi, readcount));
  }

  /** How many elements libtiff hands back for a (resolved) read count; the variable counts are the stored ones. */
  function ElementCount(rc: int, t: RawTags, storedLen: nat): (r: Result<nat>)
    ensures rc == TIFF_SPP ==> r == TiffIfd.TagValue(t.samplesPerPixel)
    ensures (rc == TIFF_VARIABLE || rc == TIFF_VARIABLE2) ==> r == Ok(storedLen)
    ensures (0 <= rc < TWO_32) ==> r == Ok(rc)
  {
    if rc == TIFF_SPP then TiffIfd.TagValue(t.samplesPerPixel)
    else if rc == TIFF_VARIABLE || rc == TIFF_VARIABLE2 then Ok(storedLen)
    else Ok(U32(rc))
  }

  /** The array the getter copies fits inside the array libtiff stores for the tag. */
  predicate Get1Readable(tag: nat, readcount: int, t: RawTags, stored: Option<seq<nat>>)
    requires RawTagsValid(t)
  {
    var rc := ArrayReadCount(tag, readcount, t);
    (rc.Ok? && stored.Some? && ElementCount(rc.value, t, |stored.value|).Ok?) ==>
      ElementCount(rc.value, t, |stored.value|).value <= |stored.value|
  }

  /**
   * generic_array_get1: the first count elements of the stored array, or
   * the missing-tag error when the tag (or a tag the count needs) is absent.
   */
  function ArrayGet1(tag: nat, readcount: int, t: RawTags, stored: Option<seq<nat>>): (r: Result<seq<nat>>)
    requires RawTagsValid(t) && Get1Readable(tag, readcount, t, stored)
    ensures r.Ok? <==> (ArrayReadCount(tag, readcount, t).Ok? && stored.Some? &&
                        ElementCount(ArrayReadCount(tag, readcount, t).value, t, |stored.value|).Ok?)
    ensures r.Ok? ==> r.value <= stored.value
    ensures r.Ok? ==> |r.value| == ElementCount(ArrayReadCount(tag, readcount, t).value, t, |stored.value|).value
    ensures r.Err? ==> r.error == TiffIfd.TagNotFound
  {
    var rc :- ArrayReadCount(tag, readcount, t);
    var values :- TiffIfd.TagValue(stored);
    var count :- ElementCount(rc, t, |values|);
    Ok(values[..count])
  }

  /** The arguments a setter hands to libtiff: the count, when one is passed, and the arrays. */
  datatype RawSet = RawSet(count: Option<nat>, arrays: seq<seq<nat>>)

  /**
   * generic_array_set1: a samples-per-pixel array must have exactly that
   * many entries, and a variable-length one at most 65535 (16-bit count) or
   * 2^32 - 1 (32-bit count).  A fixed-count field passes the array alone.
   */
  function ArraySet1(writecount: int, t: RawTags, value: seq<nat>): (r: Result<RawSet>)
    ensures writecount == TIFF_SPP ==>
              (r.Ok? <==> t.samplesPerPixel == Some(|value|))
    ensures writecount == TIFF_SPP && t.samplesPerPixel.Some? && r.Err? ==> r.error == SppMismatch
    ensures writecount == TIFF_VARIABLE ==> (r.Err? <==> |value| > U16_MAX)
    ensures writecount == TIFF_VARIABLE2 ==> (r.Err? <==> |value| > U32_MAX)
    ensures (writecount == TIFF_VARIABLE || writecount == TIFF_VARIABLE2) && r.Err? ==> r.error == TooLong
    ensures (writecount == TIFF_VARIABLE || writecount == TIFF_VARIABLE2) && r.Ok? ==> r.value == RawSet(Some(|value|), [value])
    ensures (writecount != TIFF_VARIABLE && writecount != TIFF_VARIABLE2) && r.Ok? ==> r.value == RawSet(None, [value])
    ensures (writecount != TIFF_SPP && writecount != TIFF_VARIABLE && writecount != TIFF_VARIABLE2) ==> r.Ok?
  {
    if writecount == TIFF_SPP then
      var spp :- TiffIfd.TagValue(t.samplesPerPixel);
      if |value| != spp then Err(SppMismatch) else Ok(RawSet(None, [value]))
    else if writecount == TIFF_VARIABLE then
      if |value| > U16_MAX then Err(TooLong) else Ok(RawSet(Some(|value|), [value]))
    else if writecount == TIFF_VARIABLE2 then
      if |value| > U32_MAX then Err(TooLong) else Ok(RawSet(Some(|value|), [value]))
    else Ok(RawSet(None, [value]))
  }

  /**
   * What libtiff keeps after a single-array set: the passed count of
   * elements, or for a fixed count (or one per sample) that many elements.
   */
  function Store1(writecount: int, t: RawTags, call: RawSet): (s: seq<nat>)
    requires |call.arrays| == 1
    requires call.count.Some? ==> call.count.value <= |call.arrays[0]|
    requires call.count.None? && writecount == TIFF_SPP && t.samplesPerPixel.Some? ==>
               t.samplesPerPixel.value <= |call.arrays[0]|
    requires call.count.None? && writecount >= 0 ==> writecount <= |call.arrays[0]|
  {
    if call.count.Some? then call.arrays[0][..call.count.value]
    else if writecount == TIFF_SPP && t.samplesPerPixel.Some? then call.arrays[0][..t.samplesPerPixel.value]
    else if writecount >= 0 then call.arrays[0][..writecount]
    else call.arrays[0]
  }

  /**
   * Setting an ordinary array field and reading it back yields the array
   * (for a fixed count, its first writecount entries) when the read and
   * write counts of the field agree.
   */
  lemma {:induction false} ArraySetGet1(tag: nat, count: int, t: RawTags, value: seq<nat>)
    requires RawTagsValid(t)
    requires !IsImageJArray(tag) && !IsStripArray(tag) && !IsTileArray(tag)
    requires count == TIFF_SPP || count == TIFF_VARIABLE || count == TIFF_VARIABLE2 || 0 <= count <= |value|
    requires count < TWO_31
    requires ArraySet1(count, t, value).Ok?
    ensures Get1Readable(tag, count, t, Some(Store1(count, t, ArraySet1(count, t, value).value)))
    ensures ArrayGet1(tag, count, t, Some(Store1(count, t, ArraySet1(count, t, value).value))) ==
            Ok(if count >= 0 then value[..count] else value)
  {
    var call := ArraySet1(count, t, value).value;
    var s := Store1(count, t, call);
    assert ArrayReadCount(tag, count, t) == Ok(count);
    if count >= 0 {
      assert call == RawSet(None, [value]);
      assert s == value[..count];
      assert ElementCount(count, t, |s|) == Ok(count);
      assert s[..count] == s;
    } else if count == TIFF_SPP {
      assert call == RawSet(None, [value]);
      assert t.samplesPerPixel == Some(|value|);
      assert s == value[..|value|] == value;
      assert ElementCount(count, t, |s|) == Ok(|value|);
      assert s[..|s|] == s;
    } else {
      assert call == RawSet(Some(|value|), [value]);
      assert s == value[..|value|] == value;
      assert ElementCount(count, t, |s|) == Ok(|s|);
      assert s[..|s|] == s;
    }
  }

  // ---- three-array fields (colour maps, transfer functions) ----

  /** The arrays handed to libtiff for every three-component set. */
  predicate ThreeArrays(value: seq<seq<nat>>)
  {
    |value| == 3
  }

  /** Channels of a transfer function: all three unless the image has one colour sample beyond its extra samples. */
  function TransferChannels(spp: nat, extraSamples: nat): (n: nat)
    ensures n == 1 || n == 3
    ensures n == 3 <==> spp > extraSamples + 1
  {
    if spp - extraSamples > 1 then 3 else 1
  }

  /**
   * generic_array_set3 as written: the variable-count paths check the
   * length of the first array but pass the number of arrays (always 3) as
   * the count.
   */
  function ArraySet3AsWritten(tag: nat, writecount: int, t: RawTags, value: seq<seq<nat>>): (r: Result<RawSet>)
    requires ThreeArrays(value)
    ensures ((writecount == TIFF_VARIABLE || writecount == TIFF_VARIABLE2) && r.Ok? &&
             tag != TAG_COLORMAP && tag != TAG_TRANSFERFUNCTION) ==> r.value.count == Some(3)
  {
    Set3(tag, writecount, t, value, 3)
  }

  /**
   * generic_array_set3: the three arrays must have the same length; a
   * colour map passes all three, a transfer function three or one
   * channel, and the other counts are checked as for a single array.
   */
  function ArraySet3(tag: nat, writecount: int, t: RawTags, value: seq<seq<nat>>): (r: Result<RawSet>)
    requires ThreeArrays(value)
    ensures (|value[0]| != |value[1]| || |value[0]| != |value[2]|) ==> r == Err(UnequalSizes)
    ensures r.Ok? ==> |value[0]| == |value[1]| == |value[2]|
    ensures r.Ok? && tag == TAG_COLORMAP ==> r.value == RawSet(None, value)
    ensures r.Ok? && tag == TAG_TRANSFERFUNCTION ==> t.samplesPerPixel.Some?
    ensures r.Ok? && tag == TAG_TRANSFERFUNCTION ==>
              r.value == RawSet(None, value[..TransferChannels(t.samplesPerPixel.value, t.extraSamples)])
    ensures tag != TAG_COLORMAP && tag != TAG_TRANSFERFUNCTION && writecount == TIFF_SPP && |value[0]| == |value[1]| == |value[2]| ==>
              (r.Ok? <==> t.samplesPerPixel == Some(3))
    ensures tag != TAG_COLORMAP && tag != TAG_TRANSFERFUNCTION && writecount == TIFF_VARIABLE && |value[0]| == |value[1]| == |value[2]| ==>
              (r.Err? <==> |value[0]| > U16_MAX)
    ensures tag != TAG_COLORMAP && tag != TAG_TRANSFERFUNCTION && writecount == TIFF_VARIABLE2 && |value[0]| == |value[1]| == |value[2]| ==>
              (r.Err? <==> |value[0]| > U32_MAX)
    ensures ((writecount == TIFF_VARIABLE || writecount == TIFF_VARIABLE2) && r.Ok? &&
             tag != TAG_COLORMAP && tag != TAG_TRANSFERFUNCTION) ==> r.value == RawSet(Some(|value[0]|), value)
  {
    Set3(tag, writecount, t, value, |value[0]|)
  }

  /** The shared body of both set3 variants, which differ only in the count passed on the variable paths. */
  function Set3(tag: nat, writecount: int, t: RawTags, value: seq<seq<nat>>, varCount: nat): (r: Result<RawSet>)
    requires ThreeArrays(value)
    ensures (|value[0]| != |value[1]| || |value[0]| != |value[2]|) ==> r == Err(UnequalSizes)
    ensures r.Ok? ==> r.value.arrays <= value && |r.value.arrays| >= 1
  {
    if |value[0]| != |value[1]| || |value[0]| != |value[2]| then Err(UnequalSizes)
    else if tag == TAG_COLORMAP then Ok(RawSet(None, value))
    else if tag == TAG_TRANSFERFUNCTION then
      var spp :- TiffIfd.TagValue(t.samplesPerPixel);
      Ok(RawSet(None, value[..TransferChannels(spp, t.extraSamples)]))
    else if writecount == TIFF_SPP then
      var spp :- TiffIfd.TagValue(t.samplesPerPixel);
      if |value| != spp then Err(SppMismatch) else Ok(RawSet(None, value))
    else if writecount == TIFF_VARIABLE then
      if |value[0]| > U16_MAX then Err(TooLong) else Ok(RawSet(Some(varCount), value))
    else if writecount == TIFF_VARIABLE2 then
      if |value[0]| > U32_MAX then Err(TooLong) else Ok(RawSet(Some(varCount), value))
    else Ok(RawSet(None, value))
  }

  /** What libtiff keeps after a counted three-array set: the passed number of elements of each array. */
  function Store3(call: RawSet): (s: seq<seq<nat>>)
    requires call.count.Some?
    requires forall i :: 0 <= i < |call.arrays| ==> call.count.value <= |call.arrays[i]|
    ensures |s| == |call.arrays|
  {
    seq(|call.arrays|, i requires 0 <= i < |call.arrays| => call.arrays[i][..call.count.value])
  }

  /** For the variable-count paths, the count generic_array_get3 hands back is the stored one. */
  function VariableGet3(readcount: int, stored: seq<seq<nat>>): (r: seq<seq<nat>>)
    requires readcount == TIFF_VARIABLE || readcount == TIFF_VARIABLE2
    requires |stored| == 3 && |stored[1]| == |stored[0]| && |stored[2]| == |stored[0]|
    ensures |r| == 3 && forall i :: 0 <= i < 3 ==> r[i] == stored[i][..|stored[0]|]
  {
    var n := |stored[0]|;
    [stored[0][..n], stored[1][..n], stored[2][..n]]
  }

  /** With the corrected count, a variable three-array field reads back as it was set. */
  lemma {:induction false} ArraySet3RoundTrip(tag: nat, count: int, t: RawTags, value: seq<seq<nat>>)
    requires ThreeArrays(value) && tag != TAG_COLORMAP && tag != TAG_TRANSFERFUNCTION
    requires count == TIFF_VARIABLE || count == TIFF_VARIABLE2
    requires ArraySet3(tag, count, t, value).Ok?
    ensures var call := ArraySet3(tag, count, t, value).value;
            (forall i :: 0 <= i < |call.arrays| ==> call.count.value <= |call.arrays[i]|) &&
            VariableGet3(count, Store3(call)) == value
  {
    var call := ArraySet3(tag, count, t, value).value;
    assert call == RawSet(Some(|value[0]|), value);
    var s := Store3(call);
    assert s[0] == value[0] && s[1] == value[1] && s[2] == value[2];
  }

  /** As written, three variable arrays of 4 entries each are stored with a count of 3 and read back truncated. */
  lemma ArraySet3AsWrittenTruncates(tag: nat, t: RawTags)
    requires tag != TAG_COLORMAP && tag != TAG_TRANSFERFUNCTION
    ensures var value := [[1, 2, 3, 4], [5, 6, 7, 8], [9, 10, 11, 12]];
            var call := ArraySet3AsWritten(tag, TIFF_VARIABLE, t, value);
            call == Ok(RawSet(Some(3), value)) &&
            VariableGet3(TIFF_VARIABLE, Store3(call.value)) == [[1, 2, 3], [5, 6, 7], [9, 10, 11]] &&
            VariableGet3(TIFF_VARIABLE, Store3(call.value)) != value
  {
    var value := [[1, 2, 3, 4], [5, 6, 7, 8], [9, 10, 11, 12]];
    var call := ArraySet3AsWritten(tag, TIFF_VARIABLE, t, value);
    assert call == Ok(RawSet(Some(3), value));
    var s := Store3(call.value);
    assert value[0][..3] == [1, 2, 3] && value[1][..3] == [5, 6, 7] && value[2][..3] == [9, 10, 11];
    assert s == [[1, 2, 3], [5, 6, 7], [9, 10, 11]];
    assert s[0][..3] == s[0] && s[1][..3] == s[1] && s[2][..3] == s[2];
    assert VariableGet3(TIFF_VARIABLE, s) == s;
    assert s[0] != value[0];
  }

  /** The elements generic_array_get3 copies from each array: 2^BitsPerSample for colour maps and transfer functions. */
  function Get3Count(tag: nat, readcount: int, t: RawTags, storedLen: nat): (r: Result<nat>)
    requires RawTagsValid(t)
    ensures (tag == TAG_COLORMAP || tag == TAG_TRANSFERFUNCTION) && r.Ok? ==> t.bitsPerSample.Some?
    ensures (tag == TAG_COLORMAP || tag == TAG_TRANSFERFUNCTION) && r.Ok? ==> r.value == Pow2(t.bitsPerSample.value)
    ensures tag == TAG_TRANSFERFUNCTION && r.Ok? ==> t.samplesPerPixel.Some?
  {
    if tag == TAG_COLORMAP then
      var bps :- TiffIfd.TagValue(t.bitsPerSample);
      Ok(Pow2(bps))
    else if tag == TAG_TRANSFERFUNCTION then
      var _ :- TiffIfd.TagValue(t.samplesPerPixel);
      var bps :- TiffIfd.TagValue(t.bitsPerSample);
      Ok(Pow2(bps))
    else ElementCount(readcount, t, storedLen)
  }

  function Pow2(n: nat): (p: nat)
    ensures p >= 1
  {
    if n == 0 then 1 else 2 * Pow2(n - 1)
  }

  /** A transfer function of a single-colour-sample image has only its first channel. */
  predicate TransferLimited(t: RawTags)
  {
    t.samplesPerPixel.Some? && t.samplesPerPixel.value - t.extraSamples == 1
  }

  /** Every array the getter copies holds at least the count it copies. */
  predicate Get3Readable(tag: nat, readcount: int, t: RawTags, stored: Option<seq<seq<nat>>>)
    requires RawTagsValid(t)
  {
    stored.Some? ==>
      && |stored.value| == 3
      && var c := Get3Count(tag, readcount, t, |stored.value[0]|);
         c.Ok? ==> forall i :: 0 <= i < 3 ==> c.value <= |stored.value[i]|
  }

  /**
   * generic_array_get3: three arrays of count elements each, except that a
   * limited transfer function yields its first channel and two empty ones.
   */
  function ArrayGet3(tag: nat, readcount: int, t: RawTags, stored: Option<seq<seq<nat>>>): (r: Result<seq<seq<nat>>>)
    requires RawTagsValid(t) && Get3Readable(tag, readcount, t, stored)
    ensures r.Ok? ==> |r.value| == 3 && stored.Some?
    ensures r.Ok? ==> Get3Count(tag, readcount, t, |stored.value[0]|).Ok?
    ensures r.Ok? ==> forall i :: 0 <= i < 3 ==> r.value[i] <= stored.value[i]
    ensures r.Ok? && tag == TAG_TRANSFERFUNCTION && TransferLimited(t) ==> r.value[1] == [] && r.value[2] == []
    ensures r.Ok? && !(tag == TAG_TRANSFERFUNCTION && TransferLimited(t)) ==>
              forall i :: 0 <= i < 3 ==> |r.value[i]| == Get3Count(tag, readcount, t, |stored.value[0]|).value
    ensures r.Err? ==> r.error == TiffIfd.TagNotFound
  {
    var arrays :- TiffIfd.TagValue(stored);
    var count :- Get3Count(tag, readcount, t, |arrays[0]|);
    if tag == TAG_TRANSFERFUNCTION && TransferLimited(t) then
      Ok([arrays[0][..count], [], []])
    else
      Ok([arrays[0][..count], arrays[1][..count], arrays[2][..count]])
  }

  // ---- enumerated arrays ----

  /** Element-wise conversion. */
  function Convert<A, B>(s: seq<A>, f: A -> B): (r: seq<B>)
    ensures |r| == |s| && forall i :: 0 <= i < |s| ==> r[i] == f(s[i])
  {
    seq(|s|, i requires 0 <= i < |s| => f(s[i]))
  }

  /** Converting to 16-bit codes and back restores the enumerated values when the codes are faithful. */
  lemma {:induction false} ConvertRoundTrip<E>(value: seq<E>, toRaw: E -> nat, fromRaw: nat -> E)
    requires forall e :: fromRaw(toRaw(e)) == e
    ensures Convert(Convert(value, toRaw), fromRaw) == value
  {
    var back := Convert(Convert(value, toRaw), fromRaw);
    forall i | 0 <= i < |value| ensures back[i] == value[i] {
      assert Convert(value, toRaw)[i] == toRaw(value[i]);
    }
  }

  /** generic_enum16_array_get1: read the 16-bit array, then convert each element in order. */
  method GetEnum16Array<E>(tag: nat, readcount: int, t: RawTags, stored: Option<seq<nat>>, fromRaw: nat -> E)
    returns (r: Result<seq<E>>)
    requires RawTagsValid(t) && Get1Readable(tag, readcount, t, stored)
    ensures r.Ok? <==> ArrayGet1(tag, readcount, t, stored).Ok?
    ensures r.Ok? ==> r.value == Convert(ArrayGet1(tag, readcount, t, stored).value, fromRaw)
    ensures r.Err? ==> r.error == TiffIfd.TagNotFound
  {
    var raw := ArrayGet1(tag, readcount, t, stored);
    if raw.Err? {
      return Err(raw.error);
    }
    var v := raw.value;
    var value: seq<E> := [];
    var i := 0;
    while i < |v|
      invariant 0 <= i <= |v|
      invariant value == Convert(v[..i], fromRaw)
    {
      value := value + [fromRaw(v[i])];
      i := i + 1;
      assert v[..i] == v[..i - 1] + [v[i - 1]];
    }
    assert v[..|v|] == v;
    return Ok(value);
  }

  /** generic_enum16_array_set1: convert each element in order, then set the 16-bit array. */
  method SetEnum16Array<E>(writecount: int, t: RawTags, value: seq<E>, toRaw: E -> nat) returns (r: Result<RawSet>)
    ensures r == ArraySet1(writecount, t, Convert(value, toRaw))
  {
    var v: seq<nat> := [];
    var i := 0;
    while i < |value|
      invariant 0 <= i <= |value|
      invariant v == Convert(value[..i], toRaw)
    {
      v := v + [toRaw(value[i])];
      i := i + 1;
      assert value[..i] == value[..i - 1] + [value[i - 1]];
    }
    assert value[..|value|] == value;
    r := ArraySet1(writecount, t, v);
  }

  // ---- field descriptions ----

  /** A libtiff field description. */
  datatype FieldInfo = FieldInfo(tag: nat, name: string, fieldType: nat, passCount: bool, readCount: int, writeCount: int)

  /**
   * The lookup getFieldInfo performs.  anyType is what libtiff finds for
   * the tag with any data type, byType what it finds for a given type.  A
   * description carrying another tag counts as no description; a known
   * short, long or IFD field is replaced by a wider variant of the same tag
   * when there is one.
   */
  function FindFieldInfo(tag: nat, anyType: Option<FieldInfo>, byType: map<nat, FieldInfo>): (r: Option<FieldInfo>)
    ensures r.Some? ==> r.value.tag == tag
    ensures r.Some? <==> (anyType.Some? && anyType.value.tag == tag)
    ensures r.Some? && r != anyType ==> r.value in byType.Values
  {
    if anyType.None? || anyType.value.tag != tag then None
    else
      var info := anyType.value;
      var larger := LargerInfo(info.fieldType, byType);
      if larger.Some? && larger.value.tag == tag then larger else anyType
  }

  /** The wider data type libtiff is asked for, in the source's order of preference. */
  function LargerInfo(ty: nat, byType: map<nat, FieldInfo>): (r: Option<FieldInfo>)
    ensures r.Some? ==> r.value in byType.Values
    ensures ty !in {TYPE_SHORT, TYPE_LONG, TYPE_SSHORT, TYPE_SLONG, TYPE_IFD} ==> r.None?
  {
    var first :=
      if ty == TYPE_SHORT then Lookup(byType, TYPE_LONG)
      else if ty == TYPE_SSHORT then Lookup(byType, TYPE_SLONG)
      else None;
    var second :=
      if first.None? && (ty == TYPE_SHORT || ty == TYPE_LONG) then Lookup(byType, TYPE_LONG8)
      else if first.None? && (ty == TYPE_SSHORT || ty == TYPE_SLONG) then Lookup(byType, TYPE_SLONG8)
      else first;
    if ty == TYPE_IFD then Lookup(byType, TYPE_IFD8) else second
  }

  function Lookup(byType: map<nat, FieldInfo>, ty: nat): (r: Option<FieldInfo>)
    ensures r.Some? <==> ty in byType
    ensures r.Some? ==> r.value == byType[ty] && r.value in byType.Values
  {
    if ty in byType then Some(byType[ty]) else None
  }

  /** name(): the libtiff name of a known field, else the tag number in decimal. */
  function FieldName(tag: nat, info: Option<FieldInfo>): (s: string)
    ensures info.Some? ==> s == info.value.name
    ensures info.None? ==> IsDecimal(s) && ParseDecimal(s) == tag
  {
    if info.Some? then info.value.name
    else
      DecimalRoundTrip(tag);
      DecimalString(tag)
  }

  /** type(): the data type of a known field, else TYPE_UNDEFINED. */
  function FieldType(info: Option<FieldInfo>): (ty: nat)
    ensures info.None? ==> ty == TYPE_UNDEFINED
    ensures info.Some? ==> ty == info.value.fieldType
  {
    if info.Some? then info.value.fieldType else TYPE_UNDEFINED
  }

  /** passCount(): whether a known field passes its count, else false. */
  function PassCount(info: Option<FieldInfo>): (p: bool)
    ensures p <==> info.Some? && info.value.passCount
  {
    info.Some? && info.value.passCount
  }

  /** readCount(): the read count of a known field, else 1. */
  function ReadCount(info: Option<FieldInfo>): (n: int)
    ensures info.None? ==> n == 1
    ensures info.Some? ==> n == info.value.readCount
  {
    if info.Some? then info.value.readCount else 1
  }

  /** writeCount(): the write count of a known field, else 1. */
  function WriteCount(info: Option<FieldInfo>): (n: int)
    ensures info.None? ==> n == 1
    ensures info.Some? ==> n == info.value.writeCount
  {
    if info.Some? then info.value.writeCount else 1
  }

  /**
   * The single enumerated-value handlers reject a description only when
   * its type, pass-count flag and count all disagree, so an unknown field
   * (undefined type, no pass count, count 1) is accepted.
   */
  function Enum16Check(info: Option<FieldInfo>, forWrite: bool): (r: Result<Unit>)
    ensures r.Err? <==> (FieldType(info) != TYPE_SHORT && PassCount(info) &&
                         (if forWrite then WriteCount(info) else ReadCount(info)) != 1)
    ensures info.None? ==> r.Ok?
  {
    var count := if forWrite then WriteCount(info) else ReadCount(info);
    if FieldType(info) != TYPE_SHORT && PassCount(info) && count != 1
    then Err("FieldInfo mismatch with Field handler")
    else Ok(Unit)
  }

  /** Distinct tags are named differently when neither is known. */
  lemma {:induction false} UnknownNamesDistinct(a: nat, b: nat)
    requires a != b
    ensures FieldName(a, None) != FieldName(b, None)
  {
    DecimalRoundTrip(a);
    DecimalRoundTrip(b);
  }

  // ---- field handles ----

  /**
   * A field handle: the tag, a weak reference to its directory (alive or
   * not, as the rest of the program decides), and the cached description.
   */
  class Field {
    const tag: nat
    var fieldInfo: Option<FieldInfo>

    constructor(tag: nat)
      ensures this.tag == tag && fieldInfo.None?
    {
      this.tag := tag;
      fieldInfo := None;
    }

    /**
     * getFieldInfo: the cached description, else a lookup through the
     * directory, which fails with bad_weak_ptr when the directory is gone
     * (getIFD as written); a found
     * description is cached, a missing one is looked up again next time.
     */
    method GetFieldInfo(ifdAlive: bool, anyType: Option<FieldInfo>, byType: map<nat, FieldInfo>)
      returns (r: Result<Option<FieldInfo>>)
      modifies this
      ensures old(fieldInfo).Some? ==> r == Ok(old(fieldInfo)) && fieldInfo == old(fieldInfo)
      ensures old(fieldInfo).None? && !ifdAlive ==> r == Err(BadWeakPtr) && fieldInfo.None?
      ensures old(fieldInfo).None? && ifdAlive ==>
                r == Ok(FindFieldInfo(tag, anyType, byType)) && fieldInfo == FindFieldInfo(tag, anyType, byType)
    {
      if fieldInfo.Some? {
        return Ok(fieldInfo);
      }
      var ifd := GetIfdAsWritten(ifdAlive);
      if ifd.Err? {
        return Err(ifd.error);
      }
      fieldInfo := FindFieldInfo(tag, anyType, byType);
      return Ok(fieldInfo);
    }

    method Name(ifdAlive: bool, anyType: Option<FieldInfo>, byType: map<nat, FieldInfo>) returns (r: Result<string>)
      modifies this
      ensures r.Ok? ==> r.value == FieldName(tag, fieldInfo)
      ensures r.Err? ==> r.error == BadWeakPtr && old(fieldInfo).None? && !ifdAlive
    {
      var info :- GetFieldInfo(ifdAlive, anyType, byType);
      return Ok(FieldName(tag, info));
    }

    method ReadCountOf(ifdAlive: bool, anyType: Option<FieldInfo>, byType: map<nat, FieldInfo>) returns (r: Result<int>)
      modifies this
      ensures r.Ok? ==> r.value == ReadCount(fieldInfo)
      ensures r.Err? ==> r.error == BadWeakPtr && old(fieldInfo).None? && !ifdAlive
    {
      var info :- GetFieldInfo(ifdAlive, anyType, byType);
      return Ok(ReadCount(info));
    }

    method WriteCountOf(ifdAlive: bool, anyType: Option<FieldInfo>, byType: map<nat, FieldInfo>) returns (r: Result<int>)
      modifies this
      ensures r.Ok? ==> r.value == WriteCount(fieldInfo)
      ensures r.Err? ==> r.error == BadWeakPtr && old(fieldInfo).None? && !ifdAlive
    {
      var info :- GetFieldInfo(ifdAlive, anyType, byType);
      return Ok(WriteCount(info));
    }
  }

  /** getIFD as evidently intended: the owning directory, or the no-longer-valid error once it is gone. */
  function GetIfd(alive: bool): (r: Result<Unit>)
    ensures r.Ok? <==> alive
    ensures r.Err? ==> r.error == IfdGone
  {
    if alive then Ok(Unit) else Err(IfdGone)
  }

  /**
   * getIFD as written converts the expired weak reference with the
   * shared_ptr constructor, which throws std::bad_weak_ptr itself, so the
   * directory's own error is never raised.
   */
  function GetIfdAsWritten(alive: bool): (r: Result<Unit>)
    ensures r.Ok? <==> alive
    ensures r.Err? ==> r.error == BadWeakPtr
  {
    if alive then Ok(Unit) else Err(BadWeakPtr)
  }

  /** What std::bad_weak_ptr reports. */
  const BadWeakPtr := "bad_weak_ptr"

  lemma GetIfdAsWrittenDiffers()
    ensures GetIfdAsWritten(false) != GetIfd(false)
  {
  }
}
