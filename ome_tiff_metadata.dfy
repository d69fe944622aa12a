// What the OME-TIFF reader takes from the OME-XML document, and the pure
// checks and repairs it applies to that metadata and to the core metadata
// it derives: the envelope check on the ImageDescription, the start index
// of 1-based TiffData coordinates, the per-channel sample counts and the
// image count / dimension repairs.
module OmeTiffMetadata {
  import opened Wrappers
  import opened DimensionIndex
  import opened MetadataLists
  import FormatWriters

  // ---- the OME-XML metadata ----

  /**
   * One TiffData element.  uuid is the value of its UUID child (None when
   * there is none) and fileName that child's FileName attribute; the
   * other attributes are None when absent.
   */
  datatype TiffDataXml = TiffDataXml(
    uuid: Option<string>,
    fileName: Option<string>,
    ifd: Option<nat>,
    planeCount: Option<nat>,
    firstZ: Option<nat>,
    firstT: Option<nat>,
    firstC: Option<nat>)

  datatype ChannelXml = ChannelXml(samplesPerPixel: Option<nat>, name: Option<string>)

  datatype PlaneXml = PlaneXml(theZ: Option<nat>, theT: Option<nat>, theC: Option<nat>)

  /** One Image element with its Pixels: dimension order, sizes, channels, TiffData and planes. */
  datatype ImageXml = ImageXml(
    order: DimensionOrder,
    sizeZ: nat,
    sizeT: nat,
    sizeC: nat,
    channels: seq<ChannelXml>,
    tiffData: seq<TiffDataXml>,
    planes: seq<PlaneXml>)

  function OrZero(v: Option<nat>): nat
  {
    if v.Some? then v.value else 0
  }

  // ---- the ImageDescription envelope ----

  /** The characters find_last_not_of(" \r\n\t\f\v") skips. */
  predicate IsXmlSpace(ch: char)
  {
    ch == ' ' || ch == '\r' || ch == '\n' || ch == '\t' || ch == '\U{000C}' || ch == '\U{000B}'
  }

  /** The position of the last character that is not white space. */
  function LastNonSpace(s: string): (r: Option<nat>)
    ensures r.Some? ==> r.value < |s| && !IsXmlSpace(s[r.value])
    ensures r.Some? ==> forall k :: r.value < k < |s| ==> IsXmlSpace(s[k])
    ensures r.None? ==> forall k :: 0 <= k < |s| ==> IsXmlSpace(s[k])
    decreases |s|
  {
    if |s| == 0 then None
    else if !IsXmlSpace(s[|s| - 1]) then Some(|s| - 1)
    else
      var r := LastNonSpace(s[..|s| - 1]);
      assert forall k :: 0 <= k < |s| - 1 ==> s[..|s| - 1][k] == s[k];
      r
  }

  /**
   * The check cacheMetadata makes before parsing: the document starts
   * with '<' and, trailing white space aside, ends with '>'.
   */
  function SaneXml(xml: string): (ok: bool)
    ensures ok <==> (|xml| > 0 && xml[0] == '<' &&
      exists k :: 0 <= k < |xml| && xml[k] == '>' && forall j :: k < j < |xml| ==> IsXmlSpace(xml[j]))
  {
    var last := LastNonSpace(xml);
    LastNonSpaceIsClosing(xml);
    |xml| > 0 && xml[0] == '<' && last.Some? && xml[last.value] == '>'
  }

  /** A '>' followed only by white space is the last non-space character. */
  lemma LastNonSpaceIsClosing(xml: string)
    ensures (exists k :: 0 <= k < |xml| && xml[k] == '>' && forall j :: k < j < |xml| ==> IsXmlSpace(xml[j])) <==>
      LastNonSpace(xml).Some? && xml[LastNonSpace(xml).value] == '>'
  {
    var last := LastNonSpace(xml);
    forall k | 0 <= k < |xml| && xml[k] == '>' && (forall j :: k < j < |xml| ==> IsXmlSpace(xml[j]))
      ensures last == Some(k)
    {
      assert !IsXmlSpace(xml[k]);
    }
  }

  lemma SaneXmlExamples()
    ensures SaneXml("<OME/>") && SaneXml("<OME/>\n \t") && SaneXml("<>")
    ensures !SaneXml("") && !SaneXml(" <OME/>") && !SaneXml("<OME/") && !SaneXml("OME-TIFF")
  {
    assert "<OME/>"[5] == '>';
    assert "<OME/>\n \t"[5] == '>';
    assert "<>"[1] == '>';
    assert !SaneXml("<OME/") by {
      assert LastNonSpace("<OME/") == Some(4);
    }
  }

  /** checkSuffix against the companion suffix "companion.ome". */
  predicate IsCompanion(id: string)
  {
    var suffix := ".companion.ome";
    |id| >= |suffix| && id[|id| - |suffix|..] == suffix
  }

  // ---- isSingleFile ----

  /** The planes of one image as isSingleFile counts them: Z·T times the channel count, at least 1. */
  function ImagePlanes(img: ImageXml): nat
  {
    img.sizeZ * img.sizeT * (if |img.channels| == 0 then 1 else |img.channels|)
  }

  function PlaneTotal(meta: seq<ImageXml>): (n: nat)
    ensures |meta| == 0 ==> n == 0
    decreases |meta|
  {
    if |meta| == 0 then 0 else PlaneTotal(meta[..|meta| - 1]) + ImagePlanes(meta[|meta| - 1])
  }

  /** Some image has a zero Z or T size, which a PositiveInteger refuses. */
  predicate HasZeroSize(meta: seq<ImageXml>)
  {
    exists i :: 0 <= i < |meta| && (meta[i].sizeZ == 0 || meta[i].sizeT == 0)
  }

  /** The total is positive exactly when some image is there and none has a zero size. */
  lemma {:induction false} PlaneTotalPositive(meta: seq<ImageXml>)
    requires !HasZeroSize(meta)
    ensures PlaneTotal(meta) > 0 <==> |meta| > 0
    decreases |meta|
  {
    if |meta| > 0 {
      var init := meta[..|meta| - 1];
      var img := meta[|meta| - 1];
      assert img.sizeZ > 0 && img.sizeT > 0;
      assert ImagePlanes(img) > 0 by {
        var c := if |img.channels| == 0 then 1 else |img.channels|;
        assert img.sizeZ * img.sizeT > 0;
        assert (img.sizeZ * img.sizeT) * c > 0;
      }
      assert !HasZeroSize(init) by {
        forall i | 0 <= i < |init| ensures init[i].sizeZ > 0 && init[i].sizeT > 0 {
          assert init[i] == meta[i];
        }
      }
    }
  }

  /**
   * isSingleFile once the metadata is parsed and the file's directory
   * count known: every plane fits in this one file.  A zero size is an
   * exception, which sends isSingleFile to the generic answer.
   */
  function SingleFileVerdict(meta: seq<ImageXml>, directoryCount: nat): (r: Option<bool>)
    ensures r.None? <==> HasZeroSize(meta)
    ensures r.Some? ==> (r.value <==> |meta| > 0 && PlaneTotal(meta) <= directoryCount)
  {
    if HasZeroSize(meta) then None
    else
      PlaneTotalPositive(meta);
      Some(PlaneTotal(meta) > 0 && PlaneTotal(meta) <= directoryCount)
  }

  // ---- TiffData attributes ----

  /** getTiffDataValues: the values of one TiffData element. */
  datatype TiffDataValues = TiffDataValues(valid: bool, ifd: nat, numPlanes: nat, firstZ: nat, firstT: nat, firstC: nat)

  function ValuesOf(td: TiffDataXml): (v: TiffDataValues)
    ensures v.valid <==> v.numPlanes > 0
    ensures td.planeCount.Some? ==> v.numPlanes == td.planeCount.value
    ensures td.planeCount.None? ==> (v.numPlanes == 1 <==> td.ifd.Some?) && (v.numPlanes == 0 <==> td.ifd.None?)
    ensures v.ifd == OrZero(td.ifd)
    ensures v.firstZ == OrZero(td.firstZ) && v.firstT == OrZero(td.firstT) && v.firstC == OrZero(td.firstC)
  {
    var numPlanes := if td.planeCount.Some? then td.planeCount.value else if td.ifd.Some? then 1 else 0;
    TiffDataValues(numPlanes != 0, OrZero(td.ifd), numPlanes, OrZero(td.firstZ), OrZero(td.firstT), OrZero(td.firstC))
  }

  /**
   * The fill-down of planes after a TiffData with no plane count can never
   * run: a TiffData the reader goes on to use has at least one plane.
   */
  lemma FillDownUnreachable(td: TiffDataXml)
    requires ValuesOf(td).valid
    ensures ValuesOf(td).numPlanes != 0
  {
  }

  // ---- index starts ----

  datatype Axis = AxisZ | AxisT | AxisC

  /** A TiffData's first coordinate on an axis, 0 when absent. */
  function First(td: TiffDataXml, a: Axis): nat
  {
    match a
    case AxisZ => OrZero(td.firstZ)
    case AxisT => OrZero(td.firstT)
    case AxisC => OrZero(td.firstC)
  }

  /** The smallest first coordinate on an axis over a series' TiffData; none without TiffData. */
  function SeriesStart(tds: seq<TiffDataXml>, a: Axis): (r: Option<nat>)
    ensures r.None? <==> |tds| == 0
    decreases |tds|
  {
    if |tds| == 0 then None
    else
      var prev := SeriesStart(tds[..|tds| - 1], a);
      var f := First(tds[|tds| - 1], a);
      if prev.None? || f < prev.value then Some(f) else prev
  }

  /** The start is the smallest first coordinate, and some TiffData has it. */
  lemma {:induction false} SeriesStartIsMinimum(tds: seq<TiffDataXml>, a: Axis)
    ensures var r := SeriesStart(tds, a);
      r.Some? ==> (forall k :: 0 <= k < |tds| ==> r.value <= First(tds[k], a)) && exists k :: 0 <= k < |tds| && r.value == First(tds[k], a)
    decreases |tds|
  {
    if |tds| > 0 {
      var init := tds[..|tds| - 1];
      SeriesStartIsMinimum(init, a);
      assert forall k :: 0 <= k < |init| ==> init[k] == tds[k];
      var prev := SeriesStart(init, a);
      if prev.Some? {
        var m :| 0 <= m < |init| && prev.value == First(init[m], a);
        assert prev.value == First(tds[m], a);
      }
    }
  }

  /** The Z, T and C starts of a series. */
  datatype Starts = Starts(z: Option<nat>, t: Option<nat>, c: Option<nat>)

  /**
   * seriesIndexStart as written: the Z start is taken over the FirstC
   * values, so it is the C start; the T and C starts are their own axes'.
   */
  function IndexStartsAsWritten(tds: seq<TiffDataXml>): (r: Starts)
    ensures r.z == r.c
    ensures r.t == IndexStarts(tds).t && r.c == IndexStarts(tds).c
  {
    Starts(SeriesStart(tds, AxisC), SeriesStart(tds, AxisT), SeriesStart(tds, AxisC))
  }

  /** Two axes with the same first coordinate in every TiffData have the same start. */
  lemma {:induction false} SeriesStartAgree(tds: seq<TiffDataXml>, a: Axis, b: Axis)
    requires forall k :: 0 <= k < |tds| ==> First(tds[k], a) == First(tds[k], b)
    ensures SeriesStart(tds, a) == SeriesStart(tds, b)
    decreases |tds|
  {
    if |tds| > 0 {
      var init := tds[..|tds| - 1];
      assert forall k :: 0 <= k < |init| ==> init[k] == tds[k];
      SeriesStartAgree(init, a, b);
    }
  }

  /** Where every TiffData's FirstZ equals its FirstC, the starts as written are the intended ones. */
  lemma AsWrittenStartsAgree(tds: seq<TiffDataXml>)
    requires forall k :: 0 <= k < |tds| ==> First(tds[k], AxisZ) == First(tds[k], AxisC)
    ensures IndexStartsAsWritten(tds) == IndexStarts(tds)
  {
    SeriesStartAgree(tds, AxisZ, AxisC);
  }

  /** seriesIndexStart as evidently intended, each start over its own axis. */
  function IndexStarts(tds: seq<TiffDataXml>): (r: Starts)
    ensures r.z == SeriesStart(tds, AxisZ) && r.t == SeriesStart(tds, AxisT) && r.c == SeriesStart(tds, AxisC)
  {
    Starts(SeriesStart(tds, AxisZ), SeriesStart(tds, AxisT), SeriesStart(tds, AxisC))
  }

  /**
   * seriesIndexStart: one pass over the TiffData keeping the smallest
   * first coordinate of each axis, the Z one read from FirstC.
   */
  method SeriesIndexStart(tds: seq<TiffDataXml>) returns (starts: Starts)
    ensures starts == IndexStartsAsWritten(tds)
  {
    var z: Option<nat> := None;
    var t: Option<nat> := None;
    var c: Option<nat> := None;
    var i := 0;
    while i < |tds|
      invariant 0 <= i <= |tds|
      invariant z == SeriesStart(tds[..i], AxisC) && t == SeriesStart(tds[..i], AxisT) && c == SeriesStart(tds[..i], AxisC)
    {
      assert tds[..i + 1][..i] == tds[..i];
      var firstC := OrZero(tds[i].firstC);
      if c.None? || firstC < c.value {
        c := Some(firstC);
      }
      var firstZ := OrZero(tds[i].firstC);
      if z.None? || firstZ < z.value {
        z := Some(firstZ);
      }
      var firstT := OrZero(tds[i].firstT);
      if t.None? || firstT < t.value {
        t := Some(firstT);
      }
      i := i + 1;
    }
    assert tds[..i] == tds;
    starts := Starts(z, t, c);
  }

  /** The correction applied to a first coordinate: the start is subtracted only when it fits. */
  function Corrected(value: nat, start: Option<nat>): (r: nat)
    ensures start.Some? && value >= start.value ==> r + start.value == value
    ensures !(start.Some? && value >= start.value) ==> r == value
  {
    if start.Some? && value >= start.value then value - start.value else value
  }

  /** With the series' own starts, every TiffData's coordinate is moved down by exactly its series minimum. */
  lemma {:induction false} CorrectedByMinimum(tds: seq<TiffDataXml>, k: nat, a: Axis)
    requires k < |tds|
    ensures SeriesStart(tds, a).Some?
    ensures Corrected(First(tds[k], a), SeriesStart(tds, a)) == First(tds[k], a) - SeriesStart(tds, a).value
    ensures exists m :: 0 <= m < |tds| && Corrected(First(tds[m], a), SeriesStart(tds, a)) == 0
  {
    SeriesStartIsMinimum(tds, a);
    var s := SeriesStart(tds, a);
    var m :| 0 <= m < |tds| && s.value == First(tds[m], a);
    assert Corrected(First(tds[m], a), s) == 0;
  }

  /**
   * The Z start taken from FirstC: a series written 1-based in Z only
   * (one plane, FirstZ=1, FirstC=0) gets Z start 0, so its Z coordinate
   * stays 1 and falls outside a Z size of 1; with the Z values it is 0.
   */
  lemma ZStartFromFirstC()
    ensures var td := TiffDataXml(None, None, Some(0), Some(1), Some(1), Some(0), Some(0));
      IndexStartsAsWritten([td]).z == Some(0) &&
      Corrected(First(td, AxisZ), IndexStartsAsWritten([td]).z) == 1 &&
      IndexStarts([td]).z == Some(1) &&
      Corrected(First(td, AxisZ), IndexStarts([td]).z) == 0
  {
    var td := TiffDataXml(None, None, Some(0), Some(1), Some(1), Some(0), Some(0));
    assert [td][..0] == [];
  }

  // ---- channel samples ----

  function SamplesOf(ch: ChannelXml): nat
  {
    if ch.samplesPerPixel.Some? then ch.samplesPerPixel.value else 1
  }

  /** checkChannelSamplesPerPixel as written: every channel takes channel 0's sample count. */
  function ChannelSamplesAsWritten(img: ImageXml): (r: seq<nat>)
    ensures |img.channels| > 0 ==> |r| == |img.channels| && forall k :: 0 <= k < |r| ==> r[k] == SamplesOf(img.channels[0])
    ensures |img.channels| == 0 ==> |r| == img.sizeC && forall k :: 0 <= k < |r| ==> r[k] == 1
  {
    if |img.channels| > 0 then seq(|img.channels|, k => SamplesOf(img.channels[0]))
    else seq(img.sizeC, k => 1)
  }

  /**
   * checkChannelSamplesPerPixel as evidently intended: one entry per
   * Channel element holding its SamplesPerPixel (1 when absent); with no Channel elements, SizeC
   * channels of one sample each.
   */
  function ChannelSamples(img: ImageXml): (r: seq<nat>)
    ensures |img.channels| > 0 ==> |r| == |img.channels| && forall k :: 0 <= k < |r| ==> r[k] == SamplesOf(img.channels[k])
    ensures |img.channels| == 0 ==> |r| == img.sizeC && forall k :: 0 <= k < |r| ==> r[k] == 1
  {
    if |img.channels| > 0 then seq(|img.channels|, k requires 0 <= k < |img.channels| => SamplesOf(img.channels[k]))
    else seq(img.sizeC, k => 1)
  }

  /** The sample-count list checkChannelSamplesPerPixel builds, channel by channel, each from channel 0. */
  method ChannelSampleList(img: ImageXml) returns (sizeC: seq<nat>)
    ensures sizeC == ChannelSamplesAsWritten(img)
  {
    sizeC := [];
    if |img.channels| > 0 {
      var k := 0;
      while k < |img.channels|
        invariant 0 <= k <= |img.channels|
        invariant sizeC == seq(k, j => SamplesOf(img.channels[0]))
      {
        var samples := 1;
        if img.channels[0].samplesPerPixel.Some? {
          samples := img.channels[0].samplesPerPixel.value;
        }
        sizeC := sizeC + [samples];
        k := k + 1;
      }
    } else {
      var k := 0;
      while k < img.sizeC
        invariant 0 <= k <= img.sizeC
        invariant sizeC == seq(k, j => 1)
      {
        sizeC := sizeC + [1];
        k := k + 1;
      }
    }
  }

  /** Channel 0's count spread over a channel with a different count: an RGB channel next to a grey one. */
  lemma ChannelZeroSpread()
    ensures var img := ImageXml(XYZCT, 1, 1, 2, [ChannelXml(Some(3), None), ChannelXml(Some(1), None)], [], []);
      ChannelSamplesAsWritten(img) == [3, 3] && ChannelSamples(img) == [3, 1]
  {
  }

  // ---- image count and dimension repairs ----

  /**
   * fixImageCounts for one series: a single image whose Z, T or channel
   * count is not 1 becomes 1×1 with channel 0's samples; an empty channel
   * list makes sizeC.at(0) fail.
   */
  function FixImageCounts(c: CoreMetadata): (r: Result<CoreMetadata>)
    ensures r.Err? <==> c.imageCount == 1 && |c.sizeC| == 0
    ensures r.Err? ==> r.error == FormatWriters.OutOfRange
    ensures r.Ok? && c.imageCount == 1 ==> r.value.sizeZ == 1 && r.value.sizeT == 1 && r.value.sizeC == [c.sizeC[0]]
    ensures r.Ok? ==> r.value.(sizeZ := c.sizeZ, sizeT := c.sizeT, sizeC := c.sizeC) == c
    ensures c.imageCount != 1 ==> r == Ok(c)
  {
    if c.imageCount == 1 && (c.sizeZ != 1 || c.sizeT != 1 || |c.sizeC| != 1) then
      if |c.sizeC| == 0 then Err(FormatWriters.OutOfRange)
      else Ok(c.(sizeZ := 1, sizeT := 1, sizeC := [c.sizeC[0]]))
    else Ok(c)
  }

  /** Repairing a repaired series changes nothing. */
  lemma FixImageCountsIdempotent(c: CoreMetadata)
    requires FixImageCounts(c).Ok?
    ensures FixImageCounts(FixImageCounts(c).value) == FixImageCounts(c)
  {
  }

  /** The sum of the sample counts of all channels. */
  function SampleTotal(sizeC: seq<nat>): (n: nat)
    ensures |sizeC| == 1 ==> n == sizeC[0]
    decreases |sizeC|
  {
    if |sizeC| == 0 then 0 else SampleTotal(sizeC[..|sizeC| - 1]) + sizeC[|sizeC| - 1]
  }

  /** fixDimensions applies: more planes than images, and every channel a single sample. */
  predicate Mismatched(c: CoreMetadata)
  {
    c.sizeZ * c.sizeT * SampleTotal(c.sizeC) > c.imageCount && SampleTotal(c.sizeC) == |c.sizeC|
  }

  /**
   * fixDimensions for a non-null series: keep the single axis equal to
   * the image count (Z, then T, then the channels) and set the others to
   * 1; when none matches, Z = 1, T = the image count, one channel.
   */
  function FixDimensions(c: CoreMetadata): (r: CoreMetadata)
    ensures r.(sizeZ := c.sizeZ, sizeT := c.sizeT, sizeC := c.sizeC) == c
    ensures !Mismatched(c) ==> r == c
  {
    if Mismatched(c) then
      if c.sizeZ == c.imageCount then c.(sizeT := 1, sizeC := [1])
      else if c.sizeT == c.imageCount then c.(sizeZ := 1, sizeC := [1])
      else if SampleTotal(c.sizeC) == c.imageCount then c.(sizeZ := 1, sizeT := 1)
      else c.(sizeZ := 1, sizeT := c.imageCount, sizeC := [1])
    else c
  }

  /** After the repair, Z·T·C equals the image count, on the axis that matched when one did. */
  lemma {:induction false} FixDimensionsConsistent(c: CoreMetadata)
    requires Mismatched(c)
    ensures var r := FixDimensions(c);
      r.sizeZ * r.sizeT * SampleTotal(r.sizeC) == c.imageCount &&
      (c.sizeZ == c.imageCount ==> r.sizeZ == c.sizeZ && r.sizeT == 1 && r.sizeC == [1]) &&
      (c.sizeZ != c.imageCount && c.sizeT == c.imageCount ==> r.sizeT == c.sizeT && r.sizeZ == 1 && r.sizeC == [1]) &&
      (c.sizeZ != c.imageCount && c.sizeT != c.imageCount && SampleTotal(c.sizeC) == c.imageCount ==>
        r.sizeC == c.sizeC && r.sizeZ == 1 && r.sizeT == 1)
  {
    var r := FixDimensions(c);
    assert SampleTotal([1]) == 1;
    if c.sizeZ == c.imageCount {
      assert r.sizeZ * r.sizeT * SampleTotal(r.sizeC) == c.sizeZ * 1 * 1;
    } else if c.sizeT == c.imageCount {
      assert r.sizeZ * r.sizeT * SampleTotal(r.sizeC) == 1 * c.sizeT * 1;
    } else if SampleTotal(c.sizeC) == c.imageCount {
      assert r.sizeZ * r.sizeT * SampleTotal(r.sizeC) == 1 * 1 * SampleTotal(c.sizeC);
    } else {
      assert r.sizeZ * r.sizeT * SampleTotal(r.sizeC) == 1 * c.imageCount * 1;
    }
  }

  /** Repairing a repaired series changes nothing. */
  lemma {:induction false} FixDimensionsIdempotent(c: CoreMetadata)
    ensures FixDimensions(FixDimensions(c)) == FixDimensions(c)
  {
    if Mismatched(c) {
      FixDimensionsConsistent(c);
      assert !Mismatched(FixDimensions(c));
    }
  }

  // ---- OMERO exports ----

  const OMERO_EXPORT := "__omero_export"

  /**
   * fixOMEROMetadata: a series with a named first channel, some TiffData,
   * the OMERO export marker among the UUIDs and a full-resolution entry
   * has its dimension order reset to XYZCT; anything else is left alone.
   */
  function FixOmeroMetadata(img: ImageXml, uuids: set<string>, entry: Option<CoreMetadata>): (r: Option<CoreMetadata>)
    ensures r.None? <==> entry.None?
    ensures r.Some? ==> r.value.(dimensionOrder := entry.value.dimensionOrder) == entry.value
    ensures r.Some? && r.value.dimensionOrder != entry.value.dimensionOrder ==> r.value.dimensionOrder == XYZCT
    ensures r != entry <==> (entry.Some? && entry.value.dimensionOrder != XYZCT &&
      |img.channels| > 0 && img.channels[0].name.Some? && |img.tiffData| > 0 && OMERO_EXPORT in uuids)
  {
    if |img.channels| > 0 && img.channels[0].name.Some? && |img.tiffData| > 0 && OMERO_EXPORT in uuids && entry.Some? then
      Some(entry.value.(dimensionOrder := XYZCT))
    else entry
  }

  lemma FixOmeroMetadataIdempotent(img: ImageXml, uuids: set<string>, entry: Option<CoreMetadata>)
    ensures FixOmeroMetadata(img, uuids, FixOmeroMetadata(img, uuids, entry)) == FixOmeroMetadata(img, uuids, entry)
  {
  }

  // ---- missing plane indexes ----

  function PlaneWithIndexes(p: PlaneXml): PlaneXml
  {
    PlaneXml(Some(OrZero(p.theZ)), Some(OrZero(p.theT)), Some(OrZero(p.theC)))
  }

  /** Every image with its Plane elements' unset TheZ, TheT and TheC set to 0. */
  function WithPlaneIndexes(meta: seq<ImageXml>): (r: seq<ImageXml>)
    ensures |r| == |meta|
  {
    seq(|meta|, s requires 0 <= s < |meta| =>
      meta[s].(planes := seq(|meta[s].planes|, k requires 0 <= k < |meta[s].planes| => PlaneWithIndexes(meta[s].planes[k]))))
  }

  /**
   * fixMissingPlaneIndexes: no Plane is added or removed, every index ends
   * up set, set ones keep their value, and nothing else changes.
   */
  lemma PlaneIndexesFilled(meta: seq<ImageXml>, s: nat, k: nat)
    requires s < |meta|
    ensures var r := WithPlaneIndexes(meta);
      |r[s].planes| == |meta[s].planes| && r[s].(planes := meta[s].planes) == meta[s] &&
      (k < |meta[s].planes| ==>
        var p := meta[s].planes[k]; var q := r[s].planes[k];
        q.theZ.Some? && q.theT.Some? && q.theC.Some? &&
        (p.theZ.Some? ==> q.theZ == p.theZ) && (p.theT.Some? ==> q.theT == p.theT) && (p.theC.Some? ==> q.theC == p.theC) &&
        (p.theZ.None? ==> q.theZ == Some(0)) && (p.theT.None? ==> q.theT == Some(0)) && (p.theC.None? ==> q.theC == Some(0)))
  {
  }

  /** fixMissingPlaneIndexes: the loop over every series and every Plane. */
  method FixMissingPlaneIndexes(meta: seq<ImageXml>) returns (fixed: seq<ImageXml>)
    ensures fixed == WithPlaneIndexes(meta)
  {
    fixed := meta;
    var s := 0;
    while s < |meta|
      invariant 0 <= s <= |meta| && |fixed| == |meta|
      invariant forall i :: 0 <= i < s ==> fixed[i] == WithPlaneIndexes(meta)[i]
      invariant forall i :: s <= i < |meta| ==> fixed[i] == meta[i]
    {
      var planes := meta[s].planes;
      var k := 0;
      while k < |planes|
        invariant 0 <= k <= |planes| == |meta[s].planes|
        invariant forall j :: 0 <= j < k ==> planes[j] == PlaneWithIndexes(meta[s].planes[j])
        invariant forall j :: k <= j < |planes| ==> planes[j] == meta[s].planes[j]
      {
        var p := planes[k];
        var z := p.theZ;
        if z.None? {
          z := Some(0);
        }
        var t := p.theT;
        if t.None? {
          t := Some(0);
        }
        var c := p.theC;
        if c.None? {
          c := Some(0);
        }
        planes := planes[k := PlaneXml(z, t, c)];
        k := k + 1;
      }
      fixed := fixed[s := meta[s].(planes := planes)];
      s := s + 1;
    }
  }

  // ---- sub-resolution acceptance ----

  /**
   * compareResolution: a sub-resolution may be used when it is no wider
   * and no higher than the full resolution and agrees with it in Z, T,
   * channels, pixel type, indexing and interleaving.
   */
  function CompareResolution(full: CoreMetadata, sub: CoreMetadata): (accepted: bool)
    ensures accepted ==> Dominates(full, sub) && !Larger(sub, full)
  {
    full.sizeX >= sub.sizeX && full.sizeY >= sub.sizeY && full.sizeZ == sub.sizeZ &&
    full.sizeT == sub.sizeT && full.sizeC == sub.sizeC && full.pixelType == sub.pixelType &&
    full.indexed == sub.indexed && full.interleaved == sub.interleaved
  }

  /** Acceptance is a preorder: every image accepts itself, and acceptance chains. */
  lemma CompareResolutionPreorder(a: CoreMetadata, b: CoreMetadata, c: CoreMetadata)
    ensures CompareResolution(a, a)
    ensures CompareResolution(a, b) && CompareResolution(b, c) ==> CompareResolution(a, c)
  {
  }
}
