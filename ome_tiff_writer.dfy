// The OME-TIFF writer: planes may go to several TIFF files, each with
// its own UUID and running directory count.  The writer keeps a table of
// every plane of every series (which file and directory it went to, and
// whether it has been written), and on close turns that table into one
// TiffData record per plane for the OME-XML it stores in each file.
module OmeTiffWriters {
  import opened Wrappers
  import opened Decimals
  import opened FormatWriters
  import opened IfdSetups
  import opened OmeTiffPlanes
  import DimensionIndex

  const IfdNotSetUp := "Directory tags have not been set"
  const OmeMetaNull := "OMEXMLMetadata null"
  /** The placeholder ImageDescription of a file's first directory, later patched to the OME-XML. */
  const DEFAULT_DESCRIPTION := "OME-TIFF"
  /** NewSubfileType bits (TIFF Revision 6.0, section 8): bit 0 a reduced-resolution image, bit 1 a page. */
  const SUBFILETYPE_REDUCEDIMAGE: nat := 1
  const SUBFILETYPE_PAGE: nat := 2
  const UUID_PREFIX := "urn:uuid:"

  function UnwrittenPlanes(n: nat): string
  {
    "Inconsistent writer state: " + DecimalString(n) + " planes have not been written"
  }

  function Unregistered(id: string): string
  {
    "Inconsistent writer state: TIFF file \"" + id + "\" not registered with a UUID"
  }

  // ---- directories ----

  /** What setupIFD gives an OME-TIFF directory beyond the plain TIFF setup. */
  datatype OmeDirectory = OmeDirectory(setup: IfdSetup, description: Option<string>, subfileType: nat, subIfdCount: nat)

  /**
   * setupIFD of the OME-TIFF writer, given the plain directory setup, the
   * resolution level and the series' level count: the placeholder
   * description in a file's first directory only, and the subfile type
   * of a page (at full resolution, announcing one SubIFD per
   * sub-resolution) or of a reduced-resolution page.  The level count is
   * only consulted at full resolution.
   */
  function DirectoryFor(setup: Result<IfdSetup>, resolution: nat, levels: Result<nat>, ifdCount: nat)
    : (r: Result<OmeDirectory>)
    ensures r.Ok? <==> setup.Ok? && (resolution == 0 ==> levels.Ok?)
    ensures setup.Err? ==> r == Err(setup.error)
    ensures setup.Ok? && resolution == 0 && levels.Err? ==> r == Err(levels.error)
    ensures r.Ok? ==> r.value.setup == setup.value
    ensures r.Ok? ==> r.value.description == (if ifdCount == 0 then Some(DEFAULT_DESCRIPTION) else None)
    ensures r.Ok? && resolution == 0 ==>
              && r.value.subfileType == SUBFILETYPE_PAGE
              && r.value.subIfdCount + 1 == (if levels.value > 1 then levels.value else 1)
    ensures r.Ok? && resolution != 0 ==>
              r.value.subfileType == SUBFILETYPE_PAGE + SUBFILETYPE_REDUCEDIMAGE && r.value.subIfdCount == 0
  {
    var description := if ifdCount == 0 then Some(DEFAULT_DESCRIPTION) else None;
    if setup.Err? then Err(setup.error)
    else if resolution != 0 then
      Ok(OmeDirectory(setup.value, description, SUBFILETYPE_PAGE + SUBFILETYPE_REDUCEDIMAGE, 0))
    else if levels.Err? then Err(levels.error)
    else Ok(OmeDirectory(setup.value, description, SUBFILETYPE_PAGE, if levels.value > 1 then levels.value - 1 else 0))
  }

  /** setupIFD for the writer's current state and the file's directory count. */
  function OmeSetup(w: FormatWriter, ifdCount: nat): (r: Result<OmeDirectory>)
    reads w
    requires w.Usable()
    ensures r.Ok? <==> PlaneSetup(w).Ok? && (w.resolution == 0 ==> w.ResolutionCount().Ok?)
    ensures r.Ok? ==> r.value.setup == PlaneSetup(w).value
    ensures r.Ok? ==> r.value.description == (if ifdCount == 0 then Some(DEFAULT_DESCRIPTION) else None)
  {
    DirectoryFor(PlaneSetup(w), w.resolution, w.ResolutionCount(), ifdCount)
  }

  /** One open TIFF file: its UUID, directories written so far, and the directory being filled. */
  datatype TiffState = TiffState(uuid: string, ifdCount: nat, directory: Result<OmeDirectory>,
                                 written: seq<Result<OmeDirectory>>)

  // ---- the plane table ----

  /** The metadata's own (Z, channel count, T) sizes, zeros included, that the plane table is sized by. */
  function RawSizes(img: ImageMeta): DimensionIndex.ZCT
  {
    DimensionIndex.ZCT(img.sizeZ, img.channelCount, img.sizeT)
  }

  function RawPlaneCount(img: ImageMeta): nat
  {
    DimensionIndex.Count(RawSizes(img))
  }

  /** A plane not written yet: certainly expected, absent so far. */
  const UNWRITTEN := DEFAULT_PLANE.(certain := true, status := Absent)

  /** The table has a row per series and a plane per raw plane count. */
  predicate Shaped(states: seq<seq<Plane>>, m: Metadata)
  {
    && |states| == |m.images|
    && forall s :: 0 <= s < |states| ==> |states[s]| == RawPlaneCount(m.images[s])
  }

  /** Every written plane names a registered file and a directory that file has reached. */
  predicate Registered(states: seq<seq<Plane>>, tiffs: map<string, TiffState>)
  {
    forall s, p :: 0 <= s < |states| && 0 <= p < |states[s]| && states[s][p].status == Present ==>
      states[s][p].id in tiffs && states[s][p].index <= tiffs[states[s][p].id].ifdCount
  }

  /** Registering more files, or counting more directories, keeps every written plane registered. */
  lemma RegisteredGrow(states: seq<seq<Plane>>, t0: map<string, TiffState>, t1: map<string, TiffState>)
    requires Registered(states, t0)
    requires forall k :: k in t0 ==> k in t1 && t0[k].ifdCount <= t1[k].ifdCount
    ensures Registered(states, t1)
  {
  }

  predicate AllPresent(states: seq<seq<Plane>>)
  {
    forall s, p :: 0 <= s < |states| && 0 <= p < |states[s]| ==> states[s][p].status == Present
  }

  /**
   * The table the first setId builds: one row per series of Z x T x
   * channel-count planes, every one expected and not yet written.
   */
  method InitialPlanes(m: Metadata) returns (states: seq<seq<Plane>>)
    ensures Shaped(states, m)
    ensures forall s, p :: 0 <= s < |states| && 0 <= p < |states[s]| ==> states[s][p] == UNWRITTEN
    ensures forall s, p :: 0 <= s < |states| && 0 <= p < |states[s]| ==> states[s][p].status != Present
  {
    states := [];
    var s := 0;
    while s < |m.images|
      invariant 0 <= s <= |m.images| && |states| == s
      invariant forall i :: 0 <= i < s ==> |states[i]| == RawPlaneCount(m.images[i])
      invariant forall i, p :: 0 <= i < s && 0 <= p < |states[i]| ==> states[i][p] == UNWRITTEN
    {
      var count := RawPlaneCount(m.images[s]);
      var row: seq<Plane> := [];
      while |row| < count
        invariant |row| <= count
        invariant forall p :: 0 <= p < |row| ==> row[p] == UNWRITTEN
      {
        row := row + [UNWRITTEN];
      }
      states := states + [row];
      s := s + 1;
    }
  }

  /** The number of planes of a row that are not written. */
  function UnwrittenIn(row: seq<Plane>): (n: nat)
    ensures n <= |row|
  {
    if row == [] then 0
    else UnwrittenIn(row[..|row| - 1]) + (if row[|row| - 1].status != Present then 1 else 0)
  }

  /** The number of planes of the table that are not written. */
  function Unwritten(states: seq<seq<Plane>>): nat
  {
    if states == [] then 0
    else Unwritten(states[..|states| - 1]) + UnwrittenIn(states[|states| - 1])
  }

  lemma {:induction false} UnwrittenInZero(row: seq<Plane>)
    ensures UnwrittenIn(row) == 0 <==> forall p :: 0 <= p < |row| ==> row[p].status == Present
  {
    if row != [] {
      var init := row[..|row| - 1];
      UnwrittenInZero(init);
      assert forall p :: 0 <= p < |init| ==> init[p] == row[p];
    }
  }

  /** The count of planes not written is zero exactly when every plane is present. */
  lemma {:induction false} UnwrittenZero(states: seq<seq<Plane>>)
    ensures Unwritten(states) == 0 <==> AllPresent(states)
  {
    if states != [] {
      var init := states[..|states| - 1];
      UnwrittenZero(init);
      UnwrittenInZero(states[|states| - 1]);
      assert forall s :: 0 <= s < |init| ==> init[s] == states[s];
    }
  }

  /** The first loop of fillMetadata: count the planes not written. */
  method CountUnwritten(states: seq<seq<Plane>>) returns (n: nat)
    ensures n == Unwritten(states)
  {
    n := 0;
    var s := 0;
    while s < |states|
      invariant 0 <= s <= |states|
      invariant n == Unwritten(states[..s])
    {
      var row := states[s];
      var m: nat := 0;
      var p := 0;
      while p < |row|
        invariant 0 <= p <= |row|
        invariant m == UnwrittenIn(row[..p])
      {
        assert row[..p + 1][..p] == row[..p];
        if row[p].status != Present {
          m := m + 1;
        }
        p := p + 1;
      }
      assert row[..p] == row;
      assert states[..s + 1][..s] == states[..s];
      n := n + m;
      s := s + 1;
    }
    assert states[..s] == states;
  }

  // ---- TiffData ----

  /**
   * A TiffData element as fillMetadata sets it: the UUID's file name and
   * value, the first Z, C and T, the directory and the plane count; a
   * missing attribute is left unset.
   */
  datatype TiffData = TiffData(fileName: Option<string>, uuid: Option<string>, first: Option<DimensionIndex.ZCT>,
                               ifd: Option<nat>, planeCount: nat)

  /** The single TiffData of a series without planes: only a plane count of 0. */
  const EMPTY_SERIES := TiffData(None, None, None, None, 0)

  /** The TiffData of plane p of a series: its file and that file's UUID, its coordinates and its directory. */
  function PlaneTiffData(img: ImageMeta, plane: Plane, p: nat, tiffs: map<string, TiffState>): (r: Result<TiffData>)
    requires p < RawPlaneCount(img)
    ensures r.Ok? <==> plane.id in tiffs
    ensures r.Err? ==> r.error == Unregistered(plane.id)
  {
    if plane.id !in tiffs then Err(Unregistered(plane.id))
    else
      var coords := DimensionIndex.GetZCTCoords(img.dimensionOrder, RawSizes(img), p).value;
      Ok(TiffData(Some(plane.id), Some(UUID_PREFIX + tiffs[plane.id].uuid), Some(coords), Some(plane.index), 1))
  }

  /** The TiffData of planes p onwards of a series, stopping at the first failure. */
  function PlanesTiffData(img: ImageMeta, row: seq<Plane>, tiffs: map<string, TiffState>, p: nat): (r: Result<seq<TiffData>>)
    ensures r.Ok? ==> |r.value| == (if p < RawPlaneCount(img) then RawPlaneCount(img) - p else 0)
    ensures p < RawPlaneCount(img) && |row| < RawPlaneCount(img) ==> r.Err?
    decreases RawPlaneCount(img) - p
  {
    if p >= RawPlaneCount(img) then Ok([])
    else if p >= |row| then Err(OutOfRange)
    else
      var d :- PlaneTiffData(img, row[p], p, tiffs);
      var rest :- PlanesTiffData(img, row, tiffs, p + 1);
      Ok([d] + rest)
  }

  /** The TiffData of series s: a plane count of 0 alone for a series without planes, otherwise one per plane. */
  function SeriesTiffData(img: ImageMeta, states: seq<seq<Plane>>, s: nat, tiffs: map<string, TiffState>): (r: Result<seq<TiffData>>)
    ensures r.Ok? ==> |r.value| == (if RawPlaneCount(img) == 0 then 1 else RawPlaneCount(img))
    ensures RawPlaneCount(img) > 0 && (s >= |states| || |states[s]| < RawPlaneCount(img)) ==> r.Err?
  {
    if RawPlaneCount(img) == 0 then Ok([EMPTY_SERIES])
    else if s >= |states| then Err(OutOfRange)
    else PlanesTiffData(img, states[s], tiffs, 0)
  }

  /** The TiffData of series s onwards. */
  function AllTiffData(m: Metadata, states: seq<seq<Plane>>, tiffs: map<string, TiffState>, s: nat): (r: Result<seq<seq<TiffData>>>)
    ensures r.Ok? ==> |r.value| == (if s < |m.images| then |m.images| - s else 0)
    ensures r.Ok? ==> forall i :: s <= i < |m.images| ==> SeriesTiffData(m.images[i], states, i, tiffs).Ok?
    decreases |m.images| - s
  {
    if s >= |m.images| then Ok([])
    else
      var d :- SeriesTiffData(m.images[s], states, s, tiffs);
      var rest :- AllTiffData(m, states, tiffs, s + 1);
      Ok([d] + rest)
  }

  /**
   * fillMetadata: the OME-XML must exist and every plane must have been
   * written; then each series gets its TiffData.
   */
  function FillMetadataSpec(omeMeta: bool, m: Metadata, states: seq<seq<Plane>>, tiffs: map<string, TiffState>)
    : (r: Result<seq<seq<TiffData>>>)
    ensures r.Ok? ==> omeMeta && AllPresent(states)
    ensures omeMeta && !AllPresent(states) ==> r == Err(UnwrittenPlanes(Unwritten(states)))
  {
    UnwrittenZero(states);
    if !omeMeta then Err(OmeMetaNull)
    else
      var bad := Unwritten(states);
      if bad > 0 then Err(UnwrittenPlanes(bad))
      else AllTiffData(m, states, tiffs, 0)
  }

  /** The failure a loop step passes on, or the accumulated values before the rest. */
  function Prefixed<T>(acc: seq<T>, r: Result<seq<T>>): Result<seq<T>>
  {
    if r.Ok? then Ok(acc + r.value) else Err(r.error)
  }

  lemma PrefixedEnds<T>(acc: seq<T>, r: Result<seq<T>>)
    ensures Prefixed([], r) == r
    ensures Prefixed(acc, Ok([])) == Ok(acc)
  {
    if r.Ok? {
      assert [] + r.value == r.value;
    }
    assert acc + [] == acc;
  }

  /** Moving one value from the rest onto the accumulated ones. */
  lemma PrefixedStep<T>(acc: seq<T>, d: T, rest: Result<seq<T>>)
    ensures Prefixed(acc + [d], rest) == Prefixed(acc, if rest.Ok? then Ok([d] + rest.value) else Err(rest.error))
  {
    if rest.Ok? {
      assert acc + [d] + rest.value == acc + ([d] + rest.value);
    }
  }

  method EmitPlanes(img: ImageMeta, row: seq<Plane>, tiffs: map<string, TiffState>) returns (r: Result<seq<TiffData>>)
    ensures r == PlanesTiffData(img, row, tiffs, 0)
  {
    var count := RawPlaneCount(img);
    var acc: seq<TiffData> := [];
    var p: nat := 0;
    PrefixedEnds(acc, PlanesTiffData(img, row, tiffs, 0));
    while p < count
      invariant p <= count
      invariant PlanesTiffData(img, row, tiffs, 0) == Prefixed(acc, PlanesTiffData(img, row, tiffs, p))
      decreases count - p
    {
      if p >= |row| {
        return Err(OutOfRange);
      }
      var d := PlaneTiffData(img, row[p], p, tiffs);
      if d.Err? {
        return Err(d.error);
      }
      PrefixedStep(acc, d.value, PlanesTiffData(img, row, tiffs, p + 1));
      acc := acc + [d.value];
      p := p + 1;
    }
    PrefixedEnds(acc, Ok([]));
    return Ok(acc);
  }

  /** The second loop of fillMetadata, over the series and their planes. */
  method EmitTiffData(m: Metadata, states: seq<seq<Plane>>, tiffs: map<string, TiffState>) returns (r: Result<seq<seq<TiffData>>>)
    ensures r == AllTiffData(m, states, tiffs, 0)
  {
    var acc: seq<seq<TiffData>> := [];
    var s: nat := 0;
    PrefixedEnds(acc, AllTiffData(m, states, tiffs, 0));
    while s < |m.images|
      invariant s <= |m.images|
      invariant AllTiffData(m, states, tiffs, 0) == Prefixed(acc, AllTiffData(m, states, tiffs, s))
      decreases |m.images| - s
    {
      var img := m.images[s];
      var d: Result<seq<TiffData>>;
      if RawPlaneCount(img) == 0 {
        d := Ok([EMPTY_SERIES]);
      } else if s >= |states| {
        d := Err(OutOfRange);
      } else {
        d := EmitPlanes(img, states[s], tiffs);
      }
      assert d == SeriesTiffData(img, states, s, tiffs);
      if d.Err? {
        return Err(d.error);
      }
      PrefixedStep(acc, d.value, AllTiffData(m, states, tiffs, s + 1));
      acc := acc + [d.value];
      s := s + 1;
    }
    PrefixedEnds(acc, Ok([]));
    return Ok(acc);
  }

  /** fillMetadata as the writer runs it: the checks, the count, then the emitting loops. */
  method FillMetadata(omeMeta: bool, m: Metadata, states: seq<seq<Plane>>, tiffs: map<string, TiffState>)
    returns (r: Result<seq<seq<TiffData>>>)
    ensures r == FillMetadataSpec(omeMeta, m, states, tiffs)
  {
    if !omeMeta {
      return Err(OmeMetaNull);
    }
    var bad := CountUnwritten(states);
    if bad > 0 {
      return Err(UnwrittenPlanes(bad));
    }
    r := EmitTiffData(m, states, tiffs);
  }

  // ---- what fillMetadata produces ----

  /** The TiffData expected for plane p: the plane's file and directory, its UUID and its coordinates. */
  predicate IsPlaneTiffData(d: TiffData, img: ImageMeta, plane: Plane, p: nat, tiffs: map<string, TiffState>)
  {
    && plane.id in tiffs
    && d.fileName == Some(plane.id) && d.uuid == Some(UUID_PREFIX + tiffs[plane.id].uuid)
    && d.ifd == Some(plane.index) && d.planeCount == 1
    && d.first.Some?
    && DimensionIndex.GetIndex(img.dimensionOrder, RawSizes(img), d.first.value) == Ok(p)
  }

  lemma PlaneTiffDataIs(img: ImageMeta, plane: Plane, p: nat, tiffs: map<string, TiffState>)
    requires p < RawPlaneCount(img) && PlaneTiffData(img, plane, p, tiffs).Ok?
    ensures IsPlaneTiffData(PlaneTiffData(img, plane, p, tiffs).value, img, plane, p, tiffs)
  {
    DimensionIndex.IndexOfCoords(img.dimensionOrder, RawSizes(img), p);
  }

  lemma {:induction false} PlanesTiffDataShape(img: ImageMeta, row: seq<Plane>, tiffs: map<string, TiffState>, p: nat)
    requires p <= RawPlaneCount(img) && PlanesTiffData(img, row, tiffs, p).Ok?
    ensures var ds := PlanesTiffData(img, row, tiffs, p).value;
            && |ds| == RawPlaneCount(img) - p && (p < RawPlaneCount(img) ==> RawPlaneCount(img) <= |row|)
            && forall q :: p <= q < RawPlaneCount(img) ==> IsPlaneTiffData(ds[q - p], img, row[q], q, tiffs)
    decreases RawPlaneCount(img) - p
  {
    if p < RawPlaneCount(img) {
      PlaneTiffDataIs(img, row[p], p, tiffs);
      PlanesTiffDataShape(img, row, tiffs, p + 1);
      var ds := PlanesTiffData(img, row, tiffs, p).value;
      var rest := PlanesTiffData(img, row, tiffs, p + 1).value;
      assert ds == [PlaneTiffData(img, row[p], p, tiffs).value] + rest;
      forall q | p < q < RawPlaneCount(img)
        ensures IsPlaneTiffData(ds[q - p], img, row[q], q, tiffs)
      {
        assert ds[q - p] == rest[q - (p + 1)];
      }
    }
  }

  lemma {:induction false} AllTiffDataShape(m: Metadata, states: seq<seq<Plane>>, tiffs: map<string, TiffState>, s: nat)
    requires s <= |m.images| && AllTiffData(m, states, tiffs, s).Ok?
    ensures var ds := AllTiffData(m, states, tiffs, s).value;
            && |ds| == |m.images| - s
            && forall i :: s <= i < |m.images| ==> SeriesTiffData(m.images[i], states, i, tiffs) == Ok(ds[i - s])
    decreases |m.images| - s
  {
    if s < |m.images| {
      AllTiffDataShape(m, states, tiffs, s + 1);
    }
  }

  /** The TiffData of one series: the empty-series element alone, or one for each plane. */
  lemma {:induction false} SeriesTiffDataIs(img: ImageMeta, states: seq<seq<Plane>>, s: nat, tiffs: map<string, TiffState>)
    requires SeriesTiffData(img, states, s, tiffs).Ok?
    ensures RawPlaneCount(img) == 0 ==> SeriesTiffData(img, states, s, tiffs).value == [EMPTY_SERIES]
    ensures RawPlaneCount(img) > 0 ==>
              var ds := SeriesTiffData(img, states, s, tiffs).value;
              && |ds| == RawPlaneCount(img) && s < |states| && |ds| <= |states[s]|
              && forall p :: 0 <= p < |ds| ==> IsPlaneTiffData(ds[p], img, states[s][p], p, tiffs)
  {
    if RawPlaneCount(img) > 0 {
      assert s < |states| && SeriesTiffData(img, states, s, tiffs) == PlanesTiffData(img, states[s], tiffs, 0);
      PlanesTiffDataShape(img, states[s], tiffs, 0);
    }
  }

  /**
   * What a successful fillMetadata emits: a TiffData list per series; a
   * series without planes gets the single plane-count-0 element, any
   * other one TiffData per plane, naming the plane's file, that file's
   * UUID and the directory recorded for the plane, with a plane count of
   * 1 and the coordinates of the plane's own index.
   */
  lemma OneTiffDataPerPlane(omeMeta: bool, m: Metadata, states: seq<seq<Plane>>, tiffs: map<string, TiffState>)
    requires FillMetadataSpec(omeMeta, m, states, tiffs).Ok?
    ensures |FillMetadataSpec(omeMeta, m, states, tiffs).value| == |m.images|
    ensures forall s :: 0 <= s < |m.images| ==>
              SeriesTiffData(m.images[s], states, s, tiffs) == Ok(FillMetadataSpec(omeMeta, m, states, tiffs).value[s])
  {
    FillIsAllTiffData(omeMeta, m, states, tiffs);
    var ds := AllTiffData(m, states, tiffs, 0).value;
    AllTiffDataShape(m, states, tiffs, 0);
    forall s | 0 <= s < |m.images| ensures SeriesTiffData(m.images[s], states, s, tiffs) == Ok(ds[s]) {
      assert s - 0 == s;
    }
  }

  /** A successful fill is the TiffData of every series from the first. */
  lemma FillIsAllTiffData(omeMeta: bool, m: Metadata, states: seq<seq<Plane>>, tiffs: map<string, TiffState>)
    requires FillMetadataSpec(omeMeta, m, states, tiffs).Ok?
    ensures FillMetadataSpec(omeMeta, m, states, tiffs) == AllTiffData(m, states, tiffs, 0)
  {
    UnwrittenZero(states);
  }

  lemma {:induction false} PlanesTiffDataOk(img: ImageMeta, row: seq<Plane>, tiffs: map<string, TiffState>, p: nat)
    requires |row| == RawPlaneCount(img)
    requires forall q :: 0 <= q < |row| ==> row[q].id in tiffs
    ensures PlanesTiffData(img, row, tiffs, p).Ok?
    decreases RawPlaneCount(img) - p
  {
    if p < RawPlaneCount(img) {
      PlanesTiffDataOk(img, row, tiffs, p + 1);
    }
  }

  lemma {:induction false} AllTiffDataOk(m: Metadata, states: seq<seq<Plane>>, tiffs: map<string, TiffState>, s: nat)
    requires Shaped(states, m)
    requires forall i, q :: 0 <= i < |states| && 0 <= q < |states[i]| ==> states[i][q].id in tiffs
    ensures AllTiffData(m, states, tiffs, s).Ok?
    decreases |m.images| - s
  {
    if s < |m.images| {
      if RawPlaneCount(m.images[s]) > 0 {
        PlanesTiffDataOk(m.images[s], states[s], tiffs, 0);
      }
      AllTiffDataOk(m, states, tiffs, s + 1);
    }
  }

  /**
   * With the OME-XML present, a table shaped by the metadata, every plane
   * written and every written plane's file registered, fillMetadata
   * cannot fail: the unregistered-file and out-of-range errors do not
   * arise.
   */
  lemma FillMetadataSucceeds(m: Metadata, states: seq<seq<Plane>>, tiffs: map<string, TiffState>)
    requires Shaped(states, m) && AllPresent(states) && Registered(states, tiffs)
    ensures FillMetadataSpec(true, m, states, tiffs).Ok?
  {
    UnwrittenZero(states);
    AllTiffDataOk(m, states, tiffs, 0);
  }

  // ---- the writer ----

  class OmeTiffWriter {
    const writer: FormatWriter
    /** The files opened so far, by path. */
    var tiffs: map<string, TiffState>
    /** The file planes currently go to. */
    var current: Option<string>
    /** The TIFF open flags chosen on the first setId: "w", with "8" for BigTIFF. */
    var flags: string
    var seriesState: seq<seq<Plane>>
    /** Whether the OME-XML copy of the metadata exists. */
    var omeMeta: bool
    var bigTiff: Option<bool>

    /** A current file exactly while the writer has an id, and it is registered. */
    predicate Valid()
      reads this, writer
    {
      && writer.Usable()
      && (current.Some? <==> writer.currentId.Some?)
      && (current.Some? ==> current.value in tiffs && writer.currentId == current)
      && Registered(seriesState, tiffs)
    }

    constructor(props: WriterProperties)
      ensures fresh(writer) && writer.properties == props && writer.currentId.None?
      ensures writer.metadata == Some(DUMMY_METADATA) && writer.series == 0 && writer.plane == 0
      ensures tiffs == map[] && current.None? && flags == "" && seriesState == [] && !omeMeta && bigTiff.None?
      ensures Valid()
    {
      writer := new FormatWriter(props);
      tiffs, current, flags := map[], None, "";
      seriesState, omeMeta, bigTiff := [], false, None;
    }

    /** nextIFD: write the current file's directory and count it. */
    method NextIfd()
      requires current.Some? && current.value in tiffs
      modifies this
      ensures var st := old(tiffs)[old(current).value];
              tiffs == old(tiffs)[old(current).value := TiffState(st.uuid, st.ifdCount + 1, Err(IfdNotSetUp),
                                                             st.written + [st.directory])]
      ensures current == old(current) && flags == old(flags) && seriesState == old(seriesState)
      ensures omeMeta == old(omeMeta) && bigTiff == old(bigTiff)
    {
      var st := tiffs[current.value];
      tiffs := tiffs[current.value := TiffState(st.uuid, st.ifdCount + 1, Err(IfdNotSetUp), st.written + [st.directory])];
    }

    /** nextSUBIFD: write the current file's directory without counting it. */
    method NextSubIfd()
      requires current.Some? && current.value in tiffs
      modifies this
      ensures var st := old(tiffs)[old(current).value];
              tiffs == old(tiffs)[old(current).value := st.(directory := Err(IfdNotSetUp), written := st.written + [st.directory])]
      ensures current == old(current) && flags == old(flags) && seriesState == old(seriesState)
      ensures omeMeta == old(omeMeta) && bigTiff == old(bigTiff)
    {
      var st := tiffs[current.value];
      tiffs := tiffs[current.value := st.(directory := Err(IfdNotSetUp), written := st.written + [st.directory])];
    }

    /** setupIFD: configure the current file's directory from the writer's state. */
    method SetupIfd() returns (r: Result<Unit>)
      requires writer.Usable() && current.Some? && current.value in tiffs
      modifies this
      ensures var st := old(tiffs)[old(current).value];
              && tiffs == old(tiffs)[old(current).value := st.(directory := OmeSetup(writer, st.ifdCount))]
              && (r.Ok? <==> OmeSetup(writer, st.ifdCount).Ok?)
              && (r.Err? ==> r.error == OmeSetup(writer, st.ifdCount).error)
      ensures current == old(current) && flags == old(flags) && seriesState == old(seriesState)
      ensures omeMeta == old(omeMeta) && bigTiff == old(bigTiff)
    {
      var st := tiffs[current.value];
      var d := OmeSetup(writer, st.ifdCount);
      tiffs := tiffs[current.value := st.(directory := d)];
      if d.Err? {
        return Err(d.error);
      }
      return Ok(Unit);
    }

    /**
     * setId: nothing happens for the file already current.  The first
     * call builds the plane table from the metadata and fixes the open
     * flags; a file not seen before is opened with the given UUID and its
     * first directory set up, while returning to a file already opened
     * only makes it current again.  The UUID and the BigTIFF decision are
     * inputs.
     */
    method SetId(path: string, uuid: string, wantBig: bool) returns (r: Result<Unit>)
      requires Valid() && writer.metadata.Some?
      modifies this, writer
      ensures Valid()
      ensures old(writer.currentId) == Some(path) ==> r.Ok? && unchanged(this) && unchanged(writer)
      ensures old(writer.currentId) != Some(path) ==>
                && writer.currentId == Some(path) && current == Some(path)
                && (old(seriesState) == [] ==>
                      && omeMeta && Shaped(seriesState, old(writer.metadata).value)
                      && forall s, p :: 0 <= s < |seriesState| && 0 <= p < |seriesState[s]| ==> seriesState[s][p] == UNWRITTEN)
                && (old(seriesState) != [] ==> seriesState == old(seriesState) && omeMeta == old(omeMeta))
                && flags == (if old(flags) == "" then (if wantBig then "w8" else "w") else old(flags))
                && (path in old(tiffs) ==> tiffs == old(tiffs) && r.Ok?)
                && (path !in old(tiffs) ==>
                      && tiffs == old(tiffs)[path := TiffState(uuid, 0, OmeSetup(writer, 0), [])]
                      && (r.Ok? <==> OmeSetup(writer, 0).Ok?))
      ensures writer.series == old(writer.series) && writer.resolution == old(writer.resolution)
      ensures writer.plane == old(writer.plane) && writer.metadata == old(writer.metadata)
      ensures writer.resolutionLevels == old(writer.resolutionLevels) && writer.OptionsKept()
      ensures bigTiff == old(bigTiff)
    {
      if writer.currentId == Some(path) {
        return Ok(Unit);
      }
      PrepareTables(wantBig);
      if path !in tiffs {
        writer.SetId(path);
        RegisteredGrow(seriesState, tiffs, tiffs[path := TiffState(uuid, 0, Err(IfdNotSetUp), [])]);
        tiffs := tiffs[path := TiffState(uuid, 0, Err(IfdNotSetUp), [])];
        current := Some(path);
        ghost var before := tiffs;
        r := SetupIfd();
        RegisteredGrow(seriesState, before, tiffs);
      } else {
        writer.SetId(path);
        current := Some(path);
        r := Ok(Unit);
      }
    }

    /** The first setId's part: the plane table from the metadata, then the open flags. */
    method PrepareTables(wantBig: bool)
      requires writer.metadata.Some? && Registered(seriesState, tiffs)
      modifies this
      ensures Registered(seriesState, tiffs)
      ensures old(seriesState) == [] ==>
                && omeMeta && Shaped(seriesState, writer.metadata.value)
                && forall s, p :: 0 <= s < |seriesState| && 0 <= p < |seriesState[s]| ==> seriesState[s][p] == UNWRITTEN
      ensures old(seriesState) != [] ==> seriesState == old(seriesState) && omeMeta == old(omeMeta)
      ensures flags == (if old(flags) == "" then (if wantBig then "w8" else "w") else old(flags))
      ensures tiffs == old(tiffs) && current == old(current) && bigTiff == old(bigTiff)
    {
      if seriesState == [] {
        seriesState := InitialPlanes(writer.metadata.value);
        omeMeta := true;
      }
      if flags == "" {
        flags := if wantBig then "w8" else "w";
      }
    }

    /**
     * setSeries: the shared writer's checks and update; when the series
     * actually changes, the current file's directory is written and
     * counted and the next one set up.
     */
    method SetSeries(s: nat) returns (r: Result<Unit>)
      requires Valid()
      modifies this, writer
      ensures Valid()
      ensures var allowed := old(writer.currentId).Some? && s < |old(writer.metadata).value.images|
                             && StepAllowed(old(writer.series), s);
              && (!allowed ==> r.Err? && tiffs == old(tiffs) && writer.series == old(writer.series)
                               && writer.plane == old(writer.plane))
              && (allowed ==> writer.series == s && writer.resolution == 0 && writer.plane == 0)
              && (allowed && s == old(writer.series) ==> r.Ok? && tiffs == old(tiffs))
              && (allowed && s != old(writer.series) ==>
                    var st := old(tiffs)[old(current).value];
                    && tiffs == old(tiffs)[old(current).value := TiffState(st.uuid, st.ifdCount + 1,
                                                                      OmeSetup(writer, st.ifdCount + 1),
                                                                      st.written + [st.directory])]
                    && (r.Ok? <==> OmeSetup(writer, st.ifdCount + 1).Ok?))
      ensures old(writer.currentId).None? ==> r == Err(NoCurrentFile)
      ensures current == old(current) && seriesState == old(seriesState) && flags == old(flags)
      ensures omeMeta == old(omeMeta) && bigTiff == old(bigTiff)
      ensures writer.currentId == old(writer.currentId) && writer.metadata == old(writer.metadata)
      ensures writer.resolutionLevels == old(writer.resolutionLevels)
    {
      var currentSeries :- writer.Series();
      var b := writer.SetSeries(s);
      if b.Err? {
        return b;
      }
      if currentSeries != s {
        NextIfd();
        r := SetupIfd();
      } else {
        r := Ok(Unit);
      }
    }

    /**
     * setResolution: the shared writer's check and update; when the
     * level actually changes, the directory is written as a SubIFD, not
     * counted, and the next one set up.
     */
    method SetResolution(res: nat) returns (r: Result<Unit>)
      requires Valid()
      modifies this, writer
      ensures Valid()
      ensures var allowed := old(writer.ResolutionCount()).Ok? && res < old(writer.ResolutionCount()).value;
              && (!allowed ==> r.Err? && tiffs == old(tiffs) && writer.resolution == old(writer.resolution))
              && (allowed ==> writer.resolution == res && writer.plane == 0 && writer.series == old(writer.series))
              && (allowed && res == old(writer.resolution) ==> r.Ok? && tiffs == old(tiffs))
              && (allowed && res != old(writer.resolution) ==>
                    var st := old(tiffs)[old(current).value];
                    && tiffs == old(tiffs)[old(current).value := TiffState(st.uuid, st.ifdCount,
                                                                      OmeSetup(writer, st.ifdCount),
                                                                      st.written + [st.directory])]
                    && (r.Ok? <==> OmeSetup(writer, st.ifdCount).Ok?))
      ensures old(writer.currentId).None? ==> r == Err(NoCurrentFile)
      ensures current == old(current) && seriesState == old(seriesState) && flags == old(flags)
      ensures omeMeta == old(omeMeta) && bigTiff == old(bigTiff)
      ensures writer.currentId == old(writer.currentId) && writer.metadata == old(writer.metadata)
      ensures writer.resolutionLevels == old(writer.resolutionLevels)
    {
      if writer.currentId.None? {
        return Err(NoCurrentFile);
      }
      var currentResolution := writer.resolution;
      var b := writer.SetResolution(res);
      if b.Err? {
        return b;
      }
      if currentResolution != res {
        NextSubIfd();
        r := SetupIfd();
      } else {
        r := Ok(Unit);
      }
    }

    /**
     * setPlane: the shared writer's checks and update; when the plane
     * actually changes, the directory is written and counted and the next
     * one set up.
     */
    method SetPlane(p: nat) returns (r: Result<Unit>)
      requires Valid()
      modifies this, writer
      ensures Valid()
      ensures var allowed := old(writer.ImageCount()).Ok? && p < old(writer.ImageCount()).value
                             && StepAllowed(old(writer.plane), p);
              && (!allowed ==> r.Err? && tiffs == old(tiffs) && writer.plane == old(writer.plane))
              && (allowed ==> writer.plane == p)
              && (allowed && p == old(writer.plane) ==> r.Ok? && tiffs == old(tiffs))
              && (allowed && p != old(writer.plane) ==>
                    var st := old(tiffs)[old(current).value];
                    && tiffs == old(tiffs)[old(current).value := TiffState(st.uuid, st.ifdCount + 1,
                                                                      OmeSetup(writer, st.ifdCount + 1),
                                                                      st.written + [st.directory])]
                    && (r.Ok? <==> OmeSetup(writer, st.ifdCount + 1).Ok?))
      ensures old(writer.currentId).None? ==> r == Err(NoCurrentFile)
      ensures writer.series == old(writer.series) && writer.resolution == old(writer.resolution)
      ensures current == old(current) && seriesState == old(seriesState) && flags == old(flags)
      ensures omeMeta == old(omeMeta) && bigTiff == old(bigTiff)
      ensures writer.currentId == old(writer.currentId) && writer.metadata == old(writer.metadata)
      ensures writer.resolutionLevels == old(writer.resolutionLevels)
    {
      if writer.currentId.None? {
        return Err(NoCurrentFile);
      }
      var currentPlane := writer.plane;
      var b := writer.SetPlane(p);
      if b.Err? {
        return b;
      }
      if currentPlane != p {
        NextIfd();
        r := SetupIfd();
      } else {
        r := Ok(Unit);
      }
    }

    /**
     * saveBytes: select the plane, find its entry in the table, write it
     * through the current directory, and only then, and only at full
     * resolution, record the plane as present in the current file at that
     * file's directory count.  The pixel data itself is not modelled.
     */
    method SaveBytes(p: nat) returns (r: Result<Unit>)
      requires Valid()
      modifies this, writer
      ensures Valid()
      ensures old(writer.currentId).None? ==> r == Err(NoCurrentFile)
      ensures r.Ok? ==> && writer.plane == p && current.Some? && writer.series < |old(seriesState)|
                        && p < |old(seriesState)[writer.series]| && tiffs[current.value].directory.Ok?
      ensures r.Ok? && writer.resolution == 0 ==>
                && current.Some? && writer.series < |old(seriesState)| && p < |old(seriesState)[writer.series]|
                && seriesState == old(seriesState)[writer.series := old(seriesState)[writer.series][p :=
                     Plane(current.value, tiffs[current.value].ifdCount, true, Present)]]
      ensures r.Err? || writer.resolution != 0 ==> seriesState == old(seriesState)
      ensures p == old(writer.plane) ==> tiffs == old(tiffs)
      ensures r.Ok? && p != old(writer.plane) ==>
                var st := old(tiffs)[old(current).value];
                tiffs == old(tiffs)[old(current).value := TiffState(st.uuid, st.ifdCount + 1, OmeSetup(writer, st.ifdCount + 1),
                                                                   st.written + [st.directory])]
      ensures r.Ok? && writer.resolution == 0 ==>
                var count := old(tiffs)[old(current).value].ifdCount;
                seriesState == old(seriesState)[writer.series := old(seriesState)[writer.series][p :=
                  Plane(old(current).value, if p == old(writer.plane) then count else count + 1, true, Present)]]
      ensures writer.series == old(writer.series) && writer.resolution == old(writer.resolution)
      ensures current == old(current) && tiffs.Keys == old(tiffs.Keys) && flags == old(flags)
      ensures omeMeta == old(omeMeta) && bigTiff == old(bigTiff)
    {
      if writer.currentId.None? {
        return Err(NoCurrentFile);
      }
      var sp := SetPlane(p);
      if sp.Err? {
        return sp;
      }
      var s := writer.series;
      if s >= |seriesState| || p >= |seriesState[s]| {
        return Err(OutOfRange);
      }
      var st := tiffs[current.value];
      if st.directory.Err? {
        return Err(st.directory.error);
      }
      if writer.resolution == 0 {
        seriesState := seriesState[s := seriesState[s][p := Plane(current.value, st.ifdCount, true, Present)]];
      }
      return Ok(Unit);
    }

    /**
     * close: flush the current file's last directory once, then fill the
     * TiffData; on success every file and the plane table are dropped,
     * and on failure only the current file is, so the directory is never
     * flushed twice.  The shared writer state is closed either way.
     */
    method Close() returns (r: Result<seq<seq<TiffData>>>)
      requires Valid()
      modifies this, writer
      ensures Valid()
      ensures current.None? && writer.currentId.None? && writer.metadata.None?
      ensures old(writer.currentId).Some? ==>
                var st := old(tiffs)[old(current).value];
                var flushed := old(tiffs)[old(current).value := TiffState(st.uuid, st.ifdCount + 1, Err(IfdNotSetUp),
                                                                         st.written + [st.directory])];
                && r == FillMetadataSpec(old(omeMeta), old(writer.metadata).value, old(seriesState), flushed)
                && (r.Err? ==> tiffs == flushed && seriesState == old(seriesState) && flags == old(flags)
                               && omeMeta == old(omeMeta) && bigTiff == old(bigTiff))
      ensures old(writer.currentId).None? ==> r == Ok([])
      ensures r.Ok? ==> tiffs == map[] && flags == "" && seriesState == [] && !omeMeta && bigTiff.None?
    {
      r := Ok([]);
      if writer.currentId.Some? {
        NextIfd();
        current := None;
        r := FillMetadata(omeMeta, writer.metadata.value, seriesState, tiffs);
        if r.Err? {
          writer.Close();
          return;
        }
      }
      tiffs, current, flags := map[], None, "";
      seriesState, omeMeta, bigTiff := [], false, None;
      writer.Close();
    }

    /** getTileSizeX: the current directory's tile width while a file is open and the request is unset or non-zero. */
    function TileSizeX(): (r: Result<nat>)
      reads this, writer
      requires Valid()
      ensures var open := writer.currentId.Some? && (writer.tileSizeX.None? || writer.tileSizeX.value != 0);
              && (open && tiffs[current.value].directory.Ok? ==>
                    r == Ok(tiffs[current.value].directory.value.setup.chunking.width))
              && (!open ==> r == writer.TileSizeX())
    {
      if writer.currentId.Some? && (writer.tileSizeX.None? || writer.tileSizeX.value != 0) then
        var d := tiffs[current.value].directory;
        if d.Ok? then Ok(d.value.setup.chunking.width) else Err(IfdNotSetUp)
      else writer.TileSizeX()
    }

    /** getTileSizeY: the same condition on the height request as getTileSizeX, but it reports the tile width. */
    function TileSizeY(): (r: Result<nat>)
      reads this, writer
      requires Valid()
      ensures var open := writer.currentId.Some? && (writer.tileSizeY.None? || writer.tileSizeY.value != 0);
              && (open && tiffs[current.value].directory.Ok? ==>
                    r == Ok(tiffs[current.value].directory.value.setup.chunking.width))
              && (!open ==> r == writer.TileSizeY())
    {
      if writer.currentId.Some? && (writer.tileSizeY.None? || writer.tileSizeY.value != 0) then
        var d := tiffs[current.value].directory;
        if d.Ok? then Ok(d.value.setup.chunking.width) else Err(IfdNotSetUp)
      else writer.TileSizeY()
    }

    /** getTileSizeY as evidently intended: the current directory's tile height. */
    function TileSizeYCorrected(): (r: Result<nat>)
      reads this, writer
      requires Valid()
      ensures var open := writer.currentId.Some? && (writer.tileSizeY.None? || writer.tileSizeY.value != 0);
              && (open && tiffs[current.value].directory.Ok? ==>
                    r == Ok(tiffs[current.value].directory.value.setup.chunking.height))
              && (!open ==> r == writer.TileSizeY())
    {
      if writer.currentId.Some? && (writer.tileSizeY.None? || writer.tileSizeY.value != 0) then
        var d := tiffs[current.value].directory;
        if d.Ok? then Ok(d.value.setup.chunking.height) else Err(IfdNotSetUp)
      else writer.TileSizeY()
    }

    /**
     * Once set up, a directory reports requested non-zero tile sizes back
     * through getTileSizeX and the corrected getTileSizeY, while
     * getTileSizeY itself reports the requested width, which differs
     * from the requested height whenever the two requests differ.
     */
    lemma ReportsRequestedTiles()
      requires Valid() && writer.currentId.Some?
      requires tiffs[current.value].directory.Ok? && PlaneSetup(writer).Ok?
      requires tiffs[current.value].directory.value.setup == PlaneSetup(writer).value
      requires writer.tileSizeX.Some? && writer.tileSizeY.Some? && writer.tileSizeX.value > 0 && writer.tileSizeY.value > 0
      ensures TileSizeX() == Ok(writer.tileSizeX.value) && TileSizeYCorrected() == Ok(writer.tileSizeY.value)
      ensures TileSizeY() == Ok(writer.tileSizeX.value)
      ensures writer.tileSizeX.value != writer.tileSizeY.value ==> TileSizeY() != TileSizeYCorrected()
    {
    }

    method SetBigTiff(big: Option<bool>)
      modifies this
      ensures bigTiff == big
      ensures tiffs == old(tiffs) && current == old(current) && flags == old(flags)
      ensures seriesState == old(seriesState) && omeMeta == old(omeMeta)
    {
      bigTiff := big;
    }
  }

  /**
   * A writer whose every plane has been saved at full resolution, on a
   * table the first setId built, closes without error.
   */
  lemma CloseSucceedsWhenAllWritten(m: Metadata, states: seq<seq<Plane>>, tiffs: map<string, TiffState>, cur: string)
    requires Shaped(states, m) && AllPresent(states) && Registered(states, tiffs) && cur in tiffs
    ensures var st := tiffs[cur];
            FillMetadataSpec(true, m, states, tiffs[cur := TiffState(st.uuid, st.ifdCount + 1, Err(IfdNotSetUp),
                                                                    st.written + [st.directory])]).Ok?
  {
    var st := tiffs[cur];
    var flushed := tiffs[cur := TiffState(st.uuid, st.ifdCount + 1, Err(IfdNotSetUp), st.written + [st.directory])];
    assert Registered(states, flushed);
    FillMetadataSucceeds(m, states, flushed);
  }
}
