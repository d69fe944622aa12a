// The state every image writer shares: the open file, the series,
// resolution and plane cursors with their ordering rules, the compression
// and tiling options, and the metadata the writer takes its sizes from.
// The metadata is modelled by the values the writer reads from it.
module FormatWriters {
  import opened Wrappers
  import opened Decimals
  import opened PixelTypes
  import DimensionIndex

  // ---- metadata the writer reads ----

  /** A resolution level: the X, Y and Z sizes of one pyramid level. */
  datatype Resolution = Resolution(x: nat, y: nat, z: nat)

  /**
   * What the writer reads about one image: its pixel sizes, channel
   * count, the samples per pixel of each channel (None when the metadata
   * has none), pixel type, significant bits, dimension order, and the
   * sub-resolutions its resolution annotations describe.
   */
  datatype ImageMeta = ImageMeta(
    sizeX: nat, sizeY: nat, sizeZ: nat, sizeT: nat, sizeC: nat,
    channelCount: nat,
    samplesPerPixel: seq<Option<nat>>,
    pixelType: PixelType,
    significantBits: nat,
    dimensionOrder: DimensionIndex.DimensionOrder,
    subResolutions: seq<Resolution>)

  /** A metadata object: its images, and whether it is also writable (a store). */
  datatype Metadata = Metadata(images: seq<ImageMeta>, isStore: bool)

  /** The placeholder metadata a new writer starts with: no images. */
  const DUMMY_METADATA := Metadata([], false)

  /** What a writer implementation declares about itself. */
  datatype WriterProperties = WriterProperties(
    name: string,
    compressionTypes: set<string>,
    pixelCompressionTypes: map<PixelType, set<string>>)

  const DEFAULT_CODEC := "default"
  const THUMBNAIL_DIMENSION: nat := 128

  // Errors.  The two file-state messages are those of assertId, whose
  // definition (FormatHandler) is not part of this model.
  const NoCurrentFile := "Current file should not be null; call setId() first"
  const FileStillOpen := "Current file should be null; call close() first"
  const NullStore := "MetadataStore can not be null"
  const MissingImage := "Metadata image index out of range"
  const OutOfRange := "vector::at index out of range"

  function InvalidSeries(s: nat): string { "Invalid series: " + DecimalString(s) }
  function SeriesOutOfOrder(s: nat, cur: nat): string
  {
    "Series set out of order: " + DecimalString(s) + " (currently " + DecimalString(cur) + ")"
  }
  function InvalidPlane(p: nat): string { "Invalid plane: " + DecimalString(p) }
  function PlaneOutOfOrder(p: nat, cur: nat): string
  {
    "Plane set out of order: " + DecimalString(p) + " (currently " + DecimalString(cur) + ")"
  }
  function InvalidResolution(r: nat): string { "Invalid resolution: " + DecimalString(r) }
  function InvalidCompression(c: string): string { "Invalid compression type: " + c }

  /** A size that the metadata leaves at 0 is reported as 1. */
  function SizeOr1(n: nat): (r: nat)
    ensures r >= 1
    ensures n > 0 ==> r == n
    ensures n == 0 ==> r == 1
  {
    if n == 0 then 1 else n
  }

  /**
   * getAllResolutions: each image's resolution list is its full size
   * followed by the sub-resolutions its annotations describe.
   */
  function AllResolutions(m: Metadata): (levels: seq<seq<Resolution>>)
    ensures |levels| == |m.images|
    ensures forall i :: 0 <= i < |m.images| ==>
              levels[i] == [FullResolution(m.images[i])] + m.images[i].subResolutions
  {
    seq(|m.images|, i requires 0 <= i < |m.images| =>
      [FullResolution(m.images[i])] + m.images[i].subResolutions)
  }

  function FullResolution(img: ImageMeta): Resolution
  {
    Resolution(img.sizeX, img.sizeY, img.sizeZ)
  }

  /** The store after its resolution annotations are removed. */
  function StripResolutions(m: Metadata): (s: Metadata)
    ensures |s.images| == |m.images| && s.isStore == m.isStore
    ensures forall i :: 0 <= i < |m.images| ==>
              s.images[i] == m.images[i].(subResolutions := [])
  {
    Metadata(seq(|m.images|, i requires 0 <= i < |m.images| => m.images[i].(subResolutions := [])),
             m.isStore)
  }

  /** Stripping keeps every full resolution, so the levels read before it stay derivable. */
  lemma StripKeepsFullResolutions(m: Metadata)
    ensures forall i :: 0 <= i < |m.images| ==>
              AllResolutions(StripResolutions(m))[i] == [AllResolutions(m)[i][0]]
  {
  }

  /**
   * The plane count of an image at full resolution: Z (1 where 0) times
   * T (1 where 0) times the channel count.
   */
  function PlaneCountOf(img: ImageMeta): (n: nat)
    ensures n == 0 <==> img.channelCount == 0
    ensures n >= img.channelCount
  {
    SizeOr1(img.sizeZ) * SizeOr1(img.sizeT) * img.channelCount
  }

  /** The plane count of every image, in order. */
  function PlaneCounts(m: Metadata): (counts: seq<nat>)
    ensures |counts| == |m.images|
    ensures forall i :: 0 <= i < |m.images| ==> counts[i] == PlaneCountOf(m.images[i])
  {
    seq(|m.images|, i requires 0 <= i < |m.images| => PlaneCountOf(m.images[i]))
  }

  /** The image lookup of the metadata, failing past its last image. */
  function ImageAt(m: Metadata, i: nat): (r: Result<ImageMeta>)
    ensures r.Ok? <==> i < |m.images|
    ensures r.Ok? ==> r.value == m.images[i]
  {
    if i < |m.images| then Ok(m.images[i]) else Err(MissingImage)
  }

  /**
   * The samples per pixel of a channel, or 1 when the metadata has no
   * value for it.
   */
  function SamplesOf(img: ImageMeta, channel: nat): (n: nat)
    ensures channel < |img.samplesPerPixel| && img.samplesPerPixel[channel].Some? ==>
              n == img.samplesPerPixel[channel].value
    ensures !(channel < |img.samplesPerPixel| && img.samplesPerPixel[channel].Some?) ==> n == 1
  {
    if channel < |img.samplesPerPixel| && img.samplesPerPixel[channel].Some?
    then img.samplesPerPixel[channel].value
    else 1
  }

  // ---- pixel types and codecs ----

  /** getPixelTypes(codec): exactly the pixel types one of whose codecs is codec. */
  function PixelTypesFor(props: WriterProperties, codec: string): (ts: set<PixelType>)
    ensures forall t :: t in ts <==> t in props.pixelCompressionTypes && codec in props.pixelCompressionTypes[t]
  {
    set t | t in props.pixelCompressionTypes && codec in props.pixelCompressionTypes[t]
  }

  /** isSupportedType(type, codec). */
  function IsSupportedType(props: WriterProperties, t: PixelType, codec: string): (b: bool)
    ensures b ==> t in props.pixelCompressionTypes.Keys
  {
    t in props.pixelCompressionTypes && codec in props.pixelCompressionTypes[t]
  }

  /** getCompressionTypes(type): the type's codecs, or none for an unlisted type. */
  function CompressionTypesFor(props: WriterProperties, t: PixelType): (cs: set<string>)
    ensures t in props.pixelCompressionTypes ==> cs == props.pixelCompressionTypes[t]
    ensures t !in props.pixelCompressionTypes ==> cs == {}
  {
    if t in props.pixelCompressionTypes then props.pixelCompressionTypes[t] else {}
  }

  /** A type is supported for a codec exactly when getPixelTypes(codec) lists it, and when the codec is one of its compression types. */
  lemma SupportedIffListed(props: WriterProperties, t: PixelType, codec: string)
    ensures IsSupportedType(props, t, codec) <==> t in PixelTypesFor(props, codec)
    ensures IsSupportedType(props, t, codec) <==> codec in CompressionTypesFor(props, t)
  {
  }

  // ---- cursor ordering ----

  /**
   * The ordering rule of setSeries and setPlane: a cursor may stay where
   * it is, advance by one, or go back to 0.
   */
  predicate StepAllowed(current: nat, next: nat)
  {
    next == current || next == current + 1 || next == 0
  }

  /**
   * Every series (or plane) below one the cursor reaches has been visited
   * before it: starting from 0, allowed steps never skip a value.
   */
  lemma {:induction false} NoSkips(trace: seq<nat>, k: nat)
    requires |trace| >= 1 && trace[0] == 0
    requires forall i :: 0 < i < |trace| ==> StepAllowed(trace[i - 1], trace[i])
    requires k < |trace|
    ensures forall v :: v < trace[k] ==> v in trace[..k]
  {
    if k > 0 {
      NoSkips(trace, k - 1);
      assert trace[..k] == trace[..k - 1] + [trace[k - 1]];
      assert StepAllowed(trace[k - 1], trace[k]);
    }
  }

  // ---- tile-size fallbacks ----

  /**
   * getTileSizeX: the tile width set by the caller; when unset, the image
   * width of the current series and resolution once a file is open, or
   * the width of the metadata's first image before that.  Without
   * metadata there is no fallback.
   */
  function TileSizeXFallback(tile: Option<nat>, m: Option<Metadata>, open: bool, level: Result<Resolution>): (r: Result<nat>)
    ensures tile.Some? ==> r == Ok(tile.value)
    ensures tile.None? && m.None? ==> r == Err(NullStore)
    ensures tile.None? && m.Some? && open ==>
              (r.Ok? <==> level.Ok?) && (r.Ok? ==> r.value == SizeOr1(level.value.x))
    ensures tile.None? && m.Some? && !open ==>
              (r.Ok? <==> |m.value.images| > 0) && (r.Ok? ==> r.value == m.value.images[0].sizeX)
  {
    if tile.Some? then Ok(tile.value)
    else if m.None? then Err(NullStore)
    else if open then (if level.Ok? then Ok(SizeOr1(level.value.x)) else Err(level.error))
    else if |m.value.images| > 0 then Ok(m.value.images[0].sizeX)
    else Err(MissingImage)
  }

  /** getTileSizeY with the height as its fallback. */
  function TileSizeYFallback(tile: Option<nat>, m: Option<Metadata>, open: bool, level: Result<Resolution>): (r: Result<nat>)
    ensures tile.Some? ==> r == Ok(tile.value)
    ensures tile.None? && m.None? ==> r == Err(NullStore)
    ensures tile.None? && m.Some? && open ==>
              (r.Ok? <==> level.Ok?) && (r.Ok? ==> r.value == SizeOr1(level.value.y))
    ensures tile.None? && m.Some? && !open ==>
              (r.Ok? <==> |m.value.images| > 0) && (r.Ok? ==> r.value == m.value.images[0].sizeY)
  {
    if tile.Some? then Ok(tile.value)
    else if m.None? then Err(NullStore)
    else if open then (if level.Ok? then Ok(SizeOr1(level.value.y)) else Err(level.error))
    else if |m.value.images| > 0 then Ok(m.value.images[0].sizeY)
    else Err(MissingImage)
  }

  /** getTileSizeY as written: its fallbacks are the width, like getTileSizeX's. */
  function TileSizeYFallbackAsWritten(tile: Option<nat>, m: Option<Metadata>, open: bool, level: Result<Resolution>): (r: Result<nat>)
    ensures r == TileSizeXFallback(tile, m, open, level)
  {
    if tile.Some? then Ok(tile.value)
    else if m.None? then Err(NullStore)
    else if open then (if level.Ok? then Ok(SizeOr1(level.value.x)) else Err(level.error))
    else if |m.value.images| > 0 then Ok(m.value.images[0].sizeX)
    else Err(MissingImage)
  }

  /**
   * For a 512 x 256 image with no tile size set, the written fallback
   * gives tiles 512 rows high, both before and after the file is opened.
   */
  lemma TileSizeYFallbackUsesWidth()
    ensures var img := ImageMeta(512, 256, 1, 1, 1, 1, [], UINT8, 8, DimensionIndex.XYZCT, []);
            var m := Some(Metadata([img], false));
            && TileSizeYFallbackAsWritten(None, m, false, Err(NoCurrentFile)) == Ok(512)
            && TileSizeYFallback(None, m, false, Err(NoCurrentFile)) == Ok(256)
            && TileSizeYFallbackAsWritten(None, m, true, Ok(FullResolution(img))) == Ok(512)
            && TileSizeYFallback(None, m, true, Ok(FullResolution(img))) == Ok(256)
  {
  }

  // ---- the writer ----

  class FormatWriter {
    const properties: WriterProperties
    var currentId: Option<string>
    var series: nat
    var resolution: nat
    var plane: nat
    var compression: Option<string>
    var interleaved: Option<bool>
    var sequential: bool
    var framesPerSecond: nat
    var tileSizeX: Option<nat>
    var tileSizeY: Option<nat>
    /** None once close() has released the metadata. */
    var metadata: Option<Metadata>
    var resolutionLevels: seq<seq<Resolution>>

    /**
     * A file is only ever open with metadata present: the queries that
     * read the metadata dereference it without a check.
     */
    predicate Usable()
      reads this
    {
      currentId.Some? ==> metadata.Some?
    }

    constructor(props: WriterProperties)
      ensures properties == props && currentId.None?
      ensures series == 0 && resolution == 0 && plane == 0
      ensures compression.None? && interleaved.None? && !sequential && framesPerSecond == 0
      ensures tileSizeX.None? && tileSizeY.None?
      ensures metadata == Some(DUMMY_METADATA) && resolutionLevels == []
      ensures Usable()
    {
      properties := props;
      currentId := None;
      series, resolution, plane := 0, 0, 0;
      compression, interleaved := None, None;
      sequential, framesPerSecond := false, 0;
      tileSizeX, tileSizeY := None, None;
      metadata := Some(DUMMY_METADATA);
      resolutionLevels := [];
    }

    /** Only the file, the cursors and the metadata differ between the two states. */
    twostate predicate OptionsKept()
      reads this
    {
      && compression == old(compression) && interleaved == old(interleaved)
      && sequential == old(sequential) && framesPerSecond == old(framesPerSecond)
      && tileSizeX == old(tileSizeX) && tileSizeY == old(tileSizeY)
    }

    /** Only the cursors differ between the two states. */
    twostate predicate OnlyCursorsChanged()
      reads this
    {
      && OptionsKept()
      && currentId == old(currentId) && metadata == old(metadata)
      && resolutionLevels == old(resolutionLevels)
    }

    /**
     * setId: the writer's file becomes the given (already canonical) path;
     * nothing else changes.
     */
    method SetId(path: string)
      modifies this
      ensures currentId == Some(path)
      ensures series == old(series) && resolution == old(resolution) && plane == old(plane)
      ensures OptionsKept() && metadata == old(metadata) && resolutionLevels == old(resolutionLevels)
    {
      if currentId.None? || currentId.value != path {
        currentId := Some(path);
      }
    }

    /**
     * close: no file, cursors at 0, compression, sequential writing and
     * frame rate back to their defaults, the metadata and resolution
     * levels released; the interleaving and tile-size options survive.
     */
    method Close()
      modifies this
      ensures currentId.None? && series == 0 && resolution == 0 && plane == 0
      ensures compression.None? && !sequential && framesPerSecond == 0
      ensures metadata.None? && resolutionLevels == []
      ensures interleaved == old(interleaved) && tileSizeX == old(tileSizeX) && tileSizeY == old(tileSizeY)
      ensures Usable()
    {
      currentId := None;
      series, resolution, plane := 0, 0, 0;
      compression := None;
      sequential, framesPerSecond := false, 0;
      metadata := None;
      resolutionLevels := [];
    }

    /**
     * setMetadataRetrieve: only while no file is open, and never with a
     * null argument.  The resolution levels are read from the metadata
     * before a writable store has its resolution annotations removed.
     */
    method SetMetadataRetrieve(retrieve: Option<Metadata>) returns (r: Result<Unit>)
      modifies this
      ensures old(currentId).Some? ==> r == Err(FileStillOpen)
      ensures old(currentId).None? && retrieve.None? ==> r == Err(NullStore)
      ensures r.Ok? <==> old(currentId).None? && retrieve.Some?
      ensures r.Err? ==> unchanged(this)
      ensures r.Ok? ==> && resolutionLevels == AllResolutions(retrieve.value)
                        && metadata == Some(if retrieve.value.isStore then StripResolutions(retrieve.value)
                                            else retrieve.value)
                        && currentId.None? && series == old(series) && resolution == old(resolution)
                        && plane == old(plane) && OptionsKept()
      ensures r.Ok? ==> Usable()
    {
      if currentId.Some? {
        return Err(FileStillOpen);
      }
      if retrieve.None? {
        return Err(NullStore);
      }
      var m := retrieve.value;
      resolutionLevels := AllResolutions(m);
      metadata := Some(if m.isStore then StripResolutions(m) else m);
      return Ok(Unit);
    }

    // ---- queries ----

    /** getSeries, which needs an open file. */
    function Series(): (r: Result<nat>)
      reads this
      ensures r.Ok? <==> currentId.Some?
      ensures r.Ok? ==> r.value == series
      ensures r.Err? ==> r.error == NoCurrentFile
    {
      if currentId.None? then Err(NoCurrentFile) else Ok(series)
    }

    /** getSeriesCount: the number of images in the metadata. */
    function SeriesCount(): (n: nat)
      reads this
      requires metadata.Some?
      ensures n == |metadata.value.images|
    {
      |metadata.value.images|
    }

    /** The resolution level the cursors point at. */
    function CurrentLevel(): (r: Result<Resolution>)
      reads this
      ensures r.Ok? <==> currentId.Some? && series < |resolutionLevels| && resolution < |resolutionLevels[series]|
      ensures r.Ok? ==> r.value == resolutionLevels[series][resolution]
    {
      if currentId.None? then Err(NoCurrentFile)
      else if series >= |resolutionLevels| || resolution >= |resolutionLevels[series]| then Err(OutOfRange)
      else Ok(resolutionLevels[series][resolution])
    }

    /** The metadata of the current series. */
    function CurrentImage(): (r: Result<ImageMeta>)
      reads this
      requires Usable()
      ensures r.Ok? <==> currentId.Some? && series < |metadata.value.images|
      ensures r.Ok? ==> r.value == metadata.value.images[series]
    {
      if currentId.None? then Err(NoCurrentFile) else ImageAt(metadata.value, series)
    }

    /** getSizeX: the level's width, 1 where it is 0. */
    function SizeX(): (r: Result<nat>)
      reads this
      ensures r.Ok? <==> CurrentLevel().Ok?
      ensures r.Ok? ==> r.value >= 1 && (CurrentLevel().value.x > 0 ==> r.value == CurrentLevel().value.x)
    {
      var l :- CurrentLevel();
      Ok(SizeOr1(l.x))
    }

    /** getSizeY: the level's height, 1 where it is 0. */
    function SizeY(): (r: Result<nat>)
      reads this
      ensures r.Ok? <==> CurrentLevel().Ok?
      ensures r.Ok? ==> r.value >= 1 && (CurrentLevel().value.y > 0 ==> r.value == CurrentLevel().value.y)
    {
      var l :- CurrentLevel();
      Ok(SizeOr1(l.y))
    }

    /** getSizeZ: the level's depth, 1 where it is 0. */
    function SizeZ(): (r: Result<nat>)
      reads this
      ensures r.Ok? <==> CurrentLevel().Ok?
      ensures r.Ok? ==> r.value >= 1 && (CurrentLevel().value.z > 0 ==> r.value == CurrentLevel().value.z)
    {
      var l :- CurrentLevel();
      Ok(SizeOr1(l.z))
    }

    /** getSizeT: the series' timepoint count, 1 where it is 0. */
    function SizeT(): (r: Result<nat>)
      reads this
      requires Usable()
      ensures r.Ok? <==> CurrentImage().Ok?
      ensures r.Ok? ==> r.value >= 1 && (CurrentImage().value.sizeT > 0 ==> r.value == CurrentImage().value.sizeT)
    {
      var img :- CurrentImage();
      Ok(SizeOr1(img.sizeT))
    }

    /** getSizeC: the series' channel size, 1 where it is 0. */
    function SizeC(): (r: Result<nat>)
      reads this
      requires Usable()
      ensures r.Ok? <==> CurrentImage().Ok?
      ensures r.Ok? ==> r.value >= 1 && (CurrentImage().value.sizeC > 0 ==> r.value == CurrentImage().value.sizeC)
    {
      var img :- CurrentImage();
      Ok(SizeOr1(img.sizeC))
    }

    /** getEffectiveSizeC: the channel count, with no replacement of 0. */
    function EffectiveSizeC(): (r: Result<nat>)
      reads this
      requires Usable()
      ensures r.Ok? <==> CurrentImage().Ok?
      ensures r.Ok? ==> r.value == CurrentImage().value.channelCount
    {
      var img :- CurrentImage();
      Ok(img.channelCount)
    }

    /** getRGBChannelCount: a channel's samples per pixel, 1 when the metadata has none. */
    function RGBChannelCount(channel: nat): (r: Result<nat>)
      reads this
      requires Usable()
      ensures r.Ok? <==> CurrentImage().Ok?
      ensures r.Ok? ==> r.value == SamplesOf(CurrentImage().value, channel)
    {
      var img :- CurrentImage();
      Ok(SamplesOf(img, channel))
    }

    /** isRGB: whether a channel has more than one sample per pixel. */
    function IsRGB(channel: nat): (r: Result<bool>)
      reads this
      requires Usable()
      ensures r.Ok? <==> RGBChannelCount(channel).Ok?
      ensures r.Ok? ==> (r.value <==> RGBChannelCount(channel).value > 1)
    {
      var n :- RGBChannelCount(channel);
      Ok(n > 1)
    }

    /** getImageCount: planes per series, Z times T times the effective channel count. */
    function ImageCount(): (r: Result<nat>)
      reads this
      requires Usable()
      ensures r.Ok? <==> SizeZ().Ok? && CurrentImage().Ok?
      ensures r.Ok? ==> r.value == SizeZ().value * SizeT().value * EffectiveSizeC().value
    {
      var z :- SizeZ();
      var img :- CurrentImage();
      Ok(z * SizeOr1(img.sizeT) * img.channelCount)
    }

    /** getDimensionOrder of the current series. */
    function DimensionOrder(): (r: Result<DimensionIndex.DimensionOrder>)
      reads this
      requires Usable()
      ensures r.Ok? <==> CurrentImage().Ok?
      ensures r.Ok? ==> r.value == CurrentImage().value.dimensionOrder
    {
      var img :- CurrentImage();
      Ok(img.dimensionOrder)
    }

    /** The (Z, effective C, T) sizes getIndex and getZCTCoords number planes by. */
    function PlaneSizes(): (r: Result<DimensionIndex.ZCT>)
      reads this
      requires Usable()
      ensures r.Ok? <==> ImageCount().Ok?
      ensures r.Ok? ==> && r.value == DimensionIndex.ZCT(SizeZ().value, EffectiveSizeC().value, SizeT().value)
                        && DimensionIndex.Count(r.value) == ImageCount().value
    {
      var z :- SizeZ();
      var img :- CurrentImage();
      Ok(DimensionIndex.ZCT(z, img.channelCount, SizeOr1(img.sizeT)))
    }

    /** getIndex: the plane index of (z, c, t) in the current series. */
    function Index(z: nat, c: nat, t: nat): (r: Result<nat>)
      reads this
      requires Usable()
      ensures PlaneSizes().Err? ==> r.Err?
      ensures PlaneSizes().Ok? ==>
                r == DimensionIndex.GetIndex(DimensionOrder().value, PlaneSizes().value, DimensionIndex.ZCT(z, c, t))
      ensures r.Ok? ==> r.value < ImageCount().value
    {
      var sizes :- PlaneSizes();
      DimensionIndex.GetIndex(CurrentImage().value.dimensionOrder, sizes, DimensionIndex.ZCT(z, c, t))
    }

    /** getZCTCoords: the (z, c, t) coordinates of a plane of the current series. */
    function ZCTCoords(index: nat): (r: Result<DimensionIndex.ZCT>)
      reads this
      requires Usable()
      ensures PlaneSizes().Err? ==> r.Err?
      ensures PlaneSizes().Ok? ==> (r.Ok? <==> index < ImageCount().value)
      ensures PlaneSizes().Ok? ==>
                r == DimensionIndex.GetZCTCoords(DimensionOrder().value, PlaneSizes().value, index)
    {
      var sizes :- PlaneSizes();
      DimensionIndex.GetZCTCoords(CurrentImage().value.dimensionOrder, sizes, index)
    }

    /** The writer's getIndex and getZCTCoords undo each other. */
    lemma IndexCoordsInverse(z: nat, c: nat, t: nat, index: nat)
      requires Usable()
      ensures Index(z, c, t).Ok? ==> ZCTCoords(Index(z, c, t).value) == Ok(DimensionIndex.ZCT(z, c, t))
      ensures ZCTCoords(index).Ok? ==> Index(ZCTCoords(index).value.z, ZCTCoords(index).value.c,
                                             ZCTCoords(index).value.t) == Ok(index)
    {
      if PlaneSizes().Ok? {
        var o, s := DimensionOrder().value, PlaneSizes().value;
        if Index(z, c, t).Ok? {
          DimensionIndex.CoordsOfIndex(o, s, DimensionIndex.ZCT(z, c, t));
        }
        if ZCTCoords(index).Ok? {
          DimensionIndex.IndexOfCoords(o, s, index);
        }
      }
    }

    /** getResolutionCount: the number of levels of the current series. */
    function ResolutionCount(): (r: Result<nat>)
      reads this
      ensures r.Ok? <==> currentId.Some? && series < |resolutionLevels|
      ensures r.Ok? ==> r.value == |resolutionLevels[series]|
    {
      if currentId.None? then Err(NoCurrentFile)
      else if series >= |resolutionLevels| then Err(OutOfRange)
      else Ok(|resolutionLevels[series]|)
    }

    /** getTileSizeX. */
    function TileSizeX(): (r: Result<nat>)
      reads this
      ensures tileSizeX.Some? ==> r == Ok(tileSizeX.value)
      ensures tileSizeX.None? && metadata.Some? && currentId.Some? ==> r == SizeX()
      ensures r == TileSizeXFallback(tileSizeX, metadata, currentId.Some?, CurrentLevel())
    {
      TileSizeXFallback(tileSizeX, metadata, currentId.Some?, CurrentLevel())
    }

    /**
     * getTileSizeY as the source has it: an unset height falls back to the
     * width, exactly as getTileSizeX's does (TileSizeYFallback is the
     * height fallback evidently intended).
     */
    function TileSizeY(): (r: Result<nat>)
      reads this
      ensures tileSizeY.Some? ==> r == Ok(tileSizeY.value)
      ensures tileSizeY.None? && metadata.Some? && currentId.Some? ==> r == SizeX()
      ensures tileSizeY.None? ==> r == TileSizeXFallback(None, metadata, currentId.Some?, CurrentLevel())
    {
      TileSizeYFallbackAsWritten(tileSizeY, metadata, currentId.Some?, CurrentLevel())
    }

    // ---- cursor and option updates ----

    /**
     * setSeries: needs an open file, a series the metadata has, and an
     * allowed step from the current series; a successful call puts the
     * resolution and plane cursors back to 0.
     */
    method SetSeries(s: nat) returns (r: Result<Unit>)
      requires Usable()
      modifies this
      ensures r.Ok? <==> old(currentId).Some? && s < |old(metadata).value.images| && StepAllowed(old(series), s)
      ensures old(currentId).None? ==> r == Err(NoCurrentFile)
      ensures old(currentId).Some? && s >= |old(metadata).value.images| ==> r == Err(InvalidSeries(s))
      ensures old(currentId).Some? && s < |old(metadata).value.images| && !StepAllowed(old(series), s) ==>
                r == Err(SeriesOutOfOrder(s, old(series)))
      ensures r.Err? ==> unchanged(this)
      ensures r.Ok? ==> series == s && resolution == 0 && plane == 0 && OnlyCursorsChanged()
      ensures Usable()
    {
      if currentId.None? {
        return Err(NoCurrentFile);
      }
      if s >= SeriesCount() {
        return Err(InvalidSeries(s));
      }
      var current := series;
      if current != s && (s > 0 && current != s - 1) {
        return Err(SeriesOutOfOrder(s, current));
      }
      series, resolution, plane := s, 0, 0;
      return Ok(Unit);
    }

    /**
     * setPlane: needs an open file, a plane below the image count, and an
     * allowed step from the current plane; only the plane cursor changes.
     */
    method SetPlane(p: nat) returns (r: Result<Unit>)
      requires Usable()
      modifies this
      ensures r.Ok? <==> old(ImageCount()).Ok? && p < old(ImageCount()).value && StepAllowed(old(plane), p)
      ensures old(currentId).None? ==> r == Err(NoCurrentFile)
      ensures old(ImageCount()).Ok? && p >= old(ImageCount()).value ==> r == Err(InvalidPlane(p))
      ensures old(ImageCount()).Ok? && p < old(ImageCount()).value && !StepAllowed(old(plane), p) ==>
                r == Err(PlaneOutOfOrder(p, old(plane)))
      ensures r.Err? ==> unchanged(this)
      ensures r.Ok? ==> plane == p && series == old(series) && resolution == old(resolution) && OnlyCursorsChanged()
      ensures Usable()
    {
      if currentId.None? {
        return Err(NoCurrentFile);
      }
      var count :- ImageCount();
      if p >= count {
        return Err(InvalidPlane(p));
      }
      var current := plane;
      if current != p && (p > 0 && current != p - 1) {
        return Err(PlaneOutOfOrder(p, current));
      }
      plane := p;
      return Ok(Unit);
    }

    /**
     * setResolution: needs an open file and a level the current series
     * has, with no ordering rule; the plane cursor goes back to 0.
     */
    method SetResolution(res: nat) returns (r: Result<Unit>)
      modifies this
      ensures r.Ok? <==> old(ResolutionCount()).Ok? && res < old(ResolutionCount()).value
      ensures old(currentId).None? ==> r == Err(NoCurrentFile)
      ensures old(ResolutionCount()).Ok? && res >= old(ResolutionCount()).value ==> r == Err(InvalidResolution(res))
      ensures r.Err? ==> unchanged(this)
      ensures r.Ok? ==> resolution == res && plane == 0 && series == old(series) && OnlyCursorsChanged()
    {
      var count :- ResolutionCount();
      if res >= count {
        return Err(InvalidResolution(res));
      }
      resolution, plane := res, 0;
      return Ok(Unit);
    }

    /** setCompression: only a compression type the writer declares; otherwise nothing changes. */
    method SetCompression(c: string) returns (r: Result<Unit>)
      modifies this
      ensures r.Ok? <==> c in properties.compressionTypes
      ensures r.Err? ==> r.error == InvalidCompression(c) && unchanged(this)
      ensures r.Ok? ==> compression == Some(c)
      ensures interleaved == old(interleaved) && sequential == old(sequential)
      ensures framesPerSecond == old(framesPerSecond) && tileSizeX == old(tileSizeX) && tileSizeY == old(tileSizeY)
      ensures currentId == old(currentId) && series == old(series) && resolution == old(resolution)
      ensures plane == old(plane) && metadata == old(metadata) && resolutionLevels == old(resolutionLevels)
    {
      if c !in properties.compressionTypes {
        return Err(InvalidCompression(c));
      }
      compression := Some(c);
      return Ok(Unit);
    }

    /** setTileSizeX: records the request and reports the resulting tile width. */
    method SetTileSizeX(size: Option<nat>) returns (r: Result<nat>)
      modifies this
      ensures tileSizeX == size && r == TileSizeX()
      ensures size.Some? ==> r == Ok(size.value)
      ensures tileSizeY == old(tileSizeY) && currentId == old(currentId) && metadata == old(metadata)
      ensures series == old(series) && resolution == old(resolution) && plane == old(plane)
      ensures resolutionLevels == old(resolutionLevels)
    {
      tileSizeX := size;
      r := TileSizeX();
    }

    /** setTileSizeY: records the request and reports what getTileSizeY then gives. */
    method SetTileSizeY(size: Option<nat>) returns (r: Result<nat>)
      modifies this
      ensures tileSizeY == size && r == TileSizeY()
      ensures size.Some? ==> r == Ok(size.value)
      ensures tileSizeX == old(tileSizeX) && currentId == old(currentId) && metadata == old(metadata)
      ensures series == old(series) && resolution == old(resolution) && plane == old(plane)
      ensures resolutionLevels == old(resolutionLevels)
    {
      tileSizeY := size;
      r := TileSizeY();
    }
  }

  /**
   * After setMetadataRetrieve and setId, series 0 at full resolution
   * reports the metadata's own sizes (or 1 where they are 0).
   */
  lemma FullResolutionSizes(w: FormatWriter, m: Metadata)
    requires w.currentId.Some? && (w.metadata == Some(m) || w.metadata == Some(StripResolutions(m)))
    requires w.resolutionLevels == AllResolutions(m)
    requires w.series < |m.images| && w.resolution == 0
    ensures w.SizeX() == Ok(SizeOr1(m.images[w.series].sizeX))
    ensures w.SizeY() == Ok(SizeOr1(m.images[w.series].sizeY))
    ensures w.SizeZ() == Ok(SizeOr1(m.images[w.series].sizeZ))
    ensures w.ImageCount() == Ok(PlaneCountOf(m.images[w.series]))
  {
  }
}
