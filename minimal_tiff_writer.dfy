// The minimal TIFF writer: one TIFF file, one directory per plane, the
// series laid out one after another.  It keeps the running directory
// index, the directory range of every series, and the directory being
// filled; the shared writer state is the FormatWriter it extends.  The
// file itself is modelled by the directories flushed to it, in order.
module MinimalTiffWriters {
  import opened Wrappers
  import opened Decimals
  import opened FormatWriters
  import opened IfdSetups
  import opened IfdRanges

  /** Reading a tag of a directory whose setup did not complete. */
  const IfdNotSetUp := "Directory tags have not been set"

  function IfdIndexMismatch(actual: nat, expected: nat): string
  {
    "IFD index mismatch: actual is " + DecimalString(actual) + " but " + DecimalString(expected) + " expected"
  }

  /**
   * The directory ranges setId's loop gives n series when getImageCount
   * reports count: each begins where the previous one ends, the first at
   * directory 0, and every one spans count directories.
   */
  method BuildRangesAsWritten(path: string, n: nat, count: nat) returns (built: seq<IfdRange>)
    ensures built == SeriesRangesAsWritten(path, n, count)
  {
    built := [];
    var current: nat := 0;
    var i := 0;
    while i < n
      invariant 0 <= i <= n
      invariant current == i * count
      invariant |built| == i
      invariant forall j :: 0 <= j < i ==> built[j] == SeriesRangesAsWritten(path, n, count)[j]
    {
      built := built + [IfdRange(path, current, current + count)];
      current := current + count;
      i := i + 1;
    }
  }

  /**
   * The directory ranges setId evidently intends for the series of the
   * metadata: each begins where the previous one ends, the first at
   * directory 0, and spans its own series' plane count.
   */
  method BuildRanges(path: string, m: Metadata) returns (built: seq<IfdRange>)
    ensures built == SeriesRanges(path, PlaneCounts(m))
  {
    ghost var counts := PlaneCounts(m);
    built := [];
    var current: nat := 0;
    var i := 0;
    while i < |m.images|
      invariant 0 <= i <= |m.images|
      invariant current == Sum(counts[..i])
      invariant |built| == i
      invariant forall j :: 0 <= j < i ==> built[j] == SeriesRanges(path, counts)[j]
    {
      var planeCount := PlaneCountOf(m.images[i]);
      built := built + [IfdRange(path, current, current + planeCount)];
      SumAppend(counts, i);
      current := current + planeCount;
      i := i + 1;
    }
  }

  class MinimalTiffWriter {
    const writer: FormatWriter
    var tiffOpen: bool
    /** The directory being filled: its setup, or the reason setup failed. */
    var ifd: Option<Result<IfdSetup>>
    /** The directories written to the file so far. */
    var written: seq<Result<IfdSetup>>
    var ifdIndex: nat
    var ranges: seq<IfdRange>
    var bigTiff: Option<bool>
    /** The directory index each saved plane went to, in order. */
    var planesWritten: seq<nat>

    /** A TIFF file and a current directory exist exactly while a file is open. */
    predicate Valid()
      reads this, writer
    {
      && writer.Usable()
      && (tiffOpen <==> writer.currentId.Some?)
      && (tiffOpen <==> ifd.Some?)
    }

    constructor(props: WriterProperties)
      ensures fresh(writer) && writer.properties == props && writer.currentId.None?
      ensures writer.metadata == Some(DUMMY_METADATA) && writer.series == 0 && writer.plane == 0
      ensures !tiffOpen && ifd.None? && written == [] && ifdIndex == 0 && ranges == [] && bigTiff.None?
      ensures planesWritten == []
      ensures Valid()
    {
      writer := new FormatWriter(props);
      tiffOpen, ifd, written := false, None, [];
      ifdIndex, ranges, bigTiff := 0, [], None;
      planesWritten := [];
    }

    /** nextIFD: flush the current directory, start a new one, and advance the index by one. */
    method NextIfd()
      requires ifd.Some?
      modifies this
      ensures written == old(written) + [old(ifd).value]
      ensures ifdIndex == old(ifdIndex) + 1
      ensures ifd == Some(Err(IfdNotSetUp))
      ensures tiffOpen == old(tiffOpen) && ranges == old(ranges) && bigTiff == old(bigTiff)
      ensures planesWritten == old(planesWritten)
    {
      written := written + [ifd.value];
      ifd := Some(Err(IfdNotSetUp));
      ifdIndex := ifdIndex + 1;
    }

    /** setupIFD: configure the current directory from the writer's state. */
    method SetupIfd() returns (r: Result<Unit>)
      requires writer.Usable()
      modifies this
      ensures ifd == Some(PlaneSetup(writer))
      ensures r.Ok? <==> PlaneSetup(writer).Ok?
      ensures r.Err? ==> r.error == PlaneSetup(writer).error
      ensures tiffOpen == old(tiffOpen) && written == old(written) && ifdIndex == old(ifdIndex)
      ensures ranges == old(ranges) && bigTiff == old(bigTiff) && planesWritten == old(planesWritten)
    {
      var setup := PlaneSetup(writer);
      ifd := Some(setup);
      if setup.Err? {
        return Err(setup.error);
      }
      return Ok(Unit);
    }

    /**
     * setId: open the file, set up its first directory, then give every
     * series of the metadata a directory range, each starting where the
     * previous one ends and spanning the image count of the current series
     * (getImageCount, which a successful directory setup guarantees).
     */
    method SetId(path: string) returns (r: Result<Unit>)
      requires Valid() && writer.metadata.Some?
      modifies this, writer
      ensures writer.currentId == Some(path) && tiffOpen && written == [] && ifdIndex == old(ifdIndex)
      ensures writer.series == old(writer.series) && writer.plane == old(writer.plane)
      ensures writer.metadata == old(writer.metadata) && writer.resolutionLevels == old(writer.resolutionLevels)
      ensures ifd == Some(PlaneSetup(writer))
      ensures r.Ok? <==> PlaneSetup(writer).Ok?
      ensures r.Ok? ==> writer.ImageCount().Ok?
      ensures r.Ok? ==> ranges == old(ranges) + SeriesRangesAsWritten(path, |writer.metadata.value.images|,
                                                                       writer.ImageCount().value)
      ensures r.Err? ==> ranges == old(ranges)
      ensures planesWritten == old(planesWritten) && bigTiff == old(bigTiff)
      ensures Valid()
    {
      writer.SetId(path);
      tiffOpen := true;
      written := [];
      var setup := SetupIfd();
      if setup.Err? {
        return setup;
      }
      var n := |writer.metadata.value.images|;
      var count := writer.ImageCount().value;
      var built := BuildRangesAsWritten(path, n, count);
      ranges := ranges + built;
      return Ok(Unit);
    }

    /**
     * close: flush the last directory once if a file is open, then drop
     * the file and its bookkeeping and close the shared writer state.
     */
    method Close()
      requires Valid()
      modifies this, writer
      ensures written == old(written) + (if old(tiffOpen) then [old(ifd).value] else [])
      ensures !tiffOpen && ifd.None? && ifdIndex == 0 && ranges == [] && bigTiff.None?
      ensures planesWritten == old(planesWritten)
      ensures writer.currentId.None? && writer.series == 0 && writer.resolution == 0 && writer.plane == 0
      ensures writer.metadata.None? && writer.resolutionLevels == [] && writer.compression.None?
      ensures Valid()
    {
      if tiffOpen {
        NextIfd();
      }
      ifd := None;
      tiffOpen := false;
      ifdIndex := 0;
      ranges := [];
      bigTiff := None;
      writer.Close();
    }

    /**
     * setSeries: the shared writer's checks and update; when the series
     * actually changes, the finished directory is flushed and the next
     * one set up for the new series.
     */
    method SetSeries(s: nat) returns (r: Result<Unit>)
      requires Valid()
      modifies this, writer
      ensures Valid()
      ensures var allowed := old(writer.currentId).Some? && s < |old(writer.metadata).value.images|
                             && StepAllowed(old(writer.series), s);
              && (!allowed ==> r.Err? && written == old(written) && ifdIndex == old(ifdIndex) && ifd == old(ifd)
                               && writer.series == old(writer.series) && writer.plane == old(writer.plane))
              && (allowed ==> writer.series == s && writer.resolution == 0 && writer.plane == 0)
              && (allowed && s == old(writer.series) ==>
                    r.Ok? && written == old(written) && ifdIndex == old(ifdIndex) && ifd == old(ifd))
              && (allowed && s != old(writer.series) ==>
                    && written == old(written) + [old(ifd).value] && ifdIndex == old(ifdIndex) + 1
                    && ifd == Some(PlaneSetup(writer)) && (r.Ok? <==> PlaneSetup(writer).Ok?))
      ensures old(writer.currentId).None? ==> r == Err(NoCurrentFile)
      ensures ranges == old(ranges) && planesWritten == old(planesWritten) && tiffOpen == old(tiffOpen)
      ensures writer.currentId == old(writer.currentId) && writer.metadata == old(writer.metadata)
      ensures writer.resolutionLevels == old(writer.resolutionLevels)
    {
      var current :- writer.Series();
      var b := writer.SetSeries(s);
      if b.Err? {
        return b;
      }
      if current != s {
        NextIfd();
        r := SetupIfd();
      } else {
        r := Ok(Unit);
      }
    }

    /**
     * setPlane: the shared writer's checks and update; when the plane
     * actually changes, the finished directory is flushed and the next
     * one set up for the new plane.
     */
    method SetPlane(p: nat) returns (r: Result<Unit>)
      requires Valid()
      modifies this, writer
      ensures Valid()
      ensures var allowed := old(writer.ImageCount()).Ok? && p < old(writer.ImageCount()).value
                             && StepAllowed(old(writer.plane), p);
              && (!allowed ==> r.Err? && written == old(written) && ifdIndex == old(ifdIndex) && ifd == old(ifd)
                               && writer.plane == old(writer.plane))
              && (allowed ==> writer.plane == p)
              && (allowed && p == old(writer.plane) ==>
                    r.Ok? && written == old(written) && ifdIndex == old(ifdIndex) && ifd == old(ifd))
              && (allowed && p != old(writer.plane) ==>
                    && written == old(written) + [old(ifd).value] && ifdIndex == old(ifdIndex) + 1
                    && ifd == Some(PlaneSetup(writer)) && (r.Ok? <==> PlaneSetup(writer).Ok?))
      ensures old(writer.currentId).None? ==> r == Err(NoCurrentFile)
      ensures writer.series == old(writer.series) && writer.resolution == old(writer.resolution)
      ensures ranges == old(ranges) && planesWritten == old(planesWritten) && tiffOpen == old(tiffOpen)
      ensures writer.currentId == old(writer.currentId) && writer.metadata == old(writer.metadata)
      ensures writer.resolutionLevels == old(writer.resolutionLevels)
    {
      if writer.currentId.None? {
        return Err(NoCurrentFile);
      }
      var current := writer.plane;
      var b := writer.SetPlane(p);
      if b.Err? {
        return b;
      }
      if current != p {
        NextIfd();
        r := SetupIfd();
      } else {
        r := Ok(Unit);
      }
    }

    /**
     * saveBytes: select the plane, then write it only if the running
     * directory index is the one the series' range assigns to the plane.
     * The pixel data itself is not modelled; the directory it went to is.
     */
    method SaveBytes(p: nat) returns (r: Result<Unit>)
      requires Valid()
      modifies this, writer
      ensures old(writer.currentId).None? ==> r == Err(NoCurrentFile)
      ensures r.Ok? ==> && writer.plane == p
                        && IfdIndex(ranges, writer.series, p) == Ok(ifdIndex)
                        && planesWritten == old(planesWritten) + [ifdIndex]
      ensures r.Err? ==> planesWritten == old(planesWritten)
      ensures (writer.currentId.Some? && IfdIndex(ranges, writer.series, p).Ok? &&
               IfdIndex(ranges, writer.series, p).value != ifdIndex) ==> r.Err?
      ensures writer.series == old(writer.series) && ranges == old(ranges) && tiffOpen == old(tiffOpen)
      ensures Valid()
    {
      if writer.currentId.None? {
        return Err(NoCurrentFile);
      }
      var sp := SetPlane(p);
      if sp.Err? {
        return sp;
      }
      var expected :- IfdIndex(ranges, writer.series, p);
      if ifdIndex != expected {
        return Err(IfdIndexMismatch(ifdIndex, expected));
      }
      if ifd.value.Err? {
        return Err(ifd.value.error);
      }
      planesWritten := planesWritten + [ifdIndex];
      return Ok(Unit);
    }

    /**
     * getTileSizeX: the current directory's tile width while a file is
     * open and the requested width is unset or non-zero, otherwise the
     * shared writer's answer.
     */
    function TileSizeX(): (r: Result<nat>)
      reads this, writer
      ensures writer.currentId.Some? && ifd.Some? && ifd.value.Ok? &&
              (writer.tileSizeX.None? || writer.tileSizeX.value != 0) ==>
                r == Ok(ifd.value.value.chunking.width)
      ensures !(writer.currentId.Some? && ifd.Some? && (writer.tileSizeX.None? || writer.tileSizeX.value != 0)) ==>
                r == writer.TileSizeX()
    {
      if writer.currentId.Some? && ifd.Some? && (writer.tileSizeX.None? || writer.tileSizeX.value != 0) then
        if ifd.value.Ok? then Ok(ifd.value.value.chunking.width) else Err(IfdNotSetUp)
      else writer.TileSizeX()
    }

    /** getTileSizeY: as getTileSizeX, for the tile height. */
    function TileSizeY(): (r: Result<nat>)
      reads this, writer
      ensures writer.currentId.Some? && ifd.Some? && ifd.value.Ok? &&
              (writer.tileSizeY.None? || writer.tileSizeY.value != 0) ==>
                r == Ok(ifd.value.value.chunking.height)
      ensures !(writer.currentId.Some? && ifd.Some? && (writer.tileSizeY.None? || writer.tileSizeY.value != 0)) ==>
                r == writer.TileSizeY()
    {
      if writer.currentId.Some? && ifd.Some? && (writer.tileSizeY.None? || writer.tileSizeY.value != 0) then
        if ifd.value.Ok? then Ok(ifd.value.value.chunking.height) else Err(IfdNotSetUp)
      else writer.TileSizeY()
    }

    /**
     * Once set up, a directory reports requested non-zero tile sizes back;
     * with only a height requested it reports full-width strips.
     */
    lemma ReportsRequestedTiles()
      requires Valid() && writer.currentId.Some? && ifd == Some(PlaneSetup(writer)) && PlaneSetup(writer).Ok?
      ensures writer.tileSizeX.Some? && writer.tileSizeY.Some? && writer.tileSizeX.value > 0 && writer.tileSizeY.value > 0 ==>
                TileSizeX() == Ok(writer.tileSizeX.value) && TileSizeY() == Ok(writer.tileSizeY.value)
      ensures writer.tileSizeX.None? && writer.tileSizeY.Some? && writer.tileSizeY.value > 0 ==>
                TileSizeX() == writer.SizeX() && TileSizeY() == Ok(writer.tileSizeY.value)
    {
    }

    method SetBigTiff(big: Option<bool>)
      modifies this
      ensures bigTiff == big
      ensures tiffOpen == old(tiffOpen) && ifd == old(ifd) && written == old(written) && ifdIndex == old(ifdIndex)
      ensures ranges == old(ranges) && planesWritten == old(planesWritten)
    {
      bigTiff := big;
    }
  }
}
