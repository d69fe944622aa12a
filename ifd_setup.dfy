// How the TIFF writers set up each directory before writing a plane:
// image size, strip or tile chunking, pixel type and samples, planar
// configuration, photometric interpretation and compression, all taken
// from the writer's current series, resolution and plane.
module IfdSetups {
  import opened Wrappers
  import opened PixelTypes
  import opened FormatWriters
  import TiffIfd
  import DimensionIndex

  /** A chunking of the image into strips (full width) or tiles. */
  datatype Chunking = Chunking(tileType: TiffIfd.TileType, width: nat, height: nat)

  /** Default chunk of 64 KiB of one-byte samples, strips below 2048 columns, 256-square tiles above. */
  const DEFAULT_CHUNK: nat := 65536
  const STRIP_WIDTH_LIMIT: nat := 2048
  const DEFAULT_TILE: nat := 256

  const PHOTOMETRIC_MIN_IS_BLACK: nat := 1
  const PHOTOMETRIC_RGB: nat := 2

  const SizeXZero := "Can't set strip or tile size: SizeX is 0"

  /**
   * The strip/tile policy: a requested tile height alone gives strips of
   * that height; a requested width and height give tiles; a zero in a
   * request falls back to strips one row high; otherwise narrow images
   * get strips of about 64 KiB and wide ones 256 x 256 tiles.
   */
  function ChunkingFor(sizeX: nat, tileX: Option<nat>, tileY: Option<nat>): (r: Result<Chunking>)
    ensures r.Err? <==> sizeX == 0
    ensures r.Err? ==> r.error == SizeXZero
    ensures r.Ok? && r.value.tileType == TiffIfd.Strip ==> r.value.width == sizeX && r.value.height >= 1
    ensures r.Ok? && r.value.tileType == TiffIfd.Tile ==> r.value.width >= 1 && r.value.height >= 1
    ensures r.Ok? && tileX.None? && tileY.Some? ==>
              r.value == Chunking(TiffIfd.Strip, sizeX, if tileY.value > 0 then tileY.value else 1)
    ensures r.Ok? && tileX.Some? && tileY.Some? ==>
              r.value == (if tileX.value > 0 && tileY.value > 0 then Chunking(TiffIfd.Tile, tileX.value, tileY.value)
                          else Chunking(TiffIfd.Strip, sizeX, 1))
  {
    if sizeX == 0 then Err(SizeXZero)
    else if tileX.None? && tileY.Some? then
      Ok(Chunking(TiffIfd.Strip, sizeX, if tileY.value > 0 then tileY.value else 1))
    else if tileX.Some? && tileY.Some? then
      if tileX.value > 0 && tileY.value > 0 then Ok(Chunking(TiffIfd.Tile, tileX.value, tileY.value))
      else Ok(Chunking(TiffIfd.Strip, sizeX, 1))
    else if sizeX < STRIP_WIDTH_LIMIT then
      var h := DEFAULT_CHUNK / sizeX;
      Ok(Chunking(TiffIfd.Strip, sizeX, if h == 0 then 1 else h))
    else Ok(Chunking(TiffIfd.Tile, DEFAULT_TILE, DEFAULT_TILE))
  }

  /**
   * Without a requested tile height (a width alone is ignored), an image
   * narrower than 2048 columns gets full-width strips of as many rows as
   * fit in 64 KiB of one-byte samples, at least 32; a wider one gets
   * 256 x 256 tiles.
   */
  lemma {:induction false} DefaultChunking(sizeX: nat, tileX: Option<nat>)
    requires sizeX > 0
    ensures var c := ChunkingFor(sizeX, tileX, None).value;
            && (sizeX < STRIP_WIDTH_LIMIT ==>
                  && c.tileType == TiffIfd.Strip && c.width == sizeX
                  && c.height * sizeX <= DEFAULT_CHUNK < (c.height + 1) * sizeX
                  && c.height >= 32)
            && (sizeX >= STRIP_WIDTH_LIMIT ==> c == Chunking(TiffIfd.Tile, DEFAULT_TILE, DEFAULT_TILE))
  {
    if sizeX < STRIP_WIDTH_LIMIT {
      StripRows(sizeX);
    }
  }

  /** The rows of a default strip: as many as fit in 64 KiB, at least 32 when the width is below 2048. */
  lemma StripRows(sizeX: nat)
    requires 0 < sizeX < STRIP_WIDTH_LIMIT
    ensures var h := DEFAULT_CHUNK / sizeX;
            h * sizeX <= DEFAULT_CHUNK < (h + 1) * sizeX && h >= 32
  {
    var h := DEFAULT_CHUNK / sizeX;
    var m := DEFAULT_CHUNK % sizeX;
    assert DEFAULT_CHUNK == h * sizeX + m && m < sizeX;
    assert (h + 1) * sizeX == h * sizeX + sizeX;
  }

  /** What setupIFD gives a directory. */
  datatype IfdSetup = IfdSetup(
    width: nat, height: nat,
    chunking: Chunking,
    pixelType: PixelType,
    bitsPerSample: nat,
    samplesPerPixel: nat,
    planarConfig: TiffIfd.PlanarConfiguration,
    photometric: nat,
    compression: Option<string>)

  /** Chunky samples only when interleaving was requested. */
  function PlanarFor(interleaved: Option<bool>): (pc: TiffIfd.PlanarConfiguration)
    ensures pc == TiffIfd.Contig <==> interleaved == Some(true)
  {
    if interleaved.Some? && interleaved.value then TiffIfd.Contig else TiffIfd.Separate
  }

  /** RGB for a channel of exactly three samples, else min-is-black. */
  function PhotometricFor(samples: nat): (p: nat)
    ensures p == PHOTOMETRIC_RGB <==> samples == 3
    ensures p != PHOTOMETRIC_RGB ==> p == PHOTOMETRIC_MIN_IS_BLACK
  {
    if samples > 1 && samples == 3 then PHOTOMETRIC_RGB else PHOTOMETRIC_MIN_IS_BLACK
  }

  /**
   * setupIFD for the writer's current state: the image size and chunking
   * of the current resolution, and the pixel type, samples and
   * photometric interpretation of the channel the current plane belongs
   * to.  It fails where one of the getters it calls fails, including a
   * plane cursor past the series' plane count.
   */
  function PlaneSetup(w: FormatWriter): (r: Result<IfdSetup>)
    reads w
    requires w.Usable()
    ensures r.Ok? <==> w.SizeX().Ok? && w.ZCTCoords(w.plane).Ok?
    ensures r.Ok? ==>
              && r.value.width == w.SizeX().value && r.value.height == w.SizeY().value
              && ChunkingFor(w.SizeX().value, w.tileSizeX, w.tileSizeY) == Ok(r.value.chunking)
              && r.value.pixelType == w.CurrentImage().value.pixelType
              && r.value.bitsPerSample == NaturalBits(r.value.pixelType)
              && Ok(r.value.samplesPerPixel) == w.RGBChannelCount(w.ZCTCoords(w.plane).value.c)
              && r.value.planarConfig == PlanarFor(w.interleaved)
              && r.value.photometric == PhotometricFor(r.value.samplesPerPixel)
              && r.value.compression == w.compression
  {
    var level :- w.CurrentLevel();
    var x, y := SizeOr1(level.x), SizeOr1(level.y);
    // x is at least 1, so the policy's SizeX-is-0 failure does not arise.
    var chunk := ChunkingFor(x, w.tileSizeX, w.tileSizeY).value;
    var coords :- w.ZCTCoords(w.plane);
    var img := w.CurrentImage().value;
    var spp := SamplesOf(img, coords.c);
    Ok(IfdSetup(x, y, chunk, img.pixelType, NaturalBits(img.pixelType), spp,
                PlanarFor(w.interleaved), PhotometricFor(spp), w.compression))
  }

  /** The SizeX-is-0 failure cannot arise: the writer reports a zero width as 1. */
  lemma SetupNeverSeesZeroWidth(w: FormatWriter)
    requires w.Usable()
    ensures w.SizeX().Ok? ==> ChunkingFor(w.SizeX().value, w.tileSizeX, w.tileSizeY).Ok?
  {
  }
}
