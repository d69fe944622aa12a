// A TIFF image file directory (ome::files::tiff::IFD): the tag values
// libtiff holds for the directory, the values IFD caches after reading or
// setting them, and the tile buffering used while writing.  libtiff's tag
// storage is the value `dir`; encoding and decoding of tile data are not
// part of this model.
module TiffIfd {
  import opened Wrappers
  import opened PixelTypes
  import opened StorageOrders
  import MixedRadix
  import opened VariantPixelBuffers

  datatype TileType = Tile | Strip
  datatype PlanarConfiguration = Contig | Separate

  /** The tags of one directory as libtiff stores them; None is an absent tag. */
  datatype Directory = Directory(
    imageWidth: Option<nat>,
    imageLength: Option<nat>,
    tileWidth: Option<nat>,
    tileLength: Option<nat>,
    rowsPerStrip: Option<nat>,
    sampleFormat: Option<SampleFormat>,
    bitsPerSample: Option<nat>,
    samplesPerPixel: Option<nat>,
    planarConfig: Option<PlanarConfiguration>,
    photometric: Option<nat>,
    compression: Option<nat>,
    subIfds: Option<seq<nat>>,
    colorMap: Option<seq<seq<nat>>>)

  /** The optional values IFD::Impl caches. */
  datatype Cache = Cache(
    tileType: Option<TileType>,
    imageWidth: Option<nat>,
    imageHeight: Option<nat>,
    tileWidth: Option<nat>,
    tileHeight: Option<nat>,
    pixelType: Option<PixelType>,
    bits: Option<nat>,
    samples: Option<nat>,
    planarConfig: Option<PlanarConfiguration>,
    photometric: Option<nat>,
    compression: Option<nat>,
    subIfds: Option<seq<nat>>)

  const EmptyCache := Cache(None, None, None, None, None, None, None, None, None, None, None, None)
  const TagNotFound := "Error getting field: Tag was not found"

  function TagValue<T>(t: Option<T>): (r: Result<T>)
    ensures r.Ok? <==> t.Some?
    ensures r.Ok? ==> r.value == t.value
  {
    if t.Some? then Ok(t.value) else Err(TagNotFound)
  }

  /** getTileType without a cached value: tiled iff both tile tags exist, else strips if RowsPerStrip exists. */
  function TileTypeOfTags(d: Directory): (r: Result<TileType>)
    ensures r == Ok(Tile) <==> d.tileWidth.Some? && d.tileLength.Some?
    ensures r == Ok(Strip) <==> !(d.tileWidth.Some? && d.tileLength.Some?) && d.rowsPerStrip.Some?
  {
    if d.tileWidth.Some? && d.tileLength.Some? then Ok(Tile)
    else if d.rowsPerStrip.Some? then Ok(Strip)
    else Err(TagNotFound)
  }

  // ---- regions and coverage ----

  datatype PlaneRegion = PlaneRegion(x: nat, y: nat, w: nat, h: nat)

  function Area(r: PlaneRegion): nat { r.w * r.h }

  predicate Contains(r: PlaneRegion, px: nat, py: nat)
  {
    r.x <= px < r.x + r.w && r.y <= py < r.y + r.h
  }

  function Min(a: nat, b: nat): nat { if a <= b then a else b }
  function Max(a: nat, b: nat): nat { if a >= b then a else b }

  /** The overlap of two regions (empty, with zero width or height, when they do not meet). */
  function Intersect(a: PlaneRegion, b: PlaneRegion): (r: PlaneRegion)
    ensures forall px, py :: Contains(r, px, py) <==> Contains(a, px, py) && Contains(b, px, py)
  {
    var x0 := Max(a.x, b.x);
    var y0 := Max(a.y, b.y);
    var x1 := Min(a.x + a.w, b.x + b.w);
    var y1 := Min(a.y + a.h, b.y + b.h);
    PlaneRegion(x0, y0, if x1 > x0 then x1 - x0 else 0, if y1 > y0 then y1 - y0 else 0)
  }

  /** The pixels of a region. */
  function Points(r: PlaneRegion): (s: set<(nat, nat)>)
    ensures forall p :: p in s <==> Contains(r, p.0, p.1)
  {
    set px: nat, py: nat | r.x <= px < r.x + r.w && r.y <= py < r.y + r.h :: (px, py)
  }

  /** TileCoverage::covered: every pixel of the region has been written. */
  predicate Covered(cov: set<(nat, nat)>, r: PlaneRegion)
  {
    forall px: nat, py: nat | r.x <= px < r.x + r.w && r.y <= py < r.y + r.h :: (px, py) in cov
  }

  /** Adding pixels keeps a region covered. */
  lemma {:induction false} CoveredMonotone(a: set<(nat, nat)>, b: set<(nat, nat)>, r: PlaneRegion)
    requires Covered(a, r) && a <= b
    ensures Covered(b, r)
  {
    forall px: nat, py: nat | r.x <= px < r.x + r.w && r.y <= py < r.y + r.h
      ensures (px, py) in b
    {
      assert (px, py) in a;
    }
  }

  /** A region is covered by its own pixels. */
  lemma {:induction false} CoveredByOwnPoints(cov: set<(nat, nat)>, r: PlaneRegion)
    requires Points(r) <= cov
    ensures Covered(cov, r)
  {
    forall px: nat, py: nat | r.x <= px < r.x + r.w && r.y <= py < r.y + r.h
      ensures (px, py) in cov
    {
      assert Contains(r, px, py);
      assert (px, py) in Points(r);
    }
  }

  /** The tile geometry TileInfo reports: each tile's full region and its sample. */
  datatype TileLayout = TileLayout(regions: seq<PlaneRegion>, samples: seq<nat>)

  predicate TileKnown(layout: TileLayout, t: nat)
  {
    t < |layout.regions| && t < |layout.samples|
  }

  /** std::vector::resize on the coverage list: keep a prefix, pad with empty coverage. */
  function ResizeCoverage(cov: seq<set<(nat, nat)>>, n: nat): (r: seq<set<(nat, nat)>>)
    ensures |r| == n
    ensures forall i :: 0 <= i < n ==> r[i] == if i < |cov| then cov[i] else {}
  {
    seq(n, i requires 0 <= i < n => if i < |cov| then cov[i] else {})
  }

  // ---- buffer compatibility ----

  /** The shape a whole-plane buffer of the directory must have: w x h x 1 x spp. */
  function PlaneShape(w: nat, h: nat, spp: nat): seq<nat>
  {
    [w, h, 1, spp]
  }

  /** The storage order matching a planar configuration: planar for separate, chunky otherwise. */
  function OrderFor(pc: PlanarConfiguration): (o: StorageOrder)
    ensures StorageOrders.Valid(o)
    ensures pc == Separate ==> o.ordering[3] == DIM_SAMPLE
    ensures pc == Contig ==> o.ordering[0] == DIM_SAMPLE
  {
    MakeStorageOrder(pc != Separate)
  }

  const TypeIncompatible := "VariantPixelBuffer pixel type is incompatible with TIFF sample format and bit depth"
  const SizeIncompatible := "VariantPixelBuffer dimensions incompatible with TIFF image size"
  const ZIncompatible := "VariantPixelBuffer dimensions (with Z) incompatible with TIFF image size"
  const OrderIncompatible := "VariantPixelBuffer storage order incompatible with TIFF planar configuration"

  /**
   * writeImage's checks on the source buffer, in order: pixel type, then
   * shape (two messages: X, Y or samples differ, or only Z does), then
   * storage order.
   */
  function CheckWriteBuffer(pt: PixelType, pc: PlanarConfiguration, w: nat, h: nat, spp: nat,
                            srcType: PixelType, srcShape: seq<nat>, srcOrder: StorageOrder): (r: Result<Unit>)
    requires |srcShape| == 4
    ensures r.Ok? <==> srcType == pt && srcShape == PlaneShape(w, h, spp) && srcOrder == OrderFor(pc)
    ensures srcType != pt ==> r == Err(TypeIncompatible)
    ensures srcType == pt && srcShape != PlaneShape(w, h, spp) && srcShape[0] == w && srcShape[1] == h && srcShape[3] == spp
      ==> r == Err(ZIncompatible)
  {
    var shape := PlaneShape(w, h, spp);
    if srcType != pt then
      Err(TypeIncompatible)
    else if shape != srcShape then
      if shape[DIM_SPATIAL_X] != srcShape[DIM_SPATIAL_X] || shape[DIM_SPATIAL_Y] != srcShape[DIM_SPATIAL_Y]
         || shape[DIM_SAMPLE] != srcShape[DIM_SAMPLE]
      then Err(SizeIncompatible)
      else Err(ZIncompatible)
    else if srcOrder != OrderFor(pc) then
      Err(OrderIncompatible)
    else Ok(Unit)
  }

  /** readImage replaces the destination's buffer iff its type, shape or storage order differs. */
  predicate NeedsRealloc(pt: PixelType, pc: PlanarConfiguration, w: nat, h: nat, spp: nat,
                         destType: PixelType, destShape: seq<nat>, destOrder: StorageOrder)
  {
    pt != destType || PlaneShape(w, h, spp) != destShape || OrderFor(pc) != destOrder
  }

  /** A buffer readImage has prepared passes writeImage's checks with the same directory values. */
  lemma {:induction false} ReadBufferIsWritable(pt: PixelType, pc: PlanarConfiguration, w: nat, h: nat, spp: nat,
                                                destType: PixelType, destShape: seq<nat>, destOrder: StorageOrder)
    requires |destShape| == 4 && !NeedsRealloc(pt, pc, w, h, spp, destType, destShape, destOrder)
    ensures CheckWriteBuffer(pt, pc, w, h, spp, destType, destShape, destOrder) == Ok(Unit)
  {
  }

  /** In planar order a lookup-table buffer [n, 1, 1, 3] stores entry i of channel s at i + n * s. */
  lemma {:induction false} LookupTableOffset(n: nat, i: nat, s: nat)
    requires i < n && s < 3
    ensures InBounds([i, 0, 0, s], [n, 1, 1, 3])
    ensures Offset(MakeStorageOrder(false), [n, 1, 1, 3], [i, 0, 0, s]) == i + n * s
    ensures Size(MakeStorageOrder(false), [n, 1, 1, 3]) == n * 3
  {
    PlanarOffset([n, 1, 1, 3], [i, 0, 0, s]);
    PlanarSize([n, 1, 1, 3]);
  }

  /** The three ColorMap channels one after another, channel t's entry i at i + n * t. */
  method ConcatChannels(cmap: seq<seq<nat>>, n: nat) returns (elems: seq<int>)
    requires |cmap| == 3 && forall t :: 0 <= t < 3 ==> |cmap[t]| == n
    ensures |elems| == n * 3
    ensures forall t, i :: 0 <= t < 3 && 0 <= i < n ==> elems[i + n * t] == cmap[t][i]
  {
    elems := [];
    var s := 0;
    while s < 3
      invariant 0 <= s <= 3 && |elems| == n * s
      invariant forall t, i :: 0 <= t < s && 0 <= i < n ==> elems[i + n * t] == cmap[t][i]
    {
      var channel := cmap[s];
      ghost var prev := elems;
      elems := elems + seq(n, i requires 0 <= i < n => channel[i] as int);
      forall t, i | 0 <= t < s + 1 && 0 <= i < n
        ensures elems[i + n * t] == cmap[t][i]
      {
        if t < s {
          MixedRadix.MulMonotone(n, t + 1, s);
          assert i + n * t < n * (t + 1);
        } else {
          assert i + n * t == |prev| + i;
        }
      }
      s := s + 1;
    }
  }

  /**
   * The IFD invariant: every cached tag value agrees with the tag, and a
   * cached pixel type agrees with the SampleFormat tag (absent means
   * unsigned).
   */
  predicate Coherent(d: Directory, c: Cache)
  {
    && (c.imageWidth.Some? ==> d.imageWidth == c.imageWidth)
    && (c.imageHeight.Some? ==> d.imageLength == c.imageHeight)
    && (c.bits.Some? ==> d.bitsPerSample == c.bits)
    && (c.samples.Some? ==> d.samplesPerPixel == c.samples)
    && (c.planarConfig.Some? ==> d.planarConfig == c.planarConfig)
    && (c.photometric.Some? ==> d.photometric == c.photometric)
    && (c.compression.Some? ==> d.compression == c.compression)
    && (c.subIfds.Some? ==> d.subIfds == c.subIfds)
    && (c.pixelType.Some? ==> FormatOf(c.pixelType.value) == d.sampleFormat.GetOr(UnsignedInt))
  }

  /** What getTileType returns for a directory and cache. */
  function TileTypeOf(d: Directory, c: Cache): Result<TileType>
  {
    if c.tileType.Some? then Ok(c.tileType.value) else TileTypeOfTags(d)
  }

  /** What getTileWidth returns: the cache, else TileWidth for tiles and ImageWidth for strips. */
  function TileWidthOf(d: Directory, c: Cache): Result<nat>
  {
    if c.tileWidth.Some? then Ok(c.tileWidth.value)
    else match TileTypeOf(d, c)
      case Err(e) => Err(e)
      case Ok(Tile) => TagValue(d.tileWidth)
      case Ok(Strip) => TagValue(d.imageWidth)
  }

  /** What getTileHeight returns: the cache, else TileLength for tiles and RowsPerStrip for strips. */
  function TileHeightOf(d: Directory, c: Cache): Result<nat>
  {
    if c.tileHeight.Some? then Ok(c.tileHeight.value)
    else match TileTypeOf(d, c)
      case Err(e) => Err(e)
      case Ok(Tile) => TagValue(d.tileLength)
      case Ok(Strip) => TagValue(d.rowsPerStrip)
  }

  /** What getPixelType returns: the cache, else the decoding of SampleFormat and BitsPerSample. */
  function PixelTypeOf(d: Directory, c: Cache): Result<PixelType>
  {
    if c.pixelType.Some? then Ok(c.pixelType.value)
    else if d.bitsPerSample.None? then Err(TagNotFound)
    else DecodePixelType(d.sampleFormat, d.bitsPerSample.value)
  }

  /** Every flushed tile had a non-empty valid area, completely covered for its sample. */
  predicate FlushedCovered(layout: TileLayout, flushed: seq<nat>, coverage: seq<set<(nat, nat)>>, imageW: nat, imageH: nat)
  {
    forall j :: 0 <= j < |flushed| ==>
      (TileKnown(layout, flushed[j]) && layout.samples[flushed[j]] < |coverage| &&
       var valid := Intersect(layout.regions[flushed[j]], PlaneRegion(0, 0, imageW, imageH));
       Area(valid) != 0 && Covered(coverage[layout.samples[flushed[j]]], valid))
  }

  /** Coverage only grows, so flushed tiles stay covered. */
  lemma {:induction false} FlushedCoveredMonotone(layout: TileLayout, flushed: seq<nat>, a: seq<set<(nat, nat)>>,
                                                  b: seq<set<(nat, nat)>>, imageW: nat, imageH: nat)
    requires FlushedCovered(layout, flushed, a, imageW, imageH)
    requires |a| == |b| && forall i :: 0 <= i < |a| ==> a[i] <= b[i]
    ensures FlushedCovered(layout, flushed, b, imageW, imageH)
  {
    forall j | 0 <= j < |flushed|
      ensures var valid := Intersect(layout.regions[flushed[j]], PlaneRegion(0, 0, imageW, imageH));
        Covered(b[layout.samples[flushed[j]]], valid)
    {
      var valid := Intersect(layout.regions[flushed[j]], PlaneRegion(0, 0, imageW, imageH));
      CoveredMonotone(a[layout.samples[flushed[j]]], b[layout.samples[flushed[j]]], valid);
    }
  }

  /** Every tile to write has a known geometry and a sample below the coverage list's length. */
  predicate TilesFit(layout: TileLayout, tiles: seq<nat>, n: nat)
  {
    forall i :: 0 <= i < |tiles| ==> TileKnown(layout, tiles[i]) && layout.samples[tiles[i]] < n
  }

  /** The state of WriteVisitor after the first k tiles of the list. */
  ghost predicate TilesDone(layout: TileLayout, region: PlaneRegion, tiles: seq<nat>, k: nat, n: nat,
                            base: seq<set<(nat, nat)>>, coverage: seq<set<(nat, nat)>>, flushed: seq<nat>,
                            written0: seq<nat>, written: seq<nat>, buffers0: set<nat>, buffers: set<nat>, imageW: nat, imageH: nat)
  {
    && TilesFit(layout, tiles, n) && k <= |tiles| && |base| == n && |coverage| == n
    && (forall i :: 0 <= i < n ==> base[i] <= coverage[i])
    && (forall i :: 0 <= i < k ==> Points(Intersect(layout.regions[tiles[i]], region)) <= coverage[layout.samples[tiles[i]]])
    && written == written0 + flushed
    && (forall i :: 0 <= i < k ==> tiles[i] in buffers || tiles[i] in flushed)
    && FlushedCovered(layout, flushed, coverage, imageW, imageH)
    && (forall b :: b in buffers ==> b in buffers0 || b in tiles)
  }

  /** Writing tile k, as WriteTile does, extends the state to the first k + 1 tiles. */
  lemma TilesStep(layout: TileLayout, region: PlaneRegion, tiles: seq<nat>, k: nat, n: nat, base: seq<set<(nat, nat)>>,
                  coverage: seq<set<(nat, nat)>>, coverage': seq<set<(nat, nat)>>, flushed: seq<nat>, flushed': seq<nat>,
                  written0: seq<nat>, written: seq<nat>, written': seq<nat>,
                  buffers0: set<nat>, buffers: set<nat>, buffers': set<nat>, imageW: nat, imageH: nat)
    requires TilesDone(layout, region, tiles, k, n, base, coverage, flushed, written0, written, buffers0, buffers, imageW, imageH)
    requires k < |tiles|
    requires var ds := layout.samples[tiles[k]];
      coverage' == coverage[ds := coverage[ds] + Points(Intersect(layout.regions[tiles[k]], region))]
    requires var valid := Intersect(layout.regions[tiles[k]], PlaneRegion(0, 0, imageW, imageH));
      if Area(valid) != 0 && Covered(coverage'[layout.samples[tiles[k]]], valid)
      then written' == written + [tiles[k]] && buffers' == buffers - {tiles[k]}
      else written' == written && buffers' == buffers + {tiles[k]}
    requires flushed' == if |written'| > |written| then flushed + [tiles[k]] else flushed
    ensures TilesDone(layout, region, tiles, k + 1, n, base, coverage', flushed', written0, written', buffers0, buffers', imageW, imageH)
  {
    var tile := tiles[k];
    var ds := layout.samples[tile];
    var add := Points(Intersect(layout.regions[tile], region));
    var valid := Intersect(layout.regions[tile], PlaneRegion(0, 0, imageW, imageH));
    CoverageGrows(coverage, coverage', ds, add);
    PointsKept(layout, region, tiles, k, n, coverage, coverage');
    FlushedCoveredMonotone(layout, flushed, coverage, coverage', imageW, imageH);
    if Area(valid) != 0 && Covered(coverage'[ds], valid) {
      assert written' == written + [tile] && flushed' == flushed + [tile] && buffers' == buffers - {tile};
      FlushedStep(layout, flushed, flushed', tile, coverage', imageW, imageH);
      BuffersStep(tiles, k, flushed, flushed', buffers0, buffers, buffers');
      assert written' == written0 + flushed';
    } else {
      assert written' == written && flushed' == flushed && buffers' == buffers + {tile};
      BuffersStep(tiles, k, flushed, flushed', buffers0, buffers, buffers');
    }
  }

  /** Adding a tile's points to one sample's coverage only grows the coverage. */
  lemma CoverageGrows(coverage: seq<set<(nat, nat)>>, coverage': seq<set<(nat, nat)>>, ds: nat, add: set<(nat, nat)>)
    requires ds < |coverage| && coverage' == coverage[ds := coverage[ds] + add]
    ensures |coverage'| == |coverage| && add <= coverage'[ds]
    ensures forall i :: 0 <= i < |coverage| ==> coverage[i] <= coverage'[i]
  {
  }

  lemma PointsKept(layout: TileLayout, region: PlaneRegion, tiles: seq<nat>, k: nat, n: nat,
                   coverage: seq<set<(nat, nat)>>, coverage': seq<set<(nat, nat)>>)
    requires TilesFit(layout, tiles, n) && k < |tiles| && |coverage| == n == |coverage'|
    requires forall i :: 0 <= i < n ==> coverage[i] <= coverage'[i]
    requires forall i :: 0 <= i < k ==> Points(Intersect(layout.regions[tiles[i]], region)) <= coverage[layout.samples[tiles[i]]]
    requires Points(Intersect(layout.regions[tiles[k]], region)) <= coverage'[layout.samples[tiles[k]]]
    ensures forall i :: 0 <= i < k + 1 ==> Points(Intersect(layout.regions[tiles[i]], region)) <= coverage'[layout.samples[tiles[i]]]
  {
    forall i | 0 <= i < k + 1
      ensures Points(Intersect(layout.regions[tiles[i]], region)) <= coverage'[layout.samples[tiles[i]]]
    {
      if i < k {
        assert coverage[layout.samples[tiles[i]]] <= coverage'[layout.samples[tiles[i]]];
      }
    }
  }

  lemma FlushedStep(layout: TileLayout, flushed: seq<nat>, flushed': seq<nat>, tile: nat,
                    coverage: seq<set<(nat, nat)>>, imageW: nat, imageH: nat)
    requires FlushedCovered(layout, flushed, coverage, imageW, imageH)
    requires TileKnown(layout, tile) && layout.samples[tile] < |coverage|
    requires flushed' == flushed || flushed' == flushed + [tile]
    requires flushed' != flushed ==>
      var valid := Intersect(layout.regions[tile], PlaneRegion(0, 0, imageW, imageH));
      Area(valid) != 0 && Covered(coverage[layout.samples[tile]], valid)
    ensures FlushedCovered(layout, flushed', coverage, imageW, imageH)
  {
    if flushed' != flushed {
      assert forall j :: 0 <= j < |flushed| ==> flushed'[j] == flushed[j];
      assert flushed'[|flushed|] == tile;
    }
  }

  lemma BuffersStep(tiles: seq<nat>, k: nat, flushed: seq<nat>, flushed': seq<nat>,
                    buffers0: set<nat>, buffers: set<nat>, buffers': set<nat>)
    requires k < |tiles|
    requires forall i :: 0 <= i < k ==> tiles[i] in buffers || tiles[i] in flushed
    requires forall b :: b in buffers ==> b in buffers0 || b in tiles
    requires (flushed' == flushed + [tiles[k]] && buffers' == buffers - {tiles[k]}) ||
             (flushed' == flushed && buffers' == buffers + {tiles[k]})
    ensures forall i :: 0 <= i < k + 1 ==> tiles[i] in buffers' || tiles[i] in flushed'
    ensures forall b :: b in buffers' ==> b in buffers0 || b in tiles
  {
  }

  /**
   * The tile coverage list, tile cache and encoded-tile log an IFD shares
   * with its copies while writing.
   */
  class TileWriteState {
    /** Per-sample (or single, for contiguous data) pixel coverage of the tiles being written. */
    var coverage: seq<set<(nat, nat)>>
    /** Tiles with a buffer in the tile cache. */
    var tileBuffers: set<nat>
    /** Tiles handed to libtiff for encoding, in order. */
    var written: seq<nat>

    constructor ()
      ensures coverage == [] && tileBuffers == {} && written == []
    {
      coverage := [];
      tileBuffers := {};
      written := [];
    }

    /**
     * The tile flush rule: a tile is encoded and dropped from the tile
     * cache only when the part of it inside the image has non-zero area
     * and is completely covered by written pixels of its sample.
     */
    method Flush(layout: TileLayout, tile: nat, imageW: nat, imageH: nat)
      requires TileKnown(layout, tile) && layout.samples[tile] < |coverage|
      modifies this
      ensures coverage == old(coverage)
      ensures var valid := Intersect(layout.regions[tile], PlaneRegion(0, 0, imageW, imageH));
        if Area(valid) != 0 && Covered(coverage[layout.samples[tile]], valid)
        then written == old(written) + [tile] && tileBuffers == old(tileBuffers) - {tile}
        else written == old(written) && tileBuffers == old(tileBuffers)
    {
      var valid := Intersect(layout.regions[tile], PlaneRegion(0, 0, imageW, imageH));
      if Area(valid) == 0 {
        return;
      }
      if !Covered(coverage[layout.samples[tile]], valid) {
        return;
      }
      written := written + [tile];
      tileBuffers := tileBuffers - {tile};
    }

    /**
     * WriteVisitor: size the coverage list (1 entry for contiguous data,
     * spp for separate), then for each tile buffer it, record the pixels
     * of its clipped region as written for its sample, and flush it.
     */
    method WriteTiles(layout: TileLayout, region: PlaneRegion, tiles: seq<nat>,
                      pc: PlanarConfiguration, spp: nat, imageW: nat, imageH: nat)
      requires TilesFit(layout, tiles, if pc == Contig then 1 else spp)
      modifies this
      ensures |coverage| == if pc == Contig then 1 else spp
      ensures forall i :: 0 <= i < |coverage| ==> ResizeCoverage(old(coverage), |coverage|)[i] <= coverage[i]
      ensures forall i :: 0 <= i < |tiles| ==>
        Points(Intersect(layout.regions[tiles[i]], region)) <= coverage[layout.samples[tiles[i]]]
      ensures |written| >= |old(written)| && written[..|old(written)|] == old(written)
      ensures forall i :: 0 <= i < |tiles| ==> tiles[i] in tileBuffers || tiles[i] in written[|old(written)|..]
      ensures FlushedCovered(layout, written[|old(written)|..], coverage, imageW, imageH)
      ensures tileBuffers <= old(tileBuffers) + set t | t in tiles
    {
      var n := if pc == Contig then 1 else spp;
      if |coverage| != n {
        coverage := ResizeCoverage(coverage, n);
      }
      ghost var base, written0, buffers0 := ResizeCoverage(old(coverage), n), written, old(tileBuffers);
      ghost var flushed: seq<nat> := [];
      var k := 0;
      while k < |tiles|
        invariant TilesDone(layout, region, tiles, k, n, base, coverage, flushed, written0, written, buffers0, tileBuffers, imageW, imageH)
      {
        ghost var coverageBefore, writtenBefore, buffersBefore := coverage, written, tileBuffers;
        var tile := tiles[k];
        WriteTile(layout, region, tile, imageW, imageH);
        ghost var flushedAfter := if |written| > |writtenBefore| then flushed + [tile] else flushed;
        TilesStep(layout, region, tiles, k, n, base, coverageBefore, coverage, flushed, flushedAfter,
                  written0, writtenBefore, written, buffers0, buffersBefore, tileBuffers, imageW, imageH);
        flushed := flushedAfter;
        k := k + 1;
      }
      assert written[..|old(written)|] == old(written);
      assert written[|old(written)|..] == flushed;
      assert forall b :: b in tileBuffers ==> b in old(tileBuffers) + set t | t in tiles;
    }

    /** One tile of WriteVisitor: buffer it if needed, mark its clipped region written, flush it if covered. */
    method WriteTile(layout: TileLayout, region: PlaneRegion, tile: nat, imageW: nat, imageH: nat)
      requires TileKnown(layout, tile) && layout.samples[tile] < |coverage|
      modifies this
      ensures var ds := layout.samples[tile];
        coverage == old(coverage)[ds := old(coverage)[ds] + Points(Intersect(layout.regions[tile], region))]
      ensures var valid := Intersect(layout.regions[tile], PlaneRegion(0, 0, imageW, imageH));
        if Area(valid) != 0 && Covered(coverage[layout.samples[tile]], valid)
        then written == old(written) + [tile] && tileBuffers == old(tileBuffers) - {tile}
        else written == old(written) && tileBuffers == old(tileBuffers) + {tile}
    {
      if tile !in tileBuffers {
        tileBuffers := tileBuffers + {tile};
      }
      var ds := layout.samples[tile];
      coverage := coverage[ds := coverage[ds] + Points(Intersect(layout.regions[tile], region))];
      Flush(layout, tile, imageW, imageH);
    }
  }

  // ---- the directory ----

  class Ifd {
    /** libtiff's tag values for this directory. */
    var dir: Directory
    /** The values cached by the getters and setters. */
    var cache: Cache
    /** Tile buffering state used while writing. */
    const tiles: TileWriteState

    ghost predicate Valid()
      reads this
    {
      Coherent(dir, cache)
    }

    constructor (d: Directory)
      ensures Valid() && dir == d && cache == EmptyCache
      ensures fresh(tiles) && tiles.coverage == [] && tiles.tileBuffers == {} && tiles.written == []
    {
      dir := d;
      cache := EmptyCache;
      tiles := new TileWriteState();
    }

    // -- tile type --

    method GetTileType() returns (r: Result<TileType>)
      requires Valid()
      modifies this
      ensures Valid() && dir == old(dir)
      ensures r == TileTypeOf(old(dir), old(cache)) && TileTypeOf(dir, cache) == TileTypeOf(old(dir), old(cache))
      ensures cache == if r.Ok? then old(cache).(tileType := Some(r.value)) else old(cache)
    {
      if cache.tileType.Some? {
        return Ok(cache.tileType.value);
      }
      // Both tile tags read: tiled; otherwise RowsPerStrip must read: strips.
      r := TileTypeOfTags(dir);
      if r.Ok? {
        cache := cache.(tileType := Some(r.value));
      }
    }

    method SetTileType(t: TileType)
      requires Valid()
      modifies this
      ensures Valid() && dir == old(dir) && cache == old(cache).(tileType := Some(t))
      ensures TileTypeOf(dir, cache) == Ok(t)
    {
      cache := cache.(tileType := Some(t));
    }

    // -- image size --

    method GetImageWidth() returns (r: Result<nat>)
      requires Valid()
      modifies this
      ensures Valid() && dir == old(dir)
      ensures r == TagValue(dir.imageWidth)
      ensures cache == old(cache).(imageWidth := dir.imageWidth)
    {
      if cache.imageWidth.None? {
        if dir.imageWidth.None? {
          return Err(TagNotFound);
        }
        cache := cache.(imageWidth := dir.imageWidth);
      }
      r := Ok(cache.imageWidth.value);
    }

    method SetImageWidth(w: nat)
      requires Valid()
      modifies this
      ensures Valid() && dir == old(dir).(imageWidth := Some(w)) && cache == old(cache).(imageWidth := Some(w))
    {
      dir := dir.(imageWidth := Some(w));
      cache := cache.(imageWidth := Some(w));
    }

    method GetImageHeight() returns (r: Result<nat>)
      requires Valid()
      modifies this
      ensures Valid() && dir == old(dir)
      ensures r == TagValue(dir.imageLength)
      ensures cache == old(cache).(imageHeight := dir.imageLength)
    {
      if cache.imageHeight.None? {
        if dir.imageLength.None? {
          return Err(TagNotFound);
        }
        cache := cache.(imageHeight := dir.imageLength);
      }
      r := Ok(cache.imageHeight.value);
    }

    method SetImageHeight(h: nat)
      requires Valid()
      modifies this
      ensures Valid() && dir == old(dir).(imageLength := Some(h)) && cache == old(cache).(imageHeight := Some(h))
    {
      dir := dir.(imageLength := Some(h));
      cache := cache.(imageHeight := Some(h));
    }

    // -- tile size: tiles read the tile tags, strips the image width and RowsPerStrip --

    method GetTileWidth() returns (r: Result<nat>)
      requires Valid()
      modifies this
      ensures Valid() && dir == old(dir)
      ensures r == TileWidthOf(old(dir), old(cache))
      ensures r.Ok? ==> cache.tileWidth == Some(r.value) && TileWidthOf(dir, cache) == r
      ensures old(cache.tileWidth).None? && TileTypeOf(old(dir), old(cache)) == Ok(Strip) ==> r == TagValue(dir.imageWidth)
      ensures old(cache.tileWidth).None? && TileTypeOf(old(dir), old(cache)) == Ok(Tile) ==> r == TagValue(dir.tileWidth)
    {
      if cache.tileWidth.Some? {
        return Ok(cache.tileWidth.value);
      }
      var tt := GetTileType();
      if tt.Err? {
        return Err(tt.error);
      }
      if tt.value == Tile {
        if dir.tileWidth.None? {
          return Err(TagNotFound);
        }
        cache := cache.(tileWidth := dir.tileWidth);
        return Ok(dir.tileWidth.value);
      }
      var w := GetImageWidth();
      if w.Err? {
        return w;
      }
      cache := cache.(tileWidth := Some(w.value));
      r := w;
    }

    /** setTileWidth sets the tag and the cache for tiles, and is a no-op for strips. */
    method SetTileWidth(w: nat) returns (r: Result<Unit>)
      requires Valid()
      modifies this
      ensures Valid()
      ensures r.Err? <==> TileTypeOf(old(dir), old(cache)).Err?
      ensures TileTypeOf(old(dir), old(cache)) == Ok(Tile) ==> dir == old(dir).(tileWidth := Some(w)) && TileWidthOf(dir, cache) == Ok(w)
      ensures TileTypeOf(old(dir), old(cache)) == Ok(Strip) ==> dir == old(dir) && cache.tileWidth == old(cache.tileWidth)
      ensures TileTypeOf(old(dir), old(cache)).Err? ==> dir == old(dir) && cache == old(cache)
    {
      var tt := GetTileType();
      if tt.Err? {
        return Err(tt.error);
      }
      if tt.value == Tile {
        dir := dir.(tileWidth := Some(w));
        cache := cache.(tileWidth := Some(w));
      }
      r := Ok(Unit);
    }

    method GetTileHeight() returns (r: Result<nat>)
      requires Valid()
      modifies this
      ensures Valid() && dir == old(dir)
      ensures r == TileHeightOf(old(dir), old(cache))
      ensures r.Ok? ==> cache.tileHeight == Some(r.value) && TileHeightOf(dir, cache) == r
      ensures old(cache.tileHeight).None? && TileTypeOf(old(dir), old(cache)) == Ok(Strip) ==> r == TagValue(dir.rowsPerStrip)
      ensures old(cache.tileHeight).None? && TileTypeOf(old(dir), old(cache)) == Ok(Tile) ==> r == TagValue(dir.tileLength)
    {
      if cache.tileHeight.Some? {
        return Ok(cache.tileHeight.value);
      }
      var tt := GetTileType();
      if tt.Err? {
        return Err(tt.error);
      }
      var tag := if tt.value == Tile then dir.tileLength else dir.rowsPerStrip;
      if tag.None? {
        return Err(TagNotFound);
      }
      cache := cache.(tileHeight := tag);
      r := Ok(tag.value);
    }

    /** setTileHeight writes TileLength for tiles and RowsPerStrip for strips, and always caches. */
    method SetTileHeight(h: nat) returns (r: Result<Unit>)
      requires Valid()
      modifies this
      ensures Valid()
      ensures r.Err? <==> TileTypeOf(old(dir), old(cache)).Err?
      ensures TileTypeOf(old(dir), old(cache)) == Ok(Tile) ==> dir == old(dir).(tileLength := Some(h))
      ensures TileTypeOf(old(dir), old(cache)) == Ok(Strip) ==> dir == old(dir).(rowsPerStrip := Some(h))
      ensures r.Ok? ==> TileHeightOf(dir, cache) == Ok(h)
      ensures r.Err? ==> dir == old(dir) && cache == old(cache)
    {
      var tt := GetTileType();
      if tt.Err? {
        return Err(tt.error);
      }
      if tt.value == Tile {
        dir := dir.(tileLength := Some(h));
      } else {
        dir := dir.(rowsPerStrip := Some(h));
      }
      cache := cache.(tileHeight := Some(h));
      r := Ok(Unit);
    }

    // -- pixel type and bit depth --

    method GetBitsPerSample() returns (r: Result<nat>)
      requires Valid()
      modifies this
      ensures Valid() && dir == old(dir)
      ensures r == TagValue(dir.bitsPerSample)
      ensures cache == old(cache).(bits := dir.bitsPerSample)
    {
      if cache.bits.None? {
        if dir.bitsPerSample.None? {
          return Err(TagNotFound);
        }
        cache := cache.(bits := dir.bitsPerSample);
      }
      r := Ok(cache.bits.value);
    }

    /** getPixelType: the cached type, or the decoding of SampleFormat and BitsPerSample. */
    method GetPixelType() returns (r: Result<PixelType>)
      requires Valid()
      modifies this
      ensures Valid() && dir == old(dir)
      ensures r == PixelTypeOf(old(dir), old(cache))
      ensures old(cache.pixelType).None? && dir.bitsPerSample.Some? ==>
        r == DecodePixelType(dir.sampleFormat, dir.bitsPerSample.value)
      ensures cache.pixelType == old(cache.pixelType) && PixelTypeOf(dir, cache) == PixelTypeOf(old(dir), old(cache))
      ensures cache == old(cache) || cache == old(cache).(bits := dir.bitsPerSample)
    {
      if cache.pixelType.Some? {
        return Ok(cache.pixelType.value);
      }
      var bits := GetBitsPerSample();
      if bits.Err? {
        return Err(bits.error);
      }
      r := DecodePixelType(dir.sampleFormat, bits.value);
    }

    /** setPixelType writes the type's SampleFormat family and caches the type. */
    method SetPixelType(pt: PixelType)
      requires Valid()
      modifies this
      ensures Valid() && dir == old(dir).(sampleFormat := Some(FormatOf(pt)))
      ensures cache == old(cache).(pixelType := Some(pt))
      ensures PixelTypeOf(dir, cache) == Ok(pt)
    {
      dir := dir.(sampleFormat := Some(FormatOf(pt)));
      cache := cache.(pixelType := Some(pt));
    }

    /**
     * setBitsPerSample stores the requested depth clamped to the pixel
     * type's significant bits (maxBitsOf gives significantBitsPerPixel).
     */
    method SetBitsPerSample(bits: nat, maxBitsOf: map<PixelType, nat>) returns (r: Result<Unit>)
      requires Valid()
      requires PixelTypeOf(dir, cache).Ok? ==> PixelTypeOf(dir, cache).value in maxBitsOf
      modifies this
      ensures Valid()
      ensures r.Err? <==> PixelTypeOf(old(dir), old(cache)).Err?
      ensures r.Ok? ==>
        var stored := Min(bits, maxBitsOf[PixelTypeOf(old(dir), old(cache)).value]);
        dir.bitsPerSample == Some(stored) && cache.bits == Some(stored) && stored <= bits
      ensures r.Ok? ==> dir == old(dir).(bitsPerSample := dir.bitsPerSample)
      ensures r.Err? ==> dir == old(dir)
    {
      var pt := GetPixelType();
      if pt.Err? {
        return Err(pt.error);
      }
      var maxBits := maxBitsOf[pt.value];
      var stored := bits;
      if stored > maxBits {
        stored := maxBits;
      }
      dir := dir.(bitsPerSample := Some(stored));
      cache := cache.(bits := Some(stored));
      r := Ok(Unit);
    }

    // -- other tags with the same read-through cache --

    method GetSamplesPerPixel() returns (r: Result<nat>)
      requires Valid()
      modifies this
      ensures Valid() && dir == old(dir)
      ensures r == TagValue(dir.samplesPerPixel)
      ensures cache == old(cache).(samples := dir.samplesPerPixel)
    {
      if cache.samples.None? {
        if dir.samplesPerPixel.None? {
          return Err(TagNotFound);
        }
        cache := cache.(samples := dir.samplesPerPixel);
      }
      r := Ok(cache.samples.value);
    }

    method SetSamplesPerPixel(spp: nat)
      requires Valid()
      modifies this
      ensures Valid() && dir == old(dir).(samplesPerPixel := Some(spp)) && cache == old(cache).(samples := Some(spp))
    {
      dir := dir.(samplesPerPixel := Some(spp));
      cache := cache.(samples := Some(spp));
    }

    method GetPlanarConfiguration() returns (r: Result<PlanarConfiguration>)
      requires Valid()
      modifies this
      ensures Valid() && dir == old(dir)
      ensures r == TagValue(dir.planarConfig)
      ensures cache == old(cache).(planarConfig := dir.planarConfig)
    {
      if cache.planarConfig.None? {
        if dir.planarConfig.None? {
          return Err(TagNotFound);
        }
        cache := cache.(planarConfig := dir.planarConfig);
      }
      r := Ok(cache.planarConfig.value);
    }

    method SetPlanarConfiguration(pc: PlanarConfiguration)
      requires Valid()
      modifies this
      ensures Valid() && dir == old(dir).(planarConfig := Some(pc)) && cache == old(cache).(planarConfig := Some(pc))
    {
      dir := dir.(planarConfig := Some(pc));
      cache := cache.(planarConfig := Some(pc));
    }

    method GetPhotometricInterpretation() returns (r: Result<nat>)
      requires Valid()
      modifies this
      ensures Valid() && dir == old(dir)
      ensures r == TagValue(dir.photometric)
      ensures cache == old(cache).(photometric := dir.photometric)
    {
      if cache.photometric.None? {
        if dir.photometric.None? {
          return Err(TagNotFound);
        }
        cache := cache.(photometric := dir.photometric);
      }
      r := Ok(cache.photometric.value);
    }

    method SetPhotometricInterpretation(p: nat)
      requires Valid()
      modifies this
      ensures Valid() && dir == old(dir).(photometric := Some(p)) && cache == old(cache).(photometric := Some(p))
    {
      dir := dir.(photometric := Some(p));
      cache := cache.(photometric := Some(p));
    }

    method GetCompression() returns (r: Result<nat>)
      requires Valid()
      modifies this
      ensures Valid() && dir == old(dir)
      ensures r == TagValue(dir.compression)
      ensures cache == old(cache).(compression := dir.compression)
    {
      if cache.compression.None? {
        if dir.compression.None? {
          return Err(TagNotFound);
        }
        cache := cache.(compression := dir.compression);
      }
      r := Ok(cache.compression.value);
    }

    method SetCompression(c: nat)
      requires Valid()
      modifies this
      ensures Valid() && dir == old(dir).(compression := Some(c)) && cache == old(cache).(compression := Some(c))
    {
      dir := dir.(compression := Some(c));
      cache := cache.(compression := Some(c));
    }

    method GetSubIfdOffsets() returns (r: Result<seq<nat>>)
      requires Valid()
      modifies this
      ensures Valid() && dir == old(dir)
      ensures r == TagValue(dir.subIfds)
      ensures cache == old(cache).(subIfds := dir.subIfds)
    {
      if cache.subIfds.None? {
        if dir.subIfds.None? {
          return Err(TagNotFound);
        }
        cache := cache.(subIfds := dir.subIfds);
      }
      r := Ok(cache.subIfds.value);
    }

    method SetSubIfdOffsets(offsets: seq<nat>)
      requires Valid()
      modifies this
      ensures Valid() && dir == old(dir).(subIfds := Some(offsets)) && cache == old(cache).(subIfds := Some(offsets))
    {
      dir := dir.(subIfds := Some(offsets));
      cache := cache.(subIfds := Some(offsets));
    }

    /** setSubIFDCount reserves n zero offsets, to be filled in as the sub-directories are written. */
    method SetSubIfdCount(n: nat)
      requires Valid()
      modifies this
      ensures Valid() && dir.subIfds == Some(seq(n, _ => 0)) && cache.subIfds == dir.subIfds
      ensures dir == old(dir).(subIfds := dir.subIfds)
    {
      SetSubIfdOffsets(seq(n, _ => 0));
    }

    /** getSubIFDCount is the number of sub-directory offsets. */
    method GetSubIfdCount() returns (r: Result<nat>)
      requires Valid()
      modifies this
      ensures Valid() && dir == old(dir)
      ensures r.Ok? <==> dir.subIfds.Some?
      ensures r.Ok? ==> r.value == |dir.subIfds.value|
      ensures cache == old(cache).(subIfds := dir.subIfds)
    {
      var offsets := GetSubIfdOffsets();
      if offsets.Err? {
        return Err(offsets.error);
      }
      r := Ok(|offsets.value|);
    }

    // -- whole-plane reads and writes --

    /** The directory values every image read and write needs, fetched through the getters. */
    method PlaneFormat() returns (r: Result<(PixelType, PlanarConfiguration, nat)>)
      requires Valid()
      modifies this
      ensures Valid() && dir == old(dir)
      ensures cache.pixelType == old(cache.pixelType) && cache.tileType == old(cache.tileType)
      ensures cache.tileWidth == old(cache.tileWidth) && cache.tileHeight == old(cache.tileHeight)
      ensures cache.imageWidth == old(cache.imageWidth) && cache.imageHeight == old(cache.imageHeight)
      ensures r.Ok? <==> PixelTypeOf(old(dir), old(cache)).Ok? && dir.planarConfig.Some? && dir.samplesPerPixel.Some?
      ensures r.Ok? ==> r.value == (PixelTypeOf(old(dir), old(cache)).value, dir.planarConfig.value, dir.samplesPerPixel.value)
    {
      var pt := GetPixelType();
      if pt.Err? {
        return Err(pt.error);
      }
      var pc := GetPlanarConfiguration();
      if pc.Err? {
        return Err(pc.error);
      }
      var spp := GetSamplesPerPixel();
      if spp.Err? {
        return Err(spp.error);
      }
      r := Ok((pt.value, pc.value, spp.value));
    }

    /**
     * readImage's preparation of the destination: a null destination is
     * an error; otherwise its buffer is replaced by a fresh w x h x 1 x spp
     * buffer of the directory's type and order iff the present one differs
     * in any of these.  Decoding the tiles into it is not modelled.
     */
    method ReadImage(dest: VariantPixelBuffer, w: nat, h: nat) returns (r: Result<Unit>)
      requires Valid() && dest.Valid()
      modifies this, dest
      ensures Valid() && dest.Valid() && dir == old(dir)
      ensures r.Ok? <==> PixelTypeOf(old(dir), old(cache)).Ok? && dir.planarConfig.Some? && dir.samplesPerPixel.Some? && old(dest.buffer) != null
      ensures r.Ok? ==> dest.buffer != null && dest.tag == PixelTypeOf(old(dir), old(cache)).value
      ensures r.Ok? ==> dest.buffer.shape == PlaneShape(w, h, dir.samplesPerPixel.value)
      ensures r.Ok? ==> dest.buffer.order == OrderFor(dir.planarConfig.value)
      ensures r.Ok? ==> (dest.buffer != old(dest.buffer) <==>
        NeedsRealloc(PixelTypeOf(old(dir), old(cache)).value, dir.planarConfig.value, w, h, dir.samplesPerPixel.value,
                     old(dest.tag), old(dest.buffer.shape), old(dest.buffer.order)))
      ensures r.Err? ==> dest.buffer == old(dest.buffer) && dest.tag == old(dest.tag)
    {
      var fmt := PlaneFormat();
      if fmt.Err? {
        return Err(fmt.error);
      }
      var (pt, pc, spp) := fmt.value;
      if dest.buffer == null {
        return Err("Null pixel type");
      }
      if NeedsRealloc(pt, pc, w, h, spp, dest.tag, dest.buffer.shape, dest.buffer.order) {
        dest.SetBuffer(PlaneShape(w, h, spp), pt, OrderFor(pc));
      }
      r := Ok(Unit);
    }

    /**
     * readImage of one sample: read the whole plane into a default
     * temporary, then copy that sample out (CopySampleVisitor).
     */
    method ReadImageSample(dest: VariantPixelBuffer, w: nat, h: nat, sample: nat) returns (r: Result<Unit>)
      requires Valid() && dest.Valid()
      requires PixelTypeOf(dir, cache).Ok? && dir.samplesPerPixel.Some? ==> sample < dir.samplesPerPixel.value
      modifies this, dest
      ensures Valid() && dir == old(dir)
      ensures r.Ok? <==> PixelTypeOf(old(dir), old(cache)).Ok? && dir.planarConfig.Some? && dir.samplesPerPixel.Some?
      ensures r.Ok? ==> dest.Valid() && dest.buffer != null && dest.tag == PixelTypeOf(old(dir), old(cache)).value
      ensures r.Ok? ==> dest.buffer.shape == [w, h, 1, 1] && dest.buffer.order == MakeStorageOrder(false)
    {
      var tmp := new VariantPixelBuffer.Default();
      r := ReadImage(tmp, w, h);
      if r.Err? {
        return;
      }
      tmp.CopySampleTo(dest, sample);
    }

    /**
     * readLookupTable: the ColorMap's three channels of n entries become
     * an n x 1 x 1 x 3 UINT16 buffer in planar order, channel s in sample s.
     */
    method ReadLookupTable(buf: VariantPixelBuffer) returns (r: Result<Unit>)
      requires Valid() && buf.Valid()
      requires dir.colorMap.Some? ==>
        |dir.colorMap.value| == 3 && forall s :: 0 <= s < 3 ==> |dir.colorMap.value[s]| == |dir.colorMap.value[0]|
      modifies buf
      ensures buf.Valid()
      ensures r.Ok? <==> dir.colorMap.Some?
      ensures r.Err? ==> buf.buffer == old(buf.buffer)
      ensures r.Ok? ==> buf.buffer != null && fresh(buf.buffer) && buf.tag == UINT16
      ensures r.Ok? ==> buf.buffer.shape == [|dir.colorMap.value[0]|, 1, 1, 3]
      ensures r.Ok? ==> buf.buffer.order == MakeStorageOrder(false)
      ensures r.Ok? ==> forall s, i :: 0 <= s < 3 && 0 <= i < |dir.colorMap.value[0]| ==>
        InBounds([i, 0, 0, s], buf.buffer.shape) && buf.buffer.At([i, 0, 0, s]) == dir.colorMap.value[s][i]
    {
      if dir.colorMap.None? {
        return Err(TagNotFound);
      }
      var cmap := dir.colorMap.value;
      var n := |cmap[0]|;
      var shape: seq<nat> := [n, 1, 1, 3];
      buf.SetBuffer(shape, UINT16, MakeStorageOrder(false));
      PlanarSize(shape);
      var elems := ConcatChannels(cmap, n);
      buf.buffer.elems := elems;
      forall s, i | 0 <= s < 3 && 0 <= i < n
        ensures InBounds([i, 0, 0, s], buf.buffer.shape) && buf.buffer.At([i, 0, 0, s]) == cmap[s][i]
      {
        LookupTableOffset(n, i, s);
      }
      r := Ok(Unit);
    }

    /**
     * writeImage of a whole region: the source buffer must match the
     * directory's type, plane shape and storage order; then its tiles are
     * buffered, marked covered and flushed.  The pixel transfer into the
     * tile buffers (BitPacking for BIT) is not modelled here.
     */
    method WriteImage(source: VariantPixelBuffer, layout: TileLayout, x: nat, y: nat, w: nat, h: nat, toWrite: seq<nat>)
      returns (r: Result<Unit>)
      requires Valid() && source.Valid()
      requires TilesFit(layout, toWrite, if dir.planarConfig == Some(Contig) then 1 else dir.samplesPerPixel.GetOr(0))
      modifies this, tiles
      ensures Valid() && dir == old(dir)
      ensures r.Ok? ==> PixelTypeOf(old(dir), old(cache)).Ok? && dir.planarConfig.Some? && dir.samplesPerPixel.Some? && source.buffer != null
      ensures r.Ok? ==> CheckWriteBuffer(PixelTypeOf(old(dir), old(cache)).value, dir.planarConfig.value, w, h, dir.samplesPerPixel.value,
                                         source.tag, source.buffer.shape, source.buffer.order) == Ok(Unit)
      ensures r.Ok? ==> |tiles.written| >= |old(tiles.written)|
      ensures r.Ok? ==> forall i :: 0 <= i < |toWrite| ==>
        toWrite[i] in tiles.tileBuffers || toWrite[i] in tiles.written[|old(tiles.written)|..]
      ensures r.Err? ==> tiles.written == old(tiles.written) && tiles.tileBuffers == old(tiles.tileBuffers)
      ensures (PixelTypeOf(old(dir), old(cache)).Ok? && dir.planarConfig.Some? && dir.samplesPerPixel.Some? && source.buffer != null
               && dir.imageWidth.Some? && dir.imageLength.Some?) ==>
        (r.Ok? <==> CheckWriteBuffer(PixelTypeOf(old(dir), old(cache)).value, dir.planarConfig.value, w, h, dir.samplesPerPixel.value,
                                     source.tag, source.buffer.shape, source.buffer.order) == Ok(Unit))
    {
      var fmt := PlaneFormat();
      if fmt.Err? {
        return Err(fmt.error);
      }
      var (pt, pc, spp) := fmt.value;
      if source.buffer == null {
        return Err("Null pixel type");
      }
      var check := CheckWriteBuffer(pt, pc, w, h, spp, source.tag, source.buffer.shape, source.buffer.order);
      if check.Err? {
        return check;
      }
      var iw := GetImageWidth();
      if iw.Err? {
        return Err(iw.error);
      }
      var ih := GetImageHeight();
      if ih.Err? {
        return Err(ih.error);
      }
      tiles.WriteTiles(layout, PlaneRegion(x, y, w, h), toWrite, pc, spp, iw.value, ih.value);
      r := Ok(Unit);
    }

    /** Writing samples one at a time is not implemented and always fails. */
    method WriteImageSample(source: VariantPixelBuffer, sample: nat) returns (r: Result<Unit>)
      ensures r.Err?
    {
      r := Err("Writing samples separately is not yet implemented");
    }
  }

  /** A fresh directory's tile rules follow its tags: strips are as wide as the image, and as high as RowsPerStrip. */
  lemma {:induction false} TileRules(d: Directory)
    ensures TileTypeOfTags(d) == Ok(Strip) ==>
      d.rowsPerStrip.Some? && (d.tileWidth.None? || d.tileLength.None?)
    ensures d.tileWidth.None? && d.rowsPerStrip.None? ==> TileTypeOfTags(d).Err?
  {
  }
}
