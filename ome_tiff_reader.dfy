// The OME-TIFF reader: from the OME-XML TiffData elements of every image
// it works out which file each UUID names, which file and directory holds
// each plane, and which sub-resolutions the first directory of a series
// lists.  The files around the reader (what exists, what opens as TIFF,
// what each directory holds) are an input snapshot.
module OmeTiffReaders {
  import opened Wrappers
  import opened Decimals
  import opened DimensionIndex
  import opened MetadataLists
  import opened OmeTiffPlanes
  import opened OmeTiffMetadata
  import opened PathOrder
  import FormatWriters

  // ---- the files around the reader ----

  /**
   * One TIFF directory: its ImageDescription, and, when its SUBIFD field
   * can be read, what fillCoreMetadata makes of each sub-resolution it
   * lists.
   */
  datatype Directory = Directory(description: Option<string>, subResolutions: Option<seq<Result<CoreMetadata>>>)

  datatype TiffFile = TiffFile(directories: seq<Directory>)

  /**
   * canonical: the names, relative to the current file's directory, that
   * exist, with their canonical paths; existing: the paths that exist;
   * sibling: for a path that does not exist, its file name in the
   * current directory when that exists; tiffs: the paths that open as
   * TIFF files.
   */
  datatype FileSystem = FileSystem(
    canonical: map<string, string>,
    existing: set<string>,
    sibling: map<string, string>,
    tiffs: map<string, TiffFile>)

  function Quoted(s: string): string
  {
    "‘" + s + "’"
  }

  function FailedToFind(p: string): string { "Failed to find cached TIFF " + Quoted(p) }
  function FailedToOpen(p: string): string { "Failed to open " + Quoted(p) }
  function BadXml(p: string): string { "Badly formed or invalid XML document in " + Quoted(p) }
  function UnmatchedUuid(u: string): string { "Unmatched filename for UUID " + Quoted(u) }
  function InconsistentUuid(a: string, b: string): string { "Inconsistent UUID filenames " + Quoted(a) + " and " + Quoted(b) }
  function FailedIfd(plane: nat): string { "Failed to open IFD " + Quoted(DecimalString(plane)) }
  const NoDescription := "No TIFF ImageDescription found"
  /** A zero where the OME model wants a PositiveInteger. */
  const NotPositive := "Value is not a positive integer"
  /** getCoreMetadata on a series whose full-resolution entry is null. */
  const NullCore := "Core metadata entry is null"

  /**
   * A core metadata entry of the reader: the metadata, the file and
   * directory of each plane, and for a sub-resolution its position in
   * the SUBIFD list.
   */
  datatype OmeCore = OmeCore(meta: CoreMetadata, tiffPlanes: seq<Plane>, subResolutionOffset: Option<nat>)

  // ---- the TIFF cache ----

  /** Cached TIFF files: None until opened, then the open file. */
  type TiffCache = map<string, Option<TiffFile>>

  /** addTIFF: a path not yet cached is added unopened; a cached one is left as it is. */
  function AddedTiff(cache: TiffCache, p: string): (r: TiffCache)
    ensures r.Keys == cache.Keys + {p}
    ensures forall q :: q in cache ==> r[q] == cache[q]
    ensures p !in cache ==> r[p] == None
  {
    if p in cache then cache else cache[p := None]
  }

  /**
   * getTIFF: a path missing from the cache is an error; a cached one is
   * opened on first use and the open file kept; a file that does not
   * open is an error each time it is asked for.
   */
  function TiffFrom(fs: FileSystem, cache: TiffCache, p: string): (r: (Result<TiffFile>, TiffCache))
    ensures p !in cache ==> r.0 == Err(FailedToFind(p))
    ensures p in cache && cache[p].Some? ==> r.0 == Ok(cache[p].value)
    ensures p in cache && cache[p].None? ==> r.0 == (if p in fs.tiffs then Ok(fs.tiffs[p]) else Err(FailedToOpen(p)))
    ensures r.0.Ok? ==> r.1 == cache[p := Some(r.0.value)]
    ensures r.0.Err? ==> r.1 == cache
  {
    if p !in cache then (Err(FailedToFind(p)), cache)
    else if cache[p].Some? then (Ok(cache[p].value), cache)
    else if p in fs.tiffs then (Ok(fs.tiffs[p]), cache[p := Some(fs.tiffs[p])])
    else (Err(FailedToOpen(p)), cache)
  }

  /** Every opened entry holds the file that was opened. */
  predicate CacheFaithful(fs: FileSystem, cache: TiffCache)
  {
    forall q :: q in cache && cache[q].Some? ==> q in fs.tiffs && cache[q].value == fs.tiffs[q]
  }

  /**
   * Asking again gives the same answer and leaves the cache alone, and on
   * a faithful cache the answer is the file on disk.
   */
  lemma TiffFromStable(fs: FileSystem, cache: TiffCache, p: string)
    requires CacheFaithful(fs, cache)
    ensures var (r, c) := TiffFrom(fs, cache, p);
      TiffFrom(fs, c, p) == (r, c) && CacheFaithful(fs, c) &&
      (r.Ok? <==> p in cache && p in fs.tiffs) && (r.Ok? ==> r.value == fs.tiffs[p])
  {
  }

  /** validTIFF as written: getTIFF throws instead of returning a null file, so the answer is never false. */
  function ValidTiffAsWritten(fs: FileSystem, cache: TiffCache, p: string): (r: (Result<bool>, TiffCache))
    ensures r.0.Ok? <==> TiffFrom(fs, cache, p).0.Ok?
    ensures r.0.Ok? ==> r.0.value
    ensures r.0.Err? ==> r.0.error == TiffFrom(fs, cache, p).0.error
    ensures r.1 == TiffFrom(fs, cache, p).1
  {
    var (t, c) := TiffFrom(fs, cache, p);
    (if t.Ok? then Ok(true) else Err(t.error), c)
  }

  lemma ValidTiffNeverFalse(fs: FileSystem, cache: TiffCache, p: string)
    ensures ValidTiffAsWritten(fs, cache, p).0 != Ok(false)
    ensures p in cache && cache[p].None? && p !in fs.tiffs ==> ValidTiffAsWritten(fs, cache, p).0 == Err(FailedToOpen(p))
  {
  }

  /** validTIFF as documented: whether the cached file can be opened, opening it when it can. */
  function ValidFrom(fs: FileSystem, cache: TiffCache, p: string): (r: (bool, TiffCache))
    ensures r.0 <==> TiffFrom(fs, cache, p).0.Ok?
    ensures r.1 == TiffFrom(fs, cache, p).1
  {
    var (t, c) := TiffFrom(fs, cache, p);
    (t.Ok?, c)
  }

  // ---- UUID to file ----

  function UuidOf(td: TiffDataXml): string
  {
    if td.uuid.Some? then td.uuid.value else ""
  }

  /** The TiffData's FileName, when it names a file that exists. */
  predicate Located(fs: FileSystem, td: TiffDataXml)
  {
    td.fileName.Some? && td.fileName.value in fs.canonical
  }

  /**
   * The file findUsedFiles gives a TiffData's UUID: the current file when
   * there is no UUID; the named file when it exists; otherwise the
   * current file if it carries this UUID or an empty one, an error if it
   * carries another, and (with a warning) the current file if it carries
   * none.
   */
  function UuidFile(fs: FileSystem, td: TiffDataXml, currentId: string, currentUuid: Option<string>): (r: Result<string>)
    ensures UuidOf(td) == "" ==> r == Ok(currentId)
    ensures UuidOf(td) != "" && Located(fs, td) ==> r == Ok(fs.canonical[td.fileName.value])
    ensures UuidOf(td) != "" && !Located(fs, td) && currentUuid.Some? && (UuidOf(td) == currentUuid.value || currentUuid.value == "") ==> r == Ok(currentId)
    ensures r.Err? <==> UuidOf(td) != "" && !Located(fs, td) && currentUuid.Some? && UuidOf(td) != currentUuid.value && currentUuid.value != ""
    ensures r.Err? ==> r.error == UnmatchedUuid(UuidOf(td))
    ensures UuidOf(td) != "" && !Located(fs, td) && currentUuid.None? ==> r == Ok(currentId)
  {
    var uuid := UuidOf(td);
    if uuid == "" then Ok(currentId)
    else if Located(fs, td) then Ok(fs.canonical[td.fileName.value])
    else if currentUuid.Some? && (uuid == currentUuid.value || currentUuid.value == "") then Ok(currentId)
    else if currentUuid.Some? then Err(UnmatchedUuid(uuid))
    else Ok(currentId)
  }

  /** Recording a UUID's file: a new UUID is added, a known one must name the same file. */
  function Registered(files: map<string, string>, uuid: string, file: string): (r: Result<map<string, string>>)
    ensures r.Err? <==> uuid in files && files[uuid] != file
    ensures r.Err? ==> r.error == InconsistentUuid(files[uuid], file)
    ensures r.Ok? ==> r.value == files[uuid := file]
  {
    if uuid !in files then Ok(files[uuid := file])
    else if files[uuid] != file then Err(InconsistentUuid(files[uuid], file))
    else Ok(files)
  }

  /** The UUID map after the given TiffData elements, in order. */
  function FilesFrom(fs: FileSystem, files: map<string, string>, tds: seq<TiffDataXml>, currentId: string, currentUuid: Option<string>)
    : (r: Result<map<string, string>>)
    ensures r.Ok? ==> forall u :: u in files ==> u in r.value && r.value[u] == files[u]
    ensures r.Ok? ==> forall k :: 0 <= k < |tds| ==> UuidOf(tds[k]) in r.value
    decreases |tds|
  {
    if |tds| == 0 then Ok(files)
    else
      assert forall k :: 0 <= k < |tds| - 1 ==> tds[..|tds| - 1][k] == tds[k];
      var prev :- FilesFrom(fs, files, tds[..|tds| - 1], currentId, currentUuid);
      var file :- UuidFile(fs, tds[|tds| - 1], currentId, currentUuid);
      Registered(prev, UuidOf(tds[|tds| - 1]), file)
  }

  /** Every TiffData of every image, series by series. */
  function AllTiffData(meta: seq<ImageXml>): seq<TiffDataXml>
    decreases |meta|
  {
    if |meta| == 0 then [] else AllTiffData(meta[..|meta| - 1]) + meta[|meta| - 1].tiffData
  }

  /** Registering the TiffData of a second list continues from the map the first gives. */
  lemma {:induction false} FilesFromAppend(fs: FileSystem, files: map<string, string>, a: seq<TiffDataXml>, b: seq<TiffDataXml>, currentId: string, currentUuid: Option<string>)
    requires FilesFrom(fs, files, a, currentId, currentUuid).Ok?
    ensures FilesFrom(fs, files, a + b, currentId, currentUuid) == FilesFrom(fs, FilesFrom(fs, files, a, currentId, currentUuid).value, b, currentId, currentUuid)
    decreases |b|
  {
    if |b| == 0 {
      assert a + b == a;
    } else {
      assert (a + b)[..|a + b| - 1] == a + b[..|b| - 1];
      assert (a + b)[|a + b| - 1] == b[|b| - 1];
      FilesFromAppend(fs, files, a, b[..|b| - 1], currentId, currentUuid);
    }
  }

  /** The TiffData of the first n images come first. */
  lemma {:induction false} AllTiffDataPrefix(meta: seq<ImageXml>, n: nat)
    requires n <= |meta|
    ensures |AllTiffData(meta[..n])| <= |AllTiffData(meta)|
    ensures AllTiffData(meta)[..|AllTiffData(meta[..n])|] == AllTiffData(meta[..n])
    decreases |meta| - n
  {
    if n < |meta| {
      AllTiffDataPrefix(meta, n + 1);
      assert meta[..n + 1][..n] == meta[..n];
      assert AllTiffData(meta[..n + 1]) == AllTiffData(meta[..n]) + meta[n].tiffData;
    } else {
      assert meta[..n] == meta;
    }
  }

  /** Every file the map names is the current file or an existing canonical path. */
  predicate Targets(fs: FileSystem, files: map<string, string>, currentId: string)
  {
    forall u :: u in files ==> files[u] == currentId || files[u] in fs.canonical.Values
  }

  /**
   * The map only grows, records every TiffData's UUID (the empty one for
   * TiffData without), and names only the current file or existing files.
   */
  lemma {:induction false} FilesFromGrows(fs: FileSystem, files: map<string, string>, tds: seq<TiffDataXml>, currentId: string, currentUuid: Option<string>)
    requires Targets(fs, files, currentId)
    requires FilesFrom(fs, files, tds, currentId, currentUuid).Ok?
    ensures var r := FilesFrom(fs, files, tds, currentId, currentUuid).value;
      Targets(fs, r, currentId) && files.Keys <= r.Keys && (forall u :: u in files ==> r[u] == files[u]) &&
      forall k :: 0 <= k < |tds| ==> UuidOf(tds[k]) in r && Ok(r[UuidOf(tds[k])]) == UuidFile(fs, tds[k], currentId, currentUuid)
    decreases |tds|
  {
    if |tds| > 0 {
      var init := tds[..|tds| - 1];
      var td := tds[|tds| - 1];
      FilesFromGrows(fs, files, init, currentId, currentUuid);
      var prev := FilesFrom(fs, files, init, currentId, currentUuid).value;
      var file := UuidFile(fs, td, currentId, currentUuid).value;
      var r := FilesFrom(fs, files, tds, currentId, currentUuid).value;
      assert r == prev[UuidOf(td) := file];
      assert file == currentId || file in fs.canonical.Values by {
        if UuidOf(td) != "" && Located(fs, td) {
          assert fs.canonical[td.fileName.value] in fs.canonical.Values;
        }
      }
      forall k | 0 <= k < |tds| ensures UuidOf(tds[k]) in r && Ok(r[UuidOf(tds[k])]) == UuidFile(fs, tds[k], currentId, currentUuid) {
        if k < |init| {
          assert tds[k] == init[k];
        }
      }
    }
  }

  /** An error part way stays an error. */
  lemma {:induction false} FilesFromErr(fs: FileSystem, files: map<string, string>, tds: seq<TiffDataXml>, n: nat, currentId: string, currentUuid: Option<string>)
    requires n <= |tds| && FilesFrom(fs, files, tds[..n], currentId, currentUuid).Err?
    ensures FilesFrom(fs, files, tds, currentId, currentUuid).Err?
    decreases |tds| - n
  {
    if n < |tds| {
      assert tds[..n + 1][..n] == tds[..n];
      FilesFromErr(fs, files, tds, n + 1, currentId, currentUuid);
    } else {
      assert tds[..n] == tds;
    }
  }

  /** Registering image s after the first s continues the map, and a failure there fails the whole list. */
  lemma FilesFromNextImage(fs: FileSystem, files0: map<string, string>, meta: seq<ImageXml>, s: nat, files: map<string, string>, currentId: string, currentUuid: Option<string>)
    requires s < |meta| && FilesFrom(fs, files0, AllTiffData(meta[..s]), currentId, currentUuid) == Ok(files)
    ensures FilesFrom(fs, files0, AllTiffData(meta[..s + 1]), currentId, currentUuid) == FilesFrom(fs, files, meta[s].tiffData, currentId, currentUuid)
    ensures FilesFrom(fs, files, meta[s].tiffData, currentId, currentUuid).Err? ==> FilesFrom(fs, files0, AllTiffData(meta), currentId, currentUuid).Err?
  {
    assert meta[..s + 1][..s] == meta[..s];
    FilesFromAppend(fs, files0, AllTiffData(meta[..s]), meta[s].tiffData, currentId, currentUuid);
    if FilesFrom(fs, files, meta[s].tiffData, currentId, currentUuid).Err? {
      AllTiffDataPrefix(meta, s + 1);
      FilesFromErr(fs, files0, AllTiffData(meta), |AllTiffData(meta[..s + 1])|, currentId, currentUuid);
    }
  }

  // ---- the file of a TiffData ----

  /**
   * getTiffDataFilename, with the invalid-file map it may extend: without
   * a FileName, the current file or the file of the UUID; with one, the
   * existing file, else the file recorded for that name, else the current
   * file, recorded.
   */
  function TiffDataFile(fs: FileSystem, currentId: string, files: map<string, string>, invalid: map<string, string>, td: TiffDataXml): (r: (string, map<string, string>))
    ensures td.fileName.None? ==> r.1 == invalid
    ensures td.fileName.Some? ==> r.1 == invalid || (td.fileName.value !in invalid && r.1 == invalid[td.fileName.value := currentId])
  {
    if td.fileName.None? then
      if td.uuid.None? then (currentId, invalid)
      else if td.uuid.value in files then (files[td.uuid.value], invalid)
      else (currentId, invalid)
    else
      var name := td.fileName.value;
      if name in fs.canonical then (fs.canonical[name], invalid)
      else if name in invalid then (invalid[name], invalid)
      else (currentId, invalid[name := currentId])
  }

  /** Every name recorded as invalid falls back to the current file. */
  predicate FallsBack(invalid: map<string, string>, currentId: string)
  {
    forall n :: n in invalid ==> invalid[n] == currentId
  }

  /**
   * The file is the current file or one the UUID map or the directory
   * names, the invalid map keeps falling back to the current file, and
   * asking again gives the same file without changing the map.
   */
  lemma TiffDataFileStable(fs: FileSystem, currentId: string, files: map<string, string>, invalid: map<string, string>, td: TiffDataXml)
    requires Targets(fs, files, currentId) && FallsBack(invalid, currentId)
    ensures var (f, inv) := TiffDataFile(fs, currentId, files, invalid, td);
      (f == currentId || f in fs.canonical.Values) && FallsBack(inv, currentId) &&
      TiffDataFile(fs, currentId, files, inv, td) == (f, inv)
  {
    if td.fileName.Some? && td.fileName.value in fs.canonical {
      assert fs.canonical[td.fileName.value] in fs.canonical.Values;
    }
  }

  /** Where findTiffData looks for a file that does not exist: beside the current file, else the current file itself. */
  function Relocated(fs: FileSystem, currentId: string, singleFile: bool, name: string): (r: (string, bool))
    ensures name in fs.existing ==> r == (name, true)
    ensures name !in fs.existing && name in fs.sibling ==> r == (fs.sibling[name], true)
    ensures name !in fs.existing && name !in fs.sibling ==> r == (currentId, singleFile)
  {
    if name in fs.existing then (name, true)
    else if name in fs.sibling then (fs.sibling[name], true)
    else (currentId, singleFile)
  }

  // ---- plane tables ----

  /** std::vector::resize: the first n planes kept, default planes added. */
  function Resized(planes: seq<Plane>, n: nat): (r: seq<Plane>)
    ensures |r| == n
    ensures forall k :: 0 <= k < n ==> r[k] == if k < |planes| then planes[k] else DEFAULT_PLANE
  {
    if n <= |planes| then planes[..n] else planes + seq(n - |planes|, k => DEFAULT_PLANE)
  }

  /**
   * The planes of one TiffData written into the table: n planes from
   * index on, at consecutive directories from the first one's; a plane
   * past the end of the table fails the whole write.
   */
  function Filled(planes: seq<Plane>, index: nat, n: nat, first: Plane): (r: Result<seq<Plane>>)
    ensures r.Ok? <==> index + n <= |planes|
    ensures r.Err? ==> r.error == FormatWriters.OutOfRange
    ensures r.Ok? ==> |r.value| == |planes|
    ensures r.Ok? ==> forall k :: 0 <= k < |planes| && !(index <= k < index + n) ==> r.value[k] == planes[k]
    ensures r.Ok? ==> forall k :: index <= k < index + n ==> r.value[k] == first.(index := first.index + (k - index))
  {
    if index + n > |planes| then Err(FormatWriters.OutOfRange)
    else Ok(seq(|planes|, k requires 0 <= k < |planes| => if index <= k < index + n then first.(index := first.index + (k - index)) else planes[k]))
  }

  /** The loop that writes a TiffData's planes, one at a time. */
  method FillPlanes(planes: seq<Plane>, index: nat, n: nat, first: Plane) returns (r: Result<seq<Plane>>)
    ensures r == Filled(planes, index, n, first)
  {
    var table := planes;
    var q := 0;
    while q < n
      invariant 0 <= q <= n && |table| == |planes|
      invariant index + q <= |planes| || q == 0
      invariant forall k :: 0 <= k < |planes| ==> table[k] == if index <= k < index + q then first.(index := first.index + (k - index)) else planes[k]
    {
      if index + q >= |table| {
        return Err(FormatWriters.OutOfRange);
      }
      table := table[index + q := first.(index := first.index + q)];
      q := q + 1;
    }
    if index + n > |planes| {
      return Err(FormatWriters.OutOfRange);
    }
    assert table == Filled(planes, index, n, first).value;
    r := Ok(table);
  }

  /** The clearing pass: a plane nothing was written to loses its file. */
  function Cleared(planes: seq<Plane>): (r: seq<Plane>)
    ensures |r| == |planes|
    ensures forall k :: 0 <= k < |planes| ==> r[k] == if planes[k].status == Unknown then planes[k].(id := "") else planes[k]
  {
    seq(|planes|, k requires 0 <= k < |planes| => if planes[k].status == Unknown then planes[k].(id := "") else planes[k])
  }

  method ClearPlanes(planes: seq<Plane>) returns (r: seq<Plane>)
    ensures r == Cleared(planes)
  {
    r := planes;
    var k := 0;
    while k < |r|
      invariant 0 <= k <= |r| == |planes|
      invariant forall j :: 0 <= j < k ==> r[j] == Cleared(planes)[j]
      invariant forall j :: k <= j < |r| ==> r[j] == planes[j]
    {
      if r[k].status == Unknown {
        r := r[k := r[k].(id := "")];
      }
      k := k + 1;
    }
  }

  /** The table a broken series falls back to: directory p of the current file for plane p. */
  function Fallback(currentId: string, n: nat): (r: seq<Plane>)
    ensures |r| == n
    ensures forall p :: 0 <= p < n ==> r[p] == Plane(currentId, p, false, Unknown)
  {
    seq(n, p requires 0 <= p < n => Plane(currentId, p, false, Unknown))
  }

  // ---- reading the TiffData of one series ----

  /** Why the TiffData loop of a series stopped early. */
  datatype Stop = Running | Nulled | OutOfBounds

  /** The state the TiffData loop carries: the plane table, the invalid-file map and the TIFF cache. */
  datatype Scan = Scan(planes: seq<Plane>, invalidFiles: map<string, string>, tiffs: TiffCache, stop: Stop)

  /** What the TiffData loop of a series reads but does not change. */
  datatype SeriesContext = SeriesContext(
    order: DimensionOrder,
    sizes: ZCT,
    starts: Starts,
    currentId: string,
    files: map<string, string>,
    singleFile: bool)

  /** A TiffData's corrected first coordinates. */
  function FirstOf(ctx: SeriesContext, v: TiffDataValues): ZCT
  {
    ZCT(Corrected(v.firstZ, ctx.starts.z), Corrected(v.firstC, ctx.starts.c), Corrected(v.firstT, ctx.starts.t))
  }

  /**
   * One pass of the TiffData loop: a TiffData without planes nulls the
   * series and one whose corrected coordinates fall outside the sizes
   * stops the loop; otherwise its planes are written with its file, at
   * consecutive directories, and marked present when the file was found;
   * a found file that validTIFF cannot open fails the step with getTIFF's
   * error.
   */
  function TiffDataStep(fs: FileSystem, ctx: SeriesContext, sc: Scan, td: TiffDataXml): (r: Result<Scan>)
    requires sc.stop == Running
    ensures r.Ok? ==> |r.value.planes| == |sc.planes|
    ensures r.Ok? && r.value.stop != Running ==> r.value == sc.(stop := r.value.stop)
    ensures r.Ok? ==> (r.value.stop == Nulled <==> !ValuesOf(td).valid)
    ensures r.Ok? ==> forall k :: 0 <= k < |sc.planes| ==> r.value.planes[k] == sc.planes[k] || r.value.planes[k].certain
  {
    var v := ValuesOf(td);
    if !v.valid then Ok(sc.(stop := Nulled))
    else
      var first := FirstOf(ctx, v);
      if !Within(first, ctx.sizes) then Ok(sc.(stop := OutOfBounds))
      else
        var index := GetIndex(ctx.order, ctx.sizes, first).value;
        var (name, invalid) := TiffDataFile(fs, ctx.currentId, ctx.files, sc.invalidFiles, td);
        var cache := AddedTiff(sc.tiffs, name);
        var (file, found) := Relocated(fs, ctx.currentId, ctx.singleFile, name);
        var (valid, cache2) := if found then ValidTiffAsWritten(fs, cache, file) else (Ok(false), cache);
        if valid.Err? then Err(valid.error)
        else
        var planes :- Filled(sc.planes, index, v.numPlanes, Plane(file, v.ifd, true, if valid.value then Present else Absent));
        Ok(Scan(planes, invalid, cache2, Running))
  }

  /** The TiffData loop over the given elements; once stopped, later elements are not looked at. */
  function ScanTiffData(fs: FileSystem, ctx: SeriesContext, init: Scan, tds: seq<TiffDataXml>): (r: Result<Scan>)
    requires init.stop == Running
    ensures r.Ok? ==> |r.value.planes| == |init.planes|
    decreases |tds|
  {
    if |tds| == 0 then Ok(init)
    else
      var prev :- ScanTiffData(fs, ctx, init, tds[..|tds| - 1]);
      if prev.stop != Running then Ok(prev)
      else TiffDataStep(fs, ctx, prev, tds[|tds| - 1])
  }

  /** A TiffData that stops the loop decides the outcome: the ones after it change nothing. */
  lemma {:induction false} ScanStopped(fs: FileSystem, ctx: SeriesContext, init: Scan, tds: seq<TiffDataXml>, n: nat)
    requires init.stop == Running && n <= |tds|
    requires ScanTiffData(fs, ctx, init, tds[..n]).Ok? && ScanTiffData(fs, ctx, init, tds[..n]).value.stop != Running
    ensures ScanTiffData(fs, ctx, init, tds) == ScanTiffData(fs, ctx, init, tds[..n])
    decreases |tds| - n
  {
    if n < |tds| {
      assert tds[..n + 1][..n] == tds[..n];
      ScanStopped(fs, ctx, init, tds, n + 1);
    } else {
      assert tds[..n] == tds;
    }
  }

  lemma {:induction false} ScanErr(fs: FileSystem, ctx: SeriesContext, init: Scan, tds: seq<TiffDataXml>, n: nat)
    requires init.stop == Running && n <= |tds| && ScanTiffData(fs, ctx, init, tds[..n]).Err?
    ensures ScanTiffData(fs, ctx, init, tds) == ScanTiffData(fs, ctx, init, tds[..n])
    decreases |tds| - n
  {
    if n < |tds| {
      assert tds[..n + 1][..n] == tds[..n];
      ScanErr(fs, ctx, init, tds, n + 1);
    } else {
      assert tds[..n] == tds;
    }
  }

  /** Every plane of the table is either as resized or written by some TiffData, and then certain. */
  lemma {:induction false} ScanPlanes(fs: FileSystem, ctx: SeriesContext, init: Scan, tds: seq<TiffDataXml>)
    requires init.stop == Running && ScanTiffData(fs, ctx, init, tds).Ok?
    ensures var r := ScanTiffData(fs, ctx, init, tds).value;
      forall k :: 0 <= k < |init.planes| ==> r.planes[k] == init.planes[k] || r.planes[k].certain
    decreases |tds|
  {
    if |tds| > 0 {
      ScanPlanes(fs, ctx, init, tds[..|tds| - 1]);
    }
  }

  /**
   * The end of a series: a nulled series loses its entry; otherwise unset
   * planes are cleared, and if any plane is left without a file the table
   * becomes one plane per directory of the current file.
   */
  function SeriesTable(fs: FileSystem, currentId: string, sc: Scan): (r: Result<(Option<seq<Plane>>, TiffCache)>)
    ensures r.Ok? && r.value.0.Some? && currentId != "" ==> forall k :: 0 <= k < |r.value.0.value| ==> r.value.0.value[k].id != ""
    ensures r.Ok? ==> (sc.stop == Nulled <==> r.value.0.None?)
  {
    if sc.stop == Nulled then Ok((None, sc.tiffs))
    else
      var cleared := Cleared(sc.planes);
      if exists k :: 0 <= k < |cleared| && cleared[k].id == "" then
        var (t, cache) := TiffFrom(fs, sc.tiffs, currentId);
        if t.Err? then Err(t.error) else Ok((Some(Fallback(currentId, |t.value.directories|)), cache))
      else Ok((Some(cleared), sc.tiffs))
  }

  /**
   * A table that survives is the cleared one when every plane has a file,
   * and otherwise, on a faithful cache, one plane per directory of the
   * current file.
   */
  lemma SeriesTableShape(fs: FileSystem, currentId: string, sc: Scan)
    requires SeriesTable(fs, currentId, sc).Ok? && SeriesTable(fs, currentId, sc).value.0.Some?
    ensures var t := SeriesTable(fs, currentId, sc).value.0.value;
      (forall k :: 0 <= k < |Cleared(sc.planes)| ==> Cleared(sc.planes)[k].id != "") ==> t == Cleared(sc.planes)
    ensures var t := SeriesTable(fs, currentId, sc).value.0.value;
      (exists k :: 0 <= k < |Cleared(sc.planes)| && Cleared(sc.planes)[k].id == "") && CacheFaithful(fs, sc.tiffs) ==>
        currentId in fs.tiffs && t == Fallback(currentId, |fs.tiffs[currentId].directories|)
  {
    if exists k :: 0 <= k < |Cleared(sc.planes)| && Cleared(sc.planes)[k].id == "" {
      if CacheFaithful(fs, sc.tiffs) {
        TiffFromStable(fs, sc.tiffs, currentId);
      }
    }
  }

  /** The context findTiffData builds for a series from its image and full-resolution entry. */
  function ContextFor(img: ImageXml, entry: OmeCore, starts: Starts, currentId: string, files: map<string, string>, singleFile: bool): SeriesContext
  {
    SeriesContext(img.order, ZCT(img.sizeZ, |entry.meta.sizeC|, img.sizeT), starts, currentId, files, singleFile)
  }

  /** findTiffData for one series: the new full-resolution entry (None when nulled), invalid-file map and cache. */
  function FindSeries(fs: FileSystem, img: ImageXml, entry: OmeCore, starts: Starts, currentId: string, files: map<string, string>, singleFile: bool,
                      invalid: map<string, string>, cache: TiffCache): (r: Result<(Option<OmeCore>, map<string, string>, TiffCache)>)
    ensures r.Ok? && r.value.0.Some? ==> r.value.0.value.(tiffPlanes := entry.tiffPlanes) == entry
  {
    var ctx := ContextFor(img, entry, starts, currentId, files, singleFile);
    var num := Count(ctx.sizes);
    if num == 0 then Err(NotPositive)
    else
      var sc :- ScanTiffData(fs, ctx, Scan(Resized(entry.tiffPlanes, num), invalid, cache, Running), img.tiffData);
      var table :- SeriesTable(fs, currentId, sc);
      Ok((if table.0.None? then None else Some(entry.(tiffPlanes := table.0.value)), sc.invalidFiles, table.1))
  }

  /** The state findTiffData carries from series to series. */
  datatype Tables = Tables(entries: seq<Option<OmeCore>>, invalidFiles: map<string, string>, tiffs: TiffCache)

  /** The full-resolution entry of every series. */
  function Firsts(core: seq<seq<Option<OmeCore>>>): (r: seq<OmeCore>)
    requires forall s :: 0 <= s < |core| ==> |core[s]| > 0 && core[s][0].Some?
    ensures |r| == |core| && forall s :: 0 <= s < |core| ==> r[s] == core[s][0].value
  {
    seq(|core|, s requires 0 <= s < |core| => core[s][0].value)
  }

  /** The index starts of every series. */
  function StartsOf(meta: seq<ImageXml>): (r: seq<Starts>)
    ensures |r| == |meta| && forall s :: 0 <= s < |meta| ==> r[s] == IndexStartsAsWritten(meta[s].tiffData)
  {
    seq(|meta|, s requires 0 <= s < |meta| => IndexStartsAsWritten(meta[s].tiffData))
  }

  /** findTiffData over the first n series. */
  function TablesFor(fs: FileSystem, meta: seq<ImageXml>, firsts: seq<OmeCore>, starts: seq<Starts>, currentId: string, files: map<string, string>,
                     singleFile: bool, invalid: map<string, string>, cache: TiffCache, n: nat): (r: Result<Tables>)
    requires n <= |meta| && |firsts| == |meta| == |starts|
    ensures r.Ok? ==> |r.value.entries| == n
    decreases n
  {
    if n == 0 then Ok(Tables([], invalid, cache))
    else
      var prev :- TablesFor(fs, meta, firsts, starts, currentId, files, singleFile, invalid, cache, n - 1);
      var s :- FindSeries(fs, meta[n - 1], firsts[n - 1], starts[n - 1], currentId, files, singleFile, prev.invalidFiles, prev.tiffs);
      Ok(Tables(prev.entries + [s.0], s.1, s.2))
  }

  /** One more series: the tables so far extended by what findTiffData makes of it. */
  lemma TablesForStep(fs: FileSystem, meta: seq<ImageXml>, firsts: seq<OmeCore>, starts: seq<Starts>, currentId: string, files: map<string, string>,
                      singleFile: bool, invalid: map<string, string>, cache: TiffCache, n: nat, prev: Tables, step: (Option<OmeCore>, map<string, string>, TiffCache))
    requires n < |meta| && |firsts| == |meta| == |starts|
    requires TablesFor(fs, meta, firsts, starts, currentId, files, singleFile, invalid, cache, n) == Ok(prev)
    requires FindSeries(fs, meta[n], firsts[n], starts[n], currentId, files, singleFile, prev.invalidFiles, prev.tiffs) == Ok(step)
    ensures TablesFor(fs, meta, firsts, starts, currentId, files, singleFile, invalid, cache, n + 1) == Ok(Tables(prev.entries + [step.0], step.1, step.2))
  {
  }

  /** A series that fails fails findTiffData. */
  lemma TablesForFails(fs: FileSystem, meta: seq<ImageXml>, firsts: seq<OmeCore>, starts: seq<Starts>, currentId: string, files: map<string, string>,
                       singleFile: bool, invalid: map<string, string>, cache: TiffCache, n: nat, prev: Tables)
    requires n < |meta| && |firsts| == |meta| == |starts|
    requires TablesFor(fs, meta, firsts, starts, currentId, files, singleFile, invalid, cache, n) == Ok(prev)
    requires FindSeries(fs, meta[n], firsts[n], starts[n], currentId, files, singleFile, prev.invalidFiles, prev.tiffs).Err?
    ensures TablesFor(fs, meta, firsts, starts, currentId, files, singleFile, invalid, cache, |meta|).Err?
  {
    TablesErr(fs, meta, firsts, starts, currentId, files, singleFile, invalid, cache, n + 1);
  }

  lemma {:induction false} TablesErr(fs: FileSystem, meta: seq<ImageXml>, firsts: seq<OmeCore>, starts: seq<Starts>, currentId: string, files: map<string, string>,
                                     singleFile: bool, invalid: map<string, string>, cache: TiffCache, n: nat)
    requires n <= |meta| && |firsts| == |meta| == |starts|
    requires TablesFor(fs, meta, firsts, starts, currentId, files, singleFile, invalid, cache, n).Err?
    ensures TablesFor(fs, meta, firsts, starts, currentId, files, singleFile, invalid, cache, |meta|).Err?
    decreases |meta| - n
  {
    if n < |meta| {
      TablesErr(fs, meta, firsts, starts, currentId, files, singleFile, invalid, cache, n + 1);
    }
  }

  // ---- sub-resolutions ----

  /**
   * The sub-resolutions of a series: entry r is what fillCoreMetadata
   * gives for SUBIFD r, with its offset; a failure to fill one, or one
   * compareResolution refuses, fails them all.
   */
  function SubResolutions(full: CoreMetadata, subs: seq<Result<CoreMetadata>>): (r: Result<seq<OmeCore>>)
    ensures r.Ok? <==> forall k :: 0 <= k < |subs| ==> subs[k].Ok? && CompareResolution(full, subs[k].value)
    ensures r.Ok? ==> |r.value| == |subs| && forall k :: 0 <= k < |subs| ==> r.value[k] == OmeCore(subs[k].value, [], Some(k))
    decreases |subs|
  {
    if |subs| == 0 then Ok([])
    else
      var init := subs[..|subs| - 1];
      var prev :- SubResolutions(full, init);
      var k := |subs| - 1;
      assert forall j :: 0 <= j < k ==> init[j] == subs[j];
      if subs[k].Err? then Err(subs[k].error)
      else if !CompareResolution(full, subs[k].value) then Err(SubResolutionMismatch(k + 1))
      else Ok(prev + [OmeCore(subs[k].value, [], Some(k))])
  }

  function SubResolutionMismatch(resolution: nat): string
  {
    "Sub-resolution core metadata mismatch with full resolution core metadata: resolution " + DecimalString(resolution)
  }

  /** The loop over the SUBIFD entries of a series. */
  method BuildSubResolutions(full: CoreMetadata, subs: seq<Result<CoreMetadata>>) returns (r: Result<seq<OmeCore>>)
    ensures r.Ok? <==> SubResolutions(full, subs).Ok?
    ensures r.Ok? ==> r.value == SubResolutions(full, subs).value
  {
    var built: seq<OmeCore> := [];
    var k := 0;
    while k < |subs|
      invariant 0 <= k <= |subs|
      invariant SubResolutions(full, subs[..k]) == Ok(built)
    {
      assert subs[..k + 1][..k] == subs[..k];
      if subs[k].Err? || !CompareResolution(full, subs[k].value) {
        return Err("Failed to get sub-resolutions");
      }
      built := built + [OmeCore(subs[k].value, [], Some(k))];
      k := k + 1;
    }
    assert subs[..k] == subs;
    r := Ok(built);
  }

  /** The loop reaches SUBIFD entry k when every entry before it filled and matched. */
  predicate Reached(full: CoreMetadata, subs: seq<Result<CoreMetadata>>, k: nat)
    requires k <= |subs|
  {
    forall i :: 0 <= i < k ==> subs[i].Ok? && CompareResolution(full, subs[i].value)
  }

  /**
   * addSubResolutions for one series as written: once the list has been
   * resized for the SUBIFD entries, a failure keeps it at that size, the
   * entries after the failing one default-constructed.
   */
  function SeriesResolutionsAsWritten(entries: seq<Option<OmeCore>>, subs: seq<Result<CoreMetadata>>, blank: CoreMetadata): (r: seq<Option<OmeCore>>)
    requires |entries| > 0 && entries[0].Some?
    ensures |r| == 1 + |subs| && r[0] == entries[0]
  {
    var full := entries[0].value;
    var built := SubResolutions(full.meta, subs);
    if built.Ok? then [entries[0]] + seq(|subs|, k requires 0 <= k < |subs| => Some(built.value[k]))
    else
      [entries[0]] + seq(|subs|, k requires 0 <= k < |subs| =>
        Some(if subs[k].Ok? && Reached(full.meta, subs, k) then OmeCore(subs[k].value, [], Some(k)) else OmeCore(blank, [], None)))
  }

  /** addSubResolutions for one series: the sub-resolutions added when all are good, discarded otherwise. */
  function SeriesResolutions(entries: seq<Option<OmeCore>>, subs: seq<Result<CoreMetadata>>): (r: seq<Option<OmeCore>>)
    requires |entries| > 0 && entries[0].Some?
    ensures |r| > 0 && r[0] == entries[0]
    ensures SubResolutions(entries[0].value.meta, subs).Ok? ==> |r| == 1 + |subs|
    ensures SubResolutions(entries[0].value.meta, subs).Err? ==> r == entries[..1]
  {
    var built := SubResolutions(entries[0].value.meta, subs);
    if built.Ok? then [entries[0]] + seq(|subs|, k requires 0 <= k < |subs| => Some(built.value[k]))
    else entries[..1]
  }

  /** The failure the comment promises to discard stays in the list: one bad sub-resolution leaves all SUBIFD slots filled. */
  lemma SubResolutionFailureKept(entries: seq<Option<OmeCore>>, subs: seq<Result<CoreMetadata>>, blank: CoreMetadata)
    requires |entries| > 0 && entries[0].Some? && SubResolutions(entries[0].value.meta, subs).Err?
    ensures |SeriesResolutionsAsWritten(entries, subs, blank)| == 1 + |subs| > 1
    ensures SeriesResolutions(entries, subs) == entries[..1]
  {
  }

  /**
   * What addSubResolutions needs of a series before it can read the
   * SUBIFD field: a full-resolution entry with a plane 0, whose file is
   * known (to the reader's table and on disk) and holds the directory.
   */
  predicate SubResolutionsReady(fs: FileSystem, known: set<string>, entries: seq<Option<OmeCore>>)
  {
    && |entries| > 0 && entries[0].Some? && |entries[0].value.tiffPlanes| > 0
    && var plane := entries[0].value.tiffPlanes[0];
       plane.id in known && plane.id in fs.tiffs && plane.index < |fs.tiffs[plane.id].directories|
  }

  /** The list a ready series leaves addSubResolutions with: as written when the directory has SUBIFD entries, unchanged otherwise. */
  function WithSubResolutions(fs: FileSystem, known: set<string>, entries: seq<Option<OmeCore>>): seq<Option<OmeCore>>
    requires SubResolutionsReady(fs, known, entries)
  {
    var plane := entries[0].value.tiffPlanes[0];
    var dir := fs.tiffs[plane.id].directories[plane.index];
    if dir.subResolutions.None? then entries else SeriesResolutionsAsWritten(entries, dir.subResolutions.value, DEFAULT_CORE)
  }

  /**
   * The core metadata of a default-constructed entry (CoreMetadata.cpp,
   * where the defaults are set, is not part of this model; those of
   * Sized are taken).
   */
  const DEFAULT_CORE := Sized(1, 1, 1)

  /** A prefix of the SUBIFD entries succeeds exactly when each of its entries does. */
  lemma SubResolutionsPrefix(full: CoreMetadata, subs: seq<Result<CoreMetadata>>, j: nat)
    requires j <= |subs|
    ensures SubResolutions(full, subs[..j]).Ok? <==> forall i :: 0 <= i < j ==> subs[i].Ok? && CompareResolution(full, subs[i].value)
  {
    assert forall i :: 0 <= i < j ==> subs[..j][i] == subs[i];
  }

  /**
   * The resize and the loop over the SUBIFD entries of one series: the
   * list is sized for every entry, filled in order, and left as it stands
   * at the first entry that fails to fill or to match.
   */
  method BuildSeriesResolutions(entries: seq<Option<OmeCore>>, subs: seq<Result<CoreMetadata>>, blank: CoreMetadata) returns (list: seq<Option<OmeCore>>)
    requires |entries| > 0 && entries[0].Some?
    ensures list == SeriesResolutionsAsWritten(entries, subs, blank)
  {
    var full := entries[0].value;
    list := [entries[0]] + seq(|subs|, k => Some(OmeCore(blank, [], None)));
    var k := 0;
    while k < |subs|
      invariant 0 <= k <= |subs| && |list| == 1 + |subs| && list[0] == entries[0]
      invariant Reached(full.meta, subs, k)
      invariant forall j :: 1 <= j <= k ==> list[j] == Some(OmeCore(subs[j - 1].value, [], Some(j - 1)))
      invariant forall j :: k < j <= |subs| ==> list[j] == Some(OmeCore(blank, [], None))
    {
      if subs[k].Err? {
        ResolutionsStopAt(entries, subs, blank, k, list);
        return;
      }
      list := list[1 + k := Some(OmeCore(subs[k].value, [], Some(k)))];
      if !CompareResolution(full.meta, subs[k].value) {
        ResolutionsStopAt(entries, subs, blank, k, list);
        return;
      }
      k := k + 1;
    }
  }

  /**
   * Entry j of the list addSubResolutions leaves when entry k is the
   * first to fail: filled before k, filled at k when k's fill succeeded,
   * default-constructed after.
   */
  lemma EntryAfterFailure(entries: seq<Option<OmeCore>>, subs: seq<Result<CoreMetadata>>, blank: CoreMetadata, k: nat, j: nat)
    requires |entries| > 0 && entries[0].Some? && k < |subs| && 1 <= j <= |subs|
    requires Reached(entries[0].value.meta, subs, k)
    requires subs[k].Err? || !CompareResolution(entries[0].value.meta, subs[k].value)
    ensures SeriesResolutionsAsWritten(entries, subs, blank)[j] ==
      Some(if j - 1 < k || (j - 1 == k && subs[k].Ok?) then OmeCore(subs[j - 1].value, [], Some(j - 1)) else OmeCore(blank, [], None))
  {
    var full := entries[0].value.meta;
    assert !(subs[k].Ok? && CompareResolution(full, subs[k].value));
    assert SubResolutions(full, subs).Err?;
    if j - 1 > k {
      assert !Reached(full, subs, j - 1);
    }
  }

  /** A list filled up to the failing entry k, and blank after it, is what addSubResolutions leaves. */
  lemma ResolutionsStopAt(entries: seq<Option<OmeCore>>, subs: seq<Result<CoreMetadata>>, blank: CoreMetadata, k: nat, list: seq<Option<OmeCore>>)
    requires |entries| > 0 && entries[0].Some? && k < |subs|
    requires Reached(entries[0].value.meta, subs, k)
    requires subs[k].Err? || !CompareResolution(entries[0].value.meta, subs[k].value)
    requires |list| == 1 + |subs| && list[0] == entries[0]
    requires forall j :: 1 <= j <= k ==> list[j] == Some(OmeCore(subs[j - 1].value, [], Some(j - 1)))
    requires list[1 + k] == Some(if subs[k].Ok? then OmeCore(subs[k].value, [], Some(k)) else OmeCore(blank, [], None))
    requires forall j :: k + 1 < j <= |subs| ==> list[j] == Some(OmeCore(blank, [], None))
    ensures list == SeriesResolutionsAsWritten(entries, subs, blank)
  {
    var rs := SeriesResolutionsAsWritten(entries, subs, blank);
    forall j | 1 <= j <= |subs|
      ensures list[j] == rs[j]
    {
      EntryAfterFailure(entries, subs, blank, k, j);
    }
  }

  // ---- the reader ----

  class OmeTiffReader {
    /** The files the reader sees. */
    const fs: FileSystem
    /** The canonical path of the file being read (kept by the generic reader). */
    var currentId: Option<string>
    /** UUID to file. */
    var files: map<string, string>
    /** FileName attribute naming no file, to the file used instead. */
    var invalidFiles: map<string, string>
    var tiffs: TiffCache
    var metadataFile: string
    var usedFiles: seq<string>
    var hasSpw: bool
    var cachedMetadata: Option<seq<ImageXml>>
    var cachedMetadataFile: string
    /** Per series, per resolution; None is a null entry. */
    var core: seq<seq<Option<OmeCore>>>

    constructor(files: FileSystem)
      ensures fs == files && currentId.None? && this.files == map[] && invalidFiles == map[] && tiffs == map[]
      ensures metadataFile == "" && usedFiles == [] && !hasSpw && cachedMetadata.None? && cachedMetadataFile == "" && core == []
    {
      fs := files;
      currentId := None;
      this.files := map[];
      invalidFiles := map[];
      tiffs := map[];
      metadataFile := "";
      usedFiles := [];
      hasSpw := false;
      cachedMetadata := None;
      cachedMetadataFile := "";
      core := [];
    }

    /** close: everything found while reading is dropped; with fileOnly only the open TIFF files. */
    method Close(fileOnly: bool)
      modifies this`files, this`invalidFiles, this`tiffs, this`metadataFile, this`usedFiles, this`hasSpw, this`cachedMetadata, this`cachedMetadataFile
      ensures tiffs == map[]
      ensures !fileOnly ==>
        (files == map[] && invalidFiles == map[] && cachedMetadataFile == "" && cachedMetadata.None? &&
         !hasSpw && usedFiles == [] && metadataFile == "")
      ensures fileOnly ==>
        (files == old(files) && invalidFiles == old(invalidFiles) && cachedMetadata == old(cachedMetadata) &&
         cachedMetadataFile == old(cachedMetadataFile) && hasSpw == old(hasSpw) && usedFiles == old(usedFiles) && metadataFile == old(metadataFile))
    {
      if !fileOnly {
        files := map[];
        invalidFiles := map[];
        cachedMetadataFile := "";
        cachedMetadata := None;
        hasSpw := false;
        usedFiles := [];
        metadataFile := "";
      }
      tiffs := map[];
    }

    method AddTiff(p: string)
      modifies this`tiffs
      ensures tiffs == AddedTiff(old(tiffs), p)
    {
      if p !in tiffs {
        tiffs := tiffs[p := None];
      }
    }

    method GetTiff(p: string) returns (r: Result<TiffFile>)
      modifies this`tiffs
      ensures (r, tiffs) == TiffFrom(fs, old(tiffs), p)
    {
      if p !in tiffs {
        return Err(FailedToFind(p));
      }
      if tiffs[p].None? {
        if p in fs.tiffs {
          tiffs := tiffs[p := Some(fs.tiffs[p])];
        }
      }
      if tiffs[p].None? {
        return Err(FailedToOpen(p));
      }
      r := Ok(tiffs[p].value);
    }

    /** validTIFF: true once getTIFF opens the file; getTIFF's error otherwise. */
    method ValidTiff(p: string) returns (valid: Result<bool>)
      modifies this`tiffs
      ensures (valid, tiffs) == ValidTiffAsWritten(fs, old(tiffs), p)
    {
      var t := GetTiff(p);
      if t.Err? {
        return Err(t.error);
      }
      valid := Ok(true);
    }

    /**
     * cacheMetadata: the metadata parsed before is returned again for the
     * same file; otherwise the file's first ImageDescription is checked,
     * parsed (parse is what the OME-XML parser makes of it) and cached.
     */
    method CacheMetadata(id: string, parse: string -> Result<seq<ImageXml>>) returns (r: Result<seq<ImageXml>>)
      modifies this`cachedMetadata, this`cachedMetadataFile
      ensures old(cachedMetadata).Some? && id == old(cachedMetadataFile) ==>
        (r == Ok(old(cachedMetadata).value) && cachedMetadata == old(cachedMetadata) && cachedMetadataFile == old(cachedMetadataFile))
      ensures !(old(cachedMetadata).Some? && id == old(cachedMetadataFile)) ==> r == ParsedFrom(fs, id, parse)
      ensures r.Ok? ==> cachedMetadata == Some(r.value) && cachedMetadataFile == id
      ensures r.Err? ==> cachedMetadata == old(cachedMetadata) && cachedMetadataFile == old(cachedMetadataFile)
    {
      if cachedMetadata.Some? && id == cachedMetadataFile {
        return Ok(cachedMetadata.value);
      }
      r := ParsedFrom(fs, id, parse);
      if r.Ok? {
        cachedMetadata := Some(r.value);
        cachedMetadataFile := id;
      }
    }

    /**
     * isSingleFile: a companion file never is; otherwise all planes of the
     * metadata fit in the file's directories, and any failure on the way
     * gives fallback, the generic reader's answer.
     */
    method IsSingleFile(id: string, parse: string -> Result<seq<ImageXml>>, fallback: bool) returns (single: bool)
      modifies this`cachedMetadata, this`cachedMetadataFile
      ensures IsCompanion(id) ==> !single && cachedMetadata == old(cachedMetadata) && cachedMetadataFile == old(cachedMetadataFile)
      ensures !IsCompanion(id) ==>
        (cachedMetadataFile == id && cachedMetadata.Some? && single == SingleFileFrom(fs, id, cachedMetadata.value, fallback)) ||
        (cachedMetadata == old(cachedMetadata) && cachedMetadataFile == old(cachedMetadataFile) && single == fallback)
    {
      if IsCompanion(id) {
        return false;
      }
      var meta := CacheMetadata(id, parse);
      if meta.Err? {
        return fallback;
      }
      var images := meta.value;
      var total := 0;
      var i := 0;
      while i < |images|
        invariant 0 <= i <= |images|
        invariant forall j :: 0 <= j < i ==> images[j].sizeZ > 0 && images[j].sizeT > 0
        invariant total == PlaneTotal(images[..i])
      {
        if images[i].sizeZ == 0 || images[i].sizeT == 0 {
          return fallback;
        }
        var channels := |images[i].channels|;
        if channels == 0 {
          channels := 1;
        }
        total := total + images[i].sizeZ * images[i].sizeT * channels;
        assert images[..i + 1][..i] == images[..i];
        i := i + 1;
      }
      assert images[..i] == images;
      if id !in fs.tiffs {
        return fallback;
      }
      single := total > 0 && total <= |fs.tiffs[id].directories|;
      PlaneTotalPositive(images);
    }

    /**
     * findUsedFiles: the UUID map of every TiffData of every image, and
     * the used files, the sorted set of the files it names.
     */
    method FindUsedFiles(meta: seq<ImageXml>, current: string, currentUuid: Option<string>) returns (r: Result<Unit>)
      modifies this`files, this`usedFiles
      ensures r.Ok? <==> FilesFrom(fs, old(files), AllTiffData(meta), current, currentUuid).Ok?
      ensures r.Ok? ==> files == FilesFrom(fs, old(files), AllTiffData(meta), current, currentUuid).value
      ensures r.Ok? ==> Sorted(usedFiles) && forall f :: f in usedFiles <==> f in files.Values
    {
      ghost var files0 := files;
      var s := 0;
      while s < |meta|
        invariant 0 <= s <= |meta|
        invariant FilesFrom(fs, files0, AllTiffData(meta[..s]), current, currentUuid) == Ok(files)
      {
        FilesFromNextImage(fs, files0, meta, s, files, current, currentUuid);
        var added := RegisterTiffData(meta[s].tiffData, current, currentUuid);
        if added.Err? {
          return added;
        }
        s := s + 1;
      }
      assert meta[..s] == meta;
      usedFiles := SortedPaths(files.Values);
      r := Ok(Unit);
    }

    /** The UUIDs of one image's TiffData elements recorded, in order. */
    method RegisterTiffData(tds: seq<TiffDataXml>, current: string, currentUuid: Option<string>) returns (r: Result<Unit>)
      modifies this`files
      ensures r.Ok? <==> FilesFrom(fs, old(files), tds, current, currentUuid).Ok?
      ensures r.Ok? ==> files == FilesFrom(fs, old(files), tds, current, currentUuid).value
    {
      ghost var files0 := files;
      var td := 0;
      while td < |tds|
        invariant 0 <= td <= |tds|
        invariant FilesFrom(fs, files0, tds[..td], current, currentUuid) == Ok(files)
      {
        assert tds[..td + 1][..td] == tds[..td];
        var file := UuidFile(fs, tds[td], current, currentUuid);
        var uuid := UuidOf(tds[td]);
        if file.Err? || (uuid in files && files[uuid] != file.value) {
          FilesFromErr(fs, files0, tds, td + 1, current, currentUuid);
          return Err(if file.Err? then file.error else InconsistentUuid(files[uuid], file.value));
        }
        files := files[uuid := file.value];
        td := td + 1;
      }
      assert tds[..td] == tds;
      r := Ok(Unit);
    }

    /** getTiffDataFilename. */
    method TiffDataFilename(td: TiffDataXml) returns (name: string)
      requires currentId.Some?
      modifies this`invalidFiles
      ensures (name, invalidFiles) == TiffDataFile(fs, currentId.value, files, old(invalidFiles), td)
    {
      if td.fileName.None? {
        if td.uuid.None? {
          name := currentId.value;
        } else if td.uuid.value in files {
          name := files[td.uuid.value];
        } else {
          name := currentId.value;
        }
      } else {
        var n := td.fileName.value;
        if n in fs.canonical {
          name := fs.canonical[n];
        } else if n in invalidFiles {
          name := invalidFiles[n];
        } else {
          invalidFiles := invalidFiles[n := currentId.value];
          name := currentId.value;
        }
      }
    }

    /** One pass of the TiffData loop of a series. */
    method ScanStep(ctx: SeriesContext, planes: seq<Plane>, td: TiffDataXml) returns (r: Result<Scan>)
      requires currentId == Some(ctx.currentId) && files == ctx.files
      modifies this`invalidFiles, this`tiffs
      ensures r == TiffDataStep(fs, ctx, Scan(planes, old(invalidFiles), old(tiffs), Running), td)
      ensures r.Ok? ==> invalidFiles == r.value.invalidFiles && tiffs == r.value.tiffs
    {
      var sc := Scan(planes, invalidFiles, tiffs, Running);
      var v := ValuesOf(td);
      if !v.valid {
        return Ok(sc.(stop := Nulled));
      }
      var first := FirstOf(ctx, v);
      if !Within(first, ctx.sizes) {
        return Ok(sc.(stop := OutOfBounds));
      }
      var index := GetIndex(ctx.order, ctx.sizes, first).value;
      var name := TiffDataFilename(td);
      AddTiff(name);
      var (file, found) := Relocated(fs, ctx.currentId, ctx.singleFile, name);
      var valid := false;
      if found {
        var checked := ValidTiff(file);
        if checked.Err? {
          return Err(checked.error);
        }
        valid := checked.value;
      }
      var filled := FillPlanes(planes, index, v.numPlanes, Plane(file, v.ifd, true, if valid then Present else Absent));
      if filled.Err? {
        return Err(filled.error);
      }
      r := Ok(Scan(filled.value, invalidFiles, tiffs, Running));
    }

    /** The TiffData loop of one series. */
    method ScanSeries(ctx: SeriesContext, planes0: seq<Plane>, tds: seq<TiffDataXml>) returns (r: Result<Scan>)
      requires currentId == Some(ctx.currentId) && files == ctx.files
      modifies this`invalidFiles, this`tiffs
      ensures r == ScanTiffData(fs, ctx, Scan(planes0, old(invalidFiles), old(tiffs), Running), tds)
      ensures r.Ok? ==> invalidFiles == r.value.invalidFiles && tiffs == r.value.tiffs
    {
      ghost var init := Scan(planes0, invalidFiles, tiffs, Running);
      var planes := planes0;
      var i := 0;
      while i < |tds|
        invariant 0 <= i <= |tds|
        invariant ScanTiffData(fs, ctx, init, tds[..i]) == Ok(Scan(planes, invalidFiles, tiffs, Running))
      {
        assert tds[..i + 1][..i] == tds[..i];
        var step := ScanStep(ctx, planes, tds[i]);
        if step.Err? {
          ScanErr(fs, ctx, init, tds, i + 1);
          return step;
        }
        if step.value.stop != Running {
          ScanStopped(fs, ctx, init, tds, i + 1);
          return step;
        }
        planes := step.value.planes;
        i := i + 1;
      }
      assert tds[..i] == tds;
      r := Ok(Scan(planes, invalidFiles, tiffs, Running));
    }

    /** The clearing and verifying passes at the end of a series. */
    method FinishSeries(sc: Scan) returns (r: Result<Option<seq<Plane>>>)
      requires currentId.Some? && tiffs == sc.tiffs
      modifies this`tiffs
      ensures r.Ok? <==> SeriesTable(fs, currentId.value, sc).Ok?
      ensures r.Ok? ==> (r.value, tiffs) == SeriesTable(fs, currentId.value, sc).value
    {
      if sc.stop == Nulled {
        return Ok(None);
      }
      var planes := ClearPlanes(sc.planes);
      var no := 0;
      while no < |planes|
        invariant 0 <= no <= |planes| && tiffs == sc.tiffs
        invariant forall k :: 0 <= k < no ==> planes[k].id != ""
      {
        if planes[no].id == "" {
          var t := GetTiff(currentId.value);
          if t.Err? {
            return Err(t.error);
          }
          return Ok(Some(Fallback(currentId.value, |t.value.directories|)));
        }
        no := no + 1;
      }
      r := Ok(Some(planes));
    }

    /** findTiffData for one series. */
    method FindSeriesEntry(img: ImageXml, entry: OmeCore, single: bool) returns (r: Result<Option<OmeCore>>)
      requires currentId.Some?
      modifies this`invalidFiles, this`tiffs
      ensures var f := FindSeries(fs, img, entry, IndexStartsAsWritten(img.tiffData), currentId.value, files, single, old(invalidFiles), old(tiffs));
        (r.Ok? <==> f.Ok?) && (r.Ok? ==> f.value == (r.value, invalidFiles, tiffs))
    {
      var starts := SeriesIndexStart(img.tiffData);
      var ctx := SeriesContext(img.order, ZCT(img.sizeZ, |entry.meta.sizeC|, img.sizeT), starts, currentId.value, files, single);
      assert ctx == ContextFor(img, entry, starts, currentId.value, files, single);
      var num := Count(ctx.sizes);
      if num == 0 {
        return Err(NotPositive);
      }
      var sc := ScanSeries(ctx, Resized(entry.tiffPlanes, num), img.tiffData);
      if sc.Err? {
        return Err(sc.error);
      }
      var table := FinishSeries(sc.value);
      if table.Err? {
        return Err(table.error);
      }
      r := Ok(if table.value.None? then None else Some(entry.(tiffPlanes := table.value.value)));
    }

    /**
     * findTiffData: the plane table of every series' full-resolution
     * entry, series by series; a series whose TiffData has no planes loses
     * its entry.  The core metadata the tags of each file give are not
     * filled in.
     */
    method FindTiffData(meta: seq<ImageXml>) returns (r: Result<Unit>)
      requires currentId.Some? && |core| == |meta|
      requires forall s :: 0 <= s < |core| ==> |core[s]| > 0 && core[s][0].Some?
      modifies this`invalidFiles, this`tiffs, this`core
      ensures var t := TablesFor(fs, meta, Firsts(old(core)), StartsOf(meta), currentId.value, files, |usedFiles| == 1, old(invalidFiles), old(tiffs), |meta|);
        (r.Ok? <==> t.Ok?) &&
        (r.Ok? ==>
          (invalidFiles == t.value.invalidFiles && tiffs == t.value.tiffs && |core| == |meta| &&
           forall s :: 0 <= s < |meta| ==> core[s] == old(core)[s][0 := t.value.entries[s]]))
    {
      ghost var core0 := core;
      ghost var invalid0 := invalidFiles;
      ghost var tiffs0 := tiffs;
      var single := |usedFiles| == 1;
      ghost var entries: seq<Option<OmeCore>> := [];
      var s := 0;
      while s < |meta|
        invariant s <= |meta| && Progress(meta, core0, invalid0, tiffs0, single, s, entries)
      {
        var updated := FindTiffDataStep(meta, s, core0, invalid0, tiffs0, single, entries);
        if updated.Err? {
          return Err(updated.error);
        }
        entries := entries + [updated.value];
        s := s + 1;
      }
      r := Ok(Unit);
    }

    /** findTiffData after s series: the tables of those series are in place, the later series untouched. */
    ghost predicate Progress(meta: seq<ImageXml>, core0: seq<seq<Option<OmeCore>>>, invalid0: map<string, string>, tiffs0: TiffCache,
                             single: bool, s: nat, entries: seq<Option<OmeCore>>)
      reads this
    {
      currentId.Some? && |core| == |core0| == |meta| && s <= |meta| &&
      (forall k :: 0 <= k < |core0| ==> |core0[k]| > 0 && core0[k][0].Some?) &&
      TablesFor(fs, meta, Firsts(core0), StartsOf(meta), currentId.value, files, single, invalid0, tiffs0, s) == Ok(Tables(entries, invalidFiles, tiffs)) &&
      (forall k :: 0 <= k < s ==> core[k] == core0[k][0 := entries[k]]) &&
      (forall k :: s <= k < |core| ==> core[k] == core0[k])
    }

    /** One series of findTiffData. */
    method FindTiffDataStep(meta: seq<ImageXml>, s: nat, ghost core0: seq<seq<Option<OmeCore>>>, ghost invalid0: map<string, string>, ghost tiffs0: TiffCache,
                            single: bool, ghost entries: seq<Option<OmeCore>>) returns (r: Result<Option<OmeCore>>)
      requires s < |meta| && Progress(meta, core0, invalid0, tiffs0, single, s, entries)
      modifies this`invalidFiles, this`tiffs, this`core
      ensures r.Err? ==> TablesFor(fs, meta, Firsts(core0), StartsOf(meta), currentId.value, files, single, invalid0, tiffs0, |meta|).Err?
      ensures r.Ok? ==> Progress(meta, core0, invalid0, tiffs0, single, s + 1, entries + [r.value])
    {
      ghost var firsts := Firsts(core0);
      ghost var starts := StartsOf(meta);
      ghost var prev := Tables(entries, invalidFiles, tiffs);
      r := FindSeriesEntry(meta[s], core[s][0].value, single);
      if r.Err? {
        TablesForFails(fs, meta, firsts, starts, currentId.value, files, single, invalid0, tiffs0, s, prev);
        return;
      }
      TablesForStep(fs, meta, firsts, starts, currentId.value, files, single, invalid0, tiffs0, s, prev, (r.value, invalidFiles, tiffs));
      core := core[s := core[s][0 := r.value]];
    }

    /** checkChannelSamplesPerPixel: every series' full-resolution sample counts from its Channel elements, each read from channel 0. */
    method CheckChannelSamplesPerPixel(meta: seq<ImageXml>)
      requires |core| == |meta|
      requires forall s :: 0 <= s < |core| ==> |core[s]| > 0 && core[s][0].Some?
      modifies this`core
      ensures |core| == |old(core)|
      ensures forall s :: 0 <= s < |core| ==>
        core[s] == old(core)[s][0 := Some(old(core)[s][0].value.(meta := old(core)[s][0].value.meta.(sizeC := ChannelSamplesAsWritten(meta[s]))))]
    {
      var s := 0;
      while s < |meta|
        invariant 0 <= s <= |meta| && |core| == |old(core)|
        invariant forall k :: 0 <= k < s ==>
          core[k] == old(core)[k][0 := Some(old(core)[k][0].value.(meta := old(core)[k][0].value.meta.(sizeC := ChannelSamplesAsWritten(meta[k]))))]
        invariant forall k :: s <= k < |core| ==> core[k] == old(core)[k]
      {
        var sizeC := ChannelSampleList(meta[s]);
        var entry := core[s][0].value;
        core := core[s := core[s][0 := Some(entry.(meta := entry.meta.(sizeC := sizeC)))]];
        s := s + 1;
      }
    }

    /** fixImageCounts over every series; a missing or null full-resolution entry is an error. */
    method FixImageCounts() returns (r: Result<Unit>)
      modifies this`core
      ensures r.Ok? <==> forall s :: 0 <= s < |old(core)| ==>
        |old(core)[s]| > 0 && old(core)[s][0].Some? && OmeTiffMetadata.FixImageCounts(old(core)[s][0].value.meta).Ok?
      ensures r.Ok? ==> |core| == |old(core)| && forall s :: 0 <= s < |core| ==>
        core[s] == old(core)[s][0 := Some(old(core)[s][0].value.(meta := OmeTiffMetadata.FixImageCounts(old(core)[s][0].value.meta).value))]
    {
      var s := 0;
      while s < |core|
        invariant 0 <= s <= |core| == |old(core)|
        invariant forall k :: 0 <= k < s ==>
          |old(core)[k]| > 0 && old(core)[k][0].Some? &&
          OmeTiffMetadata.FixImageCounts(old(core)[k][0].value.meta).Ok? &&
          core[k] == old(core)[k][0 := Some(old(core)[k][0].value.(meta := OmeTiffMetadata.FixImageCounts(old(core)[k][0].value.meta).value))]
        invariant forall k :: s <= k < |core| ==> core[k] == old(core)[k]
      {
        if |core[s]| == 0 {
          return Err(FormatWriters.OutOfRange);
        }
        if core[s][0].None? {
          return Err(NullCore);
        }
        var entry := core[s][0].value;
        var fixed := OmeTiffMetadata.FixImageCounts(entry.meta);
        if fixed.Err? {
          return Err(fixed.error);
        }
        core := core[s := core[s][0 := Some(entry.(meta := fixed.value))]];
        s := s + 1;
      }
      r := Ok(Unit);
    }

    /** fixDimensions for one series; nothing to do for a null entry. */
    method FixDimensions(series: nat) returns (r: Result<Unit>)
      modifies this`core
      ensures r.Ok? <==> series < |old(core)| && |old(core)[series]| > 0
      ensures r.Err? ==> core == old(core)
      ensures r.Ok? ==>
        core == if old(core)[series][0].None? then old(core)
          else old(core)[series := old(core)[series][0 := Some(old(core)[series][0].value.(meta := OmeTiffMetadata.FixDimensions(old(core)[series][0].value.meta)))]]
    {
      if series >= |core| || |core[series]| == 0 {
        return Err(FormatWriters.OutOfRange);
      }
      var entry := core[series][0];
      if entry.Some? {
        var fixed := OmeTiffMetadata.FixDimensions(entry.value.meta);
        core := core[series := core[series][0 := Some(entry.value.(meta := fixed))]];
      }
      r := Ok(Unit);
    }

    /**
     * fixOMEROMetadata for one series: the lookup of a series or entry
     * that does not exist fails inside the try block and is swallowed, so
     * nothing changes and nothing is reported.
     */
    method FixOmeroMetadata(img: ImageXml, series: nat)
      modifies this`core
      ensures series >= |old(core)| || |old(core)[series]| == 0 ==> core == old(core)
      ensures series < |old(core)| && |old(core)[series]| > 0 ==>
        core == var e := old(core)[series][0];
          if e.None? then old(core)
          else old(core)[series := old(core)[series][0 := Some(e.value.(meta := OmeTiffMetadata.FixOmeroMetadata(img, files.Keys, Some(e.value.meta)).value))]]
    {
      if series >= |core| || |core[series]| == 0 {
        return;
      }
      var entry := core[series][0];
      if entry.Some? {
        var fixed := OmeTiffMetadata.FixOmeroMetadata(img, files.Keys, Some(entry.value.meta));
        core := core[series := core[series][0 := Some(entry.value.(meta := fixed.value))]];
      }
    }

    /**
     * addSubResolutions: for each series, the SUBIFD entries of the
     * directory holding plane 0 become its sub-resolutions; when one of
     * them fails the list keeps a slot for every entry, those not reached
     * default-constructed; a directory without the field adds none.
     */
    method AddSubResolutions() returns (r: Result<Unit>)
      requires CacheFaithful(fs, tiffs)
      modifies this`core, this`tiffs
      ensures |core| == |old(core)| && tiffs.Keys == old(tiffs).Keys
      ensures r.Ok? ==> forall s :: 0 <= s < |core| ==>
        SubResolutionsReady(fs, old(tiffs).Keys, old(core)[s]) && core[s] == WithSubResolutions(fs, old(tiffs).Keys, old(core)[s])
      ensures r.Err? ==> exists k :: && 0 <= k < |core| && !SubResolutionsReady(fs, old(tiffs).Keys, old(core)[k])
                                     && (forall j :: 0 <= j < k ==>
                                           SubResolutionsReady(fs, old(tiffs).Keys, old(core)[j]) && core[j] == WithSubResolutions(fs, old(tiffs).Keys, old(core)[j]))
                                     && core[k..] == old(core)[k..]
      ensures CacheFaithful(fs, tiffs)
    {
      var s := 0;
      while s < |core|
        invariant 0 <= s <= |core| == |old(core)|
        invariant CacheFaithful(fs, tiffs) && tiffs.Keys == old(tiffs).Keys
        invariant core[s..] == old(core)[s..]
        invariant forall k :: 0 <= k < s ==>
          SubResolutionsReady(fs, old(tiffs).Keys, old(core)[k]) && core[k] == WithSubResolutions(fs, old(tiffs).Keys, old(core)[k])
      {
        assert core[s] == core[s..][0] == old(core)[s];
        if |core[s]| == 0 {
          return Err(FormatWriters.OutOfRange);
        }
        if core[s][0].None? {
          return Err(NullCore);
        }
        var full := core[s][0].value;
        if |full.tiffPlanes| == 0 {
          return Err(FormatWriters.OutOfRange);
        }
        var plane := full.tiffPlanes[0];
        TiffFromStable(fs, tiffs, plane.id);
        var tiff := GetTiff(plane.id);
        if tiff.Err? {
          return Err(tiff.error);
        }
        if plane.index >= |tiff.value.directories| {
          return Err(FormatWriters.OutOfRange);
        }
        var dir := tiff.value.directories[plane.index];
        if dir.subResolutions.Some? {
          var resolutions := BuildSeriesResolutions(core[s], dir.subResolutions.value, DEFAULT_CORE);
          ghost var before := core;
          core := core[s := resolutions];
          assert core[s + 1..] == before[s + 1..];
        }
        s := s + 1;
      }
      r := Ok(Unit);
    }

    /**
     * ifdAtIndex: the file and directory of a plane of a series, opening
     * the file; a plane past the table is an error, and so is a directory
     * past the file's last.
     */
    method IfdAtIndex(series: nat, plane: nat) returns (r: Result<(string, nat)>)
      requires series < |core| && |core[series]| > 0 && core[series][0].Some?
      modifies this`tiffs
      ensures var planes := core[series][0].value.tiffPlanes;
        (plane >= |planes| ==> r == Err(FailedIfd(plane))) &&
        (r.Ok? ==>
          (plane < |planes| && r.value == (planes[plane].id, planes[plane].index) &&
           TiffFrom(fs, old(tiffs), planes[plane].id).0.Ok? &&
           planes[plane].index < |TiffFrom(fs, old(tiffs), planes[plane].id).0.value.directories|))
    {
      var planes := core[series][0].value.tiffPlanes;
      if plane >= |planes| {
        return Err(FailedIfd(plane));
      }
      var p := planes[plane];
      var tiff := GetTiff(p.id);
      if tiff.Err? {
        return Err(tiff.error);
      }
      if p.index >= |tiff.value.directories| {
        return Err(FormatWriters.OutOfRange);
      }
      r := Ok((p.id, p.index));
    }

    /**
     * getSeriesUsedFiles: unless only non-pixel files are asked for, the
     * metadata file and every file a plane of the series names, sorted,
     * each once.
     */
    method SeriesUsedFiles(series: nat, noPixels: bool) returns (r: seq<string>)
      requires series < |core| && |core[series]| > 0 && core[series][0].Some?
      ensures Sorted(r)
      ensures forall f :: f in r <==>
        (!noPixels && f != "" &&
         (f == metadataFile || exists k :: 0 <= k < |core[series][0].value.tiffPlanes| && core[series][0].value.tiffPlanes[k].id == f))
    {
      r := [];
      if noPixels {
        return;
      }
      if metadataFile != "" {
        r := [metadataFile];
      }
      var planes := core[series][0].value.tiffPlanes;
      var k := 0;
      while k < |planes|
        invariant 0 <= k <= |planes| && Sorted(r)
        invariant forall f :: f in r <==> f != "" && (f == metadataFile || exists j :: 0 <= j < k && planes[j].id == f)
      {
        var id := planes[k].id;
        if id != "" && id !in r {
          r := PathOrder.Insert(id, r);
        }
        k := k + 1;
      }
    }
  }

  /** cacheMetadata past the cache: the file must open as TIFF, hold an ImageDescription that passes the check, and parse. */
  function ParsedFrom(fs: FileSystem, id: string, parse: string -> Result<seq<ImageXml>>): (r: Result<seq<ImageXml>>)
    ensures id !in fs.tiffs ==> r == Err(FailedToOpen(id))
    ensures r.Ok? ==>
      (id in fs.tiffs && |fs.tiffs[id].directories| > 0 && fs.tiffs[id].directories[0].description.Some? &&
       SaneXml(fs.tiffs[id].directories[0].description.value) && r == parse(fs.tiffs[id].directories[0].description.value))
  {
    if id !in fs.tiffs then Err(FailedToOpen(id))
    else
      var dirs := fs.tiffs[id].directories;
      if |dirs| == 0 || dirs[0].description.None? then Err(NoDescription)
      else if !SaneXml(dirs[0].description.value) then Err(BadXml(id))
      else parse(dirs[0].description.value)
  }

  /** isSingleFile for parsed metadata: the verdict when the file opens and no size is zero, fallback otherwise. */
  function SingleFileFrom(fs: FileSystem, id: string, meta: seq<ImageXml>, fallback: bool): (r: bool)
    ensures id in fs.tiffs && !HasZeroSize(meta) ==> (r <==> |meta| > 0 && PlaneTotal(meta) <= |fs.tiffs[id].directories|)
    ensures id !in fs.tiffs || HasZeroSize(meta) ==> r == fallback
  {
    var v := SingleFileVerdict(meta, if id in fs.tiffs then |fs.tiffs[id].directories| else 0);
    if v.None? || id !in fs.tiffs then fallback else v.value
  }
}
