// The minimal TIFF reader's grouping of a file's directories into series:
// a directory with the same size and pixel format as the one before it is
// the next timepoint of the current series, any other starts a new
// series.  The directories arrive as their raw tags; the walk decodes
// each one as it reaches it, and a directory whose tags cannot be read
// ends it with an error.  The FormatReader base class is not part of this model; the
// reader's own state is the open file's directories, the core metadata
// list it builds, and the directory range of every series.
module MinimalTiffReaders {
  import opened Wrappers
  import opened PixelTypes
  import opened IfdRanges
  import TiffIfd

  /** The tags of a directory the reader looks at, decoded, plus one it ignores. */
  datatype IfdInfo = IfdInfo(
    width: nat, height: nat,
    pixelType: PixelType,
    samplesPerPixel: nat,
    planarConfig: TiffIfd.PlanarConfiguration,
    photometric: nat,
    compression: Option<nat>)

  /** The tags compare_ifd looks at. */
  datatype Format = Format(
    width: nat, height: nat,
    pixelType: PixelType,
    samplesPerPixel: nat,
    planarConfig: TiffIfd.PlanarConfiguration,
    photometric: nat)

  function FormatOf(d: IfdInfo): (f: Format)
    ensures f.width == d.width && f.height == d.height && f.pixelType == d.pixelType
    ensures f.samplesPerPixel == d.samplesPerPixel && f.planarConfig == d.planarConfig
    ensures f.photometric == d.photometric
  {
    Format(d.width, d.height, d.pixelType, d.samplesPerPixel, d.planarConfig, d.photometric)
  }

  /**
   * compare_ifd: equal width, height, pixel type, samples per pixel,
   * planar configuration and photometric interpretation; other tags
   * (the compression here) may differ.
   */
  predicate SameFormat(a: IfdInfo, b: IfdInfo)
  {
    FormatOf(a) == FormatOf(b)
  }

  /**
   * The reads of a directory's tags that readIFDs makes through the IFD
   * getters, in compare_ifd's order: width, height, pixel type, samples
   * per pixel, planar configuration and photometric interpretation.  An
   * absent tag is the getter's error, and so is a SampleFormat and
   * BitsPerSample pair getPixelType does not decode.
   */
  function DecodeIfd(d: TiffIfd.Directory): (r: Result<IfdInfo>)
    ensures r.Ok? ==> && d.imageWidth == Some(r.value.width) && d.imageLength == Some(r.value.height)
                      && d.samplesPerPixel == Some(r.value.samplesPerPixel) && d.planarConfig == Some(r.value.planarConfig)
                      && d.photometric == Some(r.value.photometric) && r.value.compression == d.compression
  {
    var w :- TiffIfd.TagValue(d.imageWidth);
    var h :- TiffIfd.TagValue(d.imageLength);
    var pt :- TiffIfd.PixelTypeOf(d, TiffIfd.EmptyCache);
    var spp :- TiffIfd.TagValue(d.samplesPerPixel);
    var pc :- TiffIfd.TagValue(d.planarConfig);
    var ph :- TiffIfd.TagValue(d.photometric);
    Ok(IfdInfo(w, h, pt, spp, pc, ph, d.compression))
  }

  /**
   * When a directory decodes: every tag compare_ifd reads is present
   * and its SampleFormat and BitsPerSample name a pixel type.  A missing
   * size or bit depth is the getter's error, an undecodable pair
   * getPixelType's.
   */
  lemma DecodeIfdCases(d: TiffIfd.Directory)
    ensures DecodeIfd(d).Ok? <==> && d.imageWidth.Some? && d.imageLength.Some? && d.bitsPerSample.Some?
                                  && DecodePixelType(d.sampleFormat, d.bitsPerSample.value).Ok?
                                  && d.samplesPerPixel.Some? && d.planarConfig.Some? && d.photometric.Some?
    ensures DecodeIfd(d).Ok? ==> DecodeIfd(d).value.pixelType == DecodePixelType(d.sampleFormat, d.bitsPerSample.value).value
    ensures d.imageWidth.None? || d.imageLength.None? || d.bitsPerSample.None? ==> DecodeIfd(d) == Err(TiffIfd.TagNotFound)
    ensures d.imageWidth.Some? && d.imageLength.Some? && d.bitsPerSample.Some?
            && DecodePixelType(d.sampleFormat, d.bitsPerSample.value).Err? ==>
              DecodeIfd(d) == Err(DecodePixelType(d.sampleFormat, d.bitsPerSample.value).error)
  {
  }

  /** How many directories from the first on decode: the walk stops at the first that does not. */
  function DecodablePrefix(dirs: seq<TiffIfd.Directory>): (k: nat)
    ensures k <= |dirs|
    ensures forall i {:trigger DecodeIfd(dirs[i])} :: 0 <= i < k ==> DecodeIfd(dirs[i]).Ok?
    ensures k < |dirs| ==> DecodeIfd(dirs[k]).Err?
  {
    DecodableFrom(dirs, 0)
  }

  /** The index of the first directory at or after i that does not decode, |dirs| if none. */
  function DecodableFrom(dirs: seq<TiffIfd.Directory>, i: nat): (k: nat)
    requires i <= |dirs|
    ensures i <= k <= |dirs|
    ensures forall j {:trigger DecodeIfd(dirs[j])} :: i <= j < k ==> DecodeIfd(dirs[j]).Ok?
    ensures k < |dirs| ==> DecodeIfd(dirs[k]).Err?
    decreases |dirs| - i
  {
    if i == |dirs| || DecodeIfd(dirs[i]).Err? then i else DecodableFrom(dirs, i + 1)
  }

  /** The number of leading directories that decode is the only one that decodes up to it and stops there. */
  lemma PrefixAt(dirs: seq<TiffIfd.Directory>, k: nat)
    requires k <= |dirs| && forall i :: 0 <= i < k ==> DecodeIfd(dirs[i]).Ok?
    requires k < |dirs| ==> DecodeIfd(dirs[k]).Err?
    ensures DecodablePrefix(dirs) == k
  {
  }

  /** The series readIFDs pushes when the walk ends: every run's series. */
  lemma KeptAtEnd(ifds: seq<IfdInfo>)
    requires |Runs(ifds)| > 0
    ensures CoreKept(ifds, false) == CoreFromRuns(Runs(ifds)[..|Runs(ifds)| - 1])
              + [[SeriesCore(Runs(ifds)[|Runs(ifds)| - 1].first, Runs(ifds)[|Runs(ifds)| - 1].count, Runs(ifds)[|Runs(ifds)| - 1].count)]]
  {
    CoreSnoc(Runs(ifds));
  }

  /** The series kept when the series under way is lost: every run's series but the last. */
  lemma KeptAtStop(ifds: seq<IfdInfo>)
    requires |Runs(ifds)| > 0
    ensures CoreKept(ifds, true) == CoreFromRuns(Runs(ifds)[..|Runs(ifds)| - 1])
  {
    CoreSnoc(Runs(ifds));
  }

  /** The first k directories, decoded. */
  function Decoded(dirs: seq<TiffIfd.Directory>, k: nat): (ifds: seq<IfdInfo>)
    requires k <= |dirs| && forall i :: 0 <= i < k ==> DecodeIfd(dirs[i]).Ok?
    ensures |ifds| == k && forall i {:trigger DecodeIfd(dirs[i])} :: 0 <= i < k ==> DecodeIfd(dirs[i]) == Ok(ifds[i])
  {
    seq(k, i requires 0 <= i < k => DecodeIfd(dirs[i]).value)
  }

  /** The directories decode one by one to ifds, and the one after them, if any, does not. */
  ghost predicate DecodesTo(dirs: seq<TiffIfd.Directory>, ifds: seq<IfdInfo>)
  {
    && |ifds| <= |dirs|
    && (forall j {:trigger DecodeIfd(dirs[j])} :: 0 <= j < |ifds| ==> DecodeIfd(dirs[j]) == Ok(ifds[j]))
    && (|ifds| < |dirs| ==> DecodeIfd(dirs[|ifds|]).Err?)
  }

  /** Some list is what the directories decode to. */
  lemma DecodingExists(dirs: seq<TiffIfd.Directory>)
    ensures exists ifds :: DecodesTo(dirs, ifds)
  {
    var ifds := Decoded(dirs, DecodablePrefix(dirs));
    DecodesToPrefix(dirs, ifds);
  }

  /** The decodable prefix, decoded, is the one list the directories decode to. */
  lemma DecodesToPrefix(dirs: seq<TiffIfd.Directory>, ifds: seq<IfdInfo>)
    ensures DecodesTo(dirs, ifds) <==> DecodablePrefix(dirs) == |ifds| && Decoded(dirs, |ifds|) == ifds
  {
    if DecodesTo(dirs, ifds) {
      PrefixAt(dirs, |ifds|);
    }
  }

  /**
   * The core metadata readIFDs keeps per series: the series' first
   * directory (from which the sizes and pixel type are made), its
   * timepoint count and its plane count.  A new series starts at one
   * timepoint and one plane.
   */
  datatype SeriesCore = SeriesCore(first: IfdInfo, sizeT: nat, imageCount: nat)

  /** A series as readIFDs discovers it: its first directory, that directory's index, and how many directories it spans. */
  datatype Run = Run(first: IfdInfo, begin: nat, count: nat)

  /**
   * The series readIFDs makes of a file's directories, built one
   * directory at a time as the reader walks the file: a directory of the
   * previous directory's format lengthens the last series, any other
   * starts a new one.
   */
  function Runs(ifds: seq<IfdInfo>): (runs: seq<Run>)
    ensures |ifds| == 0 <==> |runs| == 0
    ensures |runs| > 0 ==> runs[|runs| - 1].begin + runs[|runs| - 1].count == |ifds|
    decreases |ifds|
  {
    if |ifds| == 0 then []
    else
      var prev := Runs(ifds[..|ifds| - 1]);
      var i := |ifds| - 1;
      if i > 0 && SameFormat(ifds[i - 1], ifds[i]) then
        var last := prev[|prev| - 1];
        prev[..|prev| - 1] + [last.(count := last.count + 1)]
      else
        prev + [Run(ifds[i], i, 1)]
  }

  /** The series follow each other from directory 0, none empty. */
  ghost predicate Contiguous(runs: seq<Run>)
  {
    && (|runs| > 0 ==> runs[0].begin == 0)
    && (forall k :: 0 <= k < |runs| ==> runs[k].count >= 1)
    && (forall k, l :: 0 <= k < l < |runs| && l == k + 1 ==> runs[k].begin + runs[k].count == runs[l].begin)
  }

  /** Each series is a block of directories of one format, starting at its first directory. */
  ghost predicate Covers(ifds: seq<IfdInfo>, runs: seq<Run>)
  {
    forall k :: 0 <= k < |runs| ==>
      && runs[k].begin + runs[k].count <= |ifds|
      && runs[k].count >= 1
      && ifds[runs[k].begin] == runs[k].first
      && (forall j :: runs[k].begin <= j < runs[k].begin + runs[k].count ==> SameFormat(runs[k].first, ifds[j]))
  }

  /** No series could have been extended into the next: neighbouring series differ in format. */
  ghost predicate Maximal(runs: seq<Run>)
  {
    forall k, l :: 0 <= k < l < |runs| && l == k + 1 ==> !SameFormat(runs[k].first, runs[l].first)
  }

  /**
   * The series of readIFDs split the directories into maximal blocks of
   * one format: they cover every directory in order, every directory of
   * a series has the series' format, and neighbouring series differ.
   */
  lemma {:induction false} RunsSplitByFormat(ifds: seq<IfdInfo>)
    ensures Contiguous(Runs(ifds))
    ensures Covers(ifds, Runs(ifds))
    ensures Maximal(Runs(ifds))
    decreases |ifds|
  {
    if |ifds| > 0 {
      var i := |ifds| - 1;
      var pre := ifds[..i];
      var prev := Runs(pre);
      RunsSplitByFormat(pre);
      PrefixCovers(pre, ifds, prev);
      var runs := Runs(ifds);
      if i > 0 && SameFormat(ifds[i - 1], ifds[i]) {
        ExtendRun(ifds, prev, runs);
      } else {
        StartRun(ifds, prev, runs);
      }
    }
  }

  /** The series of readIFDs follow each other from directory 0. */
  lemma RunsContiguous(ifds: seq<IfdInfo>)
    ensures Contiguous(Runs(ifds))
  {
    RunsSplitByFormat(ifds);
  }

  /** Series k of readIFDs: a block of directories of its first directory's format. */
  lemma RunAt(ifds: seq<IfdInfo>, k: nat)
    requires k < |Runs(ifds)|
    ensures var r := Runs(ifds)[k];
            && r.begin + r.count <= |ifds| && r.count >= 1 && ifds[r.begin] == r.first
            && (forall j :: r.begin <= j < r.begin + r.count ==> SameFormat(r.first, ifds[j]))
  {
    RunsSplitByFormat(ifds);
  }

  lemma PrefixCovers(pre: seq<IfdInfo>, ifds: seq<IfdInfo>, runs: seq<Run>)
    requires pre <= ifds
    requires Covers(pre, runs)
    ensures Covers(ifds, runs)
  {
    forall k | 0 <= k < |runs|
      ensures forall j :: runs[k].begin <= j < runs[k].begin + runs[k].count ==> SameFormat(runs[k].first, ifds[j])
    {
      assert forall j :: runs[k].begin <= j < runs[k].begin + runs[k].count ==> pre[j] == ifds[j];
    }
  }

  /** The step of RunsSplitByFormat where the last directory lengthens the last series. */
  lemma ExtendRun(ifds: seq<IfdInfo>, prev: seq<Run>, runs: seq<Run>)
    requires |ifds| > 1 && SameFormat(ifds[|ifds| - 2], ifds[|ifds| - 1])
    requires |prev| > 0 && prev[|prev| - 1].begin + prev[|prev| - 1].count == |ifds| - 1
    requires Contiguous(prev) && Covers(ifds, prev) && Maximal(prev)
    requires runs == prev[..|prev| - 1] + [prev[|prev| - 1].(count := prev[|prev| - 1].count + 1)]
    ensures Contiguous(runs) && Covers(ifds, runs) && Maximal(runs)
  {
    var L := |prev|;
    assert forall k :: 0 <= k < L - 1 ==> runs[k] == prev[k];
    ExtendCovers(ifds, prev, runs);
  }

  lemma ExtendCovers(ifds: seq<IfdInfo>, prev: seq<Run>, runs: seq<Run>)
    requires |ifds| > 1 && SameFormat(ifds[|ifds| - 2], ifds[|ifds| - 1])
    requires |prev| > 0 && prev[|prev| - 1].begin + prev[|prev| - 1].count == |ifds| - 1
    requires prev[|prev| - 1].count >= 1
    requires Covers(ifds, prev)
    requires |runs| == |prev| && runs[|prev| - 1] == prev[|prev| - 1].(count := prev[|prev| - 1].count + 1)
    requires forall k :: 0 <= k < |prev| - 1 ==> runs[k] == prev[k]
    ensures Covers(ifds, runs)
  {
    var i := |ifds| - 1;
    var L := |prev|;
    assert SameFormat(prev[L - 1].first, ifds[i - 1]);
  }

  /** The step of RunsSplitByFormat where the last directory starts a series of its own. */
  lemma StartRun(ifds: seq<IfdInfo>, prev: seq<Run>, runs: seq<Run>)
    requires |ifds| > 0
    requires |ifds| > 1 ==> !SameFormat(ifds[|ifds| - 2], ifds[|ifds| - 1])
    requires |prev| == 0 <==> |ifds| == 1
    requires |prev| > 0 ==> prev[|prev| - 1].begin + prev[|prev| - 1].count == |ifds| - 1
    requires Contiguous(prev) && Covers(ifds, prev) && Maximal(prev)
    requires runs == prev + [Run(ifds[|ifds| - 1], |ifds| - 1, 1)]
    ensures Contiguous(runs) && Covers(ifds, runs) && Maximal(runs)
  {
    StartRunContiguous(ifds, prev, runs);
    StartRunCovers(ifds, prev, runs);
    StartRunMaximal(ifds, prev, runs);
  }

  lemma StartRunContiguous(ifds: seq<IfdInfo>, prev: seq<Run>, runs: seq<Run>)
    requires |ifds| > 0
    requires |prev| == 0 <==> |ifds| == 1
    requires |prev| > 0 ==> prev[|prev| - 1].begin + prev[|prev| - 1].count == |ifds| - 1
    requires Contiguous(prev)
    requires runs == prev + [Run(ifds[|ifds| - 1], |ifds| - 1, 1)]
    ensures Contiguous(runs)
  {
    assert forall k :: 0 <= k < |prev| ==> runs[k] == prev[k];
  }

  lemma StartRunCovers(ifds: seq<IfdInfo>, prev: seq<Run>, runs: seq<Run>)
    requires |ifds| > 0
    requires Covers(ifds, prev)
    requires runs == prev + [Run(ifds[|ifds| - 1], |ifds| - 1, 1)]
    ensures Covers(ifds, runs)
  {
    assert forall k :: 0 <= k < |prev| ==> runs[k] == prev[k];
  }

  lemma StartRunMaximal(ifds: seq<IfdInfo>, prev: seq<Run>, runs: seq<Run>)
    requires |ifds| > 0
    requires |ifds| > 1 ==> !SameFormat(ifds[|ifds| - 2], ifds[|ifds| - 1])
    requires |prev| == 0 <==> |ifds| == 1
    requires |prev| > 0 ==> prev[|prev| - 1].begin + prev[|prev| - 1].count == |ifds| - 1
    requires Contiguous(prev) && Covers(ifds, prev) && Maximal(prev)
    requires runs == prev + [Run(ifds[|ifds| - 1], |ifds| - 1, 1)]
    ensures Maximal(runs)
  {
    var L := |prev|;
    assert forall k :: 0 <= k < L ==> runs[k] == prev[k];
    if L > 0 {
      StartRunDiffers(ifds, prev);
      assert !SameFormat(runs[L - 1].first, runs[L].first);
    }
  }

  /** The new series' format differs from the last one's, which is that of the directory before. */
  lemma StartRunDiffers(ifds: seq<IfdInfo>, prev: seq<Run>)
    requires |ifds| > 1 && !SameFormat(ifds[|ifds| - 2], ifds[|ifds| - 1])
    requires |prev| > 0 && prev[|prev| - 1].begin + prev[|prev| - 1].count == |ifds| - 1
    requires prev[|prev| - 1].count >= 1
    requires Covers(ifds, prev)
    ensures !SameFormat(prev[|prev| - 1].first, ifds[|ifds| - 1])
  {
    var i := |ifds| - 1;
    assert SameFormat(prev[|prev| - 1].first, ifds[i - 1]);
  }

  /** The series records readIFDs keeps for the given series. */
  function CoreFromRuns(runs: seq<Run>): (core: seq<seq<SeriesCore>>)
    ensures |core| == |runs|
    ensures forall k :: 0 <= k < |runs| ==> core[k] == [SeriesCore(runs[k].first, runs[k].count, runs[k].count)]
  {
    seq(|runs|, k requires 0 <= k < |runs| => [SeriesCore(runs[k].first, runs[k].count, runs[k].count)])
  }

  /**
   * The series readIFDs finds: one resolution each, of its first
   * directory's format, with as many timepoints and planes as it has
   * directories.
   */
  function CoreOf(ifds: seq<IfdInfo>): (core: seq<seq<SeriesCore>>)
    ensures |core| == |Runs(ifds)|
    ensures forall k :: 0 <= k < |core| ==> |core[k]| == 1 && core[k][0].first == Runs(ifds)[k].first
    ensures forall k :: 0 <= k < |core| ==>
              core[k][0].sizeT == core[k][0].imageCount == Runs(ifds)[k].count >= 1
  {
    RunsContiguous(ifds);
    CoreFromRuns(Runs(ifds))
  }

  /**
   * The series list readIFDs leaves: every series, unless the series
   * under way is lost, which is when the walk stops inside compare_ifd,
   * before that series has been pushed.
   */
  function CoreKept(ifds: seq<IfdInfo>, lost: bool): (core: seq<seq<SeriesCore>>)
    ensures !lost ==> core == CoreOf(ifds)
    ensures lost && |ifds| > 0 ==> |core| == |CoreOf(ifds)| - 1 && core == CoreOf(ifds)[..|core|]
    ensures |ifds| == 0 ==> core == []
  {
    var all := CoreOf(ifds);
    if lost && |all| > 0 then all[..|all| - 1] else all
  }

  /** The directory ranges of the given series. */
  function RangesFromRuns(file: string, runs: seq<Run>): (rs: seq<IfdRange>)
    ensures |rs| == |runs|
    ensures forall k :: 0 <= k < |runs| ==> rs[k] == IfdRange(file, runs[k].begin, runs[k].begin + runs[k].count)
  {
    seq(|runs|, k requires 0 <= k < |runs| => IfdRange(file, runs[k].begin, runs[k].begin + runs[k].count))
  }

  /**
   * The directory range of every series of a file: back to back from
   * directory 0 to the last directory, each as long as its series.
   */
  function RangesOf(file: string, ifds: seq<IfdInfo>): (rs: seq<IfdRange>)
    ensures |rs| == |Runs(ifds)|
    ensures IfdRanges.Contiguous(rs)
    ensures |rs| > 0 ==> rs[|rs| - 1].end == |ifds|
    ensures forall k :: 0 <= k < |rs| ==> rs[k].filename == file && rs[k].end - rs[k].begin == Runs(ifds)[k].count
  {
    var runs := Runs(ifds);
    RunsContiguous(ifds);
    RangesFromContiguous(file, runs);
    RangesFromRuns(file, runs)
  }

  /** Back-to-back series give back-to-back directory ranges. */
  lemma RangesFromContiguous(file: string, runs: seq<Run>)
    requires Contiguous(runs)
    ensures IfdRanges.Contiguous(RangesFromRuns(file, runs))
  {
    var rs := RangesFromRuns(file, runs);
    forall i | 0 < i < |rs| ensures rs[i - 1].end == rs[i].begin {
      assert runs[i - 1].begin + runs[i - 1].count == runs[i].begin;
    }
  }

  lemma {:induction false} RunsStep(ifds: seq<IfdInfo>, i: nat)
    requires i < |ifds|
    ensures i == 0 ==> Runs(ifds[..1]) == [Run(ifds[0], 0, 1)]
    ensures i > 0 ==>
              var prev := Runs(ifds[..i]);
              |prev| > 0 &&
              Runs(ifds[..i + 1]) ==
                if SameFormat(ifds[i - 1], ifds[i]) then
                  prev[..|prev| - 1] + [prev[|prev| - 1].(count := prev[|prev| - 1].count + 1)]
                else prev + [Run(ifds[i], i, 1)]
  {
    assert ifds[..i + 1][..i] == ifds[..i];
    if i > 0 {
      assert ifds[..i + 1][i - 1] == ifds[i - 1];
    }
  }

  lemma RangesSnoc(file: string, runs: seq<Run>, r: Run)
    ensures RangesFromRuns(file, runs + [r]) == RangesFromRuns(file, runs) + [IfdRange(file, r.begin, r.begin + r.count)]
  {
  }

  lemma ExtendRanges(file: string, before: seq<Run>, r: Run, found: seq<IfdRange>)
    requires found == RangesFromRuns(file, before + [r])
    ensures |found| > 0
    ensures RangesFromRuns(file, before + [r.(count := r.count + 1)])
            == found[..|found| - 1] + [found[|found| - 1].(end := found[|found| - 1].end + 1)]
  {
    RangesSnoc(file, before, r);
    RangesSnoc(file, before, r.(count := r.count + 1));
    assert found[..|found| - 1] == RangesFromRuns(file, before);
  }

  lemma CoreSnoc(runs: seq<Run>)
    requires |runs| > 0
    ensures CoreFromRuns(runs) == CoreFromRuns(runs[..|runs| - 1])
              + [[SeriesCore(runs[|runs| - 1].first, runs[|runs| - 1].count, runs[|runs| - 1].count)]]
  {
  }

  /**
   * compare_ifd on two directories' raw tags: width, height, pixel type,
   * samples per pixel, planar configuration and photometric
   * interpretation, each read from both and compared in turn.  The
   * first pair that differs ends the comparison (the && short-circuits),
   * so later tags are not read; a read that fails is the error.
   */
  function CompareIfd(lhs: TiffIfd.Directory, rhs: TiffIfd.Directory): Result<bool>
  {
    var lw :- TiffIfd.TagValue(lhs.imageWidth);
    var rw :- TiffIfd.TagValue(rhs.imageWidth);
    if lw != rw then Ok(false) else
    var lh :- TiffIfd.TagValue(lhs.imageLength);
    var rh :- TiffIfd.TagValue(rhs.imageLength);
    if lh != rh then Ok(false) else
    var lp :- TiffIfd.PixelTypeOf(lhs, TiffIfd.EmptyCache);
    var rp :- TiffIfd.PixelTypeOf(rhs, TiffIfd.EmptyCache);
    if lp != rp then Ok(false) else
    var ls :- TiffIfd.TagValue(lhs.samplesPerPixel);
    var rs :- TiffIfd.TagValue(rhs.samplesPerPixel);
    if ls != rs then Ok(false) else
    var lc :- TiffIfd.TagValue(lhs.planarConfig);
    var rc :- TiffIfd.TagValue(rhs.planarConfig);
    if lc != rc then Ok(false) else
    var lph :- TiffIfd.TagValue(lhs.photometric);
    var rph :- TiffIfd.TagValue(rhs.photometric);
    Ok(lph == rph)
  }

  /** Between two directories that decode, compare_ifd is SameFormat on their decodings. */
  lemma CompareDecoded(lhs: TiffIfd.Directory, rhs: TiffIfd.Directory)
    requires DecodeIfd(lhs).Ok? && DecodeIfd(rhs).Ok?
    ensures CompareIfd(lhs, rhs) == Ok(SameFormat(DecodeIfd(lhs).value, DecodeIfd(rhs).value))
  {
    DecodeIfdCases(lhs);
    DecodeIfdCases(rhs);
  }

  /**
   * Against a directory that decodes, compare_ifd fails only with the
   * error the other directory's decoding meets, and finds a match only
   * with a directory that decodes.
   */
  lemma CompareFailure(lhs: TiffIfd.Directory, rhs: TiffIfd.Directory)
    requires DecodeIfd(lhs).Ok?
    ensures CompareIfd(lhs, rhs).Err? ==> DecodeIfd(rhs) == Err(CompareIfd(lhs, rhs).error)
    ensures CompareIfd(lhs, rhs) == Ok(true) ==> DecodeIfd(rhs).Ok?
  {
    DecodeIfdCases(lhs);
    DecodeIfdCases(rhs);
  }

  /** The walk stops inside compare_ifd: at a directory after the first, whose comparison with the one before fails. */
  predicate StopsInCompare(dirs: seq<TiffIfd.Directory>)
  {
    var k := DecodablePrefix(dirs);
    0 < k < |dirs| && CompareIfd(dirs[k - 1], dirs[k]).Err?
  }

  /**
   * compare_ifd between directory i and the one before, as the walk
   * meets it: it fails only at the end of the decodable prefix, with the
   * decoding's error, and inside the prefix it is SameFormat.
   */
  method CompareAt(dirs: seq<TiffIfd.Directory>, ghost ifds: seq<IfdInfo>, i: nat) returns (c: Result<bool>)
    requires DecodesTo(dirs, ifds) && 0 < i < |dirs| && i <= |ifds|
    ensures c.Err? <==> CompareIfd(dirs[i - 1], dirs[i]).Err?
    ensures c.Err? ==> i == |ifds| && c.error == DecodeIfd(dirs[i]).error
    ensures c == Ok(true) ==> i < |ifds| && SameFormat(ifds[i - 1], ifds[i])
    ensures c == Ok(false) && i < |ifds| ==> !SameFormat(ifds[i - 1], ifds[i])
  {
    c := CompareIfd(dirs[i - 1], dirs[i]);
    assert DecodeIfd(dirs[i - 1]) == Ok(ifds[i - 1]);
    CompareFailure(dirs[i - 1], dirs[i]);
    if i < |ifds| {
      assert DecodeIfd(dirs[i]) == Ok(ifds[i]);
      CompareDecoded(dirs[i - 1], dirs[i]);
    }
  }

  /**
   * The decoding of directory i met by the walk, against the list the
   * directories decode to: it succeeds exactly below that list's end,
   * with its value, and otherwise fails with the decoding's error.
   */
  method DecodeAt(dirs: seq<TiffIfd.Directory>, ghost ifds: seq<IfdInfo>, i: nat) returns (d: Result<IfdInfo>)
    requires DecodesTo(dirs, ifds) && i < |dirs| && i <= |ifds|
    ensures d.Ok? <==> i < |ifds|
    ensures d.Ok? ==> d.value == ifds[i]
    ensures d.Err? ==> d == DecodeIfd(dirs[i])
  {
    d := DecodeIfd(dirs[i]);
  }

  /** The walk stopped inside compare_ifd: the series under way is lost. */
  lemma StopInCompare(file: string, dirs: seq<TiffIfd.Directory>, ifds: seq<IfdInfo>, i: nat, runs: seq<Run>,
                      series: seq<seq<SeriesCore>>, found: seq<IfdRange>)
    requires DecodesTo(dirs, ifds) && 0 < i == |ifds| < |dirs|
    requires CompareIfd(dirs[i - 1], dirs[i]).Err?
    requires runs == Runs(ifds[..i]) && found == RangesFromRuns(file, runs)
    requires |runs| > 0 && series == CoreFromRuns(runs[..|runs| - 1])
    ensures DecodablePrefix(dirs) == i && Decoded(dirs, i) == ifds && StopsInCompare(dirs)
    ensures series == CoreKept(ifds, true) && found == RangesOf(file, ifds)
  {
    assert ifds[..i] == ifds;
    DecodesToPrefix(dirs, ifds);
    KeptAtStop(ifds);
  }

  /** The walk stopped in decoding a directory that starts a series: every series so far has been pushed. */
  lemma StopInDecode(file: string, dirs: seq<TiffIfd.Directory>, ifds: seq<IfdInfo>, i: nat, runs: seq<Run>,
                     series: seq<seq<SeriesCore>>, found: seq<IfdRange>)
    requires DecodesTo(dirs, ifds) && i == |ifds| < |dirs|
    requires i > 0 ==> CompareIfd(dirs[i - 1], dirs[i]).Ok?
    requires runs == Runs(ifds[..i]) && found == RangesFromRuns(file, runs) && series == CoreFromRuns(runs)
    ensures DecodablePrefix(dirs) == i && Decoded(dirs, i) == ifds && !StopsInCompare(dirs)
    ensures series == CoreKept(ifds, false) && found == RangesOf(file, ifds)
  {
    assert ifds[..i] == ifds;
    DecodesToPrefix(dirs, ifds);
  }

  /** The walk passed the last directory: with the series under way, every series is pushed. */
  lemma WalkEnds(file: string, dirs: seq<TiffIfd.Directory>, ifds: seq<IfdInfo>, i: nat, runs: seq<Run>,
                 series: seq<seq<SeriesCore>>, current: Option<SeriesCore>, found: seq<IfdRange>)
    requires DecodesTo(dirs, ifds) && i == |ifds| == |dirs|
    requires runs == Runs(ifds[..i]) && found == RangesFromRuns(file, runs)
    requires i == 0 ==> current.None? && series == []
    requires i > 0 ==> && |runs| > 0 && series == CoreFromRuns(runs[..|runs| - 1])
                       && current == Some(SeriesCore(runs[|runs| - 1].first, runs[|runs| - 1].count, runs[|runs| - 1].count))
    ensures DecodablePrefix(dirs) == i && Decoded(dirs, i) == ifds && !StopsInCompare(dirs)
    ensures (if current.Some? then series + [[current.value]] else series) == CoreKept(ifds, false)
    ensures found == RangesOf(file, ifds)
  {
    assert ifds[..i] == ifds;
    DecodesToPrefix(dirs, ifds);
    if i > 0 {
      KeptAtEnd(ifds);
    }
  }

  /**
   * One directory of readIFDs' walk.  While a series is under way, the
   * directory is compared with the one before; a match extends the
   * series.  Otherwise the series under way is pushed and the
   * directory's core metadata made, starting a new series and range.
   * A tag read that fails stops the walk with its error (r is Err):
   * inside compare_ifd the series under way is lost, in making the
   * core metadata it has already been pushed.
   */
  method WalkStep(file: string, dirs: seq<TiffIfd.Directory>, ghost ifds: seq<IfdInfo>, i: nat, ghost runs: seq<Run>,
                  series: seq<seq<SeriesCore>>, current: Option<SeriesCore>, found: seq<IfdRange>)
    returns (series': seq<seq<SeriesCore>>, current': Option<SeriesCore>, found': seq<IfdRange>, ghost runs': seq<Run>, r: Result<Unit>)
    requires DecodesTo(dirs, ifds) && i < |dirs| && i <= |ifds|
    requires runs == Runs(ifds[..i]) && found == RangesFromRuns(file, runs)
    requires i == 0 ==> current.None? && series == []
    requires i > 0 ==> && |runs| > 0
                       && series == CoreFromRuns(runs[..|runs| - 1])
                       && current == Some(SeriesCore(runs[|runs| - 1].first, runs[|runs| - 1].count, runs[|runs| - 1].count))
    ensures r.Ok? ==> && i < |ifds| && runs' == Runs(ifds[..i + 1]) && found' == RangesFromRuns(file, runs')
                      && |runs'| > 0 && series' == CoreFromRuns(runs'[..|runs'| - 1])
                      && current' == Some(SeriesCore(runs'[|runs'| - 1].first, runs'[|runs'| - 1].count, runs'[|runs'| - 1].count))
    ensures r.Err? ==> && DecodablePrefix(dirs) == i && Decoded(dirs, i) == ifds
                       && r.error == DecodeIfd(dirs[i]).error
                       && series' == CoreKept(ifds, StopsInCompare(dirs))
                       && found' == RangesOf(file, ifds)
  {
    var same := false;
    if current.Some? {
      var c := CompareAt(dirs, ifds, i);
      if c.Err? {
        StopInCompare(file, dirs, ifds, i, runs, series, found);
        return series, current, found, runs, Err(c.error);
      }
      same := c.value;
    }
    if same {
      StepExtend(file, ifds, i, runs, found);
      var cur := current.value;
      current' := Some(cur.(sizeT := cur.sizeT + 1, imageCount := cur.sizeT + 1));
      var last := found[|found| - 1];
      found' := found[..|found| - 1] + [last.(end := last.end + 1)];
      runs' := runs[..|runs| - 1] + [runs[|runs| - 1].(count := runs[|runs| - 1].count + 1)];
      series' := series;
      r := Ok(Unit);
    } else {
      series' := series;
      if current.Some? {
        CoreSnoc(runs);
        series' := series + [[current.value]];
      }
      var d := DecodeAt(dirs, ifds, i);
      if d.Err? {
        StopInDecode(file, dirs, ifds, i, runs, series', found);
        return series', current, found, runs, Err(d.error);
      }
      StepStart(file, ifds, i, runs, found);
      current' := Some(SeriesCore(d.value, 1, 1));
      found' := found + [IfdRange(file, i, i + 1)];
      runs' := runs + [Run(d.value, i, 1)];
      r := Ok(Unit);
    }
  }

  /**
   * The walk of readIFDs: WalkStep on each directory in turn until one
   * stops it; a walk that passes the last directory pushes the series
   * under way.  The series records and ranges are returned as they
   * stand when the walk ends or stops.
   */
  method GroupIfds(file: string, dirs: seq<TiffIfd.Directory>) returns (series: seq<seq<SeriesCore>>, found: seq<IfdRange>, r: Result<Unit>)
    ensures var k := DecodablePrefix(dirs);
            var ifds := Decoded(dirs, k);
            && (r.Ok? <==> k == |dirs|)
            && (r.Err? ==> r.error == DecodeIfd(dirs[k]).error)
            && series == CoreKept(ifds, StopsInCompare(dirs))
            && found == RangesOf(file, ifds)
  {
    series := [];
    found := [];
    var current: Option<SeriesCore> := None;
    DecodingExists(dirs);
    ghost var ifds: seq<IfdInfo> :| DecodesTo(dirs, ifds);
    ghost var runs: seq<Run> := [];
    var i := 0;
    while i < |dirs|
      invariant 0 <= i <= |ifds|
      invariant runs == Runs(ifds[..i])
      invariant found == RangesFromRuns(file, runs)
      invariant i == 0 ==> current.None? && series == []
      invariant i > 0 ==> && |runs| > 0
                          && series == CoreFromRuns(runs[..|runs| - 1])
                          && current == Some(SeriesCore(runs[|runs| - 1].first, runs[|runs| - 1].count, runs[|runs| - 1].count))
    {
      var step;
      series, current, found, runs, step := WalkStep(file, dirs, ifds, i, runs, series, current, found);
      if step.Err? {
        return series, found, step;
      }
      i := i + 1;
    }
    WalkEnds(file, dirs, ifds, i, runs, series, current, found);
    if current.Some? {
      series := series + [[current.value]];
    }
    r := Ok(Unit);
  }

  /** The step of GroupIfds that lengthens the current series. */
  lemma StepExtend(file: string, ifds: seq<IfdInfo>, i: nat, runs: seq<Run>, found: seq<IfdRange>)
    requires 0 < i < |ifds| && SameFormat(ifds[i - 1], ifds[i])
    requires runs == Runs(ifds[..i]) && found == RangesFromRuns(file, runs)
    ensures |runs| > 0 && |found| > 0
    ensures var next := runs[..|runs| - 1] + [runs[|runs| - 1].(count := runs[|runs| - 1].count + 1)];
            && Runs(ifds[..i + 1]) == next
            && next[..|next| - 1] == runs[..|runs| - 1]
            && RangesFromRuns(file, next) == found[..|found| - 1] + [found[|found| - 1].(end := found[|found| - 1].end + 1)]
  {
    RunsStep(ifds, i);
    LengthenLast(file, runs, found);
  }

  lemma LengthenLast(file: string, runs: seq<Run>, found: seq<IfdRange>)
    requires |runs| > 0 && found == RangesFromRuns(file, runs)
    ensures |found| > 0
    ensures var next := runs[..|runs| - 1] + [runs[|runs| - 1].(count := runs[|runs| - 1].count + 1)];
            && next[..|next| - 1] == runs[..|runs| - 1]
            && RangesFromRuns(file, next) == found[..|found| - 1] + [found[|found| - 1].(end := found[|found| - 1].end + 1)]
  {
    var L := |runs|;
    assert runs == runs[..L - 1] + [runs[L - 1]];
    ExtendRanges(file, runs[..L - 1], runs[L - 1], found);
  }

  /** The step of GroupIfds that starts a series at directory i. */
  lemma StepStart(file: string, ifds: seq<IfdInfo>, i: nat, runs: seq<Run>, found: seq<IfdRange>)
    requires i < |ifds| && (i > 0 ==> !SameFormat(ifds[i - 1], ifds[i]))
    requires runs == Runs(ifds[..i]) && found == RangesFromRuns(file, runs)
    ensures var next := runs + [Run(ifds[i], i, 1)];
            && Runs(ifds[..i + 1]) == next
            && next[..|next| - 1] == runs
            && RangesFromRuns(file, next) == found + [IfdRange(file, i, i + 1)]
  {
    RunsStep(ifds, i);
    RangesSnoc(file, runs, Run(ifds[i], i, 1));
  }

  /** The failure of initFile when the file cannot be opened as a TIFF. */
  function OpenFailed(id: string): string
  {
    "Failed to open ‘" + id + "’"
  }

  /** A directory index past the end of the file (the message is the TIFF layer's). */
  const NoSuchDirectory := "No such directory"

  class MinimalTiffReader {
    var currentId: Option<string>
    /** The open file's directories as raw tags, None when no file is open. */
    var tiff: Option<seq<TiffIfd.Directory>>
    var core: seq<seq<SeriesCore>>
    var ranges: seq<IfdRange>

    constructor()
      ensures currentId.None? && tiff.None? && core == [] && ranges == []
    {
      currentId, tiff := None, None;
      core, ranges := [], [];
    }

    /**
     * readIFDs: group the open file's directories into series named
     * after the current file.  The list of series is rebuilt; the ranges
     * are appended to.  A directory whose tags cannot be read stops the
     * walk with that error, leaving the series and ranges found before it.
     */
    method ReadIfds() returns (r: Result<Unit>)
      requires currentId.Some? && tiff.Some?
      modifies this
      ensures currentId == old(currentId) && tiff == old(tiff)
      ensures var k := DecodablePrefix(tiff.value);
              var ifds := Decoded(tiff.value, k);
              && (r.Ok? <==> k == |tiff.value|)
              && (r.Err? ==> r.error == DecodeIfd(tiff.value[k]).error)
              && core == CoreKept(ifds, StopsInCompare(tiff.value))
              && ranges == old(ranges) + RangesOf(currentId.value, ifds)
    {
      var series, found;
      series, found, r := GroupIfds(currentId.value, tiff.value);
      core := series;
      ranges := ranges + found;
    }

    /**
     * initFile: record the file, open it (None when it cannot be opened
     * as a TIFF) and group its directories into series.
     */
    method InitFile(id: string, file: Option<seq<TiffIfd.Directory>>) returns (r: Result<Unit>)
      modifies this
      ensures currentId == Some(id) && tiff == file
      ensures file.None? ==> r == Err(OpenFailed(id)) && core == old(core) && ranges == old(ranges)
      ensures file.Some? ==>
                var k := DecodablePrefix(file.value);
                var ifds := Decoded(file.value, k);
                && (r.Ok? <==> k == |file.value|)
                && (r.Err? ==> r.error == DecodeIfd(file.value[k]).error)
                && core == CoreKept(ifds, StopsInCompare(file.value))
                && ranges == old(ranges) + RangesOf(id, ifds)
    {
      currentId := Some(id);
      tiff := file;
      if file.None? {
        return Err(OpenFailed(id));
      }
      r := ReadIfds();
    }

    /** close: drops the open file but keeps the series ranges. */
    method Close()
      modifies this
      ensures tiff.None? && ranges == old(ranges)
      ensures currentId == old(currentId) && core == old(core)
    {
      tiff := None;
    }

    /** close as evidently intended: drops the open file and its series ranges. */
    method CloseCorrected()
      modifies this
      ensures tiff.None? && ranges == []
      ensures currentId == old(currentId) && core == old(core)
    {
      tiff := None;
      ranges := [];
    }

    /**
     * ifdAtIndex: the directory of a plane of a series, through the
     * series' range; it fails for a series or plane outside the ranges
     * and for an index past the file's last directory.
     */
    function IfdAtIndex(series: nat, plane: nat): (r: Result<TiffIfd.Directory>)
      reads this
      requires tiff.Some?
      ensures r.Ok? <==> IfdIndex(ranges, series, plane).Ok? && IfdIndex(ranges, series, plane).value < |tiff.value|
      ensures r.Ok? ==> r.value == tiff.value[IfdIndex(ranges, series, plane).value]
      ensures IfdIndex(ranges, series, plane).Err? ==> r == Err(IfdIndex(ranges, series, plane).error)
    {
      var idx :- IfdIndex(ranges, series, plane);
      if idx >= |tiff.value| then Err(NoSuchDirectory) else Ok(tiff.value[idx])
    }
  }

  /**
   * Right after a file is opened by a fresh or closed reader, every plane
   * of every series reads from that series' own block of directories,
   * all of the series' format, and a plane past the series' timepoints
   * fails.
   */
  lemma {:induction false} PlanesOfFreshReader(r: MinimalTiffReader, file: string, dirs: seq<TiffIfd.Directory>, k: nat, p: nat)
    requires r.tiff == Some(dirs) && DecodablePrefix(dirs) == |dirs|
    requires r.ranges == RangesOf(file, Decoded(dirs, |dirs|)) && r.core == CoreOf(Decoded(dirs, |dirs|))
    requires k < |r.core|
    ensures r.IfdAtIndex(k, p).Ok? <==> p < r.core[k][0].sizeT
    ensures r.IfdAtIndex(k, p).Ok? ==>
              var ifds := Decoded(dirs, |dirs|);
              && Runs(ifds)[k].begin + p < |ifds|
              && r.IfdAtIndex(k, p).value == dirs[Runs(ifds)[k].begin + p]
              && DecodeIfd(r.IfdAtIndex(k, p).value) == Ok(ifds[Runs(ifds)[k].begin + p])
              && SameFormat(r.core[k][0].first, ifds[Runs(ifds)[k].begin + p])
  {
    var ifds := Decoded(dirs, |dirs|);
    RunAt(ifds, k);
    var runs := Runs(ifds);
    assert r.ranges[k] == IfdRange(file, runs[k].begin, runs[k].begin + runs[k].count);
  }

  /** An 8 by 8 directory of unsigned 8-bit samples, one per pixel. */
  const GoodDirectory := TiffIfd.Directory(Some(8), Some(8), None, None, Some(8), Some(UnsignedInt), Some(8), Some(1),
                                           Some(TiffIfd.Contig), Some(1), Some(1), None, None)

  /** The same directory with signed 1-bit samples, which getPixelType refuses. */
  const SignedBitDirectory := GoodDirectory.(sampleFormat := Some(SignedInt), bitsPerSample := Some(1))

  /** The signed 1-bit directory twice as wide. */
  const WideSignedBitDirectory := SignedBitDirectory.(imageWidth := Some(16))

  /** How the example directories decode and compare. */
  lemma ExampleDirectories()
    ensures DecodeIfd(GoodDirectory).Ok?
    ensures DecodeIfd(SignedBitDirectory) == Err("Bit depth unsupported for signed integer pixel type")
    ensures DecodeIfd(WideSignedBitDirectory).Err?
    ensures CompareIfd(GoodDirectory, SignedBitDirectory) == Err("Bit depth unsupported for signed integer pixel type")
    ensures CompareIfd(GoodDirectory, WideSignedBitDirectory) == Ok(false)
  {
  }

  /**
   * A file of two matching directories and then one of the same size
   * whose signed 1-bit samples do not decode: compare_ifd fails on its
   * pixel type, so readIFDs fails with getPixelType's error, keeps the
   * range of the two directories it walked, and loses their series,
   * which was still under way.
   */
  lemma StopInCompareExample()
    ensures var dirs := [GoodDirectory, GoodDirectory, SignedBitDirectory];
            && DecodablePrefix(dirs) == 2
            && DecodeIfd(dirs[2]) == Err("Bit depth unsupported for signed integer pixel type")
            && StopsInCompare(dirs)
            && RangesOf("f.tif", Decoded(dirs, 2)) == [IfdRange("f.tif", 0, 2)]
            && CoreKept(Decoded(dirs, 2), true) == []
  {
    var dirs := [GoodDirectory, GoodDirectory, SignedBitDirectory];
    ExampleDirectories();
    PrefixAt(dirs, 2);
    var a := DecodeIfd(GoodDirectory).value;
    assert Decoded(dirs, 2) == [a, a];
    assert [a, a][..1] == [a];
    assert Runs([a]) == [Run(a, 0, 1)];
    assert Runs([a, a]) == [Run(a, 0, 2)];
  }

  /**
   * The same file with the third directory twice as wide: compare_ifd
   * returns false at the width without reading the pixel type, the
   * series of the first two is pushed, and only then does making the
   * third's core metadata fail.
   */
  lemma StopInDecodeExample()
    ensures var dirs := [GoodDirectory, GoodDirectory, WideSignedBitDirectory];
            && DecodablePrefix(dirs) == 2
            && CompareIfd(dirs[1], dirs[2]) == Ok(false)
            && !StopsInCompare(dirs)
            && CoreKept(Decoded(dirs, 2), false) == [[SeriesCore(DecodeIfd(GoodDirectory).value, 2, 2)]]
  {
    var dirs := [GoodDirectory, GoodDirectory, WideSignedBitDirectory];
    ExampleDirectories();
    PrefixAt(dirs, 2);
    var a := DecodeIfd(GoodDirectory).value;
    assert Decoded(dirs, 2) == [a, a];
    assert [a, a][..1] == [a];
    assert Runs([a]) == [Run(a, 0, 1)];
    assert Runs([a, a]) == [Run(a, 0, 2)];
  }

  /**
   * The ranges after a second file is opened, as written: close keeps the
   * ranges of the first file, so the second file's ranges come after
   * them and its series are looked up through the first file's ranges.
   */
  function RangesAfterReopenAsWritten(oldFile: string, oldIfds: seq<IfdInfo>, file: string, ifds: seq<IfdInfo>): (rs: seq<IfdRange>)
    ensures |rs| == |Runs(oldIfds)| + |Runs(ifds)|
    ensures forall k :: 0 <= k < |Runs(oldIfds)| ==> rs[k].filename == oldFile
  {
    RangesOf(oldFile, oldIfds) + RangesOf(file, ifds)
  }

  /** The ranges after a second file is opened, once close clears them: the second file's alone. */
  function RangesAfterReopen(oldFile: string, oldIfds: seq<IfdInfo>, file: string, ifds: seq<IfdInfo>): (rs: seq<IfdRange>)
    ensures |rs| == |Runs(ifds)|
    ensures forall k :: 0 <= k < |rs| ==> rs[k].filename == file
    ensures IfdRanges.Contiguous(rs)
  {
    RangesOf(file, ifds)
  }

  /**
   * A file of two matching directories, then a file of two differing
   * ones: as written, series 0 of the second file is given two planes,
   * named after the first file; cleared, it has one plane in the second
   * file.
   */
  lemma ReopenKeepsStaleRanges()
    ensures var a := IfdInfo(8, 8, UINT8, 1, TiffIfd.Contig, 1, Some(1));
            var b := IfdInfo(16, 16, UINT8, 1, TiffIfd.Contig, 1, Some(1));
            && RangesAfterReopenAsWritten("a.tif", [a, a], "b.tif", [a, b])[0] == IfdRange("a.tif", 0, 2)
            && IfdIndex(RangesAfterReopenAsWritten("a.tif", [a, a], "b.tif", [a, b]), 0, 1) == Ok(1)
            && RangesAfterReopen("a.tif", [a, a], "b.tif", [a, b])[0] == IfdRange("b.tif", 0, 1)
            && IfdIndex(RangesAfterReopen("a.tif", [a, a], "b.tif", [a, b]), 0, 1).Err?
  {
    var a := IfdInfo(8, 8, UINT8, 1, TiffIfd.Contig, 1, Some(1));
    var b := IfdInfo(16, 16, UINT8, 1, TiffIfd.Contig, 1, Some(1));
    assert [a, a][..1] == [a];
    assert [a, b][..1] == [a];
    assert Runs([a]) == [Run(a, 0, 1)];
    assert Runs([a, a]) == [Run(a, 0, 2)];
    assert Runs([a, b]) == [Run(a, 0, 1), Run(b, 1, 1)];
  }
}
