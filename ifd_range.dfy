// The IFD ranges of a TIFF file: series i occupies the directories
// [begin, end) of its range, and plane p of a series is directory
// begin + p.  The lookup (tiff::ifdIndex, in the TIFF utility code) is not
// part of this model; it is specified here by its range check.
module IfdRanges {
  import opened Wrappers

  datatype IfdRange = IfdRange(filename: string, begin: nat, end: nat)

  const InvalidSeriesNumber := "Invalid series number"
  const IfdOutOfRange := "IFD index out of range"

  /** The directory holding a plane of a series, failing outside the series' range. */
  function IfdIndex(ranges: seq<IfdRange>, series: nat, plane: nat): (r: Result<nat>)
    ensures r.Ok? <==> series < |ranges| && ranges[series].begin + plane < ranges[series].end
    ensures r.Ok? ==> r.value == ranges[series].begin + plane
    ensures series >= |ranges| ==> r == Err(InvalidSeriesNumber)
  {
    if series >= |ranges| then Err(InvalidSeriesNumber)
    else if ranges[series].begin + plane >= ranges[series].end then Err(IfdOutOfRange)
    else Ok(ranges[series].begin + plane)
  }

  function Sum(s: seq<nat>): nat
    decreases |s|
  {
    if |s| == 0 then 0 else Sum(s[..|s| - 1]) + s[|s| - 1]
  }

  lemma {:induction false} SumAppend(s: seq<nat>, i: nat)
    requires i < |s|
    ensures Sum(s[..i + 1]) == Sum(s[..i]) + s[i]
  {
    assert s[..i + 1][..i] == s[..i];
  }

  lemma {:induction false} SumMonotone(s: seq<nat>, i: nat, j: nat)
    requires i <= j <= |s|
    ensures Sum(s[..i]) <= Sum(s[..j])
    decreases j - i
  {
    if i < j {
      SumAppend(s, j - 1);
      SumMonotone(s, i, j - 1);
    }
  }

  /**
   * The ranges for series with the given plane counts: each begins where
   * the previous one ends, the first at directory 0.
   */
  function SeriesRanges(file: string, counts: seq<nat>): (rs: seq<IfdRange>)
    ensures |rs| == |counts|
  {
    seq(|counts|, i requires 0 <= i < |counts| =>
      IfdRange(file, Sum(counts[..i]), Sum(counts[..i]) + counts[i]))
  }

  predicate Contiguous(rs: seq<IfdRange>)
  {
    && (|rs| > 0 ==> rs[0].begin == 0)
    && (forall i :: 0 < i < |rs| ==> rs[i - 1].end == rs[i].begin)
  }

  /**
   * The ranges partition the directories [0, total) in series order, each
   * series spanning exactly its plane count.
   */
  lemma {:induction false} SeriesRangesPartition(file: string, counts: seq<nat>)
    ensures Contiguous(SeriesRanges(file, counts))
    ensures forall i :: 0 <= i < |counts| ==>
              SeriesRanges(file, counts)[i].end - SeriesRanges(file, counts)[i].begin == counts[i]
    ensures |counts| > 0 ==> SeriesRanges(file, counts)[|counts| - 1].end == Sum(counts)
  {
    var rs := SeriesRanges(file, counts);
    forall i | 0 < i < |rs| ensures rs[i - 1].end == rs[i].begin {
      SumAppend(counts, i - 1);
    }
    if |counts| > 0 {
      SumAppend(counts, |counts| - 1);
      assert counts[..|counts|] == counts;
    }
  }

  /** Plane p of series s is directory p past the planes of the earlier series. */
  lemma IndexOfPlane(file: string, counts: seq<nat>, s: nat, p: nat)
    requires s < |counts| && p < counts[s]
    ensures IfdIndex(SeriesRanges(file, counts), s, p) == Ok(Sum(counts[..s]) + p)
  {
  }

  /** No two planes of any series share a directory. */
  lemma {:induction false} IndexInjective(file: string, counts: seq<nat>, s1: nat, p1: nat, s2: nat, p2: nat)
    requires s1 < |counts| && p1 < counts[s1] && s2 < |counts| && p2 < counts[s2]
    requires (s1, p1) != (s2, p2)
    ensures IfdIndex(SeriesRanges(file, counts), s1, p1) != IfdIndex(SeriesRanges(file, counts), s2, p2)
  {
    if s1 < s2 {
      SumAppend(counts, s1);
      SumMonotone(counts, s1 + 1, s2);
    } else if s2 < s1 {
      SumAppend(counts, s2);
      SumMonotone(counts, s2 + 1, s1);
    }
  }

  /**
   * The directory a writer has reached at plane p of series s when it
   * writes every plane in order from series 0 plane 0, advancing one
   * directory on each change of series and each change of plane.
   * Changing series puts the plane cursor back to 0 without a further
   * advance.
   */
  function WalkIndex(counts: seq<nat>, s: nat, p: nat): nat
    requires s < |counts|
    requires forall i :: 0 <= i < |counts| ==> counts[i] >= 1
  {
    if s == 0 then p else WalkIndex(counts, s - 1, counts[s - 1] - 1) + 1 + p
  }

  /**
   * Writing planes in order reaches, at every plane, exactly the directory
   * the ranges assign to it, provided every series has a plane.
   */
  lemma {:induction false} WalkMatchesRanges(file: string, counts: seq<nat>, s: nat, p: nat)
    requires s < |counts| && p < counts[s]
    requires forall i :: 0 <= i < |counts| ==> counts[i] >= 1
    ensures IfdIndex(SeriesRanges(file, counts), s, p) == Ok(WalkIndex(counts, s, p))
  {
    if s > 0 {
      WalkMatchesRanges(file, counts, s - 1, counts[s - 1] - 1);
      SumAppend(counts, s - 1);
    }
  }

  /**
   * The ranges setId builds as written: every series is given the plane
   * count of the writer's current series.
   */
  function SeriesRangesAsWritten(file: string, n: nat, count: nat): (rs: seq<IfdRange>)
    ensures |rs| == n
    ensures forall i :: 0 <= i < n ==> rs[i].end - rs[i].begin == count
  {
    seq(n, i requires 0 <= i < n => IfdRange(file, i * count, i * count + count))
  }

  /** With equal plane counts the written ranges are the intended ones. */
  lemma {:induction false} AsWrittenUniform(file: string, counts: seq<nat>, count: nat)
    requires forall i :: 0 <= i < |counts| ==> counts[i] == count
    ensures SeriesRangesAsWritten(file, |counts|, count) == SeriesRanges(file, counts)
  {
    forall i | 0 <= i < |counts|
      ensures Sum(counts[..i]) == i * count
    {
      UniformSum(counts, count, i);
    }
  }

  lemma {:induction false} UniformSum(counts: seq<nat>, count: nat, i: nat)
    requires i <= |counts|
    requires forall j :: 0 <= j < |counts| ==> counts[j] == count
    ensures Sum(counts[..i]) == i * count
  {
    if i > 0 {
      UniformSum(counts, count, i - 1);
      SumAppend(counts, i - 1);
    }
  }

  /**
   * Three series of 3, 1 and 1 planes, opened with series 0 current:
   * series 2 is said to begin at directory 6, but writing in order reaches
   * it at directory 4, so the writer's index check rejects its first plane.
   */
  lemma AsWrittenMisplacesLaterSeries()
    ensures SeriesRangesAsWritten("f", 3, 3)[2].begin == 6
    ensures IfdIndex(SeriesRangesAsWritten("f", 3, 3), 2, 0) == Ok(6)
    ensures WalkIndex([3, 1, 1], 2, 0) == 4
    ensures IfdIndex(SeriesRanges("f", [3, 1, 1]), 2, 0) == Ok(4)
  {
    WalkMatchesRanges("f", [3, 1, 1], 2, 0);
  }
}
