// Lists of lists of metadata: the outer index is the image series, the
// inner index the resolution level of that series (0 = full resolution).
// A core metadata list holds nullable entries; orderResolutions sorts each
// series largest first, append deep-copies series onto another list.
module MetadataLists {
  import opened Wrappers
  import opened PixelTypes
  import opened DimensionIndex

  /** The core metadata of one image (one resolution of one series). */
  datatype CoreMetadata = CoreMetadata(
    sizeX: nat,
    sizeY: nat,
    sizeZ: nat,
    sizeT: nat,
    sizeC: seq<nat>,
    pixelType: PixelType,
    bitsPerPixel: nat,
    imageCount: nat,
    dimensionOrder: DimensionOrder,
    orderCertain: bool,
    littleEndian: bool,
    interleaved: bool,
    indexed: bool,
    metadataComplete: bool)

  /** Core metadata of the given X, Y and Z sizes, everything else at its default. */
  function Sized(x: nat, y: nat, z: nat): (m: CoreMetadata)
    ensures m.sizeX == x && m.sizeY == y && m.sizeZ == z
  {
    CoreMetadata(x, y, z, 1, [1], UINT8, 8, 1, XYZTC, true, false, false, false, false)
  }

  // ---- sizes ----

  /** sizes: the number of entries of each series, in series order. */
  function Sizes<T>(list: seq<seq<T>>): (r: seq<nat>)
    ensures |r| == |list|
    ensures forall i :: 0 <= i < |list| ==> r[i] == |list[i]|
  {
    if |list| == 0 then [] else [|list[0]|] + Sizes(list[1..])
  }

  /** The sizes of a concatenation are the concatenated sizes. */
  lemma {:induction false} SizesAppend<T>(a: seq<seq<T>>, b: seq<seq<T>>)
    ensures Sizes(a + b) == Sizes(a) + Sizes(b)
  {
    var l := Sizes(a + b);
    var r := Sizes(a) + Sizes(b);
    forall i | 0 <= i < |a| + |b| ensures l[i] == r[i] {
      if i < |a| {
        assert (a + b)[i] == a[i];
      } else {
        assert (a + b)[i] == b[i - |a|];
      }
    }
  }

  /** The sizes do not depend on the entries' values. */
  lemma SizesExamples()
    ensures Sizes<nat>([]) == []
    ensures Sizes([[2]]) == [1]
    ensures Sizes([[2, 4, 5]]) == [3]
    ensures Sizes([[4, 5], [6, 7]]) == [2, 2]
    ensures Sizes([[0, 1, 2], [3], [4, 5], [6, 7, 8]]) == [3, 1, 2, 3]
  {
    var l := [[0, 1, 2], [3], [4, 5], [6, 7, 8]];
    assert Sizes(l)[0] == 3 && Sizes(l)[1] == 1 && Sizes(l)[2] == 2 && Sizes(l)[3] == 3;
    var m := [[4, 5], [6, 7]];
    assert Sizes(m)[0] == 2 && Sizes(m)[1] == 2;
  }

  // ---- resolution ordering ----

  /** An entry of a core metadata list; None is a null pointer. */
  type Entry = Option<CoreMetadata>

  predicate AllPresent(s: seq<Entry>)
  {
    forall k :: 0 <= k < |s| ==> s[k].Some?
  }

  /** The comparator of orderResolutions: larger in X, or in Y, or in Z. */
  predicate Larger(a: CoreMetadata, b: CoreMetadata)
  {
    a.sizeX > b.sizeX || a.sizeY > b.sizeY || a.sizeZ > b.sizeZ
  }

  /** a is at least as large as b in every dimension. */
  predicate Dominates(a: CoreMetadata, b: CoreMetadata)
  {
    a.sizeX >= b.sizeX && a.sizeY >= b.sizeY && a.sizeZ >= b.sizeZ
  }

  predicate Comparable(a: CoreMetadata, b: CoreMetadata)
  {
    Dominates(a, b) || Dominates(b, a)
  }

  /**
   * The resolutions of a pyramid: any two are comparable dimension by
   * dimension.  On such a series the comparator is a strict weak order;
   * on others it is not, and the order std::sort produces is unspecified.
   */
  predicate Nested(s: seq<Entry>)
    requires AllPresent(s)
  {
    forall i, j :: 0 <= i < |s| && 0 <= j < |s| ==> Comparable(s[i].value, s[j].value)
  }

  /** Largest first: every entry dominates the entries after it. */
  predicate LargestFirst(s: seq<Entry>)
    requires AllPresent(s)
  {
    forall i, j :: 0 <= i < j < |s| ==> Dominates(s[i].value, s[j].value)
  }

  /** Place x after the leading entries the comparator ranks before it. */
  function Insert(x: Entry, s: seq<Entry>): (r: seq<Entry>)
    requires x.Some? && AllPresent(s)
    ensures |r| == |s| + 1 && AllPresent(r)
    decreases |s|
  {
    if |s| == 0 then [x]
    else if Larger(s[0].value, x.value) then [s[0]] + Insert(x, s[1..])
    else [x] + s
  }

  /** Insertion adds exactly the inserted entry. */
  lemma {:induction false} InsertPermutes(x: Entry, s: seq<Entry>)
    requires x.Some? && AllPresent(s)
    ensures multiset(Insert(x, s)) == multiset(s) + multiset{x}
    decreases |s|
  {
    if |s| > 0 && Larger(s[0].value, x.value) {
      InsertPermutes(x, s[1..]);
      assert s == [s[0]] + s[1..];
    }
  }

  /**
   * The sort of one series without nulls.  std::sort is specified only by
   * its result; an insertion sort with the same comparator stands for it.
   */
  function SortResolutions(s: seq<Entry>): (r: seq<Entry>)
    requires AllPresent(s)
    ensures |r| == |s| && AllPresent(r)
    decreases |s|
  {
    if |s| == 0 then [] else Insert(s[0], SortResolutions(s[1..]))
  }

  /** Sorting permutes the series. */
  lemma {:induction false} SortPermutes(s: seq<Entry>)
    requires AllPresent(s)
    ensures multiset(SortResolutions(s)) == multiset(s)
    decreases |s|
  {
    if |s| > 0 {
      SortPermutes(s[1..]);
      InsertPermutes(s[0], SortResolutions(s[1..]));
      assert s == [s[0]] + s[1..];
    }
  }

  lemma DominatesTransitive(a: CoreMetadata, b: CoreMetadata, c: CoreMetadata)
    requires Dominates(a, b) && Dominates(b, c)
    ensures Dominates(a, c)
  {
  }

  /** Inserting an entry comparable with all of a largest-first series keeps it largest first. */
  lemma {:induction false} InsertLargestFirst(x: Entry, s: seq<Entry>)
    requires x.Some? && AllPresent(s) && LargestFirst(s)
    requires forall k :: 0 <= k < |s| ==> Comparable(x.value, s[k].value)
    ensures LargestFirst(Insert(x, s))
    decreases |s|
  {
    if |s| == 0 {
    } else if Larger(s[0].value, x.value) {
      assert Dominates(s[0].value, x.value) by {
        assert Comparable(x.value, s[0].value);
      }
      var tail := s[1..];
      forall k | 0 <= k < |tail| ensures Comparable(x.value, tail[k].value) {
        assert tail[k] == s[k + 1];
      }
      InsertLargestFirst(x, tail);
      var t := Insert(x, tail);
      InsertPermutes(x, tail);
      forall j | 0 <= j < |t| ensures Dominates(s[0].value, t[j].value) {
        assert t[j] in multiset(t);
        assert t[j] in multiset(tail) || t[j] == x;
        if t[j] != x {
          var k :| 0 <= k < |tail| && tail[k] == t[j];
          assert tail[k] == s[k + 1];
        }
      }
      PrependLargest(s[0], t);
    } else {
      assert Dominates(x.value, s[0].value);
      forall j | 0 <= j < |s| ensures Dominates(x.value, s[j].value) {
        if j > 0 {
          DominatesTransitive(x.value, s[0].value, s[j].value);
        }
      }
      PrependLargest(x, s);
    }
  }

  /** An entry that dominates every entry of a largest-first series can go in front of it. */
  lemma PrependLargest(y: Entry, t: seq<Entry>)
    requires y.Some? && AllPresent(t) && LargestFirst(t)
    requires forall j :: 0 <= j < |t| ==> Dominates(y.value, t[j].value)
    ensures LargestFirst([y] + t)
  {
    var r := [y] + t;
    forall i, j | 0 <= i < j < |r| ensures Dominates(r[i].value, r[j].value) {
      assert r[j] == t[j - 1];
      if i > 0 {
        assert r[i] == t[i - 1];
      }
    }
  }

  /** A pyramid series comes out largest first. */
  lemma {:induction false} SortLargestFirst(s: seq<Entry>)
    requires AllPresent(s) && Nested(s)
    ensures LargestFirst(SortResolutions(s))
    decreases |s|
  {
    if |s| > 0 {
      var tail := s[1..];
      assert Nested(tail) by {
        forall i, j | 0 <= i < |tail| && 0 <= j < |tail| ensures Comparable(tail[i].value, tail[j].value) {
          assert tail[i] == s[i + 1] && tail[j] == s[j + 1];
        }
      }
      SortLargestFirst(tail);
      SortPermutes(tail);
      var t := SortResolutions(tail);
      forall k | 0 <= k < |t| ensures Comparable(s[0].value, t[k].value) {
        assert t[k] in multiset(t);
        var m :| 0 <= m < |tail| && tail[m] == t[k];
        assert tail[m] == s[m + 1];
      }
      InsertLargestFirst(s[0], t);
    }
  }

  const NullEntry := "CoreMetadata can not be null"

  /**
   * One series after sorting: fewer than two entries are never compared,
   * so they stay as they are even when null; otherwise a null entry is
   * compared and rejected.
   */
  function OrderSeries(s: seq<Entry>): (r: Result<seq<Entry>>)
    ensures r.Err? <==> |s| >= 2 && !AllPresent(s)
    ensures r.Err? ==> r.error == NullEntry
    ensures r.Ok? ==> |r.value| == |s| && multiset(r.value) == multiset(s)
    ensures |s| < 2 ==> r == Ok(s)
  {
    if |s| < 2 then Ok(s)
    else if !AllPresent(s) then Err(NullEntry)
    else
      SortPermutes(s);
      Ok(SortResolutions(s))
  }

  /** A series without nulls that is a pyramid comes out largest first. */
  lemma {:induction false} OrderSeriesLargestFirst(s: seq<Entry>)
    requires AllPresent(s) && Nested(s)
    ensures OrderSeries(s).Ok? && AllPresent(OrderSeries(s).value)
    ensures LargestFirst(OrderSeries(s).value)
  {
    if |s| < 2 {
      assert LargestFirst(s);
    } else {
      SortLargestFirst(s);
    }
  }

  /** orderResolutions: every series sorted independently; a series holding a compared null fails. */
  function OrderList(list: seq<seq<Entry>>): (r: Result<seq<seq<Entry>>>)
    ensures r.Ok? <==> forall i :: 0 <= i < |list| ==> OrderSeries(list[i]).Ok?
    ensures r.Ok? ==> |r.value| == |list| && forall i :: 0 <= i < |list| ==> r.value[i] == OrderSeries(list[i]).value
    ensures r.Err? ==> r.error == NullEntry
    decreases |list|
  {
    if |list| == 0 then Ok([])
    else
      var head := OrderSeries(list[0]);
      var tail := OrderList(list[1..]);
      assert forall i :: 1 <= i < |list| ==> list[i] == list[1..][i - 1];
      if head.Err? then Err(head.error)
      else if tail.Err? then
        var k :| 0 <= k < |list[1..]| && OrderSeries(list[1..][k]).Err?;
        assert OrderSeries(list[k + 1]).Err?;
        Err(tail.error)
      else
        var r := [head.value] + tail.value;
        assert forall i :: 1 <= i < |list| ==> r[i] == tail.value[i - 1];
        Ok(r)
  }

  /** Ordering keeps the number of series and the length of each, and permutes each series. */
  lemma {:induction false} OrderListShape(list: seq<seq<Entry>>)
    requires OrderList(list).Ok?
    ensures Sizes(OrderList(list).value) == Sizes(list)
    ensures forall i :: 0 <= i < |list| ==> multiset(OrderList(list).value[i]) == multiset(list[i])
  {
    var r := OrderList(list).value;
    forall i | 0 <= i < |list| ensures |r[i]| == |list[i]| && multiset(r[i]) == multiset(list[i]) {
      assert r[i] == OrderSeries(list[i]).value;
    }
  }

  lemma InsertFront(x: Entry, s: seq<Entry>)
    requires x.Some? && AllPresent(s) && |s| > 0 && !Larger(s[0].value, x.value)
    ensures Insert(x, s) == [x] + s
  {
  }

  lemma InsertSkip(x: Entry, s: seq<Entry>)
    requires x.Some? && AllPresent(s) && |s| > 0 && Larger(s[0].value, x.value)
    ensures Insert(x, s) == [s[0]] + Insert(x, s[1..])
  {
  }

  lemma SortTwo(d: Entry, e: Entry)
    requires d.Some? && e.Some? && !Larger(e.value, d.value)
    ensures SortResolutions([d, e]) == [d, e]
  {
    assert [d, e][1..] == [e] && [e][1..] == [];
    assert SortResolutions([e]) == [e];
    InsertFront(d, [e]);
  }

  lemma SortThree(c: Entry, d: Entry, e: Entry)
    requires c.Some? && d.Some? && e.Some?
    requires !Larger(e.value, d.value) && Larger(d.value, c.value) && Larger(e.value, c.value)
    ensures SortResolutions([c, d, e]) == [d, e, c]
  {
    SortTwo(d, e);
    assert [c, d, e][1..] == [d, e];
    InsertSkip(c, [d, e]);
    assert [d, e][1..] == [e];
    InsertSkip(c, [e]);
    assert [e][1..] == [];
  }

  lemma SortFour(b: Entry, c: Entry, d: Entry, e: Entry)
    requires b.Some? && c.Some? && d.Some? && e.Some?
    requires !Larger(e.value, d.value) && Larger(d.value, c.value) && Larger(e.value, c.value)
    requires !Larger(d.value, b.value)
    ensures SortResolutions([b, c, d, e]) == [b, d, e, c]
  {
    SortThree(c, d, e);
    assert [b, c, d, e][1..] == [c, d, e];
    InsertFront(b, [d, e, c]);
  }

  /** Sorting five entries whose pairwise comparisons are those of the reordering test. */
  lemma SortFive(a: Entry, b: Entry, c: Entry, d: Entry, e: Entry)
    requires a.Some? && b.Some? && c.Some? && d.Some? && e.Some?
    requires !Larger(e.value, d.value) && Larger(d.value, c.value) && Larger(e.value, c.value)
    requires !Larger(d.value, b.value) && Larger(b.value, a.value) && !Larger(d.value, a.value)
    ensures SortResolutions([a, b, c, d, e]) == [b, a, d, e, c]
  {
    SortFour(b, c, d, e);
    assert [a, b, c, d, e][1..] == [b, c, d, e];
    InsertSkip(a, [b, d, e, c]);
    assert [b, d, e, c][1..] == [d, e, c];
    InsertFront(a, [d, e, c]);
  }

  /** The reordering test: sizes 4096, 8192, 0, 2048, 1024 come out as entries 1, 0, 3, 4, 2. */
  lemma OrderExample()
    ensures var s := [Some(Sized(4096, 4096, 1024)), Some(Sized(8192, 8192, 1024)), Some(Sized(0, 0, 0)),
                      Some(Sized(2048, 2048, 512)), Some(Sized(1024, 1024, 256))];
            OrderSeries(s) == Ok([s[1], s[0], s[3], s[4], s[2]])
  {
    var a, b, c, d, e := Some(Sized(4096, 4096, 1024)), Some(Sized(8192, 8192, 1024)), Some(Sized(0, 0, 0)),
                          Some(Sized(2048, 2048, 512)), Some(Sized(1024, 1024, 256));
    SortFive(a, b, c, d, e);
  }

  /** A lone null entry is accepted; a null among several is rejected. */
  lemma NullExamples(m: CoreMetadata)
    ensures OrderSeries([None]) == Ok([None])
    ensures OrderSeries([Some(m), None]) == Err(NullEntry)
    ensures OrderList([[None], [Some(m)]]).Ok?
  {
    assert [Some(m), None][1].None?;
  }

  // ---- the list object ----

  /** A core metadata list as a mutable object (the vector the free functions update in place). */
  class CoreMetadataList {
    var series: seq<seq<Entry>>

    constructor()
      ensures series == []
    {
      series := [];
    }

    /**
     * orderResolutions.  Each series is sorted in turn; when one throws,
     * the series before it are already sorted and the later ones untouched.
     */
    method OrderResolutions() returns (r: Result<Unit>)
      modifies this
      ensures r.Ok? <==> OrderList(old(series)).Ok?
      ensures r.Ok? ==> series == OrderList(old(series)).value
      ensures |series| == |old(series)|
      ensures r.Err? ==> exists k :: && 0 <= k < |series| && OrderSeries(old(series)[k]).Err?
                                     && r.error == OrderSeries(old(series)[k]).error
                                     && (forall j :: 0 <= j < k ==> OrderSeries(old(series)[j]).Ok? && series[j] == OrderSeries(old(series)[j]).value)
                                     && series[k..] == old(series)[k..]
    {
      var i := 0;
      while i < |series|
        invariant 0 <= i <= |series| == |old(series)|
        invariant forall k :: 0 <= k < i ==> OrderSeries(old(series)[k]).Ok? && series[k] == OrderSeries(old(series)[k]).value
        invariant series[i..] == old(series)[i..]
      {
        assert series[i] == series[i..][0];
        var sorted := OrderSeries(series[i]);
        if sorted.Err? {
          assert OrderList(old(series)).Err?;
          return Err(sorted.error);
        }
        ghost var before := series;
        series := series[i := sorted.value];
        assert series[i + 1..] == before[i + 1..] == before[i..][1..];
        i := i + 1;
      }
      assert series == OrderList(old(series)).value;
      return Ok(Unit);
    }
  }

  /**
   * append: each series of src is copied entry by entry (null entries stay
   * null) and pushed onto dest.  src and dest must differ: appending a list
   * to itself would invalidate the iteration.
   */
  method Append(src: CoreMetadataList, dest: CoreMetadataList)
    requires src != dest
    modifies dest
    ensures dest.series == old(dest.series) + src.series
  {
    var i := 0;
    while i < |src.series|
      invariant 0 <= i <= |src.series|
      invariant dest.series == old(dest.series) + src.series[..i]
    {
      var secondary := src.series[i];
      var s: seq<Entry> := [];
      var j := 0;
      while j < |secondary|
        invariant 0 <= j <= |secondary|
        invariant s == secondary[..j]
      {
        var item := secondary[j];
        if item.Some? {
          s := s + [Some(item.value)];
        } else {
          s := s + [None];
        }
        j := j + 1;
      }
      assert secondary[..j] == secondary;
      dest.series := dest.series + [s];
      i := i + 1;
      assert src.series[..i] == src.series[..i - 1] + [src.series[i - 1]];
    }
    assert src.series[..i] == src.series;
  }

  /** copy: a new list holding copies of every series. */
  method Copy(list: CoreMetadataList) returns (r: CoreMetadataList)
    ensures fresh(r)
    ensures r.series == list.series
  {
    r := new CoreMetadataList();
    Append(list, r);
  }
}
