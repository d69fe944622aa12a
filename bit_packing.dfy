// 1-bit (PixelType BIT) samples in TIFF tile and strip buffers: sample k
// of a row lives in bit k of the byte stream counted from the row's start
// bit, most significant bit first, as IFD.cpp's ReadVisitor and
// WriteVisitor address it; and the number of bytes a strip read must
// deliver.
module BitPacking {
  import opened Wrappers
  import opened PixelTypes

  /** The mask selecting bit i of a byte stream: bit 7 - i mod 8 of byte i div 8. */
  function Mask(i: nat): (m: bv8)
    ensures m != 0
  {
    (1 as bv8) << (7 - i % 8) as bv8
  }

  predicate BitAt(bytes: seq<bv8>, i: nat)
    requires i / 8 < |bytes|
  {
    bytes[i / 8] & Mask(i) != 0
  }

  /** A bit before bit 8 * n lies in one of the first n bytes. */
  lemma BitInBytes(i: nat, n: nat)
    requires i < 8 * n
    ensures i / 8 < n
  {
  }

  /** One packing step: OR the sample, shifted into place, into its byte (the bit is never cleared). */
  function OrBit(bytes: seq<bv8>, i: nat, b: bool): (r: seq<bv8>)
    requires i / 8 < |bytes|
    ensures |r| == |bytes|
  {
    bytes[i / 8 := bytes[i / 8] | (if b then Mask(i) else 0)]
  }

  /** Pack samples src into bits start .. start + |src| - 1, one OR step per sample in order. */
  function Pack(bytes: seq<bv8>, start: nat, src: seq<bool>): (r: seq<bv8>)
    requires start + |src| <= 8 * |bytes|
    ensures |r| == |bytes|
    decreases |src|
  {
    if |src| == 0 then bytes
    else
      BitInBytes(start + |src| - 1, |bytes|);
      OrBit(Pack(bytes, start, src[..|src| - 1]), start + |src| - 1, src[|src| - 1])
  }

  /** Unpack n samples starting at bit start: each is whether its bit is set. */
  function Unpack(bytes: seq<bv8>, start: nat, n: nat): (r: seq<bool>)
    requires start + n <= 8 * |bytes|
    ensures |r| == n
  {
    seq(n, k requires 0 <= k < n => BitAt(bytes, start + k))
  }

  lemma MaskDistinct(i: nat, j: nat)
    requires i != j && i / 8 == j / 8
    ensures Mask(i) & Mask(j) == 0
  {
    assert i % 8 != j % 8;
  }

  /** An OR step sets its own bit when the sample is set and leaves every other bit alone. */
  lemma {:induction false} OrBitAt(bytes: seq<bv8>, i: nat, b: bool, j: nat)
    requires i / 8 < |bytes| && j / 8 < |bytes|
    ensures BitAt(OrBit(bytes, i, b), j) == if j == i then BitAt(bytes, j) || b else BitAt(bytes, j)
  {
    if j != i && j / 8 == i / 8 {
      MaskDistinct(i, j);
      var x, mi, mj := bytes[i / 8], Mask(i), Mask(j);
      assert (x | (if b then mi else 0)) & mj == x & mj by {
        assert mi & mj == 0;
      }
    }
  }

  /** The last sample is packed by the last OR step. */
  lemma PackLast(bytes: seq<bv8>, start: nat, src: seq<bool>)
    requires 0 < |src| && start + |src| <= 8 * |bytes|
    ensures (start + |src| - 1) / 8 < |bytes|
    ensures Pack(bytes, start, src) == OrBit(Pack(bytes, start, src[..|src| - 1]), start + |src| - 1, src[|src| - 1])
  {
    BitInBytes(start + |src| - 1, |bytes|);
  }

  /** Packing leaves every bit outside the packed stretch as it was. */
  lemma {:induction false} PackFrame(bytes: seq<bv8>, start: nat, src: seq<bool>, j: nat)
    requires start + |src| <= 8 * |bytes| && j / 8 < |bytes|
    requires j < start || start + |src| <= j
    ensures BitAt(Pack(bytes, start, src), j) == BitAt(bytes, j)
    decreases |src|
  {
    if |src| > 0 {
      var n := |src| - 1;
      PackLast(bytes, start, src);
      PackFrame(bytes, start, src[..n], j);
      OrBitAt(Pack(bytes, start, src[..n]), start + n, src[n], j);
    }
  }

  /** After packing, a bit in the packed stretch is set iff it was set before or its sample is set. */
  lemma {:induction false} PackSets(bytes: seq<bv8>, start: nat, src: seq<bool>, j: nat)
    requires start + |src| <= 8 * |bytes| && j / 8 < |bytes|
    requires start <= j < start + |src|
    ensures BitAt(Pack(bytes, start, src), j) == (BitAt(bytes, j) || src[j - start])
    decreases |src|
  {
    var n := |src| - 1;
    PackLast(bytes, start, src);
    OrBitAt(Pack(bytes, start, src[..n]), start + n, src[n], j);
    if j == start + n {
      PackFrame(bytes, start, src[..n], j);
    } else {
      PackSets(bytes, start, src[..n], j);
      assert src[..n][j - start] == src[j - start];
    }
  }

  /** Unpacking what was packed into a zeroed stretch of bits gives back the samples. */
  lemma {:induction false} UnpackPack(bytes: seq<bv8>, start: nat, src: seq<bool>)
    requires start + |src| <= 8 * |bytes|
    requires forall j :: start <= j < start + |src| ==> !BitAt(bytes, j)
    ensures Unpack(Pack(bytes, start, src), start, |src|) == src
  {
    var r := Unpack(Pack(bytes, start, src), start, |src|);
    forall k | 0 <= k < |src|
      ensures r[k] == src[k]
    {
      BitInBytes(start + k, |bytes|);
      PackSets(bytes, start, src, start + k);
      assert !BitAt(bytes, start + k);
    }
  }

  /**
   * The first bit of a row's samples within a tile: rows of the full tile
   * region are fullWidth * copySamples bits apart, and the clipped region
   * starts (clipX - fullX) * copySamples bits into the row.
   */
  function RowStartBit(row: nat, fullY: nat, fullWidth: nat, clipX: nat, fullX: nat, copySamples: nat): nat
    requires fullY <= row && fullX <= clipX
  {
    (row - fullY) * (fullWidth * copySamples) + (clipX - fullX) * copySamples
  }

  lemma ShiftedSample(b: bool, i: nat)
    ensures ((if b then 1 else 0) as bv8) << (7 - i % 8) as bv8 == if b then Mask(i) else 0
  {
  }

  /** One sample of WriteVisitor::transfer for BIT: OR the sample, shifted to its bit, into its byte. */
  method OrSample(tile: array<bv8>, bit: nat, b: bool)
    requires bit / 8 < tile.Length
    modifies tile
    ensures tile[..] == OrBit(old(tile[..]), bit, b)
  {
    var sample: bv8 := if b then 1 else 0;
    ShiftedSample(b, bit);
    var updated := tile[bit / 8] | (sample << (7 - bit % 8) as bv8);
    tile[bit / 8] := updated;
  }

  /** Packing one more sample is one more OR step. */
  lemma PackSnoc(bytes: seq<bv8>, start: nat, src: seq<bool>, k: nat)
    requires k < |src| && start + |src| <= 8 * |bytes|
    ensures Pack(bytes, start, src[..k + 1]) == OrBit(Pack(bytes, start, src[..k]), start + k, src[k])
  {
    BitInBytes(start + k, |bytes|);
    var s := src[..k + 1];
    assert |s| - 1 == k && s[k] == src[k];
    assert s[..k] == src[..k];
  }

  /** WriteVisitor::transfer for BIT, one row: OR each sample into the tile buffer in place. */
  method PackRow(tile: array<bv8>, start: nat, src: seq<bool>)
    requires start + |src| <= 8 * tile.Length
    modifies tile
    ensures tile[..] == Pack(old(tile[..]), start, src)
  {
    ghost var orig := tile[..];
    var k := 0;
    while k < |src|
      invariant 0 <= k <= |src|
      invariant tile[..] == Pack(orig, start, src[..k])
    {
      PackSnoc(orig, start, src, k);
      BitInBytes(start + k, tile.Length);
      OrSample(tile, start + k, src[k]);
      k := k + 1;
    }
    assert src[..|src|] == src;
  }

  /** ReadVisitor::transfer for BIT, one row: each sample is its masked bit, as a boolean. */
  method UnpackRow(tile: array<bv8>, start: nat, n: nat) returns (r: seq<bool>)
    requires start + n <= 8 * tile.Length
    ensures r == Unpack(tile[..], start, n)
  {
    r := [];
    var k := 0;
    while k < n
      invariant 0 <= k <= n
      invariant r == Unpack(tile[..], start, k)
    {
      var bit := start + k;
      var mask: bv8 := (1 as bv8) << (7 - bit % 8) as bv8;
      assert mask == Mask(bit);
      r := r + [tile[bit / 8] & mask != 0];
      assert r == Unpack(tile[..], start, k + 1) by {
        assert r[k] == BitAt(tile[..], start + k);
      }
      k := k + 1;
    }
  }

  // ---- the byte count a strip read must deliver ----

  /**
   * expected_read for BIT, as written: the clipped width is bumped by one
   * (not up to a multiple of 8) when it is not a multiple of 8, then
   * multiplied by rows and samples and divided by 8.
   */
  function ExpectedReadBitAsWritten(w: nat, h: nat, copySamples: nat): (r: nat)
    ensures w % 8 == 0 ==> r == ExpectedReadBit(w, h, copySamples)
  {
    var e := if w % 8 != 0 then w + 1 else w;
    WholeBytes(w, h * copySamples);
    (e * (h * copySamples)) / 8
  }

  /** A width that is a multiple of 8 makes every row whole bytes. */
  lemma WholeBytes(w: nat, n: nat)
    ensures w % 8 == 0 ==> (w * n) / 8 == (w * n + 7) / 8
  {
    if w % 8 == 0 {
      var q := w / 8;
      assert w * n == 8 * (q * n);
    }
  }

  /** The bytes holding w * h * copySamples contiguous bits, rounded up. */
  function ExpectedReadBit(w: nat, h: nat, copySamples: nat): (r: nat)
    ensures 8 * r >= w * h * copySamples
    ensures 8 * r < w * h * copySamples + 8
  {
    (w * h * copySamples + 7) / 8
  }

  /** expected_read: elements times element size, and the bit rule for BIT as the source computes it. */
  function ExpectedRead(pt: PixelType, w: nat, h: nat, copySamples: nat): (r: nat)
    ensures pt != BIT ==> r == w * h * copySamples * ElementBytes(pt)
    ensures pt == BIT && w % 8 == 0 ==> r == ExpectedReadBit(w, h, copySamples)
  {
    if pt == BIT then ExpectedReadBitAsWritten(w, h, copySamples)
    else w * h * copySamples * ElementBytes(pt)
  }

  /**
   * Every byte the BIT unpack touches when the clip is the full strip
   * (rows w * copySamples bits apart) lies within the expected byte count,
   * so a read of that many bytes is sufficient.
   */
  lemma {:induction false} ExpectedReadCoversUnpack(w: nat, h: nat, copySamples: nat, row: nat, k: nat)
    requires row < h && k < w * copySamples
    ensures RowStartBit(row, 0, w, 0, 0, copySamples) + k < 8 * ExpectedReadBit(w, h, copySamples)
    ensures (RowStartBit(row, 0, w, 0, 0, copySamples) + k) / 8 < ExpectedReadBit(w, h, copySamples)
  {
    var rw := w * copySamples;
    assert RowStartBit(row, 0, w, 0, 0, copySamples) == row * rw;
    MulLess(row, h, rw);
    assert row * rw + k < h * rw;
    assert w * h * copySamples == h * rw by {
      assert w * h * copySamples == (w * copySamples) * h;
    }
  }

  lemma MulLess(a: nat, b: nat, c: nat)
    requires a < b
    ensures a * c + c <= b * c
  {
    assert (a + 1) * c <= b * c;
  }

  /** As written, a 9-sample, 1-row strip is expected to deliver 1 byte, though its 9th sample is bit 8, outside that byte. */
  lemma ExpectedReadBitUndercounts()
    ensures ExpectedReadBitAsWritten(9, 1, 1) == 1
    ensures ExpectedReadBit(9, 1, 1) == 2
    ensures RowStartBit(0, 0, 9, 0, 0, 1) + 8 >= 8 * ExpectedReadBitAsWritten(9, 1, 1)
  {
    assert ExpectedReadBitAsWritten(9, 1, 1) == 10 / 8;
    assert 10 / 8 == 1;
    assert ExpectedReadBit(9, 1, 1) == 16 / 8;
    assert 16 / 8 == 2;
    assert RowStartBit(0, 0, 9, 0, 0, 1) == 0;
  }

  /** The strip-read check of ReadVisitor: fewer bytes than expected is a short read. */
  function CheckStripRead(pt: PixelType, w: nat, h: nat, copySamples: nat, bytesRead: int): (r: Option<string>)
    ensures r.None? <==> bytesRead >= 0 && bytesRead >= ExpectedRead(pt, w, h, copySamples)
  {
    if bytesRead < 0 then Some("Failed to read encoded strip")
    else if bytesRead < ExpectedRead(pt, w, h, copySamples) then Some("Failed to read encoded strip fully")
    else None
  }

  /**
   * The strip check lets the 9-sample, 1-row BIT strip through with 1
   * byte, fewer than the 2 bytes its bits occupy.
   */
  lemma ShortBitReadAccepted()
    ensures CheckStripRead(BIT, 9, 1, 1, 1).None?
    ensures 1 < ExpectedReadBit(9, 1, 1)
  {
    assert ExpectedReadBitAsWritten(9, 1, 1) == 10 / 8 == 1;
    assert ExpectedRead(BIT, 9, 1, 1) == 1;
    assert ExpectedReadBit(9, 1, 1) == 16 / 8 == 2;
  }
}
