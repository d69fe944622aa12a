// The OME-TIFF writer's last step: appending the OME-XML text to a
// finished TIFF file and pointing the first directory's ImageDescription
// entry at it.  The file is a sequence of bytes; the header and
// directory layout are those of TIFF Revision 6.0, section 2 (classic
// TIFF: version 42, a 4-byte first-directory offset at byte 4, a 2-byte
// entry count and 12-byte entries) and of its BigTIFF extension
// (version 43, offset size at byte 4, an 8-byte first-directory offset at
// byte 8, an 8-byte entry count and 20-byte entries).
module TiffComments {
  import opened Wrappers
  import opened Decimals

  newtype byte = b: int | 0 <= b < 256

  datatype Endian = Little | Big

  function Pow256(n: nat): (p: nat)
    ensures p >= 1
  {
    if n == 0 then 1 else 256 * Pow256(n - 1)
  }

  /** The value of n bytes, least significant first. */
  function LittleValue(bs: seq<byte>): nat
  {
    if |bs| == 0 then 0 else bs[0] as nat + 256 * LittleValue(bs[1..])
  }

  /** The value of n bytes, most significant first. */
  function BigValue(bs: seq<byte>): nat
  {
    if |bs| == 0 then 0 else BigValue(bs[..|bs| - 1]) * 256 + bs[|bs| - 1] as nat
  }

  /** The low n bytes of v, least significant first. */
  function LittleBytes(v: nat, n: nat): (bs: seq<byte>)
    ensures |bs| == n
  {
    if n == 0 then [] else [(v % 256) as byte] + LittleBytes(v / 256, n - 1)
  }

  /** The low n bytes of v, most significant first. */
  function BigBytes(v: nat, n: nat): (bs: seq<byte>)
    ensures |bs| == n
  {
    if n == 0 then [] else BigBytes(v / 256, n - 1) + [(v % 256) as byte]
  }

  function Decode(e: Endian, bs: seq<byte>): nat
  {
    match e
    case Little => LittleValue(bs)
    case Big => BigValue(bs)
  }

  function Encode(e: Endian, v: nat, n: nat): (bs: seq<byte>)
    ensures |bs| == n
  {
    match e
    case Little => LittleBytes(v, n)
    case Big => BigBytes(v, n)
  }

  lemma MulMonotone(m: nat, x: nat, y: nat)
    requires x <= y
    ensures m * x <= m * y
  {
  }

  lemma ModUnique(v: nat, m: nat, a: nat, c: nat)
    requires m > 0 && c < m && v == m * a + c
    ensures v % m == c && v / m == a
  {
    var q, r := v / m, v % m;
    assert v == m * q + r;
    if a > q {
      MulMonotone(m, q + 1, a);
      assert false;
    } else if a < q {
      MulMonotone(m, a + 1, q);
      assert false;
    }
  }

  /** Splitting off the low byte: v mod 256·p from v mod 256 and (v div 256) mod p. */
  lemma ModSplit(v: nat, p: nat)
    requires p >= 1
    ensures v % (256 * p) == v % 256 + 256 * ((v / 256) % p)
  {
    var q, r := v / 256, v % 256;
    var a, b := q / p, q % p;
    assert q == p * a + b;
    assert v == 256 * q + r;
    assert v == (256 * p) * a + (256 * b + r) by {
      assert 256 * q == 256 * (p * a) + 256 * b;
      assert 256 * (p * a) == (256 * p) * a;
    }
    assert 256 * b + r < 256 * p by {
      assert b <= p - 1;
      assert 256 * b <= 256 * (p - 1);
    }
    ModUnique(v, 256 * p, a, 256 * b + r);
  }

  /** Decoding n encoded bytes gives the value truncated to n bytes. */
  lemma {:induction false} DecodeEncode(e: Endian, v: nat, n: nat)
    ensures Decode(e, Encode(e, v, n)) == v % Pow256(n)
  {
    if n > 0 {
      DecodeEncode(e, v / 256, n - 1);
      ModSplit(v, Pow256(n - 1));
      match e
      case Little =>
        var bs := LittleBytes(v, n);
        assert bs[1..] == LittleBytes(v / 256, n - 1);
      case Big =>
        var bs := BigBytes(v, n);
        assert bs[..n - 1] == BigBytes(v / 256, n - 1);
        assert BigValue(bs) == BigValue(BigBytes(v / 256, n - 1)) * 256 + v % 256;
    }
  }

  lemma {:induction false} DecodeBound(e: Endian, bs: seq<byte>)
    ensures Decode(e, bs) < Pow256(|bs|)
    decreases |bs|
  {
    if |bs| > 0 {
      var n := |bs|;
      match e
      case Little =>
        DecodeBound(e, bs[1..]);
        assert LittleValue(bs[1..]) <= Pow256(n - 1) - 1;
        MulMonotone(256, LittleValue(bs[1..]), Pow256(n - 1) - 1);
      case Big =>
        DecodeBound(e, bs[..n - 1]);
        assert BigValue(bs[..n - 1]) <= Pow256(n - 1) - 1;
        MulMonotone(256, BigValue(bs[..n - 1]), Pow256(n - 1) - 1);
        assert BigValue(bs[..n - 1]) * 256 == 256 * BigValue(bs[..n - 1]);
    }
  }

  /** Encoding the decoded value of some bytes gives those bytes back. */
  lemma {:induction false} EncodeDecode(e: Endian, bs: seq<byte>)
    ensures Encode(e, Decode(e, bs), |bs|) == bs
    decreases |bs|
  {
    if |bs| > 0 {
      var n := |bs|;
      match e
      case Little =>
        var v := LittleValue(bs);
        EncodeDecode(e, bs[1..]);
        ModUnique(v, 256, LittleValue(bs[1..]), bs[0] as nat);
        assert bs == [bs[0]] + bs[1..];
      case Big =>
        var v := BigValue(bs);
        EncodeDecode(e, bs[..n - 1]);
        ModUnique(v, 256, BigValue(bs[..n - 1]), bs[n - 1] as nat);
        assert bs == bs[..n - 1] + [bs[n - 1]];
    }
  }

  const ReadFailed := "Failed to read value from stream"

  /** read_raw: the n-byte value at a file offset, failing past the end of the file. */
  function ReadRaw(data: seq<byte>, off: nat, n: nat, e: Endian): (r: Result<nat>)
    ensures r.Ok? <==> off + n <= |data|
    ensures r.Err? ==> r.error == ReadFailed
    ensures r.Ok? ==> r.value < Pow256(n)
  {
    if off + n > |data| then Err(ReadFailed)
    else
      DecodeBound(e, data[off..off + n]);
      Ok(Decode(e, data[off..off + n]))
  }

  /** A value read is the one whose encoding is the bytes there. */
  lemma ReadRawBytes(data: seq<byte>, off: nat, n: nat, e: Endian)
    requires off + n <= |data|
    ensures Encode(e, ReadRaw(data, off, n, e).value, n) == data[off..off + n]
  {
    EncodeDecode(e, data[off..off + n]);
  }

  /**
   * The only bytes that differ between d0 and d1 lie in [lo, hi), and d1
   * grows only inside that window.
   */
  ghost predicate Frame(d0: seq<byte>, d1: seq<byte>, lo: nat, hi: nat)
  {
    && |d0| <= |d1|
    && (|d1| == |d0| || (lo <= |d0| && |d1| <= hi))
    && forall j :: 0 <= j < |d0| && !(lo <= j < hi) ==> d1[j] == d0[j]
  }

  /**
   * write_raw: the low n bytes of v written at a file offset, overwriting
   * what was there and extending the file when the write runs past its
   * end.
   */
  function WriteRaw(data: seq<byte>, off: nat, n: nat, e: Endian, v: nat): (d: seq<byte>)
    requires off <= |data|
    ensures |d| == if off + n > |data| then off + n else |data|
    ensures d[off..off + n] == Encode(e, v, n)
    ensures Frame(data, d, off, off + n)
  {
    var tail := if off + n < |data| then data[off + n..] else [];
    var d := data[..off] + Encode(e, v, n) + tail;
    assert forall j :: 0 <= j < off ==> d[j] == data[j];
    assert forall j :: off + n <= j < |d| ==> d[j] == data[j];
    d
  }

  /** Reading back a written value gives it truncated to the field's width. */
  lemma WriteThenRead(data: seq<byte>, off: nat, n: nat, e: Endian, v: nat)
    requires off <= |data|
    ensures ReadRaw(WriteRaw(data, off, n, e, v), off, n, e) == Ok(v % Pow256(n))
  {
    DecodeEncode(e, v, n);
  }

  lemma FrameTrans(d0: seq<byte>, d1: seq<byte>, d2: seq<byte>, lo: nat, hi: nat)
    requires Frame(d0, d1, lo, hi) && Frame(d1, d2, lo, hi)
    ensures Frame(d0, d2, lo, hi)
  {
  }

  lemma FrameWiden(d0: seq<byte>, d1: seq<byte>, lo: nat, hi: nat, lo': nat, hi': nat)
    requires Frame(d0, d1, lo, hi) && lo' <= lo && hi <= hi'
    ensures Frame(d0, d1, lo', hi')
  {
  }

  /**
   * Bytes outside a frame's window read the same before and after, and
   * a read that succeeds afterwards succeeded before.
   */
  lemma ReadOutsideFrame(d0: seq<byte>, d1: seq<byte>, lo: nat, hi: nat, off: nat, n: nat, e: Endian)
    requires Frame(d0, d1, lo, hi)
    requires n >= 1 && (off + n <= lo || hi <= off)
    requires off + n <= |d0| || off + n <= |d1|
    ensures off + n <= |d0|
    ensures ReadRaw(d1, off, n, e) == ReadRaw(d0, off, n, e)
  {
    assert d1[off..off + n] == d0[off..off + n];
  }

  // ---------------------------------------------------------------- header

  const CHAR_I: byte := 0x49
  const CHAR_M: byte := 0x4D
  const CLASSIC_VERSION: nat := 0x2A
  const BIG_VERSION: nat := 0x2B

  datatype Header = Header(endian: Endian, bigOffsets: bool, ifd0: nat)

  /** A path as the error messages print it, in double quotes. */
  function Quoted(id: string): string
  {
    "\"" + id + "\""
  }

  function ByteChars(bs: seq<byte>): string
  {
    seq(|bs|, k requires 0 <= k < |bs| => bs[k] as char)
  }

  function InvalidEndianHeader(id: string, chars: seq<byte>): string
  {
    Quoted(id) + " is not a valid TIFF file: Invalid endian header \"" + ByteChars(chars) + "\""
  }

  function InvalidVersion(id: string, v: nat): string
  {
    Quoted(id) + " is not a valid TIFF file: Invalid version " + DecimalString(v)
  }

  function NonstandardOffsetSize(id: string, n: nat): string
  {
    Quoted(id) + " uses a nonstandard offset size of " + DecimalString(n) + " bytes"
  }

  /**
   * The header check on the two endian characters at bytes 0 and 1, the
   * version at byte 2, the BigTIFF offset size at byte 4 and the first
   * directory's offset at byte 4 (classic) or 8 (BigTIFF).  A BigTIFF
   * offset size of 4 is accepted, yet offsets are still read as 8 bytes.
   */
  function ParseHeader(id: string, file: seq<byte>): (r: Result<Header>)
    ensures r.Ok? ==> |file| >= 2 && file[0] == file[1] && (file[0] == CHAR_I || file[0] == CHAR_M)
    ensures r.Ok? ==> r.value.endian == (if file[0] == CHAR_I then Little else Big)
    ensures r.Ok? ==> ReadRaw(file, 2, 2, r.value.endian) == Ok(if r.value.bigOffsets then BIG_VERSION else CLASSIC_VERSION)
    ensures r.Ok? && r.value.bigOffsets ==>
              ReadRaw(file, 4, 2, r.value.endian).Ok? && ReadRaw(file, 4, 2, r.value.endian).value in {4, 8}
    ensures r.Ok? ==> (if r.value.bigOffsets then ReadRaw(file, 8, 8, r.value.endian) else ReadRaw(file, 4, 4, r.value.endian)) == Ok(r.value.ifd0)
    ensures (|file| < 2 || file[0] != file[1] || (file[0] != CHAR_I && file[0] != CHAR_M)) ==>
              r == Err(InvalidEndianHeader(id, file[..if |file| < 2 then |file| else 2]))
  {
    if |file| < 2 || !((file[0] == CHAR_I && file[1] == CHAR_I) || (file[0] == CHAR_M && file[1] == CHAR_M)) then
      Err(InvalidEndianHeader(id, file[..if |file| < 2 then |file| else 2]))
    else
      var e := if file[0] == CHAR_I then Little else Big;
      HeaderAfterEndian(id, file, 2, e)
  }

  /** The rest of the header check, with the version read at position pos. */
  function HeaderAfterEndian(id: string, file: seq<byte>, pos: nat, e: Endian): (r: Result<Header>)
    ensures r.Ok? ==> r.value.endian == e
    ensures r.Ok? ==> ReadRaw(file, pos, 2, e) == Ok(if r.value.bigOffsets then BIG_VERSION else CLASSIC_VERSION)
    ensures r.Ok? && r.value.bigOffsets ==>
              ReadRaw(file, pos + 2, 2, e).Ok? && ReadRaw(file, pos + 2, 2, e).value in {4, 8}
    ensures r.Ok? ==> (if r.value.bigOffsets then ReadRaw(file, 8, 8, e) else ReadRaw(file, 4, 4, e)) == Ok(r.value.ifd0)
  {
    var version :- ReadRaw(file, pos, 2, e);
    if version != CLASSIC_VERSION && version != BIG_VERSION then Err(InvalidVersion(id, version))
    else
      var big := version == BIG_VERSION;
      var offsetSize :- if big then ReadRaw(file, pos + 2, 2, e) else Ok(4);
      if offsetSize != 4 && offsetSize != 8 then Err(NonstandardOffsetSize(id, offsetSize))
      else
        var ifd0 :- if big then ReadRaw(file, 8, 8, e) else ReadRaw(file, 4, 4, e);
        Ok(Header(e, big, ifd0))
  }

  /**
   * The header a TIFF writer puts at the start of a file: the endian
   * characters, the version, for BigTIFF the offset size 8 and a zero
   * pad, then the first directory's offset.
   */
  function HeaderBytes(h: Header): (bs: seq<byte>)
    ensures |bs| == if h.bigOffsets then 16 else 8
  {
    var c := if h.endian == Little then CHAR_I else CHAR_M;
    if h.bigOffsets then
      [c, c] + Encode(h.endian, BIG_VERSION, 2) + Encode(h.endian, 8, 2) + Encode(h.endian, 0, 2) + Encode(h.endian, h.ifd0, 8)
    else
      [c, c] + Encode(h.endian, CLASSIC_VERSION, 2) + Encode(h.endian, h.ifd0, 4)
  }

  /** A read of a field lying wholly inside a prefix sees the prefix's bytes. */
  lemma ReadInPrefix(p: seq<byte>, rest: seq<byte>, off: nat, n: nat, e: Endian)
    requires off + n <= |p|
    ensures ReadRaw(p + rest, off, n, e) == Ok(Decode(e, p[off..off + n]))
  {
    assert (p + rest)[off..off + n] == p[off..off + n];
  }

  /**
   * The header check accepts every header a writer produces, whatever
   * follows it, and gives back its byte order, format and first-directory
   * offset (truncated to the offset width).
   */
  lemma ParseHeaderBytes(id: string, h: Header, rest: seq<byte>)
    ensures ParseHeader(id, HeaderBytes(h) + rest) == Ok(h.(ifd0 := h.ifd0 % Pow256(OffsetWidth(h))))
  {
    if h.bigOffsets {
      ParseBigHeaderBytes(id, h, rest);
    } else {
      ParseClassicHeaderBytes(id, h, rest);
    }
  }

  lemma ParseClassicHeaderBytes(id: string, h: Header, rest: seq<byte>)
    requires !h.bigOffsets
    ensures ParseHeader(id, HeaderBytes(h) + rest) == Ok(h.(ifd0 := h.ifd0 % Pow256(4)))
  {
    var e := h.endian;
    var p := HeaderBytes(h);
    assert Pow256(2) == 65536;
    assert p[2..4] == Encode(e, CLASSIC_VERSION, 2);
    assert p[4..8] == Encode(e, h.ifd0, 4);
    DecodeEncode(e, CLASSIC_VERSION, 2);
    DecodeEncode(e, h.ifd0, 4);
    ReadInPrefix(p, rest, 2, 2, e);
    ReadInPrefix(p, rest, 4, 4, e);
  }

  lemma ParseBigHeaderBytes(id: string, h: Header, rest: seq<byte>)
    requires h.bigOffsets
    ensures ParseHeader(id, HeaderBytes(h) + rest) == Ok(h.(ifd0 := h.ifd0 % Pow256(8)))
  {
    var e := h.endian;
    var p := HeaderBytes(h);
    assert Pow256(2) == 65536;
    assert p[2..4] == Encode(e, BIG_VERSION, 2);
    assert p[4..6] == Encode(e, 8, 2);
    assert p[8..16] == Encode(e, h.ifd0, 8);
    DecodeEncode(e, BIG_VERSION, 2);
    DecodeEncode(e, 8, 2);
    DecodeEncode(e, h.ifd0, 8);
    ReadInPrefix(p, rest, 2, 2, e);
    ReadInPrefix(p, rest, 4, 2, e);
    ReadInPrefix(p, rest, 8, 8, e);
  }

  /** The bytes a formatted character read skips in the classic locale. */
  predicate IsSpace(b: byte)
  {
    b == 0x20 || (0x09 <= b <= 0x0D)
  }

  /** The first position at or after pos that is not white space. */
  function SkipSpace(file: seq<byte>, pos: nat): (p: nat)
    ensures pos <= p
    ensures p < |file| ==> !IsSpace(file[p])
    ensures forall j :: pos <= j < p && j < |file| ==> IsSpace(file[j])
    decreases |file| - pos
  {
    if pos < |file| && IsSpace(file[pos]) then SkipSpace(file, pos + 1) else pos
  }

  /**
   * The header check as written: the endian characters are read with a
   * formatted stream read, which skips white space before each of them,
   * and the version and offset size are then read from wherever the
   * stream stands.
   */
  function ParseHeaderAsWritten(id: string, file: seq<byte>): (r: Result<Header>)
    ensures r.Ok? ==> exists p0: nat, p1: nat :: p0 < p1 < |file| && file[p0] == file[p1] && (file[p0] == CHAR_I || file[p0] == CHAR_M)
  {
    var p0 := SkipSpace(file, 0);
    var p1 := SkipSpace(file, p0 + 1);
    if p1 >= |file| then Err(InvalidEndianHeader(id, if p0 < |file| then [file[p0]] else []))
    else if !((file[p0] == CHAR_I && file[p1] == CHAR_I) || (file[p0] == CHAR_M && file[p1] == CHAR_M)) then
      Err(InvalidEndianHeader(id, [file[p0], file[p1]]))
    else
      HeaderAfterEndian(id, file, p1 + 1, if file[p0] == CHAR_I then Little else Big)
  }

  /**
   * A file that starts with a space and then a classic little-endian
   * header is accepted as written, its version taken from bytes 3 and 4,
   * and rejected by the check of bytes 0 and 1.
   */
  lemma LeadingSpaceAccepted()
    ensures ParseHeaderAsWritten("f", [0x20, CHAR_I, CHAR_I, 0x2A, 0, 8, 0, 0, 0]).Ok?
    ensures ParseHeader("f", [0x20, CHAR_I, CHAR_I, 0x2A, 0, 8, 0, 0, 0]).Err?
  {
    var file: seq<byte> := [0x20, CHAR_I, CHAR_I, 0x2A, 0, 8, 0, 0, 0];
    assert SkipSpace(file, 1) == 1;
    assert SkipSpace(file, 0) == 1;
    assert SkipSpace(file, 2) == 2;
    assert file[3..5] == [0x2A, 0];
    assert LittleValue([0x2A, 0]) == 0x2A by {
      assert [0x2A, 0][1..] == [0 as byte];
      assert [0 as byte][1..] == [];
    }
    assert file[4..8] == [0, 8, 0, 0];
  }

  /**
   * When neither of the first two bytes is white space, the formatted
   * reads stand where the byte check looks, and the two header checks
   * agree on every file.
   */
  lemma AsWrittenAgreesWithoutSpace(id: string, file: seq<byte>)
    requires |file| >= 2 && !IsSpace(file[0]) && !IsSpace(file[1])
    ensures ParseHeaderAsWritten(id, file) == ParseHeader(id, file)
  {
    assert SkipSpace(file, 0) == 0;
    assert SkipSpace(file, 1) == 1;
    assert file[..2] == [file[0], file[1]];
  }

  /** A header as a TIFF writer lays it out passes the check as written. */
  lemma ParseHeaderAsWrittenBytes(id: string, h: Header, rest: seq<byte>)
    ensures ParseHeaderAsWritten(id, HeaderBytes(h) + rest) == Ok(h.(ifd0 := h.ifd0 % Pow256(OffsetWidth(h))))
  {
    var file := HeaderBytes(h) + rest;
    assert file[0] == file[1] == (if h.endian == Little then CHAR_I else CHAR_M);
    AsWrittenAgreesWithoutSpace(id, file);
    ParseHeaderBytes(id, h, rest);
  }

  // ---------------------------------------------------------------- patch

  const TAG_IMAGEDESCRIPTION: nat := 270
  const TYPE_ASCII: nat := 2
  /** The placeholder description the writer gives the first directory: "OME-TIFF". */
  const DEFAULT_DESCRIPTION_LENGTH: nat := 8

  function InvalidDescriptionType(t: nat): string
  {
    "Invalid TIFF ImageDescription type " + DecimalString(t)
  }

  const DescriptionSizeIncorrect := "TIFF ImageDescription size is incorrect"
  const DescriptionNotFound := "Could not find TIFF ImageDescription tag"

  /** The width of an offset or count in the header's format. */
  function OffsetWidth(h: Header): nat
  {
    if h.bigOffsets then 8 else 4
  }

  function Stride(h: Header): nat
  {
    if h.bigOffsets then 20 else 12
  }

  /** Where directory entry i of the first directory starts. */
  function EntryOffset(h: Header, i: nat): nat
  {
    if h.bigOffsets then h.ifd0 + 8 + 20 * i else h.ifd0 + 2 + 12 * i
  }

  lemma EntryOffsetStep(h: Header, i: nat)
    ensures EntryOffset(h, i + 1) == EntryOffset(h, i) + Stride(h)
    ensures EntryOffset(h, i) + 4 + 2 * OffsetWidth(h) == EntryOffset(h, i + 1)
  {
  }

  lemma EntryOffsetMonotone(h: Header, i: nat, j: nat)
    requires i <= j
    ensures EntryOffset(h, i) <= EntryOffset(h, j)
  {
  }

  /**
   * One directory entry: its tag and type are read; an ImageDescription
   * entry must be of type ASCII with the placeholder's length, and gets
   * the new length and the text's offset.  The result is the file after
   * the entry and whether an ImageDescription entry has been seen.
   */
  function Visit(h: Header, data: seq<byte>, textLength: nat, textOffset: nat, i: nat, found: bool): (r: Result<(seq<byte>, bool)>)
    ensures r.Ok? ==> r.value.1 == (found || ReadRaw(data, EntryOffset(h, i), 2, h.endian) == Ok(TAG_IMAGEDESCRIPTION))
    ensures var off := EntryOffset(h, i);
            var typ := ReadRaw(data, off + 2, 2, h.endian);
            ReadRaw(data, off, 2, h.endian) == Ok(TAG_IMAGEDESCRIPTION) && typ.Ok? && typ.value != TYPE_ASCII ==>
              r == Err(InvalidDescriptionType(typ.value))
    ensures var off := EntryOffset(h, i);
            var count := ReadRaw(data, off + 4, OffsetWidth(h), h.endian);
            ReadRaw(data, off, 2, h.endian) == Ok(TAG_IMAGEDESCRIPTION) && ReadRaw(data, off + 2, 2, h.endian) == Ok(TYPE_ASCII)
            && count.Ok? && count.value != DEFAULT_DESCRIPTION_LENGTH + 1 ==>
              r == Err(DescriptionSizeIncorrect)
    ensures r.Ok? && ReadRaw(data, EntryOffset(h, i), 2, h.endian) == Ok(TAG_IMAGEDESCRIPTION) ==> DescriptionChecked(h, data, i)
  {
    var off := EntryOffset(h, i);
    var tag :- ReadRaw(data, off, 2, h.endian);
    var typ :- ReadRaw(data, off + 2, 2, h.endian);
    if tag != TAG_IMAGEDESCRIPTION then Ok((data, found))
    else if typ != TYPE_ASCII then Err(InvalidDescriptionType(typ))
    else
      var count :- ReadRaw(data, off + 4, OffsetWidth(h), h.endian);
      if count != DEFAULT_DESCRIPTION_LENGTH + 1 then Err(DescriptionSizeIncorrect)
      else Ok((PatchEntry(h, data, off, textLength, textOffset), true))
  }

  /** Entry k is of type ASCII and its count is that of the placeholder text and its NUL. */
  predicate DescriptionChecked(h: Header, d: seq<byte>, k: nat)
  {
    && ReadRaw(d, EntryOffset(h, k) + 2, 2, h.endian) == Ok(TYPE_ASCII)
    && ReadRaw(d, EntryOffset(h, k) + 4, OffsetWidth(h), h.endian) == Ok(DEFAULT_DESCRIPTION_LENGTH + 1)
  }

  /**
   * The scan of the first directory's entries from entry i on.  It goes
   * on past a match, so every ImageDescription entry is patched.
   */
  function Scan(h: Header, data: seq<byte>, textLength: nat, textOffset: nat, i: nat, entries: nat, found: bool): (r: Result<(seq<byte>, bool)>)
    ensures r.Ok? && found ==> r.value.1
    decreases entries - i
  {
    if i >= entries then Ok((data, found))
    else
      var v :- Visit(h, data, textLength, textOffset, i, found);
      Scan(h, v.0, textLength, textOffset, i + 1, entries, v.1)
  }

  /** A successful scan that covers entry i has visited it successfully and scanned on from its result. */
  lemma ScanOkStep(h: Header, data: seq<byte>, textLength: nat, textOffset: nat, i: nat, entries: nat, found: bool)
    requires i < entries
    requires Scan(h, data, textLength, textOffset, i, entries, found).Ok?
    ensures var v := Visit(h, data, textLength, textOffset, i, found);
            v.Ok? && Scan(h, v.value.0, textLength, textOffset, i + 1, entries, v.value.1).Ok?
  {
  }

  /** A visit changes only its own entry. */
  lemma VisitFrame(h: Header, data: seq<byte>, textLength: nat, textOffset: nat, i: nat, found: bool)
    requires Visit(h, data, textLength, textOffset, i, found).Ok?
    ensures Frame(data, Visit(h, data, textLength, textOffset, i, found).value.0, EntryOffset(h, i), EntryOffset(h, i + 1))
  {
    var off := EntryOffset(h, i);
    var w := OffsetWidth(h);
    EntryOffsetStep(h, i);
    if ReadRaw(data, off, 2, h.endian).value == TAG_IMAGEDESCRIPTION {
      PatchFrame(h, data, off, textLength, textOffset);
      FrameWiden(data, PatchEntry(h, data, off, textLength, textOffset), off + 4, off + 4 + 2 * w, off, off + 4 + 2 * w);
    }
  }

  /** The two writes to one ImageDescription entry: its count, then its offset. */
  function PatchEntry(h: Header, data: seq<byte>, off: nat, textLength: nat, textOffset: nat): (d: seq<byte>)
    requires off + 4 + OffsetWidth(h) <= |data|
  {
    var w := OffsetWidth(h);
    var d1 := WriteRaw(data, off + 4, w, h.endian, textLength);
    WriteRaw(d1, off + 4 + w, w, h.endian, textOffset)
  }

  /** A patch changes only the entry's count and offset fields. */
  lemma PatchFrame(h: Header, data: seq<byte>, off: nat, textLength: nat, textOffset: nat)
    requires off + 4 + OffsetWidth(h) <= |data|
    ensures Frame(data, PatchEntry(h, data, off, textLength, textOffset), off + 4, off + 4 + 2 * OffsetWidth(h))
  {
    var w := OffsetWidth(h);
    var d1 := WriteRaw(data, off + 4, w, h.endian, textLength);
    var d2 := WriteRaw(d1, off + 4 + w, w, h.endian, textOffset);
    FrameWiden(data, d1, off + 4, off + 4 + w, off + 4, off + 4 + 2 * w);
    FrameWiden(d1, d2, off + 4 + w, off + 4 + 2 * w, off + 4, off + 4 + 2 * w);
    FrameTrans(data, d1, d2, off + 4, off + 4 + 2 * w);
  }

  /** After a patch the count field holds the text's length and the offset field its position, both truncated to the field width. */
  lemma PatchReads(h: Header, data: seq<byte>, off: nat, textLength: nat, textOffset: nat)
    requires off + 4 + OffsetWidth(h) <= |data|
    ensures ReadRaw(PatchEntry(h, data, off, textLength, textOffset), off + 4, OffsetWidth(h), h.endian) == Ok(textLength % Pow256(OffsetWidth(h)))
    ensures ReadRaw(PatchEntry(h, data, off, textLength, textOffset), off + 4 + OffsetWidth(h), OffsetWidth(h), h.endian) == Ok(textOffset % Pow256(OffsetWidth(h)))
  {
    var w := OffsetWidth(h);
    var d1 := WriteRaw(data, off + 4, w, h.endian, textLength);
    var d2 := WriteRaw(d1, off + 4 + w, w, h.endian, textOffset);
    WriteThenRead(data, off + 4, w, h.endian, textLength);
    WriteThenRead(d1, off + 4 + w, w, h.endian, textOffset);
    ReadOutsideFrame(d1, d2, off + 4 + w, off + 4 + 2 * w, off + 4, w, h.endian);
  }

  /** The scan changes only the entries it visits, and grows the file only there. */
  lemma {:induction false} ScanFrame(h: Header, data: seq<byte>, textLength: nat, textOffset: nat, i: nat, entries: nat, found: bool)
    requires i <= entries
    requires Scan(h, data, textLength, textOffset, i, entries, found).Ok?
    ensures Frame(data, Scan(h, data, textLength, textOffset, i, entries, found).value.0, EntryOffset(h, i), EntryOffset(h, entries))
    decreases entries - i
  {
    if i < entries {
      var v := Visit(h, data, textLength, textOffset, i, found).value;
      ScanStep(h, data, textLength, textOffset, i, entries, found);
      var r := Scan(h, data, textLength, textOffset, i, entries, found).value.0;
      EntryOffsetMonotone(h, i + 1, entries);
      VisitFrame(h, data, textLength, textOffset, i, found);
      ScanFrame(h, v.0, textLength, textOffset, i + 1, entries, v.1);
      FrameWiden(data, v.0, EntryOffset(h, i), EntryOffset(h, i + 1), EntryOffset(h, i), EntryOffset(h, entries));
      FrameWiden(v.0, r, EntryOffset(h, i + 1), EntryOffset(h, entries), EntryOffset(h, i), EntryOffset(h, entries));
      FrameTrans(data, v.0, r, EntryOffset(h, i), EntryOffset(h, entries));
    }
  }

  /** A visit leaves the tags of later entries as they were. */
  lemma VisitKeepsLaterTag(h: Header, data: seq<byte>, textLength: nat, textOffset: nat, i: nat, found: bool, k: nat)
    requires Visit(h, data, textLength, textOffset, i, found).Ok?
    requires i < k
    requires ReadRaw(data, EntryOffset(h, k), 2, h.endian).Ok? ||
             ReadRaw(Visit(h, data, textLength, textOffset, i, found).value.0, EntryOffset(h, k), 2, h.endian).Ok?
    ensures ReadRaw(Visit(h, data, textLength, textOffset, i, found).value.0, EntryOffset(h, k), 2, h.endian)
            == ReadRaw(data, EntryOffset(h, k), 2, h.endian)
  {
    VisitFrame(h, data, textLength, textOffset, i, found);
    EntryOffsetMonotone(h, i + 1, k);
    ReadOutsideFrame(data, Visit(h, data, textLength, textOffset, i, found).value.0,
                     EntryOffset(h, i), EntryOffset(h, i + 1), EntryOffset(h, k), 2, h.endian);
  }

  /** A successful scan has read the tag of every entry it covers. */
  lemma {:induction false} ScanReadsTags(h: Header, data: seq<byte>, textLength: nat, textOffset: nat, i: nat, entries: nat, found: bool)
    requires i <= entries
    requires Scan(h, data, textLength, textOffset, i, entries, found).Ok?
    ensures forall k :: i <= k < entries ==> ReadRaw(data, EntryOffset(h, k), 2, h.endian).Ok?
    decreases entries - i
  {
    if i < entries {
      var v := Visit(h, data, textLength, textOffset, i, found).value;
      ScanStep(h, data, textLength, textOffset, i, entries, found);
      ScanReadsTags(h, v.0, textLength, textOffset, i + 1, entries, v.1);
      forall k | i <= k < entries
        ensures ReadRaw(data, EntryOffset(h, k), 2, h.endian).Ok?
      {
        if k > i {
          VisitKeepsLaterTag(h, data, textLength, textOffset, i, found, k);
        } else {
          VisitReadsTag(h, data, textLength, textOffset, i, found);
        }
      }
    }
  }

  /** Some entry from lo up to hi is tagged ImageDescription. */
  ghost predicate Tagged(h: Header, d: seq<byte>, lo: nat, hi: nat)
  {
    exists k :: lo <= k < hi && ReadRaw(d, EntryOffset(h, k), 2, h.endian) == Ok(TAG_IMAGEDESCRIPTION)
  }

  /** A range of entries is tagged when its first entry is, or the rest of the range is. */
  lemma TaggedSplit(h: Header, d: seq<byte>, lo: nat, hi: nat)
    requires lo < hi
    ensures Tagged(h, d, lo, hi) <==> ReadRaw(d, EntryOffset(h, lo), 2, h.endian) == Ok(TAG_IMAGEDESCRIPTION) || Tagged(h, d, lo + 1, hi)
  {
  }

  /** Entries whose tags read the same in two files are tagged alike. */
  lemma TaggedSame(h: Header, d0: seq<byte>, d1: seq<byte>, lo: nat, hi: nat)
    requires forall k :: lo <= k < hi ==> ReadRaw(d1, EntryOffset(h, k), 2, h.endian) == ReadRaw(d0, EntryOffset(h, k), 2, h.endian)
    ensures Tagged(h, d0, lo, hi) <==> Tagged(h, d1, lo, hi)
  {
    if Tagged(h, d0, lo, hi) {
      var k :| lo <= k < hi && ReadRaw(d0, EntryOffset(h, k), 2, h.endian) == Ok(TAG_IMAGEDESCRIPTION);
      assert ReadRaw(d1, EntryOffset(h, k), 2, h.endian) == Ok(TAG_IMAGEDESCRIPTION);
    }
    if Tagged(h, d1, lo, hi) {
      var k :| lo <= k < hi && ReadRaw(d1, EntryOffset(h, k), 2, h.endian) == Ok(TAG_IMAGEDESCRIPTION);
      assert ReadRaw(d0, EntryOffset(h, k), 2, h.endian) == Ok(TAG_IMAGEDESCRIPTION);
    }
  }

  /** A successful scan reports a match exactly when some entry it covers is tagged ImageDescription. */
  lemma {:induction false} ScanFindsTag(h: Header, data: seq<byte>, textLength: nat, textOffset: nat, i: nat, entries: nat, found: bool)
    requires i <= entries
    requires Scan(h, data, textLength, textOffset, i, entries, found).Ok?
    ensures Scan(h, data, textLength, textOffset, i, entries, found).value.1 <==> (found || Tagged(h, data, i, entries))
    decreases entries - i
  {
    if i < entries {
      var v := Visit(h, data, textLength, textOffset, i, found).value;
      ScanStep(h, data, textLength, textOffset, i, entries, found);
      ScanFindsTag(h, v.0, textLength, textOffset, i + 1, entries, v.1);
      ScanReadsTags(h, v.0, textLength, textOffset, i + 1, entries, v.1);
      VisitKeepsLaterTags(h, data, textLength, textOffset, i, entries, found);
      TaggedSame(h, data, v.0, i + 1, entries);
      TaggedSplit(h, data, i, entries);
    }
  }

  /** The type and count checks of entry k read the same in data changed only inside an earlier entry. */
  lemma FrameKeepsChecks(h: Header, d0: seq<byte>, d1: seq<byte>, i: nat, k: nat)
    requires Frame(d0, d1, EntryOffset(h, i), EntryOffset(h, i + 1))
    requires i < k
    requires DescriptionChecked(h, d1, k)
    ensures DescriptionChecked(h, d0, k)
  {
    EntryOffsetMonotone(h, i + 1, k);
    ReadOutsideFrame(d0, d1, EntryOffset(h, i), EntryOffset(h, i + 1), EntryOffset(h, k) + 2, 2, h.endian);
    ReadOutsideFrame(d0, d1, EntryOffset(h, i), EntryOffset(h, i + 1), EntryOffset(h, k) + 4, OffsetWidth(h), h.endian);
  }

  /**
   * A successful scan has found every ImageDescription entry it covers
   * of type ASCII and of the placeholder's count, in the data it was given.
   */
  lemma {:induction false} ScanChecksDescriptions(h: Header, data: seq<byte>, textLength: nat, textOffset: nat, i: nat, entries: nat, found: bool)
    requires i <= entries
    requires Scan(h, data, textLength, textOffset, i, entries, found).Ok?
    ensures forall k {:trigger DescriptionChecked(h, data, k)} :: i <= k < entries && ReadRaw(data, EntryOffset(h, k), 2, h.endian) == Ok(TAG_IMAGEDESCRIPTION) ==>
              DescriptionChecked(h, data, k)
    decreases entries - i
  {
    if i < entries {
      ScanOkStep(h, data, textLength, textOffset, i, entries, found);
      var v := Visit(h, data, textLength, textOffset, i, found).value;
      ScanChecksDescriptions(h, v.0, textLength, textOffset, i + 1, entries, v.1);
      VisitKeepsChecks(h, data, textLength, textOffset, i, entries, found);
    }
  }

  /**
   * The inductive step of ScanChecksDescriptions: what holds of the
   * entries after entry i in the visit's result holds of them in the
   * data before it, and entry i itself the visit checked.
   */
  lemma VisitKeepsChecks(h: Header, data: seq<byte>, textLength: nat, textOffset: nat, i: nat, entries: nat, found: bool)
    requires Visit(h, data, textLength, textOffset, i, found).Ok?
    requires var d1 := Visit(h, data, textLength, textOffset, i, found).value.0;
             forall k {:trigger DescriptionChecked(h, d1, k)} :: i + 1 <= k < entries && ReadRaw(d1, EntryOffset(h, k), 2, h.endian) == Ok(TAG_IMAGEDESCRIPTION) ==>
               DescriptionChecked(h, d1, k)
    ensures forall k {:trigger DescriptionChecked(h, data, k)} :: i <= k < entries && ReadRaw(data, EntryOffset(h, k), 2, h.endian) == Ok(TAG_IMAGEDESCRIPTION) ==>
              DescriptionChecked(h, data, k)
  {
    var d1 := Visit(h, data, textLength, textOffset, i, found).value.0;
    VisitFrame(h, data, textLength, textOffset, i, found);
    forall k | i < k < entries && ReadRaw(data, EntryOffset(h, k), 2, h.endian) == Ok(TAG_IMAGEDESCRIPTION)
      ensures DescriptionChecked(h, data, k)
    {
      VisitKeepsLaterTag(h, data, textLength, textOffset, i, found, k);
      FrameKeepsChecks(h, data, d1, i, k);
    }
  }

  /** The predicate the patch establishes for one entry: count and offset fields read back as written. */
  ghost predicate FieldsPatched(h: Header, d: seq<byte>, k: nat, textLength: nat, textOffset: nat)
  {
    && ReadRaw(d, EntryOffset(h, k) + 4, OffsetWidth(h), h.endian) == Ok(textLength % Pow256(OffsetWidth(h)))
    && ReadRaw(d, EntryOffset(h, k) + 4 + OffsetWidth(h), OffsetWidth(h), h.endian) == Ok(textOffset % Pow256(OffsetWidth(h)))
  }

  /** A scan from a later entry keeps an earlier entry's patched fields. */
  lemma ScanKeepsPatched(h: Header, data: seq<byte>, textLength: nat, textOffset: nat, i: nat, entries: nat, found: bool, k: nat)
    requires i <= entries && k < i
    requires Scan(h, data, textLength, textOffset, i, entries, found).Ok?
    requires FieldsPatched(h, data, k, textLength, textOffset)
    ensures FieldsPatched(h, Scan(h, data, textLength, textOffset, i, entries, found).value.0, k, textLength, textOffset)
  {
    EntryOffsetMonotone(h, k + 1, i);
    ScanFrame(h, data, textLength, textOffset, i, entries, found);
    FieldsKeptByFrame(h, data, Scan(h, data, textLength, textOffset, i, entries, found).value.0, EntryOffset(h, i), EntryOffset(h, entries),
                      k, textLength, textOffset);
  }

  /** Patched fields of an entry before a frame stay patched. */
  lemma FieldsKeptByFrame(h: Header, d0: seq<byte>, d1: seq<byte>, lo: nat, hi: nat, k: nat, textLength: nat, textOffset: nat)
    requires Frame(d0, d1, lo, hi) && EntryOffset(h, k + 1) <= lo
    requires FieldsPatched(h, d0, k, textLength, textOffset)
    ensures FieldsPatched(h, d1, k, textLength, textOffset)
  {
    var off, w := EntryOffset(h, k), OffsetWidth(h);
    EntryOffsetStep(h, k);
    ReadOutsideFrame(d0, d1, lo, hi, off + 4, w, h.endian);
    ReadOutsideFrame(d0, d1, lo, hi, off + 4 + w, w, h.endian);
  }

  /** A successful visit to a description entry patches its fields. */
  lemma VisitPatches(h: Header, data: seq<byte>, textLength: nat, textOffset: nat, i: nat, found: bool)
    requires Visit(h, data, textLength, textOffset, i, found).Ok?
    requires ReadRaw(data, EntryOffset(h, i), 2, h.endian) == Ok(TAG_IMAGEDESCRIPTION)
    ensures FieldsPatched(h, Visit(h, data, textLength, textOffset, i, found).value.0, i, textLength, textOffset)
  {
    PatchReads(h, data, EntryOffset(h, i), textLength, textOffset);
  }

  /** The entry a scan visits first, when it is the description, is patched in the scan's result. */
  lemma FieldsAfterScan(h: Header, data: seq<byte>, textLength: nat, textOffset: nat, i: nat, entries: nat, found: bool)
    requires i < entries
    requires Scan(h, data, textLength, textOffset, i, entries, found).Ok?
    requires ReadRaw(data, EntryOffset(h, i), 2, h.endian) == Ok(TAG_IMAGEDESCRIPTION)
    ensures FieldsPatched(h, Scan(h, data, textLength, textOffset, i, entries, found).value.0, i, textLength, textOffset)
  {
    ScanStep(h, data, textLength, textOffset, i, entries, found);
    var v := Visit(h, data, textLength, textOffset, i, found).value;
    VisitPatches(h, data, textLength, textOffset, i, found);
    ScanKeepsPatched(h, v.0, textLength, textOffset, i + 1, entries, v.1, i);
  }

  /**
   * Every ImageDescription entry the scan covers ends up with the text's
   * length in its count field and the text's offset in its offset field,
   * both truncated to the field width.
   */
  lemma {:induction false} ScanPatchesFields(h: Header, data: seq<byte>, textLength: nat, textOffset: nat, i: nat, entries: nat, found: bool)
    requires i <= entries
    requires Scan(h, data, textLength, textOffset, i, entries, found).Ok?
    ensures forall k :: i <= k < entries && ReadRaw(data, EntryOffset(h, k), 2, h.endian) == Ok(TAG_IMAGEDESCRIPTION) ==>
              FieldsPatched(h, Scan(h, data, textLength, textOffset, i, entries, found).value.0, k, textLength, textOffset)
    decreases entries - i
  {
    if i < entries {
      var v := Visit(h, data, textLength, textOffset, i, found).value;
      var r := Scan(h, data, textLength, textOffset, i, entries, found).value.0;
      ScanStep(h, data, textLength, textOffset, i, entries, found);
      ScanPatchesFields(h, v.0, textLength, textOffset, i + 1, entries, v.1);
      forall k | i <= k < entries && ReadRaw(data, EntryOffset(h, k), 2, h.endian) == Ok(TAG_IMAGEDESCRIPTION)
        ensures FieldsPatched(h, r, k, textLength, textOffset)
      {
        if k == i {
          FieldsAfterScan(h, data, textLength, textOffset, i, entries, found);
        } else {
          LaterDescriptionPatched(h, data, textLength, textOffset, i, entries, found, k);
        }
      }
    }
  }

  /** The inductive step of ScanPatchesFields for a description entry after the one visited first. */
  lemma LaterDescriptionPatched(h: Header, data: seq<byte>, textLength: nat, textOffset: nat, i: nat, entries: nat, found: bool, k: nat)
    requires i < k < entries
    requires Scan(h, data, textLength, textOffset, i, entries, found).Ok?
    requires ReadRaw(data, EntryOffset(h, k), 2, h.endian) == Ok(TAG_IMAGEDESCRIPTION)
    requires var v := Visit(h, data, textLength, textOffset, i, found);
             v.Ok? && (ReadRaw(v.value.0, EntryOffset(h, k), 2, h.endian) == Ok(TAG_IMAGEDESCRIPTION) ==>
               FieldsPatched(h, Scan(h, v.value.0, textLength, textOffset, i + 1, entries, v.value.1).value.0, k, textLength, textOffset))
    ensures FieldsPatched(h, Scan(h, data, textLength, textOffset, i, entries, found).value.0, k, textLength, textOffset)
  {
    ScanStep(h, data, textLength, textOffset, i, entries, found);
    VisitKeepsLaterTag(h, data, textLength, textOffset, i, found, k);
  }

  /**
   * Once the header is valid and the scan of the first directory
   * succeeds, saveComment succeeds exactly when some entry is tagged
   * ImageDescription, and otherwise reports the missing tag.
   */
  lemma SaveCommentFindsTag(id: string, file: seq<byte>, xml: seq<byte>)
    requires ParseHeaderAsWritten(id, file).Ok?
    ensures var h := ParseHeaderAsWritten(id, file).value;
            var data := file + xml + [0];
            var count := ReadRaw(data, h.ifd0, if h.bigOffsets then 8 else 2, h.endian);
            count.Ok? && Scan(h, data, |xml| + 1, |file|, 0, count.value, false).Ok? ==>
              var r := SaveCommentSpec(id, file, xml);
              && (r.Ok? <==> exists k :: 0 <= k < count.value && ReadRaw(data, EntryOffset(h, k), 2, h.endian) == Ok(TAG_IMAGEDESCRIPTION))
              && (r.Err? ==> r.error == DescriptionNotFound)
  {
    var h := ParseHeaderAsWritten(id, file).value;
    var data := file + xml + [0];
    var count := ReadRaw(data, h.ifd0, if h.bigOffsets then 8 else 2, h.endian);
    if count.Ok? && Scan(h, data, |xml| + 1, |file|, 0, count.value, false).Ok? {
      ScanFindsTag(h, data, |xml| + 1, |file|, 0, count.value, false);
    }
  }

  /**
   * A successful result differs from the file with the text and NUL
   * appended only inside the first directory's entries.
   */
  lemma SaveCommentFrame(id: string, file: seq<byte>, xml: seq<byte>)
    requires SaveCommentSpec(id, file, xml).Ok?
    ensures var h := ParseHeaderAsWritten(id, file).value;
            var count := ReadRaw(file + xml + [0], h.ifd0, if h.bigOffsets then 8 else 2, h.endian);
            && count.Ok?
            && Frame(file + xml + [0], SaveCommentSpec(id, file, xml).value, EntryOffset(h, 0), EntryOffset(h, count.value))
  {
    var h := ParseHeaderAsWritten(id, file).value;
    var data := file + xml + [0];
    var count := ReadRaw(data, h.ifd0, if h.bigOffsets then 8 else 2, h.endian);
    ScanFrame(h, data, |xml| + 1, |file|, 0, count.value, false);
  }

  /** In a successful result every ImageDescription entry holds the text's length and offset. */
  lemma SaveCommentPatches(id: string, file: seq<byte>, xml: seq<byte>)
    requires SaveCommentSpec(id, file, xml).Ok?
    ensures var h := ParseHeaderAsWritten(id, file).value;
            var data := file + xml + [0];
            var count := ReadRaw(data, h.ifd0, if h.bigOffsets then 8 else 2, h.endian);
            && count.Ok?
            && forall k :: 0 <= k < count.value && ReadRaw(data, EntryOffset(h, k), 2, h.endian) == Ok(TAG_IMAGEDESCRIPTION) ==>
                 FieldsPatched(h, SaveCommentSpec(id, file, xml).value, k, |xml| + 1, |file|)
  {
    var h := ParseHeaderAsWritten(id, file).value;
    var data := file + xml + [0];
    var count := ReadRaw(data, h.ifd0, if h.bigOffsets then 8 else 2, h.endian);
    ScanPatchesFields(h, data, |xml| + 1, |file|, 0, count.value, false);
  }

  /**
   * A successful result means every ImageDescription entry of the first
   * directory was of type ASCII with the placeholder's count.
   */
  lemma SaveCommentChecksDescriptions(id: string, file: seq<byte>, xml: seq<byte>)
    requires SaveCommentSpec(id, file, xml).Ok?
    ensures var h := ParseHeaderAsWritten(id, file).value;
            var data := file + xml + [0];
            var count := ReadRaw(data, h.ifd0, if h.bigOffsets then 8 else 2, h.endian);
            && count.Ok?
            && forall k :: 0 <= k < count.value && ReadRaw(data, EntryOffset(h, k), 2, h.endian) == Ok(TAG_IMAGEDESCRIPTION) ==>
                 DescriptionChecked(h, data, k)
  {
    var h := ParseHeaderAsWritten(id, file).value;
    var data := file + xml + [0];
    var count := ReadRaw(data, h.ifd0, if h.bigOffsets then 8 else 2, h.endian);
    ScanChecksDescriptions(h, data, |xml| + 1, |file|, 0, count.value, false);
  }

  /**
   * When the first directory's entries lie inside the original file,
   * the result is as long as the file plus the text and its NUL, ends
   * with them, and agrees with the file up to the first entry.
   */
  lemma AppendedTextIntact(id: string, file: seq<byte>, xml: seq<byte>)
    requires SaveCommentSpec(id, file, xml).Ok?
    ensures var h := ParseHeaderAsWritten(id, file).value;
            var data := file + xml + [0];
            var count := ReadRaw(data, h.ifd0, if h.bigOffsets then 8 else 2, h.endian).value;
            var r := SaveCommentSpec(id, file, xml).value;
            EntryOffset(h, count) <= |file| ==>
              && |r| == |file| + |xml| + 1
              && r[|file|..] == xml + [0]
              && r[..EntryOffset(h, 0)] == file[..EntryOffset(h, 0)]
  {
    var h := ParseHeaderAsWritten(id, file).value;
    var data := file + xml + [0];
    var count := ReadRaw(data, h.ifd0, if h.bigOffsets then 8 else 2, h.endian).value;
    SaveCommentFrame(id, file, xml);
    if EntryOffset(h, count) <= |file| {
      EntryOffsetMonotone(h, 0, count);
      FrameOutside(data, SaveCommentSpec(id, file, xml).value, EntryOffset(h, 0), EntryOffset(h, count), |file|);
    }
  }

  /** A frame that ends inside a prefix of the old data keeps the length, everything after the prefix, and everything before the frame. */
  lemma FrameOutside(d0: seq<byte>, d1: seq<byte>, lo: nat, hi: nat, n: nat)
    requires Frame(d0, d1, lo, hi) && lo <= hi <= n <= |d0|
    ensures |d1| == |d0|
    ensures d1[n..] == d0[n..]
    ensures d1[..lo] == d0[..lo]
  {
  }

  /** A successful visit has read its entry's tag. */
  lemma VisitReadsTag(h: Header, data: seq<byte>, textLength: nat, textOffset: nat, i: nat, found: bool)
    requires Visit(h, data, textLength, textOffset, i, found).Ok?
    ensures ReadRaw(data, EntryOffset(h, i), 2, h.endian).Ok?
  {
  }

  /** A visit leaves the tags of all later entries as they were, given they can be read afterwards. */
  lemma VisitKeepsLaterTags(h: Header, data: seq<byte>, textLength: nat, textOffset: nat, i: nat, entries: nat, found: bool)
    requires Visit(h, data, textLength, textOffset, i, found).Ok?
    requires forall k :: i < k < entries ==> ReadRaw(Visit(h, data, textLength, textOffset, i, found).value.0, EntryOffset(h, k), 2, h.endian).Ok?
    ensures forall k :: i < k < entries ==>
              ReadRaw(Visit(h, data, textLength, textOffset, i, found).value.0, EntryOffset(h, k), 2, h.endian) == ReadRaw(data, EntryOffset(h, k), 2, h.endian)
  {
    forall k | i < k < entries
      ensures ReadRaw(Visit(h, data, textLength, textOffset, i, found).value.0, EntryOffset(h, k), 2, h.endian) == ReadRaw(data, EntryOffset(h, k), 2, h.endian)
    {
      VisitKeepsLaterTag(h, data, textLength, textOffset, i, found, k);
    }
  }

  /** One step of the scan: visit entry i, then scan the rest. */
  lemma ScanStep(h: Header, data: seq<byte>, textLength: nat, textOffset: nat, i: nat, entries: nat, found: bool)
    requires i < entries
    ensures var v := Visit(h, data, textLength, textOffset, i, found);
            Scan(h, data, textLength, textOffset, i, entries, found)
            == if v.Err? then Err(v.error) else Scan(h, v.value.0, textLength, textOffset, i + 1, entries, v.value.1)
  {
  }

  /**
   * saveComment on a whole file: check the header (with the formatted
   * reads of the endian characters), append the text and a
   * NUL, read the first directory's entry count, patch its
   * ImageDescription entries, and fail if there was none.
   */
  function SaveCommentSpec(id: string, file: seq<byte>, xml: seq<byte>): (r: Result<seq<byte>>)
    ensures r.Ok? ==> ParseHeaderAsWritten(id, file).Ok?
    ensures ParseHeaderAsWritten(id, file).Err? ==> r == Err(ParseHeaderAsWritten(id, file).error)
  {
    var h :- ParseHeaderAsWritten(id, file);
    var data := file + xml + [0];
    var entries :- ReadRaw(data, h.ifd0, if h.bigOffsets then 8 else 2, h.endian);
    var s :- Scan(h, data, |xml| + 1, |file|, 0, entries, false);
    if !s.1 then Err(DescriptionNotFound) else Ok(s.0)
  }

  /** saveComment: the header check as written, the append, and the scan of the first directory. */
  method SaveComment(id: string, file: seq<byte>, xml: seq<byte>) returns (r: Result<seq<byte>>)
    ensures r == SaveCommentSpec(id, file, xml)
  {
    var h :- ParseHeaderAsWritten(id, file);
    var data := file + xml + [0];
    var entries :- ReadRaw(data, h.ifd0, if h.bigOffsets then 8 else 2, h.endian);
    var s :- PatchEntries(h, data, |xml| + 1, |file|, entries);
    if !s.1 {
      return Err(DescriptionNotFound);
    }
    return Ok(s.0);
  }

  /** The loop over the first directory's entries, proved to compute the specification's scan. */
  method PatchEntries(h: Header, start: seq<byte>, textLength: nat, textOffset: nat, entries: nat) returns (r: Result<(seq<byte>, bool)>)
    ensures r == Scan(h, start, textLength, textOffset, 0, entries, false)
  {
    var data := start;
    var found := false;
    var i: nat := 0;
    while i < entries
      invariant Scan(h, data, textLength, textOffset, i, entries, found) == Scan(h, start, textLength, textOffset, 0, entries, false)
      decreases entries - i
    {
      ScanStep(h, data, textLength, textOffset, i, entries, found);
      var v :- VisitEntry(h, data, textLength, textOffset, i, found);
      data, found := v.0, v.1;
      i := i + 1;
    }
    return Ok((data, found));
  }

  /** The body of the loop: read entry i's tag and type, and patch it if it is the description. */
  method VisitEntry(h: Header, data: seq<byte>, textLength: nat, textOffset: nat, i: nat, found: bool) returns (r: Result<(seq<byte>, bool)>)
    ensures r == Visit(h, data, textLength, textOffset, i, found)
  {
    var off := EntryOffset(h, i);
    var tag :- ReadRaw(data, off, 2, h.endian);
    var typ :- ReadRaw(data, off + 2, 2, h.endian);
    if tag != TAG_IMAGEDESCRIPTION {
      return Ok((data, found));
    }
    if typ != TYPE_ASCII {
      return Err(InvalidDescriptionType(typ));
    }
    var count :- ReadRaw(data, off + 4, OffsetWidth(h), h.endian);
    if count != DEFAULT_DESCRIPTION_LENGTH + 1 {
      return Err(DescriptionSizeIncorrect);
    }
    return Ok((PatchEntry(h, data, off, textLength, textOffset), true));
  }
}
