/** The ICO container writer of the icon build script: packs already encoded
    PNG images into one Windows icon file. The layout is a 6-byte header
    (reserved 0, type 1, image count), one 16-byte directory entry per image,
    then the images themselves, back to back in input order. All numbers are
    little-endian. */
module Ico {
  import opened Wrappers

  newtype byte = x: int | 0 <= x < 256

  const HeaderSize: nat := 6
  const DirEntrySize: nat := 16
  const U16Limit: nat := 0x1_0000
  const U32Limit: nat := 0x1_0000_0000

  /** `writeUInt16LE`'s bytes. */
  function U16(v: nat): (b: seq<byte>)
    requires v < U16Limit
    ensures |b| == 2
  {
    [(v % 256) as byte, (v / 256) as byte]
  }

  /** `writeUInt32LE`'s bytes. */
  function U32(v: nat): (b: seq<byte>)
    requires v < U32Limit
    ensures |b| == 4
  {
    [(v % 256) as byte, (v / 256 % 256) as byte, (v / 65536 % 256) as byte, (v / 16777216) as byte]
  }

  function ReadU16(s: seq<byte>, p: nat): nat
    requires p + 2 <= |s|
  {
    s[p] as nat + 256 * s[p + 1] as nat
  }

  function ReadU32(s: seq<byte>, p: nat): nat
    requires p + 4 <= |s|
  {
    s[p] as nat + 256 * s[p + 1] as nat + 65536 * s[p + 2] as nat + 16777216 * s[p + 3] as nat
  }

  lemma U16RoundTrip(v: nat)
    requires v < U16Limit
    ensures ReadU16(U16(v), 0) == v
  {
  }

  lemma U32RoundTrip(v: nat)
    requires v < U32Limit
    ensures ReadU32(U32(v), 0) == v
  {
    var b := U32(v);
    assert b[0] as nat == v % 256;
    assert b[1] as nat == v / 256 % 256;
    assert b[2] as nat == v / 65536 % 256;
    assert b[3] as nat == v / 16777216;
    assert v / 256 == 256 * (v / 65536) + v / 256 % 256;
    assert v / 65536 == 256 * (v / 16777216) + v / 65536 % 256;
  }

  /** The images, back to back (lemmas ConcatSnoc and ConcatAt). */
  function Concat(pngs: seq<seq<byte>>): (bytes: seq<byte>)
  {
    if pngs == [] then [] else Concat(pngs[..|pngs| - 1]) + pngs[|pngs| - 1]
  }

  /** Where image i starts: after the header, the whole directory and the
      images before it. */
  function ImageOffset(pngs: seq<seq<byte>>, i: nat): (offset: nat)
    requires i <= |pngs|
    ensures HeaderSize + DirEntrySize * |pngs| <= offset
    ensures i == 0 ==> offset == HeaderSize + DirEntrySize * |pngs|
  {
    HeaderSize + DirEntrySize * |pngs| + |Concat(pngs[..i])|
  }

  /** A width or height the one-byte field can hold; 256 is written as 0. */
  predicate ValidSize(size: int) {
    size == 256 || 0 <= size < 256
  }

  /** The size's byte: its value modulo 256, so 256 becomes 0. */
  function DimensionByte(size: int): (b: byte)
    requires ValidSize(size)
    ensures b as int == size % 256
  {
    if size == 256 then 0 else size as byte
  }

  /** None of the writes throws a range error: the count fits 16 bits, every
      size fits its byte, and every image length and offset fits 32 bits. */
  predicate Encodable(pngs: seq<seq<byte>>, sizes: seq<int>): (fits: bool)
    requires |sizes| >= |pngs|
    ensures pngs == [] ==> fits
    ensures fits ==> |pngs| < U16Limit
  {
    && |pngs| < U16Limit
    && forall i :: 0 <= i < |pngs| ==>
         ValidSize(sizes[i]) && |pngs[i]| < U32Limit && ImageOffset(pngs, i) < U32Limit
  }

  /** One directory entry: width, height, palette 0, reserved 0, one colour
      plane, 32 bits per pixel, the image's length and its offset. */
  function DirEntry(size: int, length: nat, offset: nat): (e: seq<byte>)
    requires ValidSize(size) && length < U32Limit && offset < U32Limit
    ensures |e| == DirEntrySize
  {
    [DimensionByte(size), DimensionByte(size), 0, 0] + U16(1) + U16(32) + U32(length) + U32(offset)
  }

  function EntryOf(pngs: seq<seq<byte>>, sizes: seq<int>, i: nat): (e: seq<byte>)
    requires |sizes| >= |pngs| && Encodable(pngs, sizes) && i < |pngs|
    ensures |e| == DirEntrySize
  {
    DirEntry(sizes[i], |pngs[i]|, ImageOffset(pngs, i))
  }

  /** The first k directory entries. */
  function Directory(pngs: seq<seq<byte>>, sizes: seq<int>, k: nat): (d: seq<byte>)
    requires |sizes| >= |pngs| && Encodable(pngs, sizes) && k <= |pngs|
    ensures |d| == DirEntrySize * k
  {
    if k == 0 then [] else Directory(pngs, sizes, k - 1) + EntryOf(pngs, sizes, k - 1)
  }

  function Header(count: nat): (h: seq<byte>)
    requires count < U16Limit
    ensures |h| == HeaderSize
  {
    U16(0) + U16(1) + U16(count)
  }

  /** The whole icon file: the header, 16 bytes per image and the images. */
  function IcoBytes(pngs: seq<seq<byte>>, sizes: seq<int>): (ico: seq<byte>)
    requires |sizes| >= |pngs| && Encodable(pngs, sizes)
    ensures |ico| == HeaderSize + DirEntrySize * |pngs| + |Concat(pngs)|
  {
    Header(|pngs|) + Directory(pngs, sizes, |pngs|) + Concat(pngs)
  }

  // ---------------------------------------------------------------------
  // Reading an icon file back

  /** Image i of a file: the slice its directory entry's offset and size
      fields name, if that slice lies inside the file. */
  function ReadImage(b: seq<byte>, i: nat): Option<seq<byte>>
    requires HeaderSize + DirEntrySize * (i + 1) <= |b|
  {
    var entry := HeaderSize + DirEntrySize * i;
    var size, offset := ReadU32(b, entry + 8), ReadU32(b, entry + 12);
    if offset + size <= |b| then Some(b[offset..offset + size]) else None
  }

  /** The first k images of a file. */
  function ReadImages(b: seq<byte>, k: nat): Option<seq<seq<byte>>>
    requires HeaderSize + DirEntrySize * k <= |b|
  {
    if k == 0 then Some([])
    else match ReadImages(b, k - 1)
      case None => None
      case Some(front) =>
        match ReadImage(b, k - 1)
        case None => None
        case Some(img) => Some(front + [img])
  }

  /** Reads the image count from the header, then every image through its
      directory entry. */
  function ParseIco(b: seq<byte>): Option<seq<seq<byte>>> {
    if |b| < HeaderSize then None
    else
      var count := ReadU16(b, 4);
      if |b| < HeaderSize + DirEntrySize * count then None
      else ReadImages(b, count)
  }

  // ---------------------------------------------------------------------
  // Properties of the layout

  lemma {:induction false} ConcatSnoc(pngs: seq<seq<byte>>, i: nat)
    requires i < |pngs|
    ensures Concat(pngs[..i + 1]) == Concat(pngs[..i]) + pngs[i]
  {
    assert pngs[..i + 1][..i] == pngs[..i];
  }

  /** Image i starts where image i - 1 ends; image 0 right after the
      directory. */
  lemma ImagesContiguous(pngs: seq<seq<byte>>, i: nat)
    requires i < |pngs|
    ensures ImageOffset(pngs, 0) == HeaderSize + DirEntrySize * |pngs|
    ensures ImageOffset(pngs, i + 1) == ImageOffset(pngs, i) + |pngs[i]|
  {
    assert pngs[..0] == [];
    ConcatSnoc(pngs, i);
  }

  /** Within the first k images, image i sits at its own offset. */
  lemma {:induction false} ConcatAt(pngs: seq<seq<byte>>, k: nat, i: nat)
    requires i < k <= |pngs|
    ensures |Concat(pngs[..i])| + |pngs[i]| <= |Concat(pngs[..k])|
    ensures Concat(pngs[..k])[|Concat(pngs[..i])|..|Concat(pngs[..i])| + |pngs[i]|] == pngs[i]
    decreases k
  {
    ConcatSnoc(pngs, k - 1);
    if i < k - 1 {
      ConcatAt(pngs, k - 1, i);
      var front := Concat(pngs[..k - 1]);
      assert Concat(pngs[..k]) == front + pngs[k - 1];
      assert Concat(pngs[..k])[..|front|] == front;
    }
  }

  /** Image i ends inside the file. */
  lemma ImageFits(pngs: seq<seq<byte>>, i: nat)
    requires i < |pngs|
    ensures ImageOffset(pngs, i) + |pngs[i]| <= HeaderSize + DirEntrySize * |pngs| + |Concat(pngs)|
  {
    assert pngs[..|pngs|] == pngs;
    ConcatAt(pngs, |pngs|, i);
  }

  /** Appending one 16-byte block to whole blocks leaves the earlier blocks
      where they were and puts the new one right after them. */
  lemma BlockAppend(front: seq<byte>, block: seq<byte>, n: nat, i: nat)
    requires |front| == DirEntrySize * n && |block| == DirEntrySize && i <= n
    ensures i < n ==> (front + block)[DirEntrySize * i..DirEntrySize * (i + 1)]
                      == front[DirEntrySize * i..DirEntrySize * (i + 1)]
    ensures i == n ==> (front + block)[DirEntrySize * i..DirEntrySize * (i + 1)] == block
  {
  }

  /** Within the first k entries, entry i sits at 16 * i. */
  lemma {:induction false} DirectoryAt(pngs: seq<seq<byte>>, sizes: seq<int>, k: nat, i: nat)
    requires |sizes| >= |pngs| && Encodable(pngs, sizes) && i < k <= |pngs|
    ensures Directory(pngs, sizes, k)[DirEntrySize * i..DirEntrySize * (i + 1)]
            == EntryOf(pngs, sizes, i)
    decreases k
  {
    var front := Directory(pngs, sizes, k - 1);
    BlockAppend(front, EntryOf(pngs, sizes, k - 1), k - 1, i);
    if i < k - 1 {
      DirectoryAt(pngs, sizes, k - 1, i);
    }
  }

  /** Header: reserved 0, type 1, then the image count. */
  lemma IcoHeader(pngs: seq<seq<byte>>, sizes: seq<int>)
    requires |sizes| >= |pngs| && Encodable(pngs, sizes)
    ensures |IcoBytes(pngs, sizes)| >= HeaderSize
    ensures ReadU16(IcoBytes(pngs, sizes), 0) == 0
    ensures ReadU16(IcoBytes(pngs, sizes), 2) == 1
    ensures ReadU16(IcoBytes(pngs, sizes), 4) == |pngs|
  {
    var b := IcoBytes(pngs, sizes);
    assert b[..HeaderSize] == Header(|pngs|);
    U16RoundTrip(|pngs|);
  }

  /** The fields of one directory entry, read back. */
  lemma DirEntryFields(size: int, length: nat, offset: nat)
    requires ValidSize(size) && length < U32Limit && offset < U32Limit
    ensures var e := DirEntry(size, length, offset);
      && e[0] == e[1] == DimensionByte(size)
      && e[2] == 0 && e[3] == 0
      && ReadU16(e, 4) == 1 && ReadU16(e, 6) == 32
      && ReadU32(e, 8) == length && ReadU32(e, 12) == offset
  {
    var e := DirEntry(size, length, offset);
    assert e[8..12] == U32(length);
    assert e[12..16] == U32(offset);
    U32RoundTrip(length);
    U32RoundTrip(offset);
    assert ReadU32(e, 8) == ReadU32(e[8..12], 0);
    assert ReadU32(e, 12) == ReadU32(e[12..16], 0);
  }

  /** Reading the fields of 16 bytes in place or after copying them out
      gives the same values. */
  lemma SliceReads(b: seq<byte>, e: nat, entry: seq<byte>)
    requires e + DirEntrySize <= |b| && b[e..e + DirEntrySize] == entry
    ensures b[e] == entry[0] && b[e + 1] == entry[1] && b[e + 2] == entry[2] && b[e + 3] == entry[3]
    ensures ReadU16(b, e + 4) == ReadU16(entry, 4) && ReadU16(b, e + 6) == ReadU16(entry, 6)
    ensures ReadU32(b, e + 8) == ReadU32(entry, 8) && ReadU32(b, e + 12) == ReadU32(entry, 12)
  {
  }

  /** Entry i, at byte 6 + 16 * i, holds the size byte (0 for 256) twice,
      palette 0, reserved 0, one plane, 32 bits per pixel, the image's length
      and its offset. */
  lemma IcoEntry(pngs: seq<seq<byte>>, sizes: seq<int>, i: nat)
    requires |sizes| >= |pngs| && Encodable(pngs, sizes) && i < |pngs|
    ensures var b, e := IcoBytes(pngs, sizes), HeaderSize + DirEntrySize * i;
      && e + DirEntrySize <= |b|
      && b[e] == b[e + 1] == (if sizes[i] == 256 then 0 else sizes[i] as byte)
      && b[e + 2] == 0 && b[e + 3] == 0
      && ReadU16(b, e + 4) == 1 && ReadU16(b, e + 6) == 32
      && ReadU32(b, e + 8) == |pngs[i]|
      && ReadU32(b, e + 12) == ImageOffset(pngs, i)
  {
    var b, e := IcoBytes(pngs, sizes), HeaderSize + DirEntrySize * i;
    EntrySlice(pngs, sizes, i);
    DirEntryFields(sizes[i], |pngs[i]|, ImageOffset(pngs, i));
    SliceReads(b, e, EntryOf(pngs, sizes, i));
  }

  /** The 16 bytes at 6 + 16 * i are entry i. */
  lemma EntrySlice(pngs: seq<seq<byte>>, sizes: seq<int>, i: nat)
    requires |sizes| >= |pngs| && Encodable(pngs, sizes) && i < |pngs|
    ensures var b, e := IcoBytes(pngs, sizes), HeaderSize + DirEntrySize * i;
      e + DirEntrySize <= |b| && b[e..e + DirEntrySize] == EntryOf(pngs, sizes, i)
  {
    var n := |pngs|;
    var b, d := IcoBytes(pngs, sizes), Directory(pngs, sizes, n);
    DirectoryAt(pngs, sizes, n, i);
    assert b[HeaderSize..HeaderSize + |d|] == d;
    var e := HeaderSize + DirEntrySize * i;
    assert b[e..e + DirEntrySize] == d[DirEntrySize * i..DirEntrySize * (i + 1)];
  }

  /** Image i is copied verbatim at its offset. */
  lemma IcoImage(pngs: seq<seq<byte>>, sizes: seq<int>, i: nat)
    requires |sizes| >= |pngs| && Encodable(pngs, sizes) && i < |pngs|
    ensures var b, o := IcoBytes(pngs, sizes), ImageOffset(pngs, i);
      o + |pngs[i]| <= |b| && b[o..o + |pngs[i]|] == pngs[i]
  {
    var n := |pngs|;
    var b := IcoBytes(pngs, sizes);
    var data := HeaderSize + DirEntrySize * n;
    assert pngs[..n] == pngs;
    ConcatAt(pngs, n, i);
    assert b[data..] == Concat(pngs);
    var start := |Concat(pngs[..i])|;
    assert b[data + start..data + start + |pngs[i]|] == Concat(pngs)[start..start + |pngs[i]|];
  }

  /** Entry i of a written file leads back to image i. */
  lemma ReadImageAt(pngs: seq<seq<byte>>, sizes: seq<int>, i: nat)
    requires |sizes| >= |pngs| && Encodable(pngs, sizes) && i < |pngs|
    ensures HeaderSize + DirEntrySize * (i + 1) <= |IcoBytes(pngs, sizes)|
    ensures ReadImage(IcoBytes(pngs, sizes), i) == Some(pngs[i])
  {
    IcoEntry(pngs, sizes, i);
    IcoImage(pngs, sizes, i);
  }

  /** A file whose first k entries each lead to the matching image reads
      back as those k images. */
  lemma {:induction false} ReadImagesRoundTrip(b: seq<byte>, images: seq<seq<byte>>, k: nat)
    requires k <= |images| && HeaderSize + DirEntrySize * k <= |b|
    requires forall i :: 0 <= i < k ==> ReadImage(b, i) == Some(images[i])
    ensures ReadImages(b, k) == Some(images[..k])
    decreases k
  {
    if k > 0 {
      ReadImagesRoundTrip(b, images, k - 1);
      assert images[..k] == images[..k - 1] + [images[k - 1]];
    }
  }

  /** Parsing a written icon file gives back exactly the input images. */
  lemma IcoRoundTrip(pngs: seq<seq<byte>>, sizes: seq<int>)
    requires |sizes| >= |pngs| && Encodable(pngs, sizes)
    ensures ParseIco(IcoBytes(pngs, sizes)) == Some(pngs)
  {
    var b := IcoBytes(pngs, sizes);
    IcoHeader(pngs, sizes);
    forall i | 0 <= i < |pngs| ensures ReadImage(b, i) == Some(pngs[i]) {
      ReadImageAt(pngs, sizes, i);
    }
    ReadImagesRoundTrip(b, pngs, |pngs|);
    assert pngs[..|pngs|] == pngs;
  }

  // ---------------------------------------------------------------------
  // The writer

  /** The buffer `s` with `bytes` written over it at `pos`. */
  function Splice(s: seq<byte>, pos: nat, bytes: seq<byte>): (r: seq<byte>)
    requires pos + |bytes| <= |s|
    ensures |r| == |s|
  {
    s[..pos] + bytes + s[pos + |bytes|..]
  }

  /** A write changes neither the bytes before it nor those after it. */
  lemma SpliceKeeps(s: seq<byte>, pos: nat, bytes: seq<byte>, lo: nat, hi: nat)
    requires pos + |bytes| <= |s| && lo <= hi <= |s|
    requires hi <= pos || pos + |bytes| <= lo
    ensures Splice(s, pos, bytes)[lo..hi] == s[lo..hi]
  {
  }

  lemma SpliceAt(s: seq<byte>, pos: nat, bytes: seq<byte>)
    requires pos + |bytes| <= |s|
    ensures Splice(s, pos, bytes)[pos..pos + |bytes|] == bytes
  {
  }

  /** Two writes side by side are one write of both. */
  lemma SpliceAdjacent(s: seq<byte>, pos: nat, x: seq<byte>, y: seq<byte>)
    requires pos + |x| + |y| <= |s|
    ensures Splice(Splice(s, pos, x), pos + |x|, y) == Splice(s, pos, x + y)
  {
    var r := Splice(s, pos, x);
    assert r[..pos + |x|] == s[..pos] + x;
    assert r[pos + |x| + |y|..] == s[pos + |x| + |y|..];
  }

  /** Writes `bytes` at `pos` and leaves every other byte alone. */
  method Put(a: array<byte>, pos: nat, bytes: seq<byte>)
    requires pos + |bytes| <= a.Length
    modifies a
    ensures a[..] == Splice(old(a[..]), pos, bytes)
  {
    forall j | 0 <= j < |bytes| {
      a[pos + j] := bytes[j];
    }
    assert a[..] == old(a[..])[..pos] + bytes + old(a[..])[pos + |bytes|..];
  }

  /** Bytes written pointwise: `bytes` at `pos`, everything else as before,
      is the splice. */
  lemma PointwiseSplice(before: seq<byte>, after: seq<byte>, pos: nat, bytes: seq<byte>)
    requires |after| == |before| && pos + |bytes| <= |before|
    requires after[pos..pos + |bytes|] == bytes
    requires forall j :: 0 <= j < |after| && (j < pos || pos + |bytes| <= j) ==> after[j] == before[j]
    ensures after == Splice(before, pos, bytes)
  {
  }

  method WriteUInt8(a: array<byte>, v: byte, pos: nat)
    requires pos + 1 <= a.Length
    modifies a
    ensures a[pos] == v
    ensures forall j :: 0 <= j < a.Length && j != pos ==> a[j] == old(a[j])
  {
    a[pos] := v;
  }

  method WriteUInt16LE(a: array<byte>, v: nat, pos: nat)
    requires v < U16Limit && pos + 2 <= a.Length
    modifies a
    ensures a[pos..pos + 2] == U16(v)
    ensures forall j :: 0 <= j < a.Length && (j < pos || pos + 2 <= j) ==> a[j] == old(a[j])
  {
    var b := U16(v);
    a[pos], a[pos + 1] := b[0], b[1];
  }

  method WriteUInt32LE(a: array<byte>, v: nat, pos: nat)
    requires v < U32Limit && pos + 4 <= a.Length
    modifies a
    ensures a[pos..pos + 4] == U32(v)
    ensures forall j :: 0 <= j < a.Length && (j < pos || pos + 4 <= j) ==> a[j] == old(a[j])
  {
    var b := U32(v);
    a[pos], a[pos + 1], a[pos + 2], a[pos + 3] := b[0], b[1], b[2], b[3];
  }

  /** The first six fields of a directory entry: width, height, palette,
      reserved, planes and bits per pixel. */
  method WriteEntryFormat(a: array<byte>, pos: nat, size: int)
    requires ValidSize(size) && pos + 8 <= a.Length
    modifies a
    ensures a[pos..pos + 8] == [DimensionByte(size), DimensionByte(size), 0, 0] + U16(1) + U16(32)
    ensures forall j :: 0 <= j < a.Length && (j < pos || pos + 8 <= j) ==> a[j] == old(a[j])
  {
    var dim := DimensionByte(size);
    WriteUInt8(a, dim, pos);
    WriteUInt8(a, dim, pos + 1);
    WriteUInt8(a, 0, pos + 2);
    WriteUInt8(a, 0, pos + 3);
    assert a[pos..pos + 4] == [dim, dim, 0, 0];
    WriteUInt16LE(a, 1, pos + 4);
    WriteUInt16LE(a, 32, pos + 6);
    assert a[pos..pos + 8] == a[pos..pos + 4] + a[pos + 4..pos + 6] + a[pos + 6..pos + 8];
  }

  /** The last two fields of a directory entry: the image's length and its
      offset. */
  method WriteEntryLocation(a: array<byte>, pos: nat, length: nat, offset: nat)
    requires length < U32Limit && offset < U32Limit && pos + 8 <= a.Length
    modifies a
    ensures a[pos..pos + 8] == U32(length) + U32(offset)
    ensures forall j :: 0 <= j < a.Length && (j < pos || pos + 8 <= j) ==> a[j] == old(a[j])
  {
    WriteUInt32LE(a, length, pos);
    WriteUInt32LE(a, offset, pos + 4);
    assert a[pos..pos + 8] == a[pos..pos + 4] + a[pos + 4..pos + 8];
  }

  /** The eight field writes of one directory entry. */
  method WriteDirEntry(a: array<byte>, pos: nat, size: int, length: nat, offset: nat)
    requires ValidSize(size) && length < U32Limit && offset < U32Limit
    requires pos + DirEntrySize <= a.Length
    modifies a
    ensures a[..] == Splice(old(a[..]), pos, DirEntry(size, length, offset))
  {
    WriteEntryFormat(a, pos, size);
    ghost var format := a[pos..pos + 8];
    WriteEntryLocation(a, pos + 8, length, offset);
    assert a[pos..pos + 8] == format;
    assert a[pos..pos + 16] == a[pos..pos + 8] + a[pos + 8..pos + 16];
    PointwiseSplice(old(a[..]), a[..], pos, DirEntry(size, length, offset));
  }

  /** The buffer holds the header, the first d directory entries and the
      first k images, each where the file layout puts it. */
  ghost predicate Filled(s: seq<byte>, pngs: seq<seq<byte>>, sizes: seq<int>, d: nat, k: nat)
    requires |sizes| >= |pngs| && Encodable(pngs, sizes) && d <= |pngs| && k <= |pngs|
  {
    && |s| == HeaderSize + DirEntrySize * |pngs| + |Concat(pngs)|
    && ImageOffset(pngs, k) <= |s|
    && s[..HeaderSize] == Header(|pngs|)
    && s[HeaderSize..HeaderSize + DirEntrySize * d] == Directory(pngs, sizes, d)
    && s[HeaderSize + DirEntrySize * |pngs|..ImageOffset(pngs, k)] == Concat(pngs[..k])
  }

  /** A slice is its two halves, back to back. */
  lemma SliceSplit(s: seq<byte>, lo: nat, mid: nat, hi: nat)
    requires lo <= mid <= hi <= |s|
    ensures s[lo..hi] == s[lo..mid] + s[mid..hi]
  {
  }

  /** Writing entry i, and nothing else, extends the directory by one. */
  lemma EntryStep(before: seq<byte>, pngs: seq<seq<byte>>, sizes: seq<int>, i: nat)
    requires |sizes| >= |pngs| && Encodable(pngs, sizes) && i < |pngs|
    requires Filled(before, pngs, sizes, i, i)
    ensures HeaderSize + DirEntrySize * (i + 1) <= |before|
    ensures Filled(Splice(before, HeaderSize + DirEntrySize * i, EntryOf(pngs, sizes, i)), pngs, sizes, i + 1, i)
  {
    var e := HeaderSize + DirEntrySize * i;
    var entry := EntryOf(pngs, sizes, i);
    var after := Splice(before, e, entry);
    var dataOffset := HeaderSize + DirEntrySize * |pngs|;
    SpliceKeeps(before, e, entry, 0, HeaderSize);
    SpliceKeeps(before, e, entry, HeaderSize, e);
    SpliceKeeps(before, e, entry, dataOffset, ImageOffset(pngs, i));
    SpliceAt(before, e, entry);
    assert after[HeaderSize..e + DirEntrySize] == after[HeaderSize..e] + after[e..e + DirEntrySize];
  }

  /** Copying image i, and nothing else, to its offset extends the images
      by one. */
  lemma ImageStep(before: seq<byte>, pngs: seq<seq<byte>>, sizes: seq<int>, i: nat)
    requires |sizes| >= |pngs| && Encodable(pngs, sizes) && i < |pngs|
    requires Filled(before, pngs, sizes, i + 1, i)
    ensures ImageOffset(pngs, i) + |pngs[i]| <= |before|
    ensures Filled(Splice(before, ImageOffset(pngs, i), pngs[i]), pngs, sizes, i + 1, i + 1)
  {
    var o := ImageOffset(pngs, i);
    var png := pngs[i];
    var dataOffset := HeaderSize + DirEntrySize * |pngs|;
    ImageFits(pngs, i);
    ImagesContiguous(pngs, i);
    ConcatSnoc(pngs, i);
    var after := Splice(before, o, png);
    SpliceKeeps(before, o, png, 0, HeaderSize);
    SpliceKeeps(before, o, png, HeaderSize, HeaderSize + DirEntrySize * (i + 1));
    SpliceKeeps(before, o, png, dataOffset, o);
    SpliceAt(before, o, png);
    SliceSplit(after, dataOffset, o, o + |png|);
  }

  /** One round of the writer's loop: directory entry i, then image i at
      the running offset. */
  method WriteImage(a: array<byte>, pngs: seq<seq<byte>>, sizes: seq<int>, i: nat, currentOffset: nat)
    requires |sizes| >= |pngs| && Encodable(pngs, sizes) && i < |pngs|
    requires currentOffset == ImageOffset(pngs, i)
    requires Filled(a[..], pngs, sizes, i, i)
    modifies a
    ensures Filled(a[..], pngs, sizes, i + 1, i + 1)
  {
    var entryOffset := HeaderSize + i * DirEntrySize;
    var pngBuf := pngs[i];
    EntryStep(a[..], pngs, sizes, i);
    WriteDirEntry(a, entryOffset, sizes[i], |pngBuf|, currentOffset);
    ImageStep(a[..], pngs, sizes, i);
    Put(a, currentOffset, pngBuf);
  }

  /** A buffer holding every entry and every image is the icon file. */
  lemma FilledComplete(s: seq<byte>, pngs: seq<seq<byte>>, sizes: seq<int>)
    requires |sizes| >= |pngs| && Encodable(pngs, sizes)
    requires Filled(s, pngs, sizes, |pngs|, |pngs|)
    ensures s == IcoBytes(pngs, sizes)
  {
    var dataOffset := HeaderSize + DirEntrySize * |pngs|;
    assert pngs[..|pngs|] == pngs;
    assert s == s[..HeaderSize] + s[HeaderSize..dataOffset] + s[dataOffset..];
  }

  /** The three header fields, in a zero-filled buffer of the file's size. */
  method WriteHeader(a: array<byte>, pngs: seq<seq<byte>>, sizes: seq<int>)
    requires |sizes| >= |pngs| && Encodable(pngs, sizes)
    requires a.Length == HeaderSize + DirEntrySize * |pngs| + |Concat(pngs)|
    modifies a
    ensures Filled(a[..], pngs, sizes, 0, 0)
  {
    WriteUInt16LE(a, 0, 0);
    WriteUInt16LE(a, 1, 2);
    WriteUInt16LE(a, |pngs|, 4);
    assert a[..HeaderSize] == Header(|pngs|);
    assert pngs[..0] == [];
  }

  /** Packs the images into an icon file; None when one of the writes would
      throw a range error. */
  method CreateIco(pngs: seq<seq<byte>>, sizes: seq<int>) returns (ico: Option<array<byte>>)
    requires |sizes| >= |pngs|
    ensures ico.Some? <==> Encodable(pngs, sizes)
    ensures ico.Some? ==> ico.value[..] == IcoBytes(pngs, sizes)
  {
    if !Encodable(pngs, sizes) {
      return None;
    }
    var numImages := |pngs|;
    var dataOffset := HeaderSize + DirEntrySize * numImages;

    var totalSize := dataOffset;
    for i := 0 to numImages
      invariant totalSize == dataOffset + |Concat(pngs[..i])|
    {
      ConcatSnoc(pngs, i);
      totalSize := totalSize + |pngs[i]|;
    }
    assert pngs[..numImages] == pngs;

    var a := new byte[totalSize](_ => 0);
    WriteHeader(a, pngs, sizes);

    var currentOffset := dataOffset;
    for i := 0 to numImages
      invariant currentOffset == ImageOffset(pngs, i)
      invariant Filled(a[..], pngs, sizes, i, i)
    {
      WriteImage(a, pngs, sizes, i, currentOffset);
      ImagesContiguous(pngs, i);
      currentOffset := currentOffset + |pngs[i]|;
    }
    FilledComplete(a[..], pngs, sizes);
    return Some(a);
  }
}
