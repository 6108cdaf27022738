/** The tray icon's file: a header, a directory of entries, then the PNG images the entries refer to. */
module Ico {
  import opened Common

  // ---- Little-endian fields; each keeps what fits ----

  function Byte(n: int): byte {
    n % 256
  }

  function Word(n: int): seq<byte> {
    [Byte(n), Byte(n / 256)]
  }

  function DoubleWord(n: int): seq<byte> {
    [Byte(n), Byte(n / 256), Byte(n / 65536), Byte(n / 16777216)]
  }

  class BinaryWriter {
    var file: seq<byte>

    constructor ()
      ensures file == []
    {
      file := [];
    }

    method Write(bytes: seq<byte>)
      modifies this
      ensures file == old(file) + bytes
    {
      file := file + bytes;
    }
  }

  // ---- The layout ----

  /** Where image k starts. */
  function Offset(pngs: seq<seq<byte>>, k: nat): nat
    requires k <= |pngs|
  {
    6 + 16 * |pngs| + |Flatten(pngs[..k])|
  }

  /** A side of 256 or more is written as 0. */
  function Side(size: int32): byte {
    if size >= 256 then 0 else Byte(size)
  }

  function Entry(size: int32, length: nat, offset: nat): (e: seq<byte>)
    ensures |e| == 16
  {
    [Side(size), Side(size), 0, 0] + Word(1) + Word(32) + DoubleWord(length) + DoubleWord(offset)
  }

  /** The first k directory entries. */
  function Directory(sizes: seq<int32>, pngs: seq<seq<byte>>, k: nat): (d: seq<byte>)
    requires k <= |sizes| == |pngs|
    ensures |d| == 16 * k
  {
    if k == 0 then []
    else Directory(sizes, pngs, k - 1) + Entry(sizes[k - 1], |pngs[k - 1]|, Offset(pngs, k - 1))
  }

  function Header(count: nat): seq<byte> {
    Word(0) + Word(1) + Word(count)
  }

  function IcoFile(sizes: seq<int32>, pngs: seq<seq<byte>>): seq<byte>
    requires |sizes| == |pngs|
  {
    Header(|sizes|) + Directory(sizes, pngs, |sizes|) + Flatten(pngs)
  }

  function Drawn(sizes: seq<int32>, draw: int32 -> seq<byte>): (pngs: seq<seq<byte>>)
    ensures |pngs| == |sizes|
  {
    seq(|sizes|, k requires 0 <= k < |sizes| => draw(sizes[k]))
  }

  lemma TakeOneMore(pngs: seq<seq<byte>>, k: nat)
    requires k < |pngs|
    ensures Flatten(pngs[..k + 1]) == Flatten(pngs[..k]) + pngs[k]
  {
    assert pngs[..k + 1] == pngs[..k] + [pngs[k]];
    FlattenAppend(pngs[..k], pngs[k]);
  }

  /** `draw` gives the PNG image of the mark at a size. */
  method DrawAll(sizes: array<int32>, draw: int32 -> seq<byte>) returns (pngs: array<seq<byte>>)
    ensures fresh(pngs) && pngs[..] == Drawn(sizes[..], draw)
  {
    pngs := new seq<byte>[sizes.Length](_ => []);
    var i := 0;
    while i < sizes.Length
      invariant 0 <= i <= sizes.Length
      invariant forall k | 0 <= k < i :: pngs[k] == draw(sizes[k])
    {
      pngs[i] := draw(sizes[i]);
      i := i + 1;
    }
  }

  method WriteDirectory(writer: BinaryWriter, sizes: array<int32>, pngs: array<seq<byte>>)
    requires pngs.Length == sizes.Length
    modifies writer
    ensures writer.file == old(writer.file) + Directory(sizes[..], pngs[..], sizes.Length)
  {
    hide DoubleWord, Word, Side;
    var offset := 6 + 16 * sizes.Length;
    var i := 0;
    while i < sizes.Length
      invariant 0 <= i <= sizes.Length
      invariant offset == Offset(pngs[..], i)
      invariant writer.file == old(writer.file) + Directory(sizes[..], pngs[..], i)
    {
      var side := Side(sizes[i]);
      writer.Write([side, side, 0, 0] + Word(1) + Word(32) + DoubleWord(|pngs[i]|) + DoubleWord(offset));
      TakeOneMore(pngs[..], i);
      offset := offset + |pngs[i]|;
      i := i + 1;
    }
  }

  method WriteImages(writer: BinaryWriter, pngs: array<seq<byte>>)
    modifies writer
    ensures writer.file == old(writer.file) + Flatten(pngs[..])
  {
    var i := 0;
    while i < pngs.Length
      invariant 0 <= i <= pngs.Length
      invariant writer.file == old(writer.file) + Flatten(pngs[..][..i])
    {
      TakeOneMore(pngs[..], i);
      writer.Write(pngs[i]);
      i := i + 1;
    }
    assert pngs[..][..i] == pngs[..];
  }

  method WriteIco(sizes: array<int32>, draw: int32 -> seq<byte>) returns (writer: BinaryWriter)
    ensures fresh(writer)
    ensures writer.file == IcoFile(sizes[..], Drawn(sizes[..], draw))
  {
    hide Directory, Word, Flatten;
    var pngs := DrawAll(sizes, draw);
    writer := new BinaryWriter();
    writer.Write(Word(0));
    writer.Write(Word(1));
    writer.Write(Word(sizes.Length));
    WriteDirectory(writer, sizes, pngs);
    WriteImages(writer, pngs);
  }

  // ---- A reader ----

  function ReadWord(f: seq<byte>, at: nat): nat
    requires at + 2 <= |f|
  {
    f[at] as int + 256 * (f[at + 1] as int)
  }

  function ReadDoubleWord(f: seq<byte>, at: nat): nat
    requires at + 4 <= |f|
  {
    f[at] as int + 256 * (f[at + 1] as int) + 65536 * (f[at + 2] as int) + 16777216 * (f[at + 3] as int)
  }

  /** How many images a file announces, if it says that it is a file of icons. */
  function ReadHeader(f: seq<byte>): Option<nat> {
    if |f| < 6 || ReadWord(f, 0) != 0 || ReadWord(f, 2) != 1 then None else Some(ReadWord(f, 4))
  }

  /** A side of 0 stands for 256. */
  function ReadSide(b: byte): nat {
    if b == 0 then 256 else b
  }

  /** What one directory entry says: the size, no palette, planes and bits a pixel, and where the image is. */
  datatype Listing = Listing(
    width: nat, height: nat, palette: nat, planes: nat, bits: nat, offset: nat, length: nat)

  function ReadEntry(f: seq<byte>, k: nat): Option<Listing> {
    var at := 6 + 16 * k;
    if at + 16 > |f| || f[at + 3] != 0 then None
    else
      Some(Listing(ReadSide(f[at]), ReadSide(f[at + 1]), f[at + 2], ReadWord(f, at + 4), ReadWord(f, at + 6),
                   ReadDoubleWord(f, at + 12), ReadDoubleWord(f, at + 8)))
  }

  function ReadImage(f: seq<byte>, k: nat): Option<seq<byte>> {
    match ReadEntry(f, k)
    case None => None
    case Some(l) => if l.offset + l.length > |f| then None else Some(f[l.offset..l.offset + l.length])
  }

  lemma WordReads(n: nat)
    ensures ReadWord(Word(n), 0) == n % 65536
  {
    var low, high, rest := n % 256, n / 256 % 256, n / 65536;
    assert n / 256 / 256 == rest;
    assert n == low + 256 * (n / 256) && n / 256 == high + 256 * rest;
    assert n == low + 256 * high + 65536 * rest;
    Remainder(n, rest, low + 256 * high);
  }

  lemma Remainder(n: nat, q: nat, r: nat)
    requires n == r + 65536 * q && r < 65536
    ensures n % 65536 == r
  {
  }

  lemma DoubleWordReads(n: nat)
    requires n < 0x1_0000_0000
    ensures ReadDoubleWord(DoubleWord(n), 0) == n
  {
    assert n == n % 256 + 256 * (n / 256);
    assert n / 256 == n / 256 % 256 + 256 * (n / 65536) by {
      assert n / 256 / 256 == n / 65536;
    }
    assert n / 65536 == n / 65536 % 256 + 256 * (n / 16777216) by {
      assert n / 65536 / 256 == n / 16777216;
    }
  }

  /** The bytes of entry k in a file that begins with a header and a directory. */
  lemma {:induction false} EntryAt(sizes: seq<int32>, pngs: seq<seq<byte>>, n: nat, k: nat, tail: seq<byte>)
    requires k < n <= |sizes| == |pngs|
    ensures var f := Header(|sizes|) + Directory(sizes, pngs, n) + tail;
            && |f| >= 6 + 16 * n
            && f[6 + 16 * k..6 + 16 * k + 16] == Entry(sizes[k], |pngs[k]|, Offset(pngs, k))
    decreases n
  {
    var front := Header(|sizes|) + Directory(sizes, pngs, n - 1);
    var entry := Entry(sizes[n - 1], |pngs[n - 1]|, Offset(pngs, n - 1));
    var f := Header(|sizes|) + Directory(sizes, pngs, n) + tail;
    assert f == front + (entry + tail);
    if k < n - 1 {
      EntryAt(sizes, pngs, n - 1, k, entry + tail);
    }
  }

  lemma EntryReads(f: seq<byte>, k: nat, size: int32, length: nat, offset: nat)
    requires 6 + 16 * k + 16 <= |f| && f[6 + 16 * k..6 + 16 * k + 16] == Entry(size, length, offset)
    requires length < 0x1_0000_0000 && offset < 0x1_0000_0000
    ensures ReadEntry(f, k) == Some(Listing(ReadSide(Side(size)), ReadSide(Side(size)), 0, 1, 32, offset, length))
  {
    var e := Entry(size, length, offset);
    var at := 6 + 16 * k;
    DoubleWordReads(length);
    DoubleWordReads(offset);
    WordReads(1);
    WordReads(32);
    hide Byte, Side;
    assert forall j | 0 <= j < 16 :: f[at + j] == e[j];
  }

  lemma {:induction false} FlattenPart(pngs: seq<seq<byte>>, k: nat)
    requires k < |pngs|
    ensures |Flatten(pngs[..k])| + |pngs[k]| <= |Flatten(pngs)|
    ensures Flatten(pngs)[|Flatten(pngs[..k])|..|Flatten(pngs[..k])| + |pngs[k]|] == pngs[k]
  {
    TakeOneMore(pngs, k);
    assert pngs == pngs[..k + 1] + pngs[k + 1..];
    FlattenConcat(pngs[..k + 1], pngs[k + 1..]);
  }

  /** The images follow the directory and one another, and the last ends with the file. */
  ghost predicate Tiles(f: seq<byte>, n: nat) {
    && (forall k | 0 <= k < n :: ReadEntry(f, k).Some?)
    && (n > 0 ==> ReadEntry(f, 0).value.offset == 6 + 16 * n)
    && (forall j, k | 0 <= j && j + 1 == k < n ::
          ReadEntry(f, k).value.offset == ReadEntry(f, j).value.offset + ReadEntry(f, j).value.length)
    && |f| == if n == 0 then 6 else ReadEntry(f, n - 1).value.offset + ReadEntry(f, n - 1).value.length
  }

  predicate Listed(l: Listing, size: int32) {
    && l.width == l.height && (l.width == size <==> 1 <= size <= 256)
    && l.palette == 0 && l.planes == 1 && l.bits == 32
  }

  lemma SideReads(size: int32)
    ensures ReadSide(Side(size)) == size <==> 1 <= size <= 256
  {
  }

  /** Entry k of the file, and the image it lists. */
  lemma ImageReads(sizes: seq<int32>, pngs: seq<seq<byte>>, k: nat)
    requires k < |sizes| == |pngs| && |IcoFile(sizes, pngs)| < 0x1_0000_0000
    ensures var f := IcoFile(sizes, pngs);
            && var side := ReadSide(Side(sizes[k]));
            && ReadEntry(f, k) == Some(Listing(side, side, 0, 1, 32, Offset(pngs, k), |pngs[k]|))
            && ReadImage(f, k) == Some(pngs[k])
  {
    hide ReadEntry, Directory, Side;
    var f, n := IcoFile(sizes, pngs), |pngs|;
    FlattenPart(pngs, k);
    EntryAt(sizes, pngs, n, k, Flatten(pngs));
    EntryReads(f, k, sizes[k], |pngs[k]|, Offset(pngs, k));
    var start := |Flatten(pngs[..k])|;
    assert f[Offset(pngs, k)..Offset(pngs, k) + |pngs[k]|] == Flatten(pngs)[start..start + |pngs[k]|];
  }

  /**
    A file whose fields hold its sizes is read back through its directory: as many images as
    were written, each exactly as it was, the images tiling the rest of the file without gap
    or overlap. Each is listed as square and 32 bits a pixel without palette, and of the size
    asked for exactly from 1 to 256.
   */
  lemma ImagesReadBack(sizes: seq<int32>, pngs: seq<seq<byte>>)
    requires |sizes| == |pngs| < 65536 && |IcoFile(sizes, pngs)| < 0x1_0000_0000
    ensures var f := IcoFile(sizes, pngs);
            && ReadHeader(f) == Some(|pngs|)
            && (forall k | 0 <= k < |pngs| :: ReadImage(f, k) == Some(pngs[k]))
            && (forall k | 0 <= k < |pngs| :: ReadEntry(f, k).Some? && Listed(ReadEntry(f, k).value, sizes[k]))
            && Tiles(f, |pngs|)
  {
    hide ReadEntry, ReadImage, Side, Flatten, Directory;
    var f, n := IcoFile(sizes, pngs), |pngs|;
    HeaderReads(sizes, pngs);
    forall k | 0 <= k < n
      ensures ReadImage(f, k) == Some(pngs[k])
      ensures ReadEntry(f, k).Some? && Listed(ReadEntry(f, k).value, sizes[k])
      ensures ReadEntry(f, k).value.offset == Offset(pngs, k) && ReadEntry(f, k).value.length == |pngs[k]|
    {
      ImageReads(sizes, pngs, k);
      SideReads(sizes[k]);
    }
    OffsetsTile(pngs);
    forall j, k | 0 <= j && j + 1 == k < n
      ensures ReadEntry(f, k).value.offset == ReadEntry(f, j).value.offset + ReadEntry(f, j).value.length
    {
    }
  }

  lemma HeaderReads(sizes: seq<int32>, pngs: seq<seq<byte>>)
    requires |sizes| == |pngs|
    ensures ReadHeader(IcoFile(sizes, pngs)) == Some(|pngs| % 65536)
  {
    hide Directory, Flatten, Byte;
    WordReads(0);
    WordReads(1);
    WordReads(|pngs|);
    var f, h := IcoFile(sizes, pngs), Header(|pngs|);
    assert forall j | 0 <= j < 6 :: f[j] == h[j];
  }

  lemma OffsetsTile(pngs: seq<seq<byte>>)
    ensures Offset(pngs, 0) == 6 + 16 * |pngs|
    ensures forall j, k | 0 <= j && j + 1 == k <= |pngs| :: Offset(pngs, k) == Offset(pngs, j) + |pngs[j]|
    ensures Offset(pngs, |pngs|) == 6 + 16 * |pngs| + |Flatten(pngs)|
  {
    assert pngs[..|pngs|] == pngs;
    forall j, k | 0 <= j && j + 1 == k <= |pngs|
      ensures Offset(pngs, k) == Offset(pngs, j) + |pngs[j]|
    {
      TakeOneMore(pngs, j);
    }
  }

}
