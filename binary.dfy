/** Bytes, little-endian integers, alignment, the pointer model and the
    serializer's byte stream with its cursor. The serializer library itself
    is not part of this model: these are the few operations of it that the
    patcher relies on, stated over a sequence of bytes. */
module Binary {
  import opened Wrappers

  type byte = x: int | 0 <= x < 256

  /** The GBA maps the ROM file at this absolute address, so a ROM pointer's
      absolute offset is RomBase plus its file offset. */
  const RomBase: int := 0x0800_0000

  const TwoTo31: nat := 0x8000_0000
  const TwoTo32: nat := 0x1_0000_0000
  const TwoTo63: nat := 0x8000_0000_0000_0000
  const TwoTo64: nat := 0x1_0000_0000_0000_0000

  /** The ASCII bytes of the footer magic "EDIT". */
  const Magic: seq<byte> := [0x45, 0x44, 0x49, 0x54]

  function Pow256(n: nat): (r: nat)
    ensures r > 0
  {
    if n == 0 then 1 else 256 * Pow256(n - 1)
  }

  lemma Pow256Widths()
    ensures Pow256(4) == TwoTo32 && Pow256(8) == TwoTo64
  {
    assert Pow256(1) == 256;
    assert Pow256(2) == 0x1_0000;
    assert Pow256(3) == 0x100_0000;
    assert Pow256(4) == 0x1_0000_0000;
    assert Pow256(5) == 0x100_0000_0000;
    assert Pow256(6) == 0x1_0000_0000_0000;
    assert Pow256(7) == 0x100_0000_0000_0000;
  }

  /** The n low bytes of x, least significant first. */
  function LittleEndian(x: nat, n: nat): (r: seq<byte>)
    ensures |r| == n
  {
    if n == 0 then [] else [x % 256] + LittleEndian(x / 256, n - 1)
  }

  /** The unsigned value of bytes stored least significant first. */
  function FromLittleEndian(bs: seq<byte>): (r: nat)
    ensures r < Pow256(|bs|)
  {
    if bs == [] then 0 else bs[0] + 256 * FromLittleEndian(bs[1..])
  }

  lemma {:induction false} LittleEndianRoundTrip(x: nat, n: nat)
    requires x < Pow256(n)
    ensures FromLittleEndian(LittleEndian(x, n)) == x
  {
    if n > 0 {
      LittleEndianRoundTrip(x / 256, n - 1);
      assert LittleEndian(x, n)[1..] == LittleEndian(x / 256, n - 1);
    }
  }

  /** A C# cast to uint: the value modulo 2^32. */
  function ToU32(x: int): (r: nat)
    ensures r < TwoTo32
    ensures (x - r) % 0x1_0000_0000 == 0
  {
    x % 0x1_0000_0000
  }

  /** A uint32 (or the low 32 bits of a wider value) as stored by the serializer. */
  function U32Bytes(x: int): (r: seq<byte>)
    ensures |r| == 4
  {
    LittleEndian(ToU32(x), 4)
  }

  /** An int32 in two's complement, as stored by the serializer. */
  function I32Bytes(x: int): (r: seq<byte>)
    ensures |r| == 4
  {
    LittleEndian(x % 0x1_0000_0000, 4)
  }

  /** An int64 in two's complement, as stored by the serializer. */
  function I64Bytes(x: int): (r: seq<byte>)
    ensures |r| == 8
  {
    LittleEndian(x % 0x1_0000_0000_0000_0000, 8)
  }

  function ReadU32(bs: seq<byte>): (r: nat)
    requires |bs| == 4
    ensures r < TwoTo32
  {
    Pow256Widths();
    FromLittleEndian(bs)
  }

  function ReadI32(bs: seq<byte>): (r: int)
    requires |bs| == 4
    ensures -(TwoTo31 as int) <= r < TwoTo31
  {
    var v := ReadU32(bs);
    if v >= 0x8000_0000 then v - 0x1_0000_0000 else v
  }

  function ReadI64(bs: seq<byte>): (r: int)
    requires |bs| == 8
    ensures -(TwoTo63 as int) <= r < TwoTo63
  {
    Pow256Widths();
    var v := FromLittleEndian(bs);
    if v >= 0x8000_0000_0000_0000 then v - 0x1_0000_0000_0000_0000 else v
  }

  lemma U32RoundTrip(x: int)
    requires 0 <= x < TwoTo32
    ensures ReadU32(U32Bytes(x)) == x
  {
    Pow256Widths();
    assert ToU32(x) == x;
    LittleEndianRoundTrip(x, 4);
  }

  lemma I32RoundTrip(x: int)
    requires -(TwoTo31 as int) <= x < TwoTo31
    ensures ReadI32(I32Bytes(x)) == x
  {
    Pow256Widths();
    var u := x % 0x1_0000_0000;
    assert u == if x < 0 then x + 0x1_0000_0000 else x;
    LittleEndianRoundTrip(u, 4);
    assert ReadU32(I32Bytes(x)) == u;
  }

  lemma I64RoundTrip(x: int)
    requires -(TwoTo63 as int) <= x < TwoTo63
    ensures ReadI64(I64Bytes(x)) == x
  {
    Pow256Widths();
    var u := x % 0x1_0000_0000_0000_0000;
    assert u == if x < 0 then x + 0x1_0000_0000_0000_0000 else x;
    LittleEndianRoundTrip(u, 8);
    assert FromLittleEndian(I64Bytes(x)) == u;
  }

  /** The serializer's Align(): the next multiple of 4 at or after n. */
  function Align4(n: int): (r: int)
    ensures r % 4 == 0 && n <= r < n + 4
  {
    if n % 4 == 0 then n else n + (4 - n % 4)
  }

  function Zeros(n: nat): (r: seq<byte>)
    ensures |r| == n && forall i :: 0 <= i < n ==> r[i] == 0
  {
    seq(n, _ => 0)
  }

  function Max(a: int, b: int): int {
    if a < b then b else a
  }

  /** The stream after writing bs at file offset at. Writing past the end
      grows the stream, and a gap left by seeking past the end reads as 0. */
  function Overwrite(data: seq<byte>, at: nat, bs: seq<byte>): (r: seq<byte>)
    ensures |r| == if bs == [] then |data| else Max(|data|, at + |bs|)
  {
    if bs == [] then data
    else if at <= |data| then
      data[..at] + bs + (if at + |bs| < |data| then data[at + |bs|..] else [])
    else
      data + Zeros(at - |data|) + bs
  }

  /** Byte by byte: written bytes where the write was, old bytes elsewhere,
      and zeros in a gap past the old end. */
  lemma OverwriteIndex(data: seq<byte>, at: nat, bs: seq<byte>)
    ensures var r := Overwrite(data, at, bs);
      forall i :: 0 <= i < |r| ==>
        r[i] == (if at <= i < at + |bs| then bs[i - at] else if i < |data| then data[i] else 0)
  {
  }

  /** A byte outside a write keeps its value. */
  lemma OverwriteOutside(data: seq<byte>, at: nat, bs: seq<byte>, i: int)
    requires 0 <= i < |data| && !(at <= i < at + |bs|)
    ensures Overwrite(data, at, bs)[i] == data[i]
  {
  }

  /** Two writes one after the other are one write of both. */
  lemma OverwriteConcat(data: seq<byte>, at: nat, x: seq<byte>, y: seq<byte>)
    ensures Overwrite(Overwrite(data, at, x), at + |x|, y) == Overwrite(data, at, x + y)
  {
    var a := Overwrite(Overwrite(data, at, x), at + |x|, y);
    var b := Overwrite(data, at, x + y);
    OverwriteIndex(data, at, x);
    OverwriteIndex(Overwrite(data, at, x), at + |x|, y);
    OverwriteIndex(data, at, x + y);
    if x != [] && y != [] {
      assert |a| == |b|;
      forall i | 0 <= i < |a| ensures a[i] == b[i] {
        if at <= i < at + |x| {
          assert (x + y)[i - at] == x[i - at];
        } else if at + |x| <= i < at + |x| + |y| {
          assert (x + y)[i - at] == y[i - at - |x|];
        }
      }
    }
  }

  /** Reading n bytes at file offset at, or None when that runs past the end
      of the stream (the serializer throws there). */
  function Slice(data: seq<byte>, at: int, n: nat): (r: Option<seq<byte>>)
    ensures r.Some? <==> 0 <= at && at + n <= |data|
    ensures r.Some? ==> r.value == data[at..at + n]
  {
    if 0 <= at && at + n <= |data| then Some(data[at..at + n]) else None
  }

  /** A read of two adjacent parts is the reads of each part. */
  lemma SliceSplit(data: seq<byte>, at: int, a: seq<byte>, b: seq<byte>)
    requires Slice(data, at, |a| + |b|) == Some(a + b)
    ensures Slice(data, at, |a|) == Some(a) && Slice(data, at + |a|, |b|) == Some(b)
  {
    var whole := data[at..at + |a| + |b|];
    assert whole == a + b;
    assert data[at..at + |a|] == whole[..|a|] == a;
    assert data[at + |a|..at + |a| + |b|] == whole[|a|..] == b;
  }

  /** What was just written reads back. */
  lemma SliceOfOverwrite(data: seq<byte>, at: nat, bs: seq<byte>)
    requires bs != [] || at <= |data|
    ensures Slice(Overwrite(data, at, bs), at, |bs|) == Some(bs)
  {
    var r := Overwrite(data, at, bs);
    OverwriteIndex(data, at, bs);
    if bs != [] {
      assert r[at..at + |bs|] == bs;
    }
  }

  /** A write leaves every byte outside it as it was. */
  lemma SliceOutsideOverwrite(data: seq<byte>, at: nat, bs: seq<byte>, j: int, n: nat)
    requires 0 <= j && j + n <= |data|
    requires j + n <= at || at + |bs| <= j
    ensures Slice(Overwrite(data, at, bs), j, n) == Slice(data, j, n)
  {
    var r := Overwrite(data, at, bs);
    OverwriteIndex(data, at, bs);
    assert r[j..j + n] == data[j..j + n];
  }

  /** A file cut or extended (with zeros) to n bytes. */
  function Resized(data: seq<byte>, n: nat): (r: seq<byte>)
    ensures |r| == n
  {
    if n <= |data| then data[..n] else data + Zeros(n - |data|)
  }

  /** Cutting keeps the bytes below the new length; extending keeps every
      byte and adds zeros. */
  lemma ResizedBytes(data: seq<byte>, n: nat, i: nat)
    requires i < n
    ensures Resized(data, n)[i] == if i < |data| then data[i] else 0
  {
  }

  /** A file a pointer can point into: the ROM, or a virtual file (a stream
      decoded out of the ROM) that remembers the pointer it was decoded from. */
  datatype BinaryFile = RomFile | VirtualFile(key: nat, parentPointer: Pointer) {
    function BaseAddress(): int {
      if RomFile? then RomBase else 0
    }
  }

  /** A location: the file and the absolute offset (base address + file offset). */
  datatype Pointer = Pointer(file: BinaryFile, absolute: int) {
    function FileOffset(): int {
      absolute - file.BaseAddress()
    }
  }

  function RomPointer(fileOffset: int): (p: Pointer)
    ensures p.file == RomFile && p.FileOffset() == fileOffset
  {
    Pointer(RomFile, RomBase + fileOffset)
  }

  /** The serializer over the ROM file: the bytes of the file and the cursor,
      a file offset. */
  class Stream {
    var data: seq<byte>
    var pos: int

    constructor (initial: seq<byte>)
      ensures data == initial && pos == 0
    {
      data := initial;
      pos := 0;
    }

    function CurrentPointer(): (p: Pointer)
      reads this
      ensures p.file == RomFile && p.FileOffset() == pos
    {
      RomPointer(pos)
    }

    method Goto(offset: int)
      modifies this`pos
      ensures pos == offset
    {
      pos := offset;
    }

    method Align()
      modifies this`pos
      ensures pos == Align4(old(pos))
    {
      pos := Align4(pos);
    }

    /** Serialize in write mode: writes at the cursor and moves past the bytes. */
    method Write(bs: seq<byte>)
      requires pos >= 0
      modifies this
      ensures data == Overwrite(old(data), old(pos), bs)
      ensures pos == old(pos) + |bs|
    {
      data := Overwrite(data, pos, bs);
      pos := pos + |bs|;
    }

    /** DoAt in write mode: writes at an offset and leaves the cursor alone. */
    method WriteAt(offset: nat, bs: seq<byte>)
      modifies this`data
      ensures data == Overwrite(old(data), offset, bs)
    {
      data := Overwrite(data, offset, bs);
    }

    /** Serialize in read mode; None when the read runs past the end. */
    method Read(n: nat) returns (r: Option<seq<byte>>)
      modifies this`pos
      ensures r == Slice(data, old(pos), n)
      ensures pos == if r.Some? then old(pos) + n else old(pos)
    {
      r := Slice(data, pos, n);
      if r.Some? {
        pos := pos + n;
      }
    }

    /** SetLength on the destination file. */
    method SetLength(n: nat)
      modifies this`data
      ensures data == Resized(old(data), n)
    {
      if n <= |data| {
        data := data[..n];
      } else {
        data := data + Zeros(n - |data|);
      }
    }
  }
}
