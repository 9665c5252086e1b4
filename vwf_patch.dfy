/** The variable width font patch: two fixed edits in the game's text
    renderer and an appended payload (a Thumb routine, a pointer to the
    width table, the maximum tile index, the table length and the table). */
module VariableWidthFontPatch {
  import opened Wrappers
  import opened Binary

  const Id: string := "VWF"

  /** ROM addresses of the renderer edit and of the routine pointer, as file offsets. */
  const FunctionPatchAddress: nat := 0x0802_e84a - 0x0800_0000
  const NewFunctionPointerAddress: nat := 0x0802_e85c - 0x0800_0000
  const MaxTileIndex: nat := 0x3FF

  const FunctionPatchOriginalBytes: seq<byte> := [0x08, 0x35, 0x02, 0x21, 0x8a, 0x44, 0x02, 0x48]
  const FunctionPatchBytes: seq<byte> := [0x04, 0x48, 0x38, 0xf0, 0xc4, 0xfc, 0x00, 0x00]
  const NewFunctionBytes: seq<byte> := [
    0x00, 0xB5, 0x40, 0xB4, 0x04, 0x49, 0x26, 0x88, 0x89, 0x5d, 0x6d, 0x18,
    0x02, 0x21, 0x8a, 0x44, 0x02, 0x48, 0x40, 0xbc, 0x00, 0xbd]

  /** Where the width-table pointer goes for a payload starting at p. */
  function TablePointerOffset(p: int): (q: int)
    ensures q % 4 == 0 && p + |NewFunctionBytes| <= q < p + |NewFunctionBytes| + 4
  {
    Align4(p + |NewFunctionBytes|)
  }

  /** The first two words after the alignment: the table pointer (its own
      address + 12, the first width byte) and the maximum tile index. */
  function TableHeader(q: int): (h: seq<byte>)
    ensures |h| == 8
  {
    U32Bytes(RomBase + q + 12) + U32Bytes(MaxTileIndex)
  }

  /** The part of the payload after the alignment: the header, the table
      length and the table. */
  function TableBlock(q: int, widths: seq<byte>): (b: seq<byte>)
    ensures |b| == 12 + |widths|
  {
    TableHeader(q) + I32Bytes(|widths|) + widths
  }

  /** The file after the two fixed edits of Apply for a payload at p. */
  function PatchedFixed(data: seq<byte>, p: int): seq<byte> {
    Overwrite(Overwrite(data, FunctionPatchAddress, FunctionPatchBytes),
      NewFunctionPointerAddress, U32Bytes(RomBase + p + 1))
  }

  /** Apply, as a function of the file and the cursor: the file and cursor
      afterwards, and whether it stopped at a null width table (after the
      fixed edits, the routine and the first two words were written). */
  datatype ApplyResult = ApplyResult(data: seq<byte>, pos: int, faulted: bool)

  function Applied(data: seq<byte>, p: nat, widths: Option<seq<byte>>): (r: ApplyResult)
    ensures r.faulted <==> widths.None?
    ensures !r.faulted ==> r.pos == TablePointerOffset(p) + 12 + |widths.value|
    ensures r.pos >= p
  {
    var q := TablePointerOffset(p);
    var d := Overwrite(PatchedFixed(data, p), p, NewFunctionBytes);
    match widths
    case None => ApplyResult(Overwrite(d, q, TableHeader(q)), q + 8, true)
    case Some(w) => ApplyResult(Overwrite(d, q, TableBlock(q, w)), q + 12 + |w|, false)
  }

  /** Revert: the original renderer bytes and the original word at the
      routine pointer address. */
  function Reverted(data: seq<byte>): (r: seq<byte>)
    ensures |r| >= |data| && |r| >= NewFunctionPointerAddress + 4
  {
    Overwrite(Overwrite(data, FunctionPatchAddress, FunctionPatchOriginalBytes),
      NewFunctionPointerAddress, U32Bytes(MaxTileIndex))
  }

  /** Load from a payload start: skip the routine, align, skip 8 bytes, read a
      length and that many bytes. None when a read fails or the length is
      negative (the serializer throws). */
  function Loaded(data: seq<byte>, p: int): (r: Option<seq<byte>>)
    ensures r.Some? ==> 0 <= TablePointerOffset(p) + 12 && TablePointerOffset(p) + 12 + |r.value| <= |data|
  {
    var q := TablePointerOffset(p);
    match Slice(data, q + 8, 4)
    case None => None
    case Some(l) =>
      var length := ReadI32(l);
      if length < 0 then None else Slice(data, q + 12, length)
  }

  /** Load is the inverse of Apply: the widths read from a payload just
      written are the widths that were written. */
  lemma LoadAfterApply(data: seq<byte>, p: nat, widths: seq<byte>)
    requires |widths| < TwoTo31
    ensures Loaded(Applied(data, p, Some(widths)).data, p) == Some(widths)
  {
    var q := TablePointerOffset(p);
    var block := TableBlock(q, widths);
    var d := Overwrite(PatchedFixed(data, p), p, NewFunctionBytes);
    var w := Overwrite(d, q, block);
    SliceOfOverwrite(d, q, block);
    var h := TableHeader(q);
    var c := I32Bytes(|widths|);
    SliceSplit(w, q, h + c, widths);
    SliceSplit(w, q, h, c);
    I32RoundTrip(|widths|);
  }

  /** The payload end and the bytes Apply may change: the two fixed
      locations and the contiguous payload from p. */
  predicate InApplyFootprint(k: int, p: int, widthCount: nat) {
    FunctionPatchAddress <= k < FunctionPatchAddress + 8 ||
    NewFunctionPointerAddress <= k < NewFunctionPointerAddress + 4 ||
    p <= k < TablePointerOffset(p) + 12 + widthCount
  }

  /** Apply changes no byte outside the fixed locations and the payload. */
  lemma ApplyFootprint(data: seq<byte>, p: nat, widths: seq<byte>, k: int)
    requires 0 <= k < |data| && !InApplyFootprint(k, p, |widths|)
    ensures Applied(data, p, Some(widths)).data[k] == data[k]
  {
    var q := TablePointerOffset(p);
    var d0 := Overwrite(data, FunctionPatchAddress, FunctionPatchBytes);
    var d1 := PatchedFixed(data, p);
    var d := Overwrite(d1, p, NewFunctionBytes);
    OverwriteOutside(data, FunctionPatchAddress, FunctionPatchBytes, k);
    OverwriteOutside(d0, NewFunctionPointerAddress, U32Bytes(RomBase + p + 1), k);
    OverwriteOutside(d1, p, NewFunctionBytes, k);
    OverwriteOutside(d, q, TableBlock(q, widths), k);
  }

  /** A read of n bytes at j that the three later writes of Apply (routine
      pointer, routine, table block) do not touch. */
  lemma SliceKeptByApply(d0: seq<byte>, p: nat, widths: seq<byte>, j: int, n: nat)
    requires 0 <= j && j + n <= |d0|
    requires j + n <= NewFunctionPointerAddress || NewFunctionPointerAddress + 4 <= j
    requires j + n <= p
    ensures var q := TablePointerOffset(p);
      Slice(Overwrite(Overwrite(Overwrite(d0, NewFunctionPointerAddress, U32Bytes(RomBase + p + 1)), p, NewFunctionBytes), q, TableBlock(q, widths)), j, n)
      == Slice(d0, j, n)
  {
    var q := TablePointerOffset(p);
    var d1 := Overwrite(d0, NewFunctionPointerAddress, U32Bytes(RomBase + p + 1));
    var d := Overwrite(d1, p, NewFunctionBytes);
    SliceOutsideOverwrite(d0, NewFunctionPointerAddress, U32Bytes(RomBase + p + 1), j, n);
    SliceOutsideOverwrite(d1, p, NewFunctionBytes, j, n);
    SliceOutsideOverwrite(d, q, TableBlock(q, widths), j, n);
  }

  /** Apply leaves the replacement renderer bytes in place. */
  lemma RendererEdited(data: seq<byte>, p: nat, widths: seq<byte>)
    requires p >= NewFunctionPointerAddress + 4
    ensures Slice(Applied(data, p, Some(widths)).data, FunctionPatchAddress, 8) == Some(FunctionPatchBytes)
  {
    var d0 := Overwrite(data, FunctionPatchAddress, FunctionPatchBytes);
    SliceOfOverwrite(data, FunctionPatchAddress, FunctionPatchBytes);
    SliceKeptByApply(d0, p, widths, FunctionPatchAddress, 8);
  }

  /** Apply leaves payload start + 1 at the routine pointer address. */
  lemma RoutinePointerWritten(data: seq<byte>, p: nat, widths: seq<byte>)
    requires p >= NewFunctionPointerAddress + 4
    ensures Slice(Applied(data, p, Some(widths)).data, NewFunctionPointerAddress, 4) == Some(U32Bytes(RomBase + p + 1))
  {
    var q := TablePointerOffset(p);
    var d0 := Overwrite(data, FunctionPatchAddress, FunctionPatchBytes);
    var d1 := PatchedFixed(data, p);
    var d := Overwrite(d1, p, NewFunctionBytes);
    SliceOfOverwrite(d0, NewFunctionPointerAddress, U32Bytes(RomBase + p + 1));
    SliceOutsideOverwrite(d1, p, NewFunctionBytes, NewFunctionPointerAddress, 4);
    SliceOutsideOverwrite(d, q, TableBlock(q, widths), NewFunctionPointerAddress, 4);
  }

  /** Apply stores at the table pointer the ROM address of the first width. */
  lemma TablePointerWritten(data: seq<byte>, p: nat, widths: seq<byte>)
    ensures var q := TablePointerOffset(p);
      Slice(Applied(data, p, Some(widths)).data, q, 4) == Some(U32Bytes(RomPointer(q + 12).absolute))
  {
    var q := TablePointerOffset(p);
    var d := Overwrite(PatchedFixed(data, p), p, NewFunctionBytes);
    var a := U32Bytes(RomBase + q + 12);
    var rest := U32Bytes(MaxTileIndex) + I32Bytes(|widths|) + widths;
    assert TableBlock(q, widths) == a + rest;
    SliceOfOverwrite(d, q, a + rest);
    SliceSplit(Overwrite(d, q, a + rest), q, a, rest);
  }

  /** With the payload after the fixed locations, Apply leaves the
      replacement renderer bytes, payload start + 1 at the routine pointer
      address (odd, so Thumb code, for a payload at a multiple of 4 as in a
      save) and at the table pointer its own address + 12. */
  lemma ApplyFixedLocations(data: seq<byte>, p: nat, widths: seq<byte>)
    requires p >= NewFunctionPointerAddress + 4
    ensures var w := Applied(data, p, Some(widths)).data;
      Slice(w, FunctionPatchAddress, 8) == Some(FunctionPatchBytes) &&
      Slice(w, NewFunctionPointerAddress, 4) == Some(U32Bytes(RomBase + p + 1)) &&
      Slice(w, TablePointerOffset(p), 4) == Some(U32Bytes(RomPointer(TablePointerOffset(p) + 12).absolute))
    ensures p % 4 == 0 ==> (RomBase + p + 1) % 2 == 1
  {
    RendererEdited(data, p, widths);
    RoutinePointerWritten(data, p, widths);
    TablePointerWritten(data, p, widths);
    if p % 4 == 0 {
      ThumbAddress(p);
    }
  }

  /** A payload at a multiple of 4 gets an odd routine pointer. */
  lemma ThumbAddress(p: nat)
    requires p % 4 == 0
    ensures (RomBase + p + 1) % 2 == 1
  {
    var k := p / 4;
    assert p == 4 * k;
    OddSuccessor(0x0400_0000 + 2 * k);
  }

  lemma OddSuccessor(m: int)
    ensures (2 * m + 1) % 2 == 1
  {
  }

  /** Revert writes only the two fixed locations, restores their original
      contents and appends nothing to a ROM that already contains them. */
  lemma RevertFootprint(data: seq<byte>)
    requires |data| >= NewFunctionPointerAddress + 4
    ensures var r := Reverted(data);
      |r| == |data| &&
      Slice(r, FunctionPatchAddress, 8) == Some(FunctionPatchOriginalBytes) &&
      Slice(r, NewFunctionPointerAddress, 4) == Some(U32Bytes(MaxTileIndex)) &&
      forall k :: (0 <= k < |data| && !(FunctionPatchAddress <= k < FunctionPatchAddress + 8) &&
                   !(NewFunctionPointerAddress <= k < NewFunctionPointerAddress + 4)) ==> r[k] == data[k]
  {
    var d0 := Overwrite(data, FunctionPatchAddress, FunctionPatchOriginalBytes);
    OverwriteIndex(data, FunctionPatchAddress, FunctionPatchOriginalBytes);
    OverwriteIndex(d0, NewFunctionPointerAddress, U32Bytes(MaxTileIndex));
    SliceOfOverwrite(data, FunctionPatchAddress, FunctionPatchOriginalBytes);
    SliceOutsideOverwrite(d0, NewFunctionPointerAddress, U32Bytes(MaxTileIndex), FunctionPatchAddress, 8);
    SliceOfOverwrite(d0, NewFunctionPointerAddress, U32Bytes(MaxTileIndex));
  }

  /** The second half of Apply, from the aligned table pointer offset: the
      header, then, unless the width table is null (where the source throws),
      the length and the table. */
  method WriteTable(s: Stream, widths: Option<seq<byte>>) returns (faulted: bool)
    requires s.pos >= 0
    modifies s
    ensures faulted <==> widths.None?
    ensures faulted ==> s.data == Overwrite(old(s.data), old(s.pos), TableHeader(old(s.pos))) && s.pos == old(s.pos) + 8
    ensures !faulted ==> s.data == Overwrite(old(s.data), old(s.pos), TableBlock(old(s.pos), widths.value))
    ensures !faulted ==> s.pos == old(s.pos) + 12 + |widths.value|
  {
    ghost var d := s.data;
    var q := s.pos;
    var tablePointer := U32Bytes(RomBase + s.pos + 12);
    var maxTile := U32Bytes(MaxTileIndex);
    s.Write(tablePointer);
    s.Write(maxTile);
    OverwriteConcat(d, q, tablePointer, maxTile);
    if widths.None? {
      return true;
    }
    var w := widths.value;
    var length := I32Bytes(|w|);
    s.Write(length);
    OverwriteConcat(d, q, TableHeader(q), length);
    s.Write(w);
    OverwriteConcat(d, q, TableHeader(q) + length, w);
    faulted := false;
  }

  /** The patch object; its width table is null until loaded or set. */
  class Patch {
    var widths: Option<seq<byte>>

    constructor ()
      ensures widths.None?
    {
      widths := None;
    }

    method Apply(s: Stream) returns (faulted: bool)
      requires s.pos >= 0
      modifies s
      ensures var r := Applied(old(s.data), old(s.pos), widths);
        s.data == r.data && s.pos == r.pos && faulted == r.faulted
    {
      ghost var p := s.pos;
      ghost var d0 := s.data;
      var dataAddress := s.CurrentPointer();
      s.WriteAt(FunctionPatchAddress, FunctionPatchBytes);
      s.WriteAt(NewFunctionPointerAddress, U32Bytes(dataAddress.absolute + 1));
      assert s.data == PatchedFixed(d0, p);
      s.Write(NewFunctionBytes);
      s.Align();
      assert s.pos == TablePointerOffset(p);
      faulted := WriteTable(s, widths);
    }

    method Revert(s: Stream)
      modifies s`data
      ensures s.data == Reverted(old(s.data))
    {
      s.WriteAt(FunctionPatchAddress, FunctionPatchOriginalBytes);
      s.WriteAt(NewFunctionPointerAddress, U32Bytes(MaxTileIndex));
    }

    method Load(s: Stream) returns (faulted: bool)
      modifies this, s`pos
      ensures faulted <==> Loaded(s.data, old(s.pos)).None?
      ensures widths == if faulted then old(widths) else Loaded(s.data, old(s.pos))
    {
      ghost var q := TablePointerOffset(s.pos);
      s.Goto(s.pos + |NewFunctionBytes|);
      s.Align();
      s.Goto(s.pos + 8);
      assert s.pos == q + 8;
      var l := s.Read(4);
      if l.None? {
        return true;
      }
      var length := ReadI32(l.value);
      if length < 0 {
        return true;
      }
      assert s.pos == q + 12;
      var table := s.Read(length);
      if table.None? {
        return true;
      }
      widths := table;
      faulted := false;
    }
  }
}
