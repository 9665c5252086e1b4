/** A pending relocation: an object to be written again at the end of the
    ROM, the archive whose offset table must then point to the new copy,
    and the pointer the data had before it was first moved. */
module RelocatedData {
  import opened Wrappers
  import opened Binary
  import opened BinaryHelpers
  import opened PatchedFooter

  /** An archive's flat offset table: where the table starts, and one
      pointer per file (None for a null entry). Entry i is stored, relative
      to the archive, in the 4 bytes at table offset + 4 + 4 i. */
  datatype OffsetTable = OffsetTable(offset: Pointer, filePointers: seq<Option<Pointer>>)

  datatype ArchiveFile = ArchiveFile(offset: Pointer, offsetTable: OffsetTable)

  /** A serializable object of the game: where it currently is, and the
      bytes its serializer writes. */
  class SerializableObject {
    var offset: Pointer
    const image: seq<byte>

    constructor (offset: Pointer, image: seq<byte>)
      ensures this.offset == offset && this.image == image
    {
      this.offset := offset;
      this.image := image;
    }
  }

  /** The stream encoder (a compression scheme), treated as an opaque
      function from decoded to encoded bytes. */
  type Encoder = seq<byte> -> seq<byte>

  /** The record type RelocatedData. The origin pointer is present only for
      data that was already relocated by an earlier save. */
  datatype RelocatedData = RelocatedData(
    obj: SerializableObject,
    parentArchive: Option<ArchiveFile>,
    originPointer: Option<Pointer>,
    encoder: Option<Encoder>)
  {
    /** Relocated for the first time (not loaded from a footer). */
    predicate IsNewData() {
      originPointer.None?
    }

    /** Written through the encoder. */
    predicate IsCompressed() {
      encoder.Some?
    }
  }

  /** File offset of the table slot for entry i. */
  function SlotOffset(table: OffsetTable, i: nat): int {
    table.offset.FileOffset() + 4 + 4 * i
  }

  /** A table whose slots lie in the ROM at valid offsets. */
  predicate RomTable(table: OffsetTable) {
    table.offset.file == RomFile && table.offset.FileOffset() >= 0
  }

  /** The value a slot receives: the new location relative to the archive. */
  function SlotValue(archive: ArchiveFile, newPointer: Pointer): seq<byte> {
    U32Bytes(newPointer.absolute - archive.offset.absolute)
  }

  predicate Matches(table: OffsetTable, i: nat, original: Pointer)
    requires i < |table.filePointers|
  {
    table.filePointers[i] == Some(original)
  }

  /** The ROM after the reference update has visited the first n entries:
      every matching slot gets the new relative offset. */
  function UpdatedTable(data: seq<byte>, archive: ArchiveFile, original: Pointer, newPointer: Pointer, n: nat): (r: seq<byte>)
    requires RomTable(archive.offsetTable) && n <= |archive.offsetTable.filePointers|
    ensures |r| >= |data|
  {
    if n == 0 then data
    else
      var d := UpdatedTable(data, archive, original, newPointer, n - 1);
      if Matches(archive.offsetTable, n - 1, original) then
        Overwrite(d, SlotOffset(archive.offsetTable, n - 1), SlotValue(archive, newPointer))
      else d
  }

  /** How many of the first n entries hold the original pointer. */
  function MatchCount(table: OffsetTable, original: Pointer, n: nat): (c: nat)
    requires n <= |table.filePointers|
    ensures c <= n
  {
    if n == 0 then 0
    else MatchCount(table, original, n - 1) + (if Matches(table, n - 1, original) then 1 else 0)
  }

  /** Byte k lies in the slot of a matching entry below n. */
  predicate InMatchedSlot(table: OffsetTable, original: Pointer, n: nat, k: int)
    requires n <= |table.filePointers|
  {
    exists i :: 0 <= i < n && Matches(table, i, original) && SlotOffset(table, i) <= k < SlotOffset(table, i) + 4
  }

  /** Every matching entry's slot holds the new relative offset. */
  lemma {:induction false} MatchedSlotWritten(data: seq<byte>, archive: ArchiveFile, original: Pointer, newPointer: Pointer, n: nat, i: nat)
    requires RomTable(archive.offsetTable) && n <= |archive.offsetTable.filePointers|
    requires i < n && Matches(archive.offsetTable, i, original)
    ensures Slice(UpdatedTable(data, archive, original, newPointer, n), SlotOffset(archive.offsetTable, i), 4)
      == Some(SlotValue(archive, newPointer))
  {
    var table := archive.offsetTable;
    var d := UpdatedTable(data, archive, original, newPointer, n - 1);
    if i == n - 1 {
      SliceOfOverwrite(d, SlotOffset(table, i), SlotValue(archive, newPointer));
    } else {
      MatchedSlotWritten(data, archive, original, newPointer, n - 1, i);
      if Matches(table, n - 1, original) {
        SliceOutsideOverwrite(d, SlotOffset(table, n - 1), SlotValue(archive, newPointer), SlotOffset(table, i), 4);
      }
    }
  }

  /** Bytes outside the matching slots keep their value. */
  lemma {:induction false} OtherBytesKept(data: seq<byte>, archive: ArchiveFile, original: Pointer, newPointer: Pointer, n: nat, k: int)
    requires RomTable(archive.offsetTable) && n <= |archive.offsetTable.filePointers|
    requires 0 <= k < |data| && !InMatchedSlot(archive.offsetTable, original, n, k)
    ensures UpdatedTable(data, archive, original, newPointer, n)[k] == data[k]
  {
    if n > 0 {
      var table := archive.offsetTable;
      assert !InMatchedSlot(table, original, n - 1, k);
      OtherBytesKept(data, archive, original, newPointer, n - 1, k);
      if Matches(table, n - 1, original) {
        assert !(SlotOffset(table, n - 1) <= k < SlotOffset(table, n - 1) + 4);
        OverwriteIndex(UpdatedTable(data, archive, original, newPointer, n - 1), SlotOffset(table, n - 1), SlotValue(archive, newPointer));
      }
    }
  }

  /** No matching entry: the ROM is left as it was (the source only logs a
      count of zero). */
  lemma {:induction false} NoMatchNoChange(data: seq<byte>, archive: ArchiveFile, original: Pointer, newPointer: Pointer, n: nat)
    requires RomTable(archive.offsetTable) && n <= |archive.offsetTable.filePointers|
    requires MatchCount(archive.offsetTable, original, n) == 0
    ensures UpdatedTable(data, archive, original, newPointer, n) == data
  {
    if n > 0 {
      NoMatchNoChange(data, archive, original, newPointer, n - 1);
    }
  }

  /** UpdateRefsAction: rewrites, through DoAt so that the append cursor
      stays where it is, every slot whose entry is the original pointer, and
      returns how many it rewrote. */
  method UpdateRefs(s: Stream, archive: ArchiveFile, original: Pointer, newPointer: Pointer) returns (count: nat)
    requires RomTable(archive.offsetTable)
    modifies s`data
    ensures s.data == UpdatedTable(old(s.data), archive, original, newPointer, |archive.offsetTable.filePointers|)
    ensures count == MatchCount(archive.offsetTable, original, |archive.offsetTable.filePointers|)
  {
    var table := archive.offsetTable;
    ghost var d0 := s.data;
    count := 0;
    var fileIndex := 0;
    while fileIndex < |table.filePointers|
      invariant 0 <= fileIndex <= |table.filePointers|
      invariant s.data == UpdatedTable(d0, archive, original, newPointer, fileIndex)
      invariant count == MatchCount(table, original, fileIndex)
    {
      if table.filePointers[fileIndex] != Some(original) {
        fileIndex := fileIndex + 1;
        continue;
      }
      s.WriteAt(SlotOffset(table, fileIndex), U32Bytes(newPointer.absolute - archive.offset.absolute));
      count := count + 1;
      fileIndex := fileIndex + 1;
    }
  }

  /** The bytes the object occupies once written: its own bytes, or their
      encoding when the data has an encoder. */
  function WrittenBytes(image: seq<byte>, encoder: Option<Encoder>): seq<byte> {
    match encoder
    case None => image
    case Some(encode) => encode(image)
  }

  /** Where the object says it is after the write: the new pointer, or the
      start of the temporary decoded stream whose parent is the new pointer. */
  function RelocatedOffset(newPointer: Pointer, encoder: Option<Encoder>, key: nat): (p: Pointer)
    requires newPointer.file == RomFile
    ensures GetRomPointer(p) == newPointer
  {
    if encoder.Some? then Pointer(VirtualFile(key, newPointer), 0) else newPointer
  }

  /** Relocate as a function of the values it reads: the record it returns
      (None when the parent archive is null and the reference update throws),
      and the stream afterwards. */
  datatype Relocation = Relocation(record: Option<RelocatedStruct>, data: seq<byte>, pos: int)

  function Relocated(data: seq<byte>, pos: nat, objOffset: Pointer, image: seq<byte>, parentArchive: Option<ArchiveFile>,
                     originPointer: Option<Pointer>, encoder: Option<Encoder>): (r: Relocation)
    requires parentArchive.Some? ==> RomTable(parentArchive.value.offsetTable)
    ensures r.pos == pos + |WrittenBytes(image, encoder)|
    ensures r.record.Some? <==> parentArchive.Some?
    ensures r.record.Some? ==>
      r.record.value.newPointer == RomPointer(pos) &&
      r.record.value.dataSize == ToU32(|WrittenBytes(image, encoder)|) &&
      r.record.value.originalPointer == (if originPointer.Some? then originPointer.value else GetRomPointer(objOffset)) &&
      r.record.value.parentArchivePointer == Some(parentArchive.value.offset)
  {
    var newPointer := RomPointer(pos);
    var original := GetRomPointer(objOffset);
    var written := Overwrite(data, pos, WrittenBytes(image, encoder));
    var end := pos + |WrittenBytes(image, encoder)|;
    match parentArchive
    case None => Relocation(None, written, end)
    case Some(archive) =>
      var updated := UpdatedTable(written, archive, original, newPointer, |archive.offsetTable.filePointers|);
      Relocation(Some(RelocatedStruct(originPointer.GetOr(original), newPointer, Some(archive.offset), ToU32(end - pos))), updated, end)
  }

  /** Relocate: writes the object at the cursor (through the encoder when it
      has one), re-homes the object there, points the parent archive's table
      at it, and returns the footer record. */
  method Relocate(d: RelocatedData, s: Stream, key: nat) returns (record: Option<RelocatedStruct>)
    requires s.pos >= 0
    requires d.parentArchive.Some? ==> RomTable(d.parentArchive.value.offsetTable)
    modifies s, d.obj
    ensures var r := Relocated(old(s.data), old(s.pos), old(d.obj.offset), d.obj.image, d.parentArchive, d.originPointer, d.encoder);
      record == r.record && s.data == r.data && s.pos == r.pos
    ensures d.obj.offset == RelocatedOffset(RomPointer(old(s.pos)), d.encoder, key)
  {
    var newPointer := s.CurrentPointer();
    var original := GetRomPointer(d.obj.offset);
    var start := s.pos;
    if d.IsCompressed() {
      d.obj.offset := Pointer(VirtualFile(key, newPointer), 0);
      s.Write(d.encoder.value(d.obj.image));
    } else {
      d.obj.offset := newPointer;
      s.Write(d.obj.image);
    }
    var dataSize := ToU32(s.pos - start);
    if d.parentArchive.None? {
      return None;
    }
    var archive := d.parentArchive.value;
    var count := UpdateRefs(s, archive, original, newPointer);
    record := Some(RelocatedStruct(d.originPointer.GetOr(original), newPointer, Some(archive.offset), dataSize));
  }
}
