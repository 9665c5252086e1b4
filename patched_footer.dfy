/** The patch footer appended to a saved ROM: the body ("EDIT", version,
    record count, 12-byte relocation records) and the 12-byte trailer at the
    end of the file (footer start offset as int64, "EDIT") from which a later
    load finds the body again. Reading and writing share one routine in the
    source; here each direction is a pure function over the bytes and a
    method of the Footer class that moves the cursor step by step. */
module PatchedFooter {
  import opened Wrappers
  import opened Binary

  const CurrentEditorVersion: int := 1
  const MaxRelocatedStructs: int := 9999
  const RecordSize: nat := 12
  const TrailerSize: nat := 12

  /** One relocation: where the data was, where it is now, the archive whose
      offset table points to it, and how many bytes were written. The parent
      archive pointer is kept in memory only: the version 1 record does not
      store it, so a record read from a file has none. */
  datatype RelocatedStruct = RelocatedStruct(
    originalPointer: Pointer,
    newPointer: Pointer,
    parentArchivePointer: Option<Pointer>,
    dataSize: nat)

  /** What a save records for an applied patch: its ID, where its payload
      starts and how many bytes it appended. Kept in memory only: the
      version 1 footer does not store it. */
  datatype PatchData = PatchData(id: string, dataPointer: Pointer, dataSize: nat)

  /** The fields of a PatchedFooter object. */
  datatype FooterState = FooterState(
    editorVersion: int,
    relocatedStructsCount: int,
    relocatedStructs: seq<RelocatedStruct>,
    patchDatas: seq<PatchData>)

  /** A new footer: version 1, no records. */
  const Default: FooterState := FooterState(CurrentEditorVersion, 0, [], [])

  /** A parse: the footer's fields afterwards, and whether a read ran past the
      end of the file (the serializer throws there). */
  datatype ReadResult = ReadResult(footer: FooterState, faulted: bool)

  /** A write: the footer's fields and the file afterwards, the cursor, and
      whether the trailer position was before the start of the file. */
  datatype WriteResult = WriteResult(footer: FooterState, data: seq<byte>, pos: int, faulted: bool)

  /** A record as stored: two 32-bit ROM pointers and a uint32 size. */
  function EncodeRecord(r: RelocatedStruct): (b: seq<byte>)
    ensures |b| == RecordSize
  {
    U32Bytes(r.originalPointer.absolute) + U32Bytes(r.newPointer.absolute) + U32Bytes(r.dataSize)
  }

  /** A record read back: pointers resolve into the ROM, no parent archive. */
  function DecodeRecord(b: seq<byte>): (r: RelocatedStruct)
    requires |b| == RecordSize
    ensures r.originalPointer.file == RomFile && r.newPointer.file == RomFile
    ensures r.parentArchivePointer.None? && r.dataSize < TwoTo32
  {
    RelocatedStruct(
      Pointer(RomFile, ReadU32(b[..4])),
      Pointer(RomFile, ReadU32(b[4..8])),
      None,
      ReadU32(b[8..]))
  }

  /** The values a record can hold without wrapping. */
  predicate Encodable(r: RelocatedStruct) {
    0 <= r.originalPointer.absolute < TwoTo32 &&
    0 <= r.newPointer.absolute < TwoTo32 &&
    r.dataSize < TwoTo32
  }

  /** What of a record survives a write and a read. */
  function Stored(r: RelocatedStruct): RelocatedStruct {
    RelocatedStruct(Pointer(RomFile, r.originalPointer.absolute), Pointer(RomFile, r.newPointer.absolute), None, r.dataSize)
  }

  function StoredAll(rs: seq<RelocatedStruct>): (r: seq<RelocatedStruct>)
    ensures |r| == |rs| && forall i :: 0 <= i < |rs| ==> r[i] == Stored(rs[i])
  {
    if rs == [] then [] else StoredAll(rs[..|rs| - 1]) + [Stored(rs[|rs| - 1])]
  }

  lemma RecordRoundTrip(r: RelocatedStruct)
    requires Encodable(r)
    ensures DecodeRecord(EncodeRecord(r)) == Stored(r)
  {
    var b := EncodeRecord(r);
    assert b[..4] == U32Bytes(r.originalPointer.absolute);
    assert b[4..8] == U32Bytes(r.newPointer.absolute);
    assert b[8..] == U32Bytes(r.dataSize);
    U32RoundTrip(r.originalPointer.absolute);
    U32RoundTrip(r.newPointer.absolute);
    U32RoundTrip(r.dataSize);
  }

  function EncodeRecords(rs: seq<RelocatedStruct>): (b: seq<byte>)
    ensures |b| == 12 * |rs|
  {
    if rs == [] then [] else EncodeRecords(rs[..|rs| - 1]) + EncodeRecord(rs[|rs| - 1])
  }

  /** Reads n records one after the other from at; None when one of them
      runs past the end of the file. */
  function ReadRecords(data: seq<byte>, at: int, n: nat): (r: Option<seq<RelocatedStruct>>)
    ensures r.Some? <==> n == 0 || (0 <= at && at + 12 * n <= |data|)
    ensures r.Some? ==> |r.value| == n
  {
    if n == 0 then Some([])
    else
      match ReadRecords(data, at, n - 1)
      case None => None
      case Some(rs) =>
        match Slice(data, at + 12 * (n - 1), RecordSize)
        case None => None
        case Some(b) => Some(rs + [DecodeRecord(b)])
  }

  lemma {:induction false} RecordsRoundTrip(data: seq<byte>, at: int, rs: seq<RelocatedStruct>)
    requires forall i :: 0 <= i < |rs| ==> Encodable(rs[i])
    requires Slice(data, at, 12 * |rs|) == Some(EncodeRecords(rs))
    ensures ReadRecords(data, at, |rs|) == Some(StoredAll(rs))
  {
    if rs != [] {
      var n := |rs|;
      var init := rs[..n - 1];
      SliceSplit(data, at, EncodeRecords(init), EncodeRecord(rs[n - 1]));
      RecordsRoundTrip(data, at, init);
      RecordRoundTrip(rs[n - 1]);
    }
  }

  /** Parses the footer body at file offset at into f, as SerializeImpl does
      in read mode: stop on a wrong magic, reset an unknown version to 1 and
      stop, stop on a count outside [0, 9999], otherwise read the records and
      the trailer. */
  function ReadBody(data: seq<byte>, at: int, f: FooterState): (r: ReadResult)
    ensures r.footer.patchDatas == f.patchDatas
    ensures r.footer.editorVersion == f.editorVersion || r.footer.editorVersion == CurrentEditorVersion
    ensures r.footer.relocatedStructs == f.relocatedStructs ||
      |r.footer.relocatedStructs| == r.footer.relocatedStructsCount <= MaxRelocatedStructs
  {
    match Slice(data, at, 4)
    case None => ReadResult(f, true)
    case Some(magic) =>
      if magic != Magic then ReadResult(f, false)
      else
        match Slice(data, at + 4, 4)
        case None => ReadResult(f, true)
        case Some(v) =>
          var version := ReadI32(v);
          if version != CurrentEditorVersion then
            ReadResult(f.(editorVersion := CurrentEditorVersion), false)
          else
            var f1 := f.(editorVersion := version);
            match Slice(data, at + 8, 4)
            case None => ReadResult(f1, true)
            case Some(c) =>
              var count := ReadI32(c);
              var f2 := f1.(relocatedStructsCount := count);
              if count < 0 || count > MaxRelocatedStructs then ReadResult(f2, false)
              else
                match ReadRecords(data, at + 12, count)
                case None => ReadResult(f2, true)
                case Some(rs) => ReadResult(f2.(relocatedStructs := rs), |data| < TrailerSize)
  }

  /** What a parse can do to the footer: nothing on a wrong magic; a
      changed footer that did not fault has version 1; new records come with
      a count in [0, 9999] equal to their number; the patch list is never
      touched. */
  lemma ReadBodyOutcomes(data: seq<byte>, at: int, f: FooterState)
    ensures var r := ReadBody(data, at, f);
      (Slice(data, at, 4).Some? && Slice(data, at, 4) != Some(Magic) ==> r == ReadResult(f, false)) &&
      (!r.faulted && r.footer != f ==> r.footer.editorVersion == CurrentEditorVersion) &&
      (r.footer.relocatedStructs != f.relocatedStructs ==>
        0 <= r.footer.relocatedStructsCount <= MaxRelocatedStructs &&
        |r.footer.relocatedStructs| == r.footer.relocatedStructsCount) &&
      r.footer.patchDatas == f.patchDatas
  {
  }

  /** Finds and parses the footer from the end of the file: nothing happens
      unless the last 4 bytes are "EDIT" and the stored start offset lies
      strictly between 0 and length - 12. */
  function ReadFromEnd(data: seq<byte>, f: FooterState): (r: ReadResult)
    ensures r.footer.patchDatas == f.patchDatas
    ensures r.footer.relocatedStructs == f.relocatedStructs ||
      |r.footer.relocatedStructs| == r.footer.relocatedStructsCount <= MaxRelocatedStructs
    ensures |data| < TrailerSize && Slice(data, |data| - 4, 4) == Some(Magic) ==> r.faulted
  {
    match Slice(data, |data| - 4, 4)
    case None => ReadResult(f, true)
    case Some(magic) =>
      if magic != Magic then ReadResult(f, false)
      else
        match Slice(data, |data| - 12, 8)
        case None => ReadResult(f, true)
        case Some(o) =>
          var footerOffset := ReadI64(o);
          if footerOffset >= |data| - 12 || footerOffset <= 0 then ReadResult(f, false)
          else ReadBody(data, footerOffset, f)
  }

  /** Nothing happens without "EDIT" at the very end or with a stored
      offset outside (0, length - 12), and the patch list is never touched. */
  lemma ReadFromEndGuards(data: seq<byte>, f: FooterState)
    ensures var r := ReadFromEnd(data, f);
      (Slice(data, |data| - 4, 4).Some? && Slice(data, |data| - 4, 4) != Some(Magic) ==> r == ReadResult(f, false)) &&
      (|data| >= TrailerSize && !(0 < ReadI64(data[|data| - 12..|data| - 4]) < |data| - 12) ==> r.footer == f) &&
      r.footer.patchDatas == f.patchDatas
  {
    if |data| >= TrailerSize {
      ReadBodyOutcomes(data, ReadI64(data[|data| - 12..|data| - 4]), f);
    }
  }

  /** The bytes of a version 1 body with all its records. */
  function BodyBytes(f: FooterState): (b: seq<byte>)
    ensures |b| == 12 + 12 * |f.relocatedStructs|
  {
    Magic + I32Bytes(f.editorVersion) + I32Bytes(f.relocatedStructsCount) + EncodeRecords(f.relocatedStructs)
  }

  /** The trailer for a body starting at file offset at. */
  function TrailerBytes(at: int): (b: seq<byte>)
    ensures |b| == TrailerSize
  {
    I64Bytes(at) + Magic
  }

  /** A count the writer accepts is the number of records it writes. */
  predicate CountMatches(f: FooterState) {
    0 <= f.relocatedStructsCount <= MaxRelocatedStructs ==> f.relocatedStructsCount == |f.relocatedStructs|
  }

  /** SerializeImpl in write mode at file offset at, where length is the
      stream length the serializer reports when it positions the trailer. */
  function WriteFooter(data: seq<byte>, at: nat, f: FooterState, length: int): (r: WriteResult)
    requires CountMatches(f)
    ensures |r.data| >= |data| && r.footer.editorVersion == CurrentEditorVersion
    ensures r.footer.patchDatas == f.patchDatas && r.footer.relocatedStructs == f.relocatedStructs
  {
    var d1 := Overwrite(data, at, Magic + I32Bytes(f.editorVersion));
    if f.editorVersion != CurrentEditorVersion then
      WriteResult(f.(editorVersion := CurrentEditorVersion), d1, at + 8, false)
    else
      WriteCounted(d1, at, f, length)
  }

  /** The part of the write after a current version: count, records, trailer. */
  function WriteCounted(d1: seq<byte>, at: nat, f: FooterState, length: int): (r: WriteResult)
    requires CountMatches(f)
    ensures |r.data| >= |d1| && r.footer == f
    ensures r.faulted <==> 0 <= f.relocatedStructsCount <= MaxRelocatedStructs && length < TrailerSize
  {
    var d2 := Overwrite(d1, at + 8, I32Bytes(f.relocatedStructsCount));
    if f.relocatedStructsCount < 0 || f.relocatedStructsCount > MaxRelocatedStructs then
      WriteResult(f, d2, at + 12, false)
    else
      var d3 := Overwrite(d2, at + 12, EncodeRecords(f.relocatedStructs));
      if length < TrailerSize then
        WriteResult(f, d3, at + 12 + 12 * |f.relocatedStructs|, true)
      else
        WriteResult(f, Overwrite(d3, length - 12, TrailerBytes(at)), length, false)
  }

  /** An unknown version is replaced by 1 and nothing more is written; a
      version 1 write with a valid count faults exactly when the reported
      length leaves no room for the trailer, and otherwise ends with the
      trailer as the last 12 bytes of that length and the cursor there. */
  lemma WriteFooterOutcome(data: seq<byte>, at: nat, f: FooterState, length: int)
    requires CountMatches(f)
    ensures var r := WriteFooter(data, at, f, length);
      (f.editorVersion != CurrentEditorVersion ==> r.footer.editorVersion == CurrentEditorVersion && !r.faulted) &&
      (f.editorVersion == CurrentEditorVersion ==> r.footer == f) &&
      (r.faulted <==> f.editorVersion == CurrentEditorVersion && 0 <= f.relocatedStructsCount <= MaxRelocatedStructs && length < TrailerSize) &&
      (!r.faulted && f.editorVersion == CurrentEditorVersion && 0 <= f.relocatedStructsCount <= MaxRelocatedStructs ==>
        r.pos == length && Slice(r.data, length - 12, 12) == Some(TrailerBytes(at)))
  {
    var d1 := Overwrite(data, at, Magic + I32Bytes(f.editorVersion));
    var d2 := Overwrite(d1, at + 8, I32Bytes(f.relocatedStructsCount));
    var d3 := Overwrite(d2, at + 12, EncodeRecords(f.relocatedStructs));
    if length >= TrailerSize {
      SliceOfOverwrite(d3, length - 12, TrailerBytes(at));
    }
  }

  lemma WrittenBody(data: seq<byte>, at: nat, f: FooterState, length: int)
    requires f.editorVersion == CurrentEditorVersion && 0 <= f.relocatedStructsCount <= MaxRelocatedStructs
    requires CountMatches(f) && length >= TrailerSize
    ensures WriteFooter(data, at, f, length).data ==
      Overwrite(Overwrite(data, at, BodyBytes(f)), length - 12, TrailerBytes(at))
  {
    var a := Magic + I32Bytes(f.editorVersion);
    var b := I32Bytes(f.relocatedStructsCount);
    var c := EncodeRecords(f.relocatedStructs);
    var d1 := Overwrite(data, at, a);
    var d3 := Overwrite(Overwrite(d1, at + 8, b), at + 12, c);
    assert WriteCounted(d1, at, f, length).data == Overwrite(d3, length - 12, TrailerBytes(at));
    assert WriteFooter(data, at, f, length).data == WriteCounted(d1, at, f, length).data;
    OverwriteConcat(data, at, a, b);
    OverwriteConcat(data, at, a + b, c);
    assert a + b + c == BodyBytes(f);
  }

  /** Written body bytes read back as the records they encode. */
  lemma ReadWrittenBody(w: seq<byte>, at: int, f: FooterState, g: FooterState)
    requires f.editorVersion == CurrentEditorVersion && f.relocatedStructsCount == |f.relocatedStructs| <= MaxRelocatedStructs
    requires forall i :: 0 <= i < |f.relocatedStructs| ==> Encodable(f.relocatedStructs[i])
    requires |w| >= TrailerSize && Slice(w, at, |BodyBytes(f)|) == Some(BodyBytes(f))
    ensures ReadBody(w, at, g) ==
      ReadResult(FooterState(CurrentEditorVersion, |f.relocatedStructs|, StoredAll(f.relocatedStructs), g.patchDatas), false)
  {
    var n := |f.relocatedStructs|;
    var b := I32Bytes(1);
    var c := I32Bytes(n);
    var d := EncodeRecords(f.relocatedStructs);
    SliceSplit(w, at, Magic + b + c, d);
    SliceSplit(w, at, Magic + b, c);
    SliceSplit(w, at, Magic, b);
    I32RoundTrip(1);
    I32RoundTrip(n);
    RecordsRoundTrip(w, at + 12, f.relocatedStructs);
  }

  /** A version 1 footer written at a positive offset, whose trailer does not
      overlap its body and ends the file, reads back with the same version,
      count and records. */
  lemma {:induction false} FooterRoundTrip(data: seq<byte>, at: nat, f: FooterState, length: int, g: FooterState)
    requires f.editorVersion == CurrentEditorVersion && f.relocatedStructsCount == |f.relocatedStructs| <= MaxRelocatedStructs
    requires forall i :: 0 <= i < |f.relocatedStructs| ==> Encodable(f.relocatedStructs[i])
    requires 0 < at && at + 12 + 12 * |f.relocatedStructs| <= length - TrailerSize
    requires |data| <= length < TwoTo63
    ensures ReadFromEnd(WriteFooter(data, at, f, length).data, g) ==
      ReadResult(FooterState(CurrentEditorVersion, |f.relocatedStructs|, StoredAll(f.relocatedStructs), g.patchDatas), false)
  {
    var w := WriteFooter(data, at, f, length).data;
    WrittenBody(data, at, f, length);
    WrittenFooterSlices(data, at, BodyBytes(f), length, TrailerBytes(at));
    ReadBack(w, at, f, g);
  }

  /** A file holding a version 1 body at a positive offset and, in its last
      12 bytes, the trailer for that offset reads back as that body. */
  lemma ReadBack(w: seq<byte>, at: int, f: FooterState, g: FooterState)
    requires f.editorVersion == CurrentEditorVersion && f.relocatedStructsCount == |f.relocatedStructs| <= MaxRelocatedStructs
    requires forall i :: 0 <= i < |f.relocatedStructs| ==> Encodable(f.relocatedStructs[i])
    requires 0 < at < |w| - TrailerSize && at < TwoTo63
    requires Slice(w, at, |BodyBytes(f)|) == Some(BodyBytes(f)) && Slice(w, |w| - 12, 12) == Some(TrailerBytes(at))
    ensures ReadFromEnd(w, g) ==
      ReadResult(FooterState(CurrentEditorVersion, |f.relocatedStructs|, StoredAll(f.relocatedStructs), g.patchDatas), false)
  {
    ReadWrittenBody(w, at, f, g);
    FollowTrailer(w, at, g);
  }

  /** Where a body and then its trailer were written, both read back. */
  lemma WrittenFooterSlices(data: seq<byte>, at: nat, body: seq<byte>, length: int, trailer: seq<byte>)
    requires at + |body| <= length - 12 && |data| <= length && |trailer| == 12 && body != []
    ensures var w := Overwrite(Overwrite(data, at, body), length - 12, trailer);
      |w| == length && Slice(w, at, |body|) == Some(body) && Slice(w, |w| - 12, 12) == Some(trailer)
  {
    var d3 := Overwrite(data, at, body);
    SliceOfOverwrite(d3, length - 12, trailer);
    SliceOfOverwrite(data, at, body);
    SliceOutsideOverwrite(d3, length - 12, trailer, at, |body|);
  }

  /** A valid trailer leads the reader to the body it names. */
  lemma FollowTrailer(w: seq<byte>, at: int, g: FooterState)
    requires 0 < at < |w| - TrailerSize && at < TwoTo63
    requires Slice(w, |w| - 12, 12) == Some(TrailerBytes(at))
    ensures ReadFromEnd(w, g) == ReadBody(w, at, g)
  {
    SliceSplit(w, |w| - 12, I64Bytes(at), Magic);
    I64RoundTrip(at);
  }

  /** Without room reserved for the trailer, a footer with no records whose
      trailer is placed at the end of its own body overwrites that body, and
      the stored offset then fails the range check: nothing is read back. */
  lemma TrailerOverBody(data: seq<byte>, at: nat, f: FooterState, g: FooterState)
    requires f.editorVersion == CurrentEditorVersion && f.relocatedStructsCount == 0 && f.relocatedStructs == []
    requires 0 < at && |data| <= at + 12 && at < TwoTo63
    ensures ReadFromEnd(WriteFooter(data, at, f, at + 12).data, g) == ReadResult(g, false)
  {
    var body := BodyBytes(f);
    var trailer := TrailerBytes(at);
    var d3 := Overwrite(data, at, body);
    var w := Overwrite(d3, at, trailer);
    WrittenBody(data, at, f, at + 12);
    assert |w| == at + 12;
    SliceOfOverwrite(d3, at, trailer);
    SliceSplit(w, at, I64Bytes(at), Magic);
    I64RoundTrip(at);
  }

  /** The same placement with records: the body is the last thing written,
      so the trailer lands on the last record. The trailer still leads the
      reader to the body, which then yields the right count, the first n - 1
      records, and as the last record the trailer bytes themselves, whose
      size field is "EDIT" read as a little-endian uint32. The last record is
      lost unless its size happened to be that value. */
  lemma TrailerOverLastRecord(data: seq<byte>, at: nat, f: FooterState, g: FooterState)
    requires f.editorVersion == CurrentEditorVersion && f.relocatedStructsCount == |f.relocatedStructs|
    requires 1 <= |f.relocatedStructs| <= MaxRelocatedStructs
    requires forall i :: 0 <= i < |f.relocatedStructs| ==> Encodable(f.relocatedStructs[i])
    requires 0 < at && |data| <= at + |BodyBytes(f)| < TwoTo63
    ensures var rs := f.relocatedStructs;
      var n := |rs|;
      var w := WriteFooter(data, at, f, at + |BodyBytes(f)|).data;
      var r := ReadFromEnd(w, g);
      |w| == at + |BodyBytes(f)| &&
      r == ReadResult(FooterState(CurrentEditorVersion, n, StoredAll(rs[..n - 1]) + [DecodeRecord(TrailerBytes(at))], g.patchDatas), false) &&
      DecodeRecord(TrailerBytes(at)).dataSize == 0x54494445 &&
      (rs[n - 1].dataSize != 0x54494445 ==> r.footer.relocatedStructs != StoredAll(rs))
  {
    var rs := f.relocatedStructs;
    var n := |rs|;
    var w := WriteFooter(data, at, f, at + |BodyBytes(f)|).data;
    LastRecordOverwritten(data, at, f);
    ReadOverwrittenBody(w, at, f.(relocatedStructs := rs[..n - 1]), g);
    FollowTrailer(w, at, g);
    TrailerSizeField(at);
  }

  /** The bytes such a write leaves: the body without its last record (but
      with the full count), and the trailer in that record's place at the end
      of the file. */
  lemma LastRecordOverwritten(data: seq<byte>, at: nat, f: FooterState)
    requires f.editorVersion == CurrentEditorVersion && f.relocatedStructsCount == |f.relocatedStructs|
    requires 1 <= |f.relocatedStructs| <= MaxRelocatedStructs
    requires |data| <= at + |BodyBytes(f)|
    ensures var h := f.(relocatedStructs := f.relocatedStructs[..|f.relocatedStructs| - 1]);
      var w := WriteFooter(data, at, f, at + |BodyBytes(f)|).data;
      |w| == at + |BodyBytes(f)| && |w| - 12 == at + |BodyBytes(h)| &&
      Slice(w, at, |BodyBytes(h)|) == Some(BodyBytes(h)) && Slice(w, |w| - 12, 12) == Some(TrailerBytes(at))
  {
    var rs := f.relocatedStructs;
    var h := f.(relocatedStructs := rs[..|rs| - 1]);
    BodyOfInit(f);
    WrittenBody(data, at, f, at + |BodyBytes(f)|);
    OverwriteLastPart(data, at, BodyBytes(h), EncodeRecord(rs[|rs| - 1]), TrailerBytes(at));
  }

  /** A body is the body without its last record, then that record. */
  lemma BodyOfInit(f: FooterState)
    requires f.relocatedStructs != []
    ensures var rs := f.relocatedStructs;
      BodyBytes(f) == BodyBytes(f.(relocatedStructs := rs[..|rs| - 1])) + EncodeRecord(rs[|rs| - 1])
  {
  }

  /** Bytes written over the last part of what was just written. */
  lemma OverwriteLastPart(data: seq<byte>, at: nat, prefix: seq<byte>, last: seq<byte>, over: seq<byte>)
    requires |last| == |over| > 0 && |data| <= at + |prefix| + |last|
    ensures var w := Overwrite(Overwrite(data, at, prefix + last), at + |prefix|, over);
      |w| == at + |prefix| + |last| &&
      Slice(w, at, |prefix|) == Some(prefix) && Slice(w, at + |prefix|, |over|) == Some(over)
  {
    var d := Overwrite(data, at, prefix + last);
    SliceOfOverwrite(data, at, prefix + last);
    SliceSplit(d, at, prefix, last);
    SliceOutsideOverwrite(d, at + |prefix|, over, at, |prefix|);
    SliceOfOverwrite(d, at + |prefix|, over);
  }

  /** A body whose last record was replaced by the trailer reads back with
      the full count and the trailer decoded as its last record: h is the
      footer as written, without that last record. */
  lemma ReadOverwrittenBody(w: seq<byte>, at: int, h: FooterState, g: FooterState)
    requires h.editorVersion == CurrentEditorVersion && h.relocatedStructsCount == |h.relocatedStructs| + 1 <= MaxRelocatedStructs
    requires forall i :: 0 <= i < |h.relocatedStructs| ==> Encodable(h.relocatedStructs[i])
    requires Slice(w, at, |BodyBytes(h)|) == Some(BodyBytes(h))
    requires Slice(w, at + |BodyBytes(h)|, 12) == Some(TrailerBytes(at))
    requires |w| >= TrailerSize
    ensures ReadBody(w, at, g) ==
      ReadResult(FooterState(CurrentEditorVersion, h.relocatedStructsCount,
        StoredAll(h.relocatedStructs) + [DecodeRecord(TrailerBytes(at))], g.patchDatas), false)
  {
    BodyFields(w, at, h);
    I32RoundTrip(1);
    I32RoundTrip(h.relocatedStructsCount);
    ReadRecordsThen(w, at + 12, h.relocatedStructs, TrailerBytes(at));
  }

  /** The fields of a body found in the file, one slice each. */
  lemma BodyFields(w: seq<byte>, at: int, h: FooterState)
    requires Slice(w, at, |BodyBytes(h)|) == Some(BodyBytes(h))
    ensures Slice(w, at, 4) == Some(Magic) && Slice(w, at + 4, 4) == Some(I32Bytes(h.editorVersion))
    ensures Slice(w, at + 8, 4) == Some(I32Bytes(h.relocatedStructsCount))
    ensures Slice(w, at + 12, 12 * |h.relocatedStructs|) == Some(EncodeRecords(h.relocatedStructs))
  {
    var b := I32Bytes(h.editorVersion);
    var c := I32Bytes(h.relocatedStructsCount);
    SliceSplit(w, at, Magic + b + c, EncodeRecords(h.relocatedStructs));
    SliceSplit(w, at, Magic + b, c);
    SliceSplit(w, at, Magic, b);
  }

  /** Encoded records followed by any 12 bytes read as those records and the
      decoding of those bytes. */
  lemma ReadRecordsThen(w: seq<byte>, at: int, init: seq<RelocatedStruct>, last: seq<byte>)
    requires forall i :: 0 <= i < |init| ==> Encodable(init[i])
    requires |last| == RecordSize
    requires Slice(w, at, 12 * |init|) == Some(EncodeRecords(init)) && Slice(w, at + 12 * |init|, 12) == Some(last)
    ensures ReadRecords(w, at, |init| + 1) == Some(StoredAll(init) + [DecodeRecord(last)])
  {
    RecordsRoundTrip(w, at, init);
  }

  /** The size field of a trailer read as a record is "EDIT" as a uint32. */
  lemma TrailerSizeField(at: int)
    ensures DecodeRecord(TrailerBytes(at)).dataSize == 0x54494445
  {
    assert TrailerBytes(at)[8..] == Magic;
    assert ReadU32(Magic) == 0x54494445;
  }

  /** The footer object and its fields, read and written through a stream. */
  class Footer {
    var editorVersion: int
    var relocatedStructsCount: int
    var relocatedStructs: seq<RelocatedStruct>
    var patchDatas: seq<PatchData>

    constructor ()
      ensures State() == Default
    {
      editorVersion := CurrentEditorVersion;
      relocatedStructsCount := 0;
      relocatedStructs := [];
      patchDatas := [];
    }

    function State(): FooterState
      reads this
    {
      FooterState(editorVersion, relocatedStructsCount, relocatedStructs, patchDatas)
    }

    /** Reads count records from the cursor, one at a time. */
    method ReadRecordArray(s: Stream, count: nat) returns (rs: Option<seq<RelocatedStruct>>)
      modifies s`pos
      ensures rs == ReadRecords(s.data, old(s.pos), count)
    {
      var start := s.pos;
      var acc: seq<RelocatedStruct> := [];
      var i := 0;
      while i < count
        invariant 0 <= i <= count
        invariant ReadRecords(s.data, start, i) == Some(acc)
        invariant s.pos == start + 12 * i
      {
        var b := s.Read(RecordSize);
        if b.None? {
          assert ReadRecords(s.data, start, i + 1).None?;
          return None;
        }
        acc := acc + [DecodeRecord(b.value)];
        i := i + 1;
      }
      rs := Some(acc);
    }

    /** SerializeImpl in read mode, from the cursor. */
    method Read(s: Stream) returns (faulted: bool)
      modifies this, s`pos
      ensures ReadResult(State(), faulted) == ReadBody(s.data, old(s.pos), old(State()))
    {
      var at := s.pos;
      var magic := s.Read(4);
      if magic.None? { return true; }
      if magic.value != Magic { return false; }
      var v := s.Read(4);
      if v.None? { return true; }
      editorVersion := ReadI32(v.value);
      if editorVersion != CurrentEditorVersion {
        editorVersion := CurrentEditorVersion;
        return false;
      }
      var c := s.Read(4);
      if c.None? { return true; }
      relocatedStructsCount := ReadI32(c.value);
      if relocatedStructsCount < 0 || relocatedStructsCount > MaxRelocatedStructs {
        return false;
      }
      var rs := ReadRecordArray(s, relocatedStructsCount);
      if rs.None? { return true; }
      relocatedStructs := rs.value;
      s.Goto(|s.data| - 12);
      var trailer := s.Read(TrailerSize);
      faulted := trailer.None?;
    }

    /** TryReadFromEnd: follows the trailer to the body when it is valid. */
    method TryReadFromEnd(s: Stream) returns (faulted: bool)
      modifies this, s`pos
      ensures ReadResult(State(), faulted) == ReadFromEnd(s.data, old(State()))
    {
      s.Goto(|s.data| - 4);
      var magic := s.Read(4);
      if magic.None? { return true; }
      if magic.value != Magic { return false; }
      s.Goto(|s.data| - 12);
      var o := s.Read(8);
      if o.None? { return true; }
      var footerOffset := ReadI64(o.value);
      if footerOffset >= |s.data| - 12 || footerOffset <= 0 {
        return false;
      }
      s.Goto(footerOffset);
      faulted := Read(s);
    }

    /** SerializeImpl in write mode, from the cursor; currentLength is the
        stream length the serializer reports when it positions the trailer. */
    method Write(s: Stream, currentLength: int) returns (faulted: bool)
      requires s.pos >= 0 && CountMatches(State())
      modifies this, s
      ensures var r := WriteFooter(old(s.data), old(s.pos), old(State()), currentLength);
        State() == r.footer && s.data == r.data && s.pos == r.pos && faulted == r.faulted
    {
      ghost var d0 := s.data;
      var at := s.pos;
      s.Write(Magic);
      s.Write(I32Bytes(editorVersion));
      OverwriteConcat(d0, at, Magic, I32Bytes(editorVersion));
      if editorVersion != CurrentEditorVersion {
        editorVersion := CurrentEditorVersion;
        return false;
      }
      faulted := WriteCountedTo(s, at, State(), currentLength);
    }
  }

  /** Writes the records one after the other from the cursor. */
  method WriteRecordArray(s: Stream, rs: seq<RelocatedStruct>)
    requires s.pos >= 0
    modifies s
    ensures s.data == Overwrite(old(s.data), old(s.pos), EncodeRecords(rs))
    ensures s.pos == old(s.pos) + 12 * |rs|
  {
    ghost var d0 := s.data;
    var at := s.pos;
    var i := 0;
    while i < |rs|
      invariant 0 <= i <= |rs|
      invariant s.data == Overwrite(d0, at, EncodeRecords(rs[..i]))
      invariant s.pos == at + 12 * i
    {
      ghost var written := EncodeRecords(rs[..i]);
      assert s.pos == at + |written|;
      EncodeRecordsStep(rs, i);
      OverwriteConcat(d0, at, written, EncodeRecord(rs[i]));
      s.Write(EncodeRecord(rs[i]));
      i := i + 1;
    }
    assert rs[..i] == rs;
  }

  lemma EncodeRecordsStep(rs: seq<RelocatedStruct>, i: nat)
    requires i < |rs|
    ensures EncodeRecords(rs[..i + 1]) == EncodeRecords(rs[..i]) + EncodeRecord(rs[i])
  {
    assert rs[..i + 1][..i] == rs[..i];
  }

  /** The count, the records and the trailer, once the version is current. */
  method WriteCountedTo(s: Stream, at: nat, f: FooterState, currentLength: int) returns (faulted: bool)
    requires s.pos == at + 8 && CountMatches(f)
    modifies s
    ensures var r := WriteCounted(old(s.data), at, f, currentLength);
      s.data == r.data && s.pos == r.pos && faulted == r.faulted
  {
    ghost var d1 := s.data;
    ghost var d2 := Overwrite(d1, at + 8, I32Bytes(f.relocatedStructsCount));
    s.Write(I32Bytes(f.relocatedStructsCount));
    assert s.data == d2;
    if f.relocatedStructsCount < 0 || f.relocatedStructsCount > MaxRelocatedStructs {
      assert WriteCounted(d1, at, f, currentLength) == WriteResult(f, d2, at + 12, false);
      return false;
    }
    WriteRecordArray(s, f.relocatedStructs);
    ghost var d3 := s.data;
    assert d3 == Overwrite(d2, at + 12, EncodeRecords(f.relocatedStructs));
    if currentLength < TrailerSize {
      assert WriteCounted(d1, at, f, currentLength) == WriteResult(f, d3, at + 12 + 12 * |f.relocatedStructs|, true);
      return true;
    }
    s.Goto(currentLength - 12);
    s.Write(I64Bytes(at));
    assert s.pos == currentLength - 12 + |I64Bytes(at)|;
    s.Write(Magic);
    OverwriteConcat(d3, currentLength - 12, I64Bytes(at), Magic);
    assert WriteCounted(d1, at, f, currentLength) == WriteResult(f, Overwrite(d3, currentLength - 12, TrailerBytes(at)), currentLength, false);
    faulted := false;
  }
}
