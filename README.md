# Klonoa Heroes patcher: a verified model of the patching core

This project models the core of the Klonoa Heroes ROM patcher. The patcher
edits the files of a Game Boy Advance ROM and saves the result. Edited
objects are appended to the end of the ROM, and the offset tables that
pointed at them are re-aimed. A footer records every relocation and every
applied patch, so that the next load can find them again.

The modules follow the program's own files:

| module | file | what it models |
|---|---|---|
| `Wrappers` | wrappers.dfy | `Option` and `Result` |
| `Binary` | binary.dfy | little-endian integers, the ROM as bytes, pointers, and a `Stream` class (the serializer's cursor over the file) |
| `BinaryHelpers` | binary_helpers.dfy | `GetROMPointer` |
| `PatchedFooter` | patched_footer.dfy | the footer format: parsing, `TryReadFromEnd`, writing, and the round trip |
| `RelocatedData` | relocated_data.dfy | `Relocate` and the offset-table reference update |
| `App` | app.dfy | the pending relocation list (`AddRelocatedData`, `UnsavedChanges`) |
| `Session` | session.dfy | `LoadAsync` (footer replay, patch loading), `SaveAsync`, `Unload` |
| `PatchViewModels` | patch_view_model.dfy | the `IsEnabled`/`WasEnabled` state |
| `VariableWidthFontPatch` | vwf_patch.dfy | the variable-width-font patch: `Apply`, `Revert`, `Load` |
| `VariableWidthFontEditor` | vwf_view_model.dfy | the width accessor and the item/cell mapping |
| `NavigationCommon` | navigation_common.dfy | what both navigation view models share: offsets as text, selection and loading |
| `FilesNavigation` | files_navigation.dfy | the newer navigation item (`Pages/Files`) |
| `FilesPage` | files_page.dfy | the files page: tree building, relocation marks, search and selection |
| `AppNavigation` | app_navigation.dfy | the older navigation item (`App/`) |
| `TextCodec` | text_codec.dfy | the text parser and printer of the text editors, with the font table |
| `AppConfig` | app_config.dfy | the configuration defaults and the built-in font table |
| `CutsceneLayout` | cutscene_layout.dfy | the re-layout of cutscene text commands |
| `SfxText` | sfx_text.dfy | the SFX text patch's entry view model |
| `TileGraphics` | tile_graphics.dfy | pixel formats, `GetStride`, and placing tiles into an indexed image |
| `TileEncoder` | tile_encoder.dfy | `CreateTileData`: packing pixels into tiles, with deduplication |
| `TileRoundTrip` | tile_round_trip.dfy | drawing the encoded tiles back gives the image |
| `TileFindings` | tile_findings.dfy | the two defects in `CreateTileData`, as written and corrected |

The ROM is a byte sequence. A pointer is a file and an absolute offset, and
the ROM file's base address is 0x08000000. Virtual files are the decoded
contents of compressed archives; each one knows the ROM pointer of its
encoded form. The stream encoder (the compression scheme) is an opaque
function from decoded to encoded bytes. Code that loops over a stream or a
collection is written as a method with a loop. Each such method is proved
against a function of the old state, and the properties are lemmas about
those functions.

The source files come from different revisions and do not all agree with
each other; each file is modelled as written:

- `AppViewModel.cs` and `RelocatedData.cs` use a parent-archive pointer on
  the footer records and a list of patch data on the footer. `PatchedFooter.cs`
  declares neither of them. The model keeps both fields in memory, with
  PatchData's fields taken from `AppViewModel.cs:510-515`. The version-1
  serializer neither writes nor reads them.
- `Pages/Files/NavigationItemViewModel.cs:151` passes an offset table where
  `RelocatedData.cs` expects an archive. The model passes the archive that owns
  that table.
- `AppViewModel.cs:186` passes an error flag that `GetROMPointer` does not
  take. The model follows `BinaryHelpers.cs`.
- Patch identifiers are not restricted to four characters. The variable
  width font patch's identifier is "VWF".

## Model

| member | source | states |
|---|---|---|
| Binary.ToU32 | src/KlonoaHeroesPatcher/Binary/RelocatedData.cs:26 | a C# cast to uint gives a value below 2^32 that differs from the input by a multiple of 2^32 |
| Binary.LittleEndianRoundTrip | src/KlonoaHeroesPatcher/Binary/PatchedFooter.cs:91-96 | n little-endian bytes of any value below 256^n read back as that value |
| Binary.U32RoundTrip | src/KlonoaHeroesPatcher/Binary/PatchedFooter.cs:95 | a uint32 written by the serializer reads back unchanged |
| Binary.I32RoundTrip | src/KlonoaHeroesPatcher/Binary/PatchedFooter.cs:30-44 | an int32 (two's complement) written by the serializer reads back unchanged, negative values included |
| Binary.I64RoundTrip | src/KlonoaHeroesPatcher/Binary/PatchedFooter.cs:58-74 | an int64 written by the serializer reads back unchanged |
| Binary.Align4 | src/KlonoaHeroesPatcher/App/AppViewModel.cs:495 | Align moves to the first multiple of 4 at or after the cursor, so it advances by at most 3 |
| Binary.ResizedBytes | src/KlonoaHeroesPatcher/App/AppViewModel.cs:488-489 | SetLength keeps every byte below the new length and fills an extension with zeros |
| Binary.RomPointer | src/KlonoaHeroesPatcher/App/AppViewModel.cs:364 | a pointer made from a file offset lies in the ROM file and has that file offset (absolute = 0x08000000 + offset) |
| Binary.Stream.constructor | src/KlonoaHeroesPatcher/Binary/PatchedFooter.cs:14-17 | a serializer over the file starts at offset 0 with the file's bytes |
| Binary.Stream.CurrentPointer | src/KlonoaHeroesPatcher/Binary/RelocatedData.cs:49 | the current pointer is the ROM pointer of the cursor |
| Binary.Stream.Goto | src/KlonoaHeroesPatcher/Binary/PatchedFooter.cs:56 | Goto moves the cursor and leaves the bytes alone |
| Binary.Stream.Align | src/KlonoaHeroesPatcher/App/AppViewModel.cs:523 | Align moves the cursor to Align4 of its old value and writes nothing |
| Binary.Stream.Write | src/KlonoaHeroesPatcher/Binary/RelocatedData.cs:60 | a write in write mode overwrites the bytes at the cursor (extending the file if needed) and moves the cursor past them |
| Binary.Stream.WriteAt | src/KlonoaHeroesPatcher/Binary/RelocatedData.cs:23-27 | DoAt writes at the given offset and leaves the cursor where it was |
| Binary.Stream.Read | src/KlonoaHeroesPatcher/Binary/PatchedFooter.cs:68 | a read returns the bytes at the cursor and advances past them, or reports a read past the end and leaves the cursor |
| Binary.Stream.SetLength | src/KlonoaHeroesPatcher/App/AppViewModel.cs:488-489 | the file becomes Resized(old file, n): cut, or extended with zeros |
| BinaryHelpers.GetRomPointer | src/KlonoaHeroesPatcher/Helpers/BinaryHelpers.cs:7-13 | a pointer into a virtual file maps to that file's parent pointer; any other pointer is returned unchanged |
| BinaryHelpers.SameFileSameRomPointer | src/KlonoaHeroesPatcher/Helpers/BinaryHelpers.cs:9-10 | all pointers into the same virtual file resolve to the same pointer, whatever their offset inside it |
| BinaryHelpers.OneLevelOnly | src/KlonoaHeroesPatcher/Helpers/BinaryHelpers.cs:7-13 | resolution is one level deep: a parent pointer that is itself in a virtual file is returned as it is, and a second resolution moves it further |
| BinaryHelpers.ResolvedIsFixed | src/KlonoaHeroesPatcher/Helpers/BinaryHelpers.cs:7-13 | when a virtual file's parent lies in the ROM, one resolution lands in the ROM and resolving again changes nothing |
| PatchedFooter.EncodeRecord | src/KlonoaHeroesPatcher/Binary/PatchedFooter.cs:91-96 | a record is stored in 12 bytes |
| PatchedFooter.DecodeRecord | src/KlonoaHeroesPatcher/Binary/PatchedFooter.cs:91-96 | a record read back has both pointers in the ROM, no parent archive and a size below 2^32 |
| PatchedFooter.StoredAll | src/KlonoaHeroesPatcher/Binary/PatchedFooter.cs:53 | one stored record per record, in order: the pointers as ROM offsets, the parent archive dropped |
| PatchedFooter.EncodeRecords | src/KlonoaHeroesPatcher/Binary/PatchedFooter.cs:53 | an array of records takes 12 bytes each |
| PatchedFooter.EncodeRecordsStep | src/KlonoaHeroesPatcher/Binary/PatchedFooter.cs:53 | writing one more record appends its 12 bytes |
| PatchedFooter.RecordRoundTrip | src/KlonoaHeroesPatcher/Binary/PatchedFooter.cs:91-96 | a record whose values fit reads back as the same record, less the parent archive pointer, which is never stored |
| PatchedFooter.ReadRecords | src/KlonoaHeroesPatcher/Binary/PatchedFooter.cs:53 | reading n records succeeds exactly when n is 0 or all 12n bytes lie inside the file, and then gives n records |
| PatchedFooter.RecordsRoundTrip | src/KlonoaHeroesPatcher/Binary/PatchedFooter.cs:53 | records written one after the other read back, in order, as the records written |
| PatchedFooter.ReadBodyOutcomes | src/KlonoaHeroesPatcher/Binary/PatchedFooter.cs:20-53 | a wrong magic leaves the footer as it was; a changed footer read without fault has version 1; new records come with a count in [0, 9999] equal to their number; the patch list is never touched |
| PatchedFooter.ReadFromEndGuards | src/KlonoaHeroesPatcher/Binary/PatchedFooter.cs:65-83 | nothing changes unless the last 4 bytes are "EDIT" and the stored offset lies strictly between 0 and length - 12; the patch list is never touched |
| PatchedFooter.BodyBytes | src/KlonoaHeroesPatcher/Binary/PatchedFooter.cs:20-53 | a version 1 body is 12 bytes of header followed by 12 bytes per record |
| PatchedFooter.TrailerBytes | src/KlonoaHeroesPatcher/Binary/PatchedFooter.cs:56-59 | the trailer is 12 bytes: the footer start as an int64, then "EDIT" |
| PatchedFooter.WriteFooterOutcome | src/KlonoaHeroesPatcher/Binary/PatchedFooter.cs:30-59 | writing an unknown version stores 1 and writes nothing more; a version 1 write with a valid count faults exactly when the length leaves no room for the trailer, and otherwise puts the trailer in the last 12 bytes of that length, with the cursor at the end |
| PatchedFooter.WrittenBody | src/KlonoaHeroesPatcher/Binary/PatchedFooter.cs:14-59 | a version 1 write is the body bytes at the footer start, then the trailer at length - 12 |
| PatchedFooter.ReadWrittenBody | src/KlonoaHeroesPatcher/Binary/PatchedFooter.cs:14-53 | a version 1 body read back gives version 1, its count and its records, whatever footer object it is read into |
| PatchedFooter.FooterRoundTrip | src/KlonoaHeroesPatcher/Binary/PatchedFooter.cs:14-83 | a version 1 footer written at 0 < F whose trailer does not overlap its body is found by TryReadFromEnd and reads back with the same version, count and records |
| PatchedFooter.ReadBack | src/KlonoaHeroesPatcher/Binary/PatchedFooter.cs:65-83 | a file holding a version 1 body at F and, in its last 12 bytes, a trailer naming F reads back as that body |
| PatchedFooter.WrittenFooterSlices | src/KlonoaHeroesPatcher/Binary/PatchedFooter.cs:56 | when the body ends before length - 12, the body and then the trailer both read back after the two writes |
| PatchedFooter.FollowTrailer | src/KlonoaHeroesPatcher/Binary/PatchedFooter.cs:73-82 | a valid trailer leads the reader to parse the body at the offset it names |
| PatchedFooter.TrailerOverBody | src/KlonoaHeroesPatcher/Binary/PatchedFooter.cs:56 | with no bytes reserved for the trailer, a footer with no records written at the end of the file is overwritten by its own trailer and reads back as nothing |
| PatchedFooter.TrailerOverLastRecord | src/KlonoaHeroesPatcher/Binary/PatchedFooter.cs:53-59 | with no bytes reserved for the trailer, a footer with n >= 1 records written at the end of the file has its last record overwritten by the trailer: TryReadFromEnd still finds the body and reads n records, the first n - 1 as stored and the last decoded from the trailer, with size 0x54494445 ("EDIT"), so the last record is lost unless its size was that value |
| PatchedFooter.Footer.constructor | src/KlonoaHeroesPatcher/Binary/PatchedFooter.cs:10-12 | a new footer has version 1, count 0 and no records |
| PatchedFooter.Footer.ReadRecordArray | src/KlonoaHeroesPatcher/Binary/PatchedFooter.cs:53 | the record loop reads what ReadRecords describes |
| PatchedFooter.Footer.Read | src/KlonoaHeroesPatcher/Binary/PatchedFooter.cs:14-63 | SerializeImpl in read mode leaves the footer and the fault flag that ReadBody describes |
| PatchedFooter.Footer.TryReadFromEnd | src/KlonoaHeroesPatcher/Binary/PatchedFooter.cs:65-83 | TryReadFromEnd leaves the footer and the fault flag that ReadFromEnd describes |
| PatchedFooter.Footer.Write | src/KlonoaHeroesPatcher/Binary/PatchedFooter.cs:14-63 | SerializeImpl in write mode leaves the footer, the file and the cursor that WriteFooter describes |
| PatchedFooter.WriteRecordArray | src/KlonoaHeroesPatcher/Binary/PatchedFooter.cs:53 | the records are written one after the other at the cursor, which ends 12 bytes per record further on |
| PatchedFooter.WriteCountedTo | src/KlonoaHeroesPatcher/Binary/PatchedFooter.cs:44-59 | the count, the records and the trailer are written as WriteCounted describes |
| PatchedFooter.ReadBody | src/KlonoaHeroesPatcher/Binary/PatchedFooter.cs:20-53 | a read keeps the patch list; the version stays or becomes 1; the records stay, or are replaced by as many records as the count read, which is at most 9999 |
| PatchedFooter.ReadFromEnd | src/KlonoaHeroesPatcher/Binary/PatchedFooter.cs:65-83 | TryReadFromEnd keeps the patch list and either keeps the records or reads as many as its count, at most 9999; a file shorter than the trailer that ends in "EDIT" throws |
| PatchedFooter.WriteFooter | src/KlonoaHeroesPatcher/Binary/PatchedFooter.cs:14-59 | a write never shortens the file, leaves version 1 in the footer and keeps its patch list and records |
| PatchedFooter.WriteCounted | src/KlonoaHeroesPatcher/Binary/PatchedFooter.cs:44-59 | writing the count, records and trailer never shortens the file, keeps the footer, and throws exactly when the count is valid and the length leaves no room for the 12-byte trailer |
| RelocatedData.SerializableObject.constructor | src/KlonoaHeroesPatcher/Binary/RelocatedData.cs:52-63 | an object holds its current location and the bytes its serializer writes |
| RelocatedData.UpdatedTable | src/KlonoaHeroesPatcher/Binary/RelocatedData.cs:18-30 | the reference update never shortens the file |
| RelocatedData.MatchCount | src/KlonoaHeroesPatcher/Binary/RelocatedData.cs:15-29 | the number of updated references is at most the number of table entries |
| RelocatedData.MatchedSlotWritten | src/KlonoaHeroesPatcher/Binary/RelocatedData.cs:20-27 | every entry holding the original pointer gets, at table offset + 4 + 4i, the uint32 (new absolute - archive absolute) |
| RelocatedData.OtherBytesKept | src/KlonoaHeroesPatcher/Binary/RelocatedData.cs:20-27 | every byte outside the slots of matching entries keeps its value |
| RelocatedData.NoMatchNoChange | src/KlonoaHeroesPatcher/Binary/RelocatedData.cs:32 | when no entry matches, the file is left as it was; this is not an error |
| RelocatedData.UpdateRefs | src/KlonoaHeroesPatcher/Binary/RelocatedData.cs:13-33 | the loop leaves the file UpdatedTable describes, through DoAt (the cursor does not move), and counts the matching entries |
| RelocatedData.RelocatedOffset | src/KlonoaHeroesPatcher/Binary/RelocatedData.cs:54-57 | the object's new offset resolves, through GetROMPointer, to the new pointer, also when it was written through an encoder |
| RelocatedData.Relocated | src/KlonoaHeroesPatcher/Binary/RelocatedData.cs:46-77 | the new pointer is the cursor on entry; the size is how far the cursor moved; the original pointer is OriginPointer when set, else the resolved object offset; the parent archive is recorded; no record is made without a parent archive |
| RelocatedData.Relocate | src/KlonoaHeroesPatcher/Binary/RelocatedData.cs:46-77 | the method leaves the record, file and cursor Relocated describes, and re-homes the object at the new location |
| Session.Keys | src/KlonoaHeroesPatcher/App/AppViewModel.cs:612 | the object offsets of the pending list, one per entry |
| Session.FirstMatch | src/KlonoaHeroesPatcher/App/AppViewModel.cs:612 | FirstOrDefault by object offset finds the first entry at that offset, and finds nothing exactly when no entry is there |
| Session.Without | src/KlonoaHeroesPatcher/App/AppViewModel.cs:622 | removing the entries at an offset never lengthens the list |
| Session.UpsertLast | src/KlonoaHeroesPatcher/App/AppViewModel.cs:612-630 | the added entry ends up last, carrying the origin pointer of the entry it replaced; the list grows exactly when no entry had the same offset |
| Session.WithoutAbsent | src/KlonoaHeroesPatcher/App/AppViewModel.cs:622 | removing an offset that is not pending leaves the list as it was |
| Session.WithoutConcat | src/KlonoaHeroesPatcher/App/AppViewModel.cs:622 | removing an offset from a concatenation removes it from each part |
| Session.UpsertKeepsOthers | src/KlonoaHeroesPatcher/App/AppViewModel.cs:612-630 | with at most one entry per offset, the entries before the added one are the old ones minus the one it replaced, in their old order |
| Session.UpsertKeepsDistinct | src/KlonoaHeroesPatcher/App/AppViewModel.cs:610-631 | at most one pending entry per object offset before an add, and after it |
| Session.UpsertOfLoadedEntry | src/KlonoaHeroesPatcher/App/AppViewModel.cs:97 | adding an entry that has an origin pointer to a list without new data leaves no new data |
| Session.NewDataUnsaved | src/KlonoaHeroesPatcher/App/AppViewModel.cs:97 | adding new data for an object that is not pending makes UnsavedChanges true |
| Session.SavePatch | src/KlonoaHeroesPatcher/App/AppViewModel.cs:503-523 | one turn of the patch loop never moves the cursor below 0 |
| Session.SavePatches | src/KlonoaHeroesPatcher/App/AppViewModel.cs:503-524 | the patch loop never moves the cursor below 0 |
| Session.SavePatchesStep | src/KlonoaHeroesPatcher/App/AppViewModel.cs:503-524 | the loop over the first i + 1 patches is one more turn after the loop over the first i |
| Session.SavePatchesFaultStays | src/KlonoaHeroesPatcher/App/AppViewModel.cs:503-545 | once a turn throws, the rest of the loop does nothing |
| Session.SavePatchOutcome | src/KlonoaHeroesPatcher/App/AppViewModel.cs:505-523 | a turn throws exactly for an enabled patch without a width table; it keeps the PatchData list so far and appends one PatchData, with the patch's ID, exactly when an enabled patch was applied |
| Session.SavePatchesFaults | src/KlonoaHeroesPatcher/App/AppViewModel.cs:503-524 | the patch loop throws exactly when some enabled patch has no width table |
| Session.SavePatchesDatas | src/KlonoaHeroesPatcher/App/AppViewModel.cs:497-524 | the patch loop keeps the list it started from and appends only PatchData with the patch's ID; without a throw it appends exactly one per enabled patch |
| Session.AllUntouchedKeepsFile | src/KlonoaHeroesPatcher/App/AppViewModel.cs:503-524 | when every patch is disabled now and was disabled at load, the loop writes nothing, records nothing and does not throw |
| Session.RelocateEntry | src/KlonoaHeroesPatcher/App/AppViewModel.cs:534-535 | one turn of the relocation loop never moves the cursor below 0 |
| Session.RelocateEntryStart | src/KlonoaHeroesPatcher/App/AppViewModel.cs:534 | a turn that does not throw records where it wrote the entry |
| Session.RelocateEntries | src/KlonoaHeroesPatcher/App/AppViewModel.cs:529-536 | without a throw, the relocation loop makes one record per pending entry |
| Session.RelocateEntriesStep | src/KlonoaHeroesPatcher/App/AppViewModel.cs:532-536 | the loop over the first i + 1 entries is one more turn after the loop over the first i |
| Session.RelocateFaultStays | src/KlonoaHeroesPatcher/App/AppViewModel.cs:532-545 | once a turn throws, the rest of the loop does nothing |
| Session.LayOutAll | src/KlonoaHeroesPatcher/App/AppViewModel.cs:532-536 | the loop makes at most one record and one start per entry, and one start per entry when it does not throw |
| Session.RelocateEntryLaidOut | src/KlonoaHeroesPatcher/App/AppViewModel.cs:534-535 | one turn moves the cursor and extends the records and starts as the byte-free layout says |
| Session.RelocationsLaidOut | src/KlonoaHeroesPatcher/App/AppViewModel.cs:532-536 | the whole relocation loop moves the cursor and builds the records and starts as the layout says |
| Session.LayoutFaults | src/KlonoaHeroesPatcher/App/AppViewModel.cs:532-536 | the relocation loop throws exactly when some pending entry has no parent archive |
| Session.LayoutSizes | src/KlonoaHeroesPatcher/App/AppViewModel.cs:532-536 | without a throw there is one record and one start per entry; after a throw there is one start more than records |
| Session.LayOutStep | src/KlonoaHeroesPatcher/App/AppViewModel.cs:534-535 | each entry starts at the cursor, the cursor moves at least past its bytes, and it is aligned after a turn that does not throw |
| Session.LayoutCursor | src/KlonoaHeroesPatcher/App/AppViewModel.cs:532-536 | the cursor never moves back, and it is aligned unless the loop threw |
| Session.LayoutStart | src/KlonoaHeroesPatcher/App/AppViewModel.cs:532-536 | entry i starts at an aligned offset at or after the start, and its bytes end at or before the next entry's start (or the cursor, for the last one), so relocated entries never overlap |
| Session.LayoutRecord | src/KlonoaHeroesPatcher/App/AppViewModel.cs:532-536 | record i belongs to entry i: its original pointer is the origin pointer or the resolved old offset, its new pointer is where entry i was written, and its parent archive is entry i's |
| Session.FindPatchData | src/KlonoaHeroesPatcher/App/AppViewModel.cs:429-430 | FirstOrDefault by ID finds PatchData with that ID from the list, and finds nothing exactly when no PatchData has that ID |
| Session.ReplayedStep | src/KlonoaHeroesPatcher/App/AppViewModel.cs:397-406 | replaying the first i + 1 records is one more AddRelocatedData after replaying the first i |
| Session.ReplayFaultStays | src/KlonoaHeroesPatcher/App/AppViewModel.cs:397-406 | once a record cannot be replayed, the whole replay fails |
| Session.ReplayedIsSaved | src/KlonoaHeroesPatcher/App/AppViewModel.cs:397-406 | a replayed pending list has no new data and at most one entry per object offset |
| Session.LoadedIsSaved | src/KlonoaHeroesPatcher/App/AppViewModel.cs:97 | a session that loads has no unsaved changes and at most one entry per offset, and its patch is enabled exactly when the footer holds PatchData with the patch's ID |
| Session.ReadRecordsHaveNoParent | src/KlonoaHeroesPatcher/Binary/PatchedFooter.cs:91-96 | records read from a file have no parent archive pointer, since a version 1 record does not store one |
| Session.ReadFooterHasNoParents | src/KlonoaHeroesPatcher/Binary/PatchedFooter.cs:65-96 | after TryReadFromEnd, no record has a parent archive pointer |
| Session.RecordsBlockLoad | src/KlonoaHeroesPatcher/App/AppViewModel.cs:371-373 | as the files are written, a ROM whose footer holds a relocation record does not load, because grouping by the parent archive pointer meets a record without one |
| Session.PatchLoadsDisabled | src/KlonoaHeroesPatcher/App/AppViewModel.cs:429-441 | as the files are written, the PatchData list is never read from the file, so a session that loads has its patch disabled |
| Session.Saved | src/KlonoaHeroesPatcher/App/AppViewModel.cs:465-538 | a ROM end below the ROM base throws before anything is written; otherwise the footer starts at or after the ROM end, and without a throw it holds one record per pending entry, with that count |
| Session.SavedFrom | src/KlonoaHeroesPatcher/App/AppViewModel.cs:494-538 | from the aligned cursor the footer starts at or after the start, and without a throw holds one record per pending entry |
| Session.SavedAfterPatches | src/KlonoaHeroesPatcher/App/AppViewModel.cs:529-538 | the relocations and the footer keep the PatchData list the patch loop made, put the footer at or after the cursor, and without a throw make one record per entry |
| Session.SavedKeepsRom | src/KlonoaHeroesPatcher/App/AppViewModel.cs:489-538 | every ROM byte below the ROM end outside the patch's fixed addresses, the parent archives' offset tables and the trailer survives the whole save, whether it completes or throws |
| Session.SavedFromKeeps | src/KlonoaHeroesPatcher/App/AppViewModel.cs:494-538 | the save from the aligned cursor keeps every byte before it outside the fixed addresses, the offset tables and the trailer |
| Session.AfterPatchesKeep | src/KlonoaHeroesPatcher/App/AppViewModel.cs:529-538 | the relocation loop and the footer keep every byte before their starting cursor outside the offset tables and the trailer |
| Session.AppliedKeeps | src/KlonoaHeroesPatcher/Patch/VariableWidthFont/VariableWidthFontPatch.cs:58-85 | Apply keeps every byte before the payload start that is not at a fixed address |
| Session.FixedKeeps | src/KlonoaHeroesPatcher/Patch/VariableWidthFont/VariableWidthFontPatch.cs:63-66 | the renderer and routine-pointer writes keep every other byte |
| Session.RevertedKeeps | src/KlonoaHeroesPatcher/Patch/VariableWidthFont/VariableWidthFontPatch.cs:87-94 | Revert keeps every byte that is not at a fixed address |
| Session.SavePatchesKeep | src/KlonoaHeroesPatcher/App/AppViewModel.cs:503-524 | the patch loop keeps every byte before its starting cursor that is not at a fixed address, and never moves the cursor back |
| Session.MatchedSlotInTable | src/KlonoaHeroesPatcher/Binary/RelocatedData.cs:20-27 | a slot the reference update writes lies in that archive's offset table |
| Session.RelocationKeeps | src/KlonoaHeroesPatcher/App/AppViewModel.cs:534-535 | one relocation keeps every byte before the cursor outside its parent archive's offset table, and never moves the cursor back |
| Session.RelocateEntriesKeep | src/KlonoaHeroesPatcher/App/AppViewModel.cs:532-536 | the relocation loop keeps every byte before its starting cursor outside the pending entries' offset tables, and never moves the cursor back |
| Session.FooterKeeps | src/KlonoaHeroesPatcher/App/AppViewModel.cs:538 | writing the footer keeps every byte before its start outside the last 12 bytes of the length |
| Session.CountedKeeps | src/KlonoaHeroesPatcher/Binary/PatchedFooter.cs:44-59 | writing the count, records and trailer keeps every byte before the footer start outside the trailer |
| Session.SavedFooterReadsBack | src/KlonoaHeroesPatcher/App/AppViewModel.cs:455-538 | when the saved file has room for the footer before its trailer and the records fit their fields, TryReadFromEnd on the saved bytes gives version 1, one record per pending entry, and the stored form of the records the save made |
| Session.ReplayRecord | src/KlonoaHeroesPatcher/App/AppViewModel.cs:399-405 | a replayed record becomes an entry at the record's new pointer whose bytes are the DataSize bytes stored there, with the original pointer as origin, the archive at the parent pointer, and no encoder |
| Session.ReplayedLength | src/KlonoaHeroesPatcher/App/AppViewModel.cs:397-406 | replaying the records gives at most one pending entry per record |
| Session.LoadFooter | src/KlonoaHeroesPatcher/App/AppViewModel.cs:371-441 | loading needs every record to name a parent archive; the session keeps the footer, has at most one entry per record, and enables the patch, with a width table, exactly when the footer holds PatchData with its ID |
| Session.LoadSession | src/KlonoaHeroesPatcher/App/AppViewModel.cs:367-441 | a session that loads comes from a footer that TryReadFromEnd read without a throw, and has at most one pending entry per record |
| App.DistinctObjects | src/KlonoaHeroesPatcher/App/AppViewModel.cs:612 | pending entries at distinct offsets belong to distinct objects |
| App.Spliced | src/KlonoaHeroesPatcher/App/AppViewModel.cs:622-630 | the list with one entry removed and the new one added ends with the new one |
| App.EntriesOfSpliced | src/KlonoaHeroesPatcher/App/AppViewModel.cs:622-630 | removing entry i and appending d acts on the values as on the list of entries, and brings in no object but d's |
| App.SavePatchStep | src/KlonoaHeroesPatcher/App/AppViewModel.cs:505-523 | one turn of the patch loop changes the file, cursor and PatchData list as SavePatch says |
| App.ApplyPatches | src/KlonoaHeroesPatcher/App/AppViewModel.cs:497-524 | the patch loop leaves the file, cursor, PatchData list and fault that SavePatches describes |
| App.RelocateStep | src/KlonoaHeroesPatcher/App/AppViewModel.cs:534-535 | one turn of the relocation loop changes the file, cursor and records as RelocateEntry says, re-homes entry i's object and no other |
| App.RelocateAll | src/KlonoaHeroesPatcher/App/AppViewModel.cs:529-536 | the relocation loop leaves what RelocateEntries describes; the count is the number of pending entries; each relocated object is re-homed where it was written and the others keep their offset |
| App.AppViewModel.constructor | src/KlonoaHeroesPatcher/App/AppViewModel.cs:91-96 | a new view model has no footer, no patches and nothing pending |
| App.AppViewModel.UnsavedIsNewData | src/KlonoaHeroesPatcher/App/AppViewModel.cs:97 | UnsavedChanges holds exactly when some pending entry has no origin pointer |
| App.AppViewModel.FindPending | src/KlonoaHeroesPatcher/App/AppViewModel.cs:612 | the search over the pending list finds what FirstMatch says |
| App.AppViewModel.AddRelocatedData | src/KlonoaHeroesPatcher/App/AppViewModel.cs:610-631 | the pending list becomes Upsert of the old one; the new entry is last; at most one entry per offset is preserved |
| App.AppViewModel.Unload | src/KlonoaHeroesPatcher/App/AppViewModel.cs:556-571 | after Unload there is no footer, no patch and nothing pending |
| App.AppViewModel.Load | src/KlonoaHeroesPatcher/App/AppViewModel.cs:330-450 | the load fails exactly when LoadSession says; a failed load leaves the view model unloaded; a successful one holds the session LoadSession describes, with no unsaved changes and at most one entry per offset |
| App.AppViewModel.LoadFrom | src/KlonoaHeroesPatcher/App/AppViewModel.cs:367-442 | after the footer is read, the load holds the session LoadFooter describes, or is unloaded when a step throws |
| App.AppViewModel.ReadRelocated | src/KlonoaHeroesPatcher/App/AppViewModel.cs:397-405 | one record is read back as the pending entry ReplayRecord describes, and the cursor returns to where it was (DoAt) |
| App.AppViewModel.ReplayRecords | src/KlonoaHeroesPatcher/App/AppViewModel.cs:397-406 | the replay loop leaves the pending list Replayed describes, or fails exactly when it does |
| App.AppViewModel.LoadPatch | src/KlonoaHeroesPatcher/App/AppViewModel.cs:419-442 | one patch view model is added, enabled exactly when the footer holds PatchData with its ID, and loaded from that PatchData's pointer |
| App.AppViewModel.Save | src/KlonoaHeroesPatcher/App/AppViewModel.cs:465-545 | with no ROM loaded the save throws and changes nothing; otherwise the file, cursor, footer and fault are what Saved describes, and each relocated object is re-homed where it was written |
| App.SaveFrom | src/KlonoaHeroesPatcher/App/AppViewModel.cs:488-538 | after the cut at the ROM end, the save leaves what SavedFrom describes |
| App.SaveAfterPatches | src/KlonoaHeroesPatcher/App/AppViewModel.cs:526-538 | the relocation loop and then the footer leave what SavedAfterPatches describes |
| PatchViewModels.ActionFor | src/KlonoaHeroesPatcher/App/AppViewModel.cs:503-521 | the save applies exactly the enabled patches and reverts exactly those disabled now and enabled at load |
| PatchViewModels.UntoggledAction | src/KlonoaHeroesPatcher/Patch/PatchViewModel.cs:8-9 | a patch the user did not toggle is re-applied when it was enabled at load and left alone otherwise |
| PatchViewModels.PatchViewModel.constructor | src/KlonoaHeroesPatcher/Patch/PatchViewModel.cs:5-11 | a new view model starts with IsEnabled equal to WasEnabled |
| PatchViewModels.PatchViewModel.SetEnabled | src/KlonoaHeroesPatcher/Patch/PatchViewModel.cs:17 | the IsEnabled setter changes IsEnabled and nothing else; Patch and WasEnabled are constants |
| VariableWidthFontPatch.TablePointerOffset | src/KlonoaHeroesPatcher/Patch/VariableWidthFont/VariableWidthFontPatch.cs:69-75 | the width-table pointer goes at the first multiple of 4 at or after the end of the 22-byte routine |
| VariableWidthFontPatch.TableHeader | src/KlonoaHeroesPatcher/Patch/VariableWidthFont/VariableWidthFontPatch.cs:75-78 | the table pointer and the maximum tile index take 8 bytes |
| VariableWidthFontPatch.TableBlock | src/KlonoaHeroesPatcher/Patch/VariableWidthFont/VariableWidthFontPatch.cs:75-84 | after the alignment Apply writes 12 bytes of header and length, then one byte per width |
| VariableWidthFontPatch.Applied | src/KlonoaHeroesPatcher/Patch/VariableWidthFont/VariableWidthFontPatch.cs:58-85 | Apply throws exactly when the width table is null; otherwise the cursor ends after the aligned header, the length and the widths; it never moves back |
| VariableWidthFontPatch.LoadAfterApply | src/KlonoaHeroesPatcher/Patch/VariableWidthFont/VariableWidthFontPatch.cs:46-85 | Load at the payload start after Apply reads back exactly the widths written |
| VariableWidthFontPatch.ApplyFootprint | src/KlonoaHeroesPatcher/Patch/VariableWidthFont/VariableWidthFontPatch.cs:58-85 | Apply changes no byte outside the 8 renderer bytes, the 4 routine-pointer bytes and the contiguous payload |
| VariableWidthFontPatch.SliceKeptByApply | src/KlonoaHeroesPatcher/Patch/VariableWidthFont/VariableWidthFontPatch.cs:66-84 | bytes before the payload and away from the routine pointer survive the last three writes of Apply |
| VariableWidthFontPatch.RendererEdited | src/KlonoaHeroesPatcher/Patch/VariableWidthFont/VariableWidthFontPatch.cs:63 | after Apply the 8 bytes at 0x0802E84A are the replacement sequence |
| VariableWidthFontPatch.RoutinePointerWritten | src/KlonoaHeroesPatcher/Patch/VariableWidthFont/VariableWidthFontPatch.cs:66 | after Apply the uint32 at 0x0802E85C is the payload start address + 1 |
| VariableWidthFontPatch.TablePointerWritten | src/KlonoaHeroesPatcher/Patch/VariableWidthFont/VariableWidthFontPatch.cs:75 | the width-table pointer holds its own address + 12, the ROM address of the first width byte |
| VariableWidthFontPatch.ApplyFixedLocations | src/KlonoaHeroesPatcher/Patch/VariableWidthFont/VariableWidthFontPatch.cs:58-85 | Apply leaves the replacement renderer bytes, payload start + 1 at the routine pointer (odd, so Thumb code, when the payload is 4-aligned) and the self-relative table pointer |
| VariableWidthFontPatch.ThumbAddress | src/KlonoaHeroesPatcher/Patch/VariableWidthFont/VariableWidthFontPatch.cs:65-66 | a payload at a multiple of 4 gets an odd routine pointer |
| VariableWidthFontPatch.RevertFootprint | src/KlonoaHeroesPatcher/Patch/VariableWidthFont/VariableWidthFontPatch.cs:87-94 | Revert restores the original 8 renderer bytes and 0x3FF at the routine pointer, changes no other byte and appends nothing |
| VariableWidthFontPatch.WriteTable | src/KlonoaHeroesPatcher/Patch/VariableWidthFont/VariableWidthFontPatch.cs:75-84 | the header is written, then, unless the width table is null (a throw), the length and the widths, with the cursor after them |
| VariableWidthFontPatch.Patch.constructor | src/KlonoaHeroesPatcher/Patch/VariableWidthFont/VariableWidthFontPatch.cs:39 | a new patch has no width table |
| VariableWidthFontPatch.Patch.Apply | src/KlonoaHeroesPatcher/Patch/VariableWidthFont/VariableWidthFontPatch.cs:58-85 | Apply leaves the file, cursor and fault Applied describes |
| VariableWidthFontPatch.Patch.Revert | src/KlonoaHeroesPatcher/Patch/VariableWidthFont/VariableWidthFontPatch.cs:87-94 | Revert leaves the file Reverted describes and does not move the cursor |
| VariableWidthFontPatch.Patch.Load | src/KlonoaHeroesPatcher/Patch/VariableWidthFont/VariableWidthFontPatch.cs:46-56 | Load reads the width table Loaded describes, and throws (keeping the old table) exactly when Loaded finds none |
| VariableWidthFontPatch.Loaded | src/KlonoaHeroesPatcher/Patch/VariableWidthFont/VariableWidthFontPatch.cs:46-56 | a width table that loads lies inside the file, after the 12 bytes of header at the table pointer |
| VariableWidthFontPatch.Reverted | src/KlonoaHeroesPatcher/Patch/VariableWidthFont/VariableWidthFontPatch.cs:87-94 | Revert never shortens the file and leaves it long enough for the routine pointer |
| VariableWidthFontEditor.WidthAt | src/KlonoaHeroesPatcher/Patch/VariableWidthFont/VariableWidthFontPatchViewModel.cs:71 | Width is 8 without a table, the entry at the index inside the table, and 0 past its end |
| VariableWidthFontEditor.WidthReadBack | src/KlonoaHeroesPatcher/Patch/VariableWidthFont/VariableWidthFontPatchViewModel.cs:69-77 | after setting a width inside the table the item reads it back; otherwise it reads what it read before |
| VariableWidthFontEditor.WidthOthersKept | src/KlonoaHeroesPatcher/Patch/VariableWidthFont/VariableWidthFontPatchViewModel.cs:72-76 | setting one width changes no other item's width, keeps the table's length and never creates a table |
| VariableWidthFontEditor.CellOf | src/KlonoaHeroesPatcher/Patch/VariableWidthFont/VariableWidthFontPatchViewModel.cs:43-50 | item i crops an 8x16 cell inside the image, at x = (i mod fontWidth) * 8 and y = (i div fontWidth) * 16; an image narrower than one tile gives no cell (division by zero) |
| VariableWidthFontEditor.CellIdentifiesItem | src/KlonoaHeroesPatcher/Patch/VariableWidthFont/VariableWidthFontPatchViewModel.cs:43-50 | a cell's row and column give back the item's index |
| VariableWidthFontEditor.CellsDistinct | src/KlonoaHeroesPatcher/Patch/VariableWidthFont/VariableWidthFontPatchViewModel.cs:43-50 | distinct items crop distinct cells |
| VariableWidthFontEditor.ItemViewModel.constructor | src/KlonoaHeroesPatcher/Patch/VariableWidthFont/VariableWidthFontPatchViewModel.cs:58-63 | an item keeps its patch, cell and index |
| VariableWidthFontEditor.ItemViewModel.SetWidth | src/KlonoaHeroesPatcher/Patch/VariableWidthFont/VariableWidthFontPatchViewModel.cs:72-76 | the setter writes into the patch's table in place, as WithWidth says |
| VariableWidthFontEditor.RefreshItems | src/KlonoaHeroesPatcher/Patch/VariableWidthFont/VariableWidthFontPatchViewModel.cs:30-54 | one item per width, item i with index i and cell i; no items (it throws) without a width table, or when the font is narrower than one tile and the table is not empty |
| NavigationCommon.FileObject.BaseFileEncoder | src/KlonoaHeroesPatcher/Pages/Files/NavigationItemViewModel.cs:153 | only a base file has an encoder to pass on |
| NavigationCommon.Select | src/KlonoaHeroesPatcher/Pages/Files/NavigationItemViewModel.cs:64-81 | the setter sets IsSelected; selecting loads the editor, as a first load exactly when the node had not been loaded, and marks it loaded; deselecting unloads it; without an editor no call is made |
| NavigationCommon.OnlyFirstLoadIsFirst | src/KlonoaHeroesPatcher/Pages/Files/NavigationItemViewModel.cs:64-81 | from a node never selected, only the first Load the editor receives is a first load, and the node counts as loaded exactly when it has been selected at least once |
| NavigationCommon.SelectKeepsFirst | src/KlonoaHeroesPatcher/Pages/Files/NavigationItemViewModel.cs:69-74 | one more selection keeps the first Load the only first load |
| NavigationCommon.LoadedMeansLoadCall | src/KlonoaHeroesPatcher/Pages/Files/NavigationItemViewModel.cs:69-74 | with an editor, a node has been loaded exactly when its editor received a Load |
| NavigationCommon.AllChildrenSize | src/KlonoaHeroesPatcher/Pages/Files/NavigationItemViewModel.cs:125-138 | GetAllChildren(true) has as many elements as the tree has nodes (its Size, empty child slots not counted), the node itself first and the walk without it after; that each child's subtree appears in it is `NavigationCommon.ChildSubtreeVisited` |
| NavigationCommon.AllChildrenVisitsOnce | src/KlonoaHeroesPatcher/Pages/Files/NavigationItemViewModel.cs:125-138 | GetAllChildren(true) visits every node of the tree exactly once: its items, counted with multiplicity, are the tree's nodes (empty child slots not counted), Size of them |
| NavigationCommon.ChildrenFromSize | src/KlonoaHeroesPatcher/Pages/Files/NavigationItemViewModel.cs:130-137 | the walk over the children from index i has one element per node below them |
| NavigationCommon.ChildSubtreeVisited | src/KlonoaHeroesPatcher/Pages/Files/NavigationItemViewModel.cs:130-137 | every node of a non-null child's subtree is part of the parent's walk |
| NavigationCommon.ChildSubtreeVisitedFrom | src/KlonoaHeroesPatcher/Pages/Files/NavigationItemViewModel.cs:130-137 | every node of child i's subtree is part of the walk over the children from any j <= i |
| NavigationCommon.Upper | src/KlonoaHeroesPatcher/Pages/Files/FilesPageViewModel.cs:60 | invariant-culture upper case keeps the length and maps each character |
| NavigationCommon.EmptyQueryMatches | src/KlonoaHeroesPatcher/Pages/Files/FilesPageViewModel.cs:60 | the empty query is found in every display name |
| NavigationCommon.MatchExtends | src/KlonoaHeroesPatcher/Pages/Files/FilesPageViewModel.cs:60 | a query found in a name is found in any text around that name |
| NavigationCommon.CaseDoesNotMatter | src/KlonoaHeroesPatcher/Pages/Files/FilesPageViewModel.cs:60 | the search ignores the letter case of the query |
| NavigationCommon.NatText | src/KlonoaHeroesPatcher/Pages/Files/FilesPageViewModel.cs:150 | a map ID prints as at least one decimal digit, with no leading zero |
| NavigationCommon.NatTextReadsBack | src/KlonoaHeroesPatcher/Pages/Files/FilesPageViewModel.cs:150 | decimal text reads back as the number it was made from |
| FilesNavigation.OffsetFor | src/KlonoaHeroesPatcher/Pages/Files/NavigationItemViewModel.cs:37-38 | Offset is set exactly for a non-null object outside any compressed archive, and is then its resolved ROM pointer |
| FilesNavigation.NavigationItemViewModel.constructor | src/KlonoaHeroesPatcher/Pages/Files/NavigationItemViewModel.cs:17-39 | the node keeps its arguments, computes Offset as OffsetFor says, starts unselected, unloaded and with no children, and calls Init on its editor |
| FilesNavigation.NavigationItemViewModel.ExportableHasOffset | src/KlonoaHeroesPatcher/Pages/Files/NavigationItemViewModel.cs:85-93 | whatever can be exported has an Offset, and can be imported unless it is an archive |
| FilesNavigation.NavigationItemViewModel.DisplayOffset | src/KlonoaHeroesPatcher/Pages/Files/NavigationItemViewModel.cs:95-108 | the display offset is "NULL" exactly for a null object, and starts with "0x" otherwise |
| FilesNavigation.NavigationItemViewModel.DisplayOrder | src/KlonoaHeroesPatcher/Pages/Files/NavigationItemViewModel.cs:95-121 | the display offset is chosen in order: null; compressed parent and inner offset; the original pointer when relocated; Offset; the name adds "->new pointer" exactly when relocated, then the override name or title |
| FilesNavigation.NavigationItemViewModel.ExpandIfParent | src/KlonoaHeroesPatcher/Pages/Files/FilesPageViewModel.cs:200-202 | a node with children is expanded, one without keeps its state |
| FilesNavigation.NavigationItemViewModel.SetSelected | src/KlonoaHeroesPatcher/Pages/Files/NavigationItemViewModel.cs:64-81 | the IsSelected setter changes the selection as Select says |
| FilesNavigation.NavigationItemViewModel.RelocateFile | src/KlonoaHeroesPatcher/Pages/Files/NavigationItemViewModel.cs:140-157 | refused exactly for a null object; without a parent archive it throws; otherwise it queues the compressed parent (or the object) through AddRelocatedData and sets UnsavedChanges; a refusal or throw queues nothing |
| FilesNavigation.RelocationOf | src/KlonoaHeroesPatcher/Pages/Files/NavigationItemViewModel.cs:148-154 | what is queued is the compressed parent archive when there is one, else the object itself, as new data, with that object's own encoder and the parent archive's table |
| FilesNavigation.ArchiveView | src/KlonoaHeroesPatcher/Pages/Files/NavigationItemViewModel.cs:151 | only an archive has a table to update |
| FilesPage.Parsed.Children | src/KlonoaHeroesPatcher/Pages/Files/FilesPageViewModel.cs:138-141 | only an archive has files to descend into |
| FilesPage.ChildContext | src/KlonoaHeroesPatcher/Pages/Files/FilesPageViewModel.cs:158-179 | children of an archive inside a compressed archive inherit both parents; children of a compressed archive keep the parent and take the archive as compressed parent; other children take the archive as parent and no compressed parent |
| FilesPage.InheritedUnderCompressed | src/KlonoaHeroesPatcher/Pages/Files/FilesPageViewModel.cs:161-167 | under a compressed archive every descendant keeps the context it was given |
| FilesPage.RecordsOutermostCompressed | src/KlonoaHeroesPatcher/Pages/Files/FilesPageViewModel.cs:158-179 | starting outside any compressed archive, every node records the outermost compressed archive above it, and none when there is none |
| FilesPage.ParentNeverCompressed | src/KlonoaHeroesPatcher/Pages/Files/FilesPageViewModel.cs:158-179 | if the root's parent archive is not compressed, no node's parent archive is a compressed archive |
| FilesPage.OverrideName | src/KlonoaHeroesPatcher/Pages/Files/FilesPageViewModel.cs:145-156 | KW and WMAP archives name file i from entry i, and the lookup throws exactly when i is past their entries; other archives give no name |
| FilesPage.FirstDash | src/KlonoaHeroesPatcher/Pages/Files/FilesPageViewModel.cs:150 | the first dash lies within the text |
| FilesPage.FirstDashAfterDigits | src/KlonoaHeroesPatcher/Pages/Files/FilesPageViewModel.cs:150 | the first dash after a run of digits is the one that follows them |
| FilesPage.SplitAtDash | src/KlonoaHeroesPatcher/Pages/Files/FilesPageViewModel.cs:150 | digits before a dash split back apart |
| FilesPage.NatTextInjective | src/KlonoaHeroesPatcher/Pages/Files/FilesPageViewModel.cs:150 | distinct map IDs print differently |
| FilesPage.KwNameIdentifiesEntry | src/KlonoaHeroesPatcher/Pages/Files/FilesPageViewModel.cs:149-150 | distinct KW entries give their files distinct "Map a-b-c" names |
| FilesPage.FindRecord | src/KlonoaHeroesPatcher/Pages/Files/FilesPageViewModel.cs:130 | a record is found exactly when some footer record's new pointer is the pointer, and it is such a record |
| FilesPage.RecordFor | src/KlonoaHeroesPatcher/Pages/Files/FilesPageViewModel.cs:130 | a node is marked relocated exactly when its object is non-null and some record's new pointer is its ROM pointer |
| FilesPage.Matching | src/KlonoaHeroesPatcher/Pages/Files/FilesPageViewModel.cs:60 | the search keeps no more nodes than it is given |
| FilesPage.MatchingMembers | src/KlonoaHeroesPatcher/Pages/Files/FilesPageViewModel.cs:60 | a node is kept exactly when it is in the list and its name contains the query, ignoring case |
| FilesPage.EmptySearchFindsAll | src/KlonoaHeroesPatcher/Pages/Files/FilesPageViewModel.cs:60 | the empty query keeps every node in order |
| FilesPage.SearchSpec | src/KlonoaHeroesPatcher/Pages/Files/FilesPageViewModel.cs:53-61 | a node is found exactly when it is in the pre-order walk of the roots and its name contains the query; the empty query finds all of them in order |
| FilesPage.ExpandAncestors | src/KlonoaHeroesPatcher/Pages/Files/FilesPageViewModel.cs:195-206 | every node from the item up to its root is expanded exactly when it has children (or already was), and the walk ends |
| FilesPage.FilesPageViewModel.constructor | src/KlonoaHeroesPatcher/Pages/Files/FilesPageViewModel.cs:21 | a new page has no nodes and no search entry |
| FilesPage.FilesPageViewModel.AddNavigationItem | src/KlonoaHeroesPatcher/Pages/Files/FilesPageViewModel.cs:63-191 | the node is added to its parent (or the roots) with the parsed file's name, object, context, override name and relocation record; it has an editor exactly for a non-archive editable object; its children are filed under the child context; it throws exactly when a KW/WMAP name lookup fails |
| FilesPage.FilesPageViewModel.AddChildren | src/KlonoaHeroesPatcher/Pages/Files/FilesPageViewModel.cs:141-190 | the loop adds one child per parsed file, each filed under the child context with its name, or throws exactly when a name lookup fails |
| FilesPage.FilesPageViewModel.SelectItem | src/KlonoaHeroesPatcher/Pages/Files/FilesPageViewModel.cs:193-210 | every node from the item up to its root that has children is expanded, then the item is selected as Select says |
| FilesPage.FilesPageViewModel.SetSelectedSearchEntry | src/KlonoaHeroesPatcher/Pages/Files/FilesPageViewModel.cs:32-46 | a picked entry is navigated to and selected, and the field is reset to null |
| AppNavigation.SerializerContext.constructor | src/KlonoaHeroesPatcher/App/NavigationItemViewModel.cs:144 | a new context has no files |
| AppNavigation.SerializerContext.AddFile | src/KlonoaHeroesPatcher/App/NavigationItemViewModel.cs:151 | adding a file appends it |
| AppNavigation.SerializerContext.RemoveFile | src/KlonoaHeroesPatcher/App/NavigationItemViewModel.cs:176 | removing a file removes its last occurrence |
| AppNavigation.RemoveLast | src/KlonoaHeroesPatcher/App/NavigationItemViewModel.cs:176 | removing a name that is absent changes nothing; a present one shortens the list by one |
| AppNavigation.RemoveUndoesAdd | src/KlonoaHeroesPatcher/App/NavigationItemViewModel.cs:151-176 | removing the file just added restores the list |
| AppNavigation.NavigationItemViewModel.constructor | src/KlonoaHeroesPatcher/App/NavigationItemViewModel.cs:15-37 | the node keeps its arguments; Offset is resolved only for a non-null object (and may be unresolved); it starts unselected and calls Init on its editor |
| AppNavigation.NavigationItemViewModel.ImportNeedsExport | src/KlonoaHeroesPatcher/App/NavigationItemViewModel.cs:78-79 | import needs everything export needs plus a non-archive, and export needs a resolved Offset |
| AppNavigation.NavigationItemViewModel.DisplayNameForms | src/KlonoaHeroesPatcher/App/NavigationItemViewModel.cs:81 | the name is "NULL" for a null object, "_" for an unresolved offset, else the offset, then the override name or title |
| AppNavigation.NavigationItemViewModel.SetSelected | src/KlonoaHeroesPatcher/App/NavigationItemViewModel.cs:57-74 | the IsSelected setter changes the selection as Select says |
| AppNavigation.NavigationItemViewModel.RelocateFile | src/KlonoaHeroesPatcher/App/NavigationItemViewModel.cs:84-99 | refused exactly for a null object or an unresolved Offset; otherwise the given object, or the node's own, is queued as new data against ParentArchiveFile with its encoder, and UnsavedChanges is set |
| AppNavigation.NavigationItemViewModel.ImportBinary | src/KlonoaHeroesPatcher/App/NavigationItemViewModel.cs:131-178 | parsing from the imported stream re-initialises and reloads the editor and relocates the object; the object's offset is always restored and the stream removed, even when parsing throws; a null object throws before the stream is removed |
| AppNavigation.QueuedFor | src/KlonoaHeroesPatcher/App/NavigationItemViewModel.cs:94-97 | the queued data is the target object, as new data, against the parent archive, with the target's encoder when it is a base file |
| TextCodec.ToShort | src/KlonoaHeroesPatcher/Editor/Text/BaseTextFileEditorViewModel.cs:118-120 | the (short) cast keeps a value already in 16-bit range and otherwise agrees with it modulo 2^16 |
| TextCodec.IndexOf | src/KlonoaHeroesPatcher/Editor/Text/BaseTextFileEditorViewModel.cs:129 | the position found holds the character and none before it does; None only when the character is absent |
| TextCodec.IndexOfFrom | src/KlonoaHeroesPatcher/Editor/Text/BaseTextFileEditorViewModel.cs:101 | the closing bracket's position is -1 or lies at or after the start and inside the text |
| TextCodec.TrimStart | src/KlonoaHeroesPatcher/Editor/Text/BaseTextFileEditorViewModel.cs:152 | the result is no longer and does not start with white space, counted as .NET does over Unicode (TrimStartDrops says exactly what is dropped) |
| TextCodec.TrimEnd | src/KlonoaHeroesPatcher/Editor/Text/BaseTextFileEditorViewModel.cs:152 | the result is no longer and does not end with white space, counted as .NET does over Unicode (TrimEndDrops says exactly what is dropped) |
| TextCodec.HexDigitValue | src/KlonoaHeroesPatcher/Editor/Text/BaseTextFileEditorViewModel.cs:113-121 | a hexadecimal digit is worth less than 16 |
| TextCodec.ParseHex | src/KlonoaHeroesPatcher/Editor/Text/BaseTextFileEditorViewModel.cs:113-121 | a base-16 conversion, which accepts a leading "+" and a 0x prefix, yields a value below the type's limit when it succeeds |
| TextCodec.HexChar | src/KlonoaHeroesPatcher/Editor/Text/BaseTextFileEditorViewModel.cs:251 | the digit printed for d is upper-case hexadecimal and is worth d |
| TextCodec.HexText | src/KlonoaHeroesPatcher/Editor/Text/BaseTextFileEditorViewModel.cs:241-251 | the X4 formatting has at least one digit, at least the requested width, and only hexadecimal digits |
| TextCodec.HexTextDigits | src/KlonoaHeroesPatcher/Editor/Text/BaseTextFileEditorViewModel.cs:241-251 | X4 text holds only digits and upper-case A to F |
| TextCodec.UpperHexConcat | src/KlonoaHeroesPatcher/Editor/Text/BaseTextFileEditorViewModel.cs:241-251 | upper-case hexadecimal text stays so when concatenated |
| TextCodec.CommandOf | src/KlonoaHeroesPatcher/Editor/Text/BaseTextFileEditorViewModel.cs:234 | the command type found is one of the library's types and has the font index as its code; None exactly when no type has that code |
| TextCodec.TypeNamed | src/KlonoaHeroesPatcher/Editor/Text/BaseTextFileEditorViewModel.cs:132-134 | a name that parses gives one of the library's command types |
| TextCodec.FirstWithAlternativeFinds | src/KlonoaHeroesPatcher/Editor/Text/BaseTextFileEditorViewModel.cs:167-177 | the one-character lookup succeeds exactly when some entry lists an equal alternative, and returns the first such entry's key |
| TextCodec.AlternativesFrom | src/KlonoaHeroesPatcher/Editor/Text/BaseTextFileEditorViewModel.cs:180-199 | a match of one entry is that entry's key and consumes between 1 and the rest of the text |
| TextCodec.MultiFrom | src/KlonoaHeroesPatcher/Editor/Text/BaseTextFileEditorViewModel.cs:180-199 | a match of the fallback consumes between 1 and the rest of the text |
| TextCodec.Token | src/KlonoaHeroesPatcher/Editor/Text/BaseTextFileEditorViewModel.cs:90-210 | one pass of the loop consumes at least one character and no more than are left |
| TextCodec.Prepend | src/KlonoaHeroesPatcher/Editor/Text/BaseTextFileEditorViewModel.cs:86-221 | commands put before a rejected text leave it rejected, and before an empty parse give the commands themselves |
| TextCodec.PrependTwice | src/KlonoaHeroesPatcher/Editor/Text/BaseTextFileEditorViewModel.cs:86-221 | collecting two runs of commands one after the other is collecting their concatenation |
| TextCodec.FindSingle | src/KlonoaHeroesPatcher/Editor/Text/BaseTextFileEditorViewModel.cs:167-177 | the loop over the table returns the first key with an alternative equal to the character |
| TextCodec.FindMulti | src/KlonoaHeroesPatcher/Editor/Text/BaseTextFileEditorViewModel.cs:180-199 | the nested loops compute the multi-character fallback from position i on, as written or corrected |
| TextCodec.GetFontChar | src/KlonoaHeroesPatcher/Editor/Text/BaseTextFileEditorViewModel.cs:76-81 | an index whose table entry has alternatives prints as its first alternative |
| TextCodec.JoinedSnoc | src/KlonoaHeroesPatcher/Editor/Text/BaseTextFileEditorViewModel.cs:232-254 | appending a command appends its printed piece |
| TextCodec.JoinedCons | src/KlonoaHeroesPatcher/Editor/Text/BaseTextFileEditorViewModel.cs:232-254 | the printed text is the first command's piece followed by the rest's |
| TextCodec.PrintCons | src/KlonoaHeroesPatcher/Editor/Text/BaseTextFileEditorViewModel.cs:227-257 | RefreshText's text is the first command's text followed by the rest's |
| TextCodec.HexTextValue | src/KlonoaHeroesPatcher/Editor/Text/BaseTextFileEditorViewModel.cs:241-251 | X4 text reads back as the number printed |
| TextCodec.ShortX4Digits | src/KlonoaHeroesPatcher/Editor/Text/BaseTextFileEditorViewModel.cs:241 | a short's X4 text is upper-case hexadecimal |
| TextCodec.IntX4Digits | src/KlonoaHeroesPatcher/Editor/Text/BaseTextFileEditorViewModel.cs:251 | an int's X4 text is upper-case hexadecimal |
| TextCodec.ParseHexText | src/KlonoaHeroesPatcher/Editor/Text/BaseTextFileEditorViewModel.cs:113-121 | hexadecimal text of a number below the limit converts back to it |
| TextCodec.ShortX4ReadsBack | src/KlonoaHeroesPatcher/Editor/Text/BaseTextFileEditorViewModel.cs:144-154 | an argument printed with X4 reads back with Convert.ToInt16(_, 16) as the same short, negative values included |
| TextCodec.IntX4ReadsBack | src/KlonoaHeroesPatcher/Editor/Text/BaseTextFileEditorViewModel.cs:113-121 | a font index printed with X4 reads back with Convert.ToInt32(_, 16) as the same int |
| TextCodec.TrimSpaced | src/KlonoaHeroesPatcher/Editor/Text/BaseTextFileEditorViewModel.cs:152 | the argument text after ": " trims to the printed digits |
| TextCodec.IndexOfAt | src/KlonoaHeroesPatcher/Editor/Text/BaseTextFileEditorViewModel.cs:129 | the first colon is found at the end of a name that has none |
| TextCodec.UpperKeeps | src/KlonoaHeroesPatcher/Editor/Text/BaseTextFileEditorViewModel.cs:241 | upper-casing a name keeps its colons and brackets, introduces no x, and is idempotent |
| TextCodec.TypeNamedFinds | src/KlonoaHeroesPatcher/Editor/Text/BaseTextFileEditorViewModel.cs:132-134 | a type's upper-case name parses, ignoring case, to that type |
| TextCodec.BracketOfName | src/KlonoaHeroesPatcher/Editor/Text/BaseTextFileEditorViewModel.cs:124-161 | the bracket text of a type without argument reads back as the type with argument 0 |
| TextCodec.BracketOfArgument | src/KlonoaHeroesPatcher/Editor/Text/BaseTextFileEditorViewModel.cs:124-161 | NAME: X4 bracket text reads back as the type with the argument |
| TextCodec.BracketNamed | src/KlonoaHeroesPatcher/Editor/Text/BaseTextFileEditorViewModel.cs:124-161 | text with a type's name, a colon and an argument that trims to hex reads as that command |
| TextCodec.NoHexPrefix | src/KlonoaHeroesPatcher/Editor/Text/BaseTextFileEditorViewModel.cs:111 | text whose second character is not x is not read as a font index |
| TextCodec.CommandTextUnbracketed | src/KlonoaHeroesPatcher/Editor/Text/BaseTextFileEditorViewModel.cs:238-248 | a printed command contains no closing bracket |
| TextCodec.BracketOfPrinted | src/KlonoaHeroesPatcher/Editor/Text/BaseTextFileEditorViewModel.cs:124-161 | the bracket text RefreshText prints for a command type reads back as the command |
| TextCodec.SkipsNewLine | src/KlonoaHeroesPatcher/Editor/Text/BaseTextFileEditorViewModel.cs:95-96 | the line break printed after CLEAR and LINEBREAK is skipped by the parser |
| TextCodec.BracketToken | src/KlonoaHeroesPatcher/Editor/Text/BaseTextFileEditorViewModel.cs:99-164 | a bracketed command is read as one command followed by what comes after the closing bracket |
| TextCodec.PrintedCommandParses | src/KlonoaHeroesPatcher/Editor/Text/BaseTextFileEditorViewModel.cs:234-248 | a printed command type, with its line break, parses back to the command |
| TextCodec.PrintedIndexParses | src/KlonoaHeroesPatcher/Editor/Text/BaseTextFileEditorViewModel.cs:251 | an index without alternatives prints as [0x...] and parses back to itself |
| TextCodec.PrintedGlyphParses | src/KlonoaHeroesPatcher/Editor/Text/BaseTextFileEditorViewModel.cs:167-177 | a single-character glyph parses back to the first key that lists it, which need not be the printed index |
| TextCodec.PrintedParses | src/KlonoaHeroesPatcher/Editor/Text/BaseTextFileEditorViewModel.cs:227-257 | each reprintable command prints to text that parses back to it |
| TextCodec.PrintThenParse | src/KlonoaHeroesPatcher/Editor/Text/BaseTextFileEditorViewModel.cs:83-257 | RefreshText followed by ApplyModifiedText gives back every list of reprintable commands, with either fallback |
| TextCodec.Parse | src/KlonoaHeroesPatcher/Editor/Text/BaseTextFileEditorViewModel.cs:83-221 | ApplyModifiedText makes at most one command per character of the text |
| TextCodec.BracketCommand | src/KlonoaHeroesPatcher/Editor/Text/BaseTextFileEditorViewModel.cs:109-161 | bracket text starting "0x" gives a font index with argument 0; any other accepted bracket text names one of the library's command types |
| TextCodec.IndexBracketCommand | src/KlonoaHeroesPatcher/Editor/Text/BaseTextFileEditorViewModel.cs:113-121 | the "0x" text of a font index without a closing bracket reads back to that index |
| TextCodec.ArgumentReadsBack | src/KlonoaHeroesPatcher/Editor/Text/BaseTextFileEditorViewModel.cs:152-153 | a printed X4 argument, after the space that follows the colon, trims and converts back to the argument |
| TextCodec.PrintCommand | src/KlonoaHeroesPatcher/Editor/Text/BaseTextFileEditorViewModel.cs:234-248 | a command of a known type prints opening with "[", and ends with "]" exactly when no line break follows it |
| TextCodec.CommandText | src/KlonoaHeroesPatcher/Editor/Text/BaseTextFileEditorViewModel.cs:239-242 | a type without an argument prints as its name; one with an argument adds ": " and at least four digits |
| TextCodec.Print | src/KlonoaHeroesPatcher/Editor/Text/BaseTextFileEditorViewModel.cs:227-257 | RefreshText prints at least two characters per command when every command has a type (via PrintLength) |
| TextCodec.PrintLength | src/KlonoaHeroesPatcher/Editor/Text/BaseTextFileEditorViewModel.cs:232-253 | text of commands that all have types is at least twice as long as the commands |
| TextCodec.TrimStartDrops | src/KlonoaHeroesPatcher/Editor/Text/BaseTextFileEditorViewModel.cs:152 | Trim's start removes exactly the leading white space, .NET's Unicode set: what it keeps is a suffix and every character dropped is white space |
| TextCodec.TrimEndDrops | src/KlonoaHeroesPatcher/Editor/Text/BaseTextFileEditorViewModel.cs:152 | Trim's end removes exactly the trailing white space: what it keeps is a prefix and every character dropped is white space |
| TextCodec.HexBody | src/KlonoaHeroesPatcher/Editor/Text/BaseTextFileEditorViewModel.cs:116 | the base-16 conversion drops an optional "+" and then an optional 0x or 0X prefix, at most three characters, and otherwise reads the text as it is |
| TextCodec.TextEqualsLength | src/KlonoaHeroesPatcher/Editor/Text/BaseTextFileEditorViewModel.cs:186 | strings equal under the configured comparison have equal length |
| TextCodec.AsWrittenAlternatives | src/KlonoaHeroesPatcher/Editor/Text/BaseTextFileEditorViewModel.cs:180-199 | as written, an entry throws exactly when it has a multi-character alternative and more alternatives than characters left, and matches only an alternative as long as its list |
| TextCodec.CorrectedAlternatives | src/KlonoaHeroesPatcher/Editor/Text/BaseTextFileEditorViewModel.cs:180-199 | corrected, an entry never throws and matches exactly when the text starts with one of its multi-character alternatives, consuming that alternative's length |
| TextCodec.CorrectedFallback | src/KlonoaHeroesPatcher/Editor/Text/BaseTextFileEditorViewModel.cs:180-199 | the corrected fallback never throws and reads exactly an alternative the text starts with |
| TextCodec.TwoCharacterGlyph | src/KlonoaHeroesPatcher/Editor/Text/BaseTextFileEditorViewModel.cs:186 | the built-in glyph 0x0E8 prints as 'L, which the parser as written rejects and the corrected parser reads back |
| TextCodec.TextFileEditor.constructor | src/KlonoaHeroesPatcher/Editor/Text/BaseTextFileEditorViewModel.cs:45-56 | a new editor holds the file's commands, an empty text and no pending changes |
| TextCodec.TextFileEditor.SetText | src/KlonoaHeroesPatcher/Editor/Text/BaseTextFileEditorViewModel.cs:45-56 | the Text setter ignores an equal value; a different one is stored and marks changes pending |
| TextCodec.TextFileEditor.RefreshText | src/KlonoaHeroesPatcher/Editor/Text/BaseTextFileEditorViewModel.cs:227-257 | the text becomes the printed commands |
| TextCodec.TextFileEditor.Load | src/KlonoaHeroesPatcher/Editor/Text/BaseTextFileEditorViewModel.cs:60-71 | Load clears pending changes and prints the text afresh |
| TextCodec.TextFileEditor.ApplyModifiedText | src/KlonoaHeroesPatcher/Editor/Text/BaseTextFileEditorViewModel.cs:83-225 | with the fallback as a parameter (AsWritten is the shipped multi-character lookup, Corrected the intended one): rejected exactly when the text does not parse under that fallback, changing nothing then; otherwise the commands become the parse and the text is reprinted with no pending changes |
| TextCodec.ParseStep | src/KlonoaHeroesPatcher/Editor/Text/BaseTextFileEditorViewModel.cs:90-210 | a skipped character or a read token leaves the rest of the text to parse |
| TextCodec.ReadAdvance | src/KlonoaHeroesPatcher/Editor/Text/BaseTextFileEditorViewModel.cs:90-210 | each pass of the loop keeps "commands so far then the parse of the rest" equal to the parse of the whole text |
| TextCodec.ReadCommands | src/KlonoaHeroesPatcher/Editor/Text/BaseTextFileEditorViewModel.cs:86-213 | the loop over the text yields exactly Parse of the text |
| TextCodec.ReadStep | src/KlonoaHeroesPatcher/Editor/Text/BaseTextFileEditorViewModel.cs:92-210 | one pass of the loop at character i computes Token of the rest of the text |
| AppConfig.NewConfig | src/KlonoaHeroesPatcher/App/AppConfig.cs:17-411 | every absent argument takes its default (built-in table, invariant culture ignoring case, file logging on, 0x08FD5440); the log path and level are kept as given |
| AppConfig.DefaultSettings | src/KlonoaHeroesPatcher/App/AppConfig.cs:446 | the default configuration has the built-in table, ignores case, logs to file, has no log path or level and appends from 0x08FD5440 |
| AppConfig.Lookup | src/KlonoaHeroesPatcher/Editor/Text/BaseTextFileEditorViewModel.cs:78 | TryGetValue finds alternatives exactly when the table has the key, and they are that key's |
| AppConfig.Numbered | src/KlonoaHeroesPatcher/App/AppConfig.cs:19-400 | consecutive keys from a base, in order, each with its built-in alternatives |
| AppConfig.BuiltInKeys | src/KlonoaHeroesPatcher/App/AppConfig.cs:19-400 | the built-in table defines exactly keys 0x000-0x0EC and 0x100-0x17A, in increasing order |
| AppConfig.BuiltInLookup | src/KlonoaHeroesPatcher/App/AppConfig.cs:19-400 | looking up a built-in key gives its listed alternatives |
| AppConfig.LookupFirst | src/KlonoaHeroesPatcher/Editor/Text/BaseTextFileEditorViewModel.cs:78 | a lookup finds the first entry carrying the key |
| AppConfig.BuiltInSharesGlyphs | src/KlonoaHeroesPatcher/App/AppConfig.cs:85-165 | several pairs of keys list the same single glyph (0x040 and 0x090, among others), so a printed glyph does not determine its index |
| AppConfig.DigitsAreFullWidthFirst | src/KlonoaHeroesPatcher/App/AppConfig.cs:183-192 | the digit keys list the full-width digit first and the ASCII digit second |
| AppConfig.LettersAreFullWidthFirst | src/KlonoaHeroesPatcher/App/AppConfig.cs:214-239 | the capital-letter keys list the full-width letter first and the ASCII letter second |
| CutsceneLayout.WordOffset | src/KlonoaHeroesPatcher/Editor/Cutscene/CutsceneFileEditorViewModel.cs:57-62 | the (short) of the distance divided by 4 takes a command back to its block when the block is aligned like it, after it and within 2^17 bytes |
| CutsceneLayout.FilesEnd | src/KlonoaHeroesPatcher/Editor/Cutscene/CutsceneFileEditorViewModel.cs:92-104 | writing a text array's files never moves the cursor back |
| CutsceneLayout.LayFiles | src/KlonoaHeroesPatcher/Editor/Cutscene/CutsceneFileEditorViewModel.cs:92-104 | the cursor after laying out the files is where the sizes and alignment take it |
| CutsceneLayout.Handle | src/KlonoaHeroesPatcher/Editor/Cutscene/CutsceneFileEditorViewModel.cs:55-70 | one iteration of either loop moves no command and changes no kind or size |
| CutsceneLayout.LayOut | src/KlonoaHeroesPatcher/Editor/Cutscene/CutsceneFileEditorViewModel.cs:53-110 | a loop over commands moves no command and changes no kind or size |
| CutsceneLayout.Descending | src/KlonoaHeroesPatcher/Editor/Cutscene/CutsceneFileEditorViewModel.cs:53 | the loop order visits only SetText (or SetTextMulti) commands |
| CutsceneLayout.DescendingOrder | src/KlonoaHeroesPatcher/Editor/Cutscene/CutsceneFileEditorViewModel.cs:53 | Where(...).Reverse() lists exactly the commands of the kind, each once, last first |
| CutsceneLayout.DescendingHead | src/KlonoaHeroesPatcher/Editor/Cutscene/CutsceneFileEditorViewModel.cs:53 | the first command visited is the last one of its kind |
| CutsceneLayout.DescendingShape | src/KlonoaHeroesPatcher/Editor/Cutscene/CutsceneFileEditorViewModel.cs:74 | the second loop's order is the same on the commands the first loop updated |
| CutsceneLayout.HandleKeeps | src/KlonoaHeroesPatcher/Editor/Cutscene/CutsceneFileEditorViewModel.cs:55-70 | one iteration keeps the layout sound, never moves a written block, writes a new block after every earlier one and points the command at its block |
| CutsceneLayout.HandleSound | src/KlonoaHeroesPatcher/Editor/Cutscene/CutsceneFileEditorViewModel.cs:55-70 | one iteration keeps the written blocks aligned, inside the cursor and disjoint |
| CutsceneLayout.PlaceSound | src/KlonoaHeroesPatcher/Editor/Cutscene/CutsceneFileEditorViewModel.cs:62-69 | writing a block at the cursor and moving past it keeps the written blocks aligned and disjoint |
| CutsceneLayout.HandleAdvances | src/KlonoaHeroesPatcher/Editor/Cutscene/CutsceneFileEditorViewModel.cs:55-108 | a shared block leaves the cursor and pointers alone; a new block moves the cursor to its aligned end, and a new text array's files lie after its table, anchored after its header |
| CutsceneLayout.HandleTracks | src/KlonoaHeroesPatcher/Editor/Cutscene/CutsceneFileEditorViewModel.cs:55-70 | after an iteration every command is untouched or pointed at its own block, the handled one pointed |
| CutsceneLayout.LayOutKeeps | src/KlonoaHeroesPatcher/Editor/Cutscene/CutsceneFileEditorViewModel.cs:53-110 | a whole loop keeps the layout sound, moves no block, keeps earlier pointings and points every visited command at its block |
| CutsceneLayout.RelaidLayout | src/KlonoaHeroesPatcher/Editor/Cutscene/CutsceneFileEditorViewModel.cs:45-118 | blocks are written aligned, after the last command and without overlapping; every SetText and SetTextMulti command gets TextOffset 1 and the word offset of its own block, shared blocks written once; other commands are untouched |
| CutsceneLayout.Relaid | src/KlonoaHeroesPatcher/Editor/Cutscene/CutsceneFileEditorViewModel.cs:45-118 | the laid-out commands have the same number, kinds and order as before |
| CutsceneLayout.LastTextFirst | src/KlonoaHeroesPatcher/Editor/Cutscene/CutsceneFileEditorViewModel.cs:47-68 | the last SetText command's text is written first, right after the last command, aligned |
| CutsceneLayout.FilesLaidOut | src/KlonoaHeroesPatcher/Editor/Cutscene/CutsceneFileEditorViewModel.cs:89-104 | each non-empty file is pointed at, anchored after the array's header, in slot order without overlap, aligned after the first; empty slots and other arrays are kept |
| CutsceneLayout.PointedReaches | src/KlonoaHeroesPatcher/Editor/Cutscene/CutsceneFileEditorViewModel.cs:57-62 | the word offset written reaches the block when the block is aligned, after the command and within the signed 16-bit word range |
| CutsceneLayout.CutsceneEditor.constructor | src/KlonoaHeroesPatcher/Editor/Cutscene/CutsceneFileEditorViewModel.cs:12 | the editor holds the file's start, commands and offset tables |
| CutsceneLayout.CutsceneEditor.PlaceFiles | src/KlonoaHeroesPatcher/Editor/Cutscene/CutsceneFileEditorViewModel.cs:92-104 | the loop over a text array's files sets the pointers and cursor as LayFiles does |
| CutsceneLayout.CutsceneEditor.HandleCommand | src/KlonoaHeroesPatcher/Editor/Cutscene/CutsceneFileEditorViewModel.cs:55-108 | one iteration updates the command, pointers, cursor and written blocks as Handle does |
| CutsceneLayout.CutsceneEditor.HandleAll | src/KlonoaHeroesPatcher/Editor/Cutscene/CutsceneFileEditorViewModel.cs:53-110 | a loop over the commands does what LayOut does |
| CutsceneLayout.CutsceneEditor.LayOutText | src/KlonoaHeroesPatcher/Editor/Cutscene/CutsceneFileEditorViewModel.cs:47-118 | both loops and Pre_FileSize give the re-layout of RelaidLayout, and the size is the cursor's distance from the file's start |
| CutsceneLayout.CutsceneEditor.RelocateTextCommands | src/KlonoaHeroesPatcher/Editor/Cutscene/CutsceneFileEditorViewModel.cs:45-122 | with no commands it throws and changes nothing; otherwise the text is laid out as Relaid says and the file is queued for relocation unless the node is null or unresolved |
| SfxText.Digit | src/KlonoaHeroesPatcher/Patch/ModifiedSFXText/ModifiedSFXTextPatchViewModel.cs:44 | the digit character written for d is a decimal digit worth d |
| SfxText.DecimalText | src/KlonoaHeroesPatcher/Patch/ModifiedSFXText/ModifiedSFXTextPatchViewModel.cs:44 | a non-negative int is written as at least one decimal digit, with no space |
| SfxText.IntText | src/KlonoaHeroesPatcher/Patch/ModifiedSFXText/ModifiedSFXTextPatchViewModel.cs:44 | an int is written without spaces, so the joined text splits back into one piece per index |
| SfxText.ParseInt32 | src/KlonoaHeroesPatcher/Patch/ModifiedSFXText/ModifiedSFXTextPatchViewModel.cs:108 | Int32.TryParse succeeds only with a value in the 32-bit range |
| SfxText.SplitSpaces | src/KlonoaHeroesPatcher/Patch/ModifiedSFXText/ModifiedSFXTextPatchViewModel.cs:102 | String.Split(' ') gives at least one piece |
| SfxText.Texts | src/KlonoaHeroesPatcher/Patch/ModifiedSFXText/ModifiedSFXTextPatchViewModel.cs:44 | the text of each index, in order |
| SfxText.Take | src/KlonoaHeroesPatcher/Patch/ModifiedSFXText/ModifiedSFXTextPatchViewModel.cs:125 | Take(8) keeps a prefix of at most eight values, all of them when there are no more |
| SfxText.ParseIndexesSpec | src/KlonoaHeroesPatcher/Patch/ModifiedSFXText/ModifiedSFXTextPatchViewModel.cs:106-123 | the loop succeeds exactly when every token is an index of an animation group, giving their values in order; otherwise it names the first bad token, as not an index or out of range |
| SfxText.StripKeeps | src/KlonoaHeroesPatcher/Patch/ModifiedSFXText/ModifiedSFXTextPatchViewModel.cs:108 | text without white space at its ends is what TryParse reads |
| SfxText.DecimalValue | src/KlonoaHeroesPatcher/Patch/ModifiedSFXText/ModifiedSFXTextPatchViewModel.cs:44 | decimal text reads back as its number |
| SfxText.IntTextParses | src/KlonoaHeroesPatcher/Patch/ModifiedSFXText/ModifiedSFXTextPatchViewModel.cs:44-108 | an index written by String.Join parses back with Int32.TryParse, negative values included |
| SfxText.SplitJoin | src/KlonoaHeroesPatcher/Patch/ModifiedSFXText/ModifiedSFXTextPatchViewModel.cs:102-126 | splitting on spaces a join of space-free texts gives the texts back |
| SfxText.JoinSplit | src/KlonoaHeroesPatcher/Patch/ModifiedSFXText/ModifiedSFXTextPatchViewModel.cs:102-126 | joining with spaces the pieces of a split gives the text back |
| SfxText.JoinCons | src/KlonoaHeroesPatcher/Patch/ModifiedSFXText/ModifiedSFXTextPatchViewModel.cs:126 | joining a text in front of others puts one space between |
| SfxText.TextsParse | src/KlonoaHeroesPatcher/Patch/ModifiedSFXText/ModifiedSFXTextPatchViewModel.cs:106-126 | the text written back for valid indices parses to the same indices |
| SfxText.StripLeading | src/KlonoaHeroesPatcher/Patch/ModifiedSFXText/ModifiedSFXTextPatchViewModel.cs:108 | the text after leading white space does not start with white space |
| SfxText.StripTrailing | src/KlonoaHeroesPatcher/Patch/ModifiedSFXText/ModifiedSFXTextPatchViewModel.cs:108 | the text before trailing white space does not end with white space |
| SfxText.SignedDigitsParse | src/KlonoaHeroesPatcher/Patch/ModifiedSFXText/ModifiedSFXTextPatchViewModel.cs:108 | an optionally signed run of digits within 32 bits, with no white space around it, parses to its signed value |
| SfxText.ParseIndexes | src/KlonoaHeroesPatcher/Patch/ModifiedSFXText/ModifiedSFXTextPatchViewModel.cs:106-123 | a successful loop gives one index per token |
| SfxText.ParseIndexesValues | src/KlonoaHeroesPatcher/Patch/ModifiedSFXText/ModifiedSFXTextPatchViewModel.cs:106-123 | a loop over good tokens succeeds, and a successful one gives each token's value, in order, each an animation group's index |
| SfxText.ParseIndexesFirstBad | src/KlonoaHeroesPatcher/Patch/ModifiedSFXText/ModifiedSFXTextPatchViewModel.cs:106-123 | a failed loop names the first token that is not an index of an animation group |
| SfxText.ApplyText | src/KlonoaHeroesPatcher/Patch/ModifiedSFXText/ModifiedSFXTextPatchViewModel.cs:96-125 | an accepted text is not blank and keeps at most eight indices, each an animation group's |
| SfxText.AppliedIndexes | src/KlonoaHeroesPatcher/Patch/ModifiedSFXText/ModifiedSFXTextPatchViewModel.cs:96-125 | an accepted text keeps between one and eight indices, each an animation group's |
| SfxText.JoinedNotBlank | src/KlonoaHeroesPatcher/Patch/ModifiedSFXText/ModifiedSFXTextPatchViewModel.cs:96-126 | the text written back for at least one index is not blank |
| SfxText.JoinStartsWith | src/KlonoaHeroesPatcher/Patch/ModifiedSFXText/ModifiedSFXTextPatchViewModel.cs:126 | a join starts with the first text's first character |
| SfxText.ApplyFixedPoint | src/KlonoaHeroesPatcher/Patch/ModifiedSFXText/ModifiedSFXTextPatchViewModel.cs:92-131 | Apply is idempotent: applying the text it writes back gives the same indices |
| SfxText.ThenThen | src/KlonoaHeroesPatcher/Patch/ModifiedSFXText/ModifiedSFXTextPatchViewModel.cs:104-122 | collecting indices in two steps is collecting them in one |
| SfxText.SfxEntryViewModel.constructor | src/KlonoaHeroesPatcher/Patch/ModifiedSFXText/ModifiedSFXTextPatchViewModel.cs:38-51 | the entry holds the indices, is red exactly for animation index 0, shows the joined indices and has no unsaved changes |
| SfxText.SfxEntryViewModel.AnimIndex | src/KlonoaHeroesPatcher/Patch/ModifiedSFXText/ModifiedSFXTextPatchViewModel.cs:70 | the getter reads 0 exactly when red, else 1 |
| SfxText.SfxEntryViewModel.SetIsRed | src/KlonoaHeroesPatcher/Patch/ModifiedSFXText/ModifiedSFXTextPatchViewModel.cs:61-65 | the setter stores the value and marks unsaved changes |
| SfxText.SfxEntryViewModel.SetAnimIndex | src/KlonoaHeroesPatcher/Patch/ModifiedSFXText/ModifiedSFXTextPatchViewModel.cs:71 | red exactly for 0, so the getter then reads 0 for 0 and 1 for anything else; marks unsaved changes |
| SfxText.SfxEntryViewModel.SetText | src/KlonoaHeroesPatcher/Patch/ModifiedSFXText/ModifiedSFXTextPatchViewModel.cs:80-84 | the setter stores the text and marks unsaved changes |
| SfxText.SfxEntryViewModel.Apply | src/KlonoaHeroesPatcher/Patch/ModifiedSFXText/ModifiedSFXTextPatchViewModel.cs:92-131 | a blank text, or a token that is not an animation group's index, is refused with that error and nothing changes; otherwise the first eight indices are kept, the text is rewritten from them and nothing is unsaved |
| SfxText.SfxPatchViewModel.constructor | src/KlonoaHeroesPatcher/Patch/ModifiedSFXText/ModifiedSFXTextPatchViewModel.cs:15-23 | the view model shows one entry per each of the first six patch entries |
| SfxText.SfxPatchViewModel.RefreshItems | src/KlonoaHeroesPatcher/Patch/ModifiedSFXText/ModifiedSFXTextPatchViewModel.cs:31-34 | one fresh entry view model for each of the first six patch entries; with fewer it throws and nothing changes |
| TileGraphics.PixelByteBounds | src/KlonoaHeroesPatcher/Helpers/TileGraphicsHelpers.cs:45-69 | the byte of pixel k of a tile is k / 2 at 4 bits and k at 8 bits, lies inside the tile and never decreases with k |
| TileGraphics.Nibble | src/KlonoaHeroesPatcher/Helpers/TileGraphicsHelpers.cs:72 | ExtractBits of four bits gives a value below 16 |
| TileGraphics.LowNibble | src/KlonoaHeroesPatcher/Helpers/TileGraphicsHelpers.cs:80 | adding the palette bank times 16 and truncating to a byte keeps the colour in the low nibble |
| TileGraphics.GetStride | src/KlonoaHeroesPatcher/Helpers/TileGraphicsHelpers.cs:307-315 | the stride is a multiple of 4, at least the row's bytes and less than 4 more |
| TileGraphics.CellByte | src/KlonoaHeroesPatcher/Helpers/TileGraphicsHelpers.cs:69-81 | the read succeeds exactly inside the tile set; at 4 bits the low nibble of the result is the pixel's nibble (low for even columns, high for odd), at other depths the byte itself |
| TileGraphics.DestInRange | src/KlonoaHeroesPatcher/Helpers/TileGraphicsHelpers.cs:74-83 | every pixel of a whole tile is written inside the image |
| TileGraphics.DrawPixels | src/KlonoaHeroesPatcher/Helpers/TileGraphicsHelpers.cs:65-85 | drawing pixels of a tile keeps the image's size |
| TileGraphics.DrawCell | src/KlonoaHeroesPatcher/Helpers/TileGraphicsHelpers.cs:58-85 | drawing a map position keeps the image's size |
| TileGraphics.Drawn | src/KlonoaHeroesPatcher/Helpers/TileGraphicsHelpers.cs:42-87 | drawing map positions keeps the image's width times height bytes |
| TileGraphics.DrawTile | src/KlonoaHeroesPatcher/Helpers/TileGraphicsHelpers.cs:65-85 | the two pixel loops draw the tile as DrawPixels does, and report its failure |
| TileGraphics.DrawPixel | src/KlonoaHeroesPatcher/Helpers/TileGraphicsHelpers.cs:69-83 | one pass writes the tile's pixel (x, y) at its mirrored place and nothing else, or fails without writing |
| TileGraphics.PixelOfTile | src/KlonoaHeroesPatcher/Helpers/TileGraphicsHelpers.cs:69-83 | pixel (x, y) is pixel y * 8 + x, and lands at the mirrored row and column the source computes |
| TileGraphics.DrawPixelsStep | src/KlonoaHeroesPatcher/Helpers/TileGraphicsHelpers.cs:69-83 | drawing one more pixel writes its byte at its destination |
| TileGraphics.DrawPixelsFails | src/KlonoaHeroesPatcher/Helpers/TileGraphicsHelpers.cs:65-85 | a failed read ends drawing the tile with that failure |
| TileGraphics.DrawnFails | src/KlonoaHeroesPatcher/Helpers/TileGraphicsHelpers.cs:48-87 | a failed map position ends the image with that failure |
| TileGraphics.DrawnStep | src/KlonoaHeroesPatcher/Helpers/TileGraphicsHelpers.cs:56-85 | drawing map position tileY * tilesWidth + tileX is the next step of the image |
| TileGraphics.DrawMapCell | src/KlonoaHeroesPatcher/Helpers/TileGraphicsHelpers.cs:54-85 | one pass of the tile loop draws its map position, or reports the image's failure |
| TileGraphics.CreateImageSource | src/KlonoaHeroesPatcher/Helpers/TileGraphicsHelpers.cs:20-89 | the nested loops compute the indexed image ImageOf gives, or its failure |
| TileGraphics.SourcePixel | src/KlonoaHeroesPatcher/Helpers/TileGraphicsHelpers.cs:74-75 | the source pixel of a mirrored position lies inside the tile |
| TileGraphics.DrawPixelsSucceeds | src/KlonoaHeroesPatcher/Helpers/TileGraphicsHelpers.cs:63-69 | drawing a tile's first k pixels succeeds exactly when the tile's start and pixel k - 1's byte lie in the tile set |
| TileGraphics.DrawPixelsError | src/KlonoaHeroesPatcher/Helpers/TileGraphicsHelpers.cs:69 | drawing a tile fails only with an index out of range |
| TileGraphics.DrawCellFails | src/KlonoaHeroesPatcher/Helpers/TileGraphicsHelpers.cs:58-69 | a map position fails exactly past the end of a non-empty map or on a stored tile not wholly in the tile set, with an index out of range |
| TileGraphics.DrawnFailsAt | src/KlonoaHeroesPatcher/Helpers/TileGraphicsHelpers.cs:48-87 | drawing the first positions fails exactly when one of them fails |
| TileGraphics.ImageFails | src/KlonoaHeroesPatcher/Helpers/TileGraphicsHelpers.cs:20-89 | CreateImageSource fails exactly when some map position of the grid lies past a non-empty map's end or names a tile not wholly in the tile set, always with an index out of range |
| TileGraphics.DrawPixelsAt | src/KlonoaHeroesPatcher/Helpers/TileGraphicsHelpers.cs:65-85 | after k pixels of a tile, a pixel whose source is drawn holds that source's byte and every other pixel is unchanged |
| TileGraphics.DestIs | src/KlonoaHeroesPatcher/Helpers/TileGraphicsHelpers.cs:74-83 | tile pixel j lands on (px, py) exactly when (px, py) is in the tile and j is its source pixel |
| TileGraphics.DestLandsIn | src/KlonoaHeroesPatcher/Helpers/TileGraphicsHelpers.cs:74-83 | where tile pixel j lands lies in the tile, with j as its source |
| TileGraphics.DestOfSource | src/KlonoaHeroesPatcher/Helpers/TileGraphicsHelpers.cs:74-83 | a pixel of the tile is where its source pixel lands |
| TileGraphics.CellInTile | src/KlonoaHeroesPatcher/Helpers/TileGraphicsHelpers.cs:56 | a pixel of the grid lies in the tile at (tx, ty) exactly when its map position is ty * tilesWidth + tx |
| TileGraphics.DrawCellOutside | src/KlonoaHeroesPatcher/Helpers/TileGraphicsHelpers.cs:58-85 | drawing a map position leaves every pixel outside its tile alone |
| TileGraphics.DrawCellInside | src/KlonoaHeroesPatcher/Helpers/TileGraphicsHelpers.cs:58-85 | after drawing a map position, a pixel of its tile holds what ImagePixel says |
| TileGraphics.DrawnCell | src/KlonoaHeroesPatcher/Helpers/TileGraphicsHelpers.cs:48-56 | the image after c positions is position c - 1 drawn at its column and row on the image before |
| TileGraphics.DrawnBefore | src/KlonoaHeroesPatcher/Helpers/TileGraphicsHelpers.cs:48-87 | after c positions, each pixel of those positions holds what ImagePixel says |
| TileGraphics.OutsideLaterTiles | src/KlonoaHeroesPatcher/Helpers/TileGraphicsHelpers.cs:48-56 | a pixel of a later position lies outside the current tile |
| TileGraphics.DrawnAfter | src/KlonoaHeroesPatcher/Helpers/TileGraphicsHelpers.cs:42-87 | after c positions, every pixel outside them is still 0 |
| TileGraphics.ImagePixels | src/KlonoaHeroesPatcher/Helpers/TileGraphicsHelpers.cs:20-89 | the image holds at every pixel the source pixel's byte through the map and flips, and 0 under a null entry or outside the whole tiles |
| TileGraphics.ImageOf | src/KlonoaHeroesPatcher/Helpers/TileGraphicsHelpers.cs:20-89 | an image that is made has width times height bytes, one per pixel |
| TileEncoder.Pow2 | src/KlonoaHeroesPatcher/Helpers/ColorHelpers.cs:11 | GetPaletteLength gives at least one colour |
| TileEncoder.PixelValue | src/KlonoaHeroesPatcher/Helpers/TileGraphicsHelpers.cs:178-235 | a pixel's palette index is only produced at a destination depth of 4 or 8 |
| TileEncoder.TileValues | src/KlonoaHeroesPatcher/Helpers/TileGraphicsHelpers.cs:174-237 | reading k pixels of a tile gives k palette indices, and only at depth 4 or 8 |
| TileEncoder.Store | src/KlonoaHeroesPatcher/Helpers/TileGraphicsHelpers.cs:230-233 | storing a pixel keeps the tile set's size |
| TileEncoder.Written | src/KlonoaHeroesPatcher/Helpers/TileGraphicsHelpers.cs:174-237 | writing a tile's pixels keeps the tile set's size |
| TileEncoder.TileBelow | src/KlonoaHeroesPatcher/Helpers/TileGraphicsHelpers.cs:242 | every stored tile compared with lies inside the tile set |
| TileEncoder.FirstMatch | src/KlonoaHeroesPatcher/Helpers/TileGraphicsHelpers.cs:242-291 | the tile matched is an earlier stored tile, at or after where the search starts |
| TileEncoder.SlotFits | src/KlonoaHeroesPatcher/Helpers/TileGraphicsHelpers.cs:137-163 | the next free slot lies inside the buffer allocated for every tile |
| TileEncoder.Initial | src/KlonoaHeroesPatcher/Helpers/TileGraphicsHelpers.cs:137-140 | the buffers are sized for every tile (and the map only with createMap), with no tile stored |
| TileEncoder.EncodeCell | src/KlonoaHeroesPatcher/Helpers/TileGraphicsHelpers.cs:163-295 | encoding one map position keeps the buffer sizes and stores at most one more tile |
| TileEncoder.Encoded | src/KlonoaHeroesPatcher/Helpers/TileGraphicsHelpers.cs:155-297 | after c positions the buffers keep their sizes and at most c tiles are stored |
| TileEncoder.EncodedAt | src/KlonoaHeroesPatcher/Helpers/TileGraphicsHelpers.cs:155-297 | after position c at most c + 1 tiles are stored, the buffers keeping their sizes |
| TileEncoder.CreateTileData | src/KlonoaHeroesPatcher/Helpers/TileGraphicsHelpers.cs:124-305 | the nested loops over arrays compute the tile set, cut to the stored tiles, and the tile map CreatedTileData gives, or its failure |
| TileEncoder.EncodeRow | src/KlonoaHeroesPatcher/Helpers/TileGraphicsHelpers.cs:159-296 | one pass of the row loop encodes that row's positions, or reports the failure of the whole encoding |
| TileEncoder.Finished | src/KlonoaHeroesPatcher/Helpers/TileGraphicsHelpers.cs:299-304 | after the last position the stored tiles fit the buffer and cutting it gives the result |
| TileEncoder.EncodedStep | src/KlonoaHeroesPatcher/Helpers/TileGraphicsHelpers.cs:165 | encoding position tileY * tilesWidth + tileX is the next step of the encoding |
| TileEncoder.EncodedFails | src/KlonoaHeroesPatcher/Helpers/TileGraphicsHelpers.cs:155-297 | a failure at one position is the failure of the whole encoding |
| TileEncoder.EncodeTile | src/KlonoaHeroesPatcher/Helpers/TileGraphicsHelpers.cs:161-295 | one pass of the tile loop encodes its position, or reports the failure of the whole encoding |
| TileEncoder.EncodeCellInPlace | src/KlonoaHeroesPatcher/Helpers/TileGraphicsHelpers.cs:163-295 | the map entry, the pixel loops and the match search update the arrays and count as EncodeCell does |
| TileEncoder.WriteTile | src/KlonoaHeroesPatcher/Helpers/TileGraphicsHelpers.cs:174-237 | the pixel loops store the tile's palette indices in order into its slot, or report the first pixel's failure |
| TileEncoder.WriteRow | src/KlonoaHeroesPatcher/Helpers/TileGraphicsHelpers.cs:176-236 | one row pass stores eight more palette indices after those before, or reports the pixel that fails |
| TileEncoder.ReadNext | src/KlonoaHeroesPatcher/Helpers/TileGraphicsHelpers.cs:178-227 | a pixel read after the ones before either fails there or extends them |
| TileEncoder.ReadAsValues | src/KlonoaHeroesPatcher/Helpers/TileGraphicsHelpers.cs:174-237 | pixels read one at a time are what TileValues reads |
| TileEncoder.ValuesSnoc | src/KlonoaHeroesPatcher/Helpers/TileGraphicsHelpers.cs:176 | one more pixel read extends TileValues |
| TileEncoder.ReadAsPrefix | src/KlonoaHeroesPatcher/Helpers/TileGraphicsHelpers.cs:174-237 | fewer pixels read are read the same |
| TileEncoder.FailsValues | src/KlonoaHeroesPatcher/Helpers/TileGraphicsHelpers.cs:174-237 | a pixel that fails after the ones before fails the whole tile |
| TileEncoder.ReadAsSnoc | src/KlonoaHeroesPatcher/Helpers/TileGraphicsHelpers.cs:176 | one more pixel read extends the pixels read |
| TileEncoder.TileValuesFails | src/KlonoaHeroesPatcher/Helpers/TileGraphicsHelpers.cs:174-237 | once reading a tile fails, reading more of it gives the same failure |
| TileEncoder.WrittenSnoc | src/KlonoaHeroesPatcher/Helpers/TileGraphicsHelpers.cs:230-233 | storing one more pixel is a Store on the tile written so far |
| TileEncoder.WritePixel | src/KlonoaHeroesPatcher/Helpers/TileGraphicsHelpers.cs:178-235 | one pixel pass stores the pixel's palette index, or fails without writing |
| TileEncoder.FindMatch | src/KlonoaHeroesPatcher/Helpers/TileGraphicsHelpers.cs:242-291 | the search over stored tiles returns the first one matched in any of the four ways, with its comparisons |
| TileEncoder.CompareTiles | src/KlonoaHeroesPatcher/Helpers/TileGraphicsHelpers.cs:244-277 | the two loops compute the four comparisons of the current tile with tile i over all 64 pixels |
| TileEncoder.ComparePixel | src/KlonoaHeroesPatcher/Helpers/TileGraphicsHelpers.cs:253-265 | one pixel pass extends the four comparisons by pixel (x, y) |
| TileEncoder.CompareWith | src/KlonoaHeroesPatcher/Helpers/TileGraphicsHelpers.cs:255-265 | a comparison stays true only while it has held and the pixel equals its mirrored counterpart |
| TileEncoder.MatchesStep | src/KlonoaHeroesPatcher/Helpers/TileGraphicsHelpers.cs:249-265 | a comparison up to pixel y * 8 + x + 1 is the one before it and that pixel's match |
| TileEncoder.CreatedTileData | src/KlonoaHeroesPatcher/Helpers/TileGraphicsHelpers.cs:124-305 | the tile set holds at most one tile per tile of the image, and the map has one entry per tile with createMap and none without |
| TileEncoder.SourceColorReads | src/KlonoaHeroesPatcher/Helpers/TileGraphicsHelpers.cs:178-218 | a source pixel is read only inside the data; an unknown format throws as unsupported; Bgr24 and Bgr32 read opaque |
| TileEncoder.ZeroIsTransparent | src/KlonoaHeroesPatcher/Helpers/TileGraphicsHelpers.cs:221-227 | palette index 0 is used exactly for a fully transparent colour or an empty matched palette |
| TileEncoder.MatchPaletteColors | src/KlonoaHeroesPatcher/Helpers/TileGraphicsHelpers.cs:142-152 | the matched palette has fewer colours than the depth allows; without a palette it is the grey one without its first colour |
| TileEncoder.WriteNext | src/KlonoaHeroesPatcher/Helpers/TileGraphicsHelpers.cs:176-235 | one pixel pass either reports the pixel's failure after the pixels before it, or stores its palette index after them |
| TileEncoder.GetPixel | src/KlonoaHeroesPatcher/Helpers/TileGraphicsHelpers.cs:267-275 | getPixel gives a value that fits the destination depth |
| TileEncoder.Flags | src/KlonoaHeroesPatcher/Helpers/TileGraphicsHelpers.cs:279-287 | an as-is match sets no flag; with the intended matching, a flipped match sets a flag, and the flags set name a comparison that matched |
| TileRoundTrip.SetNibbleReads | src/KlonoaHeroesPatcher/Helpers/TileGraphicsHelpers.cs:233 | SetBits of four bits puts the value's low nibble in the chosen nibble and keeps the other |
| TileRoundTrip.StorePixel | src/KlonoaHeroesPatcher/Helpers/TileGraphicsHelpers.cs:230-233 | storing pixel k of a tile sets it to the value cut to the pixel width and leaves the tile's other pixels alone |
| TileRoundTrip.StoreNibble | src/KlonoaHeroesPatcher/Helpers/TileGraphicsHelpers.cs:233 | at 4 bits, where two pixels share a byte, storing one leaves its neighbour alone |
| TileRoundTrip.WrittenPixels | src/KlonoaHeroesPatcher/Helpers/TileGraphicsHelpers.cs:174-237 | after the pixel loops, pixel j of the tile holds palette index j cut to the pixel width |
| TileRoundTrip.WrittenElsewhere | src/KlonoaHeroesPatcher/Helpers/TileGraphicsHelpers.cs:174-237 | writing a tile changes no byte outside it |
| TileRoundTrip.WrittenOtherTile | src/KlonoaHeroesPatcher/Helpers/TileGraphicsHelpers.cs:174-237 | writing a tile leaves every other stored tile as it was |
| TileRoundTrip.TilesApart | src/KlonoaHeroesPatcher/Helpers/TileGraphicsHelpers.cs:163 | a pixel byte of one tile lies outside every other tile |
| TileRoundTrip.CorrectedGetPixel | src/KlonoaHeroesPatcher/Helpers/TileGraphicsHelpers.cs:267-275 | read as intended, getPixel gives the stored pixel at (xOffset, yOffset) whatever column the loop stands at |
| TileRoundTrip.MatchesUpToAll | src/KlonoaHeroesPatcher/Helpers/TileGraphicsHelpers.cs:249-277 | a comparison holds after n pixels exactly when every one of those pixels matched |
| TileRoundTrip.CorrectedFlags | src/KlonoaHeroesPatcher/Helpers/TileGraphicsHelpers.cs:279-287 | corrected, the flags of a matched tile name a comparison that matched |
| TileRoundTrip.MatchedShows | src/KlonoaHeroesPatcher/Helpers/TileGraphicsHelpers.cs:249-287 | a tile matched under the flips shows each pixel of the current tile at the mirrored pixel |
| TileRoundTrip.FirstMatchLowest | src/KlonoaHeroesPatcher/Helpers/TileGraphicsHelpers.cs:242-291 | the search returns the lowest stored tile that matches in any way, and none exactly when none does |
| TileRoundTrip.CellKept | src/KlonoaHeroesPatcher/Helpers/TileGraphicsHelpers.cs:163-237 | an earlier map position keeps showing its pixels when the next tile is written in the free slot |
| TileRoundTrip.CellStored | src/KlonoaHeroesPatcher/Helpers/TileGraphicsHelpers.cs:163-237 | a tile stored unmirrored in the free slot shows its own pixels |
| TileRoundTrip.SourcePixelOf | src/KlonoaHeroesPatcher/Helpers/TileGraphicsHelpers.cs:74-75 | drawing pixel k shows the stored pixel its flips select, and itself when unmirrored |
| TileRoundTrip.CellMatched | src/KlonoaHeroesPatcher/Helpers/TileGraphicsHelpers.cs:279-290 | a tile replaced by a matched stored tile, read as intended, shows its pixels through that tile and flags |
| TileRoundTrip.MatchedPixel | src/KlonoaHeroesPatcher/Helpers/TileGraphicsHelpers.cs:279-290 | pixel k of the replaced tile is shown by the matched tile at the mirrored pixel |
| TileRoundTrip.CellStepped | src/KlonoaHeroesPatcher/Helpers/TileGraphicsHelpers.cs:163-295 | encoding one position writes its pixels into the free slot, keeps earlier entries, and either keeps the slot, unmirrored, or names the lowest matching tile with its rule's flags |
| TileRoundTrip.EncodedPrev | src/KlonoaHeroesPatcher/Helpers/TileGraphicsHelpers.cs:155-297 | a successful encoding succeeded at every earlier position |
| TileRoundTrip.IndexedStep | src/KlonoaHeroesPatcher/Helpers/TileGraphicsHelpers.cs:163-295 | every entry keeps naming a stored tile in the asked palette bank, and without a map every tile is stored |
| TileRoundTrip.ShowsStep | src/KlonoaHeroesPatcher/Helpers/TileGraphicsHelpers.cs:163-295 | without a map or with the intended matching, every position keeps showing its pixels after a step |
| TileRoundTrip.KeptStep | src/KlonoaHeroesPatcher/Helpers/TileGraphicsHelpers.cs:163-295 | a step keeps the encoder's invariant |
| TileRoundTrip.EncodedStepped | src/KlonoaHeroesPatcher/Helpers/TileGraphicsHelpers.cs:155-297 | each position's encoding is one such step |
| TileRoundTrip.EncodedNext | src/KlonoaHeroesPatcher/Helpers/TileGraphicsHelpers.cs:155-297 | the state after position c - 1 is that position's encoding of the state before |
| TileRoundTrip.EncodedKept | src/KlonoaHeroesPatcher/Helpers/TileGraphicsHelpers.cs:155-297 | encoding a position keeps the invariant |
| TileRoundTrip.EncodedKeeps | src/KlonoaHeroesPatcher/Helpers/TileGraphicsHelpers.cs:155-297 | after every position the encoder's invariant holds |
| TileRoundTrip.StoredPixelPrefix | src/KlonoaHeroesPatcher/Helpers/TileGraphicsHelpers.cs:299-302 | cutting the tile set after its stored tiles changes none of them |
| TileRoundTrip.CutShaped | src/KlonoaHeroesPatcher/Helpers/TileGraphicsHelpers.cs:299-304 | the final state cut to its stored tiles has whole tiles, no more than the image has, with every map entry naming one of them |
| TileRoundTrip.CutEntries | src/KlonoaHeroesPatcher/Helpers/TileGraphicsHelpers.cs:299-304 | with a map, every entry of the result names a tile inside the cut tile set, in the base palette bank |
| TileRoundTrip.CreatedShape | src/KlonoaHeroesPatcher/Helpers/TileGraphicsHelpers.cs:124-305 | the result has whole tiles, at most one per position; with a map every entry names one in the base bank, without one the map is empty and every tile is stored |
| TileRoundTrip.CreatedDrawable | src/KlonoaHeroesPatcher/Helpers/TileGraphicsHelpers.cs:20-305 | what CreateTileData returns can always be drawn by CreateImageSource |
| TileRoundTrip.ShowsDraws | src/KlonoaHeroesPatcher/Helpers/TileGraphicsHelpers.cs:163-295 | a position that shows its pixels draws each of them from a stored tile |
| TileRoundTrip.CutDraws | src/KlonoaHeroesPatcher/Helpers/TileGraphicsHelpers.cs:299-302 | the cut keeps what each position draws |
| TileRoundTrip.PrefixDraws | src/KlonoaHeroesPatcher/Helpers/TileGraphicsHelpers.cs:299-302 | cutting after the tile an entry names keeps what it draws |
| TileRoundTrip.CreatedShows | src/KlonoaHeroesPatcher/Helpers/TileGraphicsHelpers.cs:124-305 | without a map or with the intended matching, every pixel of every position of the result is drawn as its palette index |
| TileRoundTrip.PlainHolds | src/KlonoaHeroesPatcher/Helpers/TileGraphicsHelpers.cs:58-62 | without a map, position c draws stored tile c as it is |
| TileRoundTrip.StoredInOrder | src/KlonoaHeroesPatcher/Helpers/TileGraphicsHelpers.cs:124-305 | without a map every tile is stored, in row-major order, holding its position's palette indices |
| TileRoundTrip.TileValuesAt | src/KlonoaHeroesPatcher/Helpers/TileGraphicsHelpers.cs:174-227 | TileValues holds at k the palette index of pixel k of the tile, row by row |
| TileRoundTrip.PixelInCell | src/KlonoaHeroesPatcher/Helpers/TileGraphicsHelpers.cs:48-83 | an image pixel of the whole tiles lies at one map position and tile pixel, and the flips select the same source pixel |
| TileRoundTrip.EntryPixel | src/KlonoaHeroesPatcher/Helpers/TileGraphicsHelpers.cs:69-81 | the byte drawn from a stored pixel holds that pixel in its low bits, whatever palette bank is added |
| TileRoundTrip.CellPixelValue | src/KlonoaHeroesPatcher/Helpers/TileGraphicsHelpers.cs:174-227 | the palette index of pixel (px, py) is the one its position computed |
| TileRoundTrip.DrawnPixel | src/KlonoaHeroesPatcher/Helpers/TileGraphicsHelpers.cs:20-89 | tile data drawing a pixel's palette index shows it, once drawn, cut to the pixel width |
| TileRoundTrip.RoundTrip | src/KlonoaHeroesPatcher/Helpers/TileGraphicsHelpers.cs:20-305 | CreateImageSource of what CreateTileData returns, without a map or with the intended matching, shows at every pixel of the whole tiles its computed palette index cut to the pixel width, whatever base palette, and 0 elsewhere |
| TileRoundTrip.MatchPaletteOf | src/KlonoaHeroesPatcher/Helpers/TileGraphicsHelpers.cs:142-152 | the palette pixels are matched against is the given one, or the grey one, cut to 2^bpp colours and without its first colour |
| TileRoundTrip.PixelValueBelow | src/KlonoaHeroesPatcher/Helpers/TileGraphicsHelpers.cs:221-227 | with a search inside the palette, every palette index written is a colour of the destination depth |
| TileRoundTrip.GridInImage | src/KlonoaHeroesPatcher/Helpers/TileGraphicsHelpers.cs:131-132 | a pixel of the whole tiles is a pixel of the image |
| TileRoundTrip.ExactRoundTrip | src/KlonoaHeroesPatcher/Helpers/TileGraphicsHelpers.cs:20-305 | with such a search, each drawn pixel of the whole tiles holds exactly its computed palette index in its low bits |
| TileRoundTrip.EmptyImage | src/KlonoaHeroesPatcher/Helpers/TileGraphicsHelpers.cs:137-304 | an image without a whole tile gives an empty tile set and map |
| TileRoundTrip.FirstPixelFails | src/KlonoaHeroesPatcher/Helpers/TileGraphicsHelpers.cs:178-235 | when the first pixel cannot become a palette index, CreateTileData throws that error |
| TileRoundTrip.UnsupportedFormat | src/KlonoaHeroesPatcher/Helpers/TileGraphicsHelpers.cs:216-219 | a source format other than the five supported throws |
| TileRoundTrip.UnsupportedDepth | src/KlonoaHeroesPatcher/Helpers/TileGraphicsHelpers.cs:234-235 | a destination depth other than 4 or 8 throws once the first pixel is read |
| TileFindings.Corners | src/KlonoaHeroesPatcher/Helpers/TileGraphicsHelpers.cs:137 | the two-tile 8 bpp tile set of 128 bytes used by the flip-flag finding |
| TileFindings.CornersPixel | src/KlonoaHeroesPatcher/Helpers/TileGraphicsHelpers.cs:267-275 | its first tile has the top-left and bottom-right pixels set, its second the top-right and bottom-left |
| TileFindings.CornersMatch | src/KlonoaHeroesPatcher/Helpers/TileGraphicsHelpers.cs:253-265 | a pixel of the second tile matches the first under the flips exactly when the related pixels are equal |
| TileFindings.CornersMirrored | src/KlonoaHeroesPatcher/Helpers/TileGraphicsHelpers.cs:258-262 | mirrored in x, or in y, every pixel of the second tile matches the first |
| TileFindings.CornersUnmirrored | src/KlonoaHeroesPatcher/Helpers/TileGraphicsHelpers.cs:255-265 | as is, or mirrored in both, the second tile does not match the first |
| TileFindings.CornersMatches | src/KlonoaHeroesPatcher/Helpers/TileGraphicsHelpers.cs:244-277 | the comparisons of the second tile with the first are: not as is, mirrored in x, mirrored in y, not mirrored in both |
| TileFindings.AsWrittenFlagsBoth | src/KlonoaHeroesPatcher/Helpers/TileGraphicsHelpers.cs:283-287 | as written, a tile matched mirrored in x and in y but not as is nor in both gets both flags, naming a comparison that failed |
| TileFindings.AsWrittenFlagsCorners | src/KlonoaHeroesPatcher/Helpers/TileGraphicsHelpers.cs:279-287 | as written, the second tile of Corners gets both flags, which name the failed comparison |
| TileFindings.CornersMisdrawn | src/KlonoaHeroesPatcher/Helpers/TileGraphicsHelpers.cs:74-83 | drawn mirrored in both, the first tile shows 0 at the top-right pixel, where the second tile holds 1 |
| TileFindings.CorrectedFlagsDraw | src/KlonoaHeroesPatcher/Helpers/TileGraphicsHelpers.cs:279-287 | corrected, the second tile gets the x flag alone, of the comparison that matched |
| TileFindings.NibblePair | src/KlonoaHeroesPatcher/Helpers/TileGraphicsHelpers.cs:233 | a 4 bpp tile of 32 bytes whose pixel 6 is 1 and pixel 7 is 2 |
| TileFindings.AsWrittenGetPixelMisreads | src/KlonoaHeroesPatcher/Helpers/TileGraphicsHelpers.cs:267-275 | as written, getPixel for pixel (7, 0) while the loop stands at column 0 reads pixel 6's nibble, 1, instead of pixel 7's, 2 |

## Left out

- File and dialog I/O: the JSON configuration, the open and save dialogs, copying the ROM, `OpenURL` and logging. Truncation is only a change of the byte sequence's length, and a log message is not modelled.
- Concurrency: `RunAsync` and the async wrappers. Loading and saving are sequential functions and methods.
- The serializer library and the game's file classes are not part of this model. The model stands in for them as follows:
  - bytes with a cursor stand in for the serializer;
  - an opaque function stands in for the stream encoder;
  - a parameter (`archiveAt`) stands in for reading an archive at a pointer;
  - an exception is stood in for by a `faulted` flag or a `None` result.
- The offset-table rewrite writes into the ROM's bytes only. Relocation therefore requires every parent archive's table to lie in the ROM file (`Session.ArchiveInRom`). The navigation rules never choose an archive inside a compressed one as a parent.
- Offset tables other than the flat 4-byte one, footer versions other than 1, and chained relocation records are not modelled.
- KW and WMAP entries are used only to name files. Reading those tables from the archive is part of the game's file classes.
- Preview rendering: `BitmapSource` creation in `CreateImageSource` is not modelled. Neither are `CreatePaletteImageSource`, `RefreshTextPreview`, the SFX animation preview or the image crop of a font cell. The model stops at the indexed pixel array and the cell rectangle.
- Floating point: colour distance, `FindNearestColor`, colour conversion and the dummy palette.
  - Nearest-colour matching is a function parameter of the target (`nearest`).
  - The dummy palette is a parameter of the target (`grey`).
  - The bits-per-pixel factor is exact integer arithmetic, since only 4 and 8 bits per pixel are accepted.
- `ModifiedSFXTextPatch` has empty Load, Apply and Revert, so saving models only the variable width font patch.
- `ExportBinary` is stream handling and is not modelled. `ImportBinary` is modelled only as far as its restore-and-clean-up guarantee goes; whether parsing throws is a parameter.
- UpdateArraySize, which `RefreshItems` calls first, is not part of this model. `RefreshItems` is modelled on the width table as it finds it.
- String comparison: the configured `StringComparison` is modelled as exact equality, or equality up to ASCII letter case for the ignore-case comparisons. Culture rules beyond ASCII are not modelled. Upper casing and the search's case-insensitive matching use the same ASCII folding.
- TileRoundTrip.RoundTrip: states the round trip modulo the colours of the destination depth. It holds only without a tile map, or with the corrected tile matching. `TileRoundTrip.ExactRoundTrip` drops the modulo only under the assumption that the nearest-colour function returns an index into the palette it is given (`NearestInRange`).
- TileEncoder.CreateTileData: a 4-bit pixel value is stored masked to its nibble, as the bit helper does. For an empty matched palette the model stores palette index 0 (the nearest-colour search's -1 plus one), which is what the source computes; `TileEncoder.ZeroIsTransparent` states it, but the nearest-colour search itself is a parameter.
- TextCodec.TypeNamed: `Enum.TryParse` also accepts a numeric value, a comma-separated list of names and white space around the name. The model accepts only a type's name, ignoring ASCII case, so bracket text of those other forms is rejected in the model.
- FilesPage.SearchForEntries: searches an abstract tree of named nodes (`NavigationCommon.Tree`) rather than the navigation view models themselves; the tree stands in for their `NavigationItems` children.
- Session.SavedFooterReadsBack: its `length` parameter stands for the stream length the serializer reports when it places the trailer, and the contract requires that length to leave 12 bytes after the footer body. The save as written reserves no such room: it writes the footer body last and places the trailer at the reported length minus 12, which for a file that ends with the body lands on the body (see "## Findings", `PatchedFooter.TrailerOverLastRecord`).

## Findings

| source | as written | input that shows it | evidently intended | confidence | as-written member | corrected member |
|---|---|---|---|---|---|---|
| src/KlonoaHeroesPatcher/Editor/Text/BaseTextFileEditorViewModel.cs:186 | the multi-character fallback compares the text against each alternative over as many characters as the entry has alternatives, and advances by that count | the built-in entry 0x0E8, whose only alternative is "'L": RefreshText prints "'L", and parsing "'L" compares "'" with "'L" and rejects the text | compare over each alternative's own length and advance by it, so the printed "'L" reads back as 0x0E8 (text where one glyph's printed form begins with another glyph's can still be rejected; `TextCodec.PrintThenParse` covers the reprintable commands only) | not executed | TextCodec.TwoCharacterGlyph | TextCodec.CorrectedFallback |
| src/KlonoaHeroesPatcher/Helpers/TileGraphicsHelpers.cs:283-287 | when a tile matches an earlier one X-flipped and Y-flipped but not as-is, both flip flags are set, which draws it XY-flipped | two 8 bpp tiles (`TileFindings.Corners`): the first marks its top-left and bottom-right pixels, the second its top-right and bottom-left; the second gets both flags and is drawn wrong at its top-right pixel | set only the flags of one comparison that matched | not executed | TileFindings.AsWrittenFlagsCorners | TileFindings.CorrectedFlagsDraw |
| src/KlonoaHeroesPatcher/Helpers/TileGraphicsHelpers.cs:272 | at 4 bits per pixel, getPixel picks the nibble from the loop's column x, not from the column it was asked for | the 4 bpp tile `TileFindings.NibblePair` (pixel 6 is 1, pixel 7 is 2): getPixel for pixel (7, 0), called while the loop stands at column 0, reads 1 | pick the nibble from xOffset | not executed | TileFindings.AsWrittenGetPixelMisreads | TileRoundTrip.CorrectedGetPixel |
| src/KlonoaHeroesPatcher/Binary/PatchedFooter.cs:56 | the trailer is placed at the stream's current length minus 12, and nothing reserves those 12 bytes: the save writes the footer body last, so the file ends with the body | a save with one pending relocation, whose stream ends at the end of the footer body: the trailer overwrites that record, and a later load reads the record back with size 0x54494445 ("EDIT"); with no records, the trailer overwrites the body and nothing is read back | place the trailer after the body (at the stream's length, or reserve 12 bytes first), so the footer reads back as written | not executed | PatchedFooter.TrailerOverLastRecord | PatchedFooter.FooterRoundTrip |
