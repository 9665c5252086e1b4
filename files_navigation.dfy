/** A node of the Files page tree: the object it shows, the archives it
    belongs to, its editor's selection state, and the relocation it can
    queue in the session. */
module FilesNavigation {
  import opened Wrappers
  import opened Binary
  import opened BinaryHelpers
  import opened PatchedFooter
  import opened RelocatedData
  import opened NavigationCommon
  import App
  import Session

  /** Offset: the object's ROM pointer, computed only for a non-null object
      outside any compressed archive. */
  function OffsetFor(obj: Option<FileObject>, compressedParent: Option<FileObject>): (r: Option<Pointer>)
    reads if obj.Some? then {obj.value.obj} else {}
    ensures r.Some? <==> obj.Some? && compressedParent.None?
    ensures r.Some? ==> r.value == GetRomPointer(obj.value.obj.offset)
  {
    if obj.Some? && compressedParent.None? then Some(GetRomPointer(obj.value.obj.offset)) else None
  }

  class NavigationItemViewModel {
    const parent: NavigationItemViewModel?
    /** The chain of parents up to the root, which bounds the walk up. */
    ghost const ancestors: seq<NavigationItemViewModel>
    const title: Option<string>
    const serializableObject: Option<FileObject>
    const hasEditor: bool
    const relocatedStruct: Option<RelocatedStruct>
    const parentArchiveFile: Option<FileObject>
    /** When present, the archive to relocate instead of this file. */
    const compressedParentArchiveFile: Option<FileObject>
    const offset: Option<Pointer>
    const overrideFileName: Option<string>

    var navigationItems: seq<NavigationItemViewModel>
    var isSelected: bool
    var hasLoaded: bool
    var isExpanded: bool
    var unsavedChanges: bool
    /** The calls made on the node's editor, in order. */
    var editorCalls: seq<EditorCall>

    /** The parent chain is finite and ends at a root. */
    ghost predicate Linked()
      decreases |ancestors|
    {
      if parent == null then ancestors == []
      else ancestors == [parent] + parent.ancestors && parent.Linked()
    }

    /** What the constructor establishes: a finite parent chain and an
        Offset set exactly for a non-null object outside compressed
        archives. */
    ghost predicate Valid() {
      Linked() &&
      (offset.Some? <==> serializableObject.Some? && compressedParentArchiveFile.None?)
    }

    constructor (parent: NavigationItemViewModel?, title: Option<string>, serializableObject: Option<FileObject>,
                 hasEditor: bool, relocatedStruct: Option<RelocatedStruct>, parentArchiveFile: Option<FileObject>,
                 compressedParentArchiveFile: Option<FileObject>, overrideFileName: Option<string>)
      requires parent != null ==> parent.Linked()
      ensures Valid()
      ensures this.parent == parent && this.title == title && this.serializableObject == serializableObject
      ensures this.hasEditor == hasEditor && this.relocatedStruct == relocatedStruct
      ensures this.parentArchiveFile == parentArchiveFile && this.compressedParentArchiveFile == compressedParentArchiveFile
      ensures this.overrideFileName == overrideFileName
      ensures offset == OffsetFor(serializableObject, compressedParentArchiveFile)
      ensures navigationItems == [] && !isSelected && !hasLoaded && !isExpanded && !unsavedChanges
      ensures editorCalls == if hasEditor then [EditorInit] else []
    {
      this.parent := parent;
      this.ancestors := if parent == null then [] else [parent] + parent.ancestors;
      this.title := title;
      this.serializableObject := serializableObject;
      this.hasEditor := hasEditor;
      this.relocatedStruct := relocatedStruct;
      this.parentArchiveFile := parentArchiveFile;
      this.compressedParentArchiveFile := compressedParentArchiveFile;
      this.overrideFileName := overrideFileName;
      this.offset := OffsetFor(serializableObject, compressedParentArchiveFile);
      navigationItems := [];
      isSelected := false;
      hasLoaded := false;
      isExpanded := false;
      unsavedChanges := false;
      editorCalls := if hasEditor then [EditorInit] else [];
    }

    predicate IsWithinCompressedArchive() {
      compressedParentArchiveFile.Some?
    }

    predicate IsNull() {
      serializableObject.None?
    }

    predicate Relocated() {
      relocatedStruct.Some?
    }

    /** Only base files of known size outside compressed archives can be
        exported. */
    predicate CanExportBinary() {
      serializableObject.Some? && serializableObject.value.IsBaseFile() &&
      serializableObject.value.fileSize != -1 && !IsWithinCompressedArchive()
    }

    predicate CanImportBinary() {
      serializableObject.Some? && !serializableObject.value.IsArchive()
    }

    /** Export seeks to Offset: whatever can be exported has one. */
    lemma ExportableHasOffset()
      requires Valid()
      ensures CanExportBinary() ==> offset.Some?
      ensures CanExportBinary() ==> CanImportBinary() || serializableObject.value.IsArchive()
    {
    }

    /** The objects whose offsets the displayed text depends on. */
    function Shown(): set<object> {
      (if serializableObject.Some? then {serializableObject.value.obj} else {}) +
      (if compressedParentArchiveFile.Some? then {compressedParentArchiveFile.value.obj} else {})
    }

    /** DisplayOffset, with hex the pointer's eight-digit hexadecimal text. */
    function DisplayOffset(hex: int -> string): (r: string)
      requires Valid()
      reads Shown()
      ensures IsNull() <==> r == "NULL"
      ensures !IsNull() ==> |r| >= 2 && r[..2] == "0x"
    {
      if IsNull() then "NULL"
      else
        var r := "0x" +
          if IsWithinCompressedArchive() then
            hex(GetRomPointer(compressedParentArchiveFile.value.obj.offset).absolute) + "_" +
            hex(serializableObject.value.obj.offset.FileOffset())
          else if Relocated() then hex(relocatedStruct.value.originalPointer.absolute)
          else hex(offset.value.absolute);
        assert r[1] == 'x';
        r
    }

    /** DisplayName: the offset, the arrow to the new location when
        relocated, and the shown name in parentheses. */
    function DisplayName(hex: int -> string): (r: string)
      requires Valid()
      reads Shown()
    {
      var displayOffset := DisplayOffset(hex) +
        (if Relocated() then "->0x" + hex(relocatedStruct.value.newPointer.absolute) else "");
      displayOffset + " (" + ShownName(overrideFileName, title) + ")"
    }

    /** The display offset is chosen in order: null, then compressed
        archive, then relocation, then the Offset captured when the node
        was built (not the object's current one); the name
        gains the arrow exactly when relocated. */
    lemma DisplayOrder(hex: int -> string)
      requires Valid()
      ensures !IsNull() && IsWithinCompressedArchive() ==>
        DisplayOffset(hex) == "0x" + hex(GetRomPointer(compressedParentArchiveFile.value.obj.offset).absolute) + "_" +
          hex(serializableObject.value.obj.offset.FileOffset())
      ensures !IsNull() && !IsWithinCompressedArchive() && Relocated() ==>
        DisplayOffset(hex) == "0x" + hex(relocatedStruct.value.originalPointer.absolute)
      ensures !IsNull() && !IsWithinCompressedArchive() && !Relocated() ==>
        DisplayOffset(hex) == "0x" + hex(offset.value.absolute)
      ensures var name := DisplayName(hex); var tail := " (" + ShownName(overrideFileName, title) + ")";
        name == DisplayOffset(hex) + (if Relocated() then "->0x" + hex(relocatedStruct.value.newPointer.absolute) else "") + tail
    {
    }

    /** One step of SelectItem's walk up: a node with children is
        expanded. */
    method ExpandIfParent()
      modifies this`isExpanded
      ensures isExpanded == (old(isExpanded) || |navigationItems| > 0)
    {
      if |navigationItems| > 0 {
        isExpanded := true;
      }
    }

    /** The IsSelected setter. */
    method SetSelected(v: bool)
      modifies this`isSelected, this`hasLoaded, this`editorCalls
      ensures Selection(isSelected, hasLoaded, editorCalls) == Select(old(Selection(isSelected, hasLoaded, editorCalls)), hasEditor, v)
    {
      isSelected := v;
      if isSelected {
        if hasEditor {
          editorCalls := editorCalls + [EditorLoad(!hasLoaded)];
        }
        hasLoaded := true;
      } else {
        if hasEditor {
          editorCalls := editorCalls + [EditorUnload];
        }
      }
    }

    /** RelocateFile: refused for a null object; inside a compressed archive
        the archive is relocated instead of the file, always against the
        parent archive's table and with the relocated object's own encoder.
        Without a parent archive the table lookup throws before anything is
        queued. */
    method RelocateFile(app: App.AppViewModel) returns (refused: bool, faulted: bool)
      modifies app`pending, this`unsavedChanges
      ensures refused <==> IsNull()
      ensures faulted <==> !IsNull() && parentArchiveFile.None?
      ensures refused || faulted ==> app.pending == old(app.pending) && unsavedChanges == old(unsavedChanges)
      ensures !refused && !faulted ==>
        var data := RelocationOf(serializableObject.value, compressedParentArchiveFile, parentArchiveFile.value);
        App.EntriesOf(app.pending) == Session.Upsert(old(App.EntriesOf(app.pending)), App.EntryOf(data)) &&
        unsavedChanges
      ensures old(app.Valid()) ==> app.Valid()
    {
      if IsNull() {
        return true, false;
      }
      if parentArchiveFile.None? {
        return false, true;
      }
      var data := RelocationOf(serializableObject.value, compressedParentArchiveFile, parentArchiveFile.value);
      app.AddRelocatedData(data);
      unsavedChanges := true;
      return false, false;
    }
  }

  /** What RelocateFile queues: the compressed parent archive when there is
      one, else the object itself, with the parent archive's table and the
      queued object's encoder, as new data. */
  function RelocationOf(obj: FileObject, compressedParent: Option<FileObject>, parentArchive: FileObject): (d: RelocatedData)
    ensures d.obj == (if compressedParent.Some? then compressedParent.value.obj else obj.obj)
    ensures d.IsNewData()
    ensures d.encoder == (if compressedParent.Some? then compressedParent.value else obj).BaseFileEncoder()
    ensures d.parentArchive == ArchiveView(parentArchive)
  {
    var target := if compressedParent.Some? then compressedParent.value else obj;
    RelocatedData(target.obj, ArchiveView(parentArchive), None, target.BaseFileEncoder())
  }

  /** The archive whose table a relocation updates; an object that is not an
      archive has no table. */
  function ArchiveView(f: FileObject): (a: Option<ArchiveFile>)
    ensures a.Some? <==> f.IsArchive()
  {
    if f.kind.ArchiveKind? then Some(f.kind.view) else None
  }
}
