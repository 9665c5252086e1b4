/** The earlier navigation item view model: a node with a ROM offset
    resolved once, which relocates its own object (or the one it is given)
    and can re-import its object from an external binary. */
module AppNavigation {
  import opened Wrappers
  import opened Binary
  import opened BinaryHelpers
  import opened RelocatedData
  import opened NavigationCommon
  import App
  import Session

  /** The name under which an imported binary is registered in the
      serializer context while it is parsed. */
  const ImportFileName: string := "BinaryImport"

  /** The files registered in the serializer context. */
  class SerializerContext {
    var files: seq<string>

    constructor ()
      ensures files == []
    {
      files := [];
    }

    method AddFile(name: string)
      modifies this
      ensures files == old(files) + [name]
    {
      files := files + [name];
    }

    method RemoveFile(name: string)
      modifies this
      ensures files == RemoveLast(old(files), name)
    {
      files := RemoveLast(files, name);
    }
  }

  /** The list without the last occurrence of name. */
  function RemoveLast(fs: seq<string>, name: string): (r: seq<string>)
    ensures name !in fs ==> r == fs
    ensures name in fs ==> |r| == |fs| - 1
  {
    if fs == [] then []
    else if fs[|fs| - 1] == name then fs[..|fs| - 1]
    else RemoveLast(fs[..|fs| - 1], name) + [fs[|fs| - 1]]
  }

  /** Removing a file just added restores the list. */
  lemma RemoveUndoesAdd(fs: seq<string>, name: string)
    ensures RemoveLast(fs + [name], name) == fs
  {
    assert (fs + [name])[..|fs|] == fs;
  }

  class NavigationItemViewModel {
    const title: Option<string>
    const serializableObject: Option<FileObject>
    const parentArchiveFile: Option<ArchiveFile>
    const hasEditor: bool
    const relocated: bool
    const overrideFileName: Option<string>
    /** The ROM pointer, resolved once for a non-null object; None when
        the resolution failed. */
    const offset: Option<Pointer>

    var navigationItems: seq<NavigationItemViewModel>
    var isSelected: bool
    var hasLoaded: bool
    var isExpanded: bool
    var unsavedChanges: bool
    var editorCalls: seq<EditorCall>

    /** Offset is resolved only for a non-null object. */
    ghost predicate Valid() {
      offset.Some? ==> serializableObject.Some?
    }

    /** resolve is the ROM pointer lookup that does not throw: None where
        it cannot resolve the pointer. */
    constructor (title: Option<string>, serializableObject: Option<FileObject>, parentArchiveFile: Option<ArchiveFile>,
                 hasEditor: bool, relocated: bool, overrideFileName: Option<string>, resolve: Pointer -> Option<Pointer>)
      ensures Valid()
      ensures this.title == title && this.serializableObject == serializableObject
      ensures this.parentArchiveFile == parentArchiveFile && this.hasEditor == hasEditor
      ensures this.relocated == relocated && this.overrideFileName == overrideFileName
      ensures serializableObject.None? ==> offset.None?
      ensures serializableObject.Some? ==> offset == resolve(serializableObject.value.obj.offset)
      ensures navigationItems == [] && !isSelected && !hasLoaded && !isExpanded && !unsavedChanges
      ensures editorCalls == if hasEditor then [EditorInit] else []
    {
      this.title := title;
      this.serializableObject := serializableObject;
      this.parentArchiveFile := parentArchiveFile;
      this.hasEditor := hasEditor;
      this.relocated := relocated;
      this.overrideFileName := overrideFileName;
      this.offset := if serializableObject.None? then None else resolve(serializableObject.value.obj.offset);
      navigationItems := [];
      isSelected := false;
      hasLoaded := false;
      isExpanded := false;
      unsavedChanges := false;
      editorCalls := if hasEditor then [EditorInit] else [];
    }

    predicate IsNull() {
      serializableObject.None?
    }

    predicate CanExportBinary() {
      serializableObject.Some? && serializableObject.value.IsBaseFile() &&
      serializableObject.value.fileSize != -1 && offset.Some?
    }

    predicate CanImportBinary() {
      CanExportBinary() && !serializableObject.value.IsArchive()
    }

    /** Import needs everything export needs, and export needs a resolved
        offset; a null object can do neither. */
    lemma ImportNeedsExport()
      ensures CanImportBinary() ==> CanExportBinary()
      ensures CanExportBinary() ==> offset.Some? && !IsNull()
      ensures CanImportBinary() <==> CanExportBinary() && !serializableObject.value.IsArchive()
    {
    }

    /** DisplayName: the resolved offset, else "NULL" for a null object and
        "_" for an unresolved one, then the shown name in parentheses. */
    function DisplayName(hex: int -> string): (r: string)
      requires Valid()
    {
      var shownOffset := if offset.Some? then hex(offset.value.absolute) else if IsNull() then "NULL" else "_";
      shownOffset + " (" + ShownName(overrideFileName, title) + ")"
    }

    /** The three forms of DisplayName. */
    lemma DisplayNameForms(hex: int -> string)
      requires Valid()
      ensures var tail := " (" + ShownName(overrideFileName, title) + ")";
        (IsNull() ==> DisplayName(hex) == "NULL" + tail) &&
        (!IsNull() && offset.None? ==> DisplayName(hex) == "_" + tail) &&
        (offset.Some? ==> DisplayName(hex) == hex(offset.value.absolute) + tail)
    {
    }

    /** The IsSelected setter, the same state machine as the Files page's. */
    method SetSelected(v: bool)
      modifies this`isSelected, this`hasLoaded, this`editorCalls
      ensures Selection(isSelected, hasLoaded, editorCalls) == Select(old(Selection(isSelected, hasLoaded, editorCalls)), hasEditor, v)
    {
      isSelected := v;
      if isSelected {
        if hasEditor {
          editorCalls := editorCalls + [EditorLoad(!hasLoaded)];
        }
        hasLoaded := true;
      } else {
        if hasEditor {
          editorCalls := editorCalls + [EditorUnload];
        }
      }
    }

    /** RelocateFile: refused for a null object or an unresolved offset;
        otherwise the given object, or the node's own by default, is queued
        against the parent archive (which may be absent) with that object's
        encoder. */
    method RelocateFile(app: App.AppViewModel, obj: Option<FileObject>) returns (refused: bool)
      modifies app`pending, this`unsavedChanges
      ensures refused <==> IsNull() || offset.None?
      ensures refused ==> app.pending == old(app.pending) && unsavedChanges == old(unsavedChanges)
      ensures !refused ==>
        var target := if obj.Some? then obj.value else serializableObject.value;
        App.EntriesOf(app.pending) == Session.Upsert(old(App.EntriesOf(app.pending)), App.EntryOf(QueuedFor(target, parentArchiveFile))) &&
        |app.pending| > 0 && app.pending[|app.pending| - 1].obj == target.obj &&
        app.pending[|app.pending| - 1].parentArchive == parentArchiveFile && unsavedChanges
      ensures old(app.Valid()) ==> app.Valid()
    {
      if IsNull() || offset.None? {
        return true;
      }
      var target := if obj.Some? then obj.value else serializableObject.value;
      app.AddRelocatedData(QueuedFor(target, parentArchiveFile));
      unsavedChanges := true;
      return false;
    }

    /** ImportBinary: registers the imported stream, parses the object from
        it at the stream's start (parses tells whether parsing succeeds),
        re-initialises and reloads the editor and relocates the object, and
        always puts the object's offset back and removes the stream, even
        when parsing fails. A null object fails before the stream is
        removed. */
    method ImportBinary(app: App.AppViewModel, context: SerializerContext, importStart: Pointer, parses: bool)
      returns (faulted: bool, refused: bool)
      modifies context, if serializableObject.Some? then {serializableObject.value.obj} else {}
      modifies app`pending, this`unsavedChanges, this`editorCalls
      ensures IsNull() ==> faulted && context.files == old(context.files) + [ImportFileName]
      ensures !IsNull() ==> context.files == old(context.files)
      ensures !IsNull() ==> serializableObject.value.obj.offset == old(serializableObject.value.obj.offset)
      ensures faulted <==> IsNull() || !parses
      ensures faulted ==> app.pending == old(app.pending) && !refused
      ensures !faulted ==> (refused <==> offset.None?)
      ensures !faulted && !refused ==>
        |app.pending| > 0 && app.pending[|app.pending| - 1].obj == serializableObject.value.obj &&
        app.pending[|app.pending| - 1].parentArchive == parentArchiveFile && unsavedChanges
      ensures !faulted ==> editorCalls == old(editorCalls) + (if hasEditor then [EditorInit, EditorLoad(true)] else [])
    {
      context.AddFile(ImportFileName);
      if IsNull() {
        return true, false;
      }
      var obj := serializableObject.value.obj;
      var originalOffset := obj.offset;
      obj.offset := importStart;
      if !parses {
        faulted, refused := true, false;
      } else {
        if hasEditor {
          editorCalls := editorCalls + [EditorInit, EditorLoad(true)];
        }
        refused := RelocateFile(app, None);
        faulted := false;
      }
      obj.offset := originalOffset;
      RemoveUndoesAdd(old(context.files), ImportFileName);
      context.RemoveFile(ImportFileName);
    }
  }

  /** The data RelocateFile queues for an object: new data against the
      parent archive, with the object's encoder when it is a base file. */
  function QueuedFor(target: FileObject, parentArchive: Option<ArchiveFile>): (d: RelocatedData)
    ensures d.obj == target.obj && d.parentArchive == parentArchive && d.IsNewData()
    ensures d.encoder == target.BaseFileEncoder()
  {
    RelocatedData(target.obj, parentArchive, None, target.BaseFileEncoder())
  }

}
