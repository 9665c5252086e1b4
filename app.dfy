/** The application view model: the loaded footer, the patch view models
    and the pending relocations, with the operations that change them
    (AddRelocatedData, Unload, SaveAsync and LoadAsync as sequential
    methods). Each method is proved against the value-level definitions of
    module Session. */
module App {
  import opened Wrappers
  import opened Binary
  import opened PatchedFooter
  import opened RelocatedData
  import Vwf = VariableWidthFontPatch
  import opened PatchViewModels
  import opened Session

  /** A pending relocation as a value, with the object's current offset. */
  function EntryOf(d: RelocatedData): Entry
    reads d.obj
  {
    Entry(d.obj.offset, d.obj.image, d.parentArchive, d.originPointer, d.encoder)
  }

  function Objects(ds: seq<RelocatedData>): set<SerializableObject> {
    set i | 0 <= i < |ds| :: ds[i].obj
  }

  function EntriesOf(ds: seq<RelocatedData>): seq<Entry>
    reads Objects(ds)
  {
    seq(|ds|, i requires 0 <= i < |ds| reads Objects(ds) => EntryOf(ds[i]))
  }

  /** The patch view models as values. */
  function Patches(vms: seq<PatchViewModel>): set<object> {
    (set i | 0 <= i < |vms| :: vms[i]) + (set i | 0 <= i < |vms| :: vms[i].patch)
  }

  function PatchViews(vms: seq<PatchViewModel>): seq<PatchView>
    reads Patches(vms)
  {
    seq(|vms|, i requires 0 <= i < |vms| reads Patches(vms) => ViewOf(vms[i]))
  }

  /** Entries at distinct offsets belong to distinct objects. */
  lemma DistinctObjects(ds: seq<RelocatedData>)
    requires Distinct(Keys(EntriesOf(ds)))
    ensures forall i, j :: 0 <= i < j < |ds| ==> ds[i].obj != ds[j].obj
  {
    forall i, j | 0 <= i < j < |ds|
      ensures ds[i].obj != ds[j].obj
    {
      assert Keys(EntriesOf(ds))[i] != Keys(EntriesOf(ds))[j];
    }
  }

  /** Removing the entry at i (none when i is the length) and appending d
      acts the same on the values. */
  /** The list with entry i (if any) taken out and d added at the end. */
  function Spliced(ds: seq<RelocatedData>, i: nat, d: RelocatedData): (r: seq<RelocatedData>)
    requires i <= |ds|
    ensures |r| > 0 && r[|r| - 1] == d
  {
    ds[..i] + (if i < |ds| then ds[i + 1..] else []) + [d]
  }

  lemma EntriesOfSpliced(ds: seq<RelocatedData>, i: nat, d: RelocatedData)
    requires i <= |ds|
    ensures var ds' := Spliced(ds, i, d);
      EntriesOf(ds') == EntriesOf(ds)[..i] + (if i < |ds| then EntriesOf(ds)[i + 1..] else []) + [EntryOf(d)] &&
      Objects(ds') <= Objects(ds) + {d.obj}
  {
    var ds' := Spliced(ds, i, d);
    var es := EntriesOf(ds);
    var es' := es[..i] + (if i < |ds| then es[i + 1..] else []) + [EntryOf(d)];
    assert |EntriesOf(ds')| == |es'|;
    forall k | 0 <= k < |ds'|
      ensures EntriesOf(ds')[k] == es'[k] && ds'[k].obj in Objects(ds) + {d.obj}
    {
      if k < i {
        assert ds'[k] == ds[k];
      } else if k < |ds'| - 1 {
        assert ds'[k] == ds[k + 1];
      }
    }
  }

  /** One view model as a value: IsEnabled, WasEnabled and its patch's
      width table. */
  function ViewOf(vm: PatchViewModel): PatchView
    reads vm, vm.patch
  {
    PatchView(vm.isEnabled, vm.wasEnabled, vm.patch.widths)
  }

  /** One turn of the patch loop of SaveAsync: apply an enabled patch and
      record its PatchData, revert a patch that was enabled at load and no
      longer is, then align. */
  method SavePatchStep(s: Stream, vm: PatchViewModel, footer: Footer) returns (faulted: bool)
    requires s.pos >= 0
    modifies s, footer`patchDatas
    ensures var p := SavePatch(Progress(old(s.data), old(s.pos), old(footer.patchDatas), false), old(ViewOf(vm)));
      s.data == p.data && s.pos == p.pos && footer.patchDatas == p.patchDatas && faulted == p.faulted
  {
    if vm.isEnabled {
      var dataPointer := s.CurrentPointer();
      faulted := vm.patch.Apply(s);
      if faulted {
        return;
      }
      footer.patchDatas := footer.patchDatas + [PatchData(Vwf.Id, dataPointer, ToU32(s.pos - dataPointer.FileOffset()))];
    } else if vm.wasEnabled {
      vm.patch.Revert(s);
    }
    s.Align();
    faulted := false;
  }

  /** The patch loop of SaveAsync over the view models in list order. The
      footer's PatchData list is replaced first and filled as patches are
      applied; the loop stops at the first throw. */
  method ApplyPatches(s: Stream, vms: seq<PatchViewModel>, footer: Footer) returns (faulted: bool)
    requires s.pos >= 0
    modifies s, footer`patchDatas
    ensures var p := SavePatches(Progress(old(s.data), old(s.pos), [], false), old(PatchViews(vms)));
      s.data == p.data && s.pos == p.pos && footer.patchDatas == p.patchDatas && faulted == p.faulted
  {
    ghost var ps := PatchViews(vms);
    ghost var p0 := Progress(s.data, s.pos, [], false);
    footer.patchDatas := [];
    var i := 0;
    while i < |vms|
      invariant 0 <= i <= |vms| && s.pos >= 0
      invariant var p := SavePatches(p0, ps[..i]);
        !p.faulted && s.data == p.data && s.pos == p.pos && footer.patchDatas == p.patchDatas
    {
      assert ps[i] == ViewOf(vms[i]);
      SavePatchesStep(p0, ps, i);
      faulted := SavePatchStep(s, vms[i], footer);
      if faulted {
        SavePatchesFaultStays(p0, ps, i + 1);
        return;
      }
      i := i + 1;
    }
    assert ps[..i] == ps;
    faulted := false;
  }

  /** One turn of the relocation loop of SaveAsync: relocate entry i at
      the cursor, store its record in the footer, align. starts carries,
      for the statement only, where the earlier entries were written. */
  method RelocateStep(s: Stream, ds: seq<RelocatedData>, i: nat, footer: Footer, ghost starts: seq<int>) returns (faulted: bool)
    requires i < |ds| && s.pos >= 0 && ArchiveInRom(ds[i].parentArchive)
    requires forall j, k :: 0 <= j < k < |ds| ==> ds[j].obj != ds[k].obj
    modifies s, footer`relocatedStructs, ds[i].obj
    ensures var r := RelocateEntry(Relocations(old(s.data), old(s.pos), old(footer.relocatedStructs), starts, false), old(EntryOf(ds[i])));
      s.data == r.data && s.pos == r.pos && footer.relocatedStructs == r.records && faulted == r.faulted
    ensures ds[i].obj.offset == RelocatedOffset(RomPointer(old(s.pos)), ds[i].encoder, i)
    ensures forall j :: 0 <= j < |ds| && j != i ==> ds[j].obj.offset == old(ds[j].obj.offset)
  {
    var rec := Relocate(ds[i], s, i);
    if rec.None? {
      return true;
    }
    footer.relocatedStructs := footer.relocatedStructs + [rec.value];
    s.Align();
    faulted := false;
  }

  /** The relocation loop of SaveAsync: the footer's record count becomes
      the number of pending entries, and each entry is relocated in list
      order. Entry i re-homes its object at the place it was written
      (through virtual file i when it has an encoder); objects after a
      throw keep their offset. */
  method RelocateAll(s: Stream, ds: seq<RelocatedData>, footer: Footer) returns (faulted: bool)
    requires s.pos >= 0 && AllInRom(EntriesOf(ds))
    requires forall i, j :: 0 <= i < j < |ds| ==> ds[i].obj != ds[j].obj
    modifies s, footer`relocatedStructsCount, footer`relocatedStructs, Objects(ds)
    ensures var r := RelocateEntries(Relocations(old(s.data), old(s.pos), [], [], false), old(EntriesOf(ds)));
      s.data == r.data && s.pos == r.pos && faulted == r.faulted &&
      footer.relocatedStructsCount == |ds| && footer.relocatedStructs == r.records &&
      |r.starts| <= |ds| &&
      (forall i :: 0 <= i < |r.starts| ==> ds[i].obj.offset == RelocatedOffset(RomPointer(r.starts[i]), ds[i].encoder, i)) &&
      (forall i :: |r.starts| <= i < |ds| ==> ds[i].obj.offset == old(ds[i].obj.offset))
  {
    ghost var es := EntriesOf(ds);
    ghost var r0 := Relocations(s.data, s.pos, [], [], false);
    footer.relocatedStructsCount := |ds|;
    footer.relocatedStructs := [];
    var i := 0;
    ghost var starts: seq<int> := [];
    while i < |ds|
      invariant 0 <= i <= |ds| && s.pos >= 0
      invariant footer.relocatedStructsCount == |ds|
      invariant var r := RelocateEntries(r0, es[..i]);
        !r.faulted && s.data == r.data && s.pos == r.pos && footer.relocatedStructs == r.records && r.starts == starts
      invariant |starts| == i
      invariant forall j :: 0 <= j < i ==> ds[j].obj.offset == RelocatedOffset(RomPointer(starts[j]), ds[j].encoder, j)
      invariant forall j :: i <= j < |ds| ==> ds[j].obj.offset == old(ds[j].obj.offset)
    {
      RelocateEntriesStep(r0, es, i);
      ghost var before := RelocateEntries(r0, es[..i]);
      assert es[i] == EntryOf(ds[i]);
      faulted := RelocateStep(s, ds, i, footer, starts);
      RelocateEntryStart(before, es[i]);
      ghost var prev := starts;
      starts := starts + [before.pos];
      forall j | 0 <= j < i + 1
        ensures ds[j].obj.offset == RelocatedOffset(RomPointer(starts[j]), ds[j].encoder, j)
      {
        if j < i {
          assert starts[j] == prev[j];
        }
      }
      assert RelocateEntries(r0, es[..i + 1]).starts == starts;
      if faulted {
        RelocateFaultStays(r0, es, i + 1);
        return;
      }
      i := i + 1;
    }
    assert es[..i] == es;
    faulted := false;
  }

  class AppViewModel {
    /** The footer of the loaded ROM; null when nothing is loaded. */
    var footer: Footer?
    var patchViewModels: seq<PatchViewModel>
    var pending: seq<RelocatedData>

    constructor ()
      ensures footer == null && patchViewModels == [] && pending == []
    {
      footer := null;
      patchViewModels := [];
      pending := [];
    }

    /** At most one pending entry per object offset. */
    predicate Valid()
      reads this, Objects(pending)
    {
      Distinct(Keys(EntriesOf(pending)))
    }

    /** UnsavedChanges: some pending entry is new data. */
    predicate UnsavedChanges()
      reads this
    {
      exists i :: 0 <= i < |pending| && pending[i].IsNewData()
    }

    lemma UnsavedIsNewData()
      ensures UnsavedChanges() <==> AnyNewData(EntriesOf(pending))
    {
      var es := EntriesOf(pending);
      if AnyNewData(es) {
        var i :| 0 <= i < |es| && es[i].originPointer.None?;
        assert es[i] == EntryOf(pending[i]);
        assert pending[i].IsNewData();
      }
      if UnsavedChanges() {
        var i :| 0 <= i < |pending| && pending[i].IsNewData();
        assert es[i] == EntryOf(pending[i]);
      }
    }

    /** FirstOrDefault over the pending list by object offset: the index of
        the first entry at key, or the length when there is none. */
    method FindPending(key: Pointer) returns (i: nat)
      ensures i <= |pending|
      ensures FirstMatch(EntriesOf(pending), key) == if i < |pending| then Some(i) else None
    {
      ghost var es := EntriesOf(pending);
      i := 0;
      while i < |pending| && pending[i].obj.offset != key
        invariant 0 <= i <= |pending|
        invariant forall j :: 0 <= j < i ==> es[j].offset != key
      {
        assert es[i] == EntryOf(pending[i]);
        i := i + 1;
      }
      if i < |pending| {
        assert es[i] == EntryOf(pending[i]);
      }
    }

    /** AddRelocatedData: replace the entry for the same object offset,
        keeping its origin pointer, or add a new one, at the end. */
    method AddRelocatedData(data: RelocatedData)
      modifies this`pending
      ensures EntriesOf(pending) == Upsert(old(EntriesOf(pending)), EntryOf(data))
      ensures Objects(pending) <= old(Objects(pending)) + {data.obj}
      ensures |pending| > 0 && pending[|pending| - 1].obj == data.obj
      ensures pending[|pending| - 1].parentArchive == data.parentArchive && pending[|pending| - 1].encoder == data.encoder
      ensures old(Valid()) ==> Valid()
    {
      ghost var ds := pending;
      ghost var es := EntriesOf(pending);
      var i := FindPending(data.obj.offset);
      var d := data;
      if i < |pending| {
        assert es[i] == EntryOf(pending[i]);
        d := data.(originPointer := pending[i].originPointer);
      }
      pending := Spliced(pending, i, d);
      EntriesOfSpliced(ds, i, d);
      if Distinct(Keys(es)) {
        UpsertKeepsDistinct(es, EntryOf(data));
      }
    }

    /** Unload: no footer, no patches, nothing pending. */
    method Unload()
      modifies this
      ensures footer == null && patchViewModels == [] && pending == []
    {
      footer := null;
      patchViewModels := [];
      pending := [];
    }

    /** LoadAsync on the stream of the ROM file: unload, read a new footer
        from the end of the file, keep it, replay its records and load the
        patch. archiveAt stands for the deserialization of the archive at a
        pointer (None when it throws). Any throw leaves the session
        unloaded. */
    method Load(s: Stream, archiveAt: Pointer -> Option<ArchiveFile>) returns (faulted: bool)
      modifies this, s`pos
      ensures faulted <==> LoadSession(s.data, archiveAt).None?
      ensures faulted ==> footer == null && patchViewModels == [] && pending == []
      ensures !faulted ==> Loaded(LoadSession(s.data, archiveAt).value)
      ensures !faulted ==> Valid() && !UnsavedChanges()
    {
      Unload();
      var f := new Footer();
      s.Goto(0);
      var readFault := f.TryReadFromEnd(s);
      if readFault {
        return true;
      }
      faulted := LoadFrom(s, f, archiveAt);
      if !faulted {
        LoadedIsSaved(s.data, archiveAt);
        UnsavedIsNewData();
      }
    }

    /** The loaded session held by this view model: the footer, the pending
        entries, and one patch view model enabled exactly when the patch was
        found applied, holding the width table its Load read. */
    ghost predicate Loaded(l: LoadedSession)
      reads this, footer, Objects(pending), set i | 0 <= i < |patchViewModels| :: patchViewModels[i]
      reads set i | 0 <= i < |patchViewModels| :: patchViewModels[i].patch
    {
      footer != null && footer.State() == l.footer && EntriesOf(pending) == l.entries &&
      |patchViewModels| == 1 && patchViewModels[0].wasEnabled == l.patchEnabled &&
      patchViewModels[0].isEnabled == l.patchEnabled && patchViewModels[0].patch.widths == l.widths
    }

    /** The load after the footer was read into f: keep f, check that every
        record has a parent archive pointer (the grouping by it throws
        otherwise), replay the records, load the patch. */
    method LoadFrom(s: Stream, f: Footer, archiveAt: Pointer -> Option<ArchiveFile>) returns (faulted: bool)
      requires footer == null && patchViewModels == [] && pending == []
      modifies this, s`pos
      ensures faulted <==> LoadFooter(s.data, old(f.State()), archiveAt).None?
      ensures faulted ==> footer == null && patchViewModels == [] && pending == []
      ensures !faulted ==> Loaded(LoadFooter(s.data, old(f.State()), archiveAt).value)
    {
      footer := f;
      var records := f.relocatedStructs;
      if !AllHaveParent(records) {
        Unload();
        return true;
      }
      faulted := ReplayRecords(s, records, archiveAt);
      if faulted {
        Unload();
        return;
      }
      faulted := LoadPatch(s, f.patchDatas);
    }

    /** One record of the replay loop: the DataSize bytes at its new
        pointer as a new object there, and the archive at its parent
        pointer, each read at its place with the cursor restored. */
    static method ReadRelocated(s: Stream, rec: RelocatedStruct, archiveAt: Pointer -> Option<ArchiveFile>)
      returns (d: Option<RelocatedData>)
      requires rec.parentArchivePointer.Some?
      modifies s`pos
      ensures s.pos == old(s.pos)
      ensures d.None? <==> ReplayRecord(s.data, rec, archiveAt).None?
      ensures d.Some? ==> fresh(d.value.obj) && EntryOf(d.value) == ReplayRecord(s.data, rec, archiveAt).value
    {
      var back := s.pos;
      s.Goto(rec.newPointer.FileOffset());
      var raw := s.Read(rec.dataSize);
      s.Goto(back);
      var archive := archiveAt(rec.parentArchivePointer.value);
      if raw.None? || archive.None? {
        return None;
      }
      var obj := new SerializableObject(rec.newPointer, raw.value);
      d := Some(RelocatedData(obj, archive, Some(rec.originalPointer), None));
    }

    /** The replay loop of LoadAsync: for each record in order, read
        DataSize bytes at its new pointer and the archive at its parent
        pointer (each at its place, the cursor restored), and add them
        through AddRelocatedData with the record's original pointer. */
    method ReplayRecords(s: Stream, records: seq<RelocatedStruct>, archiveAt: Pointer -> Option<ArchiveFile>)
      returns (faulted: bool)
      requires AllHaveParent(records) && pending == []
      modifies this`pending, s`pos
      ensures faulted <==> Replayed(s.data, records, archiveAt).None?
      ensures !faulted ==> EntriesOf(pending) == Replayed(s.data, records, archiveAt).value
    {
      var i := 0;
      assert records[..0] == [];
      assert EntriesOf(pending) == [];
      while i < |records|
        invariant 0 <= i <= |records| && AllHaveParent(records[..i])
        invariant Replayed(s.data, records[..i], archiveAt) == Some(EntriesOf(pending))
      {
        ReplayedStep(s.data, records, archiveAt, i);
        var d := ReadRelocated(s, records[i], archiveAt);
        if d.None? {
          ReplayFaultStays(s.data, records, archiveAt, i + 1);
          return true;
        }
        ghost var before := EntriesOf(pending);
        AddRelocatedData(d.value);
        assert EntriesOf(pending) == Upsert(before, EntryOf(d.value));
        i := i + 1;
      }
      assert records[..i] == records;
      faulted := false;
    }

    /** The patch step of LoadAsync: a new variable-width-font patch, loaded
        from the DataPointer of the footer's PatchData with its ID when there
        is one, in a view model enabled exactly then. A throwing Load
        unloads the session. */
    method LoadPatch(s: Stream, pds: seq<PatchData>) returns (faulted: bool)
      requires patchViewModels == []
      modifies this, s`pos
      ensures var pd := FindPatchData(pds, Vwf.Id);
        faulted <==> pd.Some? && Vwf.Loaded(s.data, pd.value.dataPointer.FileOffset()).None?
      ensures faulted ==> footer == null && patchViewModels == [] && pending == []
      ensures !faulted ==> footer == old(footer) && pending == old(pending) && |patchViewModels| == 1
      ensures !faulted ==>
        var pd := FindPatchData(pds, Vwf.Id);
        var vm := patchViewModels[0];
        fresh(vm) && fresh(vm.patch) && vm.wasEnabled == pd.Some? && vm.isEnabled == pd.Some? &&
        vm.patch.widths == if pd.Some? then Vwf.Loaded(s.data, pd.value.dataPointer.FileOffset()) else None
    {
      var patch := new Vwf.Patch();
      var pd := FindPatchData(pds, Vwf.Id);
      if pd.Some? {
        s.Goto(pd.value.dataPointer.FileOffset());
        var loadFault := patch.Load(s);
        if loadFault {
          Unload();
          return true;
        }
      }
      var vm := new PatchViewModel(patch, pd.Some?);
      patchViewModels := patchViewModels + [vm];
      faulted := false;
    }

    /** SaveAsync on the stream of the destination file: throws when no ROM
        is loaded or the ROM end lies before the ROM; otherwise cuts the
        file at the ROM end and appends, aligned, the patches, the
        relocations and the footer. length stands for the stream length the
        serializer reports when it places the footer's trailer. */
    method Save(s: Stream, romEnd: int, length: int) returns (faulted: bool)
      requires Valid() && AllInRom(EntriesOf(pending))
      modifies s, footer, Objects(pending)
      ensures footer == old(footer)
      ensures old(footer) == null ==> faulted && s.data == old(s.data) && s.pos == old(s.pos)
      ensures old(footer) != null ==>
        var r := Saved(old(s.data), old(s.pos), romEnd, old(PatchViews(patchViewModels)), old(EntriesOf(pending)), old(footer.State()), length);
        s.data == r.data && s.pos == r.pos && footer.State() == r.footer && faulted == r.faulted &&
        (forall i :: 0 <= i < |r.starts| && i < |pending| ==>
          pending[i].obj.offset == RelocatedOffset(RomPointer(r.starts[i]), pending[i].encoder, i))
    {
      if footer == null {
        return true;
      }
      if romEnd < RomBase {
        return true;
      }
      DistinctObjects(pending);
      faulted := SaveFrom(s, romEnd - RomBase, patchViewModels, pending, footer, length);
    }
  }

  /** The save from the cut: truncate the file at start, move there and
      align, run the patch loop, then the rest. */
  method SaveFrom(s: Stream, start: nat, vms: seq<PatchViewModel>, ds: seq<RelocatedData>, footer: Footer, length: int)
    returns (faulted: bool)
    requires AllInRom(EntriesOf(ds))
    requires forall i, j :: 0 <= i < j < |ds| ==> ds[i].obj != ds[j].obj
    modifies s, footer, Objects(ds)
    ensures var r := SavedFrom(old(s.data), start, old(PatchViews(vms)), old(EntriesOf(ds)), old(footer.State()), length);
      s.data == r.data && s.pos == r.pos && footer.State() == r.footer && faulted == r.faulted &&
      (forall i :: 0 <= i < |r.starts| && i < |ds| ==> ds[i].obj.offset == RelocatedOffset(RomPointer(r.starts[i]), ds[i].encoder, i))
  {
    ghost var ps := PatchViews(vms);
    ghost var es := EntriesOf(ds);
    ghost var f0 := footer.State();
    s.SetLength(start);
    s.Goto(start);
    s.Align();
    assert PatchViews(vms) == ps;
    ghost var p := SavePatches(Progress(s.data, s.pos, [], false), ps);
    faulted := ApplyPatches(s, vms, footer);
    assert footer.State() == f0.(patchDatas := p.patchDatas);
    if faulted {
      return;
    }
    assert EntriesOf(ds) == es;
    faulted := SaveAfterPatches(s, ds, footer, length);
  }

  /** The save after the patches: the relocation loop, then the footer
      written at the cursor. */
  method SaveAfterPatches(s: Stream, ds: seq<RelocatedData>, footer: Footer, length: int) returns (faulted: bool)
    requires s.pos >= 0 && AllInRom(EntriesOf(ds))
    requires forall i, j :: 0 <= i < j < |ds| ==> ds[i].obj != ds[j].obj
    modifies s, footer, Objects(ds)
    ensures var r := SavedAfterPatches(old(s.data), old(s.pos), old(EntriesOf(ds)), old(footer.State()), length);
      s.data == r.data && s.pos == r.pos && footer.State() == r.footer && faulted == r.faulted &&
      (forall i :: 0 <= i < |r.starts| && i < |ds| ==> ds[i].obj.offset == RelocatedOffset(RomPointer(r.starts[i]), ds[i].encoder, i))
  {
    faulted := RelocateAll(s, ds, footer);
    if faulted {
      return;
    }
    faulted := footer.Write(s, length);
  }
}
