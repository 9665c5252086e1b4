/** The session logic of AppViewModel on values: the pending relocation list
    and its upsert, and the save and load sequences as functions of the ROM
    bytes, the patch view models and the pending entries. The class that
    holds the session state and runs these steps is in module App. */
module Session {
  import opened Wrappers
  import opened Binary
  import opened BinaryHelpers
  import opened PatchedFooter
  import opened RelocatedData
  import Vwf = VariableWidthFontPatch
  import opened PatchViewModels

  // ---------------------------------------------------------------------
  // Pending relocations

  /** A pending relocation as values: the object's current offset and its
      bytes, the parent archive, the origin pointer and the encoder. */
  datatype Entry = Entry(
    offset: Pointer,
    image: seq<byte>,
    parentArchive: Option<ArchiveFile>,
    originPointer: Option<Pointer>,
    encoder: Option<Encoder>)

  /** The object offsets of a list, in order. */
  function Keys(es: seq<Entry>): (ks: seq<Pointer>)
    ensures |ks| == |es|
  {
    seq(|es|, i requires 0 <= i < |es| => es[i].offset)
  }

  predicate Distinct(ks: seq<Pointer>) {
    forall i, j :: 0 <= i < j < |ks| ==> ks[i] != ks[j]
  }

  /** FirstOrDefault by object offset: the index of the first entry at key. */
  function FirstMatch(es: seq<Entry>, key: Pointer): (r: Option<nat>)
    ensures r.Some? ==> r.value < |es| && es[r.value].offset == key
    ensures r.Some? ==> forall j :: 0 <= j < r.value ==> es[j].offset != key
    ensures r.None? ==> forall j :: 0 <= j < |es| ==> es[j].offset != key
  {
    if es == [] then None
    else if es[0].offset == key then Some(0)
    else
      match FirstMatch(es[1..], key)
      case None => None
      case Some(i) => Some(i + 1)
  }

  /** AddRelocatedData: an entry for an object offset already pending
      replaces it, taking over its origin pointer, and goes to the end. */
  function Upsert(es: seq<Entry>, e: Entry): (r: seq<Entry>)
    ensures |es| <= |r| <= |es| + 1
  {
    match FirstMatch(es, e.offset)
    case None => es + [e]
    case Some(i) => es[..i] + es[i + 1..] + [e.(originPointer := es[i].originPointer)]
  }

  /** The entries whose object is not at key, in order. */
  function Without(es: seq<Entry>, key: Pointer): (r: seq<Entry>)
    ensures |r| <= |es|
  {
    if es == [] then []
    else if es[|es| - 1].offset == key then Without(es[..|es| - 1], key)
    else Without(es[..|es| - 1], key) + [es[|es| - 1]]
  }

  /** The added entry ends up last, carrying the origin pointer of the
      entry it replaced, and the list grows exactly when nothing matched. */
  lemma UpsertLast(es: seq<Entry>, e: Entry)
    ensures var r := Upsert(es, e);
      |r| == (if e.offset in Keys(es) then |es| else |es| + 1) &&
      r[|r| - 1] == (if e.offset in Keys(es) then e.(originPointer := es[FirstMatch(es, e.offset).value].originPointer) else e)
  {
    var m := FirstMatch(es, e.offset);
    if m.Some? {
      assert Keys(es)[m.value] == e.offset;
    } else {
      assert e.offset !in Keys(es) by {
        forall j | 0 <= j < |es|
          ensures Keys(es)[j] != e.offset
        {
        }
      }
    }
  }

  lemma {:induction false} WithoutAbsent(es: seq<Entry>, key: Pointer)
    requires forall j :: 0 <= j < |es| ==> es[j].offset != key
    ensures Without(es, key) == es
  {
    if es != [] {
      WithoutAbsent(es[..|es| - 1], key);
    }
  }

  lemma {:induction false} WithoutConcat(a: seq<Entry>, b: seq<Entry>, key: Pointer)
    ensures Without(a + b, key) == Without(a, key) + Without(b, key)
  {
    if b == [] {
      assert a + b == a;
    } else {
      var n := |b|;
      assert (a + b)[..|a + b| - 1] == a + b[..n - 1];
      WithoutConcat(a, b[..n - 1], key);
    }
  }

  /** With at most one entry per offset, the entries before the added one
      are the old ones minus the one at the same offset, in their order. */
  lemma UpsertKeepsOthers(es: seq<Entry>, e: Entry)
    requires Distinct(Keys(es))
    ensures var r := Upsert(es, e); r[..|r| - 1] == Without(es, e.offset)
  {
    var m := FirstMatch(es, e.offset);
    if m.None? {
      WithoutAbsent(es, e.offset);
      assert (es + [e])[..|es|] == es;
    } else {
      var i := m.value;
      var r := Upsert(es, e);
      assert es == es[..i] + [es[i]] + es[i + 1..];
      WithoutConcat(es[..i] + [es[i]], es[i + 1..], e.offset);
      WithoutConcat(es[..i], [es[i]], e.offset);
      WithoutAbsent(es[..i], e.offset);
      var tail := es[i + 1..];
      forall j | 0 <= j < |tail|
        ensures tail[j].offset != e.offset
      {
        assert tail[j] == es[i + 1 + j];
        assert Keys(es)[i] != Keys(es)[i + 1 + j];
      }
      WithoutAbsent(es[i + 1..], e.offset);
      assert Without([es[i]], e.offset) == Without([], e.offset);
      assert r[..|r| - 1] == es[..i] + es[i + 1..];
    }
  }

  /** At most one entry per object offset before an add, and after it. */
  lemma UpsertKeepsDistinct(es: seq<Entry>, e: Entry)
    requires Distinct(Keys(es))
    ensures Distinct(Keys(Upsert(es, e)))
  {
    var r := Upsert(es, e);
    var m := FirstMatch(es, e.offset);
    forall a, b | 0 <= a < b < |r|
      ensures Keys(r)[a] != Keys(r)[b]
    {
      if m.None? {
        if b < |es| {
          assert Keys(es)[a] != Keys(es)[b];
        }
      } else {
        var i := m.value;
        var sa := if a < i then a else a + 1;
        if b < |r| - 1 {
          var sb := if b < i then b else b + 1;
          assert r[a] == es[sa] && r[b] == es[sb];
          assert Keys(es)[sa] != Keys(es)[sb];
        } else {
          assert r[a] == es[sa] && sa != i;
          if sa < i {
            assert es[sa].offset != e.offset;
          } else {
            assert Keys(es)[i] != Keys(es)[sa];
          }
        }
      }
    }
  }

  /** UnsavedChanges: some pending entry is new data (no origin pointer). */
  predicate AnyNewData(es: seq<Entry>) {
    exists i :: 0 <= i < |es| && es[i].originPointer.None?
  }

  /** An entry with an origin pointer added to a list of such entries leaves
      no new data, whether it replaces an entry or not. */
  lemma UpsertOfLoadedEntry(es: seq<Entry>, e: Entry)
    requires !AnyNewData(es) && e.originPointer.Some?
    ensures !AnyNewData(Upsert(es, e))
  {
    var r := Upsert(es, e);
    var m := FirstMatch(es, e.offset);
    forall k | 0 <= k < |r|
      ensures r[k].originPointer.Some?
    {
      if m.Some? && k < |r| - 1 {
        var i := m.value;
        var sk := if k < i then k else k + 1;
        assert r[k] == es[sk];
      } else if m.None? && k < |es| {
        assert r[k] == es[k];
      }
    }
  }

  /** New data for an object that is not pending makes the session unsaved. */
  lemma NewDataUnsaved(es: seq<Entry>, e: Entry)
    requires e.originPointer.None? && forall j :: 0 <= j < |es| ==> es[j].offset != e.offset
    ensures AnyNewData(Upsert(es, e))
  {
    assert Upsert(es, e)[|es|] == e;
  }

  // ---------------------------------------------------------------------
  // Save: patches

  /** A patch view model as values: IsEnabled, WasEnabled and the width
      table of its patch. */
  datatype PatchView = PatchView(isEnabled: bool, wasEnabled: bool, widths: Option<seq<byte>>)

  /** The file, the cursor and the PatchData list while the save runs, and
      whether a step threw. */
  datatype Progress = Progress(data: seq<byte>, pos: int, patchDatas: seq<PatchData>, faulted: bool)

  /** One turn of the patch loop: apply (recording ID, the cursor before
      Apply and the bytes appended), revert, or leave alone; then align. */
  function SavePatch(r: Progress, p: PatchView): (r': Progress)
    requires r.pos >= 0
    ensures r'.pos >= r.pos
  {
    if r.faulted then r
    else
      match ActionFor(p.isEnabled, p.wasEnabled)
      case ApplyPatch =>
        var a := Vwf.Applied(r.data, r.pos, p.widths);
        if a.faulted then Progress(a.data, a.pos, r.patchDatas, true)
        else Progress(a.data, Align4(a.pos), r.patchDatas + [PatchData(Vwf.Id, RomPointer(r.pos), ToU32(a.pos - r.pos))], false)
      case RevertPatch => Progress(Vwf.Reverted(r.data), Align4(r.pos), r.patchDatas, false)
      case Untouched => Progress(r.data, Align4(r.pos), r.patchDatas, false)
  }

  /** The patch loop over the view models in list order. */
  function SavePatches(r0: Progress, ps: seq<PatchView>): (r: Progress)
    requires r0.pos >= 0
    ensures r.pos >= r0.pos
  {
    if ps == [] then r0 else SavePatch(SavePatches(r0, ps[..|ps| - 1]), ps[|ps| - 1])
  }

  lemma SavePatchesStep(r0: Progress, ps: seq<PatchView>, i: nat)
    requires r0.pos >= 0 && i < |ps|
    ensures SavePatches(r0, ps[..i + 1]) == SavePatch(SavePatches(r0, ps[..i]), ps[i])
  {
    assert ps[..i + 1][..i] == ps[..i];
  }

  /** Once a step has thrown, the rest of the loop does nothing. */
  lemma {:induction false} SavePatchesFaultStays(r0: Progress, ps: seq<PatchView>, k: nat)
    requires r0.pos >= 0 && k <= |ps| && SavePatches(r0, ps[..k]).faulted
    ensures SavePatches(r0, ps) == SavePatches(r0, ps[..k])
  {
    if k < |ps| {
      var n := |ps|;
      assert ps[..n - 1][..k] == ps[..k];
      SavePatchesFaultStays(r0, ps[..n - 1], k);
    } else {
      assert ps[..k] == ps;
    }
  }

  function CountEnabled(ps: seq<PatchView>): nat {
    if ps == [] then 0 else CountEnabled(ps[..|ps| - 1]) + (if ps[|ps| - 1].isEnabled then 1 else 0)
  }

  /** One turn from a state that has not thrown: it throws exactly for an
      enabled patch without a width table, keeps the PatchData list so far,
      and appends one PatchData, with the patch's ID, exactly when an enabled
      patch was applied. */
  lemma SavePatchOutcome(r: Progress, p: PatchView)
    requires r.pos >= 0 && !r.faulted
    ensures var r' := SavePatch(r, p);
      (r'.faulted <==> p.isEnabled && p.widths.None?) &&
      |r'.patchDatas| == |r.patchDatas| + (if p.isEnabled && !r'.faulted then 1 else 0) &&
      r'.patchDatas[..|r.patchDatas|] == r.patchDatas &&
      (forall j :: |r.patchDatas| <= j < |r'.patchDatas| ==> r'.patchDatas[j].id == Vwf.Id)
  {
    var r' := SavePatch(r, p);
    if p.isEnabled && !r'.faulted {
      assert r'.patchDatas[..|r.patchDatas|] == r.patchDatas;
    }
  }

  /** The save throws in the patch loop exactly when an enabled patch has no
      width table. */
  lemma {:induction false} SavePatchesFaults(r0: Progress, ps: seq<PatchView>)
    requires r0.pos >= 0 && !r0.faulted
    ensures SavePatches(r0, ps).faulted <==> exists i :: 0 <= i < |ps| && ps[i].isEnabled && ps[i].widths.None?
  {
    if ps != [] {
      var n := |ps|;
      var init := ps[..n - 1];
      SavePatchesFaults(r0, init);
      var before := SavePatches(r0, init);
      if before.faulted {
        var i :| 0 <= i < |init| && init[i].isEnabled && init[i].widths.None?;
        assert ps[i] == init[i];
      } else {
        SavePatchOutcome(before, ps[n - 1]);
        assert forall i :: 0 <= i < n - 1 ==> ps[i] == init[i];
      }
    }
  }

  /** The patch loop keeps the PatchData list it started with and appends
      only entries with the patch's ID; when it does not throw, it appends
      exactly one per enabled patch. */
  lemma {:induction false} SavePatchesDatas(r0: Progress, ps: seq<PatchView>)
    requires r0.pos >= 0 && !r0.faulted
    ensures var r := SavePatches(r0, ps);
      |r.patchDatas| >= |r0.patchDatas| &&
      r.patchDatas[..|r0.patchDatas|] == r0.patchDatas &&
      (forall j :: |r0.patchDatas| <= j < |r.patchDatas| ==> r.patchDatas[j].id == Vwf.Id) &&
      (!r.faulted ==> |r.patchDatas| == |r0.patchDatas| + CountEnabled(ps))
  {
    if ps != [] {
      var n := |ps|;
      var init := ps[..n - 1];
      SavePatchesDatas(r0, init);
      var before := SavePatches(r0, init);
      if !before.faulted {
        var r := SavePatch(before, ps[n - 1]);
        SavePatchOutcome(before, ps[n - 1]);
        assert r.patchDatas[..|r0.patchDatas|] == r.patchDatas[..|before.patchDatas|][..|r0.patchDatas|];
      }
    }
  }

  /** With every patch disabled now and at load, the patch loop only aligns
      the cursor: the file is unchanged and no PatchData is recorded. */
  lemma {:induction false} AllUntouchedKeepsFile(r0: Progress, ps: seq<PatchView>)
    requires r0.pos >= 0 && !r0.faulted
    requires forall i :: 0 <= i < |ps| ==> !ps[i].isEnabled && !ps[i].wasEnabled
    ensures SavePatches(r0, ps).data == r0.data && SavePatches(r0, ps).patchDatas == r0.patchDatas
    ensures !SavePatches(r0, ps).faulted
  {
    if ps != [] {
      AllUntouchedKeepsFile(r0, ps[..|ps| - 1]);
    }
  }

  // ---------------------------------------------------------------------
  // Save: relocations

  /** The parent archive, when there is one, has its table in the ROM. */
  predicate ArchiveInRom(a: Option<ArchiveFile>) {
    a.Some? ==> RomTable(a.value.offsetTable)
  }

  /** The file, the cursor, the records so far, where each entry was
      written, and whether a step threw. */
  datatype Relocations = Relocations(data: seq<byte>, pos: int, records: seq<RelocatedStruct>, starts: seq<int>, faulted: bool)

  /** One turn of the relocation loop: Relocate at the cursor, keep its
      record, align. A null parent archive throws after the write. */
  function RelocateEntry(r: Relocations, e: Entry): (r': Relocations)
    requires r.pos >= 0 && ArchiveInRom(e.parentArchive)
    ensures r'.pos >= r.pos
  {
    if r.faulted then r
    else
      var x := Relocated(r.data, r.pos, e.offset, e.image, e.parentArchive, e.originPointer, e.encoder);
      match x.record
      case None => Relocations(x.data, x.pos, r.records, r.starts + [r.pos], true)
      case Some(rec) => Relocations(x.data, Align4(x.pos), r.records + [rec], r.starts + [r.pos], false)
  }

  /** A turn that has not thrown records where it wrote the entry. */
  lemma RelocateEntryStart(r: Relocations, e: Entry)
    requires r.pos >= 0 && ArchiveInRom(e.parentArchive) && !r.faulted
    ensures RelocateEntry(r, e).starts == r.starts + [r.pos]
  {
  }

  predicate AllInRom(es: seq<Entry>) {
    forall i :: 0 <= i < |es| ==> ArchiveInRom(es[i].parentArchive)
  }

  /** The relocation loop over the pending entries in list order. */
  function RelocateEntries(r0: Relocations, es: seq<Entry>): (r: Relocations)
    requires r0.pos >= 0 && AllInRom(es)
    ensures r.pos >= r0.pos
    ensures !r.faulted ==> |r.records| == |r0.records| + |es|
  {
    if es == [] then r0 else RelocateEntry(RelocateEntries(r0, es[..|es| - 1]), es[|es| - 1])
  }

  lemma RelocateEntriesStep(r0: Relocations, es: seq<Entry>, i: nat)
    requires r0.pos >= 0 && AllInRom(es) && i < |es|
    ensures AllInRom(es[..i]) && AllInRom(es[..i + 1])
    ensures RelocateEntries(r0, es[..i + 1]) == RelocateEntry(RelocateEntries(r0, es[..i]), es[i])
  {
    assert es[..i + 1][..i] == es[..i];
  }

  lemma {:induction false} RelocateFaultStays(r0: Relocations, es: seq<Entry>, k: nat)
    requires r0.pos >= 0 && AllInRom(es) && k <= |es|
    requires AllInRom(es[..k]) && RelocateEntries(r0, es[..k]).faulted
    ensures RelocateEntries(r0, es) == RelocateEntries(r0, es[..k])
  {
    if k < |es| {
      var n := |es|;
      assert es[..n - 1][..k] == es[..k];
      RelocateFaultStays(r0, es[..n - 1], k);
    } else {
      assert es[..k] == es;
    }
  }

  /** What the relocation loop decides apart from the bytes it writes: the
      cursor, the records, where each entry went, and whether it threw. */
  datatype Layout = Layout(pos: int, records: seq<RelocatedStruct>, starts: seq<int>, faulted: bool)

  function LayoutOf(r: Relocations): Layout {
    Layout(r.pos, r.records, r.starts, r.faulted)
  }

  /** One turn of the relocation loop without the writes: the entry takes
      its written size at the cursor and gets a record unless it has no
      parent archive. */
  function LayOut(l: Layout, e: Entry): Layout {
    if l.faulted then l
    else
      var end := l.pos + |WrittenBytes(e.image, e.encoder)|;
      match e.parentArchive
      case None => Layout(end, l.records, l.starts + [l.pos], true)
      case Some(archive) =>
        var rec := RelocatedStruct(e.originPointer.GetOr(GetRomPointer(e.offset)), RomPointer(l.pos), Some(archive.offset), ToU32(end - l.pos));
        Layout(Align4(end), l.records + [rec], l.starts + [l.pos], false)
  }

  function LayOutAll(l0: Layout, es: seq<Entry>): (l: Layout)
    ensures |l.records| - |l0.records| <= |l.starts| - |l0.starts| <= |es|
    ensures !l.faulted ==> |l.starts| - |l0.starts| == |es|
  {
    if es == [] then l0 else LayOut(LayOutAll(l0, es[..|es| - 1]), es[|es| - 1])
  }

  /** One turn of the relocation loop moves the cursor and extends the
      records and the starts as the layout says. */
  lemma RelocateEntryLaidOut(r: Relocations, e: Entry)
    requires r.pos >= 0 && ArchiveInRom(e.parentArchive)
    ensures LayoutOf(RelocateEntry(r, e)) == LayOut(LayoutOf(r), e)
  {
  }

  /** The relocation loop moves the cursor and builds the records and the
      starts exactly as the layout says. */
  lemma {:induction false} RelocationsLaidOut(r0: Relocations, es: seq<Entry>)
    requires r0.pos >= 0 && AllInRom(es)
    ensures LayoutOf(RelocateEntries(r0, es)) == LayOutAll(LayoutOf(r0), es)
  {
    if es != [] {
      var n := |es|;
      assert AllInRom(es[..n - 1]);
      RelocationsLaidOut(r0, es[..n - 1]);
      RelocateEntryLaidOut(RelocateEntries(r0, es[..n - 1]), es[n - 1]);
    }
  }

  lemma {:induction false} LayoutFaults(l0: Layout, es: seq<Entry>)
    requires !l0.faulted
    ensures LayOutAll(l0, es).faulted <==> exists i :: 0 <= i < |es| && es[i].parentArchive.None?
  {
    if es != [] {
      var n := |es|;
      var init := es[..n - 1];
      LayoutFaults(l0, init);
      if LayOutAll(l0, init).faulted {
        var i :| 0 <= i < |init| && init[i].parentArchive.None?;
        assert es[i] == init[i];
      } else {
        assert forall i :: 0 <= i < n - 1 ==> es[i] == init[i];
      }
    }
  }

  lemma {:induction false} LayoutSizes(l0: Layout, es: seq<Entry>)
    requires !l0.faulted && l0.records == [] && l0.starts == []
    ensures var l := LayOutAll(l0, es);
      (!l.faulted ==> |l.records| == |l.starts| == |es|) &&
      (l.faulted ==> |l.records| + 1 == |l.starts| <= |es|)
  {
    if es != [] {
      LayoutSizes(l0, es[..|es| - 1]);
    }
  }

  /** One turn that does not start from a throw: the entry starts at the
      cursor and the cursor moves at least past its bytes. */
  lemma LayOutStep(l: Layout, e: Entry)
    requires !l.faulted
    ensures var l' := LayOut(l, e);
      l'.starts == l.starts + [l.pos] &&
      l.pos + |WrittenBytes(e.image, e.encoder)| <= l'.pos &&
      (!l'.faulted ==> l'.pos % 4 == 0)
  {
  }

  /** The cursor never moves back, and is aligned unless the loop threw. */
  lemma {:induction false} LayoutCursor(l0: Layout, es: seq<Entry>)
    requires l0.pos % 4 == 0 && !l0.faulted
    ensures var l := LayOutAll(l0, es); l0.pos <= l.pos && (!l.faulted ==> l.pos % 4 == 0)
  {
    if es != [] {
      var init := es[..|es| - 1];
      LayoutCursor(l0, init);
      if !LayOutAll(l0, init).faulted {
        LayOutStep(LayOutAll(l0, init), es[|es| - 1]);
      }
    }
  }

  /** Entry i starts at an aligned cursor at or after the start, and its
      bytes end at or before the next entry's start (the cursor at the end,
      for the last one). */
  lemma {:induction false} LayoutStart(l0: Layout, es: seq<Entry>, i: nat)
    requires l0.pos % 4 == 0 && !l0.faulted && l0.starts == [] && i < |LayOutAll(l0, es).starts|
    ensures var l := LayOutAll(l0, es);
      l.starts[i] % 4 == 0 && l0.pos <= l.starts[i] &&
      l.starts[i] + |WrittenBytes(es[i].image, es[i].encoder)| <= (if i + 1 < |l.starts| then l.starts[i + 1] else l.pos)
  {
    var n := |es|;
    var init := es[..n - 1];
    var before := LayOutAll(l0, init);
    var l := LayOutAll(l0, es);
    if before.faulted {
      assert l == before && es[i] == init[i];
      LayoutStart(l0, init, i);
    } else {
      LayOutStep(before, es[n - 1]);
      if i < |before.starts| {
        assert es[i] == init[i];
        LayoutStart(l0, init, i);
        assert l.starts[i] == before.starts[i];
        if i + 1 < |before.starts| {
          assert l.starts[i + 1] == before.starts[i + 1];
        } else {
          assert l.starts[i + 1] == before.pos;
        }
      } else {
        LayoutCursor(l0, init);
        assert l.starts[i] == before.pos;
      }
    }
  }

  /** Record i belongs to entry i: it has the entry's origin pointer (or
      its resolved old offset) as original pointer, the place the entry was
      written as new pointer, and the archive it was registered with. */
  lemma {:induction false} LayoutRecord(l0: Layout, es: seq<Entry>, i: nat)
    requires !l0.faulted && l0.records == [] && l0.starts == [] && i < |LayOutAll(l0, es).records|
    ensures var l := LayOutAll(l0, es);
      es[i].parentArchive.Some? &&
      l.records[i].newPointer == RomPointer(l.starts[i]) &&
      l.records[i].originalPointer == es[i].originPointer.GetOr(GetRomPointer(es[i].offset)) &&
      l.records[i].parentArchivePointer == Some(es[i].parentArchive.value.offset)
  {
    var n := |es|;
    var init := es[..n - 1];
    var before := LayOutAll(l0, init);
    var l := LayOutAll(l0, es);
    if i < |before.records| {
      LayoutRecord(l0, init, i);
      assert l.records[i] == before.records[i] && l.starts[i] == before.starts[i] && es[i] == init[i];
    } else {
      LayoutSizes(l0, init);
      assert l.starts[i] == before.pos;
    }
  }

  // ---------------------------------------------------------------------
  // Save: the whole sequence

  /** The save as a whole: the file, cursor and footer afterwards, where
      each relocated entry was written, where the footer's body starts (the
      cursor where the save stopped, when it threw before the footer), and
      whether a step threw (after which the source shows an error and does
      not reload). */
  datatype SaveResult = SaveResult(data: seq<byte>, pos: int, footer: FooterState, starts: seq<int>, footerAt: int, faulted: bool)

  /** SaveAsync: cut the file at the configured ROM end and append from
      there, aligned: the patches, the relocations, then the footer. A ROM
      end below the start of the ROM makes SetLength throw. */
  function Saved(data: seq<byte>, pos: int, romEnd: int, ps: seq<PatchView>, es: seq<Entry>, f: FooterState, length: int): (r: SaveResult)
    requires AllInRom(es)
    ensures romEnd < RomBase ==> r.faulted && r.data == data
    ensures !r.faulted ==> r.footerAt >= romEnd - RomBase
    ensures !r.faulted ==> r.footer.relocatedStructsCount == |r.footer.relocatedStructs| == |es|
  {
    if romEnd < RomBase then SaveResult(data, pos, f, [], pos, true)
    else SavedFrom(data, romEnd - RomBase, ps, es, f, length)
  }

  /** The save once the file is cut at start: the patch loop, whose
      PatchData list replaces the footer's, then the rest. */
  function SavedFrom(data: seq<byte>, start: nat, ps: seq<PatchView>, es: seq<Entry>, f: FooterState, length: int): (r: SaveResult)
    requires AllInRom(es)
    ensures r.footerAt >= start
    ensures !r.faulted ==> r.footer.relocatedStructsCount == |r.footer.relocatedStructs| == |es|
  {
    var p := SavePatches(Progress(Resized(data, start), Align4(start), [], false), ps);
    var f1 := f.(patchDatas := p.patchDatas);
    if p.faulted then SaveResult(p.data, p.pos, f1, [], p.pos, true)
    else SavedAfterPatches(p.data, p.pos, es, f1, length)
  }

  /** The save after the patches: the relocation loop, whose records
      replace the footer's, then the footer at the cursor. */
  function SavedAfterPatches(data: seq<byte>, pos: nat, es: seq<Entry>, f: FooterState, length: int): (r: SaveResult)
    requires AllInRom(es)
    ensures r.footerAt >= pos && r.footer.patchDatas == f.patchDatas
    ensures !r.faulted ==> r.footer.relocatedStructsCount == |r.footer.relocatedStructs| == |es|
  {
    var r := RelocateEntries(Relocations(data, pos, [], [], false), es);
    var f2 := f.(relocatedStructsCount := |es|, relocatedStructs := r.records);
    if r.faulted then SaveResult(r.data, r.pos, f2, r.starts, r.pos, true)
    else
      var w := WriteFooter(r.data, r.pos, f2, length);
      SaveResult(w.data, w.pos, w.footer, r.starts, r.pos, w.faulted)
  }

  // ---------------------------------------------------------------------
  // Save: what the whole save keeps and what it leaves for the next load

  /** The bytes the variable width font patch writes at fixed addresses:
      the renderer edit and the routine pointer. */
  predicate InFixedLocations(k: int) {
    Vwf.FunctionPatchAddress <= k < Vwf.FunctionPatchAddress + 8 ||
    Vwf.NewFunctionPointerAddress <= k < Vwf.NewFunctionPointerAddress + 4
  }

  /** The slots of an archive's offset table, when there is an archive. */
  predicate InTable(a: Option<ArchiveFile>, k: int) {
    a.Some? &&
    SlotOffset(a.value.offsetTable, 0) <= k < SlotOffset(a.value.offsetTable, |a.value.offsetTable.filePointers|)
  }

  /** The slots of the table of some pending entry's parent archive. */
  predicate InSomeTable(es: seq<Entry>, k: int) {
    exists i :: 0 <= i < |es| && InTable(es[i].parentArchive, k)
  }

  /** Apply, with or without a width table, keeps every byte before the
      payload start that is not at a fixed address. */
  lemma AppliedKeeps(data: seq<byte>, p: nat, widths: Option<seq<byte>>, k: int)
    requires 0 <= k < |data| && k < p && !InFixedLocations(k)
    ensures |Vwf.Applied(data, p, widths).data| >= |data| && Vwf.Applied(data, p, widths).data[k] == data[k]
  {
    var q := Vwf.TablePointerOffset(p);
    var d1 := Vwf.PatchedFixed(data, p);
    FixedKeeps(data, p, k);
    var d := Overwrite(d1, p, Vwf.NewFunctionBytes);
    OverwriteOutside(d1, p, Vwf.NewFunctionBytes, k);
    match widths
    case None => OverwriteOutside(d, q, Vwf.TableHeader(q), k);
    case Some(w) => OverwriteOutside(d, q, Vwf.TableBlock(q, w), k);
  }

  /** The writes at the fixed addresses keep every other byte. */
  lemma FixedKeeps(data: seq<byte>, p: nat, k: int)
    requires 0 <= k < |data| && !InFixedLocations(k)
    ensures |Vwf.PatchedFixed(data, p)| >= |data| && Vwf.PatchedFixed(data, p)[k] == data[k]
  {
    var d0 := Overwrite(data, Vwf.FunctionPatchAddress, Vwf.FunctionPatchBytes);
    OverwriteOutside(data, Vwf.FunctionPatchAddress, Vwf.FunctionPatchBytes, k);
    OverwriteOutside(d0, Vwf.NewFunctionPointerAddress, U32Bytes(RomBase + p + 1), k);
  }

  /** Revert keeps every byte that is not at a fixed address. */
  lemma RevertedKeeps(data: seq<byte>, k: int)
    requires 0 <= k < |data| && !InFixedLocations(k)
    ensures |Vwf.Reverted(data)| >= |data| && Vwf.Reverted(data)[k] == data[k]
  {
    var r0 := Overwrite(data, Vwf.FunctionPatchAddress, Vwf.FunctionPatchOriginalBytes);
    OverwriteOutside(data, Vwf.FunctionPatchAddress, Vwf.FunctionPatchOriginalBytes, k);
    OverwriteOutside(r0, Vwf.NewFunctionPointerAddress, U32Bytes(Vwf.MaxTileIndex), k);
  }

  /** The patch loop keeps every byte before its starting cursor that is
      not at a fixed address, and never moves the cursor back. */
  lemma {:induction false} SavePatchesKeep(r0: Progress, ps: seq<PatchView>, k: int)
    requires r0.pos >= 0 && 0 <= k < |r0.data| && k < r0.pos && !InFixedLocations(k)
    ensures var r := SavePatches(r0, ps);
      r.pos >= r0.pos && |r.data| >= |r0.data| && r.data[k] == r0.data[k]
  {
    if ps != [] {
      var before := SavePatches(r0, ps[..|ps| - 1]);
      SavePatchesKeep(r0, ps[..|ps| - 1], k);
      if !before.faulted {
        AppliedKeeps(before.data, before.pos, ps[|ps| - 1].widths, k);
        RevertedKeeps(before.data, k);
      }
    }
  }

  /** A table slot of an entry that matched lies in that archive's table. */
  lemma MatchedSlotInTable(archive: ArchiveFile, original: Pointer, n: nat, k: int)
    requires n == |archive.offsetTable.filePointers| && InMatchedSlot(archive.offsetTable, original, n, k)
    ensures InTable(Some(archive), k)
  {
    var i :| 0 <= i < n && Matches(archive.offsetTable, i, original) &&
      SlotOffset(archive.offsetTable, i) <= k < SlotOffset(archive.offsetTable, i) + 4;
  }

  /** One relocation keeps every byte before the cursor outside its parent
      archive's table. */
  lemma RelocationKeeps(r: Relocations, e: Entry, k: int)
    requires r.pos >= 0 && ArchiveInRom(e.parentArchive)
    requires 0 <= k < |r.data| && k < r.pos && !InTable(e.parentArchive, k)
    ensures var r' := RelocateEntry(r, e);
      r'.pos >= r.pos && |r'.data| >= |r.data| && r'.data[k] == r.data[k]
  {
    if !r.faulted {
      var bytes := WrittenBytes(e.image, e.encoder);
      var written := Overwrite(r.data, r.pos, bytes);
      OverwriteOutside(r.data, r.pos, bytes, k);
      if e.parentArchive.Some? {
        var archive := e.parentArchive.value;
        var n := |archive.offsetTable.filePointers|;
        var original := GetRomPointer(e.offset);
        if InMatchedSlot(archive.offsetTable, original, n, k) {
          MatchedSlotInTable(archive, original, n, k);
        }
        OtherBytesKept(written, archive, original, RomPointer(r.pos), n, k);
      }
    }
  }

  /** The relocation loop keeps every byte before its starting cursor that
      lies outside the tables of the pending entries' parent archives. */
  lemma {:induction false} RelocateEntriesKeep(r0: Relocations, es: seq<Entry>, k: int)
    requires r0.pos >= 0 && AllInRom(es)
    requires 0 <= k < |r0.data| && k < r0.pos && !InSomeTable(es, k)
    ensures var r := RelocateEntries(r0, es);
      r.pos >= r0.pos && |r.data| >= |r0.data| && r.data[k] == r0.data[k]
  {
    if es != [] {
      var n := |es|;
      assert AllInRom(es[..n - 1]);
      RelocateEntriesKeep(r0, es[..n - 1], k);
      assert !InTable(es[n - 1].parentArchive, k);
      RelocationKeeps(RelocateEntries(r0, es[..n - 1]), es[n - 1], k);
    }
  }

  /** Writing the footer at a cursor keeps every byte before it outside the
      last 12 bytes of the reported length. */
  lemma FooterKeeps(data: seq<byte>, at: nat, f: FooterState, length: int, k: int)
    requires CountMatches(f) && 0 <= k < |data| && k < at && !(length - TrailerSize <= k < length)
    ensures var w := WriteFooter(data, at, f, length);
      |w.data| >= |data| && w.data[k] == data[k]
  {
    var d1 := Overwrite(data, at, Magic + I32Bytes(f.editorVersion));
    OverwriteOutside(data, at, Magic + I32Bytes(f.editorVersion), k);
    if f.editorVersion == CurrentEditorVersion {
      CountedKeeps(d1, at, f, length, k);
    }
  }

  /** The count, records and trailer write keeps every byte before the
      footer start outside the trailer. */
  lemma CountedKeeps(d1: seq<byte>, at: nat, f: FooterState, length: int, k: int)
    requires CountMatches(f) && 0 <= k < |d1| && k < at && !(length - TrailerSize <= k < length)
    ensures var w := WriteCounted(d1, at, f, length);
      |w.data| >= |d1| && w.data[k] == d1[k]
  {
    var d2 := Overwrite(d1, at + 8, I32Bytes(f.relocatedStructsCount));
    var d3 := Overwrite(d2, at + 12, EncodeRecords(f.relocatedStructs));
    OverwriteOutside(d1, at + 8, I32Bytes(f.relocatedStructsCount), k);
    OverwriteOutside(d2, at + 12, EncodeRecords(f.relocatedStructs), k);
    if length >= TrailerSize {
      OverwriteOutside(d3, length - 12, TrailerBytes(at), k);
    }
  }

  /** The save keeps the ROM: every byte below the ROM end that the
      variable width font patch does not write at its fixed addresses, that
      lies outside the tables of the pending entries' parent archives and
      outside the trailer's 12 bytes keeps its value, whether the save
      completes or throws part-way. */
  lemma SavedKeepsRom(data: seq<byte>, pos: int, romEnd: int, ps: seq<PatchView>, es: seq<Entry>, f: FooterState, length: int, k: int)
    requires AllInRom(es)
    requires 0 <= k < |data| && k < romEnd - RomBase
    requires !InFixedLocations(k) && !InSomeTable(es, k) && !(length - TrailerSize <= k < length)
    ensures var s := Saved(data, pos, romEnd, ps, es, f, length);
      k < |s.data| && s.data[k] == data[k]
  {
    var start: nat := romEnd - RomBase;
    assert Saved(data, pos, romEnd, ps, es, f, length) == SavedFrom(data, start, ps, es, f, length);
    SavedFromKeeps(data, start, ps, es, f, length, k);
  }

  /** The same, for the save from the aligned cursor on. */
  lemma SavedFromKeeps(data: seq<byte>, start: nat, ps: seq<PatchView>, es: seq<Entry>, f: FooterState, length: int, k: int)
    requires AllInRom(es)
    requires 0 <= k < |data| && k < start
    requires !InFixedLocations(k) && !InSomeTable(es, k) && !(length - TrailerSize <= k < length)
    ensures var s := SavedFrom(data, start, ps, es, f, length);
      k < |s.data| && s.data[k] == data[k]
  {
    var p0 := Progress(Resized(data, start), Align4(start), [], false);
    ResizedBytes(data, start, k);
    SavePatchesKeep(p0, ps, k);
    var p := SavePatches(p0, ps);
    if !p.faulted {
      AfterPatchesKeep(p.data, p.pos, es, f.(patchDatas := p.patchDatas), length, k);
    }
  }

  /** The relocations and the footer keep every byte before the cursor they
      start from, outside the tables and the trailer. */
  lemma AfterPatchesKeep(data: seq<byte>, pos: nat, es: seq<Entry>, f: FooterState, length: int, k: int)
    requires AllInRom(es)
    requires 0 <= k < |data| && k < pos
    requires !InSomeTable(es, k) && !(length - TrailerSize <= k < length)
    ensures var s := SavedAfterPatches(data, pos, es, f, length);
      k < |s.data| && s.data[k] == data[k]
  {
    var r0 := Relocations(data, pos, [], [], false);
    RelocateEntriesKeep(r0, es, k);
    var r := RelocateEntries(r0, es);
    if !r.faulted {
      var f2 := f.(relocatedStructsCount := |es|, relocatedStructs := r.records);
      FooterKeeps(r.data, r.pos, f2, length, k);
    }
  }

  /** The footer the save writes last is the one the next load finds: when
      the save completes, its footer body starts at a positive offset, the
      body ends before the last 12 bytes of the reported length, the file is
      that long and every record fits its 32-bit fields, TryReadFromEnd on
      the saved file reads version 1, one record per pending entry, and the
      stored form of the records the save made. */
  lemma SavedFooterReadsBack(data: seq<byte>, pos: int, romEnd: int, ps: seq<PatchView>, es: seq<Entry>, f: FooterState, length: int, g: FooterState)
    requires AllInRom(es)
    requires f.editorVersion == CurrentEditorVersion && |es| <= MaxRelocatedStructs
    requires var s := Saved(data, pos, romEnd, ps, es, f, length);
      !s.faulted && 0 < s.footerAt && s.footerAt + 12 + 12 * |es| <= length - TrailerSize &&
      |s.data| == length < TwoTo63 &&
      forall i :: 0 <= i < |s.footer.relocatedStructs| ==> Encodable(s.footer.relocatedStructs[i])
    ensures var s := Saved(data, pos, romEnd, ps, es, f, length);
      |s.footer.relocatedStructs| == |es| &&
      ReadFromEnd(s.data, g) ==
        ReadResult(FooterState(CurrentEditorVersion, |es|, StoredAll(s.footer.relocatedStructs), g.patchDatas), false)
  {
    var start := romEnd - RomBase;
    var p := SavePatches(Progress(Resized(data, start), Align4(start), [], false), ps);
    var f1 := f.(patchDatas := p.patchDatas);
    var r := RelocateEntries(Relocations(p.data, p.pos, [], [], false), es);
    var f2 := f1.(relocatedStructsCount := |es|, relocatedStructs := r.records);
    WriteFooterOutcome(r.data, r.pos, f2, length);
    var w := WriteFooter(r.data, r.pos, f2, length);
    WrittenBody(r.data, r.pos, f2, length);
    FooterRoundTrip(r.data, r.pos, f2, length, g);
  }

  // ---------------------------------------------------------------------
  // Load

  /** FirstOrDefault by ID over the footer's PatchData list. */
  function FindPatchData(pds: seq<PatchData>, id: string): (r: Option<PatchData>)
    ensures r.Some? ==> r.value in pds && r.value.id == id
    ensures r.None? <==> forall j :: 0 <= j < |pds| ==> pds[j].id != id
  {
    if pds == [] then None
    else if pds[0].id == id then Some(pds[0])
    else FindPatchData(pds[1..], id)
  }

  /** The load replay of one footer record: the bytes at its new pointer
      become the object, the archive at its parent pointer the parent, and
      its original pointer the origin. None when either read throws. */
  function ReplayRecord(data: seq<byte>, rec: RelocatedStruct, archiveAt: Pointer -> Option<ArchiveFile>): (r: Option<Entry>)
    requires rec.parentArchivePointer.Some?
    ensures r.Some? ==>
      r.value.offset == rec.newPointer && Slice(data, rec.newPointer.FileOffset(), rec.dataSize) == Some(r.value.image) &&
      |r.value.image| == rec.dataSize && r.value.originPointer == Some(rec.originalPointer) &&
      r.value.parentArchive == archiveAt(rec.parentArchivePointer.value) && r.value.encoder.None?
  {
    match Slice(data, rec.newPointer.FileOffset(), rec.dataSize)
    case None => None
    case Some(raw) =>
      match archiveAt(rec.parentArchivePointer.value)
      case None => None
      case Some(archive) => Some(Entry(rec.newPointer, raw, Some(archive), Some(rec.originalPointer), None))
  }

  predicate AllHaveParent(records: seq<RelocatedStruct>) {
    forall i :: 0 <= i < |records| ==> records[i].parentArchivePointer.Some?
  }

  /** The pending list the load builds from the footer records, added one
      by one through AddRelocatedData. */
  function Replayed(data: seq<byte>, records: seq<RelocatedStruct>, archiveAt: Pointer -> Option<ArchiveFile>): (r: Option<seq<Entry>>)
    requires AllHaveParent(records)
  {
    if records == [] then Some([])
    else
      match Replayed(data, records[..|records| - 1], archiveAt)
      case None => None
      case Some(es) =>
        match ReplayRecord(data, records[|records| - 1], archiveAt)
        case None => None
        case Some(e) => Some(Upsert(es, e))
  }

  /** The replay yields at most one pending entry per record, since a
      record for an object already pending replaces its entry. */
  lemma {:induction false} ReplayedLength(data: seq<byte>, records: seq<RelocatedStruct>, archiveAt: Pointer -> Option<ArchiveFile>)
    requires AllHaveParent(records)
    ensures var r := Replayed(data, records, archiveAt); r.Some? ==> |r.value| <= |records|
  {
    if records != [] {
      ReplayedLength(data, records[..|records| - 1], archiveAt);
    }
  }

  lemma ReplayedStep(data: seq<byte>, records: seq<RelocatedStruct>, archiveAt: Pointer -> Option<ArchiveFile>, i: nat)
    requires AllHaveParent(records) && i < |records|
    ensures AllHaveParent(records[..i]) && AllHaveParent(records[..i + 1])
    ensures Replayed(data, records[..i + 1], archiveAt) ==
      match Replayed(data, records[..i], archiveAt)
      case None => None
      case Some(es) =>
        match ReplayRecord(data, records[i], archiveAt)
        case None => None
        case Some(e) => Some(Upsert(es, e))
  {
    assert records[..i + 1][..i] == records[..i];
  }

  lemma {:induction false} ReplayFaultStays(data: seq<byte>, records: seq<RelocatedStruct>, archiveAt: Pointer -> Option<ArchiveFile>, k: nat)
    requires AllHaveParent(records) && k <= |records| && AllHaveParent(records[..k])
    requires Replayed(data, records[..k], archiveAt).None?
    ensures Replayed(data, records, archiveAt).None?
  {
    if k < |records| {
      var n := |records|;
      assert records[..n - 1][..k] == records[..k];
      ReplayFaultStays(data, records[..n - 1], archiveAt, k);
    } else {
      assert records[..k] == records;
    }
  }

  /** A loaded ROM has no unsaved changes and at most one entry per
      object: every replayed entry carries its record's original pointer. */
  lemma {:induction false} ReplayedIsSaved(data: seq<byte>, records: seq<RelocatedStruct>, archiveAt: Pointer -> Option<ArchiveFile>)
    requires AllHaveParent(records) && Replayed(data, records, archiveAt).Some?
    ensures !AnyNewData(Replayed(data, records, archiveAt).value)
    ensures Distinct(Keys(Replayed(data, records, archiveAt).value))
  {
    if records != [] {
      var n := |records|;
      ReplayedIsSaved(data, records[..n - 1], archiveAt);
      var es := Replayed(data, records[..n - 1], archiveAt).value;
      var e := ReplayRecord(data, records[n - 1], archiveAt).value;
      UpsertOfLoadedEntry(es, e);
      UpsertKeepsDistinct(es, e);
    }
  }

  /** A loaded session: the footer, the pending entries, and whether the
      variable-width-font patch was found applied (with the width table its
      Load read). */
  datatype LoadedSession = LoadedSession(footer: FooterState, entries: seq<Entry>, patchEnabled: bool, widths: Option<seq<byte>>)

  /** LoadAsync after the footer was read: the grouping of the records by
      parent archive pointer (which throws on a record without one), the
      replay of the records, and the lookup and Load of the patch. None when
      a step throws and the session is unloaded. */
  function LoadFooter(data: seq<byte>, f: FooterState, archiveAt: Pointer -> Option<ArchiveFile>): (r: Option<LoadedSession>)
    ensures r.Some? ==> AllHaveParent(f.relocatedStructs) && r.value.footer == f
    ensures r.Some? ==> |r.value.entries| <= |f.relocatedStructs|
    ensures r.Some? ==>
      (r.value.patchEnabled <==> FindPatchData(f.patchDatas, Vwf.Id).Some?) && (r.value.widths.Some? <==> r.value.patchEnabled)
  {
    if !AllHaveParent(f.relocatedStructs) then None
    else
      ReplayedLength(data, f.relocatedStructs, archiveAt);
      match Replayed(data, f.relocatedStructs, archiveAt)
      case None => None
      case Some(es) =>
        match FindPatchData(f.patchDatas, Vwf.Id)
        case None => Some(LoadedSession(f, es, false, None))
        case Some(pd) =>
          match Vwf.Loaded(data, pd.dataPointer.FileOffset())
          case None => None
          case Some(w) => Some(LoadedSession(f, es, true, Some(w)))
  }

  /** LoadAsync as a whole: a new footer read from the end of the file, then
      the rest of the load. */
  function LoadSession(data: seq<byte>, archiveAt: Pointer -> Option<ArchiveFile>): (r: Option<LoadedSession>)
    ensures r.Some? ==> !ReadFromEnd(data, Default).faulted && r.value.footer == ReadFromEnd(data, Default).footer
    ensures r.Some? ==> |r.value.entries| <= |r.value.footer.relocatedStructs|
  {
    var read := ReadFromEnd(data, Default);
    if read.faulted then None else LoadFooter(data, read.footer, archiveAt)
  }

  /** A session that loads has no unsaved changes and at most one pending
      entry per object, and its patch is enabled exactly when the footer
      holds PatchData with the patch's ID. */
  lemma LoadedIsSaved(data: seq<byte>, archiveAt: Pointer -> Option<ArchiveFile>)
    requires LoadSession(data, archiveAt).Some?
    ensures var l := LoadSession(data, archiveAt).value;
      !AnyNewData(l.entries) && Distinct(Keys(l.entries)) &&
      (l.patchEnabled <==> FindPatchData(l.footer.patchDatas, Vwf.Id).Some?)
  {
    var read := ReadFromEnd(data, Default);
    ReplayedIsSaved(data, read.footer.relocatedStructs, archiveAt);
  }

  lemma {:induction false} ReadRecordsHaveNoParent(data: seq<byte>, at: int, n: nat)
    requires ReadRecords(data, at, n).Some?
    ensures forall i :: 0 <= i < n ==> ReadRecords(data, at, n).value[i].parentArchivePointer.None?
  {
    if n > 0 {
      ReadRecordsHaveNoParent(data, at, n - 1);
    }
  }

  /** Records read from a file carry no parent archive pointer, since the
      version 1 record does not store one. */
  lemma ReadFooterHasNoParents(data: seq<byte>, f: FooterState)
    requires forall i :: 0 <= i < |f.relocatedStructs| ==> f.relocatedStructs[i].parentArchivePointer.None?
    ensures var rs := ReadFromEnd(data, f).footer.relocatedStructs;
      forall i :: 0 <= i < |rs| ==> rs[i].parentArchivePointer.None?
  {
    if |data| >= TrailerSize {
      var at := ReadI64(data[|data| - 12..|data| - 4]);
      if Slice(data, at + 8, 4).Some? {
        var count := ReadI32(data[at + 8..at + 12]);
        if 0 <= count && ReadRecords(data, at + 12, count).Some? {
          ReadRecordsHaveNoParent(data, at + 12, count);
        }
      }
    }
  }

  /** As the footer and the load are written, a file whose footer holds any
      relocation record does not load: the grouping by parent archive
      pointer meets a record without one. */
  lemma RecordsBlockLoad(data: seq<byte>, archiveAt: Pointer -> Option<ArchiveFile>)
    requires ReadFromEnd(data, Default).footer.relocatedStructs != []
    ensures LoadSession(data, archiveAt).None?
  {
    ReadFooterHasNoParents(data, Default);
    var rs := ReadFromEnd(data, Default).footer.relocatedStructs;
    assert rs[0].parentArchivePointer.None?;
  }

  /** As written, the PatchData list is never read from the file, so a
      session that loads has its patch disabled. */
  lemma PatchLoadsDisabled(data: seq<byte>, archiveAt: Pointer -> Option<ArchiveFile>)
    requires LoadSession(data, archiveAt).Some?
    ensures !LoadSession(data, archiveAt).value.patchEnabled
  {
    ReadFromEndGuards(data, Default);
  }
}
