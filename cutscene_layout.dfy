/** The cutscene editor's re-layout of its text: after the last script
    command, every text block a SetText command shows and every text array
    a SetTextMulti command shows is written once, 4-aligned, and each
    command is pointed at its block with a word offset. */
module CutsceneLayout {
  import opened Wrappers
  import opened Binary
  import TextCodec
  import App
  import AppNavigation

  /** What a script command shows: a text block, a text array (both named
      by the identity of the object the command holds), or neither. */
  datatype CommandKind = SetText(text: nat) | SetTextMulti(textArray: nat) | OtherKind

  /** A script command at a file offset, with its size and the two fields
      the re-layout rewrites. */
  datatype CutsceneCommand = CutsceneCommand(offset: int, size: nat, kind: CommandKind, textOffset: int, textOffsetOffset: int)

  /** A text array after its files recalculated their sizes: the size of
      its offset table and, per slot, the size of the file there (None for
      an empty slot). */
  datatype TextArray = TextArray(tableSize: nat, files: seq<Option<nat>>)

  /** Slot index of the offset table of text array textArray. */
  datatype FileSlot = FileSlot(textArray: nat, index: nat)

  /** A pointer written relative to an anchor. */
  datatype AnchoredPointer = AnchoredPointer(target: int, anchor: int)

  /** The key of the table of blocks already written. */
  datatype Block = TextBlock(id: nat) | ArrayBlock(id: nat)

  predicate Handled(k: CommandKind) {
    !k.OtherKind?
  }

  function BlockOf(k: CommandKind): Block
    requires Handled(k)
  {
    if k.SetText? then TextBlock(k.text) else ArrayBlock(k.textArray)
  }

  /** The command kinds each loop visits: SetText first, then SetTextMulti. */
  predicate OfKind(c: CutsceneCommand, multi: bool) {
    if multi then c.kind.SetTextMulti? else c.kind.SetText?
  }

  /** The (short) cast of a distance divided by 4, with the division
      truncating toward zero as on 64-bit integers. */
  function WordOffset(target: int, from: int): (r: TextCodec.short)
    ensures from <= target < from + 0x20000 && (target - from) % 4 == 0 ==> from + 4 * r == target
  {
    TextCodec.ToShort(if target >= from then (target - from) / 4 else -((from - target) / 4))
  }

  /** The command pointed at a block written at target. */
  function Pointed(cmd: CutsceneCommand, target: int): CutsceneCommand {
    cmd.(textOffsetOffset := WordOffset(target, cmd.offset), textOffset := 1)
  }

  /** Same offsets, sizes and kinds, position by position. */
  predicate SameShape(a: seq<CutsceneCommand>, b: seq<CutsceneCommand>) {
    |a| == |b| &&
    forall j :: 0 <= j < |a| ==> a[j].offset == b[j].offset && a[j].size == b[j].size && a[j].kind == b[j].kind
  }

  predicate HandlesAll(cmds: seq<CutsceneCommand>, order: seq<nat>) {
    forall k :: 0 <= k < |order| ==> order[k] < |cmds| && Handled(cmds[order[k]].kind)
  }

  // ---------------------------------------------------------------------
  // The layout as a function

  /** Where the cursor ends after the files of a text array from slot j
      on, each non-empty file followed by alignment. */
  function FilesEnd(o: int, files: seq<Option<nat>>, j: nat): (e: int)
    ensures e >= o
    decreases |files| - j
  {
    if j >= |files| then o
    else FilesEnd(if files[j].Some? then Align4(o + files[j].value) else o, files, j + 1)
  }

  datatype FilesLaid = FilesLaid(end: int, pointers: map<FileSlot, AnchoredPointer>)

  /** The files of text array id from slot j on, written from o: each
      non-empty slot's pointer is the cursor anchored at anchor. */
  function LayFiles(id: nat, anchor: int, o: int, files: seq<Option<nat>>, j: nat,
                    pointers: map<FileSlot, AnchoredPointer>): (r: FilesLaid)
    ensures r.end == FilesEnd(o, files, j)
    decreases |files| - j
  {
    if j >= |files| then FilesLaid(o, pointers)
    else if files[j].None? then LayFiles(id, anchor, o, files, j + 1, pointers)
    else LayFiles(id, anchor, Align4(o + files[j].value), files, j + 1,
                  pointers[FileSlot(id, j) := AnchoredPointer(o, anchor)])
  }

  /** Where the cursor ends after a block written at at: a text block
      takes its 4-byte header and its size; a text array its header, its
      offset table and its files; then the cursor is aligned. */
  function BlockEnd(b: Block, at: int, texts: nat -> nat, arrays: nat -> TextArray): int {
    match b
    case TextBlock(id) => Align4(at + 4 + texts(id))
    case ArrayBlock(id) => Align4(FilesEnd(at + 4 + arrays(id).tableSize, arrays(id).files, 0))
  }

  /** The cursor, the blocks written so far and where, the commands and the
      offset tables' pointers. */
  datatype Layout = Layout(offset: int, placed: map<Block, int>, commands: seq<CutsceneCommand>,
                           pointers: map<FileSlot, AnchoredPointer>)

  /** One command: a block already written is pointed at again; otherwise
      the block is written at the cursor, which moves past it. */
  function Handle(l: Layout, i: nat, texts: nat -> nat, arrays: nat -> TextArray): (r: Layout)
    requires i < |l.commands| && Handled(l.commands[i].kind)
    ensures SameShape(l.commands, r.commands)
  {
    var cmd := l.commands[i];
    var b := BlockOf(cmd.kind);
    if b in l.placed then
      l.(commands := l.commands[i := Pointed(cmd, l.placed[b])])
    else
      var cmds := l.commands[i := Pointed(cmd, l.offset)];
      var placed := l.placed[b := l.offset];
      match b
      case TextBlock(id) =>
        Layout(BlockEnd(b, l.offset, texts, arrays), placed, cmds, l.pointers)
      case ArrayBlock(id) =>
        var laid := LayFiles(id, l.offset + 4, l.offset + 4 + arrays(id).tableSize, arrays(id).files, 0, l.pointers);
        Layout(Align4(laid.end), placed, cmds, laid.pointers)
  }

  /** The commands at the indices of order, in that order. */
  function LayOut(l: Layout, order: seq<nat>, texts: nat -> nat, arrays: nat -> TextArray): (r: Layout)
    requires HandlesAll(l.commands, order)
    ensures SameShape(l.commands, r.commands)
    decreases |order|
  {
    if order == [] then l
    else LayOut(Handle(l, order[0], texts, arrays), order[1..], texts, arrays)
  }

  /** The indices below k of the commands of one kind, last first. */
  function Descending(cmds: seq<CutsceneCommand>, multi: bool, k: nat): (r: seq<nat>)
    requires k <= |cmds|
    ensures HandlesAll(cmds, r)
  {
    if k == 0 then []
    else (if OfKind(cmds[k - 1], multi) then [k - 1] else []) + Descending(cmds, multi, k - 1)
  }

  /** r lists exactly the commands of one kind below k, each once, from
      the last to the first. */
  predicate ListsDescending(cmds: seq<CutsceneCommand>, multi: bool, k: nat, r: seq<nat>)
    requires k <= |cmds|
  {
    (forall a :: 0 <= a < |r| ==> r[a] < k && OfKind(cmds[r[a]], multi)) &&
    (forall a :: 0 < a < |r| ==> r[a] < r[a - 1]) &&
    (forall j :: 0 <= j < k && OfKind(cmds[j], multi) ==> j in r)
  }

  lemma {:induction false} DescendingOrder(cmds: seq<CutsceneCommand>, multi: bool, k: nat)
    requires k <= |cmds|
    ensures ListsDescending(cmds, multi, k, Descending(cmds, multi, k))
  {
    if k > 0 {
      DescendingOrder(cmds, multi, k - 1);
      var rest := Descending(cmds, multi, k - 1);
      var r := Descending(cmds, multi, k);
      if OfKind(cmds[k - 1], multi) {
        assert r == [k - 1] + rest;
        forall a | 0 < a < |r|
          ensures r[a] < r[a - 1]
        {
          assert r[a] == rest[a - 1];
          if a > 1 {
            assert r[a - 1] == rest[a - 2];
          }
        }
        forall a | 0 <= a < |r|
          ensures r[a] < k && OfKind(cmds[r[a]], multi)
        {
          if a > 0 {
            assert r[a] == rest[a - 1];
          }
        }
        forall j | 0 <= j < k && OfKind(cmds[j], multi)
          ensures j in r
        {
          if j == k - 1 {
            assert r[0] == j;
          } else {
            assert j in rest;
          }
        }
      } else {
        assert r == rest;
        forall j | 0 <= j < k && OfKind(cmds[j], multi)
          ensures j in r
        {
          assert j < k - 1;
        }
      }
    }
  }

  /** The first index listed is the last command of its kind. */
  lemma {:induction false} DescendingHead(cmds: seq<CutsceneCommand>, multi: bool, k: nat, j: nat)
    requires j < k <= |cmds| && OfKind(cmds[j], multi)
    requires forall j' :: j < j' < k ==> !OfKind(cmds[j'], multi)
    ensures |Descending(cmds, multi, k)| > 0 && Descending(cmds, multi, k)[0] == j
  {
    if j < k - 1 {
      DescendingHead(cmds, multi, k - 1, j);
      assert Descending(cmds, multi, k) == Descending(cmds, multi, k - 1);
    }
  }

  /** Where the first block goes: right after the last command, aligned. */
  function Origin(cmds: seq<CutsceneCommand>): int
    requires |cmds| > 0
  {
    Align4(cmds[|cmds| - 1].offset + cmds[|cmds| - 1].size)
  }

  /** The whole re-layout: text blocks from the last SetText command to the
      first, then text arrays from the last SetTextMulti command to the
      first. */
  function Relaid(cmds: seq<CutsceneCommand>, pointers: map<FileSlot, AnchoredPointer>,
                  texts: nat -> nat, arrays: nat -> TextArray): (r: Layout)
    requires |cmds| > 0
    ensures SameShape(cmds, r.commands)
  {
    var start := Layout(Origin(cmds), map[], cmds, pointers);
    var afterTexts := LayOut(start, Descending(cmds, false, |cmds|), texts, arrays);
    LayOut(afterTexts, Descending(cmds, true, |cmds|), texts, arrays)
  }

  // ---------------------------------------------------------------------
  // What the layout keeps

  /** The cursor is aligned and not before origin; every written block is
      aligned, starts at or after origin, is non-empty and ends at or
      before the cursor; no two written blocks overlap. */
  predicate Sound(l: Layout, origin: int, texts: nat -> nat, arrays: nat -> TextArray) {
    l.offset % 4 == 0 && origin <= l.offset &&
    (forall b :: b in l.placed ==>
      l.placed[b] % 4 == 0 && origin <= l.placed[b] < BlockEnd(b, l.placed[b], texts, arrays) <= l.offset) &&
    (forall b1, b2 :: b1 in l.placed && b2 in l.placed && b1 != b2 ==>
      BlockEnd(b1, l.placed[b1], texts, arrays) <= l.placed[b2] || BlockEnd(b2, l.placed[b2], texts, arrays) <= l.placed[b1])
  }

  /** Written blocks stay where they were written. */
  predicate Grows(a: map<Block, int>, b: map<Block, int>) {
    forall k :: k in a ==> k in b && b[k] == a[k]
  }

  /** Command j is either as it was in cmds or pointed at its block. */
  predicate PointedAt(l: Layout, cmds: seq<CutsceneCommand>, j: int)
    requires 0 <= j < |cmds| == |l.commands|
  {
    Handled(cmds[j].kind) && BlockOf(cmds[j].kind) in l.placed &&
    l.commands[j] == Pointed(cmds[j], l.placed[BlockOf(cmds[j].kind)])
  }

  predicate Tracks(l: Layout, cmds: seq<CutsceneCommand>) {
    SameShape(cmds, l.commands) &&
    forall j :: 0 <= j < |cmds| ==> l.commands[j] == cmds[j] || PointedAt(l, cmds, j)
  }

  /** Handling one command keeps the layout sound, never moves a written
      block, writes a new block after every earlier one, and points the
      command at its block. */
  lemma HandleKeeps(l: Layout, i: nat, origin: int, texts: nat -> nat, arrays: nat -> TextArray)
    requires i < |l.commands| && Handled(l.commands[i].kind)
    requires Sound(l, origin, texts, arrays)
    ensures var r := Handle(l, i, texts, arrays);
      Sound(r, origin, texts, arrays) && Grows(l.placed, r.placed) && l.offset <= r.offset &&
      BlockOf(l.commands[i].kind) in r.placed
    ensures var r := Handle(l, i, texts, arrays); var b := BlockOf(l.commands[i].kind);
      b !in l.placed ==> r.placed[b] == l.offset && forall b' :: b' in l.placed ==> l.placed[b'] < r.placed[b]
    ensures var r := Handle(l, i, texts, arrays);
      r.commands == l.commands[i := Pointed(l.commands[i], r.placed[BlockOf(l.commands[i].kind)])]
  {
    HandleSound(l, i, origin, texts, arrays);
  }

  /** Handling one command keeps the layout sound. */
  lemma HandleSound(l: Layout, i: nat, origin: int, texts: nat -> nat, arrays: nat -> TextArray)
    requires i < |l.commands| && Handled(l.commands[i].kind)
    requires Sound(l, origin, texts, arrays)
    ensures Sound(Handle(l, i, texts, arrays), origin, texts, arrays)
  {
    var r := Handle(l, i, texts, arrays);
    var b := BlockOf(l.commands[i].kind);
    if b !in l.placed {
      assert r.offset == BlockEnd(b, l.offset, texts, arrays);
      PlaceSound(l, r, b, origin, texts, arrays);
    }
  }

  /** Writing a new block at the cursor and moving the cursor to its end
      keeps the layout sound. */
  lemma PlaceSound(l: Layout, r: Layout, b: Block, origin: int, texts: nat -> nat, arrays: nat -> TextArray)
    requires Sound(l, origin, texts, arrays) && b !in l.placed
    requires r.placed == l.placed[b := l.offset] && r.offset == BlockEnd(b, l.offset, texts, arrays)
    ensures Sound(r, origin, texts, arrays)
  {
    forall b1, b2 | b1 in r.placed && b2 in r.placed && b1 != b2
      ensures BlockEnd(b1, r.placed[b1], texts, arrays) <= r.placed[b2] || BlockEnd(b2, r.placed[b2], texts, arrays) <= r.placed[b1]
    {
      if b1 != b && b2 != b {
        assert b1 in l.placed && b2 in l.placed;
      }
    }
  }

  /** Where the cursor goes: past a newly written block, to the block's
      aligned end; nowhere, with nothing else written, for a block already
      written. A new text array's files lie between its offset table and
      its end, anchored just after its 4-byte header. */
  lemma HandleAdvances(l: Layout, i: nat, texts: nat -> nat, arrays: nat -> TextArray)
    requires i < |l.commands| && Handled(l.commands[i].kind)
    ensures var r := Handle(l, i, texts, arrays); var b := BlockOf(l.commands[i].kind);
      b in l.placed ==> r.offset == l.offset && r.placed == l.placed && r.pointers == l.pointers
    ensures var r := Handle(l, i, texts, arrays); var b := BlockOf(l.commands[i].kind);
      b !in l.placed ==> r.offset == BlockEnd(b, l.offset, texts, arrays)
    ensures var r := Handle(l, i, texts, arrays); var b := BlockOf(l.commands[i].kind);
      b !in l.placed && b.TextBlock? ==> r.pointers == l.pointers
    ensures var r := Handle(l, i, texts, arrays); var b := BlockOf(l.commands[i].kind);
      b !in l.placed && b.ArrayBlock? ==>
        var files := arrays(b.id).files;
        forall n :: 0 <= n < |files| && files[n].Some? ==>
          FileSlot(b.id, n) in r.pointers && r.pointers[FileSlot(b.id, n)].anchor == l.offset + 4 &&
          l.offset + 4 + arrays(b.id).tableSize <= r.pointers[FileSlot(b.id, n)].target &&
          r.pointers[FileSlot(b.id, n)].target + files[n].value <= r.offset
  {
    var b := BlockOf(l.commands[i].kind);
    if b !in l.placed && b.ArrayBlock? {
      FilesLaidOut(b.id, l.offset + 4, l.offset + 4 + arrays(b.id).tableSize, arrays(b.id).files, 0, l.pointers);
    }
  }

  /** Handling a command keeps every command either untouched or pointed at
      its block. */
  lemma HandleTracks(l: Layout, i: nat, cmds: seq<CutsceneCommand>, origin: int, texts: nat -> nat, arrays: nat -> TextArray)
    requires i < |l.commands| && Handled(l.commands[i].kind)
    requires Sound(l, origin, texts, arrays) && Tracks(l, cmds)
    ensures Tracks(Handle(l, i, texts, arrays), cmds) && PointedAt(Handle(l, i, texts, arrays), cmds, i)
  {
    var r := Handle(l, i, texts, arrays);
    HandleKeeps(l, i, origin, texts, arrays);
    forall j | 0 <= j < |cmds|
      ensures r.commands[j] == cmds[j] || PointedAt(r, cmds, j)
    {
      if j == i {
        assert r.commands[j] == Pointed(cmds[j], r.placed[BlockOf(cmds[j].kind)]);
      } else if l.commands[j] != cmds[j] {
        assert PointedAt(l, cmds, j);
      }
    }
  }

  /** Laying out a sequence of commands keeps the layout sound, never moves
      a written block, and leaves every command of the sequence pointed at
      its block. */
  lemma {:induction false} LayOutKeeps(l: Layout, order: seq<nat>, cmds: seq<CutsceneCommand>, origin: int,
                                        texts: nat -> nat, arrays: nat -> TextArray)
    requires HandlesAll(l.commands, order)
    requires Sound(l, origin, texts, arrays) && Tracks(l, cmds)
    ensures var r := LayOut(l, order, texts, arrays);
      Sound(r, origin, texts, arrays) && Tracks(r, cmds) && Grows(l.placed, r.placed) && l.offset <= r.offset
    ensures var r := LayOut(l, order, texts, arrays);
      forall j :: 0 <= j < |cmds| && PointedAt(l, cmds, j) ==> PointedAt(r, cmds, j)
    ensures var r := LayOut(l, order, texts, arrays);
      forall k :: 0 <= k < |order| ==> PointedAt(r, cmds, order[k])
    decreases |order|
  {
    if order != [] {
      var h := Handle(l, order[0], texts, arrays);
      HandleKeeps(l, order[0], origin, texts, arrays);
      HandleTracks(l, order[0], cmds, origin, texts, arrays);
      assert forall j :: 0 <= j < |cmds| && PointedAt(l, cmds, j) ==> PointedAt(h, cmds, j) by {
        forall j | 0 <= j < |cmds| && PointedAt(l, cmds, j)
          ensures PointedAt(h, cmds, j)
        {
          if j != order[0] {
            assert h.commands[j] == l.commands[j];
          }
        }
      }
      assert HandlesAll(h.commands, order[1..]);
      LayOutKeeps(h, order[1..], cmds, origin, texts, arrays);
      var r := LayOut(l, order, texts, arrays);
      assert r == LayOut(h, order[1..], texts, arrays);
      forall k | 0 <= k < |order|
        ensures PointedAt(r, cmds, order[k])
      {
        if k > 0 {
          assert order[k] == order[1..][k - 1];
        }
      }
    }
  }

  /** What the re-layout promises: blocks are written aligned, from just
      after the last command on and without overlapping; the cursor ends
      aligned after all of them; every SetText and SetTextMulti command
      gets TextOffset 1 and the word offset of its own block, so that
      commands sharing a block share its one copy; every other command is
      left alone, and no command moves. */
  lemma RelaidLayout(cmds: seq<CutsceneCommand>, pointers: map<FileSlot, AnchoredPointer>,
                     texts: nat -> nat, arrays: nat -> TextArray)
    requires |cmds| > 0
    ensures var l := Relaid(cmds, pointers, texts, arrays);
      Sound(l, Origin(cmds), texts, arrays) && SameShape(cmds, l.commands)
    ensures var l := Relaid(cmds, pointers, texts, arrays);
      forall j :: 0 <= j < |cmds| && Handled(cmds[j].kind) ==>
        BlockOf(cmds[j].kind) in l.placed && l.commands[j].textOffset == 1 &&
        l.commands[j].textOffsetOffset == WordOffset(l.placed[BlockOf(cmds[j].kind)], cmds[j].offset)
    ensures var l := Relaid(cmds, pointers, texts, arrays);
      forall j :: 0 <= j < |cmds| && !Handled(cmds[j].kind) ==> l.commands[j] == cmds[j]
  {
    var start := Layout(Origin(cmds), map[], cmds, pointers);
    var textOrder := Descending(cmds, false, |cmds|);
    var arrayOrder := Descending(cmds, true, |cmds|);
    DescendingOrder(cmds, false, |cmds|);
    DescendingOrder(cmds, true, |cmds|);
    LayOutKeeps(start, textOrder, cmds, Origin(cmds), texts, arrays);
    var afterTexts := LayOut(start, textOrder, texts, arrays);
    LayOutKeeps(afterTexts, arrayOrder, cmds, Origin(cmds), texts, arrays);
    var l := Relaid(cmds, pointers, texts, arrays);
    forall j | 0 <= j < |cmds| && Handled(cmds[j].kind)
      ensures PointedAt(l, cmds, j)
    {
      if cmds[j].kind.SetText? {
        assert OfKind(cmds[j], false);
        var k :| 0 <= k < |textOrder| && textOrder[k] == j;
        assert PointedAt(afterTexts, cmds, j);
      } else {
        assert OfKind(cmds[j], true);
        var k :| 0 <= k < |arrayOrder| && arrayOrder[k] == j;
      }
    }
    forall j | 0 <= j < |cmds| && !Handled(cmds[j].kind)
      ensures l.commands[j] == cmds[j]
    {
      assert !PointedAt(l, cmds, j);
    }
  }

  /** The last SetText command's block is the first one written, right
      after the last command, aligned. */
  lemma LastTextFirst(cmds: seq<CutsceneCommand>, pointers: map<FileSlot, AnchoredPointer>,
                      texts: nat -> nat, arrays: nat -> TextArray, j: nat)
    requires j < |cmds| && cmds[j].kind.SetText?
    requires forall j' :: j < j' < |cmds| ==> !cmds[j'].kind.SetText?
    ensures var l := Relaid(cmds, pointers, texts, arrays);
      BlockOf(cmds[j].kind) in l.placed && l.placed[BlockOf(cmds[j].kind)] == Origin(cmds)
  {
    var start := Layout(Origin(cmds), map[], cmds, pointers);
    var textOrder := Descending(cmds, false, |cmds|);
    DescendingHead(cmds, false, |cmds|, j);
    var h := Handle(start, j, texts, arrays);
    HandleKeeps(start, j, Origin(cmds), texts, arrays);
    assert h.placed[BlockOf(cmds[j].kind)] == Origin(cmds);
    assert HandlesAll(h.commands, textOrder[1..]);
    LayOutKeeps(h, textOrder[1..], cmds, Origin(cmds), texts, arrays);
    var afterTexts := LayOut(start, textOrder, texts, arrays);
    assert afterTexts == LayOut(h, textOrder[1..], texts, arrays);
    LayOutKeeps(afterTexts, Descending(cmds, true, |cmds|), cmds, Origin(cmds), texts, arrays);
  }

  /** A file slot the layout of text array id from slot j on does not
      write. */
  predicate Untouched(s: FileSlot, id: nat, files: seq<Option<nat>>, j: nat) {
    s.textArray != id || s.index < j || s.index >= |files| || files[s.index].None?
  }

  /** The files of a text array: each non-empty slot's pointer is anchored
      just after the array's 4-byte header, lies at or after the table,
      is aligned unless it is the first written, and the files follow each
      other in slot order without overlapping; empty slots and other
      arrays' pointers are kept. */
  lemma {:induction false} FilesLaidOut(id: nat, anchor: int, o: int, files: seq<Option<nat>>, j: nat,
                                         pointers: map<FileSlot, AnchoredPointer>)
    ensures var r := LayFiles(id, anchor, o, files, j, pointers);
      forall s :: Untouched(s, id, files, j) ==> (s in r.pointers <==> s in pointers)
    ensures var r := LayFiles(id, anchor, o, files, j, pointers);
      forall s :: s in pointers && Untouched(s, id, files, j) ==> r.pointers[s] == pointers[s]
    ensures var r := LayFiles(id, anchor, o, files, j, pointers);
      forall n :: j <= n < |files| && files[n].Some? ==>
        FileSlot(id, n) in r.pointers && r.pointers[FileSlot(id, n)].anchor == anchor &&
        o <= r.pointers[FileSlot(id, n)].target &&
        r.pointers[FileSlot(id, n)].target + files[n].value <= r.end &&
        (r.pointers[FileSlot(id, n)].target == o || r.pointers[FileSlot(id, n)].target % 4 == 0)
    ensures var r := LayFiles(id, anchor, o, files, j, pointers);
      forall n1, n2 :: j <= n1 < n2 < |files| && files[n1].Some? && files[n2].Some? ==>
        r.pointers[FileSlot(id, n1)].target + files[n1].value <= r.pointers[FileSlot(id, n2)].target
    decreases |files| - j
  {
    if j < |files| {
      if files[j].None? {
        FilesLaidOut(id, anchor, o, files, j + 1, pointers);
      } else {
        var next := Align4(o + files[j].value);
        var ps := pointers[FileSlot(id, j) := AnchoredPointer(o, anchor)];
        FilesLaidOut(id, anchor, next, files, j + 1, ps);
        var r := LayFiles(id, anchor, o, files, j, pointers);
        assert r == LayFiles(id, anchor, next, files, j + 1, ps);
        assert Untouched(FileSlot(id, j), id, files, j + 1);
        assert r.pointers[FileSlot(id, j)] == AnchoredPointer(o, anchor);
        assert FilesEnd(next, files, j + 1) >= next;
      }
    }
  }

  /** The word offset a command receives reaches its block exactly when the
      block is aligned like the command, lies after it and within the
      signed 16-bit range of words. */
  lemma PointedReaches(cmd: CutsceneCommand, target: int)
    requires cmd.offset % 4 == 0 && target % 4 == 0 && cmd.offset <= target < cmd.offset + 0x20000
    ensures var p := Pointed(cmd, target);
      p.textOffset == 1 && p.offset + 4 * p.textOffsetOffset == target
  {
  }

  // ---------------------------------------------------------------------
  // The editor

  class CutsceneEditor {
    /** The script's commands, in file order. */
    var commands: seq<CutsceneCommand>
    /** The offset tables of the text arrays, slot by slot. */
    var filePointers: map<FileSlot, AnchoredPointer>
    var preFileSize: int
    /** The file offset of the cutscene file itself. */
    const fileStart: int

    constructor (fileStart: int, commands: seq<CutsceneCommand>, filePointers: map<FileSlot, AnchoredPointer>)
      ensures this.fileStart == fileStart && this.commands == commands && this.filePointers == filePointers
    {
      this.fileStart := fileStart;
      this.commands := commands;
      this.filePointers := filePointers;
      preFileSize := 0;
    }

    /** The files of one text array, written from o with pointers anchored
        at anchor; returns where the cursor ends. */
    method PlaceFiles(id: nat, anchor: int, o: int, files: seq<Option<nat>>) returns (end: int)
      modifies this`filePointers
      ensures FilesLaid(end, filePointers) == LayFiles(id, anchor, o, files, 0, old(filePointers))
    {
      end := o;
      var j := 0;
      while j < |files|
        invariant 0 <= j <= |files|
        invariant LayFiles(id, anchor, o, files, 0, old(filePointers)) == LayFiles(id, anchor, end, files, j, filePointers)
      {
        if files[j].Some? {
          filePointers := filePointers[FileSlot(id, j) := AnchoredPointer(end, anchor)];
          end := Align4(end + files[j].value);
        }
        j := j + 1;
      }
    }

    /** One iteration of either loop, with the cursor and the table of
        written blocks as they stand. */
    method HandleCommand(offset: int, placed: map<Block, int>, i: nat, texts: nat -> nat, arrays: nat -> TextArray)
      returns (offset': int, placed': map<Block, int>)
      requires i < |commands| && Handled(commands[i].kind)
      modifies this`commands, this`filePointers
      ensures Layout(offset', placed', commands, filePointers) ==
        Handle(Layout(offset, placed, old(commands), old(filePointers)), i, texts, arrays)
    {
      var cmd := commands[i];
      var b := BlockOf(cmd.kind);
      if b in placed {
        commands := commands[i := cmd.(textOffsetOffset := WordOffset(placed[b], cmd.offset), textOffset := 1)];
        return offset, placed;
      }
      commands := commands[i := cmd.(textOffsetOffset := WordOffset(offset, cmd.offset), textOffset := 1)];
      placed' := placed[b := offset];
      match b {
        case TextBlock(id) =>
          offset' := Align4(offset + 4 + texts(id));
        case ArrayBlock(id) =>
          var anchor := offset + 4;
          var o := anchor + arrays(id).tableSize;
          o := PlaceFiles(id, anchor, o, arrays(id).files);
          offset' := Align4(o);
      }
    }

    /** One of the two loops: the commands at the indices of order, in
        that order. */
    method HandleAll(offset: int, placed: map<Block, int>, order: seq<nat>, texts: nat -> nat, arrays: nat -> TextArray)
      returns (offset': int, placed': map<Block, int>)
      requires HandlesAll(commands, order)
      modifies this`commands, this`filePointers
      ensures Layout(offset', placed', commands, filePointers) ==
        LayOut(Layout(offset, placed, old(commands), old(filePointers)), order, texts, arrays)
    {
      ghost var start := Layout(offset, placed, commands, filePointers);
      ghost var cmds := commands;
      offset', placed' := offset, placed;
      var k := 0;
      while k < |order|
        invariant 0 <= k <= |order|
        invariant SameShape(cmds, commands)
        invariant LayOut(start, order, texts, arrays) ==
          LayOut(Layout(offset', placed', commands, filePointers), order[k..], texts, arrays)
      {
        ghost var l := Layout(offset', placed', commands, filePointers);
        offset', placed' := HandleCommand(offset', placed', order[k], texts, arrays);
        assert order[k..][1..] == order[k + 1..];
        assert LayOut(l, order[k..], texts, arrays) ==
          LayOut(Layout(offset', placed', commands, filePointers), order[k + 1..], texts, arrays);
        k := k + 1;
      }
    }

    /** The two loops, from just after the last command, and the file's
        new size: where the cursor ends, from the start of the file. */
    method LayOutText(texts: nat -> nat, arrays: nat -> TextArray)
      requires |commands| > 0
      modifies this`commands, this`filePointers, this`preFileSize
      ensures var l := Relaid(old(commands), old(filePointers), texts, arrays);
        commands == l.commands && filePointers == l.pointers && preFileSize == l.offset - fileStart
    {
      var offset := Align4(commands[|commands| - 1].offset + commands[|commands| - 1].size);
      var placed: map<Block, int> := map[];
      ghost var cmds := commands;
      ghost var start := Layout(offset, placed, commands, filePointers);
      assert start == Layout(Origin(cmds), map[], cmds, filePointers);
      var textOrder := Descending(commands, false, |commands|);
      offset, placed := HandleAll(offset, placed, textOrder, texts, arrays);
      ghost var afterTexts := Layout(offset, placed, commands, filePointers);
      assert afterTexts == LayOut(start, Descending(cmds, false, |cmds|), texts, arrays);
      var arrayOrder := Descending(commands, true, |commands|);
      DescendingShape(cmds, commands, true, |cmds|);
      offset, placed := HandleAll(offset, placed, arrayOrder, texts, arrays);
      assert Layout(offset, placed, commands, filePointers) == LayOut(afterTexts, Descending(cmds, true, |cmds|), texts, arrays);
      preFileSize := offset - fileStart;
    }

    /** RelocateTextCommands: the text blocks, then the text arrays, are
        written after the last command (texts and arrays give their sizes
        after RecalculateSize); Pre_FileSize becomes the file's new size
        and the file is queued for relocation. With no commands the first
        step throws and nothing changes. */
    method RelocateTextCommands(texts: nat -> nat, arrays: nat -> TextArray,
                                node: AppNavigation.NavigationItemViewModel, app: App.AppViewModel)
      returns (faulted: bool, refused: bool)
      modifies this`commands, this`filePointers, this`preFileSize, app`pending, node`unsavedChanges
      ensures faulted <==> |old(commands)| == 0
      ensures faulted ==>
        commands == old(commands) && filePointers == old(filePointers) &&
        preFileSize == old(preFileSize) && app.pending == old(app.pending) && !refused
      ensures !faulted ==> (refused <==> node.IsNull() || node.offset.None?)
      ensures !faulted && !refused ==>
        |app.pending| > 0 && app.pending[|app.pending| - 1].obj == node.serializableObject.value.obj && node.unsavedChanges
      ensures !faulted && refused ==> app.pending == old(app.pending)
      ensures !faulted ==>
        var l := Relaid(old(commands), old(filePointers), texts, arrays);
        commands == l.commands && filePointers == l.pointers && preFileSize == l.offset - fileStart
    {
      faulted, refused := |commands| == 0, false;
      if !faulted {
        LayOutText(texts, arrays);
        refused := node.RelocateFile(app, None);
      }
    }
  }

  /** The loops' orders depend only on the commands' kinds, which the
      re-layout does not change. */
  lemma {:induction false} DescendingShape(a: seq<CutsceneCommand>, b: seq<CutsceneCommand>, multi: bool, k: nat)
    requires SameShape(a, b) && k <= |a|
    ensures Descending(a, multi, k) == Descending(b, multi, k)
  {
    if k > 0 {
      assert OfKind(a[k - 1], multi) == OfKind(b[k - 1], multi);
      DescendingShape(a, b, multi, k - 1);
    }
  }
}
