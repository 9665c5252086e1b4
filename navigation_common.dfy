/** What the two navigation item view models share: the objects a node
    shows, the selection state machine that drives the editor, the
    pre-order walk over a node's children, and the case-insensitive search
    over display names. */
module NavigationCommon {
  import opened Wrappers
  import opened Binary
  import opened RelocatedData

  // ---------------------------------------------------------------------
  // The objects a node shows

  /** What the runtime type of a serializable object tells the tree: an
      archive (which is also a base file) with its offset table and the
      table's naming entries, another base file, or anything else. */
  datatype FileKind =
    | ArchiveKind(view: ArchiveFile, archiveType: ArchiveType, kwEntries: seq<KwEntry>, wmapEntries: seq<WmapEntry>)
    | PlainFile
    | NotAFile

  datatype ArchiveType = KhKw | KhWmap | OtherArchiveType

  /** The naming entries of the KW and WMAP offset tables. */
  datatype KwEntry = KwEntry(mapId1: nat, mapId2: nat, mapId3: nat)
  datatype WmapEntry = WmapEntry(name: string, id: int)

  /** A serializable object with its type's facts: the size the file
      declares (-1 when unknown), its encoder, whether it is stored
      compressed, and whether its type has an editor (graphics, cutscene,
      text, text collection, item collection and animation files, and raw
      data that holds bytes). */
  datatype FileObject = FileObject(obj: SerializableObject, kind: FileKind, fileSize: int, encoder: Option<Encoder>, isCompressed: bool, editable: bool)
  {
    predicate IsArchive() {
      kind.ArchiveKind?
    }

    predicate IsBaseFile() {
      !kind.NotAFile?
    }

    /** (obj as BaseFile)?.Pre_FileEncoder */
    function BaseFileEncoder(): (e: Option<Encoder>)
      ensures e.Some? ==> IsBaseFile()
    {
      if IsBaseFile() then encoder else None
    }
  }

  /** The text a node shows for its name: the override name, else the title,
      else nothing (a null string interpolates as empty). */
  function ShownName(overrideFileName: Option<string>, title: Option<string>): string {
    if overrideFileName.Some? then overrideFileName.value
    else if title.Some? then title.value
    else ""
  }

  // ---------------------------------------------------------------------
  // Selection

  /** A call a node makes on its editor: Init when the node is built (or
      its object re-imported), Load and Unload from the IsSelected setter. */
  datatype EditorCall = EditorInit | EditorLoad(firstLoad: bool) | EditorUnload

  /** The selection fields of a node and the calls its editor received. */
  datatype Selection = Selection(isSelected: bool, hasLoaded: bool, calls: seq<EditorCall>)

  /** The IsSelected setter: selecting loads the editor (a first load the
      first time), deselecting unloads it; without an editor no call is
      made, but the node still counts as loaded. */
  function Select(st: Selection, hasEditor: bool, v: bool): (r: Selection)
    ensures r.isSelected == v
    ensures r.hasLoaded == (st.hasLoaded || v)
    ensures |r.calls| == |st.calls| + (if hasEditor then 1 else 0) && r.calls[..|st.calls|] == st.calls
    ensures hasEditor ==> r.calls[|st.calls|] == if v then EditorLoad(!st.hasLoaded) else EditorUnload
  {
    var calls := if !hasEditor then st.calls else st.calls + [if v then EditorLoad(!st.hasLoaded) else EditorUnload];
    Selection(v, st.hasLoaded || v, calls)
  }

  /** The selection after the setter is given each value in turn. */
  function SelectAll(st: Selection, hasEditor: bool, vs: seq<bool>): Selection {
    if vs == [] then st else Select(SelectAll(st, hasEditor, vs[..|vs| - 1]), hasEditor, vs[|vs| - 1])
  }

  /** Whether the editor has been loaded by any of these calls. */
  predicate AnyLoad(calls: seq<EditorCall>) {
    exists i :: 0 <= i < |calls| && calls[i].EditorLoad?
  }

  /** From a node never selected, whose editor has had no Load: only the
      first Load the editor receives is a first load, and the node counts
      as loaded exactly when it has been selected at least once. */
  lemma {:induction false} OnlyFirstLoadIsFirst(init: seq<EditorCall>, hasEditor: bool, vs: seq<bool>)
    requires !AnyLoad(init)
    ensures var r := SelectAll(Selection(false, false, init), hasEditor, vs);
      (r.hasLoaded <==> true in vs) &&
      forall i :: 0 <= i < |r.calls| && r.calls[i].EditorLoad? ==>
        (r.calls[i].firstLoad <==> !AnyLoad(r.calls[..i]))
  {
    if vs != [] {
      var n := |vs|;
      OnlyFirstLoadIsFirst(init, hasEditor, vs[..n - 1]);
      var prev := SelectAll(Selection(false, false, init), hasEditor, vs[..n - 1]);
      var r := SelectAll(Selection(false, false, init), hasEditor, vs);
      assert vs == vs[..n - 1] + [vs[n - 1]];
      assert true in vs <==> true in vs[..n - 1] || vs[n - 1];
      if hasEditor {
        LoadedMeansLoadCall(init, vs[..n - 1]);
      }
      SelectKeepsFirst(prev, hasEditor, vs[n - 1]);
    }
  }

  /** Every Load among these calls is a first load exactly when no Load
      came before it. */
  predicate OnlyFirstIsFirst(calls: seq<EditorCall>) {
    forall i :: 0 <= i < |calls| && calls[i].EditorLoad? ==> (calls[i].firstLoad <==> !AnyLoad(calls[..i]))
  }

  /** One more selection keeps only the first Load a first load, when the
      node counts as loaded exactly when its editor has had a Load. */
  lemma SelectKeepsFirst(st: Selection, hasEditor: bool, v: bool)
    requires OnlyFirstIsFirst(st.calls)
    requires hasEditor ==> (st.hasLoaded <==> AnyLoad(st.calls))
    ensures OnlyFirstIsFirst(Select(st, hasEditor, v).calls)
  {
    var r := Select(st, hasEditor, v);
    if hasEditor {
      forall i | 0 <= i < |r.calls| && r.calls[i].EditorLoad?
        ensures r.calls[i].firstLoad <==> !AnyLoad(r.calls[..i])
      {
        if i < |st.calls| {
          assert r.calls[..i] == st.calls[..i];
        } else {
          assert r.calls[..i] == st.calls;
        }
      }
    }
  }

  /** With an editor, a node has been loaded exactly when its editor has
      received a Load. */
  lemma {:induction false} LoadedMeansLoadCall(init: seq<EditorCall>, vs: seq<bool>)
    requires !AnyLoad(init)
    ensures var r := SelectAll(Selection(false, false, init), true, vs);
      r.hasLoaded <==> AnyLoad(r.calls)
  {
    if vs != [] {
      var n := |vs|;
      LoadedMeansLoadCall(init, vs[..n - 1]);
      var prev := SelectAll(Selection(false, false, init), true, vs[..n - 1]);
      var r := SelectAll(Selection(false, false, init), true, vs);
      assert r.calls == prev.calls + [r.calls[|prev.calls|]];
      if AnyLoad(prev.calls) {
        var i :| 0 <= i < |prev.calls| && prev.calls[i].EditorLoad?;
        assert r.calls[i] == prev.calls[i];
      }
      if AnyLoad(r.calls) && !vs[n - 1] {
        var i :| 0 <= i < |r.calls| && r.calls[i].EditorLoad?;
        assert i < |prev.calls|;
        assert prev.calls[i] == r.calls[i];
      }
    }
  }

  // ---------------------------------------------------------------------
  // The pre-order walk

  /** A node and its children as values (a child slot may be empty). */
  datatype Tree<T> = Tree(item: T, children: seq<Option<Tree<T>>>)

  /** GetAllChildren: the node itself first when asked, then each present
      child's subtree, itself included, in order. */
  function AllChildren<T>(t: Tree<T>, includeSelf: bool): seq<T>
    decreases t, 1
  {
    (if includeSelf then [t.item] else []) + ChildrenFrom(t, 0)
  }

  /** The subtrees of the children from index i on. */
  function ChildrenFrom<T>(t: Tree<T>, i: nat): seq<T>
    decreases t, 0, |t.children| - i
  {
    if i >= |t.children| then []
    else
      match t.children[i]
      case None => ChildrenFrom(t, i + 1)
      case Some(c) => AllChildren(c, true) + ChildrenFrom(t, i + 1)
  }

  /** The number of nodes in a tree, empty slots not counted. */
  function Size<T>(t: Tree<T>): nat
    decreases t, 1
  {
    1 + SizeFrom(t, 0)
  }

  function SizeFrom<T>(t: Tree<T>, i: nat): nat
    decreases t, 0, |t.children| - i
  {
    if i >= |t.children| then 0
    else
      match t.children[i]
      case None => SizeFrom(t, i + 1)
      case Some(c) => Size(c) + SizeFrom(t, i + 1)
  }

  /** The walk has one element per node, and the node itself comes first
      when included. */
  lemma {:induction false} AllChildrenSize<T>(t: Tree<T>)
    ensures |AllChildren(t, true)| == Size(t)
    ensures AllChildren(t, true)[0] == t.item
    ensures AllChildren(t, true) == [t.item] + AllChildren(t, false)
    decreases t, 1
  {
    ChildrenFromSize(t, 0);
  }

  lemma {:induction false} ChildrenFromSize<T>(t: Tree<T>, i: nat)
    ensures |ChildrenFrom(t, i)| == SizeFrom(t, i)
    decreases t, 0, |t.children| - i
  {
    if i < |t.children| {
      ChildrenFromSize(t, i + 1);
      if t.children[i].Some? {
        AllChildrenSize(t.children[i].value);
      }
    }
  }

  /** The nodes of a tree, as a multiset of their items: the node itself
      and the nodes of every present child, empty slots not counted. */
  function Nodes<T>(t: Tree<T>): multiset<T>
    decreases t, 1
  {
    multiset{t.item} + NodesFrom(t, 0)
  }

  function NodesFrom<T>(t: Tree<T>, i: nat): multiset<T>
    decreases t, 0, |t.children| - i
  {
    if i >= |t.children| then multiset{}
    else
      match t.children[i]
      case None => NodesFrom(t, i + 1)
      case Some(c) => Nodes(c) + NodesFrom(t, i + 1)
  }

  /** The walk visits every node of the tree exactly once: its items, with
      their multiplicities, are the tree's nodes, and there are Size of them. */
  lemma {:induction false} AllChildrenVisitsOnce<T>(t: Tree<T>)
    ensures multiset(AllChildren(t, true)) == Nodes(t)
    ensures |Nodes(t)| == Size(t)
    decreases t, 1
  {
    ChildrenFromNodes(t, 0);
  }

  lemma {:induction false} ChildrenFromNodes<T>(t: Tree<T>, i: nat)
    ensures multiset(ChildrenFrom(t, i)) == NodesFrom(t, i)
    ensures |NodesFrom(t, i)| == SizeFrom(t, i)
    decreases t, 0, |t.children| - i
  {
    if i < |t.children| {
      ChildrenFromNodes(t, i + 1);
      if t.children[i].Some? {
        var c := t.children[i].value;
        AllChildrenVisitsOnce(c);
        assert ChildrenFrom(t, i) == AllChildren(c, true) + ChildrenFrom(t, i + 1);
      }
    }
  }

  /** Every present child's subtree is part of the walk, after its parent. */
  lemma {:induction false} ChildSubtreeVisited<T>(t: Tree<T>, i: nat, x: T)
    requires i < |t.children| && t.children[i].Some? && x in AllChildren(t.children[i].value, true)
    ensures x in AllChildren(t, false)
  {
    ChildSubtreeVisitedFrom(t, 0, i, x);
  }

  lemma {:induction false} ChildSubtreeVisitedFrom<T>(t: Tree<T>, j: nat, i: nat, x: T)
    requires j <= i < |t.children| && t.children[i].Some? && x in AllChildren(t.children[i].value, true)
    ensures x in ChildrenFrom(t, j)
    decreases i - j
  {
    if j < i {
      ChildSubtreeVisitedFrom(t, j + 1, i, x);
    }
  }

  // ---------------------------------------------------------------------
  // Search

  /** Invariant-culture upper case, for the letters of ASCII. */
  function UpperChar(c: char): char {
    if 'a' <= c <= 'z' then (c as int - 32) as char else c
  }

  function Upper(s: string): (r: string)
    ensures |r| == |s| && forall i :: 0 <= i < |s| ==> r[i] == UpperChar(s[i])
  {
    seq(|s|, i requires 0 <= i < |s| => UpperChar(s[i]))
  }

  /** The query occurs in the name at position k, ignoring case. */
  predicate MatchAt(name: string, query: string, k: int) {
    0 <= k && k + |query| <= |name| && Upper(name[k..k + |query|]) == Upper(query)
  }

  /** IndexOf(query, InvariantCultureIgnoreCase) > -1: the query occurs in
      the name at some position, ignoring case. */
  predicate ContainsIgnoreCase(name: string, query: string) {
    exists k :: 0 <= k <= |name| - |query| && MatchAt(name, query, k)
  }

  /** The empty query is found in every name. */
  lemma EmptyQueryMatches(name: string)
    ensures ContainsIgnoreCase(name, "")
  {
    assert MatchAt(name, "", 0);
  }

  /** A query found in a name is found in any name around it. */
  lemma MatchExtends(prefix: string, name: string, suffix: string, query: string)
    requires ContainsIgnoreCase(name, query)
    ensures ContainsIgnoreCase(prefix + name + suffix, query)
  {
    var k :| 0 <= k <= |name| - |query| && MatchAt(name, query, k);
    var whole := prefix + name + suffix;
    assert whole[|prefix| + k..|prefix| + k + |query|] == name[k..k + |query|];
    assert MatchAt(whole, query, |prefix| + k);
  }

  /** Only letter case of the query does not matter. */
  lemma CaseDoesNotMatter(name: string, query: string)
    ensures ContainsIgnoreCase(name, query) <==> ContainsIgnoreCase(name, Upper(query))
  {
    assert Upper(Upper(query)) == Upper(query);
    forall k
      ensures MatchAt(name, query, k) <==> MatchAt(name, Upper(query), k)
    {
    }
  }

  // ---------------------------------------------------------------------
  // Decimal text

  function DigitChar(d: nat): char
    requires d < 10
  {
    "0123456789"[d]
  }

  /** A natural number in decimal, without leading zeros. */
  function NatText(n: nat): (s: string)
    ensures |s| >= 1
    ensures forall i :: 0 <= i < |s| ==> '0' <= s[i] <= '9'
    ensures n >= 10 ==> s[0] != '0'
    decreases n
  {
    if n < 10 then [DigitChar(n)] else NatText(n / 10) + [DigitChar(n % 10)]
  }

  function DigitValue(c: char): nat {
    if '0' <= c <= '9' then c as int - '0' as int else 0
  }

  /** The value of a string of decimal digits. */
  function DecimalValue(s: string): nat {
    if s == [] then 0 else DecimalValue(s[..|s| - 1]) * 10 + DigitValue(s[|s| - 1])
  }

  /** Decimal text reads back as the number it was made from. */
  lemma {:induction false} NatTextReadsBack(n: nat)
    ensures DecimalValue(NatText(n)) == n
    decreases n
  {
    if n >= 10 {
      NatTextReadsBack(n / 10);
      var s := NatText(n);
      assert s[..|s| - 1] == NatText(n / 10);
    }
  }

  /** An integer in decimal, with a minus sign when negative. */
  function IntText(n: int): string {
    if n < 0 then "-" + NatText(-n) else NatText(n)
  }
}
