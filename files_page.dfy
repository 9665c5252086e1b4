/** The Files page: builds the navigation tree from the parsed archives,
    deciding for every node which archive's table it is relocated against
    and which compressed archive it lives in; searches the tree; and
    navigates to a node. */
module FilesPage {
  import opened Wrappers
  import opened Binary
  import opened BinaryHelpers
  import opened PatchedFooter
  import opened RelocatedData
  import opened NavigationCommon
  import opened FilesNavigation

  /** A parsed file of an archive: its name, its object, and, for an
      archive, its own parsed files. A null parsed file is the same as one
      with no name and no object. */
  datatype Parsed = Parsed(name: Option<string>, obj: Option<FileObject>, files: seq<Parsed>)
  {
    /** The files the tree descends into: only an archive has any. */
    function Children(): (cs: seq<Parsed>)
      ensures cs != [] ==> obj.Some? && obj.value.IsArchive()
    {
      if obj.Some? && obj.value.IsArchive() then files else []
    }
  }

  /** The archives a node is filed under: the one whose table points to it
      (or to the compressed archive holding it), and the compressed archive
      it lives in, if any. */
  datatype Context = Context(parentArchive: Option<FileObject>, compressedParent: Option<FileObject>)

  /** The context the files of an archive are given. */
  function ChildContext(archive: FileObject, ctx: Context): (c: Context)
    ensures ctx.compressedParent.Some? ==> c == ctx
    ensures ctx.compressedParent.None? && archive.isCompressed ==> c == Context(ctx.parentArchive, Some(archive))
    ensures ctx.compressedParent.None? && !archive.isCompressed ==> c == Context(Some(archive), None)
  {
    if ctx.compressedParent.Some? then ctx
    else if archive.isCompressed then Context(ctx.parentArchive, Some(archive))
    else Context(Some(archive), None)
  }

  // ---------------------------------------------------------------------
  // The contexts of a whole tree

  /** The context of the node reached by following the child indices of a
      path from a root with context ctx; None when the path leaves the
      tree. */
  function ContextAt(p: Parsed, ctx: Context, path: seq<nat>): Option<Context>
    decreases |path|
  {
    if path == [] then Some(ctx)
    else if path[0] < |p.Children()| then ContextAt(p.Children()[path[0]], ChildContext(p.obj.value, ctx), path[1..])
    else None
  }

  /** The outermost compressed archive strictly above the node at path. */
  function OutermostCompressed(p: Parsed, path: seq<nat>): Option<FileObject>
    decreases |path|
  {
    if path == [] || path[0] >= |p.Children()| then None
    else if p.obj.value.isCompressed then p.obj
    else OutermostCompressed(p.Children()[path[0]], path[1..])
  }

  /** Under a compressed archive every node keeps the context it was
      given: both parent and compressed parent are inherited unchanged. */
  lemma {:induction false} InheritedUnderCompressed(p: Parsed, ctx: Context, path: seq<nat>)
    requires ctx.compressedParent.Some?
    ensures ContextAt(p, ctx, path).Some? ==> ContextAt(p, ctx, path).value == ctx
    decreases |path|
  {
    if path != [] && path[0] < |p.Children()| {
      InheritedUnderCompressed(p.Children()[path[0]], ChildContext(p.obj.value, ctx), path[1..]);
    }
  }

  /** Starting outside any compressed archive, every node records the
      outermost compressed archive above it as its compressed parent, and
      none when there is none. */
  lemma {:induction false} RecordsOutermostCompressed(p: Parsed, parentArchive: Option<FileObject>, path: seq<nat>)
    ensures var c := ContextAt(p, Context(parentArchive, None), path);
      c.Some? ==> c.value.compressedParent == OutermostCompressed(p, path)
    decreases |path|
  {
    if path != [] && path[0] < |p.Children()| {
      var archive := p.obj.value;
      var child := p.Children()[path[0]];
      var ctx' := ChildContext(archive, Context(parentArchive, None));
      if archive.isCompressed {
        InheritedUnderCompressed(child, ctx', path[1..]);
      } else {
        RecordsOutermostCompressed(child, Some(archive), path[1..]);
      }
    }
  }

  /** The rule never files a node under a compressed archive's table: if
      the root's parent archive is not compressed, no node's is. */
  lemma {:induction false} ParentNeverCompressed(p: Parsed, ctx: Context, path: seq<nat>)
    requires ctx.parentArchive.Some? ==> !ctx.parentArchive.value.isCompressed
    ensures var c := ContextAt(p, ctx, path);
      c.Some? && c.value.parentArchive.Some? ==> !c.value.parentArchive.value.isCompressed
    decreases |path|
  {
    if path != [] && path[0] < |p.Children()| {
      ParentNeverCompressed(p.Children()[path[0]], ChildContext(p.obj.value, ctx), path[1..]);
    }
  }

  // ---------------------------------------------------------------------
  // Names and relocation marks

  /** The name a KW or WMAP archive gives its file at index i from its
      table's entries; None means the entry lookup throws. Other archives
      give no name. */
  function OverrideName(archive: FileObject, i: nat): (r: Option<Option<string>>)
    requires archive.IsArchive()
    ensures archive.kind.archiveType == KhKw ==> (r.Some? <==> i < |archive.kind.kwEntries|)
    ensures archive.kind.archiveType == KhWmap ==> (r.Some? <==> i < |archive.kind.wmapEntries|)
    ensures archive.kind.archiveType == OtherArchiveType ==> r == Some(None)
  {
    match archive.kind.archiveType
    case KhKw =>
      if i < |archive.kind.kwEntries| then
        Some(Some(KwName(archive.kind.kwEntries[i])))
      else None
    case KhWmap =>
      if i < |archive.kind.wmapEntries| then
        var e := archive.kind.wmapEntries[i];
        Some(Some(e.name + " " + IntText(e.id)))
      else None
    case OtherArchiveType => Some(None)
  }

  /** "Map a-b-c", the map IDs in decimal. */
  function KwName(e: KwEntry): string {
    "Map " + (NatText(e.mapId1) + "-" + (NatText(e.mapId2) + "-" + NatText(e.mapId3)))
  }

  /** Text made only of digits. */
  predicate Digits(s: string) {
    forall i :: 0 <= i < |s| ==> '0' <= s[i] <= '9'
  }

  /** The position of the first dash, or the length when there is none. */
  function FirstDash(s: string): (k: nat)
    ensures k <= |s|
  {
    if s == [] || s[0] == '-' then 0 else 1 + FirstDash(s[1..])
  }

  lemma {:induction false} FirstDashAfterDigits(a: string, x: string)
    requires Digits(a)
    ensures FirstDash(a + "-" + x) == |a|
  {
    if a != [] {
      assert (a + "-" + x)[1..] == a[1..] + "-" + x;
      FirstDashAfterDigits(a[1..], x);
    }
  }

  /** Digit strings before a dash split back apart. */
  lemma SplitAtDash(a: string, x: string, b: string, y: string)
    requires Digits(a) && Digits(b) && a + "-" + x == b + "-" + y
    ensures a == b && x == y
  {
    var s := a + "-" + x;
    FirstDashAfterDigits(a, x);
    FirstDashAfterDigits(b, y);
    assert a == s[..|a|] == b;
    assert x == s[|a| + 1..] == y;
  }

  /** Decimal text is one-to-one. */
  lemma NatTextInjective(m: nat, n: nat)
    requires NatText(m) == NatText(n)
    ensures m == n
  {
    NatTextReadsBack(m);
    NatTextReadsBack(n);
  }

  /** Distinct KW entries give their files distinct names. */
  lemma KwNameIdentifiesEntry(e: KwEntry, f: KwEntry)
    requires KwName(e) == KwName(f)
    ensures e == f
  {
    var a1, a2, a3 := NatText(e.mapId1), NatText(e.mapId2), NatText(e.mapId3);
    var b1, b2, b3 := NatText(f.mapId1), NatText(f.mapId2), NatText(f.mapId3);
    assert a1 + "-" + (a2 + "-" + a3) == KwName(e)[4..] == b1 + "-" + (b2 + "-" + b3);
    SplitAtDash(a1, a2 + "-" + a3, b1, b2 + "-" + b3);
    SplitAtDash(a2, a3, b2, b3);
    NatTextInjective(e.mapId1, f.mapId1);
    NatTextInjective(e.mapId2, f.mapId2);
    NatTextInjective(e.mapId3, f.mapId3);
  }

  /** Every archive in the tree has a name for each of its files (the
      lookup that would throw never does). */
  predicate NamesComplete(p: Parsed)
    decreases p
  {
    p.obj.Some? && p.obj.value.IsArchive() ==>
      forall i :: 0 <= i < |p.files| ==> OverrideName(p.obj.value, i).Some? && NamesComplete(p.files[i])
  }

  /** The first footer record whose new pointer is p. */
  function FindRecord(records: seq<RelocatedStruct>, p: Pointer): (r: Option<RelocatedStruct>)
    ensures r.Some? <==> exists k :: 0 <= k < |records| && records[k].newPointer == p
    ensures r.Some? ==> r.value in records && r.value.newPointer == p
  {
    if records == [] then None
    else if records[0].newPointer == p then Some(records[0])
    else
      var r := FindRecord(records[1..], p);
      assert forall k :: 1 <= k < |records| ==> records[k] == records[1..][k - 1];
      r
  }

  /** The record a node is marked with: a non-null object whose ROM
      pointer is some record's new pointer. */
  function RecordFor(records: seq<RelocatedStruct>, obj: Option<FileObject>): (r: Option<RelocatedStruct>)
    reads if obj.Some? then {obj.value.obj} else {}
    ensures r.Some? <==> obj.Some? && exists k :: 0 <= k < |records| && records[k].newPointer == GetRomPointer(obj.value.obj.offset)
  {
    if obj.None? then None else FindRecord(records, GetRomPointer(obj.value.obj.offset))
  }

  // ---------------------------------------------------------------------
  // Search

  /** The nodes of the whole forest, root by root, each in pre-order. */
  function Enumerate<T>(roots: seq<Tree<T>>): seq<T> {
    if roots == [] then [] else Enumerate(roots[..|roots| - 1]) + AllChildren(roots[|roots| - 1], true)
  }

  /** The nodes of xs whose name contains the query, in order. */
  function Matching<T>(xs: seq<T>, name: T -> string, query: string): (r: seq<T>)
    ensures |r| <= |xs|
  {
    if xs == [] then []
    else
      var last := xs[|xs| - 1];
      Matching(xs[..|xs| - 1], name, query) + (if ContainsIgnoreCase(name(last), query) then [last] else [])
  }

  /** SearchForEntries: the matching nodes in pre-order over the roots. */
  function SearchForEntries<T>(roots: seq<Tree<T>>, name: T -> string, query: string): seq<T> {
    Matching(Enumerate(roots), name, query)
  }

  /** A node is found exactly when it is in the tree and its name contains
      the query. */
  lemma {:induction false} MatchingMembers<T>(xs: seq<T>, name: T -> string, query: string, x: T)
    ensures x in Matching(xs, name, query) <==> x in xs && ContainsIgnoreCase(name(x), query)
  {
    if xs != [] {
      MatchingMembers(xs[..|xs| - 1], name, query, x);
      assert xs == xs[..|xs| - 1] + [xs[|xs| - 1]];
    }
  }

  /** The empty query finds every node, in pre-order. */
  lemma {:induction false} EmptySearchFindsAll<T>(xs: seq<T>, name: T -> string)
    ensures Matching(xs, name, "") == xs
  {
    if xs != [] {
      EmptySearchFindsAll(xs[..|xs| - 1], name);
      EmptyQueryMatches(name(xs[|xs| - 1]));
      assert xs == xs[..|xs| - 1] + [xs[|xs| - 1]];
    }
  }

  /** Search results: found exactly when present and matching, no more than
      there are nodes, all of them for the empty query. */
  lemma SearchSpec<T>(roots: seq<Tree<T>>, name: T -> string, query: string, x: T)
    ensures x in SearchForEntries(roots, name, query) <==> x in Enumerate(roots) && ContainsIgnoreCase(name(x), query)
    ensures |SearchForEntries(roots, name, query)| <= |Enumerate(roots)|
    ensures SearchForEntries(roots, name, "") == Enumerate(roots)
  {
    MatchingMembers(Enumerate(roots), name, query, x);
    EmptySearchFindsAll(Enumerate(roots), name);
  }

  // ---------------------------------------------------------------------
  // The page

  /** Child j of item was built from the parsed file with the given context
      and name. */
  ghost predicate FiledChild(item: NavigationItemViewModel, j: nat, file: Parsed, ctx: Context, name: Option<Option<string>>)
    reads item
  {
    j < |item.navigationItems| &&
    var child := item.navigationItems[j];
    child.parent == item && child.serializableObject == file.obj &&
    Context(child.parentArchiveFile, child.compressedParentArchiveFile) == ctx &&
    Some(child.overrideFileName) == name
  }

  /** The node has a child per parsed file of its archive, each filed under
      the child context with its name. */
  ghost predicate Filed(item: NavigationItemViewModel, p: Parsed, ctx: Context)
    reads item
  {
    |item.navigationItems| == |p.Children()| &&
    forall j :: 0 <= j < |p.Children()| ==>
      FiledChild(item, j, p.Children()[j], ChildContext(p.obj.value, ctx), OverrideName(p.obj.value, j))
  }

  /** The walk up from a node to its root, expanding every node on the way
      that has children. */
  method ExpandAncestors(navItem: NavigationItemViewModel)
    requires navItem.Linked()
    modifies (set a | a in [navItem] + navItem.ancestors)`isExpanded
    ensures forall a :: a in [navItem] + navItem.ancestors ==>
      a.isExpanded == (old(a.isExpanded) || |a.navigationItems| > 0)
  {
    ghost var chain := [navItem] + navItem.ancestors;
    var parent: NavigationItemViewModel? := navItem;
    ghost var k := 0;
    while parent != null
      invariant 0 <= k <= |chain|
      invariant parent != null ==> k < |chain| && parent.Linked() && chain[k..] == [parent] + parent.ancestors
      invariant parent == null ==> k == |chain|
      invariant forall a :: a in chain ==>
        a.isExpanded == (old(a.isExpanded) || (|a.navigationItems| > 0 && a in chain[..k]))
      decreases |chain| - k
    {
      assert chain[k] == parent;
      label before:
      parent.ExpandIfParent();
      forall a | a in chain
        ensures a.isExpanded == (old(a.isExpanded) || (|a.navigationItems| > 0 && a in chain[..k + 1]))
      {
        assert chain[..k + 1] == chain[..k] + [parent];
        if a != parent {
          assert a.isExpanded == old@before(a.isExpanded);
        }
      }
      parent := parent.parent;
      k := k + 1;
    }
  }

  class FilesPageViewModel {
    var navigationItems: seq<NavigationItemViewModel>
    var selectedSearchEntry: NavigationItemViewModel?

    constructor ()
      ensures navigationItems == [] && selectedSearchEntry == null
    {
      navigationItems := [];
      selectedSearchEntry := null;
    }

    /** AddNavigationItem: adds a node for the parsed file to its parent (a
        root when there is none), marked with the footer record that moved
        it, then, for an archive, a child per parsed file in order, each
        given the child context and its KW or WMAP name. Faults when a
        name's table entry is missing. */
    method AddNavigationItem(parent: NavigationItemViewModel?, records: seq<RelocatedStruct>, p: Parsed,
                             ctx: Context, overrideName: Option<string>)
      returns (item: NavigationItemViewModel, faulted: bool)
      requires parent != null ==> parent.Linked()
      modifies this`navigationItems, (if parent == null then {} else {parent})`navigationItems
      decreases p, 1
      ensures fresh(item) && item.Valid() && item.parent == parent
      ensures item.title == p.name && item.serializableObject == p.obj && item.overrideFileName == overrideName
      ensures item.parentArchiveFile == ctx.parentArchive && item.compressedParentArchiveFile == ctx.compressedParent
      ensures item.relocatedStruct == old(RecordFor(records, p.obj))
      ensures item.hasEditor == (p.obj.Some? && !p.obj.value.IsArchive() && p.obj.value.editable)
      ensures parent == null ==> navigationItems == old(navigationItems) + [item]
      ensures parent != null ==> navigationItems == old(navigationItems)
      ensures parent != null ==> parent.navigationItems == old(parent.navigationItems) + [item]
      ensures !faulted ==> Filed(item, p, ctx)
      ensures faulted <==> !NamesComplete(p)
    {
      var hasEditor := p.obj.Some? && !p.obj.value.IsArchive() && p.obj.value.editable;
      var record := RecordFor(records, p.obj);
      item := new NavigationItemViewModel(parent, p.name, p.obj, hasEditor, record, ctx.parentArchive,
                                          ctx.compressedParent, overrideName);
      if parent == null {
        navigationItems := navigationItems + [item];
      } else {
        parent.navigationItems := parent.navigationItems + [item];
      }
      faulted := AddChildren(item, records, p, ctx);
    }

    /** The loop of AddNavigationItem over an archive's parsed files. */
    method AddChildren(item: NavigationItemViewModel, records: seq<RelocatedStruct>, p: Parsed, ctx: Context)
      returns (faulted: bool)
      requires item.Linked() && item.navigationItems == []
      modifies this`navigationItems, item`navigationItems
      decreases p, 0
      ensures navigationItems == old(navigationItems)
      ensures !faulted ==> Filed(item, p, ctx)
      ensures faulted <==> !NamesComplete(p)
    {
      var files := p.Children();
      if files == [] {
        return false;
      }
      var archive := p.obj.value;
      var childCtx := ChildContext(archive, ctx);
      var i := 0;
      while i < |files|
        invariant 0 <= i <= |files| && |item.navigationItems| == i
        invariant forall j :: 0 <= j < i ==> FiledChild(item, j, files[j], childCtx, OverrideName(archive, j))
        invariant forall j :: 0 <= j < i ==> OverrideName(archive, j).Some? && NamesComplete(files[j])
        invariant navigationItems == old(navigationItems)
      {
        var name := OverrideName(archive, i);
        if name.None? {
          return true;
        }
        ghost var prev := item.navigationItems;
        var child, childFaulted := AddNavigationItem(item, records, files[i], childCtx, name.value);
        if childFaulted {
          return true;
        }
        forall j | 0 <= j < i + 1
          ensures FiledChild(item, j, files[j], childCtx, OverrideName(archive, j))
          ensures OverrideName(archive, j).Some? && NamesComplete(files[j])
        {
          if j < i {
            assert item.navigationItems[j] == prev[j];
          }
        }
        i := i + 1;
      }
      return false;
    }

    /** SelectItem: expands the item and every ancestor that has children,
        then selects the item. */
    method SelectItem(navItem: NavigationItemViewModel)
      requires navItem.Linked()
      modifies (set a | a in [navItem] + navItem.ancestors)`isExpanded
      modifies navItem`isSelected, navItem`hasLoaded, navItem`editorCalls
      ensures forall a :: a in [navItem] + navItem.ancestors ==>
        a.isExpanded == (old(a.isExpanded) || |a.navigationItems| > 0)
      ensures Selection(navItem.isSelected, navItem.hasLoaded, navItem.editorCalls) ==
        Select(old(Selection(navItem.isSelected, navItem.hasLoaded, navItem.editorCalls)), navItem.hasEditor, true)
    {
      ExpandAncestors(navItem);
      navItem.SetSelected(true);
    }

    /** The SelectedSearchEntry setter: a picked entry is navigated to, and
        the field is cleared again. */
    method SetSelectedSearchEntry(v: NavigationItemViewModel?)
      requires v != null ==> v.Linked()
      modifies this`selectedSearchEntry
      modifies if v == null then {} else (set a | a in [v] + v.ancestors)`isExpanded
      modifies if v == null then {} else {v}`isSelected, if v == null then {} else {v}`hasLoaded
      modifies if v == null then {} else {v}`editorCalls
      ensures selectedSearchEntry == null
      ensures v != null ==> v.isSelected
    {
      selectedSearchEntry := v;
      if selectedSearchEntry != null {
        SelectItem(selectedSearchEntry);
        selectedSearchEntry := null;
      }
    }
  }
}
