/** The editor of the variable width font patch: one item per entry of the
    width table, each showing its 8 by 16 glyph cell of the font image and
    reading and writing its width. */
module VariableWidthFontEditor {
  import opened Wrappers
  import opened Binary
  import Vwf = VariableWidthFontPatch

  /** The width an item shows: 8 without a table, the entry at the index
      when there is one, and the default byte 0 past the end. */
  function WidthAt(widths: Option<seq<byte>>, index: nat): (b: byte)
    ensures widths.Some? && index < |widths.value| ==> b == widths.value[index]
    ensures widths.Some? && index >= |widths.value| ==> b == 0
    ensures widths.None? ==> b == 8
  {
    match widths
    case None => 8
    case Some(w) => if index < |w| then w[index] else 0
  }

  /** The table after setting the width at index: changed only when there is
      a table and the index is inside it. */
  function WithWidth(widths: Option<seq<byte>>, index: nat, v: byte): Option<seq<byte>> {
    match widths
    case None => None
    case Some(w) => if index < |w| then Some(w[index := v]) else widths
  }

  /** Setting a width that the table holds makes the item read it back;
      otherwise the item keeps reading what it read before. */
  lemma WidthReadBack(widths: Option<seq<byte>>, index: nat, v: byte)
    ensures WidthAt(WithWidth(widths, index, v), index) ==
      if widths.Some? && index < |widths.value| then v else WidthAt(widths, index)
  {
  }

  /** Setting one width changes no other item's width, keeps the table's
      length, and never creates a table. */
  lemma WidthOthersKept(widths: Option<seq<byte>>, index: nat, v: byte, other: nat)
    requires other != index
    ensures WidthAt(WithWidth(widths, index, v), other) == WidthAt(widths, other)
    ensures WithWidth(widths, index, v).Some? <==> widths.Some?
    ensures widths.Some? ==> |WithWidth(widths, index, v).value| == |widths.value|
  {
  }

  /** The cell of the font image an item crops: x, y, width, height. */
  datatype Rect = Rect(x: int, y: int, width: int, height: int)

  const TileWidth: nat := 8
  const TileHeight: nat := 8

  /** Item i's cell, where the font image is tileMapWidth pixels wide and so
      holds tileMapWidth / 8 cells per row. None when a row holds no cell
      (the division by zero throws). */
  function CellOf(i: nat, tileMapWidth: nat): (r: Option<Rect>)
    ensures r.Some? <==> tileMapWidth >= TileWidth
    ensures r.Some? ==> r.value.width == TileWidth && r.value.height == TileHeight * 2
    ensures r.Some? ==> 0 <= r.value.x && r.value.x + TileWidth <= tileMapWidth && 0 <= r.value.y
  {
    var fontWidth := tileMapWidth / TileWidth;
    if fontWidth == 0 then None
    else
      var fontX := i % fontWidth;
      var fontY := i / fontWidth;
      Some(Rect(fontX * TileWidth, fontY * TileHeight * 2, TileWidth, TileHeight * 2))
  }

  /** The cell gives back its item: cells are laid out row by row, so the
      index is recovered from the cell's row and column. */
  lemma CellIdentifiesItem(i: nat, tileMapWidth: nat)
    requires tileMapWidth >= TileWidth
    ensures var c := CellOf(i, tileMapWidth).value;
      c.x % TileWidth == 0 && c.y % (TileHeight * 2) == 0 &&
      (c.y / (TileHeight * 2)) * (tileMapWidth / TileWidth) + c.x / TileWidth == i
  {
    var fontWidth := tileMapWidth / TileWidth;
    var c := CellOf(i, tileMapWidth).value;
    assert c.x / TileWidth == i % fontWidth;
    assert c.y / (TileHeight * 2) == i / fontWidth;
  }

  /** Distinct items crop distinct cells. */
  lemma CellsDistinct(i: nat, j: nat, tileMapWidth: nat)
    requires tileMapWidth >= TileWidth && i != j
    ensures CellOf(i, tileMapWidth) != CellOf(j, tileMapWidth)
  {
    CellIdentifiesItem(i, tileMapWidth);
    CellIdentifiesItem(j, tileMapWidth);
  }

  /** An item: the patch it edits, its cell and its index. */
  class ItemViewModel {
    const patch: Vwf.Patch
    const cell: Rect
    const index: nat

    constructor (patch: Vwf.Patch, cell: Rect, index: nat)
      ensures this.patch == patch && this.cell == cell && this.index == index
    {
      this.patch := patch;
      this.cell := cell;
      this.index := index;
    }

    /** The Width getter. */
    function Width(): byte
      reads patch
    {
      WidthAt(patch.widths, index)
    }

    /** The Width setter: writes into the patch's table in place. */
    method SetWidth(v: byte)
      modifies patch
      ensures patch.widths == WithWidth(old(patch.widths), index, v)
    {
      var ws := patch.widths;
      if ws.Some? && index < |ws.value| {
        patch.widths := Some(ws.value[index := v]);
      }
    }
  }

  /** RefreshItems: one item per entry of the width table, item i with
      index i and cell i. It throws (None) without a table, and when the
      font is narrower than one tile and some item needs its cell. */
  method RefreshItems(patch: Vwf.Patch, tileMapWidth: nat) returns (items: Option<seq<ItemViewModel>>)
    ensures items.None? <==> patch.widths.None? || (tileMapWidth < TileWidth && |patch.widths.value| > 0)
    ensures items.Some? ==> |items.value| == |patch.widths.value|
    ensures items.Some? ==> forall i :: 0 <= i < |items.value| ==>
      items.value[i].patch == patch && items.value[i].index == i && Some(items.value[i].cell) == CellOf(i, tileMapWidth)
  {
    if patch.widths.None? {
      return None;
    }
    var n := |patch.widths.value|;
    if tileMapWidth < TileWidth && n > 0 {
      return None;
    }
    var acc: seq<ItemViewModel> := [];
    var i := 0;
    while i < n
      invariant 0 <= i <= n && |acc| == i
      invariant forall j :: 0 <= j < i ==>
        acc[j].patch == patch && acc[j].index == j && Some(acc[j].cell) == CellOf(j, tileMapWidth)
    {
      var item := new ItemViewModel(patch, CellOf(i, tileMapWidth).value, i);
      acc := acc + [item];
      i := i + 1;
    }
    items := Some(acc);
  }
}
