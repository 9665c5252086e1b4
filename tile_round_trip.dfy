/** What CreateTileData promises about its result, and the round trip with
    CreateImageSource: drawing the tile data back gives every source pixel's
    palette index, as long as the tile matching reads stored tiles as it
    evidently intends. */
module TileRoundTrip {
  import opened Wrappers
  import opened Binary
  import opened TileGraphics
  import opened TileEncoder

  /** The palette indices a tile pixel can hold: 16 at 4 bits per pixel,
      256 at 8. */
  function Colors(bpp: nat): nat {
    if bpp == 4 then 16 else 256
  }

  // ---------------------------------------------------------------------
  // Storing pixels
  // ---------------------------------------------------------------------

  /** SetNibble replaces the chosen nibble and keeps the other one. */
  lemma SetNibbleReads(b: byte, v: nat, high: bool)
    ensures Nibble(SetNibble(b, v, high), high) == v % 16
    ensures Nibble(SetNibble(b, v, high), !high) == Nibble(b, !high)
  {
    if high {
      DivModOf(v % 16, b % 16, 16);
    } else {
      DivModOf(b / 16, v % 16, 16);
    }
  }

  /** Storing v as pixel k of tile i sets that pixel to v, cut to the pixel
      width, and leaves the tile's other pixels alone. */
  lemma StorePixel(tileSet: seq<byte>, i: nat, k: nat, v: nat, bpp: nat, j: nat)
    requires (bpp == 4 || bpp == 8) && k < 64 && j < 64 && TileIn(tileSet, bpp, i)
    ensures TileIn(Store(tileSet, i * TileLength(bpp), k, v, bpp), bpp, i)
    ensures StoredPixel(Store(tileSet, i * TileLength(bpp), k, v, bpp), bpp, i, j) ==
            if j == k then v % Colors(bpp) else StoredPixel(tileSet, bpp, i, j)
  {
    PixelByteBounds(0, j, bpp);
    PixelByteBounds(0, k, bpp);
    if bpp == 4 {
      StoreNibble(tileSet, i, k, v, j);
    }
  }

  /** StorePixel at 4 bits per pixel, where two pixels share a byte. */
  lemma StoreNibble(tileSet: seq<byte>, i: nat, k: nat, v: nat, j: nat)
    requires k < 64 && j < 64 && TileIn(tileSet, 4, i)
    ensures StoredPixel(Store(tileSet, i * TileLength(4), k, v, 4), 4, i, j) ==
            if j == k then v % 16 else StoredPixel(tileSet, 4, i, j)
  {
    PixelByteBounds(0, j, 4);
    PixelByteBounds(0, k, 4);
    var at := i * TileLength(4) + PixelByte(k, 4);
    if PixelByte(j, 4) == PixelByte(k, 4) {
      SetNibbleReads(tileSet[at], v, k % 2 == 1);
    }
  }

  /** Written stores the pixel values vs, in order, as the first pixels of
      tile i. */
  lemma {:induction false} WrittenPixels(tileSet: seq<byte>, i: nat, vs: seq<nat>, bpp: nat, j: nat)
    requires (bpp == 4 || bpp == 8) && |vs| <= 64 && TileIn(tileSet, bpp, i) && j < |vs|
    ensures TileIn(Written(tileSet, i * TileLength(bpp), vs, bpp), bpp, i)
    ensures StoredPixel(Written(tileSet, i * TileLength(bpp), vs, bpp), bpp, i, j) == vs[j] % Colors(bpp)
    decreases |vs|
  {
    var m := |vs| - 1;
    var before := Written(tileSet, i * TileLength(bpp), vs[..m], bpp);
    StorePixel(before, i, m, vs[m], bpp, j);
    if j < m {
      WrittenPixels(tileSet, i, vs[..m], bpp, j);
      assert vs[..m][j] == vs[j];
    }
  }

  /** Written changes no byte outside the tile it writes. */
  lemma {:induction false} WrittenElsewhere(tileSet: seq<byte>, offset: nat, vs: seq<nat>, bpp: nat, p: nat)
    requires (bpp == 4 || bpp == 8) && |vs| <= 64 && offset + TileLength(bpp) <= |tileSet|
    requires p < |tileSet| && (p < offset || offset + TileLength(bpp) <= p)
    ensures Written(tileSet, offset, vs, bpp)[p] == tileSet[p]
    decreases |vs|
  {
    if vs != [] {
      var m := |vs| - 1;
      WrittenElsewhere(tileSet, offset, vs[..m], bpp, p);
      PixelByteBounds(0, m, bpp);
    }
  }

  /** Writing tile i leaves every other stored tile as it was. */
  lemma WrittenOtherTile(tileSet: seq<byte>, i: nat, vs: seq<nat>, bpp: nat, j: nat, k: nat)
    requires (bpp == 4 || bpp == 8) && |vs| <= 64 && k < 64
    requires TileIn(tileSet, bpp, i) && TileIn(tileSet, bpp, j) && j != i
    ensures TileIn(Written(tileSet, i * TileLength(bpp), vs, bpp), bpp, j)
    ensures StoredPixel(Written(tileSet, i * TileLength(bpp), vs, bpp), bpp, j, k) == StoredPixel(tileSet, bpp, j, k)
  {
    TilesApart(i, j, k, bpp);
    WrittenElsewhere(tileSet, i * TileLength(bpp), vs, bpp, j * TileLength(bpp) + PixelByte(k, bpp));
  }

  /** A pixel byte of tile j lies outside tile i. */
  lemma TilesApart(i: nat, j: nat, k: nat, bpp: nat)
    requires (bpp == 4 || bpp == 8) && k < 64 && j != i
    ensures var p, tl := j * TileLength(bpp) + PixelByte(k, bpp), TileLength(bpp);
      p < i * tl || i * tl + tl <= p
  {
    var tl := TileLength(bpp);
    PixelByteBounds(0, k, bpp);
    if j < i {
      MulLe(j + 1, i, tl);
    } else {
      MulLe(i + 1, j, tl);
    }
  }

  // ---------------------------------------------------------------------
  // Matching
  // ---------------------------------------------------------------------

  /** Read as intended, getPixel gives pixel (xOffset, yOffset) of the stored
      tile whatever column the comparison stands at. */
  lemma CorrectedGetPixel(tileSet: seq<byte>, bpp: nat, i: nat, x: nat, xOffset: nat, yOffset: nat)
    requires (bpp == 4 || bpp == 8) && x < 8 && xOffset < 8 && yOffset < 8 && TileIn(tileSet, bpp, i)
    ensures GetPixel(tileSet, bpp, Corrected, i, x, xOffset, yOffset) == StoredPixel(tileSet, bpp, i, yOffset * 8 + xOffset)
  {
    DivModOf(yOffset * 4, xOffset % 2, 2);
    assert yOffset * 8 + xOffset == (yOffset * 4 + xOffset / 2) * 2 + xOffset % 2;
  }

  /** The first n pixels of tile cur match tile i under the flips exactly
      when every one of them matches. */
  lemma {:induction false} MatchesUpToAll(tileSet: seq<byte>, bpp: nat, reading: Reading, cur: nat, i: nat, fx: bool, fy: bool, n: nat)
    requires (bpp == 4 || bpp == 8) && n <= 64 && TileIn(tileSet, bpp, cur) && TileIn(tileSet, bpp, i)
    ensures MatchesUpTo(tileSet, bpp, reading, cur, i, fx, fy, n) <==>
            forall x: nat, y: nat :: x < 8 && y < 8 && y * 8 + x < n ==> PixelMatch(tileSet, bpp, reading, cur, i, x, y, fx, fy)
  {
    if n > 0 {
      MatchesUpToAll(tileSet, bpp, reading, cur, i, fx, fy, n - 1);
      if MatchesUpTo(tileSet, bpp, reading, cur, i, fx, fy, n) {
        forall x: nat, y: nat | x < 8 && y < 8 && y * 8 + x < n
          ensures PixelMatch(tileSet, bpp, reading, cur, i, x, y, fx, fy)
        {
          if y * 8 + x == n - 1 {
            DivModOf(y, x, 8);
          }
        }
      }
    }
  }

  /** Which of the four comparisons the flip flags name. */
  function Compared(m: Matches, flipX: bool, flipY: bool): bool {
    if flipX then (if flipY then m.flipXY else m.flipX) else (if flipY then m.flipY else m.normal)
  }

  /** Corrected, the flags of a matched tile name a comparison that
      matched. */
  lemma CorrectedFlags(m: Matches)
    requires m.Any()
    ensures Compared(m, Flags(Corrected, m).0, Flags(Corrected, m).1)
  {
  }

  /** A stored tile i that tile cur matches under the flips, read as
      intended, shows tile cur's pixel (x, y) at the pixel the flips bring
      there. */
  lemma MatchedShows(tileSet: seq<byte>, bpp: nat, cur: nat, i: nat, fx: bool, fy: bool, x: nat, y: nat)
    requires (bpp == 4 || bpp == 8) && x < 8 && y < 8 && TileIn(tileSet, bpp, cur) && TileIn(tileSet, bpp, i)
    requires Compared(MatchesOf(tileSet, bpp, Corrected, cur, i), fx, fy)
    ensures StoredPixel(tileSet, bpp, i, Flip(fy, y) * 8 + Flip(fx, x)) == StoredPixel(tileSet, bpp, cur, y * 8 + x)
  {
    MatchesUpToAll(tileSet, bpp, Corrected, cur, i, fx, fy, 64);
    assert PixelMatch(tileSet, bpp, Corrected, cur, i, x, y, fx, fy);
    CorrectedGetPixel(tileSet, bpp, cur, x, x, y);
    CorrectedGetPixel(tileSet, bpp, i, x, Flip(fx, x), Flip(fy, y));
  }

  /** Whether tile cur matches stored tile j in any of the four ways. */
  predicate Matched(tileSet: seq<byte>, bpp: nat, reading: Reading, cur: nat, j: nat) {
    (bpp == 4 || bpp == 8) && TileIn(tileSet, bpp, cur) && TileIn(tileSet, bpp, j) &&
    MatchesOf(tileSet, bpp, reading, cur, j).Any()
  }

  /** FirstMatch finds the lowest stored tile from i on that tile cur
      matches, and finds none exactly when no tile from i to cur matches. */
  lemma {:induction false} FirstMatchLowest(tileSet: seq<byte>, bpp: nat, reading: Reading, cur: nat, i: nat)
    requires (bpp == 4 || bpp == 8) && i <= cur && TileIn(tileSet, bpp, cur)
    ensures match FirstMatch(tileSet, bpp, reading, cur, i)
      case Some(m) => Matched(tileSet, bpp, reading, cur, m) && forall j :: i <= j < m ==> !Matched(tileSet, bpp, reading, cur, j)
      case None => forall j :: i <= j < cur ==> !Matched(tileSet, bpp, reading, cur, j)
    decreases cur - i
  {
    if i < cur {
      TileBelow(tileSet, bpp, i, cur);
      if !MatchesOf(tileSet, bpp, reading, cur, i).Any() {
        FirstMatchLowest(tileSet, bpp, reading, cur, i + 1);
      }
    }
  }

  // ---------------------------------------------------------------------
  // What the encoding keeps, map position by map position
  // ---------------------------------------------------------------------

  /** The palette indices CreateTileData computes for the tile at map
      position c. */
  function CellValues(src: Source, tgt: Target, c: nat): Result<seq<nat>, TileError>
    requires c < Tiles(src.width, src.height)
  {
    var tw := TilesWide(src.width);
    CellOfIndex(c, tw, TilesHigh(src.height));
    TileValues(src, tgt, MatchPalette(tgt), c % tw, c / tw, 64)
  }

  /** The entry drawn at map position j names a stored tile below the
      count, in the palette bank asked for (without a map, entry j is tile
      j in bank 0). */
  ghost predicate EntryBelow(tgt: Target, s: EncState, j: nat)
    requires s.tileMap == [] || j < |s.tileMap|
  {
    var g := EntryAt(s.tileMap, j);
    g.Some? && 0 <= g.value.tileSetIndex < s.count &&
    g.value.paletteIndex == (if tgt.createMap then tgt.basePalette else 0)
  }

  /** After c map positions: without a map every tile is stored, a tile was
      read at 4 or 8 bits per pixel, and every entry so far names a stored
      tile. */
  ghost predicate Indexed(src: Source, tgt: Target, s: EncState, c: nat)
    requires c <= Tiles(src.width, src.height) && Valid(src, tgt, s, c)
  {
    (!tgt.createMap ==> s.count == c) && (c > 0 ==> tgt.bpp == 4 || tgt.bpp == 8) &&
    forall j :: 0 <= j < c ==> EntryBelow(tgt, s, j)
  }

  /** Drawn with its entry, the tile at map position j shows the palette
      indices of that position's source pixels, cut to the pixel width. */
  ghost predicate ShowsCell(src: Source, tgt: Target, s: EncState, j: nat)
    requires j < Tiles(src.width, src.height) && Valid(src, tgt, s, Tiles(src.width, src.height))
  {
    (tgt.bpp == 4 || tgt.bpp == 8) && EntryBelow(tgt, s, j) && CellValues(src, tgt, j).Success? &&
    var g := EntryAt(s.tileMap, j).value;
    TileIn(s.tileSet, tgt.bpp, g.tileSetIndex) &&
    forall k :: 0 <= k < 64 ==>
      StoredPixel(s.tileSet, tgt.bpp, g.tileSetIndex, SourcePixel(g, k % 8, k / 8)) == CellValues(src, tgt, j).value[k] % Colors(tgt.bpp)
  }

  /** Every map position so far shows its source pixels. */
  ghost predicate Shows(src: Source, tgt: Target, s: EncState, c: nat)
    requires c <= Tiles(src.width, src.height) && Valid(src, tgt, s, c)
  {
    forall j :: 0 <= j < c ==> ShowsCell(src, tgt, s, j)
  }

  /** A map position already drawn keeps showing its pixels when the next
      tile is written into the free slot above every stored tile. */
  lemma CellKept(src: Source, tgt: Target, s: EncState, t: EncState, j: nat, vs: seq<nat>)
    requires j < Tiles(src.width, src.height)
    requires Valid(src, tgt, s, Tiles(src.width, src.height)) && Valid(src, tgt, t, Tiles(src.width, src.height))
    requires ShowsCell(src, tgt, s, j) && |vs| == 64 && TileIn(s.tileSet, tgt.bpp, s.count)
    requires t.tileSet == Written(s.tileSet, s.count * TileLength(tgt.bpp), vs, tgt.bpp)
    requires EntryAt(t.tileMap, j) == EntryAt(s.tileMap, j) && s.count <= t.count
    ensures ShowsCell(src, tgt, t, j)
  {
    var g := EntryAt(s.tileMap, j).value;
    forall k | 0 <= k < 64
      ensures StoredPixel(t.tileSet, tgt.bpp, g.tileSetIndex, SourcePixel(g, k % 8, k / 8)) ==
              StoredPixel(s.tileSet, tgt.bpp, g.tileSetIndex, SourcePixel(g, k % 8, k / 8))
    {
      WrittenOtherTile(s.tileSet, s.count, vs, tgt.bpp, g.tileSetIndex, SourcePixel(g, k % 8, k / 8));
    }
  }

  /** A tile stored in the free slot, unmirrored, shows its pixels. */
  lemma CellStored(src: Source, tgt: Target, s: EncState, t: EncState, c: nat)
    requires c < Tiles(src.width, src.height) && Valid(src, tgt, t, Tiles(src.width, src.height))
    requires (tgt.bpp == 4 || tgt.bpp == 8) && TileIn(s.tileSet, tgt.bpp, s.count) && CellValues(src, tgt, c).Success?
    requires t.tileSet == Written(s.tileSet, s.count * TileLength(tgt.bpp), CellValues(src, tgt, c).value, tgt.bpp)
    requires EntryBelow(tgt, t, c)
    requires var g := EntryAt(t.tileMap, c).value; g.tileSetIndex == s.count && !g.flipX && !g.flipY
    ensures ShowsCell(src, tgt, t, c)
  {
    var vs := CellValues(src, tgt, c).value;
    var g := EntryAt(t.tileMap, c).value;
    WrittenPixels(s.tileSet, s.count, vs, tgt.bpp, 0);
    forall k | 0 <= k < 64
      ensures StoredPixel(t.tileSet, tgt.bpp, g.tileSetIndex, SourcePixel(g, k % 8, k / 8)) == vs[k] % Colors(tgt.bpp)
    {
      SourcePixelOf(g, k);
      WrittenPixels(s.tileSet, s.count, vs, tgt.bpp, k);
    }
  }

  /** Pixel k of the drawn tile shows stored pixel SourcePixel of its
      column and row. */
  lemma SourcePixelOf(g: GraphicsTile, k: nat)
    requires k < 64
    ensures k / 8 * 8 + k % 8 == k
    ensures SourcePixel(g, k % 8, k / 8) == Flip(g.flipY, k / 8) * 8 + Flip(g.flipX, k % 8)
    ensures !g.flipX && !g.flipY ==> SourcePixel(g, k % 8, k / 8) == k
  {
    var y, x := k / 8, k % 8;
    CellOfIndex(k, 8, 8);
    DivModOf(0, y, 8);
    DivModOf(0, x, 8);
  }

  /** A tile that matched stored tile i, read as intended, shows its pixels
      through i and the flags of a comparison that matched. */
  lemma CellMatched(src: Source, tgt: Target, s: EncState, t: EncState, c: nat)
    requires c < Tiles(src.width, src.height) && Valid(src, tgt, t, Tiles(src.width, src.height))
    requires (tgt.bpp == 4 || tgt.bpp == 8) && TileIn(s.tileSet, tgt.bpp, s.count) && CellValues(src, tgt, c).Success?
    requires t.tileSet == Written(s.tileSet, s.count * TileLength(tgt.bpp), CellValues(src, tgt, c).value, tgt.bpp)
    requires EntryBelow(tgt, t, c)
    requires var g := EntryAt(t.tileMap, c).value;
      g.tileSetIndex < s.count &&
      Matched(t.tileSet, tgt.bpp, Corrected, s.count, g.tileSetIndex) &&
      Compared(MatchesOf(t.tileSet, tgt.bpp, Corrected, s.count, g.tileSetIndex), g.flipX, g.flipY)
    ensures ShowsCell(src, tgt, t, c)
  {
    var vs := CellValues(src, tgt, c).value;
    var g := EntryAt(t.tileMap, c).value;
    WrittenPixels(s.tileSet, s.count, vs, tgt.bpp, 0);
    forall k | 0 <= k < 64
      ensures StoredPixel(t.tileSet, tgt.bpp, g.tileSetIndex, SourcePixel(g, k % 8, k / 8)) == vs[k] % Colors(tgt.bpp)
    {
      MatchedPixel(s.tileSet, t.tileSet, tgt.bpp, s.count, g, vs, k);
    }
  }

  /** Pixel k of a tile written into slot cur shows, through a matching
      tile i and the flags of a comparison that matched, the value written. */
  lemma MatchedPixel(before: seq<byte>, tileSet: seq<byte>, bpp: nat, cur: nat, g: GraphicsTile, vs: seq<nat>, k: nat)
    requires (bpp == 4 || bpp == 8) && k < 64 && |vs| == 64 && TileIn(before, bpp, cur)
    requires tileSet == Written(before, cur * TileLength(bpp), vs, bpp)
    requires 0 <= g.tileSetIndex < cur
    requires Matched(tileSet, bpp, Corrected, cur, g.tileSetIndex)
    requires Compared(MatchesOf(tileSet, bpp, Corrected, cur, g.tileSetIndex), g.flipX, g.flipY)
    ensures TileIn(tileSet, bpp, g.tileSetIndex)
    ensures StoredPixel(tileSet, bpp, g.tileSetIndex, SourcePixel(g, k % 8, k / 8)) == vs[k] % Colors(bpp)
  {
    WrittenPixels(before, cur, vs, bpp, k);
    SourcePixelOf(g, k);
    MatchedShows(tileSet, bpp, cur, g.tileSetIndex, g.flipX, g.flipY, k % 8, k / 8);
  }

  /** One encoding step, from state s after c map positions to state t:
      the tile's pixel values are written into the free slot; its entry
      either names that slot, unmirrored, and the slot is kept, or, with a
      map, names the lowest stored tile it matches, with the flags of its
      matching rule, and the slot stays free. Earlier entries stay. */
  ghost predicate Stepped(src: Source, tgt: Target, s: EncState, c: nat, t: EncState)
    requires c < Tiles(src.width, src.height) && Valid(src, tgt, s, c) && Valid(src, tgt, t, c + 1)
  {
    (tgt.bpp == 4 || tgt.bpp == 8) && CellValues(src, tgt, c).Success? && TileIn(s.tileSet, tgt.bpp, s.count) &&
    t.tileSet == Written(s.tileSet, s.count * TileLength(tgt.bpp), CellValues(src, tgt, c).value, tgt.bpp) &&
    (forall j :: 0 <= j < c ==> EntryAt(t.tileMap, j) == EntryAt(s.tileMap, j)) &&
    EntryAt(t.tileMap, c).Some? &&
    var g := EntryAt(t.tileMap, c).value;
    g.paletteIndex == (if tgt.createMap then tgt.basePalette else 0) &&
    ((g.tileSetIndex == s.count && t.count == s.count + 1 && !g.flipX && !g.flipY &&
      forall j :: 0 <= j < s.count ==> !(tgt.createMap && Matched(t.tileSet, tgt.bpp, tgt.reading, s.count, j))) ||
     (tgt.createMap && 0 <= g.tileSetIndex < s.count && t.count == s.count &&
      Matched(t.tileSet, tgt.bpp, tgt.reading, s.count, g.tileSetIndex) &&
      (forall j :: 0 <= j < g.tileSetIndex ==> !Matched(t.tileSet, tgt.bpp, tgt.reading, s.count, j)) &&
      Flags(tgt.reading, MatchesOf(t.tileSet, tgt.bpp, tgt.reading, s.count, g.tileSetIndex)) == (g.flipX, g.flipY)))
  }

  /** Encoding one map position is one such step. */
  lemma CellStepped(src: Source, tgt: Target, s: EncState, c: nat, t: EncState)
    requires c < Tiles(src.width, src.height) && Valid(src, tgt, s, c) && Valid(src, tgt, t, c + 1)
    requires var tw := TilesWide(src.width);
      EncodeCell(src, tgt, MatchPalette(tgt), s, c, c % tw, c / tw) == Success(t)
    requires !tgt.createMap ==> s.count == c
    ensures Stepped(src, tgt, s, c, t)
  {
    SlotFits(s.count, c, Tiles(src.width, src.height), TileLength(tgt.bpp));
    if tgt.createMap {
      FirstMatchLowest(t.tileSet, tgt.bpp, tgt.reading, s.count, 0);
    }
  }

  /** The state before map position c is a success when the state after
      it is. */
  lemma EncodedPrev(src: Source, tgt: Target, c: nat)
    requires 0 < c <= Tiles(src.width, src.height) && Encoded(src, tgt, c).Success?
    ensures Encoded(src, tgt, c - 1).Success?
  {
  }

  /** A step keeps Indexed, whatever the matching rule. */
  lemma IndexedStep(src: Source, tgt: Target, s: EncState, c: nat, t: EncState)
    requires c < Tiles(src.width, src.height) && Valid(src, tgt, s, c) && Valid(src, tgt, t, c + 1)
    requires Indexed(src, tgt, s, c) && Stepped(src, tgt, s, c, t)
    ensures Indexed(src, tgt, t, c + 1)
  {
    forall j | 0 <= j < c + 1
      ensures EntryBelow(tgt, t, j)
    {
      if j < c {
        assert EntryBelow(tgt, s, j);
      }
    }
  }

  /** A step keeps Shows when tiles are stored without a map, or matched as
      intended. */
  lemma ShowsStep(src: Source, tgt: Target, s: EncState, c: nat, t: EncState)
    requires c < Tiles(src.width, src.height) && Valid(src, tgt, s, c) && Valid(src, tgt, t, c + 1)
    requires !tgt.createMap || tgt.reading == Corrected
    requires Indexed(src, tgt, s, c) && Shows(src, tgt, s, c) && Stepped(src, tgt, s, c, t)
    ensures Shows(src, tgt, t, c + 1)
  {
    IndexedStep(src, tgt, s, c, t);
    var vs := CellValues(src, tgt, c).value;
    forall j | 0 <= j < c
      ensures ShowsCell(src, tgt, t, j)
    {
      CellKept(src, tgt, s, t, j, vs);
    }
    var g := EntryAt(t.tileMap, c).value;
    if g.tileSetIndex == s.count {
      CellStored(src, tgt, s, t, c);
    } else {
      CorrectedFlags(MatchesOf(t.tileSet, tgt.bpp, Corrected, s.count, g.tileSetIndex));
      CellMatched(src, tgt, s, t, c);
    }
  }

  /** After c map positions the encoding is Indexed and, without a map or
      with the intended matching, Shows. */
  ghost predicate Kept(src: Source, tgt: Target, s: EncState, c: nat)
    requires c <= Tiles(src.width, src.height) && Valid(src, tgt, s, c)
  {
    Indexed(src, tgt, s, c) && (!tgt.createMap || tgt.reading == Corrected ==> Shows(src, tgt, s, c))
  }

  /** A step keeps Kept. */
  lemma KeptStep(src: Source, tgt: Target, s: EncState, c: nat, t: EncState)
    requires 0 < c <= Tiles(src.width, src.height) && Valid(src, tgt, s, c - 1) && Valid(src, tgt, t, c)
    requires Kept(src, tgt, s, c - 1) && Stepped(src, tgt, s, c - 1, t)
    ensures Kept(src, tgt, t, c)
  {
    IndexedStep(src, tgt, s, c - 1, t);
    if !tgt.createMap || tgt.reading == Corrected {
      ShowsStep(src, tgt, s, c - 1, t);
    }
  }

  /** Encoding map position c - 1 is one step. */
  lemma EncodedStepped(src: Source, tgt: Target, c: nat)
    requires 0 < c <= Tiles(src.width, src.height)
    requires Encoded(src, tgt, c - 1).Success? && Encoded(src, tgt, c).Success?
    requires !tgt.createMap ==> Encoded(src, tgt, c - 1).value.count == c - 1
    ensures Stepped(src, tgt, Encoded(src, tgt, c - 1).value, c - 1, Encoded(src, tgt, c).value)
  {
    EncodedNext(src, tgt, c);
    CellStepped(src, tgt, Encoded(src, tgt, c - 1).value, c - 1, Encoded(src, tgt, c).value);
  }

  /** The state after map position c - 1 is that position's EncodeCell. */
  lemma EncodedNext(src: Source, tgt: Target, c: nat)
    requires 0 < c <= Tiles(src.width, src.height) && Encoded(src, tgt, c - 1).Success?
    ensures var tw := TilesWide(src.width);
      tw > 0 && Encoded(src, tgt, c) == EncodeCell(src, tgt, MatchPalette(tgt), Encoded(src, tgt, c - 1).value, c - 1, (c - 1) % tw, (c - 1) / tw)
  {
    CellOfIndex(c - 1, TilesWide(src.width), TilesHigh(src.height));
  }

  /** Encoding map position c - 1 keeps Kept. */
  lemma EncodedKept(src: Source, tgt: Target, c: nat)
    requires 0 < c <= Tiles(src.width, src.height)
    requires Encoded(src, tgt, c - 1).Success? && Encoded(src, tgt, c).Success?
    requires Kept(src, tgt, Encoded(src, tgt, c - 1).value, c - 1)
    ensures Kept(src, tgt, Encoded(src, tgt, c).value, c)
  {
    EncodedStepped(src, tgt, c);
    KeptStep(src, tgt, Encoded(src, tgt, c - 1).value, c, Encoded(src, tgt, c).value);
  }

  /** After every map position CreateTileData encodes, Kept holds. */
  lemma {:induction false} EncodedKeeps(src: Source, tgt: Target, c: nat)
    requires c <= Tiles(src.width, src.height) && Encoded(src, tgt, c).Success?
    ensures Kept(src, tgt, Encoded(src, tgt, c).value, c)
  {
    if c > 0 {
      EncodedPrev(src, tgt, c);
      EncodedKeeps(src, tgt, c - 1);
      EncodedKept(src, tgt, c);
    }
  }

  /** Cutting the tile set after its stored tiles changes none of them. */
  lemma StoredPixelPrefix(tileSet: seq<byte>, len: nat, bpp: nat, i: nat, k: nat)
    requires (bpp == 4 || bpp == 8) && k < 64 && len <= |tileSet| && TileIn(tileSet[..len], bpp, i)
    ensures TileIn(tileSet, bpp, i) && StoredPixel(tileSet[..len], bpp, i, k) == StoredPixel(tileSet, bpp, i, k)
  {
    PixelByteBounds(0, k, bpp);
  }

  // ---------------------------------------------------------------------
  // What CreateTileData returns
  // ---------------------------------------------------------------------

  /** Entry c of the map names a tile wholly inside the tile set, in the
      base palette bank. */
  ghost predicate EntryIn(tgt: Target, d: TileData, c: nat)
    requires c < |d.tileMap|
  {
    d.tileMap[c].Some? && 0 <= d.tileMap[c].value.tileSetIndex &&
    d.tileMap[c].value.tileSetIndex * TileLength(tgt.bpp) + TileLength(tgt.bpp) <= |d.tileSet| &&
    d.tileMap[c].value.paletteIndex == tgt.basePalette
  }

  /** The tile set holds whole tiles, at most one per map position; with a
      map, every entry names one of them in the base palette bank; without
      one, the map is empty and every tile is stored. */
  ghost predicate Shaped(src: Source, tgt: Target, d: TileData) {
    var n, tl := Tiles(src.width, src.height), TileLength(tgt.bpp);
    (n > 0 ==> (tgt.bpp == 4 || tgt.bpp == 8) && |d.tileSet| % tl == 0) && |d.tileSet| <= n * tl &&
    (tgt.createMap ==> |d.tileMap| == n && forall c :: 0 <= c < n ==> EntryIn(tgt, d, c)) &&
    (!tgt.createMap ==> d.tileMap == [] && |d.tileSet| == n * tl)
  }

  /** The state after every map position, cut to its stored tiles, is
      Shaped. */
  lemma CutShaped(src: Source, tgt: Target, s: EncState)
    requires Valid(src, tgt, s, Tiles(src.width, src.height)) && Indexed(src, tgt, s, Tiles(src.width, src.height))
    ensures s.count * TileLength(tgt.bpp) <= |s.tileSet|
    ensures Shaped(src, tgt, TileData(s.tileSet[..s.count * TileLength(tgt.bpp)], s.tileMap))
  {
    var n, tl := Tiles(src.width, src.height), TileLength(tgt.bpp);
    MulLe(s.count, n, tl);
    if n > 0 {
      DivModOf(s.count, 0, tl);
    }
    if tgt.createMap {
      CutEntries(src, tgt, s);
    }
  }

  /** With a map, every entry of the cut state is EntryIn. */
  lemma CutEntries(src: Source, tgt: Target, s: EncState)
    requires Valid(src, tgt, s, Tiles(src.width, src.height)) && Indexed(src, tgt, s, Tiles(src.width, src.height))
    requires tgt.createMap && s.count * TileLength(tgt.bpp) <= |s.tileSet|
    ensures forall c :: 0 <= c < Tiles(src.width, src.height) ==>
      EntryIn(tgt, TileData(s.tileSet[..s.count * TileLength(tgt.bpp)], s.tileMap), c)
  {
    var tl := TileLength(tgt.bpp);
    var d := TileData(s.tileSet[..s.count * tl], s.tileMap);
    forall c | 0 <= c < Tiles(src.width, src.height)
      ensures EntryIn(tgt, d, c)
    {
      assert EntryBelow(tgt, s, c);
      MulLe(s.tileMap[c].value.tileSetIndex + 1, s.count, tl);
    }
  }

  /** What CreateTileData returns is Shaped. */
  lemma CreatedShape(src: Source, tgt: Target)
    requires CreatedTileData(src, tgt).Success?
    ensures Shaped(src, tgt, CreatedTileData(src, tgt).value)
  {
    var n := Tiles(src.width, src.height);
    EncodedKeeps(src, tgt, n);
    CutShaped(src, tgt, Encoded(src, tgt, n).value);
  }

  // ---------------------------------------------------------------------
  // Drawing the tile data back
  // ---------------------------------------------------------------------

  /** The tile data CreateTileData returns can always be drawn: every entry
      names a tile inside the tile set. */
  lemma CreatedDrawable(src: Source, tgt: Target, basePalette: int)
    requires CreatedTileData(src, tgt).Success?
    ensures var d := CreatedTileData(src, tgt).value;
      ImageOf(d.tileSet, tgt.bpp, d.tileMap, basePalette, src.width, src.height).Success?
  {
    var d := CreatedTileData(src, tgt).value;
    var n, tl := Tiles(src.width, src.height), TileLength(tgt.bpp);
    CreatedShape(src, tgt);
    forall c: nat | c < n
      ensures !CellFails(d.tileSet, tgt.bpp, d.tileMap, c)
    {
      PixelByteBounds(0, 63, tgt.bpp);
      if tgt.createMap {
        assert EntryIn(tgt, d, c);
      } else {
        MulLe(c + 1, n, tl);
      }
    }
    ImageFails(d.tileSet, tgt.bpp, d.tileMap, basePalette, src.width, src.height);
  }

  /** In tile data d, pixel k of the tile drawn at map position c shows
      palette index k of that position, cut to the pixel width. */
  ghost predicate DrawsPixel(src: Source, tgt: Target, d: TileData, c: nat, k: nat)
    requires c < Tiles(src.width, src.height) && k < 64
  {
    (tgt.bpp == 4 || tgt.bpp == 8) && (d.tileMap == [] || c < |d.tileMap|) &&
    EntryAt(d.tileMap, c).Some? && CellValues(src, tgt, c).Success? &&
    var g := EntryAt(d.tileMap, c).value;
    0 <= g.tileSetIndex && TileIn(d.tileSet, tgt.bpp, g.tileSetIndex) &&
    StoredPixel(d.tileSet, tgt.bpp, g.tileSetIndex, SourcePixel(g, k % 8, k / 8)) == CellValues(src, tgt, c).value[k] % Colors(tgt.bpp)
  }

  /** A state that Shows map position c draws each of its pixels. */
  lemma ShowsDraws(src: Source, tgt: Target, s: EncState, c: nat, k: nat)
    requires Valid(src, tgt, s, Tiles(src.width, src.height))
    requires c < Tiles(src.width, src.height) && k < 64 && ShowsCell(src, tgt, s, c)
    ensures DrawsPixel(src, tgt, TileData(s.tileSet, s.tileMap), c, k)
    ensures EntryAt(s.tileMap, c).value.tileSetIndex < s.count
  {
  }

  /** Cutting the tile set after the stored tiles keeps what a state draws. */
  lemma CutDraws(src: Source, tgt: Target, s: EncState, len: nat, c: nat, k: nat)
    requires Valid(src, tgt, s, Tiles(src.width, src.height)) && len == s.count * TileLength(tgt.bpp)
    requires c < Tiles(src.width, src.height) && k < 64 && DrawsPixel(src, tgt, TileData(s.tileSet, s.tileMap), c, k)
    requires EntryAt(s.tileMap, c).value.tileSetIndex < s.count
    ensures len <= |s.tileSet|
    ensures DrawsPixel(src, tgt, TileData(s.tileSet[..len], s.tileMap), c, k)
  {
    var n, tl := Tiles(src.width, src.height), TileLength(tgt.bpp);
    MulLe(EntryAt(s.tileMap, c).value.tileSetIndex + 1, s.count, tl);
    MulLe(s.count, n, tl);
    PrefixDraws(src, tgt, TileData(s.tileSet, s.tileMap), len, c, k);
  }

  /** Cutting the tile set after the tile an entry names keeps what it
      draws. */
  lemma PrefixDraws(src: Source, tgt: Target, d: TileData, len: nat, c: nat, k: nat)
    requires c < Tiles(src.width, src.height) && k < 64 && DrawsPixel(src, tgt, d, c, k) && len <= |d.tileSet|
    requires EntryAt(d.tileMap, c).value.tileSetIndex * TileLength(tgt.bpp) + TileLength(tgt.bpp) <= len
    ensures DrawsPixel(src, tgt, TileData(d.tileSet[..len], d.tileMap), c, k)
  {
    var g := EntryAt(d.tileMap, c).value;
    StoredPixelPrefix(d.tileSet, len, tgt.bpp, g.tileSetIndex, SourcePixel(g, k % 8, k / 8));
  }

  /** Without a map or with the intended matching, every pixel of every map
      position of what CreateTileData returns DrawsPixel. */
  lemma CreatedShows(src: Source, tgt: Target, c: nat, k: nat)
    requires CreatedTileData(src, tgt).Success? && (!tgt.createMap || tgt.reading == Corrected)
    requires c < Tiles(src.width, src.height) && k < 64
    ensures DrawsPixel(src, tgt, CreatedTileData(src, tgt).value, c, k)
  {
    var n := Tiles(src.width, src.height);
    EncodedKeeps(src, tgt, n);
    var s := Encoded(src, tgt, n).value;
    assert ShowsCell(src, tgt, s, c);
    ShowsDraws(src, tgt, s, c, k);
    MulLe(0, s.count, TileLength(tgt.bpp));
    CutDraws(src, tgt, s, s.count * TileLength(tgt.bpp), c, k);
  }

  /** Stored tile c of d holds, as its pixel k, palette index k of map
      position c cut to the pixel width. */
  ghost predicate HoldsPixel(src: Source, tgt: Target, d: TileData, c: nat, k: nat)
    requires c < Tiles(src.width, src.height) && k < 64
  {
    (tgt.bpp == 4 || tgt.bpp == 8) && TileIn(d.tileSet, tgt.bpp, c) && CellValues(src, tgt, c).Success? &&
    StoredPixel(d.tileSet, tgt.bpp, c, k) == CellValues(src, tgt, c).value[k] % Colors(tgt.bpp)
  }

  /** Without a map, drawing map position c draws stored tile c as it is. */
  lemma PlainHolds(src: Source, tgt: Target, d: TileData, c: nat, k: nat)
    requires c < Tiles(src.width, src.height) && k < 64
    requires d.tileMap == [] && DrawsPixel(src, tgt, d, c, k)
    ensures HoldsPixel(src, tgt, d, c, k)
  {
    SourcePixelOf(Plain(c), k);
  }

  /** Without a map, every tile is stored, in row-major order: stored tile c
      holds the pixels of map position c. */
  lemma StoredInOrder(src: Source, tgt: Target, c: nat, k: nat)
    requires CreatedTileData(src, tgt).Success? && !tgt.createMap
    requires c < Tiles(src.width, src.height) && k < 64
    ensures HoldsPixel(src, tgt, CreatedTileData(src, tgt).value, c, k)
  {
    CreatedShape(src, tgt);
    CreatedShows(src, tgt, c, k);
    PlainHolds(src, tgt, CreatedTileData(src, tgt).value, c, k);
  }

  /** TileValues holds, at k, the palette index of pixel k of the tile, row
      by row. */
  lemma {:induction false} TileValuesAt(src: Source, tgt: Target, palette: seq<Rgb>, tx: nat, ty: nat, n: nat, k: nat)
    requires k < n <= 64 && TileValues(src, tgt, palette, tx, ty, n).Success?
    ensures PixelValue(src, tgt, palette, tx * 8 + k % 8, ty * 8 + k / 8) == Success(TileValues(src, tgt, palette, tx, ty, n).value[k])
    decreases n
  {
    var vs := TileValues(src, tgt, palette, tx, ty, n - 1).value;
    if k < n - 1 {
      TileValuesAt(src, tgt, palette, tx, ty, n - 1, k);
    }
  }

  /** The map position and tile pixel of image pixel (px, py) inside the
      whole tiles. */
  lemma PixelInCell(width: nat, height: nat, g: GraphicsTile, px: nat, py: nat)
    requires InGrid(width, height, px, py)
    ensures var c, k, tw := CellIndex(width, px, py), py % 8 * 8 + px % 8, TilesWide(width);
      c < Tiles(width, height) && k < 64 && tw > 0 && c % tw == px / 8 && c / tw == py / 8 &&
      px / 8 * 8 + k % 8 == px && py / 8 * 8 + k / 8 == py &&
      SourcePixel(g, k % 8, k / 8) == SourcePixel(g, px, py)
  {
    var tw, th := TilesWide(width), TilesHigh(height);
    DivModOf(py % 8, px % 8, 8);
    CellInTile(width, height, px, py, 0, 0);
    DivModOf(py / 8, px / 8, tw);
    DivModOf(0, px % 8, 8);
    DivModOf(0, py % 8, 8);
  }

  /** The byte CreateImageSource draws from pixel k of a stored tile holds
      that pixel, whatever palette bank it adds. */
  lemma EntryPixel(tileSet: seq<byte>, bpp: nat, g: GraphicsTile, basePalette: int, k: nat)
    requires (bpp == 4 || bpp == 8) && k < 64 && 0 <= g.tileSetIndex && TileIn(tileSet, bpp, g.tileSetIndex)
    ensures CellByte(tileSet, bpp, g, basePalette, k).Success?
    ensures CellByte(tileSet, bpp, g, basePalette, k).value % Colors(bpp) == StoredPixel(tileSet, bpp, g.tileSetIndex, k)
  {
    PixelByteBounds(0, k, bpp);
  }

  /** Palette index k of the map position holding pixel (px, py) is that
      pixel's. */
  lemma CellPixelValue(src: Source, tgt: Target, px: nat, py: nat)
    requires InGrid(src.width, src.height, px, py)
    requires CellIndex(src.width, px, py) < Tiles(src.width, src.height)
    requires CellValues(src, tgt, CellIndex(src.width, px, py)).Success?
    ensures PixelValue(src, tgt, MatchPalette(tgt), px, py) ==
            Success(CellValues(src, tgt, CellIndex(src.width, px, py)).value[py % 8 * 8 + px % 8])
  {
    var tx, ty, k := px / 8, py / 8, py % 8 * 8 + px % 8;
    PixelInCell(src.width, src.height, Plain(0), px, py);
    var vs := TileValues(src, tgt, MatchPalette(tgt), tx, ty, 64).value;
    TileValuesAt(src, tgt, MatchPalette(tgt), tx, ty, 64, k);
    assert PixelValue(src, tgt, MatchPalette(tgt), tx * 8 + k % 8, ty * 8 + k / 8) == Success(vs[k]);
  }

  /** Tile data that DrawsPixel for the pixel (px, py) of the whole tiles
      shows there, once drawn, that pixel's palette index cut to the pixel
      width. */
  lemma DrawnPixel(src: Source, tgt: Target, d: TileData, basePalette: int, px: nat, py: nat)
    requires px < src.width && py < src.height && InGrid(src.width, src.height, px, py)
    requires ImageOf(d.tileSet, tgt.bpp, d.tileMap, basePalette, src.width, src.height).Success?
    requires CellIndex(src.width, px, py) < Tiles(src.width, src.height)
    requires DrawsPixel(src, tgt, d, CellIndex(src.width, px, py), py % 8 * 8 + px % 8)
    ensures var img := ImageOf(d.tileSet, tgt.bpp, d.tileMap, basePalette, src.width, src.height).value;
      At(src.width, px, py) < |img| && PixelValue(src, tgt, MatchPalette(tgt), px, py).Success? &&
      img[At(src.width, px, py)] % Colors(tgt.bpp) == PixelValue(src, tgt, MatchPalette(tgt), px, py).value % Colors(tgt.bpp)
  {
    var c, k := CellIndex(src.width, px, py), py % 8 * 8 + px % 8;
    var g := EntryAt(d.tileMap, c).value;
    ImagePixels(d.tileSet, tgt.bpp, d.tileMap, basePalette, src.width, src.height, px, py);
    PixelInCell(src.width, src.height, g, px, py);
    EntryPixel(d.tileSet, tgt.bpp, g, basePalette, SourcePixel(g, px, py));
    CellPixelValue(src, tgt, px, py);
  }

  /** The round trip: drawing back the tile data CreateTileData returns,
      without a map or with the intended matching, gives at each pixel of
      the whole tiles the palette index CreateTileData computed for that
      source pixel, cut to the pixel width, whatever base palette it is drawn
      with; the pixels past the whole tiles are 0. */
  lemma RoundTrip(src: Source, tgt: Target, basePalette: int, px: nat, py: nat)
    requires CreatedTileData(src, tgt).Success? && (!tgt.createMap || tgt.reading == Corrected)
    requires px < src.width && py < src.height
    ensures var d := CreatedTileData(src, tgt).value;
      var r := ImageOf(d.tileSet, tgt.bpp, d.tileMap, basePalette, src.width, src.height);
      r.Success? && At(src.width, px, py) < |r.value| &&
      (InGrid(src.width, src.height, px, py) ==>
        PixelValue(src, tgt, MatchPalette(tgt), px, py).Success? &&
        r.value[At(src.width, px, py)] % Colors(tgt.bpp) == PixelValue(src, tgt, MatchPalette(tgt), px, py).value % Colors(tgt.bpp)) &&
      (!InGrid(src.width, src.height, px, py) ==> r.value[At(src.width, px, py)] == 0)
  {
    var d := CreatedTileData(src, tgt).value;
    CreatedDrawable(src, tgt, basePalette);
    ImagePixels(d.tileSet, tgt.bpp, d.tileMap, basePalette, src.width, src.height, px, py);
    if InGrid(src.width, src.height, px, py) {
      CellInTile(src.width, src.height, px, py, 0, 0);
      CreatedShows(src, tgt, CellIndex(src.width, px, py), py % 8 * 8 + px % 8);
      DrawnPixel(src, tgt, d, basePalette, px, py);
    }
  }

  // ---------------------------------------------------------------------
  // The palette indices
  // ---------------------------------------------------------------------

  /** The palette pixels are matched against is the given one, or the grey
      one, cut to 2^bpp colours, without its first colour. */
  lemma MatchPaletteOf(tgt: Target)
    ensures var r, n := MatchPalette(tgt), Pow2(tgt.bpp);
      |r| < n &&
      (tgt.palette == [] ==> |r| == n - 1 && forall i :: 0 <= i < |r| ==> r[i] == tgt.grey(i + 1)) &&
      (tgt.palette != [] ==>
        |r| == (if |tgt.palette| > n then n else |tgt.palette|) - 1 && forall i :: 0 <= i < |r| ==> r[i] == tgt.palette[i + 1])
  {
  }

  /** The nearest-colour search gives an index into the palette it is
      given. */
  ghost predicate NearestInRange(tgt: Target) {
    forall p: seq<Rgb>, c: Rgb :: p != [] ==> tgt.nearest(p, c) < |p|
  }

  /** With such a search, every palette index written is a colour of the
      destination depth, so the cut to the pixel width changes nothing. */
  lemma PixelValueBelow(src: Source, tgt: Target, px: nat, py: nat)
    requires NearestInRange(tgt) && PixelValue(src, tgt, MatchPalette(tgt), px, py).Success?
    ensures PixelValue(src, tgt, MatchPalette(tgt), px, py).value < Colors(tgt.bpp)
  {
    MatchPaletteOf(tgt);
    assert Pow2(4) == 16 && Pow2(8) == 256;
  }

  /** A pixel of the whole tiles is a pixel of the image. */
  lemma GridInImage(width: nat, height: nat, px: nat, py: nat)
    requires InGrid(width, height, px, py)
    ensures px < width && py < height
  {
    DivModOf(width / 8, width % 8, 8);
    DivModOf(height / 8, height % 8, 8);
  }

  /** The round trip, exact: with such a search, each drawn pixel of the
      whole tiles holds, in its low bits, the palette index CreateTileData
      computed for it. */
  lemma ExactRoundTrip(src: Source, tgt: Target, basePalette: int, px: nat, py: nat)
    requires CreatedTileData(src, tgt).Success? && (!tgt.createMap || tgt.reading == Corrected)
    requires NearestInRange(tgt) && InGrid(src.width, src.height, px, py)
    ensures var d := CreatedTileData(src, tgt).value;
      var r := ImageOf(d.tileSet, tgt.bpp, d.tileMap, basePalette, src.width, src.height);
      r.Success? && At(src.width, px, py) < |r.value| && PixelValue(src, tgt, MatchPalette(tgt), px, py).Success? &&
      r.value[At(src.width, px, py)] % Colors(tgt.bpp) == PixelValue(src, tgt, MatchPalette(tgt), px, py).value
  {
    GridInImage(src.width, src.height, px, py);
    RoundTrip(src, tgt, basePalette, px, py);
    PixelValueBelow(src, tgt, px, py);
    var d := CreatedTileData(src, tgt).value;
    var r := ImageOf(d.tileSet, tgt.bpp, d.tileMap, basePalette, src.width, src.height);
    var v := PixelValue(src, tgt, MatchPalette(tgt), px, py).value;
    SmallModOf(r.value[At(src.width, px, py)], v, Colors(tgt.bpp));
  }

  /** Two numbers equal modulo n, the second below n: the first's residue
      is the second. */
  lemma SmallModOf(a: int, v: int, n: int)
    requires 0 <= v < n && a % n == v % n
    ensures a % n == v
  {
  }

  // ---------------------------------------------------------------------
  // Errors
  // ---------------------------------------------------------------------

  /** An image without a whole tile gives an empty tile set and an empty
      map. */
  lemma EmptyImage(src: Source, tgt: Target)
    requires Tiles(src.width, src.height) == 0
    ensures CreatedTileData(src, tgt) == Success(TileData([], []))
  {
  }

  /** The first pixel is read first: when it cannot be turned into a palette
      index, CreateTileData throws that error. */
  lemma FirstPixelFails(src: Source, tgt: Target)
    requires Tiles(src.width, src.height) > 0 && PixelValue(src, tgt, MatchPalette(tgt), 0, 0).Failure?
    ensures CreatedTileData(src, tgt) == Failure(PixelValue(src, tgt, MatchPalette(tgt), 0, 0).error)
  {
    var palette := MatchPalette(tgt);
    assert TileValues(src, tgt, palette, 0, 0, 1) == Failure(PixelValue(src, tgt, palette, 0, 0).error);
    TileValuesFails(src, tgt, palette, 0, 0, 1, 64);
    CellOfIndex(0, TilesWide(src.width), TilesHigh(src.height));
    assert Encoded(src, tgt, 1) == EncodeCell(src, tgt, palette, Initial(src, tgt), 0, 0, 0);
    EncodedFails(src, tgt, 1);
  }

  /** A source pixel format other than the five supported ones throws. */
  lemma UnsupportedFormat(src: Source, tgt: Target)
    requires Tiles(src.width, src.height) > 0 && src.format.OtherFormat?
    ensures CreatedTileData(src, tgt) == Failure(UnsupportedSource)
  {
    FirstPixelFails(src, tgt);
  }

  /** A depth other than 4 or 8 throws once the first pixel is read. */
  lemma UnsupportedDepth(src: Source, tgt: Target)
    requires Tiles(src.width, src.height) > 0 && tgt.bpp != 4 && tgt.bpp != 8 && SourceColor(src, 0, 0).Success?
    ensures CreatedTileData(src, tgt) == Failure(UnsupportedBpp)
  {
    FirstPixelFails(src, tgt);
  }
}
