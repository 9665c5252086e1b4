/** The tile graphics helpers shared by the encoder and the preview: tiles
    of 8×8 pixels at some bits per pixel, stored back to back in a tile set,
    and an indexed image built from a tile set through an optional tile map
    (CreateImageSource), plus the row stride of a bitmap (GetStride). */
module TileGraphics {
  import opened Wrappers
  import opened Binary

  /** A tile map entry: the stored tile to draw, its 16-colour palette bank
      (used at 4 bits per pixel) and whether it is mirrored. */
  datatype GraphicsTile = GraphicsTile(tileSetIndex: int, paletteIndex: int, flipX: bool, flipY: bool)

  /** The exceptions the helpers raise: an unsupported source pixel format, a
      destination depth other than 4 or 8, an index outside an array, and a
      colour index past the end of the source bitmap's palette. */
  datatype TileError = UnsupportedSource | UnsupportedBpp | IndexOutOfRange | PaletteOutOfRange

  /** The bytes of one 8×8 tile at bpp bits per pixel. */
  function TileLength(bpp: nat): nat {
    8 * bpp
  }

  /** The byte of a tile holding pixel k (row k / 8, column k % 8). */
  function PixelByte(k: nat, bpp: nat): nat {
    k * bpp / 8
  }

  /** Pixels 0..63 of a tile at 4 or 8 bits lie inside the tile, and later
      pixels never lie in an earlier byte. */
  lemma PixelByteBounds(j: nat, k: nat, bpp: nat)
    requires j <= k < 64
    ensures PixelByte(j, bpp) <= PixelByte(k, bpp)
    ensures bpp == 4 ==> PixelByte(k, bpp) == k / 2
    ensures bpp == 8 ==> PixelByte(k, bpp) == k
    ensures bpp > 0 ==> PixelByte(k, bpp) < TileLength(bpp)
  {
    MulLe(j, k, bpp);
    MulLe(k, 63, bpp);
    if bpp == 4 {
      assert k * bpp == k * 4;
    } else if bpp == 8 {
      assert k * bpp == k * 8;
    }
  }

  /** The nibble of a byte: the high one or the low one. */
  function Nibble(b: byte, high: bool): (r: nat)
    ensures r < 16
  {
    if high then b / 16 else b % 16
  }

  /** Adding a palette offset in the high nibble keeps the low nibble. */
  lemma LowNibble(n: nat, m: int)
    requires n < 16
    ensures ((n + m * 16) % 256) % 16 == n
  {
    var q := n + m * 16;
    var d := q / 256;
    var e := m - d * 16;
    assert q % 256 == e * 16 + n;
    DivModOf(e, n, 16);
  }

  /** A coordinate within a tile, mirrored when flip is set. */
  function Flip(flip: bool, d: nat): nat
    requires d < 8
  {
    if flip then 7 - d else d
  }

  /** The offset of pixel (px, py) in a row-major image width pixels wide. */
  function At(width: nat, px: nat, py: nat): nat {
    py * width + px
  }

  /** Multiplying by the same factor keeps the order. */
  lemma {:induction false} MulLe(a: nat, b: nat, n: nat)
    requires a <= b
    ensures a * n <= b * n
    decreases b - a
  {
    if a < b {
      MulLe(a, b - 1, n);
      assert (b - 1) * n + n == b * n;
    }
  }

  lemma AtInRange(width: nat, height: nat, px: nat, py: nat)
    requires px < width && py < height
    ensures At(width, px, py) < width * height
  {
    MulLe(py + 1, height, width);
    assert (py + 1) * width == py * width + width;
    assert height * width == width * height;
  }

  lemma AtInjective(width: nat, px: nat, py: nat, qx: nat, qy: nat)
    requires px < width && qx < width && At(width, px, py) == At(width, qx, qy)
    ensures px == qx && py == qy
  {
    if py < qy {
      MulLe(py + 1, qy, width);
    } else if qy < py {
      MulLe(qy + 1, py, width);
    }
  }

  /** Division by n undoes q * n + r for a remainder r below n. */
  lemma DivModOf(q: nat, r: nat, n: nat)
    requires r < n
    ensures (q * n + r) / n == q && (q * n + r) % n == r
  {
    var a := q * n + r;
    var d, m := a / n, a % n;
    assert a == d * n + m && 0 <= m < n;
    if d < q {
      MulLe(d + 1, q, n);
    } else if q < d {
      MulLe(q + 1, d, n);
    }
  }

  /** Map position c of a tw × th grid lies at column c % tw of row c / tw. */
  lemma CellOfIndex(c: nat, tw: nat, th: nat)
    requires c < th * tw
    ensures tw > 0 && c % tw < tw && c / tw < th && c == c / tw * tw + c % tw
  {
    if c / tw >= th {
      MulLe(th, c / tw, tw);
    }
  }

  /** The column and row of map position c in a grid tw tiles wide. */
  lemma SplitCell(c: nat, tw: nat, th: nat) returns (tx: nat, ty: nat)
    requires c < th * tw
    ensures tx < tw && ty < th && c == ty * tw + tx && c % tw == tx && c / tw == ty
  {
    CellOfIndex(c, tw, th);
    tx, ty := c % tw, c / tw;
  }

  /** GetStride: the bytes of a row of width pixels at bitsPerPixel bits,
      rounded up to the next multiple of 4. */
  function GetStride(width: nat, bitsPerPixel: nat): (r: nat)
    ensures r % 4 == 0
    ensures width * bitsPerPixel / 8 <= r < width * bitsPerPixel / 8 + 4
  {
    var stride := width * bitsPerPixel / 8;
    if stride % 4 != 0 then stride + 4 - stride % 4 else stride
  }

  // ---------------------------------------------------------------------
  // CreateImageSource: placing the tiles of a tile set into an indexed image
  // ---------------------------------------------------------------------

  /** The tiles across and down an image; a partial tile is not drawn. */
  function TilesWide(width: nat): nat {
    width / 8
  }

  function TilesHigh(height: nat): nat {
    height / 8
  }

  function Tiles(width: nat, height: nat): nat {
    TilesHigh(height) * TilesWide(width)
  }

  /** The entry drawn when there is no tile map: stored tile c at map
      position c, bank 0, not mirrored. */
  function Plain(c: nat): GraphicsTile {
    GraphicsTile(c, 0, false, false)
  }

  /** The byte CreateImageSource writes for pixel k of the tile drawn by
      entry g: at 4 bits per pixel the low nibble for an even column and
      the high nibble for an odd one, moved to the 16-colour bank
      basePalette + g.paletteIndex (wrapping as a byte); at any other depth
      the byte itself. A read outside the tile set fails. */
  function CellByte(tileSet: seq<byte>, bpp: nat, g: GraphicsTile, basePalette: int, k: nat): (r: Result<byte, TileError>)
    ensures r.Success? <==> 0 <= g.tileSetIndex * TileLength(bpp) + PixelByte(k, bpp) < |tileSet|
    ensures r.Success? && bpp == 4 ==>
      r.value % 16 == Nibble(tileSet[g.tileSetIndex * TileLength(bpp) + PixelByte(k, bpp)], k % 2 == 1)
    ensures r.Success? && bpp != 4 ==> r.value == tileSet[g.tileSetIndex * TileLength(bpp) + PixelByte(k, bpp)]
  {
    var at := g.tileSetIndex * TileLength(bpp) + PixelByte(k, bpp);
    if at < 0 || at >= |tileSet| then Failure(IndexOutOfRange)
    else if bpp == 4 then
      var n, m := Nibble(tileSet[at], k % 2 == 1), basePalette + g.paletteIndex;
      LowNibble(n, m);
      Success((n + m * 16) % 256)
    else Success(tileSet[at])
  }

  /** Where pixel k of the tile drawn at tile (tx, ty) lands: mirrored
      within the tile by the entry's flips. */
  function Dest(width: nat, tx: nat, ty: nat, g: GraphicsTile, k: nat): nat
    requires k < 64
  {
    At(width, tx * 8 + Flip(g.flipX, k % 8), ty * 8 + Flip(g.flipY, k / 8))
  }

  lemma DestInRange(width: nat, height: nat, tx: nat, ty: nat, g: GraphicsTile, k: nat)
    requires tx < TilesWide(width) && ty < TilesHigh(height) && k < 64
    ensures Dest(width, tx, ty, g, k) < width * height
  {
    AtInRange(width, height, tx * 8 + Flip(g.flipX, k % 8), ty * 8 + Flip(g.flipY, k / 8));
  }

  /** The image after drawing the first k pixels of entry g at tile (tx, ty). */
  function DrawPixels(img: seq<byte>, tileSet: seq<byte>, bpp: nat, g: GraphicsTile, basePalette: int,
                      width: nat, height: nat, tx: nat, ty: nat, k: nat): (r: Result<seq<byte>, TileError>)
    requires |img| == width * height && tx < TilesWide(width) && ty < TilesHigh(height) && k <= 64
    ensures r.Success? ==> |r.value| == |img|
  {
    if k == 0 then Success(img)
    else match DrawPixels(img, tileSet, bpp, g, basePalette, width, height, tx, ty, k - 1)
      case Failure(e) => Failure(e)
      case Success(drawn) =>
        match CellByte(tileSet, bpp, g, basePalette, k - 1)
        case Failure(e) => Failure(e)
        case Success(b) =>
          DestInRange(width, height, tx, ty, g, k - 1);
          Success(drawn[Dest(width, tx, ty, g, k - 1) := b])
  }

  /** The image after drawing map position c at tile (tx, ty): without a map
      (an empty map counts as none) stored tile c; with one, a null entry
      leaves the tile alone and a position past the map's end fails. */
  function DrawCell(img: seq<byte>, tileSet: seq<byte>, bpp: nat, tileMap: seq<Option<GraphicsTile>>, basePalette: int,
                    width: nat, height: nat, tx: nat, ty: nat, c: nat): (r: Result<seq<byte>, TileError>)
    requires |img| == width * height && tx < TilesWide(width) && ty < TilesHigh(height)
    ensures r.Success? ==> |r.value| == |img|
  {
    if tileMap == [] then DrawPixels(img, tileSet, bpp, Plain(c), basePalette, width, height, tx, ty, 64)
    else if c >= |tileMap| then Failure(IndexOutOfRange)
    else if tileMap[c].None? then Success(img)
    else DrawPixels(img, tileSet, bpp, tileMap[c].value, basePalette, width, height, tx, ty, 64)
  }

  /** The image after drawing the first c map positions, row by row. */
  function Drawn(tileSet: seq<byte>, bpp: nat, tileMap: seq<Option<GraphicsTile>>, basePalette: int,
                 width: nat, height: nat, c: nat): (r: Result<seq<byte>, TileError>)
    requires c <= Tiles(width, height)
    ensures r.Success? ==> |r.value| == width * height
  {
    if c == 0 then Success(Zeros(width * height))
    else match Drawn(tileSet, bpp, tileMap, basePalette, width, height, c - 1)
      case Failure(e) => Failure(e)
      case Success(img) =>
        var tw := TilesWide(width);
        CellOfIndex(c - 1, tw, TilesHigh(height));
        DrawCell(img, tileSet, bpp, tileMap, basePalette, width, height, (c - 1) % tw, (c - 1) / tw, c - 1)
  }

  /** The image CreateImageSource builds. */
  function ImageOf(tileSet: seq<byte>, bpp: nat, tileMap: seq<Option<GraphicsTile>>, basePalette: int,
                   width: nat, height: nat): (r: Result<seq<byte>, TileError>)
    ensures r.Success? ==> |r.value| == width * height
  {
    Drawn(tileSet, bpp, tileMap, basePalette, width, height, Tiles(width, height))
  }

  /** Draws the 64 pixels of entry g at tile (tx, ty), in the source's row
      by row order, stopping at the first read outside the tile set. */
  method DrawTile(imgData: array<byte>, tileSet: seq<byte>, bpp: nat, g: GraphicsTile, basePalette: int,
                  width: nat, height: nat, tx: nat, ty: nat) returns (error: Option<TileError>)
    requires imgData.Length == width * height && tx < TilesWide(width) && ty < TilesHigh(height)
    modifies imgData
    ensures var r := DrawPixels(old(imgData[..]), tileSet, bpp, g, basePalette, width, height, tx, ty, 64);
      (error.None? <==> r.Success?) && (r.Failure? ==> error == Some(r.error)) && (r.Success? ==> imgData[..] == r.value)
  {
    var y := 0;
    while y < 8
      invariant 0 <= y <= 8
      invariant DrawPixels(old(imgData[..]), tileSet, bpp, g, basePalette, width, height, tx, ty, y * 8) == Success(imgData[..])
    {
      var x := 0;
      while x < 8
        invariant 0 <= x <= 8
        invariant DrawPixels(old(imgData[..]), tileSet, bpp, g, basePalette, width, height, tx, ty, y * 8 + x) == Success(imgData[..])
      {
        ghost var drawn := imgData[..];
        error := DrawPixel(imgData, tileSet, bpp, g, basePalette, width, height, tx, ty, y, x);
        if error.Some? {
          DrawPixelsFails(old(imgData[..]), tileSet, bpp, g, basePalette, width, height, tx, ty, y * 8 + x + 1);
          return;
        }
        DrawPixelsStep(old(imgData[..]), tileSet, bpp, g, basePalette, width, height, tx, ty, y * 8 + x, drawn);
        x := x + 1;
      }
      y := y + 1;
    }
    return None;
  }

  /** One pass of DrawTile's inner loop: reads pixel (x, y) of the entry's
      tile and writes it where the entry's flips put it. */
  method DrawPixel(imgData: array<byte>, tileSet: seq<byte>, bpp: nat, g: GraphicsTile, basePalette: int,
                   width: nat, height: nat, tx: nat, ty: nat, y: nat, x: nat) returns (error: Option<TileError>)
    requires imgData.Length == width * height && tx < TilesWide(width) && ty < TilesHigh(height) && y < 8 && x < 8
    modifies imgData
    ensures Dest(width, tx, ty, g, y * 8 + x) < width * height
    ensures var r := CellByte(tileSet, bpp, g, basePalette, y * 8 + x);
      (error.None? <==> r.Success?) && (r.Failure? ==> error == Some(r.error) && imgData[..] == old(imgData[..])) &&
      (r.Success? ==> imgData[..] == old(imgData[..])[Dest(width, tx, ty, g, y * 8 + x) := r.value])
  {
    PixelOfTile(width, height, tx, ty, g, y, x);
    var k := y * 8 + x;
    var at := g.tileSetIndex * TileLength(bpp) + PixelByte(k, bpp);
    if at < 0 || at >= |tileSet| {
      return Some(IndexOutOfRange);
    }
    var b: byte := tileSet[at];
    if bpp == 4 {
      b := Nibble(b, x % 2 == 1);
    }
    var sourceTileX := if !g.flipX then x else 8 - x - 1;
    var sourceTileY := if !g.flipY then y else 8 - y - 1;
    if bpp == 4 {
      b := (b + (basePalette + g.paletteIndex) * 16) % 256;
    }
    imgData[(ty * 8 + sourceTileY) * width + tx * 8 + sourceTileX] := b;
    return None;
  }

  /** Pixel (x, y) of a tile is pixel y * 8 + x in drawing order, and lands
      where Dest puts it. */
  lemma PixelOfTile(width: nat, height: nat, tx: nat, ty: nat, g: GraphicsTile, y: nat, x: nat)
    requires tx < TilesWide(width) && ty < TilesHigh(height) && y < 8 && x < 8
    ensures (y * 8 + x) % 8 == x && (y * 8 + x) / 8 == y && (y * 8 + x) % 2 == x % 2
    ensures Dest(width, tx, ty, g, y * 8 + x) ==
            (ty * 8 + (if !g.flipY then y else 8 - y - 1)) * width + tx * 8 + (if !g.flipX then x else 8 - x - 1)
    ensures Dest(width, tx, ty, g, y * 8 + x) < width * height
  {
    DivModOf(y, x, 8);
    DivModOf(y * 4 + x / 2, x % 2, 2);
    DestInRange(width, height, tx, ty, g, y * 8 + x);
  }

  lemma DrawPixelsStep(img: seq<byte>, tileSet: seq<byte>, bpp: nat, g: GraphicsTile, basePalette: int,
                       width: nat, height: nat, tx: nat, ty: nat, k: nat, drawn: seq<byte>)
    requires |img| == width * height && tx < TilesWide(width) && ty < TilesHigh(height) && k < 64
    requires DrawPixels(img, tileSet, bpp, g, basePalette, width, height, tx, ty, k) == Success(drawn)
    requires CellByte(tileSet, bpp, g, basePalette, k).Success?
    ensures Dest(width, tx, ty, g, k) < |drawn|
    ensures DrawPixels(img, tileSet, bpp, g, basePalette, width, height, tx, ty, k + 1) ==
            Success(drawn[Dest(width, tx, ty, g, k) := CellByte(tileSet, bpp, g, basePalette, k).value])
  {
    DestInRange(width, height, tx, ty, g, k);
  }

  /** A failure while drawing a tile's first pixels is the tile's failure. */
  lemma {:induction false} DrawPixelsFails(img: seq<byte>, tileSet: seq<byte>, bpp: nat, g: GraphicsTile, basePalette: int,
                                          width: nat, height: nat, tx: nat, ty: nat, k: nat)
    requires |img| == width * height && tx < TilesWide(width) && ty < TilesHigh(height) && k <= 64
    requires DrawPixels(img, tileSet, bpp, g, basePalette, width, height, tx, ty, k).Failure?
    ensures DrawPixels(img, tileSet, bpp, g, basePalette, width, height, tx, ty, 64) ==
            DrawPixels(img, tileSet, bpp, g, basePalette, width, height, tx, ty, k)
    decreases 64 - k
  {
    if k < 64 {
      DrawPixelsFails(img, tileSet, bpp, g, basePalette, width, height, tx, ty, k + 1);
    }
  }

  /** A failure while drawing the first map positions is the image's
      failure. */
  lemma {:induction false} DrawnFails(tileSet: seq<byte>, bpp: nat, tileMap: seq<Option<GraphicsTile>>, basePalette: int,
                                     width: nat, height: nat, c: nat)
    requires c <= Tiles(width, height)
    requires Drawn(tileSet, bpp, tileMap, basePalette, width, height, c).Failure?
    ensures ImageOf(tileSet, bpp, tileMap, basePalette, width, height) == Drawn(tileSet, bpp, tileMap, basePalette, width, height, c)
    decreases Tiles(width, height) - c
  {
    if c < Tiles(width, height) {
      DrawnFails(tileSet, bpp, tileMap, basePalette, width, height, c + 1);
    }
  }

  /** Drawing map position tileY * tw + tileX is the next step of Drawn. */
  lemma DrawnStep(tileSet: seq<byte>, bpp: nat, tileMap: seq<Option<GraphicsTile>>, basePalette: int,
                  width: nat, height: nat, tileX: nat, tileY: nat, img: seq<byte>)
    requires tileX < TilesWide(width) && tileY < TilesHigh(height)
    requires tileY * TilesWide(width) + tileX < Tiles(width, height)
    requires Drawn(tileSet, bpp, tileMap, basePalette, width, height, tileY * TilesWide(width) + tileX) == Success(img)
    ensures |img| == width * height
    ensures Drawn(tileSet, bpp, tileMap, basePalette, width, height, tileY * TilesWide(width) + tileX + 1) ==
            DrawCell(img, tileSet, bpp, tileMap, basePalette, width, height, tileX, tileY, tileY * TilesWide(width) + tileX)
  {
    DivModOf(tileY, tileX, TilesWide(width));
  }

  /** Map positions up to the end of row tileY lie in the grid. */
  lemma RowInGrid(tw: nat, th: nat, tileY: nat, tileX: nat)
    requires tileY < th && tileX <= tw
    ensures tileY * tw + tileX <= th * tw && (tileY + 1) * tw == tileY * tw + tw
  {
    MulLe(tileY + 1, th, tw);
  }

  /** One pass of CreateImageSource's inner loop: draws map position
      mapIndex at tile (tileX, tileY), or reports why the image fails. */
  method DrawMapCell(imgData: array<byte>, tileSet: seq<byte>, bpp: nat, tileMap: seq<Option<GraphicsTile>>, basePalette: int,
                     width: nat, height: nat, tileX: nat, tileY: nat, mapIndex: nat) returns (error: Option<TileError>)
    requires tileX < TilesWide(width) && tileY < TilesHigh(height)
    requires mapIndex == tileY * TilesWide(width) + tileX && mapIndex < Tiles(width, height)
    requires Drawn(tileSet, bpp, tileMap, basePalette, width, height, mapIndex) == Success(imgData[..])
    modifies imgData
    ensures error.None? ==> Drawn(tileSet, bpp, tileMap, basePalette, width, height, mapIndex + 1) == Success(imgData[..])
    ensures error.Some? ==> ImageOf(tileSet, bpp, tileMap, basePalette, width, height) == Failure(error.value)
  {
    DrawnStep(tileSet, bpp, tileMap, basePalette, width, height, tileX, tileY, imgData[..]);
    if tileMap != [] && mapIndex >= |tileMap| {
      DrawnFails(tileSet, bpp, tileMap, basePalette, width, height, mapIndex + 1);
      return Some(IndexOutOfRange);
    }
    if tileMap == [] || tileMap[mapIndex].Some? {
      var g := if tileMap == [] then Plain(mapIndex) else tileMap[mapIndex].value;
      error := DrawTile(imgData, tileSet, bpp, g, basePalette, width, height, tileX, tileY);
      if error.Some? {
        DrawnFails(tileSet, bpp, tileMap, basePalette, width, height, mapIndex + 1);
      }
    } else {
      error := None;
    }
  }

  /** CreateImageSource, without the palette conversion and the bitmap
      object: the indexed pixels of a width × height image drawn tile by tile
      from the tile set, through the tile map when there is one. */
  method CreateImageSource(tileSet: seq<byte>, bpp: nat, tileMap: seq<Option<GraphicsTile>>, width: nat, height: nat,
                           basePalette: int) returns (r: Result<seq<byte>, TileError>)
    ensures r == ImageOf(tileSet, bpp, tileMap, basePalette, width, height)
  {
    var tilesWidth := width / 8;
    var tilesHeight := height / 8;
    var imgData := new byte[width * height](_ => 0);
    assert imgData[..] == Zeros(width * height);
    var tileY := 0;
    while tileY < tilesHeight
      invariant 0 <= tileY <= tilesHeight
      invariant tileY * tilesWidth <= Tiles(width, height)
      invariant Drawn(tileSet, bpp, tileMap, basePalette, width, height, tileY * tilesWidth) == Success(imgData[..])
    {
      var tileX := 0;
      while tileX < tilesWidth
        invariant 0 <= tileX <= tilesWidth
        invariant tileY * tilesWidth + tileX <= Tiles(width, height)
        invariant Drawn(tileSet, bpp, tileMap, basePalette, width, height, tileY * tilesWidth + tileX) == Success(imgData[..])
      {
        var mapIndex := tileY * tilesWidth + tileX;
        RowInGrid(tilesWidth, tilesHeight, tileY, tileX + 1);
        var error := DrawMapCell(imgData, tileSet, bpp, tileMap, basePalette, width, height, tileX, tileY, mapIndex);
        if error.Some? {
          return Failure(error.value);
        }
        tileX := tileX + 1;
      }
      RowInGrid(tilesWidth, tilesHeight, tileY, tilesWidth);
      tileY := tileY + 1;
    }
    return Success(imgData[..]);
  }

  // ---------------------------------------------------------------------
  // What the drawn image holds
  // ---------------------------------------------------------------------

  /** The entry drawn at map position c: stored tile c when there is no map,
      None for a null entry. */
  function EntryAt(tileMap: seq<Option<GraphicsTile>>, c: nat): Option<GraphicsTile>
    requires tileMap == [] || c < |tileMap|
  {
    if tileMap == [] then Some(Plain(c)) else tileMap[c]
  }

  /** A tile whose first byte lies before the tile set or whose last pixel
      lies past its end. */
  predicate TileFails(tileSet: seq<byte>, bpp: nat, g: GraphicsTile) {
    g.tileSetIndex * TileLength(bpp) < 0 || g.tileSetIndex * TileLength(bpp) + PixelByte(63, bpp) >= |tileSet|
  }

  /** Whether drawing map position c fails. */
  predicate CellFails(tileSet: seq<byte>, bpp: nat, tileMap: seq<Option<GraphicsTile>>, c: nat) {
    if tileMap != [] && c >= |tileMap| then true
    else EntryAt(tileMap, c).Some? && TileFails(tileSet, bpp, EntryAt(tileMap, c).value)
  }

  /** Whether pixel (px, py) lies in the tile at (tx, ty). */
  predicate InTile(tx: nat, ty: nat, px: nat, py: nat) {
    tx * 8 <= px < tx * 8 + 8 && ty * 8 <= py < ty * 8 + 8
  }

  /** The pixel of the drawn tile that the entry's flips bring to (px, py). */
  function SourcePixel(g: GraphicsTile, px: nat, py: nat): (k: nat)
    ensures k < 64
  {
    Flip(g.flipY, py % 8) * 8 + Flip(g.flipX, px % 8)
  }

  /** Whether pixel (px, py) lies in one of the whole tiles. */
  predicate InGrid(width: nat, height: nat, px: nat, py: nat) {
    px < TilesWide(width) * 8 && py < TilesHigh(height) * 8
  }

  /** The map position of the tile holding pixel (px, py). */
  function CellIndex(width: nat, px: nat, py: nat): nat {
    py / 8 * TilesWide(width) + px / 8
  }

  /** The byte CreateImageSource leaves at pixel (px, py): 0 outside the whole
      tiles and under a null map entry; otherwise the byte drawn from the
      pixel of the entry's stored tile that the flips bring to (px, py). */
  function ImagePixel(tileSet: seq<byte>, bpp: nat, tileMap: seq<Option<GraphicsTile>>, basePalette: int,
                      width: nat, height: nat, px: nat, py: nat): Result<byte, TileError>
  {
    if !InGrid(width, height, px, py) then Success(0)
    else
      var c := CellIndex(width, px, py);
      if tileMap != [] && c >= |tileMap| then Failure(IndexOutOfRange)
      else match EntryAt(tileMap, c)
        case None => Success(0)
        case Some(g) => CellByte(tileSet, bpp, g, basePalette, SourcePixel(g, px, py))
  }

  /** Drawing the first k pixels of a tile succeeds exactly when its first
      byte and the byte of pixel k - 1 lie in the tile set. */
  lemma {:induction false} DrawPixelsSucceeds(img: seq<byte>, tileSet: seq<byte>, bpp: nat, g: GraphicsTile, basePalette: int,
                                             width: nat, height: nat, tx: nat, ty: nat, k: nat)
    requires |img| == width * height && tx < TilesWide(width) && ty < TilesHigh(height) && k <= 64
    ensures DrawPixels(img, tileSet, bpp, g, basePalette, width, height, tx, ty, k).Success? <==>
      k == 0 || (0 <= g.tileSetIndex * TileLength(bpp) && g.tileSetIndex * TileLength(bpp) + PixelByte(k - 1, bpp) < |tileSet|)
  {
    if k > 1 {
      DrawPixelsSucceeds(img, tileSet, bpp, g, basePalette, width, height, tx, ty, k - 1);
      PixelByteBounds(k - 2, k - 1, bpp);
      PixelByteBounds(0, k - 2, bpp);
    }
  }

  /** Drawing a tile only fails on a read outside the tile set. */
  lemma {:induction false} DrawPixelsError(img: seq<byte>, tileSet: seq<byte>, bpp: nat, g: GraphicsTile, basePalette: int,
                                          width: nat, height: nat, tx: nat, ty: nat, k: nat)
    requires |img| == width * height && tx < TilesWide(width) && ty < TilesHigh(height) && k <= 64
    ensures var r := DrawPixels(img, tileSet, bpp, g, basePalette, width, height, tx, ty, k);
      r.Failure? ==> r.error == IndexOutOfRange
  {
    if k > 0 {
      DrawPixelsError(img, tileSet, bpp, g, basePalette, width, height, tx, ty, k - 1);
    }
  }

  /** Drawing map position c fails exactly when CellFails says so, and
      always with IndexOutOfRange. */
  lemma DrawCellFails(img: seq<byte>, tileSet: seq<byte>, bpp: nat, tileMap: seq<Option<GraphicsTile>>, basePalette: int,
                      width: nat, height: nat, tx: nat, ty: nat, c: nat)
    requires |img| == width * height && tx < TilesWide(width) && ty < TilesHigh(height)
    ensures var r := DrawCell(img, tileSet, bpp, tileMap, basePalette, width, height, tx, ty, c);
      (r.Failure? <==> CellFails(tileSet, bpp, tileMap, c)) && (r.Failure? ==> r.error == IndexOutOfRange)
  {
    if tileMap == [] || (c < |tileMap| && tileMap[c].Some?) {
      var g := EntryAt(tileMap, c).value;
      DrawPixelsSucceeds(img, tileSet, bpp, g, basePalette, width, height, tx, ty, 64);
      DrawPixelsError(img, tileSet, bpp, g, basePalette, width, height, tx, ty, 64);
    }
  }

  /** Drawing the first c map positions fails exactly when one of them fails. */
  lemma {:induction false} DrawnFailsAt(tileSet: seq<byte>, bpp: nat, tileMap: seq<Option<GraphicsTile>>, basePalette: int,
                                       width: nat, height: nat, c: nat)
    requires c <= Tiles(width, height)
    ensures var r := Drawn(tileSet, bpp, tileMap, basePalette, width, height, c);
      (r.Failure? <==> exists j: nat :: j < c && CellFails(tileSet, bpp, tileMap, j)) && (r.Failure? ==> r.error == IndexOutOfRange)
    decreases c
  {
    if c > 0 {
      DrawnFailsAt(tileSet, bpp, tileMap, basePalette, width, height, c - 1);
      var prev := Drawn(tileSet, bpp, tileMap, basePalette, width, height, c - 1);
      if prev.Success? {
        var tx, ty := SplitCell(c - 1, TilesWide(width), TilesHigh(height));
        DrawCellFails(prev.value, tileSet, bpp, tileMap, basePalette, width, height, tx, ty, c - 1);
      }
    }
  }

  /** CreateImageSource fails exactly when some map position of the grid
      lies past the end of a non-empty map, or names a stored tile not wholly
      inside the tile set; the error is then always IndexOutOfRange. */
  lemma ImageFails(tileSet: seq<byte>, bpp: nat, tileMap: seq<Option<GraphicsTile>>, basePalette: int, width: nat, height: nat)
    ensures var r := ImageOf(tileSet, bpp, tileMap, basePalette, width, height);
      (r.Failure? <==> exists c: nat :: c < Tiles(width, height) && CellFails(tileSet, bpp, tileMap, c)) &&
      (r.Failure? ==> r.error == IndexOutOfRange)
  {
    DrawnFailsAt(tileSet, bpp, tileMap, basePalette, width, height, Tiles(width, height));
  }

  /** After drawing the first k pixels of entry g at tile (tx, ty), a pixel of
      that tile whose source pixel is already drawn holds that pixel's byte,
      and every other pixel is as before. */
  lemma {:induction false} DrawPixelsAt(img: seq<byte>, tileSet: seq<byte>, bpp: nat, g: GraphicsTile, basePalette: int,
                                       width: nat, height: nat, tx: nat, ty: nat, k: nat, px: nat, py: nat)
    requires |img| == width * height && tx < TilesWide(width) && ty < TilesHigh(height) && k <= 64
    requires px < width && py < height
    requires DrawPixels(img, tileSet, bpp, g, basePalette, width, height, tx, ty, k).Success?
    ensures At(width, px, py) < |img|
    ensures var r := DrawPixels(img, tileSet, bpp, g, basePalette, width, height, tx, ty, k).value;
      if InTile(tx, ty, px, py) && SourcePixel(g, px, py) < k
      then CellByte(tileSet, bpp, g, basePalette, SourcePixel(g, px, py)) == Success(r[At(width, px, py)])
      else r[At(width, px, py)] == img[At(width, px, py)]
  {
    AtInRange(width, height, px, py);
    if k > 0 {
      DrawPixelsAt(img, tileSet, bpp, g, basePalette, width, height, tx, ty, k - 1, px, py);
      DestIs(width, height, tx, ty, g, k - 1, px, py);
    }
  }

  /** Pixel j of the tile drawn at (tx, ty) lands on (px, py) exactly when
      (px, py) lies in that tile and j is its source pixel. */
  lemma DestIs(width: nat, height: nat, tx: nat, ty: nat, g: GraphicsTile, j: nat, px: nat, py: nat)
    requires tx < TilesWide(width) && ty < TilesHigh(height) && j < 64 && px < width && py < height
    ensures Dest(width, tx, ty, g, j) == At(width, px, py) <==> InTile(tx, ty, px, py) && SourcePixel(g, px, py) == j
  {
    if Dest(width, tx, ty, g, j) == At(width, px, py) {
      DestLandsIn(width, height, tx, ty, g, j, px, py);
    }
    if InTile(tx, ty, px, py) && SourcePixel(g, px, py) == j {
      DestOfSource(width, height, tx, ty, g, j, px, py);
    }
  }

  lemma DestLandsIn(width: nat, height: nat, tx: nat, ty: nat, g: GraphicsTile, j: nat, px: nat, py: nat)
    requires tx < TilesWide(width) && ty < TilesHigh(height) && j < 64 && px < width && py < height
    requires Dest(width, tx, ty, g, j) == At(width, px, py)
    ensures InTile(tx, ty, px, py) && SourcePixel(g, px, py) == j
  {
    var qx, qy := tx * 8 + Flip(g.flipX, j % 8), ty * 8 + Flip(g.flipY, j / 8);
    assert qx < width && qy < height;
    AtInjective(width, px, py, qx, qy);
    DivModOf(tx, Flip(g.flipX, j % 8), 8);
    DivModOf(ty, Flip(g.flipY, j / 8), 8);
  }

  lemma DestOfSource(width: nat, height: nat, tx: nat, ty: nat, g: GraphicsTile, j: nat, px: nat, py: nat)
    requires tx < TilesWide(width) && ty < TilesHigh(height) && j < 64 && px < width && py < height
    requires InTile(tx, ty, px, py) && SourcePixel(g, px, py) == j
    ensures Dest(width, tx, ty, g, j) == At(width, px, py)
  {
    DivModOf(tx, px - tx * 8, 8);
    DivModOf(ty, py - ty * 8, 8);
    DivModOf(Flip(g.flipY, py % 8), Flip(g.flipX, px % 8), 8);
  }

  /** A pixel of the whole tiles lies in the tile at (tx, ty) exactly when
      its map position is ty * tw + tx. */
  lemma CellInTile(width: nat, height: nat, px: nat, py: nat, tx: nat, ty: nat)
    requires InGrid(width, height, px, py) && tx < TilesWide(width) && ty < TilesHigh(height)
    ensures CellIndex(width, px, py) < Tiles(width, height)
    ensures InTile(tx, ty, px, py) <==> CellIndex(width, px, py) == ty * TilesWide(width) + tx
  {
    var tw, th := TilesWide(width), TilesHigh(height);
    MulLe(py / 8 + 1, th, tw);
    assert (py / 8 + 1) * tw == py / 8 * tw + tw;
    if py / 8 * tw + px / 8 == ty * tw + tx {
      DivModOf(py / 8, px / 8, tw);
      DivModOf(ty, tx, tw);
    }
  }

  /** Drawing map position c at tile (tx, ty) leaves the pixels outside that
      tile alone. */
  lemma DrawCellOutside(img: seq<byte>, tileSet: seq<byte>, bpp: nat, tileMap: seq<Option<GraphicsTile>>, basePalette: int,
                        width: nat, height: nat, tx: nat, ty: nat, px: nat, py: nat)
    requires |img| == width * height && tx < TilesWide(width) && ty < TilesHigh(height)
    requires px < width && py < height && !InTile(tx, ty, px, py)
    requires DrawCell(img, tileSet, bpp, tileMap, basePalette, width, height, tx, ty, ty * TilesWide(width) + tx).Success?
    ensures At(width, px, py) < |img|
    ensures DrawCell(img, tileSet, bpp, tileMap, basePalette, width, height, tx, ty, ty * TilesWide(width) + tx).value[At(width, px, py)] ==
            img[At(width, px, py)]
  {
    AtInRange(width, height, px, py);
    var c := ty * TilesWide(width) + tx;
    if tileMap == [] {
      DrawPixelsAt(img, tileSet, bpp, Plain(c), basePalette, width, height, tx, ty, 64, px, py);
    } else if tileMap[c].Some? {
      DrawPixelsAt(img, tileSet, bpp, tileMap[c].value, basePalette, width, height, tx, ty, 64, px, py);
    }
  }

  /** Drawing map position c at tile (tx, ty) puts ImagePixel into a pixel of
      that tile that was still 0. */
  lemma DrawCellInside(img: seq<byte>, tileSet: seq<byte>, bpp: nat, tileMap: seq<Option<GraphicsTile>>, basePalette: int,
                       width: nat, height: nat, tx: nat, ty: nat, px: nat, py: nat)
    requires |img| == width * height && tx < TilesWide(width) && ty < TilesHigh(height)
    requires px < width && py < height && InTile(tx, ty, px, py)
    requires DrawCell(img, tileSet, bpp, tileMap, basePalette, width, height, tx, ty, ty * TilesWide(width) + tx).Success?
    requires At(width, px, py) < |img| && img[At(width, px, py)] == 0
    ensures InGrid(width, height, px, py) && CellIndex(width, px, py) == ty * TilesWide(width) + tx
    ensures var r := DrawCell(img, tileSet, bpp, tileMap, basePalette, width, height, tx, ty, ty * TilesWide(width) + tx).value;
      ImagePixel(tileSet, bpp, tileMap, basePalette, width, height, px, py) == Success(r[At(width, px, py)])
  {
    var tw, th := TilesWide(width), TilesHigh(height);
    var c := ty * tw + tx;
    MulLe(tx + 1, tw, 8);
    MulLe(ty + 1, th, 8);
    CellInTile(width, height, px, py, tx, ty);
    var r := DrawCell(img, tileSet, bpp, tileMap, basePalette, width, height, tx, ty, c).value;
    if tileMap == [] {
      DrawPixelsAt(img, tileSet, bpp, Plain(c), basePalette, width, height, tx, ty, 64, px, py);
      assert ImagePixel(tileSet, bpp, tileMap, basePalette, width, height, px, py) ==
             CellByte(tileSet, bpp, Plain(c), basePalette, SourcePixel(Plain(c), px, py));
    } else if tileMap[c].Some? {
      var g := tileMap[c].value;
      DrawPixelsAt(img, tileSet, bpp, g, basePalette, width, height, tx, ty, 64, px, py);
      assert ImagePixel(tileSet, bpp, tileMap, basePalette, width, height, px, py) ==
             CellByte(tileSet, bpp, g, basePalette, SourcePixel(g, px, py));
    } else {
      assert r == img;
    }
  }

  /** The image after drawing the first c map positions, as the step from
      the image before: map position c - 1 drawn at its tile (tx, ty). */
  lemma DrawnCell(tileSet: seq<byte>, bpp: nat, tileMap: seq<Option<GraphicsTile>>, basePalette: int,
                  width: nat, height: nat, c: nat) returns (tx: nat, ty: nat)
    requires 0 < c <= Tiles(width, height)
    requires Drawn(tileSet, bpp, tileMap, basePalette, width, height, c).Success?
    ensures tx < TilesWide(width) && ty < TilesHigh(height) && c - 1 == ty * TilesWide(width) + tx
    ensures Drawn(tileSet, bpp, tileMap, basePalette, width, height, c - 1).Success?
    ensures Drawn(tileSet, bpp, tileMap, basePalette, width, height, c) ==
            DrawCell(Drawn(tileSet, bpp, tileMap, basePalette, width, height, c - 1).value, tileSet, bpp, tileMap, basePalette,
                     width, height, tx, ty, c - 1)
  {
    tx, ty := SplitCell(c - 1, TilesWide(width), TilesHigh(height));
  }

  /** After drawing the first c map positions, a pixel of one of them holds
      the byte ImagePixel gives it. */
  lemma {:induction false} DrawnBefore(tileSet: seq<byte>, bpp: nat, tileMap: seq<Option<GraphicsTile>>, basePalette: int,
                                      width: nat, height: nat, c: nat, px: nat, py: nat)
    requires c <= Tiles(width, height) && px < width && py < height
    requires Drawn(tileSet, bpp, tileMap, basePalette, width, height, c).Success?
    requires InGrid(width, height, px, py) && CellIndex(width, px, py) < c
    ensures At(width, px, py) < width * height
    ensures ImagePixel(tileSet, bpp, tileMap, basePalette, width, height, px, py) ==
            Success(Drawn(tileSet, bpp, tileMap, basePalette, width, height, c).value[At(width, px, py)])
    decreases c
  {
    AtInRange(width, height, px, py);
    var tx, ty := DrawnCell(tileSet, bpp, tileMap, basePalette, width, height, c);
    var img := Drawn(tileSet, bpp, tileMap, basePalette, width, height, c - 1).value;
    CellInTile(width, height, px, py, tx, ty);
    if InTile(tx, ty, px, py) {
      DrawnAfter(tileSet, bpp, tileMap, basePalette, width, height, c - 1, px, py);
      DrawCellInside(img, tileSet, bpp, tileMap, basePalette, width, height, tx, ty, px, py);
    } else {
      DrawnBefore(tileSet, bpp, tileMap, basePalette, width, height, c - 1, px, py);
      DrawCellOutside(img, tileSet, bpp, tileMap, basePalette, width, height, tx, ty, px, py);
    }
  }

  /** A pixel outside the first c + 1 map positions is outside the tile of
      map position c. */
  lemma OutsideLaterTiles(width: nat, height: nat, px: nat, py: nat, tx: nat, ty: nat, c: nat)
    requires tx < TilesWide(width) && ty < TilesHigh(height) && c == ty * TilesWide(width) + tx
    requires !InGrid(width, height, px, py) || CellIndex(width, px, py) > c
    ensures !InTile(tx, ty, px, py)
  {
    if InTile(tx, ty, px, py) {
      CellInTile(width, height, px, py, tx, ty);
    }
  }

  /** After drawing the first c map positions, every pixel outside them is
      still 0. */
  lemma {:induction false} DrawnAfter(tileSet: seq<byte>, bpp: nat, tileMap: seq<Option<GraphicsTile>>, basePalette: int,
                                     width: nat, height: nat, c: nat, px: nat, py: nat)
    requires c <= Tiles(width, height) && px < width && py < height
    requires Drawn(tileSet, bpp, tileMap, basePalette, width, height, c).Success?
    requires !InGrid(width, height, px, py) || CellIndex(width, px, py) >= c
    ensures At(width, px, py) < width * height
    ensures Drawn(tileSet, bpp, tileMap, basePalette, width, height, c).value[At(width, px, py)] == 0
    decreases c
  {
    AtInRange(width, height, px, py);
    if c > 0 {
      var tx, ty := DrawnCell(tileSet, bpp, tileMap, basePalette, width, height, c);
      DrawnAfter(tileSet, bpp, tileMap, basePalette, width, height, c - 1, px, py);
      var img := Drawn(tileSet, bpp, tileMap, basePalette, width, height, c - 1).value;
      OutsideLaterTiles(width, height, px, py, tx, ty, c - 1);
      DrawCellOutside(img, tileSet, bpp, tileMap, basePalette, width, height, tx, ty, px, py);
    }
  }

  /** The image CreateImageSource builds holds ImagePixel at every pixel. */
  lemma ImagePixels(tileSet: seq<byte>, bpp: nat, tileMap: seq<Option<GraphicsTile>>, basePalette: int,
                    width: nat, height: nat, px: nat, py: nat)
    requires px < width && py < height
    requires ImageOf(tileSet, bpp, tileMap, basePalette, width, height).Success?
    ensures var img := ImageOf(tileSet, bpp, tileMap, basePalette, width, height).value;
      |img| == width * height && At(width, px, py) < |img| &&
      ImagePixel(tileSet, bpp, tileMap, basePalette, width, height, px, py) == Success(img[At(width, px, py)])
  {
    if InGrid(width, height, px, py) {
      CellInTile(width, height, px, py, 0, 0);
      DrawnBefore(tileSet, bpp, tileMap, basePalette, width, height, Tiles(width, height), px, py);
    } else {
      DrawnAfter(tileSet, bpp, tileMap, basePalette, width, height, Tiles(width, height), px, py);
    }
  }
}
