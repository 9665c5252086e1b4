/** CreateTileData: cuts a bitmap into 8×8 tiles, turns every pixel into an
    index of the destination palette, packs the tiles at 4 or 8 bits per pixel
    into a tile set and, when asked to, builds a tile map that stores a tile
    only once even when it recurs mirrored. */
module TileEncoder {
  import opened Wrappers
  import opened Binary
  import opened TileGraphics

  /** A colour read from the source bitmap: its pixels or its palette. */
  datatype Bgra = Bgra(b: byte, g: byte, r: byte, a: byte)

  /** A colour of the destination palette, and the colour looked up in it. */
  datatype Rgb = Rgb(r: int, g: int, b: int)

  /** The source pixel formats CreateTileData reads, and any other one. */
  datatype PixelFormat = Bgra32 | Bgr24 | Bgr32 | Indexed8 | Indexed4 | OtherFormat(bits: nat)

  function BitsPerPixel(format: PixelFormat): nat {
    match format
    case Bgra32 => 32
    case Bgr24 => 24
    case Bgr32 => 32
    case Indexed8 => 8
    case Indexed4 => 4
    case OtherFormat(bits) => bits
  }

  /** The bitmap to encode: its pixel bytes (row-major), their format, the
      palette of an indexed format and its size in pixels. */
  datatype Source = Source(data: seq<byte>, format: PixelFormat, palette: seq<Bgra>, width: nat, height: nat)

  /** How the tile matching reads a stored tile and sets the flip flags:
      as the code does, or as it evidently intends. */
  datatype Reading = AsWritten | Corrected

  /** The encoding asked for: bits per pixel, the destination palette (empty
      for none), colour i of the grey palette used without one, the
      nearest-colour search, whether to build a tile map, the palette bank
      written into the map entries, and the matching rule. */
  datatype Target = Target(bpp: nat, palette: seq<Rgb>, grey: nat -> Rgb, nearest: (seq<Rgb>, Rgb) -> nat,
                           createMap: bool, basePalette: int, reading: Reading)

  /** What CreateTileData returns: the tile set and the tile map (empty
      without createMap). */
  datatype TileData = TileData(tileSet: seq<byte>, tileMap: seq<Option<GraphicsTile>>)

  /** GetPaletteLength: the colours of a palette at n bits per pixel. */
  function Pow2(n: nat): (r: nat)
    ensures r >= 1
  {
    if n == 0 then 1 else 2 * Pow2(n - 1)
  }

  /** The palette a pixel is matched against: the given one, or the grey one
      when none is given, cut to 2^bpp colours and without its first colour,
      which is kept for transparent pixels. */
  function MatchPalette(tgt: Target): seq<Rgb> {
    var colorsCount := Pow2(tgt.bpp);
    var palette := if tgt.palette == [] then seq(colorsCount, i requires 0 <= i => tgt.grey(i)) else tgt.palette;
    if |palette| > colorsCount then palette[1..colorsCount] else palette[1..]
  }

  /** The matched palette has fewer than 2^bpp colours, so one past any of
      its indices fits the pixel; without a given palette it is the grey
      palette without its first colour. */
  lemma MatchPaletteColors(tgt: Target)
    ensures |MatchPalette(tgt)| < Pow2(tgt.bpp)
    ensures var r := MatchPalette(tgt);
      tgt.palette == [] ==> |r| == Pow2(tgt.bpp) - 1 && forall i :: 0 <= i < |r| ==> r[i] == tgt.grey(i + 1)
  {
  }

  // ---------------------------------------------------------------------
  // Reading the source
  // ---------------------------------------------------------------------

  /** The byte offset of pixel (px, py) in the source data. */
  function SourceOffset(src: Source, px: nat, py: nat): nat {
    (py * src.width + px) * BitsPerPixel(src.format) / 8
  }

  function PaletteColor(palette: seq<Bgra>, index: nat): Result<Bgra, TileError> {
    if index < |palette| then Success(palette[index]) else Failure(PaletteOutOfRange)
  }

  /** The colour of source pixel (px, py). A 4-bit indexed pixel at an even
      x is the high nibble of its byte. */
  function SourceColor(src: Source, px: nat, py: nat): Result<Bgra, TileError> {
    var at := SourceOffset(src, px, py);
    match src.format
    case Bgra32 =>
      if at + 3 < |src.data| then Success(Bgra(src.data[at], src.data[at + 1], src.data[at + 2], src.data[at + 3]))
      else Failure(IndexOutOfRange)
    case Bgr24 =>
      if at + 2 < |src.data| then Success(Bgra(src.data[at], src.data[at + 1], src.data[at + 2], 255))
      else Failure(IndexOutOfRange)
    case Bgr32 =>
      if at + 2 < |src.data| then Success(Bgra(src.data[at], src.data[at + 1], src.data[at + 2], 255))
      else Failure(IndexOutOfRange)
    case Indexed8 =>
      if at < |src.data| then PaletteColor(src.palette, src.data[at]) else Failure(IndexOutOfRange)
    case Indexed4 =>
      if at < |src.data| then PaletteColor(src.palette, Nibble(src.data[at], px % 2 == 0)) else Failure(IndexOutOfRange)
    case OtherFormat(_) => Failure(UnsupportedSource)
  }

  /** The palette index a colour becomes: 0 when fully transparent, else one
      past the nearest colour of the matched palette. The nearest-colour
      search finds nothing in an empty palette, which gives 0 as well. */
  function PaletteIndex(color: Bgra, palette: seq<Rgb>, nearest: (seq<Rgb>, Rgb) -> nat): nat {
    if color.a == 0 || palette == [] then 0 else nearest(palette, Rgb(color.r, color.g, color.b)) + 1
  }

  /** A source pixel reads only inside the data; a format the encoder does
      not know fails as unsupported, and the formats without alpha read
      opaque. */
  lemma SourceColorReads(src: Source, px: nat, py: nat)
    ensures src.format.OtherFormat? ==> SourceColor(src, px, py) == Failure(UnsupportedSource)
    ensures SourceColor(src, px, py).Success? ==> SourceOffset(src, px, py) < |src.data|
    ensures SourceColor(src, px, py).Success? && (src.format.Bgr24? || src.format.Bgr32?) ==>
      SourceColor(src, px, py).value.a == 255
  {
  }

  /** Index 0, kept for transparency, is written exactly for a fully
      transparent colour or an empty palette; any other colour gets a
      palette colour's index, one or more. */
  lemma ZeroIsTransparent(color: Bgra, palette: seq<Rgb>, nearest: (seq<Rgb>, Rgb) -> nat)
    ensures PaletteIndex(color, palette, nearest) == 0 <==> color.a == 0 || palette == []
  {
  }

  /** The palette index written for source pixel (px, py); a depth other than
      4 or 8 fails once the pixel has been read. */
  function PixelValue(src: Source, tgt: Target, palette: seq<Rgb>, px: nat, py: nat): (r: Result<nat, TileError>)
    ensures r.Success? ==> tgt.bpp == 4 || tgt.bpp == 8
  {
    match SourceColor(src, px, py)
    case Failure(e) => Failure(e)
    case Success(color) =>
      if tgt.bpp != 8 && tgt.bpp != 4 then Failure(UnsupportedBpp)
      else Success(PaletteIndex(color, palette, tgt.nearest))
  }

  /** The palette indices of the first k pixels of tile (tx, ty), row by row,
      or the first failure. */
  function TileValues(src: Source, tgt: Target, palette: seq<Rgb>, tx: nat, ty: nat, k: nat): (r: Result<seq<nat>, TileError>)
    requires k <= 64
    ensures r.Success? ==> |r.value| == k
    ensures r.Success? && k > 0 ==> tgt.bpp == 4 || tgt.bpp == 8
  {
    if k == 0 then Success([])
    else match TileValues(src, tgt, palette, tx, ty, k - 1)
      case Failure(e) => Failure(e)
      case Success(vs) =>
        match PixelValue(src, tgt, palette, tx * 8 + (k - 1) % 8, ty * 8 + (k - 1) / 8)
        case Failure(e) => Failure(e)
        case Success(v) => Success(vs + [v])
  }

  // ---------------------------------------------------------------------
  // Writing a tile
  // ---------------------------------------------------------------------

  /** SetBits of 4 bits: v's low nibble replaces the high or the low nibble
      of b. */
  function SetNibble(b: byte, v: nat, high: bool): byte {
    if high then b % 16 + v % 16 * 16 else b / 16 * 16 + v % 16
  }

  /** The tile set after storing palette index v as pixel k of the tile at
      offset: the index truncated to a byte at 8 bits per pixel, its nibble at
      4 (the low nibble for an even pixel). */
  function Store(tileSet: seq<byte>, offset: nat, k: nat, v: nat, bpp: nat): (r: seq<byte>)
    requires (bpp == 4 || bpp == 8) && k < 64 && offset + TileLength(bpp) <= |tileSet|
    ensures |r| == |tileSet|
  {
    PixelByteBounds(0, k, bpp);
    var at := offset + PixelByte(k, bpp);
    tileSet[at := if bpp == 8 then v % 256 else SetNibble(tileSet[at], v, k % 2 == 1)]
  }

  /** The tile set after storing the pixel values vs, in order, into the tile
      at offset. */
  function Written(tileSet: seq<byte>, offset: nat, vs: seq<nat>, bpp: nat): (r: seq<byte>)
    requires vs == [] || bpp == 4 || bpp == 8
    requires |vs| <= 64 && offset + TileLength(bpp) <= |tileSet|
    ensures |r| == |tileSet|
  {
    if vs == [] then tileSet
    else Store(Written(tileSet, offset, vs[..|vs| - 1], bpp), offset, |vs| - 1, vs[|vs| - 1], bpp)
  }

  // ---------------------------------------------------------------------
  // Matching a tile against the stored ones
  // ---------------------------------------------------------------------

  /** Stored tile i lies wholly inside the tile set. */
  predicate TileIn(tileSet: seq<byte>, bpp: nat, i: nat) {
    i * TileLength(bpp) + TileLength(bpp) <= |tileSet|
  }

  /** The pixel value stored as pixel j of tile i. */
  function StoredPixel(tileSet: seq<byte>, bpp: nat, i: nat, j: nat): nat
    requires (bpp == 4 || bpp == 8) && j < 64 && TileIn(tileSet, bpp, i)
  {
    PixelByteBounds(0, j, bpp);
    var b := tileSet[i * TileLength(bpp) + PixelByte(j, bpp)];
    if bpp == 4 then Nibble(b, j % 2 == 1) else b
  }

  /** getPixel: the value at (xOffset, yOffset) of tile i, read while the
      comparison loop stands at column x. As written the 4-bit nibble is
      chosen by the parity of x; corrected, by that of xOffset. */
  function GetPixel(tileSet: seq<byte>, bpp: nat, reading: Reading, i: nat, x: nat, xOffset: nat, yOffset: nat): (r: nat)
    requires (bpp == 4 || bpp == 8) && x < 8 && xOffset < 8 && yOffset < 8 && TileIn(tileSet, bpp, i)
    ensures r < Pow2(bpp)
  {
    PixelByteBounds(0, yOffset * 8 + xOffset, bpp);
    var b := tileSet[i * TileLength(bpp) + PixelByte(yOffset * 8 + xOffset, bpp)];
    if bpp != 4 then b
    else Nibble(b, (if reading == AsWritten then x else xOffset) % 2 == 1)
  }

  /** Whether pixel (x, y) of tile cur equals the pixel of tile i that the
      flips bring to (x, y). */
  predicate PixelMatch(tileSet: seq<byte>, bpp: nat, reading: Reading, cur: nat, i: nat, x: nat, y: nat, fx: bool, fy: bool)
    requires (bpp == 4 || bpp == 8) && x < 8 && y < 8 && TileIn(tileSet, bpp, cur) && TileIn(tileSet, bpp, i)
  {
    GetPixel(tileSet, bpp, reading, cur, x, x, y) == GetPixel(tileSet, bpp, reading, i, x, Flip(fx, x), Flip(fy, y))
  }

  /** Whether the first k pixels of tile cur match tile i under the flips. */
  predicate MatchesUpTo(tileSet: seq<byte>, bpp: nat, reading: Reading, cur: nat, i: nat, fx: bool, fy: bool, k: nat)
    requires (bpp == 4 || bpp == 8) && k <= 64 && TileIn(tileSet, bpp, cur) && TileIn(tileSet, bpp, i)
  {
    k == 0 ||
    (MatchesUpTo(tileSet, bpp, reading, cur, i, fx, fy, k - 1) &&
     PixelMatch(tileSet, bpp, reading, cur, i, (k - 1) % 8, (k - 1) / 8, fx, fy))
  }

  /** The four comparisons of tile cur with tile i: as is, mirrored in x, in
      y, and in both. */
  datatype Matches = Matches(normal: bool, flipX: bool, flipY: bool, flipXY: bool) {
    predicate Any() {
      normal || flipX || flipY || flipXY
    }
  }

  /** The four comparisons over the first k pixels. */
  function MatchesAt(tileSet: seq<byte>, bpp: nat, reading: Reading, cur: nat, i: nat, k: nat): Matches
    requires (bpp == 4 || bpp == 8) && k <= 64 && TileIn(tileSet, bpp, cur) && TileIn(tileSet, bpp, i)
  {
    Matches(MatchesUpTo(tileSet, bpp, reading, cur, i, false, false, k),
            MatchesUpTo(tileSet, bpp, reading, cur, i, true, false, k),
            MatchesUpTo(tileSet, bpp, reading, cur, i, false, true, k),
            MatchesUpTo(tileSet, bpp, reading, cur, i, true, true, k))
  }

  function MatchesOf(tileSet: seq<byte>, bpp: nat, reading: Reading, cur: nat, i: nat): Matches
    requires (bpp == 4 || bpp == 8) && TileIn(tileSet, bpp, cur) && TileIn(tileSet, bpp, i)
  {
    MatchesAt(tileSet, bpp, reading, cur, i, 64)
  }

  /** A tile below a stored tile lies inside the tile set too. */
  lemma TileBelow(tileSet: seq<byte>, bpp: nat, i: nat, cur: nat)
    requires i <= cur && TileIn(tileSet, bpp, cur)
    ensures TileIn(tileSet, bpp, i)
  {
    MulLe(i, cur, TileLength(bpp));
  }

  /** The first stored tile, from i on and below cur, that tile cur matches
      in any of the four ways. */
  function FirstMatch(tileSet: seq<byte>, bpp: nat, reading: Reading, cur: nat, i: nat): (r: Option<nat>)
    requires (bpp == 4 || bpp == 8) && i <= cur && TileIn(tileSet, bpp, cur)
    ensures r.Some? ==> i <= r.value < cur
    decreases cur - i
  {
    if i == cur then None
    else
      TileBelow(tileSet, bpp, i, cur);
      if MatchesOf(tileSet, bpp, reading, cur, i).Any() then Some(i)
      else FirstMatch(tileSet, bpp, reading, cur, i + 1)
  }

  /** The flip flags a matched entry gets. As written, a tile that matches
      mirrored in x and in y but not as is gets both flags, even when it
      does not match mirrored in both; corrected, it gets the flags of one
      comparison that matched. */
  function Flags(reading: Reading, m: Matches): (r: (bool, bool))
    ensures m.normal ==> r == (false, false)
    ensures reading == Corrected && !m.normal && (m.flipX || m.flipY || m.flipXY) ==>
      (r.0 || r.1) && (r.0 && !r.1 ==> m.flipX) && (!r.0 && r.1 ==> m.flipY) && (r.0 && r.1 ==> m.flipXY)
  {
    if m.normal then (false, false)
    else if reading == AsWritten then (m.flipX || m.flipXY, m.flipY || m.flipXY)
    else if m.flipX then (true, false)
    else if m.flipY then (false, true)
    else (true, true)
  }

  // ---------------------------------------------------------------------
  // Encoding tile by tile
  // ---------------------------------------------------------------------

  /** The encoder's state: the tile set buffer (sized for every tile), the
      tile map and the number of stored tiles. */
  datatype EncState = EncState(tileSet: seq<byte>, tileMap: seq<Option<GraphicsTile>>, count: nat)

  /** The sizes CreateTileData allocates, and the count after c map
      positions. */
  predicate Valid(src: Source, tgt: Target, s: EncState, c: nat) {
    |s.tileSet| == Tiles(src.width, src.height) * TileLength(tgt.bpp) &&
    |s.tileMap| == (if tgt.createMap then Tiles(src.width, src.height) else 0) &&
    s.count <= c
  }

  lemma SlotFits(count: nat, c: nat, n: nat, tileLength: nat)
    requires count <= c < n
    ensures count * tileLength + tileLength <= n * tileLength
  {
    MulLe(count + 1, n, tileLength);
  }

  function Initial(src: Source, tgt: Target): (s: EncState)
    ensures Valid(src, tgt, s, 0)
  {
    var tiles := Tiles(src.width, src.height);
    EncState(Zeros(tiles * TileLength(tgt.bpp)), seq(if tgt.createMap then tiles else 0, _ => None), 0)
  }

  /** Encoding map position c, the tile at (tx, ty): its map entry first
      names the next free slot, its pixels are written into that slot, and
      with a map the lowest earlier tile it matches replaces it, the slot then
      staying free. */
  function EncodeCell(src: Source, tgt: Target, palette: seq<Rgb>, s: EncState, c: nat, tx: nat, ty: nat): (r: Result<EncState, TileError>)
    requires Valid(src, tgt, s, c) && c < Tiles(src.width, src.height)
    ensures r.Success? ==> Valid(src, tgt, r.value, c + 1)
  {
    SlotFits(s.count, c, Tiles(src.width, src.height), TileLength(tgt.bpp));
    var entered := if tgt.createMap then s.tileMap[c := Some(GraphicsTile(s.count, tgt.basePalette, false, false))] else s.tileMap;
    match TileValues(src, tgt, palette, tx, ty, 64)
    case Failure(e) => Failure(e)
    case Success(vs) =>
      var tileSet := Written(s.tileSet, s.count * TileLength(tgt.bpp), vs, tgt.bpp);
      if !tgt.createMap then Success(EncState(tileSet, entered, s.count + 1))
      else match FirstMatch(tileSet, tgt.bpp, tgt.reading, s.count, 0)
        case None => Success(EncState(tileSet, entered, s.count + 1))
        case Some(i) =>
          TileBelow(tileSet, tgt.bpp, i, s.count);
          var flips := Flags(tgt.reading, MatchesOf(tileSet, tgt.bpp, tgt.reading, s.count, i));
          Success(EncState(tileSet, s.tileMap[c := Some(GraphicsTile(i, tgt.basePalette, flips.0, flips.1))], s.count))
  }

  /** The state after the first c map positions, row by row. */
  function Encoded(src: Source, tgt: Target, c: nat): (r: Result<EncState, TileError>)
    requires c <= Tiles(src.width, src.height)
    ensures r.Success? ==> Valid(src, tgt, r.value, c)
    decreases c, 0
  {
    if c == 0 then Success(Initial(src, tgt)) else EncodedAt(src, tgt, c - 1)
  }

  /** Map position c, the tile at (c % tw, c / tw), encoded after the
      positions before it. */
  function EncodedAt(src: Source, tgt: Target, c: nat): (r: Result<EncState, TileError>)
    requires c < Tiles(src.width, src.height)
    ensures r.Success? ==> Valid(src, tgt, r.value, c + 1)
    decreases c, 1
  {
    match Encoded(src, tgt, c)
    case Failure(e) => Failure(e)
    case Success(s) =>
      var tw := TilesWide(src.width);
      CellOfIndex(c, tw, TilesHigh(src.height));
      EncodeCell(src, tgt, MatchPalette(tgt), s, c, c % tw, c / tw)
  }

  /** The result of CreateTileData: the stored tiles, cut to their count, and
      the tile map. */
  function CreatedTileData(src: Source, tgt: Target): (r: Result<TileData, TileError>)
    ensures r.Success? ==>
      |r.value.tileSet| <= Tiles(src.width, src.height) * TileLength(tgt.bpp) &&
      |r.value.tileMap| == (if tgt.createMap then Tiles(src.width, src.height) else 0)
  {
    match Encoded(src, tgt, Tiles(src.width, src.height))
    case Failure(e) => Failure(e)
    case Success(s) =>
      MulLe(s.count, Tiles(src.width, src.height), TileLength(tgt.bpp));
      Success(TileData(s.tileSet[..s.count * TileLength(tgt.bpp)], s.tileMap))
  }

  // ---------------------------------------------------------------------
  // CreateTileData
  // ---------------------------------------------------------------------

  /** CreateTileData over arrays, tile by tile; the tile set is allocated for
      every tile and cut to the stored ones at the end. */
  method CreateTileData(src: Source, tgt: Target) returns (r: Result<TileData, TileError>)
    ensures r == CreatedTileData(src, tgt)
  {
    var tilesWidth := src.width / 8;
    var tilesHeight := src.height / 8;
    var tileLength := TileLength(tgt.bpp);
    ghost var tiles := Tiles(src.width, src.height);
    assert tilesWidth * tilesHeight == tiles;
    var tileSet := new byte[tilesWidth * tilesHeight * tileLength](_ => 0);
    var tileMap := new Option<GraphicsTile>[if tgt.createMap then tilesWidth * tilesHeight else 0](_ => None);
    assert tileSet.Length == tiles * tileLength;
    var tileSetIndex: nat := 0;
    var palette := MatchPalette(tgt);
    assert EncState(tileSet[..], tileMap[..], tileSetIndex) == Initial(src, tgt);
    var tileY := 0;
    while tileY < tilesHeight
      invariant 0 <= tileY <= tilesHeight
      invariant Reached(src, tgt, tileY * tilesWidth, tileSet[..], tileMap[..], tileSetIndex)
    {
      var error, next := EncodeRow(tileSet, tileMap, src, tgt, palette, tileSetIndex, tileY);
      if error.Some? {
        return Failure(error.value);
      }
      tileSetIndex := next;
      tileY := tileY + 1;
    }
    assert tileY * tilesWidth == tiles;
    Finished(src, tgt, tileSet[..], tileMap[..], tileSetIndex);
    var tileSetLength := tileSetIndex * tileLength;
    return Success(TileData(tileSet[..tileSetLength], tileMap[..]));
  }

  /** One pass of the row loop: encodes the tiles of row tileY from left to
      right. */
  method EncodeRow(tileSet: array<byte>, tileMap: array<Option<GraphicsTile>>, src: Source, tgt: Target, palette: seq<Rgb>,
                   tileSetIndex: nat, tileY: nat) returns (error: Option<TileError>, next: nat)
    requires palette == MatchPalette(tgt) && tileY < TilesHigh(src.height)
    requires Reached(src, tgt, tileY * TilesWide(src.width), tileSet[..], tileMap[..], tileSetIndex)
    modifies tileSet, tileMap
    ensures error.None? ==> Reached(src, tgt, (tileY + 1) * TilesWide(src.width), tileSet[..], tileMap[..], next)
    ensures error.Some? ==> CreatedTileData(src, tgt) == Failure(error.value)
  {
    var tilesWidth := src.width / 8;
    RowInGrid(tilesWidth, TilesHigh(src.height), tileY, tilesWidth);
    next := tileSetIndex;
    var tileX := 0;
    while tileX < tilesWidth
      invariant 0 <= tileX <= tilesWidth
      invariant Reached(src, tgt, tileY * tilesWidth + tileX, tileSet[..], tileMap[..], next)
    {
      var tileMapIndex := tileY * tilesWidth + tileX;
      RowInGrid(tilesWidth, TilesHigh(src.height), tileY, tileX + 1);
      error, next := EncodeTile(tileSet, tileMap, src, tgt, palette, next, tileX, tileY, tileMapIndex);
      if error.Some? {
        return;
      }
      tileX := tileX + 1;
    }
    error := None;
  }

  /** After the last map position the stored tiles fit the buffer, and
      cutting it to them gives CreatedTileData. */
  lemma Finished(src: Source, tgt: Target, tileSet: seq<byte>, tileMap: seq<Option<GraphicsTile>>, count: nat)
    requires Reached(src, tgt, Tiles(src.width, src.height), tileSet, tileMap, count)
    ensures count * TileLength(tgt.bpp) <= |tileSet|
    ensures CreatedTileData(src, tgt) == Success(TileData(tileSet[..count * TileLength(tgt.bpp)], tileMap))
  {
    MulLe(count, Tiles(src.width, src.height), TileLength(tgt.bpp));
  }

  /** The encoder has handled the first c map positions, leaving this
      state. */
  ghost predicate Reached(src: Source, tgt: Target, c: nat, tileSet: seq<byte>, tileMap: seq<Option<GraphicsTile>>, count: nat) {
    c <= Tiles(src.width, src.height) && Encoded(src, tgt, c) == Success(EncState(tileSet, tileMap, count))
  }

  /** Encoding map position tileY * tw + tileX is the next step of Encoded. */
  lemma EncodedStep(src: Source, tgt: Target, tileX: nat, tileY: nat, s: EncState)
    requires tileX < TilesWide(src.width) && tileY < TilesHigh(src.height)
    requires tileY * TilesWide(src.width) + tileX < Tiles(src.width, src.height)
    requires Encoded(src, tgt, tileY * TilesWide(src.width) + tileX) == Success(s)
    ensures Valid(src, tgt, s, tileY * TilesWide(src.width) + tileX)
    ensures Encoded(src, tgt, tileY * TilesWide(src.width) + tileX + 1) ==
            EncodeCell(src, tgt, MatchPalette(tgt), s, tileY * TilesWide(src.width) + tileX, tileX, tileY)
  {
    DivModOf(tileY, tileX, TilesWide(src.width));
  }

  /** A failure at some map position is the failure of the whole encoding. */
  lemma {:induction false} EncodedFails(src: Source, tgt: Target, c: nat)
    requires c <= Tiles(src.width, src.height)
    requires Encoded(src, tgt, c).Failure?
    ensures CreatedTileData(src, tgt) == Failure(Encoded(src, tgt, c).error)
    decreases Tiles(src.width, src.height) - c
  {
    if c < Tiles(src.width, src.height) {
      EncodedFails(src, tgt, c + 1);
    }
  }

  /** One pass of the tile loops: encodes map position tileMapIndex, the tile
      at (tileX, tileY), into the arrays, and gives the new stored-tile
      count. */
  method EncodeTile(tileSet: array<byte>, tileMap: array<Option<GraphicsTile>>, src: Source, tgt: Target, palette: seq<Rgb>,
                    tileSetIndex: nat, tileX: nat, tileY: nat, tileMapIndex: nat) returns (error: Option<TileError>, next: nat)
    requires palette == MatchPalette(tgt)
    requires tileX < TilesWide(src.width) && tileY < TilesHigh(src.height)
    requires tileMapIndex == tileY * TilesWide(src.width) + tileX && tileMapIndex < Tiles(src.width, src.height)
    requires Reached(src, tgt, tileMapIndex, tileSet[..], tileMap[..], tileSetIndex)
    modifies tileSet, tileMap
    ensures error.None? ==> Reached(src, tgt, tileMapIndex + 1, tileSet[..], tileMap[..], next)
    ensures error.Some? ==> CreatedTileData(src, tgt) == Failure(error.value)
  {
    ghost var s := EncState(tileSet[..], tileMap[..], tileSetIndex);
    EncodedStep(src, tgt, tileX, tileY, s);
    error, next := EncodeCellInPlace(tileSet, tileMap, src, tgt, palette, s, tileSetIndex, tileX, tileY, tileMapIndex);
    if error.Some? {
      EncodedFails(src, tgt, tileMapIndex + 1);
    }
  }

  /** EncodeTile's body against EncodeCell: the map entry, the pixel loops
      and, with a map, the search for an earlier matching tile. */
  method EncodeCellInPlace(tileSet: array<byte>, tileMap: array<Option<GraphicsTile>>, src: Source, tgt: Target, palette: seq<Rgb>,
                           ghost s: EncState, tileSetIndex: nat, tileX: nat, tileY: nat, tileMapIndex: nat)
    returns (error: Option<TileError>, next: nat)
    requires s == EncState(tileSet[..], tileMap[..], tileSetIndex)
    requires Valid(src, tgt, s, tileMapIndex) && tileMapIndex < Tiles(src.width, src.height)
    modifies tileSet, tileMap
    ensures match EncodeCell(src, tgt, palette, s, tileMapIndex, tileX, tileY)
      case Failure(e) => error == Some(e)
      case Success(t) => error.None? && EncState(tileSet[..], tileMap[..], next) == t
  {
    var tileLength := TileLength(tgt.bpp);
    SlotFits(tileSetIndex, tileMapIndex, Tiles(src.width, src.height), tileLength);
    var tileSetOffset := tileSetIndex * tileLength;
    if tgt.createMap {
      tileMap[tileMapIndex] := Some(GraphicsTile(tileSetIndex, tgt.basePalette, false, false));
    }
    ghost var entered := tileMap[..];
    error := WriteTile(tileSet, src, tgt, palette, tileX, tileY, tileSetOffset);
    next := tileSetIndex + 1;
    if error.Some? {
      return;
    }
    assert tileMap[..] == entered;
    if tgt.createMap {
      var found, m := FindMatch(tileSet, tgt.bpp, tgt.reading, tileSetIndex);
      if found.Some? {
        var flips := Flags(tgt.reading, m);
        tileMap[tileMapIndex] := Some(GraphicsTile(found.value, tgt.basePalette, flips.0, flips.1));
        assert tileMap[..] == s.tileMap[tileMapIndex := Some(GraphicsTile(found.value, tgt.basePalette, flips.0, flips.1))];
        next := tileSetIndex;
      }
    }
  }

  /** The y and x loops writing one tile's pixels into the slot at
      tileSetOffset. */
  method WriteTile(tileSet: array<byte>, src: Source, tgt: Target, palette: seq<Rgb>, tx: nat, ty: nat, tileSetOffset: nat)
    returns (error: Option<TileError>)
    requires tileSetOffset + TileLength(tgt.bpp) <= tileSet.Length
    modifies tileSet
    ensures match TileValues(src, tgt, palette, tx, ty, 64)
      case Failure(e) => error == Some(e)
      case Success(vs) => error.None? && tileSet[..] == Written(old(tileSet[..]), tileSetOffset, vs, tgt.bpp)
  {
    ghost var start := tileSet[..];
    ghost var vs: seq<nat> := [];
    var y := 0;
    while y < 8
      invariant 0 <= y <= 8 && |vs| == y * 8 && ReadAs(src, tgt, palette, tx, ty, vs)
      invariant tileSet[..] == Written(start, tileSetOffset, vs, tgt.bpp)
    {
      error, vs := WriteRow(tileSet, src, tgt, palette, tx, ty, tileSetOffset, y, start, vs);
      if error.Some? {
        FailsValues(src, tgt, palette, tx, ty, vs, error.value);
        return;
      }
      y := y + 1;
    }
    ReadAsValues(src, tgt, palette, tx, ty, vs);
    return None;
  }

  /** One pass of WriteTile's row loop: writes the pixels of row y of the
      tile, or reports the first failure, after the pixels read before it. */
  method WriteRow(tileSet: array<byte>, src: Source, tgt: Target, palette: seq<Rgb>, tx: nat, ty: nat, tileSetOffset: nat,
                  y: nat, ghost start: seq<byte>, ghost vs: seq<nat>) returns (error: Option<TileError>, ghost next: seq<nat>)
    requires y < 8 && tileSetOffset + TileLength(tgt.bpp) <= tileSet.Length == |start|
    requires |vs| == y * 8 && ReadAs(src, tgt, palette, tx, ty, vs)
    requires tileSet[..] == Written(start, tileSetOffset, vs, tgt.bpp)
    modifies tileSet
    ensures error.Some? ==> FailsAfter(src, tgt, palette, tx, ty, next, error.value)
    ensures error.None? ==> |next| == y * 8 + 8 && ReadAs(src, tgt, palette, tx, ty, next)
    ensures error.None? ==> tileSet[..] == Written(start, tileSetOffset, next, tgt.bpp)
  {
    next := vs;
    var x := 0;
    while x < 8
      invariant 0 <= x <= 8 && |next| == y * 8 + x && ReadAs(src, tgt, palette, tx, ty, next)
      invariant tileSet[..] == Written(start, tileSetOffset, next, tgt.bpp)
    {
      error, next := WriteNext(tileSet, src, tgt, palette, tx, ty, tileSetOffset, y, x, start, next);
      if error.Some? {
        return;
      }
      x := x + 1;
    }
    error := None;
  }

  /** One pixel of the row: pixel (x, y) either fails after the pixels
      before it, or is read and stored after them. */
  method WriteNext(tileSet: array<byte>, src: Source, tgt: Target, palette: seq<Rgb>, tx: nat, ty: nat, tileSetOffset: nat,
                   y: nat, x: nat, ghost start: seq<byte>, ghost vs: seq<nat>) returns (error: Option<TileError>, ghost next: seq<nat>)
    requires y < 8 && x < 8 && tileSetOffset + TileLength(tgt.bpp) <= tileSet.Length == |start|
    requires |vs| == y * 8 + x && ReadAs(src, tgt, palette, tx, ty, vs)
    requires tileSet[..] == Written(start, tileSetOffset, vs, tgt.bpp)
    modifies tileSet
    ensures error.Some? ==> next == vs && FailsAfter(src, tgt, palette, tx, ty, vs, error.value)
    ensures error.None? ==> |next| == |vs| + 1 && ReadAs(src, tgt, palette, tx, ty, next)
    ensures error.None? ==> tileSet[..] == Written(start, tileSetOffset, next, tgt.bpp)
  {
    ghost var r := PixelValue(src, tgt, palette, tx * 8 + x, ty * 8 + y);
    DivModOf(y, x, 8);
    ReadNext(src, tgt, palette, tx, ty, vs, x, y);
    error := WritePixel(tileSet, src, tgt, palette, tx, ty, tileSetOffset, y, x);
    next := vs;
    if error.Some? {
      assert r.Failure? && error.value == r.error;
      return;
    }
    assert r.Success? && tileSet[..] == Store(Written(start, tileSetOffset, vs, tgt.bpp), tileSetOffset, y * 8 + x, r.value, tgt.bpp);
    WrittenSnoc(start, tileSetOffset, vs, r.value, tgt.bpp);
    next := vs + [r.value];
  }

  /** Reading pixel (x, y) after the pixels before it either fails there or
      reads one more pixel. */
  lemma ReadNext(src: Source, tgt: Target, palette: seq<Rgb>, tx: nat, ty: nat, vs: seq<nat>, x: nat, y: nat)
    requires y < 8 && x < 8 && |vs| == y * 8 + x && ReadAs(src, tgt, palette, tx, ty, vs)
    ensures var r := PixelValue(src, tgt, palette, tx * 8 + x, ty * 8 + y);
      (r.Failure? ==> FailsAfter(src, tgt, palette, tx, ty, vs, r.error)) &&
      (r.Success? ==> ReadAs(src, tgt, palette, tx, ty, vs + [r.value]))
  {
    DivModOf(y, x, 8);
    var r := PixelValue(src, tgt, palette, tx * 8 + x, ty * 8 + y);
    if r.Success? {
      ReadAsSnoc(src, tgt, palette, tx, ty, vs, r.value);
    }
  }

  /** The first |vs| pixels of tile (tx, ty), row by row, have the palette
      indices vs. */
  ghost predicate ReadAs(src: Source, tgt: Target, palette: seq<Rgb>, tx: nat, ty: nat, vs: seq<nat>) {
    |vs| <= 64 && (vs != [] ==> tgt.bpp == 4 || tgt.bpp == 8) &&
    forall j :: 0 <= j < |vs| ==> PixelValue(src, tgt, palette, tx * 8 + j % 8, ty * 8 + j / 8) == Success(vs[j])
  }

  /** The pixels before pixel |vs| read as vs, and pixel |vs| fails with e. */
  ghost predicate FailsAfter(src: Source, tgt: Target, palette: seq<Rgb>, tx: nat, ty: nat, vs: seq<nat>, e: TileError) {
    |vs| < 64 && ReadAs(src, tgt, palette, tx, ty, vs) &&
    PixelValue(src, tgt, palette, tx * 8 + |vs| % 8, ty * 8 + |vs| / 8) == Failure(e)
  }

  /** Pixels read one by one are what TileValues reads. */
  lemma {:induction false} ReadAsValues(src: Source, tgt: Target, palette: seq<Rgb>, tx: nat, ty: nat, vs: seq<nat>)
    requires ReadAs(src, tgt, palette, tx, ty, vs)
    ensures TileValues(src, tgt, palette, tx, ty, |vs|) == Success(vs)
    decreases |vs|
  {
    if vs != [] {
      var n := |vs| - 1;
      ReadAsPrefix(src, tgt, palette, tx, ty, vs, n);
      ReadAsValues(src, tgt, palette, tx, ty, vs[..n]);
      ValuesSnoc(src, tgt, palette, tx, ty, vs[..n], vs[n]);
      assert vs == vs[..n] + [vs[n]];
    }
  }

  /** One more pixel read onto TileValues. */
  lemma ValuesSnoc(src: Source, tgt: Target, palette: seq<Rgb>, tx: nat, ty: nat, vs: seq<nat>, v: nat)
    requires |vs| < 64 && TileValues(src, tgt, palette, tx, ty, |vs|) == Success(vs)
    requires PixelValue(src, tgt, palette, tx * 8 + |vs| % 8, ty * 8 + |vs| / 8) == Success(v)
    ensures TileValues(src, tgt, palette, tx, ty, |vs| + 1) == Success(vs + [v])
  {
  }

  /** Fewer pixels read. */
  lemma ReadAsPrefix(src: Source, tgt: Target, palette: seq<Rgb>, tx: nat, ty: nat, vs: seq<nat>, n: nat)
    requires n <= |vs| && ReadAs(src, tgt, palette, tx, ty, vs)
    ensures ReadAs(src, tgt, palette, tx, ty, vs[..n])
  {
    forall j | 0 <= j < n
      ensures PixelValue(src, tgt, palette, tx * 8 + j % 8, ty * 8 + j / 8) == Success(vs[..n][j])
    {
      assert vs[..n][j] == vs[j];
    }
  }

  /** A pixel failing after the pixels read before it is the failure of the
      whole tile. */
  lemma FailsValues(src: Source, tgt: Target, palette: seq<Rgb>, tx: nat, ty: nat, vs: seq<nat>, e: TileError)
    requires FailsAfter(src, tgt, palette, tx, ty, vs, e)
    ensures TileValues(src, tgt, palette, tx, ty, 64) == Failure(e)
  {
    ReadAsValues(src, tgt, palette, tx, ty, vs);
    TileValuesFails(src, tgt, palette, tx, ty, |vs| + 1, 64);
  }

  /** One more pixel read. */
  lemma ReadAsSnoc(src: Source, tgt: Target, palette: seq<Rgb>, tx: nat, ty: nat, vs: seq<nat>, v: nat)
    requires |vs| < 64 && ReadAs(src, tgt, palette, tx, ty, vs)
    requires PixelValue(src, tgt, palette, tx * 8 + |vs| % 8, ty * 8 + |vs| / 8) == Success(v)
    ensures ReadAs(src, tgt, palette, tx, ty, vs + [v])
  {
    forall j | 0 <= j < |vs| + 1
      ensures PixelValue(src, tgt, palette, tx * 8 + j % 8, ty * 8 + j / 8) == Success((vs + [v])[j])
    {
      if j < |vs| {
        assert (vs + [v])[j] == vs[j];
      }
    }
  }

  lemma {:induction false} TileValuesFails(src: Source, tgt: Target, palette: seq<Rgb>, tx: nat, ty: nat, k: nat, n: nat)
    requires k <= n <= 64 && TileValues(src, tgt, palette, tx, ty, k).Failure?
    ensures TileValues(src, tgt, palette, tx, ty, n) == TileValues(src, tgt, palette, tx, ty, k)
    decreases n - k
  {
    if k < n {
      TileValuesFails(src, tgt, palette, tx, ty, k + 1, n);
    }
  }

  lemma WrittenSnoc(tileSet: seq<byte>, offset: nat, vs: seq<nat>, v: nat, bpp: nat)
    requires (bpp == 4 || bpp == 8) && |vs| < 64 && offset + TileLength(bpp) <= |tileSet|
    ensures Written(tileSet, offset, vs + [v], bpp) == Store(Written(tileSet, offset, vs, bpp), offset, |vs|, v, bpp)
  {
    assert (vs + [v])[..|vs|] == vs;
  }

  /** One pass of WriteTile's inner loop: reads source pixel (x, y) of the
      tile, finds its palette index and stores it. */
  method WritePixel(tileSet: array<byte>, src: Source, tgt: Target, palette: seq<Rgb>, tx: nat, ty: nat,
                    tileSetOffset: nat, y: nat, x: nat) returns (error: Option<TileError>)
    requires y < 8 && x < 8 && tileSetOffset + TileLength(tgt.bpp) <= tileSet.Length
    modifies tileSet
    ensures match PixelValue(src, tgt, palette, tx * 8 + x, ty * 8 + y)
      case Failure(e) => error == Some(e)
      case Success(v) => error.None? && tileSet[..] == Store(old(tileSet[..]), tileSetOffset, y * 8 + x, v, tgt.bpp)
  {
    var color := SourceColor(src, tx * 8 + x, ty * 8 + y);
    if color.Failure? {
      return Some(color.error);
    }
    var paletteIndex := PaletteIndex(color.value, palette, tgt.nearest);
    PixelByteBounds(0, y * 8 + x, tgt.bpp);
    var tileSetPixelOffset := tileSetOffset + PixelByte(y * 8 + x, tgt.bpp);
    if tgt.bpp == 8 {
      tileSet[tileSetPixelOffset] := paletteIndex % 256;
    } else if tgt.bpp == 4 {
      assert (y * 8 + x) % 2 == x % 2 by {
        DivModOf(y * 4 + x / 2, x % 2, 2);
      }
      tileSet[tileSetPixelOffset] := SetNibble(tileSet[tileSetPixelOffset], paletteIndex, x % 2 == 1);
    } else {
      return Some(UnsupportedBpp);
    }
    return None;
  }

  /** The loop over the stored tiles below cur, stopping at the first that
      tile cur matches. */
  method FindMatch(tileSet: array<byte>, bpp: nat, reading: Reading, cur: nat) returns (found: Option<nat>, m: Matches)
    requires (bpp == 4 || bpp == 8) && TileIn(tileSet[..], bpp, cur)
    ensures found == FirstMatch(tileSet[..], bpp, reading, cur, 0)
    ensures found.Some? ==> found.value < cur && m == MatchesOf(tileSet[..], bpp, reading, cur, found.value)
  {
    var i := 0;
    while i < cur
      invariant i <= cur
      invariant FirstMatch(tileSet[..], bpp, reading, cur, 0) == FirstMatch(tileSet[..], bpp, reading, cur, i)
    {
      TileBelow(tileSet[..], bpp, i, cur);
      m := CompareTiles(tileSet, bpp, reading, cur, i);
      if m.Any() {
        return Some(i), m;
      }
      i := i + 1;
    }
    return None, Matches(false, false, false, false);
  }

  /** The y and x loops comparing tile cur with tile i in the four ways, each
      comparison dropping out at its first mismatch. */
  method CompareTiles(tileSet: array<byte>, bpp: nat, reading: Reading, cur: nat, i: nat) returns (m: Matches)
    requires (bpp == 4 || bpp == 8) && TileIn(tileSet[..], bpp, cur) && TileIn(tileSet[..], bpp, i)
    ensures m == MatchesOf(tileSet[..], bpp, reading, cur, i)
  {
    var ts := tileSet[..];
    var matchesNormal, matchesFlipX, matchesFlipY, matchesFlipXY := true, true, true, true;
    var y := 0;
    while y < 8
      invariant 0 <= y <= 8
      invariant Matches(matchesNormal, matchesFlipX, matchesFlipY, matchesFlipXY) == MatchesAt(ts, bpp, reading, cur, i, y * 8)
    {
      var x := 0;
      while x < 8
        invariant 0 <= x <= 8
        invariant Matches(matchesNormal, matchesFlipX, matchesFlipY, matchesFlipXY) == MatchesAt(ts, bpp, reading, cur, i, y * 8 + x)
      {
        matchesNormal, matchesFlipX, matchesFlipY, matchesFlipXY :=
          ComparePixel(ts, bpp, reading, cur, i, y, x, matchesNormal, matchesFlipX, matchesFlipY, matchesFlipXY);
        x := x + 1;
      }
      y := y + 1;
    }
    return Matches(matchesNormal, matchesFlipX, matchesFlipY, matchesFlipXY);
  }

  /** One pass of CompareTiles' inner loop: pixel (x, y) of tile cur against
      the four pixels of tile i it is compared with. */
  method ComparePixel(ts: seq<byte>, bpp: nat, reading: Reading, cur: nat, i: nat, y: nat, x: nat,
                      matchesNormal: bool, matchesFlipX: bool, matchesFlipY: bool, matchesFlipXY: bool)
    returns (normal: bool, flipX: bool, flipY: bool, flipXY: bool)
    requires (bpp == 4 || bpp == 8) && y < 8 && x < 8 && TileIn(ts, bpp, cur) && TileIn(ts, bpp, i)
    requires Matches(matchesNormal, matchesFlipX, matchesFlipY, matchesFlipXY) == MatchesAt(ts, bpp, reading, cur, i, y * 8 + x)
    ensures Matches(normal, flipX, flipY, flipXY) == MatchesAt(ts, bpp, reading, cur, i, y * 8 + x + 1)
  {
    var p := GetPixel(ts, bpp, reading, cur, x, x, y);
    normal := CompareWith(ts, bpp, reading, cur, i, y, x, false, false, p, matchesNormal);
    flipX := CompareWith(ts, bpp, reading, cur, i, y, x, true, false, p, matchesFlipX);
    flipY := CompareWith(ts, bpp, reading, cur, i, y, x, false, true, p, matchesFlipY);
    flipXY := CompareWith(ts, bpp, reading, cur, i, y, x, true, true, p, matchesFlipXY);
  }

  /** One comparison at pixel (x, y): it stays matched only while it has
      matched and pixel p of tile cur equals the pixel of tile i at the
      mirrored column 8 - x - 1 and row 8 - y - 1 where it mirrors. */
  method CompareWith(ts: seq<byte>, bpp: nat, reading: Reading, cur: nat, i: nat, y: nat, x: nat, fx: bool, fy: bool,
                     p: nat, matched: bool) returns (r: bool)
    requires (bpp == 4 || bpp == 8) && y < 8 && x < 8 && TileIn(ts, bpp, cur) && TileIn(ts, bpp, i)
    requires p == GetPixel(ts, bpp, reading, cur, x, x, y)
    requires matched == MatchesUpTo(ts, bpp, reading, cur, i, fx, fy, y * 8 + x)
    ensures r == MatchesUpTo(ts, bpp, reading, cur, i, fx, fy, y * 8 + x + 1)
  {
    MatchesStep(ts, bpp, reading, cur, i, y, x, fx, fy);
    r := matched;
    if r {
      r := p == GetPixel(ts, bpp, reading, i, x, if fx then 8 - x - 1 else x, if fy then 8 - y - 1 else y);
    }
  }

  /** Pixel (x, y) is pixel y * 8 + x of the comparison. */
  lemma MatchesStep(tileSet: seq<byte>, bpp: nat, reading: Reading, cur: nat, i: nat, y: nat, x: nat, fx: bool, fy: bool)
    requires (bpp == 4 || bpp == 8) && y < 8 && x < 8 && TileIn(tileSet, bpp, cur) && TileIn(tileSet, bpp, i)
    ensures MatchesUpTo(tileSet, bpp, reading, cur, i, fx, fy, y * 8 + x + 1) ==
      (MatchesUpTo(tileSet, bpp, reading, cur, i, fx, fy, y * 8 + x) && PixelMatch(tileSet, bpp, reading, cur, i, x, y, fx, fy))
  {
    DivModOf(y, x, 8);
  }
}
