/** Two inputs on which the tile matching of CreateTileData, as written,
    does not do what it evidently intends. */
module TileFindings {
  import opened Binary
  import opened TileGraphics
  import opened TileEncoder
  import opened TileRoundTrip

  // ---------------------------------------------------------------------
  // The flip flags of a tile matched mirrored in x and in y
  // ---------------------------------------------------------------------

  /** Two 8 bpp tiles: the first has its top-left and bottom-right pixels
      set, the second its top-right and bottom-left ones. The second is the
      first mirrored in x, and also mirrored in y, but not the first itself
      nor the first mirrored in both. */
  function Corners(): (r: seq<byte>)
    ensures |r| == 128
  {
    seq(128, p requires 0 <= p < 128 => if p == 0 || p == 63 || p == 71 || p == 120 then 1 else 0)
  }

  /** Pixel (x, y) of tile i of Corners. */
  function CornerPixel(i: nat, x: nat, y: nat): nat {
    if i == 0 && ((x == 0 && y == 0) || (x == 7 && y == 7)) then 1
    else if i == 1 && ((x == 7 && y == 0) || (x == 0 && y == 7)) then 1
    else 0
  }

  lemma CornersPixel(i: nat, x: nat, y: nat)
    requires i < 2 && x < 8 && y < 8
    ensures TileIn(Corners(), 8, i)
    ensures StoredPixel(Corners(), 8, i, y * 8 + x) == CornerPixel(i, x, y)
  {
    PixelByteBounds(0, y * 8 + x, 8);
  }

  /** Pixel (x, y) of the second tile matches the first under the flips
      exactly when the pixels the flips relate are equal. */
  lemma CornersMatch(reading: Reading, fx: bool, fy: bool, x: nat, y: nat)
    requires x < 8 && y < 8
    ensures TileIn(Corners(), 8, 0) && TileIn(Corners(), 8, 1)
    ensures PixelMatch(Corners(), 8, reading, 1, 0, x, y, fx, fy) <==>
            CornerPixel(1, x, y) == CornerPixel(0, Flip(fx, x), Flip(fy, y))
  {
    CornersPixel(1, x, y);
    CornersPixel(0, Flip(fx, x), Flip(fy, y));
    CorrectedGetPixel(Corners(), 8, 1, x, x, y);
    CorrectedGetPixel(Corners(), 8, 0, x, Flip(fx, x), Flip(fy, y));
  }

  /** Mirrored in x, or in y, every pixel matches. */
  lemma CornersMirrored(reading: Reading, fx: bool)
    ensures TileIn(Corners(), 8, 0) && TileIn(Corners(), 8, 1)
    ensures MatchesUpTo(Corners(), 8, reading, 1, 0, fx, !fx, 64)
  {
    var fy := !fx;
    CornersPixel(0, 0, 0);
    CornersPixel(1, 0, 0);
    forall x: nat, y: nat | x < 8 && y < 8 && y * 8 + x < 64
      ensures PixelMatch(Corners(), 8, reading, 1, 0, x, y, fx, fy)
    {
      CornersMatch(reading, fx, fy, x, y);
    }
    MatchesUpToAll(Corners(), 8, reading, 1, 0, fx, fy, 64);
  }

  /** As is, or mirrored in both, the top-left pixel already differs. */
  lemma CornersUnmirrored(reading: Reading, f: bool)
    ensures TileIn(Corners(), 8, 0) && TileIn(Corners(), 8, 1)
    ensures !MatchesUpTo(Corners(), 8, reading, 1, 0, f, f, 64)
  {
    CornersMatch(reading, f, f, 0, 0);
    MatchesUpToAll(Corners(), 8, reading, 1, 0, f, f, 64);
  }

  /** The second tile matches the first mirrored in x and mirrored in y, but
      not as is and not mirrored in both, however getPixel reads. */
  lemma CornersMatches(reading: Reading)
    ensures TileIn(Corners(), 8, 0) && TileIn(Corners(), 8, 1)
    ensures MatchesOf(Corners(), 8, reading, 1, 0) == Matches(false, true, true, false)
  {
    CornersMirrored(reading, true);
    CornersMirrored(reading, false);
    CornersUnmirrored(reading, true);
    CornersUnmirrored(reading, false);
  }

  /** As written, a tile matched mirrored in x and mirrored in y, but not
      as is nor mirrored in both, gets both flip flags: the flags name a
      comparison that failed. */
  lemma AsWrittenFlagsBoth(m: Matches)
    requires !m.normal && m.flipX && m.flipY && !m.flipXY
    ensures m.Any() && Flags(AsWritten, m) == (true, true) && !Compared(m, true, true)
  {
  }

  /** As written, the second tile of Corners gets both flip flags, which
      name the comparison that failed. */
  lemma AsWrittenFlagsCorners()
    ensures TileIn(Corners(), 8, 0) && TileIn(Corners(), 8, 1)
    ensures var m := MatchesOf(Corners(), 8, AsWritten, 1, 0);
      m.Any() && Flags(AsWritten, m) == (true, true) && !Compared(m, true, true)
  {
    CornersMatches(AsWritten);
    AsWrittenFlagsBoth(MatchesOf(Corners(), 8, AsWritten, 1, 0));
  }

  /** Drawn mirrored in both, the first tile of Corners shows 0 at the
      top-right pixel, where the second tile holds 1. */
  lemma CornersMisdrawn()
    ensures TileIn(Corners(), 8, 0) && TileIn(Corners(), 8, 1)
    ensures StoredPixel(Corners(), 8, 0, SourcePixel(GraphicsTile(0, 0, true, true), 7, 0)) == 0
    ensures StoredPixel(Corners(), 8, 1, 7) == 1
  {
    SourcePixelOf(GraphicsTile(0, 0, true, true), 7);
    CornersPixel(0, 0, 7);
    CornersPixel(1, 7, 0);
  }

  /** Corrected, the second tile gets the x flag of the comparison that
      matched. */
  lemma CorrectedFlagsDraw()
    ensures TileIn(Corners(), 8, 0) && TileIn(Corners(), 8, 1)
    ensures var m := MatchesOf(Corners(), 8, Corrected, 1, 0);
      Flags(Corrected, m) == (true, false) && Compared(m, true, false)
  {
    CornersMatches(Corrected);
  }

  // ---------------------------------------------------------------------
  // The nibble getPixel reads at 4 bits per pixel
  // ---------------------------------------------------------------------

  /** One 4 bpp tile whose pixel 6 is 1 and pixel 7 is 2; every other pixel
      is 0. */
  function NibblePair(): (r: seq<byte>)
    ensures |r| == 32
  {
    seq(32, p requires 0 <= p < 32 => if p == 3 then 0x21 else 0)
  }

  /** As written, comparing column 0 against the pixel mirrored in x reads
      the nibble of column 0's parity: getPixel for pixel (7, 0) gives pixel
      6. */
  lemma AsWrittenGetPixelMisreads()
    ensures TileIn(NibblePair(), 4, 0)
    ensures GetPixel(NibblePair(), 4, AsWritten, 0, 0, 7, 0) == 1
    ensures StoredPixel(NibblePair(), 4, 0, 7) == 2 && StoredPixel(NibblePair(), 4, 0, 6) == 1
  {
    PixelByteBounds(0, 7, 4);
    PixelByteBounds(0, 6, 4);
  }
}
