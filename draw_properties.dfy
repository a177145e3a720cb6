/** What DXYN does to the screen, stated pixel by pixel: a sprite row
    toggles exactly the pixels its set bits cover, a collision is exactly
    a covered pixel that was lit, drawing the same row twice restores the
    screen, and the same holds for a whole sprite of up to 32 rows. */
module DrawProperties {
  import opened Chip8Types
  import opened Bits
  import opened Alu
  import opened MachineSpec

  /** The byte column that a sprite starting at column x0 spills into:
      the next one, or column 0 from the last column. */
  function SpillColumn(x0: int): (c: int)
    requires 0 <= x0 < DISPLAY_WIDTH
    ensures 0 <= c < 8 && c != x0 / 8
  {
    if x0 / 8 == 7 then 0 else x0 / 8 + 1
  }

  /** In the byte the sprite starts in, column px is sprite column
      px % 8 - x0 % 8 when that is not negative, and uncovered otherwise. */
  lemma ChunkColumn(x0: int, px: int, wrap: bool)
    requires 0 <= x0 < DISPLAY_WIDTH && 0 <= px < DISPLAY_WIDTH && px / 8 == x0 / 8
    ensures var q := CoverColumn(x0, px, wrap);
            (0 <= q < 8) == (x0 % 8 <= px % 8) && (0 <= q < 8 ==> q == px % 8 - x0 % 8)
  {
    assert px - x0 == px % 8 - x0 % 8;
    if px < x0 {
      assert (px - x0) % DISPLAY_WIDTH == px - x0 + DISPLAY_WIDTH;
    }
  }

  /** In the byte the sprite spills into, column px is sprite column
      8 - x0 % 8 + px % 8. */
  lemma SpillColumnOffset(x0: int, px: int, wrap: bool)
    requires 0 <= x0 < DISPLAY_WIDTH && 0 <= px < DISPLAY_WIDTH
    requires px / 8 == SpillColumn(x0) && SpillDrawn(x0, wrap)
    ensures CoverColumn(x0, px, wrap) == 8 - x0 % 8 + px % 8
  {
    if x0 / 8 == 7 {
      assert px - x0 == 8 - x0 % 8 + px % 8 - DISPLAY_WIDTH;
    } else {
      assert px - x0 == 8 - x0 % 8 + px % 8;
    }
  }

  /** Bit j of a byte after XOR with the part of a sprite byte shifted
      right by `off`, where sprite column q (if any) lands on bit j. */
  lemma ChunkBit(a: u8, b: u8, off: nat, j: nat, q: int)
    requires off < 8 && j < 8
    requires (0 <= q < 8) == (off <= 7 - j) && (0 <= q < 8 ==> 7 - q == j + off)
    ensures Bit(Xor8(a, SplitSprite(b, off).0), j) == (Bit(a, j) != (0 <= q < 8 && Bit(b, 7 - q)))
  {
    var part := SplitSprite(b, off).0;
    assert Bit(Xor8(a, part), j) == (Bit(a, j) != Bit(part, j));
  }

  /** Bit j of a byte after XOR with the part of a sprite byte shifted
      left by `8 - off`, where sprite column q lands on bit j. */
  lemma SpillBit(a: u8, b: u8, off: nat, j: nat, q: int)
    requires off < 8 && j < 8
    requires q == 8 - off + 7 - j
    ensures Bit(Xor8(a, SplitSprite(b, off).1), j) == (Bit(a, j) != (0 <= q < 8 && Bit(b, 7 - q)))
  {
    var part := SplitSprite(b, off).1;
    assert Bit(Xor8(a, part), j) == (Bit(a, j) != Bit(part, j));
  }

  /** A pixel in the byte the sprite row starts in is toggled exactly
      when the sprite covers it. */
  lemma ChunkPixel(fb: seq<u8>, b: u8, x0: int, y: int, wrap: bool, px: int)
    requires |fb| == FRAMEBUFFER_PACKED_LEN && 0 <= x0 < DISPLAY_WIDTH && 0 <= y < DISPLAY_HEIGHT
    requires 0 <= px < DISPLAY_WIDTH && px / 8 == x0 / 8
    ensures var idx := ChunkIndex(x0, y);
            Bit(Xor8(fb[idx], SplitSprite(b, x0 % 8).0), 7 - px % 8) == (Pixel(fb, px, y) != SpriteCovers(b, x0, px, wrap))
  {
    var idx := ChunkIndex(x0, y);
    assert idx == y * 8 + px / 8;
    ChunkColumn(x0, px, wrap);
    ChunkBit(fb[idx], b, x0 % 8, 7 - px % 8, CoverColumn(x0, px, wrap));
  }

  /** A pixel in the byte the sprite row spills into is toggled exactly
      when the sprite covers it, when the spill is drawn. */
  lemma SpillPixel(fb: seq<u8>, b: u8, x0: int, y: int, wrap: bool, px: int)
    requires |fb| == FRAMEBUFFER_PACKED_LEN && 0 <= x0 < DISPLAY_WIDTH && 0 <= y < DISPLAY_HEIGHT
    requires 0 <= px < DISPLAY_WIDTH && px / 8 == SpillColumn(x0) && SpillDrawn(x0, wrap)
    ensures var nxt := NextChunkIndex(x0, y);
            Bit(Xor8(fb[nxt], SplitSprite(b, x0 % 8).1), 7 - px % 8) == (Pixel(fb, px, y) != SpriteCovers(b, x0, px, wrap))
  {
    var nxt := NextChunkIndex(x0, y);
    assert nxt == y * 8 + px / 8;
    SpillColumnOffset(x0, px, wrap);
    SpillBit(fb[nxt], b, x0 % 8, 7 - px % 8, CoverColumn(x0, px, wrap));
  }

  /** A sprite byte covers only pixels of the byte it starts in and of
      the byte it spills into, when that spill is drawn. */
  lemma CoveredColumns(b: u8, x0: int, wrap: bool, px: int)
    requires 0 <= x0 < DISPLAY_WIDTH && 0 <= px < DISPLAY_WIDTH
    ensures SpriteCovers(b, x0, px, wrap) ==>
              px / 8 == x0 / 8 || (SpillDrawn(x0, wrap) && px / 8 == SpillColumn(x0))
  {
    if wrap && px < x0 {
      assert CoverColumn(x0, px, wrap) == px - x0 + DISPLAY_WIDTH;
    }
  }

  /** One sprite row drawn in screen row y toggles exactly the pixels of
      that row its set bits cover, and no other pixel. */
  lemma DrawRowPixel(fb: seq<u8>, b: u8, x0: int, y: int, wrap: bool, px: int, py: int)
    requires |fb| == FRAMEBUFFER_PACKED_LEN && 0 <= x0 < DISPLAY_WIDTH && 0 <= y < DISPLAY_HEIGHT
    requires 0 <= px < DISPLAY_WIDTH && 0 <= py < DISPLAY_HEIGHT
    ensures Pixel(DrawRow(fb, b, x0, y, wrap), px, py) == (Pixel(fb, px, py) != (py == y && SpriteCovers(b, x0, px, wrap)))
  {
    var idx, nxt := ChunkIndex(x0, y), NextChunkIndex(x0, y);
    var p := py * 8 + px / 8;
    var r := DrawRow(fb, b, x0, y, wrap);
    if py == y && px / 8 == x0 / 8 {
      assert p == idx;
      ChunkPixel(fb, b, x0, y, wrap, px);
    } else if py == y && px / 8 == SpillColumn(x0) && SpillDrawn(x0, wrap) {
      assert p == nxt;
      SpillPixel(fb, b, x0, y, wrap, px);
    } else {
      assert p != idx && (SpillDrawn(x0, wrap) ==> p != nxt);
      assert r[p] == fb[p];
      CoveredColumns(b, x0, wrap, px);
    }
  }

  /** Whether some pixel of screen row y is lit in `fb` and covered by
      the sprite byte. */
  ghost predicate RowHitsLit(fb: seq<u8>, b: u8, x0: int, y: int, wrap: bool)
    requires |fb| == FRAMEBUFFER_PACKED_LEN && 0 <= y < DISPLAY_HEIGHT
  {
    exists px :: 0 <= px < DISPLAY_WIDTH && Pixel(fb, px, y) && SpriteCovers(b, x0, px, wrap)
  }

  /** Bit 7 - px % 8 of the collision mask of the byte the row starts in
      is set exactly when pixel px is lit and covered. */
  lemma ChunkCleared(fb: seq<u8>, b: u8, x0: int, y: int, wrap: bool, px: int)
    requires |fb| == FRAMEBUFFER_PACKED_LEN && 0 <= x0 < DISPLAY_WIDTH && 0 <= y < DISPLAY_HEIGHT
    requires 0 <= px < DISPLAY_WIDTH && px / 8 == x0 / 8
    ensures var idx := ChunkIndex(x0, y);
            Bit(Cleared(fb[idx], Xor8(fb[idx], SplitSprite(b, x0 % 8).0)), 7 - px % 8)
              == (Pixel(fb, px, y) && SpriteCovers(b, x0, px, wrap))
  {
    ChunkPixel(fb, b, x0, y, wrap, px);
    assert ChunkIndex(x0, y) == y * 8 + px / 8;
  }

  /** The same for the byte the row spills into. */
  lemma SpillCleared(fb: seq<u8>, b: u8, x0: int, y: int, wrap: bool, px: int)
    requires |fb| == FRAMEBUFFER_PACKED_LEN && 0 <= x0 < DISPLAY_WIDTH && 0 <= y < DISPLAY_HEIGHT
    requires 0 <= px < DISPLAY_WIDTH && px / 8 == SpillColumn(x0) && SpillDrawn(x0, wrap)
    ensures var nxt := NextChunkIndex(x0, y);
            Bit(Cleared(fb[nxt], Xor8(fb[nxt], SplitSprite(b, x0 % 8).1)), 7 - px % 8)
              == (Pixel(fb, px, y) && SpriteCovers(b, x0, px, wrap))
  {
    SpillPixel(fb, b, x0, y, wrap, px);
    assert NextChunkIndex(x0, y) == y * 8 + px / 8;
  }

  /** A byte with a set bit is not zero. */
  lemma SetBitNonZero(a: u8, i: nat)
    requires Bit(a, i)
    ensures a != 0
  {
    if a == 0 {
      ZeroHasNoBits(i);
    }
  }

  /** The screen column shown by bit i of framebuffer byte column c. */
  function ByteColumn(c: int, i: nat): (px: int)
    requires 0 <= c < 8 && i < 8
    ensures 0 <= px < DISPLAY_WIDTH && px / 8 == c && 7 - px % 8 == i
  {
    c * 8 + 7 - i
  }

  /** A set bit in the collision mask of the byte the row starts in is a
      lit pixel that the sprite byte covers. */
  lemma ChunkHit(fb: seq<u8>, b: u8, x0: int, y: int, wrap: bool)
    requires |fb| == FRAMEBUFFER_PACKED_LEN && 0 <= x0 < DISPLAY_WIDTH && 0 <= y < DISPLAY_HEIGHT
    requires var idx := ChunkIndex(x0, y);
             Cleared(fb[idx], Xor8(fb[idx], SplitSprite(b, x0 % 8).0)) != 0
    ensures RowHitsLit(fb, b, x0, y, wrap)
  {
    var idx := ChunkIndex(x0, y);
    var c0 := Cleared(fb[idx], Xor8(fb[idx], SplitSprite(b, x0 % 8).0));
    NonZeroByte(c0);
    var i: nat :| i < 8 && Bit(c0, i);
    var px := ByteColumn(x0 / 8, i);
    ChunkCleared(fb, b, x0, y, wrap, px);
    assert Pixel(fb, px, y) && SpriteCovers(b, x0, px, wrap);
  }

  /** The same for the byte the row spills into. */
  lemma SpillHit(fb: seq<u8>, b: u8, x0: int, y: int, wrap: bool)
    requires |fb| == FRAMEBUFFER_PACKED_LEN && 0 <= x0 < DISPLAY_WIDTH && 0 <= y < DISPLAY_HEIGHT
    requires SpillDrawn(x0, wrap)
    requires var nxt := NextChunkIndex(x0, y);
             Cleared(fb[nxt], Xor8(fb[nxt], SplitSprite(b, x0 % 8).1)) != 0
    ensures RowHitsLit(fb, b, x0, y, wrap)
  {
    var nxt := NextChunkIndex(x0, y);
    var c1 := Cleared(fb[nxt], Xor8(fb[nxt], SplitSprite(b, x0 % 8).1));
    NonZeroByte(c1);
    var i: nat :| i < 8 && Bit(c1, i);
    var px := ByteColumn(SpillColumn(x0), i);
    SpillCleared(fb, b, x0, y, wrap, px);
    assert Pixel(fb, px, y) && SpriteCovers(b, x0, px, wrap);
  }

  /** A lit pixel that the sprite byte covers makes the row collide. */
  lemma HitCollides(fb: seq<u8>, b: u8, x0: int, y: int, wrap: bool, px: int)
    requires |fb| == FRAMEBUFFER_PACKED_LEN && 0 <= x0 < DISPLAY_WIDTH && 0 <= y < DISPLAY_HEIGHT
    requires 0 <= px < DISPLAY_WIDTH && Pixel(fb, px, y) && SpriteCovers(b, x0, px, wrap)
    ensures RowCollides(fb, b, x0, y, wrap)
  {
    var idx, nxt := ChunkIndex(x0, y), NextChunkIndex(x0, y);
    var parts := SplitSprite(b, x0 % 8);
    CoveredColumns(b, x0, wrap, px);
    if px / 8 == x0 / 8 {
      ChunkCleared(fb, b, x0, y, wrap, px);
      SetBitNonZero(Cleared(fb[idx], Xor8(fb[idx], parts.0)), 7 - px % 8);
    } else {
      SpillCleared(fb, b, x0, y, wrap, px);
      SetBitNonZero(Cleared(fb[nxt], Xor8(fb[nxt], parts.1)), 7 - px % 8);
    }
  }

  /** The collision test of one sprite row reports exactly a lit pixel of
      the row that the sprite byte covers. */
  lemma RowCollidesIff(fb: seq<u8>, b: u8, x0: int, y: int, wrap: bool)
    requires |fb| == FRAMEBUFFER_PACKED_LEN && 0 <= x0 < DISPLAY_WIDTH && 0 <= y < DISPLAY_HEIGHT
    ensures RowCollides(fb, b, x0, y, wrap) <==> RowHitsLit(fb, b, x0, y, wrap)
  {
    var idx := ChunkIndex(x0, y);
    if RowCollides(fb, b, x0, y, wrap) {
      if Cleared(fb[idx], Xor8(fb[idx], SplitSprite(b, x0 % 8).0)) != 0 {
        ChunkHit(fb, b, x0, y, wrap);
      } else {
        SpillHit(fb, b, x0, y, wrap);
      }
    }
    if RowHitsLit(fb, b, x0, y, wrap) {
      var px :| 0 <= px < DISPLAY_WIDTH && Pixel(fb, px, y) && SpriteCovers(b, x0, px, wrap);
      HitCollides(fb, b, x0, y, wrap, px);
    }
  }

  /** Drawing the same sprite row at the same place twice restores the
      framebuffer. */
  lemma DrawRowTwice(fb: seq<u8>, b: u8, x0: int, y: int, wrap: bool)
    requires |fb| == FRAMEBUFFER_PACKED_LEN && 0 <= x0 < DISPLAY_WIDTH && 0 <= y < DISPLAY_HEIGHT
    ensures DrawRow(DrawRow(fb, b, x0, y, wrap), b, x0, y, wrap) == fb
  {
    var idx, nxt := ChunkIndex(x0, y), NextChunkIndex(x0, y);
    var parts := SplitSprite(b, x0 % 8);
    var once := DrawRow(fb, b, x0, y, wrap);
    var twice := DrawRow(once, b, x0, y, wrap);
    XorTwice(fb[idx], parts.0);
    XorTwice(fb[nxt], parts.1);
    assert once[idx] == Xor8(fb[idx], parts.0);
    assert SpillDrawn(x0, wrap) ==> once[nxt] == Xor8(fb[nxt], parts.1);
    assert forall i | 0 <= i < FRAMEBUFFER_PACKED_LEN :: twice[i] == fb[i];
  }

  // ---------------------------------------------------------------------
  // Whole sprites

  /** Sprite row k lands on screen row py exactly when k is py - y0
      mod 32, for the first 32 rows. */
  lemma SpriteRowOf(y0: int, k: int, py: int)
    requires 0 <= y0 < DISPLAY_HEIGHT && 0 <= k < DISPLAY_HEIGHT && 0 <= py < DISPLAY_HEIGHT
    ensures (py == (y0 + k) % DISPLAY_HEIGHT) == ((py - y0) % DISPLAY_HEIGHT == k)
  {
    if y0 + k < DISPLAY_HEIGHT {
      assert (y0 + k) % DISPLAY_HEIGHT == y0 + k;
    } else {
      assert (y0 + k) % DISPLAY_HEIGHT == y0 + k - DISPLAY_HEIGHT;
    }
    if py < y0 {
      assert (py - y0) % DISPLAY_HEIGHT == py - y0 + DISPLAY_HEIGHT;
    } else {
      assert (py - y0) % DISPLAY_HEIGHT == py - y0;
    }
  }

  /** Whether the first `count` rows of a sprite drawn at (x0, y0) cover
      pixel (px, py): the sprite row that lands on screen row py is
      (py - y0) mod 32, and it must be one of the rows drawn. */
  predicate SpriteLights(sprite: seq<u8>, x0: int, y0: int, wrap: bool, count: nat, px: int, py: int)
    requires count <= |sprite|
  {
    var k := (py - y0) % DISPLAY_HEIGHT;
    k < count && SpriteCovers(sprite[k], x0, px, wrap)
  }

  /** Drawing sprite row k toggles exactly the pixels it covers in screen
      row (y0 + k) mod 32. */
  lemma SpriteRowStep(fb: seq<u8>, sprite: seq<u8>, x0: int, y0: int, wrap: bool, k: nat, px: int, py: int)
    requires |fb| == FRAMEBUFFER_PACKED_LEN && 0 <= x0 < DISPLAY_WIDTH && 0 <= y0 < DISPLAY_HEIGHT
    requires k < |sprite| && 0 <= px < DISPLAY_WIDTH && 0 <= py < DISPLAY_HEIGHT
    ensures Pixel(SpriteDrawing(fb, sprite, x0, y0, wrap, k + 1).frame, px, py)
              == (Pixel(SpriteDrawing(fb, sprite, x0, y0, wrap, k).frame, px, py)
                  != (py == (y0 + k) % DISPLAY_HEIGHT && SpriteCovers(sprite[k], x0, px, wrap)))
  {
    var before := SpriteDrawing(fb, sprite, x0, y0, wrap, k);
    var y := (y0 + k) % DISPLAY_HEIGHT;
    assert SpriteDrawing(fb, sprite, x0, y0, wrap, k + 1).frame == DrawRow(before.frame, sprite[k], x0, y, wrap);
    DrawRowPixel(before.frame, sprite[k], x0, y, wrap, px, py);
  }

  /** Drawing sprite row k sets the collision flag exactly when it was
      set or the row covers a pixel lit in the drawing so far. */
  lemma SpriteRowCollision(fb: seq<u8>, sprite: seq<u8>, x0: int, y0: int, wrap: bool, k: nat)
    requires |fb| == FRAMEBUFFER_PACKED_LEN && 0 <= x0 < DISPLAY_WIDTH && 0 <= y0 < DISPLAY_HEIGHT
    requires k < |sprite|
    ensures var before := SpriteDrawing(fb, sprite, x0, y0, wrap, k);
            SpriteDrawing(fb, sprite, x0, y0, wrap, k + 1).collided
              == (before.collided || RowHitsLit(before.frame, sprite[k], x0, (y0 + k) % DISPLAY_HEIGHT, wrap))
  {
    var before := SpriteDrawing(fb, sprite, x0, y0, wrap, k);
    var y := (y0 + k) % DISPLAY_HEIGHT;
    assert SpriteDrawing(fb, sprite, x0, y0, wrap, k + 1).collided
        == (before.collided || RowCollides(before.frame, sprite[k], x0, y, wrap));
    RowCollidesIff(before.frame, sprite[k], x0, y, wrap);
  }

  /** A sprite of at most 32 rows toggles exactly the pixels it covers:
      every other pixel keeps its value. */
  lemma {:induction false} SpriteDrawingPixel(fb: seq<u8>, sprite: seq<u8>, x0: int, y0: int, wrap: bool, count: nat, px: int, py: int)
    requires |fb| == FRAMEBUFFER_PACKED_LEN && 0 <= x0 < DISPLAY_WIDTH && 0 <= y0 < DISPLAY_HEIGHT
    requires count <= |sprite| && count <= DISPLAY_HEIGHT
    requires 0 <= px < DISPLAY_WIDTH && 0 <= py < DISPLAY_HEIGHT
    ensures Pixel(SpriteDrawing(fb, sprite, x0, y0, wrap, count).frame, px, py)
              == (Pixel(fb, px, py) != SpriteLights(sprite, x0, y0, wrap, count, px, py))
  {
    if count > 0 {
      var k := count - 1;
      SpriteDrawingPixel(fb, sprite, x0, y0, wrap, k, px, py);
      SpriteRowStep(fb, sprite, x0, y0, wrap, k, px, py);
      SpriteRowOf(y0, k, py);
    }
  }

  /** Whether some drawn sprite row covers a pixel that was lit before
      the sprite was drawn. */
  ghost predicate SpriteHitsLit(fb: seq<u8>, sprite: seq<u8>, x0: int, y0: int, wrap: bool, count: nat)
    requires |fb| == FRAMEBUFFER_PACKED_LEN && 0 <= y0 < DISPLAY_HEIGHT && count <= |sprite|
  {
    exists k, px :: 0 <= k < count && 0 <= px < DISPLAY_WIDTH
      && Pixel(fb, px, (y0 + k) % DISPLAY_HEIGHT) && SpriteCovers(sprite[k], x0, px, wrap)
  }

  /** Before row k of a sprite of at most 32 rows is drawn, its screen row
      still shows the original framebuffer. */
  lemma RowUntouched(fb: seq<u8>, sprite: seq<u8>, x0: int, y0: int, wrap: bool, k: nat)
    requires |fb| == FRAMEBUFFER_PACKED_LEN && 0 <= x0 < DISPLAY_WIDTH && 0 <= y0 < DISPLAY_HEIGHT
    requires k < |sprite| && k < DISPLAY_HEIGHT
    ensures var y := (y0 + k) % DISPLAY_HEIGHT;
            forall px :: 0 <= px < DISPLAY_WIDTH ==>
              Pixel(SpriteDrawing(fb, sprite, x0, y0, wrap, k).frame, px, y) == Pixel(fb, px, y)
  {
    var y := (y0 + k) % DISPLAY_HEIGHT;
    forall px | 0 <= px < DISPLAY_WIDTH
      ensures Pixel(SpriteDrawing(fb, sprite, x0, y0, wrap, k).frame, px, y) == Pixel(fb, px, y)
    {
      SpriteDrawingPixel(fb, sprite, x0, y0, wrap, k, px, y);
      SpriteRowOf(y0, k, y);
    }
  }

  /** One more sprite row hits a lit pixel of the original framebuffer
      exactly when the rows before it do or the new row does. */
  lemma SpriteHitsLitStep(fb: seq<u8>, sprite: seq<u8>, x0: int, y0: int, wrap: bool, k: nat)
    requires |fb| == FRAMEBUFFER_PACKED_LEN && 0 <= y0 < DISPLAY_HEIGHT && k < |sprite|
    ensures SpriteHitsLit(fb, sprite, x0, y0, wrap, k + 1)
              == (SpriteHitsLit(fb, sprite, x0, y0, wrap, k) || RowHitsLit(fb, sprite[k], x0, (y0 + k) % DISPLAY_HEIGHT, wrap))
  {
    var y := (y0 + k) % DISPLAY_HEIGHT;
    if SpriteHitsLit(fb, sprite, x0, y0, wrap, k + 1) {
      var kk, px :| 0 <= kk < k + 1 && 0 <= px < DISPLAY_WIDTH
        && Pixel(fb, px, (y0 + kk) % DISPLAY_HEIGHT) && SpriteCovers(sprite[kk], x0, px, wrap);
      if kk < k {
        assert SpriteHitsLit(fb, sprite, x0, y0, wrap, k);
      } else {
        assert Pixel(fb, px, y) && SpriteCovers(sprite[k], x0, px, wrap);
      }
    }
    if SpriteHitsLit(fb, sprite, x0, y0, wrap, k) {
      var kk, px :| 0 <= kk < k && 0 <= px < DISPLAY_WIDTH
        && Pixel(fb, px, (y0 + kk) % DISPLAY_HEIGHT) && SpriteCovers(sprite[kk], x0, px, wrap);
      assert 0 <= kk < k + 1;
    }
    if RowHitsLit(fb, sprite[k], x0, y, wrap) {
      var px :| 0 <= px < DISPLAY_WIDTH && Pixel(fb, px, y) && SpriteCovers(sprite[k], x0, px, wrap);
      assert Pixel(fb, px, (y0 + k) % DISPLAY_HEIGHT) && SpriteCovers(sprite[k], x0, px, wrap);
    }
  }

  /** Whether a row hits a lit pixel depends only on the pixels of that
      row. */
  lemma RowHitsLitSameRow(a: seq<u8>, fb: seq<u8>, b: u8, x0: int, y: int, wrap: bool)
    requires |a| == FRAMEBUFFER_PACKED_LEN && |fb| == FRAMEBUFFER_PACKED_LEN && 0 <= y < DISPLAY_HEIGHT
    requires forall px :: 0 <= px < DISPLAY_WIDTH ==> Pixel(a, px, y) == Pixel(fb, px, y)
    ensures RowHitsLit(a, b, x0, y, wrap) == RowHitsLit(fb, b, x0, y, wrap)
  {
    if RowHitsLit(a, b, x0, y, wrap) {
      var px :| 0 <= px < DISPLAY_WIDTH && Pixel(a, px, y) && SpriteCovers(b, x0, px, wrap);
      assert Pixel(fb, px, y);
    }
    if RowHitsLit(fb, b, x0, y, wrap) {
      var px :| 0 <= px < DISPLAY_WIDTH && Pixel(fb, px, y) && SpriteCovers(b, x0, px, wrap);
      assert Pixel(a, px, y);
    }
  }

  /** The collision flag of a sprite of at most 32 rows is set exactly
      when one of its rows covers a pixel lit in the original
      framebuffer. */
  lemma {:induction false} SpriteDrawingCollision(fb: seq<u8>, sprite: seq<u8>, x0: int, y0: int, wrap: bool, count: nat)
    requires |fb| == FRAMEBUFFER_PACKED_LEN && 0 <= x0 < DISPLAY_WIDTH && 0 <= y0 < DISPLAY_HEIGHT
    requires count <= |sprite| && count <= DISPLAY_HEIGHT
    ensures SpriteDrawing(fb, sprite, x0, y0, wrap, count).collided == SpriteHitsLit(fb, sprite, x0, y0, wrap, count)
  {
    if count > 0 {
      var k := count - 1;
      var before := SpriteDrawing(fb, sprite, x0, y0, wrap, k);
      SpriteDrawingCollision(fb, sprite, x0, y0, wrap, k);
      SpriteRowCollision(fb, sprite, x0, y0, wrap, k);
      RowUntouched(fb, sprite, x0, y0, wrap, k);
      RowHitsLitSameRow(before.frame, fb, sprite[k], x0, (y0 + k) % DISPLAY_HEIGHT, wrap);
      SpriteHitsLitStep(fb, sprite, x0, y0, wrap, k);
    }
  }

  /** Two framebuffers that show the same pixels are equal. */
  lemma SameFrame(a: seq<u8>, b: seq<u8>)
    requires |a| == FRAMEBUFFER_PACKED_LEN && |b| == FRAMEBUFFER_PACKED_LEN
    requires forall px, py :: 0 <= px < DISPLAY_WIDTH && 0 <= py < DISPLAY_HEIGHT ==> Pixel(a, px, py) == Pixel(b, px, py)
    ensures a == b
  {
    forall i | 0 <= i < FRAMEBUFFER_PACKED_LEN
      ensures a[i] == b[i]
    {
      var py := i / 8;
      forall j | 0 <= j < 8
        ensures Bit(a[i], j) == Bit(b[i], j)
      {
        var px := ByteColumn(i % 8, j);
        assert py * 8 + px / 8 == i;
        assert Pixel(a, px, py) == Pixel(b, px, py);
      }
      SameByte(a[i], b[i]);
    }
  }

  /** Drawing the same sprite of at most 32 rows twice at the same place
      restores the framebuffer. */
  lemma SpriteDrawingTwice(fb: seq<u8>, sprite: seq<u8>, x0: int, y0: int, wrap: bool, count: nat)
    requires |fb| == FRAMEBUFFER_PACKED_LEN && 0 <= x0 < DISPLAY_WIDTH && 0 <= y0 < DISPLAY_HEIGHT
    requires count <= |sprite| && count <= DISPLAY_HEIGHT
    ensures SpriteDrawing(SpriteDrawing(fb, sprite, x0, y0, wrap, count).frame, sprite, x0, y0, wrap, count).frame == fb
  {
    var once := SpriteDrawing(fb, sprite, x0, y0, wrap, count).frame;
    var twice := SpriteDrawing(once, sprite, x0, y0, wrap, count).frame;
    forall px, py | 0 <= px < DISPLAY_WIDTH && 0 <= py < DISPLAY_HEIGHT
      ensures Pixel(twice, px, py) == Pixel(fb, px, py)
    {
      SpriteDrawingPixel(fb, sprite, x0, y0, wrap, count, px, py);
      SpriteDrawingPixel(once, sprite, x0, y0, wrap, count, px, py);
    }
    SameFrame(twice, fb);
  }

  // ---------------------------------------------------------------------
  // DXYN

  /** The sprite rows DXYN draws: the first n bytes at I, cut at the
      bottom edge when not wrapping. */
  function DrawnSprite(s: State, x: Nibble, y: Nibble, n: Nibble): (sprite: seq<u8>)
    requires WellFormed(s) && DrawSafe(s, x, y, n)
    ensures |sprite| <= n
  {
    SpriteBytes(s.memory, s.registerI, RowsDrawn(s.register[y] % DISPLAY_HEIGHT, n, s.quirks.wrapDraw))
  }

  /** DXYN toggles exactly the pixels its sprite covers, sets VF to 1
      exactly when it turns off a pixel that was lit and otherwise leaves
      VF as it was, and changes nothing but the framebuffer and VF. */
  lemma ExecDrawEffect(s: State, x: Nibble, y: Nibble, n: Nibble, px: int, py: int)
    requires WellFormed(s) && DrawSafe(s, x, y, n)
    requires 0 <= px < DISPLAY_WIDTH && 0 <= py < DISPLAY_HEIGHT
    ensures var t := ExecDraw(s, x, y, n);
            var x0, y0, wrap := s.register[x] % DISPLAY_WIDTH, s.register[y] % DISPLAY_HEIGHT, s.quirks.wrapDraw;
            var sprite := DrawnSprite(s, x, y, n);
            && Pixel(t.frameBuffer, px, py)
                 == (Pixel(s.frameBuffer, px, py) != SpriteLights(sprite, x0, y0, wrap, |sprite|, px, py))
            && t.register[0xF] == (if SpriteHitsLit(s.frameBuffer, sprite, x0, y0, wrap, |sprite|) then 1 else s.register[0xF])
            && t.register[..0xF] == s.register[..0xF]
            && t == s.(frameBuffer := t.frameBuffer, register := t.register)
  {
    var x0, y0, wrap := s.register[x] % DISPLAY_WIDTH, s.register[y] % DISPLAY_HEIGHT, s.quirks.wrapDraw;
    var sprite := DrawnSprite(s, x, y, n);
    SpriteDrawingPixel(s.frameBuffer, sprite, x0, y0, wrap, |sprite|, px, py);
    SpriteDrawingCollision(s.frameBuffer, sprite, x0, y0, wrap, |sprite|);
  }

  /** Running the same DXYN twice, with neither coordinate in VF, leaves
      the framebuffer as it was. */
  lemma ExecDrawTwice(s: State, x: Nibble, y: Nibble, n: Nibble)
    requires WellFormed(s) && DrawSafe(s, x, y, n) && x != 0xF && y != 0xF
    ensures var t := ExecDraw(s, x, y, n);
            DrawSafe(t, x, y, n) && ExecDraw(t, x, y, n).frameBuffer == s.frameBuffer
  {
    var t := ExecDraw(s, x, y, n);
    var x0, y0, wrap := s.register[x] % DISPLAY_WIDTH, s.register[y] % DISPLAY_HEIGHT, s.quirks.wrapDraw;
    var sprite := DrawnSprite(s, x, y, n);
    assert t.register[x] == s.register[x] && t.register[y] == s.register[y];
    assert DrawnSprite(t, x, y, n) == sprite;
    SpriteDrawingTwice(s.frameBuffer, sprite, x0, y0, wrap, |sprite|);
  }
}
