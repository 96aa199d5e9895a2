/** Sprite drawing for the DXYN instruction.

    A sprite is a run of bytes, one per row, eight pixels wide, most
    significant bit leftmost. Every set bit toggles one display pixel at
    `(x + col, y + row)` (wrapped), and the collision flag collects the prior
    values of the toggled pixels with `|`, starting from 0. Rows are drawn
    top to bottom and columns left to right.
 */
module Sprites {
  import opened Bits
  import opened Displays

  /** Whether column `col` (0 is leftmost) of a sprite row is set: the test
      `row & (0x80 >> col) != 0`, which looks at bit `7 - col`. */
  predicate SpriteBit(row: u8, col: nat) {
    col < 8 && Bit(row, 7 - col) == 1
  }

  /** The display after a draw and the collision flag. */
  datatype Blit = Blit(display: Display, flag: u8)

  /** Columns `0 .. k - 1` of one sprite row drawn at row `y`, starting from
      the collision flag `flag`. */
  function DrawColumns(d: Display, x: nat, y: nat, row: u8, k: nat, flag: u8): Blit
    requires k <= 8 && x + 8 <= 0x1_0000 && y < 0x1_0000
    decreases k
  {
    if k == 0 then Blit(d, flag)
    else
      var before := DrawColumns(d, x, y, row, k - 1, flag);
      if SpriteBit(row, k - 1) then
        var drawn := Draw(before.display, x + k - 1, y);
        Blit(drawn.display, Bitwise8(Or, before.flag, drawn.prior))
      else before
  }

  /** All rows of a sprite drawn with its top-left corner at `(x, y)`; the
      collision flag starts at 0. */
  function DrawSprite(d: Display, x: nat, y: nat, rows: seq<u8>): Blit
    requires x + 8 <= 0x1_0000 && y + |rows| <= 0x1_0000
    decreases |rows|
  {
    if |rows| == 0 then Blit(d, 0)
    else
      var n := |rows| - 1;
      var above := DrawSprite(d, x, y, rows[..n]);
      DrawColumns(above.display, x, y + n, rows[n], 8, above.flag)
  }

  /** Some set bit among the first `k` columns of `row` lands on pixel `p`. */
  ghost predicate RowCovers(row: u8, x: nat, y: nat, k: nat, p: nat) {
    exists c :: 0 <= c < k && SpriteBit(row, c) && PixelIndex(x + c, y) == p
  }

  /** Some set bit of the sprite lands on pixel `p`. */
  ghost predicate Covers(rows: seq<u8>, x: nat, y: nat, p: nat) {
    exists r, c :: 0 <= r < |rows| && 0 <= c < 8 && SpriteBit(rows[r], c) && PixelIndex(x + c, y + r) == p
  }

  /** Some set bit among the first `k` columns of `row` lands on a lit pixel. */
  ghost predicate RowCollides(d: Display, row: u8, x: nat, y: nat, k: nat) {
    exists c :: 0 <= c < k && SpriteBit(row, c) && d.screen[PixelIndex(x + c, y)] == 1
  }

  /** Some set bit of the sprite lands on a lit pixel. */
  ghost predicate Collides(d: Display, rows: seq<u8>, x: nat, y: nat) {
    exists r, c :: 0 <= r < |rows| && 0 <= c < 8 && SpriteBit(rows[r], c) && d.screen[PixelIndex(x + c, y + r)] == 1
  }

  /** Offsets closer than the modulus stay apart modulo it. */
  lemma ModApart(a: nat, i: nat, j: nat, m: nat)
    requires i < j < i + m
    ensures (a + i) % m != (a + j) % m
  {
    if (a + i) % m == (a + j) % m {
      var qi, qj := (a + i) / m, (a + j) / m;
      assert j - i == m * (qj - qi);
      DivUnique(j - i, m, qj - qi, 0);
      DivUnique(j - i, m, 0, j - i);
    }
  }

  /** Two different columns less than 64 apart never meet on one pixel. */
  lemma ColumnsApart(x: nat, y: nat, c: nat, c': nat)
    requires c < c' < c + ScreenW
    ensures PixelIndex(x + c, y) != PixelIndex(x + c', y)
  {
    ModApart(x, c, c', ScreenW);
    PixelIndexSame(x + c, y, x + c', y);
  }

  /** Two different rows less than 32 apart never meet on one pixel. */
  lemma RowsApart(x: nat, y: nat, c: nat, c': nat, r: nat, r': nat)
    requires r < r' < r + ScreenH
    ensures PixelIndex(x + c, y + r) != PixelIndex(x + c', y + r')
  {
    ModApart(y, r, r', ScreenH);
    PixelIndexSame(x + c, y + r, x + c', y + r');
  }

  /** Pixel `PixelIndex(x + k - 1, y)` is not under any of the first
      `k - 1` columns. */
  lemma NewColumnFresh(row: u8, x: nat, y: nat, k: nat)
    requires 1 <= k <= 8
    ensures !RowCovers(row, x, y, k - 1, PixelIndex(x + k - 1, y))
  {
    forall c | 0 <= c < k - 1 && SpriteBit(row, c)
      ensures PixelIndex(x + c, y) != PixelIndex(x + k - 1, y)
    {
      ColumnsApart(x, y, c, k - 1);
    }
  }

  /** Column `k - 1` adds its own pixel, if its bit is set, to those the
      first `k - 1` columns cover. */
  lemma RowCoversStep(row: u8, x: nat, y: nat, k: nat, p: nat)
    requires 1 <= k <= 8
    ensures RowCovers(row, x, y, k, p) <==>
      RowCovers(row, x, y, k - 1, p) || (SpriteBit(row, k - 1) && PixelIndex(x + k - 1, y) == p)
  {
    if RowCovers(row, x, y, k, p) && !RowCovers(row, x, y, k - 1, p) {
      var c :| 0 <= c < k && SpriteBit(row, c) && PixelIndex(x + c, y) == p;
      assert c == k - 1;
    }
  }

  /** Column `k - 1` adds its own pixel, if its bit is set, to the lit
      pixels the first `k - 1` columns hit. */
  lemma RowCollidesStep(d: Display, row: u8, x: nat, y: nat, k: nat)
    requires 1 <= k <= 8
    ensures RowCollides(d, row, x, y, k) <==>
      RowCollides(d, row, x, y, k - 1) || (SpriteBit(row, k - 1) && d.screen[PixelIndex(x + k - 1, y)] == 1)
  {
    if RowCollides(d, row, x, y, k) && !RowCollides(d, row, x, y, k - 1) {
      var c :| 0 <= c < k && SpriteBit(row, c) && d.screen[PixelIndex(x + c, y)] == 1;
      assert c == k - 1;
    }
  }

  /** Drawing the first `k` columns of a row toggles exactly the pixels
      under its set bits and leaves the rest as they were. */
  lemma {:induction false} DrawColumnsScreen(d: Display, x: nat, y: nat, row: u8, k: nat, flag: u8)
    requires k <= 8 && x + 8 <= 0x1_0000 && y < 0x1_0000
    ensures forall p :: 0 <= p < ScreenSize ==>
      DrawColumns(d, x, y, row, k, flag).display.screen[p]
        == if RowCovers(row, x, y, k, p) then Toggle(d.screen[p]) else d.screen[p]
    decreases k
  {
    if k > 0 {
      var before := DrawColumns(d, x, y, row, k - 1, flag);
      DrawColumnsScreen(d, x, y, row, k - 1, flag);
      var q := PixelIndex(x + k - 1, y);
      NewColumnFresh(row, x, y, k);
      var after := DrawColumns(d, x, y, row, k, flag).display.screen;
      forall p | 0 <= p < ScreenSize
        ensures after[p] == if RowCovers(row, x, y, k, p) then Toggle(d.screen[p]) else d.screen[p]
      {
        RowCoversStep(row, x, y, k, p);
      }
    }
  }

  /** Column `k - 1` finds its pixel as it was before the row was drawn. */
  lemma ColumnUntouched(d: Display, x: nat, y: nat, row: u8, k: nat, flag: u8)
    requires 1 <= k <= 8 && x + 8 <= 0x1_0000 && y < 0x1_0000
    ensures DrawColumns(d, x, y, row, k - 1, flag).display.screen[PixelIndex(x + k - 1, y)]
      == d.screen[PixelIndex(x + k - 1, y)]
  {
    DrawColumnsScreen(d, x, y, row, k - 1, flag);
    NewColumnFresh(row, x, y, k);
  }

  /** On a monochrome display, drawing the first `k` columns of a row keeps
      it monochrome, and the flag ends as 1 exactly when it started as 1 or
      a set bit landed on a lit pixel. */
  lemma {:induction false} DrawColumnsFlag(d: Display, x: nat, y: nat, row: u8, k: nat, flag: u8)
    requires k <= 8 && x + 8 <= 0x1_0000 && y < 0x1_0000
    requires Monochrome(d) && flag <= 1
    ensures Monochrome(DrawColumns(d, x, y, row, k, flag).display)
    ensures DrawColumns(d, x, y, row, k, flag).flag <= 1
    ensures DrawColumns(d, x, y, row, k, flag).flag == 1 <==> flag == 1 || RowCollides(d, row, x, y, k)
    decreases k
  {
    if k > 0 {
      var before := DrawColumns(d, x, y, row, k - 1, flag);
      DrawColumnsFlag(d, x, y, row, k - 1, flag);
      RowCollidesStep(d, row, x, y, k);
      if SpriteBit(row, k - 1) {
        ColumnUntouched(d, x, y, row, k, flag);
        var drawn := Draw(before.display, x + k - 1, y);
        assert DrawColumns(d, x, y, row, k, flag) == Blit(drawn.display, Bitwise8(Or, before.flag, drawn.prior));
        OrOfBits(before.flag, drawn.prior);
      }
    }
  }

  /** The rows above the last one never reach a pixel of the last row. */
  lemma LastRowFresh(rows: seq<u8>, x: nat, y: nat, p: nat)
    requires 1 <= |rows| <= ScreenH
    requires RowCovers(rows[|rows| - 1], x, y + |rows| - 1, 8, p)
    ensures !Covers(rows[..|rows| - 1], x, y, p)
  {
    var n := |rows| - 1;
    var c' :| 0 <= c' < 8 && SpriteBit(rows[n], c') && PixelIndex(x + c', y + n) == p;
    forall r, c | 0 <= r < n && 0 <= c < 8 && SpriteBit(rows[..n][r], c)
      ensures PixelIndex(x + c, y + r) != p
    {
      RowsApart(x, y, c, c', r, n);
    }
  }

  /** The pixels a sprite covers are those its rows above the last cover
      and those its last row covers. */
  lemma CoversSplit(rows: seq<u8>, x: nat, y: nat, p: nat)
    requires 1 <= |rows|
    ensures Covers(rows, x, y, p) <==>
      Covers(rows[..|rows| - 1], x, y, p) || RowCovers(rows[|rows| - 1], x, y + |rows| - 1, 8, p)
  {
    var n := |rows| - 1;
    var prefix := rows[..n];
    if Covers(rows, x, y, p) {
      var r, c :| 0 <= r < |rows| && 0 <= c < 8 && SpriteBit(rows[r], c) && PixelIndex(x + c, y + r) == p;
      if r < n {
        assert prefix[r] == rows[r];
      } else {
        assert RowCovers(rows[n], x, y + n, 8, p);
      }
    }
    if Covers(prefix, x, y, p) {
      var r, c :| 0 <= r < n && 0 <= c < 8 && SpriteBit(prefix[r], c) && PixelIndex(x + c, y + r) == p;
      assert rows[r] == prefix[r];
    }
    if RowCovers(rows[n], x, y + n, 8, p) {
      var c :| 0 <= c < 8 && SpriteBit(rows[n], c) && PixelIndex(x + c, y + n) == p;
      assert Covers(rows, x, y, p) by {
        assert 0 <= n < |rows| && SpriteBit(rows[n], c) && PixelIndex(x + c, y + n) == p;
      }
    }
  }

  /** A sprite collides when its rows above the last one collide or its
      last row does. */
  lemma CollidesSplit(d: Display, rows: seq<u8>, x: nat, y: nat)
    requires 1 <= |rows|
    ensures Collides(d, rows, x, y) <==>
      Collides(d, rows[..|rows| - 1], x, y) || RowCollides(d, rows[|rows| - 1], x, y + |rows| - 1, 8)
  {
    var n := |rows| - 1;
    var prefix := rows[..n];
    if Collides(d, rows, x, y) {
      var r, c :| 0 <= r < |rows| && 0 <= c < 8 && SpriteBit(rows[r], c) && d.screen[PixelIndex(x + c, y + r)] == 1;
      if r < n {
        assert prefix[r] == rows[r];
      } else {
        assert RowCollides(d, rows[n], x, y + n, 8);
      }
    }
    if Collides(d, prefix, x, y) {
      var r, c :| 0 <= r < n && 0 <= c < 8 && SpriteBit(prefix[r], c) && d.screen[PixelIndex(x + c, y + r)] == 1;
      assert rows[r] == prefix[r];
    }
    if RowCollides(d, rows[n], x, y + n, 8) {
      var c :| 0 <= c < 8 && SpriteBit(rows[n], c) && d.screen[PixelIndex(x + c, y + n)] == 1;
      assert Collides(d, rows, x, y) by {
        assert 0 <= n < |rows| && SpriteBit(rows[n], c) && d.screen[PixelIndex(x + c, y + n)] == 1;
      }
    }
  }

  /** Drawing a sprite of at most 32 rows toggles exactly the pixels under
      its set bits and leaves every other pixel as it was. */
  lemma {:induction false} DrawSpriteScreen(d: Display, x: nat, y: nat, rows: seq<u8>)
    requires |rows| <= ScreenH && x + 8 <= 0x1_0000 && y + |rows| <= 0x1_0000
    ensures forall p :: 0 <= p < ScreenSize ==>
      DrawSprite(d, x, y, rows).display.screen[p]
        == if Covers(rows, x, y, p) then Toggle(d.screen[p]) else d.screen[p]
    decreases |rows|
  {
    if |rows| > 0 {
      var n := |rows| - 1;
      var prefix := rows[..n];
      var above := DrawSprite(d, x, y, prefix);
      DrawSpriteScreen(d, x, y, prefix);
      DrawColumnsScreen(above.display, x, y + n, rows[n], 8, above.flag);
      var after := DrawSprite(d, x, y, rows).display.screen;
      forall p | 0 <= p < ScreenSize
        ensures after[p] == if Covers(rows, x, y, p) then Toggle(d.screen[p]) else d.screen[p]
      {
        CoversSplit(rows, x, y, p);
        if RowCovers(rows[n], x, y + n, 8, p) {
          LastRowFresh(rows, x, y, p);
        }
      }
    }
  }

  /** On a monochrome display, drawing a sprite of at most 32 rows keeps the
      display monochrome and ends with the flag 0 or 1, and 1 exactly when a
      set bit landed on a lit pixel. */
  lemma {:induction false} DrawSpriteFlag(d: Display, x: nat, y: nat, rows: seq<u8>)
    requires |rows| <= ScreenH && x + 8 <= 0x1_0000 && y + |rows| <= 0x1_0000
    requires Monochrome(d)
    ensures Monochrome(DrawSprite(d, x, y, rows).display)
    ensures DrawSprite(d, x, y, rows).flag <= 1
    ensures DrawSprite(d, x, y, rows).flag == 1 <==> Collides(d, rows, x, y)
    decreases |rows|
  {
    if |rows| > 0 {
      var n := |rows| - 1;
      var prefix := rows[..n];
      var above := DrawSprite(d, x, y, prefix);
      DrawSpriteFlag(d, x, y, prefix);
      DrawColumnsFlag(above.display, x, y + n, rows[n], 8, above.flag);
      CollidesSplit(d, rows, x, y);
      assert DrawSprite(d, x, y, rows) == DrawColumns(above.display, x, y + n, rows[n], 8, above.flag);
      LastRowCollides(d, x, y, rows);
    }
  }

  /** The last row reads the pixels it hits before any other row of the
      sprite changed them, so it collides on the partly drawn display
      exactly when it collides on the display before the sprite. */
  lemma LastRowCollides(d: Display, x: nat, y: nat, rows: seq<u8>)
    requires 1 <= |rows| <= ScreenH && x + 8 <= 0x1_0000 && y + |rows| <= 0x1_0000
    ensures var n := |rows| - 1; var above := DrawSprite(d, x, y, rows[..n]);
      RowCollides(above.display, rows[n], x, y + n, 8) <==> RowCollides(d, rows[n], x, y + n, 8)
  {
    var n := |rows| - 1;
    var above := DrawSprite(d, x, y, rows[..n]);
    forall c | 0 <= c < 8 && SpriteBit(rows[n], c)
      ensures above.display.screen[PixelIndex(x + c, y + n)] == d.screen[PixelIndex(x + c, y + n)]
    {
      RowUntouched(d, x, y, rows, c);
    }
  }

  /** A set bit of the last row finds its pixel as it was before the sprite
      was drawn. */
  lemma RowUntouched(d: Display, x: nat, y: nat, rows: seq<u8>, c: nat)
    requires 1 <= |rows| <= ScreenH && x + 8 <= 0x1_0000 && y + |rows| <= 0x1_0000
    requires c < 8 && SpriteBit(rows[|rows| - 1], c)
    ensures DrawSprite(d, x, y, rows[..|rows| - 1]).display.screen[PixelIndex(x + c, y + |rows| - 1)]
      == d.screen[PixelIndex(x + c, y + |rows| - 1)]
  {
    var n := |rows| - 1;
    var p := PixelIndex(x + c, y + n);
    assert RowCovers(rows[n], x, y + n, 8, p);
    LastRowFresh(rows, x, y, p);
    DrawSpriteScreen(d, x, y, rows[..n]);
  }
}
