/** The 64 x 32 monochrome frame buffer, one byte per pixel in row-major
    order, drawn by xor-ing single pixels with wrap-around coordinates.
 */
module Displays {
  import opened Bits

  const ScreenW: nat := 64
  const ScreenH: nat := 32
  const ScreenSize: nat := ScreenW * ScreenH

  type Screen = s: seq<u8> | |s| == ScreenSize witness seq(64 * 32, _ => 0)

  datatype Display = Display(screen: Screen)

  /** The previous value of a drawn pixel together with the display after
      the draw. */
  datatype Drawn = Drawn(prior: u8, display: Display)

  /** Every pixel is 0 (dark) or 1 (lit). */
  predicate Monochrome(d: Display) {
    forall p :: 0 <= p < ScreenSize ==> d.screen[p] <= 1
  }

  /** The buffer index of the pixel at `(x, y)`, with `x` taken modulo the
      width and `y` modulo the height. With the Go code's 16-bit index this cannot
      overflow, because the largest index is 63 + 64 * 31. */
  function PixelIndex(x: nat, y: nat): (r: nat)
    ensures r < ScreenSize
  {
    x % ScreenW + ScreenW * (y % ScreenH)
  }

  /** A pixel index determines its column and row. */
  lemma PixelIndexParts(x: nat, y: nat)
    ensures PixelIndex(x, y) % ScreenW == x % ScreenW
    ensures PixelIndex(x, y) / ScreenW == y % ScreenH
  {
    DivUnique(PixelIndex(x, y), ScreenW, y % ScreenH, x % ScreenW);
  }

  /** Two coordinates meet at the same pixel exactly when they agree
      modulo the width and modulo the height. */
  lemma PixelIndexSame(x: nat, y: nat, x': nat, y': nat)
    ensures PixelIndex(x, y) == PixelIndex(x', y') <==> x % ScreenW == x' % ScreenW && y % ScreenH == y' % ScreenH
  {
    PixelIndexParts(x, y);
    PixelIndexParts(x', y');
  }

  /** `p ^ 1`: the pixel's lowest bit flipped. */
  function Toggle(p: u8): (r: u8)
    ensures r == if p % 2 == 0 then p + 1 else p - 1
  {
    XorOne(p);
    Bitwise8(Xor, p, 1)
  }

  lemma ToggleTwice(p: u8)
    ensures Toggle(Toggle(p)) == p
  {
    var q := Toggle(p);
    if p % 2 == 0 {
      assert q == p + 1 && q % 2 == 1;
    } else {
      assert q == p - 1 && q % 2 == 0;
    }
  }

  /** A snapshot of the buffer. Values are immutable, so later draws cannot
      change a snapshot already taken. */
  function GetScreen(d: Display): (r: Screen)
    ensures forall p :: 0 <= p < ScreenSize ==> r[p] == d.screen[p]
  {
    d.screen
  }

  /** A snapshot taken before a draw still shows the pixel as it was, and
      differs from a snapshot taken after only at the drawn pixel. */
  lemma SnapshotBeforeDraw(d: Display, x: u16, y: u16)
    ensures var before, after := GetScreen(d), GetScreen(Draw(d, x, y).display);
      && before[PixelIndex(x, y)] == Draw(d, x, y).prior
      && forall p :: 0 <= p < ScreenSize ==> (before[p] == after[p] <==> p != PixelIndex(x, y))
  {
    var i := PixelIndex(x, y);
    var q := d.screen[i];
    assert Toggle(q) != q by { ToggleTwice(q); }
  }

  /** Every pixel dark. */
  function Clear(d: Display): (r: Display)
    ensures forall p :: 0 <= p < ScreenSize ==> r.screen[p] == 0
    ensures Monochrome(r)
  {
    Display(seq(ScreenSize, _ => 0))
  }

  /** The pixel at `(x, y)` (wrapped) toggled, and its value from before. */
  function Draw(d: Display, x: u16, y: u16): (r: Drawn)
    ensures r.prior == d.screen[PixelIndex(x, y)]
    ensures r.display.screen[PixelIndex(x, y)] == Toggle(r.prior)
    ensures forall p :: 0 <= p < ScreenSize && p != PixelIndex(x, y) ==> r.display.screen[p] == d.screen[p]
    ensures Monochrome(d) ==> Monochrome(r.display) && r.display.screen[PixelIndex(x, y)] == 1 - r.prior
  {
    var index := PixelIndex(x, y);
    var prior := d.screen[index];
    Drawn(prior, Display(d.screen[index := Toggle(prior)]))
  }

  /** Drawing the same pixel twice on a cleared display reports it dark,
      then lit, and leaves the display cleared again. */
  lemma DrawTwiceOnCleared(d: Display, x: u16, y: u16)
    ensures var first := Draw(Clear(d), x, y);
      var second := Draw(first.display, x, y);
      first.prior == 0 && second.prior == 1 && second.display == Clear(d)
  {
    var first := Draw(Clear(d), x, y);
    var second := Draw(first.display, x, y);
    assert second.display.screen == Clear(d).screen;
  }

  /** Any pixel drawn twice in a row is restored, whatever it held. */
  lemma DrawTwiceRestores(d: Display, x: u16, y: u16)
    ensures Draw(Draw(d, x, y).display, x, y).display == d
  {
    var index := PixelIndex(x, y);
    var once := Draw(d, x, y);
    var twice := Draw(once.display, x, y);
    assert once.display.screen[index] == Toggle(d.screen[index]);
    ToggleTwice(d.screen[index]);
    assert twice.display.screen == d.screen;
  }

  /** Coordinates wrap: one screen width to the right or one screen height
      down is the same pixel, and `(64, 32)` is `(0, 0)`. */
  lemma DrawWraps(d: Display, x: u16, y: u16)
    ensures x + ScreenW <= 0xFFFF ==> Draw(d, x + ScreenW, y) == Draw(d, x, y)
    ensures y + ScreenH <= 0xFFFF ==> Draw(d, x, y + ScreenH) == Draw(d, x, y)
    ensures Draw(d, 64, 32) == Draw(d, 0, 0)
  {
    ModPeriod(x, ScreenW);
    ModPeriod(y, ScreenH);
    ModPeriod(0, ScreenW);
    ModPeriod(0, ScreenH);
  }

  lemma ModPeriod(a: nat, m: nat)
    requires m >= 1
    ensures (a + m) % m == a % m
  {
    DivUnique(a + m, m, a / m + 1, a % m);
  }
}
