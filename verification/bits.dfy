/** Unsigned machine words as bounded integers, and the bitwise operators
    the interpreter uses, defined on integers bit by bit.

    Wrap-around of the unsigned types is written out with `%`; a shift right
    by `k` is a division by `2^k`; a mask with a single bit is a `Bit` test.
 */
module Bits {

  /** An unsigned 8-bit value. */
  type u8 = x: int | 0 <= x < 0x100

  /** An unsigned 16-bit value. */
  type u16 = x: int | 0 <= x < 0x1_0000

  /** Truncation to 8 bits, as a conversion to an 8-bit unsigned type does. */
  function Wrap8(x: int): u8 {
    x % 0x100
  }

  /** Truncation to 16 bits, as 16-bit unsigned arithmetic does. */
  function Wrap16(x: int): u16 {
    x % 0x1_0000
  }

  function Pow2(n: nat): (r: nat)
    ensures r >= 1
  {
    if n == 0 then 1 else 2 * Pow2(n - 1)
  }

  /** Bit `i` of `v`, counted from the least significant bit. */
  function Bit(v: nat, i: nat): (r: nat)
    ensures r <= 1
  {
    (v / Pow2(i)) % 2
  }

  datatype BitOp = And | Or | Xor

  /** The operator applied to two single bits. */
  function ApplyBit(op: BitOp, p: nat, q: nat): (r: nat)
    requires p <= 1 && q <= 1
    ensures r <= 1
    ensures op == And ==> (r == 1 <==> p == 1 && q == 1)
    ensures op == Or ==> (r == 1 <==> p == 1 || q == 1)
    ensures op == Xor ==> (r == 1 <==> p != q)
  {
    match op
    case And => p * q
    case Or => if p == 1 || q == 1 then 1 else 0
    case Xor => if p != q then 1 else 0
  }

  /** The operator applied to the low `w` bits of `a` and `b`, bit by bit,
      least significant bit first. */
  function Bitwise(op: BitOp, a: nat, b: nat, w: nat): (r: nat)
    ensures r < Pow2(w)
    decreases w
  {
    if w == 0 then 0
    else ApplyBit(op, a % 2, b % 2) + 2 * Bitwise(op, a / 2, b / 2, w - 1)
  }

  /** `x & y`, `x | y` and `x ^ y` on bytes. */
  function Bitwise8(op: BitOp, x: u8, y: u8): (r: u8)
  {
    Pow2Values();
    Bitwise(op, x, y, 8)
  }

  /** `^x` on a byte: every one of the eight bits inverted. */
  function Not8(x: u8): (r: u8)
    ensures Bit(r, 7) == 1 - Bit(x, 7)
  {
    Pow2Values();
    0xFF - x
  }

  lemma Pow2Values()
    ensures Pow2(1) == 2 && Pow2(2) == 4 && Pow2(3) == 8 && Pow2(4) == 16
    ensures Pow2(5) == 32 && Pow2(6) == 64 && Pow2(7) == 128 && Pow2(8) == 256
  {
    assert Pow2(1) == 2;
    assert Pow2(4) == 16;
    assert Pow2(7) == 128;
  }

  /** Division is determined by any quotient and in-range remainder. */
  lemma DivUnique(n: int, d: int, k: int, r: int)
    requires d > 0 && n == d * k + r && 0 <= r < d
    ensures n / d == k
  {
    var z := n / d - k;
    assert d * z == r - n % d by {
      assert n == d * (n / d) + n % d;
      assert d * (n / d) - d * k == d * z;
    }
  }

  /** Dividing `c + 2q` (with `c` a single bit) by `2m` is dividing `q` by `m`. */
  lemma DivTwice(c: nat, q: nat, m: nat)
    requires c <= 1 && m >= 1
    ensures (c + 2 * q) / (2 * m) == q / m
  {
    var k, s := q / m, q % m;
    assert q == m * k + s;
    assert c + 2 * q == (2 * m) * k + (2 * s + c);
    DivUnique(c + 2 * q, 2 * m, k, 2 * s + c);
  }

  /** Bit `i + 1` of `v` is bit `i` of `v / 2`. */
  lemma BitOfHalf(v: nat, i: nat)
    ensures Bit(v, i + 1) == Bit(v / 2, i)
  {
    DivTwice(v % 2, v / 2, Pow2(i));
    assert v == v % 2 + 2 * (v / 2);
  }

  /** Each bit of a bitwise result is the operator applied to the bits of
      the operands in the same position. */
  lemma {:induction false} BitOfBitwise(op: BitOp, a: nat, b: nat, w: nat, i: nat)
    requires i < w
    ensures Bit(Bitwise(op, a, b, w), i) == ApplyBit(op, Bit(a, i), Bit(b, i))
    decreases w
  {
    var lo := ApplyBit(op, a % 2, b % 2);
    var hi := Bitwise(op, a / 2, b / 2, w - 1);
    assert Bitwise(op, a, b, w) == lo + 2 * hi;
    if i == 0 {
      assert Pow2(0) == 1;
    } else {
      BitOfHalf(lo + 2 * hi, i - 1);
      assert (lo + 2 * hi) / 2 == hi;
      BitOfHalf(a, i - 1);
      BitOfHalf(b, i - 1);
      BitOfBitwise(op, a / 2, b / 2, w - 1, i - 1);
    }
  }

  /** The top bit of a byte is the byte divided by 128. */
  lemma TopBit(v: u8)
    ensures Bit(v, 7) == v / 128
  {
    Pow2Values();
  }

  /** The remainder by `2m` splits into the lowest bit and the remainder
      of the rest by `m`. */
  lemma ModTwice(a: nat, m: nat)
    requires m >= 1
    ensures a % (2 * m) == a % 2 + 2 * ((a / 2) % m)
  {
    var h := a / 2;
    assert a == a % 2 + 2 * h;
    assert h == m * (h / m) + h % m;
    assert a == (2 * m) * (h / m) + (a % 2 + 2 * (h % m));
    DivUnique(a, 2 * m, h / m, a % 2 + 2 * (h % m));
  }

  lemma ModSmall(a: nat, m: nat)
    requires a < m
    ensures a % m == a
  {
    DivUnique(a, m, 0, a);
  }

  /** Or-ing or xor-ing with zero keeps the low `w` bits. */
  lemma {:induction false} BitwiseZero(op: BitOp, a: nat, w: nat)
    requires op != And
    ensures Bitwise(op, a, 0, w) == a % Pow2(w)
    decreases w
  {
    if w > 0 {
      BitwiseZero(op, a / 2, w - 1);
      ModTwice(a, Pow2(w - 1));
    }
  }

  /** On single bits, the byte-wide or is the single-bit or. */
  lemma OrOfBits(p: u8, q: u8)
    requires p <= 1 && q <= 1
    ensures Bitwise8(Or, p, q) == ApplyBit(Or, p, q)
  {
    assert p / 2 == 0 && q / 2 == 0 && p % 2 == p && q % 2 == q;
    BitwiseZero(Or, 0, 7);
    assert Bitwise(Or, p / 2, q / 2, 7) == 0;
  }

  /** `p ^ 1` flips the lowest bit of a byte and keeps the others. */
  lemma XorOne(p: u8)
    ensures Bitwise8(Xor, p, 1) == if p % 2 == 0 then p + 1 else p - 1
  {
    var h := p / 2;
    BitwiseZero(Xor, h, 7);
    assert h % Pow2(7) == h by {
      Pow2Values();
      ModSmall(h, Pow2(7));
    }
    assert Bitwise8(Xor, p, 1) == ApplyBit(Xor, p % 2, 1) + 2 * h;
  }
}
