/** Eight-bit add-with-carry and subtract-with-borrow.

    `Add8` widens to 16 bits, keeps the low byte as the sum and the high byte
    as the carry. `Sub8` keeps the wrapped difference and computes the borrow
    from the top bits of the operands and of the difference, with the same
    bitwise formula as the Go `Sub8`.
 */
module Overflow {
  import opened Bits

  /** A byte result together with the carry (or borrow) out of bit 7. */
  datatype Carried = Carried(value: u8, out: u8)

  /** Sum with carry. The carry input is meant to be 0 or 1. */
  function Add8(x: u8, y: u8, carry: u8): (r: Carried)
    ensures r.value == (x + y + carry) % 0x100
    ensures carry <= 1 ==> r.out <= 1 && r.value + 0x100 * r.out == x + y + carry
    ensures carry <= 1 ==> (r.out == 1 <==> x + y + carry > 0xFF)
  {
    // At most 3 * 255, so the 16-bit sum never wraps.
    var sum16: u16 := x + y + carry;
    Carried(Wrap8(sum16), Wrap8(sum16 / 0x100))
  }

  /** The borrow formula `((^x & y) | (^(x ^ y) & diff)) >> 7`. It depends
      only on bit 7 of its three inputs: it is 1 when x's top bit is clear
      and y's set, or when x and y agree there and diff's top bit is set. */
  function BorrowBit(x: u8, y: u8, diff: u8): (r: nat)
    ensures r == if (x / 0x80 == 0 && y / 0x80 == 1) || (x / 0x80 == y / 0x80 && diff / 0x80 == 1) then 1 else 0
  {
    var fromTop := Bitwise8(And, Not8(x), y);
    var fromBelow := Bitwise8(And, Not8(Bitwise8(Xor, x, y)), diff);
    var all := Bitwise8(Or, fromTop, fromBelow);
    BitOfBitwise(Xor, x, y, 8, 7);
    BitOfBitwise(And, Not8(x), y, 8, 7);
    BitOfBitwise(And, Not8(Bitwise8(Xor, x, y)), diff, 8, 7);
    BitOfBitwise(Or, fromTop, fromBelow, 8, 7);
    TopBit(x);
    TopBit(y);
    TopBit(diff);
    TopBit(all);
    all / 0x80
  }

  /** With a borrow input of 0 or 1, the top-bit formula says exactly
      whether the subtraction went below zero. */
  lemma BorrowIsCompare(x: u8, y: u8, borrow: u8, diff: u8)
    requires diff == (x - y - borrow) % 0x100
    ensures borrow <= 1 ==> (x < y + borrow ==> diff == x - y - borrow + 0x100)
    ensures borrow <= 1 ==> (x >= y + borrow ==> diff == x - y - borrow)
    ensures borrow <= 1 ==>
      (((x / 0x80 == 0 && y / 0x80 == 1) || (x / 0x80 == y / 0x80 && diff / 0x80 == 1))
       <==> x < y + borrow)
  {
    if borrow > 1 {
    } else if x < y + borrow {
      assert diff == x - y - borrow + 0x100;
    } else {
      assert diff == x - y - borrow;
    }
  }

  /** Difference with borrow. The borrow input is meant to be 0 or 1. */
  function Sub8(x: u8, y: u8, borrow: u8): (r: Carried)
    ensures r.value == (x - y - borrow) % 0x100
    ensures r.out <= 1
    ensures borrow <= 1 ==> (r.out == 1 <==> x < y + borrow)
    ensures borrow <= 1 ==> r.value + y + borrow == x + 0x100 * r.out
  {
    var diff := Wrap8(x - y - borrow);
    BorrowIsCompare(x, y, borrow, diff);
    Carried(diff, BorrowBit(x, y, diff))
  }

  /** Adding back what was subtracted restores the minuend, and the addition
      carries exactly when the subtraction borrowed. */
  lemma AddUndoesSub(x: u8, y: u8)
    ensures Add8(Sub8(x, y, 0).value, y, 0).value == x
    ensures Add8(Sub8(x, y, 0).value, y, 0).out == Sub8(x, y, 0).out
  {
  }

  /** Subtracting `y` from the wrapped sum `x + y` gives `x` back, and borrows
      exactly when the addition carried. */
  lemma SubUndoesAdd(x: u8, y: u8)
    ensures Sub8(Add8(x, y, 0).value, y, 0).value == x
    ensures Sub8(Add8(x, y, 0).value, y, 0).out == Add8(x, y, 0).out
  {
  }
}
