/** The register-to-register arithmetic of the 8XYN family as its arms are
    written: or, and, xor, add with carry, subtract with borrow, shift right,
    reverse subtract and shift left, each writing the flag register VF.

    The interpreter's dispatch never reaches these arms, because the case
    for the whole 8XYN family that copies VY into VX comes first; they are
    kept here as the behaviour the arms themselves define. Every arm assigns
    in the Go code's order, so when X is F the later write to VF wins.
 */
module Alu {
  import opened Bits
  import Overflow

  const RegistersCount: nat := 16
  const Flag: nat := 0xF

  type Registers = s: seq<u8> | |s| == RegistersCount witness seq(16, _ => 0)

  /** Register `x` set to `v`. */
  function Set(regs: Registers, x: nat, v: u8): (r: Registers)
    requires x < RegistersCount
  {
    regs[x := v]
  }

  /** `VX := VX op VY` for or (1), and (2) and xor (3). */
  function Logic(regs: Registers, x: nat, y: nat, op: BitOp): (r: Registers)
    requires x < RegistersCount && y < RegistersCount
    ensures forall b :: 0 <= b < 8 ==> Bit(r[x], b) == ApplyBit(op, Bit(regs[x], b), Bit(regs[y], b))
    ensures forall k :: 0 <= k < RegistersCount && k != x ==> r[k] == regs[k]
  {
    var v := Bitwise8(op, regs[x], regs[y]);
    forall b | 0 <= b < 8
      ensures Bit(v, b) == ApplyBit(op, Bit(regs[x], b), Bit(regs[y], b))
    {
      BitOfBitwise(op, regs[x], regs[y], 8, b);
    }
    Set(regs, x, v)
  }

  /** 8XY4: `VX, VF = Add8(VX, VY, 0)`. */
  function AddCarry(regs: Registers, x: nat, y: nat): (r: Registers)
    requires x < RegistersCount && y < RegistersCount
    ensures r[Flag] == if regs[x] as int + regs[y] > 0xFF then 1 else 0
    ensures x != Flag ==> r[x] == (regs[x] as int + regs[y]) % 0x100
    ensures x != Flag ==> r[x] as int + 0x100 * r[Flag] as int == regs[x] as int + regs[y]
    ensures forall k :: 0 <= k < RegistersCount && k != x && k != Flag ==> r[k] == regs[k]
  {
    var sum := Overflow.Add8(regs[x], regs[y], 0);
    Set(Set(regs, x, sum.value), Flag, sum.out)
  }

  /** VF is 1 when there was no borrow: `VF ^= 1` applied to a borrow bit. */
  function NoBorrow(borrow: u8): (r: u8)
    requires borrow <= 1
    ensures r == 1 - borrow
  {
    XorOne(borrow);
    Bitwise8(Xor, borrow, 1)
  }

  /** 8XY5: `VX, VF = Sub8(VX, VY, 0)` then `VF ^= 1`. */
  function SubBorrow(regs: Registers, x: nat, y: nat): (r: Registers)
    requires x < RegistersCount && y < RegistersCount
    ensures r[Flag] == if regs[x] >= regs[y] then 1 else 0
    ensures x != Flag ==> r[x] == (regs[x] as int - regs[y]) % 0x100
    ensures forall k :: 0 <= k < RegistersCount && k != x && k != Flag ==> r[k] == regs[k]
  {
    var diff := Overflow.Sub8(regs[x], regs[y], 0);
    // VF holds the borrow after the paired assignment, then flips.
    Set(Set(regs, x, diff.value), Flag, NoBorrow(diff.out))
  }

  /** 8XY7: `VX, VF = Sub8(VY, VX, 0)` then `VF ^= 1`. */
  function ReverseSubBorrow(regs: Registers, x: nat, y: nat): (r: Registers)
    requires x < RegistersCount && y < RegistersCount
    ensures r[Flag] == if regs[y] >= regs[x] then 1 else 0
    ensures x != Flag ==> r[x] == (regs[y] as int - regs[x]) % 0x100
    ensures forall k :: 0 <= k < RegistersCount && k != x && k != Flag ==> r[k] == regs[k]
  {
    var diff := Overflow.Sub8(regs[y], regs[x], 0);
    // VF holds the borrow after the paired assignment, then flips.
    Set(Set(regs, x, diff.value), Flag, NoBorrow(diff.out))
  }

  /** 8XY6: `VF = VX & 1` then `VX >>= 1`. */
  function ShiftRight(regs: Registers, x: nat): (r: Registers)
    requires x < RegistersCount
    ensures x != Flag ==> r[Flag] == regs[x] % 2 && r[x] == regs[x] / 2
    ensures x != Flag ==> 2 * r[x] + r[Flag] == regs[x]
    ensures x == Flag ==> r[Flag] == 0
    ensures forall k :: 0 <= k < RegistersCount && k != x && k != Flag ==> r[k] == regs[k]
  {
    var r1 := Set(regs, Flag, regs[x] % 2);
    Set(r1, x, r1[x] / 2)
  }

  /** 8XYE: `VF = (VX >> 7) & 1` then `VX <<= 1`. */
  function ShiftLeft(regs: Registers, x: nat): (r: Registers)
    requires x < RegistersCount
    ensures x != Flag ==> r[Flag] == regs[x] / 0x80 && r[x] == (2 * regs[x] as int) % 0x100
    ensures x != Flag ==> r[x] as int + 0x100 * r[Flag] as int == 2 * regs[x] as int
    ensures x == Flag ==> r[Flag] == 2 * (regs[x] / 0x80)
    ensures forall k :: 0 <= k < RegistersCount && k != x && k != Flag ==> r[k] == regs[k]
  {
    var r1 := Set(regs, Flag, (regs[x] / 0x80) % 2);
    Set(r1, x, (2 * r1[x] as int) % 0x100)
  }

  /** The arm for low nibble `n`, or `None` when no arm handles it. */
  function Arm(regs: Registers, x: nat, y: nat, n: nat): (r: Option<Registers>)
    requires x < RegistersCount && y < RegistersCount
    ensures r.Some? <==> n in {1, 2, 3, 4, 5, 6, 7, 0xE}
  {
    if n == 1 then Some(Logic(regs, x, y, Or))
    else if n == 2 then Some(Logic(regs, x, y, And))
    else if n == 3 then Some(Logic(regs, x, y, Xor))
    else if n == 4 then Some(AddCarry(regs, x, y))
    else if n == 5 then Some(SubBorrow(regs, x, y))
    else if n == 6 then Some(ShiftRight(regs, x))
    else if n == 7 then Some(ReverseSubBorrow(regs, x, y))
    else if n == 0xE then Some(ShiftLeft(regs, x))
    else None
  }

  datatype Option<+T> = None | Some(value: T)

  /** Add with carry on 0xFF + 0x01 and 0x01 + 0x01. */
  lemma AddCarryExamples(regs: Registers)
    requires regs[1] == 0xFF && regs[2] == 0x01 && regs[3] == 0x01
    ensures AddCarry(regs, 1, 2)[1] == 0x00 && AddCarry(regs, 1, 2)[Flag] == 1
    ensures AddCarry(regs, 3, 2)[3] == 0x02 && AddCarry(regs, 3, 2)[Flag] == 0
  {
  }

  /** Subtract with borrow on 0x01 - 0x02 and 0x02 - 0x01. */
  lemma SubBorrowExamples(regs: Registers)
    requires regs[1] == 0x01 && regs[2] == 0x02
    ensures SubBorrow(regs, 1, 2)[1] == 0xFF && SubBorrow(regs, 1, 2)[Flag] == 0
    ensures SubBorrow(regs, 2, 1)[2] == 0x01 && SubBorrow(regs, 2, 1)[Flag] == 1
  {
  }
}
