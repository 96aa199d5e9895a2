/** Properties of single instructions and of short runs of the interpreter. */
module Chip8Laws {
  import opened Bits
  import opened Faults
  import opened Chip8
  import Ram
  import Stacks
  import Displays
  import Inputs
  import Sprites
  import Alu

  /** The instruction word at the program counter. */
  function OpcodeAt(e: Emulator): u16
    requires e.pc + 1 < Ram.MemorySize
  {
    e.ram[e.pc] as int * 0x100 + e.ram[e.pc + 1]
  }

  /** Whether the instruction at the program counter can be fetched and has
      the given leading digit. */
  predicate At(e: Emulator, digit1: nat) {
    e.pc + 1 < Ram.MemorySize && OpcodeAt(e) / 0x1000 == digit1
  }

  /** The state with the program counter moved on by `k` bytes; below the
      end of memory this never wraps. */
  function Advanced(e: Emulator, k: nat): Emulator
    requires e.pc + k < 0x1_0000
  {
    e.(pc := e.pc + k)
  }

  /** A tick is the fetched instruction executed on the advanced state. */
  lemma TickFetches(e: Emulator, random: u8)
    requires e.pc + 1 < Ram.MemorySize
    ensures Tick(e, random) == Execute(Advanced(e, 2), OpcodeAt(e), random)
  {
    assert Fetch(e) == Ok(Fetched(OpcodeAt(e), Advanced(e, 2)));
  }

  /** Ticks run one after another, one random byte each. */
  function Run(e: Emulator, randoms: seq<u8>): Result<Emulator>
    decreases |randoms|
  {
    if |randoms| == 0 then Ok(e)
    else
      var next :- Tick(e, randoms[0]);
      Run(next, randoms[1..])
  }

  /** A run that starts with a successful tick continues from its result. */
  lemma RunStep(e: Emulator, randoms: seq<u8>)
    requires |randoms| > 0 && Tick(e, randoms[0]).Ok?
    ensures Run(e, randoms) == Run(Tick(e, randoms[0]).value, randoms[1..])
  {
  }

  /** Loading a program into a new machine puts its first instruction
      where the first fetch finds it. */
  lemma LoadThenFetch(program: seq<u8>)
    requires 2 <= |program| && ProgramAddress + |program| <= Ram.MemorySize
    ensures var loaded := Load(New(), program);
      && Fetch(loaded).Ok?
      && Fetch(loaded).value.opcode == program[0] as int * 0x100 + program[1]
      && Fetch(loaded).value.next.pc == ProgramAddress + 2
  {
  }

  /** The low bytes of the FX instructions the interpreter knows. */
  const KnownFLowBytes: set<nat> := {0x07, 0x0A, 0x15, 0x18, 0x1E, 0x29, 0x33, 0x55, 0x65}

  /** The instruction words the interpreter knows, read off their
      hexadecimal digits. */
  predicate Recognised(opcode: u16) {
    || opcode == 0x0000 || opcode == 0x00E0 || opcode == 0x00EE
    || 1 <= opcode / 0x1000 <= 8
    || (opcode / 0x1000 == 9 && opcode % 0x10 == 0)
    || 0xA <= opcode / 0x1000 <= 0xD
    || (opcode / 0x1000 == 0xE && (opcode % 0x100 == 0x9E || opcode % 0x100 == 0xA1))
    || (opcode / 0x1000 == 0xF && opcode % 0x100 in KnownFLowBytes)
  }

  /** An instruction ends in an unknown-opcode fault exactly when it is not
      one the interpreter knows; every other fault has a different cause. */
  lemma UnknownExactly(e: Emulator, opcode: u16, random: u8)
    ensures Execute(e, opcode, random) == Err(UnknownOpcode(opcode)) <==> !Recognised(opcode)
  {
    NibbleParts(opcode);
  }

  /** 0000 does nothing but move on; 00E0 darkens the whole screen. */
  lemma NoOperationAndClear(e: Emulator, random: u8)
    requires e.pc + 1 < Ram.MemorySize
    ensures OpcodeAt(e) == 0x0000 ==> Tick(e, random) == Ok(Advanced(e, 2))
    ensures OpcodeAt(e) == 0x00E0 ==>
      && Tick(e, random).Ok?
      && Tick(e, random).value == Advanced(e, 2).(display := Tick(e, random).value.display)
      && forall p :: 0 <= p < Displays.ScreenSize ==> Tick(e, random).value.display.screen[p] == 0
  {
    TickFetches(e, random);
  }

  // ---------------------------------------------------------------- jumps

  /** 1NNN sets the program counter to NNN and changes nothing else. */
  lemma Jump(e: Emulator, random: u8)
    requires At(e, 1)
    ensures Tick(e, random) == Ok(e.(pc := OpcodeAt(e) % 0x1000))
  {
    TickFetches(e, random);
  }

  /** 2NNN with room on the stack pushes the address of the next
      instruction and jumps to NNN. */
  lemma CallPushes(e: Emulator, random: u8)
    requires At(e, 2) && e.stack.sp < Stacks.StackSize
    ensures Tick(e, random) == Ok(e.(
      pc := OpcodeAt(e) % 0x1000,
      stack := Stacks.Stack(e.stack.sp + 1, e.stack.addresses[e.stack.sp := e.pc + 2])))
  {
    TickFetches(e, random);
  }

  /** 00EE on a nonempty stack pops the top address into the program
      counter; the popped slot keeps its stale value. */
  lemma ReturnPops(e: Emulator, random: u8)
    requires e.pc + 1 < Ram.MemorySize && OpcodeAt(e) == 0x00EE && e.stack.sp > 0
    ensures Tick(e, random) == Ok(e.(
      pc := e.stack.addresses[e.stack.sp - 1],
      stack := e.stack.(sp := e.stack.sp - 1)))
  {
    TickFetches(e, random);
  }

  /** A jump to its own address leaves the state exactly as it was. */
  lemma JumpToSelf(e: Emulator, random: u8)
    requires e.pc + 1 < Ram.MemorySize && OpcodeAt(e) == 0x1000 + e.pc
    ensures Tick(e, random) == Ok(e)
  {
    TickFetches(e, random);
  }

  /** Parked on a jump to itself, the machine stays put for any number of
      ticks. */
  lemma {:induction false} JumpToSelfForever(e: Emulator, randoms: seq<u8>)
    requires e.pc + 1 < Ram.MemorySize && OpcodeAt(e) == 0x1000 + e.pc
    ensures Run(e, randoms) == Ok(e)
    decreases |randoms|
  {
    if |randoms| > 0 {
      JumpToSelf(e, randoms[0]);
      JumpToSelfForever(e, randoms[1..]);
    }
  }

  /** 2NNN pushes the address after it and jumps to NNN; a 00EE there pops
      that address back, so execution resumes after the call with the stack
      pointer as before. */
  lemma CallThenReturn(e: Emulator, r1: u8, r2: u8)
    requires At(e, 2) && e.stack.sp < Stacks.StackSize
    requires var target := OpcodeAt(e) % 0x1000;
      target + 1 < Ram.MemorySize && e.ram[target] == 0x00 && e.ram[target + 1] == 0xEE
    ensures Tick(e, r1).Ok?
    ensures Tick(e, r1).value.pc == OpcodeAt(e) % 0x1000
    ensures Tick(e, r1).value.stack.sp == e.stack.sp + 1
    ensures var back := Tick(Tick(e, r1).value, r2);
      && back.Ok?
      && back.value.pc == e.pc + 2
      && back.value.stack.sp == e.stack.sp
      && back.value == e.(pc := e.pc + 2, stack := e.stack.(addresses := e.stack.addresses[e.stack.sp := e.pc + 2]))
  {
    CallPushes(e, r1);
    var called := Tick(e, r1).value;
    assert OpcodeAt(called) == 0x00EE;
    ReturnPops(called, r2);
  }

  /** Pressing a key makes it read as down; releasing a key that was up
      after pressing it gives back the machine as it was; pressing a key
      that was down after releasing it does the same. */
  lemma KeyRoundTrips(e: Emulator, key: u8)
    requires key < Inputs.KeysCount
    ensures Inputs.IsKeyPressed(KeyDown(e, key).value.input, key) == Ok(true)
    ensures Inputs.IsKeyPressed(KeyUp(e, key).value.input, key) == Ok(false)
    ensures !e.input.keys[key] ==> KeyUp(KeyDown(e, key).value, key) == Ok(e)
    ensures e.input.keys[key] ==> KeyDown(KeyUp(e, key).value, key) == Ok(e)
  {
    var down := KeyDown(e, key).value;
    var up := KeyUp(e, key).value;
    if !e.input.keys[key] {
      assert KeyUp(down, key).value.input.keys == e.input.keys;
    } else {
      assert KeyDown(up, key).value.input.keys == e.input.keys;
    }
  }

  /** A call with all sixteen slots in use is a stack overflow. */
  lemma CallOnFullStack(e: Emulator, random: u8)
    requires At(e, 2) && e.stack.sp == Stacks.StackSize
    ensures Tick(e, random) == Err(StackOverflow)
  {
    TickFetches(e, random);
  }

  /** A return with nothing on the stack is a stack underflow. */
  lemma ReturnOnEmptyStack(e: Emulator, random: u8)
    requires e.pc + 1 < Ram.MemorySize && OpcodeAt(e) == 0x00EE && e.stack.sp == 0
    ensures Tick(e, random) == Err(StackUnderflow)
  {
    TickFetches(e, random);
  }

  // ---------------------------------------------------------------- skips

  /** 3XNN skips the next instruction exactly when VX equals NN, and
      changes nothing but the program counter. */
  lemma SkipIfEqualImmediate(e: Emulator, random: u8)
    requires At(e, 3)
    ensures var op := Decode(OpcodeAt(e));
      Tick(e, random) == Ok(Advanced(e, if e.registers[op.x] == op.nn then 4 else 2))
  {
    TickFetches(e, random);
  }

  /** 4XNN skips the next instruction exactly when VX differs from NN. */
  lemma SkipIfNotEqualImmediate(e: Emulator, random: u8)
    requires At(e, 4)
    ensures var op := Decode(OpcodeAt(e));
      Tick(e, random) == Ok(Advanced(e, if e.registers[op.x] != op.nn then 4 else 2))
  {
    TickFetches(e, random);
  }

  /** 5XYN, whatever N is, skips the next instruction exactly when VX
      equals VY. */
  lemma SkipIfRegistersEqual(e: Emulator, random: u8)
    requires At(e, 5)
    ensures var op := Decode(OpcodeAt(e));
      Tick(e, random) == Ok(Advanced(e, if e.registers[op.x] == e.registers[op.y] then 4 else 2))
  {
    TickFetches(e, random);
  }

  /** 9XY0 skips the next instruction exactly when VX differs from VY; a
      9XYN with N not zero is unknown. */
  lemma SkipIfRegistersDiffer(e: Emulator, random: u8)
    requires At(e, 9)
    ensures var op := Decode(OpcodeAt(e));
      Tick(e, random) ==
        if op.n != 0 then Err(UnknownOpcode(OpcodeAt(e)))
        else Ok(Advanced(e, if e.registers[op.x] != e.registers[op.y] then 4 else 2))
  {
    TickFetches(e, random);
  }

  /** EX9E skips the next instruction exactly when key VX is down, and a
      VX past 0xF is a fault. */
  lemma SkipIfKeyDown(e: Emulator, random: u8)
    requires At(e, 0xE) && OpcodeAt(e) % 0x100 == 0x9E
    ensures var vx := e.registers[Decode(OpcodeAt(e)).x];
      Tick(e, random) ==
        if vx >= Inputs.KeysCount then Err(KeyOutOfRange(vx))
        else Ok(Advanced(e, if e.input.keys[vx] then 4 else 2))
  {
    TickFetches(e, random);
  }

  /** EXA1 skips the next instruction exactly when key VX is up, and a VX
      past 0xF is a fault. */
  lemma SkipIfKeyUp(e: Emulator, random: u8)
    requires At(e, 0xE) && OpcodeAt(e) % 0x100 == 0xA1
    ensures var vx := e.registers[Decode(OpcodeAt(e)).x];
      Tick(e, random) ==
        if vx >= Inputs.KeysCount then Err(KeyOutOfRange(vx))
        else Ok(Advanced(e, if !e.input.keys[vx] then 4 else 2))
  {
    TickFetches(e, random);
  }

  // ------------------------------------------------------------ registers

  /** Every 8XYN instruction copies VY into VX, whatever N is; VF changes
      only when X is F. */
  lemma EveryEightXYNCopies(e: Emulator, random: u8)
    requires At(e, 8)
    ensures var op := Decode(OpcodeAt(e));
      Tick(e, random) == Ok(Advanced(e, 2).(registers := e.registers[op.x := e.registers[op.y]]))
    ensures Tick(e, random).value.registers[Alu.Flag] != e.registers[Alu.Flag] ==>
      Decode(OpcodeAt(e)).x == Alu.Flag
  {
    TickFetches(e, random);
  }

  /** 8124 with V1 = 0xFF and V2 = 0x01 leaves V1 = 0x01 and VF as it was,
      where an add with carry would give V1 = 0x00 and VF = 1. */
  lemma AddWithCarryIsShadowed(e: Emulator, random: u8)
    requires e.pc + 1 < Ram.MemorySize && OpcodeAt(e) == 0x8124
    requires e.registers[1] == 0xFF && e.registers[2] == 0x01 && e.registers[Alu.Flag] == 0
    ensures Tick(e, random).Ok?
    ensures Tick(e, random).value.registers[1] == 0x01
    ensures Tick(e, random).value.registers[Alu.Flag] == 0
  {
    EveryEightXYNCopies(e, random);
  }

  /** With the arms reachable, 8XYN runs the arm for N, and 8124 on
      V1 = 0xFF, V2 = 0x01 gives V1 = 0x00 with the carry in VF. */
  lemma IntendedEightXYN(e: Emulator, opcode: u16, random: u8)
    requires opcode / 0x1000 == 8
    ensures var op := Decode(opcode);
      ExecuteIntended(e, opcode, random) ==
        if op.n == 0 then Ok(e.(registers := e.registers[op.x := e.registers[op.y]]))
        else match Alu.Arm(e.registers, op.x, op.y, op.n)
          case Some(regs) => Ok(e.(registers := regs))
          case None => Err(UnknownOpcode(opcode))
    ensures opcode == 0x8124 && e.registers[1] == 0xFF && e.registers[2] == 0x01 ==>
      ExecuteIntended(e, opcode, random).Ok? &&
      ExecuteIntended(e, opcode, random).value.registers[1] == 0x00 &&
      ExecuteIntended(e, opcode, random).value.registers[Alu.Flag] == 1
  {
  }

  /** The corrected tick differs from the tick as written only on 8XYN
      instructions. */
  lemma IntendedDiffersOnlyOnEight(e: Emulator, random: u8)
    requires e.pc + 1 < Ram.MemorySize && OpcodeAt(e) / 0x1000 != 8
    ensures TickIntended(e, random) == Tick(e, random)
  {
    TickFetches(e, random);
  }

  /** 6XNN loads NN and 7XNN adds NN modulo 256, neither touching VF
      unless X is F. */
  lemma LoadAndAddImmediate(e: Emulator, random: u8)
    requires At(e, 6) || At(e, 7)
    ensures var op := Decode(OpcodeAt(e));
      var v := if op.digit1 == 6 then op.nn else (e.registers[op.x] + op.nn) % 0x100;
      Tick(e, random) == Ok(Advanced(e, 2).(registers := e.registers[op.x := v]))
  {
    TickFetches(e, random);
  }

  /** CXNN sets VX to the random byte masked by NN: a bit of VX is set
      exactly when it is set in both. */
  lemma RandomMasked(e: Emulator, random: u8)
    requires At(e, 0xC)
    ensures Tick(e, random).Ok?
    ensures var op := Decode(OpcodeAt(e)); var after := Tick(e, random).value;
      && after == Advanced(e, 2).(registers := after.registers)
      && (forall k :: 0 <= k < Alu.RegistersCount && k != op.x ==> after.registers[k] == e.registers[k])
      && forall b :: 0 <= b < 8 ==> (Bit(after.registers[op.x], b) == 1 <==> Bit(random, b) == 1 && Bit(op.nn, b) == 1)
  {
    var op := Decode(OpcodeAt(e));
    forall b | 0 <= b < 8
      ensures Bit(Bitwise8(And, random, op.nn), b) == ApplyBit(And, Bit(random, b), Bit(op.nn, b))
    {
      BitOfBitwise(And, random, op.nn, 8, b);
    }
  }

  // ---------------------------------------------------------------- index

  /** ANNN loads NNN into I and touches nothing else. */
  lemma SetIndex(e: Emulator, random: u8)
    requires At(e, 0xA)
    ensures Tick(e, random) == Ok(Advanced(e, 2).(i := OpcodeAt(e) % 0x1000))
  {
    TickFetches(e, random);
  }

  /** FX1E adds VX to I modulo 2^16, and FX29 sets I to five times the
      whole of VX, so values past 0xF point beyond the font; neither
      touches a register. */
  lemma IndexArithmetic(e: Emulator, random: u8)
    requires At(e, 0xF)
    ensures var op := Decode(OpcodeAt(e)); var vx := e.registers[op.x];
      && (op.nn == 0x1E ==> Tick(e, random) == Ok(Advanced(e, 2).(i := (e.i + vx) % 0x1_0000)))
      && (op.nn == 0x29 ==> Tick(e, random) == Ok(Advanced(e, 2).(i := 5 * vx as int)))
  {
    TickFetches(e, random);
  }

  /** BNNN jumps to V0 + NNN without wrapping. */
  lemma JumpWithOffset(e: Emulator, random: u8)
    requires At(e, 0xB)
    ensures Tick(e, random) == Ok(e.(pc := e.registers[0] + OpcodeAt(e) % 0x1000))
  {
    TickFetches(e, random);
  }

  // --------------------------------------------------------------- timers

  /** FX07 reads the delay timer into VX; FX15 and FX18 load the delay and
      sound timers from VX. */
  lemma TimerTransfers(e: Emulator, random: u8)
    requires e.pc + 1 < Ram.MemorySize && OpcodeAt(e) / 0x1000 == 0xF
    ensures var op := Decode(OpcodeAt(e)); var vx := e.registers[op.x];
      && (op.nn == 0x07 ==> Tick(e, random) == Ok(Advanced(e, 2).(registers := e.registers[op.x := e.delayTimer])))
      && (op.nn == 0x15 ==> Tick(e, random) == Ok(Advanced(e, 2).(delayTimer := vx)))
      && (op.nn == 0x18 ==> Tick(e, random) == Ok(Advanced(e, 2).(soundTimer := vx)))
  {
    TickFetches(e, random);
  }

  /** A sound timer at 1 beeps once and stops at 0; the next tick is silent
      and the timer stays at 0. */
  lemma BeepOnce(e: Emulator)
    requires e.soundTimer == 1
    ensures TickTimers(e).beeped && TickTimers(e).next.soundTimer == 0
    ensures !TickTimers(TickTimers(e).next).beeped && TickTimers(TickTimers(e).next).next.soundTimer == 0
  {
  }

  /** The beeps heard over `n` timer ticks. */
  function Beeps(e: Emulator, n: nat): nat
    decreases n
  {
    if n == 0 then 0
    else
      var t := TickTimers(e);
      (if t.beeped then 1 else 0) + Beeps(t.next, n - 1)
  }

  /** A sound timer set to `s` beeps exactly once over any run of at least
      `s` timer ticks, and not at all before. */
  lemma {:induction false} BeepsExactlyOnce(e: Emulator, n: nat)
    ensures Beeps(e, n) == if 1 <= e.soundTimer <= n then 1 else 0
    decreases n
  {
    if n > 0 {
      BeepsExactlyOnce(TickTimers(e).next, n - 1);
    }
  }

  // --------------------------------------------------------------- drawing

  /** DXYN draws the N rows at I at (VX, VY), as `DrawRows` describes. */
  lemma DrawDispatch(e: Emulator, random: u8)
    requires At(e, 0xD)
    ensures var op := Decode(OpcodeAt(e));
      Tick(e, random) == DrawRows(Advanced(e, 2), op.x, op.y, op.n)
  {
    TickFetches(e, random);
  }

  /** A new, reset or freshly loaded machine has a screen of 0s and 1s. */
  lemma StartsMonochrome(e: Emulator, program: seq<u8>)
    requires ProgramAddress + |program| <= Ram.MemorySize
    ensures Displays.Monochrome(New().display)
    ensures Displays.Monochrome(Reset(e).display)
    ensures Displays.Monochrome(Load(New(), program).display)
  {
  }

  /** No tick leaves a pixel other than 0 or 1 on a screen that had none. */
  lemma TickKeepsMonochrome(e: Emulator, random: u8)
    requires Displays.Monochrome(e.display)
    ensures Tick(e, random).Ok? ==> Displays.Monochrome(Tick(e, random).value.display)
  {
    if e.pc + 1 < Ram.MemorySize {
      TickFetches(e, random);
      ExecuteFrame(Advanced(e, 2), OpcodeAt(e), random);
    }
  }

  /** No run of ticks leaves a pixel other than 0 or 1 on a screen that
      had none. */
  lemma {:induction false} RunKeepsMonochrome(e: Emulator, randoms: seq<u8>)
    requires Displays.Monochrome(e.display)
    ensures Run(e, randoms).Ok? ==> Displays.Monochrome(Run(e, randoms).value.display)
    decreases |randoms|
  {
    if |randoms| > 0 && Tick(e, randoms[0]).Ok? {
      TickKeepsMonochrome(e, randoms[0]);
      RunKeepsMonochrome(Tick(e, randoms[0]).value, randoms[1..]);
    }
  }

  /** On a screen of 0s and 1s, a DXYN that runs leaves VF at 1 when some
      set sprite bit landed on a lit pixel and at 0 otherwise. */
  lemma DrawFlag(e: Emulator, random: u8)
    requires At(e, 0xD) && Displays.Monochrome(e.display)
    ensures Tick(e, random).Ok? ==>
      var op := Decode(OpcodeAt(e));
      var vf := Tick(e, random).value.registers[Alu.Flag];
      && vf <= 1
      && (vf == 1 <==> Sprites.Collides(e.display, SpriteRows(e.ram, e.i, op.n), e.registers[op.x], e.registers[op.y]))
  {
    DrawDispatch(e, random);
  }

  /** After any run from a screen of 0s and 1s (a new, reset or freshly
      loaded machine, by `StartsMonochrome`), a DXYN that runs leaves VF as
      `DrawFlag` says. */
  lemma RunDrawFlag(e: Emulator, randoms: seq<u8>, random: u8)
    requires Displays.Monochrome(e.display)
    ensures var s := Run(e, randoms);
      s.Ok? && At(s.value, 0xD) && Tick(s.value, random).Ok? ==>
        var op := Decode(OpcodeAt(s.value));
        var vf := Tick(s.value, random).value.registers[Alu.Flag];
        && vf <= 1
        && (vf == 1 <==>
              Sprites.Collides(s.value.display, SpriteRows(s.value.ram, s.value.i, op.n),
                               s.value.registers[op.x], s.value.registers[op.y]))
  {
    RunKeepsMonochrome(e, randoms);
    var s := Run(e, randoms);
    if s.Ok? && At(s.value, 0xD) {
      DrawFlag(s.value, random);
    }
  }

  // ----------------------------------------------------------------- keys

  /** FX0A with no key down leaves the whole state as it was, program
      counter included, so the same instruction runs again next tick. */
  lemma WaitWithoutKey(e: Emulator, random: u8)
    requires At(e, 0xF) && OpcodeAt(e) % 0x100 == 0x0A
    requires forall k :: 0 <= k < Inputs.KeysCount ==> !e.input.keys[k]
    ensures Tick(e, random) == Ok(e)
  {
    TickFetches(e, random);
  }

  /** FX0A with keys down stores the lowest of them in VX and moves on. */
  lemma WaitWithKey(e: Emulator, random: u8)
    requires At(e, 0xF) && OpcodeAt(e) % 0x100 == 0x0A
    requires exists k :: 0 <= k < Inputs.KeysCount && e.input.keys[k]
    ensures var x := Decode(OpcodeAt(e)).x; var after := Tick(e, random);
      && after.Ok?
      && after.value == Advanced(e, 2).(registers := e.registers[x := after.value.registers[x]])
      && after.value.registers[x] < Inputs.KeysCount
      && e.input.keys[after.value.registers[x]]
      && forall k :: 0 <= k < after.value.registers[x] ==> !e.input.keys[k]
  {
    TickFetches(e, random);
  }

  // --------------------------------------------------------------- memory

  /** FX33 writes the decimal digits of VX at I, as `StoreDigits`
      describes. */
  lemma DigitsDispatch(e: Emulator, random: u8)
    requires At(e, 0xF) && OpcodeAt(e) % 0x100 == 0x33
    ensures Tick(e, random) == StoreDigits(Advanced(e, 2), e.registers[Decode(OpcodeAt(e)).x])
  {
    TickFetches(e, random);
  }

  /** 123 in decimal is the bytes 1, 2, 3. */
  lemma DigitsOf123(e: Emulator)
    requires e.i + 3 <= Ram.MemorySize
    ensures StoreDigits(e, 123).Ok?
    ensures StoreDigits(e, 123).value.ram[e.i .. e.i + 3] == [1, 2, 3]
  {
    var ram := StoreDigits(e, 123).value.ram;
    assert ram[e.i] == 1 && ram[e.i + 1] == 2 && ram[e.i + 2] == 3;
  }

  /** FX55 and FX65 store and load V0 .. VX at I, as `StoreRegisters` and
      `LoadRegisters` describe. */
  lemma StoreLoadDispatch(e: Emulator, random: u8)
    requires At(e, 0xF)
    ensures var x := Decode(OpcodeAt(e)).x;
      && (OpcodeAt(e) % 0x100 == 0x55 ==> Tick(e, random) == StoreRegisters(Advanced(e, 2), x))
      && (OpcodeAt(e) % 0x100 == 0x65 ==> Tick(e, random) == LoadRegisters(Advanced(e, 2), x))
  {
    TickFetches(e, random);
  }

  /** Registers stored by FX55 come back unchanged through FX65 with the
      same X and I, whatever happened to the registers in between. */
  lemma StoreThenLoad(e: Emulator, x: nat, scratch: Registers)
    requires x < Alu.RegistersCount && e.i + x + 1 <= Ram.MemorySize
    ensures StoreRegisters(e, x).Ok?
    ensures var stored := StoreRegisters(e, x).value;
      var loaded := LoadRegisters(stored.(registers := scratch), x);
      loaded.Ok? && loaded.value.registers[..x + 1] == e.registers[..x + 1]
  {
    var stored := StoreRegisters(e, x).value;
    var loaded := LoadRegisters(stored.(registers := scratch), x).value;
    assert loaded.registers[..x + 1] == e.registers[..x + 1];
  }

  // ------------------------------------------------------------- whole runs

  /** Reset forgets everything: it yields the state of a new machine. */
  lemma ResetIsNew(e: Emulator)
    ensures Reset(e) == New()
  {
    assert Reset(e).display.screen == New().display.screen;
    assert Reset(e).ram == New().ram;
    assert Reset(e).registers == New().registers;
    assert Reset(e).stack == New().stack;
    assert Reset(e).input == New().input;
  }

  /** A program that clears the screen and jumps back to itself. */
  const ClearAndLoop: seq<u8> := [0x00, 0xE0, 0x12, 0x00]

  /** The clear-and-loop program loaded into a new machine, with its
      program counter on the clear (`false`) or on the jump (`true`). */
  function LoopState(onJump: bool): Emulator {
    var e := Load(New(), ClearAndLoop);
    if onJump then e.(pc := 0x202) else e
  }

  /** The clear-and-loop program alternates between its two instructions and
      never changes anything else. */
  lemma ClearAndLoopRuns(onJump: bool, randoms: seq<u8>)
    ensures Run(LoopState(onJump), randoms) == Ok(LoopState(onJump != (|randoms| % 2 == 1)))
  {
    LoopStateOnLoop(onJump);
    ClearAndLoopForever(LoopState(onJump), randoms);
  }

  /** Both loop states run the clear-and-loop program, and each is the other
      with its program counter moved. */
  lemma LoopStateOnLoop(onJump: bool)
    ensures OnClearAndLoop(LoopState(onJump))
    ensures LoopState(onJump).(pc := 0x402 - LoopState(onJump).pc) == LoopState(!onJump)
  {
    var e := LoopState(onJump);
    assert e.display.screen == seq(Displays.ScreenSize, _ => 0);
    assert e.ram[0x200] == 0x00 && e.ram[0x201] == 0xE0 && e.ram[0x202] == 0x12 && e.ram[0x203] == 0x00;
  }

  /** A state running the clear-and-loop program at 0x200 on a dark screen,
      on either of its two instructions. */
  predicate OnClearAndLoop(e: Emulator) {
    && e.ram[0x200] == 0x00 && e.ram[0x201] == 0xE0 && e.ram[0x202] == 0x12 && e.ram[0x203] == 0x00
    && (e.pc == 0x200 || e.pc == 0x202)
    && forall p :: 0 <= p < Displays.ScreenSize ==> e.display.screen[p] == 0
  }

  /** From either instruction of the clear-and-loop program, a run of ticks
      only moves the program counter to and fro: after an even number of
      ticks it is where it started, after an odd number on the other
      instruction. */
  lemma {:induction false} ClearAndLoopForever(e: Emulator, randoms: seq<u8>)
    requires OnClearAndLoop(e)
    ensures Run(e, randoms) == Ok(if |randoms| % 2 == 0 then e else e.(pc := 0x402 - e.pc))
    decreases |randoms|
  {
    if |randoms| > 0 {
      var other := e.(pc := 0x402 - e.pc);
      ClearAndLoopTick(e, randoms[0]);
      RunStep(e, randoms);
      assert OnClearAndLoop(other);
      ClearAndLoopForever(other, randoms[1..]);
      assert other.(pc := 0x402 - other.pc) == e;
    }
  }

  /** One tick of the clear-and-loop program moves to the other
      instruction: the clear changes nothing on a dark screen and the jump
      returns to the clear. */
  lemma ClearAndLoopTick(e: Emulator, random: u8)
    requires OnClearAndLoop(e)
    ensures Tick(e, random) == Ok(e.(pc := 0x402 - e.pc))
  {
    TickFetches(e, random);
    if e.pc == 0x202 {
      assert OpcodeAt(e) == 0x1200;
    } else {
      assert OpcodeAt(e) == 0x00E0;
      var cleared := Displays.Clear(e.display);
      assert cleared == e.display by {
        assert cleared.screen == e.display.screen;
      }
    }
  }

  /** The clear-and-loop program loaded into a new machine starts on its
      first instruction with a dark screen. */
  lemma LoopStartsDark()
    ensures Load(New(), ClearAndLoop) == LoopState(false)
    ensures LoopState(false).pc == 0x200
    ensures forall p :: 0 <= p < Displays.ScreenSize ==> LoopState(false).display.screen[p] == 0
  {
    assert LoopState(false).display.screen == seq(Displays.ScreenSize, _ => 0);
  }

  /** A program that sets VA to 5 and then waits for a key into VA. */
  const SetThenWait: seq<u8> := [0x6A, 0x05, 0xFA, 0x0A]

  /** While no key is down the wait repeats with VA = 5 and the program
      counter on the wait; pressing key 3 then stores 3 in VA and moves on. */
  lemma SetThenWaitForKey(r0: u8, idle: seq<u8>, r1: u8)
    ensures var start := Load(New(), SetThenWait);
      && Tick(start, r0).Ok?
      && Run(Tick(start, r0).value, idle) == Tick(start, r0)
      && Tick(start, r0).value.registers[0xA] == 5
      && Tick(start, r0).value.pc == 0x202
    ensures var waiting := Tick(Load(New(), SetThenWait), r0).value;
      var pressed := KeyDown(waiting, 3).value;
      && Tick(pressed, r1).Ok?
      && Tick(pressed, r1).value.registers[0xA] == 3
      && Tick(pressed, r1).value.pc == 0x204
  {
    var start := Load(New(), SetThenWait);
    assert start.ram[0x200] == 0x6A && start.ram[0x201] == 0x05;
    assert start.ram[0x202] == 0xFA && start.ram[0x203] == 0x0A;
    TickFetches(start, r0);
    assert OpcodeAt(start) == 0x6A05;
    var waiting := Tick(start, r0).value;
    assert waiting == start.(pc := 0x202, registers := start.registers[0xA := 5]);
    assert OpcodeAt(waiting) == 0xFA0A;
    WaitStays(waiting, idle);
    var pressed := KeyDown(waiting, 3).value;
    assert pressed == waiting.(input := pressed.input);
    assert forall k :: 0 <= k < Inputs.KeysCount ==> (pressed.input.keys[k] <==> k == 3);
    WaitWithKey(pressed, r1);
  }

  /** On FX0A with no key down, any number of ticks changes nothing. */
  lemma {:induction false} WaitStays(e: Emulator, randoms: seq<u8>)
    requires At(e, 0xF) && OpcodeAt(e) % 0x100 == 0x0A
    requires forall k :: 0 <= k < Inputs.KeysCount ==> !e.input.keys[k]
    ensures Run(e, randoms) == Ok(e)
    decreases |randoms|
  {
    if |randoms| > 0 {
      WaitWithoutKey(e, randoms[0]);
      WaitStays(e, randoms[1..]);
    }
  }
}
