/** The CHIP-8 interpreter: the machine state, fetch, decode and the ordered
    dispatch of one instruction, the 60 Hz timer tick, reset, program load
    and key events.

    Each call that would end the process is a `Fault`; the random byte of
    CXNN is a parameter; the beep is a boolean output of the timer tick.
 */
module Chip8 {
  import opened Bits
  import opened Faults
  import Ram
  import Stacks
  import Displays
  import Inputs
  import Sprites
  import Alu

  /** Where programs are loaded and execution starts. */
  const ProgramAddress: u16 := 0x200

  /** The bytes between two font glyphs. */
  const GlyphStride: nat := 5

  type Registers = Alu.Registers

  datatype Emulator = Emulator(
    display: Displays.Display,
    ram: Ram.Memory,
    pc: u16,              // program counter
    registers: Registers, // V0 .. VF
    i: u16,               // index register
    stack: Stacks.Stack,
    delayTimer: u8,
    soundTimer: u8,
    input: Inputs.Input)

  /** A fetched instruction and the state with the program counter advanced. */
  datatype Fetched = Fetched(opcode: u16, next: Emulator)

  /** The state after a timer tick and whether the tick sounded the beep. */
  datatype Timed = Timed(next: Emulator, beeped: bool)

  /** The four hexadecimal digits of an instruction, most significant
      first, and its low byte and low twelve bits. */
  datatype Decoded = Decoded(digit1: nat, x: nat, y: nat, n: nat, nn: u8, nnn: u16)

  /** A new machine: everything zero except the program counter. */
  function New(): (r: Emulator)
    ensures r.pc == ProgramAddress && r.i == 0 && r.delayTimer == 0 && r.soundTimer == 0
    ensures forall k :: 0 <= k < Alu.RegistersCount ==> r.registers[k] == 0
  {
    Emulator(
      Displays.Display(seq(Displays.ScreenSize, _ => 0)),
      seq(Ram.MemorySize, _ => 0),
      ProgramAddress,
      seq(Alu.RegistersCount, _ => 0),
      0,
      Stacks.Stack(0, seq(Stacks.StackSize, _ => 0)),
      0,
      0,
      Inputs.Input(seq(Inputs.KeysCount, _ => false)))
  }

  /** Every component cleared and the program counter back at the load
      address; nothing of the previous state survives. */
  function Reset(e: Emulator): (r: Emulator)
    ensures r.pc == ProgramAddress && r.i == 0 && r.delayTimer == 0 && r.soundTimer == 0
    ensures forall k :: 0 <= k < Alu.RegistersCount ==> r.registers[k] == 0
    ensures forall a :: 0 <= a < Ram.MemorySize ==> r.ram[a] == 0
    ensures forall p :: 0 <= p < Displays.ScreenSize ==> r.display.screen[p] == 0
    ensures r.stack.sp == 0 && forall k :: 0 <= k < Stacks.StackSize ==> r.stack.addresses[k] == 0
    ensures forall k :: 0 <= k < Inputs.KeysCount ==> !r.input.keys[k]
  {
    Emulator(
      Displays.Clear(e.display),
      Ram.Clear(e.ram),
      ProgramAddress,
      seq(Alu.RegistersCount, _ => 0),
      0,
      Stacks.Clear(e.stack),
      0,
      0,
      Inputs.Clear(e.input))
  }

  /** A program image placed at the load address; the caller guarantees
      that it fits. */
  function Load(e: Emulator, data: seq<u8>): (r: Emulator)
    requires ProgramAddress + |data| <= Ram.MemorySize
    ensures forall k :: 0 <= k < |data| ==> r.ram[ProgramAddress + k] == data[k]
    ensures forall a :: 0 <= a < ProgramAddress ==> r.ram[a] == e.ram[a]
    ensures forall a :: ProgramAddress + |data| <= a < Ram.MemorySize ==> r.ram[a] == e.ram[a]
    ensures r == e.(ram := r.ram)
  {
    e.(ram := Ram.Copy(e.ram, ProgramAddress, data))
  }

  /** Key `key` pressed, or a fault for a key past 0xF. */
  function KeyDown(e: Emulator, key: u8): (r: Result<Emulator>)
    ensures r.Ok? <==> key < Inputs.KeysCount
    ensures r.Err? ==> r.fault == KeyOutOfRange(key)
    ensures r.Ok? ==> r.value.input.keys[key] && r.value == e.(input := r.value.input)
    ensures r.Ok? ==> forall k :: 0 <= k < Inputs.KeysCount && k != key ==> r.value.input.keys[k] == e.input.keys[k]
  {
    var input :- Inputs.KeyPressed(e.input, key, true);
    Ok(e.(input := input))
  }

  /** Key `key` released, or a fault for a key past 0xF. */
  function KeyUp(e: Emulator, key: u8): (r: Result<Emulator>)
    ensures r.Ok? <==> key < Inputs.KeysCount
    ensures r.Err? ==> r.fault == KeyOutOfRange(key)
    ensures r.Ok? ==> !r.value.input.keys[key] && r.value == e.(input := r.value.input)
    ensures r.Ok? ==> forall k :: 0 <= k < Inputs.KeysCount && k != key ==> r.value.input.keys[k] == e.input.keys[k]
  {
    var input :- Inputs.KeyPressed(e.input, key, false);
    Ok(e.(input := input))
  }

  /** A snapshot of the screen for rendering. */
  function GetDisplayScreen(e: Emulator): (r: Displays.Screen)
    ensures forall p :: 0 <= p < Displays.ScreenSize ==> r[p] == e.display.screen[p]
  {
    Displays.GetScreen(e.display)
  }

  /** The instruction at the program counter, high byte first, and the state
      with the program counter advanced by two in 16-bit arithmetic. */
  function Fetch(e: Emulator): (r: Result<Fetched>)
    ensures r.Ok? <==> e.pc + 1 < Ram.MemorySize
    ensures r.Err? ==> r.fault == MemoryOutOfBounds(Ram.FirstOutside(e.pc))
    ensures r.Ok? ==> r.value.opcode / 0x100 == e.ram[e.pc] && r.value.opcode % 0x100 == e.ram[e.pc + 1]
    ensures r.Ok? ==> r.value.next == e.(pc := e.pc + 2)
  {
    var hi :- Ram.Read(e.ram, e.pc);
    var lo :- Ram.Read(e.ram, Wrap16(e.pc + 1));
    // `hi << 8 | lo`: the two bytes occupy disjoint bits.
    Ok(Fetched(hi * 0x100 + lo, e.(pc := Wrap16(e.pc + 2))))
  }

  /** The nibbles `(op & 0xF000) >> 12`, `(op & 0x0F00) >> 8`,
      `(op & 0x00F0) >> 4`, `op & 0x000F`, and `op & 0xFF`, `op & 0xFFF`. */
  function Decode(opcode: u16): (d: Decoded)
    ensures d.digit1 < 16 && d.x < 16 && d.y < 16 && d.n < 16
    ensures opcode == 0x1000 * d.digit1 + 0x100 * d.x + 0x10 * d.y + d.n
    ensures d.nn == 0x10 * d.y + d.n && d.nnn == 0x100 * d.x + d.nn
  {
    NibbleParts(opcode);
    Decoded(opcode / 0x1000, (opcode / 0x100) % 0x10, (opcode / 0x10) % 0x10, opcode % 0x10,
            opcode % 0x100, opcode % 0x1000)
  }

  /** How the byte and nibble quotients and remainders of an instruction
      word fit together. */
  lemma NibbleParts(opcode: u16)
    ensures opcode == 0x100 * (opcode / 0x100) + opcode % 0x100
    ensures opcode / 0x100 == 0x10 * (opcode / 0x1000) + (opcode / 0x100) % 0x10
    ensures opcode % 0x100 == 0x10 * ((opcode / 0x10) % 0x10) + opcode % 0x10
    ensures opcode % 0x1000 == 0x100 * ((opcode / 0x100) % 0x10) + opcode % 0x100
  {
    var hi, lo := opcode / 0x100, opcode % 0x100;
    assert hi == 0x10 * (hi / 0x10) + hi % 0x10;
    assert lo == 0x10 * (lo / 0x10) + lo % 0x10;
    DivUnique(opcode, 0x1000, hi / 0x10, 0x100 * (hi % 0x10) + lo);
    DivUnique(opcode, 0x10, 0x10 * hi + lo / 0x10, lo % 0x10);
    DivUnique(opcode / 0x10, 0x10, hi, lo / 0x10);
  }

  /** The next instruction skipped when `cond` holds. */
  function SkipIf(e: Emulator, cond: bool): Emulator {
    if cond then e.(pc := Wrap16(e.pc + 2)) else e
  }

  /** Register `x` set to `v`. */
  function SetV(e: Emulator, x: nat, v: u8): Emulator
    requires x < Alu.RegistersCount
  {
    e.(registers := e.registers[x := v])
  }

  /** The bytes of a sprite of `n` rows at `i`. */
  function SpriteRows(ram: Ram.Memory, i: u16, n: nat): seq<u8>
    requires n == 0 || i + n <= Ram.MemorySize
  {
    if n == 0 then [] else ram[i..i + n]
  }

  /** DXYN: the N rows at I drawn at (VX, VY). The first row past the end of
      memory faults. Otherwise exactly the pixels under set bits, wrapped
      around the screen, are toggled; on a screen of 0s and 1s VF ends as 1
      exactly when a set bit landed on a lit pixel, and as 0 otherwise. */
  function DrawRows(e: Emulator, x: nat, y: nat, n: nat): (r: Result<Emulator>)
    requires x < Alu.RegistersCount && y < Alu.RegistersCount && n < 0x10
    ensures r.Ok? <==> n == 0 || e.i + n <= Ram.MemorySize
    ensures r.Err? ==> r.fault == MemoryOutOfBounds(Ram.FirstOutside(e.i))
    ensures r.Ok? ==>
      r.value == e.(display := r.value.display, registers := e.registers[Alu.Flag := r.value.registers[Alu.Flag]])
    ensures r.Ok? ==> forall p :: 0 <= p < Displays.ScreenSize ==>
      r.value.display.screen[p] ==
        if Sprites.Covers(SpriteRows(e.ram, e.i, n), e.registers[x], e.registers[y], p)
        then Displays.Toggle(e.display.screen[p]) else e.display.screen[p]
    ensures r.Ok? && Displays.Monochrome(e.display) ==>
      && Displays.Monochrome(r.value.display)
      && r.value.registers[Alu.Flag] <= 1
      && (r.value.registers[Alu.Flag] == 1 <==>
            Sprites.Collides(e.display, SpriteRows(e.ram, e.i, n), e.registers[x], e.registers[y]))
  {
    var block := Ram.ReadBlock(e.ram, e.i, n);
    if block.Err? then Err(block.fault)
    else
      var rows := block.value;
      assert rows == SpriteRows(e.ram, e.i, n);
      var vx, vy := e.registers[x], e.registers[y];
      var blit := Sprites.DrawSprite(e.display, vx, vy, rows);
      Sprites.DrawSpriteScreen(e.display, vx, vy, rows);
      if Displays.Monochrome(e.display) then
        Sprites.DrawSpriteFlag(e.display, vx, vy, rows);
        Ok(e.(display := blit.display, registers := e.registers[Alu.Flag := blit.flag]))
      else
        Ok(e.(display := blit.display, registers := e.registers[Alu.Flag := blit.flag]))
  }

  /** FX0A on a state whose program counter has moved past it: with a key
      down, the lowest such key goes to VX; with none, the program counter
      steps back so that the instruction runs again and nothing else
      changes. */
  function WaitForKey(e: Emulator, x: nat): (r: Emulator)
    requires x < Alu.RegistersCount
    ensures (exists k :: 0 <= k < Inputs.KeysCount && e.input.keys[k]) ==>
      && r == e.(registers := e.registers[x := r.registers[x]])
      && r.registers[x] < Inputs.KeysCount
      && e.input.keys[r.registers[x]]
      && forall k :: 0 <= k < r.registers[x] ==> !e.input.keys[k]
    ensures (forall k :: 0 <= k < Inputs.KeysCount ==> !e.input.keys[k]) ==>
      r == e.(pc := (e.pc - 2) % 0x1_0000)
  {
    var scan := Inputs.IsAnyKeyPressed(e.input);
    if scan.found then SetV(e, x, scan.key)
    else e.(pc := Wrap16(e.pc - 2))
  }

  /** FX33: the hundreds, tens and ones digits of `v` at I, I + 1 and I + 2,
      every other byte kept; the first address past the end faults. */
  function StoreDigits(e: Emulator, v: u8): (r: Result<Emulator>)
    ensures r.Ok? <==> e.i + 3 <= Ram.MemorySize
    ensures r.Err? ==> r.fault == MemoryOutOfBounds(Ram.FirstOutside(e.i))
    ensures r.Ok? ==>
      var h, t, o := r.value.ram[e.i], r.value.ram[e.i + 1], r.value.ram[e.i + 2];
      && r.value == e.(ram := r.value.ram)
      && h < 10 && t < 10 && o < 10
      && 100 * h as int + 10 * t as int + o == v
      && forall a :: 0 <= a < Ram.MemorySize && !(e.i <= a < e.i + 3) ==> r.value.ram[a] == e.ram[a]
  {
    var digits := [v / 100, v / 10 % 10, v % 10];
    var ram :- Ram.WriteBlock(e.ram, e.i, digits);
    assert ram[e.i] == digits[0] && ram[e.i + 1] == digits[1] && ram[e.i + 2] == digits[2];
    DecimalDigits(v);
    Ok(e.(ram := ram))
  }

  /** A byte is its hundreds, tens and ones digits in decimal. */
  lemma DecimalDigits(v: u8)
    ensures v / 100 < 10 && v / 10 % 10 < 10
    ensures 100 * (v / 100) + 10 * (v / 10 % 10) + v % 10 == v
  {
    var t := v / 10;
    assert v == 10 * t + v % 10;
    assert t == 10 * (t / 10) + t % 10;
    DivUnique(v, 100, t / 10, 10 * (t % 10) + v % 10);
  }

  /** FX55: V0 .. VX stored at I onward, every other byte, I and the
      registers kept; the first address past the end faults. */
  function StoreRegisters(e: Emulator, x: nat): (r: Result<Emulator>)
    requires x < Alu.RegistersCount
    ensures r.Ok? <==> e.i + x + 1 <= Ram.MemorySize
    ensures r.Err? ==> r.fault == MemoryOutOfBounds(Ram.FirstOutside(e.i))
    ensures r.Ok? ==>
      && r.value == e.(ram := r.value.ram)
      && (forall k :: 0 <= k <= x ==> r.value.ram[e.i + k] == e.registers[k])
      && forall a :: 0 <= a < Ram.MemorySize && !(e.i <= a <= e.i + x) ==> r.value.ram[a] == e.ram[a]
  {
    var ram :- Ram.WriteBlock(e.ram, e.i, e.registers[..x + 1]);
    Ok(e.(ram := ram))
  }

  /** FX65: V0 .. VX loaded from I onward, the registers above X, I and
      memory kept; the first address past the end faults. */
  function LoadRegisters(e: Emulator, x: nat): (r: Result<Emulator>)
    requires x < Alu.RegistersCount
    ensures r.Ok? <==> e.i + x + 1 <= Ram.MemorySize
    ensures r.Err? ==> r.fault == MemoryOutOfBounds(Ram.FirstOutside(e.i))
    ensures r.Ok? ==>
      && r.value == e.(registers := r.value.registers)
      && (forall k :: 0 <= k <= x ==> r.value.registers[k] == e.ram[e.i + k])
      && forall k :: x < k < Alu.RegistersCount ==> r.value.registers[k] == e.registers[k]
  {
    var values :- Ram.ReadBlock(e.ram, e.i, x + 1);
    Ok(e.(registers := values + e.registers[x + 1..]))
  }

  /** One decoded instruction applied to a state whose program counter has
      already moved past it. The cases are tried in order and the first
      that matches runs, so every 8XYN instruction is the VX := VY copy,
      5XY0 ignores its low digit, and FX29 multiplies the whole of VX. */
  function Execute(e: Emulator, opcode: u16, random: u8): Result<Emulator>
  {
    var op := Decode(opcode);
    var x, y, n := op.x, op.y, op.n;
    var vx, vy := e.registers[x], e.registers[y];
    if op.digit1 == 0 && x == 0 && y == 0 && n == 0 then               // 0000: no operation
      Ok(e)
    else if op.digit1 == 0 && x == 0 && y == 0xE && n == 0 then        // 00E0: clear the screen
      Ok(e.(display := Displays.Clear(e.display)))
    else if op.digit1 == 0 && x == 0 && y == 0xE && n == 0xE then      // 00EE: return
      var popped :- Stacks.Pop(e.stack);
      Ok(e.(pc := popped.value, stack := popped.rest))
    else if op.digit1 == 1 then                                        // 1NNN: jump
      Ok(e.(pc := op.nnn))
    else if op.digit1 == 2 then                                        // 2NNN: call
      var pushed :- Stacks.Push(e.stack, e.pc);
      Ok(e.(stack := pushed, pc := op.nnn))
    else if op.digit1 == 3 then                                        // 3XNN: skip if VX == NN
      Ok(SkipIf(e, vx == op.nn))
    else if op.digit1 == 4 then                                        // 4XNN: skip if VX != NN
      Ok(SkipIf(e, vx != op.nn))
    else if op.digit1 == 5 then                                        // 5XY?: skip if VX == VY
      Ok(SkipIf(e, vx == vy))
    else if op.digit1 == 6 then                                        // 6XNN: VX = NN
      Ok(SetV(e, x, op.nn))
    else if op.digit1 == 7 then                                        // 7XNN: VX += NN, VF untouched
      Ok(SetV(e, x, Wrap8(vx as int + op.nn)))
    else if op.digit1 == 8 then                                        // 8XY?: VX = VY
      Ok(SetV(e, x, vy))
    else if op.digit1 == 9 && n == 0 then                              // 9XY0: skip if VX != VY
      Ok(SkipIf(e, vx != vy))
    else if op.digit1 == 0xA then                                      // ANNN: I = NNN
      Ok(e.(i := op.nnn))
    else if op.digit1 == 0xB then                                      // BNNN: jump to V0 + NNN
      Ok(e.(pc := e.registers[0] as int + op.nnn))                     //   at most 0x10FE, no wrap
    else if op.digit1 == 0xC then                                      // CXNN: VX = random & NN
      Ok(SetV(e, x, Bitwise8(And, random, op.nn)))
    else if op.digit1 == 0xD then                                      // DXYN: draw N sprite rows from I
      DrawRows(e, x, y, n)
    else if op.digit1 == 0xE && y == 9 && n == 0xE then                // EX9E: skip if key VX is down
      var down :- Inputs.IsKeyPressed(e.input, vx);
      Ok(SkipIf(e, down))
    else if op.digit1 == 0xE && y == 0xA && n == 1 then                // EXA1: skip if key VX is up
      var down :- Inputs.IsKeyPressed(e.input, vx);
      Ok(SkipIf(e, !down))
    else if op.digit1 == 0xF && y == 0 && n == 7 then                  // FX07: VX = delay timer
      Ok(SetV(e, x, e.delayTimer))
    else if op.digit1 == 0xF && y == 0 && n == 0xA then                // FX0A: wait for a key
      Ok(WaitForKey(e, x))
    else if op.digit1 == 0xF && y == 1 && n == 5 then                  // FX15: delay timer = VX
      Ok(e.(delayTimer := vx))
    else if op.digit1 == 0xF && y == 1 && n == 8 then                  // FX18: sound timer = VX
      Ok(e.(soundTimer := vx))
    else if op.digit1 == 0xF && y == 1 && n == 0xE then                // FX1E: I += VX, VF untouched
      Ok(e.(i := Wrap16(e.i + vx)))
    else if op.digit1 == 0xF && y == 2 && n == 9 then                  // FX29: I = glyph address of VX
      Ok(e.(i := vx * GlyphStride))
    else if op.digit1 == 0xF && y == 3 && n == 3 then                  // FX33: BCD of VX at I, I+1, I+2
      StoreDigits(e, vx)
    else if op.digit1 == 0xF && y == 5 && n == 5 then                  // FX55: store V0 .. VX at I
      StoreRegisters(e, x)
    else if op.digit1 == 0xF && y == 6 && n == 5 then                  // FX65: load V0 .. VX from I
      LoadRegisters(e, x)
    else
      Err(UnknownOpcode(opcode))
  }

  /** What a successful instruction can touch: the keypad changes only
      through key events; only FX33 and FX55 write memory; only 00E0 and
      DXYN change the screen, and neither leaves a pixel other than 0 or 1
      on a screen that had none; only FX15 and FX18 set the timers; only
      2NNN and 00EE move the stack. An unknown instruction is reported as
      itself. */
  lemma ExecuteFrame(e: Emulator, opcode: u16, random: u8)
    ensures var r := Execute(e, opcode, random);
      r.Ok? ==> r.value.input == e.input
    ensures var r, op := Execute(e, opcode, random), Decode(opcode);
      r.Ok? && r.value.ram != e.ram ==> op.digit1 == 0xF && op.nn in {0x33, 0x55}
    ensures var r, op := Execute(e, opcode, random), Decode(opcode);
      r.Ok? && r.value.display != e.display ==> opcode == 0x00E0 || op.digit1 == 0xD
    ensures var r := Execute(e, opcode, random);
      r.Ok? && Displays.Monochrome(e.display) ==> Displays.Monochrome(r.value.display)
    ensures var r, op := Execute(e, opcode, random), Decode(opcode);
      r.Ok? && (r.value.delayTimer != e.delayTimer || r.value.soundTimer != e.soundTimer) ==>
        op.digit1 == 0xF && op.nn in {0x15, 0x18}
    ensures var r, op := Execute(e, opcode, random), Decode(opcode);
      r.Ok? && r.value.stack != e.stack ==> opcode == 0x00EE || op.digit1 == 2
    ensures var r := Execute(e, opcode, random);
      r.Err? && r.fault.UnknownOpcode? ==> r.fault.opcode == opcode
  {
  }

  /** One instruction: fetch, then execute. */
  function Tick(e: Emulator, random: u8): (r: Result<Emulator>)
    ensures e.pc + 1 >= Ram.MemorySize ==> r == Err(MemoryOutOfBounds(Ram.FirstOutside(e.pc)))
    ensures r.Ok? ==> r.value.input == e.input
  {
    var fetched :- Fetch(e);
    Execute(fetched.next, fetched.opcode, random)
  }

  /** The 60 Hz timer tick: each nonzero timer counts down by one, and the
      beep sounds when the sound timer runs down from 1. */
  function TickTimers(e: Emulator): (r: Timed)
    ensures r.next == e.(delayTimer := r.next.delayTimer, soundTimer := r.next.soundTimer)
    ensures e.delayTimer == 0 ==> r.next.delayTimer == 0
    ensures e.delayTimer > 0 ==> r.next.delayTimer + 1 == e.delayTimer
    ensures e.soundTimer == 0 ==> r.next.soundTimer == 0
    ensures e.soundTimer > 0 ==> r.next.soundTimer + 1 == e.soundTimer
    ensures r.beeped <==> e.soundTimer == 1
  {
    var delay := if e.delayTimer > 0 then e.delayTimer - 1 else e.delayTimer;
    var beeped := e.soundTimer > 0 && e.soundTimer == 1;
    var sound := if e.soundTimer > 0 then e.soundTimer - 1 else e.soundTimer;
    Timed(e.(delayTimer := delay, soundTimer := sound), beeped)
  }

  /** The dispatch as its comments describe it: 8XY0 copies, the other
      8XYN instructions run their own arithmetic arms, and an 8XYN with no
      arm is unknown. Every other instruction is dispatched as before. */
  function ExecuteIntended(e: Emulator, opcode: u16, random: u8): (r: Result<Emulator>)
    ensures Decode(opcode).digit1 == 8 ==>
      && (r.Ok? <==> Decode(opcode).n in {0, 1, 2, 3, 4, 5, 6, 7, 0xE})
      && (r.Ok? ==> r.value == e.(registers := r.value.registers))
      && (r.Err? ==> r.fault == UnknownOpcode(opcode))
    ensures r.Ok? ==> r.value.input == e.input
    ensures r.Ok? && Displays.Monochrome(e.display) ==> Displays.Monochrome(r.value.display)
  {
    var op := Decode(opcode);
    if op.digit1 == 8 then
      if op.n == 0 then Ok(SetV(e, op.x, e.registers[op.y]))
      else
        match Alu.Arm(e.registers, op.x, op.y, op.n)
        case Some(regs) => Ok(e.(registers := regs))
        case None => Err(UnknownOpcode(opcode))
    else Execute(e, opcode, random)
  }

  /** One instruction under the corrected dispatch. */
  function TickIntended(e: Emulator, random: u8): (r: Result<Emulator>)
    ensures e.pc + 1 < Ram.MemorySize && e.ram[e.pc] / 0x10 != 8 ==> r == Tick(e, random)
    ensures r.Ok? && Displays.Monochrome(e.display) ==> Displays.Monochrome(r.value.display)
  {
    var fetched :- Fetch(e);
    ExecuteIntended(fetched.next, fetched.opcode, random)
  }
}
