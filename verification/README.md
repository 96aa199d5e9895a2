# CHIP-8 interpreter core in Dafny

This project models the core of a CHIP-8 virtual machine written in Go: the
emulator state (display, 4 KiB memory, program counter, sixteen 8-bit
registers V0..VF, index register I, a 16-slot call stack, delay and sound
timers, 16-key keypad), one instruction tick (fetch, decode, and the ordered
dispatch over the opcode table), the 60 Hz timer tick, reset, program load
and key events, together with the 8-bit add-with-carry and
subtract-with-borrow helpers, the stack, the display and the keypad.

Everything is immutable data and pure functions. Bytes and words are the
subset types `u8` and `u16` over `int`, and every 8- or 16-bit wrap of the
Go code is written out (`Wrap8`, `Wrap16`). The bitwise operators are
defined bit by bit on integers (module `Bits`). Each call that ends the Go
process (`log.Fatalf`) returns a `Fault` instead:

- a stack overflow;
- a stack underflow;
- a key index past 0xF;
- an unknown opcode.

The model also treats a memory access at 4096 or beyond as a fault. That
is a modelling choice: the `Memory` type is not part of this model.

The random byte of CXNN is a parameter. The beep is a boolean output of the
timer tick.

The dispatch follows the code as written, in the order of its cases:

- `case digit1 == 8` (pkg/chip8/emulator.go:143) comes before the 8XY1..8XYE
  cases. Every 8XYN instruction therefore copies VY into VX, and the
  arithmetic arms never run. `Alu` models those arms on their own. The
  corrected dispatch `Chip8.ExecuteIntended` / `Chip8.TickIntended` routes
  to them (see Findings).
- 5XYN skips on VX == VY whatever N is.
- FX29 sets I to five times the whole of VX, not its low digit. The
  usual CHIP-8 reading, where only the low digit of VX selects the glyph,
  is not what the Go code computes; the model follows the code.

Modules, one per component:

| module | file | models |
|---|---|---|
| `Bits` | bits.dfy | 8/16-bit wrap, bit extraction, and the bitwise and, or, xor and complement of bytes |
| `Faults` | faults.dfy | the fault kinds and the `Result` type |
| `Overflow` | overflow.dfy | pkg/utils/overflow.go |
| `Stacks` | stack.dfy | pkg/chip8/stack.go |
| `Inputs` | input.dfy | pkg/chip8/input.go |
| `Displays` | display.dfy | pkg/chip8/display.go |
| `Ram` | memory.dfy | the memory the emulator reads and writes (its Go type is not part of this model) |
| `Sprites` | sprite.dfy | the DXYN row and column loops |
| `Alu` | alu.dfy | the 8XYN arithmetic arms |
| `Chip8` | chip8.dfy | pkg/chip8/emulator.go |
| `Chip8Laws` | laws.dfy | per-instruction and whole-run properties of `Tick` |

## Model

| member | source | states |
|---|---|---|
| Overflow.Add8 | pkg/utils/overflow.go:8-13 | sum is (x + y + carry) mod 256. For carry in {0,1}, out is in {0,1}, sum + 256·out = x + y + carry, and out is 1 exactly when x + y + carry exceeds 0xFF |
| Overflow.Sub8 | pkg/utils/overflow.go:20-28 | diff is (x − y − borrow) mod 256. The bit formula gives a borrow out, `out`, in {0,1}. For borrow in {0,1}, out is 1 exactly when x < y + borrow, and diff + y + borrow = x + 256·out |
| Overflow.BorrowBit | pkg/utils/overflow.go:22-26 | the borrow formula (complement of x and y, or complement of x xor y and diff, shifted right by 7) is 1 exactly when x's top bit is clear and y's set, or x and y agree on the top bit and diff's is set |
| Overflow.BorrowIsCompare | pkg/utils/overflow.go:22-26 | for borrow in {0,1}, that top-bit formula is 1 exactly when x < y + borrow |
| Overflow.AddUndoesSub | pkg/utils/overflow.go:9-10 | adding y back to Sub8(x, y, 0).diff gives x, and the carry equals the borrow |
| Overflow.SubUndoesAdd | pkg/utils/overflow.go:21-26 | subtracting y from Add8(x, y, 0).sum gives x, and the borrow equals the carry |
| Stacks.Clear | pkg/chip8/stack.go:18-23 | stack pointer 0 and every slot 0 |
| Stacks.Push | pkg/chip8/stack.go:25-32 | faults with overflow exactly when sp ≥ 16. Otherwise the value goes into slot sp, sp grows by one, and no other slot changes |
| Stacks.Pop | pkg/chip8/stack.go:34-41 | faults exactly when sp = 0. Otherwise it returns slot sp − 1, decrements sp and keeps the slots |
| Stacks.PopAfterPush | pkg/chip8/stack.go:30-31 | a pop right after a push returns the pushed value and restores sp |
| Stacks.PushAllEffect | pkg/chip8/stack.go:25-32 | a run of pushes succeeds exactly when it fits. The values then sit in slots sp.. in order, sp advances by their number, and the slots below are kept |
| Stacks.PopAllEffect | pkg/chip8/stack.go:34-41 | a run of n pops succeeds exactly when n ≤ sp and returns the top n slots, topmost first |
| Stacks.LastInFirstOut | pkg/chip8/stack.go:25-41 | up to 16 addresses pushed on an empty stack come back in exact reverse order |
| Stacks.SeventeenthPushFaults | pkg/chip8/stack.go:26-28 | seventeen pushes on an empty stack end in a stack overflow |
| Inputs.Clear | pkg/chip8/input.go:16-20 | every key up |
| Inputs.KeyPressed | pkg/chip8/input.go:22-28 | faults exactly when key ≥ 16. Otherwise it sets that key to the given state and leaves every other key |
| Inputs.IsKeyPressed | pkg/chip8/input.go:30-35 | faults exactly when key ≥ 16. Otherwise it returns that key's state |
| Inputs.FirstPressed | pkg/chip8/input.go:38-42 | the scan from `from` stops at the first key down, or at 16 when there is none |
| Inputs.IsAnyKeyPressed | pkg/chip8/input.go:37-45 | found exactly when some key is down; the key returned is then the lowest one down, and otherwise it is 16 |
| Inputs.KeyRoundTrip | pkg/chip8/input.go:22-35 | a key set to a state reads back as that state |
| Inputs.OnlyPressedKeyIsFound | pkg/chip8/input.go:37-45 | on a keypad with one key down, the scan finds that key |
| Displays.PixelIndex | pkg/chip8/display.go:27-31 | the wrapped pixel index is always below 2048 |
| Displays.PixelIndexParts | pkg/chip8/display.go:27-31 | the index's column is x mod 64 and its row is y mod 32 |
| Displays.PixelIndexSame | pkg/chip8/display.go:27-31 | two coordinates hit the same pixel exactly when they agree mod 64 and mod 32 |
| Displays.Toggle | pkg/chip8/display.go:34 | `^= 1` flips the low bit: even values go up by one, odd values down by one |
| Displays.ToggleTwice | pkg/chip8/display.go:34 | toggling twice restores the pixel |
| Displays.GetScreen | pkg/chip8/display.go:16-18 | the snapshot holds the current value of every pixel |
| Displays.SnapshotBeforeDraw | pkg/chip8/display.go:16-18 | a snapshot taken before a draw keeps the old pixel, and differs from one taken after only at the drawn pixel |
| Displays.Clear | pkg/chip8/display.go:20-24 | every pixel 0, so every pixel is in {0,1} |
| Displays.Draw | pkg/chip8/display.go:26-36 | returns the prior pixel, toggles exactly the pixel at the wrapped index, and leaves all others. A screen of 0s and 1s stays so |
| Displays.DrawTwiceOnCleared | pkg/chip8/display.go:33-34 | two draws at one spot of a cleared screen return 0 then 1 and leave it dark |
| Displays.DrawTwiceRestores | pkg/chip8/display.go:33-35 | two draws at one spot restore any screen |
| Displays.DrawWraps | pkg/chip8/display.go:28-29 | Draw(x + 64, y) and Draw(x, y + 32) act as Draw(x, y), and Draw(64, 32) as Draw(0, 0) |
| Ram.Read | pkg/chip8/emulator.go:198 | the byte at the address, or an out-of-bounds fault at 4096 and beyond |
| Ram.Write | pkg/chip8/emulator.go:245 | the byte replaced and no other, or an out-of-bounds fault |
| Ram.Clear | pkg/chip8/emulator.go:42 | every byte 0 |
| Ram.Copy | pkg/chip8/emulator.go:67-69 | the image placed at the start address, every other byte kept |
| Ram.ReadBlock | pkg/chip8/emulator.go:257-259 | n consecutive bytes read in order. Succeeds exactly when they fit below 4096; otherwise the fault names the first address past the end |
| Ram.WriteBlock | pkg/chip8/emulator.go:252-254 | values written at consecutive addresses, every other byte kept, with the same fault rule |
| Ram.ReadAfterWrite | pkg/chip8/emulator.go:245-258 | a written byte reads back, and other addresses read as before |
| Ram.ReadBlockAfterWriteBlock | pkg/chip8/emulator.go:251-259 | a block read back after being written yields the written values |
| Sprites.DrawColumnsScreen | pkg/chip8/emulator.go:200-206 | drawing one sprite row toggles exactly the wrapped pixels under its set bits |
| Sprites.DrawColumnsFlag | pkg/chip8/emulator.go:202-204 | on a 0/1 screen, OR-ing the prior pixels gives a flag of 1 exactly when a set bit of the row hit a lit pixel |
| Sprites.DrawSpriteScreen | pkg/chip8/emulator.go:195-207 | drawing N rows toggles exactly the pixels ((VX + col) mod 64, (VY + row) mod 32) under set bits (once each, since at most 32 rows and 8 columns never overlap after wrapping) and keeps every other pixel |
| Sprites.DrawSpriteFlag | pkg/chip8/emulator.go:192-207 | on a 0/1 screen the flag ends as 0 or 1, and is 1 exactly when some set bit landed on a pixel that was lit before the sprite; the screen stays 0/1 |
| Sprites.LastRowCollides | pkg/chip8/emulator.go:195-204 | the last row meets the pixels it hits as they were before the sprite, because earlier rows lie on other screen rows |
| Alu.Logic | pkg/chip8/emulator.go:146-154 | 8XY1/2/3: each bit of the new VX is the OR, AND or XOR of the bits of VX and VY; other registers are kept |
| Alu.AddCarry | pkg/chip8/emulator.go:155-157 | 8XY4: VF is 1 exactly when VX + VY > 0xFF. For X ≠ F, VX becomes (VX + VY) mod 256 and VX + 256·VF is the true sum |
| Alu.NoBorrow | pkg/chip8/emulator.go:160 | `VF ^= 1` on a borrow bit gives 1 − borrow |
| Alu.SubBorrow | pkg/chip8/emulator.go:158-161 | 8XY5: VF is 1 exactly when VX ≥ VY. For X ≠ F, VX becomes (VX − VY) mod 256 |
| Alu.ReverseSubBorrow | pkg/chip8/emulator.go:166-169 | 8XY7: VF is 1 exactly when VY ≥ VX. For X ≠ F, VX becomes (VY − VX) mod 256 |
| Alu.ShiftRight | pkg/chip8/emulator.go:162-165 | 8XY6: VF gets the low bit and VX is halved, so 2·VX' + VF = VX. When X = F the later shift leaves VF = 0 |
| Alu.ShiftLeft | pkg/chip8/emulator.go:170-173 | 8XYE: VF gets the top bit and VX is doubled mod 256, so VX' + 256·VF = 2·VX. When X = F, VF ends as twice the top bit |
| Alu.Arm | pkg/chip8/emulator.go:146-173 | an arm exists exactly for N in {1, 2, 3, 4, 5, 6, 7, E} |
| Alu.AddCarryExamples | pkg/chip8/emulator.go:155-157 | 0xFF + 0x01 gives 0x00 with VF = 1, and 0x01 + 0x01 gives 0x02 with VF = 0 |
| Alu.SubBorrowExamples | pkg/chip8/emulator.go:158-161 | 0x01 − 0x02 gives 0xFF with VF = 0, and 0x02 − 0x01 gives 0x01 with VF = 1 |
| Chip8.New | pkg/chip8/emulator.go:29-38 | program counter at 0x200, I, the timers and every register 0 |
| Chip8.Reset | pkg/chip8/emulator.go:40-53 | screen, memory, registers, I, stack, timers and keys all cleared, program counter at 0x200 |
| Chip8.Load | pkg/chip8/emulator.go:67-69 | the program's bytes appear from 0x200 on, memory below 0x200 and above the image is kept, and nothing but memory changes |
| Chip8.KeyDown | pkg/chip8/emulator.go:59-61 | faults exactly for a key past 0xF, naming that key; otherwise that key is down, every other key keeps its state and nothing but the keypad changes |
| Chip8.KeyUp | pkg/chip8/emulator.go:63-65 | faults exactly for a key past 0xF, naming that key; otherwise that key is up, every other key keeps its state and nothing but the keypad changes |
| Chip8.GetDisplayScreen | pkg/chip8/emulator.go:55-57 | the snapshot holds every current pixel |
| Chip8.Fetch | pkg/chip8/emulator.go:91-95 | the opcode's high byte is mem[pc] and its low byte mem[pc + 1], and the state has pc + 2. Faults when pc + 1 is past the end |
| Chip8.Decode | pkg/chip8/emulator.go:99-102 | the four digits are below 16 and reassemble the opcode, and NN and NNN are its low byte and low 12 bits |
| Chip8.NibbleParts | pkg/chip8/emulator.go:99-102 | the byte and nibble quotients and remainders of a word fit together |
| Chip8.DrawRows | pkg/chip8/emulator.go:188-208 | DXYN: faults exactly when a row lies past the end of memory. Otherwise only the screen and VF change, exactly the covered pixels toggle, and on a 0/1 screen VF is 1 exactly on a collision, 0 otherwise |
| Chip8.WaitForKey | pkg/chip8/emulator.go:222-230 | FX0A: with keys down, VX becomes the lowest key down and nothing else changes. With none, the program counter steps back by 2 (mod 2^16) and nothing else changes |
| Chip8.StoreDigits | pkg/chip8/emulator.go:243-250 | FX33: digits h, t, o below 10 with 100h + 10t + o = VX at I, I + 1, I + 2. Every other byte and I are kept; it faults when I + 2 is past the end |
| Chip8.DecimalDigits | pkg/chip8/emulator.go:245-249 | a byte is 100·(v/100) + 10·(v/10 mod 10) + v mod 10, each digit below 10 |
| Chip8.StoreRegisters | pkg/chip8/emulator.go:251-255 | FX55: mem[I + k] = Vk for k ≤ X. Every other byte, I and the registers are kept; it faults when I + X is past the end |
| Chip8.LoadRegisters | pkg/chip8/emulator.go:256-260 | FX65: Vk = mem[I + k] for k ≤ X. Registers above X, I and memory are kept; it faults when I + X is past the end |
| Chip8.ExecuteFrame | pkg/chip8/emulator.go:97-264 | what one executed instruction can touch: never the keypad; memory only for FX33 and FX55; the screen only for 00E0 and DXYN, and a screen of 0s and 1s stays so; the timers only for FX15 and FX18; the stack only for 2NNN and 00EE. An unknown instruction faults naming itself. This lemma and the Chip8Laws rows state the contract of `Chip8.Execute`, which carries none of its own |
| Chip8.Tick | pkg/chip8/emulator.go:71-76 | a tick with the program counter at 4095 or beyond faults with an out-of-bounds access at the first address past the end; a successful tick leaves the keypad as it was |
| Chip8.ExecuteIntended | pkg/chip8/emulator.go:143-173 | under the corrected dispatch an 8XYN succeeds exactly for N in {0, 1, 2, 3, 4, 5, 6, 7, E}, changes only the registers, and is otherwise unknown; no instruction changes the keypad, and a screen of 0s and 1s stays so |
| Chip8.TickIntended | pkg/chip8/emulator.go:71-76 | the corrected tick is the tick as written whenever the fetched instruction is not 8XYN, and keeps a screen of 0s and 1s |
| Chip8.TickTimers | pkg/chip8/emulator.go:78-89 | each timer drops by one only when nonzero, so neither underflows. The beep sounds exactly when the sound timer was 1; nothing else changes |
| Chip8Laws.TickFetches | pkg/chip8/emulator.go:71-76 | a tick executes the fetched word on the state with pc + 2 |
| Chip8Laws.LoadThenFetch | pkg/chip8/emulator.go:67-95 | the first fetch after loading a program reads its first two bytes and moves to 0x202 |
| Chip8Laws.UnknownExactly | pkg/chip8/emulator.go:104-263 | an instruction faults as unknown exactly when it is not in the opcode table |
| Chip8Laws.NoOperationAndClear | pkg/chip8/emulator.go:105-109 | 0000 only advances, and 00E0 darkens every pixel and changes nothing else |
| Chip8Laws.Jump | pkg/chip8/emulator.go:113-115 | 1NNN sets the program counter to NNN and changes nothing else |
| Chip8Laws.CallPushes | pkg/chip8/emulator.go:116-119 | 2NNN with fewer than 16 slots used stores pc + 2 in slot sp, increments sp and jumps to NNN; nothing else changes |
| Chip8Laws.ReturnPops | pkg/chip8/emulator.go:110-112 | 00EE with sp > 0 decrements sp and jumps to the address in the slot below; the slots and everything else are kept |
| Chip8Laws.JumpToSelf | pkg/chip8/emulator.go:113-115 | a jump to its own address leaves the state unchanged |
| Chip8Laws.JumpToSelfForever | pkg/chip8/emulator.go:113-115 | on a jump to itself, any number of ticks leaves the state unchanged |
| Chip8Laws.CallThenReturn | pkg/chip8/emulator.go:110-119 | 2NNN pushes pc + 2 and jumps to NNN; a 00EE there returns to pc + 2 with sp restored. The machine is then as before except pc + 2 and the stack slot at sp, which now holds pc + 2 |
| Chip8Laws.KeyRoundTrips | pkg/chip8/emulator.go:59-65 | a pressed key reads as down and a released key as up; releasing a key that was up after pressing it, or pressing a key that was down after releasing it, gives back the same machine |
| Chip8Laws.CallOnFullStack | pkg/chip8/emulator.go:116-118 | a call with 16 slots used is a stack overflow |
| Chip8Laws.ReturnOnEmptyStack | pkg/chip8/emulator.go:110-112 | a return on an empty stack is a stack underflow |
| Chip8Laws.SkipIfEqualImmediate | pkg/chip8/emulator.go:120-125 | 3XNN: pc + 4 when VX = NN, pc + 2 otherwise, nothing else changes |
| Chip8Laws.SkipIfNotEqualImmediate | pkg/chip8/emulator.go:126-131 | 4XNN: pc + 4 when VX ≠ NN, pc + 2 otherwise, nothing else changes |
| Chip8Laws.SkipIfRegistersEqual | pkg/chip8/emulator.go:132-136 | 5XYN for any N: pc + 4 when VX = VY, pc + 2 otherwise, nothing else changes |
| Chip8Laws.SkipIfRegistersDiffer | pkg/chip8/emulator.go:174-178 | 9XY0: pc + 4 when VX ≠ VY, pc + 2 otherwise; 9XYN with N ≠ 0 is unknown |
| Chip8Laws.SkipIfKeyDown | pkg/chip8/emulator.go:209-213 | EX9E: pc + 4 when key VX is down, pc + 2 otherwise; a VX past 0xF faults |
| Chip8Laws.SkipIfKeyUp | pkg/chip8/emulator.go:214-218 | EXA1: pc + 4 when key VX is up, pc + 2 otherwise; a VX past 0xF faults |
| Chip8Laws.EveryEightXYNCopies | pkg/chip8/emulator.go:143-173 | every 8XYN, whatever N, sets VX to VY and changes nothing else; VF changes only when X = F |
| Chip8Laws.AddWithCarryIsShadowed | pkg/chip8/emulator.go:143-157 | 8124 with V1 = 0xFF, V2 = 0x01 leaves V1 = 0x01 and VF = 0 |
| Chip8Laws.IntendedEightXYN | pkg/chip8/emulator.go:143-173 | under the corrected dispatch 8XYN runs the arm for N, and 8124 on 0xFF, 0x01 gives V1 = 0x00, VF = 1 |
| Chip8Laws.IntendedDiffersOnlyOnEight | pkg/chip8/emulator.go:104-263 | the corrected tick agrees with the tick as written on every instruction outside 8XYN |
| Chip8Laws.LoadAndAddImmediate | pkg/chip8/emulator.go:137-142 | 6XNN sets VX to NN and 7XNN adds NN mod 256; nothing else changes |
| Chip8Laws.RandomMasked | pkg/chip8/emulator.go:185-187 | CXNN: each bit of VX is set exactly when it is set in both the random byte and NN; other registers are kept |
| Chip8Laws.SetIndex | pkg/chip8/emulator.go:179-181 | ANNN sets I to NNN and nothing else |
| Chip8Laws.IndexArithmetic | pkg/chip8/emulator.go:237-242 | FX1E adds VX to I mod 2^16; FX29 sets I to 5·VX for the whole of VX |
| Chip8Laws.JumpWithOffset | pkg/chip8/emulator.go:182-184 | BNNN jumps to V0 + NNN, with no wrap |
| Chip8Laws.TimerTransfers | pkg/chip8/emulator.go:219-236 | FX07 reads the delay timer into VX; FX15 and FX18 set the delay and sound timers from VX |
| Chip8Laws.BeepOnce | pkg/chip8/emulator.go:83-88 | a sound timer at 1 beeps and stops at 0; the next tick is silent |
| Chip8Laws.BeepsExactlyOnce | pkg/chip8/emulator.go:78-89 | a sound timer at s beeps exactly once over n ≥ s ≥ 1 timer ticks, and never before |
| Chip8Laws.DrawDispatch | pkg/chip8/emulator.go:188-208 | DXYN is executed as `DrawRows` with the X, Y, N of the instruction |
| Chip8Laws.StartsMonochrome | pkg/chip8/emulator.go:29-69 | a new machine, a reset machine and a freshly loaded one all have a screen of 0s and 1s |
| Chip8Laws.TickKeepsMonochrome | pkg/chip8/emulator.go:71-76 | no tick leaves a pixel other than 0 or 1 on a screen that had none |
| Chip8Laws.RunKeepsMonochrome | pkg/chip8/emulator.go:71-76 | no run of ticks leaves a pixel other than 0 or 1 on a screen that had none |
| Chip8Laws.DrawFlag | pkg/chip8/emulator.go:188-208 | on a 0/1 screen a DXYN that runs leaves VF in {0,1}, and 1 exactly when a set sprite bit hit a lit pixel |
| Chip8Laws.RunDrawFlag | pkg/chip8/emulator.go:188-208 | after any run from a 0/1 screen (so from a new, reset or loaded machine) every DXYN sets VF that way |
| Chip8Laws.WaitWithoutKey | pkg/chip8/emulator.go:222-230 | FX0A with no key down leaves the whole state, program counter included, as before the tick |
| Chip8Laws.WaitWithKey | pkg/chip8/emulator.go:222-225 | FX0A with keys down puts the lowest key down in VX and advances by 2 |
| Chip8Laws.WaitStays | pkg/chip8/emulator.go:222-230 | with no key down, any number of ticks on FX0A change nothing |
| Chip8Laws.DigitsDispatch | pkg/chip8/emulator.go:243-250 | FX33 is executed as `StoreDigits` of VX |
| Chip8Laws.DigitsOf123 | pkg/chip8/emulator.go:243-250 | 123 is stored as 1, 2, 3 |
| Chip8Laws.StoreLoadDispatch | pkg/chip8/emulator.go:251-260 | FX55 and FX65 are executed as `StoreRegisters` and `LoadRegisters` with their X |
| Chip8Laws.StoreThenLoad | pkg/chip8/emulator.go:251-260 | V0..VX stored by FX55 come back through FX65 with the same X and I, whatever the registers held in between |
| Chip8Laws.ResetIsNew | pkg/chip8/emulator.go:29-53 | a reset machine is identical to a new one, whatever it held |
| Chip8Laws.LoopStartsDark | pkg/chip8/emulator.go:29-38 | the clear-and-loop program loaded into a new machine starts at 0x200 on a dark screen |
| Chip8Laws.ClearAndLoopRuns | pkg/chip8/emulator.go:105-115 | the program 00E0, 1200 alternates between 0x200 and 0x202 and changes nothing else, so after an even number of ticks it is back at 0x200 with a dark screen |
| Chip8Laws.ClearAndLoopForever | pkg/chip8/emulator.go:105-115 | from either instruction of that program on a dark screen, an even number of ticks returns to the same state and an odd number moves only the program counter to the other instruction |
| Chip8Laws.ClearAndLoopTick | pkg/chip8/emulator.go:105-115 | one tick of that program on a dark screen moves the program counter between 0x200 and 0x202 and changes nothing else |
| Chip8Laws.SetThenWaitForKey | pkg/chip8/emulator.go:137-230 | the program 6A05, FA0A sets VA = 5 and then waits at 0x202 for any number of ticks; after key 3 goes down, VA = 3 and pc = 0x204 |

## Left out

- cmd/chip8/main.go: the game loop, window, rendering, host key map, ROM and sound file reading, and process exit are input/output and are not modelled.
- pkg/utils/beeper.go: audio playback is reduced to the `beeped` output of `Chip8.TickTimers`. The player's own fatal "already playing" check is not modelled.
- The random number generator of CXNN: the random byte is a parameter of `Tick`.
- Process termination by `log.Fatalf` becomes a `Fault` result; the log messages are not modelled. `Pop` on an empty stack logs "Stack overflow"; the model calls that fault `StackUnderflow`.
- The claims that `Add8` and `Sub8` run in time independent of their inputs: timing is not modelled.
- The `Memory` type: its source is not part of this model. Memory is a fixed sequence of 4096 bytes. The model treats reads and writes at 4096 and beyond as faults.
- Ram.Copy: the model requires the image to fit below 4096. The program does not check this: cmd/chip8/main.go:97-113 loads the ROM file without a size check, and what the `Memory` type does with an oversize image is not part of this model. An image that does not fit is excluded by a precondition.
- Chip8.Load: carries the same fit precondition, for the same reason; the model says nothing about loading an image longer than 0xE00 bytes.
- The hexadecimal font glyph data: FX29 only computes 5·VX. A new machine has all-zero memory.
- The mutable Go objects and pointers: each operation returns a new state.

## Findings

| source | as written | input that shows it | evidently intended | confidence | as-written member | corrected member |
|---|---|---|---|---|---|---|
| pkg/chip8/emulator.go:143 | `case digit1 == 8` matches every 8XYN, so the cases at lines 146-173 never run and every 8XYN copies VY into VX | 8124 with V1 = 0xFF, V2 = 0x01: V1 becomes 0x01 and VF stays 0 | the case matches only 8XY0, and 8XY1..8XYE run their arms: 8124 gives V1 = 0x00 and VF = 1 | high, not executed | Chip8Laws.AddWithCarryIsShadowed | Chip8Laws.IntendedEightXYN |

`Chip8.Tick` models the dispatch as written. `Chip8.TickIntended` runs the
corrected dispatch `Chip8.ExecuteIntended`, whose 8XYN arms are those of
`Alu`. `Chip8Laws.IntendedDiffersOnlyOnEight` shows that the two ticks
agree on every other instruction.
