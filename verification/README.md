# CHIP-8 engine model

A Dafny model of the machine engine of a small CHIP-8 emulator: the
instruction decoder, the machine state (4096 bytes of memory, sixteen 8-bit
registers V0..VF, the 16-bit PC and index register I, a return stack, two
timers and a 64×32 display buffer), its lifecycle (construction with the font
table, ROM loading, reset) and the fetch-decode-execute cycle over the opcodes
the engine supports: 00E0, 0NNN (rejected), 1NNN, 6XNN, 7XNN, ANNN and DXYN.

Every operation is a pure function from one machine to the next. Where the
engine throws, the model returns `Err` with one of the `Base.Error` variants.

Files:

- `base.dfy` — machine-width types, the constants (memory size 4096, 16
  registers, VF as flag register, 64×32 display, ROM base 0x200) and the error
  and result datatypes.
- `instruction.dfy` — the `Instruction` record and the decoder.
- `display.dfy` — the display buffer and the sprite blit as a fold over rows
  and, within a row, over bits most significant first.
- `emulator.dfy` — the machine, the lifecycle operations, the instruction
  handlers, the dispatcher and the cycle.
- `properties.dfy` — per-opcode effects of a whole cycle stated in terms of
  the two bytes at PC, and properties that relate several operations.

Behaviour that follows the engine's code rather than classic CHIP-8:

- The draw never erases. A set sprite bit on a lit pixel sets VF = 1 and
  leaves the pixel lit; a set bit on a dark pixel lights it. Classic CHIP-8
  XORs, so a second identical draw would erase the sprite; here it leaves the
  display unchanged (`Properties.DrawTwice`).
- The sprite anchor is read from V[X] and V[Y] before VF is cleared, so X = F
  or Y = F anchors on the old flag value.
- The anchor wraps onto the display (`V[X] % 64`, `V[Y] % 32`); the sprite
  is clipped at the right and bottom edges, never wrapped.
- Reset keeps the registers, memory and timers.
- The second `case 0x00E0` arm of the dispatcher can never match, since the
  switch value `opcode & 0xF000` is a multiple of 0x1000; it has no
  counterpart in the model.

## Model

| member | source | states |
|---|---|---|
| `Instruction.Decode` | Chip8Emu/Emulator.cs:63-87 | With the opcode `first * 256 + second`: X = first % 16, Y = second / 16, N = second % 16, NN = second, the family is the top nibble of `first` shifted left 12; the fields reassemble: NNN = X·256 + NN, NN = Y·16 + N, family + NNN = opcode |
| `Instruction.DecodeInjective` | Chip8Emu/Emulator.cs:68-82 | Decoding loses nothing: equal decodes come from equal byte pairs |
| `Instruction.Family` | Chip8Emu/Emulator.cs:92 | `opcode & 0xF000` is the multiple of 0x1000 at or just below the opcode |
| `Display.Blank` | Chip8Emu/Emulator.cs:134-136 | A new buffer has 64 columns of 32 pixels, all off |
| `Display.PlotBit` | Chip8Emu/Emulator.cs:182-193 | One pixel step: the pixel ends lit iff it was lit or the sprite bit is set; the flag is raised iff it was already raised or a set bit meets a lit pixel; no other pixel changes |
| `Display.BitWeights` | Chip8Emu/Emulator.cs:182 | The weight of bit k is 2^k for k = 0..7, so a sprite bit is `(sprite >> k) & 1` |
| `Display.DrawBits` | Chip8Emu/Emulator.cs:173-195 | One sprite row: a pixel of the line ends lit iff it was lit or a set bit lands on it (bits MSB first, clipped at the right edge); the flag is raised iff a set bit lands on a lit pixel |
| `Display.DrawRows` | Chip8Emu/Emulator.cs:165-196 | The whole blit: a pixel ends lit iff it was lit or lies under a set sprite bit; the flag ends raised iff some set bit on screen lands on a lit pixel |
| `Emulator.CopyInto` | Chip8Emu/Emulator.cs:37-43 | The block copy fails iff the source does not fit from the offset; otherwise exactly the target range is overwritten with the source |
| `Emulator.LoadFonts` | Chip8Emu/Emulator.cs:41-43 | The font table occupies memory from address 0 and the rest of memory and state is unchanged; fails iff longer than memory |
| `Emulator.New` | Chip8Emu/Emulator.cs:19-35 | The constructed engine has the fonts at address 0 and zero memory elsewhere, zero registers, PC, I and timers, an empty stack and a dark display |
| `Emulator.LoadRom` | Chip8Emu/Emulator.cs:37-39 | Fails iff the ROM exceeds 4096 - 0x200 bytes; otherwise memory[0x200 + k] = rom[k] and every other address and field is unchanged |
| `Emulator.Reset` | Chip8Emu/Emulator.cs:45-50 | PC = 0x200, I = 0, empty stack, every pixel off; registers, memory and timers unchanged |
| `Emulator.ClearScreen` | Chip8Emu/Emulator.cs:134-136 | 00E0 leaves every pixel off and nothing else changed |
| `Emulator.Jump` | Chip8Emu/Emulator.cs:139-141 | 1NNN sets PC to NNN and changes nothing else |
| `Emulator.SetRegister` | Chip8Emu/Emulator.cs:151-153 | 6XNN sets V[X] to NN; every other register and field is unchanged |
| `Emulator.AddRegister` | Chip8Emu/Emulator.cs:147-149 | 7XNN adds NN to V[X], subtracting 256 when the sum overflows a byte; every other register (VF too, unless X = F) and field is unchanged |
| `Emulator.SetIndex` | Chip8Emu/Emulator.cs:143-145 | ANNN sets I to NNN and changes nothing else |
| `Emulator.RowsReached` | Chip8Emu/Emulator.cs:165-171 | The row loop reads N rows, or stops at the bottom edge if that comes first |
| `Emulator.XCoord` | Chip8Emu/Emulator.cs:157 | The anchor column is on the display |
| `Emulator.YCoord` | Chip8Emu/Emulator.cs:158 | The anchor line is on the display |
| `Emulator.SpriteRows` | Chip8Emu/Emulator.cs:174 | Row k of the sprite is memory[I + k], for each row the loop reaches |
| `Emulator.Draw` | Chip8Emu/Emulator.cs:156-199 | DXYN fails iff the loop reaches at least one row and a row it reaches lies past the end of memory (a zero-row sprite reads nothing and never fails); otherwise a pixel ends lit iff it was lit or lies under a set bit of the clipped sprite, no pixel goes dark, nothing outside the clipped sprite changes, VF = 1 iff a set bit lands on a lit pixel (else 0), and no other register or field changes |
| `Emulator.ExecuteInstruction` | Chip8Emu/Emulator.cs:89-132 | Fails iff the opcode is a 0NNN other than 00E0 (machine-code error), has a family outside {0,1,6,7,A,D} (invalid instruction) or is a draw that reaches a row past the end of memory (sprite error); a successful instruction never writes memory, the stack or the timers, renders iff it is a draw, and keeps PC unless it is a jump |
| `Emulator.ExecuteCycle` | Chip8Emu/Emulator.cs:52-61 | Fails with a fetch error iff PC + 1 is past memory; on success memory, stack and timers are unchanged and PC ends at PC + 2, or at NNN for a 1NNN |
| `Properties.CycleJump` | Chip8Emu/Emulator.cs:139-141 | A cycle on 1NNN yields exactly the old machine with PC = NNN, and no render |
| `Properties.CycleLoadImmediate` | Chip8Emu/Emulator.cs:151-153 | A cycle on 6XNN yields exactly the old machine with PC + 2 and V[X] = NN |
| `Properties.CycleAddImmediate` | Chip8Emu/Emulator.cs:147-149 | A cycle on 7XNN yields exactly the old machine with PC + 2 and V[X] = (V[X] + NN) mod 256 |
| `Properties.CycleSetIndex` | Chip8Emu/Emulator.cs:143-145 | A cycle on ANNN yields exactly the old machine with PC + 2 and I = NNN |
| `Properties.CycleClearScreen` | Chip8Emu/Emulator.cs:94-96 | A cycle on 00E0 succeeds, darkens every pixel and otherwise only advances PC |
| `Properties.CycleDraw` | Chip8Emu/Emulator.cs:121-124 | A cycle on DXYN succeeds with a render request exactly when the draw on the machine with PC + 2 succeeds, with that draw's machine, and otherwise fails with the draw's error |
| `Properties.CycleRejects` | Chip8Emu/Emulator.cs:93-132 | A cycle fails with the machine-code error iff the top nibble is 0 and the opcode is not 00E0, and with the invalid-instruction error iff the top nibble is outside {0,1,6,7,A,D} |
| `Properties.LoadImmediateIdempotent` | Chip8Emu/Emulator.cs:151-153 | Executing the same 6XNN twice gives the same outcome as once |
| `Properties.ClearScreenIdempotent` | Chip8Emu/Emulator.cs:134-136 | Clearing a cleared screen changes nothing |
| `Properties.DrawTwice` | Chip8Emu/Emulator.cs:184-193 | Redrawing the same sprite at the same anchor (X, Y ≠ F) succeeds, leaves the display exactly as the first draw did, and sets VF = 1 iff some set sprite bit lies on screen |
| `Properties.DrawEmptySprite` | Chip8Emu/Emulator.cs:160-174 | With N = 0 the draw reads no memory and succeeds for every I, leaving the display unchanged and VF = 0 |
| `Properties.RedrawCollides` | Chip8Emu/Emulator.cs:162-192 | Redrawing a wholly on-screen sprite with a non-zero row always sets VF = 1 |
| `Properties.ResetForgets` | Chip8Emu/Emulator.cs:45-50 | Machines agreeing on registers, memory and timers are equal after reset, whatever their PC, I, stack and display |
| `Properties.Boot` | Chip8Emu/Application.cs:19-25 | Constructing, loading a ROM and resetting gives PC = 0x200, I = 0, an empty stack, zero registers, the fonts at 0, the ROM at 0x200, zero elsewhere, and the first fetch decodes the ROM's first two bytes |

## Left out

- The OpenTK window, its frame loop and its rendering (Chip8Emu/Window.cs): user interface and foreign library calls.
- Reading the ROM from a fixed file path and wiring the window to the engine (Chip8Emu/Application.cs): file I/O and host plumbing; only the construct/load/reset order is used, in `Properties.Boot`.
- The display sink `Display?.Render()`: an external callback, modelled as the `rendered` flag of a cycle, which is set after every successful draw whether or not a sink is attached.
- The hexadecimal strings built for debugging in the decoder and dispatcher: they affect no state.
- The delay and sound timers and the stack contents: declared but never read or written by the supported opcodes; kept as inert fields, and reset empties the stack.
- Exception types and messages: modelled as `Base.Error` variants. The partly updated state the engine is left in when it throws (PC already advanced, VF already cleared or part of a sprite already drawn) is not kept; every error is fatal to the run.
- The contents of the font table and the display dimensions come from a constants class that is not part of this model: the dimensions are the CHIP-8 64×32, and the font table is a parameter of `Emulator.New`.
- `Emulator.Draw` reads the rows the loop reaches as one slice of memory before blitting, rather than one byte per row inside the loop. When the loop reaches no row, nothing is read and the draw cannot fail, as in the engine. Otherwise a failing read is fatal either way, so the outcome is the same for every I.
- The narrower field types of `Instruction.Instruction` (nibbles for X, Y, N and 12 bits for NNN): the engine declares them as bytes and a 16-bit word, but only the decoder builds instructions and it never exceeds these widths.
- A run of several cycles, as a host loop would drive it, is not modelled; properties are stated per cycle.
