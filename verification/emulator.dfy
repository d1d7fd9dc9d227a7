/**
 The machine state of the CHIP-8 engine and its lifecycle: construction
 (with the font table), ROM loading, reset and the fetch-decode-execute
 cycle over the supported opcodes 00E0, 0NNN (rejected), 1NNN, 6XNN, 7XNN,
 ANNN and DXYN.

 Every operation is a pure function from one machine to the next. An
 operation that throws in the engine returns `Err` here; the partly updated
 state the engine is left in when it throws is not kept.
 */
module Emulator {
  import opened Base
  import opened Instruction
  import opened Display

  /** The state the engine owns. The stack and the two timers are declared
      but unused by the supported opcodes; reset empties the stack. */
  datatype Machine = Machine(
    memory: seq<byte>,
    v: seq<byte>,
    pc: u16,
    i: u16,
    stack: seq<u16>,
    delayTimer: u16,
    soundTimer: u16,
    graphics: Grid
  )

  /** The fixed sizes of memory, the register file and the display. */
  predicate Valid(m: Machine) {
    |m.memory| == MemorySize && |m.v| == RegisterCount && IsGrid(m.graphics)
  }

  /** The outcome of one cycle: the next machine, and whether the display sink
      was asked to render (the engine does so after every draw). */
  datatype Cycle = Cycle(machine: Machine, rendered: bool)

  // ---------------------------------------------------------------------------
  // Lifecycle
  // ---------------------------------------------------------------------------

  /** `src.CopyTo(dest, offset)`: the block copy fails when `src` does not fit
      into `dest` from `offset` on; otherwise it overwrites exactly
      `dest[offset .. offset + |src|]`. */
  function CopyInto(dest: seq<byte>, src: seq<byte>, offset: nat): (r: Result<seq<byte>>)
    ensures r.Err? <==> offset + |src| > |dest|
    ensures r.Err? ==> r.error == CopyOverflow(offset, |src|)
    ensures r.Ok? ==> |r.value| == |dest|
    ensures r.Ok? ==> forall k | 0 <= k < |dest| ::
      r.value[k] == if offset <= k < offset + |src| then src[k - offset] else dest[k]
  {
    if offset + |src| > |dest| then Err(CopyOverflow(offset, |src|))
    else Ok(dest[..offset] + src + dest[offset + |src|..])
  }

  /** Copies the font table to address 0. */
  function LoadFonts(m: Machine, fonts: seq<byte>): (r: Result<Machine>)
    requires Valid(m)
    ensures r.Err? <==> |fonts| > MemorySize
    ensures r.Ok? ==> Valid(r.value) && r.value.(memory := m.memory) == m
    ensures r.Ok? ==> r.value.memory[..|fonts|] == fonts
    ensures r.Ok? ==> r.value.memory[|fonts|..] == m.memory[|fonts|..]
  {
    match CopyInto(m.memory, fonts, 0)
    case Err(e) => Err(e)
    case Ok(mem) =>
      assert mem[..|fonts|] == fonts;
      assert mem[|fonts|..] == m.memory[|fonts|..];
      Ok(m.(memory := mem))
  }

  /** The constructor: zeroed memory, registers and timers, a dark display,
      and the font table at address 0. The engine's font table is a
      constant of its configuration; here it is a parameter. */
  function New(fonts: seq<byte>): (r: Result<Machine>)
    ensures r.Err? <==> |fonts| > MemorySize
    ensures r.Ok? ==> Valid(r.value)
    ensures r.Ok? ==> forall a | 0 <= a < MemorySize ::
      r.value.memory[a] == if a < |fonts| then fonts[a] else 0
    ensures r.Ok? ==> forall k | 0 <= k < RegisterCount :: r.value.v[k] == 0
    ensures r.Ok? ==> r.value.pc == 0 && r.value.i == 0 && r.value.stack == []
    ensures r.Ok? ==> r.value.delayTimer == 0 && r.value.soundTimer == 0
    ensures r.Ok? ==> forall x, y | 0 <= x < Width && 0 <= y < Height :: !r.value.graphics[x][y]
  {
    var m := Machine(seq(MemorySize, _ => 0), seq(RegisterCount, _ => 0), 0, 0, [], 0, 0, Blank());
    var r := LoadFonts(m, fonts);
    if r.Ok? then
      assert forall a | |fonts| <= a < MemorySize :: r.value.memory[a] == r.value.memory[|fonts|..][a - |fonts|];
      r
    else r
  }

  /** Copies a ROM image to RomStart. */
  function LoadRom(m: Machine, rom: seq<byte>): (r: Result<Machine>)
    requires Valid(m)
    ensures r.Err? <==> |rom| > MemorySize - RomStart
    ensures r.Ok? ==> Valid(r.value)
    ensures r.Ok? ==> forall a | 0 <= a < MemorySize ::
      r.value.memory[a] == if RomStart <= a < RomStart + |rom| then rom[a - RomStart] else m.memory[a]
    ensures r.Ok? ==> r.value.(memory := m.memory) == m
  {
    match CopyInto(m.memory, rom, RomStart)
    case Err(e) => Err(e)
    case Ok(mem) => Ok(m.(memory := mem))
  }

  /** Returns to the ready state: execution restarts at RomStart with an empty
      stack and a dark display. Registers, memory and timers are kept. */
  function Reset(m: Machine): (r: Machine)
    requires Valid(m)
    ensures Valid(r)
    ensures r.pc == RomStart && r.i == 0 && r.stack == []
    ensures forall x, y | 0 <= x < Width && 0 <= y < Height :: !r.graphics[x][y]
    ensures r.v == m.v && r.memory == m.memory
    ensures r.delayTimer == m.delayTimer && r.soundTimer == m.soundTimer
  {
    m.(pc := RomStart, i := 0, stack := [], graphics := Blank())
  }

  // ---------------------------------------------------------------------------
  // Instruction handlers
  // ---------------------------------------------------------------------------

  /** 00E0: a dark display, nothing else touched. */
  function ClearScreen(m: Machine): (r: Machine)
    requires Valid(m)
    ensures Valid(r)
    ensures forall x, y | 0 <= x < Width && 0 <= y < Height :: !r.graphics[x][y]
    ensures r.(graphics := m.graphics) == m
  {
    m.(graphics := Blank())
  }

  /** 1NNN: PC := NNN, with no return address pushed. */
  function Jump(m: Machine, inst: Instruction): (r: Machine)
    requires Valid(m)
    ensures Valid(r)
    ensures r.pc == inst.nnn && r.(pc := m.pc) == m
  {
    m.(pc := inst.nnn)
  }

  /** 6XNN: V[X] := NN. */
  function SetRegister(m: Machine, inst: Instruction): (r: Machine)
    requires Valid(m)
    ensures Valid(r)
    ensures r.v[inst.x] == inst.nn
    ensures forall k | 0 <= k < RegisterCount && k != inst.x :: r.v[k] == m.v[k]
    ensures r.(v := m.v) == m
  {
    m.(v := m.v[inst.x := inst.nn])
  }

  /** 7XNN: V[X] := V[X] + NN, wrapping at 256 as byte arithmetic does;
      no flag is set. */
  function AddRegister(m: Machine, inst: Instruction): (r: Machine)
    requires Valid(m)
    ensures Valid(r)
    ensures r.v[inst.x] < 0x100
    ensures m.v[inst.x] as int + inst.nn < 0x100 ==> r.v[inst.x] == m.v[inst.x] as int + inst.nn
    ensures m.v[inst.x] as int + inst.nn >= 0x100 ==> r.v[inst.x] == m.v[inst.x] as int + inst.nn - 0x100
    ensures forall k | 0 <= k < RegisterCount && k != inst.x :: r.v[k] == m.v[k]
    ensures r.(v := m.v) == m
  {
    m.(v := m.v[inst.x := (m.v[inst.x] as int + inst.nn) % 0x100])
  }

  /** ANNN: I := NNN. */
  function SetIndex(m: Machine, inst: Instruction): (r: Machine)
    requires Valid(m)
    ensures Valid(r)
    ensures r.i == inst.nnn && r.(i := m.i) == m
  {
    m.(i := inst.nnn)
  }

  /** The number of sprite rows the draw loop reads before it stops, either
      after N rows or at the bottom edge of the display. */
  function RowsReached(yCoord: nat, n: nat): (rows: nat)
    requires yCoord < Height
    ensures rows <= n && yCoord + rows <= Height
    ensures rows == n || yCoord + rows == Height
  {
    if yCoord + n <= Height then n else Height - yCoord
  }

  /** The anchor of a DXYN sprite: V[X] and V[Y] reduced onto the display
      (the anchor wraps, the sprite does not). They are read before VF is
      cleared, so X = F or Y = F uses the old flag. */
  function XCoord(m: Machine, inst: Instruction): (x: nat)
    requires Valid(m)
    ensures x < Width
  {
    m.v[inst.x] % Width
  }

  function YCoord(m: Machine, inst: Instruction): (y: nat)
    requires Valid(m)
    ensures y < Height
  {
    m.v[inst.y] % Height
  }

  /** Every sprite row the draw loop reads lies in memory. When the loop
      reads no row at all (N = 0) nothing is read, whatever I holds. */
  predicate SpriteInRange(m: Machine, inst: Instruction)
    requires Valid(m)
  {
    var rows := RowsReached(YCoord(m, inst), inst.n);
    rows == 0 || m.i + rows <= MemorySize
  }

  /** The bytes the draw loop reads: memory[I + row] for each row reached. */
  function SpriteRows(m: Machine, inst: Instruction): (rows: seq<byte>)
    requires Valid(m) && SpriteInRange(m, inst)
    ensures |rows| == RowsReached(YCoord(m, inst), inst.n)
    ensures forall row | 0 <= row < |rows| :: rows[row] == m.memory[m.i + row]
  {
    var reached := RowsReached(YCoord(m, inst), inst.n);
    if reached == 0 then [] else m.memory[m.i .. m.i + reached]
  }

  /** DXYN: blit the N-row sprite at memory[I] to the anchor, clipped at the
      right and bottom edges; VF := 1 when a set sprite bit lands on a lit
      pixel, else 0. A set bit on a dark pixel lights it; a lit pixel stays
      lit. Fails when a row the loop reaches lies past the end of memory. */
  function Draw(m: Machine, inst: Instruction): (r: Result<Machine>)
    requires Valid(m)
    ensures r.Err? <==> !SpriteInRange(m, inst)
    ensures r.Err? ==> r.error == SpriteOutOfRange(m.i)
    ensures r.Ok? ==> Valid(r.value)
    ensures r.Ok? ==> forall x, y | 0 <= x < Width && 0 <= y < Height ::
      r.value.graphics[x][y] == (m.graphics[x][y] ||
        (Covers(SpriteRows(m, inst), XCoord(m, inst), YCoord(m, inst), x, y)
         && SpriteAt(SpriteRows(m, inst), XCoord(m, inst), YCoord(m, inst), x, y)))
    // no pixel is turned off, and nothing outside the clipped sprite changes
    ensures r.Ok? ==> forall x, y | 0 <= x < Width && 0 <= y < Height ::
      m.graphics[x][y] ==> r.value.graphics[x][y]
    ensures r.Ok? ==> forall x, y | 0 <= x < Width && 0 <= y < Height &&
      !(XCoord(m, inst) <= x < XCoord(m, inst) + 8 && YCoord(m, inst) <= y < YCoord(m, inst) + RowsReached(YCoord(m, inst), inst.n)) ::
      r.value.graphics[x][y] == m.graphics[x][y]
    ensures r.Ok? ==>
      r.value.v[FlagRegister] == (if Collides(m.graphics, SpriteRows(m, inst), XCoord(m, inst), YCoord(m, inst)) then 1 else 0)
    ensures r.Ok? ==> forall k | 0 <= k < FlagRegister :: r.value.v[k] == m.v[k]
    ensures r.Ok? ==> r.value.(v := m.v, graphics := m.graphics) == m
  {
    if !SpriteInRange(m, inst) then
      Err(SpriteOutOfRange(m.i))
    else
      var xCoord, yCoord := XCoord(m, inst), YCoord(m, inst);
      var rows := SpriteRows(m, inst);
      var cleared := m.v[FlagRegister := 0];
      var blit := DrawRows(m.graphics, rows, xCoord, yCoord, false);
      Ok(m.(v := cleared[FlagRegister := if blit.collided then 1 else 0], graphics := blit.grid))
  }

  // ---------------------------------------------------------------------------
  // Dispatch and the cycle
  // ---------------------------------------------------------------------------

  /** The top-nibble families the dispatcher handles. */
  predicate Supported(opcode: u16) {
    Family(opcode) in {0x0000, 0x1000, 0x6000, 0x7000, 0xA000, 0xD000}
  }

  /** Dispatch on `opcode & 0xF000`. Family 0 is refined on the full opcode:
      00E0 clears the screen and every other 0NNN is rejected. The engine's
      second `case 0x00E0` arm is unreachable (a family value is a multiple
      of 0x1000) and has no counterpart here. */
  function ExecuteInstruction(m: Machine, inst: Instruction): (r: Result<Cycle>)
    requires Valid(m)
    ensures r.Err? <==>
      || (Family(inst.opcode) == 0 && inst.opcode != 0x00E0)
      || !Supported(inst.opcode)
      || (Family(inst.opcode) == 0xD000 && !SpriteInRange(m, inst))
    ensures r.Err? && Family(inst.opcode) == 0 ==> r.error == MachineCodeNotSupported(inst.opcode)
    ensures r.Err? && !Supported(inst.opcode) ==> r.error == InvalidInstruction(inst.opcode)
    ensures r.Err? && Family(inst.opcode) == 0xD000 ==> r.error == SpriteOutOfRange(m.i)
    ensures r.Ok? ==> Valid(r.value.machine)
    ensures r.Ok? ==> (r.value.rendered <==> Family(inst.opcode) == 0xD000)
    // memory, the stack and the timers are never written by an instruction
    ensures r.Ok? ==> r.value.machine.memory == m.memory && r.value.machine.stack == m.stack
    ensures r.Ok? ==> r.value.machine.delayTimer == m.delayTimer && r.value.machine.soundTimer == m.soundTimer
    ensures r.Ok? && Family(inst.opcode) != 0x1000 ==> r.value.machine.pc == m.pc
  {
    var family := Family(inst.opcode);
    if family == 0x0000 && inst.opcode == 0x00E0 then Ok(Cycle(ClearScreen(m), false))
    else if family == 0x0000 then Err(MachineCodeNotSupported(inst.opcode))
    else if family == 0x1000 then Ok(Cycle(Jump(m, inst), false))
    else if family == 0x6000 then Ok(Cycle(SetRegister(m, inst), false))
    else if family == 0x7000 then Ok(Cycle(AddRegister(m, inst), false))
    else if family == 0xA000 then Ok(Cycle(SetIndex(m, inst), false))
    else if family == 0xD000 then
      match Draw(m, inst)
      case Ok(next) => Ok(Cycle(next, true))
      case Err(e) => Err(e)
    else Err(InvalidInstruction(inst.opcode))
  }

  /** The instruction at PC: the bytes at PC and PC + 1. */
  function Fetch(m: Machine): (inst: Instruction)
    requires Valid(m) && m.pc + 1 < MemorySize
  {
    Decode(m.memory[m.pc], m.memory[m.pc + 1])
  }

  /** One cycle: fetch at PC (which fails past the end of memory), decode,
      advance PC by 2 as a 16-bit counter, then execute. */
  function ExecuteCycle(m: Machine): (r: Result<Cycle>)
    requires Valid(m)
    ensures m.pc + 1 >= MemorySize <==> r.Err? && r.error == FetchOutOfRange(m.pc)
    ensures r.Ok? ==> Valid(r.value.machine)
    ensures r.Ok? ==> r.value.machine.memory == m.memory && r.value.machine.stack == m.stack
    ensures r.Ok? ==> r.value.machine.delayTimer == m.delayTimer && r.value.machine.soundTimer == m.soundTimer
    // every instruction but a jump leaves PC on the next instruction
    ensures r.Ok? && m.memory[m.pc] / 0x10 != 0x1 ==> r.value.machine.pc == m.pc + 2
    ensures r.Ok? && m.memory[m.pc] / 0x10 == 0x1 ==>
      r.value.machine.pc == (m.memory[m.pc] as int % 0x10) * 0x100 + m.memory[m.pc + 1]
  {
    if m.pc + 1 >= MemorySize then
      Err(FetchOutOfRange(m.pc))
    else
      var inst := Fetch(m);
      var advanced := m.(pc := (m.pc + 2) % 0x1_0000);
      ExecuteInstruction(advanced, inst)
  }
}
