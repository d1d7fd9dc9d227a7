/**
 Properties of whole cycles, stated in terms of the two bytes at PC, and
 properties that relate several operations: idempotence of the register
 load and of the screen clear, the effect of drawing a sprite twice, what
 reset forgets, and the state a loaded ROM starts from.
 */
module Properties {
  import opened Base
  import opened Instruction
  import opened Display
  import opened Emulator

  /** The two bytes at PC can be fetched. */
  predicate CanFetch(m: Machine) {
    Valid(m) && m.pc + 1 < MemorySize
  }

  function Hi(m: Machine): byte requires CanFetch(m) { m.memory[m.pc] }
  function Lo(m: Machine): byte requires CanFetch(m) { m.memory[m.pc + 1] }

  /** The 12-bit address NNN of the instruction at PC. */
  function Address(m: Machine): u12
    requires CanFetch(m)
  {
    (Hi(m) % 0x10) * 0x100 + Lo(m)
  }

  /** 1NNN jumps to NNN and changes nothing else: registers, index, memory
      and the display all stay. */
  lemma CycleJump(m: Machine)
    requires CanFetch(m) && Hi(m) / 0x10 == 0x1
    ensures ExecuteCycle(m) == Ok(Cycle(m.(pc := Address(m)), false))
  {
  }

  /** 6XNN loads NN into V[X] and moves on; no other register changes, so
      VF changes only when X is F. */
  lemma CycleLoadImmediate(m: Machine)
    requires CanFetch(m) && Hi(m) / 0x10 == 0x6
    ensures ExecuteCycle(m) ==
      Ok(Cycle(m.(pc := m.pc + 2, v := m.v[Hi(m) % 0x10 := Lo(m)]), false))
  {
  }

  /** 7XNN adds NN to V[X] modulo 256 and moves on; no carry flag. */
  lemma CycleAddImmediate(m: Machine)
    requires CanFetch(m) && Hi(m) / 0x10 == 0x7
    ensures ExecuteCycle(m) ==
      Ok(Cycle(m.(pc := m.pc + 2, v := m.v[Hi(m) % 0x10 := (m.v[Hi(m) % 0x10] as int + Lo(m)) % 0x100]), false))
  {
  }

  /** ANNN loads NNN into I and moves on. */
  lemma CycleSetIndex(m: Machine)
    requires CanFetch(m) && Hi(m) / 0x10 == 0xA
    ensures ExecuteCycle(m) == Ok(Cycle(m.(pc := m.pc + 2, i := Address(m)), false))
  {
  }

  /** 00E0 replaces the display with a dark one and moves on. */
  lemma CycleClearScreen(m: Machine)
    requires CanFetch(m) && Hi(m) == 0x00 && Lo(m) == 0xE0
    ensures ExecuteCycle(m) == Ok(Cycle(m.(pc := m.pc + 2, graphics := Blank()), false))
  {
    var inst := Fetch(m);
    assert inst == Decode(0x00, 0xE0);
    assert inst.opcode == 0x00E0 && Family(inst.opcode) == 0;
  }

  /** DXYN draws on the machine with PC already advanced: the cycle succeeds
      and asks for a render exactly when that draw succeeds, and otherwise
      fails with the draw's error. */
  lemma CycleDraw(m: Machine)
    requires CanFetch(m) && Hi(m) / 0x10 == 0xD
    ensures var drawn := Draw(m.(pc := m.pc + 2), Fetch(m));
      && (drawn.Ok? ==> ExecuteCycle(m) == Ok(Cycle(drawn.value, true)))
      && (drawn.Err? ==> ExecuteCycle(m) == Err(drawn.error))
  {
    var inst := Fetch(m);
    assert Family(inst.opcode) == 0xD000;
    var advanced := m.(pc := m.pc + 2);
    assert ExecuteCycle(m) == ExecuteInstruction(advanced, inst);
  }

  /** A zero-row sprite reads no memory, so the draw succeeds whatever I
      holds: it leaves the display as it was and clears VF. */
  lemma DrawEmptySprite(m: Machine, inst: Instruction)
    requires Valid(m) && inst.n == 0
    ensures Draw(m, inst).Ok?
    ensures Draw(m, inst).value.graphics == m.graphics
    ensures Draw(m, inst).value.v[FlagRegister] == 0
  {
    var next := Draw(m, inst).value;
    forall x | 0 <= x < Width
      ensures next.graphics[x] == m.graphics[x]
    {
      assert forall y | 0 <= y < Height :: next.graphics[x][y] == m.graphics[x][y];
    }
  }

  /** Which opcodes are rejected, and with which error: any other 0NNN is an
      unsupported machine-code call, and a top nibble outside
      {0, 1, 6, 7, A, D} is an invalid instruction. */
  lemma CycleRejects(m: Machine)
    requires CanFetch(m)
    ensures var opcode := Hi(m) * 0x100 + Lo(m);
      ExecuteCycle(m) == Err(MachineCodeNotSupported(opcode)) <==>
        Hi(m) / 0x10 == 0 && !(Hi(m) == 0x00 && Lo(m) == 0xE0)
    ensures var opcode := Hi(m) * 0x100 + Lo(m);
      ExecuteCycle(m) == Err(InvalidInstruction(opcode)) <==>
        Hi(m) / 0x10 !in {0x0, 0x1, 0x6, 0x7, 0xA, 0xD}
  {
  }

  /** Loading the same immediate twice is the same as loading it once. */
  lemma LoadImmediateIdempotent(m: Machine, inst: Instruction)
    requires Valid(m) && Family(inst.opcode) == 0x6000
    ensures var once := ExecuteInstruction(m, inst);
      once.Ok? && ExecuteInstruction(once.value.machine, inst) == once
  {
    var loaded := m.v[inst.x := inst.nn];
    assert loaded[inst.x := inst.nn] == loaded;
  }

  /** Clearing an already dark screen succeeds and changes nothing. */
  lemma ClearScreenIdempotent(m: Machine)
    requires Valid(m)
    ensures ClearScreen(ClearScreen(m)) == ClearScreen(m)
  {
  }

  /** Drawing a sprite a second time in the same place, with X and Y not
      naming VF (so the anchor is the same), leaves the display exactly as
      the first draw left it, since the engine never erases; and it reports
      a collision exactly when some set bit of the sprite is on screen. */
  lemma {:induction false} DrawTwice(m: Machine, inst: Instruction)
    requires Valid(m) && inst.x != FlagRegister && inst.y != FlagRegister
    requires Draw(m, inst).Ok?
    ensures var once := Draw(m, inst).value;
      var twice := Draw(once, inst);
      && twice.Ok?
      && twice.value.graphics == once.graphics
      && (twice.value.v[FlagRegister] == 1 <==>
          Visible(SpriteRows(m, inst), XCoord(m, inst), YCoord(m, inst)))
  {
    var once := Draw(m, inst).value;
    var rows, x0, y0 := SpriteRows(m, inst), XCoord(m, inst), YCoord(m, inst);
    assert XCoord(once, inst) == x0 && YCoord(once, inst) == y0;
    assert SpriteInRange(once, inst);
    assert SpriteRows(once, inst) == rows;
    var twice := Draw(once, inst).value;
    forall x | 0 <= x < Width
      ensures twice.graphics[x] == once.graphics[x]
    {
      assert forall y | 0 <= y < Height :: twice.graphics[x][y] == once.graphics[x][y];
    }
    if Visible(rows, x0, y0) {
      var x, y :| 0 <= x < Width && 0 <= y < Height && Covers(rows, x0, y0, x, y) && SpriteAt(rows, x0, y0, x, y);
      assert once.graphics[x][y];
      assert Collides(once.graphics, rows, x0, y0);
    }
  }

  /** Redrawing an identical sprite that lies wholly on screen and has a
      non-zero row always reports a collision. */
  lemma {:induction false} RedrawCollides(m: Machine, inst: Instruction, row: nat)
    requires Valid(m) && inst.x != FlagRegister && inst.y != FlagRegister
    requires XCoord(m, inst) + 8 <= Width && YCoord(m, inst) + inst.n <= Height
    requires m.i + inst.n <= MemorySize
    requires row < inst.n && m.memory[m.i + row] != 0
    ensures Draw(m, inst).Ok?
    ensures var once := Draw(m, inst).value;
      Draw(once, inst).Ok? && Draw(once, inst).value.v[FlagRegister] == 1
  {
    var rows, x0, y0 := SpriteRows(m, inst), XCoord(m, inst), YCoord(m, inst);
    assert rows[row] == m.memory[m.i + row];
    NonzeroHasSetBit(rows[row]);
    var k :| 0 <= k < 8 && SpriteBit(rows[row], k);
    var x, y := x0 + 7 - k, y0 + row;
    assert Covers(rows, x0, y0, x, y) && SpriteAt(rows, x0, y0, x, y);
    DrawTwice(m, inst);
  }

  /** Reset discards the program counter, the index register, the stack and
      the display: machines that agree on registers, memory and timers are
      indistinguishable after a reset. */
  lemma ResetForgets(m: Machine, m': Machine)
    requires Valid(m) && Valid(m')
    requires m.v == m'.v && m.memory == m'.memory
    requires m.delayTimer == m'.delayTimer && m.soundTimer == m'.soundTimer
    ensures Reset(m) == Reset(m')
  {
  }

  /** Constructing the engine, loading a ROM and resetting it leaves the font
      table at address 0, the ROM at RomStart, zero elsewhere, and PC on the
      first ROM byte, so that the first cycle decodes the ROM's first two
      bytes. */
  lemma {:induction false} Boot(fonts: seq<byte>, rom: seq<byte>)
    requires |fonts| <= RomStart && |rom| <= MemorySize - RomStart
    ensures New(fonts).Ok? && LoadRom(New(fonts).value, rom).Ok?
    ensures var ready := Reset(LoadRom(New(fonts).value, rom).value);
      && ready.pc == RomStart && ready.i == 0 && ready.stack == []
      && (forall k | 0 <= k < RegisterCount :: ready.v[k] == 0)
      && (forall a | 0 <= a < |fonts| :: ready.memory[a] == fonts[a])
      && (forall a | 0 <= a < |rom| :: ready.memory[RomStart + a] == rom[a])
      && (forall a | |fonts| <= a < RomStart || RomStart + |rom| <= a < MemorySize :: ready.memory[a] == 0)
      && (|rom| >= 2 ==> Fetch(ready) == Decode(rom[0], rom[1]))
  {
    var built := New(fonts).value;
    var loaded := LoadRom(built, rom).value;
    var ready := Reset(loaded);
    forall a | 0 <= a < |rom|
      ensures ready.memory[RomStart + a] == rom[a]
    {
      assert loaded.memory[RomStart + a] == rom[RomStart + a - RomStart];
    }
  }
}
