/**
 Machine-width integer types, the fixed configuration of the CHIP-8 engine,
 and the failures the engine can raise.

 The engine stores bytes (`byte`) and 16-bit words (`ushort`); both are
 modelled as bounded subsets of `int`, and every place where the engine's
 arithmetic wraps is written out explicitly where it happens.
 */
module Base {

  type byte = b: int | 0 <= b < 0x100
  type u16 = w: int | 0 <= w < 0x1_0000
  /** A 12-bit memory address, as carried in the NNN field of an opcode. */
  type u12 = a: int | 0 <= a < 0x1000
  /** A 4-bit field of an opcode (a register index or a sprite height). */
  type nibble = h: int | 0 <= h < 0x10

  /** Size of the address space in bytes. */
  const MemorySize: nat := 4096
  /** Number of general-purpose registers V0..VF. */
  const RegisterCount: nat := 16
  /** VF doubles as the collision flag of the draw instruction. */
  const FlagRegister: nibble := 0xF
  /** Logical display resolution. */
  const Width: nat := 64
  const Height: nat := 32
  /** Address at which a ROM image is loaded and execution starts. */
  const RomStart: u16 := 0x200

  /** The conditions under which the engine stops with an exception. */
  datatype Error =
    | FetchOutOfRange(pc: u16)            // memory[PC] or memory[PC + 1] is past the end of memory
    | SpriteOutOfRange(index: u16)        // a sprite row memory[I + row] is past the end of memory
    | MachineCodeNotSupported(opcode: u16) // a 0NNN opcode other than 00E0
    | InvalidInstruction(opcode: u16)     // a top nibble the dispatcher does not handle
    | CopyOverflow(offset: nat, length: nat) // a block copy that does not fit into memory

  datatype Result<+T> = Ok(value: T) | Err(error: Error)
}
