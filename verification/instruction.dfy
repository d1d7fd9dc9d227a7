/**
 The instruction decoder: two fetched bytes become an instruction record
 whose fields are the fixed bit-fields of the 16-bit opcode.
 */
module Instruction {
  import opened Base

  /** The decoded form of one opcode. Only the decoder builds these, so each
      field already carries the width of the bit-field it was masked from. */
  datatype Instruction = Instruction(
    opcode: u16,
    nnn: u12,     // bits 0-11: an address
    nn: byte,     // bits 0-7: an immediate byte
    n: nibble,    // bits 0-3: a sprite height
    x: nibble,    // bits 8-11: a register index
    y: nibble     // bits 4-7: a register index
  )

  /** `opcode & 0xF000`: the instruction family selected by the top nibble,
      left in place. */
  function Family(opcode: u16): (f: u16)
    ensures f % 0x1000 == 0
    ensures f <= opcode < f + 0x1000
  {
    (opcode / 0x1000) * 0x1000
  }

  /** The masks and shifts of the decoder, on the assembled word
      `first << 8 | second` (the two bytes occupy disjoint bits, so the
      bitwise or is an addition). The contract states the same fields in terms
      of the fetched bytes, and that the split loses nothing. */
  function Decode(first: byte, second: byte): (r: Instruction)
    ensures r.opcode == first * 0x100 + second
    ensures r.x == first % 0x10
    ensures r.y == second / 0x10
    ensures r.n == second % 0x10
    ensures r.nn == second
    ensures Family(r.opcode) == (first / 0x10) * 0x1000
    // the fields reassemble into the opcode
    ensures r.nnn == r.x * 0x100 + r.nn
    ensures r.nn == r.y * 0x10 + r.n
    ensures Family(r.opcode) + r.nnn == r.opcode
  {
    var opcode := first * 0x100 + second;
    OpcodeFields(first, second);
    Instruction(
      opcode := opcode,
      nnn := opcode % 0x1000,
      nn := opcode % 0x100,
      n := opcode % 0x10,
      x := (opcode / 0x100) % 0x10,
      y := (opcode / 0x10) % 0x10
    )
  }

  /** The nibble and byte fields of `first * 0x100 + second`. */
  lemma OpcodeFields(first: byte, second: byte)
    ensures var opcode := first * 0x100 + second;
      && opcode / 0x100 == first && opcode % 0x100 == second
      && (opcode / 0x100) % 0x10 == first % 0x10
      && (opcode / 0x10) % 0x10 == second / 0x10
      && opcode % 0x10 == second % 0x10
      && opcode % 0x1000 == (first % 0x10) * 0x100 + second
      && opcode / 0x1000 == first / 0x10
  {
    var opcode := first * 0x100 + second;
    var hi, lo := first / 0x10, first % 0x10;
    var sh, sl := second / 0x10, second % 0x10;
    assert opcode == 0x1000 * hi + 0x100 * lo + 0x10 * sh + sl;
    assert opcode / 0x10 == first * 0x10 + sh;
  }

  /** Decoding is lossless: distinct byte pairs never decode alike. */
  lemma DecodeInjective(a: byte, b: byte, c: byte, d: byte)
    requires Decode(a, b) == Decode(c, d)
    ensures a == c && b == d
  {
    var r := Decode(a, b);
    assert a == r.opcode / 0x100 && b == r.opcode % 0x100;
  }
}
