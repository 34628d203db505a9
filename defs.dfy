/** The fixed constants of the LC-3 machine: memory size, memory-mapped
    device addresses, register-file indices, condition flags and the
    sixteen opcodes with their numbering. */
module Defs {

  /** Number of 16-bit words of memory: every `bv16` address names one. */
  const MemoryMax: nat := 0x1_0000

  /** Keyboard status register (bit 15 set when a key has been latched). */
  const MrKbsr: bv16 := 0xFE00
  /** Keyboard data register (the latched character). */
  const MrKbdr: bv16 := 0xFE02

  /** Register-file indices: R0..R7 are the general registers. */
  const R0: nat := 0
  const R7: nat := 7
  const RPc: nat := 8
  const RCond: nat := 9
  const RCount: nat := 10

  /** Condition flags, one bit each. */
  const FlPos: bv16 := 1
  const FlZro: bv16 := 2
  const FlNeg: bv16 := 4

  /** Initial program counter. */
  const PcStart: bv16 := 0x3000

  datatype Opcode =
    | Br | Add | Ld | St | Jsr | And | Ldr | Str
    | Rti | Not | Ldi | Sti | Jmp | Res | Lea | Trap

  /** The number the enumeration gives each opcode (0 for Br, ..., 15 for Trap). */
  function Number(op: Opcode): (n: bv16)
    ensures n < 16
  {
    match op
    case Br => 0
    case Add => 1
    case Ld => 2
    case St => 3
    case Jsr => 4
    case And => 5
    case Ldr => 6
    case Str => 7
    case Rti => 8
    case Not => 9
    case Ldi => 10
    case Sti => 11
    case Jmp => 12
    case Res => 13
    case Lea => 14
    case Trap => 15
  }

  /** The opcode a 4-bit top nibble selects: every nibble selects one whose
      number it is. */
  function OpcodeOf(nibble: bv16): (op: Opcode)
    requires nibble < 16
    ensures Number(op) == nibble
  {
    if nibble == 0 then Br
    else if nibble == 1 then Add
    else if nibble == 2 then Ld
    else if nibble == 3 then St
    else if nibble == 4 then Jsr
    else if nibble == 5 then And
    else if nibble == 6 then Ldr
    else if nibble == 7 then Str
    else if nibble == 8 then Rti
    else if nibble == 9 then Not
    else if nibble == 10 then Ldi
    else if nibble == 11 then Sti
    else if nibble == 12 then Jmp
    else if nibble == 13 then Res
    else if nibble == 14 then Lea
    else Trap
  }

  /** The numbering is one-to-one, so a nibble selects exactly one opcode,
      and decoding the number of an opcode gives that opcode back. */
  lemma NumberingIsBijective(a: Opcode, b: Opcode)
    ensures Number(a) == Number(b) ==> a == b
    ensures OpcodeOf(Number(a)) == a
  {
  }

  /** The three flags are distinct single bits, so a 3-bit n/z/p mask tests
      each of them on its own. */
  lemma FlagsAreDistinctBits()
    ensures FlPos & FlZro == 0 && FlPos & FlNeg == 0 && FlZro & FlNeg == 0
    ensures FlPos == 1 << 0 && FlZro == 1 << 1 && FlNeg == 1 << 2
  {
  }

  /** A 3-bit register field names R0..R7 only, never PC or COND. */
  lemma RegisterFieldNamesGeneralRegister(field: bv16)
    requires field < 8
    ensures field as int < RPc && field as int < RCond && RPc < RCount && RCond < RCount
  {
  }

  /** The keyboard status and data registers are distinct addresses. */
  lemma DeviceRegistersDistinct()
    ensures MrKbsr != MrKbdr
    ensures (MrKbsr as int) < MemoryMax && (MrKbdr as int) < MemoryMax
  {
  }

  /** Every 16-bit address indexes the memory. */
  lemma AddressInRange(a: bv16)
    ensures 0 <= a as int < MemoryMax
  {
  }
}
