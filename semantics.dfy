/** The LC-3 CPU as a state-transition function: the machine state as a
    value and every operation of the emulator (the memory gate, the flag
    update, the fetch, each opcode, the trap routines, the run loop and the
    image loader) as a function from the old state to the new one. The
    imperative machine in module Cpu is proved to compute exactly these. */
module Semantics {
  import opened Defs
  import opened Bits

  datatype Option<T> = None | Some(value: T)

  /** The whole observable state. `reg` and `mem` are the register file and
      memory; `running` the run flag. The terminal is explicit:
      `input` holds the bytes `getchar` will return, `polls` the answers the
      non-blocking key check will give to successive polls (once it is
      exhausted no key is ready), and `output` every byte written so far. */
  datatype Machine = Machine(
    reg: seq<bv16>,
    mem: seq<bv16>,
    running: bool,
    input: seq<bv8>,
    polls: seq<bool>,
    output: seq<bv8>)
  {
    predicate Valid()
    {
      |reg| == RCount && |mem| == MemoryMax
    }
  }

  /** The state after construction: memory and registers cleared, PC at
      0x3000, COND at FL_ZRO, not running. */
  function Initial(input: seq<bv8>, polls: seq<bool>): (m: Machine)
    ensures m.Valid()
  {
    Machine(
      seq(RCount, i => if i == RPc then PcStart else if i == RCond then FlZro else 0),
      seq(MemoryMax, a => 0),
      false, input, polls, [])
  }

  // ---------------------------------------------------------------- fields

  /** The 3-bit register field whose lowest bit is `lo`. */
  function Field3(instr: bv16, lo: bv16): (r: nat)
    requires lo <= 9
    ensures r < 8
  {
    ((instr >> lo) & 7) as int
  }

  /** Bits 11-9: the destination (or, for stores, the source) register. */
  function Dr(instr: bv16): (r: nat) ensures r < 8 { Field3(instr, 9) }
  /** Bits 8-6: the first source or the base register. */
  function Sr1(instr: bv16): (r: nat) ensures r < 8 { Field3(instr, 6) }
  /** Bits 2-0: the second source register. */
  function Sr2(instr: bv16): (r: nat) ensures r < 8 { Field3(instr, 0) }
  function ImmMode(instr: bv16): bool { (instr >> 5) & 1 == 1 }
  function Imm5(instr: bv16): bv16 { SignExtend(instr & 0x1F, 5) }
  function Offset6(instr: bv16): bv16 { SignExtend(instr & 0x3F, 6) }
  function PcOffset9(instr: bv16): bv16 { SignExtend(instr & 0x1FF, 9) }
  function PcOffset11(instr: bv16): bv16 { SignExtend(instr & 0x7FF, 11) }
  function CondMask(instr: bv16): bv16 { (instr >> 9) & 7 }
  function TrapVector(instr: bv16): bv16 { instr & 0xFF }
  function OpOf(instr: bv16): Opcode { OpcodeOf(instr >> 12) }

  // ------------------------------------------------------- condition flags

  /** The flag `update_flags` stores for a written value; zero is tested
      before the sign bit. */
  function CondFor(v: bv16): (f: bv16)
    ensures f == FlZro || f == FlNeg || f == FlPos
    ensures f == FlZro <==> v == 0
    ensures f == FlNeg <==> v & 0x8000 != 0
    ensures f == FlPos <==> 0 < v < 0x8000
  {
    if v == 0 then FlZro else if v >> 15 != 0 then FlNeg else FlPos
  }

  predicate CondValid(m: Machine)
    requires m.Valid()
  {
    m.reg[RCond] == FlPos || m.reg[RCond] == FlZro || m.reg[RCond] == FlNeg
  }

  function SetReg(m: Machine, r: nat, v: bv16): (m': Machine)
    requires m.Valid() && r < RCount
    ensures m'.Valid()
  {
    m.(reg := m.reg[r := v])
  }

  /** `update_flags(r)`: COND := the flag of reg[r]. */
  function UpdateFlags(m: Machine, r: nat): (m': Machine)
    requires m.Valid() && r < RCount
    ensures m'.Valid()
  {
    SetReg(m, RCond, CondFor(m.reg[r]))
  }

  function Emit(m: Machine, bytes: seq<bv8>): Machine
  {
    m.(output := m.output + bytes)
  }

  // ------------------------------------------------------ terminal oracles

  /** `getchar()` cast to a word: the next input byte, or EOF (-1) read as
      0xFFFF once the input is exhausted. */
  function GetChar(m: Machine): (res: (Machine, bv16))
    // EOF is told apart from every byte, and only a read byte is consumed
    ensures res.1 == 0xFFFF <==> m.input == []
    ensures m.input != [] ==> res.1 == m.input[0] as bv16 && res.0 == m.(input := m.input[1..])
    ensures m.input == [] ==> res.0 == m
  {
    if m.input == [] then (m, 0xFFFF) else (m.(input := m.input[1..]), m.input[0] as bv16)
  }

  /** One non-blocking poll of the keyboard. */
  function CheckKey(m: Machine): (res: (Machine, bool))
    // an exhausted oracle reports no key and stays exhausted
    ensures res.1 <==> m.polls != [] && m.polls[0]
    ensures res.0 == m.(polls := if m.polls == [] then [] else m.polls[1..])
  {
    if m.polls == [] then (m, false) else (m.(polls := m.polls[1..]), m.polls[0])
  }

  // ------------------------------------------------------------ memory gate

  /** The poll `mem_read` makes on a read of the keyboard status register:
      a ready key sets the status register to 0x8000 and latches the next
      input character into the data register; otherwise the status
      register is cleared. */
  function PollKeyboard(m: Machine): (m': Machine)
    requires m.Valid()
    ensures m'.Valid()
    ensures m'.reg == m.reg && m'.running == m.running && m'.output == m.output
  {
    var (m1, ready) := CheckKey(m);
    if ready then
      var (m2, c) := GetChar(m1);
      m2.(mem := m2.mem[MrKbsr as int := 0x8000][MrKbdr as int := c])
    else
      m1.(mem := m1.mem[MrKbsr as int := 0])
  }

  /** `mem_read`: a read of the keyboard status register polls the keyboard
      first; every other read is a plain load. */
  function MemRead(m: Machine, address: bv16): (res: (Machine, bv16))
    requires m.Valid()
    ensures res.0.Valid()
    ensures res.0.reg == m.reg && res.0.running == m.running && res.0.output == m.output
  {
    if address == MrKbsr then
      var m1 := PollKeyboard(m);
      (m1, m1.mem[MrKbsr as int])
    else
      (m, m.mem[address as int])
  }

  /** `mem_write`: a direct store. */
  function MemWrite(m: Machine, address: bv16, v: bv16): (m': Machine)
    requires m.Valid()
    ensures m'.Valid()
  {
    m.(mem := m.mem[address as int := v])
  }

  // ------------------------------------------------------------------ fetch

  /** Reads the word at PC through the gate and increments PC. */
  function Fetch(m: Machine): (res: (Machine, bv16))
    requires m.Valid()
    ensures res.0.Valid()
  {
    var pc := m.reg[RPc];
    var r := MemRead(m, pc);
    (SetReg(r.0, RPc, Add16(pc, 1)), r.1)
  }

  // ---------------------------------------------------------------- opcodes
  // Each takes the state after the fetch (reg[RPc] is the incremented PC)
  // and the fields its case of the dispatch extracts from the instruction.
  // Register fields are 3 bits wide, so they name R0..R7 only.

  function ExecBr(m: Machine, mask: bv16, offset: bv16): (m': Machine)
    requires m.Valid()
    ensures m'.Valid()
  {
    if mask & m.reg[RCond] != 0 then SetReg(m, RPc, Add16(m.reg[RPc], offset)) else m
  }

  function ExecAdd(m: Machine, dr: nat, sr1: nat, immMode: bool, imm: bv16, sr2: nat): (m': Machine)
    requires m.Valid() && dr < 8 && sr1 < 8 && sr2 < 8
    ensures m'.Valid()
  {
    var operand := if immMode then imm else m.reg[sr2];
    UpdateFlags(SetReg(m, dr, Add16(m.reg[sr1], operand)), dr)
  }

  function ExecAnd(m: Machine, dr: nat, sr1: nat, immMode: bool, imm: bv16, sr2: nat): (m': Machine)
    requires m.Valid() && dr < 8 && sr1 < 8 && sr2 < 8
    ensures m'.Valid()
  {
    var operand := if immMode then imm else m.reg[sr2];
    UpdateFlags(SetReg(m, dr, m.reg[sr1] & operand), dr)
  }

  function ExecNot(m: Machine, dr: nat, sr: nat): (m': Machine)
    requires m.Valid() && dr < 8 && sr < 8
    ensures m'.Valid()
  {
    UpdateFlags(SetReg(m, dr, !m.reg[sr]), dr)
  }

  /** The load shared by LD and LDR: reg[dr] := mem_read(address). */
  function LoadInto(m: Machine, dr: nat, address: bv16): (m': Machine)
    requires m.Valid() && dr < 8
    ensures m'.Valid()
  {
    var r := MemRead(m, address);
    UpdateFlags(SetReg(r.0, dr, r.1), dr)
  }

  function ExecLd(m: Machine, dr: nat, offset: bv16): (m': Machine)
    requires m.Valid() && dr < 8
    ensures m'.Valid()
  {
    LoadInto(m, dr, Add16(m.reg[RPc], offset))
  }

  function ExecLdr(m: Machine, dr: nat, base: nat, offset: bv16): (m': Machine)
    requires m.Valid() && dr < 8 && base < 8
    ensures m'.Valid()
  {
    LoadInto(m, dr, Add16(m.reg[base], offset))
  }

  /** LDI: the word at PC + offset is the address of the value loaded. */
  function ExecLdi(m: Machine, dr: nat, offset: bv16): (m': Machine)
    requires m.Valid() && dr < 8
    ensures m'.Valid()
  {
    var pointer := MemRead(m, Add16(m.reg[RPc], offset));
    LoadInto(pointer.0, dr, pointer.1)
  }

  /** LEA: the address itself, not the word there. */
  function ExecLea(m: Machine, dr: nat, offset: bv16): (m': Machine)
    requires m.Valid() && dr < 8
    ensures m'.Valid()
  {
    UpdateFlags(SetReg(m, dr, Add16(m.reg[RPc], offset)), dr)
  }

  function ExecSt(m: Machine, sr: nat, offset: bv16): (m': Machine)
    requires m.Valid() && sr < 8
    ensures m'.Valid()
  {
    MemWrite(m, Add16(m.reg[RPc], offset), m.reg[sr])
  }

  function ExecStr(m: Machine, sr: nat, base: nat, offset: bv16): (m': Machine)
    requires m.Valid() && sr < 8 && base < 8
    ensures m'.Valid()
  {
    MemWrite(m, Add16(m.reg[base], offset), m.reg[sr])
  }

  /** STI: the word at PC + offset is the address stored to. */
  function ExecSti(m: Machine, sr: nat, offset: bv16): (m': Machine)
    requires m.Valid() && sr < 8
    ensures m'.Valid()
  {
    var pointer := MemRead(m, Add16(m.reg[RPc], offset));
    MemWrite(pointer.0, pointer.1, pointer.0.reg[sr])
  }

  /** JSR (`long` set) and JSRR: R7 is written before the base register is
      read. */
  function ExecJsr(m: Machine, long: bool, base: nat, offset: bv16): (m': Machine)
    requires m.Valid() && base < 8
    ensures m'.Valid()
  {
    var m1 := SetReg(m, R7, m.reg[RPc]);
    if long then SetReg(m1, RPc, Add16(m1.reg[RPc], offset)) else SetReg(m1, RPc, m1.reg[base])
  }

  function ExecJmp(m: Machine, base: nat): (m': Machine)
    requires m.Valid() && base < 8
    ensures m'.Valid()
  {
    SetReg(m, RPc, m.reg[base])
  }

  // ----------------------------------------------------------------- traps

  const TrapGetc: bv16 := 0x20
  const TrapOut: bv16 := 0x21
  const TrapPuts: bv16 := 0x22
  const TrapIn: bv16 := 0x23
  const TrapPutsp: bv16 := 0x24
  const TrapHalt: bv16 := 0x25

  /** ASCII text as the bytes written for it. */
  function Ascii(s: string): seq<bv8>
  {
    seq(|s|, i requires 0 <= i < |s| => ((s[i] as int) % 256) as bv8)
  }

  /** What IN prints before reading. */
  const Prompt: seq<bv8> := Ascii("Enter a character: ")
  /** What HALT prints (`puts` adds the newline). */
  const HaltNotice: seq<bv8> := Ascii("HALT\n")

  /** The bytes PUTS (`packed` false) or PUTSP (`packed` true) writes for
      one nonzero word: the low byte, and for PUTSP the high byte when it
      is nonzero. */
  function Chars(w: bv16, packed: bool): seq<bv8>
  {
    if packed && HighByte(w) != 0 then [LowByte(w), HighByte(w)] else [LowByte(w)]
  }

  /** The string loop of PUTS/PUTSP, having just read word `w` at `addr`:
      stop at a zero word, otherwise write it and read the next address.
      The source loop has no bound of its own: its reads go through the
      memory gate, so within 65536 reads it reaches the keyboard status
      register, which reads as 0 and ends the loop unless a key is ready
      right then. Here at most `limit` words are written, and the second
      component tells whether the zero word was reached. */
  function StringLoop(m: Machine, addr: bv16, w: bv16, packed: bool, limit: nat): (res: (Machine, bool))
    requires m.Valid()
    ensures res.0.Valid()
    decreases limit
  {
    if w == 0 then (m, true)
    else if limit == 0 then (m, false)
    else
      var (m1, next) := MemRead(Emit(m, Chars(w, packed)), Add16(addr, 1));
      StringLoop(m1, Add16(addr, 1), next, packed, limit - 1)
  }

  /** PUTS / PUTSP: write the string whose first word is at reg[R0]. */
  function PutString(m: Machine, packed: bool, limit: nat): (res: (Machine, bool))
    requires m.Valid()
    ensures res.0.Valid()
  {
    var (m1, w) := MemRead(m, m.reg[R0]);
    StringLoop(m1, m.reg[R0], w, packed, limit)
  }

  /** GETC: R0 := the character read, then the flags. */
  function ExecGetc(m: Machine): (m': Machine)
    requires m.Valid()
    ensures m'.Valid()
  {
    var c := GetChar(m);
    UpdateFlags(SetReg(c.0, R0, c.1), R0)
  }

  /** IN: the prompt, R0 := the character read, its echo, then the flags. */
  function ExecIn(m: Machine): (m': Machine)
    requires m.Valid()
    ensures m'.Valid()
  {
    var c := GetChar(Emit(m, Prompt));
    UpdateFlags(Emit(SetReg(c.0, R0, c.1), [LowByte(c.1)]), R0)
  }

  /** TRAP: R7 := PC, then the routine for the vector runs natively (not
      through the trap vector table); an unknown vector does nothing more. */
  function ExecTrap(m: Machine, vector: bv16, limit: nat): (res: (Machine, bool))
    requires m.Valid()
    ensures res.0.Valid()
  {
    var m1 := SetReg(m, R7, m.reg[RPc]);
    if vector == TrapGetc then
      (ExecGetc(m1), true)
    else if vector == TrapOut then
      (Emit(m1, [LowByte(m1.reg[R0])]), true)
    else if vector == TrapPuts then
      PutString(m1, false, limit)
    else if vector == TrapIn then
      (ExecIn(m1), true)
    else if vector == TrapPutsp then
      PutString(m1, true, limit)
    else if vector == TrapHalt then
      (Emit(m1, HaltNotice).(running := false), true)
    else
      (m1, true)
  }

  // -------------------------------------------------------------- the cycle

  /** Executes a fetched instruction on the state after the fetch,
      dispatching on the top nibble and extracting each case's fields. */
  function Execute(m: Machine, instr: bv16, limit: nat): (res: (Machine, bool))
    requires m.Valid()
    ensures res.0.Valid()
  {
    match OpOf(instr)
    case Br => (ExecBr(m, CondMask(instr), PcOffset9(instr)), true)
    case Add => (ExecAdd(m, Dr(instr), Sr1(instr), ImmMode(instr), Imm5(instr), Sr2(instr)), true)
    case Ld => (ExecLd(m, Dr(instr), PcOffset9(instr)), true)
    case St => (ExecSt(m, Dr(instr), PcOffset9(instr)), true)
    case Jsr => (ExecJsr(m, (instr >> 11) & 1 == 1, Sr1(instr), PcOffset11(instr)), true)
    case And => (ExecAnd(m, Dr(instr), Sr1(instr), ImmMode(instr), Imm5(instr), Sr2(instr)), true)
    case Ldr => (ExecLdr(m, Dr(instr), Sr1(instr), Offset6(instr)), true)
    case Str => (ExecStr(m, Dr(instr), Sr1(instr), Offset6(instr)), true)
    case Rti => (m, true)
    case Not => (ExecNot(m, Dr(instr), Sr1(instr)), true)
    case Ldi => (ExecLdi(m, Dr(instr), PcOffset9(instr)), true)
    case Sti => (ExecSti(m, Dr(instr), PcOffset9(instr)), true)
    case Jmp => (ExecJmp(m, Sr1(instr)), true)
    case Res => (m, true)
    case Lea => (ExecLea(m, Dr(instr), PcOffset9(instr)), true)
    case Trap => ExecTrap(m, TrapVector(instr), limit)
  }

  /** One cycle: fetch, increment PC, execute. The flag is false only when
      a string trap wrote `limit` words without meeting a zero word. */
  function Step(m: Machine, limit: nat): (res: (Machine, bool))
    requires m.Valid()
    ensures res.0.Valid()
  {
    var (m1, instr) := Fetch(m);
    Execute(m1, instr, limit)
  }

  /** The `while (running)` loop, cut off after `fuel` cycles (the source
      loop need not end); `fuel` also bounds each string trap. */
  function Run(m: Machine, fuel: nat): (m': Machine)
    requires m.Valid()
    ensures m'.Valid()
    decreases fuel, 2
  {
    if fuel == 0 then m else RunWhile(m, fuel)
  }

  /** The loop test: a stopped machine is left as it is. */
  function RunWhile(m: Machine, fuel: nat): (m': Machine)
    requires m.Valid() && fuel > 0
    ensures m'.Valid()
    decreases fuel, 1
  {
    if !m.running then m else RunCycle(m, fuel)
  }

  /** The loop body: one cycle, then the rest of the run unless a string
      trap was cut short. */
  function RunCycle(m: Machine, fuel: nat): (m': Machine)
    requires m.Valid() && fuel > 0
    ensures m'.Valid()
    decreases fuel, 0
  {
    var (m1, done) := Step(m, fuel);
    if done then Run(m1, fuel - 1) else m1
  }

  // ----------------------------------------------------------------- loader

  function Min(a: int, b: int): int { if a <= b then a else b }

  /** The i-th program word of an image: bytes 2i+2 and 2i+3, big-endian. */
  function ImageWord(bytes: seq<bv8>, i: nat): bv16
    requires 2 * i + 3 < |bytes|
  {
    BigEndian(bytes[2 * i + 2], bytes[2 * i + 3])
  }

  function Origin(bytes: seq<bv8>): bv16
    requires |bytes| >= 2
  {
    BigEndian(bytes[0], bytes[1])
  }

  /** How many words are loaded: the whole words after the origin, but no
      more than fit between the origin and the end of memory. */
  function LoadCount(bytes: seq<bv8>): (n: nat)
    requires |bytes| >= 2
  {
    Min((|bytes| - 2) / 2, MemoryMax - Origin(bytes) as int)
  }

  /** `load_image`: `file` is None when the file cannot be opened. */
  function Load(m: Machine, file: Option<seq<bv8>>): (res: (Machine, bool))
    requires m.Valid()
    ensures res.0.Valid()
  {
    if file.None? || |file.value| < 2 then (m, false)
    else
      var bytes := file.value;
      var origin := Origin(bytes) as int;
      var count := LoadCount(bytes);
      var mem := seq(MemoryMax, a requires 0 <= a < MemoryMax =>
        if origin <= a < origin + count then ImageWord(bytes, a - origin) else m.mem[a]);
      (m.(mem := mem), true)
  }
}
