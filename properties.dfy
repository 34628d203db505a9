/** What the CPU model guarantees: the memory gate, the condition-code
    invariant, the frame of each instruction class, control flow, the trap
    routines and the image loader. */
module Properties {
  import opened Defs
  import opened Bits
  import opened Semantics

  // ------------------------------------------------------------ memory gate

  /** A read of any address but the keyboard status register returns the
      stored word and changes nothing. */
  lemma PlainReadChangesNothing(m: Machine, a: bv16)
    requires m.Valid() && a != MrKbsr
    ensures MemRead(m, a) == (m, m.mem[a as int])
  {
  }

  /** A read of the keyboard status register polls once. With a key ready
      it latches the next input character into the data register and
      reads 0x8000; otherwise it clears the status register and reads 0.
      Registers, the run flag, the output and every other word stay. */
  lemma StatusReadPollsKeyboard(m: Machine)
    requires m.Valid()
    ensures var (m', v) := MemRead(m, MrKbsr);
      var ready := m.polls != [] && m.polls[0];
      && m'.reg == m.reg && m'.running == m.running && m'.output == m.output
      && m'.polls == (if m.polls == [] then [] else m.polls[1..])
      && (ready ==> v == 0x8000 && m'.mem == m.mem[MrKbsr as int := 0x8000][MrKbdr as int := GetChar(m).1]
                    && m'.input == GetChar(m).0.input)
      && (!ready ==> v == 0 && m'.mem == m.mem[MrKbsr as int := 0] && m'.input == m.input)
  {
  }

  /** Reading through the gate changes no register, the run flag or the
      output, and no memory word but the two device registers. */
  lemma MemReadFrame(m: Machine, a: bv16)
    requires m.Valid()
    ensures var m' := MemRead(m, a).0;
      && m'.reg == m.reg && m'.running == m.running && m'.output == m.output
      && forall i :: 0 <= i < MemoryMax && i != MrKbsr as int && i != MrKbdr as int ==> m'.mem[i] == m.mem[i]
  {
  }

  /** `mem_write` stores exactly one word. */
  lemma MemWriteStoresOneWord(m: Machine, a: bv16, v: bv16)
    requires m.Valid()
    ensures var m' := MemWrite(m, a, v);
      && m'.mem[a as int] == v && m'.reg == m.reg && m'.running == m.running
      && forall i :: 0 <= i < MemoryMax && i != a as int ==> m'.mem[i] == m.mem[i]
  {
    var k := a as int;
    assert MemWrite(m, a, v).mem == m.mem[k := v];
  }

  // ------------------------------------------------------------------ fetch

  /** A cycle first reads mem[PC] through the gate and increments PC
      (wrapping), changing no other register. */
  lemma FetchIncrementsPc(m: Machine)
    requires m.Valid()
    ensures var (m', instr) := Fetch(m);
      && instr == MemRead(m, m.reg[RPc]).1
      && m'.reg == m.reg[RPc := Add16(m.reg[RPc], 1)]
      && m' == MemRead(m, m.reg[RPc]).0.(reg := m'.reg)
      && (m.reg[RPc] != MrKbsr ==> instr == m.mem[m.reg[RPc] as int] && m' == m.(reg := m'.reg))
  {
  }

  /** The dispatch on the top nibble: which opcode function runs, with
      which fields of the instruction. */
  lemma ExecuteDispatch(m: Machine, instr: bv16, limit: nat)
    requires m.Valid()
    ensures var op := OpOf(instr);
      var r := Execute(m, instr, limit);
      && (op == Br ==> r == (ExecBr(m, CondMask(instr), PcOffset9(instr)), true))
      && (op == Add ==> r == (ExecAdd(m, Dr(instr), Sr1(instr), ImmMode(instr), Imm5(instr), Sr2(instr)), true))
      && (op == Ld ==> r == (ExecLd(m, Dr(instr), PcOffset9(instr)), true))
      && (op == St ==> r == (ExecSt(m, Dr(instr), PcOffset9(instr)), true))
      && (op == Jsr ==> r == (ExecJsr(m, (instr >> 11) & 1 == 1, Sr1(instr), PcOffset11(instr)), true))
      && (op == And ==> r == (ExecAnd(m, Dr(instr), Sr1(instr), ImmMode(instr), Imm5(instr), Sr2(instr)), true))
      && (op == Ldr ==> r == (ExecLdr(m, Dr(instr), Sr1(instr), Offset6(instr)), true))
      && (op == Str ==> r == (ExecStr(m, Dr(instr), Sr1(instr), Offset6(instr)), true))
      && (op == Rti ==> r == (m, true))
      && (op == Not ==> r == (ExecNot(m, Dr(instr), Sr1(instr)), true))
      && (op == Ldi ==> r == (ExecLdi(m, Dr(instr), PcOffset9(instr)), true))
      && (op == Sti ==> r == (ExecSti(m, Dr(instr), PcOffset9(instr)), true))
      && (op == Jmp ==> r == (ExecJmp(m, Sr1(instr)), true))
      && (op == Res ==> r == (m, true))
      && (op == Lea ==> r == (ExecLea(m, Dr(instr), PcOffset9(instr)), true))
      && (op == Trap ==> r == ExecTrap(m, TrapVector(instr), limit))
  {
  }

  /** RTI and RES change nothing beyond the fetch. */
  lemma RtiAndResAreNoOps(m: Machine, instr: bv16, limit: nat)
    requires m.Valid() && (OpOf(instr) == Rti || OpOf(instr) == Res)
    ensures Execute(m, instr, limit) == (m, true)
  {
    ExecuteDispatch(m, instr, limit);
  }

  // ------------------------------------------- one opcode, decoded fields

  /** What a register-writing instruction may change: reg[dr], then COND
      set from the new reg[dr]; memory only at the two device registers. */
  ghost predicate WritesOnly(m: Machine, m': Machine, dr: nat)
    requires m.Valid() && m'.Valid() && dr < 8
  {
    && (forall r :: 0 <= r < RCount && r != dr && r != RCond ==> m'.reg[r] == m.reg[r])
    && m'.reg[RCond] == CondFor(m'.reg[dr])
    && m'.running == m.running && m'.output == m.output
    && (forall i :: 0 <= i < MemoryMax && i != MrKbsr as int && i != MrKbdr as int ==> m'.mem[i] == m.mem[i])
  }

  /** Writing v to reg[dr] and then the flags. */
  lemma WriteThenFlags(m: Machine, dr: nat, v: bv16)
    requires m.Valid() && dr < 8
    ensures var m' := UpdateFlags(SetReg(m, dr, v), dr);
      WritesOnly(m, m', dr) && m'.reg[dr] == v && m'.mem == m.mem
  {
  }

  lemma AddWritesOnly(m: Machine, dr: nat, sr1: nat, immMode: bool, imm: bv16, sr2: nat)
    requires m.Valid() && dr < 8 && sr1 < 8 && sr2 < 8
    ensures var m' := ExecAdd(m, dr, sr1, immMode, imm, sr2);
      WritesOnly(m, m', dr) && m'.reg[dr] == Add16(m.reg[sr1], if immMode then imm else m.reg[sr2])
  {
    var sum := Add16(m.reg[sr1], if immMode then imm else m.reg[sr2]);
    AddUnfold(m, dr, sr1, immMode, imm, sr2);
    WriteThenFlags(m, dr, sum);
  }

  lemma AddUnfold(m: Machine, dr: nat, sr1: nat, immMode: bool, imm: bv16, sr2: nat)
    requires m.Valid() && dr < 8 && sr1 < 8 && sr2 < 8
    ensures ExecAdd(m, dr, sr1, immMode, imm, sr2) ==
      UpdateFlags(SetReg(m, dr, Add16(m.reg[sr1], if immMode then imm else m.reg[sr2])), dr)
  {
  }

  lemma AndWritesOnly(m: Machine, dr: nat, sr1: nat, immMode: bool, imm: bv16, sr2: nat)
    requires m.Valid() && dr < 8 && sr1 < 8 && sr2 < 8
    ensures var m' := ExecAnd(m, dr, sr1, immMode, imm, sr2);
      WritesOnly(m, m', dr) && m'.reg[dr] == m.reg[sr1] & (if immMode then imm else m.reg[sr2])
  {
    AndUnfold(m, dr, sr1, immMode, imm, sr2);
    WriteThenFlags(m, dr, m.reg[sr1] & (if immMode then imm else m.reg[sr2]));
  }

  lemma AndUnfold(m: Machine, dr: nat, sr1: nat, immMode: bool, imm: bv16, sr2: nat)
    requires m.Valid() && dr < 8 && sr1 < 8 && sr2 < 8
    ensures ExecAnd(m, dr, sr1, immMode, imm, sr2) == UpdateFlags(SetReg(m, dr, m.reg[sr1] & (if immMode then imm else m.reg[sr2])), dr)
  {
  }

  lemma NotWritesOnly(m: Machine, dr: nat, sr: nat)
    requires m.Valid() && dr < 8 && sr < 8
    ensures WritesOnly(m, ExecNot(m, dr, sr), dr) && ExecNot(m, dr, sr).reg[dr] == !m.reg[sr]
  {
    WriteThenFlags(m, dr, !m.reg[sr]);
  }

  lemma LeaWritesOnly(m: Machine, dr: nat, offset: bv16)
    requires m.Valid() && dr < 8
    ensures WritesOnly(m, ExecLea(m, dr, offset), dr) && ExecLea(m, dr, offset).reg[dr] == Add16(m.reg[RPc], offset)
  {
    LeaUnfold(m, dr, offset);
    WriteThenFlags(m, dr, Add16(m.reg[RPc], offset));
  }

  lemma LeaUnfold(m: Machine, dr: nat, offset: bv16)
    requires m.Valid() && dr < 8
    ensures ExecLea(m, dr, offset) == UpdateFlags(SetReg(m, dr, Add16(m.reg[RPc], offset)), dr)
  {
  }

  /** A load through the gate writes reg[dr] and COND; away from the
      keyboard status register it loads the stored word. */
  lemma LoadIntoWritesOnly(m: Machine, dr: nat, a: bv16)
    requires m.Valid() && dr < 8
    ensures WritesOnly(m, LoadInto(m, dr, a), dr)
    ensures a != MrKbsr ==> LoadInto(m, dr, a).reg[dr] == m.mem[a as int]
  {
    MemReadFrame(m, a);
  }

  lemma LdUnfold(m: Machine, dr: nat, offset: bv16)
    requires m.Valid() && dr < 8
    ensures ExecLd(m, dr, offset) == LoadInto(m, dr, Add16(m.reg[RPc], offset))
  {
  }

  lemma LdWritesOnly(m: Machine, dr: nat, offset: bv16)
    requires m.Valid() && dr < 8
    ensures WritesOnly(m, ExecLd(m, dr, offset), dr)
    ensures var a := Add16(m.reg[RPc], offset);
      a != MrKbsr ==> ExecLd(m, dr, offset).reg[dr] == m.mem[a as int]
  {
    LdUnfold(m, dr, offset);
    LoadIntoWritesOnly(m, dr, Add16(m.reg[RPc], offset));
  }

  lemma LdrUnfold(m: Machine, dr: nat, base: nat, offset: bv16)
    requires m.Valid() && dr < 8 && base < 8
    ensures ExecLdr(m, dr, base, offset) == LoadInto(m, dr, Add16(m.reg[base], offset))
  {
  }

  lemma LdrWritesOnly(m: Machine, dr: nat, base: nat, offset: bv16)
    requires m.Valid() && dr < 8 && base < 8
    ensures WritesOnly(m, ExecLdr(m, dr, base, offset), dr)
    ensures var a := Add16(m.reg[base], offset);
      a != MrKbsr ==> ExecLdr(m, dr, base, offset).reg[dr] == m.mem[a as int]
  {
    LdrUnfold(m, dr, base, offset);
    LoadIntoWritesOnly(m, dr, Add16(m.reg[base], offset));
  }

  lemma LdiUnfold(m: Machine, dr: nat, offset: bv16)
    requires m.Valid() && dr < 8
    ensures ExecLdi(m, dr, offset) == LoadInto(MemRead(m, Add16(m.reg[RPc], offset)).0, dr, MemRead(m, Add16(m.reg[RPc], offset)).1)
  {
  }

  /** The two reads of LDI: through the pointer at `a`. */
  lemma IndirectLoad(m: Machine, a: bv16, dr: nat)
    requires m.Valid() && dr < 8
    ensures var pointer := MemRead(m, a);
      var m' := LoadInto(pointer.0, dr, pointer.1);
      && WritesOnly(m, m', dr)
      && (a != MrKbsr && m.mem[a as int] != MrKbsr ==> m'.reg[dr] == m.mem[m.mem[a as int] as int])
  {
    MemReadFrame(m, a);
    LoadIntoWritesOnly(MemRead(m, a).0, dr, MemRead(m, a).1);
  }

  lemma LdiWritesOnly(m: Machine, dr: nat, offset: bv16)
    requires m.Valid() && dr < 8
    ensures WritesOnly(m, ExecLdi(m, dr, offset), dr)
    ensures var a := Add16(m.reg[RPc], offset);
      a != MrKbsr && m.mem[a as int] != MrKbsr ==> ExecLdi(m, dr, offset).reg[dr] == m.mem[m.mem[a as int] as int]
  {
    LdiUnfold(m, dr, offset);
    IndirectLoad(m, Add16(m.reg[RPc], offset), dr);
  }

  lemma StWritesOneWord(m: Machine, sr: nat, offset: bv16)
    requires m.Valid() && sr < 8
    ensures ExecSt(m, sr, offset) == m.(mem := m.mem[(Add16(m.reg[RPc], offset)) as int := m.reg[sr]])
  {
  }

  lemma StrWritesOneWord(m: Machine, sr: nat, base: nat, offset: bv16)
    requires m.Valid() && sr < 8 && base < 8
    ensures ExecStr(m, sr, base, offset) == m.(mem := m.mem[(Add16(m.reg[base], offset)) as int := m.reg[sr]])
  {
  }

  lemma StiUnfold(m: Machine, sr: nat, offset: bv16)
    requires m.Valid() && sr < 8
    ensures var pointer := MemRead(m, Add16(m.reg[RPc], offset));
      ExecSti(m, sr, offset) == pointer.0.(mem := pointer.0.mem[pointer.1 as int := m.reg[sr]])
  {
  }

  lemma BrUnfold(m: Machine, mask: bv16, offset: bv16)
    requires m.Valid()
    ensures ExecBr(m, mask, offset) ==
      m.(reg := m.reg[RPc := if mask & m.reg[RCond] != 0 then Add16(m.reg[RPc], offset) else m.reg[RPc]])
  {
    if mask & m.reg[RCond] == 0 {
      assert m.reg[RPc := m.reg[RPc]] == m.reg;
    }
  }

  lemma JsrUnfold(m: Machine, long: bool, base: nat, offset: bv16)
    requires m.Valid() && base < 8
    ensures var pc := m.reg[RPc];
      ExecJsr(m, long, base, offset) ==
        SetReg(SetReg(m, R7, pc), RPc, if long then Add16(pc, offset) else if base == R7 then pc else m.reg[base])
  {
  }

  lemma JmpUnfold(m: Machine, base: nat)
    requires m.Valid() && base < 8
    ensures ExecJmp(m, base) == m.(reg := m.reg[RPc := m.reg[base]])
  {
  }

  // ------------------------------------------------------- data instructions

  /** ADD, AND, NOT, LD, LDR, LDI and LEA write only reg[dr] (a 3-bit field,
      so never PC or COND) and then COND, which holds the flag of the new
      reg[dr]; memory changes only where a read went through the keyboard
      gate. */
  lemma DataInstructionFrame(m: Machine, instr: bv16, limit: nat)
    requires m.Valid()
    requires var op := OpOf(instr); op == Add || op == And || op == Not || op == Ld || op == Ldr || op == Ldi || op == Lea
    ensures Execute(m, instr, limit).1 && WritesOnly(m, Execute(m, instr, limit).0, Dr(instr))
  {
    ExecuteDispatch(m, instr, limit);
    DataInstructionCases(m, Dr(instr), Sr1(instr), ImmMode(instr), Imm5(instr), Sr2(instr), PcOffset9(instr), Offset6(instr));
  }

  lemma DataInstructionCases(m: Machine, dr: nat, sr1: nat, immMode: bool, imm: bv16, sr2: nat, pcOffset: bv16, offset: bv16)
    requires m.Valid() && dr < 8 && sr1 < 8 && sr2 < 8
    ensures && WritesOnly(m, ExecAdd(m, dr, sr1, immMode, imm, sr2), dr)
      && WritesOnly(m, ExecAnd(m, dr, sr1, immMode, imm, sr2), dr)
      && WritesOnly(m, ExecNot(m, dr, sr1), dr)
      && WritesOnly(m, ExecLea(m, dr, pcOffset), dr)
      && WritesOnly(m, ExecLd(m, dr, pcOffset), dr)
      && WritesOnly(m, ExecLdr(m, dr, sr1, offset), dr)
      && WritesOnly(m, ExecLdi(m, dr, pcOffset), dr)
  {
    AddWritesOnly(m, dr, sr1, immMode, imm, sr2);
    AndWritesOnly(m, dr, sr1, immMode, imm, sr2);
    NotWritesOnly(m, dr, sr1);
    LeaWritesOnly(m, dr, pcOffset);
    LdWritesOnly(m, dr, pcOffset);
    LdrWritesOnly(m, dr, sr1, offset);
    LdiWritesOnly(m, dr, pcOffset);
  }

  /** The values ADD, AND, NOT and LEA compute from the fields of the
      instruction, in 16-bit wrapping arithmetic: the second operand is the
      sign-extended imm5 in immediate mode and reg[sr2] otherwise. */
  lemma ArithmeticResult(m: Machine, instr: bv16, limit: nat,
                         dr: nat, sr1: nat, immMode: bool, imm: bv16, sr2: nat, pcOffset: bv16)
    requires m.Valid()
    requires dr == Dr(instr) && sr1 == Sr1(instr) && sr2 == Sr2(instr)
    requires immMode == ImmMode(instr) && imm == Imm5(instr) && pcOffset == PcOffset9(instr)
    ensures OpOf(instr) == Add ==>
      Execute(m, instr, limit).0.reg[dr] == Add16(m.reg[sr1], if immMode then imm else m.reg[sr2])
    ensures OpOf(instr) == And ==>
      Execute(m, instr, limit).0.reg[dr] == m.reg[sr1] & (if immMode then imm else m.reg[sr2])
    ensures OpOf(instr) == Not ==> Execute(m, instr, limit).0.reg[dr] == !m.reg[sr1]
    ensures OpOf(instr) == Lea ==> Execute(m, instr, limit).0.reg[dr] == Add16(m.reg[RPc], pcOffset)
  {
    ArithmeticDispatch(m, instr, limit, dr, sr1, immMode, imm, sr2, pcOffset);
    AddWritesOnly(m, dr, sr1, immMode, imm, sr2);
    AndWritesOnly(m, dr, sr1, immMode, imm, sr2);
    NotWritesOnly(m, dr, sr1);
    LeaWritesOnly(m, dr, pcOffset);
  }

  lemma ArithmeticDispatch(m: Machine, instr: bv16, limit: nat,
                           dr: nat, sr1: nat, immMode: bool, imm: bv16, sr2: nat, pcOffset: bv16)
    requires m.Valid()
    requires dr == Dr(instr) && sr1 == Sr1(instr) && sr2 == Sr2(instr)
    requires immMode == ImmMode(instr) && imm == Imm5(instr) && pcOffset == PcOffset9(instr)
    ensures OpOf(instr) == Add ==> Execute(m, instr, limit) == (ExecAdd(m, dr, sr1, immMode, imm, sr2), true)
    ensures OpOf(instr) == And ==> Execute(m, instr, limit) == (ExecAnd(m, dr, sr1, immMode, imm, sr2), true)
    ensures OpOf(instr) == Not ==> Execute(m, instr, limit) == (ExecNot(m, dr, sr1), true)
    ensures OpOf(instr) == Lea ==> Execute(m, instr, limit) == (ExecLea(m, dr, pcOffset), true)
  {
  }

  /** LD, LDR and LDI load the word at PC + offset9, at reg[base] + offset6,
      and at the address held in the word at PC + offset9; when no read is
      of the keyboard status register, that is the stored word. */
  lemma LoadResult(m: Machine, instr: bv16, limit: nat, dr: nat, base: nat, pcOffset: bv16, offset: bv16)
    requires m.Valid()
    requires dr == Dr(instr) && base == Sr1(instr) && pcOffset == PcOffset9(instr) && offset == Offset6(instr)
    ensures var m' := Execute(m, instr, limit).0;
      var pcRel := Add16(m.reg[RPc], pcOffset);
      var baseRel := Add16(m.reg[base], offset);
      && (OpOf(instr) == Ld && pcRel != MrKbsr ==> m'.reg[dr] == m.mem[pcRel as int])
      && (OpOf(instr) == Ldr && baseRel != MrKbsr ==> m'.reg[dr] == m.mem[baseRel as int])
      && (OpOf(instr) == Ldi && pcRel != MrKbsr && m.mem[pcRel as int] != MrKbsr ==>
            m'.reg[dr] == m.mem[m.mem[pcRel as int] as int])
  {
    ExecuteDispatch(m, instr, limit);
    LdWritesOnly(m, dr, pcOffset);
    LdrWritesOnly(m, dr, base, offset);
    LdiWritesOnly(m, dr, pcOffset);
  }

  /** ADD and AND in immediate mode compute what register mode computes when
      reg[sr2] holds the sign-extended imm5. */
  lemma ImmediateModeMatchesRegisterMode(m: Machine, immInstr: bv16, regInstr: bv16, limit: nat,
                                         dr: nat, sr1: nat, imm: bv16, sr2: nat, unusedSr2: nat, unusedImm: bv16)
    requires m.Valid()
    requires OpOf(immInstr) == OpOf(regInstr) && (OpOf(immInstr) == Add || OpOf(immInstr) == And)
    requires ImmMode(immInstr) && !ImmMode(regInstr)
    requires dr == Dr(immInstr) == Dr(regInstr) && sr1 == Sr1(immInstr) == Sr1(regInstr)
    requires imm == Imm5(immInstr) && sr2 == Sr2(regInstr)
    requires unusedSr2 == Sr2(immInstr) && unusedImm == Imm5(regInstr)
    requires m.reg[sr2] == SignExtend(immInstr & 0x1F, 5)
    ensures Execute(m, immInstr, limit) == Execute(m, regInstr, limit)
  {
    ExecuteDispatch(m, immInstr, limit);
    ExecuteDispatch(m, regInstr, limit);
    AddUnfold(m, dr, sr1, true, imm, unusedSr2);
    AddUnfold(m, dr, sr1, false, unusedImm, sr2);
    AndUnfold(m, dr, sr1, true, imm, unusedSr2);
    AndUnfold(m, dr, sr1, false, unusedImm, sr2);
  }

  /** ST and STR change no register (COND included) and store the source
      register at PC + offset9 and at reg[base] + offset6, and nothing
      else. */
  lemma StoreWritesOneWord(m: Machine, instr: bv16, limit: nat, sr: nat, base: nat, pcOffset: bv16, offset: bv16)
    requires m.Valid()
    requires sr == Dr(instr) && base == Sr1(instr) && pcOffset == PcOffset9(instr) && offset == Offset6(instr)
    ensures OpOf(instr) == St ==>
      Execute(m, instr, limit) == (m.(mem := m.mem[(Add16(m.reg[RPc], pcOffset)) as int := m.reg[sr]]), true)
    ensures OpOf(instr) == Str ==>
      Execute(m, instr, limit) == (m.(mem := m.mem[(Add16(m.reg[base], offset)) as int := m.reg[sr]]), true)
  {
    ExecuteDispatch(m, instr, limit);
    StWritesOneWord(m, sr, pcOffset);
    StrWritesOneWord(m, sr, base, offset);
  }

  /** STI changes no register and stores the source register at the
      address held in the word at PC + offset9; memory otherwise changes
      only where that pointer read went through the keyboard gate. */
  lemma StoreIndirectWritesOneWord(m: Machine, instr: bv16, limit: nat, sr: nat, pcOffset: bv16)
    requires m.Valid() && OpOf(instr) == Sti
    requires sr == Dr(instr) && pcOffset == PcOffset9(instr)
    ensures var pointerAt := Add16(m.reg[RPc], pcOffset);
      var pointer := MemRead(m, pointerAt);
      var m1 := pointer.0;
      && Execute(m, instr, limit) == (m1.(mem := m1.mem[pointer.1 as int := m.reg[sr]]), true)
      && m1.reg == m.reg && m1.running == m.running && m1.output == m.output
      && (pointerAt != MrKbsr ==> m1 == m && pointer.1 == m.mem[pointerAt as int])
  {
    ExecuteDispatch(m, instr, limit);
    StiUnfold(m, sr, pcOffset);
  }

  // ------------------------------------------------------------ control flow

  /** BR adds the sign-extended offset to PC exactly when its n/z/p mask
      shares a bit with COND; nothing else changes. */
  lemma BranchTakenIffMaskMatches(m: Machine, instr: bv16, limit: nat, mask: bv16, offset: bv16)
    requires m.Valid() && OpOf(instr) == Br
    requires mask == CondMask(instr) && offset == PcOffset9(instr)
    ensures Execute(m, instr, limit) ==
      (m.(reg := m.reg[RPc := if mask & m.reg[RCond] != 0 then Add16(m.reg[RPc], offset) else m.reg[RPc]]), true)
  {
    ExecuteDispatch(m, instr, limit);
    BrUnfold(m, mask, offset);
  }

  /** With COND a valid flag, the mask tests each flag on its own: bit 11
      (n) matches NEG, bit 10 (z) ZERO and bit 9 (p) POS. A zero mask never
      branches. */
  lemma BranchMaskTestsEachFlag(m: Machine, instr: bv16, limit: nat)
    requires m.Valid() && CondValid(m) && OpOf(instr) == Br
    ensures var c := m.reg[RCond];
      var n, z, p := (instr >> 11) & 1 == 1, (instr >> 10) & 1 == 1, (instr >> 9) & 1 == 1;
      (CondMask(instr) & c != 0) <==> ((c == FlNeg && n) || (c == FlZro && z) || (c == FlPos && p))
    ensures CondMask(instr) == 0 ==> Execute(m, instr, limit) == (m, true)
  {
    ExecuteDispatch(m, instr, limit);
  }

  /** JSR/JSRR: R7 receives the incremented PC before the base register is
      read; PC becomes PC + offset11 (JSR) or the base register's value as
      it is after that write (JSRR). */
  lemma JsrLinksThenJumps(m: Machine, instr: bv16, limit: nat, long: bool, base: nat, offset: bv16)
    requires m.Valid() && OpOf(instr) == Jsr
    requires long == ((instr >> 11) & 1 == 1) && base == Sr1(instr) && offset == PcOffset11(instr)
    ensures var pc := m.reg[RPc];
      Execute(m, instr, limit) ==
        (m.(reg := m.reg[R7 := pc][RPc := if long then Add16(pc, offset) else if base == R7 then pc else m.reg[base]]), true)
  {
    ExecuteDispatch(m, instr, limit);
    JsrUnfold(m, long, base, offset);
  }

  /** Because R7 is written first, JSRR through R7 jumps to the next
      instruction instead of to the old R7. */
  lemma JsrrThroughR7ContinuesInPlace(m: Machine, instr: bv16, limit: nat)
    requires m.Valid() && OpOf(instr) == Jsr && (instr >> 11) & 1 == 0 && Sr1(instr) == R7
    ensures Execute(m, instr, limit).0.reg[RPc] == m.reg[RPc]
    ensures Execute(m, instr, limit).0.reg[R7] == m.reg[RPc]
  {
    JsrLinksThenJumps(m, instr, limit, false, R7, PcOffset11(instr));
  }

  /** JMP sets PC to the base register and changes nothing else. */
  lemma JmpSetsPc(m: Machine, instr: bv16, limit: nat, base: nat)
    requires m.Valid() && OpOf(instr) == Jmp && base == Sr1(instr)
    ensures Execute(m, instr, limit) == (m.(reg := m.reg[RPc := m.reg[base]]), true)
  {
    ExecuteDispatch(m, instr, limit);
    JmpUnfold(m, base);
  }

  // ------------------------------------------------------------------ traps

  lemma TrapDispatch(m: Machine, instr: bv16, limit: nat)
    requires m.Valid() && OpOf(instr) == Trap
    ensures Execute(m, instr, limit) == ExecTrap(m, TrapVector(instr), limit)
  {
  }

  /** A TRAP with a vector outside 0x20..0x25 only sets R7 := PC. */
  lemma UnknownTrapOnlyLinks(m: Machine, instr: bv16, limit: nat)
    requires m.Valid() && OpOf(instr) == Trap
    requires TrapVector(instr) < TrapGetc || TrapVector(instr) > TrapHalt
    ensures Execute(m, instr, limit) == (m.(reg := m.reg[R7 := m.reg[RPc]]), true)
  {
    TrapDispatch(m, instr, limit);
  }

  lemma GetcReads(m: Machine, limit: nat)
    requires m.Valid()
    ensures var c := GetChar(m).1;
      ExecTrap(m, TrapGetc, limit) ==
        (m.(reg := m.reg[R7 := m.reg[RPc]][R0 := c][RCond := CondFor(c)], input := GetChar(m).0.input), true)
  {
  }

  lemma InReads(m: Machine, limit: nat)
    requires m.Valid()
    ensures var c := GetChar(m).1;
      ExecTrap(m, TrapIn, limit) ==
        (m.(reg := m.reg[R7 := m.reg[RPc]][R0 := c][RCond := CondFor(c)], input := GetChar(m).0.input,
            output := m.output + Prompt + [LowByte(c)]), true)
  {
    assert m.output + Prompt + [LowByte(GetChar(m).1)] == (m.output + Prompt) + [LowByte(GetChar(m).1)];
  }

  /** GETC and IN put the next input character (0xFFFF at end of input)
      in R0 and set COND from it; IN also writes the prompt and echoes the
      character's low byte. */
  lemma GetcAndInReadOneCharacter(m: Machine, instr: bv16, limit: nat)
    requires m.Valid() && OpOf(instr) == Trap
    requires TrapVector(instr) == TrapGetc || TrapVector(instr) == TrapIn
    ensures var (m', done) := Execute(m, instr, limit);
      var c := GetChar(m).1;
      && done
      && m'.reg == m.reg[R7 := m.reg[RPc]][R0 := c][RCond := CondFor(c)]
      && m'.input == (if m.input == [] then [] else m.input[1..])
      && m'.mem == m.mem && m'.running == m.running && m'.polls == m.polls
      && m'.output == m.output + (if TrapVector(instr) == TrapIn then Prompt + [LowByte(c)] else [])
  {
    TrapDispatch(m, instr, limit);
    GetcReads(m, limit);
    InReads(m, limit);
  }

  /** OUT writes the low byte of R0. */
  lemma OutWritesLowByte(m: Machine, instr: bv16, limit: nat)
    requires m.Valid() && OpOf(instr) == Trap && TrapVector(instr) == TrapOut
    ensures Execute(m, instr, limit) ==
      (m.(reg := m.reg[R7 := m.reg[RPc]], output := m.output + [LowByte(m.reg[R0])]), true)
  {
    TrapDispatch(m, instr, limit);
  }

  /** HALT stops the machine after writing the notice. */
  lemma HaltStops(m: Machine, instr: bv16, limit: nat)
    requires m.Valid() && OpOf(instr) == Trap && TrapVector(instr) == TrapHalt
    ensures Execute(m, instr, limit) ==
      (m.(reg := m.reg[R7 := m.reg[RPc]], output := m.output + HaltNotice, running := false), true)
  {
    TrapDispatch(m, instr, limit);
  }

  /** The string routines change no register and never stop the machine. */
  lemma {:induction false} StringLoopFrame(m: Machine, addr: bv16, w: bv16, packed: bool, limit: nat)
    requires m.Valid()
    ensures var m' := StringLoop(m, addr, w, packed, limit).0;
      m'.reg == m.reg && m'.running == m.running
    decreases limit
  {
    if w != 0 && limit != 0 {
      var next := MemRead(Emit(m, Chars(w, packed)), Add16(addr, 1));
      StringLoopFrame(next.0, Add16(addr, 1), next.1, packed, limit - 1);
    }
  }

  lemma PutStringFrame(m: Machine, packed: bool, limit: nat)
    requires m.Valid()
    ensures var m' := PutString(m, packed, limit).0;
      m'.reg == m.reg && m'.running == m.running
  {
    var first := MemRead(m, m.reg[R0]);
    StringLoopFrame(first.0, m.reg[R0], first.1, packed, limit);
  }

  /** Every trap routine leaves COND a flag (only GETC and IN write it),
      and only HALT touches the run flag, clearing it. */
  lemma TrapFrame(m: Machine, vector: bv16, limit: nat)
    requires m.Valid() && CondValid(m)
    ensures var m' := ExecTrap(m, vector, limit).0;
      && CondValid(m')
      && (m'.running != m.running ==> !m'.running && vector == TrapHalt)
  {
    var m1 := SetReg(m, R7, m.reg[RPc]);
    PutStringFrame(m1, false, limit);
    PutStringFrame(m1, true, limit);
  }

  /** In any state, only HALT among the trap routines touches the run
      flag, and it clears it. */
  lemma TrapStopsOnlyOnHalt(m: Machine, vector: bv16, limit: nat)
    requires m.Valid()
    ensures var m' := ExecTrap(m, vector, limit).0;
      m'.running != m.running ==> !m'.running && vector == TrapHalt
  {
    var m1 := SetReg(m, R7, m.reg[RPc]);
    PutStringFrame(m1, false, limit);
    PutStringFrame(m1, true, limit);
  }

  /** Per opcode: COND stays a flag. */
  lemma OpcodeCases(m: Machine, mask: bv16, sr: nat, base: nat, pcOffset: bv16, offset: bv16, long: bool, offset11: bv16)
    requires m.Valid() && CondValid(m) && sr < 8 && base < 8
    ensures && CondValid(ExecBr(m, mask, pcOffset))
      && CondValid(ExecSt(m, sr, pcOffset))
      && CondValid(ExecStr(m, sr, base, offset))
      && CondValid(ExecSti(m, sr, pcOffset))
      && CondValid(ExecJsr(m, long, base, offset11))
      && CondValid(ExecJmp(m, base))
  {
    OpcodesKeepRunning(m, mask, sr, base, pcOffset, offset, long, offset11);
  }

  /** Per opcode, in any state: the run flag is unchanged. */
  lemma OpcodesKeepRunning(m: Machine, mask: bv16, sr: nat, base: nat, pcOffset: bv16, offset: bv16, long: bool, offset11: bv16)
    requires m.Valid() && sr < 8 && base < 8
    ensures && ExecBr(m, mask, pcOffset).running == m.running
      && ExecBr(m, mask, pcOffset).reg[RCond] == m.reg[RCond]
      && ExecSt(m, sr, pcOffset).running == m.running && ExecSt(m, sr, pcOffset).reg == m.reg
      && ExecStr(m, sr, base, offset).running == m.running && ExecStr(m, sr, base, offset).reg == m.reg
      && ExecSti(m, sr, pcOffset).running == m.running && ExecSti(m, sr, pcOffset).reg == m.reg
      && ExecJsr(m, long, base, offset11).running == m.running
      && ExecJsr(m, long, base, offset11).reg[RCond] == m.reg[RCond]
      && ExecJmp(m, base).running == m.running && ExecJmp(m, base).reg[RCond] == m.reg[RCond]
  {
    BrUnfold(m, mask, pcOffset);
    StWritesOneWord(m, sr, pcOffset);
    StrWritesOneWord(m, sr, base, offset);
    StiUnfold(m, sr, pcOffset);
    JsrUnfold(m, long, base, offset11);
    JmpUnfold(m, base);
  }

  /** Per opcode: what the dispatch runs keeps COND a flag and changes the
      run flag only through HALT. */
  lemma ExecuteCases(m: Machine, instr: bv16, limit: nat)
    requires m.Valid() && CondValid(m)
    ensures var m' := Execute(m, instr, limit).0;
      CondValid(m') && (m'.running != m.running ==> !m'.running && OpOf(instr) == Trap && TrapVector(instr) == TrapHalt)
  {
    var dr, sr1, sr2, immMode, imm := Dr(instr), Sr1(instr), Sr2(instr), ImmMode(instr), Imm5(instr);
    var pc9, off6, pc11, mask, long, vector :=
      PcOffset9(instr), Offset6(instr), PcOffset11(instr), CondMask(instr), (instr >> 11) & 1 == 1, TrapVector(instr);
    ExecuteCondFor(m, instr, limit, dr, sr1, sr2, immMode, imm, pc9, off6, pc11, mask, long, vector);
    ExecuteRunningFor(m, instr, limit, dr, sr1, sr2, immMode, imm, pc9, off6, pc11, mask, long, vector);
  }

  lemma ExecuteCondFor(m: Machine, instr: bv16, limit: nat, dr: nat, sr1: nat, sr2: nat, immMode: bool, imm: bv16,
                       pc9: bv16, off6: bv16, pc11: bv16, mask: bv16, long: bool, vector: bv16)
    requires m.Valid() && CondValid(m)
    requires dr == Dr(instr) && sr1 == Sr1(instr) && sr2 == Sr2(instr) && immMode == ImmMode(instr) && imm == Imm5(instr)
    requires pc9 == PcOffset9(instr) && off6 == Offset6(instr) && pc11 == PcOffset11(instr)
    requires mask == CondMask(instr) && long == ((instr >> 11) & 1 == 1) && vector == TrapVector(instr)
    ensures CondValid(Execute(m, instr, limit).0)
  {
    ExecuteDispatch(m, instr, limit);
    DataInstructionCases(m, dr, sr1, immMode, imm, sr2, pc9, off6);
    OpcodeCases(m, mask, dr, sr1, pc9, off6, long, pc11);
    TrapFrame(m, vector, limit);
  }

  lemma ExecuteRunningFor(m: Machine, instr: bv16, limit: nat, dr: nat, sr1: nat, sr2: nat, immMode: bool, imm: bv16,
                          pc9: bv16, off6: bv16, pc11: bv16, mask: bv16, long: bool, vector: bv16)
    requires m.Valid()
    requires dr == Dr(instr) && sr1 == Sr1(instr) && sr2 == Sr2(instr) && immMode == ImmMode(instr) && imm == Imm5(instr)
    requires pc9 == PcOffset9(instr) && off6 == Offset6(instr) && pc11 == PcOffset11(instr)
    requires mask == CondMask(instr) && long == ((instr >> 11) & 1 == 1) && vector == TrapVector(instr)
    ensures var m' := Execute(m, instr, limit).0;
      m'.running != m.running ==> !m'.running && OpOf(instr) == Trap && vector == TrapHalt
  {
    ExecuteDispatch(m, instr, limit);
    DataInstructionCases(m, dr, sr1, immMode, imm, sr2, pc9, off6);
    OpcodesKeepRunning(m, mask, dr, sr1, pc9, off6, long, pc11);
    TrapStopsOnlyOnHalt(m, vector, limit);
  }

  /** HALT is the only instruction that clears the run flag, and no
      instruction sets it, whatever the state. */
  lemma OnlyHaltStops(m: Machine, instr: bv16, limit: nat)
    requires m.Valid()
    ensures Execute(m, instr, limit).0.running != m.running ==>
      !Execute(m, instr, limit).0.running && OpOf(instr) == Trap && TrapVector(instr) == TrapHalt
  {
    ExecuteRunningFor(m, instr, limit, Dr(instr), Sr1(instr), Sr2(instr), ImmMode(instr), Imm5(instr),
      PcOffset9(instr), Offset6(instr), PcOffset11(instr), CondMask(instr), (instr >> 11) & 1 == 1, TrapVector(instr));
  }

  // -------------------------------------------------------- condition codes

  /** The constructor's COND is a flag. */
  lemma InitialCondValid(input: seq<bv8>, polls: seq<bool>)
    ensures CondValid(Initial(input, polls))
  {
  }

  /** Every instruction keeps COND one of the three flags: registers named
      by a 3-bit field are never COND, and every write of COND stores a
      flag. */
  lemma ExecuteKeepsCondValid(m: Machine, instr: bv16, limit: nat)
    requires m.Valid() && CondValid(m)
    ensures CondValid(Execute(m, instr, limit).0)
  {
    ExecuteCases(m, instr, limit);
  }

  lemma StepKeepsCondValid(m: Machine, limit: nat)
    requires m.Valid() && CondValid(m)
    ensures CondValid(Step(m, limit).0)
  {
    var fetched := Fetch(m);
    ExecuteKeepsCondValid(fetched.0, fetched.1, limit);
  }

  /** The run loop in one piece: a halted machine or an exhausted budget
      ends the run; otherwise one cycle runs and, unless a string trap was
      cut short, the run goes on with one cycle less. */
  lemma RunUnfold(m: Machine, fuel: nat)
    requires m.Valid()
    ensures !m.running || fuel == 0 ==> Run(m, fuel) == m
    ensures m.running && fuel > 0 ==>
      Run(m, fuel) == if Step(m, fuel).1 then Run(Step(m, fuel).0, fuel - 1) else Step(m, fuel).0
  {
    if m.running && fuel > 0 {
      assert Run(m, fuel) == RunWhile(m, fuel) == RunCycle(m, fuel);
    }
  }

  /** However long the machine runs, COND holds exactly one flag. */
  lemma {:induction false} RunKeepsCondValid(m: Machine, fuel: nat)
    requires m.Valid() && CondValid(m)
    ensures CondValid(Run(m, fuel))
    decreases fuel
  {
    RunUnfold(m, fuel);
    if m.running && fuel != 0 {
      StepKeepsCondValid(m, fuel);
      var next := Step(m, fuel);
      if next.1 {
        RunKeepsCondValid(next.0, fuel - 1);
      }
    }
  }

  // ------------------------------------------------------------ strings

  /** The n words at addr, addr + 1, ... (addresses wrap at 0xFFFF). */
  function Words(mem: seq<bv16>, addr: bv16, n: nat): (ws: seq<bv16>)
    requires |mem| == MemoryMax
    ensures |ws| == n
    decreases n
  {
    if n == 0 then [] else [mem[addr as int]] + Words(mem, Add16(addr, 1), n - 1)
  }

  /** None of the n addresses from addr on is the keyboard status
      register, so reading them goes straight to memory. */
  predicate AvoidsStatus(addr: bv16, n: nat)
    decreases n
  {
    n == 0 || (addr != MrKbsr && AvoidsStatus(Add16(addr, 1), n - 1))
  }

  /** A string of n characters at addr: n nonzero words, then a zero word. */
  predicate IsString(mem: seq<bv16>, addr: bv16, n: nat)
    requires |mem| == MemoryMax
  {
    var ws := Words(mem, addr, n + 1);
    ws[n] == 0 && forall i :: 0 <= i < n ==> ws[i] != 0
  }

  /** The bytes written for a sequence of nonzero words. */
  function AllChars(ws: seq<bv16>, packed: bool): seq<bv8>
  {
    if ws == [] then [] else Chars(ws[0], packed) + AllChars(ws[1..], packed)
  }

  /** PUTS writes one byte per word, the word's low byte. */
  lemma {:induction false} PutsWritesLowBytes(ws: seq<bv16>)
    ensures |AllChars(ws, false)| == |ws|
    ensures forall i :: 0 <= i < |ws| ==> AllChars(ws, false)[i] == LowByte(ws[i])
  {
    if ws != [] {
      PutsWritesLowBytes(ws[1..]);
    }
  }

  /** PUTSP writes the low byte of every word and, after it, the high
      byte exactly when that is nonzero: one or two bytes per word. */
  lemma {:induction false} PutspWritesBothBytes(ws: seq<bv16>)
    ensures |ws| <= |AllChars(ws, true)| <= 2 * |ws|
    ensures ws != [] ==> AllChars(ws, true)[0] == LowByte(ws[0])
    ensures ws != [] && HighByte(ws[0]) != 0 ==> AllChars(ws, true)[1] == HighByte(ws[0])
  {
    if ws != [] {
      PutspWritesBothBytes(ws[1..]);
    }
  }

  /** A packed string none of whose high bytes is zero comes out as two
      bytes per word, low byte first, in the order of the words. */
  lemma {:induction false} PutspFullWordsInOrder(ws: seq<bv16>)
    requires forall i :: 0 <= i < |ws| ==> HighByte(ws[i]) != 0
    ensures |AllChars(ws, true)| == 2 * |ws|
    ensures forall i :: 0 <= i < |ws| ==>
      AllChars(ws, true)[2 * i] == LowByte(ws[i]) && AllChars(ws, true)[2 * i + 1] == HighByte(ws[i])
  {
    if ws != [] {
      PutspFullWordsInOrder(ws[1..]);
      var rest := AllChars(ws[1..], true);
      assert AllChars(ws, true) == [LowByte(ws[0]), HighByte(ws[0])] + rest;
      forall i | 1 <= i < |ws|
        ensures AllChars(ws, true)[2 * i] == LowByte(ws[i]) && AllChars(ws, true)[2 * i + 1] == HighByte(ws[i])
      {
        assert ws[1..][i - 1] == ws[i];
        assert AllChars(ws, true)[2 * i] == rest[2 * (i - 1)];
        assert AllChars(ws, true)[2 * i + 1] == rest[2 * (i - 1) + 1];
      }
    }
  }

  /** The string loop, having read the first word of a string of n
      characters at addr, writes exactly the characters' bytes and stops at
      the zero word, provided `limit` allows n words. */
  lemma {:induction false} StringLoopWritesString(m: Machine, addr: bv16, packed: bool, n: nat, limit: nat)
    requires m.Valid() && n <= limit
    requires AvoidsStatus(addr, n + 1) && IsString(m.mem, addr, n)
    ensures StringLoop(m, addr, m.mem[addr as int], packed, limit) ==
      (Emit(m, AllChars(Words(m.mem, addr, n), packed)), true)
    decreases n
  {
    if n == 0 {
      assert m.output + [] == m.output;
    } else {
      var w := m.mem[addr as int];
      var next := Add16(addr, 1);
      StringTail(m.mem, addr, n);
      var m0 := Emit(m, Chars(w, packed));
      StringLoopOneWord(m, addr, packed, limit);
      StringLoopWritesString(m0, next, packed, n - 1, limit - 1);
      CharsOfFirstWord(m.mem, addr, n, packed);
      assert m0.output + AllChars(Words(m.mem, next, n - 1), packed) == m.output + AllChars(Words(m.mem, addr, n), packed);
    }
  }

  /** The rest of a nonempty string is a string one word further on. */
  lemma StringTail(mem: seq<bv16>, addr: bv16, n: nat)
    requires |mem| == MemoryMax && 0 < n && IsString(mem, addr, n)
    ensures mem[addr as int] != 0 && IsString(mem, Add16(addr, 1), n - 1)
  {
    var ws := Words(mem, addr, n + 1);
    var rest := Words(mem, Add16(addr, 1), n);
    assert ws == [mem[addr as int]] + rest;
    assert ws[0] != 0;
    forall i | 0 <= i < n - 1
      ensures rest[i] != 0
    {
      assert rest[i] == ws[i + 1];
    }
    assert rest[n - 1] == ws[n];
  }

  /** One round of the string loop on a nonzero word, away from the status
      register: write its bytes and go on with the next word. */
  lemma StringLoopOneWord(m: Machine, addr: bv16, packed: bool, limit: nat)
    requires m.Valid() && limit > 0 && m.mem[addr as int] != 0 && Add16(addr, 1) != MrKbsr
    ensures var m0 := Emit(m, Chars(m.mem[addr as int], packed));
      StringLoop(m, addr, m.mem[addr as int], packed, limit) ==
        StringLoop(m0, Add16(addr, 1), m.mem[Add16(addr, 1) as int], packed, limit - 1)
  {
    var m0 := Emit(m, Chars(m.mem[addr as int], packed));
    assert MemRead(m0, Add16(addr, 1)) == (m0, m.mem[Add16(addr, 1) as int]);
  }

  /** The bytes of n words are those of the first word, then those of the
      other n - 1. */
  lemma CharsOfFirstWord(mem: seq<bv16>, addr: bv16, n: nat, packed: bool)
    requires |mem| == MemoryMax && 0 < n
    ensures AllChars(Words(mem, addr, n), packed) ==
      Chars(mem[addr as int], packed) + AllChars(Words(mem, Add16(addr, 1), n - 1), packed)
  {
    var ws := Words(mem, addr, n);
    assert ws[1..] == Words(mem, Add16(addr, 1), n - 1);
  }

  /** PUTS/PUTSP: given a string of n characters at reg[R0], away from the
      keyboard status register, the routine writes the bytes of exactly
      those n words (not the zero word) and changes nothing else. */
  lemma PutStringWritesString(m: Machine, packed: bool, n: nat, limit: nat)
    requires m.Valid() && n <= limit
    requires AvoidsStatus(m.reg[R0], n + 1) && IsString(m.mem, m.reg[R0], n)
    ensures PutString(m, packed, limit) == (Emit(m, AllChars(Words(m.mem, m.reg[R0], n), packed)), true)
  {
    StringLoopWritesString(m, m.reg[R0], packed, n, limit);
  }

  /** With no key ready, a status read stores and returns 0 and leaves the
      poll oracle exhausted; any other read leaves it alone too. */
  lemma ReadWithoutKey(m: Machine, address: bv16)
    requires m.Valid() && m.polls == []
    ensures MemRead(m, address).0.polls == []
    ensures address == MrKbsr ==> MemRead(m, address).1 == 0
  {
  }

  /** The string loop ends on its own, even on memory without a zero word,
      when no key is ready: its reads reach the keyboard status register,
      which then reads as 0. */
  lemma {:induction false} StringLoopEndsWithoutKey(m: Machine, addr: bv16, w: bv16, packed: bool, limit: nat)
    requires m.Valid() && m.polls == [] && Distance(Add16(addr, 1), MrKbsr) < limit
    ensures StringLoop(m, addr, w, packed, limit).1
    decreases limit
  {
    if w != 0 {
      var next := Add16(addr, 1);
      var m0 := Emit(m, Chars(w, packed));
      var r := MemRead(m0, next);
      ReadWithoutKey(m0, next);
      if next != MrKbsr {
        DistanceStep(next, MrKbsr);
        StringLoopEndsWithoutKey(r.0, next, r.1, packed, limit - 1);
      }
    }
  }

  /** PUTS/PUTSP end, whatever memory holds, when no key is ready and the
      bound allows 65536 words. */
  lemma PutStringEndsWithoutKey(m: Machine, packed: bool, limit: nat)
    requires m.Valid() && m.polls == [] && 0x1_0000 <= limit
    ensures PutString(m, packed, limit).1
  {
    var r := MemRead(m, m.reg[R0]);
    ReadWithoutKey(m, m.reg[R0]);
    DistanceBound(Add16(m.reg[R0], 1), MrKbsr);
    StringLoopEndsWithoutKey(r.0, m.reg[R0], r.1, packed, limit);
  }

  // ----------------------------------------------------------------- loader

  /** Loading fails, changing nothing, when the file cannot be opened or
      holds fewer than two bytes. */
  lemma LoadFailsWithoutOrigin(m: Machine, file: Option<seq<bv8>>)
    requires m.Valid()
    ensures !Load(m, file).1 <==> file.None? || |file.value| < 2
    ensures !Load(m, file).1 ==> Load(m, file).0 == m
  {
  }

  /** A successful load puts word i of the image (big-endian) at
      origin + i for every i below the load count, which is the number of
      whole words in the file capped at the room left before the end of
      memory; registers, the run flag and all other words are untouched. */
  lemma LoadPlacesImage(m: Machine, bytes: seq<bv8>)
    requires m.Valid() && |bytes| >= 2
    ensures var (m', ok) := Load(m, Some(bytes));
      var origin := Origin(bytes) as int;
      var count := LoadCount(bytes);
      && ok
      && m'.reg == m.reg && m'.running == m.running && m'.input == m.input
      && m'.polls == m.polls && m'.output == m.output
      && count == Min((|bytes| - 2) / 2, MemoryMax - origin)
      && origin + count <= MemoryMax && 2 * count + 2 <= |bytes|
      && (forall i :: 0 <= i < count ==> m'.mem[origin + i] == BigEndian(bytes[2 * i + 2], bytes[2 * i + 3]))
      && (forall a :: 0 <= a < MemoryMax && !(origin <= a < origin + count) ==> m'.mem[a] == m.mem[a])
  {
    LoadKeepsState(m, bytes);
    LoadWritesWords(m, bytes);
    LoadKeepsOtherWords(m, bytes);
  }

  lemma LoadKeepsState(m: Machine, bytes: seq<bv8>)
    requires m.Valid() && |bytes| >= 2
    ensures var (m', ok) := Load(m, Some(bytes));
      && ok && m'.reg == m.reg && m'.running == m.running && m'.input == m.input
      && m'.polls == m.polls && m'.output == m.output
      && Origin(bytes) as int + LoadCount(bytes) <= MemoryMax && 2 * LoadCount(bytes) + 2 <= |bytes|
  {
  }

  lemma LoadWritesWords(m: Machine, bytes: seq<bv8>)
    requires m.Valid() && |bytes| >= 2
    ensures var m' := Load(m, Some(bytes)).0;
      forall i :: 0 <= i < LoadCount(bytes) ==>
        m'.mem[Origin(bytes) as int + i] == BigEndian(bytes[2 * i + 2], bytes[2 * i + 3])
  {
    forall i | 0 <= i < LoadCount(bytes)
      ensures Load(m, Some(bytes)).0.mem[Origin(bytes) as int + i] == BigEndian(bytes[2 * i + 2], bytes[2 * i + 3])
    {
      LoadWritesWord(m, bytes, i);
    }
  }

  lemma LoadWritesWord(m: Machine, bytes: seq<bv8>, i: nat)
    requires m.Valid() && |bytes| >= 2 && i < LoadCount(bytes)
    ensures Origin(bytes) as int + i < MemoryMax && 2 * i + 3 < |bytes|
    ensures Load(m, Some(bytes)).0.mem[Origin(bytes) as int + i] == ImageWord(bytes, i)
  {
    var a := Origin(bytes) as int + i;
    assert Load(m, Some(bytes)).0.mem[a] == ImageWord(bytes, a - Origin(bytes) as int);
  }

  lemma LoadKeepsOtherWords(m: Machine, bytes: seq<bv8>)
    requires m.Valid() && |bytes| >= 2
    ensures var m' := Load(m, Some(bytes)).0;
      var origin := Origin(bytes) as int;
      forall a :: 0 <= a < MemoryMax && !(origin <= a < origin + LoadCount(bytes)) ==> m'.mem[a] == m.mem[a]
  {
  }

  /** Two images loaded over disjoint regions both stay in memory. */
  lemma DisjointImagesCoexist(m: Machine, first: seq<bv8>, second: seq<bv8>)
    requires m.Valid() && |first| >= 2 && |second| >= 2
    requires Origin(first) as int + LoadCount(first) <= Origin(second) as int
          || Origin(second) as int + LoadCount(second) <= Origin(first) as int
    ensures var m' := Load(Load(m, Some(first)).0, Some(second)).0;
      && (forall i :: 0 <= i < LoadCount(first) ==> m'.mem[Origin(first) as int + i] == ImageWord(first, i))
      && (forall i :: 0 <= i < LoadCount(second) ==> m'.mem[Origin(second) as int + i] == ImageWord(second, i))
  {
    var m1 := Load(m, Some(first)).0;
    var m' := Load(m1, Some(second)).0;
    LoadKeepsState(m, first);
    LoadWritesWords(m, first);
    LoadWritesWords(m1, second);
    LoadKeepsOtherWords(m1, second);
    forall i | 0 <= i < LoadCount(first)
      ensures m'.mem[Origin(first) as int + i] == ImageWord(first, i)
    {
      assert m1.mem[Origin(first) as int + i] == ImageWord(first, i);
    }
  }

  // --------------------------------------------------------------- examples

  /** An image at 0x3000 holding ADD R0,R0,#5 and TRAP HALT, run from the
      initial state: R0 is 5, COND is POS and the machine has halted. */
  lemma AddThenHaltExample()
    ensures var image := [0x30, 0x00, 0x10, 0x25, 0xF0, 0x25];
      var m := Load(Initial([], []), Some(image)).0;
      var m' := Run(m.(running := true), 2);
      m'.reg[R0] == 5 && m'.reg[RCond] == FlPos && !m'.running && m'.output == HaltNotice
  {
    var image: seq<bv8> := [0x30, 0x00, 0x10, 0x25, 0xF0, 0x25];
    var init := Initial([], []);
    LoadPlacesImage(init, image);
    assert Origin(image) == 0x3000 && LoadCount(image) == 2;
    var m := Load(init, Some(image)).0;
    assert m.mem[0x3000] == ImageWord(image, 0) == 0x1025;
    assert m.mem[0x3001] == ImageWord(image, 1) == 0xF025;
    var s := m.(running := true);
    assert s.reg[RPc] == 0x3000 && s.reg[R0] == 0;

    // ADD R0, R0, #5
    FetchIncrementsPc(s);
    var f1 := Fetch(s);
    assert f1.1 == 0x1025 && f1.0.reg[RPc] == 0x3001;
    assert OpOf(0x1025) == Add;
    ArithmeticResult(f1.0, 0x1025, 2, 0, 0, true, 5, 5, 0x25);
    DataInstructionFrame(f1.0, 0x1025, 2);
    var (m1, d1) := Step(s, 2);
    assert m1 == Execute(f1.0, 0x1025, 2).0 && d1;
    assert m1.reg[R0] == 5 && m1.reg[RCond] == FlPos && m1.reg[RPc] == 0x3001;
    assert m1.running && m1.output == [] && m1.mem[0x3001] == 0xF025;

    // TRAP HALT
    FetchIncrementsPc(m1);
    var f2 := Fetch(m1);
    assert f2.1 == 0xF025;
    assert OpOf(0xF025) == Trap && TrapVector(0xF025) == TrapHalt;
    HaltStops(f2.0, 0xF025, 1);
    var (m2, d2) := Step(m1, 1);
    assert m2.reg[R0] == 5 && m2.reg[RCond] == FlPos && !m2.running && m2.output == HaltNotice && d2;
    assert Run(s, 2) == Run(m1, 1) == Run(m2, 0) == m2;
  }

  /** PUTS of "HI" stored as 0x48, 0x49, 0 writes exactly "HI". */
  lemma PutsHiExample(m: Machine)
    requires m.Valid() && m.reg[R0] == 0x4000
    requires m.mem[0x4000] == 0x48 && m.mem[0x4001] == 0x49 && m.mem[0x4002] == 0
    ensures PutString(m, false, 2) == (m.(output := m.output + [0x48, 0x49]), true)
  {
    assert AvoidsStatus(0x4002, 1) && AvoidsStatus(0x4001, 2) && AvoidsStatus(0x4000, 3);
    assert Words(m.mem, 0x4002, 1) == [0];
    assert Words(m.mem, 0x4001, 2) == [0x49, 0];
    assert Words(m.mem, 0x4000, 3) == [0x48, 0x49, 0];
    assert Words(m.mem, 0x4001, 1) == [0x49];
    assert Words(m.mem, 0x4000, 2) == [0x48, 0x49];
    assert AllChars([0x49], false) == [0x49];
    assert AllChars([0x48, 0x49], false) == [0x48, 0x49];
    PutStringWritesString(m, false, 2, 2);
  }
}
