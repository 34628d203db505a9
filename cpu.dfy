/** The emulator as the source writes it: an object owning a register file
    and a memory array that its methods update in place. The opcode, trap,
    step, run and load methods are proved to compute exactly the
    corresponding function of module Semantics, so the properties proved
    there hold of this machine; the loader's two loops and the run loop's
    body are specified through the ghost functions below and `RunCycle`. */
module Cpu {
  import opened Defs
  import opened Bits
  import opened Semantics

  class LC3 {
    /** R0..R7, PC and COND. */
    const reg: array<bv16>
    /** The 65536-word memory; device registers live at 0xFE00 and 0xFE02. */
    const memory: array<bv16>
    var running: bool
    /** The terminal: bytes `getchar` will return, answers of the key check,
        and every byte written so far. */
    var input: seq<bv8>
    var polls: seq<bool>
    var output: seq<bv8>

    ghost predicate Valid()
      reads this
    {
      reg.Length == RCount && memory.Length == MemoryMax && reg != memory
    }

    /** The machine this object stands for. */
    ghost function State(): (m: Machine)
      requires Valid()
      reads this, reg, memory
      ensures m.Valid()
    {
      Machine(reg[..], memory[..], running, input, polls, output)
    }

    /** `LC3::LC3`: registers and memory cleared, PC := 0x3000,
        COND := FL_ZRO, not running. */
    constructor(input: seq<bv8>, polls: seq<bool>)
      ensures Valid() && fresh(reg) && fresh(memory)
      ensures State() == Initial(input, polls)
    {
      reg := new bv16[RCount](i => 0);
      memory := new bv16[MemoryMax](a => 0);
      running := false;
      this.input := input;
      this.polls := polls;
      output := [];
      new;
      reg[RPc] := PcStart;
      reg[RCond] := FlZro;
      assert reg[..] == Initial(input, polls).reg;
    }

    // ---------------------------------------------------- terminal oracles

    /** `getchar()`: the next input byte, or 0xFFFF (EOF) when there is none. */
    method GetChar() returns (c: bv16)
      requires Valid()
      modifies this
      ensures Valid() && (State(), c) == Semantics.GetChar(old(State()))
    {
      if input == [] {
        c := 0xFFFF;
      } else {
        c := input[0] as bv16;
        input := input[1..];
      }
    }

    /** `check_key()`: the next answer of the poll oracle; none left means
        no key is ready. */
    method CheckKey() returns (ready: bool)
      requires Valid()
      modifies this
      ensures Valid() && (State(), ready) == Semantics.CheckKey(old(State()))
    {
      if polls == [] {
        ready := false;
      } else {
        ready := polls[0];
        polls := polls[1..];
      }
    }

    // --------------------------------------------------------- memory gate

    /** `mem_read`: a read of the keyboard status register polls first. */
    method MemRead(address: bv16) returns (v: bv16)
      requires Valid()
      modifies this, memory
      ensures Valid() && (State(), v) == Semantics.MemRead(old(State()), address)
    {
      if address == MrKbsr {
        var ready := CheckKey();
        if ready {
          SetWord(MrKbsr as int, 0x8000);
          var c := GetChar();
          SetWord(MrKbdr as int, c);
        } else {
          SetWord(MrKbsr as int, 0);
        }
      }
      AddressInRange(address);
      v := memory[address];
    }

    /** `mem_write`: a direct store. */
    method MemWrite(address: bv16, v: bv16)
      requires Valid()
      modifies memory
      ensures Valid() && State() == Semantics.MemWrite(old(State()), address, v)
    {
      SetWord(address as int, v);
    }

    /** The single array store behind every write to memory. */
    method SetWord(a: int, v: bv16)
      requires Valid() && 0 <= a < MemoryMax
      modifies memory
      ensures Valid() && State() == old(State()).(mem := old(State()).mem[a := v])
    {
      memory[a] := v;
    }

    /** `update_flags`: zero is tested before the sign bit. */
    method UpdateFlags(r: nat)
      requires Valid() && r < RCount
      modifies reg
      ensures Valid() && State() == Semantics.UpdateFlags(old(State()), r)
    {
      if reg[r] == 0 {
        reg[RCond] := FlZro;
      } else if reg[r] >> 15 != 0 {
        reg[RCond] := FlNeg;
      } else {
        reg[RCond] := FlPos;
      }
    }

    // ------------------------------------------------------------ opcodes
    // Each runs on the state after the fetch and decodes its own fields.

    method OpBr(instr: bv16)
      requires Valid()
      modifies reg
      ensures Valid() && State() == ExecBr(old(State()), CondMask(instr), PcOffset9(instr))
    {
      var condFlag := CondMask(instr);
      var pcOffset := PcOffset9(instr);
      if condFlag & reg[RCond] != 0 {
        reg[RPc] := Add16(reg[RPc], pcOffset);
      }
    }

    method OpAdd(instr: bv16)
      requires Valid()
      modifies reg
      ensures Valid()
      ensures State() == ExecAdd(old(State()), Dr(instr), Sr1(instr), ImmMode(instr), Imm5(instr), Sr2(instr))
    {
      var dr := Dr(instr);
      var sr1 := Sr1(instr);
      if ImmMode(instr) {
        var imm5 := Imm5(instr);
        reg[dr] := Add16(reg[sr1], imm5);
      } else {
        var sr2 := Sr2(instr);
        reg[dr] := Add16(reg[sr1], reg[sr2]);
      }
      assert State() == SetReg(old(State()), dr, reg[dr]);
      UpdateFlags(dr);
    }

    method OpAnd(instr: bv16)
      requires Valid()
      modifies reg
      ensures Valid()
      ensures State() == ExecAnd(old(State()), Dr(instr), Sr1(instr), ImmMode(instr), Imm5(instr), Sr2(instr))
    {
      var dr := Dr(instr);
      var sr1 := Sr1(instr);
      if ImmMode(instr) {
        var imm5 := Imm5(instr);
        reg[dr] := reg[sr1] & imm5;
      } else {
        var sr2 := Sr2(instr);
        reg[dr] := reg[sr1] & reg[sr2];
      }
      assert State() == SetReg(old(State()), dr, reg[dr]);
      UpdateFlags(dr);
    }

    method OpNot(instr: bv16)
      requires Valid()
      modifies reg
      ensures Valid() && State() == ExecNot(old(State()), Dr(instr), Sr1(instr))
    {
      var dr := Dr(instr);
      var sr := Sr1(instr);
      reg[dr] := !reg[sr];
      assert State() == SetReg(old(State()), dr, reg[dr]);
      UpdateFlags(dr);
    }

    method OpLd(instr: bv16)
      requires Valid()
      modifies this, reg, memory
      ensures Valid() && State() == ExecLd(old(State()), Dr(instr), PcOffset9(instr))
    {
      var dr := Dr(instr);
      var pcOffset := PcOffset9(instr);
      var v := MemRead(Add16(reg[RPc], pcOffset));
      reg[dr] := v;
      UpdateFlags(dr);
    }

    method OpLdr(instr: bv16)
      requires Valid()
      modifies this, reg, memory
      ensures Valid() && State() == ExecLdr(old(State()), Dr(instr), Sr1(instr), Offset6(instr))
    {
      var dr := Dr(instr);
      var baseR := Sr1(instr);
      var offset := Offset6(instr);
      var v := MemRead(Add16(reg[baseR], offset));
      reg[dr] := v;
      UpdateFlags(dr);
    }

    method OpLdi(instr: bv16)
      requires Valid()
      modifies this, reg, memory
      ensures Valid() && State() == ExecLdi(old(State()), Dr(instr), PcOffset9(instr))
    {
      var dr := Dr(instr);
      var pcOffset := PcOffset9(instr);
      var addr := MemRead(Add16(reg[RPc], pcOffset));
      var v := MemRead(addr);
      reg[dr] := v;
      UpdateFlags(dr);
    }

    method OpLea(instr: bv16)
      requires Valid()
      modifies reg
      ensures Valid() && State() == ExecLea(old(State()), Dr(instr), PcOffset9(instr))
    {
      var dr := Dr(instr);
      var pcOffset := PcOffset9(instr);
      reg[dr] := Add16(reg[RPc], pcOffset);
      UpdateFlags(dr);
    }

    method OpSt(instr: bv16)
      requires Valid()
      modifies memory
      ensures Valid() && State() == ExecSt(old(State()), Dr(instr), PcOffset9(instr))
    {
      var sr := Dr(instr);
      var pcOffset := PcOffset9(instr);
      MemWrite(Add16(reg[RPc], pcOffset), reg[sr]);
    }

    method OpStr(instr: bv16)
      requires Valid()
      modifies memory
      ensures Valid() && State() == ExecStr(old(State()), Dr(instr), Sr1(instr), Offset6(instr))
    {
      var sr := Dr(instr);
      var baseR := Sr1(instr);
      var offset := Offset6(instr);
      MemWrite(Add16(reg[baseR], offset), reg[sr]);
    }

    method OpSti(instr: bv16)
      requires Valid()
      modifies this, memory
      ensures Valid() && State() == ExecSti(old(State()), Dr(instr), PcOffset9(instr))
    {
      var sr := Dr(instr);
      var pcOffset := PcOffset9(instr);
      var addr := MemRead(Add16(reg[RPc], pcOffset));
      MemWrite(addr, reg[sr]);
    }

    /** JSR/JSRR: R7 is written before the base register is read. */
    method OpJsr(instr: bv16)
      requires Valid()
      modifies reg
      ensures Valid() && State() == ExecJsr(old(State()), (instr >> 11) & 1 == 1, Sr1(instr), PcOffset11(instr))
    {
      reg[R7] := reg[RPc];
      var baseR := Sr1(instr);
      var pcOffset := PcOffset11(instr);
      if (instr >> 11) & 1 == 1 {
        reg[RPc] := Add16(reg[RPc], pcOffset);
      } else {
        reg[RPc] := reg[baseR];
      }
    }

    method OpJmp(instr: bv16)
      requires Valid()
      modifies reg
      ensures Valid() && State() == ExecJmp(old(State()), Sr1(instr))
    {
      var baseR := Sr1(instr);
      reg[RPc] := reg[baseR];
    }

    // -------------------------------------------------------------- traps

    /** The PUTS (`packed` false) and PUTSP (`packed` true) loop: from
        reg[R0], write each word's low byte (and for PUTSP its nonzero high
        byte) until a zero word. At most `limit` words are written; `done`
        is false when the limit cut the loop off. */
    method PutString(packed: bool, limit: nat) returns (done: bool)
      requires Valid()
      modifies this, memory
      ensures Valid() && (State(), done) == Semantics.PutString(old(State()), packed, limit)
    {
      var addr := reg[R0];
      var word := MemRead(addr);
      var budget := limit;
      while word != 0 && budget > 0
        invariant Valid()
        invariant StringLoop(State(), addr, word, packed, budget) == Semantics.PutString(old(State()), packed, limit)
        decreases budget
      {
        ghost var before := State();
        output := output + [LowByte(word)];
        if packed && HighByte(word) != 0 {
          output := output + [HighByte(word)];
        }
        assert State() == Emit(before, Chars(word, packed));
        addr := Add16(addr, 1);
        word := MemRead(addr);
        budget := budget - 1;
      }
      done := word == 0;
    }

    /** GETC: R0 receives the character read, widened to a word, and then
        the flags are set from it. */
    method OpGetc()
      requires Valid()
      modifies this, reg
      ensures Valid() && State() == ExecGetc(old(State()))
    {
      var c := GetChar();
      reg[R0] := c;
      UpdateFlags(R0);
    }

    /** IN: prompt, read, echo the character's low byte, then the flags. */
    method OpIn()
      requires Valid()
      modifies this, reg
      ensures Valid() && State() == ExecIn(old(State()))
    {
      output := output + Prompt;
      ghost var prompted := State();
      var c := GetChar();
      reg[R0] := c;
      ghost var read := SetReg(Semantics.GetChar(prompted).0, R0, c);
      assert State() == read;
      output := output + [LowByte(c)];
      assert State() == Emit(read, [LowByte(c)]);
      UpdateFlags(R0);
    }

    /** TRAP: R7 := PC, then the routine for the vector runs natively; an
        unknown vector does nothing more. */
    method OpTrap(instr: bv16, limit: nat) returns (done: bool)
      requires Valid()
      modifies this, reg, memory
      ensures Valid() && (State(), done) == ExecTrap(old(State()), TrapVector(instr), limit)
    {
      var trapVect := TrapVector(instr);
      reg[R7] := reg[RPc];
      done := true;
      if trapVect == TrapGetc {
        OpGetc();
      } else if trapVect == TrapOut {
        output := output + [LowByte(reg[R0])];
      } else if trapVect == TrapPuts {
        done := PutString(false, limit);
      } else if trapVect == TrapIn {
        OpIn();
      } else if trapVect == TrapPutsp {
        done := PutString(true, limit);
      } else if trapVect == TrapHalt {
        output := output + HaltNotice;
        running := false;
      }
    }

    // ---------------------------------------------------------- the cycle

    /** The dispatch on the top nibble of a fetched instruction. */
    method Execute(instr: bv16, limit: nat) returns (done: bool)
      requires Valid()
      modifies this, reg, memory
      ensures Valid() && (State(), done) == Semantics.Execute(old(State()), instr, limit)
    {
      done := true;
      match OpOf(instr)
      case Br => OpBr(instr);
      case Add => OpAdd(instr);
      case Ld => OpLd(instr);
      case St => OpSt(instr);
      case Jsr => OpJsr(instr);
      case And => OpAnd(instr);
      case Ldr => OpLdr(instr);
      case Str => OpStr(instr);
      case Rti =>
      case Not => OpNot(instr);
      case Ldi => OpLdi(instr);
      case Sti => OpSti(instr);
      case Jmp => OpJmp(instr);
      case Res =>
      case Lea => OpLea(instr);
      case Trap => done := OpTrap(instr, limit);
    }

    /** One pass of the `while (running)` loop: fetch the word at PC,
        increment PC, execute. */
    method Step(limit: nat) returns (done: bool)
      requires Valid()
      modifies this, reg, memory
      ensures Valid() && (State(), done) == Semantics.Step(old(State()), limit)
    {
      var pc := reg[RPc];
      reg[RPc] := Add16(pc, 1);
      var instr := MemRead(pc);
      ReadIgnoresRegisters(old(State()), pc, reg[..]);
      done := Execute(instr, limit);
    }

    /** One turn of the `while (running)` loop with `budget` cycles left. */
    method Cycle(budget: nat) returns (done: bool)
      requires Valid() && running && budget > 0
      modifies this, reg, memory
      ensures Valid()
      ensures Semantics.Run(old(State()), budget) == if done then Semantics.Run(State(), budget - 1) else State()
    {
      ghost var before := State();
      done := Step(budget);
      assert Semantics.RunCycle(before, budget) == if done then Semantics.Run(State(), budget - 1) else State();
    }

    /** `run`: set the run flag, then cycle until HALT clears it, here for
        at most `fuel` cycles. */
    method Run(fuel: nat)
      requires Valid()
      modifies this, reg, memory
      ensures Valid() && State() == Semantics.Run(old(State()).(running := true), fuel)
    {
      running := true;
      var budget := fuel;
      while running && budget > 0
        invariant Valid()
        invariant Semantics.Run(State(), budget) == Semantics.Run(old(State()).(running := true), fuel)
        decreases budget
      {
        var done := Cycle(budget);
        if !done {
          return;
        }
        budget := budget - 1;
      }
    }

    // ------------------------------------------------------------- loader

    /** `load_image`: `file` is None when the file cannot be opened. The
        origin word and then up to 65536 - origin words are read as the
        little-endian host sees them, and the words read are byte-swapped
        in place. */
    method LoadImage(file: Option<seq<bv8>>) returns (ok: bool)
      requires Valid()
      modifies memory
      ensures Valid() && (State(), ok) == Load(old(State()), file)
    {
      if file.None? || |file.value| < 2 {
        return false;
      }
      var bytes := file.value;
      var origin := Swap16(LittleEndian(bytes[0], bytes[1]));
      SwapDecodesBigEndian(bytes[0], bytes[1]);
      var maxRead := MemoryMax - origin as int;
      var read := Min((|bytes| - 2) / 2, maxRead);
      assert origin == Origin(bytes) && read == LoadCount(bytes);
      ghost var base := memory[..];
      ReadWords(origin as int, bytes, read);
      SwapWords(origin as int, read, base, HostWords(bytes, read));
      ok := true;
      SwappedImageIsLoad(old(State()), bytes);
      assert file == Some(bytes);
    }

    /** The bulk read of the image body: `count` words stored from `origin`
        on, each as the little-endian host reads its two bytes. */
    method ReadWords(origin: nat, bytes: seq<bv8>, count: nat)
      requires Valid() && origin + count <= MemoryMax && 2 * count + 2 <= |bytes|
      modifies memory
      ensures Valid() && State() == old(State()).(mem := Placed(old(memory[..]), origin, HostWords(bytes, count)))
    {
      var i := 0;
      while i < count
        invariant 0 <= i <= count && Valid()
        invariant State() == old(State()).(mem := Placed(old(memory[..]), origin, HostWords(bytes, i)))
      {
        PlacedAppend(old(memory[..]), origin, HostWords(bytes, i), LittleEndian(bytes[2 * i + 2], bytes[2 * i + 3]));
        HostWordsAppend(bytes, i);
        SetWord(origin + i, LittleEndian(bytes[2 * i + 2], bytes[2 * i + 3]));
        i := i + 1;
      }
    }

    /** The swap loop: a pointer walks the `count` words `ws` stored from
        `origin` on and byte-swaps each one in place. */
    method SwapWords(origin: nat, count: nat, ghost base: seq<bv16>, ghost ws: seq<bv16>)
      requires Valid() && |ws| == count && origin + count <= MemoryMax && |base| == MemoryMax
      requires memory[..] == Placed(base, origin, ws)
      modifies memory
      ensures Valid() && State() == old(State()).(mem := Placed(base, origin, SwapPrefix(ws, count)))
    {
      var p := origin;
      var left := count;
      while left > 0
        invariant 0 <= left <= count && p == origin + (count - left) && Valid()
        invariant State() == old(State()).(mem := Placed(base, origin, SwapPrefix(ws, count - left)))
      {
        PlacedUpdate(base, origin, SwapPrefix(ws, count - left), count - left, Swap16(ws[count - left]));
        SwapPrefixStep(ws, count - left);
        SetWord(p, Swap16(memory[p]));
        p := p + 1;
        left := left - 1;
      }
    }
  }

  /** The words `fread` stores: each pair of image bytes as the
      little-endian host reads it. */
  ghost function HostWords(bytes: seq<bv8>, n: nat): (ws: seq<bv16>)
    requires 2 * n + 2 <= |bytes|
    ensures |ws| == n
  {
    seq(n, j requires 0 <= j < n => LittleEndian(bytes[2 * j + 2], bytes[2 * j + 3]))
  }

  /** `mem` with the words `ws` stored from `origin` on. */
  ghost function Placed(mem: seq<bv16>, origin: nat, ws: seq<bv16>): (r: seq<bv16>)
    requires origin + |ws| <= |mem|
    ensures |r| == |mem|
  {
    seq(|mem|, a requires 0 <= a < |mem| => if origin <= a < origin + |ws| then ws[a - origin] else mem[a])
  }

  /** `ws` with its first `n` words byte-swapped. */
  ghost function SwapPrefix(ws: seq<bv16>, n: nat): (r: seq<bv16>)
    requires n <= |ws|
    ensures |r| == |ws|
  {
    seq(|ws|, j requires 0 <= j < |ws| => if j < n then Swap16(ws[j]) else ws[j])
  }

  lemma HostWordsAppend(bytes: seq<bv8>, n: nat)
    requires 2 * n + 4 <= |bytes|
    ensures HostWords(bytes, n + 1) == HostWords(bytes, n) + [LittleEndian(bytes[2 * n + 2], bytes[2 * n + 3])]
  {
    assert HostWords(bytes, n + 1)[..n] == HostWords(bytes, n);
  }

  lemma PlacedAppend(mem: seq<bv16>, origin: nat, ws: seq<bv16>, w: bv16)
    requires origin + |ws| < |mem|
    ensures Placed(mem, origin, ws + [w]) == Placed(mem, origin, ws)[origin + |ws| := w]
  {
  }

  lemma PlacedUpdate(mem: seq<bv16>, origin: nat, ws: seq<bv16>, k: nat, w: bv16)
    requires origin + |ws| <= |mem| && k < |ws|
    ensures Placed(mem, origin, ws[k := w]) == Placed(mem, origin, ws)[origin + k := w]
  {
  }

  lemma SwapPrefixStep(ws: seq<bv16>, n: nat)
    requires n < |ws|
    ensures SwapPrefix(ws, n + 1) == SwapPrefix(ws, n)[n := Swap16(ws[n])]
  {
  }

  /** Storing the host words from the origin and swapping them all leaves
      memory as `Load` describes it. */
  lemma SwappedImageIsLoad(m: Machine, bytes: seq<bv8>)
    requires m.Valid() && |bytes| >= 2
    ensures Origin(bytes) as int + LoadCount(bytes) <= MemoryMax
    ensures Load(m, Some(bytes)) == (m.(mem := Placed(m.mem, Origin(bytes) as int, SwapPrefix(HostWords(bytes, LoadCount(bytes)), LoadCount(bytes)))), true)
  {
    var n := LoadCount(bytes);
    HostWordsSwapped(bytes, n);
    assert Placed(m.mem, Origin(bytes) as int, SwapPrefix(HostWords(bytes, n), n)) == Load(m, Some(bytes)).0.mem;
  }

  /** Swapping every word `fread` stored gives the big-endian image words. */
  lemma HostWordsSwapped(bytes: seq<bv8>, n: nat)
    requires 2 * n + 2 <= |bytes|
    ensures SwapPrefix(HostWords(bytes, n), n) == seq(n, j requires 0 <= j < n => ImageWord(bytes, j))
  {
    forall j | 0 <= j < n
      ensures SwapPrefix(HostWords(bytes, n), n)[j] == ImageWord(bytes, j)
    {
      SwapDecodesBigEndian(bytes[2 * j + 2], bytes[2 * j + 3]);
    }
  }

  /** A read through the gate does not look at or change the registers, so
      it may happen before or after a register update. */
  lemma ReadIgnoresRegisters(m: Machine, a: bv16, r: seq<bv16>)
    requires m.Valid() && |r| == RCount
    ensures MemRead(m.(reg := r), a) == (MemRead(m, a).0.(reg := r), MemRead(m, a).1)
  {
  }
}
