# LC-3 CPU core in Dafny

This project models the LC-3 virtual machine of `lc3.cpp`/`lc3.hpp`: a
16-bit word-addressed computer with 65536 words of memory, ten registers
(R0–R7, PC, COND) and a run flag. It covers the emulator's fetch–decode–execute
loop, the sixteen opcodes (RTI and RES are no-ops), the condition
flags, the memory-mapped keyboard, the native trap routines and the
big-endian image loader.

The model has two layers:

- `Semantics` is the machine as a value (`Machine`) with one function per
  operation of the source. `Properties` proves what the source promises about
  those functions.
- `Cpu.LC3` is the emulator as the source writes it. It is a class with a
  register `array`, a memory `array` and a run flag, and its methods update
  them in place with loops where the source has loops. The postcondition of
  every opcode, trap, step, run and load method says that the object's new
  `State()` is exactly what the matching `Semantics` function computes from
  the old one. So every lemma in `Properties` also holds of the imperative
  machine. The loader's two loops (`ReadWords`, `SwapWords`) and the array
  store `SetWord` are specified through ghost sequence functions of module
  `Cpu`, and one turn of the run loop (`Cycle`) through `RunCycle`.

The files are:

- `defs.dfy` (module `Defs`): the constants and the opcode numbering of `lc3.hpp`.
- `bits.dfy` (module `Bits`): `sign_extend`, `swap16`, 16-bit wrapping addition and the byte views of a word.
- `semantics.dfy` (module `Semantics`): the pure state-transition model.
- `properties.dfy` (module `Properties`): the lemmas about it.
- `cpu.dfy` (module `Cpu`): the class and the loader's host-level helpers.

The terminal is explicit state:

- `input` holds the bytes `getchar` will return. Once it is empty a read gives EOF, which `(i16)` turns into 0xFFFF.
- `polls` holds the answers successive `check_key` polls give. Once it is empty, no key is ready.
- `output` collects every byte written.

The image file is an `Option<seq<bv8>>`, where `None` means that `fopen` failed.

The model follows the code where it departs from textbook LC-3:

- JSR/JSRR writes R7 before reading the base register, so JSRR through R7 continues at the next instruction.
- Traps run natively. They do not go through the trap vector table.
- An unknown trap vector only sets R7.
- `update_flags` tests for zero before it tests the sign bit.
- The constructor leaves the machine not running. `run` sets the flag.
- A load that fails changes nothing.

## Model

| member | source | states |
|---|---|---|
| Defs.OpcodeOf | lc3.hpp:37-54 | the opcode a 4-bit nibble selects is the one whose enum number is that nibble |
| Defs.NumberingIsBijective | lc3.hpp:37-54 | the opcodes are numbered one-to-one, so every nibble selects exactly one opcode and decoding a number gives its opcode back |
| Defs.FlagsAreDistinctBits | lc3.hpp:31-35 | FL_POS, FL_ZRO and FL_NEG are the single bits 0, 1 and 2, pairwise disjoint |
| Defs.RegisterFieldNamesGeneralRegister | lc3.hpp:17-29 | a 3-bit register field is below R_PC and R_COND, so it can never name PC or COND |
| Defs.DeviceRegistersDistinct | lc3.hpp:12-15 | the keyboard status and data registers are distinct addresses inside memory |
| Defs.AddressInRange | lc3.hpp:8-10 | every `uint16_t` address indexes one of the MEMORY_MAX words |
| Bits.SignExtend | lc3.cpp:113-118 | keeps the low `bit_count` bits; a set sign bit makes every higher bit 1; a clear one returns `x` unchanged |
| Bits.SignExtendIsTwosComplement | lc3.cpp:113-118 | for x < 2^n the widened word is the two's-complement value of the n-bit field modulo 2^16 |
| Bits.SignExtendKeepsImm5Value | lc3.cpp:163 | read as a signed number, a widened imm5 has the value -16..15 of the field |
| Bits.Swap16 | lc3.cpp:20-23 | the result's high byte is the argument's low byte and vice versa |
| Bits.Swap16Involution | lc3.cpp:20-23 | swapping twice gives the word back |
| Bits.LittleEndian | lc3.cpp:101 | the host's reading of two image bytes has the first as low byte and the second as high byte |
| Bits.SwapDecodesBigEndian | lc3.cpp:96 | swapping the host's reading of two bytes gives their big-endian value |
| Semantics.Dr | lc3.cpp:156 | the destination field is below 8 (likewise `Sr1`, `Sr2` for bits 8-6 and 2-0) |
| Semantics.CondFor | lc3.cpp:120-129 | the flag is one of the three, and FL_ZRO iff the value is 0, FL_NEG iff bit 15 is set, FL_POS iff 0 < v < 0x8000 |
| Semantics.Initial | lc3.cpp:5-13 | the constructed state: registers and memory 0 except PC = 0x3000 and COND = FL_ZRO, not running, nothing written; a well-formed machine |
| Semantics.UpdateFlags | lc3.cpp:120-129 | COND := the flag of reg[r] (see `CondFor`), nothing else changes |
| Semantics.GetChar | lc3.cpp:276 | consumes the next input byte and returns it; at end of input it returns 0xFFFF, which no byte can be, and consumes nothing |
| Semantics.CheckKey | lc3.cpp:49-59 | consumes one answer of the poll oracle; an exhausted oracle reports no key and stays exhausted |
| Semantics.PollKeyboard | lc3.cpp:63-73 | the status read's side effect: with a key ready mem[0xFE00] := 0x8000 and mem[0xFE02] := the next character, otherwise mem[0xFE00] := 0; registers, run flag and output never change |
| Semantics.MemRead | lc3.cpp:61-76 | a read of 0xFE00 polls first, every read returns the word then stored; a read never changes a register, the run flag or the output |
| Semantics.MemWrite | lc3.cpp:78-81 | mem[address] := v |
| Semantics.Fetch | lc3.cpp:139 | reads mem[PC] through the gate and sets PC := PC + 1, wrapping at 0xFFFF |
| Semantics.ExecBr | lc3.cpp:146-153 | PC := PC + offset9 when the n/z/p mask shares a bit with COND, otherwise nothing changes |
| Semantics.ExecAdd | lc3.cpp:154-173 | reg[dr] := reg[sr1] + (imm5 or reg[sr2]) modulo 2^16, then the flags |
| Semantics.LoadInto | lc3.cpp:178-179 | reg[dr] := the gated read of an address, then the flags (shared by LD, LDR and the second read of LDI, lines 222-223 and 246-247) |
| Semantics.ExecLd | lc3.cpp:174-181 | reg[dr] := the gated read of PC + offset9, then the flags |
| Semantics.ExecSt | lc3.cpp:182-188 | mem[PC + offset9] := reg[sr] |
| Semantics.ExecJsr | lc3.cpp:189-200 | R7 := PC, then PC := PC + offset11, or the base register read after that write |
| Semantics.ExecAnd | lc3.cpp:201-217 | reg[dr] := reg[sr1] & (imm5 or reg[sr2]), then the flags |
| Semantics.ExecLdr | lc3.cpp:218-225 | reg[dr] := the gated read of reg[base] + offset6, then the flags |
| Semantics.ExecStr | lc3.cpp:226-232 | mem[reg[base] + offset6] := reg[sr] |
| Semantics.ExecNot | lc3.cpp:234-241 | reg[dr] := ~reg[sr], then the flags |
| Semantics.ExecLdi | lc3.cpp:242-249 | reads the pointer at PC + offset9 through the gate, then reg[dr] := the gated read of the pointer, then the flags |
| Semantics.ExecSti | lc3.cpp:250-256 | reads the pointer at PC + offset9 through the gate, then mem[pointer] := reg[sr] |
| Semantics.ExecJmp | lc3.cpp:257-261 | PC := reg[base] |
| Semantics.ExecLea | lc3.cpp:263-269 | reg[dr] := PC + offset9 (the address, no read), then the flags |
| Semantics.StringLoop | lc3.cpp:286-290 | having read word w at addr: stop at a zero word, otherwise write its bytes and read addr + 1 through the gate, for at most `limit` words; the flag says whether the zero word was reached (also lines 304-312) |
| Semantics.PutString | lc3.cpp:283-315 | PUTS/PUTSP: read reg[R0] through the gate, then the string loop |
| Semantics.ExecGetc | lc3.cpp:275-278 | R0 := the character read (0xFFFF at EOF), then the flags |
| Semantics.ExecIn | lc3.cpp:294-300 | write the prompt, R0 := the character read, echo its low byte, then the flags |
| Semantics.ExecTrap | lc3.cpp:270-324 | R7 := PC, then the native routine for vectors 0x20-0x25; any other vector does nothing more |
| Semantics.Execute | lc3.cpp:142-326 | dispatches on the top four bits to the sixteen cases, extracting each case's fields |
| Semantics.Step | lc3.cpp:139-326 | one fetch, increment and execute |
| Semantics.Run | lc3.cpp:136-327 | the `while (running)` loop with a budget of `fuel` cycles: nothing happens when the budget is spent |
| Semantics.RunWhile | lc3.cpp:136 | the loop test: a stopped machine is left as it is |
| Semantics.RunCycle | lc3.cpp:137-327 | the loop body: one step, then the rest of the run unless a string trap was cut short |
| Semantics.Load | lc3.cpp:83-111 | `load_image`: fails without change when the file is missing or has no origin word; otherwise stores the big-endian words from the origin, as many as are whole and fit |
| Properties.PlainReadChangesNothing | lc3.cpp:61-76 | a read of any address but 0xFE00 returns the stored word and changes nothing |
| Properties.StatusReadPollsKeyboard | lc3.cpp:63-73 | a read of 0xFE00 polls once: with a key ready it stores 0x8000 at 0xFE00 and the next character at 0xFE02 and returns 0x8000; otherwise it stores 0 and returns 0 |
| Properties.MemReadFrame | lc3.cpp:61-76 | a read changes no register and no word but the two device registers |
| Properties.MemWriteStoresOneWord | lc3.cpp:78-81 | `mem_write` stores the value at the address and changes no other word and no register |
| Properties.FetchIncrementsPc | lc3.cpp:139 | a cycle reads mem[PC] through the gate and sets PC to PC + 1 (wrapping), changing no other register |
| Properties.RtiAndResAreNoOps | lc3.cpp:233 | RTI and RES leave the fetched state unchanged (likewise line 262) |
| Properties.WriteThenFlags | lc3.cpp:120-129 | writing reg[dr] then `update_flags(dr)` changes only reg[dr] and COND, and COND is the flag of the new value |
| Properties.AddWritesOnly | lc3.cpp:154-173 | ADD writes only reg[dr] and COND; reg[dr] is reg[sr1] plus imm5 or reg[sr2], modulo 2^16 |
| Properties.AndWritesOnly | lc3.cpp:201-217 | AND writes only reg[dr] and COND; reg[dr] is reg[sr1] & imm5 or reg[sr2] |
| Properties.NotWritesOnly | lc3.cpp:234-241 | NOT writes only reg[dr] := ~reg[sr] and COND |
| Properties.LeaWritesOnly | lc3.cpp:263-269 | LEA writes only reg[dr] := PC + offset9 and COND |
| Properties.LdWritesOnly | lc3.cpp:174-181 | LD writes only reg[dr] and COND; away from 0xFE00 it loads mem[PC + offset9] |
| Properties.LdrWritesOnly | lc3.cpp:218-225 | LDR writes only reg[dr] and COND; away from 0xFE00 it loads mem[reg[base] + offset6] |
| Properties.IndirectLoad | lc3.cpp:245-246 | the two reads of LDI load the word whose address is stored at the first address, when neither read is of 0xFE00 |
| Properties.LdiWritesOnly | lc3.cpp:242-249 | LDI writes only reg[dr] and COND; it loads mem[mem[PC + offset9]] when no read is of 0xFE00 |
| Properties.StWritesOneWord | lc3.cpp:182-188 | ST stores reg[sr] at PC + offset9 and changes nothing else |
| Properties.StrWritesOneWord | lc3.cpp:226-232 | STR stores reg[sr] at reg[base] + offset6 and changes nothing else |
| Properties.DataInstructionFrame | lc3.cpp:154-269 | for every ADD, AND, NOT, LD, LDR, LDI and LEA instruction only reg[dr] and then COND change, and memory only at the device registers |
| Properties.ArithmeticResult | lc3.cpp:154-173 | the value ADD, AND, NOT and LEA leave in reg[dr], in wrapping 16-bit arithmetic, from the instruction's own fields (also lines 201-217, 234-241, 263-269) |
| Properties.LoadResult | lc3.cpp:174-181 | the value LD, LDR and LDI load from the fields of the instruction when no read is of 0xFE00 (also lines 218-225, 242-249) |
| Properties.ImmediateModeMatchesRegisterMode | lc3.cpp:160-169 | ADD/AND in immediate mode behave exactly as register mode when reg[sr2] holds the widened imm5 |
| Properties.StoreWritesOneWord | lc3.cpp:182-188 | ST and STR change no register, COND included, and store exactly one word (also lines 226-232) |
| Properties.StoreIndirectWritesOneWord | lc3.cpp:250-256 | STI changes no register and stores reg[sr] at the address read from PC + offset9 |
| Properties.BranchTakenIffMaskMatches | lc3.cpp:146-153 | BR adds offset9 to PC exactly when its mask shares a bit with COND, and changes nothing else |
| Properties.BranchMaskTestsEachFlag | lc3.cpp:147-149 | with a valid COND, the n, z and p bits each test their own flag, and a zero mask never branches |
| Properties.JsrLinksThenJumps | lc3.cpp:189-200 | JSR/JSRR sets R7 := PC, then PC := PC + offset11 or the base register as it is after the R7 write |
| Properties.JsrrThroughR7ContinuesInPlace | lc3.cpp:190-197 | JSRR with base R7 leaves PC at the incremented PC, which is also R7 |
| Properties.JmpSetsPc | lc3.cpp:257-261 | JMP sets PC := reg[base] and changes nothing else |
| Properties.UnknownTrapOnlyLinks | lc3.cpp:270-274 | a TRAP vector outside 0x20..0x25 only sets R7 := PC |
| Properties.GetcAndInReadOneCharacter | lc3.cpp:275-300 | GETC and IN put the next input character (0xFFFF at EOF) in R0 and set COND from it; IN also writes the prompt and echoes the low byte; memory is untouched |
| Properties.OutWritesLowByte | lc3.cpp:279-282 | OUT writes the low byte of R0 and changes only R7 |
| Properties.HaltStops | lc3.cpp:317-321 | HALT writes "HALT\n" and clears the run flag |
| Properties.StringLoopFrame | lc3.cpp:283-315 | the string loops change no register and never stop the machine |
| Properties.TrapFrame | lc3.cpp:270-324 | every trap keeps COND a valid flag and changes the run flag only when it is HALT, which clears it |
| Properties.ExecuteCases | lc3.cpp:145-326 | every instruction keeps COND a valid flag and only HALT changes the run flag |
| Properties.TrapStopsOnlyOnHalt | lc3.cpp:270-324 | in any state, a trap routine changes the run flag only when it is HALT, and then clears it |
| Properties.OnlyHaltStops | lc3.cpp:317-321 | in any state, an instruction that changes the run flag clears it and is TRAP HALT |
| Properties.InitialCondValid | lc3.cpp:5-13 | the constructor's COND is a valid flag |
| Properties.ExecuteKeepsCondValid | lc3.cpp:145-326 | every instruction leaves COND exactly one of FL_POS, FL_ZRO and FL_NEG |
| Properties.StepKeepsCondValid | lc3.cpp:136-142 | so does every fetch–execute cycle |
| Properties.RunUnfold | lc3.cpp:131-137 | the run ends on a cleared flag or an exhausted budget; otherwise it is one cycle followed by the rest |
| Properties.RunKeepsCondValid | lc3.cpp:131-330 | however long the machine runs, COND holds exactly one flag |
| Properties.PutsWritesLowBytes | lc3.cpp:283-293 | PUTS writes one byte per word, that word's low byte |
| Properties.PutspWritesBothBytes | lc3.cpp:301-315 | PUTSP writes the low byte and then the high byte only when it is nonzero |
| Properties.PutspFullWordsInOrder | lc3.cpp:305-312 | a packed string whose high bytes are all nonzero comes out as two bytes per word, low byte first, word after word |
| Properties.StringLoopWritesString | lc3.cpp:285-290 | on a string of n nonzero words followed by a zero word, the loop writes exactly the bytes of the n words and not the zero word |
| Properties.PutStringWritesString | lc3.cpp:283-315 | PUTS/PUTSP from reg[R0] output exactly the string's bytes and change nothing else |
| Properties.ReadWithoutKey | lc3.cpp:63-75 | with no key ready a read leaves the poll oracle exhausted, and a read of 0xFE00 returns 0 |
| Properties.StringLoopEndsWithoutKey | lc3.cpp:286-290 | with no key ready the loop ends at a zero word, on any memory, once its reads reach 0xFE00, which then reads as 0 (also lines 304-312) |
| Properties.PutStringEndsWithoutKey | lc3.cpp:283-315 | with no key ready PUTS/PUTSP end on any memory within 65536 words |
| Properties.PutsHiExample | lc3.cpp:283-293 | PUTS of 0x48, 0x49, 0 writes "HI" |
| Properties.LoadFailsWithoutOrigin | lc3.cpp:85-95 | the load fails iff the file cannot be opened or has fewer than 2 bytes, and then changes nothing |
| Properties.LoadPlacesImage | lc3.cpp:96-107 | a load stores image word i big-endian at origin + i for i below min(words in file, 65536 - origin), and leaves registers and all other words alone |
| Properties.DisjointImagesCoexist | lc3.cpp:83-111 | two images loaded over disjoint regions are both in memory afterwards |
| Properties.AddThenHaltExample | lc3.cpp:131-330 | loading ADD R0,R0,#5; TRAP HALT at 0x3000 and running gives R0 = 5, COND = POS, halted, "HALT\n" written |
| Cpu.LC3.constructor | lc3.cpp:5-13 | fresh arrays with registers and memory cleared, PC = 0x3000, COND = FL_ZRO, not running |
| Cpu.LC3.GetChar | lc3.cpp:276 | consumes the next input byte, or gives 0xFFFF at EOF |
| Cpu.LC3.CheckKey | lc3.cpp:49-59 | consumes the next answer of the poll oracle |
| Cpu.LC3.MemRead | lc3.cpp:61-76 | the array-level `mem_read` computes `Semantics.MemRead` |
| Cpu.LC3.MemWrite | lc3.cpp:78-81 | the array store computes `Semantics.MemWrite` |
| Cpu.LC3.UpdateFlags | lc3.cpp:120-129 | the if-chain on the register array computes `Semantics.UpdateFlags` |
| Cpu.LC3.OpBr | lc3.cpp:146-153 | the in-place BR computes `ExecBr` |
| Cpu.LC3.OpAdd | lc3.cpp:154-173 | the in-place ADD computes `ExecAdd` |
| Cpu.LC3.OpLd | lc3.cpp:174-181 | the in-place LD computes `ExecLd` |
| Cpu.LC3.OpSt | lc3.cpp:182-188 | the in-place ST computes `ExecSt` |
| Cpu.LC3.OpJsr | lc3.cpp:189-200 | the in-place JSR/JSRR computes `ExecJsr` |
| Cpu.LC3.OpAnd | lc3.cpp:201-217 | the in-place AND computes `ExecAnd` |
| Cpu.LC3.OpLdr | lc3.cpp:218-225 | the in-place LDR computes `ExecLdr` |
| Cpu.LC3.OpStr | lc3.cpp:226-232 | the in-place STR computes `ExecStr` |
| Cpu.LC3.OpNot | lc3.cpp:234-241 | the in-place NOT computes `ExecNot` |
| Cpu.LC3.OpLdi | lc3.cpp:242-249 | the in-place LDI computes `ExecLdi` |
| Cpu.LC3.OpSti | lc3.cpp:250-256 | the in-place STI computes `ExecSti` |
| Cpu.LC3.OpJmp | lc3.cpp:257-261 | the in-place JMP computes `ExecJmp` |
| Cpu.LC3.OpLea | lc3.cpp:263-269 | the in-place LEA computes `ExecLea` |
| Cpu.LC3.OpGetc | lc3.cpp:275-278 | the in-place GETC computes `ExecGetc` |
| Cpu.LC3.OpIn | lc3.cpp:294-300 | the in-place IN computes `ExecIn` |
| Cpu.LC3.PutString | lc3.cpp:283-315 | the PUTS/PUTSP `while` loop over memory computes `Semantics.PutString` |
| Cpu.LC3.OpTrap | lc3.cpp:270-324 | the trap switch computes `ExecTrap` |
| Cpu.LC3.Execute | lc3.cpp:142-326 | the opcode switch computes `Semantics.Execute` |
| Cpu.LC3.Step | lc3.cpp:139-142 | one fetch–increment–execute pass computes `Semantics.Step` |
| Cpu.LC3.Cycle | lc3.cpp:136-327 | one turn of the loop advances the run by one cycle |
| Cpu.LC3.Run | lc3.cpp:131-330 | the `while (running)` loop, after setting the flag, computes `Semantics.Run` |
| Cpu.LC3.LoadImage | lc3.cpp:83-111 | the in-place loader computes `Semantics.Load` |
| Cpu.LC3.ReadWords | lc3.cpp:99-101 | `fread` stores `count` words from the origin, each as the little-endian host reads its two bytes, and nothing else |
| Cpu.LC3.SwapWords | lc3.cpp:103-107 | the `while (read-- > 0)` pointer loop byte-swaps exactly the words read |
| Cpu.SwappedImageIsLoad | lc3.cpp:96-107 | storing the host words and swapping them all is the big-endian load |
| Cpu.ReadIgnoresRegisters | lc3.cpp:139 | `mem_read` neither reads nor writes registers, so the PC increment may come before the fetch read |

## Left out

- Terminal raw mode: `disable_input_buffering`, `restore_input_buffering` and the destructor (lc3.cpp:15-47) are OS terminal plumbing, and `input_buffering_enabled` is not modelled.
- `check_key`'s `select` call is an OS poll. It is replaced by the `polls` oracle sequence.
- `getchar`, `putchar`, `printf`, `puts` and `fflush` are console I/O. They become the `input` sequence and the appended `output` sequence, and flushing has no effect in the model.
- `fopen`, `fread` and `fclose` are file I/O. The image is a byte sequence, or `None` when it cannot be opened.
- Cpu.LC3.LoadImage: models `fread` on a little-endian host. A big-endian host, where the source's in-place swap would mis-decode, is not modelled.
- Cpu.LC3.ReadWords: a trailing odd byte of an image is not stored. `fread` reads it as a partial item whose value C leaves indeterminate; glibc copies it into the word after the last one loaded, unswapped. The model leaves that word as it was.
- Semantics.Load: likewise stores no word for a trailing odd byte, so its "all other words are unchanged" holds of the source only for images of even length.
- Properties.LoadPlacesImage: its promise that all other words are left alone rests on that same choice about a trailing odd byte.
- main.cpp is not part of this model. It checks the argument count, accepts exactly one image and sets the exit codes.
- Semantics.Run: the source loop need not end, so the run is cut off after `fuel` cycles.
- Cpu.LC3.Run: the loop is likewise cut off after `fuel` cycles, and a string trap that runs out of budget ends the run early.
- Semantics.PutString: PUTS/PUTSP read through the memory gate, so within 65536 reads they reach 0xFE00, which reads as 0 and ends the loop unless a key is ready at that moment (Properties.PutStringEndsWithoutKey). The source loop is endless only when a key is reported ready on every such pass. Here the loop stops after `limit` words and reports that it did.
- Cpu.LC3.UpdateFlags: `update_flags(i16 r)` accepts any index. The model requires r < R_COUNT, since a larger index would be out of bounds for the source too.
- Semantics.UpdateFlags: requires r < R_COUNT for the same reason.
- Bits.SignExtend: `bit_count` is limited to 1..15. The source is called with 5, 6, 9 and 11 only.
- The `default: break;` of the opcode switch (lc3.cpp:325) cannot be reached, since a 4-bit opcode always selects one of the sixteen cases.
- `running` is an `int` in the source and a `bool` here, because only 0 and 1 are ever stored.
