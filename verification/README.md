# A verified model of the m68k-emu interpreter

m68k-emu interprets Motorola 68000 machine code: a byte memory behind a 24-bit bus, nineteen
32-bit registers with a banked stack pointer, a 65536-entry opcode table, four effective-address
resolvers, and one `execute` method per instruction class. This project models that step machine
in Dafny and proves what its parts owe each other.

The model has two layers.

* **Functions on values.** `Memory`, `Registers`, `CpuState`, `Instructions`, `Decoder`, `Machine`
  and `Disassembler` describe each call as a function from a state to an outcome: it returns, it
  throws (with the state it had reached), or it does something C++ gives no meaning to. The four
  resolvers and the disassembler's copy stay five separate switches, so that their agreement is a
  theorem. All whole-run theorems are about these functions.
* **Objects updated in place.** `MemoryBuffer`, `RegisterBuffer`, `CpuInPlace`,
  `InstructionsInPlace`, `DisassemblerInPlace` and `Cpu` are the program's classes over a byte
  array and a register array. Their methods run the source's statements in order (flags are set
  one by one, words byte by byte, exceptions leave half-done state behind), and each is proved to
  agree with its function: same value, same final state, same error, same state at the throw.

An exception is a `Fault`; memory size is a parameter; widths and wrap-around are written out.
The instruction set manual is M68000PM/AD, the M68000 Family Programmer's Reference Manual.

`dafny verify dfyconfig.toml` checks the project.

## What is proved

* Every step, for every opcode and state: a step that throws leaves memory, D0-D7, SR and the
  inactive stack pointer alone; over any run, SR bits 5 and up and the inactive stack pointer never
  change and n steps change at most 4n bytes.
* ADDX and SUBX chains compute n-limb sums and differences for every n, and at every size an addition
  chain is undone by a subtraction chain. At long size the carry is never set: a chain is right exactly
  when no limb carries.
* Calls and stack frames in any interleaving, with arbitrary steps in between that respect the live
  stack, over runs of `CPU::step`: each RTS lands where its call pushed, each UNLK restores its An, SP
  comes back.
* The resolvers agree on cell, value and side effects, with the absolute-short exception stated
  exactly; disassembly and execution advance PC alike, so a linear sweep follows a straight-line run.
* The decoder is the manual's opcode map for all 65536 opcodes: assembling a supported instruction from
  its fields and decoding it gives the instruction back, and every opcode but shifts and the doubled words
  of AND and OR is the one word of what it decodes to.
* Operand addresses and branch targets are given by the fields of the opcode and extension words: index
  register, size and displacement; PC-relative bases; byte, word and long branches.
* Memory is a byte map modulo 2^24; the rotates are a cyclic group; the read-modify-write family stores
  sums, differences and bitwise results in the cell it read and writes nothing else; all sixteen condition
  tests after arithmetic, comparisons, logic and moves mean the comparisons they are named for, with the
  exact scope where the code departs from the manual; X and the other flags an instruction does not set
  are kept.
* The codes of AS and LS against shifting one bit at a time, exactly where they agree.

## Where the code departs from the manual

The model follows the code. For each departure below a theorem gives the exact condition under which
the code still does what the manual says, and a lemma of `FailingInputs` a state whose next step, an
opcode in memory decoded by the opcode table, does something else.

* Arithmetic is 32 bits wide before it is widened, so carry and borrow are never set at long size:
  `Conditions.ConditionsAfterAdd`, `Conditions.ConditionsAfterSubtract`, `Conditions.ConditionsAfterQuick`,
  `Conditions.ConditionsAfterCompare`, `Departures.NegTests`, `Departures.CarryAfterExtend`,
  `ExtendedArithmetic.LongChainExact`; `FailingInputs.CompareLongFails`, `FailingInputs.AddExtendLongFails`.
* CMP, SUB, SUBQ and NEG compute V with the test for addition: `Conditions.ConditionsAfterCompare`,
  `Conditions.ConditionsAfterSubtract`, `Conditions.ConditionsAfterQuick`, `Departures.NegTests`;
  `FailingInputs.CompareByteFails`, `FailingInputs.SubtractFails`, `FailingInputs.SubtractQuickFails`,
  `FailingInputs.NegFails`.
* ADDX and SUBX leave X out of the overflow test, and SUBX also uses the test for addition:
  `Departures.OverflowAfterExtend`; `FailingInputs.AddExtendOverflowFails`,
  `FailingInputs.SubtractExtendOverflowFails`.
* ADDA.W, SUBA.W, and ADDQ and SUBQ below long size write only the low part of an address register:
  `Departures.AddressSum`, `Departures.QuickAddress`; `FailingInputs.AddAddressFails`,
  `FailingInputs.AddQuickFails`.
* CMPA.W compares words, with the carry of the sign-extended operand: `Departures.CmpaWord`, for each of
  the fourteen tests; `FailingInputs.CompareAddressFails`.
* EXT.L extends from the low byte and MOVEQ does not extend: `Departures.ExtExtends`,
  `Departures.MoveqValue`; `FailingInputs.ExtendFails`, `FailingInputs.MoveQuickFails`.
* DIV divides 16 bits by 16 bits: `Departures.DivResult`; `FailingInputs.DivideFails`.
* Bit instructions with an immediate bit number and a data register read a long immediate:
  `Departures.BitImmediateLength`; `FailingInputs.BitImmediateFails`.
* Shift opcodes are misread: a memory shift takes its kind from the mode field and a register shift from
  the count field, so that ASL (8,A0) runs as LSL; bit 5 is inverted, and the count is the count field
  plus one: `Decoding.ShiftFields`, `Encoding.MemoryShiftDecodes`, `Encoding.RegisterShiftDecodes`;
  `FailingInputs.ShiftFails`.
* A shift to the left sets C and X to bit 0 of the shifted value instead of the last bit out, an arithmetic
  shift to the right brings in ones at bit 63 instead of the sign bit of the operand's size, V is never set,
  and the N of ROL and ROR is always clear: `SingleShifts.ShiftAgrees`, `SingleShifts.ShiftOverflows`,
  `ShiftEffects.ShiftSets`; `FailingInputs.LeftShiftFails`, `FailingInputs.RightShiftFails`.
* The table lacks ABCD, SBCD, EXG and CMPM, and their words run as AND, OR and EOR: `Encoding.ForeignWords`;
  `FailingInputs.DecimalAddFails`.
* Shifts store nothing, whatever the operand (`Departures.ShiftKeepsAll`), and do not step over their
  extension words (`Disassembler.ShiftLength`); `FailingInputs.ShiftFails`.
* Absolute short operands are sign-extended by `getDataSilent` and `setData` and zero-extended by
  `getData` and `getControlAddress`: `Addressing.ShortAddress`, `Addressing.ShortStoreThenLoad`;
  `FailingInputs.ShortAddressFails`.
* BSR pushes the address after the opcode word: `CallDiscipline.BsrReturnAddress`;
  `FailingInputs.LongBsrFails`.

## Model

| member | source | states |
|---|---|---|
| `MemoryBuffer.BaseMemory.constructor` | src/memory.cpp:57-62 | takes over a buffer and clears its last byte, nothing else; a null buffer is left alone and memory is empty |
| `MemoryBuffer.BaseMemory.ReadRealMem` | src/memory.cpp:9-30 | shifting bytes in one at a time gives the big-endian value of the cell |
| `MemoryBuffer.BaseMemory.WriteRealMem` | src/memory.cpp:33-53 | in place: the cell holds the low digits of the data, most significant first, and no other byte moves |
| `MemoryBuffer.BaseMemory.Get` | src/memory.cpp:65-78 | value or fault exactly as `Memory.MemGet` on the buffer, which is not modified |
| `MemoryBuffer.BaseMemory.Set` | src/memory.cpp:81-96 | the new buffer is `Memory.MemSet` of the old one; a fault leaves it untouched |
| `Memory.FaultsAlike` | src/memory.cpp:65-93 | `get` and `set` fault alike: odd address at word or long size, seen before range; otherwise out of range exactly when the cell at the address cut to 24 bits reaches past memory |
| `Memory.ReadBack` | src/memory.cpp:9-53 | reading the cell just written gives the data truncated to the size |
| `Memory.ReadApart` | src/memory.cpp:33-53 | a write leaves the value of every disjoint cell of any size alone |
| `Memory.WriteBack` | src/memory.cpp:33-53 | writing back what a cell holds changes no byte |
| `MemoryRefinement.RefinesByteMap` | src/memory.cpp:33-53 | after any sequence of successful writes each byte is the digit put there by the last write covering it, or its first value |
| `MemoryRefinement.ReadsByteMap` | src/memory.cpp:65-96 | any sized read after any such sequence is the big-endian value of that byte map at the address modulo 2^24, and faults exactly when it would have before |
| `MemoryRefinement.WritesFit` | src/memory.cpp:81-93 | a sequence of writes goes through if and only if each fits the memory it started from |
| `MemoryRefinement.TopByteIgnored` | src/memory.cpp:66-66 | addresses that differ above bit 23 only read and write alike |
| `MemoryRefinement.Untouched` | src/memory.cpp:33-53 | a byte no write covers keeps its first value |
| `RegisterBuffer.Registers.Get` | src/registers.cpp:6-32 | the register at its size, A7 read from its bank, nothing modified |
| `RegisterBuffer.Registers.Set` | src/registers.cpp:35-67 | in place: one cell of the banked file changes, its bits above the size are kept, SR is cut to 16 bits |
| `RegisterBuffer.Registers.GetFlag` | src/registers.cpp:70-74 | the flag's bit of SR |
| `RegisterBuffer.Registers.SetFlag` | src/registers.cpp:77-85 | in place: SR with one flag replaced, every other register kept |
| `RegisterBuffer.FourFlags` | src/registers.cpp:77-85 | setting N, Z, V and C one after the other replaces exactly those four codes, whatever they were |
| `RegisterBuffer.FiveFlags` | src/instructions/add.cpp:65-69 | the five flag assignments replace the five codes at once and no other bit of SR |
| `RegisterBuffer.StickyFlags` | src/instructions/addx.cpp:53-60 | clearing Z only for a non-zero result and then setting X, N, V and C leaves Z the conjunction of old Z and zero result |
| `Registers.CodesRead` | src/registers.cpp:70-85 | replaced codes read back as written; SR bits 5 and up and the supervisor flag are kept |
| `Registers.StatusBits` | src/registers.cpp:70-74 | C, V, Z, N and X are bits 0 to 4 of SR and the supervisor flag bit 13 |
| `Registers.StackBank` | src/registers.cpp:6-67 | A7 names the supervisor stack pointer exactly when bit 13 of SR is set; no other name is banked, and SR keeps 16 bits |
| `CpuState.SetLong` | src/registers.cpp:35-67 | a long write to an operand register replaces the cell it is banked to and no other operand register's value |
| `Rotation.RotationsUndo` | include/helpers.hpp:31-43 | for every width up to 64 and count up to the width, ROL and ROR undo each other in both orders and stay below 2^n |
| `Rotation.RotationsCompose` | include/helpers.hpp:31-36 | rotating left by b and then by c is rotating left by (b + c) modulo the width |
| `Rotation.RightRotationsCompose` | include/helpers.hpp:38-43 | the same for right rotations |
| `Rotation.RightIsLeft` | include/helpers.hpp:31-43 | a right rotation by b is a left rotation by n - b |
| `Rotation.LeftTurns` | include/helpers.hpp:31-36 | the shift-and-or formula, 64-bit overflow included, is b single-bit turns |
| `Helpers.Wrapped` | include/helpers.hpp:139-146 | what truncation and the carry test see of a sum or difference of two operands and a carry: never a carry at long size |
| `Helpers.HighBit` | include/helpers.hpp:112-119 | the sign test holds exactly when the truncated value is in the upper half of its range |
| `Decoder.GenerateOpcodeTable` | src/instruction_decoder.cpp:148-169 | for every mask table and factory the nested loops build 65536 entries, entry k being the first match if valid and Illegal otherwise |
| `Decoder.NewDecoder` | src/instruction_decoder.cpp:56-177 | with the real table, entry k is the reference lookup of k; `Decoding.TableIsMap`, `Encoding.AssembledDecodes` and `Encoding.DecodedAssembles` say what that is for every opcode |
| `Decoder.DecodeWellFormed` | src/instruction_decoder.cpp:56-146 | every opcode decodes to an instruction whose operands name the right register bank and whose written operands are in modes `setData` supports |
| `Decoder.AluWellFormed` | src/instructions/add.cpp:8-52 | the read-modify-write constructors accept alterable destinations only |
| `Decoder.MoveWellFormed` | src/instructions/move.cpp:8-60 | MOVE's constructor accepts alterable destinations only, known sources only, and no byte MOVEA |
| `Decoder.BitWellFormed` | src/instructions/bit_manip.cpp:8-41 | bit instructions have data-alterable destinations and a register or immediate source; fixed shift counts are 1 to 8 |
| `Decoder.FieldNames` | src/instructions/instruction.cpp:6-43 | mode and register fields agree on the bank: data registers for mode 0, address registers otherwise |
| `CpuInPlace.CPUState.StackPop` | src/cpu_state.cpp:10-16 | in place, agrees with the specified pop; a fault leaves SP where it was |
| `CpuInPlace.CPUState.StackPush` | src/cpu_state.cpp:18-23 | in place, agrees with the specified push; a fault leaves SP already moved |
| `CpuInPlace.CPUState.GetControlAddress` | src/cpu_state.cpp:25-102 | in place, agrees with the specified resolver, whose addresses `OperandAddresses.IndexedAddress`, `DisplacedAddress`, `AbsoluteAddress` and `IndirectAddress` state; memory is not in its frame |
| `CpuInPlace.CPUState.GetData` | src/cpu_state.cpp:104-211 | in place, agrees with the specified resolver on value, PC, An and faults; memory is not in its frame |
| `CpuInPlace.CPUState.GetDataExtended` | src/cpu_state.cpp:136-196 | the same for the modes that take extension words |
| `CpuInPlace.CPUState.GetDataSilent` | src/cpu_state.cpp:213-306 | agrees with the specified silent read and modifies nothing |
| `CpuInPlace.CPUState.SetData` | src/cpu_state.cpp:308-411 | in place, agrees with the specified write on memory, PC, An and faults |
| `CpuInPlace.CPUState.CheckCondition` | src/cpu_state.cpp:413-439 | the sixteen tests as specified, nothing modified; `Conditions.ConditionsAfterAdd`, `ConditionsAfterCompare` and `Effects.TstReads` say what each of the sixteen tests |
| `CpuInPlace.CPUState.SetXNZVC` | src/instructions/add.cpp:65-69 | five flag assignments in sequence replace the five codes at once |
| `CpuInPlace.CPUState.SetNZVC` | src/instructions/cmp.cpp:49-52 | four flag assignments in sequence keep X |
| `CpuInPlace.CPUState.SetSticky` | src/instructions/addx.cpp:53-60 | the flag assignments of ADDX and SUBX keep a clear Z clear |
| `Addressing.SilentReadsCell` | src/cpu_state.cpp:213-306 | for every alterable mode `getDataSilent` reads the one cell the operand denotes |
| `Addressing.SetDataWritesCell` | src/cpu_state.cpp:308-411 | `setData` writes that same cell and moves PC and An once, or fails with the same error |
| `Addressing.GetDataAgrees` | src/cpu_state.cpp:104-211 | for every mode `getData` moves PC and An as `setData` does, and it returns or faults as `getDataSilent` does except through absolute short with bit 15 set |
| `Addressing.FlagsKept` | src/cpu_state.cpp:104-211 | reading an operand changes no bit of SR |
| `Addressing.FlagsKeptBySet` | src/cpu_state.cpp:308-411 | writing an alterable operand changes no bit of SR |
| `Addressing.ReadModifyWrite` | src/cpu_state.cpp:213-411 | the write succeeds whenever the silent read did, goes to the cell read, and re-reading gives the data truncated to size |
| `Addressing.ShortAddress` | src/cpu_state.cpp:281-287 | the zero- and sign-extended short address name one cell if and only if bit 15 is clear |
| `Addressing.ShortStoreThenLoad` | src/cpu_state.cpp:388-395 | a load through the same short operand sees the store below 0x8000 and is unaffected by it from 0x8000 on |
| `Addressing.ControlAddressLoads` | src/cpu_state.cpp:25-197 | for every control mode `getData` is a load from the address `getControlAddress` returns, with the same PC and faults |
| `Addressing.ControlAddressStores` | src/cpu_state.cpp:308-400 | `setData` stores there too, except through absolute short with bit 15 set |
| `Addressing.LeaThenIndirect` | src/instructions/lea.cpp:23-30 | LEA ea,An and a load through (An) is the load through ea, in value, fault and PC |
| `OperandAddresses.IndexedAddress` | src/cpu_state.cpp:40-79 | for every extension word with register q, size bit, scale and byte d, (d8,An,Xn) is at An, and (d8,PC,Xn) at the address of the extension word, plus the signed long or word of register q plus the signed d; the resolvers agree and PC moves by two |
| `OperandAddresses.BriefFields` | src/cpu_state.cpp:40-56 | every word is such an extension word |
| `OperandAddresses.DisplacedAddress` | src/cpu_state.cpp:32-63 | (d16,An) is at An, and (d16,PC) at the address of the extension word, plus the signed word, in all resolvers |
| `OperandAddresses.AbsoluteAddress` | src/cpu_state.cpp:80-91 | (xxx).L is at the long that follows, (xxx).W at the word that follows, zero-extended by two resolvers and sign-extended by the other two |
| `OperandAddresses.IndirectAddress` | src/cpu_state.cpp:112-135 | (An), (An)+ and -(An): the cell at An before or after it moves by one, two or four bytes (two for a byte through A7), with An left alone on a fault |
| `OperandAddresses.ImmediateOperand` | src/cpu_state.cpp:198-205 | an immediate is the word or long that follows, a byte the low half of the word |
| `SoftwareStack.RefinesIdealStack` | src/cpu_state.cpp:117-340 | every matched mixed-size sequence of stores through -(An) and loads through (An)+ returns what an ideal last-in first-out stack returns |
| `SoftwareStack.PopReturns` | src/cpu_state.cpp:117-126 | a pop of the top item never faults, returns it at its size and moves An back past it |
| `SoftwareStack.PushKeeps` | src/cpu_state.cpp:331-340 | a push adds its item and keeps every item below it |
| `SoftwareStack.PointerRestored` | src/cpu_state.cpp:117-340 | when everything pushed has been popped An is back where it started |
| `SoftwareStack.A7StaysAligned` | src/cpu_state.cpp:117-340 | from an even A7 no mixed-size sequence, matched or not, fails alignment, and A7 stays even |
| `ExtendedArithmetic.ExecLimb` | src/instructions/addx.cpp:40-61 | one ADDX or SUBX -(Ay),-(Ax) on two limbs in memory never faults: result, pointers, X, C, sticky Z, all else kept |
| `ExtendedArithmetic.LimbBalanced` | src/instructions/addx.cpp:49-60 | result, carry out, operands and carry in balance, up to the carry a long limb loses |
| `ExtendedArithmetic.ChainRuns` | src/instructions/addx.cpp:40-61 | for every n and size a chain succeeds and does exactly what `ChainDone` says, destination range, pointers, flags and frame |
| `ExtendedArithmetic.AddChain` | src/instructions/addx.cpp:40-61 | byte or word: the destination is (src + dest + X) modulo its ceiling, X and C the carry out, Z old Z and whole result zero |
| `ExtendedArithmetic.SubChain` | src/instructions/subx.cpp:40-61 | byte or word: the n-limb difference, with X and C the borrow out |
| `ExtendedArithmetic.AddThenSub` | src/instructions/subx.cpp:40-61 | at every size, subtracting what was added, from the same X, restores every byte of memory, and the borrow is the earlier carry |
| `ExtendedArithmetic.LongChainExact` | src/instructions/addx.cpp:49-60 | a long chain balances if and only if no limb carries out |
| `ExtendedArithmetic.LongCarryIsLost` | include/helpers.hpp:143-143 | 0xFFFFFFFF + 1 at long size leaves neither sum nor carry |
| `Conditions.SumCodes` | include/helpers.hpp:112-137 | V after an addition holds exactly when the signed sum leaves its range, and N differs from V exactly when that sum is negative |
| `Conditions.ConditionsAfterAdd` | src/instructions/add.cpp:54-70 | after ADD or ADDI at every size LT, GE, GT and LE speak of the unwrapped signed sum, MI and PL of the upper half of the wrapped one, and V and VC say whether the signed sum left its range; EQ and NE test the result, C is the carry out if and only if the size is not long or nothing carries, HI, LS and CC follow, and X is C |
| `Conditions.ConditionsAfterQuick` | src/instructions/addq.cpp:45-63 | after ADDQ and SUBQ of anything but an address register, the tests of ADD and SUB of the same constant, exact scope included |
| `Conditions.DifferenceCodes` | src/instructions/cmp.cpp:46-52 | C, Z, N and V of a subtraction against the operands as unsigned and signed numbers |
| `Conditions.ConditionsAfterCompare` | src/instructions/cmp.cpp:40-53 | after CMP, CMPI and CMPA.L: equality and the sign of the wrapped difference at every size; unsigned tests right if and only if the size is not long or nothing is borrowed; V and the signed tests if and only if neither difference nor sum overflows (or the operands are equal, for GT and LE); X is kept and nothing changes but PC, the registers reading the operands moves and N, Z, V, C |
| `Conditions.ConditionsAfterSubtract` | src/instructions/sub.cpp:54-70 | the same scope, exactly, after SUB and SUBI, and X is C |
| `Departures.OverflowAfterExtend` | src/instructions/addx.cpp:57-60 | V after ADDX is right if and only if not (X set and the sum without X one short of overflow or one past it downwards); V after SUBX if and only if neither the sum nor the difference with X overflows |
| `Departures.CarryAfterExtend` | src/instructions/addx.cpp:49-60 | C after ADDX and SUBX in every mode is the carry or borrow out, X in included, if and only if the size is not long or nothing carries; X is C; Z is old Z and a zero result; N, and so MI and PL, is the sign of the result |
| `Departures.ExtendStores` | src/instructions/addx.cpp:40-61 | ADDX and SUBX leave the sum or difference with X, modulo the size, in the operand's cell and write nothing else but the codes |
| `Departures.NegTests` | src/instructions/neg.cpp:40-56 | NEG stores zero minus the operand, V is always clear, and V and the signed tests are right if and only if the operand is not the least number of its size; C and the unsigned tests as after SUB, and X is C |
| `Departures.AddressSum` | src/instructions/adda.cpp:36-46 | ADDA and SUBA keep the flags; the register becomes the full sum if and only if the size is long or the low word neither carries nor borrows, and keeps its high word at word size |
| `Departures.QuickAddress` | src/instructions/addq.cpp:45-63 | the same for ADDQ and SUBQ on an address register at every size they decode to, the low byte and the bits above it at byte size |
| `Departures.CmpaLow` | src/instructions/cmpa.cpp:36-52 | CMPA.W tests the low word as CMP.W does, with C inverted for operands from 0x8000 on, and keeps X |
| `Departures.CmpaWord` | src/instructions/cmpa.cpp:36-52 | each of the fourteen tests after CMPA.W, N and V included, is right of the whole register and the sign-extended operand on exactly one condition on the two, given for each; X and all else but N, Z, V and C are kept |
| `Departures.ExtExtends` | src/instructions/ext.cpp:18-37 | EXT of either size leaves the low byte's signed value and tests it against zero, other registers kept; EXT.L keeps the word's value if and only if it is in byte range |
| `Departures.MoveqValue` | src/instructions/moveq.cpp:17-28 | MOVEQ leaves the byte unextended and tests it, other registers kept; its signed value is kept if and only if it is below 0x80 |
| `Departures.TruncatedDivision` | src/instructions/div.cpp:34-35 | C++ quotient and remainder: exact, remainder smaller than the divisor with the dividend's sign |
| `Departures.DivResult` | src/instructions/div.cpp:24-47 | quotient q and remainder r words recombine to the 32-bit dividend, a = b*q + r, if and only if its high word only extends its low word, but for -0x8000 / -1, where 0x8000 does instead; other registers are kept |
| `Departures.BitImmediateLength` | src/instructions/bit_manip.cpp:24-30 | an immediate bit number takes one extension word if and only if the destination is not a data register |
| `Departures.ShiftKeepsAll` | src/instructions/bit_shift.cpp:77-193 | a shift leaves memory and every register but PC and SR alone, and PC just past the opcode word |
| `ShiftEffects.ShiftSets` | src/instructions/bit_shift.cpp:77-193 | the codes after every shift and rotate, by kind, direction, size, operand, count and the old C and X, in terms of multiplication, division and single-bit turns; undefined exactly on the counts the source shifts 64 bits by too much for |
| `ShiftEffects.CountOf` | src/instructions/bit_shift.cpp:83-87 | the count is the fixed one or the register modulo 64, at every size |
| `SingleShifts.ShiftAgrees` | src/instructions/bit_shift.cpp:91-117 | for AS and LS, exactly when N, Z, C and X are those of the single-bit shifts repeated count times: to the left when the last bit out is clear, to the right always but for negative values shifted arithmetically |
| `SingleShifts.ShiftOverflows` | src/instructions/bit_shift.cpp:190-192 | V is right if and only if no single-bit arithmetic shift to the left changes the sign, given by the range of the operand |
| `Decoding.TableIsMap` | src/instruction_decoder.cpp:56-169 | for all 65536 opcodes the first matching mask is the class the opcode map gives for the line, upper, opmode, mode and register fields |
| `Encoding.FieldsDecode` | src/instructions/instruction.cpp:6-43 | the mode and register fields of section 2.2 decode to the mode and register they encode |
| `Encoding.FieldsEncode` | src/instructions/instruction.cpp:6-43 | and each of the 64 pairs of fields is the encoding of what it decodes to |
| `Encoding.AssembledDecodes` | src/instruction_decoder.cpp:56-177 | the word assembled from the kind, size, mode, register, condition and constant fields of any supported instruction decodes to that instruction (shifts are in the rows below) |
| `Encoding.DecodedAssembles` | src/instruction_decoder.cpp:56-177 | every opcode that decodes to an instruction other than a shift is the word assembled from it, but for AND and OR between data registers with the direction bit set |
| `Encoding.SwappedDecodes` | src/instructions/and.cpp:8-52 | those decode as the word with the registers exchanged and the direction bit clear |
| `Encoding.MemoryShiftDecodes` | src/instructions/bit_shift.cpp:11-74 | a memory shift decodes to the kind in the last two bits of its mode field, by one, on a word, or is illegal if its operand cannot be written |
| `Encoding.RegisterShiftDecodes` | src/instructions/bit_shift.cpp:11-74 | a register shift decodes to the kind in the last two bits of its count field, by a register if bit 5 is clear and by the count field plus one if it is set |
| `Encoding.ForeignWords` | src/instruction_decoder.cpp:56-146 | the words of ABCD, SBCD, EXG and CMPM, which the table lacks, decode as AND, OR or EOR |
| `Encoding.ComplementaryConditions` | src/cpu_state.cpp:413-439 | the test of an odd condition number is the complement of the even one below it |
| `Decoding.ShiftFields` | src/instructions/bit_shift.cpp:11-74 | the instruction built from a shift opcode is the manual's if and only if it is a memory shift whose mode field ends in the bits of its kind |
| `Conditions.CompareThenBranch` | src/instructions/bcc.cpp:21-65 | a Bcc after CMP.B or CMP.W goes to its target exactly on the unsigned relation it names, and else to the next instruction |
| `Branching.BranchLands` | src/instructions/bcc.cpp:21-65 | BRA, BSR and a taken Bcc end at PC + 2 plus the signed displacement: the opcode byte, the word after it for 0, the long for 0xFF; an untaken Bcc ends after its displacement; BRA and Bcc move nothing else |
| `Branching.DisplacementIs` | src/instructions/bcc.cpp:26-41 | the displacement the source reads leads to that target, with PC past it |
| `ImmediateUndo.AddSubValue` | src/instructions/subi.cpp:45-55 | adding and subtracting one operand gives the original value and the same carry at every size |
| `ImmediateUndo.ImmediateOp` | src/instructions/addi.cpp:40-56 | an immediate operation on a side-effect-free destination changes its cell, PC and SR only |
| `ImmediateUndo.SubiUndoesAddi` | src/instructions/subi.cpp:40-56 | SUBI #v after ADDI #v on one cell restores memory and every register but PC and SR, and C repeats |
| `CallDiscipline.FreshStack` | src/cpu_state.cpp:10-23 | any state can start a run, with an empty shadow stack |
| `CallDiscipline.EventKeeps` | src/instructions/jsr.cpp:21-31 | JSR, BSR of every length, RTS, LINK (of A7 or by a positive displacement too), UNLK and any other step, within the discipline, keep memory equal to the shadow stack and the frame chain linked |
| `CallDiscipline.RunKeeps` | src/cpu_state.cpp:10-23 | so does every run of such events |
| `CallDiscipline.ReturnLands` | src/instructions/rts.cpp:12-19 | RTS on a live return address never faults and lands on it |
| `CallDiscipline.CallReturns` | src/instructions/rts.cpp:12-19 | in every run an RTS lands where the call it matches pushed, after a JSR with its extension words and after the opcode word of a BSR, with SP as before that call |
| `CallDiscipline.LinkIs` | src/instructions/link.cpp:14-32 | LINK saves An at the slot, points An there and moves SP by the signed displacement from the slot, A7 included, other registers kept |
| `CallDiscipline.LeaveRestores` | src/instructions/unlk.cpp:13-26 | UNLK of the innermost frame never faults and restores An and SP |
| `CallDiscipline.FrameRestores` | src/instructions/unlk.cpp:13-26 | in every run an UNLK restores the An its LINK saved and SP as before that LINK |
| `CallDiscipline.BsrReturnAddress` | src/instructions/bcc.cpp:50-55 | BSR pushes the address after the opcode word, the address after the instruction if and only if the form is short |
| `CallSteps.StepHappens` | src/cpu.cpp:11-19 | a step that pushes or pops a live entry is the event of the instruction its opcode decodes to; every other one is that event or respects the live stack |
| `CallSteps.StepRunKeeps` | src/cpu.cpp:11-19 | in every run of steps that keeps the discipline memory equals the shadow stack throughout |
| `CallSteps.StepsReturn` | src/cpu.cpp:11-19 | in every such run the step on an RTS lands where the call it matches pushed, SP restored |
| `CallSteps.StepsRestore` | src/cpu.cpp:11-19 | in every such run the step on an UNLK restores the An and SP its LINK found |
| `FailingInputs.CompareByteFails` | src/instructions/cmp.cpp:49-52 | a step on CMP.B of 1 with -128: LT does not hold |
| `FailingInputs.CompareLongFails` | src/instructions/cmp.cpp:49-52 | a step on CMP.L of 1 with 0: CS does not hold |
| `FailingInputs.SubtractFails` | src/instructions/sub.cpp:65-69 | a step on SUB.B of 1 from -128: neither LT nor V |
| `FailingInputs.SubtractQuickFails` | src/instructions/subq.cpp:60-64 | a step on SUBQ.B of 1 from -128: neither LT nor V |
| `FailingInputs.AddExtendLongFails` | src/instructions/addx.cpp:49-60 | a step on ADDX.L of 0xFFFFFFFF and 1: zero and no carry |
| `FailingInputs.AddExtendOverflowFails` | src/instructions/addx.cpp:59-59 | a step on ADDX.B of 127 and 0 with X set: V is clear |
| `FailingInputs.SubtractExtendOverflowFails` | src/instructions/subx.cpp:59-59 | a step on SUBX.B of 127 from -1 with X set: V is clear |
| `FailingInputs.NegFails` | src/instructions/neg.cpp:51-55 | a step on NEG.B of -128: LT holds |
| `FailingInputs.AddAddressFails` | src/instructions/adda.cpp:41-45 | a step on ADDA.W of 1 to 0xFFFF: the register is zero |
| `FailingInputs.AddQuickFails` | src/instructions/addq.cpp:50-54 | a step on ADDQ.W of 1 to the address register 0xFFFF: the register is zero |
| `FailingInputs.CompareAddressFails` | src/instructions/cmpa.cpp:41-51 | a step on CMPA.W of 1 with 0x10001: EQ holds |
| `FailingInputs.ExtendFails` | src/instructions/ext.cpp:28-29 | a step on EXT.L of the word 256 leaves 0 |
| `FailingInputs.MoveQuickFails` | src/instructions/moveq.cpp:17-28 | a step on MOVEQ of -128 leaves 128 |
| `FailingInputs.DivideFails` | src/instructions/div.cpp:29-39 | a step on DIVU of 0x10000 by 2 leaves no quotient |
| `FailingInputs.BitImmediateFails` | src/instructions/bit_manip.cpp:48-48 | a step on BTST #0,D1 moves PC by six |
| `FailingInputs.ShiftFails` | src/instructions/bit_shift.cpp:43-81 | ASL (8,A0) decodes as LSL, and the step moves PC by two |
| `FailingInputs.LeftShiftFails` | src/instructions/bit_shift.cpp:91-95 | a step on ASL.B of 0x80 by 1: the bit shifted out is set and the sign changes, C and V are clear |
| `FailingInputs.RightShiftFails` | src/instructions/bit_shift.cpp:96-104 | a step on ASR.B of -128 by 1: MI does not hold |
| `FailingInputs.DecimalAddFails` | src/instruction_decoder.cpp:56-146 | a step on ABCD D1,D0 keeps D0 and changes D1 |
| `FailingInputs.ShortAddressFails` | src/cpu_state.cpp:80-395 | a step on LEA ($8000).W loads 0x8000, and a store through the same operand goes to another byte of the bus |
| `FailingInputs.LongBsrFails` | src/instructions/bcc.cpp:50-52 | a step on BSR.W at 0 pushes 2 |
| `Effects.AluStores` | src/instructions/add.cpp:54-70 | ADD, SUB, AND, OR, EOR and their immediate forms, on every alterable destination: the operand's cell ends up with the sum or difference modulo the size, or with each bit the operation of the two bits, and no other cell changes; the tests are those of ADD or SUB, or compare the result with zero and keep X |
| `Effects.QuickStores` | src/instructions/addq.cpp:45-63 | ADDQ and SUBQ leave the sum or difference modulo the size in any alterable cell that is not an address register, no other cell changes, and the tests are those of ADD or SUB |
| `Effects.TstReads` | src/instructions/tst.cpp:35-46 | TST moves what reading its operand moves, changes nothing else but the codes, and tests the value against zero |
| `Effects.ClrStores` | src/instructions/clr.cpp:40-51 | CLR leaves zero in its operand's cell, the tests of a zero, X, and every other cell |
| `Effects.MulProduct` | src/instructions/mul.cpp:24-45 | MULS and MULU leave the full product of two words, tested against zero as a long, X, and every other register |
| `Effects.BitwiseBits` | src/instructions/and.cpp:61-61 | the bitwise operations work on each bit alone and stay inside the operands' field |
| `Effects.BitsAfter` | src/instructions/bit_manip.cpp:50-76 | BTST, BCHG, BCLR and BSET keep every bit but k and do to bit k what they are named for |
| `Effects.BitManipWrites` | src/instructions/bit_manip.cpp:43-78 | on any alterable operand exactly that bit of its cell changes and no other cell; Z is the complement of the old bit; N, V, C and X are kept |
| `Effects.ChangeTwice` | src/instructions/bit_manip.cpp:57-64 | BCHG twice restores the operand |
| `Effects.MoveCopies` | src/instructions/move.cpp:62-83 | MOVE leaves the source value in the destination's cell and changes no other; EQ, NE, MI, PL, LT, GE, GT and LE then compare it with zero, V and C are clear, X is kept |
| `Effects.MoveaExtends` | src/instructions/move.cpp:72-76 | MOVEA keeps a word's signed value in the whole register, and the condition codes |
| `Effects.LeaLoads` | src/instructions/lea.cpp:23-30 | LEA leaves the control address in An and every other register as reading the extension words did |
| `Effects.PeaPushesLea` | src/instructions/pea.cpp:22-29 | PEA pushes the address LEA loads, with the same PC |
| `Effects.JumpsToLea` | src/instructions/jsr.cpp:21-31 | JMP and JSR go to the address LEA loads |
| `Effects.BsrJumpsLikeBra` | src/instructions/bcc.cpp:43-56 | BSR goes where BRA goes, the target its bytes name |
| `Effects.SccStores` | src/instructions/scc.cpp:23-34 | Scc stores 0xFF if the condition holds, always for ST and never for SF, and 0 otherwise, in the operand's cell; SR and every other cell are kept |
| `Effects.SccFollowsBranch` | src/instructions/scc.cpp:23-34 | Scc stores 0xFF exactly when a short Bcc (BRA for ST) on the same condition in the same state goes to its target, 0 exactly when it goes to the next instruction |
| `RunSafety.ExecuteContained` | src/cpu.cpp:18-18 | every well-formed instruction: a throw leaves memory, D0-D7, SR and the inactive stack pointer alone, a return stays in its privilege bank and writes at most one window of four bytes |
| `RunSafety.StepContained` | src/cpu.cpp:11-19 | the same for a step on every opcode and state |
| `RunSafety.StepConfined` | src/cpu.cpp:11-19 | where a step ends, by return or throw, SR bits 5 and up and the inactive stack pointer are unchanged |
| `RunSafety.RunConfined` | src/cpu.cpp:11-19 | over every run of n steps the same holds, memory keeps its length and at most 4n bytes differ |
| `Disassembler.DisassembleLength` | src/disassembler.cpp:63-151 | disassembling moves PC by the static length of the instruction and changes nothing else |
| `Disassembler.ExecuteLength` | src/cpu_state.cpp:25-411 | a successful execution that does not jump moves PC by the same length, untaken Bcc included, and then the disassembler can read every extension word too |
| `Disassembler.ShiftLength` | src/instructions/bit_shift.cpp:77-193 | a shift agrees with its disassembly if and only if its operand has no extension words |
| `Disassembler.DisassembleAlike` | src/disassembler.cpp:63-151 | whether disassembly succeeds depends on PC and memory size only |
| `Disassembler.SweepFollowsRun` | src/disassembler.cpp:63-151 | a linear sweep visits the PC of every state of any straight-line run that leaves its own opcodes alone |
| `DisassemblerInPlace.EffectiveAddress` | src/disassembler.cpp:63-151 | in place, agrees with the specified advance; memory is not in its frame |
| `InstructionsInPlace.ExecuteAlu` | src/instructions/add.cpp:54-70 | in place, ADD, SUB, AND, OR, EOR and their immediate forms agree with the specification, faults at each access included |
| `InstructionsInPlace.ExecuteAluExtend` | src/instructions/addx.cpp:40-61 | in place, ADDX and SUBX agree with the specification, flags in source order |
| `InstructionsInPlace.ExecuteCompare` | src/instructions/cmp.cpp:40-53 | in place, CMP, CMPI and CMPA agree with the specification |
| `InstructionsInPlace.ExecuteAluQuick` | src/instructions/addq.cpp:45-63 | in place, ADDQ and SUBQ agree with the specification |
| `InstructionsInPlace.ExecuteAluAddress` | src/instructions/adda.cpp:36-46 | in place, ADDA and SUBA agree with the specification |
| `InstructionsInPlace.ExecuteTst` | src/instructions/tst.cpp:35-46 | in place, agrees with the specification |
| `InstructionsInPlace.ExecuteClr` | src/instructions/clr.cpp:40-51 | in place, agrees with the specification |
| `InstructionsInPlace.ExecuteNeg` | src/instructions/neg.cpp:40-56 | in place, agrees with the specification |
| `InstructionsInPlace.ExecuteMove` | src/instructions/move.cpp:62-83 | in place, MOVE and MOVEA agree with the specification |
| `InstructionsInPlace.ExecuteMoveq` | src/instructions/moveq.cpp:17-28 | in place, agrees with the specification |
| `InstructionsInPlace.ExecuteExt` | src/instructions/ext.cpp:18-37 | in place, agrees with the specification |
| `InstructionsInPlace.ExecuteMul` | src/instructions/mul.cpp:24-45 | in place, agrees with the specification |
| `InstructionsInPlace.ExecuteDiv` | src/instructions/div.cpp:24-47 | in place, agrees with the specification for a non-zero divisor |
| `InstructionsInPlace.ExecuteBitManip` | src/instructions/bit_manip.cpp:43-78 | in place, the case-by-case edit of a local result agrees with the specification |
| `InstructionsInPlace.ExecuteBitShift` | src/instructions/bit_shift.cpp:77-193 | in place, codes and PC agree with the specification for counts in range |
| `InstructionsInPlace.ExecuteLea` | src/instructions/lea.cpp:23-30 | in place, agrees with the specification |
| `InstructionsInPlace.ExecutePea` | src/instructions/pea.cpp:22-29 | in place, agrees with the specification |
| `InstructionsInPlace.ExecuteJmp` | src/instructions/jmp.cpp:21-28 | in place, agrees with the specification |
| `InstructionsInPlace.ExecuteJsr` | src/instructions/jsr.cpp:21-31 | in place, agrees with the specification |
| `InstructionsInPlace.ExecuteRts` | src/instructions/rts.cpp:12-19 | in place, agrees with the specification; PC is not moved before the pop |
| `InstructionsInPlace.ExecuteLink` | src/instructions/link.cpp:14-32 | in place, agrees with the specification |
| `InstructionsInPlace.ExecuteUnlk` | src/instructions/unlk.cpp:13-26 | in place, agrees with the specification |
| `InstructionsInPlace.ExecuteBranch` | src/instructions/bcc.cpp:21-65 | in place, BRA, BSR and Bcc agree with the specification |
| `InstructionsInPlace.ExecuteScc` | src/instructions/scc.cpp:23-34 | in place, agrees with the specification |
| `InstructionsInPlace.ExecuteIllegal` | src/instructions/illegal.cpp:7-13 | PC has moved past the opcode when the invalid-opcode exception leaves |
| `InstructionsInPlace.Execute` | src/cpu.cpp:18-18 | the virtual call agrees with the specification of every instruction |
| `Cpu.CPU.constructor` | include/cpu.hpp:8-18 | registers start at zero, memory is the given buffer, and every table entry is the reference lookup of its index |
| `Cpu.CPU.Step` | src/cpu.cpp:11-19 | in place, one step agrees with the step function; a throw leaves memory, D0-D7, SR and the inactive stack pointer alone, a return stays in its bank |

## Left out

- Loading of ELF files and its printing, `debugPrint`, the test harness and its JSON loader, aligned allocation, build files: file and console work around the interpreter.
- The text the disassembler prints; only its movement of PC is modelled, with the two operand texts of one instruction produced left to right.
- The bool-returning ROL, ROR, MASK and MASK_ABOVE dispatchers as a subject of their own: they collapse values to true or false. Where a shift uses one, the model has the collapsed value.
- The offline opcode table generator in tools/: a duplicate of the mask list.
- The union of registers, named fields and bit-fields in `Registers`, and the reference member bound in `CPUState`: registers are nineteen words with the supervisor flag at SR bit 13.
- SingleShifts.ShiftAgrees: is about AS and LS. The codes of RO and ROX are stated by `ShiftEffects.ShiftSets` as the code computes them (its own comment says they do not work), with no condition for their agreement with the manual.
- Undefined C++ is not given a meaning: division by zero and shift counts out of the range of a 64-bit shift make the outcome `Undefined`, and nothing is claimed after it. Two signed overflows, the index sum in `getControlAddress` and the promoted product in MULU, are modelled as wrap-around.
- InstructionsInPlace.ExecuteDiv: requires that the division is defined, since the source divides without a test.
- InstructionsInPlace.Execute: requires that the instruction's outcome is defined in the state at hand, for the same reason.
- Cpu.CPU.Step: requires that the step is defined, for the same reason.
- MemoryBuffer.BaseMemory.constructor: requires that a buffer which is not null has at least one byte; for an empty one the source writes out of bounds.
- Cpu.CPU.constructor: requires a non-empty memory; the source's is never null and of fixed size.
- ExtendedArithmetic.AddChain: excludes byte limbs through A7, whose pointer moves by two, and two operands through one register; V of the last limb is in `Departures.OverflowAfterExtend`.
- SoftwareStack.RefinesIdealStack: is about sequences whose pushes stay inside memory and whose stack never outgrows the bus.
