// For each departure whose exact condition is proved elsewhere, a machine state whose next step
// does something other than M68000PM/AD says.

module FailingInputs {
  import opened Helpers
  import opened Memory
  import opened Registers
  import opened CpuState
  import opened Instructions
  import opened Decoder
  import opened Machine
  import opened Addressing
  import opened Conditions
  import opened CallDiscipline
  import opened Effects
  import opened Departures
  import opened Decoding
  import opened Encoding
  import opened ShiftEffects
  import opened SingleShifts

  /** D0, D1, A0 and SR as given, A7 at 16, PC at 0, all other registers zero, and sixteen bytes of
      memory that start with an opcode and an extension word. */
  function Booted(d0: u32, d1: u32, a0: u32, sr: u32, opcode: u16, extension: u16): State {
    State([d0, d1, 0, 0, 0, 0, 0, 0, a0, 0, 0, 0, 0, 0, 0, 16, 0, 0, sr], Program(opcode, extension))
  }

  function Program(opcode: u16, extension: u16): seq<byte> {
    [opcode / 0x100, opcode % 0x100, extension / 0x100, extension % 0x100, 0, 0, 0, 0, 0, 0, 0, 0, 0, 0, 0, 0]
  }

  /** The first step executes what the opcode decodes to. */
  lemma Boots(d0: u32, d1: u32, a0: u32, sr: u32, opcode: u16, extension: u16, i: Instr)
    requires Decode(opcode) == i
    ensures var s := Booted(d0, d1, a0, sr, opcode, extension);
            && Step(s) == Execute(i, s) && Pc(s) == 0 && s.regs[0] == d0 && s.regs[1] == d1
            && Reg32(s, 8) == a0 && s.regs[SR] == sr
  {
    hide Decode, Execute, Step;
    var s := Booted(d0, d1, a0, sr, opcode, extension);
    assert MemGet(s.mem, 0, Word) == Value(opcode);
    StepRuns(s, opcode, i);
  }

  lemma ReadsRegisters(s: State, src: u32, dst: u32, z: Size)
    requires Truncate(s.regs[0], z) == src && Truncate(s.regs[1], z) == dst
    ensures GetData(Next(s), DirectData, 0, z) == Ok(src, Next(s))
            && GetData(Next(s), DirectData, 1, z) == Ok(dst, Next(s))
    ensures GetDataSilent(Next(s), DirectData, 1, z) == Value(dst)
    ensures ExtendFlag(Next(s)) == ExtendFlag(s)
  {
    hide Truncate;
  }

  // ----- comparisons and differences -----

  /** CMP.B D0,D1 with 1 against -128: LT does not hold. */
  lemma CompareByteFails()
    ensures var o := Step(Booted(1, 0x80, 0, 0, 0xB200, 0));
            o.Ok? && Signed(0x80, Byte) < Signed(1, Byte) && !CheckCondition(o.state, LessThan)
  {
    hide Decode, Step, Booted;
    AssembledDecodes(Compare(DirectData, 0, DirectData, 1, Byte, false));
    Boots(1, 0x80, 0, 0, 0xB200, 0, Compare(DirectData, 0, DirectData, 1, Byte, false));
    var s := Booted(1, 0x80, 0, 0, 0xB200, 0);
    ReadsRegisters(s, 1, 0x80, Byte);
    assert Signed(1, Byte) == 1 && Signed(0x80, Byte) == 0 - 128;
    hide GetData, SetCodes, ExtendFlag, UnsignedTests, Next;
    ConditionsAfterCompare(s, DirectData, 0, DirectData, 1, Byte, false, 1, 0x80);
    hide ExecCompare, CheckCondition;
  }

  /** CMP.L D0,D1 with 1 against 0: CS does not hold. */
  lemma CompareLongFails()
    ensures var o := Step(Booted(1, 0, 0, 0, 0xB280, 0));
            o.Ok? && !CheckCondition(o.state, CarrySet)
  {
    hide Decode, Step, Booted;
    AssembledDecodes(Compare(DirectData, 0, DirectData, 1, Long, false));
    Boots(1, 0, 0, 0, 0xB280, 0, Compare(DirectData, 0, DirectData, 1, Long, false));
    var s := Booted(1, 0, 0, 0, 0xB280, 0);
    ReadsRegisters(s, 1, 0, Long);
    hide GetData, SetCodes, ExtendFlag, SignedTests, Next;
    ConditionsAfterCompare(s, DirectData, 0, DirectData, 1, Long, false, 1, 0);
    hide ExecCompare, CheckCondition;
  }

  /** CMPA.W D0,A0 with 1 against 0x10001: EQ holds. */
  lemma CompareAddressFails()
    ensures var o := Step(Booted(1, 0, 0x1_0001, 0, 0xB0C0, 0));
            o.Ok? && CheckCondition(o.state, Equal)
  {
    hide Decode, Step, Booted;
    AssembledDecodes(Compare(DirectData, 0, DirectAddr, 8, Word, true));
    Boots(1, 0, 0x1_0001, 0, 0xB0C0, 0, Compare(DirectData, 0, DirectAddr, 8, Word, true));
    var s := Booted(1, 0, 0x1_0001, 0, 0xB0C0, 0);
    ReadsRegisters(s, 1, 0, Word);
    assert Reg32(Next(s), 8) == 0x1_0001;
    hide GetData, Reg32, ExecCompare, CheckCondition, Next;
    CompareAddressRuns(s);
  }

  lemma CompareAddressRuns(s: State)
    requires GetData(Next(s), DirectData, 0, Word) == Ok(1, Next(s)) && Reg32(Next(s), 8) == 0x1_0001
    ensures var o := ExecCompare(s, DirectData, 0, DirectAddr, 8, Word, true);
            o.Ok? && CheckCondition(o.state, Equal)
  {
    hide Next, RegGet, SetCodes;
    assert ExecCompare(s, DirectData, 0, DirectAddr, 8, Word, true).Ok?;
    hide GetData, Reg32, ExecCompare, SignedTests, SignTests, OnlyCodes;
    CmpaLow(s, DirectData, 0, 8);
    hide CheckCondition;
  }

  /** SUB.B D0,D1 with -128 less 1: LT does not hold and V is clear. */
  lemma SubtractFails()
    ensures var o := Step(Booted(1, 0x80, 0, 0, 0x9200, 0));
            o.Ok? && !CheckCondition(o.state, LessThan) && !CheckCondition(o.state, OverflowSet)
  {
    hide Decode, Step, Booted;
    AssembledDecodes(Alu(Sub, DirectData, 0, DirectData, 1, Byte));
    Boots(1, 0x80, 0, 0, 0x9200, 0, Alu(Sub, DirectData, 0, DirectData, 1, Byte));
    var s := Booted(1, 0x80, 0, 0, 0x9200, 0);
    ReadsRegisters(s, 1, 0x80, Byte);
    assert Signed(1, Byte) == 1 && Signed(0x80, Byte) == 0 - 128;
    hide Next, GetData, GetDataSilent, AluCodes, Compute, RegSet;
    assert ExecAlu(s, Sub, DirectData, 0, DirectData, 1, Byte).Ok?;
    hide ExecAlu, UnsignedTests;
    ConditionsAfterSubtract(s, DirectData, 0, DirectData, 1, Byte);
    hide CheckCondition;
  }

  /** SUBQ.B #1,D1 of -128: the same. */
  lemma SubtractQuickFails()
    ensures var o := Step(Booted(0, 0x80, 0, 0, 0x5301, 0));
            o.Ok? && !CheckCondition(o.state, LessThan) && !CheckCondition(o.state, OverflowSet)
  {
    hide Decode, Step, Booted;
    AssembledDecodes(AluQuick(Sub, 1, DirectData, 1, Byte));
    Boots(0, 0x80, 0, 0, 0x5301, 0, AluQuick(Sub, 1, DirectData, 1, Byte));
    var s := Booted(0, 0x80, 0, 0, 0x5301, 0);
    ReadsRegisters(s, 0, 0x80, Byte);
    assert Signed(1, Byte) == 1 && Signed(0x80, Byte) == 0 - 128;
    hide Next, GetDataSilent, ArithmeticCodes, Compute, RegSet;
    assert ExecAluQuick(s, Sub, 1, DirectData, 1, Byte).Ok?;
    hide ExecAluQuick, UnsignedTests;
    ConditionsAfterQuick(s, Sub, 1, DirectData, 1, Byte);
    hide CheckCondition;
  }

  /** NEG.B D1 of -128: LT holds of 128. */
  lemma NegFails()
    ensures var o := Step(Booted(0, 0x80, 0, 0, 0x4401, 0));
            o.Ok? && CheckCondition(o.state, LessThan)
  {
    hide Decode, Step, Booted;
    AssembledDecodes(Neg(DirectData, 1, Byte));
    Boots(0, 0x80, 0, 0, 0x4401, 0, Neg(DirectData, 1, Byte));
    var s := Booted(0, 0x80, 0, 0, 0x4401, 0);
    ReadsRegisters(s, 0, 0x80, Byte);
    assert RegGet(Next(s).regs, 1, Byte) == 0x80;
    hide Next, RegGet, ExecNeg, CheckCondition;
    NegRuns(s);
  }

  lemma NegRuns(s: State)
    requires RegGet(Next(s).regs, 1, Byte) == 0x80
    ensures var o := ExecNeg(s, DirectData, 1, Byte);
            o.Ok? && CheckCondition(o.state, LessThan)
  {
    assert Signed(0x80, Byte) == 0 - 128 && Signed(0, Byte) == 0;
    hide Next, ArithmeticCodes, Compute, RegSet, RegGet;
    assert ExecNeg(s, DirectData, 1, Byte).Ok? && Locus(Next(s), DirectData, 1, Byte) == Value(RegCell(1));
    assert ReadCell(Next(s), RegCell(1), Byte) == Value(0x80);
    hide GetDataSilent, ExecNeg, Locus, ReadCell, Means, UnsignedTests;
    NegTests(s, DirectData, 1, Byte);
    hide CheckCondition;
  }

  // ----- extended arithmetic -----

  /** ADDX.L D0,D1 with 0xFFFFFFFF and 1: the sum is zero and no carry is left. */
  lemma AddExtendLongFails()
    ensures var o := Step(Booted(0xFFFF_FFFF, 1, 0, 0, 0xD380, 0));
            o.Ok? && Reg32(o.state, 1) == 0 && !ExtendFlag(o.state)
  {
    hide Decode, Step, Booted;
    AssembledDecodes(AluExtend(Add, DirectData, 0, 1, Long));
    Boots(0xFFFF_FFFF, 1, 0, 0, 0xD380, 0, AluExtend(Add, DirectData, 0, 1, Long));
    var s := Booted(0xFFFF_FFFF, 1, 0, 0, 0xD380, 0);
    ReadsRegisters(s, 0xFFFF_FFFF, 1, Long);
    assert !ExtendFlag(s);
    assert Compute(Add, 0xFFFF_FFFF, 1, false) == 0;
    hide GetData, GetDataSilent, ExtendCodes, ExtendFlag, Compute, Next;
    SetLong(Next(s), 1, 0);
    var u := SetReg(Next(s), 1, Long, 0);
    ExtendFlags(u, Add, 0xFFFF_FFFF, 1, false, Long);
    AlikeReg(u, ExtendCodes(u, 0xFFFF_FFFF, 1, 0, Long), 1);
    hide SetReg, Reg32, CheckCondition, Alike;
  }

  /** ADDX.B D0,D1 with 127, 0 and X set: the sum is 128 and V is clear. */
  lemma AddExtendOverflowFails()
    ensures var s := Booted(0x7F, 0, 0, 16, 0xD300, 0);
            Step(s).Ok? && ExtendFlag(s) && !CheckCondition(Step(s).state, OverflowSet)
  {
    hide Decode, Step, Booted;
    AssembledDecodes(AluExtend(Add, DirectData, 0, 1, Byte));
    Boots(0x7F, 0, 0, 16, 0xD300, 0, AluExtend(Add, DirectData, 0, 1, Byte));
    var s := Booted(0x7F, 0, 0, 16, 0xD300, 0);
    ReadsRegisters(s, 0x7F, 0, Byte);
    assert ExtendFlag(s);
    hide GetData, GetDataSilent, ExtendFlag, Next, ExecAluExtend, CheckCondition;
    ExtendRuns(s, Add, 0x7F, 0);
  }

  /** SUBX.B D0,D1 with 127 from -1 and X set: the difference is -129 and V is clear. */
  lemma SubtractExtendOverflowFails()
    ensures var s := Booted(0x7F, 0xFF, 0, 16, 0x9300, 0);
            Step(s).Ok? && ExtendFlag(s) && !CheckCondition(Step(s).state, OverflowSet)
  {
    hide Decode, Step, Booted;
    AssembledDecodes(AluExtend(Sub, DirectData, 0, 1, Byte));
    Boots(0x7F, 0xFF, 0, 16, 0x9300, 0, AluExtend(Sub, DirectData, 0, 1, Byte));
    var s := Booted(0x7F, 0xFF, 0, 16, 0x9300, 0);
    ReadsRegisters(s, 0x7F, 0xFF, Byte);
    assert ExtendFlag(s);
    hide GetData, GetDataSilent, ExtendFlag, Next, ExecAluExtend, CheckCondition;
    ExtendRuns(s, Sub, 0x7F, 0xFF);
  }

  lemma ExtendRuns(s: State, op: AluOp, src: u32, dst: u32)
    requires GetData(Next(s), DirectData, 0, Byte) == Ok(src, Next(s))
    requires GetData(Next(s), DirectData, 1, Byte) == Ok(dst, Next(s))
    requires GetDataSilent(Next(s), DirectData, 1, Byte) == Value(dst) && ExtendFlag(Next(s)) && ExtendFlag(s)
    requires src == 0x7F && (op.Add? || op.Sub?) && dst == if op.Add? then 0 else 0xFF
    ensures var o := ExecAluExtend(s, op, DirectData, 0, 1, Byte);
            o.Ok? && !CheckCondition(o.state, OverflowSet)
  {
    assert Signed(0x7F, Byte) == 127 && Signed(0, Byte) == 0 && Signed(0xFF, Byte) == -1;
    hide GetData, GetDataSilent, ExtendCodes, ExtendFlag, Compute, Next, RegSet, Signed;
    assert ExecAluExtend(s, op, DirectData, 0, 1, Byte).Ok?;
    hide ExecAluExtend;
    OverflowAfterExtend(s, op, DirectData, 0, 1, Byte);
    hide CheckCondition;
  }

  // ----- registers -----

  /** ADDA.W D0,A0 with 1 and 0xFFFF: A0 becomes zero. */
  lemma AddAddressFails()
    ensures var o := Step(Booted(1, 0, 0xFFFF, 0, 0xD0C0, 0));
            o.Ok? && Reg32(o.state, 8) == 0
  {
    hide Decode, Step, Booted;
    AssembledDecodes(AluAddress(Add, DirectData, 0, 8, Word));
    Boots(1, 0, 0xFFFF, 0, 0xD0C0, 0, AluAddress(Add, DirectData, 0, 8, Word));
    var s := Booted(1, 0, 0xFFFF, 0, 0xD0C0, 0);
    ReadsRegisters(s, 1, 0, Word);
    assert Signed(1, Word) == 1 && Reg32(Next(s), 8) == 0xFFFF;
    hide GetData, Next, Signed, Compute, RegSet;
    assert ExecAluAddress(s, Add, DirectData, 0, 8, Word).Ok?;
    hide Reg32, ExecAluAddress;
    AddressSum(s, Add, DirectData, 0, 8, Word);
  }

  /** ADDQ.W #1,A0 of 0xFFFF: the same. */
  lemma AddQuickFails()
    ensures var o := Step(Booted(1, 0, 0xFFFF, 0, 0x5248, 0));
            o.Ok? && Reg32(o.state, 8) == 0
  {
    hide Decode, Step, Booted;
    AssembledDecodes(AluQuick(Add, 1, DirectAddr, 8, Word));
    Boots(1, 0, 0xFFFF, 0, 0x5248, 0, AluQuick(Add, 1, DirectAddr, 8, Word));
    var s := Booted(1, 0, 0xFFFF, 0, 0x5248, 0);
    hide Next, Compute, Reg32, ExecAluQuick;
    QuickRegister(s, Add, 1, 8, Word);
    QuickAddress(s, Add, 1, 8, Word);
  }

  /** EXT.L D0 of the word 256 leaves zero. */
  lemma ExtendFails()
    ensures var o := Step(Booted(0x100, 0, 0, 0, 0x48C0, 0)); o.Ok? && Signed(Reg32(o.state, 0), Long) == 0
  {
    hide Decode, Step, Booted;
    AssembledDecodes(Ext(0, Long));
    Boots(0x100, 0, 0, 0, 0x48C0, 0, Ext(0, Long));
    var s := Booted(0x100, 0, 0, 0, 0x48C0, 0);
    assert Reg32(s, 0) == 0x100 && Signed(0x100, Byte) == 0;
    hide ExecExt, Reg32, Signed, TestsAgainstZero;
    ExtExtends(s, 0, Long);
  }

  /** MOVEQ #-128,D0 leaves 128. */
  lemma MoveQuickFails()
    ensures var o := Step(Booted(0, 0, 0, 0, 0x7080, 0)); o.Ok? && Signed(Reg32(o.state, 0), Long) == 128
  {
    hide Decode, Step, Booted;
    AssembledDecodes(Moveq(0, 0x80));
    Boots(0, 0, 0, 0, 0x7080, 0, Moveq(0, 0x80));
    assert Signed(0x80, Long) == 128;
    hide ExecMoveq, Reg32, Signed, TestsAgainstZero;
    MoveqValue(Booted(0, 0, 0, 0, 0x7080, 0), 0, 0x80);
  }

  /** DIVU D0,D1 of 0x10000 by 2: no quotient is left. */
  lemma DivideFails()
    ensures var o := Step(Booted(2, 0x1_0000, 0, 0, 0x82C0, 0));
            o.Ok? && Reg32(o.state, 1) == 0
  {
    hide Decode, Step, Booted;
    AssembledDecodes(Div(false, DirectData, 0, 1));
    Boots(2, 0x1_0000, 0, 0, 0x82C0, 0, Div(false, DirectData, 0, 1));
    var s := Booted(2, 0x1_0000, 0, 0, 0x82C0, 0);
    ReadsRegisters(s, 2, 0, Word);
    assert RegGet(Next(s).regs, 1, Word) == 0;
    hide GetData, RegGet, Next, ExecDiv, Reg32;
    DivideRuns(s);
  }

  lemma DivideRuns(s: State)
    requires GetData(Next(s), DirectData, 0, Word) == Ok(2, Next(s)) && RegGet(Next(s).regs, 1, Word) == 0
    ensures var o := ExecDiv(s, false, DirectData, 0, 1);
            o.Ok? && Reg32(o.state, 1) == 0
  {
    assert Truncate(2, Word) == 2 && Divide(false, 2, 0) == 0;
    hide GetData, LogicCodes, Divide, RegGet, Next;
    SetLong(Next(s), 1, 0);
    var u := SetReg(Next(s), 1, Long, 0);
    LogicRead(u, 0, Word);
    AlikeReg(u, LogicCodes(u, 0, Word), 1);
    hide SetReg, Reg32;
  }

  // ----- lengths, addresses and return addresses -----

  lemma SecondWord(opcode: u16, extension: u16)
    ensures var s := Next(Booted(0, 0, 0, 0, opcode, extension));
            && Pc(s) == 2 && |s.mem| == 16 && Reg32(s, A7) == 16 && Reg32(s, 8) == 0
            && MemGet(s.mem, 2, Word) == Value(extension) && MemGet(s.mem, 2, Long).Value?
            && MemGet(s.mem, 8, Word) == Value(0)
  {
  }

  /** LEA ($8000).W,A0 loads 0x8000; a store through the same operand goes to 0xFFFF8000, another byte
      of the bus. */
  lemma ShortAddressFails()
    ensures var s := Booted(0, 0, 0, 0, 0x41F8, 0x8000);
            && Step(s).Ok? && Reg32(Step(s).state, 8) == 0x8000
            && Locus(Next(s), AbsWord, 8, Byte) == Value(MemCell(0xFFFF_8000))
            && 0x8000 % 0x100_0000 != 0xFFFF_8000 % 0x100_0000
  {
    hide Decode, Step, Booted;
    AssembledDecodes(Lea(AbsWord, 8, 8));
    Boots(0, 0, 0, 0, 0x41F8, 0x8000, Lea(AbsWord, 8, 8));
    var s := Booted(0, 0, 0, 0, 0x41F8, 0x8000);
    SecondWord(0x41F8, 0x8000);
    hide Next, MemGet, ExecLea, Reg32, Locus;
    LeaRuns(s);
  }

  lemma LeaRuns(s: State)
    requires Pc(Next(s)) == 2 && MemGet(Next(s).mem, 2, Word) == Value(0x8000)
    ensures var o := ExecLea(s, AbsWord, 8, 8);
            && o.Ok? && Reg32(o.state, 8) == 0x8000
            && Locus(Next(s), AbsWord, 8, Byte) == Value(MemCell(0xFFFF_8000))
  {
    hide MemGet, Next;
    assert Wrap(Signed(0x8000, Word)) == 0xFFFF_8000;
    hide Wrap, Signed;
    assert GetControlAddress(Next(s), AbsWord, 8) == Ok(0x8000, SetPc(Next(s), 4));
    SetLong(SetPc(Next(s), 4), 8, 0x8000);
    hide GetControlAddress, SetPc, SetReg, Reg32;
  }

  /** BSR.W at 0 pushes 2; the next instruction is at 4. */
  lemma LongBsrFails()
    ensures var o := Step(Booted(0, 0, 0, 0, 0x6100, 4));
            o.Ok? && MemGet(o.state.mem, Reg32(o.state, A7), Long) == Value(2)
  {
    hide Decode, Step, Booted;
    AssembledDecodes(Branch(False, 0));
    Boots(0, 0, 0, 0, 0x6100, 4, Branch(False, 0));
    var s := Booted(0, 0, 0, 0, 0x6100, 4);
    SecondWord(0x6100, 4);
    BsrRuns(s);
    hide ExecBranch, MemGet;
    BsrReturnAddress(s, 0);
  }

  lemma BsrRuns(s: State)
    requires Pc(Next(s)) == 2 && Pc(s) == 0 && |Next(s).mem| == 16 && Reg32(Next(s), A7) == 16
    requires MemGet(Next(s).mem, 2, Word) == Value(4)
    ensures ExecBranch(s, False, 0).Ok?
  {
    hide Next, ReadAt, WriteAt;
    var u := SetPc(Next(s), 4);
    assert BranchDisplacement(Next(s), 0) == Ok(4, u) by { hide Locate; }
    hide BranchDisplacement, MemGet;
    assert Reg32(u, A7) == 16 && |u.mem| == 16;
    assert Wrap(12) == 12;
    hide Wrap;
  }

  /** ASL (8,A0) at 0 decodes as LSL, and leaves PC at 2, in front of its extension word. */
  lemma ShiftFails()
    ensures Decode(0xE1E8) == BitShift(Logical, true, Fixed(1), Displacement, 8, Word)
    ensures ManualShift(0xE1E8) == BitShift(Arithmetic, true, Fixed(1), Displacement, 8, Word)
    ensures var o := Step(Booted(0, 0, 0, 0, 0xE1E8, 8));
            o.Ok? && Pc(o.state) == 2
  {
    hide Decode, Step, Booted, ManualShift, Pc, Next, MemGet, ExecBitShift, Alike;
    ArithmeticInManual();
    MemoryShiftDecodes(0, true, Logical, Displacement, 8);
    Boots(0, 0, 0, 0, 0xE1E8, 8, BitShift(Logical, true, Fixed(1), Displacement, 8, Word));
    var s := Booted(0, 0, 0, 0, 0xE1E8, 8);
    SecondWord(0xE1E8, 8);
    ShiftRuns(s);
    ShiftKeepsAll(s, Logical, true, Fixed(1), Displacement, 8, Word);
  }

  lemma ArithmeticInManual()
    ensures ManualShift(0xE1E8) == BitShift(Arithmetic, true, Fixed(1), Displacement, 8, Word)
  {
    hide BitAnd;
  }

  lemma ShiftRuns(s: State)
    requires Pc(Next(s)) == 2 && Reg32(Next(s), 8) == 0
    requires MemGet(Next(s).mem, 2, Word) == Value(8) && MemGet(Next(s).mem, 8, Word) == Value(0)
    ensures ExecBitShift(s, Logical, true, Fixed(1), Displacement, 8, Word).Ok?
  {
    hide Next, MemGet;
    assert Wrap(Signed(8, Word)) == 8;
    assert GetDataSilent(Next(s), Displacement, 8, Word) == Value(0);
    hide GetDataSilent, SetCodes, ExtendFlag, HasFlag, Shl;
  }

  lemma ByteShiftRuns(left: bool)
    ensures var w, i := if left then 0xE121 else 0xE021, BitShift(Arithmetic, left, Fixed(1), DirectData, 1, Byte);
            var o := Step(Booted(1, 0x80, 0, 0, w, 0));
            o.Ok? && ShiftTests(o.state, Arithmetic, left, Byte, 0x80, 1, false, false)
  {
    hide Decode, Step, Booted, ShiftTests, ExecBitShift;
    RegisterShiftDecodes(0, left, Byte, Arithmetic, true, 0, 1);
    var w, i := if left then 0xE121 else 0xE021, BitShift(Arithmetic, left, Fixed(1), DirectData, 1, Byte);
    assert Decode(w) == i;
    Boots(1, 0x80, 0, 0, w, 0, i);
    var s := Booted(1, 0x80, 0, 0, w, 0);
    ReadsRegisters(s, 1, 0x80, Byte);
    ShiftSets(s, Arithmetic, left, Fixed(1), DirectData, 1, Byte);
    assert !CheckCondition(s, CarrySet) && !ExtendFlag(s);
  }

  /** ASL.B D0,D1 of 0x80 by 1: the last bit out is set and the sign changes, but neither C nor V is set. */
  lemma LeftShiftFails()
    ensures var o := Step(Booted(1, 0x80, 0, 0, 0xE121, 0));
            && LastOut(true, true, 0x80, 1, 8) && SignMoves(0x80, 1, 8)
            && o.Ok? && !CheckCondition(o.state, CarrySet) && !CheckCondition(o.state, OverflowSet)
  {
    hide Step, Booted, CheckCondition, SignTests;
    ByteShiftRuns(true);
    PowModulus(Byte);
    PowHalf(8);
    assert Shifts(true, true, 0x80, 0, 8) == 0x80 && Shifts(true, true, 0x80, 1, 8) == 0;
  }

  /** ASR.B D0,D1 of -128 by 1: MI does not hold. */
  lemma RightShiftFails()
    ensures var o := Step(Booted(1, 0x80, 0, 0, 0xE021, 0));
            Shifts(true, false, 0x80, 1, 8) == 0xC0 && o.Ok? && !CheckCondition(o.state, Minus)
  {
    hide Step, Booted, CheckCondition;
    ByteShiftRuns(false);
    PowModulus(Byte);
    PowHalf(8);
    assert Shifts(true, false, 0x80, 0, 8) == 0x80;
    assert ArithmeticRight(0x80, 1, Byte) == 0x40;
  }

  /** ABCD D1,D0 of 2 and 1: D0 is kept and D1 is zero. */
  lemma DecimalAddFails()
    ensures var o := Step(Booted(1, 2, 0, 0, 0xC101, 0));
            o.Ok? && Reg32(o.state, 0) == 1 && Reg32(o.state, 1) == 0
  {
    hide Decode, Step, Booted, GetData, GetDataSilent, WithCodes, ExtendFlag, IsNegative, IsZero;
    ForeignWords(0, 1, Byte);
    Boots(1, 2, 0, 0, 0xC101, 0, Alu(And, DirectData, 0, DirectData, 1, Byte));
    var s := Booted(1, 2, 0, 0, 0xC101, 0);
    ReadsRegisters(s, 1, 2, Byte);
    NoneInCommon();
    hide BitAnd;
  }

  lemma NoneInCommon()
    ensures BitAnd(1, 2) == 0
  {
  }

  /** BTST #0,D1 at 0 leaves PC at 6: it has read a long bit number. */
  lemma BitImmediateFails()
    ensures var o := Step(Booted(0, 0, 0, 0, 0x0801, 0));
            o.Ok? && Pc(o.state) == 6
  {
    hide Decode, Step, Booted;
    AssembledDecodes(BitManip(Test, Immediate, 4, DirectData, 1));
    Boots(0, 0, 0, 0, 0x0801, 0, BitManip(Test, Immediate, 4, DirectData, 1));
    var s := Booted(0, 0, 0, 0, 0x0801, 0);
    SecondWord(0x0801, 0);
    hide Next, MemGet, ExecBitManip;
    BitTestRuns(s);
  }

  lemma BitTestRuns(s: State)
    requires Pc(Next(s)) == 2 && MemGet(Next(s).mem, 2, Long).Value?
    ensures var o := ExecBitManip(s, Test, Immediate, 4, DirectData, 1);
            o.Ok? && Pc(o.state) == 6
  {
    hide Next, MemGet;
    var a := GetData(Next(s), Immediate, 4, Long);
    assert a.Ok? && Pc(a.state) == 6;
    hide GetData;
    var v, k := RegGet(a.state.regs, 1, Long), a.value % 32;
    TestRuns(a.state, BitResult(Test, v, k), !BitAt(v, k));
    hide GetDataSilent, SetData, ZeroCode, BitAt, BitResult, RegGet;
  }

  lemma TestRuns(s: State, data: u32, on: bool)
    ensures GetDataSilent(s, DirectData, 1, Long) == Value(RegGet(s.regs, 1, Long))
    ensures SetData(s, DirectData, 1, Long, data).Ok?
            && Pc(ZeroCode(SetData(s, DirectData, 1, Long, data).state, on)) == Pc(s)
  {
    assert Pc(SetReg(s, 1, Long, data)) == Pc(s);
    hide SetReg, WithCodes, HasFlag;
  }
}
