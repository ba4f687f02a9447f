// How far the disassembler moves PC (src/disassembler.cpp and the disassembly members of
// src/instructions/*.cpp), and its agreement with execution. The text it prints is left out.

module Disassembler {
  import opened Helpers
  import opened Memory
  import opened Registers
  import opened CpuState
  import opened Instructions
  import opened Decoder
  import opened Machine
  import opened Addressing

  /** DISASSEMBLER::effectiveAddress: the fifth switch over addressing modes. */
  function EffectiveAddress(s: State, m: Mode, z: Size): Outcome<()> {
    var pc := Pc(s);
    match m
    case Displacement | Index | PcDisplacement | PcIndex | AbsWord =>
      var (_, s1) :- Load(s, pc, Word);
      Ok((), SetPc(s1, pc + 2))
    case AbsLong =>
      var (_, s1) :- Load(s, pc, Long);
      Ok((), SetPc(s1, pc + 4))
    case Immediate =>
      var y := if z == Long then Long else Word;
      var (_, s1) :- Load(s, pc, y);
      Ok((), SetPc(s1, pc + Bytes(y)))
    case _ => Ok((), s)
  }

  function TwoOperands(s: State, m: Mode, n: Mode, z: Size): Outcome<()> {
    var (_, s1) :- EffectiveAddress(Next(s), m, z);
    EffectiveAddress(s1, n, z)
  }

  function Disassemble(i: Instr, s: State): Outcome<()> {
    match i
    case Alu(_, sm, _, dm, _, z) => TwoOperands(s, sm, dm, z)
    case AluQuick(_, _, dm, _, z) => EffectiveAddress(Next(s), dm, z)
    case AluAddress(_, sm, _, _, z) => TwoOperands(s, sm, DirectAddr, z)
    case AluExtend(_, m, _, _, z) => TwoOperands(s, m, m, z)
    case Compare(sm, _, dm, _, z, _) => TwoOperands(s, sm, dm, z)
    case Tst(dm, _, z) => EffectiveAddress(Next(s), dm, z)
    case Clr(dm, _, z) => EffectiveAddress(Next(s), dm, z)
    case Neg(dm, _, z) => EffectiveAddress(Next(s), dm, z)
    case Move(sm, _, dm, _, z) => TwoOperands(s, sm, dm, z)
    case Moveq(_, _) => EffectiveAddress(Next(s), DirectData, Long)
    case Ext(_, z) => EffectiveAddress(Next(s), DirectData, z)
    case Mul(_, sm, _, _) => TwoOperands(s, sm, DirectData, Word)
    case Div(_, sm, _, _) => TwoOperands(s, sm, DirectData, Word)
    case BitManip(_, sm, _, dm, _) => TwoOperands(s, sm, dm, BitSize(dm))
    case BitShift(_, _, _, dm, _, z) => EffectiveAddress(Next(s), dm, z)
    case Lea(sm, _, _) => TwoOperands(s, sm, DirectAddr, Long)
    case Pea(sm, _) => EffectiveAddress(Next(s), sm, Long)
    case Jmp(sm, _) => EffectiveAddress(Next(s), sm, Long)
    case Jsr(sm, _) => EffectiveAddress(Next(s), sm, Long)
    case Link(_) =>
      var (_, s1) :- Load(s, Wrap(Pc(s) + 2), Word);
      Ok((), SetPc(s1, Pc(s) + 4))
    case Branch(_, d8) =>
      var (_, s1) :- BranchDisplacement(Next(s), d8);
      Ok((), s1)
    case Scc(_, dm, _) => EffectiveAddress(Next(s), dm, Byte)
    case Rts | Unlk(_) | Nop | Illegal => Ok((), Next(s))
  }

  /** The length of an instruction in bytes, from the instruction alone. */
  function Length(i: Instr): nat {
    2 + match i
        case Alu(_, sm, _, dm, _, z) => EaLength(sm, z) + EaLength(dm, z)
        case AluQuick(_, _, dm, _, z) => EaLength(dm, z)
        case AluAddress(_, sm, _, _, z) => EaLength(sm, z)
        case Compare(sm, _, dm, _, z, _) => EaLength(sm, z) + EaLength(dm, z)
        case Tst(dm, _, z) => EaLength(dm, z)
        case Clr(dm, _, z) => EaLength(dm, z)
        case Neg(dm, _, z) => EaLength(dm, z)
        case Move(sm, _, dm, _, z) => EaLength(sm, z) + EaLength(dm, z)
        case Mul(_, sm, _, _) => EaLength(sm, Word)
        case Div(_, sm, _, _) => EaLength(sm, Word)
        case BitManip(_, sm, _, dm, _) => EaLength(sm, BitSize(dm)) + EaLength(dm, BitSize(dm))
        case BitShift(_, _, _, dm, _, z) => EaLength(dm, z)
        case Lea(sm, _, _) => EaLength(sm, Long)
        case Pea(sm, _) => EaLength(sm, Long)
        case Jmp(sm, _) => EaLength(sm, Long)
        case Jsr(sm, _) => EaLength(sm, Long)
        case Link(_) => 2
        case Branch(_, d8) => if BranchSize(d8) == Byte then 0 else Bytes(BranchSize(d8))
        case Scc(_, dm, _) => EaLength(dm, Byte)
        case _ => 0
  }

  /** Instructions after which the next one in memory is executed, in this state. */
  predicate FallsThrough(i: Instr, s: State) {
    match i
    case Jmp(_, _) | Jsr(_, _) | Rts | BitShift(_, _, _, _, _, _) => false
    case Branch(cond, _) => !cond.True? && !cond.False? && !CheckCondition(s, cond)
    case _ => true
  }

  // ----- operands -----

  /** PC moved forward, nothing else touched. */
  ghost predicate Advanced(s: State, t: State, k: nat) {
    t == SetPc(s, Pc(s) + k)
  }

  lemma AdvanceTwice(s: State, t: State, u: State, k: nat, j: nat)
    requires Advanced(s, t, k) && Advanced(t, u, j)
    ensures Advanced(s, u, k + j)
  {
    WrapAgain(Pc(s) + k, j);
    assert Pc(s) + k + j == Pc(s) + (k + j);
  }

  lemma EffectiveAddressLength(s: State, m: Mode, z: Size)
    ensures !EffectiveAddress(s, m, z).Undefined?
    ensures EffectiveAddress(s, m, z).Ok? ==> Advanced(s, EffectiveAddress(s, m, z).state, EaLength(m, z))
  {
    hide MemGet;
    Remainder(0x1_0000_0000, 0, Pc(s));
  }

  /** Whether an operand's extension words can be read depends on PC and the memory size alone. */
  lemma ReadableAlike(s: State, t: State, m: Mode, z: Size)
    requires |s.mem| == |t.mem| && Pc(s) == Pc(t) && EffectiveAddress(s, m, z).Ok?
    ensures EffectiveAddress(t, m, z).Ok?
  {
    hide Locate, ReadAt;
  }

  lemma GetDataPc(s: State, m: Mode, r: OperandReg, z: Size)
    requires GetData(s, m, r, z).Ok?
    ensures var t := GetData(s, m, r, z).state;
            t.mem == s.mem && Pc(t) == Wrap(Pc(s) + EaLength(m, z)) && EffectiveAddress(s, m, z).Ok?
  {
    hide MemGet, IndexOffset, Signed, HasFlag, RegGet, Stride;
    Remainder(0x1_0000_0000, 0, Pc(s));
  }

  lemma SetDataPc(s: State, m: Mode, r: OperandReg, z: Size, data: u32)
    requires IsMemoryAlterable(m) && SetData(s, m, r, z, data).Ok?
    ensures var t := SetData(s, m, r, z, data).state;
            |t.mem| == |s.mem| && Pc(t) == Wrap(Pc(s) + EaLength(m, z)) && EffectiveAddress(s, m, z).Ok?
  {
    hide MemGet, MemSet, IndexOffset, Signed, HasFlag, Blend, Stride;
    Remainder(0x1_0000_0000, 0, Pc(s));
  }

  lemma ControlPc(s: State, m: Mode, r: OperandReg)
    requires IsControl(m) && GetControlAddress(s, m, r).Ok?
    ensures var t := GetControlAddress(s, m, r).state;
            t.mem == s.mem && Pc(t) == Wrap(Pc(s) + EaLength(m, Long)) && EffectiveAddress(s, m, Long).Ok?
  {
    hide MemGet, IndexOffset, Signed;
    Remainder(0x1_0000_0000, 0, Pc(s));
  }

  // ----- disassembly moves PC by the length -----

  lemma TwoOperandsLength(s: State, m: Mode, n: Mode, z: Size)
    ensures !TwoOperands(s, m, n, z).Undefined?
    ensures TwoOperands(s, m, n, z).Ok?
            ==> Advanced(s, TwoOperands(s, m, n, z).state, 2 + EaLength(m, z) + EaLength(n, z))
  {
    hide EffectiveAddress, EaLength;
    EffectiveAddressLength(Next(s), m, z);
    var o := EffectiveAddress(Next(s), m, z);
    if o.Ok? {
      EffectiveAddressLength(o.state, n, z);
      AdvanceTwice(s, Next(s), o.state, 2, EaLength(m, z));
      if EffectiveAddress(o.state, n, z).Ok? {
        AdvanceTwice(s, o.state, EffectiveAddress(o.state, n, z).state, 2 + EaLength(m, z), EaLength(n, z));
      }
    }
  }

  lemma OneOperandLength(s: State, m: Mode, z: Size)
    ensures !EffectiveAddress(Next(s), m, z).Undefined?
    ensures EffectiveAddress(Next(s), m, z).Ok?
            ==> Advanced(s, EffectiveAddress(Next(s), m, z).state, 2 + EaLength(m, z))
  {
    hide EffectiveAddress, EaLength;
    EffectiveAddressLength(Next(s), m, z);
    if EffectiveAddress(Next(s), m, z).Ok? {
      AdvanceTwice(s, Next(s), EffectiveAddress(Next(s), m, z).state, 2, EaLength(m, z));
    }
  }

  lemma BranchLength(s: State, d8: byte)
    ensures !BranchDisplacement(Next(s), d8).Undefined?
    ensures BranchDisplacement(Next(s), d8).Ok? ==>
              Advanced(s, BranchDisplacement(Next(s), d8).state,
                       2 + (if BranchSize(d8) == Byte then 0 else Bytes(BranchSize(d8))))
  {
    hide MemGet, Signed;
    if BranchSize(d8) != Byte {
      WrapAgain(Pc(s) + 2, Bytes(BranchSize(d8)));
    }
  }

  /** Disassembling changes PC and nothing else, by the static length. */
  lemma DisassembleLength(i: Instr, s: State)
    requires WellFormed(i)
    ensures !Disassemble(i, s).Undefined?
    ensures Disassemble(i, s).Ok? ==> Advanced(s, Disassemble(i, s).state, Length(i))
  {
    hide TwoOperands, EffectiveAddress, Advanced, Load, Wrap, BranchDisplacement, SetPc, Next, Bytes;
    hide Names, IsMemoryAlterable, IsDataAlterable, IsControl, BranchSize, BitSize;
    match i
    case Alu(_, sm, _, dm, _, z) => TwoOperandsLength(s, sm, dm, z);
    case AluAddress(_, sm, _, _, z) => TwoOperandsLength(s, sm, DirectAddr, z);
    case AluExtend(_, m, _, _, z) => ExtendLength(s, m, z);
    case Compare(sm, _, dm, _, z, _) => TwoOperandsLength(s, sm, dm, z);
    case Move(sm, _, dm, _, z) => TwoOperandsLength(s, sm, dm, z);
    case Mul(_, sm, _, _) => TwoOperandsLength(s, sm, DirectData, Word);
    case Div(_, sm, _, _) => TwoOperandsLength(s, sm, DirectData, Word);
    case BitManip(_, sm, _, dm, _) => TwoOperandsLength(s, sm, dm, BitSize(dm));
    case Lea(sm, _, _) => TwoOperandsLength(s, sm, DirectAddr, Long);
    case _ => DisassembleOneLength(i, s);
  }

  predicate HasTwoOperands(i: Instr) {
    i.Alu? || i.AluAddress? || i.AluExtend? || i.Compare? || i.Move? || i.Mul? || i.Div? || i.BitManip? || i.Lea?
  }

  lemma DisassembleOneLength(i: Instr, s: State)
    requires !HasTwoOperands(i)
    ensures !Disassemble(i, s).Undefined?
    ensures Disassemble(i, s).Ok? ==> Advanced(s, Disassemble(i, s).state, Length(i))
  {
    hide TwoOperands, EffectiveAddress, Advanced, Load, Wrap, BranchDisplacement, SetPc, Next, Bytes, BranchSize;
    hide BitSize;
    match i
    case AluQuick(_, _, dm, _, z) => OneOperandLength(s, dm, z);
    case Tst(dm, _, z) => OneOperandLength(s, dm, z);
    case Clr(dm, _, z) => OneOperandLength(s, dm, z);
    case Neg(dm, _, z) => OneOperandLength(s, dm, z);
    case Moveq(_, _) => OneOperandLength(s, DirectData, Long);
    case Ext(_, z) => OneOperandLength(s, DirectData, z);
    case BitShift(_, _, _, dm, _, z) => OneOperandLength(s, dm, z);
    case Pea(sm, _) => OneOperandLength(s, sm, Long);
    case Jmp(sm, _) => OneOperandLength(s, sm, Long);
    case Jsr(sm, _) => OneOperandLength(s, sm, Long);
    case Scc(_, dm, _) => OneOperandLength(s, dm, Byte);
    case Branch(_, d8) => BranchLength(s, d8);
    case Link(_) => LinkDisassembly(s);
    case Rts | Unlk(_) | Nop | Illegal => PlainLength(s);
  }

  lemma PlainLength(s: State)
    ensures Advanced(s, Next(s), 2)
  {
  }

  lemma LinkDisassembly(s: State)
    ensures var o := Load(s, Wrap(Pc(s) + 2), Word);
            !o.Undefined? && (o.Ok? ==> Advanced(s, SetPc(o.state, Pc(s) + 4), 4))
  {
    hide MemGet;
  }

  /** ADDX and SUBX operands have no extension words. */
  lemma ExtendLength(s: State, m: Mode, z: Size)
    ensures !TwoOperands(s, m, m, z).Undefined?
    ensures m.DirectData? || m.PreDecrement? ==> Advanced(s, TwoOperands(s, m, m, z).state, 2)
  {
    hide Advanced;
    TwoOperandsLength(s, m, m, z);
  }

  // ----- execution moves PC by the same length -----

  /** An execution that has moved PC by the length, over extension words the disassembler can read. */
  ghost predicate InStep(s: State, t: State, i: Instr) {
    Pc(t) == Wrap(Pc(s) + Length(i)) && Disassemble(i, s).Ok?
  }

  /** Both operands consumed: PC is past them, and their extension words can be read. */
  ghost predicate PairDone(s: State, t: State, m: Mode, n: Mode, z: Size) {
    TwoOperands(s, m, n, z).Ok? && Pc(t) == Wrap(Pc(s) + (2 + EaLength(m, z) + EaLength(n, z)))
  }

  /** A source operand followed by a destination operand. */
  lemma PairLength(s: State, t: State, u: State, m: Mode, n: Mode, z: Size)
    requires |t.mem| == |s.mem| && Pc(t) == Wrap(Pc(Next(s)) + EaLength(m, z))
    requires EffectiveAddress(Next(s), m, z).Ok? && EffectiveAddress(t, n, z).Ok?
    requires Pc(u) == Wrap(Pc(t) + EaLength(n, z))
    ensures PairDone(s, u, m, n, z)
  {
    hide EffectiveAddress, EaLength;
    EffectiveAddressLength(Next(s), m, z);
    ReadableAlike(t, EffectiveAddress(Next(s), m, z).state, n, z);
    WrapAgain(Pc(s) + 2, EaLength(m, z));
    WrapAgain(Pc(s) + 2 + EaLength(m, z), EaLength(n, z));
    assert Pc(s) + 2 + EaLength(m, z) + EaLength(n, z) == Pc(s) + (2 + EaLength(m, z) + EaLength(n, z));
  }

  lemma NextLength(s: State, k: nat)
    ensures Wrap(Pc(Next(s)) + k) == Wrap(Pc(s) + (2 + k))
  {
    WrapAgain(Pc(s) + 2, k);
    assert Pc(s) + 2 + k == Pc(s) + (2 + k);
  }

  lemma CodesKeepPc()
    ensures forall t: State, x: bool, n: bool, z: bool, v: bool, c: bool :: Pc(SetCodes(t, x, n, z, v, c)) == Pc(t)
    ensures forall t: State, r: OperandReg, z: Size, data: u32 :: Pc(SetReg(t, r, z, data)) == Pc(t)
  {
    hide WithCodes, Blend, HasFlag;
  }

  lemma FlagsKeepPc()
    ensures forall t: State, src: u32, dst: u32, result: u32, z: Size ::
              Pc(ArithmeticCodes(t, src, dst, result, z)) == Pc(t)
  {
    CodesKeepPc();
    hide SetCodes, Pc;
  }

  /** The modify half: a store through the destination, from a state whose source is consumed. */
  lemma StoreLength(s: State, m: Mode, n: Mode, r: OperandReg, z: Size, data: u32, t: State)
    requires IsMemoryAlterable(n) && t.mem == s.mem
    requires Pc(t) == Wrap(Pc(Next(s)) + EaLength(m, z)) && EffectiveAddress(Next(s), m, z).Ok?
    requires SetData(t, n, r, z, data).Ok?
    ensures PairDone(s, SetData(t, n, r, z, data).state, m, n, z)
  {
    hide SetData, EffectiveAddress, EaLength, Wrap, Next;
    SetDataPc(t, n, r, z, data);
    PairLength(s, t, SetData(t, n, r, z, data).state, m, n, z);
    hide PairDone;
  }

  /** Once the source is read, every store through the destination completes the length. */
  lemma SourceThenStore(s: State, sm: Mode, sr: OperandReg, dm: Mode, dr: OperandReg, z: Size)
    requires IsMemoryAlterable(dm) && GetData(Next(s), sm, sr, z).Ok?
    ensures var t := GetData(Next(s), sm, sr, z).state;
            forall data: u32 :: SetData(t, dm, dr, z, data).Ok?
              ==> PairDone(s, SetData(t, dm, dr, z, data).state, sm, dm, z)
  {
    assert Next(s).mem == s.mem;
    hide GetData, SetData, Wrap, EffectiveAddress, TwoOperands, Next, PairDone, EaLength, Pc;
    GetDataPc(Next(s), sm, sr, z);
    var t := GetData(Next(s), sm, sr, z).state;
    forall data: u32 | SetData(t, dm, dr, z, data).Ok?
      ensures PairDone(s, SetData(t, dm, dr, z, data).state, sm, dm, z)
    {
      StoreLength(s, sm, dm, dr, z, data, t);
    }
  }

  /** Condition codes come after, and leave PC. */
  lemma CodesKeepPair(s: State, m: Mode, n: Mode, z: Size)
    ensures forall t: State, x: bool, k: bool, e: bool, v: bool, c: bool ::
              PairDone(s, t, m, n, z) ==> PairDone(s, SetCodes(t, x, k, e, v, c), m, n, z)
  {
    hide TwoOperands, WithCodes, Wrap, EaLength;
  }

  lemma AluLength(s: State, op: AluOp, sm: Mode, sr: OperandReg, dm: Mode, dr: OperandReg, z: Size)
    requires IsMemoryAlterable(dm) && ExecAlu(s, op, sm, sr, dm, dr, z).Ok?
    ensures PairDone(s, ExecAlu(s, op, sm, sr, dm, dr, z).state, sm, dm, z)
  {
    SourceThenStore(s, sm, sr, dm, dr, z);
    CodesKeepPair(s, sm, dm, z);
    hide GetData, GetDataSilent, SetData, Compute, Next, SetCodes, ExtendFlag, PairDone;
  }

  lemma MoveLength(s: State, sm: Mode, sr: OperandReg, dm: Mode, dr: OperandReg, z: Size)
    requires IsMemoryAlterable(dm) && ExecMove(s, sm, sr, dm, dr, z).Ok?
    ensures PairDone(s, ExecMove(s, sm, sr, dm, dr, z).state, sm, dm, z)
  {
    SourceThenStore(s, sm, sr, dm, dr, z);
    CodesKeepPair(s, sm, dm, z);
    hide GetData, SetData, Next, SetCodes, ExtendFlag, PairDone;
  }

  lemma AluExtendLength(s: State, op: AluOp, m: Mode, sr: OperandReg, dr: OperandReg, z: Size)
    requires (m.DirectData? || m.PreDecrement?) && ExecAluExtend(s, op, m, sr, dr, z).Ok?
    ensures PairDone(s, ExecAluExtend(s, op, m, sr, dr, z).state, m, m, z)
  {
    SourceThenStore(s, m, sr, m, dr, z);
    CodesKeepPair(s, m, m, z);
    hide GetData, GetDataSilent, SetData, Compute, Next, SetCodes, HasFlag, PairDone;
  }

  lemma BitsLength(s: State, bit: BitKind, sm: Mode, sr: OperandReg, dm: Mode, dr: OperandReg)
    requires IsMemoryAlterable(dm) && ExecBitManip(s, bit, sm, sr, dm, dr).Ok?
    ensures PairDone(s, ExecBitManip(s, bit, sm, sr, dm, dr).state, sm, dm, BitSize(dm))
  {
    SourceThenStore(s, sm, sr, dm, dr, BitSize(dm));
    CodesKeepPair(s, sm, dm, BitSize(dm));
    hide GetData, GetDataSilent, SetData, BitResult, BitAt, Next, SetCodes, HasFlag, ExtendFlag, PairDone, BitSize;
  }

  lemma OneLength(s: State, m: Mode, z: Size)
    ensures EaLength(DirectAddr, z) == 0 && EaLength(DirectData, z) == 0
    ensures EffectiveAddress(Next(s), m, z).Ok?
            ==> TwoOperands(s, m, DirectAddr, z).Ok? && TwoOperands(s, m, DirectData, z).Ok?
    ensures Wrap(Pc(Next(s)) + EaLength(m, z)) == Wrap(Pc(s) + (2 + EaLength(m, z)))
  {
    hide MemGet;
    NextLength(s, EaLength(m, z));
  }

  lemma AddressLength(s: State, op: AluOp, sm: Mode, sr: OperandReg, dr: OperandReg, z: Size)
    ensures ExecAluAddress(s, op, sm, sr, dr, z).Ok? ==>
              InStep(s, ExecAluAddress(s, op, sm, sr, dr, z).state, AluAddress(op, sm, sr, dr, z))
    ensures ExecMovea(s, sm, sr, dr, z).Ok?
            ==> InStep(s, ExecMovea(s, sm, sr, dr, z).state, Move(sm, sr, DirectAddr, dr, z))
  {
    OneLength(s, sm, z);
    hide GetData, GetDataSilent, Compute, Wrap, EffectiveAddress, TwoOperands, Next, EaLength, Blend, Signed, HasFlag;
    if GetData(Next(s), sm, sr, z).Ok? {
      GetDataPc(Next(s), sm, sr, z);
    }
  }

  lemma TwoReads(s: State, sm: Mode, sr: OperandReg, dm: Mode, dr: OperandReg, z: Size)
    requires var a := GetData(Next(s), sm, sr, z); a.Ok? && GetData(a.state, dm, dr, z).Ok?
    ensures PairDone(s, GetData(GetData(Next(s), sm, sr, z).state, dm, dr, z).state, sm, dm, z)
  {
    assert Next(s).mem == s.mem;
    hide GetData, Wrap, EffectiveAddress, TwoOperands, Next, EaLength, Pc, PairDone;
    var t := GetData(Next(s), sm, sr, z).state;
    GetDataPc(Next(s), sm, sr, z);
    GetDataPc(t, dm, dr, z);
    PairLength(s, t, GetData(t, dm, dr, z).state, sm, dm, z);
  }

  lemma CompareLength(s: State, sm: Mode, sr: OperandReg, dm: Mode, dr: OperandReg, z: Size, address: bool)
    requires ExecCompare(s, sm, sr, dm, dr, z, address).Ok?
    ensures PairDone(s, ExecCompare(s, sm, sr, dm, dr, z, address).state, sm, dm, z)
  {
    hide GetData, Compute, Next, Signed, Wrap, SetCodes, ExtendFlag, PairDone;
    TwoReads(s, sm, sr, dm, dr, z);
    CodesKeepPair(s, sm, dm, z);
  }

  lemma TstLength(s: State, m: Mode, r: OperandReg, z: Size)
    requires ExecTst(s, m, r, z).Ok?
    ensures InStep(s, ExecTst(s, m, r, z).state, Tst(m, r, z))
  {
    OneLength(s, m, z);
    CodesKeepPc();
    hide GetData, Wrap, EffectiveAddress, Next, EaLength, SetCodes, Pc, ExtendFlag;
    GetDataPc(Next(s), m, r, z);
  }

  lemma OneStore(s: State, m: Mode, r: OperandReg, z: Size)
    requires IsMemoryAlterable(m)
    ensures forall data: u32 :: SetData(Next(s), m, r, z, data).Ok? ==>
              EffectiveAddress(Next(s), m, z).Ok?
                && Pc(SetData(Next(s), m, r, z, data).state) == Wrap(Pc(s) + (2 + EaLength(m, z)))
  {
    hide SetData, EffectiveAddress, EaLength, Next;
    forall data: u32 | SetData(Next(s), m, r, z, data).Ok?
      ensures EffectiveAddress(Next(s), m, z).Ok?
              && Pc(SetData(Next(s), m, r, z, data).state) == Wrap(Pc(s) + (2 + EaLength(m, z)))
    {
      SetDataPc(Next(s), m, r, z, data);
      NextLength(s, EaLength(m, z));
    }
  }

  lemma QuickLength(s: State, op: AluOp, imm: u32, m: Mode, r: OperandReg, z: Size)
    requires IsMemoryAlterable(m) && ExecAluQuick(s, op, imm, m, r, z).Ok?
    ensures InStep(s, ExecAluQuick(s, op, imm, m, r, z).state, AluQuick(op, imm, m, r, z))
  {
    hide SetData, GetDataSilent, Compute, Wrap, EffectiveAddress, Next, EaLength, ArithmeticCodes, Pc, ExtendFlag;
    hide WithCodes, SetReg;
    OneStore(s, m, r, z);
    FlagsKeepPc();
  }

  lemma NegLength(s: State, m: Mode, r: OperandReg, z: Size)
    requires IsMemoryAlterable(m) && ExecNeg(s, m, r, z).Ok?
    ensures InStep(s, ExecNeg(s, m, r, z).state, Neg(m, r, z))
  {
    hide SetData, GetDataSilent, Compute, Wrap, EffectiveAddress, Next, EaLength, ArithmeticCodes, Pc, ExtendFlag;
    hide WithCodes, SetReg;
    OneStore(s, m, r, z);
    FlagsKeepPc();
  }

  lemma ClrLength(s: State, m: Mode, r: OperandReg, z: Size)
    requires IsMemoryAlterable(m) && ExecClr(s, m, r, z).Ok?
    ensures InStep(s, ExecClr(s, m, r, z).state, Clr(m, r, z))
  {
    OneStore(s, m, r, z);
    CodesKeepPc();
    hide SetData, Wrap, EffectiveAddress, Next, EaLength, SetCodes, Pc, ExtendFlag;
  }

  lemma SccLength(s: State, cond: Condition, m: Mode, r: OperandReg)
    requires IsMemoryAlterable(m) && ExecScc(s, cond, m, r).Ok?
    ensures InStep(s, ExecScc(s, cond, m, r).state, Scc(cond, m, r))
  {
    OneStore(s, m, r, Byte);
    hide SetData, Wrap, EffectiveAddress, Next, EaLength, CheckCondition, Pc;
  }

  lemma ProductLength(s: State, signed: bool, sm: Mode, sr: OperandReg, dr: OperandReg)
    ensures ExecMul(s, signed, sm, sr, dr).Ok?
            ==> InStep(s, ExecMul(s, signed, sm, sr, dr).state, Mul(signed, sm, sr, dr))
    ensures ExecDiv(s, signed, sm, sr, dr).Ok?
            ==> InStep(s, ExecDiv(s, signed, sm, sr, dr).state, Div(signed, sm, sr, dr))
  {
    OneLength(s, sm, Word);
    CodesKeepPc();
    hide GetData, Divide, Wrap, TwoOperands, EffectiveAddress, Next, SetReg, Signed, SetCodes, Pc, RegGet, Truncate;
    hide ExtendFlag, EaLength;
    if GetData(Next(s), sm, sr, Word).Ok? {
      GetDataPc(Next(s), sm, sr, Word);
    }
  }

  lemma RegisterLength(s: State, dr: OperandReg, imm: u32, z: Size)
    ensures InStep(s, ExecMoveq(s, dr, imm).state, Moveq(dr, imm)) && InStep(s, ExecExt(s, dr, z).state, Ext(dr, z))
  {
    CodesKeepPc();
    assert Pc(Next(s)) == Wrap(Pc(s) + 2);
    hide Wrap, Next, SetReg, Signed, SetCodes, Pc, RegGet, Truncate, ExtendFlag;
  }

  lemma ControlLength(s: State, m: Mode, r: OperandReg, dr: OperandReg)
    requires IsControl(m)
    ensures ExecLea(s, m, r, dr).Ok? ==> InStep(s, ExecLea(s, m, r, dr).state, Lea(m, r, dr))
    ensures ExecPea(s, m, r).Ok? ==> InStep(s, ExecPea(s, m, r).state, Pea(m, r))
  {
    OneLength(s, m, Long);
    hide GetControlAddress, MemSet, Wrap, EffectiveAddress, TwoOperands, Next, EaLength, Blend, HasFlag;
    if GetControlAddress(Next(s), m, r).Ok? {
      ControlPc(Next(s), m, r);
    }
  }

  lemma LinkLength(s: State, r: OperandReg)
    requires ExecLink(s, r).Ok?
    ensures InStep(s, ExecLink(s, r).state, Link(r))
  {
    CodesKeepPc();
    hide MemGet, MemSet, Wrap, SetReg, Signed;
  }

  lemma UnlkLength(s: State, r: OperandReg)
    requires ExecUnlk(s, r).Ok?
    ensures InStep(s, ExecUnlk(s, r).state, Unlk(r))
  {
    CodesKeepPc();
    hide MemGet, Wrap, SetReg;
  }

  lemma NopLength(s: State)
    ensures InStep(s, Next(s), Nop)
  {
  }

  lemma UntakenLength(s: State, cond: Condition, d8: byte)
    requires FallsThrough(Branch(cond, d8), s)
    ensures ExecBranch(s, cond, d8).Ok? ==> InStep(s, ExecBranch(s, cond, d8).state, Branch(cond, d8))
  {
    hide MemGet, Signed, HasFlag;
    if BranchSize(d8) != Byte {
      NextLength(s, Bytes(BranchSize(d8)));
    }
  }

  lemma ExecuteOneLength(i: Instr, s: State)
    requires WellFormed(i) && !HasTwoOperands(i) && FallsThrough(i, s) && Execute(i, s).Ok?
    ensures InStep(s, Execute(i, s).state, i)
  {
    hide ExecAlu, ExecAluQuick, ExecAluAddress, ExecAluExtend, ExecCompare, ExecTst, ExecClr, ExecNeg;
    hide ExecMove, ExecMovea, ExecMoveq, ExecExt, ExecMul, ExecDiv, ExecBitManip, ExecScc, ExecBranch;
    hide ExecLea, ExecPea, ExecJmp, ExecJsr, ExecRts, ExecLink, ExecUnlk, Names, CheckCondition;
    hide TwoOperands, EffectiveAddress, Wrap, Pc, Next, Load, BranchDisplacement, BitSize;
    match i
    case AluQuick(op, imm, dm, dr, z) => QuickLength(s, op, imm, dm, dr, z);
    case Tst(dm, dr, z) => TstLength(s, dm, dr, z);
    case Clr(dm, dr, z) => ClrLength(s, dm, dr, z);
    case Neg(dm, dr, z) => NegLength(s, dm, dr, z);
    case Moveq(dr, imm) => RegisterLength(s, dr, imm, Long);
    case Ext(dr, z) => RegisterLength(s, dr, 0, z);
    case Pea(sm, sr) => ControlLength(s, sm, sr, 8);
    case Link(dr) => LinkLength(s, dr);
    case Unlk(dr) => UnlkLength(s, dr);
    case Branch(cond, d8) => UntakenLength(s, cond, d8);
    case Scc(cond, dm, dr) => SccLength(s, cond, dm, dr);
    case Nop => NopLength(s);
    case _ =>
  }

  /** Every successful execution that does not jump advances PC by the static length, and what it
      read as extension words the disassembler can read too. */
  lemma ExecuteLength(i: Instr, s: State)
    requires WellFormed(i) && FallsThrough(i, s) && Execute(i, s).Ok?
    ensures InStep(s, Execute(i, s).state, i)
  {
    hide ExecAlu, ExecAluQuick, ExecAluAddress, ExecAluExtend, ExecCompare, ExecTst, ExecClr, ExecNeg;
    hide ExecMove, ExecMovea, ExecMoveq, ExecExt, ExecMul, ExecDiv, ExecBitManip, ExecScc, ExecBranch;
    hide ExecLea, ExecPea, ExecJmp, ExecJsr, ExecRts, ExecLink, ExecUnlk, Names, CheckCondition;
    hide TwoOperands, EffectiveAddress, Wrap, Pc, Next, Load, BranchDisplacement, BitSize;
    match i
    case Alu(op, sm, sr, dm, dr, z) => AluLength(s, op, sm, sr, dm, dr, z);
    case AluAddress(op, sm, sr, dr, z) => AddressLength(s, op, sm, sr, dr, z);
    case AluExtend(op, m, sr, dr, z) => AluExtendLength(s, op, m, sr, dr, z);
    case Compare(sm, sr, dm, dr, z, address) => CompareLength(s, sm, sr, dm, dr, z, address);
    case Move(sm, sr, dm, dr, z) =>
      if dm.DirectAddr? {
        AddressLength(s, Add, sm, sr, dr, z);
      } else {
        MoveLength(s, sm, sr, dm, dr, z);
      }
    case Mul(signed, sm, sr, dr) => ProductLength(s, signed, sm, sr, dr);
    case Div(signed, sm, sr, dr) => ProductLength(s, signed, sm, sr, dr);
    case BitManip(bit, sm, sr, dm, dr) => BitsLength(s, bit, sm, sr, dm, dr);
    case Lea(sm, sr, dr) => ControlLength(s, sm, sr, dr);
    case _ => ExecuteOneLength(i, s);
  }

  /** A shift executes as if it were one word long: it agrees with its disassembly exactly when its
      operand has no extension words. */
  lemma ShiftLength(s: State, kind: ShiftKind, left: bool, count: Count, m: Mode, r: OperandReg, z: Size)
    requires ExecBitShift(s, kind, left, count, m, r, z).Ok?
    ensures Pc(ExecBitShift(s, kind, left, count, m, r, z).state)
            == Wrap(Pc(s) + Length(BitShift(kind, left, count, m, r, z)))
            <==> EaLength(m, z) == 0
  {
    hide GetDataSilent, ShiftUnit, WithCodes, HasFlag, RegGet;
    WrapApart(Pc(s) + 2, EaLength(m, z));
  }

  lemma WrapApart(v: int, k: nat)
    requires k <= 4
    ensures Wrap(v) == Wrap(v + k) <==> k == 0
  {
  }

  // ----- linear sweep -----

  /** Disassembling the instruction at PC. */
  function DisassembleStep(s: State): Outcome<()> {
    match MemGet(s.mem, Pc(s), Word)
    case Fault(e) => Throw(e, s)
    case Value(opcode) => Disassemble(Decode(opcode), s)
  }

  /** n instructions disassembled one after another. */
  function Sweep(s: State, n: nat): Outcome<()> {
    if n == 0 then Ok((), s)
    else
      var (_, t) :- Sweep(s, n - 1);
      DisassembleStep(t)
  }

  /** A run without jumps in which each opcode word is still what it was at the start. */
  ghost predicate StraightRun(states: seq<State>) {
    && |states| > 0
    && forall k :: 0 <= k < |states| - 1 ==> StraightStep(states[0], states[k], states[k + 1])
  }

  ghost predicate StraightStep(start: State, s: State, t: State) {
    && Step(s) == Ok((), t)
    && MemGet(s.mem, Pc(s), Word) == MemGet(start.mem, Pc(s), Word)
    && |s.mem| == |start.mem|
    && (MemGet(s.mem, Pc(s), Word).Value? ==> FallsThrough(Decode(MemGet(s.mem, Pc(s), Word).value), s))
  }

  /** Disassembling in place of executing: same memory size and PC, same success. */
  lemma DisassembleAlike(i: Instr, s: State, t: State)
    requires WellFormed(i) && |s.mem| == |t.mem| && Pc(s) == Pc(t) && Disassemble(i, s).Ok?
    ensures Disassemble(i, t).Ok?
  {
    hide Names, IsMemoryAlterable, IsDataAlterable, IsControl, BitSize, BranchSize, Signed;
    forall m: Mode, z: Size | EffectiveAddress(Next(s), m, z).Ok? ensures EffectiveAddress(Next(t), m, z).Ok? {
      ReadableAlike(Next(s), Next(t), m, z);
    }
    forall m: Mode, n: Mode, z: Size | TwoOperands(s, m, n, z).Ok? ensures TwoOperands(t, m, n, z).Ok? {
      PairAlike(s, t, m, n, z);
    }
    WordAlike(s, t, Wrap(Pc(s) + 2));
    if i.Branch? && BranchDisplacement(Next(s), i.d8).Ok? {
      BranchAlike(s, t, i.d8);
    }
    hide TwoOperands, EffectiveAddress, BranchDisplacement, Wrap, Load, Next;
  }

  lemma PairAlike(s: State, t: State, m: Mode, n: Mode, z: Size)
    requires |s.mem| == |t.mem| && Pc(s) == Pc(t) && TwoOperands(s, m, n, z).Ok?
    ensures TwoOperands(t, m, n, z).Ok?
  {
    hide EffectiveAddress, EaLength;
    ReadableAlike(Next(s), Next(t), m, z);
    EffectiveAddressLength(Next(s), m, z);
    EffectiveAddressLength(Next(t), m, z);
    ReadableAlike(EffectiveAddress(Next(s), m, z).state, EffectiveAddress(Next(t), m, z).state, n, z);
  }

  lemma WordAlike(s: State, t: State, a: u32)
    requires |s.mem| == |t.mem|
    ensures Load(s, a, Word).Ok? == Load(t, a, Word).Ok?
  {
    hide Locate, ReadAt;
  }

  lemma BranchAlike(s: State, t: State, d8: byte)
    requires |s.mem| == |t.mem| && Pc(s) == Pc(t) && BranchDisplacement(Next(s), d8).Ok?
    ensures BranchDisplacement(Next(t), d8).Ok?
  {
    hide Locate, ReadAt, Signed;
  }

  lemma SweepStep(start: State, s: State, t: State)
    requires StraightStep(start, s, t)
    ensures DisassembleStep(SetPc(start, Pc(s))) == Ok((), SetPc(start, Pc(t)))
  {
    hide Execute, Disassemble, Decode, MemGet, FallsThrough, WellFormed, Length;
    var i := Decode(MemGet(s.mem, Pc(s), Word).value);
    DecodeWellFormed(MemGet(s.mem, Pc(s), Word).value);
    ExecuteLength(i, s);
    var u := SetPc(start, Pc(s));
    Remainder(0x1_0000_0000, 0, Pc(s));
    DisassembleAlike(i, s, u);
    DisassembleLength(i, u);
    Remainder(0x1_0000_0000, 0, Pc(t));
    assert start.regs[PC := Pc(s)][PC := Pc(t)] == start.regs[PC := Pc(t)];
    assert Disassemble(i, u).value == ();
  }

  /** A linear sweep from the first instruction visits the PC of every state of a straight-line run. */
  lemma {:induction false} SweepFollowsRun(states: seq<State>, k: nat)
    requires StraightRun(states) && k < |states|
    ensures Sweep(states[0], k) == Ok((), SetPc(states[0], Pc(states[k])))
  {
    hide DisassembleStep, StraightStep;
    if k == 0 {
      SelfPc(states[0]);
    } else {
      SweepFollowsRun(states, k - 1);
      SweepStep(states[0], states[k - 1], states[k]);
    }
  }

  lemma SelfPc(s: State)
    ensures SetPc(s, Pc(s)) == s
  {
    Remainder(0x1_0000_0000, 0, Pc(s));
    assert s.regs[PC := s.regs[PC]] == s.regs;
  }
}
