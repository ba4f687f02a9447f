// The inverse of the decoder: every supported instruction assembled from the fields M68000PM/AD gives it
// (sections 2.2 and 4), and what the opcode table makes of the word
// (src/instruction_decoder.cpp, src/instructions/instruction.cpp and the constructors).

module Encoding {
  import opened Helpers
  import opened Registers
  import opened CpuState
  import opened Instructions
  import opened Decoder
  import opened Decoding

  // ----- effective address fields -----

  function ModeField(m: Mode): (f: nat)
    ensures f < 8
  {
    match m
    case DirectData => 0
    case DirectAddr => 1
    case Indirect => 2
    case PostIncrement => 3
    case PreDecrement => 4
    case Displacement => 5
    case Index => 6
    case _ => 7
  }

  function RegField(m: Mode, r: OperandReg): (f: nat)
    ensures f < 8
  {
    match m
    case AbsWord => 0
    case AbsLong => 1
    case PcDisplacement => 2
    case PcIndex => 3
    case Immediate => 4
    case _ => r % 8
  }

  /** The register a decoded operand carries: D0-D7, A0-A7, or 8 plus the number of a mode without one. */
  predicate Operand(m: Mode, r: OperandReg) {
    match m
    case DirectData => r < 8
    case AbsWord => r == 8
    case AbsLong => r == 9
    case PcDisplacement => r == 10
    case PcIndex => r == 11
    case Immediate => r == 12
    case Unknown => r >= 13
    case _ => r >= 8
  }

  /** Decoding the two fields gives the mode and register back. */
  lemma FieldsDecode(m: Mode, r: OperandReg)
    requires Operand(m, r)
    ensures GetAddressingMode(ModeField(m), RegField(m, r)) == m && GetRegisterType(ModeField(m), RegField(m, r)) == r
  {
  }

  /** Each of the 64 pairs of fields is the pair of what it decodes to. */
  lemma FieldsEncode(mode: nat, reg: nat)
    requires mode < 8 && reg < 8
    ensures var m, r := GetAddressingMode(mode, reg), GetRegisterType(mode, reg);
            Operand(m, r) && ModeField(m) == mode && RegField(m, r) == reg
  {
  }

  // ----- other fields -----

  function SizeCode(z: Size): (c: nat)
    ensures c < 3
  {
    match z case Byte => 0 case Word => 1 case Long => 2
  }

  /** The condition numbers of table 3-19. */
  function ConditionCode(cond: Condition): (c: nat)
    ensures c < 16
  {
    match cond
    case True => 0 case False => 1 case Higher => 2 case LowerSame => 3 case CarryClear => 4 case CarrySet => 5
    case NotEqual => 6 case Equal => 7 case OverflowClear => 8 case OverflowSet => 9 case Plus => 10 case Minus => 11
    case GreaterEqual => 12 case LessThan => 13 case GreaterThan => 14 case LessEqual => 15
  }

  function BitCode(bit: BitKind): (c: nat)
    ensures c < 4
  {
    match bit case Test => 0 case Change => 1 case Clear => 2 case SetBit => 3
  }

  /** The lines of ADD, SUB, AND, OR and EOR, and the register fields of their immediate forms. */
  function AluLine(op: AluOp): (c: nat)
    ensures c < 16
  {
    match op case Or => 8 case Sub => 9 case Eor => 11 case And => 12 case Add => 13
  }

  function ImmediateCode(op: AluOp): (c: nat)
    ensures c < 8
  {
    match op case Or => 0 case And => 1 case Sub => 2 case Add => 3 case Eor => 5
  }

  // ----- categories of modes -----

  /** Modes an instruction can write. */
  predicate Writable(m: Mode) {
    m.DirectData? || m.DirectAddr? || m.Indirect? || m.PostIncrement? || m.PreDecrement? || m.Displacement? || m.Index?
    || m.AbsWord? || m.AbsLong?
  }

  /** Modes that name a place in memory without moving a register. */
  predicate ControlMode(m: Mode) {
    m.Indirect? || m.Displacement? || m.Index? || m.AbsWord? || m.AbsLong? || m.PcDisplacement? || m.PcIndex?
  }

  // ----- the assembler -----

  /** An operation to a data register; without EOR, which has no such form. */
  predicate ToRegister(i: Instr)
    requires i.Alu?
  {
    i.dm.DirectData? && i.dr < 8 && Operand(i.sm, i.sr) && !i.op.Eor?
  }

  /** An operation of a data register to its destination: no register destination for ADD and SUB, whose
      words are those of ADDX and SUBX, and no data register for AND and OR, which have the other form. */
  predicate FromRegister(i: Instr)
    requires i.Alu?
  {
    && i.sm.DirectData? && i.sr < 8 && Operand(i.dm, i.dr) && Writable(i.dm)
    && (i.op.Eor? || !i.dm.DirectData?) && (i.op.Add? || i.op.Sub? ==> !i.dm.DirectAddr?)
  }

  /** An immediate operation: its source carries register 0. */
  predicate OfImmediate(i: Instr)
    requires i.Alu?
  {
    i.sm.Immediate? && i.sr == 0 && Operand(i.dm, i.dr) && Writable(i.dm)
  }

  /** CMP, not CMPI: the destination is a data register and the source an operand of the word. */
  predicate WithRegister(i: Instr)
    requires i.Compare?
  {
    i.dm.DirectData? && i.dr < 8 && Operand(i.sm, i.sr)
  }

  /** The instructions the decoder can produce, shifts aside. */
  predicate Encodable(i: Instr) {
    match i
    case Alu(_, _, _, _, _, _) => ToRegister(i) || FromRegister(i) || OfImmediate(i)
    case AluQuick(op, imm, dm, dr, _) => (op.Add? || op.Sub?) && 1 <= imm <= 8 && Operand(dm, dr) && Writable(dm)
    case AluAddress(op, sm, sr, dr, z) => (op.Add? || op.Sub?) && Operand(sm, sr) && dr >= 8 && !z.Byte?
    case AluExtend(op, m, sr, dr, _) =>
      && (op.Add? || op.Sub?)
      && ((m.DirectData? && sr < 8 && dr < 8) || (m.PreDecrement? && sr >= 8 && dr >= 8))
    case Compare(sm, sr, dm, dr, z, address) =>
      if address then Operand(sm, sr) && dm.DirectAddr? && dr >= 8 && !z.Byte?
      else WithRegister(i) || (sm.Immediate? && sr == 0 && Operand(dm, dr) && Writable(dm))
    case Tst(dm, dr, _) => Operand(dm, dr)
    case Clr(dm, dr, _) => Operand(dm, dr) && Writable(dm)
    case Neg(dm, dr, _) => Operand(dm, dr) && Writable(dm)
    case Move(sm, sr, dm, dr, z) =>
      Operand(sm, sr) && !sm.Unknown? && Operand(dm, dr) && Writable(dm) && !(dm.DirectAddr? && z.Byte?)
    case Moveq(dr, imm) => dr < 8 && imm < 0x100
    case Ext(dr, z) => dr < 8 && !z.Byte?
    case Mul(_, sm, sr, dr) => Operand(sm, sr) && dr < 8
    case Div(_, sm, sr, dr) => Operand(sm, sr) && dr < 8
    case BitManip(_, sm, sr, dm, dr) =>
      && ((sm.DirectData? && sr < 8) || (sm.Immediate? && sr == 4))
      && Operand(dm, dr) && Writable(dm) && !dm.DirectAddr?
    case BitShift(_, _, _, _, _, _) => false
    case Lea(sm, sr, dr) => Operand(sm, sr) && ControlMode(sm) && dr >= 8
    case Pea(sm, sr) => Operand(sm, sr) && ControlMode(sm)
    case Jmp(sm, sr) => Operand(sm, sr) && ControlMode(sm)
    case Jsr(sm, sr) => Operand(sm, sr) && ControlMode(sm)
    case Link(r) => r >= 8
    case Unlk(r) => r >= 8
    case Scc(_, dm, dr) => Operand(dm, dr) && Writable(dm) && !dm.DirectAddr?
    case _ => true
  }

  /** The fields of an opcode word. */
  datatype Fields = Fields(line: nat, upper: nat, opmode: nat, mode: nat, reg: nat)

  predicate Fit(f: Fields) {
    f.line < 16 && f.upper < 8 && f.opmode < 8 && f.mode < 8 && f.reg < 8
  }

  function WithEa(line: nat, upper: nat, opmode: nat, m: Mode, r: OperandReg): Fields {
    Fields(line, upper, opmode, ModeField(m), RegField(m, r))
  }

  function FieldsFor(i: Instr): (f: Fields)
    requires Encodable(i)
    ensures Fit(f)
  {
    match i
    case Alu(op, sm, sr, dm, dr, z) =>
      if ToRegister(i) then WithEa(AluLine(op), dr, SizeCode(z), sm, sr)
      else if FromRegister(i) then WithEa(AluLine(op), sr, 4 + SizeCode(z), dm, dr)
      else WithEa(0, ImmediateCode(op), SizeCode(z), dm, dr)
    case AluQuick(op, imm, dm, dr, z) => WithEa(5, imm % 8, (if op.Sub? then 4 else 0) + SizeCode(z), dm, dr)
    case AluAddress(op, sm, sr, dr, z) => WithEa(AluLine(op), dr - 8, if z.Word? then 3 else 7, sm, sr)
    case AluExtend(op, m, sr, dr, z) =>
      Fields(AluLine(op), dr % 8, 4 + SizeCode(z), if m.DirectData? then 0 else 1, sr % 8)
    case Compare(sm, sr, dm, dr, z, address) =>
      if address then WithEa(11, dr - 8, if z.Word? then 3 else 7, sm, sr)
      else if WithRegister(i) then WithEa(11, dr, SizeCode(z), sm, sr)
      else WithEa(0, 6, SizeCode(z), dm, dr)
    case Tst(dm, dr, z) => WithEa(4, 5, SizeCode(z), dm, dr)
    case Clr(dm, dr, z) => WithEa(4, 1, SizeCode(z), dm, dr)
    case Neg(dm, dr, z) => WithEa(4, 2, SizeCode(z), dm, dr)
    case Move(sm, sr, dm, dr, z) =>
      WithEa(match z case Byte => 1 case Long => 2 case Word => 3, RegField(dm, dr), ModeField(dm), sm, sr)
    case Moveq(dr, imm) => Fields(7, dr, imm / 0x40, imm / 8 % 8, imm % 8)
    case Ext(dr, z) => Fields(4, 4, if z.Word? then 2 else 3, 0, dr)
    case Mul(signed, sm, sr, dr) => WithEa(12, dr, if signed then 7 else 3, sm, sr)
    case Div(signed, sm, sr, dr) => WithEa(8, dr, if signed then 7 else 3, sm, sr)
    case BitManip(bit, sm, sr, dm, dr) => WithEa(0, sr, (if sm.DirectData? then 4 else 0) + BitCode(bit), dm, dr)
    case Lea(sm, sr, dr) => WithEa(4, dr - 8, 7, sm, sr)
    case Pea(sm, sr) => WithEa(4, 4, 1, sm, sr)
    case Jsr(sm, sr) => WithEa(4, 7, 2, sm, sr)
    case Jmp(sm, sr) => WithEa(4, 7, 3, sm, sr)
    case Rts => Fields(4, 7, 1, 6, 5)
    case Link(r) => Fields(4, 7, 1, 2, r - 8)
    case Unlk(r) => Fields(4, 7, 1, 3, r - 8)
    case Branch(cond, d8) =>
      Fields(6, ConditionCode(cond) / 2, 4 * (ConditionCode(cond) % 2) + d8 / 0x40, d8 / 8 % 8, d8 % 8)
    case Scc(cond, dm, dr) => WithEa(5, ConditionCode(cond) / 2, 4 * (ConditionCode(cond) % 2) + 3, dm, dr)
    case Nop => Fields(4, 7, 1, 6, 1)
    case Illegal => Fields(4, 5, 3, 7, 4)
  }

  /** The opcode word of an instruction. */
  function Assemble(i: Instr): u16
    requires Encodable(i)
  {
    Packed(FieldsFor(i))
  }

  function Packed(f: Fields): u16
    requires Fit(f)
  {
    Word16(f.line, f.upper, f.opmode, f.mode, f.reg)
  }

  // ----- what the table and the constructors make of it -----

  function AluKind(op: AluOp): Kind {
    match op case Or => KOr case Sub => KSub case Eor => KEor case And => KAnd case Add => KAdd
  }

  function ImmediateKind(op: AluOp): Kind {
    match op case Or => KOri case And => KAndi case Sub => KSubi case Add => KAddi case Eor => KEori
  }

  function KindFor(i: Instr): Kind
    requires Encodable(i)
  {
    match i
    case Alu(op, _, _, _, _, _) => if ToRegister(i) || FromRegister(i) then AluKind(op) else ImmediateKind(op)
    case AluQuick(op, _, _, _, _) => if op.Sub? then KSubq else KAddq
    case AluAddress(op, _, _, _, _) => if op.Sub? then KSuba else KAdda
    case AluExtend(op, _, _, _, _) => if op.Sub? then KSubx else KAddx
    case Compare(_, _, _, _, _, address) => if address then KCmpa else if WithRegister(i) then KCmp else KCmpi
    case Tst(_, _, _) => KTst
    case Clr(_, _, _) => KClr
    case Neg(_, _, _) => KNeg
    case Move(_, _, _, _, _) => KMove
    case Moveq(_, _) => KMoveq
    case Ext(_, _) => KExt
    case Mul(_, _, _, _) => KMul
    case Div(_, _, _, _) => KDiv
    case BitManip(_, _, _, _, _) => KBitManip
    case Lea(_, _, _) => KLea
    case Pea(_, _) => KPea
    case Jsr(_, _) => KJsr
    case Jmp(_, _) => KJmp
    case Rts => KRts
    case Link(_) => KLink
    case Unlk(_) => KUnlk
    case Branch(_, _) => KBcc
    case Scc(_, _, _) => KScc
    case Nop => KNop
    case Illegal => KIllegal
  }

  /** The opcode map sends the fields of an instruction to its class. */
  lemma MapFinds(i: Instr)
    requires Encodable(i)
    ensures var f := FieldsFor(i); OpcodeMap(f.line, f.upper, f.opmode, f.mode, f.reg) == Some(KindFor(i))
  {
    hide ModeField, RegField, Operand;
    if i.Alu? {
      MapFindsAlu(i);
      hide FieldsFor, KindFor, OpcodeMap;
    } else {
      hide AluKind, ImmediateKind, Writable, ControlMode;
    }
  }

  lemma MapFindsAlu(i: Instr)
    requires i.Alu? && Encodable(i)
    ensures var f := FieldsFor(i); OpcodeMap(f.line, f.upper, f.opmode, f.mode, f.reg) == Some(KindFor(i))
  {
    RegisterMode(i.dm);
    hide ModeField, RegField, Operand, MiscellaneousMap, Writable;
  }

  lemma RegisterMode(m: Mode)
    ensures ModeField(m) < 2 <==> m.DirectData? || m.DirectAddr?
  {
  }

  function SizeOf(f: nat): Option<Size> {
    match f case 0 => Some(Byte) case 1 => Some(Word) case 2 => Some(Long) case _ => None
  }

  /** What the constructors read of a word. */
  ghost predicate Reads(w: u16, f: Fields)
    requires Fit(f)
  {
    && EaMode(w) == GetAddressingMode(f.mode, f.reg) && EaReg(w) == GetRegisterType(f.mode, f.reg)
    && UpperReg(w, 0) == f.upper == UpperRegPart(w) && UpperReg(w, 1) == f.upper + 8 && UpperModePart(w) == f.opmode
    && RegPart(w) == f.reg && SizeField(w) == SizeOf(f.opmode % 4) && (Bit8(w) <==> f.opmode >= 4)
    && MoveSize(w) == SizeOfMove(f.line) && Numbers(w, f)
  }

  function SizeOfMove(line: nat): Option<Size> {
    match line % 4 case 1 => Some(Byte) case 2 => Some(Long) case 3 => Some(Word) case _ => None
  }

  ghost predicate Numbers(w: u16, f: Fields)
    requires Fit(f)
  {
    && w / 0x100 % 16 == 2 * f.upper + f.opmode / 4 && w / 0x40 % 4 == f.opmode % 4
    && w / 0x40 % 2 == f.opmode % 2 && w / 8 % 2 == f.mode % 2
    && w % 0x100 == 0x40 * (f.opmode % 4) + 8 * f.mode + f.reg
  }

  lemma PackedReads(f: Fields)
    requires Fit(f)
    ensures Reads(Packed(f), f)
    ensures Decode(Packed(f)) == Made(OpcodeMap(f.line, f.upper, f.opmode, f.mode, f.reg), Packed(f))
  {
    hide Word16, Decode, Made, OpcodeMap, GetAddressingMode;
    FieldsOf(f.line, f.upper, f.opmode, f.mode, f.reg);
    LineIsMapped(f.line, f.upper, f.opmode, f.mode, f.reg);
  }

  lemma WritableIs(m: Mode)
    ensures Writable(m) == IsMemoryAlterable(m) && (Writable(m) && !m.DirectAddr?) == IsDataAlterable(m)
    ensures ControlMode(m) == IsControl(m)
  {
  }

  /** The cases of the constructor table, one family at a time. */
  lemma CreateIs(k: Kind, w: u16)
    ensures k.KAddq? || k.KSubq? ==> Create(k, w) == CreateAluQuick(if k.KSubq? then Sub else Add, w)
    ensures k.KAddx? || k.KSubx? ==> Create(k, w) == CreateAluExtend(if k.KSubx? then Sub else Add, w)
    ensures k.KAdda? || k.KSuba? ==>
              var op := if k.KSuba? then Sub else Add;
              Create(k, w) == Some(AluAddress(op, EaMode(w), EaReg(w), UpperReg(w, 1), AddressSize(w)))
    ensures k.KMul? ==> Create(k, w) == Some(Mul(Bit8(w), EaMode(w), EaReg(w), UpperReg(w, 0)))
    ensures k.KDiv? ==> Create(k, w) == Some(Div(Bit8(w), EaMode(w), EaReg(w), UpperReg(w, 0)))
    ensures k.KTst? || k.KClr? || k.KNeg? || k.KCmpi? ==> Create(k, w) == CreateUnary(k, w)
    ensures k.KLea? || k.KPea? || k.KJmp? || k.KJsr? ==> Create(k, w) == CreateControl(k, w)
    ensures k.KCmpa? ==>
              Create(k, w) == Some(Compare(EaMode(w), EaReg(w), DirectAddr, UpperReg(w, 1), AddressSize(w), true))
    ensures k.KMove? ==> Create(k, w) == CreateMove(w)
    ensures k.KBitManip? ==> Create(k, w) == CreateBitManip(w)
  {
    hide CreateAlu, CreateAluImmediate, CreateAluQuick, CreateAluExtend, CreateUnary, CreateMove, CreateBitManip;
    hide CreateBitShift, CreateControl, EaMode, EaReg, UpperReg, AddressSize, Bit8;
  }

  lemma SizeCodes(z: Size)
    ensures SizeOf(SizeCode(z) % 4) == Some(z) && SizeOf((4 + SizeCode(z)) % 4) == Some(z)
  {
  }

  lemma AluMade(op: AluOp, w: u16)
    ensures Create(AluKind(op), w) == CreateAlu(op, w) && Create(ImmediateKind(op), w) == CreateAluImmediate(op, w)
  {
    hide CreateAlu, CreateAluImmediate;
  }

  lemma CreatesAlu(i: Instr, w: u16)
    requires i.Alu? && Encodable(i) && Reads(w, FieldsFor(i))
    ensures Create(KindFor(i), w) == Some(i)
  {
    hide Numbers, MoveSize;
    hide Create, AluKind, ImmediateKind, AluLine, ImmediateCode;
    hide EaMode, EaReg, UpperReg, UpperRegPart, UpperModePart, RegPart, SizeField, Bit8, SizeOf, SizeCode;
    hide GetAddressingMode, GetRegisterType, ModeField, RegField, Operand, Writable, ControlMode;
    hide IsMemoryAlterable, IsDataAlterable, IsControl;
    AluMade(i.op, w);
    SizeCodes(i.z);
    if ToRegister(i) {
      FieldsDecode(i.sm, i.sr);
    } else {
      FieldsDecode(i.dm, i.dr);
      WritableIs(i.dm);
    }
  }

  lemma CreatesQuick(i: Instr, w: u16)
    requires (i.AluQuick?) && Encodable(i) && Reads(w, FieldsFor(i))
    ensures Create(KindFor(i), w) == Some(i)
  {
    hide Numbers, MoveSize;
    hide Create;
    hide EaMode, EaReg, UpperReg, UpperRegPart, UpperModePart, RegPart, SizeField, Bit8;
    hide GetAddressingMode, GetRegisterType, ModeField, RegField, Operand, Writable, ControlMode;
    hide IsMemoryAlterable, IsDataAlterable, IsControl;
    hide CreateAlu, CreateAluImmediate, CreateAluExtend, CreateUnary, CreateMove, CreateBitManip;
    hide CreateBitShift, CreateControl, ConditionField, AddressSize;
    hide SizeOf, SizeCode;
    CreateIs(KindFor(i), w);
    SizeCodes(i.z);
    FieldsDecode(i.dm, i.dr);
    WritableIs(i.dm);
  }

  lemma CreatesAddress(i: Instr, w: u16)
    requires (i.AluAddress? || i.Mul? || i.Div?) && Encodable(i) && Reads(w, FieldsFor(i))
    ensures Create(KindFor(i), w) == Some(i)
  {
    hide Numbers, MoveSize;
    hide Create;
    hide EaMode, EaReg, UpperReg, UpperRegPart, UpperModePart, RegPart, SizeField, Bit8;
    hide GetAddressingMode, GetRegisterType, ModeField, RegField, Operand, Writable, ControlMode;
    hide IsMemoryAlterable, IsDataAlterable, IsControl;
    hide CreateAlu, CreateAluImmediate, CreateAluQuick, CreateAluExtend, CreateUnary, CreateMove;
    hide CreateBitManip, CreateBitShift, CreateControl, ConditionField;
    hide SizeOf;
    CreateIs(KindFor(i), w);
    FieldsDecode(i.sm, i.sr);
  }

  lemma ExtendMade(op: AluOp, w: u16, f: Fields)
    requires Fit(f) && Reads(w, f)
    ensures CreateAluExtend(op, w)
            == (match SizeOf(f.opmode % 4)
                case None => None
                case Some(z) =>
                  if f.mode % 2 == 0 then Some(AluExtend(op, DirectData, f.reg, f.upper, z))
                  else Some(AluExtend(op, PreDecrement, f.reg + 8, f.upper + 8, z)))
  {
    hide MoveSize;
    hide EaMode, EaReg, UpperReg, UpperRegPart, UpperModePart, RegPart, SizeField, Bit8, GetAddressingMode, SizeOf;
  }

  lemma CreatesExtend(i: Instr, w: u16)
    requires i.AluExtend? && Encodable(i) && Reads(w, FieldsFor(i))
    ensures Create(KindFor(i), w) == Some(i)
  {
    hide MoveSize;
    hide Create, CreateAluExtend, Reads;
    hide SizeOf, SizeCode, AluLine, CreateAluQuick, CreateUnary, CreateControl, CreateMove, CreateBitManip;
    CreateIs(KindFor(i), w);
    SizeCodes(i.z);
    ExtendMade(i.op, w, FieldsFor(i));
  }

  lemma CreatesCompare(i: Instr, w: u16)
    requires (i.Compare?) && Encodable(i) && Reads(w, FieldsFor(i))
    ensures Create(KindFor(i), w) == Some(i)
  {
    hide Numbers, MoveSize;
    hide EaMode, EaReg, UpperReg, UpperRegPart, UpperModePart, RegPart, SizeField, Bit8;
    hide GetAddressingMode, GetRegisterType, ModeField, RegField, Operand, Writable, ControlMode;
    hide IsMemoryAlterable, IsDataAlterable, IsControl;
    hide CreateAlu, CreateAluImmediate, CreateAluQuick, CreateAluExtend, CreateMove, CreateBitManip;
    hide CreateBitShift, CreateControl, ConditionField;
    hide SizeOf, SizeCode;
    SizeCodes(i.z);
    if i.address || WithRegister(i) {
      FieldsDecode(i.sm, i.sr);
    } else {
      FieldsDecode(i.dm, i.dr);
      WritableIs(i.dm);
    }
  }

  lemma CreatesUnary(i: Instr, w: u16)
    requires (i.Tst? || i.Clr? || i.Neg?) && Encodable(i) && Reads(w, FieldsFor(i))
    ensures Create(KindFor(i), w) == Some(i)
  {
    hide Numbers, MoveSize;
    hide Create;
    hide EaMode, EaReg, UpperReg, UpperRegPart, UpperModePart, RegPart, SizeField, Bit8;
    hide GetAddressingMode, GetRegisterType, ModeField, RegField, Operand, Writable, ControlMode;
    hide IsMemoryAlterable, IsDataAlterable, IsControl;
    hide CreateAlu, CreateAluImmediate, CreateAluQuick, CreateAluExtend, CreateMove, CreateBitManip;
    hide CreateBitShift, CreateControl, ConditionField, AddressSize;
    hide SizeOf, SizeCode;
    CreateIs(KindFor(i), w);
    SizeCodes(i.z);
    FieldsDecode(i.dm, i.dr);
    WritableIs(i.dm);
  }

  lemma CreatesMove(i: Instr, w: u16)
    requires (i.Move?) && Encodable(i) && Reads(w, FieldsFor(i))
    ensures Create(KindFor(i), w) == Some(i)
  {
    hide Numbers, MoveSize;
    hide Create;
    hide EaMode, EaReg, UpperReg, UpperRegPart, UpperModePart, RegPart, SizeField, Bit8;
    hide GetAddressingMode, GetRegisterType, ModeField, RegField, Operand, Writable, ControlMode;
    hide IsMemoryAlterable, IsDataAlterable, IsControl;
    hide CreateAlu, CreateAluImmediate, CreateAluQuick, CreateAluExtend, CreateUnary, CreateBitManip;
    hide CreateBitShift, CreateControl, ConditionField, AddressSize;
    hide SizeOf;
    CreateIs(KindFor(i), w);
    FieldsDecode(i.sm, i.sr);
    FieldsDecode(i.dm, i.dr);
    WritableIs(i.dm);
  }

  lemma CreatesMoveq(i: Instr, w: u16)
    requires i.Moveq? && Encodable(i) && Reads(w, FieldsFor(i))
    ensures Create(KindFor(i), w) == Some(i)
  {
    hide MoveSize;
    hide EaMode, EaReg, UpperReg, UpperRegPart, UpperModePart, RegPart, SizeField, Bit8;
    hide GetAddressingMode, ModeField, RegField, Operand, Writable, ControlMode;
    hide IsMemoryAlterable, IsDataAlterable, IsControl;
    hide CreateAlu, CreateAluImmediate, CreateAluQuick, CreateAluExtend, CreateUnary, CreateMove;
    hide CreateBitManip, CreateBitShift, CreateControl, ConditionField, AddressSize;
    ByteParts(i.imm);
    assert i.imm / 0x40 % 4 == i.imm / 0x40;
  }

  lemma CreatesPlain(i: Instr, w: u16)
    requires (i.Ext? || i.Rts? || i.Nop? || i.Illegal? || i.Link? || i.Unlk?) && Encodable(i) && Reads(w, FieldsFor(i))
    ensures Create(KindFor(i), w) == Some(i)
  {
    hide MoveSize;
    hide EaMode, EaReg, UpperReg, UpperRegPart, UpperModePart, RegPart, SizeField, Bit8;
    hide GetAddressingMode, ModeField, RegField, Operand, Writable, ControlMode;
    hide IsMemoryAlterable, IsDataAlterable, IsControl;
    hide CreateAlu, CreateAluImmediate, CreateAluQuick, CreateAluExtend, CreateUnary, CreateMove;
    hide CreateBitManip, CreateBitShift, CreateControl, ConditionField, AddressSize;
  }

  lemma CreatesBit(i: Instr, w: u16)
    requires (i.BitManip?) && Encodable(i) && Reads(w, FieldsFor(i))
    ensures Create(KindFor(i), w) == Some(i)
  {
    hide MoveSize;
    hide Create;
    hide EaMode, EaReg, UpperReg, UpperRegPart, UpperModePart, RegPart, SizeField, Bit8;
    hide GetAddressingMode, GetRegisterType, ModeField, RegField, Operand, Writable, ControlMode;
    hide IsMemoryAlterable, IsDataAlterable, IsControl;
    hide CreateAlu, CreateAluImmediate, CreateAluQuick, CreateAluExtend, CreateUnary, CreateMove;
    hide CreateBitShift, CreateControl, ConditionField, AddressSize;
    hide SizeOf;
    CreateIs(KindFor(i), w);
    FieldsDecode(i.dm, i.dr);
    assert (FieldsFor(i).opmode % 4 == BitCode(i.bit)) && (FieldsFor(i).opmode >= 4 <==> i.sm.DirectData?);
    WritableIs(i.dm);
  }

  lemma CreatesControl(i: Instr, w: u16)
    requires (i.Lea? || i.Pea? || i.Jmp? || i.Jsr?) && Encodable(i) && Reads(w, FieldsFor(i))
    ensures Create(KindFor(i), w) == Some(i)
  {
    hide Numbers, MoveSize;
    hide Create;
    hide EaMode, EaReg, UpperReg, UpperRegPart, UpperModePart, RegPart, SizeField, Bit8;
    hide GetAddressingMode, GetRegisterType, ModeField, RegField, Operand, Writable, ControlMode;
    hide IsMemoryAlterable, IsDataAlterable, IsControl;
    hide CreateAlu, CreateAluImmediate, CreateAluQuick, CreateAluExtend, CreateUnary, CreateMove;
    hide CreateBitManip, CreateBitShift, ConditionField, AddressSize;
    hide SizeOf;
    CreateIs(KindFor(i), w);
    FieldsDecode(i.sm, i.sr);
    WritableIs(i.sm);
  }

  lemma ConditionDecodes(cond: Condition, w: u16)
    requires w / 0x100 % 16 == ConditionCode(cond)
    ensures ConditionField(w) == cond
  {
  }

  lemma ConditionParts(cond: Condition, low: nat)
    requires low < 4
    ensures var c := ConditionCode(cond);
            2 * (c / 2) + (4 * (c % 2) + low) / 4 == c && (4 * (c % 2) + low) % 4 == low
  {
  }

  lemma CreatesBranch(i: Instr, w: u16)
    requires i.Branch? && Encodable(i) && Reads(w, FieldsFor(i))
    ensures Create(KindFor(i), w) == Some(i)
  {
    hide Create, Reads, ConditionCode, ConditionField;
    BranchMade(w, FieldsFor(i));
    ConditionParts(i.cond, i.d8 / 0x40);
    ByteParts(i.d8);
    SameCode(ConditionField(w), i.cond);
  }

  lemma SameCode(a: Condition, b: Condition)
    requires ConditionCode(a) == ConditionCode(b)
    ensures a == b
  {
  }

  lemma ByteParts(v: nat)
    requires v < 0x100
    ensures v == 0x40 * (v / 0x40) + 8 * (v / 8 % 8) + v % 8
  {
    assert v / 8 == 8 * (v / 0x40) + v / 8 % 8;
  }

  lemma CreatesScc(i: Instr, w: u16)
    requires i.Scc? && Encodable(i) && Reads(w, FieldsFor(i))
    ensures Create(KindFor(i), w) == Some(i)
  {
    hide MoveSize;
    hide ConditionCode;
    hide EaMode, EaReg, UpperReg, UpperRegPart, UpperModePart, RegPart, SizeField, Bit8;
    hide GetAddressingMode, GetRegisterType, ModeField, RegField, Operand, Writable, ControlMode;
    hide IsMemoryAlterable, IsDataAlterable, IsControl;
    hide CreateAlu, CreateAluImmediate, CreateAluQuick, CreateAluExtend, CreateUnary, CreateMove;
    hide CreateBitManip, CreateBitShift, CreateControl, ConditionField, AddressSize;
    ConditionParts(i.cond, 3);
    ConditionDecodes(i.cond, w);
    FieldsDecode(i.dm, i.dr);
    WritableIs(i.dm);
  }

  lemma Creates(i: Instr, w: u16)
    requires Encodable(i) && Reads(w, FieldsFor(i))
    ensures Create(KindFor(i), w) == Some(i)
  {
    hide Create, Reads, KindFor, FieldsFor;
    match i
    case Alu(_, _, _, _, _, _) => CreatesAlu(i, w);
    case AluQuick(_, _, _, _, _) => CreatesQuick(i, w);
    case AluAddress(_, _, _, _, _) => CreatesAddress(i, w);
    case AluExtend(_, _, _, _, _) => CreatesExtend(i, w);
    case Compare(_, _, _, _, _, _) => CreatesCompare(i, w);
    case Tst(_, _, _) => CreatesUnary(i, w);
    case Clr(_, _, _) => CreatesUnary(i, w);
    case Neg(_, _, _) => CreatesUnary(i, w);
    case Move(_, _, _, _, _) => CreatesMove(i, w);
    case Moveq(_, _) => CreatesMoveq(i, w);
    case Mul(_, _, _, _) => CreatesAddress(i, w);
    case Div(_, _, _, _) => CreatesAddress(i, w);
    case BitManip(_, _, _, _, _) => CreatesBit(i, w);
    case Lea(_, _, _) => CreatesControl(i, w);
    case Pea(_, _) => CreatesControl(i, w);
    case Jmp(_, _) => CreatesControl(i, w);
    case Jsr(_, _) => CreatesControl(i, w);
    case Branch(_, _) => CreatesBranch(i, w);
    case Scc(_, _, _) => CreatesScc(i, w);
    case _ => CreatesPlain(i, w);
  }

  /** Every supported instruction but the shifts decodes from its opcode word. */
  lemma AssembledDecodes(i: Instr)
    requires Encodable(i)
    ensures Decode(Assemble(i)) == i
  {
    hide Decode, Create, Reads, KindFor, FieldsFor, Packed, OpcodeMap, Encodable;
    PackedReads(FieldsFor(i));
    MapFinds(i);
    Creates(i, Assemble(i));
  }

  // ----- and the other way round -----

  /** Words of AND and OR with the register form of their destination: they mean what the word with the
      two registers exchanged and the direction bit clear means. */
  predicate Swapped(f: Fields) {
    (f.line == 8 || f.line == 12) && 4 <= f.opmode < 7 && f.mode == 0
  }

  /** If the class k makes an instruction of w, it is one whose fields are f. */
  ghost predicate Rebuilt(w: u16, f: Fields, k: Kind)
    requires Fit(f)
  {
    Create(k, w).Some? ==> Encodable(Create(k, w).value) && FieldsFor(Create(k, w).value) == f
  }

  lemma SizeBack(f: nat)
    requires f < 8
    ensures SizeOf(f % 4) == None <==> f % 4 == 3
    ensures f % 4 != 3 ==> SizeCode(SizeOf(f % 4).value) == f % 4
  {
  }

  lemma RebuildsAlu(w: u16, f: Fields, op: AluOp)
    requires Fit(f) && Reads(w, f) && f.line == AluLine(op) && f.opmode % 4 != 3 && !Swapped(f)
    requires op.Add? || op.Sub? ==> f.opmode < 4 || f.mode >= 2
    ensures Rebuilt(w, f, AluKind(op))
  {
    hide Numbers, MoveSize;
    hide EaMode, EaReg, UpperReg, UpperRegPart, UpperModePart, RegPart, SizeField, Bit8, GetAddressingMode;
    hide GetRegisterType, ModeField, RegField, Operand, Writable, ControlMode, IsMemoryAlterable;
    hide IsDataAlterable, IsControl, SizeOf, SizeCode, Create, AluKind, CreateAluImmediate, CreateAluQuick;
    hide CreateAluExtend, CreateUnary, CreateMove, CreateBitManip, CreateBitShift, CreateControl, ConditionField;
    hide AddressSize;
    FieldsEncode(f.mode, f.reg);
    WritableIs(GetAddressingMode(f.mode, f.reg));
    SizeBack(f.opmode);
    RegisterMode(GetAddressingMode(f.mode, f.reg));
    AluMade(op, w);
    DataMode(f.mode, f.reg);
  }

  lemma RebuildsImmediate(w: u16, f: Fields, op: AluOp)
    requires Fit(f) && Reads(w, f) && f.line == 0 && f.opmode < 4 && f.upper == ImmediateCode(op)
    ensures Rebuilt(w, f, ImmediateKind(op))
  {
    hide Numbers, MoveSize;
    hide Create, Reads, GetAddressingMode, GetRegisterType, ModeField, RegField, Operand, Writable, IsMemoryAlterable;
    hide ImmediateKind;
    NotOperand();
    FieldsEncode(f.mode, f.reg);
    WritableIs(GetAddressingMode(f.mode, f.reg));
    SizeBack(f.opmode);
    AluMade(op, w);
    assert f.opmode % 4 == f.opmode;
    if f.opmode == 3 {
      NoSize(w, f);
    } else {
      QuickMade(op, w, f);
      hide CreateAluQuick, CreateAluImmediate, SizeOf, SizeCode;
    }
  }

  lemma QuickMade(op: AluOp, w: u16, f: Fields)
    requires Fit(f) && Reads(w, f) && f.opmode % 4 != 3
    ensures var m, r := GetAddressingMode(f.mode, f.reg), GetRegisterType(f.mode, f.reg);
            var z := SizeOf(f.opmode % 4).value;
            if IsMemoryAlterable(m) then
              && CreateAluQuick(op, w) == Some(AluQuick(op, if f.upper == 0 then 8 else f.upper, m, r, z))
              && CreateAluImmediate(op, w) == Some(Alu(op, Immediate, 0, m, r, z))
            else CreateAluQuick(op, w) == None && CreateAluImmediate(op, w) == None
  {
    hide Numbers, MoveSize;
    SizeBack(f.opmode);
    hide EaMode, EaReg, UpperReg, UpperRegPart, UpperModePart, RegPart, SizeField, Bit8, GetAddressingMode, SizeOf;
    hide GetRegisterType, IsMemoryAlterable;
  }

  lemma RebuildsQuick(w: u16, f: Fields)
    requires Fit(f) && Reads(w, f) && f.line == 5 && f.opmode % 4 != 3
    ensures Rebuilt(w, f, if f.opmode >= 4 then KSubq else KAddq)
  {
    hide Numbers, MoveSize;
    hide Create, Reads, GetAddressingMode, GetRegisterType, ModeField, RegField, Operand, Writable, IsMemoryAlterable;
    FieldsEncode(f.mode, f.reg);
    WritableIs(GetAddressingMode(f.mode, f.reg));
    SizeBack(f.opmode);
    CreateIs(if f.opmode >= 4 then KSubq else KAddq, w);
    QuickMade(if f.opmode >= 4 then Sub else Add, w, f);
    hide CreateAluQuick, CreateAluImmediate, SizeOf, SizeCode;
  }

  lemma RebuildsAddress(w: u16, f: Fields, k: Kind)
    requires Fit(f) && Reads(w, f) && f.opmode % 4 == 3
    requires (k.KAdda? && f.line == 13) || (k.KSuba? && f.line == 9)
             || (k.KMul? && f.line == 12) || (k.KDiv? && f.line == 8)
    ensures Rebuilt(w, f, k)
  {
    hide Numbers, MoveSize;
    hide EaMode, EaReg, UpperReg, UpperRegPart, UpperModePart, RegPart, SizeField, Bit8, GetAddressingMode;
    hide GetRegisterType, ModeField, RegField, Operand, Writable, ControlMode, IsMemoryAlterable;
    hide IsDataAlterable, IsControl, Create, CreateAlu, CreateAluImmediate, CreateAluQuick, CreateAluExtend;
    hide CreateUnary, CreateMove, CreateBitManip, CreateBitShift, CreateControl, ConditionField;
    CreateIs(k, w);
    FieldsEncode(f.mode, f.reg);
  }

  lemma RebuildsExtend(w: u16, f: Fields, k: Kind)
    requires Fit(f) && Reads(w, f) && f.opmode % 4 != 3 && f.opmode >= 4 && f.mode < 2
    requires (k.KAddx? && f.line == 13) || (k.KSubx? && f.line == 9)
    ensures Rebuilt(w, f, k)
  {
    hide MoveSize;
    hide Create, CreateAluExtend, Reads;
    hide SizeOf, SizeCode, CreateAluQuick, CreateUnary, CreateControl, CreateMove, CreateBitManip;
    CreateIs(k, w);
    SizeBack(f.opmode);
    ExtendMade(if k.KSubx? then Sub else Add, w, f);
  }

  lemma CompareMade(w: u16, f: Fields)
    requires Fit(f) && Reads(w, f)
    ensures var m, r := GetAddressingMode(f.mode, f.reg), GetRegisterType(f.mode, f.reg);
            && (f.opmode % 4 != 3 ==>
                  Create(KCmp, w) == Some(Compare(m, r, DirectData, f.upper, SizeOf(f.opmode % 4).value, false)))
            && Create(KCmpa, w)
               == Some(Compare(m, r, DirectAddr, f.upper + 8, if f.opmode >= 4 then Long else Word, true))
  {
    SizeBack(f.opmode);
    hide EaMode, EaReg, UpperReg, UpperRegPart, UpperModePart, RegPart, SizeField, Bit8, GetAddressingMode, SizeOf;
    hide GetRegisterType, Numbers, MoveSize;
  }

  lemma RebuildsCompare(w: u16, f: Fields, k: Kind)
    requires Fit(f) && Reads(w, f) && f.line == 11
    requires (k.KCmp? && f.opmode < 3) || (k.KCmpa? && f.opmode % 4 == 3)
    ensures Rebuilt(w, f, k)
  {
    hide Create, Reads, GetAddressingMode, GetRegisterType, ModeField, RegField, SizeOf, SizeCode;
    DataMode(f.mode, f.reg);
    FieldsEncode(f.mode, f.reg);
    SizeBack(f.opmode);
    CompareMade(w, f);
    hide Operand;
  }

  lemma UnaryMade(k: Kind, w: u16, f: Fields)
    requires Fit(f) && Reads(w, f) && f.opmode % 4 != 3
    ensures var m, r := GetAddressingMode(f.mode, f.reg), GetRegisterType(f.mode, f.reg);
            var z := SizeOf(f.opmode % 4).value;
            && (k.KTst? ==> CreateUnary(k, w) == Some(Tst(m, r, z)))
            && (k.KClr? && IsMemoryAlterable(m) ==> CreateUnary(k, w) == Some(Clr(m, r, z)))
            && (k.KNeg? && IsMemoryAlterable(m) ==> CreateUnary(k, w) == Some(Neg(m, r, z)))
            && (k.KCmpi? && IsMemoryAlterable(m) ==> CreateUnary(k, w) == Some(Compare(Immediate, 0, m, r, z, false)))
            && (!k.KTst? && !IsMemoryAlterable(m) ==> CreateUnary(k, w) == None)
  {
    hide Numbers, MoveSize;
    SizeBack(f.opmode);
    hide EaMode, EaReg, UpperReg, UpperRegPart, UpperModePart, RegPart, SizeField, Bit8, GetAddressingMode, SizeOf;
    hide GetRegisterType, IsMemoryAlterable;
  }

  lemma RebuildsUnary(w: u16, f: Fields, k: Kind)
    requires Fit(f) && Reads(w, f) && f.opmode < 4
    requires if k.KCmpi? then f.line == 0 && f.upper == 6
             else f.line == 4 && ((k.KTst? && f.upper == 5) || (k.KClr? && f.upper == 1) || (k.KNeg? && f.upper == 2))
    ensures Rebuilt(w, f, k)
  {
    hide Numbers, MoveSize;
    hide Create, Reads, GetAddressingMode, GetRegisterType, ModeField, RegField, Operand, Writable, IsMemoryAlterable;
    FieldsEncode(f.mode, f.reg);
    WritableIs(GetAddressingMode(f.mode, f.reg));
    NotOperand();
    CreateIs(k, w);
    SizeBack(f.opmode);
    assert f.opmode % 4 == f.opmode;
    if f.opmode == 3 {
      NoSize(w, f);
    } else {
      UnaryMade(k, w, f);
      hide CreateUnary, SizeOf, SizeCode;
    }
  }

  lemma NotOperand()
    ensures !Operand(Immediate, 0)
  {
  }

  lemma NoSize(w: u16, f: Fields)
    requires Fit(f) && Reads(w, f) && f.opmode % 4 == 3
    ensures SizeField(w) == None
  {
    hide Numbers, MoveSize;
    hide EaMode, EaReg, UpperReg, UpperRegPart, UpperModePart, RegPart, SizeField, Bit8, GetAddressingMode;
  }

  lemma MoveMade(w: u16, f: Fields)
    requires Fit(f) && Reads(w, f) && 1 <= f.line <= 3
    ensures var m, r := GetAddressingMode(f.mode, f.reg), GetRegisterType(f.mode, f.reg);
            var dm, dr := GetAddressingMode(f.opmode, f.upper), GetRegisterType(f.opmode, f.upper);
            var z := if f.line == 1 then Byte else if f.line == 2 then Long else Word;
            CreateMove(w) == (if m.Unknown? || !IsMemoryAlterable(dm) || (dm.DirectAddr? && z == Byte) then None
                              else Some(Move(m, r, dm, dr, z)))
  {
    hide Numbers, MoveSize;
    hide EaMode, EaReg, UpperReg, UpperRegPart, UpperModePart, RegPart, SizeField, Bit8, GetAddressingMode, SizeOf;
    hide GetRegisterType, IsMemoryAlterable;
  }

  lemma RebuildsMove(w: u16, f: Fields)
    requires Fit(f) && Reads(w, f) && 1 <= f.line <= 3
    ensures Rebuilt(w, f, KMove)
  {
    hide Numbers, MoveSize;
    hide Create, Reads, GetAddressingMode, GetRegisterType, ModeField, RegField, Operand, Writable, IsMemoryAlterable;
    FieldsEncode(f.mode, f.reg);
    FieldsEncode(f.opmode, f.upper);
    WritableIs(GetAddressingMode(f.opmode, f.upper));
    CreateIs(KMove, w);
    MoveMade(w, f);
    hide CreateMove;
  }

  lemma MoveqMade(w: u16, f: Fields)
    requires Fit(f) && Reads(w, f)
    ensures var imm := 0x40 * (f.opmode % 4) + 8 * f.mode + f.reg;
            imm < 0x100 && Create(KMoveq, w) == Some(Moveq(f.upper, imm))
  {
    hide EaMode, EaReg, UpperReg, UpperRegPart, UpperModePart, RegPart, SizeField, Bit8, GetAddressingMode, SizeOf;
    hide MoveSize;
  }

  lemma RebuildsMoveq(w: u16, f: Fields)
    requires Fit(f) && Reads(w, f) && f.line == 7 && f.opmode < 4
    ensures Rebuilt(w, f, KMoveq)
  {
    hide Create, Reads;
    MoveqMade(w, f);
    ByteFields(f.opmode % 4, f.mode, f.reg);
  }

  lemma RebuildsPlain(w: u16, f: Fields, k: Kind)
    requires Fit(f) && Reads(w, f) && f.line == 4
    requires match k
             case KExt => f.upper == 4 && (f.opmode == 2 || f.opmode == 3) && f.mode == 0
             case KLink => f == Fields(4, 7, 1, 2, f.reg)
             case KUnlk => f == Fields(4, 7, 1, 3, f.reg)
             case KRts => f == Fields(4, 7, 1, 6, 5)
             case KNop => f == Fields(4, 7, 1, 6, 1)
             case KIllegal => f == Fields(4, 5, 3, 7, 4)
             case _ => false
    ensures Rebuilt(w, f, k)
  {
    hide MoveSize;
    hide EaMode, EaReg, UpperReg, UpperRegPart, UpperModePart, RegPart, SizeField, Bit8, GetAddressingMode;
    hide ModeField, RegField, Operand, Writable, ControlMode, IsMemoryAlterable, IsDataAlterable, IsControl;
    hide CreateAlu, CreateAluImmediate, CreateAluQuick, CreateAluExtend, CreateUnary, CreateMove, CreateBitManip;
    hide CreateBitShift, CreateControl, ConditionField, AddressSize;
  }

  lemma BitMade(w: u16, f: Fields)
    requires Fit(f) && Reads(w, f)
    ensures var m, r, bit := GetAddressingMode(f.mode, f.reg), GetRegisterType(f.mode, f.reg), BitOf(f.opmode % 4);
            var sm := if f.opmode >= 4 then DirectData else Immediate;
            CreateBitManip(w) == if IsDataAlterable(m) then Some(BitManip(bit, sm, f.upper, m, r)) else None
  {
    hide EaMode, EaReg, UpperReg, UpperRegPart, UpperModePart, RegPart, SizeField, Bit8, GetAddressingMode, SizeOf;
    hide GetRegisterType, IsDataAlterable, MoveSize;
  }

  function BitOf(c: nat): BitKind {
    match c case 0 => Test case 1 => Change case 2 => Clear case _ => SetBit
  }

  lemma RebuildsBit(w: u16, f: Fields)
    requires Fit(f) && Reads(w, f) && f.line == 0 && (f.opmode >= 4 || f.upper == 4)
    ensures Rebuilt(w, f, KBitManip)
  {
    hide Create, CreateBitManip, Reads, GetAddressingMode, GetRegisterType, ModeField, RegField, Operand, Writable;
    hide IsDataAlterable, BitCode, BitOf;
    FieldsEncode(f.mode, f.reg);
    WritableIs(GetAddressingMode(f.mode, f.reg));
    CreateIs(KBitManip, w);
    BitMade(w, f);
    BitBack(f.opmode % 4);
  }

  lemma BitBack(c: nat)
    requires c < 4
    ensures BitCode(BitOf(c)) == c
  {
  }

  lemma RebuildsControl(w: u16, f: Fields, k: Kind)
    requires Fit(f) && Reads(w, f) && f.line == 4
    requires match k
             case KLea => f.opmode == 7
             case KPea => f.upper == 4 && f.opmode == 1
             case KJsr => f.upper == 7 && f.opmode == 2
             case KJmp => f.upper == 7 && f.opmode == 3
             case _ => false
    ensures Rebuilt(w, f, k)
  {
    hide Numbers, MoveSize;
    hide EaMode, EaReg, UpperReg, UpperRegPart, UpperModePart, RegPart, SizeField, Bit8, GetAddressingMode;
    hide GetRegisterType, ModeField, RegField, Operand, Writable, ControlMode, IsMemoryAlterable;
    hide IsDataAlterable, IsControl, Create, CreateAlu, CreateAluImmediate, CreateAluQuick, CreateAluExtend;
    hide CreateUnary, CreateMove, CreateBitManip, CreateBitShift, ConditionField, AddressSize;
    CreateIs(k, w);
    FieldsEncode(f.mode, f.reg);
    WritableIs(GetAddressingMode(f.mode, f.reg));
  }

  lemma ConditionEncodes(w: u16)
    ensures ConditionCode(ConditionField(w)) == w / 0x100 % 16
  {
  }

  lemma DataMode(mode: nat, reg: nat)
    requires mode < 8 && reg < 8
    ensures GetAddressingMode(mode, reg).DirectData? <==> mode == 0
    ensures mode == 0 ==> GetRegisterType(mode, reg) < 8
  {
  }

  lemma ByteFields(c: nat, mode: nat, reg: nat)
    requires c < 4 && mode < 8 && reg < 8
    ensures var v := 0x40 * c + 8 * mode + reg;
            v / 0x40 == c && v / 8 % 8 == mode && v % 8 == reg
  {
  }

  lemma BranchMade(w: u16, f: Fields)
    requires Fit(f) && Reads(w, f)
    ensures var d8 := 0x40 * (f.opmode % 4) + 8 * f.mode + f.reg;
            && d8 < 0x100 && Create(KBcc, w) == Some(Branch(ConditionField(w), d8))
            && ConditionCode(ConditionField(w)) == 2 * f.upper + f.opmode / 4
  {
    hide MoveSize;
    ConditionEncodes(w);
    hide EaMode, EaReg, UpperReg, UpperRegPart, UpperModePart, RegPart, SizeField, Bit8, GetAddressingMode, SizeOf;
    hide ConditionField, ConditionCode;
  }

  lemma RebuildsBranch(w: u16, f: Fields)
    requires Fit(f) && Reads(w, f) && f.line == 6
    ensures Rebuilt(w, f, KBcc)
  {
    hide MoveSize;
    hide Create, Reads, ConditionCode, ConditionField;
    BranchMade(w, f);
    ByteFields(f.opmode % 4, f.mode, f.reg);
  }

  lemma RebuildsScc(w: u16, f: Fields)
    requires Fit(f) && Reads(w, f) && f.line == 5 && f.opmode % 4 == 3
    ensures Rebuilt(w, f, KScc)
  {
    hide MoveSize;
    hide EaMode, EaReg, UpperReg, UpperRegPart, UpperModePart, RegPart, SizeField, Bit8, GetAddressingMode;
    hide GetRegisterType, ModeField, RegField, Operand, Writable, ControlMode, IsMemoryAlterable;
    hide IsDataAlterable, IsControl, ConditionCode, CreateAlu, CreateAluImmediate, CreateAluQuick;
    hide CreateAluExtend, CreateUnary, CreateMove, CreateBitManip, CreateBitShift, CreateControl, ConditionField;
    hide AddressSize;
    FieldsEncode(f.mode, f.reg);
    WritableIs(GetAddressingMode(f.mode, f.reg));
    ConditionEncodes(w);
  }

  lemma RebuildsLine0(w: u16, f: Fields, k: Kind)
    requires Fit(f) && Reads(w, f) && f.line == 0 && OpcodeMap(0, f.upper, f.opmode, f.mode, f.reg) == Some(k)
    ensures Rebuilt(w, f, k)
  {
    hide Numbers, MoveSize;
    hide Reads, Rebuilt;
    if f.opmode >= 4 || f.upper == 4 {
      RebuildsBit(w, f);
    } else {
      match f.upper
      case 0 => RebuildsImmediate(w, f, Or);
      case 1 => RebuildsImmediate(w, f, And);
      case 2 => RebuildsImmediate(w, f, Sub);
      case 3 => RebuildsImmediate(w, f, Add);
      case 5 => RebuildsImmediate(w, f, Eor);
      case 6 => RebuildsUnary(w, f, k);
    }
  }

  lemma RebuildsLine4(w: u16, f: Fields, k: Kind)
    requires Fit(f) && Reads(w, f) && f.line == 4 && MiscellaneousMap(f.upper, f.opmode, f.mode, f.reg) == Some(k)
    ensures Rebuilt(w, f, k)
  {
    hide Numbers, MoveSize;
    hide Reads, Rebuilt;
    match k
    case KTst | KClr | KNeg => RebuildsUnary(w, f, k);
    case KLea | KPea | KJsr | KJmp => RebuildsControl(w, f, k);
    case _ => RebuildsPlain(w, f, k);
  }

  /** What the class of a word makes of it has the fields of the word. */
  lemma Rebuilds(w: u16, f: Fields, k: Kind)
    requires Fit(f) && Reads(w, f) && OpcodeMap(f.line, f.upper, f.opmode, f.mode, f.reg) == Some(k)
    requires !k.KBitShift? && !Swapped(f)
    ensures Rebuilt(w, f, k)
  {
    hide Reads, Rebuilt, MiscellaneousMap;
    match f.line
    case 0 => RebuildsLine0(w, f, k);
    case 1 | 2 | 3 => RebuildsMove(w, f);
    case 4 => RebuildsLine4(w, f, k);
    case 5 => if f.opmode % 4 == 3 { RebuildsScc(w, f); } else { RebuildsQuick(w, f); }
    case 6 => RebuildsBranch(w, f);
    case 7 => RebuildsMoveq(w, f);
    case 8 => if f.opmode % 4 == 3 { RebuildsAddress(w, f, k); } else { RebuildsAlu(w, f, Or); }
    case 9 | 13 =>
      if f.opmode % 4 == 3 { RebuildsAddress(w, f, k); }
      else if f.opmode >= 4 && f.mode < 2 { RebuildsExtend(w, f, k); }
      else { RebuildsAlu(w, f, if f.line == 9 then Sub else Add); }
    case 11 => if f.opmode % 4 != 3 && f.opmode >= 4 { RebuildsAlu(w, f, Eor); } else { RebuildsCompare(w, f, k); }
    case 12 => if f.opmode % 4 == 3 { RebuildsAddress(w, f, k); } else { RebuildsAlu(w, f, And); }
  }

  function FieldsIn(opcode: u16): (f: Fields)
    ensures Fit(f)
  {
    Fields(opcode / 0x1000, UpperRegPart(opcode), UpperModePart(opcode), ModePart(opcode), RegPart(opcode))
  }

  /** Every opcode that decodes to an instruction other than a shift is the word assembled from that
      instruction, but for AND and OR between data registers with the direction bit set. */
  lemma DecodedAssembles(opcode: u16)
    requires !Decode(opcode).Illegal? && !Decode(opcode).BitShift? && !Swapped(FieldsIn(opcode))
    ensures Encodable(Decode(opcode)) && Assemble(Decode(opcode)) == opcode
  {
    var f := FieldsIn(opcode);
    FieldsMake(opcode);
    assert Packed(f) == opcode;
    hide Decode, Create, Reads, FieldsFor, Packed, OpcodeMap, Encodable, FieldsIn, Swapped;
    PackedReads(f);
    var k := OpcodeMap(f.line, f.upper, f.opmode, f.mode, f.reg);
    ShiftMakes(opcode);
    if k != Some(KBitShift) {
      Rebuilds(opcode, f, k.value);
    }
  }

  lemma ShiftMakes(w: u16)
    ensures Create(KBitShift, w).Some? ==> Create(KBitShift, w).value.BitShift?
  {
  }

  lemma SwappedMakes(w: u16, f: Fields, op: AluOp)
    requires Fit(f) && Reads(w, f) && Swapped(f) && f.line == AluLine(op)
    ensures CreateAlu(op, w) == Some(Alu(op, DirectData, f.upper, DirectData, f.reg, SizeOf(f.opmode % 4).value))
  {
    hide EaMode, EaReg, UpperReg, UpperRegPart, UpperModePart, RegPart, SizeField, Bit8, Numbers, MoveSize;
    FieldsEncode(f.mode, f.reg);
  }

  /** Those words mean AND or OR of the upper register to the lower. */
  lemma SwappedIs(f: Fields)
    requires Fit(f) && Swapped(f)
    ensures Decode(Packed(f))
            == Alu(if f.line == 8 then Or else And, DirectData, f.upper, DirectData, f.reg, SizeOf(f.opmode % 4).value)
  {
    hide Decode, Create, Reads, Packed, CreateAlu, CreateAluImmediate, MiscellaneousMap;
    PackedReads(f);
    var op := if f.line == 8 then Or else And;
    SwappedMakes(Packed(f), f, op);
    AluMade(op, Packed(f));
  }

  /** They decode as the word with the registers exchanged and the direction bit clear. */
  lemma SwappedDecodes(f: Fields)
    requires Fit(f) && Swapped(f)
    ensures Encodable(Decode(Packed(f)))
            && FieldsFor(Decode(Packed(f))) == Fields(f.line, f.reg, f.opmode - 4, 0, f.upper)
  {
    hide Decode, Packed;
    SwappedIs(f);
    SizeBack(f.opmode);
    hide SizeOf, SizeCode;
  }

  // ----- shifts -----

  function ShiftCode(kind: ShiftKind): (c: nat)
    ensures c < 4
  {
    match kind case Arithmetic => 0 case Logical => 1 case RotateExtend => 2 case Rotate => 3
  }

  lemma ShiftBack(kind: ShiftKind)
    ensures ShiftField(ShiftCode(kind)) == kind
  {
  }

  /** A shift of memory has the kind in the last two bits of its mode field, whatever its register field. */
  lemma MemoryShiftDecodes(upper: nat, left: bool, kind: ShiftKind, m: Mode, r: OperandReg)
    requires upper < 8 && Operand(m, r) && ModeField(m) % 4 == ShiftCode(kind)
    ensures Decode(Packed(WithEa(14, upper, if left then 7 else 3, m, r)))
            == if Writable(m) then BitShift(kind, left, Fixed(1), m, r, Word) else Illegal
  {
    hide Decode, EaMode, EaReg, UpperReg, UpperRegPart, UpperModePart, RegPart, SizeField, Bit8, GetAddressingMode;
    hide GetRegisterType, ModeField, RegField, Operand, Writable, ControlMode, IsMemoryAlterable, MoveSize, Packed;
    hide ShiftCode, ShiftField, Numbers;
    var f := WithEa(14, upper, if left then 7 else 3, m, r);
    PackedReads(f);
    FieldsDecode(m, r);
    WritableIs(m);
    ShiftBack(kind);
    ShiftBits(Packed(f), f);
  }

  /** A shift of a data register has the kind in the last two bits of its count field, takes a count from
      a register if bit 5 is clear, and else the count field plus one; bits 4 and 3 are not looked at. */
  lemma RegisterShiftDecodes(n: nat, left: bool, z: Size, kind: ShiftKind, fixed: bool, low: nat, r: nat)
    requires n < 8 && n % 4 == ShiftCode(kind) && low < 4 && r < 8
    ensures Decode(Packed(Fields(14, n, (if left then 4 else 0) + SizeCode(z), (if fixed then 4 else 0) + low, r)))
            == BitShift(kind, left, if fixed then Fixed(n + 1) else InReg(n), DirectData, r, z)
  {
    hide Decode, EaMode, EaReg, UpperReg, UpperRegPart, UpperModePart, RegPart, SizeField, Bit8, GetAddressingMode;
    hide IsMemoryAlterable, MoveSize, Packed, ShiftCode, ShiftField, Numbers;
    var f := Fields(14, n, (if left then 4 else 0) + SizeCode(z), (if fixed then 4 else 0) + low, r);
    PackedReads(f);
    SizeCodes(z);
    ShiftBack(kind);
    ShiftBits(Packed(f), f);
    hide SizeOf, SizeCode;
  }

  lemma ShiftBits(w: u16, f: Fields)
    requires Fit(f) && w == Packed(f)
    ensures w / 8 % 4 == f.mode % 4 && w / 0x200 % 4 == f.upper % 4 && (w / 0x20 % 2 == 1 <==> f.mode >= 4)
  {
    FieldsOf(f.line, f.upper, f.opmode, f.mode, f.reg);
    hide Word16;
  }

  // ----- words of instructions the table lacks -----

  /** ABCD and SBCD, EXG of two address registers, and CMPM run as AND, OR and EOR of Dx; of two data
      registers, ABCD, SBCD and EXG run as AND and OR of Dx to Dy. */
  lemma ForeignWords(x: nat, y: nat, z: Size)
    requires x < 8 && y < 8
    ensures Decode(Word16(12, x, 4, 1, y)) == Alu(And, DirectData, x, DirectAddr, y + 8, Byte)
    ensures Decode(Word16(8, x, 4, 1, y)) == Alu(Or, DirectData, x, DirectAddr, y + 8, Byte)
    ensures Decode(Word16(12, x, 5, 1, y)) == Alu(And, DirectData, x, DirectAddr, y + 8, Word)
    ensures Decode(Word16(11, x, 4 + SizeCode(z), 1, y)) == Alu(Eor, DirectData, x, DirectAddr, y + 8, z)
    ensures Decode(Word16(12, x, 4, 0, y)) == Alu(And, DirectData, x, DirectData, y, Byte)
    ensures Decode(Word16(8, x, 4, 0, y)) == Alu(Or, DirectData, x, DirectData, y, Byte)
    ensures Decode(Word16(12, x, 5, 0, y)) == Alu(And, DirectData, x, DirectData, y, Word)
  {
    hide Decode, Word16;
    AssembledDecodes(Alu(And, DirectData, x, DirectAddr, y + 8, Byte));
    AssembledDecodes(Alu(Or, DirectData, x, DirectAddr, y + 8, Byte));
    AssembledDecodes(Alu(And, DirectData, x, DirectAddr, y + 8, Word));
    AssembledDecodes(Alu(Eor, DirectData, x, DirectAddr, y + 8, z));
    SwappedIs(Fields(12, x, 4, 0, y));
    SwappedIs(Fields(8, x, 4, 0, y));
    SwappedIs(Fields(12, x, 5, 0, y));
  }

  // ----- condition numbers -----

  /** An odd condition number is the complement of the even one below it. */
  lemma ComplementaryConditions(s: State, even: Condition, odd: Condition)
    requires ConditionCode(even) % 2 == 0 && ConditionCode(odd) == ConditionCode(even) + 1
    ensures CheckCondition(s, odd) == !CheckCondition(s, even)
  {
    hide HasFlag;
  }
}
