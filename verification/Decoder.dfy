// Opcode decoding: the instruction constructors and the mask table they are reached through
// (src/instruction_decoder.cpp and the constructors in src/instructions/*.cpp).

module Decoder {
  import opened Helpers
  import opened CpuState
  import opened Registers
  import opened Instructions

  datatype Option<+T> = None | Some(value: T)

  // ----- operand fields of an opcode -----

  function RegPart(opcode: u16): nat { opcode % 8 }
  function ModePart(opcode: u16): nat { opcode / 8 % 8 }
  function UpperModePart(opcode: u16): nat { opcode / 0x40 % 8 }
  function UpperRegPart(opcode: u16): nat { opcode / 0x200 % 8 }

  function EaMode(opcode: u16): Mode {
    GetAddressingMode(ModePart(opcode), RegPart(opcode))
  }

  function EaReg(opcode: u16): OperandReg {
    GetRegisterType(ModePart(opcode), RegPart(opcode))
  }

  function UpperReg(opcode: u16, bank: nat): OperandReg {
    GetRegisterType(bank, UpperRegPart(opcode))
  }

  predicate Bit8(opcode: u16) {
    opcode / 0x100 % 2 == 1
  }

  function SizeField(opcode: u16): Option<Size> {
    match opcode / 0x40 % 4
    case 0 => Some(Byte)
    case 1 => Some(Word)
    case 2 => Some(Long)
    case _ => None
  }

  function ConditionField(opcode: u16): Condition {
    match opcode / 0x100 % 16
    case 0 => True
    case 1 => False
    case 2 => Higher
    case 3 => LowerSame
    case 4 => CarryClear
    case 5 => CarrySet
    case 6 => NotEqual
    case 7 => Equal
    case 8 => OverflowClear
    case 9 => OverflowSet
    case 10 => Plus
    case 11 => Minus
    case 12 => GreaterEqual
    case 13 => LessThan
    case 14 => GreaterThan
    case _ => LessEqual
  }

  // ----- constructors: None where the source clears is_valid -----

  function CreateAlu(op: AluOp, opcode: u16): Option<Instr> {
    match SizeField(opcode)
    case None => None
    case Some(z) =>
      if Bit8(opcode) then
        if IsMemoryAlterable(EaMode(opcode))
        then Some(Alu(op, DirectData, UpperReg(opcode, 0), EaMode(opcode), EaReg(opcode), z)) else None
      else if op.Eor? then None
      else Some(Alu(op, EaMode(opcode), EaReg(opcode), DirectData, UpperReg(opcode, 0), z))
  }

  function CreateAluImmediate(op: AluOp, opcode: u16): Option<Instr> {
    match SizeField(opcode)
    case None => None
    case Some(z) =>
      if IsMemoryAlterable(EaMode(opcode)) then Some(Alu(op, Immediate, 0, EaMode(opcode), EaReg(opcode), z)) else None
  }

  function CreateAluQuick(op: AluOp, opcode: u16): Option<Instr> {
    match SizeField(opcode)
    case None => None
    case Some(z) =>
      var imm := if UpperRegPart(opcode) == 0 then 8 else UpperRegPart(opcode);
      if IsMemoryAlterable(EaMode(opcode)) then Some(AluQuick(op, imm, EaMode(opcode), EaReg(opcode), z)) else None
  }

  function CreateAluExtend(op: AluOp, opcode: u16): Option<Instr> {
    match SizeField(opcode)
    case None => None
    case Some(z) =>
      var bank := opcode / 8 % 2;
      Some(AluExtend(op, if bank == 0 then DirectData else PreDecrement,
                     GetRegisterType(bank, RegPart(opcode)), UpperReg(opcode, bank), z))
  }

  function AddressSize(opcode: u16): Size {
    if Bit8(opcode) then Long else Word
  }

  function CreateUnary(k: Kind, opcode: u16): Option<Instr> {
    match SizeField(opcode)
    case None => None
    case Some(z) =>
      if k.KTst? then Some(Tst(EaMode(opcode), EaReg(opcode), z))
      else if !IsMemoryAlterable(EaMode(opcode)) then None
      else match k
        case KClr => Some(Clr(EaMode(opcode), EaReg(opcode), z))
        case KNeg => Some(Neg(EaMode(opcode), EaReg(opcode), z))
        case _ => Some(Compare(Immediate, 0, EaMode(opcode), EaReg(opcode), z, false))
  }

  function MoveSize(opcode: u16): Option<Size> {
    match opcode / 0x1000 % 4
    case 1 => Some(Byte)
    case 2 => Some(Long)
    case 3 => Some(Word)
    case _ => None
  }

  function CreateMove(opcode: u16): Option<Instr> {
    var dm := GetAddressingMode(UpperModePart(opcode), UpperRegPart(opcode));
    var dr := GetRegisterType(UpperModePart(opcode), UpperRegPart(opcode));
    match MoveSize(opcode)
    case None => None
    case Some(z) =>
      if EaMode(opcode).Unknown? || !IsMemoryAlterable(dm) || (dm.DirectAddr? && z == Byte) then None
      else Some(Move(EaMode(opcode), EaReg(opcode), dm, dr, z))
  }

  function CreateBitManip(opcode: u16): Option<Instr> {
    var kind := match opcode / 0x40 % 4 case 0 => Test case 1 => Change case 2 => Clear case _ => SetBit;
    if IsDataAlterable(EaMode(opcode))
    then Some(BitManip(kind, if Bit8(opcode) then DirectData else Immediate, UpperReg(opcode, 0),
                       EaMode(opcode), EaReg(opcode)))
    else None
  }

  function ShiftField(f: nat): ShiftKind {
    match f case 0 => Arithmetic case 1 => Logical case 2 => RotateExtend case _ => Rotate
  }

  function CreateBitShift(opcode: u16): Option<Instr> {
    match SizeField(opcode)
    case None =>
      if IsMemoryAlterable(EaMode(opcode))
      then Some(BitShift(ShiftField(opcode / 8 % 4), Bit8(opcode), Fixed(1), EaMode(opcode), EaReg(opcode), Word))
      else None
    case Some(z) =>
      var count := if opcode / 0x20 % 2 == 1 then Fixed(UpperRegPart(opcode) + 1) else InReg(UpperReg(opcode, 0));
      Some(BitShift(ShiftField(opcode / 0x200 % 4), Bit8(opcode), count, DirectData,
                    GetRegisterType(0, RegPart(opcode)), z))
  }

  /** Constructors that take a control address. */
  function CreateControl(k: Kind, opcode: u16): Option<Instr> {
    if !IsControl(EaMode(opcode)) then None
    else match k
      case KLea => Some(Lea(EaMode(opcode), EaReg(opcode), UpperReg(opcode, 1)))
      case KPea => Some(Pea(EaMode(opcode), EaReg(opcode)))
      case KJmp => Some(Jmp(EaMode(opcode), EaReg(opcode)))
      case _ => Some(Jsr(EaMode(opcode), EaReg(opcode)))
  }

  /** The instruction classes of the mask table. */
  datatype Kind =
    | KIllegal | KNop | KRts | KLink | KUnlk | KExt | KBitManip | KPea | KJsr | KJmp | KBitShift
    | KOri | KAndi | KSubi | KAddi | KEori | KCmpi | KClr | KNeg | KTst | KBcc | KCmpa | KMove | KLea
    | KDiv | KSuba | KMul | KAnd | KAdda | KAddx | KScc | KSubx | KAddq | KSubq | KMoveq | KEor | KCmp
    | KOr | KSub | KAdd

  function Create(k: Kind, opcode: u16): Option<Instr> {
    match k
    case KIllegal => Some(Illegal)
    case KNop => Some(Nop)
    case KRts => Some(Rts)
    case KLink => Some(Link(GetRegisterType(1, RegPart(opcode))))
    case KUnlk => Some(Unlk(GetRegisterType(1, RegPart(opcode))))
    case KExt => Some(Ext(GetRegisterType(0, RegPart(opcode)), if opcode / 0x40 % 2 == 1 then Long else Word))
    case KBitManip => CreateBitManip(opcode)
    case KPea | KJsr | KJmp | KLea => CreateControl(k, opcode)
    case KBitShift => CreateBitShift(opcode)
    case KOri => CreateAluImmediate(Or, opcode)
    case KAndi => CreateAluImmediate(And, opcode)
    case KSubi => CreateAluImmediate(Sub, opcode)
    case KAddi => CreateAluImmediate(Add, opcode)
    case KEori => CreateAluImmediate(Eor, opcode)
    case KCmpi | KClr | KNeg | KTst => CreateUnary(k, opcode)
    case KBcc => Some(Branch(ConditionField(opcode), opcode % 0x100))
    case KCmpa =>
      Some(Compare(EaMode(opcode), EaReg(opcode), DirectAddr, UpperReg(opcode, 1), AddressSize(opcode), true))
    case KMove => CreateMove(opcode)
    case KDiv => Some(Div(Bit8(opcode), EaMode(opcode), EaReg(opcode), UpperReg(opcode, 0)))
    case KMul => Some(Mul(Bit8(opcode), EaMode(opcode), EaReg(opcode), UpperReg(opcode, 0)))
    case KSuba => Some(AluAddress(Sub, EaMode(opcode), EaReg(opcode), UpperReg(opcode, 1), AddressSize(opcode)))
    case KAdda => Some(AluAddress(Add, EaMode(opcode), EaReg(opcode), UpperReg(opcode, 1), AddressSize(opcode)))
    case KAnd => CreateAlu(And, opcode)
    case KEor => CreateAlu(Eor, opcode)
    case KOr => CreateAlu(Or, opcode)
    case KSub => CreateAlu(Sub, opcode)
    case KAdd => CreateAlu(Add, opcode)
    case KAddx => CreateAluExtend(Add, opcode)
    case KSubx => CreateAluExtend(Sub, opcode)
    case KScc =>
      if IsDataAlterable(EaMode(opcode)) then Some(Scc(ConditionField(opcode), EaMode(opcode), EaReg(opcode))) else None
    case KAddq => CreateAluQuick(Add, opcode)
    case KSubq => CreateAluQuick(Sub, opcode)
    case KMoveq => Some(Moveq(UpperReg(opcode, 0), opcode % 0x100))
    case KCmp =>
      match SizeField(opcode) {
        case None => None
        case Some(z) => Some(Compare(EaMode(opcode), EaReg(opcode), DirectData, UpperReg(opcode, 0), z, false))
      }
  }

  // ----- the mask table -----

  datatype MaskEntry<K> = MaskEntry(mask: nat, value: nat, kind: K)

  predicate Matches<K>(e: MaskEntry<K>, opcode: nat) {
    BitAnd(opcode, e.mask) == e.value
  }

  /** Reference lookup: the first matching mask decides, and an invalid candidate is Illegal. */
  function FirstMatch<K, I>(table: seq<MaskEntry<K>>, create: (K, u16) -> Option<I>, illegal: I, opcode: u16): I
    decreases table, opcode
  {
    if table == [] then illegal
    else if Matches(table[0], opcode) then
      match create(table[0].kind, opcode)
      case Some(i) => i
      case None => illegal
    else FirstMatch(table[1..], create, illegal, opcode)
  }

  /** The masks in source order, eight to a group. */
  function OpcodeMaskTable(): seq<MaskEntry<Kind>> {
    [ MaskEntry(0xFFFF, 0x4AFC, KIllegal), MaskEntry(0xFFFF, 0x4E71, KNop), MaskEntry(0xFFFF, 0x4E75, KRts),
      MaskEntry(0xFFF8, 0x4E50, KLink), MaskEntry(0xFFF8, 0x4E58, KUnlk), MaskEntry(0xFFB8, 0x4880, KExt),
      MaskEntry(0xFFC0, 0x0800, KBitManip), MaskEntry(0xFFC0, 0x0840, KBitManip) ]
    + [ MaskEntry(0xFFC0, 0x0880, KBitManip), MaskEntry(0xFFC0, 0x08C0, KBitManip), MaskEntry(0xFFC0, 0x4840, KPea),
      MaskEntry(0xFFC0, 0x4E80, KJsr), MaskEntry(0xFFC0, 0x4EC0, KJmp), MaskEntry(0xFEC0, 0xE0C0, KBitShift),
      MaskEntry(0xFEC0, 0xE2C0, KBitShift), MaskEntry(0xFEC0, 0xE4C0, KBitShift) ]
    + [ MaskEntry(0xFEC0, 0xE6C0, KBitShift), MaskEntry(0xFF00, 0x0000, KOri), MaskEntry(0xFF00, 0x0200, KAndi),
      MaskEntry(0xFF00, 0x0400, KSubi), MaskEntry(0xFF00, 0x0600, KAddi), MaskEntry(0xFF00, 0x0A00, KEori),
      MaskEntry(0xFF00, 0x0C00, KCmpi), MaskEntry(0xFF00, 0x4200, KClr) ]
    + [ MaskEntry(0xFF00, 0x4400, KNeg), MaskEntry(0xFF00, 0x4A00, KTst), MaskEntry(0xFF00, 0x6000, KBcc),
      MaskEntry(0xFF00, 0x6100, KBcc), MaskEntry(0xF0C0, 0xB0C0, KCmpa), MaskEntry(0xF1C0, 0x0100, KBitManip),
      MaskEntry(0xF1C0, 0x0140, KBitManip), MaskEntry(0xF1C0, 0x0180, KBitManip) ]
    + [ MaskEntry(0xF1C0, 0x01C0, KBitManip), MaskEntry(0xF1C0, 0x3040, KMove), MaskEntry(0xF1C0, 0x2040, KMove),
      MaskEntry(0xF1C0, 0x41C0, KLea), MaskEntry(0xF1C0, 0x80C0, KDiv), MaskEntry(0xF1C0, 0x81C0, KDiv),
      MaskEntry(0xF0C0, 0x90C0, KSuba), MaskEntry(0xF1C0, 0xC0C0, KMul) ]
    + [ MaskEntry(0xF1C0, 0xC1C0, KMul), MaskEntry(0xF000, 0xC000, KAnd), MaskEntry(0xF0C0, 0xD0C0, KAdda),
      MaskEntry(0xF130, 0xD100, KAddx), MaskEntry(0xF0C0, 0x50C0, KScc), MaskEntry(0xF130, 0x9100, KSubx),
      MaskEntry(0xF018, 0xE000, KBitShift), MaskEntry(0xF018, 0xE008, KBitShift) ]
    + [ MaskEntry(0xF018, 0xE010, KBitShift), MaskEntry(0xF018, 0xE018, KBitShift), MaskEntry(0xF100, 0x5000, KAddq),
      MaskEntry(0xF100, 0x5100, KSubq), MaskEntry(0xF100, 0x7000, KMoveq), MaskEntry(0xF100, 0xB100, KEor),
      MaskEntry(0xF100, 0xB000, KCmp), MaskEntry(0xF000, 0x3000, KMove) ]
    + [ MaskEntry(0xF000, 0x2000, KMove), MaskEntry(0xF000, 0x1000, KMove), MaskEntry(0xF000, 0x6000, KBcc),
      MaskEntry(0xF000, 0x8000, KOr), MaskEntry(0xF000, 0x9000, KSub), MaskEntry(0xF000, 0xD000, KAdd) ]
  }

  function Decode(opcode: u16): Instr {
    FirstMatch(OpcodeMaskTable(), Create, Illegal, opcode)
  }

  /** One entry per opcode, built by the two loops of the source. `instruction` is a moved-from
      pointer after each push, so nothing survives from one opcode to the next. */
  method GenerateOpcodeTable<K, I>(table: seq<MaskEntry<K>>, create: (K, u16) -> Option<I>, illegal: u16 -> I)
    returns (opcodes: seq<I>)
    ensures |opcodes| == 0x1_0000
    ensures forall k :: 0 <= k < 0x1_0000 ==> opcodes[k] == FirstMatch(table, create, illegal(k), k)
  {
    opcodes := [];
    var instruction: Option<I> := None;
    for opcode := 0 to 0x1_0000
      invariant |opcodes| == opcode
      invariant instruction == None
      invariant forall k :: 0 <= k < opcode ==> opcodes[k] == FirstMatch(table, create, illegal(k), k)
    {
      var j := 0;
      while j < |table|
        invariant j <= |table|
        invariant instruction == None
        invariant FirstMatch(table[j..], create, illegal(opcode), opcode)
                  == FirstMatch(table, create, illegal(opcode), opcode)
      {
        var e := table[j];
        assert table[j..][1..] == table[j + 1..];
        if Matches(e, opcode) {
          var candidate := create(e.kind, opcode);
          if candidate.Some? {
            instruction := candidate;
          }
          break;
        }
        j := j + 1;
      }
      if instruction == None {
        instruction := Some(illegal(opcode));
      }
      opcodes := opcodes + [instruction.value];
      instruction := None;
    }
  }

  /** The decoder the CPU is built with answers every opcode by reference lookup. */
  method NewDecoder() returns (opcodes: seq<Instr>)
    ensures |opcodes| == 0x1_0000
    ensures forall k :: 0 <= k < 0x1_0000 ==> opcodes[k] == Decode(k)
  {
    opcodes := GenerateOpcodeTable(OpcodeMaskTable(), Create, _ => Illegal);
  }

  // ----- what decoding guarantees -----

  /** The register bank agrees with the mode: data registers for DirectData, address registers otherwise. */
  predicate Names(m: Mode, r: OperandReg) {
    (m.DirectData? ==> r < 8) && (!m.DirectData? && !m.Immediate? ==> r >= 8)
  }

  /** Operands name the register bank their mode uses, and every operand an instruction writes
      or takes the address of is in a mode its resolver supports. */
  predicate WellFormed(i: Instr) {
    match i
    case Alu(_, sm, sr, dm, dr, _) => Names(sm, sr) && Names(dm, dr) && IsMemoryAlterable(dm)
    case AluQuick(op, imm, dm, dr, _) => (op.Add? || op.Sub?) && 1 <= imm <= 8 && Names(dm, dr) && IsMemoryAlterable(dm)
    case AluAddress(op, sm, sr, dr, z) => (op.Add? || op.Sub?) && z != Byte && Names(sm, sr) && dr >= 8
    case AluExtend(op, m, sr, dr, _) =>
      (op.Add? || op.Sub?) && Names(m, sr) && Names(m, dr) && (m.DirectData? || m.PreDecrement?)
    case Compare(sm, sr, dm, dr, _, _) => Names(sm, sr) && Names(dm, dr) && IsMemoryAlterable(dm)
    case Tst(dm, dr, _) => Names(dm, dr)
    case Clr(dm, dr, _) => Names(dm, dr) && IsMemoryAlterable(dm)
    case Neg(dm, dr, _) => Names(dm, dr) && IsMemoryAlterable(dm)
    case Move(sm, sr, dm, dr, z) =>
      && Names(sm, sr) && Names(dm, dr) && !sm.Unknown?
      && IsMemoryAlterable(dm) && !(dm.DirectAddr? && z == Byte)
    case Moveq(dr, imm) => dr < 8 && imm < 0x100
    case Ext(dr, z) => dr < 8 && z != Byte
    case Mul(_, sm, sr, dr) => Names(sm, sr) && dr < 8
    case Div(_, sm, sr, dr) => Names(sm, sr) && dr < 8
    case BitManip(_, sm, sr, dm, dr) =>
      && (sm.DirectData? || sm.Immediate?) && Names(sm, sr) && Names(dm, dr) && IsDataAlterable(dm)
    case BitShift(_, _, count, dm, dr, _) =>
      Names(dm, dr) && IsMemoryAlterable(dm) && (count.Fixed? ==> 1 <= count.n <= 8)
    case Scc(_, dm, dr) => Names(dm, dr) && IsDataAlterable(dm)
    case Lea(sm, sr, dr) => Names(sm, sr) && IsControl(sm) && dr >= 8
    case Pea(sm, sr) => Names(sm, sr) && IsControl(sm)
    case Jmp(sm, sr) => Names(sm, sr) && IsControl(sm)
    case Jsr(sm, sr) => Names(sm, sr) && IsControl(sm)
    case Link(r) => r >= 8
    case Unlk(r) => r >= 8
    case _ => true
  }

  lemma FieldNames(modePart: nat, regPart: nat)
    requires modePart < 8 && regPart < 8
    ensures Names(GetAddressingMode(modePart, regPart), GetRegisterType(modePart, regPart))
  {
  }

  ghost predicate Sound(o: Option<Instr>) {
    o.Some? ==> WellFormed(o.value)
  }

  lemma OperandNames(opcode: u16)
    ensures Names(EaMode(opcode), EaReg(opcode))
    ensures UpperReg(opcode, 0) < 8 <= UpperReg(opcode, 1) && AddressSize(opcode) != Byte
  {
    FieldNames(ModePart(opcode), RegPart(opcode));
  }

  lemma AluWellFormed(op: AluOp, opcode: u16)
    ensures Sound(CreateAlu(op, opcode)) && Sound(CreateAluImmediate(op, opcode))
    ensures op.Add? || op.Sub? ==> Sound(CreateAluQuick(op, opcode)) && Sound(CreateAluExtend(op, opcode))
  {
    OperandNames(opcode);
    hide EaMode, EaReg, UpperReg;
  }

  lemma MoveWellFormed(opcode: u16)
    ensures Sound(CreateMove(opcode))
  {
    OperandNames(opcode);
    FieldNames(UpperModePart(opcode), UpperRegPart(opcode));
    hide EaMode, EaReg, GetAddressingMode, GetRegisterType;
  }

  lemma BitWellFormed(opcode: u16)
    ensures Sound(CreateBitManip(opcode)) && Sound(CreateBitShift(opcode))
  {
    OperandNames(opcode);
    hide EaMode, EaReg, UpperReg;
  }

  lemma UnaryWellFormed(k: Kind, opcode: u16)
    ensures Sound(CreateUnary(k, opcode)) && Sound(CreateControl(k, opcode))
  {
    OperandNames(opcode);
    hide EaMode, EaReg, UpperReg;
  }

  lemma CreateWellFormed(k: Kind, opcode: u16)
    ensures Sound(Create(k, opcode))
  {
    OperandNames(opcode);
    MoveWellFormed(opcode);
    BitWellFormed(opcode);
    UnaryWellFormed(k, opcode);
    forall op: AluOp { AluWellFormed(op, opcode); }
    hide EaMode, EaReg, UpperReg, ConditionField, SizeField, AddressSize, Bit8;
    hide CreateAlu, CreateAluImmediate, CreateAluQuick, CreateAluExtend;
    hide CreateMove, CreateBitManip, CreateBitShift, CreateUnary, CreateControl;
  }

  lemma {:induction false} FirstMatchWellFormed(table: seq<MaskEntry<Kind>>, opcode: u16)
    ensures WellFormed(FirstMatch(table, Create, Illegal, opcode))
  {
    if table != [] {
      if Matches(table[0], opcode) {
        CreateWellFormed(table[0].kind, opcode);
      } else {
        FirstMatchWellFormed(table[1..], opcode);
      }
    }
  }

  /** Every opcode decodes to an instruction whose operands the resolvers support. */
  lemma DecodeWellFormed(opcode: u16)
    ensures WellFormed(Decode(opcode))
  {
    FirstMatchWellFormed(OpcodeMaskTable(), opcode);
  }
}
