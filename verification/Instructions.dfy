// Instructions grouped by family, and what executing one does (src/instructions/*.cpp).
// An instruction with an immediate operand is the register form with source mode Immediate:
// the two C++ classes run the same statements.

module Instructions {
  import opened Helpers
  import opened Memory
  import opened Registers
  import opened CpuState

  datatype AluOp = Add | Sub | And | Or | Eor
  datatype BitKind = Test | Change | Clear | SetBit
  datatype ShiftKind = Arithmetic | Logical | RotateExtend | Rotate
  datatype Count = Fixed(n: nat) | InReg(r: OperandReg)

  datatype Instr =
    | Alu(op: AluOp, sm: Mode, sr: OperandReg, dm: Mode, dr: OperandReg, z: Size) // ADD SUB AND OR EOR, and I forms
    | AluQuick(op: AluOp, imm: u32, dm: Mode, dr: OperandReg, z: Size)                 // ADDQ SUBQ
    | AluAddress(op: AluOp, sm: Mode, sr: OperandReg, dr: OperandReg, z: Size)         // ADDA SUBA
    | AluExtend(op: AluOp, m: Mode, sr: OperandReg, dr: OperandReg, z: Size)           // ADDX SUBX
    | Compare(sm: Mode, sr: OperandReg, dm: Mode, dr: OperandReg, z: Size, address: bool) // CMP CMPI CMPA
    | Tst(dm: Mode, dr: OperandReg, z: Size)
    | Clr(dm: Mode, dr: OperandReg, z: Size)
    | Neg(dm: Mode, dr: OperandReg, z: Size)
    | Move(sm: Mode, sr: OperandReg, dm: Mode, dr: OperandReg, z: Size)                // MOVE MOVEA
    | Moveq(dr: OperandReg, imm: u32)
    | Ext(dr: OperandReg, z: Size)
    | Mul(signed: bool, sm: Mode, sr: OperandReg, dr: OperandReg)
    | Div(signed: bool, sm: Mode, sr: OperandReg, dr: OperandReg)
    | BitManip(bit: BitKind, sm: Mode, sr: OperandReg, dm: Mode, dr: OperandReg)
    | BitShift(shift: ShiftKind, left: bool, count: Count, dm: Mode, dr: OperandReg, z: Size)
    | Lea(sm: Mode, sr: OperandReg, dr: OperandReg)
    | Pea(sm: Mode, sr: OperandReg)
    | Jmp(sm: Mode, sr: OperandReg)
    | Jsr(sm: Mode, sr: OperandReg)
    | Rts
    | Link(dr: OperandReg)
    | Unlk(dr: OperandReg)
    | Branch(cond: Condition, d8: byte)                                                 // BRA BSR Bcc
    | Scc(cond: Condition, dm: Mode, dr: OperandReg)
    | Nop
    | Illegal

  /** PC moved past the opcode word. */
  function Next(s: State): State {
    SetPc(s, Pc(s) + 2)
  }

  /** A silent read keeps the state, whether it returns or throws. */
  function Silent(s: State, m: Mode, r: OperandReg, z: Size): Outcome<u32> {
    match GetDataSilent(s, m, r, z)
    case Value(v) => Ok(v, s)
    case Fault(e) => Throw(e, s)
  }

  // ----- arithmetic and logic -----

  /** The 32-bit result of an operation, before it is stored at its size. */
  function Compute(op: AluOp, src: u32, dst: u32, x: bool): u32 {
    match op
    case Add => Wrap(src + dst + (if x then 1 else 0))
    case Sub => Wrap(dst - src - (if x then 1 else 0))
    case And => Wrap(BitAnd(src, dst))
    case Or => Wrap(BitOr(dst, src))
    case Eor => Wrap(BitXor(dst, src))
  }

  function LogicCodes(s: State, v: nat, z: Size): State {
    SetCodes(s, ExtendFlag(s), IsNegative(v, z), IsZero(v, z), false, false)
  }

  function ArithmeticCodes(s: State, src: u32, dst: u32, result: u32, z: Size): State {
    SetCodes(s, IsCarry(result, z), IsNegative(result, z), IsZero(result, z), IsOverflow(src, dst, z),
             IsCarry(result, z))
  }

  function AluCodes(s: State, op: AluOp, src: u32, dst: u32, result: u32, z: Size): State {
    if op.Add? || op.Sub? then ArithmeticCodes(s, src, dst, result, z) else LogicCodes(s, result, z)
  }

  /** ADDX and SUBX: Z is only ever cleared. */
  function ExtendCodes(s: State, src: u32, dst: u32, result: u32, z: Size): State {
    SetCodes(s, IsCarry(result, z), IsNegative(result, z), HasFlag(s.regs[SR], Zero) && IsZero(result, z),
             IsOverflow(src, dst, z), IsCarry(result, z))
  }

  function CompareCodes(s: State, src: u32, dst: u32, result: u32, z: Size): State {
    SetCodes(s, ExtendFlag(s), IsNegative(result, z), IsZero(result, z), IsOverflow(src, dst, z), IsCarry(result, z))
  }

  function ExecAlu(s0: State, op: AluOp, sm: Mode, sr: OperandReg, dm: Mode, dr: OperandReg, z: Size): Outcome<()> {
    var (src, s1) :- GetData(Next(s0), sm, sr, z);
    var (dst, _) :- Silent(s1, dm, dr, z);
    var result := Compute(op, src, dst, false);
    var (_, s2) :- SetData(s1, dm, dr, z, result);
    Ok((), AluCodes(s2, op, src, dst, result, z))
  }

  function ExecAluQuick(s0: State, op: AluOp, imm: u32, dm: Mode, dr: OperandReg, z: Size): Outcome<()> {
    var s1 := Next(s0);
    var (dst, _) :- Silent(s1, dm, dr, z);
    var result := Compute(op, imm, dst, false);
    var (_, s2) :- SetData(s1, dm, dr, z, result);
    Ok((), if dm.DirectAddr? then s2 else ArithmeticCodes(s2, imm, dst, result, z))
  }

  function ExecAluAddress(s0: State, op: AluOp, sm: Mode, sr: OperandReg, dr: OperandReg, z: Size): Outcome<()> {
    var (src, s1) :- GetData(Next(s0), sm, sr, z);
    var (dst, _) :- Silent(s1, DirectAddr, dr, z);
    SetData(s1, DirectAddr, dr, z, Compute(op, src, dst, false))
  }

  function ExecAluExtend(s0: State, op: AluOp, m: Mode, sr: OperandReg, dr: OperandReg, z: Size): Outcome<()> {
    var x := ExtendFlag(s0);
    var (src, s1) :- GetData(Next(s0), m, sr, z);
    var (dst, _) :- Silent(s1, m, dr, z);
    var result := Compute(op, src, dst, x);
    var (_, s2) :- SetData(s1, m, dr, z, result);
    Ok((), ExtendCodes(s2, src, dst, result, z))
  }

  function ExecCompare(s0: State, sm: Mode, sr: OperandReg, dm: Mode, dr: OperandReg, z: Size,
                       address: bool): Outcome<()> {
    var (v, s1) :- GetData(Next(s0), sm, sr, z);
    var src := if address && z == Word then Wrap(Signed(v, Word)) else v;
    var (dst, s2) :- GetData(s1, dm, dr, z);
    Ok((), CompareCodes(s2, src, dst, Compute(Sub, src, dst, false), z))
  }

  function ExecTst(s0: State, m: Mode, r: OperandReg, z: Size): Outcome<()> {
    var (v, s1) :- GetData(Next(s0), m, r, z);
    Ok((), LogicCodes(s1, v, z))
  }

  function ExecClr(s0: State, m: Mode, r: OperandReg, z: Size): Outcome<()> {
    var (_, s1) :- SetData(Next(s0), m, r, z, 0);
    Ok((), LogicCodes(s1, 0, z))
  }

  function ExecNeg(s0: State, m: Mode, r: OperandReg, z: Size): Outcome<()> {
    var s1 := Next(s0);
    var (dst, _) :- Silent(s1, m, r, z);
    var result := Compute(Sub, dst, 0, false);
    var (_, s2) :- SetData(s1, m, r, z, result);
    Ok((), ArithmeticCodes(s2, 0, dst, result, z))
  }

  // ----- data movement -----

  function MoveCodes(s: State, v: u32, z: Size): State {
    SetCodes(s, ExtendFlag(s), IsNegative(v, z), v == 0, false, false)
  }

  function ExecMove(s0: State, sm: Mode, sr: OperandReg, dm: Mode, dr: OperandReg, z: Size): Outcome<()> {
    var (v, s1) :- GetData(Next(s0), sm, sr, z);
    var (_, s2) :- SetData(s1, dm, dr, z, v);
    Ok((), MoveCodes(s2, v, z))
  }

  /** MOVEA: a word is sign-extended, the whole register is written, and no code changes. */
  function ExecMovea(s0: State, sm: Mode, sr: OperandReg, dr: OperandReg, z: Size): Outcome<()> {
    var (v, s1) :- GetData(Next(s0), sm, sr, z);
    SetData(s1, DirectAddr, dr, Long, if z == Word then Wrap(Signed(v, Word)) else v)
  }

  function ExecMoveq(s0: State, r: OperandReg, imm: u32): Outcome<()> {
    Ok((), LogicCodes(SetReg(Next(s0), r, Long, imm), imm, Long))
  }

  /** EXT: the long form also extends from the low byte, as the source does. */
  function ExecExt(s0: State, r: OperandReg, z: Size): Outcome<()> {
    var s1 := Next(s0);
    var result := Truncate(Wrap(Signed(RegGet(s1.regs, r, Byte), Byte)), z);
    Ok((), LogicCodes(SetReg(s1, r, z, result), result, z))
  }

  function Product(signed: bool, src: u32, dst: u32): u32 {
    if signed then Wrap(Signed(src, Word) * Signed(dst, Word)) else Wrap(src * dst)
  }

  function ExecMul(s0: State, signed: bool, sm: Mode, sr: OperandReg, dr: OperandReg): Outcome<()> {
    var (src, s1) :- GetData(Next(s0), sm, sr, Word);
    var dst := RegGet(s1.regs, dr, Word);
    var result := Product(signed, src, dst);
    Ok((), LogicCodes(SetReg(s1, dr, Long, result), result, Long))
  }

  /** Division rounding toward zero. */
  function Quotient(a: int, b: int): int
    requires b != 0
  {
    if a >= 0 then a / b else -((-a) / b)
  }

  function Divide(signed: bool, src: u32, dst: u32): u32
    requires Truncate(src, Word) != 0
  {
    var a := if signed then Signed(dst, Word) else Truncate(dst, Word) as int;
    var b := if signed then Signed(src, Word) else Truncate(src, Word) as int;
    var q := Quotient(a, b);
    q % 0x1_0000 + 0x1_0000 * ((a - b * q) % 0x1_0000)
  }

  function ExecDiv(s0: State, signed: bool, sm: Mode, sr: OperandReg, dr: OperandReg): Outcome<()> {
    var (src, s1) :- GetData(Next(s0), sm, sr, Word);
    var dst := RegGet(s1.regs, dr, Word);
    if Truncate(src, Word) == 0 then Undefined
    else
      var result := Divide(signed, src, dst);
      Ok((), LogicCodes(SetReg(s1, dr, Long, result), result, Word))
  }

  // ----- bits -----

  function BitSize(dm: Mode): Size {
    if dm.DirectData? then Long else Byte
  }

  predicate BitAt(v: nat, k: nat) {
    Shr(v, k) % 2 == 1
  }

  function BitResult(bit: BitKind, v: u32, k: nat): u32 {
    var on := BitAt(v, k);
    match bit
    case Test => v
    case Change => Wrap(if on then v - Pow2(k) else v + Pow2(k))
    case Clear => Wrap(if on then v - Pow2(k) else v)
    case SetBit => Wrap(if on then v else v + Pow2(k))
  }

  function ZeroCode(s: State, on: bool): State {
    SetCodes(s, ExtendFlag(s), HasFlag(s.regs[SR], Negative), on, HasFlag(s.regs[SR], Overflow),
             HasFlag(s.regs[SR], Carry))
  }

  function ExecBitManip(s0: State, bit: BitKind, sm: Mode, sr: OperandReg, dm: Mode, dr: OperandReg): Outcome<()> {
    var z := BitSize(dm);
    var (n, s1) :- GetData(Next(s0), sm, sr, z);
    var k := n % (if z == Long then 32 else 8);
    var (dst, _) :- Silent(s1, dm, dr, z);
    var (_, s2) :- SetData(s1, dm, dr, z, BitResult(bit, dst, k));
    Ok((), ZeroCode(s2, !BitAt(dst, k)))
  }

  datatype Shifted = Shifted(result: nat, c: bool, x: bool) | OutOfRangeCount

  function ShiftWidth(z: Size): nat {
    8 * Bytes(z)
  }

  /** The top k bits of a uint64_t, set for an arithmetic right shift of a negative value. */
  function SignFill(kind: ShiftKind, z: Size, v: u32, k: nat): nat
    requires k < 64
  {
    if kind.Arithmetic? && IsNegative(v, z) then Shl(Pow2(k) - 1, 64 - k) else 0
  }

  /** Result and carry codes of a shift; the count is out of range where the source shifts a
      uint64_t by 64 or more. */
  function ShiftUnit(kind: ShiftKind, left: bool, z: Size, v: u32, k: nat, c: bool, x: bool): Shifted
    requires k < 64
  {
    var n := ShiftWidth(z);
    match kind
    case Rotate =>
      if left then
        if k > 8 then OutOfRangeCount
        else Shifted(if RotateLeft(v, k, n) != 0 then 1 else 0, Shr(v, 8 - k) != 0, x)
      else
        if k > 9 || k > n then OutOfRangeCount
        else Shifted(if RotateRight(v, k, n) != 0 then 1 else 0, Shl(v, 9 - k) != 0, x)
    case RotateExtend =>
      if k > n + 1 then OutOfRangeCount
      else
        var carry := if c then Pow2(n) else 0;
        var r := if left then RotateLeft(BitOr(v, carry), k, n + 1) else RotateRight(carry, k, n + 1);
        var out := Shr(r, if z == Byte then 0 else if z == Word then 8 else 24) != 0;
        Shifted(r, out, out)
    case _ =>
      if left then
        var r := Shl(v, k);
        Shifted(r, r % 2 == 1, r % 2 == 1)
      else if k == 0 then OutOfRangeCount
      else
        var out := Shr(v, k - 1) % 2 == 1;
        Shifted(BitOr(Shr(v, k), SignFill(kind, z, v, k)), out, out)
  }

  function ShiftCount(s: State, count: Count, z: Size): (k: nat)
    ensures k < 64
  {
    (match count case Fixed(n) => n case InReg(r) => RegGet(s.regs, r, z)) % 64
  }

  function ShiftCodes(s: State, u: Shifted, z: Size): Outcome<()> {
    match u
    case OutOfRangeCount => Undefined
    case Shifted(result, c, x) => Ok((), SetCodes(s, x, IsNegative(result, z), IsZero(result, z), false, c))
  }

  /** Shifts set the codes and move PC past the opcode only: the result is never stored. */
  function ExecBitShift(s0: State, kind: ShiftKind, left: bool, count: Count, dm: Mode, dr: OperandReg,
                        z: Size): Outcome<()> {
    var s1 := Next(s0);
    var (v, _) :- Silent(s1, dm, dr, z);
    ShiftCodes(s1, ShiftUnit(kind, left, z, v, ShiftCount(s1, count, z), HasFlag(s1.regs[SR], Carry), ExtendFlag(s1)),
               z)
  }

  // ----- control flow and frames -----

  function ExecLea(s0: State, m: Mode, r: OperandReg, dr: OperandReg): Outcome<()> {
    var (a, s1) :- GetControlAddress(Next(s0), m, r);
    SetData(s1, DirectAddr, dr, Long, a)
  }

  function ExecPea(s0: State, m: Mode, r: OperandReg): Outcome<()> {
    var (a, s1) :- GetControlAddress(Next(s0), m, r);
    StackPush(s1, Long, a)
  }

  function ExecJmp(s0: State, m: Mode, r: OperandReg): Outcome<()> {
    var (a, s1) :- GetControlAddress(Next(s0), m, r);
    Ok((), SetPc(s1, a))
  }

  function ExecJsr(s0: State, m: Mode, r: OperandReg): Outcome<()> {
    var (a, s1) :- GetControlAddress(Next(s0), m, r);
    var (_, s2) :- StackPush(s1, Long, Pc(s1));
    Ok((), SetPc(s2, a))
  }

  function ExecRts(s0: State): Outcome<()> {
    var (a, s1) :- StackPop(s0, Long);
    Ok((), SetPc(s1, a))
  }

  function ExecLink(s0: State, r: OperandReg): Outcome<()> {
    var pc := Pc(s0);
    var (d, s1) :- Load(s0, Wrap(pc + 2), Word);
    var (_, s2) :- StackPush(SetPc(s1, pc + 4), Long, Reg32(s1, r));
    var sp := Reg32(s2, A7);
    Ok((), SetReg(SetReg(s2, r, Long, sp), A7, Long, Wrap(sp + Signed(d, Word))))
  }

  function ExecUnlk(s0: State, r: OperandReg): Outcome<()> {
    var s1 := Next(s0);
    var (v, s2) :- StackPop(SetReg(s1, A7, Long, Reg32(s1, r)), Long);
    Ok((), SetReg(s2, r, Long, v))
  }

  function BranchSize(d8: byte): Size {
    if d8 == 0 then Word else if d8 == 0xFF then Long else Byte
  }

  function BranchDisplacement(s: State, d8: byte): Outcome<int> {
    var z := BranchSize(d8);
    if z == Byte then Ok(Signed(d8, Byte), s)
    else
      var (v, s1) :- GetData(s, Immediate, 0, z);
      Ok(Signed(v, z), s1)
  }

  /** BRA for condition True, BSR for False, Bcc otherwise. BSR pushes the address after the
      opcode word, whatever the length of its displacement. */
  function ExecBranch(s0: State, cond: Condition, d8: byte): Outcome<()> {
    var pc := Wrap(Pc(s0) + 2);
    var (d, s1) :- BranchDisplacement(Next(s0), d8);
    match cond
    case True => Ok((), SetPc(s1, pc + d))
    case False =>
      var (_, s2) :- StackPush(s1, Long, pc);
      Ok((), SetPc(s2, pc + d))
    case _ => Ok((), if CheckCondition(s1, cond) then SetPc(s1, pc + d) else s1)
  }

  function ExecScc(s0: State, cond: Condition, m: Mode, r: OperandReg): Outcome<()> {
    var s1 := Next(s0);
    SetData(s1, m, r, Byte, if CheckCondition(s1, cond) then 0xFF else 0)
  }

  function Execute(i: Instr, s: State): Outcome<()> {
    match i
    case Alu(op, sm, sr, dm, dr, z) => ExecAlu(s, op, sm, sr, dm, dr, z)
    case AluQuick(op, imm, dm, dr, z) => ExecAluQuick(s, op, imm, dm, dr, z)
    case AluAddress(op, sm, sr, dr, z) => ExecAluAddress(s, op, sm, sr, dr, z)
    case AluExtend(op, m, sr, dr, z) => ExecAluExtend(s, op, m, sr, dr, z)
    case Compare(sm, sr, dm, dr, z, address) => ExecCompare(s, sm, sr, dm, dr, z, address)
    case Tst(dm, dr, z) => ExecTst(s, dm, dr, z)
    case Clr(dm, dr, z) => ExecClr(s, dm, dr, z)
    case Neg(dm, dr, z) => ExecNeg(s, dm, dr, z)
    case Move(sm, sr, dm, dr, z) =>
      if dm.DirectAddr? then ExecMovea(s, sm, sr, dr, z) else ExecMove(s, sm, sr, dm, dr, z)
    case Moveq(dr, imm) => ExecMoveq(s, dr, imm)
    case Ext(dr, z) => ExecExt(s, dr, z)
    case Mul(signed, sm, sr, dr) => ExecMul(s, signed, sm, sr, dr)
    case Div(signed, sm, sr, dr) => ExecDiv(s, signed, sm, sr, dr)
    case BitManip(bit, sm, sr, dm, dr) => ExecBitManip(s, bit, sm, sr, dm, dr)
    case BitShift(kind, left, count, dm, dr, z) => ExecBitShift(s, kind, left, count, dm, dr, z)
    case Lea(sm, sr, dr) => ExecLea(s, sm, sr, dr)
    case Pea(sm, sr) => ExecPea(s, sm, sr)
    case Jmp(sm, sr) => ExecJmp(s, sm, sr)
    case Jsr(sm, sr) => ExecJsr(s, sm, sr)
    case Rts => ExecRts(s)
    case Link(dr) => ExecLink(s, dr)
    case Unlk(dr) => ExecUnlk(s, dr)
    case Branch(cond, d8) => ExecBranch(s, cond, d8)
    case Scc(cond, dm, dr) => ExecScc(s, cond, dm, dr)
    case Nop => Ok((), Next(s))
    case Illegal => Throw(InvalidOpcode, Next(s))
  }
}
