// What single instructions leave in their destination, told without their own formulas: the
// read-modify-write family as sums, differences and bits, bit instructions bit by bit, moves and
// the conditions after them, and instructions against one another.
// (src/instructions/add.cpp, sub.cpp, move.cpp, bit_manip.cpp, scc.cpp, bcc.cpp, pea.cpp, lea.cpp)

module Effects {
  import opened Helpers
  import opened Memory
  import opened Registers
  import opened CpuState
  import opened Instructions
  import opened Addressing
  import opened Branching
  import opened Conditions

  // ----- single bits -----

  /** Adding a bit that is clear sets it and no other. */
  lemma {:induction false} BitAdded(v: nat, k: nat, j: nat)
    requires !BitAt(v, k)
    ensures BitAt(v + Pow2(k), j) <==> j == k || BitAt(v, j)
  {
    var w := v + Pow2(k);
    if k == 0 {
      assert w / 2 == v / 2;
    } else {
      assert w / 2 == v / 2 + Pow2(k - 1) && w % 2 == v % 2;
      if j > 0 {
        BitAdded(v / 2, k - 1, j - 1);
      }
    }
  }

  /** A field of n bits with bit k clear has room for it. */
  lemma {:induction false} BitFits(v: nat, k: nat, n: nat)
    requires v < Pow2(n) && k < n && !BitAt(v, k)
    ensures v + Pow2(k) < Pow2(n)
  {
    if k > 0 {
      BitFits(v / 2, k - 1, n - 1);
    }
  }

  /** A bit that is set can be taken away. */
  lemma {:induction false} BitRemoved(v: nat, k: nat)
    requires BitAt(v, k)
    ensures v >= Pow2(k) && !BitAt(v - Pow2(k), k)
  {
    if k > 0 {
      BitRemoved(v / 2, k - 1);
      assert (v - Pow2(k)) / 2 == v / 2 - Pow2(k - 1);
    }
  }

  /** BTST, BCHG, BCLR and BSET leave every other bit alone and do to bit k what their name says. */
  lemma BitsAfter(bit: BitKind, v: u32, k: nat, n: nat, j: nat)
    requires k < n <= 32 && v < Pow2(n) && Pow2(n) <= 0x1_0000_0000
    ensures BitResult(bit, v, k) < Pow2(n)
    ensures BitAt(BitResult(bit, v, k), j)
            <==> if j != k || bit.Test? then BitAt(v, j) else bit.SetBit? || (bit.Change? && !BitAt(v, k))
  {
    hide BitAt, Pow2;
    if BitAt(v, k) {
      BitRemoved(v, k);
      BitAdded(v - Pow2(k), k, j);
      WrapSmall(v - Pow2(k));
    } else {
      BitAdded(v, k, j);
      BitFits(v, k, n);
      WrapSmall(v + Pow2(k));
    }
    WrapSmall(v);
    hide Wrap;
  }

  /** BCHG twice restores the operand. */
  lemma ChangeTwice(v: u32, k: nat, n: nat)
    requires k < n <= 32 && v < Pow2(n) && Pow2(n) <= 0x1_0000_0000
    ensures BitResult(Change, BitResult(Change, v, k), k) == v
  {
    hide BitAt, Pow2;
    if BitAt(v, k) {
      BitRemoved(v, k);
      WrapSmall(v - Pow2(k));
    } else {
      BitAdded(v, k, k);
      BitFits(v, k, n);
      WrapSmall(v + Pow2(k));
    }
    WrapSmall(v);
    hide Wrap;
  }

  lemma PowModulus(z: Size)
    ensures Pow2(8 * Bytes(z)) == Modulus(z)
  {
    assert Pow2(8) == 0x100;
    assert Pow2(12) == 0x1000;
    assert Pow2(16) == 0x1_0000;
    assert Pow2(20) == 0x10_0000;
    assert Pow2(24) == 0x100_0000;
    assert Pow2(28) == 0x1000_0000;
  }

  /** A bit instruction on any alterable operand: one bit of the operand's cell, numbered modulo the
      size, is changed as the instruction says, the others are kept, and Z is the old bit's complement. */
  lemma BitManipWrites(s: State, bit: BitKind, sm: Mode, sr: OperandReg, dm: Mode, dr: OperandReg)
    requires IsDataAlterable(dm) && ExecBitManip(s, bit, sm, sr, dm, dr).Ok?
    ensures var t, z := ExecBitManip(s, bit, sm, sr, dm, dr).state, BitSize(dm);
            var a := GetData(Next(s), sm, sr, z);
            && a.Ok? && Locus(a.state, dm, dr, z).Value?
            && var k, c := a.value % (8 * Bytes(z)), Locus(a.state, dm, dr, z).value;
            && ReadCell(a.state, c, z).Value? && ReadCell(t, c, z).Value?
            && var before, after := ReadCell(a.state, c, z).value, ReadCell(t, c, z).value;
            && (forall j :: 0 <= j ==>
                  (BitAt(after, j) <==>
                   if j != k || bit.Test? then BitAt(before, j)
                   else bit.SetBit? || (bit.Change? && !BitAt(before, k))))
            && HasFlag(t.regs[SR], Zero) == !BitAt(before, k)
            && CodesBesideZero(s, t) && Wrote(a.state, t, dm, dr, z, c, after)
  {
    assert Next(s).regs[SR] == s.regs[SR];
    FlagsKept(Next(s), sm, sr, BitSize(dm));
    var z, a := BitSize(dm), GetData(Next(s), sm, sr, BitSize(dm));
    var n := 8 * Bytes(z);
    assert n == if z == Long then 32 else 8;
    PowModulus(z);
    hide BitSize, GetData, GetDataSilent, SetData, Next, Locus, ReadCell, WriteCell, Moved, BitAt, HasFlag, WithCodes;
    hide Pow2, BitResult, Wrote, CodesBesideZero, Alike;
    var k := a.value % n;
    var dst := GetDataSilent(a.state, dm, dr, z).value;
    OperandBound(a.state, dm, dr, z);
    forall j: nat ensures BitResult(bit, dst, k) < Pow2(n)
      ensures BitAt(BitResult(bit, dst, k), j)
              <==> if j != k || bit.Test? then BitAt(dst, j) else bit.SetBit? || (bit.Change? && !BitAt(dst, k))
    {
      BitsAfter(bit, dst, k, n, j);
    }
    var result := BitResult(bit, dst, k);
    ReadModifyWrite(a.state, dm, dr, z, result);
    FitsWhole(result, z);
    var u := SetData(a.state, dm, dr, z, result).state;
    FlagsKeptBySet(a.state, dm, dr, z, result);
    ZeroRead(u, !BitAt(dst, k));
    ZeroBeside(s, u, !BitAt(dst, k));
    WroteBy(a.state, ZeroCode(u, !BitAt(dst, k)), dm, dr, z, result);
  }

  /** The codes other than Z are the same. */
  ghost predicate CodesBesideZero(s: State, t: State) {
    forall f: Flag :: f != Zero ==> HasFlag(t.regs[SR], f) == HasFlag(s.regs[SR], f)
  }

  lemma ZeroBeside(s: State, u: State, on: bool)
    requires u.regs[SR] == s.regs[SR]
    ensures CodesBesideZero(s, ZeroCode(u, on))
  {
    CodesRead(u.regs[SR], ExtendFlag(u), HasFlag(u.regs[SR], Negative), on, HasFlag(u.regs[SR], Overflow),
              HasFlag(u.regs[SR], Carry));
    hide WithCodes, HasFlag;
  }

  lemma ZeroRead(s: State, on: bool)
    ensures HasFlag(ZeroCode(s, on).regs[SR], Zero) == on && Alike(s, ZeroCode(s, on)) && Pc(ZeroCode(s, on)) == Pc(s)
  {
    CodesRead(s.regs[SR], ExtendFlag(s), HasFlag(s.regs[SR], Negative), on, HasFlag(s.regs[SR], Overflow),
              HasFlag(s.regs[SR], Carry));
    hide WithCodes, HasFlag;
  }

  // ----- the read-modify-write family -----

  function Bitwise(op: AluOp, a: nat, b: nat): nat
    requires op.And? || op.Or? || op.Eor?
  {
    if op.And? then BitAnd(a, b) else if op.Or? then BitOr(a, b) else BitXor(a, b)
  }

  predicate OnBits(op: AluOp, p: bool, q: bool) {
    if op.And? then p && q else if op.Or? then p || q else p != q
  }

  lemma BitwiseHalf(op: AluOp, a: nat, b: nat)
    requires op.And? || op.Or? || op.Eor?
    ensures Bitwise(op, a, b) / 2 == Bitwise(op, a / 2, b / 2)
    ensures Bitwise(op, a, b) % 2 == 1 <==> OnBits(op, a % 2 == 1, b % 2 == 1)
  {
  }

  /** A bitwise operation works on each bit alone and stays inside the field of its operands. */
  lemma {:induction false} BitwiseBits(op: AluOp, a: nat, b: nat, n: nat, j: nat)
    requires op.And? || op.Or? || op.Eor?
    requires a < Pow2(n) && b < Pow2(n)
    ensures Bitwise(op, a, b) < Pow2(n)
    ensures BitAt(Bitwise(op, a, b), j) <==> OnBits(op, BitAt(a, j), BitAt(b, j))
  {
    BitwiseHalf(op, a, b);
    if n > 0 {
      BitwiseBits(op, a / 2, b / 2, n - 1, if j > 0 then j - 1 else 0);
      hide Bitwise;
    } else {
      ZeroBits(j);
    }
  }

  lemma {:induction false} ZeroBits(j: nat)
    ensures !BitAt(0, j)
  {
    if j > 0 {
      ZeroBits(j - 1);
    }
  }

  /** What r means as the result of an operation on numbers of one size. */
  ghost predicate Means(op: AluOp, src: nat, dst: nat, r: nat, z: Size) {
    match op
    case Add => r == if src + dst < Modulus(z) then src + dst else src + dst - Modulus(z)
    case Sub => r == if dst >= src then dst - src else dst - src + Modulus(z)
    case _ => forall j: nat :: BitAt(r, j) <==> OnBits(op, BitAt(src, j), BitAt(dst, j))
  }

  lemma ComputeMeans(op: AluOp, src: u32, dst: u32, z: Size)
    requires src < Modulus(z) && dst < Modulus(z)
    ensures Means(op, src, dst, Truncate(Compute(op, src, dst, false), z), z)
  {
    hide Wrap, Truncate, BitAt;
    match op
    case Add => Wrapped(src + dst, z);
    case Sub => Wrapped(dst - src, z);
    case _ =>
      PowModulus(z);
      hide Pow2, BitAnd, BitOr, BitXor;
      BitwiseCommutes(op, src, dst);
      forall j: nat ensures BitAt(Bitwise(op, src, dst), j) <==> OnBits(op, BitAt(src, j), BitAt(dst, j)) {
        BitwiseBits(op, src, dst, 8 * Bytes(z), j);
      }
      BitwiseBits(op, src, dst, 8 * Bytes(z), 0);
      WrapSmall(Bitwise(op, src, dst));
      FitsWhole(Bitwise(op, src, dst), z);
  }

  lemma {:induction false} BitwiseCommutes(op: AluOp, a: nat, b: nat)
    requires op.And? || op.Or? || op.Eor?
    ensures Bitwise(op, a, b) == Bitwise(op, b, a)
    decreases a + b
  {
    if a > 0 || b > 0 {
      BitwiseHalf(op, a, b);
      BitwiseHalf(op, b, a);
      BitwiseCommutes(op, a / 2, b / 2);
    }
  }

  /** The tests of the signed conditions compare v with zero, and V and C are clear. */
  ghost predicate TestsAgainstZero(t: State, v: nat, z: Size) {
    && (CheckCondition(t, Equal) <==> Truncate(v, z) == 0) && (CheckCondition(t, NotEqual) <==> Truncate(v, z) != 0)
    && (CheckCondition(t, LessThan) <==> Signed(v, z) < 0) && (CheckCondition(t, GreaterEqual) <==> Signed(v, z) >= 0)
    && (CheckCondition(t, GreaterThan) <==> Signed(v, z) > 0) && (CheckCondition(t, LessEqual) <==> Signed(v, z) <= 0)
    && !CheckCondition(t, CarrySet) && !CheckCondition(t, OverflowSet)
    && SignTests(t, Truncate(v, z), z)
  }

  lemma LogicRead(s: State, v: nat, z: Size)
    requires v < 0x1_0000_0000
    ensures var t := LogicCodes(s, v, z);
            && Alike(s, t) && Pc(t) == Pc(s) && ExtendFlag(t) == ExtendFlag(s) && TestsAgainstZero(t, v, z)
  {
    CodesRead(s.regs[SR], ExtendFlag(s), IsNegative(v, z), IsZero(v, z), false, false);
    SignRead(s, ExtendFlag(s), IsNegative(v, z), IsZero(v, z), false, false, v, z);
    HighBit(v, z);
    hide WithCodes, HasFlag, IsNegative, Truncate, SignTests;
  }

  lemma TestsOfTruncated(t: State, v: u32, w: u32, z: Size)
    requires Truncate(v, z) == Truncate(w, z)
    ensures TestsAgainstZero(t, v, z) == TestsAgainstZero(t, w, z) && Signed(v, z) == Signed(w, z)
  {
    hide CheckCondition, Truncate;
  }

  /** What the tests say after an operation on src and dst that leaves r. */
  ghost predicate ResultTests(s: State, t: State, op: AluOp, src: u32, dst: u32, r: u32, z: Size) {
    match op
    case Add => SumTests(t, src, dst, z)
    case Sub => SubtractTests(t, src, dst, z)
    case _ => TestsAgainstZero(t, r, z) && ExtendFlag(t) == ExtendFlag(s)
  }

  lemma ResultRead(u: State, op: AluOp, src: u32, dst: u32, z: Size)
    requires src < Modulus(z) && dst < Modulus(z)
    ensures var v := Compute(op, src, dst, false);
            ResultTests(u, AluCodes(u, op, src, dst, v, z), op, src, dst, Truncate(v, z), z)
  {
    hide Compute, LogicCodes, ArithmeticCodes, SumTests, SubtractTests, TestsAgainstZero, Truncate, ExtendFlag;
    var v := Compute(op, src, dst, false);
    AddFlags(u, src, dst, z);
    SubtractFlags(u, src, dst, z);
    LogicRead(u, v, z);
    FitsWhole(Truncate(v, z), z);
    TestsOfTruncated(LogicCodes(u, v, z), v, Truncate(v, z), z);
  }

  /** ADD, SUB, AND, OR, EOR and their immediate forms, on every alterable destination: the cell
      the operand denotes ends up with the sum or difference modulo the size, or the bitwise result,
      and the codes with its tests. */
  lemma AluStores(s: State, op: AluOp, sm: Mode, sr: OperandReg, dm: Mode, dr: OperandReg, z: Size)
    requires IsMemoryAlterable(dm) && ExecAlu(s, op, sm, sr, dm, dr, z).Ok?
    ensures var t, a := ExecAlu(s, op, sm, sr, dm, dr, z).state, GetData(Next(s), sm, sr, z);
            && a.Ok? && Locus(a.state, dm, dr, z).Value?
            && var c := Locus(a.state, dm, dr, z).value;
            && ReadCell(a.state, c, z).Value? && ReadCell(t, c, z).Value?
            && Means(op, a.value, ReadCell(a.state, c, z).value, ReadCell(t, c, z).value, z)
            && ResultTests(s, t, op, a.value, ReadCell(a.state, c, z).value, ReadCell(t, c, z).value, z)
            && Wrote(a.state, t, dm, dr, z, c, ReadCell(t, c, z).value)
  {
    assert Next(s).regs[SR] == s.regs[SR];
    FlagsKept(Next(s), sm, sr, z);
    hide GetData, GetDataSilent, SetData, Next, Locus, ReadCell, WriteCell, Moved, Compute, Means, AluCodes, Truncate;
    hide SumTests, SubtractTests, TestsAgainstZero, Wrote, Alike;
    var a := GetData(Next(s), sm, sr, z);
    OperandBound(Next(s), sm, sr, z);
    OperandBound(a.state, dm, dr, z);
    var dst := GetDataSilent(a.state, dm, dr, z).value;
    var result := Compute(op, a.value, dst, false);
    ComputeMeans(op, a.value, dst, z);
    ReadModifyWrite(a.state, dm, dr, z, result);
    var u := SetData(a.state, dm, dr, z, result).state;
    FlagsAside(u, op, a.value, dst, result, z);
    FlagsKeptBySet(a.state, dm, dr, z, result);
    ResultRead(u, op, a.value, dst, z);
    WroteBy(a.state, AluCodes(u, op, a.value, dst, result, z), dm, dr, z, result);
  }

  lemma FlagsAside(s: State, op: AluOp, src: u32, dst: u32, result: u32, z: Size)
    ensures Alike(s, AluCodes(s, op, src, dst, result, z)) && Pc(AluCodes(s, op, src, dst, result, z)) == Pc(s)
  {
    hide HasFlag, WithCodes, IsNegative, IsZero, IsCarry, IsOverflow;
    CodesRead(s.regs[SR], IsCarry(result, z), IsNegative(result, z), IsZero(result, z), IsOverflow(src, dst, z),
              IsCarry(result, z));
    CodesRead(s.regs[SR], ExtendFlag(s), IsNegative(result, z), IsZero(result, z), false, false);
  }

  // ----- moves -----

  lemma MoveLogic(s: State, v: u32, z: Size)
    requires v < Modulus(z)
    ensures MoveCodes(s, v, z) == LogicCodes(s, v, z)
  {
    FitsWhole(v, z);
    hide SetCodes;
  }

  /** MOVE copies the source into the destination's cell; the conditions then compare the value
      with zero, V and C are clear and X is kept. */
  lemma MoveCopies(s: State, sm: Mode, sr: OperandReg, dm: Mode, dr: OperandReg, z: Size)
    requires IsMemoryAlterable(dm) && !dm.DirectAddr? && ExecMove(s, sm, sr, dm, dr, z).Ok?
    ensures var t, a := ExecMove(s, sm, sr, dm, dr, z).state, GetData(Next(s), sm, sr, z);
            && a.Ok? && Locus(a.state, dm, dr, z).Value?
            && ReadCell(t, Locus(a.state, dm, dr, z).value, z) == Value(a.value)
            && TestsAgainstZero(t, a.value, z) && ExtendFlag(t) == ExtendFlag(s)
            && Wrote(a.state, t, dm, dr, z, Locus(a.state, dm, dr, z).value, a.value)
  {
    assert Next(s).regs[SR] == s.regs[SR];
    hide GetData, GetDataSilent, SetData, Next, Locus, ReadCell, WriteCell, Moved, MoveCodes, LogicCodes;
    hide TestsAgainstZero;
    hide HasFlag, Alike, Wrote;
    var a := GetData(Next(s), sm, sr, z);
    var v := a.value;
    OperandBound(Next(s), sm, sr, z);
    FitsWhole(v, z);
    ReadModifyWrite(a.state, dm, dr, z, v);
    var u := SetData(a.state, dm, dr, z, v).state;
    MoveLogic(u, v, z);
    LogicRead(u, v, z);
    FlagsKept(Next(s), sm, sr, z);
    FlagsKeptBySet(a.state, dm, dr, z, v);
    WroteBy(a.state, MoveCodes(u, v, z), dm, dr, z, v);
  }

  /** MOVEA keeps the signed value of a word and every condition code. */
  lemma MoveaExtends(s: State, sm: Mode, sr: OperandReg, dr: OperandReg, z: Size)
    requires z != Byte && ExecMovea(s, sm, sr, dr, z).Ok?
    ensures var t, a := ExecMovea(s, sm, sr, dr, z).state, GetData(Next(s), sm, sr, z);
            && a.Ok? && Signed(Reg32(t, dr), Long) == Signed(a.value, z) && t.regs[SR] == a.state.regs[SR]
  {
    hide GetData, Next;
    var a := GetData(Next(s), sm, sr, z);
    if z == Word {
      SignExtended(a.value);
    }
    SetLong(a.state, dr, if z == Word then Wrap(Signed(a.value, Word)) else a.value);
    hide Signed, Wrap, HasFlag;
  }

  lemma SignExtended(v: u32)
    ensures Signed(Wrap(Signed(v, Word)), Long) == Signed(v, Word)
  {
    var d := Signed(v, Word);
    if d < 0 {
      Remainder(0x1_0000_0000, -1, d + 0x1_0000_0000);
    }
  }

  // ----- quick, test, clear and multiply -----

  /** ADDQ and SUBQ on any alterable destination but an address register: the sum or difference
      modulo the size, and its tests. */
  lemma QuickStores(s: State, op: AluOp, imm: u32, dm: Mode, dr: OperandReg, z: Size)
    requires (op.Add? || op.Sub?) && 1 <= imm <= 8 && IsMemoryAlterable(dm) && !dm.DirectAddr?
    requires ExecAluQuick(s, op, imm, dm, dr, z).Ok?
    ensures var t := ExecAluQuick(s, op, imm, dm, dr, z).state;
            && Locus(Next(s), dm, dr, z).Value?
            && var c := Locus(Next(s), dm, dr, z).value;
            && ReadCell(Next(s), c, z).Value? && ReadCell(t, c, z).Value?
            && Means(op, imm, ReadCell(Next(s), c, z).value, ReadCell(t, c, z).value, z)
            && ResultTests(s, t, op, imm, ReadCell(Next(s), c, z).value, ReadCell(t, c, z).value, z)
            && Wrote(Next(s), t, dm, dr, z, c, ReadCell(t, c, z).value)
  {
    hide GetDataSilent, SetData, Next, Locus, ReadCell, WriteCell, Moved, Compute, Means, ArithmeticCodes, Truncate;
    hide SumTests, SubtractTests, TestsAgainstZero, Wrote;
    OperandBound(Next(s), dm, dr, z);
    var dst := GetDataSilent(Next(s), dm, dr, z).value;
    var result := Compute(op, imm, dst, false);
    ComputeMeans(op, imm, dst, z);
    ReadModifyWrite(Next(s), dm, dr, z, result);
    var u := SetData(Next(s), dm, dr, z, result).state;
    FlagsAside(u, op, imm, dst, result, z);
    ResultRead(u, op, imm, dst, z);
    hide Alike;
    WroteBy(Next(s), ArithmeticCodes(u, imm, dst, result, z), dm, dr, z, result);
  }

  /** TST moves what reading its operand moves, and tests the operand against zero. */
  lemma TstReads(s: State, m: Mode, r: OperandReg, z: Size)
    requires ExecTst(s, m, r, z).Ok?
    ensures var t, a := ExecTst(s, m, r, z).state, GetData(Next(s), m, r, z);
            && a.Ok? && Alike(a.state, t) && Pc(t) == Pc(a.state)
            && TestsAgainstZero(t, a.value, z) && ExtendFlag(t) == ExtendFlag(s)
  {
    assert Next(s).regs[SR] == s.regs[SR];
    FlagsKept(Next(s), m, r, z);
    hide GetData, Next, LogicCodes, TestsAgainstZero, Alike, HasFlag;
    var a := GetData(Next(s), m, r, z);
    LogicRead(a.state, a.value, z);
  }

  /** CLR leaves zero in its operand's cell and the flags of a zero result. */
  lemma ClrStores(s: State, m: Mode, r: OperandReg, z: Size)
    requires IsMemoryAlterable(m) && ExecClr(s, m, r, z).Ok?
    ensures var t := ExecClr(s, m, r, z).state;
            && Locus(Next(s), m, r, z).Value? && ReadCell(t, Locus(Next(s), m, r, z).value, z) == Value(0)
            && TestsAgainstZero(t, 0, z) && ExtendFlag(t) == ExtendFlag(s)
            && Wrote(Next(s), t, m, r, z, Locus(Next(s), m, r, z).value, 0)
  {
    assert Next(s).regs[SR] == s.regs[SR];
    hide GetDataSilent, SetData, Next, Locus, ReadCell, WriteCell, Moved, LogicCodes, TestsAgainstZero, Alike, HasFlag;
    hide Wrote;
    FitsWhole(0, z);
    FlagsKeptBySet(Next(s), m, r, z, 0);
    ReadModifyWrite(Next(s), m, r, z, 0);
    var u := SetData(Next(s), m, r, z, 0).state;
    LogicRead(u, 0, z);
    WroteBy(Next(s), LogicCodes(u, 0, z), m, r, z, 0);
  }

  lemma ProductSize(a: int, b: int, m: int)
    requires m >= 0 && 0 - m <= a <= m && 0 - m <= b <= m
    ensures 0 - m * m <= a * b <= m * m
  {
    assert (m - a) * (m + b) >= 0 && (m + a) * (m - b) >= 0;
    assert (m - a) * (m - b) >= 0 && (m + a) * (m + b) >= 0;
    assert (m - a) * (m + b) + (m + a) * (m - b) == 2 * (m * m) - 2 * (a * b);
    assert (m - a) * (m - b) + (m + a) * (m + b) == 2 * (m * m) + 2 * (a * b);
  }

  /** A 32-bit number read back from its wrapped form. */
  lemma SignedWrapped(v: int)
    requires 0 - 0x8000_0000 <= v < 0x8000_0000
    ensures Signed(Wrap(v), Long) == v
  {
    Remainder(0x1_0000_0000, if v < 0 then -1 else 0, if v < 0 then v + 0x1_0000_0000 else v);
  }

  lemma WordRange(v: nat)
    ensures 0 - 0x8000 <= Signed(v, Word) < 0x8000
  {
  }

  lemma SignedProduct(src: u32, dst: u32)
    requires src < 0x1_0000 && dst < 0x1_0000
    ensures Signed(Product(true, src, dst), Long) == Signed(src, Word) * Signed(dst, Word)
  {
    WordRange(src);
    WordRange(dst);
    hide Signed, Wrap;
    var a, b := Signed(src, Word), Signed(dst, Word);
    ProductSize(a, b, 0x8000);
    SignedWrapped(a * b);
  }

  lemma UnsignedProduct(src: u32, dst: u32)
    requires src < 0x1_0000 && dst < 0x1_0000
    ensures Product(false, src, dst) == src as int * dst
  {
    hide Signed, Wrap;
    var x: int, y: int := src, dst;
    ProductSize(x, y, 0xFFFF);
    NotNegative(x, y);
    WrapSmall(x * y);
  }

  lemma NotNegative(x: int, y: int)
    requires x >= 0 && y >= 0
    ensures x * y >= 0
  {
  }

  /** No product of two words is too large for 32 bits. */
  lemma WholeProduct(signed: bool, src: u32, dst: u32)
    requires src < 0x1_0000 && dst < 0x1_0000
    ensures var p := Product(signed, src, dst);
            if signed then Signed(p, Long) == Signed(src, Word) * Signed(dst, Word) else p == src as int * dst
  {
    hide Signed, Product;
    SignedProduct(src, dst);
    UnsignedProduct(src, dst);
  }

  /** MULS and MULU leave the full product of two words, tested against zero as a long. */
  lemma MulProduct(s: State, signed: bool, sm: Mode, sr: OperandReg, dr: OperandReg)
    requires ExecMul(s, signed, sm, sr, dr).Ok?
    ensures var t, a := ExecMul(s, signed, sm, sr, dr).state, GetData(Next(s), sm, sr, Word);
            && a.Ok?
            && var src, dst, now := a.value, Reg32(a.state, dr) % 0x1_0000, Reg32(t, dr);
            && (if signed then Signed(now, Long) == Signed(src, Word) * Signed(dst, Word) else now == src as int * dst)
            && TestsAgainstZero(t, now, Long) && ExtendFlag(t) == ExtendFlag(s) && OnlyRegister(a.state, t, dr)
  {
    assert Next(s).regs[SR] == s.regs[SR];
    FlagsKept(Next(s), sm, sr, Word);
    OperandBound(Next(s), sm, sr, Word);
    var a := GetData(Next(s), sm, sr, Word);
    var dst := RegGet(a.state.regs, dr, Word);
    assert dst == Reg32(a.state, dr) % 0x1_0000;
    hide GetData, Next, LogicCodes, TestsAgainstZero, Alike, HasFlag, RegGet, Product;
    WholeProduct(signed, a.value, dst);
    var result := Product(signed, a.value, dst);
    SetLong(a.state, dr, result);
    var u := SetReg(a.state, dr, Long, result);
    LogicRead(u, result, Long);
    AlikeReg(u, LogicCodes(u, result, Long), dr);
    assert u.regs[SR] == a.state.regs[SR];
    OnlyRegisterBy(a.state, LogicCodes(u, result, Long), dr, Long, result);
    hide SetReg, Reg32, Signed, OnlyRegister;
  }

  // ----- one instruction against another -----

  /** LEA leaves its operand's address in the register, and memory, codes and the other registers alone. */
  lemma LeaLoads(s: State, m: Mode, r: OperandReg, dr: OperandReg)
    requires ExecLea(s, m, r, dr).Ok?
    ensures var t, a := ExecLea(s, m, r, dr).state, GetControlAddress(Next(s), m, r);
            && a.Ok? && Reg32(t, dr) == a.value && OnlyRegister(a.state, t, dr) && t.regs[SR] == a.state.regs[SR]
  {
    hide GetControlAddress, Next, HasFlag;
    var a := GetControlAddress(Next(s), m, r);
    SetLong(a.state, dr, a.value);
  }

  /** PEA pushes the address LEA loads, and leaves PC where LEA does. */
  lemma PeaPushesLea(s: State, m: Mode, r: OperandReg, dr: OperandReg)
    requires ExecPea(s, m, r).Ok?
    ensures var t, l := ExecPea(s, m, r).state, ExecLea(s, m, r, dr);
            && l.Ok? && Pc(t) == Pc(l.state)
            && MemGet(t.mem, Reg32(t, A7), Long) == Value(Reg32(l.state, dr))
            && Reg32(t, A7) == Wrap(Reg32(GetControlAddress(Next(s), m, r).state, A7) - 4)
  {
    hide GetControlAddress, Next, ReadAt, WriteAt, Wrap;
    var u := GetControlAddress(Next(s), m, r).state;
    var a := GetControlAddress(Next(s), m, r).value;
    SetLong(u, dr, a);
    var sp := Wrap(Reg32(u, A7) - 4);
    SetLong(u, A7, sp);
    ReadBack(u.mem, sp % 0x100_0000, Long, a);
    FitsWhole(a, Long);
    hide HasFlag;
  }

  /** Scc stores all ones if its condition holds and zero if not; ST always stores ones and SF never. */
  lemma SccStores(s: State, cond: Condition, m: Mode, r: OperandReg)
    requires IsDataAlterable(m) && ExecScc(s, cond, m, r).Ok?
    ensures var t, holds := ExecScc(s, cond, m, r).state, cond.True? || (!cond.False? && CheckCondition(s, cond));
            && Locus(Next(s), m, r, Byte).Value?
            && ReadCell(t, Locus(Next(s), m, r, Byte).value, Byte) == Value(if holds then 0xFF else 0)
            && t.regs[SR] == s.regs[SR]
            && Wrote(Next(s), t, m, r, Byte, Locus(Next(s), m, r, Byte).value, if holds then 0xFF else 0)
  {
    SameConditions(s, Next(s), cond);
    Always(Next(s));
    assert Next(s).regs[SR] == s.regs[SR];
    hide GetDataSilent, SetData, Locus, ReadCell, WriteCell, Moved, CheckCondition, Truncate, Next, Wrote;
    var v: u32 := if CheckCondition(Next(s), cond) then 0xFF else 0;
    FitsWhole(v, Byte);
    FlagsKeptBySet(Next(s), m, r, Byte, v);
    WroteBy(Next(s), ExecScc(s, cond, m, r).state, m, r, Byte, v);
  }

  /** So Scc stores ones exactly when Bcc, or BRA for ST, in the same state jumps. */
  lemma SccFollowsBranch(s: State, cond: Condition, m: Mode, r: OperandReg, d8: byte)
    requires IsDataAlterable(m) && ExecScc(s, cond, m, r).Ok? && !cond.False? && d8 != 0 && d8 != 0xFF
    ensures var t, b := ExecScc(s, cond, m, r).state, ExecBranch(s, cond, d8);
            && b.Ok? && Locus(Next(s), m, r, Byte).Value?
            && var v := ReadCell(t, Locus(Next(s), m, r, Byte).value, Byte);
            && (v == Value(0xFF) <==> Value(Pc(b.state)) == Target(s, d8))
            && (v == Value(0) <==> Pc(b.state) == After(s, d8))
  {
    hide ExecScc, ExecBranch, Locus, ReadCell, CheckCondition, After, Next;
    SccStores(s, cond, m, r);
    BranchLands(s, cond, d8);
    ShortJump(s, d8);
  }

  lemma Always(s: State)
    ensures CheckCondition(s, True) && !CheckCondition(s, False)
  {
  }

  /** JMP and JSR go to the address LEA loads. */
  lemma JumpsToLea(s: State, m: Mode, r: OperandReg, dr: OperandReg)
    ensures ExecJmp(s, m, r).Ok?
            ==> ExecLea(s, m, r, dr).Ok? && Pc(ExecJmp(s, m, r).state) == Reg32(ExecLea(s, m, r, dr).state, dr)
    ensures ExecJsr(s, m, r).Ok?
            ==> ExecLea(s, m, r, dr).Ok? && Pc(ExecJsr(s, m, r).state) == Reg32(ExecLea(s, m, r, dr).state, dr)
  {
    hide GetControlAddress, Next, StackPush, HasFlag;
    if GetControlAddress(Next(s), m, r).Ok? {
      var a, u := GetControlAddress(Next(s), m, r).value, GetControlAddress(Next(s), m, r).state;
      WrapSmall(a);
      SetLong(u, dr, a);
    }
  }

  /** BSR goes where BRA goes. */
  lemma BsrJumpsLikeBra(s: State, d8: byte)
    requires ExecBranch(s, False, d8).Ok?
    ensures ExecBranch(s, True, d8).Ok? && Pc(ExecBranch(s, False, d8).state) == Pc(ExecBranch(s, True, d8).state)
    ensures Target(s, d8) == Value(Pc(ExecBranch(s, True, d8).state))
  {
    BranchLands(s, False, d8);
    BranchLands(s, True, d8);
    hide ExecBranch, Target;
  }
}
