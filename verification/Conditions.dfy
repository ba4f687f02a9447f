// Condition codes against the arithmetic they stand for: signed tests after ADD, unsigned and
// signed tests after CMP, and ADDI undone by SUBI (section 3.2 of M68000PM/AD).

module Conditions {
  import opened Helpers
  import opened Memory
  import opened Registers
  import opened CpuState
  import opened Instructions
  import opened Addressing
  import opened Branching

  ghost predicate InRange(v: int, z: Size) {
    0 - Modulus(z) / 2 <= v < Modulus(z) / 2
  }

  lemma OperandBound(s: State, m: Mode, r: OperandReg, z: Size)
    ensures GetData(s, m, r, z).Ok? ==> GetData(s, m, r, z).value < Modulus(z)
    ensures GetDataSilent(s, m, r, z).Value? ==> GetDataSilent(s, m, r, z).value < Modulus(z)
  {
    hide IndexOffset, Signed, Wrap, Locate, ReadAt, SetReg, SetPc, Reg32;
  }

  lemma SignedIs(v: u32, z: Size)
    requires v < Modulus(z)
    ensures Signed(v, z) == if IsNegative(v, z) then v - Modulus(z) else v
  {
    HighBit(v, z);
    FitsWhole(v, z);
    hide IsNegative, Truncate;
  }

  /** Two numbers below 2h, read as signed, and their sum cut to the same width. */
  lemma SignsOfSum(h: nat, a: nat, b: nat)
    requires a < 2 * h && b < 2 * h
    ensures var t := if a + b >= 2 * h then a + b - 2 * h else a + b;
            var sum := (if a >= h then a - 2 * h else a) + (if b >= h then b - 2 * h else b);
            var o := (a >= h) == (b >= h) && (a >= h) != (t >= h);
            && (o <==> !(0 - h <= sum < h))
            && ((t >= h) != o <==> sum < 0)
            && (sum == 0 ==> t == 0)
            && (t == 0 && (t >= h) == o ==> sum == 0)
  {
  }

  /** N, Z and V of a sum, from the mathematical signed sum. */
  lemma SumCodes(src: u32, dst: u32, z: Size)
    requires src < Modulus(z) && dst < Modulus(z)
    ensures var v, sum := Compute(Add, src, dst, false), Signed(src, z) + Signed(dst, z);
            && (IsOverflow(src, dst, z) <==> !InRange(sum, z))
            && (IsNegative(v, z) != IsOverflow(src, dst, z) <==> sum < 0)
            && (sum == 0 ==> IsZero(v, z))
            && (IsZero(v, z) && IsNegative(v, z) == IsOverflow(src, dst, z) ==> sum == 0)
  {
    hide IsNegative, Signed, Wrap, Truncate, IsCarry;
    var h := Modulus(z) / 2;
    assert Modulus(z) == 2 * h;
    SignedIs(src, z);
    SignedIs(dst, z);
    HighBit(src, z);
    HighBit(dst, z);
    HighBit(Wrap(src + dst), z);
    Wrapped(src + dst, z);
    FitsWhole(src, z);
    FitsWhole(dst, z);
    SignsOfSum(h, src, dst);
    hide Modulus;
  }

  /** The tests of one code, with the complements of all: N is the top bit of a result r. */
  ghost predicate SignTests(t: State, r: int, z: Size) {
    && (CheckCondition(t, Minus) <==> r >= Modulus(z) / 2) && (CheckCondition(t, Plus) <==> r < Modulus(z) / 2)
    && CheckCondition(t, OverflowClear) == !CheckCondition(t, OverflowSet)
    && CheckCondition(t, CarryClear) == !CheckCondition(t, CarrySet)
    && CheckCondition(t, NotEqual) == !CheckCondition(t, Equal)
    && CheckCondition(t, Higher) == !(CheckCondition(t, CarrySet) || CheckCondition(t, Equal))
    && CheckCondition(t, LowerSame) == (CheckCondition(t, CarrySet) || CheckCondition(t, Equal))
    && CheckCondition(t, True) && !CheckCondition(t, False)
  }

  lemma SignRead(u: State, x: bool, n: bool, z: bool, v: bool, c: bool, r: nat, size: Size)
    requires n == IsNegative(r, size)
    ensures SignTests(SetCodes(u, x, n, z, v, c), Truncate(r, size), size)
  {
    HighBit(r, size);
    CodesRead(u.regs[SR], x, n, z, v, c);
    hide WithCodes, HasFlag, IsNegative, Truncate;
  }

  /** What the tests say after src + dst: the signed tests speak of the unwrapped signed sum, V says
      whether it left its range, and C and X are the carry out, except that a long carry is never set. */
  ghost predicate SumTests(t: State, src: u32, dst: u32, z: Size) {
    var sum, total := Signed(src, z) + Signed(dst, z), src as int + dst;
    && (CheckCondition(t, LessThan) <==> sum < 0) && (CheckCondition(t, GreaterEqual) <==> sum >= 0)
    && (CheckCondition(t, GreaterThan) <==> sum > 0) && (CheckCondition(t, LessEqual) <==> sum <= 0)
    && (CheckCondition(t, OverflowSet) <==> !InRange(sum, z))
    && (CheckCondition(t, Equal) <==> total == 0 || total == Modulus(z))
    && ((CheckCondition(t, CarrySet) <==> total >= Modulus(z)) <==> z != Long || total < Modulus(z))
    && ExtendFlag(t) == CheckCondition(t, CarrySet)
    && SignTests(t, if total < Modulus(z) then total else total - Modulus(z), z)
  }

  /** The flags ADD, ADDI and ADDQ set. */
  lemma AddFlags(u: State, src: u32, dst: u32, z: Size)
    requires src < Modulus(z) && dst < Modulus(z)
    ensures SumTests(ArithmeticCodes(u, src, dst, Compute(Add, src, dst, false), z), src, dst, z)
  {
    hide WithCodes, HasFlag, Wrap, Signed, Truncate, IsNegative, IsOverflow, IsCarry, SignTests;
    SumCodes(src, dst, z);
    Wrapped(src as int + dst, z);
    var v := Compute(Add, src, dst, false);
    SignRead(u, IsCarry(v, z), IsNegative(v, z), IsZero(v, z), IsOverflow(src, dst, z), IsCarry(v, z), v, z);
    CodesRead(u.regs[SR], IsCarry(v, z), IsNegative(v, z), IsZero(v, z), IsOverflow(src, dst, z), IsCarry(v, z));
  }

  /** ADD and ADDI at every size, even where the result wraps. */
  lemma ConditionsAfterAdd(s: State, sm: Mode, sr: OperandReg, dm: Mode, dr: OperandReg, z: Size)
    requires ExecAlu(s, Add, sm, sr, dm, dr, z).Ok?
    ensures var t, a := ExecAlu(s, Add, sm, sr, dm, dr, z).state, GetData(Next(s), sm, sr, z);
            && a.Ok? && GetDataSilent(a.state, dm, dr, z).Value?
            && SumTests(t, a.value, GetDataSilent(a.state, dm, dr, z).value, z)
  {
    hide GetData, GetDataSilent, SetData, SumTests, ArithmeticCodes, Compute, Next;
    var a := GetData(Next(s), sm, sr, z);
    OperandBound(Next(s), sm, sr, z);
    OperandBound(a.state, dm, dr, z);
    var src, dst := a.value, GetDataSilent(a.state, dm, dr, z).value;
    AddFlags(SetData(a.state, dm, dr, z, Compute(Add, src, dst, false)).state, src, dst, z);
  }

  // ----- compare -----

  lemma DifferenceIs(h: nat, src: nat, dst: nat)
    requires src < 2 * h && dst < 2 * h
    ensures var t := if dst < src then dst + 2 * h - src else dst - src;
            var x, y := (if src >= h then src - 2 * h else src), (if dst >= h then dst - 2 * h else dst);
            && (t == 0 <==> dst == src) && (x == y <==> src == dst)
            && ((t >= h) == (y - x < 0) <==> 0 - h <= y - x < h)
            && (0 - h <= y - x < h || 0 - h <= x + y < h)
  {
  }

  /** The codes CMP, SUB and SUBI compute, against the operands as unsigned and as signed numbers. */
  lemma DifferenceCodes(src: u32, dst: u32, z: Size)
    requires src < Modulus(z) && dst < Modulus(z)
    ensures var v, x, y := Compute(Sub, src, dst, false), Signed(src, z), Signed(dst, z);
            && (IsCarry(v, z) <==> dst < src && z != Long)
            && (IsZero(v, z) <==> dst == src) && (x == y <==> dst == src)
            && (IsOverflow(src, dst, z) <==> !InRange(y + x, z))
            && ((IsNegative(v, z) <==> y < x) <==> InRange(y - x, z))
            && (InRange(y - x, z) || InRange(y + x, z))
  {
    hide IsNegative, Signed, Wrap, Truncate, IsCarry, IsOverflow;
    var h := Modulus(z) / 2;
    assert Modulus(z) == 2 * h;
    SumCodes(src, dst, z);
    SignedIs(src, z);
    SignedIs(dst, z);
    HighBit(src, z);
    HighBit(dst, z);
    HighBit(Wrap(dst - src), z);
    Wrapped(dst - src, z);
    FitsWhole(src, z);
    FitsWhole(dst, z);
    DifferenceIs(h, src, dst);
    hide Modulus;
  }

  /** The operand values CMP reads. */
  ghost predicate Compares(s: State, sm: Mode, sr: OperandReg, dm: Mode, dr: OperandReg, z: Size, src: u32, dst: u32) {
    var a := GetData(Next(s), sm, sr, z);
    && a.Ok? && a.value == src
    && GetData(a.state, dm, dr, z).Ok? && GetData(a.state, dm, dr, z).value == dst
  }

  /** What the tests say after dst - src: equality at every size; the unsigned order at byte and
      word, and at long exactly when the destination is not below; N is the top bit of the difference. */
  ghost predicate UnsignedTests(t: State, src: u32, dst: u32, z: Size) {
    && (CheckCondition(t, Equal) <==> dst == src) && (CheckCondition(t, NotEqual) <==> dst != src)
    && ((CheckCondition(t, CarrySet) <==> dst < src) <==> z != Long || dst >= src)
    && ((CheckCondition(t, CarryClear) <==> dst >= src) <==> z != Long || dst >= src)
    && ((CheckCondition(t, Higher) <==> dst > src) <==> z != Long || dst >= src)
    && ((CheckCondition(t, LowerSame) <==> dst <= src) <==> z != Long || dst >= src)
    && SignTests(t, if dst >= src then dst - src else dst - src + Modulus(z), z)
  }

  /** The signed order exactly when neither the difference nor the sum overflows, because V is
      computed with the test for addition; equal operands are always told apart. */
  ghost predicate SignedTests(t: State, x: int, y: int, z: Size) {
    var fits := InRange(y - x, z) && InRange(y + x, z);
    && ((CheckCondition(t, OverflowSet) <==> !InRange(y - x, z)) <==> fits)
    && ((CheckCondition(t, LessThan) <==> y < x) <==> fits)
    && ((CheckCondition(t, GreaterEqual) <==> y >= x) <==> fits)
    && ((CheckCondition(t, GreaterThan) <==> y > x) <==> y == x || fits)
    && ((CheckCondition(t, LessEqual) <==> y <= x) <==> y == x || fits)
  }

  /** The flags of a subtraction, whatever X is set to. */
  lemma DifferenceTests(u: State, src: u32, dst: u32, z: Size, x: bool)
    requires src < Modulus(z) && dst < Modulus(z)
    ensures var v := Compute(Sub, src, dst, false);
            var t := SetCodes(u, x, IsNegative(v, z), IsZero(v, z), IsOverflow(src, dst, z), IsCarry(v, z));
            UnsignedTests(t, src, dst, z) && SignedTests(t, Signed(src, z), Signed(dst, z), z)
  {
    hide WithCodes, HasFlag, Wrap, Signed, IsNegative, IsZero, IsOverflow, IsCarry, InRange, SignTests, Truncate;
    var v := Compute(Sub, src, dst, false);
    DifferenceCodes(src, dst, z);
    Wrapped(dst - src, z);
    SignRead(u, x, IsNegative(v, z), IsZero(v, z), IsOverflow(src, dst, z), IsCarry(v, z), v, z);
    CodesRead(u.regs[SR], x, IsNegative(v, z), IsZero(v, z), IsOverflow(src, dst, z), IsCarry(v, z));
  }

  /** The state after both operand reads, with other codes N, Z, V and C. */
  ghost predicate OnlyCodes(u: State, t: State) {
    Alike(u, t) && Pc(t) == Pc(u) && ExtendFlag(t) == ExtendFlag(u) && t.regs[SR] / 32 == u.regs[SR] / 32
  }

  lemma CodesOnly(u: State, n: bool, z: bool, v: bool, c: bool)
    ensures OnlyCodes(u, SetCodes(u, ExtendFlag(u), n, z, v, c))
  {
    CodesRead(u.regs[SR], ExtendFlag(u), n, z, v, c);
    hide WithCodes, HasFlag;
  }

  lemma FlagsKeptTwice(s: State, sm: Mode, sr: OperandReg, dm: Mode, dr: OperandReg, z: Size)
    requires GetData(Next(s), sm, sr, z).Ok? && GetData(GetData(Next(s), sm, sr, z).state, dm, dr, z).Ok?
    ensures GetData(GetData(Next(s), sm, sr, z).state, dm, dr, z).state.regs[SR] == s.regs[SR]
  {
    assert Next(s).regs[SR] == s.regs[SR];
    hide GetData, Next;
    FlagsKept(Next(s), sm, sr, z);
    FlagsKept(GetData(Next(s), sm, sr, z).state, dm, dr, z);
  }

  /** CMP, CMPI and CMPA.L: the exact scope of every ordered test. X and all else but N, Z, V and C are
      as the two operand reads leave them. */
  lemma ConditionsAfterCompare(s: State, sm: Mode, sr: OperandReg, dm: Mode, dr: OperandReg, z: Size, address: bool,
                               src: u32, dst: u32)
    requires !(address && z == Word)
    requires ExecCompare(s, sm, sr, dm, dr, z, address).Ok? && Compares(s, sm, sr, dm, dr, z, src, dst)
    ensures var t := ExecCompare(s, sm, sr, dm, dr, z, address).state;
            && UnsignedTests(t, src, dst, z) && SignedTests(t, Signed(src, z), Signed(dst, z), z)
            && ExtendFlag(t) == ExtendFlag(s)
            && OnlyCodes(GetData(GetData(Next(s), sm, sr, z).state, dm, dr, z).state, t)
  {
    FlagsKeptTwice(s, sm, sr, dm, dr, z);
    assert forall w: State :: w.regs[SR] == s.regs[SR] ==> ExtendFlag(w) == ExtendFlag(s);
    hide GetData, UnsignedTests, SignedTests, SetCodes, Signed, IsNegative, IsZero, IsOverflow, IsCarry;
    hide Compute, Next;
    OperandBound(Next(s), sm, sr, z);
    var a := GetData(Next(s), sm, sr, z);
    OperandBound(a.state, dm, dr, z);
    var u := GetData(a.state, dm, dr, z).state;
    DifferenceTests(u, src, dst, z, ExtendFlag(u));
    var v := Compute(Sub, src, dst, false);
    CodesOnly(u, IsNegative(v, z), IsZero(v, z), IsOverflow(src, dst, z), IsCarry(v, z));
    hide ExtendFlag, Alike;
  }

  /** The same scope, and X is C. */
  ghost predicate SubtractTests(t: State, src: u32, dst: u32, z: Size) {
    && UnsignedTests(t, src, dst, z) && SignedTests(t, Signed(src, z), Signed(dst, z), z)
    && ExtendFlag(t) == CheckCondition(t, CarrySet)
  }

  /** The flags SUB, SUBI and SUBQ set. */
  lemma SubtractFlags(u: State, src: u32, dst: u32, z: Size)
    requires src < Modulus(z) && dst < Modulus(z)
    ensures SubtractTests(ArithmeticCodes(u, src, dst, Compute(Sub, src, dst, false), z), src, dst, z)
  {
    hide WithCodes, HasFlag, Signed, IsNegative, IsZero, IsOverflow, IsCarry, Compute, UnsignedTests, SignedTests;
    var v := Compute(Sub, src, dst, false);
    DifferenceTests(u, src, dst, z, IsCarry(v, z));
    CodesRead(u.regs[SR], IsCarry(v, z), IsNegative(v, z), IsZero(v, z), IsOverflow(src, dst, z), IsCarry(v, z));
  }

  /** SUB and SUBI. */
  lemma ConditionsAfterSubtract(s: State, sm: Mode, sr: OperandReg, dm: Mode, dr: OperandReg, z: Size)
    requires ExecAlu(s, Sub, sm, sr, dm, dr, z).Ok?
    ensures var t, a := ExecAlu(s, Sub, sm, sr, dm, dr, z).state, GetData(Next(s), sm, sr, z);
            && a.Ok? && GetDataSilent(a.state, dm, dr, z).Value?
            && SubtractTests(t, a.value, GetDataSilent(a.state, dm, dr, z).value, z)
  {
    hide GetData, GetDataSilent, SetData, SubtractTests, ArithmeticCodes, Compute, Next;
    var a := GetData(Next(s), sm, sr, z);
    OperandBound(Next(s), sm, sr, z);
    OperandBound(a.state, dm, dr, z);
    var src, dst := a.value, GetDataSilent(a.state, dm, dr, z).value;
    SubtractFlags(SetData(a.state, dm, dr, z, Compute(Sub, src, dst, false)).state, src, dst, z);
  }

  /** ADDQ and SUBQ on anything but an address register, like ADD and SUB of their constant. */
  lemma ConditionsAfterQuick(s: State, op: AluOp, imm: u32, dm: Mode, dr: OperandReg, z: Size)
    requires (op.Add? || op.Sub?) && 1 <= imm <= 8 && !dm.DirectAddr? && ExecAluQuick(s, op, imm, dm, dr, z).Ok?
    ensures var t := ExecAluQuick(s, op, imm, dm, dr, z).state;
            && GetDataSilent(Next(s), dm, dr, z).Value?
            && var dst := GetDataSilent(Next(s), dm, dr, z).value;
            if op.Add? then SumTests(t, imm, dst, z) else SubtractTests(t, imm, dst, z)
  {
    hide GetDataSilent, SetData, SumTests, SubtractTests, ArithmeticCodes, Compute, Next;
    OperandBound(Next(s), dm, dr, z);
    var dst := GetDataSilent(Next(s), dm, dr, z).value;
    var u := SetData(Next(s), dm, dr, z, Compute(op, imm, dst, false)).state;
    if op.Add? {
      AddFlags(u, imm, dst, z);
    } else {
      SubtractFlags(u, imm, dst, z);
    }
  }

  /** CMP.B or CMP.W and then Bcc: the branch is taken exactly on the unsigned relation it names. */
  lemma CompareThenBranch(s: State, sm: Mode, sr: OperandReg, dm: Mode, dr: OperandReg, z: Size, src: u32, dst: u32,
                          cond: Condition, d8: byte)
    requires z != Long || cond == Equal || cond == NotEqual
    requires cond in {Higher, LowerSame, CarryClear, CarrySet, Equal, NotEqual}
    requires ExecCompare(s, sm, sr, dm, dr, z, false).Ok? && Compares(s, sm, sr, dm, dr, z, src, dst)
    ensures var t := ExecCompare(s, sm, sr, dm, dr, z, false).state;
            var relation := match cond
                            case Higher => dst > src
                            case LowerSame => dst <= src
                            case CarryClear => dst >= src
                            case CarrySet => dst < src
                            case Equal => dst == src
                            case _ => dst != src;
            match Target(t, d8)
            case Value(a) => ExecBranch(t, cond, d8) == Ok((), SetPc(t, if relation then a else After(t, d8)))
            case Fault(e) => ExecBranch(t, cond, d8) == Throw(e, Next(t))
  {
    hide ExecCompare, Compares, Wrap, Signed, GetData, InRange, OnlyCodes, SignTests;
    ConditionsAfterCompare(s, sm, sr, dm, dr, z, false, src, dst);
    BranchLands(ExecCompare(s, sm, sr, dm, dr, z, false).state, cond, d8);
    hide ExecBranch, Target, After, CheckCondition, Next;
  }
}
