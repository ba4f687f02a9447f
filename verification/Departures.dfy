// Where the code departs from M68000PM/AD, instruction by instruction: exactly when it still does
// what the manual says, and an input on which it does not. (src/instructions/addx.cpp, subx.cpp,
// sub.cpp, neg.cpp, adda.cpp, suba.cpp, addq.cpp, cmp.cpp, cmpa.cpp, ext.cpp, moveq.cpp, div.cpp,
// bit_manip.cpp, bit_shift.cpp, bcc.cpp)

module Departures {
  import opened Helpers
  import opened Registers
  import opened CpuState
  import opened Instructions
  import opened Addressing
  import opened Branching
  import opened Conditions
  import opened Effects
  import opened Disassembler

  // ----- V after ADDX and SUBX: the test leaves X out -----

  lemma SumWithX(h: nat, sum: int, k: nat)
    requires h > 0 && k <= 1
    ensures (!(0 - h <= sum < h) <==> !(0 - h <= sum + k < h)) <==> !(k == 1 && (sum == h - 1 || sum == 0 - h - 1))
  {
  }

  lemma DifferenceWithX(h: nat, x: int, y: int, k: nat)
    requires 0 - h <= x < h && 0 - h <= y < h && k <= 1
    ensures (!(0 - h <= y + x < h) <==> !(0 - h <= y - x - k < h)) <==> 0 - h <= y + x < h && 0 - h <= y - x - k < h
  {
  }

  lemma SignedRange(v: u32, z: Size)
    requires v < Modulus(z)
    ensures InRange(Signed(v, z), z)
  {
    FitsWhole(v, z);
  }

  /** V after ADDX is right unless X is set and the sum without it stops just short of overflowing,
      or just past overflowing downwards; V after SUBX is right exactly when neither the difference
      nor the sum overflows, as after SUB. */
  lemma OverflowAfterExtend(s: State, op: AluOp, m: Mode, sr: OperandReg, dr: OperandReg, z: Size)
    requires (op.Add? || op.Sub?) && ExecAluExtend(s, op, m, sr, dr, z).Ok?
    ensures var t, a := ExecAluExtend(s, op, m, sr, dr, z).state, GetData(Next(s), m, sr, z);
            && a.Ok? && GetDataSilent(a.state, m, dr, z).Value?
            && var x, y := Signed(a.value, z), Signed(GetDataSilent(a.state, m, dr, z).value, z);
            && var k, h := if ExtendFlag(s) then 1 else 0, Modulus(z) / 2;
            if op.Add?
            then (CheckCondition(t, OverflowSet) <==> !InRange(y + x + k, z))
                 <==> !(ExtendFlag(s) && (y + x == h - 1 || y + x == 0 - h - 1))
            else (CheckCondition(t, OverflowSet) <==> !InRange(y - x - k, z))
                 <==> InRange(y + x, z) && InRange(y - x - k, z)
  {
    hide GetData, GetDataSilent, SetData, WithCodes, HasFlag, Signed, IsNegative, IsZero, IsOverflow, IsCarry, Compute;
    hide Next;
    var a := GetData(Next(s), m, sr, z);
    OperandBound(Next(s), m, sr, z);
    OperandBound(a.state, m, dr, z);
    var src, dst := a.value, GetDataSilent(a.state, m, dr, z).value;
    SumCodes(src, dst, z);
    SignedRange(src, z);
    SignedRange(dst, z);
    var k, h := if ExtendFlag(s) then 1 else 0, Modulus(z) / 2;
    SumWithX(h, Signed(src, z) + Signed(dst, z), k);
    DifferenceWithX(h, Signed(src, z), Signed(dst, z), k);
    var v := Compute(op, src, dst, ExtendFlag(s));
    var u := SetData(a.state, m, dr, z, v).state;
    CodesRead(u.regs[SR], IsCarry(v, z), IsNegative(v, z), HasFlag(u.regs[SR], Zero) && IsZero(v, z),
              IsOverflow(src, dst, z), IsCarry(v, z));
  }

  /** The sum or difference with X, before it is cut to its size. */
  function WithX(op: AluOp, src: u32, dst: u32, x: bool): int {
    if op.Add? then dst + src + (if x then 1 else 0) else dst - src - (if x then 1 else 0)
  }

  /** C and X are the carry or borrow out of v, except that a long one is never set; EQ says that it
      held before and that the result is zero; N is the top bit of the result. */
  ghost predicate ExtendTests(t: State, wasEqual: bool, v: int, z: Size) {
    && ((ExtendFlag(t) <==> !(0 <= v < Modulus(z))) <==> z != Long || 0 <= v < Modulus(z))
    && CheckCondition(t, CarrySet) == ExtendFlag(t)
    && (CheckCondition(t, Equal) <==> wasEqual && (v == 0 || v == Modulus(z) || v == 0 - Modulus(z)))
    && SignTests(t, Folded(v, z), z)
  }

  /** A sum or difference with X, cut to its size. */
  function Folded(v: int, z: Size): int {
    if v < 0 then v + Modulus(z) else if v < Modulus(z) then v else v - Modulus(z)
  }

  /** The flags ADDX and SUBX set. */
  lemma ExtendFlags(u: State, op: AluOp, src: u32, dst: u32, x: bool, z: Size)
    requires (op.Add? || op.Sub?) && src < Modulus(z) && dst < Modulus(z)
    ensures var v, t := WithX(op, src, dst, x), ExtendCodes(u, src, dst, Compute(op, src, dst, x), z);
            && ExtendTests(t, CheckCondition(u, Equal), v, z) && Alike(u, t)
            && Pc(t) == Pc(u) && Truncate(Compute(op, src, dst, x), z) == Folded(v, z)
  {
    hide WithCodes, HasFlag, Wrap, Truncate, IsNegative, IsOverflow, IsCarry, SignTests;
    var v, r := WithX(op, src, dst, x), Compute(op, src, dst, x);
    assert r == Wrap(v);
    Wrapped(v, z);
    SignRead(u, IsCarry(r, z), IsNegative(r, z), HasFlag(u.regs[SR], Zero) && IsZero(r, z),
             IsOverflow(src, dst, z), IsCarry(r, z), r, z);
    CodesRead(u.regs[SR], IsCarry(r, z), IsNegative(r, z), HasFlag(u.regs[SR], Zero) && IsZero(r, z),
              IsOverflow(src, dst, z), IsCarry(r, z));
  }

  /** C, X and EQ after ADDX and SUBX in any mode. */
  lemma CarryAfterExtend(s: State, op: AluOp, m: Mode, sr: OperandReg, dr: OperandReg, z: Size)
    requires (op.Add? || op.Sub?) && ExecAluExtend(s, op, m, sr, dr, z).Ok?
    ensures var t, a := ExecAluExtend(s, op, m, sr, dr, z).state, GetData(Next(s), m, sr, z);
            && a.Ok? && GetDataSilent(a.state, m, dr, z).Value?
            && ExtendTests(t, CheckCondition(s, Equal),
                           WithX(op, a.value, GetDataSilent(a.state, m, dr, z).value, ExtendFlag(s)), z)
  {
    assert Next(s).regs[SR] == s.regs[SR];
    FlagsKept(Next(s), m, sr, z);
    hide GetData, GetDataSilent, SetData, ExtendCodes, ExtendTests, WithX, Compute, Alike, Next, Truncate;
    var a := GetData(Next(s), m, sr, z);
    OperandBound(Next(s), m, sr, z);
    OperandBound(a.state, m, dr, z);
    var src, dst, x := a.value, GetDataSilent(a.state, m, dr, z).value, ExtendFlag(s);
    var u := SetData(a.state, m, dr, z, Compute(op, src, dst, x)).state;
    SetKeepsFlags(a.state, m, dr, z, Compute(op, src, dst, x));
    SameConditions(u, s, Equal);
    ExtendFlags(u, op, src, dst, x, z);
    hide CheckCondition, ExtendFlag;
  }

  lemma SetKeepsFlags(s: State, m: Mode, r: OperandReg, z: Size, data: u32)
    ensures SetData(s, m, r, z, data).Ok? ==> SetData(s, m, r, z, data).state.regs[SR] == s.regs[SR]
  {
    if IsMemoryAlterable(m) {
      FlagsKeptBySet(s, m, r, z, data);
    }
  }

  /** ADDX and SUBX on data registers or predecremented operands leave the sum or difference with X,
      modulo the size, in the destination's cell. */
  lemma ExtendStores(s: State, op: AluOp, m: Mode, sr: OperandReg, dr: OperandReg, z: Size)
    requires (op.Add? || op.Sub?) && IsMemoryAlterable(m) && ExecAluExtend(s, op, m, sr, dr, z).Ok?
    ensures var t, a := ExecAluExtend(s, op, m, sr, dr, z).state, GetData(Next(s), m, sr, z);
            && a.Ok? && Locus(a.state, m, dr, z).Value?
            && var c := Locus(a.state, m, dr, z).value;
            && ReadCell(a.state, c, z).Value? && ReadCell(t, c, z).Value?
            && var v, r := WithX(op, a.value, ReadCell(a.state, c, z).value, ExtendFlag(s)), ReadCell(t, c, z).value;
            && r == Folded(v, z) && Wrote(a.state, t, m, dr, z, c, r)
  {
    hide GetData, GetDataSilent, SetData, ExtendCodes, ExtendTests, WithX, Compute, Alike, Next, Truncate, ExtendFlag;
    hide Locus, ReadCell, WriteCell, Moved, CheckCondition, Wrote, Folded;
    var a := GetData(Next(s), m, sr, z);
    OperandBound(Next(s), m, sr, z);
    OperandBound(a.state, m, dr, z);
    var src, dst, x := a.value, GetDataSilent(a.state, m, dr, z).value, ExtendFlag(s);
    var r := Compute(op, src, dst, x);
    ReadModifyWrite(a.state, m, dr, z, r);
    var u := SetData(a.state, m, dr, z, r).state;
    ExtendFlags(u, op, src, dst, x, z);
    WroteBy(a.state, ExtendCodes(u, src, dst, r, z), m, dr, z, r);
  }

  // ----- NEG: V is never set -----

  /** NEG stores zero minus the operand; its tests have the scope of a subtraction from zero, so V
      and the signed tests are right exactly when the operand is not the least number of its size. */
  lemma NegTests(s: State, m: Mode, r: OperandReg, z: Size)
    requires IsMemoryAlterable(m) && ExecNeg(s, m, r, z).Ok?
    ensures var t := ExecNeg(s, m, r, z).state;
            && Locus(Next(s), m, r, z).Value?
            && var c := Locus(Next(s), m, r, z).value;
            && ReadCell(Next(s), c, z).Value? && ReadCell(t, c, z).Value?
            && var v := ReadCell(Next(s), c, z).value;
            && Means(Sub, v, 0, ReadCell(t, c, z).value, z)
            && SubtractTests(t, v, 0, z)
            && !CheckCondition(t, OverflowSet)
            && (InRange(0 - Signed(v, z), z) <==> Signed(v, z) != 0 - Modulus(z) / 2)
            && Wrote(Next(s), t, m, r, z, c, ReadCell(t, c, z).value)
  {
    hide GetDataSilent, SetData, Next, Locus, ReadCell, WriteCell, Moved, Compute, Means, Truncate, Alike;
    hide SubtractTests, Wrote;
    hide ArithmeticCodes, Signed, CheckCondition;
    var s1 := Next(s);
    OperandBound(s1, m, r, z);
    var v := GetDataSilent(s1, m, r, z).value;
    var result := Compute(Sub, v, 0, false);
    ComputeMeans(Sub, v, 0, z);
    ReadModifyWrite(s1, m, r, z, result);
    var u := SetData(s1, m, r, z, result).state;
    SubtractFlags(u, v, 0, z);
    NegFlags(u, v, result, z);
    WroteBy(s1, ArithmeticCodes(u, 0, v, result, z), m, r, z, result);
    SignedRange(v, z);
  }

  lemma NegFlags(u: State, v: u32, result: u32, z: Size)
    ensures var t := ArithmeticCodes(u, 0, v, result, z);
            && t == ArithmeticCodes(u, v, 0, result, z) && Alike(u, t) && Pc(t) == Pc(u)
            && !CheckCondition(t, OverflowSet)
  {
    NoOverflow(v, z);
    OverflowSymmetric(v, 0, z);
    hide IsOverflow, IsNegative, IsZero, IsCarry;
    OverflowRead(u, IsCarry(result, z), IsNegative(result, z), IsZero(result, z), false);
    hide SetCodes, CheckCondition, Alike;
  }

  lemma NoOverflow(v: u32, z: Size)
    ensures !IsOverflow(0, v, z)
  {
    WrapSmall(v);
    hide Wrap;
  }

  lemma OverflowSymmetric(a: u32, b: u32, z: Size)
    ensures IsOverflow(a, b, z) == IsOverflow(b, a, z)
  {
    hide Wrap;
    assert a + b == b + a;
    assert IsNegative(Wrap(a + b), z) == IsNegative(Wrap(b + a), z);
    hide IsNegative;
  }

  lemma OverflowRead(u: State, c: bool, n: bool, z: bool, v: bool)
    ensures CheckCondition(SetCodes(u, c, n, z, v, c), OverflowSet) == v && Alike(u, SetCodes(u, c, n, z, v, c))
  {
    CodesRead(u.regs[SR], c, n, z, v, c);
    hide WithCodes, HasFlag;
  }

  // ----- byte and word operations on address registers write the low part only -----

  /** A register that held `was` after d is added to its low part: at long size it holds the whole
      sum; below it keeps its high part, so that it does so exactly when the low part neither carries
      nor borrows. */
  ghost predicate LowPartSum(now: u32, was: u32, d: int, z: Size) {
    var m := Modulus(z);
    && (now == Wrap(was + d) <==> z == Long || 0 <= was % m + d < m)
    && (z != Long ==> now == m * (was / m) + (was + d) % m)
  }

  /** A low part added in place, the high part kept. */
  lemma LowSum(address: u32, d: int, z: Size)
    requires z != Long && 0 - Modulus(z) < d < Modulus(z)
    ensures LowPartSum(Blend(address, Wrap(address % Modulus(z) + d), z), address, d, z)
  {
    hide Wrap;
    var m, n := Modulus(z), 0x1_0000_0000 / Modulus(z);
    var high, low := address / m, address % m;
    var sum := low + d;
    var carry := if sum < 0 then -1 else if sum < m then 0 else 1;
    LowPart(sum, carry, z);
    LowPart(address + d, high + carry, z);
    HighKept(high, carry, n);
    match z
    case Byte => Joined(Wrap(address + d), high, sum - m * carry, 0x100);
    case Word => Joined(Wrap(address + d), high, sum - m * carry, 0x1_0000);
  }

  lemma HighKept(high: nat, carry: int, n: nat)
    requires n >= 2 && high < n && -1 <= carry <= 1
    ensures (high + carry) % n == high <==> carry == 0
  {
    if high + carry < 0 {
      Remainder(n, -1, n - 1);
    } else if high + carry < n {
      Remainder(n, 0, high + carry);
    } else {
      Remainder(n, 1, 0);
    }
  }

  /** Two numbers with one low part are equal when their quotients are. */
  lemma Joined(w: nat, high: nat, low: nat, m: nat)
    requires (m == 0x100 || m == 0x1_0000) && low < m && w % m == low
    ensures m * high + low == w <==> w / m == high
  {
  }

  /** The low part of a number with a given quotient, before and after wrapping to 32 bits. */
  lemma LowPart(v: int, q: int, z: Size)
    requires z != Long && 0 <= v - Modulus(z) * q < Modulus(z)
    ensures v % Modulus(z) == v - Modulus(z) * q && Wrap(v) % Modulus(z) == v - Modulus(z) * q
    ensures Wrap(v) / Modulus(z) == q % (0x1_0000_0000 / Modulus(z))
  {
    match z
    case Byte => Quotients(v, q, 0x100, 0x100_0000);
    case Word => Quotients(v, q, 0x1_0000, 0x1_0000);
  }

  lemma Quotients(v: int, q: int, m: nat, n: nat)
    requires (m == 0x100 && n == 0x100_0000) || (m == 0x1_0000 && n == 0x1_0000)
    requires 0 <= v - m * q < m
    ensures v % m == v - m * q && Wrap(v) % m == v - m * q && Wrap(v) / m == q % n
  {
    var t := v - m * q;
    Remainder(m, q, t);
    if m == 0x100 {
      Remainder(0x1_0000_0000, q / 0x100_0000, 0x100 * (q % 0x100_0000) + t);
      Remainder(0x100, q % 0x100_0000, t);
    } else {
      Remainder(0x1_0000_0000, q / 0x1_0000, 0x1_0000 * (q % 0x1_0000) + t);
      Remainder(0x1_0000, q % 0x1_0000, t);
    }
  }

  /** ADDA and SUBA change no flag and add to the low part. */
  lemma AddressSum(s: State, op: AluOp, sm: Mode, sr: OperandReg, dr: OperandReg, z: Size)
    requires (op.Add? || op.Sub?) && z != Byte && ExecAluAddress(s, op, sm, sr, dr, z).Ok?
    ensures var t, a := ExecAluAddress(s, op, sm, sr, dr, z).state, GetData(Next(s), sm, sr, z);
            && a.Ok? && t.regs[SR] == s.regs[SR]
            && var was, d := Reg32(a.state, dr), if op.Add? then Signed(a.value, z) else 0 - Signed(a.value, z);
            LowPartSum(Reg32(t, dr), was, d, z)
  {
    assert Next(s).regs[SR] == s.regs[SR];
    FlagsKept(Next(s), sm, sr, z);
    OperandBound(Next(s), sm, sr, z);
    hide GetData, Next;
    var a := GetData(Next(s), sm, sr, z);
    var was := Reg32(a.state, dr);
    AddressValue(a.value, was, op, z);
    hide Signed, Compute, Blend, Wrap, Truncate, LowPartSum;
  }

  /** What an operation leaves in an address register. */
  lemma AddressValue(v: u32, was: u32, op: AluOp, z: Size)
    requires (op.Add? || op.Sub?) && v < Modulus(z)
    ensures var d := if op.Add? then Signed(v, z) else 0 - Signed(v, z);
            LowPartSum(Blend(was, Compute(op, v, Truncate(was, z), false), z), was, d, z)
  {
    FitsWhole(v, z);
    SignedNear(v, z);
    hide Wrap, Signed, LowPartSum, Compute, Blend, Truncate;
    if z == Long {
      WholeSum(v, was, Signed(v, z), op);
    } else {
      ShortSum(v, was, Signed(v, z), op, z);
    }
  }

  lemma SignedNear(v: u32, z: Size)
    requires v < Modulus(z)
    ensures Signed(v, z) == v || Signed(v, z) == v - Modulus(z)
    ensures 0 - Modulus(z) < Signed(v, z) < Modulus(z)
  {
    FitsWhole(v, z);
  }

  lemma WholeSum(v: u32, was: u32, x: int, op: AluOp)
    requires (op.Add? || op.Sub?) && (x == v || x == v - 0x1_0000_0000)
    ensures LowPartSum(Blend(was, Compute(op, v, Truncate(was, Long), false), Long), was,
                       if op.Add? then x else 0 - x, Long)
  {
    hide Wrap;
    FitsWhole(was, Long);
    SameWhole(if op.Add? then v + was else was - v, if op.Add? then was + x else was - x);
  }

  lemma ShortSum(v: u32, was: u32, x: int, op: AluOp, z: Size)
    requires (op.Add? || op.Sub?) && z != Long && (x == v || x == v - Modulus(z)) && 0 - Modulus(z) < x < Modulus(z)
    ensures LowPartSum(Blend(was, Compute(op, v, Truncate(was, z), false), z), was, if op.Add? then x else 0 - x, z)
  {
    hide Wrap, LowPartSum, Blend;
    var low: u32 := was % Modulus(z);
    assert Truncate(was, z) == low;
    var d := if op.Add? then x else 0 - x;
    var sum := if op.Add? then v + low else low - v;
    LowSum(was, d, z);
    SameLow(sum, low + d, z);
    BlendLow(was, Wrap(sum), Wrap(low + d), z);
  }

  lemma BlendLow(was: u32, a: u32, b: u32, z: Size)
    requires z != Long && a % Modulus(z) == b % Modulus(z)
    ensures Blend(was, a, z) == Blend(was, b, z)
  {
  }

  /** Numbers one modulus apart at most have the same low part, wrapped or not. */
  lemma SameLow(a: int, b: int, z: Size)
    requires z != Long && (a == b || a == b + Modulus(z) || a == b - Modulus(z))
    ensures Wrap(a) % Modulus(z) == Wrap(b) % Modulus(z)
  {
    hide Wrap;
    var q := b / Modulus(z);
    LowPart(b, q, z);
    LowPart(a, if a == b then q else if a > b then q + 1 else q - 1, z);
  }

  lemma SameWhole(a: int, b: int)
    requires a == b || a == b + 0x1_0000_0000 || a == b - 0x1_0000_0000
    ensures Wrap(a) == Wrap(b)
  {
    var q, t := b / 0x1_0000_0000, b % 0x1_0000_0000;
    Remainder(0x1_0000_0000, q + (if a == b then 0 else if a > b then 1 else -1), t);
  }

  /** ADDQ and SUBQ on an address register: no flag, and below long size the low part only. */
  lemma QuickAddress(s: State, op: AluOp, imm: u32, dr: OperandReg, z: Size)
    requires (op.Add? || op.Sub?) && 1 <= imm <= 8 && ExecAluQuick(s, op, imm, DirectAddr, dr, z).Ok?
    ensures var t, was := ExecAluQuick(s, op, imm, DirectAddr, dr, z).state, Reg32(s, dr);
            && t.regs[SR] == s.regs[SR]
            && var d := if op.Add? then imm as int else 0 - imm;
            LowPartSum(Reg32(t, dr), was, d, z)
  {
    QuickRegister(s, op, imm, dr, z);
    assert Signed(imm, z) == imm;
    hide Next, ExecAluQuick, SetReg, Reg32, Signed, Compute, Blend, Wrap, Truncate, LowPartSum;
    AddressValue(imm, Reg32(s, dr), op, z);
  }

  lemma QuickRegister(s: State, op: AluOp, imm: u32, dr: OperandReg, z: Size)
    ensures var o := ExecAluQuick(s, op, imm, DirectAddr, dr, z);
            && o.Ok? && o.state.regs[SR] == s.regs[SR]
            && Reg32(o.state, dr) == Blend(Reg32(s, dr), Compute(op, imm, Truncate(Reg32(s, dr), z), false), z)
  {
    hide Compute, Blend, Truncate, ArithmeticCodes;
  }

  // ----- CMPA.W compares words -----

  lemma SignOfWord(a: u32, b: u32)
    requires a % 0x1_0000 == b % 0x1_0000
    ensures IsNegative(a, Word) == IsNegative(b, Word) && IsZero(a, Word) == IsZero(b, Word)
  {
    HighBit(a, Word);
    HighBit(b, Word);
  }

  /** Subtracting a sign-extended word sets N, Z and V as subtracting the word does; its carry is
      inverted for words from 0x8000 on. */
  lemma ExtendedDifference(v: u32, low: u32)
    requires v < 0x1_0000 && low < 0x1_0000
    ensures var e := Wrap(Signed(v, Word));
            var p, q := Compute(Sub, e, low, false), Compute(Sub, v, low, false);
            && IsNegative(p, Word) == IsNegative(q, Word) && IsZero(p, Word) == IsZero(q, Word)
            && IsOverflow(e, low, Word) == IsOverflow(v, low, Word)
            && (IsCarry(p, Word) <==> (low < v) != (v >= 0x8000))
  {
    ExtendedWord(v);
    var e := Wrap(Signed(v, Word));
    ExtendedLow(v, e, low - e, low - v);
    ExtendedLow(v, e, e + low, v + low);
    var d := if v < 0x8000 then low - v else low - v + 0x1_0000;
    CarryOfWord(d);
    SameWhole(low - e, d);
    hide IsNegative, IsZero, IsCarry, Signed, Wrap;
    SignOfWord(Wrap(low - e), Wrap(low - v));
    SignOfWord(Wrap(e + low), Wrap(v + low));
    SignOfWord(e, v);
  }

  /** Exchanging a word for its extension keeps the low word of a sum or difference. */
  lemma ExtendedLow(v: u32, e: u32, a: int, b: int)
    requires e == if v < 0x8000 then v else v + 0xFFFF_0000
    requires a - b == e - v || a - b == v - e
    ensures Wrap(a) % 0x1_0000 == Wrap(b) % 0x1_0000
  {
    hide Wrap;
    var k: int := if v < 0x8000 then 0 else if a > b then -0x1_0000 else 0x1_0000;
    SameWhole(a, b + k);
    SameLow(b + k, b, Word);
  }

  lemma ExtendedWord(v: u32)
    requires v < 0x1_0000
    ensures Wrap(Signed(v, Word)) == (if v < 0x8000 then v else v + 0xFFFF_0000)
    ensures (if v < 0x8000 then v else v + 0xFFFF_0000) % 0x1_0000 == v
  {
    if v >= 0x8000 {
      Remainder(0x1_0000_0000, -1, v + 0xFFFF_0000);
      Remainder(0x1_0000, 0xFFFF, v);
    }
  }

  lemma CarryOfWord(d: int)
    requires 0 - 0x1_0000 <= d < 0x2_0000
    ensures IsCarry(Wrap(d), Word) <==> d < 0 || d >= 0x1_0000
  {
    Wrapped(d, Word);
  }

  /** The signed and unsigned order of a register and an operand word, by their words. */
  ghost predicate WordOrder(was: u32, v: u32) {
    var high, low := was / 0x1_0000, was % 0x1_0000;
    var x, y, w, e := Signed(v, Word), Signed(low, Word), Signed(was, Long), Wrap(Signed(v, Word));
    && (w == x <==> low == v && 0 - 0x8000 <= w < 0x8000)
    && ((y < x) == (w < x) <==> if w >= 0x8000 then y >= x else w < 0 - 0x8000 ==> y < x)
    && ((y > x) == (w > x) <==> if w >= 0x8000 then y > x else w < 0 - 0x8000 ==> y <= x)
    && (was < e <==> if v < 0x8000 then high == 0 && low < v else high != 0xFFFF || low < v)
    && (was == e <==> low == v && high == if v < 0x8000 then 0 else 0xFFFF)
    && (Wrap(was - e) >= 0x8000_0000 <==> HighDifference(was, v) >= 0x8000)
  }

  /** The high word of the difference of a register and a sign-extended word. */
  function HighDifference(was: u32, v: u32): int {
    var k := was / 0x1_0000 - (if v < 0x8000 then 0 else 0xFFFF) - (if was % 0x1_0000 < v then 1 else 0);
    if k < 0 then k + 0x1_0000 else k
  }

  lemma HighHalf(was: u32, v: u32)
    requires v < 0x1_0000
    ensures Wrap(was - Wrap(Signed(v, Word))) >= 0x8000_0000 <==> HighDifference(was, v) >= 0x8000
  {
    ExtendedWord(v);
    var low, e: int := was % 0x1_0000, Wrap(Signed(v, Word));
    var d := if low < v then low - v + 0x1_0000 else low - v;
    var k := was / 0x1_0000 - (if v < 0x8000 then 0 else 0xFFFF) - (if low < v then 1 else 0);
    assert was == 0x1_0000 * (was / 0x1_0000) + low;
    assert was - e == 0x1_0000 * k + d;
    hide Wrap, Signed;
    WrapNear(0x1_0000 * k + d, 0x1_0000 * HighDifference(was, v) + d);
    WrapSmall(0x1_0000 * HighDifference(was, v) + d);
  }

  lemma WrapNear(a: int, b: int)
    requires a == b || a == b - 0x1_0000_0000
    ensures Wrap(a) == Wrap(b)
  {
    SameWhole(a, b);
  }

  lemma WordOrders(was: u32, v: u32)
    requires v < 0x1_0000
    ensures WordOrder(was, v)
  {
    ExtendedWord(v);
    FitsWhole(v, Word);
    FitsWhole(was, Long);
    FitsWhole(was % 0x1_0000, Word);
    assert was == 0x1_0000 * (was / 0x1_0000) + was % 0x1_0000;
    HighHalf(was, v);
    hide Wrap, Truncate, HighDifference;
  }

  /** The signed tests and equality do not look at C. */
  lemma BesideCarry(u: State, x: bool, n: bool, z: bool, v: bool, c: bool, d: bool, src: int, dst: int)
    ensures var t, w := SetCodes(u, x, n, z, v, c), SetCodes(u, x, n, z, v, d);
            && (SignedTests(t, src, dst, Word) == SignedTests(w, src, dst, Word))
            && CheckCondition(t, Equal) == z && CheckCondition(t, CarrySet) == c
            && CheckCondition(t, GreaterEqual) != CheckCondition(t, LessThan)
            && CheckCondition(t, LessEqual) != CheckCondition(t, GreaterThan)
            && CheckCondition(t, Higher) == (!c && !z) && CheckCondition(t, LowerSame) == (c || z)
            && CheckCondition(t, CarryClear) == !c && CheckCondition(t, NotEqual) == !z
            && CheckCondition(t, OverflowSet) == v
  {
    CodesRead(u.regs[SR], x, n, z, v, c);
    CodesRead(u.regs[SR], x, n, z, v, d);
    hide WithCodes, HasFlag, InRange;
  }

  /** The tests of CMP.W of a word with the low word of An, but for C, which is inverted for operands
      from 0x8000 on. */
  ghost predicate LowTests(t: State, v: u32, low: u32) {
    && (CheckCondition(t, Equal) <==> low == v)
    && SignedTests(t, Signed(v, Word), Signed(low, Word), Word)
    && CheckCondition(t, GreaterEqual) != CheckCondition(t, LessThan)
    && CheckCondition(t, LessEqual) != CheckCondition(t, GreaterThan)
    && (CheckCondition(t, CarrySet) <==> (low < v) != (v >= 0x8000))
    && (CheckCondition(t, OverflowSet) <==> !InRange(Signed(low, Word) + Signed(v, Word), Word))
    && SignTests(t, if low >= v then low - v else low - v + 0x1_0000, Word)
  }

  lemma CmpaCodes(u: State, v: u32, low: u32)
    requires v < 0x1_0000 && low < 0x1_0000
    ensures var e := Wrap(Signed(v, Word));
            var t := CompareCodes(u, e, low, Compute(Sub, e, low, false), Word);
            LowTests(t, v, low) && OnlyCodes(u, t)
  {
    hide Signed, Wrap, IsNegative, IsZero, IsOverflow, IsCarry, SetCodes, CheckCondition, Compute;
    hide ExtendFlag, SignedTests, UnsignedTests, SignTests, InRange, OnlyCodes, Truncate;
    var e := Wrap(Signed(v, Word));
    ExtendedDifference(v, low);
    DifferenceTests(u, v, low, Word, ExtendFlag(u));
    var p, q := Compute(Sub, e, low, false), Compute(Sub, v, low, false);
    BesideCarry(u, ExtendFlag(u), IsNegative(p, Word), IsZero(p, Word), IsOverflow(e, low, Word),
                IsCarry(p, Word), IsCarry(q, Word), Signed(v, Word), Signed(low, Word));
    CmpaSign(u, IsZero(p, Word), IsOverflow(e, low, Word), IsCarry(p, Word), v, low);
    CodesOnly(u, IsNegative(p, Word), IsZero(p, Word), IsOverflow(e, low, Word), IsCarry(p, Word));
    WordDifference(v, low);
  }

  lemma CmpaSign(u: State, z: bool, o: bool, c: bool, v: u32, low: u32)
    requires v < 0x1_0000 && low < 0x1_0000
    ensures var p := Compute(Sub, Wrap(Signed(v, Word)), low, false);
            SignTests(SetCodes(u, ExtendFlag(u), IsNegative(p, Word), z, o, c),
                      if low >= v then low - v else low - v + 0x1_0000, Word)
  {
    var p := Compute(Sub, Wrap(Signed(v, Word)), low, false);
    assert p == Wrap(low - Wrap(Signed(v, Word)));
    hide Signed, Wrap, SetCodes, SignTests, Truncate, Compute, IsNegative;
    DifferenceLow(v, low);
    SignRead(u, ExtendFlag(u), IsNegative(p, Word), z, o, c, p, Word);
  }

  /** What the tests say of the low word of An and an operand word; X is kept. */
  lemma CmpaLow(s: State, sm: Mode, sr: OperandReg, dr: OperandReg)
    requires ExecCompare(s, sm, sr, DirectAddr, dr, Word, true).Ok?
    ensures var t, a := ExecCompare(s, sm, sr, DirectAddr, dr, Word, true).state, GetData(Next(s), sm, sr, Word);
            && a.Ok? && a.value < 0x1_0000
            && LowTests(t, a.value, Reg32(a.state, dr) % 0x1_0000)
            && ExtendFlag(t) == ExtendFlag(s) && OnlyCodes(a.state, t)
  {
    FlagsKept(Next(s), sm, sr, Word);
    SameExtend(s, Next(s));
    OperandBound(Next(s), sm, sr, Word);
    var a := GetData(Next(s), sm, sr, Word);
    SameExtend(Next(s), a.state);
    var low: u32 := Reg32(a.state, dr) % 0x1_0000;
    assert GetData(a.state, DirectAddr, dr, Word) == Ok(low, a.state);
    hide GetData, Next, Signed, Wrap, CompareCodes, Compute, LowTests, ExtendFlag, Alike;
    CmpaCodes(a.state, a.value, low);
  }

  lemma SameExtend(s: State, t: State)
    requires t.regs[SR] == s.regs[SR]
    ensures ExtendFlag(t) == ExtendFlag(s)
  {
  }

  lemma WordDifference(v: u32, low: u32)
    requires v < 0x1_0000 && low < 0x1_0000
    ensures IsZero(Compute(Sub, v, low, false), Word) <==> low == v
    ensures IsOverflow(v, low, Word) <==> !InRange(Signed(low, Word) + Signed(v, Word), Word)
  {
    DifferenceCodes(v, low, Word);
    hide IsZero, Compute, IsOverflow, InRange, Signed;
  }

  lemma DifferenceLow(v: u32, low: u32)
    requires v < 0x1_0000 && low < 0x1_0000
    ensures Truncate(Wrap(low - Wrap(Signed(v, Word))), Word) == if low >= v then low - v else low - v + 0x1_0000
  {
    ExtendedWord(v);
    hide Wrap, Signed;
    var e := Wrap(Signed(v, Word));
    ExtendedLow(v, e, low - e, low - v);
    Wrapped(low - v, Word);
  }

  /** When the tests after CMPA.W are right of the whole register `was` and the sign-extended operand
      word v: x, y and w are the operand, the low word and the register read as signed. */
  ghost predicate AddressTests(t: State, was: u32, v: u32) {
    var high, low := was / 0x1_0000, was % 0x1_0000;
    var x, y, w, e := Signed(v, Word), Signed(low, Word), Signed(was, Long), Wrap(Signed(v, Word));
    var fits := InRange(y - x, Word) && InRange(y + x, Word);
    var low16, high16 := if low >= v then low - v else low - v + 0x1_0000, HighDifference(was, v);
    var sameLess := if w >= 0x8000 then y >= x else w < 0 - 0x8000 ==> y < x;
    var sameGreater := if w >= 0x8000 then y > x else w < 0 - 0x8000 ==> y <= x;
    var carryRight := if v < 0x8000 then low >= v || high == 0 else low >= v && high != 0xFFFF;
    var higherRight := if v < 0x8000 then low > v || high == 0 else low == v || (low > v && high != 0xFFFF);
    && ((CheckCondition(t, Equal) <==> w == x) <==> low != v || 0 - 0x8000 <= w < 0x8000)
    && ((CheckCondition(t, NotEqual) <==> w != x) <==> low != v || 0 - 0x8000 <= w < 0x8000)
    && ((CheckCondition(t, LessThan) <==> w < x) <==> (fits <==> sameLess))
    && ((CheckCondition(t, GreaterEqual) <==> w >= x) <==> (fits <==> sameLess))
    && ((CheckCondition(t, GreaterThan) <==> w > x) <==> (y == x || fits <==> sameGreater))
    && ((CheckCondition(t, LessEqual) <==> w <= x) <==> (y == x || fits <==> sameGreater))
    && ((CheckCondition(t, CarrySet) <==> was < e) <==> carryRight)
    && ((CheckCondition(t, CarryClear) <==> was >= e) <==> carryRight)
    && ((CheckCondition(t, Higher) <==> was > e) <==> higherRight)
    && ((CheckCondition(t, LowerSame) <==> was <= e) <==> higherRight)
    && ((CheckCondition(t, OverflowSet) <==> !InRange(w - x, Long))
        <==> (InRange(y + x, Word) <==> InRange(w - x, Long)))
    && ((CheckCondition(t, Minus) <==> Wrap(was - e) >= 0x8000_0000) <==> (low16 >= 0x8000 <==> high16 >= 0x8000))
    && CheckCondition(t, OverflowClear) == !CheckCondition(t, OverflowSet)
    && CheckCondition(t, Plus) == !CheckCondition(t, Minus)
  }

  /** CMPA.W tests the low word of An against the operand as CMP.W would, with C inverted for operands
      from 0x8000 on; each test is right of the whole register on exactly one condition. X is kept. */
  lemma CmpaWord(s: State, sm: Mode, sr: OperandReg, dr: OperandReg)
    requires ExecCompare(s, sm, sr, DirectAddr, dr, Word, true).Ok?
    ensures var t, a := ExecCompare(s, sm, sr, DirectAddr, dr, Word, true).state, GetData(Next(s), sm, sr, Word);
            && a.Ok? && AddressTests(t, Reg32(a.state, dr), a.value)
            && ExtendFlag(t) == ExtendFlag(s) && OnlyCodes(a.state, t)
  {
    CmpaLow(s, sm, sr, dr);
    var a := GetData(Next(s), sm, sr, Word);
    WordOrders(Reg32(a.state, dr), a.value);
    hide GetData, Next, Signed, Wrap, CheckCondition, InRange, ExecCompare, Reg32, OnlyCodes, HighDifference;
    hide ExtendFlag;
  }

  // ----- EXT and MOVEQ -----

  /** A byte and the word it is the low byte of, both read as signed. */
  lemma ByteOfWord(w: nat)
    ensures Signed(w, Byte) == Signed(w, Word) <==> 0 - 128 <= Signed(w, Word) < 128
  {
    var h, low := w % 0x1_0000 / 0x100, w % 0x1_0000 % 0x100;
    assert w == 0x100 * (0x100 * (w / 0x1_0000) + h) + low;
    Remainder(0x100, 0x100 * (w / 0x1_0000) + h, low);
  }

  lemma SignedTruncated(d: int, z: Size)
    requires 0 - 128 <= d < 128 && z != Byte
    ensures Signed(Truncate(Wrap(d), z), z) == d
  {
    Wrapped(d, z);
    FitsWhole(Truncate(Wrap(d), z), z);
    hide Truncate, Wrap;
  }

  /** A write to an operand register just past the opcode word. */
  lemma RegisterWritten(s: State, r: OperandReg, z: Size, data: u32)
    ensures var u := SetReg(Next(s), r, z, data);
            && Reg32(u, r) == Blend(Reg32(s, r), data, z) && Truncate(Reg32(u, r), z) == Truncate(data, z)
            && ExtendFlag(u) == ExtendFlag(s)
            && (z == Word ==> Reg32(u, r) / 0x1_0000 == Reg32(s, r) / 0x1_0000)
  {
    var w := Reg32(s, r);
    BlendRead(w, data, z);
    if z == Word {
      Remainder(0x1_0000, w / 0x1_0000, data % 0x1_0000);
    }
    hide Truncate;
  }

  /** EXT of either size leaves the signed value of the low byte, tests it against zero and keeps X;
      the long form keeps the signed value of the word exactly when that is a sign-extended byte. */
  lemma ExtExtends(s: State, r: OperandReg, z: Size)
    requires z != Byte
    ensures var t, w := ExecExt(s, r, z).state, Reg32(s, r);
            && ExecExt(s, r, z).Ok?
            && Signed(Reg32(t, r), z) == Signed(w, Byte)
            && TestsAgainstZero(t, Reg32(t, r), z) && ExtendFlag(t) == ExtendFlag(s)
            && (z == Word ==> Reg32(t, r) / 0x1_0000 == w / 0x1_0000)
            && (z == Long ==> (Signed(Reg32(t, r), Long) == Signed(w, Word) <==> 0 - 128 <= Signed(w, Word) < 128))
            && OnlyRegister(Next(s), t, r)
  {
    var w := Reg32(s, r);
    FitsWhole(Truncate(w, Byte), Byte);
    var d := Signed(w, Byte);
    assert 0 - 128 <= d < 128 && Signed(Truncate(w, Byte), Byte) == d;
    assert RegGet(Next(s).regs, r, Byte) == Truncate(w, Byte);
    var result := Truncate(Wrap(d), z);
    SignedTruncated(d, z);
    ByteOfWord(w);
    FitsWhole(result, z);
    RegisterWritten(s, r, z, result);
    hide Blend, Wrap, LogicCodes, TestsAgainstZero, Alike, HasFlag, Signed, Truncate, RegGet, RegSet, Reg32, Next;
    hide ExtendFlag, OnlyRegister, SetReg;
    var u := SetReg(Next(s), r, z, result);
    LogicRead(u, result, z);
    OnlyRegisterBy(Next(s), LogicCodes(u, result, z), r, z, result);
    AlikeReg(u, LogicCodes(u, result, z), r);
    TestsOfTruncated(LogicCodes(u, result, z), Reg32(u, r), result, z);
  }

  /** MOVEQ leaves the immediate byte in the register, tests it against zero and keeps X; it keeps the
      byte's signed value exactly below 0x80. */
  lemma MoveqValue(s: State, r: OperandReg, imm: u32)
    requires imm < 0x100
    ensures var t := ExecMoveq(s, r, imm).state;
            && ExecMoveq(s, r, imm).Ok? && Reg32(t, r) == imm
            && TestsAgainstZero(t, imm, Long) && ExtendFlag(t) == ExtendFlag(s)
            && (Signed(Reg32(t, r), Long) == Signed(imm, Byte) <==> imm < 0x80)
            && OnlyRegister(Next(s), t, r)
  {
    RegisterWritten(s, r, Long, imm);
    var u := SetReg(Next(s), r, Long, imm);
    assert Reg32(u, r) == imm;
    assert Signed(imm, Long) == Signed(imm, Byte) <==> imm < 0x80;
    hide LogicCodes, TestsAgainstZero, Alike, HasFlag, Signed, SetReg, Reg32, Next, ExtendFlag, OnlyRegister;
    LogicRead(u, imm, Long);
    OnlyRegisterBy(Next(s), LogicCodes(u, imm, Long), r, Long, imm);
    AlikeReg(u, LogicCodes(u, imm, Long), r);
  }

  // ----- DIV divides sixteen bits -----

  lemma SmallQuotient(a: int, b: int, q: int, r: int)
    requires a >= 0 && b > 0 && a == b * q + r && 0 <= r < b
    ensures 0 <= q <= a && (b > 1 && a > 0 ==> q < a)
  {
    assert b * q == (b - 1) * q + q && b * q == b * (q + 1) - b;
    assert q < 0 ==> b * (q + 1) <= 0;
    assert q >= 0 ==> (b - 1) * q >= 0;
    assert b > 1 && q >= 1 ==> (b - 1) * q >= 1;
  }

  lemma Negated(b: int, q: int)
    ensures (0 - b) * (0 - q) == b * q && b * (0 - q) == 0 - b * q && (0 - b) * q == 0 - b * q
  {
  }

  /** The signs of dividend and divisor, and the sizes of quotient and remainder. */
  ghost predicate DividesTo(a: int, b: int, q: int, r: int) {
    var m, n := if a < 0 then 0 - a else a, if b < 0 then 0 - b else b;
    && a == b * q + r && 0 - n < r < n && (a >= 0 ==> r >= 0) && (a <= 0 ==> r <= 0)
    && 0 - m <= q <= m && (n > 1 && m > 0 ==> q < m) && (a >= 0 && b > 0 ==> q >= 0)
  }

  lemma NonNegativeDivision(a: int, b: int)
    requires a >= 0 && b != 0
    ensures DividesTo(a, b, a / b, a - b * (a / b))
  {
    var q, r := a / b, a % b;
    assert a == b * q + r;
    if b > 0 {
      SmallQuotient(a, b, q, r);
    } else {
      Negated(b, q);
      SmallQuotient(a, 0 - b, 0 - q, r);
    }
  }

  /** C++ division: rounded toward zero, the remainder with the sign of the dividend. */
  lemma TruncatedDivision(a: int, b: int)
    requires b != 0
    ensures DividesTo(a, b, Quotient(a, b), a - b * Quotient(a, b))
  {
    if a >= 0 {
      NonNegativeDivision(a, b);
    } else {
      NonNegativeDivision(0 - a, b);
      Negated(b, (0 - a) / b);
    }
  }

  /** A word as DIVS or DIVU reads it. */
  function Read(signed: bool, w: nat): int {
    if signed then Signed(w, Word) else w % 0x1_0000
  }

  lemma ReadWord(signed: bool, v: int)
    requires if signed then 0 - 0x8000 <= v < 0x8000 else 0 <= v < 0x1_0000
    ensures Read(signed, v % 0x1_0000) == v
  {
    if v < 0 {
      Remainder(0x1_0000, -1, v + 0x1_0000);
    }
  }

  lemma ReadBounds(signed: bool, w: nat)
    ensures if signed then 0 - 0x8000 <= Read(signed, w) < 0x8000 else 0 <= Read(signed, w) < 0x1_0000
  {
  }

  /** The two words DIV packs: a true quotient and remainder of the low word, but for -0x8000 / -1,
      whose quotient 0x8000 reads back as -0x8000. */
  lemma PackedQuotient(signed: bool, src: u32, dst: u32)
    requires Truncate(src, Word) != 0 && Read(signed, src) != 0
    ensures var w := Divide(signed, src, dst);
            var a, b, q, r := Read(signed, dst), Read(signed, src), Read(signed, w), Read(signed, w / 0x1_0000);
            && b * q + r == (if a == 0 - 0x8000 && b == -1 then 0x8000 else a)
            && (if b < 0 then b < r < 0 - b else 0 - b < r < b) && (a >= 0 ==> r >= 0) && (a <= 0 ==> r <= 0)
  {
    var a, b := Read(signed, dst), Read(signed, src);
    ReadBounds(signed, dst);
    ReadBounds(signed, src);
    TruncatedDivision(a, b);
    var q, r := Quotient(a, b), a - b * Quotient(a, b);
    var w: nat := q % 0x1_0000 + 0x1_0000 * (r % 0x1_0000);
    assert Divide(signed, src, dst) == w;
    Remainder(0x1_0000, r % 0x1_0000, q % 0x1_0000);
    hide Divide, Quotient, Signed;
    assert Read(signed, w) == Read(signed, q % 0x1_0000) by { ReadLow(signed, w); }
    ReadWord(signed, r);
    if a == 0 - 0x8000 && b == -1 {
      assert q == 0x8000 && r == 0;
      ReadTop();
    } else {
      ReadWord(signed, q);
    }
  }

  lemma ReadLow(signed: bool, w: nat)
    ensures Read(signed, w) == Read(signed, w % 0x1_0000)
  {
  }

  lemma ReadTop()
    ensures Read(true, 0x8000 % 0x1_0000) == 0 - 0x8000
  {
  }

  /** DIVU and DIVS divide the low word of the register. The quotient and remainder they leave make
      up the 32-bit dividend the manual divides exactly when its high word only extends the low one
      (with 0x8000 / -1 right by accident, and -0x8000 / -1 the overflow the code does not report). */
  lemma DivResult(s: State, signed: bool, sm: Mode, sr: OperandReg, dr: OperandReg)
    requires ExecDiv(s, signed, sm, sr, dr).Ok?
    ensures var t, o := ExecDiv(s, signed, sm, sr, dr).state, GetData(Next(s), sm, sr, Word);
            && o.Ok?
            && var was, now := Reg32(o.state, dr), Reg32(t, dr);
            && var a, b := Read(signed, was), Read(signed, o.value);
            && var q, r := Read(signed, now), Read(signed, now / 0x1_0000);
            && var dividend := if signed then Signed(was, Long) else was as int;
            && b != 0 && (if b < 0 then b < r < 0 - b else 0 - b < r < b) && (a >= 0 ==> r >= 0) && (a <= 0 ==> r <= 0)
            && (dividend == b * q + r <==> dividend == (if a == 0 - 0x8000 && b == -1 then 0x8000 else a))
            && (if a == 0 - 0x8000 && b == -1 then q == a && r == 0 else a == b * q + r)
            && TestsAgainstZero(t, now, Word) && ExtendFlag(t) == ExtendFlag(s) && OnlyRegister(o.state, t, dr)
  {
    OperandBound(Next(s), sm, sr, Word);
    FlagsKept(Next(s), sm, sr, Word);
    assert Next(s).regs[SR] == s.regs[SR];
    var o := GetData(Next(s), sm, sr, Word);
    var was := Reg32(o.state, dr);
    FitsWhole(o.value, Word);
    ReadLow(signed, was);
    var dst := RegGet(o.state.regs, dr, Word);
    assert dst == was % 0x1_0000;
    hide GetData, Next, Divide, LogicCodes, TestsAgainstZero, Alike, HasFlag, Signed, RegGet;
    NonZeroRead(signed, o.value);
    PackedQuotient(signed, o.value, dst);
    var result := Divide(signed, o.value, dst);
    SetLong(o.state, dr, result);
    var u := SetReg(o.state, dr, Long, result);
    LogicRead(u, result, Word);
    AlikeReg(u, LogicCodes(u, result, Word), dr);
    assert u.regs[SR] == o.state.regs[SR];
    OnlyRegisterBy(o.state, LogicCodes(u, result, Word), dr, Long, result);
    hide SetReg, Reg32, Read, OnlyRegister;
  }

  lemma NonZeroRead(signed: bool, v: u32)
    requires Truncate(v, Word) != 0
    ensures Read(signed, v) != 0
  {
  }

  // ----- immediate bit numbers -----

  /** A bit instruction with an immediate bit number is as long as the manual says, one extension
      word for the number, exactly when its destination is not a data register. */
  lemma BitImmediateLength(s: State, bit: BitKind, sr: OperandReg, dm: Mode, dr: OperandReg)
    requires IsDataAlterable(dm) && ExecBitManip(s, bit, Immediate, sr, dm, dr).Ok?
    ensures var t := ExecBitManip(s, bit, Immediate, sr, dm, dr).state;
            Pc(t) == Wrap(Pc(s) + 4 + EaLength(dm, BitSize(dm))) <==> !dm.DirectData?
  {
    BitsLength(s, bit, Immediate, sr, dm, dr);
    WrapApart(Pc(s) + 4 + EaLength(dm, BitSize(dm)), if dm.DirectData? then 2 else 0);
    hide ExecBitManip, TwoOperands, Wrap;
  }

  // ----- shifts -----

  /** A shift stores nothing: memory and every register but PC and SR are as they were. */
  lemma ShiftKeepsAll(s: State, kind: ShiftKind, left: bool, count: Count, m: Mode, r: OperandReg, z: Size)
    requires ExecBitShift(s, kind, left, count, m, r, z).Ok?
    ensures var t := ExecBitShift(s, kind, left, count, m, r, z).state;
            Alike(s, t) && Pc(t) == Pc(Next(s))
  {
    hide GetDataSilent, ShiftUnit, ShiftCount, WithCodes, HasFlag;
    forall x: bool, n: bool, e: bool, v: bool, c: bool
      ensures HasFlag(WithCodes(s.regs[SR], x, n, e, v, c), Supervisor) == HasFlag(s.regs[SR], Supervisor)
    {
      CodesRead(s.regs[SR], x, n, e, v, c);
    }
  }
}
