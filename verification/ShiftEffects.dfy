// The codes the shifts and rotates set, against the shifted value (src/instructions/bit_shift.cpp).

module ShiftEffects {
  import opened Helpers
  import opened Memory
  import opened Registers
  import opened CpuState
  import opened Instructions
  import opened Addressing
  import opened Conditions
  import opened Effects
  import opened Rotation

  /** N and Z of a value r of a size, V clear. */
  ghost predicate ResultCodes(t: State, r: int, z: Size) {
    SignTests(t, r, z) && (CheckCondition(t, Equal) <==> r == 0) && !CheckCondition(t, OverflowSet)
  }

  /** C and X. */
  ghost predicate CarryCodes(t: State, c: bool, x: bool) {
    CheckCondition(t, CarrySet) == c && ExtendFlag(t) == x
  }

  /** What an arithmetic right shift tests: the shifted value, without the sign bits that should come in
      from the left unless the count brings them down from bit 63. */
  function ArithmeticRight(v: u32, k: nat, z: Size): int
    requires k < 64
  {
    var n := 8 * Bytes(z);
    if v >= Modulus(z) / 2 && 64 - k < n then Modulus(z) - Pow2(64 - k) else v / Pow2(k)
  }

  /** After a left shift: N and Z of the value cut to its size, but C and X only bit 0 of the value. */
  ghost predicate LeftCodes(t: State, z: Size, v: u32, k: nat) {
    var odd := k == 0 && v % 2 == 1;
    ResultCodes(t, v * Pow2(k) % Modulus(z), z) && CarryCodes(t, odd, odd)
  }

  /** The codes after a shift of v, of size z, by k, with C and X as they were. */
  ghost predicate ShiftTests(t: State, kind: ShiftKind, left: bool, z: Size, v: u32, k: nat, c: bool, x: bool)
    requires k < 64
  {
    var n := 8 * Bytes(z);
    match kind
    case Arithmetic =>
      if left then LeftCodes(t, z, v, k)
      else k > 0 && ResultCodes(t, ArithmeticRight(v, k, z), z) && CarryCodes(t, BitAt(v, k - 1), BitAt(v, k - 1))
    case Logical =>
      if left then LeftCodes(t, z, v, k)
      else k > 0 && ResultCodes(t, v / Pow2(k), z) && CarryCodes(t, BitAt(v, k - 1), BitAt(v, k - 1))
    case Rotate =>
      && ResultCodes(t, if v == 0 then 0 else 1, z)
      && (if left then k <= 8 && CarryCodes(t, v >= Pow2(8 - k), x) else k <= 9 && k <= n && CarryCodes(t, v != 0, x))
    case RotateExtend =>
      && k <= n + 1
      && var carry := if c then Modulus(z) else 0;
         var r := if left then Turn(v + carry, k, n + 1) else Turn(carry, n + 1 - k, n + 1);
         var out := r >= (match z case Byte => 1 case Word => 0x100 case Long => 0x100_0000);
         ResultCodes(t, r % Modulus(z), z) && CarryCodes(t, out, out)
  }

  lemma CodesOfShift(u: State, r: nat, z: Size, c: bool, x: bool)
    ensures var t := SetCodes(u, x, IsNegative(r, z), IsZero(r, z), false, c);
            ResultCodes(t, Truncate(r, z), z) && CarryCodes(t, c, x)
  {
    SignRead(u, x, IsNegative(r, z), IsZero(r, z), false, c, r, z);
    CodesRead(u.regs[SR], x, IsNegative(r, z), IsZero(r, z), false, c);
    hide WithCodes, HasFlag, IsNegative, Truncate, SignTests;
  }

  lemma TruncateIs(r: nat, z: Size)
    ensures Truncate(r, z) == r % Modulus(z) == r % Pow2(8 * Bytes(z)) && Pow2(8 * Bytes(z)) == Modulus(z)
  {
    PowModulus(z);
    hide Pow2;
  }

  lemma LeftShift(v: u32, k: nat, z: Size)
    requires k < 64
    ensures Truncate(Shl(v, k), z) == v * Pow2(k) % Modulus(z) && (Shl(v, k) % 2 == 1 <==> k == 0 && v % 2 == 1)
  {
    TruncateIs(Shl(v, k), z);
    WordLow(v * Pow2(k), 8 * Bytes(z));
    LowBit(v, k);
    hide Pow2, Truncate;
  }

  lemma LowBit(v: u32, k: nat)
    ensures Shl(v, k) % 2 == 1 <==> k == 0 && v % 2 == 1
  {
    var p := Pow2(k);
    assert Pow2(1) == 2 && Pow2(0) == 1;
    assert k > 0 ==> p == 2 * Pow2(k - 1);
    hide Pow2;
    WordLow(v * p, 1);
    if k > 0 {
      Twice(v, Pow2(k - 1));
      Remainder(2, v * Pow2(k - 1), 0);
    }
  }

  lemma RightShift(v: u32, k: nat, z: Size)
    requires k < 64 && v < Modulus(z)
    ensures Truncate(Shr(v, k), z) == v / Pow2(k)
  {
    ShrIs(v, k);
    hide Pow2, Shr;
    Smaller(v, Pow2(k));
    FitsWhole(v / Pow2(k), z);
  }

  lemma Smaller(v: nat, p: nat)
    requires p > 0
    ensures v / p <= v
  {
    var q := v / p;
    Multiple(p, q);
  }

  lemma Multiple(p: nat, q: nat)
    requires p > 0
    ensures p * q >= q
  {
    assert (p - 1) * q >= 0;
  }

  lemma {:induction false} TopOnes(k: nat)
    requires k <= 64
    ensures (Pow2(k) - 1) * Pow2(64 - k) == Pow2(64) - Pow2(64 - k)
  {
    Pow2Sum(k, 64 - k);
    hide Pow2;
    Minus1(Pow2(k), Pow2(64 - k));
  }

  lemma Minus1(p: int, q: int)
    ensures (p - 1) * q == p * q - q
  {
  }

  lemma BelowTop(m: nat, h: nat, d: nat)
    requires 0 < d <= m && h > 0
    ensures (m * h - d) % m == m - d
  {
    Remainder(m, h - 1, m - d);
  }

  lemma Multiples(m: nat, h: nat, e: nat)
    requires m > 0
    ensures (m * h - m * e) % m == 0
  {
    Remainder(m, h - e, 0);
  }

  /** The low bits of k ones at the top of a 64-bit word. */
  lemma FillLow(k: nat, n: nat)
    requires 0 < k < 64 && n <= 64
    ensures (Pow2(64) - Pow2(64 - k)) % Pow2(n) == if 64 - k < n then Pow2(n) - Pow2(64 - k) else 0
  {
    hide Pow2;
    Pow2Sum(n, 64 - n);
    if 64 - k < n {
      Pow2Sum(64 - k, n - (64 - k));
      Multiple(Pow2(n - (64 - k)), Pow2(64 - k));
      BelowTop(Pow2(n), Pow2(64 - n), Pow2(64 - k));
    } else {
      Pow2Sum(n, 64 - k - n);
      Multiples(Pow2(n), Pow2(64 - n), Pow2(64 - k - n));
    }
  }

  lemma FillIs(k: nat)
    requires 0 < k < 64
    ensures Shl(Pow2(k) - 1, 64 - k) == Pow2(64) - Pow2(64 - k)
  {
    TopOnes(k);
    Pow64();
    hide Pow2;
    Remainder(0x1_0000_0000_0000_0000, 0, Pow2(64) - Pow2(64 - k));
  }

  lemma SignFilled(v: u32, k: nat, z: Size)
    requires 0 < k < 64 && v < Modulus(z)
    ensures Truncate(BitOr(Shr(v, k), SignFill(Arithmetic, z, v, k)), z) == ArithmeticRight(v, k, z)
  {
    hide Pow2, BitOr, Truncate, IsNegative, Shr, SignFill, Shl;
    var n, a, b := 8 * Bytes(z), Shr(v, k), SignFill(Arithmetic, z, v, k);
    FillOf(Arithmetic, z, v, k);
    TruncateIs(BitOr(a, b), z);
    ShrIs(v, k);
    OrLow(a, b, n);
    FillLow(k, n);
    FillIs(k);
    Smaller(v, Pow2(k));
    Remainder(Pow2(n), 0, v / Pow2(k));
    Remainder(Pow2(n), 0, 0);
    OrZero(a);
    if v >= Modulus(z) / 2 && 64 - k < n {
      Gone(v, k, n);
      OrCommutes(0, b % Pow2(n));
      OrZero(b % Pow2(n));
    }
  }

  lemma FillOf(kind: ShiftKind, z: Size, v: u32, k: nat)
    requires k < 64 && v < Modulus(z)
    ensures SignFill(kind, z, v, k)
            == if kind.Arithmetic? && v >= Modulus(z) / 2 then Shl(Pow2(k) - 1, 64 - k) else 0
  {
    HighBit(v, z);
    FitsWhole(v, z);
    hide IsNegative, Truncate, Shl, Pow2;
  }

  lemma Gone(v: nat, k: nat, n: nat)
    requires v < Pow2(n) && n <= 32 && 64 - k < n
    ensures v / Pow2(k) == 0
  {
    hide Pow2;
    Pow2Sum(k - n, n);
    Multiple(Pow2(k - n), Pow2(n));
    Remainder(Pow2(k), 0, v);
  }

  lemma ZeroRotates(k: nat, n: nat)
    requires k <= n
    ensures RotateLeft(0, k, n) == 0 && RotateRight(0, k, n) == 0
  {
    ShrIs(0, k);
    ShrIs(0, n - k);
    hide Shr, Pow2;
    Remainder(Pow2(n), 0, 0);
    Remainder(0x1_0000_0000_0000_0000, 0, 0);
  }

  /** A rotate by up to the width is zero for zero only. */
  lemma RotatedZero(v: nat, k: nat, n: nat)
    requires 0 < n <= 64 && k <= n && v < Pow2(n)
    ensures (RotateLeft(v, k, n) == 0 <==> v == 0) && (RotateRight(v, k, n) == 0 <==> v == 0)
  {
    RotationsUndo(v, k, n);
    ZeroRotates(k, n);
    hide RotateLeft, RotateRight;
  }

  lemma LeftCarry(v: nat, s: nat)
    ensures Shr(v, s) != 0 <==> v >= Pow2(s)
  {
    ShrIs(v, s);
    var p, q := Pow2(s), v / Pow2(s);
    hide Pow2, Shr;
    assert v == p * q + v % p;
    if q > 0 {
      Multiple(q, p);
    }
  }

  lemma RightCarry(v: u32, s: nat)
    requires s <= 9
    ensures Shl(v, s) != 0 <==> v != 0
  {
    Pow2Sum(s, 9 - s);
    assert Pow2(9) == 512;
    var p := Pow2(s);
    hide Pow2;
    Multiple(Pow2(9 - s), p);
    Bounded(v, p);
  }

  lemma Bounded(v: u32, p: nat)
    requires 0 < p <= 512
    ensures v * p < 0x1_0000_0000_0000_0000 && (v * p == 0 <==> v == 0)
  {
    assert v * p <= v * 512;
  }

  lemma Carried(v: nat, c: bool, n: nat)
    requires v < Pow2(n)
    ensures var carry := if c then Pow2(n) else 0;
            BitOr(v, carry) == v + carry && v + carry < Pow2(n + 1)
  {
    hide BitOr;
    OrAdds(1, v, n);
    OrCommutes(Pow2(n), v);
    OrZero(v);
  }

  lemma Through(v: nat, k: nat, n: nat)
    requires 0 < n <= 64 && k <= n && v < Pow2(n)
    ensures RotateLeft(v, k, n) == Turn(v, k, n) && RotateRight(v, k, n) == Turn(v, n - k, n)
  {
    LeftTurns(v, k, n);
    RightIsLeft(v, k, n);
    LeftTurns(v, n - k, n);
    hide RotateLeft, RotateRight, Turn, Pow2;
  }

  /** The counts for which the source shifts a 64-bit word by 64 or more. */
  predicate OutOfCount(kind: ShiftKind, left: bool, z: Size, k: nat) {
    match kind
    case Rotate => if left then k > 8 else k > 9 || k > 8 * Bytes(z)
    case RotateExtend => k > 8 * Bytes(z) + 1
    case _ => !left && k == 0
  }

  /** What a shift of one kind must establish: the codes it sets, or that its count is out of range. */
  ghost predicate Sets(u: State, kind: ShiftKind, left: bool, z: Size, v: u32, k: nat, c: bool, x: bool)
    requires k < 64
  {
    match ShiftCodes(u, ShiftUnit(kind, left, z, v, k, c, x), z)
    case Ok(_, t) => !OutOfCount(kind, left, z, k) && ShiftTests(t, kind, left, z, v, k, c, x)
    case Throw(_, _) => false
    case Undefined => OutOfCount(kind, left, z, k)
  }

  lemma LeftTests(u: State, kind: ShiftKind, z: Size, v: u32, k: nat, c: bool, x: bool)
    requires k < 64 && v < Modulus(z) && (kind.Arithmetic? || kind.Logical?)
    ensures Sets(u, kind, true, z, v, k, c, x)
  {
    hide SetCodes, ResultCodes, CarryCodes, Shl, Pow2, IsNegative, IsZero, Truncate, BitOr, SignFill;
    var o := ShiftUnit(kind, true, z, v, k, c, x);
    LeftShift(v, k, z);
    CodesOfShift(u, o.result, z, o.c, o.x);
  }

  lemma RightTests(u: State, kind: ShiftKind, z: Size, v: u32, k: nat, c: bool, x: bool)
    requires k < 64 && v < Modulus(z) && (kind.Arithmetic? || kind.Logical?)
    ensures Sets(u, kind, false, z, v, k, c, x)
  {
    hide SetCodes, ResultCodes, CarryCodes, Shl, Shr, Pow2, IsNegative, IsZero, Truncate, BitOr, SignFill;
    hide ArithmeticRight;
    if k > 0 {
      var o := ShiftUnit(kind, false, z, v, k, c, x);
      CodesOfShift(u, o.result, z, o.c, o.x);
      if kind.Arithmetic? {
        SignFilled(v, k, z);
      } else {
        RightShift(v, k, z);
        OrZero(Shr(v, k));
        FillOf(Logical, z, v, k);
      }
    }
  }

  lemma RotationTests(u: State, left: bool, z: Size, v: u32, k: nat, c: bool, x: bool)
    requires k < 64 && v < Modulus(z)
    ensures Sets(u, Rotate, left, z, v, k, c, x)
  {
    hide SetCodes, ResultCodes, CarryCodes, RotateLeft, RotateRight, Shl, Shr, Pow2, IsNegative, IsZero, Truncate;
    PowModulus(z);
    if !OutOfCount(Rotate, left, z, k) {
      var o := ShiftUnit(Rotate, left, z, v, k, c, x);
      CodesOfShift(u, o.result, z, o.c, o.x);
      if k <= 8 * Bytes(z) { RotatedZero(v, k, 8 * Bytes(z)); }
      if left { LeftCarry(v, 8 - k); } else { RightCarry(v, 9 - k); }
      Bit01(z);
    }
  }

  lemma ThroughTests(u: State, left: bool, z: Size, v: u32, k: nat, c: bool, x: bool)
    requires k < 64 && v < Modulus(z)
    ensures Sets(u, RotateExtend, left, z, v, k, c, x)
  {
    hide SetCodes, ResultCodes, CarryCodes, RotateLeft, RotateRight, Turn, Shr, Pow2, BitOr, IsNegative, IsZero;
    hide Truncate;
    var n := 8 * Bytes(z);
    PowModulus(z);
    Carried(v, c, n);
    Carried(0, c, n);
    if k <= n + 1 {
      var carry, o := if c then Pow2(n) else 0, ShiftUnit(RotateExtend, left, z, v, k, c, x);
      CodesOfShift(u, o.result, z, o.c, o.x);
      Through(v + carry, k, n + 1);
      Through(carry, k, n + 1);
      LeftCarry(o.result, if z == Byte then 0 else if z == Word then 8 else 24);
      TruncateIs(o.result, z);
      OneByte();
    }
  }

  lemma UnitTests(u: State, kind: ShiftKind, left: bool, z: Size, v: u32, k: nat, c: bool, x: bool)
    requires k < 64 && v < Modulus(z)
    ensures Sets(u, kind, left, z, v, k, c, x)
  {
    hide Sets;
    match kind
    case Rotate => RotationTests(u, left, z, v, k, c, x);
    case RotateExtend => ThroughTests(u, left, z, v, k, c, x);
    case _ => if left { LeftTests(u, kind, z, v, k, c, x); } else { RightTests(u, kind, z, v, k, c, x); }
  }

  lemma Bit01(z: Size)
    ensures Truncate(0, z) == 0 && Truncate(1, z) == 1
  {
  }

  lemma OneByte()
    ensures Pow2(0) == 1 && Pow2(8) == 0x100 && Pow2(24) == 0x100_0000
  {
    assert Pow2(12) == 0x1000;
    assert Pow2(16) == 0x1_0000;
    assert Pow2(20) == 0x10_0000;
  }

  /** A shift instruction sets the codes of its operand shifted by its count modulo 64, and is undefined
      exactly on the counts the source cannot shift by. */
  lemma ShiftSets(s: State, kind: ShiftKind, left: bool, count: Count, m: Mode, r: OperandReg, z: Size)
    requires GetDataSilent(Next(s), m, r, z).Value?
    ensures var v, k := GetDataSilent(Next(s), m, r, z).value, ShiftCount(Next(s), count, z);
            match ExecBitShift(s, kind, left, count, m, r, z)
            case Ok(_, t) =>
              && !OutOfCount(kind, left, z, k)
              && ShiftTests(t, kind, left, z, v, k, CheckCondition(s, CarrySet), ExtendFlag(s))
            case Throw(_, _) => false
            case Undefined => OutOfCount(kind, left, z, k)
  {
    hide GetDataSilent, ShiftUnit, ShiftTests, ShiftCodes, ShiftCount, OutOfCount, HasFlag;
    OperandBound(Next(s), m, r, z);
    var v, k := GetDataSilent(Next(s), m, r, z).value, ShiftCount(Next(s), count, z);
    UnitTests(Next(s), kind, left, z, v, k, HasFlag(Next(s).regs[SR], Carry), ExtendFlag(Next(s)));
  }

  /** The count: the fixed one, or the register's low bits at the operand size, modulo 64. */
  lemma CountOf(s: State, count: Count, z: Size)
    requires count.InReg? ==> count.r < 8
    ensures ShiftCount(s, count, z) == (match count case Fixed(n) => n % 64 case InReg(r) => Reg32(s, r) % 64)
  {
    if count.InReg? {
      match z
      case Byte => LowCount(Reg32(s, count.r), 4);
      case Word => LowCount(Reg32(s, count.r), 0x400);
      case Long =>
    }
  }

  lemma LowCount(x: nat, k: nat)
    requires k > 0
    ensures x % (64 * k) % 64 == x % 64
  {
    ModMod(x, 64, k, 64 * k);
  }
}
