// The codes of AS and LS against shifting one bit at a time, as the manual describes the
// instructions (src/instructions/bit_shift.cpp).

module SingleShifts {
  import opened Helpers
  import opened Memory
  import opened Registers
  import opened CpuState
  import opened Instructions
  import opened Effects
  import opened Conditions
  import opened Rotation
  import opened ShiftEffects

  /** k shifts of an n-bit value by one bit; an arithmetic shift to the right repeats the sign. */
  function Shifts(arithmetic: bool, left: bool, v: nat, k: nat, n: nat): nat
    requires n > 0
  {
    if k == 0 then v
    else
      var w := Shifts(arithmetic, left, v, k - 1, n);
      if left then 2 * w % Pow2(n)
      else w / 2 + (if arithmetic && w >= Pow2(n - 1) then Pow2(n - 1) else 0)
  }

  /** The last bit shifted out. */
  predicate LastOut(arithmetic: bool, left: bool, v: nat, k: nat, n: nat)
    requires n > 0
  {
    && k > 0
    && var w := Shifts(arithmetic, left, v, k - 1, n);
       if left then w >= Pow2(n - 1) else w % 2 == 1
  }

  /** Some shift to the left changes the sign. */
  predicate SignMoves(v: nat, k: nat, n: nat)
    requires n > 0
  {
    && k > 0
    && (SignMoves(v, k - 1, n) || (Shifts(true, true, v, k, n) >= Pow2(n - 1) <==> v < Pow2(n - 1)))
  }

  // ----- to the left -----

  lemma DoubleLow(y: nat, m: nat)
    requires m > 0
    ensures 2 * (y % m) % m == 2 * y % m
  {
    var q, r := y / m, 2 * (y % m);
    assert 2 * y == m * (2 * q + r / m) + r % m by {
      assert y == m * q + y % m;
      assert m * (2 * q) == 2 * (m * q);
    }
    Remainder(m, 2 * q + r / m, r % m);
  }

  lemma {:induction false} LeftShifts(a: bool, v: nat, k: nat, n: nat)
    requires n > 0 && v < Pow2(n)
    ensures Shifts(a, true, v, k, n) == v * Pow2(k) % Pow2(n)
  {
    if k == 0 {
      Remainder(Pow2(n), 0, v);
    } else {
      LeftShifts(a, v, k - 1, n);
      Twice(v, Pow2(k - 1));
      DoubleLow(v * Pow2(k - 1), Pow2(n));
    }
  }

  lemma Cancel(v: nat, p: nat, q: nat)
    requires p > 0 && q > 0
    ensures p * q > 0 && v * p / (p * q) == v / q
  {
    var h, l := v / q, v % q;
    assert v == q * h + l;
    BelowProduct(l, q, p, 0);
    Distribute(q, h, l, p);
    Remainder(q * p, h, l * p);
  }

  /** The bit that a shift of v to the left by k moves out last. */
  predicate TopOut(v: nat, k: nat, n: nat) {
    0 < k <= n && BitAt(v, n - k)
  }

  lemma PowHalf(n: nat)
    requires n > 0
    ensures Pow2(n) == 2 * Pow2(n - 1)
  {
  }

  lemma PowOrder(n: nat, j: nat)
    requires n <= j
    ensures Pow2(n) <= Pow2(j)
  {
    hide Pow2;
    Pow2Sum(j - n, n);
    Multiple(Pow2(j - n), Pow2(n));
  }

  lemma One()
    ensures Pow2(0) == 1
  {
  }

  lemma Times(a: nat, b: nat, p: nat)
    requires p > 0
    ensures a * p >= b * p <==> a >= b
  {
    if a >= b {
      assert (a - b) * p >= 0;
    } else {
      Multiple(p, b - a);
      assert (b - a) * p == b * p - a * p;
    }
  }

  lemma Whole(m: nat, q: nat, v: nat)
    requires m > 0
    ensures v * (m * q) % m == 0
  {
    assert v * (m * q) == m * (q * v);
    Remainder(m, q * v, 0);
  }

  lemma LeftOut(a: bool, v: nat, k: nat, n: nat)
    requires n > 0 && v < Pow2(n)
    ensures LastOut(a, true, v, k, n) <==> TopOut(v, k, n)
  {
    hide Pow2, Shr, Shifts;
    if k > 0 {
      PowHalf(n);
      LeftShifts(a, v, k - 1, n);
      if k <= n {
        Pow2Sum(k - 1, n - k);
        Cancel(v, Pow2(k - 1), Pow2(n - k));
        ShrIs(v, n - k);
        SplitHigh(v * Pow2(k - 1), Pow2(n - 1));
      } else {
        Pow2Sum(n, k - 1 - n);
        Whole(Pow2(n), Pow2(k - 1 - n), v);
      }
    }
  }

  /** The values whose sign survives k shifts to the left. */
  predicate SignStays(v: nat, k: nat, n: nat) {
    if k < n then v < Pow2(n - 1 - k) || v >= Pow2(n) - Pow2(n - 1 - k) else v == 0
  }

  lemma {:induction false} SignMovesWhen(v: nat, k: nat, n: nat)
    requires n > 0 && v < Pow2(n)
    ensures SignMoves(v, k, n) <==> !SignStays(v, k, n)
  {
    if k == 0 {
      PowHalf(n);
    } else {
      SignMovesWhen(v, k - 1, n);
      hide Shifts, SignStays, Pow2;
      if k < n {
        SignStep(v, k, n);
      } else {
        SignGone(v, k, n);
      }
    }
  }

  /** One more shift keeps the sign. */
  predicate Kept(v: nat, k: nat, n: nat)
    requires n > 0
  {
    Shifts(true, true, v, k, n) >= Pow2(n - 1) <==> v >= Pow2(n - 1)
  }

  lemma SignStep(v: nat, k: nat, n: nat)
    requires v < Pow2(n) && 0 < k < n
    ensures SignStays(v, k, n) <==> SignStays(v, k - 1, n) && Kept(v, k, n)
  {
    hide Pow2, Shifts;
    LeftShifts(true, v, k, n);
    PowHalf(n);
    PowHalf(n - k);
    Pow2Sum(n - 1 - k, k);
    var g, p := Pow2(n - 1 - k), Pow2(k);
    PowHalf(k);
    Multiple(Pow2(k - 1), g);
    assert 2 * g <= g * p by { Twice(g, Pow2(k - 1)); }
    if v < 2 * g {
      SmallStays(v, g, p);
    } else if v >= Pow2(n) - 2 * g {
      LargeStays(v, g, p, Pow2(n));
    }
  }

  lemma SignGone(v: nat, k: nat, n: nat)
    requires v < Pow2(n) && 0 < n <= k
    ensures SignStays(v, k, n) <==> SignStays(v, k - 1, n) && Kept(v, k, n)
  {
    hide Pow2, Shifts;
    LeftShifts(true, v, k, n);
    PowHalf(n);
    One();
    Pow2Sum(n, k - n);
    Whole(Pow2(n), Pow2(k - n), v);
  }

  lemma SmallStays(v: nat, g: nat, p: nat)
    requires p > 0 && g > 0 && v < 2 * g
    ensures v * p % (2 * (g * p)) >= g * p <==> v >= g
  {
    BelowProduct(v, 2 * g, p, 0);
    assert 2 * g * p == 2 * (g * p);
    Remainder(2 * (g * p), 0, v * p);
    Times(v, g, p);
  }

  lemma LargeStays(v: nat, g: nat, p: nat, m: nat)
    requires p > 0 && g > 0 && m == 2 * (g * p) && m - 2 * g <= v < m
    ensures v * p % m >= g * p <==> v >= m - g
  {
    var d := m - v;
    Times(2 * g, d, p);
    assert 2 * g * p == 2 * (g * p);
    Times(g, d, p);
    Multiple(p, d);
    Less(m, d, p);
    Remainder(m, p - 1, m - d * p);
  }

  lemma Less(m: nat, d: nat, p: nat)
    requires d <= m
    ensures (m - d) * p == m * (p - 1) + (m - d * p)
  {
  }

  // ----- to the right -----

  lemma Halved(p: nat, v: nat, h: nat, b: nat, r: nat)
    requires v == p * (2 * h + b) + r && b < 2 && r < p
    ensures v / (2 * p) == h
  {
    assert p * (2 * h + b) == 2 * p * h + p * b;
    assert p * b <= p;
    Remainder(2 * p, h, p * b + r);
  }

  lemma HalfOf(v: nat, p: nat)
    requires p > 0
    ensures v / p / 2 == v / (2 * p)
  {
    var q := v / p;
    assert q == 2 * (q / 2) + q % 2;
    Halved(p, v, q / 2, q % 2, v % p);
  }

  lemma {:induction false} RightShifts(a: bool, v: nat, k: nat, n: nat)
    requires n > 0 && (a ==> v < Pow2(n - 1))
    ensures Shifts(a, false, v, k, n) == v / Pow2(k)
  {
    if k > 0 {
      RightShifts(a, v, k - 1, n);
      Smaller(v, Pow2(k - 1));
      HalfOf(v, Pow2(k - 1));
    }
  }

  /** An arithmetic shift to the right of a negative value shifts its complement. */
  lemma {:induction false} NegativeShifts(v: nat, k: nat, n: nat)
    requires n > 0 && Pow2(n - 1) <= v < Pow2(n)
    ensures Shifts(true, false, v, k, n) == Pow2(n) - 1 - (Pow2(n) - 1 - v) / Pow2(k) >= Pow2(n - 1)
  {
    var c := Pow2(n) - 1 - v;
    if k > 0 {
      NegativeShifts(v, k - 1, n);
      HalfOf(c, Pow2(k - 1));
    }
    Smaller(c, Pow2(k));
  }

  lemma Complement(h: nat, p: nat, v: nat)
    requires p > 0 && v < h * p
    ensures (h * p - 1 - v) / p == h - 1 - v / p
  {
    var q, r := v / p, v % p;
    assert h * p - 1 - v == p * (h - 1 - q) + (p - 1 - r);
    Remainder(p, h - 1 - q, p - 1 - r);
  }

  /** The last bit out of a shift to the right: the sign once the count has passed the width. */
  lemma RightOut(a: bool, v: nat, k: nat, n: nat)
    requires n > 0 && v < Pow2(n) && k > 0
    ensures LastOut(a, false, v, k, n) <==> BitAt(v, k - 1) || (a && v >= Pow2(n - 1) && k > n)
  {
    hide Pow2, Shifts, Shr;
    ShrIs(v, k - 1);
    if a && v >= Pow2(n - 1) {
      NegativeShifts(v, k - 1, n);
      NegativeOut(v, k - 1, n);
      if k > n { NoBit(v, k - 1, n); }
    } else {
      RightShifts(a, v, k - 1, n);
    }
  }

  lemma Even(n: nat)
    requires n > 0
    ensures Pow2(n) % 2 == 0
  {
  }

  lemma NegativeOut(v: nat, j: nat, n: nat)
    requires n > 0 && v < Pow2(n)
    ensures var p, c := Pow2(j), Pow2(n) - 1 - v;
            (Pow2(n) - 1 - c / p) % 2 == if j < n then v / p % 2 else 1
  {
    hide Pow2;
    Even(n);
    if j < n {
      Even(n - j);
      Pow2Sum(n - j, j);
      ComplementBit(Pow2(n), Pow2(n - j), Pow2(j), v);
    } else {
      PowOrder(n, j);
      ComplementOut(Pow2(n), Pow2(j), Pow2(n) - 1 - v);
    }
  }

  lemma ComplementBit(m: nat, h: nat, p: nat, v: nat)
    requires p > 0 && m == h * p && v < m && h % 2 == 0 && m % 2 == 0
    ensures (m - 1 - (m - 1 - v) / p) % 2 == v / p % 2
  {
    Complement(h, p, v);
    var q := v / p;
    Parities(q, m, h);
  }

  lemma ComplementOut(m: nat, p: nat, c: nat)
    requires m % 2 == 0 && c < p
    ensures (m - 1 - c / p) % 2 == 1
  {
    Below(c, p);
  }

  lemma Below(v: nat, p: nat)
    requires v < p
    ensures v / p == 0
  {
    Remainder(p, 0, v);
  }

  lemma NoBit(v: nat, j: nat, n: nat)
    requires v < Pow2(n) && n <= j
    ensures !BitAt(v, j)
  {
    hide Pow2;
    ShrIs(v, j);
    PowOrder(n, j);
    Below(v, Pow2(j));
  }

  lemma Parities(q: nat, m: nat, h: nat)
    requires m % 2 == 0 && h % 2 == 0
    ensures (m - 1 - (h - 1 - q)) % 2 == q % 2
  {
  }

  // ----- the codes -----

  lemma PositiveRead(v: u32, k: nat, z: Size)
    requires k < 64 && v < Modulus(z) / 2
    ensures ArithmeticRight(v, k, z) == v / Pow2(k)
  {
  }

  /** N and Z after an arithmetic shift to the right of a negative value. */
  lemma NegativeRead(v: u32, k: nat, z: Size)
    requires 0 < k < 64 && Modulus(z) / 2 <= v < Modulus(z)
    ensures var r, n := ArithmeticRight(v, k, z), 8 * Bytes(z);
            (r >= Modulus(z) / 2 <==> k > 64 - n) && (r == 0 <==> n <= k <= 64 - n)
  {
    hide Pow2;
    var n := 8 * Bytes(z);
    PowModulus(z);
    PowHalf(n);
    if k > 64 - n {
      Pow2Sum(64 - k, n - 1 - (64 - k));
      Multiple(Pow2(n - 1 - (64 - k)), Pow2(64 - k));
    } else {
      Quotient(v, k, n);
    }
  }

  lemma Quotient(v: nat, k: nat, n: nat)
    requires n > 0 && k > 0 && Pow2(n - 1) <= v < Pow2(n)
    ensures v / Pow2(k) < Pow2(n - 1) && (v / Pow2(k) == 0 <==> k >= n)
  {
    hide Pow2;
    PowHalf(n);
    PowHalf(k);
    if k >= n {
      PowOrder(n, k);
      Below(v, Pow2(k));
    } else {
      Pow2Sum(k, n - 1 - k);
      Multiple(Pow2(k), Pow2(n - 1 - k));
      Pow2Sum(1, n - 1);
      Times(Pow2(k - 1), 1, Pow2(n - 1));
      assert Pow2(n) <= Pow2(k) * Pow2(n - 1) by { Twice(Pow2(n - 1), Pow2(k - 1)); }
      QuotientBelow(v, Pow2(k), Pow2(n - 1));
      AtLeast(v, Pow2(k), Pow2(n - 1 - k));
    }
  }

  lemma AtLeast(v: nat, p: nat, q: nat)
    requires p > 0 && q > 0 && p * q <= v
    ensures v / p > 0
  {
    Multiple(q, p);
  }

  /** Where N and Z, C and X agree with the single-bit shifts. */
  lemma ShiftAgrees(t: State, kind: ShiftKind, left: bool, z: Size, v: u32, k: nat, c: bool, x: bool)
    requires k < 64 && v < Modulus(z) && (kind.Arithmetic? || kind.Logical?)
    requires !OutOfCount(kind, left, z, k) && ShiftTests(t, kind, left, z, v, k, c, x)
    ensures var n := 8 * Bytes(z);
            var w, out := Shifts(kind.Arithmetic?, left, v, k, n), LastOut(kind.Arithmetic?, left, v, k, n);
            var sign, lost := kind.Arithmetic? && !left && v >= Modulus(z) / 2, left && TopOut(v, k, n);
            && ((CheckCondition(t, Minus) <==> w >= Modulus(z) / 2) <==> !sign || k > 64 - n)
            && ((CheckCondition(t, Equal) <==> w == 0) <==> !sign || k < n || k > 64 - n)
            && ((CheckCondition(t, CarrySet) <==> out)
                <==> !lost && (k == 0 ==> v % 2 == 0) && (sign ==> k <= n))
            && ((ExtendFlag(t) <==> if k == 0 then x else out)
                <==> !lost && (k == 0 ==> x == (v % 2 == 1)) && (sign ==> k <= n))
  {
    hide Pow2, Shifts, LastOut, BitAt, CheckCondition, ArithmeticRight;
    var n := 8 * Bytes(z);
    PowModulus(z);
    PowHalf(n);
    if left {
      LeftShifts(kind.Arithmetic?, v, k, n);
      LeftOut(kind.Arithmetic?, v, k, n);
    } else {
      RightOut(kind.Arithmetic?, v, k, n);
      if kind.Arithmetic? && v >= Modulus(z) / 2 {
        NegativeShifts(v, k, n);
        NegativeRead(v, k, z);
        if k > n { NoBit(v, k - 1, n); }
      } else {
        RightShifts(kind.Arithmetic?, v, k, n);
        if kind.Arithmetic? { PositiveRead(v, k, z); }
      }
    }
  }

  /** V is clear after a shift; the manual's ASL sets it when the sign changes on the way. */
  lemma ShiftOverflows(t: State, kind: ShiftKind, left: bool, z: Size, v: u32, k: nat, c: bool, x: bool)
    requires k < 64 && v < Modulus(z)
    requires !OutOfCount(kind, left, z, k) && ShiftTests(t, kind, left, z, v, k, c, x)
    ensures (CheckCondition(t, OverflowSet) <==> kind.Arithmetic? && left && SignMoves(v, k, 8 * Bytes(z)))
              <==> (kind.Arithmetic? && left ==> SignStays(v, k, 8 * Bytes(z)))
  {
    hide SignMoves, SignStays, CarryCodes, SignTests, ArithmeticRight, Turn;
    PowModulus(z);
    SignMovesWhen(v, k, 8 * Bytes(z));
  }
}
