// ROL_n and ROR_n (include/helpers.hpp): rotations of an n-bit field inside a 64-bit word form
// a cyclic group of order n. The laws hold for every width below 64; the source uses 8, 9, 16,
// 17, 32 and 33, the odd ones for rotations through the extend bit.

module Rotation {
  import opened Helpers

  /** One bit to the left: the top bit of the field comes back at the bottom. */
  function TurnOnce(a: nat, n: nat): nat
    requires n > 0
  {
    2 * (a % Pow2(n - 1)) + a / Pow2(n - 1)
  }

  function Turn(a: nat, k: nat, n: nat): nat
    requires n > 0
  {
    if k == 0 then a else TurnOnce(Turn(a, k - 1, n), n)
  }

  // ----- powers, shifts and disjoint bits -----

  lemma {:induction false} Pow2Sum(j: nat, k: nat)
    ensures Pow2(j + k) == Pow2(j) * Pow2(k)
  {
    if j > 0 {
      Pow2Sum(j - 1, k);
    }
  }

  lemma {:induction false} Halves(a: nat, p: nat)
    requires p > 0
    ensures a / 2 / p == a / (2 * p) && a % (2 * p) == 2 * (a / 2 % p) + a % 2
  {
    var h, b := a / 2, a % 2;
    var q, r := h / p, h % p;
    assert h == p * q + r;
    assert a == 2 * h + b;
    Twice(q, p);
    Remainder(2 * p, q, 2 * r + b);
  }

  lemma {:induction false} ShrIs(a: nat, k: nat)
    ensures Shr(a, k) == a / Pow2(k)
  {
    if k > 0 {
      ShrIs(a / 2, k - 1);
      Halves(a, Pow2(k - 1));
    }
  }

  /** The low n bits of an OR are the OR of the low n bits. */
  lemma {:induction false} OrLow(a: nat, b: nat, n: nat)
    ensures BitOr(a, b) % Pow2(n) == BitOr(a % Pow2(n), b % Pow2(n))
    decreases n
  {
    if n > 0 && !(a == 0 && b == 0) {
      OrLow(a / 2, b / 2, n - 1);
      Halves(a, Pow2(n - 1));
      Halves(b, Pow2(n - 1));
      Halves(BitOr(a, b), Pow2(n - 1));
      OrHalf(a, b);
      OrHalf(a % Pow2(n), b % Pow2(n));
    }
  }

  lemma OrHalf(a: nat, b: nat)
    ensures BitOr(a, b) / 2 == BitOr(a / 2, b / 2)
    ensures BitOr(a, b) % 2 == if a % 2 == 1 || b % 2 == 1 then 1 else 0
  {
  }

  lemma Twice(l: nat, q: nat)
    ensures l * (2 * q) == 2 * (l * q)
  {
  }

  /** OR adds numbers that share no bits. */
  lemma {:induction false} OrAdds(u: nat, y: nat, k: nat)
    requires y < Pow2(k)
    ensures BitOr(u * Pow2(k), y) == u * Pow2(k) + y
  {
    if k == 0 {
      OrZero(u);
    } else {
      OrAdds(u, y / 2, k - 1);
      Twice(u, Pow2(k - 1));
      var v := u * Pow2(k - 1);
      assert u * Pow2(k) == 2 * v;
      hide Pow2, BitOr;
      OrHalf(2 * v, y);
    }
  }

  lemma {:induction false} OrZero(u: nat)
    ensures BitOr(u, 0) == u
  {
    if u > 0 {
      OrZero(u / 2);
    }
  }

  lemma Distribute(p: int, h: int, l: int, q: int)
    ensures (p * h + l) * q == (p * q) * h + l * q
  {
    assert (p * h + l) * q == p * h * q + l * q;
    assert p * h * q == p * q * h;
  }

  lemma BelowProduct(l: nat, p: nat, q: nat, h: nat)
    requires l < p && h < q
    ensures l * q + h < p * q
  {
    assert (l + 1) * q <= p * q;
  }

  lemma QuotientBelow(a: nat, p: nat, q: nat)
    requires p > 0 && a < p * q
    ensures a / p < q
  {
    var h := a / p;
    assert p * h <= a;
    assert h >= q ==> p * h >= p * q;
  }

  lemma ModMod(x: nat, m: nat, k: nat, w: nat)
    requires m > 0 && w > 0 && w == m * k
    ensures x % w % m == x % m
  {
    var q, r := x / w, x % w;
    Distribute(m, k, 0, q);
    assert x == w * q + r && r == m * (r / m) + r % m;
    assert m * (k * q + r / m) == m * (k * q) + m * (r / m);
    assert w * q == m * (k * q);
    Remainder(m, k * q + r / m, r % m);
  }

  lemma Pow64()
    ensures Pow2(64) == 0x1_0000_0000_0000_0000
  {
    assert Pow2(2) == 4;
    hide Pow2;
    Pow2Square(2, 4);
    Pow2Square(4, 0x10);
    Pow2Square(8, 0x100);
    Pow2Square(16, 0x1_0000);
    Pow2Square(32, 0x1_0000_0000);
  }

  lemma Pow2Square(k: nat, p: nat)
    requires Pow2(k) == p
    ensures Pow2(2 * k) == p * p
  {
    hide Pow2;
    Pow2Sum(k, k);
  }

  /** Dropping the bits above a 64-bit word does not reach the low n bits. */
  lemma WordLow(x: nat, n: nat)
    requires n <= 64
    ensures x % 0x1_0000_0000_0000_0000 % Pow2(n) == x % Pow2(n)
  {
    hide Pow2;
    Pow2Sum(n, 64 - n);
    Pow64();
    ModMod(x, Pow2(n), Pow2(64 - n), 0x1_0000_0000_0000_0000);
  }

  // ----- the rotates of the source -----

  /** Moving the low part of a field of n == p * q values up by q drops its high part. */
  lemma MoveUp(a: nat, p: nat, q: nat, n: nat)
    requires p > 0 && q > 0 && n == p * q && a < n
    ensures a * q % n == a % p * q && a / p % n == a / p
  {
    var h, l := a / p, a % p;
    QuotientBelow(a, p, q);
    BelowProduct(l, p, q, 0);
    BelowProduct(p - 1, p, q, h);
    assert a == p * h + l;
    Distribute(p, h, l, q);
    Remainder(n, h, l * q);
    Remainder(n, 0, h);
  }

  /** A field of p * q values with its high part below its low part. */
  function Swap(a: nat, p: nat, q: nat): nat
    requires p > 0
  {
    a % p * q + a / p
  }

  /** The two parts of the field trade places. */
  lemma LeftIs(a: nat, b: nat, n: nat)
    requires b <= n <= 64 && a < Pow2(n)
    ensures RotateLeft(a, b, n) == Swap(a, Pow2(n - b), Pow2(b))
  {
    hide Pow2, BitOr, Shr;
    var p, q := Pow2(n - b), Pow2(b);
    Pow2Sum(n - b, b);
    MoveUp(a, p, q, Pow2(n));
    QuotientBelow(a, p, q);
    ShrIs(a, n - b);
    WordLow(a * q, n);
    OrLow(Shl(a, b), Shr(a, n - b), n);
    OrAdds(a % p, a / p, b);
  }

  /** A right rotation by b is a left rotation by n - b. */
  lemma RightIsLeft(a: nat, b: nat, n: nat)
    requires b <= n <= 64 && a < Pow2(n)
    ensures RotateRight(a, b, n) == RotateLeft(a, n - b, n)
  {
    OrCommutes(Shr(a, b), Shl(a, n - b));
  }

  lemma {:induction false} OrCommutes(a: nat, b: nat)
    ensures BitOr(a, b) == BitOr(b, a)
    decreases a + b
  {
    if !(a == 0 && b == 0) {
      OrCommutes(a / 2, b / 2);
    }
  }

  lemma TopBit(p: nat, q: nat, n: nat, h: nat, l1: nat, l0: nat)
    requires n == p * q && l0 < p && h < q
    ensures n > 0 && ((p * l1 + l0) * q + h) % n == l0 * q + h && ((p * l1 + l0) * q + h) / n == l1
  {
    BelowProduct(l0, p, q, h);
    Distribute(p, l1, l0, q);
    Remainder(n, l1, l0 * q + h);
  }

  lemma SwapOf(p: nat, q: nat, h: nat, l: nat)
    requires l < p
    ensures Swap(p * h + l, p, q) == l * q + h
  {
    Remainder(p, h, l);
  }

  /** One bit of the low part goes up. */
  lemma SwapStep(p: nat, q: nat, n: nat, h: nat, l1: nat, l0: nat, a: nat)
    requires n == p * q && l0 < p && h < q && l1 < 2 && a == p * (2 * h + l1) + l0
    ensures n > 0 && Swap(a, p, 2 * q) == 2 * (Swap(a, 2 * p, q) % n) + Swap(a, 2 * p, q) / n
  {
    hide Swap;
    SwapOf(p, 2 * q, 2 * h + l1, l0);
    assert p * (2 * h + l1) == 2 * p * h + p * l1;
    SwapOf(2 * p, q, h, p * l1 + l0);
    TopBit(p, q, n, h, l1, l0);
    Twice(l0, q);
  }

  lemma SwapMore(a: nat, p: nat, q: nat, n: nat)
    requires p > 0 && n == p * q && a < 2 * n
    ensures n > 0 && Swap(a, p, 2 * q) == 2 * (Swap(a, 2 * p, q) % n) + Swap(a, 2 * p, q) / n
  {
    hide Swap;
    var k, l0 := a / p, a % p;
    Twice(p, q);
    QuotientBelow(a, p, 2 * q);
    var h, l1 := k / 2, k % 2;
    assert 2 * h + l1 == k;
    assert p * (2 * h + l1) == p * k;
    SwapStep(p, q, n, h, l1, l0, a);
  }

  /** Rotating by one more bit is rotating once more. */
  lemma OneMore(a: nat, b: nat, n: nat)
    requires b < n <= 64 && a < Pow2(n)
    ensures RotateLeft(a, b + 1, n) == TurnOnce(RotateLeft(a, b, n), n)
  {
    var k := n - b - 1;
    assert Pow2(n - b) == 2 * Pow2(k) && Pow2(b + 1) == 2 * Pow2(b) && Pow2(n) == 2 * Pow2(n - 1);
    hide Pow2, RotateLeft, Swap;
    LeftIs(a, b, n);
    LeftIs(a, b + 1, n);
    Pow2Sum(k, b);
    SwapMore(a, Pow2(k), Pow2(b), Pow2(n - 1));
  }

  lemma {:induction false} LeftTurns(a: nat, b: nat, n: nat)
    requires 0 < n <= 64 && b <= n && a < Pow2(n)
    ensures RotateLeft(a, b, n) == Turn(a, b, n)
  {
    if b == 0 {
      LeftIs(a, 0, n);
      Remainder(Pow2(n), 0, a);
    } else {
      LeftTurns(a, b - 1, n);
      OneMore(a, b - 1, n);
    }
  }

  lemma {:induction false} TurnAgain(a: nat, j: nat, k: nat, n: nat)
    requires n > 0
    ensures Turn(Turn(a, j, n), k, n) == Turn(a, j + k, n)
  {
    if k > 0 {
      TurnAgain(a, j, k - 1, n);
    }
  }

  lemma FullTurn(a: nat, n: nat)
    requires 0 < n <= 64 && a < Pow2(n)
    ensures Turn(a, n, n) == a
  {
    LeftTurns(a, n, n);
    LeftIs(a, n, n);
  }

  lemma LeftBelow(a: nat, b: nat, n: nat)
    requires b <= n
    ensures RotateLeft(a, b, n) < Pow2(n)
  {
  }

  /** Whole turns do not count. */
  lemma WholeTurns(a: nat, k: nat, n: nat)
    requires 0 < n <= 64 && k <= 2 * n && a < Pow2(n)
    ensures Turn(a, k, n) == Turn(a, k % n, n)
  {
    hide Turn, Pow2;
    FullTurn(a, n);
    if k < n {
      Remainder(n, 0, k);
    } else if k < 2 * n {
      Remainder(n, 1, k - n);
      TurnAgain(a, n, k - n, n);
    } else {
      Remainder(n, 2, 0);
      TurnAgain(a, n, n, n);
      NoTurn(a, n);
    }
  }

  lemma NoTurn(a: nat, n: nat)
    requires n > 0
    ensures Turn(a, 0, n) == a
  {
  }

  /** Rotating by b and then by c rotates by b + c modulo the width. */
  lemma RotationsCompose(a: nat, b: nat, c: nat, n: nat)
    requires 0 < n <= 64 && b <= n && c <= n && a < Pow2(n)
    ensures RotateLeft(a, b, n) < Pow2(n)
    ensures RotateLeft(RotateLeft(a, b, n), c, n) == RotateLeft(a, (b + c) % n, n)
  {
    LeftBelow(a, b, n);
    hide RotateLeft, Pow2, Turn;
    LeftTurns(a, b, n);
    LeftTurns(RotateLeft(a, b, n), c, n);
    TurnAgain(a, b, c, n);
    WholeTurns(a, b + c, n);
    LeftTurns(a, (b + c) % n, n);
  }

  /** ROL and ROR by the same count undo each other, in both orders, and stay inside the field. */
  lemma RotationsUndo(a: nat, b: nat, n: nat)
    requires 0 < n <= 64 && b <= n && a < Pow2(n)
    ensures RotateLeft(a, b, n) < Pow2(n) && RotateRight(RotateLeft(a, b, n), b, n) == a
    ensures RotateRight(a, b, n) < Pow2(n) && RotateLeft(RotateRight(a, b, n), b, n) == a
  {
    hide RotateLeft, RotateRight, Pow2, Turn;
    RotationsCompose(a, b, n - b, n);
    RotationsCompose(a, n - b, b, n);
    RightIsLeft(RotateLeft(a, b, n), b, n);
    RightIsLeft(a, b, n);
    Remainder(n, 1, 0);
    LeftTurns(a, 0, n);
    NoTurn(a, n);
  }

  /** Right rotations compose the same way. */
  lemma RightRotationsCompose(a: nat, b: nat, c: nat, n: nat)
    requires 0 < n <= 64 && b <= n && c <= n && a < Pow2(n)
    ensures RotateRight(a, b, n) < Pow2(n)
    ensures RotateRight(RotateRight(a, b, n), c, n) == RotateRight(a, (b + c) % n, n)
  {
    var d := (b + c) % n;
    var r := RotateRight(RotateRight(a, b, n), c, n);
    RotationsUndo(a, b, n);
    RotationsUndo(RotateRight(a, b, n), c, n);
    RotationsCompose(r, c, b, n);
    assert RotateLeft(r, d, n) == a;
    RotationsUndo(r, d, n);
  }
}
