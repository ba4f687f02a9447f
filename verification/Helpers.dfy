// Sizes, masks, sign tests and condition-code tests (include/helpers.hpp, include/defines.hpp).
// Machine words are natural numbers below a power of two; masking with 2^k - 1 is
// written as a remainder and a shift right by k as a division.

module Helpers {

  type byte = n: nat | n < 0x100
  type u16 = n: nat | n < 0x1_0000
  type u32 = n: nat | n < 0x1_0000_0000

  datatype Size = Byte | Word | Long

  datatype Mode =
    | DirectData | DirectAddr | Indirect | PostIncrement | PreDecrement
    | Displacement | Index | PcDisplacement | PcIndex | AbsWord | AbsLong
    | Immediate | Unknown

  datatype Condition =
    | True | False | Higher | LowerSame | CarryClear | CarrySet | NotEqual | Equal
    | OverflowClear | OverflowSet | Plus | Minus
    | GreaterEqual | LessThan | GreaterThan | LessEqual

  function Bytes(z: Size): (n: nat)
    ensures 1 <= n <= 4
  {
    match z
    case Byte => 1
    case Word => 2
    case Long => 4
  }

  /** 2 to the number of bits of a size. */
  function Modulus(z: Size): nat {
    match z
    case Byte => 0x100
    case Word => 0x1_0000
    case Long => 0x1_0000_0000
  }

  /** MASK_8, MASK_16, MASK_32. */
  function Truncate(v: nat, z: Size): (r: u32)
    ensures r <= v && r < Modulus(z)
  {
    match z
    case Byte => v % 0x100
    case Word => v % 0x1_0000
    case Long => v % 0x1_0000_0000
  }

  /** Conversion of an arithmetic result to uint32_t. */
  function Wrap(v: int): u32 {
    v % 0x1_0000_0000
  }

  /** The low bits of v read as int8_t, int16_t or int32_t. */
  function Signed(v: nat, z: Size): int {
    var t := Truncate(v, z);
    if t < Modulus(z) / 2 then t else t - Modulus(z)
  }

  predicate IsNegative(v: nat, z: Size) {
    match z
    case Byte => v / 0x80 % 2 == 1
    case Word => v / 0x8000 % 2 == 1
    case Long => v / 0x8000_0000 % 2 == 1
  }

  predicate IsZero(v: nat, z: Size) {
    Truncate(v, z) == 0
  }

  predicate IsOverflow(a: u32, b: u32, z: Size) {
    IsNegative(a, z) == IsNegative(b, z) && IsNegative(a, z) != IsNegative(Wrap(a + b), z)
  }

  predicate IsCarry(v: nat, z: Size) {
    v > Truncate(v, z)
  }

  predicate IsMemoryAlterable(m: Mode) {
    !(m.Unknown? || m.PcDisplacement? || m.PcIndex? || m.Immediate?)
  }

  predicate IsDataAlterable(m: Mode) {
    !(m.Unknown? || m.DirectAddr? || m.PcDisplacement? || m.PcIndex? || m.Immediate?)
  }

  predicate IsControl(m: Mode) {
    !(m.Unknown? || m.DirectData? || m.DirectAddr? || m.PostIncrement? || m.PreDecrement? || m.Immediate?)
  }

  // ----- bitwise operations on naturals, bit by bit -----

  function BitAnd(a: nat, b: nat): nat
    decreases a + b
  {
    if a == 0 || b == 0 then 0
    else 2 * BitAnd(a / 2, b / 2) + (if a % 2 == 1 && b % 2 == 1 then 1 else 0)
  }

  function BitOr(a: nat, b: nat): nat
    decreases a + b
  {
    if a == 0 && b == 0 then 0
    else 2 * BitOr(a / 2, b / 2) + (if a % 2 == 1 || b % 2 == 1 then 1 else 0)
  }

  function BitXor(a: nat, b: nat): nat
    decreases a + b
  {
    if a == 0 && b == 0 then 0
    else 2 * BitXor(a / 2, b / 2) + (if a % 2 != b % 2 then 1 else 0)
  }

  function Pow2(k: nat): (p: nat)
    ensures p > 0
  {
    if k == 0 then 1 else 2 * Pow2(k - 1)
  }

  // ----- shifts and rotates on uint64_t -----

  function Shl(a: nat, k: nat): nat {
    a * Pow2(k) % 0x1_0000_0000_0000_0000
  }

  function Shr(a: nat, k: nat): nat {
    if k == 0 then a else Shr(a / 2, k - 1)
  }

  /** ROL_n for n = 8, 9, 16, 17, 32, 33. */
  function RotateLeft(a: nat, b: nat, n: nat): nat
    requires b <= n
  {
    BitOr(Shl(a, b), Shr(a, n - b)) % Pow2(n)
  }

  /** ROR_n for n = 8, 9, 16, 17, 32, 33. */
  function RotateRight(a: nat, b: nat, n: nat): nat
    requires b <= n
  {
    BitOr(Shr(a, b), Shl(a, n - b)) % Pow2(n)
  }

  // ----- 32-bit address arithmetic on a 24-bit bus -----

  /** Division with remainder is unique. */
  lemma Remainder(m: nat, q: int, t: nat)
    requires 0 <= t < m
    ensures (m * q + t) % m == t && (m * q + t) / m == q
  {
    var r := m * q + t;
    var p := q - r / m;
    assert m * p == r % m - t;
    assert p >= 1 ==> m * p >= m;
    assert p <= -1 ==> m * p <= m * -1;
  }

  lemma WrapAgain(v: int, d: int)
    ensures Wrap(Wrap(v) + d) == Wrap(v + d)
  {
    var m := 0x1_0000_0000;
    assert v + d == Wrap(v) + d + m * (v / m);
    assert (Wrap(v) + d) / m * m + Wrap(Wrap(v) + d) == Wrap(v) + d;
  }

  /** Moving up by j without crossing the end of the bus moves the bus address by j. */
  lemma BusOffset(v: int, j: nat)
    requires Wrap(v) % 0x100_0000 + j < 0x100_0000
    ensures Wrap(v + j) == Wrap(v) + j
    ensures Wrap(v + j) % 0x100_0000 == Wrap(v) % 0x100_0000 + j
  {
    var w := Wrap(v);
    assert w == 0x100_0000 * (w / 0x100_0000) + w % 0x100_0000;
    assert w / 0x100_0000 < 0x100;
    WrapAgain(v, j);
  }

  lemma BusOf(v: int)
    ensures Wrap(v) % 0x100_0000 == v % 0x100_0000
  {
    var q, p := v / 0x1_0000_0000, Wrap(v) / 0x100_0000;
    Remainder(0x100_0000, 0x100 * q + p, Wrap(v) % 0x100_0000);
  }

  lemma EvenBus(v: u32)
    ensures v % 0x100_0000 % 2 == v % 2
  {
    var q, p := v / 0x100_0000, v % 0x100_0000 / 2;
    Remainder(2, 0x80_0000 * q + p, v % 0x100_0000 % 2);
  }

  /** The bus has 2^24 addresses; a deeper stack would overlap itself. */
  const LIMIT: nat := 0x100_0000

  /** A new cell of k bytes at depth j misses an old cell of n bytes at depth i. */
  lemma CellsApart(base: u32, i: nat, n: nat, j: nat, k: nat)
    requires n <= i && i + k <= j <= LIMIT
    ensures var a, b := Wrap(base - i) % 0x100_0000, Wrap(base - j) % 0x100_0000;
            a + n <= b || b + k <= a
  {
    BusOf(base - i);
    BusOf(base - j);
    var m := 0x100_0000;
    var a, b := (base - i) % m, (base - j) % m;
    var q := (base - i) / m - (base - j) / m;
    assert a - b == j - i - m * q;
    assert q <= -1 ==> m * q <= m * -1;
    assert q >= 2 ==> m * q >= m * 2;
  }

  // ----- what the sign and carry tests see -----

  lemma FitsWhole(v: u32, z: Size)
    requires v < Modulus(z)
    ensures Truncate(v, z) == v
  {
    Remainder(Modulus(z), 0, v);
  }

  lemma WrapSmall(v: nat)
    requires v < 0x1_0000_0000
    ensures Wrap(v) == v
  {
  }

  /** A sum or difference of two numbers of one size and a carry, wrapped to 32 bits and cut to its size. */
  lemma Wrapped(v: int, z: Size)
    requires 0 - Modulus(z) <= v < 2 * Modulus(z)
    ensures v < 0 ==> Truncate(Wrap(v), z) == v + Modulus(z) && (IsCarry(Wrap(v), z) <==> z != Long)
    ensures 0 <= v < Modulus(z) ==> Truncate(Wrap(v), z) == v && !IsCarry(Wrap(v), z)
    ensures v >= Modulus(z) ==> Truncate(Wrap(v), z) == v - Modulus(z) && (IsCarry(Wrap(v), z) <==> z != Long)
  {
    var m, k := Modulus(z), if z == Byte then 0x100_0000 else if z == Word then 0x1_0000 else 1;
    if v < 0 {
      Remainder(0x1_0000_0000, -1, v + 0x1_0000_0000);
      Remainder(m, k - 1, v + m);
    } else if v < m {
      Remainder(0x1_0000_0000, 0, v);
      Remainder(m, 0, v);
    } else if z == Long {
      Remainder(0x1_0000_0000, 1, v - m);
      Remainder(m, 0, v - m);
    } else {
      Remainder(0x1_0000_0000, 0, v);
      Remainder(m, 1, v - m);
    }
  }

  lemma HighBit(v: nat, z: Size)
    ensures IsNegative(v, z) <==> Truncate(v, z) >= Modulus(z) / 2
  {
    match z
    case Byte => SplitHigh(v, 0x80);
    case Word => SplitHigh(v, 0x8000);
    case Long => SplitHigh(v, 0x8000_0000);
  }

  lemma SplitHigh(v: nat, h: nat)
    requires h > 0
    ensures v / h % 2 == 1 <==> v % (2 * h) >= h
  {
    var q := v / h;
    Remainder(2 * h, q / 2, h * (q % 2) + v % h);
    assert h * q == h * (2 * (q / 2)) + h * (q % 2);
    assert v == 2 * h * (q / 2) + (h * (q % 2) + v % h);
    assert q % 2 == 0 || q % 2 == 1;
  }
}
