// The decoder by fields: the mask table is an opcode map over the line, register and mode fields of an
// opcode word, and how a shift is read (src/instruction_decoder.cpp, src/instructions/bit_shift.cpp).

module Decoding {
  import opened Helpers
  import opened Memory
  import opened CpuState
  import opened Instructions
  import opened Decoder
  import opened Machine

  // ----- masks, four bits at a time -----

  function Low(a: nat, m: nat): nat {
    if a % 2 == 1 && m % 2 == 1 then 1 else 0
  }

  function And4(a: nat, m: nat): nat {
    Low(a, m) + 2 * Low(a / 2, m / 2) + 4 * Low(a / 4, m / 4) + 8 * Low(a / 8, m / 8)
  }

  lemma AndLowBit(a: nat, m: nat, p: nat, q: nat)
    requires p < 2 && q < 2
    ensures BitAnd(2 * a + p, 2 * m + q) == 2 * BitAnd(a, m) + Low(p, q)
  {
    assert (2 * a + p) / 2 == a && (2 * m + q) / 2 == m && (2 * a + p) % 2 == p && (2 * m + q) % 2 == q;
    if a == 0 || m == 0 {
      assert BitAnd(a, m) == 0;
    }
  }

  lemma FourBits(p: nat)
    requires p < 16
    ensures p == 2 * (2 * (2 * (p / 8) + p / 4 % 2) + p / 2 % 2) + p % 2 && p / 8 < 2
  {
  }

  /** One hexadecimal digit more. */
  function Push(a: nat, d: nat): nat {
    16 * a + d
  }

  lemma AndNibble(a: nat, m: nat, p: nat, q: nat)
    requires p < 16 && q < 16
    ensures BitAnd(Push(a, p), Push(m, q)) == Push(BitAnd(a, m), And4(p, q))
  {
    hide BitAnd, Push, And4;
    FourBits(p);
    FourBits(q);
    AndBits(a, m, p, q, p / 8, p / 4 % 2, p / 2 % 2, p % 2, q / 8, q / 4 % 2, q / 2 % 2, q % 2);
  }

  lemma AndBits(a: nat, m: nat, p: nat, q: nat,
                p3: nat, p2: nat, p1: nat, p0: nat, q3: nat, q2: nat, q1: nat, q0: nat)
    requires p3 < 2 && p2 < 2 && p1 < 2 && p0 < 2 && p == 8 * p3 + 4 * p2 + 2 * p1 + p0
    requires q3 < 2 && q2 < 2 && q1 < 2 && q0 < 2 && q == 8 * q3 + 4 * q2 + 2 * q1 + q0
    ensures BitAnd(Push(a, p), Push(m, q)) == Push(BitAnd(a, m), And4(p, q))
  {
    hide BitAnd, Low, And4, Push;
    And4Bits(p, q, p3, p2, p1, p0, q3, q2, q1, q0);
    AndTwoBits(a, m, p3, p2, q3, q2);
    AndTwoBits(4 * a + 2 * p3 + p2, 4 * m + 2 * q3 + q2, p1, p0, q1, q0);
    PushBits(a, p, p3, p2, p1, p0);
    PushBits(m, q, q3, q2, q1, q0);
    PushBits(BitAnd(a, m), And4(p, q), Low(p3, q3), Low(p2, q2), Low(p1, q1), Low(p0, q0));
  }

  lemma PushBits(a: nat, p: nat, p3: nat, p2: nat, p1: nat, p0: nat)
    requires p == 8 * p3 + 4 * p2 + 2 * p1 + p0
    ensures Push(a, p) == 4 * (4 * a + 2 * p3 + p2) + 2 * p1 + p0
  {
  }

  lemma And4Bits(p: nat, q: nat, p3: nat, p2: nat, p1: nat, p0: nat, q3: nat, q2: nat, q1: nat, q0: nat)
    requires p3 < 2 && p2 < 2 && p1 < 2 && p0 < 2 && p == 8 * p3 + 4 * p2 + 2 * p1 + p0
    requires q3 < 2 && q2 < 2 && q1 < 2 && q0 < 2 && q == 8 * q3 + 4 * q2 + 2 * q1 + q0
    ensures And4(p, q) == Low(p0, q0) + 2 * Low(p1, q1) + 4 * Low(p2, q2) + 8 * Low(p3, q3)
  {
    BitsOf(p, p3, p2, p1, p0);
    BitsOf(q, q3, q2, q1, q0);
  }

  lemma AndTwoBits(a: nat, m: nat, p1: nat, p0: nat, q1: nat, q0: nat)
    requires p1 < 2 && p0 < 2 && q1 < 2 && q0 < 2
    ensures BitAnd(4 * a + 2 * p1 + p0, 4 * m + 2 * q1 + q0) == 4 * BitAnd(a, m) + 2 * Low(p1, q1) + Low(p0, q0)
  {
    hide BitAnd, Low;
    AndLowBit(a, m, p1, q1);
    AndLowBit(2 * a + p1, 2 * m + q1, p0, q0);
  }

  /** Four hexadecimal digits as a word. */
  function Hex(d3: nat, d2: nat, d1: nat, d0: nat): nat {
    Push(Push(Push(d3, d2), d1), d0)
  }

  lemma AndHex(a3: nat, a2: nat, a1: nat, a0: nat, m3: nat, m2: nat, m1: nat, m0: nat)
    requires a3 < 16 && a2 < 16 && a1 < 16 && a0 < 16 && m3 < 16 && m2 < 16 && m1 < 16 && m0 < 16
    ensures BitAnd(Hex(a3, a2, a1, a0), Hex(m3, m2, m1, m0))
            == Hex(And4(a3, m3), And4(a2, m2), And4(a1, m1), And4(a0, m0))
  {
    AndDigit(a3, m3);
    hide BitAnd, And4, Push;
    AndNibble(a3, m3, a2, m2);
    AndNibble(Push(a3, a2), Push(m3, m2), a1, m1);
    AndNibble(Push(Push(a3, a2), a1), Push(Push(m3, m2), m1), a0, m0);
  }

  lemma AndDigit(a: nat, m: nat)
    requires a < 16 && m < 16
    ensures BitAnd(a, m) == And4(a, m)
  {
    hide BitAnd, And4;
    AndZero();
    AndNibble(0, 0, a, m);
  }

  lemma AndZero()
    ensures BitAnd(0, 0) == 0
  {
  }

  /** A digit under the mask digits of the table. */
  function Cut(d: nat, m: nat): nat {
    if m == 15 then d
    else if m == 14 then 2 * (d / 2)
    else if m == 12 then 4 * (d / 4)
    else if m == 11 then 8 * (d / 8) + d % 4
    else if m == 8 then 8 * (d / 8)
    else if m == 3 then d % 4
    else if m == 1 then d % 2
    else 0
  }

  predicate MaskDigit(m: nat) {
    m == 15 || m == 14 || m == 12 || m == 11 || m == 8 || m == 3 || m == 1 || m == 0
  }

  lemma LowBit(a: nat, m: nat)
    ensures Low(a, m) == if m % 2 == 1 then a % 2 else 0
  {
  }

  lemma BitsOf(d: nat, b3: nat, b2: nat, b1: nat, b0: nat)
    requires b3 < 2 && b2 < 2 && b1 < 2 && b0 < 2 && d == 8 * b3 + 4 * b2 + 2 * b1 + b0
    ensures d / 2 == 4 * b3 + 2 * b2 + b1 && d / 4 == 2 * b3 + b2 && d / 8 == b3
    ensures d % 4 == 2 * b1 + b0 && d % 2 == b0 && d / 2 % 2 == b1 && d / 4 % 2 == b2 && d / 8 % 2 == b3
  {
  }

  lemma CutDigit(d: nat, m: nat)
    requires d < 16 && MaskDigit(m)
    ensures And4(d, m) == Cut(d, m)
  {
    hide Low, Cut;
    FourBits(d);
    CutBits(d, m, d / 8, d / 4 % 2, d / 2 % 2, d % 2);
    LowBit(d, m);
    LowBit(d / 2, m / 2);
    LowBit(d / 4, m / 4);
    LowBit(d / 8, m / 8);
  }

  lemma CutBits(d: nat, m: nat, b3: nat, b2: nat, b1: nat, b0: nat)
    requires b3 < 2 && b2 < 2 && b1 < 2 && b0 < 2 && d == 8 * b3 + 4 * b2 + 2 * b1 + b0 && MaskDigit(m)
    ensures d / 8 == d / 8 % 2 == b3
    ensures Cut(d, m) == (if m % 2 == 1 then b0 else 0) + 2 * (if m / 2 % 2 == 1 then b1 else 0)
                         + 4 * (if m / 4 % 2 == 1 then b2 else 0) + 8 * (if m / 8 % 2 == 1 then b3 else 0)
  {
    BitsOf(d, b3, b2, b1, b0);
  }

  lemma MaskHex(a3: nat, a2: nat, a1: nat, a0: nat, m3: nat, m2: nat, m1: nat, m0: nat)
    requires a3 < 16 && a2 < 16 && a1 < 16 && a0 < 16
    requires MaskDigit(m3) && MaskDigit(m2) && MaskDigit(m1) && MaskDigit(m0)
    ensures BitAnd(Hex(a3, a2, a1, a0), Hex(m3, m2, m1, m0)) == Hex(Cut(a3, m3), Cut(a2, m2), Cut(a1, m1), Cut(a0, m0))
  {
    hide BitAnd, And4, Hex, Cut;
    AndHex(a3, a2, a1, a0, m3, m2, m1, m0);
    CutDigit(a3, m3);
    CutDigit(a2, m2);
    CutDigit(a1, m1);
    CutDigit(a0, m0);
  }

  lemma HexEqual(a3: nat, a2: nat, a1: nat, a0: nat, b3: nat, b2: nat, b1: nat, b0: nat)
    requires a3 < 16 && a2 < 16 && a1 < 16 && a0 < 16 && b3 < 16 && b2 < 16 && b1 < 16 && b0 < 16
    ensures Hex(a3, a2, a1, a0) == Hex(b3, b2, b1, b0) <==> a3 == b3 && a2 == b2 && a1 == b1 && a0 == b0
  {
    LastDigit(0x100 * a3 + 0x10 * a2 + a1, a0, 0x100 * b3 + 0x10 * b2 + b1, b0);
    LastDigit(0x10 * a3 + a2, a1, 0x10 * b3 + b2, b1);
    LastDigit(a3, a2, b3, b2);
  }

  lemma LastDigit(p: nat, d: nat, q: nat, e: nat)
    requires d < 16 && e < 16
    ensures 0x10 * p + d == 0x10 * q + e <==> p == q && d == e
  {
  }

  lemma CutSmall(d: nat, m: nat)
    ensures Cut(d, m) <= d
  {
  }

  // ----- the fields of an opcode word -----

  /** The opcode word with a line number (bits 15 to 12), an upper register field (11 to 9), an opmode (8
      to 6), and the mode and register fields of an effective address. */
  function Word16(line: nat, upper: nat, opmode: nat, mode: nat, reg: nat): u16
    requires line < 16 && upper < 8 && opmode < 8 && mode < 8 && reg < 8
  {
    0x1000 * line + 0x200 * upper + 0x40 * opmode + 8 * mode + reg
  }

  /** What the decoder's field functions read of it. */
  lemma FieldsOf(line: nat, upper: nat, opmode: nat, mode: nat, reg: nat)
    requires line < 16 && upper < 8 && opmode < 8 && mode < 8 && reg < 8
    ensures var w := Word16(line, upper, opmode, mode, reg);
            && w / 0x1000 == line && UpperRegPart(w) == upper && UpperModePart(w) == opmode
            && ModePart(w) == mode && RegPart(w) == reg
            && w / 0x100 % 16 == 2 * upper + opmode / 4 && (Bit8(w) <==> opmode >= 4)
            && w / 0x40 % 4 == opmode % 4 && w / 0x40 % 2 == opmode % 2
            && w / 0x20 % 2 == mode / 4 && w / 8 % 4 == mode % 4 && w / 8 % 2 == mode % 2 && w / 0x200 % 4 == upper % 4
            && w % 0x100 == 0x40 * (opmode % 4) + 8 * mode + reg
  {
    LowFields(line, upper, opmode, mode, reg);
    HighFields(line, upper, opmode, mode, reg);
    DigitFields(line, upper, opmode, mode, reg);
    TwoBits(line, upper, opmode, mode, reg);
    hide Word16;
  }

  lemma LowFields(line: nat, upper: nat, opmode: nat, mode: nat, reg: nat)
    requires line < 16 && upper < 8 && opmode < 8 && mode < 8 && reg < 8
    ensures var w := Word16(line, upper, opmode, mode, reg);
            w % 8 == reg && w / 8 % 8 == mode && w / 0x40 % 8 == opmode
  {
    var q := 0x40 * line + 8 * upper + opmode;
    Remainder(8, 8 * q + mode, reg);
    Remainder(8, q, mode);
    Remainder(0x40, q, 8 * mode + reg);
    Remainder(8, 8 * line + upper, opmode);
  }

  lemma HighFields(line: nat, upper: nat, opmode: nat, mode: nat, reg: nat)
    requires line < 16 && upper < 8 && opmode < 8 && mode < 8 && reg < 8
    ensures var w := Word16(line, upper, opmode, mode, reg);
            w / 0x1000 == line && w / 0x200 % 8 == upper
  {
    Remainder(0x200, 8 * line + upper, 0x40 * opmode + 8 * mode + reg);
    Remainder(8, line, upper);
    Remainder(0x1000, line, 0x200 * upper + 0x40 * opmode + 8 * mode + reg);
  }

  lemma DigitFields(line: nat, upper: nat, opmode: nat, mode: nat, reg: nat)
    requires line < 16 && upper < 8 && opmode < 8 && mode < 8 && reg < 8
    ensures var w := Word16(line, upper, opmode, mode, reg);
            && w / 0x100 % 16 == 2 * upper + opmode / 4 && (w / 0x100 % 2 == 1 <==> opmode >= 4)
            && w % 0x100 == 0x40 * (opmode % 4) + 8 * mode + reg
  {
    var b, c := opmode / 4, opmode % 4;
    Remainder(0x100, 0x10 * line + 2 * upper + b, 0x40 * c + 8 * mode + reg);
    Remainder(16, line, 2 * upper + b);
    Remainder(2, 8 * line + upper, b);
  }

  lemma TwoBits(line: nat, upper: nat, opmode: nat, mode: nat, reg: nat)
    requires line < 16 && upper < 8 && opmode < 8 && mode < 8 && reg < 8
    ensures var w := Word16(line, upper, opmode, mode, reg);
            && w / 0x40 % 4 == opmode % 4 && w / 0x40 % 2 == opmode % 2
            && w / 0x20 % 2 == mode / 4 && w / 8 % 4 == mode % 4 && w / 8 % 2 == mode % 2 && w / 0x200 % 4 == upper % 4
  {
    var q := 0x40 * line + 8 * upper + opmode;
    Remainder(0x40, q, 8 * mode + reg);
    Remainder(4, 0x10 * line + 2 * upper + opmode / 4, opmode % 4);
    Remainder(2, 0x20 * line + 4 * upper + opmode / 2, opmode % 2);
    Remainder(8, 8 * q + mode, reg);
    Remainder(4, 2 * q + mode / 4, mode % 4);
    Remainder(2, 4 * q + mode / 2, mode % 2);
    Remainder(0x20, 2 * q + mode / 4, 8 * (mode % 4) + reg);
    Remainder(2, q, mode / 4);
    Remainder(0x200, 8 * line + upper, 0x40 * opmode + 8 * mode + reg);
    Remainder(4, 2 * line + upper / 4, upper % 4);
  }

  /** Every opcode is such a word. */
  lemma FieldsMake(opcode: u16)
    ensures opcode == Word16(opcode / 0x1000, UpperRegPart(opcode), UpperModePart(opcode), ModePart(opcode),
                             RegPart(opcode))
  {
    assert opcode / 8 == 8 * (opcode / 0x40) + ModePart(opcode);
    assert opcode / 0x40 == 8 * (opcode / 0x200) + UpperModePart(opcode);
    assert opcode / 0x200 == 8 * (opcode / 0x1000) + UpperRegPart(opcode);
  }

  lemma FieldDigits(line: nat, upper: nat, opmode: nat, mode: nat, reg: nat)
    requires line < 16 && upper < 8 && opmode < 8 && mode < 8 && reg < 8
    ensures Word16(line, upper, opmode, mode, reg)
            == Hex(line, 2 * upper + opmode / 4, 4 * (opmode % 4) + mode / 2, 8 * (mode % 2) + reg)
  {
  }

  /** Masked digits in terms of the fields that make them: d2 from a register field and a bit, d1 from
      two bits of the opmode and two of the mode, d0 from a bit of the mode and a register field. */
  lemma CutParts(upper: nat, b: nat, c: nat, h: nat, i: nat, reg: nat)
    requires upper < 8 && b < 2 && c < 4 && h < 4 && i < 2 && reg < 8
    ensures var d2 := 2 * upper + b;
            Cut(d2, 15) == d2 && Cut(d2, 14) == 2 * upper && Cut(d2, 1) == b && Cut(d2, 0) == 0
    ensures var d1 := 4 * c + h;
            && Cut(d1, 15) == d1 && Cut(d1, 12) == 4 * c && Cut(d1, 11) == 8 * (c / 2) + h
            && Cut(d1, 3) == h && Cut(d1, 1) == h % 2 && Cut(d1, 0) == 0
    ensures var d0 := 8 * i + reg;
            Cut(d0, 15) == d0 && Cut(d0, 8) == 8 * i && Cut(d0, 0) == 0
  {
    Remainder(2, upper, b);
    Remainder(4, c, h);
    Remainder(8, c / 2, 4 * (c % 2) + h);
    Remainder(2, 2 * c + h / 2, h % 2);
  }

  // ----- the masks of the table, by digits -----

  /** Whether an entry with these digits in mask and value matches an opcode with digits d. */
  lemma EntryFits(e: MaskEntry<Kind>, m3: nat, m2: nat, m1: nat, m0: nat, v3: nat, v2: nat, v1: nat, v0: nat,
                  d3: nat, d2: nat, d1: nat, d0: nat)
    requires d3 < 16 && d2 < 16 && d1 < 16 && d0 < 16 && v3 < 16 && v2 < 16 && v1 < 16 && v0 < 16
    requires MaskDigit(m3) && MaskDigit(m2) && MaskDigit(m1) && MaskDigit(m0)
    requires e.mask == 0x1000 * m3 + 0x100 * m2 + 0x10 * m1 + m0
    requires e.value == 0x1000 * v3 + 0x100 * v2 + 0x10 * v1 + v0
    ensures Matches(e, Hex(d3, d2, d1, d0))
            <==> Cut(d3, m3) == v3 && Cut(d2, m2) == v2 && Cut(d1, m1) == v1 && Cut(d0, m0) == v0
  {
    assert Hex(m3, m2, m1, m0) == e.mask && Hex(v3, v2, v1, v0) == e.value;
    hide Hex, BitAnd, Cut, MaskDigit;
    MaskHex(d3, d2, d1, d0, m3, m2, m1, m0);
    CutSmall(d3, m3);
    CutSmall(d2, m2);
    CutSmall(d1, m1);
    CutSmall(d0, m0);
    HexEqual(Cut(d3, m3), Cut(d2, m2), Cut(d1, m1), Cut(d0, m0), v3, v2, v1, v0);
  }

  lemma HexDigits(v: u16)
    ensures v == 0x1000 * (v / 0x1000) + 0x100 * (v / 0x100 % 16) + 0x10 * (v / 0x10 % 16) + v % 16
  {
    assert v / 0x100 == 0x10 * (v / 0x1000) + v / 0x100 % 16;
    assert v / 0x10 == 0x10 * (v / 0x100) + v / 0x10 % 16;
  }

  // ----- the first match -----

  /** The instruction a class makes of an opcode, or Illegal. */
  function Made(k: Option<Kind>, opcode: u16): Instr {
    match k
    case None => Illegal
    case Some(kind) => match Create(kind, opcode) case Some(i) => i case None => Illegal
  }

  /** The index of the first entry that matches, or the length of the table. */
  function FirstIndex(table: seq<MaskEntry<Kind>>, opcode: u16): (n: nat)
    ensures n <= |table| && (n < |table| ==> Matches(table[n], opcode))
    ensures forall k :: 0 <= k < n ==> !Matches(table[k], opcode)
  {
    if table == [] || Matches(table[0], opcode) then 0 else 1 + FirstIndex(table[1..], opcode)
  }

  lemma {:induction false} FirstDecides(table: seq<MaskEntry<Kind>>, opcode: u16)
    ensures var n := FirstIndex(table, opcode);
            FirstMatch(table, Create, Illegal, opcode)
            == Made(if n < |table| then Some(table[n].kind) else None, opcode)
  {
    hide Create, Matches;
    if table != [] && !Matches(table[0], opcode) {
      FirstDecides(table[1..], opcode);
    }
  }

  /** The opcode map: the line is the top digit; one entry per instruction class. */
  function OpcodeMap(line: nat, upper: nat, opmode: nat, mode: nat, reg: nat): Option<Kind> {
    match line
    case 0 =>
      if opmode >= 4 || upper == 4 then Some(KBitManip)
      else (match upper
            case 0 => Some(KOri) case 1 => Some(KAndi) case 2 => Some(KSubi) case 3 => Some(KAddi)
            case 5 => Some(KEori) case 6 => Some(KCmpi) case _ => None)
    case 1 | 2 | 3 => Some(KMove)
    case 4 => MiscellaneousMap(upper, opmode, mode, reg)
    case 5 => Some(if opmode % 4 == 3 then KScc else if opmode >= 4 then KSubq else KAddq)
    case 6 => Some(KBcc)
    case 7 => if opmode < 4 then Some(KMoveq) else None
    case 8 => Some(if opmode % 4 == 3 then KDiv else KOr)
    case 9 => Some(if opmode % 4 == 3 then KSuba else if opmode >= 4 && mode < 2 then KSubx else KSub)
    case 11 => Some(if opmode % 4 == 3 then KCmpa else if opmode >= 4 then KEor else KCmp)
    case 12 => Some(if opmode % 4 == 3 then KMul else KAnd)
    case 13 => Some(if opmode % 4 == 3 then KAdda else if opmode >= 4 && mode < 2 then KAddx else KAdd)
    case 14 => Some(KBitShift)
    case _ => None
  }

  /** Line 4. */
  function MiscellaneousMap(upper: nat, opmode: nat, mode: nat, reg: nat): Option<Kind> {
    if opmode == 7 then Some(KLea)
    else if upper == 1 && opmode < 4 then Some(KClr)
    else if upper == 2 && opmode < 4 then Some(KNeg)
    else if upper == 4 && opmode == 1 then Some(KPea)
    else if upper == 4 && (opmode == 2 || opmode == 3) && mode == 0 then Some(KExt)
    else if upper == 5 && opmode == 3 && mode == 7 && reg == 4 then Some(KIllegal)
    else if upper == 5 && opmode < 4 then Some(KTst)
    else if upper == 7 && opmode == 1 && mode == 2 then Some(KLink)
    else if upper == 7 && opmode == 1 && mode == 3 then Some(KUnlk)
    else if upper == 7 && opmode == 1 && mode == 6 && reg == 1 then Some(KNop)
    else if upper == 7 && opmode == 1 && mode == 6 && reg == 5 then Some(KRts)
    else if upper == 7 && opmode == 2 then Some(KJsr)
    else if upper == 7 && opmode == 3 then Some(KJmp)
    else None
  }

  /** The decoder on an opcode is the opcode map on its fields. */
  ghost predicate Mapped(line: nat, upper: nat, opmode: nat, mode: nat, reg: nat)
    requires line < 16 && upper < 8 && opmode < 8 && mode < 8 && reg < 8
  {
    var w := Word16(line, upper, opmode, mode, reg);
    Decode(w) == Made(OpcodeMap(line, upper, opmode, mode, reg), w)
  }

  lemma TableMask(k: nat)
    requires k < 62
    ensures |OpcodeMaskTable()| == 62
            && var e := OpcodeMaskTable()[k];
            e.mask < 0x1_0000 && e.value < 0x1_0000 && e.mask / 0x1000 == 15
  {
  }

  lemma TableMaskUpper(k: nat)
    requires k < 62
    ensures |OpcodeMaskTable()| == 62 && MaskDigit(OpcodeMaskTable()[k].mask / 0x100 % 16)
  {
  }

  lemma TableMaskLower(k: nat)
    requires k < 62
    ensures |OpcodeMaskTable()| == 62 && MaskDigit(OpcodeMaskTable()[k].mask / 0x10 % 16)
  {
  }

  lemma TableMaskLowest(k: nat)
    requires k < 62
    ensures |OpcodeMaskTable()| == 62 && MaskDigit(OpcodeMaskTable()[k].mask % 16)
  {
  }

  /** A matching entry is in the line of the opcode. */
  lemma MatchInLine(k: nat, d3: nat, d2: nat, d1: nat, d0: nat)
    requires k < 62 && d3 < 16 && d2 < 16 && d1 < 16 && d0 < 16
    ensures |OpcodeMaskTable()| == 62
            && var e := OpcodeMaskTable()[k]; Matches(e, Hex(d3, d2, d1, d0)) ==> e.value / 0x1000 == d3
  {
    TableMask(k);
    TableMaskUpper(k);
    TableMaskLower(k);
    TableMaskLowest(k);
    hide OpcodeMaskTable, Matches, Hex, MaskDigit;
    var e := OpcodeMaskTable()[k];
    HexDigits(e.mask);
    HexDigits(e.value);
    EntryFits(e, 15, e.mask / 0x100 % 16, e.mask / 0x10 % 16, e.mask % 16,
              e.value / 0x1000, e.value / 0x100 % 16, e.value / 0x10 % 16, e.value % 16, d3, d2, d1, d0);
  }

  lemma FirstInLine(d3: nat, d2: nat, d1: nat, d0: nat)
    requires d3 < 16 && d2 < 16 && d1 < 16 && d0 < 16 && Hex(d3, d2, d1, d0) < 0x1_0000
    ensures |OpcodeMaskTable()| == 62
            && var w, t := Hex(d3, d2, d1, d0), OpcodeMaskTable();
            var n := FirstIndex(t, w);
            && n <= 62 && (n < 62 ==> Matches(t[n], w) && t[n].value / 0x1000 == d3)
            && (forall k :: 0 <= k < n ==> !Matches(t[k], w))
            && Decode(w) == Made(if n < 62 then Some(t[n].kind) else None, w)
  {
    hide OpcodeMaskTable, Matches, Create, Made, Hex;
    MatchInLine(0, d3, d2, d1, d0);
    var w, t := Hex(d3, d2, d1, d0), OpcodeMaskTable();
    FirstDecides(t, w);
    var n := FirstIndex(t, w);
    if n < 62 {
      MatchInLine(n, d3, d2, d1, d0);
    }
  }

  lemma HexSmall(d3: nat, d2: nat, d1: nat, d0: nat)
    requires d3 < 16 && d2 < 16 && d1 < 16 && d0 < 16
    ensures Hex(d3, d2, d1, d0) < 0x1_0000
  {
  }

  lemma CutLine(line: nat)
    ensures Cut(line, 15) == line
  {
  }

  // ----- the lines -----

  /** The decoder on an opcode is the opcode map on its fields; b, c, h and i are the parts of opmode
      and mode that different digits hold. */
  ghost predicate MappedDigits(line: nat, upper: nat, b: nat, c: nat, h: nat, i: nat, reg: nat)
    requires line < 16 && upper < 8 && b < 2 && c < 4 && h < 4 && i < 2 && reg < 8
  {
    var w := Hex(line, 2 * upper + b, 4 * c + h, 8 * i + reg);
    w < 0x1_0000 && Decode(w) == Made(OpcodeMap(line, upper, 4 * b + c, 2 * h + i, reg), w)
  }

  lemma Line0Entries()
    ensures |OpcodeMaskTable()| == 62
    ensures var t := OpcodeMaskTable();
            && t[6] == MaskEntry(0xFFC0, 0x0800, KBitManip)
            && t[7] == MaskEntry(0xFFC0, 0x0840, KBitManip)
            && t[8] == MaskEntry(0xFFC0, 0x0880, KBitManip)
            && t[9] == MaskEntry(0xFFC0, 0x08C0, KBitManip)
            && t[17] == MaskEntry(0xFF00, 0x0000, KOri)
            && t[18] == MaskEntry(0xFF00, 0x0200, KAndi)
            && t[19] == MaskEntry(0xFF00, 0x0400, KSubi)
            && t[20] == MaskEntry(0xFF00, 0x0600, KAddi)
            && t[21] == MaskEntry(0xFF00, 0x0A00, KEori)
            && t[22] == MaskEntry(0xFF00, 0x0C00, KCmpi)
            && t[29] == MaskEntry(0xF1C0, 0x0100, KBitManip)
            && t[30] == MaskEntry(0xF1C0, 0x0140, KBitManip)
            && t[31] == MaskEntry(0xF1C0, 0x0180, KBitManip)
            && t[32] == MaskEntry(0xF1C0, 0x01C0, KBitManip)
  {
  }

  lemma Line0Only(k: nat)
    requires k < 62
    ensures |OpcodeMaskTable()| == 62
    ensures OpcodeMaskTable()[k].value / 0x1000 == 0 ==>
              k == 6 || k == 7 || k == 8 || k == 9 || k == 17 || k == 18 || k == 19 || k == 20 || k == 21 ||
              k == 22 || k == 29 || k == 30 || k == 31 || k == 32
  {
  }

  lemma Line0Fits0(d2: nat, d1: nat, d0: nat)
    requires d2 < 16 && d1 < 16 && d0 < 16
    ensures var t, w := OpcodeMaskTable(), Hex(0, d2, d1, d0);
            && |t| == 62
            && (Matches(t[6], w) <==> Cut(d2, 15) == 8 && Cut(d1, 12) == 0 && Cut(d0, 0) == 0)
            && (Matches(t[7], w) <==> Cut(d2, 15) == 8 && Cut(d1, 12) == 4 && Cut(d0, 0) == 0)
            && (Matches(t[8], w) <==> Cut(d2, 15) == 8 && Cut(d1, 12) == 8 && Cut(d0, 0) == 0)
            && (Matches(t[9], w) <==> Cut(d2, 15) == 8 && Cut(d1, 12) == 12 && Cut(d0, 0) == 0)
            && (Matches(t[17], w) <==> Cut(d2, 15) == 0 && Cut(d1, 0) == 0 && Cut(d0, 0) == 0)
            && (Matches(t[18], w) <==> Cut(d2, 15) == 2 && Cut(d1, 0) == 0 && Cut(d0, 0) == 0)
            && (Matches(t[19], w) <==> Cut(d2, 15) == 4 && Cut(d1, 0) == 0 && Cut(d0, 0) == 0)
            && (Matches(t[20], w) <==> Cut(d2, 15) == 6 && Cut(d1, 0) == 0 && Cut(d0, 0) == 0)
  {
    hide BitAnd, OpcodeMaskTable, Matches, Hex;
    Line0Entries();
    CutLine(0);
    EntryFits(OpcodeMaskTable()[6], 15, 15, 12, 0, 0, 8, 0, 0, 0, d2, d1, d0);
    EntryFits(OpcodeMaskTable()[7], 15, 15, 12, 0, 0, 8, 4, 0, 0, d2, d1, d0);
    EntryFits(OpcodeMaskTable()[8], 15, 15, 12, 0, 0, 8, 8, 0, 0, d2, d1, d0);
    EntryFits(OpcodeMaskTable()[9], 15, 15, 12, 0, 0, 8, 12, 0, 0, d2, d1, d0);
    EntryFits(OpcodeMaskTable()[17], 15, 15, 0, 0, 0, 0, 0, 0, 0, d2, d1, d0);
    EntryFits(OpcodeMaskTable()[18], 15, 15, 0, 0, 0, 2, 0, 0, 0, d2, d1, d0);
    EntryFits(OpcodeMaskTable()[19], 15, 15, 0, 0, 0, 4, 0, 0, 0, d2, d1, d0);
    EntryFits(OpcodeMaskTable()[20], 15, 15, 0, 0, 0, 6, 0, 0, 0, d2, d1, d0);
  }

  lemma Line0Fits1(d2: nat, d1: nat, d0: nat)
    requires d2 < 16 && d1 < 16 && d0 < 16
    ensures var t, w := OpcodeMaskTable(), Hex(0, d2, d1, d0);
            && |t| == 62
            && (Matches(t[21], w) <==> Cut(d2, 15) == 10 && Cut(d1, 0) == 0 && Cut(d0, 0) == 0)
            && (Matches(t[22], w) <==> Cut(d2, 15) == 12 && Cut(d1, 0) == 0 && Cut(d0, 0) == 0)
            && (Matches(t[29], w) <==> Cut(d2, 1) == 1 && Cut(d1, 12) == 0 && Cut(d0, 0) == 0)
            && (Matches(t[30], w) <==> Cut(d2, 1) == 1 && Cut(d1, 12) == 4 && Cut(d0, 0) == 0)
            && (Matches(t[31], w) <==> Cut(d2, 1) == 1 && Cut(d1, 12) == 8 && Cut(d0, 0) == 0)
            && (Matches(t[32], w) <==> Cut(d2, 1) == 1 && Cut(d1, 12) == 12 && Cut(d0, 0) == 0)
  {
    hide BitAnd, OpcodeMaskTable, Matches, Hex;
    Line0Entries();
    CutLine(0);
    EntryFits(OpcodeMaskTable()[21], 15, 15, 0, 0, 0, 10, 0, 0, 0, d2, d1, d0);
    EntryFits(OpcodeMaskTable()[22], 15, 15, 0, 0, 0, 12, 0, 0, 0, d2, d1, d0);
    EntryFits(OpcodeMaskTable()[29], 15, 1, 12, 0, 0, 1, 0, 0, 0, d2, d1, d0);
    EntryFits(OpcodeMaskTable()[30], 15, 1, 12, 0, 0, 1, 4, 0, 0, d2, d1, d0);
    EntryFits(OpcodeMaskTable()[31], 15, 1, 12, 0, 0, 1, 8, 0, 0, d2, d1, d0);
    EntryFits(OpcodeMaskTable()[32], 15, 1, 12, 0, 0, 1, 12, 0, 0, d2, d1, d0);
  }

  lemma Line0(upper: nat, b: nat, c: nat, h: nat, i: nat, reg: nat)
    requires upper < 8 && b < 2 && c < 4 && h < 4 && i < 2 && reg < 8
    ensures MappedDigits(0, upper, b, c, h, i, reg)
  {
    hide BitAnd, OpcodeMaskTable, Matches, Made, FirstIndex, Decode, Hex;
    var d2, d1, d0, t := 2 * upper + b, 4 * c + h, 8 * i + reg, OpcodeMaskTable();
    Line0Entries();
    Line0Fits0(d2, d1, d0);
    Line0Fits1(d2, d1, d0);
    hide Cut, MaskDigit;
    CutLine(0);
    CutParts(upper, b, c, h, i, reg);
    HexSmall(0, 2 * upper + b, 4 * c + h, 8 * i + reg);
    FirstInLine(0, 2 * upper + b, 4 * c + h, 8 * i + reg);
    var n := FirstIndex(OpcodeMaskTable(), Hex(0, 2 * upper + b, 4 * c + h, 8 * i + reg));
    Line0Only(if n < 62 then n else 0);
  }

  lemma Line1Entries()
    ensures |OpcodeMaskTable()| == 62
    ensures var t := OpcodeMaskTable();
            && t[57] == MaskEntry(0xF000, 0x1000, KMove)
  {
  }

  lemma Line1Only(k: nat)
    requires k < 62
    ensures |OpcodeMaskTable()| == 62
    ensures OpcodeMaskTable()[k].value / 0x1000 == 1 ==>
              k == 57
  {
  }

  lemma Line1(upper: nat, b: nat, c: nat, h: nat, i: nat, reg: nat)
    requires upper < 8 && b < 2 && c < 4 && h < 4 && i < 2 && reg < 8
    ensures MappedDigits(1, upper, b, c, h, i, reg)
  {
    hide BitAnd, OpcodeMaskTable, Matches, Made, FirstIndex, Decode, Hex;
    var d2, d1, d0, t := 2 * upper + b, 4 * c + h, 8 * i + reg, OpcodeMaskTable();
    Line1Entries();
    EntryFits(t[57], 15, 0, 0, 0, 1, 0, 0, 0, 1, d2, d1, d0);
    hide Cut, MaskDigit;
    CutLine(1);
    CutParts(upper, b, c, h, i, reg);
    HexSmall(1, 2 * upper + b, 4 * c + h, 8 * i + reg);
    FirstInLine(1, 2 * upper + b, 4 * c + h, 8 * i + reg);
    var n := FirstIndex(OpcodeMaskTable(), Hex(1, 2 * upper + b, 4 * c + h, 8 * i + reg));
    Line1Only(if n < 62 then n else 0);
  }

  lemma Line2Entries()
    ensures |OpcodeMaskTable()| == 62
    ensures var t := OpcodeMaskTable();
            && t[34] == MaskEntry(0xF1C0, 0x2040, KMove)
            && t[56] == MaskEntry(0xF000, 0x2000, KMove)
  {
  }

  lemma Line2Only(k: nat)
    requires k < 62
    ensures |OpcodeMaskTable()| == 62
    ensures OpcodeMaskTable()[k].value / 0x1000 == 2 ==>
              k == 34 || k == 56
  {
  }

  lemma Line2(upper: nat, b: nat, c: nat, h: nat, i: nat, reg: nat)
    requires upper < 8 && b < 2 && c < 4 && h < 4 && i < 2 && reg < 8
    ensures MappedDigits(2, upper, b, c, h, i, reg)
  {
    hide BitAnd, OpcodeMaskTable, Matches, Made, FirstIndex, Decode, Hex;
    var d2, d1, d0, t := 2 * upper + b, 4 * c + h, 8 * i + reg, OpcodeMaskTable();
    Line2Entries();
    EntryFits(t[34], 15, 1, 12, 0, 2, 0, 4, 0, 2, d2, d1, d0);
    EntryFits(t[56], 15, 0, 0, 0, 2, 0, 0, 0, 2, d2, d1, d0);
    hide Cut, MaskDigit;
    CutLine(2);
    CutParts(upper, b, c, h, i, reg);
    HexSmall(2, 2 * upper + b, 4 * c + h, 8 * i + reg);
    FirstInLine(2, 2 * upper + b, 4 * c + h, 8 * i + reg);
    var n := FirstIndex(OpcodeMaskTable(), Hex(2, 2 * upper + b, 4 * c + h, 8 * i + reg));
    Line2Only(if n < 62 then n else 0);
  }

  lemma Line3Entries()
    ensures |OpcodeMaskTable()| == 62
    ensures var t := OpcodeMaskTable();
            && t[33] == MaskEntry(0xF1C0, 0x3040, KMove)
            && t[55] == MaskEntry(0xF000, 0x3000, KMove)
  {
  }

  lemma Line3Only(k: nat)
    requires k < 62
    ensures |OpcodeMaskTable()| == 62
    ensures OpcodeMaskTable()[k].value / 0x1000 == 3 ==>
              k == 33 || k == 55
  {
  }

  lemma Line3(upper: nat, b: nat, c: nat, h: nat, i: nat, reg: nat)
    requires upper < 8 && b < 2 && c < 4 && h < 4 && i < 2 && reg < 8
    ensures MappedDigits(3, upper, b, c, h, i, reg)
  {
    hide BitAnd, OpcodeMaskTable, Matches, Made, FirstIndex, Decode, Hex;
    var d2, d1, d0, t := 2 * upper + b, 4 * c + h, 8 * i + reg, OpcodeMaskTable();
    Line3Entries();
    EntryFits(t[33], 15, 1, 12, 0, 3, 0, 4, 0, 3, d2, d1, d0);
    EntryFits(t[55], 15, 0, 0, 0, 3, 0, 0, 0, 3, d2, d1, d0);
    hide Cut, MaskDigit;
    CutLine(3);
    CutParts(upper, b, c, h, i, reg);
    HexSmall(3, 2 * upper + b, 4 * c + h, 8 * i + reg);
    FirstInLine(3, 2 * upper + b, 4 * c + h, 8 * i + reg);
    var n := FirstIndex(OpcodeMaskTable(), Hex(3, 2 * upper + b, 4 * c + h, 8 * i + reg));
    Line3Only(if n < 62 then n else 0);
  }

  lemma Line4Entries()
    ensures |OpcodeMaskTable()| == 62
    ensures var t := OpcodeMaskTable();
            && t[0] == MaskEntry(0xFFFF, 0x4AFC, KIllegal)
            && t[1] == MaskEntry(0xFFFF, 0x4E71, KNop)
            && t[2] == MaskEntry(0xFFFF, 0x4E75, KRts)
            && t[3] == MaskEntry(0xFFF8, 0x4E50, KLink)
            && t[4] == MaskEntry(0xFFF8, 0x4E58, KUnlk)
            && t[5] == MaskEntry(0xFFB8, 0x4880, KExt)
            && t[10] == MaskEntry(0xFFC0, 0x4840, KPea)
            && t[11] == MaskEntry(0xFFC0, 0x4E80, KJsr)
            && t[12] == MaskEntry(0xFFC0, 0x4EC0, KJmp)
            && t[23] == MaskEntry(0xFF00, 0x4200, KClr)
            && t[24] == MaskEntry(0xFF00, 0x4400, KNeg)
            && t[25] == MaskEntry(0xFF00, 0x4A00, KTst)
            && t[35] == MaskEntry(0xF1C0, 0x41C0, KLea)
  {
  }

  lemma Line4Only(k: nat)
    requires k < 62
    ensures |OpcodeMaskTable()| == 62
    ensures OpcodeMaskTable()[k].value / 0x1000 == 4 ==>
              k == 0 || k == 1 || k == 2 || k == 3 || k == 4 || k == 5 || k == 10 || k == 11 || k == 12 ||
              k == 23 || k == 24 || k == 25 || k == 35
  {
  }

  lemma Line4Fits0(d2: nat, d1: nat, d0: nat)
    requires d2 < 16 && d1 < 16 && d0 < 16
    ensures var t, w := OpcodeMaskTable(), Hex(4, d2, d1, d0);
            && |t| == 62
            && (Matches(t[0], w) <==> Cut(d2, 15) == 10 && Cut(d1, 15) == 15 && Cut(d0, 15) == 12)
            && (Matches(t[1], w) <==> Cut(d2, 15) == 14 && Cut(d1, 15) == 7 && Cut(d0, 15) == 1)
            && (Matches(t[2], w) <==> Cut(d2, 15) == 14 && Cut(d1, 15) == 7 && Cut(d0, 15) == 5)
            && (Matches(t[3], w) <==> Cut(d2, 15) == 14 && Cut(d1, 15) == 5 && Cut(d0, 8) == 0)
            && (Matches(t[4], w) <==> Cut(d2, 15) == 14 && Cut(d1, 15) == 5 && Cut(d0, 8) == 8)
            && (Matches(t[5], w) <==> Cut(d2, 15) == 8 && Cut(d1, 11) == 8 && Cut(d0, 8) == 0)
            && (Matches(t[10], w) <==> Cut(d2, 15) == 8 && Cut(d1, 12) == 4 && Cut(d0, 0) == 0)
            && (Matches(t[11], w) <==> Cut(d2, 15) == 14 && Cut(d1, 12) == 8 && Cut(d0, 0) == 0)
  {
    hide BitAnd, OpcodeMaskTable, Matches, Hex;
    Line4Entries();
    CutLine(4);
    EntryFits(OpcodeMaskTable()[0], 15, 15, 15, 15, 4, 10, 15, 12, 4, d2, d1, d0);
    EntryFits(OpcodeMaskTable()[1], 15, 15, 15, 15, 4, 14, 7, 1, 4, d2, d1, d0);
    EntryFits(OpcodeMaskTable()[2], 15, 15, 15, 15, 4, 14, 7, 5, 4, d2, d1, d0);
    EntryFits(OpcodeMaskTable()[3], 15, 15, 15, 8, 4, 14, 5, 0, 4, d2, d1, d0);
    EntryFits(OpcodeMaskTable()[4], 15, 15, 15, 8, 4, 14, 5, 8, 4, d2, d1, d0);
    EntryFits(OpcodeMaskTable()[5], 15, 15, 11, 8, 4, 8, 8, 0, 4, d2, d1, d0);
    EntryFits(OpcodeMaskTable()[10], 15, 15, 12, 0, 4, 8, 4, 0, 4, d2, d1, d0);
    EntryFits(OpcodeMaskTable()[11], 15, 15, 12, 0, 4, 14, 8, 0, 4, d2, d1, d0);
  }

  lemma Line4Fits1(d2: nat, d1: nat, d0: nat)
    requires d2 < 16 && d1 < 16 && d0 < 16
    ensures var t, w := OpcodeMaskTable(), Hex(4, d2, d1, d0);
            && |t| == 62
            && (Matches(t[12], w) <==> Cut(d2, 15) == 14 && Cut(d1, 12) == 12 && Cut(d0, 0) == 0)
            && (Matches(t[23], w) <==> Cut(d2, 15) == 2 && Cut(d1, 0) == 0 && Cut(d0, 0) == 0)
            && (Matches(t[24], w) <==> Cut(d2, 15) == 4 && Cut(d1, 0) == 0 && Cut(d0, 0) == 0)
            && (Matches(t[25], w) <==> Cut(d2, 15) == 10 && Cut(d1, 0) == 0 && Cut(d0, 0) == 0)
            && (Matches(t[35], w) <==> Cut(d2, 1) == 1 && Cut(d1, 12) == 12 && Cut(d0, 0) == 0)
  {
    hide BitAnd, OpcodeMaskTable, Matches, Hex;
    Line4Entries();
    CutLine(4);
    EntryFits(OpcodeMaskTable()[12], 15, 15, 12, 0, 4, 14, 12, 0, 4, d2, d1, d0);
    EntryFits(OpcodeMaskTable()[23], 15, 15, 0, 0, 4, 2, 0, 0, 4, d2, d1, d0);
    EntryFits(OpcodeMaskTable()[24], 15, 15, 0, 0, 4, 4, 0, 0, 4, d2, d1, d0);
    EntryFits(OpcodeMaskTable()[25], 15, 15, 0, 0, 4, 10, 0, 0, 4, d2, d1, d0);
    EntryFits(OpcodeMaskTable()[35], 15, 1, 12, 0, 4, 1, 12, 0, 4, d2, d1, d0);
  }

  lemma Line4(upper: nat, b: nat, c: nat, h: nat, i: nat, reg: nat)
    requires upper < 8 && b < 2 && c < 4 && h < 4 && i < 2 && reg < 8
    ensures MappedDigits(4, upper, b, c, h, i, reg)
  {
    hide BitAnd, OpcodeMaskTable, Matches, Made, FirstIndex, Decode, Hex, Cut, MaskDigit;
    var d2, d1, d0, t := 2 * upper + b, 4 * c + h, 8 * i + reg, OpcodeMaskTable();
    Line4Entries();
    Line4Fits0(d2, d1, d0);
    Line4Fits1(d2, d1, d0);
    CutLine(4);
    CutParts(upper, b, c, h, i, reg);
    HexSmall(4, 2 * upper + b, 4 * c + h, 8 * i + reg);
    FirstInLine(4, 2 * upper + b, 4 * c + h, 8 * i + reg);
    var n := FirstIndex(OpcodeMaskTable(), Hex(4, 2 * upper + b, 4 * c + h, 8 * i + reg));
    Line4Only(if n < 62 then n else 0);
  }

  lemma Line5Entries()
    ensures |OpcodeMaskTable()| == 62
    ensures var t := OpcodeMaskTable();
            && t[44] == MaskEntry(0xF0C0, 0x50C0, KScc)
            && t[50] == MaskEntry(0xF100, 0x5000, KAddq)
            && t[51] == MaskEntry(0xF100, 0x5100, KSubq)
  {
  }

  lemma Line5Only(k: nat)
    requires k < 62
    ensures |OpcodeMaskTable()| == 62
    ensures OpcodeMaskTable()[k].value / 0x1000 == 5 ==>
              k == 44 || k == 50 || k == 51
  {
  }

  lemma Line5(upper: nat, b: nat, c: nat, h: nat, i: nat, reg: nat)
    requires upper < 8 && b < 2 && c < 4 && h < 4 && i < 2 && reg < 8
    ensures MappedDigits(5, upper, b, c, h, i, reg)
  {
    hide BitAnd, OpcodeMaskTable, Matches, Made, FirstIndex, Decode, Hex;
    var d2, d1, d0, t := 2 * upper + b, 4 * c + h, 8 * i + reg, OpcodeMaskTable();
    Line5Entries();
    EntryFits(t[44], 15, 0, 12, 0, 5, 0, 12, 0, 5, d2, d1, d0);
    EntryFits(t[50], 15, 1, 0, 0, 5, 0, 0, 0, 5, d2, d1, d0);
    EntryFits(t[51], 15, 1, 0, 0, 5, 1, 0, 0, 5, d2, d1, d0);
    hide Cut, MaskDigit;
    CutLine(5);
    CutParts(upper, b, c, h, i, reg);
    HexSmall(5, 2 * upper + b, 4 * c + h, 8 * i + reg);
    FirstInLine(5, 2 * upper + b, 4 * c + h, 8 * i + reg);
    var n := FirstIndex(OpcodeMaskTable(), Hex(5, 2 * upper + b, 4 * c + h, 8 * i + reg));
    Line5Only(if n < 62 then n else 0);
  }

  lemma Line6Entries()
    ensures |OpcodeMaskTable()| == 62
    ensures var t := OpcodeMaskTable();
            && t[26] == MaskEntry(0xFF00, 0x6000, KBcc)
            && t[27] == MaskEntry(0xFF00, 0x6100, KBcc)
            && t[58] == MaskEntry(0xF000, 0x6000, KBcc)
  {
  }

  lemma Line6Only(k: nat)
    requires k < 62
    ensures |OpcodeMaskTable()| == 62
    ensures OpcodeMaskTable()[k].value / 0x1000 == 6 ==>
              k == 26 || k == 27 || k == 58
  {
  }

  lemma Line6(upper: nat, b: nat, c: nat, h: nat, i: nat, reg: nat)
    requires upper < 8 && b < 2 && c < 4 && h < 4 && i < 2 && reg < 8
    ensures MappedDigits(6, upper, b, c, h, i, reg)
  {
    hide BitAnd, OpcodeMaskTable, Matches, Made, FirstIndex, Decode, Hex;
    var d2, d1, d0, t := 2 * upper + b, 4 * c + h, 8 * i + reg, OpcodeMaskTable();
    Line6Entries();
    EntryFits(t[26], 15, 15, 0, 0, 6, 0, 0, 0, 6, d2, d1, d0);
    EntryFits(t[27], 15, 15, 0, 0, 6, 1, 0, 0, 6, d2, d1, d0);
    EntryFits(t[58], 15, 0, 0, 0, 6, 0, 0, 0, 6, d2, d1, d0);
    hide Cut, MaskDigit;
    CutLine(6);
    CutParts(upper, b, c, h, i, reg);
    HexSmall(6, 2 * upper + b, 4 * c + h, 8 * i + reg);
    FirstInLine(6, 2 * upper + b, 4 * c + h, 8 * i + reg);
    var n := FirstIndex(OpcodeMaskTable(), Hex(6, 2 * upper + b, 4 * c + h, 8 * i + reg));
    Line6Only(if n < 62 then n else 0);
  }

  lemma Line7Entries()
    ensures |OpcodeMaskTable()| == 62
    ensures var t := OpcodeMaskTable();
            && t[52] == MaskEntry(0xF100, 0x7000, KMoveq)
  {
  }

  lemma Line7Only(k: nat)
    requires k < 62
    ensures |OpcodeMaskTable()| == 62
    ensures OpcodeMaskTable()[k].value / 0x1000 == 7 ==>
              k == 52
  {
  }

  lemma Line7(upper: nat, b: nat, c: nat, h: nat, i: nat, reg: nat)
    requires upper < 8 && b < 2 && c < 4 && h < 4 && i < 2 && reg < 8
    ensures MappedDigits(7, upper, b, c, h, i, reg)
  {
    hide BitAnd, OpcodeMaskTable, Matches, Made, FirstIndex, Decode, Hex;
    var d2, d1, d0, t := 2 * upper + b, 4 * c + h, 8 * i + reg, OpcodeMaskTable();
    Line7Entries();
    EntryFits(t[52], 15, 1, 0, 0, 7, 0, 0, 0, 7, d2, d1, d0);
    hide Cut, MaskDigit;
    CutLine(7);
    CutParts(upper, b, c, h, i, reg);
    HexSmall(7, 2 * upper + b, 4 * c + h, 8 * i + reg);
    FirstInLine(7, 2 * upper + b, 4 * c + h, 8 * i + reg);
    var n := FirstIndex(OpcodeMaskTable(), Hex(7, 2 * upper + b, 4 * c + h, 8 * i + reg));
    Line7Only(if n < 62 then n else 0);
  }

  lemma Line8Entries()
    ensures |OpcodeMaskTable()| == 62
    ensures var t := OpcodeMaskTable();
            && t[36] == MaskEntry(0xF1C0, 0x80C0, KDiv)
            && t[37] == MaskEntry(0xF1C0, 0x81C0, KDiv)
            && t[59] == MaskEntry(0xF000, 0x8000, KOr)
  {
  }

  lemma Line8Only(k: nat)
    requires k < 62
    ensures |OpcodeMaskTable()| == 62
    ensures OpcodeMaskTable()[k].value / 0x1000 == 8 ==>
              k == 36 || k == 37 || k == 59
  {
  }

  lemma Line8(upper: nat, b: nat, c: nat, h: nat, i: nat, reg: nat)
    requires upper < 8 && b < 2 && c < 4 && h < 4 && i < 2 && reg < 8
    ensures MappedDigits(8, upper, b, c, h, i, reg)
  {
    hide BitAnd, OpcodeMaskTable, Matches, Made, FirstIndex, Decode, Hex;
    var d2, d1, d0, t := 2 * upper + b, 4 * c + h, 8 * i + reg, OpcodeMaskTable();
    Line8Entries();
    EntryFits(t[36], 15, 1, 12, 0, 8, 0, 12, 0, 8, d2, d1, d0);
    EntryFits(t[37], 15, 1, 12, 0, 8, 1, 12, 0, 8, d2, d1, d0);
    EntryFits(t[59], 15, 0, 0, 0, 8, 0, 0, 0, 8, d2, d1, d0);
    hide Cut, MaskDigit;
    CutLine(8);
    CutParts(upper, b, c, h, i, reg);
    HexSmall(8, 2 * upper + b, 4 * c + h, 8 * i + reg);
    FirstInLine(8, 2 * upper + b, 4 * c + h, 8 * i + reg);
    var n := FirstIndex(OpcodeMaskTable(), Hex(8, 2 * upper + b, 4 * c + h, 8 * i + reg));
    Line8Only(if n < 62 then n else 0);
  }

  lemma Line9Entries()
    ensures |OpcodeMaskTable()| == 62
    ensures var t := OpcodeMaskTable();
            && t[38] == MaskEntry(0xF0C0, 0x90C0, KSuba)
            && t[45] == MaskEntry(0xF130, 0x9100, KSubx)
            && t[60] == MaskEntry(0xF000, 0x9000, KSub)
  {
  }

  lemma Line9Only(k: nat)
    requires k < 62
    ensures |OpcodeMaskTable()| == 62
    ensures OpcodeMaskTable()[k].value / 0x1000 == 9 ==>
              k == 38 || k == 45 || k == 60
  {
  }

  lemma Line9(upper: nat, b: nat, c: nat, h: nat, i: nat, reg: nat)
    requires upper < 8 && b < 2 && c < 4 && h < 4 && i < 2 && reg < 8
    ensures MappedDigits(9, upper, b, c, h, i, reg)
  {
    hide BitAnd, OpcodeMaskTable, Matches, Made, FirstIndex, Decode, Hex;
    var d2, d1, d0, t := 2 * upper + b, 4 * c + h, 8 * i + reg, OpcodeMaskTable();
    Line9Entries();
    EntryFits(t[38], 15, 0, 12, 0, 9, 0, 12, 0, 9, d2, d1, d0);
    EntryFits(t[45], 15, 1, 3, 0, 9, 1, 0, 0, 9, d2, d1, d0);
    EntryFits(t[60], 15, 0, 0, 0, 9, 0, 0, 0, 9, d2, d1, d0);
    hide Cut, MaskDigit;
    CutLine(9);
    CutParts(upper, b, c, h, i, reg);
    HexSmall(9, 2 * upper + b, 4 * c + h, 8 * i + reg);
    FirstInLine(9, 2 * upper + b, 4 * c + h, 8 * i + reg);
    var n := FirstIndex(OpcodeMaskTable(), Hex(9, 2 * upper + b, 4 * c + h, 8 * i + reg));
    Line9Only(if n < 62 then n else 0);
  }

  lemma LineAOnly(k: nat)
    requires k < 62
    ensures |OpcodeMaskTable()| == 62
    ensures OpcodeMaskTable()[k].value / 0x1000 != 10
  {
  }

  lemma LineA(upper: nat, b: nat, c: nat, h: nat, i: nat, reg: nat)
    requires upper < 8 && b < 2 && c < 4 && h < 4 && i < 2 && reg < 8
    ensures MappedDigits(10, upper, b, c, h, i, reg)
  {
    hide OpcodeMaskTable, Matches, Made, FirstIndex, Decode, Hex;
    HexSmall(10, 2 * upper + b, 4 * c + h, 8 * i + reg);
    FirstInLine(10, 2 * upper + b, 4 * c + h, 8 * i + reg);
    var n := FirstIndex(OpcodeMaskTable(), Hex(10, 2 * upper + b, 4 * c + h, 8 * i + reg));
    LineAOnly(if n < 62 then n else 0);
  }

  lemma LineBEntries()
    ensures |OpcodeMaskTable()| == 62
    ensures var t := OpcodeMaskTable();
            && t[28] == MaskEntry(0xF0C0, 0xB0C0, KCmpa)
            && t[53] == MaskEntry(0xF100, 0xB100, KEor)
            && t[54] == MaskEntry(0xF100, 0xB000, KCmp)
  {
  }

  lemma LineBOnly(k: nat)
    requires k < 62
    ensures |OpcodeMaskTable()| == 62
    ensures OpcodeMaskTable()[k].value / 0x1000 == 11 ==>
              k == 28 || k == 53 || k == 54
  {
  }

  lemma LineB(upper: nat, b: nat, c: nat, h: nat, i: nat, reg: nat)
    requires upper < 8 && b < 2 && c < 4 && h < 4 && i < 2 && reg < 8
    ensures MappedDigits(11, upper, b, c, h, i, reg)
  {
    hide BitAnd, OpcodeMaskTable, Matches, Made, FirstIndex, Decode, Hex;
    var d2, d1, d0, t := 2 * upper + b, 4 * c + h, 8 * i + reg, OpcodeMaskTable();
    LineBEntries();
    EntryFits(t[28], 15, 0, 12, 0, 11, 0, 12, 0, 11, d2, d1, d0);
    EntryFits(t[53], 15, 1, 0, 0, 11, 1, 0, 0, 11, d2, d1, d0);
    EntryFits(t[54], 15, 1, 0, 0, 11, 0, 0, 0, 11, d2, d1, d0);
    hide Cut, MaskDigit;
    CutLine(11);
    CutParts(upper, b, c, h, i, reg);
    HexSmall(11, 2 * upper + b, 4 * c + h, 8 * i + reg);
    FirstInLine(11, 2 * upper + b, 4 * c + h, 8 * i + reg);
    var n := FirstIndex(OpcodeMaskTable(), Hex(11, 2 * upper + b, 4 * c + h, 8 * i + reg));
    LineBOnly(if n < 62 then n else 0);
  }

  lemma LineCEntries()
    ensures |OpcodeMaskTable()| == 62
    ensures var t := OpcodeMaskTable();
            && t[39] == MaskEntry(0xF1C0, 0xC0C0, KMul)
            && t[40] == MaskEntry(0xF1C0, 0xC1C0, KMul)
            && t[41] == MaskEntry(0xF000, 0xC000, KAnd)
  {
  }

  lemma LineCOnly(k: nat)
    requires k < 62
    ensures |OpcodeMaskTable()| == 62
    ensures OpcodeMaskTable()[k].value / 0x1000 == 12 ==>
              k == 39 || k == 40 || k == 41
  {
  }

  lemma LineC(upper: nat, b: nat, c: nat, h: nat, i: nat, reg: nat)
    requires upper < 8 && b < 2 && c < 4 && h < 4 && i < 2 && reg < 8
    ensures MappedDigits(12, upper, b, c, h, i, reg)
  {
    hide BitAnd, OpcodeMaskTable, Matches, Made, FirstIndex, Decode, Hex;
    var d2, d1, d0, t := 2 * upper + b, 4 * c + h, 8 * i + reg, OpcodeMaskTable();
    LineCEntries();
    EntryFits(t[39], 15, 1, 12, 0, 12, 0, 12, 0, 12, d2, d1, d0);
    EntryFits(t[40], 15, 1, 12, 0, 12, 1, 12, 0, 12, d2, d1, d0);
    EntryFits(t[41], 15, 0, 0, 0, 12, 0, 0, 0, 12, d2, d1, d0);
    hide Cut, MaskDigit;
    CutLine(12);
    CutParts(upper, b, c, h, i, reg);
    HexSmall(12, 2 * upper + b, 4 * c + h, 8 * i + reg);
    FirstInLine(12, 2 * upper + b, 4 * c + h, 8 * i + reg);
    var n := FirstIndex(OpcodeMaskTable(), Hex(12, 2 * upper + b, 4 * c + h, 8 * i + reg));
    LineCOnly(if n < 62 then n else 0);
  }

  lemma LineDEntries()
    ensures |OpcodeMaskTable()| == 62
    ensures var t := OpcodeMaskTable();
            && t[42] == MaskEntry(0xF0C0, 0xD0C0, KAdda)
            && t[43] == MaskEntry(0xF130, 0xD100, KAddx)
            && t[61] == MaskEntry(0xF000, 0xD000, KAdd)
  {
  }

  lemma LineDOnly(k: nat)
    requires k < 62
    ensures |OpcodeMaskTable()| == 62
    ensures OpcodeMaskTable()[k].value / 0x1000 == 13 ==>
              k == 42 || k == 43 || k == 61
  {
  }

  lemma LineD(upper: nat, b: nat, c: nat, h: nat, i: nat, reg: nat)
    requires upper < 8 && b < 2 && c < 4 && h < 4 && i < 2 && reg < 8
    ensures MappedDigits(13, upper, b, c, h, i, reg)
  {
    hide BitAnd, OpcodeMaskTable, Matches, Made, FirstIndex, Decode, Hex;
    var d2, d1, d0, t := 2 * upper + b, 4 * c + h, 8 * i + reg, OpcodeMaskTable();
    LineDEntries();
    EntryFits(t[42], 15, 0, 12, 0, 13, 0, 12, 0, 13, d2, d1, d0);
    EntryFits(t[43], 15, 1, 3, 0, 13, 1, 0, 0, 13, d2, d1, d0);
    EntryFits(t[61], 15, 0, 0, 0, 13, 0, 0, 0, 13, d2, d1, d0);
    hide Cut, MaskDigit;
    CutLine(13);
    CutParts(upper, b, c, h, i, reg);
    HexSmall(13, 2 * upper + b, 4 * c + h, 8 * i + reg);
    FirstInLine(13, 2 * upper + b, 4 * c + h, 8 * i + reg);
    var n := FirstIndex(OpcodeMaskTable(), Hex(13, 2 * upper + b, 4 * c + h, 8 * i + reg));
    LineDOnly(if n < 62 then n else 0);
  }

  lemma LineEEntries()
    ensures |OpcodeMaskTable()| == 62
    ensures var t := OpcodeMaskTable();
            && t[13] == MaskEntry(0xFEC0, 0xE0C0, KBitShift)
            && t[14] == MaskEntry(0xFEC0, 0xE2C0, KBitShift)
            && t[15] == MaskEntry(0xFEC0, 0xE4C0, KBitShift)
            && t[16] == MaskEntry(0xFEC0, 0xE6C0, KBitShift)
            && t[46] == MaskEntry(0xF018, 0xE000, KBitShift)
            && t[47] == MaskEntry(0xF018, 0xE008, KBitShift)
            && t[48] == MaskEntry(0xF018, 0xE010, KBitShift)
            && t[49] == MaskEntry(0xF018, 0xE018, KBitShift)
  {
  }

  lemma LineEOnly(k: nat)
    requires k < 62
    ensures |OpcodeMaskTable()| == 62
    ensures OpcodeMaskTable()[k].value / 0x1000 == 14 ==>
              k == 13 || k == 14 || k == 15 || k == 16 || k == 46 || k == 47 || k == 48 || k == 49
  {
  }

  lemma LineE(upper: nat, b: nat, c: nat, h: nat, i: nat, reg: nat)
    requires upper < 8 && b < 2 && c < 4 && h < 4 && i < 2 && reg < 8
    ensures MappedDigits(14, upper, b, c, h, i, reg)
  {
    hide BitAnd, OpcodeMaskTable, Matches, Made, FirstIndex, Decode, Hex;
    var d2, d1, d0, t := 2 * upper + b, 4 * c + h, 8 * i + reg, OpcodeMaskTable();
    LineEEntries();
    EntryFits(t[13], 15, 14, 12, 0, 14, 0, 12, 0, 14, d2, d1, d0);
    EntryFits(t[14], 15, 14, 12, 0, 14, 2, 12, 0, 14, d2, d1, d0);
    EntryFits(t[15], 15, 14, 12, 0, 14, 4, 12, 0, 14, d2, d1, d0);
    EntryFits(t[16], 15, 14, 12, 0, 14, 6, 12, 0, 14, d2, d1, d0);
    EntryFits(t[46], 15, 0, 1, 8, 14, 0, 0, 0, 14, d2, d1, d0);
    EntryFits(t[47], 15, 0, 1, 8, 14, 0, 0, 8, 14, d2, d1, d0);
    EntryFits(t[48], 15, 0, 1, 8, 14, 0, 1, 0, 14, d2, d1, d0);
    EntryFits(t[49], 15, 0, 1, 8, 14, 0, 1, 8, 14, d2, d1, d0);
    hide Cut, MaskDigit;
    CutLine(14);
    CutParts(upper, b, c, h, i, reg);
    HexSmall(14, 2 * upper + b, 4 * c + h, 8 * i + reg);
    FirstInLine(14, 2 * upper + b, 4 * c + h, 8 * i + reg);
    var n := FirstIndex(OpcodeMaskTable(), Hex(14, 2 * upper + b, 4 * c + h, 8 * i + reg));
    LineEOnly(if n < 62 then n else 0);
  }

  lemma LineFOnly(k: nat)
    requires k < 62
    ensures |OpcodeMaskTable()| == 62
    ensures OpcodeMaskTable()[k].value / 0x1000 != 15
  {
  }

  lemma LineF(upper: nat, b: nat, c: nat, h: nat, i: nat, reg: nat)
    requires upper < 8 && b < 2 && c < 4 && h < 4 && i < 2 && reg < 8
    ensures MappedDigits(15, upper, b, c, h, i, reg)
  {
    hide OpcodeMaskTable, Matches, Made, FirstIndex, Decode, Hex;
    HexSmall(15, 2 * upper + b, 4 * c + h, 8 * i + reg);
    FirstInLine(15, 2 * upper + b, 4 * c + h, 8 * i + reg);
    var n := FirstIndex(OpcodeMaskTable(), Hex(15, 2 * upper + b, 4 * c + h, 8 * i + reg));
    LineFOnly(if n < 62 then n else 0);
  }

  /** The table of masks is the opcode map, for all 65536 opcodes. */
  lemma TableIsMap(opcode: u16)
    ensures Decode(opcode)
            == Made(OpcodeMap(opcode / 0x1000, UpperRegPart(opcode), UpperModePart(opcode), ModePart(opcode),
                              RegPart(opcode)), opcode)
  {
    FieldsMake(opcode);
    LineIsMapped(opcode / 0x1000, UpperRegPart(opcode), UpperModePart(opcode), ModePart(opcode), RegPart(opcode));
    hide Decode, Made, OpcodeMap, Word16;
  }

  lemma LineIsMapped(line: nat, upper: nat, opmode: nat, mode: nat, reg: nat)
    requires line < 16 && upper < 8 && opmode < 8 && mode < 8 && reg < 8
    ensures Mapped(line, upper, opmode, mode, reg)
  {
    hide Decode, Made, OpcodeMap, Word16, Hex;
    FieldDigits(line, upper, opmode, mode, reg);
    var b, c, h, i := opmode / 4, opmode % 4, mode / 2, mode % 2;
    assert opmode == 4 * b + c && mode == 2 * h + i;
    match line
    case 0 => Line0(upper, b, c, h, i, reg);
    case 1 => Line1(upper, b, c, h, i, reg);
    case 2 => Line2(upper, b, c, h, i, reg);
    case 3 => Line3(upper, b, c, h, i, reg);
    case 4 => Line4(upper, b, c, h, i, reg);
    case 5 => Line5(upper, b, c, h, i, reg);
    case 6 => Line6(upper, b, c, h, i, reg);
    case 7 => Line7(upper, b, c, h, i, reg);
    case 8 => Line8(upper, b, c, h, i, reg);
    case 9 => Line9(upper, b, c, h, i, reg);
    case 10 => LineA(upper, b, c, h, i, reg);
    case 11 => LineB(upper, b, c, h, i, reg);
    case 12 => LineC(upper, b, c, h, i, reg);
    case 13 => LineD(upper, b, c, h, i, reg);
    case 14 => LineE(upper, b, c, h, i, reg);
    case 15 => LineF(upper, b, c, h, i, reg);
  }

  /** A step on a word that decodes to an instruction executes it. */
  lemma StepRuns(s: State, opcode: u16, i: Instr)
    requires MemGet(s.mem, Pc(s), Word) == Value(opcode) && Decode(opcode) == i
    ensures Step(s) == Execute(i, s)
  {
    hide MemGet, Decode, Execute;
  }

  // ----- the fields of a shift -----

  /** A shift opcode read as section 4 of M68000PM/AD lays it out: the kind of a memory shift is in
      bits 9 and 10, that of a register shift in bits 3 and 4, a clear bit 5 means an immediate count,
      and the count field 0 stands for 8. */
  function ManualShift(opcode: u16): Instr {
    match SizeField(opcode)
    case None => BitShift(ShiftField(opcode / 0x200 % 4), Bit8(opcode), Fixed(1), EaMode(opcode), EaReg(opcode), Word)
    case Some(z) =>
      var n := UpperRegPart(opcode);
      var count := if opcode / 0x20 % 2 == 1 then InReg(UpperReg(opcode, 0)) else Fixed(if n == 0 then 8 else n);
      BitShift(ShiftField(opcode / 8 % 4), Bit8(opcode), count, DirectData, GetRegisterType(0, RegPart(opcode)), z)
  }

  /** The constructor exchanges the two places of the kind, inverts bit 5 and adds one to the count
      field: what it builds is what the manual says exactly for memory shifts whose mode field ends in
      the bits of their kind. */
  lemma ShiftFields(opcode: u16)
    requires CreateBitShift(opcode).Some?
    ensures CreateBitShift(opcode).value == ManualShift(opcode)
            <==> SizeField(opcode).None? && opcode / 8 % 4 == opcode / 0x200 % 4
  {
    hide EaMode, EaReg, Bit8, SizeField, UpperReg, RegPart, UpperRegPart, GetRegisterType, IsMemoryAlterable;
  }
}
