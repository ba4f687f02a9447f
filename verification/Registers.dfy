// The register file: nineteen 32-bit cells, A7 banked by the supervisor bit (src/registers.cpp).

module Registers {
  import opened Helpers

  const A7 := 15
  const SSP := 16
  const PC := 17
  const SR := 18

  type Reg = r: nat | r < 19
  /** Registers an operand can name: D0-D7 and A0-A7. */
  type OperandReg = r: nat | r < 16

  type RegFile = f: seq<u32> | |f| == 19
    witness [0, 0, 0, 0, 0, 0, 0, 0, 0, 0, 0, 0, 0, 0, 0, 0, 0, 0, 0]

  datatype Flag = Carry | Overflow | Zero | Negative | Extend | Supervisor

  predicate HasFlag(sr: u32, f: Flag) {
    match f
    case Carry => sr % 2 == 1
    case Overflow => sr % 4 >= 2
    case Zero => sr % 8 >= 4
    case Negative => sr % 16 >= 8
    case Extend => sr % 32 >= 16
    case Supervisor => sr % 0x4000 >= 0x2000
  }

  function FlagMask(f: Flag): nat {
    match f
    case Carry => 1
    case Overflow => 2
    case Zero => 4
    case Negative => 8
    case Extend => 16
    case Supervisor => 0x2000
  }

  function WithFlag(sr: u32, f: Flag, on: bool): u32 {
    sr - (if HasFlag(sr, f) then FlagMask(f) else 0) + (if on then FlagMask(f) else 0)
  }

  /** The five condition codes replaced at once. */
  function WithCodes(sr: u32, x: bool, n: bool, z: bool, v: bool, c: bool): u32 {
    32 * (sr / 32) + (if c then 1 else 0) + (if v then 2 else 0) + (if z then 4 else 0)
    + (if n then 8 else 0) + (if x then 16 else 0)
  }

  /** The cell a register name selects: A7 is SSP in supervisor mode. */
  function Bank(regs: RegFile, r: Reg): Reg {
    if r == A7 && HasFlag(regs[SR], Supervisor) then SSP else r
  }

  /** The stack pointer the current mode cannot name. */
  function Inactive(regs: RegFile): Reg {
    if HasFlag(regs[SR], Supervisor) then A7 else SSP
  }

  /** Replaces the low bits of a register, keeping the bits above the size. */
  function Blend(was: u32, data: u32, z: Size): u32 {
    match z
    case Byte =>
      assert was / 0x100 <= 0xFF_FFFF && data % 0x100 <= 0xFF;
      0x100 * (was / 0x100) + data % 0x100
    case Word =>
      assert was / 0x1_0000 <= 0xFFFF && data % 0x1_0000 <= 0xFFFF;
      0x1_0000 * (was / 0x1_0000) + data % 0x1_0000
    case Long => data
  }

  function RegGet(regs: RegFile, r: Reg, z: Size): (v: u32)
    ensures v < Modulus(z)
  {
    Truncate(regs[Bank(regs, r)], z)
  }

  function RegSet(regs: RegFile, r: Reg, z: Size, data: u32): RegFile {
    var i := Bank(regs, r);
    var v := Blend(regs[i], data, z);
    regs[i := if i == SR then v % 0x1_0000 else v]
  }

  /** Bit tests below bit 5 see only the remainder by 32, those above only the quotient. */
  lemma SplitAt5(q: nat, t: nat)
    requires t < 32
    ensures var r := 32 * q + t;
            && r / 32 == q && r % 32 == t && r % 16 == t % 16 && r % 8 == t % 8 && r % 4 == t % 4 && r % 2 == t % 2
            && r % 0x4000 == 32 * (q % 0x200) + t
  {
    Remainder(32, q, t);
    Remainder(16, 2 * q + t / 16, t % 16);
    Remainder(8, 4 * q + t / 8, t % 8);
    Remainder(4, 8 * q + t / 4, t % 4);
    Remainder(2, 16 * q + t / 2, t % 2);
    Remainder(0x4000, q / 0x200, 32 * (q % 0x200) + t);
  }

  /** The low five bits built from five booleans, read back. */
  lemma FiveBits(x: bool, n: bool, z: bool, v: bool, c: bool)
    ensures var t := (if c then 1 else 0) + (if v then 2 else 0) + (if z then 4 else 0)
                     + (if n then 8 else 0) + (if x then 16 else 0);
            && t < 32 && (t >= 16) == x && (t % 16 >= 8) == n
            && (t % 8 >= 4) == z && (t % 4 >= 2) == v && (t % 2 == 1) == c
  {
  }

  /** What the flag tests see of a status word split at bit 5. */
  lemma FlagBits(q: nat, t: nat)
    requires t < 32 && 32 * q + t < 0x1_0000_0000
    ensures var r := 32 * q + t;
            && HasFlag(r, Extend) == (t >= 16) && HasFlag(r, Negative) == (t % 16 >= 8)
            && HasFlag(r, Zero) == (t % 8 >= 4)
            && HasFlag(r, Overflow) == (t % 4 >= 2) && HasFlag(r, Carry) == (t % 2 == 1)
            && HasFlag(r, Supervisor) == (q % 0x200 >= 0x100) && r / 32 == q
  {
    SplitAt5(q, t);
  }

  lemma CodesRead(sr: u32, x: bool, n: bool, z: bool, v: bool, c: bool)
    ensures var r := WithCodes(sr, x, n, z, v, c);
            && HasFlag(r, Extend) == x && HasFlag(r, Negative) == n && HasFlag(r, Zero) == z
            && HasFlag(r, Overflow) == v && HasFlag(r, Carry) == c
            && r / 32 == sr / 32 && HasFlag(r, Supervisor) == HasFlag(sr, Supervisor)
  {
    hide HasFlag;
    var t := (if c then 1 else 0) + (if v then 2 else 0) + (if z then 4 else 0)
             + (if n then 8 else 0) + (if x then 16 else 0);
    FiveBits(x, n, z, v, c);
    FlagBits(sr / 32, t);
    FlagBits(sr / 32, sr % 32);
    assert sr == 32 * (sr / 32) + sr % 32;
    assert WithCodes(sr, x, n, z, v, c) == 32 * (sr / 32) + t;
  }

  /** The flags are bits 0 to 4 and 13 of SR. */
  lemma StatusBits(sr: u32)
    ensures HasFlag(sr, Carry) == (sr % 2 == 1) && HasFlag(sr, Overflow) == (sr / 2 % 2 == 1)
    ensures HasFlag(sr, Zero) == (sr / 4 % 2 == 1) && HasFlag(sr, Negative) == (sr / 8 % 2 == 1)
    ensures HasFlag(sr, Extend) == (sr / 16 % 2 == 1) && HasFlag(sr, Supervisor) == (sr / 0x2000 % 2 == 1)
  {
    SplitHigh(sr, 2);
    SplitHigh(sr, 4);
    SplitHigh(sr, 8);
    SplitHigh(sr, 16);
    SplitHigh(sr, 0x2000);
  }

  /** A7 is the supervisor stack pointer exactly when bit 13 of SR is set; no other name is banked. */
  lemma StackBank(regs: RegFile, r: Reg, data: u32)
    ensures var sp := if regs[18] / 0x2000 % 2 == 1 then 16 else 15;
            && RegGet(regs, 15, Long) == regs[sp] && (r != 15 ==> RegGet(regs, r, Long) == regs[r])
            && RegSet(regs, 15, Long, data) == regs[sp := data]
            && (r != 15 && r != 18 ==> RegSet(regs, r, Long, data) == regs[r := data])
            && RegSet(regs, 18, Long, data) == regs[18 := data % 0x1_0000]
  {
    StatusBits(regs[SR]);
    hide HasFlag;
  }
}
