// The register object over its nineteen-word buffer (src/registers.cpp): the accesses of
// Registers.dfy, in place.

module RegisterBuffer {
  import opened Helpers
  import R = Registers

  class Registers {
    const regBuffer: array<u32>

    ghost predicate Valid() {
      regBuffer.Length == 19
    }

    ghost function View(): R.RegFile
      requires Valid()
      reads regBuffer
    {
      regBuffer[..]
    }

    constructor ()
      ensures Valid() && fresh(regBuffer)
      ensures forall i :: 0 <= i < 19 ==> View()[i] == 0
    {
      regBuffer := new u32[19](_ => 0);
    }

    method Get(r: R.Reg, z: Size) returns (v: u32)
      requires Valid()
      ensures v == R.RegGet(View(), r, z)
      ensures z == Long ==> v == View()[R.Bank(View(), r)]
    {
      var i := r;
      if i == R.A7 && R.HasFlag(regBuffer[R.SR], R.Supervisor) {
        i := R.SSP;
      }
      v := regBuffer[i];
      match z
      case Byte => v := v % 0x100;
      case Word => v := v % 0x1_0000;
      case Long =>
    }

    method Set(r: R.Reg, z: Size, data: u32)
      requires Valid()
      modifies regBuffer
      ensures View() == R.RegSet(old(View()), r, z, data)
      ensures z == Long && r < R.SR ==> View() == old(View())[R.Bank(old(View()), r) := data]
    {
      var i := r;
      if i == R.A7 && R.HasFlag(regBuffer[R.SR], R.Supervisor) {
        i := R.SSP;
      }
      var v := regBuffer[i];
      match z {
        case Byte => v := 0x100 * (v / 0x100) + data % 0x100;
        case Word => v := 0x1_0000 * (v / 0x1_0000) + data % 0x1_0000;
        case Long => v := data;
      }
      if i == R.SR {
        v := v % 0x1_0000;
      }
      regBuffer[i] := v;
    }

    method GetFlag(f: R.Flag) returns (on: bool)
      requires Valid()
      ensures on == R.HasFlag(View()[R.SR], f)
    {
      on := R.HasFlag(regBuffer[R.SR], f);
    }

    /** Clears the flag, then sets it again if asked to. */
    method SetFlag(f: R.Flag, on: bool)
      requires Valid()
      modifies regBuffer
      ensures View() == old(View())[R.SR := R.WithFlag(old(View())[R.SR], f, on)]
    {
      var sr: int := regBuffer[R.SR];
      var isOn := R.HasFlag(sr, f);
      hide R.HasFlag;
      if isOn {
        sr := sr - R.FlagMask(f);
      }
      if on {
        sr := sr + R.FlagMask(f);
      }
      assert sr == R.WithFlag(old(View())[R.SR], f, on);
      regBuffer[R.SR] := sr;
    }
  }

  // ----- flags set one by one -----

  /** The condition codes as they stand. */
  function Codes(sr: u32): u32 {
    R.WithCodes(sr, R.HasFlag(sr, R.Extend), R.HasFlag(sr, R.Negative), R.HasFlag(sr, R.Zero),
                R.HasFlag(sr, R.Overflow), R.HasFlag(sr, R.Carry))
  }

  lemma FiveBitsOf(t: nat)
    requires t < 32
    ensures t == (if t % 2 == 1 then 1 else 0) + (if t % 4 >= 2 then 2 else 0) + (if t % 8 >= 4 then 4 else 0)
                 + (if t % 16 >= 8 then 8 else 0) + (if t >= 16 then 16 else 0)
  {
  }

  lemma CodesStand(sr: u32)
    ensures Codes(sr) == sr
  {
    R.SplitAt5(sr / 32, sr % 32);
    FiveBitsOf(sr % 32);
  }

  /** Setting one flag of a status word built from five codes replaces that code. */
  lemma OneFlag(sr: u32, x: bool, n: bool, z: bool, v: bool, c: bool, on: bool)
    ensures var w := R.WithCodes(sr, x, n, z, v, c);
            && R.WithFlag(w, R.Extend, on) == R.WithCodes(sr, on, n, z, v, c)
            && R.WithFlag(w, R.Negative, on) == R.WithCodes(sr, x, on, z, v, c)
            && R.WithFlag(w, R.Zero, on) == R.WithCodes(sr, x, n, on, v, c)
            && R.WithFlag(w, R.Overflow, on) == R.WithCodes(sr, x, n, z, on, c)
            && R.WithFlag(w, R.Carry, on) == R.WithCodes(sr, x, n, z, v, on)
  {
    R.CodesRead(sr, x, n, z, v, c);
    hide R.HasFlag;
  }

  /** The flag assignments that end an instruction: N, Z, V and C, one after the other. */
  function SetFour(sr: u32, n: bool, z: bool, v: bool, c: bool): u32 {
    R.WithFlag(R.WithFlag(R.WithFlag(R.WithFlag(sr, R.Negative, n), R.Zero, z), R.Overflow, v), R.Carry, c)
  }

  /** Set in sequence they replace the four codes at once and leave every other bit alone. */
  lemma FourFlags(sr: u32, n: bool, z: bool, v: bool, c: bool)
    ensures SetFour(sr, n, z, v, c) == R.WithCodes(sr, R.HasFlag(sr, R.Extend), n, z, v, c)
  {
    hide R.WithFlag, R.WithCodes, R.HasFlag;
    CodesStand(sr);
    var x0, n0, z0, v0, c0 := R.HasFlag(sr, R.Extend), R.HasFlag(sr, R.Negative), R.HasFlag(sr, R.Zero),
                              R.HasFlag(sr, R.Overflow), R.HasFlag(sr, R.Carry);
    OneFlag(sr, x0, n0, z0, v0, c0, n);
    OneFlag(sr, x0, n, z0, v0, c0, z);
    OneFlag(sr, x0, n, z, v0, c0, v);
    OneFlag(sr, x0, n, z, v, c0, c);
  }

  /** The same with X set first. */
  lemma FiveFlags(sr: u32, x: bool, n: bool, z: bool, v: bool, c: bool)
    ensures SetFour(R.WithFlag(sr, R.Extend, x), n, z, v, c) == R.WithCodes(sr, x, n, z, v, c)
  {
    hide R.WithFlag, R.WithCodes, R.HasFlag, SetFour;
    CodesStand(sr);
    var x0, n0, z0, v0, c0 := R.HasFlag(sr, R.Extend), R.HasFlag(sr, R.Negative), R.HasFlag(sr, R.Zero),
                              R.HasFlag(sr, R.Overflow), R.HasFlag(sr, R.Carry);
    OneFlag(sr, x0, n0, z0, v0, c0, x);
    var w := R.WithCodes(sr, x, n0, z0, v0, c0);
    FourFlags(w, n, z, v, c);
    R.CodesRead(sr, x, n0, z0, v0, c0);
    Rebuilt(sr, w, x, n, z, v, c);
  }

  /** ADDX and SUBX: Z is cleared first if the result is not zero and otherwise left, then X, N, V and C are set. */
  function SetSticky(sr: u32, x: bool, n: bool, z: bool, v: bool, c: bool): u32 {
    var w := if z then sr else R.WithFlag(sr, R.Zero, false);
    R.WithFlag(R.WithFlag(R.WithFlag(R.WithFlag(w, R.Extend, x), R.Negative, n), R.Overflow, v), R.Carry, c)
  }

  lemma StickyFlags(sr: u32, x: bool, n: bool, z: bool, v: bool, c: bool)
    ensures SetSticky(sr, x, n, z, v, c) == R.WithCodes(sr, x, n, R.HasFlag(sr, R.Zero) && z, v, c)
  {
    hide R.WithFlag, R.WithCodes, R.HasFlag;
    CodesStand(sr);
    var x0, n0, z0, v0, c0 := R.HasFlag(sr, R.Extend), R.HasFlag(sr, R.Negative), R.HasFlag(sr, R.Zero),
                              R.HasFlag(sr, R.Overflow), R.HasFlag(sr, R.Carry);
    OneFlag(sr, x0, n0, z0, v0, c0, false);
    OneFlag(sr, x0, n0, z0 && z, v0, c0, x);
    OneFlag(sr, x, n0, z0 && z, v0, c0, n);
    OneFlag(sr, x, n, z0 && z, v0, c0, v);
    OneFlag(sr, x, n, z0 && z, v, c0, c);
  }

  lemma OnlyZero(sr: u32, on: bool)
    ensures R.WithFlag(sr, R.Zero, on)
            == R.WithCodes(sr, R.HasFlag(sr, R.Extend), R.HasFlag(sr, R.Negative), on, R.HasFlag(sr, R.Overflow),
                           R.HasFlag(sr, R.Carry))
  {
    hide R.WithFlag, R.WithCodes, R.HasFlag;
    CodesStand(sr);
    OneFlag(sr, R.HasFlag(sr, R.Extend), R.HasFlag(sr, R.Negative), R.HasFlag(sr, R.Zero), R.HasFlag(sr, R.Overflow),
            R.HasFlag(sr, R.Carry), on);
  }

  lemma Rebuilt(sr: u32, w: u32, x: bool, n: bool, z: bool, v: bool, c: bool)
    requires w / 32 == sr / 32
    ensures R.WithCodes(w, x, n, z, v, c) == R.WithCodes(sr, x, n, z, v, c)
  {
  }
}
