// The CPU state as an object over the register and memory buffers (src/cpu_state.cpp). Every
// method updates the buffers step by step and is proved to agree with its function in
// CpuState.dfy: same value, same final state, and on a failure the same error and the state
// the call had reached.

module CpuInPlace {
  import opened Helpers
  import opened Memory
  import opened MemoryBuffer
  import opened RegisterBuffer
  import R = Registers
  import S = CpuState
  import I = Instructions

  /** What a call returned or threw, and the state it left, are what a specification says;
      nothing is promised where C++ promises nothing. */
  ghost predicate Agrees<T>(r: Access<T>, after: S.State, o: S.Outcome<T>) {
    match o
    case Ok(v, s) => r == Value(v) && after == s
    case Throw(e, s) => r == Fault(e) && after == s
    case Undefined => true
  }

  class CPUState {
    const memory: BaseMemory
    const registers: Registers

    ghost predicate Valid() {
      registers.Valid() && (memory.baseAddr as object) != registers.regBuffer
    }

    ghost function View(): S.State
      requires Valid()
      reads memory.baseAddr, registers.regBuffer
    {
      S.State(registers.View(), memory.baseAddr[..])
    }

    constructor (memory: BaseMemory, registers: Registers)
      requires registers.Valid() && (memory.baseAddr as object) != registers.regBuffer
      ensures Valid() && this.memory == memory && this.registers == registers
    {
      this.memory := memory;
      this.registers := registers;
    }

    // ----- register and memory accesses, seen from the whole state -----

    method Reg32(reg: R.Reg) returns (v: u32)
      requires Valid()
      ensures v == S.Reg32(View(), reg)
      ensures View() == old(View())
    {
      v := registers.Get(reg, Long);
    }

    method GetReg(reg: R.Reg, z: Size) returns (v: u32)
      requires Valid()
      ensures v == R.RegGet(View().regs, reg, z)
      ensures View() == old(View())
    {
      v := registers.Get(reg, z);
    }

    method SetReg(reg: R.Reg, z: Size, data: u32)
      requires Valid()
      modifies registers.regBuffer
      ensures View() == S.SetReg(old(View()), reg, z, data)
    {
      registers.Set(reg, z, data);
    }

    method Pc() returns (pc: u32)
      requires Valid()
      ensures pc == S.Pc(View())
      ensures View() == old(View())
    {
      pc := registers.Get(R.PC, Long);
    }

    method SetPc(pc: int)
      requires Valid()
      modifies registers.regBuffer
      ensures View() == S.SetPc(old(View()), pc)
    {
      registers.Set(R.PC, Long, Wrap(pc));
    }

    method Load(a: u32, z: Size) returns (r: Access<u32>)
      requires Valid()
      ensures r == MemGet(View().mem, a, z)
      ensures View() == old(View())
    {
      r := memory.Get(a, z);
    }

    method Store(a: u32, z: Size, data: u32) returns (r: Access<()>)
      requires Valid()
      modifies memory.baseAddr
      ensures Agrees(r, View(), S.Store(old(View()), a, z, data))
    {
      r := memory.Set(a, z, data);
    }

    method GetFlag(f: R.Flag) returns (on: bool)
      requires Valid()
      ensures on == R.HasFlag(View().regs[R.SR], f)
      ensures View() == old(View())
    {
      on := registers.GetFlag(f);
    }

    method ExtendFlag() returns (on: bool)
      requires Valid()
      ensures on == S.ExtendFlag(View())
      ensures View() == old(View())
    {
      on := registers.GetFlag(R.Extend);
    }

    method SetZero(on: bool)
      requires Valid()
      modifies registers.regBuffer
      ensures View() == I.ZeroCode(old(View()), on)
    {
      OnlyZero(View().regs[R.SR], on);
      hide R.WithFlag, R.WithCodes, R.HasFlag;
      registers.SetFlag(R.Zero, on);
    }

    /** The flag assignments that end a logic, move or compare instruction. */
    method SetNZVC(n: bool, z: bool, v: bool, c: bool)
      requires Valid()
      modifies registers.regBuffer
      ensures View() == S.SetCodes(old(View()), S.ExtendFlag(old(View())), n, z, v, c)
    {
      FourFlags(View().regs[R.SR], n, z, v, c);
      hide R.WithFlag, R.WithCodes, R.HasFlag;
      registers.SetFlag(R.Negative, n);
      registers.SetFlag(R.Zero, z);
      registers.SetFlag(R.Overflow, v);
      registers.SetFlag(R.Carry, c);
    }

    /** The flag assignments that end an arithmetic instruction. */
    method SetXNZVC(x: bool, n: bool, z: bool, v: bool, c: bool)
      requires Valid()
      modifies registers.regBuffer
      ensures View() == S.SetCodes(old(View()), x, n, z, v, c)
    {
      FiveFlags(View().regs[R.SR], x, n, z, v, c);
      hide R.WithFlag, R.WithCodes, R.HasFlag;
      registers.SetFlag(R.Extend, x);
      registers.SetFlag(R.Negative, n);
      registers.SetFlag(R.Zero, z);
      registers.SetFlag(R.Overflow, v);
      registers.SetFlag(R.Carry, c);
    }

    /** The flag assignments that end ADDX and SUBX. */
    method SetSticky(x: bool, n: bool, z: bool, v: bool, c: bool)
      requires Valid()
      modifies registers.regBuffer
      ensures View() == S.SetCodes(old(View()), x, n, R.HasFlag(old(View()).regs[R.SR], R.Zero) && z, v, c)
    {
      StickyFlags(View().regs[R.SR], x, n, z, v, c);
      hide R.WithFlag, R.WithCodes, R.HasFlag;
      if !z {
        registers.SetFlag(R.Zero, false);
      }
      registers.SetFlag(R.Extend, x);
      registers.SetFlag(R.Negative, n);
      registers.SetFlag(R.Overflow, v);
      registers.SetFlag(R.Carry, c);
    }

    // ----- stack -----

    method StackPop(z: Size) returns (r: Access<u32>)
      requires Valid()
      modifies registers.regBuffer
      ensures Agrees(r, View(), S.StackPop(old(View()), z))
    {
      var sp := Reg32(R.A7);
      var data :- Load(sp, z);
      sp := Wrap(sp + Bytes(z));
      SetReg(R.A7, Long, sp);
      return Value(data);
    }

    method StackPush(z: Size, data: u32) returns (r: Access<()>)
      requires Valid()
      modifies memory.baseAddr, registers.regBuffer
      ensures Agrees(r, View(), S.StackPush(old(View()), z, data))
    {
      var sp := Reg32(R.A7);
      sp := Wrap(sp - Bytes(z));
      SetReg(R.A7, Long, sp);
      r := Store(sp, z, data);
    }

    // ----- effective addresses -----

    method IndexOffset(ext: u32) returns (d: int)
      requires Valid()
      ensures d == S.IndexOffset(View(), ext)
      ensures View() == old(View())
    {
      var r := S.GetRegisterType(ext / 0x8000 % 2, ext / 0x1000 % 8);
      var z := if ext / 0x800 % 2 == 1 then Long else Word;
      var x := GetReg(r, z);
      d := Signed(x, z) + Signed(ext, Byte);
    }

    method GetControlAddress(m: Mode, reg: R.OperandReg) returns (r: Access<u32>)
      requires Valid()
      modifies registers.regBuffer
      ensures Agrees(r, View(), S.GetControlAddress(old(View()), m, reg))
    {
      hide R.RegGet, R.RegSet, MemGet, MemSet, Signed, S.IndexOffset, S.Stride, S.Reg32, S.SetReg, Wrap, View;
      var a: u32 := 0;
      var pc: int := Pc();
      match m {
        case Indirect =>
          a := Reg32(reg);
        case Displacement =>
          a := Reg32(reg);
          var d :- Load(pc, Word);
          SetPc(pc + 2);
          a := Wrap(a + Signed(d, Word));
        case Index =>
          a := Reg32(reg);
          var ext :- Load(pc, Word);
          var d := IndexOffset(ext);
          SetPc(pc + 2);
          a := Wrap(a + d);
        case PcDisplacement =>
          var d :- Load(pc, Word);
          SetPc(pc + 2);
          a := Wrap(pc + Signed(d, Word));
        case PcIndex =>
          var ext :- Load(pc, Word);
          var d := IndexOffset(ext);
          SetPc(pc + 2);
          a := Wrap(pc + d);
        case AbsWord =>
          SetPc(pc + 2);
          a :- Load(pc, Word);
        case AbsLong =>
          SetPc(pc + 4);
          a :- Load(pc, Long);
        case _ =>
      }
      return Value(a);
    }

    /** The cases of getData that take their address from extension words. */
    method GetDataExtended(m: Mode, reg: R.OperandReg, z: Size) returns (r: Access<u32>)
      requires Valid() && IsControl(m) && !m.Indirect?
      modifies registers.regBuffer
      ensures Agrees(r, View(), S.GetData(old(View()), m, reg, z))
    {
      hide R.RegGet, R.RegSet, MemGet, MemSet, Signed, S.IndexOffset, S.Stride, S.Reg32, S.SetReg, Wrap, View;
      var pc: int := Pc();
      match m {
        case Displacement =>
          var a := Reg32(reg);
          var d :- Load(pc, Word);
          SetPc(pc + 2);
          r := Load(Wrap(a + Signed(d, Word)), z);
        case Index =>
          var a := Reg32(reg);
          var ext :- Load(pc, Word);
          var d := IndexOffset(ext);
          SetPc(pc + 2);
          r := Load(Wrap(a + d), z);
        case PcDisplacement =>
          var d :- Load(pc, Word);
          SetPc(pc + 2);
          r := Load(Wrap(pc + Signed(d, Word)), z);
        case PcIndex =>
          var ext :- Load(pc, Word);
          var d := IndexOffset(ext);
          SetPc(pc + 2);
          r := Load(Wrap(pc + d), z);
        case AbsWord =>
          var a :- Load(pc, Word);
          SetPc(pc + 2);
          r := Load(a, z);
        case AbsLong =>
          var a :- Load(pc, Long);
          SetPc(pc + 4);
          r := Load(a, z);
      }
    }

    method GetData(m: Mode, reg: R.OperandReg, z: Size) returns (r: Access<u32>)
      requires Valid()
      modifies registers.regBuffer
      ensures Agrees(r, View(), S.GetData(old(View()), m, reg, z))
    {
      hide R.RegGet, R.RegSet, MemGet, MemSet, Signed, S.IndexOffset, S.Stride, S.Reg32, S.SetReg, Wrap, View;
      var data: u32 := 0;
      var pc: int := Pc();
      match m {
        case DirectData | DirectAddr =>
          data := GetReg(reg, z);
        case Indirect =>
          var a := Reg32(reg);
          data :- Load(a, z);
        case PostIncrement =>
          var a := Reg32(reg);
          data :- Load(a, z);
          SetReg(reg, Long, Wrap(a + S.Stride(reg, z)));
        case PreDecrement =>
          var a := Reg32(reg);
          a := Wrap(a - S.Stride(reg, z));
          data :- Load(a, z);
          SetReg(reg, Long, a);
        case Immediate =>
          var y := if z == Long then Long else Word;
          var v :- Load(pc, y);
          SetPc(pc + Bytes(y));
          data := if z == Byte then v % 0x100 else v;
        case Unknown =>
        case _ =>
          data :- GetDataExtended(m, reg, z);
      }
      return Value(data);
    }

    /** Reads without moving PC or An: nothing is modified. */
    method GetDataSilent(m: Mode, reg: R.OperandReg, z: Size) returns (r: Access<u32>)
      requires Valid()
      ensures r == S.GetDataSilent(View(), m, reg, z)
      ensures View() == old(View())
    {
      hide R.RegGet, R.RegSet, MemGet, MemSet, Signed, S.IndexOffset, S.Stride, S.Reg32, S.SetReg, Wrap, View;
      var data: u32 := 0;
      var pc: int := Pc();
      match m {
        case DirectData | DirectAddr =>
          data := GetReg(reg, z);
        case Indirect | PostIncrement =>
          var a := Reg32(reg);
          data :- Load(a, z);
        case PreDecrement =>
          var a := Reg32(reg);
          data :- Load(Wrap(a - S.Stride(reg, z)), z);
        case Displacement =>
          var a := Reg32(reg);
          var d :- Load(pc, Word);
          data :- Load(Wrap(a + Signed(d, Word)), z);
        case Index =>
          var a := Reg32(reg);
          var ext :- Load(pc, Word);
          var d := IndexOffset(ext);
          data :- Load(Wrap(a + d), z);
        case PcDisplacement =>
          var d :- Load(pc, Word);
          data :- Load(Wrap(pc + Signed(d, Word)), z);
        case PcIndex =>
          var ext :- Load(pc, Word);
          var d := IndexOffset(ext);
          data :- Load(Wrap(pc + d), z);
        case AbsWord =>
          var a :- Load(pc, Word);
          data :- Load(Wrap(Signed(a, Word)), z);
        case AbsLong =>
          var a :- Load(pc, Long);
          data :- Load(a, z);
        case Immediate =>
          var y := if z == Long then Long else Word;
          var v :- Load(pc, y);
          data := if z == Byte then v % 0x100 else v;
        case Unknown =>
      }
      return Value(data);
    }

    method SetData(m: Mode, reg: R.OperandReg, z: Size, data: u32) returns (r: Access<()>)
      requires Valid()
      modifies memory.baseAddr, registers.regBuffer
      ensures Agrees(r, View(), S.SetData(old(View()), m, reg, z, data))
    {
      hide R.RegGet, R.RegSet, MemGet, MemSet, Signed, S.IndexOffset, S.Stride, S.Reg32, S.SetReg, Wrap, View;
      var pc: int := Pc();
      match m {
        case DirectData | DirectAddr =>
          SetReg(reg, z, data);
        case Indirect =>
          var a := Reg32(reg);
          var _ :- Store(a, z, data);
        case PostIncrement =>
          var a := Reg32(reg);
          var _ :- Store(a, z, data);
          SetReg(reg, Long, Wrap(a + S.Stride(reg, z)));
        case PreDecrement =>
          var a := Reg32(reg);
          a := Wrap(a - S.Stride(reg, z));
          var _ :- Store(a, z, data);
          SetReg(reg, Long, a);
        case Displacement =>
          var a := Reg32(reg);
          var d :- Load(pc, Word);
          SetPc(pc + 2);
          var _ :- Store(Wrap(a + Signed(d, Word)), z, data);
        case Index =>
          var a := Reg32(reg);
          var ext :- Load(pc, Word);
          var d := IndexOffset(ext);
          SetPc(pc + 2);
          var _ :- Store(Wrap(a + d), z, data);
        case AbsWord =>
          var a :- Load(pc, Word);
          var _ :- Store(Wrap(Signed(a, Word)), z, data);
          SetPc(pc + 2);
        case AbsLong =>
          var a :- Load(pc, Long);
          SetPc(pc + 4);
          var _ :- Store(a, z, data);
        case _ =>
      }
      return Value(());
    }

    // ----- conditions -----

    method CheckCondition(cond: Condition) returns (holds: bool)
      requires Valid()
      ensures holds == S.CheckCondition(View(), cond)
      ensures View() == old(View())
    {
      var n := registers.GetFlag(R.Negative);
      var z := registers.GetFlag(R.Zero);
      var v := registers.GetFlag(R.Overflow);
      var c := registers.GetFlag(R.Carry);
      match cond
      case True => holds := true;
      case False => holds := false;
      case Higher => holds := !c && !z;
      case LowerSame => holds := c || z;
      case CarryClear => holds := !c;
      case CarrySet => holds := c;
      case NotEqual => holds := !z;
      case Equal => holds := z;
      case OverflowClear => holds := !v;
      case OverflowSet => holds := v;
      case Plus => holds := !n;
      case Minus => holds := n;
      case GreaterEqual => holds := (n && v) || (!n && !v);
      case LessThan => holds := (n && !v) || (!n && v);
      case GreaterThan => holds := (n && v && !z) || (!n && !v && !z);
      case LessEqual => holds := (n && !v) || (!n && v) || z;
    }
  }
}
