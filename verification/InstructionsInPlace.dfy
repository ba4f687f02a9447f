// Execution of instructions on the CPU state object (the execute methods of
// src/instructions/*.cpp), each proved to agree with its function in Instructions.dfy.

module InstructionsInPlace {
  import opened Helpers
  import opened Memory
  import opened CpuInPlace
  import R = Registers
  import S = CpuState
  import I = Instructions

  /** The first statements of execute: PC moves past the opcode word. */
  method Advance(c: CPUState) returns (pc: u32)
    requires c.Valid()
    modifies c.registers.regBuffer
    ensures c.View() == I.Next(old(c.View())) && pc == Wrap(S.Pc(old(c.View())) + 2)
    ensures S.ExtendFlag(c.View()) == S.ExtendFlag(old(c.View()))
  {
    var was: int := c.Pc();
    pc := Wrap(was + 2);
    c.SetPc(was + 2);
  }

  // ----- arithmetic and logic -----

  method SetLogicFlags(c: CPUState, v: nat, z: Size)
    requires c.Valid()
    modifies c.registers.regBuffer
    ensures c.View() == I.LogicCodes(old(c.View()), v, z)
  {
    c.SetNZVC(IsNegative(v, z), IsZero(v, z), false, false);
  }

  method SetArithmeticFlags(c: CPUState, src: u32, dst: u32, result: u32, z: Size)
    requires c.Valid()
    modifies c.registers.regBuffer
    ensures c.View() == I.ArithmeticCodes(old(c.View()), src, dst, result, z)
  {
    c.SetXNZVC(IsCarry(result, z), IsNegative(result, z), IsZero(result, z), IsOverflow(src, dst, z),
               IsCarry(result, z));
  }

  /** The flags after an operation of the read-modify-write family. */
  method SetAluFlags(c: CPUState, op: I.AluOp, src: u32, dst: u32, result: u32, z: Size)
    requires c.Valid()
    modifies c.registers.regBuffer
    ensures c.View() == I.AluCodes(old(c.View()), op, src, dst, result, z)
  {
    if op.Add? || op.Sub? {
      SetArithmeticFlags(c, src, dst, result, z);
    } else {
      SetLogicFlags(c, result, z);
    }
  }

  method ExecuteAlu(c: CPUState, op: I.AluOp, sm: Mode, sr: R.OperandReg, dm: Mode, dr: R.OperandReg, z: Size)
    returns (r: Access<()>)
    requires c.Valid()
    modifies c.memory.baseAddr, c.registers.regBuffer
    ensures Agrees(r, c.View(), I.ExecAlu(old(c.View()), op, sm, sr, dm, dr, z))
  {
    hide I.Compute, I.AluCodes, I.Next, S.GetData, S.GetDataSilent, S.SetData, CPUState.View, CPUState.Valid;
    var _ := Advance(c);
    var src :- c.GetData(sm, sr, z);
    var dst :- c.GetDataSilent(dm, dr, z);
    var result := I.Compute(op, src, dst, false);
    var _ :- c.SetData(dm, dr, z, result);
    SetAluFlags(c, op, src, dst, result, z);
    return Value(());
  }

  method ExecuteAluQuick(c: CPUState, op: I.AluOp, imm: u32, dm: Mode, dr: R.OperandReg, z: Size)
    returns (r: Access<()>)
    requires c.Valid()
    modifies c.memory.baseAddr, c.registers.regBuffer
    ensures Agrees(r, c.View(), I.ExecAluQuick(old(c.View()), op, imm, dm, dr, z))
  {
    hide I.Compute, I.ArithmeticCodes, I.Next, S.GetDataSilent, S.SetData, CPUState.View, CPUState.Valid;
    var _ := Advance(c);
    var dst :- c.GetDataSilent(dm, dr, z);
    var result := I.Compute(op, imm, dst, false);
    var _ :- c.SetData(dm, dr, z, result);
    if dm != DirectAddr {
      SetArithmeticFlags(c, imm, dst, result, z);
    }
    return Value(());
  }

  method ExecuteAluAddress(c: CPUState, op: I.AluOp, sm: Mode, sr: R.OperandReg, dr: R.OperandReg, z: Size)
    returns (r: Access<()>)
    requires c.Valid()
    modifies c.memory.baseAddr, c.registers.regBuffer
    ensures Agrees(r, c.View(), I.ExecAluAddress(old(c.View()), op, sm, sr, dr, z))
  {
    hide I.Compute, I.Next, S.GetData, S.GetDataSilent, S.SetData, CPUState.View, CPUState.Valid;
    var _ := Advance(c);
    var src :- c.GetData(sm, sr, z);
    var dst :- c.GetDataSilent(DirectAddr, dr, z);
    r := c.SetData(DirectAddr, dr, z, I.Compute(op, src, dst, false));
  }

  method SetExtendFlags(c: CPUState, src: u32, dst: u32, result: u32, z: Size)
    requires c.Valid()
    modifies c.registers.regBuffer
    ensures c.View() == I.ExtendCodes(old(c.View()), src, dst, result, z)
  {
    c.SetSticky(IsCarry(result, z), IsNegative(result, z), IsZero(result, z), IsOverflow(src, dst, z),
                IsCarry(result, z));
  }

  /** X goes into the sum; Z is only cleared. */
  method ExecuteAluExtend(c: CPUState, op: I.AluOp, m: Mode, sr: R.OperandReg, dr: R.OperandReg, z: Size)
    returns (r: Access<()>)
    requires c.Valid()
    modifies c.memory.baseAddr, c.registers.regBuffer
    ensures Agrees(r, c.View(), I.ExecAluExtend(old(c.View()), op, m, sr, dr, z))
  {
    hide R.HasFlag;
    hide I.Compute, I.Next, I.ExtendCodes, S.GetData, S.GetDataSilent, S.SetData, S.ExtendFlag, CPUState.View;
    hide CPUState.Valid;
    var _ := Advance(c);
    var x := c.ExtendFlag();
    var src :- c.GetData(m, sr, z);
    var dst :- c.GetDataSilent(m, dr, z);
    var result := I.Compute(op, src, dst, x);
    var _ :- c.SetData(m, dr, z, result);
    SetExtendFlags(c, src, dst, result, z);
    return Value(());
  }

  method SetCompareFlags(c: CPUState, src: u32, dst: u32, result: u32, z: Size)
    requires c.Valid()
    modifies c.registers.regBuffer
    ensures c.View() == I.CompareCodes(old(c.View()), src, dst, result, z)
  {
    c.SetNZVC(IsNegative(result, z), IsZero(result, z), IsOverflow(src, dst, z), IsCarry(result, z));
  }

  method ExecuteCompare(c: CPUState, sm: Mode, sr: R.OperandReg, dm: Mode, dr: R.OperandReg, z: Size, address: bool)
    returns (r: Access<()>)
    requires c.Valid()
    modifies c.memory.baseAddr, c.registers.regBuffer
    ensures Agrees(r, c.View(), I.ExecCompare(old(c.View()), sm, sr, dm, dr, z, address))
  {
    hide I.Compute, I.CompareCodes, I.Next, S.GetData, Signed, Wrap, CPUState.View, CPUState.Valid;
    var _ := Advance(c);
    var src :- c.GetData(sm, sr, z);
    if address && z == Word {
      src := Wrap(Signed(src, Word));
    }
    var dst :- c.GetData(dm, dr, z);
    var result := I.Compute(I.Sub, src, dst, false);
    SetCompareFlags(c, src, dst, result, z);
    return Value(());
  }

  method ExecuteTst(c: CPUState, m: Mode, reg: R.OperandReg, z: Size) returns (r: Access<()>)
    requires c.Valid()
    modifies c.memory.baseAddr, c.registers.regBuffer
    ensures Agrees(r, c.View(), I.ExecTst(old(c.View()), m, reg, z))
  {
    hide I.Next, I.LogicCodes, S.GetData, CPUState.View, CPUState.Valid;
    var _ := Advance(c);
    var v :- c.GetData(m, reg, z);
    SetLogicFlags(c, v, z);
    return Value(());
  }

  method ExecuteClr(c: CPUState, m: Mode, reg: R.OperandReg, z: Size) returns (r: Access<()>)
    requires c.Valid()
    modifies c.memory.baseAddr, c.registers.regBuffer
    ensures Agrees(r, c.View(), I.ExecClr(old(c.View()), m, reg, z))
  {
    hide I.Next, I.LogicCodes, S.SetData, CPUState.View, CPUState.Valid;
    var _ := Advance(c);
    var _ :- c.SetData(m, reg, z, 0);
    SetLogicFlags(c, 0, z);
    return Value(());
  }

  method ExecuteNeg(c: CPUState, m: Mode, reg: R.OperandReg, z: Size) returns (r: Access<()>)
    requires c.Valid()
    modifies c.memory.baseAddr, c.registers.regBuffer
    ensures Agrees(r, c.View(), I.ExecNeg(old(c.View()), m, reg, z))
  {
    hide I.Compute, I.ArithmeticCodes, I.Next, S.GetDataSilent, S.SetData, CPUState.View, CPUState.Valid;
    var _ := Advance(c);
    var dst :- c.GetDataSilent(m, reg, z);
    var result := I.Compute(I.Sub, dst, 0, false);
    var _ :- c.SetData(m, reg, z, result);
    SetArithmeticFlags(c, 0, dst, result, z);
    return Value(());
  }

  // ----- data movement -----

  method SetMoveFlags(c: CPUState, v: u32, z: Size)
    requires c.Valid()
    modifies c.registers.regBuffer
    ensures c.View() == I.MoveCodes(old(c.View()), v, z)
  {
    c.SetNZVC(IsNegative(v, z), v == 0, false, false);
  }

  /** MOVE, and MOVEA when the destination is an address register. */
  method ExecuteMove(c: CPUState, sm: Mode, sr: R.OperandReg, dm: Mode, dr: R.OperandReg, z: Size)
    returns (r: Access<()>)
    requires c.Valid()
    modifies c.memory.baseAddr, c.registers.regBuffer
    ensures Agrees(r, c.View(), if dm.DirectAddr? then I.ExecMovea(old(c.View()), sm, sr, dr, z)
                                else I.ExecMove(old(c.View()), sm, sr, dm, dr, z))
  {
    hide I.Next, I.MoveCodes, S.GetData, S.SetData, Signed, Wrap, CPUState.View, CPUState.Valid;
    var _ := Advance(c);
    var v :- c.GetData(sm, sr, z);
    if dm == DirectAddr {
      if z == Word {
        v := Wrap(Signed(v, Word));
      }
      r := c.SetData(dm, dr, Long, v);
    } else {
      var _ :- c.SetData(dm, dr, z, v);
      SetMoveFlags(c, v, z);
      return Value(());
    }
  }

  method ExecuteMoveq(c: CPUState, reg: R.OperandReg, imm: u32) returns (r: Access<()>)
    requires c.Valid()
    modifies c.memory.baseAddr, c.registers.regBuffer
    ensures Agrees(r, c.View(), I.ExecMoveq(old(c.View()), reg, imm))
  {
    hide I.Next, I.LogicCodes, CPUState.View, CPUState.Valid;
    var _ := Advance(c);
    c.SetReg(reg, Long, imm);
    SetLogicFlags(c, imm, Long);
    return Value(());
  }

  /** Both sizes extend from the low byte. */
  method ExecuteExt(c: CPUState, reg: R.OperandReg, z: Size) returns (r: Access<()>)
    requires c.Valid()
    modifies c.memory.baseAddr, c.registers.regBuffer
    ensures Agrees(r, c.View(), I.ExecExt(old(c.View()), reg, z))
  {
    hide I.Next, I.LogicCodes, Signed, Wrap, Truncate, CPUState.View, CPUState.Valid;
    var _ := Advance(c);
    var data := c.GetReg(reg, Byte);
    var result := Truncate(Wrap(Signed(data, Byte)), z);
    c.SetReg(reg, z, result);
    SetLogicFlags(c, result, z);
    return Value(());
  }

  method ExecuteMul(c: CPUState, signed: bool, sm: Mode, sr: R.OperandReg, dr: R.OperandReg) returns (r: Access<()>)
    requires c.Valid()
    modifies c.memory.baseAddr, c.registers.regBuffer
    ensures Agrees(r, c.View(), I.ExecMul(old(c.View()), signed, sm, sr, dr))
  {
    hide I.Next, I.LogicCodes, S.GetData, Signed, Wrap, CPUState.View, CPUState.Valid;
    var _ := Advance(c);
    var src :- c.GetData(sm, sr, Word);
    var dst := c.GetReg(dr, Word);
    var result: u32;
    if signed {
      result := Wrap(Signed(src, Word) * Signed(dst, Word));
    } else {
      result := Wrap(src as int * dst);
    }
    c.SetReg(dr, Long, result);
    SetLogicFlags(c, result, Long);
    return Value(());
  }

  /** The divisor must not be zero: C++ gives that division no meaning. */
  method ExecuteDiv(c: CPUState, signed: bool, sm: Mode, sr: R.OperandReg, dr: R.OperandReg) returns (r: Access<()>)
    requires c.Valid() && !I.ExecDiv(c.View(), signed, sm, sr, dr).Undefined?
    modifies c.memory.baseAddr, c.registers.regBuffer
    ensures Agrees(r, c.View(), I.ExecDiv(old(c.View()), signed, sm, sr, dr))
  {
    hide I.Next, I.LogicCodes, I.Divide, S.GetData, Truncate, CPUState.View, CPUState.Valid;
    var _ := Advance(c);
    var src :- c.GetData(sm, sr, Word);
    var dst := c.GetReg(dr, Word);
    var result := I.Divide(signed, src, dst);
    c.SetReg(dr, Long, result);
    SetLogicFlags(c, result, Word);
    return Value(());
  }

  // ----- bits -----

  method ExecuteBitManip(c: CPUState, bit: I.BitKind, sm: Mode, sr: R.OperandReg, dm: Mode, dr: R.OperandReg)
    returns (r: Access<()>)
    requires c.Valid()
    modifies c.memory.baseAddr, c.registers.regBuffer
    ensures Agrees(r, c.View(), I.ExecBitManip(old(c.View()), bit, sm, sr, dm, dr))
  {
    hide I.Next, I.BitAt, I.BitSize, S.GetData, S.GetDataSilent, S.SetData, I.ZeroCode, Pow2, CPUState.View;
    hide CPUState.Valid;
    var z := I.BitSize(dm);
    var _ := Advance(c);
    var n :- c.GetData(sm, sr, z);
    var k := n % (if z == Long then 32 else 8);
    var dst :- c.GetDataSilent(dm, dr, z);
    var on := I.BitAt(dst, k);
    var result := EditBit(bit, dst, k, on);
    hide I.BitResult;
    var _ :- c.SetData(dm, dr, z, result);
    c.SetZero(!on);
    return Value(());
  }

  /** The switch on the kind of bit instruction, on a local copy of the operand. */
  method EditBit(bit: I.BitKind, dst: u32, k: nat, on: bool) returns (result: u32)
    requires on == I.BitAt(dst, k)
    ensures result == I.BitResult(bit, dst, k)
  {
    hide I.BitAt, Pow2;
    result := dst;
    match bit {
      case Test =>
      case Change =>
        if on {
          result := Wrap(dst - Pow2(k));
        } else {
          result := Wrap(dst + Pow2(k));
        }
      case Clear =>
        result := Wrap(if on then dst - Pow2(k) else dst);
      case SetBit =>
        result := Wrap(if on then dst else dst + Pow2(k));
    }
  }

  /** The shift count and the two flags a rotation goes through. */
  method ReadShift(c: CPUState, count: I.Count, z: Size) returns (k: nat, carry: bool, x: bool)
    requires c.Valid()
    ensures k == I.ShiftCount(c.View(), count, z) && c.View() == old(c.View())
    ensures carry == R.HasFlag(c.View().regs[R.SR], R.Carry) && x == S.ExtendFlag(c.View())
  {
    match count {
      case Fixed(n) => k := n;
      case InReg(q) => k := c.GetReg(q, z);
    }
    k := k % 64;
    carry := c.GetFlag(R.Carry);
    x := c.ExtendFlag();
  }

  method SetShiftFlags(c: CPUState, u: I.Shifted, z: Size) returns (r: Access<()>)
    requires c.Valid()
    modifies c.registers.regBuffer
    ensures Agrees(r, c.View(), I.ShiftCodes(old(c.View()), u, z))
  {
    if u.Shifted? {
      c.SetXNZVC(u.x, IsNegative(u.result, z), IsZero(u.result, z), false, u.c);
    }
    return Value(());
  }

  /** Sets the codes only: the shifted value is never stored. The count must be in the range
      C++ gives a meaning to. */
  method ExecuteBitShift(c: CPUState, kind: I.ShiftKind, left: bool, count: I.Count, dm: Mode, dr: R.OperandReg,
                         z: Size)
    returns (r: Access<()>)
    requires c.Valid()
    modifies c.memory.baseAddr, c.registers.regBuffer
    ensures Agrees(r, c.View(), I.ExecBitShift(old(c.View()), kind, left, count, dm, dr, z))
  {
    hide I.Next, I.ShiftUnit, I.ShiftCount, I.ShiftCodes, S.GetDataSilent, S.ExtendFlag, R.HasFlag, CPUState.View;
    hide CPUState.Valid;
    var _ := Advance(c);
    var v :- c.GetDataSilent(dm, dr, z);
    var k, carry, x := ReadShift(c, count, z);
    r := SetShiftFlags(c, I.ShiftUnit(kind, left, z, v, k, carry, x), z);
  }

  // ----- control flow and frames -----

  method ExecuteLea(c: CPUState, m: Mode, reg: R.OperandReg, dr: R.OperandReg) returns (r: Access<()>)
    requires c.Valid()
    modifies c.memory.baseAddr, c.registers.regBuffer
    ensures Agrees(r, c.View(), I.ExecLea(old(c.View()), m, reg, dr))
  {
    hide I.Next, S.GetControlAddress, S.SetData, CPUState.View, CPUState.Valid;
    var _ := Advance(c);
    var a :- c.GetControlAddress(m, reg);
    r := c.SetData(DirectAddr, dr, Long, a);
  }

  method ExecutePea(c: CPUState, m: Mode, reg: R.OperandReg) returns (r: Access<()>)
    requires c.Valid()
    modifies c.memory.baseAddr, c.registers.regBuffer
    ensures Agrees(r, c.View(), I.ExecPea(old(c.View()), m, reg))
  {
    hide I.Next, S.GetControlAddress, S.StackPush, CPUState.View, CPUState.Valid;
    var _ := Advance(c);
    var a :- c.GetControlAddress(m, reg);
    r := c.StackPush(Long, a);
  }

  method ExecuteJmp(c: CPUState, m: Mode, reg: R.OperandReg) returns (r: Access<()>)
    requires c.Valid()
    modifies c.memory.baseAddr, c.registers.regBuffer
    ensures Agrees(r, c.View(), I.ExecJmp(old(c.View()), m, reg))
  {
    hide I.Next, S.GetControlAddress, CPUState.View, CPUState.Valid;
    var _ := Advance(c);
    var a :- c.GetControlAddress(m, reg);
    c.SetPc(a);
    return Value(());
  }

  method ExecuteJsr(c: CPUState, m: Mode, reg: R.OperandReg) returns (r: Access<()>)
    requires c.Valid()
    modifies c.memory.baseAddr, c.registers.regBuffer
    ensures Agrees(r, c.View(), I.ExecJsr(old(c.View()), m, reg))
  {
    hide I.Next, S.GetControlAddress, S.StackPush, S.SetPc, CPUState.View, CPUState.Valid;
    var _ := Advance(c);
    var a :- c.GetControlAddress(m, reg);
    var pc := c.Pc();
    var _ :- c.StackPush(Long, pc);
    c.SetPc(a);
    return Value(());
  }

  /** PC is not moved before the pop. */
  method ExecuteRts(c: CPUState) returns (r: Access<()>)
    requires c.Valid()
    modifies c.memory.baseAddr, c.registers.regBuffer
    ensures Agrees(r, c.View(), I.ExecRts(old(c.View())))
  {
    hide S.StackPop, S.SetPc, CPUState.View, CPUState.Valid;
    var a :- c.StackPop(Long);
    c.SetPc(a);
    return Value(());
  }

  method ExecuteLink(c: CPUState, reg: R.OperandReg) returns (r: Access<()>)
    requires c.Valid()
    modifies c.memory.baseAddr, c.registers.regBuffer
    ensures Agrees(r, c.View(), I.ExecLink(old(c.View()), reg))
  {
    hide R.Bank, R.RegGet, R.RegSet, S.StackPush, S.SetPc, S.SetReg, S.Reg32, MemGet, Signed, Wrap, CPUState.View;
    hide CPUState.Valid;
    var pc: int := c.Pc();
    var d :- c.Load(Wrap(pc + 2), Word);
    S.PcApart(c.View(), pc + 4, reg);
    c.SetPc(pc + 4);
    var address := c.Reg32(reg);
    var _ :- c.StackPush(Long, address);
    var sp: int := c.Reg32(R.A7);
    c.SetReg(reg, Long, sp);
    c.SetReg(R.A7, Long, Wrap(sp + Signed(d, Word)));
    return Value(());
  }

  method ExecuteUnlk(c: CPUState, reg: R.OperandReg) returns (r: Access<()>)
    requires c.Valid()
    modifies c.memory.baseAddr, c.registers.regBuffer
    ensures Agrees(r, c.View(), I.ExecUnlk(old(c.View()), reg))
  {
    hide I.Next, S.StackPop, S.SetReg, S.Reg32, CPUState.View, CPUState.Valid;
    var _ := Advance(c);
    var address := c.Reg32(reg);
    c.SetReg(R.A7, Long, address);
    address :- c.StackPop(Long);
    c.SetReg(reg, Long, address);
    return Value(());
  }

  /** BRA, BSR and Bcc. */
  method ReadDisplacement(c: CPUState, d8: byte) returns (r: Access<int>)
    requires c.Valid()
    modifies c.memory.baseAddr, c.registers.regBuffer
    ensures Agrees(r, c.View(), I.BranchDisplacement(old(c.View()), d8))
  {
    hide S.GetData, Signed, CPUState.View, CPUState.Valid;
    var z := I.BranchSize(d8);
    if z == Byte {
      return Value(Signed(d8, Byte));
    }
    var v :- c.GetData(Immediate, 0, z);
    return Value(Signed(v, z));
  }

  method ExecuteBranch(c: CPUState, cond: Condition, d8: byte) returns (r: Access<()>)
    requires c.Valid()
    modifies c.memory.baseAddr, c.registers.regBuffer
    ensures Agrees(r, c.View(), I.ExecBranch(old(c.View()), cond, d8))
  {
    hide I.Next, S.GetData, S.StackPush, S.SetPc, S.CheckCondition, Signed, Wrap, CPUState.View, CPUState.Valid;
    var pc: int := Advance(c);
    var d :- ReadDisplacement(c, d8);
    hide I.BranchDisplacement;
    match cond {
      case True =>
        c.SetPc(pc + d);
      case False =>
        var _ :- c.StackPush(Long, pc);
        c.SetPc(pc + d);
      case _ =>
        var holds := c.CheckCondition(cond);
        if holds {
          c.SetPc(pc + d);
        }
    }
    return Value(());
  }

  method ExecuteScc(c: CPUState, cond: Condition, m: Mode, reg: R.OperandReg) returns (r: Access<()>)
    requires c.Valid()
    modifies c.memory.baseAddr, c.registers.regBuffer
    ensures Agrees(r, c.View(), I.ExecScc(old(c.View()), cond, m, reg))
  {
    hide I.Next, S.SetData, S.CheckCondition, CPUState.View, CPUState.Valid;
    var _ := Advance(c);
    var holds := c.CheckCondition(cond);
    if holds {
      r := c.SetData(m, reg, Byte, 0xFF);
    } else {
      r := c.SetData(m, reg, Byte, 0);
    }
  }

  method ExecuteIllegal(c: CPUState) returns (r: Access<()>)
    requires c.Valid()
    modifies c.memory.baseAddr, c.registers.regBuffer
    ensures r == Fault(InvalidOpcode) && c.View() == I.Next(old(c.View()))
    ensures Agrees(r, c.View(), I.Execute(I.Illegal, old(c.View())))
  {
    hide I.Next, CPUState.View, CPUState.Valid;
    var _ := Advance(c);
    return Fault(InvalidOpcode);
  }

  method ExecuteNop(c: CPUState) returns (r: Access<()>)
    requires c.Valid()
    modifies c.memory.baseAddr, c.registers.regBuffer
    ensures Agrees(r, c.View(), I.Execute(I.Nop, old(c.View())))
  {
    hide I.Next, CPUState.View, CPUState.Valid;
    var _ := Advance(c);
    return Value(());
  }

  /** The virtual execute call. */
  method Execute(i: I.Instr, c: CPUState) returns (r: Access<()>)
    requires c.Valid() && !I.Execute(i, c.View()).Undefined?
    modifies c.memory.baseAddr, c.registers.regBuffer
    ensures Agrees(r, c.View(), I.Execute(i, old(c.View())))
  {
    hide CPUState.View, I.Next, I.ExecAlu, I.ExecAluQuick, I.ExecAluAddress, I.ExecAluExtend, I.ExecCompare;
    hide I.ExecTst, I.ExecClr, I.ExecNeg, I.ExecMove, I.ExecMovea, I.ExecMoveq, I.ExecExt, I.ExecMul, I.ExecDiv;
    hide I.ExecBitManip, I.ExecBitShift, I.ExecLea, I.ExecPea, I.ExecJmp, I.ExecJsr, I.ExecRts, I.ExecLink, I.ExecUnlk;
    hide I.ExecBranch, I.ExecScc, Agrees, CPUState.Valid;
    match i
    case Alu(op, sm, sr, dm, dr, z) => r := ExecuteAlu(c, op, sm, sr, dm, dr, z);
    case AluQuick(op, imm, dm, dr, z) => r := ExecuteAluQuick(c, op, imm, dm, dr, z);
    case AluAddress(op, sm, sr, dr, z) => r := ExecuteAluAddress(c, op, sm, sr, dr, z);
    case AluExtend(op, m, sr, dr, z) => r := ExecuteAluExtend(c, op, m, sr, dr, z);
    case Compare(sm, sr, dm, dr, z, address) => r := ExecuteCompare(c, sm, sr, dm, dr, z, address);
    case Tst(dm, dr, z) => r := ExecuteTst(c, dm, dr, z);
    case Clr(dm, dr, z) => r := ExecuteClr(c, dm, dr, z);
    case Neg(dm, dr, z) => r := ExecuteNeg(c, dm, dr, z);
    case Move(sm, sr, dm, dr, z) => r := ExecuteMove(c, sm, sr, dm, dr, z);
    case Moveq(dr, imm) => r := ExecuteMoveq(c, dr, imm);
    case Ext(dr, z) => r := ExecuteExt(c, dr, z);
    case Mul(signed, sm, sr, dr) => r := ExecuteMul(c, signed, sm, sr, dr);
    case Div(signed, sm, sr, dr) => r := ExecuteDiv(c, signed, sm, sr, dr);
    case BitManip(bit, sm, sr, dm, dr) => r := ExecuteBitManip(c, bit, sm, sr, dm, dr);
    case BitShift(kind, left, count, dm, dr, z) => r := ExecuteBitShift(c, kind, left, count, dm, dr, z);
    case Lea(sm, sr, dr) => r := ExecuteLea(c, sm, sr, dr);
    case Pea(sm, sr) => r := ExecutePea(c, sm, sr);
    case Jmp(sm, sr) => r := ExecuteJmp(c, sm, sr);
    case Jsr(sm, sr) => r := ExecuteJsr(c, sm, sr);
    case Rts => r := ExecuteRts(c);
    case Link(dr) => r := ExecuteLink(c, dr);
    case Unlk(dr) => r := ExecuteUnlk(c, dr);
    case Branch(cond, d8) => r := ExecuteBranch(c, cond, d8);
    case Scc(cond, dm, dr) => r := ExecuteScc(c, cond, dm, dr);
    case Nop => r := ExecuteNop(c);
    case Illegal => r := ExecuteIllegal(c);
  }
}
