// ADDI #v,ea followed by SUBI #v,ea on a destination without side effects.
// (src/instructions/addi.cpp, src/instructions/subi.cpp)

module ImmediateUndo {
  import opened Helpers
  import opened Memory
  import opened Registers
  import opened CpuState
  import opened Instructions
  import opened Addressing
  import opened Conditions

  /** The immediate operand and the cell of the destination that follows it. */
  ghost predicate Operands(s: State, m: Mode, r: OperandReg, z: Size, v: u32, c: Cell)
    requires IsMemoryAlterable(m)
  {
    var i := GetData(Next(s), Immediate, 0, z);
    i.Ok? && i.value == v && Locus(i.state, m, r, z) == Value(c)
  }

  lemma AlikeWrite(s: State, t: State, c: Cell, z: Size, data: u32)
    requires Alike(s, t) && WriteCell(s, c, z, data).Value?
    ensures WriteCell(t, c, z, data).Value? && Alike(WriteCell(s, c, z, data).value, WriteCell(t, c, z, data).value)
  {
    assert forall r :: 0 <= r < 17 ==> t.regs[r] == t.regs[..17][r] && s.regs[r] == s.regs[..17][r];
    hide MemSet, HasFlag, Blend;
  }

  /** Writing a cell and then its old value back leaves the state as it was. */
  lemma CellRestored(s: State, c: Cell, z: Size, data: u32, back: u32)
    requires WriteCell(s, c, z, data).Value? && ReadCell(s, c, z) == Value(Truncate(back, z))
    ensures WriteCell(WriteCell(s, c, z, data).value, c, z, back) == Value(s)
  {
    match c
    case RegCell(r) =>
      BlendBack(Reg32(s, r), data, back, z);
      hide Blend, Truncate, HasFlag;
      var b := Bank(s.regs, r);
      assert s.regs[b := Blend(s.regs[b], data, z)][b := s.regs[b]] == s.regs;
    case MemCell(a) =>
      var at := Locate(|s.mem|, a, z).value;
      WriteTwice(s.mem, at, z, data, back);
      WriteBack(s.mem, at, z, back);
      hide WriteAt, ReadAt, Locate;
  }

  lemma WriteTwice(mem: seq<byte>, a: nat, z: Size, data: u32, back: u32)
    requires a + Bytes(z) <= |mem|
    ensures WriteAt(WriteAt(mem, a, z, data), a, z, back) == WriteAt(mem, a, z, back)
  {
  }

  lemma BlendBack(was: u32, data: u32, back: u32, z: Size)
    requires Truncate(was, z) == Truncate(back, z)
    ensures Blend(Blend(was, data, z), back, z) == was
  {
    match z
    case Byte => Remainder(0x100, was / 0x100, data % 0x100);
    case Word => Remainder(0x1_0000, was / 0x1_0000, data % 0x1_0000);
    case Long =>
  }

  ghost predicate SideEffectFree(m: Mode) {
    IsMemoryAlterable(m) && !m.PostIncrement? && !m.PreDecrement?
  }

  lemma MovedAlike(s: State, m: Mode, r: OperandReg, z: Size)
    requires !m.PostIncrement? && !m.PreDecrement?
    ensures Alike(s, Moved(s, m, r, z)) && Moved(s, m, r, z).regs[SR] == s.regs[SR]
  {
  }

  lemma ImmediateAlike(s: State, z: Size)
    requires GetData(Next(s), Immediate, 0, z).Ok?
    ensures Alike(s, GetData(Next(s), Immediate, 0, z).state)
  {
    hide MemGet;
  }

  /** An immediate operation writes its result to its cell and sets C; nothing else but PC and SR moves. */
  lemma ImmediateOp(s: State, op: AluOp, m: Mode, r: OperandReg, z: Size, v: u32, c: Cell)
    requires (op.Add? || op.Sub?) && SideEffectFree(m) && Operands(s, m, r, z, v, c)
    requires ReadCell(s, c, z).Value?
    ensures var dst := ReadCell(s, c, z).value;
            var result := Compute(op, v, dst, false);
            var o := ExecAlu(s, op, Immediate, 0, m, r, z);
            && o.Ok? && WriteCell(s, c, z, result).Value?
            && Alike(WriteCell(s, c, z, result).value, o.state)
            && HasFlag(o.state.regs[SR], Carry) == IsCarry(result, z)
  {
    hide GetData, GetDataSilent, SetData, Locus, WriteCell, ReadCell, Moved, Compute, Next, Alike, HasFlag, WithCodes;
    hide ArithmeticCodes, IsCarry;
    var s1 := GetData(Next(s), Immediate, 0, z).state;
    ImmediateAlike(s, z);
    AlikeRead(s, s1, c, z);
    var dst := ReadCell(s, c, z).value;
    var result := Compute(op, v, dst, false);
    ReadModifyWrite(s1, m, r, z, result);
    SilentReadsCell(s1, m, r, z);
    MovedAlike(s1, m, r, z);
    AlikeTrans(s, s1, Moved(s1, m, r, z));
    var w := SetData(s1, m, r, z, result).state;
    AlikeBack(s, Moved(s1, m, r, z), c, z, result);
    AlikeFlags(w, v, dst, result, z);
    AlikeTrans(WriteCell(s, c, z, result).value, w, ArithmeticCodes(w, v, dst, result, z));
  }

  lemma AlikeBack(s: State, t: State, c: Cell, z: Size, data: u32)
    requires Alike(s, t) && WriteCell(t, c, z, data).Value?
    ensures WriteCell(s, c, z, data).Value? && Alike(WriteCell(s, c, z, data).value, WriteCell(t, c, z, data).value)
  {
    hide WriteCell;
    AlikeWrite(t, s, c, z, data);
    assert Alike(t, s);
  }

  lemma AlikeCodes(s: State, x: bool, n: bool, z: bool, v: bool, c: bool)
    ensures Alike(s, SetCodes(s, x, n, z, v, c)) && HasFlag(SetCodes(s, x, n, z, v, c).regs[SR], Carry) == c
  {
    CodesRead(s.regs[SR], x, n, z, v, c);
  }

  lemma AlikeFlags(s: State, src: u32, dst: u32, result: u32, z: Size)
    ensures Alike(s, ArithmeticCodes(s, src, dst, result, z))
    ensures HasFlag(ArithmeticCodes(s, src, dst, result, z).regs[SR], Carry) == IsCarry(result, z)
  {
    AlikeCodes(s, IsCarry(result, z), IsNegative(result, z), IsZero(result, z), IsOverflow(src, dst, z),
               IsCarry(result, z));
  }

  /** Adding and subtracting one operand and X: the original value, and the same carry, at every size. */
  lemma AddSubValue(v: u32, dst: u32, x: bool, z: Size)
    requires v < Modulus(z) && dst < Modulus(z)
    ensures var sum := Compute(Add, v, dst, x);
            var back := Compute(Sub, v, Truncate(sum, z), x);
            Truncate(back, z) == dst && IsCarry(back, z) == IsCarry(sum, z)
  {
    hide Truncate, Wrap, IsCarry;
    var i := if x then 1 else 0;
    Wrapped(v + dst + i, z);
    Wrapped(Truncate(Wrap(v + dst + i), z) - v - i, z);
  }

  /** SUBI undoes ADDI when its extension words name the same immediate and the same cell: memory
      and every register but PC and SR are back, and the subtraction borrows iff the addition carried. */
  lemma SubiUndoesAddi(s: State, p: State, m: Mode, r: OperandReg, z: Size, v: u32, c: Cell)
    requires SideEffectFree(m) && Operands(s, m, r, z, v, c) && ReadCell(s, c, z).Value?
    requires var o := ExecAlu(s, Add, Immediate, 0, m, r, z); o.Ok? ==> p == SetPc(o.state, Pc(p))
    requires Operands(p, m, r, z, v, c)
    ensures var a, b := ExecAlu(s, Add, Immediate, 0, m, r, z), ExecAlu(p, Sub, Immediate, 0, m, r, z);
            && a.Ok? && b.Ok? && Alike(s, b.state)
            && HasFlag(b.state.regs[SR], Carry) == HasFlag(a.state.regs[SR], Carry)
  {
    hide ExecAlu, Locus, WriteCell, ReadCell, Compute, HasFlag, IsCarry, Truncate;
    ImmediateOp(s, Add, m, r, z, v, c);
    var a := ExecAlu(s, Add, Immediate, 0, m, r, z).state;
    assert Alike(a, p);
    OperandBound(Next(s), Immediate, 0, z);
    CellBound(s, c, z);
    hide Operands, Alike, GetData;
    var dst := ReadCell(s, c, z).value;
    var sum := Compute(Add, v, dst, false);
    var w := WriteCell(s, c, z, sum).value;
    AlikeTrans(w, a, p);
    CellReadBack(s, c, z, sum);
    AlikeRead(w, p, c, z);
    ImmediateOp(p, Sub, m, r, z, v, c);
    AddSubValue(v, dst, false, z);
    var back := Compute(Sub, v, Truncate(sum, z), false);
    CellRestored(s, c, z, sum, back);
    AlikeWrite(w, p, c, z, back);
    AlikeTrans(s, WriteCell(p, c, z, back).value, ExecAlu(p, Sub, Immediate, 0, m, r, z).state);
  }

  lemma CellBound(s: State, c: Cell, z: Size)
    requires ReadCell(s, c, z).Value?
    ensures ReadCell(s, c, z).value < Modulus(z)
  {
    hide Locate, ReadAt;
  }
}
