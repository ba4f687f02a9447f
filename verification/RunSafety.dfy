// What every step keeps, and so what every run keeps: a step that throws is atomic except for
// PC and the address registers, no run leaves its privilege bank, and each step writes at most
// one window of four bytes.

module RunSafety {
  import opened Helpers
  import opened Memory
  import opened Registers
  import opened CpuState
  import opened Instructions
  import opened Decoder
  import opened Machine

  /** Memory, D0-D7, SR and the inactive stack pointer are the same. */
  ghost predicate Untouched(s: State, t: State) {
    && t.mem == s.mem
    && (forall r :: 0 <= r < 8 ==> t.regs[r] == s.regs[r])
    && t.regs[SR] == s.regs[SR]
    && t.regs[Inactive(s.regs)] == s.regs[Inactive(s.regs)]
  }

  /** At most the four bytes from `a` on differ. */
  ghost predicate WithinWindow(m: seq<byte>, n: seq<byte>, a: nat) {
    && |n| == |m|
    && forall i :: 0 <= i < |m| && !(a <= i < a + 4) ==> n[i] == m[i]
  }

  /** SR bits 5 and up and the inactive stack pointer are the same, and one window was written. */
  ghost predicate Confined(s: State, t: State) {
    && t.regs[SR] / 32 == s.regs[SR] / 32
    && HasFlag(t.regs[SR], Supervisor) == HasFlag(s.regs[SR], Supervisor)
    && t.regs[Inactive(s.regs)] == s.regs[Inactive(s.regs)]
    && exists a: nat :: WithinWindow(s.mem, t.mem, a)
  }

  /** What one C++ call may do to the state when it returns and when it throws. */
  ghost predicate Contained<T>(s: State, o: Outcome<T>) {
    match o
    case Ok(_, t) => Confined(s, t)
    case Throw(_, t) => Untouched(s, t)
    case Undefined => true
  }

  /** A call that only reads: even when it returns, only PC and address registers have moved. */
  ghost predicate ReadsOnly<T>(s: State, o: Outcome<T>) {
    match o
    case Ok(_, t) => Untouched(s, t)
    case Throw(_, t) => Untouched(s, t)
    case Undefined => true
  }

  lemma SameWindow(s: State, t: State)
    requires Untouched(s, t)
    ensures Confined(s, t)
  {
    assert WithinWindow(s.mem, t.mem, 0);
  }

  lemma GetDataReads(s: State, m: Mode, r: OperandReg, z: Size)
    requires Names(m, r)
    ensures ReadsOnly(s, GetData(s, m, r, z))
  {
    hide MemGet, IndexOffset, Signed, Wrap, RegGet, Stride;
  }

  lemma ControlReads(s: State, m: Mode, r: OperandReg)
    ensures ReadsOnly(s, GetControlAddress(s, m, r))
  {
    hide MemGet, IndexOffset, Signed, Wrap;
  }

  lemma StoreWindow(mem: seq<byte>, z: Size, data: u32)
    ensures forall address: u32 :: MemSet(mem, address, z, data).Value? ==>
              exists a: nat :: WithinWindow(mem, MemSet(mem, address, z, data).value, a)
  {
    forall address: u32 | MemSet(mem, address, z, data).Value?
      ensures exists a: nat :: WithinWindow(mem, MemSet(mem, address, z, data).value, a)
    {
      assert WithinWindow(mem, MemSet(mem, address, z, data).value, address % 0x100_0000);
    }
  }

  lemma SetDataContained(s: State, m: Mode, r: OperandReg, z: Size, data: u32)
    requires Names(m, r)
    ensures Contained(s, SetData(s, m, r, z, data))
  {
    hide MemGet, MemSet, IndexOffset, Signed, Wrap, Blend, Stride;
    StoreWindow(s.mem, z, data);
    SameWindow(s, s);
  }

  lemma PushContained(s: State, z: Size, data: u32)
    ensures Contained(s, StackPush(s, z, data))
  {
    StoreWindow(s.mem, z, data);
  }

  lemma PopReads(s: State, z: Size)
    ensures ReadsOnly(s, StackPop(s, z))
  {
  }

  // ----- composing calls -----

  lemma ThenContained<T>(s: State, t: State, o: Outcome<T>)
    requires Untouched(s, t) && Contained(t, o)
    ensures Contained(s, o)
  {
  }

  lemma ThenReads<T>(s: State, t: State, o: Outcome<T>)
    requires Untouched(s, t) && ReadsOnly(t, o)
    ensures ReadsOnly(s, o)
  {
  }

  /** Setting condition codes, PC or an operand register after a confined call stays confined. */
  lemma AfterConfined(s: State)
    ensures forall t: State, x: bool, n: bool, z: bool, v: bool, c: bool ::
              Confined(s, t) ==> Confined(s, SetCodes(t, x, n, z, v, c))
    ensures forall t: State, r: OperandReg, z: Size, data: u32 :: Confined(s, t) ==> Confined(s, SetReg(t, r, z, data))
    ensures forall t: State, pc: int :: Confined(s, t) ==> Confined(s, SetPc(t, pc))
  {
    forall t: State, x: bool, n: bool, z: bool, v: bool, c: bool | Confined(s, t)
      ensures Confined(s, SetCodes(t, x, n, z, v, c))
    {
      CodesRead(t.regs[SR], x, n, z, v, c);
    }
  }

  /** Moving PC and reading an operand leave the machine ready for the writing half of an instruction. */
  lemma SourceRead(s: State, m: Mode, r: OperandReg, z: Size)
    requires Names(m, r)
    ensures ReadsOnly(s, GetData(Next(s), m, r, z))
    ensures GetData(Next(s), m, r, z).Ok?
            ==> Untouched(s, GetData(Next(s), m, r, z).state) && Confined(s, GetData(Next(s), m, r, z).state)
  {
    GetDataReads(Next(s), m, r, z);
    ThenReads(s, Next(s), GetData(Next(s), m, r, z));
    if GetData(Next(s), m, r, z).Ok? {
      SameWindow(s, GetData(Next(s), m, r, z).state);
    }
  }

  lemma AddressRead(s: State, m: Mode, r: OperandReg)
    ensures ReadsOnly(s, GetControlAddress(Next(s), m, r))
    ensures GetControlAddress(Next(s), m, r).Ok? ==> Confined(s, GetControlAddress(Next(s), m, r).state)
  {
    ControlReads(Next(s), m, r);
    ThenReads(s, Next(s), GetControlAddress(Next(s), m, r));
    if GetControlAddress(Next(s), m, r).Ok? {
      SameWindow(s, GetControlAddress(Next(s), m, r).state);
    }
  }

  lemma NextUntouched(s: State)
    ensures Untouched(s, Next(s)) && Confined(s, Next(s))
  {
    SameWindow(s, Next(s));
  }

  lemma StoreAfter(s: State, t: State, m: Mode, r: OperandReg, z: Size)
    requires Untouched(s, t) && Names(m, r)
    ensures forall data: u32 :: Contained(s, SetData(t, m, r, z, data))
  {
    forall data: u32 ensures Contained(s, SetData(t, m, r, z, data)) {
      SetDataContained(t, m, r, z, data);
      ThenContained(s, t, SetData(t, m, r, z, data));
    }
  }

  lemma PushAfter(s: State, t: State)
    requires Untouched(s, t)
    ensures forall data: u32 :: Contained(s, StackPush(t, Long, data))
  {
    forall data: u32 ensures Contained(s, StackPush(t, Long, data)) {
      PushContained(t, Long, data);
      ThenContained(s, t, StackPush(t, Long, data));
    }
  }

  // ----- one family at a time -----

  lemma AluContained(s: State, op: AluOp, sm: Mode, sr: OperandReg, dm: Mode, dr: OperandReg, z: Size)
    requires Names(sm, sr) && Names(dm, dr)
    ensures Contained(s, ExecAlu(s, op, sm, sr, dm, dr, z))
    ensures sm == dm ==> Contained(s, ExecAluExtend(s, op, sm, sr, dr, z))
  {
    hide GetData, SetData, SetCodes, GetDataSilent, Compute, Next, Untouched, Confined;
    SourceRead(s, sm, sr, z);
    AfterConfined(s);
    var o := GetData(Next(s), sm, sr, z);
    if o.Ok? {
      StoreAfter(s, o.state, dm, dr, z);
    }
  }

  lemma MoveContained(s: State, sm: Mode, sr: OperandReg, dm: Mode, dr: OperandReg, z: Size)
    requires Names(sm, sr) && Names(dm, dr)
    ensures Contained(s, ExecMove(s, sm, sr, dm, dr, z))
  {
    hide GetData, SetData, SetCodes, Next, Untouched, Confined, IsNegative, ExtendFlag;
    SourceRead(s, sm, sr, z);
    var o := GetData(Next(s), sm, sr, z);
    if o.Ok? {
      var v: u32 := o.value;
      StoreAfter(s, o.state, dm, dr, z);
      var w := SetData(o.state, dm, dr, z, v);
      assert Contained(s, w);
      if w.Ok? {
        var u := w.state;
        var x, n := ExtendFlag(u), IsNegative(v, z);
        assert Confined(s, u);
        AfterConfined(s);
        assert Confined(s, SetCodes(u, x, n, v == 0, false, false));
      }
    }
  }

  lemma AddressContained(s: State, op: AluOp, sm: Mode, sr: OperandReg, dr: OperandReg, z: Size)
    requires Names(sm, sr) && dr >= 8
    ensures Contained(s, ExecAluAddress(s, op, sm, sr, dr, z)) && Contained(s, ExecMovea(s, sm, sr, dr, z))
  {
    hide GetData, SetData, GetDataSilent, Compute, Next, Untouched, Confined, Signed, Wrap;
    SourceRead(s, sm, sr, z);
    var o := GetData(Next(s), sm, sr, z);
    if o.Ok? {
      StoreAfter(s, o.state, DirectAddr, dr, Long);
      StoreAfter(s, o.state, DirectAddr, dr, z);
    }
  }

  lemma ReadingContained(s: State, sm: Mode, sr: OperandReg, dm: Mode, dr: OperandReg, z: Size, address: bool)
    requires Names(sm, sr) && Names(dm, dr)
    ensures Contained(s, ExecCompare(s, sm, sr, dm, dr, z, address))
    ensures Contained(s, ExecTst(s, sm, sr, z))
  {
    hide GetData, SetCodes, Compute, Untouched, Confined;
    SourceRead(s, sm, sr, z);
    AfterConfined(s);
    var o := GetData(Next(s), sm, sr, z);
    if o.Ok? {
      GetDataReads(o.state, dm, dr, z);
      ThenReads(s, o.state, GetData(o.state, dm, dr, z));
      if GetData(o.state, dm, dr, z).Ok? {
        SameWindow(s, GetData(o.state, dm, dr, z).state);
      }
    }
  }

  lemma UnaryContained(s: State, op: AluOp, imm: u32, m: Mode, r: OperandReg, z: Size, cond: Condition)
    requires Names(m, r)
    ensures Contained(s, ExecAluQuick(s, op, imm, m, r, z))
    ensures Contained(s, ExecClr(s, m, r, z)) && Contained(s, ExecNeg(s, m, r, z))
    ensures z == Byte ==> Contained(s, ExecScc(s, cond, m, r))
  {
    hide SetData, SetCodes, GetDataSilent, Compute, CheckCondition, Next, Untouched, Confined;
    NextUntouched(s);
    AfterConfined(s);
    StoreAfter(s, Next(s), m, r, z);
  }

  lemma RegisterContained(s: State, signed: bool, sm: Mode, sr: OperandReg, dr: OperandReg, imm: u32, z: Size)
    requires Names(sm, sr)
    ensures Contained(s, ExecMul(s, signed, sm, sr, dr)) && Contained(s, ExecDiv(s, signed, sm, sr, dr))
    ensures Contained(s, ExecMoveq(s, dr, imm)) && Contained(s, ExecExt(s, dr, z))
  {
    hide GetData, SetCodes, SetReg, Next, Divide, Untouched, Confined, Signed, Truncate;
    NextUntouched(s);
    SourceRead(s, sm, sr, Word);
    AfterConfined(s);
  }

  lemma BitsContained(s: State, bit: BitKind, sm: Mode, sr: OperandReg, dm: Mode, dr: OperandReg)
    requires Names(sm, sr) && Names(dm, dr)
    ensures Contained(s, ExecBitManip(s, bit, sm, sr, dm, dr))
  {
    hide GetData, SetData, GetDataSilent, BitResult, BitAt, Untouched, Confined;
    var z := BitSize(dm);
    SourceRead(s, sm, sr, z);
    AfterConfined(s);
    var o := GetData(Next(s), sm, sr, z);
    if o.Ok? {
      StoreAfter(s, o.state, dm, dr, z);
    }
  }

  lemma ShiftContained(s: State, kind: ShiftKind, left: bool, count: Count, dm: Mode, dr: OperandReg, z: Size)
    ensures Contained(s, ExecBitShift(s, kind, left, count, dm, dr, z))
  {
    hide SetCodes, GetDataSilent, ShiftUnit, Next, Untouched, Confined;
    NextUntouched(s);
    AfterConfined(s);
  }

  lemma ControlContained(s: State, m: Mode, r: OperandReg, dr: OperandReg)
    requires dr >= 8
    ensures Contained(s, ExecLea(s, m, r, dr)) && Contained(s, ExecPea(s, m, r))
    ensures Contained(s, ExecJmp(s, m, r)) && Contained(s, ExecJsr(s, m, r))
  {
    hide GetControlAddress, SetData, StackPush, SetPc, Next, Untouched, Confined;
    AddressRead(s, m, r);
    AfterConfined(s);
    var o := GetControlAddress(Next(s), m, r);
    if o.Ok? {
      StoreAfter(s, o.state, DirectAddr, dr, Long);
      PushAfter(s, o.state);
    }
  }

  lemma RtsContained(s: State)
    ensures Contained(s, ExecRts(s))
  {
    hide StackPop, SetPc, Untouched, Confined;
    AfterConfined(s);
    PopReads(s, Long);
    if StackPop(s, Long).Ok? {
      SameWindow(s, StackPop(s, Long).state);
    }
  }

  lemma LinkContained(s: State, r: OperandReg)
    requires r >= 8
    ensures Contained(s, ExecLink(s, r))
  {
    var s2 := SetPc(s, Pc(s) + 4);
    AfterConfined(s);
    PushAfter(s, s2);
    hide StackPush, SetReg, Signed, Untouched, Confined, MemGet;
  }

  lemma UnlkContained(s: State, r: OperandReg)
    requires r >= 8
    ensures Contained(s, ExecUnlk(s, r))
  {
    var s1 := SetReg(Next(s), A7, Long, Reg32(Next(s), r));
    assert Untouched(s, s1);
    hide StackPop, SetReg, Next, Untouched, Confined;
    AfterConfined(s);
    PopReads(s1, Long);
    ThenReads(s, s1, StackPop(s1, Long));
    if StackPop(s1, Long).Ok? {
      SameWindow(s, StackPop(s1, Long).state);
    }
  }

  lemma BranchContained(s: State, cond: Condition, d8: byte)
    ensures Contained(s, ExecBranch(s, cond, d8))
  {
    AfterConfined(s);
    NextUntouched(s);
    SourceRead(s, Immediate, 0, BranchSize(d8));
    PushAfter(s, Next(s));
    if GetData(Next(s), Immediate, 0, BranchSize(d8)).Ok? {
      PushAfter(s, GetData(Next(s), Immediate, 0, BranchSize(d8)).state);
    }
    hide GetData, StackPush, SetPc, Next, CheckCondition, Untouched, Confined;
  }

  /** Every decoded instruction, from every state. */
  lemma ExecuteContained(i: Instr, s: State)
    requires WellFormed(i)
    ensures Contained(s, Execute(i, s))
  {
    hide Contained, ExecAlu, ExecAluQuick, ExecAluAddress, ExecAluExtend, ExecCompare, ExecTst, ExecClr, ExecNeg;
    hide ExecMove, ExecMovea, ExecMoveq, ExecExt, ExecMul, ExecDiv, ExecBitManip, ExecBitShift, ExecScc, ExecBranch;
    hide ExecLea, ExecPea, ExecJmp, ExecJsr, ExecRts, ExecLink, ExecUnlk;
    match i
    case Alu(op, sm, sr, dm, dr, z) => AluContained(s, op, sm, sr, dm, dr, z);
    case AluQuick(op, imm, dm, dr, z) => UnaryContained(s, op, imm, dm, dr, z, True);
    case AluAddress(op, sm, sr, dr, z) => AddressContained(s, op, sm, sr, dr, z);
    case AluExtend(op, m, sr, dr, z) => AluContained(s, op, m, sr, m, dr, z);
    case Compare(sm, sr, dm, dr, z, address) => ReadingContained(s, sm, sr, dm, dr, z, address);
    case Tst(dm, dr, z) => ReadingContained(s, dm, dr, dm, dr, z, false);
    case Clr(dm, dr, z) => UnaryContained(s, Add, 0, dm, dr, z, True);
    case Neg(dm, dr, z) => UnaryContained(s, Add, 0, dm, dr, z, True);
    case Move(sm, sr, dm, dr, z) =>
      if dm.DirectAddr? {
        AddressContained(s, Add, sm, sr, dr, z);
      } else {
        MoveContained(s, sm, sr, dm, dr, z);
      }
    case Moveq(dr, imm) => RegisterContained(s, false, Immediate, 0, dr, imm, Long);
    case Ext(dr, z) => RegisterContained(s, false, Immediate, 0, dr, 0, z);
    case Mul(signed, sm, sr, dr) => RegisterContained(s, signed, sm, sr, dr, 0, Long);
    case Div(signed, sm, sr, dr) => RegisterContained(s, signed, sm, sr, dr, 0, Long);
    case BitManip(bit, sm, sr, dm, dr) => BitsContained(s, bit, sm, sr, dm, dr);
    case BitShift(kind, left, count, dm, dr, z) => ShiftContained(s, kind, left, count, dm, dr, z);
    case Lea(sm, sr, dr) => ControlContained(s, sm, sr, dr);
    case Pea(sm, sr) => ControlContained(s, sm, sr, 8);
    case Jmp(sm, sr) => ControlContained(s, sm, sr, 8);
    case Jsr(sm, sr) => ControlContained(s, sm, sr, 8);
    case Rts => RtsContained(s);
    case Link(dr) => LinkContained(s, dr);
    case Unlk(dr) => UnlkContained(s, dr);
    case Branch(cond, d8) => BranchContained(s, cond, d8);
    case Scc(cond, dm, dr) => UnaryContained(s, Add, 0, dm, dr, Byte, cond);
    case Nop => SimpleContained(s);
    case Illegal => SimpleContained(s);
  }

  lemma SimpleContained(s: State)
    ensures Contained(s, Execute(Nop, s)) && Contained(s, Execute(Illegal, s))
  {
    NextUntouched(s);
    hide Next, Untouched, Confined;
  }

  // ----- whole runs -----

  /** A failed step changes no memory byte, no data register and no status bit. */
  lemma StepContained(s: State)
    ensures Contained(s, Step(s))
  {
    hide Execute, Decode;
    match MemGet(s.mem, Pc(s), Word)
    case Fault(e) =>
    case Value(opcode) =>
      DecodeWellFormed(opcode);
      ExecuteContained(Decode(opcode), s);
  }

  /** Where the machine is after a call of step, a caught exception leaving it where it threw. */
  ghost predicate Reaches(o: Outcome<()>, t: State) {
    match o
    case Ok(_, u) => t == u
    case Throw(_, u) => t == u
    case Undefined => false
  }

  /** Successive calls of step. A run stops having a meaning at an undefined step. */
  ghost predicate Run(states: seq<State>) {
    && |states| > 0
    && forall k :: 0 <= k < |states| - 1 ==> Reaches(Step(states[k]), states[k + 1])
  }

  /** The memory positions where two memories differ. */
  ghost function Differing(m: seq<byte>, n: seq<byte>): set<nat>
    requires |m| == |n|
  {
    set i: nat | i < |m| && m[i] != n[i]
  }

  lemma StepConfined(s: State, t: State)
    requires Reaches(Step(s), t)
    ensures Confined(s, t)
  {
    hide Step;
    StepContained(s);
    if Step(s).Throw? {
      SameWindow(s, t);
    }
  }

  lemma WindowCount(m: seq<byte>, n: seq<byte>, p: seq<byte>, a: nat)
    requires |m| == |n| && WithinWindow(n, p, a)
    ensures |p| == |m| && |Differing(m, p)| <= |Differing(m, n)| + 4
  {
    var window := {a, a + 1, a + 2, a + 3};
    assert Differing(m, p) <= Differing(m, n) + window;
    SubsetSize(Differing(m, p), Differing(m, n) + window);
    assert |window| <= 4;
  }

  lemma {:induction false} SubsetSize(x: set<nat>, y: set<nat>)
    requires x <= y
    ensures |x| <= |y|
  {
    if x != {} {
      var e :| e in x;
      SubsetSize(x - {e}, y - {e});
    }
  }

  /** Privilege isolation and write footprint, over every run of every length. */
  lemma {:induction false} RunConfined(states: seq<State>)
    requires Run(states)
    ensures var first, last := states[0], states[|states| - 1];
            && last.regs[SR] / 32 == first.regs[SR] / 32
            && Inactive(last.regs) == Inactive(first.regs)
            && last.regs[Inactive(first.regs)] == first.regs[Inactive(first.regs)]
            && |last.mem| == |first.mem|
            && |Differing(first.mem, last.mem)| <= 4 * (|states| - 1)
  {
    hide Step;
    var n := |states| - 1;
    if n == 0 {
      assert Differing(states[0].mem, states[0].mem) == {};
    } else {
      var shorter := states[..n];
      RunConfined(shorter);
      assert shorter[n - 1] == states[n - 1] && Reaches(Step(states[n - 1]), states[n]);
      StepConfined(states[n - 1], states[n]);
      var a: nat :| WithinWindow(states[n - 1].mem, states[n].mem, a);
      WindowCount(states[0].mem, states[n - 1].mem, states[n].mem, a);
    }
  }
}
