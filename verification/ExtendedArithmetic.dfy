// Multi-precision arithmetic: n executions of ADDX or SUBX -(Ay),-(Ax) over n-limb big-endian
// numbers (src/instructions/addx.cpp, src/instructions/subx.cpp).

module ExtendedArithmetic {
  import opened Helpers
  import opened Memory
  import opened Registers
  import opened CpuState
  import opened Instructions
  import ImmediateUndo

  // ----- big-endian numbers in memory -----

  /** n limbs take this many bytes. */
  function Span(z: Size, n: nat): nat {
    match z
    case Byte => n
    case Word => 2 * n
    case Long => 4 * n
  }

  /** One more than the largest n-limb number. */
  function Ceiling(z: Size, n: nat): nat {
    if n == 0 then 1
    else match z
      case Byte => 0x100 * Ceiling(z, n - 1)
      case Word => 0x1_0000 * Ceiling(z, n - 1)
      case Long => 0x1_0000_0000 * Ceiling(z, n - 1)
  }

  /** The number in n limbs from byte `b` on. */
  function Number(mem: seq<byte>, b: nat, z: Size, n: nat): nat
    requires b + Span(z, n) <= |mem|
  {
    BigEndian(mem[b..b + Span(z, n)])
  }

  /** Multiplying by the modulus of a size, one constant product per size. */
  function Scaled(z: Size, v: nat): nat {
    match z
    case Byte => 0x100 * v
    case Word => 0x1_0000 * v
    case Long => 0x1_0000_0000 * v
  }

  lemma LastByte(mem: seq<byte>, b: nat, e: nat)
    requires b <= e < |mem|
    ensures BigEndian(mem[b..e + 1]) == 0x100 * BigEndian(mem[b..e]) + mem[e]
  {
    assert mem[b..e + 1][..e - b] == mem[b..e];
  }

  /** The last limb of a number is its low limb. */
  lemma LowLimb(mem: seq<byte>, b: nat, z: Size, n: nat)
    requires n > 0 && b + Span(z, n) <= |mem|
    ensures Number(mem, b, z, n) == Scaled(z, Number(mem, b, z, n - 1)) + ReadAt(mem, b + Span(z, n - 1), z)
  {
    hide BigEndian;
    var e := b + Span(z, n - 1);
    match z
    case Byte =>
      LastByte(mem, b, e);
    case Word =>
      LastByte(mem, b, e);
      LastByte(mem, b, e + 1);
    case Long =>
      LastByte(mem, b, e);
      LastByte(mem, b, e + 1);
      LastByte(mem, b, e + 2);
      LastByte(mem, b, e + 3);
  }

  // ----- one limb -----

  /** r and carry out c are op applied to src, dst and carry in x, below a ceiling, with `lost` missing. */
  ghost predicate Balanced(op: AluOp, src: nat, dst: nat, x: bool, r: nat, c: bool, ceiling: nat, lost: nat) {
    if op.Add? then r + (if c then ceiling else 0) + lost == src + dst + (if x then 1 else 0)
    else r + src + (if x then 1 else 0) == dst + (if c then ceiling else 0) + lost
  }

  /** No carry or borrow leaves the limb. */
  predicate Fits(op: AluOp, src: nat, dst: nat, x: bool, z: Size) {
    if op.Add? then src + dst + (if x then 1 else 0) < Modulus(z) else dst >= src + (if x then 1 else 0)
  }

  /** What a limb fails to pass on: the carry flag is never set at long size. */
  function LimbLoss(op: AluOp, src: nat, dst: nat, x: bool, z: Size): nat {
    if z == Long && !Fits(op, src, dst, x, z) then Modulus(z) else 0
  }

  lemma LimbBalanced(op: AluOp, src: u32, dst: u32, x: bool, z: Size)
    requires op.Add? || op.Sub?
    requires src < Modulus(z) && dst < Modulus(z)
    ensures var v := Compute(op, src, dst, x);
            Balanced(op, src, dst, x, Truncate(v, z), IsCarry(v, z), Modulus(z), LimbLoss(op, src, dst, x, z))
  {
    hide Truncate, Wrap, IsCarry;
    var i := if x then 1 else 0;
    if op.Add? {
      Wrapped(src + dst + i, z);
    } else {
      Wrapped(dst - src - i, z);
    }
  }

  /** The long limb that shows it: 0xFFFFFFFF + 1 leaves neither a carry nor the sum. */
  lemma LongCarryIsLost()
    ensures var v := Compute(Add, 0xFFFF_FFFF, 1, false);
            !Balanced(Add, 0xFFFF_FFFF, 1, false, Truncate(v, Long), IsCarry(v, Long), Modulus(Long), 0)
  {
    Wrapped(0x1_0000_0000, Long);
  }

  // ----- one instruction -----

  predicate Plain(r: OperandReg, z: Size) {
    r >= 8 && !(r == A7 && z == Byte)
  }

  /** The registers other than PC, SR and the two pointers are the same, in the same privilege mode. */
  ghost predicate OthersKept(s: State, t: State, y: OperandReg, x: OperandReg) {
    && t.regs[SR] / 32 == s.regs[SR] / 32
    && HasFlag(t.regs[SR], Supervisor) == HasFlag(s.regs[SR], Supervisor)
    && forall r :: 0 <= r < 17 && r != Bank(s.regs, y) && r != Bank(s.regs, x) ==> t.regs[r] == s.regs[r]
  }

  /** What one ADDX or SUBX -(Ay),-(Ax) does when its two limbs sit at bytes i and j. */
  ghost predicate LimbStep(s: State, t: State, op: AluOp, y: OperandReg, x: OperandReg, z: Size, i: nat, j: nat)
    requires i + Bytes(z) <= |s.mem| && j + Bytes(z) <= |s.mem|
  {
    var v := Compute(op, ReadAt(s.mem, i, z), ReadAt(s.mem, j, z), ExtendFlag(s));
    && t.mem == WriteAt(s.mem, j, z, v)
    && Reg32(t, y) == Wrap(Reg32(s, y) - Bytes(z)) && Reg32(t, x) == Wrap(Reg32(s, x) - Bytes(z))
    && ExtendFlag(t) == IsCarry(v, z) && HasFlag(t.regs[SR], Carry) == IsCarry(v, z)
    && HasFlag(t.regs[SR], Zero) == (HasFlag(s.regs[SR], Zero) && IsZero(v, z))
    && Pc(t) == Wrap(Pc(s) + 2)
    && OthersKept(s, t, y, x)
  }

  lemma PreDecrementRead(s: State, r: OperandReg, z: Size, i: nat)
    requires Plain(r, z) && Locate(|s.mem|, Wrap(Reg32(s, r) - Bytes(z)), z) == Value(i)
    ensures GetDataSilent(s, PreDecrement, r, z) == Value(ReadAt(s.mem, i, z))
    ensures GetData(s, PreDecrement, r, z)
            == Ok(ReadAt(s.mem, i, z), s.(regs := s.regs[Bank(s.regs, r) := Wrap(Reg32(s, r) - Bytes(z))]))
  {
    hide Locate, ReadAt, Wrap;
  }

  lemma PreDecrementWrite(s: State, r: OperandReg, z: Size, i: nat, v: u32)
    requires Plain(r, z) && Locate(|s.mem|, Wrap(Reg32(s, r) - Bytes(z)), z) == Value(i)
    ensures SetData(s, PreDecrement, r, z, v)
            == Ok((), State(s.regs[Bank(s.regs, r) := Wrap(Reg32(s, r) - Bytes(z))], WriteAt(s.mem, i, z, v)))
  {
    hide Locate, WriteAt, Wrap;
  }

  /** The register file after one limb: PC, the two pointers and the codes. */
  function LimbRegs(f: RegFile, y: OperandReg, x: OperandReg, pc: u32, a: u32, b: u32, codes: u32): RegFile {
    f[PC := pc][Bank(f, y) := a][Bank(f, x) := b][SR := codes]
  }

  function LimbCodes(sr: u32, src: u32, dst: u32, v: u32, z: Size): u32 {
    WithCodes(sr, IsCarry(v, z), IsNegative(v, z), HasFlag(sr, Zero) && IsZero(v, z), IsOverflow(src, dst, z),
              IsCarry(v, z))
  }

  lemma ExecAluExtendIs(s: State, op: AluOp, y: OperandReg, x: OperandReg, z: Size, i: nat, j: nat)
    requires Plain(y, z) && Plain(x, z) && y != x
    requires Locate(|s.mem|, Wrap(Reg32(s, y) - Bytes(z)), z) == Value(i)
    requires Locate(|s.mem|, Wrap(Reg32(s, x) - Bytes(z)), z) == Value(j)
    ensures var src, dst := ReadAt(s.mem, i, z), ReadAt(s.mem, j, z);
            var v := Compute(op, src, dst, ExtendFlag(s));
            ExecAluExtend(s, op, PreDecrement, y, x, z)
            == Ok((), State(LimbRegs(s.regs, y, x, Wrap(Pc(s) + 2), Wrap(Reg32(s, y) - Bytes(z)),
                                     Wrap(Reg32(s, x) - Bytes(z)),
                                     LimbCodes(s.regs[SR], src, dst, v, z)),
                            WriteAt(s.mem, j, z, v)))
  {
    hide GetData, GetDataSilent, SetData, WithCodes, IsCarry, IsNegative, IsZero, IsOverflow;
    hide Locate, ReadAt, WriteAt, Compute, Wrap, HasFlag;
    var v := Compute(op, ReadAt(s.mem, i, z), ReadAt(s.mem, j, z), ExtendFlag(s));
    var s1 := Next(s);
    PreDecrementRead(s1, y, z, i);
    var s2 := s1.(regs := s1.regs[Bank(s1.regs, y) := Wrap(Reg32(s, y) - Bytes(z))]);
    PreDecrementRead(s2, x, z, j);
    PreDecrementWrite(s2, x, z, j, v);
  }

  lemma LimbRegisters(f: RegFile, y: OperandReg, x: OperandReg, pc: u32, a: u32, b: u32, codes: u32)
    requires y != x && HasFlag(codes, Supervisor) == HasFlag(f[SR], Supervisor)
    ensures var g := LimbRegs(f, y, x, pc, a, b, codes);
            && g[Bank(g, y)] == a && g[Bank(g, x)] == b && g[PC] == pc && g[SR] == codes
            && forall r :: 0 <= r < 17 && r != Bank(f, y) && r != Bank(f, x) ==> g[r] == f[r]
  {
    hide HasFlag;
  }

  lemma LimbCodesRead(sr: u32, src: u32, dst: u32, v: u32, z: Size)
    ensures var codes := LimbCodes(sr, src, dst, v, z);
            && HasFlag(codes, Extend) == IsCarry(v, z) && HasFlag(codes, Carry) == IsCarry(v, z)
            && HasFlag(codes, Zero) == (HasFlag(sr, Zero) && IsZero(v, z))
            && HasFlag(codes, Supervisor) == HasFlag(sr, Supervisor) && codes / 32 == sr / 32
  {
    hide WithCodes, HasFlag, IsCarry, IsNegative, IsZero, IsOverflow;
    CodesRead(sr, IsCarry(v, z), IsNegative(v, z), HasFlag(sr, Zero) && IsZero(v, z), IsOverflow(src, dst, z),
              IsCarry(v, z));
  }

  lemma LimbStepIs(s: State, t: State, op: AluOp, y: OperandReg, x: OperandReg, z: Size, i: nat, j: nat)
    requires y != x && i + Bytes(z) <= |s.mem| && j + Bytes(z) <= |s.mem|
    requires var src, dst := ReadAt(s.mem, i, z), ReadAt(s.mem, j, z);
             var v := Compute(op, src, dst, ExtendFlag(s));
             && t.mem == WriteAt(s.mem, j, z, v)
             && t.regs == LimbRegs(s.regs, y, x, Wrap(Pc(s) + 2), Wrap(Reg32(s, y) - Bytes(z)),
                                   Wrap(Reg32(s, x) - Bytes(z)),
                                   LimbCodes(s.regs[SR], src, dst, v, z))
    ensures LimbStep(s, t, op, y, x, z, i, j)
  {
    hide ReadAt, WriteAt, Compute, HasFlag, Wrap, IsCarry, IsZero, Bytes, LimbRegs, LimbCodes, Bank;
    var src, dst := ReadAt(s.mem, i, z), ReadAt(s.mem, j, z);
    var v := Compute(op, src, dst, ExtendFlag(s));
    var sr := s.regs[SR];
    LimbCodesRead(sr, src, dst, v, z);
    LimbRegisters(s.regs, y, x, Wrap(Pc(s) + 2), Wrap(Reg32(s, y) - Bytes(z)), Wrap(Reg32(s, x) - Bytes(z)),
                  LimbCodes(sr, src, dst, v, z));
  }

  lemma ExecLimb(s: State, op: AluOp, y: OperandReg, x: OperandReg, z: Size, i: nat, j: nat)
    requires Plain(y, z) && Plain(x, z) && y != x
    requires Locate(|s.mem|, Wrap(Reg32(s, y) - Bytes(z)), z) == Value(i)
    requires Locate(|s.mem|, Wrap(Reg32(s, x) - Bytes(z)), z) == Value(j)
    ensures var o := ExecAluExtend(s, op, PreDecrement, y, x, z);
            o.Ok? && LimbStep(s, o.state, op, y, x, z, i, j)
  {
    hide ExecAluExtend, ReadAt, WriteAt, Compute, LimbRegs, LimbCodes, Wrap, Reg32, LimbStep;
    ExecAluExtendIs(s, op, y, x, z, i, j);
    LimbStepIs(s, ExecAluExtend(s, op, PreDecrement, y, x, z).state, op, y, x, z, i, j);
  }

  // ----- the chain -----

  /** n executions of one instruction. */
  function Repeat(i: Instr, s: State, n: nat): Outcome<()>
    decreases n
  {
    if n == 0 then Ok((), s)
    else
      var (_, t) :- Execute(i, s);
      Repeat(i, t, n - 1)
  }

  /** Ar points just past the n limbs that start at byte b of memory. */
  ghost predicate PointsPast(s: State, r: OperandReg, z: Size, n: nat, b: nat) {
    && Wrap(Reg32(s, r) - Span(z, n)) % 0x100_0000 == b
    && b + Span(z, n) <= |s.mem| && b + Span(z, n) <= 0x100_0000
    && (z != Byte ==> b % 2 == 0)
  }

  /** The n-limb ranges at i and j do not overlap. */
  ghost predicate Apart(z: Size, n: nat, i: nat, j: nat) {
    i + Span(z, n) <= j || j + Span(z, n) <= i
  }

  lemma PointerAddress(at: u32, z: Size, n: nat)
    requires n > 0 && Wrap(at - Span(z, n)) % 0x100_0000 + Span(z, n) <= 0x100_0000
    ensures var a := Wrap(at - Bytes(z));
            && a % 0x100_0000 == Wrap(at - Span(z, n)) % 0x100_0000 + Span(z, n - 1)
            && Wrap(a - Span(z, n - 1)) == Wrap(at - Span(z, n))
  {
    var k := Span(z, n - 1);
    assert Span(z, n) == k + Bytes(z);
    hide Wrap, Span;
    BusOffset(at - Span(z, n), k);
    WrapAgain(at - Bytes(z), 0 - k);
    assert at - Span(z, n) + k == at - Bytes(z);
  }

  /** Predecrementing reaches the low limb, and leaves the pointer past the limbs above it. */
  lemma PointerStep(s: State, r: OperandReg, z: Size, n: nat, b: nat)
    requires n > 0 && PointsPast(s, r, z, n, b)
    ensures Locate(|s.mem|, Wrap(Reg32(s, r) - Bytes(z)), z) == Value(b + Span(z, n - 1))
    ensures forall t: State :: |t.mem| == |s.mem| && Reg32(t, r) == Wrap(Reg32(s, r) - Bytes(z)) ==>
              PointsPast(t, r, z, n - 1, b) && Wrap(Reg32(t, r) - Span(z, n - 1)) == Wrap(Reg32(s, r) - Span(z, n))
  {
    hide Wrap, Reg32;
    PointerAddress(Reg32(s, r), z, n);
    assert Span(z, n) == Span(z, n - 1) + Bytes(z);
    EvenSpan(b, z, n - 1);
    hide Span, Bytes;
  }

  lemma EvenSpan(b: nat, z: Size, n: nat)
    ensures z != Byte && b % 2 == 0 ==> (b + Span(z, n)) % 2 == 0
  {
    if z != Byte && b % 2 == 0 {
      Remainder(2, b / 2 + Span(z, n) / 2, 0);
    }
  }

  /** What the chain fails to carry between limbs, weighted by position. */
  ghost function Loss(op: AluOp, mem: seq<byte>, sb: nat, db: nat, z: Size, n: nat, x: bool): nat
    requires sb + Span(z, n) <= |mem| && db + Span(z, n) <= |mem|
    decreases n
  {
    if n == 0 then 0
    else
      var k := Span(z, n - 1);
      var src, dst := ReadAt(mem, sb + k, z), ReadAt(mem, db + k, z);
      LimbLoss(op, src, dst, x, z) + Scaled(z, Loss(op, mem, sb, db, z, n - 1, IsCarry(Compute(op, src, dst, x), z)))
  }

  ghost predicate SameBytes(m: seq<byte>, k: seq<byte>, b: nat, e: nat) {
    |m| == |k| && b <= e <= |m| && forall i :: b <= i < e ==> m[i] == k[i]
  }

  lemma SameRead(m: seq<byte>, k: seq<byte>, a: nat, z: Size)
    requires SameBytes(m, k, a, a + Bytes(z))
    ensures ReadAt(m, a, z) == ReadAt(k, a, z)
  {
  }

  lemma {:induction false} LossFrame(op: AluOp, m: seq<byte>, k: seq<byte>, sb: nat, db: nat, z: Size, n: nat, x: bool)
    requires SameBytes(m, k, sb, sb + Span(z, n)) && SameBytes(m, k, db, db + Span(z, n))
    ensures Loss(op, m, sb, db, z, n, x) == Loss(op, k, sb, db, z, n, x)
    decreases n
  {
    hide Compute, IsCarry, ReadAt, LimbLoss, Scaled;
    if n > 0 {
      var w := Span(z, n - 1);
      assert Span(z, n) == w + Bytes(z);
      hide Span, Bytes;
      SameRead(m, k, sb + w, z);
      SameRead(m, k, db + w, z);
      LossFrame(op, m, k, sb, db, z, n - 1, IsCarry(Compute(op, ReadAt(m, sb + w, z), ReadAt(m, db + w, z), x), z));
    }
  }

  lemma LossStep(op: AluOp, m: seq<byte>, sb: nat, db: nat, z: Size, n: nat, x: bool)
    requires n > 0 && sb + Span(z, n) <= |m| && db + Span(z, n) <= |m|
    ensures var k := Span(z, n - 1);
            && k + Bytes(z) == Span(z, n)
            && var src, dst := ReadAt(m, sb + k, z), ReadAt(m, db + k, z);
            Loss(op, m, sb, db, z, n, x)
            == LimbLoss(op, src, dst, x, z)
              + Scaled(z, Loss(op, m, sb, db, z, n - 1, IsCarry(Compute(op, src, dst, x), z)))
  {
    hide Compute, IsCarry, ReadAt, LimbLoss, Scaled;
  }

  /** A balanced low limb under a balanced high part. */
  lemma BalanceStep(op: AluOp, z: Size, src: nat, dst: nat, x: bool, r: nat, c: bool, lost: nat,
                    highSrc: nat, highDst: nat, highR: nat, highC: bool, ceiling: nat, highLost: nat)
    requires Balanced(op, src, dst, x, r, c, Modulus(z), lost)
    requires Balanced(op, highSrc, highDst, c, highR, highC, ceiling, highLost)
    ensures Balanced(op, Scaled(z, highSrc) + src, Scaled(z, highDst) + dst, x, Scaled(z, highR) + r, highC,
                     Scaled(z, ceiling), lost + Scaled(z, highLost))
  {
  }

  /** Everything a finished chain has done. */
  ghost predicate ChainDone(s: State, t: State, op: AluOp, y: OperandReg, x: OperandReg, z: Size, n: nat, sb: nat,
                            db: nat)
    requires sb + Span(z, n) <= |s.mem| && db + Span(z, n) <= |s.mem|
  {
    && |t.mem| == |s.mem| && (n == 0 ==> t == s)
    && Balanced(op, Number(s.mem, sb, z, n), Number(s.mem, db, z, n), ExtendFlag(s),
                Number(t.mem, db, z, n), ExtendFlag(t), Ceiling(z, n), Loss(op, s.mem, sb, db, z, n, ExtendFlag(s)))
    && (n > 0 ==> HasFlag(t.regs[SR], Carry) == ExtendFlag(t))
    && HasFlag(t.regs[SR], Zero) == (HasFlag(s.regs[SR], Zero) && Number(t.mem, db, z, n) == 0)
    && (forall i :: 0 <= i < |s.mem| && !(db <= i < db + Span(z, n)) ==> t.mem[i] == s.mem[i])
    && Reg32(t, y) == Wrap(Reg32(s, y) - Span(z, n)) && Reg32(t, x) == Wrap(Reg32(s, x) - Span(z, n))
    && Pc(t) == Wrap(Pc(s) + 2 * n)
    && OthersKept(s, t, y, x)
  }

  lemma NumberFrame(m: seq<byte>, k: seq<byte>, b: nat, z: Size, n: nat)
    requires SameBytes(m, k, b, b + Span(z, n))
    ensures Number(m, b, z, n) == Number(k, b, z, n)
  {
    assert m[b..b + Span(z, n)] == k[b..b + Span(z, n)];
  }

  /** The numbers in memory before (m), after the low limb (p), and after the limbs above it (q). */
  lemma LimbMemory(m: seq<byte>, p: seq<byte>, q: seq<byte>, z: Size, n: nat, sb: nat, db: nat, v: u32)
    requires n > 0 && sb + Span(z, n) <= |m| && db + Span(z, n) <= |m| && Apart(z, n, sb, db)
    requires p == WriteAt(m, db + Span(z, n - 1), z, v) && |q| == |m|
    requires forall i :: 0 <= i < |m| && !(db <= i < db + Span(z, n - 1)) ==> q[i] == p[i]
    ensures Number(m, sb, z, n) == Scaled(z, Number(p, sb, z, n - 1)) + ReadAt(m, sb + Span(z, n - 1), z)
    ensures Number(m, db, z, n) == Scaled(z, Number(p, db, z, n - 1)) + ReadAt(m, db + Span(z, n - 1), z)
    ensures Number(q, db, z, n) == Scaled(z, Number(q, db, z, n - 1)) + Truncate(v, z)
    ensures SameBytes(m, p, sb, sb + Span(z, n - 1)) && SameBytes(m, p, db, db + Span(z, n - 1))
  {
    hide ReadAt, WriteAt, Truncate, Number, Scaled;
    var w := Span(z, n - 1);
    assert Span(z, n) == w + Bytes(z);
    LowLimb(m, sb, z, n);
    LowLimb(m, db, z, n);
    LowLimb(q, db, z, n);
    ReadBack(m, db + w, z, v);
    SameRead(p, q, db + w, z);
    NumberFrame(m, p, sb, z, n - 1);
    NumberFrame(m, p, db, z, n - 1);
  }

  /** A balanced chain of n - 1 limbs (p to q, carry c at the end) above the low limb (m to p, carry x in). */
  lemma ChainNumbers(m: seq<byte>, p: seq<byte>, q: seq<byte>, op: AluOp, z: Size, n: nat, sb: nat, db: nat, x: bool,
                     v: u32, c: bool)
    requires op.Add? || op.Sub?
    requires n > 0 && sb + Span(z, n) <= |m| && db + Span(z, n) <= |m| && Apart(z, n, sb, db)
    requires v == Compute(op, ReadAt(m, sb + Span(z, n - 1), z), ReadAt(m, db + Span(z, n - 1), z), x)
    requires p == WriteAt(m, db + Span(z, n - 1), z, v) && |q| == |m|
    requires forall i :: 0 <= i < |m| && !(db <= i < db + Span(z, n - 1)) ==> q[i] == p[i]
    requires Balanced(op, Number(p, sb, z, n - 1), Number(p, db, z, n - 1), IsCarry(v, z), Number(q, db, z, n - 1), c,
                      Ceiling(z, n - 1), Loss(op, p, sb, db, z, n - 1, IsCarry(v, z)))
    ensures Balanced(op, Number(m, sb, z, n), Number(m, db, z, n), x, Number(q, db, z, n), c,
                     Ceiling(z, n), Loss(op, m, sb, db, z, n, x))
    ensures Number(q, db, z, n) == Scaled(z, Number(q, db, z, n - 1)) + Truncate(v, z)
  {
    hide Compute, ReadAt, WriteAt, Truncate, IsCarry, Number, LimbLoss, Balanced, Scaled, Apart, SameBytes, Ceiling;
    hide Loss;
    assert Span(z, n) == Span(z, n - 1) + Bytes(z);
    LimbMemory(m, p, q, z, n, sb, db, v);
    hide Span;
    LossFrame(op, m, p, sb, db, z, n - 1, IsCarry(v, z));
    LossStep(op, m, sb, db, z, n, x);
    var src, dst := ReadAt(m, sb + Span(z, n - 1), z), ReadAt(m, db + Span(z, n - 1), z);
    LimbBalanced(op, src, dst, x, z);
    BalanceStep(op, z, src, dst, x, Truncate(v, z), IsCarry(v, z), LimbLoss(op, src, dst, x, z),
                Number(p, sb, z, n - 1), Number(p, db, z, n - 1), Number(q, db, z, n - 1), c,
                Ceiling(z, n - 1), Loss(op, p, sb, db, z, n - 1, IsCarry(v, z)));
    CeilingStep(z, n);
  }

  lemma CeilingStep(z: Size, n: nat)
    requires n > 0
    ensures Ceiling(z, n) == Scaled(z, Ceiling(z, n - 1))
  {
  }

  function Chain(op: AluOp, y: OperandReg, x: OperandReg, z: Size, s: State, n: nat): Outcome<()> {
    Repeat(AluExtend(op, PreDecrement, y, x, z), s, n)
  }

  /** A limb followed by a finished chain of n - 1 limbs is a finished chain of n. */
  lemma ChainExtends(s: State, t: State, u: State, op: AluOp, y: OperandReg, x: OperandReg, z: Size, n: nat, sb: nat,
                     db: nat)
    requires op.Add? || op.Sub?
    requires n > 0 && PointsPast(s, y, z, n, sb) && PointsPast(s, x, z, n, db) && Apart(z, n, sb, db)
    requires sb + Span(z, n - 1) + Bytes(z) <= |s.mem| && db + Span(z, n - 1) + Bytes(z) <= |s.mem|
    requires LimbStep(s, t, op, y, x, z, sb + Span(z, n - 1), db + Span(z, n - 1))
    requires |t.mem| == |s.mem| && ChainDone(t, u, op, y, x, z, n - 1, sb, db)
    ensures ChainDone(s, u, op, y, x, z, n, sb, db)
  {
    hide Compute, ReadAt, WriteAt, IsCarry, Number, LimbLoss, Loss, Balanced, HasFlag, Reg32, Wrap, Locate, Bank;
    hide Scaled;
    hide Truncate, Apart, PointsPast, Ceiling, ExtendFlag;
    assert Span(z, n) == Span(z, n - 1) + Bytes(z);
    hide Span, Bytes;
    var v := Compute(op, ReadAt(s.mem, sb + Span(z, n - 1), z), ReadAt(s.mem, db + Span(z, n - 1), z), ExtendFlag(s));
    ChainNumbers(s.mem, t.mem, u.mem, op, z, n, sb, db, ExtendFlag(s), v, ExtendFlag(u));
    PointerStep(s, y, z, n, sb);
    PointerStep(s, x, z, n, db);
    WrapAgain(Pc(s) + 2, 2 * (n - 1));
    assert Pc(s) + 2 + 2 * (n - 1) == Pc(s) + 2 * n;
    ScaledZero(z, Number(u.mem, db, z, n - 1), Truncate(v, z));
    BanksKept(s, t, y, x);
  }

  lemma ScaledZero(z: Size, high: nat, low: nat)
    ensures Scaled(z, high) + low == 0 <==> high == 0 && low == 0
  {
  }

  lemma BanksKept(s: State, t: State, y: OperandReg, x: OperandReg)
    requires OthersKept(s, t, y, x)
    ensures Bank(t.regs, y) == Bank(s.regs, y) && Bank(t.regs, x) == Bank(s.regs, x)
  {
  }

  lemma {:induction false} ChainRuns(op: AluOp, y: OperandReg, x: OperandReg, z: Size, s: State, n: nat, sb: nat,
                                     db: nat)
    requires (op.Add? || op.Sub?) && Plain(y, z) && Plain(x, z) && y != x
    requires PointsPast(s, y, z, n, sb) && PointsPast(s, x, z, n, db) && Apart(z, n, sb, db)
    ensures Chain(op, y, x, z, s, n).Ok? && ChainDone(s, Chain(op, y, x, z, s, n).state, op, y, x, z, n, sb, db)
    decreases n
  {
    hide Reg32, Wrap, Locate, ExecAluExtend, LimbStep, ChainDone, Compute, Chain, Repeat, PointsPast, Plain, Apart;
    if n == 0 {
      ChainEmpty(op, y, x, z, s, sb, db);
    } else {
      PointerStep(s, y, z, n, sb);
      PointerStep(s, x, z, n, db);
      var i, j := sb + Span(z, n - 1), db + Span(z, n - 1);
      ExecLimb(s, op, y, x, z, i, j);
      var t := ExecAluExtend(s, op, PreDecrement, y, x, z).state;
      LimbPointers(s, t, op, y, x, z, i, j);
      ApartLess(z, n, sb, db);
      ChainRuns(op, y, x, z, t, n - 1, sb, db);
      ChainExtends(s, t, Chain(op, y, x, z, t, n - 1).state, op, y, x, z, n, sb, db);
      RepeatStep(op, y, x, z, s, n);
    }
  }

  lemma ApartLess(z: Size, n: nat, i: nat, j: nat)
    requires n > 0 && Apart(z, n, i, j)
    ensures Apart(z, n - 1, i, j)
  {
  }

  lemma ChainEmpty(op: AluOp, y: OperandReg, x: OperandReg, z: Size, s: State, sb: nat, db: nat)
    requires op.Add? || op.Sub?
    requires PointsPast(s, y, z, 0, sb) && PointsPast(s, x, z, 0, db)
    ensures Chain(op, y, x, z, s, 0) == Ok((), s) && ChainDone(s, s, op, y, x, z, 0, sb, db)
  {
    hide Execute, HasFlag, Bank;
    Remainder(0x1_0000_0000, 0, Reg32(s, y));
    Remainder(0x1_0000_0000, 0, Reg32(s, x));
    Remainder(0x1_0000_0000, 0, Pc(s));
    hide Reg32;
    assert Number(s.mem, sb, z, 0) == 0 && Number(s.mem, db, z, 0) == 0;
  }

  lemma LimbPointers(s: State, t: State, op: AluOp, y: OperandReg, x: OperandReg, z: Size, i: nat, j: nat)
    requires i + Bytes(z) <= |s.mem| && j + Bytes(z) <= |s.mem|
    requires LimbStep(s, t, op, y, x, z, i, j)
    ensures |t.mem| == |s.mem|
    ensures Reg32(t, y) == Wrap(Reg32(s, y) - Bytes(z)) && Reg32(t, x) == Wrap(Reg32(s, x) - Bytes(z))
  {
    hide Compute, WriteAt, ReadAt;
  }

  lemma RepeatStep(op: AluOp, y: OperandReg, x: OperandReg, z: Size, s: State, n: nat)
    requires n > 0 && ExecAluExtend(s, op, PreDecrement, y, x, z).Ok?
    ensures Chain(op, y, x, z, s, n) == Chain(op, y, x, z, ExecAluExtend(s, op, PreDecrement, y, x, z).state, n - 1)
  {
    hide ExecAluExtend;
  }

  // ----- what the chains compute -----

  lemma {:induction false} NumberBound(m: seq<byte>, b: nat, z: Size, n: nat)
    requires b + Span(z, n) <= |m|
    ensures Number(m, b, z, n) < Ceiling(z, n)
    decreases n
  {
    if n > 0 {
      NumberBound(m, b, z, n - 1);
      LowLimb(m, b, z, n);
      CeilingStep(z, n);
      hide Number, ReadAt, Ceiling;
    }
  }

  lemma {:induction false} SameNumber(p: seq<byte>, q: seq<byte>)
    requires |p| == |q| && BigEndian(p) == BigEndian(q)
    ensures p == q
  {
    if p != [] {
      var k := |p| - 1;
      SameNumber(p[..k], q[..k]);
      assert p == p[..k] + [p[k]] && q == q[..k] + [q[k]];
    }
  }

  /** Byte and word chains lose nothing. */
  lemma {:induction false} LossNone(op: AluOp, m: seq<byte>, sb: nat, db: nat, z: Size, n: nat, x: bool)
    requires sb + Span(z, n) <= |m| && db + Span(z, n) <= |m| && z != Long
    ensures Loss(op, m, sb, db, z, n, x) == 0
    decreases n
  {
    hide Compute, IsCarry, ReadAt;
    if n > 0 {
      var k := Span(z, n - 1);
      LossNone(op, m, sb, db, z, n - 1, IsCarry(Compute(op, ReadAt(m, sb + k, z), ReadAt(m, db + k, z), x), z));
    }
  }

  /** n executions of ADDX -(Ay),-(Ax), byte or word: the destination holds the sum modulo its
      ceiling, X is the carry out, and Z says whether everything so far was zero. */
  lemma AddChain(y: OperandReg, x: OperandReg, z: Size, s: State, n: nat, sb: nat, db: nat)
    requires Plain(y, z) && Plain(x, z) && y != x && z != Long
    requires PointsPast(s, y, z, n, sb) && PointsPast(s, x, z, n, db) && Apart(z, n, sb, db)
    ensures var o := Chain(Add, y, x, z, s, n);
            && o.Ok? && |o.state.mem| == |s.mem|
            && var total := Number(s.mem, sb, z, n) + Number(s.mem, db, z, n) + (if ExtendFlag(s) then 1 else 0);
            && Number(o.state.mem, db, z, n) == (if total < Ceiling(z, n) then total else total - Ceiling(z, n))
            && (ExtendFlag(o.state) <==> total >= Ceiling(z, n))
            && ChainDone(s, o.state, Add, y, x, z, n, sb, db)
  {
    hide Chain, Number, Wrap, Reg32, HasFlag, ExtendFlag, OthersKept;
    ChainRuns(Add, y, x, z, s, n, sb, db);
    LossNone(Add, s.mem, sb, db, z, n, ExtendFlag(s));
    NumberBound(s.mem, sb, z, n);
    NumberBound(s.mem, db, z, n);
    NumberBound(Chain(Add, y, x, z, s, n).state.mem, db, z, n);
  }

  /** n executions of SUBX -(Ay),-(Ax), byte or word: the difference, with X the borrow out. */
  lemma SubChain(y: OperandReg, x: OperandReg, z: Size, s: State, n: nat, sb: nat, db: nat)
    requires Plain(y, z) && Plain(x, z) && y != x && z != Long
    requires PointsPast(s, y, z, n, sb) && PointsPast(s, x, z, n, db) && Apart(z, n, sb, db)
    ensures var o := Chain(Sub, y, x, z, s, n);
            && o.Ok? && |o.state.mem| == |s.mem|
            && var take := Number(s.mem, sb, z, n) + (if ExtendFlag(s) then 1 else 0);
            && var from := Number(s.mem, db, z, n);
            && Number(o.state.mem, db, z, n) == (if from >= take then from - take else from + Ceiling(z, n) - take)
            && (ExtendFlag(o.state) <==> from < take)
            && ChainDone(s, o.state, Sub, y, x, z, n, sb, db)
  {
    hide Chain, Number, Wrap, Reg32, HasFlag, ExtendFlag, OthersKept;
    ChainRuns(Sub, y, x, z, s, n, sb, db);
    LossNone(Sub, s.mem, sb, db, z, n, ExtendFlag(s));
    NumberBound(s.mem, sb, z, n);
    NumberBound(s.mem, db, z, n);
    NumberBound(Chain(Sub, y, x, z, s, n).state.mem, db, z, n);
  }

  // ----- long chains -----

  /** No limb of a long chain carries out: only the lowest can see a carry in. */
  ghost predicate NoLimbCarries(op: AluOp, m: seq<byte>, sb: nat, db: nat, n: nat, x: bool)
    requires sb + Span(Long, n) <= |m| && db + Span(Long, n) <= |m|
  {
    forall k :: 0 <= k < n ==>
      Fits(op, ReadAt(m, sb + Span(Long, k), Long), ReadAt(m, db + Span(Long, k), Long), x && k == n - 1, Long)
  }

  lemma NoLimbCarriesStep(op: AluOp, m: seq<byte>, sb: nat, db: nat, n: nat, x: bool)
    requires n > 0 && sb + Span(Long, n) <= |m| && db + Span(Long, n) <= |m|
    ensures NoLimbCarries(op, m, sb, db, n, x) <==>
            (Fits(op, ReadAt(m, sb + Span(Long, n - 1), Long), ReadAt(m, db + Span(Long, n - 1), Long), x, Long)
             && NoLimbCarries(op, m, sb, db, n - 1, false))
  {
    hide Fits, ReadAt;
  }

  lemma NoLongCarry(v: u32)
    ensures !IsCarry(v, Long)
  {
  }

  lemma {:induction false} LossExact(op: AluOp, m: seq<byte>, sb: nat, db: nat, n: nat, x: bool)
    requires sb + Span(Long, n) <= |m| && db + Span(Long, n) <= |m|
    ensures Loss(op, m, sb, db, Long, n, x) == 0 <==> NoLimbCarries(op, m, sb, db, n, x)
    decreases n
  {
    hide ReadAt, Compute, IsCarry, Fits;
    if n > 0 {
      var k := Span(Long, n - 1);
      NoLongCarry(Compute(op, ReadAt(m, sb + k, Long), ReadAt(m, db + k, Long), x));
      LossExact(op, m, sb, db, n - 1, false);
      NoLimbCarriesStep(op, m, sb, db, n, x);
      hide NoLimbCarries;
    }
  }

  /** A long chain is a correct sum or difference exactly when no limb carries: the carry flag is
      never set at long size. */
  lemma LongChainExact(op: AluOp, y: OperandReg, x: OperandReg, s: State, n: nat, sb: nat, db: nat)
    requires (op.Add? || op.Sub?) && Plain(y, Long) && Plain(x, Long) && y != x
    requires PointsPast(s, y, Long, n, sb) && PointsPast(s, x, Long, n, db) && Apart(Long, n, sb, db)
    ensures var o := Chain(op, y, x, Long, s, n);
            && o.Ok? && |o.state.mem| == |s.mem|
            && (Balanced(op, Number(s.mem, sb, Long, n), Number(s.mem, db, Long, n), ExtendFlag(s),
                         Number(o.state.mem, db, Long, n), ExtendFlag(o.state), Ceiling(Long, n), 0)
                <==> NoLimbCarries(op, s.mem, sb, db, n, ExtendFlag(s)))
  {
    hide Chain, Number, Wrap, Reg32, HasFlag, ExtendFlag, OthersKept, NoLimbCarries;
    ChainRuns(op, y, x, Long, s, n, sb, db);
    LossExact(op, s.mem, sb, db, n, ExtendFlag(s));
  }

  ghost predicate OutsideSame(m: seq<byte>, k: seq<byte>, b: nat, e: nat) {
    |m| == |k| && forall i :: 0 <= i < |m| && !(b <= i < e) ==> k[i] == m[i]
  }

  /** Two writes inside one range that bring its number back bring its bytes back. */
  lemma RestoredMemory(m: seq<byte>, p: seq<byte>, q: seq<byte>, z: Size, n: nat, b: nat)
    requires b + Span(z, n) <= |m| && OutsideSame(m, p, b, b + Span(z, n)) && OutsideSame(p, q, b, b + Span(z, n))
    requires Number(q, b, z, n) == Number(m, b, z, n)
    ensures q == m
  {
    var e := b + Span(z, n);
    SameNumber(q[b..e], m[b..e]);
    assert forall i :: b <= i < e ==> q[i] == q[b..e][i - b] && m[i] == m[b..e][i - b];
    assert forall i :: 0 <= i < |m| ==> q[i] == m[i];
  }

  // ----- limb by limb -----

  /** Limb k after a chain of long limbs: each limb is combined on its own, the lowest with X. */
  ghost predicate LimbAlone(op: AluOp, m: seq<byte>, q: seq<byte>, sb: nat, db: nat, k: nat, x: bool)
    requires sb + Span(Long, k + 1) <= |m| && db + Span(Long, k + 1) <= |m| && |q| == |m|
  {
    var src, dst := ReadAt(m, sb + Span(Long, k), Long), ReadAt(m, db + Span(Long, k), Long);
    ReadAt(q, db + Span(Long, k), Long) == Truncate(Compute(op, src, dst, x), Long)
  }

  /** The limb just written, or a limb above it, once the chain above it has run. */
  lemma LimbAloneStep(op: AluOp, m: seq<byte>, p: seq<byte>, q: seq<byte>, sb: nat, db: nat, n: nat, k: nat, x: bool)
    requires k < n && sb + Span(Long, n) <= |m| && db + Span(Long, n) <= |m| && Apart(Long, n, sb, db)
    requires p == WriteAt(m, db + Span(Long, n - 1), Long,
                          Compute(op, ReadAt(m, sb + Span(Long, n - 1), Long), ReadAt(m, db + Span(Long, n - 1), Long),
                                  x))
    requires OutsideSame(p, q, db, db + Span(Long, n - 1))
    requires k < n - 1 ==> LimbAlone(op, p, q, sb, db, k, false)
    ensures LimbAlone(op, m, q, sb, db, k, x && k == n - 1)
  {
    hide WriteAt, ReadAt, Truncate, Compute;
    var w := Span(Long, n - 1);
    var src, dst := ReadAt(m, sb + w, Long), ReadAt(m, db + w, Long);
    if k == n - 1 {
      ReadBack(m, db + w, Long, Compute(op, src, dst, x));
      SameRead(p, q, db + w, Long);
    } else {
      ReadApart(m, db + w, Long, Compute(op, src, dst, x), sb + Span(Long, k), Long);
      ReadApart(m, db + w, Long, Compute(op, src, dst, x), db + Span(Long, k), Long);
    }
  }

  lemma {:induction false} LongLimbs(op: AluOp, y: OperandReg, x: OperandReg, s: State, n: nat, sb: nat, db: nat,
                                     k: nat)
    requires (op.Add? || op.Sub?) && Plain(y, Long) && Plain(x, Long) && y != x && k < n
    requires PointsPast(s, y, Long, n, sb) && PointsPast(s, x, Long, n, db) && Apart(Long, n, sb, db)
    ensures var o := Chain(op, y, x, Long, s, n);
            && o.Ok? && !ExtendFlag(o.state) && |o.state.mem| == |s.mem|
            && OutsideSame(s.mem, o.state.mem, db, db + Span(Long, n))
            && LimbAlone(op, s.mem, o.state.mem, sb, db, k, ExtendFlag(s) && k == n - 1)
    decreases n
  {
    hide Reg32, Wrap, Locate, ExecAluExtend, Compute, Chain, Repeat, PointsPast, Plain, Apart, ReadAt, WriteAt;
    hide ExtendFlag;
    hide IsCarry, LimbAlone, LimbStep, ChainDone;
    PointerStep(s, y, Long, n, sb);
    PointerStep(s, x, Long, n, db);
    var i, j := sb + Span(Long, n - 1), db + Span(Long, n - 1);
    ExecLimb(s, op, y, x, Long, i, j);
    var t := ExecAluExtend(s, op, PreDecrement, y, x, Long).state;
    LimbPointers(s, t, op, y, x, Long, i, j);
    LongLimbStep(s, t, op, y, x, i, j);
    ApartLess(Long, n, sb, db);
    RepeatStep(op, y, x, Long, s, n);
    ChainRuns(op, y, x, Long, s, n, sb, db);
    ChainRuns(op, y, x, Long, t, n - 1, sb, db);
    var u := Chain(op, y, x, Long, s, n).state;
    ChainOutside(s, u, op, y, x, n, sb, db);
    ChainOutside(t, u, op, y, x, n - 1, sb, db);
    hide OthersKept;
    if k < n - 1 {
      LongLimbs(op, y, x, t, n - 1, sb, db, k);
    } else if n > 1 {
      LongLimbs(op, y, x, t, n - 1, sb, db, 0);
    } else {
      ChainEmpty(op, y, x, Long, t, sb, db);
    }
    LimbAloneStep(op, s.mem, t.mem, u.mem, sb, db, n, k, ExtendFlag(s));
  }

  lemma LongLimbStep(s: State, t: State, op: AluOp, y: OperandReg, x: OperandReg, i: nat, j: nat)
    requires i + 4 <= |s.mem| && j + 4 <= |s.mem| && LimbStep(s, t, op, y, x, Long, i, j)
    ensures !ExtendFlag(t)
            && t.mem == WriteAt(s.mem, j, Long,
                                Compute(op, ReadAt(s.mem, i, Long), ReadAt(s.mem, j, Long), ExtendFlag(s)))
  {
    NoLongCarry(Compute(op, ReadAt(s.mem, i, Long), ReadAt(s.mem, j, Long), ExtendFlag(s)));
    hide Compute, WriteAt, ReadAt, IsCarry, OthersKept;
  }

  lemma ChainOutside(s: State, u: State, op: AluOp, y: OperandReg, x: OperandReg, n: nat, sb: nat, db: nat)
    requires sb + Span(Long, n) <= |s.mem| && db + Span(Long, n) <= |s.mem|
             && ChainDone(s, u, op, y, x, Long, n, sb, db)
    ensures OutsideSame(s.mem, u.mem, db, db + Span(Long, n))
  {
    hide Balanced, Number, Loss, OthersKept;
  }

  /** Equal limbs make equal numbers. */
  lemma {:induction false} SameLimbs(m: seq<byte>, q: seq<byte>, b: nat, z: Size, n: nat)
    requires b + Span(z, n) <= |m| && |q| == |m|
    requires forall k :: 0 <= k < n ==> ReadAt(q, b + Span(z, k), z) == ReadAt(m, b + Span(z, k), z)
    ensures Number(q, b, z, n) == Number(m, b, z, n)
    decreases n
  {
    hide Number, ReadAt, Scaled;
    if n == 0 {
      NumberFrame(q, m, b, z, 0);
    } else {
      SameLimbs(m, q, b, z, n - 1);
      LowLimb(m, b, z, n);
      LowLimb(q, b, z, n);
    }
  }

  /** Adding and then subtracting the same number, with the pointers and X put back in between,
      restores every byte of memory, and the borrow is the carry. */
  lemma AddThenSub(y: OperandReg, x: OperandReg, z: Size, s: State, t: State, n: nat, sb: nat, db: nat)
    requires Plain(y, z) && Plain(x, z) && y != x
    requires PointsPast(s, y, z, n, sb) && PointsPast(s, x, z, n, db) && Apart(z, n, sb, db)
    requires Chain(Add, y, x, z, s, n).Ok?
    requires t.mem == Chain(Add, y, x, z, s, n).state.mem && ExtendFlag(t) == ExtendFlag(s)
    requires Reg32(t, y) == Reg32(s, y) && Reg32(t, x) == Reg32(s, x)
    ensures var o := Chain(Sub, y, x, z, t, n);
            && o.Ok? && o.state.mem == s.mem
            && ExtendFlag(o.state) == ExtendFlag(Chain(Add, y, x, z, s, n).state)
  {
    hide Chain, Wrap, Reg32, HasFlag, ExtendFlag, OthersKept, Balanced, Number;
    ChainRuns(Add, y, x, z, s, n, sb, db);
    ChainRuns(Sub, y, x, z, t, n, sb, db);
    var u := Chain(Sub, y, x, z, t, n).state;
    var e := db + Span(z, n);
    assert OutsideSame(s.mem, t.mem, db, e) && OutsideSame(t.mem, u.mem, db, e);
    hide ChainDone, OutsideSame;
    if z == Long {
      LongUndone(y, x, s, t, n, sb, db);
    } else {
      CarriedUndone(y, x, z, s, t, n, sb, db);
    }
    hide PointsPast, Apart;
    RestoredMemory(s.mem, t.mem, u.mem, z, n, db);
  }

  /** Byte and word numbers: what the carry took out the borrow puts back. */
  lemma CarriedUndone(y: OperandReg, x: OperandReg, z: Size, s: State, t: State, n: nat, sb: nat, db: nat)
    requires Plain(y, z) && Plain(x, z) && y != x && z != Long
    requires PointsPast(s, y, z, n, sb) && PointsPast(s, x, z, n, db) && Apart(z, n, sb, db)
    requires PointsPast(t, y, z, n, sb) && PointsPast(t, x, z, n, db)
    requires Chain(Add, y, x, z, s, n).Ok?
    requires t.mem == Chain(Add, y, x, z, s, n).state.mem && ExtendFlag(t) == ExtendFlag(s)
    ensures var o := Chain(Sub, y, x, z, t, n);
            && o.Ok? && |o.state.mem| == |s.mem| && Number(o.state.mem, db, z, n) == Number(s.mem, db, z, n)
            && ExtendFlag(o.state) == ExtendFlag(Chain(Add, y, x, z, s, n).state)
  {
    hide Chain, Wrap, Reg32, HasFlag, ExtendFlag, OthersKept, Balanced, Number;
    AddChain(y, x, z, s, n, sb, db);
    NumberFrame(s.mem, t.mem, sb, z, n);
    SubChain(y, x, z, t, n, sb, db);
    hide ChainDone, PointsPast, Apart;
    NumberBound(s.mem, sb, z, n);
    NumberBound(s.mem, db, z, n);
  }

  /** Long numbers: every limb comes back by itself. */
  lemma LongUndone(y: OperandReg, x: OperandReg, s: State, t: State, n: nat, sb: nat, db: nat)
    requires Plain(y, Long) && Plain(x, Long) && y != x
    requires PointsPast(s, y, Long, n, sb) && PointsPast(s, x, Long, n, db) && Apart(Long, n, sb, db)
    requires PointsPast(t, y, Long, n, sb) && PointsPast(t, x, Long, n, db)
    requires Chain(Add, y, x, Long, s, n).Ok?
    requires t.mem == Chain(Add, y, x, Long, s, n).state.mem && ExtendFlag(t) == ExtendFlag(s)
    ensures var o := Chain(Sub, y, x, Long, t, n);
            && o.Ok? && |o.state.mem| == |s.mem| && Number(o.state.mem, db, Long, n) == Number(s.mem, db, Long, n)
            && ExtendFlag(o.state) == ExtendFlag(Chain(Add, y, x, Long, s, n).state)
  {
    hide Chain, Wrap, Reg32, ExtendFlag, Number, ReadAt, Plain, Apart, OutsideSame, LimbAlone;
    if n == 0 {
      ChainEmpty(Add, y, x, Long, s, sb, db);
      ChainEmpty(Sub, y, x, Long, t, sb, db);
      hide ChainDone;
    } else {
      LongLimbs(Add, y, x, s, n, sb, db, 0);
      LongLimbs(Sub, y, x, t, n, sb, db, 0);
      var u := Chain(Sub, y, x, Long, t, n).state;
      forall k | 0 <= k < n ensures ReadAt(u.mem, db + Span(Long, k), Long) == ReadAt(s.mem, db + Span(Long, k), Long) {
        LongLimbs(Add, y, x, s, n, sb, db, k);
        LongLimbs(Sub, y, x, t, n, sb, db, k);
        LimbUndone(s.mem, t.mem, u.mem, sb, db, n, k, ExtendFlag(s) && k == n - 1);
      }
      hide PointsPast;
      SameLimbs(s.mem, u.mem, db, Long, n);
    }
  }

  lemma LimbUndone(m: seq<byte>, p: seq<byte>, q: seq<byte>, sb: nat, db: nat, n: nat, k: nat, x: bool)
    requires k < n && sb + Span(Long, n) <= |m| && db + Span(Long, n) <= |m| && Apart(Long, n, sb, db)
    requires OutsideSame(m, p, db, db + Span(Long, n)) && |q| == |m|
    requires LimbAlone(Add, m, p, sb, db, k, x) && LimbAlone(Sub, p, q, sb, db, k, x)
    ensures ReadAt(q, db + Span(Long, k), Long) == ReadAt(m, db + Span(Long, k), Long)
  {
    SameRead(m, p, sb + Span(Long, k), Long);
    hide ReadAt, Compute, Truncate, OutsideSame;
    ImmediateUndo.AddSubValue(ReadAt(m, sb + Span(Long, k), Long), ReadAt(m, db + Span(Long, k), Long), x, Long);
  }
}
