// CPU state, stack access, the four effective-address resolvers and the condition test
// (src/cpu_state.cpp, and the field mappings of src/instructions/instruction.cpp).
// The four resolvers are separate switches in the source and stay separate here, so that
// their agreement is something to prove.

module CpuState {
  import opened Helpers
  import opened Memory
  import opened Registers

  datatype State = State(regs: RegFile, mem: seq<byte>)

  /** A call on the CPU state: it returns, throws from the state it has reached, or does
      something C++ gives no meaning to (a zero divisor, an out-of-range shift count). */
  datatype Outcome<+T> = Ok(value: T, state: State) | Throw(error: Error, state: State) | Undefined {
    predicate IsFailure() { !Ok? }
    function PropagateFailure<U>(): Outcome<U>
      requires !Ok?
    {
      match this
      case Throw(e, s) => Throw(e, s)
      case Undefined => Undefined
    }
    function Extract(): (T, State)
      requires Ok?
    {
      (value, state)
    }
  }

  function Load(s: State, address: u32, z: Size): Outcome<u32> {
    match MemGet(s.mem, address, z)
    case Value(v) => Ok(v, s)
    case Fault(e) => Throw(e, s)
  }

  function Store(s: State, address: u32, z: Size, data: u32): Outcome<()> {
    match MemSet(s.mem, address, z, data)
    case Value(m) => Ok((), s.(mem := m))
    case Fault(e) => Throw(e, s)
  }

  function Pc(s: State): u32 {
    s.regs[PC]
  }

  function SetPc(s: State, pc: int): State {
    s.(regs := s.regs[PC := Wrap(pc)])
  }

  function Reg32(s: State, r: Reg): u32 {
    s.regs[Bank(s.regs, r)]
  }

  function SetReg(s: State, r: Reg, z: Size, data: u32): State {
    s.(regs := RegSet(s.regs, r, z, data))
  }

  // ----- stack -----

  function StackPop(s: State, z: Size): Outcome<u32> {
    var sp := Reg32(s, A7);
    var (data, s1) :- Load(s, sp, z);
    Ok(data, SetReg(s1, A7, Long, Wrap(sp + Bytes(z))))
  }

  function StackPush(s: State, z: Size, data: u32): Outcome<()> {
    var sp := Wrap(Reg32(s, A7) - Bytes(z));
    Store(SetReg(s, A7, Long, sp), sp, z, data)
  }

  // ----- operand fields -----

  function GetAddressingMode(modePart: nat, regPart: nat): Mode {
    match modePart
    case 0 => DirectData
    case 1 => DirectAddr
    case 2 => Indirect
    case 3 => PostIncrement
    case 4 => PreDecrement
    case 5 => Displacement
    case 6 => Index
    case _ =>
      match regPart
      case 0 => AbsWord
      case 1 => AbsLong
      case 2 => PcDisplacement
      case 3 => PcIndex
      case 4 => Immediate
      case _ => Unknown
  }

  function GetRegisterType(modePart: nat, regPart: nat): OperandReg
    requires regPart < 8
  {
    if modePart == 0 then regPart else regPart + 8
  }

  /** Step of (An)+ and -(An): a byte through A7 moves it by two. */
  function Stride(r: OperandReg, z: Size): (n: nat)
    ensures Bytes(z) <= n <= 4
  {
    if r == A7 && z == Byte then 2 else Bytes(z)
  }

  /** Signed index plus 8-bit displacement of a brief extension word. */
  function IndexOffset(s: State, ext: u32): int {
    var r := GetRegisterType(ext / 0x8000 % 2, ext / 0x1000 % 8);
    var z := if ext / 0x800 % 2 == 1 then Long else Word;
    Signed(RegGet(s.regs, r, z), z) + Signed(ext, Byte)
  }

  // ----- effective addresses -----

  function GetControlAddress(s: State, m: Mode, r: OperandReg): Outcome<u32> {
    var pc := Pc(s);
    match m
    case Indirect => Ok(Reg32(s, r), s)
    case Displacement =>
      var (d, s1) :- Load(s, pc, Word);
      Ok(Wrap(Reg32(s, r) + Signed(d, Word)), SetPc(s1, pc + 2))
    case Index =>
      var (ext, s1) :- Load(s, pc, Word);
      Ok(Wrap(Reg32(s, r) + IndexOffset(s, ext)), SetPc(s1, pc + 2))
    case PcDisplacement =>
      var (d, s1) :- Load(s, pc, Word);
      Ok(Wrap(pc + Signed(d, Word)), SetPc(s1, pc + 2))
    case PcIndex =>
      var (ext, s1) :- Load(s, pc, Word);
      Ok(Wrap(pc + IndexOffset(s, ext)), SetPc(s1, pc + 2))
    case AbsWord =>
      Load(SetPc(s, pc + 2), pc, Word)
    case AbsLong =>
      Load(SetPc(s, pc + 4), pc, Long)
    case _ => Ok(0, s)
  }

  function GetData(s: State, m: Mode, r: OperandReg, z: Size): Outcome<u32> {
    var pc := Pc(s);
    match m
    case DirectData => Ok(RegGet(s.regs, r, z), s)
    case DirectAddr => Ok(RegGet(s.regs, r, z), s)
    case Indirect => Load(s, Reg32(s, r), z)
    case PostIncrement =>
      var a := Reg32(s, r);
      var (v, s1) :- Load(s, a, z);
      Ok(v, SetReg(s1, r, Long, Wrap(a + Stride(r, z))))
    case PreDecrement =>
      var a := Wrap(Reg32(s, r) - Stride(r, z));
      var (v, s1) :- Load(s, a, z);
      Ok(v, SetReg(s1, r, Long, a))
    case Displacement =>
      var (d, s1) :- Load(s, pc, Word);
      Load(SetPc(s1, pc + 2), Wrap(Reg32(s, r) + Signed(d, Word)), z)
    case Index =>
      var (ext, s1) :- Load(s, pc, Word);
      Load(SetPc(s1, pc + 2), Wrap(Reg32(s, r) + IndexOffset(s, ext)), z)
    case PcDisplacement =>
      var (d, s1) :- Load(s, pc, Word);
      Load(SetPc(s1, pc + 2), Wrap(pc + Signed(d, Word)), z)
    case PcIndex =>
      var (ext, s1) :- Load(s, pc, Word);
      Load(SetPc(s1, pc + 2), Wrap(pc + IndexOffset(s, ext)), z)
    case AbsWord =>
      var (a, s1) :- Load(s, pc, Word);
      Load(SetPc(s1, pc + 2), a, z)
    case AbsLong =>
      var (a, s1) :- Load(s, pc, Long);
      Load(SetPc(s1, pc + 4), a, z)
    case Immediate =>
      var y := if z == Long then Long else Word;
      var (v, s1) :- Load(s, pc, y);
      Ok(if z == Byte then v % 0x100 else v, SetPc(s1, pc + Bytes(y)))
    case Unknown => Ok(0, s)
  }

  /** The read half of a read-modify-write: no register moves. */
  function GetDataSilent(s: State, m: Mode, r: OperandReg, z: Size): Access<u32> {
    var pc := Pc(s);
    match m
    case DirectData => Value(RegGet(s.regs, r, z))
    case DirectAddr => Value(RegGet(s.regs, r, z))
    case Indirect => MemGet(s.mem, Reg32(s, r), z)
    case PostIncrement => MemGet(s.mem, Reg32(s, r), z)
    case PreDecrement => MemGet(s.mem, Wrap(Reg32(s, r) - Stride(r, z)), z)
    case Displacement =>
      var d :- MemGet(s.mem, pc, Word);
      MemGet(s.mem, Wrap(Reg32(s, r) + Signed(d, Word)), z)
    case Index =>
      var ext :- MemGet(s.mem, pc, Word);
      MemGet(s.mem, Wrap(Reg32(s, r) + IndexOffset(s, ext)), z)
    case PcDisplacement =>
      var d :- MemGet(s.mem, pc, Word);
      MemGet(s.mem, Wrap(pc + Signed(d, Word)), z)
    case PcIndex =>
      var ext :- MemGet(s.mem, pc, Word);
      MemGet(s.mem, Wrap(pc + IndexOffset(s, ext)), z)
    case AbsWord =>
      var a :- MemGet(s.mem, pc, Word);
      MemGet(s.mem, Wrap(Signed(a, Word)), z)
    case AbsLong =>
      var a :- MemGet(s.mem, pc, Long);
      MemGet(s.mem, a, z)
    case Immediate =>
      var y := if z == Long then Long else Word;
      var v :- MemGet(s.mem, pc, y);
      Value(if z == Byte then v % 0x100 else v)
    case Unknown => Value(0)
  }

  function SetData(s: State, m: Mode, r: OperandReg, z: Size, data: u32): Outcome<()> {
    var pc := Pc(s);
    match m
    case DirectData => Ok((), SetReg(s, r, z, data))
    case DirectAddr => Ok((), SetReg(s, r, z, data))
    case Indirect => Store(s, Reg32(s, r), z, data)
    case PostIncrement =>
      var a := Reg32(s, r);
      var (_, s1) :- Store(s, a, z, data);
      Ok((), SetReg(s1, r, Long, Wrap(a + Stride(r, z))))
    case PreDecrement =>
      var a := Wrap(Reg32(s, r) - Stride(r, z));
      var (_, s1) :- Store(s, a, z, data);
      Ok((), SetReg(s1, r, Long, a))
    case Displacement =>
      var (d, s1) :- Load(s, pc, Word);
      Store(SetPc(s1, pc + 2), Wrap(Reg32(s, r) + Signed(d, Word)), z, data)
    case Index =>
      var (ext, s1) :- Load(s, pc, Word);
      Store(SetPc(s1, pc + 2), Wrap(Reg32(s, r) + IndexOffset(s, ext)), z, data)
    case AbsWord =>
      var (a, s1) :- Load(s, pc, Word);
      var (_, s2) :- Store(s1, Wrap(Signed(a, Word)), z, data);
      Ok((), SetPc(s2, pc + 2))
    case AbsLong =>
      var (a, s1) :- Load(s, pc, Long);
      Store(SetPc(s1, pc + 4), a, z, data)
    case _ => Ok((), s)
  }

  // ----- conditions -----

  predicate CheckCondition(s: State, cond: Condition) {
    var n := HasFlag(s.regs[SR], Negative);
    var z := HasFlag(s.regs[SR], Zero);
    var v := HasFlag(s.regs[SR], Overflow);
    var c := HasFlag(s.regs[SR], Carry);
    match cond
    case True => true
    case False => false
    case Higher => !c && !z
    case LowerSame => c || z
    case CarryClear => !c
    case CarrySet => c
    case NotEqual => !z
    case Equal => z
    case OverflowClear => !v
    case OverflowSet => v
    case Plus => !n
    case Minus => n
    case GreaterEqual => (n && v) || (!n && !v)
    case LessThan => (n && !v) || (!n && v)
    case GreaterThan => (n && v && !z) || (!n && !v && !z)
    case LessEqual => (n && !v) || ((!n && v) || z)
  }

  /** The state with its five condition codes replaced. */
  function SetCodes(s: State, x: bool, n: bool, z: bool, v: bool, c: bool): State {
    s.(regs := s.regs[SR := WithCodes(s.regs[SR], x, n, z, v, c)])
  }

  predicate ExtendFlag(s: State) {
    HasFlag(s.regs[SR], Extend)
  }

  /** A long write to an operand register replaces exactly the cell it is banked to. */
  lemma SetLong(s: State, r: OperandReg, v: u32)
    ensures SetReg(s, r, Long, v) == s.(regs := s.regs[Bank(s.regs, r) := v])
    ensures Reg32(SetReg(s, r, Long, v), r) == v
    ensures forall q: OperandReg :: q != r ==> Reg32(SetReg(s, r, Long, v), q) == Reg32(s, q)
  {
  }

  lemma PcApart(s: State, pc: int, r: OperandReg)
    ensures Reg32(SetPc(s, pc), r) == Reg32(s, r)
  {
  }
}
