// The resolvers of src/cpu_state.cpp agree with one description of an operand: where it is
// (sections 2.2.1 to 2.2.18 of M68000PM/AD), how far PC moves, and how An moves.

module Addressing {
  import opened Helpers
  import opened Memory
  import opened Registers
  import opened CpuState
  import opened Instructions

  /** Extension bytes an operand occupies after the opcode word. */
  function EaLength(m: Mode, z: Size): nat {
    match m
    case Displacement | Index | PcDisplacement | PcIndex | AbsWord => 2
    case AbsLong => 4
    case Immediate => if z == Long then 4 else 2
    case _ => 0
  }

  datatype Cell = RegCell(r: OperandReg) | MemCell(address: u32)

  /** Where a writable operand is; absolute short addresses are sign-extended. */
  function Locus(s: State, m: Mode, r: OperandReg, z: Size): Access<Cell>
    requires IsMemoryAlterable(m)
  {
    match m
    case DirectData | DirectAddr => Value(RegCell(r))
    case Indirect | PostIncrement => Value(MemCell(Reg32(s, r)))
    case PreDecrement => Value(MemCell(Wrap(Reg32(s, r) - Stride(r, z))))
    case Displacement =>
      var d :- MemGet(s.mem, Pc(s), Word);
      Value(MemCell(Wrap(Reg32(s, r) + Signed(d, Word))))
    case Index =>
      var ext :- MemGet(s.mem, Pc(s), Word);
      Value(MemCell(Wrap(Reg32(s, r) + IndexOffset(s, ext))))
    case AbsWord =>
      var a :- MemGet(s.mem, Pc(s), Word);
      Value(MemCell(Wrap(Signed(a, Word))))
    case AbsLong =>
      var a :- MemGet(s.mem, Pc(s), Long);
      Value(MemCell(a))
  }

  function ReadCell(s: State, c: Cell, z: Size): Access<u32> {
    match c
    case RegCell(r) => Value(RegGet(s.regs, r, z))
    case MemCell(a) => MemGet(s.mem, a, z)
  }

  function WriteCell(s: State, c: Cell, z: Size, data: u32): Access<State> {
    match c
    case RegCell(r) => Value(SetReg(s, r, z, data))
    case MemCell(a) =>
      var m :- MemSet(s.mem, a, z, data);
      Value(s.(mem := m))
  }

  /** PC past the extension words, An past the operand. */
  function Moved(s: State, m: Mode, r: OperandReg, z: Size): State {
    match m
    case PostIncrement => SetReg(s, r, Long, Wrap(Reg32(s, r) + Stride(r, z)))
    case PreDecrement => SetReg(s, r, Long, Wrap(Reg32(s, r) - Stride(r, z)))
    case DirectData | DirectAddr | Indirect | Unknown => s
    case _ => SetPc(s, Pc(s) + EaLength(m, z))
  }

  /** The extension word of an absolute short operand, zero- and sign-extended, names one cell
      exactly when its top bit is clear. */
  lemma ShortAddress(a: u16)
    ensures Wrap(Signed(a, Word)) % 0x100_0000 == a <==> a < 0x8000
  {
  }

  /** getDataSilent reads the cell the operand is in. */
  lemma SilentReadsCell(s: State, m: Mode, r: OperandReg, z: Size)
    requires IsMemoryAlterable(m)
    ensures GetDataSilent(s, m, r, z)
            == (match Locus(s, m, r, z) case Value(c) => ReadCell(s, c, z) case Fault(e) => Fault(e))
  {
    hide MemGet, IndexOffset, Signed, Wrap, RegGet, Stride;
  }

  /** setData writes that same cell and moves PC and An once. */
  lemma SetDataWritesCell(s: State, m: Mode, r: OperandReg, z: Size, data: u32)
    requires IsMemoryAlterable(m)
    ensures var o := SetData(s, m, r, z, data);
            match Locus(s, m, r, z)
            case Fault(e) => o.Throw? && o.error == e
            case Value(c) =>
              match WriteCell(Moved(s, m, r, z), c, z, data)
              case Fault(e) => o.Throw? && o.error == e
              case Value(t) => o == Ok((), t)
  {
    hide MemGet, MemSet, IndexOffset, Signed, Wrap, RegGet, RegSet, Reg32, Stride;
    PcApart(s, Pc(s) + EaLength(m, z), r);
  }

  /** An absolute short operand whose address is zero-extended by one resolver and sign-extended by
      another to different cells. */
  predicate ShortHighOperand(s: State, m: Mode) {
    m.AbsWord? && MemGet(s.mem, Pc(s), Word).Value? && MemGet(s.mem, Pc(s), Word).value >= 0x8000
  }

  lemma GetDataMoves(s: State, m: Mode, r: OperandReg, z: Size)
    ensures var o := GetData(s, m, r, z);
            !o.Undefined? && (o.Ok? ==> o.state == Moved(s, m, r, z))
  {
    hide MemGet, IndexOffset, Signed, Wrap, RegGet, Stride, SetReg, Reg32;
  }

  lemma GetDataReads(s: State, m: Mode, r: OperandReg, z: Size)
    requires !ShortHighOperand(s, m)
    ensures var o := GetData(s, m, r, z);
            match GetDataSilent(s, m, r, z)
            case Fault(e) => o.Throw? && o.error == e
            case Value(v) => o.Ok? && o.value == v
  {
    hide MemGet, IndexOffset, Signed, Wrap, RegGet, Stride, SetReg, Reg32;
    if m.AbsWord? && MemGet(s.mem, Pc(s), Word).Value? {
      ShortSame(MemGet(s.mem, Pc(s), Word).value);
    }
  }

  /** getData moves PC and An as setData does, for every mode, and reads what getDataSilent reads,
      except through an absolute short address with its top bit set. */
  lemma GetDataAgrees(s: State, m: Mode, r: OperandReg, z: Size)
    ensures var o := GetData(s, m, r, z);
            && !o.Undefined? && (o.Ok? ==> o.state == Moved(s, m, r, z))
            && (!ShortHighOperand(s, m) ==>
                  match GetDataSilent(s, m, r, z)
                  case Fault(e) => o.Throw? && o.error == e
                  case Value(v) => o.Ok? && o.value == v)
  {
    hide GetData, GetDataSilent, Moved, ShortHighOperand;
    GetDataMoves(s, m, r, z);
    if !ShortHighOperand(s, m) {
      GetDataReads(s, m, r, z);
    }
  }

  lemma ShortSame(a: u32)
    requires a < 0x8000
    ensures Wrap(Signed(a, Word)) == a
  {
  }

  lemma CellReadBack(s: State, c: Cell, z: Size, data: u32)
    requires WriteCell(s, c, z, data).Value?
    ensures ReadCell(WriteCell(s, c, z, data).value, c, z) == Value(Truncate(data, z))
  {
    match c
    case RegCell(r) =>
      BlendRead(Reg32(s, r), data, z);
      hide Blend, Truncate;
    case MemCell(a) =>
      var at := Locate(|s.mem|, a, z).value;
      ReadBack(s.mem, at, z, data);
  }

  lemma BlendRead(was: u32, data: u32, z: Size)
    ensures Truncate(Blend(was, data, z), z) == Truncate(data, z)
  {
    match z
    case Byte => Remainder(0x100, was / 0x100, data % 0x100);
    case Word => Remainder(0x1_0000, was / 0x1_0000, data % 0x1_0000);
    case Long =>
  }

  /** Memory and every register but PC and SR are the same, in the same privilege mode. */
  ghost predicate Alike(s: State, t: State) {
    && t.mem == s.mem && t.regs[..17] == s.regs[..17]
    && HasFlag(t.regs[SR], Supervisor) == HasFlag(s.regs[SR], Supervisor)
  }

  lemma AlikeTrans(s: State, t: State, u: State)
    requires Alike(s, t) && Alike(t, u)
    ensures Alike(s, u)
  {
  }

  lemma AlikeReg(s: State, t: State, r: OperandReg)
    requires Alike(s, t)
    ensures Reg32(t, r) == Reg32(s, r)
  {
    assert t.regs[..17][Bank(s.regs, r)] == s.regs[..17][Bank(s.regs, r)];
  }

  lemma AlikeRead(s: State, t: State, c: Cell, z: Size)
    requires Alike(s, t)
    ensures ReadCell(t, c, z) == ReadCell(s, c, z)
  {
    assert forall r :: 0 <= r < 17 ==> t.regs[r] == t.regs[..17][r] && s.regs[r] == s.regs[..17][r];
    hide MemGet, HasFlag;
  }

  /** Read-modify-write: the silent read and the write name one cell, the write succeeds whenever
      the read does, PC and An move once, and reading the cell again gives the data at its size. */
  lemma ReadModifyWrite(s: State, m: Mode, r: OperandReg, z: Size, data: u32)
    requires IsMemoryAlterable(m)
    ensures var o := SetData(s, m, r, z, data);
            match GetDataSilent(s, m, r, z)
            case Fault(e) => o.Throw? && o.error == e
            case Value(v) =>
              && Locus(s, m, r, z).Value?
              && var c := Locus(s, m, r, z).value;
              && ReadCell(s, c, z) == Value(v)
              && WriteCell(Moved(s, m, r, z), c, z, data).Value?
              && o == Ok((), WriteCell(Moved(s, m, r, z), c, z, data).value)
              && ReadCell(o.state, c, z) == Value(Truncate(data, z))
  {
    SilentReadsCell(s, m, r, z);
    SetDataWritesCell(s, m, r, z, data);
    MovedKeepsMemory(s, m, r, z);
    if Locus(s, m, r, z).Value? {
      var c := Locus(s, m, r, z).value;
      if WriteCell(Moved(s, m, r, z), c, z, data).Value? {
        CellReadBack(Moved(s, m, r, z), c, z, data);
      }
    }
    hide GetDataSilent, SetData, Locus, Moved, Truncate;
  }

  /** From s to t one operand is written, PC and An move past it, and only codes differ besides. */
  ghost predicate Wrote(s: State, t: State, m: Mode, r: OperandReg, z: Size, c: Cell, v: u32) {
    var w := WriteCell(Moved(s, m, r, z), c, z, v);
    w.Value? && Alike(w.value, t) && Pc(t) == Pc(w.value)
  }

  /** From s to t one operand register may change, and codes; nothing else. */
  ghost predicate OnlyRegister(s: State, t: State, r: OperandReg) {
    && t.mem == s.mem && Pc(t) == Pc(s)
    && forall q: OperandReg :: q != r ==> Reg32(t, q) == Reg32(s, q)
  }

  lemma OnlyRegisterBy(s: State, t: State, r: OperandReg, z: Size, data: u32)
    requires Alike(SetReg(s, r, z, data), t) && Pc(t) == Pc(SetReg(s, r, z, data))
    ensures OnlyRegister(s, t, r)
  {
    hide Blend;
    forall q: OperandReg ensures Reg32(t, q) == Reg32(SetReg(s, r, z, data), q) {
      AlikeReg(SetReg(s, r, z, data), t, q);
    }
    hide Alike;
  }

  lemma WriteTruncated(s: State, c: Cell, z: Size, data: u32)
    ensures WriteCell(s, c, z, Truncate(data, z)) == WriteCell(s, c, z, data)
  {
    match c
    case RegCell(r) =>
      BlendTruncated(Reg32(s, r), data, z);
      hide Blend, Truncate;
    case MemCell(a) =>
      if Locate(|s.mem|, a, z).Value? {
        BytesTruncated(s.mem, Locate(|s.mem|, a, z).value, z, data);
      }
      hide WriteAt, Truncate;
  }

  lemma BlendTruncated(was: u32, data: u32, z: Size)
    ensures Blend(was, Truncate(data, z), z) == Blend(was, data, z)
  {
  }

  lemma BytesTruncated(mem: seq<byte>, a: nat, z: Size, data: u32)
    requires a + Bytes(z) <= |mem|
    ensures WriteAt(mem, a, z, Truncate(data, z)) == WriteAt(mem, a, z, data)
  {
    LowDigits(data);
  }

  lemma LowDigits(data: u32)
    ensures data % 0x1_0000 / 0x100 % 0x100 == data / 0x100 % 0x100 && data % 0x1_0000 % 0x100 == data % 0x100
  {
    var w, d := data / 0x100, data % 0x100;
    DigitsOf(w / 0x100, w % 0x100, d);
  }

  lemma DigitsOf(q: nat, h: nat, d: nat)
    requires h < 0x100 && d < 0x100
    ensures var v := 0x1_0000 * q + 0x100 * h + d;
            v % 0x1_0000 / 0x100 % 0x100 == h && v % 0x1_0000 % 0x100 == d && v / 0x100 % 0x100 == h
  {
    Remainder(0x1_0000, q, 0x100 * h + d);
    Remainder(0x100, h, d);
    Remainder(0x100, 0x100 * q + h, d);
    Remainder(0x100, q, h);
  }

  /** setData followed by anything that only sets codes. */
  lemma WroteBy(s: State, t: State, m: Mode, r: OperandReg, z: Size, data: u32)
    requires IsMemoryAlterable(m) && SetData(s, m, r, z, data).Ok?
    requires Alike(SetData(s, m, r, z, data).state, t) && Pc(t) == Pc(SetData(s, m, r, z, data).state)
    ensures Locus(s, m, r, z).Value?
            && var c := Locus(s, m, r, z).value;
            ReadCell(t, c, z) == Value(Truncate(data, z)) && Wrote(s, t, m, r, z, c, Truncate(data, z))
  {
    hide SetData, Locus, Moved, WriteCell, ReadCell, Truncate, Alike;
    SetDataWritesCell(s, m, r, z, data);
    var c := Locus(s, m, r, z).value;
    WriteTruncated(Moved(s, m, r, z), c, z, data);
    CellReadBack(Moved(s, m, r, z), c, z, data);
    AlikeRead(SetData(s, m, r, z, data).state, t, c, z);
  }

  lemma MovedKeepsMemory(s: State, m: Mode, r: OperandReg, z: Size)
    ensures Moved(s, m, r, z).mem == s.mem
  {
  }

  lemma MovedKeepsFlags(s: State, m: Mode, r: OperandReg, z: Size)
    ensures Moved(s, m, r, z).regs[SR] == s.regs[SR]
  {
  }

  lemma FlagsKept(s: State, m: Mode, r: OperandReg, z: Size)
    ensures GetData(s, m, r, z).Ok? ==> GetData(s, m, r, z).state.regs[SR] == s.regs[SR]
  {
    GetDataAgrees(s, m, r, z);
    MovedKeepsFlags(s, m, r, z);
    hide GetData, GetDataSilent, Moved;
  }

  lemma FlagsKeptBySet(s: State, m: Mode, r: OperandReg, z: Size, data: u32)
    requires IsMemoryAlterable(m)
    ensures SetData(s, m, r, z, data).Ok? ==> SetData(s, m, r, z, data).state.regs[SR] == s.regs[SR]
  {
    SetDataWritesCell(s, m, r, z, data);
    MovedKeepsFlags(s, m, r, z);
    hide SetData, Locus, Moved, MemSet, Blend, HasFlag;
  }

  /** What a store through an absolute short operand means to a load through the same operand:
      below 0x8000 the load sees the data, from 0x8000 on the store has gone elsewhere. */
  lemma ShortStoreThenLoad(s: State, r: OperandReg, z: Size, data: u32)
    requires MemGet(s.mem, Pc(s), Word).Value? && SetData(s, AbsWord, r, z, data).Ok?
    ensures var a := MemGet(s.mem, Pc(s), Word).value;
            var t := SetData(s, AbsWord, r, z, data).state;
            && (a < 0x8000 ==> MemGet(t.mem, a, z) == Value(Truncate(data, z)))
            && (a >= 0x8000 ==> MemGet(t.mem, a, z) == MemGet(s.mem, a, z))
  {
    hide SetData, ReadAt, WriteAt, Signed, Wrap;
    var a := MemGet(s.mem, Pc(s), Word).value;
    var w := Wrap(Signed(a, Word));
    var at := w % 0x100_0000;
    SetDataWritesCell(s, AbsWord, r, z, data);
    if a < 0x8000 {
      ShortSame(a);
      ReadBack(s.mem, at, z, data);
    } else {
      ShortHigh(a);
      if MemGet(s.mem, a, z).Value? {
        ReadApart(s.mem, at, z, data, a, z);
      }
    }
  }

  lemma ShortHigh(a: u16)
    requires a >= 0x8000
    ensures Wrap(Signed(a, Word)) % 0x100_0000 == 0xFF_0000 + a
  {
  }

  // ----- control addresses -----

  /** LEA's address is the one a load reads, with the same PC, for every control mode. */
  lemma ControlAddressLoads(s: State, m: Mode, r: OperandReg, z: Size)
    requires IsControl(m)
    ensures match GetControlAddress(s, m, r)
            case Ok(a, t) => GetData(s, m, r, z) == Load(t, a, z)
            case Throw(e, _) => GetData(s, m, r, z).Throw? && GetData(s, m, r, z).error == e
            case Undefined => false
  {
    hide MemGet, IndexOffset, Signed, Wrap;
  }

  /** It is also the one a store writes, except through an absolute short address with its top bit set. */
  lemma ControlAddressStores(s: State, m: Mode, r: OperandReg, z: Size, data: u32)
    requires IsControl(m) && IsMemoryAlterable(m)
    requires m.AbsWord? && MemGet(s.mem, Pc(s), Word).Value? ==> MemGet(s.mem, Pc(s), Word).value < 0x8000
    ensures match GetControlAddress(s, m, r)
            case Ok(a, t) =>
              var o, p := SetData(s, m, r, z, data), Store(t, a, z, data);
              if p.Ok? then o == p else o.Throw? && o.error == p.error
            case Throw(e, _) => SetData(s, m, r, z, data).Throw? && SetData(s, m, r, z, data).error == e
            case Undefined => false
  {
    if m.AbsWord? && MemGet(s.mem, Pc(s), Word).Value? {
      ShortSame(MemGet(s.mem, Pc(s), Word).value);
    }
    hide MemGet, MemSet, IndexOffset, Signed, Wrap;
  }

  /** LEA ea,An then a load through (An) is the load through ea: same value or fault, same PC. */
  lemma LeaThenIndirect(s: State, m: Mode, r: OperandReg, dr: OperandReg, z: Size)
    requires IsControl(m) && ExecLea(s, m, r, dr).Ok?
    ensures var t := ExecLea(s, m, r, dr).state;
            match GetData(Next(s), m, r, z)
            case Ok(v, u) => GetData(t, Indirect, dr, z) == Ok(v, t) && Pc(t) == Pc(u)
            case Throw(e, _) => GetData(t, Indirect, dr, z) == Throw(e, t)
            case Undefined => false
  {
    ControlAddressLoads(Next(s), m, r, z);
    var o := GetControlAddress(Next(s), m, r);
    var a, u := o.value, o.state;
    var t := SetReg(u, dr, Long, a);
    assert ExecLea(s, m, r, dr) == Ok((), t);
    assert Reg32(t, dr) == a && Pc(t) == Pc(u) && t.mem == u.mem;
    hide GetControlAddress, ExecLea, Next, MemGet;
  }
}
