// Where each addressing mode points, from the fields of its extension words (sections 2.2.3 to 2.2.17
// of M68000PM/AD; the four resolvers of src/cpu_state.cpp).

module OperandAddresses {
  import opened Helpers
  import opened Memory
  import opened Registers
  import opened CpuState
  import opened Addressing

  /** A word read as signed. */
  function Extended(w: u16): int {
    if w < 0x8000 then w else w - 0x1_0000
  }

  /** The four resolvers agree that the operand is at address `a`, with PC moved by n; x is what a store stores. */
  ghost predicate PointsAt(s: State, m: Mode, r: OperandReg, z: Size, x: u32, a: u32, n: nat) {
    var t := SetPc(s, Pc(s) + n);
    && GetControlAddress(s, m, r) == Ok(a, t)
    && GetData(s, m, r, z) == Load(t, a, z)
    && GetDataSilent(s, m, r, z) == MemGet(s.mem, a, z)
    && (m.Displacement? || m.Index? || m.AbsLong? ==>
          SetData(s, m, r, z, x) == Store(t, a, z, x) && Locus(s, m, r, z) == Value(MemCell(a)))
  }

  // ----- indexed modes -----

  /** The brief extension word: index register (D0-D7, then A0-A7), index size, a scale the 68000
      ignores, displacement. */
  function BriefWord(q: OperandReg, long: bool, scale: nat, d: byte): u16
    requires scale < 8
  {
    0x1000 * q + (if long then 0x800 else 0) + 0x100 * scale + d
  }

  /** The index register as signed long or word, plus the signed displacement byte. */
  function Indexed(s: State, q: OperandReg, long: bool, d: byte): int {
    var x := Reg32(s, q);
    var index := if long then (if x < 0x8000_0000 then x else x - 0x1_0000_0000) else Extended(x % 0x1_0000);
    index + (if d < 0x80 then d else d - 0x100)
  }

  /** Every word is a brief extension word. */
  lemma BriefFields(ext: u16)
    ensures ext == BriefWord(ext / 0x1000, ext / 0x800 % 2 == 1, ext / 0x100 % 8, ext % 0x100)
  {
    assert ext / 0x100 == 8 * (ext / 0x800) + ext / 0x100 % 8 && ext / 0x800 == 2 * (ext / 0x1000) + ext / 0x800 % 2;
  }

  lemma FieldsOfBrief(q: OperandReg, long: bool, scale: nat, d: byte)
    requires scale < 8
    ensures var e := BriefWord(q, long, scale, d);
            && e / 0x8000 % 2 == q / 8 && e / 0x1000 % 8 == q % 8 && (e / 0x800 % 2 == 1 <==> long) && e % 0x100 == d
  {
    var b := if long then 1 else 0;
    var e := BriefWord(q, long, scale, d);
    assert e / 0x100 == 0x10 * q + 8 * b + scale && e % 0x100 == d;
    assert e / 0x800 == 2 * q + b;
    assert e / 0x1000 == q;
    assert e / 0x8000 == q / 8;
  }

  lemma IndexOf(s: State, q: OperandReg, long: bool, scale: nat, d: byte)
    requires scale < 8
    ensures IndexOffset(s, BriefWord(q, long, scale, d)) == Indexed(s, q, long, d)
  {
    FieldsOfBrief(q, long, scale, d);
    var e := BriefWord(q, long, scale, d);
    hide BriefWord;
    assert GetRegisterType(e / 0x8000 % 2, e / 0x1000 % 8) == q;
    SignedParts(Reg32(s, q), e);
    hide Signed, Reg32;
  }

  lemma SignedParts(x: u32, e: u16)
    ensures Signed(x, Long) == if x < 0x8000_0000 then x else x - 0x1_0000_0000
    ensures Signed(x % 0x1_0000, Word) == Extended(x % 0x1_0000) && Signed(Truncate(x, Long), Long) == Signed(x, Long)
    ensures Signed(e, Byte) == if e % 0x100 < 0x80 then e % 0x100 else e % 0x100 - 0x100
  {
  }

  /** (d8,An,Xn) is An, (d8,PC,Xn) the address of the extension word, plus index and displacement. */
  lemma IndexedAddress(s: State, r: OperandReg, z: Size, x: u32, q: OperandReg, long: bool, scale: nat, d: byte)
    requires scale < 8 && MemGet(s.mem, Pc(s), Word) == Value(BriefWord(q, long, scale, d))
    ensures PointsAt(s, Index, r, z, x, Wrap(Reg32(s, r) + Indexed(s, q, long, d)), 2)
    ensures PointsAt(s, PcIndex, r, z, x, Wrap(Pc(s) + Indexed(s, q, long, d)), 2)
  {
    hide PointsAt, MemGet, IndexOffset, Indexed, BriefWord, Wrap, Reg32;
    IndexOf(s, q, long, scale, d);
    AddressIndexed(s, r, z, x, BriefWord(q, long, scale, d));
    PcIndexed(s, r, z, x, BriefWord(q, long, scale, d));
  }

  lemma AddressIndexed(s: State, r: OperandReg, z: Size, x: u32, ext: u16)
    requires MemGet(s.mem, Pc(s), Word) == Value(ext)
    ensures PointsAt(s, Index, r, z, x, Wrap(Reg32(s, r) + IndexOffset(s, ext)), 2)
  {
    hide MemGet, MemSet, IndexOffset, Wrap, Reg32;
  }

  lemma PcIndexed(s: State, r: OperandReg, z: Size, x: u32, ext: u16)
    requires MemGet(s.mem, Pc(s), Word) == Value(ext)
    ensures PointsAt(s, PcIndex, r, z, x, Wrap(Pc(s) + IndexOffset(s, ext)), 2)
  {
    hide MemGet, MemSet, IndexOffset, Wrap, Reg32;
  }

  // ----- displacements and absolute addresses -----

  /** (d16,An) is An, and (d16,PC) the address of the extension word, plus the signed word. */
  lemma DisplacedAddress(s: State, r: OperandReg, z: Size, x: u32, w: u16)
    requires MemGet(s.mem, Pc(s), Word) == Value(w)
    ensures PointsAt(s, Displacement, r, z, x, Wrap(Reg32(s, r) + Extended(w)), 2)
    ensures PointsAt(s, PcDisplacement, r, z, x, Wrap(Pc(s) + Extended(w)), 2)
  {
    assert Signed(w, Word) == Extended(w);
    hide MemGet, MemSet, Extended, Signed, Wrap, Reg32;
  }

  /** (xxx).L is the long after the opcode word; (xxx).W the word there, zero-extended for a load or a
      control address and sign-extended for a silent read or a store. */
  lemma AbsoluteAddress(s: State, r: OperandReg, z: Size, x: u32)
    ensures match MemGet(s.mem, Pc(s), Long)
            case Value(a) => PointsAt(s, AbsLong, r, z, x, a, 4)
            case Fault(_) => true
    ensures match MemGet(s.mem, Pc(s), Word)
            case Value(w) =>
              var t, a := SetPc(s, Pc(s) + 2), Wrap(Extended(w));
              && GetControlAddress(s, AbsWord, r) == Ok(w, t) && GetData(s, AbsWord, r, z) == Load(t, w, z)
              && GetDataSilent(s, AbsWord, r, z) == MemGet(s.mem, a, z)
              && (match MemSet(s.mem, a, z, x)
                  case Value(m) => SetData(s, AbsWord, r, z, x) == Ok((), t.(mem := m))
                  case Fault(e) => SetData(s, AbsWord, r, z, x) == Throw(e, s))
            case Fault(_) => true
  {
    assert forall w: u16 :: Signed(w, Word) == Extended(w);
    hide MemGet, MemSet, Extended, Signed, Wrap;
  }

  // ----- register indirect and immediate modes -----

  /** By how much (An)+ and -(An) move: 1, 2 or 4 bytes, and 2 for a byte through A7. */
  function Steps(r: OperandReg, z: Size): nat {
    match z
    case Byte => if r == 15 then 2 else 1
    case Word => 2
    case Long => 4
  }

  /** (An), (An)+ and -(An): the operand is at An, before or after it has moved. */
  lemma IndirectAddress(s: State, r: OperandReg, z: Size, x: u32)
    ensures var a, below := Reg32(s, r), Wrap(Reg32(s, r) - Steps(r, z));
            && GetControlAddress(s, Indirect, r) == Ok(a, s)
            && GetData(s, Indirect, r, z) == Load(s, a, z) && SetData(s, Indirect, r, z, x) == Store(s, a, z, x)
            && GetDataSilent(s, Indirect, r, z) == MemGet(s.mem, a, z) == GetDataSilent(s, PostIncrement, r, z)
            && GetDataSilent(s, PreDecrement, r, z) == MemGet(s.mem, below, z)
            && (match MemGet(s.mem, a, z)
                case Value(v) => GetData(s, PostIncrement, r, z) == Ok(v, SetReg(s, r, Long, Wrap(a + Steps(r, z))))
                case Fault(e) => GetData(s, PostIncrement, r, z) == Throw(e, s))
            && (match MemGet(s.mem, below, z)
                case Value(v) => GetData(s, PreDecrement, r, z) == Ok(v, SetReg(s, r, Long, below))
                case Fault(e) => GetData(s, PreDecrement, r, z) == Throw(e, s))
            && (match MemSet(s.mem, a, z, x)
                case Value(m) =>
                  SetData(s, PostIncrement, r, z, x) == Ok((), SetReg(s, r, Long, Wrap(a + Steps(r, z))).(mem := m))
                case Fault(e) => SetData(s, PostIncrement, r, z, x) == Throw(e, s))
            && (match MemSet(s.mem, below, z, x)
                case Value(m) => SetData(s, PreDecrement, r, z, x) == Ok((), SetReg(s, r, Long, below).(mem := m))
                case Fault(e) => SetData(s, PreDecrement, r, z, x) == Throw(e, s))
  {
    assert Stride(r, z) == Steps(r, z);
    hide Stride, Steps, MemGet, MemSet, Wrap, Reg32, RegSet;
  }

  /** An immediate operand is the word or long after the opcode word, a byte the low half of the word. */
  lemma ImmediateOperand(s: State, r: OperandReg, z: Size)
    ensures match MemGet(s.mem, Pc(s), if z == Long then Long else Word)
            case Value(v) =>
              GetData(s, Immediate, r, z)
              == Ok(if z == Byte then v % 0x100 else v, SetPc(s, Pc(s) + (if z == Long then 4 else 2)))
            case Fault(e) => GetData(s, Immediate, r, z) == Throw(e, s)
  {
    hide MemGet;
  }
}
