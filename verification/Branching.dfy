// Where BRA, BSR and Bcc go, from the bytes of the instruction (src/instructions/bcc.cpp and the Bcc
// description in section 4 of M68000PM/AD).

module Branching {
  import opened Helpers
  import opened Memory
  import opened Registers
  import opened CpuState
  import opened Instructions

  /** The address a branch at PC names: a displacement byte other than 0 and 0xFF counts from the end of
      the opcode word, 0 announces a word and 0xFF a long after the opcode word. */
  function Target(s: State, d8: byte): Access<u32> {
    var at := Wrap(Pc(s) + 2);
    if d8 == 0 then
      var w :- MemGet(s.mem, at, Word);
      Value(Wrap(Pc(s) + 2 + (if w < 0x8000 then w else w - 0x1_0000)))
    else if d8 == 0xFF then
      var l :- MemGet(s.mem, at, Long);
      Value(Wrap(Pc(s) + 2 + l))
    else
      Value(Wrap(Pc(s) + 2 + (if d8 < 0x80 then d8 else d8 - 0x100)))
  }

  /** The address of the next instruction. */
  function After(s: State, d8: byte): u32 {
    Wrap(Pc(s) + (if d8 == 0 then 4 else if d8 == 0xFF then 6 else 2))
  }

  /** What the source reads, in those terms. */
  lemma DisplacementIs(s: State, d8: byte)
    ensures match Target(s, d8)
            case Fault(e) => BranchDisplacement(Next(s), d8) == Throw(e, Next(s))
            case Value(a) =>
              && BranchDisplacement(Next(s), d8).Ok?
              && Wrap(Wrap(Pc(s) + 2) + BranchDisplacement(Next(s), d8).value) == a
              && BranchDisplacement(Next(s), d8).state == SetPc(s, After(s, d8))
  {
    hide MemGet, Wrap;
    ByteDisplacement(d8);
    WrapAgain(Pc(s) + 2, 2);
    WrapAgain(Pc(s) + 2, 4);
    WrapAgain(Pc(s) + 2, 0);
    WrapAgain(Pc(s) + 4, 0);
    WrapAgain(Pc(s) + 6, 0);
    if d8 == 0 && MemGet(s.mem, Wrap(Pc(s) + 2), Word).Value? {
      var w := MemGet(s.mem, Wrap(Pc(s) + 2), Word).value;
      WordDisplacement(w);
      WrapAgain(Pc(s) + 2, Signed(w, Word));
    } else if d8 == 0xFF && MemGet(s.mem, Wrap(Pc(s) + 2), Long).Value? {
      var l := MemGet(s.mem, Wrap(Pc(s) + 2), Long).value;
      WrapAgain(Pc(s) + 2, Signed(l, Long));
      LongDisplacement(Pc(s) + 2, l);
    } else {
      WrapAgain(Pc(s) + 2, Signed(d8, Byte));
    }
    hide Signed;
  }

  lemma ByteDisplacement(d8: byte)
    ensures Signed(d8, Byte) == if d8 < 0x80 then d8 else d8 - 0x100
  {
  }

  lemma WordDisplacement(w: u32)
    requires w < 0x1_0000
    ensures Signed(w, Word) == if w < 0x8000 then w else w - 0x1_0000
  {
  }

  /** A long displacement may be read unsigned: it is added modulo 2^32. */
  lemma LongDisplacement(at: int, l: u32)
    ensures Wrap(at + Signed(l, Long)) == Wrap(at + l)
  {
    if Signed(l, Long) != l {
      Remainder(0x1_0000_0000, (at + l) / 0x1_0000_0000 - 1, (at + l) % 0x1_0000_0000);
      assert Signed(l, Long) == l - 0x1_0000_0000;
    }
  }

  /** BRA goes to its target; Bcc goes there if its condition holds and else to the next instruction;
      nothing but PC moves. BSR goes there once the address after the opcode word is pushed. */
  lemma BranchLands(s: State, cond: Condition, d8: byte)
    ensures var o := ExecBranch(s, cond, d8);
            match Target(s, d8)
            case Fault(e) => o == Throw(e, Next(s))
            case Value(a) =>
              if cond.False? then
                o.Ok? == StackPush(s, Long, Wrap(Pc(s) + 2)).Ok? && (o.Ok? ==> Pc(o.state) == a)
              else o == Ok((), SetPc(s, if cond.True? || CheckCondition(s, cond) then a else After(s, d8)))
  {
    DisplacementIs(s, d8);
    hide Target, BranchDisplacement, MemSet, Next;
    if Target(s, d8).Value? {
      var u := BranchDisplacement(Next(s), d8).state;
      SameConditions(s, u, cond);
      WrapAgain(Pc(s) + 2, BranchDisplacement(Next(s), d8).value);
    }
    hide CheckCondition, Wrap, After;
  }

  lemma SameConditions(s: State, t: State, cond: Condition)
    requires s.regs[SR] == t.regs[SR]
    ensures CheckCondition(t, cond) == CheckCondition(s, cond)
  {
    hide HasFlag;
  }

  /** A short branch never goes to the next instruction. */
  lemma ShortJump(s: State, d8: byte)
    requires d8 != 0 && d8 != 0xFF
    ensures Target(s, d8) != Value(After(s, d8))
  {
    var d: int := if d8 < 0x80 then d8 else d8 - 0x100;
    assert d != 0 && -128 <= d < 128;
  }
}
