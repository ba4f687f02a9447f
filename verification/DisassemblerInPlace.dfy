// DISASSEMBLER::effectiveAddress on the CPU state object (src/disassembler.cpp): it prints an
// operand and moves PC past it. Only the move is modelled.

module DisassemblerInPlace {
  import opened Helpers
  import opened Memory
  import opened CpuInPlace
  import S = CpuState
  import D = Disassembler

  /** Moves PC past an operand's extension words, and modifies nothing but registers. */
  method EffectiveAddress(c: CPUState, m: Mode, z: Size) returns (r: Access<()>)
    requires c.Valid()
    modifies c.registers.regBuffer
    ensures Agrees(r, c.View(), D.EffectiveAddress(old(c.View()), m, z))
  {
    hide MemGet, S.SetPc, CPUState.View;
    var pc: int := c.Pc();
    match m {
      case Displacement | Index | PcDisplacement | PcIndex | AbsWord =>
        var _ :- c.Load(pc, Word);
        c.SetPc(pc + 2);
      case AbsLong =>
        var _ :- c.Load(pc, Long);
        c.SetPc(pc + 4);
      case Immediate =>
        var y := if z == Long then Long else Word;
        var _ :- c.Load(pc, y);
        c.SetPc(pc + Bytes(y));
      case _ =>
    }
    return Value(());
  }
}
