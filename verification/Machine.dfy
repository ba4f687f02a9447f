// Fetch, decode, execute (src/cpu.cpp).

module Machine {
  import opened Helpers
  import opened Memory
  import opened CpuState
  import opened Instructions
  import opened Decoder

  function Step(s: State): Outcome<()> {
    match MemGet(s.mem, Pc(s), Word)
    case Fault(e) => Throw(e, s)
    case Value(opcode) => Execute(Decode(opcode), s)
  }
}
