// The CPU object: its state, its opcode table, and one step (src/cpu.cpp, include/cpu.hpp).

module Cpu {
  import opened Helpers
  import opened Memory
  import opened MemoryBuffer
  import opened RegisterBuffer
  import opened CpuInPlace
  import InstructionsInPlace
  import R = Registers
  import S = CpuState
  import I = Instructions
  import D = Decoder
  import M = Machine
  import Safety = RunSafety

  class CPU {
    const state: CPUState
    const opcodeTable: seq<I.Instr>

    ghost predicate Valid() {
      && state.Valid()
      && |opcodeTable| == 0x1_0000
      && forall k :: 0 <= k < 0x1_0000 ==> opcodeTable[k] == D.Decode(k)
    }

    ghost function View(): S.State
      requires Valid()
      reads state.memory.baseAddr, state.registers.regBuffer
    {
      state.View()
    }

    /** All registers start at zero, over a given memory buffer whose last byte is cleared. */
    constructor (buffer: array<byte>)
      requires buffer.Length > 0
      modifies buffer
      ensures Valid() && state.memory.baseAddr == buffer && fresh(state.registers.regBuffer)
      ensures forall i :: 0 <= i < 19 ==> View().regs[i] == 0
      ensures View().mem == old(buffer[..])[buffer.Length - 1 := 0]
    {
      var memory := new BaseMemory(buffer);
      var registers := new Registers();
      state := new CPUState(memory, registers);
      var table := D.NewDecoder();
      opcodeTable := table;
    }

    /** One step agrees with the step function. If it throws, memory, D0-D7, SR and the inactive
        stack pointer are as they were; if it returns, it has stayed in its privilege bank and
        written one window of memory. The step must not divide by zero or shift out of range. */
    method Step() returns (r: Access<()>)
      requires Valid() && !M.Step(View()).Undefined?
      modifies state.memory.baseAddr, state.registers.regBuffer
      ensures Agrees(r, View(), M.Step(old(View())))
      ensures if r.Fault? then Safety.Untouched(old(View()), View()) else Safety.Confined(old(View()), View())
    {
      Safety.StepContained(View());
      hide I.Execute, D.Decode, Safety.Untouched, Safety.Confined, CPUState.View;
      var pc := state.Pc();
      var opcode :- state.Load(pc, Word);
      r := InstructionsInPlace.Execute(opcodeTable[opcode], state);
    }
  }
}
