// The call and frame discipline for runs of CPU::step: each step on a decoded JSR, BSR, RTS, LINK
// or UNLK is the event of that name, or an ordinary step if it leaves the live stack alone. (src/cpu.cpp)

module CallSteps {
  import opened Helpers
  import opened Memory
  import opened Registers
  import opened CpuState
  import opened Instructions
  import opened Decoder
  import opened Machine
  import opened Addressing
  import opened CallDiscipline

  /** The instruction a step executes. */
  function Fetched(s: State): Instr {
    match MemGet(s.mem, Pc(s), Word)
    case Value(opcode) => Decode(opcode)
    case Fault(_) => Illegal
  }

  /** What an instruction is to the stack; BRA and Bcc are ordinary steps. */
  function EventOf(i: Instr): Event {
    match i
    case Jsr(m, r) => Call(m, r)
    case Branch(cond, d8) => if cond.False? then BranchCall(d8) else Body
    case Rts => Return
    case Link(r) => Enter(r)
    case Unlk(r) => Leave(r)
    case _ => Body
  }

  /** One successful step of the machine, with the shadow stack beside it: the event of its instruction,
      or, for a stack instruction used for something else (an RTS on an address just pushed, say), a
      step that respects what is live like any other. */
  ghost predicate Steps(c: Config, d: Config, base: u32) {
    Step(c.s) == Ok((), d.s) && (Tracked(c, EventOf(Fetched(c.s)), d, base) || Respects(c, d, base))
  }

  ghost function EventAt(c: Config, d: Config, base: u32): Event {
    if Tracked(c, EventOf(Fetched(c.s)), d, base) then EventOf(Fetched(c.s)) else Body
  }

  lemma StepExecutes(s: State)
    requires Step(s).Ok?
    ensures Step(s) == Execute(Fetched(s), s) && WellFormed(Fetched(s))
  {
    DecodeWellFormed(MemGet(s.mem, Pc(s), Word).value);
    hide Decode, Execute, WellFormed, MemGet;
  }

  /** A step that puts an entry on the shadow stack or takes one off is the event of its instruction;
      every step is that event or respects the live stack. */
  lemma StepHappens(c: Config, d: Config, base: u32)
    requires Steps(c, d, base)
    ensures Happens(c, EventAt(c, d, base), d, base)
    ensures d.shadow != c.shadow ==> EventAt(c, d, base) == EventOf(Fetched(c.s))
  {
    hide Fetched, Step;
    StepExecutes(c.s);
    EventExecutes(Fetched(c.s), c.s, d.s);
    hide Execute, EventOf, WellFormed, ExecJsr, ExecBranch, ExecRts, ExecLink, ExecUnlk;
    BodyHappens(c, d, base);
    hide Tracked, Respects, Executes;
  }

  lemma BodyHappens(c: Config, d: Config, base: u32)
    ensures Respects(c, d, base) ==> Happens(c, Body, d, base) && d.shadow == c.shadow
  {
  }

  lemma EventExecutes(i: Instr, s: State, t: State)
    requires WellFormed(i) && Execute(i, s) == Ok((), t)
    ensures Executes(s, EventOf(i), t)
  {
    hide ExecAlu, ExecAluQuick, ExecAluAddress, ExecAluExtend, ExecCompare, ExecTst, ExecClr, ExecNeg, ExecMove;
    hide ExecMovea;
    hide ExecMoveq, ExecExt, ExecMul, ExecDiv, ExecBitManip, ExecBitShift, ExecLea, ExecPea, ExecJmp, ExecScc, Next;
    hide ExecJsr, ExecBranch, ExecRts, ExecLink, ExecUnlk, Names, BranchSize, IsControl, IsMemoryAlterable;
    hide IsDataAlterable;
  }

  /** A run of the machine with its shadow stack. */
  ghost predicate StepRun(configs: seq<Config>, base: u32) {
    && |configs| > 0 && Inv(configs[0], base)
    && forall k :: 0 <= k < |configs| - 1 ==> Steps(configs[k], configs[k + 1], base)
  }

  ghost function Events(configs: seq<Config>, base: u32): (events: seq<Event>)
    requires |configs| > 0
    ensures |events| == |configs| - 1
    ensures forall k {:trigger events[k]} ::
              0 <= k < |events| ==> events[k] == EventAt(configs[k], configs[k + 1], base)
  {
    seq(|configs| - 1, k requires 0 <= k < |configs| - 1 => EventAt(configs[k], configs[k + 1], base))
  }

  lemma StepRunHappens(configs: seq<Config>, base: u32)
    requires StepRun(configs, base)
    ensures Inv(configs[0], base) && CallDiscipline.Run(configs, Events(configs, base), base)
  {
    hide Happens, Steps, Inv, EventOf, EventAt, Fetched;
    var events := Events(configs, base);
    forall k | 0 <= k < |events| ensures Happens(configs[k], events[k], configs[k + 1], base) {
      StepHappens(configs[k], configs[k + 1], base);
    }
  }

  /** The steps at the two ends of a match are the events of their instructions. */
  lemma MatchedEvents(configs: seq<Config>, base: u32, i: nat, j: nat)
    requires StepRun(configs, base) && Matched(configs, Events(configs, base), i, j)
    ensures Events(configs, base)[i] == EventOf(Fetched(configs[i].s))
    ensures Events(configs, base)[j] == EventOf(Fetched(configs[j].s))
  {
    hide Happens, Steps, Inv, EventOf, EventAt, Fetched;
    StepHappens(configs[i], configs[i + 1], base);
    StepHappens(configs[j], configs[j + 1], base);
  }

  /** In every run of CPU::step that keeps the discipline memory equals the shadow stack throughout. */
  lemma StepRunKeeps(configs: seq<Config>, base: u32, k: nat)
    requires StepRun(configs, base) && k < |configs|
    ensures Inv(configs[k], base)
  {
    StepRunHappens(configs, base);
    RunKeeps(configs, Events(configs, base), base, k);
    hide Inv, Steps;
  }

  lemma RtsReturns(s: State)
    ensures Fetched(s).Rts? ==> EventOf(Fetched(s)).Return?
  {
    hide Fetched;
  }

  /** In every such run, the step on an RTS that takes off the entry of a call lands where that call
      pushed, with SP as before it. */
  lemma StepsReturn(configs: seq<Config>, base: u32, i: nat, j: nat)
    requires StepRun(configs, base) && Matched(configs, Events(configs, base), i, j)
    requires var e := EventOf(Fetched(configs[i].s)); e.Call? || e.BranchCall?
    requires Fetched(configs[j].s).Rts?
    ensures var c, d, e := configs[i], configs[j + 1], EventOf(Fetched(configs[i].s));
            && Pc(d.s) == Wrap(Pc(c.s) + 2 + (if e.Call? then EaLength(e.m, Long) else 0))
            && Reg32(d.s, A7) == Reg32(c.s, A7)
  {
    hide Inv, Steps, Happens, EventOf, EventAt, Fetched, Wrap, Reg32, EaLength;
    var events := Events(configs, base);
    assert i < j < |events|;
    RtsReturns(configs[j].s);
    MatchedEvents(configs, base, i, j);
    hide Events, Matched, Run;
    StepRunHappens(configs, base);
    hide StepRun;
    CallReturns(configs, events, base, i, j);
  }

  /** In every such run, the step on an UNLK that takes off the frame of a LINK restores the An and SP
      that LINK found. */
  lemma StepsRestore(configs: seq<Config>, base: u32, i: nat, j: nat)
    requires StepRun(configs, base) && Matched(configs, Events(configs, base), i, j)
    requires Fetched(configs[i].s).Link? && Fetched(configs[j].s).Unlk?
    ensures var c, d, r := configs[i], configs[j + 1], Fetched(configs[i].s).dr;
            && Fetched(configs[j].s).dr == r
            && Reg32(d.s, r) == Reg32(c.s, r) && Reg32(d.s, A7) == Reg32(c.s, A7)
  {
    hide Inv, Steps, Happens, Fetched, Reg32, EventAt;
    var events := Events(configs, base);
    assert i < j < |events|;
    MatchedEvents(configs, base, i, j);
    assert events[i] == Enter(Fetched(configs[i].s).dr) && events[j] == Leave(Fetched(configs[j].s).dr);
    hide Events, Matched, EventOf, Run;
    StepRunHappens(configs, base);
    hide StepRun;
    FrameRestores(configs, events, base, i, j);
  }
}
