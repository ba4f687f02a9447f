// Subroutine calls and stack frames over whole runs: JSR, BSR, RTS, LINK and UNLK in any
// order the stack allows, with any steps in between that respect what is live.
// (src/instructions/jsr.cpp, bcc.cpp, rts.cpp, link.cpp, unlk.cpp, src/cpu_state.cpp)

module CallDiscipline {
  import opened Helpers
  import opened Memory
  import opened Registers
  import opened CpuState
  import opened Instructions
  import opened Decoder
  import opened Addressing
  import opened Branching

  /** A live long on the stack, `slot` bytes below the base: a return address, or the An a LINK saved. */
  datatype Entry =
    | ReturnTo(slot: nat, value: u32)
    | Frame(slot: nat, value: u32, r: OperandReg)

  /** The machine with a shadow of its live stack (top last); SP is `depth` bytes below the base. */
  datatype Config = Config(s: State, shadow: seq<Entry>, depth: nat)

  function Address(base: u32, slot: nat): u32 {
    Wrap(base - slot)
  }

  function TopSlot(shadow: seq<Entry>): nat {
    if shadow == [] then 0 else shadow[|shadow| - 1].slot
  }

  /** The slot of the innermost live frame of a register. */
  function Innermost(shadow: seq<Entry>, r: OperandReg): Option<nat> {
    if shadow == [] then None
    else
      var top := shadow[|shadow| - 1];
      if top.Frame? && top.r == r then Some(top.slot) else Innermost(shadow[..|shadow| - 1], r)
  }

  /** Entries lie below one another, inside the bus. */
  ghost predicate Stacked(shadow: seq<Entry>, depth: nat) {
    && (forall i :: 0 <= i < |shadow| ==> 4 <= shadow[i].slot <= depth)
    && (forall i, j :: 0 <= i < j < |shadow| ==> shadow[i].slot + 4 <= shadow[j].slot)
    && depth <= LIMIT
  }

  /** Memory holds every entry. */
  ghost predicate Live(mem: seq<byte>, base: u32, shadow: seq<Entry>) {
    forall i :: 0 <= i < |shadow| ==> MemGet(mem, Address(base, shadow[i].slot), Long) == Value(shadow[i].value)
  }

  /** Each frame saved the pointer to the next frame out of the same register. */
  ghost predicate Linked(base: u32, shadow: seq<Entry>) {
    shadow == [] ||
    var top, rest := shadow[|shadow| - 1], shadow[..|shadow| - 1];
    && Linked(base, rest)
    && (top.Frame? ==> 8 <= top.r < A7
                       && (Innermost(rest, top.r).Some? ==> top.value == Address(base, Innermost(rest, top.r).value)))
  }

  /** A register with a live frame points at its innermost one. */
  ghost predicate Pointing(s: State, base: u32, shadow: seq<Entry>) {
    forall r: OperandReg :: 8 <= r < A7 && Innermost(shadow, r).Some?
      ==> Reg32(s, r) == Address(base, Innermost(shadow, r).value)
  }

  ghost predicate Inv(c: Config, base: u32) {
    && Reg32(c.s, A7) == Address(base, c.depth)
    && Stacked(c.shadow, c.depth)
    && Live(c.s.mem, base, c.shadow)
    && Linked(base, c.shadow)
    && Pointing(c.s, base, c.shadow)
  }

  datatype Event =
    | Call(m: Mode, r: OperandReg)
    | BranchCall(d8: byte)
    | Return
    | Enter(r: OperandReg)
    | Leave(r: OperandReg)
    | Body

  /** The displacement word of LINK. */
  function LinkDisplacement(s: State): int {
    match MemGet(s.mem, Wrap(Pc(s) + 2), Word)
    case Value(d) => Signed(d, Word)
    case Fault(_) => 0
  }

  /** Steps between calls may move SP anywhere at or below the last live entry, as long as they
      leave the live entries and the registers with a live frame alone. */
  ghost predicate Respects(c: Config, d: Config, base: u32) {
    && d.shadow == c.shadow
    && TopSlot(c.shadow) <= d.depth <= LIMIT && Reg32(d.s, A7) == Address(base, d.depth)
    && (forall i :: 0 <= i < |c.shadow| ==>
          MemGet(d.s.mem, Address(base, c.shadow[i].slot), Long)
            == MemGet(c.s.mem, Address(base, c.shadow[i].slot), Long))
    && (forall r: OperandReg :: 8 <= r < A7 && Innermost(c.shadow, r).Some? ==> Reg32(d.s, r) == Reg32(c.s, r))
  }

  /** A LINK that leaves its slot above SP, or has no frame pointer, makes no frame. */
  ghost predicate GivesUp(c: Config, r: OperandReg, d: Config) {
    d.shadow == c.shadow && TopSlot(c.shadow) <= d.depth && (r == A7 || Innermost(c.shadow, r).None?)
  }

  /** The shadow stack and depth an event leaves, where the discipline allows the event. */
  ghost predicate Tracked(c: Config, e: Event, d: Config, base: u32) {
    match e
    case Call(m, _) =>
      && d.depth == c.depth + 4 <= LIMIT
      && d.shadow == c.shadow + [ReturnTo(d.depth, Wrap(Pc(c.s) + 2 + EaLength(m, Long)))]
    case BranchCall(_) =>
      d.depth == c.depth + 4 <= LIMIT && d.shadow == c.shadow + [ReturnTo(d.depth, Wrap(Pc(c.s) + 2))]
    case Return =>
      && c.shadow != [] && c.shadow[|c.shadow| - 1].ReturnTo? && TopSlot(c.shadow) == c.depth
      && d.depth == TopSlot(c.shadow) - 4 && d.shadow == c.shadow[..|c.shadow| - 1]
    case Enter(r) =>
      && r >= 8 && c.depth + 4 <= LIMIT && d.depth == c.depth + 4 - LinkDisplacement(c.s) <= LIMIT
      && (if r != A7 && LinkDisplacement(c.s) <= 0
          then d.shadow == c.shadow + [Frame(c.depth + 4, Reg32(c.s, r), r)]
          else GivesUp(c, r, d))
    case Leave(r) =>
      && c.shadow != [] && c.shadow[|c.shadow| - 1].Frame? && c.shadow[|c.shadow| - 1].r == r
      && d.depth == TopSlot(c.shadow) - 4 && d.shadow == c.shadow[..|c.shadow| - 1]
    case Body => Respects(c, d, base)
  }

  /** The instruction of an event, run to its end; nothing is asked of a body step. */
  ghost predicate Executes(s: State, e: Event, t: State) {
    match e
    case Call(m, r) => IsControl(m) && ExecJsr(s, m, r) == Ok((), t)
    case BranchCall(d8) => ExecBranch(s, False, d8) == Ok((), t)
    case Return => ExecRts(s) == Ok((), t)
    case Enter(r) => ExecLink(s, r) == Ok((), t)
    case Leave(r) => ExecUnlk(s, r) == Ok((), t)
    case Body => true
  }

  ghost predicate Happens(c: Config, e: Event, d: Config, base: u32) {
    Executes(c.s, e, d.s) && Tracked(c, e, d, base)
  }

  /** Any state can start a run, with its SP as the base. */
  lemma FreshStack(s: State)
    ensures Inv(Config(s, [], 0), Reg32(s, A7))
  {
    Remainder(0x1_0000_0000, 0, Reg32(s, A7));
  }

  // ----- stack instructions on states -----

  lemma PushIs(s: State, v: u32)
    requires StackPush(s, Long, v).Ok?
    ensures var sp := Wrap(Reg32(s, A7) - 4);
            && Locate(|s.mem|, sp, Long).Value?
            && StackPush(s, Long, v).state
               == State(s.regs[Bank(s.regs, A7) := sp], WriteAt(s.mem, sp % 0x100_0000, Long, v))
  {
    hide WriteAt;
  }

  lemma PopIs(s: State, v: u32)
    requires MemGet(s.mem, Reg32(s, A7), Long) == Value(v)
    ensures StackPop(s, Long) == Ok(v, s.(regs := s.regs[Bank(s.regs, A7) := Wrap(Reg32(s, A7) + 4)]))
  {
    hide MemGet;
  }

  /** A resolved control address has moved PC past the operand and nothing else. */
  lemma ControlMovesPc(s: State, m: Mode, r: OperandReg)
    requires IsControl(m) && GetControlAddress(s, m, r).Ok?
    ensures var t := GetControlAddress(s, m, r).state;
            t.mem == s.mem && t.regs == s.regs[PC := Wrap(Pc(s) + EaLength(m, Long))]
  {
    hide MemGet, IndexOffset, Signed;
  }

  // ----- what each event keeps -----

  lemma LivePushed(mem: seq<byte>, base: u32, shadow: seq<Entry>, depth: nat, e: Entry)
    requires Stacked(shadow, depth) && Live(mem, base, shadow)
    requires e.slot == depth + 4 <= LIMIT && Locate(|mem|, Address(base, e.slot), Long).Value?
    ensures Live(WriteAt(mem, Address(base, e.slot) % 0x100_0000, Long, e.value), base, shadow + [e])
  {
    hide Locate, ReadAt, WriteAt, Wrap;
    var a := Address(base, e.slot) % 0x100_0000;
    assert Locate(|mem|, Address(base, e.slot), Long).value == a;
    var m := WriteAt(mem, a, Long, e.value);
    forall i | 0 <= i < |shadow + [e]|
      ensures MemGet(m, Address(base, (shadow + [e])[i].slot), Long) == Value((shadow + [e])[i].value)
    {
      if i < |shadow| {
        CellsApart(base, shadow[i].slot, 4, e.slot, 4);
        assert MemGet(mem, Address(base, shadow[i].slot), Long) == Value(shadow[i].value);
        var b := Locate(|mem|, Address(base, shadow[i].slot), Long).value;
        ReadApart(mem, a, Long, e.value, b, Long);
      } else {
        ReadBack(mem, a, Long, e.value);
        FitsWhole(e.value, Long);
      }
    }
  }

  lemma PushKeeps(c: Config, t: State, e: Entry, base: u32, depth: nat)
    requires Inv(c, base) && e.slot == c.depth + 4 <= depth <= LIMIT
    requires Locate(|c.s.mem|, Address(base, e.slot), Long).Value?
    requires t.mem == WriteAt(c.s.mem, Address(base, e.slot) % 0x100_0000, Long, e.value)
    requires Reg32(t, A7) == Address(base, depth)
    requires e.Frame? ==> 8 <= e.r < A7 && e.value == Reg32(c.s, e.r) && Reg32(t, e.r) == Address(base, e.slot)
    requires forall r: OperandReg :: 8 <= r < A7 && !(e.Frame? && r == e.r) ==> Reg32(t, r) == Reg32(c.s, r)
    ensures Inv(Config(t, c.shadow + [e], depth), base)
  {
    hide Locate, WriteAt, Reg32, Address;
    LivePushed(c.s.mem, base, c.shadow, c.depth, e);
    var shadow := c.shadow + [e];
    assert shadow[..|shadow| - 1] == c.shadow;
    assert forall r: OperandReg ::
        Innermost(shadow, r) == if e.Frame? && e.r == r then Some(e.slot) else Innermost(c.shadow, r);
  }

  /** A long stored just below SP, with SP then moved anywhere below the live entries. */
  lemma GiveUpKeeps(c: Config, t: State, e: Entry, base: u32, depth: nat)
    requires Inv(c, base) && e.slot == c.depth + 4 <= LIMIT && TopSlot(c.shadow) <= depth <= LIMIT
    requires Locate(|c.s.mem|, Address(base, e.slot), Long).Value?
    requires t.mem == WriteAt(c.s.mem, Address(base, e.slot) % 0x100_0000, Long, e.value)
    requires Reg32(t, A7) == Address(base, depth)
    requires forall r: OperandReg :: 8 <= r < A7 && Innermost(c.shadow, r).Some? ==> Reg32(t, r) == Reg32(c.s, r)
    ensures Inv(Config(t, c.shadow, depth), base)
  {
    hide Locate, WriteAt, Reg32, Address, MemGet;
    LivePushed(c.s.mem, base, c.shadow, c.depth, e);
    var shadow := c.shadow + [e];
    assert forall i :: 0 <= i < |c.shadow| ==> shadow[i] == c.shadow[i];
  }

  lemma PopKeeps(c: Config, t: State, base: u32)
    requires Inv(c, base) && c.shadow != [] && t.mem == c.s.mem
    requires var top := c.shadow[|c.shadow| - 1];
             && Reg32(t, A7) == Address(base, top.slot - 4)
             && (top.Frame? ==> Reg32(t, top.r) == top.value)
             && forall r: OperandReg :: 8 <= r < A7 && !(top.Frame? && r == top.r) ==> Reg32(t, r) == Reg32(c.s, r)
    ensures Inv(Config(t, c.shadow[..|c.shadow| - 1], TopSlot(c.shadow) - 4), base)
  {
    hide MemGet, Reg32, Address;
  }

  lemma BodyKeeps(c: Config, d: Config, base: u32)
    requires Inv(c, base) && Respects(c, d, base)
    ensures Inv(d, base)
  {
    hide MemGet, Reg32, Address;
  }

  lemma Deeper(base: u32, depth: nat)
    ensures Wrap(Address(base, depth) - 4) == Address(base, depth + 4)
  {
    WrapAgain(base - depth, -4);
    assert base - depth + -4 == base - (depth + 4);
  }

  lemma Shallower(base: u32, slot: nat)
    requires slot >= 4
    ensures Wrap(Address(base, slot) + 4) == Address(base, slot - 4)
  {
    WrapAgain(base - slot, 4);
    assert base - slot + 4 == base - (slot - 4);
  }

  lemma CallKeeps(c: Config, m: Mode, r: OperandReg, d: Config, base: u32)
    requires Inv(c, base) && Happens(c, Call(m, r), d, base)
    ensures Inv(d, base)
  {
    hide GetControlAddress, StackPush, Locate, WriteAt, Address, Inv;
    var s1 := GetControlAddress(Next(c.s), m, r).state;
    ControlMovesPc(Next(c.s), m, r);
    WrapAgain(Pc(c.s) + 2, EaLength(m, Long));
    PushIs(s1, Pc(s1));
    assert Inv(c, base) ==> Reg32(c.s, A7) == Address(base, c.depth) by { InvParts(c, base); }
    Deeper(base, c.depth);
    assert Reg32(s1, A7) == Reg32(c.s, A7);
    PushKeeps(c, d.s, ReturnTo(d.depth, Wrap(Pc(c.s) + 2 + EaLength(m, Long))), base, d.depth);
  }

  lemma InvParts(c: Config, base: u32)
    requires Inv(c, base)
    ensures Reg32(c.s, A7) == Address(base, c.depth)
  {
  }

  /** BSR of every length pushes the address after its opcode word. */
  lemma BsrPushes(s: State, d8: byte)
    requires ExecBranch(s, False, d8).Ok?
    ensures var t, sp := ExecBranch(s, False, d8).state, Wrap(Reg32(s, A7) - 4);
            && Locate(|s.mem|, sp, Long).Value?
            && t.mem == WriteAt(s.mem, sp % 0x100_0000, Long, Wrap(Pc(s) + 2))
            && Reg32(t, A7) == sp && forall r: OperandReg :: r != A7 ==> Reg32(t, r) == Reg32(s, r)
  {
    hide StackPush, Locate, WriteAt, Signed, MemGet;
    PushIs(BranchDisplacement(Next(s), d8).state, Wrap(Pc(s) + 2));
  }

  lemma BranchCallKeeps(c: Config, d8: byte, d: Config, base: u32)
    requires Inv(c, base) && Happens(c, BranchCall(d8), d, base)
    ensures Inv(d, base)
  {
    hide ExecBranch, Locate, WriteAt, Address, Inv, Wrap, Reg32;
    BsrPushes(c.s, d8);
    InvParts(c, base);
    Deeper(base, c.depth);
    PushKeeps(c, d.s, ReturnTo(d.depth, Wrap(Pc(c.s) + 2)), base, d.depth);
  }

  /** LINK pushes An, points An at the slot, and moves SP by the displacement, from the slot for A7 too. */
  lemma LinkIs(s: State, r: OperandReg)
    requires r >= 8 && ExecLink(s, r).Ok?
    ensures var t, sp := ExecLink(s, r).state, Wrap(Reg32(s, A7) - 4);
            && Locate(|s.mem|, sp, Long).Value? && t.mem == WriteAt(s.mem, sp % 0x100_0000, Long, Reg32(s, r))
            && (r != A7 ==> Reg32(t, r) == sp) && Reg32(t, A7) == Wrap(sp + LinkDisplacement(s))
            && forall q: OperandReg :: q != r && q != A7 ==> Reg32(t, q) == Reg32(s, q)
  {
    hide StackPush, Locate, WriteAt, Signed, MemGet;
    var s2 := SetPc(s, Pc(s) + 4);
    PushIs(s2, Reg32(s, r));
    var s3 := StackPush(s2, Long, Reg32(s, r)).state;
    var sp: u32 := Wrap(Reg32(s, A7) - 4);
    SetLong(s3, r, sp);
    SetLong(SetReg(s3, r, Long, sp), A7, Wrap(sp + LinkDisplacement(s)));
    assert ExecLink(s, r).state == SetReg(SetReg(s3, r, Long, sp), A7, Long, Wrap(sp + LinkDisplacement(s)));
    hide SetReg, Wrap;
  }

  lemma EnterKeeps(c: Config, r: OperandReg, d: Config, base: u32)
    requires Inv(c, base) && Happens(c, Enter(r), d, base)
    ensures Inv(d, base)
  {
    hide ExecLink, Locate, WriteAt, Inv, Reg32, LinkDisplacement;
    var k := LinkDisplacement(c.s);
    LinkIs(c.s, r);
    InvParts(c, base);
    Deeper(base, c.depth);
    WrapAgain(base - (c.depth + 4), k);
    assert base - (c.depth + 4) + k == base - d.depth;
    hide Wrap;
    if r != A7 && k <= 0 {
      PushKeeps(c, d.s, Frame(c.depth + 4, Reg32(c.s, r), r), base, d.depth);
    } else {
      GiveUpKeeps(c, d.s, ReturnTo(c.depth + 4, Reg32(c.s, r)), base, d.depth);
    }
  }

  /** RTS on a live return address never faults: it lands there, with SP as before the call. */
  lemma ReturnLands(c: Config, base: u32)
    requires Inv(c, base) && c.shadow != []
    requires var top := c.shadow[|c.shadow| - 1]; top.ReturnTo? && top.slot == c.depth
    ensures var top, o := c.shadow[|c.shadow| - 1], ExecRts(c.s);
            && o.Ok? && Pc(o.state) == top.value && Reg32(o.state, A7) == Address(base, top.slot - 4)
            && Inv(Config(o.state, c.shadow[..|c.shadow| - 1], top.slot - 4), base)
  {
    hide StackPop, MemGet, Address;
    var top := c.shadow[|c.shadow| - 1];
    PopIs(c.s, top.value);
    Shallower(base, top.slot);
    Remainder(0x1_0000_0000, 0, top.value);
    PopKeeps(c, ExecRts(c.s).state, base);
  }

  /** UNLK of the innermost frame never faults: it restores An, and SP to where LINK found it. */
  lemma LeaveRestores(c: Config, base: u32)
    requires Inv(c, base) && c.shadow != [] && c.shadow[|c.shadow| - 1].Frame?
    ensures var top := c.shadow[|c.shadow| - 1];
            var o := ExecUnlk(c.s, top.r);
            && o.Ok? && Reg32(o.state, top.r) == top.value && Reg32(o.state, A7) == Address(base, top.slot - 4)
            && Inv(Config(o.state, c.shadow[..|c.shadow| - 1], top.slot - 4), base)
  {
    hide StackPop, MemGet, Address;
    var top := c.shadow[|c.shadow| - 1];
    var s1 := SetReg(Next(c.s), A7, Long, Reg32(Next(c.s), top.r));
    assert Innermost(c.shadow, top.r) == Some(top.slot);
    assert Reg32(s1, A7) == Address(base, top.slot);
    PopIs(s1, top.value);
    Shallower(base, top.slot);
    PopKeeps(c, ExecUnlk(c.s, top.r).state, base);
  }

  /** Every event keeps the shadow faithful. */
  lemma EventKeeps(c: Config, e: Event, d: Config, base: u32)
    requires Inv(c, base) && Happens(c, e, d, base)
    ensures Inv(d, base)
  {
    match e
    case Call(m, r) => CallKeeps(c, m, r, d, base);
    case BranchCall(d8) => BranchCallKeeps(c, d8, d, base);
    case Return => ReturnLands(c, base);
    case Enter(r) => EnterKeeps(c, r, d, base);
    case Leave(r) => LeaveRestores(c, base);
    case Body => BodyKeeps(c, d, base);
    hide Inv, ExecJsr, ExecBranch, ExecRts, ExecLink, ExecUnlk, Respects;
  }

  // ----- whole runs -----

  ghost predicate Run(configs: seq<Config>, events: seq<Event>, base: u32) {
    && |configs| == |events| + 1
    && forall k :: 0 <= k < |events| ==> Happens(configs[k], events[k], configs[k + 1], base)
  }

  lemma {:induction false} RunKeeps(configs: seq<Config>, events: seq<Event>, base: u32, k: nat)
    requires Run(configs, events, base) && k < |configs|
    requires Inv(configs[0], base)
    ensures Inv(configs[k], base)
  {
    hide Inv, Happens;
    if k > 0 {
      RunKeeps(configs, events, base, k - 1);
      EventKeeps(configs[k - 1], events[k - 1], configs[k], base);
    }
  }

  /** While the stack stays deeper than it was at event i, the entry that event pushed stays. */
  lemma {:induction false} EntryStays(configs: seq<Config>, events: seq<Event>, base: u32, i: nat, k: nat)
    requires Run(configs, events, base) && i < k < |configs|
    requires |configs[i + 1].shadow| == |configs[i].shadow| + 1
    requires forall j :: i < j <= k ==> |configs[j].shadow| > |configs[i].shadow|
    ensures configs[k].shadow[..|configs[i].shadow| + 1] == configs[i + 1].shadow
  {
    hide Happens;
    if k > i + 1 {
      EntryStays(configs, events, base, i, k - 1);
      ShadowGrowth(configs[k - 1], events[k - 1], configs[k], base);
      var n := |configs[i].shadow| + 1;
      assert configs[k - 1].shadow[..n] == configs[k].shadow[..n];
    }
  }

  lemma ShadowGrowth(c: Config, e: Event, d: Config, base: u32)
    requires Happens(c, e, d, base)
    ensures c.shadow <= d.shadow || d.shadow <= c.shadow
    ensures (e.Call? || e.BranchCall? || e.Enter?) && d.shadow != c.shadow ==> |d.shadow| == |c.shadow| + 1
  {
    hide ExecJsr, ExecBranch, ExecRts, ExecLink, ExecUnlk;
  }

  /** The event at j takes off the entry the event at i put on. */
  ghost predicate Matched(configs: seq<Config>, events: seq<Event>, i: nat, j: nat) {
    && i < j < |events| && |configs| == |events| + 1
    && (forall k :: i < k <= j ==> |configs[k].shadow| > |configs[i].shadow|)
    && |configs[j + 1].shadow| == |configs[i].shadow|
  }

  lemma HappensAt(configs: seq<Config>, events: seq<Event>, base: u32, k: nat)
    requires Run(configs, events, base) && k < |events|
    ensures Happens(configs[k], events[k], configs[k + 1], base)
  {
    hide Happens;
  }

  lemma MatchedEntry(configs: seq<Config>, events: seq<Event>, base: u32, i: nat, j: nat)
    requires Run(configs, events, base) && Matched(configs, events, i, j)
    requires events[i].Call? || events[i].BranchCall? || events[i].Enter?
    requires events[j].Return? || events[j].Leave?
    ensures |configs[i + 1].shadow| == |configs[i].shadow| + 1
    ensures configs[j].shadow == configs[i + 1].shadow && configs[j + 1].shadow == configs[i].shadow
  {
    HappensAt(configs, events, base, i);
    HappensAt(configs, events, base, j);
    hide Happens, Run;
    ShadowGrowth(configs[i], events[i], configs[i + 1], base);
    EntryStays(configs, events, base, i, j);
    PopsOne(configs[j], events[j], configs[j + 1], base);
    assert configs[j].shadow == configs[j].shadow[..|configs[i].shadow| + 1];
  }

  lemma PopsOne(c: Config, e: Event, d: Config, base: u32)
    requires Happens(c, e, d, base) && (e.Return? || e.Leave?)
    ensures |c.shadow| == |d.shadow| + 1
  {
    hide ExecRts, ExecUnlk;
  }

  /** What a call pushes, and where a return and the last UNLK of a frame leave the machine. */
  lemma CallPushes(c: Config, e: Event, d: Config, base: u32)
    requires Inv(c, base) && Happens(c, e, d, base) && (e.Call? || e.BranchCall?)
    ensures var to := Wrap(Pc(c.s) + 2 + (if e.Call? then EaLength(e.m, Long) else 0));
            d.shadow == c.shadow + [ReturnTo(c.depth + 4, to)] && Reg32(c.s, A7) == Address(base, c.depth)
  {
    hide ExecJsr, ExecBranch, EaLength, Wrap, Address;
  }

  lemma ReturnPops(c: Config, d: Config, base: u32)
    requires Inv(c, base) && Happens(c, Return, d, base)
    ensures c.shadow != []
            && var top := c.shadow[|c.shadow| - 1];
            top.slot >= 4 && Pc(d.s) == top.value && Reg32(d.s, A7) == Address(base, top.slot - 4)
  {
    ReturnLands(c, base);
    hide ExecRts, Address;
  }

  lemma LinkPushes(c: Config, r: OperandReg, d: Config, base: u32)
    requires Inv(c, base) && Happens(c, Enter(r), d, base) && |d.shadow| == |c.shadow| + 1
    ensures d.shadow == c.shadow + [Frame(c.depth + 4, Reg32(c.s, r), r)] && Reg32(c.s, A7) == Address(base, c.depth)
  {
    hide ExecLink, LinkDisplacement, Address;
  }

  lemma UnlkPops(c: Config, r: OperandReg, d: Config, base: u32)
    requires Inv(c, base) && Happens(c, Leave(r), d, base)
    ensures c.shadow != []
            && var top := c.shadow[|c.shadow| - 1];
            top.Frame? && top.r == r && top.slot >= 4 && Reg32(d.s, r) == top.value
              && Reg32(d.s, A7) == Address(base, top.slot - 4)
  {
    LeaveRestores(c, base);
    hide ExecUnlk, Address;
  }

  /** In every run, an RTS lands on the address the call it matches pushed: just after a JSR, extension
      words included, and just after the opcode word of a BSR, with SP as it was before that call. */
  lemma CallReturns(configs: seq<Config>, events: seq<Event>, base: u32, i: nat, j: nat)
    requires Run(configs, events, base) && Inv(configs[0], base) && Matched(configs, events, i, j)
    requires (events[i].Call? || events[i].BranchCall?) && events[j].Return?
    ensures var c, d := configs[i], configs[j + 1];
            && Pc(d.s) == Wrap(Pc(c.s) + 2 + (if events[i].Call? then EaLength(events[i].m, Long) else 0))
            && Reg32(d.s, A7) == Reg32(c.s, A7)
  {
    hide Happens, Inv, Wrap, Reg32, Pc, Address, EaLength;
    MatchedEntry(configs, events, base, i, j);
    HappensAt(configs, events, base, i);
    HappensAt(configs, events, base, j);
    RunKeeps(configs, events, base, i);
    RunKeeps(configs, events, base, j);
    hide Run;
    CallPushes(configs[i], events[i], configs[i + 1], base);
    ReturnPops(configs[j], configs[j + 1], base);
  }

  /** In every run, an UNLK restores the An its LINK saved, and SP as it was before that LINK. */
  lemma FrameRestores(configs: seq<Config>, events: seq<Event>, base: u32, i: nat, j: nat)
    requires Run(configs, events, base) && Inv(configs[0], base) && Matched(configs, events, i, j)
    requires events[i].Enter? && events[j].Leave?
    ensures var c, d := configs[i], configs[j + 1];
            && events[j].r == events[i].r
            && Reg32(d.s, events[i].r) == Reg32(c.s, events[i].r)
            && Reg32(d.s, A7) == Reg32(c.s, A7)
  {
    hide Happens, Inv, Reg32, Address;
    MatchedEntry(configs, events, base, i, j);
    HappensAt(configs, events, base, i);
    HappensAt(configs, events, base, j);
    RunKeeps(configs, events, base, i);
    RunKeeps(configs, events, base, j);
    hide Run;
    LinkPushes(configs[i], events[i].r, configs[i + 1], base);
    UnlkPops(configs[j], events[j].r, configs[j + 1], base);
  }

  /** BSR pushes the address after its opcode word, which is the address after the instruction
      exactly for the short form. */
  lemma BsrReturnAddress(s: State, d8: byte)
    requires ExecBranch(s, False, d8).Ok?
    ensures var pushed := MemGet(ExecBranch(s, False, d8).state.mem, Reg32(ExecBranch(s, False, d8).state, A7), Long);
            && pushed == Value(Wrap(Pc(s) + 2))
            && (pushed == Value(After(s, d8)) <==> d8 != 0 && d8 != 0xFF)
  {
    hide ExecBranch, WriteAt, ReadAt;
    BsrPushes(s, d8);
    var v := Wrap(Pc(s) + 2);
    ReadBack(s.mem, Wrap(Reg32(s, A7) - 4) % 0x100_0000, Long, v);
    FitsWhole(v, Long);
  }
}
