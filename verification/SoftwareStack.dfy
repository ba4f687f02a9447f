// Stacks kept with -(An) and (An)+ in mixed sizes (sections 2.2.4 and 2.2.5 of M68000PM/AD):
// the machine against an ideal last-in first-out stack (src/cpu_state.cpp).

module SoftwareStack {
  import opened Helpers
  import opened Memory
  import opened Registers
  import opened CpuState

  datatype Item = Item(z: Size, data: u32)
  datatype Op = Push(z: Size, data: u32) | Pop(z: Size)

  // ----- the ideal stack -----

  /** Every pop finds an item of its own size. */
  predicate Matches(items: seq<Item>, ops: seq<Op>)
    decreases ops
  {
    ops == [] ||
    match ops[0]
    case Push(z, d) => Matches(items + [Item(z, d)], ops[1..])
    case Pop(z) => items != [] && items[|items| - 1].z == z && Matches(items[..|items| - 1], ops[1..])
  }

  /** What the pops return: each pushed value cut to its size, last in first out. */
  function Popped(items: seq<Item>, ops: seq<Op>): seq<u32>
    requires Matches(items, ops)
    decreases ops
  {
    if ops == [] then []
    else match ops[0]
      case Push(z, d) => Popped(items + [Item(z, d)], ops[1..])
      case Pop(z) => [Truncate(items[|items| - 1].data, z)] + Popped(items[..|items| - 1], ops[1..])
  }

  function Left(items: seq<Item>, ops: seq<Op>): seq<Item>
    requires Matches(items, ops)
    decreases ops
  {
    if ops == [] then items
    else match ops[0]
      case Push(z, d) => Left(items + [Item(z, d)], ops[1..])
      case Pop(_) => Left(items[..|items| - 1], ops[1..])
  }

  /** Bytes the items take on the stack of a register. */
  function Depth(items: seq<Item>, r: OperandReg): nat {
    if items == [] then 0 else Depth(items[..|items| - 1], r) + Stride(r, items[|items| - 1].z)
  }

  /** The stack never outgrows the bus. */
  predicate HasRoom(items: seq<Item>, r: OperandReg, ops: seq<Op>)
    decreases ops
  {
    Depth(items, r) <= LIMIT &&
    (ops == [] ||
     match ops[0]
     case Push(z, d) => HasRoom(items + [Item(z, d)], r, ops[1..])
     case Pop(_) => items != [] && HasRoom(items[..|items| - 1], r, ops[1..]))
  }

  // ----- the machine -----

  /** Pushes store through -(An), pops load through (An)+; the popped values in order. */
  function RunOps(s: State, r: OperandReg, ops: seq<Op>): Outcome<seq<u32>>
    decreases ops
  {
    if ops == [] then Ok([], s)
    else match ops[0]
      case Push(z, d) =>
        var (_, t) :- SetData(s, PreDecrement, r, z, d);
        RunOps(t, r, ops[1..])
      case Pop(z) =>
        var (v, t) :- GetData(s, PostIncrement, r, z);
        var (rest, u) :- RunOps(t, r, ops[1..]);
        Ok([v] + rest, u)
  }

  /** Item i sits where the items up to it reach, below a base. */
  ghost predicate Holds(mem: seq<byte>, base: u32, r: OperandReg, items: seq<Item>) {
    forall i :: 0 <= i < |items| ==>
      MemGet(mem, Wrap(base - Depth(items[..i + 1], r)), items[i].z) == Value(Truncate(items[i].data, items[i].z))
  }

  ghost predicate Inv(s: State, base: u32, r: OperandReg, items: seq<Item>) {
    && Reg32(s, r) == Wrap(base - Depth(items, r)) && Depth(items, r) <= LIMIT
    && Holds(s.mem, base, r, items)
  }

  lemma {:induction false} DepthPrefix(items: seq<Item>, r: OperandReg, i: nat)
    requires i < |items|
    ensures Bytes(items[i].z) <= Depth(items[..i + 1], r) <= Depth(items, r)
    decreases |items|
  {
    var n := |items| - 1;
    if i == n {
      assert items[..i + 1] == items;
    } else {
      assert items[..n][..i + 1] == items[..i + 1];
      DepthPrefix(items[..n], r, i);
    }
  }

  lemma DepthPush(items: seq<Item>, r: OperandReg, e: Item)
    ensures Depth(items + [e], r) == Depth(items, r) + Stride(r, e.z)
  {
    assert (items + [e])[..|items|] == items;
  }

  lemma HoldsPushed(mem: seq<byte>, base: u32, r: OperandReg, items: seq<Item>, e: Item)
    requires Holds(mem, base, r, items) && Depth(items + [e], r) <= LIMIT
    requires Locate(|mem|, Wrap(base - Depth(items + [e], r)), e.z).Value?
    ensures Holds(WriteAt(mem, Wrap(base - Depth(items + [e], r)) % 0x100_0000, e.z, e.data), base, r, items + [e])
  {
    hide Locate, ReadAt, WriteAt, Wrap, Truncate, Depth;
    var all := items + [e];
    var j := Depth(all, r);
    var a := Wrap(base - j) % 0x100_0000;
    assert Locate(|mem|, Wrap(base - j), e.z).value == a;
    DepthPush(items, r, e);
    var m := WriteAt(mem, a, e.z, e.data);
    forall i | 0 <= i < |all|
      ensures MemGet(m, Wrap(base - Depth(all[..i + 1], r)), all[i].z) == Value(Truncate(all[i].data, all[i].z))
    {
      if i < |items| {
        assert all[..i + 1] == items[..i + 1];
        DepthPrefix(items, r, i);
        var k := Depth(items[..i + 1], r);
        CellsApart(base, k, Bytes(items[i].z), j, Bytes(e.z));
        assert MemGet(mem, Wrap(base - k), items[i].z) == Value(Truncate(items[i].data, items[i].z));
        ReadApart(mem, a, e.z, e.data, Locate(|mem|, Wrap(base - k), items[i].z).value, items[i].z);
      } else {
        assert all[..i + 1] == all;
        ReadBack(mem, a, e.z, e.data);
      }
    }
  }

  lemma PushKeeps(s: State, base: u32, r: OperandReg, items: seq<Item>, z: Size, d: u32)
    requires Inv(s, base, r, items) && Depth(items + [Item(z, d)], r) <= LIMIT
    requires SetData(s, PreDecrement, r, z, d).Ok?
    ensures Inv(SetData(s, PreDecrement, r, z, d).state, base, r, items + [Item(z, d)])
  {
    hide Holds, Depth, Wrap, WriteAt, Stride;
    DepthPush(items, r, Item(z, d));
    WrapAgain(base - Depth(items, r), 0 - Stride(r, z));
    assert base - Depth(items, r) + (0 - Stride(r, z)) == base - Depth(items + [Item(z, d)], r);
    HoldsPushed(s.mem, base, r, items, Item(z, d));
    SetLong(s, r, Wrap(Reg32(s, r) - Stride(r, z)));
  }

  /** A pop of the top item never faults, returns it at its size, and moves An back past it. */
  lemma PopReturns(s: State, base: u32, r: OperandReg, items: seq<Item>)
    requires Inv(s, base, r, items) && items != []
    ensures var top, o := items[|items| - 1], GetData(s, PostIncrement, r, items[|items| - 1].z);
            && o.Ok? && o.value == Truncate(top.data, top.z) && o.state.mem == s.mem
            && Inv(o.state, base, r, items[..|items| - 1])
  {
    hide MemGet, Wrap, Truncate, Stride;
    var n := |items| - 1;
    var top, rest := items[n], items[..n];
    assert items[..n + 1] == items;
    assert MemGet(s.mem, Wrap(base - Depth(items[..n + 1], r)), items[n].z) == Value(Truncate(top.data, top.z));
    WrapAgain(base - Depth(items, r), Stride(r, top.z));
    assert base - Depth(items, r) + Stride(r, top.z) == base - Depth(rest, r);
    HoldsPopped(s.mem, base, r, items);
    SetLong(s, r, Wrap(Reg32(s, r) + Stride(r, top.z)));
    hide Holds, Depth, SetReg, Reg32;
  }

  lemma HoldsPopped(mem: seq<byte>, base: u32, r: OperandReg, items: seq<Item>)
    requires Holds(mem, base, r, items) && items != []
    ensures Holds(mem, base, r, items[..|items| - 1])
  {
    hide MemGet, Wrap, Truncate, Depth;
    var rest := items[..|items| - 1];
    forall i | 0 <= i < |rest|
      ensures MemGet(mem, Wrap(base - Depth(rest[..i + 1], r)), rest[i].z) == Value(Truncate(rest[i].data, rest[i].z))
    {
      assert rest[..i + 1] == items[..i + 1];
      assert MemGet(mem, Wrap(base - Depth(items[..i + 1], r)), items[i].z)
             == Value(Truncate(items[i].data, items[i].z));
    }
  }

  /** Every matched sequence of pushes and pops that does not fault returns what an ideal stack
      returns, and leaves An where the items left on the stack say. */
  lemma {:induction false} RefinesIdealStack(s: State, base: u32, r: OperandReg, items: seq<Item>, ops: seq<Op>)
    requires Inv(s, base, r, items) && Matches(items, ops) && HasRoom(items, r, ops)
    requires RunOps(s, r, ops).Ok?
    ensures RunOps(s, r, ops).value == Popped(items, ops)
    ensures Inv(RunOps(s, r, ops).state, base, r, Left(items, ops))
    decreases ops
  {
    hide Inv, GetData, SetData, Depth, Truncate;
    if ops != [] {
      match ops[0]
      case Push(z, d) =>
        RoomNow(items + [Item(z, d)], r, ops[1..]);
        PushKeeps(s, base, r, items, z, d);
        RefinesIdealStack(SetData(s, PreDecrement, r, z, d).state, base, r, items + [Item(z, d)], ops[1..]);
      case Pop(z) =>
        PopReturns(s, base, r, items);
        RefinesIdealStack(GetData(s, PostIncrement, r, z).state, base, r, items[..|items| - 1], ops[1..]);
    }
  }

  lemma RoomNow(items: seq<Item>, r: OperandReg, ops: seq<Op>)
    requires HasRoom(items, r, ops)
    ensures Depth(items, r) <= LIMIT
  {
  }

  /** When everything pushed has been popped, An is back where it started. */
  lemma PointerRestored(s: State, r: OperandReg, ops: seq<Op>)
    requires Matches([], ops) && HasRoom([], r, ops) && RunOps(s, r, ops).Ok? && Left([], ops) == []
    ensures Reg32(RunOps(s, r, ops).state, r) == Reg32(s, r)
    ensures RunOps(s, r, ops).value == Popped([], ops)
  {
    Remainder(0x1_0000_0000, 0, Reg32(s, r));
    RefinesIdealStack(s, Reg32(s, r), r, [], ops);
  }

  // ----- alignment of A7 -----

  lemma EvenWrap(v: int)
    ensures Wrap(v) % 2 == v % 2
  {
    var q, p := v / 0x1_0000_0000, Wrap(v) / 2;
    Remainder(2, 0x8000_0000 * q + p, Wrap(v) % 2);
  }

  /** A call that ends with A7 even or fails only at the memory bound. */
  ghost predicate Even<T>(o: Outcome<T>) {
    match o
    case Ok(_, t) => Reg32(t, A7) % 2 == 0
    case Throw(e, _) => e == OutOfRange
    case Undefined => false
  }

  lemma EvenLocate(len: nat, v: int, z: Size)
    requires v % 2 == 0
    ensures Locate(len, Wrap(v), z).Fault? ==> Locate(len, Wrap(v), z).error == OutOfRange
    ensures Wrap(v) % 2 == 0
  {
    EvenWrap(v);
    EvenBus(Wrap(v));
    hide Wrap;
  }

  lemma EvenPush(s: State, z: Size, d: u32)
    requires Reg32(s, A7) % 2 == 0
    ensures Even(SetData(s, PreDecrement, A7, z, d))
  {
    hide Locate, WriteAt, Wrap;
    var a: int, k: int := Reg32(s, A7), Stride(A7, z);
    assert k == 2 || k == 4;
    EvenLocate(|s.mem|, a - k, z);
    SetLong(s, A7, Wrap(a - k));
    hide SetReg, Reg32;
  }

  lemma EvenPop(s: State, z: Size)
    requires Reg32(s, A7) % 2 == 0
    ensures Even(GetData(s, PostIncrement, A7, z))
  {
    hide Locate, ReadAt, Wrap, Bank, RegSet, RegGet;
    var a: int, k: int := Reg32(s, A7), Stride(A7, z);
    assert k == 2 || k == 4;
    WrapSmall(Reg32(s, A7));
    EvenLocate(|s.mem|, a, z);
    EvenLocate(|s.mem|, a + k, z);
    SetLong(s, A7, Wrap(a + k));
    hide SetReg, Reg32;
  }

  /** From an even A7 no mixed-size sequence fails alignment: the only fault left is the memory bound. */
  lemma {:induction false} A7StaysAligned(s: State, ops: seq<Op>)
    requires Reg32(s, A7) % 2 == 0
    ensures Even(RunOps(s, A7, ops))
    decreases ops
  {
    hide GetData, SetData, Reg32;
    if ops != [] {
      var op := ops[0];
      match op
      case Push(z, d) =>
        EvenPush(s, z, d);
        if SetData(s, PreDecrement, A7, z, d).Ok? {
          A7StaysAligned(SetData(s, PreDecrement, A7, z, d).state, ops[1..]);
        }
      case Pop(z) =>
        EvenPop(s, z);
        if GetData(s, PostIncrement, A7, z).Ok? {
          A7StaysAligned(GetData(s, PostIncrement, A7, z).state, ops[1..]);
        }
    }
  }
}
