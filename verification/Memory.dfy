// Big-endian byte memory with a 24-bit address bus (src/memory.cpp).

module Memory {
  import opened Helpers

  /** The C++ exceptions an instruction can raise. */
  datatype Error = OddAddress | OutOfRange | InvalidOpcode

  /** A C++ call that returns a value or throws. */
  datatype Access<+T> = Value(value: T) | Fault(error: Error) {
    predicate IsFailure() { Fault? }
    function PropagateFailure<U>(): Access<U>
      requires Fault?
    {
      Fault(error)
    }
    function Extract(): T
      requires Value?
    {
      value
    }
  }

  /** Where an access of a given size lands in a memory of `len` bytes, or why it fails. */
  function Locate(len: nat, address: u32, z: Size): (r: Access<nat>)
    ensures r.Value? ==> r.value + Bytes(z) <= len && r.value == address % 0x100_0000
  {
    var a := address % 0x100_0000;
    if z != Byte && a % 2 != 0 then Fault(OddAddress)
    else if a + Bytes(z) > len then Fault(OutOfRange)
    else Value(a)
  }

  function BigEndian(bytes: seq<byte>): nat {
    if bytes == [] then 0 else 0x100 * BigEndian(bytes[..|bytes| - 1]) + bytes[|bytes| - 1]
  }

  function ReadAt(mem: seq<byte>, a: nat, z: Size): (r: u32)
    requires a + Bytes(z) <= |mem|
    ensures r < Modulus(z)
  {
    match z
    case Byte => mem[a]
    case Word => 0x100 * (mem[a] as int) + mem[a + 1]
    case Long =>
      0x100_0000 * (mem[a] as int) + 0x1_0000 * (mem[a + 1] as int) + 0x100 * (mem[a + 2] as int) + mem[a + 3]
  }

  function WriteAt(mem: seq<byte>, a: nat, z: Size, data: u32): (r: seq<byte>)
    requires a + Bytes(z) <= |mem|
    ensures |r| == |mem|
    ensures forall i :: 0 <= i < |mem| && !(a <= i < a + Bytes(z)) ==> r[i] == mem[i]
  {
    match z
    case Byte => mem[a := data % 0x100]
    case Word => mem[a := data / 0x100 % 0x100][a + 1 := data % 0x100]
    case Long =>
      mem[a := data / 0x100_0000 % 0x100][a + 1 := data / 0x1_0000 % 0x100]
         [a + 2 := data / 0x100 % 0x100][a + 3 := data % 0x100]
  }

  function MemGet(mem: seq<byte>, address: u32, z: Size): (r: Access<u32>)
    ensures r.Value? <==> Locate(|mem|, address, z).Value?
    ensures r.Value? ==> r.value < Modulus(z)
  {
    var a :- Locate(|mem|, address, z);
    Value(ReadAt(mem, a, z))
  }

  function MemSet(mem: seq<byte>, address: u32, z: Size, data: u32): (r: Access<seq<byte>>)
    ensures r.Value? <==> Locate(|mem|, address, z).Value?
    ensures r.Value? ==> |r.value| == |mem|
  {
    var a :- Locate(|mem|, address, z);
    Value(WriteAt(mem, a, z, data))
  }

  /** get and set fail alike: on an odd address at word or long size, parity seen before range, and
      otherwise exactly when the cell reaches past the end of memory. */
  lemma FaultsAlike(mem: seq<byte>, address: u32, z: Size, data: u32)
    ensures match MemGet(mem, address, z)
            case Fault(OddAddress) => z != Byte && address % 2 == 1
            case Fault(OutOfRange) => (z == Byte || address % 2 == 0) && address % 0x100_0000 + Bytes(z) > |mem|
            case Fault(InvalidOpcode) => false
            case Value(_) => (z == Byte || address % 2 == 0) && address % 0x100_0000 + Bytes(z) <= |mem|
    ensures match MemSet(mem, address, z, data)
            case Fault(e) => MemGet(mem, address, z) == Fault(e)
            case Value(_) => MemGet(mem, address, z).Value?
  {
    EvenBus(address);
    hide ReadAt, WriteAt;
  }

  lemma Digits(data: u32)
    ensures data % 0x1_0000 == 0x100 * (data / 0x100 % 0x100) + data % 0x100
    ensures data == 0x100_0000 * (data / 0x100_0000 % 0x100) + 0x1_0000 * (data / 0x1_0000 % 0x100)
                    + 0x100 * (data / 0x100 % 0x100) + data % 0x100
  {
    assert data / 0x1_0000 == data / 0x100 / 0x100;
    assert data / 0x100_0000 == data / 0x1_0000 / 0x100;
  }

  /** Reading back the cell just written gives the data truncated to the size. */
  lemma ReadBack(mem: seq<byte>, a: nat, z: Size, data: u32)
    requires a + Bytes(z) <= |mem|
    ensures ReadAt(WriteAt(mem, a, z, data), a, z) == Truncate(data, z)
  {
    Digits(data);
  }

  /** A write leaves every disjoint cell alone. */
  lemma ReadApart(mem: seq<byte>, a: nat, z: Size, data: u32, b: nat, y: Size)
    requires a + Bytes(z) <= |mem| && b + Bytes(y) <= |mem|
    requires b + Bytes(y) <= a || a + Bytes(z) <= b
    ensures ReadAt(WriteAt(mem, a, z, data), b, y) == ReadAt(mem, b, y)
  {
  }

  /** Writing back what a cell holds changes nothing. */
  lemma WriteBack(mem: seq<byte>, a: nat, z: Size, data: u32)
    requires a + Bytes(z) <= |mem|
    requires Truncate(data, z) == ReadAt(mem, a, z)
    ensures WriteAt(mem, a, z, data) == mem
  {
    var m := WriteAt(mem, a, z, data);
    ReadBack(mem, a, z, data);
    assert forall i :: 0 <= i < |mem| ==> m[i] == mem[i];
  }
}
