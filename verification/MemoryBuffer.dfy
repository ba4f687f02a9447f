// The memory object over its byte buffer (src/memory.cpp): the accesses of Memory.dfy, in place.

module MemoryBuffer {
  import opened Helpers
  import opened Memory

  class BaseMemory {
    const baseAddr: array<byte>

    /** Takes over a buffer; the self-test leaves its last byte cleared. A null buffer has no bytes, and
        is left alone. */
    constructor (buffer: array?<byte>)
      requires buffer == null || buffer.Length > 0
      modifies buffer
      ensures if buffer == null then fresh(baseAddr) && baseAddr.Length == 0
              else baseAddr == buffer && buffer[..] == old(buffer[..])[buffer.Length - 1 := 0]
    {
      if buffer == null {
        baseAddr := new byte[0];
      } else {
        baseAddr := buffer;
      }
      new;
      if buffer != null {
        buffer[buffer.Length - 1] := 0;
      }
    }

    /** Shifts in one byte after another, most significant first. */
    method ReadRealMem(a: nat, z: Size) returns (data: u32)
      requires a + Bytes(z) <= baseAddr.Length
      ensures data == ReadAt(baseAddr[..], a, z)
    {
      data := baseAddr[a];
      match z
      case Byte =>
      case Word =>
        data := 0x100 * data + baseAddr[a + 1];
      case Long =>
        data := 0x100 * data + baseAddr[a + 1];
        data := 0x100 * data + baseAddr[a + 2];
        data := 0x100 * data + baseAddr[a + 3];
    }

    method WriteRealMem(a: nat, z: Size, data: u32)
      requires a + Bytes(z) <= baseAddr.Length
      modifies baseAddr
      ensures baseAddr[..] == WriteAt(old(baseAddr[..]), a, z, data)
    {
      match z
      case Byte =>
        baseAddr[a] := data % 0x100;
      case Word =>
        baseAddr[a] := data / 0x100 % 0x100;
        baseAddr[a + 1] := data % 0x100;
      case Long =>
        baseAddr[a] := data / 0x100_0000 % 0x100;
        baseAddr[a + 1] := data / 0x1_0000 % 0x100;
        baseAddr[a + 2] := data / 0x100 % 0x100;
        baseAddr[a + 3] := data % 0x100;
    }

    method Get(address: u32, z: Size) returns (r: Access<u32>)
      ensures r == MemGet(baseAddr[..], address, z)
    {
      var a := address % 0x100_0000;
      if z != Byte && a % 2 != 0 {
        return Fault(OddAddress);
      }
      if a + Bytes(z) > baseAddr.Length {
        return Fault(OutOfRange);
      }
      var data := ReadRealMem(a, z);
      return Value(data);
    }

    method Set(address: u32, z: Size, data: u32) returns (r: Access<()>)
      modifies baseAddr
      ensures match MemSet(old(baseAddr[..]), address, z, data)
              case Value(m) => r == Value(()) && baseAddr[..] == m
              case Fault(e) => r == Fault(e) && baseAddr[..] == old(baseAddr[..])
    {
      var a := address % 0x100_0000;
      if z != Byte && a % 2 != 0 {
        return Fault(OddAddress);
      }
      if a + Bytes(z) > baseAddr.Length {
        return Fault(OutOfRange);
      }
      WriteRealMem(a, z, data);
      return Value(());
    }
  }
}
