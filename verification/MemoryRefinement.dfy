// The byte memory against the simplest thing it could mean: every byte of the bus holds what
// the last write covering it put there (src/memory.cpp).

module MemoryRefinement {
  import opened Helpers
  import opened Memory

  datatype Write = Write(address: u32, z: Size, data: u32)

  /** The bus byte a write lands on first. */
  function Start(w: Write): nat {
    w.address % 0x100_0000
  }

  predicate Covers(w: Write, i: nat) {
    Start(w) <= i < Start(w) + Bytes(w.z)
  }

  /** Digit k of a number written with n base-256 digits, most significant first. */
  function Digit(data: nat, n: nat, k: nat): byte
    requires k < n
  {
    if k == n - 1 then data % 0x100 else Digit(data / 0x100, n - 1, k)
  }

  /** The byte map: byte i after a list of writes. */
  function Latest(mem: seq<byte>, writes: seq<Write>, i: nat): byte
    requires i < |mem|
  {
    if writes == [] then mem[i]
    else
      var w := writes[|writes| - 1];
      if Covers(w, i) then Digit(w.data, Bytes(w.z), i - Start(w)) else Latest(mem, writes[..|writes| - 1], i)
  }

  /** The value of n bytes of the map from byte i on. */
  function MapValue(mem: seq<byte>, writes: seq<Write>, i: nat, n: nat): nat
    requires i + n <= |mem|
  {
    BigEndian(seq<byte>(n, k requires 0 <= k < n => Latest(mem, writes, i + k)))
  }

  /** A sequence of set calls, stopping at the first that throws. */
  function WriteAll(mem: seq<byte>, writes: seq<Write>): Access<seq<byte>> {
    if writes == [] then Value(mem)
    else
      var m :- WriteAll(mem, writes[..|writes| - 1]);
      var w := writes[|writes| - 1];
      MemSet(m, w.address, w.z, w.data)
  }

  lemma DigitsOf(data: u32)
    ensures Digit(data, 1, 0) == data % 0x100
    ensures Digit(data, 2, 0) == data / 0x100 % 0x100 && Digit(data, 2, 1) == data % 0x100
    ensures Digit(data, 4, 0) == data / 0x100_0000 % 0x100 && Digit(data, 4, 1) == data / 0x1_0000 % 0x100
    ensures Digit(data, 4, 2) == data / 0x100 % 0x100 && Digit(data, 4, 3) == data % 0x100
  {
    var d1, d2, d3 := data / 0x100, data / 0x100 / 0x100, data / 0x100 / 0x100 / 0x100;
    assert Digit(d1, 1, 0) == d1 % 0x100;
    assert Digit(d3, 1, 0) == d3 % 0x100;
    assert Digit(d2, 2, 0) == Digit(d3, 1, 0) && Digit(d2, 2, 1) == d2 % 0x100;
    assert Digit(d1, 3, 0) == Digit(d2, 2, 0) && Digit(d1, 3, 1) == Digit(d2, 2, 1) && Digit(d1, 3, 2) == d1 % 0x100;
    assert d2 == data / 0x1_0000 && d3 == data / 0x100_0000;
  }

  /** One write puts its digits on the bytes it covers and leaves the rest. */
  lemma WriteDigits(mem: seq<byte>, w: Write, i: nat)
    requires Start(w) + Bytes(w.z) <= |mem| && i < |mem|
    ensures WriteAt(mem, Start(w), w.z, w.data)[i]
            == if Covers(w, i) then Digit(w.data, Bytes(w.z), i - Start(w)) else mem[i]
  {
    DigitsOf(w.data);
    hide Digit;
  }

  lemma ValueOf(mem: seq<byte>, a: nat, z: Size)
    requires a + Bytes(z) <= |mem|
    ensures ReadAt(mem, a, z) == BigEndian(mem[a..a + Bytes(z)])
  {
    var bytes := mem[a..a + Bytes(z)];
    Numeral(bytes);
  }

  lemma Numeral(b: seq<byte>)
    ensures |b| == 1 ==> BigEndian(b) == b[0]
    ensures |b| == 2 ==> BigEndian(b) == 0x100 * b[0] as int + b[1]
    ensures |b| == 4 ==> BigEndian(b) == 0x100_0000 * b[0] as int + 0x1_0000 * b[1] as int + 0x100 * b[2] as int + b[3]
  {
    if |b| == 4 {
      assert b[..3][..2] == b[..2] && b[..2][..1] == b[..1];
      assert BigEndian(b[..1]) == b[0];
    } else if |b| == 2 {
      assert BigEndian(b[..1]) == b[0];
    }
  }

  /** Every byte of memory is the byte of the map, after any sequence of successful writes. */
  lemma {:induction false} RefinesByteMap(mem: seq<byte>, writes: seq<Write>, i: nat)
    requires WriteAll(mem, writes).Value? && i < |mem|
    ensures |WriteAll(mem, writes).value| == |mem|
    ensures WriteAll(mem, writes).value[i] == Latest(mem, writes, i)
  {
    if writes != [] {
      var rest, w := writes[..|writes| - 1], writes[|writes| - 1];
      RefinesByteMap(mem, rest, i);
      WriteDigits(WriteAll(mem, rest).value, w, i);
      hide WriteAt, Digit;
    }
  }

  /** A sequence of writes goes through exactly when each write fits the memory it started from. */
  lemma {:induction false} WritesFit(mem: seq<byte>, writes: seq<Write>)
    ensures WriteAll(mem, writes).Value?
            <==> forall j :: 0 <= j < |writes| ==> Locate(|mem|, writes[j].address, writes[j].z).Value?
    ensures WriteAll(mem, writes).Value? ==> |WriteAll(mem, writes).value| == |mem|
  {
    hide Locate;
    if writes != [] {
      var n := |writes| - 1;
      WritesFit(mem, writes[..n]);
      assert forall j :: 0 <= j < n ==> writes[..n][j] == writes[j];
    }
  }

  /** Any sized read after any writes, overlapping or nested, is the big-endian value of the map
      at the address cut to 24 bits; it fails exactly when it would have before the writes. */
  lemma ReadsByteMap(mem: seq<byte>, writes: seq<Write>, address: u32, z: Size)
    requires WriteAll(mem, writes).Value?
    ensures var r, at := MemGet(WriteAll(mem, writes).value, address, z), Locate(|mem|, address, z);
            match at
            case Value(i) => r == Value(MapValue(mem, writes, address % 0x100_0000, Bytes(z)))
            case Fault(e) => r == Fault(e)
  {
    hide WriteAll, ReadAt, Latest, BigEndian;
    WritesFit(mem, writes);
    var m := WriteAll(mem, writes).value;
    var at := Locate(|mem|, address, z);
    if at.Value? {
      var a, n := address % 0x100_0000, Bytes(z);
      var bytes := seq<byte>(n, k requires 0 <= k < n => Latest(mem, writes, a + k));
      forall k | 0 <= k < n ensures m[a + k] == bytes[k] {
        RefinesByteMap(mem, writes, a + k);
      }
      assert m[a..a + n] == bytes;
      ValueOf(m, a, z);
    }
  }

  /** Addresses that differ only above bit 23 are one address. */
  lemma TopByteIgnored(mem: seq<byte>, a: u32, b: u32, z: Size, data: u32)
    requires a % 0x100_0000 == b % 0x100_0000
    ensures MemGet(mem, a, z) == MemGet(mem, b, z) && MemSet(mem, a, z, data) == MemSet(mem, b, z, data)
  {
  }

  /** Bytes no write covers keep their first value. */
  lemma {:induction false} Untouched(mem: seq<byte>, writes: seq<Write>, i: nat)
    requires i < |mem| && forall j :: 0 <= j < |writes| ==> !Covers(writes[j], i)
    ensures Latest(mem, writes, i) == mem[i]
  {
    if writes != [] {
      Untouched(mem, writes[..|writes| - 1], i);
    }
  }
}
