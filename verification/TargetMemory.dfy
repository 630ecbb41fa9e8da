/** The memory of the profiled process: a partial map from addresses to bytes.
    A read of several bytes fails as a whole when one of them is unmapped. */
module TargetMemory {
  import opened Wrappers

  const U64_MAX: nat := 0xFFFF_FFFF_FFFF_FFFF

  type Byte = b: int | 0 <= b < 256

  type Memory = map<nat, Byte>

  predicate Readable(m: Memory, addr: nat, n: nat) {
    forall a | addr <= a < addr + n :: a in m
  }

  predicate ByteAt(m: Memory, addr: nat, b: Byte) {
    addr in m && m[addr] == b
  }

  predicate PlacedAt(m: Memory, addr: nat, bytes: seq<Byte>) {
    forall i | 0 <= i < |bytes| :: ByteAt(m, addr + i, bytes[i])
  }

  function CopyBytes(m: Memory, addr: nat, n: nat): (r: Option<seq<Byte>>)
    ensures r.Some? <==> Readable(m, addr, n)
    ensures r.Some? ==> |r.value| == n && PlacedAt(m, addr, r.value)
  {
    if Readable(m, addr, n)
    then Some(seq(n, i requires 0 <= i < n && Readable(m, addr, n) => m[addr + i]))
    else None
  }

  function FromLittleEndian(bytes: seq<Byte>): nat {
    if bytes == [] then 0 else bytes[0] + 256 * FromLittleEndian(bytes[1..])
  }

  /** A little-endian unsigned integer of `n` bytes. */
  function CopyUint(m: Memory, addr: nat, n: nat): Option<nat> {
    var bytes :- CopyBytes(m, addr, n);
    Some(FromLittleEndian(bytes))
  }

  function ToLittleEndian(v: nat, width: nat): (bytes: seq<Byte>)
    ensures |bytes| == width
  {
    if width == 0 then [] else [v % 256] + ToLittleEndian(v / 256, width - 1)
  }

  /** The lowest byte comes first. */
  lemma LowestByteFirst(a: Byte, b: Byte, c: Byte, d: Byte)
    ensures ToLittleEndian(a + 0x100 * b + 0x1_0000 * c + 0x100_0000 * d, 4) == [a, b, c, d]
  {
    var v := a + 0x100 * b + 0x1_0000 * c + 0x100_0000 * d;
    assert ToLittleEndian(v / 0x100 / 0x100 / 0x100, 1) == [d] + ToLittleEndian(d / 0x100, 0);
    assert ToLittleEndian(v / 0x100 / 0x100, 2) == [c, d];
    assert ToLittleEndian(v / 0x100, 3) == [b, c, d];
  }

  function Pow256(width: nat): nat {
    if width == 0 then 1 else 256 * Pow256(width - 1)
  }

  lemma {:induction false} LittleEndianRoundTrip(v: nat, width: nat)
    requires v < Pow256(width)
    ensures FromLittleEndian(ToLittleEndian(v, width)) == v
  {
    if width == 0 {
    } else {
      LittleEndianRoundTrip(v / 256, width - 1);
      assert ToLittleEndian(v, width)[1..] == ToLittleEndian(v / 256, width - 1);
    }
  }

  lemma CopyPlaced(m: Memory, addr: nat, bytes: seq<Byte>, k: nat, n: nat)
    requires PlacedAt(m, addr, bytes)
    requires k + n <= |bytes|
    ensures CopyBytes(m, addr + k, n) == Some(bytes[k..k + n])
  {
    forall a | addr + k <= a < addr + k + n ensures a in m {
      var b := bytes[a - addr];
    }
    var got := CopyBytes(m, addr + k, n).value;
    forall i | 0 <= i < n ensures got[i] == bytes[k + i] {
      assert addr + k + i == addr + (k + i);
    }
    assert got == bytes[k..k + n];
  }

  lemma FieldAt(m: Memory, addr: nat, bytes: seq<Byte>, offset: nat, v: nat, width: nat)
    requires PlacedAt(m, addr, bytes)
    requires offset + width <= |bytes| && bytes[offset..offset + width] == ToLittleEndian(v, width)
    requires width == 2 || width == 4 || width == 8
    requires v < if width == 2 then 0x1_0000 else if width == 4 then 0x1_0000_0000 else U64_MAX + 1
    ensures CopyUint(m, addr + offset, width) == Some(v)
  {
    CopyPlaced(m, addr, bytes, offset, width);
    assert Pow256(2) == 0x1_0000;
    assert Pow256(4) == 256 * 256 * Pow256(2);
    assert Pow256(8) == 256 * 256 * 256 * 256 * Pow256(4);
    LittleEndianRoundTrip(v, width);
  }

  /** Memory with the bytes written over what was there. */
  function Write(m: Memory, addr: nat, bytes: seq<Byte>): Memory
    decreases |bytes|
  {
    if bytes == [] then m else Write(m, addr, bytes[..|bytes| - 1])[addr + |bytes| - 1 := bytes[|bytes| - 1]]
  }

  lemma {:induction false} WrittenIsPlaced(m: Memory, addr: nat, bytes: seq<Byte>)
    ensures PlacedAt(Write(m, addr, bytes), addr, bytes)
    decreases |bytes|
  {
    if bytes != [] {
      var front, after := bytes[..|bytes| - 1], Write(m, addr, bytes);
      WrittenIsPlaced(m, addr, front);
      forall i | 0 <= i < |bytes| ensures ByteAt(after, addr + i, bytes[i]) {
        if i < |front| {
          assert ByteAt(Write(m, addr, front), addr + i, front[i]);
        }
      }
    }
  }

  lemma {:induction false} WriteElsewhere(m: Memory, addr: nat, bytes: seq<Byte>, other: nat, there: seq<Byte>)
    requires PlacedAt(m, other, there)
    requires addr + |bytes| <= other || other + |there| <= addr
    ensures PlacedAt(Write(m, addr, bytes), other, there)
    decreases |bytes|
  {
    if bytes != [] {
      var before, after := Write(m, addr, bytes[..|bytes| - 1]), Write(m, addr, bytes);
      WriteElsewhere(m, addr, bytes[..|bytes| - 1], other, there);
      forall i | 0 <= i < |there| ensures ByteAt(after, other + i, there[i]) {
        assert ByteAt(before, other + i, there[i]);
      }
    }
  }

  /** Bytes and where they are written. */
  datatype Placed = Placed(addr: nat, bytes: seq<Byte>)

  function WriteAll(items: seq<Placed>): Memory {
    if items == [] then map[]
    else Write(WriteAll(items[..|items| - 1]), items[|items| - 1].addr, items[|items| - 1].bytes)
  }

  /** One after the other, without overlap. */
  predicate Ascending(items: seq<Placed>) {
    forall i, j | 0 <= i < j < |items| :: items[i].addr + |items[i].bytes| <= items[j].addr
  }

  lemma {:induction false} AllArePlaced(items: seq<Placed>)
    requires Ascending(items)
    ensures forall i | 0 <= i < |items| :: PlacedAt(WriteAll(items), items[i].addr, items[i].bytes)
  {
    if items != [] {
      hide PlacedAt, Write;
      var front, last := items[..|items| - 1], items[|items| - 1];
      AllArePlaced(front);
      WrittenIsPlaced(WriteAll(front), last.addr, last.bytes);
      forall i | 0 <= i < |front| ensures PlacedAt(WriteAll(items), items[i].addr, items[i].bytes) {
        assert front[i] == items[i];
        WriteElsewhere(WriteAll(front), last.addr, last.bytes, items[i].addr, items[i].bytes);
      }
    }
  }
}
