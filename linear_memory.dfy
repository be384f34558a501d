/**
 * The guest's linear memory seen as a sequence of bytes, with the 32-bit
 * little-endian loads and stores of the WebAssembly core specification
 * (WebAssembly Core Specification 1.0, section 2.4.4, memory instructions).
 */
module LinearMemory {
  import opened Outcomes

  type byte = x: int | 0 <= x < 256

  const U32_LIMIT: int := 0x1_0000_0000
  const I32_LIMIT: int := 0x8000_0000

  type u32 = x: int | 0 <= x < 0x1_0000_0000
  type i32 = x: int | -0x8000_0000 <= x < 0x8000_0000

  /** Truncation to 32 bits, as a Go `uint32(...)` conversion does. */
  function Wrap32(x: nat): u32 { x % U32_LIMIT }

  /** The signed reading of a 32-bit pattern (an i32 as JavaScript and Python see it). */
  function AsSigned(x: u32): i32 { if x < I32_LIMIT then x else x - U32_LIMIT }

  /** The 32-bit pattern of a signed i32 (what the guest receives for it). */
  function AsUnsigned(x: i32): u32 { if x < 0 then x + U32_LIMIT else x }

  function DecodeU32Le(b: seq<byte>): u32
    requires |b| == 4
  {
    b[0] as int + 0x100 * b[1] as int + 0x1_0000 * b[2] as int + 0x100_0000 * b[3] as int
  }

  function EncodeU32Le(x: u32): (r: seq<byte>)
    ensures |r| == 4
  {
    [x % 256, (x / 256) % 256, (x / 256 / 256) % 256, x / 256 / 256 / 256]
  }

  /** Decoding an encoded word gives the word back. */
  lemma DecodeEncodeU32(x: u32)
    ensures DecodeU32Le(EncodeU32Le(x)) == x
  {
    var q1 := x / 256;
    var q2 := q1 / 256;
    var q3 := q2 / 256;
    assert x == x % 256 + 256 * q1;
    assert q1 == q1 % 256 + 256 * q2;
    assert q2 == q2 % 256 + 256 * q3;
  }

  /** Encoding a decoded word gives the four bytes back. */
  lemma EncodeDecodeU32(b: seq<byte>)
    requires |b| == 4
    ensures EncodeU32Le(DecodeU32Le(b)) == b
  {
    var x := DecodeU32Le(b);
    var q1: int := b[1] as int + 0x100 * b[2] as int + 0x1_0000 * b[3] as int;
    var q2: int := b[2] as int + 0x100 * b[3] as int;
    assert x == b[0] as int + 256 * q1;
    assert x % 256 == b[0] && x / 256 == q1;
    assert q1 == b[1] as int + 256 * q2;
    assert q1 % 256 == b[1] && q1 / 256 == q2;
    assert q2 % 256 == b[2] && q2 / 256 == b[3];
  }

  /** The `count` bytes at `offset`, or None when they are not all inside memory. */
  function Load(mem: seq<byte>, offset: int, count: int): (r: Option<seq<byte>>)
    requires 0 <= offset && 0 <= count
    ensures r.Some? <==> offset + count <= |mem|
    ensures r.Some? ==> |r.value| == count
  {
    if offset + count <= |mem| then Some(mem[offset..offset + count]) else None
  }

  /** The little-endian 32-bit word at `offset`, or None when it is not inside memory. */
  function LoadU32(mem: seq<byte>, offset: int): (r: Option<u32>)
    requires 0 <= offset
    ensures r.Some? <==> offset + 4 <= |mem|
    ensures r.Some? ==> EncodeU32Le(r.value) == mem[offset..offset + 4]
  {
    if offset + 4 <= |mem| then
      EncodeDecodeU32(mem[offset..offset + 4]);
      Some(DecodeU32Le(mem[offset..offset + 4]))
    else None
  }

  /**
   * Memory after writing `data` at `offset`; a write that does not fit
   * entirely leaves memory as it was.
   */
  function Store(mem: seq<byte>, offset: int, data: seq<byte>): (r: seq<byte>)
    requires 0 <= offset
    ensures |r| == |mem|
    ensures forall i | 0 <= i < |mem| ::
      r[i] == if offset + |data| <= |mem| && offset <= i < offset + |data| then data[i - offset] else mem[i]
  {
    if offset + |data| <= |mem| then mem[..offset] + data + mem[offset + |data|..] else mem
  }

  /** Data stored inside memory is read back unchanged. */
  lemma LoadAfterStore(mem: seq<byte>, offset: nat, data: seq<byte>)
    requires offset + |data| <= |mem|
    ensures Load(Store(mem, offset, data), offset, |data|) == Some(data)
  {
    var m := Store(mem, offset, data);
    assert m[offset..offset + |data|] == data;
  }

  /** A store leaves every byte range it does not overlap as it was. */
  lemma LoadBesideStore(mem: seq<byte>, offset: nat, data: seq<byte>, at: nat, count: nat)
    requires at + count <= offset || offset + |data| <= at
    ensures Load(Store(mem, offset, data), at, count) == Load(mem, at, count)
  {
    var m := Store(mem, offset, data);
    if at + count <= |mem| {
      assert m[at..at + count] == mem[at..at + count];
    }
  }

  /** Two adjacent writes are one write of the concatenation. */
  lemma StoreAdjacent(mem: seq<byte>, offset: nat, a: seq<byte>, b: seq<byte>)
    requires offset + |a| + |b| <= |mem|
    ensures Store(Store(mem, offset, a), offset + |a|, b) == Store(mem, offset, a + b)
  {
    var left := Store(Store(mem, offset, a), offset + |a|, b);
    var right := Store(mem, offset, a + b);
    forall i | 0 <= i < |mem|
      ensures left[i] == right[i]
    {
    }
  }

  /** A word stored in memory is loaded back unchanged. */
  lemma LoadU32AfterStore(mem: seq<byte>, offset: nat, x: u32)
    requires offset + 4 <= |mem|
    ensures LoadU32(Store(mem, offset, EncodeU32Le(x)), offset) == Some(x)
  {
    LoadAfterStore(mem, offset, EncodeU32Le(x));
    DecodeEncodeU32(x);
  }

  /**
   * What a guest reading a zero-terminated buffer at `offset` obtains: the
   * bytes up to the first zero byte, or None when memory ends first.
   */
  function CStringAt(mem: seq<byte>, offset: nat): (r: Option<seq<byte>>)
    ensures r.Some? ==> offset + |r.value| < |mem| && mem[offset + |r.value|] == 0
    ensures r.Some? ==> mem[offset..offset + |r.value|] == r.value && 0 !in r.value
    decreases |mem| - offset
  {
    if offset >= |mem| then None
    else if mem[offset] == 0 then Some([])
    else match CStringAt(mem, offset + 1) {
      case None => None
      case Some(rest) => Some([mem[offset]] + rest)
    }
  }

  /** A zero-free string followed by a zero byte is read back whole. */
  lemma {:induction false} CStringOfTerminated(mem: seq<byte>, offset: nat, s: seq<byte>)
    requires offset + |s| < |mem| && mem[offset..offset + |s|] == s && mem[offset + |s|] == 0
    requires 0 !in s
    ensures CStringAt(mem, offset) == Some(s)
    decreases |s|
  {
    if s != [] {
      assert mem[offset] == s[0];
      assert mem[offset + 1..offset + 1 + |s[1..]|] == s[1..];
      CStringOfTerminated(mem, offset + 1, s[1..]);
      assert [s[0]] + s[1..] == s;
    }
  }
}
