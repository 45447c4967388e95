/** Bytes, machine integers and the big- and little-endian layouts of utils/bits/pio. */
module Bytes {
  type byte = x: int | 0 <= x < 0x100
  type u16 = x: int | 0 <= x < 0x1_0000
  type u24 = x: int | 0 <= x < 0x100_0000
  type u32 = x: int | 0 <= x < 0x1_0000_0000
  type u64 = x: int | 0 <= x < 0x1_0000_0000_0000_0000

  const TWO32: int := 0x1_0000_0000
  const TWO63: int := 0x8000_0000_0000_0000
  const TWO64: int := 0x1_0000_0000_0000_0000

  /** Nanoseconds in a second: times are in nanoseconds. */
  const SECOND := 1_000_000_000

  datatype Option<+T> = None | Some(value: T)

  /** Go's conversions to narrower unsigned types keep the low bits. */
  function ToU8(x: int): byte { x % 0x100 }
  function ToU16(x: int): u16 { x % 0x1_0000 }
  function ToU24(x: int): u24 { x % 0x100_0000 }
  function ToU32(x: int): u32 { x % TWO32 }
  function ToU64(x: int): u64 { x % TWO64 }

  /** Two's complement views of 32- and 64-bit words. */
  function ToI32(x: int): int { (x + 0x8000_0000) % TWO32 - 0x8000_0000 }
  function ToI64(x: int): int { (x + TWO63) % TWO64 - TWO63 }

  /** Go's integer division truncates toward zero. */
  function Quot(a: int, b: int): int
    requires b > 0
  {
    if a >= 0 then a / b else -(-a / b)
  }

  function BE16(v: u16): (b: seq<byte>)
    ensures |b| == 2
  {
    [v / 0x100, v % 0x100]
  }

  function BE24(v: u24): (b: seq<byte>)
    ensures |b| == 3
  {
    [v / 0x1_0000] + BE16(v % 0x1_0000)
  }

  function BE32(v: u32): (b: seq<byte>)
    ensures |b| == 4
  {
    BE16(v / 0x1_0000) + BE16(v % 0x1_0000)
  }

  function BE64(v: u64): (b: seq<byte>)
    ensures |b| == 8
  {
    BE32(v / TWO32) + BE32(v % TWO32)
  }

  function LE32(v: u32): (b: seq<byte>)
    ensures |b| == 4
  {
    [v % 0x100, v / 0x100 % 0x100, v / 0x1_0000 % 0x100, v / 0x100_0000]
  }

  function U16BE(b: seq<byte>): u16
    requires |b| >= 2
  {
    b[0] as int * 0x100 + b[1] as int
  }

  function U24BE(b: seq<byte>): u24
    requires |b| >= 3
  {
    b[0] as int * 0x1_0000 + U16BE(b[1..])
  }

  function U32BE(b: seq<byte>): u32
    requires |b| >= 4
  {
    U16BE(b) as int * 0x1_0000 + U16BE(b[2..])
  }

  function U64BE(b: seq<byte>): u64
    requires |b| >= 8
  {
    U32BE(b) as int * TWO32 + U32BE(b[4..])
  }

  function U32LE(b: seq<byte>): u32
    requires |b| >= 4
  {
    b[3] as int * 0x100_0000 + b[2] as int * 0x1_0000 + b[1] as int * 0x100 + b[0] as int
  }

  lemma ReadBack16(v: u16, rest: seq<byte>)
    ensures U16BE(BE16(v) + rest) == v
  {
  }

  lemma ReadBack24(v: u24, rest: seq<byte>)
    ensures U24BE(BE24(v) + rest) == v
  {
    assert (BE24(v) + rest)[1..] == BE16(v % 0x1_0000) + rest;
  }

  lemma ReadBack32(v: u32, rest: seq<byte>)
    ensures U32BE(BE32(v) + rest) == v
  {
    assert (BE32(v) + rest)[2..] == BE16(v % 0x1_0000) + rest;
  }

  lemma ReadBack64(v: u64, rest: seq<byte>)
    ensures U64BE(BE64(v) + rest) == v
  {
    assert BE64(v) + rest == BE32(v / TWO32) + (BE32(v % TWO32) + rest);
    assert (BE64(v) + rest)[4..] == BE32(v % TWO32) + rest;
    ReadBack32(v / TWO32, BE32(v % TWO32) + rest);
    ReadBack32(v % TWO32, rest);
  }

  lemma ReadBackLE32(v: u32, rest: seq<byte>)
    ensures U32LE(LE32(v) + rest) == v
  {
    assert v == v / 0x100 * 0x100 + v % 0x100;
    assert v / 0x100 == v / 0x1_0000 * 0x100 + v / 0x100 % 0x100;
    assert v / 0x1_0000 == v / 0x100_0000 * 0x100 + v / 0x1_0000 % 0x100;
  }

  /** Concatenation does not depend on grouping, and nothing adds nothing. */
  lemma Joins<T>(a: seq<T>, b: seq<T>, c: seq<T>)
    ensures a + b + c == a + (b + c)
  {
  }

  lemma NothingAdded<T>(a: seq<T>)
    ensures a + [] == a
  {
  }

  /** Concatenation of a list of pieces, first to last. */
  function Flatten<T>(pieces: seq<seq<T>>): seq<T> {
    if pieces == [] then [] else pieces[0] + Flatten(pieces[1..])
  }

  lemma {:induction false} FlattenAppend<T>(a: seq<seq<T>>, b: seq<seq<T>>)
    ensures Flatten(a + b) == Flatten(a) + Flatten(b)
  {
    if a == [] {
      assert a + b == b;
    } else {
      assert (a + b)[1..] == a[1..] + b;
      FlattenAppend(a[1..], b);
    }
  }

  lemma FlattenSnoc<T>(a: seq<seq<T>>, x: seq<T>)
    ensures Flatten(a + [x]) == Flatten(a) + x
  {
    FlattenAppend(a, [x]);
    assert Flatten([x]) == x;
  }
}
