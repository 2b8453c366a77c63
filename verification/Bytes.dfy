/** Octets, fixed-width integers and the big/little-endian field codecs of src/bytes.rs. */
module Bytes {

  type byte = x: int | 0 <= x < 0x100
  type bytes = seq<byte>
  type u32 = x: int | 0 <= x < 0x1_0000_0000
  type u64 = x: int | 0 <= x < 0x1_0000_0000_0000_0000

  const U32_MODULUS: int := 0x1_0000_0000
  const U64_MAX: int := 0xFFFF_FFFF_FFFF_FFFF

  datatype Option<+T> = None | Some(value: T)

  datatype ErrorCode = Io | BadChunk | Internal | Protocol | Amf | Unsupported | Timeout

  datatype Result<+T> = Ok(value: T) | Err(error: ErrorCode)

  function Min(a: int, b: int): int {
    if a <= b then a else b
  }

  function Max(a: int, b: int): int {
    if a <= b then b else a
  }

  /** `usize::saturating_sub` */
  function SatSub(a: nat, b: nat): nat {
    if a <= b then 0 else a - b
  }

  /** `u32::wrapping_add` */
  function WrapAdd32(a: u32, b: u32): u32 {
    (a + b) % U32_MODULUS
  }

  /** Big-endian fields; the values are masked to their width, as the shifts in the source do. */
  function Be16(v: nat): (s: bytes)
    ensures |s| == 2
  {
    [v / 0x100 % 0x100, v % 0x100]
  }

  function Be24(v: nat): (s: bytes)
    ensures |s| == 3
  {
    Be16(v / 0x100) + [v % 0x100]
  }

  function Be32(v: nat): (s: bytes)
    ensures |s| == 4
  {
    Be24(v / 0x100) + [v % 0x100]
  }

  function Le32(v: nat): (s: bytes)
    ensures |s| == 4
  {
    var s := Be32(v);
    [s[3], s[2], s[1], s[0]]
  }

  /** One more big-endian digit. */
  function Shift(hi: nat, lo: byte): nat {
    hi * 0x100 + lo
  }

  lemma ShiftParts(hi: nat, lo: byte)
    ensures Shift(hi, lo) / 0x100 == hi && Shift(hi, lo) % 0x100 == lo
  {
  }

  /** The number that octets write in big-endian order. */
  function FromBe(s: bytes): nat {
    if s == [] then 0 else Shift(FromBe(s[..|s| - 1]), s[|s| - 1])
  }

  lemma FromBeBound(s: bytes)
    requires |s| <= 4
    ensures |s| == 0 ==> FromBe(s) == 0
    ensures |s| == 1 ==> FromBe(s) < 0x100
    ensures |s| == 2 ==> FromBe(s) < 0x1_0000
    ensures |s| == 3 ==> FromBe(s) < 0x100_0000
    ensures |s| == 4 ==> FromBe(s) < U32_MODULUS
  {
    if s != [] {
      FromBeBound(s[..|s| - 1]);
    }
  }

  lemma FromBeLast(s: bytes, lo: byte)
    ensures FromBe(s + [lo]) == Shift(FromBe(s), lo)
  {
    assert (s + [lo])[..|s|] == s;
  }

  function FromBe16(s: bytes): (v: nat)
    requires |s| >= 2
    ensures v < 0x1_0000
  {
    FromBeBound(s[..2]);
    FromBe(s[..2])
  }

  function FromBe24(s: bytes): (v: nat)
    requires |s| >= 3
    ensures v < 0x100_0000
  {
    FromBeBound(s[..3]);
    FromBe(s[..3])
  }

  function FromBe32(s: bytes): u32
    requires |s| >= 4
  {
    FromBeBound(s[..4]);
    FromBe(s[..4])
  }

  function FromLe32(s: bytes): u32
    requires |s| >= 4
  {
    FromBe32([s[3], s[2], s[1], s[0]])
  }

  /** A field is read from its own octets, whatever follows them. */
  lemma FieldsAgree(s: bytes, t: bytes, n: nat)
    requires n <= |s| && n <= |t| && s[..n] == t[..n]
    ensures n >= 2 ==> FromBe16(s) == FromBe16(t)
    ensures n >= 3 ==> FromBe24(s) == FromBe24(t)
    ensures n >= 4 ==> FromBe32(s) == FromBe32(t) && FromLe32(s) == FromLe32(t)
  {
    assert forall k :: 0 <= k <= n ==> s[..k] == s[..n][..k] && t[..k] == t[..n][..k];
    if n >= 4 {
      assert s[0] == s[..n][0] && s[1] == s[..n][1] && s[2] == s[..n][2] && s[3] == s[..n][3];
    }
  }

  /** Every field codec is a bijection between its width's values and its octet strings. */
  lemma Be16Decodes(v: nat, rest: bytes)
    requires v < 0x1_0000
    ensures FromBe16(Be16(v) + rest) == v
  {
    FromBeLast([], v / 0x100 % 0x100);
    FromBeLast([v / 0x100 % 0x100], v % 0x100);
    assert (Be16(v) + rest)[..2] == [] + [v / 0x100 % 0x100] + [v % 0x100];
  }

  lemma Be16Encodes(s: bytes)
    requires |s| >= 2
    ensures Be16(FromBe16(s)) == s[..2]
  {
    FromBeLast([], s[0]);
    FromBeLast([s[0]], s[1]);
    assert s[..2] == [] + [s[0]] + [s[1]];
    ShiftParts(FromBe([s[0]]), s[1]);
  }

  lemma Be24Decodes(v: nat, rest: bytes)
    requires v < 0x100_0000
    ensures FromBe24(Be24(v) + rest) == v
  {
    Be16Decodes(v / 0x100, []);
    FromBeLast(Be16(v / 0x100), v % 0x100);
    assert (Be16(v / 0x100) + [])[..2] == Be16(v / 0x100);
    assert (Be24(v) + rest)[..3] == Be16(v / 0x100) + [v % 0x100];
  }

  lemma Be24Encodes(s: bytes)
    requires |s| >= 3
    ensures Be24(FromBe24(s)) == s[..3]
  {
    Be16Encodes(s);
    FromBeLast(s[..2], s[2]);
    assert s[..3] == s[..2] + [s[2]];
    ShiftParts(FromBe16(s), s[2]);
  }

  lemma Be32Decodes(v: nat, rest: bytes)
    requires v < U32_MODULUS
    ensures FromBe32(Be32(v) + rest) == v
  {
    Be24Decodes(v / 0x100, []);
    FromBeLast(Be24(v / 0x100), v % 0x100);
    assert (Be24(v / 0x100) + [])[..3] == Be24(v / 0x100);
    assert (Be32(v) + rest)[..4] == Be24(v / 0x100) + [v % 0x100];
  }

  lemma Be32Encodes(s: bytes)
    requires |s| >= 4
    ensures Be32(FromBe32(s)) == s[..4]
  {
    Be24Encodes(s);
    FromBeLast(s[..3], s[3]);
    assert s[..4] == s[..3] + [s[3]];
    ShiftParts(FromBe24(s), s[3]);
  }

  lemma Le32Decodes(v: nat, rest: bytes)
    requires v < U32_MODULUS
    ensures FromLe32(Le32(v) + rest) == v
  {
    var s := Le32(v) + rest;
    assert [s[3], s[2], s[1], s[0]] == Be32(v) + [];
    Be32Decodes(v, []);
  }

  lemma TakeAfterDrop(s: bytes, i: nat, j: nat)
    requires i + j <= |s|
    ensures s[i..][..j] == s[i..i + j]
  {
  }

  lemma DropDrop(s: bytes, i: nat, j: nat)
    requires i + j <= |s|
    ensures s[i..][j..] == s[i + j..]
    ensures s[i..i + j] <= s[i..]
  {
  }

  lemma UpdateTwice<T>(s: seq<T>, i: nat, a: T, b: T)
    requires i < |s|
    ensures s[i := a][i := b] == s[i := b]
  {
  }

  lemma Regroup<T>(a: seq<T>, b: seq<T>, c: seq<T>)
    ensures (a + b) + c == a + (b + c)
    ensures [] + c == c
  {
  }
}
