/**
 SHA-256 and HMAC-SHA256 of src/sha256.rs. The functions state FIPS 180-4 and
 RFC 2104; the methods are the source's loops over arrays and its incremental
 hasher, proved to compute them.
 */
module Sha256s {
  type octet = bv8
  type word = bv32

  const BLOCK: nat := 64

  // Section 4 of FIPS 180-4: functions and constants

  function Rotr(x: word, n: nat): word
    requires n < 32
  {
    x.RotateRight(n)
  }

  /** Addition modulo 2^32. */
  function Add(x: word, y: word): word {
    x + y
  }

  function Choose(x: word, y: word, z: word): word {
    (x & y) ^ (!x & z)
  }

  function Majority(x: word, y: word, z: word): word {
    (x & y) ^ (x & z) ^ (y & z)
  }

  function BigSigma0(x: word): word {
    Rotr(x, 2) ^ Rotr(x, 13) ^ Rotr(x, 22)
  }

  function BigSigma1(x: word): word {
    Rotr(x, 6) ^ Rotr(x, 11) ^ Rotr(x, 25)
  }

  function SmallSigma0(x: word): word {
    Rotr(x, 7) ^ Rotr(x, 18) ^ (x >> 3)
  }

  function SmallSigma1(x: word): word {
    Rotr(x, 17) ^ Rotr(x, 19) ^ (x >> 10)
  }

  function RoundConstants(): (k: seq<word>)
    ensures |k| == 64
  {
    [ 0x428a2f98, 0x71374491, 0xb5c0fbcf, 0xe9b5dba5, 0x3956c25b, 0x59f111f1, 0x923f82a4, 0xab1c5ed5,
      0xd807aa98, 0x12835b01, 0x243185be, 0x550c7dc3, 0x72be5d74, 0x80deb1fe, 0x9bdc06a7, 0xc19bf174,
      0xe49b69c1, 0xefbe4786, 0x0fc19dc6, 0x240ca1cc, 0x2de92c6f, 0x4a7484aa, 0x5cb0a9dc, 0x76f988da,
      0x983e5152, 0xa831c66d, 0xb00327c8, 0xbf597fc7, 0xc6e00bf3, 0xd5a79147, 0x06ca6351, 0x14292967,
      0x27b70a85, 0x2e1b2138, 0x4d2c6dfc, 0x53380d13, 0x650a7354, 0x766a0abb, 0x81c2c92e, 0x92722c85,
      0xa2bfe8a1, 0xa81a664b, 0xc24b8b70, 0xc76c51a3, 0xd192e819, 0xd6990624, 0xf40e3585, 0x106aa070,
      0x19a4c116, 0x1e376c08, 0x2748774c, 0x34b0bcb5, 0x391c0cb3, 0x4ed8aa4a, 0x5b9cca4f, 0x682e6ff3,
      0x748f82ee, 0x78a5636f, 0x84c87814, 0x8cc70208, 0x90befffa, 0xa4506ceb, 0xbef9a3f7, 0xc67178f2 ]
  }

  function InitialHash(): (h: seq<word>)
    ensures |h| == 8
  {
    [ 0x6a09e667, 0xbb67ae85, 0x3c6ef372, 0xa54ff53a, 0x510e527f, 0x9b05688c, 0x1f83d9ab, 0x5be0cd19 ]
  }

  /** Words are big-endian. */
  function WordOf(b: seq<octet>): word
    requires |b| == 4
  {
    ((b[0] as word) << 24) | ((b[1] as word) << 16) | ((b[2] as word) << 8) | (b[3] as word)
  }

  function OctetsOf(w: word): (b: seq<octet>)
    ensures |b| == 4
  {
    [ (w >> 24) as octet, ((w >> 16) & 0xff) as octet, ((w >> 8) & 0xff) as octet, (w & 0xff) as octet ]
  }

  lemma WordRoundTrip(w: word)
    ensures WordOf(OctetsOf(w)) == w
  {
    assert ((w >> 24) << 24) | (((w >> 16) & 0xff) << 16) | (((w >> 8) & 0xff) << 8) | (w & 0xff) == w;
  }

  // Section 6.2.2: one block

  /** Word `t` of the message schedule, from the words before it. */
  function NextWord(block: seq<octet>, w: seq<word>, t: nat): word
    requires |block| == BLOCK && t < 64 && t <= |w|
  {
    if t < 16 then WordOf(block[4 * t..4 * t + 4])
    else Add(Add(Add(w[t - 16], SmallSigma0(w[t - 15])), w[t - 7]), SmallSigma1(w[t - 2]))
  }

  /** The first `n` words of the message schedule. */
  function Schedule(block: seq<octet>, n: nat): (w: seq<word>)
    requires |block| == BLOCK && n <= 64
    ensures |w| == n
  {
    if n == 0 then []
    else
      var w := Schedule(block, n - 1);
      w + [NextWord(block, w, n - 1)]
  }

  datatype Working = Working(a: word, b: word, c: word, d: word, e: word, f: word, g: word, h: word)

  function Round(v: Working, k: word, w: word): Working {
    var t1 := Add(Add(Add(Add(v.h, BigSigma1(v.e)), Choose(v.e, v.f, v.g)), k), w);
    var t2 := Add(BigSigma0(v.a), Majority(v.a, v.b, v.c));
    Working(Add(t1, t2), v.a, v.b, v.c, Add(v.d, t1), v.e, v.f, v.g)
  }

  /** The working variables after `n` rounds. */
  function Rounds(v: Working, w: seq<word>, n: nat): Working
    requires |w| == 64 && n <= 64
  {
    if n == 0 then v else Round(Rounds(v, w, n - 1), RoundConstants()[n - 1], w[n - 1])
  }

  function Compressed(h: seq<word>, block: seq<octet>): (r: seq<word>)
    requires |h| == 8 && |block| == BLOCK
    ensures |r| == 8
  {
    FedForward(h, Rounds(Start(h), Schedule(block, 64), 64))
  }

  function Start(h: seq<word>): Working
    requires |h| == 8
  {
    Working(h[0], h[1], h[2], h[3], h[4], h[5], h[6], h[7])
  }

  function FedForward(h: seq<word>, v: Working): (r: seq<word>)
    requires |h| == 8
    ensures |r| == 8
  {
    [ Add(h[0], v.a), Add(h[1], v.b), Add(h[2], v.c), Add(h[3], v.d),
      Add(h[4], v.e), Add(h[5], v.f), Add(h[6], v.g), Add(h[7], v.h) ]
  }

  method MessageSchedule(block: seq<octet>) returns (w: array<word>)
    requires |block| == BLOCK
    ensures fresh(w) && w.Length == 64 && w[..] == Schedule(block, 64)
  {
    hide WordOf, SmallSigma0, SmallSigma1, Add;
    w := new word[64];
    for i := 0 to 16
      invariant w[..i] == Schedule(block, i)
    {
      w[i] := WordOf(block[4 * i..4 * i + 4]);
      assert w[..i + 1] == w[..i] + [w[i]];
    }
    for i := 16 to 64
      invariant w[..i] == Schedule(block, i)
    {
      ghost var done := w[..i];
      assert w[i - 2] == done[i - 2] && w[i - 7] == done[i - 7] && w[i - 15] == done[i - 15] && w[i - 16] == done[i - 16];
      w[i] := Add(Add(Add(w[i - 16], SmallSigma0(w[i - 15])), w[i - 7]), SmallSigma1(w[i - 2]));
      assert w[..i + 1] == w[..i] + [w[i]];
    }
    assert w[..] == w[..64];
  }

  /** The source's `compress`: schedule, sixty-four rounds, and the feed-forward addition. */
  method Compress(state: array<word>, block: seq<octet>)
    requires state.Length == 8 && |block| == BLOCK
    modifies state
    ensures state[..] == Compressed(old(state[..]), block)
  {
    hide Schedule, RoundConstants, Choose, Majority, BigSigma0, BigSigma1, Add, FedForward;
    ghost var h0 := state[..];
    var w := MessageSchedule(block);
    ghost var schedule := w[..];
    var a, b, c, d := state[0], state[1], state[2], state[3];
    var e, f, g, h := state[4], state[5], state[6], state[7];
    ghost var start := Working(a, b, c, d, e, f, g, h);
    for i := 0 to 64
      invariant w[..] == schedule && state[..] == h0
      invariant Working(a, b, c, d, e, f, g, h) == Rounds(start, schedule, i)
    {
      assert w[i] == schedule[i];
      var t1 := Add(Add(Add(Add(h, BigSigma1(e)), Choose(e, f, g)), RoundConstants()[i]), w[i]);
      var t2 := Add(BigSigma0(a), Majority(a, b, c));
      h := g;
      g := f;
      f := e;
      e := Add(d, t1);
      d := c;
      c := b;
      b := a;
      a := Add(t1, t2);
    }
    FeedForward(state, [a, b, c, d, e, f, g, h]);
  }

  method FeedForward(state: array<word>, v: seq<word>)
    requires state.Length == 8 && |v| == 8
    modifies state
    ensures state[..] == FedForward(old(state[..]), Start(v))
  {
    hide Add;
    for i := 0 to 8
      invariant forall j :: 0 <= j < i ==> state[j] == Add(old(state[j]), v[j])
      invariant forall j :: i <= j < 8 ==> state[j] == old(state[j])
    {
      state[i] := Add(state[i], v[i]);
    }
  }

  // Sections 5.1.1 and 6.2: the whole message

  /** Compression folded over the 64-octet blocks of `m`. */
  function Hashed(h: seq<word>, m: seq<octet>): (r: seq<word>)
    requires |h| == 8 && |m| % BLOCK == 0
    ensures |r| == 8
    decreases |m|
  {
    if m == [] then h else Hashed(Compressed(h, m[..BLOCK]), m[BLOCK..])
  }

  lemma {:induction false} HashedAppend(h: seq<word>, m: seq<octet>, block: seq<octet>)
    requires |h| == 8 && |m| % BLOCK == 0 && |block| == BLOCK
    ensures Hashed(h, m + block) == Compressed(Hashed(h, m), block)
    decreases |m|
  {
    hide Compressed;
    var all := m + block;
    if m == [] {
      assert all == block && block[..BLOCK] == block && block[BLOCK..] == [];
      assert Hashed(h, block) == Hashed(Compressed(h, block), []);
    } else {
      assert all[..BLOCK] == m[..BLOCK] && all[BLOCK..] == m[BLOCK..] + block;
      HashedAppend(Compressed(h, m[..BLOCK]), m[BLOCK..], block);
    }
  }

  function Zeros(n: nat): (z: seq<octet>)
    ensures |z| == n
  {
    seq(n, _ => 0)
  }

  function Power256(e: nat): (p: nat)
    ensures p > 0
  {
    if e == 0 then 1 else 256 * Power256(e - 1)
  }

  /** Big-endian, base 256. */
  function Be64(v: nat): (b: seq<octet>)
    ensures |b| == 8
  {
    seq(8, i requires 0 <= i < 8 => (v / Power256(7 - i) % 256) as octet)
  }

  const U64_MODULUS: nat := 0x1_0000_0000_0000_0000

  /** What `finalize` appends to an `n`-octet input before the length. */
  function PadOf(n: nat): (pad: seq<octet>)
    ensures pad != [] && (n + |pad| + 8) % BLOCK == 0
  {
    var used := n % BLOCK;
    [0x80] + Zeros((if used < 56 then 56 - used else 120 - used) - 1)
  }

  /** The padded message; the length field is the bit length modulo 2^64. */
  function Padded(m: seq<octet>): (p: seq<octet>)
    ensures |p| % BLOCK == 0
  {
    m + PadOf(|m|) + Be64(8 * |m| % U64_MODULUS)
  }

  /**
   Section 5.1.1 of FIPS 180-4, in bits: a one, then the fewest zeros that make
   the length congruent to 448 modulo 512, then the length in 64 bits.
   */
  ghost predicate FipsPadded(m: seq<octet>, p: seq<octet>)
    requires 8 * |m| < U64_MODULUS
  {
    exists k: nat ::
      && p == m + [0x80] + Zeros(k) + Be64(8 * |m|)
      && (8 * |m| + 1 + (7 + 8 * k)) % 512 == 448
      && 7 + 8 * k < 512
  }

  /** For every message FIPS 180-4 admits in whole octets, the padding is its padding. */
  lemma PaddingIsFips(m: seq<octet>)
    requires |m| < 0x2000_0000_0000_0000
    ensures FipsPadded(m, Padded(m))
  {
    hide Be64;
    var k := |PadOf(|m|)| - 1;
    var q := |m| / BLOCK;
    assert |m| == BLOCK * q + |m| % BLOCK;
    assert PadOf(|m|) == [0x80] + Zeros(k);
    assert m + ([0x80] + Zeros(k)) == m + [0x80] + Zeros(k);
    PadCongruence(|m|, k);
  }

  lemma PadCongruence(n: nat, k: nat)
    requires k == |PadOf(n)| - 1
    ensures (8 * n + 1 + (7 + 8 * k)) % 512 == 448 && 7 + 8 * k < 512
  {
    var used := n % BLOCK;
    var q := n / BLOCK;
    assert n == BLOCK * q + used;
    var c := if used < 56 then 0 else 1;
    assert 8 * n + 1 + (7 + 8 * k) == 512 * (q + c) + 448;
  }

  function Concat(words: seq<word>): (r: seq<octet>)
    ensures |r| == 4 * |words|
  {
    if words == [] then [] else OctetsOf(words[0]) + Concat(words[1..])
  }

  /** The SHA-256 digest of `m`. */
  function Digest(m: seq<octet>): (d: seq<octet>)
    ensures |d| == 32
  {
    Concat(Hashed(InitialHash(), Padded(m)))
  }

  /** The incremental hasher; `input` is everything fed to it. */
  class Hasher {
    const state: array<word>
    const block: array<octet>
    var blockLen: nat
    var totalLen: nat
    ghost var input: seq<octet>

    /** Whole blocks are folded into the state and the remainder is buffered. */
    ghost predicate Folded()
      reads this, state, block
    {
      && state.Length == 8 && block.Length == BLOCK
      && IsFold(input, blockLen, state[..], block[..])
    }

    ghost predicate Valid()
      reads this, state, block
    {
      Folded() && totalLen == |input| % U64_MODULUS
    }

    constructor ()
      ensures Valid() && input == [] && fresh(state) && fresh(block)
    {
      hide InitialHash, Compressed;
      var h := InitialHash();
      state := new word[8](i requires 0 <= i < 8 => h[i]);
      block := new octet[BLOCK](_ => 0);
      blockLen, totalLen, input := 0, 0, [];
      new;
      assert state[..] == h;
    }

    /** Copies `src` into the block buffer. */
    method Copy(src: seq<octet>)
      requires blockLen + |src| <= block.Length
      modifies block
      ensures block[..blockLen + |src|] == old(block[..blockLen]) + src
    {
      forall i | 0 <= i < |src| {
        block[blockLen + i] := src[i];
      }
    }

    /** One whole block goes straight into the state. */
    method AbsorbBlock(chunk: seq<octet>)
      requires Folded() && blockLen == 0 && |chunk| == BLOCK
      modifies state, this`input
      ensures Folded() && input == old(input) + chunk
    {
      hide Compressed;
      FoldBlock(input, state[..], block[..], chunk);
      Compress(state, chunk);
      input := input + chunk;
    }

    /** Tops up a partly filled block; `rest` is what did not fit. */
    method FillBlock(data: seq<octet>) returns (rest: seq<octet>)
      requires Folded()
      modifies state, block, this`blockLen, this`input
      ensures Folded() && |rest| <= |data| && data == data[..|data| - |rest|] + rest
      ensures input == old(input) + data[..|data| - |rest|]
      ensures blockLen == 0 || rest == []
    {
      hide Compressed, InitialHash;
      if blockLen == 0 {
        assert data[..0] == [] && input + [] == input;
        return data;
      }
      var take := if BLOCK - blockLen < |data| then BLOCK - blockLen else |data|;
      ghost var was := block[..];
      Copy(data[..take]);
      FoldFill(input, blockLen, state[..], was, data[..take], block[..]);
      blockLen := blockLen + take;
      rest := data[take..];
      input := input + data[..take];
      if blockLen < BLOCK {
        return;
      }
      var whole := block[..];
      Compress(state, whole);
      blockLen := 0;
    }

    method BufferRest(rest: seq<octet>)
      requires Folded() && blockLen == 0 && |rest| < BLOCK
      modifies block, this`blockLen, this`input
      ensures Folded() && input == old(input) + rest
    {
      hide Compressed, InitialHash, IsFold;
      ghost var was := block[..];
      Copy(rest);
      assert was[..0] + rest == rest;
      FoldFill(input, 0, state[..], was, rest, block[..]);
      blockLen := |rest|;
      input := input + rest;
    }

    /** Folds the whole blocks of `data` and buffers what is left over. */
    method AbsorbBlocks(data: seq<octet>)
      requires Folded() && blockLen == 0
      modifies state, block, this`blockLen, this`input
      ensures Folded() && input == old(input) + data
    {
      hide Compressed, InitialHash, IsFold;
      var i := 0;
      while i + BLOCK <= |data|
        invariant Folded() && i <= |data| && blockLen == 0
        invariant input == old(input) + data[..i]
      {
        assert data[..i] + data[i..i + BLOCK] == data[..i + BLOCK];
        AbsorbBlock(data[i..i + BLOCK]);
        i := i + BLOCK;
      }
      assert data == data[..i] + data[i..];
      BufferRest(data[i..]);
    }

    /** Feeds more input: only the concatenation of what was fed matters. */
    method Update(data: seq<octet>)
      requires Valid()
      modifies this, state, block
      ensures Valid() && input == old(input) + data
    {
      hide Compressed, InitialHash, IsFold;
      TotalWraps(|input|, |data|);
      totalLen := (totalLen + |data|) % U64_MODULUS;
      var rest := FillBlock(data);
      if blockLen > 0 {
        return;
      }
      AbsorbBlocks(rest);
    }

    /** Pads, appends the bit length, and gives the digest of everything fed. */
    method Finalize() returns (out: seq<octet>)
      requires Valid()
      modifies this, state, block
      ensures out == Digest(old(input))
      ensures blockLen == 0
    {
      hide Compressed, InitialHash, Hashed, Concat, Zeros, Be64;
      ghost var m := input;
      BitLength(|m|);
      var bitLen := totalLen * 8 % U64_MODULUS;
      PadAgrees(|m|, blockLen);
      var padLen := if blockLen < 56 then 56 - blockLen else 120 - blockLen;
      Update([0x80] + Zeros(padLen - 1));
      Update(Be64(bitLen));
      assert input == Padded(m);
      hide Padded;
      FoldEnds(input, blockLen, state[..], block[..]);
      out := Serialize(state);
    }
  }

  method Serialize(state: array<word>) returns (out: seq<octet>)
    ensures out == Concat(state[..])
  {
    hide OctetsOf;
    out := [];
    for i := 0 to state.Length
      invariant out == Concat(state[..i])
    {
      ConcatAppend(state[..i], state[i]);
      assert state[..i + 1] == state[..i] + [state[i]];
      out := out + OctetsOf(state[i]);
    }
    assert state[..state.Length] == state[..];
  }

  lemma {:induction false} ConcatAppend(words: seq<word>, w: word)
    ensures Concat(words + [w]) == Concat(words) + OctetsOf(w)
  {
    hide OctetsOf;
    if words == [] {
      assert Concat([w]) == OctetsOf(w) + Concat([]);
    } else {
      assert (words + [w])[1..] == words[1..] + [w];
      ConcatAppend(words[1..], w);
    }
  }

  lemma BitLength(n: nat)
    ensures n % U64_MODULUS * 8 % U64_MODULUS == 8 * n % U64_MODULUS
  {
    var q := n / U64_MODULUS;
    assert 8 * n == (8 * q) * U64_MODULUS + n % U64_MODULUS * 8;
  }

  /** The buffered count alone determines the padding. */
  lemma PadAgrees(n: nat, buffered: nat)
    requires buffered < BLOCK && buffered <= n && (n - buffered) % BLOCK == 0
    ensures PadOf(n) == [0x80] + Zeros((if buffered < 56 then 56 - buffered else 120 - buffered) - 1)
  {
    assert n % BLOCK == buffered;
  }

  /** When the input fills its last block exactly, nothing is buffered. */
  lemma FoldEnds(m: seq<octet>, buffered: nat, state: seq<word>, block: seq<octet>)
    requires IsFold(m, buffered, state, block) && |m| % BLOCK == 0
    ensures buffered == 0 && state == Hashed(InitialHash(), m)
  {
    hide Hashed, InitialHash;
    assert m[..|m|] == m;
  }

  lemma TotalWraps(m: nat, n: nat)
    ensures (m % U64_MODULUS + n) % U64_MODULUS == (m + n) % U64_MODULUS
  {
    var q := m / U64_MODULUS;
    assert m + n == q * U64_MODULUS + (m % U64_MODULUS + n);
  }

  /** `buffered` octets of `m` wait in `block`; the others are folded into `state`. */
  ghost predicate IsFold(m: seq<octet>, buffered: nat, state: seq<word>, block: seq<octet>) {
    && buffered < BLOCK == |block| && buffered <= |m| && (|m| - buffered) % BLOCK == 0
    && state == Hashed(InitialHash(), m[..|m| - buffered])
    && block[..buffered] == m[|m| - buffered..]
  }

  lemma FoldBlock(m: seq<octet>, state: seq<word>, block: seq<octet>, chunk: seq<octet>)
    requires |state| == 8 && |chunk| == BLOCK && IsFold(m, 0, state, block)
    ensures IsFold(m + chunk, 0, Compressed(state, chunk), block)
  {
    hide Compressed, InitialHash;
    HashedAppend(InitialHash(), m, chunk);
    assert m[..|m|] == m && (m + chunk)[..|m + chunk|] == m + chunk;
  }

  /** Buffering `more` octets gives block `b`, which is folded in if they complete it. */
  lemma FoldFill(m: seq<octet>, buffered: nat, state: seq<word>, block: seq<octet>, more: seq<octet>, b: seq<octet>)
    requires |state| == 8 && IsFold(m, buffered, state, block) && buffered + |more| <= BLOCK
    requires |b| == BLOCK && b[..buffered + |more|] == block[..buffered] + more
    ensures if buffered + |more| < BLOCK then IsFold(m + more, buffered + |more|, state, b)
            else IsFold(m + more, 0, Compressed(state, b), b)
  {
    hide Compressed, InitialHash;
    var k := |m| - buffered;
    assert (m + more)[..k] == m[..k] && (m + more)[k..] == m[k..] + more;
    if buffered + |more| == BLOCK {
      hide Hashed;
      assert b == b[..BLOCK];
      HashedAppend(InitialHash(), m[..k], b);
      assert (m + more)[..|m + more|] == m[..k] + b;
    }
  }

  // One-shot hashing and section 2 of RFC 2104

  function Joined(parts: seq<seq<octet>>): seq<octet> {
    if parts == [] then [] else parts[0] + Joined(parts[1..])
  }

  lemma {:induction false} JoinedAppend(parts: seq<seq<octet>>, part: seq<octet>)
    ensures Joined(parts + [part]) == Joined(parts) + part
  {
    if parts == [] {
      assert Joined([part]) == part + Joined([]);
    } else {
      assert (parts + [part])[1..] == parts[1..] + [part];
      JoinedAppend(parts[1..], part);
    }
  }

  /** Feeds the parts in turn. */
  method UpdateAll(h: Hasher, parts: seq<seq<octet>>)
    requires h.Valid()
    modifies h, h.state, h.block
    ensures h.Valid() && h.input == old(h.input) + Joined(parts)
  {
    hide Joined, Hasher.Valid, Hasher.Folded;
    JoinedNothing();
    assert parts[..0] == [];
    for i := 0 to |parts|
      invariant h.Valid() && h.input == old(h.input) + Joined(parts[..i])
    {
      JoinedAppend(parts[..i], parts[i]);
      assert parts[..i + 1] == parts[..i] + [parts[i]];
      h.Update(parts[i]);
    }
    assert parts[..|parts|] == parts;
  }

  lemma JoinedNothing()
    ensures Joined([]) == []
  {
  }

  lemma JoinedOne(part: seq<octet>)
    ensures Joined([part]) == part
  {
    assert [part][1..] == [];
    assert Joined([part]) == part + Joined([]);
  }

  /** The digest depends on the concatenation only, not on how it is split. */
  method Sha256(parts: seq<seq<octet>>) returns (digest: seq<octet>)
    ensures digest == Digest(Joined(parts))
  {
    var h := new Hasher();
    UpdateAll(h, parts);
    assert h.input == Joined(parts);
    digest := h.Finalize();
  }

  /** The key as a whole block: hashed first if it is longer than one. */
  function KeyBlock(key: seq<octet>): (k: seq<octet>)
    ensures |k| == BLOCK
  {
    var short := if |key| > BLOCK then Digest(key) else key;
    short + Zeros(BLOCK - |short|)
  }

  function XorEach(s: seq<octet>, x: octet): (r: seq<octet>)
    ensures |r| == |s|
  {
    seq(|s|, i requires 0 <= i < |s| => s[i] ^ x)
  }

  /** H(K xor opad, H(K xor ipad, text)). */
  function Hmac(key: seq<octet>, text: seq<octet>): seq<octet> {
    var k := KeyBlock(key);
    Digest(XorEach(k, 0x5c) + Digest(XorEach(k, 0x36) + text))
  }

  method KeyOf(key: seq<octet>) returns (k: array<octet>)
    ensures fresh(k) && k[..] == KeyBlock(key)
  {
    hide Digest;
    k := new octet[BLOCK](_ => 0);
    var short := key;
    if |key| > BLOCK {
      JoinedOne(key);
      short := Sha256([key]);
    }
    forall i | 0 <= i < |short| {
      k[i] := short[i];
    }
    assert k[..] == short + Zeros(BLOCK - |short|);
  }

  method PadsOf(k: array<octet>) returns (ipad: array<octet>, opad: array<octet>)
    requires k.Length == BLOCK
    ensures ipad[..] == XorEach(k[..], 0x36) && opad[..] == XorEach(k[..], 0x5c)
  {
    ipad, opad := new octet[BLOCK](_ => 0x36), new octet[BLOCK](_ => 0x5c);
    for i := 0 to BLOCK
      invariant forall j :: 0 <= j < i ==> ipad[j] == k[j] ^ 0x36 && opad[j] == k[j] ^ 0x5c
      invariant forall j :: i <= j < BLOCK ==> ipad[j] == 0x36 && opad[j] == 0x5c
    {
      ipad[i] := ipad[i] ^ k[i];
      opad[i] := opad[i] ^ k[i];
    }
    assert ipad[..] == XorEach(k[..], 0x36);
    assert opad[..] == XorEach(k[..], 0x5c);
  }

  /** Hashes the parts behind a first block. */
  method HashBehind(first: seq<octet>, parts: seq<seq<octet>>) returns (digest: seq<octet>)
    ensures digest == Digest(first + Joined(parts))
  {
    hide Digest, Joined, Hasher.Valid, Hasher.Folded;
    var h := new Hasher();
    h.Update(first);
    UpdateAll(h, parts);
    assert h.input == first + Joined(parts);
    digest := h.Finalize();
  }

  /** The RFC 2104 code of the concatenated parts, for every key length and every split. */
  method HmacSha256(key: seq<octet>, parts: seq<seq<octet>>) returns (mac: seq<octet>)
    ensures mac == Hmac(key, Joined(parts))
  {
    hide Digest, XorEach, KeyBlock;
    var k := KeyOf(key);
    var ipad, opad := PadsOf(k);
    var inner := HashBehind(ipad[..], parts);
    JoinedOne(inner);
    mac := HashBehind(opad[..], [inner]);
  }
}
