/** The published algorithms the kernel unrolls: SHA-256 padding (section 5.1.1 of FIPS 180-4),
    HMAC (section 2 of RFC 2104), PBKDF2 (section 5.2 of RFC 8018), scryptBlockMix, scryptROMix and
    scrypt with p = 1 (sections 4 to 6 of RFC 7914). The SHA-256 compression function and Salsa20/8
    are parameters. */
module Scrypt {
  import opened Bytes
  import opened Bits

  type State = s: seq<U32> | |s| == 8 witness seq(8, _ => 0)
  type Block = s: seq<Byte> | |s| == 64 witness seq(64, _ => 0)
  type Words16 = s: seq<U32> | |s| == 16 witness seq(16, _ => 0)

  datatype Primitives = Primitives(compress: (State, Block) -> State, salsa: Words16 -> Words16)

  // ---------------------------------------------------------------- SHA-256

  function InitialState(): State {
    [0x6a09e667, 0xbb67ae85, 0x3c6ef372, 0xa54ff53a, 0x510e527f, 0x9b05688c, 0x1f83d9ab, 0x5be0cd19]
  }

  function BE64(n: nat): (s: seq<Byte>)
    ensures |s| == 8
  {
    Rev(LE(n, 8))
  }

  function BE32(w: U32): (s: seq<Byte>)
    ensures |s| == 4
  {
    Rev(LE(w, 4))
  }

  /** Zero bytes between the one bit and the length field: the fewest that fill a block. */
  function ZeroCount(n: nat): (z: nat)
    ensures z < 64 && (n + z + 9) % 64 == 0
  {
    (55 - n) % 64
  }

  /** The message, a one bit, zero bits, and the bit length. */
  function Pad(m: seq<Byte>): (r: seq<Byte>)
    ensures |r| % 64 == 0
  {
    m + [0x80] + Zeros(ZeroCount(|m|)) + BE64(8 * |m|)
  }

  function Absorb(p: Primitives, st: State, s: seq<Byte>): State
    requires |s| % 64 == 0
    decreases |s|
  {
    if s == [] then st else Absorb(p, p.compress(st, s[..64]), s[64..])
  }

  function WordsBE(ws: seq<U32>): (s: seq<Byte>)
    ensures |s| == 4 * |ws|
  {
    seq(4 * |ws|, i requires 0 <= i < 4 * |ws| => LE(ws[i / 4], 4)[3 - i % 4])
  }

  function WordsLE(ws: seq<U32>): (s: seq<Byte>)
    ensures |s| == 4 * |ws|
  {
    seq(4 * |ws|, i requires 0 <= i < 4 * |ws| => LE(ws[i / 4], 4)[i % 4])
  }

  function WordsFromLE(s: seq<Byte>, k: nat): (ws: seq<U32>)
    requires |s| == 4 * k
    ensures |ws| == k
  {
    seq(k, i requires 0 <= i < k => Word(s[4 * i..4 * i + 4]))
  }

  function Sha256(p: Primitives, m: seq<Byte>): (d: seq<Byte>)
    ensures |d| == 32
  {
    WordsBE(Absorb(p, InitialState(), Pad(m)))
  }

  // ---------------------------------------------------------------- HMAC and PBKDF2

  function KeyBlock(p: Primitives, key: seq<Byte>): Block {
    var k := if |key| > 64 then Sha256(p, key) else key;
    k + Zeros(64 - |k|)
  }

  function XorPad(k: Block, b: Byte): Block {
    seq(64, i requires 0 <= i < 64 => XorByte(k[i], b))
  }

  function Hmac(p: Primitives, key: seq<Byte>, m: seq<Byte>): (d: seq<Byte>)
    ensures |d| == 32
  {
    var k := KeyBlock(p, key);
    Sha256(p, XorPad(k, 0x5c) + Sha256(p, XorPad(k, 0x36) + m))
  }

  /** U_j of block i. */
  function U(p: Primitives, password: seq<Byte>, salt: seq<Byte>, i: U32, j: nat): (d: seq<Byte>)
    requires j >= 1
    ensures |d| == 32
  {
    if j == 1 then Hmac(p, password, salt + BE32(i))
    else Hmac(p, password, U(p, password, salt, i, j - 1))
  }

  /** T_i = F(P, S, c, i). */
  function F(p: Primitives, password: seq<Byte>, salt: seq<Byte>, c: nat, i: U32): (d: seq<Byte>)
    requires c >= 1
    ensures |d| == 32
  {
    if c == 1 then U(p, password, salt, i, 1)
    else XorBytes(F(p, password, salt, c - 1, i), U(p, password, salt, i, c))
  }

  function XorBytes(a: seq<Byte>, b: seq<Byte>): (s: seq<Byte>)
    requires |a| == |b|
    ensures |s| == |a|
  {
    seq(|a|, i requires 0 <= i < |a| => XorByte(a[i], b[i]))
  }

  /** T_1 to T_n, concatenated. */
  function Derive(p: Primitives, password: seq<Byte>, salt: seq<Byte>, c: nat, n: nat): (d: seq<Byte>)
    requires c >= 1 && n < 0x1_0000_0000
    ensures |d| == 32 * n
  {
    if n == 0 then [] else Derive(p, password, salt, c, n - 1) + F(p, password, salt, c, n)
  }

  /** ceil(dkLen / 32). */
  function BlockCount(dkLen: nat): (n: nat)
    ensures 32 * n >= dkLen > 32 * n - 32
  {
    (dkLen + 31) / 32
  }

  function Pbkdf2(p: Primitives, password: seq<Byte>, salt: seq<Byte>, c: nat, dkLen: nat): (d: seq<Byte>)
    requires c >= 1 && BlockCount(dkLen) < 0x1_0000_0000
    ensures |d| == dkLen
  {
    Derive(p, password, salt, c, BlockCount(dkLen))[..dkLen]
  }

  // ---------------------------------------------------------------- BlockMix and ROMix, on words

  function XorWords(a: seq<U32>, b: seq<U32>): (s: seq<U32>)
    requires |a| == |b|
    ensures |s| == |a|
  {
    seq(|a|, i requires 0 <= i < |a| => XorWord(a[i], b[i]))
  }

  /** Y_0, Y_1, ... in the order they are computed, from X. */
  function Chain(p: Primitives, x: Words16, b: seq<U32>): (y: seq<U32>)
    requires |b| % 16 == 0
    ensures |y| == |b|
    decreases |b|
  {
    if b == [] then [] else
      var y := p.salsa(XorWords(x, b[..16]));
      y + Chain(p, y, b[16..])
  }

  lemma BlockBelow(m: nat, q: nat, r: nat)
    requires r < 16 && 16 * q + r < 16 * m
    ensures q < m
  {
  }

  /** Where the shuffle of n words takes word i from: even-numbered blocks, then odd-numbered ones. */
  function ShuffledFrom(n: nat, i: nat): (j: nat)
    requires n % 32 == 0 && i < n
    ensures j < n
  {
    var m := n / 32;
    assert n == 32 * m && n / 2 == 16 * m;
    if i < n / 2 then BlockBelow(m, i / 16, i % 16); i / 16 * 32 + i % 16
    else BlockBelow(m, (i - n / 2) / 16, (i - n / 2) % 16); (i - n / 2) / 16 * 32 + 16 + i % 16
  }

  function Shuffle(y: seq<U32>): (s: seq<U32>)
    requires |y| % 32 == 0
    ensures |s| == |y|
  {
    seq(|y|, i requires 0 <= i < |y| => y[ShuffledFrom(|y|, i)])
  }

  function BlockMix(p: Primitives, b: seq<U32>): (s: seq<U32>)
    requires |b| > 0 && |b| % 32 == 0
    ensures |s| == |b|
  {
    Shuffle(Chain(p, b[|b| - 16..], b))
  }

  /** BlockMix applied k times: V[k], and X after the first loop for k = N. */
  function Power(p: Primitives, x: seq<U32>, k: nat): (s: seq<U32>)
    requires |x| > 0 && |x| % 32 == 0
    ensures |s| == |x|
  {
    if k == 0 then x else BlockMix(p, Power(p, x, k - 1))
  }

  /** The last 64-byte block read as a little-endian integer. */
  function Integerify(x: seq<U32>): nat
    requires |x| >= 16
  {
    FromLE(WordsLE(x[|x| - 16..]))
  }

  function MixStep(p: Primitives, v: seq<seq<U32>>, x: seq<U32>): (s: seq<U32>)
    requires |x| > 0 && |x| % 32 == 0 && |v| > 0
    requires forall i :: 0 <= i < |v| ==> |v[i]| == |x|
    ensures |s| == |x|
  {
    BlockMix(p, XorWords(x, v[Integerify(x) % |v|]))
  }

  function Mix(p: Primitives, v: seq<seq<U32>>, x: seq<U32>, k: nat): (s: seq<U32>)
    requires |x| > 0 && |x| % 32 == 0 && |v| > 0
    requires forall i :: 0 <= i < |v| ==> |v[i]| == |x|
    ensures |s| == |x|
  {
    if k == 0 then x else MixStep(p, v, Mix(p, v, x, k - 1))
  }

  /** V after the first loop of scryptROMix. */
  function Table(p: Primitives, x: seq<U32>, n: nat): (v: seq<seq<U32>>)
    requires |x| > 0 && |x| % 32 == 0
    ensures |v| == n
    ensures forall i :: 0 <= i < n ==> |v[i]| == |x|
  {
    seq(n, i requires 0 <= i < n => Power(p, x, i))
  }

  function RoMix(p: Primitives, x: seq<U32>, n: nat): (s: seq<U32>)
    requires |x| > 0 && |x| % 32 == 0 && n > 0
    ensures |s| == |x|
  {
    Mix(p, Table(p, x, n), Power(p, x, n), n)
  }

  /** The input of scryptROMix, as 32r words. */
  function ScryptState(p: Primitives, password: seq<Byte>, salt: seq<Byte>, r: nat): (x: seq<U32>)
    requires 4 * r < 0x1_0000_0000
    ensures |x| == 32 * r
  {
    hide *;
    WordsFromLE(Pbkdf2(p, password, salt, 1, 128 * r), 32 * r)
  }

  function ScryptMixed(p: Primitives, password: seq<Byte>, salt: seq<Byte>, n: nat, r: nat): (x: seq<U32>)
    requires n > 0 && r > 0 && 4 * r < 0x1_0000_0000
  {
    hide *;
    RoMix(p, ScryptState(p, password, salt, r), n)
  }

  function ScryptKdf(p: Primitives, password: seq<Byte>, salt: seq<Byte>, n: nat, r: nat, dkLen: nat): (d: seq<Byte>)
    requires n > 0 && r > 0 && 4 * r < 0x1_0000_0000 && BlockCount(dkLen) < 0x1_0000_0000
    ensures |d| == dkLen
  {
    Pbkdf2(p, password, WordsLE(ScryptMixed(p, password, salt, n, r)), 1, dkLen)
  }

  // ---------------------------------------------------------------- unrolled forms

  /** The last block of a padded message of n bytes that ends in `rest`. */
  function Tail(rest: seq<Byte>, n: nat): Block
    requires |rest| <= 55
  {
    rest + [0x80] + Zeros(55 - |rest|) + BE64(8 * n)
  }

  lemma {:induction false} AbsorbConcat(p: Primitives, st: State, a: seq<Byte>, b: seq<Byte>)
    requires |a| % 64 == 0 && |b| % 64 == 0
    ensures Absorb(p, st, a + b) == Absorb(p, Absorb(p, st, a), b)
    decreases |a|
  {
    if a == [] {
      assert a + b == b;
    } else {
      assert (a + b)[..64] == a[..64];
      assert (a + b)[64..] == a[64..] + b;
      AbsorbConcat(p, p.compress(st, a[..64]), a[64..], b);
    }
  }

  lemma AbsorbOne(p: Primitives, st: State, b: Block)
    ensures Absorb(p, st, b) == p.compress(st, b)
  {
    assert b[..64] == b;
    assert b[64..] == [];
  }

  lemma ZeroCountTail(a: nat, b: nat)
    requires a % 64 == 0 && b <= 55
    ensures ZeroCount(a + b) == 55 - b
  {
  }

  lemma PadTail(body: seq<Byte>, rest: seq<Byte>)
    requires |body| % 64 == 0 && |rest| <= 55
    ensures Pad(body + rest) == body + Tail(rest, |body + rest|)
  {
    ZeroCountTail(|body|, |rest|);
    hide ZeroCount, BE64, Zeros;
    var z, l := Zeros(55 - |rest|), BE64(8 * |body + rest|);
    Assoc(body, rest, [0x80]);
    Assoc(body, rest + [0x80], z);
    Assoc(body, rest + [0x80] + z, l);
  }

  /** Whole blocks, then one padded block. */
  lemma AbsorbPadded(p: Primitives, st: State, body: seq<Byte>, rest: seq<Byte>)
    requires |body| % 64 == 0 && |rest| <= 55
    ensures Absorb(p, st, Pad(body + rest)) == p.compress(Absorb(p, st, body), Tail(rest, |body + rest|))
  {
    hide *;
    var t := Tail(rest, |body + rest|);
    PadTail(body, rest);
    AbsorbConcat(p, st, body, t);
    AbsorbOne(p, Absorb(p, st, body), t);
  }

  /** The state after the padded key block. */
  function Keyed(p: Primitives, key: seq<Byte>, b: Byte): State {
    p.compress(InitialState(), XorPad(KeyBlock(p, key), b))
  }

  /** The outer hash of HMAC from the keyed outer state. */
  function Finish(p: Primitives, outer: State, inner: State): (d: seq<Byte>)
    ensures |d| == 32
  {
    WordsBE(p.compress(outer, Tail(WordsBE(inner), 96)))
  }

  lemma ShaPadded(p: Primitives, body: seq<Byte>, rest: seq<Byte>)
    requires |body| % 64 == 0 && |rest| <= 55
    ensures Sha256(p, body + rest)
         == WordsBE(p.compress(Absorb(p, InitialState(), body), Tail(rest, |body + rest|)))
  {
    hide Pad, WordsBE, InitialState, Tail, Absorb;
    AbsorbPadded(p, InitialState(), body, rest);
  }

  lemma InnerHash(p: Primitives, ipad: Block, body: seq<Byte>, rest: seq<Byte>)
    requires |body| % 64 == 0 && |rest| <= 55
    ensures Sha256(p, ipad + (body + rest))
         == WordsBE(p.compress(Absorb(p, p.compress(InitialState(), ipad), body), Tail(rest, 64 + |body| + |rest|)))
  {
    hide *;
    Assoc(ipad, body, rest);
    ShaPadded(p, ipad + body, rest);
    AbsorbConcat(p, InitialState(), ipad, body);
    AbsorbOne(p, InitialState(), ipad);
  }

  /** The four compression chains of a one-shot HMAC. */
  lemma {:induction false} HmacUnrolled(p: Primitives, key: seq<Byte>, body: seq<Byte>, rest: seq<Byte>)
    requires |body| % 64 == 0 && |rest| <= 55
    ensures Hmac(p, key, body + rest)
         == Finish(p, Keyed(p, key, 0x5c),
                   p.compress(Absorb(p, Keyed(p, key, 0x36), body), Tail(rest, 64 + |body| + |rest|)))
  {
    hide Pad, WordsBE, XorPad, KeyBlock, InitialState, Tail, Absorb;
    var ipad, opad := XorPad(KeyBlock(p, key), 0x36), XorPad(KeyBlock(p, key), 0x5c);
    InnerHash(p, ipad, body, rest);
    var inner := Sha256(p, ipad + (body + rest));
    AbsorbPadded(p, InitialState(), opad, inner);
    AbsorbOne(p, InitialState(), opad);
  }

  /** A byte length below 8192 needs only the last two bytes of the length field. */
  lemma LengthField(n: nat)
    requires 8 * n < 0x1_0000
    ensures BE64(8 * n) == Zeros(6) + [8 * n / 256, 8 * n % 256]
  {
    var l := 8 * n;
    Pow256Small();
    LEPad(l, 2, 8);
    assert LE(l, 2) == [l % 256, l / 256] by {
      assert LE(l / 256, 1) == [l / 256] + LE(l / 256 / 256, 0);
    }
    assert LE(l, 8) == [l % 256, l / 256] + Zeros(6);
  }

  /** The bytes of a padded last block. */
  lemma TailBytes(rest: seq<Byte>, n: nat)
    requires |rest| <= 55 && 8 * n < 0x1_0000
    ensures Tail(rest, n) == rest + [0x80] + Zeros(61 - |rest|) + [8 * n / 256, 8 * n % 256]
  {
    LengthField(n);
    assert Zeros(55 - |rest|) + Zeros(6) == Zeros(61 - |rest|);
  }
}
