/** Bytes, fixed-width integers and their byte orders, as Go's encoding/binary, math/big
    and encoding/hex see them. */
module Bytes {

  datatype Option<+T> = None | Some(value: T) {
    predicate IsFailure() { None? }
    function PropagateFailure<U>(): Option<U> requires None? { None }
    function Extract(): T requires Some? { value }
  }

  type Byte = x: int | 0 <= x < 256
  type U32 = x: int | 0 <= x < 0x1_0000_0000
  type U64 = x: int | 0 <= x < 0x1_0000_0000_0000_0000
  type Hash32 = s: seq<Byte> | |s| == 32 witness seq(32, _ => 0)

  function Pow256(k: nat): (r: nat)
    ensures r >= 1
  {
    if k == 0 then 1 else 256 * Pow256(k - 1)
  }

  lemma {:induction false} Pow256Add(a: nat, b: nat)
    ensures Pow256(a + b) == Pow256(a) * Pow256(b)
  {
    if a > 0 {
      Pow256Add(a - 1, b);
      calc {
        Pow256(a + b);
        256 * (Pow256(a - 1) * Pow256(b));
        (256 * Pow256(a - 1)) * Pow256(b);
      }
    }
  }

  lemma {:induction false} Pow256Monotone(a: nat, b: nat)
    requires a <= b
    ensures Pow256(a) <= Pow256(b)
    decreases b
  {
    if a < b {
      Pow256Monotone(a, b - 1);
    }
  }

  lemma Pow256Small()
    ensures Pow256(1) == 0x100
    ensures Pow256(2) == 0x1_0000
    ensures Pow256(3) == 0x100_0000
    ensures Pow256(4) == 0x1_0000_0000
    ensures Pow256(8) == 0x1_0000_0000_0000_0000
  {
    assert Pow256(4) == 256 * (256 * (256 * (256 * Pow256(0))));
    assert Pow256(8) == 256 * (256 * (256 * (256 * Pow256(4))));
  }

  lemma Assoc<T>(a: seq<T>, b: seq<T>, c: seq<T>)
    ensures a + b + c == a + (b + c)
  {
  }

  // ---------------------------------------------------------------- byte orders

  /** The low `k` bytes of `n`, least significant first. */
  function LE(n: nat, k: nat): (s: seq<Byte>)
    ensures |s| == k
    decreases k
  {
    if k == 0 then [] else [n % 256] + LE(n / 256, k - 1)
  }

  /** The number a byte string denotes, least significant byte first. */
  function FromLE(s: seq<Byte>): nat {
    if s == [] then 0 else s[0] + 256 * FromLE(s[1..])
  }

  lemma {:induction false} FromLEBound(s: seq<Byte>)
    ensures FromLE(s) < Pow256(|s|)
  {
    if s != [] {
      FromLEBound(s[1..]);
    }
  }

  /** Decoding undoes encoding for every number that fits. */
  lemma {:induction false} DecodeEncode(n: nat, k: nat)
    requires n < Pow256(k)
    ensures FromLE(LE(n, k)) == n
    decreases k
  {
    if k > 0 {
      DecodeEncode(n / 256, k - 1);
      assert LE(n, k)[1..] == LE(n / 256, k - 1);
    }
  }

  /** Encoding undoes decoding for every byte string. */
  lemma {:induction false} EncodeDecode(s: seq<Byte>)
    ensures LE(FromLE(s), |s|) == s
  {
    if s != [] {
      EncodeDecode(s[1..]);
      assert FromLE(s) % 256 == s[0] && FromLE(s) / 256 == FromLE(s[1..]);
      assert s == [s[0]] + s[1..];
    }
  }

  /** The little-endian word in four bytes. */
  function Word(s: seq<Byte>): U32
    requires |s| == 4
  {
    FromLEBound(s);
    Pow256Small();
    FromLE(s)
  }

  lemma Times256(d: nat, x: nat, p: nat, y: nat)
    ensures d + 256 * (x + p * y) == d + 256 * x + (256 * p) * y
  {
  }

  lemma FromLEStep(s: seq<Byte>)
    requires s != []
    ensures FromLE(s) == s[0] + 256 * FromLE(s[1..]) && Pow256(|s|) == 256 * Pow256(|s[1..]|)
  {
  }

  lemma {:induction false} FromLEConcat(a: seq<Byte>, b: seq<Byte>)
    ensures FromLE(a + b) == FromLE(a) + Pow256(|a|) * FromLE(b)
  {
    if a == [] {
      assert a + b == b;
    } else {
      hide *;
      assert (a + b)[1..] == a[1..] + b;
      FromLEConcat(a[1..], b);
      FromLEStep(a);
      FromLEStep(a + b);
      Times256(a[0], FromLE(a[1..]), Pow256(|a[1..]|), FromLE(b));
    }
  }

  function Rev<T>(s: seq<T>): (r: seq<T>)
    ensures |r| == |s|
    ensures forall i :: 0 <= i < |s| ==> r[i] == s[|s| - 1 - i]
  {
    seq(|s|, i requires 0 <= i < |s| => s[|s| - 1 - i])
  }

  lemma RevRev<T>(s: seq<T>)
    ensures Rev(Rev(s)) == s
  {
    assert forall i :: 0 <= i < |s| ==> Rev(Rev(s))[i] == s[i];
  }

  function Zeros(k: nat): (s: seq<Byte>)
    ensures |s| == k
  {
    seq(k, _ => 0)
  }

  lemma {:induction false} FromLEZeros(k: nat)
    ensures FromLE(Zeros(k)) == 0
  {
    if k > 0 {
      FromLEZeros(k - 1);
      assert Zeros(k)[1..] == Zeros(k - 1);
    }
  }

  function Ones(k: nat): (s: seq<Byte>)
    ensures |s| == k
  {
    seq(k, _ => 0xff)
  }

  lemma {:induction false} AllOnes(k: nat)
    ensures FromLE(Ones(k)) == Pow256(k) - 1
  {
    if k > 0 {
      AllOnes(k - 1);
      assert Ones(k)[1..] == Ones(k - 1);
    }
  }

  /** Strings of one length with the same number are the same string. */
  lemma FromLEInjective(a: seq<Byte>, b: seq<Byte>)
    requires |a| == |b| && FromLE(a) == FromLE(b)
    ensures a == b
  {
    EncodeDecode(a);
    EncodeDecode(b);
  }

  // ---------------------------------------------------------------- big.Int

  /** Number of bytes in the minimal big-endian form, as len(n.Bytes()) gives it. */
  function ByteLen(n: nat): (k: nat)
    ensures n < Pow256(k)
    ensures k > 0 ==> Pow256(k - 1) <= n
  {
    if n == 0 then 0 else 1 + ByteLen(n / 256)
  }

  lemma {:induction false} ByteLenBound(n: nat, k: nat)
    requires n < Pow256(k)
    ensures ByteLen(n) <= k
  {
    if k < ByteLen(n) {
      Pow256Monotone(k, ByteLen(n) - 1);
    }
  }

  lemma {:induction false} ByteLenUnique(n: nat, k: nat)
    requires n < Pow256(k) && (k > 0 ==> Pow256(k - 1) <= n)
    ensures ByteLen(n) == k
  {
    ByteLenBound(n, k);
    if ByteLen(n) < k {
      Pow256Monotone(ByteLen(n), k - 1);
    }
  }

  lemma {:induction false} TopByte(n: nat)
    requires n > 0
    ensures LE(n, ByteLen(n))[ByteLen(n) - 1] > 0
  {
    if n >= 256 {
      TopByte(n / 256);
      assert LE(n, ByteLen(n))[ByteLen(n) - 1] == LE(n / 256, ByteLen(n / 256))[ByteLen(n / 256) - 1];
    } else {
      assert ByteLen(n) == 1 + ByteLen(0);
    }
  }

  /** big.Int.Bytes: the minimal big-endian form. */
  function BigBytes(n: nat): (s: seq<Byte>)
    ensures |s| == ByteLen(n)
  {
    Rev(LE(n, ByteLen(n)))
  }

  /** big.Int.SetBytes. */
  function FromBE(s: seq<Byte>): nat {
    FromLE(Rev(s))
  }

  lemma FromBEBigBytes(n: nat)
    ensures FromBE(BigBytes(n)) == n
  {
    RevRev(LE(n, ByteLen(n)));
    DecodeEncode(n, ByteLen(n));
  }

  /** Writing a number in more bytes than it needs appends zero bytes. */
  lemma LEPad(n: nat, j: nat, k: nat)
    requires n < Pow256(j) && j <= k
    ensures LE(n, k) == LE(n, j) + Zeros(k - j)
  {
    var s := LE(n, j) + Zeros(k - j);
    assert FromLE(s) == n by {
      FromLEConcat(LE(n, j), Zeros(k - j));
      FromLEZeros(k - j);
      DecodeEncode(n, j);
    }
    EncodeDecode(s);
  }

  // ---------------------------------------------------------------- shifts by whole bytes

  function Lsh(w: nat, k: nat): nat {
    if k == 0 then w else 256 * Lsh(w, k - 1)
  }

  function Rsh(n: nat, k: nat): (r: nat)
    ensures r <= n
  {
    if k == 0 then n else Rsh(n / 256, k - 1)
  }

  lemma {:induction false} LshOrder(a: nat, b: nat, k: nat)
    ensures a < b <==> Lsh(a, k) < Lsh(b, k)
  {
    if k > 0 {
      LshOrder(a, b, k - 1);
    }
  }

  lemma {:induction false} LshSum(a: nat, b: nat, k: nat)
    ensures Lsh(a + b, k) == Lsh(a, k) + Lsh(b, k)
  {
    if k > 0 {
      LshSum(a, b, k - 1);
    }
  }

  lemma {:induction false} LshByte(w: nat, k: nat)
    ensures Lsh(256 * w, k) == Lsh(w, k + 1)
  {
    if k > 0 {
      LshByte(w, k - 1);
    }
  }

  lemma {:induction false} LshTwice(w: nat, j: nat, k: nat)
    ensures Lsh(Lsh(w, j), k) == Lsh(w, j + k)
  {
    if k > 0 {
      LshTwice(w, j, k - 1);
    }
  }

  lemma {:induction false} LshOne(k: nat)
    ensures Lsh(1, k) == Pow256(k)
    ensures Lsh(0x8000, k) == 0x8000 * Pow256(k)
  {
    if k > 0 {
      LshOne(k - 1);
    }
  }

  lemma {:induction false} LshTimes(w: nat, k: nat)
    ensures Lsh(w, k) == w * Pow256(k)
  {
    if k > 0 {
      LshTimes(w, k - 1);
    }
  }

  /** Shifting right and back rounds down. */
  lemma {:induction false} RshBracket(n: nat, k: nat)
    ensures Lsh(Rsh(n, k), k) <= n < Lsh(Rsh(n, k) + 1, k)
  {
    if k > 0 {
      RshBracket(n / 256, k - 1);
    }
  }

  // ---------------------------------------------------------------- two's complement

  function ToInt64(u: U64): (i: int) {
    if u < 0x8000_0000_0000_0000 then u else u - 0x1_0000_0000_0000_0000
  }

  function ToInt32(u: U32): (i: int) {
    if u < 0x8000_0000 then u else u - 0x1_0000_0000
  }

  /** start + i as a 32-bit unsigned sum. */
  function NonceAt(start: U32, i: nat): U32 {
    (start + i) % 0x1_0000_0000
  }

  // ---------------------------------------------------------------- hexadecimal text

  function HexDigit(n: nat): char
    requires n < 16
  {
    if n < 10 then (48 + n) as char else (87 + n) as char
  }

  function HexValue(c: char): (v: Option<nat>)
    ensures v.Some? ==> v.value < 16
  {
    var k := c as int; // '0' is 48, 'A' is 65, 'a' is 97
    if 48 <= k < 58 then Some(k - 48)
    else if 97 <= k < 103 then Some(k - 87)
    else if 65 <= k < 71 then Some(k - 55)
    else None
  }

  function HexEncode(s: seq<Byte>): (t: string)
    ensures |t| == 2 * |s|
  {
    if s == [] then [] else [HexDigit(s[0] / 16), HexDigit(s[0] % 16)] + HexEncode(s[1..])
  }

  function HexDecode(t: string): Option<seq<Byte>> {
    if t == [] then Some([])
    else if |t| == 1 then None
    else
      var hi :- HexValue(t[0]);
      var lo :- HexValue(t[1]);
      var rest :- HexDecode(t[2..]);
      Some([16 * hi + lo] + rest)
  }

  lemma HexDigitValue(n: nat)
    requires n < 16
    ensures HexValue(HexDigit(n)) == Some(n)
  {
  }

  /** hex.DecodeString undoes hex.EncodeToString. */
  lemma {:induction false} HexRoundTrip(s: seq<Byte>)
    ensures HexDecode(HexEncode(s)) == Some(s)
  {
    if s != [] {
      HexDigitValue(s[0] / 16);
      HexDigitValue(s[0] % 16);
      HexRoundTrip(s[1..]);
      assert HexEncode(s)[2..] == HexEncode(s[1..]);
      assert s == [s[0]] + s[1..] && s[0] == 16 * (s[0] / 16) + s[0] % 16;
    }
  }

  /** HashToDisplayHex: the bytes of a hash reversed, in hexadecimal. */
  function DisplayHex(h: Hash32): (t: string)
    ensures |t| == 64
  {
    HexEncode(Rev(h))
  }

  lemma DisplayHexInjective(a: Hash32, b: Hash32)
    requires DisplayHex(a) == DisplayHex(b)
    ensures a == b
  {
    HexRoundTrip(Rev(a));
    HexRoundTrip(Rev(b));
    RevRev(a);
    RevRev(b);
  }
}
