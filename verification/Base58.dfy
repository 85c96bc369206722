/** Base58 decoding of addresses (address.go), against the standard encoding. */
module Base58 {
  import opened Bytes

  type Digit = d: int | 0 <= d < 58

  // ---------------------------------------------------------------- digits and characters

  /** base58Alphabet[d]: 1 to 9, then A to Z without I and O, then a to z without l. */
  function Char(d: Digit): char {
    if d < 9 then ('1' as int + d) as char
    else if d < 17 then ('A' as int + d - 9) as char
    else if d < 22 then ('J' as int + d - 17) as char
    else if d < 33 then ('P' as int + d - 22) as char
    else if d < 44 then ('a' as int + d - 33) as char
    else ('m' as int + d - 44) as char
  }

  lemma AlphabetAscends(i: Digit, j: Digit)
    ensures Char(i) < Char(j) <==> i < j
  {
  }

  function Text(ds: seq<Digit>): (s: string)
    ensures |s| == |ds|
  {
    seq(|ds|, i requires 0 <= i < |ds| => Char(ds[i]))
  }

  lemma TextInjective(a: seq<Digit>, b: seq<Digit>)
    requires Text(a) == Text(b)
    ensures a == b
  {
    forall i | 0 <= i < |a|
      ensures a[i] == b[i]
    {
      assert Text(a)[i] == Text(b)[i];
      AlphabetAscends(a[i], b[i]);
      AlphabetAscends(b[i], a[i]);
    }
  }

  /** s is the text of ds. */
  predicate Spells(s: string, ds: seq<Digit>) { s == Text(ds) }

  ghost predicate ValidText(s: string) {
    exists ds: seq<Digit> :: Spells(s, ds)
  }

  // ---------------------------------------------------------------- numbers

  /** Most significant digit first. */
  function Value(ds: seq<Digit>): nat {
    if ds == [] then 0 else 58 * Value(ds[..|ds| - 1]) + ds[|ds| - 1]
  }

  /** The minimal digits of a number. */
  function Digits(n: nat): (ds: seq<Digit>)
    ensures n > 0 ==> |ds| > 0 && ds[0] != 0
    ensures n == 0 ==> ds == []
  {
    if n == 0 then [] else Digits(n / 58) + [n % 58]
  }

  lemma {:induction false} ValueDigits(n: nat)
    ensures Value(Digits(n)) == n
  {
    if n > 0 {
      ValueDigits(n / 58);
      assert Digits(n)[..|Digits(n)| - 1] == Digits(n / 58);
    }
  }

  lemma {:induction false} DigitsValue(ds: seq<Digit>)
    requires ds == [] || ds[0] != 0
    ensures Digits(Value(ds)) == ds
    ensures ds != [] ==> Value(ds) > 0
    decreases |ds|
  {
    if ds != [] {
      var init := ds[..|ds| - 1];
      DigitsValue(init);
      assert Value(ds) / 58 == Value(init) && Value(ds) % 58 == ds[|ds| - 1];
      assert ds == init + [ds[|ds| - 1]];
    }
  }

  /** Number of leading zeros. */
  function Leading(s: seq<int>): (k: nat)
    ensures k <= |s| && forall i :: 0 <= i < k ==> s[i] == 0
    ensures k < |s| ==> s[k] != 0
  {
    if s == [] || s[0] != 0 then 0 else 1 + Leading(s[1..])
  }

  lemma {:induction false} LeadingUnique(s: seq<int>, k: nat)
    requires k <= |s| && (forall i :: 0 <= i < k ==> s[i] == 0) && (k < |s| ==> s[k] != 0)
    ensures Leading(s) == k
  {
    if k > 0 {
      LeadingUnique(s[1..], k - 1);
    }
  }

  lemma {:induction false} ValueLeading(ds: seq<Digit>)
    ensures Value(ds) == Value(ds[Leading(ds)..])
    decreases |ds|
  {
    var k := Leading(ds);
    if k == |ds| {
      ValueZeros(ds);
    } else {
      var init := ds[..|ds| - 1];
      if k < |ds| - 1 {
        LeadingUnique(init, k);
        ValueLeading(init);
        assert ds[k..][..|ds[k..]| - 1] == init[k..];
      } else {
        ValueZeros(init);
        assert ds[k..][..0] == [];
      }
    }
  }

  lemma {:induction false} ValueZeros(ds: seq<Digit>)
    requires forall i :: 0 <= i < |ds| ==> ds[i] == 0
    ensures Value(ds) == 0
    decreases |ds|
  {
    if ds != [] {
      ValueZeros(ds[..|ds| - 1]);
    }
  }

  // ---------------------------------------------------------------- bytes

  lemma {:induction false} FromLEHigh(s: seq<Byte>)
    requires s != [] && s[|s| - 1] != 0
    ensures FromLE(s) >= Pow256(|s| - 1)
  {
    if |s| > 1 {
      FromLEHigh(s[1..]);
    }
  }

  /** Big-endian bytes without leading zeros are the minimal form of their number. */
  lemma BigBytesValue(b: seq<Byte>)
    requires b == [] || b[0] != 0
    ensures BigBytes(FromBE(b)) == b
  {
    var r := Rev(b);
    if b != [] {
      FromLEHigh(r);
    }
    FromLEBound(r);
    ByteLenUnique(FromLE(r), |r|);
    EncodeDecode(r);
    RevRev(b);
  }

  /** Leading zeros do not change a big-endian number. */
  lemma FromBELeading(k: nat, b: seq<Byte>)
    ensures FromBE(Zeros(k) + b) == FromBE(b)
  {
    assert Rev(Zeros(k) + b) == Rev(b) + Zeros(k);
    FromLEConcat(Rev(b), Zeros(k));
    FromLEZeros(k);
  }

  lemma BigBytesTop(n: nat)
    ensures n > 0 ==> BigBytes(n) != [] && BigBytes(n)[0] != 0
    ensures n == 0 ==> BigBytes(n) == []
  {
    if n > 0 {
      TopByte(n);
    }
  }

  // ---------------------------------------------------------------- the codec

  /** The standard encoding: a '1' for each leading zero byte, then the digits of the number. */
  function EncodeDigits(b: seq<Byte>): seq<Digit> {
    seq(Leading(b), _ => 0) + Digits(FromBE(b))
  }

  function Encode(b: seq<Byte>): string { Text(EncodeDigits(b)) }

  function DecodeDigits(ds: seq<Digit>): seq<Byte> {
    Zeros(Leading(ds)) + BigBytes(Value(ds))
  }

  /** Decoding undoes encoding, for every byte string. */
  lemma DecodeEncodeDigits(b: seq<Byte>)
    ensures DecodeDigits(EncodeDigits(b)) == b
  {
    var k, n := Leading(b), FromBE(b);
    var ds := EncodeDigits(b);
    assert b == Zeros(k) + b[k..];
    FromBELeading(k, b[k..]);
    LeadingUnique(ds, k);
    ValueLeading(ds);
    assert ds[k..] == Digits(n);
    ValueDigits(n);
    BigBytesValue(b[k..]);
  }

  lemma DecodedZeros(k: nat, n: nat)
    ensures Leading(Zeros(k) + BigBytes(n)) == k
  {
    BigBytesTop(n);
    hide BigBytes;
    LeadingUnique(Zeros(k) + BigBytes(n), k);
  }

  lemma LeadingSplit(ds: seq<Digit>, k: nat)
    requires k == Leading(ds)
    ensures ds == seq(k, _ => 0) + ds[k..]
  {
  }

  /** Encoding undoes decoding, for every digit string: decoding is injective. */
  lemma EncodeDecodeDigits(ds: seq<Digit>)
    ensures EncodeDigits(DecodeDigits(ds)) == ds
    ensures Leading(DecodeDigits(ds)) == Leading(ds)
  {
    var k, n := Leading(ds), Value(ds);
    var b := DecodeDigits(ds);
    DecodedZeros(k, n);
    FromBELeading(k, BigBytes(n));
    FromBEBigBytes(n);
    ValueLeading(ds);
    DigitsValue(ds[k..]);
    hide Digits, Value, FromBE, BigBytes, Leading;
    LeadingSplit(ds, k);
  }

  /** base58Decode: None exactly when some character is outside the alphabet. */
  method Base58Decode(s: string) returns (r: Option<seq<Byte>>)
    ensures r.Some? <==> ValidText(s)
    ensures forall ds: seq<Digit> :: Spells(s, ds) ==> r == Some(DecodeDigits(ds))
  {
    hide Char;
    var bigInt := 0;
    ghost var ds: seq<Digit> := [];
    for i := 0 to |s|
      invariant Spells(s[..i], ds) && bigInt == Value(ds)
    {
      var idx := IndexOf(s[i]);
      if idx == -1 {
        forall other: seq<Digit>
          ensures !Spells(s, other)
        {
          assert |other| == |s| ==> Text(other)[i] == Char(other[i]);
        }
        return None;
      }
      assert (ds + [idx])[..|ds|] == ds;
      bigInt := bigInt * 58;
      bigInt := bigInt + idx;
      ds := ds + [idx];
      assert s[..i + 1] == s[..i] + [s[i]];
    }
    assert s[..|s|] == s;
    forall other: seq<Digit> | Spells(s, other)
      ensures other == ds
    {
      TextInjective(other, ds);
    }
    var bytes := BigBytes(bigInt);
    var leadingZeros := CountOnes(s, ds);
    return Some(Zeros(leadingZeros) + bytes);
  }

  method IndexOf(c: char) returns (idx: int)
    ensures idx == -1 ==> forall d: Digit :: Char(d) != c
    ensures idx != -1 ==> 0 <= idx < 58 && Char(idx) == c
  {
    for i := 0 to 58
      invariant forall k: Digit :: k < i ==> Char(k) != c
    {
      if Char(i) == c {
        return i;
      }
    }
    return -1;
  }

  method CountOnes(s: string, ghost ds: seq<Digit>) returns (k: nat)
    requires Spells(s, ds)
    ensures k == Leading(ds)
  {
    k := 0;
    while k < |s| && s[k] == '1'
      invariant k <= |s| && forall i :: 0 <= i < k ==> ds[i] == 0
    {
      OneIsZero(ds[k]);
      k := k + 1;
    }
    if k < |s| {
      OneIsZero(ds[k]);
    }
    LeadingUnique(ds, k);
  }

  lemma OneIsZero(d: Digit)
    ensures Char(d) == '1' <==> d == 0
  {
    AlphabetAscends(0, d);
  }

  /** The decoder undoes the standard encoder on every byte string. */
  method RoundTrip(b: seq<Byte>) returns (r: Option<seq<Byte>>)
    ensures r == Some(b)
  {
    r := Base58Decode(Encode(b));
    assert Spells(Encode(b), EncodeDigits(b));
    DecodeEncodeDigits(b);
  }

  /** Two texts with the same decoding are the same text. */
  lemma DecodeInjective(s: string, t: string, a: seq<Digit>, b: seq<Digit>)
    requires Spells(s, a) && Spells(t, b) && DecodeDigits(a) == DecodeDigits(b)
    ensures s == t
  {
    EncodeDecodeDigits(a);
    EncodeDecodeDigits(b);
  }
}
