/** Compact difficulty encoding and the DigiShield retarget (pow_dogecoin.go, template_builder.go). */
module Difficulty {
  import opened Bytes

  const POW_LIMIT_COMPACT: U32 := 0x1e0f_fff0
  const DIGISHIELD_START := 145000
  const TESTNET_MIN_DIFF_START := 157500
  const MIN_DIFF_SPACING := 120
  const RETARGET_TIMESPAN := 60

  /** The 256-bit number 0x00000fff...fff (see PowLimitBytes). */
  function PowLimit(): nat {
    16 * Pow256(29) - 1
  }

  // ---------------------------------------------------------------- compact form

  /** Decodes compact bits; the mantissa is all 24 low bits, sign bit included. */
  function BitsToTarget(bits: U32): nat {
    Expand(bits / 0x100_0000, bits % 0x100_0000)
  }

  function Expand(size: nat, word: nat): nat {
    if size <= 3 then Rsh(word, 3 - size) else Lsh(word, size - 3)
  }

  /** What compact bits mean: the low three bytes times a power of 256, or those shifted out of them. */
  lemma DecodeForm(bits: U32)
    ensures var size, word := bits / 0x100_0000, bits % 0x100_0000;
            BitsToTarget(bits) == if size >= 3 then word * Pow256(size - 3)
                                  else if size == 2 then word / 0x100 else if size == 1 then word / 0x1_0000 else 0
  {
    var size, word := bits / 0x100_0000, bits % 0x100_0000;
    if size > 3 {
      LshTimes(word, size - 3);
    } else {
      assert Rsh(word, 3) == Rsh(word / 256, 2) == Rsh(word / 256 / 256, 1) == word / 256 / 256 / 256;
      assert Rsh(word, 2) == Rsh(word / 256, 1) == word / 256 / 256;
      assert Rsh(word, 1) == Rsh(word / 256, 0) == word / 256;
    }
  }

  /** Encodes a target. A target of at most three bytes is returned without its size byte. */
  function BigToCompact(n: int): U32 {
    if n <= 0 then 0
    else if ByteLen(n) <= 3 then Lsh(n, 3 - ByteLen(n)) % 0x1_0000_0000
    else Join(Exponent(n), Mantissa(n))
  }

  /** The three leading bytes. */
  function Leading(n: nat): nat
    requires ByteLen(n) >= 4
  {
    Rsh(n, ByteLen(n) - 3)
  }

  /** compact & 0x00800000 != 0 */
  predicate SignBit(compact: nat) {
    compact % 0x100_0000 >= 0x80_0000
  }

  function Mantissa(n: nat): nat
    requires ByteLen(n) >= 4
  {
    if SignBit(Leading(n)) then Leading(n) / 256 else Leading(n)
  }

  function Exponent(n: nat): (e: nat)
    requires ByteLen(n) >= 4
    ensures e >= 4
  {
    if SignBit(Leading(n)) then ByteLen(n) + 1 else ByteLen(n)
  }

  /** uint32(exponent) << 24 | compact & 0x007fffff */
  function Join(exponent: nat, compact: nat): U32 {
    exponent % 0x100 * 0x100_0000 + compact % 0x80_0000
  }

  /** A 15 to 23 bit mantissa and a byte exponent bracketing the target. */
  ghost predicate Scale(n: nat, c: nat, e: nat) {
    4 <= e && 0x8000 <= c < 0x80_0000 && Lsh(c, e - 3) <= n < Lsh(c + 1, e - 3)
  }

  lemma LargeLen(n: nat)
    ensures n >= 0x100_0000 <==> ByteLen(n) >= 4
    ensures n < Pow256(32) ==> ByteLen(n) <= 32
  {
    Pow256Small();
    if n < 0x100_0000 {
      ByteLenBound(n, 3);
    } else if ByteLen(n) <= 3 {
      Pow256Monotone(ByteLen(n), 3);
    }
    if n < Pow256(32) {
      ByteLenBound(n, 32);
    }
  }

  lemma EncoderScale(n: nat)
    requires ByteLen(n) >= 4
    ensures Scale(n, Mantissa(n), Exponent(n))
  {
    hide ByteLen, Leading, Lsh, Rsh, Pow256, SignBit;
    var c, e := Leading(n), ByteLen(n);
    LeadingRange(n);
    LeadingBracket(n);
    SignBitIs(c);
    if SignBit(c) {
      CarryByte(n, c, e);
    }
  }

  lemma SignBitIs(c: nat)
    requires c < 0x100_0000
    ensures SignBit(c) <==> c >= 0x80_0000
  {
  }

  lemma LeadingBracket(n: nat)
    requires ByteLen(n) >= 4
    ensures Lsh(Leading(n), ByteLen(n) - 3) <= n < Lsh(Leading(n) + 1, ByteLen(n) - 3)
  {
    RshBracket(n, ByteLen(n) - 3);
  }

  lemma LeadingRange(n: nat)
    requires ByteLen(n) >= 4
    ensures 0x1_0000 <= Leading(n) < 0x100_0000
  {
    var k := ByteLen(n) - 3;
    assert Pow256(k + 2) <= n < Pow256(k + 3) && Leading(n) == Rsh(n, k);
    hide *;
    RshBracket(n, k);
    PowersAbove(k);
    LshOrder(0x1_0000, Leading(n) + 1, k);
    LshOrder(Leading(n), 0x100_0000, k);
  }

  lemma PowersAbove(k: nat)
    ensures Pow256(k + 2) == Lsh(0x1_0000, k) && Pow256(k + 3) == Lsh(0x100_0000, k)
  {
    LshOne(k + 2);
    LshOne(k + 3);
    LshTwice(1, 2, k);
    LshTwice(1, 3, k);
    assert Lsh(1, 2) == 0x1_0000 && Lsh(1, 3) == 256 * Lsh(1, 2);
  }

  /** The step that keeps the mantissa's sign bit clear. */
  lemma CarryByte(n: nat, c: nat, e: nat)
    requires e >= 4 && 0x80_0000 <= c < 0x100_0000
    requires Lsh(c, e - 3) <= n < Lsh(c + 1, e - 3)
    ensures Scale(n, c / 256, e + 1)
  {
    var d := c / 256;
    LshByte(d, e - 3);
    LshByte(d + 1, e - 3);
    LshOrder(c, 256 * d, e - 3);
    LshOrder(256 * d + 256, c + 1, e - 3);
  }

  lemma DecodeJoin(c: nat, e: nat)
    requires 4 <= e <= 255 && c < 0x80_0000
    ensures BitsToTarget(Join(e, c)) == Lsh(c, e - 3)
    ensures SignClear(Join(e, c))
  {
    Parts(e, c);
  }

  lemma Parts(e: nat, c: nat)
    requires e <= 255 && c < 0x80_0000
    ensures Join(e, c) == e * 0x100_0000 + c
    ensures Join(e, c) / 0x100_0000 == e && Join(e, c) % 0x100_0000 == c
  {
    assert e % 0x100 == e && c % 0x80_0000 == c;
  }

  // ---------------------------------------------------------------- laws of the encoding

  /** The sign bit of the mantissa is clear, as it is in every encoding the chain uses. */
  predicate SignClear(bits: U32) {
    bits % 0x100_0000 < 0x80_0000
  }

  /** What a large target decodes back to. */
  lemma RoundedTarget(n: nat)
    requires 0x100_0000 <= n < Pow256(32)
    ensures ByteLen(n) >= 4 && Scale(n, Mantissa(n), Exponent(n)) && Exponent(n) <= 33
    ensures BigToCompact(n) == Join(Exponent(n), Mantissa(n))
    ensures BitsToTarget(BigToCompact(n)) == Lsh(Mantissa(n), Exponent(n) - 3) <= n
    ensures SignClear(BigToCompact(n))
  {
    LargeLen(n);
    EncoderScale(n);
    DecodeJoin(Mantissa(n), Exponent(n));
  }

  /** The value the encoder rounds to, without the packing. */
  function Rounded(n: nat): nat
    requires ByteLen(n) >= 4
  {
    Lsh(Mantissa(n), Exponent(n) - 3)
  }

  lemma DecodesToRounded(n: nat)
    requires 0x100_0000 <= n < Pow256(32)
    ensures ByteLen(n) >= 4 && Rounded(n) <= n
    ensures BitsToTarget(BigToCompact(n)) == Rounded(n)
  {
    RoundedTarget(n);
  }

  lemma RoundedPositive(n: nat)
    requires ByteLen(n) >= 4
    ensures Rounded(n) >= 0x80_0000
  {
    EncoderScale(n);
    LargeScale(Mantissa(n), Exponent(n));
  }

  /** Of all targets with a sign-clear encoding, the encoder picks the largest not above its input. */
  lemma EncodingIsLargestBelow(n: nat, other: U32)
    requires 0x100_0000 <= n < Pow256(32)
    requires SignClear(other) && BitsToTarget(other) <= n
    ensures BitsToTarget(other) <= BitsToTarget(BigToCompact(n)) <= n
  {
    DecodesToRounded(n);
    RepresentableBelow(n, other);
  }

  lemma RepresentableBelow(n: nat, other: U32)
    requires ByteLen(n) >= 4 && SignClear(other) && BitsToTarget(other) <= n
    ensures BitsToTarget(other) <= Rounded(n)
  {
    EncoderScale(n);
    NormalIsLargest(n, Mantissa(n), Exponent(n), other % 0x100_0000, other / 0x100_0000);
  }

  lemma NormalIsLargest(n: nat, c: nat, e: nat, w: nat, s: nat)
    requires Scale(n, c, e) && w < 0x80_0000 && Expand(s, w) <= n
    ensures Expand(s, w) <= Lsh(c, e - 3)
  {
    if s <= 3 {
      LargeScale(c, e);
    } else {
      AlignedBelow(n, c, e, w, s);
    }
  }

  lemma LargeScale(c: nat, e: nat)
    requires e >= 4 && c >= 0x8000
    ensures Lsh(c, e - 3) >= 0x80_0000
  {
    LshOne(e - 3);
    LshOrder(c, 0x8000, e - 3);
    assert Pow256(e - 3) == 256 * Pow256(e - 4);
  }

  lemma AlignedBelow(n: nat, c: nat, e: nat, w: nat, s: nat)
    requires Scale(n, c, e) && s >= 4 && w < 0x80_0000 && Lsh(w, s - 3) <= n
    ensures Lsh(w, s - 3) <= Lsh(c, e - 3)
  {
    if s < e {
      LowerExponent(w, s, c, e);
    } else {
      LshTwice(w, s - e, e - 3);
      LshOrder(Lsh(w, s - e), c + 1, e - 3);
      LshOrder(c, Lsh(w, s - e), e - 3);
    }
  }

  /** A sign-clear mantissa under a smaller exponent never exceeds a normal one above it. */
  lemma LowerExponent(w: nat, s: nat, c: nat, e: nat)
    requires 4 <= s < e && w <= 0x80_0000 && c >= 0x8000
    ensures Lsh(w, s - 3) <= Lsh(c, e - 3)
  {
    var k := s - 3;
    LshTwice(c, e - s, k);
    LshOrder(c, 0x8000, e - s);
    LshOne(e - s);
    assert Pow256(e - s) == 256 * Pow256(e - s - 1);
    LshOrder(Lsh(c, e - s), w, k);
  }

  /** Every encoding, sign bit or not, of a target not above n decodes to at most n's three leading bytes. */
  lemma AtMostLeading(n: nat, other: U32)
    requires ByteLen(n) >= 4 && BitsToTarget(other) <= n
    ensures BitsToTarget(other) <= Lsh(Leading(n), ByteLen(n) - 3) <= n
  {
    var w, s, k := other % 0x100_0000, other / 0x100_0000, ByteLen(n) - 3;
    LeadingRange(n);
    RshBracket(n, k);
    LshOrder(Leading(n), 0x1_0000, k);
    if s < ByteLen(n) {
      LowerSize(w, s, k);
    } else {
      LshTwice(w, s - ByteLen(n), k);
      LshOrder(Lsh(w, s - ByteLen(n)), Leading(n) + 1, k);
      LshOrder(Leading(n), Lsh(w, s - ByteLen(n)), k);
    }
  }

  lemma LowerSize(w: nat, s: nat, k: nat)
    requires w < 0x100_0000 && k >= 1 && s < k + 3
    ensures Expand(s, w) <= Lsh(0x1_0000, k)
  {
    LshOne(k);
    LshTimes(0x1_0000, k);
    assert Pow256(k) == 256 * Pow256(k - 1);
    if s > 3 {
      LshOrder(w, 0x100_0000, s - 3);
      LshTimes(0x100_0000, s - 3);
      Pow256Monotone(s - 2, k);
      assert Pow256(s - 2) == 256 * Pow256(s - 3);
    }
  }

  /** The encoder picks the largest decodable target not above its input exactly when its three leading bytes
      leave the sign bit clear or end in a zero byte: otherwise an encoding with the sign bit set is nearer. */
  lemma LargestOfAll(n: nat)
    requires 0x100_0000 <= n < Pow256(32)
    ensures ByteLen(n) >= 4
    ensures (forall other: U32 :: BitsToTarget(other) <= n ==> BitsToTarget(other) <= BitsToTarget(BigToCompact(n)))
       <==> !SignBit(Leading(n)) || Leading(n) % 256 == 0
  {
    hide BitsToTarget, BigToCompact, Lsh, Leading, SignBit, Rounded, ByteLen, Pow256;
    DecodesToRounded(n);
    LeadingRange(n);
    LargeLen(n);
    SignedEncoding(n);
    forall other: U32 | BitsToTarget(other) <= n
      ensures BitsToTarget(other) <= Lsh(Leading(n), ByteLen(n) - 3)
    {
      AtMostLeading(n, other);
    }
    RoundedLeading(n);
  }

  /** The leading bytes themselves, packed as they are. */
  lemma SignedEncoding(n: nat)
    requires 4 <= ByteLen(n) <= 32
    ensures exists other: U32 :: BitsToTarget(other) == Lsh(Leading(n), ByteLen(n) - 3) && BitsToTarget(other) <= n
  {
    hide *;
    LeadingRange(n);
    LeadingBracket(n);
    SizeAndWord(ByteLen(n), Leading(n));
    var other: U32 := ByteLen(n) * 0x100_0000 + Leading(n);
    assert BitsToTarget(other) <= n;
  }

  lemma SizeAndWord(size: nat, word: nat)
    requires 4 <= size <= 32 && word < 0x100_0000
    ensures BitsToTarget(size * 0x100_0000 + word) == Lsh(word, size - 3)
  {
    var bits := size * 0x100_0000 + word;
    assert bits / 0x100_0000 == size && bits % 0x100_0000 == word;
    hide Lsh;
  }

  lemma RoundedLeading(n: nat)
    requires ByteLen(n) >= 4
    ensures Rounded(n) == Lsh(Leading(n), ByteLen(n) - 3) <==> !SignBit(Leading(n)) || Leading(n) % 256 == 0
    ensures Rounded(n) <= Lsh(Leading(n), ByteLen(n) - 3)
  {
    LeadingRange(n);
    var c, k := Leading(n), ByteLen(n) - 3;
    if SignBit(c) {
      LshByte(c / 256, k);
      LshOrder(256 * (c / 256), c, k);
    }
  }

  /** Rounding loses less than one part in 2^15. */
  lemma EncodingLoss(n: nat)
    requires 0x100_0000 <= n < Pow256(32)
    ensures (n - BitsToTarget(BigToCompact(n))) * 0x8000 < n
  {
    hide *;
    RoundedTarget(n);
    ScaleLoss(n, Mantissa(n), Exponent(n));
  }

  lemma ScaleLoss(n: nat, c: nat, e: nat)
    requires Scale(n, c, e)
    ensures (n - Lsh(c, e - 3)) * 0x8000 < n
  {
    hide Lsh, Pow256;
    LshSum(c, 1, e - 3);
    LshOne(e - 3);
    LshOrder(c, 0x8000, e - 3);
  }

  /** A larger target never has smaller bits. */
  lemma EncodingMonotone(n: nat, m: nat)
    requires 0x100_0000 <= n <= m < Pow256(32)
    ensures BigToCompact(n) <= BigToCompact(m)
  {
    RoundedTarget(n);
    RoundedTarget(m);
    ScaleOrder(n, Mantissa(n), Exponent(n), m, Mantissa(m), Exponent(m));
    JoinOrder(Mantissa(n), Exponent(n), Mantissa(m), Exponent(m));
  }

  lemma ScaleOrder(n: nat, c: nat, e: nat, m: nat, d: nat, f: nat)
    requires n <= m && Scale(n, c, e) && Scale(m, d, f)
    ensures e < f || (e == f && c <= d)
  {
    if e == f {
      LshOrder(c, d + 1, e - 3);
    } else if f < e {
      LowerExponent(d + 1, f, c, e);
    }
  }

  lemma JoinOrder(c: nat, e: nat, d: nat, f: nat)
    requires c < 0x80_0000 && d < 0x80_0000 && e <= 33 && f <= 33
    requires e < f || (e == f && c <= d)
    ensures Join(e, c) <= Join(f, d)
  {
  }

  /** Bits are canonical when the mantissa has no leading zero byte and no sign bit. */
  predicate Canonical(bits: U32) {
    4 <= bits / 0x100_0000 <= 33 && 0x8000 <= bits % 0x100_0000 < 0x80_0000
  }

  /** Canonical bits of a target of at least four bytes survive a round trip. */
  lemma CanonicalRoundTrip(bits: U32)
    requires Canonical(bits) && 0x100_0000 <= BitsToTarget(bits) < Pow256(32)
    ensures BigToCompact(BitsToTarget(bits)) == bits
  {
    hide BigToCompact, Lsh, Pow256;
    JoinParts(bits);
    EncodeShifted(bits % 0x100_0000, bits / 0x100_0000);
  }

  lemma EncodeShifted(w: nat, s: nat)
    requires 4 <= s <= 33 && 0x8000 <= w < 0x80_0000 && 0x100_0000 <= Lsh(w, s - 3) < Pow256(32)
    ensures BigToCompact(Lsh(w, s - 3)) == Join(s, w)
  {
    var n := Lsh(w, s - 3);
    RoundedTarget(n);
    hide BigToCompact, BitsToTarget, Mantissa, Exponent, Lsh;
    ScaleUnique(n, w, s, Mantissa(n), Exponent(n));
  }

  lemma ScaleUnique(n: nat, w: nat, s: nat, c: nat, e: nat)
    requires s >= 4 && 0x8000 <= w < 0x80_0000 && n == Lsh(w, s - 3) && Scale(n, c, e)
    ensures c == w && e == s
  {
    LshOrder(w, w + 1, s - 3);
    ScaleOrder(n, w, s, n, c, e);
    ScaleOrder(n, c, e, n, w, s);
  }

  lemma JoinParts(bits: U32)
    requires SignClear(bits)
    ensures Join(bits / 0x100_0000, bits % 0x100_0000) == bits
  {
  }

  /** The encoder only produces canonical bits, so encoding twice changes nothing. */
  lemma EncodingIdempotent(n: nat)
    requires 0x100_0000 <= n < Pow256(32)
    ensures Canonical(BigToCompact(n))
    ensures BigToCompact(BitsToTarget(BigToCompact(n))) == BigToCompact(n)
  {
    RoundedTarget(n);
    JoinCanonical(Mantissa(n), Exponent(n));
    assert BitsToTarget(0x0401_0000) == Lsh(0x1_0000, 1) == 0x100_0000;
    EncodingIsLargestBelow(n, 0x0401_0000);
    CanonicalRoundTrip(BigToCompact(n));
  }

  lemma JoinCanonical(c: nat, e: nat)
    requires 4 <= e <= 33 && 0x8000 <= c < 0x80_0000
    ensures Canonical(Join(e, c))
  {
    Parts(e, c);
  }

  /** Below 2^24 the encoder drops the exponent and every encoding decodes to zero; so a positive
      target survives encoding, in the sense of decoding to something positive, exactly from 2^24 on. */
  lemma SmallTargetsVanish(n: nat)
    requires 0 < n < Pow256(32)
    ensures BitsToTarget(BigToCompact(n)) > 0 <==> n >= 0x100_0000
  {
    if n < 0x100_0000 {
      LargeLen(n);
      SmallEncoding(n);
    } else {
      DecodesToRounded(n);
      RoundedPositive(n);
    }
  }

  lemma SmallEncoding(n: nat)
    requires 0 < n && ByteLen(n) <= 3
    ensures BigToCompact(n) < 0x100_0000 && BitsToTarget(BigToCompact(n)) == 0
  {
    SmallShift(n);
    DecodeSmall(BigToCompact(n));
  }

  lemma DecodeSmall(bits: U32)
    requires bits < 0x100_0000
    ensures BitsToTarget(bits) == 0
  {
    RshByThree(bits);
  }

  lemma SmallShift(n: nat)
    requires 0 < n && ByteLen(n) <= 3
    ensures Lsh(n, 3 - ByteLen(n)) < 0x100_0000
  {
    var e := ByteLen(n);
    LshOrder(n, Pow256(e), 3 - e);
    LshOne(e);
    LshTwice(1, e, 3 - e);
    LshOne(3);
    Pow256Small();
  }

  lemma RshByThree(w: nat)
    requires w < 0x100_0000
    ensures Rsh(w, 3) == 0
  {
    assert Rsh(w, 3) == Rsh(w / 256, 2) == Rsh(w / 256 / 256, 1) == w / 256 / 256 / 256;
  }

  // ---------------------------------------------------------------- DigiShield

  /** Go's signed division, which truncates toward zero. */
  function TruncDiv(a: int, b: int): int
    requires b > 0
  {
    if a >= 0 then a / b else -((-a) / b)
  }

  function ModulatedTimespan(actual: int): int {
    var span := if actual < 1 then 1 else actual;
    var modulated := RETARGET_TIMESPAN + TruncDiv(span - RETARGET_TIMESPAN, 8);
    var least := RETARGET_TIMESPAN - RETARGET_TIMESPAN / 4;
    var most := RETARGET_TIMESPAN + RETARGET_TIMESPAN / 2;
    if modulated < least then least else if modulated > most then most else modulated
  }

  /** The retargeted value, before it is encoded. */
  function RetargetedTarget(prior: nat, timespan: nat): nat {
    var scaled := prior * timespan / RETARGET_TIMESPAN;
    if scaled > PowLimit() then PowLimit() else scaled
  }

  function DigishieldNextWork(tipBits: U32, tipTime: int, parentTime: int): U32 {
    TimespanLaws(tipTime - parentTime, tipTime - parentTime);
    NextBits(tipBits, ModulatedTimespan(tipTime - parentTime))
  }

  function NextBits(tipBits: U32, timespan: nat): U32 {
    var target := BitsToTarget(tipBits);
    if target == 0 then tipBits else BigToCompact(RetargetedTarget(target, timespan))
  }

  /** The dampened timespan stays in [53, 90], although the code clamps at 45; it never falls when
      the actual timespan grows; and it is exactly one minute for 53 to 67 seconds, nowhere else. */
  lemma TimespanLaws(a: int, b: int)
    requires a <= b
    ensures 53 <= ModulatedTimespan(a) <= ModulatedTimespan(b) <= 90
    ensures ModulatedTimespan(a) == 60 <==> 53 <= a <= 67
  {
  }

  /** The timespan differs from a minute by an eighth of what the gap does, rounded toward a minute, for gaps from
      1 to 307 seconds; shorter gaps count as one second and longer ones as 307. */
  lemma TimespanDamped(gap: int)
    ensures var m := ModulatedTimespan(gap);
            && (1 <= gap <= 307 ==> 8 * Abs(m - 60) <= Abs(gap - 60) < 8 * Abs(m - 60) + 8)
            && (1 <= gap <= 307 ==> if gap < 60 then m <= 60 else m >= 60)
            && (gap < 1 ==> m == 53) && (gap > 307 ==> m == 90)
  {
  }

  function Abs(a: int): nat { if a < 0 then -a else a }

  lemma ScaleBounds(prior: nat, m: nat, lo: nat, hi: nat)
    requires lo <= m <= hi
    ensures prior * lo / 60 <= prior * m / 60 <= prior * hi / 60
  {
    MulMono(prior, lo, m);
    MulMono(prior, m, hi);
  }

  lemma MulMono(k: nat, a: nat, b: nat)
    requires a <= b
    ensures k * a <= k * b
  {
  }

  /** The new target is at least 53/60 and at most 3/2 of the prior one, both rounded down, and the
      pow limit caps both. */
  lemma RetargetBounds(prior: nat, actual: int)
    ensures var new' := RetargetedTarget(prior, ModulatedTimespan(actual));
            && new' <= PowLimit() && new' <= 3 * prior / 2
            && (new' >= 53 * prior / 60 || new' == PowLimit())
  {
    TimespanLaws(actual, actual);
    ScaleBounds(prior, ModulatedTimespan(actual), 53, 90);
    assert prior * 90 / 60 == 3 * prior / 2;
  }

  /** Below the pow limit the new target is to the prior one as the timespan to 60 seconds, rounded down. */
  lemma RetargetExact(prior: nat, m: nat)
    ensures var new' := RetargetedTarget(prior, m);
            if prior * m < 60 * (PowLimit() + 1) then 60 * new' <= prior * m < 60 * (new' + 1) else new' == PowLimit()
  {
    hide PowLimit;
    var product, limit := prior * m, PowLimit();
    assert 60 * (product / 60) <= product < 60 * (product / 60) + 60;
  }

  /** A longer timespan never gives a smaller target. */
  lemma RetargetMonotone(prior: nat, m: nat, m': nat)
    requires m <= m'
    ensures RetargetedTarget(prior, m) <= RetargetedTarget(prior, m')
  {
    MulMono(prior, m, m');
  }

  /** The constant is the hexadecimal one in the source: three bytes 00 00 0f, then 29 bytes ff. */
  lemma PowLimitBytes()
    ensures PowLimit() == FromBE([0x00, 0x00, 0x0f] + Ones(29))
  {
    LimitOf(29);
  }

  lemma LimitOf(k: nat)
    ensures FromBE([0x00, 0x00, 0x0f] + Ones(k)) == 16 * Pow256(k) - 1
  {
    AllOnes(k);
    assert Rev([0x00, 0x00, 0x0f] + Ones(k)) == Ones(k) + [0x0f, 0x00, 0x00];
    FromLEConcat(Ones(k), [0x0f, 0x00, 0x00]);
    HighZeros(0x0f);
  }

  lemma HighZeros(b: Byte)
    ensures FromLE([b, 0, 0]) == b
  {
    assert [b, 0, 0][1..] == [0, 0] && [0, 0][1..] == [0] && [0][1..] == [];
  }

  lemma PowLimitRange()
    ensures 0x100_0000 <= PowLimit() < Pow256(32)
  {
    Pow256Small();
    Pow256Monotone(3, 29);
    Pow256Add(3, 29);
  }

  /** Decoding after encoding keeps order over every target up to 2^256, the vanishing small ones
      included. */
  lemma RoundingMonotone(n: nat, m: nat)
    requires n <= m < Pow256(32)
    ensures BitsToTarget(BigToCompact(n)) <= BitsToTarget(BigToCompact(m))
  {
    if n == 0 {
      DecodeSmall(0);
    } else if n < 0x100_0000 {
      LargeLen(n);
      SmallEncoding(n);
    } else {
      DecodesToRounded(n);
      RoundedTarget(n);
      EncodingIsLargestBelow(m, BigToCompact(n));
    }
  }

  /** The next block's decoded target never falls when the tip comes later after its parent. */
  lemma DigishieldMonotone(tipBits: U32, t: int, p: int, t': int, p': int)
    requires t - p <= t' - p'
    ensures BitsToTarget(DigishieldNextWork(tipBits, t, p)) <= BitsToTarget(DigishieldNextWork(tipBits, t', p'))
  {
    TimespanLaws(t - p, t' - p');
    NextBitsMonotone(tipBits, ModulatedTimespan(t - p), ModulatedTimespan(t' - p'));
  }

  lemma NextBitsMonotone(tipBits: U32, m: nat, m': nat)
    requires m <= m'
    ensures BitsToTarget(NextBits(tipBits, m)) <= BitsToTarget(NextBits(tipBits, m'))
  {
    var target := BitsToTarget(tipBits);
    if target > 0 {
      RetargetMonotone(target, m, m');
      PowLimitRange();
      RoundingMonotone(RetargetedTarget(target, m), RetargetedTarget(target, m'));
    }
  }

  /** The encoder's value on a target of at most three bytes: the bytes, left-aligned. */
  function ShortBits(n: nat): U32
    requires n < 0x100_0000
  {
    if n < 0x100 then n * 0x1_0000 else if n < 0x1_0000 then n * 0x100 else n
  }

  lemma ShortEncoding(n: nat)
    requires n < 0x100_0000
    ensures BigToCompact(n) == ShortBits(n)
  {
    Pow256Small();
    if n > 0 {
      var e := if n < 0x100 then 1 else if n < 0x1_0000 then 2 else 3;
      assert Pow256(0) == 1;
      ByteLenUnique(n, e);
      assert Lsh(n, 0) == n && Lsh(n, 1) == 256 * n && Lsh(n, 2) == 256 * Lsh(n, 1);
    }
  }

  lemma LongEncoding(n: nat)
    requires 0x100_0000 <= n < Pow256(32)
    ensures BigToCompact(n) >= 0x400_0000
  {
    RoundedTarget(n);
    hide BigToCompact, BitsToTarget, Mantissa;
    JoinAtLeast(Mantissa(n), Exponent(n));
  }

  lemma JoinAtLeast(c: nat, e: nat)
    requires 4 <= e <= 33
    ensures Join(e, c) >= 0x400_0000
  {
    assert e % 0x100 == e;
    hide Pow256;
  }

  /** A byte length is gained between two targets of at most three bytes. */
  predicate GainsByte(n: nat, m: nat) {
    n < 0x100 <= m || n < 0x1_0000 <= m
  }

  /** The encoder keeps order between targets that no such gain separates. */
  lemma EncodingKeepsOrder(n: nat, m: nat)
    requires n <= m < Pow256(32) && !GainsByte(n, m)
    ensures BigToCompact(n) <= BigToCompact(m)
  {
    if n >= 0x100_0000 {
      EncodingMonotone(n, m);
    } else {
      ShortEncoding(n);
      if m < 0x100_0000 {
        ShortEncoding(m);
      } else {
        LongEncoding(m);
      }
    }
  }

  ghost predicate BitsKeepOrder(tipBits: U32) {
    forall t: int, p: int, t': int, p': int :: t - p <= t' - p' ==>
      DigishieldNextWork(tipBits, t, p) <= DigishieldNextWork(tipBits, t', p')
  }

  /** The bits themselves keep that order, over all gaps, exactly when the smallest and the largest new
      target are not separated by 2^8 or 2^16. */
  lemma DigishieldBitsMonotone(tipBits: U32)
    ensures var target := BitsToTarget(tipBits);
      BitsKeepOrder(tipBits) <==> !GainsByte(RetargetedTarget(target, 53), RetargetedTarget(target, 90))
  {
    hide BigToCompact, RetargetedTarget, BitsToTarget;
    var target := BitsToTarget(tipBits);
    if GainsByte(RetargetedTarget(target, 53), RetargetedTarget(target, 90)) {
      GainLosesOrder(target);
      assert ModulatedTimespan(1) == 53 && ModulatedTimespan(1000) == 90;
      assert DigishieldNextWork(tipBits, 1, 0) > DigishieldNextWork(tipBits, 1000, 0);
    } else {
      forall t: int, p: int, t': int, p': int | t - p <= t' - p'
        ensures DigishieldNextWork(tipBits, t, p) <= DigishieldNextWork(tipBits, t', p')
      {
        NextBitsOrder(tipBits, t - p, t' - p');
      }
    }
  }

  lemma NextBitsOrder(tipBits: U32, gap: int, gap': int)
    requires gap <= gap'
    requires var target := BitsToTarget(tipBits); !GainsByte(RetargetedTarget(target, 53), RetargetedTarget(target, 90))
    ensures DigishieldNextWork(tipBits, gap, 0) <= DigishieldNextWork(tipBits, gap', 0)
  {
    hide BigToCompact, RetargetedTarget, BitsToTarget, ModulatedTimespan, GainsByte, PowLimit;
    var target, m, m' := BitsToTarget(tipBits), ModulatedTimespan(gap), ModulatedTimespan(gap');
    TimespanLaws(gap, gap');
    var a, b, c, d := RetargetedTarget(target, 53), RetargetedTarget(target, m), RetargetedTarget(target, m'),
                      RetargetedTarget(target, 90);
    RetargetMonotone(target, 53, m);
    RetargetMonotone(target, m, m');
    RetargetMonotone(target, m', 90);
    RetargetBounds(target, gap');
    PowLimitRange();
    NoGainBetween(a, b, c, d);
    EncodingKeepsOrder(b, c);
  }

  lemma NoGainBetween(a: nat, b: nat, c: nat, d: nat)
    requires a <= b && c <= d && !GainsByte(a, d)
    ensures !GainsByte(b, c)
  {
  }

  /** Where a byte is gained, the longest timespan gives smaller bits than the shortest. */
  lemma GainLosesOrder(target: nat)
    requires GainsByte(RetargetedTarget(target, 53), RetargetedTarget(target, 90))
    ensures target > 0
    ensures BigToCompact(RetargetedTarget(target, 53)) > BigToCompact(RetargetedTarget(target, 90))
  {
    hide BigToCompact;
    PowLimitRange();
    ShortEncoding(RetargetedTarget(target, 53));
    ShortEncoding(RetargetedTarget(target, 90));
  }

  /** Bits are left alone for any gap of 53 to 67 seconds. */
  lemma StableBits(tipBits: U32, t: int, p: int)
    requires 53 <= t - p <= 67
    requires Canonical(tipBits) && 0x100_0000 <= BitsToTarget(tipBits) <= PowLimit()
    ensures DigishieldNextWork(tipBits, t, p) == tipBits
  {
    TimespanLaws(t - p, t - p);
    assert RetargetedTarget(BitsToTarget(tipBits), 60) == BitsToTarget(tipBits);
    PowLimitRange();
    CanonicalRoundTrip(tipBits);
  }

  /** A gap under 53 seconds strictly lowers the target, for every positive tip target. */
  lemma FastBlocksAreHarder(tipBits: U32, t: int, p: int)
    requires t - p < 53 && BitsToTarget(tipBits) > 0
    ensures BitsToTarget(DigishieldNextWork(tipBits, t, p)) < BitsToTarget(tipBits)
  {
    var target := BitsToTarget(tipBits);
    TimespanLaws(t - p, 52);
    RetargetMonotone(target, ModulatedTimespan(t - p), 59);
    assert target * 59 / 60 < target;
    PowLimitRange();
    RoundingDown(RetargetedTarget(target, ModulatedTimespan(t - p)));
  }

  // ---------------------------------------------------------------- the next block's bits

  /** The part of the tip header that the rule reads. */
  datatype Tip = Tip(height: int, timestamp: U32, bits: U32)

  function NextWork(tip: Option<Tip>, blockTime: int, network: string, lastNonMin: Option<U32>,
                    parentTimestamp: U32): U32 {
    if tip.None? then POW_LIMIT_COMPACT
    else
      var t := tip.value;
      var testnetRule := network == "testnet" && t.height >= TESTNET_MIN_DIFF_START;
      if testnetRule && blockTime > t.timestamp + MIN_DIFF_SPACING then POW_LIMIT_COMPACT
      else if testnetRule && t.bits == POW_LIMIT_COMPACT && lastNonMin.Some? && lastNonMin.value != 0 then
        lastNonMin.value
      else if t.height < DIGISHIELD_START then t.bits
      else if parentTimestamp == 0 then t.bits
      else DigishieldNextWork(t.bits, t.timestamp, parentTimestamp)
  }

  /** On mainnet under DigiShield with a known parent time, whatever the block's own time and the
      carried bits, the next decoded target is within the pow limit and 3/2 of the tip's. */
  lemma MainnetNextWork(t: Tip, blockTime: int, lastNonMin: Option<U32>, parent: U32)
    requires t.height >= DIGISHIELD_START && parent != 0 && BitsToTarget(t.bits) > 0
    ensures var next := NextWork(Some(t), blockTime, "mainnet", lastNonMin, parent);
            BitsToTarget(next) <= PowLimit() && BitsToTarget(next) <= 3 * BitsToTarget(t.bits) / 2
  {
    assert "mainnet"[0] != "testnet"[0];
    DigishieldCeiling(t.bits, t.timestamp, parent);
  }

  /** Whether neither testnet rule decides: off testnet, below height 157500, or a block at most 120 seconds past a
      tip with real work or without carried bits. */
  predicate Ordinary(t: Tip, blockTime: int, network: string, lastNonMin: Option<U32>) {
    network == "testnet" && t.height >= 157500 ==>
      blockTime <= t.timestamp + 120 && (t.bits != 0x1e0f_fff0 || lastNonMin.None? || lastNonMin.value == 0)
  }

  /** The retarget, from tip height 145000 with a known parent time: canonical bits of a target from 2^24 to the limit
      stay for gaps from 53 to 67 seconds, and a shorter gap strictly lowers every positive target. */
  lemma NextWorkRetargets(t: Tip, blockTime: int, network: string, lastNonMin: Option<U32>, parent: U32)
    requires Ordinary(t, blockTime, network, lastNonMin) && t.height >= 145000 && parent != 0
    ensures var next := NextWork(Some(t), blockTime, network, lastNonMin, parent);
            && (53 <= t.timestamp - parent <= 67 ==>
                  Canonical(t.bits) && 0x100_0000 <= BitsToTarget(t.bits) <= PowLimit() ==> next == t.bits)
            && (t.timestamp - parent < 53 && BitsToTarget(t.bits) > 0 ==> BitsToTarget(next) < BitsToTarget(t.bits))
  {
    hide PowLimit, BitsToTarget, Canonical, DigishieldNextWork;
    if 53 <= t.timestamp - parent <= 67 && Canonical(t.bits) && 0x100_0000 <= BitsToTarget(t.bits) <= PowLimit() {
      StableBits(t.bits, t.timestamp, parent);
    }
    if t.timestamp - parent < 53 && BitsToTarget(t.bits) > 0 {
      FastBlocksAreHarder(t.bits, t.timestamp, parent);
    }
  }

  /** Of two tips with the same bits, the one that came later after its parent gets the larger target: the target
      never falls as the tip's time grows, and never grows as the parent's does. */
  lemma NextWorkMonotone(t: Tip, t': Tip, blockTime: int, blockTime': int, network: string,
                         lastNonMin: Option<U32>, lastNonMin': Option<U32>, parent: U32, parent': U32)
    requires Ordinary(t, blockTime, network, lastNonMin) && Ordinary(t', blockTime', network, lastNonMin')
    requires t.height >= 145000 && t'.height >= 145000 && parent != 0 && parent' != 0
    requires t.bits == t'.bits && t.timestamp <= t'.timestamp && parent >= parent'
    ensures BitsToTarget(NextWork(Some(t), blockTime, network, lastNonMin, parent))
         <= BitsToTarget(NextWork(Some(t'), blockTime', network, lastNonMin', parent'))
  {
    hide BitsToTarget, DigishieldNextWork;
    DigishieldMonotone(t.bits, t.timestamp, parent, t'.timestamp, parent');
  }

  /** Without retargeting the tip's bits are kept: below height 145000, or with an unknown parent time. Then on testnet
      from 157500 the result is the minimum if and only if the block is more than 120 seconds past the tip or the tip
      is of minimum difficulty and no other bits are carried. */
  lemma NextWorkKeeps(t: Tip, blockTime: int, network: string, lastNonMin: Option<U32>, parent: U32)
    requires t.height < 145000 || parent == 0
    ensures Ordinary(t, blockTime, network, lastNonMin) ==>
              NextWork(Some(t), blockTime, network, lastNonMin, parent) == t.bits
    ensures network == "testnet" && t.height >= 157500 ==>
              (NextWork(Some(t), blockTime, network, lastNonMin, parent) == 0x1e0f_fff0 <==>
                 blockTime > t.timestamp + 120
                 || (t.bits == 0x1e0f_fff0 && (lastNonMin.None? || lastNonMin.value in {0, 0x1e0f_fff0})))
  {
    hide DigishieldNextWork;
  }

  /** Testnet from 157500: a block more than 120 seconds past the tip has minimum difficulty, whatever the tip;
      else one on a tip of minimum difficulty takes the carried bits, when there are any. Without a tip the minimum
      is returned. */
  lemma NextWorkTestnet(t: Tip, blockTime: int, lastNonMin: Option<U32>, parent: U32)
    requires t.height >= 157500
    ensures blockTime > t.timestamp + 120 ==>
              NextWork(Some(t), blockTime, "testnet", lastNonMin, parent) == 0x1e0f_fff0
    ensures forall bits: U32 | bits != 0 && blockTime <= t.timestamp + 120 && t.bits == 0x1e0f_fff0 ::
              NextWork(Some(t), blockTime, "testnet", Some(bits), parent) == bits
    ensures NextWork(None, blockTime, "testnet", lastNonMin, parent) == 0x1e0f_fff0
  {
  }

  lemma DigishieldCeiling(tipBits: U32, t: int, p: int)
    requires BitsToTarget(tipBits) > 0
    ensures var next := BitsToTarget(DigishieldNextWork(tipBits, t, p));
            next <= PowLimit() && next <= 3 * BitsToTarget(tipBits) / 2
  {
    hide RetargetedTarget, ModulatedTimespan, BigToCompact, PowLimit, Pow256;
    RetargetBounds(BitsToTarget(tipBits), t - p);
    PowLimitRange();
    TimespanLaws(t - p, t - p);
    RoundingDown(RetargetedTarget(BitsToTarget(tipBits), ModulatedTimespan(t - p)));
  }

  lemma RoundingDown(n: nat)
    requires n < Pow256(32)
    ensures BitsToTarget(BigToCompact(n)) <= n
  {
    if n == 0 {
      DecodeSmall(0);
    } else if n < 0x100_0000 {
      LargeLen(n);
      SmallEncoding(n);
    } else {
      DecodesToRounded(n);
    }
  }
}
