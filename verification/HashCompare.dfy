/** Comparing 256-bit numbers byte by byte (hash_compare.go). */
module HashCompare {
  import opened Bytes

  /** The most significant differing byte decides. */
  lemma {:induction false} TopDifference(a: seq<Byte>, b: seq<Byte>, i: nat)
    requires |a| == |b| && i < |a|
    requires a[i] < b[i] && forall k :: i < k < |a| ==> a[k] == b[k]
    ensures FromLE(a) < FromLE(b)
  {
    if i > 0 {
      TopDifference(a[1..], b[1..], i - 1);
    } else {
      assert a[1..] == b[1..];
    }
  }

  /** hashMeetsTargetLE: numeric comparison of two 32-byte little-endian values. */
  method HashMeetsTargetLE(hash: seq<Byte>, target: seq<Byte>) returns (meets: bool)
    ensures meets <==> |hash| == 32 && |target| == 32 && FromLE(hash) <= FromLE(target)
  {
    if |hash| != 32 || |target| != 32 {
      return false;
    }
    var i := 31;
    while i >= 0
      invariant -1 <= i <= 31
      invariant forall k :: i < k < 32 ==> hash[k] == target[k]
    {
      if hash[i] < target[i] {
        TopDifference(hash, target, i);
        return true;
      }
      if hash[i] > target[i] {
        TopDifference(target, hash, i);
        return false;
      }
      i := i - 1;
    }
    assert hash == target;
    return true;
  }

  /** reverseBytesInPlace */
  method ReverseBytesInPlace(b: array<Byte>)
    modifies b
    ensures b[..] == Rev(old(b[..]))
  {
    for i := 0 to b.Length / 2
      invariant forall k :: 0 <= k < i ==> b[k] == old(b[b.Length - 1 - k]) && b[b.Length - 1 - k] == old(b[k])
      invariant forall k :: i <= k < b.Length - i ==> b[k] == old(b[k])
    {
      var j := b.Length - 1 - i;
      b[i], b[j] := b[j], b[i];
    }
    assert b[..] == Rev(old(b[..]));
  }

  // ---------------------------------------------------------------- the two byte orders

  /** The targets on which reading a hash in either byte order decides alike. */
  predicate OrderSafe(target: nat) {
    target == 0 || target >= Pow256(32) - 2
  }

  /** A string that reads the same both ways is the only one with its number, in either order. */
  lemma Palindrome(h: Hash32, z: Hash32)
    requires Rev(z) == z
    ensures FromLE(h) == FromLE(z) <==> h == z
    ensures FromBE(h) == FromLE(z) <==> h == z
  {
    if FromLE(h) == FromLE(z) {
      FromLEInjective(h, z);
    }
    if FromLE(Rev(h)) == FromLE(z) {
      FromLEInjective(Rev(h), z);
      RevRev(h);
    }
  }

  /** The least and the greatest hash. */
  lemma Extremes()
    ensures Rev(Zeros(32)) == Zeros(32) && FromLE(Zeros(32)) == 0
    ensures Rev(Ones(32)) == Ones(32) && FromLE(Ones(32)) == Pow256(32) - 1
  {
    hide FromLE, Pow256;
    FromLEZeros(32);
    AllOnes(32);
  }

  lemma SafeOrders(h: Hash32, t: nat)
    requires OrderSafe(t)
    ensures FromBE(h) <= t <==> FromLE(h) <= t
  {
    FromLEBound(h);
    FromLEBound(Rev(h));
    Extremes();
    hide FromLE, Rev, Zeros, Ones, Pow256;
    if t == 0 {
      Palindrome(h, Zeros(32));
    } else {
      Palindrome(h, Ones(32));
    }
  }

  /** A hash the kernel's order accepts and the host's refuses. */
  function Discarded(t: nat): Hash32 {
    if t < Pow256(31) then Zeros(31) + [1]
    else if t < 255 * Pow256(31) then Zeros(31) + [255]
    else [254] + Ones(31)
  }

  lemma SingleByte(b: Byte)
    ensures FromLE([b]) == b && Rev(Zeros(31) + [b]) == [b] + Zeros(31)
  {
    assert [b][1..] == [];
  }

  lemma HighByte(b: Byte)
    ensures FromLE(Zeros(31) + [b]) == Pow256(31) * b && FromBE(Zeros(31) + [b]) == b
  {
    SingleByte(b);
    hide Zeros, Pow256, FromLE, Rev;
    FromLEConcat(Zeros(31), [b]);
    FromLEConcat([b], Zeros(31));
    FromLEZeros(31);
  }

  lemma LowByte()
    ensures FromLE([254] + Ones(31)) == 256 * Pow256(31) - 2
    ensures FromBE([254] + Ones(31)) == 255 * Pow256(31) - 1
  {
    assert FromLE([254]) == 254;
    assert Rev([254] + Ones(31)) == Ones(31) + [254];
    hide Ones, Pow256, FromLE;
    FromLEConcat([254], Ones(31));
    FromLEConcat(Ones(31), [254]);
    AllOnes(31);
    Pow256Small();
  }

  lemma UnsafeOrders(t: nat)
    requires !OrderSafe(t)
    ensures FromBE(Discarded(t)) <= t < FromLE(Discarded(t))
  {
    assert Pow256(32) == 256 * Pow256(31);
    hide Pow256, FromLE, FromBE, Zeros, Ones;
    Pow256Monotone(1, 31);
    Pow256Small();
    if t < Pow256(31) {
      HighByte(1);
    } else if t < 255 * Pow256(31) {
      HighByte(255);
    } else {
      LowByte();
    }
  }

  lemma Mirrored(h: Hash32)
    ensures FromLE(Rev(h)) == FromBE(h) && FromBE(Rev(h)) == FromLE(h)
  {
    RevRev(h);
  }

  /** Reading hashes as big-endian and as little-endian numbers accepts the same ones exactly when the target
      is zero or at least 2^256 - 2; on every other target some hash passes the first and fails the second, and
      some hash the other way round. */
  lemma ByteOrdersAgree(t: nat)
    ensures (forall h: Hash32 :: FromBE(h) <= t <==> FromLE(h) <= t) <==> OrderSafe(t)
    ensures (forall h: Hash32 :: FromBE(h) <= t ==> FromLE(h) <= t) <==> OrderSafe(t)
    ensures (forall h: Hash32 :: FromLE(h) <= t ==> FromBE(h) <= t) <==> OrderSafe(t)
  {
    Mirrored(Discarded(t));
    hide FromLE, FromBE, OrderSafe;
    if OrderSafe(t) {
      forall h: Hash32
        ensures FromBE(h) <= t <==> FromLE(h) <= t
      {
        SafeOrders(h, t);
      }
    } else {
      UnsafeOrders(t);
    }
  }
}
