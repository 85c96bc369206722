/** The multi-threaded search of the CPU miner (scrypt.go), from the result a worker sends to what is returned.
    A worker tests the hash's bytes and sends them reversed, for display; the collector tests what it received
    without reversing it back. */
module CpuSearch {
  import opened Bytes
  import opened HashCompare
  import MineSubmit

  datatype Found = Found(nonce: U32, hash: seq<Byte>)

  /** Panics: right-aligning more than 32 target bytes slices out of range. */
  datatype Outcome = Kept(found: Found) | Nothing | Panics

  /** What a worker sends when its hash meets the target. */
  function Sent(nonce: U32, hash: Hash32): Found {
    Found(nonce, Rev(hash))
  }

  predicate Considered(r: Found) {
    r.nonce != 0 && |r.hash| > 0
  }

  predicate Keeps(r: Found, target: nat) {
    Considered(r) && |r.hash| == 32 && FromLE(r.hash) <= target
  }

  /** The loop over the results, in the order received until the channel is closed. */
  method Collect(results: seq<Found>, target: nat) returns (r: Outcome)
    ensures r.Kept? ==> exists k :: 0 <= k < |results| && results[k] == r.found && Keeps(r.found, target)
                          && forall j :: 0 <= j < k ==> !Keeps(results[j], target)
    ensures r.Nothing? ==> forall k :: 0 <= k < |results| ==> !Keeps(results[k], target)
    ensures r.Panics? <==> ByteLen(target) > 32 && exists k :: 0 <= k < |results| && Considered(results[k])
  {
    for i := 0 to |results|
      invariant forall k :: 0 <= k < i ==> !Keeps(results[k], target)
      invariant ByteLen(target) > 32 ==> forall k :: 0 <= k < i ==> !Considered(results[k])
    {
      var result := results[i];
      if result.nonce != 0 && |result.hash| > 0 {
        if ByteLen(target) > 32 {
          return Panics;
        }
        var targetLE := MineSubmit.TargetBytesLE(target);
        var meets := HashMeetsTargetLE(result.hash, targetLE);
        if meets {
          return Kept(result);
        }
      }
    }
    return Nothing;
  }

  /** A win at a nonzero nonce is kept exactly when its reversed bytes meet the target too; that holds for every
      such win if and only if the target is zero, which is never searched, or at least 2^256 - 2. */
  lemma KeepsEveryWin(target: nat)
    ensures (forall nonce: U32, hash: Hash32 :: nonce != 0 && FromLE(hash) <= target
                 ==> Keeps(Sent(nonce, hash), target))
        <==> OrderSafe(target)
    ensures forall nonce: U32, hash: Hash32 :: Keeps(Sent(nonce, hash), target)
              <==> nonce != 0 && FromBE(hash) <= target
  {
    ByteOrdersAgree(target);
    hide FromLE, OrderSafe;
    if forall nonce: U32, hash: Hash32 :: nonce != 0 && FromLE(hash) <= target ==> Keeps(Sent(nonce, hash), target) {
      forall h: Hash32 | FromLE(h) <= target
        ensures FromBE(h) <= target
      {
        assert Keeps(Sent(1, h), target);
      }
    }
  }
}
