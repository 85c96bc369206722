/** A batch of work items sharing one scratchpad and one results buffer (gpu_miner.go), on the single kernel
    and on the split kernels. Items run one after another, in any order. */
module KernelBatch {
  import opened Bytes
  import opened Scrypt
  import opened RomixKernel
  import opened MineKernel
  import opened HashCompare
  import NonceSearch

  /** The results buffer after the items of `order`. */
  function Reports(p: Primitives, base: seq<Byte>, nonceStart: U32, target: seq<Byte>, was: seq<U32>,
                   order: seq<nat>): (r: seq<U32>)
    requires |base| == 76 && |was| == 34
    ensures |r| == 34
  {
    if order == [] then was
    else Item(p, base, nonceStart, target,
              Reports(p, base, nonceStart, target, was, order[..|order| - 1]), order[|order| - 1])
  }

  predicate Wins(p: Primitives, base: seq<Byte>, nonceStart: U32, target: seq<Byte>, gid: nat)
    requires |base| == 76
  {
    Meets(PowBytes(p, HeaderWith(base, NonceAt(nonceStart, gid))), target)
  }

  /** What a winning item stores in the results buffer: flag, nonce and hash. */
  function Stored(p: Primitives, base: seq<Byte>, nonceStart: U32, gid: nat): (r: seq<U32>)
    requires |base| == 76
    ensures |r| == 34
  {
    [1, NonceAt(nonceStart, gid)] + AsWords(PowBytes(p, HeaderWith(base, NonceAt(nonceStart, gid))))
  }

  /** The buffer reports the nonce and the hash of a winning item of `order`. */
  ghost predicate ReportsWinner(p: Primitives, base: seq<Byte>, nonceStart: U32, target: seq<Byte>,
                                order: seq<nat>, r: seq<U32>)
    requires |base| == 76
  {
    exists i | 0 <= i < |order| ::
      && Wins(p, base, nonceStart, target, order[i])
      && r == Stored(p, base, nonceStart, order[i])
  }

  /** From a cleared buffer, the found flag is set exactly when some item wins, and then the buffer holds
      one winner's nonce and hash, whatever the order. */
  lemma {:induction false} FlagMeansWinner(p: Primitives, base: seq<Byte>, nonceStart: U32, target: seq<Byte>,
                                           was: seq<U32>, order: seq<nat>)
    requires |base| == 76 && |was| == 34 && was[0] == 0
    ensures var r := Reports(p, base, nonceStart, target, was, order);
      && (r[0] == 1 <==> exists i :: 0 <= i < |order| && Wins(p, base, nonceStart, target, order[i]))
      && (r[0] == 1 ==> ReportsWinner(p, base, nonceStart, target, order, r))
      && (r[0] != 1 ==> r == was)
  {
    hide PowBytes, HeaderWith, NonceAt, Meets;
    if order != [] {
      var k := |order| - 1;
      var rest := order[..k];
      FlagMeansWinner(p, base, nonceStart, target, was, rest);
      var before := Reports(p, base, nonceStart, target, was, rest);
      var r := Reports(p, base, nonceStart, target, was, order);
      if Wins(p, base, nonceStart, target, order[k]) {
        assert ReportsWinner(p, base, nonceStart, target, order, r);
      } else {
        assert r == before;
        if r[0] == 1 {
          var i :| 0 <= i < |rest| && Wins(p, base, nonceStart, target, rest[i])
            && r == Stored(p, base, nonceStart, rest[i]);
          assert order[i] == rest[i];
        } else {
          forall i | 0 <= i < |order|
            ensures !Wins(p, base, nonceStart, target, order[i])
          {
            assert i < k ==> order[i] == rest[i];
          }
        }
      }
    }
  }

  lemma ReportsSnoc(p: Primitives, base: seq<Byte>, nonceStart: U32, target: seq<Byte>, was: seq<U32>,
                    order: seq<nat>, i: nat)
    requires |base| == 76 && |was| == 34 && i < |order|
    ensures Reports(p, base, nonceStart, target, was, order[..i + 1])
         == Item(p, base, nonceStart, target, Reports(p, base, nonceStart, target, was, order[..i]), order[i])
  {
    hide Item;
    assert order[..i + 1][..i] == order[..i];
  }

  // ---------------------------------------------------------------- racing writes

  /** One store to the results buffer, by a winning work item. */
  datatype Write = Write(gid: nat, slot: nat)

  function Written(p: Primitives, base: seq<Byte>, nonceStart: U32, was: seq<U32>, writes: seq<Write>): (r: seq<U32>)
    requires |base| == 76 && |was| == 34 && forall i :: 0 <= i < |writes| ==> writes[i].slot < 34
    ensures |r| == 34
  {
    if writes == [] then was
    else
      var last := writes[|writes| - 1];
      var before := Written(p, base, nonceStart, was, writes[..|writes| - 1]);
      before[last.slot := Stored(p, base, nonceStart, last.gid)[last.slot]]
  }

  predicate Wrote(writes: seq<Write>, gid: nat, slot: nat) {
    Write(gid, slot) in writes
  }

  /** The stores of a batch, in any interleaving: winners of `order` only, and every slot by each of them. */
  ghost predicate BatchWrites(p: Primitives, base: seq<Byte>, nonceStart: U32, target: seq<Byte>, order: seq<nat>,
                              writes: seq<Write>)
    requires |base| == 76
  {
    && (forall i :: 0 <= i < |writes| ==>
          writes[i].slot < 34 && writes[i].gid in order && Wins(p, base, nonceStart, target, writes[i].gid))
    && (forall g: nat, slot: nat :: g in order && Wins(p, base, nonceStart, target, g) && slot < 34
          ==> Wrote(writes, g, slot))
  }

  /** A slot holds what some item that wrote it stored, or its first value when none did. */
  lemma {:induction false} SlotWriter(p: Primitives, base: seq<Byte>, nonceStart: U32,
                                     was: seq<U32>, writes: seq<Write>, slot: nat)
    requires |base| == 76 && |was| == 34 && slot < 34 && forall i :: 0 <= i < |writes| ==> writes[i].slot < 34
    ensures var r := Written(p, base, nonceStart, was, writes);
      || (r[slot] == was[slot] && forall g: nat :: !Wrote(writes, g, slot))
      || exists g: nat :: Wrote(writes, g, slot) && r[slot] == Stored(p, base, nonceStart, g)[slot]
  {
    hide Stored;
    if writes != [] {
      var last, before := writes[|writes| - 1], writes[..|writes| - 1];
      assert writes == before + [last];
      SlotWriter(p, base, nonceStart, was, before, slot);
      if last.slot == slot {
        assert Wrote(writes, last.gid, slot);
      } else {
        assert forall g: nat :: Wrote(writes, g, slot) <==> Wrote(before, g, slot);
      }
    }
  }

  /** However the stores of a batch race on a cleared buffer, the flag is set exactly when some item wins, and then
      every slot, the nonce included, is some winner's: the nonce alone decides what the host's last check sees. */
  lemma RacingReports(p: Primitives, base: seq<Byte>, nonceStart: U32, target: seq<Byte>, was: seq<U32>,
                      order: seq<nat>, writes: seq<Write>)
    requires |base| == 76 && |was| == 34 && was[0] == 0
    requires BatchWrites(p, base, nonceStart, target, order, writes)
    ensures var r := Written(p, base, nonceStart, was, writes);
      && (r[0] == 1 <==> exists g: nat :: g in order && Wins(p, base, nonceStart, target, g))
      && (r[0] == 1 ==> forall slot: nat :: slot < 34 ==>
            exists g: nat :: g in order && Wins(p, base, nonceStart, target, g)
                     && r[slot] == Stored(p, base, nonceStart, g)[slot])
  {
    hide Wins, Written, Stored;
    var r := Written(p, base, nonceStart, was, writes);
    SlotWriter(p, base, nonceStart, was, writes, 0);
    if g: nat :| g in order && Wins(p, base, nonceStart, target, g) {
      forall slot: nat | slot < 34
        ensures exists g: nat :: g in order && Wins(p, base, nonceStart, target, g)
                 && r[slot] == Stored(p, base, nonceStart, g)[slot]
      {
        var h := WinningWriter(p, base, nonceStart, target, was, order, writes, slot, g);
      }
      var h := WinningWriter(p, base, nonceStart, target, was, order, writes, 0, g);
      StoredFlag(p, base, nonceStart, h);
    } else {
      assert forall g: nat :: !Wrote(writes, g, 0);
    }
  }

  lemma StoredFlag(p: Primitives, base: seq<Byte>, nonceStart: U32, gid: nat)
    requires |base| == 76
    ensures Stored(p, base, nonceStart, gid)[0] == 1
  {
  }

  /** When g wins, every slot was last written by some winner. */
  lemma WinningWriter(p: Primitives, base: seq<Byte>, nonceStart: U32, target: seq<Byte>, was: seq<U32>,
                      order: seq<nat>, writes: seq<Write>, slot: nat, g: nat) returns (h: nat)
    requires |base| == 76 && |was| == 34 && slot < 34 && BatchWrites(p, base, nonceStart, target, order, writes)
    requires g in order && Wins(p, base, nonceStart, target, g)
    ensures h in order && Wins(p, base, nonceStart, target, h)
    ensures Written(p, base, nonceStart, was, writes)[slot] == Stored(p, base, nonceStart, h)[slot]
  {
    hide Wins, Written, Stored;
    SlotWriter(p, base, nonceStart, was, writes, slot);
    assert Wrote(writes, g, slot);
    h :| Wrote(writes, h, slot)
         && Written(p, base, nonceStart, was, writes)[slot] == Stored(p, base, nonceStart, h)[slot];
  }

  // ---------------------------------------------------------------- the host's check

  /** The CPU's scrypt hash of a header with a nonce. */
  function HostHash(p: Primitives, base: seq<Byte>): U32 -> Hash32
    requires |base| == 76
  {
    (nonce: U32) => PowBytes(p, HeaderWith(base, nonce))
  }

  /** On a batch's report, the host's check of the kernel's hash always passes: what it confirms is decided by
      the second check, which reads the same hash in the other byte order. */
  lemma HostConfirms(p: Primitives, base: seq<Byte>, nonceStart: U32, target: seq<Byte>, was: seq<U32>, order: seq<nat>)
    requires |base| == 76 && |was| == 34 && was[0] == 0
    ensures var r := Reports(p, base, nonceStart, target, was, order);
      r[0] == 1 ==>
        && NonceSearch.ReportedHash(r) == HostHash(p, base)(r[1])
        && (NonceSearch.Confirmed(HostHash(p, base), target, r) <==> FromLE(HostHash(p, base)(r[1])) <= FromLE(target))
        && (OrderSafe(FromLE(target)) ==> NonceSearch.Confirmed(HostHash(p, base), target, r))
  {
    hide PowBytes, HeaderWith, NonceAt, Reports, FromLE, FromBE, OrderSafe;
    FlagMeansWinner(p, base, nonceStart, target, was, order);
    var r := Reports(p, base, nonceStart, target, was, order);
    if r[0] == 1 {
      var i :| 0 <= i < |order| && Wins(p, base, nonceStart, target, order[i])
        && r == Stored(p, base, nonceStart, order[i]);
      assert NonceSearch.ReportedHash(r) == PowBytes(p, HeaderWith(base, r[1]));
      if OrderSafe(FromLE(target)) {
        SafeOrders(NonceSearch.ReportedHash(r), FromLE(target));
      }
    }
  }

  /** What the host does with the report of a work item whose hash is h. */
  predicate Kept(h: Hash32, target: seq<Byte>) {
    NonceSearch.Confirmed((nonce: U32) => h, target, [1, 0] + AsWords(h))
  }

  lemma KeptIsSecondCheck(h: Hash32, target: seq<Byte>)
    requires Meets(h, target)
    ensures Kept(h, target) <==> FromLE(h) <= FromLE(target)
  {
    hide FromLE, FromBE;
    assert NonceSearch.ReportedHash([1, 0] + AsWords(h)) == h;
  }

  /** The host keeps every kernel win exactly on the targets where the byte orders agree. */
  lemma WinsKept(target: seq<Byte>)
    ensures (forall h: Hash32 :: Meets(h, target) ==> Kept(h, target)) <==> OrderSafe(FromLE(target))
    ensures (forall h: Hash32 :: Meets(h, target) <==> FromLE(h) <= FromLE(target)) <==> OrderSafe(FromLE(target))
  {
    hide FromLE, FromBE, OrderSafe, Kept;
    ByteOrdersAgree(FromLE(target));
    forall h: Hash32 | Meets(h, target)
      ensures Kept(h, target) <==> FromLE(h) <= FromLE(target)
    {
      KeptIsSecondCheck(h, target);
    }
    if forall h: Hash32 :: Meets(h, target) ==> Kept(h, target) {
      forall h: Hash32
        ensures FromBE(h) <= FromLE(target) ==> FromLE(h) <= FromLE(target)
      {
        assert FromBE(h) <= FromLE(target) ==> Meets(h, target);
      }
    }
  }

  predicate Launched(order: seq<nat>, n: nat) {
    n <= 65536 && forall i :: 0 <= i < |order| ==> order[i] < n
  }

  /** A batch on mine_scrypt. */
  method RunSingle(p: Primitives, headerBase: array<Byte>, nonceStart: U32, target: array<Byte>,
                   results: array<U32>, v: array<U32>, n: nat, order: seq<nat>)
    requires headerBase.Length == 76 && target.Length == 32 && results.Length == 34 && results != v
    requires Launched(order, n) && 32768 * n <= v.Length
    modifies results, v
    ensures results[..] == Reports(p, headerBase[..], nonceStart, target[..], old(results[..]), order)
  {
    hide Item;
    ghost var was := results[..];
    for i := 0 to |order|
      invariant results[..] == Reports(p, headerBase[..], nonceStart, target[..], was, order[..i])
    {
      SingleItem(p, headerBase, nonceStart, target, results, v, order[i]);
      ReportsSnoc(p, headerBase[..], nonceStart, target[..], was, order, i);
    }
    assert order[..|order|] == order;
  }

  method SingleItem(p: Primitives, headerBase: array<Byte>, nonceStart: U32, target: array<Byte>,
                    results: array<U32>, v: array<U32>, gid: nat)
    requires headerBase.Length == 76 && target.Length == 32 && results.Length == 34 && results != v
    requires gid < 65536 && 32768 * gid + 32768 <= v.Length
    modifies results, v
    ensures results[..] == Item(p, headerBase[..], nonceStart, target[..], old(results[..]), gid)
  {
    hide PowBytes, HeaderWith, NonceAt, Report, Outside;
    MineScrypt(p, headerBase, nonceStart, target, results, v, gid);
  }

  /** Scratchpad and state of item g are what scrypt_fill leaves for its header. */
  ghost predicate Ready(p: Primitives, base: seq<Byte>, nonceStart: U32, v: seq<U32>, state: seq<U32>, g: nat)
    requires |base| == 76 && 32768 * g + 32768 <= |v| && 32 * g + 32 <= |state|
  {
    var x := StateOf(p, HeaderWith(base, NonceAt(nonceStart, g)));
    Slots(v, 32768 * g) == Table(p, x, N) && state[32 * g..32 * g + 32] == Power(p, x, N)
  }

  /** Work items never touch each other's scratchpad slice. */
  lemma SlotsApart(was: seq<U32>, v: seq<U32>, g: nat, other: nat)
    requires g != other && 32768 * g + 32768 <= |v| && Outside(was, v, 32768 * other)
    ensures Slots(v, 32768 * g) == Slots(was, 32768 * g)
  {
    forall k | 0 <= k < N
      ensures Slot(v, 32768 * g, k) == Slot(was, 32768 * g, k)
    {
    }
  }

  /** Nor each other's state slice. */
  lemma StateApart(was: seq<U32>, mine: seq<U32>, g: nat, other: nat)
    requires g != other && |mine| == 32 && 32 * g + 32 <= |was| && 32 * other + 32 <= |was|
    ensures (was[..32 * other] + mine + was[32 * other + 32..])[32 * g..32 * g + 32] == was[32 * g..32 * g + 32]
  {
  }

  /** Filling item `other` leaves it ready, and keeps the others ready. */
  method FillItem(p: Primitives, headerBase: array<Byte>, nonceStart: U32, vWrite: array<U32>,
                  stateWrite: array<U32>, n: nat, other: nat)
    requires headerBase.Length == 76 && vWrite != stateWrite
    requires other < n <= 65536 && 32768 * n <= vWrite.Length && 32 * n <= stateWrite.Length
    modifies vWrite, stateWrite
    ensures Ready(p, headerBase[..], nonceStart, vWrite[..], stateWrite[..], other)
    ensures forall g: nat | g < n && old(Ready(p, headerBase[..], nonceStart, vWrite[..], stateWrite[..], g)) ::
              Ready(p, headerBase[..], nonceStart, vWrite[..], stateWrite[..], g)
  {
    hide HeaderWith, NonceAt, StateOf, Slots, Table, Power, Outside;
    ghost var v, st := vWrite[..], stateWrite[..];
    ScryptFill(p, headerBase, nonceStart, vWrite, stateWrite, other);
    forall g: nat | g < n && g != other
      ensures Slots(vWrite[..], 32768 * g) == Slots(v, 32768 * g)
      ensures stateWrite[..][32 * g..32 * g + 32] == st[32 * g..32 * g + 32]
    {
      SlotsApart(v, vWrite[..], g, other);
      StateApart(st, Power(p, StateOf(p, HeaderWith(headerBase[..], NonceAt(nonceStart, other))), N), g, other);
    }
  }

  method MixItem(p: Primitives, headerBase: array<Byte>, nonceStart: U32, stateRead: array<U32>,
                 vRead: array<U32>, target: array<Byte>, results: array<U32>, gid: nat)
    requires headerBase.Length == 76 && target.Length == 32 && results.Length == 34
    requires results != stateRead && results != vRead
    requires gid < 65536 && 32768 * gid + 32768 <= vRead.Length && 32 * gid + 32 <= stateRead.Length
    requires Ready(p, headerBase[..], nonceStart, vRead[..], stateRead[..], gid)
    modifies results
    ensures results[..] == Item(p, headerBase[..], nonceStart, target[..], old(results[..]), gid)
  {
    hide HeaderWith, NonceAt, StateOf, Slots, Table, Power, Report, Mixed, PowBytes;
    MixAfterFill(p, HeaderWith(headerBase[..], NonceAt(nonceStart, gid)));
    ScryptMix(p, headerBase, nonceStart, stateRead, vRead, target, results, gid);
  }

  /** clEnqueueCopyBuffer of the first `count` words. */
  method CopyBuffer(source: array<U32>, dest: array<U32>, count: nat)
    requires source != dest && count <= source.Length && count <= dest.Length
    modifies dest
    ensures dest[..count] == source[..count]
  {
    for i := 0 to count
      invariant forall k :: 0 <= k < i ==> dest[k] == source[k]
    {
      dest[i] := source[i];
    }
  }

  /** Readiness depends only on the words of the launched items. */
  lemma ReadyCopied(p: Primitives, base: seq<Byte>, nonceStart: U32, v: seq<U32>, v2: seq<U32>,
                    st: seq<U32>, st2: seq<U32>, n: nat, g: nat)
    requires |base| == 76 && g < n && 32768 * n <= |v| && 32768 * n <= |v2| && 32 * n <= |st| && 32 * n <= |st2|
    requires v2[..32768 * n] == v[..32768 * n] && st2[..32 * n] == st[..32 * n]
    requires Ready(p, base, nonceStart, v, st, g)
    ensures Ready(p, base, nonceStart, v2, st2, g)
  {
    hide HeaderWith, NonceAt, StateOf, Table, Power;
    forall k | 0 <= k < N
      ensures Slot(v2, 32768 * g, k) == Slot(v, 32768 * g, k)
    {
      assert Slot(v2, 32768 * g, k) == v2[..32768 * n][32768 * g + 32 * k..32768 * g + 32 * k + 32];
      assert Slot(v, 32768 * g, k) == v[..32768 * n][32768 * g + 32 * k..32768 * g + 32 * k + 32];
    }
    assert st2[32 * g..32 * g + 32] == st2[..32 * n][32 * g..32 * g + 32];
    assert st[32 * g..32 * g + 32] == st[..32 * n][32 * g..32 * g + 32];
  }

  /** A batch on scrypt_fill, the two buffer copies, and scrypt_mix: the same results as on the single kernel. */
  method RunSplit(p: Primitives, headerBase: array<Byte>, nonceStart: U32, target: array<Byte>,
                  results: array<U32>, vWrite: array<U32>, vRead: array<U32>, stateWrite: array<U32>,
                  stateRead: array<U32>, n: nat, fillOrder: seq<nat>, mixOrder: seq<nat>)
    requires headerBase.Length == 76 && target.Length == 32 && results.Length == 34
    requires results != vWrite && results != vRead && results != stateWrite && results != stateRead
    requires vWrite != vRead && vWrite != stateWrite && vWrite != stateRead
    requires vRead != stateWrite && vRead != stateRead && stateWrite != stateRead
    requires Launched(fillOrder, n) && Launched(mixOrder, n)
    requires forall i :: 0 <= i < |mixOrder| ==> mixOrder[i] in fillOrder
    requires 32768 * n <= vWrite.Length && 32768 * n <= vRead.Length
    requires 32 * n <= stateWrite.Length && 32 * n <= stateRead.Length
    modifies results, vWrite, vRead, stateWrite, stateRead
    ensures results[..] == Reports(p, headerBase[..], nonceStart, target[..], old(results[..]), mixOrder)
  {
    hide Item, Ready;
    FillAll(p, headerBase, nonceStart, vWrite, stateWrite, n, fillOrder);
    CopyBuffer(vWrite, vRead, 32768 * n);
    CopyBuffer(stateWrite, stateRead, 32 * n);
    forall i | 0 <= i < |fillOrder|
      ensures Ready(p, headerBase[..], nonceStart, vRead[..], stateRead[..], fillOrder[i])
    {
      ReadyCopied(p, headerBase[..], nonceStart, vWrite[..], vRead[..], stateWrite[..], stateRead[..], n, fillOrder[i]);
    }
    MixAll(p, headerBase, nonceStart, stateRead, vRead, target, results, n, mixOrder);
  }

  method FillAll(p: Primitives, headerBase: array<Byte>, nonceStart: U32, vWrite: array<U32>,
                 stateWrite: array<U32>, n: nat, order: seq<nat>)
    requires headerBase.Length == 76 && vWrite != stateWrite
    requires Launched(order, n) && 32768 * n <= vWrite.Length && 32 * n <= stateWrite.Length
    modifies vWrite, stateWrite
    ensures forall i :: 0 <= i < |order| ==>
              Ready(p, headerBase[..], nonceStart, vWrite[..], stateWrite[..], order[i])
  {
    hide Ready;
    for i := 0 to |order|
      invariant forall k :: 0 <= k < i ==>
                  Ready(p, headerBase[..], nonceStart, vWrite[..], stateWrite[..], order[k])
    {
      FillItem(p, headerBase, nonceStart, vWrite, stateWrite, n, order[i]);
    }
  }

  method MixAll(p: Primitives, headerBase: array<Byte>, nonceStart: U32, stateRead: array<U32>, vRead: array<U32>,
                target: array<Byte>, results: array<U32>, n: nat, order: seq<nat>)
    requires headerBase.Length == 76 && target.Length == 32 && results.Length == 34
    requires results != stateRead && results != vRead
    requires Launched(order, n) && 32768 * n <= vRead.Length && 32 * n <= stateRead.Length
    requires forall i :: 0 <= i < |order| ==>
               Ready(p, headerBase[..], nonceStart, vRead[..], stateRead[..], order[i])
    modifies results
    ensures results[..] == Reports(p, headerBase[..], nonceStart, target[..], old(results[..]), order)
  {
    hide Item, Ready;
    ghost var was := results[..];
    for i := 0 to |order|
      invariant results[..] == Reports(p, headerBase[..], nonceStart, target[..], was, order[..i])
    {
      MixItem(p, headerBase, nonceStart, stateRead, vRead, target, results, order[i]);
      ReportsSnoc(p, headerBase[..], nonceStart, target[..], was, order, i);
    }
    assert order[..|order|] == order;
  }
}
