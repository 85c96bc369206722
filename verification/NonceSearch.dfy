/** Which nonces a search covers: the OpenCL batch loop (gpu_miner.go) and the stride distribution
    (scrypt.go, gpu_miner.go). */
module NonceSearch {
  import opened Bytes
  import opened HashCompare

  // ---------------------------------------------------------------- the batch loop

  /** Work items of the next batch. */
  function WorkSize(remaining: nat, batchSize: nat): nat {
    var w := if remaining < batchSize then remaining else batchSize;
    if w > 256 then w / 256 * 256
    else if 0 < w < 256 then
      if w > 128 then 128 else if w > 64 then 64 else 32
    else w
  }

  /** The rounding never asks for more than the remaining hashes, except for a last batch of 32. */
  lemma WorkSizeLaws(remaining: nat, batchSize: nat)
    requires remaining > 0 && batchSize > 0
    ensures 32 <= WorkSize(remaining, batchSize) < remaining + 32
    ensures WorkSize(remaining, batchSize) <= batchSize || WorkSize(remaining, batchSize) == 32
    ensures WorkSize(remaining, batchSize) % 32 == 0
  {
  }

  /** What the driver did with one batch. */
  datatype Outcome =
    | Skipped                     // any other buffer, launch or read error
    | InvalidValue                // CL_INVALID_VALUE for the scratchpad buffer
    | WorkGroup(cpu: CpuResult)   // CL_INVALID_WORK_GROUP_SIZE, and what the CPU search then returns
    | Ran(results: seq<U32>)      // the results buffer

  datatype CpuResult = CpuResult(found: bool, nonce: U32, hashes: U64)

  /** The accounted part of a search: `count` nonces after the first `offset`, from nonce `start`. */
  datatype Interval = Interval(start: U32, offset: nat, count: nat)

  /** Consecutive from offset 0 to `total`, each starting at its own nonce modulo 2^32. */
  ghost predicate Tiles(startNonce: U32, s: seq<Interval>, total: nat)
    decreases |s|
  {
    if s == [] then total == 0
    else
      var last := s[|s| - 1];
      && last.offset + last.count == total && last.count > 0
      && last.start == NonceAt(startNonce, last.offset)
      && Tiles(startNonce, s[..|s| - 1], last.offset)
  }

  lemma TilesSnoc(startNonce: U32, s: seq<Interval>, total: nat, last: Interval)
    requires Tiles(startNonce, s, total) && last.offset == total && last.count > 0
    requires last.start == (startNonce + total % 0x1_0000_0000) % 0x1_0000_0000
    ensures Tiles(startNonce, s + [last], total + last.count)
  {
    assert (s + [last])[..|s|] == s;
  }

  /** Every one of the first `total` nonces is in exactly one interval. */
  lemma {:induction false} TilesOnce(startNonce: U32, s: seq<Interval>, total: nat, j: nat) returns (k: nat)
    requires Tiles(startNonce, s, total) && j < total
    ensures k < |s| && s[k].offset <= j < s[k].offset + s[k].count
    ensures NonceAt(s[k].start, j - s[k].offset) == NonceAt(startNonce, j)
    ensures forall i :: 0 <= i < |s| && s[i].offset <= j < s[i].offset + s[i].count ==> i == k
    decreases |s|
  {
    hide NonceAt;
    k := |s| - 1;
    var last := s[k];
    if j < last.offset {
      k := TilesOnce(startNonce, s[..|s| - 1], last.offset, j);
    } else {
      NonceShift(startNonce, last.offset, j);
      hide Tiles;
      TilesBelow(startNonce, s[..|s| - 1], last.offset);
    }
  }

  lemma NonceShift(start: U32, offset: nat, j: nat)
    requires offset <= j
    ensures NonceAt(NonceAt(start, offset), j - offset) == NonceAt(start, j)
  {
  }

  lemma {:induction false} TilesBelow(startNonce: U32, s: seq<Interval>, total: nat)
    requires Tiles(startNonce, s, total)
    ensures forall i :: 0 <= i < |s| ==> s[i].offset + s[i].count <= total
    decreases |s|
  {
    if s != [] {
      TilesBelow(startNonce, s[..|s| - 1], s[|s| - 1].offset);
    }
  }

  /** The kernel's hash, big-endian in the results buffer, one byte a word. */
  function ReportedHash(results: seq<U32>): (h: seq<Byte>)
    requires |results| == 34
    ensures |h| == 32
  {
    seq(32, i requires 0 <= i < 32 => results[2 + i] % 256)
  }

  /** What the host demands of a report: the flag, and both hashes at most the target. */
  predicate Confirmed(hash: U32 -> Hash32, target: seq<Byte>, results: seq<U32>)
    requires |results| == 34
  {
    && results[0] == 1
    && FromBE(ReportedHash(results)) <= FromLE(target)
    && FromLE(hash(results[1])) <= FromLE(target)
  }

  method Recheck(hash: U32 -> Hash32, target: seq<Byte>, results: seq<U32>) returns (found: bool)
    requires |results| == 34 && |target| == 32
    ensures found <==> Confirmed(hash, target, results)
    ensures found ==> FromLE(hash(results[1])) <= FromLE(target)
  {
    hide FromLE;
    found := results[0] == 1;
    if found {
      var batchHash := new Byte[32](i requires 0 <= i < 32 => results[2 + i] % 256);
      assert batchHash[..] == ReportedHash(results);
      ReverseBytesInPlace(batchHash);
      found := HashMeetsTargetLE(batchHash[..], target);
      if found {
        found := HashMeetsTargetLE(hash(results[1]), target);
      }
    }
  }

  /** The batch loop of mineWithOpenCLKernel. `outcome` gives what the driver does in each turn; `batched` is what the
      batches account for, and `total` what is returned. */
  method MineBatches(hash: U32 -> Hash32, target: seq<Byte>, maxHashes: U64, firstBatch: nat, startNonce: U32,
                     outcome: nat -> Outcome)
    returns (found: bool, nonce: U32, total: U64, batched: U64, accounted: seq<Interval>, turn: nat)
    requires |target| == 32 && firstBatch > 0
    requires maxHashes <= 0x1_0000_0000_0000_0000 - 32 // above it the 64-bit counter could wrap
    requires forall i: nat :: outcome(i).Ran? ==> |outcome(i).results| == 34
    ensures Tiles(startNonce, accounted, batched) && batched < maxHashes + 32
    ensures forall k :: 0 <= k < |accounted| ==> accounted[k].count <= firstBatch || accounted[k].count == 32
    ensures forall i :: 0 <= i < turn - 1 ==> !Ends(hash, target, outcome(i))
    ensures turn > 0 && Ends(hash, target, outcome(turn - 1)) ==>
              match outcome(turn - 1)
              case WorkGroup(cpu) =>
                found == cpu.found && (found ==> nonce == cpu.nonce)
                && batched < maxHashes && total == (batched + cpu.hashes) % 0x1_0000_0000_0000_0000
              case Ran(results) =>
                found && nonce == results[1] && FromLE(hash(nonce)) <= FromLE(target) && total == batched
              case _ => true
    ensures turn == 0 || !Ends(hash, target, outcome(turn - 1)) ==>
              !found && total == batched && maxHashes <= total < maxHashes + 32
  {
    assert Tiles(startNonce, [], 0);
    hide Confirmed, WorkSize, Tiles, FromLE;
    found, nonce, batched, accounted, turn := false, 0, 0, [], 0;
    var batchSize: nat := firstBatch;
    while batched < maxHashes
      invariant 0 < batchSize <= firstBatch
      invariant forall k :: 0 <= k < |accounted| ==> accounted[k].count <= firstBatch || accounted[k].count == 32
      invariant forall i :: 0 <= i < turn ==> !Ends(hash, target, outcome(i))
      invariant batched < maxHashes + 32
      invariant Tiles(startNonce, accounted, batched)
      invariant !found
      decreases maxHashes - batched, batchSize
    {
      var workSize := WorkSize(maxHashes - batched, batchSize);
      WorkSizeLaws(maxHashes - batched, batchSize);
      var interval := Interval((startNonce + batched % 0x1_0000_0000) % 0x1_0000_0000, batched, workSize);
      var result := outcome(turn);
      turn := turn + 1;
      if result.InvalidValue? && batchSize > 256 {
        batchSize := if batchSize / 2 < 256 then 256 else batchSize / 2;
        continue;
      }
      if result.WorkGroup? {
        found, nonce := result.cpu.found, if result.cpu.found then result.cpu.nonce else 0;
        total := (batched + result.cpu.hashes) % 0x1_0000_0000_0000_0000;
        return;
      }
      if result.Ran? {
        found := Recheck(hash, target, result.results);
        nonce := if found then result.results[1] else 0;
      }
      TilesSnoc(startNonce, accounted, batched, interval);
      accounted := accounted + [interval];
      batched := batched + workSize;
      if found {
        total := batched;
        return;
      }
    }
    total := batched;
  }

  /** The outcomes that end the loop: the fallback to the CPU, and a confirmed report. */
  predicate Ends(hash: U32 -> Hash32, target: seq<Byte>, outcome: Outcome)
    requires outcome.Ran? ==> |outcome.results| == 34
  {
    outcome.WorkGroup? || (outcome.Ran? && Confirmed(hash, target, outcome.results))
  }

  // ---------------------------------------------------------------- the stride distribution

  /** The nonce computed in turn i of a batch whose first nonce is `start`, with 32-bit wrap-around. */
  function StrideNonce(start: U32, i: U32, stride: U32): (n: U32)
    ensures n != 0xFFFF_FFFF
  {
    (start + i * stride % 0x1_0000_0000) % 0x1_0000_0000 % 0xFFFF_FFFF
  }

  /** Worker t's first nonce of the batch and turn in the batch, when it is about to compute its nonce number k. */
  function Cursor(base: U32, threads: U32, t: nat, batchSize: U32, k: nat): (c: (U32, U32))
    requires batchSize > 0
    ensures c.1 < batchSize
  {
    if k == 0 then ((base + t) % 0x1_0000_0000 % 0xFFFF_FFFF, 0)
    else
      var (start, i) := Cursor(base, threads, t, batchSize, k - 1);
      if i + 1 < batchSize then (start, i + 1) else (StrideNonce(start, batchSize, threads), 0)
  }

  /** Nonce number k of worker t. */
  function TestedNonce(base: U32, threads: U32, t: nat, batchSize: U32, k: nat): (n: U32)
    requires batchSize > 0
    ensures n != 0xFFFF_FFFF
  {
    var (start, i) := Cursor(base, threads, t, batchSize, k);
    StrideNonce(start, i, threads)
  }

  /** The nonce meant for it: worker t takes every threads-th number from base + t. */
  function Planned(base: nat, threads: nat, t: nat, k: nat): nat {
    base + t + threads * k
  }

  lemma PlannedBelow(base: nat, threads: nat, t: nat, k: nat, hashes: nat)
    requires t < threads && k < hashes
    ensures Planned(base, threads, t, k) < base + threads * hashes
    ensures threads * k + threads <= threads * hashes
  {
    assert threads * (hashes - k - 1) >= 0;
    assert threads * hashes == threads * k + threads + threads * (hashes - k - 1);
  }

  lemma Unwrapped(start: nat, x: nat)
    requires start + x < 0xFFFF_FFFF
    ensures (start + x % 0x1_0000_0000) % 0x1_0000_0000 % 0xFFFF_FFFF == start + x
  {
  }

  lemma NextTurn(m: int, a: int)
    ensures m * (a + 1) == m * a + m && (a + 1) * m == a * m + m
  {
  }

  /** Without wrap-around the batches continue one another. */
  lemma {:induction false} CursorPlanned(base: U32, threads: U32, t: nat, batchSize: U32, k: nat, hashes: nat)
    requires t < threads && batchSize > 0 && k < hashes && base + threads * hashes <= 0xFFFF_FFFF
    ensures var (start, i) := Cursor(base, threads, t, batchSize, k);
      start + i * threads == Planned(base, threads, t, k) < 0xFFFF_FFFF
    decreases k
  {
    hide StrideNonce, Planned;
    PlannedBelow(base, threads, t, k, hashes);
    if k == 0 {
      PlannedZero(base, threads, t);
      Unwrapped(base + t, 0);
    } else {
      CursorPlanned(base, threads, t, batchSize, k - 1, hashes);
      var (start, i) := Cursor(base, threads, t, batchSize, k - 1);
      PlannedNext(base, threads, t, k - 1);
      NextTurn(threads, i);
      if i + 1 == batchSize {
        StrideUnwrapped(start, batchSize, threads);
      }
    }
  }

  lemma PlannedZero(base: nat, threads: nat, t: nat)
    ensures Planned(base, threads, t, 0) == base + t
  {
  }

  lemma PlannedNext(base: nat, threads: nat, t: nat, k: nat)
    ensures Planned(base, threads, t, k + 1) == Planned(base, threads, t, k) + threads
  {
    NextTurn(threads, k);
  }

  lemma StrideUnwrapped(start: U32, i: U32, stride: U32)
    requires start + i * stride < 0xFFFF_FFFF
    ensures StrideNonce(start, i, stride) == start + i * stride
  {
    assert i * stride >= 0;
    Unwrapped(start, i * stride);
  }

  /** When the nonces of all workers stay below 2^32 - 1, the tested ones are the planned ones. */
  lemma TestedIsPlanned(base: U32, threads: U32, t: nat, batchSize: U32, k: nat, hashes: nat)
    requires t < threads && batchSize > 0 && k < hashes && base + threads * hashes <= 0xFFFF_FFFF
    ensures TestedNonce(base, threads, t, batchSize, k) == Planned(base, threads, t, k)
  {
    hide StrideNonce, Cursor;
    CursorPlanned(base, threads, t, batchSize, k, hashes);
    var (start, i) := Cursor(base, threads, t, batchSize, k);
    StrideUnwrapped(start, i, threads);
  }

  /** The nonces a worker tests, in order. */
  ghost predicate OnCourse(base: U32, threads: U32, t: nat, batchSize: U32, tested: seq<U32>)
    requires batchSize > 0
  {
    forall k :: 0 <= k < |tested| ==> tested[k] == TestedNonce(base, threads, t, batchSize, k)
  }

  /** The stride branch of a worker, with no other worker interfering: it stops at the first nonce that passes.
      It tests the nonces planned for it as long as none wraps around, and never 0xFFFFFFFF. */
  method StrideWorker(passes: U32 -> bool, base: U32, threads: U32, t: U32, hashes: nat, batchSize: U32)
    returns (found: bool, tested: seq<U32>)
    requires t < threads && batchSize > 0
    ensures OnCourse(base, threads, t, batchSize, tested) && |tested| <= hashes
    ensures forall k :: 0 <= k < |tested| ==> tested[k] != 0xFFFF_FFFF
    ensures base + threads * hashes <= 0xFFFF_FFFF ==>
              forall k :: 0 <= k < |tested| ==> tested[k] == Planned(base, threads, t, k)
    ensures !found ==> |tested| == hashes && forall k :: 0 <= k < |tested| ==> !passes(tested[k])
    ensures found ==> |tested| > 0 && passes(tested[|tested| - 1])
                      && forall k :: 0 <= k < |tested| - 1 ==> !passes(tested[k])
  {
    hide StrideNonce, Planned;
    found, tested := StrideLoop(passes, base, threads, t, hashes, batchSize);
    if base + threads * hashes <= 0xFFFF_FFFF {
      forall k | 0 <= k < |tested|
        ensures tested[k] == Planned(base, threads, t, k)
      {
        TestedIsPlanned(base, threads, t, batchSize, k, hashes);
      }
    }
  }

  method StrideLoop(passes: U32 -> bool, base: U32, threads: U32, t: U32, hashes: nat, batchSize: U32)
    returns (found: bool, tested: seq<U32>)
    requires t < threads && batchSize > 0
    ensures OnCourse(base, threads, t, batchSize, tested) && |tested| <= hashes
    ensures !found ==> |tested| == hashes && forall k :: 0 <= k < |tested| ==> !passes(tested[k])
    ensures found ==> |tested| > 0 && passes(tested[|tested| - 1])
                      && forall k :: 0 <= k < |tested| - 1 ==> !passes(tested[k])
  {
    hide StrideNonce;
    found, tested := false, [];
    var start: U32 := (base + t) % 0x1_0000_0000 % 0xFFFF_FFFF;
    while |tested| < hashes
      invariant |tested| <= hashes && OnCourse(base, threads, t, batchSize, tested)
      invariant |tested| < hashes ==> Cursor(base, threads, t, batchSize, |tested|) == (start, 0)
      invariant forall k :: 0 <= k < |tested| ==> !passes(tested[k])
    {
      ghost var before := |tested|;
      var i: U32 := 0;
      while i < batchSize && |tested| < hashes
        invariant 0 <= i <= batchSize && |tested| == before + i <= hashes
        invariant OnCourse(base, threads, t, batchSize, tested)
        invariant Cursor(base, threads, t, batchSize, |tested|)
               == if i < batchSize then (start, i) else (StrideNonce(start, batchSize, threads), 0)
        invariant forall k :: 0 <= k < |tested| ==> !passes(tested[k])
        decreases batchSize - i
      {
        var nonce := StrideNonce(start, i, threads);
        tested := tested + [nonce];
        if passes(nonce) {
          found := true;
          return;
        }
        i := i + 1;
      }
      start := StrideNonce(start, batchSize, threads);
    }
  }

  // ---------------------------------------------------------------- what all workers cover

  /** Every worker's whole course. */
  ghost predicate AllOnCourse(base: U32, threads: U32, hashes: nat, batchSize: U32, tested: seq<seq<U32>>)
    requires batchSize > 0
  {
    && |tested| == threads
    && forall t :: 0 <= t < threads ==> |tested[t]| == hashes && OnCourse(base, threads, t, batchSize, tested[t])
  }

  predicate TestedAt(tested: seq<seq<U32>>, t: nat, k: nat, n: nat) {
    t < |tested| && k < |tested[t]| && tested[t][k] == n
  }

  predicate Within(n: nat, lo: nat, hi: nat) { lo <= n < hi }

  /** Every number from lo to hi - 1 has been tested, and nothing has been tested twice. */
  ghost predicate ExactlyOnce(tested: seq<seq<U32>>, lo: nat, hi: nat) {
    && (forall n: nat :: Within(n, lo, hi) ==> exists t: nat, k: nat :: TestedAt(tested, t, k, n))
    && (forall t: nat, k: nat, u: nat, l: nat, n: nat ::
          TestedAt(tested, t, k, n) && TestedAt(tested, u, l, n) ==> t == u && k == l)
  }

  /** Whatever the batch size, the workers together test every nonce of [base, base + threads * hashes) exactly
      once if and only if that interval ends at or below 0xFFFFFFFF. */
  lemma CoverageExact(base: U32, threads: U32, hashes: nat, batchSize: U32, tested: seq<seq<U32>>)
    requires threads > 0 && batchSize > 0 && AllOnCourse(base, threads, hashes, batchSize, tested)
    ensures ExactlyOnce(tested, base, base + threads * hashes) <==> base + threads * hashes <= 0xFFFF_FFFF
  {
    hide TestedNonce, Planned;
    if base + threads * hashes <= 0xFFFF_FFFF {
      forall t: nat, k: nat | t < threads && k < hashes
        ensures tested[t][k] == Planned(base, threads, t, k)
      {
        TestedIsPlanned(base, threads, t, batchSize, k, hashes);
      }
      PlansCover(base, threads, hashes, tested);
    } else {
      assert Within(0xFFFF_FFFF, base, base + threads * hashes);
      forall t: nat, k: nat
        ensures !TestedAt(tested, t, k, 0xFFFF_FFFF)
      {
        assert t < threads && k < hashes ==> tested[t][k] == TestedNonce(base, threads, t, batchSize, k);
      }
    }
  }

  lemma PlansCover(base: nat, threads: nat, hashes: nat, tested: seq<seq<U32>>)
    requires threads > 0 && |tested| == threads
    requires forall t: nat :: t < threads ==> |tested[t]| == hashes
    requires forall t: nat, k: nat :: t < threads && k < hashes ==> tested[t][k] == Planned(base, threads, t, k)
    ensures ExactlyOnce(tested, base, base + threads * hashes)
  {
    var end := base + threads * hashes;
    forall n: nat | Within(n, base, end)
      ensures exists t: nat, k: nat :: TestedAt(tested, t, k, n)
    {
      var t, k := PlaceOf(base, threads, hashes, n);
      assert TestedAt(tested, t, k, n);
    }
    forall t: nat, k: nat, u: nat, l: nat, n: nat | TestedAt(tested, t, k, n) && TestedAt(tested, u, l, n)
      ensures t == u && k == l
    {
      PlannedOnce(base, threads, t, k, u, l);
    }
  }

  lemma PlaceOf(base: nat, threads: nat, hashes: nat, n: nat) returns (t: nat, k: nat)
    requires threads > 0 && base <= n < base + threads * hashes
    ensures t < threads && k < hashes && Planned(base, threads, t, k) == n
  {
    t, k := (n - base) % threads, (n - base) / threads;
    assert n - base == threads * k + t;
    Cancel(threads, k, hashes, t, 0);
  }

  /** Comparing m * a + x with m * b + y compares a with b first. */
  lemma Cancel(m: int, a: int, b: int, x: int, y: int)
    requires 0 <= x < m && 0 <= y < m
    ensures a < b ==> m * a + x < m * b + y
    ensures b < a ==> m * b + y < m * a + x
    ensures m * a + x < m * b ==> a < b
  {
    var d := b - a;
    assert m * b == m * a + m * d;
    if d > 0 {
      assert m * d >= m;
    } else if d < 0 {
      assert m * d <= -m;
    } else {
      assert m * d == 0;
    }
  }

  lemma PlannedOnce(base: nat, threads: nat, t: nat, k: nat, u: nat, l: nat)
    requires t < threads && u < threads && Planned(base, threads, t, k) == Planned(base, threads, u, l)
    ensures t == u && k == l
  {
    Cancel(threads, k, l, t, u);
  }
}
