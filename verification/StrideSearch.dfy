/** The parallel search in stride mode (gpu_miner.go): the goroutines of ParallelSearch on the nonces of NonceSearch. */
module StrideSearch {
  import opened Bytes
  import opened NonceSearch
  import P = ParallelSearch

  function StrideJob(hash: U32 -> Hash32, target: nat, base: U32, threads: U32, hashes: nat, batchSize: U32): P.Job
    requires batchSize > 0
  {
    P.Job(hash, target, (t: nat, k: nat) => TestedNonce(base, threads, t, batchSize, k), hashes)
  }

  /** The nonces each worker has hashed. */
  function Tested(w: P.World): (tested: seq<seq<U32>>)
    ensures |tested| == |w.workers| && forall t :: 0 <= t < |tested| ==> tested[t] == w.workers[t].tested
  {
    seq(|w.workers|, t requires 0 <= t < |w.workers| => w.workers[t].tested)
  }

  /** In every interleaving in which no hash meets the target and nothing cancels, a returned search has hashed each
      worker's whole course and counts threads * hashes; and it has hashed every nonce of
      [base, base + threads * hashes) exactly once if and only if that interval ends at or below 0xFFFFFFFF. */
  lemma StrideExhausts(hash: U32 -> Hash32, target: nat, base: U32, threads: U32, hashes: nat, batchSize: U32,
                       run: seq<P.World>, actions: seq<P.Action>, n: nat)
    requires batchSize > 0
    requires var job := StrideJob(hash, target, base, threads, hashes, batchSize);
      P.Execution(job, run, actions) && P.NoneAccepted(job, threads)
    requires n < |run| && |run[0].workers| == threads && run[n].collector.Returned? && !run[n].cancel
    ensures run[n].collector == P.Returned(None, threads * hashes)
    ensures AllOnCourse(base, threads, hashes, batchSize, Tested(run[n]))
    ensures ExactlyOnce(Tested(run[n]), base, base + threads * hashes) <==> base + threads * hashes <= 0xFFFF_FFFF
  {
    hide TestedNonce, ExactlyOnce;
    var job := StrideJob(hash, target, base, threads, hashes, batchSize);
    assert threads > 0;
    P.SearchExhausts(job, run, actions, n);
    hide P.Execution, P.Accepts;
    CoverageExact(base, threads, hashes, batchSize, Tested(run[n]));
  }
}
