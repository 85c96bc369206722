/** What the payment monitor's lists hold (payment_monitor_p2p.go), in terms of the blocks given to it. */
module PaymentRecords {
  import opened HeaderChain
  import opened Monitor

  /** A block given to TrackSubmittedBlock. */
  datatype Tracked = Tracked(height: int, hash: string, time: int)

  /** The blocks given so far, oldest first. */
  function TrackedBy(actions: seq<Action>): seq<Tracked> {
    if actions == [] then []
    else
      var earlier, last := TrackedBy(actions[..|actions| - 1]), actions[|actions| - 1];
      if last.Track? then earlier + [Tracked(last.height, last.hash, last.now)] else earlier
  }

  /** A record of a tracked block under a tip: checked only two blocks deep, paid exactly when confirmed. */
  predicate RecordOf(s: Submission, b: Tracked, tipHeight: int) {
    && s.height == b.height && s.hash == b.hash && s.submitTime == b.time && s.paymentSeen == s.confirmed
    && (s.checked ==> s.height + 2 <= tipHeight) && (s.confirmed ==> s.checked)
  }

  predicate PaymentOf(p: Payment, b: Tracked, tipHeight: int) {
    p == Payment(b.height, b.hash, 1_000_000_000_000, b.time, true) && p.height + 2 <= tipHeight
  }

  /** The newest 100 blocks are listed, in order. */
  ghost predicate Lists(w: World, blocks: seq<Tracked>, tipHeight: int) {
    && w.nextId == |blocks| && |w.subs| == (if |blocks| > 100 then 100 else |blocks|)
    && (forall j :: 0 <= j < |w.subs| ==>
          w.subs[j].id == |blocks| - |w.subs| + j && RecordOf(w.subs[j].it, blocks[w.subs[j].id], tipHeight))
    && forall j :: 0 <= j < |w.payments| ==>
         w.payments[j].id < |blocks| && PaymentOf(w.payments[j].it, blocks[w.payments[j].id], tipHeight)
  }

  lemma HigherTip(w: World, v: World, blocks: seq<Tracked>, tip: int, tip': int)
    requires Lists(w, blocks, tip) && tip <= tip'
    requires v.subs == w.subs && v.payments == w.payments && v.nextId == w.nextId
    ensures Lists(v, blocks, tip')
  {
  }

  lemma TrackLists(w: World, v: World, blocks: seq<Tracked>, tip: int, b: Tracked)
    requires Lists(w, blocks, tip) && v.payments == w.payments && v.nextId == w.nextId + 1
    requires v.subs == Newest(w.subs + [Numbered(NewSubmission(b.height, b.hash, b.time), w.nextId)], 100)
    ensures Lists(v, blocks + [b], tip)
  {
    var added := w.subs + [Numbered(NewSubmission(b.height, b.hash, b.time), w.nextId)];
    assert |v.subs| == (if |added| > 100 then 100 else |added|);
    forall j | 0 <= j < |v.subs|
      ensures v.subs[j].id == |blocks| + 1 - |v.subs| + j
      ensures RecordOf(v.subs[j].it, (blocks + [b])[v.subs[j].id], tip)
    {
      NewestAt(added, 100, j);
    }
  }

  lemma VisitLists(w: World, v: World, blocks: seq<Tracked>, tip: int, i: nat, tipHeight: int, answer: string)
    requires Lists(w, blocks, tip) && i < |w.subs| && tipHeight <= tip && v.nextId == w.nextId
    requires var (resolved, payment) := Resolve(w.subs[i].it, tipHeight, answer);
             && v.subs == w.subs[i := Numbered(resolved, w.subs[i].id)]
             && v.payments == if payment.Some? then w.payments + [Numbered(payment.value, w.subs[i].id)] else w.payments
    ensures Lists(v, blocks, tip)
  {
    assert RecordOf(w.subs[i].it, blocks[w.subs[i].id], tip);
    assert RecordOf(v.subs[i].it, blocks[w.subs[i].id], tip);
  }

  lemma StepLists(hash: HashFn, w: World, a: Action, blocks: seq<Tracked>)
    requires Inv(w) && Enabled(w, a) && Lists(w, blocks, Begin(w.client).height)
    ensures var v := Next(hash, w, a);
            Lists(v, if a.Track? then blocks + [Tracked(a.height, a.hash, a.now)] else blocks, Begin(v.client).height)
  {
    hide Lists, Begin, Extend, Commit, Resolve, Newest, NewSubmission, HistoryCommitted, BatchWritten, VerdictsRight,
         PaymentsRight, PaidOnce, HistoryCovers, Swept, Lookup, Grow;
    StepKeeps(hash, w, a);
    var v, tip := Next(hash, w, a), Begin(w.client).height;
    if a.Track? {
      TrackLists(w, v, blocks, tip, Tracked(a.height, a.hash, a.now));
    } else if a.Visit? {
      var l := w.holder.value;
      VisitLists(w, v, blocks, tip, l.index, l.tipHeight, Lookup(w.client.history, w.subs[l.index].it.height));
    } else {
      HigherTip(w, v, blocks, tip, Begin(v.client).height);
    }
  }

  /** In every interleaving: the newest 100 tracked blocks are listed, oldest first, each with its height, hash and
      time; a verdict is given only when the committed tip is at least two above; a block is marked paid exactly when
      it is confirmed; and each payment is of one of the tracked blocks, with the fixed reward. */
  lemma {:induction false} ListsExact(hash: HashFn, run: seq<World>, actions: seq<Action>, n: nat)
    requires Execution(hash, run, actions) && n < |run|
    ensures Lists(run[n], TrackedBy(actions[..n]), Begin(run[n].client).height)
    decreases n
  {
    hide Inv, Next, Enabled;
    if n > 0 {
      hide Lists, Init, Begin;
      ListsExact(hash, run, actions, n - 1);
      ExecutionInv(hash, run, actions, n - 1);
      StepLists(hash, run[n - 1], actions[n - 1], TrackedBy(actions[..n - 1]));
      assert actions[..n][..n - 1] == actions[..n - 1] && actions[..n][n - 1] == actions[n - 1];
    }
  }
}
