/** The payment monitor (payment_monitor_p2p.go): which submitted blocks the chain kept, decided from the
    tip history while the sync loop is writing it. */
module Monitor {
  import opened Bytes
  import opened Wire
  import opened HeaderChain
  import TipHistory

  const CONFIRMATIONS := 2
  const MAX_SUBMITTED := 100
  const BLOCK_REWARD := 1_000_000_000_000

  datatype Submission = Submission(height: int, hash: string, submitTime: int,
                                   checked: bool, confirmed: bool, paymentSeen: bool)
  datatype Payment = Payment(height: int, hash: string, value: int, time: int, confirmed: bool)

  /** BlockRewardForHeight: both of its branches return the same constant. */
  function RewardFor(height: int): int { BLOCK_REWARD }

  /** One turn of the loop over the submitted blocks, given the tip height read before the lock and the
      answer the history gives now. */
  function Resolve(b: Submission, tipHeight: int, networkHash: string): (Submission, Option<Payment>) {
    if b.checked || tipHeight < b.height + CONFIRMATIONS || networkHash == "" then (b, None)
    else if networkHash == b.hash then
      (b.(checked := true, confirmed := true, paymentSeen := true),
       Some(Payment(b.height, b.hash, RewardFor(b.height), b.submitTime, true)))
    else (b.(checked := true, confirmed := false), None)
  }

  /** The last n elements, or all when there are fewer. */
  function Newest<T>(s: seq<T>, n: nat): (r: seq<T>)
    ensures |r| == (if |s| > n then n else |s|)
  {
    if |s| > n then s[|s| - n..] else s
  }

  function NewSubmission(height: int, hash: string, now: int): Submission {
    Submission(height, hash, now, false, false, false)
  }

  // ---------------------------------------------------------------- sync loop and monitor, interleaved

  /** The lock holder of CheckForPayments: the tip height it read and its place in the loop. */
  datatype Loop = Loop(tipHeight: int, index: nat)

  /** A submission or a payment with the serial number of the submission, which the code does not store. */
  datatype Numbered<T> = Numbered(it: T, id: nat)

  /** Shared state. `chain`, the committed hash at each height, is history; so are `base`, the height the client
      started from, and `top`, the greatest height it has ever recorded. */
  datatype World = World(
    client: Client, batch: Option<Batch>, chain: map<int, Hash32>,
    subs: seq<Numbered<Submission>>, nextId: nat, payments: seq<Numbered<Payment>>, lastCheck: int,
    readers: map<nat, int>, holder: Option<Loop>, base: int, top: int)

  datatype Action =
    | StartMessage
    | WriteHeader(header: RawHeader)
    | CommitMessage
    | FailMessage
    | Track(height: int, hash: string, now: int)
    | ReadTip(thread: nat)
    | Lock(thread: nat)
    | Visit
    | Unlock

  predicate Enabled(w: World, a: Action) {
    match a
    case StartMessage => w.batch.None?
    case WriteHeader(h) => w.batch.Some? && h.prev == w.batch.value.prev
    case CommitMessage => w.batch.Some? && w.batch.value.last.Some?
    case FailMessage => w.batch.Some?
    case Track(_, _, _) => w.holder.None?
    case ReadTip(t) => t !in w.readers && w.client.bestHeader.Some?
    case Lock(t) => t in w.readers && w.holder.None?
    case Visit => w.holder.Some? && w.holder.value.index < |w.subs|
    case Unlock => w.holder.Some? && w.holder.value.index >= |w.subs|
  }

  /** The committed chain after a batch that started at `base`. */
  function Grow(chain: map<int, Hash32>, base: int, hashes: seq<Hash32>): map<int, Hash32> {
    chain + map k | base < k <= base + |hashes| :: At(hashes, base, k)
  }

  function At(hashes: seq<Hash32>, base: int, k: int): Hash32
    requires base < k <= base + |hashes|
  {
    hashes[k - base - 1]
  }

  function Next(hash: HashFn, w: World, a: Action): World
    requires Enabled(w, a)
  {
    match a
    case StartMessage => w.(batch := Some(Begin(w.client)))
    case WriteHeader(h) =>
      var b := Extend(hash, w.batch.value, h);
      w.(batch := Some(b), client := w.client.(history := b.history), top := TipHistory.Max(w.top, b.height))
    case CommitMessage =>
      var b := w.batch.value;
      w.(client := Commit(w.client, b), batch := None, chain := Grow(w.chain, Begin(w.client).height, b.hashes))
    case FailMessage => w.(batch := None)
    case Track(height, h, now) =>
      w.(subs := Newest(w.subs + [Numbered(NewSubmission(height, h, now), w.nextId)], MAX_SUBMITTED),
         nextId := w.nextId + 1)
    case ReadTip(t) => w.(readers := w.readers[t := w.client.bestHeader.value.height])
    case Lock(t) => w.(holder := Some(Loop(w.readers[t], 0)), readers := w.readers - {t})
    case Visit =>
      var i := w.holder.value.index;
      var s := w.subs[i];
      var (resolved, payment) := Resolve(s.it, w.holder.value.tipHeight, Lookup(w.client.history, s.it.height));
      w.(subs := w.subs[i := Numbered(resolved, s.id)], holder := Some(w.holder.value.(index := i + 1)),
         payments := if payment.Some? then w.payments + [Numbered(payment.value, s.id)] else w.payments)
    case Unlock => w.(lastCheck := w.holder.value.tipHeight, holder := None)
  }

  // ---------------------------------------------------------------- what every step keeps

  /** Up to the height the client committed, the history only holds committed hashes. */
  ghost predicate HistoryCommitted(w: World) {
    && Valid(w.client)
    && (forall k :: k in w.client.history && k <= Begin(w.client).height ==>
          k in w.chain && w.client.history[k] == DisplayHex(w.chain[k]))
    && (forall k :: k in w.chain ==> k <= Begin(w.client).height)
  }

  /** The message in progress has written, above that height, only its own hashes. */
  ghost predicate BatchWritten(w: World) {
    w.batch.Some? ==>
      var b, base := w.batch.value, Begin(w.client).height;
      && b.history == w.client.history && AtLast(b) && b.height == base + |b.hashes|
      && forall k :: k in b.history && base < k <= b.height ==> b.history[k] == DisplayHex(b.hashes[k - base - 1])
  }

  ghost predicate TipsCommitted(w: World) {
    && (forall t :: t in w.readers ==> w.readers[t] <= Begin(w.client).height)
    && (w.holder.Some? ==> w.holder.value.tipHeight <= Begin(w.client).height)
  }

  /** A resolved submission got the right verdict. */
  ghost predicate VerdictsRight(w: World) {
    forall i :: 0 <= i < |w.subs| && w.subs[i].it.checked ==> VerdictRight(w.chain, w.subs[i].it)
  }

  ghost predicate VerdictRight(chain: map<int, Hash32>, s: Submission) {
    s.height in chain && (s.confirmed <==> DisplayHex(chain[s.height]) == s.hash)
  }

  ghost predicate PaymentsRight(w: World) {
    forall i :: 0 <= i < |w.payments| ==> PaymentRight(w.chain, w.payments[i].it)
  }

  ghost predicate PaymentRight(chain: map<int, Hash32>, p: Payment) {
    p.height in chain && p.hash == DisplayHex(chain[p.height]) && p.value == 1_000_000_000_000
  }

  /** Serial numbers rise; a listed submission is confirmed exactly when its number has been paid; no
      number is paid twice. */
  ghost predicate PaidOnce(w: World) {
    && (forall i, j :: 0 <= i < j < |w.subs| ==> w.subs[i].id < w.subs[j].id)
    && (forall i :: 0 <= i < |w.subs| ==> w.subs[i].id < w.nextId)
    && (forall i :: 0 <= i < |w.payments| ==> w.payments[i].id < w.nextId)
    && (forall i, j :: 0 <= i < j < |w.payments| ==> w.payments[i].id != w.payments[j].id)
    && (forall i :: 0 <= i < |w.subs| ==> (w.subs[i].it.confirmed <==> Paid(w.payments, w.subs[i].id)))
    && (forall i :: 0 <= i < |w.subs| && w.subs[i].it.confirmed ==> w.subs[i].it.checked)
  }

  ghost predicate Paid(payments: seq<Numbered<Payment>>, id: nat) {
    exists j :: 0 <= j < |payments| && payments[j].id == id
  }

  /** Every height from max(base+1, top-500) to the greatest ever recorded has an entry. */
  ghost predicate HistoryCovers(w: World) {
    && w.base <= Begin(w.client).height <= w.top
    && (w.batch.Some? ==> Begin(w.client).height <= w.batch.value.height <= w.top)
    && forall k :: TipHistory.Lowest(w.base, w.top) <= k <= w.top ==> k in w.client.history
  }

  /** The submission is resolved, or not deep enough under the tip, or older than the history. */
  ghost predicate Settled(s: Submission, tipHeight: int, base: int, top: int) {
    s.checked || tipHeight < s.height + CONFIRMATIONS || s.height < TipHistory.Lowest(base, top)
  }

  /** The lock holder has settled every submission it has passed. */
  ghost predicate Swept(w: World) {
    w.holder.Some? ==>
      forall i :: 0 <= i < w.holder.value.index && i < |w.subs| ==>
        Settled(w.subs[i].it, w.holder.value.tipHeight, w.base, w.top)
  }

  ghost predicate Inv(w: World) {
    && HistoryCommitted(w) && BatchWritten(w) && TipsCommitted(w)
    && VerdictsRight(w) && PaymentsRight(w) && PaidOnce(w)
    && HistoryCovers(w) && Swept(w)
  }

  ghost predicate Init(w: World) {
    && Fresh(w.client) && w.batch.None? && w.chain == map[]
    && w.subs == [] && w.payments == [] && w.nextId == 0
    && w.readers == map[] && w.holder.None?
    && w.base == w.top == Begin(w.client).height
  }

  lemma InitInv(w: World)
    requires Init(w)
    ensures Inv(w)
  {
  }

  /** What a header's write does to the history, below, at and above its height. */
  lemma WriteHistory(hash: HashFn, b: Batch, h: RawHeader)
    ensures var height, written := b.height + 1, Extend(hash, b, h).history;
      && (forall k :: k in written && k != height ==> k in b.history && written[k] == b.history[k])
      && height in written && written[height] == DisplayHex(BlockHash(hash, h))
  {
    hide DisplayHex, BlockHash;
    TipHistory.RecordKeeps(b.history, b.height + 1, BlockHash(hash, h), 0, -1);
    hide Record;
  }

  /** The sync loop's own steps. */
  lemma WriteKeeps(hash: HashFn, w: World, h: RawHeader)
    requires HistoryCommitted(w) && BatchWritten(w) && Enabled(w, WriteHeader(h))
    ensures HistoryCommitted(Next(hash, w, WriteHeader(h))) && BatchWritten(Next(hash, w, WriteHeader(h)))
    ensures Begin(Next(hash, w, WriteHeader(h)).client).height == Begin(w.client).height
  {
    var b := w.batch.value;
    var v, e := Next(hash, w, WriteHeader(h)), Extend(hash, b, h);
    WriteHistory(hash, b, h);
    TipHistory.BeginWithHistory(w.client, e.history);
    assert e.height == b.height + 1 && e.hashes == b.hashes + [BlockHash(hash, h)] && AtLast(e);
    assert v == w.(batch := Some(e), client := w.client.(history := e.history), top := v.top);
    hide Next, Extend, BlockHash, DisplayHex, Begin, Valid, AtLast;
    HistoryStays(w, v);
    BatchGrows(w, v, BlockHash(hash, h));
  }

  lemma HistoryStays(w: World, v: World)
    requires HistoryCommitted(w) && v.chain == w.chain && (Valid(v.client) <==> Valid(w.client))
    requires Begin(v.client).height == Begin(w.client).height
    requires forall k :: k in v.client.history && k <= Begin(w.client).height ==>
               k in w.client.history && v.client.history[k] == w.client.history[k]
    ensures HistoryCommitted(v)
  {
    hide DisplayHex, Begin, Valid;
  }

  lemma BatchGrows(w: World, v: World, id: Hash32)
    requires BatchWritten(w) && w.batch.Some? && v.batch.Some? && Begin(v.client).height == Begin(w.client).height
    requires var b, e := w.batch.value, v.batch.value;
      && e.history == v.client.history && AtLast(e) && e.height == b.height + 1 && e.hashes == b.hashes + [id]
      && e.height in e.history && e.history[e.height] == DisplayHex(id)
      && forall k :: k in e.history && k != e.height ==> k in b.history && e.history[k] == b.history[k]
    ensures BatchWritten(v)
  {
    hide DisplayHex, Begin, AtLast;
  }

  lemma CommitKeeps(hash: HashFn, w: World)
    requires HistoryCommitted(w) && BatchWritten(w) && Enabled(w, CommitMessage)
    ensures var v := Next(hash, w, CommitMessage);
            && HistoryCommitted(v) && BatchWritten(v) && Begin(v.client).height >= Begin(w.client).height
            && forall k :: k in w.chain ==> k in v.chain && v.chain[k] == w.chain[k]
  {
    var b, v := w.batch.value, Next(hash, w, CommitMessage);
    assert Begin(v.client).height == b.height && Valid(v.client);
    assert v.client.history == b.history && v.batch.None?;
    assert v.chain == Grow(w.chain, Begin(w.client).height, b.hashes);
    hide Next, Begin, Valid, DisplayHex, Commit, Grow, Enabled, AtLast;
    GrowAt(w.chain, Begin(w.client).height, b.hashes);
    CommittedAfter(w, v);
  }

  lemma CommittedAfter(w: World, v: World)
    requires HistoryCommitted(w) && BatchWritten(w) && w.batch.Some? && Valid(v.client)
    requires var b, base := w.batch.value, Begin(w.client).height;
      && Begin(v.client).height == b.height && v.client.history == b.history
      && (forall k :: k in v.chain <==> k in w.chain || base < k <= base + |b.hashes|)
      && (forall k :: base < k <= base + |b.hashes| ==> v.chain[k] == b.hashes[k - base - 1])
      && (forall k :: k in w.chain && k <= base ==> v.chain[k] == w.chain[k])
    ensures HistoryCommitted(v)
  {
    hide Begin, Valid, DisplayHex, AtLast;
  }

  lemma GrowAt(chain: map<int, Hash32>, base: int, hashes: seq<Hash32>)
    ensures var grown := Grow(chain, base, hashes);
      && (forall k :: k in grown <==> k in chain || base < k <= base + |hashes|)
      && (forall k :: base < k <= base + |hashes| ==> grown[k] == hashes[k - base - 1])
      && (forall k :: k in chain && !(base < k <= base + |hashes|) ==> grown[k] == chain[k])
  {
  }

  lemma WriteCovers(hash: HashFn, w: World, h: RawHeader)
    requires HistoryCovers(w) && BatchWritten(w) && Enabled(w, WriteHeader(h))
    ensures HistoryCovers(Next(hash, w, WriteHeader(h)))
  {
    hide Record, BlockHash, DisplayHex, Begin, AtLast, HistoryCommitted, Valid;
    var b := w.batch.value;
    var height, top := b.height + 1, TipHistory.Max(w.top, b.height + 1);
    TipHistory.RecordKeeps(b.history, height, BlockHash(hash, h), TipHistory.Lowest(w.base, top), top);
    TipHistory.BeginWithHistory(w.client, Extend(hash, b, h).history);
  }

  /** What the monitor sees of the chain only grows. */
  ghost predicate ChainExtends(w: World, v: World) {
    && Begin(w.client).height <= Begin(v.client).height
    && forall k :: k in w.chain ==> k in v.chain && v.chain[k] == w.chain[k]
  }

  /** The answer a visit reads: a nonempty one is the committed hash at that height, although the lookup
      happens after the tip was read and a message may be half written. */
  lemma LookupSound(w: World, height: int, tipHeight: int)
    requires HistoryCommitted(w) && tipHeight <= Begin(w.client).height && height + 2 <= tipHeight
    requires Lookup(w.client.history, height) != ""
    ensures height in w.chain && Lookup(w.client.history, height) == DisplayHex(w.chain[height])
  {
  }

  lemma PaidSnoc(payments: seq<Numbered<Payment>>, p: Numbered<Payment>, id: nat)
    ensures Paid(payments + [p], id) <==> Paid(payments, id) || p.id == id
  {
    if p.id == id {
      assert (payments + [p])[|payments|].id == id;
    }
    if Paid(payments, id) {
      var j :| 0 <= j < |payments| && payments[j].id == id;
      assert (payments + [p])[j].id == id;
    }
  }

  lemma VisitPaidOnce(w: World, v: World, i: nat, tipHeight: int, networkHash: string)
    requires PaidOnce(w) && i < |w.subs|
    requires var (resolved, payment) := Resolve(w.subs[i].it, tipHeight, networkHash);
             && v.subs == w.subs[i := Numbered(resolved, w.subs[i].id)] && v.nextId == w.nextId
             && v.payments == if payment.Some? then w.payments + [Numbered(payment.value, w.subs[i].id)] else w.payments
    ensures PaidOnce(v)
  {
    var (resolved, payment) := Resolve(w.subs[i].it, tipHeight, networkHash);
    if payment.Some? {
      forall k | 0 <= k < |v.subs| ensures v.subs[k].it.confirmed <==> Paid(v.payments, v.subs[k].id) {
        PaidSnoc(w.payments, Numbered(payment.value, w.subs[i].id), w.subs[k].id);
      }
      assert !Paid(w.payments, w.subs[i].id);
    }
  }

  /** A visit changes neither the client nor the chain. */
  lemma VisitChain(hash: HashFn, w: World)
    requires Inv(w) && Enabled(w, Visit)
    ensures var v := Next(hash, w, Visit);
      HistoryCommitted(v) && BatchWritten(v) && TipsCommitted(v) && HistoryCovers(v)
  {
    hide Begin, Valid, AtLast, Resolve, Lookup, VerdictsRight, PaymentsRight, PaidOnce, Swept, DisplayHex;
  }

  lemma VisitVerdicts(hash: HashFn, w: World)
    requires Inv(w) && Enabled(w, Visit)
    ensures VerdictsRight(Next(hash, w, Visit)) && PaymentsRight(Next(hash, w, Visit))
  {
    var l := w.holder.value;
    var s := w.subs[l.index].it;
    if !s.checked && l.tipHeight >= s.height + CONFIRMATIONS && Lookup(w.client.history, s.height) != "" {
      LookupSound(w, s.height, l.tipHeight);
    }
    hide Begin, Lookup, HistoryCommitted, BatchWritten, TipsCommitted, HistoryCovers, PaidOnce, Swept, DisplayHex;
  }

  lemma VisitSweeps(hash: HashFn, w: World)
    requires Inv(w) && Enabled(w, Visit)
    ensures Swept(Next(hash, w, Visit))
    ensures var l := w.holder.value; Settled(Next(hash, w, Visit).subs[l.index].it, l.tipHeight, w.base, w.top)
  {
    var l := w.holder.value;
    var s := w.subs[l.index].it;
    if !Settled(s, l.tipHeight, w.base, w.top) {
      assert s.height in w.client.history && Lookup(w.client.history, s.height) != "";
    }
    hide Begin, Lookup, HistoryCommitted, BatchWritten, TipsCommitted, HistoryCovers, PaidOnce,
         VerdictsRight, PaymentsRight;
  }

  lemma VisitKeeps(hash: HashFn, w: World)
    requires Inv(w) && Enabled(w, Visit)
    ensures Inv(Next(hash, w, Visit))
  {
    VisitChain(hash, w);
    VisitVerdicts(hash, w);
    VisitSweeps(hash, w);
    var s := w.subs[w.holder.value.index].it;
    hide HistoryCommitted, BatchWritten, TipsCommitted, HistoryCovers, VerdictsRight, PaymentsRight, PaidOnce, Swept,
         Lookup, Resolve;
    VisitPaidOnce(w, Next(hash, w, Visit), w.holder.value.index, w.holder.value.tipHeight,
                  Lookup(w.client.history, s.height));
  }

  lemma NewestAt<T>(s: seq<T>, n: nat, k: nat)
    requires k < |Newest(s, n)|
    ensures Newest(s, n)[k] == s[|s| - |Newest(s, n)| + k]
  {
  }

  lemma AddPaidOnce(w: World, v: World, s: Submission)
    requires PaidOnce(w) && !s.checked && !s.confirmed
    requires v.subs == w.subs + [Numbered(s, w.nextId)] && v.nextId == w.nextId + 1 && v.payments == w.payments
    ensures PaidOnce(v)
  {
    assert !Paid(w.payments, w.nextId);
    hide Paid;
  }

  lemma DropPaidOnce(w: World, v: World, d: nat)
    requires PaidOnce(w) && d <= |w.subs|
    requires v.subs == w.subs[d..] && v.nextId == w.nextId && v.payments == w.payments
    ensures PaidOnce(v)
  {
    hide Paid;
  }

  lemma TrackPaidOnce(w: World, v: World, s: Submission)
    requires PaidOnce(w) && !s.checked && !s.confirmed
    requires v.subs == Newest(w.subs + [Numbered(s, w.nextId)], MAX_SUBMITTED)
    requires v.nextId == w.nextId + 1 && v.payments == w.payments
    ensures PaidOnce(v)
  {
    hide PaidOnce;
    var added := w.subs + [Numbered(s, w.nextId)];
    var mid := v.(subs := added);
    AddPaidOnce(w, mid, s);
    DropPaidOnce(mid, v, if |added| > MAX_SUBMITTED then |added| - MAX_SUBMITTED else 0);
  }

  lemma TrackKeeps(hash: HashFn, w: World, height: int, h: string, now: int)
    requires Inv(w) && Enabled(w, Track(height, h, now))
    ensures Inv(Next(hash, w, Track(height, h, now)))
  {
    hide Begin, Valid, AtLast, PaidOnce, VerdictRight, PaymentRight;
    var v := Next(hash, w, Track(height, h, now));
    var added := w.subs + [Numbered(NewSubmission(height, h, now), w.nextId)];
    TrackPaidOnce(w, v, NewSubmission(height, h, now));
    forall k | 0 <= k < |v.subs| ensures v.subs[k] == added[|added| - |v.subs| + k] {
      NewestAt(added, MAX_SUBMITTED, k);
    }
  }

  predicate ChainStep(a: Action) { a.StartMessage? || a.WriteHeader? || a.CommitMessage? || a.FailMessage? }

  /** The sync loop never shrinks what the history covers, and never unsettles a submission. */
  lemma ChainStepCovers(hash: HashFn, w: World, a: Action)
    requires HistoryCovers(w) && BatchWritten(w) && Swept(w) && Enabled(w, a) && ChainStep(a)
    ensures HistoryCovers(Next(hash, w, a)) && Swept(Next(hash, w, a)) && w.top <= Next(hash, w, a).top
  {
    match a
    case StartMessage =>
    case FailMessage =>
    case WriteHeader(h) => WriteCovers(hash, w, h);
    case CommitMessage =>
  }

  lemma ChainStepSound(hash: HashFn, w: World, a: Action)
    requires Inv(w) && Enabled(w, a) && ChainStep(a)
    ensures var v := Next(hash, w, a);
            && HistoryCommitted(v) && BatchWritten(v) && TipsCommitted(v) && ChainExtends(w, v)
  {
    hide HistoryCovers, Swept, VerdictsRight, PaymentsRight, PaidOnce, Extend, DisplayHex;
    match a
    case StartMessage =>
    case FailMessage =>
    case WriteHeader(h) => WriteKeeps(hash, w, h);
    case CommitMessage => CommitKeeps(hash, w);
  }

  /** The sync loop leaves the lists alone, and a longer chain keeps every verdict right. */
  lemma ChainStepLists(hash: HashFn, w: World, v: World)
    requires VerdictsRight(w) && PaymentsRight(w) && PaidOnce(w) && ChainExtends(w, v)
    requires v.subs == w.subs && v.payments == w.payments && v.nextId == w.nextId
    ensures VerdictsRight(v) && PaymentsRight(v) && PaidOnce(v)
  {
    hide Begin, Paid;
  }

  lemma ChainStepKeeps(hash: HashFn, w: World, a: Action)
    requires Inv(w) && Enabled(w, a) && ChainStep(a)
    ensures Inv(Next(hash, w, a)) && ChainExtends(w, Next(hash, w, a))
  {
    hide HistoryCovers, Swept, HistoryCommitted, BatchWritten, TipsCommitted, VerdictsRight, PaymentsRight, PaidOnce,
         ChainExtends, Begin, Extend, Commit;
    ChainStepCovers(hash, w, a);
    ChainStepSound(hash, w, a);
    ChainStepLists(hash, w, Next(hash, w, a));
  }

  /** What does not depend on the readers, the lock holder or the last check. */
  lemma RestStays(w: World, v: World)
    requires Inv(w) && v == w.(readers := v.readers, holder := v.holder, lastCheck := v.lastCheck)
    ensures HistoryCommitted(v) && BatchWritten(v) && HistoryCovers(v)
    ensures VerdictsRight(v) && PaymentsRight(v) && PaidOnce(v)
  {
    hide TipsCommitted, Swept, VerdictRight, PaymentRight, Paid, DisplayHex, AtLast, Begin, Valid;
  }

  /** Reading the tip, taking the lock and releasing it. */
  lemma LockKeeps(hash: HashFn, w: World, a: Action)
    requires Inv(w) && Enabled(w, a) && (a.ReadTip? || a.Lock? || a.Unlock?)
    ensures Inv(Next(hash, w, a))
  {
    RestStays(w, Next(hash, w, a));
    assert a.ReadTip? ==> w.client.bestHeader.value.height == Begin(w.client).height;
    hide HistoryCommitted, BatchWritten, VerdictsRight, PaymentsRight, PaidOnce, HistoryCovers, Settled, Begin;
  }

  lemma ClientStays(hash: HashFn, w: World, a: Action)
    requires Enabled(w, a) && !ChainStep(a)
    ensures ChainExtends(w, Next(hash, w, a))
  {
    hide Begin, Resolve, Lookup, Newest;
  }

  /** Every step of every thread keeps all of it. */
  lemma StepKeeps(hash: HashFn, w: World, a: Action)
    requires Inv(w) && Enabled(w, a)
    ensures Inv(Next(hash, w, a)) && ChainExtends(w, Next(hash, w, a))
  {
    hide Inv, Enabled, Next, ChainExtends;
    if ChainStep(a) {
      ChainStepKeeps(hash, w, a);
    } else {
      ClientStays(hash, w, a);
      match a
      case Visit => VisitKeeps(hash, w);
      case Track(height, h, now) => TrackKeeps(hash, w, height, h, now);
      case _ => LockKeeps(hash, w, a);
    }
  }

  // ---------------------------------------------------------------- over whole runs

  ghost predicate Execution(hash: HashFn, run: seq<World>, actions: seq<Action>) {
    && |run| == |actions| + 1 && Init(run[0])
    && forall i :: 0 <= i < |actions| ==> Enabled(run[i], actions[i]) && run[i + 1] == Next(hash, run[i], actions[i])
  }

  lemma {:induction false} ExecutionInv(hash: HashFn, run: seq<World>, actions: seq<Action>, n: nat)
    requires Execution(hash, run, actions) && n < |run|
    ensures Inv(run[n])
    decreases n
  {
    if n == 0 {
      InitInv(run[0]);
    } else {
      ExecutionInv(hash, run, actions, n - 1);
      StepKeeps(hash, run[n - 1], actions[n - 1]);
    }
  }

  /** In every interleaving, every recorded payment is for a hash that is the display hash of the
      committed header at its height, every resolved submission was confirmed exactly when the committed
      hash at its height is its own, and no submission is paid twice. */
  lemma MonitorSound(hash: HashFn, run: seq<World>, actions: seq<Action>, n: nat)
    requires Execution(hash, run, actions) && n < |run|
    ensures forall i :: 0 <= i < |run[n].payments| ==> PaymentRight(run[n].chain, run[n].payments[i].it)
    ensures forall i :: 0 <= i < |run[n].subs| && run[n].subs[i].it.checked
              ==> VerdictRight(run[n].chain, run[n].subs[i].it)
    ensures forall i, j :: 0 <= i < j < |run[n].payments| ==> run[n].payments[i].id != run[n].payments[j].id
    ensures forall i :: 0 <= i < |run[n].subs| ==>
              (run[n].subs[i].it.confirmed <==> Paid(run[n].payments, run[n].subs[i].id))
  {
    ExecutionInv(hash, run, actions, n);
  }

  /** A visit settles the submission it looks at: a deep enough one that the history still covers is resolved
      there and then. */
  lemma VisitSettles(hash: HashFn, w: World)
    requires Inv(w) && Enabled(w, Visit)
    ensures var i := w.holder.value.index;
            Settled(Next(hash, w, Visit).subs[i].it, w.holder.value.tipHeight, w.base, w.top)
  {
    hide Inv, Next, Settled;
    VisitSweeps(hash, w);
  }

  /** In every run, when a check ends, every listed submission at a height from max(base+1, W-500) to two below
      the tip it read is resolved, with W the greatest height recorded so far: rejected messages included. */
  lemma CheckComplete(hash: HashFn, run: seq<World>, actions: seq<Action>, n: nat)
    requires Execution(hash, run, actions) && n < |actions| && actions[n].Unlock?
    ensures var w := run[n + 1];
            forall i :: 0 <= i < |w.subs| ==>
              var s := w.subs[i].it;
              w.base + 1 <= s.height && w.top - 500 <= s.height <= w.lastCheck - 2 ==> s.checked
  {
    ExecutionInv(hash, run, actions, n);
    hide HistoryCommitted, BatchWritten, TipsCommitted, VerdictsRight, PaymentsRight, PaidOnce, HistoryCovers;
  }

  /** A step leaves every resolved submission as it is, or drops it. */
  lemma StepKeepsResolved(hash: HashFn, w: World, a: Action, i: nat, j: nat)
    requires Inv(w) && Enabled(w, a)
    requires i < |w.subs| && w.subs[i].it.checked
    requires j < |Next(hash, w, a).subs| && Next(hash, w, a).subs[j].id == w.subs[i].id
    ensures Next(hash, w, a).subs[j] == w.subs[i]
  {
    hide Begin, Valid, AtLast, HistoryCommitted, BatchWritten, TipsCommitted, Paid;
    var v := Next(hash, w, a);
    if a.Track? {
      var added := w.subs + [Numbered(NewSubmission(a.height, a.hash, a.now), w.nextId)];
      assert v.subs[j] == added[|added| - |v.subs| + j];
    }
  }

  /** A submission listed after a step and numbered before it was listed before the step. */
  lemma ListedBefore(hash: HashFn, w: World, a: Action, j: nat) returns (i: nat)
    requires Enabled(w, a) && j < |Next(hash, w, a).subs| && Next(hash, w, a).subs[j].id < w.nextId
    ensures i < |w.subs| && w.subs[i].id == Next(hash, w, a).subs[j].id
  {
    hide Begin, Extend, Commit, Record;
    i := j;
    if a.Track? {
      var added := w.subs + [Numbered(NewSubmission(a.height, a.hash, a.now), w.nextId)];
      NewestAt(added, MAX_SUBMITTED, j);
      i := |added| - |Next(hash, w, a).subs| + j;
    }
  }

  lemma StepAt(hash: HashFn, run: seq<World>, actions: seq<Action>, n: nat)
    requires Execution(hash, run, actions) && 0 < n < |run|
    ensures n - 1 < |actions| && Enabled(run[n - 1], actions[n - 1])
    ensures run[n] == Next(hash, run[n - 1], actions[n - 1])
  {
    hide Enabled, Next, Init;
  }

  lemma SameNumber(w: World, i: nat, j: nat)
    requires Inv(w) && i < |w.subs| && j < |w.subs| && w.subs[i].id == w.subs[j].id
    ensures i == j
  {
    hide HistoryCommitted, BatchWritten, TipsCommitted, VerdictsRight, PaymentsRight, HistoryCovers, Swept, Paid;
  }

  lemma NumberBelow(w: World, i: nat)
    requires Inv(w) && i < |w.subs|
    ensures w.subs[i].id < w.nextId
  {
    hide HistoryCommitted, BatchWritten, TipsCommitted, VerdictsRight, PaymentsRight, HistoryCovers, Swept, Paid;
  }

  /** In every run, a submission once resolved keeps its verdict for as long as it is listed. */
  lemma {:induction false} ResolvedForGood(hash: HashFn, run: seq<World>, actions: seq<Action>, m: nat, n: nat,
                                           i: nat, j: nat)
    requires Execution(hash, run, actions) && m <= n < |run|
    requires i < |run[m].subs| && run[m].subs[i].it.checked
    requires j < |run[n].subs| && run[n].subs[j].id == run[m].subs[i].id
    ensures run[n].subs[j] == run[m].subs[i]
    decreases n - m
  {
    hide *;
    ExecutionInv(hash, run, actions, m);
    if m == n {
      SameNumber(run[m], i, j);
    } else {
      ExecutionInv(hash, run, actions, n - 1);
      NumberBelow(run[m], i);
      NumbersGrow(hash, run, actions, m, n - 1);
      StepAt(hash, run, actions, n);
      var k := ListedBefore(hash, run[n - 1], actions[n - 1], j);
      ResolvedForGood(hash, run, actions, m, n - 1, i, k);
      StepKeepsResolved(hash, run[n - 1], actions[n - 1], k, j);
    }
  }

  lemma {:induction false} NumbersGrow(hash: HashFn, run: seq<World>, actions: seq<Action>, m: nat, n: nat)
    requires Execution(hash, run, actions) && m <= n < |run|
    ensures run[m].nextId <= run[n].nextId
    decreases n - m
  {
    hide Begin, Extend, Commit, Record;
    if m < n {
      NumbersGrow(hash, run, actions, m, n - 1);
    }
  }

  // ---------------------------------------------------------------- the monitor object

  datatype Stats = Stats(submitted: nat, confirmed: nat, orphaned: nat, pending: nat, totalPaid: int,
                         paymentCount: nat, lastCheckHeight: int, recent: seq<Payment>)

  /** The loop of CheckForPayments from index `i`, with the answers it gets from the history. */
  function CheckFrom(subs: seq<Submission>, payments: seq<Payment>, tipHeight: int, answers: seq<string>, i: nat)
      : (seq<Submission>, seq<Payment>)
    requires i <= |subs| <= |answers|
    decreases |subs| - i
  {
    if i == |subs| then (subs, payments)
    else
      var (resolved, payment) := Resolve(subs[i], tipHeight, answers[i]);
      CheckFrom(subs[i := resolved], if payment.Some? then payments + [payment.value] else payments,
                tipHeight, answers, i + 1)
  }

  function Items<T>(s: seq<Numbered<T>>): seq<T> {
    seq(|s|, i requires 0 <= i < |s| => s[i].it)
  }

  /** A visit of the interleaved monitor is one turn of the loop, with the answer the history gives then. */
  lemma VisitIsLoopTurn(hash: HashFn, w: World, answers: seq<string>)
    requires Enabled(w, Visit) && |w.subs| <= |answers|
    requires answers[w.holder.value.index] == Lookup(w.client.history, w.subs[w.holder.value.index].it.height)
    ensures var v, tip, i := Next(hash, w, Visit), w.holder.value.tipHeight, w.holder.value.index;
            CheckFrom(Items(w.subs), Items(w.payments), tip, answers, i)
            == CheckFrom(Items(v.subs), Items(v.payments), tip, answers, i + 1)
  {
    var v, i := Next(hash, w, Visit), w.holder.value.index;
    var (resolved, payment) := Resolve(w.subs[i].it, w.holder.value.tipHeight, answers[i]);
    assert Items(v.subs) == Items(w.subs)[i := resolved];
    assert Items(v.payments) == if payment.Some? then Items(w.payments) + [payment.value] else Items(w.payments);
  }

  predicate Confirmed(s: Submission) { s.checked && s.confirmed }
  predicate Orphaned(s: Submission) { s.checked && !s.confirmed }
  predicate Pending(s: Submission) { !s.checked }

  function Count<T>(s: seq<T>, p: T -> bool): nat {
    if s == [] then 0 else (if p(s[0]) then 1 else 0) + Count(s[1..], p)
  }

  lemma {:induction false} CountSnoc<T>(s: seq<T>, x: T, p: T -> bool)
    ensures Count(s + [x], p) == Count(s, p) + if p(x) then 1 else 0
  {
    if s == [] {
      assert s + [x] == [x];
    } else {
      assert (s + [x])[1..] == s[1..] + [x];
      CountSnoc(s[1..], x, p);
    }
  }

  class PaymentMonitor {
    var submitted: seq<Submission>
    var payments: seq<Payment>
    var lastCheckHeight: int

    constructor ()
      ensures submitted == [] && payments == [] && lastCheckHeight == 0
    {
      submitted, payments, lastCheckHeight := [], [], 0;
    }

    method TrackSubmittedBlock(height: int, hash: string, now: int)
      modifies `submitted
      ensures submitted == Newest(old(submitted) + [NewSubmission(height, hash, now)], MAX_SUBMITTED)
    {
      submitted := submitted + [Submission(height, hash, now, false, false, false)];
      if |submitted| > MAX_SUBMITTED {
        submitted := submitted[|submitted| - MAX_SUBMITTED..];
      }
    }

    /** `answers[i]` is what GetBlockHashAtHeight returns if turn i asks. No cached tip, no check. */
    method CheckForPayments(tip: Option<int>, answers: seq<string>)
      requires |submitted| <= |answers|
      modifies this
      ensures tip.None? ==>
                submitted == old(submitted) && payments == old(payments)
                && lastCheckHeight == old(lastCheckHeight)
      ensures tip.Some? ==>
                (submitted, payments) == CheckFrom(old(submitted), old(payments), tip.value, answers, 0)
                && lastCheckHeight == tip.value
    {
      if tip.None? { return; }
      var tipHeight := tip.value;
      var i := 0;
      while i < |submitted|
        invariant 0 <= i <= |submitted| == |old(submitted)|
        invariant CheckFrom(submitted, payments, tipHeight, answers, i)
                  == CheckFrom(old(submitted), old(payments), tipHeight, answers, 0)
      {
        var block := submitted[i];
        if !block.checked && tipHeight >= block.height + CONFIRMATIONS && answers[i] != "" {
          var networkHash := answers[i];
          block := block.(checked := true);
          if networkHash == block.hash {
            block := block.(confirmed := true, paymentSeen := true);
            payments := payments + [Payment(block.height, block.hash, RewardFor(block.height), block.submitTime, true)];
          } else {
            block := block.(confirmed := false);
          }
          submitted := submitted[i := block];
        } else {
          assert submitted[i := block] == submitted;
        }
        i := i + 1;
      }
      lastCheckHeight := tipHeight;
    }

    /** Every listed block is counted once, as confirmed, orphaned or pending. */
    method GetStats() returns (s: Stats)
      ensures s.submitted == |submitted| == s.confirmed + s.orphaned + s.pending
      ensures s.confirmed == Count(submitted, Confirmed) && s.orphaned == Count(submitted, Orphaned)
      ensures s.pending == Count(submitted, Pending)
      ensures s.totalPaid == Total(payments) && s.paymentCount == |payments|
      ensures s.lastCheckHeight == lastCheckHeight && s.recent == Newest(payments, 10)
    {
      var confirmed, orphaned, pending, totalPaid := 0, 0, 0, 0;
      for i := 0 to |submitted|
        invariant confirmed == Count(submitted[..i], Confirmed) && orphaned == Count(submitted[..i], Orphaned)
        invariant pending == Count(submitted[..i], Pending) && confirmed + orphaned + pending == i
      {
        assert submitted[..i + 1] == submitted[..i] + [submitted[i]];
        CountSnoc(submitted[..i], submitted[i], Confirmed);
        CountSnoc(submitted[..i], submitted[i], Orphaned);
        CountSnoc(submitted[..i], submitted[i], Pending);
        if submitted[i].checked {
          if submitted[i].confirmed { confirmed := confirmed + 1; } else { orphaned := orphaned + 1; }
        } else {
          pending := pending + 1;
        }
      }
      assert submitted[..|submitted|] == submitted;
      for i := 0 to |payments|
        invariant totalPaid + Total(payments[i..]) == Total(payments)
      {
        assert payments[i..][1..] == payments[i + 1..];
        totalPaid := totalPaid + payments[i].value;
      }
      s := Stats(|submitted|, confirmed, orphaned, pending, totalPaid, |payments|,
                 lastCheckHeight, Newest(payments, 10));
    }
  }

  function Total(payments: seq<Payment>): int {
    if payments == [] then 0 else payments[0].value + Total(payments[1..])
  }

  /** All payments are worth the fixed reward, so the total paid is the reward times their number. */
  lemma {:induction false} TotalIsRewards(payments: seq<Payment>)
    requires forall i :: 0 <= i < |payments| ==> payments[i].value == RewardFor(payments[i].height)
    ensures Total(payments) == 1_000_000_000_000 * |payments|
  {
    if payments != [] {
      TotalIsRewards(payments[1..]);
    }
  }
}
