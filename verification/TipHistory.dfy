/** What the tip history of p2p.go holds, over every sequence of payloads, rejected and malformed ones included. */
module TipHistory {
  import opened Bytes
  import opened Wire
  import opened HeaderChain

  function Max(a: int, b: int): int { if a < b then b else a }

  /** The lowest height kept when `top` was the last one recorded. */
  function Lowest(base: int, top: int): int { Max(base + 1, top - MAX_HISTORY) }

  lemma {:induction false} SetInterval(ks: set<int>, lo: int, hi: int)
    requires lo <= hi + 1 && forall k :: lo <= k <= hi ==> k in ks
    ensures |ks| >= hi - lo + 1
    ensures (forall k :: k in ks ==> lo <= k <= hi) ==> |ks| == hi - lo + 1
    decreases hi - lo + 1
  {
    if lo == hi + 1 {
      assert (forall k :: k in ks ==> lo <= k <= hi) ==> ks == {};
    } else {
      SetInterval(ks - {hi}, lo, hi - 1);
    }
  }

  /** The number of entries, which decides whether the pruning loop runs. */
  lemma IntervalSize(history: map<int, string>, lo: int, hi: int)
    requires lo <= hi + 1 && forall k :: lo <= k <= hi ==> k in history
    ensures |history| >= hi - lo + 1
    ensures (forall k :: k in history ==> lo <= k <= hi) ==> |history| == hi - lo + 1
  {
    SetInterval(history.Keys, lo, hi);
  }

  // ---------------------------------------------------------------- one header

  /** Whether the history is exactly an interval after the heights from+1 to `to` have been recorded, when
      `top` was the greatest height ever recorded before. */
  function ExactAfter(exact: bool, top: int, from: int, to: int): bool {
    if to <= from then exact else to >= top || (exact && top - MAX_HISTORY <= from + 1)
  }

  /** `ids` follow height `base`; `top` is the greatest height ever recorded. */
  ghost predicate Tracks(history: map<int, string>, base: int, ids: seq<Hash32>, top: int, exact: bool) {
    && base + |ids| <= top
    && (forall k :: k in history ==> base < k <= top)
    && (forall k :: Lowest(base, top) <= k <= top ==> k in history)
    && (forall k :: k in history && k <= base + |ids| ==> history[k] == DisplayHex(ids[k - base - 1]))
    && (exact <==> forall k :: k in history ==> Lowest(base, top) <= k)
    && (!exact && base + |ids| > top - MAX_HISTORY - 2 ==> top - MAX_HISTORY - 1 in history)
  }

  /** Recording the next hash: above all entries, over one left by a rejected message, or below them all. */
  lemma TrackStep(history: map<int, string>, base: int, ids: seq<Hash32>, top: int, exact: bool, id: Hash32)
    requires Tracks(history, base, ids, top, exact)
    ensures var h := base + |ids| + 1;
            Tracks(Record(history, h, id), base, ids + [id], Max(top, h), ExactAfter(exact, top, h - 1, h))
  {
    hide Record, DisplayHex;
    var h := base + |ids| + 1;
    var kept := Record(history, h, id);
    RecordKeeps(history, h, id, Lowest(base, Max(top, h)), Max(top, h));
    if h < top - MAX_HISTORY {
      assert h in kept;
    }
  }

  /** Which entries are left after a write at height h, when all heights from lo to hi have one then. */
  lemma RecordKeeps(history: map<int, string>, h: int, id: Hash32, lo: int, hi: int)
    requires lo <= hi + 1 && forall k :: lo <= k <= hi ==> k == h || k in history
    ensures var kept := Record(history, h, id);
            && h in kept && kept[h] == DisplayHex(id)
            && (forall k :: k in kept ==> k == h || (k in history && kept[k] == history[k]))
            && (forall k :: k in history && k >= h - MAX_HISTORY ==> k in kept)
            && (hi - lo >= MAX_HISTORY ==> forall k :: k in kept ==> k >= h - MAX_HISTORY)
  {
    hide DisplayHex;
    IntervalSize(history[h := DisplayHex(id)], lo, hi);
  }

  lemma ExactTwice(exact: bool, top: int, from: int, to: int)
    requires from <= to && from <= top
    ensures ExactAfter(ExactAfter(exact, top, from, from + 1), Max(top, from + 1), from + 1, to + 1)
         == ExactAfter(exact, top, from, to + 1)
  {
  }

  // ---------------------------------------------------------------- one message

  /** A batch in progress, after the committed hashes `earlier`. */
  ghost predicate BatchTracks(b: Batch, base: int, earlier: seq<Hash32>, top: int, exact: bool) {
    b.height == base + |earlier + b.hashes| && Tracks(b.history, base, earlier + b.hashes, top, exact)
  }

  lemma TracksNothing(b: Batch, base: int, earlier: seq<Hash32>, top: int, exact: bool)
    requires BatchTracks(b, base, earlier, top, exact)
    ensures b.height <= top && ExactAfter(exact, top, b.height, b.height) == exact
  {
  }

  lemma {:induction false} RunTracks(hash: HashFn, b: Batch, hs: seq<RawHeader>, base: int, earlier: seq<Hash32>,
                                     top: int, exact: bool)
    requires BatchTracks(b, base, earlier, top, exact)
    ensures var c := Run(hash, b, hs).0;
            c.height >= b.height
            && BatchTracks(c, base, earlier, Max(top, c.height), ExactAfter(exact, top, b.height, c.height))
    decreases |hs|
  {
    hide BlockHash, Record, Lowest, Tracks, ExactAfter;
    TracksNothing(b, base, earlier, top, exact);
    if hs != [] && hs[0].prev == b.prev {
      var id := BlockHash(hash, hs[0]);
      TrackStep(b.history, base, earlier + b.hashes, top, exact, id);
      var e := Extend(hash, b, hs[0]);
      Assoc(earlier, b.hashes, [id]);
      var exact' := ExactAfter(exact, top, b.height, e.height);
      RunTracks(hash, e, hs[1..], base, earlier, Max(top, e.height), exact');
      ExactTwice(exact, top, b.height, Run(hash, e, hs[1..]).0.height - 1);
    }
  }

  // ---------------------------------------------------------------- any payloads

  /** A client, the hashes it has committed, the greatest height it has ever recorded, and whether its
      history is an interval, as far as the heights of the messages tell. */
  datatype Journal = Journal(client: Client, committed: seq<Hash32>, top: int, exact: bool)

  /** The batch processHeaders ends with, accepted or not. */
  function Ran(hash: HashFn, s: Client, payload: seq<Byte>): Batch {
    match ParseVarInt(payload)
    case None => Begin(s)
    case Some((count, d)) => RunItems(hash, Begin(s), d, count).0
  }

  function Receive(hash: HashFn, j: Journal, payload: seq<Byte>): Journal {
    var b, start := Ran(hash, j.client, payload), Begin(j.client);
    var (t, outcome) := Process(hash, j.client, payload);
    Journal(t, if outcome.Accepted? then j.committed + b.hashes else j.committed,
            Max(j.top, b.height), ExactAfter(j.exact, j.top, start.height, b.height))
  }

  function ReceiveAll(hash: HashFn, s: Client, payloads: seq<seq<Byte>>): Journal {
    if payloads == [] then Journal(s, [], Begin(s).height, true)
    else Receive(hash, ReceiveAll(hash, s, payloads[..|payloads| - 1]), payloads[|payloads| - 1])
  }

  ghost predicate JournalTracks(j: Journal, base: int) {
    && Valid(j.client) && Begin(j.client).height == base + |j.committed|
    && Tracks(j.client.history, base, j.committed, j.top, j.exact)
  }

  /** Forgetting the hashes of a rejected message. */
  lemma TracksPrefix(history: map<int, string>, base: int, ids: seq<Hash32>, more: seq<Hash32>, top: int, exact: bool)
    requires Tracks(history, base, ids + more, top, exact)
    ensures Tracks(history, base, ids, top, exact)
  {
  }

  lemma RanIsRun(hash: HashFn, s: Client, payload: seq<Byte>) returns (hs: seq<RawHeader>)
    ensures Ran(hash, s, payload) == Run(hash, Begin(s), hs).0
  {
    hs := [];
    if ParseVarInt(payload).Some? {
      var (count, d) := ParseVarInt(payload).value;
      hs := ReadItems(d, count).0;
      RunItemsIsRun(hash, Begin(s), d, count);
    }
  }

  lemma {:induction false} RunSilent(hash: HashFn, b: Batch, hs: seq<RawHeader>)
    ensures Run(hash, b, hs).0.last.None? ==> Run(hash, b, hs).0 == b
    ensures b.last.Some? ==> Run(hash, b, hs).0.last.Some?
    decreases |hs|
  {
    hide BlockHash, Record;
    if hs != [] && hs[0].prev == b.prev {
      RunSilent(hash, Extend(hash, b, hs[0]), hs[1..]);
    }
  }

  /** What a payload does to the client, in terms of the batch it ends with. */
  lemma ProcessRan(hash: HashFn, s: Client, payload: seq<Byte>)
    ensures var b, (t, outcome) := Ran(hash, s, payload), Process(hash, s, payload);
            && AtLast(b)
            && (outcome.Accepted? ==> if b.last.Some? then t == Commit(s, b) else t == s && b == Begin(s))
            && (outcome.Rejected? ==> t == s.(history := b.history))
  {
    BeginAtLast(s);
    hide Run, Begin, Commit, ReadItem, Extend, AtLast;
    var hs := RanIsRun(hash, s, payload);
    RunAtLast(hash, Begin(s), hs);
    RunSilent(hash, Begin(s), hs);
  }

  lemma HeightAfter(hash: HashFn, s: Client, payload: seq<Byte>)
    requires Valid(s)
    ensures var b, (t, outcome) := Ran(hash, s, payload), Process(hash, s, payload);
            && Valid(t) && t.history == b.history
            && Begin(t).height == if outcome.Accepted? then b.height else Begin(s).height
  {
    hide Ran, Process;
    ProcessRan(hash, s, payload);
    var b := Ran(hash, s, payload);
    var (t, outcome) := Process(hash, s, payload);
    if outcome.Accepted? && b.last.Some? {
      assert t == Commit(s, b);
    }
  }

  lemma ReceiveTracks(hash: HashFn, j: Journal, payload: seq<Byte>, base: int)
    requires JournalTracks(j, base)
    ensures JournalTracks(Receive(hash, j, payload), base)
  {
    var start, b := Begin(j.client), Ran(hash, j.client, payload);
    var hs := RanIsRun(hash, j.client, payload);
    HeightAfter(hash, j.client, payload);
    assert j.committed + start.hashes == j.committed;
    RunTracks(hash, start, hs, base, j.committed, j.top, j.exact);
    hide Ran, Run, Process, Begin, Lowest, Tracks, ExactAfter;
    TracksPrefix(b.history, base, j.committed, b.hashes, Max(j.top, b.height),
                 ExactAfter(j.exact, j.top, start.height, b.height));
  }

  /** Over any payloads from a fresh client at base height b, with H the committed height and W the greatest
      height ever recorded: every entry lies in b+1 to W; every height from max(b+1, W-500) to W has one; every
      entry up to H is the display hash of the header committed there; and there are no others, so at most 501,
      exactly when the journal says so. */
  lemma {:induction false} HistoryAlways(hash: HashFn, s: Client, payloads: seq<seq<Byte>>)
    requires Fresh(s)
    ensures JournalTracks(ReceiveAll(hash, s, payloads), Begin(s).height)
    ensures var j := ReceiveAll(hash, s, payloads); j.exact <==> |j.client.history| <= 501
  {
    var b := Begin(s).height;
    if payloads != [] {
      HistoryAlways(hash, s, payloads[..|payloads| - 1]);
      ReceiveTracks(hash, ReceiveAll(hash, s, payloads[..|payloads| - 1]), payloads[|payloads| - 1], b);
    }
    var j := ReceiveAll(hash, s, payloads);
    ExactSize(j.client.history, b, j.committed, j.top, j.exact);
  }

  lemma ExactSize(history: map<int, string>, base: int, ids: seq<Hash32>, top: int, exact: bool)
    requires Tracks(history, base, ids, top, exact)
    ensures exact <==> |history| <= MAX_HISTORY + 1
  {
    var lo := Lowest(base, top);
    IntervalSize(history, lo, top);
    if !exact {
      var k :| k in history && k < lo;
      IntervalSize(history - {k}, lo, top);
      assert |history| == |history - {k}| + 1;
    }
  }

  /** What GetBlockHashAtHeight answers then: the display hash of the committed header at every height from
      max(b+1, W-500) to H, and never another text at any height up to H. */
  lemma AnswerAtHeight(hash: HashFn, s: Client, payloads: seq<seq<Byte>>, height: int)
    requires Fresh(s)
    ensures var j, b := ReceiveAll(hash, s, payloads), Begin(s).height;
            var answer, tip := Lookup(j.client.history, height), Begin(j.client).height;
            && tip == b + |j.committed|
            && (b < height && j.top - 500 <= height <= tip ==> answer == DisplayHex(j.committed[height - b - 1]))
            && (b < height <= tip ==> answer == "" || answer == DisplayHex(j.committed[height - b - 1]))
            && (height <= b || j.top < height ==> answer == "")
            && (j.exact && height < j.top - 500 ==> answer == "")
  {
    hide ReceiveAll, Begin, DisplayHex;
    HistoryAlways(hash, s, payloads);
  }

  // ---------------------------------------------------------------- accepted messages only

  /** The heights from max(base+1, H-500) to H, the height of the last of `ids`, each with its display hash, and
      nothing else. */
  ghost predicate Window(history: map<int, string>, base: int, ids: seq<Hash32>) {
    && (forall k :: k in history <==> base < k && base + |ids| - 500 <= k <= base + |ids|)
    && (forall k :: k in history ==> history[k] == DisplayHex(ids[k - base - 1]))
    && |history| <= 501
  }

  /** Over any run of accepted messages from a fresh client at base height b, reaching height H, the
      history's keys are exactly max(b+1, H-500) to H, at most 501 of them, and the entry at each height
      is the display hash of that height's header. */
  lemma HistoryWindow(hash: HashFn, s: Client, batches: seq<seq<RawHeader>>)
    requires Fresh(s) && Flatten(batches) != [] && ApplyAll(hash, s, batches).Some?
    ensures var t, hs, b := ApplyAll(hash, s, batches).value, Flatten(batches), Begin(s).height;
            t.bestHeight == b + |hs| && Window(t.history, b, HashesOf(hash, hs))
  {
    hide *;
    var hs := Flatten(batches);
    FreshValid(s);
    CutsDoNotMatter(hash, s, batches);
    AppliedRun(hash, s, hs);
    RunWindow(hash, s, hs);
  }

  lemma FreshValid(s: Client)
    requires Fresh(s)
    ensures Valid(s)
  {
  }

  /** What an applied list leaves. */
  lemma AppliedRun(hash: HashFn, s: Client, hs: seq<RawHeader>)
    requires hs != [] && Apply(hash, s, hs).Some?
    ensures var (d, linked) := Run(hash, Begin(s), hs);
            linked && Apply(hash, s, hs).value.bestHeight == d.height && Apply(hash, s, hs).value.history == d.history
  {
    RunLast(hash, Begin(s), hs);
    BeginAtLast(s);
    RunAtLast(hash, Begin(s), hs);
    hide Run, Begin;
  }

  lemma FreshTracks(s: Client)
    requires Fresh(s)
    ensures var b := Begin(s); BatchTracks(b, b.height, [], b.height, true) && b.hashes == []
  {
    assert [] + Begin(s).hashes == [];
  }

  lemma RunWindow(hash: HashFn, s: Client, hs: seq<RawHeader>)
    requires Fresh(s) && Run(hash, Begin(s), hs).1
    ensures var d, b := Run(hash, Begin(s), hs).0, Begin(s).height;
            d.height == b + |hs| && Window(d.history, b, HashesOf(hash, hs))
  {
    hide *;
    var b := Begin(s);
    FreshTracks(s);
    RunHashes(hash, b, hs);
    RunTracks(hash, b, hs, b.height, [], b.height, true);
    BatchWindow(Run(hash, b, hs).0, b.height, HashesOf(hash, hs));
  }

  lemma BatchWindow(d: Batch, base: int, ids: seq<Hash32>)
    requires d.height == base + |ids| && d.hashes == [] + ids
    requires BatchTracks(d, base, [], Max(base, d.height), ExactAfter(true, base, base, d.height))
    ensures Window(d.history, base, ids)
  {
    hide Tracks, DisplayHex, Window;
    assert [] + d.hashes == ids;
    ExactWindow(d.history, base, ids);
  }

  lemma ExactWindow(history: map<int, string>, base: int, ids: seq<Hash32>)
    requires Tracks(history, base, ids, base + |ids|, true)
    ensures Window(history, base, ids)
  {
    hide DisplayHex;
    ExactSize(history, base, ids, base + |ids|, true);
  }

  // ---------------------------------------------------------------- when the history is no interval

  /** n entries linked from `prev`. */
  function Links(hash: HashFn, prev: Hash32, n: nat): (es: seq<Entry>)
    ensures |es| == n && WellFormedEntries(es)
    decreases n
  {
    if n == 0 then []
    else
      var h := RawHeader(0, prev, Zeros(32), 0, 0, 0);
      [Entry(h, None, 0)] + Links(hash, BlockHash(hash, h), n - 1)
  }

  lemma {:induction false} LinksRun(hash: HashFn, b: Batch, n: nat)
    ensures var (end, linked) := Run(hash, b, HeadersOf(Links(hash, b.prev, n)));
            linked && end.height == b.height + n
    decreases n
  {
    hide BlockHash, Record;
    if n > 0 {
      var es := Links(hash, b.prev, n);
      var e := Extend(hash, b, es[0].header);
      assert HeadersOf(es)[1..] == HeadersOf(Links(hash, e.prev, n - 1));
      LinksRun(hash, e, n - 1);
    }
  }

  lemma MessageRan(hash: HashFn, s: Client, es: seq<Entry>)
    requires WellFormedEntries(es) && |es| < 0x1_0000_0000_0000_0000
    ensures Ran(hash, s, Message(es)) == Run(hash, Begin(s), HeadersOf(es)).0
  {
    hide Message, EntriesBytes, HeadersOf, ParseVarInt, Run, RunItems, ReadItems, Begin, WellFormedEntries;
    MessageReads(es, []);
    NothingAppended(Message(es));
    NothingAppended(EntriesBytes(es));
    RunItemsIsRun(hash, Begin(s), EntriesBytes(es), |es|);
  }

  /** n linked headers and one that does not link: rejected after n have been recorded. */
  lemma StrayRejected(hash: HashFn, s: Client, n: nat) returns (es: seq<Entry>)
    requires Fresh(s) && n + 1 < 0x1_0000_0000_0000_0000
    ensures WellFormedEntries(es) && |es| == n + 1
    ensures Ran(hash, s, Message(es)).height == Begin(s).height + n
    ensures Process(hash, s, Message(es)).1.Rejected?
  {
    hide Run, Begin, Process, Ran, Links, HeadersOf, Message;
    var b := Begin(s);
    var linked := Links(hash, b.prev, n);
    LinksRun(hash, b, n);
    var stray := Stray(Run(hash, b, HeadersOf(linked)).0.prev);
    es := linked + [stray];
    StrayStops(hash, b, linked, stray);
    MessageRan(hash, s, es);
    MessageRejected(hash, s, es);
  }

  /** An entry that does not link to prev. */
  function Stray(prev: Hash32): (e: Entry)
    ensures WellFormedEntry(e) && e.header.prev != prev
  {
    var other: Hash32 := prev[0 := 255 - prev[0]];
    assert other[0] != prev[0];
    Entry(RawHeader(0, other, Zeros(32), 0, 0, 0), None, 0)
  }

  lemma StrayStops(hash: HashFn, b: Batch, linked: seq<Entry>, stray: Entry)
    requires var (end, ok) := Run(hash, b, HeadersOf(linked)); ok && stray.header.prev != end.prev
    ensures Run(hash, b, HeadersOf(linked + [stray])) == (Run(hash, b, HeadersOf(linked)).0, false)
  {
    var end := Run(hash, b, HeadersOf(linked)).0;
    assert HeadersOf([stray]) == [stray.header];
    assert Run(hash, end, [stray.header]) == (end, false);
    HeadersOfConcat(linked, [stray]);
    hide Run, HeadersOf;
    RunAppend(hash, b, HeadersOf(linked), HeadersOf([stray]));
  }

  lemma MessageRejected(hash: HashFn, s: Client, es: seq<Entry>)
    requires WellFormedEntries(es) && 0 < |es| < 0x1_0000_0000_0000_0000
    requires !Run(hash, Begin(s), HeadersOf(es)).1
    ensures Process(hash, s, Message(es)).1.Rejected?
  {
    hide Run, Begin, Process, Message;
    NothingAppended(Message(es));
    MessageRoundTrip(hash, s, es, []);
  }

  lemma ReceiveOne(hash: HashFn, s: Client, p: seq<Byte>)
    requires Fresh(s) && Process(hash, s, p).1.Rejected?
    ensures var j, b, r := ReceiveAll(hash, s, [p]), Begin(s), Ran(hash, s, p);
            j == Journal(s.(history := r.history), [], Max(b.height, r.height),
                          ExactAfter(true, b.height, b.height, r.height))
  {
    ProcessRan(hash, s, p);
    hide Process, Ran, Begin;
    assert [p][..0] == [];
  }

  lemma BeginWithHistory(s: Client, history: map<int, string>)
    ensures Begin(s.(history := history)) == Begin(s).(history := history)
    ensures Valid(s.(history := history)) <==> Valid(s)
  {
  }

  lemma ReceiveTwo(hash: HashFn, s: Client, p: seq<Byte>, q: seq<Byte>)
    ensures ReceiveAll(hash, s, [p, q]) == Receive(hash, ReceiveAll(hash, s, [p]), q)
  {
    hide Receive;
    assert [p, q][..1] == [p];
  }

  /** A rejected message of 502 linked headers, and then an accepted one of a single header, leave more than 501
      entries, whatever the hash function. */
  lemma WideRejection(hash: HashFn, s: Client) returns (first: seq<Byte>, second: seq<Byte>)
    requires Fresh(s)
    ensures !ReceiveAll(hash, s, [first, second]).exact
    ensures |ReceiveAll(hash, s, [first, second]).client.history| > 501
  {
    hide Run, Process, Ran, Begin, HeadersOf, Message, Links;
    var b := Begin(s);
    var es := StrayRejected(hash, s, MAX_HISTORY + 2);
    first := Message(es);
    ReceiveOne(hash, s, first);
    var t := s.(history := Ran(hash, s, first).history);
    BeginWithHistory(s, t.history);
    LinksRun(hash, Begin(t), 1);
    second := Message(Links(hash, Begin(t).prev, 1));
    MessageRan(hash, t, Links(hash, Begin(t).prev, 1));
    ReceiveTwo(hash, s, first, second);
    HistoryAlways(hash, s, [first, second]);
  }
}
