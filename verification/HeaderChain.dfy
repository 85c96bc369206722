/** The header-chain client of p2p.go: parsing a headers message, linking it to the tip, and the state
    it commits. Double SHA-256 is a parameter. */
module HeaderChain {
  import opened Bytes
  import opened Wire
  import Difficulty

  const VERSION_AUXPOW := 0x100
  const MAX_RING := 24
  const MAX_HISTORY := 500

  type HashFn = seq<Byte> -> Hash32

  datatype Header = Header(raw: RawHeader, height: int, hash: Hash32)

  datatype Client = Client(
    bestHeader: Option<Header>, bestHeight: int, lastNonMin: U32, tipParentTime: U32,
    ring: seq<Hash32>, history: map<int, string>,
    checkpoint: Option<(Hash32, int)>, genesisHash: Hash32, genesisTime: U32)

  datatype Error = BadCount | ShortHeader | BadAuxPow | BadTxnCount | NotLinked

  predicate Valid(s: Client) {
    s.bestHeader.Some? ==> s.bestHeight == s.bestHeader.value.height
  }

  function BlockHash(hash: HashFn, h: RawHeader): Hash32 { hash(Header80(h)) }

  // ---------------------------------------------------------------- parsing

  predicate HasAuxPow(version: U32) { version / VERSION_AUXPOW % 2 == 1 }

  function U32At(b: seq<Byte>, at: nat): U32
    requires at + 4 <= |b|
  {
    Word(b[at..at + 4])
  }

  function ParseHeader(b: seq<Byte>): RawHeader
    requires |b| == 80
  {
    RawHeader(U32At(b, 0), b[4..36], b[36..68], U32At(b, 68), U32At(b, 72), U32At(b, 76))
  }

  lemma U32RoundTrip(b: seq<Byte>, at: nat, v: U32)
    requires at + 4 <= |b| && b[at..at + 4] == LE(v, 4)
    ensures U32At(b, at) == v
  {
    Pow256Small();
    DecodeEncode(v, 4);
  }

  /** The 80-byte form and the six fields determine each other. */
  lemma HeaderRoundTrip(h: RawHeader)
    ensures ParseHeader(Header80(h)) == h
  {
    var b := Header80(h);
    HeaderSlices(LE(h.version, 4), h.prev, h.merkle, LE(h.time, 4), LE(h.bits, 4), LE(h.nonce, 4));
    U32RoundTrip(b, 0, h.version);
    U32RoundTrip(b, 68, h.time);
    U32RoundTrip(b, 72, h.bits);
    U32RoundTrip(b, 76, h.nonce);
  }

  lemma HeaderSlices(v: seq<Byte>, p: seq<Byte>, m: seq<Byte>, t: seq<Byte>, b: seq<Byte>, n: seq<Byte>)
    requires |v| == |t| == |b| == |n| == 4 && |p| == |m| == 32
    ensures var s := v + p + m + t + b + n;
            && s[0..4] == v && s[4..36] == p && s[36..68] == m
            && s[68..72] == t && s[72..76] == b && s[76..80] == n
  {
  }

  lemma BytesRoundTrip(b: seq<Byte>)
    requires |b| == 80
    ensures Header80(ParseHeader(b)) == b
  {
    EncodeDecode(b[0..4]);
    EncodeDecode(b[68..72]);
    EncodeDecode(b[72..76]);
    EncodeDecode(b[76..80]);
    hide LE, FromLE;
    FieldsCover(b);
  }

  lemma FieldsCover(b: seq<Byte>)
    requires |b| == 80
    ensures b[0..4] + b[4..36] + b[36..68] + b[68..72] + b[72..76] + b[76..80] == b
  {
  }

  datatype ItemResult = Item(header: RawHeader, rest: seq<Byte>) | Bad(error: Error)

  /** One entry of a headers message: 80 bytes, AuxPoW when the version says so, a transaction count. */
  function ReadItem(d: seq<Byte>): ItemResult {
    if |d| < 80 then Bad(ShortHeader) else ReadAfterHeader(ParseHeader(d[..80]), d[80..])
  }

  function ReadAfterHeader(h: RawHeader, d: seq<Byte>): ItemResult {
    var afterAux := if HasAuxPow(h.version) then SkipAux(d) else Some(d);
    if afterAux.None? then Bad(BadAuxPow)
    else
      var count := ParseVarInt(afterAux.value);
      if count.None? then Bad(BadTxnCount) else Item(h, count.value.1)
  }

  /** The headers read before the first unreadable entry, and that entry's error. */
  function ReadItems(d: seq<Byte>, k: nat): (seq<RawHeader>, Option<Error>)
    decreases k
  {
    if k == 0 then ([], None)
    else
      match ReadItem(d)
      case Bad(e) => ([], Some(e))
      case Item(h, rest) =>
        var (hs, e) := ReadItems(rest, k - 1);
        ([h] + hs, e)
  }

  // ---------------------------------------------------------------- one batch

  /** The values processHeaders carries from header to header. */
  datatype Batch = Batch(height: int, prev: Hash32, parentTime: U32, lastNonMin: U32,
                         tipParentTime: U32, hashes: seq<Hash32>, last: Option<Header>,
                         history: map<int, string>)

  function Begin(s: Client): (b: Batch)
    ensures b.last == None && b.hashes == [] && b.history == s.history && b.lastNonMin == s.lastNonMin
  {
    match s.bestHeader
    case Some(tip) =>
      Batch(s.bestHeight, tip.hash, tip.raw.time, s.lastNonMin, 0, [], None, s.history)
    case None =>
      match s.checkpoint
      case Some((hash, height)) => Batch(height, hash, 0, s.lastNonMin, 0, [], None, s.history)
      case None => Batch(s.bestHeight, s.genesisHash, s.genesisTime, s.lastNonMin, 0, [], None, s.history)
  }

  /** Records a hash and, past 500 entries, drops heights more than 500 below it. */
  function Record(history: map<int, string>, height: int, hash: Hash32): map<int, string> {
    var h := history[height := DisplayHex(hash)];
    if |h| > MAX_HISTORY then Filtered(h, AtLeast(height - MAX_HISTORY)) else h
  }

  function AtLeast(cutoff: int): int -> bool { k => k >= cutoff }

  function Filtered<K, V>(m: map<K, V>, keep: K -> bool): map<K, V> {
    map k | k in m && keep(k) :: m[k]
  }

  function Extend(hash: HashFn, b: Batch, h: RawHeader): Batch {
    var id := BlockHash(hash, h);
    Batch(b.height + 1, id, h.time,
          if h.bits != Difficulty.POW_LIMIT_COMPACT then h.bits else b.lastNonMin,
          b.parentTime, b.hashes + [id], Some(Header(h, b.height + 1, id)),
          Record(b.history, b.height + 1, id))
  }

  /** Extends the batch header by header and stops at the first that does not link. */
  function Run(hash: HashFn, b: Batch, hs: seq<RawHeader>): (Batch, bool)
    decreases |hs|
  {
    if hs == [] then (b, true)
    else if hs[0].prev != b.prev then (b, false)
    else Run(hash, Extend(hash, b, hs[0]), hs[1..])
  }

  function Push(ring: seq<Hash32>, h: Hash32): seq<Hash32> {
    var r := [h] + ring;
    if |r| > MAX_RING then r[..MAX_RING] else r
  }

  function PushAll(ring: seq<Hash32>, hashes: seq<Hash32>): seq<Hash32>
    decreases |hashes|
  {
    if hashes == [] then ring else PushAll(Push(ring, hashes[0]), hashes[1..])
  }

  function Commit(s: Client, b: Batch): Client
    requires b.last.Some?
  {
    s.(bestHeader := b.last, bestHeight := b.last.value.height, lastNonMin := b.lastNonMin,
       tipParentTime := b.tipParentTime, ring := PushAll(s.ring, b.hashes), history := b.history)
  }

  /** A list of headers applied as one message: the new state when every header links. */
  function Apply(hash: HashFn, s: Client, hs: seq<RawHeader>): Option<Client> {
    if hs == [] then Some(s)
    else
      var (b, linked) := Run(hash, Begin(s), hs);
      RunLast(hash, Begin(s), hs);
      if linked then Some(Commit(s, b)) else None
  }

  datatype Outcome = Accepted(count: nat) | Rejected(error: Error)

  /** processHeaders on an arbitrary payload. */
  function Process(hash: HashFn, s: Client, payload: seq<Byte>): (Client, Outcome) {
    match ParseVarInt(payload)
    case None => (s, Rejected(BadCount))
    case Some((count, d)) => if count == 0 then (s, Accepted(0)) else ProcessItems(hash, s, count, d)
  }

  /** The loop of processHeaders: read an entry, check its link, extend the batch. */
  function RunItems(hash: HashFn, b: Batch, d: seq<Byte>, k: nat): (Batch, Option<Error>)
    decreases k
  {
    if k == 0 then (b, None)
    else
      match ReadItem(d)
      case Bad(e) => (b, Some(e))
      case Item(h, rest) =>
        if h.prev != b.prev then (b, Some(NotLinked)) else RunItems(hash, Extend(hash, b, h), rest, k - 1)
  }

  function ProcessItems(hash: HashFn, s: Client, count: nat, d: seq<Byte>): (Client, Outcome) {
    Finish(s, count, RunItems(hash, Begin(s), d, count))
  }

  function Finish(s: Client, count: nat, run: (Batch, Option<Error>)): (Client, Outcome) {
    var (b, error) := run;
    if error.Some? then (s.(history := b.history), Rejected(error.value))
    else if b.last.Some? then (Commit(s, b), Accepted(count))
    else (s, Accepted(count))
  }

  /** Reading and linking interleaved is reading first and linking what was read. */
  lemma {:induction false} RunItemsIsRun(hash: HashFn, b: Batch, d: seq<Byte>, k: nat)
    ensures var (hs, error) := ReadItems(d, k);
            var (end, linked) := Run(hash, b, hs);
            RunItems(hash, b, d, k) == (end, if linked then error else Some(NotLinked))
    decreases k
  {
    hide ReadItem, Extend;
    if k > 0 && ReadItem(d).Item? {
      var h := ReadItem(d).header;
      if h.prev == b.prev {
        RunItemsIsRun(hash, Extend(hash, b, h), ReadItem(d).rest, k - 1);
      }
    }
  }

  lemma {:induction false} RunLast(hash: HashFn, b: Batch, hs: seq<RawHeader>)
    ensures b.last.Some? || hs != [] ==>
              Run(hash, b, hs).1 ==> Run(hash, b, hs).0.last.Some?
    decreases |hs|
  {
    hide BlockHash, Record;
    if hs != [] && hs[0].prev == b.prev {
      RunLast(hash, Extend(hash, b, hs[0]), hs[1..]);
    }
  }

  // ---------------------------------------------------------------- splitting a batch

  lemma {:induction false} RunAppend(hash: HashFn, b: Batch, xs: seq<RawHeader>, ys: seq<RawHeader>)
    ensures var (mid, linked) := Run(hash, b, xs);
            Run(hash, b, xs + ys) == if linked then Run(hash, mid, ys) else (mid, false)
    decreases |xs|
  {
    if xs == [] {
      assert xs + ys == ys;
    } else {
      assert (xs + ys)[1..] == xs[1..] + ys;
      if xs[0].prev == b.prev {
        RunAppend(hash, Extend(hash, b, xs[0]), xs[1..], ys);
      }
    }
  }

  lemma {:induction false} PushAllAppend(ring: seq<Hash32>, xs: seq<Hash32>, ys: seq<Hash32>)
    ensures PushAll(ring, xs + ys) == PushAll(PushAll(ring, xs), ys)
    decreases |xs|
  {
    if xs == [] {
      assert xs + ys == ys;
    } else {
      assert (xs + ys)[1..] == xs[1..] + ys;
      PushAllAppend(Push(ring, xs[0]), xs[1..], ys);
    }
  }

  /** `b`, in the middle of a message, and `c`, at the start of the next one, carry the same values. */
  ghost predicate Resumes(b: Batch, c: Batch, earlier: seq<Hash32>) {
    && b.height == c.height && b.prev == c.prev && b.parentTime == c.parentTime
    && b.lastNonMin == c.lastNonMin && b.history == c.history && b.hashes == earlier + c.hashes
    && (c.last.Some? ==> b.last == c.last && b.tipParentTime == c.tipParentTime)
  }

  lemma {:induction false} RunResumes(hash: HashFn, b: Batch, c: Batch, earlier: seq<Hash32>, hs: seq<RawHeader>)
    requires Resumes(b, c, earlier)
    ensures Run(hash, b, hs).1 == Run(hash, c, hs).1
    ensures Resumes(Run(hash, b, hs).0, Run(hash, c, hs).0, earlier)
    decreases |hs|
  {
    if hs != [] && hs[0].prev == b.prev {
      var id := BlockHash(hash, hs[0]);
      assert earlier + c.hashes + [id] == earlier + (c.hashes + [id]);
      RunResumes(hash, Extend(hash, b, hs[0]), Extend(hash, c, hs[0]), earlier, hs[1..]);
    }
  }

  /** The carried values describe the last header. */
  ghost predicate AtLast(b: Batch) {
    b.last.Some? ==>
      b.last.value.height == b.height && b.last.value.hash == b.prev && b.last.value.raw.time == b.parentTime
  }

  lemma BeginAtLast(s: Client)
    ensures AtLast(Begin(s))
  {
  }

  lemma {:induction false} RunAtLast(hash: HashFn, b: Batch, hs: seq<RawHeader>)
    requires AtLast(b)
    ensures AtLast(Run(hash, b, hs).0)
    decreases |hs|
  {
    hide BlockHash, Record;
    if hs != [] && hs[0].prev == b.prev {
      RunAtLast(hash, Extend(hash, b, hs[0]), hs[1..]);
    }
  }

  lemma ApplyValid(hash: HashFn, s: Client, hs: seq<RawHeader>)
    requires Valid(s) && Apply(hash, s, hs).Some?
    ensures Valid(Apply(hash, s, hs).value)
  {
    RunLast(hash, Begin(s), hs);
  }

  /** Splitting one headers message into two changes nothing: the second run starts from what the first
      committed and both end with the same tip, height, carried bits, parent time, ring and history.
      It also fails exactly when the single message fails. */
  lemma BatchSplit(hash: HashFn, s: Client, xs: seq<RawHeader>, ys: seq<RawHeader>)
    requires Valid(s)
    ensures Apply(hash, s, xs + ys) ==
            if Apply(hash, s, xs).Some? then Apply(hash, Apply(hash, s, xs).value, ys) else None
  {
    RunLast(hash, Begin(s), xs);
    if xs == [] {
      assert xs + ys == ys;
    } else if ys == [] {
      assert xs + ys == xs;
    } else {
      var (b, linked) := Run(hash, Begin(s), xs);
      RunAppend(hash, Begin(s), xs, ys);
      if linked {
        RunAtLast(hash, Begin(s), xs);
        SplitTail(hash, s, b, ys);
      }
    }
  }

  lemma SplitTail(hash: HashFn, s: Client, b: Batch, ys: seq<RawHeader>)
    requires b.last.Some? && AtLast(b) && ys != []
    ensures var s1 := Commit(s, b);
            var (d, linked) := Run(hash, b, ys);
            var (e, linked') := Run(hash, Begin(s1), ys);
            linked == linked' && (linked ==> d.last.Some? && e.last.Some? && Commit(s, d) == Commit(s1, e))
  {
    var s1 := Commit(s, b);
    assert b.hashes + [] == b.hashes;
    assert Resumes(b, Begin(s1), b.hashes);
    RunResumes(hash, b, Begin(s1), b.hashes, ys);
    RunLast(hash, b, ys);
    RunLast(hash, Begin(s1), ys);
    PushAllAppend(s.ring, b.hashes, Run(hash, Begin(s1), ys).0.hashes);
  }

  /** Messages one after another. */
  function ApplyAll(hash: HashFn, s: Client, batches: seq<seq<RawHeader>>): Option<Client>
    decreases |batches|
  {
    if batches == [] then Some(s)
    else
      var s1 :- Apply(hash, s, batches[0]);
      ApplyAll(hash, s1, batches[1..])
  }

  function Flatten(batches: seq<seq<RawHeader>>): seq<RawHeader> {
    if batches == [] then [] else batches[0] + Flatten(batches[1..])
  }

  /** However a chain of headers is cut into messages, the client ends in the same state. */
  lemma {:induction false} CutsDoNotMatter(hash: HashFn, s: Client, batches: seq<seq<RawHeader>>)
    requires Valid(s)
    ensures ApplyAll(hash, s, batches) == Apply(hash, s, Flatten(batches))
    decreases |batches|
  {
    if batches != [] {
      BatchSplit(hash, s, batches[0], Flatten(batches[1..]));
      if Apply(hash, s, batches[0]).Some? {
        ApplyValid(hash, s, batches[0]);
        CutsDoNotMatter(hash, Apply(hash, s, batches[0]).value, batches[1..]);
      }
    }
  }

  // ---------------------------------------------------------------- failed batches

  lemma {:induction false} RunHistoryBelow(hash: HashFn, b: Batch, hs: seq<RawHeader>, k: int)
    requires k <= b.height && k in Run(hash, b, hs).0.history
    ensures k in b.history && Run(hash, b, hs).0.history[k] == b.history[k]
    decreases |hs|
  {
    if hs != [] && hs[0].prev == b.prev {
      RunHistoryBelow(hash, Extend(hash, b, hs[0]), hs[1..], k);
    }
  }

  /** A rejected payload, whatever its bytes, changes only the history, and there it changes no entry up
      to the height it started from except by dropping it. */
  lemma RejectedBatch(hash: HashFn, s: Client, payload: seq<Byte>)
    requires Process(hash, s, payload).1.Rejected?
    ensures var t := Process(hash, s, payload).0;
            && t == s.(history := t.history)
            && forall k :: k <= Begin(s).height && k in t.history ==> k in s.history && t.history[k] == s.history[k]
  {
    hide Extend, Record, BlockHash, ReadItem, Commit;
    if ParseVarInt(payload).Some? && ParseVarInt(payload).value.0 > 0 {
      var (count, d) := ParseVarInt(payload).value;
      var hs := ReadItems(d, count).0;
      RunItemsIsRun(hash, Begin(s), d, count);
      forall k | k <= Begin(s).height && k in Run(hash, Begin(s), hs).0.history
        ensures k in s.history && Run(hash, Begin(s), hs).0.history[k] == s.history[k]
      {
        RunHistoryBelow(hash, Begin(s), hs, k);
      }
    }
  }

  // ---------------------------------------------------------------- heights and hashes of a run

  lemma {:induction false} RunHashes(hash: HashFn, b: Batch, hs: seq<RawHeader>)
    requires Run(hash, b, hs).1
    ensures Run(hash, b, hs).0.height == b.height + |hs|
    ensures Run(hash, b, hs).0.hashes == b.hashes + HashesOf(hash, hs)
    decreases |hs|
  {
    if hs == [] {
      assert b.hashes + [] == b.hashes;
    } else {
      var e := Extend(hash, b, hs[0]);
      RunHashes(hash, e, hs[1..]);
      Assoc(b.hashes, [BlockHash(hash, hs[0])], HashesOf(hash, hs[1..]));
      assert e.hashes == b.hashes + [BlockHash(hash, hs[0])];
    }
  }

  function HashesOf(hash: HashFn, hs: seq<RawHeader>): (ids: seq<Hash32>)
    ensures |ids| == |hs|
    ensures forall i :: 0 <= i < |hs| ==> ids[i] == BlockHash(hash, hs[i])
  {
    if hs == [] then [] else [BlockHash(hash, hs[0])] + HashesOf(hash, hs[1..])
  }

  // ---------------------------------------------------------------- what an accepted message commits

  /** What the first header must link to: the tip, else the checkpoint, else genesis. */
  function Anchor(s: Client): Hash32 {
    if s.bestHeader.Some? then s.bestHeader.value.hash
    else if s.checkpoint.Some? then s.checkpoint.value.0 else s.genesisHash
  }

  /** The time of the block linked to; a checkpoint's is not known. */
  function AnchorTime(s: Client): U32 {
    if s.bestHeader.Some? then s.bestHeader.value.raw.time
    else if s.checkpoint.Some? then 0 else s.genesisTime
  }

  function AnchorHeight(s: Client): int {
    if s.bestHeader.None? && s.checkpoint.Some? then s.checkpoint.value.1 else s.bestHeight
  }

  /** Every header names the hash of the one before it, the first one `prev`. */
  predicate Chained(hash: HashFn, prev: Hash32, hs: seq<RawHeader>) {
    && (hs != [] ==> hs[0].prev == prev)
    && forall i :: 0 < i < |hs| ==> hs[i].prev == hash(Header80(hs[i - 1]))
  }

  /** `after` is the bits of the last header that is not of minimum difficulty, or `before` when all are. */
  predicate Carried(hs: seq<RawHeader>, before: U32, after: U32) {
    && ((forall i :: 0 <= i < |hs| ==> hs[i].bits == 0x1e0f_fff0) ==> after == before)
    && (forall i :: 0 <= i < |hs| && LastHard(hs, i) ==> after == hs[i].bits)
  }

  predicate LastHard(hs: seq<RawHeader>, i: nat)
    requires i < |hs|
  {
    hs[i].bits != 0x1e0f_fff0 && forall j :: i < j < |hs| ==> hs[j].bits == 0x1e0f_fff0
  }

  /** The hashes of the headers, newest first, before the ring there was, cut to 24. */
  predicate RingAfter(hash: HashFn, hs: seq<RawHeader>, before: seq<Hash32>, after: seq<Hash32>) {
    && |after| == (if |hs| + |before| > 24 then 24 else |hs| + |before|)
    && forall k :: 0 <= k < |after| ==>
         after[k] == if k < |hs| then hash(Header80(hs[|hs| - 1 - k])) else before[k - |hs|]
  }

  /** The client after the headers `hs`, field by field; what the history then holds is in TipHistory. */
  predicate Commits(hash: HashFn, s: Client, hs: seq<RawHeader>, t: Client)
    requires hs != []
  {
    var n, height := |hs|, AnchorHeight(s) + |hs|;
    && t.bestHeader == Some(Header(hs[n - 1], height, hash(Header80(hs[n - 1])))) && t.bestHeight == height
    && t.tipParentTime == (if n > 1 then hs[n - 2].time else AnchorTime(s))
    && Carried(hs, s.lastNonMin, t.lastNonMin)
    && RingAfter(hash, hs, s.ring, t.ring)
    && t.checkpoint == s.checkpoint && t.genesisHash == s.genesisHash && t.genesisTime == s.genesisTime
  }

  lemma {:induction false} RunChained(hash: HashFn, b: Batch, hs: seq<RawHeader>)
    ensures Run(hash, b, hs).1 <==> Chained(hash, b.prev, hs)
    decreases |hs|
  {
    hide Header80, Record;
    if hs != [] {
      var e := Extend(hash, b, hs[0]);
      RunChained(hash, e, hs[1..]);
      ChainedStep(hash, b.prev, hs);
    }
  }

  lemma ChainedStep(hash: HashFn, prev: Hash32, hs: seq<RawHeader>)
    requires hs != []
    ensures Chained(hash, prev, hs) <==> hs[0].prev == prev && Chained(hash, BlockHash(hash, hs[0]), hs[1..])
  {
    var rest := hs[1..];
    if Chained(hash, prev, hs) {
      forall i | 0 < i < |rest|
        ensures rest[i].prev == hash(Header80(rest[i - 1]))
      {
        assert rest[i] == hs[i + 1] && rest[i - 1] == hs[i];
      }
    } else if hs[0].prev == prev && Chained(hash, BlockHash(hash, hs[0]), rest) {
      forall i | 0 < i < |hs|
        ensures hs[i].prev == hash(Header80(hs[i - 1]))
      {
        assert hs[i] == rest[i - 1] && (i > 1 ==> hs[i - 1] == rest[i - 2]);
      }
    }
  }

  /** The bits carried past one header. */
  function BitsAfter(h: RawHeader, before: U32): U32 {
    if h.bits != 0x1e0f_fff0 then h.bits else before
  }

  lemma RunFirst(hash: HashFn, b: Batch, hs: seq<RawHeader>)
    requires hs != [] && Run(hash, b, hs).1
    ensures var e := Extend(hash, b, hs[0]);
            && Run(hash, b, hs) == (if |hs| == 1 then (e, true) else Run(hash, e, hs[1..]))
            && e.height == b.height + 1 && e.parentTime == hs[0].time && e.tipParentTime == b.parentTime
            && e.lastNonMin == BitsAfter(hs[0], b.lastNonMin)
            && e.last == Some(Header(hs[0], e.height, BlockHash(hash, hs[0])))
  {
    hide Record, BlockHash;
  }

  lemma {:induction false} RunCarries(hash: HashFn, b: Batch, hs: seq<RawHeader>)
    requires hs != [] && Run(hash, b, hs).1
    ensures var d, n := Run(hash, b, hs).0, |hs|;
            && d.last == Some(Header(hs[n - 1], b.height + n, BlockHash(hash, hs[n - 1])))
            && d.tipParentTime == (if n > 1 then hs[n - 2].time else b.parentTime)
            && Carried(hs, b.lastNonMin, d.lastNonMin)
    decreases |hs|
  {
    hide *;
    RunFirst(hash, b, hs);
    if |hs| == 1 {
      CarriedOnce(hs, b.lastNonMin);
    } else {
      RunCarries(hash, Extend(hash, b, hs[0]), hs[1..]);
      CarriedStep(hs, b.lastNonMin, Run(hash, b, hs).0.lastNonMin);
    }
  }

  lemma CarriedOnce(hs: seq<RawHeader>, before: U32)
    requires |hs| == 1
    ensures Carried(hs, before, BitsAfter(hs[0], before))
  {
  }

  lemma CarriedStep(hs: seq<RawHeader>, before: U32, after: U32)
    requires |hs| > 1
    requires Carried(hs[1..], BitsAfter(hs[0], before), after)
    ensures Carried(hs, before, after)
  {
    var rest := hs[1..];
    assert forall i :: 0 < i < |hs| ==> hs[i] == rest[i - 1];
    forall i | 0 <= i < |hs| && LastHard(hs, i)
      ensures after == hs[i].bits
    {
      if i > 0 {
        assert forall j :: i - 1 < j < |rest| ==> rest[j] == hs[j + 1];
        assert LastHard(rest, i - 1);
      }
    }
  }

  function Cut(ring: seq<Hash32>): seq<Hash32> {
    if |ring| > 24 then ring[..24] else ring
  }

  lemma {:induction false} PushAllCut(ring: seq<Hash32>, ids: seq<Hash32>)
    requires ids != []
    ensures PushAll(ring, ids) == Cut(Rev(ids) + ring)
    decreases |ids|
  {
    if |ids| == 1 {
      assert Rev(ids) == ids && ids[1..] == [];
    } else {
      PushAllCut(Push(ring, ids[0]), ids[1..]);
      assert Rev(ids) + ring == Rev(ids[1..]) + ([ids[0]] + ring);
    }
  }

  lemma RingCut(hash: HashFn, hs: seq<RawHeader>, ring: seq<Hash32>)
    ensures RingAfter(hash, hs, ring, Cut(Rev(HashesOf(hash, hs)) + ring))
  {
    hide Header80;
    var ids, after := HashesOf(hash, hs), Cut(Rev(HashesOf(hash, hs)) + ring);
    hide HashesOf, Cut, Rev;
    CutAt(ids, ring);
    forall k | 0 <= k < |after| && k < |hs|
      ensures after[k] == hash(Header80(hs[|hs| - 1 - k]))
    {
      assert ids[|hs| - 1 - k] == BlockHash(hash, hs[|hs| - 1 - k]);
    }
  }

  lemma CutAt(ids: seq<Hash32>, ring: seq<Hash32>)
    ensures var after := Cut(Rev(ids) + ring);
            && |after| == (if |ids| + |ring| > 24 then 24 else |ids| + |ring|)
            && forall k :: 0 <= k < |after| ==>
                 after[k] == if k < |ids| then ids[|ids| - 1 - k] else ring[k - |ids|]
  {
  }

  lemma BeginAnchored(s: Client)
    ensures var b := Begin(s);
            && b.prev == Anchor(s) && b.parentTime == AnchorTime(s) && b.height == AnchorHeight(s)
            && b.lastNonMin == s.lastNonMin && b.hashes == []
  {
  }

  /** A nonempty list of headers is applied if and only if it is chained to the anchor, and this is the client then. */
  lemma ApplyExact(hash: HashFn, s: Client, hs: seq<RawHeader>)
    requires hs != []
    ensures Apply(hash, s, hs).Some? <==> Chained(hash, Anchor(s), hs)
    ensures Apply(hash, s, hs).Some? ==> Commits(hash, s, hs, Apply(hash, s, hs).value)
  {
    hide Begin, Run, PushAll, Cut, HashesOf, Carried, RingAfter, Chained, Anchor, AnchorTime, AnchorHeight, Header80;
    var b := Begin(s);
    BeginAnchored(s);
    RunChained(hash, b, hs);
    if Run(hash, b, hs).1 {
      RunCarries(hash, b, hs);
      RunHashes(hash, b, hs);
      assert [] + HashesOf(hash, hs) == HashesOf(hash, hs);
      PushAllCut(s.ring, HashesOf(hash, hs));
      RingCut(hash, hs, s.ring);
    }
  }

  /** The headers of a payload, up to the first unreadable entry. */
  function HeadersIn(payload: seq<Byte>): (seq<RawHeader>, Option<Error>) {
    match ParseVarInt(payload)
    case None => ([], Some(BadCount))
    case Some((count, d)) => ReadItems(d, count)
  }

  lemma {:induction false} ReadCount(d: seq<Byte>, k: nat)
    ensures ReadItems(d, k).1.None? ==> |ReadItems(d, k).0| == k
    decreases k
  {
    hide ReadItem;
    if k > 0 && ReadItem(d).Item? {
      ReadCount(ReadItem(d).rest, k - 1);
    }
  }

  /** Any payload is accepted if and only if all its entries can be read and are chained to the anchor; it then
      commits those headers, and none changes nothing. */
  lemma AcceptedExact(hash: HashFn, s: Client, payload: seq<Byte>)
    ensures var (hs, error) := HeadersIn(payload);
            var (t, outcome) := Process(hash, s, payload);
            && (outcome.Accepted? <==> error.None? && Chained(hash, Anchor(s), hs))
            && (outcome.Accepted? ==> outcome.count == |hs| && if hs == [] then t == s else Commits(hash, s, hs, t))
  {
    hide ReadItem, Run, Commits, Chained, Anchor, Extend, Begin, BlockHash, Commit;
    if ParseVarInt(payload).Some? && ParseVarInt(payload).value.0 > 0 {
      ItemsExact(hash, s, ParseVarInt(payload).value.0, ParseVarInt(payload).value.1);
    } else {
      NoneChained(hash, Anchor(s));
    }
  }

  lemma NoneChained(hash: HashFn, prev: Hash32)
    ensures Chained(hash, prev, [])
  {
  }

  lemma ItemsExact(hash: HashFn, s: Client, count: nat, d: seq<Byte>)
    requires count > 0
    ensures var (hs, error) := ReadItems(d, count);
            var (t, outcome) := ProcessItems(hash, s, count, d);
            && (outcome.Accepted? <==> error.None? && Chained(hash, Anchor(s), hs))
            && (outcome.Accepted? ==> outcome.count == |hs| && hs != [] && Commits(hash, s, hs, t))
  {
    hide ReadItem, ReadItems, Run, RunItems, Commits, Chained, Anchor, Begin, Commit, Extend;
    var b, hs := Begin(s), ReadItems(d, count).0;
    ReadCount(d, count);
    RunItemsIsRun(hash, b, d, count);
    RunLast(hash, b, hs);
    BeginAnchored(s);
    RunChained(hash, b, hs);
    if hs != [] {
      ApplyExact(hash, s, hs);
    }
  }

  /** A client that has seen no header yet. */
  predicate Fresh(s: Client) { s.bestHeader.None? && s.history == map[] && s.ring == [] }

  // ---------------------------------------------------------------- the wire form of a message

  datatype Entry = Entry(header: RawHeader, aux: Option<AuxPow>, txnCount: U64)

  predicate WellFormedEntry(e: Entry) {
    (e.aux.Some? <==> HasAuxPow(e.header.version)) && (e.aux.Some? ==> WellFormedAux(e.aux.value))
  }

  predicate WellFormedEntries(es: seq<Entry>) {
    forall i :: 0 <= i < |es| ==> WellFormedEntry(es[i])
  }

  function EntryBytes(e: Entry): seq<Byte>
    requires WellFormedEntry(e)
  {
    Header80(e.header) + (if e.aux.Some? then AuxBytes(e.aux.value) else []) + VarInt(e.txnCount)
  }

  function EntriesBytes(es: seq<Entry>): seq<Byte>
    requires WellFormedEntries(es)
  {
    if es == [] then [] else EntryBytes(es[0]) + EntriesBytes(es[1..])
  }

  function HeadersOf(es: seq<Entry>): (hs: seq<RawHeader>)
    ensures |hs| == |es| && forall i :: 0 <= i < |es| ==> hs[i] == es[i].header
  {
    if es == [] then [] else [es[0].header] + HeadersOf(es[1..])
  }

  function Message(es: seq<Entry>): seq<Byte>
    requires WellFormedEntries(es) && |es| < 0x1_0000_0000_0000_0000
  {
    VarInt(|es|) + EntriesBytes(es)
  }

  lemma EntryRoundTrip(e: Entry, rest: seq<Byte>)
    requires WellFormedEntry(e)
    ensures ReadItem(EntryBytes(e) + rest) == Item(e.header, rest)
  {
    var head, aux := Header80(e.header), if e.aux.Some? then AuxBytes(e.aux.value) else [];
    Assoc(head + aux, VarInt(e.txnCount), rest);
    Assoc(head, aux, VarInt(e.txnCount) + rest);
    HeaderThenTail(e.header, aux + (VarInt(e.txnCount) + rest));
    TailRoundTrip(e, rest);
  }

  lemma HeaderThenTail(h: RawHeader, tail: seq<Byte>)
    ensures ReadItem(Header80(h) + tail) == ReadAfterHeader(h, tail)
  {
    var d := Header80(h) + tail;
    assert d[..80] == Header80(h) && d[80..] == tail;
    HeaderRoundTrip(h);
  }

  lemma TailRoundTrip(e: Entry, rest: seq<Byte>)
    requires WellFormedEntry(e)
    ensures ReadAfterHeader(e.header, (if e.aux.Some? then AuxBytes(e.aux.value) else []) + (VarInt(e.txnCount) + rest))
            == Item(e.header, rest)
  {
    VarIntRoundTrip(e.txnCount, rest);
    if e.aux.Some? {
      AuxRoundTrip(e.aux.value, VarInt(e.txnCount) + rest);
    } else {
      assert [] + (VarInt(e.txnCount) + rest) == VarInt(e.txnCount) + rest;
    }
  }

  /** Reading the encoding of any list of headers gives back every field of every header. */
  lemma FirstEntry(es: seq<Entry>, rest: seq<Byte>)
    requires WellFormedEntries(es) && es != []
    ensures WellFormedEntry(es[0]) && WellFormedEntries(es[1..])
    ensures EntriesBytes(es) + rest == EntryBytes(es[0]) + (EntriesBytes(es[1..]) + rest)
    ensures HeadersOf(es) == [es[0].header] + HeadersOf(es[1..])
  {
    hide EntryBytes, WellFormedEntry;
    Assoc(EntryBytes(es[0]), EntriesBytes(es[1..]), rest);
  }

  lemma ReadFirst(d: seq<Byte>, h: RawHeader, rest: seq<Byte>, k: nat)
    requires ReadItem(d) == Item(h, rest)
    ensures ReadItems(d, k + 1) == ([h] + ReadItems(rest, k).0, ReadItems(rest, k).1)
  {
    hide ReadItem;
  }

  lemma {:induction false} EntriesRoundTrip(es: seq<Entry>, rest: seq<Byte>)
    requires WellFormedEntries(es)
    ensures ReadItems(EntriesBytes(es) + rest, |es|) == (HeadersOf(es), None)
    decreases |es|
  {
    if es != [] {
      hide *;
      FirstEntry(es, rest);
      var more := EntriesBytes(es[1..]) + rest;
      EntryRoundTrip(es[0], more);
      EntriesRoundTrip(es[1..], rest);
      ReadFirst(EntryBytes(es[0]) + more, es[0].header, more, |es[1..]|);
    }
  }

  /** What a payload does to a client, if it is accepted. */
  function Accept(hash: HashFn, s: Client, payload: seq<Byte>): Option<Client> {
    if Process(hash, s, payload).1.Accepted? then Some(Process(hash, s, payload).0) else None
  }

  lemma ReadableIsApplied(hash: HashFn, s: Client, payload: seq<Byte>, d: seq<Byte>, hs: seq<RawHeader>)
    requires |hs| < 0x1_0000_0000_0000_0000
    requires ParseVarInt(payload) == Some((|hs|, d)) && ReadItems(d, |hs|) == (hs, None)
    ensures Accept(hash, s, payload) == Apply(hash, s, hs)
    ensures Accept(hash, s, payload).Some? ==> Process(hash, s, payload).1 == Accepted(|hs|)
    ensures Accept(hash, s, payload).None? ==> Process(hash, s, payload).1 == Rejected(NotLinked)
  {
    if hs != [] {
      RunItemsIsRun(hash, Begin(s), d, |hs|);
      RunLast(hash, Begin(s), hs);
    }
  }

  lemma MessageReads(es: seq<Entry>, rest: seq<Byte>)
    requires WellFormedEntries(es) && |es| < 0x1_0000_0000_0000_0000
    ensures ParseVarInt(Message(es) + rest) == Some((|es|, EntriesBytes(es) + rest))
    ensures ReadItems(EntriesBytes(es) + rest, |es|) == (HeadersOf(es), None)
  {
    Assoc(VarInt(|es|), EntriesBytes(es), rest);
    VarIntRoundTrip(|es|, EntriesBytes(es) + rest);
    EntriesRoundTrip(es, rest);
  }

  /** processHeaders on an encoded message does to the client exactly what its headers do: it commits
      them all when they link and otherwise rejects, whatever AuxPoW they carry and whatever bytes follow. */
  lemma MessageRoundTrip(hash: HashFn, s: Client, es: seq<Entry>, rest: seq<Byte>)
    requires WellFormedEntries(es) && |es| < 0x1_0000_0000_0000_0000
    ensures Accept(hash, s, Message(es) + rest) == Apply(hash, s, HeadersOf(es))
    ensures Process(hash, s, Message(es) + rest).1 ==
            if Apply(hash, s, HeadersOf(es)).Some? then Accepted(|es|) else Rejected(NotLinked)
  {
    MessageReads(es, rest);
    ReadableIsApplied(hash, s, Message(es) + rest, EntriesBytes(es) + rest, HeadersOf(es));
  }

  lemma ExactMessage(hash: HashFn, s: Client, es: seq<Entry>)
    requires WellFormedEntries(es) && |es| < 0x1_0000_0000_0000_0000
    ensures Accept(hash, s, Message(es)) == Apply(hash, s, HeadersOf(es))
  {
    MessageRoundTrip(hash, s, es, []);
    NothingAppended(Message(es));
  }

  lemma NothingAppended(a: seq<Byte>)
    ensures a + [] == a
  {
  }

  lemma HeadersOfConcat(xs: seq<Entry>, ys: seq<Entry>)
    ensures HeadersOf(xs + ys) == HeadersOf(xs) + HeadersOf(ys)
  {
  }

  /** Delivering two messages in a row and delivering both lists in one message is the same, byte level
      included. */
  lemma MessageSplit(hash: HashFn, s: Client, xs: seq<Entry>, ys: seq<Entry>)
    requires Valid(s) && WellFormedEntries(xs) && WellFormedEntries(ys) && |xs| + |ys| < 0x1_0000_0000_0000_0000
    ensures Accept(hash, s, Message(xs + ys)) ==
            if Accept(hash, s, Message(xs)).Some? then Accept(hash, Accept(hash, s, Message(xs)).value, Message(ys))
            else None
  {
    ExactMessage(hash, s, xs + ys);
    HeadersOfConcat(xs, ys);
    BatchSplit(hash, s, HeadersOf(xs), HeadersOf(ys));
    ExactMessage(hash, s, xs);
    if Apply(hash, s, HeadersOf(xs)).Some? {
      ExactMessage(hash, Apply(hash, s, HeadersOf(xs)).value, ys);
    }
  }

  // ---------------------------------------------------------------- the client object

  lemma {:induction false} ItemsProgress(d: seq<Byte>, k: nat)
    ensures ReadItems(d, k).1.None? ==> 81 * k <= |d|
    decreases k
  {
    if k > 0 && ReadItem(d).Item? {
      ItemProgress(d);
      ItemsProgress(ReadItem(d).rest, k - 1);
    }
  }

  lemma ItemProgress(d: seq<Byte>)
    ensures ReadItem(d).Item? ==> Advanced(d, ReadItem(d).rest, 81)
  {
    if |d| >= 80 {
      var h, d1 := ParseHeader(d[..80]), d[80..];
      var d2 := if HasAuxPow(h.version) then SkipAux(d1) else Some(d1);
      AuxProgress(d1);
      if d2.Some? {
        VarIntProgress(d2.value);
        AdvancedTwice(d, d1, d2.value, 80, 0);
        if ParseVarInt(d2.value).Some? {
          AdvancedTwice(d, d2.value, ParseVarInt(d2.value).value.1, 80, 1);
        }
      }
    }
  }

  /** An accepted message claims no more headers than its bytes can hold, so the uint64 count it returns
      as an int never wraps. */
  lemma AcceptedCount(hash: HashFn, s: Client, payload: seq<Byte>)
    requires Process(hash, s, payload).1.Accepted?
    ensures 81 * Process(hash, s, payload).1.count < |payload|
  {
    var count, d := CountOf(hash, s, payload);
    VarIntProgress(payload);
    hide *;
    RunItemsIsRun(hash, Begin(s), d, count);
    ItemsProgress(d, count);
  }

  /** The count and the entries of an accepted payload. */
  lemma CountOf(hash: HashFn, s: Client, payload: seq<Byte>) returns (count: U64, d: seq<Byte>)
    requires Process(hash, s, payload).1.Accepted?
    ensures ParseVarInt(payload) == Some((count, d)) && Process(hash, s, payload).1.count == count
    ensures RunItems(hash, Begin(s), d, count).1.None?
  {
    hide ParseVarInt, Begin, Commit, ReadItem, Extend;
    var pair := ParseVarInt(payload).value;
    count, d := pair.0, pair.1;
  }

  class P2PClient {
    const hash: HashFn
    const genesisHash: Hash32
    const genesisTime: U32
    var bestHeader: Option<Header>
    var bestHeight: int
    var lastNonMin: U32
    var tipParentTime: U32
    var ring: seq<Hash32>
    var tipHistory: map<int, string>
    var checkpoint: Option<(Hash32, int)>

    constructor (hash: HashFn, genesisHash: Hash32, genesisTime: U32)
      ensures this.hash == hash
      ensures State() == Client(None, 0, 0, 0, [], map[], None, genesisHash, genesisTime)
    {
      this.hash, this.genesisHash, this.genesisTime := hash, genesisHash, genesisTime;
      bestHeader, bestHeight, lastNonMin, tipParentTime := None, 0, 0, 0;
      ring, tipHistory, checkpoint := [], map[], None;
    }

    function State(): Client
      reads this
    {
      Client(bestHeader, bestHeight, lastNonMin, tipParentTime, ring, tipHistory, checkpoint,
             genesisHash, genesisTime)
    }

    /** GetBlockHashAtHeight: the empty string when the height is not recorded. */
    method GetBlockHashAtHeight(height: int) returns (h: string)
      ensures h == Lookup(tipHistory, height)
    {
      h := if height in tipHistory then tipHistory[height] else "";
    }

    /** An empty string clears the checkpoint and the tip but not the history; a bad hash changes nothing. */
    method SetStartCheckpoint(hashHex: string, height: int) returns (ok: bool)
      modifies this
      ensures hashHex == "" ==>
                ok && State() == old(State()).(bestHeader := None, bestHeight := 0, lastNonMin := 0,
                                               tipParentTime := 0, ring := [], checkpoint := None)
      ensures hashHex != "" ==> (ok <==> HashFromHex(hashHex).Some?)
      ensures hashHex != "" && ok ==>
                State() == old(State()).(checkpoint := Some((HashFromHex(hashHex).value, height)))
      ensures forall h: Hash32 :: hashHex == DisplayHex(h) ==>
                ok && State() == old(State()).(checkpoint := Some((h, height)))
      ensures !ok ==> State() == old(State())
    {
      if hashHex == "" {
        checkpoint, bestHeader, bestHeight, ring, tipParentTime, lastNonMin := None, None, 0, [], 0, 0;
        return true;
      }
      var parsed := HexTo32Bytes(hashHex);
      forall h: Hash32 | hashHex == DisplayHex(h) ensures HashFromHex(hashHex) == Some(h) {
        DisplayHexParses(h);
      }
      if parsed.None? {
        return false;
      }
      checkpoint := Some((parsed.value, height));
      return true;
    }

    method PrependLocatorHashesFromBatch(batch: seq<Hash32>)
      modifies `ring
      ensures ring == PushAll(old(ring), batch)
    {
      for i := 0 to |batch|
        invariant PushAll(ring, batch[i..]) == PushAll(old(ring), batch)
      {
        assert batch[i..][1..] == batch[i + 1..];
        ring := [batch[i]] + ring;
        if |ring| > MAX_RING {
          ring := ring[..MAX_RING];
        }
      }
    }

    /** The tipHistory write of one header, with its pruning loop. */
    method RecordTip(height: int, id: Hash32)
      modifies `tipHistory
      ensures tipHistory == Record(old(tipHistory), height, id)
    {
      tipHistory := tipHistory[height := DisplayHex(id)];
      if |tipHistory| > MAX_HISTORY {
        tipHistory := Prune(tipHistory, AtLeast(height - MAX_HISTORY));
      }
    }

    /** Reads, links and records header by header; the other fields change only after the last one. */
    method ProcessHeaders(payload: seq<Byte>) returns (r: Outcome)
      modifies this
      ensures (State(), r) == Process(hash, old(State()), payload)
      ensures r.Accepted? <==> HeadersIn(payload).1.None? && Chained(hash, Anchor(old(State())), HeadersIn(payload).0)
      ensures r.Accepted? && r.count == 0 ==> State() == old(State())
      ensures r.Accepted? && r.count > 0 ==>
                r.count == |HeadersIn(payload).0| && Commits(hash, old(State()), HeadersIn(payload).0, State())
    {
      AcceptedExact(hash, State(), payload);
      hide HeadersIn, Chained, Commits, Anchor, ParseVarInt, ProcessItems;
      var rd := new Reader(payload);
      var count := rd.ReadVarInt();
      if count.None? { return Rejected(BadCount); }
      if count.value == 0 { return Accepted(0); }
      r := ProcessEntries(rd, count.value);
    }

    method ProcessEntries(rd: Reader, n: U64) returns (r: Outcome)
      requires n > 0
      modifies this, rd
      ensures (State(), r) == ProcessItems(hash, old(State()), n, old(rd.rest))
    {
      var first := StartBatch();
      var error, b := LinkEntries(rd, first, n);
      if error.Some? { return Rejected(error.value); }
      CommitTip(b);
      return Accepted(n);
    }

    method LinkEntries(rd: Reader, first: Batch, n: U64) returns (error: Option<Error>, b: Batch)
      requires n > 0 && first.history == tipHistory
      modifies `tipHistory, rd
      ensures (b, error) == RunItems(hash, first, old(rd.rest), n)
      ensures tipHistory == b.history && (error.None? ==> b.last.Some?)
    {
      hide ReadItem, Extend;
      b := first;
      var i := 0;
      while i < n
        invariant 0 <= i <= n && (i > 0 ==> b.last.Some?) && b.history == tipHistory
        invariant RunItems(hash, b, rd.rest, n - i) == RunItems(hash, first, old(rd.rest), n)
      {
        var next;
        error, next := LinkEntry(rd, b);
        if error.Some? { return; }
        b := next;
        i := i + 1;
      }
      error := None;
    }

    /** One turn of the loop: read an entry, check its link, carry the values on, record its hash. */
    method LinkEntry(rd: Reader, b: Batch) returns (error: Option<Error>, next: Batch)
      requires b.history == tipHistory
      modifies `tipHistory, rd
      ensures match ReadItem(old(rd.rest))
              case Bad(e) => error == Some(e) && tipHistory == b.history
              case Item(h, rest) =>
                if h.prev != b.prev then error == Some(NotLinked) && tipHistory == b.history
                else error == None && next == Extend(hash, b, h) && next.last.Some?
                     && tipHistory == next.history && rd.rest == rest
    {
      hide ReadItem, Record, Header80;
      next := b;
      var item := ReadEntry(rd);
      if item.Bad? { return Some(item.error), b; }
      var h := item.header;
      if h.prev != b.prev { return Some(NotLinked), b; }
      var height := b.height + 1;
      var id := hash(Header80(h));
      var parentTimeForTip := b.parentTime;
      var carryLastNonMin := b.lastNonMin;
      if h.bits != Difficulty.POW_LIMIT_COMPACT {
        carryLastNonMin := h.bits;
      }
      RecordTip(height, id);
      return None, Batch(height, id, h.time, carryLastNonMin, parentTimeForTip, b.hashes + [id],
                         Some(Header(h, height, id)), tipHistory);
    }

    /** Where the first header must link, and its parent's time when known. */
    method StartBatch() returns (b: Batch)
      ensures b == Begin(State())
    {
      var height, prev, time := bestHeight, genesisHash, genesisTime;
      if bestHeader.Some? {
        prev, time := bestHeader.value.hash, bestHeader.value.raw.time;
      } else if checkpoint.Some? {
        prev, height, time := checkpoint.value.0, checkpoint.value.1, 0;
      }
      b := Batch(height, prev, time, lastNonMin, 0, [], None, tipHistory);
    }

    method CommitTip(b: Batch)
      requires b.last.Some? && b.history == tipHistory
      modifies this
      ensures State() == Commit(old(State()), b)
    {
      bestHeader := b.last;
      bestHeight := b.last.value.height;
      lastNonMin := b.lastNonMin;
      tipParentTime := b.tipParentTime;
      PrependLocatorHashesFromBatch(b.hashes);
    }
  }

  method ReadEntry(rd: Reader) returns (item: ItemResult)
    modifies rd
    ensures item == ReadItem(old(rd.rest))
    ensures item.Item? ==> rd.rest == item.rest
  {
    var headerBytes := rd.ReadFull(80);
    if headerBytes.None? {
      return Bad(ShortHeader);
    }
    var h := ParseHeader(headerBytes.value);
    if HasAuxPow(h.version) {
      var ok := SkipAuxPow(rd);
      if !ok {
        return Bad(BadAuxPow);
      }
    }
    var txnCount := rd.ReadVarInt();
    if txnCount.None? {
      return Bad(BadTxnCount);
    }
    return Item(h, rd.rest);
  }

  /** Deletes the entries that are not kept, one key at a time, in any order. */
  method Prune<K(==), V>(m: map<K, V>, keep: K -> bool) returns (kept: map<K, V>)
    ensures kept == Filtered(m, keep)
  {
    kept := m;
    var pending := m.Keys;
    while pending != {}
      invariant pending <= m.Keys
      invariant forall k :: k in kept <==> k in m && (k in pending || keep(k))
      invariant forall k :: k in kept ==> kept[k] == m[k]
    {
      var k :| k in pending;
      if !keep(k) {
        kept := kept - {k};
      }
      pending := pending - {k};
    }
  }

  function Lookup(history: map<int, string>, height: int): string {
    if height in history then history[height] else ""
  }
}
