/** Header sync: the getheaders locator and the request loop of p2p.go, against an honest peer. */
module Sync {
  import opened Bytes
  import opened Wire
  import opened HeaderChain
  import opened WireFormat

  const MAX_LOCATOR := 16
  const MAX_HEADERS := 2000

  // ---------------------------------------------------------------- the locator

  function Add(loc: seq<Hash32>, h: Hash32): seq<Hash32> {
    if h in loc then loc else loc + [h]
  }

  function Collect(ring: seq<Hash32>, loc: seq<Hash32>): seq<Hash32>
    decreases |ring|
  {
    if ring == [] || |loc| >= MAX_LOCATOR then loc else Collect(ring[1..], Add(loc, ring[0]))
  }

  function TipPart(s: Client): seq<Hash32> {
    if |s.ring| > 0 then Collect(s.ring, [])
    else if s.bestHeader.Some? then [s.bestHeader.value.hash] else []
  }

  /** The hashes sendGetHeaders sends. */
  function Locator(s: Client): seq<Hash32> {
    var loc := TipPart(s);
    var withCheckpoint :=
      if s.checkpoint.Some? && |loc| < MAX_LOCATOR then Add(loc, s.checkpoint.value.0) else loc;
    if withCheckpoint == [] then [Zeros(32)] else withCheckpoint
  }

  ghost predicate NoDuplicates(loc: seq<Hash32>) {
    forall i, j :: 0 <= i < j < |loc| ==> loc[i] != loc[j]
  }

  lemma {:induction false} CollectLaws(ring: seq<Hash32>, loc: seq<Hash32>)
    requires NoDuplicates(loc) && |loc| <= MAX_LOCATOR
    ensures var r := Collect(ring, loc);
            && NoDuplicates(r) && |loc| <= |r| <= MAX_LOCATOR && loc == r[..|loc|]
            && (loc == [] && ring != [] ==> r != [] && r[0] == ring[0])
    decreases |ring|
  {
    if ring != [] && |loc| < MAX_LOCATOR {
      CollectLaws(ring[1..], Add(loc, ring[0]));
    }
  }

  /** The ring, when there is one, starts at the tip. */
  predicate RingAtTip(s: Client) {
    && (s.bestHeader.Some? && s.ring != [] ==> s.ring[0] == s.bestHeader.value.hash)
    && (s.bestHeader.None? ==> s.ring == [] && s.bestHeight == 0)
  }

  lemma LocatorShort(s: Client)
    ensures |Locator(s)| <= MAX_LOCATOR
  {
    CollectLaws(s.ring, []);
  }

  /** A locator is never empty, never longer than 16, never repeats a hash, and starts with the tip when
      there is one and otherwise with the checkpoint or the zero hash. */
  lemma LocatorLaws(s: Client)
    requires RingAtTip(s)
    ensures 1 <= |Locator(s)| <= 16 && NoDuplicates(Locator(s))
    ensures Locator(s)[0] ==
            if s.bestHeader.Some? then s.bestHeader.value.hash
            else if s.checkpoint.Some? then s.checkpoint.value.0 else Zeros(32)
  {
    TipPartLaws(s);
    hide TipPart, RingAtTip;
  }

  lemma TipPartLaws(s: Client)
    requires RingAtTip(s)
    ensures |TipPart(s)| <= MAX_LOCATOR && NoDuplicates(TipPart(s))
    ensures if s.bestHeader.Some? then TipPart(s) != [] && TipPart(s)[0] == s.bestHeader.value.hash
            else TipPart(s) == []
  {
    CollectLaws(s.ring, []);
    hide Collect;
  }

  /** Every hash once, where it first occurs. */
  function Distinct(hashes: seq<Hash32>): (d: seq<Hash32>)
    ensures |d| <= |hashes|
  {
    if hashes == [] then []
    else
      var init, last := hashes[..|hashes| - 1], hashes[|hashes| - 1];
      if last in init then Distinct(init) else Distinct(init) + [last]
  }

  lemma {:induction false} DistinctLaws(hashes: seq<Hash32>)
    ensures NoDuplicates(Distinct(hashes)) && forall h :: h in Distinct(hashes) <==> h in hashes
  {
    if hashes != [] {
      DistinctLaws(hashes[..|hashes| - 1]);
      assert hashes == hashes[..|hashes| - 1] + [hashes[|hashes| - 1]];
    }
  }

  /** The hashes that may be sent: the ring, or the tip without one, and then the checkpoint. */
  function Candidates(s: Client): seq<Hash32> {
    (if s.ring != [] then s.ring else if s.bestHeader.Some? then [s.bestHeader.value.hash] else [])
    + if s.checkpoint.Some? then [s.checkpoint.value.0] else []
  }

  function FirstSixteen(hashes: seq<Hash32>): seq<Hash32> {
    if |hashes| > 16 then hashes[..16] else hashes
  }

  /** Adding a hash to the locator while it has room keeps it the first sixteen distinct ones. */
  lemma AddFirst(done: seq<Hash32>, h: Hash32)
    ensures FirstSixteen(Distinct(done + [h])) ==
            var loc := FirstSixteen(Distinct(done)); if |loc| >= 16 then loc else Add(loc, h)
  {
    DistinctLaws(done);
    assert (done + [h])[..|done|] == done;
  }

  lemma {:induction false} FullStays(done: seq<Hash32>, more: seq<Hash32>)
    requires |Distinct(done)| >= 16
    ensures FirstSixteen(Distinct(done + more)) == FirstSixteen(Distinct(done))
    decreases |more|
  {
    if more == [] {
      assert done + more == done;
    } else {
      hide Distinct, Add;
      AddFirst(done, more[0]);
      DistinctGrows(done, more[0]);
      FullStays(done + [more[0]], more[1..]);
      Moved(done, more);
    }
  }

  lemma DistinctGrows(done: seq<Hash32>, h: Hash32)
    ensures |Distinct(done + [h])| >= |Distinct(done)|
  {
    assert (done + [h])[..|done|] == done;
  }

  lemma {:induction false} CollectIsFirst(ring: seq<Hash32>, done: seq<Hash32>)
    ensures Collect(ring, FirstSixteen(Distinct(done))) == FirstSixteen(Distinct(done + ring))
    decreases |ring|
  {
    hide Distinct, Add;
    if ring == [] {
      assert done + ring == done;
    } else if |Distinct(done)| >= 16 {
      FullStays(done, ring);
    } else {
      AddFirst(done, ring[0]);
      CollectIsFirst(ring[1..], done + [ring[0]]);
      Moved(done, ring);
    }
  }

  lemma Moved(done: seq<Hash32>, more: seq<Hash32>)
    requires more != []
    ensures done + [more[0]] + more[1..] == done + more
  {
  }

  /** The locator is the first sixteen distinct hashes of the ring and then the checkpoint; the zero hash alone when
      there is neither a tip nor a checkpoint. */
  lemma LocatorExact(s: Client)
    ensures Locator(s) == if Candidates(s) == [] then [Zeros(32)] else FirstSixteen(Distinct(Candidates(s)))
  {
    var c := Candidates(s);
    var ring := if s.checkpoint.Some? then c[..|c| - 1] else c;
    assert s.ring != [] ==> [] + s.ring == s.ring;
    assert c == ring + if s.checkpoint.Some? then [s.checkpoint.value.0] else [];
    TipPartIsFirst(s, ring);
    if s.checkpoint.Some? {
      AddFirst(ring, s.checkpoint.value.0);
    }
    FirstNonempty(c);
    hide Distinct, FirstSixteen, TipPart;
  }

  lemma FirstNonempty(c: seq<Hash32>)
    ensures FirstSixteen(Distinct(c)) == [] <==> c == []
  {
    DistinctLaws(c);
    if c != [] {
      assert c[0] in Distinct(c);
    }
  }

  lemma TipPartIsFirst(s: Client, ring: seq<Hash32>)
    requires ring == if s.ring != [] then s.ring else if s.bestHeader.Some? then [s.bestHeader.value.hash] else []
    ensures TipPart(s) == FirstSixteen(Distinct(ring))
  {
    if s.ring != [] {
      CollectIsFirst(s.ring, []);
      assert [] + s.ring == s.ring;
    } else if s.bestHeader.Some? {
      assert ring[..0] == [];
    }
  }

  /** Accepting headers keeps the ring at the tip. */
  lemma ApplyKeepsRing(hash: HashFn, s: Client, hs: seq<RawHeader>)
    requires RingAtTip(s) && Apply(hash, s, hs).Some?
    ensures RingAtTip(Apply(hash, s, hs).value)
  {
    if hs != [] {
      hide Run, HashesOf, Commit, RingAtTip, AtLast;
      var b := Begin(s);
      RunLast(hash, b, hs);
      BeginAtLast(s);
      RunAtLast(hash, b, hs);
      RunHashes(hash, b, hs);
      RunPrev(hash, b, hs);
      CommitKeepsRing(s, Run(hash, b, hs).0);
    }
  }

  lemma CommitKeepsRing(s: Client, d: Batch)
    requires RingAtTip(s) && d.last.Some? && AtLast(d)
    requires d.hashes != [] && d.prev == d.hashes[|d.hashes| - 1]
    ensures RingAtTip(Commit(s, d))
  {
    PushAllHead(s.ring, d.hashes);
  }

  lemma {:induction false} RunPrev(hash: HashFn, b: Batch, hs: seq<RawHeader>)
    requires b.hashes != [] ==> b.prev == b.hashes[|b.hashes| - 1]
    ensures var d := Run(hash, b, hs).0; d.hashes != [] ==> d.prev == d.hashes[|d.hashes| - 1]
    decreases |hs|
  {
    hide BlockHash, Record;
    if hs != [] && hs[0].prev == b.prev {
      RunPrev(hash, Extend(hash, b, hs[0]), hs[1..]);
    }
  }

  lemma {:induction false} PushAllHead(ring: seq<Hash32>, hashes: seq<Hash32>)
    requires hashes != []
    ensures var r := PushAll(ring, hashes); r != [] && r[0] == hashes[|hashes| - 1]
    decreases |hashes|
  {
    if |hashes| > 1 {
      PushAllHead(Push(ring, hashes[0]), hashes[1..]);
    } else {
      assert PushAll(ring, hashes) == PushAll(Push(ring, hashes[0]), []) == Push(ring, hashes[0]);
    }
  }

  /** sendGetHeaders: the loop over the ring with its set of hashes already added. */
  method BuildLocator(c: P2PClient) returns (loc: seq<Hash32>)
    ensures loc == Locator(c.State())
  {
    loc := [];
    var seen: set<Hash32> := {};
    if |c.ring| > 0 {
      var i := 0;
      while i < |c.ring| && |loc| < MAX_LOCATOR
        invariant 0 <= i <= |c.ring|
        invariant forall h :: h in seen <==> h in loc
        invariant Collect(c.ring[i..], loc) == Collect(c.ring, [])
      {
        assert c.ring[i..][1..] == c.ring[i + 1..];
        if c.ring[i] !in seen {
          seen := seen + {c.ring[i]};
          loc := loc + [c.ring[i]];
        }
        i := i + 1;
      }
    } else if c.bestHeader.Some? {
      seen := {c.bestHeader.value.hash};
      loc := [c.bestHeader.value.hash];
    }
    if c.checkpoint.Some? && |loc| < MAX_LOCATOR && c.checkpoint.value.0 !in seen {
      loc := loc + [c.checkpoint.value.0];
    }
    if |loc| == 0 {
      loc := [Zeros(32)];
    }
  }

  // ---------------------------------------------------------------- the getheaders payload

  const PROTOCOL_VERSION: U32 := 70015

  /** Protocol version, the counted locator, and a zero stop hash. */
  function GetHeaders(loc: seq<Hash32>): seq<Byte>
    requires |loc| < 0x1_0000_0000_0000_0000
  {
    LE(PROTOCOL_VERSION, 4) + (VarInt(|loc|) + BranchBytes(loc)) + Zeros(32)
  }

  method SendGetHeaders(c: P2PClient) returns (payload: seq<Byte>)
    ensures |Locator(c.State())| <= MAX_LOCATOR && payload == GetHeaders(Locator(c.State()))
  {
    hide Locator, LE, VarInt;
    var buf := new ByteBuffer();
    buf.Write(LE(PROTOCOL_VERSION, 4));
    var loc := BuildLocator(c);
    LocatorShort(c.State());
    WriteBranch(buf, loc);
    buf.Write(Zeros(32));
    payload := buf.bytes;
    assert [] + LE(PROTOCOL_VERSION, 4) == LE(PROTOCOL_VERSION, 4);
  }

  /** What a peer reads from the payload. */
  datatype Request = Request(version: U32, locator: seq<Hash32>, stop: Hash32)

  function ParseGetHeaders(payload: seq<Byte>): Option<Request> {
    var (version, d1) :- TakeU32(payload);
    var (count, d2) :- ParseVarInt(d1);
    var (locator, d3) :- ParseHashes(d2, count);
    var (stop, _) :- TakeHash(d3);
    Some(Request(version, locator, stop))
  }

  /** The peer reads protocol version 70015, exactly the locator that was sent, and no stop hash. */
  lemma GetHeadersRoundTrip(loc: seq<Hash32>)
    requires |loc| < 0x1_0000_0000_0000_0000
    ensures ParseGetHeaders(GetHeaders(loc)) == Some(Request(70015, loc, Zeros(32)))
  {
    hide LE, VarInt, ParseVarInt, BranchBytes, ParseHashes, TakeU32, TakeHash, Zeros;
    var version, hashes, stop := LE(PROTOCOL_VERSION, 4), BranchBytes(loc), Zeros(32);
    Assoc(version, VarInt(|loc|) + hashes, stop);
    Assoc(VarInt(|loc|), hashes, stop);
    U32Exact(PROTOCOL_VERSION, VarInt(|loc|) + (hashes + stop));
    VarIntRoundTrip(|loc|, hashes + stop);
    HashesContent(loc, stop);
    TakeExact(stop, []);
    assert stop + [] == stop;
  }

  // ---------------------------------------------------------------- an honest peer

  /** A fixed chain, indexed by height, of linked headers with distinct nonzero hashes. */
  ghost predicate HonestChain(hash: HashFn, chain: seq<Entry>) {
    && |chain| > 0 && WellFormedEntries(chain)
    && (forall i :: 0 < i < |chain| ==> chain[i].header.prev == Id(hash, chain, i - 1))
    && (forall i, j :: 0 <= i < j < |chain| ==> Id(hash, chain, i) != Id(hash, chain, j))
    && (forall i :: 0 <= i < |chain| ==> Id(hash, chain, i) != Zeros(32))
  }

  function Id(hash: HashFn, chain: seq<Entry>, i: nat): Hash32
    requires i < |chain|
  {
    BlockHash(hash, chain[i].header)
  }

  /** The height of a hash on the peer's chain. */
  function HeightOf(hash: HashFn, chain: seq<Entry>, h: Hash32, from: nat): Option<nat>
    requires from <= |chain|
    decreases |chain| - from
  {
    if from == |chain| then None
    else if Id(hash, chain, from) == h then Some(from)
    else HeightOf(hash, chain, h, from + 1)
  }

  /** The peer answers from the first locator hash it knows, or else from its genesis. */
  function ForkPoint(hash: HashFn, chain: seq<Entry>, loc: seq<Hash32>): nat
    decreases |loc|
  {
    if loc == [] then 0
    else
      match HeightOf(hash, chain, loc[0], 0)
      case Some(i) => i
      case None => ForkPoint(hash, chain, loc[1..])
  }

  function Min(a: int, b: int): int { if a < b then a else b }

  function Answer(hash: HashFn, chain: seq<Entry>, loc: seq<Hash32>): seq<Entry>
    requires |chain| > 0
  {
    var at := Min(ForkPoint(hash, chain, loc), |chain| - 1);
    chain[at + 1..Min(at + 1 + 2000, |chain|)]
  }

  /** The client's next batch starts at a block of the peer's chain. */
  ghost predicate OnChain(hash: HashFn, chain: seq<Entry>, s: Client) {
    && RingAtTip(s) && Valid(s)
    && 0 <= Begin(s).height < |chain| && Begin(s).prev == Id(hash, chain, Begin(s).height)
    && (s.bestHeader.None? && s.checkpoint.None? ==> s.genesisHash == Id(hash, chain, 0))
  }

  lemma {:induction false} HeightOfKnown(hash: HashFn, chain: seq<Entry>, i: nat, from: nat)
    requires HonestChain(hash, chain) && from <= i < |chain|
    ensures HeightOf(hash, chain, Id(hash, chain, i), from) == Some(i)
    decreases i - from
  {
    hide Id;
    if from < i {
      HeightOfKnown(hash, chain, i, from + 1);
    }
  }

  lemma {:induction false} HeightOfUnknown(hash: HashFn, chain: seq<Entry>, h: Hash32, from: nat)
    requires from <= |chain| && forall i :: 0 <= i < |chain| ==> Id(hash, chain, i) != h
    ensures HeightOf(hash, chain, h, from).None?
    decreases |chain| - from
  {
    hide Id;
    if from < |chain| {
      HeightOfUnknown(hash, chain, h, from + 1);
    }
  }

  /** The locator makes the honest peer answer from exactly our position. */
  lemma ForkIsOurTip(hash: HashFn, chain: seq<Entry>, s: Client)
    requires HonestChain(hash, chain) && OnChain(hash, chain, s)
    ensures ForkPoint(hash, chain, Locator(s)) == Begin(s).height
  {
    LocatorLaws(s);
    if s.bestHeader.Some? || s.checkpoint.Some? {
      HeightOfKnown(hash, chain, Begin(s).height, 0);
    } else {
      HeightOfUnknown(hash, chain, Zeros(32), 0);
      assert Locator(s) == [Zeros(32)];
      assert ForkPoint(hash, chain, Locator(s)[1..]) == 0;
    }
  }

  /** A stretch of the peer's chain links from the block before it. */
  lemma {:induction false} StretchLinks(hash: HashFn, chain: seq<Entry>, b: Batch, at: nat, end: nat)
    requires HonestChain(hash, chain) && at < end <= |chain| && b.prev == Id(hash, chain, at)
    ensures Run(hash, b, HeadersOf(chain[at + 1..end])).1
    ensures Run(hash, b, HeadersOf(chain[at + 1..end])).0.prev == Id(hash, chain, end - 1)
    decreases end - at
  {
    hide BlockHash, Record;
    var stretch := chain[at + 1..end];
    if at + 1 < end {
      assert stretch[0] == chain[at + 1] && stretch[1..] == chain[at + 2..end];
      StretchLinks(hash, chain, Extend(hash, b, chain[at + 1].header), at + 1, end);
    }
  }

  /** What we hold after accepting a linked stretch. */
  lemma BatchEnd(hash: HashFn, s: Client, hs: seq<RawHeader>)
    requires hs != [] && Run(hash, Begin(s), hs).1
    ensures var d := Run(hash, Begin(s), hs).0;
            && d.last.Some? && AtLast(d) && d.height == Begin(s).height + |hs|
            && Apply(hash, s, hs) == Some(Commit(s, d))
  {
    RunLast(hash, Begin(s), hs);
    RunAtLast(hash, Begin(s), hs);
    RunHashes(hash, Begin(s), hs);
  }

  lemma CommitMoves(s: Client, b: Batch)
    requires b.last.Some? && AtLast(b)
    ensures var t := Commit(s, b);
            t.bestHeader.Some? && Begin(t).height == b.height && Begin(t).prev == b.prev
  {
  }

  lemma StretchAdvances(hash: HashFn, chain: seq<Entry>, s: Client, at: nat, end: nat)
    requires HonestChain(hash, chain) && OnChain(hash, chain, s)
    requires at == Begin(s).height && at < end <= |chain|
    ensures var hs := HeadersOf(chain[at + 1..end]);
            && Apply(hash, s, hs).Some? && OnChain(hash, chain, Apply(hash, s, hs).value)
            && Begin(Apply(hash, s, hs).value).height == end - 1
  {
    hide Run, Begin, Commit, RingAtTip, Valid, HonestChain, BlockHash;
    var hs := HeadersOf(chain[at + 1..end]);
    StretchLinks(hash, chain, Begin(s), at, end);
    if hs != [] {
      BatchEnd(hash, s, hs);
      CommitMoves(s, Run(hash, Begin(s), hs).0);
      ApplyKeepsRing(hash, s, hs);
      ApplyValid(hash, s, hs);
    }
  }

  /** One round: an answer from our position is accepted and moves us along the peer's chain by up to
      2000 blocks. */
  lemma RoundAdvances(hash: HashFn, chain: seq<Entry>, s: Client, loc: seq<Hash32>)
    requires HonestChain(hash, chain) && OnChain(hash, chain, s)
    requires ForkPoint(hash, chain, loc) == Begin(s).height
    ensures var es := Answer(hash, chain, loc);
            && WellFormedEntries(es) && |es| == Min(2000, |chain| - 1 - Begin(s).height)
            && Apply(hash, s, HeadersOf(es)).Some?
            && OnChain(hash, chain, Apply(hash, s, HeadersOf(es)).value)
            && Begin(Apply(hash, s, HeadersOf(es)).value).height == Begin(s).height + |es|
  {
    hide Apply, RingAtTip, Valid, Id, ForkPoint, Begin;
    var at := Begin(s).height;
    StretchAdvances(hash, chain, s, at, Min(at + 1 + 2000, |chain|));
  }

  // ---------------------------------------------------------------- the request loop

  /** What the connection delivers while a headers reply is awaited. */
  /** pong: whether the answer to a ping can be written. */
  datatype Command = Headers(payload: seq<Byte>) | Ping(pong: bool) | Ignored

  datatype SyncResult = Synced | TimedOut | Lost | Failed(error: Error)

  /** What a connection delivers in a round, given the getheaders payload; None when that cannot be written. */
  type Peer = (nat, seq<Byte>) -> Option<seq<Command>>

  predicate HonestAnswer(hash: HashFn, chain: seq<Entry>, loc: seq<Hash32>) {
    |chain| > 0 && WellFormedEntries(Answer(hash, chain, loc)) && |Answer(hash, chain, loc)| <= 2000
  }

  /** At most `m` other messages, then the headers. */
  predicate Delivers(inbox: seq<Command>, m: nat, payload: seq<Byte>) {
    && 0 < |inbox| <= m + 1 && inbox[|inbox| - 1] == Headers(payload)
    && forall i :: 0 <= i < |inbox| - 1 ==> !inbox[i].Headers? && inbox[i] != Ping(false)
  }

  ghost predicate HonestPeer(hash: HashFn, chain: seq<Entry>, m: nat, peer: Peer) {
    && HonestChain(hash, chain)
    && forall round, request :: ParseGetHeaders(request).Some? ==>
         var loc := ParseGetHeaders(request).value.locator;
         HonestAnswer(hash, chain, loc) ==>
           peer(round, request).Some? && Delivers(peer(round, request).value, m, Message(Answer(hash, chain, loc)))
  }

  /** Answers needed to close a gap, and deadline tests needed for that many answers. */
  function Rounds(gap: int): nat {
    if gap < 0 then 0 else gap / 2000 + 1
  }

  function Ticks(rounds: nat, m: nat): nat {
    if rounds == 0 then 0 else m + 2 + Ticks(rounds - 1, m)
  }

  /** One processHeaders call on the honest answer. */
  lemma HonestMessageAccepted(hash: HashFn, chain: seq<Entry>, s: Client, loc: seq<Hash32>)
    requires HonestChain(hash, chain) && OnChain(hash, chain, s) && loc == Locator(s)
    ensures HonestAnswer(hash, chain, loc)
    ensures var es := Answer(hash, chain, loc);
            var (t, outcome) := Process(hash, s, Message(es));
            && outcome == Accepted(|es|) && OnChain(hash, chain, t)
            && |es| == Min(2000, Gap(chain, s)) && Gap(chain, t) == Gap(chain, s) - |es|
  {
    hide *;
    RoundGap(hash, chain, s, loc);
    var es := Answer(hash, chain, loc);
    MessageRoundTrip(hash, s, es, []);
    NothingAppended(Message(es));
    AcceptedProcess(hash, s, Message(es));
  }

  lemma RoundGap(hash: HashFn, chain: seq<Entry>, s: Client, loc: seq<Hash32>)
    requires HonestChain(hash, chain) && OnChain(hash, chain, s) && loc == Locator(s)
    ensures HonestAnswer(hash, chain, loc) && |chain| > 0
    ensures var es := Answer(hash, chain, loc);
            && WellFormedEntries(es) && |es| < 0x1_0000_0000_0000_0000 && Apply(hash, s, HeadersOf(es)).Some?
            && OnChain(hash, chain, Apply(hash, s, HeadersOf(es)).value)
            && |es| == Min(2000, Gap(chain, s))
            && Gap(chain, Apply(hash, s, HeadersOf(es)).value) == Gap(chain, s) - |es|
  {
    ForkIsOurTip(hash, chain, s);
    GapIsNat(hash, chain, s);
    hide Locator, Apply, OnChain, ForkPoint, Begin, Answer, HeadersOf, WellFormedEntries, Id;
    RoundAdvances(hash, chain, s, loc);
  }

  lemma AcceptedProcess(hash: HashFn, s: Client, payload: seq<Byte>)
    ensures Accept(hash, s, payload).Some? ==> Accept(hash, s, payload).value == Process(hash, s, payload).0
  {
  }

  function Gap(chain: seq<Entry>, s: Client): int {
    |chain| - 1 - Begin(s).height
  }

  lemma GapIsNat(hash: HashFn, chain: seq<Entry>, s: Client)
    requires OnChain(hash, chain, s)
    ensures Gap(chain, s) >= 0
  {
  }

  /** The read loop of one round: other traffic is answered or ignored until headers arrive; an answer that cannot be
      written ends it. */
  method AwaitHeaders(inbox: seq<Command>, start: nat, deadline: nat)
    returns (r: SyncResult, payload: seq<Byte>, tick: nat)
    requires start <= deadline
    ensures start <= tick <= deadline
    ensures r == Synced ==> exists i :: 0 <= i < |inbox| && inbox[i] == Headers(payload)
    ensures forall m, p :: Delivers(inbox, m, p) && start + m + 1 <= deadline ==>
              r == Synced && payload == p && tick <= start + m + 1
  {
    tick := start;
    var i := 0;
    while tick < deadline && i < |inbox|
      invariant 0 <= i <= |inbox| && tick == start + i <= deadline
      invariant forall k :: 0 <= k < i ==> !inbox[k].Headers? && inbox[k] != Ping(false)
    {
      tick := tick + 1;
      if inbox[i].Headers? {
        return Synced, inbox[i].payload, tick;
      }
      if inbox[i] == Ping(false) {
        return Lost, [], tick;
      }
      i := i + 1;
    }
    r, payload := if tick < deadline then Lost else TimedOut, [];
  }

  datatype Turn = Done(result: SyncResult) | Again

  /** One getheaders and what is made of the reply. */
  method OneRound(c: P2PClient, peer: Peer, round: nat, start: nat, deadline: nat,
                  ghost chain: seq<Entry>, ghost m: nat)
      returns (turn: Turn, tick: nat)
    requires start < deadline
    modifies c
    ensures start < tick <= deadline
    ensures HonestPeer(c.hash, chain, m, peer) && OnChain(c.hash, chain, old(c.State())) ==>
              HonestTurn(c.hash, chain, m, old(c.State()), c.State(), turn, start, tick, deadline)
  {
    hide Begin, Process, Locator, Answer, OnChain, HonestChain, HonestAnswer, Gap, Message, ParseGetHeaders, GetHeaders,
         Commits, HeadersIn, Chained, Anchor;
    var request := SendGetHeaders(c);
    ghost var s := c.State();
    if HonestPeer(c.hash, chain, m, peer) && OnChain(c.hash, chain, s) {
      HonestMessageAccepted(c.hash, chain, s, Locator(s));
      GetHeadersRoundTrip(Locator(s));
    }
    var inbox := peer(round, request);
    if inbox.None? { return Done(Lost), start + 1; }
    var r, payload;
    r, payload, tick := AwaitHeaders(inbox.value, start + 1, deadline);
    if r != Synced { return Done(r), tick; }
    var outcome := c.ProcessHeaders(payload);
    turn := if outcome.Rejected? then Done(Failed(outcome.error))
            else if outcome.count < MAX_HEADERS then Done(Synced) else Again;
  }

  /** A turn with an honest peer stays on its chain, succeeds only at its tip, and given time for the
      reply either succeeds or comes 2000 blocks nearer. */
  ghost predicate HonestTurn(hash: HashFn, chain: seq<Entry>, m: nat, s: Client, t: Client, turn: Turn,
                             start: nat, tick: nat, deadline: nat) {
    && OnChain(hash, chain, t)
    && (turn == Done(Synced) ==> Gap(chain, t) == 0)
    && (start + m + 2 <= deadline ==>
          && tick <= start + m + 2
          && (turn == Done(Synced) || (turn == Again && Gap(chain, t) == Gap(chain, s) - 2000 >= 0)))
  }

  /** requestHeaders, with time counted in deadline tests. Whatever the peer sends, the loop ends. With an
      honest peer, the client never leaves the peer's chain; if it reports success its tip is the peer's;
      and it does succeed once the deadline allows for one answer per 2000 missing blocks and one more. */
  method RequestHeaders(c: P2PClient, peer: Peer, deadline: nat, ghost chain: seq<Entry>, ghost m: nat)
      returns (r: SyncResult)
    modifies c
    ensures var honest := HonestPeer(c.hash, chain, m, peer) && OnChain(c.hash, chain, old(c.State()));
            && (honest ==> OnChain(c.hash, chain, c.State()))
            && (honest && r == Synced ==> Gap(chain, c.State()) == 0)
            && (honest && Ticks(Rounds(Gap(chain, old(c.State()))), m) <= deadline ==> r == Synced)
  {
    hide Begin, OnChain, HonestPeer, Gap;
    ghost var honest := HonestPeer(c.hash, chain, m, peer) && OnChain(c.hash, chain, c.State());
    ghost var timely := honest && Ticks(Rounds(Gap(chain, c.State())), m) <= deadline;
    if honest {
      GapIsNat(c.hash, chain, c.State());
    }
    var tick, round := 0, 0;
    while tick < deadline
      invariant 0 <= tick <= deadline
      invariant honest ==> OnChain(c.hash, chain, c.State()) && Gap(chain, c.State()) >= 0
      invariant timely ==> tick + Ticks(Rounds(Gap(chain, c.State())), m) <= deadline
    {
      var turn;
      turn, tick := OneRound(c, peer, round, tick, deadline, chain, m);
      if honest {
        GapIsNat(c.hash, chain, c.State());
      }
      if turn.Done? { return turn.result; }
      round := round + 1;
    }
    return TimedOut;
  }
}
