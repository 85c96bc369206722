/** The wire format read field by field, against which the serializers of block.go are checked: what a node that
    parses a transaction or an AuxPoW gets from their bytes. */
module WireFormat {
  import opened Bytes
  import opened Wire
  import opened HeaderChain

  // ---------------------------------------------------------------- reading

  function TakeBytes(d: seq<Byte>, n: nat): Option<(seq<Byte>, seq<Byte>)> {
    if |d| < n then None else Some((d[..n], d[n..]))
  }

  function TakeHash(d: seq<Byte>): Option<(Hash32, seq<Byte>)> {
    if |d| < 32 then None else Some((d[..32], d[32..]))
  }

  function TakeU32(d: seq<Byte>): Option<(U32, seq<Byte>)> {
    if |d| < 4 then None else Some((Word(d[..4]), d[4..]))
  }

  function ParseScript(d: seq<Byte>): Option<(seq<Byte>, seq<Byte>)> {
    var (n, d1) :- ParseVarInt(d);
    TakeBytes(d1, n)
  }

  function ParseInput(d: seq<Byte>): Option<(TxInput, seq<Byte>)> {
    var (prevHash, d1) :- TakeHash(d);
    var (prevIndex, d2) :- TakeU32(d1);
    var (script, d3) :- ParseScript(d2);
    var (sequence, d4) :- TakeU32(d3);
    Some((TxInput(prevHash, prevIndex, script, sequence), d4))
  }

  function ParseOutput(d: seq<Byte>): Option<(TxOutput, seq<Byte>)> {
    var (value, d1) :- Fixed(d, 8);
    var (script, d2) :- ParseScript(d1);
    Some((TxOutput(value, script), d2))
  }

  function ParseInputs(d: seq<Byte>, k: nat): Option<(seq<TxInput>, seq<Byte>)>
    decreases k
  {
    if k == 0 then Some(([], d))
    else
      var (first, d1) :- ParseInput(d);
      var (more, d2) :- ParseInputs(d1, k - 1);
      Some(([first] + more, d2))
  }

  function ParseOutputs(d: seq<Byte>, k: nat): Option<(seq<TxOutput>, seq<Byte>)>
    decreases k
  {
    if k == 0 then Some(([], d))
    else
      var (first, d1) :- ParseOutput(d);
      var (more, d2) :- ParseOutputs(d1, k - 1);
      Some(([first] + more, d2))
  }

  function ParseVin(d: seq<Byte>): Option<(seq<TxInput>, seq<Byte>)> {
    var (n, d1) :- ParseVarInt(d);
    ParseInputs(d1, n)
  }

  function ParseVout(d: seq<Byte>): Option<(seq<TxOutput>, seq<Byte>)> {
    var (n, d1) :- ParseVarInt(d);
    ParseOutputs(d1, n)
  }

  /** Version, inputs, outputs, lock time. */
  function ParseTx(d: seq<Byte>): Option<(Transaction, seq<Byte>)> {
    var (version, d1) :- TakeU32(d);
    var (inputs, d2) :- ParseVin(d1);
    var (outputs, d3) :- ParseVout(d2);
    var (lockTime, d4) :- TakeU32(d3);
    Some((Transaction(version, inputs, outputs, lockTime), d4))
  }

  function ParseHashes(d: seq<Byte>, k: nat): Option<(seq<Hash32>, seq<Byte>)>
    decreases k
  {
    if k == 0 then Some(([], d))
    else
      var (first, d1) :- TakeHash(d);
      var (more, d2) :- ParseHashes(d1, k - 1);
      Some(([first] + more, d2))
  }

  /** A merkle branch and the index that goes with it. */
  function ParseBranch(d: seq<Byte>): Option<((seq<seq<Byte>>, U32), seq<Byte>)> {
    var (n, d1) :- ParseVarInt(d);
    var (branch, d2) :- ParseHashes(d1, n);
    var (index, d3) :- TakeU32(d2);
    Some(((branch, index), d3))
  }

  /** Coinbase transaction, block hash, merkle branch and index, chain branch and index, parent header. */
  function ParseAux(d: seq<Byte>): Option<(AuxPow, seq<Byte>)> {
    var (coinbase, d1) :- ParseTx(d);
    var (blockHash, d2) :- TakeHash(d1);
    var (merkle, d3) :- ParseBranch(d2);
    var (chain, d4) :- ParseBranch(d3);
    var (parent, d5) :- TakeBytes(d4, 80);
    Some((AuxPow(Some(coinbase), blockHash, merkle.0, merkle.1, chain.0, chain.1, Some(ParseHeader(parent))), d5))
  }

  // ---------------------------------------------------------------- what the serializers wrote

  /** The length prefix alone: one byte below 0xfd, else a marker and the number in 2, 4 or 8 bytes, the fewest. */
  lemma VarIntForm(v: U64)
    ensures v < 0xfd ==> VarInt(v) == [v]
    ensures v >= 0xfd ==>
              && FromLE(VarInt(v)[1..]) == v
              && (VarInt(v)[0], |VarInt(v)|) == (if v < 0x1_0000 then (0xfd, 3)
                                                 else if v < 0x1_0000_0000 then (0xfe, 5) else (0xff, 9))
  {
    Pow256Small();
    if v >= 0xfd {
      var k := if v < 0x1_0000 then 2 else if v < 0x1_0000_0000 then 4 else 8;
      DecodeEncode(v, k);
      assert VarInt(v)[1..] == LE(v, k);
    }
  }

  lemma TakeExact(a: seq<Byte>, rest: seq<Byte>)
    ensures TakeBytes(a + rest, |a|) == Some((a, rest))
    ensures |a| == 32 ==> TakeHash(a + rest) == Some((a, rest))
  {
    assert (a + rest)[..|a|] == a && (a + rest)[|a|..] == rest;
  }

  lemma U32Exact(v: U32, rest: seq<Byte>)
    ensures TakeU32(LE(v, 4) + rest) == Some((v, rest))
  {
    Pow256Small();
    DecodeEncode(v, 4);
    assert (LE(v, 4) + rest)[..4] == LE(v, 4) && (LE(v, 4) + rest)[4..] == rest;
  }

  lemma ScriptContent(script: seq<Byte>, rest: seq<Byte>)
    requires FitsInt(|script|)
    ensures ParseScript(VarInt(|script|) + (script + rest)) == Some((script, rest))
  {
    hide VarInt, ParseVarInt;
    VarIntRoundTrip(|script|, script + rest);
    TakeExact(script, rest);
  }

  lemma InputContent(i: TxInput, rest: seq<Byte>)
    requires FitsInt(|i.scriptSig|)
    ensures ParseInput(InputBytes(i) + rest) == Some((i, rest))
  {
    hide VarInt, ParseScript, TakeU32, TakeHash, LE;
    var index, count, last := LE(i.prevIndex, 4), VarInt(|i.scriptSig|), LE(i.sequence, 4);
    AssocFive(i.prevHash + index, count, i.scriptSig, last, rest);
    Assoc(i.prevHash, index, count + (i.scriptSig + (last + rest)));
    TakeExact(i.prevHash, index + (count + (i.scriptSig + (last + rest))));
    U32Exact(i.prevIndex, count + (i.scriptSig + (last + rest)));
    ScriptContent(i.scriptSig, last + rest);
    U32Exact(i.sequence, rest);
  }

  lemma OutputContent(o: TxOutput, rest: seq<Byte>)
    requires FitsInt(|o.scriptPubKey|)
    ensures ParseOutput(OutputBytes(o) + rest) == Some((o, rest))
  {
    var count := VarInt(|o.scriptPubKey|);
    assert Pow256(8) == 0x1_0000_0000_0000_0000 by { Pow256Small(); }
    hide VarInt, ParseScript, Fixed, LE, Pow256;
    Assoc(LE(o.value, 8) + count, o.scriptPubKey, rest);
    Assoc(LE(o.value, 8), count, o.scriptPubKey + rest);
    FixedExact(o.value, 8, count + (o.scriptPubKey + rest));
    ScriptContent(o.scriptPubKey, rest);
  }

  lemma {:induction false} InputsContent(ins: seq<TxInput>, rest: seq<Byte>)
    requires forall i :: 0 <= i < |ins| ==> FitsInt(|ins[i].scriptSig|)
    ensures ParseInputs(InputsBytes(ins) + rest, |ins|) == Some((ins, rest))
    decreases |ins|
  {
    hide ParseInput, InputBytes;
    if ins == [] {
      assert InputsBytes(ins) + rest == rest;
    } else {
      var tail := InputsBytes(ins[1..]);
      Assoc(InputBytes(ins[0]), tail, rest);
      InputContent(ins[0], tail + rest);
      InputsContent(ins[1..], rest);
      assert ins == [ins[0]] + ins[1..];
    }
  }

  lemma {:induction false} OutputsContent(outs: seq<TxOutput>, rest: seq<Byte>)
    requires forall i :: 0 <= i < |outs| ==> FitsInt(|outs[i].scriptPubKey|)
    ensures ParseOutputs(OutputsBytes(outs) + rest, |outs|) == Some((outs, rest))
    decreases |outs|
  {
    hide ParseOutput, OutputBytes;
    if outs == [] {
      assert OutputsBytes(outs) + rest == rest;
    } else {
      var tail := OutputsBytes(outs[1..]);
      Assoc(OutputBytes(outs[0]), tail, rest);
      OutputContent(outs[0], tail + rest);
      OutputsContent(outs[1..], rest);
      assert outs == [outs[0]] + outs[1..];
    }
  }

  lemma VinContent(ins: seq<TxInput>, rest: seq<Byte>)
    requires FitsInt(|ins|) && forall i :: 0 <= i < |ins| ==> FitsInt(|ins[i].scriptSig|)
    ensures ParseVin(VarInt(|ins|) + InputsBytes(ins) + rest) == Some((ins, rest))
  {
    hide VarInt, ParseVarInt, ParseInputs, InputsBytes;
    Assoc(VarInt(|ins|), InputsBytes(ins), rest);
    VarIntRoundTrip(|ins|, InputsBytes(ins) + rest);
    InputsContent(ins, rest);
  }

  lemma VoutContent(outs: seq<TxOutput>, rest: seq<Byte>)
    requires FitsInt(|outs|) && forall i :: 0 <= i < |outs| ==> FitsInt(|outs[i].scriptPubKey|)
    ensures ParseVout(VarInt(|outs|) + OutputsBytes(outs) + rest) == Some((outs, rest))
  {
    hide VarInt, ParseVarInt, ParseOutputs, OutputsBytes;
    Assoc(VarInt(|outs|), OutputsBytes(outs), rest);
    VarIntRoundTrip(|outs|, OutputsBytes(outs) + rest);
    OutputsContent(outs, rest);
  }

  /** Where each field of a header stands in its 80 bytes. */
  lemma HeaderContent(h: RawHeader)
    ensures var b := Header80(h);
            && FromLE(b[0..4]) == h.version && b[4..36] == h.prev && b[36..68] == h.merkle
            && FromLE(b[68..72]) == h.time && FromLE(b[72..76]) == h.bits && FromLE(b[76..80]) == h.nonce
  {
    HeaderSlices(LE(h.version, 4), h.prev, h.merkle, LE(h.time, 4), LE(h.bits, 4), LE(h.nonce, 4));
    Pow256Small();
    hide LE, FromLE;
    DecodeEncode(h.version, 4);
    DecodeEncode(h.time, 4);
    DecodeEncode(h.bits, 4);
    DecodeEncode(h.nonce, 4);
  }

  /** Whoever parses what Transaction.Serialize wrote gets the transaction back, every field of it. */
  lemma TxContent(tx: Transaction, rest: seq<Byte>)
    requires SizedTx(tx)
    ensures ParseTx(TxBytes(tx) + rest) == Some((tx, rest))
  {
    var vin, vout := VarInt(|tx.inputs|) + InputsBytes(tx.inputs), VarInt(|tx.outputs|) + OutputsBytes(tx.outputs);
    hide VarInt, ParseVin, ParseVout, TakeU32, LE;
    var last := LE(tx.lockTime, 4);
    AssocFive(LE(tx.version, 4), vin, vout, last, rest);
    U32Exact(tx.version, vin + (vout + (last + rest)));
    VinContent(tx.inputs, vout + (last + rest));
    VoutContent(tx.outputs, last + rest);
    U32Exact(tx.lockTime, rest);
  }

  /** So two transactions with the same bytes are the same transaction. */
  lemma TxInjective(a: Transaction, b: Transaction)
    requires SizedTx(a) && SizedTx(b) && TxBytes(a) == TxBytes(b)
    ensures a == b
  {
    hide TxBytes, ParseTx;
    TxContent(a, []);
    TxContent(b, []);
  }

  lemma {:induction false} HashesContent(branch: seq<seq<Byte>>, rest: seq<Byte>)
    requires forall i :: 0 <= i < |branch| ==> |branch[i]| == 32
    ensures ParseHashes(BranchBytes(branch) + rest, |branch|) == Some((branch, rest))
    decreases |branch|
  {
    hide TakeHash;
    if branch == [] {
      assert BranchBytes(branch) + rest == rest;
    } else {
      var tail := BranchBytes(branch[1..]);
      Assoc(branch[0], tail, rest);
      TakeExact(branch[0], tail + rest);
      HashesContent(branch[1..], rest);
      assert branch == [branch[0]] + branch[1..];
    }
  }

  lemma BranchContent(branch: seq<seq<Byte>>, index: U32, rest: seq<Byte>)
    requires WellFormedBranch(branch)
    ensures ParseBranch(VarInt(|branch|) + BranchBytes(branch) + LE(index, 4) + rest) == Some(((branch, index), rest))
  {
    hide VarInt, ParseVarInt, ParseHashes, TakeU32, BranchBytes, LE;
    var count, body := VarInt(|branch|), BranchBytes(branch);
    Assoc(count + body, LE(index, 4), rest);
    Assoc(count, body, LE(index, 4) + rest);
    VarIntRoundTrip(|branch|, body + (LE(index, 4) + rest));
    HashesContent(branch, LE(index, 4) + rest);
    U32Exact(index, rest);
  }

  /** The AuxPoW a reader sees: a missing coinbase is an empty transaction, a missing parent a header of zeros. */
  function Filled(a: AuxPow): AuxPow {
    a.(coinbase := Some(if a.coinbase.Some? then a.coinbase.value else Transaction(0, [], [], 0)),
       parent := Some(if a.parent.Some? then a.parent.value else RawHeader(0, Zeros(32), Zeros(32), 0, 0, 0)))
  }

  lemma ZeroHeader()
    ensures ParseHeader(Zeros(80)) == RawHeader(0, Zeros(32), Zeros(32), 0, 0, 0)
  {
    hide U32At, Zeros;
    ZeroWord(0);
    ZeroWord(68);
    ZeroWord(72);
    ZeroWord(76);
    ZeroSlice(80, 4, 36);
    ZeroSlice(80, 36, 68);
  }

  lemma ZeroSlice(n: nat, from: nat, to: nat)
    requires from <= to <= n
    ensures Zeros(n)[from..to] == Zeros(to - from)
  {
  }

  lemma ZeroWord(at: nat)
    requires at <= 76
    ensures U32At(Zeros(80), at) == 0
  {
    hide Zeros;
    FromLEZeros(4);
    ZeroSlice(80, at, at + 4);
  }

  lemma ParentContent(parent: Option<RawHeader>, rest: seq<Byte>)
    ensures var bytes := if parent.Some? then Header80(parent.value) else Zeros(80);
            && |bytes| == 80 && TakeBytes(bytes + rest, 80) == Some((bytes, rest))
            && ParseHeader(bytes) == if parent.Some? then parent.value else RawHeader(0, Zeros(32), Zeros(32), 0, 0, 0)
  {
    hide ParseHeader, Header80, TakeBytes;
    if parent.Some? {
      HeaderRoundTrip(parent.value);
      TakeExact(Header80(parent.value), rest);
    } else {
      ZeroHeader();
      TakeExact(Zeros(80), rest);
    }
  }

  /** The same of AuxPow.Serialize, for branches of 32-byte hashes: block hash, both branches and both indices too. */
  lemma AuxContent(a: AuxPow, rest: seq<Byte>)
    requires WellFormedAux(a)
    ensures ParseAux(AuxBytes(a) + rest) == Some((Filled(a), rest))
  {
    var tx := if a.coinbase.Some? then a.coinbase.value else EMPTY_TX;
    var parent := if a.parent.Some? then Header80(a.parent.value) else Zeros(80);
    var merkle := VarInt(|a.merkleBranch|) + BranchBytes(a.merkleBranch) + LE(a.merkleIndex, 4);
    var chain := VarInt(|a.chainBranch|) + BranchBytes(a.chainBranch) + LE(a.chainIndex, 4);
    assert AuxBytes(a) == TxBytes(tx) + a.blockHash + merkle + chain + parent;
    var filled := Filled(a);
    assert filled.coinbase == Some(tx);
    hide VarInt, BranchBytes, LE, TxBytes, AuxBytes, ParseTx, TakeHash, ParseBranch, TakeBytes, ParseHeader, Header80;
    AssocFive(TxBytes(tx), a.blockHash, merkle, chain, parent + rest);
    Assoc(TxBytes(tx) + a.blockHash + merkle + chain, parent, rest);
    TxContent(tx, a.blockHash + (merkle + (chain + (parent + rest))));
    TakeExact(a.blockHash, merkle + (chain + (parent + rest)));
    BranchContent(a.merkleBranch, a.merkleIndex, chain + (parent + rest));
    BranchContent(a.chainBranch, a.chainIndex, parent + rest);
    ParentContent(a.parent, rest);
  }
}
