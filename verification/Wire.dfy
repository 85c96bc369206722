/** Bitcoin wire encoding: the serializers of block.go and headers.go, and the reader-side skipping
    of p2p.go that undoes them. */
module Wire {
  import opened Bytes

  // ---------------------------------------------------------------- what is written

  datatype TxInput = TxInput(prevHash: Hash32, prevIndex: U32, scriptSig: seq<Byte>, sequence: U32)
  datatype TxOutput = TxOutput(value: U64, scriptPubKey: seq<Byte>)
  datatype Transaction = Transaction(version: U32, inputs: seq<TxInput>, outputs: seq<TxOutput>, lockTime: U32)
  datatype RawHeader = RawHeader(version: U32, prev: Hash32, merkle: Hash32, time: U32, bits: U32, nonce: U32)
  datatype AuxPow = AuxPow(coinbase: Option<Transaction>, blockHash: Hash32, merkleBranch: seq<seq<Byte>>,
                           merkleIndex: U32, chainBranch: seq<seq<Byte>>, chainIndex: U32,
                           parent: Option<RawHeader>)

  function VarInt(v: U64): (s: seq<Byte>)
    ensures |s| >= 1
  {
    if v < 0xfd then [v]
    else if v <= 0xffff then [0xfd] + LE(v, 2)
    else if v <= 0xffff_ffff then [0xfe] + LE(v, 4)
    else [0xff] + LE(v, 8)
  }

  function Header80(h: RawHeader): (s: seq<Byte>)
    ensures |s| == 80
  {
    LE(h.version, 4) + h.prev + h.merkle + LE(h.time, 4) + LE(h.bits, 4) + LE(h.nonce, 4)
  }

  /** A Go slice length is an int. */
  predicate FitsInt(n: nat) { n < 0x8000_0000_0000_0000 }

  /** The lengths a transaction in memory can have. */
  predicate SizedTx(tx: Transaction) {
    && FitsInt(|tx.inputs|) && FitsInt(|tx.outputs|)
    && (forall i :: 0 <= i < |tx.inputs| ==> FitsInt(|tx.inputs[i].scriptSig|))
    && (forall i :: 0 <= i < |tx.outputs| ==> FitsInt(|tx.outputs[i].scriptPubKey|))
  }

  function InputBytes(i: TxInput): seq<Byte>
    requires FitsInt(|i.scriptSig|)
  {
    i.prevHash + LE(i.prevIndex, 4) + VarInt(|i.scriptSig|) + i.scriptSig + LE(i.sequence, 4)
  }

  function OutputBytes(o: TxOutput): seq<Byte>
    requires FitsInt(|o.scriptPubKey|)
  {
    LE(o.value, 8) + VarInt(|o.scriptPubKey|) + o.scriptPubKey
  }

  function InputsBytes(ins: seq<TxInput>): seq<Byte>
    requires forall i :: 0 <= i < |ins| ==> FitsInt(|ins[i].scriptSig|)
  {
    if ins == [] then [] else InputBytes(ins[0]) + InputsBytes(ins[1..])
  }

  function OutputsBytes(outs: seq<TxOutput>): seq<Byte>
    requires forall i :: 0 <= i < |outs| ==> FitsInt(|outs[i].scriptPubKey|)
  {
    if outs == [] then [] else OutputBytes(outs[0]) + OutputsBytes(outs[1..])
  }

  function TxBytes(tx: Transaction): seq<Byte>
    requires SizedTx(tx)
  {
    LE(tx.version, 4) + (VarInt(|tx.inputs|) + InputsBytes(tx.inputs))
    + (VarInt(|tx.outputs|) + OutputsBytes(tx.outputs)) + LE(tx.lockTime, 4)
  }

  const EMPTY_TX := Transaction(0, [], [], 0)

  function BranchBytes(branch: seq<seq<Byte>>): seq<Byte> {
    if branch == [] then [] else branch[0] + BranchBytes(branch[1..])
  }

  /** Every hash of a branch is 32 bytes. A Go slice of that many slices cannot reach 2^58 elements. */
  predicate WellFormedBranch(branch: seq<seq<Byte>>) {
    |branch| < 0x400_0000_0000_0000 && forall i :: 0 <= i < |branch| ==> |branch[i]| == 32
  }

  predicate SizedAux(a: AuxPow) {
    && (a.coinbase.Some? ==> SizedTx(a.coinbase.value))
    && FitsInt(|a.merkleBranch|) && FitsInt(|a.chainBranch|)
  }

  predicate WellFormedAux(a: AuxPow) {
    && SizedAux(a)
    && WellFormedBranch(a.merkleBranch) && WellFormedBranch(a.chainBranch)
  }

  /** A missing coinbase is written as an empty transaction, a missing parent header as zeros. */
  function AuxBytes(a: AuxPow): seq<Byte>
    requires SizedAux(a)
  {
    TxBytes(if a.coinbase.Some? then a.coinbase.value else EMPTY_TX) + a.blockHash
    + (VarInt(|a.merkleBranch|) + BranchBytes(a.merkleBranch) + LE(a.merkleIndex, 4))
    + (VarInt(|a.chainBranch|) + BranchBytes(a.chainBranch) + LE(a.chainIndex, 4))
    + (if a.parent.Some? then Header80(a.parent.value) else Zeros(80))
  }

  // ---------------------------------------------------------------- hashes as text

  /** hexTo32Bytes: 64 digits, reversed. */
  function HashFromHex(s: string): Option<Hash32> {
    var b :- HexDecode(s);
    if |b| != 32 then None else Some(Rev(b))
  }

  method HexTo32Bytes(s: string) returns (r: Option<Hash32>)
    ensures r == HashFromHex(s)
  {
    var decoded := HexDecode(s);
    if decoded.None? || |decoded.value| != 32 {
      return None;
    }
    ghost var b := decoded.value;
    var result := new Byte[32](i requires 0 <= i < 32 => decoded.value[i]);
    for i := 0 to 16
      invariant forall k :: 0 <= k < i ==> result[k] == b[31 - k] && result[31 - k] == b[k]
      invariant forall k :: i <= k < 32 - i ==> result[k] == b[k]
    {
      result[i], result[31 - i] := result[31 - i], result[i];
    }
    assert result[..] == Rev(b);
    return Some(result[..]);
  }

  /** The display text of a hash parses back to it. */
  lemma DisplayHexParses(h: Hash32)
    ensures HashFromHex(DisplayHex(h)) == Some(h)
  {
    HexRoundTrip(Rev(h));
    RevRev(h);
  }

  // ---------------------------------------------------------------- what is read
  // A reader is the bytes it has left. None is the error return.

  function Skip(d: seq<Byte>, n: int): Option<seq<Byte>> {
    // io.CopyN returns without error, and without reading, when n is negative
    if n < 0 then Some(d) else if n <= |d| then Some(d[n..]) else None
  }

  function Fixed(d: seq<Byte>, k: nat): Option<(U64, seq<Byte>)>
    requires k <= 8
  {
    if |d| < k then None
    else
      FromLEBound(d[..k]);
      Pow256Monotone(k, 8);
      Pow256Small();
      Some((FromLE(d[..k]), d[k..]))
  }

  function ParseVarInt(d: seq<Byte>): Option<(U64, seq<Byte>)> {
    if d == [] then None
    else if d[0] == 0xfd then Fixed(d[1..], 2)
    else if d[0] == 0xfe then Fixed(d[1..], 4)
    else if d[0] == 0xff then Fixed(d[1..], 8)
    else Some((d[0], d[1..]))
  }

  function SkipScript(d: seq<Byte>): Option<seq<Byte>> {
    var (len, r) :- ParseVarInt(d);
    Skip(r, ToInt64(len))
  }

  function SkipInput(d: seq<Byte>): Option<seq<Byte>> {
    var d1 :- Skip(d, 36);
    var d2 :- SkipScript(d1);
    Skip(d2, 4)
  }

  function SkipOutput(d: seq<Byte>): Option<seq<Byte>> {
    var d1 :- Skip(d, 8);
    SkipScript(d1)
  }

  function SkipInputs(d: seq<Byte>, k: nat): Option<seq<Byte>>
    decreases k
  {
    if k == 0 then Some(d)
    else
      var r :- SkipInput(d);
      SkipInputs(r, k - 1)
  }

  function SkipOutputs(d: seq<Byte>, k: nat): Option<seq<Byte>>
    decreases k
  {
    if k == 0 then Some(d)
    else
      var r :- SkipOutput(d);
      SkipOutputs(r, k - 1)
  }

  function SkipTx(d: seq<Byte>): Option<seq<Byte>> {
    var d1 :- Skip(d, 4);
    var d2 :- SkipVin(d1);
    var d3 :- SkipVout(d2);
    Skip(d3, 4)
  }

  function SkipVin(d: seq<Byte>): Option<seq<Byte>> {
    var (n, r) :- ParseVarInt(d);
    SkipInputs(r, n)
  }

  function SkipVout(d: seq<Byte>): Option<seq<Byte>> {
    var (n, r) :- ParseVarInt(d);
    SkipOutputs(r, n)
  }

  /** int64(n * 32) for a uint64 n. */
  function BranchSkip(n: U64): int {
    ToInt64(n * 32 % 0x1_0000_0000_0000_0000)
  }

  function SkipHashes(d: seq<Byte>): Option<seq<Byte>> {
    var (n, r) :- ParseVarInt(d);
    Skip(r, BranchSkip(n))
  }

  function SkipBranch(d: seq<Byte>): Option<seq<Byte>> {
    var r :- SkipHashes(d);
    Skip(r, 4)
  }

  function SkipAux(d: seq<Byte>): Option<seq<Byte>> {
    var d1 :- SkipTx(d);
    var d2 :- Skip(d1, 32);
    var d3 :- SkipBranch(d2);
    var d4 :- SkipBranch(d3);
    Skip(d4, 80)
  }

  // ---------------------------------------------------------------- round trips

  lemma SkipExact(a: seq<Byte>, rest: seq<Byte>, n: int)
    requires n == |a|
    ensures Skip(a + rest, n) == Some(rest)
  {
    assert (a + rest)[n..] == rest;
  }

  lemma FixedExact(v: nat, k: nat, rest: seq<Byte>)
    requires k <= 8 && v < Pow256(k)
    ensures Fixed(LE(v, k) + rest, k) == Some((v, rest))
  {
    assert (LE(v, k) + rest)[..k] == LE(v, k);
    assert (LE(v, k) + rest)[k..] == rest;
    DecodeEncode(v, k);
  }

  /** Reading a varint gives back the number written and leaves exactly what followed. */
  lemma VarIntRoundTrip(v: U64, rest: seq<Byte>)
    ensures ParseVarInt(VarInt(v) + rest) == Some((v, rest))
  {
    var k := if v < 0xfd then 0 else if v <= 0xffff then 2 else if v <= 0xffff_ffff then 4 else 8;
    if k == 0 {
      assert ([v] + rest)[1..] == rest;
    } else {
      Pow256Small();
      FixedExact(v, k, rest);
      assert (VarInt(v) + rest)[1..] == LE(v, k) + rest;
    }
  }

  lemma ScriptRoundTrip(script: seq<Byte>, rest: seq<Byte>)
    requires FitsInt(|script|)
    ensures SkipScript(VarInt(|script|) + (script + rest)) == Some(rest)
  {
    VarIntRoundTrip(|script|, script + rest);
    SkipExact(script, rest, |script|);
  }

  lemma InputRoundTrip(i: TxInput, rest: seq<Byte>)
    requires FitsInt(|i.scriptSig|)
    ensures SkipInput(InputBytes(i) + rest) == Some(rest)
  {
    var point, last := i.prevHash + LE(i.prevIndex, 4), LE(i.sequence, 4);
    AssocFive(point, VarInt(|i.scriptSig|), i.scriptSig, last, rest);
    SkipExact(point, VarInt(|i.scriptSig|) + (i.scriptSig + (last + rest)), 36);
    ScriptRoundTrip(i.scriptSig, last + rest);
    SkipExact(last, rest, 4);
  }

  lemma OutputRoundTrip(o: TxOutput, rest: seq<Byte>)
    requires FitsInt(|o.scriptPubKey|)
    ensures SkipOutput(OutputBytes(o) + rest) == Some(rest)
  {
    var body := VarInt(|o.scriptPubKey|) + (o.scriptPubKey + rest);
    assert OutputBytes(o) + rest == LE(o.value, 8) + body;
    SkipExact(LE(o.value, 8), body, 8);
    ScriptRoundTrip(o.scriptPubKey, rest);
  }

  lemma {:induction false} InputsRoundTrip(ins: seq<TxInput>, rest: seq<Byte>)
    requires forall i :: 0 <= i < |ins| ==> FitsInt(|ins[i].scriptSig|)
    ensures SkipInputs(InputsBytes(ins) + rest, |ins|) == Some(rest)
    decreases |ins|
  {
    if ins == [] {
      assert InputsBytes(ins) + rest == rest;
    } else {
      var tail := InputsBytes(ins[1..]);
      assert InputBytes(ins[0]) + tail + rest == InputBytes(ins[0]) + (tail + rest);
      InputRoundTrip(ins[0], tail + rest);
      InputsRoundTrip(ins[1..], rest);
    }
  }

  lemma {:induction false} OutputsRoundTrip(outs: seq<TxOutput>, rest: seq<Byte>)
    requires forall i :: 0 <= i < |outs| ==> FitsInt(|outs[i].scriptPubKey|)
    ensures SkipOutputs(OutputsBytes(outs) + rest, |outs|) == Some(rest)
    decreases |outs|
  {
    if outs == [] {
      assert OutputsBytes(outs) + rest == rest;
    } else {
      var tail := OutputsBytes(outs[1..]);
      assert OutputBytes(outs[0]) + tail + rest == OutputBytes(outs[0]) + (tail + rest);
      OutputRoundTrip(outs[0], tail + rest);
      OutputsRoundTrip(outs[1..], rest);
    }
  }

  /** skipTransaction consumes exactly what Transaction.Serialize wrote, whatever follows. */
  lemma TxRoundTrip(tx: Transaction, rest: seq<Byte>)
    requires SizedTx(tx)
    ensures SkipTx(TxBytes(tx) + rest) == Some(rest)
  {
    var vin, vout := VarInt(|tx.inputs|) + InputsBytes(tx.inputs), VarInt(|tx.outputs|) + OutputsBytes(tx.outputs);
    var last := LE(tx.lockTime, 4);
    AssocFive(LE(tx.version, 4), vin, vout, last, rest);
    SkipExact(LE(tx.version, 4), vin + (vout + (last + rest)), 4);
    VinRoundTrip(tx, vout + (last + rest));
    VoutRoundTrip(tx, last + rest);
    SkipExact(last, rest, 4);
  }

  lemma AssocFive(a: seq<Byte>, b: seq<Byte>, c: seq<Byte>, d: seq<Byte>, e: seq<Byte>)
    ensures a + b + c + d + e == a + (b + (c + (d + e)))
  {
  }

  lemma VinRoundTrip(tx: Transaction, rest: seq<Byte>)
    requires SizedTx(tx)
    ensures SkipVin(VarInt(|tx.inputs|) + InputsBytes(tx.inputs) + rest) == Some(rest)
  {
    var body := InputsBytes(tx.inputs);
    assert VarInt(|tx.inputs|) + body + rest == VarInt(|tx.inputs|) + (body + rest);
    VarIntRoundTrip(|tx.inputs|, body + rest);
    InputsRoundTrip(tx.inputs, rest);
  }

  lemma VoutRoundTrip(tx: Transaction, rest: seq<Byte>)
    requires SizedTx(tx)
    ensures SkipVout(VarInt(|tx.outputs|) + OutputsBytes(tx.outputs) + rest) == Some(rest)
  {
    var body := OutputsBytes(tx.outputs);
    assert VarInt(|tx.outputs|) + body + rest == VarInt(|tx.outputs|) + (body + rest);
    VarIntRoundTrip(|tx.outputs|, body + rest);
    OutputsRoundTrip(tx.outputs, rest);
  }

  lemma {:induction false} BranchLength(branch: seq<seq<Byte>>)
    requires forall i :: 0 <= i < |branch| ==> |branch[i]| == 32
    ensures |BranchBytes(branch)| == 32 * |branch|
  {
    if branch != [] {
      BranchLength(branch[1..]);
    }
  }

  lemma BranchRoundTrip(branch: seq<seq<Byte>>, index: U32, rest: seq<Byte>)
    requires WellFormedBranch(branch)
    ensures SkipBranch(VarInt(|branch|) + BranchBytes(branch) + LE(index, 4) + rest) == Some(rest)
  {
    BranchLength(branch);
    CountedBody(|branch|, BranchBytes(branch), LE(index, 4), rest);
  }

  lemma CountedBody(n: nat, body: seq<Byte>, index: seq<Byte>, rest: seq<Byte>)
    requires n < 0x400_0000_0000_0000 && |body| == 32 * n && |index| == 4
    ensures SkipBranch(VarInt(n) + body + index + rest) == Some(rest)
  {
    hide VarInt, ParseVarInt, Skip;
    Assoc(VarInt(n) + body, index, rest);
    Assoc(VarInt(n), body, index + rest);
    VarIntRoundTrip(n, body + (index + rest));
    SkipExact(body, index + rest, BranchSkip(n));
    SkipExact(index, rest, 4);
  }

  /** skipAuxPow consumes exactly what AuxPow.Serialize wrote, whatever follows. */
  lemma AuxRoundTrip(a: AuxPow, rest: seq<Byte>)
    requires WellFormedAux(a)
    ensures SkipAux(AuxBytes(a) + rest) == Some(rest)
  {
    var tx := if a.coinbase.Some? then a.coinbase.value else EMPTY_TX;
    var parent := if a.parent.Some? then Header80(a.parent.value) else Zeros(80);
    var merkle := VarInt(|a.merkleBranch|) + BranchBytes(a.merkleBranch) + LE(a.merkleIndex, 4);
    var chain := VarInt(|a.chainBranch|) + BranchBytes(a.chainBranch) + LE(a.chainIndex, 4);
    var r := parent + rest;
    TxRoundTrip(tx, a.blockHash + (merkle + (chain + r)));
    BranchRoundTrip(a.merkleBranch, a.merkleIndex, chain + r);
    BranchRoundTrip(a.chainBranch, a.chainIndex, r);
    AuxParts(TxBytes(tx), a.blockHash, merkle, chain, parent, rest);
  }

  lemma AuxParts(tx: seq<Byte>, hash: Hash32, merkle: seq<Byte>, chain: seq<Byte>, parent: seq<Byte>, rest: seq<Byte>)
    requires |parent| == 80
    requires SkipTx(tx + (hash + (merkle + (chain + (parent + rest)))))
             == Some(hash + (merkle + (chain + (parent + rest))))
    requires SkipBranch(merkle + (chain + (parent + rest))) == Some(chain + (parent + rest))
    requires SkipBranch(chain + (parent + rest)) == Some(parent + rest)
    ensures SkipAux(tx + hash + merkle + chain + parent + rest) == Some(rest)
  {
    AssocFive(tx, hash, merkle, chain, parent + rest);
    assert tx + hash + merkle + chain + parent + rest == tx + hash + merkle + chain + (parent + rest);
    SkipExact(hash, merkle + (chain + (parent + rest)), 32);
    SkipExact(parent, rest, 80);
  }

  /** A claimed script length of 2^63 or more is a negative int64 and skips nothing; so does a branch of a multiple of
      2^59 hashes, whose length in bytes wraps to zero. */
  lemma WrappedLengths(n: U64, rest: seq<Byte>)
    ensures n >= 0x8000_0000_0000_0000 ==> SkipScript(VarInt(n) + rest) == Some(rest)
    ensures n % 0x800_0000_0000_0000 == 0 ==> SkipHashes(VarInt(n) + rest) == Some(rest)
  {
    hide VarInt, ParseVarInt;
    VarIntRoundTrip(n, rest);
    if n % 0x800_0000_0000_0000 == 0 {
      var k := n / 0x800_0000_0000_0000;
      assert n * 32 == 0x1_0000_0000_0000_0000 * k;
      assert BranchSkip(n) == 0;
    }
  }

  // ---------------------------------------------------------------- progress on arbitrary bytes

  /** `r` is what is left of `d` after reading at least `k` bytes. */
  ghost predicate Advanced(d: seq<Byte>, r: seq<Byte>, k: nat) {
    |r| + k <= |d| && r == d[|d| - |r|..]
  }

  lemma AdvancedTwice(d: seq<Byte>, e: seq<Byte>, r: seq<Byte>, j: nat, k: nat)
    requires Advanced(d, e, j) && Advanced(e, r, k)
    ensures Advanced(d, r, j + k)
  {
  }

  lemma VarIntProgress(d: seq<Byte>)
    ensures ParseVarInt(d).Some? ==> Advanced(d, ParseVarInt(d).value.1, 1)
  {
  }

  lemma SkipProgress(d: seq<Byte>, n: int)
    ensures Skip(d, n).Some? ==> Advanced(d, Skip(d, n).value, if n < 0 then 0 else n)
  {
  }

  lemma ScriptProgress(d: seq<Byte>)
    ensures SkipScript(d).Some? ==> Advanced(d, SkipScript(d).value, 1)
  {
    if SkipScript(d).Some? {
      VarIntProgress(d);
      var (len, r) := ParseVarInt(d).value;
      SkipProgress(r, ToInt64(len));
      AdvancedTwice(d, r, SkipScript(d).value, 1, 0);
    }
  }

  /** An input takes at least 41 bytes, even when its script length wraps to a negative skip. */
  lemma InputProgress(d: seq<Byte>)
    ensures SkipInput(d).Some? ==> Advanced(d, SkipInput(d).value, 41)
  {
    if SkipInput(d).Some? {
      var d1 := Skip(d, 36).value;
      var d2 := SkipScript(d1).value;
      SkipProgress(d, 36);
      ScriptProgress(d1);
      SkipProgress(d2, 4);
      AdvancedTwice(d, d1, d2, 36, 1);
      AdvancedTwice(d, d2, SkipInput(d).value, 37, 4);
    }
  }

  /** An output takes at least 9 bytes. */
  lemma OutputProgress(d: seq<Byte>)
    ensures SkipOutput(d).Some? ==> Advanced(d, SkipOutput(d).value, 9)
  {
    if SkipOutput(d).Some? {
      var d1 := Skip(d, 8).value;
      SkipProgress(d, 8);
      ScriptProgress(d1);
      AdvancedTwice(d, d1, SkipOutput(d).value, 8, 1);
    }
  }

  lemma {:induction false} InputsProgress(d: seq<Byte>, k: nat)
    ensures SkipInputs(d, k).Some? ==> Advanced(d, SkipInputs(d, k).value, 41 * k)
    decreases k
  {
    if k > 0 && SkipInput(d).Some? {
      var e := SkipInput(d).value;
      InputProgress(d);
      InputsProgress(e, k - 1);
      if SkipInputs(e, k - 1).Some? {
        AdvancedTwice(d, e, SkipInputs(e, k - 1).value, 41, 41 * (k - 1));
      }
    }
  }

  lemma {:induction false} OutputsProgress(d: seq<Byte>, k: nat)
    ensures SkipOutputs(d, k).Some? ==> Advanced(d, SkipOutputs(d, k).value, 9 * k)
    decreases k
  {
    if k > 0 && SkipOutput(d).Some? {
      var e := SkipOutput(d).value;
      OutputProgress(d);
      OutputsProgress(e, k - 1);
      if SkipOutputs(e, k - 1).Some? {
        AdvancedTwice(d, e, SkipOutputs(e, k - 1).value, 9, 9 * (k - 1));
      }
    }
  }

  /** Loop iterations completed for a claimed count, successful or not. */
  function InputIterations(d: seq<Byte>, claimed: nat): nat
    decreases claimed
  {
    if claimed == 0 || SkipInput(d).None? then 0
    else 1 + InputIterations(SkipInput(d).value, claimed - 1)
  }

  function OutputIterations(d: seq<Byte>, claimed: nat): nat
    decreases claimed
  {
    if claimed == 0 || SkipOutput(d).None? then 0
    else 1 + OutputIterations(SkipOutput(d).value, claimed - 1)
  }

  /** Whatever count the bytes claim, the loop body completes at most remaining/41 times; it completes
      every claimed iteration exactly when the skip succeeds. */
  lemma {:induction false} InputIterationsBounded(d: seq<Byte>, claimed: nat)
    ensures 41 * InputIterations(d, claimed) <= |d|
    ensures SkipInputs(d, claimed).Some? <==> InputIterations(d, claimed) == claimed
    decreases claimed
  {
    if claimed > 0 && SkipInput(d).Some? {
      InputProgress(d);
      InputIterationsBounded(SkipInput(d).value, claimed - 1);
    }
  }

  lemma {:induction false} OutputIterationsBounded(d: seq<Byte>, claimed: nat)
    ensures 9 * OutputIterations(d, claimed) <= |d|
    ensures SkipOutputs(d, claimed).Some? <==> OutputIterations(d, claimed) == claimed
    decreases claimed
  {
    if claimed > 0 && SkipOutput(d).Some? {
      OutputProgress(d);
      OutputIterationsBounded(SkipOutput(d).value, claimed - 1);
    }
  }

  /** A transaction takes at least ten bytes and skipping never moves backwards. */
  lemma TxProgress(d: seq<Byte>)
    ensures SkipTx(d).Some? ==> Advanced(d, SkipTx(d).value, 10)
  {
    if SkipTx(d).Some? {
      var d1 := Skip(d, 4).value;
      var d2 := SkipVin(d1).value;
      var d3 := SkipVout(d2).value;
      SkipProgress(d, 4);
      VinProgress(d1);
      VoutProgress(d2);
      SkipProgress(d3, 4);
      AdvancedTwice(d, d1, d2, 4, 1);
      AdvancedTwice(d, d2, d3, 5, 1);
      AdvancedTwice(d, d3, SkipTx(d).value, 6, 4);
    }
  }

  lemma VinProgress(d: seq<Byte>)
    ensures SkipVin(d).Some? ==> Advanced(d, SkipVin(d).value, 1)
  {
    if SkipVin(d).Some? {
      VarIntProgress(d);
      var (n, r) := ParseVarInt(d).value;
      InputsProgress(r, n);
      AdvancedTwice(d, r, SkipVin(d).value, 1, 41 * n);
    }
  }

  lemma VoutProgress(d: seq<Byte>)
    ensures SkipVout(d).Some? ==> Advanced(d, SkipVout(d).value, 1)
  {
    if SkipVout(d).Some? {
      VarIntProgress(d);
      var (n, r) := ParseVarInt(d).value;
      OutputsProgress(r, n);
      AdvancedTwice(d, r, SkipVout(d).value, 1, 9 * n);
    }
  }

  lemma BranchProgress(d: seq<Byte>)
    ensures SkipBranch(d).Some? ==> Advanced(d, SkipBranch(d).value, 5)
  {
    if SkipBranch(d).Some? {
      VarIntProgress(d);
      var (n, r) := ParseVarInt(d).value;
      var e := SkipHashes(d).value;
      SkipProgress(r, BranchSkip(n));
      SkipProgress(e, 4);
      AdvancedTwice(d, r, e, 1, 0);
      AdvancedTwice(d, e, SkipBranch(d).value, 1, 4);
    }
  }

  /** An AuxPoW takes at least 132 bytes, whatever lengths the bytes claim. */
  lemma AuxProgress(d: seq<Byte>)
    ensures SkipAux(d).Some? ==> Advanced(d, SkipAux(d).value, 132)
  {
    if SkipAux(d).Some? {
      var d1 := SkipTx(d).value;
      var d2 := Skip(d1, 32).value;
      var d3 := SkipBranch(d2).value;
      var d4 := SkipBranch(d3).value;
      TxProgress(d);
      SkipProgress(d1, 32);
      BranchProgress(d2);
      BranchProgress(d3);
      SkipProgress(d4, 80);
      AdvancedTwice(d, d1, d2, 10, 32);
      AdvancedTwice(d, d2, d3, 42, 5);
      AdvancedTwice(d, d3, d4, 47, 5);
      AdvancedTwice(d, d4, SkipAux(d).value, 52, 80);
    }
  }

  // ---------------------------------------------------------------- the reader and its loops

  /** What a reader has left after a call: nothing once the call failed. */
  function Left(o: Option<seq<Byte>>): seq<Byte> {
    if o.Some? then o.value else []
  }

  class Reader {
    var rest: seq<Byte>

    constructor (data: seq<Byte>)
      ensures rest == data
    {
      rest := data;
    }

    /** io.CopyN(io.Discard, r, n): a short reader is drained and reported. */
    method Discard(n: int) returns (ok: bool)
      modifies this
      ensures ok == Skip(old(rest), n).Some? && rest == Left(Skip(old(rest), n))
    {
      ok := n <= |rest|;
      if n >= 0 {
        rest := if ok then rest[n..] else [];
      }
    }

    method ReadFull(k: nat) returns (bytes: Option<seq<Byte>>)
      modifies this
      ensures bytes == if |old(rest)| >= k then Some(old(rest)[..k]) else None
      ensures rest == if |old(rest)| >= k then old(rest)[k..] else []
    {
      if |rest| < k {
        rest := [];
        return None;
      }
      bytes := Some(rest[..k]);
      rest := rest[k..];
    }

    method ReadFixed(k: nat) returns (v: Option<U64>)
      requires k <= 8
      modifies this
      ensures v.Some? == Fixed(old(rest), k).Some?
      ensures v.Some? ==> (v.value, rest) == Fixed(old(rest), k).value
      ensures v.None? ==> rest == []
    {
      var parsed := Fixed(rest, k);
      if parsed.Some? {
        v, rest := Some(parsed.value.0), parsed.value.1;
      } else {
        v, rest := None, [];
      }
    }

    method ReadVarInt() returns (v: Option<U64>)
      modifies this
      ensures v.Some? == ParseVarInt(old(rest)).Some?
      ensures v.Some? ==> (v.value, rest) == ParseVarInt(old(rest)).value
      ensures v.None? ==> rest == []
    {
      if rest == [] {
        return None;
      }
      var b := rest[0];
      rest := rest[1..];
      match b
      case 0xfd => v := ReadFixed(2);
      case 0xfe => v := ReadFixed(4);
      case 0xff => v := ReadFixed(8);
      case _ => v := Some(b);
    }
  }

  /** skipTransaction. Both loops are bounded by the bytes left, not by the claimed counts. */
  method SkipTransaction(r: Reader) returns (ok: bool)
    modifies r
    ensures ok == SkipTx(old(r.rest)).Some? && r.rest == Left(SkipTx(old(r.rest)))
  {
    ok := r.Discard(4);
    if !ok { return; }
    ok := SkipInputLoop(r);
    if !ok { return; }
    ok := SkipOutputLoop(r);
    if !ok { return; }
    ok := r.Discard(4);
  }

  method SkipInputLoop(r: Reader) returns (ok: bool)
    modifies r
    ensures ok == SkipVin(old(r.rest)).Some? && r.rest == Left(SkipVin(old(r.rest)))
  {
    hide SkipInput, SkipInputs, ParseVarInt;
    var nVin := r.ReadVarInt();
    if nVin.None? { return false; }
    var i := 0;
    while i < nVin.value
      invariant 0 <= i <= nVin.value
      invariant SkipInputs(r.rest, nVin.value - i) == SkipVin(old(r.rest))
      decreases |r.rest|
    {
      InputStep(r.rest, nVin.value - i);
      ok := SkipOneInput(r);
      if !ok { return; }
      i := i + 1;
    }
    NothingToSkip(r.rest);
    ok := true;
  }

  lemma NothingToSkip(d: seq<Byte>)
    ensures SkipInputs(d, 0) == Some(d) && SkipOutputs(d, 0) == Some(d)
  {
  }

  lemma InputStep(d: seq<Byte>, k: nat)
    requires k > 0
    ensures SkipInputs(d, k) == if SkipInput(d).Some? then SkipInputs(SkipInput(d).value, k - 1) else None
    ensures |Left(SkipInput(d))| < |d| || SkipInput(d).None?
  {
    InputProgress(d);
  }

  lemma OutputStep(d: seq<Byte>, k: nat)
    requires k > 0
    ensures SkipOutputs(d, k) == if SkipOutput(d).Some? then SkipOutputs(SkipOutput(d).value, k - 1) else None
    ensures |Left(SkipOutput(d))| < |d| || SkipOutput(d).None?
  {
    OutputProgress(d);
  }

  method SkipOneInput(r: Reader) returns (ok: bool)
    modifies r
    ensures ok == SkipInput(old(r.rest)).Some? && r.rest == Left(SkipInput(old(r.rest)))
  {
    ok := r.Discard(36);
    if !ok { return; }
    ok := SkipScriptBytes(r);
    if !ok { return; }
    ok := r.Discard(4);
  }

  method SkipScriptBytes(r: Reader) returns (ok: bool)
    modifies r
    ensures ok == SkipScript(old(r.rest)).Some? && r.rest == Left(SkipScript(old(r.rest)))
  {
    var len := r.ReadVarInt();
    if len.None? { return false; }
    ok := r.Discard(ToInt64(len.value));
  }

  method SkipOutputLoop(r: Reader) returns (ok: bool)
    modifies r
    ensures ok == SkipVout(old(r.rest)).Some? && r.rest == Left(SkipVout(old(r.rest)))
  {
    hide SkipOutput, SkipOutputs, ParseVarInt;
    var nVout := r.ReadVarInt();
    if nVout.None? { return false; }
    var i := 0;
    while i < nVout.value
      invariant 0 <= i <= nVout.value
      invariant SkipOutputs(r.rest, nVout.value - i) == SkipVout(old(r.rest))
      decreases |r.rest|
    {
      OutputStep(r.rest, nVout.value - i);
      ok := SkipOneOutput(r);
      if !ok { return; }
      i := i + 1;
    }
    NothingToSkip(r.rest);
    ok := true;
  }

  method SkipOneOutput(r: Reader) returns (ok: bool)
    modifies r
    ensures ok == SkipOutput(old(r.rest)).Some? && r.rest == Left(SkipOutput(old(r.rest)))
  {
    ok := r.Discard(8);
    if !ok { return; }
    ok := SkipScriptBytes(r);
  }

  method SkipBranchBytes(r: Reader) returns (ok: bool)
    modifies r
    ensures ok == SkipBranch(old(r.rest)).Some? && r.rest == Left(SkipBranch(old(r.rest)))
  {
    var n := r.ReadVarInt();
    if n.None? { return false; }
    ok := r.Discard(BranchSkip(n.value));
    if !ok { return; }
    ok := r.Discard(4);
  }

  method SkipAuxPow(r: Reader) returns (ok: bool)
    modifies r
    ensures ok == SkipAux(old(r.rest)).Some? && r.rest == Left(SkipAux(old(r.rest)))
  {
    ok := SkipTransaction(r);
    if !ok { return; }
    ok := r.Discard(32);
    if !ok { return; }
    ok := SkipBranchBytes(r);
    if !ok { return; }
    ok := SkipBranchBytes(r);
    if !ok { return; }
    ok := r.Discard(80);
  }

  // ---------------------------------------------------------------- the writer and its loops

  /** copy(buf[at:], b) */
  method CopyAt(buf: array<Byte>, at: nat, b: seq<Byte>)
    requires at + |b| <= buf.Length
    modifies buf
    ensures buf[..] == old(buf[..at]) + b + old(buf[at + |b|..])
  {
    ghost var was := buf[..];
    for i := 0 to |b|
      invariant forall k :: 0 <= k < i ==> buf[at + k] == b[k]
      invariant forall k :: 0 <= k < buf.Length && !(at <= k < at + i) ==> buf[k] == was[k]
    {
      buf[at + i] := b[i];
    }
    assert buf[..] == was[..at] + b + was[at + |b|..];
  }

  /** BlockHeader.Serialize: six fields written into an 80-byte buffer. */
  method SerializeHeader(h: RawHeader) returns (buf: array<Byte>)
    ensures fresh(buf) && buf[..] == Header80(h)
  {
    hide LE;
    buf := new Byte[80](_ => 0);
    CopyAt(buf, 0, LE(h.version, 4));
    CopyAt(buf, 4, h.prev);
    CopyAt(buf, 36, h.merkle);
    assert buf[..68] == LE(h.version, 4) + h.prev + h.merkle;
    CopyAt(buf, 68, LE(h.time, 4));
    CopyAt(buf, 72, LE(h.bits, 4));
    CopyAt(buf, 76, LE(h.nonce, 4));
    assert buf[..] == buf[..68] + LE(h.time, 4) + LE(h.bits, 4) + LE(h.nonce, 4);
  }

  class ByteBuffer {
    var bytes: seq<Byte>

    constructor ()
      ensures bytes == []
    {
      bytes := [];
    }

    method Write(b: seq<Byte>)
      modifies this
      ensures bytes == old(bytes) + b
    {
      bytes := bytes + b;
    }
  }

  method WriteVarInt(buf: ByteBuffer, v: U64)
    modifies buf
    ensures buf.bytes == old(buf.bytes) + VarInt(v)
  {
    ghost var head := buf.bytes;
    if v < 0xfd {
      buf.Write([v]);
    } else if v <= 0xffff {
      buf.Write([0xfd]);
      buf.Write(LE(v, 2));
      Assoc(head, [0xfd], LE(v, 2));
    } else if v <= 0xffff_ffff {
      buf.Write([0xfe]);
      buf.Write(LE(v, 4));
      Assoc(head, [0xfe], LE(v, 4));
    } else {
      buf.Write([0xff]);
      buf.Write(LE(v, 8));
      Assoc(head, [0xff], LE(v, 8));
    }
  }

  method WriteInput(buf: ByteBuffer, i: TxInput)
    requires FitsInt(|i.scriptSig|)
    modifies buf
    ensures buf.bytes == old(buf.bytes) + InputBytes(i)
  {
    ghost var head := buf.bytes;
    buf.Write(i.prevHash);
    buf.Write(LE(i.prevIndex, 4));
    Assoc(head, i.prevHash, LE(i.prevIndex, 4));
    WriteVarInt(buf, |i.scriptSig|);
    buf.Write(i.scriptSig);
    buf.Write(LE(i.sequence, 4));
    AppendFour(head, i.prevHash + LE(i.prevIndex, 4), VarInt(|i.scriptSig|), i.scriptSig, LE(i.sequence, 4));
  }

  lemma AppendFour(head: seq<Byte>, a: seq<Byte>, b: seq<Byte>, c: seq<Byte>, d: seq<Byte>)
    ensures head + a + b + c + d == head + (a + b + c + d)
  {
    AssocFive(head, a, b, c, d);
    AssocFive([], a, b, c, d);
    assert [] + a + b + c + d == a + b + c + d;
  }

  method WriteOutput(buf: ByteBuffer, o: TxOutput)
    requires FitsInt(|o.scriptPubKey|)
    modifies buf
    ensures buf.bytes == old(buf.bytes) + OutputBytes(o)
  {
    ghost var head := buf.bytes;
    buf.Write(LE(o.value, 8));
    WriteVarInt(buf, |o.scriptPubKey|);
    Assoc(head, LE(o.value, 8), VarInt(|o.scriptPubKey|));
    buf.Write(o.scriptPubKey);
    Assoc(head, LE(o.value, 8) + VarInt(|o.scriptPubKey|), o.scriptPubKey);
  }

  method SerializeTx(tx: Transaction) returns (data: seq<Byte>)
    requires SizedTx(tx)
    ensures data == TxBytes(tx)
  {
    var buf := new ByteBuffer();
    buf.Write(LE(tx.version, 4));
    WriteInputs(buf, tx.inputs);
    WriteOutputs(buf, tx.outputs);
    buf.Write(LE(tx.lockTime, 4));
    data := buf.bytes;
    assert [] + LE(tx.version, 4) == LE(tx.version, 4);
  }

  method WriteInputs(buf: ByteBuffer, inputs: seq<TxInput>)
    requires FitsInt(|inputs|) && forall i :: 0 <= i < |inputs| ==> FitsInt(|inputs[i].scriptSig|)
    modifies buf
    ensures buf.bytes == old(buf.bytes) + (VarInt(|inputs|) + InputsBytes(inputs))
  {
    WriteVarInt(buf, |inputs|);
    ghost var head := buf.bytes;
    for i := 0 to |inputs|
      invariant buf.bytes + InputsBytes(inputs[i..]) == head + InputsBytes(inputs)
    {
      Assoc(buf.bytes, InputBytes(inputs[i]), InputsBytes(inputs[i + 1..]));
      assert inputs[i..][1..] == inputs[i + 1..];
      WriteInput(buf, inputs[i]);
    }
    assert buf.bytes + [] == buf.bytes;
    Assoc(old(buf.bytes), VarInt(|inputs|), InputsBytes(inputs));
  }

  method WriteOutputs(buf: ByteBuffer, outputs: seq<TxOutput>)
    requires FitsInt(|outputs|) && forall i :: 0 <= i < |outputs| ==> FitsInt(|outputs[i].scriptPubKey|)
    modifies buf
    ensures buf.bytes == old(buf.bytes) + (VarInt(|outputs|) + OutputsBytes(outputs))
  {
    WriteVarInt(buf, |outputs|);
    ghost var head := buf.bytes;
    for i := 0 to |outputs|
      invariant buf.bytes + OutputsBytes(outputs[i..]) == head + OutputsBytes(outputs)
    {
      Assoc(buf.bytes, OutputBytes(outputs[i]), OutputsBytes(outputs[i + 1..]));
      assert outputs[i..][1..] == outputs[i + 1..];
      WriteOutput(buf, outputs[i]);
    }
    assert buf.bytes + [] == buf.bytes;
    Assoc(old(buf.bytes), VarInt(|outputs|), OutputsBytes(outputs));
  }

  method WriteBranch(buf: ByteBuffer, branch: seq<seq<Byte>>)
    requires FitsInt(|branch|)
    modifies buf
    ensures buf.bytes == old(buf.bytes) + (VarInt(|branch|) + BranchBytes(branch))
  {
    WriteVarInt(buf, |branch|);
    ghost var head := buf.bytes;
    for i := 0 to |branch|
      invariant buf.bytes + BranchBytes(branch[i..]) == head + BranchBytes(branch)
    {
      Assoc(buf.bytes, branch[i], BranchBytes(branch[i + 1..]));
      assert branch[i..][1..] == branch[i + 1..];
      buf.Write(branch[i]);
    }
    assert buf.bytes + [] == buf.bytes;
    Assoc(old(buf.bytes), VarInt(|branch|), BranchBytes(branch));
  }

  method WriteCoinbase(buf: ByteBuffer, coinbase: Option<Transaction>)
    requires coinbase.Some? ==> SizedTx(coinbase.value)
    modifies buf
    ensures buf.bytes == old(buf.bytes) + TxBytes(if coinbase.Some? then coinbase.value else EMPTY_TX)
  {
    if coinbase.Some? {
      var txData := SerializeTx(coinbase.value);
      buf.Write(txData);
    } else {
      ghost var head := buf.bytes;
      buf.Write(LE(0, 4));
      WriteVarInt(buf, 0);
      WriteVarInt(buf, 0);
      buf.Write(LE(0, 4));
      AppendFour(head, LE(0, 4), VarInt(0), VarInt(0), LE(0, 4));
      assert VarInt(0) + [] == VarInt(0);
    }
  }

  method SerializeAux(a: AuxPow, buf: ByteBuffer)
    requires SizedAux(a)
    modifies buf
    ensures buf.bytes == old(buf.bytes) + AuxBytes(a)
  {
    ghost var head := buf.bytes;
    WriteCoinbase(buf, a.coinbase);
    buf.Write(a.blockHash);
    ghost var tx := TxBytes(if a.coinbase.Some? then a.coinbase.value else EMPTY_TX);
    Assoc(head, tx, a.blockHash);
    WriteIndexedBranch(buf, a.merkleBranch, a.merkleIndex);
    WriteIndexedBranch(buf, a.chainBranch, a.chainIndex);
    var parent := Zeros(80);
    if a.parent.Some? {
      var header := SerializeHeader(a.parent.value);
      parent := header[..];
    }
    buf.Write(parent);
    AppendFour(head, tx + a.blockHash,
               VarInt(|a.merkleBranch|) + BranchBytes(a.merkleBranch) + LE(a.merkleIndex, 4),
               VarInt(|a.chainBranch|) + BranchBytes(a.chainBranch) + LE(a.chainIndex, 4), parent);
  }

  method WriteIndexedBranch(buf: ByteBuffer, branch: seq<seq<Byte>>, index: U32)
    requires FitsInt(|branch|)
    modifies buf
    ensures buf.bytes == old(buf.bytes) + (VarInt(|branch|) + BranchBytes(branch) + LE(index, 4))
  {
    ghost var head := buf.bytes;
    WriteBranch(buf, branch);
    buf.Write(LE(index, 4));
    Assoc(head, VarInt(|branch|) + BranchBytes(branch), LE(index, 4));
  }
}
