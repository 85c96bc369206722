/** From the tip to a submitted block: the template (template_builder.go), the block built from it and the
    re-verification before submission (main.go), and the single-threaded search (scrypt.go). The scrypt hash
    of an 80-byte header is a parameter. */
module MineSubmit {
  import opened Bytes
  import opened Bits
  import opened Wire
  import opened HeaderChain
  import opened HashCompare
  import Difficulty

  // ---------------------------------------------------------------- target bytes

  /** The low 32 bytes of a big-endian string, padded with zeros on the left. */
  function Pad32(b: seq<Byte>): (r: seq<Byte>)
    ensures |r| == 32
  {
    if |b| > 32 then b[|b| - 32..] else Zeros(32 - |b|) + b
  }

  lemma {:induction false} LEPrefix(n: nat, j: nat, k: nat)
    requires j <= k
    ensures LE(n, k)[..j] == LE(n, j)
    decreases j
  {
    if j > 0 {
      LEPrefix(n / 256, j - 1, k - 1);
      assert LE(n, k)[..j] == [n % 256] + LE(n / 256, k - 1)[..j - 1];
    }
  }

  lemma RevPadded(s: seq<Byte>, k: nat)
    ensures Zeros(k) + Rev(s) == Rev(s + Zeros(k))
  {
  }

  /** Padding or truncating big.Int bytes to 32 gives the low 256 bits, big-endian. */
  lemma Pad32IsLow(n: nat)
    ensures Pad32(BigBytes(n)) == Rev(LE(n, 32))
  {
    var k := ByteLen(n);
    hide LE, ByteLen;
    if k > 32 {
      LEPrefix(n, 32, k);
      assert Pad32(BigBytes(n)) == Rev(LE(n, k)[..32]);
    } else {
      LEPad(n, k, 32);
      RevPadded(LE(n, k), 32 - k);
    }
  }

  lemma {:induction false} LowBytes(n: nat, k: nat)
    ensures FromLE(LE(n, k)) == n % Pow256(k)
    decreases k
  {
    if k > 0 {
      LowBytes(n / 256, k - 1);
      assert LE(n, k)[1..] == LE(n / 256, k - 1);
      SplitMod(n, Pow256(k - 1));
    }
  }

  lemma SplitMod(n: nat, m: nat)
    requires m > 0
    ensures n % (256 * m) == n % 256 + 256 * (n / 256 % m)
  {
    var q := n / 256 / m;
    assert n / 256 == m * q + n / 256 % m;
    assert n == (256 * m) * q + (n % 256 + 256 * (n / 256 % m));
    ModUnique(n, 256 * m, q, n % 256 + 256 * (n / 256 % m));
  }

  /** BitsToTargetHex */
  function TargetHex(bits: U32): (t: string)
    ensures |t| == 64
  {
    HexEncode(Pad32(BigBytes(Difficulty.BitsToTarget(bits))))
  }

  /** The target a miner reads back: the low 256 bits of the target of the bits. */
  lemma TargetHexValue(bits: U32)
    ensures HexDecode(TargetHex(bits)).Some?
    ensures FromBE(HexDecode(TargetHex(bits)).value) == Difficulty.BitsToTarget(bits) % Pow256(32)
  {
    hide HexEncode, HexDecode, LE, Pow256;
    var n := Difficulty.BitsToTarget(bits);
    HexRoundTrip(Pad32(BigBytes(n)));
    Pad32IsLow(n);
    RevRev(LE(n, 32));
    LowBytes(n, 32);
  }

  /** The target as 32 little-endian bytes, right-aligned and then reversed in place. */
  method TargetBytesLE(t: nat) returns (le: seq<Byte>)
    requires ByteLen(t) <= 32
    ensures le == LE(t, 32) && FromLE(le) == t
  {
    var b := BigBytes(t);
    var buf := new Byte[32](_ => 0);
    for i := 0 to |b|
      invariant forall k :: 0 <= k < 32 ==>
                  buf[k] == if 32 - |b| <= k < 32 - |b| + i then b[k - (32 - |b|)] else 0
    {
      buf[32 - |b| + i] := b[i];
    }
    assert buf[..] == Pad32(b);
    ReverseBytesInPlace(buf);
    le := buf[..];
    Pad32IsLow(t);
    RevRev(LE(t, 32));
    Pow256Monotone(ByteLen(t), 32);
    DecodeEncode(t, 32);
  }

  // ---------------------------------------------------------------- the template

  datatype Template = Template(version: U32, previousBlockHash: string, target: string, bits: string,
                               coinbaseValue: U64, coinbaseScript: seq<Byte>, height: int, curTime: int)

  /** BuildTemplateFromHeader */
  function BuildTemplate(tip: Header, network: string, lastNonMin: Option<U32>, parentTime: U32, now: int): Template {
    var bits := NextBits(tip, network, lastNonMin, parentTime, now);
    Template(AuxVersion(tip.raw.version), DisplayHex(tip.hash), TargetHex(bits), HexEncode(LE(bits, 4)),
             1_000_000_000_000, [0], tip.height + 1, now)
  }

  function NextBits(tip: Header, network: string, lastNonMin: Option<U32>, parentTime: U32, now: int): U32 {
    Difficulty.NextWork(Some(Difficulty.Tip(tip.height, tip.raw.time, tip.raw.bits)), now, network,
                        lastNonMin, parentTime)
  }

  /** tip.Version | 0x100 */
  function AuxVersion(v: U32): U32 {
    Pow2Small();
    OrBound(v, 0x100, 32);
    Or(v, 0x100)
  }

  lemma {:induction false} OrBound(a: nat, b: nat, k: nat)
    requires a < Pow2(k) && b < Pow2(k)
    ensures Or(a, b) < Pow2(k)
    decreases k
  {
    if k > 0 {
      OrBound(a / 2, b / 2, k - 1);
    }
  }

  /** The AuxPoW bit is set, and no other bit changes. */
  lemma AuxVersionBits(v: U32)
    ensures HasAuxPow(AuxVersion(v))
    ensures AuxVersion(v) == if HasAuxPow(v) then v else v + 0x100
  {
    hide Or, Pow2;
    OrBit(v, 8);
    Pow2Small();
  }

  lemma {:induction false} OrBit(v: nat, k: nat)
    ensures Or(v, Pow2(k)) == if v / Pow2(k) % 2 == 1 then v else v + Pow2(k)
    decreases k
  {
    if k == 0 {
      OrZero(v / 2);
      assert Or(v, 1) == 1 + 2 * Or(v / 2, 0);
    } else {
      OrBit(v / 2, k - 1);
      HalfPower(v, Pow2(k - 1));
    }
  }

  lemma HalfPower(v: nat, m: nat)
    requires m > 0
    ensures v / (2 * m) == v / 2 / m
  {
    var q := v / 2 / m;
    assert v / 2 == m * q + v / 2 % m;
    assert v == (2 * m) * q + (v % 2 + 2 * (v / 2 % m));
    QuotientUnique(v, 2 * m, q, v % 2 + 2 * (v / 2 % m));
  }

  lemma QuotientUnique(w: nat, m: nat, q: nat, r: nat)
    requires 0 <= r < m && w == m * q + r
    ensures w / m == q
  {
    ModUnique(w, m, q, r);
    assert m * (w / m) == m * q;
  }

  // ---------------------------------------------------------------- parsing it back

  function ParseBits(s: string): Option<U32> {
    if |s| != 8 then None
    else
      var b :- HexDecode(s);
      if |b| != 4 then None else Some(U32At(b, 0))
  }

  /** Parsing a tip-built template recovers the tip hash and the computed bits. */
  lemma TemplateRoundTrip(hash: Hash32, bits: U32)
    ensures HashFromHex(DisplayHex(hash)) == Some(hash)
    ensures ParseBits(HexEncode(LE(bits, 4))) == Some(bits)
  {
    DisplayHexParses(hash);
    HexRoundTrip(LE(bits, 4));
    Pow256Small();
    DecodeEncode(bits, 4);
    assert LE(bits, 4)[0..4] == LE(bits, 4);
  }

  // ---------------------------------------------------------------- the coinbase

  /** CScriptNum: little-endian, the top bit of the last byte is the sign. */
  function ScriptNum(b: seq<Byte>): int {
    if b == [] then 0
    else if b[|b| - 1] >= 0x80 then 0 - FromLE(b[..|b| - 1] + [b[|b| - 1] - 0x80]) as int
    else FromLE(b)
  }

  /** No byte can be dropped: the last one carries magnitude, or frees the sign bit of the one before. */
  predicate Minimal(b: seq<Byte>) {
    b == [] || b[|b| - 1] % 0x80 != 0 || (|b| > 1 && b[|b| - 2] >= 0x80)
  }

  /** `done` holds the low bytes of a positive height, and `rest` the bytes still to come. */
  predicate Pushed(height: int, done: seq<Byte>, rest: int) {
    if height > 0 then rest >= 0 && done + LE(rest, ByteLen(rest)) == LE(height, ByteLen(height))
    else rest == height && done == []
  }

  lemma PushedStart(height: int)
    ensures Pushed(height, [], height)
  {
    assert height > 0 ==> [] + LE(height, ByteLen(height)) == LE(height, ByteLen(height));
  }

  lemma PushedStep(height: int, done: seq<Byte>, rest: int)
    requires Pushed(height, done, rest) && rest > 0
    ensures Pushed(height, done + [rest % 256], rest / 256)
  {
    var low, high := [rest % 256], LE(rest / 256, ByteLen(rest / 256));
    assert LE(rest, ByteLen(rest)) == low + high;
    hide LE, ByteLen;
    Assoc(done, low, high);
  }

  lemma PushedEnd(height: int, done: seq<Byte>, rest: int)
    requires Pushed(height, done, rest) && rest <= 0
    ensures height > 0 ==> done == LE(height, ByteLen(height))
    ensures height <= 0 ==> done == []
  {
    assert height > 0 ==> done + [] == done;
  }

  /** The height push of createEmptyBlock: a length byte and the bytes of a number. A positive height is
      pushed minimally; any other height is pushed as the single byte zero, which is not minimal. */
  method HeightPush(height: int) returns (script: seq<Byte>)
    requires height < 0x8000_0000_0000_0000
    ensures 2 <= |script| <= 10 && script[0] == |script| - 1
    ensures height > 0 ==> ScriptNum(script[1..]) == height && Minimal(script[1..])
    ensures height <= 0 ==> script == [1, 0]
  {
    hide Pushed, LE, ByteLen, ScriptNum, Minimal;
    var rest: int, heightBytes: seq<Byte> := height, [];
    PushedStart(height);
    while rest > 0
      invariant Pushed(height, heightBytes, rest)
    {
      PushedStep(height, heightBytes, rest);
      heightBytes := heightBytes + [rest % 256];
      rest := rest / 256;
    }
    PushedEnd(height, heightBytes, rest);
    if height > 0 {
      HeightNumber(height);
    }
    if |heightBytes| > 0 && heightBytes[|heightBytes| - 1] >= 0x80 {
      heightBytes := heightBytes + [0];
    }
    if |heightBytes| == 0 {
      heightBytes := [0];
    }
    script := [|heightBytes|] + heightBytes;
    assert script[1..] == heightBytes;
  }

  lemma HeightNumber(height: int)
    requires 0 < height < 0x8000_0000_0000_0000
    ensures var b := LE(height, ByteLen(height));
      && 0 < |b| <= 8 && b[|b| - 1] > 0
      && (if b[|b| - 1] >= 0x80 then ScriptNum(b + [0]) == height && Minimal(b + [0])
          else ScriptNum(b) == height && Minimal(b))
  {
    var k := ByteLen(height);
    var b := LE(height, k);
    DecodeEncode(height, k);
    Pow256Small();
    ByteLenBound(height, 8);
    TopByte(height);
    FromLEConcat(b, [0]);
    assert FromLE([0]) == 0;
  }

  // ---------------------------------------------------------------- the block

  datatype Block = Block(header: RawHeader, transactions: seq<Transaction>)

  /** What HeightPush promises of the pushed bytes. */
  predicate PushOf(height: int, push: seq<Byte>) {
    |push| > 0 &&
    if height > 0 then push[0] == |push| - 1 && ScriptNum(push[1..]) == height && Minimal(push[1..])
    else push == [1, 0]
  }

  lemma PushIs(height: int, push: seq<Byte>)
    requires |push| > 0 && push[0] == |push| - 1
    requires height > 0 ==> ScriptNum(push[1..]) == height && Minimal(push[1..])
    requires height <= 0 ==> push == [1, 0]
    ensures PushOf(height, push)
  {
  }

  predicate Starts(script: seq<Byte>, height: int, push: seq<Byte>, rest: seq<Byte>) {
    PushOf(height, push) && script == push + rest
  }

  /** A coinbase of one input and one output, field by field: it spends nothing, pushes the height, then the extra
      nonce and the flags, and pays `value` to `payoutScript`. */
  ghost predicate Coinbase(tx: Transaction, height: int, extraNonce: U32, flags: seq<Byte>, value: U64,
                           payoutScript: seq<Byte>) {
    && tx.version == 1 && tx.lockTime == 0 && |tx.inputs| == 1 && |tx.outputs| == 1
    && tx.inputs[0].prevHash == Zeros(32) && tx.inputs[0].prevIndex == 0xFFFF_FFFF
    && tx.inputs[0].sequence == 0xFFFF_FFFF
    && (exists push: seq<Byte> :: Starts(tx.inputs[0].scriptSig, height, push, LE(extraNonce, 4) + flags))
    && tx.outputs[0].value == value && tx.outputs[0].scriptPubKey == payoutScript
  }

  function CoinbaseTx(script: seq<Byte>, value: U64, payoutScript: seq<Byte>): Transaction {
    Transaction(1, [TxInput(Zeros(32), 0xFFFF_FFFF, script, 0xFFFF_FFFF)], [TxOutput(value, payoutScript)], 0)
  }

  lemma CoinbaseIs(height: int, push: seq<Byte>, extraNonce: U32, flags: seq<Byte>, value: U64, payoutScript: seq<Byte>)
    requires PushOf(height, push) && |push| <= 10 && FitsInt(|payoutScript|) && |flags| < 0x1_0000_0000
    ensures var tx := CoinbaseTx(push + LE(extraNonce, 4) + flags, value, payoutScript);
            SizedTx(tx) && Coinbase(tx, height, extraNonce, flags, value, payoutScript)
  {
    hide PushOf, LE;
    var script := push + LE(extraNonce, 4) + flags;
    Assoc(push, LE(extraNonce, 4), flags);
    assert Starts(script, height, push, LE(extraNonce, 4) + flags);
  }

  /** The extra nonce after v: one more with wrap-around, never zero. */
  function NextExtraNonce(v: U32): U32 {
    var next := (v + 1) % 0x1_0000_0000;
    if next == 0 then 1 else next
  }

  class Miner {
    var extraNonce: U32

    constructor ()
      ensures extraNonce == 1
    {
      extraNonce := 1;
    }

    /** createEmptyBlock, for a payout script already decoded. */
    method CreateEmptyBlock(hash: HashFn, template: Template, payoutScript: seq<Byte>) returns (block: Option<Block>)
      requires template.height < 0x8000_0000_0000_0000
      requires FitsInt(|payoutScript|) && |template.coinbaseScript| < 0x1_0000_0000
      modifies this
      ensures block.Some? <==> HashFromHex(template.previousBlockHash).Some? && ParseBits(template.bits).Some?
      ensures block.None? ==> extraNonce == old(extraNonce)
      ensures block.Some? ==>
                var h := block.value.header;
                && extraNonce == (if old(extraNonce) == 0xFFFF_FFFF then 1 else old(extraNonce) + 1)
                && h.prev == HashFromHex(template.previousBlockHash).value && h.bits == ParseBits(template.bits).value
                && h.version == template.version && h.time == template.curTime % 0x1_0000_0000 && h.nonce == 0
                && |block.value.transactions| == 1
                && var tx := block.value.transactions[0];
                   && Coinbase(tx, template.height, old(extraNonce), template.coinbaseScript, template.coinbaseValue,
                               payoutScript)
                   && SizedTx(tx) && h.merkle == hash(TxBytes(tx))
    {
      hide TxBytes, PushOf, Coinbase, CoinbaseTx, SizedTx, LE, ScriptNum, Minimal, HexDecode, HashFromHex, ParseBits;
      var prev := HexTo32Bytes(template.previousBlockHash);
      if prev.None? {
        return None;
      }
      var bits := ParseBits(template.bits);
      if bits.None? {
        return None;
      }
      var push := HeightPush(template.height);
      PushIs(template.height, push);
      var extraNonceValue := extraNonce;
      extraNonce := NextExtraNonce(extraNonce);
      var script := push + LE(extraNonceValue, 4);
      script := script + template.coinbaseScript;
      var tx := CoinbaseTx(script, template.coinbaseValue, payoutScript);
      CoinbaseIs(template.height, push, extraNonceValue, template.coinbaseScript, template.coinbaseValue, payoutScript);
      var data := SerializeTx(tx);
      var header := RawHeader(template.version, prev.value, hash(data),
                              template.curTime % 0x1_0000_0000, bits.value, 0);
      block := Some(Block(header, [tx]));
    }
  }

  // ---------------------------------------------------------------- searching and re-verifying

  type PowFn = seq<Byte> -> Hash32

  /** The header with a nonce. */
  function WithNonce(h: RawHeader, nonce: U32): RawHeader { h.(nonce := nonce) }

  /** precomputeHeaderBase: the header serialized with nonce zero, without its last four bytes. */
  function HeaderBase(h: RawHeader): (b: seq<Byte>)
    ensures |b| == 76
  {
    Header80(WithNonce(h, 0))[..76]
  }

  /** The buffer the search hashes is the header that is submitted. */
  lemma BaseAndNonce(h: RawHeader, nonce: U32)
    ensures HeaderBase(h) + LE(nonce, 4) == Header80(WithNonce(h, nonce))
  {
    hide LE;
    var base := LE(h.version, 4) + h.prev + h.merkle + LE(h.time, 4) + LE(h.bits, 4);
    assert Header80(WithNonce(h, 0)) == base + LE(0, 4);
    assert Header80(WithNonce(h, 0))[..76] == base;
  }

  /** The target MineBlock searches with; zero is replaced by one. */
  function SearchTarget(targetBytes: seq<Byte>): (t: nat)
    ensures t > 0
  {
    if FromBE(targetBytes) == 0 then 1 else FromBE(targetBytes)
  }

  /** The target searched with for a target string made from bits. */
  function TargetFor(bits: U32): (t: nat)
    ensures t > 0
  {
    TargetHexValue(bits);
    SearchTarget(HexDecode(TargetHex(bits)).value)
  }

  lemma TargetForValue(bits: U32)
    ensures var target := Difficulty.BitsToTarget(bits);
      TargetFor(bits) == if target % Pow256(32) == 0 then 1 else target % Pow256(32)
    ensures var target := Difficulty.BitsToTarget(bits);
      0 < target < Pow256(32) ==> TargetFor(bits) == target
  {
    hide HexDecode, TargetHex, Difficulty.BitsToTarget, FromBE, Pow256;
    TargetHexValue(bits);
  }

  predicate Accepts(pow: PowFn, h: RawHeader, target: nat, nonce: U32) {
    FromLE(pow(Header80(WithNonce(h, nonce)))) <= target
  }

  /** Panics: right-aligning more than 32 target bytes slices out of range. */
  datatype MineResult = BadHex | Panics | Mined(nonce: U32, hashDisplay: Hash32, count: nat) | NotFound(count: nat)

  /** MineBlock with one thread, and mineWithStrategy: a sequential sweep from a random start. */
  method MineBlock(pow: PowFn, h: RawHeader, targetHex: string, start: U32, maxHashes: U64) returns (r: MineResult)
    ensures r.BadHex? <==> HexDecode(targetHex).None?
    ensures r.Panics? <==> HexDecode(targetHex).Some? && ByteLen(SearchTarget(HexDecode(targetHex).value)) > 32
    ensures r.Mined? ==>
              var t := SearchTarget(HexDecode(targetHex).value);
              && 0 < r.count <= maxHashes && r.nonce == NonceAt(start, r.count - 1)
              && Accepts(pow, h, t, r.nonce) && r.hashDisplay == Rev(pow(Header80(WithNonce(h, r.nonce))))
              && forall i :: 0 <= i < r.count - 1 ==> !Accepts(pow, h, t, NonceAt(start, i))
    ensures r.NotFound? ==>
              r.count == maxHashes
              && forall i :: 0 <= i < maxHashes ==>
                    !Accepts(pow, h, SearchTarget(HexDecode(targetHex).value), NonceAt(start, i))
  {
    hide HexDecode, Header80, FromBE;
    var decoded := HexDecode(targetHex);
    if decoded.None? {
      return BadHex;
    }
    var target := SearchTarget(decoded.value);
    if ByteLen(target) > 32 {
      return Panics;
    }
    r := Sweep(pow, h, target, start, maxHashes);
  }

  method Sweep(pow: PowFn, h: RawHeader, target: nat, start: U32, maxHashes: U64) returns (r: MineResult)
    requires ByteLen(target) <= 32
    ensures r.Mined? || r.NotFound?
    ensures r.Mined? ==>
              && 0 < r.count <= maxHashes && r.nonce == NonceAt(start, r.count - 1)
              && Accepts(pow, h, target, r.nonce) && r.hashDisplay == Rev(pow(Header80(WithNonce(h, r.nonce))))
              && forall i :: 0 <= i < r.count - 1 ==> !Accepts(pow, h, target, NonceAt(start, i))
    ensures r.NotFound? ==>
              r.count == maxHashes && forall i :: 0 <= i < maxHashes ==> !Accepts(pow, h, target, NonceAt(start, i))
  {
    hide Header80, FromLE, LE, Rev;
    var targetLE := TargetBytesLE(target);
    var headerBase := HeaderBase(h);
    var headerBuf := new Byte[80](i requires 0 <= i < 80 => if i < 76 then headerBase[i] else 0);
    var i: nat := 0;
    while i < maxHashes
      invariant i <= maxHashes && headerBuf[..76] == headerBase
      invariant forall k :: 0 <= k < i ==> !Accepts(pow, h, target, NonceAt(start, k))
    {
      MaskIsMod(start, i);
      var nonce := And((start + i) % 0x1_0000_0000_0000_0000, 0xFFFF_FFFF);
      PutNonce(headerBuf, nonce);
      BaseAndNonce(h, nonce);
      var hash := pow(headerBuf[..]);
      var meets := HashMeetsTargetLE(hash, targetLE);
      if meets {
        return Mined(nonce, Rev(hash), i + 1);
      }
      i := i + 1;
    }
    return NotFound(maxHashes);
  }

  lemma MaskIsMod(start: U32, i: nat)
    ensures And((start + i) % 0x1_0000_0000_0000_0000, 0xFFFF_FFFF) == NonceAt(start, i)
  {
    var x := start + i;
    var y := x % 0x1_0000_0000_0000_0000;
    Pow2Small();
    MaskLow(y, 32);
    ModUnique(x, 0x1_0000_0000, 0x1_0000_0000 * (x / 0x1_0000_0000_0000_0000) + y / 0x1_0000_0000, y % 0x1_0000_0000);
  }

  method PutNonce(headerBuf: array<Byte>, nonce: U32)
    requires headerBuf.Length == 80
    modifies headerBuf
    ensures headerBuf[..] == old(headerBuf[..76]) + LE(nonce, 4) && headerBuf[..76] == old(headerBuf[..76])
  {
    hide LE;
    var b := LE(nonce, 4);
    headerBuf[76], headerBuf[77], headerBuf[78], headerBuf[79] := b[0], b[1], b[2], b[3];
    assert headerBuf[..] == old(headerBuf[..76]) + b;
  }

  datatype Verdict = InvalidBits | VerifyPanics | Checked(meets: bool)

  /** verifyBlockPoW */
  method VerifyBlockPoW(pow: PowFn, h: RawHeader) returns (v: Verdict)
    ensures v == VerdictOn(pow, h)
  {
    hide Header80, FromLE, LE;
    var header := Header80(h);
    var hash := pow(header);
    var target := Difficulty.BitsToTarget(h.bits);
    if target <= 0 {
      return InvalidBits;
    }
    if |BigBytes(target)| > 32 {
      TooLong(target);
      return VerifyPanics;
    }
    Pow256Monotone(ByteLen(target), 32);
    var targetLE := TargetBytesLE(target);
    var meets := HashMeetsTargetLE(hash, targetLE);
    return Checked(meets);
  }

  lemma TooLong(n: nat)
    ensures ByteLen(n) > 32 <==> n >= Pow256(32)
  {
    if n < Pow256(32) {
      ByteLenBound(n, 32);
    } else if ByteLen(n) <= 32 {
      Pow256Monotone(ByteLen(n), 32);
    }
  }

  /** Consensus: the hash as a little-endian number is at most the target of the bits. */
  function VerdictOn(pow: PowFn, h: RawHeader): Verdict {
    var target := Difficulty.BitsToTarget(h.bits);
    if target == 0 then InvalidBits
    else if target >= Pow256(32) then VerifyPanics
    else Checked(FromLE(pow(Header80(h))) <= target)
  }

  datatype Submission = NoTransactions | NoOutputs | ShortPayout | Refused(v: Verdict) | Broadcast(block: Block)

  /** submitBlock up to the broadcast, in p2p mode. */
  method SubmitBlock(pow: PowFn, block: Block, nonce: U32) returns (s: Submission)
    ensures s.Broadcast? ==> s.block == Block(WithNonce(block.header, nonce), block.transactions)
    ensures s.Broadcast? <==>
              && |block.transactions| > 0 && |block.transactions[0].outputs| > 0
              && |block.transactions[0].outputs[0].scriptPubKey| >= 5
              && VerdictOn(pow, WithNonce(block.header, nonce)) == Checked(true)
  {
    var copy := block.(header := WithNonce(block.header, nonce));
    if |copy.transactions| == 0 {
      return NoTransactions;
    }
    if |copy.transactions[0].outputs| == 0 {
      return NoOutputs;
    }
    if |copy.transactions[0].outputs[0].scriptPubKey| < 5 {
      return ShortPayout;
    }
    var v := VerifyBlockPoW(pow, copy.header);
    if v != Checked(true) {
      return Refused(v);
    }
    return Broadcast(copy);
  }

  // ---------------------------------------------------------------- the miner and the verifier agree

  /** For a block with the bits its target string was made from: when the target is positive and below
      2^256, a nonce passes the miner's test exactly when the verifier accepts the block; otherwise the
      verifier accepts no nonce. */
  lemma MinerAndVerifierAgree(pow: PowFn, h: RawHeader, nonce: U32)
    ensures var target := Difficulty.BitsToTarget(h.bits);
      && (0 < target < Pow256(32) ==>
            TargetFor(h.bits) == target
            && (Accepts(pow, h, target, nonce) <==> VerdictOn(pow, WithNonce(h, nonce)) == Checked(true)))
      && (!(0 < target < Pow256(32)) ==> VerdictOn(pow, WithNonce(h, nonce)) != Checked(true))
  {
    hide Header80, TargetFor, Difficulty.BitsToTarget, FromLE, Pow256;
    TargetForValue(h.bits);
  }

  /** The condition is exact: with a hash of zero the miner accepts under any bits. */
  lemma MinerAcceptsBadBits(pow: PowFn, h: RawHeader, nonce: U32)
    requires FromLE(pow(Header80(WithNonce(h, nonce)))) == 0
    ensures Accepts(pow, h, TargetFor(h.bits), nonce)
    ensures VerdictOn(pow, WithNonce(h, nonce)) == Checked(true) <==> 0 < Difficulty.BitsToTarget(h.bits) < Pow256(32)
  {
    hide Header80, TargetFor, Difficulty.BitsToTarget, FromLE, Pow256;
    TargetForValue(h.bits);
  }

  /** A block on top of the tip, mined by `miner` at `now` with this extra nonce: every field of its header but the
      nonce, and its one transaction. */
  ghost predicate OnTip(block: Block, hash: HashFn, tip: Header, bits: U32, now: int, extraNonce: U32,
                        payoutScript: seq<Byte>) {
    var h := block.header;
    && h.prev == tip.hash && h.bits == bits && h.time == now % 0x1_0000_0000
    && h.version == (if tip.raw.version / 0x100 % 2 == 1 then tip.raw.version else tip.raw.version + 0x100)
    && |block.transactions| == 1 && SizedTx(block.transactions[0])
    && Coinbase(block.transactions[0], tip.height + 1, extraNonce, [0], 1_000_000_000_000, payoutScript)
    && h.merkle == hash(TxBytes(block.transactions[0]))
  }

  /** The template of the tip and the block made from it, with the target text to search with. */
  method BlockOnTip(hash: HashFn, miner: Miner, tip: Header, network: string, lastNonMin: Option<U32>,
                    parentTime: U32, now: int, payoutScript: seq<Byte>)
    returns (block: Block, targetHex: string)
    requires tip.height + 1 < 0x8000_0000_0000_0000 && FitsInt(|payoutScript|)
    modifies miner
    ensures var bits := Difficulty.NextWork(Some(Difficulty.Tip(tip.height, tip.raw.time, tip.raw.bits)), now,
                                            network, lastNonMin, parentTime);
            && OnTip(block, hash, tip, bits, now, old(miner.extraNonce), payoutScript)
            && block.header.nonce == 0 && targetHex == TargetHex(bits)
  {
    hide HexDecode, HexEncode, TargetHex, Coinbase, TxBytes, LE, SizedTx, Or;
    var template := BuildTemplate(tip, network, lastNonMin, parentTime, now);
    TemplateRoundTrip(tip.hash, NextBits(tip, network, lastNonMin, parentTime, now));
    AuxVersionBits(tip.raw.version);
    var created := miner.CreateEmptyBlock(hash, template, payoutScript);
    return created.value, template.target;
  }

  /** From the tip to the broadcast: a mined nonce is broadcast exactly when the target of the computed bits is in
      range, in the block on top of the tip. */
  method MineOnTip(pow: PowFn, hash: HashFn, miner: Miner, tip: Header, network: string, lastNonMin: Option<U32>,
                   parentTime: U32, now: int, payoutScript: seq<Byte>, start: U32, maxHashes: U64)
    returns (r: MineResult, s: Option<Submission>)
    requires tip.height + 1 < 0x8000_0000_0000_0000 && 5 <= |payoutScript| && FitsInt(|payoutScript|)
    modifies miner
    ensures !r.BadHex? && !r.Panics?
    ensures s.Some? <==> r.Mined?
    ensures s.Some? ==>
              var bits := Difficulty.NextWork(Some(Difficulty.Tip(tip.height, tip.raw.time, tip.raw.bits)), now,
                                              network, lastNonMin, parentTime);
              && (s.value.Broadcast? <==> 0 < Difficulty.BitsToTarget(bits) < Pow256(32))
              && (s.value.Broadcast? ==>
                    && OnTip(s.value.block, hash, tip, bits, now, old(miner.extraNonce), payoutScript)
                    && s.value.block.header.nonce == r.nonce
                    && FromLE(pow(Header80(s.value.block.header))) <= Difficulty.BitsToTarget(bits))
  {
    var block, targetHex := BlockOnTip(hash, miner, tip, network, lastNonMin, parentTime, now, payoutScript);
    hide Header80, HexDecode, TargetHex, Difficulty.NextWork, Difficulty.BitsToTarget, FromBE, TxBytes, LE, SizedTx;
    ghost var bits := block.header.bits;
    TargetHexValue(bits);
    SearchFits(bits);
    r := MineBlock(pow, block.header, targetHex, start, maxHashes);
    s := None;
    if r.Mined? {
      var submitted := SubmitBlock(pow, block, r.nonce);
      s := Some(submitted);
      MinerAndVerifierAgree(pow, block.header, r.nonce);
    }
  }

  lemma SearchFits(bits: U32)
    ensures HexDecode(TargetHex(bits)).Some? && ByteLen(SearchTarget(HexDecode(TargetHex(bits)).value)) <= 32
  {
    hide HexDecode, TargetHex, Difficulty.BitsToTarget, FromBE;
    TargetHexValue(bits);
    Pow256Monotone(1, 32);
    Pow256Small();
    TooLong(SearchTarget(HexDecode(TargetHex(bits)).value));
  }
}
