/** The mining kernels (scrypt_kernel.cl): mine_scrypt, and scrypt_fill then scrypt_mix with the host's
    buffer copies between them (gpu_miner.go). One call is one work item; a batch runs its items in any order. */
module MineKernel {
  import opened Bytes
  import opened Scrypt
  import opened HashCompare
  import opened Pbkdf2Kernel
  import opened RomixKernel

  function HeaderWith(base: seq<Byte>, nonce: U32): (h: seq<Byte>)
    requires |base| == 76
    ensures |h| == 80
  {
    base + LE(nonce, 4)
  }

  /** scrypt(header, header, N = 1024, r = 1, p = 1) -> 32 bytes */
  function PowBytes(p: Primitives, header: seq<Byte>): (h: seq<Byte>)
    ensures |h| == 32
  {
    ScryptKdf(p, header, header, N, 1, 32)
  }

  // ---------------------------------------------------------------- one hash

  method BuildHeader(headerBase: array<Byte>, nonceStart: U32, gid: nat, header: array<Byte>) returns (nonce: U32)
    requires headerBase.Length == 76 && header.Length == 80 && header != headerBase
    modifies header
    ensures nonce == NonceAt(nonceStart, gid)
    ensures header[..] == HeaderWith(headerBase[..], nonce)
  {
    hide ByteAt;
    for i := 0 to 76
      invariant forall k :: 0 <= k < i ==> header[k] == headerBase[k]
    {
      header[i] := headerBase[i];
    }
    nonce := (nonceStart + gid) % 0x1_0000_0000;
    header[76] := ByteAt(nonce, 0);
    header[77] := ByteAt(nonce, 8);
    header[78] := ByteAt(nonce, 16);
    header[79] := ByteAt(nonce, 24);
    NonceBytes(nonce);
    assert header[..] == headerBase[..] + LE(nonce, 4);
  }

  lemma NonceBytes(w: U32)
    ensures LE(w, 4) == [ByteAt(w, 0), ByteAt(w, 8), ByteAt(w, 16), ByteAt(w, 24)]
  {
    hide ByteAt, LE;
    ByteAtIsByte(w, 0);
    ByteAtIsByte(w, 1);
    ByteAtIsByte(w, 2);
    ByteAtIsByte(w, 3);
  }

  /** The four PBKDF2 blocks of B. */
  method FillB(p: Primitives, input: array<Byte>, b: array<Byte>)
    requires input.Length == 80 && b.Length == 128 && b != input
    modifies b
    ensures b[..] == Pbkdf2(p, input[..], input[..], 1, 128)
  {
    hide F, Pbkdf2;
    ghost var h := input[..];
    assert input[..80] == h;
    Pbkdf2Block(p, input, 80, input, 80, 1, b, 0);
    Pbkdf2Block(p, input, 80, input, 80, 2, b, 32);
    assert b[..64] == F(p, h, h, 1, 1) + F(p, h, h, 1, 2);
    Pbkdf2Block(p, input, 80, input, 80, 3, b, 64);
    assert b[..96] == F(p, h, h, 1, 1) + F(p, h, h, 1, 2) + F(p, h, h, 1, 3);
    Pbkdf2Block(p, input, 80, input, 80, 4, b, 96);
    assert b[..] == b[..96] + F(p, h, h, 1, 4);
    FourBlocks(p, h, h);
  }

  lemma FourBlocks(p: Primitives, password: seq<Byte>, salt: seq<Byte>)
    ensures Pbkdf2(p, password, salt, 1, 128)
         == F(p, password, salt, 1, 1) + F(p, password, salt, 1, 2) + F(p, password, salt, 1, 3)
            + F(p, password, salt, 1, 4)
  {
    hide F;
    assert Derive(p, password, salt, 1, 0) == [];
    assert Derive(p, password, salt, 1, 1) == F(p, password, salt, 1, 1);
    assert Derive(p, password, salt, 1, 2) == F(p, password, salt, 1, 1) + F(p, password, salt, 1, 2);
    assert Derive(p, password, salt, 1, 3) == Derive(p, password, salt, 1, 2) + F(p, password, salt, 1, 3);
    assert Derive(p, password, salt, 1, 4) == Derive(p, password, salt, 1, 3) + F(p, password, salt, 1, 4);
  }

  lemma OneBlock(p: Primitives, password: seq<Byte>, salt: seq<Byte>)
    ensures Pbkdf2(p, password, salt, 1, 32) == F(p, password, salt, 1, 1)
  {
    hide F;
    assert Derive(p, password, salt, 1, 0) == [];
    assert Derive(p, password, salt, 1, 1) == F(p, password, salt, 1, 1);
  }

  /** X[i] = the little-endian word at B + 4i. */
  method LoadX(b: array<Byte>, x: array<U32>)
    requires b.Length == 128 && x.Length == 32
    modifies x
    ensures x[..] == WordsFromLE(b[..], 32)
  {
    hide Pack, Word;
    for i := 0 to 32
      invariant forall k :: 0 <= k < i ==> x[k] == WordsFromLE(b[..], 32)[k]
    {
      PackIsWord(b[..][4 * i..4 * i + 4]);
      x[i] := Pack(b[i * 4], b[i * 4 + 1], b[i * 4 + 2], b[i * 4 + 3]);
    }
    assert x[..] == WordsFromLE(b[..], 32);
  }

  /** B = the words of X, little-endian. */
  method StoreX(x: array<U32>, b: array<Byte>)
    requires b.Length == 128 && x.Length == 32
    modifies b
    ensures b[..] == WordsLE(x[..])
  {
    hide ByteAt, LE, WordsLE;
    for i := 0 to 32
      invariant forall k :: 0 <= k < 4 * i ==> b[k] == WordsLE(x[..])[k]
    {
      WordBytes(x[..], i);
      b[i * 4] := ByteAt(x[i], 0);
      b[i * 4 + 1] := ByteAt(x[i], 8);
      b[i * 4 + 2] := ByteAt(x[i], 16);
      b[i * 4 + 3] := ByteAt(x[i], 24);
    }
    assert b[..] == WordsLE(x[..]);
  }

  lemma WordBytes(ws: seq<U32>, i: nat)
    requires i < |ws|
    ensures var d := WordsLE(ws);
      d[4 * i] == ByteAt(ws[i], 0) && d[4 * i + 1] == ByteAt(ws[i], 8)
      && d[4 * i + 2] == ByteAt(ws[i], 16) && d[4 * i + 3] == ByteAt(ws[i], 24)
  {
    hide ByteAt, LE;
    ByteAtIsByte(ws[i], 0);
    ByteAtIsByte(ws[i], 1);
    ByteAtIsByte(ws[i], 2);
    ByteAtIsByte(ws[i], 3);
  }

  /** scrypt_1024_1_1 */
  method Scrypt1024(p: Primitives, input: array<Byte>, output: array<Byte>, v: array<U32>, off: nat)
    requires input.Length == 80 && output.Length == 32 && input != output && off + 32768 <= v.Length
    modifies output, v
    ensures output[..] == PowBytes(p, input[..])
    ensures Outside(old(v[..]), v[..], off)
  {
    hide F, Pbkdf2, RoMix, WordsLE, WordsFromLE, Outside;
    var b, x := new Byte[128], new U32[32];
    FillB(p, input, b);
    LoadX(b, x);
    Romix(p, x, v, off);
    StoreX(x, b);
    assert input[..80] == input[..];
    Pbkdf2Salt128Block1(p, input, 80, b, output);
    OneBlock(p, input[..], b[..]);
  }

  // ---------------------------------------------------------------- the decision

  /** The kernel's acceptance of a hash: big-endian hash, little-endian target. */
  predicate Meets(hash: seq<Byte>, target: seq<Byte>) {
    FromBE(hash) <= FromLE(target)
  }

  /** hash_le[i] = hash[31 - i], most significant first. */
  method Compare(hash: array<Byte>, target: array<Byte>) returns (found: bool)
    requires hash.Length == 32 && target.Length == 32
    ensures found == Meets(hash[..], target[..])
  {
    ghost var le, t := Rev(hash[..]), target[..];
    found := true;
    var i := 31;
    while i >= 0
      invariant -1 <= i <= 31
      invariant forall k :: i < k < 32 ==> le[k] == t[k]
      invariant found
    {
      var h := hash[31 - i];
      if h < target[i] {
        TopDifference(le, t, i);
        return;
      }
      if h > target[i] {
        TopDifference(t, le, i);
        return false;
      }
      i := i - 1;
    }
    assert le == t;
  }

  /** The results buffer after one work item: untouched, or flag, nonce and hash. */
  function Report(was: seq<U32>, nonce: U32, hash: seq<Byte>, target: seq<Byte>): (r: seq<U32>)
    requires |was| == 34 && |hash| == 32
    ensures |r| == 34
  {
    if Meets(hash, target) then [1, nonce] + AsWords(hash) else was
  }

  function AsWords(s: seq<Byte>): (ws: seq<U32>)
    ensures |ws| == |s|
  {
    seq(|s|, i requires 0 <= i < |s| => s[i])
  }

  method WriteResult(hash: array<Byte>, target: array<Byte>, nonce: U32, results: array<U32>)
    requires hash.Length == 32 && target.Length == 32 && results.Length == 34
    modifies results
    ensures results[..] == Report(old(results[..]), nonce, hash[..], target[..])
  {
    hide Meets;
    var found := Compare(hash, target);
    if found {
      results[0] := 1;
      results[1] := nonce;
      for i := 0 to 32
        invariant results[0] == 1 && results[1] == nonce
        invariant forall k :: 0 <= k < i ==> results[2 + k] == hash[k]
      {
        results[2 + i] := hash[i];
      }
      assert results[..] == [1, nonce] + AsWords(hash[..]);
    }
  }

  // ---------------------------------------------------------------- kernels

  /** gid * 1024 * 32 in 32-bit signed arithmetic. */
  function Offset(gid: nat): int {
    ToInt32(gid * 32768 % 0x1_0000_0000)
  }

  /** Exactly the work items below 65536 address their own slice; the host launches at most 8192. */
  lemma OffsetExact(gid: nat)
    ensures Offset(gid) == 32768 * gid <==> gid < 65536
  {
    if gid < 65536 {
      assert gid * 32768 % 0x1_0000_0000 == gid * 32768;
    }
  }

  /** What a work item does to the results buffer. */
  function Item(p: Primitives, base: seq<Byte>, nonceStart: U32, target: seq<Byte>,
                was: seq<U32>, gid: nat): (r: seq<U32>)
    requires |base| == 76 && |was| == 34
    ensures |r| == 34
  {
    var nonce := NonceAt(nonceStart, gid);
    Report(was, nonce, PowBytes(p, HeaderWith(base, nonce)), target)
  }

  method Locate(gid: nat) returns (off: nat)
    requires gid < 65536
    ensures off == 32768 * gid
  {
    OffsetExact(gid);
    off := Offset(gid);
  }

  /** mine_scrypt */
  method MineScrypt(p: Primitives, headerBase: array<Byte>, nonceStart: U32, target: array<Byte>,
                    results: array<U32>, v: array<U32>, gid: nat)
    requires headerBase.Length == 76 && target.Length == 32 && results.Length == 34 && results != v
    requires gid < 65536 && 32768 * gid + 32768 <= v.Length
    modifies results, v
    ensures results[..] == Report(old(results[..]), NonceAt(nonceStart, gid),
                                  PowBytes(p, HeaderWith(headerBase[..], NonceAt(nonceStart, gid))), target[..])
    ensures Outside(old(v[..]), v[..], 32768 * gid)
  {
    hide PowBytes, HeaderWith, Outside, NonceAt, Report, Item;
    var header, hash := new Byte[80], new Byte[32];
    var nonce := BuildHeader(headerBase, nonceStart, gid, header);
    var off := Locate(gid);
    Scrypt1024(p, header, hash, v, off);
    WriteResult(hash, target, nonce, results);
  }

  /** scrypt_fill */
  method ScryptFill(p: Primitives, headerBase: array<Byte>, nonceStart: U32, vWrite: array<U32>,
                    stateOut: array<U32>, gid: nat)
    requires headerBase.Length == 76 && vWrite != stateOut
    requires gid < 65536 && 32768 * gid + 32768 <= vWrite.Length && 32 * gid + 32 <= stateOut.Length
    modifies vWrite, stateOut
    ensures Slots(vWrite[..], 32768 * gid)
         == Table(p, StateOf(p, HeaderWith(headerBase[..], NonceAt(nonceStart, gid))), N)
    ensures Outside(old(vWrite[..]), vWrite[..], 32768 * gid)
    ensures stateOut[..] == old(stateOut[..])[..32 * gid]
                          + Power(p, StateOf(p, HeaderWith(headerBase[..], NonceAt(nonceStart, gid))), N)
                          + old(stateOut[..])[32 * gid + 32..]
  {
    hide HeaderWith, Outside, NonceAt, StateOf, Slots, Table, Power, Pbkdf2, WordsFromLE;
    var header, b, x := new Byte[80], new Byte[128], new U32[32];
    var nonce := BuildHeader(headerBase, nonceStart, gid, header);
    FillB(p, header, b);
    LoadX(b, x);
    StateOfIs(p, header[..]);
    var off := Locate(gid);
    RomixFill(p, x, vWrite, off);
    PutWords(x, stateOut, gid * 32);
  }

  /** The 32 words ROMix starts from. */
  function StateOf(p: Primitives, header: seq<Byte>): (x: seq<U32>)
    ensures |x| == 32
  {
    ScryptState(p, header, header, 1)
  }

  lemma StateOfIs(p: Primitives, header: seq<Byte>)
    ensures StateOf(p, header) == WordsFromLE(Pbkdf2(p, header, header, 1, 128), 32)
  {
    hide WordsFromLE, Pbkdf2;
  }

  /** scrypt_mix */
  method ScryptMix(p: Primitives, headerBase: array<Byte>, nonceStart: U32, stateIn: array<U32>,
                   vRead: array<U32>, target: array<Byte>, results: array<U32>, gid: nat)
    requires headerBase.Length == 76 && target.Length == 32 && results.Length == 34
    requires results != stateIn && results != vRead
    requires gid < 65536 && 32768 * gid + 32768 <= vRead.Length && 32 * gid + 32 <= stateIn.Length
    modifies results
    ensures results[..] == Report(old(results[..]), NonceAt(nonceStart, gid),
                                  Mixed(p, HeaderWith(headerBase[..], NonceAt(nonceStart, gid)),
                                        Slots(vRead[..], 32768 * gid), stateIn[..][32 * gid..32 * gid + 32]),
                                  target[..])
  {
    hide HeaderWith, NonceAt, Slots, Mix, F, WordsLE, Mixed, Report;
    var header, b, x, hash := new Byte[80], new Byte[128], new U32[32], new Byte[32];
    var nonce := BuildHeader(headerBase, nonceStart, gid, header);
    CopyWords(stateIn, gid * 32, x);
    var off := Locate(gid);
    RomixMix(p, x, vRead, off);
    StoreX(x, b);
    assert header[..80] == header[..];
    Pbkdf2Salt128Block1(p, header, 80, b, hash);
    MixedIs(p, header[..], Slots(vRead[..], 32768 * gid), stateIn[..][32 * gid..32 * gid + 32]);
    WriteResult(hash, target, nonce, results);
  }

  /** The hash scrypt_mix computes from whatever scratchpad and state it reads. */
  function Mixed(p: Primitives, header: seq<Byte>, table: seq<seq<U32>>, state: seq<U32>): (h: seq<Byte>)
    requires |state| == 32 && |table| == N && forall i :: 0 <= i < N ==> |table[i]| == 32
    ensures |h| == 32
  {
    F(p, header, WordsLE(Mix(p, table, state, N)), 1, 1)
  }

  lemma MixedIs(p: Primitives, header: seq<Byte>, table: seq<seq<U32>>, state: seq<U32>)
    requires |state| == 32 && |table| == N && forall i :: 0 <= i < N ==> |table[i]| == 32
    ensures Mixed(p, header, table, state) == F(p, header, WordsLE(Mix(p, table, state, N)), 1, 1)
  {
    hide F, Mix, WordsLE;
  }

  /** Mixing what filling left gives the single kernel's hash. */
  lemma MixAfterFill(p: Primitives, header: seq<Byte>)
    ensures Mixed(p, header, Table(p, StateOf(p, header), N), Power(p, StateOf(p, header), N)) == PowBytes(p, header)
  {
    hide F, Pbkdf2, Mix, Power, Table, WordsLE, ScryptState;
    OneBlock(p, header, WordsLE(RoMix(p, StateOf(p, header), N)));
  }
}
