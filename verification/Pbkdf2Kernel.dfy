/** The hand-unrolled PBKDF2-HMAC-SHA256 blocks of the OpenCL kernel (scrypt_kernel.cl), on fixed arrays,
    proved against the published algorithms. sha256_transform is a parameter. An address inside
    an array is the array and an offset. */
module Pbkdf2Kernel {
  import opened Bytes
  import opened Bits
  import opened Scrypt

  // ---------------------------------------------------------------- words and bytes

  /** (w >> s) & 0xFF */
  function ByteAt(w: U32, s: nat): Byte {
    Pow2Small();
    MaskLow(Shr(w, s), 8);
    And(Shr(w, s), 0xFF)
  }

  /** b0 | b1 << 8 | b2 << 16 | b3 << 24 */
  function Pack(b0: Byte, b1: Byte, b2: Byte, b3: Byte): nat {
    Or(Or(Or(b0, Shl(b1, 8)), Shl(b2, 16)), Shl(b3, 24))
  }

  lemma {:induction false} LEAt(n: nat, k: nat, j: nat)
    requires j < k
    ensures LE(n, k)[j] == Shr(n, 8 * j) % 256
    decreases j
  {
    if j > 0 {
      LEAt(n / 256, k - 1, j - 1);
      assert LE(n, k)[j] == LE(n / 256, k - 1)[j - 1];
      hide Shr, LE;
      ShrByte(n);
      ShrTwice(n, 8, 8 * (j - 1));
    }
  }

  /** Shifting and masking picks the bytes of a word. */
  lemma ByteAtIsByte(w: U32, j: nat)
    requires j < 4
    ensures ByteAt(w, 8 * j) == LE(w, 4)[j]
  {
    Pow2Small();
    MaskLow(Shr(w, 8 * j), 8);
    LEAt(w, 4, j);
  }

  lemma Pow2More()
    ensures Pow2(16) == 0x1_0000 && Pow2(24) == 0x100_0000
  {
    Pow2Small();
    assert Pow2(13) == 2 * (2 * (2 * (2 * (2 * Pow2(8)))));
    assert Pow2(16) == 2 * (2 * (2 * Pow2(13)));
    assert Pow2(20) == 2 * (2 * (2 * (2 * Pow2(16))));
    assert Pow2(24) == 2 * (2 * (2 * (2 * Pow2(20))));
  }

  /** Shifting and or-ing bytes builds the little-endian word. */
  lemma PackIsWord(s: seq<Byte>)
    requires |s| == 4
    ensures Pack(s[0], s[1], s[2], s[3]) == Word(s)
  {
    FourBytes(s);
    PackIsSum(s[0], s[1], s[2], s[3]);
  }

  lemma PackIsSum(b0: Byte, b1: Byte, b2: Byte, b3: Byte)
    ensures Pack(b0, b1, b2, b3) == b0 as nat + 0x100 * (b1 as nat) + 0x1_0000 * (b2 as nat) + 0x100_0000 * (b3 as nat)
  {
    Pow2Small();
    Pow2More();
    hide Pow2, Or, Shl;
    ShlTimes(b1, 8);
    ShlTimes(b2, 16);
    ShlTimes(b3, 24);
    OrShifted(b0, b1, 8);
    OrShifted(Or(b0, Shl(b1, 8)), b2, 16);
    OrShifted(Or(Or(b0, Shl(b1, 8)), Shl(b2, 16)), b3, 24);
  }

  lemma FourBytes(s: seq<Byte>)
    requires |s| == 4
    ensures FromLE(s) == s[0] as nat + 0x100 * (s[1] as nat) + 0x1_0000 * (s[2] as nat) + 0x100_0000 * (s[3] as nat)
  {
    assert s[1..][0] == s[1] && s[1..][1..] == s[2..];
    assert s[2..][0] == s[2] && s[2..][1..] == s[3..];
    assert s[3..][0] == s[3] && s[3..][1..] == [];
    assert FromLE(s[3..]) == s[3];
    assert FromLE(s[2..]) == s[2] as nat + 256 * FromLE(s[3..]);
    assert FromLE(s[1..]) == s[1] as nat + 256 * FromLE(s[2..]);
  }

  // ---------------------------------------------------------------- repeated fragments

  method Transform(p: Primitives, state: array<U32>, data: array<Byte>)
    requires state.Length == 8 && data.Length == 64
    modifies state
    ensures state[..] == p.compress(old(state[..]), data[..])
  {
    var next := p.compress(state[..], data[..]);
    for i := 0 to 8
      invariant state[..i] == next[..i]
    {
      state[i] := next[i];
    }
    assert state[..] == next;
  }

  method SetInitial(state: array<U32>)
    requires state.Length == 8
    modifies state
    ensures state[..] == InitialState()
  {
    state[0], state[1], state[2], state[3] := 0x6a09e667, 0xbb67ae85, 0x3c6ef372, 0xa54ff53a;
    state[4], state[5], state[6], state[7] := 0x510e527f, 0x9b05688c, 0x1f83d9ab, 0x5be0cd19;
    assert state[..] == InitialState();
  }

  /** Serialises a state, big-endian, at output + off. */
  method PutState(state: array<U32>, output: array<Byte>, off: nat)
    requires state.Length == 8 && off + 32 <= output.Length
    modifies output
    ensures output[..] == old(output[..off]) + WordsBE(state[..]) + old(output[off + 32..])
  {
    hide ByteAt, WordsBE, LE;
    ghost var was, d := output[..], WordsBE(state[..]);
    for i := 0 to 8
      invariant forall k :: 0 <= k < 4 * i ==> output[off + k] == d[k]
      invariant forall k :: 0 <= k < output.Length && !(off <= k < off + 32) ==> output[k] == was[k]
    {
      StateBytes(state[..], i);
      output[off + i * 4] := ByteAt(state[i], 24);
      output[off + i * 4 + 1] := ByteAt(state[i], 16);
      output[off + i * 4 + 2] := ByteAt(state[i], 8);
      output[off + i * 4 + 3] := ByteAt(state[i], 0);
    }
    assert output[..] == was[..off] + d + was[off + 32..];
  }

  lemma StateBytes(ws: seq<U32>, i: nat)
    requires i < |ws|
    ensures var d := WordsBE(ws);
      d[4 * i] == ByteAt(ws[i], 24) && d[4 * i + 1] == ByteAt(ws[i], 16)
      && d[4 * i + 2] == ByteAt(ws[i], 8) && d[4 * i + 3] == ByteAt(ws[i], 0)
  {
    hide ByteAt, LE;
    ByteAtIsByte(ws[i], 0);
    ByteAtIsByte(ws[i], 1);
    ByteAtIsByte(ws[i], 2);
    ByteAtIsByte(ws[i], 3);
  }

  method FillZero(buffer: array<Byte>)
    requires buffer.Length == 64
    modifies buffer
    ensures buffer[..] == Zeros(64)
  {
    for i := 0 to 64
      invariant forall k :: 0 <= k < i ==> buffer[k] == 0
    {
      buffer[i] := 0;
    }
    assert buffer[..] == Zeros(64);
  }

  /** buffer[i] = source[from + i] for i below count. */
  method CopyIn(source: array<Byte>, from: nat, buffer: array<Byte>, count: nat)
    requires source != buffer && from + count <= source.Length && count <= buffer.Length
    modifies buffer
    ensures buffer[..] == source[from..from + count] + old(buffer[count..])
  {
    ghost var was := buffer[..];
    for i := 0 to count
      invariant forall k :: 0 <= k < i ==> buffer[k] == source[from + k]
      invariant forall k :: i <= k < buffer.Length ==> buffer[k] == was[k]
    {
      buffer[i] := source[from + i];
    }
    assert buffer[..] == source[from..from + count] + was[count..];
  }

  method LoadBlock(source: array<Byte>, from: nat, buffer: array<Byte>)
    requires source != buffer && from + 64 <= source.Length && buffer.Length == 64
    modifies buffer
    ensures buffer[..] == source[..][from..from + 64]
  {
    CopyIn(source, from, buffer, 64);
    assert buffer[..] == source[..][from..from + 64];
  }

  method CopyState(source: array<U32>, state: array<U32>)
    requires source != state && source.Length == 8 && state.Length == 8
    modifies state
    ensures state[..] == source[..]
  {
    for i := 0 to 8
      invariant forall k :: 0 <= k < i ==> state[k] == source[k]
    {
      state[i] := source[i];
    }
    assert state[..] == source[..];
  }

  // ---------------------------------------------------------------- SHA-256 and HMAC

  /** sha256_hash80: two blocks, the second one padded by hand. */
  method Sha256Hash80(p: Primitives, msg: array<Byte>, digest: array<Byte>)
    requires msg.Length >= 80 && digest.Length == 32 && msg != digest
    modifies digest
    ensures digest[..] == Sha256(p, msg[..80])
  {
    hide Tail, WordsBE, Sha256, InitialState;
    var state, buf := new U32[8], new Byte[64];
    SetInitial(state);
    CopyIn(msg, 0, buf, 64);
    assert buf[..] == msg[..64];
    Transform(p, state, buf);
    LastBlock80(msg, buf);
    Transform(p, state, buf);
    Sha80(p, msg[..80]);
    assert msg[..80][..64] == msg[..64] && msg[..80][64..] == msg[64..80];
    PutState(state, digest, 0);
    assert digest[..] == WordsBE(state[..]);
  }

  /** The last 16 bytes and padding for 640 bits. */
  method LastBlock80(msg: array<Byte>, buf: array<Byte>)
    requires msg.Length >= 80 && buf.Length == 64 && msg != buf
    modifies buf
    ensures buf[..] == Tail(msg[64..80], 80)
  {
    hide Tail;
    FillZero(buf);
    CopyIn(msg, 64, buf, 16);
    buf[16] := 0x80;
    buf[62], buf[63] := 0x02, 0x80;
    TailBytes(msg[64..80], 80);
    assert buf[..] == Tail(msg[64..80], 80);
  }

  lemma Sha80(p: Primitives, m: seq<Byte>)
    requires |m| == 80
    ensures Sha256(p, m) == WordsBE(p.compress(p.compress(InitialState(), m[..64]), Tail(m[64..], 80)))
  {
    hide Pad, Tail, WordsBE, InitialState, Absorb;
    assert m == m[..64] + m[64..];
    AbsorbPadded(p, InitialState(), m[..64], m[64..]);
    AbsorbOne(p, InitialState(), m[..64]);
  }

  /** The key xor-ed into ipad and opad, hashed first when it is longer than a block, and both absorbed. */
  method AbsorbKey(p: Primitives, password: array<Byte>, pwlen: nat, istate: array<U32>, ostate: array<U32>)
    requires pwlen <= password.Length && (pwlen <= 64 || pwlen == 80)
    requires istate.Length == 8 && ostate.Length == 8 && istate != ostate
    modifies istate, ostate
    ensures istate[..] == Keyed(p, password[..pwlen], 0x36)
    ensures ostate[..] == Keyed(p, password[..pwlen], 0x5c)
  {
    hide XorByte, Keyed, KeyBlock, InitialState, Sha256, XorPad;
    var ipad, opad := new Byte[64], new Byte[64];
    if pwlen > 64 {
      var hashedKey := new Byte[32];
      Sha256Hash80(p, password, hashedKey);
      assert hashedKey[..32] == hashedKey[..];
      XorKey(hashedKey, 32, ipad, opad);
    } else {
      XorKey(password, pwlen, ipad, opad);
    }
    KeyedPads(p, password[..pwlen], ipad[..], opad[..]);
    SetInitial(istate);
    Transform(p, istate, ipad);
    SetInitial(ostate);
    Transform(p, ostate, opad);
  }

  predicate PadsOf(key: seq<Byte>, ipad: seq<Byte>, opad: seq<Byte>)
    requires |key| <= 64
  {
    ipad == XorPad(key + Zeros(64 - |key|), 0x36) && opad == XorPad(key + Zeros(64 - |key|), 0x5c)
  }

  lemma KeyedPads(p: Primitives, key: seq<Byte>, ipad: seq<Byte>, opad: seq<Byte>)
    requires PadsOf(if |key| > 64 then Sha256(p, key) else key, ipad, opad)
    ensures |ipad| == |opad| == 64
    ensures p.compress(InitialState(), ipad) == Keyed(p, key, 0x36)
    ensures p.compress(InitialState(), opad) == Keyed(p, key, 0x5c)
  {
  }

  method XorKey(key: array<Byte>, len: nat, ipad: array<Byte>, opad: array<Byte>)
    requires len <= key.Length && len <= 64 && ipad.Length == 64 && opad.Length == 64
    requires ipad != opad && key != ipad && key != opad
    modifies ipad, opad
    ensures PadsOf(key[..len], ipad[..], opad[..])
  {
    hide XorByte;
    ghost var full := key[..len] + Zeros(64 - len);
    for i := 0 to 64
      invariant forall k :: 0 <= k < i ==> ipad[k] == XorByte(full[k], 0x36) && opad[k] == XorByte(full[k], 0x5c)
    {
      var k := if i < len then key[i] else 0;
      ipad[i] := XorByte(k, 0x36);
      opad[i] := XorByte(k, 0x5c);
    }
    assert ipad[..] == XorPad(full, 0x36);
    assert opad[..] == XorPad(full, 0x5c);
  }

  /** The outer hash as pbkdf2_sha256_block writes it. */
  method OuterHash(p: Primitives, finalstate: array<U32>, ostate: array<U32>, buffer: array<Byte>,
                   output: array<Byte>, off: nat)
    requires finalstate.Length == 8 && ostate.Length == 8 && buffer.Length == 64 && finalstate != ostate
    requires off + 32 <= output.Length && buffer != output
    modifies finalstate, buffer, output
    ensures output[..] == old(output[..off]) + Finish(p, ostate[..], old(finalstate[..])) + old(output[off + 32..])
  {
    hide WordsBE, Tail;
    ghost var inner := finalstate[..];
    FillZero(buffer);
    PutState(finalstate, buffer, 0);
    CopyState(ostate, finalstate);
    buffer[32] := 0x80;
    buffer[62], buffer[63] := 3, 0;
    TailBytes(WordsBE(inner), 96);
    assert buffer[..] == Tail(WordsBE(inner), 96);
    Transform(p, finalstate, buffer);
    PutState(finalstate, output, off);
  }

  /** pbkdf2_sha256_block: one block of PBKDF2-HMAC-SHA256 with an 80-byte salt. The length field is fixed,
      so the salt length is too. */
  method Pbkdf2Block(p: Primitives, password: array<Byte>, pwlen: nat, salt: array<Byte>, saltlen: nat,
                     blockIndex: U32, output: array<Byte>, off: nat)
    requires pwlen <= password.Length && (pwlen <= 64 || pwlen == 80)
    requires saltlen == 80 <= salt.Length && off + 32 <= output.Length
    requires output != password && output != salt
    modifies output
    ensures output[..] == old(output[..off]) + F(p, password[..pwlen], salt[..saltlen], 1, blockIndex)
                        + old(output[off + 32..])
  {
    hide *;
    var buffer, istate, ostate, finalstate := new Byte[64], new U32[8], new U32[8], new U32[8];
    AbsorbKey(p, password, pwlen, istate, ostate);
    CopyState(istate, finalstate);
    AbsorbSalt80(p, salt, blockIndex, finalstate, buffer);
    BlockOverSalt80(p, password[..pwlen], salt[..80], blockIndex);
    OuterHash(p, finalstate, ostate, buffer, output, off);
  }

  function OverSalt80(p: Primitives, st: State, salt: seq<Byte>, i: U32): State
    requires |salt| == 80
  {
    p.compress(p.compress(st, salt[..64]), Tail(salt[64..] + BE32(i), 148))
  }

  method AbsorbSalt80(p: Primitives, salt: array<Byte>, blockIndex: U32, finalstate: array<U32>, buffer: array<Byte>)
    requires salt.Length >= 80 && finalstate.Length == 8 && buffer.Length == 64 && salt != buffer
    modifies finalstate, buffer
    ensures finalstate[..] == OverSalt80(p, old(finalstate[..]), salt[..80], blockIndex)
  {
    hide Tail, BE32;
    CopyIn(salt, 0, buffer, 64);
    assert buffer[..] == salt[..64] && salt[..80][..64] == salt[..64];
    Transform(p, finalstate, buffer);
    LastSaltBlock(salt, blockIndex, buffer);
    Transform(p, finalstate, buffer);
    assert salt[..80][64..] == salt[64..80];
  }

  method SetLength(buffer: array<Byte>, hi: Byte, lo: Byte)
    requires buffer.Length == 64
    modifies buffer
    ensures buffer[..] == old(buffer[..56]) + Zeros(6) + [hi, lo]
  {
    buffer[56], buffer[57], buffer[58], buffer[59] := 0, 0, 0, 0;
    buffer[60], buffer[61], buffer[62], buffer[63] := 0, 0, hi, lo;
    assert buffer[..] == old(buffer[..56]) + Zeros(6) + [hi, lo];
  }

  /** The last 16 bytes of the salt, the block index, and padding for (64 + 80 + 4) * 8 bits. */
  method LastSaltBlock(salt: array<Byte>, blockIndex: U32, buffer: array<Byte>)
    requires salt.Length >= 80 && buffer.Length == 64 && salt != buffer
    modifies buffer
    ensures buffer[..] == Tail(salt[64..80] + BE32(blockIndex), 148)
  {
    hide Tail, BE32;
    FillZero(buffer);
    CopyIn(salt, 64, buffer, 16);
    PutIndex(blockIndex, buffer);
    assert buffer[..56] == salt[64..80] + BE32(blockIndex) + [0x80] + Zeros(35);
    SetLength(buffer, 0x04, 0xA0);
    assert Zeros(41) == Zeros(35) + Zeros(6);
    TailBytes(salt[64..80] + BE32(blockIndex), 148);
    assert buffer[..] == Tail(salt[64..80] + BE32(blockIndex), 148);
  }

  method PutIndex(blockIndex: U32, buffer: array<Byte>)
    requires buffer.Length == 64
    modifies buffer
    ensures buffer[..] == old(buffer[..16]) + BE32(blockIndex) + [0x80] + old(buffer[21..])
  {
    hide ByteAt, BE32;
    buffer[16] := ByteAt(blockIndex, 24);
    buffer[17] := ByteAt(blockIndex, 16);
    buffer[18] := ByteAt(blockIndex, 8);
    buffer[19] := ByteAt(blockIndex, 0);
    buffer[20] := 0x80;
    IndexBytes(blockIndex);
    assert buffer[..] == old(buffer[..16]) + BE32(blockIndex) + [0x80] + old(buffer[21..]);
  }

  lemma IndexBytes(w: U32)
    ensures BE32(w) == [ByteAt(w, 24), ByteAt(w, 16), ByteAt(w, 8), ByteAt(w, 0)]
  {
    hide ByteAt, LE;
    ByteAtIsByte(w, 0);
    ByteAtIsByte(w, 1);
    ByteAtIsByte(w, 2);
    ByteAtIsByte(w, 3);
  }

  lemma BlockOverSalt80(p: Primitives, password: seq<Byte>, salt: seq<Byte>, i: U32)
    requires |salt| == 80
    ensures F(p, password, salt, 1, i)
         == Finish(p, Keyed(p, password, 0x5c), OverSalt80(p, Keyed(p, password, 0x36), salt, i))
  {
    hide Finish, Keyed, Tail, Hmac, Absorb;
    assert salt + BE32(i) == salt[..64] + (salt[64..] + BE32(i));
    HmacUnrolled(p, password, salt[..64], salt[64..] + BE32(i));
    AbsorbOne(p, Keyed(p, password, 0x36), salt[..64]);
  }

  /** pbkdf2_sha256_salt128_block1: block 1 with a 128-byte salt. */
  method Pbkdf2Salt128Block1(p: Primitives, password: array<Byte>, pwlen: nat, salt: array<Byte>, output: array<Byte>)
    requires pwlen <= password.Length && (pwlen <= 64 || pwlen == 80)
    requires salt.Length == 128 && output.Length == 32 && output != password && output != salt
    modifies output
    ensures output[..] == F(p, password[..pwlen], salt[..], 1, 1)
  {
    hide *;
    var buffer, istate, ostate, finalstate := new Byte[64], new U32[8], new U32[8], new U32[8];
    AbsorbKey(p, password, pwlen, istate, ostate);
    CopyState(istate, finalstate);
    AbsorbSalt128(p, salt, finalstate, buffer);
    BlockOverSalt128(p, password[..pwlen], salt[..]);
    OuterHash128(p, finalstate, ostate, buffer, output);
  }

  method AbsorbSalt128(p: Primitives, salt: array<Byte>, finalstate: array<U32>, buffer: array<Byte>)
    requires salt.Length == 128 && finalstate.Length == 8 && buffer.Length == 64 && salt != buffer
    modifies finalstate, buffer
    ensures finalstate[..] == OverSalt128(p, old(finalstate[..]), salt[..])
  {
    hide Tail, BE32;
    LoadBlock(salt, 0, buffer);
    Transform(p, finalstate, buffer);
    LoadBlock(salt, 64, buffer);
    Transform(p, finalstate, buffer);
    IndexOneBlock(buffer);
    Transform(p, finalstate, buffer);
  }

  /** The block index 1 and padding for (64 + 128 + 4) * 8 bits. */
  method IndexOneBlock(buffer: array<Byte>)
    requires buffer.Length == 64
    modifies buffer
    ensures buffer[..] == Tail(BE32(1), 196)
  {
    hide Tail;
    FillZero(buffer);
    buffer[0], buffer[1], buffer[2], buffer[3] := 0, 0, 0, 1;
    buffer[4] := 0x80;
    assert buffer[..56] == [0, 0, 0, 1] + [0x80] + Zeros(51);
    SetLength(buffer, 0x06, 0x20);
    One();
    TailBytes(BE32(1), 196);
    assert Zeros(57) == Zeros(51) + Zeros(6);
    assert buffer[..] == Tail(BE32(1), 196);
  }

  lemma One()
    ensures BE32(1) == [0, 0, 0, 1]
  {
    FromLEZeros(3);
    EncodeDecode(Zeros(3));
    assert LE(1, 4) == [1] + LE(0, 3);
  }

  function OverSalt128(p: Primitives, st: State, salt: seq<Byte>): State
    requires |salt| == 128
  {
    p.compress(p.compress(p.compress(st, salt[0..64]), salt[64..128]), Tail(BE32(1), 196))
  }

  lemma BlockOverSalt128(p: Primitives, password: seq<Byte>, salt: seq<Byte>)
    requires |salt| == 128
    ensures F(p, password, salt, 1, 1)
         == Finish(p, Keyed(p, password, 0x5c), OverSalt128(p, Keyed(p, password, 0x36), salt))
  {
    hide Finish, Keyed, Tail, Hmac, Absorb, BE32;
    HmacUnrolled(p, password, salt, BE32(1));
    assert salt == salt[..64] + salt[64..];
    assert salt[0..64] == salt[..64] && salt[64..128] == salt[64..];
    AbsorbConcat(p, Keyed(p, password, 0x36), salt[..64], salt[64..]);
    AbsorbOne(p, Keyed(p, password, 0x36), salt[..64]);
    AbsorbOne(p, p.compress(Keyed(p, password, 0x36), salt[..64]), salt[64..]);
  }

  /** The outer hash as pbkdf2_sha256_salt128_block1 writes it: no clearing before, explicit zeros after. */
  method OuterHash128(p: Primitives, finalstate: array<U32>, ostate: array<U32>, buffer: array<Byte>,
                      output: array<Byte>)
    requires finalstate.Length == 8 && ostate.Length == 8 && buffer.Length == 64 && finalstate != ostate
    requires output.Length == 32 && buffer != output
    modifies finalstate, buffer, output
    ensures output[..] == Finish(p, ostate[..], old(finalstate[..]))
  {
    hide WordsBE, Tail;
    ghost var inner := finalstate[..];
    PutState(finalstate, buffer, 0);
    CopyState(ostate, finalstate);
    buffer[32] := 0x80;
    for i := 33 to 56
      invariant buffer[..33] == WordsBE(inner) + [0x80]
      invariant forall k :: 33 <= k < i ==> buffer[k] == 0
      invariant finalstate[..] == ostate[..]
    {
      buffer[i] := 0;
    }
    assert buffer[..56] == buffer[..33] + Zeros(23);
    SetLength(buffer, 0x03, 0x00);
    TailBytes(WordsBE(inner), 96);
    assert Zeros(29) == Zeros(23) + Zeros(6);
    assert buffer[..] == Tail(WordsBE(inner), 96);
    Transform(p, finalstate, buffer);
    PutState(finalstate, output, 0);
    assert output[..] == WordsBE(finalstate[..]);
  }
}
