/** BlockMix and ROMix of the OpenCL kernel (scrypt_kernel.cl), over a slice of a shared scratchpad array.
    salsa20_8 is a parameter. */
module RomixKernel {
  import opened Bytes
  import opened Bits
  import opened Scrypt

  method SalsaInPlace(p: Primitives, x: array<U32>)
    requires x.Length == 16
    modifies x
    ensures x[..] == p.salsa(old(x[..]))
  {
    var next := p.salsa(x[..]);
    for i := 0 to 16
      invariant x[..i] == next[..i]
    {
      x[i] := next[i];
    }
    assert x[..] == next;
  }

  /** dest[i] = source[from + i], filling dest. */
  method CopyWords(source: array<U32>, from: nat, dest: array<U32>)
    requires source != dest && from + dest.Length <= source.Length
    modifies dest
    ensures dest[..] == source[..][from..from + dest.Length]
  {
    for i := 0 to dest.Length
      invariant forall k :: 0 <= k < i ==> dest[k] == source[from + k]
    {
      dest[i] := source[from + i];
    }
    assert dest[..] == source[..][from..from + dest.Length];
  }

  method XorInto(x: array<U32>, b: array<U32>, at: nat)
    requires x.Length == 16 && at + 16 <= b.Length && x != b
    modifies x
    ensures x[..] == XorWords(old(x[..]), b[..][at..at + 16])
  {
    hide XorWord;
    ghost var mixed := XorWords(x[..], b[..][at..at + 16]);
    for j := 0 to 16
      invariant forall k :: 0 <= k < j ==> x[k] == mixed[k]
      invariant forall k :: j <= k < 16 ==> x[k] == old(x[k])
    {
      x[j] := XorWord(x[j], b[at + j]);
    }
    assert x[..] == mixed;
  }

  method PutWords(x: array<U32>, y: array<U32>, at: nat)
    requires at + x.Length <= y.Length && x != y
    modifies y
    ensures y[..] == old(y[..at]) + x[..] + old(y[at + x.Length..])
  {
    ghost var was := y[..];
    for j := 0 to x.Length
      invariant forall k :: 0 <= k < j ==> y[at + k] == x[k]
      invariant forall k :: 0 <= k < y.Length && !(at <= k < at + j) ==> y[k] == was[k]
    {
      y[at + j] := x[j];
    }
    assert y[..] == was[..at] + x[..] + was[at + x.Length..];
  }

  /** x = salsa20_8(x ^ b[at..]), stored at y + at. */
  method MixBlock(p: Primitives, x: array<U32>, b: array<U32>, at: nat, y: array<U32>)
    requires x.Length == 16 && at + 16 <= b.Length == y.Length && x != b && x != y && y != b
    modifies x, y
    ensures x[..] == p.salsa(XorWords(old(x[..]), b[..][at..at + 16]))
    ensures y[..] == old(y[..at]) + x[..] + old(y[at + 16..])
  {
    hide *;
    XorInto(x, b, at);
    SalsaInPlace(p, x);
    PutWords(x, y, at);
  }

  /** blockmix_salsa8 */
  method BlockMixSalsa8(p: Primitives, b: array<U32>, y: array<U32>)
    requires b.Length == 32 && y.Length == 32 && b != y
    modifies b, y
    ensures b[..] == BlockMix(p, old(b[..]))
  {
    hide *;
    ghost var was := b[..];
    var x := new U32[16];
    CopyWords(b, 16, x);
    assert x[..] == was[16..];
    MixBlock(p, x, b, 0, y);
    ghost var y0 := x[..];
    assert b[..] == was;
    MixBlock(p, x, b, 16, y);
    assert y[..] == y0 + x[..];
    MixTwo(p, was);
    CopyWords(y, 0, b);
    assert b[..] == y[..];
  }

  /** scryptBlockMix for r = 1: two blocks, in the order they are computed. */
  lemma MixTwo(p: Primitives, b: seq<U32>)
    requires |b| == 32
    ensures var y0 := p.salsa(XorWords(b[16..], b[0..16]));
      BlockMix(p, b) == y0 + p.salsa(XorWords(y0, b[16..32]))
  {
    hide XorWords;
    var y0: Words16 := p.salsa(XorWords(b[16..], b[..16]));
    var rest := b[16..];
    assert rest[..16] == rest == b[16..32] && rest[16..] == [];
    var y1: Words16 := p.salsa(XorWords(y0, rest));
    assert Chain(p, y0, rest) == y1 + Chain(p, y1, []);
    assert Chain(p, b[16..], b) == y0 + y1;
    assert Shuffle(y0 + y1) == y0 + y1;
  }

  const N := 1024

  /** Entry k of the scratchpad that starts at off. */
  function Slot(v: seq<U32>, off: nat, k: nat): (s: seq<U32>)
    requires off + 32 * k + 32 <= |v|
    ensures |s| == 32
  {
    v[off + 32 * k..off + 32 * k + 32]
  }

  function Slots(v: seq<U32>, off: nat): (t: seq<seq<U32>>)
    requires off + 32 * N <= |v|
    ensures |t| == N
    ensures forall k :: 0 <= k < N ==> |t[k]| == 32
  {
    seq(N, k requires 0 <= k < N => Slot(v, off, k))
  }

  /** The first i entries hold the powers of x, and nothing outside the scratchpad has changed. */
  ghost predicate Filled(p: Primitives, x: seq<U32>, was: seq<U32>, v: seq<U32>, off: nat, i: nat)
    requires |x| == 32 && off + 32 * N <= |v| == |was| && i <= N
  {
    && (forall k :: 0 <= k < i ==> Slot(v, off, k) == Power(p, x, k))
    && Outside(was, v, off)
  }

  /** v and was differ at most in the scratchpad at off. */
  ghost predicate Outside(was: seq<U32>, v: seq<U32>, off: nat) {
    && |v| == |was|
    && forall q :: 0 <= q < |v| && !(off <= q < off + 32 * N) ==> v[q] == was[q]
  }

  lemma FilledNext(p: Primitives, x: seq<U32>, was: seq<U32>, v: seq<U32>, w: seq<U32>, off: nat, i: nat)
    requires |x| == 32 && off + 32 * N <= |v| == |was| && i < N
    requires Filled(p, x, was, v, off, i)
    requires w == v[..off + 32 * i] + Power(p, x, i) + v[off + 32 * i + 32..]
    ensures Filled(p, x, was, w, off, i + 1)
  {
    hide Power;
    forall k | 0 <= k <= i
      ensures Slot(w, off, k) == Power(p, x, k)
    {
      if k < i {
        assert Slot(w, off, k) == Slot(v, off, k);
      } else {
        assert Slot(w, off, k) == Power(p, x, i);
      }
    }
  }

  lemma FilledIsTable(p: Primitives, x: seq<U32>, was: seq<U32>, v: seq<U32>, off: nat)
    requires |x| == 32 && off + 32 * N <= |v| == |was|
    requires Filled(p, x, was, v, off, N)
    ensures Slots(v, off) == Table(p, x, N)
  {
    hide Power, Slot;
  }

  /** One turn of the filling loop: V[i] = B, B = BlockMix(B). */
  method FillStep(p: Primitives, b: array<U32>, v: array<U32>, at: nat, y: array<U32>)
    requires b.Length == 32 && y.Length == 32 && at + 32 <= v.Length && b != y && b != v && y != v
    modifies b, v, y
    ensures v[..] == old(v[..])[..at] + old(b[..]) + old(v[..])[at + 32..]
    ensures b[..] == BlockMix(p, old(b[..]))
  {
    hide *;
    PutWords(b, v, at);
    BlockMixSalsa8(p, b, y);
  }

  /** romix_fill */
  method RomixFill(p: Primitives, b: array<U32>, v: array<U32>, off: nat)
    requires b.Length == 32 && off + 32 * N <= v.Length && b != v
    modifies b, v
    ensures Slots(v[..], off) == Table(p, old(b[..]), N)
    ensures Outside(old(v[..]), v[..], off)
    ensures b[..] == Power(p, old(b[..]), N)
  {
    hide BlockMix, Slot;
    ghost var x, was := b[..], v[..];
    var y := new U32[32];
    for i := 0 to N
      invariant b[..] == Power(p, x, i)
      invariant Filled(p, x, was, v[..], off, i)
    {
      ghost var before := v[..];
      FillStep(p, b, v, off + i * 32, y);
      FilledNext(p, x, was, before, v[..], off, i);
    }
    FilledIsTable(p, x, was, v[..], off);
  }

  /** Word 16 masked with N - 1 is Integerify modulo N. */
  lemma MaskIsIntegerify(x: seq<U32>)
    requires |x| == 32
    ensures And(x[16], 1023) == Integerify(x) % N
  {
    Pow2Small();
    MaskLow(x[16], 10);
    IntegerifyLow(x[16..]);
    assert x[|x| - 16..] == x[16..];
  }

  lemma IntegerifyLow(ws: seq<U32>)
    requires |ws| > 0
    ensures FromLE(WordsLE(ws)) % N == ws[0] % N
  {
    var bytes := WordsLE(ws);
    FirstWord(ws);
    hide WordsLE, LE, FromLE, Pow256;
    FromLEConcat(LE(ws[0], 4), bytes[4..]);
    Pow256Small();
    DecodeEncode(ws[0], 4);
    LowWord(ws[0], FromLE(bytes[4..]));
  }

  lemma FirstWord(ws: seq<U32>)
    requires |ws| > 0
    ensures WordsLE(ws) == LE(ws[0], 4) + WordsLE(ws)[4..]
  {
    hide LE;
    assert WordsLE(ws)[..4] == LE(ws[0], 4);
  }

  lemma LowWord(w: nat, rest: nat)
    ensures (w + 0x1_0000_0000 * rest) % N == w % N
  {
    var c := 0x40_0000 * rest;
    ModUnique(w + 1024 * c, 1024, w / 1024 + c, w % 1024);
  }

  /** One turn of the mixing loop: B = BlockMix(B ^ V[j]). */
  method MixTurn(p: Primitives, b: array<U32>, v: array<U32>, off: nat, y: array<U32>)
    requires b.Length == 32 && y.Length == 32 && off + 32 * N <= v.Length && b != y && b != v && y != v
    modifies b, y
    ensures b[..] == MixStep(p, Slots(v[..], off), old(b[..]))
  {
    hide BlockMix, And, Integerify, XorWords;
    var j := And(b[16], 1023);
    MaskIsIntegerify(b[..]);
    XorSlot(b, v, off + j * 32);
    BlockMixSalsa8(p, b, y);
  }

  method XorSlot(b: array<U32>, v: array<U32>, at: nat)
    requires b.Length == 32 && at + 32 <= v.Length && b != v
    modifies b
    ensures b[..] == XorWords(old(b[..]), v[..][at..at + 32])
  {
    hide XorWord;
    ghost var mixed := XorWords(b[..], v[..][at..at + 32]);
    for k := 0 to 32
      invariant forall q :: 0 <= q < k ==> b[q] == mixed[q]
      invariant forall q :: k <= q < 32 ==> b[q] == old(b[q])
    {
      b[k] := XorWord(b[k], v[at + k]);
    }
    assert b[..] == mixed;
  }

  /** romix_mix: only reads the scratchpad. */
  method RomixMix(p: Primitives, b: array<U32>, v: array<U32>, off: nat)
    requires b.Length == 32 && off + 32 * N <= v.Length && b != v
    modifies b
    ensures b[..] == Mix(p, Slots(v[..], off), old(b[..]), N)
  {
    hide MixStep, Slots;
    ghost var x := b[..];
    var y := new U32[32];
    for i := 0 to N
      invariant b[..] == Mix(p, Slots(v[..], off), x, i)
    {
      MixTurn(p, b, v, off, y);
    }
  }

  /** romix: both loops. */
  method Romix(p: Primitives, b: array<U32>, v: array<U32>, off: nat)
    requires b.Length == 32 && off + 32 * N <= v.Length && b != v
    modifies b, v
    ensures b[..] == RoMix(p, old(b[..]), N)
    ensures Slots(v[..], off) == Table(p, old(b[..]), N)
    ensures Outside(old(v[..]), v[..], off)
  {
    hide BlockMix, Slot, MixStep, Slots;
    ghost var x, was := b[..], v[..];
    var y := new U32[32];
    for i := 0 to N
      invariant b[..] == Power(p, x, i)
      invariant Filled(p, x, was, v[..], off, i)
    {
      ghost var before := v[..];
      FillStep(p, b, v, off + i * 32, y);
      FilledNext(p, x, was, before, v[..], off, i);
    }
    FilledIsTable(p, x, was, v[..], off);
    ghost var full := v[..];
    for i := 0 to N
      invariant v[..] == full
      invariant b[..] == Mix(p, Table(p, x, N), Power(p, x, N), i)
    {
      MixTurn(p, b, v, off, y);
    }
  }
}
