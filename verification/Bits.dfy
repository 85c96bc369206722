/** Bitwise operators of unsigned C integers, on unbounded naturals. */
module Bits {
  import opened Bytes

  function Pow2(k: nat): (r: nat)
    ensures r >= 1
  {
    if k == 0 then 1 else 2 * Pow2(k - 1)
  }

  function Xor(a: nat, b: nat): nat
    decreases a + b
  {
    if a == 0 && b == 0 then 0 else (a + b) % 2 + 2 * Xor(a / 2, b / 2)
  }

  function And(a: nat, b: nat): nat
    decreases a
  {
    if a == 0 then 0 else (if a % 2 == 1 && b % 2 == 1 then 1 else 0) + 2 * And(a / 2, b / 2)
  }

  function Or(a: nat, b: nat): nat
    decreases a + b
  {
    if a == 0 && b == 0 then 0 else (if a % 2 == 1 || b % 2 == 1 then 1 else 0) + 2 * Or(a / 2, b / 2)
  }

  function Shl(a: nat, k: nat): nat {
    if k == 0 then a else 2 * Shl(a, k - 1)
  }

  function Shr(a: nat, k: nat): nat {
    if k == 0 then a else Shr(a / 2, k - 1)
  }

  lemma Pow2Small()
    ensures Pow2(8) == 0x100
    ensures Pow2(10) == 0x400
    ensures Pow2(32) == 0x1_0000_0000
  {
    assert Pow2(4) == 2 * (2 * (2 * (2 * Pow2(0))));
    assert Pow2(8) == 2 * (2 * (2 * (2 * Pow2(4))));
    assert Pow2(10) == 2 * (2 * Pow2(8));
    assert Pow2(14) == 2 * (2 * (2 * (2 * Pow2(10))));
    assert Pow2(18) == 2 * (2 * (2 * (2 * Pow2(14))));
    assert Pow2(22) == 2 * (2 * (2 * (2 * Pow2(18))));
    assert Pow2(26) == 2 * (2 * (2 * (2 * Pow2(22))));
    assert Pow2(30) == 2 * (2 * (2 * (2 * Pow2(26))));
    assert Pow2(32) == 2 * (2 * Pow2(30));
  }

  lemma {:induction false} XorBound(a: nat, b: nat, k: nat)
    requires a < Pow2(k) && b < Pow2(k)
    ensures Xor(a, b) < Pow2(k)
    decreases k
  {
    if k > 0 {
      XorBound(a / 2, b / 2, k - 1);
    }
  }

  function XorByte(a: Byte, b: Byte): Byte {
    Pow2Small();
    XorBound(a, b, 8);
    Xor(a, b)
  }

  function XorWord(a: U32, b: U32): U32 {
    Pow2Small();
    XorBound(a, b, 32);
    Xor(a, b)
  }

  lemma ModTwice(w: nat, m: nat)
    requires m > 0
    ensures w % (2 * m) == w % 2 + 2 * (w / 2 % m)
  {
    var q := w / 2 / m;
    var r := w % 2 + 2 * (w / 2 % m);
    assert w / 2 == m * q + w / 2 % m;
    assert w == (2 * m) * q + r;
    ModUnique(w, 2 * m, q, r);
  }

  lemma ModUnique(w: nat, m: nat, q: nat, r: nat)
    requires 0 <= r < m && w == m * q + r
    ensures w % m == r
  {
    var d := w / m - q;
    assert w == m * (w / m) + w % m;
    assert m * (w / m) - m * q == m * d;
  }

  lemma {:induction false} AndZero(w: nat)
    ensures And(w, 0) == 0
  {
    if w > 0 {
      AndZero(w / 2);
    }
  }

  lemma MaskStep(w: nat, m: nat)
    requires m > 0
    ensures And(w, 2 * m - 1) == w % 2 + 2 * And(w / 2, m - 1)
  {
    assert (2 * m - 1) / 2 == m - 1 && (2 * m - 1) % 2 == 1;
  }

  /** The low k bits. */
  function Low(w: nat, k: nat): nat
    decreases k
  {
    if k == 0 then 0 else w % 2 + 2 * Low(w / 2, k - 1)
  }

  lemma {:induction false} LowIsMod(w: nat, k: nat)
    ensures Low(w, k) == w % Pow2(k)
    decreases k
  {
    if k > 0 {
      LowIsMod(w / 2, k - 1);
      ModTwice(w, Pow2(k - 1));
    }
  }

  lemma {:induction false} MaskIsLow(w: nat, k: nat)
    ensures And(w, Pow2(k) - 1) == Low(w, k)
    decreases k
  {
    if k == 0 {
      AndZero(w);
    } else {
      MaskIsLow(w / 2, k - 1);
      MaskStep(w, Pow2(k - 1));
    }
  }

  /** Masking with 2^k - 1 is the remainder modulo 2^k. */
  lemma MaskLow(w: nat, k: nat)
    ensures And(w, Pow2(k) - 1) == w % Pow2(k)
  {
    MaskIsLow(w, k);
    LowIsMod(w, k);
  }

  lemma {:induction false} OrZero(a: nat)
    ensures Or(a, 0) == a && Or(0, a) == a
  {
    if a > 0 {
      OrZero(a / 2);
    }
  }

  /** Or of disjoint fields is their sum. */
  lemma {:induction false} OrShifted(a: nat, b: nat, k: nat)
    requires a < Pow2(k)
    ensures Or(a, Shl(b, k)) == a + Shl(b, k)
    decreases k
  {
    if k == 0 {
      OrZero(b);
    } else {
      OrShifted(a / 2, b, k - 1);
    }
  }

  lemma {:induction false} ShlTimes(a: nat, k: nat)
    ensures Shl(a, k) == a * Pow2(k)
  {
    if k > 0 {
      ShlTimes(a, k - 1);
    }
  }

  lemma {:induction false} ShrTwice(a: nat, j: nat, k: nat)
    ensures Shr(a, j + k) == Shr(Shr(a, j), k)
    decreases j
  {
    if j > 0 {
      ShrTwice(a / 2, j - 1, k);
    }
  }

  lemma ShrNibble(a: nat, k: nat)
    ensures Shr(a, k + 4) == Shr(a / 16, k)
  {
    calc {
      Shr(a, k + 4);
      Shr(a / 2, k + 3);
      Shr(a / 4, k + 2);
      Shr(a / 8, k + 1);
      Shr(a / 16, k);
    }
  }

  lemma ShrByte(a: nat)
    ensures Shr(a, 8) == a / 256
  {
    ShrNibble(a, 4);
    ShrNibble(a / 16, 0);
  }
}
