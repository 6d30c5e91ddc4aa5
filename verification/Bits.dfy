/**
 Bitwise operators on naturals, defined bit by bit, so that `|` and `^` in the program mean what
 they mean in C++ and every place where the program uses `|` as an addition carries a proof.
 */
module Bits {
  function Pow2(n: nat): (r: nat)
    ensures r > 0
  {
    if n == 0 then 1 else 2 * Pow2(n - 1)
  }

  function BitOr(a: nat, b: nat): nat
    decreases a + b
  {
    if a == 0 && b == 0 then 0
    else (if a % 2 == 1 || b % 2 == 1 then 1 else 0) + 2 * BitOr(a / 2, b / 2)
  }

  function BitXor(a: nat, b: nat): nat
    decreases a + b
  {
    if a == 0 && b == 0 then 0
    else (if a % 2 != b % 2 then 1 else 0) + 2 * BitXor(a / 2, b / 2)
  }

  /** The `i`-th digit of `v` in a base, least significant first. */
  function Digit(v: nat, base: nat, i: nat): nat
    requires base > 0
    decreases i
  {
    if i == 0 then v % base else Digit(v / base, base, i - 1)
  }

  /** Bit by bit, `|` is "or". */
  lemma {:induction false} OrBits(a: nat, b: nat, i: nat)
    ensures Digit(BitOr(a, b), 2, i) == 1 <==> Digit(a, 2, i) == 1 || Digit(b, 2, i) == 1
  {
    HalvesOr(a, b);
    if i > 0 {
      hide BitOr;
      OrBits(a / 2, b / 2, i - 1);
    }
  }

  lemma HalvesOr(a: nat, b: nat)
    ensures BitOr(a, b) / 2 == BitOr(a / 2, b / 2)
    ensures BitOr(a, b) % 2 == 1 <==> a % 2 == 1 || b % 2 == 1
  {
    if a == 0 && b == 0 {
      assert BitOr(0, 0) == 0;
    }
  }

  /** Bit by bit, `^` is "not equal". */
  lemma {:induction false} XorBits(a: nat, b: nat, i: nat)
    ensures Digit(BitXor(a, b), 2, i) == 1 <==> (Digit(a, 2, i) == 1) != (Digit(b, 2, i) == 1)
  {
    HalvesXor(a, b);
    if i > 0 {
      hide BitXor;
      XorBits(a / 2, b / 2, i - 1);
    }
  }

  lemma HalvesXor(a: nat, b: nat)
    ensures BitXor(a, b) / 2 == BitXor(a / 2, b / 2)
    ensures BitXor(a, b) % 2 == 1 <==> (a % 2 == 1) != (b % 2 == 1)
  {
    if a == 0 && b == 0 {
      assert BitXor(0, 0) == 0;
    }
  }

  lemma {:induction false} PowAdd(m: nat, n: nat)
    ensures Pow2(m + n) == Pow2(m) * Pow2(n)
  {
    if m > 0 {
      PowAdd(m - 1, n);
      assert Pow2(m) * Pow2(n) == 2 * (Pow2(m - 1) * Pow2(n));
    }
  }

  lemma {:induction false} PowMonotone(m: nat, n: nat)
    requires m <= n
    ensures Pow2(m) <= Pow2(n)
  {
    if m < n {
      PowMonotone(m, n - 1);
    }
  }

  lemma PowValues()
    ensures Pow2(7) == 128 && Pow2(8) == 256
    ensures Pow2(16) == 0x1_0000 && Pow2(24) == 0x100_0000
    ensures Pow2(32) == 0x1_0000_0000
    ensures Pow2(64) == 0x1_0000_0000_0000_0000
  {
    assert Pow2(4) == 16;
    assert Pow2(7) == 128;
    assert Pow2(8) == 256;
    PowAdd(8, 8);
    PowAdd(8, 16);
    PowAdd(16, 16);
    PowAdd(32, 32);
  }

  /** Or-ing into bits that are still clear is addition. */
  lemma {:induction false} OrDisjoint(a: nat, c: nat, s: nat)
    requires a < Pow2(s)
    ensures BitOr(a, c * Pow2(s)) == a + c * Pow2(s)
  {
    if s == 0 {
      OrZero(c);
    } else {
      var b := c * Pow2(s - 1);
      assert c * Pow2(s) == 2 * b;
      OrDisjoint(a / 2, c, s - 1);
    }
  }

  lemma {:induction false} OrZero(c: nat)
    ensures BitOr(0, c) == c
  {
    if c > 0 {
      OrZero(c / 2);
    }
  }

  lemma {:induction false} XorZero(a: nat)
    ensures BitXor(a, 0) == a
  {
    if a > 0 {
      XorZero(a / 2);
    }
  }

  /** The lowest bits and the rest go their own ways. */
  lemma XorBit(h: nat, r: nat, k: nat, t: nat)
    requires r < 2 && t < 2
    ensures BitXor(2 * h + r, 2 * k + t) == (if r != t then 1 else 0) + 2 * BitXor(h, k)
  {
    var a, b := 2 * h + r, 2 * k + t;
    assert a / 2 == h && a % 2 == r && b / 2 == k && b % 2 == t;
  }

  /** Xor with a word of ones is the complement. */
  lemma {:induction false} XorOnes(a: nat, w: nat)
    requires a < Pow2(w)
    ensures BitXor(a, Pow2(w) - 1) == Pow2(w) - 1 - a
  {
    hide BitXor;
    if w == 0 {
      XorZero(a);
    } else {
      var p := Pow2(w - 1);
      var h, r := a / 2, a % 2;
      XorOnes(h, w - 1);
      XorBit(h, r, p - 1, 1);
      assert 2 * h + r == a && 2 * (p - 1) + 1 == Pow2(w) - 1;
    }
  }

  lemma {:induction false} XorBound(a: nat, b: nat, w: nat)
    requires a < Pow2(w) && b < Pow2(w)
    ensures BitXor(a, b) < Pow2(w)
  {
    if w > 0 {
      XorBound(a / 2, b / 2, w - 1);
    }
  }

  /** Xor with the same word twice cancels. */
  lemma {:induction false} XorCancels(a: nat, k: nat)
    ensures BitXor(BitXor(a, k), k) == a
    decreases a + k
  {
    if a != 0 || k != 0 {
      XorCancels(a / 2, k / 2);
      var x := BitXor(a, k);
      assert x / 2 == BitXor(a / 2, k / 2);
      if x == 0 && k == 0 {
        XorZero(a);
      }
    }
  }

  /** Or-ing a shifted, truncated word above the bits already set is addition modulo the width. */
  lemma OrShifted(a: nat, x: nat, s: nat, w: nat)
    requires s <= w && a < Pow2(s)
    ensures BitOr(a, (x * Pow2(s)) % Pow2(w)) == (a + x * Pow2(s)) % Pow2(w)
  {
    PowAdd(s, w - s);
    var k, r := Divide(x, Pow2(w - s));
    ShiftedMod(0, x, k, r, Pow2(s), Pow2(w - s));
    ShiftedMod(a, x, k, r, Pow2(s), Pow2(w - s));
    OrDisjoint(a, r, s);
  }

  lemma Divide(x: nat, q: nat) returns (k: nat, r: nat)
    requires q > 0
    ensures x == k * q + r && r < q
  {
    k, r := x / q, x % q;
  }

  lemma ShiftedMod(a: nat, x: nat, k: nat, r: nat, p: nat, q: nat)
    requires a < p && r < q && x == k * q + r
    ensures p * q > 0 && (a + x * p) % (p * q) == a + r * p
  {
    assert x * p == (k * q) * p + r * p;
    assert (k * q) * p == k * (p * q);
    MulMono(r + 1, q, p);
    assert (r + 1) * p == r * p + p;
    assert q * p == p * q;
    DivUnique(a + x * p, p * q, k, a + r * p);
  }

  lemma MulMono(a: nat, b: nat, c: nat)
    requires a <= b
    ensures a * c <= b * c
  {}

  lemma DivUnique(a: nat, m: nat, q: nat, r: nat)
    requires 0 < m && r < m && a == q * m + r
    ensures a / m == q && a % m == r
  {
    var q', r' := a / m, a % m;
    assert a == q' * m + r';
    if q' < q {
      MulMono(q' + 1, q, m);
      assert false;
    }
    if q' > q {
      MulMono(q + 1, q', m);
      assert false;
    }
  }
}
