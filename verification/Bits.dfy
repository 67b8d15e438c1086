/** Bitwise operations on natural numbers, defined bit by bit, and the facts about masks,
    shifts and single bits that the bit-vector library, the token readers and the context
    cache rely on. */
module Bits {

  function Pow2(n: nat): (r: nat)
    ensures r > 0
  {
    if n == 0 then 1 else 2 * Pow2(n - 1)
  }

  predicate BitAt(a: nat, i: nat)
  {
    if i == 0 then a % 2 == 1 else BitAt(a / 2, i - 1)
  }

  function Digit(b: bool): nat
  {
    if b then 1 else 0
  }

  function And(a: nat, b: nat): (r: nat)
    ensures r <= a && r <= b
    decreases a + b
  {
    if a == 0 || b == 0 then 0 else 2 * And(a / 2, b / 2) + Digit(a % 2 == 1 && b % 2 == 1)
  }

  function Or(a: nat, b: nat): (r: nat)
    ensures r >= a && r >= b
    decreases a + b
  {
    if a == 0 then b else if b == 0 then a else 2 * Or(a / 2, b / 2) + Digit(a % 2 == 1 || b % 2 == 1)
  }

  function Xor(a: nat, b: nat): nat
    decreases a + b
  {
    if a == 0 then b else if b == 0 then a else 2 * Xor(a / 2, b / 2) + Digit(a % 2 != b % 2)
  }

  lemma AndStep(a: nat, b: nat)
    ensures And(a, b) == 2 * And(a / 2, b / 2) + Digit(a % 2 == 1 && b % 2 == 1)
  {
  }

  lemma OrStep(a: nat, b: nat)
    ensures Or(a, b) == 2 * Or(a / 2, b / 2) + Digit(a % 2 == 1 || b % 2 == 1)
  {
  }

  // ---- single bits ----

  lemma {:induction false} ZeroBits(i: nat)
    ensures !BitAt(0, i)
  {
    if i > 0 {
      ZeroBits(i - 1);
    }
  }

  lemma {:induction false} BitAtAnd(a: nat, b: nat, i: nat)
    ensures BitAt(And(a, b), i) <==> BitAt(a, i) && BitAt(b, i)
    decreases i
  {
    if a == 0 || b == 0 {
      ZeroBits(i);
    } else if i > 0 {
      BitAtAnd(a / 2, b / 2, i - 1);
    }
  }

  lemma {:induction false} BitAtOr(a: nat, b: nat, i: nat)
    ensures BitAt(Or(a, b), i) <==> BitAt(a, i) || BitAt(b, i)
    decreases i
  {
    if a == 0 || b == 0 {
      ZeroBits(i);
    } else if i > 0 {
      BitAtOr(a / 2, b / 2, i - 1);
    }
  }

  lemma {:induction false} BitAtXor(a: nat, b: nat, i: nat)
    ensures BitAt(Xor(a, b), i) <==> BitAt(a, i) != BitAt(b, i)
    decreases i
  {
    if a == 0 || b == 0 {
      ZeroBits(i);
    } else if i > 0 {
      BitAtXor(a / 2, b / 2, i - 1);
    }
  }

  lemma {:induction false} BitAtPow2(n: nat, i: nat)
    ensures BitAt(Pow2(n), i) <==> i == n
    decreases n + i
  {
    if n == 0 {
      if i > 0 {
        ZeroBits(i - 1);
      }
    } else if i > 0 {
      BitAtPow2(n - 1, i - 1);
    }
  }

  /** A number whose bits are all clear below a bound it does not reach is zero. */
  lemma {:induction false} NoBits(a: nat, n: nat)
    requires a < Pow2(n) && forall i :: 0 <= i < n ==> !BitAt(a, i)
    ensures a == 0
    decreases n
  {
    if n > 0 {
      assert !BitAt(a, 0);
      forall i | 0 <= i < n - 1
        ensures !BitAt(a / 2, i)
      {
        assert !BitAt(a, i + 1);
      }
      NoBits(a / 2, n - 1);
    }
  }

  /** `a & (a - 1)` clears the lowest set bit and no other. */
  lemma {:induction false} ClearLowest(a: nat, t: nat, i: nat)
    requires a > 0 && BitAt(a, t) && forall k :: 0 <= k < t ==> !BitAt(a, k)
    ensures BitAt(And(a, a - 1), i) <==> i != t && BitAt(a, i)
    decreases a
  {
    BitAtAnd(a, a - 1, i);
    if a % 2 == 1 {
      assert t == 0 by {
        if t > 0 {
          assert !BitAt(a, 0);
        }
      }
      if i > 0 {
        assert (a - 1) / 2 == a / 2;
      }
    } else {
      assert t > 0;
      assert (a - 1) / 2 == a / 2 - 1;
      forall k | 0 <= k < t - 1
        ensures !BitAt(a / 2, k)
      {
        assert !BitAt(a, k + 1);
      }
      if i > 0 {
        ClearLowest(a / 2, t - 1, i - 1);
        BitAtAnd(a / 2, a / 2 - 1, i - 1);
      }
    }
  }

  // ---- powers ----

  lemma {:induction false} Pow2Add(m: nat, n: nat)
    ensures Pow2(m + n) == Pow2(m) * Pow2(n)
    decreases m
  {
    if m > 0 {
      Pow2Add(m - 1, n);
      assert Pow2(m - 1 + n) == Pow2(m + n - 1);
      assert Pow2(m) * Pow2(n) == 2 * (Pow2(m - 1) * Pow2(n));
    }
  }

  lemma {:induction false} Pow2Monotone(m: nat, n: nat)
    requires m <= n
    ensures Pow2(m) <= Pow2(n)
    decreases n
  {
    if m < n {
      Pow2Monotone(m, n - 1);
    }
  }

  // ---- shifts ----

  function ShiftRight(a: nat, k: nat): (r: nat)
    ensures r <= a
    decreases a, k
  {
    if k == 0 then a else ShiftRight(a / 2, k - 1)
  }

  function ShiftLeft(a: nat, k: nat): (r: nat)
  {
    if k == 0 then a else 2 * ShiftLeft(a, k - 1)
  }

  /** Shifting right divides by a power of two, rounding down. */
  lemma {:induction false} ShiftRightDivides(a: nat, k: nat)
    ensures ShiftRight(a, k) == a / Pow2(k)
    decreases k
  {
    if k > 0 {
      ShiftRightDivides(a / 2, k - 1);
      DivTwice(a, Pow2(k - 1));
    }
  }

  lemma {:induction false} ShiftLeftMultiplies(a: nat, k: nat)
    ensures ShiftLeft(a, k) == a * Pow2(k)
  {
    if k > 0 {
      ShiftLeftMultiplies(a, k - 1);
      assert a * Pow2(k) == 2 * (a * Pow2(k - 1)) by { assert Pow2(k) == 2 * Pow2(k - 1); }
    }
  }

  // ---- masks ----

  lemma HalfMask(n: nat)
    requires n > 0
    ensures (Pow2(n) - 1) / 2 == Pow2(n - 1) - 1 && (Pow2(n) - 1) % 2 == 1
  {
  }

  lemma {:induction false} ModHalf(a: nat, n: nat)
    requires n > 0
    ensures a % Pow2(n) == 2 * ((a / 2) % Pow2(n - 1)) + a % 2
  {
    var p := Pow2(n - 1);
    var q := (a / 2) / p;
    assert a / 2 == p * q + (a / 2) % p;
    assert a == (2 * p) * q + (2 * ((a / 2) % p) + a % 2);
    ModUnique(a, 2 * p, q, 2 * ((a / 2) % p) + a % 2);
  }

  lemma MulStep(m: nat, x: int, y: int)
    requires x < y
    ensures m * x + m <= m * y
  {
    var d: nat := y - x - 1;
    assert m * d >= 0;
    assert m * y == m * (x + 1 + d) == m * x + m + m * d;
  }

  /** Quotient and remainder are determined by their defining equation. */
  lemma ModUnique(a: int, m: nat, q: int, r: nat)
    requires m > 0 && r < m && a == m * q + r
    ensures a % m == r && a / m == q
  {
    var q', r' := a / m, a % m;
    assert a == m * q' + r';
    if q < q' {
      MulStep(m, q, q');
    } else if q' < q {
      MulStep(m, q', q);
    }
  }

  /** Masking with 2^n - 1 is the remainder modulo 2^n. */
  lemma {:induction false} AndMask(a: nat, n: nat)
    ensures And(a, Pow2(n) - 1) == a % Pow2(n)
    decreases n
  {
    if n > 0 {
      HalfMask(n);
      AndMask(a / 2, n - 1);
      AndStep(a, Pow2(n) - 1);
      assert And(a, Pow2(n) - 1) == 2 * ((a / 2) % Pow2(n - 1)) + a % 2;
      ModHalf(a, n);
    }
  }

  /** Flipping the low n bits of an n-bit number subtracts it from 2^n - 1. */
  lemma {:induction false} XorMask(a: nat, n: nat)
    requires a < Pow2(n)
    ensures Xor(a, Pow2(n) - 1) == Pow2(n) - 1 - a
    decreases n
  {
    if n > 0 && a > 0 {
      HalfMask(n);
      XorMask(a / 2, n - 1);
    }
  }

  /** The bits between two masks. */
  lemma {:induction false} XorMasks(m: nat, n: nat)
    requires m <= n
    ensures Xor(Pow2(n) - 1, Pow2(m) - 1) == Pow2(n) - Pow2(m)
    decreases m
  {
    if m > 0 {
      HalfMask(n);
      HalfMask(m);
      XorMasks(m - 1, n - 1);
    }
  }

  lemma {:induction false} XorSymmetric(a: nat, b: nat)
    ensures Xor(a, b) == Xor(b, a)
    decreases a + b
  {
    if a > 0 && b > 0 {
      XorSymmetric(a / 2, b / 2);
    }
  }

  lemma OrEven(x: nat, b: nat)
    ensures Or(2 * x, b) == 2 * Or(x, b / 2) + b % 2
    ensures Or(b, 2 * x) == 2 * Or(b / 2, x) + b % 2
  {
    assert (2 * x) / 2 == x && (2 * x) % 2 == 0;
    OrStep(2 * x, b);
    OrStep(b, 2 * x);
  }

  /** Or-ing bits into a gap of zeros is addition. */
  lemma {:induction false} OrDisjoint(a: nat, b: nat, k: nat)
    requires b < Pow2(k)
    ensures Or(a * Pow2(k), b) == a * Pow2(k) + b
    ensures Or(b, a * Pow2(k)) == a * Pow2(k) + b
    decreases k
  {
    if k > 0 && a > 0 && b > 0 {
      var p := Pow2(k - 1);
      var x := a * p;
      assert a * Pow2(k) == 2 * x by { assert Pow2(k) == 2 * p; }
      OrDisjoint(a, b / 2, k - 1);
      OrEven(x, b);
    }
  }

  // ---- bits as quotients ----

  lemma {:induction false} BitAtQuotient(a: nat, i: nat)
    ensures BitAt(a, i) <==> (a / Pow2(i)) % 2 == 1
    decreases i
  {
    if i > 0 {
      BitAtQuotient(a / 2, i - 1);
      DivTwice(a, Pow2(i - 1));
    }
  }

  lemma DivTwice(a: nat, p: nat)
    requires p > 0
    ensures a / (2 * p) == (a / 2) / p
  {
    var q, r := (a / 2) / p, (a / 2) % p;
    assert a == (2 * p) * q + (2 * r + a % 2);
    ModUnique(a, 2 * p, q, 2 * r + a % 2);
  }

  /** The top bit of an n-bit number says whether it is in the upper half. */
  lemma TopBit(a: nat, n: nat)
    requires n > 0 && a < Pow2(n)
    ensures BitAt(a, n - 1) <==> a >= Pow2(n - 1)
  {
    var p := Pow2(n - 1);
    BitAtQuotient(a, n - 1);
    if a >= p {
      ModUnique(a, p, 1, a - p);
    } else {
      ModUnique(a, p, 0, a);
    }
  }

  lemma {:induction false} OrBound(a: nat, b: nat, n: nat)
    requires a < Pow2(n) && b < Pow2(n)
    ensures Or(a, b) < Pow2(n)
    decreases n
  {
    if a > 0 && b > 0 {
      OrBound(a / 2, b / 2, n - 1);
    }
  }

  lemma {:induction false} XorBound(a: nat, b: nat, n: nat)
    requires a < Pow2(n) && b < Pow2(n)
    ensures Xor(a, b) < Pow2(n)
    decreases n
  {
    if a > 0 && b > 0 {
      XorBound(a / 2, b / 2, n - 1);
    }
  }

  lemma Pow2Of64()
    ensures Pow2(8) == 256 && Pow2(16) == 0x1_0000 && Pow2(32) == 0x1_0000_0000
    ensures Pow2(64) == 0x1_0000_0000_0000_0000
  {
    assert Pow2(8) == 256;
    Pow2Add(8, 8);
    Pow2Add(16, 16);
    Pow2Add(32, 32);
  }

  // ---- bit-by-bit reasoning ----

  /** Numbers with the same bits are equal. */
  lemma {:induction false} Extensional(a: nat, b: nat)
    requires forall i: nat :: BitAt(a, i) <==> BitAt(b, i)
    ensures a == b
    decreases a + b
  {
    if a + b > 0 {
      assert BitAt(a, 0) <==> BitAt(b, 0);
      forall i: nat
        ensures BitAt(a / 2, i) <==> BitAt(b / 2, i)
      {
        assert BitAt(a, i + 1) <==> BitAt(b, i + 1);
      }
      Extensional(a / 2, b / 2);
    }
  }

  lemma {:induction false} BitAtMask(n: nat, i: nat)
    ensures BitAt(Pow2(n) - 1, i) <==> i < n
    decreases i
  {
    if n == 0 {
      ZeroBits(i);
    } else if i > 0 {
      HalfMask(n);
      BitAtMask(n - 1, i - 1);
    }
  }

  lemma BitAtComplement(a: nat, n: nat, i: nat)
    requires a < Pow2(n)
    ensures BitAt(Pow2(n) - 1 - a, i) <==> i < n && !BitAt(a, i)
  {
    XorMask(a, n);
    BitAtXor(a, Pow2(n) - 1, i);
    BitAtMask(n, i);
    if BitAt(a, i) {
      BitAtBound(a, n, i);
    }
  }

  /** The bits from `k` up to `n`. */
  lemma BitAtDifference(k: nat, n: nat, i: nat)
    requires k <= n
    ensures Pow2(k) <= Pow2(n) && (BitAt(Pow2(n) - Pow2(k), i) <==> k <= i < n)
  {
    XorMasks(k, n);
    BitAtXor(Pow2(n) - 1, Pow2(k) - 1, i);
    BitAtMask(n, i);
    BitAtMask(k, i);
  }

  /** The remainder modulo 2^n keeps the low n bits. */
  lemma BitAtMod(a: nat, n: nat, i: nat)
    ensures BitAt(a % Pow2(n), i) <==> i < n && BitAt(a, i)
  {
    AndMask(a, n);
    BitAtAnd(a, Pow2(n) - 1, i);
    BitAtMask(n, i);
  }

  lemma {:induction false} BitAtShr(a: nat, k: nat, i: nat)
    ensures BitAt(ShiftRight(a, k), i) <==> BitAt(a, i + k)
    decreases k
  {
    if k > 0 {
      BitAtShr(a / 2, k - 1, i);
    }
  }

  lemma {:induction false} BitAtShl(a: nat, k: nat, i: nat)
    ensures BitAt(ShiftLeft(a, k), i) <==> i >= k && BitAt(a, i - k)
    decreases k
  {
    if k > 0 && i > 0 {
      assert (2 * ShiftLeft(a, k - 1)) / 2 == ShiftLeft(a, k - 1);
      BitAtShl(a, k - 1, i - 1);
    }
  }

  lemma {:induction false} BitAtBound(a: nat, n: nat, i: nat)
    requires a < Pow2(n) && BitAt(a, i)
    ensures i < n
    decreases n
  {
    if n == 0 {
      ZeroBits(i);
    } else if i > 0 {
      BitAtBound(a / 2, n - 1, i - 1);
    }
  }
}

/** 32-bit words. */
module Words {
  import opened Bits

  type Word = n: int | 0 <= n < 0x1_0000_0000

  const ALL_ONES: Word := 0xffff_ffff

  lemma WordSize()
    ensures Pow2(32) == 0x1_0000_0000
  {
    Pow2Of64();
  }

  function Not(w: Word): Word
  {
    ALL_ONES - w
  }

  function AndW(a: Word, b: Word): Word
  {
    And(a, b)
  }

  function OrW(a: Word, b: Word): Word
  {
    WordSize();
    OrBound(a, b, 32);
    Or(a, b)
  }

  function Shl(w: Word, k: nat): Word
  {
    ShiftLeft(w, k) % 0x1_0000_0000
  }

  function Shr(w: Word, k: nat): Word
  {
    ShiftRight(w, k)
  }

  lemma BitAtNot(w: Word, i: nat)
    ensures BitAt(Not(w), i) <==> i < 32 && !BitAt(w, i)
  {
    WordSize();
    BitAtComplement(w, 32, i);
  }

  lemma BitAtShlWord(w: Word, k: nat, i: nat)
    ensures BitAt(Shl(w, k), i) <==> k <= i < 32 && BitAt(w, i - k)
  {
    WordSize();
    BitAtMod(ShiftLeft(w, k), 32, i);
    BitAtShl(w, k, i);
  }

  /** The masked overwrite of the lifter: clear the bits of `clear`, then set those of `bits`. */
  function Overwrite(w: Word, clear: Word, bits: Word): Word
  {
    OrW(AndW(w, Not(clear)), bits)
  }

  lemma BitAtOverwrite(w: Word, clear: Word, bits: Word, i: nat)
    ensures BitAt(Overwrite(w, clear, bits), i) <==> (BitAt(w, i) && !BitAt(clear, i)) || BitAt(bits, i)
  {
    BitAtOr(AndW(w, Not(clear)), bits, i);
    BitAtAnd(w, Not(clear), i);
    BitAtNot(clear, i);
    if BitAt(w, i) {
      WordSize();
      BitAtBound(w, 32, i);
    }
  }
}
