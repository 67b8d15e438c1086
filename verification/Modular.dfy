/** Arithmetic modulo a power of two, and the signed reading of a residue. */
module Modular {
  import opened Bits

  /** The residue of `x` in `n` bits. */
  function Wrap(n: nat, x: int): (r: nat)
    ensures r < Pow2(n)
  {
    x % Pow2(n)
  }

  /** The two's-complement reading of an n-bit residue. */
  function SignedOf(n: nat, a: nat): int
    requires n > 0
  {
    if a < Pow2(n - 1) then a else a - Pow2(n)
  }

  // ---- congruence ----

  lemma ResidueShift(x: int, m: nat, k: int)
    requires m > 0
    ensures (x + m * k) % m == x % m
  {
    assert x + m * k == m * (x / m + k) + x % m;
    ModUnique(x + m * k, m, x / m + k, x % m);
  }

  lemma WrapShift(n: nat, x: int, k: int)
    ensures Wrap(n, x + Pow2(n) * k) == Wrap(n, x)
  {
    ResidueShift(x, Pow2(n), k);
  }

  lemma WrapSmall(n: nat, a: nat)
    requires a < Pow2(n)
    ensures Wrap(n, a) == a
  {
    ModUnique(a, Pow2(n), 0, a);
  }

  /** `x` differs from its residue by a multiple of the modulus. */
  lemma WrapQuotient(n: nat, x: int) returns (k: int)
    ensures Wrap(n, x) == x + Pow2(n) * k
  {
    k := -(x / Pow2(n));
    assert Pow2(n) * k == -(Pow2(n) * (x / Pow2(n)));
  }

  lemma WrapAdd(n: nat, x: int, y: int)
    ensures Wrap(n, Wrap(n, x) + y) == Wrap(n, x + y)
  {
    var k := WrapQuotient(n, x);
    WrapShift(n, x + y, k);
  }

  lemma WrapMul(n: nat, x: int, y: int)
    ensures Wrap(n, Wrap(n, x) * y) == Wrap(n, x * y)
  {
    var k := WrapQuotient(n, x);
    assert (x + Pow2(n) * k) * y == x * y + Pow2(n) * (k * y);
    WrapShift(n, x * y, k * y);
  }

  /** Fewer bits keep less. */
  lemma WrapNarrow(m: nat, n: nat, x: int)
    requires m <= n
    ensures Wrap(m, Wrap(n, x)) == Wrap(m, x)
  {
    var k := WrapQuotient(n, x);
    Pow2Add(m, n - m);
    assert Pow2(n) * k == Pow2(m) * (Pow2(n - m) * k);
    WrapShift(m, x, Pow2(n - m) * k);
  }

  // ---- signed readings ----

  lemma SignedRange(n: nat, a: nat)
    requires n > 0 && a < Pow2(n)
    ensures 0 - Pow2(n - 1) <= SignedOf(n, a) < Pow2(n - 1)
    ensures Wrap(n, SignedOf(n, a)) == a
  {
    WrapSmall(n, a);
    if a >= Pow2(n - 1) {
      assert SignedOf(n, a) == a + Pow2(n) * -1;
      WrapShift(n, a, -1);
    }
  }

  /** Reading a value in range back is the identity. */
  lemma SignedWrap(n: nat, x: int)
    requires n > 0 && 0 - Pow2(n - 1) <= x < Pow2(n - 1)
    ensures SignedOf(n, Wrap(n, x)) == x
  {
    if x >= 0 {
      WrapSmall(n, x);
    } else {
      WrapSmall(n, x + Pow2(n));
      assert x + Pow2(n) == x + Pow2(n) * 1;
      WrapShift(n, x, 1);
    }
  }

  /** The signed reading stands for the same residue in products. */
  lemma SignedMul(n: nat, a: nat, y: int)
    requires n > 0 && a < Pow2(n)
    ensures Wrap(n, SignedOf(n, a) * y) == Wrap(n, a * y)
  {
    SignedRange(n, a);
    WrapMul(n, SignedOf(n, a), y);
  }

  // ---- truncating division ----

  function Abs(x: int): nat
  {
    if x < 0 then -x else x
  }

  /** The quotient rounded towards zero, and its remainder. */
  function TruncDiv(a: int, b: int): int
    requires b != 0
  {
    if (a < 0) == (b < 0) then Abs(a) / Abs(b) else 0 - Abs(a) / Abs(b)
  }

  function TruncRem(a: int, b: int): int
    requires b != 0
  {
    if a < 0 then 0 - Abs(a) % Abs(b) else Abs(a) % Abs(b)
  }

  /** What truncating division promises: the division equation, a remainder smaller than the
      divisor, and the dividend's sign on it. */
  lemma TruncatingDivision(a: int, b: int)
    requires b != 0
    ensures a == TruncDiv(a, b) * b + TruncRem(a, b)
    ensures Abs(TruncRem(a, b)) < Abs(b)
    ensures TruncRem(a, b) == 0 || (TruncRem(a, b) < 0 <==> a < 0)
  {
    var x, y := Abs(a), Abs(b);
    var q, r: nat := x / y, x % y;
    assert x == y * q + r;
    SignedProducts(q, y);
  }

  lemma SignedProducts(q: nat, y: nat)
    ensures q * y == y * q && (0 - q) * (0 - y) == y * q
    ensures (0 - q) * y == 0 - y * q && q * (0 - y) == 0 - y * q
  {
  }
}
