/** What the bit-vector operations compute on residues, for every width, and the bit tricks that
    compute it (fugue-bv/src/lib.rs:366-368, 485-491, 565-612, 640-734, 748-848, 1111-1150). */
module BitVecSpecs {
  import opened Prelude
  import opened Bits
  import opened Modular

  /** `mask_u64`. */
  function MaskU64(bits: nat): U64
  {
    if bits < 64 then Pow2Of64(); Pow2Monotone(bits, 64); ToU64(Pow2(bits) - 1) else TWO_64 - 1
  }

  lemma MaskIsOnes(bits: nat)
    requires bits <= 64
    ensures MaskU64(bits) == Pow2(bits) - 1
  {
    WithinWord(bits);
    if bits < 64 {
      Kept64(Pow2(bits) - 1);
    }
  }

  lemma WithinWord(bits: nat)
    requires bits <= 64
    ensures Pow2(bits) <= TWO_64 && (bits == 64 ==> Pow2(bits) == TWO_64)
  {
    Pow2Of64();
    Pow2Monotone(bits, 64);
  }

  lemma Kept64(x: nat)
    requires x < TWO_64
    ensures ToU64(x) == x
  {
  }

  /** Wrapping at 64 bits first makes no difference to a narrower residue. */
  lemma Wrap64(n: nat, x: int)
    requires n <= 64
    ensures Wrap(n, ToU64(x)) == Wrap(n, x)
  {
    Pow2Of64();
    WrapNarrow(n, 64, x);
  }

  // ---- signs ----

  /** The top bit is the sign. */
  predicate Msb(n: nat, a: nat)
    requires n > 0
  {
    a >= Pow2(n - 1)
  }

  /** The signed reading is out of range. */
  predicate Overflows(n: nat, x: int)
    requires n > 0
  {
    !(0 - Pow2(n - 1) <= x < Pow2(n - 1))
  }

  /** Two values of different sign, or whose sum has their sign, do not overflow; others do. */
  lemma SignedCarryFlag(n: nat, a: nat, b: nat)
    requires n > 0 && a < Pow2(n) && b < Pow2(n)
    ensures (Msb(n, a) == Msb(n, b) && Msb(n, Wrap(n, a + b)) != Msb(n, a)) <==>
            Overflows(n, SignedOf(n, a) + SignedOf(n, b))
  {
    SumResidue(n, a, b);
  }

  lemma SumResidue(n: nat, a: nat, b: nat)
    requires a < Pow2(n) && b < Pow2(n)
    ensures Wrap(n, a + b) == if a + b < Pow2(n) then a + b else a + b - Pow2(n)
  {
    if a + b < Pow2(n) {
      WrapSmall(n, a + b);
    } else {
      WrapSmall(n, a + b - Pow2(n));
      WrapShift(n, a + b - Pow2(n), 1);
    }
  }

  lemma DifferenceResidue(n: nat, a: nat, b: nat)
    requires a < Pow2(n) && b < Pow2(n)
    ensures Wrap(n, a - b) == if a >= b then a - b else a - b + Pow2(n)
  {
    if a >= b {
      WrapSmall(n, a - b);
    } else {
      WrapSmall(n, a - b + Pow2(n));
      WrapShift(n, a - b, 1);
    }
  }

  lemma SignedBorrowFlag(n: nat, a: nat, b: nat)
    requires n > 0 && a < Pow2(n) && b < Pow2(n)
    ensures (Msb(n, a) != Msb(n, b) && Msb(n, Wrap(n, a - b)) == Msb(n, b)) <==>
            Overflows(n, SignedOf(n, a) - SignedOf(n, b))
  {
    DifferenceResidue(n, a, b);
  }

  /** The unsigned sum is out of range exactly when its residue is below an operand. */
  lemma CarryFlag(n: nat, a: nat, b: nat)
    requires a < Pow2(n) && b < Pow2(n)
    ensures a > Wrap(n, a + b) <==> a + b >= Pow2(n)
  {
    SumResidue(n, a, b);
  }

  // ---- negation ----

  lemma NegResidue(n: nat, a: nat)
    requires a < Pow2(n)
    ensures Wrap(n, 0 - a) == if a == 0 then 0 else Pow2(n) - a
  {
    DifferenceResidue(n, 0, a);
  }

  /** Negating a negative value gives its magnitude. */
  lemma NegMagnitude(n: nat, a: nat)
    requires n > 0 && a < Pow2(n) && Msb(n, a)
    ensures Wrap(n, 0 - a) == Abs(SignedOf(n, a)) && SignedOf(n, a) < 0
  {
    NegResidue(n, a);
  }

  // ---- shifts ----

  lemma Products(a: nat, p: nat, q: nat)
    ensures a * (p * q) == p * (a * q)
    ensures p > 0 ==> (p - 1) * q == p * q - q
    ensures p > 0 && q > 0 ==> p * q - 1 == p * (q - 1) + (p - 1)
  {
  }

  /** Subtracting a multiple of the divisor lowers the quotient. */
  lemma QuotientLower(a: int, p: nat, q: nat)
    requires p > 0
    ensures (a - p * q) / p == a / p - q
  {
    var x := a / p;
    assert a == p * x + a % p;
    assert p * (x - q) == p * x - p * q;
    ModUnique(a - p * q, p, x - q, a % p);
  }

  /** A left shift by at least the width leaves nothing. */
  lemma ShiftOut(n: nat, a: nat, k: nat)
    requires k >= n
    ensures Wrap(n, a * Pow2(k)) == 0
  {
    Pow2Add(n, k - n);
    Products(a, Pow2(n), Pow2(k - n));
    WrapShift(n, 0, a * Pow2(k - n));
    WrapSmall(n, 0);
  }

  /** A right shift by at least the width leaves only the sign. */
  lemma ShiftAllOut(n: nat, a: nat, k: nat)
    requires n > 0 && a < Pow2(n) && k >= n
    ensures a / Pow2(k) == 0
    ensures SignedOf(n, a) / Pow2(k) == if Msb(n, a) then -1 else 0
  {
    Pow2Monotone(n, k);
    ModUnique(a, Pow2(k), 0, a);
    if Msb(n, a) {
      ModUnique(SignedOf(n, a), Pow2(k), -1, SignedOf(n, a) + Pow2(k));
    }
  }

  /** What a right shift leaves: the signed or the unsigned value, divided and rounded down. */
  function Shifted(n: nat, a: nat, arithmetic: bool, amount: nat): nat
    requires n > 0 && a < Pow2(n)
  {
    if arithmetic then Wrap(n, SignedOf(n, a) / Pow2(amount)) else a / Pow2(amount)
  }

  lemma WrapMinusOne(n: nat)
    ensures Wrap(n, -1) == Pow2(n) - 1
  {
    WrapSmall(n, Pow2(n) - 1);
    WrapShift(n, -1, 1);
  }

  lemma ShiftedBound(n: nat, a: nat, k: nat)
    requires a < Pow2(n) && k <= n
    ensures a / Pow2(k) < Pow2(n - k)
  {
    Pow2Add(k, n - k);
    QuotientBelow(a, Pow2(k), Pow2(n - k));
  }

  lemma QuotientBelow(a: nat, p: nat, q: nat)
    requires p > 0 && a < p * q
    ensures a / p < q
  {
    if a / p > q {
      MulStep(p, q, a / p);
    }
  }

  /** Shifting right and setting the bits that come free to the sign rounds the signed value down. */
  lemma SignFill(n: nat, a: nat, k: nat)
    requires n > 0 && a < Pow2(n) && k < n && Msb(n, a)
    ensures Pow2(n - k) <= Pow2(n)
    ensures Or(a / Pow2(k), Pow2(n) - Pow2(n - k)) == Wrap(n, SignedOf(n, a) / Pow2(k))
  {
    var p, q, x := Pow2(k), Pow2(n - k), a / Pow2(k);
    Pow2Add(k, n - k);
    Pow2Monotone(n - k, n);
    ShiftedBound(n, a, k);
    Products(0, p, q);
    OrDisjoint(p - 1, x, n - k);
    QuotientLower(a, p, q);
    WrapSmall(n, x - q + Pow2(n));
    WrapShift(n, x - q, 1);
  }

  lemma LogicalSmall(n: nat, a: nat, k: nat)
    requires n > 0 && a < Pow2(n) && !Msb(n, a)
    ensures SignedOf(n, a) / Pow2(k) == a / Pow2(k) && Wrap(n, a / Pow2(k)) == a / Pow2(k)
  {
    ShiftRightDivides(a, k);
    WrapSmall(n, a / Pow2(k));
  }

  /** The fill of a right shift, by mask and by difference. */
  lemma FillBits(n: nat, k: nat)
    requires k <= n
    ensures ShiftRight(Pow2(n) - 1, k) == Pow2(n - k) - 1
    ensures Xor(Pow2(n) - 1, Pow2(n - k) - 1) == Pow2(n) - Pow2(n - k)
  {
    XorMasks(n - k, n);
    Pow2Add(k, n - k);
    ShiftRightDivides(Pow2(n) - 1, k);
    Products(0, Pow2(k), Pow2(n - k));
    ModUnique(Pow2(n) - 1, Pow2(k), Pow2(n - k) - 1, Pow2(k) - 1);
  }

  // ---- division ----

  /** Signed division and remainder on residues, for every width and nonzero divisor, the minimum
      by minus one included: the division equation holds modulo 2^n, the remainder is smaller than
      the divisor and has the dividend's sign. */
  lemma SignedDivision(n: nat, a: nat, b: nat)
    requires n > 0 && a < Pow2(n) && 0 < b < Pow2(n)
    ensures SignedOf(n, b) != 0
    ensures var x, y := SignedOf(n, a), SignedOf(n, b);
            var q, r := Wrap(n, TruncDiv(x, y)), Wrap(n, TruncRem(x, y));
            && Wrap(n, q * b + r) == a
            && SignedOf(n, r) == TruncRem(x, y)
            && Abs(SignedOf(n, r)) < Abs(y)
            && (SignedOf(n, r) == 0 || (SignedOf(n, r) < 0 <==> x < 0))
  {
    var x, y := SignedOf(n, a), SignedOf(n, b);
    var u, v := TruncDiv(x, y), TruncRem(x, y);
    TruncatingDivision(x, y);
    SignedRange(n, a);
    SignedRange(n, b);
    SignedWrap(n, v);
    var q, r := Wrap(n, u), Wrap(n, v);
    DivisionResidue(n, u, v, b);
  }

  lemma DivisionResidue(n: nat, u: int, v: int, b: nat)
    requires n > 0 && b < Pow2(n)
    ensures Wrap(n, Wrap(n, u) * b + Wrap(n, v)) == Wrap(n, u * SignedOf(n, b) + v)
  {
    ProductResidue(n, u, b);
    WrapSmall(n, Wrap(n, v));
    SumCongruent(n, Wrap(n, u) * b, Wrap(n, v), u * SignedOf(n, b), v);
  }

  lemma ProductResidue(n: nat, u: int, b: nat)
    requires n > 0 && b < Pow2(n)
    ensures Wrap(n, Wrap(n, u) * b) == Wrap(n, u * SignedOf(n, b))
  {
    WrapMul(n, u, b);
    SignedMul(n, b, u);
    Commutes(u, b);
    Commutes(u, SignedOf(n, b));
  }

  lemma Commutes(x: int, y: int)
    ensures x * y == y * x
  {
  }

  lemma SumCongruent(n: nat, x: int, y: int, x': int, y': int)
    requires Wrap(n, x) == Wrap(n, x') && Wrap(n, y) == Wrap(n, y')
    ensures Wrap(n, x + y) == Wrap(n, x' + y')
  {
    WrapAdd(n, x, y);
    WrapAdd(n, y, Wrap(n, x));
    WrapAdd(n, x', y');
    WrapAdd(n, y', Wrap(n, x'));
  }

  /** What `rem_euclid` returns: the remainder of the flags' division, raised by the magnitude of
      the divisor's signed reading if its top bit is set. */
  function RemEuclid(n: nat, a: nat, b: nat, signedA: bool, signedB: bool): nat
    requires n > 0 && a < Pow2(n) && 0 < b < Pow2(n)
  {
    var r := RemResidue(n, a, b, signedA, signedB);
    if Msb(n, r) then Wrap(n, r + Abs(SignedOf(n, b))) else r
  }

  /** A residue as the integer its flag makes it. */
  function IntOf(n: nat, a: nat, signed: bool): int
    requires n > 0
  {
    if signed then SignedOf(n, a) else a
  }

  function RemResidue(n: nat, a: nat, b: nat, signedA: bool, signedB: bool): nat
    requires n > 0 && a < Pow2(n) && 0 < b < Pow2(n)
  {
    SignedRange(n, b);
    Wrap(n, TruncRem(IntOf(n, a, signedA), IntOf(n, b, signedB)))
  }

  /** With both operands signed the result is the Euclidean remainder: it lies in [0, |b|) and
      differs from the dividend by a multiple of the divisor. */
  lemma RemEuclidSigned(n: nat, a: nat, b: nat) returns (k: int)
    requires n > 0 && a < Pow2(n) && 0 < b < Pow2(n)
    ensures var x, y, r := SignedOf(n, a), SignedOf(n, b), RemEuclid(n, a, b, true, true);
            0 <= r < Abs(y) && x == k * y + r
  {
    var x, y := SignedOf(n, a), SignedOf(n, b);
    SignedRange(n, b);
    TruncatingDivision(x, y);
    var u, v := TruncDiv(x, y), TruncRem(x, y);
    if v < 0 {
      NegativeRemainder(n, v, Abs(y));
      k := if y > 0 then u - 1 else u + 1;
      OneMore(u, y);
    } else {
      WrapSmall(n, v);
      k := u;
    }
  }

  lemma OneMore(u: int, y: int)
    ensures (u - 1) * y == u * y - y && (u + 1) * y == u * y + y
  {
  }

  lemma NegativeRemainder(n: nat, v: int, c: nat)
    requires n > 0 && 0 < c <= Pow2(n - 1) && 0 - c < v < 0
    ensures Msb(n, Wrap(n, v)) && Wrap(n, Wrap(n, v) + c) == v + c
  {
    WrapSmall(n, v + Pow2(n));
    WrapShift(n, v, 1);
    WrapAdd(n, v, c);
    WrapSmall(n, v + c);
  }

  /** With both operands unsigned it is the remainder exactly when the remainder's top bit is
      clear: otherwise the divisor is added although nothing is negative. */
  lemma RemEuclidUnsigned(n: nat, a: nat, b: nat)
    requires n > 0 && a < Pow2(n) && 0 < b < Pow2(n)
    ensures RemEuclid(n, a, b, false, false) == a % b <==> a % b < Pow2(n - 1)
  {
    SignedRange(n, b);
    var r, c := a % b, Abs(SignedOf(n, b));
    WrapSmall(n, r);
    if Msb(n, r) {
      SumResidue(n, r, c);
    }
  }

  /** The Euclidean remainder: the truncated one, raised by the divisor's magnitude if negative. */
  function EuclideanRemainder(x: int, y: int): nat
    requires y != 0
  {
    TruncatingDivision(x, y);
    if TruncRem(x, y) < 0 then TruncRem(x, y) + Abs(y) else TruncRem(x, y)
  }

  /** It lies in [0, |y|) and differs from the dividend by a multiple of the divisor. */
  lemma EuclideanDivision(x: int, y: int) returns (k: int)
    requires y != 0
    ensures EuclideanRemainder(x, y) < Abs(y) && x == k * y + EuclideanRemainder(x, y)
  {
    TruncatingDivision(x, y);
    OneMore(TruncDiv(x, y), y);
    k := TruncDiv(x, y);
    if TruncRem(x, y) < 0 {
      k := if y > 0 then k - 1 else k + 1;
    }
  }

  /** For all four flag pairs: the result is the Euclidean remainder of the values the flags stand
      for if and only if a remainder that is not negative has its top bit clear, and for a negative
      one the divisor's magnitude is that of its signed reading. */
  lemma RemEuclidExact(n: nat, a: nat, b: nat, signedA: bool, signedB: bool)
    requires n > 0 && a < Pow2(n) && 0 < b < Pow2(n)
    ensures IntOf(n, b, signedB) != 0
    ensures var x, y := IntOf(n, a, signedA), IntOf(n, b, signedB);
            var v := TruncRem(x, y);
            RemEuclid(n, a, b, signedA, signedB) == EuclideanRemainder(x, y) <==>
            if v < 0 then signedB || b <= Pow2(n - 1) else v < Pow2(n - 1)
  {
    SignedRange(n, a);
    SignedRange(n, b);
    var x, y := IntOf(n, a, signedA), IntOf(n, b, signedB);
    var v, c := TruncRem(x, y), Abs(SignedOf(n, b));
    TruncatingDivision(x, y);
    RemainderWithin(x, y);
    if v < 0 {
      NegativeRaised(n, v, c, Abs(y));
    } else {
      PositiveRaised(n, v, c);
    }
  }

  lemma RemainderWithin(x: int, y: int)
    requires y != 0
    ensures Abs(TruncRem(x, y)) <= Abs(x)
  {
    var a, b := Abs(x), Abs(y);
    assert a == b * (a / b) + a % b;
    assert b * (a / b) >= 0;
  }

  /** A remainder that is not negative is raised, and so spoilt, exactly when its top bit is set. */
  lemma PositiveRaised(n: nat, v: nat, c: nat)
    requires n > 0 && v < Pow2(n) && 0 < c <= Pow2(n - 1)
    ensures Wrap(n, v) == v
    ensures (if Msb(n, v) then Wrap(n, v + c) else v) == v <==> v < Pow2(n - 1)
  {
    WrapSmall(n, v);
    SumResidue(n, v, c);
  }

  /** A negative remainder always has its top bit set; raising it by `c` instead of `d` is right
      exactly when the two are the same, or `d` is the width's half. */
  lemma NegativeRaised(n: nat, v: int, c: nat, d: nat)
    requires n > 0 && 0 - Pow2(n - 1) <= v < 0 && 0 < c <= Pow2(n - 1) && v + d > 0 && d < Pow2(n)
    requires d == c || d == Pow2(n) - c
    ensures Msb(n, Wrap(n, v))
    ensures Wrap(n, Wrap(n, v) + c) == v + d <==> d == c
  {
    WrapSmall(n, v + Pow2(n));
    WrapShift(n, v, 1);
    WrapAdd(n, v, c);
    if v + c >= 0 {
      WrapSmall(n, v + c);
    } else {
      WrapSmall(n, v + c + Pow2(n));
      WrapShift(n, v + c, 1);
    }
  }

  lemma RemEuclidUnsignedExample()
    ensures Pow2(8) == 256 && RemEuclid(8, 200, 201, false, false) == 255 && 200 % 201 == 200
    ensures RemEuclid(8, 255, 201, true, false) == 54 && EuclideanRemainder(-1, 201) == 200
  {
    Pow2Of64();
    assert Pow2(7) == 128;
    SumResidue(8, 200, 55);
    WrapSmall(8, 200);
    WrapSmall(8, 255);
    WrapShift(8, -1, 1);
    SumResidue(8, 255, 55);
  }

  // ---- casts ----

  /** The residue of a value in another width, read by its flag. */
  function CastValue(n: nat, a: nat, signed: bool, m: nat): nat
    requires n > 0
  {
    Wrap(m, IntOf(n, a, signed))
  }

  /** Widening keeps the value. */
  lemma WideningKeepsValue(n: nat, a: nat, signed: bool, m: nat)
    requires 0 < n <= m && a < Pow2(n)
    ensures IntOf(m, CastValue(n, a, signed, m), signed) == IntOf(n, a, signed)
  {
    Pow2Monotone(n - 1, m - 1);
    Pow2Monotone(n, m);
    if signed {
      SignedRange(n, a);
      SignedWrap(m, SignedOf(n, a));
    } else {
      WrapSmall(m, a);
    }
  }

  /** Narrowing keeps the residue. */
  lemma NarrowingKeepsResidue(n: nat, a: nat, signed: bool, m: nat)
    requires 0 < m <= n && a < Pow2(n)
    ensures CastValue(n, a, signed, m) == Wrap(m, a)
  {
    if signed {
      SignedRange(n, a);
      WrapNarrow(m, n, SignedOf(n, a));
    }
  }

  /** Widening and narrowing back is the identity, on either side of 64 bits. */
  lemma WidenThenNarrow(n: nat, a: nat, signed: bool, m: nat)
    requires 0 < n <= m && a < Pow2(n)
    ensures CastValue(m, CastValue(n, a, signed, m), signed, n) == a
  {
    NarrowingKeepsResidue(m, CastValue(n, a, signed, m), signed, n);
    WrapNarrow(n, m, IntOf(n, a, signed));
    SignedRange(n, a);
    WrapSmall(n, a);
  }

  /** Or-ing the high ones in is what sign extension needs. */
  lemma SignBitsOr(n: nat, a: nat, m: nat)
    requires 0 < n <= m && a < Pow2(n) && Msb(n, a)
    ensures Pow2(n) <= Pow2(m)
    ensures Or(a, Pow2(m) - Pow2(n)) == Pow2(m) - Pow2(n) + a == Wrap(m, SignedOf(n, a))
  {
    Pow2Monotone(n, m);
    OrUpper(n, a, m);
    WrapSmall(m, Pow2(m) - Pow2(n) + a);
    WrapShift(m, SignedOf(n, a), 1);
  }

  lemma OrUpper(n: nat, a: nat, m: nat)
    requires n <= m && a < Pow2(n)
    ensures Pow2(n) <= Pow2(m)
    ensures Or(a, Pow2(m) - Pow2(n)) == Pow2(m) - Pow2(n) + a
  {
    Pow2Monotone(n, m);
    Pow2Add(m - n, n);
    OrDisjoint(Pow2(m - n) - 1, a, n);
    LessOne(Pow2(m - n), Pow2(n));
  }

  lemma LessOne(x: int, y: int)
    ensures (x - 1) * y == x * y - y
  {
  }
}
