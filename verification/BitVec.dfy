/** Bit vectors of any width, a machine word up to 64 bits and a natural number beyond; both
    compute the same arithmetic modulo 2^n (fugue-bv/src/lib.rs:108-126, 281-411, 565-612, 640-848, 1111-1263). */
module BitVecs {
  import opened Prelude
  import opened Bits
  import opened Modular
  import opened BitVecSpecs

  const MAX_BITS: nat := 0x7fff_ffff

  function Sign(x: int): int
  {
    if x < 0 then -1 else if x == 0 then 0 else 1
  }

  class BitVec {
    var small: U64
    var large: nat
    var bits: nat
    var isSigned: bool

    predicate IsSmall()
      reads this
    {
      bits <= 64
    }

    /** The representation in use holds a residue. */
    ghost predicate Valid()
      reads this
    {
      1 <= bits <= MAX_BITS && Value() < Pow2(bits)
    }

    /** The residue, whatever its representation. */
    ghost function Value(): nat
      reads this
    {
      if bits <= 64 then small else large
    }

    /** A new value of the same width and flag. */
    twostate predicate Became(v: nat)
      reads this
    {
      Valid() && Value() == v && bits == old(bits) && isSigned == old(isSigned)
    }

    constructor FromSmall(value: U64, width: nat, sign: bool)
      requires 1 <= width <= 64
      ensures Valid() && Value() == Wrap(width, value) && bits == width && isSigned == sign
    {
      small := And(value, MaskU64(width));
      large, bits, isSigned := 0, width, sign;
      new;
      MaskIsOnes(width);
      AndMask(value, width);
    }

    constructor FromLarge(value: nat, width: nat, sign: bool)
      requires 64 < width <= MAX_BITS
      ensures Valid() && Value() == Wrap(width, value) && bits == width && isSigned == sign
    {
      large := value % Pow2(width);
      small, bits, isSigned := 0, width, sign;
    }

    constructor Clone(other: BitVec)
      requires other.Valid()
      ensures Valid() && Value() == other.Value() && bits == other.bits && isSigned == other.isSigned
    {
      small, large, bits, isSigned := other.small, other.large, other.bits, other.isSigned;
    }

    method SetSmall(value: U64)
      requires 1 <= bits <= 64
      modifies this`small
      ensures small == Wrap(bits, value)
    {
      MaskIsOnes(bits);
      AndMask(value, bits);
      small := And(value, MaskU64(bits));
    }

    function Bit(index: nat): bool
      reads this
    {
      if IsSmall() then index < 64 && ShiftRight(small, index) % 2 != 0 else BitAt(large, index)
    }

    function TopBit(): bool
      reads this
      requires bits > 0
    {
      Bit(bits - 1)
    }

    /** The top bit is the sign of the residue. */
    lemma TopBitIsSign()
      requires Valid()
      ensures TopBit() == Msb(bits, Value())
    {
      Bits.TopBit(Value(), bits);
      if IsSmall() {
        BitAtShr(small, bits - 1, 0);
      }
    }

    // ---- arithmetic ----

    method AddAssign(rhs: BitVec)
      requires Valid() && rhs.Valid() && rhs.bits == bits
      modifies this`small, this`large
      ensures Became(Wrap(bits, old(Value()) + old(rhs.Value())))
    {
      if IsSmall() {
        Wrap64(bits, small + rhs.small);
        SetSmall(ToU64(small + rhs.small));
      } else {
        large := large + rhs.large;
        large := large % Pow2(bits);
      }
    }

    method SubAssign(rhs: BitVec)
      requires Valid() && rhs.Valid() && rhs.bits == bits
      modifies this`small, this`large
      ensures Became(Wrap(bits, old(Value()) - old(rhs.Value())))
    {
      if IsSmall() {
        Wrap64(bits, small - rhs.small);
        SetSmall(ToU64(small - rhs.small));
      } else {
        DifferenceResidue(bits, large, rhs.large);
        if large >= rhs.large {
          large := large - rhs.large;
        } else {
          large := Pow2(bits) - (rhs.large - large);
        }
      }
    }

    method MulAssign(rhs: BitVec)
      requires Valid() && rhs.Valid() && rhs.bits == bits
      modifies this`small, this`large
      ensures Became(Wrap(bits, old(Value()) * old(rhs.Value())))
    {
      if IsSmall() {
        Wrap64(bits, small * rhs.small);
        SetSmall(ToU64(small * rhs.small));
      } else {
        large := large * rhs.large;
        large := large % Pow2(bits);
      }
    }

    method NegAssign()
      requires Valid()
      modifies this`small, this`large
      ensures Became(Wrap(bits, 0 - old(Value())))
    {
      NegResidue(bits, Value());
      if IsSmall() {
        MaskIsOnes(bits);
        XorMask(small, bits);
        Wrap64(bits, Pow2(bits) - small);
        WrapShift(bits, 0 - small, 1);
        SetSmall(ToU64(Xor(small, MaskU64(bits)) + 1));
      } else if large != 0 {
        large := Pow2(bits) - large;
      }
    }

    method NotAssign()
      requires Valid()
      modifies this`small, this`large
      ensures Became(Pow2(bits) - 1 - old(Value()))
      ensures Value() == Wrap(bits, -1 - old(Value()))
    {
      var v := if IsSmall() then small else large;
      WrapSmall(bits, Pow2(bits) - 1 - v);
      WrapShift(bits, -1 - v, 1);
      if IsSmall() {
        MaskIsOnes(bits);
        XorMask(small, bits);
        Wrap64(bits, Pow2(bits) - 1 - v);
        SetSmall(ToU64(Xor(small, MaskU64(bits))));
      } else {
        large := Pow2(bits) - 1 - large;
      }
    }

    // ---- shifts ----

    /** A shift amount read from a vector; none if it reaches the width. */
    function ShiftAmount(width: nat): (r: Option<nat>)
      reads this
      ensures r.Some? ==> r.value < width
    {
      var v := if IsSmall() then small else large;
      if v < width && v < 0x1_0000_0000 then Some(v) else None
    }

    method ShlBy(amount: nat)
      requires Valid()
      modifies this`small, this`large
      ensures Became(Wrap(bits, old(Value()) * Pow2(amount)))
    {
      if amount >= bits {
        ShiftOut(bits, Value(), amount);
        WrapSmall(bits, 0);
      }
      if IsSmall() {
        Wrap64(bits, ShiftLeft(small, amount));
        ShiftLeftMultiplies(small, amount);
        SetSmall(if amount < 64 then ToU64(ShiftLeft(small, amount)) else 0);
      } else if amount >= bits {
        large := 0;
      } else {
        ShiftLeftMultiplies(large, amount);
        large := ShiftLeft(large, amount);
        large := large % Pow2(bits);
      }
    }

    method ShrBy(arithmetic: bool, amount: nat)
      requires Valid()
      modifies this`small, this`large
      ensures Became(Shifted(bits, old(Value()), arithmetic, amount))
    {
      TopBitIsSign();
      var fill := arithmetic && TopBit();
      if amount >= bits {
        ShiftAllOut(bits, Value(), amount);
        WrapMinusOne(bits);
        WrapSmall(bits, 0);
        if IsSmall() {
          AllOnes(bits);
          SetSmall(if fill then TWO_64 - 1 else 0);
        } else {
          large := if fill then Pow2(bits) - 1 else 0;
        }
      } else {
        ShrWithin(arithmetic, fill, amount);
      }
    }

    method ShrWithin(arithmetic: bool, fill: bool, amount: nat)
      requires Valid() && amount < bits && fill == (arithmetic && Msb(bits, Value()))
      modifies this`small, this`large
      ensures Became(Shifted(bits, old(Value()), arithmetic, amount))
    {
      FilledShift(bits, Value(), arithmetic, amount);
      if IsSmall() {
        ShrSmall(fill, amount);
      } else {
        ShrLarge(fill, amount);
      }
    }

    method ShrLarge(fill: bool, amount: nat)
      requires amount < bits
      modifies this`large
      ensures large == FilledValue(bits, old(large), fill, amount)
    {
      large := ShiftRight(large, amount);
      if fill {
        large := Or(large, Xor(Pow2(bits) - 1, Pow2(bits - amount) - 1));
      }
    }

    method ShrSmall(fill: bool, amount: nat)
      requires Valid() && bits <= 64 && amount < bits
      requires FilledValue(bits, small, fill, amount) < Pow2(bits)
      modifies this`small
      ensures small == old(FilledValue(bits, small, fill, amount))
    {
      MaskIsOnes(bits);
      FillBits(bits, amount);
      var mask := MaskU64(bits);
      var value := ShiftRight(small, amount);
      var filled := if fill then Or(value, Xor(mask, ShiftRight(mask, amount))) else value;
      assert filled == FilledValue(bits, small, fill, amount);
      WithinWord(bits);
      WrapSmall(bits, filled);
      SetSmall(filled);
    }

    /** An amount at or above the width, also one that no 32-bit number holds, shifts everything out. */
    method ShlAssign(rhs: BitVec)
      requires Valid() && rhs.Valid() && rhs.bits == bits
      modifies this`small, this`large
      ensures Became(Wrap(bits, old(Value()) * Pow2(old(rhs.Value()))))
    {
      AmountReached(bits, Value(), rhs.Value());
      var amount := rhs.ShiftAmount(bits);
      ShlBy(if amount.Some? then amount.value else bits);
    }

    method ShrAssign(rhs: BitVec)
      requires Valid() && rhs.Valid() && rhs.bits == bits
      modifies this`small, this`large
      ensures Became(Shifted(bits, old(Value()), isSigned, old(rhs.Value())))
    {
      AmountReached(bits, Value(), rhs.Value());
      var amount := rhs.ShiftAmount(bits);
      ShrBy(isSigned, if amount.Some? then amount.value else bits);
    }

    method SignedShrAssign(rhs: BitVec)
      requires Valid() && rhs.Valid() && rhs.bits == bits
      modifies this`small, this`large
      ensures Became(Shifted(bits, old(Value()), true, old(rhs.Value())))
    {
      AmountReached(bits, Value(), rhs.Value());
      var amount := rhs.ShiftAmount(bits);
      ShrBy(true, if amount.Some? then amount.value else bits);
    }

    // ---- division ----

    method UdivAssign(rhs: BitVec)
      requires Valid() && rhs.Valid() && rhs.bits == bits && rhs.Value() != 0
      modifies this`small, this`large
      ensures Became(old(Value()) / old(rhs.Value()))
    {
      QuotientBound(Value(), rhs.Value());
      WrapSmall(bits, Value() / rhs.Value());
      if IsSmall() {
        SetSmall(small / rhs.small);
      } else {
        large := large / rhs.large;
      }
    }

    method UremAssign(rhs: BitVec)
      requires Valid() && rhs.Valid() && rhs.bits == bits && rhs.Value() != 0
      modifies this`small, this`large
      ensures Became(old(Value()) % old(rhs.Value()))
    {
      WrapSmall(bits, Value() % rhs.Value());
      if IsSmall() {
        SetSmall(small % rhs.small);
      } else {
        large := large % rhs.large;
      }
    }

    /** The negated divisor, as a copy. */
    method Negated() returns (r: BitVec)
      requires Valid()
      ensures fresh(r) && r.Valid() && r.bits == bits && r.isSigned == isSigned && r.Value() == Wrap(bits, 0 - Value())
    {
      r := new BitVec.Clone(this);
      r.NegAssign();
    }

    /** Divides magnitudes and puts the sign on. */
    method DivAssignWith(lneg: bool, rneg: bool, rhs: BitVec)
      requires Valid() && rhs.Valid() && rhs.bits == bits && rhs.Value() != 0 && rhs != this
      requires (lneg ==> Msb(bits, Value())) && (rneg ==> Msb(bits, rhs.Value()))
      modifies this`small, this`large
      ensures IntOf(bits, rhs.Value(), rneg) != 0
      ensures Became(Wrap(bits, TruncDiv(IntOf(bits, old(Value()), lneg), IntOf(bits, rhs.Value(), rneg))))
    {
      ghost var a, b := Value(), rhs.Value();
      Magnitudes(bits, a, b, lneg, rneg);
      if lneg {
        NegAssign();
      }
      if rneg {
        var divisor := rhs.Negated();
        UdivAssign(divisor);
      } else {
        UdivAssign(rhs);
      }
      if lneg != rneg {
        NegAssign();
      }
    }

    method RemAssignWith(lneg: bool, rneg: bool, rhs: BitVec)
      requires Valid() && rhs.Valid() && rhs.bits == bits && rhs.Value() != 0 && rhs != this
      requires (lneg ==> Msb(bits, Value())) && (rneg ==> Msb(bits, rhs.Value()))
      modifies this`small, this`large
      ensures IntOf(bits, rhs.Value(), rneg) != 0
      ensures Became(Wrap(bits, TruncRem(IntOf(bits, old(Value()), lneg), IntOf(bits, rhs.Value(), rneg))))
    {
      ghost var a, b := Value(), rhs.Value();
      Magnitudes(bits, a, b, lneg, rneg);
      if lneg {
        NegAssign();
      }
      if rneg {
        var divisor := rhs.Negated();
        UremAssign(divisor);
      } else {
        UremAssign(rhs);
      }
      if lneg {
        NegAssign();
      }
    }

    method SignedDivAssign(rhs: BitVec)
      requires Valid() && rhs.Valid() && rhs.bits == bits && rhs.Value() != 0 && rhs != this
      modifies this`small, this`large
      ensures SignedOf(bits, rhs.Value()) != 0
      ensures Became(Wrap(bits, TruncDiv(SignedOf(bits, old(Value())), SignedOf(bits, rhs.Value()))))
    {
      TopBitIsSign();
      rhs.TopBitIsSign();
      DivAssignWith(TopBit(), rhs.TopBit(), rhs);
    }

    method SignedRemAssign(rhs: BitVec)
      requires Valid() && rhs.Valid() && rhs.bits == bits && rhs.Value() != 0 && rhs != this
      modifies this`small, this`large
      ensures SignedOf(bits, rhs.Value()) != 0
      ensures Became(Wrap(bits, TruncRem(SignedOf(bits, old(Value())), SignedOf(bits, rhs.Value()))))
    {
      TopBitIsSign();
      rhs.TopBitIsSign();
      RemAssignWith(TopBit(), rhs.TopBit(), rhs);
    }

    function IsNegative(): bool
      reads this
      requires bits > 0
    {
      isSigned && TopBit()
    }

    /** The quotient by the operands' flags. */
    method DivAssign(rhs: BitVec)
      requires Valid() && rhs.Valid() && rhs.bits == bits && rhs.Value() != 0 && rhs != this
      modifies this`small, this`large
      ensures IntOf(bits, rhs.Value(), rhs.isSigned) != 0
      ensures Became(Wrap(bits, TruncDiv(IntOf(bits, old(Value()), isSigned), IntOf(bits, rhs.Value(), rhs.isSigned))))
    {
      TopBitIsSign();
      rhs.TopBitIsSign();
      DivAssignWith(IsNegative(), rhs.IsNegative(), rhs);
    }

    /** The remainder by the operands' flags. */
    method RemAssign(rhs: BitVec)
      requires Valid() && rhs.Valid() && rhs.bits == bits && rhs.Value() != 0 && rhs != this
      modifies this`small, this`large
      ensures Became(RemResidue(bits, old(Value()), rhs.Value(), isSigned, rhs.isSigned))
    {
      TopBitIsSign();
      rhs.TopBitIsSign();
      RemAssignWith(IsNegative(), rhs.IsNegative(), rhs);
    }

    method RemainderEuclid(rhs: BitVec) returns (r: BitVec)
      requires Valid() && rhs.Valid() && rhs.bits == bits && rhs.Value() != 0
      ensures fresh(r) && r.Valid() && r.bits == bits
      ensures r.Value() == RemEuclid(bits, Value(), rhs.Value(), isSigned, rhs.isSigned)
    {
      r := new BitVec.Clone(this);
      r.RemAssign(rhs);
      EuclidRaises(bits, Value(), rhs.Value(), isSigned, rhs.isSigned, r.Value());
      r.RaiseNegative(rhs);
    }

    /** Adds the magnitude of the divisor if the top bit is set. */
    method RaiseNegative(rhs: BitVec)
      requires Valid() && rhs.Valid() && rhs.bits == bits && rhs != this
      modifies this`small, this`large
      ensures Became(Raised(bits, old(Value()), rhs.Value()))
    {
      TopBitIsSign();
      if TopBit() {
        var magnitude := rhs.Magnitude();
        AddAssign(magnitude);
      }
    }

    /** The magnitude of the signed reading, whatever the flag. */
    method Magnitude() returns (m: BitVec)
      requires Valid()
      ensures fresh(m) && m.Valid() && m.bits == bits && m.Value() == Abs(SignedOf(bits, Value()))
    {
      TopBitIsSign();
      if TopBit() {
        NegMagnitude(bits, Value());
        m := Negated();
      } else {
        m := new BitVec.Clone(this);
      }
    }

    // ---- flags ----

    method SignedCarry(rhs: BitVec) returns (flag: bool)
      requires Valid() && rhs.Valid() && rhs.bits == bits
      ensures flag <==> Overflows(bits, SignedOf(bits, Value()) + SignedOf(bits, rhs.Value()))
    {
      var sum := new BitVec.Clone(this);
      sum.AddAssign(rhs);
      TopBitIsSign();
      rhs.TopBitIsSign();
      sum.TopBitIsSign();
      SignedCarryFlag(bits, Value(), rhs.Value());
      var l, r, v := TopBit(), rhs.TopBit(), sum.TopBit();
      flag := (v != l) && !(l != r);
    }

    method SignedBorrow(rhs: BitVec) returns (flag: bool)
      requires Valid() && rhs.Valid() && rhs.bits == bits
      ensures flag <==> Overflows(bits, SignedOf(bits, Value()) - SignedOf(bits, rhs.Value()))
    {
      var difference := new BitVec.Clone(this);
      difference.SubAssign(rhs);
      TopBitIsSign();
      rhs.TopBitIsSign();
      difference.TopBitIsSign();
      SignedBorrowFlag(bits, Value(), rhs.Value());
      var l, r, v := TopBit(), rhs.TopBit(), difference.TopBit();
      flag := (l != v) && !(v != r);
    }

    /** Unsigned unless either operand is flagged signed. */
    method Carry(rhs: BitVec) returns (flag: bool)
      requires Valid() && rhs.Valid() && rhs.bits == bits
      ensures isSigned || rhs.isSigned ==>
                (flag <==> Overflows(bits, SignedOf(bits, Value()) + SignedOf(bits, rhs.Value())))
      ensures !isSigned && !rhs.isSigned ==> (flag <==> Value() + rhs.Value() >= Pow2(bits))
    {
      if isSigned || rhs.isSigned {
        flag := SignedCarry(rhs);
      } else {
        var sum := new BitVec.Clone(this);
        sum.AddAssign(rhs);
        CarryFlag(bits, Value(), rhs.Value());
        flag := if IsSmall() then small > sum.small else large > sum.large;
      }
    }

    /** -1, 0 or 1 as the signed reading is below, equal to or above the other's. */
    method SignedCompare(other: BitVec) returns (order: int)
      requires Valid() && other.Valid() && other.bits == bits
      ensures order == Sign(SignedOf(bits, Value()) - SignedOf(bits, other.Value()))
    {
      TopBitIsSign();
      other.TopBitIsSign();
      if TopBit() && !other.TopBit() {
        order := -1;
      } else if !TopBit() && other.TopBit() {
        order := 1;
      } else {
        order := Sign(if IsSmall() then small - other.small else large - other.large);
      }
    }

    // ---- casts ----

    /** Another width: the representation may change with it. */
    method Cast(width: nat) returns (r: BitVec)
      requires Valid() && 1 <= width <= MAX_BITS
      ensures fresh(r) && r.Valid() && r.bits == width && r.isSigned == isSigned
      ensures r.Value() == CastValue(bits, Value(), isSigned, width)
    {
      TopBitIsSign();
      var extend := isSigned && width > bits && TopBit();
      CastBits(bits, Value(), isSigned, width);
      if IsSmall() && width <= 64 {
        if extend {
          CastInWord(bits, small, width);
          r := new BitVec.FromSmall(Or(small, Xor(MaskU64(width), MaskU64(bits))), width, isSigned);
        } else {
          r := new BitVec.FromSmall(small, width, isSigned);
        }
      } else if IsSmall() {
        var value: nat := small;
        if extend {
          value := Or(value, (Pow2(width) - 1) - (Pow2(bits) - 1));
        }
        r := new BitVec.FromLarge(value, width, isSigned);
      } else if width <= 64 {
        ResidueInWord(large, width);
        r := new BitVec.FromSmall(large % Pow2(width), width, isSigned);
      } else {
        var value := large;
        if extend {
          value := Or(value, (Pow2(width) - 1) - (Pow2(bits) - 1));
        }
        r := new BitVec.FromLarge(value, width, isSigned);
      }
    }
  }

  // ---- supporting facts ----

  lemma AllOnes(n: nat)
    requires n <= 64
    ensures Wrap(n, TWO_64 - 1) == Pow2(n) - 1
  {
    Wrap64(n, -1);
    WrapMinusOne(n);
  }

  /** Shifting right and or-ing the fill in. */
  function FilledValue(n: nat, a: nat, fill: bool, k: nat): nat
    requires k <= n
  {
    if fill then Or(ShiftRight(a, k), Xor(Pow2(n) - 1, Pow2(n - k) - 1)) else ShiftRight(a, k)
  }

  lemma FilledShift(n: nat, a: nat, arithmetic: bool, k: nat)
    requires n > 0 && a < Pow2(n) && k < n
    ensures Shifted(n, a, arithmetic, k) == FilledValue(n, a, arithmetic && Msb(n, a), k) < Pow2(n)
  {
    if arithmetic && Msb(n, a) {
      FilledSign(n, a, k);
    } else {
      FilledNone(n, a, arithmetic, k);
    }
  }

  lemma FilledSign(n: nat, a: nat, k: nat)
    requires n > 0 && a < Pow2(n) && k < n && Msb(n, a)
    ensures Shifted(n, a, true, k) == FilledValue(n, a, true, k) < Pow2(n)
  {
    ShiftRightDivides(a, k);
    FillBits(n, k);
    SignFill(n, a, k);
  }

  lemma FilledNone(n: nat, a: nat, arithmetic: bool, k: nat)
    requires n > 0 && a < Pow2(n) && k < n && !(arithmetic && Msb(n, a))
    ensures Shifted(n, a, arithmetic, k) == FilledValue(n, a, false, k) < Pow2(n)
  {
    ShiftRightDivides(a, k);
    ShiftedFits(n, a, k);
    if arithmetic {
      LogicalSmall(n, a, k);
    }
  }

  lemma ShiftedFits(n: nat, a: nat, k: nat)
    requires a < Pow2(n)
    ensures a / Pow2(k) < Pow2(n)
  {
    ShiftRightDivides(a, k);
  }

  /** Shifting by an amount at or above the width is shifting by the width. */
  lemma AmountReached(n: nat, a: nat, k: nat)
    requires 0 < n <= MAX_BITS && a < Pow2(n)
    ensures k >= n ==> Wrap(n, a * Pow2(k)) == Wrap(n, a * Pow2(n))
    ensures k >= n ==> a / Pow2(k) == a / Pow2(n) && SignedOf(n, a) / Pow2(k) == SignedOf(n, a) / Pow2(n)
  {
    if k >= n {
      ShiftOut(n, a, k);
      ShiftOut(n, a, n);
      ShiftAllOut(n, a, k);
      ShiftAllOut(n, a, n);
    }
  }

  lemma MulAtLeast(b: nat, x: nat)
    requires b > 0
    ensures b * x >= x
  {
    var c: nat := b - 1;
    assert c * x >= 0;
    assert b * x == c * x + x;
  }

  lemma QuotientBound(a: nat, b: nat)
    requires b > 0
    ensures a / b <= a
  {
    var q, r := a / b, a % b;
    assert a == b * q + r;
    MulAtLeast(b, q);
  }

  /** The magnitude of a residue that is read with a sign. */
  lemma MagnitudeOf(n: nat, a: nat, neg: bool)
    requires n > 0 && a < Pow2(n) && (neg ==> Msb(n, a))
    ensures Abs(IntOf(n, a, neg)) == if neg then Wrap(n, 0 - a) else a
    ensures IntOf(n, a, neg) < 0 <==> neg
    ensures a > 0 ==> IntOf(n, a, neg) != 0
  {
    if neg {
      NegMagnitude(n, a);
    }
  }

  lemma RemainderBound(a: nat, b: nat)
    requires b > 0
    ensures a % b <= a
  {
    assert a == b * (a / b) + a % b;
    assert b * (a / b) >= 0;
  }

  /** Quotient and remainder of a residue are residues. */
  lemma DivisionFits(n: nat, a: nat, b: nat)
    requires a < Pow2(n) && b > 0
    ensures Wrap(n, a / b) == a / b && Wrap(n, a % b) == a % b
  {
    QuotientBound(a, b);
    RemainderBound(a, b);
    WrapSmall(n, a / b);
    WrapSmall(n, a % b);
  }

  /** The residues of the signed quotient and remainder, from the magnitudes. */
  ghost predicate SignsCombine(n: nat, x: int, y: int, a: nat, b: nat)
    requires y != 0 && b > 0
  {
    && Wrap(n, TruncDiv(x, y)) == (if (x < 0) != (y < 0) then Wrap(n, 0 - a / b) else a / b)
    && Wrap(n, TruncRem(x, y)) == (if x < 0 then Wrap(n, 0 - a % b) else a % b)
  }

  lemma CombineSigns(n: nat, x: int, y: int, a: nat, b: nat)
    requires y != 0 && a == Abs(x) && b == Abs(y) && a < Pow2(n)
    ensures SignsCombine(n, x, y, a, b)
  {
    DivisionFits(n, a, b);
  }

  /** The magnitudes that division works on. */
  lemma Magnitudes(n: nat, a: nat, b: nat, lneg: bool, rneg: bool)
    requires n > 0 && a < Pow2(n) && 0 < b < Pow2(n)
    requires (lneg ==> Msb(n, a)) && (rneg ==> Msb(n, b))
    ensures var x, y := IntOf(n, a, lneg), IntOf(n, b, rneg);
            var ma, mb := if lneg then Wrap(n, 0 - a) else a, if rneg then Wrap(n, 0 - b) else b;
            && y != 0 && mb > 0 && (x < 0 <==> lneg) && (y < 0 <==> rneg)
            && SignsCombine(n, x, y, ma, mb)
  {
    MagnitudeOf(n, a, lneg);
    MagnitudeOf(n, b, rneg);
    CombineSigns(n, IntOf(n, a, lneg), IntOf(n, b, rneg), if lneg then Wrap(n, 0 - a) else a,
                 if rneg then Wrap(n, 0 - b) else b);
  }

  function Raised(n: nat, r: nat, b: nat): nat
    requires n > 0
  {
    if Msb(n, r) then Wrap(n, r + Abs(SignedOf(n, b))) else r
  }

  lemma EuclidRaises(n: nat, a: nat, b: nat, signedA: bool, signedB: bool, r: nat)
    requires n > 0 && a < Pow2(n) && 0 < b < Pow2(n) && r == RemResidue(n, a, b, signedA, signedB)
    ensures RemEuclid(n, a, b, signedA, signedB) == Raised(n, r, b)
  {
  }

  /** What a cast within one word computes stays within the word. */
  lemma CastInWord(n: nat, a: nat, m: nat)
    requires n <= m <= 64 && a < Pow2(n)
    ensures MaskU64(n) == Pow2(n) - 1 && MaskU64(m) == Pow2(m) - 1
    ensures Or(a, Xor(Pow2(m) - 1, Pow2(n) - 1)) < TWO_64
  {
    MaskIsOnes(n);
    MaskIsOnes(m);
    WithinWord(m);
    Pow2Monotone(n, m);
    XorBound(Pow2(m) - 1, Pow2(n) - 1, m);
    OrBound(a, Xor(Pow2(m) - 1, Pow2(n) - 1), m);
  }

  lemma ResidueInWord(x: nat, m: nat)
    requires m <= 64
    ensures x % Pow2(m) < TWO_64
  {
    WithinWord(m);
  }

  /** The bits a cast puts in or drops. */
  lemma CastBits(n: nat, a: nat, signed: bool, m: nat)
    requires 0 < n && 0 < m && a < Pow2(n)
    ensures var extend := signed && m > n && Msb(n, a);
            && (extend ==>
                  && Pow2(n) <= Pow2(m) && Xor(Pow2(m) - 1, Pow2(n) - 1) == Pow2(m) - Pow2(n)
                  && Or(a, Pow2(m) - Pow2(n)) == CastValue(n, a, signed, m)
                  && Wrap(m, Or(a, Pow2(m) - Pow2(n))) == CastValue(n, a, signed, m))
            && (!extend ==> Wrap(m, a) == CastValue(n, a, signed, m))
            && Wrap(m, Wrap(m, a)) == Wrap(m, a)
  {
    WrapSmall(m, Wrap(m, a));
    if signed && m > n && Msb(n, a) {
      SignBitsOr(n, a, m);
      XorMasks(n, m);
      WrapSmall(m, CastValue(n, a, signed, m));
    } else if m <= n {
      NarrowingKeepsResidue(n, a, signed, m);
    }
  }
}
