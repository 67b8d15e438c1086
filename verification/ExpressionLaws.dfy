/** What the operators of pattern expressions compute, in terms of bits and of signed integers
    (fugue-lifter-runtime/src/pattern.rs:426-492). */
module ExpressionLaws {
  import opened Prelude
  import opened Bits
  import opened TokenFields
  import opened PatternExpressions
  import opened DecodeTree
  import Modular
  import DecodeMachine

  // ---- sums and products ----

  /** Plus is the sum, less 2^64 where that is reached. */
  lemma PlusCarries(l: U64, r: U64)
    ensures Apply(Plus, l, r).Some?
    ensures Apply(Plus, l, r).value + (if l + r >= TWO_64 then TWO_64 else 0) == l + r
  {
  }

  /** Sub takes away what Plus added, and Plus puts back what Sub took. */
  lemma SubUndoesPlus(l: U64, r: U64)
    ensures Apply(Plus, l, r).Some? && Apply(Sub, Apply(Plus, l, r).value, r) == Some(l)
    ensures Apply(Sub, l, r).Some? && Apply(Plus, Apply(Sub, l, r).value, r) == Some(l)
  {
  }

  /** Minus is what cancels under Plus. */
  lemma MinusCancels(v: U64)
    ensures Apply(Plus, v, Negate(Minus, v)) == Some(0)
  {
  }

  /** Mult is the residue of the product of the signed readings. */
  lemma MultIsSigned(l: U64, r: U64)
    ensures Apply(Mult, l, r).Some?
    ensures exists k: int :: Signed64(l) * Signed64(r) == Apply(Mult, l, r).value + k * TWO_64
  {
    var a := if Signed64(l) < 0 then 1 else 0;
    var b := if Signed64(r) < 0 then 1 else 0;
    var q := l * r / TWO_64;
    SignedProduct(l, r, a, b);
    assert l * r == q * TWO_64 + ToU64(l * r);
    var k := q - a * r - b * l + a * b * TWO_64;
    assert Signed64(l) * Signed64(r) == ToU64(l * r) + k * TWO_64 by {
      Distribute(q, a * r, b * l, a * b * TWO_64);
    }
  }

  lemma SignedProduct(l: int, r: int, a: int, b: int)
    ensures (l - a * TWO_64) * (r - b * TWO_64) ==
            l * r - (a * r) * TWO_64 - (b * l) * TWO_64 + (a * b * TWO_64) * TWO_64
  {
    assert (l - a * TWO_64) * (r - b * TWO_64) == l * r - l * (b * TWO_64) - (a * TWO_64) * r + (a * TWO_64) * (b * TWO_64);
    assert l * (b * TWO_64) == (b * l) * TWO_64;
    assert (a * TWO_64) * r == (a * r) * TWO_64;
    assert (a * TWO_64) * (b * TWO_64) == (a * b * TWO_64) * TWO_64;
  }

  lemma Distribute(q: int, x: int, y: int, z: int)
    ensures (q - x - y + z) * TWO_64 == q * TWO_64 - x * TWO_64 - y * TWO_64 + z * TWO_64
  {
  }

  // ---- bits ----

  lemma BitwiseBits(l: U64, r: U64, i: nat)
    ensures Apply(PatternExpressions.And, l, r).Some? && Apply(PatternExpressions.Or, l, r).Some?
    ensures Apply(PatternExpressions.Xor, l, r).Some?
    ensures BitAt(Apply(PatternExpressions.And, l, r).value, i) <==> BitAt(l, i) && BitAt(r, i)
    ensures BitAt(Apply(PatternExpressions.Or, l, r).value, i) <==> BitAt(l, i) || BitAt(r, i)
    ensures BitAt(Apply(PatternExpressions.Xor, l, r).value, i) <==> BitAt(l, i) != BitAt(r, i)
  {
    BitAtAnd(l, r, i);
    BitAtOr(l, r, i);
    BitAtXor(l, r, i);
  }

  /** Not complements every bit. */
  lemma NotComplements(v: U64, i: nat)
    ensures BitAt(Negate(PatternExpressions.Not, v), i) <==> i < 64 && !BitAt(v, i)
  {
    BitAtNot64(v, i);
  }

  /** LeftShift, by the low eight bits of its right operand, moves every bit up and fills with
      zeros; from 64 on nothing is left. */
  lemma LeftShiftBits(l: U64, r: U64, i: nat)
    ensures Apply(LeftShift, l, r).Some?
    ensures BitAt(Apply(LeftShift, l, r).value, i) <==> r % 256 <= i < 64 && BitAt(l, i - r % 256)
    ensures r % 256 >= 64 ==> Apply(LeftShift, l, r).value == 0
  {
    BitAtShl64(l, r % 256, i);
  }

  /** RightShift divides the signed value by a power of two, rounding down; from 64 on only the sign
      is left. */
  lemma RightShiftDivides(l: U64, r: U64)
    ensures Apply(RightShift, l, r).Some?
    ensures r % 256 < 64 ==> Signed64(Apply(RightShift, l, r).value) == Signed64(l) / Pow2(r % 256)
    ensures r % 256 >= 64 ==> Signed64(Apply(RightShift, l, r).value) == if Signed64(l) < 0 then -1 else 0
  {
    var k: nat := r % 256;
    if k < 64 {
      SarDivides(l, k);
    }
  }

  lemma SarDivides(a: U64, k: nat)
    requires k < 64
    ensures Signed64(Sar64(a, k)) == Signed64(a) / Pow2(k)
  {
    ShiftRightDivides(a, k);
    if Signed64(a) < 0 {
      FilledFromAbove(a, k);
    } else {
      QuotientSmall(a, Pow2(k));
    }
  }

  lemma QuotientSmall(a: nat, p: nat)
    requires p > 0
    ensures a / p <= a
  {
    if a / p > a {
      MulStep(p, a, a / p);
      AtLeast(p, a);
    }
  }

  lemma AtLeast(p: nat, a: nat)
    requires p > 0
    ensures p * a >= a
  {
  }

  /** The sign fill stands for the multiple of 2^64 that the signed reading takes away. */
  lemma FilledFromAbove(a: U64, k: nat)
    requires k < 64 && Signed64(a) < 0
    ensures Signed64(Or64(ShiftRight(a, k), HighBits(64 - k))) == Signed64(a) / Pow2(k)
  {
    var p, q := Pow2(k), Pow2(64 - k);
    Pow2Of64();
    Pow2Add(k, 64 - k);
    ShiftRightDivides(a, k);
    QuotientUnder(a, p, q);
    OrFill(a / p, k);
    QuotientDown(a, p, q);
    HalfQuotient(a, k);
  }

  lemma QuotientUnder(a: nat, p: nat, q: nat)
    requires p > 0 && a < p * q
    ensures a / p < q
  {
    if a / p > q {
      MulStep(p, q, a / p);
    }
  }

  lemma OrFill(x: nat, k: nat)
    requires k < 64 && x < Pow2(64 - k)
    ensures Pow2(64 - k) <= TWO_64 && Bits.Or(x, TWO_64 - Pow2(64 - k)) == TWO_64 - Pow2(64 - k) + x
  {
    Pow2Of64();
    Pow2Add(k, 64 - k);
    OrDisjoint(Pow2(k) - 1, x, 64 - k);
    LessOne(Pow2(k), Pow2(64 - k));
    Pow2Monotone(64 - k, 64);
  }

  lemma LessOne(x: int, y: int)
    ensures (x - 1) * y == x * y - y
  {
  }

  lemma QuotientDown(a: int, p: nat, q: nat)
    requires p > 0
    ensures (a - p * q) / p == a / p - q
  {
    assert a == p * (a / p) + a % p;
    assert p * (a / p - q) == p * (a / p) - p * q;
    ModUnique(a - p * q, p, a / p - q, a % p);
  }

  /** A quotient of the upper half lies in the upper half of the quotients. */
  lemma HalfQuotient(a: U64, k: nat)
    requires k < 64 && Signed64(a) < 0
    ensures 2 * (a / Pow2(k)) >= Pow2(64 - k)
  {
    Pow2Of64();
    Pow2Add(k, 63 - k);
    Doubled(63);
    Doubled(63 - k);
    QuotientOver(a, Pow2(k), Pow2(63 - k));
  }

  lemma Doubled(n: nat)
    ensures Pow2(n + 1) == 2 * Pow2(n)
  {
  }

  lemma QuotientOver(a: nat, p: nat, h: nat)
    requires p > 0 && a >= p * h
    ensures a / p >= h
  {
    if a / p < h {
      MulStep(p, a / p, h);
    }
  }

  // ---- division ----

  /** Div fails exactly at zero. Otherwise it is the quotient, rounded towards zero, of the signed
      readings, with a remainder below the divisor that has the sign of the dividend; the one
      quotient that does not fit, of the smallest value by -1, wraps. */
  lemma DivTruncates(l: U64, r: U64)
    ensures Apply(Div, l, r).None? <==> r == 0
    ensures r != 0 ==>
              exists q: int, m: int ::
                && Signed64(l) == q * Signed64(r) + m
                && Modular.Abs(m) < Modular.Abs(Signed64(r)) && (m == 0 || (m < 0 <==> Signed64(l) < 0))
                && Apply(Div, l, r) == Some(ToU64(q))
                && (Signed64(Apply(Div, l, r).value) == q || (Signed64(l) == -0x8000_0000_0000_0000 && Signed64(r) == -1))
  {
    if r != 0 {
      var x, y := Signed64(l), Signed64(r);
      Modular.TruncatingDivision(x, y);
      var q, m := Modular.TruncDiv(x, y), Modular.TruncRem(x, y);
      assert x == q * y + m;
      QuotientFits(x, y, q, m);
    }
  }

  lemma QuotientFits(x: int, y: int, q: int, m: int)
    requires -0x8000_0000_0000_0000 <= x < 0x8000_0000_0000_0000 && y != 0 && x == q * y + m
    requires Modular.Abs(m) < Modular.Abs(y) && (m == 0 || (m < 0 <==> x < 0))
    ensures Signed64(ToU64(q)) == q || (x == -0x8000_0000_0000_0000 && y == -1)
  {
    QuotientSize(x, y, q, m);
  }

  lemma QuotientSize(x: int, y: int, q: int, m: int)
    requires y != 0 && x == q * y + m && Modular.Abs(m) < Modular.Abs(y) && (m == 0 || (m < 0 <==> x < 0))
    ensures Modular.Abs(q) <= Modular.Abs(x) && (y == -1 ==> q == -x)
    ensures Modular.Abs(y) >= 2 && x != 0 ==> Modular.Abs(q) < Modular.Abs(x)
    ensures y == 1 ==> q == x
  {
    AbsProduct(q, y);
    ProductSize(x, q * y, m, Modular.Abs(q), Modular.Abs(y));
    ByUnit(q, y);
  }

  lemma ByUnit(q: int, y: int)
    ensures y == 1 ==> q * y == q
    ensures y == -1 ==> q * y == -q
  {
  }

  lemma ProductSize(x: int, p: int, m: int, a: nat, b: nat)
    requires b > 0 && Modular.Abs(p) == a * b && x == p + m && Modular.Abs(m) < b && (m == 0 || (m < 0 <==> x < 0))
    ensures a <= Modular.Abs(x) && (b >= 2 && x != 0 ==> a < Modular.Abs(x))
  {
    Multiples(a, b);
  }

  lemma Multiples(a: nat, b: nat)
    requires b > 0
    ensures a * b >= a && (a > 0 ==> a * b >= b) && (a > 0 && b >= 2 ==> a * b > a)
  {
    if a > 0 {
      MulStep(b, 0, a);
      MulStep(a, 0, b);
      if b >= 2 {
        MulStep(a, 1, b);
      }
    }
  }

  lemma AbsProduct(x: int, y: int)
    ensures Modular.Abs(x * y) == Modular.Abs(x) * Modular.Abs(y)
  {
    if x >= 0 && y >= 0 {
      Signs(x, y);
    } else if x >= 0 {
      Signs(x, -y);
    } else if y >= 0 {
      Signs(-x, y);
    } else {
      Signs(-x, -y);
    }
  }

  lemma Signs(a: int, b: int)
    requires a >= 0 && b >= 0
    ensures a * b >= 0 && (-a) * b == -(a * b) && a * (-b) == -(a * b) && (-a) * (-b) == a * b
  {
  }

  // ---- what the machine answers ----

  /** The machine on two constants and an operator answers the operator's value, the left operand
      pushed first. */
  lemma MachineApplies(i: Instruction, at: Place, nodes: seq<DecodeMachine.Node>, b: BinaryOp, l: U64, r: U64)
    requires Loaded(i) && |nodes| == DecodeMachine.MAX_CTOR_STATES
    ensures PatternExpressions.Result(Run(i, at, [Constant(l), Constant(r), Binary(b)], State([], nodes))) == Apply(b, l, r)
  {
    RunSplit(i, at, [Constant(l), Constant(r)], [Binary(b)], State([], nodes));
    RunSplit(i, at, [Constant(l)], [Constant(r)], State([], nodes));
    assert [Constant(l), Constant(r)] + [Binary(b)] == [Constant(l), Constant(r), Binary(b)];
    assert [Constant(l)] + [Constant(r)] == [Constant(l), Constant(r)];
    RunOne(i, at, Constant(l), State([], nodes));
    RunOne(i, at, Constant(r), State([] + [l], nodes));
    RunOne(i, at, Binary(b), State([] + [l] + [r], nodes));
  }

  lemma MachineNegates(i: Instruction, at: Place, nodes: seq<DecodeMachine.Node>, u: UnaryOp, v: U64)
    requires Loaded(i) && |nodes| == DecodeMachine.MAX_CTOR_STATES
    ensures PatternExpressions.Result(Run(i, at, [Constant(v), Unary(u)], State([], nodes))) == Some(Negate(u, v))
  {
    RunSplit(i, at, [Constant(v)], [Unary(u)], State([], nodes));
    assert [Constant(v)] + [Unary(u)] == [Constant(v), Unary(u)];
    RunOne(i, at, Constant(v), State([], nodes));
    RunOne(i, at, Unary(u), State([] + [v], nodes));
  }

  /** The machine on a single operation that reads the instruction: a token field is read at the
      offset of the current node. */
  lemma MachineReads(i: Instruction, at: Place, nodes: seq<DecodeMachine.Node>, op: PatternOp)
    requires Loaded(i) && |nodes| == DecodeMachine.MAX_CTOR_STATES && IsLeaf(op)
    ensures var r := PatternExpressions.Result(Run(i, at, [op], State([], nodes)));
            && (op.Token? ==> r == FieldValue(i.buffer, nodes[at.point].offset, op.field))
            && (op.ContextField? ==> r == Some(i.context(op.id)))
            && (op.Constant? ==> r == Some(op.value))
            && (op.StartInstruction? ==> r == Some(i.start))
            && (op.EndInstruction? ==> r == Some(i.end))
            && (op.Next2Instruction? ==> r == i.next2)
  {
    RunOne(i, at, op, State([], nodes));
  }

  /** An operand of a decoded tree that encloses the current node: by a relative offset it starts
      that far behind its constructor, by index where that operand starts. */
  lemma OperandStarts(nodes: seq<DecodeMachine.Node>, at: Place, t: Tree, n: U8)
    requires |nodes| == DecodeMachine.MAX_CTOR_STATES && Lay(nodes, t) && t.ctor.Some?
    requires Enclosing(nodes, at.point, at.depth, t.ctor.value.id) == Some(t.slot)
    ensures Origin(nodes, at, t.ctor.value.id, Relative(n)) == Some((ToU8(t.offset + n), t.length))
    ensures n < |t.kids| ==> Origin(nodes, at, t.ctor.value.id, OperandAt(n)) == Some((t.kids[n].offset, t.length))
  {
    if n < |t.kids| {
      LayKid(nodes, t, n);
    }
  }
}
