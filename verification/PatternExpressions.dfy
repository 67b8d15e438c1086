/** Pattern expressions: trees laid out in postfix order, and the stack machine that evaluates them
    with one scratch node (fugue-lifter-runtime/src/pattern.rs:11-52, 152-501). */
module PatternExpressions {
  import opened Prelude
  import opened Bits
  import opened Grammar
  import opened DecodeMachine
  import opened DecodeWalk
  import opened TokenFields
  import Modular

  type Field = f: TokenField | Ordered(f) witness TokenField(false, false, 0, 0, 0, 0, 0)

  datatype OperandOffset = Relative(offset: U8) | OperandAt(index: U8)

  datatype BinaryOp = Plus | Sub | Mult | LeftShift | RightShift | And | Or | Xor | Div

  datatype UnaryOp = Minus | Not

  datatype PatternOp =
    | Token(field: Field)
    | ContextField(id: nat)
    | Constant(value: U64)
    | StartInstruction
    | EndInstruction
    | Next2Instruction
    | Operand(ctor: Ctor, offset: OperandOffset, operations: seq<PatternOp>)
    | Binary(binary: BinaryOp)
    | Unary(unary: UnaryOp)

  /** What does not change while an expression is evaluated; `next2` fails if the instruction after
      the next cannot be decoded. */
  datatype Instruction = Instruction(
    buffer: seq<U8>, context: nat -> U64, start: U64, end: U64, next2: Option<U64>)

  predicate Loaded(i: Instruction)
  {
    |i.buffer| == MAX_INSN_BYTES
  }

  // ---- 64-bit arithmetic ----

  function Apply(op: BinaryOp, l: U64, r: U64): Option<U64>
  {
    match op
    case Plus => Some(ToU64(l + r))
    case Sub => Some(ToU64(l - r))
    case Mult => Some(ToU64(l * r))
    case LeftShift => Some(Shl64(l, r % 256))
    case RightShift => Some(Sar64(l, r % 256))
    case And => Some(And64(l, r))
    case Or => Some(Or64(l, r))
    case Xor => Pow2Of64(); XorBound(l, r, 64); Some(Bits.Xor(l, r))
    case Div => if r == 0 then None else Some(ToU64(Modular.TruncDiv(Signed64(l), Signed64(r))))
  }

  function Negate(op: UnaryOp, v: U64): U64
  {
    match op
    case Minus => ToU64(0 - v)
    case Not => Not64(v)
  }

  // ---- where an operand's value is read ----

  /** Where an expression is evaluated: the current node, its depth and the first free node. */
  datatype Place = Place(point: U8, depth: int, alloc: U8)

  /** The nearest node on the way to the root with this constructor. */
  function Enclosing(nodes: seq<Node>, point: U8, depth: int, id: nat): (r: Option<U8>)
    requires |nodes| == MAX_CTOR_STATES
    decreases depth
  {
    if nodes[point].ctor.Some? && nodes[point].ctor.value.id == id then Some(point)
    else if depth <= 0 then None
    else Enclosing(nodes, nodes[point].parent, depth - 1, id)
  }

  /** Offset and length of the scratch node for an operand. An operand of a constructor that does
      not enclose the current node is read at zero. */
  function Origin(nodes: seq<Node>, at: Place, id: nat, offset: OperandOffset): (r: Option<(U8, U8)>)
    requires |nodes| == MAX_CTOR_STATES
  {
    match Enclosing(nodes, at.point, at.depth, id)
    case None => Some((0, 0))
    case Some(q) =>
      match offset
      case Relative(o) => Some((ToU8(nodes[q].offset + o), nodes[q].length))
      case OperandAt(index) =>
        if nodes[q].operands + index >= MAX_CTOR_STATES then None
        else Some((nodes[nodes[q].operands + index].offset, nodes[q].length))
  }

  const BLANK_NODE: Node := Node(None, None, INVALID, INVALID, 0, 0)

  function ScratchNode(c: Ctor, origin: (U8, U8)): Node
  {
    Node(Some(c), None, INVALID, INVALID, origin.0, origin.1)
  }

  // ---- the stack machine ----

  /** What the machine leaves: its stack and the nodes. */
  datatype State = State(stack: seq<U64>, nodes: seq<Node>)

  function LeafValue(i: Instruction, offset: U8, op: PatternOp): Option<U64>
    requires Loaded(i)
  {
    match op
    case Token(f) => FieldValue(i.buffer, offset, f)
    case ContextField(id) => Some(i.context(id))
    case Constant(v) => Some(v)
    case StartInstruction => Some(i.start)
    case EndInstruction => Some(i.end)
    case Next2Instruction => i.next2
    case _ => None
  }

  predicate IsLeaf(op: PatternOp)
  {
    !op.Operand? && !op.Binary? && !op.Unary?
  }

  function Pushed(stack: seq<U64>, v: Option<U64>, nodes: seq<Node>): (r: Option<State>)
    ensures r.Some? ==> r.value.nodes == nodes
  {
    match v
    case None => None
    case Some(x) => Some(State(stack + [x], nodes))
  }

  function Step(i: Instruction, at: Place, op: PatternOp, s: State): (r: Option<State>)
    requires Loaded(i) && |s.nodes| == MAX_CTOR_STATES
    ensures r.Some? ==> |r.value.nodes| == MAX_CTOR_STATES
    decreases op, 0
  {
    var n := |s.stack|;
    match op
    case Binary(b) =>
      if n < 2 then None else Pushed(s.stack[..n - 2], Apply(b, s.stack[n - 2], s.stack[n - 1]), s.nodes)
    case Unary(u) =>
      if n < 1 then None else Pushed(s.stack[..n - 1], Some(Negate(u, s.stack[n - 1])), s.nodes)
    case Operand(c, offset, operations) =>
      var origin :- Origin(s.nodes, at, c.id, offset);
      var inner :- Run(i, Place(at.alloc, 0, at.alloc), operations, State([], s.nodes[at.alloc := ScratchNode(c, origin)]));
      if inner.stack == [] then None
      else Some(State(s.stack + [inner.stack[|inner.stack| - 1]], inner.nodes[at.alloc := BLANK_NODE]))
    case _ => Pushed(s.stack, LeafValue(i, s.nodes[at.point].offset, op), s.nodes)
  }

  /** Runs the operations in order. */
  function Run(i: Instruction, at: Place, operations: seq<PatternOp>, s: State): (r: Option<State>)
    requires Loaded(i) && |s.nodes| == MAX_CTOR_STATES
    ensures r.Some? ==> |r.value.nodes| == MAX_CTOR_STATES
    decreases operations, 1
  {
    if operations == [] then Some(s)
    else
      var s' :- Step(i, at, operations[0], s);
      Run(i, at, operations[1..], s')
  }

  // ---- trees ----

  datatype Expr =
    | Leaf(op: PatternOp)
    | OperandValue(ctor: Ctor, offset: OperandOffset, value: Expr)
    | Apply1(unary: UnaryOp, arg: Expr)
    | Apply2(binary: BinaryOp, lhs: Expr, rhs: Expr)

  /** Operands first, then the operator. */
  function Postfix(e: Expr): (r: seq<PatternOp>)
  {
    match e
    case Leaf(op) => [op]
    case OperandValue(c, o, v) => [PatternOp.Operand(c, o, Postfix(v))]
    case Apply1(u, a) => Postfix(a) + [Unary(u)]
    case Apply2(b, l, r) => Postfix(l) + Postfix(r) + [Binary(b)]
  }

  predicate WellFormedExpr(e: Expr)
  {
    match e
    case Leaf(op) => IsLeaf(op)
    case OperandValue(_, _, v) => WellFormedExpr(v)
    case Apply1(_, a) => WellFormedExpr(a)
    case Apply2(_, l, r) => WellFormedExpr(l) && WellFormedExpr(r)
  }

  /** Where an operand's expression is evaluated. */
  function Scratch(at: Place): Place
  {
    Place(at.alloc, 0, at.alloc)
  }

  /** The value of a tree at a node: an operand's expression has a scratch node of its own, with the
      offset of the operand. */
  function Value(i: Instruction, at: Place, nodes: seq<Node>, e: Expr): Option<U64>
    requires Loaded(i) && |nodes| == MAX_CTOR_STATES
    decreases e
  {
    match e
    case Leaf(op) => LeafValue(i, nodes[at.point].offset, op)
    case OperandValue(c, o, v) =>
      var origin :- Origin(nodes, at, c.id, o);
      Value(i, Scratch(at), nodes[at.alloc := ScratchNode(c, origin)], v)
    case Apply1(u, a) =>
      var v :- Value(i, at, nodes, a);
      Some(Negate(u, v))
    case Apply2(b, l, r) =>
      var x :- Value(i, at, nodes, l);
      var y :- Value(i, at, nodes, r);
      Apply(b, x, y)
  }

  // ---- nesting ----

  predicate HasOperand(e: Expr)
  {
    match e
    case Leaf(_) => false
    case OperandValue(_, _, _) => true
    case Apply1(_, a) => HasOperand(a)
    case Apply2(_, l, r) => HasOperand(l) || HasOperand(r)
  }

  /** The expression looks at the node it is evaluated on. */
  predicate LooksAtNode(e: Expr)
  {
    match e
    case Leaf(op) => op.Token?
    case OperandValue(_, _, _) => true
    case Apply1(_, a) => LooksAtNode(a)
    case Apply2(_, l, r) => LooksAtNode(l) || LooksAtNode(r)
  }

  /** Within an operand's expression, nothing looks at the node after an operand was evaluated. */
  predicate QuietInside(e: Expr)
  {
    match e
    case Leaf(_) => true
    case OperandValue(_, _, v) => QuietInside(v)
    case Apply1(_, a) => QuietInside(a)
    case Apply2(_, l, r) => QuietInside(l) && QuietInside(r) && (HasOperand(l) ==> !LooksAtNode(r))
  }

  /** That holds of the expressions of all operands; in particular where they name no operands. */
  predicate Quiet(e: Expr)
  {
    match e
    case Leaf(_) => true
    case OperandValue(_, _, v) => QuietInside(v)
    case Apply1(_, a) => Quiet(a)
    case Apply2(_, l, r) => Quiet(l) && Quiet(r)
  }

  /** Operands appear, but the expressions of operands name no operands themselves. */
  predicate OneLevel(e: Expr)
  {
    match e
    case Leaf(_) => true
    case OperandValue(_, _, v) => !HasOperand(v)
    case Apply1(_, a) => OneLevel(a)
    case Apply2(_, l, r) => OneLevel(l) && OneLevel(r)
  }

  lemma {:induction false} NoOperandIsQuiet(e: Expr)
    requires !HasOperand(e)
    ensures QuietInside(e)
    decreases e
  {
    match e {
      case Leaf(_) =>
      case Apply1(_, a) => NoOperandIsQuiet(a);
      case Apply2(_, l, r) =>
        NoOperandIsQuiet(l);
        NoOperandIsQuiet(r);
    }
  }

  lemma {:induction false} OneLevelIsQuiet(e: Expr)
    requires OneLevel(e)
    ensures Quiet(e)
    decreases e
  {
    match e {
      case Leaf(_) =>
      case OperandValue(_, _, v) => NoOperandIsQuiet(v);
      case Apply1(_, a) => OneLevelIsQuiet(a);
      case Apply2(_, l, r) =>
        OneLevelIsQuiet(l);
        OneLevelIsQuiet(r);
    }
  }

  // ---- the tree's value is what the machine computes ----

  /** The way from the node to the root stays among the allocated nodes. */
  ghost predicate PathInside(nodes: seq<Node>, point: U8, depth: int, alloc: U8)
    requires |nodes| == MAX_CTOR_STATES
    decreases depth
  {
    point < alloc && (depth <= 0 || PathInside(nodes, nodes[point].parent, depth - 1, alloc))
  }

  /** An operand reference names an allocated node. */
  ghost predicate OperandInside(nodes: seq<Node>, at: Place, id: nat, offset: OperandOffset)
    requires |nodes| == MAX_CTOR_STATES
  {
    var q := Enclosing(nodes, at.point, at.depth, id);
    q.Some? && offset.OperandAt? ==> nodes[q.value].operands + offset.index < at.alloc
  }

  ghost predicate Anchored(nodes: seq<Node>, at: Place, e: Expr)
    requires |nodes| == MAX_CTOR_STATES
  {
    match e
    case Leaf(_) => true
    case OperandValue(c, o, _) => OperandInside(nodes, at, c.id, o)
    case Apply1(_, a) => Anchored(nodes, at, a)
    case Apply2(_, l, r) => Anchored(nodes, at, l) && Anchored(nodes, at, r)
  }

  /** All nodes but the scratch node are the same. */
  ghost predicate SameBut(m: seq<Node>, n: seq<Node>, alloc: U8)
  {
    |m| == |n| == MAX_CTOR_STATES && forall q :: 0 <= q < MAX_CTOR_STATES && q != alloc ==> m[q] == n[q]
  }

  lemma {:induction false} EnclosingSame(m: seq<Node>, n: seq<Node>, point: U8, depth: int, alloc: U8, id: nat)
    requires SameBut(m, n, alloc) && PathInside(m, point, depth, alloc)
    ensures PathInside(n, point, depth, alloc)
    ensures Enclosing(m, point, depth, id) == Enclosing(n, point, depth, id)
    ensures var q := Enclosing(m, point, depth, id); q.Some? ==> q.value < alloc
    decreases depth
  {
    if depth > 0 {
      EnclosingSame(m, n, m[point].parent, depth - 1, alloc, id);
    }
  }

  lemma OriginSame(m: seq<Node>, n: seq<Node>, at: Place, id: nat, offset: OperandOffset)
    requires SameBut(m, n, at.alloc) && PathInside(m, at.point, at.depth, at.alloc) && OperandInside(m, at, id, offset)
    ensures PathInside(n, at.point, at.depth, at.alloc) && OperandInside(n, at, id, offset)
    ensures Origin(m, at, id, offset) == Origin(n, at, id, offset)
  {
    EnclosingSame(m, n, at.point, at.depth, at.alloc, id);
  }

  /** What the scratch node held before does not matter. */
  lemma {:induction false} ValueSame(i: Instruction, at: Place, m: seq<Node>, n: seq<Node>, e: Expr)
    requires Loaded(i) && SameBut(m, n, at.alloc) && PathInside(m, at.point, at.depth, at.alloc) && Anchored(m, at, e)
    ensures PathInside(n, at.point, at.depth, at.alloc) && Anchored(n, at, e)
    ensures Value(i, at, m, e) == Value(i, at, n, e)
    decreases e
  {
    EnclosingSame(m, n, at.point, at.depth, at.alloc, 0);
    match e {
      case Leaf(_) =>
      case OperandValue(c, o, v) =>
        OriginSame(m, n, at, c.id, o);
        var origin := Origin(m, at, c.id, o);
        if origin.Some? {
          assert m[at.alloc := ScratchNode(c, origin.value)] == n[at.alloc := ScratchNode(c, origin.value)];
        }
      case Apply1(_, a) => ValueSame(i, at, m, n, a);
      case Apply2(_, l, r) =>
        ValueSame(i, at, m, n, l);
        ValueSame(i, at, m, n, r);
    }
  }

  /** An expression that does not look at its node has the same value on all. */
  lemma {:induction false} ValueBlind(i: Instruction, at: Place, m: seq<Node>, n: seq<Node>, e: Expr)
    requires Loaded(i) && |m| == |n| == MAX_CTOR_STATES && !LooksAtNode(e)
    ensures Value(i, at, m, e) == Value(i, at, n, e) && !HasOperand(e)
    decreases e
  {
    match e {
      case Leaf(_) =>
      case Apply1(_, a) => ValueBlind(i, at, m, n, a);
      case Apply2(_, l, r) =>
        ValueBlind(i, at, m, n, l);
        ValueBlind(i, at, m, n, r);
    }
  }

  lemma {:induction false} RunSplit(i: Instruction, at: Place, x: seq<PatternOp>, y: seq<PatternOp>, s: State)
    requires Loaded(i) && |s.nodes| == MAX_CTOR_STATES
    ensures Run(i, at, x + y, s) == match Run(i, at, x, s) { case None => None case Some(t) => Run(i, at, y, t) }
    decreases |x|
  {
    if x == [] {
      assert x + y == y;
    } else {
      assert (x + y)[0] == x[0] && (x + y)[1..] == x[1..] + y;
      var s' := Step(i, at, x[0], s);
      if s'.Some? {
        RunSplit(i, at, x[1..], y, s'.value);
      }
    }
  }

  lemma RunOne(i: Instruction, at: Place, op: PatternOp, s: State)
    requires Loaded(i) && |s.nodes| == MAX_CTOR_STATES
    ensures Run(i, at, [op], s) == Step(i, at, op, s)
  {
    assert [op][1..] == [];
  }

  /** What an operand's expression leaves of the nodes: it wipes its scratch node once it has
      evaluated an operand itself. */
  function NodesAfter(nodes: seq<Node>, alloc: U8, e: Expr): seq<Node>
    requires |nodes| == MAX_CTOR_STATES
  {
    if HasOperand(e) then nodes[alloc := BLANK_NODE] else nodes
  }

  /** Evaluating a quiet expression on the scratch node. */
  ghost predicate InnerRuns(i: Instruction, at: Place, e: Expr, s: State)
    requires Loaded(i) && |s.nodes| == MAX_CTOR_STATES
  {
    Run(i, at, Postfix(e), s) == Pushed(s.stack, Value(i, at, s.nodes, e), NodesAfter(s.nodes, at.alloc, e))
  }

  lemma {:induction false} InnerRun(i: Instruction, at: Place, e: Expr, s: State)
    requires Loaded(i) && |s.nodes| == MAX_CTOR_STATES && at == Scratch(at) && WellFormedExpr(e) && QuietInside(e)
    ensures InnerRuns(i, at, e, s)
    decreases e
  {
    match e {
      case Leaf(op) => RunOne(i, at, op, s);
      case OperandValue(c, o, v) =>
        var origin := Origin(s.nodes, at, c.id, o);
        if origin.Some? {
          InnerRun(i, at, v, State([], s.nodes[at.alloc := ScratchNode(c, origin.value)]));
        }
        OperandRuns(i, at, c, o, v, s);
      case Apply1(u, a) =>
        InnerRun(i, at, a, s);
        UnaryRuns(i, at, u, a, s);
      case Apply2(b, l, r) =>
        InnerRun(i, at, l, s);
        var x := Value(i, at, s.nodes, l);
        var nodes := NodesAfter(s.nodes, at.alloc, l);
        if x.Some? {
          InnerRun(i, at, r, State(s.stack + [x.value], nodes));
        }
        if HasOperand(l) {
          ValueBlind(i, at, s.nodes, nodes, r);
        }
        BinaryRuns(i, at, b, l, r, s, nodes, NodesAfter(nodes, at.alloc, r));
        assert NodesAfter(nodes, at.alloc, r) == NodesAfter(s.nodes, at.alloc, e);
    }
  }

  /** An operand, when its expression runs on the scratch node. */
  lemma OperandRuns(i: Instruction, at: Place, c: Ctor, o: OperandOffset, v: Expr, s: State)
    requires Loaded(i) && |s.nodes| == MAX_CTOR_STATES
    requires var origin := Origin(s.nodes, at, c.id, o);
             origin.Some? ==> InnerRuns(i, Scratch(at), v, State([], s.nodes[at.alloc := ScratchNode(c, origin.value)]))
    ensures Run(i, at, Postfix(OperandValue(c, o, v)), s) ==
            Pushed(s.stack, Value(i, at, s.nodes, OperandValue(c, o, v)), s.nodes[at.alloc := BLANK_NODE])
  {
    RunOne(i, at, PatternOp.Operand(c, o, Postfix(v)), s);
    var origin := Origin(s.nodes, at, c.id, o);
    if origin.Some? {
      OperandAtRuns(i, at, c, o, v, s, origin.value);
    }
  }

  lemma OperandAtRuns(i: Instruction, at: Place, c: Ctor, o: OperandOffset, v: Expr, s: State, origin: (U8, U8))
    requires Loaded(i) && |s.nodes| == MAX_CTOR_STATES && Origin(s.nodes, at, c.id, o) == Some(origin)
    requires InnerRuns(i, Scratch(at), v, State([], s.nodes[at.alloc := ScratchNode(c, origin)]))
    ensures Step(i, at, PatternOp.Operand(c, o, Postfix(v)), s) ==
            Pushed(s.stack, Value(i, Scratch(at), s.nodes[at.alloc := ScratchNode(c, origin)], v),
                   s.nodes[at.alloc := BLANK_NODE])
  {
    var nodes := s.nodes[at.alloc := ScratchNode(c, origin)];
    OperandStep(i, at, c, o, Postfix(v), s, origin, Value(i, Scratch(at), nodes, v), NodesAfter(nodes, at.alloc, v));
    assert NodesAfter(nodes, at.alloc, v)[at.alloc := BLANK_NODE] == s.nodes[at.alloc := BLANK_NODE];
  }

  /** An operand, when its operations push one value. */
  lemma OperandStep(i: Instruction, at: Place, c: Ctor, o: OperandOffset, operations: seq<PatternOp>, s: State,
                    origin: (U8, U8), v: Option<U64>, nodes: seq<Node>)
    requires Loaded(i) && |s.nodes| == |nodes| == MAX_CTOR_STATES && Origin(s.nodes, at, c.id, o) == Some(origin)
    requires Run(i, Scratch(at), operations, State([], s.nodes[at.alloc := ScratchNode(c, origin)])) == Pushed([], v, nodes)
    ensures Step(i, at, PatternOp.Operand(c, o, operations), s) == Pushed(s.stack, v, nodes[at.alloc := BLANK_NODE])
  {
    if v.Some? {
      assert [] + [v.value] == [v.value];
    }
  }

  lemma UnaryRuns(i: Instruction, at: Place, u: UnaryOp, a: Expr, s: State)
    requires Loaded(i) && |s.nodes| == MAX_CTOR_STATES && InnerRuns(i, at, a, s)
    ensures InnerRuns(i, at, Apply1(u, a), s)
  {
    RunSplit(i, at, Postfix(a), [Unary(u)], s);
    var x := Value(i, at, s.nodes, a);
    if x.Some? {
      StepUnary(i, at, u, s.stack, x.value, NodesAfter(s.nodes, at.alloc, a));
    }
  }

  /** Two operands and their operator, when each pushes its value. */
  lemma BinaryRuns(i: Instruction, at: Place, b: BinaryOp, l: Expr, r: Expr, s: State, nodes: seq<Node>, nodes': seq<Node>)
    requires Loaded(i) && |s.nodes| == |nodes| == |nodes'| == MAX_CTOR_STATES
    requires Run(i, at, Postfix(l), s) == Pushed(s.stack, Value(i, at, s.nodes, l), nodes)
    requires var x := Value(i, at, s.nodes, l);
             x.Some? ==>
               var s1 := State(s.stack + [x.value], nodes);
               Run(i, at, Postfix(r), s1) == Pushed(s1.stack, Value(i, at, s.nodes, r), nodes')
    ensures Run(i, at, Postfix(Apply2(b, l, r)), s) == Pushed(s.stack, Value(i, at, s.nodes, Apply2(b, l, r)), nodes')
  {
    RunSplit(i, at, Postfix(l) + Postfix(r), [Binary(b)], s);
    RunSplit(i, at, Postfix(l), Postfix(r), s);
    var x, y := Value(i, at, s.nodes, l), Value(i, at, s.nodes, r);
    if x.Some? && y.Some? {
      StepBinary(i, at, b, s.stack, x.value, y.value, nodes');
    }
  }

  lemma StepBinary(i: Instruction, at: Place, b: BinaryOp, stack: seq<U64>, x: U64, y: U64, nodes: seq<Node>)
    requires Loaded(i) && |nodes| == MAX_CTOR_STATES
    ensures Run(i, at, [Binary(b)], State(stack + [x] + [y], nodes)) == Pushed(stack, Apply(b, x, y), nodes)
  {
    var full := stack + [x] + [y];
    RunOne(i, at, Binary(b), State(full, nodes));
    assert full[..|full| - 2] == stack && full[|full| - 2] == x && full[|full| - 1] == y;
  }

  lemma StepUnary(i: Instruction, at: Place, u: UnaryOp, stack: seq<U64>, x: U64, nodes: seq<Node>)
    requires Loaded(i) && |nodes| == MAX_CTOR_STATES
    ensures Run(i, at, [Unary(u)], State(stack + [x], nodes)) == Pushed(stack, Some(Negate(u, x)), nodes)
  {
    RunOne(i, at, Unary(u), State(stack + [x], nodes));
    assert (stack + [x])[..|stack|] == stack;
  }

  /** The machine pushed exactly the value `v` and left all but the scratch node alone, or failed
      if there is none. */
  ghost predicate Pushes(r: Option<State>, s: State, v: Option<U64>, alloc: U8)
  {
    match v
    case None => r.None?
    case Some(x) => r.Some? && r.value.stack == s.stack + [x] && SameBut(s.nodes, r.value.nodes, alloc)
  }

  ghost predicate OuterRuns(i: Instruction, at: Place, e: Expr, s: State)
    requires Loaded(i) && |s.nodes| == MAX_CTOR_STATES
  {
    Pushes(Run(i, at, Postfix(e), s), s, Value(i, at, s.nodes, e), at.alloc)
  }

  /** For every quiet tree, in particular for every tree with one level of operands, running its
      postfix layout on any stack pushes the tree's value, reads nothing of the stack that was
      there, and leaves all but the scratch node as they are; it fails exactly when the tree has
      no value. */
  lemma {:induction false} PostfixComputesValue(i: Instruction, at: Place, e: Expr, s: State)
    requires Loaded(i) && |s.nodes| == MAX_CTOR_STATES && PathInside(s.nodes, at.point, at.depth, at.alloc)
    requires WellFormedExpr(e) && Quiet(e) && Anchored(s.nodes, at, e)
    ensures OuterRuns(i, at, e, s)
    decreases e
  {
    match e {
      case Leaf(op) => RunOne(i, at, op, s);
      case OperandValue(c, o, v) =>
        var origin := Origin(s.nodes, at, c.id, o);
        if origin.Some? {
          InnerRun(i, Scratch(at), v, State([], s.nodes[at.alloc := ScratchNode(c, origin.value)]));
        }
        OperandRuns(i, at, c, o, v, s);
      case Apply1(u, a) =>
        PostfixComputesValue(i, at, a, s);
        OuterUnary(i, at, u, a, s);
      case Apply2(b, l, r) =>
        PostfixComputesValue(i, at, l, s);
        var t := Run(i, at, Postfix(l), s);
        if t.Some? {
          ValueSame(i, at, s.nodes, t.value.nodes, r);
          PostfixComputesValue(i, at, r, t.value);
        }
        OuterBinary(i, at, b, l, r, s);
    }
  }

  lemma OuterUnary(i: Instruction, at: Place, u: UnaryOp, a: Expr, s: State)
    requires Loaded(i) && |s.nodes| == MAX_CTOR_STATES && OuterRuns(i, at, a, s)
    ensures OuterRuns(i, at, Apply1(u, a), s)
  {
    RunSplit(i, at, Postfix(a), [Unary(u)], s);
    var x := Value(i, at, s.nodes, a);
    if x.Some? {
      StepUnary(i, at, u, s.stack, x.value, Run(i, at, Postfix(a), s).value.nodes);
    }
  }

  lemma OuterBinary(i: Instruction, at: Place, b: BinaryOp, l: Expr, r: Expr, s: State)
    requires Loaded(i) && |s.nodes| == MAX_CTOR_STATES && OuterRuns(i, at, l, s)
    requires var t := Run(i, at, Postfix(l), s);
             t.Some? ==> OuterRuns(i, at, r, t.value) && Value(i, at, t.value.nodes, r) == Value(i, at, s.nodes, r)
    ensures OuterRuns(i, at, Apply2(b, l, r), s)
  {
    RunSplit(i, at, Postfix(l) + Postfix(r), [Binary(b)], s);
    RunSplit(i, at, Postfix(l), Postfix(r), s);
    var x, y := Value(i, at, s.nodes, l), Value(i, at, s.nodes, r);
    if x.Some? && y.Some? {
      var t := Run(i, at, Postfix(l), s).value;
      StepBinary(i, at, b, s.stack, x.value, y.value, Run(i, at, Postfix(r), t).value.nodes);
    }
  }

  // ---- the machine on the parser input ----

  function Result(r: Option<State>): Option<U64>
  {
    if r.Some? && r.value.stack != [] then Some(r.value.stack[|r.value.stack| - 1]) else None
  }

  /** So resolving the postfix layout of a quiet tree gives the tree's value, and keeps every node
      but the scratch node. */
  lemma ResolvesToValue(i: Instruction, at: Place, nodes: seq<Node>, e: Expr)
    requires Loaded(i) && |nodes| == MAX_CTOR_STATES && PathInside(nodes, at.point, at.depth, at.alloc)
    requires WellFormedExpr(e) && Quiet(e) && Anchored(nodes, at, e)
    ensures var r := Run(i, at, Postfix(e), State([], nodes));
            && Result(r) == Value(i, at, nodes, e)
            && (r.Some? ==> SameBut(nodes, r.value.nodes, at.alloc))
  {
    PostfixComputesValue(i, at, e, State([], nodes));
  }

  // ---- where nesting goes wrong ----

  /** An operand whose expression adds a token field to an operand of its own. */
  function Nested(c: Ctor, o: OperandOffset, c2: Ctor, o2: OperandOffset, k: U64, f: Field): Expr
  {
    OperandValue(c, o, Apply2(Plus, OperandValue(c2, o2, Leaf(Constant(k))), Leaf(Token(f))))
  }

  lemma ConstantOperand(i: Instruction, at: Place, nodes: seq<Node>, c: Ctor, o: OperandOffset, k: U64)
    requires Loaded(i) && |nodes| == MAX_CTOR_STATES && Origin(nodes, at, c.id, o).Some?
    ensures Value(i, at, nodes, OperandValue(c, o, Leaf(Constant(k)))) == Some(k)
  {
    var scratch := nodes[at.alloc := ScratchNode(c, Origin(nodes, at, c.id, o).value)];
    assert Value(i, Scratch(at), scratch, Leaf(Constant(k))) == Some(k);
  }

  /** The machine reads the field of such an operand at offset zero: evaluating the inner operand
      wiped the scratch node. */
  lemma NestedRuns(i: Instruction, at: Place, s: State, c: Ctor, o: OperandOffset, c2: Ctor, o2: OperandOffset, k: U64,
                   f: Field, origin: (U8, U8))
    requires Loaded(i) && |s.nodes| == MAX_CTOR_STATES && Origin(s.nodes, at, c.id, o) == Some(origin)
    requires Origin(s.nodes[at.alloc := ScratchNode(c, origin)], Scratch(at), c2.id, o2).Some?
    ensures Run(i, at, Postfix(Nested(c, o, c2, o2, k, f)), s) ==
            Pushed(s.stack, Sum(k, FieldValue(i.buffer, 0, f)), s.nodes[at.alloc := BLANK_NODE])
  {
    var inner, l := Scratch(at), OperandValue(c2, o2, Leaf(Constant(k)));
    var nodes, blank := s.nodes[at.alloc := ScratchNode(c, origin)], s.nodes[at.alloc := BLANK_NODE];
    var start := State([], nodes);
    InnerRun(i, inner, l, start);
    ConstantOperand(i, inner, nodes, c2, o2, k);
    assert NodesAfter(nodes, at.alloc, l) == nodes[at.alloc := BLANK_NODE] == blank;
    SumRuns(i, inner, l, f, start, k, blank);
    var e := Apply2(Plus, l, Leaf(Token(f)));
    OperandStep(i, at, c, o, Postfix(e), s, origin, Sum(k, FieldValue(i.buffer, 0, f)), blank);
    RunOne(i, at, PatternOp.Operand(c, o, Postfix(e)), s);
    assert blank[at.alloc := BLANK_NODE] == blank;
  }

  /** Adding a field to an expression that was run to `k`. */
  lemma SumRuns(i: Instruction, at: Place, l: Expr, f: Field, s: State, k: U64, nodes: seq<Node>)
    requires Loaded(i) && |s.nodes| == |nodes| == MAX_CTOR_STATES
    requires Run(i, at, Postfix(l), s) == Some(State(s.stack + [k], nodes))
    ensures Run(i, at, Postfix(Apply2(Plus, l, Leaf(Token(f)))), s) ==
            Pushed(s.stack, Sum(k, FieldValue(i.buffer, nodes[at.point].offset, f)), nodes)
  {
    SumPostfix(l, Leaf(Token(f)));
    FieldAdded(i, at, Postfix(l), f, s, k, nodes);
  }

  lemma SumPostfix(l: Expr, r: Expr)
    ensures Postfix(Apply2(Plus, l, r)) == Postfix(l) + Postfix(r) + [Binary(Plus)]
    ensures r.Leaf? ==> Postfix(r) == [r.op]
  {
  }

  lemma FieldAdded(i: Instruction, at: Place, ps: seq<PatternOp>, f: Field, s: State, k: U64, nodes: seq<Node>)
    requires Loaded(i) && |s.nodes| == |nodes| == MAX_CTOR_STATES
    requires Run(i, at, ps, s) == Some(State(s.stack + [k], nodes))
    ensures Run(i, at, ps + [Token(f)] + [Binary(Plus)], s) ==
            Pushed(s.stack, Sum(k, FieldValue(i.buffer, nodes[at.point].offset, f)), nodes)
  {
    RunThen(i, at, ps, Token(f), s, Some(State(s.stack + [k], nodes)));
    var y := FieldValue(i.buffer, nodes[at.point].offset, f);
    if y.Some? {
      SumSteps(i, at, s.stack, k, y.value, nodes);
      RunThen(i, at, ps + [Token(f)], Binary(Plus), s, Some(State(s.stack + [k] + [y.value], nodes)));
    } else {
      RunThen(i, at, ps + [Token(f)], Binary(Plus), s, None);
    }
  }

  lemma SumSteps(i: Instruction, at: Place, stack: seq<U64>, k: U64, y: U64, nodes: seq<Node>)
    requires Loaded(i) && |nodes| == MAX_CTOR_STATES
    ensures Step(i, at, Binary(Plus), State(stack + [k] + [y], nodes)) == Pushed(stack, Sum(k, Some(y)), nodes)
  {
    StepBinary(i, at, Plus, stack, k, y, nodes);
    RunOne(i, at, Binary(Plus), State(stack + [k] + [y], nodes));
  }

  /** One more operation after others. */
  lemma RunThen(i: Instruction, at: Place, ps: seq<PatternOp>, op: PatternOp, s: State, t: Option<State>)
    requires Loaded(i) && |s.nodes| == MAX_CTOR_STATES && Run(i, at, ps, s) == t
    ensures Run(i, at, ps + [op], s) == if t.Some? then Step(i, at, op, t.value) else None
  {
    RunSplit(i, at, ps, [op], s);
    if t.Some? {
      RunOne(i, at, op, t.value);
    }
  }

  function Sum(k: U64, v: Option<U64>): Option<U64>
  {
    match v
    case None => None
    case Some(x) => Some(ToU64(k + x))
  }

  lemma SumInjective(k: U64, v: Option<U64>, w: Option<U64>)
    ensures Sum(k, v) == Sum(k, w) <==> v == w
  {
  }

  /** So the machine gives the value of such a tree if and only if the field reads the same at
      offset zero as at the operand's offset. */
  lemma NestedExactly(i: Instruction, at: Place, nodes: seq<Node>, c: Ctor, o: OperandOffset, c2: Ctor, o2: OperandOffset,
                      k: U64, f: Field, origin: (U8, U8))
    requires Loaded(i) && |nodes| == MAX_CTOR_STATES && Origin(nodes, at, c.id, o) == Some(origin)
    requires Origin(nodes[at.alloc := ScratchNode(c, origin)], Scratch(at), c2.id, o2).Some?
    ensures var e := Nested(c, o, c2, o2, k, f);
            Result(Run(i, at, Postfix(e), State([], nodes))) == Value(i, at, nodes, e) <==>
            FieldValue(i.buffer, 0, f) == FieldValue(i.buffer, origin.0, f)
  {
    NestedRuns(i, at, State([], nodes), c, o, c2, o2, k, f, origin);
    NestedValue(i, at, nodes, c, o, c2, o2, k, f, origin);
    SumInjective(k, FieldValue(i.buffer, 0, f), FieldValue(i.buffer, origin.0, f));
  }

  lemma NestedValue(i: Instruction, at: Place, nodes: seq<Node>, c: Ctor, o: OperandOffset, c2: Ctor, o2: OperandOffset,
                    k: U64, f: Field, origin: (U8, U8))
    requires Loaded(i) && |nodes| == MAX_CTOR_STATES && Origin(nodes, at, c.id, o) == Some(origin)
    requires Origin(nodes[at.alloc := ScratchNode(c, origin)], Scratch(at), c2.id, o2).Some?
    ensures Value(i, at, nodes, Nested(c, o, c2, o2, k, f)) == Sum(k, FieldValue(i.buffer, origin.0, f))
  {
    var scratch := nodes[at.alloc := ScratchNode(c, origin)];
    var l, r := OperandValue(c2, o2, Leaf(Constant(k))), Leaf(Token(f));
    ConstantOperand(i, Scratch(at), scratch, c2, o2, k);
    assert Value(i, Scratch(at), scratch, r) == FieldValue(i.buffer, origin.0, f);
    SumValue(i, Scratch(at), scratch, l, r, k);
  }

  lemma SumValue(i: Instruction, at: Place, nodes: seq<Node>, l: Expr, r: Expr, k: U64)
    requires Loaded(i) && |nodes| == MAX_CTOR_STATES && Value(i, at, nodes, l) == Some(k)
    ensures Value(i, at, nodes, Apply2(Plus, l, r)) == Sum(k, Value(i, at, nodes, r))
  {
  }

  // A concrete instruction: all bytes zero but the one at offset 5, where the operand lies.

  const ROOT: Ctor := Constructor(0, [], [], None, 0, 0)

  function OneByte(): Field
  {
    TokenField(false, false, 0, 7, 0, 0, 0)
  }

  function ExampleInstruction(): Instruction
  {
    Instruction(seq(MAX_INSN_BYTES, k => if k == 5 then 1 else 0), (id: nat) => 0, 0, 0, None)
  }

  function ExampleNodes(): (r: seq<Node>)
    ensures |r| == MAX_CTOR_STATES
  {
    seq(MAX_CTOR_STATES, k => if k == 0 then Node(Some(ROOT), None, INVALID, INVALID, 0, 6) else BLANK_NODE)
  }

  /** The operand at offset 5 whose expression adds the byte there to zero, written as an operand. */
  function ExampleTree(): Expr
  {
    Nested(ROOT, Relative(5), ROOT, Relative(0), 0, OneByte())
  }

  /** The machine answers 0 where the value of the tree is not 0. */
  lemma NestedOperandFails()
    ensures var i, at, nodes, e := ExampleInstruction(), Place(0, 0, 1), ExampleNodes(), ExampleTree();
            && Loaded(i) && WellFormedExpr(e) && PathInside(nodes, 0, 0, 1) && Anchored(nodes, at, e) && !Quiet(e)
            && Result(Run(i, at, Postfix(e), State([], nodes))) != Value(i, at, nodes, e)
  {
    var i, at, nodes := ExampleInstruction(), Place(0, 0, 1), ExampleNodes();
    assert Origin(nodes, at, 0, Relative(5)) == Some((5, 6));
    var scratch := nodes[1 := ScratchNode(ROOT, (5, 6))];
    assert scratch[1].ctor == Some(ROOT);
    assert Enclosing(scratch, 1, 0, 0) == Some(1);
    NestedExactly(i, at, nodes, ROOT, Relative(5), ROOT, Relative(0), 0, OneByte(), (5, 6));
    BytesDiffer(i.buffer);
    NotQuiet();
  }

  lemma NotQuiet()
    ensures !Quiet(ExampleTree()) && WellFormedExpr(ExampleTree())
  {
    assert LooksAtNode(Leaf(Token(OneByte())));
    assert HasOperand(OperandValue(ROOT, Relative(0), Leaf(Constant(0))));
  }

  lemma BytesDiffer(buffer: seq<U8>)
    requires |buffer| == MAX_INSN_BYTES && buffer[0] == 0 && buffer[5] == 1
    ensures FieldValue(buffer, 0, OneByte()) != FieldValue(buffer, 5, OneByte())
  {
    LowestBit(buffer, 0);
    LowestBit(buffer, 5);
  }

  lemma LowestBit(buffer: seq<U8>, offset: nat)
    requires |buffer| == MAX_INSN_BYTES && offset < MAX_INSN_BYTES
    ensures FieldValue(buffer, offset, OneByte()).Some?
    ensures BitAt(FieldValue(buffer, offset, OneByte()).value, 0) <==> BitAt(buffer[offset], 0)
  {
    FieldIsDeclared(buffer, offset, 1, OneByte(), 0);
    assert TokenBit(buffer[offset..offset + 1], false, 0) <==> BitAt(buffer[offset], 0);
  }

  /** The search for the enclosing constructor. */
  method FindOrigin(input: ParserInput, id: nat, offset: OperandOffset) returns (origin: Option<(U8, U8)>)
    requires input.Valid()
    ensures origin == Origin(input.nodes[..], Place(input.point, input.depth, input.alloc), id, offset)
  {
    var depth, point := input.depth, input.point;
    var node := input.nodes[point];
    ghost var nodes := input.nodes[..];
    while !(node.ctor.Some? && node.ctor.value.id == id)
      invariant node == nodes[point]
      invariant Enclosing(nodes, point, depth, id) == Enclosing(nodes, input.point, input.depth, id)
      decreases depth
    {
      if depth <= 0 {
        return Some((0, 0));
      }
      depth := depth - 1;
      point := node.parent;
      node := input.nodes[point];
    }
    match offset
    case Relative(o) => origin := Some((ToU8(node.offset + o), node.length));
    case OperandAt(index) =>
      if node.operands + index >= MAX_CTOR_STATES {
        return None;
      }
      origin := Some((input.nodes[node.operands + index].offset, node.length));
  }

  /** Everything about the walk but the nodes is as it was. */
  twostate predicate WalkKept(input: ParserInput)
    reads input, input.breadcrumb
  {
    && input.point == old(input.point) && input.depth == old(input.depth) && input.alloc == old(input.alloc)
    && input.breadcrumb[..] == old(input.breadcrumb[..])
  }

  /** Evaluates an expression. On success the current node, the depth and the breadcrumbs are as
      before, whatever operands were visited; the nodes are those the run leaves. */
  method Resolve(input: ParserInput, i: Instruction, operations: seq<PatternOp>) returns (r: Option<U64>)
    requires input.Valid() && Loaded(i)
    modifies input`point, input`depth, input.nodes, input.breadcrumb
    ensures var t := Run(i, Place(old(input.point), old(input.depth), input.alloc), operations, State([], old(input.nodes[..])));
            && r == Result(t)
            && (r.Some? ==> input.nodes[..] == t.value.nodes && WalkKept(input))
    decreases operations, 1
  {
    var stack: seq<U64> := [];
    ghost var at := Place(input.point, input.depth, input.alloc);
    ghost var goal := Run(i, at, operations, State([], input.nodes[..]));
    for k := 0 to |operations|
      invariant WalkKept(input)
      invariant Run(i, at, operations[k..], State(stack, input.nodes[..])) == goal
    {
      var op := operations[k];
      assert operations[k..][1..] == operations[k + 1..];
      if op.Operand? {
        var v := ResolveOperand(input, i, op);
        if v.None? {
          return None;
        }
        stack := stack + [v.value];
      } else {
        var next := ApplyOp(input, i, op, stack);
        if next.None? {
          return None;
        }
        stack := next.value;
      }
    }
    assert operations[|operations|..] == [];
    if stack == [] {
      return None;
    }
    r := Some(stack[|stack| - 1]);
  }

  /** The operations that touch nothing but the stack. */
  method ApplyOp(input: ParserInput, i: Instruction, op: PatternOp, stack: seq<U64>) returns (next: Option<seq<U64>>)
    requires input.Valid() && Loaded(i) && !op.Operand?
    ensures var t := Step(i, Place(input.point, input.depth, input.alloc), op, State(stack, input.nodes[..]));
            && (next.None? <==> t.None?)
            && (next.Some? ==> t == Some(State(next.value, input.nodes[..])))
  {
    var n := |stack|;
    if op.Binary? {
      if n < 2 {
        return None;
      }
      var v := Apply(op.binary, stack[n - 2], stack[n - 1]);
      next := if v.None? then None else Some(stack[..n - 2] + [v.value]);
    } else if op.Unary? {
      if n < 1 {
        return None;
      }
      next := Some(stack[..n - 1] + [Negate(op.unary, stack[n - 1])]);
    } else {
      var v: Option<U64>;
      if op.Token? {
        v := ReadField(i.buffer, input.nodes[input.point].offset, op.field);
      } else {
        v := LeafValue(i, input.nodes[input.point].offset, op);
      }
      next := if v.None? then None else Some(stack + [v.value]);
    }
  }

  /** Evaluates an operand's expression on the scratch node, then wipes it and goes back. */
  method ResolveOperand(input: ParserInput, i: Instruction, op: PatternOp) returns (v: Option<U64>)
    requires input.Valid() && Loaded(i) && op.Operand?
    modifies input`point, input`depth, input.nodes, input.breadcrumb
    ensures var t := Step(i, Place(old(input.point), old(input.depth), input.alloc), op, State([], old(input.nodes[..])));
            && (v.None? <==> t.None?)
            && (v.Some? ==> t == Some(State([v.value], input.nodes[..])) && WalkKept(input))
    decreases op, 0
  {
    var origin := FindOrigin(input, op.ctor.id, op.offset);
    if origin.None? {
      return None;
    }
    var oldPoint, oldDepth, oldBreadcrumb := input.point, input.depth, input.breadcrumb[..];
    forall k | 0 <= k < input.breadcrumb.Length {
      input.breadcrumb[k] := 0;
    }
    input.depth := 0;
    input.point := input.alloc;
    input.nodes[input.alloc] := ScratchNode(op.ctor, origin.value);
    assert input.nodes[..] == old(input.nodes[..])[input.alloc := ScratchNode(op.ctor, origin.value)];
    ghost var run := Run(i, Place(input.alloc, 0, input.alloc), op.operations, State([], input.nodes[..]));
    v := Resolve(input, i, op.operations);
    if v.None? {
      return;
    }
    ghost var inner := input.nodes[..];
    assert run.Some? && run.value.nodes == inner && v == Result(run);
    input.nodes[input.alloc] := BLANK_NODE;
    assert input.nodes[..] == inner[input.alloc := BLANK_NODE];
    ghost var wiped := input.nodes[..];
    input.point := oldPoint;
    input.depth := oldDepth;
    forall k | 0 <= k < input.breadcrumb.Length {
      input.breadcrumb[k] := oldBreadcrumb[k];
    }
    assert input.breadcrumb[..] == oldBreadcrumb;
    assert input.nodes[..] == wiped;
    ghost var empty: seq<U64> := [];
    assert empty + [v.value] == [v.value];
    assert Step(i, Place(oldPoint, oldDepth, input.alloc), op, State(empty, old(input.nodes[..]))) ==
           Some(State([v.value], input.nodes[..]));
  }
}
