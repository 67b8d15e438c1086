/** What a pattern expression reads of the decoder's memory: constructors and offsets on the path
    from its node to the root, and nothing else. So filters and context-action expressions can be
    given to the decode as functions of that path (fugue-lifter-runtime/src/pattern.rs:193-501,
    fugue-lifter-runtime/src/operand/mod.rs:16-48, fugue-lifter-runtime/src/context.rs:98-135). */
module PatternTrails {
  import opened Prelude
  import opened Words
  import Bits
  import opened Grammar
  import opened DecodeMachine
  import opened DecodePath
  import opened DecodeTree
  import opened PatternExpressions

  // ---- the value on a path ----

  /** Every operand reference is relative to its constructor. */
  predicate RelativeOnly(e: Expr)
  {
    match e
    case Leaf(_) => true
    case OperandValue(_, o, v) => o.Relative? && RelativeOnly(v)
    case Apply1(_, a) => RelativeOnly(a)
    case Apply2(_, l, r) => RelativeOnly(l) && RelativeOnly(r)
  }

  /** The offset of the innermost step with this constructor. */
  function EnclosingOffset(trail: Trail, id: nat): Option<U8>
  {
    if trail == [] then None
    else if trail[0].ctor.Some? && trail[0].ctor.value.id == id then Some(trail[0].offset)
    else EnclosingOffset(trail[1..], id)
  }

  /** Where an operand of a constructor on the path starts. */
  function TrailOrigin(trail: Trail, id: nat, offset: U8): U8
  {
    match EnclosingOffset(trail, id)
    case None => 0
    case Some(base) => ToU8(base + offset)
  }

  /** The value of an expression on a path; an operand's expression has a path of its own. */
  function TrailValue(i: Instruction, trail: Trail, e: Expr): Option<U64>
    requires Loaded(i) && trail != [] && RelativeOnly(e)
    decreases e
  {
    match e
    case Leaf(op) => LeafValue(i, trail[0].offset, op)
    case OperandValue(c, o, v) =>
      TrailValue(i, [Grammar.Step(Some(c), TrailOrigin(trail, c.id, o.offset))], v)
    case Apply1(u, a) =>
      var v :- TrailValue(i, trail, a);
      Some(Negate(u, v))
    case Apply2(b, l, r) =>
      var x :- TrailValue(i, trail, l);
      var y :- TrailValue(i, trail, r);
      Apply(b, x, y)
  }

  /** The search for an enclosing constructor stays on the path. */
  lemma {:induction false} EnclosingOnTrail(nodes: seq<Node>, point: U8, depth: nat, id: nat)
    requires |nodes| == MAX_CTOR_STATES && |TrailOf(nodes, point)| == depth + 1
    ensures var q := Enclosing(nodes, point, depth, id);
            EnclosingOffset(TrailOf(nodes, point), id) == if q.Some? then Some(nodes[q.value].offset) else None
    decreases depth
  {
    var trail := TrailOf(nodes, point);
    if nodes[point].parent < point {
      assert trail[1..] == TrailOf(nodes, nodes[point].parent);
      if depth > 0 {
        EnclosingOnTrail(nodes, nodes[point].parent, depth - 1, id);
      }
    } else {
      assert trail[1..] == [];
    }
  }

  lemma ScratchTrail(nodes: seq<Node>, alloc: U8, c: Ctor, origin: (U8, U8))
    requires |nodes| == MAX_CTOR_STATES
    ensures TrailOf(nodes[alloc := ScratchNode(c, origin)], alloc) == [Grammar.Step(Some(c), origin.0)]
  {
  }

  lemma OriginOnTrail(nodes: seq<Node>, at: Place, id: nat, offset: U8)
    requires |nodes| == MAX_CTOR_STATES && at.depth >= 0 && |TrailOf(nodes, at.point)| == at.depth + 1
    ensures var r := Origin(nodes, at, id, Relative(offset));
            r.Some? && r.value.0 == TrailOrigin(TrailOf(nodes, at.point), id, offset)
  {
    EnclosingOnTrail(nodes, at.point, at.depth, id);
  }

  /** The value of an expression is a function of the path alone, however operands are nested. */
  lemma {:induction false} TrailDecides(i: Instruction, at: Place, nodes: seq<Node>, e: Expr)
    requires Loaded(i) && |nodes| == MAX_CTOR_STATES && RelativeOnly(e)
    requires at.depth >= 0 && |TrailOf(nodes, at.point)| == at.depth + 1
    ensures Value(i, at, nodes, e) == TrailValue(i, TrailOf(nodes, at.point), e)
    decreases e
  {
    match e {
      case Leaf(_) =>
      case OperandValue(c, o, v) =>
        OriginOnTrail(nodes, at, c.id, o.offset);
        var origin := Origin(nodes, at, c.id, o).value;
        ScratchTrail(nodes, at.alloc, c, origin);
        TrailDecides(i, Scratch(at), nodes[at.alloc := ScratchNode(c, origin)], v);
      case Apply1(_, a) => TrailDecides(i, at, nodes, a);
      case Apply2(_, l, r) =>
        TrailDecides(i, at, nodes, l);
        TrailDecides(i, at, nodes, r);
    }
  }

  // ---- on every reachable path ----

  /** The node lies `depth` steps below the root, and the path to it among the allocated nodes. */
  ghost predicate Rooted(nodes: seq<Node>, at: Place)
  {
    && |nodes| == MAX_CTOR_STATES && at.depth >= 0
    && PathInside(nodes, at.point, at.depth, at.alloc) && |TrailOf(nodes, at.point)| == at.depth + 1
  }

  /** Every state of the decode walk is rooted. */
  lemma {:induction false} OnPathRooted(m: Machine, p: U8, stack: Stack)
    requires OnPath(m, p, stack)
    ensures Rooted(m.nodes, Place(p, Depth(stack), m.alloc))
    decreases stack
  {
    if stack.Up? {
      assert HasParent(m, p);
      OnPathRooted(m, m.nodes[p].parent, stack.below);
    }
  }

  lemma {:induction false} PathInsideKept(nodes: seq<Node>, nodes': seq<Node>, point: U8, depth: nat, alloc: U8)
    requires |nodes| == |nodes'| == MAX_CTOR_STATES && PathInside(nodes, point, depth, alloc)
    requires |TrailOf(nodes, point)| == depth + 1
    requires forall x :: 0 <= x <= point ==> nodes'[x].parent == nodes[x].parent
    ensures PathInside(nodes', point, depth, alloc)
    decreases depth
  {
    if depth > 0 {
      PathInsideKept(nodes, nodes', nodes[point].parent, depth - 1, alloc);
    }
  }

  /** So is the slot of an operand, once it has its offset. */
  lemma PlacedRooted(m: Machine, p: U8, stack: Stack, q: U8)
    requires OnPath(m, p, stack) && stack.next < OperandCount(m.nodes[p]) && q == m.nodes[p].operands + stack.next
    ensures Rooted(Placed(m, p, stack.next).nodes, Place(q, Depth(stack) + 1, m.alloc))
  {
    OnPathRooted(m, p, stack);
    PlaceKeeps(m, Placed(m, p, stack.next), p, stack.next, q);
    PlacedTrail(m, p, stack.next);
    SlotRooted(m.nodes, Placed(m, p, stack.next).nodes, p, q, Depth(stack), m.alloc);
  }

  lemma SlotRooted(nodes: seq<Node>, nodes': seq<Node>, p: U8, q: U8, depth: nat, alloc: U8)
    requires Rooted(nodes, Place(p, depth, alloc)) && |nodes'| == MAX_CTOR_STATES && p < q < alloc
    requires nodes'[q].parent == p && forall x :: 0 <= x <= p ==> nodes'[x].parent == nodes[x].parent
    requires |TrailOf(nodes', q)| == |TrailOf(nodes, p)| + 1
    ensures Rooted(nodes', Place(q, depth + 1, alloc))
  {
    PathInsideKept(nodes, nodes', p, depth, alloc);
  }

  /** And so is a slot that gets its constructor. */
  lemma ConstructedRooted(m: Machine, q: U8, depth: nat, c: Ctor)
    requires Shape(m) && Rooted(m.nodes, Place(q, depth, m.alloc))
    ensures Rooted(SetConstructor(m, q, c).nodes, Place(q, depth, m.alloc))
  {
    PathInsideKept(m.nodes, SetConstructor(m, q, c).nodes, q, depth, m.alloc);
    ConstructedTrail(m.nodes, q, c);
  }

  lemma ConstructedTrail(nodes: seq<Node>, q: U8, c: Ctor)
    requires |nodes| == MAX_CTOR_STATES
    ensures |TrailOf(nodes[q := nodes[q].(ctor := Some(c))], q)| == |TrailOf(nodes, q)|
  {
    if nodes[q].parent < q {
      TrailKept(nodes, nodes[q := nodes[q].(ctor := Some(c))], nodes[q].parent);
    }
  }

  // ---- a language given by expressions ----

  type ReadExpr = e: Expr | RelativeOnly(e) && WellFormedExpr(e) && Quiet(e) witness Leaf(Constant(0))

  type LoadedInstruction = i: Instruction | Loaded(i)
    witness Instruction(seq(16, (_: nat) => 0), (_: nat) => 0, 0, 0, None)

  /** An operand is let through if its pattern names an entry of a table that is there. */
  datatype FilterRule = FilterRule(pattern: ReadExpr, indices: seq<nat>, limit: nat)

  predicate Accepts(rule: FilterRule, v: Option<U64>)
  {
    v.Some? && v.value < 0x1_0000 && v.value < rule.limit && v.value !in rule.indices
  }

  /** In terms of the signed value: one of the sixteen-bit indices below the limit, and not one that is
      left out. */
  lemma AcceptsExactly(rule: FilterRule, v: Option<U64>)
    ensures Accepts(rule, v) <==>
            && v.Some? && 0 <= Signed64(v.value) <= 0xffff && Signed64(v.value) < rule.limit
            && forall k :: 0 <= k < |rule.indices| ==> rule.indices[k] != Signed64(v.value)
  {
  }

  /** Lookups, filters and context actions; `instruction` gives the bytes and the context fields
      under the current context words. */
  datatype Rules = Rules(
    lookup: (nat, U8, seq<Word>) -> Option<Ctor>,
    filters: seq<FilterRule>,
    actions: seq<ReadExpr>,
    instruction: seq<Word> -> LoadedInstruction)

  /** The low 32 bits. */
  function WordOf(v: Option<U64>): Option<Word>
  {
    match v
    case None => None
    case Some(x) => Some(x % 0x1_0000_0000)
  }

  lemma WordBits(x: U64, i: nat)
    ensures WordOf(Some(x)).Some? && (Bits.BitAt(WordOf(Some(x)).value, i) <==> i < 32 && Bits.BitAt(x, i))
  {
    WordSize();
    Bits.BitAtMod(x, 32, i);
  }

  /** The language of a set of rules: its expressions evaluated on paths. */
  function LanguageOf(r: Rules): Language
  {
    Language(
      r.lookup,
      (f: nat, trail: Trail, words: seq<Word>) =>
        f < |r.filters| && trail != [] &&
        Accepts(r.filters[f], TrailValue(r.instruction(words), trail, r.filters[f].pattern)),
      (x: nat, trail: Trail, words: seq<Word>) =>
        if x < |r.actions| && trail != [] then WordOf(TrailValue(r.instruction(words), trail, r.actions[x])) else None)
  }

  /** What the stack machine answers for an expression on the decoder's memory. */
  function MachineValue(i: LoadedInstruction, at: Place, nodes: seq<Node>, e: ReadExpr): Option<U64>
    requires |nodes| == MAX_CTOR_STATES
  {
    PatternExpressions.Result(Run(i, at, Postfix(e), State([], nodes)))
  }

  lemma {:induction false} RelativeAnchored(nodes: seq<Node>, at: Place, e: Expr)
    requires |nodes| == MAX_CTOR_STATES && RelativeOnly(e)
    ensures Anchored(nodes, at, e)
    decreases e
  {
    match e {
      case Leaf(_) =>
      case OperandValue(_, _, _) =>
      case Apply1(_, a) => RelativeAnchored(nodes, at, a);
      case Apply2(_, l, r) =>
        RelativeAnchored(nodes, at, l);
        RelativeAnchored(nodes, at, r);
    }
  }

  /** The stack machine answers the value on the path, and so nothing behind the path matters. */
  lemma MachineReadsTrail(i: LoadedInstruction, at: Place, nodes: seq<Node>, e: ReadExpr)
    requires Rooted(nodes, at)
    ensures MachineValue(i, at, nodes, e) == TrailValue(i, TrailOf(nodes, at.point), e)
  {
    RelativeAnchored(nodes, at, e);
    ResolvesToValue(i, at, nodes, e);
    TrailDecides(i, at, nodes, e);
  }

  /** The language's filter, on the path of a node, is what the machine computes at the node. */
  ghost predicate FilterIsMachine(r: Rules, f: nat, nodes: seq<Node>, at: Place, words: seq<Word>)
    requires f < |r.filters| && |nodes| == MAX_CTOR_STATES
  {
    LanguageOf(r).filter(f, TrailOf(nodes, at.point), words) <==>
      Accepts(r.filters[f], MachineValue(r.instruction(words), at, nodes, r.filters[f].pattern))
  }

  ghost predicate ActionIsMachine(r: Rules, x: nat, nodes: seq<Node>, at: Place, words: seq<Word>)
    requires x < |r.actions| && |nodes| == MAX_CTOR_STATES
  {
    LanguageOf(r).action(x, TrailOf(nodes, at.point), words) ==
      WordOf(MachineValue(r.instruction(words), at, nodes, r.actions[x]))
  }

  lemma FilterAt(r: Rules, f: nat, nodes: seq<Node>, at: Place, words: seq<Word>)
    requires f < |r.filters| && Rooted(nodes, at)
    ensures FilterIsMachine(r, f, nodes, at, words)
  {
    MachineReadsTrail(r.instruction(words), at, nodes, r.filters[f].pattern);
  }

  lemma ActionAt(r: Rules, x: nat, nodes: seq<Node>, at: Place, words: seq<Word>)
    requires x < |r.actions| && Rooted(nodes, at)
    ensures ActionIsMachine(r, x, nodes, at, words)
  {
    MachineReadsTrail(r.instruction(words), at, nodes, r.actions[x]);
  }

  /** Where operand `stack.next` of `p` is decoded. */
  ghost function OperandPlace(m: Machine, p: U8, stack: Stack): Place
    requires OnPath(m, p, stack) && stack.next < OperandCount(m.nodes[p])
  {
    assert OwnsBlock(m, p);
    Place(m.nodes[p].operands + stack.next, Depth(stack) + 1, m.alloc)
  }

  /** In every state of the decode walk, the filter of the operand at hand is what the machine
      computes in the operand's slot, whatever the memory holds behind the path. */
  lemma FilterReadsMemory(r: Rules, f: nat, m: Machine, p: U8, stack: Stack, words: seq<Word>)
    requires f < |r.filters| && OnPath(m, p, stack) && stack.next < OperandCount(m.nodes[p])
    ensures FilterIsMachine(r, f, Placed(m, p, stack.next).nodes, OperandPlace(m, p, stack), words)
  {
    PlacedRooted(m, p, stack, m.nodes[p].operands + stack.next);
    FilterAt(r, f, Placed(m, p, stack.next).nodes, OperandPlace(m, p, stack), words);
  }

  /** So are the context actions of a constructor entered in a subtable operand's slot. */
  lemma ActionReadsMemory(r: Rules, x: nat, m: Machine, p: U8, stack: Stack, c: Ctor, words: seq<Word>)
    requires x < |r.actions| && OnPath(m, p, stack) && stack.next < OperandCount(m.nodes[p])
    ensures var at := OperandPlace(m, p, stack);
            ActionIsMachine(r, x, SetConstructor(Placed(m, p, stack.next), at.point, c).nodes, at, words)
  {
    var at := OperandPlace(m, p, stack);
    ConstructedSlot(m, p, stack, c, at.point);
    ActionAt(r, x, SetConstructor(Placed(m, p, stack.next), at.point, c).nodes, at, words);
  }

  lemma ConstructedSlot(m: Machine, p: U8, stack: Stack, c: Ctor, q: U8)
    requires OnPath(m, p, stack) && stack.next < OperandCount(m.nodes[p]) && q == m.nodes[p].operands + stack.next
    ensures Rooted(SetConstructor(Placed(m, p, stack.next), q, c).nodes, Place(q, Depth(stack) + 1, m.alloc))
  {
    PlacedShape(m, p, stack);
    PlacedRooted(m, p, stack, q);
    ConstructedRooted(Placed(m, p, stack.next), q, Depth(stack) + 1, c);
  }

  lemma PlacedShape(m: Machine, p: U8, stack: Stack)
    requires OnPath(m, p, stack) && stack.next < OperandCount(m.nodes[p])
    ensures Shape(Placed(m, p, stack.next))
  {
    assert OwnsBlock(m, p);
    PlaceKeeps(m, Placed(m, p, stack.next), p, stack.next, m.nodes[p].operands + stack.next);
  }
}
