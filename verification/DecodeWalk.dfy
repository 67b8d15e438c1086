/** The parser input and its explicit-stack decode walk, updated in place
    (fugue-lifter-runtime/src/input.rs:493-690, constructor.rs:51-155). */
module DecodeWalk {
  import opened Prelude
  import opened Words
  import opened Grammar
  import opened DecodeMachine
  import opened DecodePath

  /** The decode of a whole instruction whose root constructor is `c`. */
  function DecodeRoot(lang: Language, m: Machine, c: Ctor): (r: Option<Machine>)
    requires Shape(m) && m.nodes[0].operands == INVALID
    ensures r.Some? ==> Shape(r.value) && r.value.nodes[0].ctor == Some(c)
  {
    EnterShape(lang, m, 0, 0, c);
    match Enter(lang, m, 0, 0, c)
    case None => None
    case Some(m1) => Descend(lang, m1, 0, 0, 0)
  }

  datatype Visit = Failed | Entered | Exhausted

  class ParserInput {
    const nodes: array<Node>
    const breadcrumb: array<nat>
    var depth: int
    var point: U8
    var alloc: int
    var context: seq<Word>
    var commits: seq<ContextCommit>
    var delaySlotLength: U8

    ghost predicate Valid()
      reads this
    {
      && nodes.Length == MAX_CTOR_STATES
      && breadcrumb.Length == MAX_PARSER_DEPTH + 1
      && nodes as object != breadcrumb as object
      && 1 <= alloc <= 255
    }

    /** The memory as a value. */
    ghost function Memory(): (m: Machine)
      reads this, nodes
    {
      Machine(nodes[..], Effects(context, commits), alloc, delaySlotLength)
    }

    /** The breadcrumbs in use. */
    ghost function Crumbs(): (s: Stack)
      reads this, breadcrumb
      requires 0 <= depth < breadcrumb.Length
      ensures Depth(s) == depth && s.next == breadcrumb[depth]
    {
      Spell(breadcrumb[..depth + 1])
    }

    /** A fresh input: the root is allocated and everything else is left over from before. */
    method Initialise(words: seq<Word>)
      requires Valid()
      modifies this, nodes, breadcrumb
      ensures Valid() && Shape(Memory())
      ensures alloc == 1 && point == 0 && depth == 0 && breadcrumb[0] == 0
      ensures nodes[0] == Node(None, None, INVALID, INVALID, 0, 0)
      ensures context == words && commits == [] && delaySlotLength == 0
      ensures forall x :: 1 <= x < MAX_CTOR_STATES ==> nodes[x] == old(nodes[x])
    {
      delaySlotLength := 0;
      alloc := 1;
      nodes[0] := Node(None, None, INVALID, INVALID, 0, 0);
      commits := [];
      BaseState();
      context := words;
      assert OwnsBlock(Memory(), 0);
    }

    method BaseState()
      requires Valid()
      modifies this`point, this`depth, breadcrumb
      ensures point == 0 && depth == 0 && breadcrumb[0] == 0
      ensures forall k :: 0 < k < breadcrumb.Length ==> breadcrumb[k] == old(breadcrumb[k])
    {
      point := 0;
      depth := 0;
      breadcrumb[0] := 0;
    }

    method SetConstructorAt(c: Ctor)
      requires Valid()
      modifies nodes
      ensures Memory() == SetConstructor(old(Memory()), point, c)
    {
      nodes[point] := nodes[point].(ctor := Some(c));
      assert nodes[..] == old(nodes[..])[point := nodes[point]];
    }

    /** Runs the constructor's context actions in order, stopping at the first failure. */
    method ApplyContextActions(lang: Language, c: Ctor) returns (ok: bool)
      requires Valid()
      modifies this`context, this`commits
      ensures var r := ApplyActions(lang, c, TrailOf(nodes[..], point), point, 0, old(Memory()).effects);
              ok == r.Some? && (ok ==> Memory() == old(Memory()).(effects := r.value))
    {
      var trail := TrailOf(nodes[..], point);
      ghost var goal := ApplyActions(lang, c, trail, point, 0, Effects(context, commits));
      var i := 0;
      while i < |c.contextActions|
        invariant 0 <= i <= |c.contextActions|
        invariant goal == ApplyActions(lang, c, trail, point, i, Effects(context, commits))
      {
        var e := ApplyAction(lang, c.contextActions[i], trail, point, Effects(context, commits));
        if e.None? {
          return false;
        }
        context, commits := e.value.words, e.value.commits;
        i := i + 1;
      }
      ok := true;
    }

    method AllocateOperandsAt(count: nat) returns (ok: bool)
      requires Valid() && 0 <= point < alloc
      modifies this`alloc, nodes
      ensures Valid()
      ensures ok == CanAllocate(old(Memory()), depth, count)
      ensures Memory() == if ok then AllocateOperands(old(Memory()), point, count) else old(Memory())
    {
      var nalloc := alloc + count;
      if nalloc >= MAX_CTOR_STATES || depth >= MAX_PARSER_DEPTH {
        return false;
      }
      var id := alloc;
      var k := 0;
      while k < count
        invariant 0 <= k <= count && alloc == id
        invariant forall x :: 0 <= x < MAX_CTOR_STATES ==>
          nodes[x] == if id <= x < id + k then FreshOperand(old(nodes[x]), point) else old(nodes[x])
      {
        nodes[id + k] := FreshOperand(nodes[id + k], point);
        k := k + 1;
      }
      alloc := alloc + count;
      nodes[point] := nodes[point].(operands := id);
      ok := true;
      assert nodes[..] == AllocateOperands(old(Memory()), point, count).nodes;
    }

    method PushOperand(operand: nat)
      requires Valid() && 0 <= depth < MAX_PARSER_DEPTH
      requires nodes[point].operands + operand < 256
      modifies this`depth, this`point, breadcrumb
      ensures depth == old(depth) + 1 && point == nodes[old(point)].operands + operand
      ensures Crumbs() == Up(old(Crumbs()).(next := operand + 1), 0)
    {
      ghost var before := breadcrumb[..depth + 1];
      breadcrumb[depth] := operand + 1;
      depth := depth + 1;
      point := nodes[point].operands + operand;
      breadcrumb[depth] := 0;
      ghost var after := breadcrumb[..depth + 1];
      assert after[..|after| - 1] == before[..|before| - 1] + [operand + 1];
      SpellTop(before, operand + 1);
    }

    method PopOperand()
      requires Valid() && depth < breadcrumb.Length
      modifies this`depth, this`point
      ensures depth == old(depth) - 1 && point == nodes[old(point)].parent
      ensures old(depth) > 0 ==> old(Crumbs()).Up? && Crumbs() == old(Crumbs()).below
    {
      assert depth > 0 ==> breadcrumb[..depth + 1][..depth] == breadcrumb[..depth];
      point := nodes[point].parent;
      depth := depth - 1;
    }

    /** The length of the current node covers its own minimum and the end of each operand. */
    method CalculateLength(length: nat, operands: nat)
      requires Valid()
      requires operands > 0 ==> nodes[point].operands + operands <= MAX_CTOR_STATES
      modifies nodes
      ensures var m := old(Memory());
              var offset := m.nodes[point].offset;
              var end := if operands == 0 then length + offset
                         else MaxEnd(m.nodes, m.nodes[point].operands, operands, length + offset);
              Memory() == SetLength(m, point, ToU8(end - offset))
    {
      var state := nodes[point];
      var maxLength := length + state.offset;
      var k := 0;
      while k < operands
        invariant 0 <= k <= operands
        invariant maxLength == if k == 0 then length + state.offset
                               else MaxEnd(nodes[..], state.operands, k, length + state.offset)
      {
        var op := nodes[state.operands + k];
        maxLength := Max(maxLength, ToU8(op.length + op.offset));
        k := k + 1;
      }
      nodes[point] := nodes[point].(length := ToU8(maxLength - state.offset));
      assert nodes[..] == old(nodes[..])[point := nodes[point]];
    }

    /** Length, pop and delay-slot request of a constructor whose operands are all decoded. */
    method Complete(c: Ctor)
      requires Valid() && nodes[point].ctor == Some(c) && depth < breadcrumb.Length
      requires |c.operands| > 0 ==> nodes[point].operands + |c.operands| <= MAX_CTOR_STATES
      modifies this, nodes
      ensures Valid() && alloc == old(alloc)
      ensures Memory() == Finish(old(Memory()), old(point))
      ensures depth == old(depth) - 1 && point == old(nodes[point].parent)
      ensures old(depth) > 0 ==> old(Crumbs()).Up? && Crumbs() == old(Crumbs()).below
    {
      CalculateLength(c.minimumLength, |c.operands|);
      PopOperand();
      if c.delaySlotLength > 0 {
        delaySlotLength := ToU8(c.delaySlotLength);
      }
    }

    /** Gives the current node its constructor, runs its context actions and reserves its
        operands; on failure the state is abandoned. */
    method EnterConstructor(lang: Language, c: Ctor) returns (ok: bool)
      requires Valid() && 0 <= point < alloc
      modifies this`context, this`commits, this`alloc, nodes
      ensures ok == Enter(lang, old(Memory()), point, depth, c).Some?
      ensures ok ==> Valid() && Memory() == Enter(lang, old(Memory()), point, depth, c).value
    {
      SetConstructorAt(c);
      ok := ApplyContextActions(lang, c);
      if ok && |c.operands| != 0 {
        ok := AllocateOperandsAt(|c.operands|);
      }
    }

    /** The body of the operand loop up to the subtable switch: pushes operand `i` and places
        it. */
    method PlaceOperand(i: nat)
      requires Valid() && Shape(Memory()) && Open(Memory(), point) && i < OperandCount(nodes[point])
      requires 0 <= depth < MAX_PARSER_DEPTH
      modifies this`depth, this`point, breadcrumb, nodes
      ensures Valid() && Memory() == Placed(old(Memory()), old(point), i)
      ensures depth == old(depth) + 1 && point == old(nodes[point].operands) + i
      ensures Crumbs() == Up(old(Crumbs()).(next := i + 1), 0)
    {
      assert OwnsBlock(Memory(), point);
      var op := nodes[point].ctor.value.operands[i];
      var base := nodes[point].offset;
      if op.offsetBase.Some? {
        assert WellFormedOperand(nodes[point].ctor.value, i);
        var sibling := nodes[nodes[point].operands + op.offsetBase.value];
        base := sibling.offset + sibling.length;
      }
      ghost var m := Memory();
      ghost var p := point;
      var offset := ToU8(base + op.offsetRela);
      assert offset == OperandOffset(m, p, i);
      PushOperand(i);
      nodes[point] := nodes[point].(offset := offset);
      assert nodes[..] == m.nodes[point := nodes[point]];
    }

    /** A plain operand gets its minimum length and is popped again. */
    method MeasureOperand(ghost m: Machine, ghost p: U8, ghost i: nat, op: Operand)
      requires Valid() && Shape(m) && Open(m, p) && i < OperandCount(m.nodes[p])
      requires op == m.nodes[p].ctor.value.operands[i]
      requires Memory() == Placed(m, p, i) && point == m.nodes[p].operands + i && 0 < depth < breadcrumb.Length
      modifies this`depth, this`point, nodes
      ensures Valid() && Memory() == Measured(m, p, i)
      ensures depth == old(depth) - 1 && point == p
      ensures old(Crumbs()).Up? && Crumbs() == old(Crumbs()).below
    {
      assert OwnsBlock(m, p);
      nodes[point] := nodes[point].(length := ToU8(op.minimumLength));
      assert nodes[..] == Placed(m, p, i).nodes[point := nodes[point]];
      PopOperand();
    }

    /** The walk stands on an open node, its breadcrumbs spell the path there, and finishing
        from here yields `goal`. */
    ghost predicate Walking(lang: Language, goal: Option<Machine>)
      reads this, nodes, breadcrumb
    {
      && Valid()
      && 0 <= depth < breadcrumb.Length
      && OnPath(Memory(), point, Crumbs())
      && Unwind(lang, Memory(), point, Crumbs()) == goal
    }

    ghost function WorkLeft(lang: Language, goal: Option<Machine>): (n: nat)
      requires Walking(lang, goal)
      reads this, nodes, breadcrumb
    {
      Work(Memory(), point, Crumbs())
    }

    /** The walk goes on towards `goal`, with less than `work` left. */
    ghost predicate Proceeds(lang: Language, goal: Option<Machine>, work: nat)
      reads this, nodes, breadcrumb
    {
      Walking(lang, goal) && WorkLeft(lang, goal) < work
    }

    /** The state right after operand `i` of `p` has been pushed and placed. */
    ghost predicate AtOperand(m: Machine, p: U8, stack: Stack, op: Operand)
      reads this, nodes, breadcrumb
    {
      && Valid()
      && OnPath(m, p, stack) && stack.next < OperandCount(m.nodes[p])
      && op == m.nodes[p].ctor.value.operands[stack.next]
      && Memory() == Placed(m, p, stack.next)
      && point == m.nodes[p].operands + stack.next
      && 0 < depth < breadcrumb.Length
      && Crumbs() == Up(Advance(stack), 0)
    }

    /** Pushes and places the operand that the innermost breadcrumb names. */
    method PlaceNext(op: Operand)
      requires Valid() && 0 <= depth < breadcrumb.Length && OnPath(Memory(), point, Crumbs())
      requires breadcrumb[depth] < OperandCount(nodes[point])
      requires op == nodes[point].ctor.value.operands[breadcrumb[depth]]
      modifies this`depth, this`point, nodes, breadcrumb
      ensures AtOperand(old(Memory()), old(point), old(Crumbs()), op)
    {
      PlaceOperand(breadcrumb[depth]);
    }

    /** Entering the constructor found goes on with the walk, or the walk is stuck. */
    static lemma SubtableStep(lang: Language, m: Machine, p: U8, stack: Stack, c: Ctor, q: U8, level: int)
      requires OnPath(m, p, stack) && stack.next < OperandCount(m.nodes[p])
      requires q == m.nodes[p].operands + stack.next && level == Depth(stack) + 1
      requires Finds(lang, m, p, stack, c)
      ensures var r := Enter(lang, Placed(m, p, stack.next), q, level, c);
              && (r.None? ==> Unwind(lang, m, p, stack).None?)
              && (r.Some? ==>
                    && OnPath(r.value, q, Up(Advance(stack), 0))
                    && Unwind(lang, m, p, stack) == Unwind(lang, r.value, q, Up(Advance(stack), 0))
                    && Work(r.value, q, Up(Advance(stack), 0)) < Work(m, p, stack))
    {
      var r := Enter(lang, Placed(m, p, stack.next), q, level, c);
      if r.Some? {
        PushSubtable(lang, m, p, stack, c, r.value);
      } else {
        UnwindStuck(lang, m, p, stack);
      }
    }

    /** A subtable operand: look its constructor up and enter it. */
    method VisitSubtable(lang: Language, op: Operand, ghost m: Machine, ghost p: U8, ghost stack: Stack)
      returns (ok: bool)
      requires AtOperand(m, p, stack, op) && op.resolver.Subtable?
      modifies this`context, this`commits, this`alloc, nodes
      ensures !ok ==> Unwind(lang, m, p, stack).None?
      ensures ok ==> Proceeds(lang, Unwind(lang, m, p, stack), Work(m, p, stack))
    {
      assert OwnsBlock(m, p);
      var c := lang.resolve(op.resolver.table, nodes[point].offset, context);
      if c.None? {
        UnwindStuck(lang, m, p, stack);
        return false;
      }
      ok := EnterFound(lang, c.value, m, p, stack);
    }

    /** Enters the constructor found in the slot of the operand. */
    method EnterFound(lang: Language, c: Ctor, ghost m: Machine, ghost p: U8, ghost stack: Stack) returns (ok: bool)
      requires OnPath(m, p, stack) && stack.next < OperandCount(m.nodes[p])
      requires AtOperand(m, p, stack, m.nodes[p].ctor.value.operands[stack.next])
      requires Finds(lang, m, p, stack, c)
      modifies this`context, this`commits, this`alloc, nodes
      ensures !ok ==> Unwind(lang, m, p, stack).None?
      ensures ok ==> Proceeds(lang, Unwind(lang, m, p, stack), Work(m, p, stack))
    {
      SubtableStep(lang, m, p, stack, c, point, depth);
      ok := EnterConstructor(lang, c);
    }

    /** Any other operand: check its filter, give it its length and pop it. */
    method VisitPlain(lang: Language, op: Operand, ghost m: Machine, ghost p: U8, ghost stack: Stack)
      returns (ok: bool)
      requires AtOperand(m, p, stack, op) && !op.resolver.Subtable?
      modifies this`depth, this`point, nodes
      ensures !ok ==> Unwind(lang, m, p, stack).None?
      ensures ok ==> Proceeds(lang, Unwind(lang, m, p, stack), Work(m, p, stack))
                     && point == p && Crumbs() == Advance(stack) && nodes[p].ctor == m.nodes[p].ctor
    {
      if op.resolver.Filter? && !lang.filter(op.resolver.filter, TrailOf(nodes[..], point), context) {
        UnwindStuck(lang, m, p, stack);
        return false;
      }
      MeasureOperand(m, p, stack.next, op);
      UnwindPlain(lang, m, p, stack);
      ok := true;
    }

    /** One pass of the inner loop: visits the operands of the current node until one of them
        is a subtable, which is entered, or all are done. */
    method VisitOperands(lang: Language, ghost goal: Option<Machine>) returns (visit: Visit)
      requires Walking(lang, goal)
      modifies this, nodes, breadcrumb
      ensures visit == Failed ==> goal.None?
      ensures visit != Failed ==>
                && Walking(lang, goal)
                && WorkLeft(lang, goal) <= old(WorkLeft(lang, goal))
                && (visit == Entered ==> WorkLeft(lang, goal) < old(WorkLeft(lang, goal)))
                && (visit == Exhausted ==> breadcrumb[depth] == OperandCount(nodes[point]))
    {
      var ctor := nodes[point].ctor.value;
      var i := breadcrumb[depth];
      while i < |ctor.operands|
        invariant Walking(lang, goal) && nodes[point].ctor == Some(ctor)
        invariant i == breadcrumb[depth] <= |ctor.operands|
        invariant WorkLeft(lang, goal) <= old(WorkLeft(lang, goal))
      {
        ghost var m, p, stack := Memory(), point, Crumbs();
        var op := ctor.operands[i];
        PlaceNext(op);
        if op.resolver.Subtable? {
          var entered := VisitSubtable(lang, op, m, p, stack);
          return if entered then Entered else Failed;
        }
        var passed := VisitPlain(lang, op, m, p, stack);
        if !passed {
          return Failed;
        }
        i := i + 1;
      }
      visit := Exhausted;
    }

    /** Decodes a whole instruction: an explicit-stack walk that terminates for every grammar
        and yields exactly what the recursive decode yields, or fails exactly when it fails. */
    method ResolveOperands(lang: Language, c: Ctor) returns (ok: bool)
      requires Valid() && Shape(Memory()) && nodes[0].operands == INVALID
      requires point == 0 && depth == 0 && breadcrumb[0] == 0
      modifies this, nodes, breadcrumb
      ensures ok == DecodeRoot(lang, old(Memory()), c).Some?
      ensures ok ==> Valid() && Memory() == DecodeRoot(lang, old(Memory()), c).value
      ensures ok ==> point == INVALID && depth == -1
    {
      ghost var goal := DecodeRoot(lang, Memory(), c);
      EnterShape(lang, Memory(), 0, 0, c);
      ok := EnterConstructor(lang, c);
      if !ok {
        return;
      }
      assert breadcrumb[..1] == [0];
      UnwindStep(lang, Memory(), 0, Base(0), goal);
      while point != INVALID
        invariant if point == INVALID then Valid() && goal == Some(Memory()) && depth == -1
                  else Walking(lang, goal)
        decreases if point == INVALID then 0 else 1 + WorkLeft(lang, goal)
      {
        var visit := VisitOperands(lang, goal);
        if visit == Failed {
          return false;
        }
        if visit == Exhausted {
          UnwindDone(lang, Memory(), point, Crumbs());
          Complete(nodes[point].ctor.value);
        }
      }
    }
  }
}
