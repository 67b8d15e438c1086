/** The explicit stack of the decode walk: what `depth` and `breadcrumb` mean, and what
    finishing a walk from any of its states yields. */
module DecodePath {
  import opened Prelude
  import opened Grammar
  import opened DecodeMachine

  /** The breadcrumbs in use, innermost level outermost: each level holds the index of the
      next operand to visit there. */
  datatype Stack = Base(next: nat) | Up(below: Stack, next: nat)

  function Depth(stack: Stack): nat
  {
    if stack.Base? then 0 else Depth(stack.below) + 1
  }

  /** The same breadcrumbs, with the innermost level moved on by one operand. */
  function Advance(stack: Stack): (r: Stack)
    ensures Depth(r) == Depth(stack)
  {
    stack.(next := stack.next + 1)
  }

  /** Reads the breadcrumb array as a stack. */
  function Spell(crumbs: seq<nat>): (r: Stack)
    requires |crumbs| > 0
    ensures Depth(r) == |crumbs| - 1 && r.next == crumbs[|crumbs| - 1]
  {
    if |crumbs| == 1 then Base(crumbs[0])
    else Up(Spell(crumbs[..|crumbs| - 1]), crumbs[|crumbs| - 1])
  }

  lemma SpellTop(crumbs: seq<nat>, n: nat)
    requires |crumbs| > 0
    ensures Spell(crumbs[..|crumbs| - 1] + [n]) == Spell(crumbs).(next := n)
  {
    var changed := crumbs[..|crumbs| - 1] + [n];
    assert changed[..|changed| - 1] == crumbs[..|crumbs| - 1];
  }

  /** `stack` spells the path from the root to the open slot `p`: every entry is one more than
      the operand index taken at that level, the last one is the next operand of `p`, and
      all operands not yet reached on any level are still waiting. */
  ghost predicate OnPath(m: Machine, p: int, stack: Stack)
    decreases stack
  {
    && Shape(m) && Open(m, p)
    && stack.next <= OperandCount(m.nodes[p]) && Blank(m, p, stack.next)
    && (OperandCount(m.nodes[p]) > 0 ==> Depth(stack) < MAX_PARSER_DEPTH)
    && if stack.Base? then p == 0
       else
         && p > 0
         && OnPath(m, m.nodes[p].parent, stack.below)
         && stack.below.next > 0
         && p == m.nodes[m.nodes[p].parent].operands + stack.below.next - 1
  }

  /** Slots the rest of the walk depends on: the path and the operands still waiting. */
  ghost predicate Relevant(m: Machine, p: int, stack: Stack, x: int)
    requires OnPath(m, p, stack)
    decreases stack
  {
    x == p || InRest(m, p, stack.next, x) ||
    (stack.Up? && Relevant(m, m.nodes[p].parent, stack.below, x))
  }

  /** Slots relevant to a proper ancestor `a` of `p` are neither `p` nor operands of `p`. */
  lemma {:induction false} RelevantAbove(m: Machine, p: int, a: int, stack: Stack, x: int)
    requires OnPath(m, a, stack) && a < p < m.alloc
    requires !InRest(m, a, stack.next, p)
    requires m.nodes[p].parent >= a
    requires Relevant(m, a, stack, x)
    ensures x != p && (x < p || (x < m.alloc && m.nodes[x].parent != p))
    decreases stack
  {
    if x == a {
    } else if InRest(m, a, stack.next, x) {
      assert OwnsBlock(m, a);
    } else {
      var b := m.nodes[a].parent;
      assert HasParent(m, a);
      assert OwnsBlock(m, b);
      RelevantAbove(m, p, b, stack.below, x);
    }
  }

  /** A path survives any change that keeps the links of the slots relevant to it. */
  lemma {:induction false} PathKept(m: Machine, r: Machine, p: int, stack: Stack)
    requires OnPath(m, p, stack) && Shape(r) && m.alloc <= r.alloc
    requires forall x :: 0 <= x < m.alloc && Relevant(m, p, stack, x) ==> SameLinks(m.nodes[x], r.nodes[x])
    ensures OnPath(r, p, stack)
    decreases stack
  {
    assert Relevant(m, p, stack, p);
    assert OwnsBlock(m, p) && OwnsBlock(r, p);
    forall q | 0 <= q < MAX_CTOR_STATES && InRest(r, p, stack.next, q)
      ensures Waiting(r.nodes[q])
    {
      assert InRest(m, p, stack.next, q);
      assert Relevant(m, p, stack, q);
    }
    if stack.Up? {
      var a := m.nodes[p].parent;
      assert Relevant(m, a, stack.below, a);
      assert HasParent(m, p);
      assert Relevant(m, p, stack, a);
      forall x | 0 <= x < m.alloc && Relevant(m, a, stack.below, x)
        ensures SameLinks(m.nodes[x], r.nodes[x])
      {
        assert Relevant(m, p, stack, x);
      }
      PathKept(m, r, a, stack.below);
    }
  }

  /** Moving on past operand `i` of `p`, whose slot is the only old one whose links changed. */
  lemma PathAdvance(m: Machine, r: Machine, p: int, stack: Stack, q: int)
    requires OnPath(m, p, stack) && stack.next < OperandCount(m.nodes[p])
    requires q == m.nodes[p].operands + stack.next
    requires Shape(r) && m.alloc <= r.alloc
    requires forall x :: 0 <= x < m.alloc && x != q ==> SameLinks(m.nodes[x], r.nodes[x])
    ensures OnPath(r, p, Advance(stack))
  {
    var stack' := Advance(stack);
    assert OwnsBlock(m, p);
    assert forall x :: InRest(m, p, stack'.next, x) ==> InRest(m, p, stack.next, x);
    assert OnPath(m, p, stack');
    forall x | 0 <= x < m.alloc && Relevant(m, p, stack', x)
      ensures SameLinks(m.nodes[x], r.nodes[x])
    {
      if x != p && !InRest(m, p, stack'.next, x) {
        var a := m.nodes[p].parent;
        assert HasParent(m, p);
        RelevantAbove(m, p, a, stack.below, x);
      }
    }
    PathKept(m, r, p, stack');
  }

  /** Leaving the completed slot `p` for its parent. */
  lemma PathPop(m: Machine, r: Machine, p: int, stack: Stack)
    requires OnPath(m, p, stack) && stack.Up?
    requires Shape(r) && Frame(m, r, p, stack.next)
    ensures OnPath(r, m.nodes[p].parent, stack.below)
    ensures r.nodes[p].parent == m.nodes[p].parent
  {
    var a := m.nodes[p].parent;
    assert HasParent(m, p);
    assert OwnsBlock(m, p);
    forall x | 0 <= x < m.alloc && Relevant(m, a, stack.below, x)
      ensures SameLinks(m.nodes[x], r.nodes[x])
    {
      RelevantAbove(m, p, a, stack.below, x);
      assert !InRest(m, p, stack.next, x);
    }
    PathKept(m, r, a, stack.below);
  }

  /** What the walk still has to deliver from a state: finish the current slot, then
      continue with its parent, up to the root. */
  function Unwind(lang: Language, m: Machine, p: U8, stack: Stack): (r: Option<Machine>)
    requires OnPath(m, p, stack)
    decreases stack
  {
    match Descend(lang, m, p, Depth(stack), stack.next)
    case None => None
    case Some(m') =>
      if stack.Base? then Some(m')
      else
        PathPop(m, m', p, stack);
        Unwind(lang, m', m.nodes[p].parent, stack.below)
  }

  /** One unfolding of `Unwind`. */
  lemma UnwindStep(lang: Language, m: Machine, p: U8, stack: Stack, d: Option<Machine>)
    requires OnPath(m, p, stack) && d == Descend(lang, m, p, Depth(stack), stack.next)
    ensures d.None? ==> Unwind(lang, m, p, stack).None?
    ensures d.Some? && stack.Base? ==> Unwind(lang, m, p, stack) == d
    ensures d.Some? && stack.Up? ==>
              && OnPath(d.value, m.nodes[p].parent, stack.below)
              && Unwind(lang, m, p, stack) == Unwind(lang, d.value, m.nodes[p].parent, stack.below)
  {
    if d.Some? && stack.Up? {
      PathPop(m, d.value, p, stack);
    }
  }

  /** Two states whose next decodes agree, on the same path, unwind alike. */
  lemma UnwindAlike(lang: Language, m: Machine, n: Machine, p: U8, stack: Stack, stack': Stack)
    requires OnPath(m, p, stack) && OnPath(n, p, stack')
    requires stack'.Up? == stack.Up? && (stack.Up? ==> stack'.below == stack.below)
    requires m.nodes[p].parent == n.nodes[p].parent
    requires Descend(lang, m, p, Depth(stack), stack.next) == Descend(lang, n, p, Depth(stack'), stack'.next)
    ensures Unwind(lang, m, p, stack) == Unwind(lang, n, p, stack')
  {
    var d := Descend(lang, m, p, Depth(stack), stack.next);
    UnwindStep(lang, m, p, stack, d);
    UnwindStep(lang, n, p, stack', d);
  }

  /** How many operands on the path are still waiting. */
  ghost function Pending(m: Machine, p: int, stack: Stack): (n: nat)
    requires OnPath(m, p, stack)
    decreases stack
  {
    OperandCount(m.nodes[p]) - stack.next +
    if stack.Base? then 0 else Pending(m, m.nodes[p].parent, stack.below)
  }

  lemma {:induction false} PendingKept(m: Machine, r: Machine, p: int, stack: Stack)
    requires OnPath(m, p, stack) && OnPath(r, p, stack)
    requires forall x :: 0 <= x <= p ==> SameLinks(m.nodes[x], r.nodes[x])
    ensures Pending(m, p, stack) == Pending(r, p, stack)
    decreases stack
  {
    if stack.Up? {
      assert HasParent(m, p);
      PendingKept(m, r, m.nodes[p].parent, stack.below);
    }
  }

  /** The work left, in loop iterations: a bound that every iteration of the walk lowers,
      whatever the grammar, because slots are never given back. */
  ghost function Work(m: Machine, p: int, stack: Stack): (n: nat)
    requires OnPath(m, p, stack)
  {
    2 * (256 - m.alloc + Pending(m, p, stack)) + Depth(stack) + 1
  }

  lemma UnwindPlain(lang: Language, m: Machine, p: U8, stack: Stack)
    requires OnPath(m, p, stack) && stack.next < OperandCount(m.nodes[p])
    requires Passes(lang, m, p, stack.next)
    ensures var m2, stack' := Measured(m, p, stack.next), Advance(stack);
            && OnPath(m2, p, stack')
            && Unwind(lang, m, p, stack) == Unwind(lang, m2, p, stack')
            && Work(m2, p, stack') < Work(m, p, stack)
  {
    var i := stack.next;
    var m2, stack' := Measured(m, p, i), Advance(stack);
    PlainAdvance(m, p, stack);
    DescendPasses(lang, m, p, Depth(stack), i);
    DepthAdvance(stack);
    UnwindAlike(lang, m, m2, p, stack, stack');
  }

  lemma DepthAdvance(stack: Stack)
    ensures Depth(Advance(stack)) == Depth(stack) && Depth(Up(Advance(stack), 0)) == Depth(stack) + 1
  {
  }

  /** An operand decoded in place moves the path on and lowers the work. */
  lemma PlainAdvance(m: Machine, p: U8, stack: Stack)
    requires OnPath(m, p, stack) && stack.next < OperandCount(m.nodes[p])
    ensures var m2 := Measured(m, p, stack.next);
            && OnPath(m2, p, Advance(stack)) && m2.nodes[p] == m.nodes[p]
            && Work(m2, p, Advance(stack)) < Work(m, p, stack)
  {
    var i := stack.next;
    var q := m.nodes[p].operands + i;
    var m2 := Measured(m, p, i);
    PlaceKeeps(m, m2, p, i, q);
    PathAdvance(m, m2, p, stack, q);
    WorkAdvance(m, m2, p, stack);
  }

  lemma WorkAdvance(m: Machine, m2: Machine, p: U8, stack: Stack)
    requires OnPath(m, p, stack) && stack.next < OperandCount(m.nodes[p]) && OnPath(m2, p, Advance(stack))
    requires m2.alloc == m.alloc && m2.nodes[p] == m.nodes[p]
    requires forall x :: 0 <= x <= p ==> SameLinks(m.nodes[x], m2.nodes[x])
    ensures Work(m2, p, Advance(stack)) < Work(m, p, stack)
  {
    DepthAdvance(stack);
    if stack.Up? {
      assert HasParent(m, p);
      PendingKept(m, m2, m.nodes[p].parent, stack.below);
    }
  }

  lemma UnwindStuck(lang: Language, m: Machine, p: U8, stack: Stack)
    requires OnPath(m, p, stack) && stack.next < OperandCount(m.nodes[p])
    requires Stuck(lang, m, p, Depth(stack), stack.next)
    ensures Unwind(lang, m, p, stack).None?
  {
    DescendStuck(lang, m, p, Depth(stack), stack.next);
    UnwindStep(lang, m, p, stack, None);
  }

  /** Operand `stack.next` of `p` is a subtable that resolves to `c`. */
  ghost predicate Finds(lang: Language, m: Machine, p: U8, stack: Stack, c: Ctor)
    requires OnPath(m, p, stack) && stack.next < OperandCount(m.nodes[p])
  {
    var m1, q := Placed(m, p, stack.next), m.nodes[p].operands + stack.next;
    && m.nodes[p].ctor.value.operands[stack.next].resolver.Subtable?
    && lang.resolve(m.nodes[p].ctor.value.operands[stack.next].resolver.table,
                    m1.nodes[q].offset, m1.effects.words) == Some(c)
  }

  /** And entering it in its slot yields `m2`. */
  ghost predicate Enters(lang: Language, m: Machine, p: U8, stack: Stack, c: Ctor, m2: Machine)
    requires OnPath(m, p, stack) && stack.next < OperandCount(m.nodes[p])
  {
    && Finds(lang, m, p, stack, c)
    && Enter(lang, Placed(m, p, stack.next), m.nodes[p].operands + stack.next, Depth(stack) + 1, c) == Some(m2)
  }

  /** `m2` stands in slot `q`, operand `stack.next` of `p`, with that operand's block reserved
      and the slots up to `p` linked as in `m`. */
  ghost predicate Pushed(m: Machine, p: U8, stack: Stack, m2: Machine, q: int)
    requires OnPath(m, p, stack) && stack.next < OperandCount(m.nodes[p])
  {
    && q == m.nodes[p].operands + stack.next && p < q < m.alloc
    && OnPath(m2, q, Up(Advance(stack), 0))
    && m2.nodes[q].parent == p
    && m2.alloc == m.alloc + OperandCount(m2.nodes[q])
    && (forall x :: 0 <= x <= p ==> SameLinks(m.nodes[x], m2.nodes[x]))
  }

  /** What entering operand `stack.next` of `p` does to the memory. */
  ghost predicate Occupied(m: Machine, p: U8, m2: Machine, q: int)
    requires |m.nodes| == MAX_CTOR_STATES
  {
    && Shape(m2) && p < q < m.alloc && Open(m2, q) && Blank(m2, q, 0)
    && m2.nodes[q].parent == p && m2.alloc == m.alloc + OperandCount(m2.nodes[q])
    && (forall x :: 0 <= x < m.alloc && x != q ==> m2.nodes[x] == m.nodes[x])
  }

  lemma EnterOccupies(lang: Language, m: Machine, p: U8, stack: Stack, c: Ctor, m2: Machine)
    requires OnPath(m, p, stack) && stack.next < OperandCount(m.nodes[p]) && Enters(lang, m, p, stack, c, m2)
    ensures Occupied(m, p, m2, m.nodes[p].operands + stack.next)
    ensures OperandCount(m2.nodes[m.nodes[p].operands + stack.next]) > 0 ==> Depth(stack) + 1 < MAX_PARSER_DEPTH
  {
    var i, q := stack.next, m.nodes[p].operands + stack.next;
    var m1 := Placed(m, p, i);
    PlaceKeeps(m, m1, p, i, q);
    EnterShape(lang, m1, q, Depth(stack) + 1, c);
    EnterDepth(lang, m1, q, Depth(stack) + 1, c);
  }

  /** Pushing into a subtable operand extends the path. */
  lemma EnterPath(lang: Language, m: Machine, p: U8, stack: Stack, c: Ctor, m2: Machine)
    requires OnPath(m, p, stack) && stack.next < OperandCount(m.nodes[p]) && Enters(lang, m, p, stack, c, m2)
    ensures Pushed(m, p, stack, m2, m.nodes[p].operands + stack.next)
  {
    EnterOccupies(lang, m, p, stack, c, m2);
    OccupiedPath(m, p, stack, m2, m.nodes[p].operands + stack.next);
  }

  lemma OccupiedPath(m: Machine, p: U8, stack: Stack, m2: Machine, q: int)
    requires OnPath(m, p, stack) && stack.next < OperandCount(m.nodes[p]) && q == m.nodes[p].operands + stack.next
    requires Occupied(m, p, m2, q) && (OperandCount(m2.nodes[q]) > 0 ==> Depth(stack) + 1 < MAX_PARSER_DEPTH)
    ensures Pushed(m, p, stack, m2, q)
  {
    PathAdvance(m, m2, p, stack, q);
    assert m2.nodes[p] == m.nodes[p];
  }

  lemma EnterDepth(lang: Language, m: Machine, q: U8, depth: int, c: Ctor)
    requires |m.nodes| == MAX_CTOR_STATES && 0 <= m.alloc
    requires Enter(lang, m, q, depth, c).Some?
    ensures |c.operands| > 0 ==> depth < MAX_PARSER_DEPTH
  {
  }

  lemma UnwindEnter(lang: Language, m: Machine, p: U8, stack: Stack, c: Ctor, m2: Machine)
    requires OnPath(m, p, stack) && stack.next < OperandCount(m.nodes[p]) && Enters(lang, m, p, stack, c, m2)
    requires OnPath(m2, m.nodes[p].operands + stack.next, Up(Advance(stack), 0))
    requires m2.nodes[m.nodes[p].operands + stack.next].parent == p
    ensures Unwind(lang, m, p, stack) ==
            Unwind(lang, m2, m.nodes[p].operands + stack.next, Up(Advance(stack), 0))
  {
    DescendEnters(lang, m, p, Depth(stack), stack.next, c, m2);
    EnterUnwind(lang, m, p, stack, m2, m.nodes[p].operands + stack.next);
  }

  /** All that the walk needs to know about pushing into a subtable operand. */
  lemma PushSubtable(lang: Language, m: Machine, p: U8, stack: Stack, c: Ctor, m2: Machine)
    requires OnPath(m, p, stack) && stack.next < OperandCount(m.nodes[p]) && Enters(lang, m, p, stack, c, m2)
    ensures var q := m.nodes[p].operands + stack.next;
            && OnPath(m2, q, Up(Advance(stack), 0))
            && Unwind(lang, m, p, stack) == Unwind(lang, m2, q, Up(Advance(stack), 0))
            && Work(m2, q, Up(Advance(stack), 0)) < Work(m, p, stack)
  {
    EnterPath(lang, m, p, stack, c, m2);
    UnwindEnter(lang, m, p, stack, c, m2);
    EnterWork(m, p, stack, m2, m.nodes[p].operands + stack.next);
  }

  /** Finishing the entered slot and then its parent is finishing the parent. */
  lemma EnterUnwind(lang: Language, m: Machine, p: U8, stack: Stack, m2: Machine, q: U8)
    requires OnPath(m, p, stack) && stack.next < OperandCount(m.nodes[p])
    requires OnPath(m2, q, Up(Advance(stack), 0)) && m2.nodes[q].parent == p
    requires Delegates(lang, m, p, Depth(stack), stack.next, m2, q)
    ensures Unwind(lang, m, p, stack) == Unwind(lang, m2, q, Up(Advance(stack), 0))
  {
    DepthAdvance(stack);
    EnterContinues(lang, m, p, stack, m2, q, Up(Advance(stack), 0), Descend(lang, m2, q, Depth(stack) + 1, 0));
  }

  lemma EnterContinues(lang: Language, m: Machine, p: U8, stack: Stack, m2: Machine, q: U8, inner: Stack, d: Option<Machine>)
    requires OnPath(m, p, stack) && stack.next < OperandCount(m.nodes[p])
    requires inner == Up(Advance(stack), 0) && OnPath(m2, q, inner) && m2.nodes[q].parent == p
    requires d == Descend(lang, m2, q, Depth(inner), inner.next) && DelegatesTo(lang, m, p, Depth(stack), stack.next, d)
    ensures Unwind(lang, m, p, stack) == Unwind(lang, m2, q, inner)
  {
    UnwindStep(lang, m2, q, inner, d);
    match d {
      case None => UnwindStep(lang, m, p, stack, None);
      case Some(m3) => ReturnsAlike(lang, m, m3, p, stack);
    }
  }

  /** Having decoded the operand at hand, the walk goes on with the next one. */
  lemma ReturnsAlike(lang: Language, m: Machine, m3: Machine, p: U8, stack: Stack)
    requires OnPath(m, p, stack) && stack.next < OperandCount(m.nodes[p])
    requires OnPath(m3, p, Advance(stack)) && DelegatesTo(lang, m, p, Depth(stack), stack.next, Some(m3))
    ensures Unwind(lang, m, p, stack) == Unwind(lang, m3, p, Advance(stack))
  {
    DepthAdvance(stack);
    UnwindAlike(lang, m, m3, p, stack, Advance(stack));
  }

  lemma EnterWork(m: Machine, p: U8, stack: Stack, m2: Machine, q: int)
    requires OnPath(m, p, stack) && stack.next < OperandCount(m.nodes[p])
    requires OnPath(m2, q, Up(Advance(stack), 0))
    requires p < q && m2.alloc == m.alloc + OperandCount(m2.nodes[q])
    requires m2.nodes[q].parent == p
    requires forall x :: 0 <= x <= p ==> SameLinks(m.nodes[x], m2.nodes[x])
    ensures Work(m2, q, Up(Advance(stack), 0)) < Work(m, p, stack)
  {
    assert Pending(m2, q, Up(Advance(stack), 0)) == OperandCount(m2.nodes[q]) + Pending(m2, p, Advance(stack));
    if stack.Up? {
      assert HasParent(m, p);
      PendingKept(m, m2, m.nodes[p].parent, stack.below);
    }
  }

  /** The last operand of `p` is done. */
  lemma UnwindDone(lang: Language, m: Machine, p: U8, stack: Stack)
    requires OnPath(m, p, stack) && stack.next == OperandCount(m.nodes[p])
    ensures Shape(Finish(m, p)) && Frame(m, Finish(m, p), p, stack.next)
    ensures stack.Base? ==> Unwind(lang, m, p, stack) == Some(Finish(m, p)) && m.nodes[p].parent == INVALID
    ensures stack.Up? ==>
              var r, a := Finish(m, p), m.nodes[p].parent;
              && a != INVALID
              && OnPath(r, a, stack.below)
              && Unwind(lang, m, p, stack) == Unwind(lang, r, a, stack.below)
              && Work(r, a, stack.below) < Work(m, p, stack)
  {
    FinishKeeps(m, p, stack.next);
    if stack.Up? {
      var r, a := Finish(m, p), m.nodes[p].parent;
      PathPop(m, r, p, stack);
      assert HasParent(m, p);
      PendingKept(m, r, a, stack.below);
    }
  }
}
