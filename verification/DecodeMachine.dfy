/** The decoder's node memory as a value, the shape invariant of every reachable state,
    and a recursive decode over that memory (fugue-lifter-runtime/src/input.rs,
    constructor.rs). The explicit-stack loop in DecodeWalk.dfy is proved equal to it, and
    DecodeTree.dfy proves that it lays out the tree of a memory-free decode. */
module DecodeMachine {
  import opened Prelude
  import opened Grammar

  const MAX_CTOR_STATES: nat := 256
  const MAX_PARSER_DEPTH: nat := 128
  const INVALID: U8 := INVALID_HANDLE

  datatype FixedHandle = FixedHandle(
    space: U8, size: int, offsetSpace: U8, offsetOffset: U64, offsetSize: int,
    temporarySpace: U8, temporaryOffset: U64)

  datatype Node = Node(
    ctor: Option<Ctor>, handle: Option<FixedHandle>,
    operands: U8, parent: U8, offset: U8, length: U8)

  datatype Machine = Machine(
    nodes: seq<Node>, effects: Effects, alloc: int, delay: U8)

  function OperandCount(n: Node): nat
  {
    if n.ctor.Some? then |n.ctor.value.operands| else 0
  }

  /** Slot `q` either has no operand block, or owns a contiguous, fully allocated one behind
      it whose members name it as their parent. */
  ghost predicate OwnsBlock(m: Machine, q: int)
    requires |m.nodes| == MAX_CTOR_STATES && 0 <= q < m.alloc <= MAX_CTOR_STATES
  {
    m.nodes[q].operands != INVALID ==>
      && q < m.nodes[q].operands
      && m.nodes[q].operands + OperandCount(m.nodes[q]) <= m.alloc
      && forall k :: m.nodes[q].operands <= k < m.nodes[q].operands + OperandCount(m.nodes[q]) ==>
           m.nodes[k].parent == q
  }

  /** Slot `q` comes after its parent and lies in the parent's operand block. */
  ghost predicate HasParent(m: Machine, q: int)
    requires |m.nodes| == MAX_CTOR_STATES && 0 <= q < m.alloc <= MAX_CTOR_STATES
  {
    var p := m.nodes[q].parent;
    && p < q
    && m.nodes[p].operands != INVALID
    && m.nodes[p].operands <= q < m.nodes[p].operands + OperandCount(m.nodes[p])
  }

  /** The shape invariant: parents precede children, every allocated node but the root lies
      in its parent's operand block, and at most 255 nodes are allocated. Two operand blocks
      are disjoint because each member names one parent. */
  ghost predicate Shape(m: Machine)
  {
    && |m.nodes| == MAX_CTOR_STATES
    && 1 <= m.alloc <= 255
    && m.nodes[0].parent == INVALID
    && (forall q :: 0 <= q < m.alloc ==> OwnsBlock(m, q))
    && (forall q :: 0 < q < m.alloc ==> HasParent(m, q))
  }

  /** Slot `p` has its constructor, and its operand block if it needs one. */
  ghost predicate Open(m: Machine, p: int)
    requires Shape(m)
  {
    && 0 <= p < m.alloc
    && m.nodes[p].ctor.Some?
    && (OperandCount(m.nodes[p]) > 0 <==> m.nodes[p].operands != INVALID)
    && OwnsBlock(m, p)
  }

  /** The path from slot `p` to the root along parent links. */
  function TrailOf(nodes: seq<Node>, p: int): Trail
    requires 0 <= p < |nodes|
    decreases p
  {
    [Step(nodes[p].ctor, nodes[p].offset)] +
    if nodes[p].parent < p then TrailOf(nodes, nodes[p].parent) else []
  }

  function SetConstructor(m: Machine, p: int, c: Ctor): Machine
    requires 0 <= p < |m.nodes|
  {
    m.(nodes := m.nodes[p := m.nodes[p].(ctor := Some(c))])
  }

  /** A freshly allocated operand slot: every field but the handle is reset. */
  function FreshOperand(n: Node, parent: U8): Node
  {
    n.(parent := parent, ctor := None, operands := INVALID, offset := 0, length := 0)
  }

  function CanAllocate(m: Machine, depth: int, count: nat): bool
  {
    m.alloc + count < MAX_CTOR_STATES && depth < MAX_PARSER_DEPTH
  }

  /** Reserves `count` operand slots for slot `p`. */
  function AllocateOperands(m: Machine, p: U8, count: nat): (r: Machine)
    requires |m.nodes| == MAX_CTOR_STATES && 0 <= m.alloc && m.alloc + count < MAX_CTOR_STATES
    ensures |r.nodes| == MAX_CTOR_STATES
  {
    var cleared := seq(MAX_CTOR_STATES, i requires 0 <= i < MAX_CTOR_STATES =>
      if m.alloc <= i < m.alloc + count then FreshOperand(m.nodes[i], p) else m.nodes[i]);
    m.(nodes := cleared[p := cleared[p].(operands := m.alloc)], alloc := m.alloc + count)
  }

  /** Gives slot `p` its constructor, runs its context actions and reserves its operands. */
  function Enter(lang: Language, m: Machine, p: U8, depth: int, c: Ctor): (r: Option<Machine>)
    requires |m.nodes| == MAX_CTOR_STATES && 0 <= m.alloc
  {
    var m1 := SetConstructor(m, p, c);
    match ApplyActions(lang, c, TrailOf(m1.nodes, p), p, 0, m1.effects)
    case None => None
    case Some(e) =>
      var m2 := m1.(effects := e);
      if |c.operands| == 0 then Some(m2)
      else if CanAllocate(m2, depth, |c.operands|) then Some(AllocateOperands(m2, p, |c.operands|))
      else None
  }

  /** Where operand `i` of the open slot `p` starts. */
  function OperandOffset(m: Machine, p: int, i: nat): U8
    requires |m.nodes| == MAX_CTOR_STATES && 0 <= p < MAX_CTOR_STATES
    requires m.nodes[p].ctor.Some? && i < OperandCount(m.nodes[p])
    requires m.nodes[p].operands + OperandCount(m.nodes[p]) <= MAX_CTOR_STATES
  {
    var op := m.nodes[p].ctor.value.operands[i];
    var base := match op.offsetBase
                case None => m.nodes[p].offset
                case Some(n) =>
                  assert WellFormedOperand(m.nodes[p].ctor.value, i);
                  m.nodes[m.nodes[p].operands + n].offset + m.nodes[m.nodes[p].operands + n].length;
    ToU8(base + op.offsetRela)
  }

  function SetOffset(m: Machine, p: int, offset: U8): Machine
    requires 0 <= p < |m.nodes|
  {
    m.(nodes := m.nodes[p := m.nodes[p].(offset := offset)])
  }

  function SetLength(m: Machine, p: int, length: U8): Machine
    requires 0 <= p < |m.nodes|
  {
    m.(nodes := m.nodes[p := m.nodes[p].(length := length)])
  }

  /** The furthest end among the first `n` operands of a block and `floor`; each end is an
      eight-bit sum. */
  function MaxEnd(nodes: seq<Node>, block: int, n: nat, floor: int): (r: int)
    requires 0 <= block && block + n <= |nodes|
    ensures r >= floor
  {
    if n == 0 then floor
    else
      var op := nodes[block + n - 1];
      Max(MaxEnd(nodes, block, n - 1, floor), ToU8(op.length + op.offset))
  }

  /** Completes slot `p`: its length, and the delay slot it may ask for. */
  function Finish(m: Machine, p: int): Machine
    requires |m.nodes| == MAX_CTOR_STATES && 0 <= p < MAX_CTOR_STATES && m.nodes[p].ctor.Some?
    requires OperandCount(m.nodes[p]) > 0 ==>
               m.nodes[p].operands + OperandCount(m.nodes[p]) <= MAX_CTOR_STATES
  {
    var c := m.nodes[p].ctor.value;
    var offset := m.nodes[p].offset;
    var end := if |c.operands| == 0 then c.minimumLength + offset
               else MaxEnd(m.nodes, m.nodes[p].operands, |c.operands|, c.minimumLength + offset);
    var m1 := SetLength(m, p, ToU8(end - offset));
    if c.delaySlotLength > 0 then m1.(delay := ToU8(c.delaySlotLength)) else m1
  }

  /** What decoding the operands of `p` from `i` on may change among the slots that were
      already allocated: the remaining operands, and the length of `p`. */
  ghost predicate Frame(m: Machine, r: Machine, p: int, i: nat)
    requires Shape(m) && Open(m, p) && |r.nodes| == MAX_CTOR_STATES
  {
    && m.alloc <= r.alloc
    && (forall q :: 0 <= q < m.alloc && q != p && !InRest(m, p, i, q) ==> r.nodes[q] == m.nodes[q])
    && r.nodes[p] == m.nodes[p].(length := r.nodes[p].length)
    && (forall q :: 0 <= q < m.alloc && InRest(m, p, i, q) ==> r.nodes[q].parent == p)
  }

  ghost predicate InRest(m: Machine, p: int, i: nat, q: int)
    requires 0 <= p < |m.nodes|
  {
    m.nodes[p].operands != INVALID &&
    m.nodes[p].operands + i <= q < m.nodes[p].operands + OperandCount(m.nodes[p])
  }

  /** A slot that is still waiting for its constructor. */
  predicate Waiting(n: Node)
  {
    n.ctor.None? && n.operands == INVALID
  }

  /** The operands of `p` from `i` on are still waiting. */
  ghost predicate Blank(m: Machine, p: int, i: nat)
    requires |m.nodes| == MAX_CTOR_STATES && 0 <= p < MAX_CTOR_STATES
  {
    forall q :: 0 <= q < MAX_CTOR_STATES && InRest(m, p, i, q) ==> Waiting(m.nodes[q])
  }

  /** Two nodes agree on everything the shape depends on. */
  predicate SameLinks(a: Node, b: Node)
  {
    a.ctor == b.ctor && a.operands == b.operands && a.parent == b.parent
  }

  lemma LinksKeepShape(m: Machine, r: Machine)
    requires Shape(m) && |r.nodes| == MAX_CTOR_STATES && r.alloc == m.alloc
    requires forall q :: 0 <= q < MAX_CTOR_STATES ==> SameLinks(m.nodes[q], r.nodes[q])
    ensures Shape(r)
  {
    forall q | 0 <= q < r.alloc
      ensures OwnsBlock(r, q)
    {
      assert OwnsBlock(m, q);
    }
    forall q | 0 < q < r.alloc
      ensures HasParent(r, q)
    {
      assert HasParent(m, q);
    }
  }

  /** Giving a blank slot its constructor keeps the shape. */
  lemma ConstructorKeepsShape(m: Machine, q: int, c: Ctor)
    requires Shape(m) && 0 <= q < m.alloc && m.nodes[q].operands == INVALID
    ensures Shape(SetConstructor(m, q, c))
  {
    var r := SetConstructor(m, q, c);
    forall x | 0 <= x < r.alloc
      ensures OwnsBlock(r, x)
    {
      assert OwnsBlock(m, x);
    }
    forall x | 0 < x < r.alloc
      ensures HasParent(r, x)
    {
      assert HasParent(m, x);
    }
  }

  /** Reserving operands for a slot that has none keeps the shape. */
  lemma AllocateKeepsShape(m: Machine, q: U8, count: nat)
    requires Shape(m) && 0 <= q < m.alloc && m.nodes[q].operands == INVALID
    requires m.alloc + count < MAX_CTOR_STATES && count == OperandCount(m.nodes[q])
    ensures Shape(AllocateOperands(m, q, count))
  {
    var r := AllocateOperands(m, q, count);
    assert forall x :: 0 <= x < m.alloc && x != q ==> r.nodes[x] == m.nodes[x];
    assert r.nodes[q] == m.nodes[q].(operands := m.alloc);
    assert forall x :: m.alloc <= x < r.alloc ==> r.nodes[x] == FreshOperand(m.nodes[x], q);
    forall x | 0 <= x < r.alloc
      ensures OwnsBlock(r, x)
    {
      if x < m.alloc {
        assert OwnsBlock(m, x);
      }
    }
    forall x | 0 < x < r.alloc
      ensures HasParent(r, x)
    {
      if x < m.alloc {
        assert HasParent(m, x);
      }
    }
  }

  /** Entering a blank slot keeps the shape, opens the slot and leaves the others alone. */
  lemma EnterShape(lang: Language, m: Machine, q: U8, depth: int, c: Ctor)
    requires Shape(m) && 0 <= q < m.alloc && m.nodes[q].operands == INVALID
    ensures Enter(lang, m, q, depth, c).Some? ==>
              var r := Enter(lang, m, q, depth, c).value;
              && Shape(r) && Open(r, q) && Blank(r, q, 0)
              && r.alloc == m.alloc + |c.operands|
              && (|c.operands| > 0 ==> r.nodes[q].operands == m.alloc)
              && r.nodes[q] == m.nodes[q].(ctor := Some(c), operands := r.nodes[q].operands)
              && (forall x :: 0 <= x < m.alloc && x != q ==> r.nodes[x] == m.nodes[x])
  {
    if Enter(lang, m, q, depth, c).Some? {
      var m1 := SetConstructor(m, q, c);
      ConstructorKeepsShape(m, q, c);
      var e := ApplyActions(lang, c, TrailOf(m1.nodes, q), q, 0, m1.effects).value;
      var m2 := m1.(effects := e);
      LinksKeepShape(m1, m2);
      if |c.operands| > 0 {
        AllocateKeepsShape(m2, q, |c.operands|);
      }
    }
  }

  /** Writing the offset or length of one operand of `p` keeps everything about its shape. */
  lemma PlaceKeeps(m: Machine, r: Machine, p: int, i: nat, q: int)
    requires Shape(m) && Open(m, p) && i < OperandCount(m.nodes[p]) && Blank(m, p, i)
    requires q == m.nodes[p].operands + i
    requires |r.nodes| == MAX_CTOR_STATES && r == m.(nodes := r.nodes)
    requires SameLinks(m.nodes[q], r.nodes[q])
    requires forall x :: 0 <= x < MAX_CTOR_STATES && x != q ==> r.nodes[x] == m.nodes[x]
    ensures Shape(r) && Open(r, p) && Blank(r, p, i) && Blank(r, p, i + 1)
    ensures p < q < m.alloc && m.nodes[q].parent == p && r.nodes[q].operands == INVALID
  {
    assert OwnsBlock(m, p);
    assert InRest(m, p, i, q);
    LinksKeepShape(m, r);
    forall x | 0 <= x < MAX_CTOR_STATES && InRest(r, p, i, x)
      ensures Waiting(r.nodes[x])
    {
      assert InRest(m, p, i, x);
    }
    assert forall x :: InRest(r, p, i + 1, x) ==> InRest(r, p, i, x);
  }

  /** After the operand in slot `q` of `p` has been decoded, `p` is ready for the next one. */
  lemma NextReady(m: Machine, r: Machine, p: int, i: nat, q: int)
    requires Shape(m) && Open(m, p) && i < OperandCount(m.nodes[p]) && Blank(m, p, i)
    requires q == m.nodes[p].operands + i && p < q < m.alloc
    requires Shape(r) && m.alloc <= r.alloc
    requires forall x :: 0 <= x < m.alloc && x != q ==> r.nodes[x] == m.nodes[x]
    ensures Open(r, p) && Blank(r, p, i + 1)
  {
    assert OwnsBlock(m, p);
    forall x | 0 <= x < MAX_CTOR_STATES && InRest(r, p, i + 1, x)
      ensures Waiting(r.nodes[x])
    {
      assert InRest(m, p, i, x);
      assert r.nodes[x] == m.nodes[x];
    }
  }

  /** Completing `p` keeps the shape and changes only its length. */
  lemma FinishKeeps(m: Machine, p: int, i: nat)
    requires Shape(m) && Open(m, p) && i == OperandCount(m.nodes[p])
    ensures Shape(Finish(m, p)) && Frame(m, Finish(m, p), p, i)
  {
    LinksKeepShape(m, Finish(m, p));
  }

  /** Frames compose: the changes to operand `i` followed by those to the rest. */
  lemma FrameStep(m: Machine, r: Machine, s: Machine, p: int, i: nat, q: int)
    requires Shape(m) && Open(m, p) && i < OperandCount(m.nodes[p])
    requires q == m.nodes[p].operands + i && p < q < m.alloc
    requires Shape(r) && m.alloc <= r.alloc && r.nodes[q].parent == p
    requires forall x :: 0 <= x < m.alloc && x != q ==> r.nodes[x] == m.nodes[x]
    requires Open(r, p) && |s.nodes| == MAX_CTOR_STATES && Frame(r, s, p, i + 1)
    ensures Frame(m, s, p, i)
  {
    assert forall x :: InRest(r, p, i + 1, x) ==> InRest(m, p, i, x);
    assert InRest(m, p, i, q);
    forall x | 0 <= x < m.alloc && InRest(m, p, i, x)
      ensures s.nodes[x].parent == p
    {
      if x == q {
        assert !InRest(r, p, i + 1, x);
      } else {
        assert InRest(r, p, i + 1, x);
      }
    }
  }

  /** Entering a blank slot and decoding its operands touches, below the old allocation
      mark, only that slot; its link to its parent stays. */
  lemma DescendedNode(m1: Machine, m2: Machine, m3: Machine, q: int)
    requires Shape(m1) && 0 <= q < m1.alloc <= m2.alloc
    requires Shape(m2) && Open(m2, q) && Shape(m3) && Frame(m2, m3, q, 0)
    requires m2.nodes[q].operands != INVALID ==> m1.alloc <= m2.nodes[q].operands
    requires m2.nodes[q].parent == m1.nodes[q].parent
    requires forall x :: 0 <= x < m1.alloc && x != q ==> m2.nodes[x] == m1.nodes[x]
    ensures m1.alloc <= m3.alloc && m3.nodes[q].parent == m1.nodes[q].parent
    ensures forall x :: 0 <= x < m1.alloc && x != q ==> m3.nodes[x] == m1.nodes[x]
  {
    forall x | 0 <= x < m1.alloc && x != q
      ensures m3.nodes[x] == m1.nodes[x]
    {
      assert !InRest(m2, q, 0, x);
    }
  }

  /** The recursive decode: processes the operands of `p` from `i` on, then completes `p`. */
  function Descend(lang: Language, m: Machine, p: U8, depth: int, i: nat): (r: Option<Machine>)
    requires Shape(m) && Open(m, p) && i <= OperandCount(m.nodes[p]) && Blank(m, p, i)
    ensures r.Some? ==> Shape(r.value) && Frame(m, r.value, p, i)
    decreases 256 - m.alloc, OperandCount(m.nodes[p]) - i, 1
  {
    assert OwnsBlock(m, p);
    if i == OperandCount(m.nodes[p]) then
      FinishKeeps(m, p, i);
      Some(Finish(m, p))
    else
      var q := m.nodes[p].operands + i;
      var op := m.nodes[p].ctor.value.operands[i];
      var m1 := SetOffset(m, q, OperandOffset(m, p, i));
      match op.resolver
      case Plain => DescendPlain(lang, m, m1, p, depth, i)
      case Filter(f) =>
        if lang.filter(f, TrailOf(m1.nodes, q), m1.effects.words)
        then DescendPlain(lang, m, m1, p, depth, i)
        else None
      case Subtable(t) =>
        match lang.resolve(t, m1.nodes[q].offset, m1.effects.words)
        case None => None
        case Some(c) => DescendInto(lang, m, m1, p, depth, i, c)
  }

  /** An operand without a subtable: its length is its minimum length. */
  function DescendPlain(lang: Language, ghost m: Machine, m1: Machine, p: U8, depth: int, i: nat)
    : (r: Option<Machine>)
    requires Shape(m) && Open(m, p) && i < OperandCount(m.nodes[p]) && Blank(m, p, i)
    requires m1 == SetOffset(m, m.nodes[p].operands + i, OperandOffset(m, p, i))
    ensures r.Some? ==> Shape(r.value) && Frame(m, r.value, p, i)
    decreases 256 - m.alloc, OperandCount(m.nodes[p]) - i, 0
  {
    var q := m1.nodes[p].operands + i;
    var m2 := SetLength(m1, q, ToU8(m1.nodes[p].ctor.value.operands[i].minimumLength));
    PlaceKeeps(m, m2, p, i, q);
    var r := Descend(lang, m2, p, depth, i + 1);
    assert r.Some? ==> Frame(m, r.value, p, i) by {
      if r.Some? { FrameStep(m, m2, r.value, p, i, q); }
    }
    r
  }

  /** A subtable operand: decode its constructor `c` in place, then continue. */
  function DescendInto(lang: Language, ghost m: Machine, m1: Machine, p: U8, depth: int, i: nat, c: Ctor)
    : (r: Option<Machine>)
    requires Shape(m) && Open(m, p) && i < OperandCount(m.nodes[p]) && Blank(m, p, i)
    requires m1 == SetOffset(m, m.nodes[p].operands + i, OperandOffset(m, p, i))
    ensures r.Some? ==> Shape(r.value) && Frame(m, r.value, p, i)
    decreases 256 - m.alloc, OperandCount(m.nodes[p]) - i, 0
  {
    var q := m1.nodes[p].operands + i;
    PlaceKeeps(m, m1, p, i, q);
    EnterShape(lang, m1, q, depth + 1, c);
    match Enter(lang, m1, q, depth + 1, c)
    case None => None
    case Some(m2) =>
      match Descend(lang, m2, q, depth + 1, 0)
      case None => None
      case Some(m3) =>
        DescendedNode(m1, m2, m3, q);
        NextReady(m, m3, p, i, q);
        var r := Descend(lang, m3, p, depth, i + 1);
        assert r.Some? ==> Frame(m, r.value, p, i) by {
          if r.Some? { FrameStep(m, m3, r.value, p, i, q); }
        }
        r
  }

  /** One unfolding of the decode at a subtable operand. */
  lemma DescendSubtable(lang: Language, m: Machine, p: U8, depth: int, i: nat, t: nat)
    requires Shape(m) && Open(m, p) && i < OperandCount(m.nodes[p]) && Blank(m, p, i)
    requires m.nodes[p].ctor.value.operands[i].resolver == Subtable(t)
    ensures var q := m.nodes[p].operands + i;
            var m1 := SetOffset(m, q, OperandOffset(m, p, i));
            var c := lang.resolve(t, m1.nodes[q].offset, m1.effects.words);
            Descend(lang, m, p, depth, i) ==
            if c.None? then None else DescendInto(lang, m, m1, p, depth, i, c.value)
  {
  }

  lemma IntoFails(lang: Language, m: Machine, m1: Machine, p: U8, depth: int, i: nat, c: Ctor)
    requires Shape(m) && Open(m, p) && i < OperandCount(m.nodes[p]) && Blank(m, p, i)
    requires m1 == SetOffset(m, m.nodes[p].operands + i, OperandOffset(m, p, i))
    requires Enter(lang, m1, m.nodes[p].operands + i, depth + 1, c).None?
    ensures DescendInto(lang, m, m1, p, depth, i, c).None?
  {
  }

  /** After entering and decoding the subtable operand in slot `q` of `p`, `p` is ready for
      its next operand. */
  lemma IntoReady(lang: Language, m: Machine, m1: Machine, p: U8, depth: int, i: nat, c: Ctor, m2: Machine, q: U8)
    requires Shape(m) && Open(m, p) && i < OperandCount(m.nodes[p]) && Blank(m, p, i)
    requires q == m.nodes[p].operands + i && m1 == SetOffset(m, q, OperandOffset(m, p, i))
    requires Enter(lang, m1, q, depth, c) == Some(m2)
    ensures Shape(m2) && Open(m2, q) && Blank(m2, q, 0)
    ensures Descend(lang, m2, q, depth, 0).Some? ==>
              var m3 := Descend(lang, m2, q, depth, 0).value;
              Open(m3, p) && Blank(m3, p, i + 1) && m3.nodes[p] == m.nodes[p]
  {
    PlaceKeeps(m, m1, p, i, q);
    EnterShape(lang, m1, q, depth, c);
    if Descend(lang, m2, q, depth, 0).Some? {
      var m3 := Descend(lang, m2, q, depth, 0).value;
      DescendedNode(m1, m2, m3, q);
      NextReady(m, m3, p, i, q);
    }
  }

  lemma IntoEnters(lang: Language, m: Machine, m1: Machine, p: U8, depth: int, i: nat, c: Ctor, m2: Machine)
    requires Shape(m) && Open(m, p) && i < OperandCount(m.nodes[p]) && Blank(m, p, i)
    requires m1 == SetOffset(m, m.nodes[p].operands + i, OperandOffset(m, p, i))
    requires Enter(lang, m1, m.nodes[p].operands + i, depth + 1, c) == Some(m2)
    ensures var q := m.nodes[p].operands + i;
            && Shape(m2) && Open(m2, q) && Blank(m2, q, 0)
            && match Descend(lang, m2, q, depth + 1, 0)
               case None => DescendInto(lang, m, m1, p, depth, i, c).None?
               case Some(m3) =>
                 && Open(m3, p) && Blank(m3, p, i + 1) && m3.nodes[p] == m.nodes[p]
                 && DescendInto(lang, m, m1, p, depth, i, c) == Descend(lang, m3, p, depth, i + 1)
  {
    IntoReady(lang, m, m1, p, depth + 1, i, c, m2, m.nodes[p].operands + i);
  }

  /** Decoding `p` from operand `i` on is decoding slot `q` from `m2` and then the rest. */
  ghost predicate Delegates(lang: Language, m: Machine, p: U8, depth: int, i: nat, m2: Machine, q: U8)
    requires Shape(m) && Open(m, p) && i < OperandCount(m.nodes[p]) && Blank(m, p, i)
    requires Shape(m2) && Open(m2, q) && Blank(m2, q, 0)
  {
    DelegatesTo(lang, m, p, depth, i, Descend(lang, m2, q, depth + 1, 0))
  }

  /** Decoding `p` from operand `i` on is decoding the rest from what `d` left. */
  ghost predicate DelegatesTo(lang: Language, m: Machine, p: U8, depth: int, i: nat, d: Option<Machine>)
    requires Shape(m) && Open(m, p) && i < OperandCount(m.nodes[p]) && Blank(m, p, i)
  {
    match d
    case None => Descend(lang, m, p, depth, i).None?
    case Some(m3) =>
      && Shape(m3) && Open(m3, p) && Blank(m3, p, i + 1) && m3.nodes[p] == m.nodes[p]
      && Descend(lang, m, p, depth, i) == Descend(lang, m3, p, depth, i + 1)
  }

  lemma DescendEnters(lang: Language, m: Machine, p: U8, depth: int, i: nat, c: Ctor, m2: Machine)
    requires Shape(m) && Open(m, p) && i < OperandCount(m.nodes[p]) && Blank(m, p, i)
    requires var q := m.nodes[p].operands + i;
             var m1 := SetOffset(m, q, OperandOffset(m, p, i));
             && m.nodes[p].ctor.value.operands[i].resolver.Subtable?
             && lang.resolve(m.nodes[p].ctor.value.operands[i].resolver.table,
                             m1.nodes[q].offset, m1.effects.words) == Some(c)
             && Enter(lang, m1, q, depth + 1, c) == Some(m2)
    ensures var q := m.nodes[p].operands + i;
            && Shape(m2) && Open(m2, q) && Blank(m2, q, 0)
            && Delegates(lang, m, p, depth, i, m2, q)
  {
    var m1 := SetOffset(m, m.nodes[p].operands + i, OperandOffset(m, p, i));
    DescendSubtable(lang, m, p, depth, i, m.nodes[p].ctor.value.operands[i].resolver.table);
    IntoEnters(lang, m, m1, p, depth, i, c, m2);
  }

  /** The memory after operand `i` of `p` got its offset. */
  function Placed(m: Machine, p: int, i: nat): (r: Machine)
    requires Shape(m) && Open(m, p) && i < OperandCount(m.nodes[p])
  {
    SetOffset(m, m.nodes[p].operands + i, OperandOffset(m, p, i))
  }

  /** The memory after a plain operand `i` of `p` is done. */
  function Measured(m: Machine, p: int, i: nat): (r: Machine)
    requires Shape(m) && Open(m, p) && i < OperandCount(m.nodes[p])
  {
    SetLength(Placed(m, p, i), m.nodes[p].operands + i,
              ToU8(m.nodes[p].ctor.value.operands[i].minimumLength))
  }

  /** Which lookups let operand `i` of `p` through without a subtable. */
  predicate Passes(lang: Language, m: Machine, p: int, i: nat)
    requires Shape(m) && Open(m, p) && i < OperandCount(m.nodes[p])
  {
    var m1 := Placed(m, p, i);
    match m.nodes[p].ctor.value.operands[i].resolver
    case Plain => true
    case Filter(f) => lang.filter(f, TrailOf(m1.nodes, m.nodes[p].operands + i), m1.effects.words)
    case Subtable(_) => false
  }

  /** Which lookups make the decode fail at operand `i` of `p`. */
  predicate Stuck(lang: Language, m: Machine, p: int, depth: int, i: nat)
    requires Shape(m) && Open(m, p) && i < OperandCount(m.nodes[p])
  {
    var m1, q := Placed(m, p, i), m.nodes[p].operands + i;
    match m.nodes[p].ctor.value.operands[i].resolver
    case Plain => false
    case Filter(f) => !lang.filter(f, TrailOf(m1.nodes, q), m1.effects.words)
    case Subtable(t) =>
      var c := lang.resolve(t, m1.nodes[q].offset, m1.effects.words);
      c.None? || Enter(lang, m1, q, depth + 1, c.value).None?
  }

  lemma DescendPasses(lang: Language, m: Machine, p: U8, depth: int, i: nat)
    requires Shape(m) && Open(m, p) && i < OperandCount(m.nodes[p]) && Blank(m, p, i)
    requires Passes(lang, m, p, i)
    ensures var m2 := Measured(m, p, i);
            && Shape(m2) && Open(m2, p) && Blank(m2, p, i + 1)
            && Descend(lang, m, p, depth, i) == Descend(lang, m2, p, depth, i + 1)
  {
    PlaceKeeps(m, Measured(m, p, i), p, i, m.nodes[p].operands + i);
  }

  lemma DescendStuck(lang: Language, m: Machine, p: U8, depth: int, i: nat)
    requires Shape(m) && Open(m, p) && i < OperandCount(m.nodes[p]) && Blank(m, p, i)
    requires Stuck(lang, m, p, depth, i)
    ensures Descend(lang, m, p, depth, i).None?
  {
    var m1, q := Placed(m, p, i), m.nodes[p].operands + i;
    match m.nodes[p].ctor.value.operands[i].resolver {
      case Filter(_) =>
      case Subtable(t) =>
        DescendSubtable(lang, m, p, depth, i, t);
        var c := lang.resolve(t, m1.nodes[q].offset, m1.effects.words);
        if c.Some? {
          IntoFails(lang, m, m1, p, depth, i, c.value);
        }
    }
  }
}
