/** A memory-free recursive decode into a tree, and the proof that the node memory left by the
    decode walk is the layout of exactly that tree (fugue-lifter-runtime/src/constructor.rs,
    input.rs). */
module DecodeTree {
  import opened Prelude
  import opened Grammar
  import opened DecodeMachine

  datatype Tree = Tree(slot: U8, ctor: Option<Ctor>, offset: U8, length: U8, kids: seq<Tree>)

  /** What a decode threads through besides the tree. */
  datatype Env = Env(effects: Effects, alloc: int, delay: U8)

  function KidOffset(c: Ctor, offset: U8, kids: seq<Tree>): U8
    requires |kids| < |c.operands|
  {
    var op := c.operands[|kids|];
    var base := match op.offsetBase
                case None => offset
                case Some(n) => assert WellFormedOperand(c, |kids|); kids[n].offset + kids[n].length;
    ToU8(base + op.offsetRela)
  }

  function FurthestEnd(kids: seq<Tree>, floor: int): (r: int)
    ensures r >= floor
  {
    if kids == [] then floor
    else
      var last := kids[|kids| - 1];
      Max(FurthestEnd(kids[..|kids| - 1], floor), ToU8(last.length + last.offset))
  }

  function LengthOf(c: Ctor, offset: U8, kids: seq<Tree>): U8
  {
    ToU8(FurthestEnd(kids, c.minimumLength + offset) - offset)
  }

  function RequestDelay(c: Ctor, e: Env): Env
  {
    if c.delaySlotLength > 0 then e.(delay := ToU8(c.delaySlotLength)) else e
  }

  /** Decodes constructor `c` at `offset`: context actions first, then its operands from left
      to right, then its length. Slots are numbered in the order they are reserved. */
  function Decode(lang: Language, e: Env, outer: Trail, slot: U8, depth: int, c: Ctor, offset: U8)
    : (r: Option<(Tree, Env)>)
    requires 1 <= e.alloc <= 255
    ensures r.Some? ==> e.alloc <= r.value.1.alloc <= 255
    decreases 256 - e.alloc, 0, 1
  {
    var trail := [Step(Some(c), offset)] + outer;
    match ApplyActions(lang, c, trail, slot, 0, e.effects)
    case None => None
    case Some(effects) =>
      var e1 := e.(effects := effects);
      if |c.operands| == 0 then
        Some((Tree(slot, Some(c), offset, LengthOf(c, offset, []), []), RequestDelay(c, e1)))
      else if e1.alloc + |c.operands| >= MAX_CTOR_STATES || depth >= MAX_PARSER_DEPTH then None
      else
        Assemble(slot, c, offset, DecodeOperands(lang, e1.(alloc := e1.alloc + |c.operands|), trail, depth,
                                                 c, offset, e1.alloc, []))
  }

  /** The node of a constructor around its decoded operands. */
  function Assemble(slot: U8, c: Ctor, offset: U8, operands: Option<(seq<Tree>, Env)>)
    : (r: Option<(Tree, Env)>)
  {
    match operands
    case None => None
    case Some((kids, e)) =>
      Some((Tree(slot, Some(c), offset, LengthOf(c, offset, kids), kids), RequestDelay(c, e)))
  }

  /** Decodes the operands of `c` after the ones already in `kids`. */
  function DecodeOperands(lang: Language, e: Env, trail: Trail, depth: int, c: Ctor, offset: U8,
                          block: int, kids: seq<Tree>)
    : (r: Option<(seq<Tree>, Env)>)
    requires 1 <= e.alloc <= 255 && |kids| <= |c.operands| && 0 <= block && block + |c.operands| <= e.alloc
    ensures r.Some? ==> e.alloc <= r.value.1.alloc <= 255 && |r.value.0| == |c.operands|
    decreases 256 - e.alloc, |c.operands| - |kids|, 0
  {
    if |kids| == |c.operands| then Some((kids, e))
    else
      var op := c.operands[|kids|];
      var slot: U8 := block + |kids|;
      var at := KidOffset(c, offset, kids);
      match op.resolver
      case Plain =>
        var leaf := Tree(slot, None, at, ToU8(op.minimumLength), []);
        DecodeOperands(lang, e, trail, depth, c, offset, block, kids + [leaf])
      case Filter(f) =>
        if lang.filter(f, [Step(None, at)] + trail, e.effects.words) then
          var leaf := Tree(slot, None, at, ToU8(op.minimumLength), []);
          DecodeOperands(lang, e, trail, depth, c, offset, block, kids + [leaf])
        else None
      case Subtable(t) =>
        match lang.resolve(t, at, e.effects.words)
        case None => None
        case Some(inner) =>
          match Decode(lang, e, trail, slot, depth + 1, inner, at)
          case None => None
          case Some((tree, e')) =>
            DecodeOperands(lang, e', trail, depth, c, offset, block, kids + [tree])
  }

  /** `nodes` holds `t`: every node at its slot, with its children in one block whose members
      point back to it. */
  ghost predicate Lay(nodes: seq<Node>, t: Tree)
    decreases t, 1
  {
    && |nodes| == MAX_CTOR_STATES
    && nodes[t.slot].ctor == t.ctor && nodes[t.slot].offset == t.offset && nodes[t.slot].length == t.length
    && |t.kids| == OperandCount(nodes[t.slot])
    && (|t.kids| == 0 ==> nodes[t.slot].operands == INVALID)
    && LayAll(nodes, t.slot, nodes[t.slot].operands, t.kids)
  }

  ghost predicate LayAll(nodes: seq<Node>, parent: U8, block: int, kids: seq<Tree>)
    requires |nodes| == MAX_CTOR_STATES
    decreases kids, 0
  {
    forall k :: 0 <= k < |kids| ==>
      && kids[k].slot == block + k
      && nodes[kids[k].slot].parent == parent
      && Lay(nodes, kids[k])
  }

  lemma LayKid(nodes: seq<Node>, t: Tree, k: nat)
    requires Lay(nodes, t) && k < |t.kids|
    ensures Lay(nodes, t.kids[k]) && t.kids[k].slot == nodes[t.slot].operands + k
    ensures nodes[t.kids[k].slot].parent == t.slot
  {
  }

  /** Every slot strictly inside `t` lies in [lo, hi). */
  ghost predicate Within(t: Tree, lo: int, hi: int)
  {
    forall k :: 0 <= k < |t.kids| ==> lo <= t.kids[k].slot < hi && Within(t.kids[k], lo, hi)
  }

  ghost predicate AllWithin(kids: seq<Tree>, lo: int, hi: int)
  {
    forall k :: 0 <= k < |kids| ==> Within(kids[k], lo, hi)
  }

  lemma {:induction false} WithinWidens(t: Tree, lo: int, hi: int, lo': int, hi': int)
    requires Within(t, lo, hi) && lo' <= lo && hi <= hi'
    ensures Within(t, lo', hi')
  {
    forall k | 0 <= k < |t.kids|
      ensures lo' <= t.kids[k].slot < hi' && Within(t.kids[k], lo', hi')
    {
      WithinWidens(t.kids[k], lo, hi, lo', hi');
    }
  }

  /** A laid-out tree survives writes outside its slots. */
  lemma {:induction false} LayKept(nodes: seq<Node>, nodes': seq<Node>, t: Tree, lo: int, hi: int)
    requires Lay(nodes, t) && Within(t, lo, hi) && 0 <= lo && hi <= MAX_CTOR_STATES
    requires |nodes'| == MAX_CTOR_STATES && nodes'[t.slot] == nodes[t.slot]
    requires forall x :: lo <= x < hi ==> nodes'[x] == nodes[x]
    ensures Lay(nodes', t)
  {
    forall k | 0 <= k < |t.kids|
      ensures nodes'[t.kids[k].slot].parent == t.slot && Lay(nodes', t.kids[k])
    {
      LayKept(nodes, nodes', t.kids[k], lo, hi);
    }
  }

  predicate SameStep(a: Node, b: Node)
  {
    a.ctor == b.ctor && a.parent == b.parent && a.offset == b.offset
  }

  /** A path does not depend on anything behind its node. */
  lemma {:induction false} TrailKept(nodes: seq<Node>, nodes': seq<Node>, p: int)
    requires 0 <= p < |nodes| == |nodes'|
    requires forall x :: 0 <= x <= p ==> SameStep(nodes[x], nodes'[x])
    ensures TrailOf(nodes, p) == TrailOf(nodes', p)
    decreases p
  {
    if nodes[p].parent < p {
      TrailKept(nodes, nodes', nodes[p].parent);
    }
  }

  lemma TrailPush(nodes: seq<Node>, q: int)
    requires 0 <= q < |nodes| && nodes[q].parent < q
    ensures TrailOf(nodes, q) == [Step(nodes[q].ctor, nodes[q].offset)] + TrailOf(nodes, nodes[q].parent)
  {
  }

  function EnvOf(m: Machine): Env
  {
    Env(m.effects, m.alloc, m.delay)
  }

  /** The first operands of `p` are laid out as `kids`, behind the operand block of `p`. */
  ghost predicate KidsAt(m: Machine, p: U8, kids: seq<Tree>)
    requires |m.nodes| == MAX_CTOR_STATES
  {
    && LayAll(m.nodes, p, m.nodes[p].operands, kids)
    && AllWithin(kids, m.nodes[p].operands + OperandCount(m.nodes[p]), m.alloc)
  }

  lemma KidsKept(m: Machine, r: Machine, p: U8, kids: seq<Tree>)
    requires |m.nodes| == MAX_CTOR_STATES == |r.nodes| && KidsAt(m, p, kids)
    requires 0 <= m.alloc <= r.alloc && m.alloc <= MAX_CTOR_STATES
    requires m.nodes[p].operands + |kids| <= MAX_CTOR_STATES
    requires r.nodes[p].operands == m.nodes[p].operands && r.nodes[p].ctor == m.nodes[p].ctor
    requires forall x :: m.nodes[p].operands <= x < m.nodes[p].operands + |kids| ==> r.nodes[x] == m.nodes[x]
    requires forall x :: m.nodes[p].operands + OperandCount(m.nodes[p]) <= x < m.alloc ==> r.nodes[x] == m.nodes[x]
    ensures KidsAt(r, p, kids)
  {
    var lo := m.nodes[p].operands + OperandCount(m.nodes[p]);
    forall k | 0 <= k < |kids|
      ensures r.nodes[kids[k].slot].parent == p && Lay(r.nodes, kids[k]) && Within(kids[k], lo, r.alloc)
    {
      LayKept(m.nodes, r.nodes, kids[k], lo, m.alloc);
      WithinWidens(kids[k], lo, m.alloc, lo, r.alloc);
    }
  }

  lemma KidsExtend(m: Machine, p: U8, kids: seq<Tree>, t: Tree)
    requires |m.nodes| == MAX_CTOR_STATES && KidsAt(m, p, kids)
    requires t.slot == m.nodes[p].operands + |kids| && m.nodes[t.slot].parent == p && Lay(m.nodes, t)
    requires Within(t, m.nodes[p].operands + OperandCount(m.nodes[p]), m.alloc)
    ensures KidsAt(m, p, kids + [t])
  {
  }

  lemma {:induction false} EndsAgree(m: Machine, p: U8, kids: seq<Tree>, floor: int)
    requires |m.nodes| == MAX_CTOR_STATES && LayAll(m.nodes, p, m.nodes[p].operands, kids)
    requires m.nodes[p].operands + |kids| <= MAX_CTOR_STATES
    ensures MaxEnd(m.nodes, m.nodes[p].operands, |kids|, floor) == FurthestEnd(kids, floor)
    decreases |kids|
  {
    if kids != [] {
      EndsAgree(m, p, kids[..|kids| - 1], floor);
      assert Lay(m.nodes, kids[|kids| - 1]);
    }
  }

  /** A slot ready for its operands from `|kids|` on, the earlier ones laid out. */
  ghost predicate Ready(m: Machine, p: U8, kids: seq<Tree>)
  {
    && Shape(m) && Open(m, p) && 0 < OperandCount(m.nodes[p])
    && |kids| <= OperandCount(m.nodes[p]) && Blank(m, p, |kids|) && KidsAt(m, p, kids)
  }

  /** The decode over memory and the memory-free decode of the remaining operands of `p`
      both fail, or both succeed with the same context words, commits, numbering and delay
      request, the memory holding the decoded operands. */
  ghost predicate OperandsAgree(lang: Language, m: Machine, p: U8, depth: int, kids: seq<Tree>)
    requires Ready(m, p, kids)
  {
    Alike(p, m.nodes[p], KidsDecoded(lang, m, p, depth, kids), Descend(lang, m, p, depth, |kids|))
  }

  ghost function KidsDecoded(lang: Language, m: Machine, p: U8, depth: int, kids: seq<Tree>): Option<(seq<Tree>, Env)>
    requires Ready(m, p, kids)
  {
    var n := m.nodes[p];
    DecodeOperands(lang, EnvOf(m), TrailOf(m.nodes, p), depth, n.ctor.value, n.offset, n.operands, kids)
  }

  /** The rest of node `n`, in slot `p`, is decoded as `x` into trees and as `d` in memory. */
  ghost predicate Alike(p: U8, n: Node, x: Option<(seq<Tree>, Env)>, d: Option<Machine>)
    requires n.ctor.Some?
  {
    match x
    case None => d.None?
    case Some((all, e)) =>
      && d.Some?
      && var r := d.value;
      && |r.nodes| == MAX_CTOR_STATES && EnvOf(r) == RequestDelay(n.ctor.value, e)
      && KidsAt(r, p, all)
      && r.nodes[p].length == LengthOf(n.ctor.value, n.offset, all)
  }

  lemma FinishLays(m: Machine, p: U8, kids: seq<Tree>)
    requires Ready(m, p, kids) && |kids| == OperandCount(m.nodes[p])
    ensures var r, c := Finish(m, p), m.nodes[p].ctor.value;
            && EnvOf(r) == RequestDelay(c, EnvOf(m))
            && |r.nodes| == MAX_CTOR_STATES && KidsAt(r, p, kids)
            && r.nodes[p].length == LengthOf(c, m.nodes[p].offset, kids)
  {
    EndsAgree(m, p, kids, m.nodes[p].ctor.value.minimumLength + m.nodes[p].offset);
    KidsKept(m, Finish(m, p), p, kids);
  }

  lemma AgreeDone(lang: Language, m: Machine, p: U8, depth: int, kids: seq<Tree>)
    requires Ready(m, p, kids) && |kids| == OperandCount(m.nodes[p])
    ensures OperandsAgree(lang, m, p, depth, kids)
  {
    FinishLays(m, p, kids);
    assert Descend(lang, m, p, depth, |kids|) == Some(Finish(m, p));
  }

  /** Operand `|kids|` of `p` starts where the tree says it does. */
  lemma OffsetsAgree(m: Machine, p: U8, kids: seq<Tree>)
    requires Ready(m, p, kids) && |kids| < OperandCount(m.nodes[p])
    ensures OperandOffset(m, p, |kids|) == KidOffset(m.nodes[p].ctor.value, m.nodes[p].offset, kids)
  {
    var op := m.nodes[p].ctor.value.operands[|kids|];
    if op.offsetBase.Some? {
      assert WellFormedOperand(m.nodes[p].ctor.value, |kids|);
      assert Lay(m.nodes, kids[op.offsetBase.value]);
    }
  }

  /** The tree of a plain operand of `p`. */
  function LeafOf(m: Machine, p: U8, i: nat): (t: Tree)
    requires Shape(m) && Open(m, p) && i < OperandCount(m.nodes[p])
  {
    Tree(m.nodes[p].operands + i, None, OperandOffset(m, p, i),
         ToU8(m.nodes[p].ctor.value.operands[i].minimumLength), [])
  }

  lemma PlainReady(m: Machine, p: U8, kids: seq<Tree>)
    requires Ready(m, p, kids) && |kids| < OperandCount(m.nodes[p])
    ensures var m2 := Measured(m, p, |kids|);
            && Ready(m2, p, kids + [LeafOf(m, p, |kids|)])
            && EnvOf(m2) == EnvOf(m) && m2.nodes[p] == m.nodes[p]
            && TrailOf(m2.nodes, p) == TrailOf(m.nodes, p)
  {
    var i := |kids|;
    var q := m.nodes[p].operands + i;
    var m2 := Measured(m, p, i);
    assert InRest(m, p, i, q);
    PlaceKeeps(m, m2, p, i, q);
    TrailKept(m.nodes, m2.nodes, p);
    KidsKept(m, m2, p, kids);
    KidsExtend(m2, p, kids, LeafOf(m, p, i));
  }

  /** The path the filter of operand `i` sees. */
  lemma PlacedTrail(m: Machine, p: U8, i: nat)
    requires Shape(m) && Open(m, p) && i < OperandCount(m.nodes[p]) && Blank(m, p, i)
    ensures var m1, q := Placed(m, p, i), m.nodes[p].operands + i;
            TrailOf(m1.nodes, q) == [Step(None, OperandOffset(m, p, i))] + TrailOf(m.nodes, p)
  {
    var m1, q := Placed(m, p, i), m.nodes[p].operands + i;
    assert InRest(m, p, i, q);
    assert m.nodes[q].parent == p && Waiting(m.nodes[q]);
    TrailPush(m1.nodes, q);
    TrailKept(m.nodes, m1.nodes, p);
  }

  lemma AgreePlain(lang: Language, m: Machine, p: U8, depth: int, kids: seq<Tree>)
    requires Ready(m, p, kids) && |kids| < OperandCount(m.nodes[p])
    requires !m.nodes[p].ctor.value.operands[|kids|].resolver.Subtable?
    requires Ready(Measured(m, p, |kids|), p, kids + [LeafOf(m, p, |kids|)])
    requires OperandsAgree(lang, Measured(m, p, |kids|), p, depth, kids + [LeafOf(m, p, |kids|)])
    ensures OperandsAgree(lang, m, p, depth, kids)
  {
    PlainReady(m, p, kids);
    PlainDecoded(lang, m, p, depth, kids);
    if Passes(lang, m, p, |kids|) {
      DescendPasses(lang, m, p, depth, |kids|);
    } else {
      DescendStuck(lang, m, p, depth, |kids|);
    }
  }

  lemma PlainDecoded(lang: Language, m: Machine, p: U8, depth: int, kids: seq<Tree>)
    requires Ready(m, p, kids) && |kids| < OperandCount(m.nodes[p])
    requires !m.nodes[p].ctor.value.operands[|kids|].resolver.Subtable?
    requires Ready(Measured(m, p, |kids|), p, kids + [LeafOf(m, p, |kids|)])
    ensures KidsDecoded(lang, m, p, depth, kids) ==
            if Passes(lang, m, p, |kids|)
            then KidsDecoded(lang, Measured(m, p, |kids|), p, depth, kids + [LeafOf(m, p, |kids|)])
            else None
  {
    PlainReady(m, p, kids);
    OffsetsAgree(m, p, kids);
    PlacedTrail(m, p, |kids|);
  }

  /** Entering slot `q` with constructor `c` and decoding it in memory agrees with decoding
      `c` into a tree; the tree's inner slots are all newly reserved ones. */
  ghost predicate EnterAgrees(lang: Language, m: Machine, q: U8, depth: int, c: Ctor, outer: Trail)
    requires Shape(m) && 0 <= q < m.alloc && m.nodes[q].operands == INVALID
  {
    EnterShape(lang, m, q, depth, c);
    match Decode(lang, EnvOf(m), outer, q, depth, c, m.nodes[q].offset)
    case None =>
      Enter(lang, m, q, depth, c).None? || Descend(lang, Enter(lang, m, q, depth, c).value, q, depth, 0).None?
    case Some((t, e)) =>
      && Enter(lang, m, q, depth, c).Some?
      && Descend(lang, Enter(lang, m, q, depth, c).value, q, depth, 0).Some?
      && HoldsTree(m, Descend(lang, Enter(lang, m, q, depth, c).value, q, depth, 0).value, q, t, e)
  }

  ghost predicate HoldsTree(m: Machine, r: Machine, q: U8, t: Tree, e: Env)
  {
    EnvOf(r) == e && Lay(r.nodes, t) && t.slot == q && Within(t, m.alloc, r.alloc)
  }

  /** A constructor without operands: one node, done at once. */
  lemma EmptyLays(m: Machine, q: U8)
    requires Shape(m) && Open(m, q) && OperandCount(m.nodes[q]) == 0
    ensures var r, c := Finish(m, q), m.nodes[q].ctor.value;
            HoldsTree(m, r, q, Tree(q, Some(c), m.nodes[q].offset, LengthOf(c, m.nodes[q].offset, []), []),
                      RequestDelay(c, EnvOf(m)))
  {
  }

  /** A constructor whose operands are all laid out. */
  lemma NodeLays(m: Machine, m2: Machine, r: Machine, q: U8, kids: seq<Tree>, length: U8)
    requires Shape(m2) && Open(m2, q) && Shape(r) && Frame(m2, r, q, 0)
    requires 0 < OperandCount(m2.nodes[q]) == |kids| && m2.nodes[q].operands == m.alloc
    requires r.nodes[q].length == length && KidsAt(r, q, kids)
    ensures Lay(r.nodes, Tree(q, m2.nodes[q].ctor, m2.nodes[q].offset, length, kids))
    ensures Within(Tree(q, m2.nodes[q].ctor, m2.nodes[q].offset, length, kids), m.alloc, r.alloc)
  {
    var lo := m.alloc + |kids|;
    forall k | 0 <= k < |kids|
      ensures m.alloc <= kids[k].slot < r.alloc && Within(kids[k], m.alloc, r.alloc)
    {
      assert OwnsBlock(m2, q);
      WithinWidens(kids[k], lo, r.alloc, m.alloc, r.alloc);
    }
  }

  lemma EnteredReady(lang: Language, m: Machine, q: U8, depth: int, c: Ctor, m2: Machine)
    requires Shape(m) && 0 <= q < m.alloc && m.nodes[q].operands == INVALID
    requires Enter(lang, m, q, depth, c) == Some(m2) && |c.operands| > 0
    ensures Ready(m2, q, []) && m2.nodes[q].operands == m.alloc && m2.alloc == m.alloc + |c.operands|
    ensures m2.nodes[q].ctor == Some(c) && m2.nodes[q].offset == m.nodes[q].offset && m2.delay == m.delay
    ensures TrailOf(m2.nodes, q) == TrailOf(SetConstructor(m, q, c).nodes, q)
  {
    EnterShape(lang, m, q, depth, c);
    TrailKept(SetConstructor(m, q, c).nodes, m2.nodes, q);
  }

  /** What the trail of a slot looks like once it has its constructor. */
  ghost predicate HasTrail(m: Machine, q: U8, c: Ctor, outer: Trail)
    requires |m.nodes| == MAX_CTOR_STATES
  {
    TrailOf(SetConstructor(m, q, c).nodes, q) == [Step(Some(c), m.nodes[q].offset)] + outer
  }

  lemma DecodeEntered(lang: Language, m: Machine, q: U8, depth: int, c: Ctor, outer: Trail, m2: Machine)
    requires Shape(m) && 0 <= q < m.alloc && m.nodes[q].operands == INVALID && HasTrail(m, q, c, outer)
    requires Enter(lang, m, q, depth, c) == Some(m2) && |c.operands| > 0
    requires Ready(m2, q, [])
    ensures m2.nodes[q].ctor == Some(c)
    ensures Decode(lang, EnvOf(m), outer, q, depth, c, m.nodes[q].offset) ==
            Assemble(q, c, m2.nodes[q].offset, KidsDecoded(lang, m2, q, depth, []))
  {
    EnteredReady(lang, m, q, depth, c, m2);
    EnteredEnv(lang, m, q, depth, c, outer, m2);
    DecodeUnfold(lang, EnvOf(m), outer, q, depth, c, m.nodes[q].offset, EnvOf(m2));
  }

  /** The actions of `c` ran and its operands got their block. */
  ghost predicate Starts(lang: Language, e: Env, trail: Trail, slot: U8, depth: int, c: Ctor, e2: Env)
  {
    && ApplyActions(lang, c, trail, slot, 0, e.effects) == Some(e2.effects)
    && e.alloc + |c.operands| < MAX_CTOR_STATES && depth < MAX_PARSER_DEPTH
    && e2 == e.(effects := e2.effects, alloc := e.alloc + |c.operands|)
  }

  lemma EnteredEnv(lang: Language, m: Machine, q: U8, depth: int, c: Ctor, outer: Trail, m2: Machine)
    requires Shape(m) && 0 <= q < m.alloc && m.nodes[q].operands == INVALID && HasTrail(m, q, c, outer)
    requires Enter(lang, m, q, depth, c) == Some(m2) && |c.operands| > 0
    ensures Starts(lang, EnvOf(m), [Step(Some(c), m.nodes[q].offset)] + outer, q, depth, c, EnvOf(m2))
  {
    EnteredReady(lang, m, q, depth, c, m2);
  }

  lemma DecodeUnfold(lang: Language, e: Env, outer: Trail, slot: U8, depth: int, c: Ctor, offset: U8, e2: Env)
    requires 1 <= e.alloc <= 255 && |c.operands| > 0
    requires Starts(lang, e, [Step(Some(c), offset)] + outer, slot, depth, c, e2)
    ensures Decode(lang, e, outer, slot, depth, c, offset) ==
            Assemble(slot, c, offset, DecodeOperands(lang, e2, [Step(Some(c), offset)] + outer, depth, c, offset, e.alloc, []))
  {
  }

  lemma AgreeEntered(lang: Language, m: Machine, q: U8, depth: int, c: Ctor, outer: Trail, m2: Machine)
    requires Shape(m) && 0 <= q < m.alloc && m.nodes[q].operands == INVALID && HasTrail(m, q, c, outer)
    requires Enter(lang, m, q, depth, c) == Some(m2) && |c.operands| > 0
    requires Ready(m2, q, []) && OperandsAgree(lang, m2, q, depth, [])
    ensures EnterAgrees(lang, m, q, depth, c, outer)
  {
    DecodeEntered(lang, m, q, depth, c, outer, m2);
    EnteredReady(lang, m, q, depth, c, m2);
    var d := Descend(lang, m2, q, depth, 0);
    var k := KidsDecoded(lang, m2, q, depth, []);
    if k.Some? {
      NodeLays(m, m2, d.value, q, k.value.0, LengthOf(c, m2.nodes[q].offset, k.value.0));
    }
  }

  lemma AgreeEmpty(lang: Language, m: Machine, q: U8, depth: int, c: Ctor, outer: Trail)
    requires Shape(m) && 0 <= q < m.alloc && m.nodes[q].operands == INVALID && HasTrail(m, q, c, outer)
    requires Enter(lang, m, q, depth, c).None? || |c.operands| == 0
    ensures EnterAgrees(lang, m, q, depth, c, outer)
  {
    EnterShape(lang, m, q, depth, c);
    if Enter(lang, m, q, depth, c).Some? {
      EmptyLays(Enter(lang, m, q, depth, c).value, q);
    }
  }

  /** Decoding the subtable operand in slot `q` of `p` touched, among the old slots, only `q`. */
  lemma SubtableFrame(m: Machine, p: U8, i: nat, m1: Machine, m2: Machine, m3: Machine, q: U8)
    requires Shape(m) && Open(m, p) && i < OperandCount(m.nodes[p]) && Blank(m, p, i)
    requires q == m.nodes[p].operands + i && m1 == Placed(m, p, i)
    requires Shape(m2) && Open(m2, q) && Shape(m3) && Frame(m2, m3, q, 0)
    requires m1.alloc <= m2.alloc && (m2.nodes[q].operands != INVALID ==> m1.alloc <= m2.nodes[q].operands)
    requires m2.nodes[q].parent == m1.nodes[q].parent
    requires forall x :: 0 <= x < m1.alloc && x != q ==> m2.nodes[x] == m1.nodes[x]
    ensures p < q < m.alloc <= m3.alloc && m3.nodes[q].parent == p
    ensures forall x :: 0 <= x < m.alloc && x != q ==> m3.nodes[x] == m.nodes[x]
  {
    PlaceKeeps(m, m1, p, i, q);
    DescendedNode(m1, m2, m3, q);
  }

  /** Slot `q` of `p` holds tree `t`; `p` is ready for its next operand. */
  lemma SubtableReady(m: Machine, p: U8, kids: seq<Tree>, m3: Machine, q: U8, t: Tree, e: Env)
    requires Ready(m, p, kids) && |kids| < OperandCount(m.nodes[p])
    requires q == m.nodes[p].operands + |kids| && p < q < m.alloc <= m3.alloc
    requires Shape(m3) && m3.nodes[q].parent == p
    requires forall x :: 0 <= x < m.alloc && x != q ==> m3.nodes[x] == m.nodes[x]
    requires HoldsTree(m, m3, q, t, e)
    ensures Ready(m3, p, kids + [t]) && EnvOf(m3) == e && m3.nodes[p] == m.nodes[p]
    ensures TrailOf(m3.nodes, p) == TrailOf(m.nodes, p)
  {
    NextReady(m, m3, p, |kids|, q);
    TrailKept(m.nodes, m3.nodes, p);
    SubtableKids(m, p, kids, m3, q, t, e);
  }

  lemma SubtableKids(m: Machine, p: U8, kids: seq<Tree>, m3: Machine, q: U8, t: Tree, e: Env)
    requires |m.nodes| == MAX_CTOR_STATES == |m3.nodes| && KidsAt(m, p, kids) && |kids| < OperandCount(m.nodes[p])
    requires m.nodes[p].operands + OperandCount(m.nodes[p]) <= m.alloc <= m3.alloc <= MAX_CTOR_STATES
    requires q == m.nodes[p].operands + |kids| && p < q && m3.nodes[q].parent == p
    requires forall x :: 0 <= x < m.alloc && x != q ==> m3.nodes[x] == m.nodes[x]
    requires HoldsTree(m, m3, q, t, e)
    ensures KidsAt(m3, p, kids + [t])
  {
    KidsKept(m, m3, p, kids);
    WithinWidens(t, m.alloc, m3.alloc, m.nodes[p].operands + OperandCount(m.nodes[p]), m3.alloc);
    KidsExtend(m3, p, kids, t);
  }

  /** The path a subtable operand's own constructor sees. */
  lemma SubtableTrail(m: Machine, p: U8, i: nat, c: Ctor)
    requires Shape(m) && Open(m, p) && i < OperandCount(m.nodes[p]) && Blank(m, p, i)
    ensures HasTrail(Placed(m, p, i), m.nodes[p].operands + i, c, TrailOf(m.nodes, p))
  {
    var m1, q := Placed(m, p, i), m.nodes[p].operands + i;
    assert InRest(m, p, i, q);
    assert m.nodes[q].parent == p;
    var n := SetConstructor(m1, q, c).nodes;
    TrailPush(n, q);
    TrailKept(m.nodes, n, p);
  }

  lemma DecodeSubtable(lang: Language, m: Machine, p: U8, depth: int, kids: seq<Tree>, c: Ctor)
    requires Ready(m, p, kids) && |kids| < OperandCount(m.nodes[p])
    requires m.nodes[p].ctor.value.operands[|kids|].resolver.Subtable?
    requires lang.resolve(m.nodes[p].ctor.value.operands[|kids|].resolver.table,
                          OperandOffset(m, p, |kids|), m.effects.words) == Some(c)
    ensures var trail, block := TrailOf(m.nodes, p), m.nodes[p].operands;
            DecodeOperands(lang, EnvOf(m), trail, depth, m.nodes[p].ctor.value, m.nodes[p].offset, block, kids) ==
            match Decode(lang, EnvOf(m), trail, block + |kids|, depth + 1, c, OperandOffset(m, p, |kids|))
            case None => None
            case Some((t, e)) =>
              DecodeOperands(lang, e, trail, depth, m.nodes[p].ctor.value, m.nodes[p].offset, block, kids + [t])
  {
    OffsetsAgree(m, p, kids);
  }

  /** The constructor of operand `|kids|` cannot be decoded. */
  lemma AgreeSubtableFails(lang: Language, m: Machine, p: U8, depth: int, kids: seq<Tree>, c: Ctor)
    requires Ready(m, p, kids) && |kids| < OperandCount(m.nodes[p])
    requires m.nodes[p].ctor.value.operands[|kids|].resolver.Subtable?
    requires lang.resolve(m.nodes[p].ctor.value.operands[|kids|].resolver.table,
                          OperandOffset(m, p, |kids|), m.effects.words) == Some(c)
    requires var m1, q := Placed(m, p, |kids|), m.nodes[p].operands + |kids|;
             && Shape(m1) && m1.nodes[q].operands == INVALID
             && EnterAgrees(lang, m1, q, depth + 1, c, TrailOf(m.nodes, p))
             && Decode(lang, EnvOf(m), TrailOf(m.nodes, p), q, depth + 1, c, OperandOffset(m, p, |kids|)).None?
    ensures OperandsAgree(lang, m, p, depth, kids)
  {
    var m1, q := Placed(m, p, |kids|), m.nodes[p].operands + |kids|;
    DecodeSubtable(lang, m, p, depth, kids, c);
    if Enter(lang, m1, q, depth + 1, c).None? {
      DescendStuck(lang, m, p, depth, |kids|);
    } else {
      DescendEnters(lang, m, p, depth, |kids|, c, Enter(lang, m1, q, depth + 1, c).value);
    }
  }

  /** The constructor of operand `|kids|` is decoded into `t`, and the rest agrees. */
  lemma AgreeSubtable(lang: Language, m: Machine, p: U8, depth: int, kids: seq<Tree>, c: Ctor,
                      m2: Machine, m3: Machine, t: Tree, e: Env)
    requires Ready(m, p, kids) && |kids| < OperandCount(m.nodes[p])
    requires m.nodes[p].ctor.value.operands[|kids|].resolver.Subtable?
    requires lang.resolve(m.nodes[p].ctor.value.operands[|kids|].resolver.table,
                          OperandOffset(m, p, |kids|), m.effects.words) == Some(c)
    requires Decode(lang, EnvOf(m), TrailOf(m.nodes, p), m.nodes[p].operands + |kids|, depth + 1, c,
                    OperandOffset(m, p, |kids|)) == Some((t, e))
    requires Shape(m2) && Open(m2, m.nodes[p].operands + |kids|) && Blank(m2, m.nodes[p].operands + |kids|, 0)
    requires Delegates(lang, m, p, depth, |kids|, m2, m.nodes[p].operands + |kids|)
    requires Descend(lang, m2, m.nodes[p].operands + |kids|, depth + 1, 0) == Some(m3)
    requires Ready(m3, p, kids + [t]) && EnvOf(m3) == e && m3.nodes[p] == m.nodes[p]
    requires TrailOf(m3.nodes, p) == TrailOf(m.nodes, p)
    requires OperandsAgree(lang, m3, p, depth, kids + [t])
    ensures OperandsAgree(lang, m, p, depth, kids)
  {
    DecodeSubtable(lang, m, p, depth, kids, c);
  }

  lemma {:induction false} AllOperandsAgree(lang: Language, m: Machine, p: U8, depth: int, kids: seq<Tree>)
    requires Ready(m, p, kids)
    ensures OperandsAgree(lang, m, p, depth, kids)
    decreases 256 - m.alloc, OperandCount(m.nodes[p]) - |kids|, 0
  {
    if |kids| == OperandCount(m.nodes[p]) {
      AgreeDone(lang, m, p, depth, kids);
    } else if !m.nodes[p].ctor.value.operands[|kids|].resolver.Subtable? {
      PlainReady(m, p, kids);
      AllOperandsAgree(lang, Measured(m, p, |kids|), p, depth, kids + [LeafOf(m, p, |kids|)]);
      AgreePlain(lang, m, p, depth, kids);
    } else {
      SubtableAgrees(lang, m, p, depth, kids);
    }
  }

  lemma {:induction false} SubtableAgrees(lang: Language, m: Machine, p: U8, depth: int, kids: seq<Tree>)
    requires Ready(m, p, kids) && |kids| < OperandCount(m.nodes[p])
    requires m.nodes[p].ctor.value.operands[|kids|].resolver.Subtable?
    ensures OperandsAgree(lang, m, p, depth, kids)
    decreases 256 - m.alloc, OperandCount(m.nodes[p]) - |kids|, 0, 0
  {
    var i, q, trail := |kids|, m.nodes[p].operands + |kids|, TrailOf(m.nodes, p);
    var m1 := Placed(m, p, i);
    PlaceKeeps(m, m1, p, i, q);
    OffsetsAgree(m, p, kids);
    var c := lang.resolve(m.nodes[p].ctor.value.operands[i].resolver.table, OperandOffset(m, p, i), m.effects.words);
    if c.None? {
      DescendStuck(lang, m, p, depth, i);
    } else {
      SubtableTrail(m, p, i, c.value);
      ConstructorAgrees(lang, m1, q, depth + 1, c.value, trail);
      var d := Decode(lang, EnvOf(m), trail, q, depth + 1, c.value, OperandOffset(m, p, i));
      if d.None? {
        AgreeSubtableFails(lang, m, p, depth, kids, c.value);
      } else {
        var m2 := Enter(lang, m1, q, depth + 1, c.value).value;
        EnterShape(lang, m1, q, depth + 1, c.value);
        var m3 := Descend(lang, m2, q, depth + 1, 0).value;
        SubtableFrame(m, p, i, m1, m2, m3, q);
        SubtableReady(m, p, kids, m3, q, d.value.0, d.value.1);
        DescendEnters(lang, m, p, depth, i, c.value, m2);
        AllOperandsAgree(lang, m3, p, depth, kids + [d.value.0]);
        AgreeSubtable(lang, m, p, depth, kids, c.value, m2, m3, d.value.0, d.value.1);
      }
    }
  }

  lemma {:induction false} ConstructorAgrees(lang: Language, m: Machine, q: U8, depth: int, c: Ctor, outer: Trail)
    requires Shape(m) && 0 <= q < m.alloc && m.nodes[q].operands == INVALID && HasTrail(m, q, c, outer)
    ensures EnterAgrees(lang, m, q, depth, c, outer)
    decreases 256 - m.alloc, 0, 1
  {
    var entered := Enter(lang, m, q, depth, c);
    if entered.None? || |c.operands| == 0 {
      AgreeEmpty(lang, m, q, depth, c, outer);
    } else {
      EnteredReady(lang, m, q, depth, c, entered.value);
      AllOperandsAgree(lang, entered.value, q, depth, []);
      AgreeEntered(lang, m, q, depth, c, outer, entered.value);
    }
  }
}
