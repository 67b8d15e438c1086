/** The handles of a decoded instruction: a bottom-up evaluation over the tree, the post-order
    memory fill that implements it, and the proof that the fill computes the evaluation no
    matter which handles earlier instructions left behind
    (fugue-lifter-runtime/src/constructor.rs:161-216). */
module HandleSpec {
  import opened Prelude
  import opened Grammar
  import opened DecodeMachine
  import opened DecodeTree
  import opened DecodeTheorems
  import opened HandleTemplates

  /** A constructor node whose children match its operands, all the way down. */
  ghost predicate Typed(t: Tree)
    decreases t, 1
  {
    && (t.ctor.None? ==> t.kids == [])
    && (t.ctor.Some? ==> |t.kids| == |t.ctor.value.operands|)
    && forall k :: 0 <= k < |t.kids| ==> TypedKid(t, k)
  }

  ghost predicate TypedKid(t: Tree, k: nat)
    requires k < |t.kids|
    decreases t, 0
  {
    && (t.ctor.Some? ==>
          && k < |t.ctor.value.operands|
          && (t.kids[k].ctor.Some? <==> t.ctor.value.operands[k].handleResolver.Inner?))
    && Typed(t.kids[k])
  }

  lemma {:induction false} GenuineTyped(t: Tree, depth: int)
    requires Genuine(t, depth)
    ensures Typed(t)
  {
    forall k | 0 <= k < |t.kids|
      ensures TypedKid(t, k)
    {
      assert GenuineKid(t, depth, k);
      if t.ctor.Some? {
        assert WellFormedOperand(t.ctor.value, k);
      }
      GenuineTyped(t.kids[k], depth + 1);
    }
  }

  /** An expression operand's handle: a constant. */
  function ConstantHandle(offset: U64): FixedHandle
  {
    DEFAULT_HANDLE.(space := 0, offsetOffset := offset)
  }

  /** The handle of a plain operand in slot `slot`. */
  function LeafHandle(site: Site, r: HandleResolver, slot: U8): Option<FixedHandle>
  {
    match r
    case Inner => None
    case Symbol(s) => site.symbol(s, slot)
    case Expression(x) =>
      var offset :- site.expression(x, slot);
      Some(ConstantHandle(offset))
  }

  /** The handle `t` exports, evaluated bottom-up: fails if any part fails, and is `Some(None)`
      for a constructor that exports nothing. */
  ghost function Eval(site: Site, t: Tree): Option<Option<FixedHandle>>
    requires Typed(t) && t.ctor.Some?
    decreases t, |t.kids| + 1
  {
    var hs :- EvalKids(site, t, |t.kids|);
    match t.ctor.value.result
    case None => Some(None)
    case Some(tpl) =>
      var h :- BuildHandle(site.template(tpl), site, hs);
      Some(Some(h))
  }

  ghost function EvalKid(site: Site, t: Tree, k: nat): Option<Option<FixedHandle>>
    requires Typed(t) && t.ctor.Some? && k < |t.kids|
    decreases t, k
  {
    assert TypedKid(t, k);
    if t.kids[k].ctor.Some? then Eval(site, t.kids[k])
    else
      var h :- LeafHandle(site, t.ctor.value.operands[k].handleResolver, t.kids[k].slot);
      Some(Some(h))
  }

  /** The handles of the first `n` operands of `t`, from left to right. */
  ghost function EvalKids(site: Site, t: Tree, n: nat): (r: Option<Handles>)
    requires Typed(t) && t.ctor.Some? && n <= |t.kids|
    ensures r.Some? ==> |r.value| == n
    decreases t, n
  {
    if n == 0 then Some([])
    else
      var hs :- EvalKids(site, t, n - 1);
      var h :- EvalKid(site, t, n - 1);
      Some(hs + [h])
  }

  function SetHandle(nodes: seq<Node>, q: U8, h: FixedHandle): (r: seq<Node>)
    requires |nodes| == MAX_CTOR_STATES
    ensures |r| == MAX_CTOR_STATES
  {
    nodes[q := nodes[q].(handle := Some(h))]
  }

  /** An expression overwrites a left-over handle only in part. */
  function PatchHandle(old_: Option<FixedHandle>, offset: U64): FixedHandle
  {
    match old_
    case None => ConstantHandle(offset)
    case Some(h) => h.(space := 0, offsetSpace := INVALID, offsetOffset := offset, size := 0)
  }

  function OperandHandles(nodes: seq<Node>, t: Tree): (hs: Handles)
    requires |nodes| == MAX_CTOR_STATES
    ensures |hs| == |t.kids|
  {
    seq(|t.kids|, k requires 0 <= k < |t.kids| => nodes[t.kids[k].slot].handle)
  }

  /** Stores the handle `t` exports, once its operands have theirs. */
  function Export(site: Site, nodes: seq<Node>, t: Tree): (r: Option<seq<Node>>)
    requires |nodes| == MAX_CTOR_STATES && t.ctor.Some?
    ensures r.Some? ==> |r.value| == MAX_CTOR_STATES
  {
    match t.ctor.value.result
    case None => Some(nodes)
    case Some(tpl) =>
      var h :- BuildHandle(site.template(tpl), site, OperandHandles(nodes, t));
      Some(SetHandle(nodes, t.slot, h))
  }

  /** Stores the handle of a plain operand. */
  function Store(site: Site, nodes: seq<Node>, r: HandleResolver, slot: U8): (n: Option<seq<Node>>)
    requires |nodes| == MAX_CTOR_STATES
    ensures n.Some? ==> |n.value| == MAX_CTOR_STATES
  {
    match r
    case Inner => None
    case Symbol(s) =>
      var h :- site.symbol(s, slot);
      Some(SetHandle(nodes, slot, h))
    case Expression(x) =>
      var offset :- site.expression(x, slot);
      Some(SetHandle(nodes, slot, PatchHandle(nodes[slot].handle, offset)))
  }

  /** The recursive fill: the operands of `t` from `i` on in order, then `t` itself. */
  ghost function Fill(site: Site, nodes: seq<Node>, t: Tree, i: nat): (r: Option<seq<Node>>)
    requires |nodes| == MAX_CTOR_STATES && Typed(t) && t.ctor.Some? && i <= |t.kids|
    ensures r.Some? ==> |r.value| == MAX_CTOR_STATES
    decreases t, |t.kids| - i
  {
    if i == |t.kids| then Export(site, nodes, t)
    else
      assert TypedKid(t, i);
      var n :- if t.kids[i].ctor.Some? then Fill(site, nodes, t.kids[i], 0)
               else Store(site, nodes, t.ctor.value.operands[i].handleResolver, t.kids[i].slot);
      Fill(site, n, t, i + 1)
  }

  /** Children before their parent, from left to right. */
  function PostOrder(t: Tree): seq<U8>
    decreases t, |t.kids| + 1
  {
    PostFrom(t, 0)
  }

  /** The slots still to be visited when the first `i` operands of `t` are done. */
  function PostFrom(t: Tree, i: nat): seq<U8>
    requires i <= |t.kids|
    decreases t, |t.kids| - i
  {
    if i == |t.kids| then [t.slot] else PostOrder(t.kids[i]) + PostFrom(t, i + 1)
  }

  // ---- every node exactly once ----

  /** The slots still to be visited when the first `i` operands of `t` are done. */
  predicate Remaining(t: Tree, lo: int, i: nat, x: int)
    requires i <= |t.kids|
  {
    x == t.slot || lo + i <= x < lo + |t.kids| || lo + |t.kids| + SpanAll(t.kids[..i]) <= x < lo + Span(t)
  }

  lemma SpanStep(t: Tree, i: nat)
    requires i < |t.kids|
    ensures SpanAll(t.kids[..i + 1]) == SpanAll(t.kids[..i]) + Span(t.kids[i])
  {
    assert t.kids[..i + 1][..i] == t.kids[..i];
  }

  lemma {:induction false} SpanPrefix(t: Tree, i: nat)
    requires i <= |t.kids|
    ensures SpanAll(t.kids[..i]) <= SpanAll(t.kids)
    decreases |t.kids| - i
  {
    if i == |t.kids| {
      assert t.kids[..i] == t.kids;
    } else {
      SpanStep(t, i);
      SpanPrefix(t, i + 1);
    }
  }

  /** The walk order visits every remaining slot exactly once and no other slot. */
  lemma {:induction false} PostFromOnce(t: Tree, lo: int, i: nat, x: U8)
    requires Numbered(t, lo) && t.slot < lo && i <= |t.kids|
    ensures multiset(PostFrom(t, i))[x] == if Remaining(t, lo, i, x) then 1 else 0
    decreases t, |t.kids| - i
  {
    if i == |t.kids| {
      assert t.kids[..i] == t.kids;
    } else {
      var kid := t.kids[i];
      var lo' := lo + |t.kids| + SpanAll(t.kids[..i]);
      assert NumberedKid(t, lo, i);
      PostFromOnce(kid, lo', 0, x);
      PostFromOnce(t, lo, i + 1, x);
      SpanStep(t, i);
      SpanPrefix(t, i + 1);
      assert kid.kids[..0] == [];
    }
  }

  /** Every allocated node of a decoded instruction is visited exactly once. */
  lemma PostOrderOnce(t: Tree, x: U8)
    requires Numbered(t, 1) && t.slot == 0
    ensures multiset(PostOrder(t))[x] == if x < 1 + Span(t) then 1 else 0
  {
    PostFromOnce(t, 1, 0, x);
    assert t.kids[..0] == [];
  }

  // ---- what the fill changes ----

  /** Only handles differ. */
  predicate HandlesOnly(a: Node, b: Node)
  {
    b == a.(handle := b.handle)
  }

  /** The fill changes nothing but handles, and those only in the slots still to be visited. */
  ghost predicate FillFrame(nodes: seq<Node>, r: seq<Node>, t: Tree, lo: int, i: nat)
    requires |nodes| == MAX_CTOR_STATES == |r| && i <= |t.kids|
  {
    forall x :: 0 <= x < MAX_CTOR_STATES ==>
      HandlesOnly(nodes[x], r[x]) && (!Remaining(t, lo, i, x) ==> r[x] == nodes[x])
  }

  lemma {:induction false} FillFrames(site: Site, nodes: seq<Node>, t: Tree, lo: int, i: nat)
    requires |nodes| == MAX_CTOR_STATES && Typed(t) && t.ctor.Some? && i <= |t.kids|
    requires Numbered(t, lo) && t.slot < lo
    ensures Fill(site, nodes, t, i).Some? ==> FillFrame(nodes, Fill(site, nodes, t, i).value, t, lo, i)
    decreases t, |t.kids| - i
  {
    if i < |t.kids| && Fill(site, nodes, t, i).Some? {
      assert TypedKid(t, i) && NumberedKid(t, lo, i);
      var kid := t.kids[i];
      var lo' := lo + |t.kids| + SpanAll(t.kids[..i]);
      var n := if kid.ctor.Some? then Fill(site, nodes, kid, 0)
               else Store(site, nodes, t.ctor.value.operands[i].handleResolver, kid.slot);
      if kid.ctor.Some? {
        FillFrames(site, nodes, kid, lo', 0);
      }
      FillFrames(site, n.value, t, lo, i + 1);
      assert kid.kids[..0] == [];
      SpanStep(t, i);
      SpanPrefix(t, i + 1);
    }
  }

  lemma {:induction false} LayIgnoresHandles(nodes: seq<Node>, r: seq<Node>, t: Tree)
    requires Lay(nodes, t) && |r| == MAX_CTOR_STATES
    requires forall x :: 0 <= x < MAX_CTOR_STATES ==> HandlesOnly(nodes[x], r[x])
    ensures Lay(r, t)
  {
    assert HandlesOnly(nodes[t.slot], r[t.slot]);
    forall k | 0 <= k < |t.kids|
      ensures r[t.kids[k].slot].parent == t.slot && Lay(r, t.kids[k])
    {
      assert HandlesOnly(nodes[t.kids[k].slot], r[t.kids[k].slot]);
      LayIgnoresHandles(nodes, r, t.kids[k]);
    }
  }

  // ---- what the fill computes ----

  /** Operand `k` of `t` has a handle of its own once it is visited. */
  predicate Exports(t: Tree, k: nat)
    requires k < |t.kids|
  {
    t.kids[k].ctor.None? || t.kids[k].ctor.value.result.Some?
  }

  /** Every result template reads only operands that export a handle. */
  ghost predicate Sourced(site: Site, t: Tree)
    decreases t, 1
  {
    && (t.ctor.Some? && t.ctor.value.result.Some? ==>
          forall i: nat :: TemplateReads(site.template(t.ctor.value.result.value), i) ==>
            i < |t.kids| && Exports(t, i))
    && forall k :: 0 <= k < |t.kids| ==> SourcedKid(site, t, k)
  }

  ghost predicate SourcedKid(site: Site, t: Tree, k: nat)
    requires k < |t.kids|
    decreases t, 0
  {
    Sourced(site, t.kids[k])
  }

  /** Operand `k` of `t` holds, to all appearances, the handle the evaluation gives it, and so
      do all operands below it. */
  ghost predicate Holds(site: Site, nodes: seq<Node>, t: Tree, k: nat)
    requires |nodes| == MAX_CTOR_STATES && Typed(t) && t.ctor.Some? && k < |t.kids|
    decreases t, 0
  {
    assert TypedKid(t, k);
    var h := EvalKid(site, t, k);
    && h.Some?
    && (Exports(t, k) ==> ObserveOption(nodes[t.kids[k].slot].handle) == ObserveOption(h.value))
    && (t.kids[k].ctor.Some? ==> HoldAll(site, nodes, t.kids[k], |t.kids[k].kids|))
  }

  ghost predicate HoldAll(site: Site, nodes: seq<Node>, t: Tree, n: nat)
    requires |nodes| == MAX_CTOR_STATES && Typed(t) && t.ctor.Some? && n <= |t.kids|
    decreases t, 1
  {
    forall k :: 0 <= k < n ==> Holds(site, nodes, t, k)
  }

  /** The slots of the first `n` operands of `t` and of everything inside them. */
  predicate Visited(t: Tree, lo: int, n: nat, x: int)
    requires n <= |t.kids|
  {
    lo <= x < lo + n || lo + |t.kids| <= x < lo + |t.kids| + SpanAll(t.kids[..n])
  }

  /** Handles survive writes outside the slots they are in. */
  lemma {:induction false} HoldKept(site: Site, nodes: seq<Node>, r: seq<Node>, t: Tree, lo: int, n: nat)
    requires |nodes| == MAX_CTOR_STATES == |r| && Typed(t) && t.ctor.Some? && n <= |t.kids|
    requires Numbered(t, lo) && HoldAll(site, nodes, t, n)
    requires forall x :: 0 <= x < MAX_CTOR_STATES && Visited(t, lo, n, x) ==> r[x] == nodes[x]
    ensures HoldAll(site, r, t, n)
    decreases t
  {
    forall k | 0 <= k < n
      ensures Holds(site, r, t, k)
    {
      assert Holds(site, nodes, t, k);
      assert TypedKid(t, k) && NumberedKid(t, lo, k);
      var kid := t.kids[k];
      SpanStep(t, k);
      SpanUpTo(t, k + 1, n);
      if kid.ctor.Some? {
        assert kid.kids[..|kid.kids|] == kid.kids;
        HoldKept(site, nodes, r, kid, lo + |t.kids| + SpanAll(t.kids[..k]), |kid.kids|);
      }
    }
  }

  lemma {:induction false} SpanUpTo(t: Tree, i: nat, n: nat)
    requires i <= n <= |t.kids|
    ensures SpanAll(t.kids[..i]) <= SpanAll(t.kids[..n])
    decreases n - i
  {
    if i < n {
      SpanStep(t, i);
      SpanUpTo(t, i + 1, n);
    }
  }

  lemma {:induction false} EvalKidsStuck(site: Site, t: Tree, k: nat, n: nat)
    requires Typed(t) && t.ctor.Some? && k < n <= |t.kids| && EvalKid(site, t, k).None?
    ensures EvalKids(site, t, n).None?
    decreases n
  {
    if k < n - 1 {
      EvalKidsStuck(site, t, k, n - 1);
    }
  }

  lemma {:induction false} EvalKidsAt(site: Site, t: Tree, n: nat, k: nat)
    requires Typed(t) && t.ctor.Some? && k < n <= |t.kids| && EvalKids(site, t, n).Some?
    ensures EvalKid(site, t, k) == Some(EvalKids(site, t, n).value[k])
    decreases n
  {
    if k < n - 1 {
      EvalKidsAt(site, t, n - 1, k);
    }
  }

  /** Exporting from handles that look right yields a handle that looks right. */
  lemma ExportAgrees(site: Site, nodes: seq<Node>, t: Tree)
    requires |nodes| == MAX_CTOR_STATES && Typed(t) && t.ctor.Some? && Sourced(site, t)
    requires EvalKids(site, t, |t.kids|).Some? && HoldAll(site, nodes, t, |t.kids|)
    ensures Export(site, nodes, t).None? <==> Eval(site, t).None?
    ensures Export(site, nodes, t).Some? && t.ctor.value.result.Some? ==>
              ObserveOption(Export(site, nodes, t).value[t.slot].handle) == ObserveOption(Eval(site, t).value)
  {
    if t.ctor.value.result.Some? {
      var tpl := site.template(t.ctor.value.result.value);
      var hs := EvalKids(site, t, |t.kids|).value;
      forall i: nat | TemplateReads(tpl, i)
        ensures ObserveOption(HandleAt(OperandHandles(nodes, t), i)) == ObserveOption(HandleAt(hs, i))
      {
        assert Holds(site, nodes, t, i);
        EvalKidsAt(site, t, |t.kids|, i);
      }
      BuildAlike(tpl, site, OperandHandles(nodes, t), hs);
    }
  }

  /** The fill fails exactly when the evaluation fails; otherwise every node ends up with a
      handle that looks like the evaluated one, whatever handles were there before. */
  ghost predicate FillAgrees(site: Site, nodes: seq<Node>, t: Tree, i: nat)
    requires |nodes| == MAX_CTOR_STATES && Typed(t) && t.ctor.Some? && i <= |t.kids|
  {
    var r := Fill(site, nodes, t, i);
    && (r.None? <==> Eval(site, t).None?)
    && (r.Some? ==>
          && HoldAll(site, r.value, t, |t.kids|)
          && (t.ctor.value.result.Some? ==>
                ObserveOption(r.value[t.slot].handle) == ObserveOption(Eval(site, t).value)))
  }

  lemma FillDone(site: Site, nodes: seq<Node>, t: Tree, lo: int)
    requires |nodes| == MAX_CTOR_STATES && Typed(t) && t.ctor.Some? && Sourced(site, t)
    requires Numbered(t, lo) && t.slot < lo
    requires EvalKids(site, t, |t.kids|).Some? && HoldAll(site, nodes, t, |t.kids|)
    ensures FillAgrees(site, nodes, t, |t.kids|)
  {
    ExportAgrees(site, nodes, t);
    var r := Fill(site, nodes, t, |t.kids|);
    if r.Some? {
      assert r == Export(site, nodes, t);
      HoldKept(site, nodes, r.value, t, lo, |t.kids|);
    }
  }

  /** One operand filled: it now holds what the evaluation gives it. */
  lemma {:induction false} FillKid(site: Site, nodes: seq<Node>, t: Tree, lo: int, i: nat, n: Option<seq<Node>>)
    requires |nodes| == MAX_CTOR_STATES && Typed(t) && t.ctor.Some? && Sourced(site, t) && i < |t.kids|
    requires Numbered(t, lo) && t.slot < lo && TypedKid(t, i)
    requires n == if t.kids[i].ctor.Some? then Fill(site, nodes, t.kids[i], 0)
                  else Store(site, nodes, t.ctor.value.operands[i].handleResolver, t.kids[i].slot)
    ensures n.None? <==> EvalKid(site, t, i).None?
    ensures n.Some? ==> Holds(site, n.value, t, i)
    decreases t, 0
  {
    var kid := t.kids[i];
    assert NumberedKid(t, lo, i);
    if kid.ctor.Some? {
      assert SourcedKid(site, t, i);
      FillEval(site, nodes, kid, lo + |t.kids| + SpanAll(t.kids[..i]), 0);
    }
  }

  lemma {:induction false} FillEval(site: Site, nodes: seq<Node>, t: Tree, lo: int, i: nat)
    requires |nodes| == MAX_CTOR_STATES && Typed(t) && t.ctor.Some? && Sourced(site, t) && i <= |t.kids|
    requires Numbered(t, lo) && t.slot < lo
    requires EvalKids(site, t, i).Some? && HoldAll(site, nodes, t, i)
    ensures FillAgrees(site, nodes, t, i)
    decreases t, 1 + |t.kids| - i
  {
    if i == |t.kids| {
      FillDone(site, nodes, t, lo);
    } else {
      assert TypedKid(t, i) && NumberedKid(t, lo, i);
      var kid := t.kids[i];
      var n := if kid.ctor.Some? then Fill(site, nodes, kid, 0)
               else Store(site, nodes, t.ctor.value.operands[i].handleResolver, kid.slot);
      FillKid(site, nodes, t, lo, i, n);
      if n.None? {
        EvalKidsStuck(site, t, i, |t.kids|);
      } else {
        FillPrefix(site, nodes, t, lo, i, n.value);
        FillEval(site, n.value, t, lo, i + 1);
      }
    }
  }

  /** Filling operand `i` leaves the earlier operands as they are. */
  lemma FillPrefix(site: Site, nodes: seq<Node>, t: Tree, lo: int, i: nat, n: seq<Node>)
    requires |nodes| == MAX_CTOR_STATES && Typed(t) && t.ctor.Some? && i < |t.kids|
    requires Numbered(t, lo) && t.slot < lo && TypedKid(t, i) && HoldAll(site, nodes, t, i)
    requires Some(n) == if t.kids[i].ctor.Some? then Fill(site, nodes, t.kids[i], 0)
                        else Store(site, nodes, t.ctor.value.operands[i].handleResolver, t.kids[i].slot)
    requires Holds(site, n, t, i)
    ensures HoldAll(site, n, t, i + 1)
  {
    var kid := t.kids[i];
    assert NumberedKid(t, lo, i);
    var lo' := lo + |t.kids| + SpanAll(t.kids[..i]);
    if kid.ctor.Some? {
      FillFrames(site, nodes, kid, lo', 0);
      assert kid.kids[..0] == [];
    }
    HoldKept(site, nodes, n, t, lo, i);
  }
}
