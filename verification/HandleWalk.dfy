/** The second walk over the decoded tree, which computes the operand handles in place
    (fugue-lifter-runtime/src/constructor.rs:161-216). */
module HandleWalk {
  import opened Prelude
  import opened Words
  import opened Grammar
  import opened DecodeMachine
  import opened DecodePath
  import opened DecodeTree
  import opened DecodeTheorems
  import opened DecodeWalk
  import opened HandleTemplates
  import opened HandleSpec

  /** The subtrees from the current node out to the root, each with the next operand to visit. */
  datatype Path = Bottom | Frame(tree: Tree, next: nat, below: Path)

  function CrumbsOf(path: Path): (s: Stack)
    requires path.Frame?
    ensures s.next == path.next && (s.Up? <==> path.below.Frame?)
    ensures path.below.Frame? ==> s.below == CrumbsOf(path.below)
  {
    if path.below.Bottom? then Base(path.next) else Up(CrumbsOf(path.below), path.next)
  }

  /** The innermost subtree is a constructor that is laid out in `nodes`. */
  ghost predicate Current(nodes: seq<Node>, path: Path)
  {
    && path.Frame?
    && path.tree.ctor.Some? && path.next <= |path.tree.kids|
    && Typed(path.tree) && Genuine(path.tree, Depth(CrumbsOf(path))) && Lay(nodes, path.tree)
  }

  /** The path leads from the root to its innermost subtree. */
  ghost predicate OnTree(nodes: seq<Node>, path: Path)
    decreases path
  {
    && Current(nodes, path)
    && (path.below.Bottom? ==> nodes[path.tree.slot].parent == INVALID)
    && (path.below.Frame? ==>
          && OnTree(nodes, path.below)
          && nodes[path.tree.slot].parent == path.below.tree.slot)
  }

  lemma {:induction false} OnTreeKept(nodes: seq<Node>, r: seq<Node>, path: Path)
    requires OnTree(nodes, path) && |r| == MAX_CTOR_STATES
    requires forall x :: 0 <= x < MAX_CTOR_STATES ==> HandlesOnly(nodes[x], r[x])
    ensures OnTree(r, path)
    decreases path
  {
    LayIgnoresHandles(nodes, r, path.tree);
    assert HandlesOnly(nodes[path.tree.slot], r[path.tree.slot]);
    if path.below.Frame? {
      OnTreeKept(nodes, r, path.below);
    }
  }

  /** Subtrees that can be filled. */
  ghost predicate Fillable(path: Path)
    decreases path
  {
    path.Frame? ==> Typed(path.tree) && path.tree.ctor.Some? && path.next <= |path.tree.kids| && Fillable(path.below)
  }

  lemma {:induction false} OnTreeFillable(nodes: seq<Node>, path: Path)
    requires OnTree(nodes, path)
    ensures Fillable(path)
    decreases path
  {
    if path.below.Frame? {
      OnTreeFillable(nodes, path.below);
    }
  }

  /** What the walk still has to deliver. */
  ghost function FillPath(site: Site, nodes: seq<Node>, path: Path): Option<seq<Node>>
    requires |nodes| == MAX_CTOR_STATES && Fillable(path)
    decreases path
  {
    if path.Bottom? then Some(nodes)
    else
      var n :- Fill(site, nodes, path.tree, path.next);
      FillPath(site, n, path.below)
  }

  /** What the walk still has to visit. */
  ghost function PostPath(path: Path): seq<U8>
    requires Fillable(path)
    decreases path
  {
    if path.Bottom? then [] else PostFrom(path.tree, path.next) + PostPath(path.below)
  }

  ghost function Effort(path: Path): nat
    requires Fillable(path)
  {
    |PostPath(path)|
  }

  /** Moving on past operand `next` once it is stored. */
  lemma StepStored(site: Site, nodes: seq<Node>, path: Path, n: Option<seq<Node>>)
    requires OnTree(nodes, path) && path.next < |path.tree.kids| && Fillable(path)
    requires path.tree.kids[path.next].ctor.None?
    requires n == Store(site, nodes, path.tree.ctor.value.operands[path.next].handleResolver,
                        path.tree.kids[path.next].slot)
    ensures n.None? ==> FillPath(site, nodes, path).None?
    ensures var path' := path.(next := path.next + 1);
            n.Some? ==>
              && OnTree(n.value, path') && Fillable(path')
              && FillPath(site, nodes, path) == FillPath(site, n.value, path')
    ensures var path' := path.(next := path.next + 1);
            PostPath(path) == [path.tree.kids[path.next].slot] + PostPath(path')
  {
    var t, path' := path.tree, path.(next := path.next + 1);
    assert TypedKid(t, path.next);
    assert Typed(t.kids[path.next]);
    assert PostOrder(t.kids[path.next]) == [t.kids[path.next].slot];
    DepthAdvance(path);
    if n.Some? {
      OnTreeKept(nodes, n.value, path');
    }
  }

  lemma DepthAdvance(path: Path)
    requires path.Frame?
    ensures Depth(CrumbsOf(path.(next := path.next + 1))) == Depth(CrumbsOf(path))
    ensures CrumbsOf(path.(next := path.next + 1)) == Advance(CrumbsOf(path))
  {
  }

  /** Pushing into a subtable operand. */
  lemma StepInner(site: Site, nodes: seq<Node>, path: Path)
    requires OnTree(nodes, path) && path.next < |path.tree.kids| && Fillable(path)
    requires path.tree.kids[path.next].ctor.Some?
    ensures var path' := Frame(path.tree.kids[path.next], 0, path.(next := path.next + 1));
            && OnTree(nodes, path') && Fillable(path')
            && FillPath(site, nodes, path) == FillPath(site, nodes, path')
            && PostPath(path') == PostPath(path)
            && CrumbsOf(path') == Up(Advance(CrumbsOf(path)), 0)
  {
    var t, k := path.tree, path.next;
    var path1 := path.(next := k + 1);
    DepthAdvance(path);
    assert TypedKid(t, k) && GenuineKid(t, Depth(CrumbsOf(path)), k);
    LayKid(nodes, t, k);
    var f := Fill(site, nodes, t.kids[k], 0);
    assert PostFrom(t, k) == PostFrom(t.kids[k], 0) + PostFrom(t, k + 1);
    assert Fill(site, nodes, t, k) == if f.None? then None else Fill(site, f.value, t, k + 1);
  }

  /** Completing a subtree. */
  lemma StepExport(site: Site, nodes: seq<Node>, path: Path, n: Option<seq<Node>>)
    requires OnTree(nodes, path) && path.next == |path.tree.kids| && Fillable(path)
    requires n == Export(site, nodes, path.tree)
    ensures n.None? ==> FillPath(site, nodes, path).None?
    ensures n.Some? ==>
              && (path.below.Frame? ==> OnTree(n.value, path.below))
              && FillPath(site, nodes, path) == FillPath(site, n.value, path.below)
    ensures PostPath(path) == [path.tree.slot] + PostPath(path.below)
  {
    if n.Some? && path.below.Frame? {
      OnTreeKept(nodes, n.value, path.below);
    }
  }

  /** On `path` with these nodes, finishing yields `goal`, and the slots visited so far followed by
      the rest are `order`. */
  ghost predicate Heading(site: Site, nodes: seq<Node>, path: Path, goal: Option<seq<Node>>, visited: seq<U8>,
                          order: seq<U8>)
  {
    && |nodes| == MAX_CTOR_STATES && OnTree(nodes, path) && Fillable(path)
    && FillPath(site, nodes, path) == goal
    && visited + PostPath(path) == order
  }

  /** The operand at hand was stored: one visit less to go. */
  lemma HeadStored(site: Site, nodes: seq<Node>, path: Path, goal: Option<seq<Node>>, visited: seq<U8>,
                   order: seq<U8>, n: Option<seq<Node>>)
    requires Heading(site, nodes, path, goal, visited, order)
    requires path.Frame? && path.next < |path.tree.kids| && path.tree.kids[path.next].ctor.None?
    requires n == Store(site, nodes, path.tree.ctor.value.operands[path.next].handleResolver,
                        path.tree.kids[path.next].slot)
    ensures n.None? ==> goal.None?
    ensures var path' := path.(next := path.next + 1);
            n.Some? ==>
              && Heading(site, n.value, path', goal, visited + [path.tree.kids[path.next].slot], order)
              && Effort(path') < Effort(path)
  {
    StepStored(site, nodes, path, n);
    var slot, path' := path.tree.kids[path.next].slot, path.(next := path.next + 1);
    assert visited + ([slot] + PostPath(path')) == visited + [slot] + PostPath(path');
  }

  lemma HeadInner(site: Site, nodes: seq<Node>, path: Path, goal: Option<seq<Node>>, visited: seq<U8>, order: seq<U8>)
    requires Heading(site, nodes, path, goal, visited, order)
    requires path.Frame? && path.next < |path.tree.kids| && path.tree.kids[path.next].ctor.Some?
    ensures var path' := Frame(path.tree.kids[path.next], 0, path.(next := path.next + 1));
            && Heading(site, nodes, path', goal, visited, order) && Effort(path') == Effort(path)
            && CrumbsOf(path') == Up(Advance(CrumbsOf(path)), 0)
  {
    StepInner(site, nodes, path);
  }

  /** The walk stands on the innermost subtree of `path`. */
  ghost predicate Standing(input: ParserInput, site: Site, path: Path, goal: Option<seq<Node>>,
                           visited: seq<U8>, order: seq<U8>)
    reads input, input.nodes, input.breadcrumb
  {
    && input.Valid()
    && Heading(site, input.nodes[..], path, goal, visited, order)
    && path.Frame? && input.point == path.tree.slot
    && 0 <= input.depth < input.breadcrumb.Length && input.Crumbs() == CrumbsOf(path)
  }

  /** A plain operand: compute and store its handle; an expression reuses what is there. */
  method StoreHandle(input: ParserInput, site: Site, r: HandleResolver) returns (ok: bool)
    requires input.Valid() && !r.Inner?
    modifies input.nodes
    ensures ok == Store(site, old(input.nodes[..]), r, input.point).Some?
    ensures ok ==> input.nodes[..] == Store(site, old(input.nodes[..]), r, input.point).value
  {
    var p := input.point;
    if r.Symbol? {
      var h := site.symbol(r.symbol, p);
      if h.None? {
        return false;
      }
      input.nodes[p] := input.nodes[p].(handle := h);
    } else {
      var offset := site.expression(r.expression, p);
      if offset.None? {
        return false;
      }
      if input.nodes[p].handle.Some? {
        var h := input.nodes[p].handle.value;
        input.nodes[p] := input.nodes[p].(handle := Some(
          h.(space := 0, offsetSpace := INVALID, offsetOffset := offset.value, size := 0)));
      } else {
        input.nodes[p] := input.nodes[p].(handle := Some(
          DEFAULT_HANDLE.(space := 0, offsetOffset := offset.value)));
      }
    }
    assert input.nodes[..] == old(input.nodes[..])[p := input.nodes[p]];
    ok := true;
  }

  /** The handles in an operand block. */
  function BlockHandles(nodes: seq<Node>, block: int, count: nat): (hs: Handles)
    requires |nodes| == MAX_CTOR_STATES && 0 <= block && (count > 0 ==> block + count <= MAX_CTOR_STATES)
    ensures |hs| == count
  {
    seq(count, k requires 0 <= k < count => nodes[block + k].handle)
  }

  /** Builds the handle the current constructor exports, if it exports one. */
  method ExportHandle(input: ParserInput, site: Site, c: Ctor, ghost t: Tree) returns (ok: bool)
    requires input.Valid() && Lay(input.nodes[..], t) && t.ctor == Some(c) && input.point == t.slot
    requires |t.kids| == |c.operands|
    modifies input.nodes
    ensures ok == Export(site, old(input.nodes[..]), t).Some?
    ensures ok ==> input.nodes[..] == Export(site, old(input.nodes[..]), t).value
  {
    if c.result.None? {
      return true;
    }
    var block := input.nodes[input.point].operands;
    forall k | 0 <= k < |t.kids|
      ensures t.kids[k].slot == block + k
    {
      LayKid(input.nodes[..], t, k);
    }
    assert |t.kids| > 0 ==> t.kids[|t.kids| - 1].slot == block + |t.kids| - 1;
    var hs := BlockHandles(input.nodes[..], block, |c.operands|);
    assert hs == OperandHandles(input.nodes[..], t);
    var h := BuildHandle(site.template(c.result.value), site, hs);
    if h.None? {
      return false;
    }
    input.nodes[input.point] := input.nodes[input.point].(handle := h);
    assert input.nodes[..] == old(input.nodes[..])[input.point := input.nodes[input.point]];
    ok := true;
  }

  /** Pushes operand `i` of the current node. */
  method PushKid(input: ParserInput, ghost path: Path)
    requires input.Valid() && OnTree(input.nodes[..], path) && path.next < |path.tree.kids|
    requires input.point == path.tree.slot
    requires 0 <= input.depth < input.breadcrumb.Length && input.Crumbs() == CrumbsOf(path)
    modifies input`depth, input`point, input.breadcrumb
    ensures input.Valid() && input.point == path.tree.kids[path.next].slot
    ensures input.depth == old(input.depth) + 1 < input.breadcrumb.Length
    ensures input.Crumbs() == Up(Advance(CrumbsOf(path)), 0)
  {
    LayKid(input.nodes[..], path.tree, path.next);
    input.PushOperand(input.breadcrumb[input.depth]);
  }

  /** Stores the handle of the plain operand that was pushed, and pops it. */
  method StoreKid(input: ParserInput, site: Site, r: HandleResolver, ghost path: Path, ghost goal: Option<seq<Node>>,
                  ghost visited: seq<U8>, ghost order: seq<U8>) returns (ok: bool)
    requires input.Valid() && Heading(site, input.nodes[..], path, goal, visited, order)
    requires path.Frame? && path.next < |path.tree.kids| && path.tree.kids[path.next].ctor.None?
    requires r == path.tree.ctor.value.operands[path.next].handleResolver && !r.Inner?
    requires input.point == path.tree.kids[path.next].slot
    requires 0 < input.depth < input.breadcrumb.Length && input.Crumbs() == Up(Advance(CrumbsOf(path)), 0)
    modifies input`depth, input`point, input.nodes
    ensures !ok ==> goal.None?
    ensures var path' := path.(next := path.next + 1);
            ok ==>
              && Standing(input, site, path', goal, visited + [path.tree.kids[path.next].slot], order)
              && Effort(path') < Effort(path)
  {
    ghost var nodes := input.nodes[..];
    ok := StoreHandle(input, site, r);
    HeadStored(site, nodes, path, goal, visited, order, Store(site, nodes, r, input.point));
    if ok {
      LayKid(nodes, path.tree, path.next);
      input.PopOperand();
      DepthAdvance(path);
    }
  }

  /** One pass of the inner loop: stores the handles of plain operands until a subtable operand
      is pushed or all operands are done. */
  method VisitKids(input: ParserInput, site: Site, ghost path0: Path, ghost goal: Option<seq<Node>>,
                   ghost visited0: seq<U8>, ghost order: seq<U8>)
    returns (visit: Visit, ghost path: Path, ghost visited: seq<U8>)
    requires Standing(input, site, path0, goal, visited0, order)
    modifies input`depth, input`point, input.nodes, input.breadcrumb
    ensures visit == Failed ==> goal.None?
    ensures visit != Failed ==> Standing(input, site, path, goal, visited, order)
    ensures visit == Exhausted ==> path.next == |path.tree.kids| && Effort(path) <= Effort(path0)
    ensures visit == Entered ==>
              Effort(path) < Effort(path0) || (Effort(path) == Effort(path0) && path.tree < path0.tree)
  {
    path, visited := path0, visited0;
    var ctor := input.nodes[input.point].ctor.value;
    var i := input.breadcrumb[input.depth];
    while i < |ctor.operands|
      invariant Standing(input, site, path, goal, visited, order)
      invariant path.tree == path0.tree && path.tree.ctor == Some(ctor) && i == path.next <= |ctor.operands|
      invariant Effort(path) <= Effort(path0) && (i > path0.next ==> Effort(path) < Effort(path0))
    {
      PushKid(input, path);
      assert TypedKid(path.tree, i);
      if ctor.operands[i].handleResolver.Inner? {
        HeadInner(site, input.nodes[..], path, goal, visited, order);
        path := Frame(path.tree.kids[i], 0, path.(next := i + 1));
        return Entered, path, visited;
      }
      var ok := StoreKid(input, site, ctor.operands[i].handleResolver, path, goal, visited, order);
      if !ok {
        return Failed, path, visited;
      }
      visited := visited + [path.tree.kids[i].slot];
      path := path.(next := i + 1);
      i := i + 1;
    }
    visit := Exhausted;
  }

  /** All operands are done: export the node's handle and pop it. */
  method LeaveNode(input: ParserInput, site: Site, ghost path: Path, ghost goal: Option<seq<Node>>,
                   ghost visited0: seq<U8>, ghost order: seq<U8>)
    returns (ok: bool, ghost visited: seq<U8>)
    requires Standing(input, site, path, goal, visited0, order) && path.next == |path.tree.kids|
    modifies input`depth, input`point, input.nodes
    ensures !ok ==> goal.None?
    ensures ok && path.below.Bottom? ==>
              input.Valid() && input.point == INVALID && goal == Some(input.nodes[..]) && visited == order
    ensures ok && path.below.Frame? ==>
              input.point != INVALID && Standing(input, site, path.below, goal, visited, order)
    ensures Effort(path.below) < Effort(path)
  {
    ghost var nodes := input.nodes[..];
    ok := ExportHandle(input, site, input.nodes[input.point].ctor.value, path.tree);
    StepExport(site, nodes, path, Export(site, nodes, path.tree));
    visited := visited0 + [input.point];
    if ok {
      input.PopOperand();
    }
  }

  /** The second walk: visits every node of the decoded tree once, in post-order, changes only
      handles, and leaves exactly the memory of the recursive fill. */
  method ResolveHandles(input: ParserInput, site: Site, ghost t: Tree) returns (ok: bool, ghost visited: seq<U8>)
    requires input.Valid() && Lay(input.nodes[..], t) && Genuine(t, 0) && Typed(t)
    requires t.slot == 0 && t.ctor.Some? && input.nodes[0].parent == INVALID
    modifies input`depth, input`point, input.nodes, input.breadcrumb
    ensures ok == Fill(site, old(input.nodes[..]), t, 0).Some?
    ensures ok ==>
              && input.Valid() && input.point == INVALID
              && input.nodes[..] == Fill(site, old(input.nodes[..]), t, 0).value
              && visited == PostOrder(t)
  {
    ghost var goal, order := Fill(site, input.nodes[..], t, 0), PostOrder(t);
    input.BaseState();
    assert input.breadcrumb[..1] == [0];
    ghost var path := Frame(t, 0, Bottom);
    visited := [];
    assert PostPath(path) == order;
    while input.point != INVALID
      invariant if input.point == INVALID
                then path == Bottom && input.Valid() && goal == Some(input.nodes[..]) && visited == order
                else Standing(input, site, path, goal, visited, order)
      invariant Fillable(path)
      decreases Effort(path), if path.Frame? then path.tree else t
    {
      var visit;
      visit, path, visited := VisitKids(input, site, path, goal, visited, order);
      if visit == Failed {
        return false, visited;
      }
      if visit == Exhausted {
        ok, visited := LeaveNode(input, site, path, goal, visited, order);
        if !ok {
          return false, visited;
        }
        path := path.below;
      }
    }
    ok := true;
  }

  /** A decoded instruction as the handle walk finds it. */
  ghost predicate Decoded(lang: Language, root: nat, words: seq<Word>, t: Tree, e: Env)
  {
    DecodeInstruction(lang, root, words) == Some((t, e))
  }

  lemma DecodedFacts(lang: Language, root: nat, words: seq<Word>, t: Tree, e: Env)
    requires Decoded(lang, root, words, t, e)
    ensures Genuine(t, 0) && Typed(t) && Numbered(t, 1) && e.alloc == 1 + Span(t)
    ensures t.slot == 0 && t.ctor.Some?
  {
    var c := lang.resolve(root, 0, words).value;
    DecodeGenuine(lang, Env(Effects(words, []), 1, 0), [], 0, 0, c, 0);
    GenuineTyped(t, 0);
  }

  /** Decoding an instruction and computing its handles in a reused parser input: it succeeds
      exactly when the tree decode and the bottom-up evaluation do; then the walk visited every
      allocated node exactly once, the tree is still laid out, and every handle looks like the
      evaluated one. */
  method ResolveState(input: ParserInput, lang: Language, site: Site, root: nat, words: seq<Word>)
    returns (ok: bool, ghost visited: seq<U8>)
    requires input.Valid()
    requires forall t, e :: Decoded(lang, root, words, t, e) ==> Sourced(site, t)
    modifies input, input.nodes, input.breadcrumb
    ensures ok ==> exists t, e :: Decoded(lang, root, words, t, e)
    ensures forall t, e :: Decoded(lang, root, words, t, e) ==>
              && Typed(t) && t.ctor.Some?
              && (ok <==> Eval(site, t).Some?)
              && (ok ==>
                    && Lay(input.nodes[..], t)
                    && HoldAll(site, input.nodes[..], t, |t.kids|)
                    && forall x: U8 :: multiset(visited)[x] == if x < e.alloc then 1 else 0)
  {
    visited := [];
    ok := ResolveInstruction(input, lang, root, words);
    if !ok {
      return;
    }
    ghost var (t, e) := DecodeInstruction(lang, root, words).value;
    assert Decoded(lang, root, words, t, e);
    DecodedFacts(lang, root, words, t, e);
    ghost var nodes := input.nodes[..];
    ok, visited := ResolveHandles(input, site, t);
    FillEval(site, nodes, t, 1, 0);
    FillFrames(site, nodes, t, 1, 0);
    if ok {
      LayIgnoresHandles(nodes, input.nodes[..], t);
      forall x: U8
        ensures multiset(visited)[x] == if x < e.alloc then 1 else 0
      {
        PostOrderOnce(t, x);
      }
    }
  }

  /** Left-over handles never show: from any two memories the fill succeeds or fails alike, and
      afterwards every exporting operand looks the same in both. */
  lemma LeftoversInvisible(site: Site, a: seq<Node>, b: seq<Node>, t: Tree)
    requires |a| == MAX_CTOR_STATES == |b| && Typed(t) && t.ctor.Some? && Numbered(t, 1) && t.slot == 0
    requires Sourced(site, t)
    ensures Fill(site, a, t, 0).Some? <==> Fill(site, b, t, 0).Some?
    ensures Fill(site, a, t, 0).Some? ==>
              forall k :: 0 <= k < |t.kids| && Exports(t, k) ==>
                ObserveOption(Fill(site, a, t, 0).value[t.kids[k].slot].handle) ==
                ObserveOption(Fill(site, b, t, 0).value[t.kids[k].slot].handle)
  {
    FillEval(site, a, t, 1, 0);
    FillEval(site, b, t, 1, 0);
    if Fill(site, a, t, 0).Some? {
      forall k | 0 <= k < |t.kids| && Exports(t, k)
        ensures ObserveOption(Fill(site, a, t, 0).value[t.kids[k].slot].handle) ==
                ObserveOption(Fill(site, b, t, 0).value[t.kids[k].slot].handle)
      {
        assert Holds(site, Fill(site, a, t, 0).value, t, k);
        assert Holds(site, Fill(site, b, t, 0).value, t, k);
      }
    }
  }
}
