/** What the decode walk promises about a whole instruction. */
module DecodeTheorems {
  import opened Prelude
  import opened Words
  import opened Grammar
  import opened DecodeMachine
  import opened DecodeTree
  import opened DecodeWalk

  /** A machine as `initialise` leaves it: a blank root, and anything behind it. */
  ghost predicate Initial(m: Machine, words: seq<Word>)
  {
    && Shape(m) && m.alloc == 1 && m.delay == 0 && m.effects == Effects(words, [])
    && m.nodes[0].ctor.None? && m.nodes[0].operands == INVALID
    && m.nodes[0].offset == 0 && m.nodes[0].length == 0
  }

  /** The decode of a whole instruction: the root table, then its constructor. */
  function DecodeInstruction(lang: Language, root: nat, words: seq<Word>): (r: Option<(Tree, Env)>)
  {
    match lang.resolve(root, 0, words)
    case None => None
    case Some(c) => Decode(lang, Env(Effects(words, []), 1, 0), [], 0, 0, c, 0)
  }

  /** The memory decode of the root agrees with the tree decode. */
  lemma RootAgrees(lang: Language, m: Machine, words: seq<Word>, c: Ctor)
    requires Initial(m, words)
    ensures var d := Decode(lang, Env(Effects(words, []), 1, 0), [], 0, 0, c, 0);
            && (d.None? <==> DecodeRoot(lang, m, c).None?)
            && (d.Some? ==> HoldsTree(m, DecodeRoot(lang, m, c).value, 0, d.value.0, d.value.1))
  {
    assert HasTrail(m, 0, c, []);
    EnterShape(lang, m, 0, 0, c);
    ConstructorAgrees(lang, m, 0, 0, c, []);
  }

  /** Decoding an instruction in a reused parser input: whatever earlier decodes left in the
      node array, the walk succeeds exactly when the recursive decode does, and then the array
      holds the decoded tree and the context words, commits and delay request are its. */
  method ResolveInstruction(input: ParserInput, lang: Language, root: nat, words: seq<Word>) returns (ok: bool)
    requires input.Valid()
    modifies input, input.nodes, input.breadcrumb
    ensures ok == DecodeInstruction(lang, root, words).Some?
    ensures ok ==>
              var (t, e) := DecodeInstruction(lang, root, words).value;
              && input.Valid()
              && Shape(input.Memory())
              && Lay(input.nodes[..], t)
              && EnvOf(input.Memory()) == e
              && input.point == INVALID
  {
    input.Initialise(words);
    ghost var m := input.Memory();
    var c := lang.resolve(root, input.nodes[input.point].offset, input.context);
    if c.None? {
      return false;
    }
    RootAgrees(lang, m, words, c.value);
    ok := input.ResolveOperands(lang, c.value);
  }

  /** Nothing of an earlier decode shows: two inputs with the same context words decode to the
      same tree, context words, commits and delay request, or both fail. */
  lemma HistoryIndependent(lang: Language, m: Machine, n: Machine, words: seq<Word>, c: Ctor)
    requires Initial(m, words) && Initial(n, words)
    ensures DecodeRoot(lang, m, c).None? <==> DecodeRoot(lang, n, c).None?
    ensures DecodeRoot(lang, m, c).Some? ==>
              exists t, e :: HoldsTree(m, DecodeRoot(lang, m, c).value, 0, t, e)
                          && HoldsTree(n, DecodeRoot(lang, n, c).value, 0, t, e)
  {
    RootAgrees(lang, m, words, c);
    RootAgrees(lang, n, words, c);
    var d := Decode(lang, Env(Effects(words, []), 1, 0), [], 0, 0, c, 0);
    if d.Some? {
      assert HoldsTree(m, DecodeRoot(lang, m, c).value, 0, d.value.0, d.value.1);
    }
  }

  /** A tree as the decode makes them: a constructor node has one child per operand, children
      with a constructor sit exactly at subtable operands, its length is computed from the
      children, and nesting stays below the parser's depth. */
  ghost predicate Genuine(t: Tree, depth: int)
    decreases t, 1
  {
    && t.slot < INVALID
    && (t.ctor.None? ==> t.kids == [])
    && (t.ctor.Some? ==>
          && |t.kids| == |t.ctor.value.operands|
          && t.length == LengthOf(t.ctor.value, t.offset, t.kids))
    && (t.kids != [] ==> depth < MAX_PARSER_DEPTH)
    && forall k :: 0 <= k < |t.kids| ==> GenuineKid(t, depth, k)
  }

  ghost predicate GenuineKid(t: Tree, depth: int, k: nat)
    requires k < |t.kids|
    decreases t, 0
  {
    && (t.ctor.Some? ==>
          && k < |t.ctor.value.operands|
          && (t.kids[k].ctor.Some? <==> t.ctor.value.operands[k].resolver.Subtable?))
    && Genuine(t.kids[k], depth + 1)
  }

  /** How many slots lie strictly inside `t`. */
  function Span(t: Tree): nat
    decreases t, 1
  {
    |t.kids| + SpanAll(t.kids)
  }

  function SpanAll(kids: seq<Tree>): nat
    decreases kids, 0
  {
    if kids == [] then 0 else SpanAll(kids[..|kids| - 1]) + Span(kids[|kids| - 1])
  }

  /** The slots of `t` are handed out in order from `lo` on: first its own operand block, then
      the insides of its operands from left to right. */
  ghost predicate Numbered(t: Tree, lo: int)
    decreases t, 1
  {
    forall k :: 0 <= k < |t.kids| ==> NumberedKid(t, lo, k)
  }

  ghost predicate NumberedKid(t: Tree, lo: int, k: nat)
    requires k < |t.kids|
    decreases t, 0
  {
    t.kids[k].slot == lo + k && Numbered(t.kids[k], lo + |t.kids| + SpanAll(t.kids[..k]))
  }

  /** What is known of operand `k` of `c` once it is decoded. */
  ghost predicate GoodKid(c: Ctor, kids: seq<Tree>, depth: int, block: int, k: nat)
    requires k < |kids| <= |c.operands|
  {
    && (kids[k].ctor.Some? <==> c.operands[k].resolver.Subtable?)
    && Genuine(kids[k], depth + 1)
    && kids[k].slot == block + k
    && Numbered(kids[k], block + |c.operands| + SpanAll(kids[..k]))
  }

  ghost predicate GoodKids(c: Ctor, kids: seq<Tree>, depth: int, block: int)
    requires |kids| <= |c.operands|
  {
    forall k :: 0 <= k < |kids| ==> GoodKid(c, kids, depth, block, k)
  }

  lemma GoodExtend(c: Ctor, kids: seq<Tree>, depth: int, block: int, t: Tree)
    requires |kids| < |c.operands| && GoodKids(c, kids, depth, block)
    requires t.ctor.Some? <==> c.operands[|kids|].resolver.Subtable?
    requires Genuine(t, depth + 1) && t.slot == block + |kids|
    requires Numbered(t, block + |c.operands| + SpanAll(kids))
    ensures GoodKids(c, kids + [t], depth, block)
    ensures SpanAll(kids + [t]) == SpanAll(kids) + Span(t)
  {
    var all := kids + [t];
    assert all[..|kids|] == kids;
    forall k | 0 <= k < |all|
      ensures GoodKid(c, all, depth, block, k)
    {
      assert all[..k] == kids[..k];
      if k < |kids| {
        assert GoodKid(c, kids, depth, block, k);
      }
    }
  }

  lemma GoodNode(slot: U8, c: Ctor, offset: U8, kids: seq<Tree>, depth: int, block: int)
    requires |kids| == |c.operands| && GoodKids(c, kids, depth, block) && slot < INVALID
    requires kids != [] ==> depth < MAX_PARSER_DEPTH
    ensures var t := Tree(slot, Some(c), offset, LengthOf(c, offset, kids), kids);
            Genuine(t, depth) && Numbered(t, block)
  {
    var t := Tree(slot, Some(c), offset, LengthOf(c, offset, kids), kids);
    forall k | 0 <= k < |kids|
      ensures GenuineKid(t, depth, k) && NumberedKid(t, block, k)
    {
      assert GoodKid(c, kids, depth, block, k);
    }
  }

  lemma {:induction false} DecodeGenuine(lang: Language, e: Env, outer: Trail, slot: U8, depth: int, c: Ctor, offset: U8)
    requires 1 <= e.alloc <= 255 && slot < INVALID
    ensures var d := Decode(lang, e, outer, slot, depth, c, offset);
            d.Some? ==>
              var (t, e') := d.value;
              && Genuine(t, depth) && t.offset == offset && t.slot == slot && t.ctor == Some(c)
              && Numbered(t, e.alloc) && e'.alloc == e.alloc + Span(t)
    decreases 256 - e.alloc, 0, 1
  {
    var trail := [Step(Some(c), offset)] + outer;
    var effects := ApplyActions(lang, c, trail, slot, 0, e.effects);
    if effects.Some? && |c.operands| > 0 && e.alloc + |c.operands| < MAX_CTOR_STATES && depth < MAX_PARSER_DEPTH {
      var e1 := e.(effects := effects.value, alloc := e.alloc + |c.operands|);
      OperandsGenuine(lang, e1, trail, depth, c, offset, e.alloc, []);
      var k := DecodeOperands(lang, e1, trail, depth, c, offset, e.alloc, []);
      if k.Some? {
        GoodNode(slot, c, offset, k.value.0, depth, e.alloc);
      }
    }
  }

  lemma {:induction false} OperandsGenuine(lang: Language, e: Env, trail: Trail, depth: int, c: Ctor, offset: U8,
                                           block: int, kids: seq<Tree>)
    requires 1 <= e.alloc <= 255 && |kids| <= |c.operands| && 0 <= block
    requires e.alloc == block + |c.operands| + SpanAll(kids)
    requires GoodKids(c, kids, depth, block)
    ensures var d := DecodeOperands(lang, e, trail, depth, c, offset, block, kids);
            d.Some? ==>
              var (all, e') := d.value;
              && GoodKids(c, all, depth, block)
              && e'.alloc == block + |c.operands| + SpanAll(all)
    decreases 256 - e.alloc, |c.operands| - |kids|, 0
  {
    if |kids| < |c.operands| {
      var op, at := c.operands[|kids|], KidOffset(c, offset, kids);
      if op.resolver.Subtable? {
        var inner := lang.resolve(op.resolver.table, at, e.effects.words);
        if inner.Some? {
          DecodeGenuine(lang, e, trail, block + |kids|, depth + 1, inner.value, at);
          var d := Decode(lang, e, trail, block + |kids|, depth + 1, inner.value, at);
          if d.Some? {
            GoodExtend(c, kids, depth, block, d.value.0);
            OperandsGenuine(lang, d.value.1, trail, depth, c, offset, block, kids + [d.value.0]);
          }
        }
      } else {
        var leaf := Tree(block + |kids|, None, at, ToU8(op.minimumLength), []);
        GoodExtend(c, kids, depth, block, leaf);
        OperandsGenuine(lang, e, trail, depth, c, offset, block, kids + [leaf]);
      }
    }
  }

  /** Every node of `t` ends at or before `end`. */
  ghost predicate EndsBy(t: Tree, end: int)
  {
    && t.offset + t.length <= end
    && forall k :: 0 <= k < |t.kids| ==> EndsBy(t.kids[k], end)
  }

  lemma {:induction false} EndsByWidens(t: Tree, end: int, end': int)
    requires EndsBy(t, end) && end <= end'
    ensures EndsBy(t, end')
  {
    forall k | 0 <= k < |t.kids|
      ensures EndsBy(t.kids[k], end')
    {
      EndsByWidens(t.kids[k], end, end');
    }
  }

  lemma {:induction false} FurthestEndBounds(kids: seq<Tree>, floor: int, k: nat)
    requires k < |kids| && forall j :: 0 <= j < |kids| ==> kids[j].offset + kids[j].length < 256
    ensures kids[k].offset + kids[k].length <= FurthestEnd(kids, floor)
    decreases |kids|
  {
    if k < |kids| - 1 {
      FurthestEndBounds(kids[..|kids| - 1], floor, k);
    }
  }

  lemma {:induction false} FurthestEndBelow(kids: seq<Tree>, floor: int, bound: int)
    requires floor < bound && 256 <= bound
    ensures FurthestEnd(kids, floor) < bound
  {
    if kids != [] {
      FurthestEndBelow(kids[..|kids| - 1], floor, bound);
    }
  }

  /** A node covers everything below it as long as no end passes byte 255. */
  lemma {:induction false} NodeCovers(t: Tree, depth: int)
    requires Genuine(t, depth) && EndsBy(t, 255)
    ensures EndsBy(t, t.offset + t.length)
  {
    if t.ctor.Some? {
      var end := FurthestEnd(t.kids, t.ctor.value.minimumLength + t.offset);
      NoWrap(t, depth);
      forall k | 0 <= k < |t.kids|
        ensures EndsBy(t.kids[k], t.offset + t.length)
      {
        assert forall j :: 0 <= j < |t.kids| ==> EndsBy(t.kids[j], 255);
        assert GenuineKid(t, depth, k);
        FurthestEndBounds(t.kids, t.ctor.value.minimumLength + t.offset, k);
        NodeCovers(t.kids[k], depth + 1);
        EndsByWidens(t.kids[k], t.kids[k].offset + t.kids[k].length, end);
      }
    }
  }

  /** When a node's stored end fits, its length was stored without losing bits. */
  lemma NoWrap(t: Tree, depth: int)
    requires Genuine(t, depth) && t.ctor.Some? && t.offset + t.length <= 255
    ensures FurthestEnd(t.kids, t.ctor.value.minimumLength + t.offset) == t.offset + t.length
  {
    var floor := t.ctor.value.minimumLength + t.offset;
    var end := FurthestEnd(t.kids, floor);
    if floor < 256 {
      FurthestEndBelow(t.kids, floor, 256);
    } else {
      FurthestEndBelow(t.kids, floor, floor + 1);
    }
  }

  /** After decode the root's length covers the end of every node exactly when no node ends
      past byte 255, the last one an eight-bit end can name. */
  lemma RootCovers(lang: Language, root: nat, words: seq<Word>)
    requires DecodeInstruction(lang, root, words).Some?
    ensures var t := DecodeInstruction(lang, root, words).value.0;
            EndsBy(t, t.length) <==> EndsBy(t, 255)
  {
    var c := lang.resolve(root, 0, words).value;
    DecodeGenuine(lang, Env(Effects(words, []), 1, 0), [], 0, 0, c, 0);
    var t := DecodeInstruction(lang, root, words).value.0;
    if EndsBy(t, t.length) {
      EndsByWidens(t, t.length, 255);
    }
    if EndsBy(t, 255) {
      NodeCovers(t, 0);
    }
  }
}
