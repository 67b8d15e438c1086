/** What context actions do to the context words and the commits, and what that makes of a decode
    (fugue-lifter-runtime/src/context.rs:30-76, fugue-lifter-runtime/src/input.rs:572-580,
    fugue-lifter-runtime/src/constructor.rs:51-73). */
module DecodeActions {
  import opened Prelude
  import opened Bits
  import opened Words
  import opened Grammar
  import opened DecodeMachine
  import opened DecodeTree
  import opened DecodeTheorems

  // ---- one action ----

  /** Bit `i` of a word after `v`, moved up by `shift`, was stored under `mask`. */
  predicate StoredBit(was: Word, v: Word, shift: nat, mask: Word, now: Word, i: nat)
  {
    BitAt(now, i) <==> if BitAt(mask, i) then i >= shift && BitAt(v, i - shift) else BitAt(was, i)
  }

  /** An operator stores its value in the masked bits of one word: the value moved up to them. It fails
      exactly when its expression does. */
  lemma OperatorBits(lang: Language, a: ContextAction, trail: Trail, point: U8, e: Effects, i: nat)
    requires a.Operator?
    ensures var v, r := lang.action(a.expression, trail, e.words), ApplyAction(lang, a, trail, point, e);
            && (r.None? <==> v.None?)
            && (r.Some? ==>
                  && r.value.commits == e.commits && |r.value.words| == |e.words|
                  && (forall w :: 0 <= w < |e.words| && w != a.num ==> r.value.words[w] == e.words[w])
                  && (a.num < |e.words| && i < 32 ==>
                        StoredBit(e.words[a.num], v.value, a.shift, a.mask, r.value.words[a.num], i)))
  {
    var v := lang.action(a.expression, trail, e.words);
    if v.Some? && a.num < |e.words| {
      var x := Shl(v.value, a.shift);
      BitAtOverwrite(e.words[a.num], a.mask, AndW(a.mask, x), i);
      BitAtAnd(a.mask, x, i);
      BitAtShlWord(v.value, a.shift, i);
    }
  }

  /** A commit leaves the words alone and records the action, the node and the masked bits. */
  lemma CommitRecords(lang: Language, a: ContextAction, trail: Trail, point: U8, e: Effects, i: nat)
    requires a.Commit?
    ensures var r := ApplyAction(lang, a, trail, point, e);
            && r.Some? && r.value.words == e.words && |r.value.commits| == |e.commits| + 1
            && r.value.commits[..|e.commits|] == e.commits
            && var last := r.value.commits[|e.commits|];
               && last.action == a.action && last.point == point
               && (a.num < |e.words| ==> (BitAt(last.value, i) <==> BitAt(e.words[a.num], i) && BitAt(a.mask, i)))
  {
    if a.num < |e.words| {
      BitAtAnd(e.words[a.num], a.mask, i);
    }
  }

  // ---- all actions of a constructor ----

  /** The effects of the first `n` actions, each on what the ones before it left. */
  function Through(lang: Language, c: Ctor, trail: Trail, point: U8, n: nat, e: Effects): Option<Effects>
    requires n <= |c.contextActions|
  {
    if n == 0 then Some(e)
    else
      var e' :- Through(lang, c, trail, point, n - 1, e);
      ApplyAction(lang, c.contextActions[n - 1], trail, point, e')
  }

  lemma {:induction false} ThroughRest(lang: Language, c: Ctor, trail: Trail, point: U8, n: nat, e: Effects)
    requires n <= |c.contextActions|
    ensures ApplyActions(lang, c, trail, point, 0, e) ==
            match Through(lang, c, trail, point, n, e) { case None => None case Some(x) => ApplyActions(lang, c, trail, point, n, x) }
    decreases n
  {
    if n > 0 {
      ThroughRest(lang, c, trail, point, n - 1, e);
    }
  }

  /** The actions run from the first to the last and stop at the first that fails. */
  lemma ActionsInOrder(lang: Language, c: Ctor, trail: Trail, point: U8, e: Effects)
    ensures ApplyActions(lang, c, trail, point, 0, e) == Through(lang, c, trail, point, |c.contextActions|, e)
  {
    ThroughRest(lang, c, trail, point, |c.contextActions|, e);
  }

  // ---- at the end of a decode ----

  /** A constructor that enters no other. */
  predicate Flat(c: Ctor)
  {
    forall k :: 0 <= k < |c.operands| ==> !c.operands[k].resolver.Subtable?
  }

  lemma {:induction false} FlatOperands(lang: Language, e: Env, trail: Trail, depth: int, c: Ctor, offset: U8,
                                        block: int, kids: seq<Tree>)
    requires Flat(c) && 1 <= e.alloc <= 255 && |kids| <= |c.operands| && 0 <= block && block + |c.operands| <= e.alloc
    ensures var d := DecodeOperands(lang, e, trail, depth, c, offset, block, kids); d.Some? ==> d.value.1 == e
    decreases |c.operands| - |kids|
  {
    if |kids| < |c.operands| {
      var leaf := Tree(block + |kids|, None, KidOffset(c, offset, kids), ToU8(c.operands[|kids|].minimumLength), []);
      FlatOperands(lang, e, trail, depth, c, offset, block, kids + [leaf]);
    }
  }

  /** The words and commits a decoded constructor leaves are those of its actions, on the path that
      ends with itself. */
  lemma FlatEffects(lang: Language, e: Env, outer: Trail, slot: U8, depth: int, c: Ctor, offset: U8)
    requires Flat(c) && 1 <= e.alloc <= 255
    ensures var d := Decode(lang, e, outer, slot, depth, c, offset);
            d.Some? ==>
              Some(d.value.1.effects) ==
              Through(lang, c, [Step(Some(c), offset)] + outer, slot, |c.contextActions|, e.effects)
  {
    var trail := [Step(Some(c), offset)] + outer;
    ActionsInOrder(lang, c, trail, slot, e.effects);
    var x := ApplyActions(lang, c, trail, slot, 0, e.effects);
    if x.Some? && |c.operands| > 0 && e.alloc + |c.operands| <= 255 {
      FlatOperands(lang, e.(effects := x.value, alloc := e.alloc + |c.operands|), trail, depth, c, offset, e.alloc, []);
    }
  }

  /** An instruction of one constructor with one operator ends with the operator's bits in its word
      and every other word as it was. */
  lemma OneOperator(lang: Language, root: nat, words: seq<Word>, c: Ctor, a: ContextAction, i: nat)
    requires lang.resolve(root, 0, words) == Some(c) && Flat(c) && c.contextActions == [a] && a.Operator?
    requires DecodeInstruction(lang, root, words).Some? && a.num < |words| && i < 32
    ensures var now := DecodeInstruction(lang, root, words).value.1.effects.words;
            var v := lang.action(a.expression, [Step(Some(c), 0)], words);
            && v.Some? && |now| == |words|
            && (forall w :: 0 <= w < |words| && w != a.num ==> now[w] == words[w])
            && StoredBit(words[a.num], v.value, a.shift, a.mask, now[a.num], i)
  {
    var e := Effects(words, []);
    var trail := [Step(Some(c), 0)] + [];
    assert trail == [Step(Some(c), 0)];
    FlatEffects(lang, Env(e, 1, 0), [], 0, 0, c, 0);
    assert Through(lang, c, trail, 0, 1, e) == ApplyAction(lang, a, trail, 0, e);
    OperatorBits(lang, a, trail, 0, e, i);
  }

  /** Such an action: 1, moved up by 28 into the top four bits of a word of zeros. */
  lemma TopNibble(lang: Language, trail: Trail, point: U8, x: nat)
    requires lang.action(x, trail, [0]) == Some(1)
    ensures ApplyAction(lang, Operator(0, 28, 0xf000_0000, x), trail, point, Effects([0], [])) ==
            Some(Effects([0x1000_0000], []))
  {
    var e, a := Effects([0], []), Operator(0, 28, 0xf000_0000, x);
    var now := ApplyAction(lang, a, trail, point, e).value;
    OperatorBits(lang, a, trail, point, e, 0);
    forall i: nat
      ensures BitAt(now.words[0], i) <==> i == 28
    {
      NibbleBit(lang, a, trail, point, e, i);
    }
    OnlyBit(now.words[0], 28);
    NibbleValues();
    assert now.words == [now.words[0]];
  }

  lemma NibbleBit(lang: Language, a: ContextAction, trail: Trail, point: U8, e: Effects, i: nat)
    requires a.Operator? && a.num == 0 && a.shift == 28 && a.mask == 0xf000_0000
    requires lang.action(a.expression, trail, e.words) == Some(1) && |e.words| == 1 && e.words[0] == 0
    ensures var r := ApplyAction(lang, a, trail, point, e);
            r.Some? && |r.value.words| == 1 && (BitAt(r.value.words[0], i) <==> i == 28)
  {
    NibbleBits(i);
    OperatorBits(lang, a, trail, point, e, i);
    var r := ApplyAction(lang, a, trail, point, e);
    if i >= 32 && BitAt(r.value.words[0], i) {
      InWord(r.value.words[0], i);
    }
  }

  lemma InWord(w: Word, i: nat)
    requires BitAt(w, i)
    ensures i < 32
  {
    WordSize();
    BitAtBound(w, 32, i);
  }

  lemma OnlyBit(w: nat, n: nat)
    requires forall i: nat :: BitAt(w, i) <==> i == n
    ensures w == Pow2(n)
  {
    forall i: nat
      ensures BitAt(w, i) <==> BitAt(Pow2(n), i)
    {
      BitAtPow2(n, i);
    }
    Extensional(w, Pow2(n));
  }

  lemma NibbleValues()
    ensures Pow2(28) == 0x1000_0000 && Pow2(32) - Pow2(28) == 0xf000_0000
  {
    WordSize();
    Pow2Add(28, 4);
    assert Pow2(4) == 16;
  }

  lemma NibbleBits(i: nat)
    ensures BitAt(0xf000_0000, i) <==> 28 <= i < 32
    ensures i >= 28 ==> (BitAt(1, i - 28) <==> i == 28)
    ensures !BitAt(0, i)
  {
    NibbleValues();
    ZeroBits(i);
    BitAtDifference(28, 32, i);
    if i > 28 {
      ZeroBits(i - 29);
    }
  }
}
