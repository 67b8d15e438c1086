/** Which trees the decode finds: a checker that is given a whole tree and goes over it, without
    choosing anything, accepts exactly the tree that decoding finds
    (fugue-lifter-runtime/src/constructor.rs:51-155, fugue-lifter-runtime/src/input.rs:493-685). */
module DecodeCheck {
  import opened Prelude
  import opened Words
  import opened Grammar
  import opened DecodeMachine
  import opened DecodeTree
  import opened DecodeTheorems
  import opened DecodeActions

  /** The node of operand `k` fits it: it lies in its slot at its offset and is of its kind. A subtable
      operand has the constructor that the lookup at the node's offset and under the current words
      selects; any other is a leaf of its minimum length, let through by its filter. */
  ghost predicate Fits(lang: Language, words: seq<Word>, here: Trail, t: Tree, block: int, k: nat)
    requires t.ctor.Some? && k < |t.kids| && |t.kids| == |t.ctor.value.operands|
  {
    var op, kid := t.ctor.value.operands[k], t.kids[k];
    && kid.slot == block + k && kid.offset == KidOffset(t.ctor.value, t.offset, t.kids[..k])
    && (op.resolver.Subtable? ==> kid.ctor.Some? && lang.resolve(op.resolver.table, kid.offset, words) == kid.ctor)
    && (!op.resolver.Subtable? ==> kid.ctor.None? && kid.kids == [] && kid.length == ToU8(op.minimumLength))
    && (op.resolver.Filter? ==> lang.filter(op.resolver.filter, [Step(None, kid.offset)] + here, words))
  }

  /** Goes over the tree from the outside in and from left to right: the state afterwards, or none if
      something does not fit. The constructor's own request for delay slots comes last. */
  ghost function Check(lang: Language, e: Env, outer: Trail, depth: int, t: Tree): (r: Option<Env>)
    requires 1 <= e.alloc <= 255 && t.ctor.Some?
    ensures r.Some? ==> e.alloc <= r.value.alloc <= 255
    decreases t, 1, 0
  {
    var c, n := t.ctor.value, |t.ctor.value.operands|;
    var here := [Step(t.ctor, t.offset)] + outer;
    var effects :- Through(lang, c, here, t.slot, |c.contextActions|, e.effects);
    if |t.kids| != n || t.length != LengthOf(c, t.offset, t.kids) then None
    else if n > 0 && (e.alloc + n > 255 || depth >= 128) then None
    else
      var e' :- CheckKids(lang, Env(effects, e.alloc + n, e.delay), here, depth, t, e.alloc, 0);
      Some(if c.delaySlotLength > 0 then e'.(delay := c.delaySlotLength % 256) else e')
  }

  ghost function CheckKids(lang: Language, e: Env, here: Trail, depth: int, t: Tree, block: int, k: nat): (r: Option<Env>)
    requires 1 <= e.alloc <= 255 && t.ctor.Some? && k <= |t.kids| && |t.kids| == |t.ctor.value.operands|
    ensures r.Some? ==> e.alloc <= r.value.alloc <= 255
    decreases t, 0, |t.kids| - k
  {
    if k == |t.kids| then Some(e)
    else if !Fits(lang, e.effects.words, here, t, block, k) then None
    else if t.kids[k].ctor.None? then CheckKids(lang, e, here, depth, t, block, k + 1)
    else
      var e' :- Check(lang, e, here, depth + 1, t.kids[k]);
      CheckKids(lang, e', here, depth, t, block, k + 1)
  }

  // ---- what is decoded passes ----

  lemma {:induction false} DecodedChecks(lang: Language, e: Env, outer: Trail, slot: U8, depth: int, c: Ctor, offset: U8)
    requires 1 <= e.alloc <= 255 && Decode(lang, e, outer, slot, depth, c, offset).Some?
    ensures var (t, e') := Decode(lang, e, outer, slot, depth, c, offset).value;
            t.slot == slot && t.ctor == Some(c) && t.offset == offset && Check(lang, e, outer, depth, t) == Some(e')
    decreases 256 - e.alloc, 0, 1
  {
    var here := [Step(Some(c), offset)] + outer;
    var t := Decode(lang, e, outer, slot, depth, c, offset).value.0;
    ActionsInOrder(lang, c, here, slot, e.effects);
    var x := ApplyActions(lang, c, here, slot, 0, e.effects).value;
    if |c.operands| > 0 {
      KidsCheck(lang, Env(x, e.alloc + |c.operands|, e.delay), here, depth, t, e.alloc, 0);
    }
  }

  lemma {:induction false} KidsCheck(lang: Language, e: Env, here: Trail, depth: int, t: Tree, block: int, k: nat)
    requires 1 <= e.alloc <= 255 && t.ctor.Some? && k <= |t.kids| && |t.kids| == |t.ctor.value.operands|
    requires 0 <= block && block + |t.kids| <= e.alloc
    requires var d := DecodeOperands(lang, e, here, depth, t.ctor.value, t.offset, block, t.kids[..k]);
             d.Some? && d.value.0 == t.kids
    ensures CheckKids(lang, e, here, depth, t, block, k) ==
            Some(DecodeOperands(lang, e, here, depth, t.ctor.value, t.offset, block, t.kids[..k]).value.1)
    decreases 256 - e.alloc, |t.kids| - k, 0
  {
    if k < |t.kids| {
      OperandsExtend(lang, e, here, depth, t.ctor.value, t.offset, block, t.kids[..k]);
      assert t.kids[..k] + [t.kids[k]] == t.kids[..k + 1];
      var op := t.ctor.value.operands[k];
      if op.resolver.Subtable? {
        var at := KidOffset(t.ctor.value, t.offset, t.kids[..k]);
        var inner := lang.resolve(op.resolver.table, at, e.effects.words).value;
        DecodedChecks(lang, e, here, block + k, depth + 1, inner, at);
        KidsCheck(lang, Decode(lang, e, here, block + k, depth + 1, inner, at).value.1, here, depth, t, block, k + 1);
      } else {
        KidsCheck(lang, e, here, depth, t, block, k + 1);
      }
    }
  }

  /** The operand decoded next. */
  ghost function NextKid(lang: Language, e: Env, trail: Trail, depth: int, c: Ctor, offset: U8, block: int, kids: seq<Tree>)
    : (r: Option<(Tree, Env)>)
    requires 1 <= e.alloc <= 255 && |kids| < |c.operands| && 0 <= block && block + |c.operands| <= e.alloc
    ensures r.Some? ==> e.alloc <= r.value.1.alloc <= 255
  {
    var op, at := c.operands[|kids|], KidOffset(c, offset, kids);
    var leaf := Tree(block + |kids|, None, at, ToU8(op.minimumLength), []);
    match op.resolver
    case Plain => Some((leaf, e))
    case Filter(f) => if lang.filter(f, [Step(None, at)] + trail, e.effects.words) then Some((leaf, e)) else None
    case Subtable(table) =>
      var inner :- lang.resolve(table, at, e.effects.words);
      Decode(lang, e, trail, block + |kids|, depth + 1, inner, at)
  }

  lemma OperandsStep(lang: Language, e: Env, trail: Trail, depth: int, c: Ctor, offset: U8, block: int, kids: seq<Tree>)
    requires 1 <= e.alloc <= 255 && |kids| < |c.operands| && 0 <= block && block + |c.operands| <= e.alloc
    ensures var x := NextKid(lang, e, trail, depth, c, offset, block, kids);
            DecodeOperands(lang, e, trail, depth, c, offset, block, kids) ==
            if x.None? then None
            else DecodeOperands(lang, x.value.1, trail, depth, c, offset, block, kids + [x.value.0])
  {
  }

  /** The operands decoded already come first. */
  lemma {:induction false} OperandsKeep(lang: Language, e: Env, trail: Trail, depth: int, c: Ctor, offset: U8, block: int,
                                        kids: seq<Tree>)
    requires 1 <= e.alloc <= 255 && |kids| <= |c.operands| && 0 <= block && block + |c.operands| <= e.alloc
    ensures var d := DecodeOperands(lang, e, trail, depth, c, offset, block, kids);
            d.Some? ==> |d.value.0| == |c.operands| && d.value.0[..|kids|] == kids
    decreases |c.operands| - |kids|
  {
    if |kids| < |c.operands| {
      var x := NextKid(lang, e, trail, depth, c, offset, block, kids);
      OperandsStep(lang, e, trail, depth, c, offset, block, kids);
      if x.Some? {
        OperandsKeep(lang, x.value.1, trail, depth, c, offset, block, kids + [x.value.0]);
        var d := DecodeOperands(lang, e, trail, depth, c, offset, block, kids);
        if d.Some? {
          assert d.value.0[..|kids|] == d.value.0[..|kids| + 1][..|kids|] == kids;
        }
      }
    }
  }

  lemma OperandsExtend(lang: Language, e: Env, trail: Trail, depth: int, c: Ctor, offset: U8, block: int, kids: seq<Tree>)
    requires 1 <= e.alloc <= 255 && |kids| < |c.operands| && 0 <= block && block + |c.operands| <= e.alloc
    requires DecodeOperands(lang, e, trail, depth, c, offset, block, kids).Some?
    ensures var x := NextKid(lang, e, trail, depth, c, offset, block, kids);
            && x.Some?
            && DecodeOperands(lang, e, trail, depth, c, offset, block, kids).value.0[|kids|] == x.value.0
  {
    var x := NextKid(lang, e, trail, depth, c, offset, block, kids);
    OperandsStep(lang, e, trail, depth, c, offset, block, kids);
    OperandsKeep(lang, x.value.1, trail, depth, c, offset, block, kids + [x.value.0]);
  }

  // ---- what passes is decoded ----

  lemma {:induction false} CheckedDecodes(lang: Language, e: Env, outer: Trail, depth: int, t: Tree)
    requires 1 <= e.alloc <= 255 && t.ctor.Some? && Check(lang, e, outer, depth, t).Some?
    ensures Decode(lang, e, outer, t.slot, depth, t.ctor.value, t.offset) == Some((t, Check(lang, e, outer, depth, t).value))
    decreases t, 1, 0
  {
    var c := t.ctor.value;
    var here := [Step(t.ctor, t.offset)] + outer;
    ActionsInOrder(lang, c, here, t.slot, e.effects);
    var x := ApplyActions(lang, c, here, t.slot, 0, e.effects).value;
    if |c.operands| > 0 {
      CheckedKids(lang, Env(x, e.alloc + |c.operands|, e.delay), here, depth, t, e.alloc, 0);
    }
  }

  lemma {:induction false} CheckedKids(lang: Language, e: Env, here: Trail, depth: int, t: Tree, block: int, k: nat)
    requires 1 <= e.alloc <= 255 && t.ctor.Some? && k <= |t.kids| && |t.kids| == |t.ctor.value.operands|
    requires 0 <= block && block + |t.kids| <= e.alloc
    requires CheckKids(lang, e, here, depth, t, block, k).Some?
    ensures DecodeOperands(lang, e, here, depth, t.ctor.value, t.offset, block, t.kids[..k]) ==
            Some((t.kids, CheckKids(lang, e, here, depth, t, block, k).value))
    decreases t, 0, |t.kids| - k
  {
    if k == |t.kids| {
      assert t.kids[..k] == t.kids;
    } else {
      assert t.kids[..k] + [t.kids[k]] == t.kids[..k + 1];
      OperandsStep(lang, e, here, depth, t.ctor.value, t.offset, block, t.kids[..k]);
      if t.kids[k].ctor.Some? {
        CheckedDecodes(lang, e, here, depth + 1, t.kids[k]);
        InnerFits(lang, e, here, depth, t, block, k);
        CheckedKids(lang, Check(lang, e, here, depth + 1, t.kids[k]).value, here, depth, t, block, k + 1);
      } else {
        LeafFits(lang, e, here, depth, t, block, k);
        CheckedKids(lang, e, here, depth, t, block, k + 1);
      }
    }
  }

  lemma LeafFits(lang: Language, e: Env, here: Trail, depth: int, t: Tree, block: int, k: nat)
    requires 1 <= e.alloc <= 255 && t.ctor.Some? && k < |t.kids| && |t.kids| == |t.ctor.value.operands|
    requires 0 <= block && block + |t.kids| <= e.alloc
    requires Fits(lang, e.effects.words, here, t, block, k) && t.kids[k].ctor.None?
    ensures NextKid(lang, e, here, depth, t.ctor.value, t.offset, block, t.kids[..k]) == Some((t.kids[k], e))
  {
  }

  lemma InnerFits(lang: Language, e: Env, here: Trail, depth: int, t: Tree, block: int, k: nat)
    requires 1 <= e.alloc <= 255 && t.ctor.Some? && k < |t.kids| && |t.kids| == |t.ctor.value.operands|
    requires 0 <= block && block + |t.kids| <= e.alloc
    requires Fits(lang, e.effects.words, here, t, block, k) && t.kids[k].ctor.Some?
    ensures NextKid(lang, e, here, depth, t.ctor.value, t.offset, block, t.kids[..k]) ==
            Decode(lang, e, here, t.kids[k].slot, depth + 1, t.kids[k].ctor.value, t.kids[k].offset)
  {
  }

  // ---- instructions ----

  /** The tree of an instruction: its root is what the root table selects, and it passes. */
  ghost predicate Parses(lang: Language, root: nat, words: seq<Word>, t: Tree, e: Env)
  {
    && t.slot == 0 && t.offset == 0 && t.ctor.Some? && lang.resolve(root, 0, words) == t.ctor
    && Check(lang, Env(Effects(words, []), 1, 0), [], 0, t) == Some(e)
  }

  /** Decoding an instruction finds a tree if and only if the tree passes; so there is at most one, and
      decoding fails exactly when there is none. */
  lemma DecodesExactly(lang: Language, root: nat, words: seq<Word>, t: Tree, e: Env)
    ensures DecodeInstruction(lang, root, words) == Some((t, e)) <==> Parses(lang, root, words, t, e)
  {
    var start := Env(Effects(words, []), 1, 0);
    var c := lang.resolve(root, 0, words);
    if DecodeInstruction(lang, root, words) == Some((t, e)) {
      DecodedChecks(lang, start, [], 0, 0, c.value, 0);
    }
    if Parses(lang, root, words, t, e) {
      CheckedDecodes(lang, start, [], 0, t);
    }
  }
}
