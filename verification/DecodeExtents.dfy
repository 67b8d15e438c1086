/** Offsets and lengths as the grammar declares them, without a bound, and exactly when the eight
    bits in which the decode stores them suffice
    (fugue-lifter-runtime/src/constructor.rs:110-145, fugue-lifter-runtime/src/input.rs:493-595). */
module DecodeExtents {
  import opened Prelude
  import opened Words
  import opened Grammar
  import opened DecodeMachine
  import opened DecodeTree
  import opened DecodeTheorems

  // ---- where the decode puts nodes ----

  /** `t` is operand `|front|` of `c`, stored where the operands in front of it put it. */
  ghost predicate LocatedKid(c: Ctor, offset: U8, front: seq<Tree>, t: Tree)
    decreases t, 1
  {
    && |front| < |c.operands| && t.offset == KidOffset(c, offset, front)
    && (t.ctor.None? ==> t.kids == [] && t.length == ToU8(c.operands[|front|].minimumLength))
    && (t.ctor.Some? ==> Located(t))
  }

  ghost predicate LocatedKids(c: Ctor, offset: U8, kids: seq<Tree>)
    decreases kids, 2
  {
    kids == [] ||
    (LocatedKids(c, offset, kids[..|kids| - 1]) && LocatedKid(c, offset, kids[..|kids| - 1], kids[|kids| - 1]))
  }

  /** A constructor node whose offsets and lengths were computed as the decode does. */
  ghost predicate Located(t: Tree)
    decreases t, 0
  {
    && t.ctor.Some? && |t.kids| == |t.ctor.value.operands|
    && LocatedKids(t.ctor.value, t.offset, t.kids)
    && t.length == LengthOf(t.ctor.value, t.offset, t.kids)
  }

  lemma LocatedExtend(c: Ctor, offset: U8, kids: seq<Tree>, t: Tree)
    requires LocatedKids(c, offset, kids) && LocatedKid(c, offset, kids, t)
    ensures LocatedKids(c, offset, kids + [t])
  {
    assert (kids + [t])[..|kids|] == kids;
  }

  lemma {:induction false} DecodeLocated(lang: Language, e: Env, outer: Trail, slot: U8, depth: int, c: Ctor, offset: U8)
    requires 1 <= e.alloc <= 255
    ensures var d := Decode(lang, e, outer, slot, depth, c, offset);
            d.Some? ==> Located(d.value.0) && d.value.0.offset == offset && d.value.0.ctor == Some(c)
    decreases 256 - e.alloc, 0, 1
  {
    var trail := [Step(Some(c), offset)] + outer;
    var effects := ApplyActions(lang, c, trail, slot, 0, e.effects);
    if effects.Some? && |c.operands| > 0 && e.alloc + |c.operands| < MAX_CTOR_STATES && depth < MAX_PARSER_DEPTH {
      var e1 := e.(effects := effects.value, alloc := e.alloc + |c.operands|);
      OperandsLocated(lang, e1, trail, depth, c, offset, e.alloc, []);
    }
  }

  lemma {:induction false} OperandsLocated(lang: Language, e: Env, trail: Trail, depth: int, c: Ctor, offset: U8,
                                           block: int, kids: seq<Tree>)
    requires 1 <= e.alloc <= 255 && |kids| <= |c.operands| && 0 <= block && block + |c.operands| <= e.alloc
    requires LocatedKids(c, offset, kids)
    ensures var d := DecodeOperands(lang, e, trail, depth, c, offset, block, kids);
            d.Some? ==> LocatedKids(c, offset, d.value.0)
    decreases 256 - e.alloc, |c.operands| - |kids|, 0
  {
    if |kids| < |c.operands| {
      var op, at, slot := c.operands[|kids|], KidOffset(c, offset, kids), block + |kids|;
      if op.resolver.Subtable? {
        var inner := lang.resolve(op.resolver.table, at, e.effects.words);
        if inner.Some? {
          DecodeLocated(lang, e, trail, slot, depth + 1, inner.value, at);
          var d := Decode(lang, e, trail, slot, depth + 1, inner.value, at);
          if d.Some? {
            LocatedExtend(c, offset, kids, d.value.0);
            OperandsLocated(lang, d.value.1, trail, depth, c, offset, block, kids + [d.value.0]);
          }
        }
      } else {
        var leaf := Tree(slot, None, at, ToU8(op.minimumLength), []);
        LocatedExtend(c, offset, kids, leaf);
        OperandsLocated(lang, e, trail, depth, c, offset, block, kids + [leaf]);
      }
    }
  }

  // ---- what the grammar declares ----

  /** Offset and length of a node and of the nodes below it, without a bound. */
  datatype Extent = Extent(offset: nat, length: nat, kids: seq<Extent>)

  function End(x: Extent): nat
  {
    x.offset + x.length
  }

  /** Where operand `|xs|` is declared to start: at its base, plus its relative offset. */
  function DeclaredOffset(c: Ctor, offset: nat, xs: seq<Extent>): nat
    requires |xs| < |c.operands|
  {
    var op := c.operands[|xs|];
    var base := match op.offsetBase
                case None => offset
                case Some(n) => assert WellFormedOperand(c, |xs|); End(xs[n]);
    base + op.offsetRela
  }

  function FarEnd(xs: seq<Extent>, floor: nat): (r: nat)
    ensures r >= floor
  {
    if xs == [] then floor else Max(FarEnd(xs[..|xs| - 1], floor), End(xs[|xs| - 1]))
  }

  ghost function DeclaredKid(c: Ctor, offset: nat, xs: seq<Extent>, t: Tree): Extent
    requires |xs| < |c.operands| && (t.ctor.Some? ==> Located(t))
    decreases t, 1
  {
    var at := DeclaredOffset(c, offset, xs);
    if t.ctor.Some? then Declared(t, at) else Extent(at, c.operands[|xs|].minimumLength, [])
  }

  ghost function DeclaredKids(c: Ctor, stored: U8, offset: nat, kids: seq<Tree>): (xs: seq<Extent>)
    requires LocatedKids(c, stored, kids)
    ensures |xs| == |kids|
    decreases kids, 2
  {
    if kids == [] then []
    else
      assert LocatedKid(c, stored, kids[..|kids| - 1], kids[|kids| - 1]);
      var xs := DeclaredKids(c, stored, offset, kids[..|kids| - 1]);
      xs + [DeclaredKid(c, offset, xs, kids[|kids| - 1])]
  }

  /** The extents declared for a decoded constructor node that starts at `offset`. */
  ghost function Declared(t: Tree, offset: nat): Extent
    requires Located(t)
    decreases t, 0
  {
    var xs := DeclaredKids(t.ctor.value, t.offset, offset, t.kids);
    Extent(offset, FarEnd(xs, t.ctor.value.minimumLength + offset) - offset, xs)
  }

  /** No node ends after `bound`. */
  ghost predicate Within(x: Extent, bound: nat)
    decreases x, 0
  {
    End(x) <= bound && AllWithinBound(x.kids, bound)
  }

  ghost predicate AllWithinBound(xs: seq<Extent>, bound: nat)
    decreases xs, 1
  {
    xs == [] || (AllWithinBound(xs[..|xs| - 1], bound) && Within(xs[|xs| - 1], bound))
  }

  lemma {:induction false} WithinMore(x: Extent, b: nat, b': nat)
    requires Within(x, b) && b <= b'
    ensures Within(x, b')
    decreases x, 0
  {
    AllWithinMore(x.kids, b, b');
  }

  lemma {:induction false} AllWithinMore(xs: seq<Extent>, b: nat, b': nat)
    requires AllWithinBound(xs, b) && b <= b'
    ensures AllWithinBound(xs, b')
    decreases xs, 1
  {
    if xs != [] {
      AllWithinMore(xs[..|xs| - 1], b, b');
      WithinMore(xs[|xs| - 1], b, b');
    }
  }

  /** Declared extents nest: no node ends after the node it belongs to. */
  lemma {:induction false} DeclaredNests(t: Tree, offset: nat)
    requires Located(t)
    ensures Within(Declared(t, offset), End(Declared(t, offset)))
    decreases t, 0
  {
    var c, xs := t.ctor.value, DeclaredKids(t.ctor.value, t.offset, offset, t.kids);
    KidsNest(c, t.offset, offset, t.kids, c.minimumLength + offset);
  }

  lemma {:induction false} KidsNest(c: Ctor, stored: U8, offset: nat, kids: seq<Tree>, floor: nat)
    requires LocatedKids(c, stored, kids)
    ensures AllWithinBound(DeclaredKids(c, stored, offset, kids), FarEnd(DeclaredKids(c, stored, offset, kids), floor))
    decreases kids, 2
  {
    if kids != [] {
      var front, last := kids[..|kids| - 1], kids[|kids| - 1];
      assert LocatedKid(c, stored, front, last);
      var xs := DeclaredKids(c, stored, offset, front);
      var x := DeclaredKid(c, offset, xs, last);
      KidsNest(c, stored, offset, front, floor);
      if last.ctor.Some? {
        DeclaredNests(last, DeclaredOffset(c, offset, xs));
      }
      assert Within(x, End(x));
      var end := Max(FarEnd(xs, floor), End(x));
      AllWithinMore(xs, FarEnd(xs, floor), end);
      WithinMore(x, End(x), end);
      assert (xs + [x])[..|xs|] == xs;
    }
  }

  // ---- when eight bits suffice ----

  /** The stored tree has the declared offsets and lengths. */
  ghost predicate Same(t: Tree, x: Extent)
    decreases t, 0
  {
    t.offset == x.offset && t.length == x.length && SameKids(t.kids, x.kids)
  }

  ghost predicate SameKids(kids: seq<Tree>, xs: seq<Extent>)
    decreases kids, 1
  {
    && |kids| == |xs|
    && (kids == [] ||
        (SameKids(kids[..|kids| - 1], xs[..|xs| - 1]) && Same(kids[|kids| - 1], xs[|xs| - 1])))
  }

  lemma {:induction false} SameAt(kids: seq<Tree>, xs: seq<Extent>, n: nat)
    requires SameKids(kids, xs) && n < |kids|
    ensures kids[n].offset == xs[n].offset && kids[n].length == xs[n].length
    decreases |kids|
  {
    if n < |kids| - 1 {
      SameAt(kids[..|kids| - 1], xs[..|xs| - 1], n);
    }
  }

  /** The furthest stored end is the furthest declared one, while those fit a byte. */
  lemma {:induction false} SameFarEnd(kids: seq<Tree>, xs: seq<Extent>, floor: nat)
    requires SameKids(kids, xs) && AllWithinBound(xs, 255)
    ensures FurthestEnd(kids, floor) == FarEnd(xs, floor)
    decreases |kids|
  {
    if kids != [] {
      SameFarEnd(kids[..|kids| - 1], xs[..|xs| - 1], floor);
    }
  }

  lemma KidStarts(c: Ctor, offset: nat, xs: seq<Extent>, t: Tree)
    requires |xs| < |c.operands| && (t.ctor.Some? ==> Located(t))
    ensures DeclaredKid(c, offset, xs, t).offset == DeclaredOffset(c, offset, xs)
  {
  }

  lemma SameOffset(c: Ctor, stored: U8, front: seq<Tree>, xs: seq<Extent>)
    requires |front| < |c.operands| && SameKids(front, xs) && DeclaredOffset(c, stored, xs) <= 255
    ensures KidOffset(c, stored, front) == DeclaredOffset(c, stored, xs)
  {
    assert WellFormedOperand(c, |front|);
    var base := c.operands[|front|].offsetBase;
    if base.Some? {
      SameAt(front, xs, base.value);
    }
  }

  lemma {:induction false} SameWithin(t: Tree)
    requires Located(t) && Within(Declared(t, t.offset), 255)
    ensures Same(t, Declared(t, t.offset))
    decreases t, 0
  {
    var c, xs := t.ctor.value, DeclaredKids(t.ctor.value, t.offset, t.offset, t.kids);
    SameKidsWithin(c, t.offset, t.kids);
    SameFarEnd(t.kids, xs, c.minimumLength + t.offset);
  }

  lemma {:induction false} SameKidsWithin(c: Ctor, stored: U8, kids: seq<Tree>)
    requires LocatedKids(c, stored, kids) && AllWithinBound(DeclaredKids(c, stored, stored, kids), 255)
    ensures SameKids(kids, DeclaredKids(c, stored, stored, kids))
    decreases kids, 2
  {
    if kids != [] {
      var front, last := kids[..|kids| - 1], kids[|kids| - 1];
      assert LocatedKid(c, stored, front, last);
      var xs := DeclaredKids(c, stored, stored, front);
      var x := DeclaredKid(c, stored, xs, last);
      assert (xs + [x])[..|xs|] == xs;
      SameKidsWithin(c, stored, front);
      KidStarts(c, stored, xs, last);
      assert Within(x, 255);
      SameOffset(c, stored, front, xs);
      if last.ctor.Some? {
        SameWithin(last);
      }
    }
  }

  /** A decoded instruction is stored with exactly its declared offsets and lengths if and only if
      the declared length of the whole fits a byte; no node is declared to end after that. */
  lemma StoredExactly(t: Tree)
    requires Located(t) && t.offset == 0
    ensures Same(t, Declared(t, 0)) <==> Declared(t, 0).length < 256
    ensures Within(Declared(t, 0), Declared(t, 0).length)
  {
    DeclaredNests(t, 0);
    if Declared(t, 0).length < 256 {
      WithinMore(Declared(t, 0), Declared(t, 0).length, 255);
      SameWithin(t);
    }
  }

  /** And the stored root length covers the declared end of every node under the same condition. */
  lemma RootCoversDeclared(lang: Language, root: nat, words: seq<Word>)
    requires DecodeInstruction(lang, root, words).Some?
    ensures var t := DecodeInstruction(lang, root, words).value.0;
            && Located(t) && t.offset == 0
            && (Within(Declared(t, 0), t.length) <==> Declared(t, 0).length < 256)
            && (Same(t, Declared(t, 0)) <==> Declared(t, 0).length < 256)
  {
    var c := lang.resolve(root, 0, words).value;
    DecodeLocated(lang, Env(Effects(words, []), 1, 0), [], 0, 0, c, 0);
    StoredExactly(DecodeInstruction(lang, root, words).value.0);
  }

  // ---- where they do not ----

  /** A grammar with one constructor of one plain operand. */
  function OneOperand(rela: nat, length: nat): Ctor
  {
    var c := Constructor(0, [], [Operand(Plain, Symbol(0), None, rela, length)], None, 0, 0);
    assert forall i :: 0 <= i < |c.operands| ==> WellFormedOperand(c, i);
    c
  }

  function OneTable(c: Ctor): Language
  {
    Language((t: nat, o: U8, w: seq<Word>) => Some(c), (f: nat, t: Trail, w: seq<Word>) => true,
             (a: nat, t: Trail, w: seq<Word>) => None)
  }

  function OneLeaf(rela: nat, length: nat): Tree
  {
    Tree(1, None, ToU8(rela), ToU8(length), [])
  }

  lemma OneDecoded(rela: nat, length: nat, words: seq<Word>)
    ensures var c := OneOperand(rela, length);
            DecodeInstruction(OneTable(c), 0, words) ==
            Some((Tree(0, Some(c), 0, LengthOf(c, 0, [OneLeaf(rela, length)]), [OneLeaf(rela, length)]),
                  Env(Effects(words, []), 2, 0)))
  {
    var c, leaf := OneOperand(rela, length), OneLeaf(rela, length);
    var lang, e := OneTable(c), Env(Effects(words, []), 2, 0);
    var trail := [Step(Some(c), 0)] + [];
    var none: seq<Tree> := [];
    assert none + [leaf] == [leaf];
    assert ApplyActions(lang, c, trail, 0, 0, Effects(words, [])) == Some(Effects(words, []));
    assert KidOffset(c, 0, none) == ToU8(rela);
    assert DecodeOperands(lang, e, trail, 0, c, 0, 1, [leaf]) == Some(([leaf], e));
    assert DecodeOperands(lang, e, trail, 0, c, 0, 1, none) == Some(([leaf], e));
    assert lang.resolve(0, 0, words) == Some(c);
  }

  lemma OneExtent(t: Tree, rela: nat, length: nat)
    requires Located(t) && t.offset == 0 && t.ctor == Some(OneOperand(rela, length)) && t.kids == [OneLeaf(rela, length)]
    ensures Declared(t, 0).length == rela + length
  {
    var c, kids := OneOperand(rela, length), t.kids;
    var none: seq<Extent> := [];
    assert kids[..0] == [];
    assert DeclaredKids(c, 0, 0, kids[..0]) == none;
    assert LocatedKid(c, 0, kids[..0], kids[0]);
    assert DeclaredOffset(c, 0, none) == rela;
    var x := DeclaredKid(c, 0, none, kids[0]);
    assert x == Extent(rela, length, []);
    var xs := DeclaredKids(c, 0, 0, kids);
    assert xs == none + [x];
    assert xs[..0] == none && xs[0] == x && |xs| == 1;
    assert FarEnd(xs, 0) == Max(FarEnd(none, 0), rela + length);
  }

  /** An operand `rela` bytes in, `length` bytes long, is covered exactly while its end fits a byte. */
  lemma OneOperandCovered(rela: nat, length: nat, words: seq<Word>)
    ensures DecodeInstruction(OneTable(OneOperand(rela, length)), 0, words).Some?
    ensures var t := DecodeInstruction(OneTable(OneOperand(rela, length)), 0, words).value.0;
            && t.kids == [OneLeaf(rela, length)] && t.length == LengthOf(OneOperand(rela, length), 0, t.kids)
            && Located(t) && Declared(t, 0).length == rela + length
            && (Within(Declared(t, 0), t.length) <==> rela + length < 256)
  {
    OneDecoded(rela, length, words);
    RootCoversDeclared(OneTable(OneOperand(rela, length)), 0, words);
    OneExtent(DecodeInstruction(OneTable(OneOperand(rela, length)), 0, words).value.0, rela, length);
  }

  /** Declared at byte 300, an operand of one byte is stored at 44, and the root covers 45 bytes;
      100 bytes at 200 end at 300, and the root covers 44. Neither is covered. */
  lemma WrappedExtents(words: seq<Word>)
    ensures OneLeaf(300, 1).offset == 44 && LengthOf(OneOperand(300, 1), 0, [OneLeaf(300, 1)]) == 45
    ensures OneLeaf(200, 100).offset == 200 && LengthOf(OneOperand(200, 100), 0, [OneLeaf(200, 100)]) == 44
    ensures DecodeInstruction(OneTable(OneOperand(300, 1)), 0, words).Some?
    ensures var t := DecodeInstruction(OneTable(OneOperand(300, 1)), 0, words).value.0;
            t.length == 45 && Located(t) && Declared(t, 0).length == 301 && !Within(Declared(t, 0), t.length)
    ensures DecodeInstruction(OneTable(OneOperand(200, 100)), 0, words).Some?
    ensures var t := DecodeInstruction(OneTable(OneOperand(200, 100)), 0, words).value.0;
            t.length == 44 && Located(t) && Declared(t, 0).length == 300 && !Within(Declared(t, 0), t.length)
  {
    OneLength(300, 1);
    OneLength(200, 100);
    OneOperandCovered(300, 1, words);
    OneOperandCovered(200, 100, words);
  }

  lemma OneLength(rela: nat, length: nat)
    ensures LengthOf(OneOperand(rela, length), 0, [OneLeaf(rela, length)]) == ToU8(ToU8(rela) + ToU8(length))
  {
    var kids, none: seq<Tree> := [OneLeaf(rela, length)], [];
    assert kids[..0] == none;
    assert FurthestEnd(none, 0) == 0;
    assert FurthestEnd(kids, 0) == Max(0, ToU8(ToU8(length) + ToU8(rela)));
  }
}
