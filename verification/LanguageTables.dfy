/** Decoding with the generated tables is decoding with the decision trees they were generated from
    (fugue-lifter-codegen/src/core.rs:167-245, 774-815, fugue-lifter-runtime/src/resolve.rs:6-134). */
module LanguageTables {
  import opened Prelude
  import opened Words
  import opened Grammar
  import opened DecodeTree
  import opened DecodeTheorems
  import opened DecodeCheck
  import opened PatternTrails
  import DecisionTrees
  import opened LifterGenerators

  // ---- languages that answer alike ----

  ghost predicate SameLanguage(a: Language, b: Language)
  {
    && (forall t, at, ws :: a.resolve(t, at, ws) == b.resolve(t, at, ws))
    && (forall f, trail, ws :: a.filter(f, trail, ws) == b.filter(f, trail, ws))
    && (forall x, trail, ws :: a.action(x, trail, ws) == b.action(x, trail, ws))
  }

  lemma {:induction false} SameActions(a: Language, b: Language, c: Ctor, trail: Trail, point: U8, i: nat, e: Effects)
    requires SameLanguage(a, b) && i <= |c.contextActions|
    ensures ApplyActions(a, c, trail, point, i, e) == ApplyActions(b, c, trail, point, i, e)
    decreases |c.contextActions| - i
  {
    if i < |c.contextActions| {
      var next := ApplyAction(a, c.contextActions[i], trail, point, e);
      assert next == ApplyAction(b, c.contextActions[i], trail, point, e);
      if next.Some? {
        SameActions(a, b, c, trail, point, i + 1, next.value);
      }
    }
  }

  lemma {:induction false} SameDecode(a: Language, b: Language, e: Env, outer: Trail, slot: U8, depth: int, c: Ctor, offset: U8)
    requires SameLanguage(a, b) && 1 <= e.alloc <= 255
    ensures Decode(a, e, outer, slot, depth, c, offset) == Decode(b, e, outer, slot, depth, c, offset)
    decreases 256 - e.alloc, 0, 1
  {
    var trail := [Step(Some(c), offset)] + outer;
    SameActions(a, b, c, trail, slot, 0, e.effects);
    var effects := ApplyActions(a, c, trail, slot, 0, e.effects);
    var alloc := e.alloc + |c.operands|;
    if effects.Some? && |c.operands| > 0 && alloc < 256 && depth < 128 {
      SameOperands(a, b, e.(effects := effects.value, alloc := alloc), trail, depth, c, offset, e.alloc, []);
    }
  }

  lemma {:induction false} SameOperands(a: Language, b: Language, e: Env, trail: Trail, depth: int, c: Ctor, offset: U8,
                                        block: int, kids: seq<Tree>)
    requires SameLanguage(a, b)
    requires 1 <= e.alloc <= 255 && |kids| <= |c.operands| && 0 <= block && block + |c.operands| <= e.alloc
    ensures DecodeOperands(a, e, trail, depth, c, offset, block, kids) == DecodeOperands(b, e, trail, depth, c, offset, block, kids)
    decreases 256 - e.alloc, |c.operands| - |kids|, 0
  {
    if |kids| < |c.operands| {
      var op := c.operands[|kids|];
      var slot: U8 := block + |kids|;
      var at := KidOffset(c, offset, kids);
      if op.resolver.Subtable? {
        var inner := a.resolve(op.resolver.table, at, e.effects.words);
        if inner.Some? {
          SameDecode(a, b, e, trail, slot, depth + 1, inner.value, at);
        }
      }
      SameNext(a, b, e, trail, depth, c, offset, block, kids);
      OperandsStep(a, e, trail, depth, c, offset, block, kids);
      OperandsStep(b, e, trail, depth, c, offset, block, kids);
      var x := NextKid(a, e, trail, depth, c, offset, block, kids);
      if x.Some? {
        SameOperands(a, b, x.value.1, trail, depth, c, offset, block, kids + [x.value.0]);
      }
    }
  }

  lemma SameNext(a: Language, b: Language, e: Env, trail: Trail, depth: int, c: Ctor, offset: U8, block: int, kids: seq<Tree>)
    requires SameLanguage(a, b)
    requires 1 <= e.alloc <= 255 && |kids| < |c.operands| && 0 <= block && block + |c.operands| <= e.alloc
    requires var op, at := c.operands[|kids|], KidOffset(c, offset, kids);
             op.resolver.Subtable? ==>
               var inner := a.resolve(op.resolver.table, at, e.effects.words);
               inner.Some? ==> Decode(a, e, trail, block + |kids|, depth + 1, inner.value, at) ==
                               Decode(b, e, trail, block + |kids|, depth + 1, inner.value, at)
    ensures NextKid(a, e, trail, depth, c, offset, block, kids) == NextKid(b, e, trail, depth, c, offset, block, kids)
  {
  }

  // ---- lookups in trees and in tables ----

  /** What can be read at an offset under the current context words. */
  type Reader = (U8, seq<Word>) -> DecisionTrees.Input

  type Lookup = (nat, U8, seq<Word>) -> Option<Ctor>

  /** Looks subtable `k` up in its own decision tree. */
  function InTrees(symbols: seq<Symbol>, define: nat -> Ctor, read: Reader): Lookup
  {
    (k: nat, at: U8, words: seq<Word>) =>
      if k < |symbols| && symbols[k].Subtable? then
        match DecisionTrees.Lookup(symbols[k].tree, read(at, words)) {
          case None => None
          case Some(c) => if c < |symbols[k].ctors| then Some(define(symbols[k].ctors[c])) else None
        }
      else None
  }

  /** Looks subtable `k` up in the tables, from the root the generator gave it. */
  ghost function InTables(trees: seq<DecisionTrees.FlatNode>, ctors: seq<FlatCtor>, roots: map<nat, nat>,
                          define: nat -> Ctor, read: Reader): Lookup
  {
    (k: nat, at: U8, words: seq<Word>) =>
      if DecisionTrees.Descending(trees) && k in roots && roots[k] < |trees| then
        match DecisionTrees.FlatLookup(trees, roots[k], read(at, words)) {
          case None => None
          case Some(id) => if id < |ctors| then Some(define(ctors[id].definition)) else None
        }
      else None
  }

  function RootsOf(symbols: seq<Symbol>, subtableIds: map<Key, nat>): map<nat, nat>
  {
    map k: nat | k < |symbols| && symbols[k].Subtable? && symbols[k].key in subtableIds :: subtableIds[symbols[k].key]
  }

  /** The language over the tables the generator's passes leave. */
  ghost function Generated(symbols: seq<Symbol>, subtableIds: map<Key, nat>, define: nat -> Ctor, read: Reader): Lookup
  {
    InTables(AllNodes(symbols, |symbols|), AllCtors(symbols, |symbols|), RootsOf(symbols, subtableIds), define, read)
  }

  lemma SameLookups(symbols: seq<Symbol>, subtableIds: map<Key, nat>, ctorIds: map<(Key, nat), nat>,
                    define: nat -> Ctor, read: Reader, k: nat, at: U8, words: seq<Word>)
    requires Sound(symbols) && AllAssigned(symbols, subtableIds, ctorIds)
    ensures Generated(symbols, subtableIds, define, read)(k, at, words) == InTrees(symbols, define, read)(k, at, words)
  {
    if k < |symbols| && symbols[k].Subtable? {
      assert Assigned(symbols, k, subtableIds, ctorIds);
      TablesMeanTrees(symbols, k, subtableIds, ctorIds, read(at, words));
    }
  }

  /** Decoding an instruction with the tables the generator builds is decoding it with the trees of
      the specification: the same tree of constructors, the same context and commits, and failure
      for the same bytes. */
  lemma TablesDecodeAlike(symbols: seq<Symbol>, subtableIds: map<Key, nat>, ctorIds: map<(Key, nat), nat>,
                          define: nat -> Ctor, read: Reader, r: Rules, root: nat, words: seq<Word>)
    requires Sound(symbols) && AllAssigned(symbols, subtableIds, ctorIds)
    ensures DecodeInstruction(LanguageOf(r.(lookup := Generated(symbols, subtableIds, define, read))), root, words) ==
            DecodeInstruction(LanguageOf(r.(lookup := InTrees(symbols, define, read))), root, words)
  {
    var a := LanguageOf(r.(lookup := Generated(symbols, subtableIds, define, read)));
    var b := LanguageOf(r.(lookup := InTrees(symbols, define, read)));
    forall k, at, ws
      ensures a.resolve(k, at, ws) == b.resolve(k, at, ws)
    {
      SameLookups(symbols, subtableIds, ctorIds, define, read, k, at, ws);
    }
    assert SameLanguage(a, b);
    var c := a.resolve(root, 0, words);
    if c.Some? {
      SameDecode(a, b, Env(Effects(words, []), 1, 0), [], 0, 0, c.value, 0);
    }
  }
}
