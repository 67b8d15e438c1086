/** What a lookup in a decision tree finds: in a tree that sorts a list of patterns, the first pattern of
    the list that the input satisfies
    (fugue-lifter-runtime/src/resolve.rs:36-134, fugue-sleigh-language/src/symbol/sub_table.rs:347-385). */
module DecisionMeaning {
  import opened Prelude
  import opened Bits
  import opened Words
  import opened DecisionTrees

  // ---- patterns, bit by bit ----

  /** The bits that the mask names are those of the value, and the value has no others. */
  ghost predicate AgreesUnder(bytes: Word, mask: Word, value: Word)
  {
    forall b: nat :: BitAt(value, b) <==> BitAt(mask, b) && BitAt(bytes, b)
  }

  lemma AgreesExactly(bytes: Word, mask: Word, value: Word)
    ensures AndW(bytes, mask) == value <==> AgreesUnder(bytes, mask, value)
  {
    forall b: nat
      ensures BitAt(AndW(bytes, mask), b) <==> BitAt(bytes, b) && BitAt(mask, b)
    {
      BitAtAnd(bytes, mask, b);
    }
    if AgreesUnder(bytes, mask, value) {
      Extensional(AndW(bytes, mask), value);
    }
  }

  /** Word `i` of a pattern can be read and agrees. */
  ghost predicate WordHolds(p: Pattern, get: nat -> Option<Word>, i: nat)
    requires i < |p.masks| && i < |p.values|
  {
    get(p.offset + 4 * i).Some? && AgreesUnder(get(p.offset + 4 * i).value, p.masks[i], p.values[i])
  }

  ghost predicate Holds(p: Pattern, get: nat -> Option<Word>)
  {
    match p.nonZeroSize
    case None => false
    case Some(n) => n == 0 || forall i :: 0 <= i < |p.masks| && i < |p.values| ==> WordHolds(p, get, i)
  }

  lemma HoldsExactly(p: Pattern, get: nat -> Option<Word>)
    ensures Matches(p, get) <==> Holds(p, get)
  {
    forall i | 0 <= i < |p.masks| && i < |p.values|
      ensures WordMatches(get(p.offset + 4 * i), p.masks[i], p.values[i]) <==> WordHolds(p, get, i)
    {
      if get(p.offset + 4 * i).Some? {
        AgreesExactly(get(p.offset + 4 * i).value, p.masks[i], p.values[i]);
      }
    }
  }

  function ContextSide(d: DisjointPattern): Option<Pattern>
  {
    if d.InstructionPattern? then None else Some(d.context)
  }

  function InstructionSide(d: DisjointPattern): Option<Pattern>
  {
    if d.ContextPattern? then None else Some(d.instruction)
  }

  /** What a pattern asks of the context holds of the context, and what it asks of the instruction of
      the instruction. */
  ghost predicate Satisfied(d: DisjointPattern, input: Input)
  {
    && (ContextSide(d).Some? ==> Holds(ContextSide(d).value, input.contextBytes))
    && (InstructionSide(d).Some? ==> Holds(InstructionSide(d).value, input.instructionBytes))
  }

  lemma SatisfiedExactly(d: DisjointPattern, input: Input)
    ensures DisjointMatches(d, input) <==> Satisfied(d, input)
  {
    if ContextSide(d).Some? {
      HoldsExactly(ContextSide(d).value, input.contextBytes);
    }
    if InstructionSide(d).Some? {
      HoldsExactly(InstructionSide(d).value, input.instructionBytes);
    }
  }

  // ---- the first of a list ----

  /** Pair `k` is the first the input satisfies. */
  ghost predicate IsFirst(pairs: seq<Pair>, input: Input, k: nat)
  {
    && k < |pairs| && Satisfied(pairs[k].pattern, input)
    && forall j :: 0 <= j < k ==> !Satisfied(pairs[j].pattern, input)
  }

  lemma {:induction false} FirstFrom(pairs: seq<Pair>, input: Input, i: nat)
    requires i <= |pairs| && forall j :: 0 <= j < i ==> !Satisfied(pairs[j].pattern, input)
    ensures FirstMatch(pairs, input, i).None? <==> forall j :: 0 <= j < |pairs| ==> !Satisfied(pairs[j].pattern, input)
    ensures FirstMatch(pairs, input, i).Some? ==>
              exists k: nat :: IsFirst(pairs, input, k) && FirstMatch(pairs, input, i) == Some(pairs[k].id)
    decreases |pairs| - i
  {
    if i < |pairs| {
      SatisfiedExactly(pairs[i].pattern, input);
      if Satisfied(pairs[i].pattern, input) {
        assert IsFirst(pairs, input, i);
      } else {
        FirstFrom(pairs, input, i + 1);
      }
    }
  }

  lemma FirstUnique(pairs: seq<Pair>, input: Input, n: nat, k: nat)
    requires IsFirst(pairs, input, n) && IsFirst(pairs, input, k)
    ensures n == k
  {
  }

  /** The match in a list is the constructor of the first pair satisfied, or none if there is none. */
  lemma FirstExactly(pairs: seq<Pair>, input: Input, k: nat)
    ensures IsFirst(pairs, input, k) ==> FirstMatch(pairs, input, 0) == Some(pairs[k].id)
    ensures FirstMatch(pairs, input, 0).None? <==> forall j :: 0 <= j < |pairs| ==> !Satisfied(pairs[j].pattern, input)
  {
    FirstFrom(pairs, input, 0);
    if IsFirst(pairs, input, k) {
      var n: nat :| IsFirst(pairs, input, n) && FirstMatch(pairs, input, 0) == Some(pairs[n].id);
      FirstUnique(pairs, input, n, k);
    }
  }

  // ---- sorted trees ----

  /** The bits that a node looks at, of the context or of the instruction, have the value `v`. */
  predicate Selects(t: Tree, input: Input, v: nat)
  {
    if t.contextDecision then input.contextBits(t.startBit, t.size) == v
    else input.instructionBits(t.startBit, t.size) == Some(v)
  }

  /** No input with these bits satisfies the pattern. */
  ghost predicate Excluded(t: Tree, v: nat, p: Pair)
  {
    forall input :: Selects(t, input, v) ==> !Satisfied(p.pattern, input)
  }

  /** `qs` has the pairs of `ps` in order, and lacks only such as the value `v` excludes. */
  ghost predicate Thins(t: Tree, v: nat, ps: seq<Pair>, qs: seq<Pair>)
    decreases |ps|
  {
    if ps == [] then qs == []
    else
      || (qs != [] && qs[0] == ps[0] && Thins(t, v, ps[1..], qs[1..]))
      || (Excluded(t, v, ps[0]) && Thins(t, v, ps[1..], qs))
  }

  /** The tree sorts the patterns: a leaf lists them, and child `v` of any other node sorts what the value
      `v` leaves of them. */
  ghost predicate Sorts(t: Tree, ps: seq<Pair>)
    decreases t, 1
  {
    if t.size == 0 then t.patterns == ps else forall v :: 0 <= v < |t.children| ==> SortsChild(t, v, ps)
  }

  ghost predicate SortsChild(t: Tree, v: nat, ps: seq<Pair>)
    requires v < |t.children|
    decreases t, 0
  {
    exists qs :: Thins(t, v, ps, qs) && Sorts(t.children[v], qs)
  }

  /** On the way down the bits can be read and there is a child for them. */
  ghost predicate Reaches(t: Tree, input: Input)
    decreases t
  {
    t.size == 0 || exists v :: 0 <= v < |t.children| && Selects(t, input, v) && Reaches(t.children[v], input)
  }

  lemma {:induction false} FirstShift(pairs: seq<Pair>, input: Input, i: nat)
    requires i < |pairs|
    ensures FirstMatch(pairs, input, i + 1) == FirstMatch(pairs[1..], input, i)
    decreases |pairs| - i
  {
    if i + 1 < |pairs| {
      FirstShift(pairs, input, i + 1);
    }
  }

  lemma {:induction false} ThinsKeeps(t: Tree, v: nat, ps: seq<Pair>, qs: seq<Pair>, input: Input)
    requires Thins(t, v, ps, qs) && Selects(t, input, v)
    ensures FirstMatch(ps, input, 0) == FirstMatch(qs, input, 0)
    decreases |ps|
  {
    if ps != [] {
      FirstShift(ps, input, 0);
      SatisfiedExactly(ps[0].pattern, input);
      if qs != [] && qs[0] == ps[0] && Thins(t, v, ps[1..], qs[1..]) {
        FirstShift(qs, input, 0);
        ThinsKeeps(t, v, ps[1..], qs[1..], input);
      } else {
        ThinsKeeps(t, v, ps[1..], qs, input);
      }
    }
  }

  /** In a tree that sorts a list of patterns the lookup finds the match of the list, for every input
      that reaches a leaf, and nothing for any other. */
  lemma {:induction false} LookupIsFirst(t: Tree, ps: seq<Pair>, input: Input)
    requires Sorts(t, ps)
    ensures Reaches(t, input) ==> Lookup(t, input) == FirstMatch(ps, input, 0)
    ensures !Reaches(t, input) ==> Lookup(t, input).None?
    decreases t
  {
    if t.size != 0 {
      var index := Branch(t.startBit, t.size, t.contextDecision, input);
      assert forall v: nat :: Selects(t, input, v) <==> index == Some(v);
      if index.Some? && index.value < |t.children| {
        var v := index.value;
        assert SortsChild(t, v, ps);
        var qs :| Thins(t, v, ps, qs) && Sorts(t.children[v], qs);
        ThinsKeeps(t, v, ps, qs, input);
        LookupIsFirst(t.children[v], qs, input);
      }
    }
  }
}
