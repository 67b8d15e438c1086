/** The generator's two passes: the first assigns table ids to subtables and constructors, the
    second emits constructors and decision trees; the ids of the first are the positions of the
    second (fugue-lifter-codegen/src/core.rs:53-56, 167-245, 457-511, 774-815). */
module LifterGenerators {
  import opened Prelude
  import opened DecisionTrees

  /** The id and scope of a subtable. */
  type Key = (nat, nat)

  /** The symbols that matter here: subtables with their constructors and decision tree. */
  datatype Symbol = Subtable(key: Key, ctors: seq<nat>, tree: Tree) | Other

  /** A constructor in the table, with the id it was given. */
  datatype FlatCtor = FlatCtor(id: nat, definition: nat)

  const U16_LIMIT: nat := 0x1_0000

  ghost predicate PairsKnown(pairs: seq<Pair>, count: nat)
  {
    forall i :: 0 <= i < |pairs| ==> pairs[i].id < count
  }

  /** Every pattern names a constructor of the subtable. */
  ghost predicate TreeKnown(t: Tree, count: nat)
  {
    PairsKnown(t.patterns, count) && forall i :: 0 <= i < |t.children| ==> TreeKnown(t.children[i], count)
  }

  /** What the symbol table guarantees: subtables have distinct keys, and their patterns name
      their own constructors. */
  ghost predicate Sound(symbols: seq<Symbol>)
  {
    && (forall i, j :: 0 <= i < j < |symbols| && symbols[i].Subtable? && symbols[j].Subtable? ==>
          symbols[i].key != symbols[j].key)
    && (forall i :: 0 <= i < |symbols| && symbols[i].Subtable? ==> TreeKnown(symbols[i].tree, |symbols[i].ctors|))
  }

  /** Decision nodes of the first `n` symbols. */
  function NodesBefore(symbols: seq<Symbol>, n: nat): nat
    requires n <= |symbols|
  {
    if n == 0 then 0
    else NodesBefore(symbols, n - 1) + if symbols[n - 1].Subtable? then CountChildren(symbols[n - 1].tree) + 1 else 0
  }

  /** Constructors of the first `n` symbols. */
  function CtorsBefore(symbols: seq<Symbol>, n: nat): nat
    requires n <= |symbols|
  {
    if n == 0 then 0
    else CtorsBefore(symbols, n - 1) + if symbols[n - 1].Subtable? then |symbols[n - 1].ctors| else 0
  }

  lemma {:induction false} BeforeMonotone(symbols: seq<Symbol>, i: nat, n: nat)
    requires i <= n <= |symbols|
    ensures NodesBefore(symbols, i) <= NodesBefore(symbols, n) && CtorsBefore(symbols, i) <= CtorsBefore(symbols, n)
    decreases n
  {
    if i < n {
      BeforeMonotone(symbols, i, n - 1);
    }
  }

  function FlatCtors(definitions: seq<nat>, first: nat): (r: seq<FlatCtor>)
    ensures |r| == |definitions|
  {
    seq(|definitions|, i requires 0 <= i < |definitions| => FlatCtor(first + i, definitions[i]))
  }

  /** The decision nodes the first `n` symbols become. */
  function AllNodes(symbols: seq<Symbol>, n: nat): (r: seq<FlatNode>)
    requires n <= |symbols|
    ensures |r| == NodesBefore(symbols, n)
  {
    if n == 0 then []
    else AllNodes(symbols, n - 1) + NodesOf(symbols, n - 1)
  }

  function NodesOf(symbols: seq<Symbol>, k: nat): (r: seq<FlatNode>)
    requires k < |symbols|
  {
    match symbols[k]
    case Other => []
    case Subtable(_, ctors, tree) => Flat(tree, NodesBefore(symbols, k), Naming(CtorsBefore(symbols, k)))
  }

  function AllCtors(symbols: seq<Symbol>, n: nat): (r: seq<FlatCtor>)
    requires n <= |symbols|
    ensures |r| == CtorsBefore(symbols, n)
  {
    if n == 0 then []
    else AllCtors(symbols, n - 1) + CtorsOf(symbols, n - 1)
  }

  function CtorsOf(symbols: seq<Symbol>, k: nat): (r: seq<FlatCtor>)
    requires k < |symbols|
  {
    match symbols[k]
    case Other => []
    case Subtable(_, ctors, _) => FlatCtors(ctors, CtorsBefore(symbols, k))
  }

  /** The first pass gave symbol `k` the ids it is emitted at. */
  ghost predicate Assigned(symbols: seq<Symbol>, k: nat, subtableIds: map<Key, nat>, ctorIds: map<(Key, nat), nat>)
    requires k < |symbols|
  {
    symbols[k].Subtable? ==>
      && symbols[k].key in subtableIds
      && subtableIds[symbols[k].key] == NodesBefore(symbols, k) + CountChildren(symbols[k].tree)
      && forall c :: 0 <= c < |symbols[k].ctors| ==>
           (symbols[k].key, c) in ctorIds && ctorIds[(symbols[k].key, c)] == CtorsBefore(symbols, k) + c
  }

  ghost predicate AllAssigned(symbols: seq<Symbol>, subtableIds: map<Key, nat>, ctorIds: map<(Key, nat), nat>)
  {
    forall k :: 0 <= k < |symbols| ==> Assigned(symbols, k, subtableIds, ctorIds)
  }

  /** The nodes and constructors of the first `n` symbols fit sixteen-bit ids. */
  ghost predicate Fits(symbols: seq<Symbol>, n: nat)
    requires n <= |symbols|
  {
    NodesBefore(symbols, n) <= U16_LIMIT && CtorsBefore(symbols, n) <= U16_LIMIT
  }

  /** Only the entries of one subtable have changed. */
  ghost predicate OthersKept(key: Key, subtables: map<Key, nat>, ctors: map<(Key, nat), nat>, subtables': map<Key, nat>,
                             ctors': map<(Key, nat), nat>)
  {
    && (forall k :: k in subtables && k != key ==> k in subtables' && subtables'[k] == subtables[k])
    && (forall k :: k in ctors && k.0 != key ==> k in ctors' && ctors'[k] == ctors[k])
  }

  lemma AssignedKept(symbols: seq<Symbol>, k: nat, n: nat, subtables: map<Key, nat>, ctors: map<(Key, nat), nat>,
                     subtables': map<Key, nat>, ctors': map<(Key, nat), nat>)
    requires k < n < |symbols| && Sound(symbols) && symbols[n].Subtable?
    requires Assigned(symbols, k, subtables, ctors) && OthersKept(symbols[n].key, subtables, ctors, subtables', ctors')
    ensures Assigned(symbols, k, subtables', ctors')
  {
  }

  class Tables {
    var ctors: seq<FlatCtor>
    var dtrees: seq<FlatNode>
    var subtableIds: map<Key, nat>
    var ctorIds: map<(Key, nat), nat>

    constructor ()
      ensures ctors == [] && dtrees == [] && subtableIds == map[] && ctorIds == map[]
    {
      ctors, dtrees, subtableIds, ctorIds := [], [], map[], map[];
    }

    /** The first pass. */
    method AssignIds(symbols: seq<Symbol>)
      requires Sound(symbols)
      modifies this`subtableIds, this`ctorIds
      ensures AllAssigned(symbols, subtableIds, ctorIds)
    {
      var ctorIdx: nat, subtableIdx: nat := 0, 0;
      for n := 0 to |symbols|
        invariant ctorIdx == CtorsBefore(symbols, n) && subtableIdx == NodesBefore(symbols, n)
        invariant forall k :: 0 <= k < n ==> Assigned(symbols, k, subtableIds, ctorIds)
      {
        ghost var wasTables, wasCtors := subtableIds, ctorIds;
        match symbols[n]
        case Other =>
        case Subtable(key, definitions, tree) =>
          var offset := subtableIdx + CountChildren(tree);
          subtableIds := subtableIds[key := offset];
          subtableIdx := offset + 1;
          for c := 0 to |definitions|
            invariant ctorIdx == CtorsBefore(symbols, n) + c
            invariant subtableIds == wasTables[key := offset]
            invariant OthersKept(key, wasTables, wasCtors, subtableIds, ctorIds)
            invariant forall b :: 0 <= b < c ==> (key, b) in ctorIds && ctorIds[(key, b)] == CtorsBefore(symbols, n) + b
          {
            ctorIds := ctorIds[(key, c) := ctorIdx];
            ctorIdx := ctorIdx + 1;
          }
          forall k | 0 <= k < n
            ensures Assigned(symbols, k, subtableIds, ctorIds)
          {
            AssignedKept(symbols, k, n, wasTables, wasCtors, subtableIds, ctorIds);
          }
      }
    }

    /** A constructor's table index, which has to fit sixteen bits. */
    function CtorFor(key: Key, c: nat): Option<nat>
      reads this
      requires (key, c) in ctorIds
    {
      if ctorIds[(key, c)] < U16_LIMIT then Some(ctorIds[(key, c)]) else None
    }

    /** The constructors of a subtable, in order. */
    method GenerateConstructors(key: Key, definitions: seq<nat>, ghost first: nat) returns (ok: bool)
      requires forall c :: 0 <= c < |definitions| ==> (key, c) in ctorIds && ctorIds[(key, c)] == first + c
      modifies this`ctors
      ensures ok == (|definitions| == 0 || first + |definitions| <= U16_LIMIT)
      ensures ok ==> ctors == old(ctors) + FlatCtors(definitions, first)
    {
      for c := 0 to |definitions|
        invariant c > 0 ==> first + c <= U16_LIMIT
        invariant ctors == old(ctors) + FlatCtors(definitions, first)[..c]
      {
        var id := CtorFor(key, c);
        if id.None? {
          return false;
        }
        ctors := ctors + [FlatCtor(id.value, definitions[c])];
        assert FlatCtors(definitions, first)[..c + 1] == FlatCtors(definitions, first)[..c] + [FlatCtor(first + c, definitions[c])];
      }
      assert FlatCtors(definitions, first)[..|definitions|] == FlatCtors(definitions, first);
      ok := true;
    }

    method GeneratePatterns(key: Key, pairs: seq<Pair>, ghost first: nat, ghost count: nat) returns (r: seq<FlatPair>)
      requires Numbered(key, first, count, ctorIds) && PairsKnown(pairs, count)
      ensures r == FlatPairs(pairs, Naming(first))
    {
      r := [];
      for i := 0 to |pairs|
        invariant r == FlatPairs(pairs, Naming(first))[..i]
      {
        assert pairs[i].id < count;
        assert CtorFor(key, pairs[i].id).Some?;
        r := r + [FlatPair(ctorIds[(key, pairs[i].id)], pairs[i].pattern)];
      }
    }

    /** Emits the children, then the node; answers the node's id if it fits. */
    method GenerateTree(key: Key, t: Tree, ghost first: nat, ghost count: nat) returns (id: Option<nat>)
      requires Numbered(key, first, count, ctorIds) && TreeKnown(t, count)
      modifies this`dtrees
      ensures id.Some? <==> |old(dtrees)| + CountChildren(t) < U16_LIMIT
      ensures id.Some? ==> id.value == |old(dtrees)| + CountChildren(t)
      ensures id.Some? ==> dtrees == old(dtrees) + Flat(t, |old(dtrees)|, Naming(first))
      decreases t
    {
      var at := |dtrees|;
      var patterns := GeneratePatterns(key, t.patterns, first, count);
      var children: seq<nat> := [];
      for i := 0 to |t.children|
        invariant i > 0 ==> at + CountFirst(t, i) <= U16_LIMIT
        invariant ChildrenOut(t, i, Naming(first), old(dtrees), children, dtrees)
      {
        assert TreeKnown(t.children[i], count);
        ChildOut(t, i, Naming(first), old(dtrees), children, dtrees);
        var child := GenerateTree(key, t.children[i], first, count);
        if child.None? {
          TooMany(t, i, at);
          return None;
        }
        children := children + [child.value];
      }
      dtrees := dtrees + [FlatNode(t.startBit, t.size, t.contextDecision, patterns, children)];
      id := if at + CountChildren(t) < U16_LIMIT then Some(at + CountChildren(t)) else None;
    }

    /** Constructors first, since the trees refer to them. */
    method GenerateSubtable(symbols: seq<Symbol>, k: nat) returns (ok: bool)
      requires Sound(symbols) && k < |symbols| && symbols[k].Subtable? && Assigned(symbols, k, subtableIds, ctorIds)
      requires |dtrees| == NodesBefore(symbols, k)
      modifies this`ctors, this`dtrees
      ensures ok == SubtableFits(symbols, k)
      ensures ok ==> ctors == old(ctors) + CtorsOf(symbols, k) && dtrees == old(dtrees) + NodesOf(symbols, k)
    {
      var s := symbols[k];
      ghost var first := CtorsBefore(symbols, k);
      ok := GenerateConstructors(s.key, s.ctors, first);
      if ok {
        var id := GenerateTree(s.key, s.tree, first, |s.ctors|);
        ok := id.Some?;
      }
    }

    /** Both passes over the symbols. Generation succeeds exactly when the nodes and constructors
        fit sixteen-bit ids. */
    method Build(symbols: seq<Symbol>) returns (ok: bool)
      requires Sound(symbols) && ctors == [] && dtrees == []
      modifies this
      ensures ok <==> Fits(symbols, |symbols|)
      ensures AllAssigned(symbols, subtableIds, ctorIds)
      ensures ok ==> dtrees == AllNodes(symbols, |symbols|) && ctors == AllCtors(symbols, |symbols|)
    {
      AssignIds(symbols);
      for n := 0 to |symbols|
        invariant AllAssigned(symbols, subtableIds, ctorIds)
        invariant BuiltTo(symbols, n, dtrees, ctors)
      {
        BuiltNext(symbols, n, dtrees, ctors);
        if symbols[n].Subtable? {
          assert Assigned(symbols, n, subtableIds, ctorIds);
          ok := GenerateSubtable(symbols, n);
          if !ok {
            return;
          }
        }
      }
      ok := true;
    }
  }

  /** The constructors and nodes of subtable `k` fit sixteen bits. */
  predicate SubtableFits(symbols: seq<Symbol>, k: nat)
    requires k < |symbols| && symbols[k].Subtable?
  {
    && (symbols[k].ctors == [] || CtorsBefore(symbols, k) + |symbols[k].ctors| <= U16_LIMIT)
    && NodesBefore(symbols, k) + CountChildren(symbols[k].tree) < U16_LIMIT
  }

  /** The constructors of a subtable are numbered from `first` on, all within sixteen bits. */
  ghost predicate Numbered(key: Key, first: nat, count: nat, ctorIds: map<(Key, nat), nat>)
  {
    forall c :: 0 <= c < count ==> (key, c) in ctorIds && ctorIds[(key, c)] == first + c < U16_LIMIT
  }

  /** The first `i` children of a tree have been emitted after `before`, with these ids. */
  ghost predicate ChildrenOut(t: Tree, i: nat, names: Naming, before: seq<FlatNode>, ids: seq<nat>, dtrees: seq<FlatNode>)
    requires i <= |t.children|
  {
    ids == ChildIds(t, |before|, i) && dtrees == before + FlatFirst(t, i, |before|, names)
  }

  lemma ChildOut(t: Tree, i: nat, names: Naming, before: seq<FlatNode>, ids: seq<nat>, dtrees: seq<FlatNode>)
    requires i < |t.children| && ChildrenOut(t, i, names, before, ids, dtrees)
    ensures |dtrees| == |before| + CountFirst(t, i)
    ensures ChildrenOut(t, i + 1, names, before, ids + [|dtrees| + CountChildren(t.children[i])],
                        dtrees + Flat(t.children[i], |dtrees|, names))
  {
    assert ChildIds(t, |before|, i + 1) == ChildIds(t, |before|, i) + [ChildId(t, |before|, i)];
    Joined(before, FlatFirst(t, i, |before|, names), Flat(t.children[i], |dtrees|, names));
  }

  lemma Joined(a: seq<FlatNode>, b: seq<FlatNode>, c: seq<FlatNode>)
    ensures a + b + c == a + (b + c)
  {
  }

  lemma TooMany(t: Tree, i: nat, at: nat)
    requires i < |t.children| && at + CountFirst(t, i) + CountChildren(t.children[i]) >= U16_LIMIT
    ensures at + CountChildren(t) >= U16_LIMIT
  {
    CountMonotone(t, i, |t.children|);
  }

  /** The tables hold what the first `n` symbols become, which fits. */
  ghost predicate BuiltTo(symbols: seq<Symbol>, n: nat, dtrees: seq<FlatNode>, ctors: seq<FlatCtor>)
    requires n <= |symbols|
  {
    dtrees == AllNodes(symbols, n) && ctors == AllCtors(symbols, n) && Fits(symbols, n)
  }

  lemma BuiltNext(symbols: seq<Symbol>, n: nat, dtrees: seq<FlatNode>, ctors: seq<FlatCtor>)
    requires n < |symbols| && BuiltTo(symbols, n, dtrees, ctors)
    ensures |dtrees| == NodesBefore(symbols, n)
    ensures symbols[n].Other? ==> BuiltTo(symbols, n + 1, dtrees, ctors)
    ensures symbols[n].Subtable? && SubtableFits(symbols, n) ==>
              BuiltTo(symbols, n + 1, dtrees + NodesOf(symbols, n), ctors + CtorsOf(symbols, n))
    ensures symbols[n].Subtable? && !SubtableFits(symbols, n) ==> !Fits(symbols, |symbols|)
  {
    if symbols[n].Subtable? {
      FitsNext(symbols, n);
      BeforeMonotone(symbols, n + 1, |symbols|);
    }
  }

  lemma FitsNext(symbols: seq<Symbol>, n: nat)
    requires n < |symbols| && symbols[n].Subtable? && Fits(symbols, n)
    ensures SubtableFits(symbols, n) <==> Fits(symbols, n + 1)
  {
  }

  // ---- what the tables mean ----

  ghost predicate NodesAt(symbols: seq<Symbol>, k: nat, all: seq<FlatNode>)
    requires k < |symbols|
  {
    Sits(all, NodesBefore(symbols, k), NodesOf(symbols, k))
  }

  lemma {:induction false} NodesSit(symbols: seq<Symbol>, k: nat, n: nat)
    requires k < n <= |symbols|
    ensures NodesAt(symbols, k, AllNodes(symbols, n))
    decreases n
  {
    if k < n - 1 {
      NodesSit(symbols, k, n - 1);
      NodesStay(symbols, k, AllNodes(symbols, n - 1), NodesOf(symbols, n - 1));
    } else {
      NodesLast(symbols, k, AllNodes(symbols, k));
    }
  }

  lemma NodesStay(symbols: seq<Symbol>, k: nat, before: seq<FlatNode>, more: seq<FlatNode>)
    requires k < |symbols| && NodesAt(symbols, k, before)
    ensures NodesAt(symbols, k, before + more)
  {
    SitsBefore(before, more, NodesBefore(symbols, k), NodesOf(symbols, k));
  }

  lemma NodesLast(symbols: seq<Symbol>, k: nat, before: seq<FlatNode>)
    requires k < |symbols| && |before| == NodesBefore(symbols, k)
    ensures NodesAt(symbols, k, before + NodesOf(symbols, k))
  {
    SitsLast(before, NodesOf(symbols, k));
  }

  lemma SitsBefore(trees: seq<FlatNode>, more: seq<FlatNode>, at: nat, part: seq<FlatNode>)
    requires Sits(trees, at, part)
    ensures Sits(trees + more, at, part)
  {
    assert (trees + more)[at..at + |part|] == trees[at..at + |part|];
  }

  lemma SitsLast(trees: seq<FlatNode>, more: seq<FlatNode>)
    ensures Sits(trees + more, |trees|, more)
  {
  }

  lemma {:induction false} NodesDescend(symbols: seq<Symbol>, n: nat)
    requires n <= |symbols|
    ensures DescendingFrom(AllNodes(symbols, n), 0)
    decreases n
  {
    if n > 0 {
      NodesDescend(symbols, n - 1);
      match symbols[n - 1] {
        case Other =>
        case Subtable(_, _, tree) =>
          FlatDescends(tree, NodesBefore(symbols, n - 1), Naming(CtorsBefore(symbols, n - 1)));
      }
      DescendingJoin(AllNodes(symbols, n - 1), NodesOf(symbols, n - 1), 0);
    }
  }

  lemma {:induction false} CtorsSit(symbols: seq<Symbol>, k: nat, n: nat, c: nat)
    requires k < n <= |symbols| && symbols[k].Subtable? && c < |symbols[k].ctors|
    ensures var at := CtorsBefore(symbols, k) + c;
            at < |AllCtors(symbols, n)| && AllCtors(symbols, n)[at] == FlatCtor(at, symbols[k].ctors[c])
    decreases n
  {
    if k < n - 1 {
      CtorsSit(symbols, k, n - 1, c);
    }
  }

  /** What the generated tables promise: from the id the first pass gave a subtable, the flat
      lookup (whose children all lie below their parents) finds the table entry of exactly the
      constructor the recursive lookup finds in the source tree, and that entry holds it. */
  lemma TablesMeanTrees(symbols: seq<Symbol>, k: nat, subtableIds: map<Key, nat>, ctorIds: map<(Key, nat), nat>,
                        input: Input)
    requires Sound(symbols) && k < |symbols| && symbols[k].Subtable? && Assigned(symbols, k, subtableIds, ctorIds)
    ensures Descending(AllNodes(symbols, |symbols|)) && subtableIds[symbols[k].key] < |AllNodes(symbols, |symbols|)|
    ensures FlatLookup(AllNodes(symbols, |symbols|), subtableIds[symbols[k].key], input) ==
            match Lookup(symbols[k].tree, input) { case None => None case Some(c) => Some(CtorsBefore(symbols, k) + c) }
    ensures var r := Lookup(symbols[k].tree, input);
            r.Some? ==>
              && r.value < |symbols[k].ctors| && (symbols[k].key, r.value) in ctorIds
              && var id := ctorIds[(symbols[k].key, r.value)];
                 && id == CtorsBefore(symbols, k) + r.value < |AllCtors(symbols, |symbols|)|
                 && AllCtors(symbols, |symbols|)[id] == FlatCtor(id, symbols[k].ctors[r.value])
  {
    TablesLookUp(symbols, k, subtableIds[symbols[k].key], input);
    var r := Lookup(symbols[k].tree, input);
    if r.Some? {
      LookupKnown(symbols[k].tree, |symbols[k].ctors|, input);
      CtorsSit(symbols, k, |symbols|, r.value);
    }
  }

  lemma TablesLookUp(symbols: seq<Symbol>, k: nat, root: nat, input: Input)
    requires k < |symbols| && symbols[k].Subtable?
    requires root == NodesBefore(symbols, k) + CountChildren(symbols[k].tree)
    ensures LooksUp(AllNodes(symbols, |symbols|), root, input,
                    Renamed(Naming(CtorsBefore(symbols, k)), Lookup(symbols[k].tree, input)))
  {
    TablesDescend(symbols);
    NodesSit(symbols, k, |symbols|);
    SubtableLooksUp(symbols, k, AllNodes(symbols, |symbols|), root, input);
  }

  ghost predicate EmittedAt(all: seq<FlatNode>, t: Tree, at: nat, names: Naming)
  {
    Sits(all, at, Flat(t, at, names))
  }

  /** From `root` on, the flat lookup finds `r`. */
  ghost predicate LooksUp(all: seq<FlatNode>, root: nat, input: Input, r: Option<nat>)
  {
    Descending(all) && root < |all| && FlatLookup(all, root, input) == r
  }

  lemma SubtableEmitted(symbols: seq<Symbol>, k: nat, all: seq<FlatNode>)
    requires k < |symbols| && symbols[k].Subtable? && NodesAt(symbols, k, all)
    ensures EmittedAt(all, symbols[k].tree, NodesBefore(symbols, k), Naming(CtorsBefore(symbols, k)))
  {
  }

  lemma SubtableLooksUp(symbols: seq<Symbol>, k: nat, all: seq<FlatNode>, root: nat, input: Input)
    requires k < |symbols| && symbols[k].Subtable? && NodesAt(symbols, k, all) && Descending(all)
    requires root == NodesBefore(symbols, k) + CountChildren(symbols[k].tree)
    ensures LooksUp(all, root, input, Renamed(Naming(CtorsBefore(symbols, k)), Lookup(symbols[k].tree, input)))
  {
    SubtableEmitted(symbols, k, all);
    RootLooksUp(all, symbols[k].tree, NodesBefore(symbols, k), Naming(CtorsBefore(symbols, k)), root, input);
  }

  lemma RootLooksUp(all: seq<FlatNode>, t: Tree, at: nat, names: Naming, root: nat, input: Input)
    requires Descending(all) && EmittedAt(all, t, at, names) && root == at + CountChildren(t)
    ensures LooksUp(all, root, input, Renamed(names, Lookup(t, input)))
  {
    FlatLookupAgrees(all, t, at, names, input);
  }

  lemma TablesDescend(symbols: seq<Symbol>)
    ensures Descending(AllNodes(symbols, |symbols|))
  {
    NodesDescend(symbols, |symbols|);
    DescendingFromZero(AllNodes(symbols, |symbols|));
  }

  lemma DescendingFromZero(all: seq<FlatNode>)
    requires DescendingFrom(all, 0)
    ensures Descending(all)
  {
    forall i | 0 <= i < |all|
      ensures Below(all[i], i)
    {
      assert Below(all[i], 0 + i);
    }
  }

  lemma {:induction false} MatchKnown(pairs: seq<Pair>, count: nat, input: Input, i: nat)
    requires i <= |pairs| && PairsKnown(pairs, count)
    ensures var r := FirstMatch(pairs, input, i); r.Some? ==> r.value < count
    decreases |pairs| - i
  {
    if i < |pairs| {
      MatchKnown(pairs, count, input, i + 1);
    }
  }

  lemma {:induction false} LookupKnown(t: Tree, count: nat, input: Input)
    requires TreeKnown(t, count)
    ensures var r := Lookup(t, input); r.Some? ==> r.value < count
    decreases t
  {
    if t.size == 0 {
      MatchKnown(t.patterns, count, input, 0);
    } else {
      var index := Branch(t.startBit, t.size, t.contextDecision, input);
      if index.Some? && index.value < |t.children| {
        LookupKnown(t.children[index.value], count, input);
      }
    }
  }
}
