/** Decision trees, their flat form, and the lookup in both
    (fugue-sleigh-language/src/symbol/sub_table.rs:347-385, fugue-lifter-codegen/src/core.rs:774-815,
    fugue-lifter-runtime/src/resolve.rs:6-134). */
module DecisionTrees {
  import opened Prelude
  import opened Words

  // ---- patterns ----

  datatype Pattern = Pattern(offset: nat, nonZeroSize: Option<nat>, masks: seq<Word>, values: seq<Word>)

  datatype DisjointPattern =
    | ContextPattern(context: Pattern)
    | InstructionPattern(instruction: Pattern)
    | Combine(context: Pattern, instruction: Pattern)

  /** What the decoder can read at the point of the lookup; reads past the instruction fail. */
  datatype Input = Input(
    contextBits: (nat, nat) -> nat,
    instructionBits: (nat, nat) -> Option<nat>,
    contextBytes: nat -> Option<Word>,
    instructionBytes: nat -> Option<Word>)

  /** The four bytes at `offset` carry the value under the mask. */
  predicate WordMatches(bytes: Option<Word>, mask: Word, value: Word)
  {
    bytes.Some? && AndW(bytes.value, mask) == value
  }

  predicate BlockMatches(p: Pattern, get: nat -> Option<Word>)
  {
    forall i :: 0 <= i < |p.masks| && i < |p.values| ==> WordMatches(get(p.offset + 4 * i), p.masks[i], p.values[i])
  }

  /** A pattern matches always, never, or when all its words do. */
  predicate Matches(p: Pattern, get: nat -> Option<Word>)
  {
    p.nonZeroSize == Some(0) || (p.nonZeroSize.Some? && BlockMatches(p, get))
  }

  method MatchPattern(p: Pattern, get: nat -> Option<Word>) returns (matches: bool)
    ensures matches == Matches(p, get)
  {
    if p.nonZeroSize == Some(0) {
      return true;
    }
    if p.nonZeroSize == None {
      return false;
    }
    var i := 0;
    while i < |p.masks| && i < |p.values|
      invariant 0 <= i <= |p.masks| && i <= |p.values|
      invariant forall k :: 0 <= k < i ==> WordMatches(get(p.offset + 4 * k), p.masks[k], p.values[k])
    {
      if !WordMatches(get(p.offset + 4 * i), p.masks[i], p.values[i]) {
        return false;
      }
      i := i + 1;
    }
    matches := true;
  }

  predicate DisjointMatches(d: DisjointPattern, input: Input)
  {
    match d
    case ContextPattern(c) => Matches(c, input.contextBytes)
    case InstructionPattern(i) => Matches(i, input.instructionBytes)
    case Combine(c, i) => Matches(c, input.contextBytes) && Matches(i, input.instructionBytes)
  }

  // ---- trees ----

  /** A pattern and the index of its constructor within the subtable. */
  datatype Pair = Pair(id: nat, pattern: DisjointPattern)

  datatype Tree = Node(startBit: nat, size: nat, contextDecision: bool, patterns: seq<Pair>, children: seq<Tree>)

  function FirstMatch(pairs: seq<Pair>, input: Input, i: nat): (r: Option<nat>)
    requires i <= |pairs|
    decreases |pairs| - i
  {
    if i == |pairs| then None
    else if DisjointMatches(pairs[i].pattern, input) then Some(pairs[i].id)
    else FirstMatch(pairs, input, i + 1)
  }

  function Branch(startBit: nat, size: nat, contextDecision: bool, input: Input): Option<nat>
  {
    if contextDecision then Some(input.contextBits(startBit, size)) else input.instructionBits(startBit, size)
  }

  /** The recursive lookup: at a node of size zero the first matching pattern, elsewhere the child
      that the bits select, if there is one. */
  function Lookup(t: Tree, input: Input): Option<nat>
  {
    if t.size == 0 then FirstMatch(t.patterns, input, 0)
    else
      match Branch(t.startBit, t.size, t.contextDecision, input)
      case None => None
      case Some(index) => if index < |t.children| then Lookup(t.children[index], input) else None
  }

  /** The number of proper descendants. */
  function CountChildren(t: Tree): nat
    decreases t, |t.children| + 1
  {
    CountFirst(t, |t.children|)
  }

  function CountFirst(t: Tree, n: nat): nat
    requires n <= |t.children|
    decreases t, n
  {
    if n == 0 then 0 else CountFirst(t, n - 1) + 1 + CountChildren(t.children[n - 1])
  }

  // ---- the flat form ----

  datatype FlatPair = FlatPair(constructor_: nat, pattern: DisjointPattern)

  datatype FlatNode =
    FlatNode(startBit: nat, size: nat, contextDecision: bool, patterns: seq<FlatPair>, children: seq<nat>)

  /** Which table entries the constructors of a subtable become: consecutive ones. */
  datatype Naming = Naming(first: nat)

  function Rename(names: Naming, id: nat): nat
  {
    names.first + id
  }

  function FlatPairs(pairs: seq<Pair>, names: Naming): (r: seq<FlatPair>)
    ensures |r| == |pairs|
  {
    seq(|pairs|, i requires 0 <= i < |pairs| => FlatPair(Rename(names, pairs[i].id), pairs[i].pattern))
  }

  /** Where the root of child `i` goes when emission starts at `at`. */
  function ChildId(t: Tree, at: nat, i: nat): nat
    requires i < |t.children|
  {
    at + CountFirst(t, i) + CountChildren(t.children[i])
  }

  function ChildIds(t: Tree, at: nat, n: nat): (r: seq<nat>)
    requires n <= |t.children|
    ensures |r| == n
  {
    seq(n, i requires 0 <= i < n => ChildId(t, at, i))
  }

  function FlatRoot(t: Tree, at: nat, names: Naming): FlatNode
  {
    FlatNode(t.startBit, t.size, t.contextDecision, FlatPairs(t.patterns, names), ChildIds(t, at, |t.children|))
  }

  /** The nodes of a tree, children before their parent, emitted from index `at` on. */
  function Flat(t: Tree, at: nat, names: Naming): (r: seq<FlatNode>)
    ensures |r| == CountChildren(t) + 1
    decreases t, |t.children| + 1
  {
    FlatFirst(t, |t.children|, at, names) + [FlatRoot(t, at, names)]
  }

  function FlatFirst(t: Tree, n: nat, at: nat, names: Naming): (r: seq<FlatNode>)
    requires n <= |t.children|
    ensures |r| == CountFirst(t, n)
    decreases t, n
  {
    if n == 0 then []
    else FlatFirst(t, n - 1, at, names) + Flat(t.children[n - 1], at + CountFirst(t, n - 1), names)
  }

  /** Every child of the node at index `at` lies before it. */
  ghost predicate Below(n: FlatNode, at: nat)
  {
    forall i :: 0 <= i < |n.children| ==> n.children[i] < at
  }

  /** Every child comes before its parent. */
  ghost predicate Descending(trees: seq<FlatNode>)
  {
    forall k :: 0 <= k < |trees| ==> Below(trees[k], k)
  }

  function FlatFirstMatch(pairs: seq<FlatPair>, input: Input, i: nat): (r: Option<nat>)
    requires i <= |pairs|
    decreases |pairs| - i
  {
    if i == |pairs| then None
    else if DisjointMatches(pairs[i].pattern, input) then Some(pairs[i].constructor_)
    else FlatFirstMatch(pairs, input, i + 1)
  }

  /** The lookup in the flat table, from the node at `id`. */
  function FlatLookup(trees: seq<FlatNode>, id: nat, input: Input): Option<nat>
    requires Descending(trees) && id < |trees|
    decreases id
  {
    var n := trees[id];
    if n.size == 0 then FlatFirstMatch(n.patterns, input, 0)
    else
      match Branch(n.startBit, n.size, n.contextDecision, input)
      case None => None
      case Some(index) =>
        if index < |n.children| then assert Below(n, id); FlatLookup(trees, n.children[index], input) else None
  }

  /** The lookup loop: it ends because a child's index is below its parent's. */
  method Resolve(trees: seq<FlatNode>, id: nat, input: Input) returns (r: Option<nat>)
    requires Descending(trees) && id < |trees|
    ensures r == FlatLookup(trees, id, input)
  {
    var curr: nat := id;
    while trees[curr].size != 0
      invariant curr < |trees| && FlatLookup(trees, curr, input) == FlatLookup(trees, id, input)
      decreases curr
    {
      var n := trees[curr];
      var index := Branch(n.startBit, n.size, n.contextDecision, input);
      if index.None? || index.value >= |n.children| {
        return None;
      }
      assert Below(n, curr);
      curr := n.children[index.value];
    }
    var pairs := trees[curr].patterns;
    for i := 0 to |pairs|
      invariant FlatFirstMatch(pairs, input, i) == FlatLookup(trees, id, input)
    {
      if DisjointMatches(pairs[i].pattern, input) {
        return Some(pairs[i].constructor_);
      }
    }
    r := None;
  }

  // ---- the flat form means the tree ----

  function Renamed(names: Naming, r: Option<nat>): Option<nat>
  {
    match r
    case None => None
    case Some(id) => Some(Rename(names, id))
  }

  lemma {:induction false} SameFirstMatch(pairs: seq<Pair>, names: Naming, input: Input, i: nat)
    requires i <= |pairs|
    ensures FlatFirstMatch(FlatPairs(pairs, names), input, i) == Renamed(names, FirstMatch(pairs, input, i))
    decreases |pairs| - i
  {
    if i < |pairs| {
      SameFirstMatch(pairs, names, input, i + 1);
    }
  }

  /** The part of a table from `at` on. */
  ghost predicate Sits(trees: seq<FlatNode>, at: nat, part: seq<FlatNode>)
  {
    at + |part| <= |trees| && trees[at..at + |part|] == part
  }

  lemma SitsSplit(trees: seq<FlatNode>, at: nat, x: seq<FlatNode>, y: seq<FlatNode>)
    requires Sits(trees, at, x + y)
    ensures Sits(trees, at, x) && Sits(trees, at + |x|, y)
  {
    assert trees[at..at + |x + y|][..|x|] == trees[at..at + |x|];
    assert trees[at..at + |x + y|][|x|..] == trees[at + |x|..at + |x| + |y|];
  }

  /** The children of an emitted tree are emitted trees. */
  lemma {:induction false} ChildSits(trees: seq<FlatNode>, t: Tree, n: nat, at: nat, names: Naming, i: nat)
    requires i < n <= |t.children| && Sits(trees, at, FlatFirst(t, n, at, names))
    ensures Sits(trees, at + CountFirst(t, i), Flat(t.children[i], at + CountFirst(t, i), names))
    decreases n
  {
    SitsSplit(trees, at, FlatFirst(t, n - 1, at, names), Flat(t.children[n - 1], at + CountFirst(t, n - 1), names));
    if i < n - 1 {
      ChildSits(trees, t, n - 1, at, names, i);
    }
  }

  lemma RootSits(trees: seq<FlatNode>, t: Tree, at: nat, names: Naming)
    requires Sits(trees, at, Flat(t, at, names))
    ensures Sits(trees, at, FlatFirst(t, |t.children|, at, names))
    ensures at + CountChildren(t) < |trees| && trees[at + CountChildren(t)] == FlatRoot(t, at, names)
  {
    SitsSplit(trees, at, FlatFirst(t, |t.children|, at, names), [FlatRoot(t, at, names)]);
    assert trees[at + CountChildren(t)..at + CountChildren(t) + 1][0] == FlatRoot(t, at, names);
  }

  /** Wherever a tree was emitted, the flat lookup from its root is the recursive lookup. */
  lemma {:induction false} FlatLookupAgrees(trees: seq<FlatNode>, t: Tree, at: nat, names: Naming, input: Input)
    requires Descending(trees) && Sits(trees, at, Flat(t, at, names))
    ensures at + CountChildren(t) < |trees|
    ensures FlatLookup(trees, at + CountChildren(t), input) == Renamed(names, Lookup(t, input))
    decreases t
  {
    RootSits(trees, t, at, names);
    if t.size == 0 {
      LeafAgrees(trees, t, at, names, at + CountChildren(t), input);
    } else {
      var index := Branch(t.startBit, t.size, t.contextDecision, input);
      if index.Some? && index.value < |t.children| {
        ChildSits(trees, t, |t.children|, at, names, index.value);
        FlatLookupAgrees(trees, t.children[index.value], at + CountFirst(t, index.value), names, input);
      }
      BranchAgrees(trees, t, at, names, at + CountChildren(t), input, index);
    }
  }

  lemma LeafAgrees(trees: seq<FlatNode>, t: Tree, at: nat, names: Naming, id: nat, input: Input)
    requires Descending(trees) && id < |trees| && trees[id] == FlatRoot(t, at, names) && t.size == 0
    ensures FlatLookup(trees, id, input) == Renamed(names, Lookup(t, input))
  {
    SameFirstMatch(t.patterns, names, input, 0);
  }

  lemma BranchAgrees(trees: seq<FlatNode>, t: Tree, at: nat, names: Naming, id: nat, input: Input, index: Option<nat>)
    requires Descending(trees) && id < |trees| && trees[id] == FlatRoot(t, at, names) && t.size != 0
    requires index == Branch(t.startBit, t.size, t.contextDecision, input)
    requires index.Some? && index.value < |t.children| ==>
               && ChildId(t, at, index.value) < |trees|
               && FlatLookup(trees, ChildId(t, at, index.value), input) == Renamed(names, Lookup(t.children[index.value], input))
    ensures FlatLookup(trees, id, input) == Renamed(names, Lookup(t, input))
  {
    assert Below(trees[id], id);
  }

  // ---- emission keeps children below parents ----

  ghost predicate DescendingFrom(part: seq<FlatNode>, at: nat)
  {
    forall k :: 0 <= k < |part| ==> Below(part[k], at + k)
  }

  lemma DescendingJoin(x: seq<FlatNode>, y: seq<FlatNode>, at: nat)
    requires DescendingFrom(x, at) && DescendingFrom(y, at + |x|)
    ensures DescendingFrom(x + y, at)
  {
    forall k | 0 <= k < |x + y|
      ensures Below((x + y)[k], at + k)
    {
      if k >= |x| {
        assert Below(y[k - |x|], at + |x| + (k - |x|));
      } else {
        assert Below(x[k], at + k);
      }
    }
  }

  lemma {:induction false} CountMonotone(t: Tree, i: nat, n: nat)
    requires i < n <= |t.children|
    ensures CountFirst(t, i) + CountChildren(t.children[i]) < CountFirst(t, n)
    decreases n
  {
    if i < n - 1 {
      CountMonotone(t, i, n - 1);
    }
  }

  lemma {:induction false} FlatDescends(t: Tree, at: nat, names: Naming)
    ensures DescendingFrom(Flat(t, at, names), at)
    decreases t, |t.children| + 1
  {
    FlatFirstDescends(t, |t.children|, at, names);
    var root := FlatRoot(t, at, names);
    forall i | 0 <= i < |root.children|
      ensures root.children[i] < at + CountChildren(t)
    {
      CountMonotone(t, i, |t.children|);
    }
    assert Below(root, at + CountChildren(t));
    DescendingJoin(FlatFirst(t, |t.children|, at, names), [root], at);
  }

  lemma {:induction false} FlatFirstDescends(t: Tree, n: nat, at: nat, names: Naming)
    requires n <= |t.children|
    ensures DescendingFrom(FlatFirst(t, n, at, names), at)
    decreases t, n
  {
    if n > 0 {
      FlatFirstDescends(t, n - 1, at, names);
      FlatDescends(t.children[n - 1], at + CountFirst(t, n - 1), names);
      DescendingJoin(FlatFirst(t, n - 1, at, names), Flat(t.children[n - 1], at + CountFirst(t, n - 1), names), at);
    }
  }
}
