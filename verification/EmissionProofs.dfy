/** Label hygiene: instances take disjoint label ranges, and resolving the labels of what was
    issued gives the code the templates mean
    (fugue-lifter-runtime/src/template.rs:32-51, 289-369, fugue-lifter-runtime/src/pcode.rs:614-638). */
module EmissionProofs {
  import opened Prelude
  import opened PCode
  import opened Emission

  // ---- sizes ----

  lemma CoreLength(i: OpTpl, x: U64, y: U64)
    requires i.Issue?
    ensures |Encode(Core(i, x))| == |Encode(Core(i, y))|
  {
    PackedLength(Core(i, x).inputs);
    PackedLength(Core(i, y).inputs);
  }

  lemma IssueParts(i: OpTpl, x: U64)
    requires i.Issue?
    ensures EncodeAll(IssueCode(i, x)) == EncodeAll(Loads(i.inputs)) + Encode(Core(i, x)) + EncodeAll(Stores(i))
  {
    EncodeAllAppend(Loads(i.inputs) + [Core(i, x)], Stores(i));
    EncodeAllAppend(Loads(i.inputs), [Core(i, x)]);
    EncodeOne(Core(i, x));
  }

  lemma IssueLength(i: OpTpl, x: U64)
    requires i.Issue?
    ensures Len(IssueCode(i, x)) == IssueSize(i)
  {
    IssueParts(i, x);
    IssueParts(i, 0);
    CoreLength(i, x, 0);
  }

  lemma {:induction false} EmitLength(t: Tpl, p: nat, c: nat)
    ensures Len(Emit(t, p, c).code) == Size(t)
    decreases t, |t.ops| + 1
  {
    EmitOpsLength(t, p, c, |t.ops|);
  }

  lemma {:induction false} EmitOpsLength(t: Tpl, p: nat, c: nat, n: nat)
    requires n <= |t.ops|
    ensures Len(EmitOps(t, p, c, n).code) == SizeOps(t, n)
    decreases t, n
  {
    if n > 0 {
      EmitOpsLength(t, p, c, n - 1);
      var a := EmitOps(t, p, c, n - 1);
      var b := EmitOp(t.ops[n - 1], p + SizeOps(t, n - 1), c, c + t.labels + a.labels);
      EmitOpLength(t.ops[n - 1], p + SizeOps(t, n - 1), c, c + t.labels + a.labels);
      EncodeAllAppend(a.code, b.code);
    }
  }

  lemma {:induction false} EmitOpLength(op: OpTpl, p: nat, base: nat, c: nat)
    ensures Len(EmitOp(op, p, base, c).code) == SizeOp(op)
    decreases op, 0
  {
    match op {
      case Build(nested) => EmitOptionLength(nested, p, c);
      case DelaySlot(slots) => EmitSlotsLength(slots, p, c, |slots|);
      case Label(_) =>
      case Issue(_, _, _, _) => IssueLength(op, NamedLabel(op, base));
    }
  }

  lemma {:induction false} EmitOptionLength(o: Option<Tpl>, p: nat, c: nat)
    ensures Len(EmitOption(o, p, c).code) == SizeOption(o)
    decreases o, 0
  {
    if o.Some? {
      EmitLength(o.value, p, c);
    }
  }

  lemma {:induction false} EmitSlotsLength(slots: seq<Option<Tpl>>, p: nat, c: nat, n: nat)
    requires n <= |slots|
    ensures Len(EmitSlots(slots, p, c, n).code) == SizeSlots(slots, n)
    decreases slots, n
  {
    if n > 0 {
      EmitSlotsLength(slots, p, c, n - 1);
      var a := EmitSlots(slots, p, c, n - 1);
      var b := EmitOption(slots[n - 1], p + SizeSlots(slots, n - 1), c + a.labels);
      EmitOptionLength(slots[n - 1], p + SizeSlots(slots, n - 1), c + a.labels);
      EncodeAllAppend(a.code, b.code);
    }
  }

  // ---- label ranges ----

  predicate KeysWithin(m: map<nat, nat>, lo: nat, hi: nat)
  {
    forall k :: k in m ==> lo <= k < hi
  }

  /** An instance places labels only in the range it takes. */
  lemma {:induction false} EmitRange(t: Tpl, p: nat, c: nat)
    requires Good(t)
    ensures KeysWithin(Emit(t, p, c).table, c, c + Emit(t, p, c).labels)
    decreases t, |t.ops| + 1
  {
    EmitOpsRange(t, p, c, |t.ops|);
  }

  lemma {:induction false} EmitOpsRange(t: Tpl, p: nat, c: nat, n: nat)
    requires Good(t) && n <= |t.ops|
    ensures KeysWithin(EmitOps(t, p, c, n).table, c, c + t.labels + EmitOps(t, p, c, n).labels)
    decreases t, n
  {
    if n > 0 {
      EmitOpsRange(t, p, c, n - 1);
      var a := EmitOps(t, p, c, n - 1);
      assert GoodOp(t, t.ops[n - 1]);
      EmitOpRange(t, t.ops[n - 1], p + SizeOps(t, n - 1), c, c + t.labels + a.labels);
    }
  }

  /** An operation other than a label places labels only in the ranges of the instances it builds. */
  lemma {:induction false} EmitOpRange(t: Tpl, op: OpTpl, p: nat, base: nat, c: nat)
    requires GoodOp(t, op)
    ensures var d := EmitOp(op, p, base, c);
            if op.Label? then d.table == map[base + op.index := p] && d.labels == 0 && op.index < t.labels
            else KeysWithin(d.table, c, c + d.labels)
    decreases op, 0
  {
    match op {
      case Build(nested) => EmitOptionRange(nested, p, c);
      case DelaySlot(slots) => EmitSlotsRange(slots, p, c, |slots|);
      case Label(_) =>
      case Issue(_, _, _, _) =>
    }
  }

  lemma {:induction false} EmitOptionRange(o: Option<Tpl>, p: nat, c: nat)
    requires GoodOption(o)
    ensures KeysWithin(EmitOption(o, p, c).table, c, c + EmitOption(o, p, c).labels)
    decreases o, 0
  {
    if o.Some? {
      EmitRange(o.value, p, c);
    }
  }

  lemma {:induction false} EmitSlotsRange(slots: seq<Option<Tpl>>, p: nat, c: nat, n: nat)
    requires GoodSlots(slots) && n <= |slots|
    ensures KeysWithin(EmitSlots(slots, p, c, n).table, c, c + EmitSlots(slots, p, c, n).labels)
    decreases slots, n
  {
    if n > 0 {
      EmitSlotsRange(slots, p, c, n - 1);
      var a := EmitSlots(slots, p, c, n - 1);
      EmitOptionRange(slots[n - 1], p + SizeSlots(slots, n - 1), c + a.labels);
    }
  }

  // ---- tables ----

  ghost predicate Sub(a: map<nat, int>, b: map<nat, int>)
  {
    forall k :: k in a ==> k in b && b[k] == a[k]
  }

  /** What operation `i` of an instance emits. */
  function Part(t: Tpl, p: nat, c: nat, i: nat): Emitted
    requires i < |t.ops|
  {
    EmitOp(t.ops[i], p + SizeOps(t, i), c, c + t.labels + EmitOps(t, p, c, i).labels)
  }

  /** The label of an instance is where the instance placed it last, whatever it built in between. */
  lemma OwnLabel(t: Tpl, p: nat, c: nat, n: nat, label_: nat)
    requires Good(t) && n <= |t.ops| && label_ < t.labels
    ensures var m, k := EmitOps(t, p, c, n).table, LastPlace(t, label_, n);
            if k.None? then c + label_ !in m else c + label_ in m && m[c + label_] == p + SizeOps(t, k.value)
  {
    OwnEntry(t, p, c, n, label_);
  }

  predicate Holds(m: map<nat, int>, key: nat, to: Option<int>)
  {
    if to.None? then key !in m else key in m && m[key] == to.value
  }

  function LastIndex(t: Tpl, p: nat, label_: nat, n: nat): Option<int>
    requires n <= |t.ops|
  {
    match LastPlace(t, label_, n)
    case None => None
    case Some(k) => Some(p + SizeOps(t, k))
  }

  lemma LastIndexStep(t: Tpl, p: nat, label_: nat, n: nat)
    requires 0 < n <= |t.ops|
    ensures LastIndex(t, p, label_, n) ==
            if t.ops[n - 1] == Label(label_) then Some(p + SizeOps(t, n - 1)) else LastIndex(t, p, label_, n - 1)
  {
  }

  lemma {:induction false} OwnEntry(t: Tpl, p: nat, c: nat, n: nat, label_: nat)
    requires Good(t) && n <= |t.ops| && label_ < t.labels
    ensures Holds(EmitOps(t, p, c, n).table, c + label_, LastIndex(t, p, label_, n))
    decreases n
  {
    if n > 0 {
      OwnEntry(t, p, c, n - 1, label_);
      PartOwn(t, p, c, n - 1, label_);
      LastIndexStep(t, p, label_, n);
      HoldsThen(EmitOps(t, p, c, n - 1), Part(t, p, c, n - 1), c + label_, LastIndex(t, p, label_, n - 1),
                if t.ops[n - 1] == Label(label_) then Some(p + SizeOps(t, n - 1)) else None);
    }
  }

  lemma HoldsThen(a: Emitted, b: Emitted, key: nat, was: Option<int>, now: Option<int>)
    requires Holds(a.table, key, was) && Holds(b.table, key, now)
    ensures Holds(Then(a, b).table, key, if now.Some? then now else was)
  {
  }

  /** What an operation emits places its own label at `p`, or labels in the range from `c` on. */
  predicate Ranged(d: Emitted, op: OpTpl, labels: nat, p: nat, base: nat, c: nat)
  {
    if op.Label? then d.table == map[base + op.index := p] && d.labels == 0 && op.index < labels
    else KeysWithin(d.table, c, c + d.labels)
  }

  lemma PartRanged(t: Tpl, p: nat, c: nat, i: nat)
    requires Good(t) && i < |t.ops|
    ensures Ranged(Part(t, p, c, i), t.ops[i], t.labels, p + SizeOps(t, i), c, c + t.labels + EmitOps(t, p, c, i).labels)
  {
    assert GoodOp(t, t.ops[i]);
    EmitOpRange(t, t.ops[i], p + SizeOps(t, i), c, c + t.labels + EmitOps(t, p, c, i).labels);
  }

  lemma PartOwn(t: Tpl, p: nat, c: nat, i: nat, label_: nat)
    requires Good(t) && i < |t.ops| && label_ < t.labels
    ensures Holds(Part(t, p, c, i).table, c + label_,
                  if t.ops[i] == Label(label_) then Some(p + SizeOps(t, i)) else None)
  {
    PartRanged(t, p, c, i);
    RangedOwn(Part(t, p, c, i), t.ops[i], t.labels, p + SizeOps(t, i), c, c + t.labels + EmitOps(t, p, c, i).labels, label_);
  }

  lemma RangedOwn(d: Emitted, op: OpTpl, labels: nat, p: nat, base: nat, c: nat, label_: nat)
    requires Ranged(d, op, labels, p, base, c) && label_ < labels && base + labels <= c
    ensures Holds(d.table, base + label_, if op == Label(label_) then Some(p) else None)
  {
  }

  /** What the instances built by operation `i` placed is never overwritten. */
  lemma {:induction false} PartKept(t: Tpl, p: nat, c: nat, i: nat, n: nat)
    requires Good(t) && i < n <= |t.ops| && !t.ops[i].Label?
    ensures Sub(Part(t, p, c, i).table, EmitOps(t, p, c, n).table)
    ensures KeysWithin(Part(t, p, c, i).table, c + t.labels, c + t.labels + EmitOps(t, p, c, n).labels)
    decreases n
  {
    PartOutside(t, p, c, n - 1);
    if i < n - 1 {
      PartKept(t, p, c, i, n - 1);
      KeptThen(Part(t, p, c, i).table, EmitOps(t, p, c, n - 1), Part(t, p, c, n - 1), c + t.labels);
    } else {
      KeptLast(EmitOps(t, p, c, i), Part(t, p, c, i), c + t.labels);
    }
  }

  /** No label in the range is placed. */
  predicate Outside(m: map<nat, int>, lo: nat, hi: nat)
  {
    forall k :: k in m ==> k < lo || hi <= k
  }

  /** An operation places no label the operations before it built; other than a label, it places
      them where they end. */
  lemma PartOutside(t: Tpl, p: nat, c: nat, i: nat)
    requires Good(t) && i < |t.ops|
    ensures var taken := EmitOps(t, p, c, i).labels;
            && Outside(Part(t, p, c, i).table, c + t.labels, c + t.labels + taken)
            && (!t.ops[i].Label? ==>
                  KeysWithin(Part(t, p, c, i).table, c + t.labels + taken,
                             c + t.labels + taken + Part(t, p, c, i).labels))
  {
    PartRanged(t, p, c, i);
  }

  lemma KeptThen(m: map<nat, int>, a: Emitted, b: Emitted, lo: nat)
    requires Sub(m, a.table) && KeysWithin(m, lo, lo + a.labels) && Outside(b.table, lo, lo + a.labels)
    ensures Sub(m, Then(a, b).table) && KeysWithin(m, lo, lo + Then(a, b).labels)
  {
  }

  lemma KeptLast(a: Emitted, b: Emitted, lo: nat)
    requires KeysWithin(b.table, lo + a.labels, lo + a.labels + b.labels)
    ensures Sub(b.table, Then(a, b).table) && KeysWithin(b.table, lo, lo + Then(a, b).labels)
  {
  }

  function SlotPart(slots: seq<Option<Tpl>>, p: nat, c: nat, i: nat): Emitted
    requires i < |slots|
  {
    EmitOption(slots[i], p + SizeSlots(slots, i), c + EmitSlots(slots, p, c, i).labels)
  }

  lemma {:induction false} SlotKept(slots: seq<Option<Tpl>>, p: nat, c: nat, i: nat, n: nat)
    requires GoodSlots(slots) && i < n <= |slots|
    ensures Sub(SlotPart(slots, p, c, i).table, EmitSlots(slots, p, c, n).table)
    ensures KeysWithin(SlotPart(slots, p, c, i).table, c, c + EmitSlots(slots, p, c, n).labels)
    decreases n
  {
    EmitOptionRange(slots[n - 1], p + SizeSlots(slots, n - 1), c + EmitSlots(slots, p, c, n - 1).labels);
    if i < n - 1 {
      SlotKept(slots, p, c, i, n - 1);
    }
  }

  // ---- resolution ----

  /** Replaces the label a branch names by the distance to where it was placed. */
  function Patch(op: PCodeOp, at: nat, table: map<nat, int>): PCodeOp
  {
    var v := op.inputs.first;
    if v.offset in table
    then op.(inputs := op.inputs.(first := SetOffset(v, Distance(table[v.offset], at, v.size))))
    else op
  }

  function ResolvedAt(ops: seq<PCodeOp>, p: nat, refs: seq<nat>, table: map<nat, int>, i: nat): PCodeOp
    requires i < |ops|
  {
    if p + i in refs then Patch(ops[i], p + i, table) else ops[i]
  }

  /** The operations, the first at index `p`, with the branches at `refs` resolved. */
  function Resolved(ops: seq<PCodeOp>, p: nat, refs: seq<nat>, table: map<nat, int>): (r: seq<PCodeOp>)
    ensures |r| == |ops|
  {
    seq(|ops|, i requires 0 <= i < |ops| => ResolvedAt(ops, p, refs, table, i))
  }

  /** Strictly increasing indices in [lo, hi). */
  predicate Ascending(refs: seq<nat>, lo: nat, hi: nat)
  {
    if refs == [] then lo <= hi
    else Ascending(refs[..|refs| - 1], lo, refs[|refs| - 1]) && refs[|refs| - 1] < hi
  }

  lemma {:induction false} AscendingOrder(refs: seq<nat>, lo: nat, hi: nat)
    requires Ascending(refs, lo, hi)
    ensures lo <= hi
    ensures forall k :: 0 <= k < |refs| ==> lo <= refs[k] < hi
    ensures forall i, j :: 0 <= i < j < |refs| ==> refs[i] < refs[j]
    decreases |refs|
  {
    if refs != [] {
      AscendingOrder(refs[..|refs| - 1], lo, refs[|refs| - 1]);
    }
  }

  lemma {:induction false} AscendingAppend(r: seq<nat>, s: seq<nat>, lo: nat, mid: nat, hi: nat)
    requires Ascending(r, lo, mid) && Ascending(s, mid, hi)
    ensures Ascending(r + s, lo, hi)
    decreases |s|
  {
    if s == [] {
      assert r + s == r;
      AscendingWiden(r, lo, mid, hi);
    } else {
      assert (r + s)[..|r + s| - 1] == r + s[..|s| - 1];
      AscendingAppend(r, s[..|s| - 1], lo, mid, s[|s| - 1]);
    }
  }

  lemma AscendingWiden(r: seq<nat>, lo: nat, mid: nat, hi: nat)
    requires Ascending(r, lo, mid) && mid <= hi
    ensures Ascending(r, lo, hi)
  {
  }

  predicate NamedAt(ops: seq<PCodeOp>, p: nat, at: nat, table: map<nat, int>)
  {
    p <= at < p + |ops| && ops[at - p].inputs.first.offset in table
  }

  /** Every branch names a label of the table. */
  predicate Named(ops: seq<PCodeOp>, p: nat, refs: seq<nat>, table: map<nat, int>)
  {
    refs == [] || (NamedAt(ops, p, refs[|refs| - 1], table) && Named(ops, p, refs[..|refs| - 1], table))
  }

  lemma {:induction false} NamedEach(ops: seq<PCodeOp>, p: nat, refs: seq<nat>, table: map<nat, int>, k: nat)
    requires Named(ops, p, refs, table) && k < |refs|
    ensures NamedAt(ops, p, refs[k], table)
    decreases |refs|
  {
    if k < |refs| - 1 {
      NamedEach(ops, p, refs[..|refs| - 1], table, k);
    }
  }

  lemma {:induction false} NamedWiden(x: seq<PCodeOp>, y: seq<PCodeOp>, p: nat, r: seq<nat>, table: map<nat, int>)
    requires Named(x, p, r, table)
    ensures Named(x + y, p, r, table)
    decreases |r|
  {
    if r != [] {
      NamedWiden(x, y, p, r[..|r| - 1], table);
    }
  }

  lemma {:induction false} NamedAppend(x: seq<PCodeOp>, y: seq<PCodeOp>, p: nat, r: seq<nat>, s: seq<nat>,
                                       table: map<nat, int>)
    requires Named(x, p, r, table) && Named(y, p + |x|, s, table)
    ensures Named(x + y, p, r + s, table)
    decreases |s|
  {
    if s == [] {
      assert r + s == r;
      NamedWiden(x, y, p, r, table);
    } else {
      assert (r + s)[..|r + s| - 1] == r + s[..|s| - 1];
      NamedAppend(x, y, p, r, s[..|s| - 1], table);
      var at := s[|s| - 1];
      assert (x + y)[at - p] == y[at - (p + |x|)];
    }
  }

  /** What was issued from index `p` on resolves to `code`. */
  ghost predicate Means(d: Emitted, p: nat, code: seq<FullOp>, table: map<nat, int>)
  {
    MeansOps(EncodeAll(d.code), p, d.refs, EncodeAll(code), table)
  }

  /** The operations, with the branches `refs` among them, resolve to `out`. */
  ghost predicate MeansOps(ops: seq<PCodeOp>, p: nat, refs: seq<nat>, out: seq<PCodeOp>, table: map<nat, int>)
  {
    && Ascending(refs, p, p + |ops|)
    && Named(ops, p, refs, table)
    && Resolved(ops, p, refs, table) == out
  }

  lemma MeansOpsThen(x: seq<PCodeOp>, y: seq<PCodeOp>, p: nat, r: seq<nat>, s: seq<nat>, x': seq<PCodeOp>,
                     y': seq<PCodeOp>, table: map<nat, int>)
    requires MeansOps(x, p, r, x', table) && MeansOps(y, p + |x|, s, y', table)
    ensures MeansOps(x + y, p, r + s, x' + y', table)
  {
    ResolvedSplit(x, y, p, r, s, table);
    NamedAppend(x, y, p, r, s, table);
    AscendingAppend(r, s, p, p + |x|, p + |x| + |y|);
  }

  lemma MeansOpsOne(ops: seq<PCodeOp>, p: nat, at: nat, out: seq<PCodeOp>, table: map<nat, int>)
    requires NamedAt(ops, p, at, table) && Resolved(ops, p, [at], table) == out
    ensures MeansOps(ops, p, [at], out, table)
  {
    AscendingOne(at, p, p + |ops|);
    assert [at][..0] == [];
  }

  lemma ResolvedSplit(x: seq<PCodeOp>, y: seq<PCodeOp>, p: nat, r: seq<nat>, s: seq<nat>, table: map<nat, int>)
    requires Ascending(r, p, p + |x|) && Ascending(s, p + |x|, p + |x| + |y|)
    ensures Resolved(x + y, p, r + s, table) == Resolved(x, p, r, table) + Resolved(y, p + |x|, s, table)
  {
    AscendingOrder(r, p, p + |x|);
    AscendingOrder(s, p + |x|, p + |x| + |y|);
    var lhs := Resolved(x + y, p, r + s, table);
    var rhs := Resolved(x, p, r, table) + Resolved(y, p + |x|, s, table);
    forall i | 0 <= i < |x + y|
      ensures lhs[i] == rhs[i]
    {
      assert p + i in r + s <==> p + i in r || p + i in s;
      assert p + i in r ==> i < |x|;
      assert p + i in s ==> i >= |x|;
    }
  }

  lemma MeansThen(a: Emitted, b: Emitted, p: nat, x: seq<FullOp>, y: seq<FullOp>, table: map<nat, int>)
    requires Means(a, p, x, table) && Means(b, p + Len(a.code), y, table)
    ensures Means(Then(a, b), p, x + y, table)
  {
    EncodeAllAppend(a.code, b.code);
    EncodeAllAppend(x, y);
    MeansOpsThen(EncodeAll(a.code), EncodeAll(b.code), p, a.refs, b.refs, EncodeAll(x), EncodeAll(y), table);
  }

  lemma MeansPlain(code: seq<FullOp>, p: nat, table: map<nat, int>)
    ensures Means(Emitted(code, [], map[], 0), p, code, table)
  {
    assert Resolved(EncodeAll(code), p, [], table) == EncodeAll(code);
  }

  /** Patching the head of a laid-out operation is laying out the patched operation. */
  lemma CorePatched(i: OpTpl, at: nat, named: U64, target: U64, table: map<nat, int>)
    requires i.Issue? && i.relative && |i.inputs| > 0 && named in table
    requires target == Distance(table[named], at, Place(i.inputs[0]).size)
    ensures Resolved(Encode(Core(i, named)), at, [at], table) == Encode(Core(i, target))
  {
    var a, b := Encode(Core(i, named)), Encode(Core(i, target));
    var x, y := Core(i, named).inputs, Core(i, target).inputs;
    CoreLength(i, named, target);
    if |x| > 2 {
      assert x[2..] == y[2..];
    }
    assert Packed(x)[1..] == Packed(y)[1..];
    assert Patch(a[0], at, table) == b[0];
    forall k | 0 <= k < |a|
      ensures Resolved(a, at, [at], table)[k] == b[k]
    {
      if k > 0 {
        assert a[k] == b[k];
      }
    }
  }

  lemma CoreNames(i: OpTpl, named: U64)
    requires i.Issue? && i.relative && |i.inputs| > 0
    ensures Encode(Core(i, named))[0].inputs.first.offset == named
  {
  }

  lemma NamedBetween(x: seq<PCodeOp>, y: seq<PCodeOp>, z: seq<PCodeOp>, p: nat, table: map<nat, int>)
    requires y != [] && y[0].inputs.first.offset in table
    ensures NamedAt(x + y + z, p, p + |x|, table)
  {
    assert (x + y + z)[|x|] == y[0];
  }

  lemma IssueResolved(i: OpTpl, p: nat, named: U64, table: map<nat, int>)
    requires i.Issue? && i.relative && |i.inputs| > 0 && named in table
    ensures var at := p + Len(Loads(i.inputs));
            && at < p + Len(IssueCode(i, named))
            && NamedAt(EncodeAll(IssueCode(i, named)), p, at, table)
            && Resolved(EncodeAll(IssueCode(i, named)), p, [at], table) ==
               EncodeAll(IssueCode(i, Distance(table[named], at, Place(i.inputs[0]).size)))
  {
    var loads, stores := EncodeAll(Loads(i.inputs)), EncodeAll(Stores(i));
    var target := Distance(table[named], p + |loads|, Place(i.inputs[0]).size);
    IssueParts(i, named);
    IssueParts(i, target);
    var at := p + |loads|;
    CorePatched(i, at, named, target, table);
    CoreNames(i, named);
    NamedBetween(loads, Encode(Core(i, named)), stores, p, table);
    ResolvedBetween(loads, Encode(Core(i, named)), Encode(Core(i, target)), stores, p, at, table);
  }

  lemma IssueMeans(i: OpTpl, p: nat, base: nat, to: int, table: map<nat, int>)
    requires i.Issue? && i.relative && |i.inputs| > 0
    requires var named := Place(i.inputs[0]).offset + base; named < TWO_64 && named in table && table[named] == to
    ensures Means(EmitIssue(i, p, base), p,
                  IssueCode(i, Distance(to, p + Len(Loads(i.inputs)), Place(i.inputs[0]).size)), table)
  {
    var named: U64 := Place(i.inputs[0]).offset + base;
    var at := p + Len(Loads(i.inputs));
    IssueResolved(i, p, named, table);
    MeansOpsOne(EncodeAll(IssueCode(i, named)), p, at,
                EncodeAll(IssueCode(i, Distance(to, at, Place(i.inputs[0]).size))), table);
    IssueShape(i, p, base);
  }

  lemma IssueShape(i: OpTpl, p: nat, base: nat)
    requires i.Issue? && i.relative && |i.inputs| > 0 && Place(i.inputs[0]).offset + base < TWO_64
    ensures EmitIssue(i, p, base) ==
            Emitted(IssueCode(i, Place(i.inputs[0]).offset + base), [p + Len(Loads(i.inputs))], map[], 0)
  {
  }

  lemma MeansNothing(p: nat, table: map<nat, int>)
    ensures Means(NOTHING, p, [], table)
  {
    MeansPlain([], p, table);
  }

  lemma AscendingOne(at: nat, lo: nat, hi: nat)
    requires lo <= at < hi
    ensures Ascending([at], lo, hi)
  {
    assert [at][..0] == [];
  }

  lemma ResolvedBetween(x: seq<PCodeOp>, y: seq<PCodeOp>, y': seq<PCodeOp>, z: seq<PCodeOp>, p: nat, at: nat,
                        table: map<nat, int>)
    requires at == p + |x| && y != [] && Resolved(y, at, [at], table) == y'
    ensures Resolved(x + y + z, p, [at], table) == x + y' + z
  {
    forall i | 0 <= i < |x + y + z|
      ensures Resolved(x + y + z, p, [at], table)[i] == (x + y' + z)[i]
    {
      if |x| <= i < |x| + |y| {
        assert Resolved(y, at, [at], table)[i - |x|] == y'[i - |x|];
        assert (x + y + z)[i] == y[i - |x|];
        assert (x + y' + z)[i] == y'[i - |x|];
      } else {
        assert p + i !in [at];
      }
    }
  }

  /** The table keeps the labels of a good instance that takes them from `c` on. */
  ghost predicate Resolvable(t: Tpl, p: nat, c: nat, table: map<nat, int>)
  {
    Good(t) && Placed(t) && c + Emit(t, p, c).labels < TWO_64 && Sub(Emit(t, p, c).table, table)
  }

  ghost predicate ResolvableSlots(slots: seq<Option<Tpl>>, p: nat, c: nat, table: map<nat, int>)
  {
    && GoodSlots(slots) && PlacedSlots(slots)
    && c + EmitSlots(slots, p, c, |slots|).labels < TWO_64
    && Sub(EmitSlots(slots, p, c, |slots|).table, table)
  }

  /** What the first `n` operations of an instance issue resolves to the code they mean. */
  ghost predicate OpsMean(t: Tpl, p: nat, c: nat, n: nat, table: map<nat, int>)
    requires n <= |t.ops|
  {
    Means(EmitOps(t, p, c, n), p, CodeOps(t, p, n), table)
  }

  ghost predicate PartMean(t: Tpl, p: nat, c: nat, i: nat, table: map<nat, int>)
    requires i < |t.ops|
  {
    Means(Part(t, p, c, i), p + SizeOps(t, i), CodeOp(t, t.ops[i], p, p + SizeOps(t, i)), table)
  }

  ghost predicate SlotsMean(slots: seq<Option<Tpl>>, p: nat, c: nat, n: nat, table: map<nat, int>)
    requires n <= |slots|
  {
    Means(EmitSlots(slots, p, c, n), p, CodeSlots(slots, p, n), table)
  }

  ghost predicate SlotMean(slots: seq<Option<Tpl>>, p: nat, c: nat, i: nat, table: map<nat, int>)
    requires i < |slots|
  {
    Means(SlotPart(slots, p, c, i), p + SizeSlots(slots, i), CodeOption(slots[i], p + SizeSlots(slots, i)), table)
  }

  /** Whatever table keeps the labels of an instance, its issued operations resolve to the code it
      means: every branch goes where its own instance placed the label. */
  lemma {:induction false} EmitMeans(t: Tpl, p: nat, c: nat, table: map<nat, int>)
    requires Resolvable(t, p, c, table)
    ensures Means(Emit(t, p, c), p, Code(t, p), table)
    decreases t, |t.ops| + 1
  {
    EmitOpsMeans(t, p, c, |t.ops|, table);
  }

  lemma {:induction false} EmitOpsMeans(t: Tpl, p: nat, c: nat, n: nat, table: map<nat, int>)
    requires Resolvable(t, p, c, table)
    requires n <= |t.ops|
    ensures OpsMean(t, p, c, n, table)
    decreases t, n, 1
  {
    if n == 0 {
      MeansNothing(p, table);
    } else {
      EmitOpsMeans(t, p, c, n - 1, table);
      PartMeans(t, p, c, n - 1, table);
      OpsStep(t, p, c, n, table);
    }
  }

  lemma OpsUnfold(t: Tpl, p: nat, c: nat, n: nat)
    requires 0 < n <= |t.ops|
    ensures EmitOps(t, p, c, n) == Then(EmitOps(t, p, c, n - 1), Part(t, p, c, n - 1))
    ensures CodeOps(t, p, n) == CodeOps(t, p, n - 1) + CodeOp(t, t.ops[n - 1], p, p + SizeOps(t, n - 1))
    ensures Len(EmitOps(t, p, c, n - 1).code) == SizeOps(t, n - 1)
  {
    EmitOpsLength(t, p, c, n - 1);
  }

  lemma MeansJoin(d: Emitted, a: Emitted, b: Emitted, p: nat, z: seq<FullOp>, x: seq<FullOp>, y: seq<FullOp>, q: nat,
                  table: map<nat, int>)
    requires d == Then(a, b) && z == x + y && q == p + Len(a.code)
    requires Means(a, p, x, table) && Means(b, q, y, table)
    ensures Means(d, p, z, table)
  {
    MeansThen(a, b, p, x, y, table);
  }

  lemma OpsStep(t: Tpl, p: nat, c: nat, n: nat, table: map<nat, int>)
    requires 0 < n <= |t.ops|
    requires OpsMean(t, p, c, n - 1, table) && PartMean(t, p, c, n - 1, table)
    ensures OpsMean(t, p, c, n, table)
  {
    OpsUnfold(t, p, c, n);
    MeansJoin(EmitOps(t, p, c, n), EmitOps(t, p, c, n - 1), Part(t, p, c, n - 1), p, CodeOps(t, p, n), CodeOps(t, p, n - 1),
              CodeOp(t, t.ops[n - 1], p, p + SizeOps(t, n - 1)), p + SizeOps(t, n - 1), table);
  }

  lemma {:induction false} PartMeans(t: Tpl, p: nat, c: nat, i: nat, table: map<nat, int>)
    requires Resolvable(t, p, c, table)
    requires i < |t.ops|
    ensures PartMean(t, p, c, i, table)
    decreases t, i, 0
  {
    var op, here := t.ops[i], p + SizeOps(t, i);
    assert GoodOp(t, op) && PlacedOp(t, op);
    if op.Label? {
      MeansPlain([], here, table);
    } else if op.Issue? {
      if op.relative && |op.inputs| > 0 {
        BranchResolves(t, p, c, i, table);
      }
      IssueOpMeans(t, op, p, here, c, c + t.labels + EmitOps(t, p, c, i).labels, table);
    } else {
      var count := c + t.labels + EmitOps(t, p, c, i).labels;
      PartKept(t, p, c, i, |t.ops|);
      PartLabels(t, p, c, i, |t.ops|);
      SubTrans(Part(t, p, c, i).table, EmitOps(t, p, c, |t.ops|).table, table);
      BuildMeans(t, op, p, here, c, count, table);
    }
  }

  lemma {:induction false} BuildMeans(t: Tpl, op: OpTpl, p: nat, here: nat, base: nat, c: nat, table: map<nat, int>)
    requires (op.Build? || op.DelaySlot?) && GoodOp(t, op) && PlacedOp(t, op)
    requires c + EmitOp(op, here, base, c).labels < TWO_64 && Sub(EmitOp(op, here, base, c).table, table)
    ensures Means(EmitOp(op, here, base, c), here, CodeOp(t, op, p, here), table)
    decreases op, 0
  {
    match op {
      case Build(nested) => EmitOptionMeans(nested, here, c, table);
      case DelaySlot(slots) => EmitSlotsMeans(slots, here, c, |slots|, table);
    }
  }

  lemma IssueOpMeans(t: Tpl, op: OpTpl, p: nat, here: nat, base: nat, c: nat, table: map<nat, int>)
    requires op.Issue? && (op.relative ==> |op.inputs| > 0)
    requires op.relative && |op.inputs| > 0 ==>
               var named := Place(op.inputs[0]).offset;
               base + named < TWO_64 && base + named in table && table[base + named] == Denotes(t, named, p)
    ensures Means(EmitOp(op, here, base, c), here, CodeOp(t, op, p, here), table)
  {
    if op.relative && |op.inputs| > 0 {
      IssueMeans(op, here, base, Denotes(t, Place(op.inputs[0]).offset, p), table);
    } else {
      MeansPlain(IssueCode(op, 0), here, table);
    }
  }

  /** The table has the label a branch of an instance names, where that instance placed it. */
  lemma BranchResolves(t: Tpl, p: nat, c: nat, i: nat, table: map<nat, int>)
    requires Resolvable(t, p, c, table)
    requires i < |t.ops| && t.ops[i].Issue? && t.ops[i].relative && |t.ops[i].inputs| > 0
    ensures var named := Place(t.ops[i].inputs[0]).offset;
            c + named < TWO_64 && c + named in table && table[c + named] == Denotes(t, named, p)
  {
    var named := Place(t.ops[i].inputs[0]).offset;
    assert PlacedOp(t, t.ops[i]);
    var k := LastPlace(t, named, |t.ops|).value;
    assert GoodOp(t, t.ops[k]);
    OwnLabel(t, p, c, |t.ops|, named);
  }

  lemma {:induction false} PartLabels(t: Tpl, p: nat, c: nat, i: nat, n: nat)
    requires i < n <= |t.ops|
    ensures EmitOps(t, p, c, i).labels + Part(t, p, c, i).labels <= EmitOps(t, p, c, n).labels
    decreases n
  {
    if i < n - 1 {
      PartLabels(t, p, c, i, n - 1);
    }
  }

  lemma {:induction false} EmitOptionMeans(o: Option<Tpl>, p: nat, c: nat, table: map<nat, int>)
    requires GoodOption(o) && PlacedOption(o) && c + EmitOption(o, p, c).labels < TWO_64
    requires Sub(EmitOption(o, p, c).table, table)
    ensures Means(EmitOption(o, p, c), p, CodeOption(o, p), table)
    decreases o, 0
  {
    if o.Some? {
      EmitMeans(o.value, p, c, table);
    } else {
      MeansPlain([], p, table);
    }
  }

  lemma {:induction false} EmitSlotsMeans(slots: seq<Option<Tpl>>, p: nat, c: nat, n: nat, table: map<nat, int>)
    requires n <= |slots| && ResolvableSlots(slots, p, c, table)
    ensures SlotsMean(slots, p, c, n, table)
    decreases slots, n, 1
  {
    if n == 0 {
      MeansNothing(p, table);
    } else {
      EmitSlotsMeans(slots, p, c, n - 1, table);
      SlotMeans(slots, p, c, n - 1, table);
      SlotsStep(slots, p, c, n, table);
    }
  }

  lemma SlotsUnfold(slots: seq<Option<Tpl>>, p: nat, c: nat, n: nat)
    requires 0 < n <= |slots|
    ensures EmitSlots(slots, p, c, n) == Then(EmitSlots(slots, p, c, n - 1), SlotPart(slots, p, c, n - 1))
    ensures CodeSlots(slots, p, n) == CodeSlots(slots, p, n - 1) + CodeOption(slots[n - 1], p + SizeSlots(slots, n - 1))
    ensures Len(EmitSlots(slots, p, c, n - 1).code) == SizeSlots(slots, n - 1)
  {
    EmitSlotsLength(slots, p, c, n - 1);
  }

  lemma SlotsStep(slots: seq<Option<Tpl>>, p: nat, c: nat, n: nat, table: map<nat, int>)
    requires 0 < n <= |slots|
    requires SlotsMean(slots, p, c, n - 1, table) && SlotMean(slots, p, c, n - 1, table)
    ensures SlotsMean(slots, p, c, n, table)
  {
    SlotsUnfold(slots, p, c, n);
    MeansJoin(EmitSlots(slots, p, c, n), EmitSlots(slots, p, c, n - 1), SlotPart(slots, p, c, n - 1), p,
              CodeSlots(slots, p, n), CodeSlots(slots, p, n - 1), CodeOption(slots[n - 1], p + SizeSlots(slots, n - 1)),
              p + SizeSlots(slots, n - 1), table);
  }

  lemma {:induction false} SlotMeans(slots: seq<Option<Tpl>>, p: nat, c: nat, i: nat, table: map<nat, int>)
    requires i < |slots| && ResolvableSlots(slots, p, c, table)
    ensures SlotMean(slots, p, c, i, table)
    decreases slots, i, 0
  {
    SlotKept(slots, p, c, i, |slots|);
    SlotLabels(slots, p, c, i, |slots|);
    SubTrans(SlotPart(slots, p, c, i).table, EmitSlots(slots, p, c, |slots|).table, table);
    EmitOptionMeans(slots[i], p + SizeSlots(slots, i), c + EmitSlots(slots, p, c, i).labels, table);
  }

  lemma {:induction false} SlotLabels(slots: seq<Option<Tpl>>, p: nat, c: nat, i: nat, n: nat)
    requires i < n <= |slots|
    ensures EmitSlots(slots, p, c, i).labels + SlotPart(slots, p, c, i).labels <= EmitSlots(slots, p, c, n).labels
    decreases n
  {
    if i < n - 1 {
      SlotLabels(slots, p, c, i, n - 1);
    }
  }

  lemma SubTrans(x: map<nat, int>, y: map<nat, int>, z: map<nat, int>)
    requires Sub(x, y) && Sub(y, z)
    ensures Sub(x, z)
  {
  }

  // ---- instances ----

  /** The label ranges of an instance and of all it builds, in the order they are taken. */
  function Ranges(t: Tpl, p: nat, c: nat): seq<(nat, nat)>
    decreases t, |t.ops| + 1
  {
    [(c, c + t.labels)] + RangesOps(t, p, c, |t.ops|)
  }

  function RangesOps(t: Tpl, p: nat, c: nat, n: nat): seq<(nat, nat)>
    requires n <= |t.ops|
    decreases t, n
  {
    if n == 0 then []
    else
      RangesOps(t, p, c, n - 1) +
      RangesOp(t.ops[n - 1], p + SizeOps(t, n - 1), c + t.labels + EmitOps(t, p, c, n - 1).labels)
  }

  function RangesOp(op: OpTpl, p: nat, c: nat): seq<(nat, nat)>
    decreases op, 0
  {
    match op
    case Build(nested) => RangesOption(nested, p, c)
    case DelaySlot(slots) => RangesSlots(slots, p, c, |slots|)
    case _ => []
  }

  function RangesOption(o: Option<Tpl>, p: nat, c: nat): seq<(nat, nat)>
    decreases o, 0
  {
    match o
    case None => []
    case Some(t) => Ranges(t, p, c)
  }

  function RangesSlots(slots: seq<Option<Tpl>>, p: nat, c: nat, n: nat): seq<(nat, nat)>
    requires n <= |slots|
    decreases slots, n
  {
    if n == 0 then []
    else
      RangesSlots(slots, p, c, n - 1) +
      RangesOption(slots[n - 1], p + SizeSlots(slots, n - 1), c + EmitSlots(slots, p, c, n - 1).labels)
  }

  /** Ranges that follow one another from `lo` to `hi` without gaps. */
  predicate Tiles(rs: seq<(nat, nat)>, lo: nat, hi: nat)
  {
    if rs == [] then lo == hi
    else Tiles(rs[..|rs| - 1], lo, rs[|rs| - 1].0) && rs[|rs| - 1].0 <= rs[|rs| - 1].1 == hi
  }

  lemma {:induction false} TilesAppend(x: seq<(nat, nat)>, y: seq<(nat, nat)>, lo: nat, mid: nat, hi: nat)
    requires Tiles(x, lo, mid) && Tiles(y, mid, hi)
    ensures Tiles(x + y, lo, hi)
    decreases |y|
  {
    if y == [] {
      assert x + y == x;
    } else {
      assert (x + y)[..|x + y| - 1] == x + y[..|y| - 1];
      TilesAppend(x, y[..|y| - 1], lo, mid, y[|y| - 1].0);
    }
  }

  lemma TilesJoin(z: seq<(nat, nat)>, x: seq<(nat, nat)>, y: seq<(nat, nat)>, lo: nat, mid: nat, hi: nat)
    requires z == x + y && Tiles(x, lo, mid) && Tiles(y, mid, hi)
    ensures Tiles(z, lo, hi)
  {
    TilesAppend(x, y, lo, mid, hi);
  }

  lemma {:induction false} TilesApart(rs: seq<(nat, nat)>, lo: nat, hi: nat)
    requires Tiles(rs, lo, hi)
    ensures forall i :: 0 <= i < |rs| ==> lo <= rs[i].0 <= rs[i].1 <= hi
    ensures forall i, j :: 0 <= i < j < |rs| ==> rs[i].1 <= rs[j].0
    decreases |rs|
  {
    if rs != [] {
      TilesApart(rs[..|rs| - 1], lo, rs[|rs| - 1].0);
    }
  }

  /** The instances of one emission, nested ones and those in delay slots included, take label
      ranges one after the other, so no two of them share a label. */
  lemma {:induction false} InstancesApart(t: Tpl, p: nat, c: nat)
    ensures Tiles(Ranges(t, p, c), c, c + Emit(t, p, c).labels)
    decreases t, |t.ops| + 1
  {
    InstancesOfOps(t, p, c, |t.ops|);
    var own := [(c, c + t.labels)];
    assert own[..0] == [];
    TilesAppend(own, RangesOps(t, p, c, |t.ops|), c, c + t.labels, c + Emit(t, p, c).labels);
  }

  lemma {:induction false} InstancesOfOps(t: Tpl, p: nat, c: nat, n: nat)
    requires n <= |t.ops|
    ensures Tiles(RangesOps(t, p, c, n), c + t.labels, c + t.labels + EmitOps(t, p, c, n).labels)
    decreases t, n
  {
    if n > 0 {
      InstancesOfOps(t, p, c, n - 1);
      var mid := c + t.labels + EmitOps(t, p, c, n - 1).labels;
      InstancesOfOp(t.ops[n - 1], p + SizeOps(t, n - 1), c, mid);
      TilesJoin(RangesOps(t, p, c, n), RangesOps(t, p, c, n - 1), RangesOp(t.ops[n - 1], p + SizeOps(t, n - 1), mid),
                c + t.labels, mid, c + t.labels + EmitOps(t, p, c, n).labels);
    }
  }

  lemma {:induction false} InstancesOfOp(op: OpTpl, p: nat, base: nat, c: nat)
    ensures Tiles(RangesOp(op, p, c), c, c + EmitOp(op, p, base, c).labels)
    decreases op, 0
  {
    match op {
      case Build(nested) => InstancesOfOption(nested, p, c);
      case DelaySlot(slots) => InstancesOfSlots(slots, p, c, |slots|);
      case _ =>
    }
  }

  lemma {:induction false} InstancesOfOption(o: Option<Tpl>, p: nat, c: nat)
    ensures Tiles(RangesOption(o, p, c), c, c + EmitOption(o, p, c).labels)
    decreases o, 0
  {
    if o.Some? {
      InstancesApart(o.value, p, c);
    }
  }

  lemma {:induction false} InstancesOfSlots(slots: seq<Option<Tpl>>, p: nat, c: nat, n: nat)
    requires n <= |slots|
    ensures Tiles(RangesSlots(slots, p, c, n), c, c + EmitSlots(slots, p, c, n).labels)
    decreases slots, n
  {
    if n > 0 {
      InstancesOfSlots(slots, p, c, n - 1);
      var mid := c + EmitSlots(slots, p, c, n - 1).labels;
      var here := p + SizeSlots(slots, n - 1);
      InstancesOfOption(slots[n - 1], here, mid);
      TilesJoin(RangesSlots(slots, p, c, n), RangesSlots(slots, p, c, n - 1), RangesOption(slots[n - 1], here, mid),
                c, mid, c + EmitSlots(slots, p, c, n).labels);
    }
  }
}
