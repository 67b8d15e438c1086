/** Exactly when resolution succeeds: a branch finds a label exactly if its own instance placed it
    (fugue-lifter-runtime/src/template.rs:32-51, 289-369, fugue-lifter-runtime/src/pcode.rs:614-638). */
module EmissionLabels {
  import opened Prelude
  import Bits
  import opened PCode
  import opened Emission
  import opened EmissionProofs
  import opened EmissionResolve

  // ---- branches name labels of their instance ----

  predicate OwnNamesOp(t: Tpl, op: OpTpl)
    decreases op, 0
  {
    match op
    case Build(nested) => OwnNamesOption(nested)
    case DelaySlot(slots) => OwnNamesSlots(slots)
    case Label(_) => true
    case Issue(_, inputs, relative, _) => relative && |inputs| > 0 ==> Place(inputs[0]).offset < t.labels
  }

  predicate OwnNamesSlots(slots: seq<Option<Tpl>>)
    decreases slots, 0
  {
    forall i :: 0 <= i < |slots| ==> OwnNamesOption(slots[i])
  }

  predicate OwnNamesOption(o: Option<Tpl>)
    decreases o, 0
  {
    o.Some? ==> OwnNames(o.value)
  }

  /** Every relative branch names a label below the number its instance declares. */
  predicate OwnNames(t: Tpl)
    decreases t, 0
  {
    forall i :: 0 <= i < |t.ops| ==> OwnNamesOp(t, t.ops[i])
  }

  // ---- what a table says about an instance ----

  /** In [lo, hi) the table `m` has what the whole table has. */
  ghost predicate SameIn(m: map<nat, nat>, table: map<nat, int>, lo: nat, hi: nat)
  {
    forall k :: lo <= k < hi ==> (k in m <==> k in table)
  }

  /** Label `k` is taken by the instances of operation `i`. */
  ghost predicate TakenBy(t: Tpl, p: nat, c: nat, i: nat, k: nat)
    requires i < |t.ops|
  {
    var lo := c + t.labels + EmitOps(t, p, c, i).labels;
    lo <= k < lo + Part(t, p, c, i).labels
  }

  /** The labels of operation `i` are those of its instances alone. */
  lemma {:induction false} PartOnly(t: Tpl, p: nat, c: nat, i: nat, n: nat, k: nat)
    requires Good(t) && i < n <= |t.ops| && !t.ops[i].Label? && TakenBy(t, p, c, i, k)
    ensures k in EmitOps(t, p, c, n).table <==> k in Part(t, p, c, i).table
    decreases n
  {
    if i < n - 1 {
      PartOnly(t, p, c, i, n - 1, k);
      LaterMisses(t, p, c, i, n - 1, k);
      ThenHas(EmitOps(t, p, c, n - 1), Part(t, p, c, n - 1), k);
    } else {
      EarlierMiss(t, p, c, i, k);
      ThenHas(EmitOps(t, p, c, i), Part(t, p, c, i), k);
    }
  }

  lemma ThenHas(a: Emitted, b: Emitted, k: nat)
    ensures k in Then(a, b).table <==> k in a.table || k in b.table
  {
  }

  lemma EarlierMiss(t: Tpl, p: nat, c: nat, i: nat, k: nat)
    requires Good(t) && i < |t.ops| && TakenBy(t, p, c, i, k)
    ensures k !in EmitOps(t, p, c, i).table
  {
    EmitOpsRange(t, p, c, i);
  }

  /** An operation places no label that its instance's earlier operations have taken. */
  lemma LaterMisses(t: Tpl, p: nat, c: nat, i: nat, n: nat, k: nat)
    requires Good(t) && i < n < |t.ops| && TakenBy(t, p, c, i, k)
    ensures k !in Part(t, p, c, n).table
  {
    PartLabels(t, p, c, i, n);
    PartOutside(t, p, c, n);
  }

  ghost predicate TakenBySlot(slots: seq<Option<Tpl>>, p: nat, c: nat, i: nat, k: nat)
    requires i < |slots|
  {
    var lo := c + EmitSlots(slots, p, c, i).labels;
    lo <= k < lo + SlotPart(slots, p, c, i).labels
  }

  lemma {:induction false} SlotOnly(slots: seq<Option<Tpl>>, p: nat, c: nat, i: nat, n: nat, k: nat)
    requires GoodSlots(slots) && i < n <= |slots| && TakenBySlot(slots, p, c, i, k)
    ensures k in EmitSlots(slots, p, c, n).table <==> k in SlotPart(slots, p, c, i).table
    decreases n
  {
    if i < n - 1 {
      SlotOnly(slots, p, c, i, n - 1, k);
      LaterSlotMisses(slots, p, c, i, n - 1, k);
      ThenHas(EmitSlots(slots, p, c, n - 1), SlotPart(slots, p, c, n - 1), k);
    } else {
      EarlierSlotsMiss(slots, p, c, i, k);
      ThenHas(EmitSlots(slots, p, c, i), SlotPart(slots, p, c, i), k);
    }
  }

  lemma EarlierSlotsMiss(slots: seq<Option<Tpl>>, p: nat, c: nat, i: nat, k: nat)
    requires GoodSlots(slots) && i < |slots| && TakenBySlot(slots, p, c, i, k)
    ensures k !in EmitSlots(slots, p, c, i).table
  {
    EmitSlotsRange(slots, p, c, i);
  }

  lemma LaterSlotMisses(slots: seq<Option<Tpl>>, p: nat, c: nat, i: nat, n: nat, k: nat)
    requires GoodSlots(slots) && i < n < |slots| && TakenBySlot(slots, p, c, i, k)
    ensures k !in SlotPart(slots, p, c, n).table
  {
    SlotLabels(slots, p, c, i, n);
    EmitOptionRange(slots[n], p + SizeSlots(slots, n), c + EmitSlots(slots, p, c, n).labels);
  }

  // ---- names and places ----

  /** All branches of `d` name labels of the table exactly if `placed`. */
  ghost predicate NamesIff(d: Emitted, p: nat, table: map<nat, int>, placed: bool)
  {
    && Ascending(d.refs, p, p + Len(d.code))
    && (Named(EncodeAll(d.code), p, d.refs, table) <==> placed)
  }

  lemma {:induction false} NamedNarrow(x: seq<PCodeOp>, y: seq<PCodeOp>, p: nat, r: seq<nat>, table: map<nat, int>)
    requires Ascending(r, p, p + |x|) && Named(x + y, p, r, table)
    ensures Named(x, p, r, table)
    decreases |r|
  {
    if r != [] {
      var front, last := r[..|r| - 1], r[|r| - 1];
      AscendingOrder(r, p, p + |x|);
      AscendingWiden(front, p, last, p + |x|);
      assert (x + y)[last - p] == x[last - p];
      NamedNarrow(x, y, p, front, table);
    }
  }

  lemma {:induction false} NamedTail(x: seq<PCodeOp>, y: seq<PCodeOp>, p: nat, r: seq<nat>, s: seq<nat>, table: map<nat, int>)
    requires Ascending(s, p + |x|, p + |x| + |y|) && Named(x + y, p, r + s, table)
    ensures Named(y, p + |x|, s, table) && Named(x + y, p, r, table)
    decreases |s|
  {
    if s == [] {
      assert r + s == r;
    } else {
      var front, last := s[..|s| - 1], s[|s| - 1];
      assert (r + s)[..|r + s| - 1] == r + front;
      AscendingOrder(s, p + |x|, p + |x| + |y|);
      AscendingWiden(front, p + |x|, last, p + |x| + |y|);
      assert (x + y)[last - p] == y[last - (p + |x|)];
      NamedTail(x, y, p, r, front, table);
    }
  }

  lemma NamesThen(d: Emitted, a: Emitted, b: Emitted, p: nat, q: nat, table: map<nat, int>, u: bool, v: bool)
    requires d == Then(a, b) && q == p + Len(a.code) && NamesIff(a, p, table, u) && NamesIff(b, q, table, v)
    ensures NamesIff(d, p, table, u && v)
  {
    var x, y := EncodeAll(a.code), EncodeAll(b.code);
    EncodeAllAppend(a.code, b.code);
    AscendingAppend(a.refs, b.refs, p, q, q + |y|);
    if u && v {
      NamedAppend(x, y, p, a.refs, b.refs, table);
    }
    if Named(x + y, p, a.refs + b.refs, table) {
      NamedTail(x, y, p, a.refs, b.refs, table);
      NamedNarrow(x, y, p, a.refs, table);
    }
  }

  lemma NamesNothing(code: seq<FullOp>, p: nat, table: map<nat, int>, m: map<nat, nat>)
    ensures NamesIff(Emitted(code, [], m, 0), p, table, true)
  {
  }

  /** A branch's own operation names its label in the instance's range. */
  lemma IssueNames(i: OpTpl, p: nat, base: nat, table: map<nat, int>)
    requires i.Issue? && i.relative && |i.inputs| > 0 && Place(i.inputs[0]).offset + base < TWO_64
    ensures NamesIff(EmitIssue(i, p, base), p, table, Place(i.inputs[0]).offset + base in table)
  {
    var named: U64 := Place(i.inputs[0]).offset + base;
    IssueShape(i, p, base);
    IssueNamed(i, named);
    NamesOne(EmitIssue(i, p, base), p, p + Len(Loads(i.inputs)), named, table);
  }

  lemma IssueNamed(i: OpTpl, named: U64)
    requires i.Issue? && i.relative && |i.inputs| > 0
    ensures var at := Len(Loads(i.inputs));
            at < Len(IssueCode(i, named)) && EncodeAll(IssueCode(i, named))[at].inputs.first.offset == named
  {
    IssueParts(i, named);
    assert Encode(Core(i, named))[0].inputs.first.offset == named;
  }

  lemma NamesOne(d: Emitted, p: nat, at: nat, named: nat, table: map<nat, int>)
    requires d.refs == [at] && p <= at < p + Len(d.code) && EncodeAll(d.code)[at - p].inputs.first.offset == named
    ensures NamesIff(d, p, table, named in table)
  {
    AscendingOne(at, p, p + Len(d.code));
    assert [at][..0] == [];
  }

  predicate PlacedUpTo(t: Tpl, n: nat)
    requires n <= |t.ops|
  {
    if n == 0 then true else PlacedUpTo(t, n - 1) && PlacedOp(t, t.ops[n - 1])
  }

  lemma {:induction false} PlacedAll(t: Tpl, n: nat)
    requires n <= |t.ops|
    ensures PlacedUpTo(t, n) <==> forall i :: 0 <= i < n ==> PlacedOp(t, t.ops[i])
    decreases n
  {
    if n > 0 {
      PlacedAll(t, n - 1);
    }
  }

  predicate PlacedFirst(slots: seq<Option<Tpl>>, n: nat)
    requires n <= |slots|
  {
    if n == 0 then true else PlacedFirst(slots, n - 1) && PlacedOption(slots[n - 1])
  }

  lemma {:induction false} PlacedEach(slots: seq<Option<Tpl>>, n: nat)
    requires n <= |slots|
    ensures PlacedFirst(slots, n) <==> forall i :: 0 <= i < n ==> PlacedOption(slots[i])
    decreases n
  {
    if n > 0 {
      PlacedEach(slots, n - 1);
    }
  }

  ghost predicate OpsName(t: Tpl, p: nat, c: nat, n: nat, table: map<nat, int>)
    requires n <= |t.ops|
  {
    NamesIff(EmitOps(t, p, c, n), p, table, PlacedUpTo(t, n))
  }

  ghost predicate PartNames(t: Tpl, p: nat, c: nat, i: nat, table: map<nat, int>)
    requires i < |t.ops|
  {
    NamesIff(Part(t, p, c, i), p + SizeOps(t, i), table, PlacedOp(t, t.ops[i]))
  }

  ghost predicate SlotsName(slots: seq<Option<Tpl>>, p: nat, c: nat, n: nat, table: map<nat, int>)
    requires n <= |slots|
  {
    NamesIff(EmitSlots(slots, p, c, n), p, table, PlacedFirst(slots, n))
  }

  ghost predicate SlotNames(slots: seq<Option<Tpl>>, p: nat, c: nat, i: nat, table: map<nat, int>)
    requires i < |slots|
  {
    NamesIff(SlotPart(slots, p, c, i), p + SizeSlots(slots, i), table, PlacedOption(slots[i]))
  }

  ghost predicate OptionNames(o: Option<Tpl>, p: nat, c: nat, table: map<nat, int>)
  {
    NamesIff(EmitOption(o, p, c), p, table, PlacedOption(o))
  }

  ghost predicate TplNames(t: Tpl, p: nat, c: nat, table: map<nat, int>)
  {
    NamesIff(Emit(t, p, c), p, table, Placed(t))
  }

  /** The table has exactly what the instance placed, in the range it took. */
  ghost predicate Tells(t: Tpl, p: nat, c: nat, table: map<nat, int>)
  {
    var d := Emit(t, p, c);
    Good(t) && OwnNames(t) && c + d.labels < TWO_64 && SameIn(d.table, table, c, c + d.labels)
  }

  ghost predicate TellsOption(o: Option<Tpl>, p: nat, c: nat, table: map<nat, int>)
  {
    var d := EmitOption(o, p, c);
    GoodOption(o) && OwnNamesOption(o) && c + d.labels < TWO_64 && SameIn(d.table, table, c, c + d.labels)
  }

  ghost predicate TellsSlots(slots: seq<Option<Tpl>>, p: nat, c: nat, table: map<nat, int>)
  {
    var d := EmitSlots(slots, p, c, |slots|);
    GoodSlots(slots) && OwnNamesSlots(slots) && c + d.labels < TWO_64 && SameIn(d.table, table, c, c + d.labels)
  }

  ghost predicate TellsOp(op: OpTpl, p: nat, base: nat, c: nat, table: map<nat, int>)
  {
    var d := EmitOp(op, p, base, c);
    c + d.labels < TWO_64 && SameIn(d.table, table, c, c + d.labels)
  }

  lemma PartTells(t: Tpl, p: nat, c: nat, i: nat, table: map<nat, int>)
    requires i < |t.ops| && !t.ops[i].Label? && Tells(t, p, c, table)
    ensures TellsOp(t.ops[i], p + SizeOps(t, i), c, c + t.labels + EmitOps(t, p, c, i).labels, table)
  {
    PartLabels(t, p, c, i, |t.ops|);
    var lo := c + t.labels + EmitOps(t, p, c, i).labels;
    forall k | lo <= k < lo + Part(t, p, c, i).labels
      ensures k in Part(t, p, c, i).table <==> k in table
    {
      PartOnly(t, p, c, i, |t.ops|, k);
    }
  }

  lemma SlotTells(slots: seq<Option<Tpl>>, p: nat, c: nat, i: nat, table: map<nat, int>)
    requires i < |slots| && TellsSlots(slots, p, c, table)
    ensures TellsOption(slots[i], p + SizeSlots(slots, i), c + EmitSlots(slots, p, c, i).labels, table)
  {
    SlotLabels(slots, p, c, i, |slots|);
    var lo := c + EmitSlots(slots, p, c, i).labels;
    forall k | lo <= k < lo + SlotPart(slots, p, c, i).labels
      ensures k in SlotPart(slots, p, c, i).table <==> k in table
    {
      SlotOnly(slots, p, c, i, |slots|, k);
    }
  }

  /** The branches of an instance and of all it builds find their labels exactly when every one
      names a label its own instance placed. */
  lemma {:induction false} EmitNames(t: Tpl, p: nat, c: nat, table: map<nat, int>)
    requires Tells(t, p, c, table)
    ensures TplNames(t, p, c, table)
    decreases t, |t.ops| + 1
  {
    EmitOpsName(t, p, c, |t.ops|, table);
    PlacedAll(t, |t.ops|);
  }

  lemma {:induction false} EmitOpsName(t: Tpl, p: nat, c: nat, n: nat, table: map<nat, int>)
    requires Tells(t, p, c, table) && n <= |t.ops|
    ensures OpsName(t, p, c, n, table)
    decreases t, n, 1
  {
    if n == 0 {
      NamesNothing([], p, table, map[]);
    } else {
      EmitOpsName(t, p, c, n - 1, table);
      PartName(t, p, c, n - 1, table);
      OpsNameStep(t, p, c, n, table);
    }
  }

  lemma OpsNameStep(t: Tpl, p: nat, c: nat, n: nat, table: map<nat, int>)
    requires 0 < n <= |t.ops| && OpsName(t, p, c, n - 1, table) && PartNames(t, p, c, n - 1, table)
    ensures OpsName(t, p, c, n, table)
  {
    OpsUnfold(t, p, c, n);
    NamesThen(EmitOps(t, p, c, n), EmitOps(t, p, c, n - 1), Part(t, p, c, n - 1), p, p + SizeOps(t, n - 1), table,
              PlacedUpTo(t, n - 1), PlacedOp(t, t.ops[n - 1]));
  }

  lemma {:induction false} PartName(t: Tpl, p: nat, c: nat, i: nat, table: map<nat, int>)
    requires Tells(t, p, c, table) && i < |t.ops|
    ensures PartNames(t, p, c, i, table)
    decreases t, i, 0
  {
    var op, here, count := t.ops[i], p + SizeOps(t, i), c + t.labels + EmitOps(t, p, c, i).labels;
    assert GoodOp(t, op) && OwnNamesOp(t, op);
    if op.Label? {
      NamesNothing([], here, table, map[c + op.index := here]);
    } else if op.Issue? {
      BranchName(t, p, c, i, table);
    } else {
      PartTells(t, p, c, i, table);
      BuildName(t, op, here, c, count, table);
    }
  }

  lemma BranchName(t: Tpl, p: nat, c: nat, i: nat, table: map<nat, int>)
    requires Tells(t, p, c, table) && i < |t.ops| && t.ops[i].Issue?
    ensures PartNames(t, p, c, i, table)
  {
    var op, here := t.ops[i], p + SizeOps(t, i);
    assert GoodOp(t, op);
    if op.relative {
      BranchTold(t, p, c, op, i, table);
      IssueNames(op, here, c, table);
    } else {
      NamesNothing(IssueCode(op, 0), here, table, map[]);
    }
  }

  /** The table has the label a branch names exactly when the instance placed it. */
  lemma BranchTold(t: Tpl, p: nat, c: nat, op: OpTpl, i: nat, table: map<nat, int>)
    requires Tells(t, p, c, table) && i < |t.ops| && op == t.ops[i] && op.Issue? && op.relative && |op.inputs| > 0
    ensures Place(op.inputs[0]).offset + c < TWO_64
    ensures Place(op.inputs[0]).offset + c in table <==> PlacedOp(t, op)
  {
    assert OwnNamesOp(t, op);
    OwnLabel(t, p, c, |t.ops|, Place(op.inputs[0]).offset);
  }

  lemma {:induction false} BuildName(t: Tpl, op: OpTpl, here: nat, base: nat, c: nat, table: map<nat, int>)
    requires (op.Build? || op.DelaySlot?) && GoodOp(t, op) && OwnNamesOp(t, op) && TellsOp(op, here, base, c, table)
    ensures NamesIff(EmitOp(op, here, base, c), here, table, PlacedOp(t, op))
    decreases op, 0
  {
    match op {
      case Build(nested) => EmitOptionName(nested, here, c, table);
      case DelaySlot(slots) =>
        EmitSlotsName(slots, here, c, |slots|, table);
        PlacedEach(slots, |slots|);
    }
  }

  lemma {:induction false} EmitOptionName(o: Option<Tpl>, p: nat, c: nat, table: map<nat, int>)
    requires TellsOption(o, p, c, table)
    ensures OptionNames(o, p, c, table)
    decreases o, 0
  {
    if o.Some? {
      EmitNames(o.value, p, c, table);
    } else {
      NamesNothing([], p, table, map[]);
    }
  }

  lemma {:induction false} EmitSlotsName(slots: seq<Option<Tpl>>, p: nat, c: nat, n: nat, table: map<nat, int>)
    requires n <= |slots| && TellsSlots(slots, p, c, table)
    ensures SlotsName(slots, p, c, n, table)
    decreases slots, n, 1
  {
    if n == 0 {
      NamesNothing([], p, table, map[]);
    } else {
      EmitSlotsName(slots, p, c, n - 1, table);
      SlotName(slots, p, c, n - 1, table);
      SlotsNameStep(slots, p, c, n, table);
    }
  }

  lemma SlotsNameStep(slots: seq<Option<Tpl>>, p: nat, c: nat, n: nat, table: map<nat, int>)
    requires 0 < n <= |slots| && SlotsName(slots, p, c, n - 1, table) && SlotNames(slots, p, c, n - 1, table)
    ensures SlotsName(slots, p, c, n, table)
  {
    EmitSlotsLength(slots, p, c, n - 1);
    NamesThen(EmitSlots(slots, p, c, n), EmitSlots(slots, p, c, n - 1), SlotPart(slots, p, c, n - 1), p,
              p + SizeSlots(slots, n - 1), table, PlacedFirst(slots, n - 1), PlacedOption(slots[n - 1]));
  }

  lemma {:induction false} SlotName(slots: seq<Option<Tpl>>, p: nat, c: nat, i: nat, table: map<nat, int>)
    requires i < |slots| && TellsSlots(slots, p, c, table)
    ensures SlotNames(slots, p, c, i, table)
    decreases slots, i, 0
  {
    SlotTells(slots, p, c, i, table);
    EmitOptionName(slots[i], p + SizeSlots(slots, i), c + EmitSlots(slots, p, c, i).labels, table);
  }

  // ---- the outcome of an emission ----

  /** The operations of an emission and whether all its branches were resolved. */
  ghost function Outcome(root: Option<Tpl>): (seq<PCodeOp>, bool)
    requires RootFits(root)
  {
    var d := EmitOption(root, 0, 0);
    RecordsInRange(root);
    PatchAll(EncodeAll(d.code), Recorded(d.refs), Stored(d.table))
  }

  /** Branches are recorded in order, at indices of operations issued. */
  ghost predicate Ascends(d: Emitted, p: nat)
  {
    Ascending(d.refs, p, p + Len(d.code))
  }

  lemma AscendsThen(d: Emitted, a: Emitted, b: Emitted, p: nat, q: nat)
    requires d == Then(a, b) && q == p + Len(a.code) && Ascends(a, p) && Ascends(b, q)
    ensures Ascends(d, p)
  {
    EncodeAllAppend(a.code, b.code);
    AscendingAppend(a.refs, b.refs, p, q, q + Len(b.code));
  }

  lemma {:induction false} EmitAscends(t: Tpl, p: nat, c: nat, n: nat)
    requires n <= |t.ops|
    ensures Ascends(EmitOps(t, p, c, n), p)
    decreases t, n
  {
    if n > 0 {
      var op, here, count := t.ops[n - 1], p + SizeOps(t, n - 1), c + t.labels + EmitOps(t, p, c, n - 1).labels;
      EmitAscends(t, p, c, n - 1);
      EmitOpAscends(op, here, c, count);
      OpsUnfold(t, p, c, n);
      AscendsThen(EmitOps(t, p, c, n), EmitOps(t, p, c, n - 1), Part(t, p, c, n - 1), p, here);
    }
  }

  lemma {:induction false} EmitOpAscends(op: OpTpl, p: nat, base: nat, c: nat)
    ensures Ascends(EmitOp(op, p, base, c), p)
    decreases op, 0
  {
    match op {
      case Build(nested) => EmitOptionAscends(nested, p, c);
      case DelaySlot(slots) => EmitSlotsAscends(slots, p, c, |slots|);
      case Label(_) =>
      case Issue(_, inputs, relative, _) =>
        IssueParts(op, NamedLabel(op, base));
        if relative {
          AscendingOne(p + Len(Loads(inputs)), p, p + Len(IssueCode(op, NamedLabel(op, base))));
        }
    }
  }

  lemma {:induction false} EmitOptionAscends(o: Option<Tpl>, p: nat, c: nat)
    ensures Ascends(EmitOption(o, p, c), p)
    decreases o, 0
  {
    if o.Some? {
      EmitAscends(o.value, p, c, |o.value.ops|);
    }
  }

  lemma {:induction false} EmitSlotsAscends(slots: seq<Option<Tpl>>, p: nat, c: nat, n: nat)
    requires n <= |slots|
    ensures Ascends(EmitSlots(slots, p, c, n), p)
    decreases slots, n
  {
    if n > 0 {
      var here := p + SizeSlots(slots, n - 1);
      EmitSlotsAscends(slots, p, c, n - 1);
      EmitOptionAscends(slots[n - 1], here, c + EmitSlots(slots, p, c, n - 1).labels);
      EmitSlotsLength(slots, p, c, n - 1);
      AscendsThen(EmitSlots(slots, p, c, n), EmitSlots(slots, p, c, n - 1), SlotPart(slots, p, c, n - 1), p, here);
    }
  }

  lemma {:induction false} RecordsInRange(root: Option<Tpl>)
    requires RootFits(root)
    ensures InRange(Recorded(EmitOption(root, 0, 0).refs), Len(EmitOption(root, 0, 0).code))
  {
    var d := EmitOption(root, 0, 0);
    EmitOptionAscends(root, 0, 0);
    AscendingOrder(d.refs, 0, Len(d.code));
  }

  lemma {:induction false} NamedIffEach(ops: seq<PCodeOp>, refs: seq<U8>, table: map<nat, int>)
    ensures Named(ops, 0, refs, table) <==> EachNamed(ops, refs, table)
    decreases |refs|
  {
    if refs != [] {
      var front: seq<U8> := refs[..|refs| - 1];
      NamedIffEach(ops, front, table);
      if Named(ops, 0, refs, table) {
        forall k | 0 <= k < |refs|
          ensures NamedAt(ops, 0, refs[k], table)
        {
          NamedEach(ops, 0, refs, table, k);
        }
      }
      if EachNamed(ops, refs, table) {
        forall k | 0 <= k < |front|
          ensures NamedAt(ops, 0, front[k], table)
        {
          assert NamedAt(ops, 0, refs[k], table);
        }
      }
    }
  }

  /** Every branch of an emission within reach is resolved if and only if every one names a label
      that its own instance placed; then the operations are the code that is meant. */
  lemma OutcomeExact(root: Option<Tpl>)
    requires RootFits(root) && OwnNamesOption(root) && Addressable(EmitOption(root, 0, 0))
    ensures Outcome(root).1 <==> PlacedOption(root)
    ensures PlacedOption(root) ==> Outcome(root).0 == EncodeAll(CodeOption(root, 0))
  {
    var d := EmitOption(root, 0, 0);
    var refs: seq<U8> := Recorded(d.refs);
    RecordsInRange(root);
    RecordedExactly(d);
    EmitOptionName(root, 0, 0, d.table);
    AscendingOrder(d.refs, 0, Len(d.code));
    PatchAllDistinct(EncodeAll(d.code), refs, d.table);
    NamedIffEach(EncodeAll(d.code), refs, d.table);
    if PlacedOption(root) {
      EmitOptionMeans(root, 0, 0, d.table);
    }
  }

  /** The same without knowing that branches name labels of their instance: placed labels suffice. */
  lemma PlacedResolves(root: Option<Tpl>)
    requires RootFits(root) && PlacedOption(root) && Addressable(EmitOption(root, 0, 0))
    ensures Outcome(root) == (EncodeAll(CodeOption(root, 0)), true)
  {
    var d := EmitOption(root, 0, 0);
    var refs: seq<U8> := Recorded(d.refs);
    RecordsInRange(root);
    RecordedExactly(d);
    EmitOptionMeans(root, 0, 0, d.table);
    AscendingOrder(d.refs, 0, Len(d.code));
    PatchAllDistinct(EncodeAll(d.code), refs, d.table);
    NamedIffEach(EncodeAll(d.code), refs, d.table);
  }

  // ---- a branch out of reach ----

  function Plain(): OpTpl
  {
    Issue(Other(0), [], false, None)
  }

  function Back(): OpTpl
  {
    Issue(Other(1), [Operand(Some(Varnode(0, 0, 8)), None)], true, None)
  }

  /** A label, `n` operations, and a branch back to the label. */
  function Loop(n: nat): Tpl
  {
    Tpl(1, [Label(0)] + seq(n, _ => Plain()) + [Back()])
  }

  lemma LoopOps(n: nat, i: nat)
    requires i < n + 2
    ensures |Loop(n).ops| == n + 2
    ensures Loop(n).ops[i] == if i == 0 then Label(0) else if i <= n then Plain() else Back()
  {
  }

  lemma {:induction false} LoopLabel(n: nat, k: nat)
    requires 1 <= k <= n + 2
    ensures |Loop(n).ops| == n + 2 && LastPlace(Loop(n), 0, k) == Some(0)
    decreases k
  {
    LoopOps(n, k - 1);
    if k > 1 {
      LoopLabel(n, k - 1);
    }
  }

  lemma LoopIsGood(n: nat)
    ensures Good(Loop(n)) && Placed(Loop(n)) && Defined(Loop(n)) && OwnNames(Loop(n))
  {
    var t := Loop(n);
    LoopOps(n, 0);
    LoopLabel(n, n + 2);
    forall i | 0 <= i < |t.ops|
      ensures GoodOp(t, t.ops[i]) && PlacedOp(t, t.ops[i]) && DefinedOp(t.ops[i]) && OwnNamesOp(t, t.ops[i])
    {
      LoopOps(n, i);
    }
  }

  const PLAIN_OP: PCodeOp := PCodeOp(Other(0), NO_INPUTS, INVALID)

  lemma PlainCode(target: U64)
    ensures EncodeAll(IssueCode(Plain(), target)) == [PLAIN_OP]
  {
    IssueParts(Plain(), target);
    assert Packed([])[1..] == [];
  }

  lemma BackCode(target: U64)
    ensures EncodeAll(IssueCode(Back(), target)) ==
            [PCodeOp(Other(1), Inputs(Varnode(0, target, 8), INVALID), INVALID)]
  {
    IssueParts(Back(), target);
    var vs := Core(Back(), target).inputs;
    assert Places(Back().inputs) == [Varnode(0, 0, 8)];
    assert vs == [Varnode(0, target, 8)];
    assert Packed(vs) == [Pair(vs)];
    assert Packed(vs)[1..] == [];
    assert EncodeAll(Loads(Back().inputs)) == [];
  }

  function Plains(k: nat): (r: seq<PCodeOp>)
    ensures |r| == k
  {
    seq(k, _ => PLAIN_OP)
  }

  /** After some of its operations the loop has emitted `k` plain ones, meaning the same. */
  ghost predicate AllPlain(d: Emitted, code: seq<FullOp>, size: nat, k: nat)
  {
    && size == k && EncodeAll(d.code) == Plains(k) && EncodeAll(code) == Plains(k)
    && d.refs == [] && d.labels == 0 && d.table == map[0 := 0]
  }

  ghost predicate PlainUpTo(t: Tpl, k: nat)
    requires k < |t.ops|
  {
    AllPlain(EmitOps(t, 0, 0, k + 1), CodeOps(t, 0, k + 1), SizeOps(t, k + 1), k)
  }

  lemma LabelPart(t: Tpl, i: nat)
    requires i < |t.ops| && t.ops[i] == Label(0)
    ensures Part(t, 0, 0, i) == Emitted([], [], map[0 := SizeOps(t, i)], 0)
    ensures CodeOp(t, t.ops[i], 0, SizeOps(t, i)) == [] && SizeOp(t.ops[i]) == 0
  {
  }

  lemma PlainPart(t: Tpl, i: nat)
    requires i < |t.ops| && t.ops[i] == Plain()
    ensures Part(t, 0, 0, i) == Emitted(IssueCode(Plain(), 0), [], map[], 0)
    ensures CodeOp(t, t.ops[i], 0, SizeOps(t, i)) == IssueCode(Plain(), 0) && SizeOp(t.ops[i]) == 1
  {
    PlainCode(0);
  }

  lemma BackPart(t: Tpl, i: nat, n: nat)
    requires i < |t.ops| && t.ops[i] == Back() && SizeOps(t, i) == n && Denotes(t, 0, 0) == 0
    ensures Part(t, 0, 0, i) == Emitted(IssueCode(Back(), 0), [n], map[], 0)
    ensures CodeOp(t, t.ops[i], 0, n) == IssueCode(Back(), Distance(0, n, 8))
  {
    assert Places(Back().inputs) == [Varnode(0, 0, 8)];
    assert Loads(Back().inputs) == [];
  }

  lemma PlainJoins(a: Emitted, b: Emitted, x: seq<FullOp>, size: nat, k: nat)
    requires AllPlain(a, x, size, k) && b == Emitted(IssueCode(Plain(), 0), [], map[], 0)
    ensures AllPlain(Then(a, b), x + IssueCode(Plain(), 0), size + 1, k + 1)
  {
    PlainCode(0);
    EncodeAllAppend(a.code, b.code);
    EncodeAllAppend(x, b.code);
    assert Plains(k + 1) == Plains(k) + [PLAIN_OP];
  }

  lemma PlainStart(t: Tpl)
    requires t.ops != [] && t.ops[0] == Label(0)
    ensures PlainUpTo(t, 0)
  {
    var d := EmitOps(t, 0, 0, 1);
    StartValues(t);
    OpsUnfold(t, 0, 0, 1);
    LabelPart(t, 0);
    ThenNothing(Part(t, 0, 0, 0));
    assert d == Part(t, 0, 0, 0);
    assert |d.code| == 0 && |d.refs| == 0 && d.labels == 0 && d.table == map[0 := 0];
    NothingYet(d, CodeOps(t, 0, 1), SizeOps(t, 1));
  }

  lemma StartValues(t: Tpl)
    requires t.ops != [] && t.ops[0] == Label(0)
    ensures SizeOps(t, 0) == 0 && SizeOps(t, 1) == 0
    ensures EmitOps(t, 0, 0, 0) == NOTHING && |CodeOps(t, 0, 1)| == 0
  {
    assert CodeOps(t, 0, 1) == CodeOps(t, 0, 0) + CodeOp(t, t.ops[0], 0, 0 + SizeOps(t, 0));
  }

  lemma ThenNothing(b: Emitted)
    ensures Then(NOTHING, b) == b
  {
    assert [] + b.code == b.code && [] + b.refs == b.refs && map[] + b.table == b.table;
  }

  lemma NothingYet(d: Emitted, code: seq<FullOp>, size: nat)
    requires |d.code| == 0 && |code| == 0 && size == 0 && |d.refs| == 0 && d.labels == 0 && d.table == map[0 := 0]
    ensures AllPlain(d, code, size, 0)
  {
    assert |EncodeAll(d.code)| == 0 && |EncodeAll(code)| == 0;
  }

  lemma PlainStep(t: Tpl, k: nat)
    requires 0 < k < |t.ops| && t.ops[k] == Plain() && PlainUpTo(t, k - 1)
    ensures PlainUpTo(t, k)
  {
    OpsUnfold(t, 0, 0, k + 1);
    PlainPart(t, k);
    PlainJoins(EmitOps(t, 0, 0, k), Part(t, 0, 0, k), CodeOps(t, 0, k), SizeOps(t, k), k - 1);
  }

  lemma {:induction false} LoopPrefix(n: nat, k: nat)
    requires k <= n
    ensures |Loop(n).ops| == n + 2 && PlainUpTo(Loop(n), k)
    decreases k
  {
    LoopOps(n, k);
    if k == 0 {
      PlainStart(Loop(n));
    } else {
      LoopPrefix(n, k - 1);
      PlainStep(Loop(n), k);
    }
  }

  function Branched(n: nat, target: U64): seq<PCodeOp>
  {
    Plains(n) + [PCodeOp(Other(1), Inputs(Varnode(0, target, 8), INVALID), INVALID)]
  }

  lemma BackJoins(a: Emitted, b: Emitted, x: seq<FullOp>, size: nat, n: nat, target: U64)
    requires AllPlain(a, x, size, n) && b == Emitted(IssueCode(Back(), 0), [n], map[], 0)
    ensures EncodeAll(Then(a, b).code) == Branched(n, 0) && Then(a, b).refs == [n]
    ensures Then(a, b).table == map[0 := 0] && Then(a, b).labels == 0
    ensures EncodeAll(x + IssueCode(Back(), target)) == Branched(n, target)
  {
    BackCode(0);
    BackCode(target);
    EncodeAllAppend(a.code, b.code);
    EncodeAllAppend(x, IssueCode(Back(), target));
    assert a.refs + b.refs == [n];
  }

  lemma LoopDenotes(n: nat)
    ensures Denotes(Loop(n), 0, 0) == 0
  {
    LoopLabel(n, n + 2);
  }

  /** The whole loop: `n` plain operations and the branch, which still names label 0 when it is
      issued and means the distance back to the start. */
  ghost predicate LoopEmits(n: nat)
  {
    var d := EmitOption(Some(Loop(n)), 0, 0);
    && d.refs == [n] && d.table == map[0 := 0] && d.labels == 1
    && EncodeAll(d.code) == Branched(n, 0)
    && EncodeAll(CodeOption(Some(Loop(n)), 0)) == Branched(n, Distance(0, n, 8))
  }

  lemma LoopWhole(n: nat)
    ensures RootFits(Some(Loop(n))) && LoopEmits(n)
  {
    LoopIsGood(n);
    LoopPrefix(n, n);
    LoopOps(n, n + 1);
    LoopDenotes(n);
    LastOp(Loop(n), n);
    LoopEnd(Loop(n), n);
  }

  /** What a loop of `n` plain operations issues and what it means, `labels` labels taken. */
  ghost predicate Ends(d: Emitted, code: seq<FullOp>, n: nat, labels: nat)
  {
    && d.refs == [n] && d.table == map[0 := 0] && d.labels == labels
    && EncodeAll(d.code) == Branched(n, 0)
    && EncodeAll(code) == Branched(n, Distance(0, n, 8))
  }

  ghost predicate EndsAt(t: Tpl, n: nat, k: nat)
    requires k <= |t.ops|
  {
    Ends(EmitOps(t, 0, 0, k), CodeOps(t, 0, k), n, 0)
  }

  ghost predicate TplEnds(t: Tpl, n: nat)
  {
    Ends(Emit(t, 0, 0), Code(t, 0), n, t.labels)
  }

  lemma LoopEnd(t: Tpl, n: nat)
    requires EndsAt(t, n, |t.ops|)
    ensures TplEnds(t, n)
  {
  }

  lemma LastOp(t: Tpl, n: nat)
    requires |t.ops| == n + 2 && PlainUpTo(t, n) && t.ops[n + 1] == Back() && Denotes(t, 0, 0) == 0
    ensures EndsAt(t, n, n + 2)
  {
    OpsUnfold(t, 0, 0, n + 2);
    BackPart(t, n + 1, n);
    BackJoins(EmitOps(t, 0, 0, n + 1), Part(t, 0, 0, n + 1), CodeOps(t, 0, n + 1), SizeOps(t, n + 1), n, Distance(0, n, 8));
  }

  /** A branch back over `n` operations, with its label placed, is resolved if and only if its index
      fits the byte it is recorded in. Otherwise the pass patches another operation, reports
      success, and leaves the branch with the number of its label. */
  lemma LoopResolves(n: nat)
    requires n < TWO_64
    ensures RootFits(Some(Loop(n))) && PlacedOption(Some(Loop(n))) && DefinedOption(Some(Loop(n)))
    ensures Outcome(Some(Loop(n))).1
    ensures Outcome(Some(Loop(n))).0 == EncodeAll(CodeOption(Some(Loop(n)), 0)) <==> n < 0x100
    ensures n >= 0x100 ==>
              && |Outcome(Some(Loop(n))).0| == n + 1
              && Outcome(Some(Loop(n))).0[n].inputs.first == Varnode(0, 0, 8)
  {
    LoopIsGood(n);
    LoopWhole(n);
    if n < 0x100 {
      PlacedResolves(Some(Loop(n)));
    } else {
      LoopLost(n);
    }
  }

  lemma LoopLost(n: nat)
    requires 0x100 <= n < TWO_64 && RootFits(Some(Loop(n))) && LoopEmits(n)
    ensures Outcome(Some(Loop(n))).1
    ensures |Outcome(Some(Loop(n))).0| == n + 1
    ensures Outcome(Some(Loop(n))).0[n].inputs.first == Varnode(0, 0, 8)
    ensures Outcome(Some(Loop(n))).0 != Branched(n, Distance(0, n, 8))
  {
    var d := EmitOption(Some(Loop(n)), 0, 0);
    RecordsInRange(Some(Loop(n)));
    var refs: seq<U8> := [ToU8(n)];
    assert Recorded(d.refs) == refs && Stored(d.table) == map[0 := 0];
    PatchOther(n, ToU8(n));
    BackNotZero(n);
  }

  lemma PatchOther(n: nat, k: U8)
    requires k < 0x100 <= n
    ensures var r := PatchAll(Branched(n, 0), [k], map[0 := 0]);
            r.1 && r.0[n] == Branched(n, 0)[n]
  {
    assert [k][1..] == [];
    assert Branched(n, 0)[k] == PLAIN_OP;
    PatchAllKeeps(Branched(n, 0), [k], map[0 := 0], n);
  }

  lemma BackNotZero(n: nat)
    requires 0 < n < TWO_64
    ensures Distance(0, n, 8) == TWO_64 - n
  {
    Bits.Pow2Of64();
  }

  /** The smallest such input: a branch back over 256 operations. */
  lemma FarBranchLost()
    ensures RootFits(Some(Loop(256))) && PlacedOption(Some(Loop(256)))
    ensures Outcome(Some(Loop(256))).0 != EncodeAll(CodeOption(Some(Loop(256)), 0))
  {
    LoopResolves(256);
  }
}
