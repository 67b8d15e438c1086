/** P-code templates, what building them issues before labels are resolved, and the code they
    mean (fugue-lifter-runtime/src/template.rs:32-51, 289-369, 533-588). */
module Emission {
  import opened Prelude
  import opened Bits
  import opened PCode

  // ---- templates ----

  /** A pointer that has to be loaded from or stored to, and its space. */
  datatype Pointer = Pointer(space: U8, at: Varnode)

  /** A varnode template at its operand: its location, if that can be computed, and its pointer if
      the operand is dynamic. */
  datatype Operand = Operand(location: Option<Varnode>, pointer: Option<Pointer>)

  /** The operations of a construct template. A build stands for the template of the operand's
      constructor, if it has one; a delay slot for those of the slots decoded. */
  datatype OpTpl =
    | Build(nested: Option<Tpl>)
    | DelaySlot(slots: seq<Option<Tpl>>)
    | Label(index: nat)
    | Issue(op: Op, inputs: seq<Operand>, relative: bool, output: Option<Operand>)

  datatype Tpl = Tpl(labels: U8, ops: seq<OpTpl>)

  function Place(o: Operand): Varnode
  {
    match o.location
    case Some(v) => v
    case None => INVALID
  }

  function Places(os: seq<Operand>): (r: seq<Varnode>)
    ensures |r| == |os|
  {
    seq(|os|, i requires 0 <= i < |os| => Place(os[i]))
  }

  // ---- one operation ----

  function LoadOf(o: Operand): seq<FullOp>
  {
    match o.pointer
    case None => []
    case Some(ptr) => [FullOp(Load(ptr.space), [ptr.at], Place(o))]
  }

  /** The loads that the dynamic inputs need, in order. */
  function Loads(os: seq<Operand>): seq<FullOp>
  {
    if os == [] then [] else Loads(os[..|os| - 1]) + LoadOf(os[|os| - 1])
  }

  function StoreOf(o: Operand): seq<FullOp>
  {
    match o.pointer
    case None => []
    case Some(ptr) => [FullOp(Store(ptr.space), [ptr.at, Place(o)], INVALID)]
  }

  function SetOffset(v: Varnode, offset: U64): Varnode
  {
    v.(offset := offset)
  }

  /** The operation itself; a relative one has `target` for the offset of its first input. */
  function Core(i: OpTpl, target: U64): FullOp
    requires i.Issue?
  {
    var vs := Places(i.inputs);
    FullOp(i.op, if i.relative && |vs| > 0 then vs[0 := SetOffset(vs[0], target)] else vs,
           if i.output.Some? then Place(i.output.value) else INVALID)
  }

  function Stores(i: OpTpl): seq<FullOp>
    requires i.Issue?
  {
    if i.output.Some? then StoreOf(i.output.value) else []
  }

  function IssueCode(i: OpTpl, target: U64): seq<FullOp>
    requires i.Issue?
  {
    Loads(i.inputs) + [Core(i, target)] + Stores(i)
  }

  function Len(ls: seq<FullOp>): nat
  {
    |EncodeAll(ls)|
  }

  // ---- the meaning of a template, with no label table ----

  function IssueSize(i: OpTpl): nat
    requires i.Issue?
  {
    Len(IssueCode(i, 0))
  }

  /** How many operations a template becomes. */
  function Size(t: Tpl): nat
    decreases t, |t.ops| + 1
  {
    SizeOps(t, |t.ops|)
  }

  function SizeOps(t: Tpl, n: nat): nat
    requires n <= |t.ops|
    decreases t, n
  {
    if n == 0 then 0 else SizeOps(t, n - 1) + SizeOp(t.ops[n - 1])
  }

  function SizeOp(op: OpTpl): nat
    decreases op, 0
  {
    match op
    case Build(nested) => SizeOption(nested)
    case DelaySlot(slots) => SizeSlots(slots, |slots|)
    case Label(_) => 0
    case Issue(_, _, _, _) => IssueSize(op)
  }

  function SizeOption(o: Option<Tpl>): nat
    decreases o, 0
  {
    match o
    case None => 0
    case Some(t) => Size(t)
  }

  function SizeSlots(slots: seq<Option<Tpl>>, n: nat): nat
    requires n <= |slots|
    decreases slots, n
  {
    if n == 0 then 0 else SizeSlots(slots, n - 1) + SizeOption(slots[n - 1])
  }

  /** Where among the first `n` operations a label was placed last. */
  function LastPlace(t: Tpl, label_: nat, n: nat): (r: Option<nat>)
    requires n <= |t.ops|
    ensures r.Some? ==> r.value < n && t.ops[r.value] == Label(label_)
    ensures forall k :: 0 <= k < n && t.ops[k] == Label(label_) ==> r.Some? && k <= r.value
  {
    if n == 0 then None
    else if t.ops[n - 1] == Label(label_) then Some(n - 1)
    else LastPlace(t, label_, n - 1)
  }

  /** The operation index a label of an instance that starts at `p` denotes. */
  function Denotes(t: Tpl, label_: nat, p: nat): nat
  {
    match LastPlace(t, label_, |t.ops|)
    case None => 0
    case Some(k) => p + SizeOps(t, k)
  }

  /** A branch at index `from` to index `to`, in `size` bytes. */
  function Distance(to: int, from: nat, size: nat): U64
  {
    Pow2Of64();
    Pow2Monotone(8 * if size < 8 then size else 8, 64);
    (to - from) % Pow2(8 * if size < 8 then size else 8)
  }

  /** Where the branch of an operation that starts at `here` goes. */
  function BranchTarget(t: Tpl, i: OpTpl, p: nat, here: nat): U64
    requires i.Issue?
  {
    if i.relative && |i.inputs| > 0 then
      var v := Place(i.inputs[0]);
      Distance(Denotes(t, v.offset, p), here + Len(Loads(i.inputs)), v.size)
    else 0
  }

  /** The code an instance of a template at index `p` means. */
  function Code(t: Tpl, p: nat): seq<FullOp>
    decreases t, |t.ops| + 1
  {
    CodeOps(t, p, |t.ops|)
  }

  function CodeOps(t: Tpl, p: nat, n: nat): seq<FullOp>
    requires n <= |t.ops|
    decreases t, n
  {
    if n == 0 then [] else CodeOps(t, p, n - 1) + CodeOp(t, t.ops[n - 1], p, p + SizeOps(t, n - 1))
  }

  function CodeOp(t: Tpl, op: OpTpl, p: nat, here: nat): seq<FullOp>
    decreases op, 0
  {
    match op
    case Build(nested) => CodeOption(nested, here)
    case DelaySlot(slots) => CodeSlots(slots, here, |slots|)
    case Label(_) => []
    case Issue(_, _, _, _) => IssueCode(op, BranchTarget(t, op, p, here))
  }

  function CodeOption(o: Option<Tpl>, p: nat): seq<FullOp>
    decreases o, 0
  {
    match o
    case None => []
    case Some(t) => Code(t, p)
  }

  function CodeSlots(slots: seq<Option<Tpl>>, p: nat, n: nat): seq<FullOp>
    requires n <= |slots|
    decreases slots, n
  {
    if n == 0 then [] else CodeSlots(slots, p, n - 1) + CodeOption(slots[n - 1], p + SizeSlots(slots, n - 1))
  }

  // ---- what building issues ----

  /** Code whose branches still name labels, the indices of those branches, where labels were
      placed, and how many labels were taken. */
  datatype Emitted = Emitted(code: seq<FullOp>, refs: seq<nat>, table: map<nat, nat>, labels: nat)

  const NOTHING: Emitted := Emitted([], [], map[], 0)

  function Then(a: Emitted, b: Emitted): Emitted
  {
    Emitted(a.code + b.code, a.refs + b.refs, a.table + b.table, a.labels + b.labels)
  }

  /** An instance at index `p` takes its labels from `c` on. */
  function Emit(t: Tpl, p: nat, c: nat): Emitted
    decreases t, |t.ops| + 1
  {
    var d := EmitOps(t, p, c, |t.ops|);
    d.(labels := t.labels + d.labels)
  }

  function EmitOps(t: Tpl, p: nat, c: nat, n: nat): Emitted
    requires n <= |t.ops|
    decreases t, n
  {
    if n == 0 then NOTHING
    else
      var a := EmitOps(t, p, c, n - 1);
      Then(a, EmitOp(t.ops[n - 1], p + SizeOps(t, n - 1), c, c + t.labels + a.labels))
  }

  /** A relative operation names the label of its instance's range. */
  function NamedLabel(i: OpTpl, base: nat): U64
    requires i.Issue?
  {
    if i.relative && |i.inputs| > 0 then ToU64(Place(i.inputs[0]).offset + base) else 0
  }

  function RefsOf(i: OpTpl, p: nat): seq<nat>
    requires i.Issue?
  {
    if i.relative then [p + Len(Loads(i.inputs))] else []
  }

  function EmitIssue(i: OpTpl, p: nat, base: nat): Emitted
    requires i.Issue?
  {
    Emitted(IssueCode(i, NamedLabel(i, base)), RefsOf(i, p), map[], 0)
  }

  function EmitOp(op: OpTpl, p: nat, base: nat, c: nat): Emitted
    decreases op, 0
  {
    match op
    case Build(nested) => EmitOption(nested, p, c)
    case DelaySlot(slots) => EmitSlots(slots, p, c, |slots|)
    case Label(index) => Emitted([], [], map[base + index := p], 0)
    case Issue(_, _, _, _) => EmitIssue(op, p, base)
  }

  function EmitOption(o: Option<Tpl>, p: nat, c: nat): Emitted
    decreases o, 0
  {
    match o
    case None => NOTHING
    case Some(t) => Emit(t, p, c)
  }

  function EmitSlots(slots: seq<Option<Tpl>>, p: nat, c: nat, n: nat): Emitted
    requires n <= |slots|
    decreases slots, n
  {
    if n == 0 then NOTHING
    else
      var a := EmitSlots(slots, p, c, n - 1);
      Then(a, EmitOption(slots[n - 1], p + SizeSlots(slots, n - 1), c + a.labels))
  }

  // ---- what generated templates keep to ----

  predicate GoodOp(t: Tpl, op: OpTpl)
    decreases op, 0
  {
    match op
    case Build(nested) => GoodOption(nested)
    case DelaySlot(slots) => GoodSlots(slots)
    case Label(index) => index < t.labels
    case Issue(_, inputs, relative, _) => |inputs| <= 2 + 2 * MAX_INPUTS_SPILL && (relative ==> |inputs| > 0)
  }

  predicate GoodSlots(slots: seq<Option<Tpl>>)
    decreases slots, 0
  {
    forall i :: 0 <= i < |slots| ==> GoodOption(slots[i])
  }

  predicate GoodOption(o: Option<Tpl>)
    decreases o, 0
  {
    o.Some? ==> Good(o.value)
  }

  /** Labels stay within the declared number, and no operation has more inputs than can be held. */
  predicate Good(t: Tpl)
    decreases t, 0
  {
    forall i :: 0 <= i < |t.ops| ==> GoodOp(t, t.ops[i])
  }

  predicate PlacedOp(t: Tpl, op: OpTpl)
    decreases op, 0
  {
    match op
    case Build(nested) => PlacedOption(nested)
    case DelaySlot(slots) => PlacedSlots(slots)
    case Label(_) => true
    case Issue(_, inputs, relative, _) =>
      relative ==> |inputs| > 0 && LastPlace(t, Place(inputs[0]).offset, |t.ops|).Some?
  }

  predicate PlacedSlots(slots: seq<Option<Tpl>>)
    decreases slots, 0
  {
    forall i :: 0 <= i < |slots| ==> PlacedOption(slots[i])
  }

  predicate PlacedOption(o: Option<Tpl>)
    decreases o, 0
  {
    o.Some? ==> Placed(o.value)
  }

  /** Every relative branch names a label that its own instance places. */
  predicate Placed(t: Tpl)
    decreases t, 0
  {
    forall i :: 0 <= i < |t.ops| ==> PlacedOp(t, t.ops[i])
  }

  predicate DefinedOp(op: OpTpl)
    decreases op, 0
  {
    match op
    case Build(nested) => DefinedOption(nested)
    case DelaySlot(slots) => slots != [] && DefinedSlots(slots)
    case Label(_) => true
    case Issue(_, inputs, _, output) =>
      (forall i :: 0 <= i < |inputs| ==> inputs[i].location.Some?) && (output.Some? ==> output.value.location.Some?)
  }

  predicate DefinedSlots(slots: seq<Option<Tpl>>)
    decreases slots, 0
  {
    forall i :: 0 <= i < |slots| ==> DefinedOption(slots[i])
  }

  predicate DefinedOption(o: Option<Tpl>)
    decreases o, 0
  {
    o.Some? ==> Defined(o.value)
  }

  /** Every location can be computed and every delay-slot operation has slots to build. */
  predicate Defined(t: Tpl)
    decreases t, 0
  {
    forall i :: 0 <= i < |t.ops| ==> DefinedOp(t.ops[i])
  }
}
