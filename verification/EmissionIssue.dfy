/** Which p-code operations one template operation becomes, index by index
    (fugue-lifter-runtime/src/template.rs:343-378, 567-615; fugue-lifter-runtime/src/pcode.rs:567-611). */
module EmissionIssue {
  import opened Prelude
  import opened PCode
  import opened Emission
  import opened EmissionProofs

  /** How many operands are dynamic. */
  function Dynamics(os: seq<Operand>): nat
  {
    if os == [] then 0 else Dynamics(os[..|os| - 1]) + if os[|os| - 1].pointer.Some? then 1 else 0
  }

  /** Input `j` of the operation whose first two inputs are those of `ops[0]`, the others following in
      pairs. */
  function InputOf(ops: seq<PCodeOp>, j: nat): Varnode
    requires j / 2 < |ops|
  {
    if j % 2 == 0 then ops[j / 2].inputs.first else ops[j / 2].inputs.second
  }

  /** The load of a dynamic input: from its pointer, to where the operation reads the input. */
  ghost predicate LoadsInput(op: PCodeOp, o: Operand)
    requires o.location.Some? && o.pointer.Some?
  {
    op == PCodeOp(Load(o.pointer.value.space), Inputs(o.pointer.value.at, INVALID), o.location.value)
  }

  /** The store of a dynamic output: through its pointer, of what the operation put there. */
  ghost predicate StoresOutput(op: PCodeOp, o: Operand)
    requires o.location.Some? && o.pointer.Some?
  {
    op == PCodeOp(Store(o.pointer.value.space), Inputs(o.pointer.value.at, o.location.value), INVALID)
  }

  /** The operation proper: its code and output, all inputs in order, two with it and the others in as
      many arguments as they need, and nothing where there are no more inputs. A relative operation
      has `target` for the offset of its first input. */
  ghost predicate IsOperation(ops: seq<PCodeOp>, i: OpTpl, target: U64)
    requires i.Issue? && DefinedOp(i)
  {
    var n := |i.inputs|;
    && |ops| == (if n <= 2 then 1 else (n + 1) / 2)
    && ops[0].op == i.op
    && ops[0].output == (if i.output.Some? then i.output.value.location.value else INVALID)
    && (forall q :: 1 <= q < |ops| ==> ops[q].op == Arg && ops[q].output == INVALID)
    && (forall j :: 0 <= j < 2 * |ops| ==> HasInput(ops, i, target, j))
  }

  ghost predicate HasInput(ops: seq<PCodeOp>, i: OpTpl, target: U64, j: nat)
    requires i.Issue? && DefinedOp(i) && j / 2 < |ops|
  {
    InputOf(ops, j) ==
      if j >= |i.inputs| then INVALID
      else if j == 0 && i.relative then i.inputs[0].location.value.(offset := target)
      else i.inputs[j].location.value
  }

  /** Directly before the operation the loads of its dynamic inputs, in order; directly after it the
      store of its output, if that is dynamic; and nothing else. */
  ghost predicate IssuedAs(ops: seq<PCodeOp>, i: OpTpl, target: U64)
    requires i.Issue? && DefinedOp(i)
  {
    var k, stored := Dynamics(i.inputs), i.output.Some? && i.output.value.pointer.Some?;
    && (forall j :: 0 <= j < |i.inputs| && i.inputs[j].pointer.Some? ==>
          Dynamics(i.inputs[..j]) < |ops| && LoadsInput(ops[Dynamics(i.inputs[..j])], i.inputs[j]))
    && k < |ops| && (stored ==> k + 1 < |ops|)
    && IsOperation(if stored then ops[k..|ops| - 1] else ops[k..], i, target)
    && (stored ==> StoresOutput(ops[|ops| - 1], i.output.value))
  }

  // ---- loads ----

  lemma {:induction false} DynamicsBefore(os: seq<Operand>, j: nat)
    requires j < |os| && os[j].pointer.Some?
    ensures Dynamics(os[..j]) < Dynamics(os)
    decreases |os|
  {
    var front := os[..|os| - 1];
    if j < |front| {
      assert front[..j] == os[..j];
      DynamicsBefore(front, j);
    }
  }

  lemma {:induction false} LoadsLayout(os: seq<Operand>, j: nat)
    requires j <= |os| && (j < |os| ==> os[j].location.Some?)
    ensures Len(Loads(os)) == Dynamics(os)
    ensures j < |os| && os[j].pointer.Some? ==>
              && Dynamics(os[..j]) < Dynamics(os) && LoadsInput(EncodeAll(Loads(os))[Dynamics(os[..j])], os[j])
    decreases |os|
  {
    if os != [] {
      var front, last := os[..|os| - 1], os[|os| - 1];
      EncodeAllAppend(Loads(front), LoadOf(last));
      LoadLayout(last);
      if j < |front| {
        assert front[..j] == os[..j];
        LoadsLayout(front, j);
      } else {
        LoadsLayout(front, |front|);
      }
    }
  }

  lemma LoadLayout(o: Operand)
    ensures EncodeAll(LoadOf(o)) ==
            if o.pointer.None? then []
            else [PCodeOp(Load(o.pointer.value.space), Inputs(o.pointer.value.at, INVALID), Place(o))]
  {
    if o.pointer.Some? {
      var l := FullOp(Load(o.pointer.value.space), [o.pointer.value.at], Place(o));
      EncodeOne(l);
      EncodeSmall(l);
    }
  }

  lemma EncodeSmall(l: FullOp)
    requires |l.inputs| <= 2
    ensures Encode(l) == [PCodeOp(l.op, Pair(l.inputs), l.output)]
  {
    assert Packed(l.inputs)[1..] == [];
  }

  lemma StoreLayout(o: Operand)
    ensures EncodeAll(StoreOf(o)) ==
            if o.pointer.None? then []
            else [PCodeOp(Store(o.pointer.value.space), Inputs(o.pointer.value.at, Place(o)), INVALID)]
  {
    if o.pointer.Some? {
      var l := FullOp(Store(o.pointer.value.space), [o.pointer.value.at, Place(o)], INVALID);
      EncodeOne(l);
      EncodeSmall(l);
    }
  }

  // ---- the operation proper ----

  lemma {:induction false} PackedAt(vs: seq<Varnode>, j: nat)
    requires j / 2 < |Packed(vs)|
    ensures (if j % 2 == 0 then Packed(vs)[j / 2].first else Packed(vs)[j / 2].second) ==
            if j < |vs| then vs[j] else INVALID
    decreases |vs|
  {
    if |vs| > 2 && j >= 2 {
      assert (j - 2) / 2 == j / 2 - 1 && (j - 2) % 2 == j % 2;
      PackedAt(vs[2..], j - 2);
    }
  }

  lemma EncodedAt(l: FullOp, j: nat)
    requires j / 2 < |Encode(l)|
    ensures InputOf(Encode(l), j) == if j < |l.inputs| then l.inputs[j] else INVALID
  {
    PackedAt(l.inputs, j);
  }

  lemma OperationLayout(i: OpTpl, target: U64)
    requires i.Issue? && DefinedOp(i)
    ensures IsOperation(Encode(Core(i, target)), i, target)
  {
    var l := Core(i, target);
    var ops := Encode(l);
    PackedLength(l.inputs);
    forall j | 0 <= j < 2 * |ops|
      ensures HasInput(ops, i, target, j)
    {
      EncodedAt(l, j);
    }
  }

  // ---- all together ----

  lemma StoresLayout(i: OpTpl)
    requires i.Issue? && DefinedOp(i)
    ensures var stored := i.output.Some? && i.output.value.pointer.Some?;
            && Len(Stores(i)) == (if stored then 1 else 0)
            && (stored ==> StoresOutput(EncodeAll(Stores(i))[0], i.output.value))
  {
    if i.output.Some? {
      StoreLayout(i.output.value);
    }
  }

  /** What an operation becomes. */
  lemma IssueLayout(i: OpTpl, target: U64)
    requires i.Issue? && DefinedOp(i)
    ensures IssuedAs(EncodeAll(IssueCode(i, target)), i, target)
  {
    IssueParts(i, target);
    OperationLayout(i, target);
    StoresLayout(i);
    LoadsLayout(i.inputs, |i.inputs|);
    forall j | 0 <= j < |i.inputs| && i.inputs[j].pointer.Some?
      ensures Dynamics(i.inputs[..j]) < Dynamics(i.inputs)
      ensures LoadsInput(EncodeAll(Loads(i.inputs))[Dynamics(i.inputs[..j])], i.inputs[j])
    {
      LoadsLayout(i.inputs, j);
    }
    Parts(i, target, EncodeAll(Loads(i.inputs)), Encode(Core(i, target)), EncodeAll(Stores(i)));
  }

  lemma Parts(i: OpTpl, target: U64, x: seq<PCodeOp>, y: seq<PCodeOp>, z: seq<PCodeOp>)
    requires i.Issue? && DefinedOp(i) && |x| == Dynamics(i.inputs) && IsOperation(y, i, target)
    requires forall j :: 0 <= j < |i.inputs| && i.inputs[j].pointer.Some? ==>
               Dynamics(i.inputs[..j]) < |x| && LoadsInput(x[Dynamics(i.inputs[..j])], i.inputs[j])
    requires var stored := i.output.Some? && i.output.value.pointer.Some?;
             |z| == (if stored then 1 else 0) && (stored ==> StoresOutput(z[0], i.output.value))
    ensures IssuedAs(x + y + z, i, target)
  {
    var ops := x + y + z;
    if |z| == 1 {
      assert ops[|x|..|ops| - 1] == y && ops[|ops| - 1] == z[0];
    } else {
      assert ops[|x|..] == y;
    }
    forall j | 0 <= j < |i.inputs| && i.inputs[j].pointer.Some?
      ensures LoadsInput(ops[Dynamics(i.inputs[..j])], i.inputs[j])
    {
      assert ops[Dynamics(i.inputs[..j])] == x[Dynamics(i.inputs[..j])];
    }
  }

  /** Such an operation: what it puts at 0x100 of space 3 is stored through the pointer at 0x20 of
      space 1, into space 2. */
  lemma StoredOutput(op: Op)
    ensures var o := Operand(Some(Varnode(3, 0x100, 4)), Some(Pointer(2, Varnode(1, 0x20, 8))));
            EncodeAll(IssueCode(Issue(op, [], false, Some(o)), 0)) ==
            [PCodeOp(op, NO_INPUTS, Varnode(3, 0x100, 4)),
             PCodeOp(Store(2), Inputs(Varnode(1, 0x20, 8), Varnode(3, 0x100, 4)), INVALID)]
  {
    var o := Operand(Some(Varnode(3, 0x100, 4)), Some(Pointer(2, Varnode(1, 0x20, 8))));
    var i := Issue(op, [], false, Some(o));
    var ops := EncodeAll(IssueCode(i, 0));
    IssueLayout(i, 0);
    var core := ops[0..|ops| - 1];
    assert HasInput(core, i, 0, 0) && HasInput(core, i, 0, 1);
    assert ops == [ops[0], ops[1]];
  }
}
