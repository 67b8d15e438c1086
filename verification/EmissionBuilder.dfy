/** The p-code builder: it pushes inputs, issues operations, places labels and patches branches in
    place, and what it issues is the code its templates mean
    (fugue-lifter-runtime/src/pcode.rs:423-480, 567-638, fugue-lifter-runtime/src/template.rs:32-51, 289-369). */
module EmissionBuilder {
  import opened Prelude
  import opened Bits
  import opened PCode
  import opened Emission
  import opened EmissionProofs
  import opened EmissionIssue
  import opened EmissionResolve
  import opened EmissionLabels

  const UMASKS: seq<U64> :=
    [0, 0xff, 0xffff, 0xff_ffff, 0xffff_ffff, 0xff_ffff_ffff, 0xffff_ffff_ffff, 0xff_ffff_ffff_ffff, 0xffff_ffff_ffff_ffff]

  function CalculateMask(index: nat): U64
  {
    UMASKS[if index >= |UMASKS| then |UMASKS| - 1 else index]
  }

  /** The mask of a size has its bytes set. */
  lemma MaskIsLowBytes(size: nat)
    ensures CalculateMask(size) == Pow2(8 * if size < 8 then size else 8) - 1
  {
    Pow2Of64();
    Pow2Add(8, 16);
    Pow2Add(8, 32);
    Pow2Add(16, 32);
    Pow2Add(24, 32);
  }

  /** Subtracting with wrap-around and masking is subtracting modulo the size. */
  lemma MaskedDistance(to: int, from: nat, size: nat)
    ensures And(ToU64(to - from), CalculateMask(size)) == Distance(to, from, size)
  {
    var n := 8 * if size < 8 then size else 8;
    MaskIsLowBytes(size);
    AndMask(ToU64(to - from), n);
    Pow2Of64();
    Pow2Add(n, 64 - n);
    ModMod(to - from, Pow2(n), Pow2(64 - n));
  }

  lemma ModMod(a: int, m: nat, k: nat)
    requires m > 0 && k > 0
    ensures m * k > 0 && (a % (m * k)) % m == a % m
  {
    var q, r := a / (m * k), a % (m * k);
    var s, u := r / m, r % m;
    assert a == (m * k) * q + r && r == m * s + u;
    assert (m * k) * q == m * (k * q);
    assert a == m * (k * q + s) + u by { assert m * (k * q) + m * s == m * (k * q + s); }
    var q', r' := a / m, a % m;
    if k * q + s < q' {
      MulStep(m, k * q + s, q');
    } else if q' < k * q + s {
      MulStep(m, q', k * q + s);
    }
  }

  // ---- snapshots ----

  /** What the builder has done so far. */
  datatype Progress = Progress(issued: seq<PCodeOp>, base: U8, count: U8, refs: seq<U8>, labels: seq<int>)

  ghost predicate Overlay(now: seq<int>, was: seq<int>, table: map<nat, nat>)
  {
    && |now| == |was| == MAX_LABELS
    && forall k :: 0 <= k < MAX_LABELS ==> now[k] == if k in table then ToI16(table[k]) else was[k]
  }

  /** The builder has gone on by `d`. */
  ghost predicate Advanced(was: Progress, now: Progress, d: Emitted)
  {
    && now.issued == was.issued + EncodeAll(d.code)
    && now.base == was.base && now.count == was.count + d.labels
    && now.refs == was.refs + Recorded(d.refs)
    && Overlay(now.labels, was.labels, d.table)
  }

  lemma OverlayThen(x: seq<int>, y: seq<int>, z: seq<int>, a: map<nat, nat>, b: map<nat, nat>)
    requires Overlay(y, x, a) && Overlay(z, y, b)
    ensures Overlay(z, x, a + b)
  {
  }

  lemma Join<T>(x: seq<T>, a: seq<T>, b: seq<T>)
    ensures x + a + b == x + (a + b)
  {
  }

  lemma RecordedAppend(a: seq<nat>, b: seq<nat>)
    ensures Recorded(a + b) == Recorded(a) + Recorded(b)
  {
  }

  lemma AdvancedThen(x: Progress, y: Progress, z: Progress, a: Emitted, b: Emitted)
    requires Advanced(x, y, a) && Advanced(y, z, b)
    ensures Advanced(x, z, Then(a, b))
  {
    EncodeAllAppend(a.code, b.code);
    RecordedAppend(a.refs, b.refs);
    Join(x.issued, EncodeAll(a.code), EncodeAll(b.code));
    Join(x.refs, Recorded(a.refs), Recorded(b.refs));
    OverlayThen(x.labels, y.labels, z.labels, a.table, b.table);
  }

  lemma AdvancedNothing(x: Progress)
    requires |x.labels| == MAX_LABELS
    ensures Advanced(x, x, NOTHING)
  {
  }

  // ---- resolving ----

  /** The label table as a map. */
  function TableOf(labels: seq<int>): map<nat, int>
  {
    map k | 0 <= k < |labels| && labels[k] != INVALID_LABEL :: labels[k]
  }

  predicate Located(os: seq<Operand>, n: nat)
    requires n <= |os|
  {
    forall k :: 0 <= k < n ==> os[k].location.Some?
  }

  lemma InputsPush(os: seq<Operand>, k: nat)
    requires k < |os| && Located(os, k) && os[k].location.Some?
    ensures Located(os, k + 1)
    ensures Places(os[..k]) + [Place(os[k])] == Places(os[..k + 1])
    ensures EncodeAll(Loads(os[..k + 1])) == EncodeAll(Loads(os[..k])) + EncodeAll(LoadOf(os[k]))
  {
    assert os[..k + 1][..k] == os[..k];
    EncodeAllAppend(Loads(os[..k]), LoadOf(os[k]));
  }

  /** The pending inputs are those of the operation, with the offset of a relative one replaced. */
  ghost predicate PendingFor(i: OpTpl, target: U64, pair: Inputs, spill: seq<Inputs>)
    requires i.Issue?
  {
    var ps := Packed(Places(i.inputs));
    && spill == ps[1..]
    && pair == if i.relative && |i.inputs| > 0 then ps[0].(first := SetOffset(ps[0].first, target)) else ps[0]
  }

  lemma RecordsReach(refs: seq<U8>, n: nat, relative: bool, at: nat, end: nat)
    requires InRange(refs, n) && n <= at < end
    ensures InRange(refs + (if relative then [ToU8(at)] else []), end)
  {
  }

  lemma PendingMarked(i: OpTpl, base: U8, pair: Inputs, marked: Inputs, spill: seq<Inputs>)
    requires i.Issue? && (i.relative ==> |i.inputs| > 0) && [pair] + spill == Packed(Places(i.inputs))
    requires marked == if i.relative then pair.(first := SetOffset(pair.first, ToU64(pair.first.offset + base))) else pair
    ensures PendingFor(i, NamedLabel(i, base), marked, spill)
  {
    assert ([pair] + spill)[1..] == spill && ([pair] + spill)[0] == pair;
  }

  lemma CoreHeld(i: OpTpl, target: U64, pair: Inputs, spill: seq<Inputs>)
    requires i.Issue? && PendingFor(i, target, pair, spill)
    ensures Encode(Core(i, target)) == [PCodeOp(i.op, pair, Core(i, target).output)] + Args(spill)
  {
    var vs, ws := Places(i.inputs), Core(i, target).inputs;
    if |vs| > 2 {
      assert vs[2..] == ws[2..];
    }
  }

  ghost predicate IssueBuilt(i: OpTpl, was: Progress, now: Progress)
    requires i.Issue?
  {
    Advanced(was, now, EmitIssue(i, |was.issued|, was.base))
  }

  /** Behind what was there lies the operation, index by index; a relative one has its label renamed
      and its index recorded. */
  ghost predicate IssuedIndexed(i: OpTpl, was: Progress, now: Progress)
    requires i.Issue?
  {
    && DefinedOp(i) && was.issued <= now.issued
    && IssuedAs(now.issued[|was.issued|..], i, NamedLabel(i, was.base))
    && now.refs == was.refs + if i.relative then [ToU8(|was.issued| + Dynamics(i.inputs))] else []
  }

  lemma IssuedBehind(i: OpTpl, was: Progress, now: Progress)
    requires i.Issue? && DefinedOp(i) && IssueBuilt(i, was, now)
    ensures IssuedIndexed(i, was, now)
  {
    IssueLayout(i, NamedLabel(i, was.base));
    RecordedIndex(i, |was.issued|);
    ShowsIndexed(i, was, now, EncodeAll(IssueCode(i, NamedLabel(i, was.base))), Recorded(RefsOf(i, |was.issued|)));
  }

  lemma RecordedIndex(i: OpTpl, p: nat)
    requires i.Issue? && DefinedOp(i)
    ensures Recorded(RefsOf(i, p)) == if i.relative then [ToU8(p + Dynamics(i.inputs))] else []
  {
    RecordedOne(i, p);
    LoadsLayout(i.inputs, |i.inputs|);
  }

  lemma ShowsIndexed(i: OpTpl, was: Progress, now: Progress, code: seq<PCodeOp>, refs: seq<U8>)
    requires i.Issue? && DefinedOp(i) && now.issued == was.issued + code && now.refs == was.refs + refs
    requires IssuedAs(code, i, NamedLabel(i, was.base))
    requires refs == if i.relative then [ToU8(|was.issued| + Dynamics(i.inputs))] else []
    ensures IssuedIndexed(i, was, now)
  {
    assert now.issued[|was.issued|..] == code;
  }

  lemma IssueAdvances(i: OpTpl, target: U64, was: Progress, before: seq<PCodeOp>, now: Progress)
    requires i.Issue? && (i.relative ==> |i.inputs| > 0) && |was.labels| == MAX_LABELS
    requires target == NamedLabel(i, was.base)
    requires before == was.issued + EncodeAll(Loads(i.inputs))
    requires now == was.(issued := before + Encode(Core(i, target)) + EncodeAll(Stores(i)),
                         refs := was.refs + if i.relative then [ToU8(|before|)] else [])
    ensures IssueBuilt(i, was, now)
  {
    RecordedOne(i, |was.issued|);
    IssueExtends(i, target, was.issued);
    AppendAdvances(was, now, IssueCode(i, target), RefsOf(i, |was.issued|));
  }

  lemma RecordedOne(i: OpTpl, p: nat)
    requires i.Issue?
    ensures Recorded(RefsOf(i, p)) == if i.relative then [ToU8(p + Len(Loads(i.inputs)))] else []
  {
  }

  lemma AppendAdvances(was: Progress, now: Progress, code: seq<FullOp>, refs: seq<nat>)
    requires |was.labels| == MAX_LABELS
    requires now == was.(issued := was.issued + EncodeAll(code), refs := was.refs + Recorded(refs))
    ensures Advanced(was, now, Emitted(code, refs, map[], 0))
  {
  }

  lemma IssueExtends(i: OpTpl, target: U64, issued: seq<PCodeOp>)
    requires i.Issue?
    ensures issued + EncodeAll(Loads(i.inputs)) + Encode(Core(i, target)) + EncodeAll(Stores(i)) ==
            issued + EncodeAll(IssueCode(i, target))
  {
    IssueParts(i, target);
    JoinThree(issued, EncodeAll(Loads(i.inputs)), Encode(Core(i, target)), EncodeAll(Stores(i)));
  }

  lemma JoinThree<T>(x: seq<T>, a: seq<T>, b: seq<T>, c: seq<T>)
    ensures x + a + b + c == x + (a + b + c)
  {
  }

  /** There are labels left for an operation, an optional instance, a run of slots or an instance. */
  ghost predicate OpFits(t: Tpl, op: OpTpl, here: Progress)
  {
    && GoodOp(t, op) && here.base + t.labels < MAX_LABELS
    && here.count + EmitOp(op, |here.issued|, here.base, here.count).labels < MAX_LABELS
  }

  ghost predicate OptionFits(o: Option<Tpl>, here: Progress)
  {
    GoodOption(o) && here.count + EmitOption(o, |here.issued|, here.count).labels < MAX_LABELS
  }

  ghost predicate SlotsFit(slots: seq<Option<Tpl>>, p: nat, c: nat)
  {
    GoodSlots(slots) && c + EmitSlots(slots, p, c, |slots|).labels < MAX_LABELS
  }

  ghost predicate TplFits(t: Tpl, p: nat, c: nat)
  {
    Good(t) && c + Emit(t, p, c).labels < MAX_LABELS
  }

  lemma FitsItself(t: Tpl, p: nat, c: nat)
    requires TplFits(t, p, c)
    ensures c + t.labels < MAX_LABELS
  {
  }

  lemma NothingHeld(vs: seq<Varnode>)
    requires |vs| == 0
    ensures Packed(vs) == [NO_INPUTS] && [NO_INPUTS] + [] == Packed(vs)
  {
  }

  /** The next operation is built where the emission has it. */
  ghost predicate PartHere(t: Tpl, p: nat, c: nat, n: nat, here: Progress)
    requires n < |t.ops|
  {
    EmitOp(t.ops[n], |here.issued|, here.base, here.count) == Part(t, p, c, n)
  }

  ghost predicate SlotHere(slots: seq<Option<Tpl>>, p: nat, c: nat, n: nat, here: Progress)
    requires n < |slots|
  {
    EmitOption(slots[n], |here.issued|, here.count) == SlotPart(slots, p, c, n)
  }

  /** The operations of an instance are built from here on. */
  ghost predicate StartsAt(t: Tpl, p: nat, c: nat, start: Progress)
  {
    |start.issued| == p && start.base == c && start.count == c + t.labels
  }

  lemma PartFits(t: Tpl, p: nat, c: nat, n: nat, start: Progress, here: Progress)
    requires n < |t.ops| && TplFits(t, p, c)
    requires StartsAt(t, p, c, start) && OpsBuilt(t, p, c, n, start, here)
    ensures OpFits(t, t.ops[n], here) && PartHere(t, p, c, n, here)
  {
    EmitOpsLength(t, p, c, n);
    PartLabels(t, p, c, n, |t.ops|);
  }

  lemma SlotFits(slots: seq<Option<Tpl>>, p: nat, c: nat, n: nat, start: Progress, here: Progress)
    requires n < |slots| && SlotsFit(slots, p, c)
    requires |start.issued| == p && start.count == c
    requires SlotsBuilt(slots, p, c, n, start, here)
    ensures OptionFits(slots[n], here) && SlotHere(slots, p, c, n, here)
  {
    EmitSlotsLength(slots, p, c, n);
    SlotLabels(slots, p, c, n, |slots|);
  }

  predicate DefinedOps(t: Tpl, n: nat)
    requires n <= |t.ops|
  {
    forall k :: 0 <= k < n ==> DefinedOp(t.ops[k])
  }

  predicate DefinedFirst(slots: seq<Option<Tpl>>, n: nat)
    requires n <= |slots|
  {
    forall k :: 0 <= k < n ==> DefinedOption(slots[k])
  }

  lemma UndefinedOp(t: Tpl, n: nat)
    requires n < |t.ops| && !DefinedOp(t.ops[n])
    ensures !Defined(t)
  {
  }

  lemma UndefinedSlot(slots: seq<Option<Tpl>>, n: nat)
    requires n < |slots| && !DefinedOption(slots[n])
    ensures !DefinedSlots(slots)
  {
  }

  lemma AllOpsDefined(t: Tpl)
    ensures DefinedOps(t, |t.ops|) <==> Defined(t)
  {
  }

  lemma AllSlotsDefined(slots: seq<Option<Tpl>>)
    ensures DefinedFirst(slots, |slots|) <==> DefinedSlots(slots)
  {
  }

  /** The first `n` operations of an instance are built. */
  ghost predicate OpsBuilt(t: Tpl, p: nat, c: nat, n: nat, start: Progress, here: Progress)
    requires n <= |t.ops|
  {
    DefinedOps(t, n) && Advanced(start, here, EmitOps(t, p, c, n))
  }

  ghost predicate SlotsBuilt(slots: seq<Option<Tpl>>, p: nat, c: nat, n: nat, start: Progress, here: Progress)
    requires n <= |slots|
  {
    DefinedFirst(slots, n) && Advanced(start, here, EmitSlots(slots, p, c, n))
  }

  /** One step of building. */
  ghost predicate OpBuilt(op: OpTpl, was: Progress, now: Progress)
  {
    Advanced(was, now, EmitOp(op, |was.issued|, was.base, was.count))
  }

  ghost predicate OptionBuilt(o: Option<Tpl>, was: Progress, now: Progress)
  {
    Advanced(was, now, EmitOption(o, |was.issued|, was.count))
  }

  lemma PartAdvances(t: Tpl, p: nat, c: nat, n: nat, start: Progress, here: Progress, now: Progress)
    requires n < |t.ops| && OpsBuilt(t, p, c, n, start, here) && DefinedOp(t.ops[n]) && OpBuilt(t.ops[n], here, now)
    requires PartHere(t, p, c, n, here)
    ensures OpsBuilt(t, p, c, n + 1, start, now)
  {
    AdvancedThen(start, here, now, EmitOps(t, p, c, n), Part(t, p, c, n));
  }

  lemma SlotAdvances(slots: seq<Option<Tpl>>, p: nat, c: nat, n: nat, start: Progress, here: Progress, now: Progress)
    requires n < |slots| && SlotsBuilt(slots, p, c, n, start, here)
    requires DefinedOption(slots[n]) && OptionBuilt(slots[n], here, now)
    requires SlotHere(slots, p, c, n, here)
    ensures SlotsBuilt(slots, p, c, n + 1, start, now)
  {
    AdvancedThen(start, here, now, EmitSlots(slots, p, c, n), SlotPart(slots, p, c, n));
  }

  lemma NoOpBuilt(t: Tpl, p: nat, c: nat, x: Progress)
    requires |x.labels| == MAX_LABELS
    ensures OpsBuilt(t, p, c, 0, x, x)
  {
    AdvancedNothing(x);
  }

  lemma NoSlotBuilt(slots: seq<Option<Tpl>>, p: nat, c: nat, x: Progress)
    requires |x.labels| == MAX_LABELS
    ensures SlotsBuilt(slots, p, c, 0, x, x)
  {
    AdvancedNothing(x);
  }

  lemma NoneBuilt(x: Progress)
    requires |x.labels| == MAX_LABELS
    ensures OptionBuilt(None, x, x)
  {
    AdvancedNothing(x);
  }

  /** All operations are built, and the base given back. */
  lemma AllBuilt(t: Tpl, was: Progress, start: Progress, here: Progress, now: Progress)
    requires start == was.(base := was.count, count := start.count) && start.count == was.count + t.labels
    requires OpsBuilt(t, |was.issued|, was.count, |t.ops|, start, here) && now == here.(base := was.base)
    ensures Defined(t) && TplBuilt(t, was, now)
  {
  }

  ghost predicate TplBuilt(t: Tpl, was: Progress, now: Progress)
  {
    Advanced(was, now, Emit(t, |was.issued|, was.count))
  }

  /** Before the first operation. */
  ghost function Start(): Progress
  {
    Progress([], 0, 0, [], seq(MAX_LABELS, _ => INVALID_LABEL))
  }

  /** The labels past those taken were never touched. */
  lemma OthersUnplaced(root: Option<Tpl>, built: Progress)
    requires RootFits(root) && OptionBuilt(root, Start(), built)
    ensures |built.labels| == MAX_LABELS && built.base == 0
    ensures forall k :: built.count <= k < MAX_LABELS ==> built.labels[k] == INVALID_LABEL
  {
    EmitOptionRange(root, 0, 0);
  }

  /** The label table of the builder is that of the emission, as it is stored. */
  lemma TableExactly(root: Option<Tpl>, built: Progress)
    requires RootFits(root) && OptionBuilt(root, Start(), built)
    ensures TableOf(built.labels) == Stored(EmitOption(root, 0, 0).table)
  {
    EmitOptionRange(root, 0, 0);
  }

  /** What was built resolves to the outcome of the emission. */
  lemma BuiltResolves(root: Option<Tpl>, built: Progress)
    requires RootFits(root) && OptionBuilt(root, Start(), built) && InRange(built.refs, |built.issued|)
    ensures PatchAll(built.issued, built.refs, TableOf(built.labels)) == Outcome(root)
  {
    TableExactly(root, built);
    assert built.issued == EncodeAll(EmitOption(root, 0, 0).code);
    assert built.refs == Recorded(EmitOption(root, 0, 0).refs);
  }

  // ---- the builder ----

  class Builder {
    var inputs: Inputs
    var inputsCount: nat
    var inputsSpill: seq<Inputs>
    var labelBase: U8
    var labelCount: U8
    const labels: array<int>
    var labelRefs: seq<U8>
    var issued: seq<PCodeOp>

    ghost function Now(): Progress
      reads this, labels
    {
      Progress(issued, labelBase, labelCount, labelRefs, labels[..])
    }

    /** The inputs pushed so far. */
    ghost predicate Holding(vs: seq<Varnode>)
      reads this
    {
      inputsCount == |vs| && [inputs] + inputsSpill == Packed(vs)
    }

    ghost predicate Empty()
      reads this
    {
      inputs == NO_INPUTS && inputsCount == 0 && inputsSpill == []
    }

    /** No input is pending, and every recorded branch was issued. */
    ghost predicate Idle()
      reads this
    {
      labels.Length == MAX_LABELS && Empty() && InRange(labelRefs, |issued|)
    }

    ghost predicate Clean()
      reads this, labels
    {
      && Idle() && labelBase == 0 && labelCount == 0 && labelRefs == []
      && forall k :: 0 <= k < MAX_LABELS ==> labels[k] == INVALID_LABEL
    }

    constructor ()
      ensures Clean() && fresh(labels) && issued == []
    {
      inputs, inputsCount, inputsSpill := NO_INPUTS, 0, [];
      labelBase, labelCount, labelRefs := 0, 0, [];
      labels := new int[MAX_LABELS](_ => INVALID_LABEL);
      issued := [];
    }

    method PushInput(v: Varnode, ghost vs: seq<Varnode>)
      requires Holding(vs) && |vs| < 2 + 2 * MAX_INPUTS_SPILL
      modifies this`inputs, this`inputsCount, this`inputsSpill
      ensures Holding(vs + [v])
    {
      PackedPush(vs, v);
      PackedLength(vs);
      if inputsCount < 2 {
        inputs := SetInput(inputs, inputsCount, v);
      } else if inputsCount % 2 == 0 {
        inputsSpill := inputsSpill + [Inputs(v, INVALID)];
      } else {
        var last := |inputsSpill| - 1;
        inputsSpill := inputsSpill[last := SetInput(inputsSpill[last], 1, v)];
      }
      inputsCount := inputsCount + 1;
    }

    /** Issues the pending inputs with their operation, the spilled ones after it. */
    method IssueOp(op: Op, output: Varnode)
      modifies this`inputs, this`inputsCount, this`inputsSpill, this`issued
      ensures Empty()
      ensures issued == old(issued) + [PCodeOp(op, old(inputs), output)] + Args(old(inputsSpill))
    {
      issued := issued + [PCodeOp(op, inputs, output)] + Args(inputsSpill);
      inputs, inputsCount, inputsSpill := NO_INPUTS, 0, [];
    }

    method IssueWith(op: Op, pair: Inputs, output: Varnode)
      modifies this`issued
      ensures issued == old(issued) + [PCodeOp(op, pair, output)]
    {
      issued := issued + [PCodeOp(op, pair, output)];
    }

    /** A dynamic input is loaded first; the pending inputs do not change meanwhile. */
    method BuildInput(o: Operand, ghost vs: seq<Varnode>) returns (ok: bool)
      requires Holding(vs) && |vs| < 2 + 2 * MAX_INPUTS_SPILL
      modifies this`inputs, this`inputsCount, this`inputsSpill, this`issued
      ensures ok == o.location.Some?
      ensures ok ==> Holding(vs + [Place(o)]) && issued == old(issued) + EncodeAll(LoadOf(o))
    {
      if o.location.None? {
        return false;
      }
      var location := o.location.value;
      if o.pointer.Some? {
        EncodeOne(FullOp(Load(o.pointer.value.space), [o.pointer.value.at], location));
        IssueWith(Load(o.pointer.value.space), Inputs(o.pointer.value.at, INVALID), location);
      }
      PushInput(location, vs);
      ok := true;
    }

    method BuildOutput(o: Operand, op: Op) returns (ok: bool)
      modifies this`inputs, this`inputsCount, this`inputsSpill, this`issued
      ensures ok == o.location.Some?
      ensures ok ==> Empty()
      ensures ok ==> issued == old(issued) + [PCodeOp(op, old(inputs), Place(o))] + Args(old(inputsSpill)) + EncodeAll(StoreOf(o))
    {
      if o.location.None? {
        return false;
      }
      var out := o.location.value;
      IssueOp(op, out);
      if o.pointer.Some? {
        EncodeOne(FullOp(Store(o.pointer.value.space), [o.pointer.value.at, out], INVALID));
        IssueWith(Store(o.pointer.value.space), Inputs(o.pointer.value.at, out), INVALID);
      }
      ok := true;
    }

    method BuildInputs(os: seq<Operand>) returns (ok: bool)
      requires Empty() && |os| <= 2 + 2 * MAX_INPUTS_SPILL
      modifies this`inputs, this`inputsCount, this`inputsSpill, this`issued
      ensures ok == Located(os, |os|)
      ensures ok ==> Holding(Places(os)) && issued == old(issued) + EncodeAll(Loads(os))
    {
      NothingHeld(Places(os[..0]));
      for k := 0 to |os|
        invariant Located(os, k)
        invariant Holding(Places(os[..k])) && issued == old(issued) + EncodeAll(Loads(os[..k]))
      {
        var built := BuildInput(os[k], Places(os[..k]));
        if !built {
          return false;
        }
        InputsPush(os, k);
        Join(old(issued), EncodeAll(Loads(os[..k])), EncodeAll(LoadOf(os[k])));
      }
      assert os[..|os|] == os;
      ok := true;
    }

    /** Adds the base of the instance to the label a relative operation names, and records it. */
    method MarkRelative()
      modifies this`inputs, this`labelRefs
      ensures inputs == old(inputs).(first := SetOffset(old(inputs).first, ToU64(old(inputs).first.offset + labelBase)))
      ensures labelRefs == old(labelRefs) + [ToU8(|issued|)]
    {
      inputs := inputs.(first := SetOffset(inputs.first, ToU64(inputs.first.offset + labelBase)));
      labelRefs := labelRefs + [ToU8(|issued|)];
    }

    /** Issues the operation proper and its store. */
    method Finish(i: OpTpl, ghost target: U64) returns (ok: bool)
      requires i.Issue? && PendingFor(i, target, inputs, inputsSpill)
      modifies this`inputs, this`inputsCount, this`inputsSpill, this`issued
      ensures ok == (i.output.Some? ==> i.output.value.location.Some?)
      ensures ok ==> Empty() && issued == old(issued) + Encode(Core(i, target)) + EncodeAll(Stores(i))
    {
      CoreHeld(i, target, inputs, inputsSpill);
      if i.output.None? {
        IssueOp(i.op, INVALID);
        return true;
      }
      ok := BuildOutput(i.output.value, i.op);
    }

    /** Issues one operation with its loads and its store. */
    method DumpAction(i: OpTpl) returns (ok: bool)
      requires i.Issue? && |i.inputs| <= 2 + 2 * MAX_INPUTS_SPILL && (i.relative ==> |i.inputs| > 0)
      requires Idle()
      modifies this`inputs, this`inputsCount, this`inputsSpill, this`issued, this`labelRefs
      ensures ok == DefinedOp(i)
      ensures ok ==> Idle() && IssueBuilt(i, old(Now()), Now())
      ensures ok ==> IssuedIndexed(i, old(Now()), Now())
    {
      ok := DumpWith(i);
      if ok {
        IssuedBehind(i, old(Now()), Now());
      }
    }

    method DumpWith(i: OpTpl) returns (ok: bool)
      requires i.Issue? && |i.inputs| <= 2 + 2 * MAX_INPUTS_SPILL && (i.relative ==> |i.inputs| > 0)
      requires Idle()
      modifies this`inputs, this`inputsCount, this`inputsSpill, this`issued, this`labelRefs
      ensures ok == DefinedOp(i)
      ensures ok ==> Idle() && IssueBuilt(i, old(Now()), Now())
    {
      ok := BuildInputs(i.inputs);
      if ok {
        ok := DumpCore(i, old(Now()));
      }
    }

    /** The operation itself, its inputs pending. */
    method DumpCore(i: OpTpl, ghost was: Progress) returns (ok: bool)
      requires i.Issue? && (i.relative ==> |i.inputs| > 0) && Holding(Places(i.inputs))
      requires Now() == was.(issued := was.issued + EncodeAll(Loads(i.inputs)))
      requires labels.Length == MAX_LABELS && InRange(labelRefs, |was.issued|)
      modifies this`inputs, this`inputsCount, this`inputsSpill, this`issued, this`labelRefs
      ensures ok == (i.output.Some? ==> i.output.value.location.Some?)
      ensures ok ==> Idle() && IssueBuilt(i, was, Now())
    {
      ghost var before := issued;
      ghost var target := NamedLabel(i, labelBase);
      MarkPending(i);
      ok := Finish(i, target);
      if ok {
        IssueAdvances(i, target, was, before, Now());
        RecordsReach(was.refs, |was.issued|, i.relative, |before|, |issued|);
      }
    }

    method MarkPending(i: OpTpl)
      requires i.Issue? && (i.relative ==> |i.inputs| > 0) && Holding(Places(i.inputs))
      modifies this`inputs, this`labelRefs
      ensures PendingFor(i, NamedLabel(i, labelBase), inputs, inputsSpill)
      ensures labelRefs == old(labelRefs) + if i.relative then [ToU8(|issued|)] else []
    {
      ghost var pair := inputs;
      if i.relative {
        MarkRelative();
      }
      PendingMarked(i, labelBase, pair, inputs, inputsSpill);
    }

    /** Builds an instance: it takes the next labels for its own, and gives the base back. */
    method BuildTpl(t: Tpl) returns (ok: bool)
      requires Idle() && TplFits(t, |issued|, labelCount)
      modifies this, labels
      ensures ok == Defined(t)
      ensures ok ==> Idle() && TplBuilt(t, old(Now()), Now())
      decreases t, 1
    {
      var oldBase := labelBase;
      ghost var p, c := |issued|, labelCount;
      labelBase := labelCount;
      FitsItself(t, p, c);
      labelCount := ToU8(labelCount + t.labels);
      ghost var start := Now();
      ok := BuildOps(t, p, c);
      if ok {
        ghost var all := Now();
        labelBase := oldBase;
        AllBuilt(t, old(Now()), start, all, Now());
      }
    }

    method BuildOps(t: Tpl, ghost p: nat, ghost c: nat) returns (ok: bool)
      requires Idle() && TplFits(t, p, c) && |issued| == p && labelBase == c && labelCount == c + t.labels
      modifies this, labels
      ensures ok == Defined(t)
      ensures ok ==> Idle() && OpsBuilt(t, p, c, |t.ops|, old(Now()), Now())
      decreases t, 0, 1
    {
      ghost var start := Now();
      NoOpBuilt(t, p, c, start);
      for n := 0 to |t.ops|
        invariant Idle() && OpsBuilt(t, p, c, n, start, Now())
      {
        var built := BuildNth(t, n, p, c, start);
        if !built {
          UndefinedOp(t, n);
          return false;
        }
      }
      AllOpsDefined(t);
      ok := true;
    }

    method BuildNth(t: Tpl, n: nat, ghost p: nat, ghost c: nat, ghost start: Progress) returns (ok: bool)
      requires n < |t.ops| && TplFits(t, p, c) && StartsAt(t, p, c, start)
      requires Idle() && OpsBuilt(t, p, c, n, start, Now())
      modifies this, labels
      ensures ok == DefinedOp(t.ops[n])
      ensures ok ==> Idle() && OpsBuilt(t, p, c, n + 1, start, Now())
      decreases t, 0, 0
    {
      ghost var here := Now();
      PartFits(t, p, c, n, start, here);
      ok := BuildOp(t.ops[n], t);
      if ok {
        PartAdvances(t, p, c, n, start, here, Now());
      }
    }

    method BuildOp(op: OpTpl, ghost t: Tpl) returns (ok: bool)
      requires Idle() && OpFits(t, op, Now())
      modifies this, labels
      ensures ok == DefinedOp(op)
      ensures ok ==> Idle() && OpBuilt(op, old(Now()), Now())
      decreases op, 0
    {
      match op
      case Build(nested) => ok := BuildOption(nested);
      case DelaySlot(slots) => ok := BuildSlots(slots);
      case Label(index) =>
        labels[index + labelBase] := ToI16(|issued|);
        ok := true;
      case Issue(_, _, _, _) => ok := DumpAction(op);
    }

    method BuildOption(o: Option<Tpl>) returns (ok: bool)
      requires Idle() && OptionFits(o, Now())
      modifies this, labels
      ensures ok == DefinedOption(o)
      ensures ok ==> Idle() && OptionBuilt(o, old(Now()), Now())
      decreases o, 0
    {
      if o.None? {
        NoneBuilt(Now());
        return true;
      }
      ok := BuildTpl(o.value);
    }

    /** The delay slots, one after the other; there must be some. */
    method BuildSlots(slots: seq<Option<Tpl>>) returns (ok: bool)
      requires Idle() && SlotsFit(slots, |issued|, labelCount)
      modifies this, labels
      ensures ok == (slots != [] && DefinedSlots(slots))
      ensures ok ==> Idle() && SlotsBuilt(slots, |old(issued)|, old(labelCount), |slots|, old(Now()), Now())
      decreases slots, 0
    {
      if slots == [] {
        return false;
      }
      ghost var p, c, start := |issued|, labelCount, Now();
      NoSlotBuilt(slots, p, c, start);
      for n := 0 to |slots|
        invariant Idle() && SlotsBuilt(slots, p, c, n, start, Now())
      {
        ghost var here := Now();
        SlotFits(slots, p, c, n, start, here);
        var built := BuildOption(slots[n]);
        if !built {
          UndefinedSlot(slots, n);
          return false;
        }
        SlotAdvances(slots, p, c, n, start, here, Now());
      }
      AllSlotsDefined(slots);
      ok := true;
    }

    /** Patches the recorded branches in order, up to the first that names a label that was not
        placed. */
    method ResolveRelatives() returns (ok: bool)
      requires labels.Length == MAX_LABELS && InRange(labelRefs, |issued|)
      modifies this`issued
      ensures (issued, ok) == PatchAll(old(issued), labelRefs, TableOf(labels[..]))
    {
      ghost var table := TableOf(labels[..]);
      assert labelRefs[0..] == labelRefs;
      for k := 0 to |labelRefs|
        invariant |issued| == |old(issued)|
        invariant PatchAll(issued, labelRefs[k..], table) == PatchAll(old(issued), labelRefs, table)
      {
        assert labelRefs[k..][1..] == labelRefs[k + 1..];
        var at := labelRefs[k];
        var v := issued[at].inputs.first;
        if v.offset >= MAX_LABELS || labels[v.offset] == INVALID_LABEL {
          return false;
        }
        var fixed: U64 := And(ToU64(labels[v.offset] - at), CalculateMask(v.size));
        MaskedDistance(labels[v.offset], at, v.size);
        issued := issued[at := issued[at].(inputs := issued[at].inputs.(first := SetOffset(v, fixed)))];
      }
      assert labelRefs[|labelRefs|..] == [];
      ok := true;
    }

    method BuildRoot(root: Option<Tpl>) returns (ok: bool)
      requires Clean() && RootFits(root)
      modifies this, labels
      ensures ok == DefinedOption(root)
      ensures ok ==> Idle() && OptionBuilt(root, Start(), Now())
    {
      issued := [];
      assert Now() == Start();
      ok := BuildOption(root);
    }

    /** Clears the label state up to the labels taken. */
    method Reset()
      requires Idle() && labelBase == 0 && forall k :: labelCount <= k < MAX_LABELS ==> labels[k] == INVALID_LABEL
      modifies this, labels
      ensures Clean() && issued == old(issued)
    {
      inputsCount := 0;
      for k := 0 to labelCount
        invariant forall j :: 0 <= j < k || labelCount <= j < MAX_LABELS ==> labels[j] == INVALID_LABEL
        invariant Idle() && labelBase == 0 && issued == old(issued) && labelCount == old(labelCount)
      {
        labels[k] := INVALID_LABEL;
      }
      labelCount := 0;
      labelRefs := [];
    }

    /** Emits an instruction: builds its templates, resolves the branches and clears the label
        state. From a clean builder a successful run leaves a clean builder, whether or not the
        branches were resolved, and the operations are those of the outcome. For branches within
        reach that name labels of their own instance, all are resolved if and only if all their
        labels were placed, and then the operations are the code that is meant. */
    method EmitInstruction(root: Option<Tpl>) returns (ok: bool, ghost resolved: bool)
      requires Clean() && RootFits(root)
      modifies this, labels
      ensures ok == DefinedOption(root)
      ensures ok ==> Clean() && (issued, resolved) == Outcome(root)
      ensures ok && OwnNamesOption(root) && Addressable(EmitOption(root, 0, 0)) ==> (resolved <==> PlacedOption(root))
      ensures ok && PlacedOption(root) && Addressable(EmitOption(root, 0, 0)) ==> issued == EncodeAll(CodeOption(root, 0))
      ensures ok && PlacedOption(root) && Addressable(EmitOption(root, 0, 0)) && AllReadable(CodeOption(root, 0)) ==>
                Read(issued) == Some(CodeOption(root, 0))
    {
      resolved := false;
      ok := BuildRoot(root);
      if !ok {
        return;
      }
      ghost var built := Now();
      OthersUnplaced(root, built);
      BuiltResolves(root, built);
      var done := ResolveRelatives();
      resolved := done;
      Reset();
      Concludes(root);
    }
  }

  /** What the outcome of an emission within reach is. */
  lemma Concludes(root: Option<Tpl>)
    requires RootFits(root)
    ensures OwnNamesOption(root) && Addressable(EmitOption(root, 0, 0)) ==> (Outcome(root).1 <==> PlacedOption(root))
    ensures PlacedOption(root) && Addressable(EmitOption(root, 0, 0)) ==> Outcome(root).0 == EncodeAll(CodeOption(root, 0))
    ensures AllReadable(CodeOption(root, 0)) ==> Read(EncodeAll(CodeOption(root, 0))) == Some(CodeOption(root, 0))
  {
    if OwnNamesOption(root) && Addressable(EmitOption(root, 0, 0)) {
      OutcomeExact(root);
    }
    if PlacedOption(root) && Addressable(EmitOption(root, 0, 0)) {
      PlacedResolves(root);
    }
    if AllReadable(CodeOption(root, 0)) {
      SpillRoundTrip(CodeOption(root, 0));
    }
  }
}
