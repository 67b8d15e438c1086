/** P-code operations: two inputs each, with further inputs of user operations spilled into
    `Arg` operations that follow (fugue-lifter-runtime/src/pcode.rs:713-760, 856-925, 1110-1239). */
module PCode {
  import opened Prelude

  const MAX_INPUTS_SPILL: nat := 8

  datatype Varnode = Varnode(space: U8, offset: U64, size: nat)

  const INVALID: Varnode := Varnode(INVALID_HANDLE, 0, 0)

  predicate IsInvalid(v: Varnode)
  {
    v.space == INVALID_HANDLE
  }

  datatype Inputs = Inputs(first: Varnode, second: Varnode)

  const NO_INPUTS: Inputs := Inputs(INVALID, INVALID)

  function SetInput(i: Inputs, index: nat, v: Varnode): Inputs
    requires index < 2
  {
    if index == 0 then i.(first := v) else i.(second := v)
  }

  /** The inputs before the first invalid one. */
  function ValidInputs(i: Inputs): seq<Varnode>
  {
    if IsInvalid(i.first) then [] else if IsInvalid(i.second) then [i.first] else [i.first, i.second]
  }

  /** Operation codes; those the model does not tell apart are `Other`. */
  datatype Op =
    | Load(space: U8)
    | Store(space: U8)
    | Arg
    | UserOp(id: nat, count: U8)
    | Other(code: nat)

  datatype PCodeOp = PCodeOp(op: Op, inputs: Inputs, output: Varnode)

  /** How many `Arg` operations follow. */
  function Spill(op: Op): nat
  {
    match op
    case UserOp(_, n) => Max((n + 1) / 2 - 1, 0)
    case _ => 0
  }

  // ---- whole operations ----

  /** An operation with all its inputs. */
  datatype FullOp = FullOp(op: Op, inputs: seq<Varnode>, output: Varnode)

  function Pair(vs: seq<Varnode>): Inputs
  {
    Inputs(if |vs| > 0 then vs[0] else INVALID, if |vs| > 1 then vs[1] else INVALID)
  }

  /** The inputs in pairs, the first of which always exists. */
  function Packed(vs: seq<Varnode>): (r: seq<Inputs>)
    ensures |r| > 0
  {
    if |vs| <= 2 then [Pair(vs)] else [Pair(vs)] + Packed(vs[2..])
  }

  function Args(spilled: seq<Inputs>): (r: seq<PCodeOp>)
    ensures |r| == |spilled|
  {
    seq(|spilled|, i requires 0 <= i < |spilled| => PCodeOp(Arg, spilled[i], INVALID))
  }

  /** How an operation is laid out. */
  function Encode(l: FullOp): (r: seq<PCodeOp>)
    ensures |r| > 0
  {
    [PCodeOp(l.op, Packed(l.inputs)[0], l.output)] + Args(Packed(l.inputs)[1..])
  }

  function EncodeAll(ls: seq<FullOp>): seq<PCodeOp>
  {
    if ls == [] then [] else Encode(ls[0]) + EncodeAll(ls[1..])
  }

  lemma {:induction false} EncodeAllAppend(a: seq<FullOp>, b: seq<FullOp>)
    ensures EncodeAll(a + b) == EncodeAll(a) + EncodeAll(b)
    decreases |a|
  {
    if a == [] {
      assert a + b == b;
    } else {
      assert (a + b)[0] == a[0] && (a + b)[1..] == a[1..] + b;
      EncodeAllAppend(a[1..], b);
    }
  }

  lemma EncodeOne(l: FullOp)
    ensures EncodeAll([l]) == Encode(l)
  {
    assert [l][1..] == [];
  }

  lemma {:induction false} PackedLength(vs: seq<Varnode>)
    ensures |Packed(vs)| == Max((|vs| + 1) / 2, 1)
    decreases |vs|
  {
    if |vs| > 2 {
      PackedLength(vs[2..]);
    }
  }

  /** One more input fills the last pair or opens a new one. */
  lemma {:induction false} PackedPush(vs: seq<Varnode>, v: Varnode)
    ensures |vs| < 2 ==> Packed(vs + [v]) == [SetInput(Packed(vs)[0], |vs|, v)]
    ensures |vs| >= 2 && |vs| % 2 == 0 ==> Packed(vs + [v]) == Packed(vs) + [Inputs(v, INVALID)]
    ensures |vs| >= 2 && |vs| % 2 == 1 ==>
              (var last := |Packed(vs)| - 1;
               Packed(vs + [v]) == Packed(vs)[last := SetInput(Packed(vs)[last], 1, v)])
    decreases |vs|
  {
    var ws := vs + [v];
    if |vs| == 2 {
      assert ws[2..] == [v];
    } else if |vs| > 2 {
      assert ws[2..] == vs[2..] + [v] && Pair(ws) == Pair(vs);
      PackedPush(vs[2..], v);
      if |vs| % 2 == 1 && |vs| == 3 {
        assert Packed(vs[2..]) == [Pair(vs[2..])];
      }
    }
  }

  // ---- reading them back ----

  function SpilledInputs(args: seq<PCodeOp>): seq<Varnode>
  {
    if args == [] then [] else ValidInputs(args[0].inputs) + SpilledInputs(args[1..])
  }

  /** Whether the next operation is there, with `n` `Arg` operations after it. */
  predicate ArgsThrough(ops: seq<PCodeOp>, n: nat)
  {
    && 1 + n <= |ops|
    && forall i :: 1 <= i < 1 + n ==> ops[i].op == Arg
  }

  /** The inputs of the next operation, those in `n` `Arg` operations after it included. */
  function InputsThrough(ops: seq<PCodeOp>, n: nat): seq<Varnode>
    requires 1 + n <= |ops|
  {
    ValidInputs(ops[0].inputs) + SpilledInputs(ops[1..1 + n])
  }

  /** Whether the next operation and the `Arg` operations it announces are there. */
  predicate Complete(ops: seq<PCodeOp>)
  {
    ops != [] && ArgsThrough(ops, Spill(ops[0].op))
  }

  function ReadFirst(ops: seq<PCodeOp>): FullOp
    requires Complete(ops)
  {
    FullOp(ops[0].op, InputsThrough(ops, Spill(ops[0].op)), ops[0].output)
  }

  /** Reads a list of operations; none if an announced `Arg` is missing. */
  function Read(ops: seq<PCodeOp>): (r: Option<seq<FullOp>>)
    decreases |ops|
  {
    if ops == [] then Some([])
    else if !Complete(ops) then None
    else
      var rest :- Read(ops[1 + Spill(ops[0].op)..]);
      Some([ReadFirst(ops)] + rest)
  }

  lemma {:induction false} SpilledPush(args: seq<PCodeOp>, a: PCodeOp)
    ensures SpilledInputs(args + [a]) == SpilledInputs(args) + ValidInputs(a.inputs)
    decreases |args|
  {
    if args == [] {
      assert args + [a] == [a] && [a][1..] == [];
    } else {
      assert (args + [a])[1..] == args[1..] + [a];
      SpilledPush(args[1..], a);
    }
  }

  /** What is read in all, when `done` is read and `rest` remains. */
  function Resume(done: seq<FullOp>, rest: Option<seq<FullOp>>): Option<seq<FullOp>>
  {
    match rest
    case None => None
    case Some(ls) => Some(done + ls)
  }

  lemma ResumeEnds(done: seq<FullOp>, rest: Option<seq<FullOp>>)
    ensures Resume([], rest) == rest && Resume(done, Some([])) == Some(done)
  {
    if rest.Some? {
      assert [] + rest.value == rest.value;
    }
    assert done + [] == done;
  }

  lemma Append<T>(a: seq<T>, b: seq<T>, c: seq<T>)
    ensures a + (b + c) == a + b + c
  {
  }

  lemma ReadOn(done: seq<FullOp>, ops: seq<PCodeOp>)
    requires Complete(ops)
    ensures Resume(done, Read(ops)) == Resume(done + [ReadFirst(ops)], Read(ops[1 + Spill(ops[0].op)..]))
  {
    var rest := Read(ops[1 + Spill(ops[0].op)..]);
    if rest.Some? {
      Append(done, [ReadFirst(ops)], rest.value);
    }
  }

  lemma ArgsStep(ops: seq<PCodeOp>, j: nat)
    requires ArgsThrough(ops, j)
    ensures ArgsThrough(ops, j + 1) <==> 1 + j < |ops| && ops[1 + j].op == Arg
  {
  }

  lemma ArgsFewer(ops: seq<PCodeOp>, j: nat, n: nat)
    requires j <= n && !ArgsThrough(ops, j)
    ensures !ArgsThrough(ops, n)
  {
  }

  lemma InputsStep(ops: seq<PCodeOp>, j: nat)
    requires 1 + j < |ops|
    ensures InputsThrough(ops, j + 1) == InputsThrough(ops, j) + ValidInputs(ops[1 + j].inputs)
  {
    assert ops[1..1 + j] + [ops[1 + j]] == ops[1..1 + (j + 1)];
    SpilledPush(ops[1..1 + j], ops[1 + j]);
    Append(ValidInputs(ops[0].inputs), SpilledInputs(ops[1..1 + j]), ValidInputs(ops[1 + j].inputs));
  }

  lemma InputsStart(ops: seq<PCodeOp>)
    requires ops != []
    ensures ArgsThrough(ops, 0) && InputsThrough(ops, 0) == ValidInputs(ops[0].inputs)
  {
    assert ops[1..1] == [];
  }

  /** Takes the first operation with the `Arg` operations it announces. */
  method TakeFirst(ops: seq<PCodeOp>) returns (r: Option<FullOp>)
    requires ops != []
    ensures r == if Complete(ops) then Some(ReadFirst(ops)) else None
  {
    var n := Spill(ops[0].op);
    var inputs := ValidInputs(ops[0].inputs);
    InputsStart(ops);
    for j := 0 to n
      invariant ArgsThrough(ops, j) && inputs == InputsThrough(ops, j)
    {
      ArgsStep(ops, j);
      if 1 + j >= |ops| || ops[1 + j].op != Arg {
        ArgsFewer(ops, j + 1, n);
        return None;
      }
      inputs := inputs + ValidInputs(ops[1 + j].inputs);
      InputsStep(ops, j);
    }
    r := Some(FullOp(ops[0].op, inputs, ops[0].output));
  }

  /** The loop that shows a list of operations: an operation, then as many `Arg` operations as it
      announces. */
  method ReadOps(ops: seq<PCodeOp>) returns (r: Option<seq<FullOp>>)
    ensures r == Read(ops)
  {
    var rest, done: seq<FullOp> := ops, [];
    ResumeEnds(done, Read(ops));
    while rest != []
      invariant Read(ops) == Resume(done, Read(rest))
      decreases |rest|
    {
      var first := TakeFirst(rest);
      if first == None {
        return None;
      }
      ReadOn(done, rest);
      done := done + [first.value];
      rest := rest[1 + Spill(rest[0].op)..];
    }
    ResumeEnds(done, Some([]));
    r := Some(done);
  }

  // ---- the round trip ----

  /** An operation that can be read back: its inputs are valid and it announces as many `Arg`
      operations as they need. */
  predicate Readable(l: FullOp)
  {
    && (forall i :: 0 <= i < |l.inputs| ==> !IsInvalid(l.inputs[i]))
    && Spill(l.op) == Max((|l.inputs| + 1) / 2, 1) - 1
  }

  predicate AllReadable(ls: seq<FullOp>)
  {
    forall i :: 0 <= i < |ls| ==> Readable(ls[i])
  }

  /** A user operation that carries the number of its inputs, or any other with at most two. */
  predicate CarriesCount(l: FullOp)
  {
    && (forall i :: 0 <= i < |l.inputs| ==> !IsInvalid(l.inputs[i]))
    && if l.op.UserOp? then l.op.count == |l.inputs| else |l.inputs| <= 2
  }

  lemma PairValid(vs: seq<Varnode>)
    requires forall i :: 0 <= i < |vs| ==> !IsInvalid(vs[i])
    ensures ValidInputs(Pair(vs)) == if |vs| <= 2 then vs else vs[..2]
  {
  }

  lemma ArgsTail(ps: seq<Inputs>)
    requires ps != []
    ensures Args(ps)[1..] == Args(ps[1..])
  {
  }

  /** Packing loses no valid input and keeps their order. */
  lemma {:induction false} UnpackPacked(vs: seq<Varnode>)
    requires forall i :: 0 <= i < |vs| ==> !IsInvalid(vs[i])
    ensures SpilledInputs(Args(Packed(vs))) == vs
    decreases |vs|
  {
    PairValid(vs);
    ArgsTail(Packed(vs));
    if |vs| <= 2 {
      assert Args(Packed(vs)[1..]) == [];
    } else {
      assert Packed(vs)[1..] == Packed(vs[2..]);
      UnpackPacked(vs[2..]);
      assert vs == vs[..2] + vs[2..];
    }
  }

  lemma ReadEncoded(l: FullOp, rest: seq<PCodeOp>)
    requires Readable(l)
    ensures var ops := Encode(l) + rest;
            Complete(ops) && ReadFirst(ops) == l && ops[1 + Spill(l.op)..] == rest
  {
    var ops := Encode(l) + rest;
    var ps := Packed(l.inputs);
    PackedLength(l.inputs);
    assert |ps| == 1 + Spill(l.op);
    assert ops[1..1 + Spill(l.op)] == Args(ps[1..]);
    forall i | 1 <= i < 1 + Spill(l.op)
      ensures ops[i].op == Arg
    {
      assert ops[i] == Args(ps[1..])[i - 1];
    }
    UnpackPacked(l.inputs);
    ArgsTail(ps);
    assert Args(ps)[0].inputs == ps[0];
  }

  /** Reading what was laid out gives every operation back with all its inputs, in order. */
  lemma {:induction false} SpillRoundTrip(ls: seq<FullOp>)
    requires AllReadable(ls)
    ensures Read(EncodeAll(ls)) == Some(ls)
    decreases |ls|
  {
    if ls != [] {
      var rest := EncodeAll(ls[1..]);
      ReadEncoded(ls[0], rest);
      SpillRoundTrip(ls[1..]);
      ReadOn([], Encode(ls[0]) + rest);
      ResumeEnds([], Read(Encode(ls[0]) + rest));
      assert ls == [] + [ls[0]] + ls[1..];
    }
  }

  /** In particular where every user operation carries its number of inputs. */
  lemma CountsRoundTrip(ls: seq<FullOp>)
    requires forall i :: 0 <= i < |ls| ==> CarriesCount(ls[i])
    ensures AllReadable(ls) && Read(EncodeAll(ls)) == Some(ls)
  {
    forall i | 0 <= i < |ls|
      ensures Readable(ls[i])
    {
      assert CarriesCount(ls[i]);
    }
    SpillRoundTrip(ls);
  }

  lemma {:induction false} SpilledAreValid(args: seq<PCodeOp>)
    ensures forall i :: 0 <= i < |SpilledInputs(args)| ==> !IsInvalid(SpilledInputs(args)[i])
    decreases |args|
  {
    if args != [] {
      SpilledAreValid(args[1..]);
    }
  }

  /** An operation reads back alone exactly when it is readable. */
  lemma ReadsBackExactly(l: FullOp)
    ensures Read(Encode(l)) == Some([l]) <==> Readable(l)
  {
    var ops := Encode(l);
    EncodeOne(l);
    if Readable(l) {
      SpillRoundTrip([l]);
    }
    if Read(ops) == Some([l]) {
      assert Complete(ops) && ReadFirst(ops) == [l][0];
      SpilledAreValid(ops[1..1 + Spill(l.op)]);
      var rest := Read(ops[1 + Spill(l.op)..]);
      assert rest == Some([]) by {
        assert rest.Some? && [ReadFirst(ops)] + rest.value == [l];
        assert |[ReadFirst(ops)] + rest.value| == 1;
      }
      assert |ops| == 1 + Spill(l.op);
      PackedLength(l.inputs);
    }
  }

  /** So the layout of readable operations is never ambiguous. */
  lemma LayoutInjective(a: seq<FullOp>, b: seq<FullOp>)
    requires AllReadable(a) && AllReadable(b)
    requires EncodeAll(a) == EncodeAll(b)
    ensures a == b
  {
    SpillRoundTrip(a);
    SpillRoundTrip(b);
  }
}
