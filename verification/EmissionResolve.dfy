/** The pass that resolves the recorded branches one after the other
    (fugue-lifter-runtime/src/pcode.rs:614-638). */
module EmissionResolve {
  import opened Prelude
  import opened PCode
  import opened Emission
  import opened EmissionProofs

  const MAX_LABELS: nat := 256
  const INVALID_LABEL: int := -1

  /** `as i16`. */
  function ToI16(n: int): int
  {
    (n + 0x8000) % 0x1_0000 - 0x8000
  }

  /** Branches are recorded by the low byte of their index. */
  function Recorded(refs: seq<nat>): (r: seq<U8>)
    ensures |r| == |refs|
  {
    seq(|refs|, i requires 0 <= i < |refs| => ToU8(refs[i]))
  }

  predicate InRange(refs: seq<U8>, n: nat)
  {
    forall k :: 0 <= k < |refs| ==> refs[k] < n
  }

  predicate Distinct(refs: seq<U8>)
  {
    forall i, j :: 0 <= i < j < |refs| ==> refs[i] != refs[j]
  }

  /** Patches the branches in order, on what the earlier ones left, up to the first that names a
      label that is not in the table; the pass succeeds if there is none. */
  function PatchAll(ops: seq<PCodeOp>, refs: seq<U8>, table: map<nat, int>): (r: (seq<PCodeOp>, bool))
    requires InRange(refs, |ops|)
    ensures |r.0| == |ops|
    decreases |refs|
  {
    if refs == [] then (ops, true)
    else if ops[refs[0]].inputs.first.offset !in table then (ops, false)
    else
      RestInRange(refs, |ops|);
      PatchAll(ops[refs[0] := Patch(ops[refs[0]], refs[0], table)], refs[1..], table)
  }

  lemma RestInRange(refs: seq<U8>, n: nat)
    requires refs != [] && InRange(refs, n)
    ensures refs[0] < n && InRange(refs[1..], n)
  {
  }

  /** No operation outside the recorded indices is touched. */
  lemma {:induction false} PatchAllKeeps(ops: seq<PCodeOp>, refs: seq<U8>, table: map<nat, int>, i: nat)
    requires InRange(refs, |ops|) && i < |ops| && i !in refs
    ensures PatchAll(ops, refs, table).0[i] == ops[i]
    decreases |refs|
  {
    if refs != [] && ops[refs[0]].inputs.first.offset in table {
      RestInRange(refs, |ops|);
      assert i != refs[0] && i !in refs[1..];
      PatchAllKeeps(ops[refs[0] := Patch(ops[refs[0]], refs[0], table)], refs[1..], table, i);
    }
  }

  ghost predicate EachNamed(ops: seq<PCodeOp>, refs: seq<U8>, table: map<nat, int>)
  {
    forall k :: 0 <= k < |refs| ==> NamedAt(ops, 0, refs[k], table)
  }

  lemma RestNamed(ops: seq<PCodeOp>, ops': seq<PCodeOp>, refs: seq<U8>, table: map<nat, int>)
    requires refs != [] && InRange(refs, |ops|) && Distinct(refs) && NamedAt(ops, 0, refs[0], table)
    requires |ops'| == |ops| && forall i :: 0 <= i < |ops| && i != refs[0] ==> ops'[i] == ops[i]
    ensures EachNamed(ops', refs[1..], table) <==> EachNamed(ops, refs, table)
  {
    if EachNamed(ops', refs[1..], table) {
      forall k | 0 <= k < |refs|
        ensures NamedAt(ops, 0, refs[k], table)
      {
        if k > 0 {
          assert refs[k] == refs[1..][k - 1];
          assert NamedAt(ops', 0, refs[1..][k - 1], table);
        }
      }
    }
    if EachNamed(ops, refs, table) {
      forall k | 0 <= k < |refs[1..]|
        ensures NamedAt(ops', 0, refs[1..][k], table)
      {
        assert NamedAt(ops, 0, refs[k + 1], table);
      }
    }
  }

  lemma RestResolved(ops: seq<PCodeOp>, refs: seq<U8>, table: map<nat, int>)
    requires refs != [] && InRange(refs, |ops|) && Distinct(refs)
    ensures refs[0] < |ops| && refs[0] !in refs[1..]
    ensures Resolved(ops[refs[0] := Patch(ops[refs[0]], refs[0], table)], 0, refs[1..], table) == Resolved(ops, 0, refs, table)
  {
    var ops' := ops[refs[0] := Patch(ops[refs[0]], refs[0], table)];
    assert refs == [refs[0]] + refs[1..];
    forall i | 0 <= i < |ops|
      ensures Resolved(ops', 0, refs[1..], table)[i] == Resolved(ops, 0, refs, table)[i]
    {
      assert i in refs <==> i == refs[0] || i in refs[1..];
    }
  }

  /** With records that differ, the pass succeeds exactly when every branch names a label of the
      table, and then it patches each as it was. */
  lemma {:induction false} PatchAllDistinct(ops: seq<PCodeOp>, refs: seq<U8>, table: map<nat, int>)
    requires InRange(refs, |ops|) && Distinct(refs)
    ensures PatchAll(ops, refs, table).1 <==> EachNamed(ops, refs, table)
    ensures PatchAll(ops, refs, table).1 ==> PatchAll(ops, refs, table).0 == Resolved(ops, 0, refs, table)
    decreases |refs|
  {
    if refs == [] {
      assert Resolved(ops, 0, refs, table) == ops;
    } else {
      RestInRange(refs, |ops|);
      if ops[refs[0]].inputs.first.offset in table {
        var ops' := ops[refs[0] := Patch(ops[refs[0]], refs[0], table)];
        RestNamed(ops, ops', refs, table);
        RestResolved(ops, refs, table);
        PatchAllDistinct(ops', refs[1..], table);
      } else {
        assert !NamedAt(ops, 0, refs[0], table);
      }
    }
  }

  // ---- the whole instruction ----

  /** Branches are recorded in a byte and label positions in sixteen signed bits. */
  ghost predicate Addressable(d: Emitted)
  {
    && (forall k :: 0 <= k < |d.refs| ==> d.refs[k] < 0x100)
    && (forall l :: l in d.table ==> d.table[l] < 0x8000)
  }

  lemma RecordedExactly(d: Emitted)
    requires Addressable(d)
    ensures Recorded(d.refs) == d.refs && Stored(d.table) == d.table
  {
    assert forall l :: l in d.table ==> ToI16(d.table[l]) == d.table[l];
  }

  /** The label table as it is stored: positions in sixteen bits, of which one value means that
      nothing was placed. */
  function Stored(table: map<nat, nat>): map<nat, int>
  {
    map l | l in table && ToI16(table[l]) != INVALID_LABEL :: ToI16(table[l])
  }

  /** The whole instruction stays within the label table. */
  ghost predicate RootFits(root: Option<Tpl>)
  {
    GoodOption(root) && EmitOption(root, 0, 0).labels < MAX_LABELS
  }
}
