/** Which context bits flow: the masks the generator computes from the context variables
    (fugue-lifter-codegen/src/core.rs:247-276). */
module FlowMasks {
  import opened Prelude
  import opened Bits
  import opened Words

  /** A context variable: its bits, counted from the most significant bit of the first word. */
  datatype ContextVariable = ContextVariable(bitStart: nat, bitEnd: nat, flow: bool)

  /** The bits of a word that a variable covers. */
  function VariableMask(v: ContextVariable): Word
  {
    AndW(Shr(ALL_ONES, v.bitStart % 32), Shl(ALL_ONES, 31 - v.bitEnd % 32))
  }

  lemma VariableMaskBits(v: ContextVariable, i: nat)
    ensures BitAt(VariableMask(v), i) <==> i < 32 && v.bitStart % 32 <= 31 - i <= v.bitEnd % 32
  {
    WordSize();
    BitAtAnd(Shr(ALL_ONES, v.bitStart % 32), Shl(ALL_ONES, 31 - v.bitEnd % 32), i);
    BitAtShr(ALL_ONES, v.bitStart % 32, i);
    BitAtMask(32, i + v.bitStart % 32);
    BitAtShlWord(ALL_ONES, 31 - v.bitEnd % 32, i);
    if i >= 31 - v.bitEnd % 32 {
      BitAtMask(32, i - (31 - v.bitEnd % 32));
    }
  }

  /** The variable keeps bit `i` of word `w` from flowing. */
  predicate Blocks(v: ContextVariable, w: nat, i: nat)
  {
    !v.flow && v.bitStart / 32 == w && v.bitStart % 32 <= 31 - i <= v.bitEnd % 32
  }

  ghost predicate Blocked(vs: seq<ContextVariable>, w: nat, i: nat)
  {
    exists k :: 0 <= k < |vs| && Blocks(vs[k], w, i)
  }

  /** Bit `i` of word `w` is set exactly when no variable blocks it. */
  ghost predicate MaskBit(vs: seq<ContextVariable>, mask: Word, w: nat, i: nat)
  {
    BitAt(mask, i) <==> !Blocked(vs, w, i)
  }

  ghost predicate MaskWord(vs: seq<ContextVariable>, mask: Word, w: nat)
  {
    forall i :: 0 <= i < 32 ==> MaskBit(vs, mask, w, i)
  }

  /** There is a word for every variable, and none past the last variable's. */
  function WordsFor(vs: seq<ContextVariable>): nat
  {
    if vs == [] then 0 else Max(WordsFor(vs[..|vs| - 1]), vs[|vs| - 1].bitStart / 32 + 1)
  }

  /** One more variable: its bits are cleared if it does not flow. */
  lemma MaskWordStep(vs: seq<ContextVariable>, v: ContextVariable, mask: Word, w: nat)
    requires MaskWord(vs, mask, w)
    ensures MaskWord(vs + [v], if !v.flow && v.bitStart / 32 == w then AndW(mask, Not(VariableMask(v))) else mask, w)
  {
    var mask' := if !v.flow && v.bitStart / 32 == w then AndW(mask, Not(VariableMask(v))) else mask;
    forall i | 0 <= i < 32
      ensures MaskBit(vs + [v], mask', w, i)
    {
      assert MaskBit(vs, mask, w, i);
      BlockedStep(vs, v, w, i);
      BitAtAnd(mask, Not(VariableMask(v)), i);
      BitAtNot(VariableMask(v), i);
      VariableMaskBits(v, i);
    }
  }

  lemma BlockedStep(vs: seq<ContextVariable>, v: ContextVariable, w: nat, i: nat)
    ensures Blocked(vs + [v], w, i) <==> Blocked(vs, w, i) || Blocks(v, w, i)
  {
    assert (vs + [v])[|vs|] == v;
    if Blocked(vs, w, i) {
      var k :| 0 <= k < |vs| && Blocks(vs[k], w, i);
      assert Blocks((vs + [v])[k], w, i);
    }
  }

  lemma {:induction false} UntouchedWord(vs: seq<ContextVariable>, w: nat)
    requires w >= WordsFor(vs)
    ensures MaskWord(vs, ALL_ONES, w)
    decreases |vs|
  {
    if vs == [] {
      forall i | 0 <= i < 32
        ensures MaskBit(vs, ALL_ONES, w, i)
      {
        WordSize();
        BitAtMask(32, i);
      }
    } else {
      var front, last := vs[..|vs| - 1], vs[|vs| - 1];
      UntouchedWord(front, w);
      assert front + [last] == vs;
      MaskWordStep(front, last, ALL_ONES, w);
    }
  }

  /** The loop over the context variables. A bit flows exactly when no variable that does not flow
      covers it; bits that no variable covers flow. */
  method FlowMaskOf(vs: seq<ContextVariable>) returns (masks: seq<Word>)
    ensures |masks| == WordsFor(vs)
    ensures forall w :: 0 <= w < |masks| ==> MaskWord(vs, masks[w], w)
  {
    masks := [];
    assert vs[..0] == [];
    for k := 0 to |vs|
      invariant |masks| == WordsFor(vs[..k])
      invariant forall w :: 0 <= w < |masks| ==> MaskWord(vs[..k], masks[w], w)
    {
      var v := vs[k];
      var word := v.bitStart / 32;
      ghost var was := masks;
      if |masks| <= word {
        masks := masks + seq(word + 1 - |masks|, _ => ALL_ONES);
      }
      ghost var grown := masks;
      if !v.flow {
        masks := masks[word := AndW(masks[word], Not(VariableMask(v)))];
      }
      assert vs[..k + 1] == vs[..k] + [v];
      assert vs[..k + 1][..k] == vs[..k];
      forall w | 0 <= w < |masks|
        ensures MaskWord(vs[..k + 1], masks[w], w)
      {
        if w >= |was| {
          UntouchedWord(vs[..k], w);
        } else {
          assert MaskWord(vs[..k], was[w], w);
        }
        MaskWordStep(vs[..k], v, grown[w], w);
      }
    }
    assert vs[..|vs|] == vs;
  }
}
