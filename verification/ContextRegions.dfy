/** Context words, bit ranges and the two ways of writing them over address ranges
    (fugue-lifter-runtime/src/context.rs:145-232, 300-330, 752-811). */
module ContextRegions {
  import opened Prelude
  import opened Bits
  import opened Words
  import opened PartMaps
  import opened PartEdits

  // ---- bit ranges ----

  /** A context variable: a field of one context word. */
  datatype RawRange = RawRange(word: nat, start: nat, shift: nat, mask: Word)

  predicate IsRange(r: RawRange)
  {
    r.start + r.shift <= 31 && r.mask == Shr(ALL_ONES, r.start + r.shift)
  }

  type BitRange = r: RawRange | IsRange(r) witness RawRange(0, 0, 0, ALL_ONES)

  /** The field of bits `startBit..=endBit` of the context, counted from the most significant bit
      of its first word; both ends lie in the same word. */
  function NewRange(startBit: nat, endBit: nat): (r: BitRange)
    requires startBit <= endBit && startBit / 32 == endBit / 32
    ensures r.word == startBit / 32
  {
    var word := startBit / 32;
    var start := startBit - word * 32;
    var end := endBit - word * 32;
    var shift := 32 - end - 1;
    RawRange(word, start, shift, Shr(ALL_ONES, start + shift))
  }

  function GetField(r: BitRange, w: Word): Word
  {
    AndW(Shr(w, r.shift), r.mask)
  }

  /** A masked overwrite of one word: clears some bits and sets others. */
  datatype Edit = Edit(word: nat, clear: Word, bits: Word)

  function FieldEdit(r: BitRange, value: Word): Edit
  {
    Edit(r.word, Shl(r.mask, r.shift), Shl(AndW(value, r.mask), r.shift))
  }

  function EditWord(e: Edit, w: Word): Word
  {
    Overwrite(w, e.clear, e.bits)
  }

  /** The mask of a field has as many low bits set as the field is wide. */
  lemma RangeMask(r: BitRange, i: nat)
    ensures BitAt(r.mask, i) <==> i < 32 - r.start - r.shift
  {
    WordSize();
    BitAtShr(ALL_ONES, r.start + r.shift, i);
    BitAtMask(32, i + r.start + r.shift);
  }

  /** A field write reads back. */
  lemma FieldReadsBack(r: BitRange, w: Word, value: Word)
    ensures GetField(r, EditWord(FieldEdit(r, value), w)) == AndW(value, r.mask)
  {
    var e := FieldEdit(r, value);
    var n := EditWord(e, w);
    forall i: nat
      ensures BitAt(GetField(r, n), i) <==> BitAt(AndW(value, r.mask), i)
    {
      RangeMask(r, i);
      BitAtAnd(Shr(n, r.shift), r.mask, i);
      BitAtShr(n, r.shift, i);
      BitAtAnd(value, r.mask, i);
      BitAtOverwrite(w, e.clear, e.bits, i + r.shift);
      BitAtShlWord(r.mask, r.shift, i + r.shift);
      BitAtShlWord(AndW(value, r.mask), r.shift, i + r.shift);
    }
    Extensional(GetField(r, n), AndW(value, r.mask));
  }

  /** `x` has no bit outside `m`. */
  ghost predicate Inside(x: Word, m: Word)
  {
    forall i: nat :: BitAt(x, i) ==> BitAt(m, i)
  }

  /** `x & !m == 0` says that `x` lies inside `m`. */
  lemma InsideTest(x: Word, m: Word)
    ensures AndW(x, Not(m)) == 0 <==> Inside(x, m)
  {
    if AndW(x, Not(m)) == 0 {
      forall i: nat | BitAt(x, i)
        ensures BitAt(m, i)
      {
        WordSize();
        BitAtBound(x, 32, i);
        BitAtAnd(x, Not(m), i);
        BitAtNot(m, i);
        ZeroBits(i);
      }
    }
    if Inside(x, m) {
      forall i: nat
        ensures BitAt(AndW(x, Not(m)), i) <==> BitAt(0, i)
      {
        BitAtAnd(x, Not(m), i);
        BitAtNot(m, i);
        ZeroBits(i);
      }
      Extensional(AndW(x, Not(m)), 0);
    }
  }

  /** A field write sets only bits of its field. */
  lemma FieldInside(r: BitRange, value: Word)
    ensures Inside(FieldEdit(r, value).bits, FieldEdit(r, value).clear)
  {
    forall i: nat | BitAt(FieldEdit(r, value).bits, i)
      ensures BitAt(FieldEdit(r, value).clear, i)
    {
      BitAtShlWord(AndW(value, r.mask), r.shift, i);
      BitAtShlWord(r.mask, r.shift, i);
      BitAtAnd(value, r.mask, i - r.shift);
    }
  }

  /** Bit `i` of an edited word is as a masked write leaves it: the edit's bit inside the mask,
      the old bit outside. */
  ghost predicate EditsBit(e: Edit, w: Word, i: nat)
  {
    BitAt(EditWord(e, w), i) <==> if BitAt(e.clear, i) then BitAt(e.bits, i) else BitAt(w, i)
  }

  /** A raw edit changes exactly the masked bits of every word if and only if its own bits lie
      within the mask; this is what a caller of the raw writes has to ensure. */
  lemma EditConfined(e: Edit)
    ensures Inside(e.bits, e.clear) <==> forall w: Word, i: nat :: EditsBit(e, w, i)
  {
    if Inside(e.bits, e.clear) {
      forall w: Word, i: nat
        ensures EditsBit(e, w, i)
      {
        BitAtOverwrite(w, e.clear, e.bits, i);
      }
    }
    if forall w: Word, i: nat :: EditsBit(e, w, i) {
      forall i: nat | BitAt(e.bits, i)
        ensures BitAt(e.clear, i)
      {
        assert EditsBit(e, 0, i);
        BitAtOverwrite(0, e.clear, e.bits, i);
        ZeroBits(i);
      }
    }
  }

  /** Such an edit: the mask 0x0f with the value 0xf0 sets bit 4, which the mask does not name. */
  lemma EditStrays()
    ensures !EditsBit(Edit(0, 0x0f, 0xf0), 0, 4)
  {
    BitAtOverwrite(0, 0x0f, 0xf0, 4);
    assert BitAt(0xf0, 4) && !BitAt(0x0f, 4);
    ZeroBits(4);
  }

  // ---- the mask a region write records ----

  function Width(r: BitRange): nat
  {
    32 - r.start - r.shift
  }

  lemma FieldMasks(r: BitRange, value: Word, i: nat)
    ensures BitAt(r.mask, i) <==> i < Width(r)
    ensures BitAt(FieldEdit(r, value).clear, i) <==> r.shift <= i < r.shift + Width(r)
  {
    RangeMask(r, i);
    BitAtShlWord(r.mask, r.shift, i);
    if i >= r.shift {
      RangeMask(r, i - r.shift);
    }
  }

  /** The mask a region write of a field records is the field's own exactly when the field is the
      lowest of its word. */
  lemma RegionMaskExact(r: BitRange, value: Word)
    ensures r.mask == FieldEdit(r, value).clear <==> r.shift == 0
  {
    FieldMasks(r, value, 0);
    if r.shift == 0 {
      forall i: nat
        ensures BitAt(r.mask, i) <==> BitAt(FieldEdit(r, value).clear, i)
      {
        FieldMasks(r, value, i);
      }
      Extensional(r.mask, FieldEdit(r, value).clear);
    }
  }

  /** It overlaps the field exactly when the field is wider than its distance from the bottom. */
  lemma RegionMaskOverlaps(r: BitRange, value: Word)
    ensures AndW(r.mask, FieldEdit(r, value).clear) != 0 <==> r.shift < Width(r)
  {
    var both := AndW(r.mask, FieldEdit(r, value).clear);
    if r.shift < Width(r) {
      FieldMasks(r, value, r.shift);
      BitAtAnd(r.mask, FieldEdit(r, value).clear, r.shift);
      ZeroBits(r.shift);
    } else {
      forall i: nat
        ensures BitAt(both, i) <==> BitAt(0, i)
      {
        FieldMasks(r, value, i);
        BitAtAnd(r.mask, FieldEdit(r, value).clear, i);
        ZeroBits(i);
      }
      Extensional(both, 0);
    }
  }

  // ---- context arrays ----

  /** The context at an address, and which of its bits were set explicitly there. */
  datatype FreeArray = FreeArray(values: seq<Word>, masks: seq<Word>)

  predicate Sized(fa: FreeArray, size: nat)
  {
    |fa.values| == size && |fa.masks| == size
  }

  function EditValues(e: Edit, values: seq<Word>): (r: seq<Word>)
    ensures |r| == |values|
  {
    if e.word < |values| then values[e.word := EditWord(e, values[e.word])] else values
  }

  function Mark(masks: seq<Word>, num: nat, mask: Word): (r: seq<Word>)
    ensures |r| == |masks|
  {
    if num < |masks| then masks[num := OrW(masks[num], mask)] else masks
  }

  /** A key at which bits of `mask` were set explicitly: a change-point write stops there. */
  function Halts(num: nat, mask: Word): FreeArray -> bool
  {
    (fa: FreeArray) => num < |fa.masks| && AndW(fa.masks[num], mask) != 0
  }

  function Editing(e: Edit): FreeArray -> FreeArray
  {
    (fa: FreeArray) => fa.(values := EditValues(e, fa.values))
  }

  function EditingAndMarking(e: Edit, mask: Word): FreeArray -> FreeArray
  {
    (fa: FreeArray) => FreeArray(EditValues(e, fa.values), Mark(fa.masks, e.word, mask))
  }

  type Partition = map<U64, FreeArray>

  ghost predicate AllSized(m: Partition, d: FreeArray, size: nat)
  {
    Sized(d, size) && forall k :: k in m ==> Sized(m[k], size)
  }

  lemma LookupSized(m: Partition, d: FreeArray, size: nat, a: U64)
    requires AllSized(m, d, size)
    ensures Sized(Lookup(m, d, a), size)
  {
  }

  /** A change-point write: from `a` on, up to the first later key where the bits were set
      explicitly; the write itself is recorded at `a` only. */
  function ChangePoint(m: Partition, d: FreeArray, a: U64, mask: Word, e: Edit): (r: Partition)
  {
    EditFrom(m, d, a, Halts(e.word, mask), EditingAndMarking(e, mask), Editing(e))
  }

  function ChangeStop(m: Partition, d: FreeArray, a: U64, mask: Word, e: Edit): Option<U64>
  {
    EditStop(m, d, a, Halts(e.word, mask))
  }

  /** A change-point write edits the word on exactly [a, stop), starting from what each address
      read before; every other address reads as before. */
  lemma ChangePointExact(m: Partition, d: FreeArray, a: U64, mask: Word, e: Edit, x: U64)
    ensures Lookup(ChangePoint(m, d, a, mask, e), d, x).values ==
            if InRange(a, ChangeStop(m, d, a, mask, e), x) then EditValues(e, Lookup(m, d, x).values)
            else Lookup(m, d, x).values
  {
    EditFromLookup(m, d, a, Halts(e.word, mask), EditingAndMarking(e, mask), Editing(e), x);
  }

  /** It stops at a key recorded with an overlapping mask, and at none before. */
  lemma ChangeStopIsFirst(m: Partition, d: FreeArray, a: U64, mask: Word, e: Edit)
    ensures var s := ChangeStop(m, d, a, mask, e);
            && (s.Some? ==> s.value in m && a < s.value && Halts(e.word, mask)(m[s.value]))
            && (forall k :: k in m && a < k && (s.None? || k < s.value) ==> !Halts(e.word, mask)(m[k]))
  {
    var m1 := SplitAt(m, d, a);
    assert forall k :: k in m && k != a ==> k in m1 && m1[k] == m[k];
  }

  /** No other key's record changes, and the record at `a` gains exactly the mask. */
  lemma ChangePointRecords(m: Partition, d: FreeArray, a: U64, mask: Word, e: Edit, k: U64)
    requires k in ChangePoint(m, d, a, mask, e)
    ensures var r := ChangePoint(m, d, a, mask, e);
            if k == a then r[k].masks == Mark(Lookup(m, d, a).masks, e.word, mask)
            else k in m && r[k].masks == m[k].masks
  {
    var m1 := SplitAt(m, d, a);
    SplitKeepsLookup(m, d, a, a);
    LookupAt(m1, d, a, a);
  }

  /** A region write: edits the word and records the mask at every key of [a, b). */
  function Region(m: Partition, d: FreeArray, a: U64, b: Option<U64>, mask: Word, e: Edit): (r: Partition)
  {
    EditRange(m, d, a, b, EditingAndMarking(e, mask))
  }

  /** A region write edits the word on exactly [a, b). */
  lemma RegionExact(m: Partition, d: FreeArray, a: U64, b: Option<U64>, mask: Word, e: Edit, x: U64)
    requires b.Some? ==> a <= b.value
    ensures Lookup(Region(m, d, a, b, mask, e), d, x).values ==
            if InRange(a, b, x) then EditValues(e, Lookup(m, d, x).values) else Lookup(m, d, x).values
  {
    EditRangeLookup(m, d, a, b, EditingAndMarking(e, mask), x);
  }

  lemma SplitSized(m: Partition, d: FreeArray, size: nat, a: U64)
    requires AllSized(m, d, size)
    ensures AllSized(SplitAt(m, d, a), d, size)
  {
    LookupSized(m, d, size, a);
  }

  lemma ChangePointSized(m: Partition, d: FreeArray, size: nat, a: U64, mask: Word, e: Edit)
    requires AllSized(m, d, size)
    ensures AllSized(ChangePoint(m, d, a, mask, e), d, size)
  {
    SplitSized(m, d, size, a);
  }

  lemma RegionSized(m: Partition, d: FreeArray, size: nat, a: U64, b: Option<U64>, mask: Word, e: Edit)
    requires AllSized(m, d, size)
    ensures AllSized(Region(m, d, a, b, mask, e), d, size)
  {
    SplitSized(m, d, size, a);
    if b.Some? {
      SplitSized(SplitAt(m, d, a), d, size, b.value);
    }
  }

  // ---- region writes and later change-point writes ----

  /** Or-ing disjoint bits in leaves the overlap with a mask to the new bits. */
  lemma OverlapOr(old_: Word, mask: Word, clear: Word)
    requires AndW(old_, clear) == 0
    ensures AndW(OrW(old_, mask), clear) == AndW(mask, clear)
  {
    forall i: nat
      ensures BitAt(AndW(OrW(old_, mask), clear), i) <==> BitAt(AndW(mask, clear), i)
    {
      BitAtAnd(OrW(old_, mask), clear, i);
      BitAtOr(old_, mask, i);
      BitAtAnd(mask, clear, i);
      BitAtAnd(old_, clear, i);
      ZeroBits(i);
    }
    Extensional(AndW(OrW(old_, mask), clear), AndW(mask, clear));
  }

  /** A field was not recorded yet where it is read at `a`. */
  ghost predicate Unrecorded(m: Partition, d: FreeArray, r: BitRange, a: U64)
  {
    r.word < |Lookup(m, d, a).masks| && !Halts(r.word, FieldEdit(r, 0).clear)(Lookup(m, d, a))
  }

  lemma RegionStart(m: Partition, d: FreeArray, a: U64, b: Option<U64>, mask: Word, e: Edit)
    requires b.Some? ==> a < b.value
    ensures a in Region(m, d, a, b, mask, e)
    ensures Region(m, d, a, b, mask, e)[a] == EditingAndMarking(e, mask)(Lookup(m, d, a))
  {
    SplitKeepsLookup(m, d, a, a);
    LookupAt(SplitAt(m, d, a), d, a, a);
  }

  /** A region write of a field is a stop for a later change-point write of the same field exactly
      when the field is wider than its distance from the bottom of its word. */
  lemma RegionStops(m: Partition, d: FreeArray, a: U64, b: Option<U64>, r: BitRange, value: Word)
    requires (b.Some? ==> a < b.value) && Unrecorded(m, d, r, a)
    ensures var region := Region(m, d, a, b, r.mask, FieldEdit(r, value));
            && a in region
            && (Halts(r.word, FieldEdit(r, 0).clear)(region[a]) <==> r.shift < Width(r))
  {
    var e, old_ := FieldEdit(r, value), Lookup(m, d, a).masks[r.word];
    RegionStart(m, d, a, b, r.mask, e);
    OverlapOr(old_, r.mask, e.clear);
    RegionMaskOverlaps(r, value);
  }

  /** So a change-point write from `c` below runs over the region exactly for narrow, high fields;
      it should stop there for all. */
  lemma ChangePointRunsOver(m: Partition, d: FreeArray, a: U64, b: Option<U64>, r: BitRange, value: Word, c: U64)
    requires (b.Some? ==> a < b.value) && c < a && Unrecorded(m, d, r, a)
    requires forall k :: k in m && c < k < a ==> !Halts(r.word, FieldEdit(r, 0).clear)(m[k])
    ensures var region, e := Region(m, d, a, b, r.mask, FieldEdit(r, value)), FieldEdit(r, 0);
            InRange(c, ChangeStop(region, d, c, e.clear, e), a) <==> r.shift >= Width(r)
  {
    var region := Region(m, d, a, b, r.mask, FieldEdit(r, value));
    var halts := Halts(r.word, FieldEdit(r, 0).clear);
    RegionStops(m, d, a, b, r, value);
    forall k | k in region && c < k < a
      ensures !halts(region[k])
    {
      RegionBelow(m, d, a, b, r.mask, FieldEdit(r, value), k);
    }
    StopPasses(region, d, c, a, halts);
  }

  lemma RegionBelow(m: Partition, d: FreeArray, a: U64, b: Option<U64>, mask: Word, e: Edit, k: U64)
    requires (b.Some? ==> a < b.value) && k < a && k in Region(m, d, a, b, mask, e)
    ensures k in m && Region(m, d, a, b, mask, e)[k] == m[k]
  {
  }

  /** Such a field: the top bit of a word. After it is set on [16, 32), clearing it at address 0
      clears it at address 16 too. */
  lemma TopBitIsRunOver()
    ensures var r := NewRange(0, 0);
            && GetField(r, AfterRegion(r).0) == 1
            && GetField(r, AfterRegion(r).1) == 0
  {
    RunOver(NewRange(0, 0));
  }

  /** What address 16 reads in a one-word context after a region write of 1 on [16, 32), and after
      a change-point write of 0 at address 0 that follows it. */
  function AfterRegion(r: BitRange): (Word, Word)
    requires r.word == 0
  {
    var d := FreeArray([0], [0]);
    var region, e := Region(map[], d, 16, Some(32), r.mask, FieldEdit(r, 1)), FieldEdit(r, 0);
    RegionExact(map[], d, 16, Some(32), r.mask, FieldEdit(r, 1), 16);
    ChangePointExact(region, d, 0, e.clear, e, 16);
    (Lookup(region, d, 16).values[0], Lookup(ChangePoint(region, d, 0, e.clear, e), d, 16).values[0])
  }

  lemma RunOver(r: BitRange)
    requires r.word == 0 && Width(r) == 1 && r.shift == 31
    ensures GetField(r, AfterRegion(r).0) == 1 && GetField(r, AfterRegion(r).1) == 0
  {
    var d := FreeArray([0], [0]);
    var region, e := Region(map[], d, 16, Some(32), r.mask, FieldEdit(r, 1)), FieldEdit(r, 0);
    OneBit(r);
    SetOnRegion(d, r);
    ChangePointRunsOver(map[], d, 16, Some(32), r, 1, 0);
    ChangePointExact(region, d, 0, e.clear, e, 16);
    FieldReadsBack(r, Lookup(region, d, 16).values[0], 0);
  }

  lemma SetOnRegion(d: FreeArray, r: BitRange)
    requires d == FreeArray([0], [0]) && r.word == 0 && Width(r) == 1
    ensures Unrecorded(map[], d, r, 16)
    ensures var region := Region(map[], d, 16, Some(32), r.mask, FieldEdit(r, 1));
            |Lookup(region, d, 16).values| == 1 && GetField(r, Lookup(region, d, 16).values[0]) == 1
  {
    OneBit(r);
    RegionExact(map[], d, 16, Some(32), r.mask, FieldEdit(r, 1), 16);
    FieldReadsBack(r, 0, 1);
    assert Lookup(map[], d, 16) == d;
  }

  lemma OneBit(r: BitRange)
    requires Width(r) == 1
    ensures AndW(1, r.mask) == 1 && AndW(0, r.mask) == 0
  {
    forall i: nat
      ensures BitAt(AndW(1, r.mask), i) <==> BitAt(1, i)
    {
      BitAtAnd(1, r.mask, i);
      RangeMask(r, i);
      BitAtPow2(0, i);
      assert Pow2(0) == 1;
    }
    Extensional(AndW(1, r.mask), 1);
  }
}
