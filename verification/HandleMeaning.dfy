/** What an exported handle is, field by field, in terms of where the operands' values lie
    (fugue-lifter-runtime/src/template.rs:76-262, 398-455). */
module HandleMeaning {
  import opened Prelude
  import opened Bits
  import opened Grammar
  import opened DecodeMachine
  import opened DecodeTree
  import opened HandleTemplates
  import opened HandleSpec

  // ---- what a part of a template stands for ----

  /** The value of an operand lies at `offset` in `space`: where a direct handle points, or where the
      value loaded through a dynamic one is kept. */
  predicate LiesAt(h: FixedHandle, space: U8, offset: U64)
  {
    if h.offsetSpace == 0xff then space == h.space && offset == h.offsetOffset
    else space == h.temporarySpace && offset == h.temporaryOffset
  }

  /** `v` is `x` without its low `bytes` bytes. */
  predicate DropsBytes(x: U64, bytes: nat, v: U64)
  {
    var amount := 8 * bytes % 0x1_0000_0000;
    v == if amount < 64 then x / Pow2(amount) else 0
  }

  /** A handle's part: its space, offset or size, or its offset moved on. A piece of a constant is
      what is left when the bytes below it are dropped. */
  predicate PartIs(kind: HandleKind, h: FixedHandle, v: U64)
  {
    match kind
    case Space => v < 256 && exists o: U64 :: LiesAt(h, v, o)
    case Offset => exists s: U8 :: LiesAt(h, s, v)
    case Size => v == h.size % TWO_64
    case OffsetPlus(plus) =>
      exists s: U8, o: U64 ::
        && LiesAt(h, s, o)
        && if h.space == 0 then DropsBytes(o, plus / 0x1_0000 % 0x1_0000_0000, v) else v == (o + plus % 0x1_0000) % TWO_64
  }

  ghost predicate Means(t: ConstTpl, site: Site, hs: Handles, v: U64)
  {
    match t
    case Real(x) => v == x
    case Relative(x) => v == x
    case SpaceId(id) => v == id
    case Start => v == site.address
    case Next => v == site.next
    case Next2 => site.next2 == Some(v)
    case CurrentSpace => v == site.defaultSpace
    case CurrentSpaceSize => v == site.addressSize
    case Handle(k, kind) => k < |hs| && hs[k].Some? && PartIs(kind, hs[k].value, v)
  }

  /** The space a template names; an operand names the space its value lies in. */
  ghost predicate Names(t: ConstTpl, site: Site, hs: Handles, space: U8)
  {
    match t
    case SpaceId(id) => space == id
    case CurrentSpace => space == site.defaultSpace
    case Handle(k, Space) => k < |hs| && hs[k].Some? && exists o: U64 :: LiesAt(hs[k].value, space, o)
    case _ => false
  }

  lemma LiesSomewhere(h: FixedHandle)
    ensures LiesAt(h, if h.offsetSpace == INVALID then h.space else h.temporarySpace, Fixed(h))
    ensures forall s: U8, o: U64 :: LiesAt(h, s, o) ==>
              s == (if h.offsetSpace == INVALID then h.space else h.temporarySpace) && o == Fixed(h)
  {
  }

  lemma PartExact(kind: HandleKind, h: FixedHandle, v: U64)
    ensures PartIs(kind, h, v) <==> v == KindValue(kind, h)
  {
    LiesSomewhere(h);
    if kind.OffsetPlus? && h.space == 0 {
      var amount := 8 * (kind.value / 0x1_0000 % 0x1_0000_0000) % 0x1_0000_0000;
      if amount < 64 {
        ShiftRightDivides(Fixed(h), amount);
      }
    }
  }

  /** A template's part has exactly one value, if it has any. */
  lemma MeansExact(t: ConstTpl, site: Site, hs: Handles, v: U64)
    ensures Means(t, site, hs, v) <==> ValueOf(t, site, hs) == Some(v)
  {
    if t.Handle? && t.index < |hs| && hs[t.index].Some? {
      PartExact(t.kind, hs[t.index].value, v);
    }
  }

  lemma NamesExact(t: ConstTpl, site: Site, hs: Handles, space: U8)
    ensures Names(t, site, hs, space) <==> SpaceVia(t, site, hs) == Some(space)
  {
    if t.Handle? && t.kind.Space? && t.index < |hs| && hs[t.index].Some? {
      LiesSomewhere(hs[t.index].value);
    }
  }

  // ---- dynamic templates ----

  /** The parts of a template with a pointer: the space and size of what it exports, the pointer's
      space and offset. */
  ghost predicate PointsTo(tpl: HandleTpl, site: Site, hs: Handles, space: U8, size: U64, at: U8, offset: U64)
  {
    && !tpl.ptrSpace.Real?
    && Names(tpl.space, site, hs, space) && Means(tpl.size, site, hs, size)
    && Names(tpl.ptrSpace, site, hs, at) && Means(tpl.ptrOffset, site, hs, offset)
  }

  lemma PointsExact(tpl: HandleTpl, site: Site, hs: Handles, space: U8, size: U64, at: U8, offset: U64)
    requires PointsTo(tpl, site, hs, space, size, at, offset)
    ensures SpaceVia(tpl.space, site, hs) == Some(space) && ValueOf(tpl.size, site, hs) == Some(size)
    ensures SpaceVia(tpl.ptrSpace, site, hs) == Some(at) && ValueOf(tpl.ptrOffset, site, hs) == Some(offset)
  {
    NamesExact(tpl.space, site, hs, space);
    MeansExact(tpl.size, site, hs, size);
    NamesExact(tpl.ptrSpace, site, hs, at);
    MeansExact(tpl.ptrOffset, site, hs, offset);
  }

  /** A pointer into a space: the exported handle is dynamic, with the pointer where the template says
      and the temporary where it says. */
  lemma DynamicExport(tpl: HandleTpl, site: Site, hs: Handles, space: U8, size: U64, at: U8, offset: U64,
                      pointerSize: U64, temporary: U8, temporaryOffset: U64)
    requires PointsTo(tpl, site, hs, space, size, at, offset) && at != 0
    requires Means(tpl.ptrSize, site, hs, pointerSize)
    requires Names(tpl.tmpSpace, site, hs, temporary) && Means(tpl.tmpOffset, site, hs, temporaryOffset)
    ensures var r := BuildHandle(tpl, site, hs);
            && r.Some?
            && r.value.space == space && r.value.size == size % 0x1_0000
            && r.value.offsetSpace == at && r.value.offsetOffset == offset && r.value.offsetSize == pointerSize % 0x1_0000
            && r.value.temporarySpace == temporary && r.value.temporaryOffset == temporaryOffset
  {
    PointsExact(tpl, site, hs, space, size, at, offset);
    MeansExact(tpl.ptrSize, site, hs, pointerSize);
    NamesExact(tpl.tmpSpace, site, hs, temporary);
    MeansExact(tpl.tmpOffset, site, hs, temporaryOffset);
  }

  /** A pointer that is a constant: the exported handle is direct, at the pointer counted in words of
      the space and wrapped into it. */
  lemma ConstantPointerExport(tpl: HandleTpl, site: Site, hs: Handles, space: U8, size: U64, offset: U64)
    requires PointsTo(tpl, site, hs, space, size, 0, offset)
    ensures var r := BuildHandle(tpl, site, hs);
            && r.Some? && r.value.space == space && r.value.size == size % 0x1_0000 && r.value.offsetSpace == 0xff
            && WrappedInto(site.upper(space), offset * site.wordSize(space) % TWO_64, r.value.offsetOffset)
  {
    PointsExact(tpl, site, hs, space, size, 0, offset);
    WrapsInto(site.upper(space), ToU64(offset * site.wordSize(space)));
  }

  /** `v` is `offset` wrapped into a space up to `highest`: itself if it lies there, in any case in the
      space, the remainder of the signed reading in spaces below 2^63, and the remainder where the size
      of the space divides 2^64. */
  ghost predicate WrappedInto(highest: U64, offset: U64, v: U64)
  {
    && v <= highest && (offset <= highest ==> v == offset)
    && (offset > highest && highest < 0x7fff_ffff_ffff_ffff ==> v == Signed64(offset) % (highest + 1))
    && forall k: nat :: Fills(highest, k) ==> v == offset % (highest + 1)
  }

  /** `k` spaces up to `highest` make up all 64-bit offsets. */
  predicate Fills(highest: U64, k: nat)
  {
    (highest + 1) * k == TWO_64
  }

  lemma WrapsInto(highest: U64, offset: U64)
    ensures WrappedInto(highest, offset, WrapOffset(highest, offset))
  {
    WrapOffsetInRange(highest, offset);
    if offset > highest && highest < 0x7fff_ffff_ffff_ffff {
      WrapOffsetSigned(highest, offset);
    }
    forall k: nat | Fills(highest, k)
      ensures WrapOffset(highest, offset) == offset % (highest + 1)
    {
      WrapOffsetIsRemainder(highest, offset, k);
    }
  }

  /** A template whose pointer is operand `k`, with a given temporary: the exported pointer lies where
      the value of operand `k` lies. */
  lemma OperandPointerExport(tpl: HandleTpl, site: Site, hs: Handles, k: nat, space: U8, size: U64, pointerSize: U64,
                             temporary: U8, temporaryOffset: U64)
    requires k < |hs| && hs[k].Some?
    requires tpl == HandleTpl(SpaceId(space), Real(size), Handle(k, Space), Handle(k, Offset), Real(pointerSize),
                              SpaceId(temporary), Real(temporaryOffset))
    requires !LiesAt(hs[k].value, 0, Fixed(hs[k].value))
    ensures var r := BuildHandle(tpl, site, hs);
            && r.Some? && LiesAt(hs[k].value, r.value.offsetSpace, r.value.offsetOffset)
            && r.value.space == space && r.value.size == size % 0x1_0000 && r.value.offsetSize == pointerSize % 0x1_0000
            && r.value.temporarySpace == temporary && r.value.temporaryOffset == temporaryOffset
  {
    var h := hs[k].value;
    var at: U8 := if h.offsetSpace == INVALID then h.space else h.temporarySpace;
    LiesSomewhere(h);
    PartExact(Offset, h, Fixed(h));
    DynamicExport(tpl, site, hs, space, size, at, Fixed(h), pointerSize, temporary, temporaryOffset);
  }

  /** Such an operand: four bytes of space 2, through the pointer at 0x10 of space 3, loaded to 0x100
      of space 1. */
  lemma MemoryOperand(site: Site, hs: Handles)
    ensures BuildHandle(HandleTpl(SpaceId(2), Real(4), SpaceId(3), Real(0x10), Real(8), SpaceId(1), Real(0x100)), site, hs) ==
            Some(FixedHandle(2, 4, 3, 0x10, 8, 1, 0x100))
  {
    var tpl := HandleTpl(SpaceId(2), Real(4), SpaceId(3), Real(0x10), Real(8), SpaceId(1), Real(0x100));
    DynamicExport(tpl, site, hs, 2, 4, 3, 0x10, 8, 1, 0x100);
  }

  // ---- templates without a pointer ----

  /** The space such a template names; an operand names its own space, also where its value lies
      elsewhere. */
  ghost predicate NamesOwn(t: ConstTpl, site: Site, hs: Handles, space: U8)
  {
    match t
    case SpaceId(id) => space == id
    case CurrentSpace => space == site.defaultSpace
    case Handle(k, Space) => k < |hs| && hs[k].Some? && space == hs[k].value.space
    case _ => false
  }

  /** The location of operand `k` passes through: pointer, temporary and all. */
  lemma OperandExport(tpl: HandleTpl, site: Site, hs: Handles, k: nat, space: U8, size: U64)
    requires tpl.ptrSpace.Real? && tpl.ptrOffset.Handle? && tpl.ptrOffset.index == k < |hs| && hs[k].Some?
    requires NamesOwn(tpl.space, site, hs, space) && Means(tpl.size, site, hs, size)
    ensures var r, h := BuildHandle(tpl, site, hs), hs[k].value;
            r == Some(FixedHandle(space, size % 0x1_0000, h.offsetSpace, h.offsetOffset, h.offsetSize,
                                  h.temporarySpace, h.temporaryOffset))
  {
    MeansExact(tpl.size, site, hs, size);
  }

  /** In particular a constructor that exports its operand exports it unchanged. */
  lemma SameExport(site: Site, hs: Handles, k: nat, x: U64)
    requires k < |hs| && hs[k].Some? && 0 <= hs[k].value.size < 0x1_0000
    ensures BuildHandle(HandleTpl(Handle(k, Space), Handle(k, Size), Real(x), Handle(k, Offset), Real(0), Real(0), Real(0)),
                        site, hs) == hs[k]
  {
    var tpl := HandleTpl(Handle(k, Space), Handle(k, Size), Real(x), Handle(k, Offset), Real(0), Real(0), Real(0));
    OperandExport(tpl, site, hs, k, hs[k].value.space, hs[k].value.size);
  }

  /** Any other offset is a constant, wrapped into the space. */
  lemma ConstantExport(tpl: HandleTpl, site: Site, hs: Handles, space: U8, size: U64, offset: U64)
    requires tpl.ptrSpace.Real? && !tpl.ptrOffset.Handle?
    requires NamesOwn(tpl.space, site, hs, space) && Means(tpl.size, site, hs, size) && Means(tpl.ptrOffset, site, hs, offset)
    ensures var r := BuildHandle(tpl, site, hs);
            && r.Some? && r.value.space == space && r.value.size == size % 0x1_0000 && r.value.offsetSpace == 0xff
            && WrappedInto(site.upper(space), offset, r.value.offsetOffset)
  {
    MeansExact(tpl.size, site, hs, size);
    MeansExact(tpl.ptrOffset, site, hs, offset);
    WrapsInto(site.upper(space), offset);
  }

  // ---- when nothing is exported ----

  ghost predicate HasValue(t: ConstTpl, site: Site, hs: Handles)
  {
    exists v: U64 :: Means(t, site, hs, v)
  }

  ghost predicate HasSpace(t: ConstTpl, site: Site, hs: Handles)
  {
    exists s: U8 :: Names(t, site, hs, s)
  }

  lemma HasValueExact(t: ConstTpl, site: Site, hs: Handles)
    ensures HasValue(t, site, hs) <==> ValueOf(t, site, hs).Some?
  {
    var v := ValueOf(t, site, hs);
    if v.Some? {
      MeansExact(t, site, hs, v.value);
    }
    if HasValue(t, site, hs) {
      var x: U64 :| Means(t, site, hs, x);
      MeansExact(t, site, hs, x);
    }
  }

  lemma HasSpaceExact(t: ConstTpl, site: Site, hs: Handles)
    ensures HasSpace(t, site, hs) <==> SpaceVia(t, site, hs).Some?
  {
    var v := SpaceVia(t, site, hs);
    if v.Some? {
      NamesExact(t, site, hs, v.value);
    }
    if HasSpace(t, site, hs) {
      var x: U8 :| Names(t, site, hs, x);
      NamesExact(t, site, hs, x);
    }
  }

  /** A handle is built exactly if every part that is needed can be read: the pointer's size and the
      temporary only for a pointer into a space. */
  lemma BuildsExactly(tpl: HandleTpl, site: Site, hs: Handles)
    ensures BuildHandle(tpl, site, hs).Some? <==>
            && HasSpace(tpl.space, site, hs) && HasValue(tpl.size, site, hs) && HasValue(tpl.ptrOffset, site, hs)
            && (tpl.ptrSpace.Real? ||
                (HasSpace(tpl.ptrSpace, site, hs) &&
                 (Names(tpl.ptrSpace, site, hs, 0) ||
                  (HasValue(tpl.ptrSize, site, hs) && HasSpace(tpl.tmpSpace, site, hs) && HasValue(tpl.tmpOffset, site, hs)))))
  {
    HasSpaceExact(tpl.space, site, hs);
    HasValueExact(tpl.size, site, hs);
    HasValueExact(tpl.ptrOffset, site, hs);
    HasSpaceExact(tpl.ptrSpace, site, hs);
    NamesExact(tpl.ptrSpace, site, hs, 0);
    HasValueExact(tpl.ptrSize, site, hs);
    HasSpaceExact(tpl.tmpSpace, site, hs);
    HasValueExact(tpl.tmpOffset, site, hs);
    SpacesAlike(tpl.space, site, hs);
  }

  lemma SpacesAlike(t: ConstTpl, site: Site, hs: Handles)
    ensures SpaceOf(t, site, hs).Some? <==> SpaceVia(t, site, hs).Some?
  {
  }

  // ---- in the evaluation of a tree ----

  /** The handle of an operand computed by an expression is the constant the expression gives in its
      slot; a symbol's is what the symbol has there. */
  lemma LeafLies(site: Site, x: nat, slot: U8)
    ensures var h, v := LeafHandle(site, HandleResolver.Expression(x), slot), site.expression(x, slot);
            && (h.None? <==> v.None?)
            && (h.Some? ==> h.value.space == 0 && h.value.size == 0 && LiesAt(h.value, 0, v.value))
    ensures LeafHandle(site, HandleResolver.Symbol(x), slot) == site.symbol(x, slot)
  {
  }

  /** What a constructor exports in the evaluation of a tree is what its template builds from the
      handles of its operands, from left to right; so all that was said holds of every node. */
  lemma ExportsBuilt(site: Site, t: Tree, n: nat)
    requires Typed(t) && t.ctor.Some? && n < |t.kids| && EvalKids(site, t, |t.kids|).Some?
    ensures EvalKid(site, t, n) == Some(EvalKids(site, t, |t.kids|).value[n])
    ensures t.ctor.value.result.None? ==> Eval(site, t) == Some(None)
    ensures t.ctor.value.result.Some? ==>
              Eval(site, t) ==
              match BuildHandle(site.template(t.ctor.value.result.value), site, EvalKids(site, t, |t.kids|).value) {
                case None => None
                case Some(h) => Some(Some(h))
              }
  {
    EvalKidsAt(site, t, |t.kids|, n);
  }

  lemma {:induction false} EvalKidsAt(site: Site, t: Tree, m: nat, n: nat)
    requires Typed(t) && t.ctor.Some? && n < m <= |t.kids| && EvalKids(site, t, m).Some?
    ensures EvalKid(site, t, n) == Some(EvalKids(site, t, m).value[n])
    decreases m
  {
    if n < m - 1 {
      EvalKidsAt(site, t, m - 1, n);
    }
  }
}
