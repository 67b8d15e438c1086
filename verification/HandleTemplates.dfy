/** Constant and handle templates, evaluated against the operand handles of a node
    (fugue-lifter-runtime/src/template.rs:76-262, 381-455; lib.rs:110-119). */
module HandleTemplates {
  import opened Prelude
  import opened DecodeMachine
  import Bits
  import Modular

  datatype HandleKind = Space | Offset | Size | OffsetPlus(value: U64)

  datatype ConstTpl =
    | Real(value: U64)
    | Handle(index: nat, kind: HandleKind)
    | Start
    | Next
    | Next2
    | CurrentSpace
    | CurrentSpaceSize
    | SpaceId(id: U8)
    | Relative(target: U64)

  datatype HandleTpl = HandleTpl(
    space: ConstTpl, size: ConstTpl, ptrSpace: ConstTpl, ptrOffset: ConstTpl,
    ptrSize: ConstTpl, tmpSpace: ConstTpl, tmpOffset: ConstTpl)

  /** What is fixed while the handles of one decoded instruction are computed. */
  datatype Site = Site(
    address: U64,
    next: U64,
    next2: Option<U64>,
    defaultSpace: U8,
    addressSize: U64,
    upper: U8 -> U64,
    wordSize: U8 -> nat,
    symbol: (nat, U8) -> Option<FixedHandle>,
    expression: (nat, U8) -> Option<U64>,
    template: nat -> HandleTpl)

  type Handles = seq<Option<FixedHandle>>

  function HandleAt(hs: Handles, i: nat): Option<FixedHandle>
  {
    if i < |hs| then hs[i] else None
  }

  function ToU16(n: int): int
  {
    n % 65536
  }

  /** Wraps an offset into [0, highest], in signed 64-bit arithmetic as the source does it. */
  function WrapOffset(highest: U64, offset: U64): U64
  {
    if offset <= highest then offset
    else
      var m := Signed64(ToU64(highest + 1));
      if m == 0 then 0
      else
        var r := Modular.TruncRem(Signed64(offset), m);
        ToU64(if r < 0 then r + m else r)
  }

  /** A wrapped offset is in range, for every upper bound, those in the upper half included. */
  lemma WrapOffsetInRange(highest: U64, offset: U64)
    ensures WrapOffset(highest, offset) <= highest
  {
    if offset > highest {
      var m := Signed64(highest + 1);
      assert ToU64(highest + 1) == highest + 1;
      TruncatedBelow(Signed64(offset), m);
      RaisedInRange(highest, offset, m, Modular.TruncRem(Signed64(offset), m));
    }
  }

  lemma TruncatedBelow(x: int, m: int)
    requires m != 0
    ensures var r := Modular.TruncRem(x, m);
            Modular.Abs(r) < Modular.Abs(m) && (r == 0 || (r < 0 <==> x < 0))
  {
    Modular.TruncatingDivision(x, m);
  }

  lemma RaisedInRange(highest: U64, offset: U64, m: int, r: int)
    requires offset > highest && m == Signed64(highest + 1) && Modular.Abs(r) < Modular.Abs(m)
    requires r == 0 || (r < 0 <==> Signed64(offset) < 0)
    ensures ToU64(if r < 0 then r + m else r) <= highest
  {
    if r < 0 && m < 0 {
      Bits.ModUnique(r + m, TWO_64, -1, r + m + TWO_64);
    } else {
      Bits.ModUnique(if r < 0 then r + m else r, TWO_64, 0, if r < 0 then r + m else r);
    }
  }

  /** In a space of fewer than 2^63 offsets, wrapping is the remainder of the signed reading. */
  lemma WrapOffsetSigned(highest: U64, offset: U64)
    requires highest < 0x7fff_ffff_ffff_ffff && offset > highest
    ensures WrapOffset(highest, offset) == Signed64(offset) % (highest + 1)
  {
    var m, r := Signed64(ToU64(highest + 1)), Modular.TruncRem(Signed64(offset), highest + 1);
    assert m == highest + 1;
    assert WrapOffset(highest, offset) == ToU64(if r < 0 then r + m else r);
    TruncatedIsFloored(Signed64(offset), highest + 1);
  }

  lemma TruncatedIsFloored(x: int, m: nat)
    requires 0 < m < TWO_64
    ensures var r := Modular.TruncRem(x, m); ToU64(if r < 0 then r + m else r) == x % m
  {
    Modular.TruncatingDivision(x, m);
    var q, r := Modular.TruncDiv(x, m), Modular.TruncRem(x, m);
    assert x == m * q + r;
    if r < 0 {
      OneLess(m, q);
      Bits.ModUnique(x, m, q - 1, r + m);
    } else {
      Bits.ModUnique(x, m, q, r);
    }
  }

  lemma OneLess(m: int, q: int)
    ensures m * (q - 1) == m * q - m
  {
  }

  /** When wrapping is the remainder: for offsets that need no wrapping or are positive when read with a
      sign, and for every offset where the number of offsets divides 2^64; for no other, apart from the
      first offset past a space of more than 2^63. */
  lemma WrapOffsetExactly(highest: U64, offset: U64)
    ensures WrapOffset(highest, offset) == offset % (highest + 1) <==>
            || offset <= highest || offset == highest + 1
            || offset < 0x8000_0000_0000_0000 || TWO_64 % (highest + 1) == 0
  {
    var m: nat := highest + 1;
    if offset <= highest {
      Bits.ModUnique(offset, m, 0, offset);
    } else if m < 0x8000_0000_0000_0000 {
      WrapOffsetSigned(highest, offset);
      if offset >= 0x8000_0000_0000_0000 {
        LessMultiple(offset, TWO_64, m);
      }
    } else {
      WrapHuge(highest, offset);
    }
  }

  /** Taking away `n` keeps the residue exactly if the modulus divides `n`. */
  lemma LessMultiple(a: int, n: int, m: nat)
    requires m > 0
    ensures (a - n) % m == a % m <==> n % m == 0
  {
    var q, r := a / m, a % m;
    var s, t := n / m, n % m;
    assert a == m * q + r && n == m * s + t;
    Apart(m, q, s);
    if r >= t {
      Bits.ModUnique(a - n, m, q - s, r - t);
    } else {
      Bits.ModUnique(a - n, m, q - s - 1, r - t + m);
    }
  }

  lemma Apart(m: int, q: int, s: int)
    ensures m * (q - s) == m * q - m * s && m * (q - s - 1) == m * q - m * s - m
  {
  }

  lemma WrapHuge(highest: U64, offset: U64)
    requires highest >= 0x7fff_ffff_ffff_ffff && offset > highest
    ensures WrapOffset(highest, offset) == (if offset == highest + 1 then 0 else offset + highest + 1 - TWO_64)
    ensures offset % (highest + 1) == offset - highest - 1
    ensures TWO_64 % (highest + 1) == if highest == 0x7fff_ffff_ffff_ffff then 0 else TWO_64 - highest - 1
  {
    var m: nat := highest + 1;
    Bits.ModUnique(offset, m, 1, offset - m);
    if m > 0x8000_0000_0000_0000 {
      Bits.ModUnique(TWO_64, m, 1, TWO_64 - m);
    }
    var x, y := Signed64(offset), Signed64(ToU64(highest + 1));
    assert y == m - TWO_64 && x == offset - TWO_64 && y <= x < 0;
    NearZero(x, y);
  }

  lemma NearZero(x: int, y: int)
    requires y <= x < 0
    ensures Modular.TruncRem(x, y) == if x == y then 0 else x
  {
  }

  /** Such an offset: -1 in a space of ten offsets wraps to 9, and the remainder is 5. */
  lemma WrapsElsewhere()
    ensures WrapOffset(9, TWO_64 - 1) == 9 && (TWO_64 - 1) % 10 == 5
  {
    WrapOffsetSigned(9, TWO_64 - 1);
  }

  /** In particular, where the number of offsets divides 2^64 the signed arithmetic loses nothing. */
  lemma WrapOffsetIsRemainder(highest: U64, offset: U64, k: nat)
    requires (highest + 1) * k == TWO_64
    ensures WrapOffset(highest, offset) == offset % (highest + 1)
  {
    Bits.ModUnique(TWO_64, highest + 1, k, 0);
    WrapOffsetExactly(highest, offset);
  }

  function Shr(value: U64, amount: int): U64
    requires 0 <= amount
  {
    if amount >= 64 then 0 else Bits.ShiftRight(value, amount)
  }

  function Fixed(h: FixedHandle): U64
  {
    if h.offsetSpace == INVALID then h.offsetOffset else h.temporaryOffset
  }

  function SpaceVia(t: ConstTpl, site: Site, hs: Handles): Option<U8>
  {
    match t
    case CurrentSpace => Some(site.defaultSpace)
    case Handle(index, Space) =>
      var h :- HandleAt(hs, index);
      Some(if h.offsetSpace == INVALID then h.space else h.temporarySpace)
    case SpaceId(id) => Some(id)
    case _ => None
  }

  function SpaceOf(t: ConstTpl, site: Site, hs: Handles): Option<U8>
  {
    match t
    case CurrentSpace => Some(site.defaultSpace)
    case Handle(index, Space) =>
      var h :- HandleAt(hs, index);
      Some(h.space)
    case SpaceId(id) => Some(id)
    case _ => None
  }

  function KindValue(kind: HandleKind, h: FixedHandle): U64
  {
    match kind
    case Space => if h.offsetSpace == INVALID then h.space else h.temporarySpace
    case Offset => Fixed(h)
    case Size => ToU64(h.size)
    case OffsetPlus(value) =>
      if h.space == 0 then Shr(Fixed(h), 8 * ((value / 0x1_0000) % 0x1_0000_0000) % 0x1_0000_0000)
      else ToU64(Fixed(h) + value % 0x1_0000)
  }

  function ValueOf(t: ConstTpl, site: Site, hs: Handles): Option<U64>
  {
    match t
    case Start => Some(site.address)
    case Next => Some(site.next)
    case Next2 => site.next2
    case CurrentSpaceSize => Some(site.addressSize)
    case CurrentSpace => Some(site.defaultSpace)
    case Relative(value) => Some(value)
    case Real(value) => Some(value)
    case SpaceId(id) => Some(id)
    case Handle(index, kind) =>
      var h :- HandleAt(hs, index);
      Some(KindValue(kind, h))
  }

  const DEFAULT_HANDLE := FixedHandle(INVALID, 0, INVALID, 0, 0, INVALID, 0)

  function UpdateOffset(t: ConstTpl, site: Site, hs: Handles, handle: FixedHandle): Option<FixedHandle>
  {
    match t
    case Handle(index, _) =>
      var h :- HandleAt(hs, index);
      Some(handle.(offsetSpace := h.offsetSpace, offsetOffset := h.offsetOffset, offsetSize := h.offsetSize,
                   temporarySpace := h.temporarySpace, temporaryOffset := h.temporaryOffset))
    case _ =>
      var value :- ValueOf(t, site, hs);
      Some(handle.(offsetSpace := INVALID, offsetOffset := WrapOffset(site.upper(handle.space), value)))
  }

  /** The handle a constructor exports, built from the handles of its operands. */
  function BuildHandle(tpl: HandleTpl, site: Site, hs: Handles): (r: Option<FixedHandle>)
  {
    if tpl.ptrSpace.Real? then
      var space :- SpaceOf(tpl.space, site, hs);
      var size :- ValueOf(tpl.size, site, hs);
      UpdateOffset(tpl.ptrOffset, site, hs, DEFAULT_HANDLE.(space := space, size := ToU16(size)))
    else
      var space :- SpaceVia(tpl.space, site, hs);
      var size :- ValueOf(tpl.size, site, hs);
      var offset :- ValueOf(tpl.ptrOffset, site, hs);
      var offsetSpace :- SpaceVia(tpl.ptrSpace, site, hs);
      var handle := DEFAULT_HANDLE.(space := space, size := ToU16(size));
      if offsetSpace == 0 then
        Some(handle.(offsetOffset := WrapOffset(site.upper(space), ToU64(offset * site.wordSize(space)))))
      else
        var offsetSize :- ValueOf(tpl.ptrSize, site, hs);
        var temporaryOffset :- ValueOf(tpl.tmpOffset, site, hs);
        var temporarySpace :- SpaceVia(tpl.tmpSpace, site, hs);
        Some(handle.(offsetOffset := offset, offsetSpace := offsetSpace, offsetSize := ToU16(offsetSize),
                     temporaryOffset := temporaryOffset, temporarySpace := temporarySpace))
  }

  /** What the lifter can observe of a handle: the pointer fields of a direct handle are never
      looked at. */
  function Observe(h: FixedHandle): FixedHandle
  {
    if h.offsetSpace == INVALID then h.(offsetSize := 0, temporarySpace := INVALID, temporaryOffset := 0) else h
  }

  function ObserveOption(h: Option<FixedHandle>): Option<FixedHandle>
  {
    match h
    case None => None
    case Some(x) => Some(Observe(x))
  }

  /** Which operand a constant template reads, if any. */
  predicate Reads(t: ConstTpl, i: nat)
  {
    t.Handle? && t.index == i
  }

  predicate TemplateReads(tpl: HandleTpl, i: nat)
  {
    || Reads(tpl.space, i) || Reads(tpl.size, i) || Reads(tpl.ptrSpace, i) || Reads(tpl.ptrOffset, i)
    || Reads(tpl.ptrSize, i) || Reads(tpl.tmpSpace, i) || Reads(tpl.tmpOffset, i)
  }

  /** Two operand lists look alike to a template. */
  ghost predicate LookAlike(tpl: HandleTpl, a: Handles, b: Handles)
  {
    forall i: nat :: TemplateReads(tpl, i) ==> ObserveOption(HandleAt(a, i)) == ObserveOption(HandleAt(b, i))
  }

  lemma ConstAlike(t: ConstTpl, site: Site, a: Handles, b: Handles)
    requires t.Handle? ==> ObserveOption(HandleAt(a, t.index)) == ObserveOption(HandleAt(b, t.index))
    ensures ValueOf(t, site, a) == ValueOf(t, site, b)
    ensures SpaceVia(t, site, a) == SpaceVia(t, site, b)
    ensures SpaceOf(t, site, a) == SpaceOf(t, site, b)
    ensures forall h :: ObserveOption(UpdateOffset(t, site, a, h)) == ObserveOption(UpdateOffset(t, site, b, h))
  {
  }

  /** Handles that look alike build handles that look alike: the hidden fields of a direct
      handle never leak into what is exported. */
  lemma BuildAlike(tpl: HandleTpl, site: Site, a: Handles, b: Handles)
    requires LookAlike(tpl, a, b)
    ensures ObserveOption(BuildHandle(tpl, site, a)) == ObserveOption(BuildHandle(tpl, site, b))
  {
    forall t | t in {tpl.space, tpl.size, tpl.ptrSpace, tpl.ptrOffset, tpl.ptrSize, tpl.tmpSpace, tpl.tmpOffset}
      ensures t.Handle? ==> ObserveOption(HandleAt(a, t.index)) == ObserveOption(HandleAt(b, t.index))
    {
      assert t.Handle? ==> TemplateReads(tpl, t.index);
    }
    ConstAlike(tpl.space, site, a, b);
    ConstAlike(tpl.size, site, a, b);
    ConstAlike(tpl.ptrSpace, site, a, b);
    ConstAlike(tpl.ptrOffset, site, a, b);
    ConstAlike(tpl.ptrSize, site, a, b);
    ConstAlike(tpl.tmpSpace, site, a, b);
    ConstAlike(tpl.tmpOffset, site, a, b);
  }
}
