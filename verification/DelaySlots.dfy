/** Lifting with delay slots: the loop that decodes them and the query that finds them again
    (fugue-lifter-runtime/src/entry.rs:224-288, fugue-lifter-runtime/src/input.rs:148-211, 292-295). */
module DelaySlots {
  import opened Prelude

  /** What a parser input shows of its last decode. */
  datatype Slot = Slot(address: U64, length: U8, delaySlotLength: U8)

  function NextAddress(s: Slot): U64
  {
    ToU64(s.address + s.length)
  }

  function Total(slots: seq<Slot>): nat
  {
    if slots == [] then 0 else Total(slots[..|slots| - 1]) + slots[|slots| - 1].length
  }

  /** Where a run of slots that starts at `address` ends. */
  function EndOf(address: U64, slots: seq<Slot>): U64
  {
    if slots == [] then address else NextAddress(slots[|slots| - 1])
  }

  /** Nonempty slots, each starting where the one before it ends. */
  predicate Contiguous(address: U64, slots: seq<Slot>)
  {
    slots == [] ||
    (var last := |slots| - 1;
     && Contiguous(address, slots[..last])
     && slots[last].address == EndOf(address, slots[..last]) && slots[last].length > 0)
  }

  /** The shortest contiguous run that covers `need` bytes. */
  predicate Covers(address: U64, need: nat, slots: seq<Slot>)
  {
    && Contiguous(address, slots) && Total(slots) >= need
    && (slots == [] || Total(slots[..|slots| - 1]) < need)
  }

  lemma {:induction false} TotalMonotone(slots: seq<Slot>, k: nat)
    requires k <= |slots|
    ensures Total(slots[..k]) <= Total(slots)
    decreases |slots|
  {
    if k < |slots| {
      assert slots[..|slots| - 1][..k] == slots[..k];
      TotalMonotone(slots[..|slots| - 1], k);
    } else {
      assert slots[..k] == slots;
    }
  }

  lemma {:induction false} ContiguousPrefix(address: U64, slots: seq<Slot>, k: nat)
    requires k <= |slots| && Contiguous(address, slots)
    ensures Contiguous(address, slots[..k])
    decreases |slots|
  {
    if k < |slots| {
      assert slots[..|slots| - 1][..k] == slots[..k];
      ContiguousPrefix(address, slots[..|slots| - 1], k);
    } else {
      assert slots[..k] == slots;
    }
  }

  /** A list of inputs has at most one covering run in front. */
  lemma CoveringUnique(address: U64, need: nat, inputs: seq<Slot>, i: nat, j: nat)
    requires i <= |inputs| && j <= |inputs|
    requires Covers(address, need, inputs[..i]) && Covers(address, need, inputs[..j])
    ensures i == j
  {
    if i < j {
      assert inputs[..j][..j - 1] == inputs[..j - 1] && inputs[..j - 1][..i] == inputs[..i];
      TotalMonotone(inputs[..j - 1], i);
    } else if j < i {
      assert inputs[..i][..i - 1] == inputs[..i - 1] && inputs[..i - 1][..j] == inputs[..j];
      TotalMonotone(inputs[..i - 1], j);
    }
  }

  lemma AddWrapped(a: nat, b: nat)
    ensures ToU64(ToU64(a) + b) == ToU64(a + b)
  {
  }

  /** A contiguous run spans exactly its total length. */
  lemma {:induction false} EndIsTotal(address: U64, slots: seq<Slot>)
    requires Contiguous(address, slots)
    ensures EndOf(address, slots) == ToU64(address + Total(slots))
    decreases |slots|
  {
    if slots != [] {
      var front, last := slots[..|slots| - 1], slots[|slots| - 1];
      EndIsTotal(address, front);
      AddWrapped(address + Total(front), last.length);
    }
  }

  /** What the query has to answer: the covering run, or nothing if there is none. */
  ghost predicate Answers(input: Slot, inputs: seq<Slot>, found: seq<Slot>)
  {
    var address, need := NextAddress(input), input.delaySlotLength;
    if exists k :: 0 <= k <= |inputs| && Covers(address, need, inputs[..k])
    then found <= inputs && Covers(address, need, found)
    else found == []
  }

  // ---- decoding ----

  /** A successful decode: the slot it leaves, the context database, and what became of the later
      inputs, which it may have reset or used to look ahead. */
  datatype Decoded<W> = Decoded(length: U8, delaySlotLength: U8, world: W, later: seq<Slot>)

  /** Decoding at an address from the bytes there. Emission may also look ahead. */
  datatype RawDecoder<!W> = RawDecoder(
    decode: (U64, seq<U8>, W, seq<Slot>) -> Option<Decoded<W>>,
    emit: (seq<Slot>, seq<Slot>) -> Option<seq<Slot>>)

  ghost predicate KeepsCount<W>(d: RawDecoder<W>, a: U64, bytes: seq<U8>, w: W, later: seq<Slot>)
  {
    d.decode(a, bytes, w, later).Some? ==> |d.decode(a, bytes, w, later).value.later| == |later|
  }

  ghost predicate KeepsLater<W>(d: RawDecoder<W>, run: seq<Slot>, later: seq<Slot>)
  {
    d.emit(run, later).Some? ==> |d.emit(run, later).value| == |later|
  }

  /** No decode changes how many inputs there are. */
  ghost predicate IsDecoder<W(!new)>(d: RawDecoder<W>)
  {
    && (forall a, bytes, w, later :: KeepsCount(d, a, bytes, w, later))
    && (forall run, later :: KeepsLater(d, run, later))
  }

  type Decoder<!W(!new)> = d: RawDecoder<W> | IsDecoder(d)
    witness RawDecoder.RawDecoder((a: U64, b: seq<U8>, w: W, l: seq<Slot>) => None, (r: seq<Slot>, l: seq<Slot>) => None)

  /** What decoding the slots leaves: the end of the last, how many there are, the database and
      the inputs. */
  datatype Run<W> = Run(fall: nat, count: nat, world: W, inputs: seq<Slot>)

  /** One slot, `fall` bytes after the instruction's start: it has to fit, must not be empty and
      must not ask for delay slots itself. */
  function DecodeSlot<W(!new)>(d: Decoder<W>, address: U64, bytes: seq<U8>, r: Run<W>): (s: Option<Run<W>>)
    ensures s.Some? ==> |s.value.inputs| == |r.inputs| && s.value.count == r.count + 1 <= |r.inputs|
  {
    if r.fall > |bytes| || r.count >= |r.inputs| then None
    else
      var later := r.inputs[r.count + 1..];
      match d.decode(ToU64(address + r.fall), bytes[r.fall..], r.world, later)
      case None => None
      case Some(s) =>
        assert KeepsCount(d, ToU64(address + r.fall), bytes[r.fall..], r.world, later);
        if s.delaySlotLength != 0 || s.length == 0 || s.length > |bytes| - r.fall then None
        else
          var slot := Slot(ToU64(address + r.fall), s.length, 0);
          Some(Run(r.fall + s.length, r.count + 1, s.world, r.inputs[..r.count] + [slot] + s.later))
  }

  /** Decodes slots until `need` bytes are covered. */
  function DecodeSlots<W(!new)>(d: Decoder<W>, address: U64, bytes: seq<U8>, need: nat, covered: nat, r: Run<W>)
    : (s: Option<Run<W>>)
    requires r.count <= |r.inputs|
    decreases |r.inputs| - r.count
  {
    match DecodeSlot(d, address, bytes, r)
    case None => None
    case Some(r') =>
      var covered' := covered + (r'.fall - r.fall);
      if covered' >= need then Some(r') else DecodeSlots(d, address, bytes, need, covered', r')
  }

  /** The slots still to decode when `covered` bytes are done. */
  function SlotsFor<W(!new)>(d: Decoder<W>, address: U64, bytes: seq<U8>, need: nat, covered: nat, r: Run<W>): Option<Run<W>>
    requires r.count <= |r.inputs|
  {
    if covered >= need then Some(r) else DecodeSlots(d, address, bytes, need, covered, r)
  }

  /** What lifting one instruction leaves: its size, itself, the inputs behind it and the database. */
  datatype Lifted<W> = Lifted(size: nat, input: Slot, inputs: seq<Slot>, world: W)

  /** Lifting an instruction; the lengths are those of the decoded roots. */
  function Lift<W(!new)>(d: Decoder<W>, address: U64, bytes: seq<U8>, world: W, inputs: seq<Slot>): Option<Lifted<W>>
  {
    match d.decode(address, bytes, world, inputs)
    case None => None
    case Some(i) =>
      if i.length == 0 || i.length > |bytes| then None
      else
        var input := Slot(address, i.length, i.delaySlotLength);
        var r := Run(i.length, 0, i.world, i.later);
        match SlotsFor(d, address, bytes, i.delaySlotLength, 0, r)
        case None => None
        case Some(r') => Emitted(d, input, r')
  }

  /** Emission keeps the slots and may look ahead with the inputs behind them. */
  function Emitted<W(!new)>(d: Decoder<W>, input: Slot, r: Run<W>): (l: Option<Lifted<W>>)
    ensures l.Some? && r.count <= |r.inputs| ==>
              && l.value.input == input && l.value.size == r.fall
              && |l.value.inputs| == |r.inputs| && l.value.inputs[..r.count] == r.inputs[..r.count]
  {
    if r.count > |r.inputs| then None
    else
      match d.emit([input] + r.inputs[..r.count], r.inputs[r.count..])
      case None => None
      case Some(later) =>
        assert KeepsLater(d, [input] + r.inputs[..r.count], r.inputs[r.count..]);
        Some(Lifted(r.fall, input, r.inputs[..r.count] + later, r.world))
  }

  // ---- what lifting promises ----

  /** The slot is what decoding the bytes at `at` gave, and asks for no slots itself. */
  ghost predicate DecodedFrom<W(!new)>(d: Decoder<W>, bytes: seq<U8>, slot: Slot, at: nat)
  {
    && at <= |bytes| && slot.length > 0 && slot.delaySlotLength == 0
    && exists w, later ::
         && d.decode(slot.address, bytes[at..], w, later).Some?
         && d.decode(slot.address, bytes[at..], w, later).value.length == slot.length
  }

  ghost predicate AllDecoded<W(!new)>(d: Decoder<W>, bytes: seq<U8>, length: nat, slots: seq<Slot>)
  {
    slots == [] ||
    (var last := |slots| - 1;
     && AllDecoded(d, bytes, length, slots[..last])
     && DecodedFrom(d, bytes, slots[last], length + Total(slots[..last])))
  }

  /** The slots decoded so far are contiguous, come from the bytes and end at `fall`. */
  ghost predicate Tracks<W(!new)>(d: Decoder<W>, address: U64, bytes: seq<U8>, length: nat, covered: nat, r: Run<W>)
  {
    && r.count <= |r.inputs| && covered == Total(r.inputs[..r.count]) && r.fall == length + covered <= |bytes|
    && Contiguous(ToU64(address + length), r.inputs[..r.count])
    && AllDecoded(d, bytes, length, r.inputs[..r.count])
  }

  /** The new slot follows `fall`, the earlier ones stay. */
  ghost predicate SlotFollows<W(!new)>(d: Decoder<W>, address: U64, bytes: seq<U8>, r: Run<W>, s: Run<W>)
  {
    && r.count < |r.inputs| == |s.inputs| && s.count == r.count + 1
    && s.inputs[..r.count] == r.inputs[..r.count]
    && s.inputs[r.count].address == ToU64(address + r.fall)
    && s.fall == r.fall + s.inputs[r.count].length <= |bytes|
    && DecodedFrom(d, bytes, s.inputs[r.count], r.fall)
  }

  lemma SlotDecoded<W(!new)>(d: Decoder<W>, address: U64, bytes: seq<U8>, r: Run<W>)
    requires DecodeSlot(d, address, bytes, r).Some?
    ensures SlotFollows(d, address, bytes, r, DecodeSlot(d, address, bytes, r).value)
  {
    var s := d.decode(ToU64(address + r.fall), bytes[r.fall..], r.world, r.inputs[r.count + 1..]);
    assert s.Some?;
  }

  lemma AllDecodedOn<W(!new)>(d: Decoder<W>, bytes: seq<U8>, length: nat, slots: seq<Slot>, slot: Slot)
    requires AllDecoded(d, bytes, length, slots) && DecodedFrom(d, bytes, slot, length + Total(slots))
    ensures AllDecoded(d, bytes, length, slots + [slot])
  {
    assert (slots + [slot])[..|slots|] == slots;
  }

  lemma RunOn(start: U64, slots: seq<Slot>, slot: Slot)
    requires Contiguous(start, slots) && slot.address == ToU64(start + Total(slots)) && slot.length > 0
    ensures Contiguous(start, slots + [slot]) && Total(slots + [slot]) == Total(slots) + slot.length
  {
    assert (slots + [slot])[..|slots|] == slots;
    EndIsTotal(start, slots);
  }

  lemma TracksOn<W(!new)>(d: Decoder<W>, address: U64, bytes: seq<U8>, length: nat, covered: nat, r: Run<W>, s: Run<W>)
    requires Tracks(d, address, bytes, length, covered, r) && SlotFollows(d, address, bytes, r, s)
    ensures Tracks(d, address, bytes, length, covered + (s.fall - r.fall), s)
    ensures s.inputs[..s.count][..r.count] == r.inputs[..r.count]
  {
    var was, slot := r.inputs[..r.count], s.inputs[r.count];
    assert s.inputs[..s.count] == was + [slot];
    AddWrapped(address + length, covered);
    RunOn(ToU64(address + length), was, slot);
    AllDecodedOn(d, bytes, length, was, slot);
  }

  /** The loop ends with the shortest contiguous run of slots that covers the bytes needed. */
  ghost predicate RunCovers<W(!new)>(d: Decoder<W>, address: U64, bytes: seq<U8>, length: nat, need: nat, r: Run<W>)
  {
    && r.count <= |r.inputs|
    && Tracks(d, address, bytes, length, Total(r.inputs[..r.count]), r)
    && Covers(ToU64(address + length), need, r.inputs[..r.count])
  }

  lemma {:induction false} SlotsCover<W(!new)>(d: Decoder<W>, address: U64, bytes: seq<U8>, length: nat, need: nat,
                                               covered: nat, r: Run<W>)
    requires Tracks(d, address, bytes, length, covered, r) && covered < need
    ensures EndsCovering(d, address, bytes, length, need, covered, r)
    decreases |r.inputs| - r.count
  {
    var s := DecodeSlot(d, address, bytes, r);
    if s.Some? {
      SlotDecoded(d, address, bytes, r);
      TracksOn(d, address, bytes, length, covered, r, s.value);
      var covered' := covered + (s.value.fall - r.fall);
      if covered' < need {
        SlotsCover(d, address, bytes, length, need, covered', s.value);
        EndsLater(d, address, bytes, length, need, covered, r);
      } else {
        EndsHere(d, address, bytes, length, need, covered, r);
      }
    }
  }

  ghost predicate EndsCovering<W(!new)>(d: Decoder<W>, address: U64, bytes: seq<U8>, length: nat, need: nat, covered: nat,
                                        r: Run<W>)
    requires r.count <= |r.inputs|
  {
    var s := DecodeSlots(d, address, bytes, need, covered, r);
    s.Some? ==> RunCovers(d, address, bytes, length, need, s.value)
  }

  lemma EndsLater<W(!new)>(d: Decoder<W>, address: U64, bytes: seq<U8>, length: nat, need: nat, covered: nat, r: Run<W>)
    requires r.count <= |r.inputs| && DecodeSlot(d, address, bytes, r).Some?
    requires var s := DecodeSlot(d, address, bytes, r).value;
             && r.fall <= s.fall && covered + (s.fall - r.fall) < need
             && EndsCovering(d, address, bytes, length, need, covered + (s.fall - r.fall), s)
    ensures EndsCovering(d, address, bytes, length, need, covered, r)
  {
  }

  lemma EndsHere<W(!new)>(d: Decoder<W>, address: U64, bytes: seq<U8>, length: nat, need: nat, covered: nat, r: Run<W>)
    requires r.count <= |r.inputs| && DecodeSlot(d, address, bytes, r).Some? && covered < need
    requires covered == Total(r.inputs[..r.count])
    requires var s := DecodeSlot(d, address, bytes, r).value;
             && r.fall <= s.fall && covered + (s.fall - r.fall) >= need
             && Tracks(d, address, bytes, length, covered + (s.fall - r.fall), s)
             && s.inputs[..s.count][..r.count] == r.inputs[..r.count]
    ensures EndsCovering(d, address, bytes, length, need, covered, r)
  {
    var s := DecodeSlot(d, address, bytes, r).value;
    assert DecodeSlots(d, address, bytes, need, covered, r) == Some(s);
    assert |s.inputs[..s.count]| - 1 == r.count;
  }

  /** `l` is what lifting left after decoding the slots of `r`. */
  ghost predicate RunLifted<W(!new)>(d: Decoder<W>, address: U64, bytes: seq<U8>, l: Lifted<W>, r: Run<W>)
  {
    && l.input.address == address && 0 < l.input.length <= |bytes|
    && RunCovers(d, address, bytes, l.input.length, l.input.delaySlotLength, r)
    && l.size == r.fall && r.count <= |l.inputs| && l.inputs[..r.count] == r.inputs[..r.count]
  }

  /** The run a successful lift decoded. */
  lemma LiftRun<W(!new)>(d: Decoder<W>, address: U64, bytes: seq<U8>, world: W, inputs: seq<Slot>) returns (r: Run<W>)
    requires Lift(d, address, bytes, world, inputs).Some?
    ensures RunLifted(d, address, bytes, Lift(d, address, bytes, world, inputs).value, r)
  {
    var i := d.decode(address, bytes, world, inputs).value;
    r := Run(i.length, 0, i.world, i.later);
    assert r.inputs[..0] == [];
    assert Tracks(d, address, bytes, i.length, 0, r);
    if i.delaySlotLength > 0 {
      SlotsCover(d, address, bytes, i.length, i.delaySlotLength, 0, r);
      r := DecodeSlots(d, address, bytes, i.delaySlotLength, 0, r).value;
    }
  }

  lemma RunFound(input: Slot, inputs: seq<Slot>, found: seq<Slot>, k: nat)
    requires Answers(input, inputs, found)
    requires k <= |inputs| && Covers(NextAddress(input), input.delaySlotLength, inputs[..k])
    ensures found == inputs[..k]
  {
    assert found <= inputs && found == inputs[..|found|];
    CoveringUnique(NextAddress(input), input.delaySlotLength, inputs, k, |found|);
  }

  /** After a successful lift the query answers exactly the slots of this lift and no stale ones:
      the shortest contiguous run, decoded from the bytes that follow the instruction, that covers
      the bytes declared; the size is the distance to the next address and fits the bytes given. */
  lemma LiftCovers<W(!new)>(d: Decoder<W>, address: U64, bytes: seq<U8>, world: W, inputs: seq<Slot>, found: seq<Slot>)
    requires Lift(d, address, bytes, world, inputs).Some?
    requires var l := Lift(d, address, bytes, world, inputs).value; Answers(l.input, l.inputs, found)
    ensures LiftedWell(d, address, bytes, Lift(d, address, bytes, world, inputs).value, found)
  {
    var r := LiftRun(d, address, bytes, world, inputs);
    FoundCovers(d, address, bytes, Lift(d, address, bytes, world, inputs).value, r, found);
  }

  lemma FoundCovers<W(!new)>(d: Decoder<W>, address: U64, bytes: seq<U8>, l: Lifted<W>, r: Run<W>, found: seq<Slot>)
    requires RunLifted(d, address, bytes, l, r) && Answers(l.input, l.inputs, found)
    ensures LiftedWell(d, address, bytes, l, found)
  {
    RunInLater(d, address, bytes, l, r);
    RunFound(l.input, l.inputs, found, r.count);
    FoundEnds(l.input, found, l.input.length + Total(found));
  }

  /** The run decoded lies in the inputs that lifting left. */
  lemma RunInLater<W(!new)>(d: Decoder<W>, address: U64, bytes: seq<U8>, l: Lifted<W>, r: Run<W>)
    requires RunLifted(d, address, bytes, l, r)
    ensures r.count <= |l.inputs| && Covers(NextAddress(l.input), l.input.delaySlotLength, l.inputs[..r.count])
    ensures AllDecoded(d, bytes, l.input.length, l.inputs[..r.count])
    ensures l.size == l.input.length + Total(l.inputs[..r.count]) <= |bytes|
  {
  }

  /** The slots found end where the bytes lifted end. */
  lemma FoundEnds(input: Slot, found: seq<Slot>, size: nat)
    requires Contiguous(NextAddress(input), found) && size == input.length + Total(found)
    ensures ToU64(input.address + size) == EndOf(NextAddress(input), found)
  {
    EndIsTotal(NextAddress(input), found);
    AddWrapped(input.address + input.length, Total(found));
  }

  ghost predicate LiftedWell<W(!new)>(d: Decoder<W>, address: U64, bytes: seq<U8>, l: Lifted<W>, found: seq<Slot>)
  {
    && l.input.address == address && 0 < l.input.length <= l.size <= |bytes|
    && found <= l.inputs && Covers(NextAddress(l.input), l.input.delaySlotLength, found)
    && AllDecoded(d, bytes, l.input.length, found)
    && l.size == l.input.length + Total(found)
    && ToU64(address + l.size) == EndOf(NextAddress(l.input), found)
  }

  // ---- the database and the emission ----

  /** The database and the inputs that are still free. */
  datatype Rest<W> = Rest(world: W, later: seq<Slot>)

  /** Decodes the slots from their bytes, each in the first free input and under what the one before it
      left; none may ask for slots itself. */
  ghost function Follow<W(!new)>(d: Decoder<W>, bytes: seq<U8>, length: nat, slots: seq<Slot>, a: Rest<W>): Option<Rest<W>>
    decreases |slots|
  {
    if slots == [] then Some(a)
    else
      var last := |slots| - 1;
      var x :- Follow(d, bytes, length, slots[..last], a);
      FollowOne(d, bytes, length + Total(slots[..last]), slots[last], x)
  }

  /** One slot, from the bytes at `at`. */
  ghost function FollowOne<W(!new)>(d: Decoder<W>, bytes: seq<U8>, at: nat, slot: Slot, x: Rest<W>): Option<Rest<W>>
  {
    if at > |bytes| || x.later == [] then None
    else
      var s :- d.decode(slot.address, bytes[at..], x.world, x.later[1..]);
      if s.length == slot.length && s.delaySlotLength == 0 == slot.delaySlotLength then Some(Rest(s.world, s.later)) else None
  }

  ghost predicate RunFollows<W(!new)>(d: Decoder<W>, bytes: seq<U8>, length: nat, a: Rest<W>, r: Run<W>)
  {
    && r.count <= |r.inputs| && r.fall == length + Total(r.inputs[..r.count])
    && Follow(d, bytes, length, r.inputs[..r.count], a) == Some(Rest(r.world, r.inputs[r.count..]))
  }

  lemma SlotFollowed<W(!new)>(d: Decoder<W>, address: U64, bytes: seq<U8>, length: nat, a: Rest<W>, r: Run<W>)
    requires RunFollows(d, bytes, length, a, r) && DecodeSlot(d, address, bytes, r).Some?
    ensures RunFollows(d, bytes, length, a, DecodeSlot(d, address, bytes, r).value)
  {
    var s := DecodeSlot(d, address, bytes, r).value;
    var slots := s.inputs[..s.count];
    SlotDecoded(d, address, bytes, r);
    assert slots[..|slots| - 1] == r.inputs[..r.count];
    SlotLeaves(d, address, bytes, r);
  }

  lemma SlotLeaves<W(!new)>(d: Decoder<W>, address: U64, bytes: seq<U8>, r: Run<W>)
    requires DecodeSlot(d, address, bytes, r).Some?
    ensures var s := DecodeSlot(d, address, bytes, r).value;
            && r.count < s.count <= |s.inputs|
            && FollowOne(d, bytes, r.fall, s.inputs[r.count], Rest(r.world, r.inputs[r.count..])) ==
               Some(Rest(s.world, s.inputs[s.count..]))
  {
    assert r.inputs[r.count..][1..] == r.inputs[r.count + 1..];
    var s := DecodeSlot(d, address, bytes, r).value;
    var x := d.decode(ToU64(address + r.fall), bytes[r.fall..], r.world, r.inputs[r.count + 1..]).value;
    assert s.inputs[s.count..] == x.later;
  }

  lemma {:induction false} SlotsFollow<W(!new)>(d: Decoder<W>, address: U64, bytes: seq<U8>, length: nat, need: nat,
                                                covered: nat, a: Rest<W>, r: Run<W>)
    requires RunFollows(d, bytes, length, a, r) && DecodeSlots(d, address, bytes, need, covered, r).Some?
    ensures RunFollows(d, bytes, length, a, DecodeSlots(d, address, bytes, need, covered, r).value)
    decreases |r.inputs| - r.count
  {
    SlotFollowed(d, address, bytes, length, a, r);
    var s := DecodeSlot(d, address, bytes, r).value;
    if covered + (s.fall - r.fall) < need {
      SlotsFollow(d, address, bytes, length, need, covered + (s.fall - r.fall), a, s);
    }
  }

  /** What a lift does: the instruction is decoded under the database given and is not empty; the slots
      are the shortest contiguous run behind it that covers the bytes it asks for, decoded one after
      the other, within the bytes given; then the instruction with exactly these slots is emitted, and
      the inputs behind them are what the emission left of those that were free. */
  ghost predicate LiftedBy<W(!new)>(d: Decoder<W>, address: U64, bytes: seq<U8>, world: W, inputs: seq<Slot>, l: Lifted<W>,
                                    slots: seq<Slot>)
  {
    var i := d.decode(address, bytes, world, inputs);
    && i.Some? && 0 < i.value.length && l.input == Slot(address, i.value.length, i.value.delaySlotLength)
    && Covers(ToU64(address + i.value.length), i.value.delaySlotLength, slots)
    && l.size == i.value.length + Total(slots) <= |bytes|
    && var b := Follow(d, bytes, i.value.length, slots, Rest(i.value.world, i.value.later));
    && b.Some? && l.world == b.value.world
    && slots <= l.inputs && d.emit([l.input] + slots, b.value.later) == Some(l.inputs[|slots|..])
  }

  lemma StartFollows<W(!new)>(d: Decoder<W>, address: U64, bytes: seq<U8>, r: Run<W>)
    requires r.count == 0 && r.fall <= |bytes|
    ensures RunFollows(d, bytes, r.fall, Rest(r.world, r.inputs), r) && Tracks(d, address, bytes, r.fall, 0, r)
    ensures Covers(ToU64(address + r.fall), 0, r.inputs[..0])
  {
    assert r.inputs[..0] == [] && r.inputs[0..] == r.inputs;
  }

  lemma EmittedSlots<W(!new)>(d: Decoder<W>, input: Slot, r: Run<W>)
    requires Emitted(d, input, r).Some? && r.count <= |r.inputs|
    ensures var l := Emitted(d, input, r).value;
            && l.world == r.world && r.count <= |l.inputs| && l.inputs[..r.count] == r.inputs[..r.count]
            && d.emit([input] + r.inputs[..r.count], r.inputs[r.count..]) == Some(l.inputs[r.count..])
  {
  }

  /** What was lifted was lifted by the slots that the query answers afterwards. */
  lemma LiftEmits<W(!new)>(d: Decoder<W>, address: U64, bytes: seq<U8>, world: W, inputs: seq<Slot>, found: seq<Slot>)
    requires Lift(d, address, bytes, world, inputs).Some?
    requires var l := Lift(d, address, bytes, world, inputs).value; Answers(l.input, l.inputs, found)
    ensures LiftedBy(d, address, bytes, world, inputs, Lift(d, address, bytes, world, inputs).value, found)
  {
    var i, l := d.decode(address, bytes, world, inputs).value, Lift(d, address, bytes, world, inputs).value;
    var r := Run(i.length, 0, i.world, i.later);
    var a := Rest(i.world, i.later);
    StartFollows(d, address, bytes, r);
    if i.delaySlotLength > 0 {
      SlotsCover(d, address, bytes, i.length, i.delaySlotLength, 0, r);
      SlotsFollow(d, address, bytes, i.length, i.delaySlotLength, 0, a, r);
      r := DecodeSlots(d, address, bytes, i.delaySlotLength, 0, r).value;
    }
    EmittedSlots(d, l.input, r);
    RunFound(l.input, l.inputs, found, r.count);
  }

  // ---- and nothing else is lifted ----

  lemma FollowLast<W(!new)>(d: Decoder<W>, bytes: seq<U8>, length: nat, slots: seq<Slot>, a: Rest<W>)
    requires slots != [] && Follow(d, bytes, length, slots, a).Some?
    ensures var front := slots[..|slots| - 1];
            var x := Follow(d, bytes, length, front, a);
            x.Some? && Follow(d, bytes, length, slots, a) ==
                       FollowOne(d, bytes, length + Total(front), slots[|slots| - 1], x.value)
  {
  }

  lemma {:induction false} FollowSome<W(!new)>(d: Decoder<W>, bytes: seq<U8>, length: nat, slots: seq<Slot>, a: Rest<W>,
                                               k: nat)
    requires k <= |slots| && Follow(d, bytes, length, slots, a).Some?
    ensures Follow(d, bytes, length, slots[..k], a).Some?
    decreases |slots|
  {
    if k == |slots| {
      assert slots[..k] == slots;
    } else {
      FollowLast(d, bytes, length, slots, a);
      assert slots[..|slots| - 1][..k] == slots[..k];
      FollowSome(d, bytes, length, slots[..|slots| - 1], a, k);
    }
  }

  lemma FollowPrefix<W(!new)>(d: Decoder<W>, bytes: seq<U8>, length: nat, slots: seq<Slot>, a: Rest<W>, k: nat)
    requires k < |slots| && Follow(d, bytes, length, slots, a).Some?
    ensures var x := Follow(d, bytes, length, slots[..k], a);
            && x.Some?
            && Follow(d, bytes, length, slots[..k + 1], a) ==
               FollowOne(d, bytes, length + Total(slots[..k]), slots[k], x.value)
            && Follow(d, bytes, length, slots[..k + 1], a).Some?
  {
    FollowSome(d, bytes, length, slots, a, k + 1);
    FollowLast(d, bytes, length, slots[..k + 1], a);
    assert slots[..k + 1][..k] == slots[..k];
  }

  /** The run after the first `k` slots. */
  ghost function RunAt<W(!new)>(d: Decoder<W>, bytes: seq<U8>, length: nat, slots: seq<Slot>, a: Rest<W>, k: nat): Run<W>
    requires k <= |slots| && Follow(d, bytes, length, slots[..k], a).Some?
  {
    RunFrom(length, slots, k, Follow(d, bytes, length, slots[..k], a).value)
  }

  function RunFrom<W>(length: nat, slots: seq<Slot>, k: nat, x: Rest<W>): Run<W>
    requires k <= |slots|
  {
    Run(length + Total(slots[..k]), k, x.world, slots[..k] + x.later)
  }

  lemma {:induction false} PlacedAt(address: U64, slots: seq<Slot>, k: nat)
    requires k < |slots| && Contiguous(address, slots)
    ensures slots[k].address == ToU64(address + Total(slots[..k])) && slots[k].length > 0
    ensures Total(slots[..k + 1]) == Total(slots[..k]) + slots[k].length <= Total(slots)
    decreases |slots|
  {
    TotalMonotone(slots, k + 1);
    assert slots[..k + 1][..k] == slots[..k];
    if k == |slots| - 1 {
      EndIsTotal(address, slots[..k]);
    } else {
      assert slots[..|slots| - 1][..k] == slots[..k];
      PlacedAt(address, slots[..|slots| - 1], k);
    }
  }

  lemma StepDecodes<W(!new)>(d: Decoder<W>, address: U64, bytes: seq<U8>, fall: nat, front: seq<Slot>, slot: Slot,
                             x: Rest<W>, y: Rest<W>)
    requires FollowOne(d, bytes, fall, slot, x) == Some(y)
    requires slot.address == ToU64(address + fall) && 0 < slot.length && fall + slot.length <= |bytes|
    ensures DecodeSlot(d, address, bytes, Run(fall, |front|, x.world, front + x.later)) ==
            Some(Run(fall + slot.length, |front| + 1, y.world, front + [slot] + y.later))
  {
    var r := Run(fall, |front|, x.world, front + x.later);
    assert r.inputs[r.count + 1..] == x.later[1..] && r.inputs[..r.count] == front;
  }

  /** Slots that can be followed and fit the bytes. */
  ghost predicate Followed<W(!new)>(d: Decoder<W>, address: U64, bytes: seq<U8>, length: nat, slots: seq<Slot>, a: Rest<W>)
  {
    && Contiguous(ToU64(address + length), slots) && length + Total(slots) <= |bytes|
    && forall k :: 0 <= k <= |slots| ==> Follow(d, bytes, length, slots[..k], a).Some?
  }

  lemma FollowedAll<W(!new)>(d: Decoder<W>, address: U64, bytes: seq<U8>, length: nat, slots: seq<Slot>, a: Rest<W>)
    requires Contiguous(ToU64(address + length), slots) && length + Total(slots) <= |bytes|
    requires Follow(d, bytes, length, slots, a).Some?
    ensures Followed(d, address, bytes, length, slots, a)
  {
    forall k | 0 <= k <= |slots|
      ensures Follow(d, bytes, length, slots[..k], a).Some?
    {
      if k < |slots| {
        FollowPrefix(d, bytes, length, slots, a, k);
      } else {
        assert slots[..k] == slots;
      }
    }
  }

  lemma RunStep<W(!new)>(d: Decoder<W>, address: U64, bytes: seq<U8>, length: nat, slots: seq<Slot>, a: Rest<W>, k: nat)
    requires Followed(d, address, bytes, length, slots, a) && k < |slots|
    ensures DecodeSlot(d, address, bytes, RunAt(d, bytes, length, slots, a, k)) ==
            Some(RunAt(d, bytes, length, slots, a, k + 1))
  {
    assert slots[..|slots|] == slots;
    FollowPrefix(d, bytes, length, slots, a, k);
    SlotFits(address, length, slots, k, |bytes|);
    var x, y := Follow(d, bytes, length, slots[..k], a).value, Follow(d, bytes, length, slots[..k + 1], a).value;
    RunStepFrom(d, address, bytes, length, slots, k, x, y);
  }

  lemma RunStepFrom<W(!new)>(d: Decoder<W>, address: U64, bytes: seq<U8>, length: nat, slots: seq<Slot>, k: nat,
                             x: Rest<W>, y: Rest<W>)
    requires k < |slots| && FollowOne(d, bytes, length + Total(slots[..k]), slots[k], x) == Some(y)
    requires slots[k].address == ToU64(address + (length + Total(slots[..k]))) && 0 < slots[k].length
    requires length + Total(slots[..k]) + slots[k].length <= |bytes|
    ensures DecodeSlot(d, address, bytes, RunFrom(length, slots, k, x)) == Some(RunFrom(length, slots, k + 1, y))
  {
    RunFromNext(length, slots, k, y);
    StepDecodes(d, address, bytes, length + Total(slots[..k]), slots[..k], slots[k], x, y);
  }

  lemma SlotFits(address: U64, length: nat, slots: seq<Slot>, k: nat, size: nat)
    requires k < |slots| && Contiguous(ToU64(address + length), slots) && length + Total(slots) <= size
    ensures slots[k].address == ToU64(address + (length + Total(slots[..k]))) && 0 < slots[k].length
    ensures length + Total(slots[..k]) + slots[k].length <= size
  {
    PlacedAt(ToU64(address + length), slots, k);
    AddWrapped(address + length, Total(slots[..k]));
  }

  lemma RunFromNext<W>(length: nat, slots: seq<Slot>, k: nat, y: Rest<W>)
    requires k < |slots|
    ensures RunFrom(length, slots, k + 1, y) ==
            Run(length + Total(slots[..k]) + slots[k].length, k + 1, y.world, slots[..k] + [slots[k]] + y.later)
  {
    assert slots[..k + 1][..k] == slots[..k] && slots[..k] + [slots[k]] == slots[..k + 1];
  }

  /** Decoding goes on from slot `k` to the last. */
  ghost predicate DecodesRest<W(!new)>(d: Decoder<W>, address: U64, bytes: seq<U8>, length: nat, need: nat,
                                       slots: seq<Slot>, a: Rest<W>, k: nat)
    requires Followed(d, address, bytes, length, slots, a) && k <= |slots|
  {
    DecodeSlots(d, address, bytes, need, Total(slots[..k]), RunAt(d, bytes, length, slots, a, k)) ==
      Some(RunAt(d, bytes, length, slots, a, |slots|))
  }

  /** Before the last slot too few bytes are covered. */
  lemma NotYetCovered(address: U64, need: nat, slots: seq<Slot>, k: nat)
    requires Covers(address, need, slots) && 0 < k <= |slots|
    ensures Total(slots[..k]) >= need <==> k == |slots|
  {
    assert slots[..|slots|] == slots;
    if k < |slots| {
      assert slots[..|slots| - 1][..k] == slots[..k];
      TotalMonotone(slots[..|slots| - 1], k);
    }
  }

  lemma DecodesOne<W(!new)>(d: Decoder<W>, address: U64, bytes: seq<U8>, need: nat, covered: nat, r: Run<W>, s: Run<W>,
                            covered': nat)
    requires r.count <= |r.inputs| && DecodeSlot(d, address, bytes, r) == Some(s) && covered' == covered + (s.fall - r.fall)
    ensures DecodeSlots(d, address, bytes, need, covered, r) ==
            if covered' >= need then Some(s) else DecodeSlots(d, address, bytes, need, covered', s)
  {
  }

  lemma {:induction false} SlotsDecode<W(!new)>(d: Decoder<W>, address: U64, bytes: seq<U8>, length: nat, need: nat,
                                                slots: seq<Slot>, a: Rest<W>, k: nat)
    requires Followed(d, address, bytes, length, slots, a) && Covers(ToU64(address + length), need, slots) && k < |slots|
    ensures DecodesRest(d, address, bytes, length, need, slots, a, k)
    decreases |slots| - k
  {
    RunStep(d, address, bytes, length, slots, a, k);
    PlacedAt(ToU64(address + length), slots, k);
    NotYetCovered(ToU64(address + length), need, slots, k + 1);
    DecodesOne(d, address, bytes, need, Total(slots[..k]), RunAt(d, bytes, length, slots, a, k),
               RunAt(d, bytes, length, slots, a, k + 1), Total(slots[..k + 1]));
    if k + 1 < |slots| {
      SlotsDecode(d, address, bytes, length, need, slots, a, k + 1);
    }
  }

  lemma RunEnds<W(!new)>(d: Decoder<W>, address: U64, bytes: seq<U8>, length: nat, need: nat, slots: seq<Slot>, a: Rest<W>)
    requires Followed(d, address, bytes, length, slots, a) && Covers(ToU64(address + length), need, slots)
    ensures SlotsFor(d, address, bytes, need, 0, Run(length, 0, a.world, a.later)) ==
            Some(RunAt(d, bytes, length, slots, a, |slots|))
  {
    assert slots[..0] == [] && [] + a.later == a.later;
    if slots != [] {
      SlotsDecode(d, address, bytes, length, need, slots, a, 0);
    }
  }

  lemma LiftsSlots<W(!new)>(d: Decoder<W>, address: U64, bytes: seq<U8>, world: W, inputs: seq<Slot>, l: Lifted<W>,
                            slots: seq<Slot>)
    requires LiftedBy(d, address, bytes, world, inputs, l, slots)
    ensures Lift(d, address, bytes, world, inputs) == Some(l)
  {
    var i := d.decode(address, bytes, world, inputs).value;
    var a := Rest(i.world, i.later);
    assert slots[..|slots|] == slots;
    FollowedAll(d, address, bytes, i.length, slots, a);
    RunEnds(d, address, bytes, i.length, i.delaySlotLength, slots, a);
    EmitsSlots(d, l, RunAt(d, bytes, i.length, slots, a, |slots|), slots, Follow(d, bytes, i.length, slots, a).value);
  }

  lemma EmitsSlots<W(!new)>(d: Decoder<W>, l: Lifted<W>, r: Run<W>, slots: seq<Slot>, b: Rest<W>)
    requires r == Run(l.size, |slots|, l.world, slots[..|slots|] + b.later) && slots <= l.inputs
    requires d.emit([l.input] + slots, b.later) == Some(l.inputs[|slots|..])
    ensures Emitted(d, l.input, r) == Some(l)
  {
    assert slots[..|slots|] == slots && r.inputs[..r.count] == slots && r.inputs[r.count..] == b.later;
    assert slots + l.inputs[|slots|..] == l.inputs;
  }

  /** Lifting succeeds with a result if and only if there are slots by which it is lifted; it fails
      exactly when there are none. */
  lemma LiftsExactly<W(!new)>(d: Decoder<W>, address: U64, bytes: seq<U8>, world: W, inputs: seq<Slot>, l: Lifted<W>)
    ensures Lift(d, address, bytes, world, inputs) == Some(l) <==>
            exists slots :: LiftedBy(d, address, bytes, world, inputs, l, slots)
  {
    if Lift(d, address, bytes, world, inputs) == Some(l) {
      var r := LiftRun(d, address, bytes, world, inputs);
      RunInLater(d, address, bytes, l, r);
      var found := l.inputs[..r.count];
      assert Answers(l.input, l.inputs, found);
      LiftEmits(d, address, bytes, world, inputs, found);
    }
    if slots :| LiftedBy(d, address, bytes, world, inputs, l, slots) {
      LiftsSlots(d, address, bytes, world, inputs, l, slots);
    }
  }

  // ---- the inputs ----

  class LiftingState<!W(!new)> {
    var input: Slot
    var inputs: seq<Slot>
    var world: W

    constructor (count: nat, w: W)
      ensures input == Slot(0, 0, 0) && |inputs| == count && world == w
    {
      input, inputs, world := Slot(0, 0, 0), seq(count, _ => Slot(0, 0, 0)), w;
    }

    /** The slots after the instruction, if they were all decoded where they are expected. */
    method DelaySlots() returns (found: seq<Slot>)
      ensures Answers(input, inputs, found)
      ensures found <= inputs
    {
      var need := input.delaySlotLength;
      var start := NextAddress(input);
      var address, length, count := start, 0, 0;
      assert inputs[..0] == [];
      while length < need
        invariant count <= |inputs| && length == Total(inputs[..count]) && address == EndOf(start, inputs[..count])
        invariant Contiguous(start, inputs[..count])
        invariant count > 0 ==> Total(inputs[..count - 1]) < need
        decreases |inputs| - count
      {
        assert forall k :: 0 <= k <= count && Covers(start, need, inputs[..k]) ==> false by {
          NotYet(start, need, inputs, count);
        }
        if count >= |inputs| {
          return [];
        }
        var slot := inputs[count];
        if slot.address != address || slot.length == 0 {
          BrokenRun(start, need, inputs, count);
          return [];
        }
        assert inputs[..count + 1][..count] == inputs[..count];
        address := NextAddress(slot);
        length := length + slot.length;
        count := count + 1;
      }
      found := inputs[..count];
      assert count > 0 ==> inputs[..count][..count - 1] == inputs[..count - 1];
    }

    /** Decodes the instruction at the first input. */
    method DecodeFirst(d: Decoder<W>, address: U64, bytes: seq<U8>) returns (ok: bool)
      modifies this
      ensures ok == d.decode(address, bytes, old(world), old(inputs)).Some?
      ensures ok ==> var i := d.decode(address, bytes, old(world), old(inputs)).value;
                     input == Slot(address, i.length, i.delaySlotLength) && inputs == i.later && world == i.world
    {
      var r := d.decode(address, bytes, world, inputs);
      if r.None? {
        return false;
      }
      input := Slot(address, r.value.length, r.value.delaySlotLength);
      inputs, world := r.value.later, r.value.world;
      ok := true;
    }

    /** Decodes slot `count`; answers where it ends. */
    method DecodeNext(d: Decoder<W>, address: U64, bytes: seq<U8>, fall: nat, count: nat) returns (end: Option<nat>)
      modifies this`inputs, this`world
      ensures var s := DecodeSlot(d, address, bytes, Run(fall, count, old(world), old(inputs)));
              && (end.Some? <==> s.Some?)
              && (end.Some? ==> s.value == Run(end.value, count + 1, world, inputs))
    {
      if fall > |bytes| || count >= |inputs| {
        return None;
      }
      var s := d.decode(ToU64(address + fall), bytes[fall..], world, inputs[count + 1..]);
      if s.None? || s.value.delaySlotLength != 0 || s.value.length == 0 || s.value.length > |bytes| - fall {
        return None;
      }
      inputs := inputs[..count] + [Slot(ToU64(address + fall), s.value.length, 0)] + s.value.later;
      world := s.value.world;
      end := Some(fall + s.value.length);
    }

    /** Lifts one instruction with its delay slots. */
    method LiftAt(d: Decoder<W>, address: U64, bytes: seq<U8>) returns (size: Option<nat>)
      modifies this
      ensures size.Some? <==> Lift(d, address, bytes, old(world), old(inputs)).Some?
      ensures size.Some? ==> Lift(d, address, bytes, old(world), old(inputs)) == Some(Lifted(size.value, input, inputs, world))
    {
      var ok := DecodeFirst(d, address, bytes);
      if !ok || input.length == 0 || input.length > |bytes| {
        return None;
      }
      var need := input.delaySlotLength;
      var fall: nat, count: nat, covered: nat := input.length, 0, 0;
      ghost var first := input;
      ghost var goal := SlotsFor(d, address, bytes, need, covered, Run(fall, count, world, inputs));
      while covered < need
        invariant count <= |inputs| && input == first
        invariant SlotsFor(d, address, bytes, need, covered, Run(fall, count, world, inputs)) == goal
        decreases |inputs| - count
      {
        var end := DecodeNext(d, address, bytes, fall, count);
        if end.None? {
          return None;
        }
        covered := covered + (end.value - fall);
        fall, count := end.value, count + 1;
      }
      var later := d.emit([input] + inputs[..count], inputs[count..]);
      if later.None? {
        return None;
      }
      inputs := inputs[..count] + later.value;
      size := Some(fall);
    }
  }

  /** While too few bytes are covered, no shorter run covers them. */
  lemma NotYet(start: U64, need: nat, inputs: seq<Slot>, count: nat)
    requires count <= |inputs| && Total(inputs[..count]) < need
    ensures forall k :: 0 <= k <= count ==> !Covers(start, need, inputs[..k])
  {
    forall k | 0 <= k <= count
      ensures !Covers(start, need, inputs[..k])
    {
      assert inputs[..count][..k] == inputs[..k];
      TotalMonotone(inputs[..count], k);
    }
  }

  /** A gap ends every contiguous run. */
  lemma BrokenRun(start: U64, need: nat, inputs: seq<Slot>, count: nat)
    requires count < |inputs| && Total(inputs[..count]) < need
    requires inputs[count].address != EndOf(start, inputs[..count]) || inputs[count].length == 0
    ensures forall k :: 0 <= k <= |inputs| ==> !Covers(start, need, inputs[..k])
  {
    NotYet(start, need, inputs, count);
    forall k | count < k <= |inputs|
      ensures !Covers(start, need, inputs[..k])
    {
      assert inputs[..k][..count + 1] == inputs[..count + 1];
      assert inputs[..count + 1][..count] == inputs[..count];
      if Contiguous(start, inputs[..k]) {
        ContiguousPrefix(start, inputs[..k], count + 1);
        assert false;
      }
    }
  }
}
