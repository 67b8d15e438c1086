/** Which bits a registered context variable has, and what reads answer after writes by name
    (fugue-lifter-runtime/src/context.rs:160-216, 551-640, 699-750). */
module ContextFields {
  import opened Prelude
  import opened Bits
  import opened Words
  import opened PartMaps
  import opened PartEdits
  import opened ContextRegions
  import opened ContextDatabases
  import FlowMasks

  // ---- the bits of a field ----

  /** Bit `i` of a context word, counted from the least significant, belongs to the variable of bits
      `s..=e`, counted from the most significant. */
  predicate FieldBit(s: nat, e: nat, i: nat)
  {
    i < 32 && s % 32 <= 31 - i <= e % 32
  }

  /** A write through a registered range clears exactly the bits of the variable. */
  lemma RegisteredBits(s: nat, e: nat, v: Word, i: nat)
    requires s <= e && s / 32 == e / 32
    ensures BitAt(FieldEdit(NewRange(s, e), v).clear, i) <==> FieldBit(s, e, i)
  {
    FieldMasks(NewRange(s, e), v, i);
  }

  /** Those are the bits by which the generator decides what flows. */
  lemma RegisteredIsVariable(s: nat, e: nat, v: Word, flow: bool)
    requires s <= e && s / 32 == e / 32
    ensures FieldEdit(NewRange(s, e), v).clear == FlowMasks.VariableMask(FlowMasks.ContextVariable(s, e, flow))
  {
    var x := FlowMasks.ContextVariable(s, e, flow);
    forall i: nat
      ensures BitAt(FieldEdit(NewRange(s, e), v).clear, i) <==> BitAt(FlowMasks.VariableMask(x), i)
    {
      RegisteredBits(s, e, v, i);
      FlowMasks.VariableMaskBits(x, i);
    }
    Extensional(FieldEdit(NewRange(s, e), v).clear, FlowMasks.VariableMask(x));
  }

  /** A read gives the bits of the variable, its last bit lowest. */
  lemma RegisteredReads(s: nat, e: nat, w: Word, j: nat)
    requires s <= e && s / 32 == e / 32
    ensures BitAt(GetField(NewRange(s, e), w), j) <==> j <= e - s && BitAt(w, 31 - e % 32 + j)
  {
    var r := NewRange(s, e);
    BitAtAnd(Shr(w, r.shift), r.mask, j);
    BitAtShr(w, r.shift, j);
    RangeMask(r, j);
  }

  /** A variable of n bits holds the numbers below 2^n. */
  lemma RegisteredHolds(s: nat, e: nat, v: Word)
    requires s <= e && s / 32 == e / 32
    ensures AndW(v, NewRange(s, e).mask) == v % Pow2(e - s + 1)
  {
    forall j: nat
      ensures BitAt(AndW(v, NewRange(s, e).mask), j) <==> BitAt(v % Pow2(e - s + 1), j)
    {
      BitAtAnd(v, NewRange(s, e).mask, j);
      RangeMask(NewRange(s, e), j);
      BitAtMod(v, e - s + 1, j);
    }
    Extensional(AndW(v, NewRange(s, e).mask), v % Pow2(e - s + 1));
  }

  // ---- what an edit leaves ----

  /** Fields of different words, or of different bits of one. */
  ghost predicate Apart(r: BitRange, q: BitRange)
  {
    r.word != q.word || r.shift + Width(r) <= q.shift || q.shift + Width(q) <= r.shift
  }

  /** Variables without a common bit. */
  predicate Disjoint(s: nat, e: nat, s': nat, e': nat)
  {
    e < s' || e' < s
  }

  lemma DisjointApart(s: nat, e: nat, s': nat, e': nat)
    requires s <= e && s / 32 == e / 32 && s' <= e' && s' / 32 == e' / 32 && Disjoint(s, e, s', e')
    ensures Apart(NewRange(s, e), NewRange(s', e'))
  {
  }

  /** The value of a field in the words of a context. */
  function FieldOf(r: BitRange, words: seq<Word>): Word
  {
    if r.word < |words| then GetField(r, words[r.word]) else 0
  }

  lemma EditedField(r: BitRange, v: Word, words: seq<Word>)
    requires r.word < |words|
    ensures FieldOf(r, EditValues(FieldEdit(r, v), words)) == AndW(v, r.mask)
  {
    FieldReadsBack(r, words[r.word], v);
  }

  lemma EditedOther(r: BitRange, v: Word, words: seq<Word>, q: BitRange)
    requires Apart(r, q)
    ensures FieldOf(q, EditValues(FieldEdit(r, v), words)) == FieldOf(q, words)
  {
    if r.word == q.word && r.word < |words| {
      EditedWord(r, v, words[r.word], q);
    }
  }

  lemma EditedWord(r: BitRange, v: Word, w: Word, q: BitRange)
    requires Apart(r, q) && r.word == q.word
    ensures GetField(q, EditWord(FieldEdit(r, v), w)) == GetField(q, w)
  {
    var e := FieldEdit(r, v);
    forall i: nat
      ensures BitAt(GetField(q, EditWord(e, w)), i) <==> BitAt(GetField(q, w), i)
    {
      BitAtAnd(Shr(w, q.shift), q.mask, i);
      BitAtAnd(Shr(EditWord(e, w), q.shift), q.mask, i);
      BitAtShr(w, q.shift, i);
      BitAtShr(EditWord(e, w), q.shift, i);
      RangeMask(q, i);
      BitAtOverwrite(w, e.clear, e.bits, i + q.shift);
      FieldMasks(r, v, i + q.shift);
      FieldInside(r, v);
    }
    Extensional(GetField(q, EditWord(e, w)), GetField(q, w));
  }

  // ---- what is read after a write by name ----

  ghost predicate Known(db: Db, name: string)
  {
    Consistent(db) && name in db.variables
  }

  /** What a read by name answers. */
  ghost function Read(db: Db, name: string, x: U64): Word
    requires Known(db, name)
  {
    ReadField(db, db.variables[name], x)
  }

  lemma ReadAnswers(db: Db, name: string, x: U64)
    requires Known(db, name)
    ensures Step(db, Get(name, x)) == (db, Value(Some(Read(db, name, x))))
  {
  }

  /** Where a write by name at `a` stops. */
  ghost function StopOf(db: Db, name: string, a: U64): Option<U64>
    requires Known(db, name)
  {
    var e := FieldEdit(db.variables[name], 0);
    ChangeStop(db.mapping, db.default_, a, e.clear, e)
  }

  lemma StopAlike(m: Partition, d: FreeArray, a: U64, r: BitRange, v: Word)
    ensures ChangeStop(m, d, a, FieldEdit(r, v).clear, FieldEdit(r, v)) ==
            ChangeStop(m, d, a, FieldEdit(r, 0).clear, FieldEdit(r, 0))
  {
  }

  /** A write by name is read up to its stop; every other address, and every other variable without a
      common bit, reads as before. */
  lemma SetReads(db: Db, name: string, a: U64, v: Word, x: U64, other: string)
    requires Known(db, name) && Known(db, other)
    ensures var r := Step(db, Set(name, a, v)).0;
            && Known(r, name) && Known(r, other)
            && Read(r, name, x) == (if InRange(a, StopOf(db, name, a), x) then AndW(v, db.variables[name].mask)
                                    else Read(db, name, x))
            && (Apart(db.variables[name], db.variables[other]) ==> Read(r, other, x) == Read(db, other, x))
  {
    var f := db.variables[name];
    var e := FieldEdit(f, v);
    StepConsistent(db, Set(name, a, v));
    StopAlike(db.mapping, db.default_, a, f, v);
    ChangePointExact(db.mapping, db.default_, a, e.clear, e, x);
    LookupSized(db.mapping, db.default_, db.size, x);
    EditedField(f, v, Context(db, x));
    if Apart(f, db.variables[other]) {
      EditedOther(f, v, Context(db, x), db.variables[other]);
    }
  }

  /** The same for a region write, which is read on exactly the region. */
  lemma RegionReads(db: Db, name: string, a: U64, b: Option<U64>, v: Word, x: U64, other: string)
    requires Known(db, name) && Known(db, other) && (b.Some? ==> a <= b.value)
    ensures var r := Step(db, SetVariableRegion(name, a, b, v)).0;
            && Known(r, name) && Known(r, other)
            && Read(r, name, x) == (if InRange(a, b, x) then AndW(v, db.variables[name].mask) else Read(db, name, x))
            && (Apart(db.variables[name], db.variables[other]) ==> Read(r, other, x) == Read(db, other, x))
  {
    var f := db.variables[name];
    StepConsistent(db, SetVariableRegion(name, a, b, v));
    RegionIsStep(db, name, a, b, v);
    RegionExact(db.mapping, db.default_, a, b, f.mask, FieldEdit(f, v), x);
    LookupSized(db.mapping, db.default_, db.size, x);
    EditedField(f, v, Context(db, x));
    if Apart(f, db.variables[other]) {
      EditedOther(f, v, Context(db, x), db.variables[other]);
    }
  }

  /** A default that was set is read wherever there is no key at or below the address. */
  lemma DefaultReads(db: Db, name: string, v: Word, x: U64, other: string)
    requires Known(db, name) && Known(db, other)
    ensures var r := Step(db, SetDefault(name, v)).0;
            && Known(r, name) && Known(r, other)
            && Read(r, name, x) == (if exists k :: k in db.mapping && k <= x then Read(db, name, x)
                                    else AndW(v, db.variables[name].mask))
            && (Apart(db.variables[name], db.variables[other]) ==> Read(r, other, x) == Read(db, other, x))
  {
    var f := db.variables[name];
    StepConsistent(db, SetDefault(name, v));
    EditedField(f, v, db.default_.values);
    if Apart(f, db.variables[other]) {
      EditedOther(f, v, db.default_.values, db.variables[other]);
    }
    var k := Floor(db.mapping, x);
  }

  /** A default that was set is recorded: the default's mask gains exactly the bits of the variable. */
  lemma DefaultRecords(db: Db, r: BitRange, v: Word, w: nat, i: nat)
    requires Consistent(db) && r.word < db.size && w < db.size
    ensures var d := Step(db, SetDefaultBits(r, v)).0.default_;
            && |d.masks| == db.size
            && (BitAt(d.masks[w], i) <==>
                BitAt(db.default_.masks[w], i) || (w == r.word && r.shift <= i < r.shift + Width(r)))
  {
    FieldMasks(r, v, i);
    BitAtOr(db.default_.masks[w], FieldEdit(r, v).clear, i);
  }

  /** A registration leaves the values of all other variables. */
  lemma RegisterKeeps(db: Db, name: string, s: nat, e: nat, x: U64, other: string)
    requires Known(db, other) && other != name && s <= e
    ensures var r := Step(db, Register(name, s, e)).0;
            Known(r, other) && r.variables[other] == db.variables[other] && Read(r, other, x) == Read(db, other, x)
  {
    StepConsistent(db, Register(name, s, e));
    if db.mapping == map[] {
      assert Floor(db.mapping, x).None?;
    }
  }

  /** It succeeds exactly while nothing is mapped, for bits of one word; the variable then has its
      bits. */
  lemma Registers(db: Db, name: string, s: nat, e: nat)
    requires Consistent(db) && s <= e
    ensures var (r, ok) := Step(db, Register(name, s, e));
            && (ok == Done(true) <==> db.mapping == map[] && s / 32 == e / 32)
            && (ok != Done(true) ==> ok == Done(false) && r == db)
            && (ok == Done(true) ==> Known(r, name) && r.variables[name] == NewRange(s, e) && r.mapping == map[])
  {
    StepConsistent(db, Register(name, s, e));
  }

  // ---- runs ----

  /** Registering a variable, setting it and reading it answers what was set: as a default at every
      address, by a change point at every address from it on. */
  lemma RegisterSetGet(db: Db, name: string, s: nat, e: nat, v: Word, a: U64, x: U64)
    requires Consistent(db) && db.mapping == map[] && s <= e && s / 32 == e / 32 && v < Pow2(e - s + 1)
    ensures RunAllowed(db, [Register(name, s, e), SetDefault(name, v), Get(name, x)])
    ensures Run(db, [Register(name, s, e), SetDefault(name, v), Get(name, x)]).1 ==
            [Done(true), Done(true), Value(Some(v))]
    ensures a <= x ==>
              && RunAllowed(db, [Register(name, s, e), Set(name, a, v), Get(name, x)])
              && Run(db, [Register(name, s, e), Set(name, a, v), Get(name, x)]).1 == [Done(true), Done(true), Value(Some(v))]
  {
    Registers(db, name, s, e);
    RegisteredHolds(s, e, v);
    Small(v, Pow2(e - s + 1));
    var r := Step(db, Register(name, s, e)).0;
    DefaultReads(r, name, v, x, name);
    RunOfThree(db, Register(name, s, e), SetDefault(name, v), Get(name, x));
    if a <= x {
      SetReads(r, name, a, v, x, name);
      NoStop(r, name, a);
      RunOfThree(db, Register(name, s, e), Set(name, a, v), Get(name, x));
    }
  }

  lemma Small(v: nat, n: nat)
    requires v < n
    ensures v % n == v
  {
    ModUnique(v, n, 0, v);
  }

  lemma NoStop(db: Db, name: string, a: U64)
    requires Known(db, name) && db.mapping == map[]
    ensures StopOf(db, name, a) == None
  {
    var e := FieldEdit(db.variables[name], 0);
    ChangeStopIsFirst(db.mapping, db.default_, a, e.clear, e);
  }

  lemma RunFrom(db: Db, c: Command, cs: seq<Command>)
    requires Allowed(db, c) && RunAllowed(Step(db, c).0, cs)
    ensures RunAllowed(db, [c] + cs)
    ensures var r := Run(Step(db, c).0, cs);
            Run(db, [c] + cs) == (r.0, [Step(db, c).1] + r.1)
  {
    assert ([c] + cs)[1..] == cs;
  }

  lemma RunOfThree(db: Db, a: Command, b: Command, c: Command)
    requires Allowed(db, a) && Allowed(Step(db, a).0, b) && Allowed(Step(Step(db, a).0, b).0, c)
    ensures RunAllowed(db, [a, b, c])
    ensures Run(db, [a, b, c]).1 == [Step(db, a).1, Step(Step(db, a).0, b).1, Step(Step(Step(db, a).0, b).0, c).1]
  {
    RunFrom(Step(Step(db, a).0, b).0, c, []);
    RunFrom(Step(db, a).0, b, [c] + []);
    RunFrom(db, a, [b] + ([c] + []));
    assert [a] + ([b] + ([c] + [])) == [a, b, c];
  }

  /** Such a run: bits 4 to 7 hold 5. */
  lemma ModeHoldsFive(db: Db, x: U64)
    requires Consistent(db) && db.mapping == map[]
    ensures RunAllowed(db, [Register("mode", 4, 7), SetDefault("mode", 5), Get("mode", x)])
    ensures Run(db, [Register("mode", 4, 7), SetDefault("mode", 5), Get("mode", x)]).1 ==
            [Done(true), Done(true), Value(Some(5))]
  {
    RegisterSetGet(db, "mode", 4, 7, 5, 0, x);
  }

  /** A variable set at `a` keeps its value there and up to the next stop when it is set again at an
      address below: the earlier change point stops the later one. */
  lemma SetIsKept(db: Db, name: string, a: U64, v: Word, c: U64, w: Word)
    requires Known(db, name) && c < a
    ensures var r := Step(db, Set(name, a, v)).0;
            && Known(r, name) && Known(Step(r, Set(name, c, w)).0, name)
            && Read(Step(r, Set(name, c, w)).0, name, a) == AndW(v, db.variables[name].mask)
  {
    var f := db.variables[name];
    var e := FieldEdit(f, v);
    var r := Step(db, Set(name, a, v)).0;
    SetReads(db, name, a, v, a, name);
    StartsThere(db, name, a);
    SetReads(r, name, c, w, a, name);
    RecordHalts(db, name, a, v);
    var g := FieldEdit(f, 0);
    ChangeStopIsFirst(r.mapping, r.default_, c, g.clear, g);
  }

  lemma StartsThere(db: Db, name: string, a: U64)
    requires Known(db, name)
    ensures InRange(a, StopOf(db, name, a), a)
  {
    var e := FieldEdit(db.variables[name], 0);
    ChangeStopIsFirst(db.mapping, db.default_, a, e.clear, e);
  }

  lemma RecordHalts(db: Db, name: string, a: U64, v: Word)
    requires Known(db, name)
    ensures var r, f := Step(db, Set(name, a, v)).0, db.variables[name];
            a in r.mapping && Halts(f.word, FieldEdit(f, 0).clear)(r.mapping[a])
  {
    var f := db.variables[name];
    var e := FieldEdit(f, v);
    var r := Step(db, Set(name, a, v)).0;
    LookupSized(db.mapping, db.default_, db.size, a);
    ChangePointRecords(db.mapping, db.default_, a, e.clear, e, a);
    var old_ := Lookup(db.mapping, db.default_, a).masks[f.word];
    MarkMeets(old_, e.clear, f, v);
  }

  lemma MarkMeets(old_: Word, clear: Word, f: BitRange, v: Word)
    requires clear == FieldEdit(f, v).clear
    ensures AndW(OrW(old_, clear), clear) != 0
  {
    FieldMasks(f, v, f.shift);
    BitAtOr(old_, clear, f.shift);
    BitAtAnd(OrW(old_, clear), clear, f.shift);
    ZeroBits(f.shift);
  }

  /** A write of a range that the caller gives is read back, whether or not it was skipped as having
      no effect. */
  lemma SetBitsReads(db: Db, r: BitRange, a: U64, v: Word)
    requires Consistent(db) && r.word < db.size
    ensures var d := Step(db, SetBits(r, a, v)).0;
            Consistent(d) && d.size == db.size && Step(d, GetBits(r, a)).1 == Value(Some(AndW(v, r.mask)))
  {
    var e := FieldEdit(r, v);
    StepConsistent(db, SetBits(r, a, v));
    ChangePointExact(db.mapping, db.default_, a, e.clear, e, a);
    ChangeStopIsFirst(db.mapping, db.default_, a, e.clear, e);
    LookupSized(db.mapping, db.default_, db.size, a);
    EditedField(r, v, Context(db, a));
  }

  /** Bit `i` of a word after a raw write of `value` under `mask`. */
  predicate RawBit(was: Word, mask: Word, value: Word, now: Word, i: nat)
  {
    BitAt(now, i) <==> BitAt(value, i) || (BitAt(was, i) && !BitAt(mask, i))
  }

  /** Only word `num` is written. */
  ghost predicate RawWords(was: seq<Word>, now: seq<Word>, num: nat, mask: Word, value: Word)
  {
    && |was| == |now| && num < |was|
    && (forall w :: 0 <= w < |was| && w != num ==> now[w] == was[w])
    && (forall i: nat :: RawBit(was[num], mask, value, now[num], i))
  }

  lemma RawEdited(was: seq<Word>, num: nat, mask: Word, value: Word)
    requires num < |was|
    ensures RawWords(was, EditValues(Edit(num, mask, value), was), num, mask, value)
  {
    forall i: nat
      ensures RawBit(was[num], mask, value, EditWord(Edit(num, mask, value), was[num]), i)
    {
      BitAtOverwrite(was[num], mask, value, i);
    }
  }

  /** A raw write at an address is read there and at no address below. */
  lemma RawPointReads(db: Db, a: U64, num: nat, mask: Word, value: Word, x: U64)
    requires Consistent(db) && num < db.size
    ensures var r := Step(db, SetPoint(a, num, mask, value)).0;
            && (x == a ==> RawWords(Context(db, x), Context(r, x), num, mask, value))
            && (x < a ==> Context(r, x) == Context(db, x))
  {
    var e := Edit(num, mask, value);
    ChangePointExact(db.mapping, db.default_, a, mask, e, x);
    ChangeStopIsFirst(db.mapping, db.default_, a, mask, e);
    LookupSized(db.mapping, db.default_, db.size, x);
    RawEdited(Context(db, x), num, mask, value);
  }

  /** A raw write of a region is read on exactly the region. */
  lemma RawRegionReads(db: Db, a: U64, b: Option<U64>, num: nat, mask: Word, value: Word, x: U64)
    requires Consistent(db) && num < db.size && (b.Some? ==> a <= b.value)
    ensures var r := Step(db, SetRegion(a, b, num, mask, value)).0;
            if InRange(a, b, x) then RawWords(Context(db, x), Context(r, x), num, mask, value)
            else Context(r, x) == Context(db, x)
  {
    RegionExact(db.mapping, db.default_, a, b, mask, Edit(num, mask, value), x);
    LookupSized(db.mapping, db.default_, db.size, x);
    RawEdited(Context(db, x), num, mask, value);
  }

  /** A region write of a range that the caller gives is read on exactly the region. */
  lemma RangeReads(db: Db, r: BitRange, a: U64, b: Option<U64>, v: Word, x: U64)
    requires Consistent(db) && r.word < db.size && (b.Some? ==> a <= b.value)
    ensures ReadField(Step(db, SetRegionBits(r, a, b, v)).0, r, x) ==
            if InRange(a, b, x) then AndW(v, r.mask) else ReadField(db, r, x)
  {
    var e := FieldEdit(r, v);
    RangeIsStep(db, r, a, b, v, e);
    RegionExact(db.mapping, db.default_, a, b, r.mask, e, x);
    LookupSized(db.mapping, db.default_, db.size, x);
    EditedField(r, v, Context(db, x));
  }

  lemma RangeIsStep(db: Db, r: BitRange, a: U64, b: Option<U64>, v: Word, e: Edit)
    requires r.word < db.size && (b.Some? ==> a <= b.value) && e == FieldEdit(r, v)
    ensures Step(db, SetRegionBits(r, a, b, v)).0 == WriteRegion(db, a, b, r.mask, e)
  {
  }

  /** After a clear every address reads the default. */
  lemma ClearedReads(db: Db, x: U64)
    ensures Context(Step(db, ClearAll).0, x) == db.default_.values
  {
    assert Floor(Step(db, ClearAll).0.mapping, x).None?;
  }
}
