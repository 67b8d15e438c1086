/** The context database with its cache, updated in place, and the proof that over every run the
    cached reads are those of the plain partition map
    (fugue-lifter-runtime/src/context.rs:441-750). */
module ContextDatabases {
  import opened Prelude
  import opened Words
  import opened PartMaps
  import opened PartEdits
  import opened ContextRegions
  import opened ContextCaches

  // ---- the database as a value, without a cache ----

  datatype Db = Db(size: nat, variables: map<string, BitRange>, mapping: Partition, default_: FreeArray)

  ghost predicate Consistent(db: Db)
  {
    && AllSized(db.mapping, db.default_, db.size)
    && forall n :: n in db.variables ==> db.variables[n].word < db.size
  }

  function Context(db: Db, a: U64): seq<Word>
  {
    Lookup(db.mapping, db.default_, a).values
  }

  /** The uncached read of a field. */
  function ReadField(db: Db, r: BitRange, a: U64): Word
  {
    var words := Context(db, a);
    if r.word < |words| then GetField(r, words[r.word]) else 0
  }

  function WritePoint(db: Db, a: U64, mask: Word, e: Edit): Db
  {
    db.(mapping := ChangePoint(db.mapping, db.default_, a, mask, e))
  }

  function WriteRegion(db: Db, a: U64, b: Option<U64>, mask: Word, e: Edit): Db
  {
    db.(mapping := Region(db.mapping, db.default_, a, b, mask, e))
  }

  function WriteDefault(db: Db, r: BitRange, value: Word): Db
  {
    var e := FieldEdit(r, value);
    db.(default_ := FreeArray(EditValues(e, db.default_.values), Mark(db.default_.masks, r.word, e.clear)))
  }

  function Grow(words: seq<Word>, size: nat): (r: seq<Word>)
    ensures |words| <= size ==> |r| == size
  {
    if |words| < size then words + seq(size - |words|, _ => 0) else words
  }

  /** What a caller can do to the database. */
  datatype Command =
    | Get(name: string, at: U64)
    | GetBits(bits: BitRange, at: U64)
    | Set(name: string, at: U64, value: Word)
    | SetBits(bits: BitRange, at: U64, value: Word)
    | SetDefault(name: string, value: Word)
    | SetDefaultBits(bits: BitRange, value: Word)
    | Register(name: string, startBit: nat, endBit: nat)
    | SetPoint(at: U64, num: nat, mask: Word, value: Word)
    | SetRegion(at: U64, end: Option<U64>, num: nat, mask: Word, value: Word)
    | SetVariableRegion(name: string, at: U64, end: Option<U64>, value: Word)
    | SetRegionBits(bits: BitRange, at: U64, end: Option<U64>, value: Word)
    | ClearAll

  /** What a caller gets back: a value, or whether the call did anything. */
  datatype Answer = Value(value: Option<Word>) | Done(ok: bool)

  /** What the source's callers have to respect: words that exist, ranges in order, fields
      within one word. */
  predicate Allowed(db: Db, c: Command)
  {
    match c
    case GetBits(r, _) => r.word < db.size
    case SetBits(r, _, _) => r.word < db.size
    case SetDefaultBits(r, _) => r.word < db.size
    case Register(_, s, e) => s <= e
    case SetPoint(_, num, _, _) => num < db.size
    case SetRegion(a, b, num, _, _) => num < db.size && (b.Some? ==> a <= b.value)
    case SetVariableRegion(_, a, b, _) => b.Some? ==> a <= b.value
    case SetRegionBits(r, a, b, _) => r.word < db.size && (b.Some? ==> a <= b.value)
    case _ => true
  }

  function RegisterVariable(db: Db, name: string, startBit: nat, endBit: nat): (r: (Db, bool))
    requires startBit <= endBit
  {
    if db.mapping != map[] || startBit / 32 != endBit / 32 then (db, false)
    else
      var size := startBit / 32 + 1;
      var grown := if size > db.size
                   then db.(size := size, default_ := FreeArray(Grow(db.default_.values, size), Grow(db.default_.masks, size)))
                   else db;
      (grown.(variables := grown.variables[name := NewRange(startBit, endBit)]), true)
  }

  /** One command on the database without a cache. */
  function Step(db: Db, c: Command): (r: (Db, Answer))
    requires Allowed(db, c)
  {
    match c
    case Get(name, a) =>
      (db, Value(if name in db.variables then Some(ReadField(db, db.variables[name], a)) else None))
    case GetBits(r, a) => (db, Value(Some(ReadField(db, r, a))))
    case Set(name, a, v) =>
      if name !in db.variables then (db, Done(false))
      else
        var e := FieldEdit(db.variables[name], v);
        (WritePoint(db, a, e.clear, e), Done(true))
    case SetBits(r, a, v) =>
      if ReadField(db, r, a) == AndW(v, r.mask) then (db, Done(true))
      else
        var e := FieldEdit(r, v);
        (WritePoint(db, a, e.clear, e), Done(true))
    case SetDefault(name, v) =>
      if name !in db.variables then (db, Done(false)) else (WriteDefault(db, db.variables[name], v), Done(true))
    case SetDefaultBits(r, v) => (WriteDefault(db, r, v), Done(true))
    case Register(name, s, e) =>
      var (db', ok) := RegisterVariable(db, name, s, e);
      (db', Done(ok))
    case SetPoint(a, num, mask, value) => (WritePoint(db, a, mask, Edit(num, mask, value)), Done(true))
    case SetRegion(a, b, num, mask, value) => (WriteRegion(db, a, b, mask, Edit(num, mask, value)), Done(true))
    case SetVariableRegion(name, a, b, v) =>
      if name !in db.variables then (db, Done(false))
      else
        var r := db.variables[name];
        (WriteRegion(db, a, b, r.mask, FieldEdit(r, v)), Done(true))
    case SetRegionBits(r, a, b, v) => (WriteRegion(db, a, b, r.mask, FieldEdit(r, v)), Done(true))
    case ClearAll => (db.(mapping := map[]), Done(true))
  }

  lemma RegionIsStep(db: Db, name: string, a: U64, b: Option<U64>, v: Word)
    requires Allowed(db, SetVariableRegion(name, a, b, v)) && name in db.variables
    ensures Step(db, SetVariableRegion(name, a, b, v)) ==
            (WriteRegion(db, a, b, db.variables[name].mask, FieldEdit(db.variables[name], v)), Done(true))
  {
  }

  lemma StepConsistent(db: Db, c: Command)
    requires Consistent(db) && Allowed(db, c)
    ensures Consistent(Step(db, c).0)
  {
    match c {
      case Set(name, a, v) =>
        if name in db.variables {
          var e := FieldEdit(db.variables[name], v);
          ChangePointSized(db.mapping, db.default_, db.size, a, e.clear, e);
        }
      case SetBits(r, a, v) =>
        var e := FieldEdit(r, v);
        ChangePointSized(db.mapping, db.default_, db.size, a, e.clear, e);
      case SetPoint(a, num, mask, value) =>
        ChangePointSized(db.mapping, db.default_, db.size, a, mask, Edit(num, mask, value));
      case SetRegion(a, b, num, mask, value) =>
        RegionSized(db.mapping, db.default_, db.size, a, b, mask, Edit(num, mask, value));
      case SetVariableRegion(name, a, b, v) =>
        if name in db.variables {
          var r := db.variables[name];
          RegionSized(db.mapping, db.default_, db.size, a, b, r.mask, FieldEdit(r, v));
        }
      case SetRegionBits(r, a, b, v) =>
        RegionSized(db.mapping, db.default_, db.size, a, b, r.mask, FieldEdit(r, v));
      case _ =>
    }
  }

  // ---- the database object ----

  class ContextDatabase {
    var size: nat
    var variables: map<string, BitRange>
    const addressLimit: U64
    const database: PartMap<FreeArray>
    const cache: ContextCache

    /** The database without its cache. */
    ghost function Abs(): Db
      reads this, database
    {
      Db(size, variables, database.mapping, database.default_)
    }

    /** Every occupied cache slot holds the context of its address. */
    ghost predicate Coherent()
      reads this, database, cache, cache.entries, cache.occupied
    {
      && cache.Valid()
      && forall i :: 0 <= i < CACHE_SIZE && cache.IsOccupied(i) ==>
           cache.entries[i].values == Context(Abs(), cache.entries[i].address)
    }

    ghost predicate Valid()
      reads this, database, cache, cache.entries, cache.occupied
    {
      Consistent(Abs()) && Coherent()
    }

    constructor (limit: U64, alignment: nat)
      requires alignment > 0
      ensures Valid() && fresh(database) && fresh(cache) && fresh(cache.entries) && fresh(cache.occupied)
      ensures Abs() == Db(0, map[], map[], FreeArray([], [])) && addressLimit == limit
    {
      addressLimit := limit;
      size := 0;
      variables := map[];
      database := new PartMap(FreeArray([], []));
      cache := new ContextCache(alignment);
    }

    /** A cached read: whether the slot is free, stale, claimed by a colliding address or
        current, and for every address, the value is the uncached one. */
    method GetVariableByBits(r: BitRange, a: U64) returns (value: Word)
      requires Valid() && r.word < size
      modifies cache.entries, cache.occupied
      ensures Valid() && Abs() == old(Abs())
      ensures value == ReadField(Abs(), r, a)
    {
      LookupSized(database.mapping, database.default_, size, a);
      var hit, index := cache.Entry(a);
      if !hit {
        var current := database.GetOrDefault(a);
        cache.Fill(index, current.values);
      }
      value := GetField(r, cache.entries[index].values[r.word]);
    }

    method GetVariable(name: string, a: U64) returns (value: Option<Word>)
      requires Valid()
      modifies cache.entries, cache.occupied
      ensures Valid() && Abs() == old(Abs())
      ensures value == Step(Abs(), Get(name, a)).1.value
    {
      if name !in variables {
        return None;
      }
      var v := GetVariableByBits(variables[name], a);
      value := Some(v);
    }

    /** A change-point write through to the partition map; the cache is emptied. */
    method ChangeFrom(a: U64, mask: Word, e: Edit)
      requires Valid()
      modifies database`mapping, cache.entries, cache.occupied
      ensures Valid() && Abs() == WritePoint(old(Abs()), a, mask, e)
    {
      ChangePointSized(database.mapping, database.default_, size, a, mask, e);
      EditUntilHalt(database, a, Halts(e.word, mask), EditingAndMarking(e, mask), Editing(e));
      cache.Clear();
    }

    method ChangeBetween(a: U64, b: Option<U64>, mask: Word, e: Edit)
      requires Valid() && (b.Some? ==> a <= b.value)
      modifies database`mapping, cache.entries, cache.occupied
      ensures Valid() && Abs() == WriteRegion(old(Abs()), a, b, mask, e)
    {
      RegionSized(database.mapping, database.default_, size, a, b, mask, e);
      EditBetween(database, a, b, EditingAndMarking(e, mask));
      cache.Clear();
    }

    method SetVariable(name: string, a: U64, value: Word) returns (ok: bool)
      requires Valid()
      modifies database`mapping, cache.entries, cache.occupied
      ensures Valid() && (Abs(), Done(ok)) == Step(old(Abs()), Set(name, a, value))
    {
      if name !in variables {
        return false;
      }
      var e := FieldEdit(variables[name], value);
      ChangeFrom(a, e.clear, e);
      ok := true;
    }

    method SetVariableByBits(r: BitRange, a: U64, value: Word)
      requires Valid() && r.word < size
      modifies database`mapping, cache.entries, cache.occupied
      ensures Valid() && Abs() == Step(old(Abs()), SetBits(r, a, value)).0
    {
      var current := GetVariableByBits(r, a);
      if current == AndW(value, r.mask) {
        return;
      }
      var e := FieldEdit(r, value);
      ChangeFrom(a, e.clear, e);
    }

    method SetVariableDefaultByBits(r: BitRange, value: Word)
      requires Valid() && r.word < size
      modifies database, cache.entries, cache.occupied
      ensures Valid() && Abs() == WriteDefault(old(Abs()), r, value)
    {
      var e := FieldEdit(r, value);
      var d := database.default_;
      database.default_ := FreeArray(EditValues(e, d.values), Mark(d.masks, r.word, e.clear));
      cache.Clear();
    }

    method SetVariableDefault(name: string, value: Word) returns (ok: bool)
      requires Valid()
      modifies database, cache.entries, cache.occupied
      ensures Valid() && (Abs(), Done(ok)) == Step(old(Abs()), SetDefault(name, value))
    {
      if name !in variables {
        return false;
      }
      SetVariableDefaultByBits(variables[name], value);
      ok := true;
    }

    method Register(name: string, startBit: nat, endBit: nat) returns (ok: bool)
      requires Valid() && startBit <= endBit
      modifies this, database, cache.entries, cache.occupied
      ensures Valid() && (Abs(), ok) == RegisterVariable(old(Abs()), name, startBit, endBit)
    {
      if database.mapping != map[] {
        return false;
      }
      var wanted := startBit / 32 + 1;
      if endBit / 32 + 1 != wanted {
        return false;
      }
      if wanted > size {
        size := wanted;
        var d := database.default_;
        database.default_ := FreeArray(Grow(d.values, wanted), Grow(d.masks, wanted));
        cache.Clear();
      }
      variables := variables[name := NewRange(startBit, endBit)];
      ok := true;
    }

    method SetVariableRegion(name: string, a: U64, b: Option<U64>, value: Word) returns (ok: bool)
      requires Valid() && (b.Some? ==> a <= b.value)
      modifies database`mapping, cache.entries, cache.occupied
      ensures Valid() && (Abs(), Done(ok)) == Step(old(Abs()), Command.SetVariableRegion(name, a, b, value))
    {
      if name !in variables {
        return false;
      }
      var r := variables[name];
      ghost var was := Abs();
      ChangeBetween(a, b, r.mask, FieldEdit(r, value));
      RegionIsStep(was, name, a, b, value);
      ok := true;
    }

    method Clear()
      requires Valid()
      modifies database`mapping, cache.entries, cache.occupied
      ensures Valid() && Abs() == Step(old(Abs()), ClearAll).0
    {
      database.Clear();
      cache.Clear();
    }

    /** The context at an address and the interval, ends included, around it: every address of the
        interval reads that context, and the interval holds the address unless the address lies
        past the limit with no key after it. */
    method GetContextBounds(a: U64) returns (words: seq<Word>, lower: U64, upper: U64)
      requires Valid()
      ensures words == Context(Abs(), a) && lower <= a
      ensures forall x: U64 :: lower <= x <= upper ==> Context(Abs(), x) == words
      ensures a <= upper <==> a <= addressLimit || exists k :: k in Abs().mapping && a < k
      ensures lower == 0 || lower in Abs().mapping
      ensures upper == addressLimit || upper + 1 in Abs().mapping
    {
      var b := database.Bounds(a);
      words := b.value.values;
      lower := if b.lower.Some? then b.lower.value else 0;
      upper := if b.upper.Some? then b.upper.value - 1 else addressLimit;
      assert forall x: U64 :: Context(Abs(), x) == database.At(x).values;
    }

    /** Performs one command. */
    method Perform(c: Command) returns (answer: Answer)
      requires Valid() && Allowed(Abs(), c)
      modifies this, database, cache.entries, cache.occupied
      ensures Valid() && (Abs(), answer) == Step(old(Abs()), c)
    {
      match c
      case Get(name, a) =>
        var v := GetVariable(name, a);
        answer := Value(v);
      case GetBits(r, a) =>
        var v := GetVariableByBits(r, a);
        answer := Value(Some(v));
      case Set(name, a, v) =>
        var ok := SetVariable(name, a, v);
        answer := Done(ok);
      case SetBits(r, a, v) =>
        SetVariableByBits(r, a, v);
        answer := Done(true);
      case SetDefault(name, v) =>
        var ok := SetVariableDefault(name, v);
        answer := Done(ok);
      case SetDefaultBits(r, v) =>
        SetVariableDefaultByBits(r, v);
        answer := Done(true);
      case Register(name, s, e) =>
        var ok := Register(name, s, e);
        answer := Done(ok);
      case SetPoint(a, num, mask, value) =>
        ChangeFrom(a, mask, Edit(num, mask, value));
        answer := Done(true);
      case SetRegion(a, b, num, mask, value) =>
        ChangeBetween(a, b, mask, Edit(num, mask, value));
        answer := Done(true);
      case SetVariableRegion(name, a, b, v) =>
        var ok := SetVariableRegion(name, a, b, v);
        answer := Done(ok);
      case SetRegionBits(r, a, b, v) =>
        ChangeBetween(a, b, r.mask, FieldEdit(r, v));
        answer := Done(true);
      case ClearAll =>
        Clear();
        answer := Done(true);
    }
  }

  // ---- runs ----

  ghost predicate RunAllowed(db: Db, cs: seq<Command>)
    decreases |cs|
  {
    cs == [] || (Allowed(db, cs[0]) && RunAllowed(Step(db, cs[0]).0, cs[1..]))
  }

  /** The answers and the final state of a run without a cache. */
  function Run(db: Db, cs: seq<Command>): (r: (Db, seq<Answer>))
    requires RunAllowed(db, cs)
    decreases |cs|
  {
    if cs == [] then (db, [])
    else
      var (db1, answer) := Step(db, cs[0]);
      var (db2, answers) := Run(db1, cs[1..]);
      (db2, [answer] + answers)
  }

  /** Over every run of reads, writes, registrations and clears, the cached database answers
      exactly as the uncached one and ends in the same state. */
  method PerformAll(db: ContextDatabase, cs: seq<Command>) returns (answers: seq<Answer>)
    requires db.Valid() && RunAllowed(db.Abs(), cs)
    modifies db, db.database, db.cache.entries, db.cache.occupied
    ensures db.Valid() && (db.Abs(), answers) == Run(old(db.Abs()), cs)
    decreases |cs|
  {
    if cs == [] {
      return [];
    }
    var first := db.Perform(cs[0]);
    var rest := PerformAll(db, cs[1..]);
    answers := [first] + rest;
  }
}
