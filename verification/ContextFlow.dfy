/** Propagation of context along a flow of control
    (fugue-lifter-runtime/src/pcode.rs:186-197, fugue-lifter-runtime/src/context.rs:646-661). */
module ContextFlow {
  import opened Prelude
  import opened Bits
  import opened Words
  import opened PartMaps
  import opened ContextRegions
  import opened ContextCaches
  import opened ContextDatabases

  const MAX_CTXT_CHUNKS: nat := 2

  /** The context at an address and the bits set explicitly there, in arrays of fixed size. */
  datatype ChangePointView = ChangePointView(values: seq<Word>, changeMask: seq<Word>)

  function Padded(words: seq<Word>): (r: seq<Word>)
    requires |words| <= MAX_CTXT_CHUNKS
    ensures |r| == MAX_CTXT_CHUNKS && words <= r
  {
    words + seq(MAX_CTXT_CHUNKS - |words|, _ => 0)
  }

  ghost predicate Fits(db: Db)
  {
    Consistent(db) && db.size <= MAX_CTXT_CHUNKS
  }

  /** Bits count as set explicitly only where there is a key of its own. */
  function View(db: Db, a: U64): (v: ChangePointView)
    requires Fits(db)
    ensures |v.values| == MAX_CTXT_CHUNKS && |v.changeMask| == MAX_CTXT_CHUNKS
  {
    LookupSized(db.mapping, db.default_, db.size, a);
    match Floor(db.mapping, a)
    case Some(k) =>
      var change := db.mapping[k];
      ChangePointView(Padded(change.values), Padded(if k == a then change.masks else []))
    case None => ChangePointView(Padded(db.default_.values), Padded([]))
  }

  lemma ViewIsContext(db: Db, a: U64)
    requires Fits(db)
    ensures |Context(db, a)| == db.size && Context(db, a) <= View(db, a).values
    ensures View(db, a).changeMask == if a in db.mapping then Padded(db.mapping[a].masks) else Padded([])
  {
    LookupSized(db.mapping, db.default_, db.size, a);
    var f := Floor(db.mapping, a);
    if a in db.mapping {
      assert f.Some? && f.value == a;
    }
  }

  // ---- one word ----

  function FlowMask(flow: Word, target: ChangePointView, num: nat): Word
    requires num < |target.changeMask|
  {
    AndW(flow, Not(target.changeMask[num]))
  }

  /** The write for one word, if the target does not agree with the source yet. */
  function FlowWord(db: Db, flow: Word, from: ChangePointView, to: ChangePointView, target: U64, num: nat): Db
    requires num < |from.values| && num < |to.values| && num < |to.changeMask|
  {
    var mask := FlowMask(flow, to, num);
    var value := AndW(from.values[num], mask);
    if AndW(to.values[num], mask) != value then WritePoint(db, target, mask, Edit(num, mask, value)) else db
  }

  ghost predicate Readable(flow: seq<Word>, from: ChangePointView, to: ChangePointView)
  {
    |flow| <= |from.values| && |flow| <= |to.values| && |flow| <= |to.changeMask|
  }

  /** The first `n` words, from views taken before any write. */
  ghost function FlowWords(db: Db, flow: seq<Word>, from: ChangePointView, to: ChangePointView, target: U64, n: nat): Db
    requires Readable(flow, from, to) && n <= |flow|
  {
    if n == 0 then db
    else FlowWord(FlowWords(db, flow, from, to, target, n - 1), flow[n - 1], from, to, target, n - 1)
  }

  ghost function Flow(db: Db, flow: seq<Word>, source: U64, target: U64): Db
    requires Fits(db) && |flow| <= db.size
  {
    FlowWords(db, flow, View(db, source), View(db, target), target, |flow|)
  }

  /** The loop of the lifting context. */
  method SetContextFromFlow(db: ContextDatabase, flow: seq<Word>, source: U64, target: U64)
    requires db.Valid() && db.size <= MAX_CTXT_CHUNKS && |flow| <= db.size
    modifies db.database`mapping, db.cache.entries, db.cache.occupied
    ensures db.Valid() && db.Abs() == Flow(old(db.Abs()), flow, source, target)
  {
    var from := ChangePointAt(db, source);
    var to := ChangePointAt(db, target);
    for num := 0 to |flow|
      invariant db.Valid() && db.size == old(db.size)
      invariant db.Abs() == FlowWords(old(db.Abs()), flow, from, to, target, num)
    {
      var mask := AndW(flow[num], Not(to.changeMask[num]));
      var value := AndW(from.values[num], mask);
      if AndW(to.values[num], mask) != value {
        db.ChangeFrom(target, mask, Edit(num, mask, value));
      }
    }
  }

  method ChangePointAt(db: ContextDatabase, a: U64) returns (v: ChangePointView)
    requires db.Valid() && db.size <= MAX_CTXT_CHUNKS
    ensures v == View(db.Abs(), a)
  {
    var k := Floor(db.database.mapping, a);
    LookupSized(db.database.mapping, db.database.default_, db.size, a);
    if k.Some? {
      var change := db.database.mapping[k.value];
      v := ChangePointView(Padded(change.values), Padded(if k.value == a then change.masks else []));
    } else {
      v := ChangePointView(Padded(db.database.default_.values), Padded([]));
    }
  }

  // ---- what flows where ----

  /** What the flow of one word may do to that word at some address: leave it, or put the
      source's flowing bits in. */
  function Flowed(word: Word, flow: Word, from: ChangePointView, to: ChangePointView, num: nat): Word
    requires num < |from.values| && num < |to.changeMask|
  {
    var mask := FlowMask(flow, to, num);
    Overwrite(word, mask, AndW(from.values[num], mask))
  }

  lemma BitAtFlowed(word: Word, flow: Word, from: ChangePointView, to: ChangePointView, num: nat, i: nat)
    requires num < |from.values| && num < |to.changeMask|
    ensures BitAt(Flowed(word, flow, from, to, num), i) <==>
            if BitAt(flow, i) && !BitAt(to.changeMask[num], i) then BitAt(from.values[num], i) else BitAt(word, i)
  {
    var mask := FlowMask(flow, to, num);
    BitAtOverwrite(word, mask, AndW(from.values[num], mask), i);
    BitAtAnd(from.values[num], mask, i);
    BitAtAnd(flow, Not(to.changeMask[num]), i);
    BitAtNot(to.changeMask[num], i);
    if BitAt(flow, i) {
      WordSize();
      BitAtBound(flow, 32, i);
    }
  }

  /** A word that already agrees with the source under the mask does not change when the flow is
      put in. */
  lemma FlowedAgreeing(word: Word, flow: Word, from: ChangePointView, to: ChangePointView, num: nat)
    requires num < |from.values| && num < |to.changeMask|
    requires AndW(word, FlowMask(flow, to, num)) == AndW(from.values[num], FlowMask(flow, to, num))
    ensures Flowed(word, flow, from, to, num) == word
  {
    var mask := FlowMask(flow, to, num);
    forall i: nat
      ensures BitAt(Flowed(word, flow, from, to, num), i) <==> BitAt(word, i)
    {
      BitAtOverwrite(word, mask, AndW(from.values[num], mask), i);
      BitAtAnd(from.values[num], mask, i);
      BitAtAnd(word, mask, i);
    }
    Extensional(Flowed(word, flow, from, to, num), word);
  }

  /** What one word's write does to the context of an address `x`. */
  ghost predicate TakesWord(was: seq<Word>, now: seq<Word>, flow: Word, from: ChangePointView, to: ChangePointView,
                            num: nat, target: U64, x: U64)
  {
    && num < |from.values| && num < |to.changeMask| && num < |was|
    && (now == was || (target <= x && now == was[num := Flowed(was[num], flow, from, to, num)]))
    && (x == target ==> now == was[num := Flowed(was[num], flow, from, to, num)])
  }

  lemma FlowWordAt(db: Db, flow: Word, from: ChangePointView, to: ChangePointView, target: U64, num: nat, x: U64)
    requires num < |from.values| && num < |to.values| && num < |to.changeMask|
    requires Fits(db) && num < |Context(db, target)| && Context(db, target)[num] == to.values[num]
    ensures var r := FlowWord(db, flow, from, to, target, num);
            && Fits(r) && r.size == db.size
            && TakesWord(Context(db, x), Context(r, x), flow, from, to, num, target, x)
  {
    var mask := FlowMask(flow, to, num);
    var e := Edit(num, mask, AndW(from.values[num], mask));
    LookupSized(db.mapping, db.default_, db.size, x);
    LookupSized(db.mapping, db.default_, db.size, target);
    if AndW(to.values[num], mask) != e.bits {
      WriteTakes(db, target, mask, e, x);
    } else {
      FlowedAgreeing(to.values[num], flow, from, to, num);
    }
  }

  /** A change-point write edits its word at its own address, and at others above it or not at all. */
  lemma WriteTakes(db: Db, target: U64, mask: Word, e: Edit, x: U64)
    requires Fits(db) && e.word < db.size
    ensures var r := WritePoint(db, target, mask, e);
            && Fits(r) && r.size == db.size
            && |Context(db, x)| == |Context(r, x)| == db.size
            && (x == target ==> Context(r, x) == EditValues(e, Context(db, x)))
            && (Context(r, x) == Context(db, x) || (target <= x && Context(r, x) == EditValues(e, Context(db, x))))
  {
    LookupSized(db.mapping, db.default_, db.size, x);
    ChangePointSized(db.mapping, db.default_, db.size, target, mask, e);
    ChangePointExact(db.mapping, db.default_, target, mask, e, x);
    ChangeStopIsFirst(db.mapping, db.default_, target, mask, e);
  }

  /** After `n` words, word `w` at `x` is as before or has taken the flow. */
  ghost predicate WordFlows(was: Word, now: Word, flow: seq<Word>, from: ChangePointView, to: ChangePointView,
                            n: nat, target: U64, x: U64, w: nat)
    requires Readable(flow, from, to) && n <= |flow|
  {
    && (now == was || (w < n && target <= x && now == Flowed(was, flow[w], from, to, w)))
    && (x == target && w < n ==> now == Flowed(was, flow[w], from, to, w))
  }

  ghost predicate TakesWords(was: seq<Word>, now: seq<Word>, flow: seq<Word>, from: ChangePointView, to: ChangePointView,
                             n: nat, target: U64, x: U64)
    requires Readable(flow, from, to) && n <= |flow|
  {
    && |was| == |now|
    && forall w :: 0 <= w < |was| ==> WordFlows(was[w], now[w], flow, from, to, n, target, x, w)
  }

  lemma TakesOneMore(was: seq<Word>, mid: seq<Word>, now: seq<Word>, flow: seq<Word>, from: ChangePointView,
                     to: ChangePointView, n: nat, target: U64, x: U64)
    requires Readable(flow, from, to) && n < |flow|
    requires TakesWords(was, mid, flow, from, to, n, target, x)
    requires TakesWord(mid, now, flow[n], from, to, n, target, x)
    ensures TakesWords(was, now, flow, from, to, n + 1, target, x)
  {
    assert WordFlows(was[n], mid[n], flow, from, to, n, target, x, n);
    forall w | 0 <= w < |was|
      ensures WordFlows(was[w], now[w], flow, from, to, n + 1, target, x, w)
    {
      assert WordFlows(was[w], mid[w], flow, from, to, n, target, x, w);
    }
  }

  lemma FlowMore(db: Db, mid: Db, flow: seq<Word>, from: ChangePointView, to: ChangePointView, target: U64, n: nat, x: U64)
    requires Readable(flow, from, to) && n < |flow| <= |Context(db, target)|
    requires Fits(mid) && Context(db, target) <= to.values
    requires TakesWords(Context(db, x), Context(mid, x), flow, from, to, n, target, x)
    requires TakesWords(Context(db, target), Context(mid, target), flow, from, to, n, target, target)
    ensures var r := FlowWord(mid, flow[n], from, to, target, n);
            && Fits(r) && r.size == mid.size
            && TakesWords(Context(db, x), Context(r, x), flow, from, to, n + 1, target, x)
  {
    UntouchedYet(Context(db, target), Context(mid, target), flow, from, to, n, target);
    FlowWordAt(mid, flow[n], from, to, target, n, x);
    TakesOneMore(Context(db, x), Context(mid, x), Context(FlowWord(mid, flow[n], from, to, target, n), x), flow, from, to,
                 n, target, x);
  }

  /** Putting the flow of the first `n` words in takes those words at `x`. */
  ghost predicate FlowTakes(db: Db, flow: seq<Word>, from: ChangePointView, to: ChangePointView, target: U64, n: nat, x: U64)
    requires Readable(flow, from, to) && n <= |flow|
  {
    var r := FlowWords(db, flow, from, to, target, n);
    && Fits(r) && r.size == db.size
    && TakesWords(Context(db, x), Context(r, x), flow, from, to, n, target, x)
  }

  lemma {:induction false} FlowWordsAt(db: Db, flow: seq<Word>, from: ChangePointView, to: ChangePointView, target: U64,
                                       n: nat, x: U64)
    requires Readable(flow, from, to) && n <= |flow| <= |Context(db, target)|
    requires Fits(db) && Context(db, target) <= to.values
    ensures FlowTakes(db, flow, from, to, target, n, x)
    decreases n
  {
    if n == 0 {
      NoWordTaken(db, flow, from, to, target, x);
    } else {
      FlowWordsAt(db, flow, from, to, target, n - 1, x);
      FlowWordsAt(db, flow, from, to, target, n - 1, target);
      FlowTakesMore(db, flow, from, to, target, n - 1, x);
    }
  }

  lemma NoWordTaken(db: Db, flow: seq<Word>, from: ChangePointView, to: ChangePointView, target: U64, x: U64)
    requires Readable(flow, from, to) && Fits(db)
    ensures FlowTakes(db, flow, from, to, target, 0, x)
  {
  }

  lemma FlowTakesMore(db: Db, flow: seq<Word>, from: ChangePointView, to: ChangePointView, target: U64, n: nat, x: U64)
    requires Readable(flow, from, to) && n < |flow| <= |Context(db, target)|
    requires Context(db, target) <= to.values
    requires FlowTakes(db, flow, from, to, target, n, x) && FlowTakes(db, flow, from, to, target, n, target)
    ensures FlowTakes(db, flow, from, to, target, n + 1, x)
  {
    FlowMore(db, FlowWords(db, flow, from, to, target, n), flow, from, to, target, n, x);
  }

  lemma UntouchedYet(was: seq<Word>, now: seq<Word>, flow: seq<Word>, from: ChangePointView, to: ChangePointView,
                     n: nat, target: U64)
    requires Readable(flow, from, to) && n < |flow| <= |was|
    requires TakesWords(was, now, flow, from, to, n, target, target)
    ensures |now| == |was| && now[n] == was[n]
  {
    assert WordFlows(was[n], now[n], flow, from, to, n, target, target, n);
  }

  lemma FlowAt(db: Db, flow: seq<Word>, source: U64, target: U64, x: U64, w: nat)
    requires Fits(db) && |flow| <= db.size && w < db.size
    ensures var r := Flow(db, flow, source, target);
            && Fits(r) && r.size == db.size && |Context(db, x)| == |Context(r, x)| == db.size
            && WordFlows(Context(db, x)[w], Context(r, x)[w], flow, View(db, source), View(db, target), |flow|, target, x, w)
  {
    ViewIsContext(db, target);
    FlowWordsAt(db, flow, View(db, source), View(db, target), target, |flow|, x);
    LookupSized(db.mapping, db.default_, db.size, x);
  }

  /** Bit `i` of word `w` flows to the target: the language lets it flow and no write was recorded
      for it at exactly the target. */
  ghost predicate Flows(db: Db, flow: seq<Word>, target: U64, w: nat, i: nat)
  {
    && w < |flow| && BitAt(flow[w], i)
    && !(target in db.mapping && w < |db.mapping[target].masks| && BitAt(db.mapping[target].masks[w], i))
  }

  lemma ViewFlows(db: Db, flow: seq<Word>, target: U64, w: nat, i: nat)
    requires Fits(db) && w < |flow| <= db.size
    ensures Flows(db, flow, target, w, i) <==> BitAt(flow[w], i) && !BitAt(View(db, target).changeMask[w], i)
  {
    ViewIsContext(db, target);
    ZeroBits(i);
  }

  /** At the target, exactly the flowing bits become the source's; every other bit stays. */
  lemma FlowReachesTarget(db: Db, flow: seq<Word>, source: U64, target: U64, w: nat, i: nat)
    requires Fits(db) && |flow| <= db.size && w < db.size
    ensures |Context(Flow(db, flow, source, target), target)| == |Context(db, target)| == |Context(db, source)| == db.size
    ensures BitAt(Context(Flow(db, flow, source, target), target)[w], i) <==>
            if Flows(db, flow, target, w, i) then BitAt(Context(db, source)[w], i) else BitAt(Context(db, target)[w], i)
  {
    var r := Flow(db, flow, source, target);
    var from, to := View(db, source), View(db, target);
    ViewIsContext(db, source);
    ViewIsContext(db, target);
    FlowAt(db, flow, source, target, target, w);
    if w < |flow| {
      ViewFlows(db, flow, target, w, i);
      BitAtFlowed(Context(db, target)[w], flow[w], from, to, w, i);
    }
  }

  /** Any address below the target keeps its context; above it, only flowing bits change, and only
      to the source's value. */
  lemma FlowElsewhere(db: Db, flow: seq<Word>, source: U64, target: U64, x: U64, w: nat, i: nat)
    requires Fits(db) && |flow| <= db.size && w < db.size
    ensures |Context(Flow(db, flow, source, target), x)| == |Context(db, x)| == |Context(db, source)| == db.size
    ensures (BitAt(Context(Flow(db, flow, source, target), x)[w], i) <==> BitAt(Context(db, x)[w], i))
         || (target <= x && Flows(db, flow, target, w, i) &&
             (BitAt(Context(Flow(db, flow, source, target), x)[w], i) <==> BitAt(Context(db, source)[w], i)))
  {
    var r := Flow(db, flow, source, target);
    var from, to := View(db, source), View(db, target);
    ViewIsContext(db, source);
    FlowAt(db, flow, source, target, x, w);
    if w < |flow| {
      ViewFlows(db, flow, target, w, i);
      BitAtFlowed(Context(db, x)[w], flow[w], from, to, w, i);
    }
  }

  lemma FlowSized(db: Db, flow: seq<Word>, source: U64, target: U64)
    requires Fits(db) && |flow| <= db.size
    ensures Fits(Flow(db, flow, source, target)) && Flow(db, flow, source, target).size == db.size
  {
    ViewIsContext(db, target);
    FlowWordsAt(db, flow, View(db, source), View(db, target), target, |flow|, target);
  }

  /** The source keeps its whole context, even where the write spreads over it. */
  lemma FlowKeepsSource(db: Db, flow: seq<Word>, source: U64, target: U64)
    requires Fits(db) && |flow| <= db.size
    ensures Context(Flow(db, flow, source, target), source) == Context(db, source)
  {
    var r := Flow(db, flow, source, target);
    FlowSized(db, flow, source, target);
    ViewIsContext(db, source);
    ViewIsContext(r, source);
    forall w | 0 <= w < db.size
      ensures Context(r, source)[w] == Context(db, source)[w]
    {
      forall i: nat
        ensures BitAt(Context(r, source)[w], i) <==> BitAt(Context(db, source)[w], i)
      {
        FlowElsewhere(db, flow, source, target, source, w, i);
      }
      Extensional(Context(r, source)[w], Context(db, source)[w]);
    }
  }

  // ---- idempotence ----

  /** No record at the target is ever forgotten. */
  ghost predicate Remembers(before: Db, after: Db, target: U64)
    requires Fits(before) && Fits(after)
  {
    forall w, i: nat :: 0 <= w < MAX_CTXT_CHUNKS && BitAt(View(before, target).changeMask[w], i) ==>
      BitAt(View(after, target).changeMask[w], i)
  }

  lemma FlowWordRemembers(db: Db, flow: Word, from: ChangePointView, to: ChangePointView, target: U64, num: nat)
    requires num < |from.values| && num < |to.values| && num < |to.changeMask|
    requires Fits(db) && num < db.size && Fits(FlowWord(db, flow, from, to, target, num))
    ensures Remembers(db, FlowWord(db, flow, from, to, target, num), target)
  {
    var r := FlowWord(db, flow, from, to, target, num);
    var mask := FlowMask(flow, to, num);
    if r != db {
      WriteRemembers(db, r, target, num, mask, Edit(num, mask, AndW(from.values[num], mask)));
    }
  }

  lemma WriteRemembers(db: Db, r: Db, target: U64, num: nat, mask: Word, e: Edit)
    requires Fits(db) && num < db.size && r == WritePoint(db, target, mask, e) && e.word == num && Fits(r)
    ensures Remembers(db, r, target)
  {
    forall w, i: nat | 0 <= w < MAX_CTXT_CHUNKS && BitAt(View(db, target).changeMask[w], i)
      ensures BitAt(View(r, target).changeMask[w], i)
    {
      BitRemembered(db, r, target, num, mask, e, w, i);
    }
  }

  lemma BitRemembered(db: Db, r: Db, target: U64, num: nat, mask: Word, e: Edit, w: nat, i: nat)
    requires Fits(db) && num < db.size && r == WritePoint(db, target, mask, e) && e.word == num && Fits(r)
    requires w < MAX_CTXT_CHUNKS && BitAt(View(db, target).changeMask[w], i)
    ensures BitAt(View(r, target).changeMask[w], i)
  {
    ViewIsContext(db, target);
    ViewIsContext(r, target);
    ChangePointRecords(db.mapping, db.default_, target, mask, e, target);
    ZeroBits(i);
    if target in db.mapping {
      LookupAt(db.mapping, db.default_, target, target);
      if w == num {
        BitAtOr(db.mapping[target].masks[num], mask, i);
      }
    }
  }

  lemma StillRemembers(db: Db, mid: Db, flow: Word, from: ChangePointView, to: ChangePointView, target: U64, num: nat)
    requires num < |from.values| && num < |to.values| && num < |to.changeMask|
    requires Fits(db) && Fits(mid) && num < mid.size && Fits(FlowWord(mid, flow, from, to, target, num))
    requires Remembers(db, mid, target)
    ensures Remembers(db, FlowWord(mid, flow, from, to, target, num), target)
  {
    FlowWordRemembers(mid, flow, from, to, target, num);
  }

  lemma FlowWordsFit(db: Db, flow: seq<Word>, from: ChangePointView, to: ChangePointView, target: U64, n: nat)
    requires Readable(flow, from, to) && n <= |flow| <= |Context(db, target)|
    requires Fits(db) && Context(db, target) <= to.values
    ensures WordsFit(db, flow, from, to, target, n)
  {
    FlowWordsAt(db, flow, from, to, target, n, target);
  }

  ghost predicate WordsFit(db: Db, flow: seq<Word>, from: ChangePointView, to: ChangePointView, target: U64, n: nat)
    requires Readable(flow, from, to) && n <= |flow|
  {
    var r := FlowWords(db, flow, from, to, target, n);
    Fits(r) && r.size == db.size
  }

  ghost predicate Remembered(db: Db, flow: seq<Word>, from: ChangePointView, to: ChangePointView, target: U64, n: nat)
    requires Readable(flow, from, to) && n <= |flow| && Fits(db)
  {
    var r := FlowWords(db, flow, from, to, target, n);
    Fits(r) && r.size == db.size && Remembers(db, r, target)
  }

  lemma {:induction false} FlowWordsRemember(db: Db, flow: seq<Word>, from: ChangePointView, to: ChangePointView,
                                             target: U64, n: nat)
    requires Readable(flow, from, to) && n <= |flow| <= |Context(db, target)|
    requires Fits(db) && Context(db, target) <= to.values
    ensures Remembered(db, flow, from, to, target, n)
    decreases n
  {
    if n == 0 {
      RememberedNone(db, flow, from, to, target);
    } else {
      FlowWordsRemember(db, flow, from, to, target, n - 1);
      ContextSized(db, target);
      RememberedMore(db, flow, from, to, target, n - 1);
    }
  }

  lemma RememberedNone(db: Db, flow: seq<Word>, from: ChangePointView, to: ChangePointView, target: U64)
    requires Readable(flow, from, to) && Fits(db)
    ensures Remembered(db, flow, from, to, target, 0)
  {
  }

  lemma RememberedMore(db: Db, flow: seq<Word>, from: ChangePointView, to: ChangePointView, target: U64, n: nat)
    requires Readable(flow, from, to) && n < |flow| <= |Context(db, target)|
    requires Fits(db) && Context(db, target) <= to.values && Remembered(db, flow, from, to, target, n)
    requires |flow| <= db.size
    ensures Remembered(db, flow, from, to, target, n + 1)
  {
    FlowWordsFit(db, flow, from, to, target, n + 1);
    RememberedOn(db, flow, from, to, target, n);
  }

  lemma ContextSized(db: Db, a: U64)
    requires Fits(db)
    ensures |Context(db, a)| == db.size
  {
    LookupSized(db.mapping, db.default_, db.size, a);
  }

  lemma RememberedOn(db: Db, flow: seq<Word>, from: ChangePointView, to: ChangePointView, target: U64, n: nat)
    requires Readable(flow, from, to) && n < |flow| <= db.size && Fits(db)
    requires Remembered(db, flow, from, to, target, n) && WordsFit(db, flow, from, to, target, n + 1)
    ensures Remembered(db, flow, from, to, target, n + 1)
  {
    StillRemembers(db, FlowWords(db, flow, from, to, target, n), flow[n], from, to, target, n);
  }

  /** Where no word needs a write, nothing is written. */
  lemma {:induction false} FlowNothing(db: Db, flow: seq<Word>, from: ChangePointView, to: ChangePointView,
                                       target: U64, n: nat)
    requires Readable(flow, from, to) && n <= |flow|
    requires forall w :: 0 <= w < |flow| ==>
               AndW(to.values[w], FlowMask(flow[w], to, w)) == AndW(from.values[w], FlowMask(flow[w], to, w))
    ensures FlowWords(db, flow, from, to, target, n) == db
    decreases n
  {
    if n > 0 {
      FlowNothing(db, flow, from, to, target, n - 1);
    }
  }

  /** Propagating the same flow again changes nothing, not even a record. */
  lemma FlowIdempotent(db: Db, flow: seq<Word>, source: U64, target: U64)
    requires Fits(db) && |flow| <= db.size
    ensures var r := Flow(db, flow, source, target);
            Fits(r) && r.size == db.size && Flow(r, flow, source, target) == r
  {
    var r := Flow(db, flow, source, target);
    FlowSized(db, flow, source, target);
    ViewIsContext(db, target);
    FlowWordsRemember(db, flow, View(db, source), View(db, target), target, |flow|);
    var from, to := View(r, source), View(r, target);
    ViewIsContext(r, source);
    ViewIsContext(r, target);
    ViewIsContext(db, source);
    FlowKeepsSource(db, flow, source, target);
    forall w | 0 <= w < |flow|
      ensures AndW(to.values[w], FlowMask(flow[w], to, w)) == AndW(from.values[w], FlowMask(flow[w], to, w))
    {
      var mask := FlowMask(flow[w], to, w);
      forall i: nat
        ensures BitAt(AndW(to.values[w], mask), i) <==> BitAt(AndW(from.values[w], mask), i)
      {
        BitAtAnd(to.values[w], mask, i);
        BitAtAnd(from.values[w], mask, i);
        BitAtAnd(flow[w], Not(to.changeMask[w]), i);
        BitAtNot(to.changeMask[w], i);
        FlowReachesTarget(db, flow, source, target, w, i);
        ViewFlows(db, flow, target, w, i);
      }
      Extensional(AndW(to.values[w], mask), AndW(from.values[w], mask));
    }
    FlowNothing(r, flow, from, to, target, |flow|);
  }

  // ---- what is recorded ----

  /** The record that holds at an address. */
  function MasksAt(db: Db, a: U64): seq<Word>
  {
    Lookup(db.mapping, db.default_, a).masks
  }

  ghost predicate Disagrees(flow: Word, from: ChangePointView, to: ChangePointView, num: nat)
    requires num < |from.values| && num < |to.values| && num < |to.changeMask|
  {
    AndW(to.values[num], FlowMask(flow, to, num)) != AndW(from.values[num], FlowMask(flow, to, num))
  }

  lemma WriteMasks(db: Db, target: U64, mask: Word, e: Edit)
    ensures MasksAt(WritePoint(db, target, mask, e), target) == Mark(MasksAt(db, target), e.word, mask)
  {
    var m := ChangePoint(db.mapping, db.default_, target, mask, e);
    ChangeStopIsFirst(db.mapping, db.default_, target, mask, e);
    assert target in m;
    ChangePointRecords(db.mapping, db.default_, target, mask, e, target);
    LookupAt(m, db.default_, target, target);
  }

  /** After `n` words the record has gained the flowing bits of those that disagreed. */
  ghost predicate MasksGain(was: seq<Word>, now: seq<Word>, flow: seq<Word>, from: ChangePointView, to: ChangePointView, n: nat)
    requires Readable(flow, from, to) && n <= |flow|
  {
    && |was| == |now|
    && forall w :: 0 <= w < |was| ==>
         now[w] == if w < n && Disagrees(flow[w], from, to, w) then OrW(was[w], FlowMask(flow[w], to, w)) else was[w]
  }

  ghost predicate RecordGains(db: Db, flow: seq<Word>, from: ChangePointView, to: ChangePointView, target: U64, n: nat)
    requires Readable(flow, from, to) && n <= |flow|
  {
    MasksGain(MasksAt(db, target), MasksAt(FlowWords(db, flow, from, to, target, n), target), flow, from, to, n)
  }

  lemma {:induction false} FlowWordsMask(db: Db, flow: seq<Word>, from: ChangePointView, to: ChangePointView,
                                         target: U64, n: nat)
    requires Readable(flow, from, to) && n <= |flow|
    ensures RecordGains(db, flow, from, to, target, n)
    decreases n
  {
    if n > 0 {
      FlowWordsMask(db, flow, from, to, target, n - 1);
      RecordGainsOne(db, FlowWords(db, flow, from, to, target, n - 1), flow, from, to, target, n - 1);
    }
  }

  lemma RecordGainsOne(db: Db, mid: Db, flow: seq<Word>, from: ChangePointView, to: ChangePointView, target: U64, n: nat)
    requires Readable(flow, from, to) && n < |flow| && mid == FlowWords(db, flow, from, to, target, n)
    requires RecordGains(db, flow, from, to, target, n)
    ensures RecordGains(db, flow, from, to, target, n + 1)
  {
    FlowWordMasks(mid, flow[n], from, to, target, n);
    MasksGainOne(MasksAt(db, target), MasksAt(mid, target), MasksAt(FlowWord(mid, flow[n], from, to, target, n), target),
                 flow, from, to, n);
  }

  /** One word's record. */
  ghost predicate MaskGains(was: seq<Word>, now: seq<Word>, flow: Word, from: ChangePointView, to: ChangePointView, num: nat)
    requires num < |from.values| && num < |to.values| && num < |to.changeMask|
  {
    now == if Disagrees(flow, from, to, num) then Mark(was, num, FlowMask(flow, to, num)) else was
  }

  lemma FlowWordMasks(db: Db, flow: Word, from: ChangePointView, to: ChangePointView, target: U64, num: nat)
    requires num < |from.values| && num < |to.values| && num < |to.changeMask|
    ensures MaskGains(MasksAt(db, target), MasksAt(FlowWord(db, flow, from, to, target, num), target), flow, from, to, num)
  {
    var mask := FlowMask(flow, to, num);
    WriteMasks(db, target, mask, Edit(num, mask, AndW(from.values[num], mask)));
  }

  lemma MasksGainOne(was: seq<Word>, mid: seq<Word>, now: seq<Word>, flow: seq<Word>, from: ChangePointView,
                     to: ChangePointView, n: nat)
    requires Readable(flow, from, to) && n < |flow|
    requires MasksGain(was, mid, flow, from, to, n) && MaskGains(mid, now, flow[n], from, to, n)
    ensures MasksGain(was, now, flow, from, to, n + 1)
  {
  }

  /** Some bit of word `w` that flows is not yet the source's. */
  ghost predicate Differs(db: Db, flow: seq<Word>, source: U64, target: U64, w: nat)
    requires Fits(db) && w < db.size
  {
    LookupSized(db.mapping, db.default_, db.size, source);
    LookupSized(db.mapping, db.default_, db.size, target);
    exists j: nat :: Flows(db, flow, target, w, j) &&
                     (BitAt(Context(db, source)[w], j) <==> !BitAt(Context(db, target)[w], j))
  }

  lemma DiffersExactly(db: Db, flow: seq<Word>, source: U64, target: U64, w: nat)
    requires Fits(db) && w < |flow| <= db.size
    ensures Differs(db, flow, source, target, w) <==> Disagrees(flow[w], View(db, source), View(db, target), w)
  {
    var from, to := View(db, source), View(db, target);
    var mask := FlowMask(flow[w], to, w);
    ViewIsContext(db, source);
    ViewIsContext(db, target);
    forall j: nat
      ensures BitAt(AndW(to.values[w], mask), j) <==> Flows(db, flow, target, w, j) && BitAt(Context(db, target)[w], j)
      ensures BitAt(AndW(from.values[w], mask), j) <==> Flows(db, flow, target, w, j) && BitAt(Context(db, source)[w], j)
    {
      BitAtAnd(to.values[w], mask, j);
      BitAtAnd(from.values[w], mask, j);
      FlowingBit(db, flow, target, w, j);
    }
    if !Differs(db, flow, source, target, w) {
      Extensional(AndW(to.values[w], mask), AndW(from.values[w], mask));
    }
  }

  lemma FlowingBit(db: Db, flow: seq<Word>, target: U64, w: nat, j: nat)
    requires Fits(db) && w < |flow| <= db.size
    ensures BitAt(FlowMask(flow[w], View(db, target), w), j) <==> Flows(db, flow, target, w, j)
  {
    ViewFlows(db, flow, target, w, j);
    BitAtAnd(flow[w], Not(View(db, target).changeMask[w]), j);
    BitAtNot(View(db, target).changeMask[w], j);
    if BitAt(flow[w], j) {
      WordSize();
      BitAtBound(flow[w], 32, j);
    }
  }

  /** What is recorded at the target: in addition to what was, the flowing bits of exactly those words in
      which some flowing bit was not yet the source's. */
  lemma FlowRecords(db: Db, flow: seq<Word>, source: U64, target: U64, w: nat, i: nat)
    requires Fits(db) && |flow| <= db.size && w < db.size
    ensures |MasksAt(db, target)| == |MasksAt(Flow(db, flow, source, target), target)| == db.size
    ensures BitAt(MasksAt(Flow(db, flow, source, target), target)[w], i) <==>
            || BitAt(MasksAt(db, target)[w], i)
            || (w < |flow| && Differs(db, flow, source, target, w) && Flows(db, flow, target, w, i))
  {
    var from, to := View(db, source), View(db, target);
    LookupSized(db.mapping, db.default_, db.size, target);
    FlowWordsMask(db, flow, from, to, target, |flow|);
    if w < |flow| {
      DiffersExactly(db, flow, source, target, w);
      BitAtOr(MasksAt(db, target)[w], FlowMask(flow[w], to, w), i);
      FlowingBit(db, flow, target, w, i);
    }
  }
}
