/** Walks over the keys of a partition map that edit the values they meet, in key order
    (fugue-lifter-runtime/src/context.rs:752-811). */
module PartEdits {
  import opened Prelude
  import opened PartMaps

  /** Where a walk that starts at `a` halts: the first later key whose value says so. */
  function StopOf<V(!new)>(m: map<U64, V>, a: U64, halts: V -> bool): (s: Option<U64>)
    ensures s.Some? ==> s.value in m && a < s.value && halts(m[s.value])
    ensures forall k :: k in m && a < k && (s.None? || k < s.value) ==> !halts(m[k])
  {
    var halting := map k | k in m && halts(m[k]) :: m[k];
    assert forall k :: k in m && halts(m[k]) ==> k in halting;
    Above(halting, a)
  }

  /** Splits at `a`, edits the value there with `first`, and every later value with `rest` up to
      the first that halts. */
  function EditFrom<V(!new)>(m: map<U64, V>, d: V, a: U64, halts: V -> bool, first: V -> V, rest: V -> V)
    : (r: map<U64, V>)
    ensures r.Keys == m.Keys + {a}
  {
    var m1 := SplitAt(m, d, a);
    var stop := StopOf(m1, a, halts);
    map k | k in m1 :: if k == a then first(m1[k]) else if InRange(a, stop, k) then rest(m1[k]) else m1[k]
  }

  /** The end of such a walk. */
  function EditStop<V(!new)>(m: map<U64, V>, d: V, a: U64, halts: V -> bool): (s: Option<U64>)
  {
    StopOf(SplitAt(m, d, a), a, halts)
  }

  /** Reading after the walk: edited inside [a, stop), as before outside it. */
  lemma EditFromLookup<V(!new)>(m: map<U64, V>, d: V, a: U64, halts: V -> bool, first: V -> V, rest: V -> V, x: U64)
    ensures var r, stop, v := EditFrom(m, d, a, halts, first, rest), EditStop(m, d, a, halts), Lookup(m, d, x);
            if InRange(a, stop, x) then Lookup(r, d, x) == first(v) || Lookup(r, d, x) == rest(v)
            else Lookup(r, d, x) == v
    ensures Lookup(EditFrom(m, d, a, halts, first, rest), d, a) == first(Lookup(m, d, a))
  {
    var m1 := SplitAt(m, d, a);
    var r, stop := EditFrom(m, d, a, halts, first, rest), EditStop(m, d, a, halts);
    SplitKeepsLookup(m, d, a, x);
    SplitKeepsLookup(m, d, a, a);
    LookupAt(m1, d, a, a);
    LookupAt(r, d, a, a);
    assert r.Keys == m1.Keys;
    var f := Floor(m1, x);
    if f.Some? {
      LookupAt(r, d, x, f.value);
      assert InRange(a, stop, f.value) <==> InRange(a, stop, x);
    } else {
      assert Floor(r, x).None?;
    }
  }

  /** Whether a walk from `c` passes the key `a`, if nothing halts it in between. */
  lemma StopPasses<V(!new)>(m: map<U64, V>, d: V, c: U64, a: U64, halts: V -> bool)
    requires a in m && c < a && forall k :: k in m && c < k < a ==> !halts(m[k])
    ensures InRange(c, EditStop(m, d, c, halts), a) <==> !halts(m[a])
  {
    var m1 := SplitAt(m, d, c);
    assert forall k :: k in m && k != c ==> k in m1 && m1[k] == m[k];
  }

  /** Splits at both ends of [a, b) and edits every value in between. */
  function EditRange<V(!new)>(m: map<U64, V>, d: V, a: U64, b: Option<U64>, edit: V -> V): (r: map<U64, V>)
    ensures r.Keys == m.Keys + {a} + (if b.Some? then {b.value} else {})
  {
    var m1 := SplitAt(m, d, a);
    var m2 := if b.Some? then SplitAt(m1, d, b.value) else m1;
    map k | k in m2 :: if InRange(a, b, k) then edit(m2[k]) else m2[k]
  }

  lemma EditRangeLookup<V(!new)>(m: map<U64, V>, d: V, a: U64, b: Option<U64>, edit: V -> V, x: U64)
    requires b.Some? ==> a <= b.value
    ensures Lookup(EditRange(m, d, a, b, edit), d, x) ==
            if InRange(a, b, x) then edit(Lookup(m, d, x)) else Lookup(m, d, x)
  {
    var m1 := SplitAt(m, d, a);
    var m2 := if b.Some? then SplitAt(m1, d, b.value) else m1;
    var r := EditRange(m, d, a, b, edit);
    SplitKeepsLookup(m, d, a, x);
    if b.Some? {
      SplitKeepsLookup(m1, d, b.value, x);
    }
    assert r.Keys == m2.Keys;
    var f := Floor(m2, x);
    if f.Some? {
      LookupAt(r, d, x, f.value);
      assert InRange(a, b, f.value) <==> InRange(a, b, x);
    } else {
      assert Floor(r, x).None?;
    }
  }

  // ---- the loops ----

  ghost function KeysFrom<V>(m: map<U64, V>, cur: Option<U64>): set<U64>
  {
    set k | k in m && cur.Some? && cur.value <= k
  }

  lemma KeysShrink<V>(m: map<U64, V>, here: Option<U64>, cur: Option<U64>)
    requires here.Some? && here.value in m && (cur.Some? ==> here.value < cur.value)
    ensures KeysFrom(m, cur) < KeysFrom(m, here)
  {
    assert here.value in KeysFrom(m, here) && here.value !in KeysFrom(m, cur);
  }

  /** Every key from `a` up to `cur` is edited, none from `cur` on. */
  ghost predicate Edited<V(!new)>(m1: map<U64, V>, m: map<U64, V>, cur: Option<U64>, a: U64, first: V -> V, rest: V -> V)
  {
    && m.Keys == m1.Keys
    && forall k :: k in m1 ==>
         m[k] == if k == a then first(m1[k]) else if InRange(a, cur, k) then rest(m1[k]) else m1[k]
  }

  /** Editing the value at `cur` moves the walk on to the next key. */
  lemma EditedStep<V(!new)>(m1: map<U64, V>, m: map<U64, V>, cur: U64, a: U64, first: V -> V, rest: V -> V)
    requires Edited(m1, m, Some(cur), a, first, rest) && cur in m1 && a < cur
    ensures var m' := m[cur := rest(m[cur])];
            var next := Above(m', cur);
            && Edited(m1, m', next, a, first, rest)
            && (next.Some? ==> next.value in m1)
    ensures var next := Above(m[cur := rest(m[cur])], cur);
            forall k :: k in m1 && cur < k ==> next.Some? && next.value <= k
  {
  }

  /** The walk stopped where it has to stop. */
  lemma EditedDone<V(!new)>(m: map<U64, V>, d: V, r: map<U64, V>, cur: Option<U64>, a: U64, halts: V -> bool,
                            first: V -> V, rest: V -> V)
    requires var m1 := SplitAt(m, d, a);
             && Edited(m1, r, cur, a, first, rest)
             && (cur.Some? ==> cur.value in m1 && a < cur.value && halts(m1[cur.value]))
             && forall k :: k in m1 && a < k && (cur.None? || k < cur.value) ==> !halts(m1[k])
    ensures r == EditFrom(m, d, a, halts, first, rest)
  {
    var stop := EditStop(m, d, a, halts);
    assert cur == stop by {
      if cur.Some? && stop.Some? {
        assert cur.value <= stop.value && stop.value <= cur.value;
      }
    }
  }

  method EditUntilHalt<V(!new)>(db: PartMap<V>, a: U64, halts: V -> bool, first: V -> V, rest: V -> V)
    modifies db`mapping
    ensures db.mapping == EditFrom(old(db.mapping), db.default_, a, halts, first, rest)
  {
    db.Split(a);
    ghost var m1 := db.mapping;
    db.mapping := db.mapping[a := first(db.mapping[a])];
    var cur := Above(db.mapping, a);
    while cur.Some? && !halts(db.mapping[cur.value])
      invariant cur.Some? ==> cur.value in m1 && a < cur.value
      invariant Edited(m1, db.mapping, cur, a, first, rest)
      invariant forall k :: k in m1 && a < k && (cur.None? || k < cur.value) ==> !halts(m1[k])
      decreases KeysFrom(m1, cur)
    {
      ghost var here := cur;
      EditedStep(m1, db.mapping, cur.value, a, first, rest);
      db.mapping := db.mapping[cur.value := rest(db.mapping[cur.value])];
      cur := Above(db.mapping, cur.value);
      KeysShrink(m1, here, cur);
    }
    EditedDone(old(db.mapping), db.default_, db.mapping, cur, a, halts, first, rest);
  }

  method EditBetween<V(!new)>(db: PartMap<V>, a: U64, b: Option<U64>, edit: V -> V)
    requires b.Some? ==> a <= b.value
    modifies db`mapping
    ensures db.mapping == EditRange(old(db.mapping), db.default_, a, b, edit)
  {
    db.Split(a);
    if b.Some? {
      db.Split(b.value);
    }
    ghost var m2 := db.mapping;
    var cur := Some(a);
    while cur.Some? && (b.None? || cur.value < b.value)
      invariant cur.Some? ==> cur.value in m2 && a <= cur.value
      invariant db.mapping.Keys == m2.Keys
      invariant forall k :: k in m2 ==>
        db.mapping[k] == if InRange(a, b, k) && InRange(a, cur, k) then edit(m2[k]) else m2[k]
      decreases KeysFrom(m2, cur)
    {
      ghost var here := cur;
      db.mapping := db.mapping[cur.value := edit(db.mapping[cur.value])];
      cur := Above(db.mapping, cur.value);
      KeysShrink(m2, here, cur);
    }
    assert db.mapping == EditRange(old(db.mapping), db.default_, a, b, edit);
  }
}
