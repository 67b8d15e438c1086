/** The partition map: finitely many keys cut the address range into intervals, each holding
    one value (fugue-lifter-runtime/src/partmap.rs). */
module PartMaps {
  import opened Prelude

  /** The greatest key at or below `a`. */
  function Floor<V>(m: map<U64, V>, a: U64): (r: Option<U64>)
    ensures r.None? ==> forall k :: k in m ==> a < k
    ensures r.Some? ==> r.value in m && r.value <= a && forall k :: k in m && k <= a ==> k <= r.value
  {
    var below := set k | k in m && k <= a;
    assert forall k :: k in m && k <= a ==> k in below;
    if below == {} then None
    else
      assert exists top :: top in below && forall k :: k in below ==> k <= top by { var top := HasMax(below); }
      var top :| top in below && forall k :: k in below ==> k <= top;
      Some(top)
  }

  lemma {:induction false} HasMax(s: set<U64>) returns (top: U64)
    requires s != {}
    ensures top in s && forall k :: k in s ==> k <= top
    decreases |s|
  {
    top :| top in s;
    var rest := s - {top};
    assert s == rest + {top};
    if rest != {} {
      var other := HasMax(rest);
      top := Max(top, other);
    }
  }

  /** The least key above `a`. */
  function Above<V>(m: map<U64, V>, a: U64): (r: Option<U64>)
    ensures r.None? ==> forall k :: k in m ==> k <= a
    ensures r.Some? ==> r.value in m && a < r.value && forall k :: k in m && a < k ==> r.value <= k
  {
    var above := set k | k in m && a < k;
    assert forall k :: k in m && a < k ==> k in above;
    if above == {} then None
    else
      assert exists low :: low in above && forall k :: k in above ==> low <= k by { var low := HasMin(above); }
      var low :| low in above && forall k :: k in above ==> low <= k;
      Some(low)
  }

  lemma {:induction false} HasMin(s: set<U64>) returns (low: U64)
    requires s != {}
    ensures low in s && forall k :: k in s ==> low <= k
    decreases |s|
  {
    low :| low in s;
    var rest := s - {low};
    assert s == rest + {low};
    if rest != {} {
      var other := HasMin(rest);
      low := if other < low then other else low;
    }
  }

  /** The function a partition map represents. */
  function Lookup<V>(m: map<U64, V>, d: V, a: U64): V
  {
    match Floor(m, a)
    case None => d
    case Some(k) => m[k]
  }

  /** Lookups are settled by any key that is a floor. */
  lemma LookupAt<V>(m: map<U64, V>, d: V, a: U64, k: U64)
    requires k in m && k <= a && forall x :: x in m && x <= a ==> x <= k
    ensures Lookup(m, d, a) == m[k]
  {
  }

  /** Makes `at` a key, holding what is there already. */
  function SplitAt<V>(m: map<U64, V>, d: V, at: U64): (r: map<U64, V>)
    ensures r.Keys == m.Keys + {at}
  {
    if at in m then m else m[at := Lookup(m, d, at)]
  }

  /** Splitting never changes the represented function. */
  lemma SplitKeepsLookup<V>(m: map<U64, V>, d: V, at: U64, x: U64)
    ensures Lookup(SplitAt(m, d, at), d, x) == Lookup(m, d, x)
  {
    var r := SplitAt(m, d, at);
    var f, g := Floor(m, x), Floor(r, x);
    if at !in m && at <= x {
      assert g.Some?;
      if g.value == at {
        var h := Floor(m, at);
        if f.Some? {
          assert f.value <= at;
          assert h.value == f.value;
        }
      } else {
        assert f.Some? && f.value == g.value;
      }
    }
  }

  predicate InRange(a: U64, end: Option<U64>, x: U64)
  {
    a <= x && (end.None? || x < end.value)
  }

  /** Keeps only the start of [start, end), split out at both ends. */
  function ClearedRange<V>(m: map<U64, V>, d: V, start: U64, end: Option<U64>): (r: map<U64, V>)
    requires end.Some? ==> start < end.value
  {
    var m1 := SplitAt(m, d, start);
    var m2 := if end.Some? then SplitAt(m1, d, end.value) else m1;
    map k | k in m2 && !(k != start && InRange(start, end, k)) :: m2[k]
  }

  /** Clearing a range makes it uniform and changes nothing outside it. */
  lemma ClearedLookup<V>(m: map<U64, V>, d: V, start: U64, end: Option<U64>, x: U64)
    requires end.Some? ==> start < end.value
    ensures start in ClearedRange(m, d, start, end)
    ensures Lookup(ClearedRange(m, d, start, end), d, x) ==
            if InRange(start, end, x) then Lookup(m, d, start) else Lookup(m, d, x)
  {
    var m1 := SplitAt(m, d, start);
    var m2 := if end.Some? then SplitAt(m1, d, end.value) else m1;
    var r := ClearedRange(m, d, start, end);
    SplitKeepsLookup(m, d, start, x);
    SplitKeepsLookup(m, d, start, start);
    if end.Some? {
      SplitKeepsLookup(m1, d, end.value, x);
      SplitKeepsLookup(m1, d, end.value, start);
    }
    LookupAt(m2, d, start, start);
    if InRange(start, end, x) {
      LookupAt(r, d, x, start);
    } else if Floor(m2, x).Some? {
      var k := Floor(m2, x).value;
      assert k in r;
      LookupAt(r, d, x, k);
    }
  }

  /** Writing the start of a uniform range rewrites the range and nothing else. */
  lemma WriteLookup<V>(m: map<U64, V>, d: V, at: U64, v: V, x: U64)
    requires at in m
    ensures Lookup(m[at := v], d, x) == if Floor(m, x) == Some(at) then v else Lookup(m, d, x)
  {
    var r := m[at := v];
    assert r.Keys == m.Keys;
    var f, g := Floor(m, x), Floor(r, x);
    assert f == g by {
      if f.Some? && g.Some? {
        assert f.value <= g.value && g.value <= f.value;
      }
    }
  }

  /** What `bounds` reports: the interval around a point and its value. */
  datatype Bound<V> = Bound(lower: Option<U64>, upper: Option<U64>, value: V)

  class PartMap<V> {
    var mapping: map<U64, V>
    var default_: V

    constructor (d: V)
      ensures mapping == map[] && default_ == d
    {
      mapping := map[];
      default_ := d;
    }

    function At(a: U64): V
      reads this
    {
      Lookup(mapping, default_, a)
    }

    method GetOrDefault(a: U64) returns (v: V)
      ensures v == At(a)
    {
      var k := Floor(mapping, a);
      v := if k.Some? then mapping[k.value] else default_;
    }

    /** The interval around `point`: every address in it reads the same value, and it cannot be
        widened past a key. */
    method Bounds(point: U64) returns (b: Bound<V>)
      ensures b.value == At(point)
      ensures b.lower.Some? ==> b.lower.value <= point && b.lower.value in mapping
      ensures b.upper.Some? ==> point < b.upper.value && b.upper.value in mapping
      ensures b.upper.None? ==> forall k :: k in mapping ==> k <= point
      ensures forall x: U64 :: (b.lower.Some? ==> b.lower.value <= x) && (b.upper.Some? ==> x < b.upper.value) ==>
                At(x) == b.value
    {
      var lb := Floor(mapping, point);
      var ub := Above(mapping, point);
      b := Bound(lb, ub, if lb.Some? then mapping[lb.value] else default_);
      forall x: U64 | (lb.Some? ==> lb.value <= x) && (ub.Some? ==> x < ub.value)
        ensures At(x) == b.value
      {
        if lb.Some? {
          LookupAt(mapping, default_, x, lb.value);
        }
      }
    }

    method Clear()
      modifies this`mapping
      ensures mapping == map[]
    {
      mapping := map[];
    }

    method Split(at: U64)
      modifies this`mapping
      ensures mapping == SplitAt(old(mapping), default_, at)
      ensures forall x: U64 :: At(x) == old(At(x))
    {
      var k := Floor(mapping, at);
      if k == Some(at) {
      } else if k.Some? {
        mapping := mapping[at := mapping[k.value]];
      } else {
        mapping := mapping[at := default_];
      }
      forall x: U64
        ensures Lookup(mapping, default_, x) == Lookup(old(mapping), default_, x)
      {
        SplitKeepsLookup(old(mapping), default_, at, x);
      }
    }

    /** Removes every key strictly inside the range, one by one. */
    method ClearRange(start: U64, end: Option<U64>)
      requires end.Some? ==> start < end.value
      modifies this`mapping
      ensures mapping == ClearedRange(old(mapping), default_, start, end)
      ensures start in mapping
      ensures forall x: U64 :: At(x) == if InRange(start, end, x) then old(At(start)) else old(At(x))
    {
      Split(start);
      if end.Some? {
        Split(end.value);
      }
      ghost var m2 := mapping;
      var keys := set k | k in mapping && k != start && InRange(start, end, k);
      while keys != {}
        invariant forall k :: k in keys ==> k != start && InRange(start, end, k)
        invariant forall k :: k in mapping <==> k in m2 && (k in keys || !(k != start && InRange(start, end, k)))
        invariant forall k :: k in mapping ==> mapping[k] == m2[k]
        decreases keys
      {
        var k :| k in keys;
        mapping := map x | x in mapping && x != k :: mapping[x];
        keys := keys - {k};
      }
      assert mapping == ClearedRange(old(mapping), default_, start, end);
      forall x: U64
        ensures Lookup(mapping, default_, x) ==
                if InRange(start, end, x) then Lookup(old(mapping), default_, start) else Lookup(old(mapping), default_, x)
      {
        ClearedLookup(old(mapping), default_, start, end, x);
      }
    }
  }
}
