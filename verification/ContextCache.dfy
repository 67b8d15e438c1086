/** The direct-mapped context cache with its occupancy bitmap
    (fugue-lifter-runtime/src/context.rs:326-439). */
module ContextCaches {
  import opened Prelude
  import opened Words
  import opened Bits

  const CACHE_SIZE: nat := 256
  const CACHE_WORDS: nat := 4
  const NO_ADDRESS: U64 := 0xffff_ffff_ffff_ffff

  /** `trailing_zeros` of a word with a set bit from `i` on: the lowest such bit. */
  function LowestFrom(w: nat, i: nat): (r: nat)
    requires i <= 64
    ensures i <= r <= 64 && (r < 64 ==> BitAt(w, r))
    ensures forall k :: i <= k < r ==> !BitAt(w, k)
    decreases 64 - i
  {
    if i == 64 || BitAt(w, i) then i else LowestFrom(w, i + 1)
  }

  /** A word that is not zero has a lowest set bit, and `w & (w - 1)` moves on past it. */
  lemma DropLowest(w: nat)
    requires 0 < w < Pow2(64)
    ensures var t := LowestFrom(w, 0); t < 64 && LowestFrom(And(w, w - 1), 0) > t
    ensures forall i: nat :: BitAt(And(w, w - 1), i) <==> i != LowestFrom(w, 0) && BitAt(w, i)
  {
    var t := LowestFrom(w, 0);
    if t == 64 {
      NoBits(w, 64);
    }
    var r := And(w, w - 1);
    forall k: nat
      ensures BitAt(r, k) <==> k != t && BitAt(w, k)
    {
      ClearLowest(w, t, k);
    }
  }

  /** The largest power of two dividing `n`, i.e. two to the number of trailing zeros. */
  function LowBit(n: nat): (r: nat)
    requires n > 0
    ensures r > 0
  {
    if n % 2 == 1 then 1 else 2 * LowBit(n / 2)
  }

  datatype CacheEntry = CacheEntry(address: U64, values: seq<Word>)

  class ContextCache {
    const entries: array<CacheEntry>
    const occupied: array<nat>
    const stride: nat

    ghost predicate Valid()
      reads this, occupied
    {
      && entries.Length == CACHE_SIZE && occupied.Length == CACHE_WORDS && stride > 0
      && entries as object != occupied as object
      && forall k :: 0 <= k < CACHE_WORDS ==> occupied[k] < Pow2(64)
    }

    constructor (alignment: nat)
      requires alignment > 0
      ensures Valid() && fresh(entries) && fresh(occupied)
      ensures forall i :: 0 <= i < CACHE_SIZE ==> !IsOccupied(i)
    {
      entries := new CacheEntry[CACHE_SIZE](_ => CacheEntry(NO_ADDRESS, []));
      occupied := new nat[CACHE_WORDS](_ => 0);
      stride := LowBit(alignment);
      new;
      forall i | 0 <= i < CACHE_SIZE
        ensures !IsOccupied(i)
      {
        ZeroBits(i % 64);
      }
    }

    function Index(address: U64): (i: nat)
      requires stride > 0
      ensures i < CACHE_SIZE
    {
      (address / stride) % CACHE_SIZE
    }

    predicate IsOccupied(i: nat)
      requires occupied.Length == CACHE_WORDS && i < CACHE_SIZE
      reads occupied
    {
      BitAt(occupied[i / 64], i % 64)
    }

    /** Claims the slot of `address`; reports whether it already held that address. */
    method Entry(address: U64) returns (hit: bool, index: nat)
      requires Valid()
      modifies entries, occupied
      ensures Valid() && index == Index(address)
      ensures hit <==> old(IsOccupied(index)) && old(entries[index].address) == address
      ensures entries[index] == old(entries[index]).(address := address)
      ensures forall i :: 0 <= i < CACHE_SIZE ==> (IsOccupied(i) <==> i == index || old(IsOccupied(i)))
      ensures forall i :: 0 <= i < CACHE_SIZE && i != index ==> entries[i] == old(entries[i])
    {
      index := Index(address);
      var word := occupied[index / 64];
      var bit := Pow2(index % 64);
      var was := And(word, bit) != 0;
      TestBit(word, index % 64);
      occupied[index / 64] := Or(word, bit);
      hit := was && entries[index].address == address;
      entries[index] := entries[index].(address := address);
      BitFits(index % 64);
      OrBound(word, bit, 64);
      forall i | 0 <= i < CACHE_SIZE
        ensures IsOccupied(i) <==> i == index || old(IsOccupied(i))
      {
        if i / 64 == index / 64 {
          BitAtOr(word, bit, i % 64);
          BitAtPow2(index % 64, i % 64);
          assert i % 64 == index % 64 <==> i == index;
        }
      }
    }

    /** Fills the values of a claimed slot. */
    method Fill(index: nat, values: seq<Word>)
      requires Valid() && index < CACHE_SIZE
      modifies entries
      ensures entries[index] == old(entries[index]).(values := values)
      ensures forall i :: 0 <= i < CACHE_SIZE && i != index ==> entries[i] == old(entries[i])
    {
      entries[index] := entries[index].(values := values);
    }

    /** Empties the cache, walking the set bits of the bitmap word by word. */
    method Clear()
      requires Valid()
      modifies entries, occupied
      ensures Valid()
      ensures forall i :: 0 <= i < CACHE_SIZE ==> !IsOccupied(i)
      ensures forall i :: 0 <= i < CACHE_SIZE ==>
                entries[i] == if old(IsOccupied(i)) then old(entries[i]).(address := NO_ADDRESS) else old(entries[i])
    {
      var w := 0;
      while w < CACHE_WORDS
        invariant 0 <= w <= CACHE_WORDS
        invariant forall k :: 0 <= k < CACHE_WORDS ==> occupied[k] == if k < w then 0 else old(occupied[k])
        invariant forall i :: 0 <= i < CACHE_SIZE ==>
          entries[i] == if i < 64 * w && old(IsOccupied(i)) then old(entries[i]).(address := NO_ADDRESS)
                        else old(entries[i])
      {
        ClearWord(w);
        forall i | 64 * w <= i < 64 * w + 64
          ensures old(IsOccupied(i)) == BitAt(old(occupied[w]), i - 64 * w)
        {
          assert i / 64 == w && i % 64 == i - 64 * w;
        }
        w := w + 1;
      }
      forall i | 0 <= i < CACHE_SIZE
        ensures !IsOccupied(i)
      {
        assert occupied[i / 64] == 0;
        ZeroBits(i % 64);
      }
    }

    /** One word of the bitmap: takes it and visits its set bits from the lowest up. */
    method ClearWord(w: nat)
      requires Valid() && w < CACHE_WORDS
      modifies entries, occupied
      ensures occupied[w] == 0 && forall k :: 0 <= k < CACHE_WORDS && k != w ==> occupied[k] == old(occupied[k])
      ensures forall i :: 0 <= i < CACHE_SIZE && !(64 * w <= i < 64 * w + 64) ==> entries[i] == old(entries[i])
      ensures forall i :: 64 * w <= i < 64 * w + 64 ==>
                entries[i] == if BitAt(old(occupied[w]), i - 64 * w) then old(entries[i]).(address := NO_ADDRESS)
                              else old(entries[i])
    {
      var all := occupied[w];
      occupied[w] := 0;
      FreeMarked(w, all);
    }

    /** Visits the set bits of `bits` from the lowest up and frees their slots. */
    method FreeMarked(w: nat, all: nat)
      requires all < Pow2(64) && entries.Length == CACHE_SIZE && w < CACHE_WORDS
      modifies entries
      ensures forall i :: 0 <= i < CACHE_SIZE && !(64 * w <= i < 64 * w + 64) ==> entries[i] == old(entries[i])
      ensures forall i :: 64 * w <= i < 64 * w + 64 ==>
                entries[i] == if BitAt(all, i - 64 * w) then old(entries[i]).(address := NO_ADDRESS) else old(entries[i])
    {
      var bits := all;
      ghost var start := entries[..];
      VisitedNone(start, w, all);
      while bits != 0
        invariant 0 <= bits < Pow2(64) && BitsOf(bits, all) && Visited(entries[..], start, w, all, bits)
        decreases 64 - LowestFrom(bits, 0)
      {
        ghost var before := entries[..];
        NextLowest(bits, all);
        VisitedNext(before, start, w, all, bits);
        var bit := LowestFrom(bits, 0);
        entries[w * 64 + bit] := entries[w * 64 + bit].(address := NO_ADDRESS);
        bits := And(bits, bits - 1);
        assert entries[..] == Freed(before, w * 64 + bit);
      }
      VisitedEvery(entries[..], start, w, all);
    }
  }

  function Freed(es: seq<CacheEntry>, i: nat): seq<CacheEntry>
    requires i < |es|
  {
    es[i := es[i].(address := NO_ADDRESS)]
  }

  /** The entries during the walk over word `w`: those whose bits were visited are free. */
  ghost predicate Visited(now: seq<CacheEntry>, was: seq<CacheEntry>, w: nat, all: nat, bits: nat)
  {
    && |now| == |was| == CACHE_SIZE
    && forall i :: 0 <= i < CACHE_SIZE ==> now[i] == Visit(was[i], i - 64 * w, all, bits)
  }

  ghost function Visit(e: CacheEntry, i: int, all: nat, bits: nat): CacheEntry
  {
    if 0 <= i < 64 && BitAt(all, i) && !BitAt(bits, i) then e.(address := NO_ADDRESS) else e
  }

  lemma VisitedNone(es: seq<CacheEntry>, w: nat, all: nat)
    requires |es| == CACHE_SIZE
    ensures Visited(es, es, w, all, all)
  {
  }

  lemma VisitedNext(now: seq<CacheEntry>, was: seq<CacheEntry>, w: nat, all: nat, bits: nat)
    requires 0 < bits < Pow2(64) && BitsOf(bits, all) && w < CACHE_WORDS && Visited(now, was, w, all, bits)
    ensures LowestFrom(bits, 0) < 64
    ensures Visited(Freed(now, w * 64 + LowestFrom(bits, 0)), was, w, all, And(bits, bits - 1))
  {
    var t := LowestFrom(bits, 0);
    LowestSet(bits);
    var next := Freed(now, w * 64 + t);
    forall i | 0 <= i < CACHE_SIZE
      ensures next[i] == Visit(was[i], i - 64 * w, all, And(bits, bits - 1))
    {
      VisitNext(was[i], i - 64 * w, all, bits);
    }
  }

  lemma LowestSet(bits: nat)
    requires 0 < bits < Pow2(64)
    ensures LowestFrom(bits, 0) < 64
  {
    DropLowest(bits);
  }

  lemma VisitNext(e: CacheEntry, i: int, all: nat, bits: nat)
    requires 0 < bits < Pow2(64) && BitsOf(bits, all)
    ensures var was, now := Visit(e, i, all, bits), Visit(e, i, all, And(bits, bits - 1));
            now == if i == LowestFrom(bits, 0) then was.(address := NO_ADDRESS) else was
  {
    DropLowest(bits);
  }

  lemma VisitedEvery(now: seq<CacheEntry>, was: seq<CacheEntry>, w: nat, all: nat)
    requires w < CACHE_WORDS && Visited(now, was, w, all, 0)
    ensures forall i :: 0 <= i < CACHE_SIZE && !(64 * w <= i < 64 * w + 64) ==> now[i] == was[i]
    ensures forall i :: 64 * w <= i < 64 * w + 64 ==>
              now[i] == if BitAt(all, i - 64 * w) then was[i].(address := NO_ADDRESS) else was[i]
  {
    forall i: nat
      ensures !BitAt(0, i)
    {
      ZeroBits(i);
    }
  }

  ghost predicate BitsOf(bits: nat, all: nat)
  {
    forall i: nat :: BitAt(bits, i) ==> BitAt(all, i)
  }

  lemma NextLowest(bits: nat, all: nat)
    requires 0 < bits < Pow2(64) && BitsOf(bits, all)
    ensures var t := LowestFrom(bits, 0); t < 64 && LowestFrom(And(bits, bits - 1), 0) > t
    ensures BitsOf(And(bits, bits - 1), all)
  {
    DropLowest(bits);
  }

  lemma TestBit(w: nat, i: nat)
    ensures And(w, Pow2(i)) != 0 <==> BitAt(w, i)
  {
    BitAtAnd(w, Pow2(i), i);
    BitAtPow2(i, i);
    if And(w, Pow2(i)) == 0 {
      ZeroBits(i);
    } else if !BitAt(w, i) {
      forall k | 0 <= k <= i
        ensures !BitAt(And(w, Pow2(i)), k)
      {
        BitAtAnd(w, Pow2(i), k);
        BitAtPow2(i, k);
      }
      NoBits(And(w, Pow2(i)), i + 1);
    }
  }

  lemma BitFits(i: nat)
    requires i < 64
    ensures Pow2(i) < Pow2(64)
  {
    Pow2Monotone(i + 1, 64);
  }
}
