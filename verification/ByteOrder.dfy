/** Numbers spelled by bytes, in either order. */
module ByteOrders {
  import opened Prelude
  import opened Bits

  /** The number a sequence of bytes spells, the most significant first. */
  function BigEndian(bytes: seq<U8>): nat
  {
    if bytes == [] then 0 else BigEndian(bytes[..|bytes| - 1]) * 256 + bytes[|bytes| - 1]
  }

  lemma {:induction false} BigEndianBound(bytes: seq<U8>)
    ensures BigEndian(bytes) < Pow2(8 * |bytes|)
    decreases |bytes|
  {
    if bytes != [] {
      BigEndianBound(bytes[..|bytes| - 1]);
      Pow2Of64();
      Pow2Add(8 * |bytes| - 8, 8);
    }
  }

  lemma {:induction false} BigEndianAppend(x: seq<U8>, y: seq<U8>)
    ensures BigEndian(x + y) == BigEndian(x) * Pow2(8 * |y|) + BigEndian(y)
    decreases |y|
  {
    if y == [] {
      assert x + y == x;
    } else {
      assert (x + y)[..|x + y| - 1] == x + y[..|y| - 1];
      BigEndianAppend(x, y[..|y| - 1]);
      Pow2Of64();
      Pow2Add(8 * |y| - 8, 8);
      Horner(BigEndian(x), Pow2(8 * |y| - 8), BigEndian(y[..|y| - 1]), y[|y| - 1]);
    }
  }

  lemma Horner(u: nat, p: nat, v: nat, b: nat)
    ensures (u * p + v) * 256 + b == u * (p * 256) + (v * 256 + b)
  {
  }

  function Reversed(bytes: seq<U8>): (r: seq<U8>)
    ensures |r| == |bytes|
  {
    if bytes == [] then [] else [bytes[|bytes| - 1]] + Reversed(bytes[..|bytes| - 1])
  }

  lemma {:induction false} ReversedAt(bytes: seq<U8>, k: nat)
    requires k < |bytes|
    ensures Reversed(bytes)[k] == bytes[|bytes| - 1 - k]
    decreases |bytes|
  {
    if k > 0 {
      ReversedAt(bytes[..|bytes| - 1], k - 1);
    }
  }

  // ---- little-endian numbers ----

  /** The number a sequence of bytes spells, the least significant first. */
  function LittleEndian(bytes: seq<U8>): nat
  {
    if bytes == [] then 0 else bytes[0] + 256 * LittleEndian(bytes[1..])
  }

  lemma ReversedFront(b: U8, bytes: seq<U8>)
    ensures Reversed([b] + bytes) == Reversed(bytes) + [b]
    decreases |bytes|
  {
    var all := [b] + bytes;
    if bytes == [] {
      assert all[..0] == [];
    } else {
      assert all[..|all| - 1] == [b] + bytes[..|bytes| - 1];
      ReversedFront(b, bytes[..|bytes| - 1]);
    }
  }

  /** Reversing twice changes nothing. */
  lemma {:induction false} ReversedTwice(bytes: seq<U8>)
    ensures Reversed(Reversed(bytes)) == bytes
    decreases |bytes|
  {
    if bytes != [] {
      var front, last := bytes[..|bytes| - 1], bytes[|bytes| - 1];
      ReversedTwice(front);
      ReversedFront(last, Reversed(front));
      assert bytes == front + [last];
    }
  }

  /** The two orders spell the same number on reversed bytes. */
  lemma {:induction false} LittleIsReversedBig(bytes: seq<U8>)
    ensures LittleEndian(bytes) == BigEndian(Reversed(bytes))
    decreases |bytes|
  {
    if bytes != [] {
      var b, rest := bytes[0], bytes[1..];
      assert bytes == [b] + rest;
      ReversedFront(b, rest);
      LittleIsReversedBig(rest);
      assert (Reversed(rest) + [b])[..|rest|] == Reversed(rest);
    }
  }

  // ---- spelling numbers ----

  /** The low `k` bytes of a number, the most significant first. */
  function ToBig(v: nat, k: nat): (r: seq<U8>)
    ensures |r| == k
    decreases k
  {
    if k == 0 then [] else ToBig(v / 256, k - 1) + [v % 256]
  }

  /** The low `k` bytes, the least significant first. */
  function ToLittle(v: nat, k: nat): (r: seq<U8>)
    ensures |r| == k
    decreases k
  {
    if k == 0 then [] else [v % 256] + ToLittle(v / 256, k - 1)
  }

  /** The two spellings are reverses of each other. */
  lemma {:induction false} SpellingsReverse(v: nat, k: nat)
    ensures ToLittle(v, k) == Reversed(ToBig(v, k))
    decreases k
  {
    if k > 0 {
      SpellingsReverse(v / 256, k - 1);
      assert ToBig(v, k)[..k - 1] == ToBig(v / 256, k - 1);
    }
  }

  /** Spelling a number that fits and reading it gives it back. */
  lemma {:induction false} BigRoundTrip(v: nat, k: nat)
    requires v < Pow2(8 * k)
    ensures BigEndian(ToBig(v, k)) == v
    decreases k
  {
    if k > 0 {
      Pow2Of64();
      Pow2Add(8 * k - 8, 8);
      assert v / 256 < Pow2(8 * k - 8);
      BigRoundTrip(v / 256, k - 1);
      assert ToBig(v, k)[..k - 1] == ToBig(v / 256, k - 1);
    }
  }

  /** Reading bytes and spelling the number gives the bytes back. */
  lemma {:induction false} BytesRoundTrip(bytes: seq<U8>)
    ensures ToBig(BigEndian(bytes), |bytes|) == bytes
    decreases |bytes|
  {
    if bytes != [] {
      BytesRoundTrip(bytes[..|bytes| - 1]);
      assert bytes == bytes[..|bytes| - 1] + [bytes[|bytes| - 1]];
    }
  }

  /** Fewer bytes are the tail of more. */
  lemma {:induction false} ToBigTail(v: nat, k: nat, n: nat)
    requires k <= n
    ensures ToBig(v, n)[n - k..] == ToBig(v, k)
    decreases k
  {
    if k > 0 {
      ToBigTail(v / 256, k - 1, n - 1);
      assert ToBig(v, n)[n - k..] == ToBig(v / 256, n - 1)[n - k..] + [v % 256];
    }
  }

  function Zeros(n: nat): (r: seq<U8>)
    ensures |r| == n
  {
    if n == 0 then [] else Zeros(n - 1) + [0]
  }

  /** Leading zeros do not count. */
  lemma {:induction false} LeadingZeros(n: nat, bytes: seq<U8>)
    ensures BigEndian(Zeros(n)) == 0 && BigEndian(Zeros(n) + bytes) == BigEndian(bytes)
    decreases n
  {
    if n > 0 {
      LeadingZeros(n - 1, bytes);
      assert Zeros(n)[..n - 1] == Zeros(n - 1);
    }
    BigEndianAppend(Zeros(n), bytes);
  }

  /** The digits of a number, without leading zeros. */
  function Digits(v: nat): seq<U8>
  {
    if v == 0 then [] else Digits(v / 256) + [v % 256]
  }

  lemma {:induction false} DigitsFit(v: nat, k: nat)
    requires v < Pow2(8 * k)
    ensures |Digits(v)| <= k && ToBig(v, k) == Zeros(k - |Digits(v)|) + Digits(v)
    decreases k
  {
    if k > 0 {
      Pow2Of64();
      Pow2Add(8 * k - 8, 8);
      assert v / 256 < Pow2(8 * k - 8);
      DigitsFit(v / 256, k - 1);
      if v == 0 {
        assert Digits(0) == [];
      }
    }
  }
}
