/** Byte encodings of bit vectors (fugue-bv/src/lib.rs:38-43, 187-221, 858-879). */
module BitVecBytes {
  import opened Prelude
  import opened Bits
  import opened Modular
  import opened ByteOrders
  import opened BitVecs

  /** The bytes a width needs. */
  function BytesFor(bits: nat): nat
  {
    (bits + 7) / 8
  }

  lemma BytesHold(bits: nat)
    ensures bits <= 8 * BytesFor(bits) && Pow2(bits) <= Pow2(8 * BytesFor(bits))
  {
    Pow2Monotone(bits, 8 * BytesFor(bits));
  }

  /** `u64::from_be_bytes` of a buffer padded in front. */
  lemma EightBytes(bytes: seq<U8>)
    requires |bytes| <= 8
    ensures BigEndian(Zeros(8 - |bytes|) + bytes) == BigEndian(bytes)
  {
    var n := 8 - |bytes|;
    LeadingZeros(n, bytes);
  }

  lemma EightBytesFit(bytes: seq<U8>)
    requires |bytes| <= 8
    ensures BigEndian(bytes) < TWO_64
  {
    var n := 8 * |bytes|;
    BigEndianBound(bytes);
    Pow2Monotone(n, 64);
    Pow2Of64();
  }

  method FromBeBytes(buffer: seq<U8>, bits: nat) returns (r: BitVec)
    requires 1 <= bits <= MAX_BITS && |buffer| == BytesFor(bits)
    ensures fresh(r) && r.Valid() && r.bits == bits && !r.isSigned
    ensures r.Value() == Wrap(bits, BigEndian(buffer))
  {
    if bits <= 64 {
      EightBytes(buffer);
      EightBytesFit(buffer);
      var raw := Zeros(8 - |buffer|) + buffer;
      r := new BitVec.FromSmall(BigEndian(raw), bits, false);
    } else {
      r := new BitVec.FromLarge(BigEndian(buffer), bits, false);
    }
  }

  method FromLeBytes(buffer: seq<U8>, bits: nat) returns (r: BitVec)
    requires 1 <= bits <= MAX_BITS && |buffer| == BytesFor(bits)
    ensures fresh(r) && r.Valid() && r.bits == bits && !r.isSigned
    ensures r.Value() == Wrap(bits, LittleEndian(buffer))
  {
    if bits <= 64 {
      var raw := buffer + Zeros(8 - |buffer|);
      TrailingZeros(buffer, 8 - |buffer|);
      LittleIsReversedBig(buffer);
      EightBytesFit(Reversed(buffer));
      r := new BitVec.FromSmall(LittleEndian(raw), bits, false);
    } else {
      r := new BitVec.FromLarge(LittleEndian(buffer), bits, false);
    }
  }

  lemma {:induction false} TrailingZeros(bytes: seq<U8>, n: nat)
    ensures LittleEndian(bytes + Zeros(n)) == LittleEndian(bytes)
    decreases |bytes|
  {
    var all := bytes + Zeros(n);
    if bytes == [] {
      assert all == Zeros(n);
      ZerosLittle(n);
    } else {
      assert all[1..] == bytes[1..] + Zeros(n);
      TrailingZeros(bytes[1..], n);
    }
  }

  lemma {:induction false} ZerosLittle(n: nat)
    ensures LittleEndian(Zeros(n)) == 0 && forall i :: 0 <= i < n ==> Zeros(n)[i] == 0
    decreases n
  {
    if n > 0 {
      ZerosLittle(n - 1);
      var z := Zeros(n);
      assert z[1..] == Zeros(n - 1) by {
        forall i | 0 <= i < n - 1
          ensures z[1..][i] == Zeros(n - 1)[i]
        {
        }
      }
    }
  }

  /** Fills the buffer with the value, the most significant byte first. */
  method ToBeBytes(v: BitVec, buffer: array<U8>)
    requires v.Valid() && buffer.Length == BytesFor(v.bits)
    modifies buffer
    ensures buffer[..] == ToBig(v.Value(), buffer.Length)
  {
    var n := buffer.Length;
    if v.bits <= 64 {
      ToBigTail(v.small, n, 8);
      var raw := ToBig(v.small, 8);
      forall i | 0 <= i < n {
        buffer[i] := raw[8 - n + i];
      }
    } else {
      BytesHold(v.bits);
      DigitsFit(v.large, n);
      var digits := Digits(v.large);
      var split := n - |digits|;
      ZerosLittle(split);
      forall i | 0 <= i < n {
        buffer[i] := if i < split then 0 else digits[i - split];
      }
    }
  }

  /** Fewer bytes are the front of more. */
  lemma {:induction false} ToLittleFront(v: nat, k: nat, n: nat)
    requires k <= n
    ensures ToLittle(v, n)[..k] == ToLittle(v, k)
    decreases k
  {
    if k > 0 {
      ToLittleFront(v / 256, k - 1, n - 1);
    }
  }

  /** The digits of a number that fits, least significant first, and zeros above them. */
  lemma {:induction false} LittleDigits(v: nat, k: nat)
    requires v < Pow2(8 * k)
    ensures |Digits(v)| <= k
    ensures forall i :: 0 <= i < k ==>
              ToLittle(v, k)[i] == if i < |Digits(v)| then Reversed(Digits(v))[i] else 0
    decreases k
  {
    if k > 0 {
      Pow2Of64();
      Pow2Add(8 * k - 8, 8);
      LittleDigits(v / 256, k - 1);
      if v > 0 {
        assert Digits(v)[..|Digits(v)| - 1] == Digits(v / 256);
      }
    }
  }

  /** Fills the buffer with the value, the least significant byte first. */
  method ToLeBytes(v: BitVec, buffer: array<U8>)
    requires v.Valid() && buffer.Length == BytesFor(v.bits)
    modifies buffer
    ensures buffer[..] == ToLittle(v.Value(), buffer.Length)
  {
    var n := buffer.Length;
    if v.bits <= 64 {
      ToLittleFront(v.small, n, 8);
      var raw := ToLittle(v.small, 8);
      forall i | 0 <= i < n {
        buffer[i] := raw[i];
      }
    } else {
      BytesHold(v.bits);
      LittleDigits(v.large, n);
      var digits := Reversed(Digits(v.large));
      forall i | 0 <= i < n {
        buffer[i] := if i < |digits| then digits[i] else 0;
      }
    }
  }

  // ---- round trips ----

  /** Every value reads back from its bytes, in either order, for every width. */
  lemma ValueRoundTrip(bits: nat, v: nat)
    requires v < Pow2(bits)
    ensures Wrap(bits, BigEndian(ToBig(v, BytesFor(bits)))) == v
    ensures Wrap(bits, LittleEndian(ToLittle(v, BytesFor(bits)))) == v
  {
    var k := BytesFor(bits);
    BytesHold(bits);
    BigRoundTrip(v, k);
    SpellingsReverse(v, k);
    LittleIsReversedBig(ToLittle(v, k));
    ReversedTwice(ToBig(v, k));
    WrapSmall(bits, v);
  }

  /** Bytes come back exactly when the bits of the first byte above the width are clear. */
  lemma BytesRoundTripExactly(bits: nat, bytes: seq<U8>)
    requires |bytes| == BytesFor(bits)
    ensures ToBig(Wrap(bits, BigEndian(bytes)), |bytes|) == bytes <==> BigEndian(bytes) < Pow2(bits)
    ensures ToLittle(Wrap(bits, LittleEndian(bytes)), |bytes|) == bytes <==> LittleEndian(bytes) < Pow2(bits)
  {
    BigBytesExactly(bits, bytes);
    BigBytesExactly(bits, Reversed(bytes));
    LittleIsReversedBig(bytes);
    ReversedTwice(bytes);
    var v := Wrap(bits, LittleEndian(bytes));
    SpellingsReverse(v, |bytes|);
    ReversedTwice(ToBig(v, |bytes|));
  }

  lemma BigBytesExactly(bits: nat, bytes: seq<U8>)
    requires |bytes| == BytesFor(bits)
    ensures ToBig(Wrap(bits, BigEndian(bytes)), |bytes|) == bytes <==> BigEndian(bytes) < Pow2(bits)
  {
    var v := Wrap(bits, BigEndian(bytes));
    BytesHold(bits);
    BigRoundTrip(v, |bytes|);
    if BigEndian(bytes) < Pow2(bits) {
      WrapSmall(bits, BigEndian(bytes));
      BytesRoundTrip(bytes);
    }
  }

  /** A width that fills its bytes loses nothing. */
  lemma WholeBytesRoundTrip(bytes: seq<U8>)
    ensures ToBig(Wrap(8 * |bytes|, BigEndian(bytes)), |bytes|) == bytes
    ensures ToLittle(Wrap(8 * |bytes|, LittleEndian(bytes)), |bytes|) == bytes
  {
    BytesRoundTripExactly(8 * |bytes|, bytes);
    BigEndianBound(bytes);
    BigEndianBound(Reversed(bytes));
    LittleIsReversedBig(bytes);
  }
}
