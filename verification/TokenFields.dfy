/** Reading token fields: instruction bytes, byte order, shifting and extension on 64-bit values
    (fugue-lifter-runtime/src/lib.rs:71-108, fugue-lifter-runtime/src/input.rs:361-382,
    fugue-lifter-runtime/src/pattern.rs:193-253). Values are kept as the 64 bits they have. */
module TokenFields {
  import opened Prelude
  import opened Bits
  import opened ByteOrders

  const MAX_INSN_BYTES: nat := 16

  // ---- 64-bit operations ----

  function Or64(a: U64, b: U64): U64
  {
    Pow2Of64();
    OrBound(a, b, 64);
    Or(a, b)
  }

  function And64(a: U64, b: U64): U64
  {
    And(a, b)
  }

  function Not64(a: U64): U64
  {
    TWO_64 - 1 - a
  }

  /** `checked_shl(k).unwrap_or(0)`. */
  function Shl64(a: U64, k: nat): U64
  {
    if k < 64 then ToU64(ShiftLeft(a, k)) else 0
  }

  /** The bits from `k` up to 64. */
  function HighBits(k: nat): (r: U64)
    requires k <= 64
  {
    Pow2Of64();
    Pow2Monotone(k, 64);
    Pow2(64) - Pow2(k)
  }

  /** The arithmetic `checked_shr(k)`, which fills with the sign. */
  function Sar64(a: U64, k: nat): U64
  {
    var negative := Signed64(a) < 0;
    if k >= 64 then (if negative then TWO_64 - 1 else 0)
    else Or64(ShiftRight(a, k), if negative then HighBits(64 - k) else 0)
  }

  lemma BitAtHighBits(k: nat, i: nat)
    requires k <= 64
    ensures BitAt(HighBits(k), i) <==> k <= i < 64
  {
    BitAtDifference(k, 64, i);
  }

  lemma BitAtNot64(a: U64, i: nat)
    ensures BitAt(Not64(a), i) <==> i < 64 && !BitAt(a, i)
  {
    Pow2Of64();
    BitAtComplement(a, 64, i);
  }

  lemma BitAtShl64(a: U64, k: nat, i: nat)
    ensures BitAt(Shl64(a, k), i) <==> k <= i < 64 && BitAt(a, i - k)
  {
    Pow2Of64();
    if k < 64 {
      BitAtMod(ShiftLeft(a, k), 64, i);
      BitAtShl(a, k, i);
    } else {
      ZeroBits(i);
    }
  }

  /** Below the sign fill, the arithmetic shift moves bits down. */
  lemma BitAtSar64(a: U64, k: nat, i: nat)
    requires i + k < 64
    ensures BitAt(Sar64(a, k), i) <==> BitAt(a, i + k)
  {
    var fill := if Signed64(a) < 0 then HighBits(64 - k) else 0;
    BitAtOr(ShiftRight(a, k), fill, i);
    BitAtShr(a, k, i);
    BitAtHighBits(64 - k, i);
    ZeroBits(i);
  }

  // ---- byte order ----

  /** Bit `k` of the number that a token's bytes spell in its byte order. */
  predicate TokenBit(bytes: seq<U8>, bigEndian: bool, k: nat)
    requires k < 8 * |bytes|
  {
    BitAt(bytes[if bigEndian then |bytes| - 1 - k / 8 else k / 8], k % 8)
  }

  lemma BitAtByte(x: nat, b: U8, k: nat)
    ensures BitAt(x * 256 + b, k) <==> if k < 8 then BitAt(b, k) else BitAt(x, k - 8)
  {
    Pow2Of64();
    OrDisjoint(x, b, 8);
    BitAtOr(x * 256, b, k);
    ShiftLeftMultiplies(x, 8);
    BitAtShl(x, 8, k);
    if BitAt(b, k) {
      BitAtBound(b, 8, k);
    }
  }

  lemma {:induction false} BigEndianBits(bytes: seq<U8>, k: nat)
    ensures BitAt(BigEndian(bytes), k) <==> k < 8 * |bytes| && TokenBit(bytes, true, k)
    decreases |bytes|
  {
    if bytes == [] {
      ZeroBits(k);
    } else {
      var front := bytes[..|bytes| - 1];
      BitAtByte(BigEndian(front), bytes[|bytes| - 1], k);
      if k >= 8 {
        BigEndianBits(front, k - 8);
      }
    }
  }

  /** Shifting left and or-ing new low bits in. */
  lemma ShiftInBit(a: U64, b: U64, k: nat, i: nat)
    requires 0 < k < 64 && b < Pow2(k)
    ensures BitAt(Or64(Shl64(a, k), b), i) <==> i < 64 && ((i >= k && BitAt(a, i - k)) || BitAt(b, i))
  {
    BitAtOr(Shl64(a, k), b, i);
    BitAtShl64(a, k, i);
    if BitAt(b, i) {
      BitAtBound(b, k, i);
    }
  }

  lemma ShiftIn(a: U64, b: U64, k: nat)
    requires 0 < k < 64 && b < Pow2(k)
    ensures Or64(Shl64(a, k), b) == ToU64(a * Pow2(k) + b)
  {
    Pow2Of64();
    ShiftLeftMultiplies(a, k);
    OrDisjoint(a, b, k);
    forall i: nat
      ensures BitAt(Or64(Shl64(a, k), b), i) <==> BitAt((a * Pow2(k) + b) % Pow2(64), i)
    {
      ShiftInBit(a, b, k, i);
      BitAtMod(a * Pow2(k) + b, 64, i);
      BitAtOr(a * Pow2(k), b, i);
      BitAtShl(a, k, i);
    }
    Extensional(Or64(Shl64(a, k), b), (a * Pow2(k) + b) % Pow2(64));
  }

  // ---- reading bytes ----

  /** The bytes of the instruction buffer from `at` on, as far as they go. */
  function BytesAt(buffer: seq<U8>, at: nat, size: nat): (r: Option<U64>)
    requires |buffer| == MAX_INSN_BYTES && size <= 4
  {
    if at > MAX_INSN_BYTES then None
    else
      var bytes := buffer[at..if at + size < MAX_INSN_BYTES then at + size else MAX_INSN_BYTES];
      ChunkBound(bytes);
      Some(BigEndian(bytes))
  }

  lemma ChunkBound(bytes: seq<U8>)
    requires |bytes| <= 4
    ensures BigEndian(bytes) < 0x1_0000_0000 && (|bytes| < 4 ==> BigEndian(bytes) < 0x100_0000)
  {
    BigEndianBound(bytes);
    Pow2Monotone(8 * |bytes|, if |bytes| < 4 then 24 else 32);
    Pow2Add(16, 8);
    Pow2Of64();
  }

  lemma ByteIn(x: nat, b: U8)
    requires x < 0x100_0000
    ensures Or(ShiftLeft(x, 8) % 0x1_0000_0000, b) == x * 256 + b
  {
    ShiftedByte(x);
    Pow2Of64();
    OrDisjoint(x, b, 8);
  }

  lemma ShiftedByte(x: nat)
    requires x < 0x100_0000
    ensures ShiftLeft(x, 8) % 0x1_0000_0000 == x * Pow2(8) == x * 256
  {
    ShiftLeftMultiplies(x, 8);
    Pow2Of64();
    assert x * Pow2(8) == x * 256;
  }

  method InstructionBytes(buffer: seq<U8>, start: nat, size: nat, offset: nat) returns (r: Option<U64>)
    requires |buffer| == MAX_INSN_BYTES && size <= 4
    ensures r == BytesAt(buffer, offset + start, size)
  {
    var at := offset + start;
    if at > MAX_INSN_BYTES {
      return None;
    }
    var end := if at + size < MAX_INSN_BYTES then at + size else MAX_INSN_BYTES;
    var result: nat := 0;
    for i := at to end
      invariant result == BigEndian(buffer[at..i])
    {
      ChunkBound(buffer[at..i]);
      ByteIn(result, buffer[i]);
      result := Or(ShiftLeft(result, 8) % 0x1_0000_0000, buffer[i]);
      assert buffer[at..i + 1][..i - at] == buffer[at..i];
    }
    ChunkBound(buffer[at..end]);
    r := Some(result);
  }

  /** Reading the bytes from `start` to `byteEnd` on top of `res`, four at a time. */
  function ReadFrom(buffer: seq<U8>, offset: nat, start: nat, byteEnd: nat, res: U64): (r: Option<U64>)
    requires |buffer| == MAX_INSN_BYTES && start <= byteEnd + 1
    decreases byteEnd + 1 - start
  {
    var size := byteEnd + 1 - start;
    if size >= 4 then
      var tmp :- BytesAt(buffer, offset + start, 4);
      ReadFrom(buffer, offset, start + 4, byteEnd, Or64(Shl64(res, 32), tmp))
    else if size > 0 then
      var tmp :- BytesAt(buffer, offset + start, size);
      Some(Or64(Shl64(res, 8 * size), tmp))
    else Some(res)
  }

  lemma ModStep(a: nat, p: nat, b: nat)
    ensures ToU64(ToU64(a) * p + b) == ToU64(a * p + b)
  {
    var q, r: nat := a / TWO_64, a % TWO_64;
    assert a * p + b == TWO_64 * (q * p) + (r * p + b);
    var h, l: nat := (r * p + b) / TWO_64, (r * p + b) % TWO_64;
    assert TWO_64 * (q * p) + TWO_64 * h == TWO_64 * (q * p + h);
    ModUnique(a * p + b, TWO_64, q * p + h, l);
  }

  lemma Chunk(a: nat, p: nat, x: nat, q: nat, y: nat)
    ensures (a * p + x) * q + y == a * (p * q) + (x * q + y)
  {
    assert (a * p) * q == a * (p * q);
  }

  /** `res` with bytes appended below it, of which 64 bits are kept. */
  function Extended(res: U64, bytes: seq<U8>): U64
  {
    ToU64(res * Pow2(8 * |bytes|) + BigEndian(bytes))
  }

  /** Appending some bytes and then others appends them all. */
  lemma ExtendedTwice(res: U64, x: seq<U8>, y: seq<U8>)
    ensures Extended(Extended(res, x), y) == Extended(res, x + y)
  {
    BigEndianAppend(x, y);
    Pow2Add(8 * |x|, 8 * |y|);
    assert 8 * |x + y| == 8 * |x| + 8 * |y|;
    ExtendedArithmetic(res, Pow2(8 * |x|), BigEndian(x), Pow2(8 * |y|), BigEndian(y), Pow2(8 * |x + y|), BigEndian(x + y));
  }

  lemma ExtendedArithmetic(res: nat, p: nat, x: nat, q: nat, y: nat, pq: nat, xy: nat)
    requires pq == p * q && xy == x * q + y
    ensures ToU64(ToU64(res * p + x) * q + y) == ToU64(res * pq + xy)
  {
    ModStep(res * p + x, q, y);
    Chunk(res, p, x, q, y);
  }

  lemma ExtendedNothing(res: U64)
    ensures Extended(res, []) == res
  {
  }

  lemma ExtendedBits(res: U64, x: seq<U8>)
    requires 0 < |x| <= 4
    ensures BigEndian(x) < TWO_64 && Or64(Shl64(res, 8 * |x|), BigEndian(x)) == Extended(res, x)
  {
    ChunkBound(x);
    BigEndianBound(x);
    ShiftIn(res, BigEndian(x), 8 * |x|);
  }

  /** Bytes that lie within the buffer are read completely, whatever their number. */
  lemma {:induction false} ReadFits(buffer: seq<U8>, offset: nat, start: nat, byteEnd: nat, res: U64)
    requires |buffer| == MAX_INSN_BYTES && start <= byteEnd + 1 && offset + byteEnd < MAX_INSN_BYTES
    ensures ReadFrom(buffer, offset, start, byteEnd, res) == Some(Extended(res, buffer[offset + start..offset + byteEnd + 1]))
    decreases byteEnd + 1 - start
  {
    var size := byteEnd + 1 - start;
    var bytes := buffer[offset + start..offset + byteEnd + 1];
    if size >= 4 {
      var x, y := buffer[offset + start..offset + start + 4], buffer[offset + start + 4..offset + byteEnd + 1];
      assert bytes == x + y;
      ExtendedBits(res, x);
      ReadFits(buffer, offset, start + 4, byteEnd, Extended(res, x));
      ExtendedTwice(res, x, y);
    } else if size > 0 {
      ExtendedBits(res, bytes);
    } else {
      assert bytes == [];
      ExtendedNothing(res);
    }
  }

  /** Up to four bytes that reach past the buffer: the read fails only if it starts past the end;
      otherwise it has the bytes that are there, moved down as if the others did not exist. */
  lemma ReadPastEnd(buffer: seq<U8>, offset: nat, start: nat, byteEnd: nat)
    requires |buffer| == MAX_INSN_BYTES && start <= byteEnd < start + 4 && offset + byteEnd >= MAX_INSN_BYTES
    ensures var r := ReadFrom(buffer, offset, start, byteEnd, 0);
            && (r.None? <==> offset + start > MAX_INSN_BYTES)
            && (r.Some? ==> r.value == BigEndian(buffer[offset + start..]))
  {
    if offset + start <= MAX_INSN_BYTES {
      var bytes := buffer[offset + start..];
      var size := byteEnd + 1 - start;
      assert bytes == buffer[offset + start..MAX_INSN_BYTES];
      ChunkBound(bytes);
      ShiftNothing(8 * size);
      assert BytesAt(buffer, offset + start, size) == Some(BigEndian(bytes));
    }
  }

  lemma ShiftNothing(k: nat)
    ensures Shl64(0, k) == 0
  {
    forall i: nat
      ensures BitAt(Shl64(0, k), i) <==> BitAt(0, i)
    {
      BitAtShl64(0, k, i);
      ZeroBits(i);
      if i >= k {
        ZeroBits(i - k);
      }
    }
    Extensional(Shl64(0, k), 0);
  }

  ghost predicate ReadsTo(buffer: seq<U8>, offset: nat, start: nat, byteEnd: nat, res: U64, goal: Option<U64>)
  {
    |buffer| == MAX_INSN_BYTES && start <= byteEnd + 1 && ReadFrom(buffer, offset, start, byteEnd, res) == goal
  }

  lemma ReadWord(buffer: seq<U8>, offset: nat, start: nat, byteEnd: nat, res: U64, tmp: Option<U64>, goal: Option<U64>)
    requires ReadsTo(buffer, offset, start, byteEnd, res, goal) && byteEnd + 1 - start >= 4
    requires tmp == BytesAt(buffer, offset + start, 4)
    ensures if tmp.None? then goal == None
            else ReadsTo(buffer, offset, start + 4, byteEnd, Or64(Shl64(res, 32), tmp.value), goal)
  {
  }

  lemma ReadRest(buffer: seq<U8>, offset: nat, start: nat, byteEnd: nat, res: U64, tmp: Option<U64>, goal: Option<U64>)
    requires ReadsTo(buffer, offset, start, byteEnd, res, goal) && 0 < byteEnd + 1 - start < 4
    requires tmp == BytesAt(buffer, offset + start, byteEnd + 1 - start)
    ensures goal == if tmp.None? then None else Some(Or64(Shl64(res, 8 * (byteEnd + 1 - start)), tmp.value))
  {
  }

  lemma ReadNothing(buffer: seq<U8>, offset: nat, byteEnd: nat, res: U64, goal: Option<U64>)
    requires ReadsTo(buffer, offset, byteEnd + 1, byteEnd, res, goal)
    ensures goal == Some(res)
  {
  }

  method ReadToken(buffer: seq<U8>, offset: nat, byteStart: nat, byteEnd: nat) returns (r: Option<U64>)
    requires |buffer| == MAX_INSN_BYTES && byteStart <= byteEnd
    ensures r == ReadFrom(buffer, offset, byteStart, byteEnd, 0)
  {
    var res: U64, start: nat, size: nat := 0, byteStart, byteEnd - byteStart + 1;
    ghost var goal := ReadFrom(buffer, offset, start, byteEnd, res);
    while size >= 4
      invariant size == byteEnd + 1 - start && ReadsTo(buffer, offset, start, byteEnd, res, goal)
    {
      var tmp := InstructionBytes(buffer, start, 4, offset);
      ReadWord(buffer, offset, start, byteEnd, res, tmp, goal);
      if tmp.None? {
        return None;
      }
      res := Or64(Shl64(res, 32), tmp.value);
      start := start + 4;
      size := byteEnd + 1 - start;
    }
    if size > 0 {
      var tmp := InstructionBytes(buffer, start, size, offset);
      ReadRest(buffer, offset, start, byteEnd, res, tmp, goal);
      if tmp.None? {
        return None;
      }
      res := Or64(Shl64(res, 8 * size), tmp.value);
    } else {
      ReadNothing(buffer, offset, byteEnd, res, goal);
    }
    r := Some(res);
  }

  // ---- swapping bytes ----

  function SwapFrom(res: U64, value: U64, size: nat): U64
    decreases size
  {
    if size == 0 then res else SwapFrom(Or64(Shl64(res, 8), And64(value, 0xff)), Sar64(value, 8), size - 1)
  }

  ghost predicate SwapsTo(res: U64, value: U64, size: nat, goal: U64)
  {
    SwapFrom(res, value, size) == goal
  }

  lemma SwapStep(res: U64, value: U64, size: nat, goal: U64)
    requires SwapsTo(res, value, size, goal)
    ensures if size == 0 then res == goal
            else SwapsTo(Or64(Shl64(res, 8), And64(value, 0xff)), Sar64(value, 8), size - 1, goal)
  {
  }

  method ByteSwap(value: U64, size: nat) returns (r: U64)
    ensures r == SwapFrom(0, value, size)
  {
    var val: U64, n: nat := value, size;
    r := 0;
    ghost var goal := SwapFrom(r, val, n);
    while n > 0
      invariant SwapsTo(r, val, n, goal)
    {
      SwapStep(r, val, n, goal);
      r := Shl64(r, 8);
      r := Or64(r, And64(val, 0xff));
      val := Sar64(val, 8);
      n := n - 1;
    }
  }

  /** The low bits of `value` are those bytes. */
  ghost predicate EndsIn(value: U64, bytes: seq<U8>)
  {
    forall k :: 0 <= k < 8 * |bytes| ==> SameBit(value, bytes, k)
  }

  ghost predicate SameBit(value: U64, bytes: seq<U8>, k: nat)
    requires k < 8 * |bytes|
  {
    BitAt(value, k) <==> TokenBit(bytes, true, k)
  }

  lemma LowByte(value: U64, bytes: seq<U8>)
    requires bytes != [] && EndsIn(value, bytes)
    ensures And64(value, 0xff) == bytes[|bytes| - 1]
  {
    forall k: nat
      ensures BitAt(And64(value, 0xff), k) <==> BitAt(bytes[|bytes| - 1], k)
    {
      LowByteBit(value, bytes, k);
    }
    Extensional(And64(value, 0xff), bytes[|bytes| - 1]);
  }

  lemma LowByteBit(value: U64, bytes: seq<U8>, k: nat)
    requires bytes != [] && EndsIn(value, bytes)
    ensures BitAt(And64(value, 0xff), k) <==> BitAt(bytes[|bytes| - 1], k)
  {
    BitAtAnd(value, 0xff, k);
    BitAtOctet(k);
    if k < 8 {
      assert SameBit(value, bytes, k);
    } else if BitAt(bytes[|bytes| - 1], k) {
      OctetBits(bytes[|bytes| - 1], k);
    }
  }

  lemma BitAtOctet(k: nat)
    ensures BitAt(0xff, k) <==> k < 8
  {
    Pow2Of64();
    BitAtMask(8, k);
  }

  lemma OctetBits(b: U8, k: nat)
    requires BitAt(b, k)
    ensures k < 8
  {
    Pow2Of64();
    BitAtBound(b, 8, k);
  }

  lemma NextBytes(value: U64, bytes: seq<U8>)
    requires 0 < |bytes| <= 8 && EndsIn(value, bytes)
    ensures EndsIn(Sar64(value, 8), bytes[..|bytes| - 1])
  {
    var front := bytes[..|bytes| - 1];
    forall k | 0 <= k < 8 * |front|
      ensures SameBit(Sar64(value, 8), front, k)
    {
      assert SameBit(value, bytes, k + 8);
      BitAtSar64(value, 8, k);
      ByteBefore(bytes, k);
    }
  }

  lemma ByteBefore(bytes: seq<U8>, k: nat)
    requires bytes != [] && k < 8 * (|bytes| - 1)
    ensures TokenBit(bytes[..|bytes| - 1], true, k) <==> TokenBit(bytes, true, k + 8)
  {
    assert (k + 8) / 8 == k / 8 + 1 && (k + 8) % 8 == k % 8;
  }

  /** Swapping up to eight bytes reverses them, also when the sign is shifted in above them. */
  lemma {:induction false} SwapReverses(res: U64, value: U64, bytes: seq<U8>)
    requires |bytes| <= 8 && EndsIn(value, bytes)
    ensures SwapFrom(res, value, |bytes|) == Extended(res, Reversed(bytes))
    decreases |bytes|
  {
    if bytes == [] {
      ExtendedNothing(res);
    } else {
      var front, last := bytes[..|bytes| - 1], bytes[|bytes| - 1];
      SwapOne(res, value, bytes);
      SwapReverses(Extended(res, [last]), Sar64(value, 8), front);
      ExtendedTwice(res, [last], Reversed(front));
    }
  }

  lemma SwapOne(res: U64, value: U64, bytes: seq<U8>)
    requires 0 < |bytes| <= 8 && EndsIn(value, bytes)
    ensures Or64(Shl64(res, 8), And64(value, 0xff)) == Extended(res, [bytes[|bytes| - 1]])
    ensures EndsIn(Sar64(value, 8), bytes[..|bytes| - 1])
  {
    var last := bytes[|bytes| - 1];
    LowByte(value, bytes);
    NextBytes(value, bytes);
    assert [last][..0] == [] && BigEndian([last]) == last;
    ExtendedBits(res, [last]);
  }

  // ---- extension ----

  /** Extends the value whose sign is bit `size`. */
  function SignExtend(value: U64, size: nat): U64
  {
    var mask := Shl64(TWO_64 - 1, size);
    if And64(Sar64(value, size), 1) != 0 then Or64(value, mask) else And64(value, Not64(mask))
  }

  /** Keeps the bits up to `size`. */
  function ZeroExtend(value: U64, size: nat): U64
  {
    var mask := Shl64(Shl64(TWO_64 - 1, size), 1);
    And64(value, Not64(mask))
  }

  lemma BitAtOnes(i: nat)
    ensures BitAt(TWO_64 - 1, i) <==> i < 64
  {
    Pow2Of64();
    BitAtMask(64, i);
  }

  lemma BitAtShlOnes(size: nat, i: nat)
    ensures BitAt(Shl64(TWO_64 - 1, size), i) <==> size <= i < 64
  {
    BitAtShl64(TWO_64 - 1, size, i);
    if i >= size {
      BitAtOnes(i - size);
    }
  }

  lemma LowestBit(x: U64)
    ensures And64(x, 1) != 0 <==> BitAt(x, 0)
  {
    AndMask(x, 1);
  }

  lemma BitAtSignExtend(value: U64, size: nat, i: nat)
    requires size < 64 && i < 64
    ensures BitAt(SignExtend(value, size), i) <==> BitAt(value, if i < size then i else size)
  {
    var mask := Shl64(TWO_64 - 1, size);
    LowestBit(Sar64(value, size));
    BitAtSar64(value, size, 0);
    BitAtShlOnes(size, i);
    BitAtNot64(mask, i);
    BitAtOr(value, mask, i);
    BitAtAnd(value, Not64(mask), i);
  }

  lemma BitAtZeroExtend(value: U64, size: nat, i: nat)
    requires size < 64 && i < 64
    ensures BitAt(ZeroExtend(value, size), i) <==> i <= size && BitAt(value, i)
  {
    var once := Shl64(TWO_64 - 1, size);
    var mask := Shl64(once, 1);
    BitAtShl64(once, 1, i);
    if i >= 1 {
      BitAtShlOnes(size, i - 1);
    }
    BitAtNot64(mask, i);
    BitAtAnd(value, Not64(mask), i);
  }

  // ---- fields ----

  datatype TokenField = TokenField(
    bigEndian: bool, signBit: bool, bitStart: U8, bitEnd: U8, byteStart: U8, byteEnd: U8, shift: U8)

  /** The ranges of a field run forwards. */
  predicate Ordered(f: TokenField)
  {
    f.byteStart <= f.byteEnd && f.bitStart <= f.bitEnd
  }

  /** The bytes of a field, in the order of its token. */
  function FieldBytes(buffer: seq<U8>, offset: nat, f: TokenField): (r: Option<U64>)
    requires |buffer| == MAX_INSN_BYTES && Ordered(f)
  {
    var raw :- ReadFrom(buffer, offset, f.byteStart, f.byteEnd, 0);
    Some(if f.bigEndian then raw else SwapFrom(0, raw, f.byteEnd - f.byteStart + 1))
  }

  function Extend(value: U64, f: TokenField): U64
    requires Ordered(f)
  {
    if f.signBit then SignExtend(value, f.bitEnd - f.bitStart) else ZeroExtend(value, f.bitEnd - f.bitStart)
  }

  /** The value of a field of the token at `offset`. */
  function FieldValue(buffer: seq<U8>, offset: nat, f: TokenField): (r: Option<U64>)
    requires |buffer| == MAX_INSN_BYTES && Ordered(f)
  {
    var value :- FieldBytes(buffer, offset, f);
    Some(Extend(Sar64(value, f.shift), f))
  }

  method ReadField(buffer: seq<U8>, offset: nat, f: TokenField) returns (r: Option<U64>)
    requires |buffer| == MAX_INSN_BYTES && Ordered(f)
    ensures r == FieldValue(buffer, offset, f)
  {
    var raw := ReadToken(buffer, offset, f.byteStart, f.byteEnd);
    if raw.None? {
      return None;
    }
    var value := raw.value;
    if !f.bigEndian {
      value := ByteSwap(value, f.byteEnd - f.byteStart + 1);
    }
    assert FieldBytes(buffer, offset, f) == Some(value);
    r := Some(Extend(Sar64(value, f.shift), f));
  }

  /** The field is bits `bitStart..=bitEnd` of a token of `total` bytes, reads the bytes that hold
      them, at most eight, and shifts by the bits below the first. */
  predicate Declared(f: TokenField, total: nat)
  {
    && Ordered(f) && f.bitEnd < 8 * total && f.shift == f.bitStart % 8
    && (if f.bigEndian then f.byteStart == total - 1 - f.bitEnd / 8 && f.byteEnd == total - 1 - f.bitStart / 8
        else f.byteStart == f.bitStart / 8 && f.byteEnd == f.bitEnd / 8)
    && f.byteEnd - f.byteStart < 8
  }

  /** The bytes read, in the token's byte order, have the token's bits. */
  lemma SliceBits(token: seq<U8>, f: TokenField, j: nat)
    requires Declared(f, |token|) && j <= f.bitEnd - f.bitStart
    ensures var slice := token[f.byteStart..f.byteEnd + 1];
            && j + f.shift < 8 * |slice|
            && (TokenBit(slice, f.bigEndian, j + f.shift) <==> TokenBit(token, f.bigEndian, f.bitStart + j))
  {
    ByteAndBit(f.bitStart, j, f.bitEnd);
    SliceBit(token, f, j + f.shift, f.bitStart + j);
  }

  lemma ByteAndBit(s: nat, j: nat, e: nat)
    requires s + j <= e
    ensures (s + j) / 8 == s / 8 + (j + s % 8) / 8 && (s + j) % 8 == (j + s % 8) % 8
    ensures (s + j) / 8 <= e / 8
  {
  }

  lemma SliceBit(token: seq<U8>, f: TokenField, k: nat, i: nat)
    requires Declared(f, |token|) && i / 8 == f.bitStart / 8 + k / 8 && i % 8 == k % 8 && i / 8 <= f.bitEnd / 8
    ensures var slice := token[f.byteStart..f.byteEnd + 1];
            k < 8 * |slice| && i < 8 * |token| && (TokenBit(slice, f.bigEndian, k) <==> TokenBit(token, f.bigEndian, i))
  {
    var a, b, n := k / 8, f.bitStart / 8, f.bitEnd / 8;
    assert k == 8 * a + k % 8 && i == 8 * (b + a) + i % 8 && b + a <= n < |token|;
  }

  lemma SwappedBits(bytes: seq<U8>, n: nat, k: nat)
    requires n == |bytes| <= 8 && k < 8 * n
    ensures BigEndian(bytes) < TWO_64
    ensures BitAt(SwapFrom(0, BigEndian(bytes), n), k) <==> TokenBit(bytes, false, k)
  {
    SpelledBits(bytes);
    SwapReverses(0, BigEndian(bytes), bytes);
    SpelledBits(Reversed(bytes));
    BigEndianBits(Reversed(bytes), k);
    ReversedAt(bytes, |bytes| - 1 - k / 8);
  }

  lemma FieldBytesBits(buffer: seq<U8>, offset: nat, f: TokenField, slice: seq<U8>, k: nat)
    requires |buffer| == MAX_INSN_BYTES && Ordered(f) && f.byteEnd - f.byteStart < 8 && offset + f.byteEnd < MAX_INSN_BYTES
    requires slice == buffer[offset + f.byteStart..offset + f.byteEnd + 1] && k < 8 * |slice|
    ensures FieldBytes(buffer, offset, f).Some?
    ensures BitAt(FieldBytes(buffer, offset, f).value, k) <==> TokenBit(slice, f.bigEndian, k)
  {
    FieldBytesSpelled(buffer, offset, f, slice);
    SpelledBit(slice, f.bigEndian, f.byteEnd - f.byteStart + 1, k, FieldBytes(buffer, offset, f).value);
  }

  lemma SpelledBit(slice: seq<U8>, bigEndian: bool, n: nat, k: nat, value: U64)
    requires n == |slice| <= 8 && k < 8 * n
    requires BigEndian(slice) < TWO_64
    requires value == if bigEndian then BigEndian(slice) else SwapFrom(0, BigEndian(slice), n)
    ensures BitAt(value, k) <==> TokenBit(slice, bigEndian, k)
  {
    if bigEndian {
      BigEndianBits(slice, k);
    } else {
      SwappedBits(slice, n, k);
    }
  }

  lemma FieldBytesSpelled(buffer: seq<U8>, offset: nat, f: TokenField, slice: seq<U8>)
    requires |buffer| == MAX_INSN_BYTES && Ordered(f) && f.byteEnd - f.byteStart < 8 && offset + f.byteEnd < MAX_INSN_BYTES
    requires slice == buffer[offset + f.byteStart..offset + f.byteEnd + 1]
    ensures BigEndian(slice) < TWO_64
    ensures FieldBytes(buffer, offset, f) ==
            Some(if f.bigEndian then BigEndian(slice) else SwapFrom(0, BigEndian(slice), f.byteEnd - f.byteStart + 1))
  {
    ReadSpelled(buffer, offset, f.byteStart, f.byteEnd, slice);
    SpelledFits(slice);
  }

  lemma SpelledFits(bytes: seq<U8>)
    requires |bytes| <= 8
    ensures BigEndian(bytes) < TWO_64 && Extended(0, bytes) == BigEndian(bytes)
  {
    SpelledBits(bytes);
  }

  lemma ReadSpelled(buffer: seq<U8>, offset: nat, byteStart: nat, byteEnd: nat, slice: seq<U8>)
    requires |buffer| == MAX_INSN_BYTES && byteStart <= byteEnd < byteStart + 8 && offset + byteEnd < MAX_INSN_BYTES
    requires slice == buffer[offset + byteStart..offset + byteEnd + 1]
    ensures BigEndian(slice) < TWO_64 && ReadFrom(buffer, offset, byteStart, byteEnd, 0) == Some(BigEndian(slice))
  {
    ReadFits(buffer, offset, byteStart, byteEnd, 0);
    SpelledFits(slice);
  }

  lemma BitAtExtend(value: U64, f: TokenField, i: nat)
    requires Ordered(f) && f.bitEnd - f.bitStart < 64 && i < 64
    ensures var width := f.bitEnd - f.bitStart;
            BitAt(Extend(value, f), i) <==> if i <= width then BitAt(value, i) else f.signBit && BitAt(value, width)
  {
    if f.signBit {
      BitAtSignExtend(value, f.bitEnd - f.bitStart, i);
    } else {
      BitAtZeroExtend(value, f.bitEnd - f.bitStart, i);
    }
  }

  /** Up to eight bytes fit a 64-bit value. */
  lemma SpelledBits(bytes: seq<U8>)
    requires |bytes| <= 8
    ensures BigEndian(bytes) < TWO_64 && Extended(0, bytes) == BigEndian(bytes) && EndsIn(BigEndian(bytes), bytes)
  {
    BigEndianBound(bytes);
    Pow2Monotone(8 * |bytes|, 64);
    Pow2Of64();
    forall k | 0 <= k < 8 * |bytes|
      ensures SameBit(BigEndian(bytes), bytes, k)
    {
      BigEndianBits(bytes, k);
    }
  }

  /** Bit `i` of a value is the token's bit of the field, or the declared extension above it. */
  ghost predicate HasFieldBit(value: U64, token: seq<U8>, f: TokenField, i: nat)
    requires Declared(f, |token|)
  {
    var width := f.bitEnd - f.bitStart;
    BitAt(value, i) <==>
      if i <= width then TokenBit(token, f.bigEndian, f.bitStart + i) else f.signBit && TokenBit(token, f.bigEndian, f.bitEnd)
  }

  /** A field that lies within the buffer is the declared bits of its token, in the token's byte
      order, with the declared extension above them. */
  lemma FieldIsDeclared(buffer: seq<U8>, offset: nat, total: nat, f: TokenField, i: nat)
    requires |buffer| == MAX_INSN_BYTES && offset + total <= MAX_INSN_BYTES && Declared(f, total) && i < 64
    ensures FieldValue(buffer, offset, f).Some?
    ensures HasFieldBit(FieldValue(buffer, offset, f).value, buffer[offset..offset + total], f, i)
  {
    var width := f.bitEnd - f.bitStart;
    var j := if i <= width then i else width;
    FieldBit(buffer, offset, total, f, j);
    ExtendedBit(FieldBytes(buffer, offset, f).value, buffer[offset..offset + total], f, i, j);
  }

  /** Bit `j` of the shifted bytes is the token's bit. */
  ghost predicate ShiftedHasBit(value: U64, token: seq<U8>, f: TokenField, j: nat)
    requires Declared(f, |token|) && j <= f.bitEnd - f.bitStart
  {
    BitAt(Sar64(value, f.shift), j) <==> TokenBit(token, f.bigEndian, f.bitStart + j)
  }

  lemma ExtendedBit(value: U64, token: seq<U8>, f: TokenField, i: nat, j: nat)
    requires Declared(f, |token|) && f.bitEnd - f.bitStart < 64 && i < 64
    requires j == (if i <= f.bitEnd - f.bitStart then i else f.bitEnd - f.bitStart) && ShiftedHasBit(value, token, f, j)
    ensures HasFieldBit(Extend(Sar64(value, f.shift), f), token, f, i)
  {
    BitAtExtend(Sar64(value, f.shift), f, i);
  }

  lemma SliceOfSlice<T>(s: seq<T>, o: nat, t: nat, a: nat, b: nat)
    requires a <= b <= t && o + t <= |s|
    ensures s[o..o + t][a..b] == s[o + a..o + b]
  {
    var x, y := s[o..o + t][a..b], s[o + a..o + b];
    forall i | 0 <= i < b - a
      ensures x[i] == y[i]
    {
      assert s[o..o + t][a + i] == s[o + a + i];
    }
    assert |x| == |y| == b - a;
  }

  lemma DeclaredRange(f: TokenField, total: nat)
    requires Declared(f, total)
    ensures f.byteEnd < total && f.bitEnd - f.bitStart < 64
  {
  }

  lemma FieldBit(buffer: seq<U8>, offset: nat, total: nat, f: TokenField, j: nat)
    requires |buffer| == MAX_INSN_BYTES && offset + total <= MAX_INSN_BYTES && Declared(f, total)
    requires j <= f.bitEnd - f.bitStart
    ensures FieldBytes(buffer, offset, f).Some? && f.bitEnd - f.bitStart < 64
    ensures ShiftedHasBit(FieldBytes(buffer, offset, f).value, buffer[offset..offset + total], f, j)
  {
    DeclaredRange(f, total);
    var token := buffer[offset..offset + total];
    var slice := token[f.byteStart..f.byteEnd + 1];
    SliceOfSlice(buffer, offset, total, f.byteStart, f.byteEnd + 1);
    FieldBytesBits(buffer, offset, f, slice, BitInSlice(token, f, j));
    ShiftedBit(FieldBytes(buffer, offset, f).value, token, f, j);
  }

  /** Where bit `j` of the field lies in the bytes read. */
  function BitInSlice(token: seq<U8>, f: TokenField, j: nat): (k: nat)
    requires Declared(f, |token|) && j <= f.bitEnd - f.bitStart
    ensures k < 8 * (f.byteEnd + 1 - f.byteStart)
  {
    SliceBits(token, f, j);
    j + f.shift
  }

  lemma ShiftedBit(value: U64, token: seq<U8>, f: TokenField, j: nat)
    requires Declared(f, |token|) && j <= f.bitEnd - f.bitStart && f.byteEnd < |token|
    requires BitAt(value, BitInSlice(token, f, j)) <==>
             TokenBit(token[f.byteStart..f.byteEnd + 1], f.bigEndian, BitInSlice(token, f, j))
    ensures ShiftedHasBit(value, token, f, j)
  {
    SliceBits(token, f, j);
    BitAtSar64(value, f.shift, j);
  }
}
