/**
 How single numbers are written and read by nanopb (pb_encode.c, pb_decode.c): base 128
 varints, zigzag, and little-endian words; "Base 128 Varints" and "Signed Integers" in the
 Protocol Buffers encoding specification.
 */
module PbVarints {
  import opened InternalKeys
  import opened Coding
  import opened PbTypes

  // ---------------------------------------------------------------- varints of at most 32 bits

  function Pow2(n: nat): nat {
    if n == 0 then 1 else 2 * Pow2(n - 1)
  }

  /** Bitwise or. */
  function Or(a: nat, b: nat): nat
    decreases a + b
  {
    if a == 0 then b
    else if b == 0 then a
    else (if a % 2 == 1 || b % 2 == 1 then 1 else 0) + 2 * Or(a / 2, b / 2)
  }

  lemma {:induction false} OrStaysBelow(a: nat, b: nat, n: nat)
    requires a < Pow2(n) && b < Pow2(n)
    ensures Or(a, b) < Pow2(n)
    decreases n
  {
    if a > 0 && b > 0 {
      OrStaysBelow(a / 2, b / 2, n - 1);
    }
  }

  /** Bits that do not meet are added. */
  lemma {:induction false} OrOfApart(a: nat, v: nat, n: nat)
    requires a < Pow2(n)
    ensures Or(a, v * Pow2(n)) == a + v * Pow2(n)
    decreases n
  {
    if a > 0 {
      var m := Pow2(n - 1);
      Halve(v, m);
      OrOfApart(a / 2, v, n - 1);
    }
  }

  lemma Halve(v: nat, m: nat)
    ensures v * (2 * m) % 2 == 0 && v * (2 * m) / 2 == v * m
  {
    assert v * (2 * m) == 2 * (v * m);
  }

  lemma WordIsPow2()
    ensures Pow2(32) == TWO_32
  {
    assert Pow2(8) == 256;
    assert Pow2(16) == 65536;
    assert Pow2(24) == 16777216;
  }

  /** result |= low << shift, in 32 bits. */
  function ShiftedIn(result: Word, low: nat, shift: nat): Word {
    WordIsPow2();
    OrStaysBelow(result, low * Pow2(shift) % TWO_32, 32);
    Or(result, low * Pow2(shift) % TWO_32)
  }

  /** The bit position is kept in eight bits. */
  function NextShift(shift: nat): (r: nat)
    ensures r < 256
  {
    (shift + 7) % 256
  }

  /** The loop of pb_decode_varint32_eof from a bit position on. Bits past the 32nd must be 0, or repeat the sign up
      to the 64th; but from the 38th byte on the position has wrapped round, and bits count again. */
  function VarintTail(b: Bytes, p: nat, limit: nat, shift: nat, result: Word): (r: Option<Parsed>)
    requires limit <= |b|
    ensures r.Some? ==> p < r.value.next <= limit && r.value.value < TWO_32
    decreases limit - p
  {
    if p >= limit then None
    else
      var low := b[p] as int % 128;
      if shift >= 32 then
        if low != 0 && (result < 0x8000_0000 || b[p] != if shift < 63 then 0xff else 0x01) then None
        else if b[p] >= 128 then VarintTail(b, p + 1, limit, NextShift(shift), result)
        else Some(Parsed(result, p + 1))
      else
        var more := ShiftedIn(result, low, shift);
        if b[p] >= 128 then VarintTail(b, p + 1, limit, NextShift(shift), more)
        else if shift == 28 && low >= 16 then None
        else Some(Parsed(more, p + 1))
  }

  /** One turn of the loop of pb_decode_varint32_eof. */
  lemma TailUnrolled(b: Bytes, p: nat, limit: nat, shift: nat, result: Word)
    requires limit <= |b|
    ensures p >= limit ==> VarintTail(b, p, limit, shift, result) == None
    ensures p < limit ==>
              var c := b[p] as int;
              var low := c % 128;
              var more := if shift >= 32 then result else ShiftedIn(result, low, shift);
              VarintTail(b, p, limit, shift, result)
              == if shift >= 32 && low != 0 && (result < 0x8000_0000 || c != if shift < 63 then 0xff else 0x01) then None
                 else if c >= 128 then VarintTail(b, p + 1, limit, NextShift(shift), more)
                 else if shift == 28 && c / 16 % 8 != 0 then None
                 else Some(Parsed(more, p + 1))
  {
    hide ShiftedIn, NextShift;
    if p < limit && b[p] < 128 {
      HighBits(b[p]);
    }
  }

  lemma HighBits(c: byte)
    requires c < 128
    ensures c as int / 16 % 8 != 0 <==> c as int % 128 >= 16
  {
  }

  function DecodeVarint32(b: Bytes, p: nat, limit: nat): (r: Option<Parsed>)
    requires limit <= |b|
    ensures r.Some? ==> p < r.value.next <= limit && r.value.value < TWO_32
  {
    if p >= limit then None
    else if b[p] < 128 then Some(Parsed(b[p] as int, p + 1))
    else VarintTail(b, p + 1, limit, 7, b[p] as int - 128)
  }

  /** In the first five bytes nothing meets. */
  lemma AddedIn(result: Word, low: nat, k: nat)
    requires k < 5 && result < Pow128(k) && low < 128 && result + ShiftedBy(low, k) < TWO_32
    ensures ShiftedIn(result, low, 7 * k) == result + ShiftedBy(low, k) < Pow128(k + 1)
  {
    hide Or, Pow2, Pow128, ShiftedBy;
    GroupsAreBits(k);
    OrOfApart(result, low, 7 * k);
    ShiftedIsProduct(low, k);
    StaysBelow(result, low, Pow128(k));
    NotCut(result, low, 7 * k);
  }

  lemma ShiftedIsProduct(low: nat, k: nat)
    ensures ShiftedBy(low, k) == low * Pow128(k) && Pow128(k + 1) == 128 * Pow128(k)
  {
  }

  lemma NotCut(result: Word, low: nat, shift: nat)
    requires low * Pow2(shift) < TWO_32
    ensures ShiftedIn(result, low, shift) == Or(result, low * Pow2(shift))
  {
    hide Or, Pow2;
    var x := low * Pow2(shift);
    assert x % TWO_32 == x;
  }

  lemma GroupsAreBits(k: nat)
    requires k < 5
    ensures Pow2(7 * k) == Pow128(k)
  {
    assert Pow2(7) == 128;
    assert Pow2(14) == 16384;
    assert Pow2(21) == 2097152;
    assert Pow2(28) == 268435456;
    PowersOf128();
  }

  lemma StaysBelow(result: nat, low: nat, m: nat)
    requires result < m && low < 128
    ensures result + low * m < 128 * m
  {
    assert low * m <= 127 * m;
  }

  lemma {:induction false} TailReads(b: Bytes, p: nat, limit: nat, k: nat, result: Word, v: nat)
    requires HoldsVarint(b, p, limit, v) && 1 <= k < 5 && result < Pow128(k) && result + ShiftedBy(v, k) < TWO_32
    ensures limit <= |b|
    ensures VarintTail(b, p, limit, 7 * k, result) == Some(Parsed(result + ShiftedBy(v, k), p + |EncodeVarint(v)|))
    decreases v
  {
    hide HoldsVarint, EncodeVarint, Pow128, ShiftedBy, VarintTail, ShiftedIn;
    VarintByte(b, p, limit, v);
    PowersOf128();
    if v >= 128 {
      SplitVarint(v, k);
      AnotherByteFits(v, k, 5, TWO_32);
      AddedIn(result, v % 128, k);
      TailTurn(b, p, limit, k, result, v % 128);
      TailReads(b, p + 1, limit, k + 1, result + ShiftedBy(v % 128, k), v / 128);
    } else {
      AddedIn(result, v, k);
      if k == 4 {
        TopBits(v);
      }
      TailEnd(b, p, limit, k, result);
    }
  }

  lemma TailTurn(b: Bytes, p: nat, limit: nat, k: nat, result: Word, low: nat)
    requires p < limit <= |b| && k < 5 && b[p] as int == low + 128
    ensures VarintTail(b, p, limit, 7 * k, result) == VarintTail(b, p + 1, limit, 7 * (k + 1), ShiftedIn(result, low, 7 * k))
  {
    hide ShiftedIn;
  }

  lemma TailEnd(b: Bytes, p: nat, limit: nat, k: nat, result: Word)
    requires p < limit <= |b| && k < 5 && b[p] < 128 && (k == 4 ==> b[p] < 16)
    ensures VarintTail(b, p, limit, 7 * k, result) == Some(Parsed(ShiftedIn(result, b[p] as int, 7 * k), p + 1))
  {
    hide ShiftedIn;
  }

  lemma TopBits(v: nat)
    requires ShiftedBy(v, 4) < TWO_32
    ensures v < 16
  {
    assert Pow128(1) == 128 && Pow128(2) == 16384 && Pow128(3) == 2097152 && Pow128(4) == 268435456;
  }

  lemma ShiftByOne(v: nat)
    ensures ShiftedBy(v, 1) == 128 * v && ShiftedBy(v, 0) == v
  {
    assert Pow128(1) == 128;
  }

  lemma Varint32RoundTrip(b: Bytes, p: nat, limit: nat, v: nat)
    requires HoldsVarint(b, p, limit, v) && v < TWO_32
    ensures limit <= |b| && DecodeVarint32(b, p, limit) == Some(Parsed(v, p + |EncodeVarint(v)|))
  {
    hide HoldsVarint, EncodeVarint, VarintTail, ShiftedBy;
    VarintByte(b, p, limit, v);
    if v >= 128 {
      ShiftByOne(v / 128);
      TailReads(b, p + 1, limit, 1, v % 128, v / 128);
    }
  }

  /** n bytes with no bits but the one that says that more follow, and a byte of 1. */
  function Padded(n: nat): Bytes {
    seq(n, _ => 0x80) + [1]
  }

  lemma PaddedAt(n: nat, k: nat)
    ensures |Padded(n)| == n + 1 && (k < n ==> Padded(n)[k] == 0x80) && Padded(n)[n] == 1
  {
  }

  lemma FirstMoreComes(b: Bytes, limit: nat)
    requires 0 < limit <= |b| && b[0] == 0x80
    ensures DecodeVarint32(b, 0, limit) == VarintTail(b, 1, limit, 7, 0)
  {
    hide VarintTail;
  }

  /** After k bytes of padding nothing has been read, and the bit position is 7 k in eight bits. */
  lemma {:induction false} PaddingPasses(n: nat, k: nat)
    requires 1 <= k <= n
    ensures |Padded(n)| == n + 1 && DecodeVarint32(Padded(n), 0, n + 1) == VarintTail(Padded(n), k, n + 1, 7 * k % 256, 0)
  {
    hide Padded, VarintTail, DecodeVarint32, ShiftedIn, NextShift;
    PaddedAt(n, k - 1);
    if k == 1 {
      FirstMoreComes(Padded(n), n + 1);
    } else {
      PaddingPasses(n, k - 1);
      TailUnrolled(Padded(n), k - 1, n + 1, 7 * (k - 1) % 256, 0);
      NothingIn(7 * (k - 1) % 256);
      ShiftAfter(k);
    }
  }

  lemma ShiftAfter(k: nat)
    requires k > 0
    ensures NextShift(7 * (k - 1) % 256) == 7 * k % 256
  {
    var x := 7 * (k - 1);
    var q, r := x / 256, x % 256;
    assert x == 256 * q + r;
    if r + 7 < 256 {
      RemainderIs(x + 7, q, r + 7);
    } else {
      RemainderIs(x + 7, q + 1, r - 249);
    }
  }

  lemma RemainderIs(x: nat, q: nat, r: nat)
    requires x == 256 * q + r && r < 256
    ensures x % 256 == r
  {
  }

  lemma NothingIn(shift: nat)
    ensures ShiftedIn(0, 0, shift) == 0
  {
    assert 0 * Pow2(shift) == 0;
  }

  /** A bit after n bytes of padding is refused as long as the position has not wrapped round, but 38 bytes read as
      the number 8. */
  lemma LongVarintWraps(n: nat)
    requires 5 <= n <= 37
    ensures |Padded(n)| == n + 1
    ensures DecodeVarint32(Padded(n), 0, n + 1) == if n == 37 then Some(Parsed(8, 38)) else None
  {
    hide Padded, VarintTail, DecodeVarint32, ShiftedIn;
    PaddingPasses(n, n);
    PaddedAt(n, n);
    TailUnrolled(Padded(n), n, n + 1, 7 * n % 256, 0);
    EightIn();
  }

  lemma EightIn()
    ensures ShiftedIn(0, 1, 3) == 8
  {
    assert Pow2(3) == 8;
  }

  // ---------------------------------------------------------------- signed numbers

  /** The bits of a 64-bit number in two's complement. */
  function Unsigned(n: int): nat
    requires InSigned(8, n)
  {
    if n < 0 then n + TWO_64 else n
  }

  /** A number of that many bytes, read from its bits; higher bits are dropped. */
  function Signed(size: nat, v: nat): int
    requires Range(size) > 0
  {
    var low := v % Range(size);
    if low < Range(size) / 2 then low else low - Range(size)
  }

  lemma WrappedByte(n: int)
    requires -0x80 <= n < 0x80
    ensures (if n < 0 then n + TWO_64 else n) % 0x100 == if n < 0 then n + 0x100 else n
  {
  }

  lemma WrappedShort(n: int)
    requires -0x8000 <= n < 0x8000
    ensures (if n < 0 then n + TWO_64 else n) % 0x1_0000 == if n < 0 then n + 0x1_0000 else n
  {
  }

  lemma WrappedWord(n: int)
    requires -0x8000_0000 <= n < 0x8000_0000
    ensures (if n < 0 then n + TWO_64 else n) % TWO_32 == if n < 0 then n + TWO_32 else n
  {
  }

  lemma WrappedLong(n: int)
    requires -0x8000_0000_0000_0000 <= n < 0x8000_0000_0000_0000
    ensures (if n < 0 then n + TWO_64 else n) % TWO_64 == if n < 0 then n + TWO_64 else n
  {
  }

  lemma SignedUndoesUnsigned(size: nat, n: int)
    requires Range(size) > 0 && InSigned(size, n)
    ensures InSigned(8, n) && Unsigned(n) < TWO_64 && Signed(size, Unsigned(n)) == n
  {
    if size == 1 {
      WrappedByte(n);
    } else if size == 2 {
      WrappedShort(n);
    } else if size == 4 {
      WrappedWord(n);
    } else {
      WrappedLong(n);
    }
  }

  /** Small numbers of either sign come before large ones. */
  function ZigZag(n: int): nat {
    if n < 0 then -2 * n - 1 else 2 * n
  }

  function UnZigZag(v: nat): int {
    if v % 2 == 1 then -(v / 2) - 1 else v / 2
  }

  /** Zigzag loses nothing, and keeps the order of magnitudes. */
  lemma ZigZagRoundTrip(n: int, m: int)
    ensures UnZigZag(ZigZag(n)) == n
    ensures InSigned(8, n) <==> ZigZag(n) < TWO_64
    ensures ZigZag(n) < ZigZag(m) <==> (if n < 0 then -n - 1 else n) < (if m < 0 then -m - 1 else m)
                                       || (n >= 0 > m && n == -m - 1)
  {
  }
}
