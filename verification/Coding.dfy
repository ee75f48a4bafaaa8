/**
 Fixed-width and variable-width numbers in byte strings (util/coding.h, util/coding.cc).
 */
module Coding {
  import opened InternalKeys

  const TWO_32: nat := 0x1_0000_0000
  const TWO_64: nat := 0x1_0000_0000_0000_0000

  /** These bytes stand at p, before the limit. */
  ghost predicate Holds(b: Bytes, p: nat, limit: nat, part: Bytes) {
    p + |part| <= limit <= |b| && b[p..p + |part|] == part
  }

  lemma HoldsParts(b: Bytes, p: nat, limit: nat, x: Bytes, y: Bytes)
    requires Holds(b, p, limit, x + y)
    ensures Holds(b, p, limit, x) && Holds(b, p + |x|, limit, y) && |x + y| == |x| + |y|
  {
    var whole := b[p..p + |x + y|];
    assert b[p..p + |x|] == whole[..|x|] == x;
    assert b[p + |x|..p + |x| + |y|] == whole[|x|..] == y;
  }

  function EncodeFixed32(v: Word): Bytes {
    var b1, b2, b3 := v / 256, v / 256 / 256, v / 256 / 256 / 256;
    [(v % 256) as byte, (b1 % 256) as byte, (b2 % 256) as byte, b3 as byte]
  }

  function DecodeFixed32(b: Bytes): Word
    requires |b| >= 4
  {
    b[0] as int + b[1] as int * 0x100 + b[2] as int * 0x1_0000 + b[3] as int * 0x100_0000
  }

  lemma Fixed32RoundTrip(v: Word, rest: Bytes)
    ensures DecodeFixed32(EncodeFixed32(v) + rest) == v
  {
    var b1, b2, b3 := v / 256, v / 256 / 256, v / 256 / 256 / 256;
    assert v == v % 256 + 256 * b1 && b1 == b1 % 256 + 256 * b2 && b2 == b2 % 256 + 256 * b3;
    assert (EncodeFixed32(v) + rest)[..4] == EncodeFixed32(v);
  }

  /** Every word has one encoding only. */
  lemma Fixed32IsUnique(b: Bytes)
    requires |b| == 4
    ensures EncodeFixed32(DecodeFixed32(b)) == b
  {
    var v := DecodeFixed32(b);
    assert v / 256 == b[1] as int + b[2] as int * 0x100 + b[3] as int * 0x1_0000;
    assert v / 256 / 256 == b[2] as int + b[3] as int * 0x100;
  }

  lemma Fixed32Size(v: Word)
    ensures |EncodeFixed32(v)| == 4
  {
  }

  function EncodeFixed64(v: nat): (r: Bytes)
    requires v < TWO_64
    ensures |r| == 8
  {
    EncodeFixed32(v % TWO_32) + EncodeFixed32(v / TWO_32)
  }

  function DecodeFixed64(b: Bytes): (r: nat)
    requires |b| >= 8
    ensures r < TWO_64
  {
    DecodeFixed32(b) + DecodeFixed32(b[4..]) * TWO_32
  }

  lemma Fixed64RoundTrip(v: nat, rest: Bytes)
    requires v < TWO_64
    ensures DecodeFixed64(EncodeFixed64(v) + rest) == v
  {
    hide EncodeFixed32, DecodeFixed32;
    var low, high := EncodeFixed32(v % TWO_32), EncodeFixed32(v / TWO_32);
    Fixed32Size(v % TWO_32);
    Fixed32Size(v / TWO_32);
    assert EncodeFixed64(v) + rest == low + (high + rest);
    assert (EncodeFixed64(v) + rest)[4..] == high + rest;
    Fixed32RoundTrip(v % TWO_32, high + rest);
    Fixed32RoundTrip(v / TWO_32, rest);
  }

  /** 7 bits a byte, low ones first, the high bit saying that more follow: the loop of EncodeVarint64. The five cases
      of EncodeVarint32 are this loop written out. */
  function EncodeVarint(v: nat): (r: Bytes)
    ensures |r| > 0
  {
    if v < 128 then [v as byte] else [(v % 128 + 128) as byte] + EncodeVarint(v / 128)
  }

  /** v shifted left by k groups of 7 bits. */
  function ShiftedBy(v: nat, k: nat): nat {
    v * Pow128(k)
  }

  function Pow128(k: nat): nat {
    if k == 0 then 1 else 128 * Pow128(k - 1)
  }

  /** What a word keeps of a number. */
  function Wrapped(n: nat, word: nat): nat
    requires word > 0
    ensures Wrapped(n, word) < word
  {
    n % word
  }

  lemma NotWrapped(n: nat, word: nat)
    requires n < word
    ensures Wrapped(n, word) == n
  {
  }

  /** A number read, and the position after it. */
  datatype Parsed = Parsed(value: nat, next: nat)

  /** The loops of GetVarint32Ptr and GetVarint64Ptr after k bytes of at most so many; what is shifted out of the
      word is lost. */
  function GetVarintFrom(b: Bytes, p: nat, limit: nat, k: nat, result: nat, bytes: nat, word: nat): (r: Option<Parsed>)
    requires limit <= |b| && word > 0
    ensures r.Some? ==> p < r.value.next <= limit && r.value.value < word
    decreases limit - p
  {
    if k >= bytes || p >= limit then None
    else if b[p] >= 128 then GetVarintFrom(b, p + 1, limit, k + 1, result + ShiftedBy(b[p] as int - 128, k), bytes, word)
    else Some(Parsed(Wrapped(result + ShiftedBy(b[p] as int, k), word), p + 1))
  }

  function GetVarint32(b: Bytes, p: nat, limit: nat): (r: Option<Parsed>)
    requires limit <= |b|
    ensures r.Some? ==> p < r.value.next <= limit && r.value.value < TWO_32
  {
    GetVarintFrom(b, p, limit, 0, 0, 5, TWO_32)
  }

  function GetVarint64(b: Bytes, p: nat, limit: nat): (r: Option<Parsed>)
    requires limit <= |b|
    ensures r.Some? ==> p < r.value.next <= limit && r.value.value < TWO_64
  {
    GetVarintFrom(b, p, limit, 0, 0, 10, TWO_64)
  }

  ghost predicate HoldsVarint(b: Bytes, p: nat, limit: nat, v: nat) {
    Holds(b, p, limit, EncodeVarint(v))
  }

  /** The first byte of a number held says all of it, or its low bits and that the rest follows. */
  lemma VarintByte(b: Bytes, p: nat, limit: nat, v: nat)
    requires HoldsVarint(b, p, limit, v)
    ensures p < limit <= |b|
    ensures v < 128 ==> b[p] as int == v && |EncodeVarint(v)| == 1
    ensures v >= 128 ==> b[p] as int == v % 128 + 128 && HoldsVarint(b, p + 1, limit, v / 128)
    ensures v >= 128 ==> |EncodeVarint(v)| == 1 + |EncodeVarint(v / 128)|
  {
    var e := EncodeVarint(v);
    assert b[p] == b[p..p + |e|][0] == e[0];
    if v >= 128 {
      var rest := EncodeVarint(v / 128);
      assert b[p + 1..p + 1 + |rest|] == b[p..p + |e|][1..] == e[1..] == rest;
    }
  }

  /** One turn of the loop that finds a byte with the high bit set. */
  lemma VarintTurn(b: Bytes, p: nat, limit: nat, k: nat, result: nat, bytes: nat, word: nat, low: nat)
    requires p < limit <= |b| && word > 0 && k < bytes && b[p] as int == low + 128
    ensures GetVarintFrom(b, p, limit, k, result, bytes, word)
            == GetVarintFrom(b, p + 1, limit, k + 1, result + ShiftedBy(low, k), bytes, word)
  {
    hide ShiftedBy, Wrapped;
  }

  lemma VarintEnd(b: Bytes, p: nat, limit: nat, k: nat, result: nat, bytes: nat, word: nat)
    requires p < limit <= |b| && k < bytes && b[p] < 128 && result + ShiftedBy(b[p] as int, k) < word
    ensures GetVarintFrom(b, p, limit, k, result, bytes, word) == Some(Parsed(result + ShiftedBy(b[p] as int, k), p + 1))
  {
    hide ShiftedBy, Wrapped;
    NotWrapped(result + ShiftedBy(b[p] as int, k), word);
  }

  lemma {:induction false} VarintReadsOn(b: Bytes, p: nat, limit: nat, k: nat, result: nat, bytes: nat, word: nat, v: nat)
    requires HoldsVarint(b, p, limit, v)
    requires k < bytes && word <= Pow128(bytes) && result + ShiftedBy(v, k) < word
    ensures limit <= |b|
    ensures GetVarintFrom(b, p, limit, k, result, bytes, word)
            == Some(Parsed(result + ShiftedBy(v, k), p + |EncodeVarint(v)|))
    decreases v
  {
    hide HoldsVarint, EncodeVarint, Pow128, ShiftedBy, GetVarintFrom;
    VarintByte(b, p, limit, v);
    if v < 128 {
      VarintEnd(b, p, limit, k, result, bytes, word);
    } else {
      SplitVarint(v, k);
      AnotherByteFits(v, k, bytes, word);
      VarintTurn(b, p, limit, k, result, bytes, word, v % 128);
      VarintReadsOn(b, p + 1, limit, k + 1, result + ShiftedBy(v % 128, k), bytes, word, v / 128);
    }
  }

  lemma SplitVarint(v: nat, k: nat)
    ensures ShiftedBy(v, k) == ShiftedBy(v % 128, k) + ShiftedBy(v / 128, k + 1)
  {
    var m, low, high := Pow128(k), v % 128, v / 128;
    assert v == low + 128 * high && Pow128(k + 1) == 128 * m;
    Distribute(low, high, m);
  }
  lemma Fixed64IsUnique(b: Bytes)
    requires |b| == 8
    ensures EncodeFixed64(DecodeFixed64(b)) == b
  {
    var low, high := DecodeFixed32(b), DecodeFixed32(b[4..]);
    assert low == DecodeFixed32(b[..4]);
    assert DecodeFixed64(b) % TWO_32 == low && DecodeFixed64(b) / TWO_32 == high;
    hide DecodeFixed32, EncodeFixed32;
    Fixed32IsUnique(b[..4]);
    Fixed32IsUnique(b[4..]);
    assert b == b[..4] + b[4..];
  }

  lemma Distribute(low: nat, high: nat, m: nat)
    ensures (low + 128 * high) * m == low * m + high * (128 * m)
  {
  }

  lemma AnotherByteFits(v: nat, k: nat, bytes: nat, word: nat)
    requires v >= 128 && k < bytes && word <= Pow128(bytes) && ShiftedBy(v, k) < word
    ensures k + 1 < bytes
  {
    AtLeast128(v, Pow128(k));
    assert Pow128(k + 1) == 128 * Pow128(k);
  }

  lemma AtLeast128(v: nat, m: nat)
    requires v >= 128
    ensures v * m >= 128 * m
  {
    assert v * m == 128 * m + (v - 128) * m;
  }

  lemma PowersOf128()
    ensures TWO_32 <= Pow128(5) && TWO_64 <= Pow128(10)
  {
    assert Pow128(1) == 128 && Pow128(2) == 16384 && Pow128(3) == 2097152 && Pow128(4) == 268435456;
    assert Pow128(5) == 34359738368 && Pow128(6) == 4398046511104 && Pow128(7) == 562949953421312;
    assert Pow128(8) == 72057594037927936 && Pow128(9) == 9223372036854775808;
  }

  lemma VarintRoundTrip(b: Bytes, p: nat, limit: nat, v: nat)
    requires HoldsVarint(b, p, limit, v)
    ensures limit <= |b|
    ensures v < TWO_32 ==> GetVarint32(b, p, limit) == Some(Parsed(v, p + |EncodeVarint(v)|))
    ensures v < TWO_64 ==> GetVarint64(b, p, limit) == Some(Parsed(v, p + |EncodeVarint(v)|))
  {
    PowersOf128();
    assert ShiftedBy(v, 0) == v;
    if v < TWO_32 {
      VarintReadsOn(b, p, limit, 0, 0, 5, TWO_32, v);
    }
    if v < TWO_64 {
      VarintReadsOn(b, p, limit, 0, 0, 10, TWO_64, v);
    }
  }

  // ---------------------------------------------------------------- what is read as a number

  /** Bytes in groups of seven bits, the lowest first. */
  function Groups(w: Bytes): nat {
    if w == [] then 0 else w[0] as int % 128 + 128 * Groups(w[1..])
  }

  /** At most so many bytes, of which only the last has no high bit. */
  predicate IsVarint(w: Bytes, bytes: int) {
    0 < |w| <= bytes && w[|w| - 1] < 128 && forall i :: 0 <= i < |w| - 1 ==> w[i] >= 128
  }

  ghost predicate ReadsAs(b: Bytes, p: nat, limit: nat, k: nat, result: nat, bytes: nat, word: nat, r: Option<Parsed>)
    requires p <= limit <= |b| && word > 0
  {
    && (r.Some? ==>
          && p < r.value.next <= limit && IsVarint(b[p..r.value.next], bytes - k)
          && r.value.value == (result + ShiftedBy(Groups(b[p..r.value.next]), k)) % word)
    && (forall n :: p < n <= limit && IsVarint(b[p..n], bytes - k) ==> r.Some? && r.value.next == n)
  }

  /** What the loops read, and when they do: any such bytes, be they as few as they can or not. */
  lemma {:induction false} VarintMeans(b: Bytes, p: nat, limit: nat, k: nat, result: nat, bytes: nat, word: nat)
    requires p <= limit <= |b| && word > 0
    ensures ReadsAs(b, p, limit, k, result, bytes, word, GetVarintFrom(b, p, limit, k, result, bytes, word))
    decreases limit - p
  {
    hide ShiftedBy, IsVarint, Groups;
    if k >= bytes || p == limit {
      forall n | p < n <= limit
        ensures !IsVarint(b[p..n], bytes - k)
      {
        NotSoLong(b[p..n], bytes - k);
      }
    } else if b[p] >= 128 {
      var more := result + ShiftedBy(b[p] as int - 128, k);
      VarintMeans(b, p + 1, limit, k + 1, more, bytes, word);
      MoreToRead(b, p, limit, k, result, bytes, word, GetVarintFrom(b, p + 1, limit, k + 1, more, bytes, word));
    } else {
      LastIsRead(b, p, limit, k, result, bytes, word);
    }
  }

  lemma NotSoLong(w: Bytes, bytes: int)
    requires w != [] && bytes <= 0
    ensures !IsVarint(w, bytes)
  {
  }

  lemma MoreToRead(b: Bytes, p: nat, limit: nat, k: nat, result: nat, bytes: nat, word: nat, r: Option<Parsed>)
    requires p < limit <= |b| && word > 0 && k < bytes && b[p] >= 128
    requires ReadsAs(b, p + 1, limit, k + 1, result + ShiftedBy(b[p] as int - 128, k), bytes, word, r)
    ensures ReadsAs(b, p, limit, k, result, bytes, word, r)
  {
    hide ShiftedBy, IsVarint, Groups;
    forall n | p < n <= limit
      ensures IsVarint(b[p..n], bytes - k) <==> n > p + 1 && IsVarint(b[p + 1..n], bytes - k - 1)
    {
      RestOfVarint(b, p, n, bytes - k);
    }
    if r.Some? {
      GroupsSplit(b, p, r.value.next, k);
    }
  }

  lemma LastIsRead(b: Bytes, p: nat, limit: nat, k: nat, result: nat, bytes: nat, word: nat)
    requires p < limit <= |b| && word > 0 && k < bytes && b[p] < 128
    ensures ReadsAs(b, p, limit, k, result, bytes, word, Some(Parsed((result + ShiftedBy(b[p] as int, k)) % word, p + 1)))
  {
    hide ShiftedBy;
    forall n | p < n <= limit
      ensures IsVarint(b[p..n], bytes - k) <==> n == p + 1
    {
      assert b[p..n][0] == b[p];
    }
    assert b[p..p + 1] == [b[p]] && [b[p]][1..] == [];
    assert Groups([b[p]]) == b[p] as int % 128 + 128 * Groups([]) == b[p] as int;
  }

  lemma RestOfVarint(b: Bytes, p: nat, n: nat, bytes: int)
    requires p < n <= |b| && b[p] >= 128 && bytes > 0
    ensures IsVarint(b[p..n], bytes) <==> n > p + 1 && IsVarint(b[p + 1..n], bytes - 1)
  {
    var w := b[p..n];
    assert w[0] == b[p] && w[1..] == b[p + 1..n];
    if n > p + 1 {
      assert w[|w| - 1] == w[1..][|w| - 2];
      assert forall i :: 0 <= i < |w| - 2 ==> w[1..][i] == w[i + 1];
    }
  }

  lemma GroupsSplit(b: Bytes, p: nat, n: nat, k: nat)
    requires p < n <= |b|
    ensures ShiftedBy(Groups(b[p..n]), k) == ShiftedBy(b[p] as int % 128, k) + ShiftedBy(Groups(b[p + 1..n]), k + 1)
  {
    assert b[p..n][1..] == b[p + 1..n];
    Distribute(b[p] as int % 128, Groups(b[p + 1..n]), Pow128(k));
  }

  /** A single byte below 128 is a whole number, and no other number begins with one. */
  lemma FirstByteTells(b: Bytes, p: nat, limit: nat, v: nat)
    requires HoldsVarint(b, p, limit, v)
    ensures p < limit <= |b| && (b[p] < 128 <==> v < 128)
    ensures v < 128 ==> b[p] as int == v && |EncodeVarint(v)| == 1
  {
    VarintByte(b, p, limit, v);
  }

  // ---------------------------------------------------------------- slices with their length before them

  function LengthPrefixed(s: Bytes): Bytes {
    EncodeVarint(|s|) + s
  }

  datatype ParsedSlice = ParsedSlice(slice: Bytes, next: nat)

  function GetLengthPrefixed(b: Bytes, p: nat): (r: Option<ParsedSlice>)
    ensures r.Some? ==> p < r.value.next <= |b|
  {
    var n := GetVarint32(b, p, |b|);
    if n.None? || |b| - n.value.next < n.value.value then None
    else Some(ParsedSlice(b[n.value.next..n.value.next + n.value.value], n.value.next + n.value.value))
  }

  lemma LengthPrefixedRoundTrip(b: Bytes, p: nat, s: Bytes)
    requires |s| < TWO_32 && Holds(b, p, |b|, LengthPrefixed(s))
    ensures GetLengthPrefixed(b, p) == Some(ParsedSlice(s, p + |LengthPrefixed(s)|))
  {
    var n := |EncodeVarint(|s|)|;
    assert b[p..p + n] == b[p..p + |LengthPrefixed(s)|][..n];
    assert b[p + n..p + n + |s|] == b[p..p + |LengthPrefixed(s)|][n..];
    VarintRoundTrip(b, p, |b|, |s|);
    hide EncodeVarint, GetVarintFrom;
  }
}
