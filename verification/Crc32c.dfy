/**
 CRC-32C (util/crc32c.h, util/crc32c.cc; section 12.1 of RFC 3720): the form that runs four
 lanes of words through a buffer computes what the byte-at-a-time form does.

 A word is its bits, the lowest first. The entries of the byte table and of the four stride
 tables are given by what they were generated from: eight division steps for a byte,
 sixteen zero bytes for a stride.
 */
module Crc32c {

  type Bits = s: seq<bool> | |s| == 32 witness seq(32, _ => false)

  type Octet = s: seq<bool> | |s| == 8 witness seq(8, _ => false)

  // ---------------------------------------------------------------- words

  function Xor(a: Bits, b: Bits): Bits {
    seq(32, i requires 0 <= i < 32 => a[i] != b[i])
  }

  function None(): Bits {
    seq(32, _ => false)
  }

  function All(): Bits {
    seq(32, _ => true)
  }

  function ShiftRight(a: Bits, k: nat): Bits {
    seq(32, i requires 0 <= i < 32 => i + k < 32 && a[i + k])
  }

  function LowByte(a: Bits): Bits {
    seq(32, i requires 0 <= i < 32 => i < 8 && a[i])
  }

  function ByteAt(a: Bits, k: nat): Octet
    requires k < 4
  {
    a[8 * k..8 * k + 8]
  }

  /** The byte b shifted left by 8k bits. */
  function Shifted(b: Octet, k: nat): Bits
    requires k < 4
  {
    seq(32, i requires 0 <= i < 32 => 8 * k <= i < 8 * k + 8 && b[i - 8 * k])
  }

  /** Xor is pointwise, so it may be regrouped in any way. */
  lemma XorLaws(a: Bits, b: Bits, c: Bits, d: Bits)
    ensures Xor(a, b) == Xor(b, a) && Xor(a, Xor(b, c)) == Xor(Xor(a, b), c)
    ensures Xor(Xor(a, b), Xor(c, d)) == Xor(Xor(a, c), Xor(b, d))
    ensures Xor(Xor(a, b), b) == a && Xor(a, None()) == a && Xor(None(), a) == a
  {
  }

  // ---------------------------------------------------------------- one byte at a time

  function TwoTo(n: nat): nat {
    if n == 0 then 1 else 2 * TwoTo(n - 1)
  }

  lemma {:induction false} TwoToPositive(n: nat)
    ensures TwoTo(n) > 0
  {
    if n > 0 {
      TwoToPositive(n - 1);
    }
  }

  function BitOf(v: nat, i: nat): bool {
    TwoToPositive(i);
    v / TwoTo(i) % 2 == 1
  }

  /** The generator, reflected. */
  function Polynomial(): Bits {
    seq(32, i requires 0 <= i < 32 => BitOf(0x82f63b78, i))
  }

  /** One step of the division, low bit first. */
  function Bit(c: Bits): Bits {
    if c[0] then Xor(ShiftRight(c, 1), Polynomial()) else ShiftRight(c, 1)
  }

  function BitSteps(n: nat, c: Bits): Bits {
    if n == 0 then c else Bit(BitSteps(n - 1, c))
  }

  /** kByteExtensionTable. */
  function ByteTable(c: Bits): Bits {
    BitSteps(8, c)
  }

  /** A zero byte goes through the register. */
  function Zero(l: Bits): Bits {
    Xor(ByteTable(LowByte(l)), ShiftRight(l, 8))
  }

  /** STEP1. */
  function Step(l: Bits, b: Octet): Bits {
    Xor(ByteTable(Xor(LowByte(l), Shifted(b, 0))), ShiftRight(l, 8))
  }

  /** The register after these bytes. */
  function Register(l: Bits, data: seq<Octet>): Bits {
    if data == [] then l else Step(Register(l, data[..|data| - 1]), data[|data| - 1])
  }

  function Extended(crc: Bits, data: seq<Octet>): Bits {
    Xor(Register(Xor(crc, All()), data), All())
  }

  lemma {:induction false} RegisterJoins(l: Bits, a: seq<Octet>, b: seq<Octet>)
    ensures Register(l, a + b) == Register(Register(l, a), b)
    decreases |b|
  {
    hide Step;
    if b == [] {
      assert a + b == a;
    } else {
      RegisterJoins(l, a, b[..|b| - 1]);
      assert (a + b)[..|a + b| - 1] == a + b[..|b| - 1];
    }
  }

  /** A checksum may be extended piece by piece. */
  lemma ExtendJoins(crc: Bits, a: seq<Octet>, b: seq<Octet>)
    ensures Extended(Extended(crc, a), b) == Extended(crc, a + b)
  {
    hide Register, Xor;
    var start := Xor(crc, All());
    RegisterJoins(start, a, b);
    XorLaws(Register(start, a), All(), None(), None());
  }

  // ---------------------------------------------------------------- the register is linear

  lemma BitIsLinear(a: Bits, b: Bits)
    ensures Bit(Xor(a, b)) == Xor(Bit(a), Bit(b))
  {
    assert ShiftRight(Xor(a, b), 1) == Xor(ShiftRight(a, 1), ShiftRight(b, 1));
    XorLaws(ShiftRight(a, 1), Polynomial(), ShiftRight(b, 1), Polynomial());
    XorLaws(ShiftRight(a, 1), ShiftRight(b, 1), Polynomial(), None());
    XorLaws(ShiftRight(a, 1), Polynomial(), ShiftRight(b, 1), None());
    XorSelf(Polynomial());
  }

  lemma XorSelf(a: Bits)
    ensures Xor(a, a) == None()
  {
  }

  lemma {:induction false} BitStepsAreLinear(n: nat, a: Bits, b: Bits)
    ensures BitSteps(n, Xor(a, b)) == Xor(BitSteps(n, a), BitSteps(n, b))
  {
    hide Bit, Xor;
    if n > 0 {
      BitStepsAreLinear(n - 1, a, b);
      BitIsLinear(BitSteps(n - 1, a), BitSteps(n - 1, b));
    }
  }

  lemma ZeroIsLinear(a: Bits, b: Bits)
    ensures Zero(Xor(a, b)) == Xor(Zero(a), Zero(b))
  {
    PartsAreLinear(a, b);
    hide BitSteps, Xor, LowByte, ShiftRight;
    BitStepsAreLinear(8, LowByte(a), LowByte(b));
    XorLaws(ByteTable(LowByte(a)), ByteTable(LowByte(b)), ShiftRight(a, 8), ShiftRight(b, 8));
  }

  /** A byte goes through the register with the table as it does in eight steps of the division, bit by bit: eight
      steps take the low byte off, for its entry in the table. */
  lemma ByteIsEightSteps(l: Bits, b: Octet)
    ensures Step(l, b) == BitSteps(8, Xor(l, Shifted(b, 0)))
  {
    var x := Xor(l, Shifted(b, 0));
    var low, high := LowByte(x), Xor(x, LowByte(x));
    StepIsZero(l, b);
    HighPart(x);
    hide Bit, BitSteps, Step;
    BitStepsAreLinear(8, low, high);
    HighBitsMove(high, 8);
  }

  lemma HighPart(l: Bits)
    ensures var high := Xor(l, LowByte(l));
            (forall i :: 0 <= i < 8 ==> !high[i]) && Xor(LowByte(l), high) == l && ShiftRight(high, 8) == ShiftRight(l, 8)
  {
  }

  lemma {:induction false} HighBitsMove(high: Bits, n: nat)
    requires n <= 8 && forall i :: 0 <= i < 8 ==> !high[i]
    ensures BitSteps(n, high) == ShiftRight(high, n)
  {
    if n > 0 {
      HighBitsMove(high, n - 1);
      assert !ShiftRight(high, n - 1)[0];
      assert ShiftRight(ShiftRight(high, n - 1), 1) == ShiftRight(high, n);
    } else {
      assert ShiftRight(high, 0) == high;
    }
  }

  lemma PartsAreLinear(a: Bits, b: Bits)
    ensures LowByte(Xor(a, b)) == Xor(LowByte(a), LowByte(b))
    ensures ShiftRight(Xor(a, b), 8) == Xor(ShiftRight(a, 8), ShiftRight(b, 8))
  {
  }

  function Zeros(n: nat, l: Bits): Bits {
    if n == 0 then l else Zero(Zeros(n - 1, l))
  }

  lemma {:induction false} ZerosAreLinear(n: nat, a: Bits, b: Bits)
    ensures Zeros(n, Xor(a, b)) == Xor(Zeros(n, a), Zeros(n, b))
  {
    hide Zero, Xor;
    if n > 0 {
      ZerosAreLinear(n - 1, a, b);
      ZeroIsLinear(Zeros(n - 1, a), Zeros(n - 1, b));
    }
  }

  lemma {:induction false} ZerosJoin(m: nat, n: nat, l: Bits)
    ensures Zeros(m, Zeros(n, l)) == Zeros(m + n, l)
  {
    hide Zero;
    if m > 0 {
      ZerosJoin(m - 1, n, l);
    }
  }

  // ---------------------------------------------------------------- words

  /** ReadUint32LE. */
  function Word(data: seq<Octet>): Bits
    requires |data| == 4
  {
    var w: seq<bool> := data[0];
    w + data[1] + data[2] + data[3]
  }

  /** A byte is added to the register before it goes through. */
  lemma StepIsZero(l: Bits, b: Octet)
    ensures Step(l, b) == Zero(Xor(l, Shifted(b, 0)))
  {
    assert LowByte(Xor(l, Shifted(b, 0))) == Xor(LowByte(l), Shifted(b, 0));
    assert ShiftRight(Xor(l, Shifted(b, 0)), 8) == ShiftRight(l, 8);
  }

  /** What is not in the low byte is only moved down. */
  lemma HighBytesMove(w: Bits)
    requires LowByte(w) == None()
    ensures Zero(w) == ShiftRight(w, 8)
  {
    BitStepsOfNone(8);
    hide BitSteps;
    XorLaws(ShiftRight(w, 8), None(), None(), None());
  }

  lemma {:induction false} BitStepsOfNone(n: nat)
    ensures BitSteps(n, None()) == None()
  {
    if n > 0 {
      BitStepsOfNone(n - 1);
      assert ShiftRight(None(), 1) == None();
    }
  }

  /** One byte of a word goes through the register, and the others move down. */
  lemma ByteOfWord(l: Bits, w: Bits)
    ensures Zero(Xor(l, w)) == Xor(Step(l, ByteAt(w, 0)), ShiftRight(w, 8))
  {
    var low, high := Shifted(ByteAt(w, 0), 0), seq(32, i requires 0 <= i < 32 => i >= 8 && w[i]);
    assert w == Xor(low, high);
    assert LowByte(high) == None() && ShiftRight(high, 8) == ShiftRight(w, 8);
    hide Zero, Step, Xor, ShiftRight, LowByte, Shifted, ByteAt;
    StepIsZero(l, ByteAt(w, 0));
    HighBytesMove(high);
    XorLaws(l, low, high, None());
    ZeroIsLinear(Xor(l, low), high);
  }

  /** Four bytes are one word added to the register, and four zero bytes. */
  lemma WordStep(l: Bits, data: seq<Octet>)
    requires |data| == 4
    ensures Register(l, data) == Zeros(4, Xor(l, Word(data)))
  {
    var w0 := Word(data);
    var w1, w2, w3 := ShiftRight(w0, 8), ShiftRight(w0, 16), ShiftRight(w0, 24);
    WordBytes(data);
    hide Zero, Step, Xor, ShiftRight, ByteAt, Word;
    var l1 := Step(l, data[0]);
    var l2 := Step(l1, data[1]);
    var l3 := Step(l2, data[2]);
    var l4 := Step(l3, data[3]);
    ByteOfWord(l, w0);
    ByteOfWord(l1, w1);
    ByteOfWord(l2, w2);
    ByteOfWord(l3, w3);
    XorLaws(l4, None(), None(), None());
    FourZeros(Xor(l, w0));
    FourSteps(l, data);
  }

  lemma WordBytes(data: seq<Octet>)
    requires |data| == 4
    ensures var w0 := Word(data);
            var w1, w2, w3 := ShiftRight(w0, 8), ShiftRight(w0, 16), ShiftRight(w0, 24);
            && ByteAt(w0, 0) == data[0] && ByteAt(w1, 0) == data[1] && ByteAt(w2, 0) == data[2] && ByteAt(w3, 0) == data[3]
            && ShiftRight(w1, 8) == w2 && ShiftRight(w2, 8) == w3 && ShiftRight(w3, 8) == None()
  {
  }

  lemma FourZeros(l: Bits)
    ensures Zeros(4, l) == Zero(Zero(Zero(Zero(l))))
  {
    hide Zero;
    assert Zeros(1, l) == Zero(Zeros(0, l));
    assert Zeros(2, l) == Zero(Zeros(1, l));
    assert Zeros(3, l) == Zero(Zeros(2, l));
  }

  lemma FourSteps(l: Bits, data: seq<Octet>)
    requires |data| == 4
    ensures Register(l, data) == Step(Step(Step(Step(l, data[0]), data[1]), data[2]), data[3])
  {
    hide Step;
    assert data[..3][..2] == data[..2] && data[..2][..1] == data[..1] && data[..1][..0] == [];
    assert Register(l, data[..1]) == Step(l, data[0]);
    assert Register(l, data[..2]) == Step(Register(l, data[..1]), data[1]);
    assert Register(l, data[..3]) == Step(Register(l, data[..2]), data[2]);
  }

  // ---------------------------------------------------------------- four lanes

  /** What the register is, given the partial results of the four lanes. */
  function Lanes(c0: Bits, c1: Bits, c2: Bits, c3: Bits): Bits {
    Xor(Xor(Zeros(16, c0), Zeros(12, c1)), Xor(Zeros(8, c2), Zeros(4, c3)))
  }

  /** kStrideExtensionTable3, 2, 1 and 0, for k from 0 to 3. */
  function StrideTable(k: nat, b: Octet): Bits
    requires k < 4
  {
    Zeros(16, Shifted(b, k))
  }

  /** STEP4, with the word already read. */
  function Stride(c: Bits, w: Bits): Bits {
    Xor(Xor(Xor(Xor(w, StrideTable(0, ByteAt(c, 0))), StrideTable(1, ByteAt(c, 1))), StrideTable(2, ByteAt(c, 2))),
        StrideTable(3, ByteAt(c, 3)))
  }

  lemma BytesMakeWord(c: Bits)
    ensures c == Xor(Xor(Xor(Shifted(ByteAt(c, 0), 0), Shifted(ByteAt(c, 1), 1)), Shifted(ByteAt(c, 2), 2)),
                     Shifted(ByteAt(c, 3), 3))
  {
  }

  /** The four table lookups move the lane sixteen bytes on. */
  lemma StrideIsZeros(c: Bits, w: Bits)
    ensures Stride(c, w) == Xor(w, Zeros(16, c))
  {
    var s0, s1, s2, s3 := Shifted(ByteAt(c, 0), 0), Shifted(ByteAt(c, 1), 1), Shifted(ByteAt(c, 2), 2), Shifted(ByteAt(c, 3), 3);
    BytesMakeWord(c);
    hide Zeros, Shifted, ByteAt, Xor;
    ZerosAreLinear(16, Xor(Xor(s0, s1), s2), s3);
    ZerosAreLinear(16, Xor(s0, s1), s2);
    ZerosAreLinear(16, s0, s1);
    FiveTerms(w, Zeros(16, s0), Zeros(16, s1), Zeros(16, s2), Zeros(16, s3));
  }

  lemma FiveTerms(w: Bits, a: Bits, b: Bits, c: Bits, d: Bits)
    ensures Xor(Xor(Xor(Xor(w, a), b), c), d) == Xor(w, Xor(Xor(Xor(a, b), c), d))
    ensures Xor(Xor(Xor(a, b), Xor(c, d)), w) == Xor(Xor(b, c), Xor(d, Xor(w, a)))
  {
  }

  /** A word read moves every lane up one place, and the first lane, advanced, becomes the last. */
  lemma LaneWord(c0: Bits, c1: Bits, c2: Bits, c3: Bits, w: Bits)
    ensures Zeros(4, Xor(Lanes(c0, c1, c2, c3), w)) == Lanes(c1, c2, c3, Stride(c0, w))
  {
    StrideIsZeros(c0, w);
    hide Zeros, Xor, Stride;
    ZerosAreLinear(4, Lanes(c0, c1, c2, c3), w);
    ZerosAreLinear(4, Xor(Zeros(16, c0), Zeros(12, c1)), Xor(Zeros(8, c2), Zeros(4, c3)));
    ZerosAreLinear(4, Zeros(16, c0), Zeros(12, c1));
    ZerosAreLinear(4, Zeros(8, c2), Zeros(4, c3));
    ZerosJoin(4, 16, c0);
    ZerosJoin(4, 12, c1);
    ZerosJoin(4, 8, c2);
    ZerosJoin(4, 4, c3);
    ZerosAreLinear(4, w, Zeros(16, c0));
    FiveTerms(Zeros(4, w), Zeros(20, c0), Zeros(16, c1), Zeros(12, c2), Zeros(8, c3));
  }

  /** Four words one after the other through an empty register. */
  function Nested(c0: Bits, c1: Bits, c2: Bits, c3: Bits): Bits {
    Zeros(4, Xor(Zeros(4, Xor(Zeros(4, Xor(Zeros(4, c0), c1)), c2)), c3))
  }

  lemma NestedIsLanes(c0: Bits, c1: Bits, c2: Bits, c3: Bits)
    ensures Nested(c0, c1, c2, c3) == Lanes(c0, c1, c2, c3)
  {
    hide Zeros, Xor;
    var n1 := Xor(Zeros(4, c0), c1);
    var n2 := Xor(Zeros(4, n1), c2);
    ZerosAreLinear(4, Zeros(4, c0), c1);
    ZerosJoin(4, 4, c0);
    assert Zeros(4, n1) == Xor(Zeros(8, c0), Zeros(4, c1));
    ZerosAreLinear(4, Zeros(4, n1), c2);
    ZerosAreLinear(4, Zeros(8, c0), Zeros(4, c1));
    ZerosJoin(4, 8, c0);
    ZerosJoin(4, 4, c1);
    assert Zeros(4, n2) == Xor(Xor(Zeros(12, c0), Zeros(8, c1)), Zeros(4, c2));
    ZerosAreLinear(4, Zeros(4, n2), c3);
    ZerosAreLinear(4, Xor(Zeros(12, c0), Zeros(8, c1)), Zeros(4, c2));
    ZerosAreLinear(4, Zeros(12, c0), Zeros(8, c1));
    ZerosJoin(4, 12, c0);
    ZerosJoin(4, 8, c1);
    ZerosJoin(4, 4, c2);
    XorLaws(Xor(Zeros(16, c0), Zeros(12, c1)), Zeros(8, c2), Zeros(4, c3), None());
  }

  /** Sixteen bytes as four words. */
  lemma SwathStep(l: Bits, data: seq<Octet>)
    requires |data| == 16
    ensures Register(l, data)
            == Nested(Xor(l, Word(data[..4])), Word(data[4..8]), Word(data[8..12]), Word(data[12..]))
  {
    hide Word, Zeros, Xor, Register;
    assert data == data[..12] + data[12..] && data[..12] == data[..8] + data[8..12] && data[..8] == data[..4] + data[4..8];
    RegisterJoins(l, data[..12], data[12..]);
    RegisterJoins(l, data[..8], data[8..12]);
    RegisterJoins(l, data[..4], data[4..8]);
    var l1 := Register(l, data[..4]);
    var l2 := Register(l1, data[4..8]);
    var l3 := Register(l2, data[8..12]);
    WordStep(l, data[..4]);
    WordStep(l1, data[4..8]);
    WordStep(l2, data[8..12]);
    WordStep(l3, data[12..]);
  }

  /** STEP4W. */
  method FoldLane(l: Bits, c: Bits) returns (r: Bits)
    ensures r == Zeros(4, Xor(c, l))
  {
    hide ByteTable, Xor, LowByte, ShiftRight;
    r := Xor(c, l);
    for i := 0 to 4
      invariant r == Zeros(i, Xor(c, l))
    {
      XorLaws(ShiftRight(r, 8), ByteTable(LowByte(r)), None(), None());
      r := Xor(ShiftRight(r, 8), ByteTable(LowByte(r)));
    }
  }

  /** Extend, for a buffer that begins ahead bytes before a multiple of four. */
  method Extend(crc: Bits, data: seq<Octet>, ahead: nat) returns (r: Bits)
    requires ahead < 4
    ensures r == Extended(crc, data)
  {
    hide Register, Xor, Step, Word, Stride, Zeros, Lanes;
    ghost var start := Xor(crc, All());
    var l := Xor(crc, All());
    var p := 0;
    RegisterOfNone(start);
    assert data[..0] == [];
    if ahead <= |data| {
      l, p := StepBytes(start, l, data, 0, ahead);
    }
    if |data| - p >= 16 {
      l, p := RunLanes(start, l, data, p);
    }
    l, p := StepBytes(start, l, data, p, |data|);
    assert data[..|data|] == data;
    r := Xor(l, All());
  }

  lemma RegisterOfNone(l: Bits)
    ensures Register(l, []) == l
  {
  }

  /** STEP1 up to position end. */
  method StepBytes(ghost start: Bits, l: Bits, data: seq<Octet>, p: nat, end: nat) returns (r: Bits, q: nat)
    requires p <= end <= |data| && l == Register(start, data[..p])
    ensures q == end && r == Register(start, data[..end])
  {
    hide Step;
    r, q := l, p;
    while q != end
      invariant p <= q <= end && r == Register(start, data[..q])
      decreases end - q
    {
      assert data[..q + 1][..q] == data[..q];
      r := Step(r, data[q]);
      q := q + 1;
    }
  }

  /** The four-lane part: as many words as there are, then the lanes are combined. */
  method RunLanes(ghost start: Bits, l: Bits, data: seq<Octet>, p: nat) returns (r: Bits, q: nat)
    requires p + 16 <= |data| && l == Register(start, data[..p])
    ensures p < q <= |data| && r == Register(start, data[..q])
  {
    hide Register, Xor, Word, Stride, Zeros, Lanes;
    var c0, c1 := Xor(Word(data[p..p + 4]), l), Word(data[p + 4..p + 8]);
    var c2, c3 := Word(data[p + 8..p + 12]), Word(data[p + 12..p + 16]);
    FirstSwath(start, l, data, p);
    q := p + 16;
    while |data| - q >= 16
      invariant p < q <= |data| && Register(start, data[..q]) == Lanes(c0, c1, c2, c3)
      decreases |data| - q
    {
      NextWord(start, data, q, c0, c1, c2, c3);
      c0 := Stride(c0, Word(data[q..q + 4]));
      NextWord(start, data, q + 4, c1, c2, c3, c0);
      c1 := Stride(c1, Word(data[q + 4..q + 8]));
      NextWord(start, data, q + 8, c2, c3, c0, c1);
      c2 := Stride(c2, Word(data[q + 8..q + 12]));
      NextWord(start, data, q + 12, c3, c0, c1, c2);
      c3 := Stride(c3, Word(data[q + 12..q + 16]));
      q := q + 16;
    }
    while |data| - q >= 4
      invariant p < q <= |data| && Register(start, data[..q]) == Lanes(c0, c1, c2, c3)
      decreases |data| - q
    {
      NextWord(start, data, q, c0, c1, c2, c3);
      c0 := Stride(c0, Word(data[q..q + 4]));
      c0, c1, c2, c3 := c1, c2, c3, c0;
      q := q + 4;
    }
    NestedIsLanes(c0, c1, c2, c3);
    FoldOrder(c0, c1, c2, c3);
    r := FoldLane(None(), c0);
    r := FoldLane(r, c1);
    r := FoldLane(r, c2);
    r := FoldLane(r, c3);
  }

  lemma SliceOfSlice(data: seq<Octet>, p: nat, a: nat, b: nat)
    requires p + 16 <= |data| && a <= b <= 16
    ensures data[p..p + 16][a..b] == data[p + a..p + b]
  {
    var part, whole := data[p..p + 16][a..b], data[p + a..p + b];
    forall i | 0 <= i < b - a
      ensures part[i] == whole[i]
    {
    }
  }

  lemma FirstSwath(start: Bits, l: Bits, data: seq<Octet>, p: nat)
    requires p + 16 <= |data| && l == Register(start, data[..p])
    ensures Register(start, data[..p + 16])
            == Lanes(Xor(Word(data[p..p + 4]), l), Word(data[p + 4..p + 8]), Word(data[p + 8..p + 12]), Word(data[p + 12..p + 16]))
  {
    hide Register, Xor, Word, Zeros, Lanes, Nested;
    var swath := data[p..p + 16];
    assert data[..p + 16] == data[..p] + swath;
    RegisterJoins(start, data[..p], swath);
    SwathStep(l, swath);
    SliceOfSlice(data, p, 0, 4);
    SliceOfSlice(data, p, 4, 8);
    SliceOfSlice(data, p, 8, 12);
    SliceOfSlice(data, p, 12, 16);
    XorLaws(l, Word(data[p..p + 4]), None(), None());
    NestedIsLanes(Xor(Word(data[p..p + 4]), l), Word(data[p + 4..p + 8]), Word(data[p + 8..p + 12]), Word(data[p + 12..p + 16]));
  }

  lemma NextWord(start: Bits, data: seq<Octet>, q: nat, c0: Bits, c1: Bits, c2: Bits, c3: Bits)
    requires q + 4 <= |data| && Register(start, data[..q]) == Lanes(c0, c1, c2, c3)
    ensures Register(start, data[..q + 4]) == Lanes(c1, c2, c3, Stride(c0, Word(data[q..q + 4])))
  {
    hide Register, Xor, Word, Stride, Zeros, Lanes;
    var w := data[q..q + 4];
    assert data[..q + 4] == data[..q] + w;
    RegisterJoins(start, data[..q], w);
    WordStep(Register(start, data[..q]), w);
    LaneWord(c0, c1, c2, c3, Word(w));
  }

  lemma FoldOrder(c0: Bits, c1: Bits, c2: Bits, c3: Bits)
    ensures Nested(c0, c1, c2, c3)
            == Zeros(4, Xor(c3, Zeros(4, Xor(c2, Zeros(4, Xor(c1, Zeros(4, Xor(c0, None()))))))))
  {
    hide Zeros, Xor;
    XorLaws(c0, None(), None(), None());
    var n1 := Zeros(4, c0);
    XorLaws(c1, n1, None(), None());
    var n2 := Zeros(4, Xor(n1, c1));
    XorLaws(c2, n2, None(), None());
    var n3 := Zeros(4, Xor(n2, c2));
    XorLaws(c3, n3, None(), None());
  }

  // ---------------------------------------------------------------- two known values

  /** A single bit. */
  function Only(k: nat): Bits {
    seq(32, i requires 0 <= i < 32 => i == k)
  }

  lemma {:induction false} ShiftedDown(n: nat, k: nat)
    requires n <= k < 32
    ensures BitSteps(n, Only(k)) == Only(k - n)
  {
    hide Polynomial;
    if n > 0 {
      ShiftedDown(n - 1, k);
      assert ShiftRight(Only(k - n + 1), 1) == Only(k - n);
    }
  }

  /** Entry 128 of the byte table is the generator. */
  lemma LastOfTable()
    ensures ByteTable(Only(7)) == Polynomial()
  {
    hide Polynomial, BitSteps;
    ShiftedDown(7, 7);
    UnrollSteps(7, Only(7));
    assert ShiftRight(Only(0), 1) == None();
    XorLaws(Polynomial(), None(), None(), None());
  }

  lemma UnrollSteps(n: nat, c: Bits)
    ensures BitSteps(n + 1, c) == Bit(BitSteps(n, c))
  {
    hide Bit;
  }

  /** The checksum of one byte 0xff is 0xff000000. */
  lemma ChecksumOfFF()
    ensures Extended(None(), [seq(8, _ => true)]) == seq(32, i => i >= 24)
  {
    hide Polynomial;
    var ff: Octet := seq(8, _ => true);
    XorLaws(All(), None(), None(), None());
    assert Xor(LowByte(All()), Shifted(ff, 0)) == None();
    StepsOfNone(8);
    XorLaws(ShiftRight(All(), 8), None(), None(), None());
    assert Step(All(), ff) == ShiftRight(All(), 8);
    assert [ff][..0] == [];
    assert Register(All(), [ff]) == Step(Register(All(), []), ff);
    assert Xor(ShiftRight(All(), 8), All()) == seq(32, i => i >= 24);
  }

  lemma {:induction false} StepsOfNone(n: nat)
    ensures BitSteps(n, None()) == None()
  {
    hide Polynomial;
    if n > 0 {
      StepsOfNone(n - 1);
      assert ShiftRight(None(), 1) == None();
    }
  }
}
