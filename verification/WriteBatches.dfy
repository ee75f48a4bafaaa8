/**
 Batches of writes as bytes (db/write_batch.cc): what is appended, what Iterate makes of any
 bytes, and how two batches become one.
 */
module WriteBatches {
  import opened InternalKeys
  import opened Coding

  datatype Op = Put(key: Bytes, value: Bytes) | Delete(key: Bytes)

  datatype Status = Ok | TooSmall | BadPut | BadDelete | UnknownTag | WrongCount

  /** 8 bytes of sequence number and 4 of count. */
  const HEADER: nat := 12

  const TWO_31: nat := 0x8000_0000

  // ---------------------------------------------------------------- what bytes mean

  datatype ParsedOp = Read(op: Op, next: nat) | Bad(status: Status)

  function ParseOp(b: Bytes, p: nat): (r: ParsedOp)
    requires p < |b|
    ensures r.Read? ==> p < r.next <= |b|
    ensures r.Bad? ==> r.status in {BadPut, BadDelete, UnknownTag}
  {
    if b[p] == 1 then
      var key := GetLengthPrefixed(b, p + 1);
      if key.None? then Bad(BadPut)
      else
        var value := GetLengthPrefixed(b, key.value.next);
        if value.None? then Bad(BadPut) else Read(Put(key.value.slice, value.value.slice), value.value.next)
    else if b[p] == 0 then
      var key := GetLengthPrefixed(b, p + 1);
      if key.None? then Bad(BadDelete) else Read(Delete(key.value.slice), key.value.next)
    else Bad(UnknownTag)
  }

  /** What the handler is told, and the status at the end. */
  datatype Told = Told(ops: seq<Op>, status: Status)

  /** Having told ops, from p on. */
  function ToldFrom(b: Bytes, p: nat, ops: seq<Op>): Told
    requires HEADER <= p <= |b|
    decreases |b| - p
  {
    if p == |b| then Told(ops, if |ops| == CountOf(b) then Ok else WrongCount)
    else
      var r := ParseOp(b, p);
      if r.Bad? then Told(ops, r.status) else ToldFrom(b, r.next, ops + [r.op])
  }

  function Iterated(b: Bytes): Told {
    if |b| < HEADER then Told([], TooSmall) else ToldFrom(b, HEADER, [])
  }

  /** The count is read as a signed number. */
  function CountOf(b: Bytes): int
    requires |b| >= HEADER
  {
    var n := DecodeFixed32(b[8..]);
    if n < TWO_31 then n else n - TWO_32
  }

  // ---------------------------------------------------------------- what operations are written as

  function Encoded(op: Op): Bytes {
    match op
    case Put(key, value) => [1] + (LengthPrefixed(key) + LengthPrefixed(value))
    case Delete(key) => [0] + LengthPrefixed(key)
  }

  function AllEncoded(ops: seq<Op>): Bytes {
    if ops == [] then [] else AllEncoded(ops[..|ops| - 1]) + Encoded(ops[|ops| - 1])
  }

  predicate Fits(op: Op) {
    |op.key| < TWO_32 && (op.Put? ==> |op.value| < TWO_32)
  }

  predicate AllFit(ops: seq<Op>) {
    forall k :: 0 <= k < |ops| ==> Fits(ops[k])
  }

  lemma HoldsByte(b: Bytes, p: nat, x: byte)
    requires Holds(b, p, |b|, [x])
    ensures p < |b| && b[p] == x
  {
    assert b[p..p + 1][0] == x;
  }

  lemma PutParses(b: Bytes, p: nat, key: Bytes, q: nat, value: Bytes, r: nat)
    requires p < |b| && b[p] == 1 && GetLengthPrefixed(b, p + 1) == Some(ParsedSlice(key, q))
    requires GetLengthPrefixed(b, q) == Some(ParsedSlice(value, r))
    ensures ParseOp(b, p) == Read(Put(key, value), r)
  {
    hide GetLengthPrefixed;
  }

  lemma PutReads(b: Bytes, p: nat, key: Bytes, value: Bytes)
    requires |key| < TWO_32 && |value| < TWO_32
    requires Holds(b, p, |b|, [1] + (LengthPrefixed(key) + LengthPrefixed(value)))
    ensures p < |b|
    ensures ParseOp(b, p) == Read(Put(key, value), p + 1 + |LengthPrefixed(key)| + |LengthPrefixed(value)|)
  {
    hide *;
    var k, v := LengthPrefixed(key), LengthPrefixed(value);
    HoldsParts(b, p, |b|, [1], k + v);
    HoldsParts(b, p + 1, |b|, k, v);
    HoldsByte(b, p, 1);
    LengthPrefixedRoundTrip(b, p + 1, key);
    LengthPrefixedRoundTrip(b, p + 1 + |k|, value);
    PutParses(b, p, key, p + 1 + |k|, value, p + 1 + |k| + |v|);
  }

  lemma DeleteReads(b: Bytes, p: nat, key: Bytes)
    requires |key| < TWO_32 && Holds(b, p, |b|, [0] + LengthPrefixed(key))
    ensures p < |b| && ParseOp(b, p) == Read(Delete(key), p + 1 + |LengthPrefixed(key)|)
  {
    hide LengthPrefixed, GetLengthPrefixed, Holds;
    HoldsParts(b, p, |b|, [0], LengthPrefixed(key));
    HoldsByte(b, p, 0);
    LengthPrefixedRoundTrip(b, p + 1, key);
  }

  lemma OpReads(b: Bytes, p: nat, op: Op)
    requires Fits(op) && Holds(b, p, |b|, Encoded(op))
    ensures p < |b| && ParseOp(b, p) == Read(op, p + |Encoded(op)|)
  {
    hide Holds, LengthPrefixed, ParseOp;
    match op
    case Put(key, value) => PutReads(b, p, key, value);
    case Delete(key) => DeleteReads(b, p, key);
  }

  /** Operation i is where the ones before it end. */
  lemma {:induction false} OpIsThere(b: Bytes, p: nat, ops: seq<Op>, i: nat)
    requires i < |ops| && Holds(b, p, |b|, AllEncoded(ops))
    ensures Holds(b, p + |AllEncoded(ops[..i])|, |b|, Encoded(ops[i]))
    ensures AllEncoded(ops[..i + 1]) == AllEncoded(ops[..i]) + Encoded(ops[i])
    ensures |AllEncoded(ops[..i + 1])| <= |AllEncoded(ops)|
    decreases |ops|
  {
    hide Encoded, Holds;
    var n := |ops| - 1;
    HoldsParts(b, p, |b|, AllEncoded(ops[..n]), Encoded(ops[n]));
    assert ops[..i + 1][..i] == ops[..i];
    if i < n {
      OpIsThere(b, p, ops[..n], i);
      assert ops[..n][..i] == ops[..i] && ops[..n][..i + 1] == ops[..i + 1];
    } else {
      assert ops[..i + 1] == ops;
    }
  }

  lemma {:induction false} OpsRead(b: Bytes, ops: seq<Op>, i: nat)
    requires |b| == HEADER + |AllEncoded(ops)| && Holds(b, HEADER, |b|, AllEncoded(ops)) && i <= |ops|
    requires AllFit(ops)
    ensures HEADER + |AllEncoded(ops[..i])| <= |b|
    ensures ToldFrom(b, HEADER + |AllEncoded(ops[..i])|, ops[..i]) == Told(ops, if |ops| == CountOf(b) then Ok else WrongCount)
    decreases |ops| - i
  {
    hide Encoded, Holds, AllEncoded, ParseOp, CountOf, Fits;
    if i == |ops| {
      assert ops[..i] == ops;
    } else {
      OpIsThere(b, HEADER, ops, i);
      OpReads(b, HEADER + |AllEncoded(ops[..i])|, ops[i]);
      OpsRead(b, ops, i + 1);
      assert ops[..i] + [ops[i]] == ops[..i + 1];
    }
  }

  // ---------------------------------------------------------------- the bytes of a batch

  /** A header and the operations. */
  ghost predicate IsBatch(b: Bytes, sequence: nat, ops: seq<Op>) {
    && |ops| < TWO_31 && sequence < TWO_64 && AllFit(ops)
    && b == EncodeFixed64(sequence) + EncodeFixed32(|ops|) + AllEncoded(ops)
  }

  lemma HeaderReads(b: Bytes, sequence: nat, ops: seq<Op>)
    requires IsBatch(b, sequence, ops)
    ensures |b| == HEADER + |AllEncoded(ops)| && DecodeFixed64(b) == sequence && CountOf(b) == |ops|
    ensures b[..8] == EncodeFixed64(sequence) && b[8..12] == EncodeFixed32(|ops|) && b[12..] == AllEncoded(ops)
  {
    hide AllEncoded, EncodeFixed64, EncodeFixed32, DecodeFixed64, DecodeFixed32;
    var head, count, rest := EncodeFixed64(sequence), EncodeFixed32(|ops|), AllEncoded(ops);
    Fixed32Size(|ops|);
    Fixed64RoundTrip(sequence, count + rest);
    Fixed32RoundTrip(|ops|, rest);
    assert b == head + (count + rest);
    assert b[8..] == count + rest;
  }

  /** A batch is read as the operations it was made of, in order, and as a good one. */
  lemma BatchReads(b: Bytes, sequence: nat, ops: seq<Op>)
    requires IsBatch(b, sequence, ops)
    ensures Iterated(b) == Told(ops, Ok)
  {
    hide AllEncoded, IsBatch, CountOf, EncodeFixed64, EncodeFixed32, DecodeFixed64, ToldFrom, AllFit;
    HeaderReads(b, sequence, ops);
    BatchFacts(b, sequence, ops);
    assert ops[..0] == [];
    NothingEncoded();
    OpsRead(b, ops, 0);
  }

  /** With another count in the header the same operations are told, but the batch is not a good one. */
  lemma WrongCountIsFound(sequence: nat, ops: seq<Op>, n: nat)
    requires sequence < TWO_64 && AllFit(ops) && n < TWO_31 && n != |ops|
    ensures Iterated(EncodeFixed64(sequence) + EncodeFixed32(n) + AllEncoded(ops)) == Told(ops, WrongCount)
  {
    hide AllEncoded, CountOf, EncodeFixed64, EncodeFixed32, DecodeFixed64, ToldFrom, AllFit;
    CountReads(sequence, n, AllEncoded(ops));
    assert ops[..0] == [];
    NothingEncoded();
    OpsRead(EncodeFixed64(sequence) + EncodeFixed32(n) + AllEncoded(ops), ops, 0);
  }

  lemma CountReads(sequence: nat, n: nat, rest: Bytes)
    requires sequence < TWO_64 && n < TWO_31
    ensures var b := EncodeFixed64(sequence) + EncodeFixed32(n) + rest;
            |b| == HEADER + |rest| && Holds(b, HEADER, |b|, rest) && CountOf(b) == n
  {
    hide EncodeFixed64, EncodeFixed32, DecodeFixed32;
    Fixed32Size(n);
    Fixed32RoundTrip(n, rest);
    var b := EncodeFixed64(sequence) + EncodeFixed32(n) + rest;
    assert b[8..] == EncodeFixed32(n) + rest;
  }

  lemma NothingEncoded()
    ensures AllEncoded([]) == []
  {
  }

  /** So no two batches have the same bytes. */
  lemma BytesTell(b: Bytes, s1: nat, ops1: seq<Op>, s2: nat, ops2: seq<Op>)
    requires IsBatch(b, s1, ops1) && IsBatch(b, s2, ops2)
    ensures s1 == s2 && ops1 == ops2
  {
    hide IsBatch, Iterated;
    HeaderReads(b, s1, ops1);
    HeaderReads(b, s2, ops2);
    BatchReads(b, s1, ops1);
    BatchReads(b, s2, ops2);
  }

  lemma {:induction false} EncodedJoins(a: seq<Op>, b: seq<Op>)
    ensures AllEncoded(a + b) == AllEncoded(a) + AllEncoded(b)
    decreases |b|
  {
    hide Encoded;
    if b == [] {
      assert a + b == a;
    } else {
      EncodedJoins(a, b[..|b| - 1]);
      assert (a + b)[..|a + b| - 1] == a + b[..|b| - 1];
    }
  }

  lemma BatchFacts(b: Bytes, sequence: nat, ops: seq<Op>)
    requires IsBatch(b, sequence, ops)
    ensures |ops| < TWO_31 && sequence < TWO_64 && AllFit(ops)
  {
  }

  lemma MakesBatch(sequence: nat, ops: seq<Op>)
    requires |ops| < TWO_31 && sequence < TWO_64 && AllFit(ops)
    ensures IsBatch(EncodeFixed64(sequence) + EncodeFixed32(|ops|) + AllEncoded(ops), sequence, ops)
  {
  }

  lemma FitJoins(a: seq<Op>, b: seq<Op>)
    ensures AllFit(a) && AllFit(b) ==> AllFit(a + b)
  {
    hide Fits;
  }

  lemma Regroup(a: Bytes, b: Bytes, c: Bytes, d: Bytes)
    ensures a + b + c + d == a + b + (c + d)
  {
  }

  /** The bytes with another count and more operations are a batch again. */
  lemma Extended(b: Bytes, sequence: nat, ops: seq<Op>, more: seq<Op>)
    requires IsBatch(b, sequence, ops) && |ops| + |more| < TWO_31 && AllFit(more)
    ensures |b| >= HEADER
    ensures IsBatch(b[..8] + EncodeFixed32(|ops| + |more|) + b[12..] + AllEncoded(more), sequence, ops + more)
  {
    hide AllEncoded, EncodeFixed64, EncodeFixed32, AllFit, IsBatch, DecodeFixed64, CountOf;
    HeaderReads(b, sequence, ops);
    BatchFacts(b, sequence, ops);
    EncodedJoins(ops, more);
    FitJoins(ops, more);
    Regroup(EncodeFixed64(sequence), EncodeFixed32(|ops| + |more|), AllEncoded(ops), AllEncoded(more));
    MakesBatch(sequence, ops + more);
  }

  /** The bytes with another sequence number are the same batch with that number. */
  lemma Renumbered(b: Bytes, sequence: nat, ops: seq<Op>, next: nat)
    requires IsBatch(b, sequence, ops) && next < TWO_64
    ensures |b| >= HEADER && IsBatch(EncodeFixed64(next) + b[8..], next, ops)
  {
    hide AllEncoded, EncodeFixed64, EncodeFixed32, AllFit, IsBatch, DecodeFixed64, CountOf;
    HeaderReads(b, sequence, ops);
    BatchFacts(b, sequence, ops);
    assert b[8..] == b[8..12] + b[12..];
    assert EncodeFixed64(next) + b[8..] == EncodeFixed64(next) + b[8..12] + b[12..];
    MakesBatch(next, ops);
  }

  lemma EmptyBatch(b: Bytes)
    requires |b| == HEADER && forall i :: 0 <= i < |b| ==> b[i] == 0
    ensures IsBatch(b, 0, [])
  {
    assert EncodeFixed32(0) == [0, 0, 0, 0];
    assert b == EncodeFixed64(0) + EncodeFixed32(0) + [];
  }

  class WriteBatch {
    var rep: Bytes
    ghost var sequence: nat
    ghost var ops: seq<Op>

    ghost predicate Valid()
      reads this
    {
      IsBatch(rep, sequence, ops)
    }

    constructor ()
      ensures Valid() && ops == [] && sequence == 0
    {
      rep, sequence, ops := seq(HEADER, _ => 0), 0, [];
      new;
      EmptyBatch(rep);
    }

    method Clear()
      modifies this
      ensures Valid() && ops == [] && sequence == 0
    {
      rep, sequence, ops := seq(HEADER, _ => 0), 0, [];
      EmptyBatch(rep);
    }

    function Count(): (n: int)
      requires Valid()
      reads this
      ensures n == |ops|
    {
      HeaderReads(rep, sequence, ops);
      CountOf(rep)
    }

    method SetSequence(seq_: nat)
      requires Valid() && seq_ < TWO_64
      modifies this`rep, this`sequence
      ensures Valid() && sequence == seq_
    {
      hide IsBatch;
      Renumbered(rep, sequence, ops, seq_);
      rep, sequence := EncodeFixed64(seq_) + rep[8..], seq_;
    }

    /** The count in the header goes up before the operation is appended. */
    method PutEntry(key: Bytes, value: Bytes)
      requires Valid() && |ops| + 1 < TWO_31 && Fits(Put(key, value))
      modifies this`rep, this`ops
      ensures Valid() && ops == old(ops) + [Put(key, value)]
    {
      hide IsBatch, AllEncoded, LengthPrefixed, EncodeFixed32, Encoded;
      var op := Put(key, value);
      OneEncoded(op);
      assert AllFit([op]);
      Extended(rep, sequence, ops, [op]);
      SetCount(Count() + 1);
      PutBytes(rep, key, value);
      rep := rep + [1];
      rep := rep + LengthPrefixed(key);
      rep := rep + LengthPrefixed(value);
      ops := ops + [op];
    }

    method DeleteEntry(key: Bytes)
      requires Valid() && |ops| + 1 < TWO_31 && Fits(Delete(key))
      modifies this`rep, this`ops
      ensures Valid() && ops == old(ops) + [Delete(key)]
    {
      hide IsBatch, AllEncoded, LengthPrefixed, EncodeFixed32, Encoded;
      var op := Delete(key);
      OneEncoded(op);
      assert AllFit([op]);
      Extended(rep, sequence, ops, [op]);
      SetCount(Count() + 1);
      DeleteBytes(rep, key);
      rep := rep + [0];
      rep := rep + LengthPrefixed(key);
      ops := ops + [op];
    }

    method SetCount(n: Word)
      requires |rep| >= HEADER
      modifies this`rep
      ensures rep == old(rep)[..8] + EncodeFixed32(n) + old(rep)[12..]
    {
      rep := rep[..8] + EncodeFixed32(n) + rep[12..];
    }

    /** The operations of the source follow; its sequence number is not looked at. */
    method Append(source: WriteBatch)
      requires Valid() && source.Valid() && source != this && |ops| + |source.ops| < TWO_31
      modifies this`rep, this`ops
      ensures Valid() && ops == old(ops) + source.ops
    {
      hide IsBatch, AllEncoded, EncodeFixed32, EncodeFixed64, DecodeFixed64, AllFit, CountOf;
      BatchFacts(source.rep, source.sequence, source.ops);
      Extended(rep, sequence, ops, source.ops);
      HeaderReads(source.rep, source.sequence, source.ops);
      SetCount(Count() + source.Count());
      rep := rep + source.rep[12..];
      ops := ops + source.ops;
    }
  }

  lemma OneEncoded(op: Op)
    ensures AllEncoded([op]) == Encoded(op)
  {
    assert [op][..0] == [];
    assert [] + Encoded(op) == Encoded(op);
  }

  lemma PutBytes(b: Bytes, key: Bytes, value: Bytes)
    ensures b + [1] + LengthPrefixed(key) + LengthPrefixed(value) == b + Encoded(Put(key, value))
  {
    hide LengthPrefixed;
  }

  lemma DeleteBytes(b: Bytes, key: Bytes)
    ensures b + [0] + LengthPrefixed(key) == b + Encoded(Delete(key))
  {
    hide LengthPrefixed;
  }

  /** WriteBatch::Iterate, over any bytes; the handler is told each operation before the next is read. */
  method Iterate(rep: Bytes) returns (told: seq<Op>, status: Status)
    ensures Told(told, status) == Iterated(rep)
  {
    hide ParseOp, CountOf;
    told := [];
    if |rep| < HEADER {
      return told, TooSmall;
    }
    var p, found := HEADER, 0;
    while p < |rep|
      invariant HEADER <= p <= |rep| && found == |told| && ToldFrom(rep, p, told) == Iterated(rep)
    {
      found := found + 1;
      var r := ParseOp(rep, p);
      if r.Bad? {
        return told, r.status;
      }
      told := told + [r.op];
      p := r.next;
    }
    status := if found == CountOf(rep) then Ok else WrongCount;
  }

  /** An operation as the memtable gets it. */
  datatype Added = Added(sequence: nat, op: Op)

  /** WriteBatchInternal::InsertInto: a batch enters with consecutive sequence numbers from its own on; of malformed
      bytes everything before the fault does. */
  method InsertInto(rep: Bytes) returns (added: seq<Added>, status: Status)
    requires |rep| >= 8
    ensures status == Iterated(rep).status && |added| == |Iterated(rep).ops|
    ensures forall i :: 0 <= i < |added| ==> added[i] == Added(DecodeFixed64(rep) + i, Iterated(rep).ops[i])
  {
    hide Iterated, DecodeFixed64;
    var sequence := DecodeFixed64(rep);
    var told;
    told, status := Iterate(rep);
    added := [];
    for i := 0 to |told|
      invariant sequence == DecodeFixed64(rep) + i && |added| == i
      invariant forall k :: 0 <= k < i ==> added[k] == Added(DecodeFixed64(rep) + k, told[k])
    {
      added := added + [Added(sequence, told[i])];
      sequence := sequence + 1;
    }
  }
}
