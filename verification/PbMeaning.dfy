/**
 What the bytes of a message mean to nanopb's decoder (pb_decode.c): a message is a run of
 occurrences of fields, in any order and any number of times; each changes the struct in its
 own way. The decoder accepts exactly the bytes that are such a run, with every required
 field among them, and gives the struct with the changes made one after the other.
 */
module PbMeaning {
  import opened InternalKeys
  import opened Coding
  import opened PbTypes
  import opened PbVarints
  import opened PbEncode
  import opened PbDecode
  import opened PbReading

  // ---------------------------------------------------------------- what an occurrence does to a struct

  datatype Occurrence =
    | Unknown                                            // of a field the descriptor does not have
    | Scalar(field: nat, value: Datum)                   // a number, or the bytes of a string or byte array
    | Run(field: nat, numbers: seq<int>)                 // packed items of an array
    | Nested(field: nat, inner: seq<Occurrence>)         // of a submessage

  /** The value has room where it goes. */
  predicate Given(t: LType, d: Datum) {
    match t
    case ByteArray(max) => d.Data? && |d.bytes| <= max
    case Text(size) => d.Data? && |d.bytes| < size
    case FixedBytes(size) => d.Data? && (d.bytes == [] || |d.bytes| == size)
    case Submessage(_) => false
    case _ => Shaped(t, d)
  }

  /** A string is ended, and what is behind it stays. No bytes at all clear a byte array of fixed length. */
  function Over(t: LType, was: Datum, d: Datum): (r: Datum)
    requires Given(t, d) && Shaped(t, was)
    ensures Shaped(t, r)
  {
    match t
    case Text(_) => Data(d.bytes + [0] + was.bytes[|d.bytes| + 1..])
    case FixedBytes(size) => if d.bytes == [] then Data(Zeros(size)) else d
    case _ => d
  }

  /** What a new value is laid over. */
  function Under(f: Field, s: Slot): (r: Datum)
    requires ShapedSlot(f, s) && GoodField(f)
    ensures Shaped(f.ltype, r)
  {
    BlankIsShaped(f.ltype);
    match s
    case One(value) => value
    case Maybe(_, value) => value
    case Many(_) => Blank(f.ltype)
    case Branch(_) => Blank(f.ltype)
  }

  function Put(f: Field, s: Slot, d: Datum): (r: Slot)
    requires ShapedSlot(f, s) && Shaped(f.ltype, d)
    ensures ShapedSlot(f, r)
  {
    match s
    case One(_) => One(d)
    case Maybe(_, _) => Maybe(true, d)
    case Many(items) => Many(items + [d])
    case Branch(_) => Branch(Some(d))
  }

  /** An array takes so many more items. */
  predicate HasRoom(f: Field, s: Slot, n: nat) {
    s.Many? && f.htype.Repeated? && n > 0 ==> |s.items| + n <= f.htype.max
  }

  /** Setting one branch of a oneof unsets the others. */
  function Updated(fields: seq<Field>, slots: seq<Slot>, i: nat, s: Slot): (r: seq<Slot>)
    requires i < |fields| == |slots|
    ensures |r| == |slots|
  {
    seq(|slots|, j requires 0 <= j < |slots| =>
      if j == i then s
      else if fields[i].htype.Oneof? && fields[j].htype == fields[i].htype then Branch(None)
      else slots[j])
  }

  lemma UpdatedIsShaped(t: LType, slots: seq<Slot>, i: nat, s: Slot)
    requires t.Submessage? && Shaped(t, Message(slots)) && i < |t.fields| && ShapedSlot(t.fields[i], s)
    ensures |slots| == |t.fields| && Updated(t.fields, slots, i, s) == Stored(t.fields, slots, i, s)
    ensures Shaped(t, Message(Updated(t.fields, slots, i, s)))
  {
    hide ShapedSlot;
    StoredIsShaped(t, slots, i, s);
  }

  function AsData(numbers: seq<int>): seq<Datum> {
    seq(|numbers|, i requires 0 <= i < |numbers| => Number(numbers[i]))
  }

  predicate AllShaped(t: LType, numbers: seq<int>) {
    forall i :: 0 <= i < |numbers| ==> Shaped(t, Number(numbers[i]))
  }

  /** The struct after an occurrence; None if there is no room. */
  function Meaning(t: LType, slots: seq<Slot>, o: Occurrence): (r: Option<seq<Slot>>)
    requires t.Submessage? && GoodType(t) && Shaped(t, Message(slots))
    ensures r.Some? ==> Shaped(t, Message(r.value))
    decreases o
  {
    if o.Unknown? then Some(slots)
    else if o.field >= |t.fields| then None
    else
      var i := o.field;
      var f, s := t.fields[i], slots[i];
      match o
      case Scalar(_, d) =>
        if !Given(f.ltype, d) || !HasRoom(f, s, 1) then None
        else
          var after := Put(f, s, Over(f.ltype, Under(f, s), d));
          UpdatedIsShaped(t, slots, i, after);
          Some(Updated(t.fields, slots, i, after))
      case Run(_, numbers) =>
        if !f.htype.Repeated? || !AllShaped(f.ltype, numbers) || !HasRoom(f, s, |numbers|) then None
        else
          var after := Many(s.items + AsData(numbers));
          UpdatedIsShaped(t, slots, i, after);
          Some(Updated(t.fields, slots, i, after))
      case Nested(_, inner) =>
        if !f.ltype.Submessage? || !HasRoom(f, s, 1) then None
        else
          var m := Means(f.ltype, Under(f, s).slots, inner);
          if m.None? then None
          else
            var after := Put(f, s, Message(m.value));
            UpdatedIsShaped(t, slots, i, after);
            Some(Updated(t.fields, slots, i, after))
  }

  /** The struct after all of them. */
  function Means(t: LType, slots: seq<Slot>, occurrences: seq<Occurrence>): (r: Option<seq<Slot>>)
    requires t.Submessage? && GoodType(t) && Shaped(t, Message(slots))
    ensures r.Some? ==> Shaped(t, Message(r.value))
    decreases occurrences
  {
    if occurrences == [] then Some(slots)
    else
      var r := Meaning(t, slots, occurrences[0]);
      if r.None? then None else Means(t, r.value, occurrences[1..])
  }

  predicate IsOf(o: Occurrence, i: nat) {
    !o.Unknown? && o.field == i
  }

  predicate Occurs(occurrences: seq<Occurrence>, i: nat) {
    exists k :: 0 <= k < |occurrences| && IsOf(occurrences[k], i)
  }

  /** Each of the first 64 required fields occurs. */
  predicate Complete(fields: seq<Field>, occurrences: seq<Occurrence>) {
    forall i: nat :: i < |fields| && fields[i].htype.Required? && RequiredBefore(fields, i) < 64 ==> Occurs(occurrences, i)
  }

  // ---------------------------------------------------------------- which bytes are an occurrence

  /** A 64-bit word stands for a number of this type. */
  predicate WordMeans(t: LType, v: nat, n: int) {
    match t
    case Varint(size) =>
      var low, half := if size == 8 then v else v % 0x1_0000_0000, if size == 8 then 0x8000_0000_0000_0000 else 0x8000_0000;
      n == (if low < half then low else low - 2 * half) && InSigned(size, n)
    case UVarint(size) => n == v && InUnsigned(size, n)
    case SVarint(size) => v == (if n >= 0 then 2 * n else -2 * n - 1) && InSigned(size, n)
    case _ => false
  }

  ghost predicate NumberAt(t: LType, b: Bytes, p: nat, q: nat, limit: nat, n: int)
    requires p <= limit <= |b|
  {
    match t
    case Bool =>
      exists v: nat :: DecodeVarint32(b, p, limit) == Some(Parsed(v, q)) && n == if v == 0 then 0 else 1
    case Fixed32 => q == p + 4 && q <= limit && 0 <= n < TWO_32 && b[p..q] == EncodeFixed32(n)
    case Fixed64 => q == p + 8 && q <= limit && 0 <= n < TWO_64 && b[p..q] == EncodeFixed64(n)
    case _ => p < q <= limit && IsVarint(b[p..q], 10) && WordMeans(t, Groups(b[p..q]) % TWO_64, n)
  }

  /** Bytes with their number before them. */
  ghost predicate SizedAt(b: Bytes, p: nat, q: nat, limit: nat, s: Bytes)
    requires p <= limit <= |b|
  {
    exists r: nat :: DecodeVarint32(b, p, limit) == Some(Parsed(|s|, r)) && r + |s| == q && q <= limit && b[r..q] == s
  }

  ghost predicate RunAt(t: LType, b: Bytes, p: nat, limit: nat, numbers: seq<int>)
    requires p <= limit <= |b|
    decreases |numbers|
  {
    if numbers == [] then p == limit
    else exists q: nat :: q <= limit && NumberAt(t, b, p, q, limit, numbers[0]) && RunAt(t, b, q, limit, numbers[1..])
  }

  /** What an unknown field takes by its wire type. */
  ghost predicate PassedAt(wireType: nat, b: Bytes, p: nat, q: nat, limit: nat)
    requires p <= limit <= |b|
  {
    || (wireType == 0 && p < q <= limit && b[q - 1] < 128 && forall i :: p <= i < q - 1 ==> b[i] >= 128)
    || (wireType == 1 && q == p + 8 && q <= limit)
    || (wireType == 2 && exists s :: SizedAt(b, p, q, limit, s))
    || (wireType == 5 && q == p + 4 && q <= limit)
  }

  ghost predicate OccurrenceAt(t: LType, b: Bytes, p: nat, q: nat, limit: nat, o: Occurrence)
    requires t.Submessage? && p <= limit <= |b|
    decreases o, 1
  {
    exists key: nat, m: nat ::
      DecodeVarint32(b, p, limit) == Some(Parsed(key, m)) && m <= limit && key != 0 && BodyAt(t, key / 8, key % 8, b, m, q, limit, o)
  }

  /** What follows the key. In an empty message a tag of 0 is taken for a bool. */
  ghost predicate BodyAt(t: LType, tag: nat, wireType: nat, b: Bytes, p: nat, q: nat, limit: nat, o: Occurrence)
    requires t.Submessage? && p <= limit <= |b|
    decreases o, 0
  {
    if o.Unknown? then
      && (forall i :: 0 <= i < |t.fields| ==> t.fields[i].tag != tag)
      && (if t.fields == [] && tag == 0 then exists n :: NumberAt(Bool, b, p, q, limit, n) else PassedAt(wireType, b, p, q, limit))
    else
      && o.field < |t.fields|
      && var f := t.fields[o.field];
         && f.tag == tag
         && match o
            case Scalar(_, d) =>
              && !f.ltype.Submessage? && !(f.htype.Repeated? && Packable(f.ltype) && wireType == 2)
              && (if d.Number? then Packable(f.ltype) && NumberAt(f.ltype, b, p, q, limit, d.n)
                  else d.Data? && SizedAt(b, p, q, limit, d.bytes))
            case Run(_, numbers) =>
              && f.htype.Repeated? && Packable(f.ltype) && wireType == 2
              && exists r: nat, n: nat :: DecodeVarint32(b, p, limit) == Some(Parsed(n, r)) && r + n == q && q <= limit && RunAt(f.ltype, b, r, q, numbers)
            case Nested(_, inner) =>
              && f.ltype.Submessage?
              && exists r: nat, n: nat ::
                   DecodeVarint32(b, p, limit) == Some(Parsed(n, r)) && r + n == q && q <= limit && MessageAt(f.ltype, b, r, q, inner)
  }

  /** A run of occurrences up to the limit or to a key of 0, with every required field. */
  ghost predicate MessageAt(t: LType, b: Bytes, p: nat, limit: nat, occurrences: seq<Occurrence>)
    requires t.Submessage? && p <= limit <= |b|
    decreases occurrences, 2
  {
    Complete(t.fields, occurrences) && OccurrencesAt(t, b, p, limit, occurrences)
  }

  ghost predicate OccurrencesAt(t: LType, b: Bytes, p: nat, limit: nat, occurrences: seq<Occurrence>)
    requires t.Submessage? && p <= limit <= |b|
    decreases occurrences, 1
  {
    if occurrences == [] then p == limit || exists m: nat :: DecodeVarint32(b, p, limit) == Some(Parsed(0, m))
    else exists q: nat :: q <= limit && OccurrenceAt(t, b, p, q, limit, occurrences[0]) && OccurrencesAt(t, b, q, limit, occurrences[1..])
  }

  // ---------------------------------------------------------------- values

  lemma WordIsRead(b: Bytes, p: nat, q: nat, limit: nat)
    requires p <= limit <= |b|
    ensures var r := GetVarint64(b, p, limit);
            r.Some? && r.value.next == q <==> p < q <= limit && IsVarint(b[p..q], 10)
    ensures var r := GetVarint64(b, p, limit); r.Some? ==> r.value.value == Groups(b[p..r.value.next]) % TWO_64
  {
    hide IsVarint, Groups, GetVarintFrom;
    VarintMeans(b, p, limit, 0, 0, 10, TWO_64);
    assert forall v: nat :: ShiftedBy(v, 0) == v;
  }

  lemma SignedMeans(v: nat)
    requires v < TWO_64
    ensures Signed(8, v) == if v < 0x8000_0000_0000_0000 then v else v - 2 * 0x8000_0000_0000_0000
    ensures Signed(4, v) == if v % 0x1_0000_0000 < 0x8000_0000 then v % 0x1_0000_0000 else v % 0x1_0000_0000 - 2 * 0x8000_0000
  {
  }

  lemma ZigZagMeans(v: nat, n: int)
    ensures v == (if n >= 0 then 2 * n else -2 * n - 1) <==> n == UnZigZag(v)
  {
  }

  /** The number a word stands for, before it is put into the type's range. */
  function WordAs(t: LType, v: nat): int {
    match t
    case Varint(size) => Signed(if size == 8 then 8 else 4, v)
    case UVarint(_) => v
    case _ => UnZigZag(v)
  }

  /** The word is put into the type's range, or it does not fit. */
  lemma WordFits(t: LType, v: nat, n: int, next: nat)
    requires (t.Varint? || t.UVarint? || t.SVarint?) && v < TWO_64
    ensures WordMeans(t, v, n) <==> InType(t, WordAs(t, v), next) == Some(ParsedNumber(n, next))
  {
    SignedMeans(v);
    ZigZagMeans(v, n);
    hide Signed, UnZigZag, InSigned, InUnsigned;
  }

  lemma FixedIsRead(b: Bytes, p: nat, n: nat)
    ensures p + 4 <= |b| && n < TWO_32 ==> (DecodeFixed32(b[p..p + 4]) == n <==> b[p..p + 4] == EncodeFixed32(n))
    ensures p + 8 <= |b| && n < TWO_64 ==> (DecodeFixed64(b[p..p + 8]) == n <==> b[p..p + 8] == EncodeFixed64(n))
  {
    hide EncodeFixed32, DecodeFixed32, EncodeFixed64, DecodeFixed64;
    if p + 4 <= |b| && n < TWO_32 {
      Fixed32IsUnique(b[p..p + 4]);
      Fixed32RoundTrip(n, []);
      assert EncodeFixed32(n) + [] == EncodeFixed32(n);
    }
    if p + 8 <= |b| && n < TWO_64 {
      Fixed64IsUnique(b[p..p + 8]);
      Fixed64RoundTrip(n, []);
      assert EncodeFixed64(n) + [] == EncodeFixed64(n);
    }
  }

  /** A number is read exactly where there is one. */
  lemma NumberMeans(t: LType, b: Bytes, p: nat, q: nat, limit: nat, n: int)
    requires Packable(t) && GoodType(t) && p <= limit <= |b|
    ensures DecodeNumber(t, b, p, limit) == Some(ParsedNumber(n, q)) <==> NumberAt(t, b, p, q, limit, n)
  {
    hide DecodeVarint32, GetVarint64, IsVarint, Groups, WordMeans, InType, EncodeFixed32, DecodeFixed32, EncodeFixed64, DecodeFixed64;
    match t
    case Bool =>
    case Fixed32 =>
      if n >= 0 {
        FixedIsRead(b, p, n);
      }
    case Fixed64 =>
      if n >= 0 {
        FixedIsRead(b, p, n);
      }
    case Varint(_) => WordIsRead(b, p, q, limit); LongWord(t, b, p, q, limit, n);
    case UVarint(_) => WordIsRead(b, p, q, limit); LongWord(t, b, p, q, limit, n);
    case SVarint(_) => WordIsRead(b, p, q, limit); LongWord(t, b, p, q, limit, n);
  }

  lemma LongWord(t: LType, b: Bytes, p: nat, q: nat, limit: nat, n: int)
    requires (t.Varint? || t.UVarint? || t.SVarint?) && GoodType(t) && p <= limit <= |b|
    ensures DecodeNumber(t, b, p, limit) == Some(ParsedNumber(n, q)) <==>
            GetVarint64(b, p, limit).Some? && GetVarint64(b, p, limit).value.next == q
            && WordMeans(t, GetVarint64(b, p, limit).value.value, n)
  {
    hide GetVarintFrom, WordMeans, InType, Signed, UnZigZag;
    var v := GetVarint64(b, p, limit);
    if v.Some? {
      WordFits(t, v.value.value, n, v.value.next);
      InTypeIs(t, v.value.next);
    }
  }

  lemma InTypeIs(t: LType, next: nat)
    requires Packable(t)
    ensures forall m: int :: InType(t, m, next).Some? ==> InType(t, m, next).value == ParsedNumber(m, next)
  {
  }

  lemma BytesAre(t: LType, b: Bytes, p: nat, q: nat, limit: nat, was: Datum, s: Bytes)
    requires (t.ByteArray? || t.Text? || t.FixedBytes?) && p <= limit <= |b| && Shaped(t, was)
    requires SizedAt(b, p, q, limit, s) && Given(t, Data(s))
    ensures DecodeBytes(t, b, p, limit, was.bytes) == Some(ParsedSlice(Over(t, was, Data(s)).bytes, q))
  {
    hide DecodeVarint32;
  }

  lemma BytesWereThere(t: LType, b: Bytes, p: nat, limit: nat, was: Datum) returns (s: Bytes)
    requires (t.ByteArray? || t.Text? || t.FixedBytes?) && p <= limit <= |b| && Shaped(t, was)
    requires DecodeBytes(t, b, p, limit, was.bytes).Some?
    ensures var r := DecodeBytes(t, b, p, limit, was.bytes).value;
            SizedAt(b, p, r.next, limit, s) && Given(t, Data(s)) && Over(t, was, Data(s)) == Data(r.slice)
  {
    hide DecodeVarint32;
    var size := DecodeVarint32(b, p, limit).value;
    s := b[size.next..size.next + size.value];
  }

  /** A number or bytes, by themselves. */
  ghost predicate DatumAt(t: LType, b: Bytes, p: nat, q: nat, limit: nat, d: Datum)
    requires p <= limit <= |b|
  {
    if d.Number? then Packable(t) && NumberAt(t, b, p, q, limit, d.n) else d.Data? && SizedAt(b, p, q, limit, d.bytes)
  }

  lemma ScalarIsRead(t: LType, b: Bytes, p: nat, q: nat, limit: nat, was: Datum, d: Datum)
    requires !t.Submessage? && GoodType(t) && p <= limit <= |b| && Shaped(t, was) && DatumAt(t, b, p, q, limit, d) && Given(t, d)
    ensures DecodeValue(t, b, p, limit, was) == Some(ParsedDatum(Over(t, was, d), q))
  {
    hide DecodeNumber, DecodeBytes, NumberAt, SizedAt;
    if d.Number? {
      NumberMeans(t, b, p, q, limit, d.n);
    } else {
      BytesAre(t, b, p, q, limit, was, d.bytes);
    }
  }

  lemma ScalarWasThere(t: LType, b: Bytes, p: nat, limit: nat, was: Datum) returns (d: Datum)
    requires !t.Submessage? && GoodType(t) && p <= limit <= |b| && Shaped(t, was) && DecodeValue(t, b, p, limit, was).Some?
    ensures var r := DecodeValue(t, b, p, limit, was).value;
            DatumAt(t, b, p, r.next, limit, d) && Given(t, d) && Over(t, was, d) == r.datum
  {
    hide DecodeNumber, DecodeBytes, NumberAt, SizedAt;
    if Packable(t) {
      var r := DecodeNumber(t, b, p, limit).value;
      NumberMeans(t, b, p, r.next, limit, r.n);
      d := Number(r.n);
    } else {
      var s := BytesWereThere(t, b, p, limit, was);
      d := Data(s);
    }
  }

  lemma NumberIsInside(t: LType, b: Bytes, p: nat, q: nat, limit: nat, n: int)
    requires Packable(t) && GoodType(t) && p <= limit <= |b| && NumberAt(t, b, p, q, limit, n)
    ensures p < q <= limit && Shaped(t, Number(n))
  {
    hide DecodeNumber, NumberAt;
    NumberMeans(t, b, p, q, limit, n);
  }

  lemma {:induction false} RunIsRead(t: LType, b: Bytes, p: nat, limit: nat, items: seq<Datum>, max: nat, numbers: seq<int>)
    requires Packable(t) && GoodType(t) && p <= limit <= |b| && (forall i :: 0 <= i < |items| ==> Shaped(t, items[i]))
    requires RunAt(t, b, p, limit, numbers) && (numbers != [] ==> |items| + |numbers| <= max)
    ensures DecodePacked(t, b, p, limit, items, max) == Some(items + AsData(numbers))
    decreases |numbers|
  {
    hide DecodeNumber, NumberAt, Shaped;
    if numbers == [] {
      assert items + AsData(numbers) == items;
    } else {
      var q: nat :| q <= limit && NumberAt(t, b, p, q, limit, numbers[0]) && RunAt(t, b, q, limit, numbers[1..]);
      NumberIsInside(t, b, p, q, limit, numbers[0]);
      NumberMeans(t, b, p, q, limit, numbers[0]);
      RunIsRead(t, b, q, limit, items + [Number(numbers[0])], max, numbers[1..]);
      assert items + [Number(numbers[0])] + AsData(numbers[1..]) == items + AsData(numbers);
    }
  }

  lemma {:induction false} RunWasThere(t: LType, b: Bytes, p: nat, limit: nat, items: seq<Datum>, max: nat) returns (numbers: seq<int>)
    requires Packable(t) && GoodType(t) && p <= limit <= |b| && (forall i :: 0 <= i < |items| ==> Shaped(t, items[i]))
    requires DecodePacked(t, b, p, limit, items, max).Some?
    ensures RunAt(t, b, p, limit, numbers) && AllShaped(t, numbers) && (numbers != [] ==> |items| + |numbers| <= max)
    ensures DecodePacked(t, b, p, limit, items, max).value == items + AsData(numbers)
    decreases limit - p
  {
    hide DecodeNumber, NumberAt, Shaped;
    if p == limit {
      numbers := [];
      assert items + AsData(numbers) == items;
    } else {
      var v := DecodeNumber(t, b, p, limit).value;
      NumberMeans(t, b, p, v.next, limit, v.n);
      var rest := RunWasThere(t, b, v.next, limit, items + [Number(v.n)], max);
      numbers := [v.n] + rest;
      assert numbers[0] == v.n && numbers[1..] == rest;
      assert items + [Number(v.n)] + AsData(rest) == items + AsData(numbers);
    }
  }

  // ---------------------------------------------------------------- unknown fields

  lemma {:induction false} PassedVarint(b: Bytes, p: nat, q: nat, limit: nat)
    requires p <= limit <= |b|
    ensures SkipVarint(b, p, limit) == Some(q) <==> p < q <= limit && b[q - 1] < 128 && forall i :: p <= i < q - 1 ==> b[i] >= 128
    decreases limit - p
  {
    if p < limit && b[p] >= 128 {
      PassedVarint(b, p + 1, q, limit);
    }
  }

  lemma SizeIsThere(b: Bytes, p: nat, q: nat, limit: nat)
    requires p <= limit <= |b|
    ensures var size := DecodeVarint32(b, p, limit);
            size.Some? && size.value.next + size.value.value == q && q <= limit <==> exists s :: SizedAt(b, p, q, limit, s)
  {
    hide DecodeVarint32;
    var size := DecodeVarint32(b, p, limit);
    if size.Some? && size.value.next + size.value.value == q && q <= limit {
      assert SizedAt(b, p, q, limit, b[size.value.next..q]);
    }
  }

  /** A field is skipped exactly over what its wire type takes. */
  lemma UnknownMeans(fields: seq<Field>, tag: nat, wireType: nat, b: Bytes, p: nat, q: nat, limit: nat)
    requires p <= limit <= |b|
    ensures SkipUnknown(fields, tag, wireType, b, p, limit) == Some(q) <==>
            if fields == [] && tag == 0 then exists n :: NumberAt(Bool, b, p, q, limit, n) else PassedAt(wireType, b, p, q, limit)
  {
    hide DecodeVarint32, SizedAt, SkipVarint;
    PassedVarint(b, p, q, limit);
    SizeIsThere(b, p, q, limit);
    var v := DecodeVarint32(b, p, limit);
    if v.Some? {
      assert NumberAt(Bool, b, p, v.value.next, limit, if v.value.value == 0 then 0 else 1);
    }
  }

  // ---------------------------------------------------------------- one occurrence

  lemma SlotIsValue(f: Field, wireType: nat, b: Bytes, p: nat, limit: nat, s: Slot)
    requires p <= limit <= |b| && ShapedSlot(f, s) && GoodField(f) && !(f.htype.Repeated? && Packable(f.ltype) && wireType == 2)
    ensures GoodType(f.ltype)
    ensures DecodeSlot(f, wireType, b, p, limit, s)
            == if !HasRoom(f, s, 1) then None
               else
                 var v := DecodeValue(f.ltype, b, p, limit, Under(f, s));
                 if v.None? then None else Some(ParsedSlot(Put(f, s, v.value.datum), v.value.next))
  {
    hide DecodeValue, DecodePacked, DecodeVarint32, Packable, Blank, Shaped, GoodType;
    GoodTag(f);
  }

  lemma SlotIsRun(f: Field, b: Bytes, p: nat, limit: nat, s: Slot)
    requires p <= limit <= |b| && ShapedSlot(f, s) && GoodField(f) && f.htype.Repeated? && Packable(f.ltype)
    ensures s.Many? && GoodType(f.ltype) && forall i :: 0 <= i < |s.items| ==> Shaped(f.ltype, s.items[i])
    ensures DecodeSlot(f, 2, b, p, limit, s)
            == var size := DecodeVarint32(b, p, limit);
               if size.None? || limit - size.value.next < size.value.value then None
               else
                 var end := size.value.next + size.value.value;
                 var items := DecodePacked(f.ltype, b, size.value.next, end, s.items, f.htype.max);
                 if items.None? then None else Some(ParsedSlot(Many(items.value), end))
  {
    hide DecodeValue, DecodePacked, DecodeVarint32, Packable, Blank, Shaped, GoodType;
    GoodTag(f);
  }

  lemma MessageValue(t: LType, b: Bytes, p: nat, limit: nat, was: Datum)
    requires t.Submessage? && GoodType(t) && p <= limit <= |b| && Shaped(t, was)
    ensures was.Message? && was == Message(was.slots)
    ensures DecodeValue(t, b, p, limit, was)
            == var size := DecodeVarint32(b, p, limit);
               if size.None? || limit - size.value.next < size.value.value then None
               else
                 var end := size.value.next + size.value.value;
                 var slots := DecodeFields(t, b, size.value.next, end, was.slots, {});
                 if slots.None? then None else Some(ParsedDatum(Message(slots.value), end))
  {
    hide DecodeFields, DecodeVarint32, GoodType;
  }

  lemma IndexIs(fields: seq<Field>, i: nat)
    requires i < |fields| && DistinctTags(fields)
    ensures IndexOf(fields, fields[i].tag) == Some(i)
  {
  }

  function SeenBy(fields: seq<Field>, o: Occurrence, seen: set<nat>): set<nat> {
    if o.Unknown? || o.field >= |fields| then seen else Noted(fields, o.field, seen)
  }

  /** The field an occurrence is of. */
  lemma FieldFacts(t: LType, slots: seq<Slot>, i: nat)
    requires t.Submessage? && GoodType(t) && Shaped(t, Message(slots)) && i < |t.fields|
    ensures DistinctTags(t.fields) && GoodField(t.fields[i]) && |slots| == |t.fields| && ShapedSlot(t.fields[i], slots[i])
    ensures GoodType(t.fields[i].ltype)
  {
    GoodTag(t.fields[i]);
  }

  lemma OneOfField(t: LType, i: nat, wireType: nat, b: Bytes, p: nat, limit: nat, slots: seq<Slot>, seen: set<nat>)
    requires t.Submessage? && GoodType(t) && p <= limit <= |b| && Shaped(t, Message(slots)) && i < |t.fields| && wireType < 8
    requires |slots| == |t.fields| && GoodField(t.fields[i]) && ShapedSlot(t.fields[i], slots[i])
    ensures (t.fields[i].tag * 8 + wireType) / 8 == t.fields[i].tag && (t.fields[i].tag * 8 + wireType) % 8 == wireType
    ensures DecodeOne(t, t.fields[i].tag * 8 + wireType, b, p, limit, slots, seen)
            == var s := DecodeSlot(t.fields[i], wireType, b, p, limit, slots[i]);
               if s.None? then None
               else Some(Progress(Updated(t.fields, slots, i, s.value.slot), Noted(t.fields, i, seen), s.value.next))
  {
    FieldFacts(t, slots, i);
    IndexIs(t.fields, i);
    var s := DecodeSlot(t.fields[i], wireType, b, p, limit, slots[i]);
    if s.Some? {
      UpdatedIsShaped(t, slots, i, s.value.slot);
    }
    hide DecodeSlot, Shaped, ShapedSlot, GoodType, GoodField, Noted, Updated, Stored, SkipUnknown, IndexOf;
  }

  lemma {:induction false} OneIsRead(t: LType, key: nat, b: Bytes, p: nat, q: nat, limit: nat, slots: seq<Slot>, seen: set<nat>, o: Occurrence)
    requires t.Submessage? && GoodType(t) && p <= limit <= |b| && Shaped(t, Message(slots))
    requires BodyAt(t, key / 8, key % 8, b, p, q, limit, o) && Meaning(t, slots, o).Some?
    ensures q <= limit
    ensures DecodeOne(t, key, b, p, limit, slots, seen) == Some(Progress(Meaning(t, slots, o).value, SeenBy(t.fields, o, seen), q))
    decreases o, 0
  {
    hide *;
    if o.Unknown? {
      UnknownIsRead(t, key, b, p, q, limit, slots, seen);
      SeenOfUnknown(t.fields, seen);
    } else {
      FieldOfBody(t, key / 8, key % 8, b, p, q, limit, o);
      SeenOfField(t.fields, o, seen);
      match o
      case Scalar(i, d) => ScalarSlotIsRead(t, key, b, p, q, limit, slots, seen, i, d);
      case Run(i, numbers) => RunSlotIsRead(t, key, b, p, q, limit, slots, seen, i, numbers);
      case Nested(i, inner) => NestedSlotIsRead(t, key, b, p, q, limit, slots, seen, i, inner);
    }
  }

  lemma FieldOfBody(t: LType, tag: nat, wireType: nat, b: Bytes, p: nat, q: nat, limit: nat, o: Occurrence)
    requires t.Submessage? && p <= limit <= |b| && BodyAt(t, tag, wireType, b, p, q, limit, o) && !o.Unknown?
    ensures o.field < |t.fields|
  {
    hide DecodeVarint32, NumberAt, SizedAt, RunAt, MessageAt;
  }

  lemma UnknownIsRead(t: LType, key: nat, b: Bytes, p: nat, q: nat, limit: nat, slots: seq<Slot>, seen: set<nat>)
    requires t.Submessage? && GoodType(t) && p <= limit <= |b| && Shaped(t, Message(slots))
    requires BodyAt(t, key / 8, key % 8, b, p, q, limit, Unknown)
    ensures q <= limit && Meaning(t, slots, Unknown) == Some(slots)
    ensures DecodeOne(t, key, b, p, limit, slots, seen) == Some(Progress(slots, seen, q))
  {
    UnknownMeans(t.fields, key / 8, key % 8, b, p, q, limit);
    hide SkipUnknown, PassedAt, NumberAt, Shaped, GoodType;
  }

  /** What the two definitions say of one occurrence. */
  lemma ScalarFacts(t: LType, tag: nat, wireType: nat, b: Bytes, p: nat, q: nat, limit: nat, slots: seq<Slot>, i: nat, d: Datum)
    requires t.Submessage? && GoodType(t) && p <= limit <= |b| && Shaped(t, Message(slots))
    requires BodyAt(t, tag, wireType, b, p, q, limit, Scalar(i, d)) && Meaning(t, slots, Scalar(i, d)).Some?
    ensures i < |t.fields| == |slots|
    ensures var f, s := t.fields[i], slots[i];
            && f.tag == tag && GoodField(f) && ShapedSlot(f, s) && !f.ltype.Submessage? && !(f.htype.Repeated? && Packable(f.ltype) && wireType == 2)
            && DatumAt(f.ltype, b, p, q, limit, d) && Given(f.ltype, d) && HasRoom(f, s, 1)
            && Meaning(t, slots, Scalar(i, d)) == Some(Updated(t.fields, slots, i, Put(f, s, Over(f.ltype, Under(f, s), d))))
  {
    if i < |t.fields| {
      FieldFacts(t, slots, i);
    }
    hide DecodeVarint32, GoodType, GoodField, Shaped, ShapedSlot, NumberAt, SizedAt, Over, Under, Put, Updated, Packable;
  }

  lemma ScalarSlotIsRead(t: LType, key: nat, b: Bytes, p: nat, q: nat, limit: nat, slots: seq<Slot>, seen: set<nat>, i: nat, d: Datum)
    requires t.Submessage? && GoodType(t) && p <= limit <= |b| && Shaped(t, Message(slots)) && i < |t.fields|
    requires BodyAt(t, key / 8, key % 8, b, p, q, limit, Scalar(i, d)) && Meaning(t, slots, Scalar(i, d)).Some?
    ensures q <= limit
    ensures DecodeOne(t, key, b, p, limit, slots, seen)
            == Some(Progress(Meaning(t, slots, Scalar(i, d)).value, Noted(t.fields, i, seen), q))
  {
    hide *;
    ScalarFacts(t, key / 8, key % 8, b, p, q, limit, slots, i, d);
    FieldFacts(t, slots, i);
    OneOfField(t, i, key % 8, b, p, limit, slots, seen);
    var f, s := t.fields[i], slots[i];
    SlotIsValue(f, key % 8, b, p, limit, s);
    ScalarIsRead(f.ltype, b, p, q, limit, Under(f, s), d);
  }

  lemma RunFacts(t: LType, tag: nat, wireType: nat, b: Bytes, p: nat, q: nat, limit: nat, slots: seq<Slot>, i: nat, numbers: seq<int>)
    returns (r: nat, n: nat)
    requires t.Submessage? && GoodType(t) && p <= limit <= |b| && Shaped(t, Message(slots))
    requires BodyAt(t, tag, wireType, b, p, q, limit, Run(i, numbers)) && Meaning(t, slots, Run(i, numbers)).Some?
    ensures i < |t.fields| == |slots|
    ensures var f, s := t.fields[i], slots[i];
            && f.tag == tag && GoodField(f) && ShapedSlot(f, s) && f.htype.Repeated? && Packable(f.ltype) && wireType == 2 && s.Many?
            && DecodeVarint32(b, p, limit) == Some(Parsed(n, r)) && r + n == q && q <= limit && RunAt(f.ltype, b, r, q, numbers)
            && (numbers != [] ==> |s.items| + |numbers| <= f.htype.max)
            && Meaning(t, slots, Run(i, numbers)) == Some(Updated(t.fields, slots, i, Many(s.items + AsData(numbers))))
  {
    if i < |t.fields| {
      FieldFacts(t, slots, i);
      ArrayIs(t.fields[i], slots[i]);
    }
    hide DecodeVarint32, GoodType, GoodField, Shaped, ShapedSlot, NumberAt, RunAt, Updated, Packable, AsData, AllShaped;
    r, n :| DecodeVarint32(b, p, limit) == Some(Parsed(n, r)) && r + n == q && q <= limit && RunAt(t.fields[i].ltype, b, r, q, numbers);
  }

  lemma ArrayIs(f: Field, s: Slot)
    requires ShapedSlot(f, s)
    ensures f.htype.Repeated? <==> s.Many?
  {
  }

  lemma RunSlotIsRead(t: LType, key: nat, b: Bytes, p: nat, q: nat, limit: nat, slots: seq<Slot>, seen: set<nat>, i: nat, numbers: seq<int>)
    requires t.Submessage? && GoodType(t) && p <= limit <= |b| && Shaped(t, Message(slots)) && i < |t.fields|
    requires BodyAt(t, key / 8, key % 8, b, p, q, limit, Run(i, numbers)) && Meaning(t, slots, Run(i, numbers)).Some?
    ensures q <= limit
    ensures DecodeOne(t, key, b, p, limit, slots, seen)
            == Some(Progress(Meaning(t, slots, Run(i, numbers)).value, Noted(t.fields, i, seen), q))
  {
    hide *;
    var r, n := RunFacts(t, key / 8, key % 8, b, p, q, limit, slots, i, numbers);
    FieldFacts(t, slots, i);
    OneOfField(t, i, key % 8, b, p, limit, slots, seen);
    var f, s := t.fields[i], slots[i];
    SlotIsRun(f, b, p, limit, s);
    RunIsRead(f.ltype, b, r, q, s.items, f.htype.max, numbers);
  }

  lemma NestedFacts(t: LType, tag: nat, wireType: nat, b: Bytes, p: nat, q: nat, limit: nat, slots: seq<Slot>, i: nat,
                    inner: seq<Occurrence>)
    returns (r: nat, n: nat)
    requires t.Submessage? && GoodType(t) && p <= limit <= |b| && Shaped(t, Message(slots))
    requires BodyAt(t, tag, wireType, b, p, q, limit, Nested(i, inner)) && Meaning(t, slots, Nested(i, inner)).Some?
    ensures i < |t.fields| == |slots|
    ensures var f, s := t.fields[i], slots[i];
            && f.tag == tag && GoodField(f) && ShapedSlot(f, s) && f.ltype.Submessage? && GoodType(f.ltype) && !Packable(f.ltype)
            && DecodeVarint32(b, p, limit) == Some(Parsed(n, r)) && r + n == q && q <= limit && MessageAt(f.ltype, b, r, q, inner)
            && HasRoom(f, s, 1) && Under(f, s).Message? && Under(f, s) == Message(Under(f, s).slots)
            && var m := Means(f.ltype, Under(f, s).slots, inner);
               && m.Some?
               && Meaning(t, slots, Nested(i, inner)) == Some(Updated(t.fields, slots, i, Put(f, s, Message(m.value))))
  {
    if i < |t.fields| {
      FieldFacts(t, slots, i);
      if t.fields[i].ltype.Submessage? {
        IsMessage(t.fields[i].ltype, Under(t.fields[i], slots[i]));
      }
    }
    hide DecodeVarint32, GoodType, GoodField, Shaped, ShapedSlot, MessageAt, Updated, Put, Under, Means;
    r, n :| DecodeVarint32(b, p, limit) == Some(Parsed(n, r)) && r + n == q && q <= limit && MessageAt(t.fields[i].ltype, b, r, q, inner);
  }

  lemma IsMessage(t: LType, v: Datum)
    requires t.Submessage? && Shaped(t, v)
    ensures v.Message? && v == Message(v.slots)
  {
  }

  lemma {:induction false} NestedSlotIsRead(t: LType, key: nat, b: Bytes, p: nat, q: nat, limit: nat, slots: seq<Slot>, seen: set<nat>,
                                            i: nat, inner: seq<Occurrence>)
    requires t.Submessage? && GoodType(t) && p <= limit <= |b| && Shaped(t, Message(slots)) && i < |t.fields|
    requires BodyAt(t, key / 8, key % 8, b, p, q, limit, Nested(i, inner)) && Meaning(t, slots, Nested(i, inner)).Some?
    ensures q <= limit
    ensures DecodeOne(t, key, b, p, limit, slots, seen)
            == Some(Progress(Meaning(t, slots, Nested(i, inner)).value, Noted(t.fields, i, seen), q))
    decreases inner, 3
  {
    hide *;
    var r, n := NestedFacts(t, key / 8, key % 8, b, p, q, limit, slots, i, inner);
    FieldFacts(t, slots, i);
    OneOfField(t, i, key % 8, b, p, limit, slots, seen);
    var f, s := t.fields[i], slots[i];
    SlotIsValue(f, key % 8, b, p, limit, s);
    MessageValue(f.ltype, b, p, limit, Under(f, s));
    MessageIsRead(f.ltype, b, r, q, Under(f, s).slots, inner);
  }

  function SeenByAll(fields: seq<Field>, occurrences: seq<Occurrence>, seen: set<nat>): set<nat> {
    if occurrences == [] then seen else SeenByAll(fields, occurrences[1..], SeenBy(fields, occurrences[0], seen))
  }

  /** Decoding a run of occurrences that has every required field. */
  lemma {:induction false} MessageIsRead(t: LType, b: Bytes, p: nat, limit: nat, slots: seq<Slot>, occurrences: seq<Occurrence>)
    requires t.Submessage? && GoodType(t) && p <= limit <= |b| && Shaped(t, Message(slots))
    requires MessageAt(t, b, p, limit, occurrences) && Means(t, slots, occurrences).Some?
    ensures DecodeFields(t, b, p, limit, slots, {}) == Means(t, slots, occurrences)
    decreases occurrences, 2
  {
    hide OccurrencesAt, DecodeFields, Means, Shaped, GoodType, Complete, AllSeen;
    CompleteIsSeen(t.fields, occurrences);
    OccurrencesAreRead(t, b, p, limit, slots, {}, occurrences);
  }

  lemma {:induction false} OccurrencesAreRead(t: LType, b: Bytes, p: nat, limit: nat, slots: seq<Slot>, seen: set<nat>,
                                              occurrences: seq<Occurrence>)
    requires t.Submessage? && GoodType(t) && p <= limit <= |b| && Shaped(t, Message(slots))
    requires OccurrencesAt(t, b, p, limit, occurrences) && Means(t, slots, occurrences).Some?
    requires AllSeen(t.fields, SeenByAll(t.fields, occurrences, seen))
    ensures DecodeFields(t, b, p, limit, slots, seen) == Means(t, slots, occurrences)
    decreases occurrences, 1
  {
    hide DecodeVarint32, DecodeOne, BodyAt, Meaning, SeenBy, Shaped, GoodType, AllSeen;
    if occurrences != [] {
      var o := occurrences[0];
      var q: nat :| q <= limit && OccurrenceAt(t, b, p, q, limit, o) && OccurrencesAt(t, b, q, limit, occurrences[1..]);
      var key: nat, m: nat :|
        DecodeVarint32(b, p, limit) == Some(Parsed(key, m)) && m <= limit && key != 0 && BodyAt(t, key / 8, key % 8, b, m, q, limit, o);
      OneIsRead(t, key, b, m, q, limit, slots, seen, o);
      OccurrencesAreRead(t, b, q, limit, Meaning(t, slots, o).value, SeenBy(t.fields, o, seen), occurrences[1..]);
    }
  }

  // ---------------------------------------------------------------- required fields

  lemma CompleteIsSeen(fields: seq<Field>, occurrences: seq<Occurrence>)
    ensures Complete(fields, occurrences) <==> AllSeen(fields, SeenByAll(fields, occurrences, {}))
  {
    hide SeenByAll, Occurs;
    forall i: nat | i < |fields| && fields[i].htype.Required? && RequiredBefore(fields, i) < 64
      ensures RequiredBefore(fields, i) in SeenByAll(fields, occurrences, {}) <==> Occurs(occurrences, i)
      ensures RequiredBefore(fields, i) < RequiredBefore(fields, |fields|)
    {
      SeenIfOccurs(fields, occurrences, {}, i);
      RequiredGrows(fields, i + 1, |fields|);
    }
    if Complete(fields, occurrences) {
      forall k: nat | k < RequiredBefore(fields, |fields|) && k < 64
        ensures k in SeenByAll(fields, occurrences, {})
      {
        var i := FieldOfBit(fields, k, |fields|);
      }
    }
  }

  lemma {:induction false} FieldOfBit(fields: seq<Field>, k: nat, n: nat) returns (i: nat)
    requires n <= |fields| && k < RequiredBefore(fields, n)
    ensures i < n && fields[i].htype.Required? && RequiredBefore(fields, i) == k
  {
    if fields[n - 1].htype.Required? && RequiredBefore(fields, n - 1) == k {
      i := n - 1;
    } else {
      i := FieldOfBit(fields, k, n - 1);
    }
  }

  lemma {:induction false} SeenIfOccurs(fields: seq<Field>, occurrences: seq<Occurrence>, seen: set<nat>, i: nat)
    requires i < |fields| && fields[i].htype.Required? && RequiredBefore(fields, i) < 64
    ensures RequiredBefore(fields, i) in SeenByAll(fields, occurrences, seen)
            <==> RequiredBefore(fields, i) in seen || Occurs(occurrences, i)
    decreases |occurrences|
  {
    if occurrences != [] {
      var o, rest := occurrences[0], occurrences[1..];
      NotedIfOf(fields, o, seen, i);
      SeenIfOccurs(fields, rest, SeenBy(fields, o, seen), i);
      OccursInRest(occurrences, i);
    }
  }

  lemma OccursInRest(occurrences: seq<Occurrence>, i: nat)
    requires occurrences != []
    ensures Occurs(occurrences, i) <==> IsOf(occurrences[0], i) || Occurs(occurrences[1..], i)
  {
    var rest := occurrences[1..];
    assert forall k :: 0 <= k < |rest| ==> rest[k] == occurrences[k + 1];
    if k :| 0 <= k < |occurrences| && IsOf(occurrences[k], i) {
      assert k == 0 || IsOf(rest[k - 1], i);
    }
  }

  lemma NotedIfOf(fields: seq<Field>, o: Occurrence, seen: set<nat>, i: nat)
    requires i < |fields| && fields[i].htype.Required? && RequiredBefore(fields, i) < 64
    ensures RequiredBefore(fields, i) in SeenBy(fields, o, seen) <==> RequiredBefore(fields, i) in seen || IsOf(o, i)
  {
    if !o.Unknown? && o.field < |fields| && fields[o.field].htype.Required? {
      if o.field < i {
        RequiredGrows(fields, o.field + 1, i);
      } else if i < o.field {
        RequiredGrows(fields, i + 1, o.field);
      }
    }
  }

  // ---------------------------------------------------------------- what was read was there

  lemma UnknownWasThere(t: LType, key: nat, b: Bytes, p: nat, limit: nat, slots: seq<Slot>, seen: set<nat>)
    requires t.Submessage? && GoodType(t) && p <= limit <= |b| && Shaped(t, Message(slots))
    requires IndexOf(t.fields, key / 8).None? && DecodeOne(t, key, b, p, limit, slots, seen).Some?
    ensures var r := DecodeOne(t, key, b, p, limit, slots, seen).value;
            && BodyAt(t, key / 8, key % 8, b, p, r.next, limit, Unknown) && r.slots == slots && r.seen == seen
            && Meaning(t, slots, Unknown) == Some(slots)
  {
    UnknownMeans(t.fields, key / 8, key % 8, b, p, DecodeOne(t, key, b, p, limit, slots, seen).value.next, limit);
    hide SkipUnknown, PassedAt, NumberAt, Shaped, GoodType;
  }

  lemma ScalarTakes(t: LType, tag: nat, wireType: nat, b: Bytes, p: nat, q: nat, limit: nat, slots: seq<Slot>, i: nat, d: Datum)
    requires t.Submessage? && GoodType(t) && p <= limit <= |b| && Shaped(t, Message(slots)) && i < |t.fields| == |slots|
    requires GoodField(t.fields[i]) && ShapedSlot(t.fields[i], slots[i]) && t.fields[i].tag == tag && !t.fields[i].ltype.Submessage?
    requires !(t.fields[i].htype.Repeated? && Packable(t.fields[i].ltype) && wireType == 2)
    requires DatumAt(t.fields[i].ltype, b, p, q, limit, d) && Given(t.fields[i].ltype, d) && HasRoom(t.fields[i], slots[i], 1)
    ensures BodyAt(t, tag, wireType, b, p, q, limit, Scalar(i, d))
    ensures var f, s := t.fields[i], slots[i];
            Meaning(t, slots, Scalar(i, d)) == Some(Updated(t.fields, slots, i, Put(f, s, Over(f.ltype, Under(f, s), d))))
  {
    hide DecodeVarint32, GoodType, GoodField, Shaped, ShapedSlot, NumberAt, SizedAt, Over, Under, Put, Updated, Packable;
  }

  lemma ScalarSlotWasThere(t: LType, key: nat, b: Bytes, p: nat, limit: nat, slots: seq<Slot>, seen: set<nat>, i: nat)
    returns (o: Occurrence)
    requires t.Submessage? && GoodType(t) && p <= limit <= |b| && Shaped(t, Message(slots))
    requires i < |t.fields| && t.fields[i].tag == key / 8 && !t.fields[i].ltype.Submessage?
    requires !(t.fields[i].htype.Repeated? && Packable(t.fields[i].ltype) && key % 8 == 2)
    requires DecodeOne(t, key, b, p, limit, slots, seen).Some?
    ensures var r := DecodeOne(t, key, b, p, limit, slots, seen).value;
            && BodyAt(t, key / 8, key % 8, b, p, r.next, limit, o) && Meaning(t, slots, o) == Some(r.slots)
            && r.seen == SeenBy(t.fields, o, seen)
  {
    hide *;
    FieldFacts(t, slots, i);
    OneOfField(t, i, key % 8, b, p, limit, slots, seen);
    var f, s := t.fields[i], slots[i];
    SlotIsValue(f, key % 8, b, p, limit, s);
    var d := ScalarWasThere(f.ltype, b, p, limit, Under(f, s));
    o := Scalar(i, d);
    ScalarTakes(t, key / 8, key % 8, b, p, DecodeOne(t, key, b, p, limit, slots, seen).value.next, limit, slots, i, d);
    SeenOfField(t.fields, o, seen);
  }

  lemma SeenOfField(fields: seq<Field>, o: Occurrence, seen: set<nat>)
    requires !o.Unknown? && o.field < |fields|
    ensures SeenBy(fields, o, seen) == Noted(fields, o.field, seen)
  {
  }

  lemma RunTakes(t: LType, tag: nat, b: Bytes, p: nat, q: nat, limit: nat, slots: seq<Slot>, i: nat, numbers: seq<int>, r: nat, n: nat)
    requires t.Submessage? && GoodType(t) && p <= limit <= |b| && Shaped(t, Message(slots)) && i < |t.fields| == |slots|
    requires ShapedSlot(t.fields[i], slots[i]) && t.fields[i].tag == tag && t.fields[i].htype.Repeated? && Packable(t.fields[i].ltype)
    requires DecodeVarint32(b, p, limit) == Some(Parsed(n, r)) && r + n == q && q <= limit
    requires RunAt(t.fields[i].ltype, b, r, q, numbers) && AllShaped(t.fields[i].ltype, numbers) && slots[i].Many?
    requires numbers != [] ==> |slots[i].items| + |numbers| <= t.fields[i].htype.max
    ensures BodyAt(t, tag, 2, b, p, q, limit, Run(i, numbers))
    ensures Meaning(t, slots, Run(i, numbers)) == Some(Updated(t.fields, slots, i, Many(slots[i].items + AsData(numbers))))
  {
    hide DecodeVarint32, GoodType, GoodField, Shaped, ShapedSlot, NumberAt, RunAt, Updated, Packable, AsData, AllShaped;
  }

  lemma RunSlotWasThere(t: LType, key: nat, b: Bytes, p: nat, limit: nat, slots: seq<Slot>, seen: set<nat>, i: nat)
    returns (o: Occurrence)
    requires t.Submessage? && GoodType(t) && p <= limit <= |b| && Shaped(t, Message(slots))
    requires i < |t.fields| && t.fields[i].tag == key / 8 && t.fields[i].htype.Repeated? && Packable(t.fields[i].ltype) && key % 8 == 2
    requires DecodeOne(t, key, b, p, limit, slots, seen).Some?
    ensures var r := DecodeOne(t, key, b, p, limit, slots, seen).value;
            && BodyAt(t, key / 8, key % 8, b, p, r.next, limit, o) && Meaning(t, slots, o) == Some(r.slots)
            && r.seen == SeenBy(t.fields, o, seen)
  {
    hide *;
    FieldFacts(t, slots, i);
    OneOfField(t, i, key % 8, b, p, limit, slots, seen);
    var f, s := t.fields[i], slots[i];
    SlotIsRun(f, b, p, limit, s);
    var size := DecodeVarint32(b, p, limit).value;
    var q := size.next + size.value;
    var numbers := RunWasThere(f.ltype, b, size.next, q, s.items, f.htype.max);
    o := Run(i, numbers);
    RunTakes(t, key / 8, b, p, q, limit, slots, i, numbers, size.next, size.value);
    SeenOfField(t.fields, o, seen);
  }

  lemma NestedTakes(t: LType, tag: nat, wireType: nat, b: Bytes, p: nat, q: nat, limit: nat, slots: seq<Slot>, i: nat,
                    inner: seq<Occurrence>, r: nat, n: nat)
    requires t.Submessage? && GoodType(t) && p <= limit <= |b| && Shaped(t, Message(slots)) && i < |t.fields| == |slots|
    requires GoodField(t.fields[i]) && ShapedSlot(t.fields[i], slots[i]) && t.fields[i].tag == tag && t.fields[i].ltype.Submessage?
    requires DecodeVarint32(b, p, limit) == Some(Parsed(n, r)) && r + n == q && q <= limit
    requires HasRoom(t.fields[i], slots[i], 1) && MessageAt(t.fields[i].ltype, b, r, q, inner)
    ensures var f, s := t.fields[i], slots[i];
            && GoodType(f.ltype) && Under(f, s).Message? && Under(f, s) == Message(Under(f, s).slots)
            && BodyAt(t, tag, wireType, b, p, q, limit, Nested(i, inner))
            && var m := Means(f.ltype, Under(f, s).slots, inner);
               m.Some? ==> Meaning(t, slots, Nested(i, inner)) == Some(Updated(t.fields, slots, i, Put(f, s, Message(m.value))))
  {
    FieldFacts(t, slots, i);
    IsMessage(t.fields[i].ltype, Under(t.fields[i], slots[i]));
    hide DecodeVarint32, GoodType, GoodField, Shaped, ShapedSlot, MessageAt, Updated, Put, Under, Means;
  }

  lemma {:induction false} NestedSlotWasThere(t: LType, key: nat, b: Bytes, p: nat, limit: nat, slots: seq<Slot>, seen: set<nat>, i: nat)
    returns (o: Occurrence)
    requires t.Submessage? && GoodType(t) && p <= limit <= |b| && Shaped(t, Message(slots))
    requires i < |t.fields| && t.fields[i].tag == key / 8 && t.fields[i].ltype.Submessage?
    requires DecodeOne(t, key, b, p, limit, slots, seen).Some?
    ensures var r := DecodeOne(t, key, b, p, limit, slots, seen).value;
            && BodyAt(t, key / 8, key % 8, b, p, r.next, limit, o) && Meaning(t, slots, o) == Some(r.slots)
            && r.seen == SeenBy(t.fields, o, seen)
    decreases t, 0, 0
  {
    hide *;
    FieldFacts(t, slots, i);
    OneOfField(t, i, key % 8, b, p, limit, slots, seen);
    var f, s := t.fields[i], slots[i];
    NotPackable(f.ltype);
    SlotIsValue(f, key % 8, b, p, limit, s);
    MessageValue(f.ltype, b, p, limit, Under(f, s));
    var size := DecodeVarint32(b, p, limit).value;
    var q := size.next + size.value;
    var inner := MessageWasThere(f.ltype, b, size.next, q, Under(f, s).slots);
    o := Nested(i, inner);
    NestedTakes(t, key / 8, key % 8, b, p, q, limit, slots, i, inner, size.next, size.value);
    SeenOfField(t.fields, o, seen);
  }

  lemma NotPackable(t: LType)
    requires t.Submessage?
    ensures !Packable(t)
  {
  }

  lemma {:induction false} OneWasThere(t: LType, key: nat, b: Bytes, p: nat, limit: nat, slots: seq<Slot>, seen: set<nat>)
    returns (o: Occurrence)
    requires t.Submessage? && GoodType(t) && p <= limit <= |b| && Shaped(t, Message(slots))
    requires DecodeOne(t, key, b, p, limit, slots, seen).Some?
    ensures var r := DecodeOne(t, key, b, p, limit, slots, seen).value;
            && BodyAt(t, key / 8, key % 8, b, p, r.next, limit, o) && Meaning(t, slots, o) == Some(r.slots)
            && r.seen == SeenBy(t.fields, o, seen)
    decreases t, 0, 1
  {
    hide *;
    var i := IndexOf(t.fields, key / 8);
    if i.None? {
      UnknownWasThere(t, key, b, p, limit, slots, seen);
      o := Unknown;
      SeenOfUnknown(t.fields, seen);
    } else if t.fields[i.value].ltype.Submessage? {
      o := NestedSlotWasThere(t, key, b, p, limit, slots, seen, i.value);
    } else if t.fields[i.value].htype.Repeated? && Packable(t.fields[i.value].ltype) && key % 8 == 2 {
      o := RunSlotWasThere(t, key, b, p, limit, slots, seen, i.value);
    } else {
      o := ScalarSlotWasThere(t, key, b, p, limit, slots, seen, i.value);
    }
  }

  lemma SeenOfUnknown(fields: seq<Field>, seen: set<nat>)
    ensures SeenBy(fields, Unknown, seen) == seen
  {
  }

  lemma {:induction false} MessageWasThere(t: LType, b: Bytes, p: nat, limit: nat, slots: seq<Slot>) returns (occurrences: seq<Occurrence>)
    requires t.Submessage? && GoodType(t) && p <= limit <= |b| && Shaped(t, Message(slots)) && DecodeFields(t, b, p, limit, slots, {}).Some?
    ensures MessageAt(t, b, p, limit, occurrences) && Means(t, slots, occurrences) == DecodeFields(t, b, p, limit, slots, {})
    decreases t, 2, 0
  {
    hide OccurrencesAt, DecodeFields, Means, Shaped, GoodType, Complete, AllSeen;
    occurrences := OccurrencesWereThere(t, b, p, limit, slots, {});
    CompleteIsSeen(t.fields, occurrences);
  }

  lemma {:induction false} OccurrencesWereThere(t: LType, b: Bytes, p: nat, limit: nat, slots: seq<Slot>, seen: set<nat>)
    returns (occurrences: seq<Occurrence>)
    requires t.Submessage? && GoodType(t) && p <= limit <= |b| && Shaped(t, Message(slots)) && DecodeFields(t, b, p, limit, slots, seen).Some?
    ensures OccurrencesAt(t, b, p, limit, occurrences) && Means(t, slots, occurrences) == DecodeFields(t, b, p, limit, slots, seen)
    ensures AllSeen(t.fields, SeenByAll(t.fields, occurrences, seen))
    decreases t, 1, limit - p
  {
    hide DecodeVarint32, DecodeOne, BodyAt, Meaning, SeenBy, Shaped, GoodType, AllSeen;
    var key := DecodeVarint32(b, p, limit);
    if p == limit || (key.Some? && key.value.value == 0) {
      occurrences := [];
    } else {
      var o := OneWasThere(t, key.value.value, b, key.value.next, limit, slots, seen);
      var r := DecodeOne(t, key.value.value, b, key.value.next, limit, slots, seen).value;
      var rest := OccurrencesWereThere(t, b, r.next, limit, r.slots, r.seen);
      occurrences := [o] + rest;
      assert occurrences[0] == o && occurrences[1..] == rest;
      assert OccurrenceAt(t, b, p, r.next, limit, o);
    }
  }

  /** Decoding any bytes into any struct gives a struct if and only if the bytes are occurrences with all the required
      fields among them and room for every value, and then the struct is what they make of the one that was there. */
  lemma BytesMean(t: LType, b: Bytes, p: nat, limit: nat, slots: seq<Slot>, after: seq<Slot>)
    requires t.Submessage? && GoodType(t) && p <= limit <= |b| && Shaped(t, Message(slots))
    ensures DecodeFields(t, b, p, limit, slots, {}) == Some(after)
            <==> exists occurrences :: MessageAt(t, b, p, limit, occurrences) && Means(t, slots, occurrences) == Some(after)
  {
    hide MessageAt, DecodeFields, Means, Shaped, GoodType;
    if occurrences: seq<Occurrence> :| MessageAt(t, b, p, limit, occurrences) && Means(t, slots, occurrences) == Some(after) {
      MessageIsRead(t, b, p, limit, slots, occurrences);
    }
    if DecodeFields(t, b, p, limit, slots, {}).Some? {
      var occurrences := MessageWasThere(t, b, p, limit, slots);
    }
  }

  // ---------------------------------------------------------------- what follows

  /** Occurrences of different fields may change places, unless both fields are of one oneof. */
  lemma OrderDoesNotMatter(t: LType, slots: seq<Slot>, x: Occurrence, y: Occurrence, rest: seq<Occurrence>)
    requires t.Submessage? && GoodType(t) && Shaped(t, Message(slots)) && !x.Unknown? && !y.Unknown?
    requires x.field != y.field && x.field < |t.fields| && y.field < |t.fields| && !SameGroup(t.fields[x.field], t.fields[y.field])
    ensures Means(t, slots, [x, y] + rest) == Means(t, slots, [y, x] + rest)
  {
    TwoMean(t, slots, x, y, rest);
    TwoMean(t, slots, y, x, rest);
    MeaningIsLocal(t, slots, x);
    MeaningIsLocal(t, slots, y);
    hide Means, Meaning, ValueOf, Shaped, GoodType, SameGroup, Updated;
    var a, c := ValueOf(t, slots, x), ValueOf(t, slots, y);
    if a.Some? && c.Some? {
      ValueStays(t, slots, x, a.value, y);
      ValueStays(t, slots, y, c.value, x);
      MeaningIsLocal(t, Updated(t.fields, slots, x.field, a.value), y);
      MeaningIsLocal(t, Updated(t.fields, slots, y.field, c.value), x);
      UpdatesCommute(t.fields, slots, x.field, a.value, y.field, c.value);
    } else if a.Some? {
      ValueStays(t, slots, x, a.value, y);
      MeaningIsLocal(t, Updated(t.fields, slots, x.field, a.value), y);
    } else if c.Some? {
      ValueStays(t, slots, y, c.value, x);
      MeaningIsLocal(t, Updated(t.fields, slots, y.field, c.value), x);
    }
  }

  lemma TwoMean(t: LType, slots: seq<Slot>, x: Occurrence, y: Occurrence, rest: seq<Occurrence>)
    requires t.Submessage? && GoodType(t) && Shaped(t, Message(slots))
    ensures Means(t, slots, [x, y] + rest)
            == var a := Meaning(t, slots, x);
               if a.None? then None
               else
                 var c := Meaning(t, a.value, y);
                 if c.None? then None else Means(t, c.value, rest)
  {
    hide Meaning, Shaped, GoodType;
    assert ([x, y] + rest)[1..] == [y] + rest && ([y] + rest)[1..] == rest;
  }

  /** What an occurrence puts into its field, which depends on that field only. */
  function ValueOf(t: LType, slots: seq<Slot>, o: Occurrence): (r: Option<Slot>)
    requires t.Submessage? && GoodType(t) && Shaped(t, Message(slots)) && !o.Unknown? && o.field < |t.fields|
    ensures r.Some? ==> ShapedSlot(t.fields[o.field], r.value)
  {
    SlotValue(t.fields[o.field], slots[o.field], o)
  }

  function SlotValue(f: Field, s: Slot, o: Occurrence): (r: Option<Slot>)
    requires GoodField(f) && ShapedSlot(f, s) && !o.Unknown?
    ensures r.Some? ==> ShapedSlot(f, r.value)
  {
    match o
    case Scalar(_, d) =>
      if Given(f.ltype, d) && HasRoom(f, s, 1) then Some(Put(f, s, Over(f.ltype, Under(f, s), d))) else None
    case Run(_, numbers) =>
      if f.htype.Repeated? && AllShaped(f.ltype, numbers) && HasRoom(f, s, |numbers|) then Some(Many(s.items + AsData(numbers))) else None
    case Nested(_, inner) =>
      if f.ltype.Submessage? && HasRoom(f, s, 1) then
        GoodTag(f);
        var m := Means(f.ltype, Under(f, s).slots, inner);
        if m.Some? then Some(Put(f, s, Message(m.value))) else None
      else None
  }

  lemma MeaningIsLocal(t: LType, slots: seq<Slot>, o: Occurrence)
    requires t.Submessage? && GoodType(t) && Shaped(t, Message(slots)) && !o.Unknown? && o.field < |t.fields|
    ensures |slots| == |t.fields|
    ensures Meaning(t, slots, o)
            == var v := ValueOf(t, slots, o); if v.Some? then Some(Updated(t.fields, slots, o.field, v.value)) else None
  {
    FieldFacts(t, slots, o.field);
    hide Means, Given, HasRoom, Over, Under, Put, Updated, AllShaped, AsData, GoodType, GoodField, Shaped, ShapedSlot;
  }

  lemma ValueStays(t: LType, slots: seq<Slot>, x: Occurrence, s: Slot, y: Occurrence)
    requires t.Submessage? && GoodType(t) && Shaped(t, Message(slots)) && !x.Unknown? && !y.Unknown?
    requires x.field != y.field && x.field < |t.fields| == |slots| && y.field < |t.fields| && ShapedSlot(t.fields[x.field], s)
    requires !SameGroup(t.fields[x.field], t.fields[y.field])
    ensures Shaped(t, Message(Updated(t.fields, slots, x.field, s)))
    ensures ValueOf(t, Updated(t.fields, slots, x.field, s), y) == ValueOf(t, slots, y)
  {
    UpdatedIsShaped(t, slots, x.field, s);
    hide SlotValue, Shaped, ShapedSlot, GoodType;
  }

  lemma UpdatesCommute(fields: seq<Field>, slots: seq<Slot>, i: nat, s: Slot, j: nat, u: Slot)
    requires i < |fields| == |slots| && j < |fields| && i != j && !SameGroup(fields[i], fields[j])
    ensures Updated(fields, Updated(fields, slots, i, s), j, u) == Updated(fields, Updated(fields, slots, j, u), i, s)
  {
  }

  /** Numbers of an array, each on its own. */
  function Singly(i: nat, numbers: seq<int>): seq<Occurrence> {
    seq(|numbers|, k requires 0 <= k < |numbers| => Scalar(i, Number(numbers[k])))
  }

  /** With so many more items, if they are of the type and have room. */
  function Longer(f: Field, slots: seq<Slot>, i: nat, numbers: seq<int>): Option<seq<Slot>>
    requires i < |slots| && slots[i].Many?
  {
    if AllShaped(f.ltype, numbers) && HasRoom(f, slots[i], |numbers|) then Some(slots[i := Many(slots[i].items + AsData(numbers))]) else None
  }

  lemma ItemsMean(t: LType, slots: seq<Slot>, i: nat, numbers: seq<int>, n: int)
    requires t.Submessage? && GoodType(t) && Shaped(t, Message(slots)) && i < |t.fields|
    requires t.fields[i].htype.Repeated? && Packable(t.fields[i].ltype)
    ensures i < |slots| && slots[i].Many?
    ensures Meaning(t, slots, Run(i, numbers)) == Longer(t.fields[i], slots, i, numbers)
    ensures Meaning(t, slots, Scalar(i, Number(n))) == Longer(t.fields[i], slots, i, [n])
  {
    FieldFacts(t, slots, i);
    ArrayIs(t.fields[i], slots[i]);
    NumberGiven(t.fields[i].ltype, n);
    assert AsData([n]) == [Number(n)];
    forall s: Slot
      ensures Updated(t.fields, slots, i, s) == slots[i := s]
    {
    }
    hide GoodType, GoodField, Shaped, ShapedSlot, Updated, AsData, Given, Over, Under, Means;
  }

  lemma NumberGiven(t: LType, n: int)
    requires Packable(t)
    ensures (Given(t, Number(n)) <==> Shaped(t, Number(n))) && (AllShaped(t, [n]) <==> Shaped(t, Number(n)))
    ensures forall was :: Given(t, Number(n)) && Shaped(t, was) ==> Over(t, was, Number(n)) == Number(n)
  {
    assert [n][0] == n;
  }

  lemma {:induction false} SinglyMean(t: LType, slots: seq<Slot>, i: nat, numbers: seq<int>)
    requires t.Submessage? && GoodType(t) && Shaped(t, Message(slots)) && i < |t.fields|
    requires t.fields[i].htype.Repeated? && Packable(t.fields[i].ltype)
    ensures i < |slots| && slots[i].Many? && Means(t, slots, Singly(i, numbers)) == Longer(t.fields[i], slots, i, numbers)
    decreases |numbers|
  {
    hide Meaning, Shaped, GoodType, Packable;
    var f := t.fields[i];
    if numbers == [] {
      ItemsMean(t, slots, i, numbers, 0);
      assert Singly(i, numbers) == [] && AsData(numbers) == [];
      assert slots[i].items + [] == slots[i].items && slots[i] == Many(slots[i].items);
      assert slots[i := slots[i]] == slots;
    } else {
      ItemsMean(t, slots, i, numbers, numbers[0]);
      assert Singly(i, numbers)[1..] == Singly(i, numbers[1..]);
      assert Singly(i, numbers)[0] == Scalar(i, Number(numbers[0]));
      var first := Meaning(t, slots, Scalar(i, Number(numbers[0])));
      if first.Some? {
        SinglyMean(t, first.value, i, numbers[1..]);
        assert first.value[i].items == slots[i].items + AsData([numbers[0]]);
        var all := Many(slots[i].items + AsData(numbers));
        assert slots[i].items + AsData([numbers[0]]) + AsData(numbers[1..]) == all.items;
        assert first.value[i := all] == slots[i := all];
      }
      FirstAndRest(f.ltype, numbers);
    }
  }

  lemma FirstAndRest(t: LType, numbers: seq<int>)
    requires numbers != []
    ensures AllShaped(t, numbers) <==> AllShaped(t, [numbers[0]]) && AllShaped(t, numbers[1..])
  {
    hide Shaped;
    if AllShaped(t, [numbers[0]]) && AllShaped(t, numbers[1..]) {
      assert [numbers[0]][0] == numbers[0];
      forall i | 0 <= i < |numbers|
        ensures Shaped(t, Number(numbers[i]))
      {
        assert i == 0 || numbers[1..][i - 1] == numbers[i];
      }
    }
  }

  /** A packed run means what its numbers mean one by one. */
  lemma PackedOrNot(t: LType, slots: seq<Slot>, i: nat, numbers: seq<int>)
    requires t.Submessage? && GoodType(t) && Shaped(t, Message(slots)) && i < |t.fields|
    requires t.fields[i].htype.Repeated? && Packable(t.fields[i].ltype)
    ensures Means(t, slots, [Run(i, numbers)]) == Means(t, slots, Singly(i, numbers))
  {
    SinglyMean(t, slots, i, numbers);
    ItemsMean(t, slots, i, numbers, 0);
    hide Meaning, Shaped, GoodType, Packable, Singly, Longer;
    assert [Run(i, numbers)][1..] == [];
  }

  /** Of a number that is no array the last occurrence decides. */
  lemma LastDecides(t: LType, slots: seq<Slot>, i: nat, m: int, n: int)
    requires t.Submessage? && GoodType(t) && Shaped(t, Message(slots)) && i < |t.fields|
    requires !t.fields[i].htype.Repeated? && Packable(t.fields[i].ltype) && Shaped(t.fields[i].ltype, Number(m))
    ensures Means(t, slots, [Scalar(i, Number(m)), Scalar(i, Number(n))]) == Means(t, slots, [Scalar(i, Number(n))])
  {
    var x, y := Scalar(i, Number(m)), Scalar(i, Number(n));
    TwoMean(t, slots, x, y, []);
    assert [x, y] + [] == [x, y] && [y][1..] == [];
    FieldFacts(t, slots, i);
    NumberGiven(t.fields[i].ltype, m);
    NumberGiven(t.fields[i].ltype, n);
    MeaningIsLocal(t, slots, x);
    MeaningIsLocal(t, slots, y);
    ReplacesValue(t.fields[i], slots[i], m, n);
    var s := ValueOf(t, slots, x).value;
    UpdatedIsShaped(t, slots, i, s);
    MeaningIsLocal(t, Updated(t.fields, slots, i, s), y);
    forall u: Slot
      ensures Updated(t.fields, Updated(t.fields, slots, i, s), i, u) == Updated(t.fields, slots, i, u)
    {
    }
    hide Meaning, SlotValue, Shaped, ShapedSlot, GoodType, Packable, Updated;
  }

  lemma ReplacesValue(f: Field, s: Slot, m: int, n: int)
    requires GoodField(f) && ShapedSlot(f, s) && !f.htype.Repeated? && Packable(f.ltype) && Shaped(f.ltype, Number(m))
    ensures var x := SlotValue(f, s, Scalar(0, Number(m)));
            x.Some? && SlotValue(f, x.value, Scalar(0, Number(n))) == SlotValue(f, s, Scalar(0, Number(n)))
  {
    NumberGiven(f.ltype, m);
    NumberGiven(f.ltype, n);
    hide Given, Over, Under, GoodField, Shaped, Packable, Blank;
  }
}
