/**
 What nanopb's decoder makes of an encoding (pb_decode.c). Besides the fields of its
 descriptor an encoding may carry others, at any depth and of any kind the format knows
 ("Message Structure" and "Unknown Fields" in the Protocol Buffers guide); they are skipped.
 */
module PbReading {
  import opened InternalKeys
  import opened Coding
  import opened PbTypes
  import opened PbVarints
  import opened PbEncode
  import opened PbDecode

  // ---------------------------------------------------------------- which structs can be read back

  /** Every string that the encoder writes ends inside its array. */
  predicate Readable(t: LType, v: Datum)
    requires Shaped(t, v)
    decreases t
  {
    match t
    case Text(_) => Terminated(v.bytes)
    case Submessage(fields) => forall i :: 0 <= i < |fields| ==> ReadableSlot(fields[i], v.slots[i])
    case _ => true
  }

  predicate ReadableSlot(f: Field, s: Slot)
    requires ShapedSlot(f, s)
    decreases f
  {
    match f.htype
    case Required => Readable(f.ltype, s.value)
    case Optional => s.has ==> Readable(f.ltype, s.value)
    case Singular => IsZero(f.ltype, s.value) || Readable(f.ltype, s.value)
    case Oneof(_) => s.chosen.Some? ==> Readable(f.ltype, s.chosen.value)
    case Repeated(_) => forall i :: 0 <= i < |s.items| ==> Readable(f.ltype, s.items[i])
  }

  // ---------------------------------------------------------------- encodings

  /** The bytes of a value, by wire type: any number of bytes with the high bit and one without; eight bytes; a length
      and so many bytes; four bytes. */
  ghost predicate IsWireValue(wireType: nat, w: Bytes) {
    || (wireType == 0 && w != [] && w[|w| - 1] < 128 && forall i :: 0 <= i < |w| - 1 ==> w[i] >= 128)
    || (wireType == 1 && |w| == 8)
    || (wireType == 2 && exists payload :: |payload| < TWO_32 && w == LengthPrefixed(payload))
    || (wireType == 5 && |w| == 4)
  }

  /** A whole field with a tag that none of these fields has. */
  ghost predicate OtherField(fields: seq<Field>, tag: nat, wireType: nat, value: Bytes) {
    && 0 < tag < 0x2000_0000 && (forall i :: 0 <= i < |fields| ==> fields[i].tag != tag)
    && wireType < 8 && IsWireValue(wireType, value)
  }

  /** Any number of such fields. */
  ghost predicate Others(fields: seq<Field>, w: Bytes)
    decreases |w|
  {
    w == [] ||
    exists tag: nat, wireType: nat, value: Bytes, rest: Bytes ::
      w == EncodeVarint(tag * 8 + wireType) + (value + rest) && |rest| < |w|
      && OtherField(fields, tag, wireType, value) && Others(fields, rest)
  }

  /** The bytes stand for the value. */
  ghost predicate Encodes(t: LType, v: Datum, w: Bytes)
    requires Shaped(t, v)
    decreases t, 1, 0
  {
    if t.Submessage? then exists payload :: w == LengthPrefixed(payload) && EncodesFrom(t, v.slots, 0, payload)
    else WireValue(t, v) == Some(w)
  }

  /** The bytes stand for the fields from i on, in the order of the descriptor, with other fields in between. */
  ghost predicate EncodesFrom(t: LType, m: seq<Slot>, i: nat, w: Bytes)
    requires t.Submessage? && Shaped(t, Message(m)) && i <= |t.fields|
    decreases t, 0, |t.fields| - i
  {
    if i == |t.fields| then Others(t.fields, w)
    else
      exists others, r, rest ::
        && w == others + (r + rest) && Others(t.fields, others)
        && EncodesSlot(t.fields, t.fields[i], m[i], r) && EncodesFrom(t, m, i + 1, rest)
  }

  /** A zero in a field without a flag may be written all the same. */
  ghost predicate EncodesSlot(fields: seq<Field>, f: Field, s: Slot, w: Bytes)
    requires ShapedSlot(f, s)
    decreases f, 0, 0
  {
    match f.htype
    case Required => EncodesTagged(f, s.value, w)
    case Optional => if s.has then EncodesTagged(f, s.value, w) else w == []
    case Singular => EncodesTagged(f, s.value, w) || (IsZero(f.ltype, s.value) && w == [])
    case Oneof(_) => if s.chosen.Some? then EncodesTagged(f, s.chosen.value, w) else w == []
    case Repeated(max) =>
      if s.items == [] then w == []
      else |s.items| <= max && if Packable(f.ltype) then WireSlot(f, s) == Some(w) else EncodesItems(fields, f, s.items, 0, w)
  }

  ghost predicate EncodesTagged(f: Field, v: Datum, w: Bytes)
    requires Shaped(f.ltype, v)
    decreases f.ltype, 2, 0
  {
    exists value :: w == Key(f.tag, WireType(f.ltype)) + value && Encodes(f.ltype, v, value)
  }

  /** The items from k on, each with its tag. */
  ghost predicate EncodesItems(fields: seq<Field>, f: Field, items: seq<Datum>, k: nat, w: Bytes)
    requires k <= |items| && forall i :: 0 <= i < |items| ==> Shaped(f.ltype, items[i])
    decreases f.ltype, 3, |items| - k
  {
    if k == |items| then w == []
    else
      exists others, r, rest ::
        && w == others + (r + rest) && Others(fields, others)
        && EncodesTagged(f, items[k], r) && EncodesItems(fields, f, items, k + 1, rest)
  }

  // ---------------------------------------------------------------- bytes in place

  lemma VarintIsThere(b: Bytes, p: nat, limit: nat, v: nat)
    requires Holds(b, p, limit, EncodeVarint(v))
    ensures limit <= |b|
    ensures v < TWO_32 ==> DecodeVarint32(b, p, limit) == Some(Parsed(v, p + |EncodeVarint(v)|))
    ensures v < TWO_64 ==> GetVarint64(b, p, limit) == Some(Parsed(v, p + |EncodeVarint(v)|))
  {
    hide EncodeVarint, DecodeVarint32, GetVarint64;
    if v < TWO_32 {
      Varint32RoundTrip(b, p, limit, v);
    }
    VarintRoundTrip(b, p, limit, v);
  }

  lemma InBounds(b: Bytes, p: nat, limit: nat, w: Bytes)
    requires Holds(b, p, limit, w)
    ensures p + |w| <= limit <= |b|
  {
  }

  // ---------------------------------------------------------------- numbers and bytes

  lemma NumberReads(t: LType, v: Datum, b: Bytes, p: nat, limit: nat)
    requires Packable(t) && GoodType(t) && Shaped(t, v) && WireValue(t, v).Some? && Holds(b, p, limit, WireValue(t, v).value)
    ensures var w := WireValue(t, v).value;
            var r := DecodeNumber(t, b, p, limit);
            r.Some? && r.value.next == p + |w| && SameDatum(t, v, Number(r.value.n))
  {
    hide EncodeVarint, DecodeVarint32, GetVarint64, EncodeFixed32, DecodeFixed32, EncodeFixed64, DecodeFixed64, Signed, Unsigned;
    var w := WireValue(t, v).value;
    match t
    case Bool => VarintIsThere(b, p, limit, if v.n == 0 then 0 else 1);
    case Varint(size) =>
      SignedUndoesUnsigned(size, v.n);
      SignedUndoesUnsigned(if size == 8 then 8 else 4, v.n);
      VarintIsThere(b, p, limit, Unsigned(v.n));
    case UVarint(_) => VarintIsThere(b, p, limit, v.n);
    case SVarint(size) =>
      ZigZagRoundTrip(v.n, 0);
      assert InSigned(8, Widened(size, v.n));
      VarintIsThere(b, p, limit, ZigZag(v.n));
    case Fixed32 =>
      Fixed32Size(v.n);
      Fixed32RoundTrip(v.n, []);
      assert w + [] == w;
    case Fixed64 =>
      Fixed64RoundTrip(v.n, []);
      assert w + [] == w;
  }

  /** A length and so many bytes are read as these bytes, if the length takes 32 bits. */
  lemma PrefixedIsThere(b: Bytes, p: nat, limit: nat, w: Bytes)
    requires Holds(b, p, limit, LengthPrefixed(w)) && |w| < TWO_32
    ensures var q := p + |EncodeVarint(|w|)|;
            && limit <= |b| && DecodeVarint32(b, p, limit) == Some(Parsed(|w|, q)) && Holds(b, q, limit, w)
            && p < q && q + |w| == p + |LengthPrefixed(w)| <= limit && b[q..q + |w|] == w
  {
    hide EncodeVarint, DecodeVarint32;
    HoldsParts(b, p, limit, EncodeVarint(|w|), w);
    VarintIsThere(b, p, limit, |w|);
  }

  lemma BytesRead(t: LType, v: Datum, was: Bytes, b: Bytes, p: nat, limit: nat)
    requires (t.ByteArray? || t.Text? || t.FixedBytes?) && Shaped(t, v) && Shaped(t, Data(was))
    requires WireValue(t, v).Some? && Holds(b, p, limit, WireValue(t, v).value) && |WireValue(t, v).value| < TWO_32
    ensures var w := WireValue(t, v).value;
            var r := DecodeBytes(t, b, p, limit, was);
            && (r.Some? <==> Readable(t, v))
            && (r.Some? ==> r.value.next == p + |w| && SameDatum(t, v, Data(r.value.slice)))
  {
    hide EncodeVarint, DecodeVarint32, UpToNul, Holds;
    if t.Text? {
      TextReads(t.size, v.bytes, was, b, p, limit);
    } else {
      PrefixedIsThere(b, p, limit, v.bytes);
    }
  }

  lemma TextReads(size: nat, v: Bytes, was: Bytes, b: Bytes, p: nat, limit: nat)
    requires |v| == size == |was| && |LengthPrefixed(UpToNul(v))| < TWO_32 && Holds(b, p, limit, LengthPrefixed(UpToNul(v)))
    ensures var r := DecodeBytes(Text(size), b, p, limit, was);
            && (r.Some? <==> Terminated(v))
            && (r.Some? ==> r.value.next == p + |LengthPrefixed(UpToNul(v))| && UpToNul(r.value.slice) == UpToNul(v))
  {
    hide EncodeVarint, DecodeVarint32, UpToNul, Holds;
    var s := UpToNul(v);
    PrefixedIsThere(b, p, limit, s);
    if |s| < size {
      UpToNulOf(s, was[|s| + 1..]);
    }
  }

  lemma {:induction false} UpToNulOf(s: Bytes, rest: Bytes)
    requires 0 !in s
    ensures UpToNul(s + [0] + rest) == s
  {
    if s != [] {
      UpToNulOf(s[1..], rest);
      assert (s + [0] + rest)[1..] == s[1..] + [0] + rest;
    }
  }
  // ---------------------------------------------------------------- parts of what was written

  lemma JoinedParts(a: Option<Bytes>, c: Option<Bytes>, b: Bytes, p: nat, limit: nat)
    requires Joined(a, c).Some? && Holds(b, p, limit, Joined(a, c).value)
    ensures a.Some? && c.Some? && |Joined(a, c).value| == |a.value| + |c.value|
    ensures Holds(b, p, limit, a.value) && Holds(b, p + |a.value|, limit, c.value)
  {
    HoldsParts(b, p, limit, a.value, c.value);
  }

  lemma {:induction false} PackedItemIsThere(t: LType, items: seq<Datum>, n: nat, i: nat, b: Bytes, p: nat, limit: nat)
    requires i < n <= |items| && forall k :: 0 <= k < |items| ==> Shaped(t, items[k])
    requires WirePacked(t, items, n).Some? && Holds(b, p, limit, WirePacked(t, items, n).value)
    ensures var before, w := WirePacked(t, items, i), WireValue(t, items[i]);
            && before.Some? && w.Some? && WirePacked(t, items, i + 1).Some?
            && Holds(b, p + |before.value|, limit, w.value)
            && |WirePacked(t, items, i + 1).value| == |before.value| + |w.value| <= |WirePacked(t, items, n).value|
    decreases n
  {
    hide WireValue, Holds, Joined;
    JoinedParts(WirePacked(t, items, n - 1), WireValue(t, items[n - 1]), b, p, limit);
    if i < n - 1 {
      PackedItemIsThere(t, items, n - 1, i, b, p, limit);
    }
  }

  // ---------------------------------------------------------------- one key and what follows it

  lemma KeyReads(fields: seq<Field>, i: nat, wireType: nat, b: Bytes, p: nat, limit: nat)
    requires i < |fields| && 0 < fields[i].tag < 0x2000_0000 && DistinctTags(fields) && wireType < 8
    requires Holds(b, p, limit, Key(fields[i].tag, wireType))
    ensures var key := fields[i].tag * 8 + wireType;
            && p < limit <= |b| && key != 0 && key / 8 == fields[i].tag && key % 8 == wireType
            && DecodeVarint32(b, p, limit) == Some(Parsed(key, p + |Key(fields[i].tag, wireType)|))
            && IndexOf(fields, key / 8) == Some(i)
  {
    hide EncodeVarint, DecodeVarint32;
    VarintIsThere(b, p, limit, fields[i].tag * 8 + wireType);
    SameIndex(fields, fields[i].tag, i);
  }

  /** A turn of the loop that finds field i. */
  lemma KeyStep(t: LType, i: nat, wireType: nat, b: Bytes, p: nat, limit: nat, slots: seq<Slot>, seen: set<nat>)
    requires t.Submessage? && GoodType(t) && Shaped(t, Message(slots)) && i < |t.fields| && wireType < 8
    requires Holds(b, p, limit, Key(t.fields[i].tag, wireType))
    ensures var q := p + |Key(t.fields[i].tag, wireType)|;
            && p <= q <= limit <= |b| && ShapedSlot(t.fields[i], slots[i]) && GoodField(t.fields[i])
            && var s := DecodeSlot(t.fields[i], wireType, b, q, limit, slots[i]);
               && (s.Some? ==> Shaped(t, Message(Stored(t.fields, slots, i, s.value.slot))))
               && DecodeFields(t, b, p, limit, slots, seen)
                  == if s.None? then None
                     else DecodeFields(t, b, s.value.next, limit, Stored(t.fields, slots, i, s.value.slot), Noted(t.fields, i, seen))
  {
    hide Key, DecodeVarint32, DecodeSlot, Stored, Noted, ShapedSlot, GoodField, AllSeen;
    GoodFields(t);
    GoodTag(t.fields[i]);
    KeyReads(t.fields, i, wireType, b, p, limit);
    var q := p + |Key(t.fields[i].tag, wireType)|;
    var s := DecodeSlot(t.fields[i], wireType, b, q, limit, slots[i]);
    if s.Some? {
      StoredIsShaped(t, slots, i, s.value.slot);
    }
  }

  lemma GoodTag(f: Field)
    requires GoodField(f)
    ensures 0 < f.tag < 0x2000_0000 && GoodType(f.ltype)
  {
  }

  // ---------------------------------------------------------------- fields read so far

  /** The fields before i are read, the ones after i are as they were at the start. */
  ghost predicate Around(t: LType, m: seq<Slot>, slots: seq<Slot>, i: nat)
    requires t.Submessage? && Shaped(t, Message(m)) && Shaped(t, Message(slots))
  {
    && (forall j :: 0 <= j < |t.fields| && j < i ==> SameSlot(t.fields[j], m[j], slots[j]))
    && (forall j :: i < j < |t.fields| ==> slots[j] == DefaultSlot(t.fields[j]))
  }

  ghost predicate ReadSoFar(t: LType, m: seq<Slot>, slots: seq<Slot>, i: nat)
    requires t.Submessage? && Shaped(t, Message(m)) && Shaped(t, Message(slots))
  {
    Around(t, m, slots, i) && (i < |t.fields| ==> slots[i] == DefaultSlot(t.fields[i]))
  }

  /** The bits noted once the fields before i are read. */
  function SeenBefore(fields: seq<Field>, i: nat): set<nat>
    requires i <= |fields|
  {
    var n := RequiredBefore(fields, i);
    LowBits(if n < MAX_REQUIRED_FIELDS then n else MAX_REQUIRED_FIELDS)
  }

  lemma SeenNext(fields: seq<Field>, i: nat)
    requires i < |fields|
    ensures SeenBefore(fields, i + 1) == Noted(fields, i, SeenBefore(fields, i))
    ensures !fields[i].htype.Required? ==> SeenBefore(fields, i + 1) == SeenBefore(fields, i)
  {
  }

  lemma AllSeenAtEnd(fields: seq<Field>)
    ensures AllSeen(fields, SeenBefore(fields, |fields|))
  {
  }

  /** Storing what field i was read as; another branch of its group is not set in a struct that has this one set. */
  lemma StoredAround(t: LType, m: seq<Slot>, slots: seq<Slot>, i: nat, s: Slot)
    requires t.Submessage? && Shaped(t, Message(m)) && Shaped(t, Message(slots)) && i < |t.fields|
    requires Around(t, m, slots, i) && ShapedSlot(t.fields[i], s)
    requires t.fields[i].htype.Oneof? ==> m[i].Branch? && m[i].chosen.Some?
    ensures var after := Stored(t.fields, slots, i, s);
            Shaped(t, Message(after)) && Around(t, m, after, i) && after[i] == s
  {
    hide SameSlot, ShapedSlot, DefaultSlot;
    StoredIsShaped(t, slots, i, s);
    var after := Stored(t.fields, slots, i, s);
    forall j | 0 <= j < |t.fields| && j != i
      ensures j < i ==> SameSlot(t.fields[j], m[j], after[j])
      ensures j > i ==> after[j] == DefaultSlot(t.fields[j])
    {
      OtherBranch(t, m, i, j);
    }
  }

  lemma OtherBranch(t: LType, m: seq<Slot>, i: nat, j: nat)
    requires t.Submessage? && Shaped(t, Message(m)) && i < |t.fields| && j < |t.fields| && i != j
    requires t.fields[i].htype.Oneof? ==> m[i].Branch? && m[i].chosen.Some?
    ensures SameGroup(t.fields[i], t.fields[j]) ==>
              && ShapedSlot(t.fields[j], m[j]) && ShapedSlot(t.fields[j], Branch(None))
              && SameSlot(t.fields[j], m[j], Branch(None)) && DefaultSlot(t.fields[j]) == Branch(None)
  {
    if SameGroup(t.fields[i], t.fields[j]) {
      assert OneBranch(t.fields, m) && SameGroup(t.fields[j], t.fields[i]);
      assert ShapedSlot(t.fields[j], m[j]);
    }
  }

  lemma ReadOneMore(t: LType, m: seq<Slot>, slots: seq<Slot>, i: nat)
    requires t.Submessage? && Shaped(t, Message(m)) && Shaped(t, Message(slots)) && i < |t.fields|
    requires Around(t, m, slots, i) && SameSlot(t.fields[i], m[i], slots[i])
    ensures ReadSoFar(t, m, slots, i + 1)
  {
    hide SameSlot, DefaultSlot;
  }

  // ---------------------------------------------------------------- where the decoding loop is

  /** The fields before i are read; field i may be read in part. */
  ghost predicate Midway(t: LType, m: seq<Slot>, slots: seq<Slot>, i: nat) {
    && t.Submessage? && GoodType(t) && Shaped(t, Message(m)) && Shaped(t, Message(slots)) && i < |t.fields|
    && ShapedSlot(t.fields[i], m[i]) && ShapedSlot(t.fields[i], slots[i]) && GoodField(t.fields[i])
    && Around(t, m, slots, i)
  }

  /** The fields before i are read, and no others. */
  ghost predicate Reading(t: LType, m: seq<Slot>, slots: seq<Slot>, i: nat) {
    && t.Submessage? && GoodType(t) && Shaped(t, Message(m)) && Shaped(t, Message(slots)) && i <= |t.fields|
    && ReadSoFar(t, m, slots, i)
  }

  lemma ReadingIsMidway(t: LType, m: seq<Slot>, slots: seq<Slot>, i: nat)
    requires Reading(t, m, slots, i) && i < |t.fields|
    ensures Midway(t, m, slots, i) && slots[i] == DefaultSlot(t.fields[i])
  {
    hide SameSlot, DefaultSlot;
  }

  lemma MidwayIsReading(t: LType, m: seq<Slot>, slots: seq<Slot>, i: nat)
    requires Midway(t, m, slots, i) && SameSlot(t.fields[i], m[i], slots[i])
    ensures Reading(t, m, slots, i + 1)
  {
    hide SameSlot, ShapedSlot, GoodField, Around, ReadSoFar;
    ReadOneMore(t, m, slots, i);
  }

  lemma MidwayFacts(t: LType, m: seq<Slot>, slots: seq<Slot>, i: nat)
    requires Midway(t, m, slots, i)
    ensures t.Submessage? && |m| == |t.fields| == |slots| && i < |t.fields|
    ensures ShapedSlot(t.fields[i], m[i]) && ShapedSlot(t.fields[i], slots[i]) && GoodField(t.fields[i])
  {
    hide ShapedSlot, GoodField, GoodType, Around;
  }

  /** The position, the struct and the required fields seen at the head of the loop. */
  datatype Point = Point(p: nat, slots: seq<Slot>, seen: set<nat>)

  ghost predicate OnTheWay(t: LType, b: Bytes, limit: nat, x: Point) {
    t.Submessage? && GoodType(t) && x.p <= limit <= |b| && Shaped(t, Message(x.slots))
  }

  /** From one point the loop gets to the other. */
  ghost predicate Leads(t: LType, b: Bytes, limit: nat, x: Point, y: Point) {
    && OnTheWay(t, b, limit, x) && OnTheWay(t, b, limit, y)
    && DecodeFields(t, b, x.p, limit, x.slots, x.seen) == DecodeFields(t, b, y.p, limit, y.slots, y.seen)
  }

  ghost predicate Fails(t: LType, b: Bytes, limit: nat, x: Point) {
    OnTheWay(t, b, limit, x) && DecodeFields(t, b, x.p, limit, x.slots, x.seen) == None
  }

  lemma LeadsOn(t: LType, b: Bytes, limit: nat, x: Point, y: Point, z: Point)
    requires Leads(t, b, limit, x, y)
    ensures Leads(t, b, limit, y, z) ==> Leads(t, b, limit, x, z)
    ensures Fails(t, b, limit, y) ==> Fails(t, b, limit, x)
  {
    hide OnTheWay, DecodeFields;
  }

  lemma StaysHere(t: LType, b: Bytes, limit: nat, x: Point)
    requires OnTheWay(t, b, limit, x)
    ensures Leads(t, b, limit, x, x)
  {
  }

  /** A turn of the loop that finds field i. */
  lemma StoreStep(t: LType, m: seq<Slot>, i: nat, wireType: nat, b: Bytes, p: nat, limit: nat, slots: seq<Slot>, seen: set<nat>)
    returns (after: seq<Slot>)
    requires Midway(t, m, slots, i) && wireType < 8 && Holds(b, p, limit, Key(t.fields[i].tag, wireType))
    requires t.fields[i].htype.Oneof? ==> m[i].Branch? && m[i].chosen.Some?
    ensures var q := p + |Key(t.fields[i].tag, wireType)|;
            && q <= limit <= |b|
            && var s := DecodeSlot(t.fields[i], wireType, b, q, limit, slots[i]);
               if s.None? then Fails(t, b, limit, Point(p, slots, seen))
               else
                 && Midway(t, m, after, i) && after[i] == s.value.slot
                 && Leads(t, b, limit, Point(p, slots, seen), Point(s.value.next, after, Noted(t.fields, i, seen)))
  {
    hide DecodeFields, DecodeSlot, GoodType, GoodField, Shaped, Holds, Key, Stored, Noted, Around, ShapedSlot;
    SlotCount(t, slots);
    KeyStep(t, i, wireType, b, p, limit, slots, seen);
    var s := DecodeSlot(t.fields[i], wireType, b, p + |Key(t.fields[i].tag, wireType)|, limit, slots[i]);
    after := slots;
    if s.Some? {
      StoredAround(t, m, slots, i, s.value.slot);
      after := Stored(t.fields, slots, i, s.value.slot);
    }
  }

  lemma SlotCount(t: LType, slots: seq<Slot>)
    requires t.Submessage? && Shaped(t, Message(slots))
    ensures |slots| == |t.fields|
  {
  }

  // ---------------------------------------------------------------- other fields

  lemma {:induction false} VarintIsSkipped(b: Bytes, p: nat, limit: nat, w: Bytes)
    requires Holds(b, p, limit, w) && IsWireValue(0, w)
    ensures limit <= |b| && SkipVarint(b, p, limit) == Some(p + |w|)
    decreases |w|
  {
    assert b[p] == w[0];
    if |w| > 1 {
      assert w == [w[0]] + w[1..];
      HoldsParts(b, p, limit, [w[0]], w[1..]);
      VarintIsSkipped(b, p + 1, limit, w[1..]);
    }
  }

  /** Skipping a value stops right behind it. */
  lemma ValueIsSkipped(wireType: nat, b: Bytes, p: nat, limit: nat, w: Bytes)
    requires Holds(b, p, limit, w) && IsWireValue(wireType, w)
    ensures p <= limit <= |b| && SkipField(wireType, b, p, limit) == Some(p + |w|)
  {
    hide LengthPrefixed, EncodeVarint, DecodeVarint32, SkipVarint;
    if wireType == 0 {
      VarintIsSkipped(b, p, limit, w);
    } else if wireType == 2 {
      var payload :| |payload| < TWO_32 && w == LengthPrefixed(payload);
      PrefixedIsThere(b, p, limit, payload);
    }
  }

  lemma OtherIsSkipped(t: LType, b: Bytes, limit: nat, x: Point, tag: nat, wireType: nat, value: Bytes)
    requires t.Submessage? && OnTheWay(t, b, limit, x) && OtherField(t.fields, tag, wireType, value)
    requires Holds(b, x.p, limit, EncodeVarint(tag * 8 + wireType) + value)
    ensures Leads(t, b, limit, x, Point(x.p + |EncodeVarint(tag * 8 + wireType)| + |value|, x.slots, x.seen))
  {
    hide EncodeVarint, DecodeVarint32, SkipField, IsWireValue, GoodType, Shaped, AllSeen;
    var key := tag * 8 + wireType;
    HoldsParts(b, x.p, limit, EncodeVarint(key), value);
    VarintIsThere(b, x.p, limit, key);
    var q := x.p + |EncodeVarint(key)|;
    ValueIsSkipped(wireType, b, q, limit, value);
    NoIndex(t.fields, tag);
    assert key / 8 == tag && key % 8 == wireType;
    KeyTakesRoom(b, x.p, limit, key);
    OtherTurn(t, key, b, q, limit, x.slots, x.seen);
  }

  lemma KeyTakesRoom(b: Bytes, p: nat, limit: nat, key: nat)
    requires Holds(b, p, limit, EncodeVarint(key))
    ensures p < limit
  {
  }

  lemma OtherTurn(t: LType, key: nat, b: Bytes, q: nat, limit: nat, slots: seq<Slot>, seen: set<nat>)
    requires t.Submessage? && GoodType(t) && q <= limit <= |b| && Shaped(t, Message(slots))
    requires key >= 8 && IndexOf(t.fields, key / 8) == None && SkipField(key % 8, b, q, limit).Some?
    ensures DecodeOne(t, key, b, q, limit, slots, seen) == Some(Progress(slots, seen, SkipField(key % 8, b, q, limit).value))
  {
    hide SkipField, GoodType, Shaped;
  }

  /** Fields the descriptor lacks change nothing. */
  lemma {:induction false} OthersAreSkipped(t: LType, b: Bytes, limit: nat, x: Point, w: Bytes)
    requires t.Submessage? && OnTheWay(t, b, limit, x) && Others(t.fields, w) && Holds(b, x.p, limit, w)
    ensures Leads(t, b, limit, x, Point(x.p + |w|, x.slots, x.seen))
    decreases |w|
  {
    hide EncodeVarint, OtherField, OnTheWay, Leads, Holds;
    if w == [] {
      StaysHere(t, b, limit, x);
    } else {
      var tag: nat, wireType: nat, value: Bytes, rest: Bytes :|
        w == EncodeVarint(tag * 8 + wireType) + (value + rest) && |rest| < |w|
        && OtherField(t.fields, tag, wireType, value) && Others(t.fields, rest);
      var head := EncodeVarint(tag * 8 + wireType) + value;
      assert w == head + rest;
      HoldsParts(b, x.p, limit, head, rest);
      OtherIsSkipped(t, b, limit, x, tag, wireType, value);
      var y := Point(x.p + |head|, x.slots, x.seen);
      LeadsThere(t, b, limit, x, y);
      OthersAreSkipped(t, b, limit, y, rest);
      LeadsOn(t, b, limit, x, y, Point(x.p + |w|, x.slots, x.seen));
    }
  }

  lemma LeadsThere(t: LType, b: Bytes, limit: nat, x: Point, y: Point)
    requires Leads(t, b, limit, x, y)
    ensures OnTheWay(t, b, limit, y)
  {
  }

  // ---------------------------------------------------------------- values

  /** An encoding of a value is read as the same value, if its strings are terminated, and not at all if not. */
  lemma {:induction false} ValueReads(t: LType, v: Datum, w: Bytes, was: Datum, b: Bytes, p: nat, limit: nat)
    requires GoodType(t) && Shaped(t, v) && Shaped(t, was) && (t.Submessage? ==> was == Blank(t))
    requires Encodes(t, v, w) && |w| < TWO_32 && Holds(b, p, limit, w)
    ensures p <= limit <= |b|
    ensures var r := DecodeValue(t, b, p, limit, was);
            && (r.Some? <==> Readable(t, v))
            && (r.Some? ==> r.value.next == p + |w| && SameDatum(t, v, r.value.datum))
    decreases t, 4, 0
  {
    hide EncodeVarint, DecodeVarint32, DecodeNumber, DecodeBytes, DecodeFields, EncodesFrom;
    if Packable(t) {
      NumberReads(t, v, b, p, limit);
    } else if t.Submessage? {
      hide Holds, Shaped, Blank, Readable, SameDatum;
      var payload :| w == LengthPrefixed(payload) && EncodesFrom(t, v.slots, 0, payload);
      PrefixedIsThere(b, p, limit, payload);
      var q := p + |EncodeVarint(|payload|)|;
      NarrowerLimit(b, q, limit, payload);
      MessageReads(t, v.slots, payload, b, q, q + |payload|);
    } else {
      BytesRead(t, v, was.bytes, b, p, limit);
    }
  }

  lemma NarrowerLimit(b: Bytes, p: nat, limit: nat, w: Bytes)
    requires Holds(b, p, limit, w)
    ensures Holds(b, p, p + |w|, w)
  {
  }

  lemma {:induction false} MessageReads(t: LType, m: seq<Slot>, w: Bytes, b: Bytes, p: nat, limit: nat)
    requires t.Submessage? && GoodType(t) && Shaped(t, Message(m)) && EncodesFrom(t, m, 0, w)
    requires |w| < TWO_32 && Holds(b, p, limit, w) && limit == p + |w|
    ensures p <= limit <= |b| && Shaped(t, Blank(t))
    ensures var r := DecodeFields(t, b, p, limit, Blank(t).slots, {});
            && (r.Some? <==> Readable(t, Message(m)))
            && (r.Some? ==> SameDatum(t, Message(m), Message(r.value)))
    decreases t, 3, 0
  {
    InBounds(b, p, limit, w);
    AtTheStart(t, m);
    NoneSeen(t.fields);
    AllReadable(t, m);
    hide Shaped, Blank, DecodeFields, SameDatum, Readable, Reading, GoodType, Holds, ReadableFrom, SeenBefore, EncodesFrom;
    FieldsRead(t, m, w, b, p, limit, 0, Blank(t).slots);
  }

  lemma AllReadable(t: LType, m: seq<Slot>)
    requires t.Submessage? && Shaped(t, Message(m))
    ensures Readable(t, Message(m)) <==> ReadableFrom(t, m, 0)
  {
    hide ReadableSlot, ShapedSlot;
  }

  lemma AtTheStart(t: LType, m: seq<Slot>)
    requires t.Submessage? && GoodType(t) && Shaped(t, Message(m))
    ensures Shaped(t, Blank(t)) && Blank(t).Message? && Reading(t, m, Blank(t).slots, 0)
  {
    BlankIsShaped(t);
  }

  lemma NoneSeen(fields: seq<Field>)
    ensures SeenBefore(fields, 0) == {}
  {
  }

  ghost predicate ReadableFrom(t: LType, m: seq<Slot>, i: nat)
    requires t.Submessage? && Shaped(t, Message(m))
  {
    forall j :: i <= j < |t.fields| ==> ReadableSlot(t.fields[j], m[j])
  }

  lemma ReadableStep(t: LType, m: seq<Slot>, i: nat)
    requires t.Submessage? && Shaped(t, Message(m)) && i < |t.fields|
    ensures ShapedSlot(t.fields[i], m[i]) && (ReadableFrom(t, m, i) <==> ReadableSlot(t.fields[i], m[i]) && ReadableFrom(t, m, i + 1))
  {
    hide ReadableSlot, ShapedSlot;
  }

  /** The fields from i on are encoded here, and nothing comes after them. */
  ghost predicate RestAt(t: LType, m: seq<Slot>, i: nat, w: Bytes, b: Bytes, p: nat, limit: nat) {
    && t.Submessage? && GoodType(t) && Shaped(t, Message(m)) && i <= |t.fields|
    && EncodesFrom(t, m, i, w) && |w| < TWO_32 && Holds(b, p, limit, w) && limit == p + |w|
  }

  /** From this point on, with the fields before i read, the loop reads the rest. */
  ghost predicate RestIsRead(t: LType, m: seq<Slot>, i: nat, b: Bytes, limit: nat, x: Point) {
    && OnTheWay(t, b, limit, x) && Shaped(t, Message(m))
    && var r := DecodeFields(t, b, x.p, limit, x.slots, x.seen);
       && (r.Some? <==> ReadableFrom(t, m, i))
       && (r.Some? ==> SameDatum(t, Message(m), Message(r.value)))
  }

  lemma RestAfterField(t: LType, m: seq<Slot>, i: nat, b: Bytes, limit: nat, x: Point, y: Point)
    requires t.Submessage? && Shaped(t, Message(m)) && i < |t.fields| && ShapedSlot(t.fields[i], m[i])
    requires if ReadableSlot(t.fields[i], m[i]) then Leads(t, b, limit, x, y) && RestIsRead(t, m, i + 1, b, limit, y)
             else Fails(t, b, limit, x)
    ensures RestIsRead(t, m, i, b, limit, x)
  {
    hide Shaped, ShapedSlot, ReadableSlot, SameDatum, DecodeFields, GoodType;
    ReadableStep(t, m, i);
  }

  lemma RestAfterOthers(t: LType, m: seq<Slot>, i: nat, b: Bytes, limit: nat, x: Point, y: Point)
    requires Leads(t, b, limit, x, y) && RestIsRead(t, m, i, b, limit, y)
    ensures RestIsRead(t, m, i, b, limit, x)
  {
    hide Shaped, ReadableFrom, SameDatum, DecodeFields, GoodType;
  }

  lemma RestFacts(t: LType, m: seq<Slot>, slots: seq<Slot>, i: nat, w: Bytes, b: Bytes, p: nat, limit: nat)
    requires RestAt(t, m, i, w, b, p, limit) && Reading(t, m, slots, i)
    ensures t.Submessage? && i <= |t.fields| == |m| && Shaped(t, Message(m)) && |w| < TWO_32 && Holds(b, p, limit, w)
    ensures i < |t.fields| ==> ShapedSlot(t.fields[i], m[i])
    ensures EncodesFrom(t, m, i, w) && OnTheWay(t, b, limit, Point(p, slots, SeenBefore(t.fields, i)))
  {
    hide GoodType, ReadSoFar, EncodesFrom, SeenBefore;
  }

  /** The next field and the other fields before it. */
  lemma NextField(t: LType, m: seq<Slot>, i: nat, w: Bytes, b: Bytes, p: nat, limit: nat) returns (others: Bytes, r: Bytes, rest: Bytes)
    requires RestAt(t, m, i, w, b, p, limit) && i < |t.fields|
    ensures ShapedSlot(t.fields[i], m[i]) && |others| + |r| + |rest| == |w|
    ensures Others(t.fields, others) && Holds(b, p, limit, others)
    ensures WrittenAt(t.fields, t.fields[i], m[i], r, b, p + |others|, limit)
    ensures RestAt(t, m, i + 1, rest, b, p + |others| + |r|, limit)
  {
    hide GoodType, Holds, Others, EncodesSlot;
    others, r, rest :|
      && w == others + (r + rest) && Others(t.fields, others)
      && EncodesSlot(t.fields, t.fields[i], m[i], r) && EncodesFrom(t, m, i + 1, rest);
    hide EncodesFrom;
    HoldsParts(b, p, limit, others, r + rest);
    HoldsParts(b, p + |others|, limit, r, rest);
  }

  /** The fields from i on. */
  lemma {:induction false} FieldsRead(t: LType, m: seq<Slot>, w: Bytes, b: Bytes, p: nat, limit: nat, i: nat, slots: seq<Slot>)
    requires RestAt(t, m, i, w, b, p, limit) && Reading(t, m, slots, i)
    ensures i <= |t.fields| && RestIsRead(t, m, i, b, limit, Point(p, slots, SeenBefore(t.fields, i)))
    decreases t, 2, |t.fields| - i
  {
    hide *;
    RestFacts(t, m, slots, i, w, b, p, limit);
    var seen := SeenBefore(t.fields, i);
    var here := Point(p, slots, seen);
    if i == |t.fields| {
      OnlyOthersLeft(t, m, w);
      OthersAreSkipped(t, b, limit, here, w);
      EndReads(t, m, b, p, limit, slots, w);
      RestAfterOthers(t, m, i, b, limit, here, Point(p + |w|, slots, seen));
    } else {
      var others, r, rest := NextField(t, m, i, w, b, p, limit);
      OthersAreSkipped(t, b, limit, here, others);
      var there := Point(p + |others|, slots, seen);
      var after := FieldReads(t, m, i, r, b, there.p, limit, slots);
      var next := Point(there.p + |r|, after, SeenBefore(t.fields, i + 1));
      FieldMeans(t, m, i, r, b, there.p, limit, slots, after);
      if ReadableSlot(t.fields[i], m[i]) {
        FieldsRead(t, m, rest, b, next.p, limit, i + 1, after);
      }
      RestAfterField(t, m, i, b, limit, there, next);
      RestAfterOthers(t, m, i, b, limit, here, there);
    }
  }

  lemma OnlyOthersLeft(t: LType, m: seq<Slot>, w: Bytes)
    requires t.Submessage? && Shaped(t, Message(m)) && EncodesFrom(t, m, |t.fields|, w)
    ensures Others(t.fields, w)
  {
  }

  lemma EndReads(t: LType, m: seq<Slot>, b: Bytes, p: nat, limit: nat, slots: seq<Slot>, w: Bytes)
    requires t.Submessage? && RestAt(t, m, |t.fields|, w, b, p, limit) && Reading(t, m, slots, |t.fields|)
    ensures RestIsRead(t, m, |t.fields|, b, limit, Point(p + |w|, slots, SeenBefore(t.fields, |t.fields|)))
  {
    hide SeenBefore, SameSlot, ShapedSlot, GoodField, AllSeen, DefaultSlot, EncodesFrom;
    AllSeenAtEnd(t.fields);
  }

  /** The field is encoded here. */
  ghost predicate WrittenAt(fields: seq<Field>, f: Field, s: Slot, r: Bytes, b: Bytes, p: nat, limit: nat) {
    ShapedSlot(f, s) && EncodesSlot(fields, f, s, r) && |r| < TWO_32 && Holds(b, p, limit, r)
  }

  /** Reading field i takes the bytes it is encoded in, if its strings are terminated; if not, the message is not
      read. */
  ghost predicate FieldIsRead(t: LType, m: seq<Slot>, i: nat, r: Bytes, b: Bytes, p: nat, limit: nat, slots: seq<Slot>, after: seq<Slot>)
    requires t.Submessage? && i < |t.fields| == |m| && ShapedSlot(t.fields[i], m[i])
  {
    var here := Point(p, slots, SeenBefore(t.fields, i));
    if ReadableSlot(t.fields[i], m[i]) then
      Reading(t, m, after, i + 1) && Leads(t, b, limit, here, Point(p + |r|, after, SeenBefore(t.fields, i + 1)))
    else Fails(t, b, limit, here)
  }

  lemma FieldMeans(t: LType, m: seq<Slot>, i: nat, r: Bytes, b: Bytes, p: nat, limit: nat, slots: seq<Slot>, after: seq<Slot>)
    requires t.Submessage? && i < |t.fields| == |m| && ShapedSlot(t.fields[i], m[i])
    requires FieldIsRead(t, m, i, r, b, p, limit, slots, after)
    ensures var here := Point(p, slots, SeenBefore(t.fields, i));
            if ReadableSlot(t.fields[i], m[i]) then
              Reading(t, m, after, i + 1) && Leads(t, b, limit, here, Point(p + |r|, after, SeenBefore(t.fields, i + 1)))
            else Fails(t, b, limit, here)
  {
    hide ReadableSlot, Leads, Fails, Reading, SeenBefore, ShapedSlot;
  }

  lemma AsWritten(t: LType, m: seq<Slot>, i: nat, r: Bytes, b: Bytes, p: nat, limit: nat, slots: seq<Slot>, after: seq<Slot>, next: nat)
    requires t.Submessage? && i < |t.fields| == |m| && ShapedSlot(t.fields[i], m[i]) && next == p + |r|
    requires if ReadableSlot(t.fields[i], m[i]) then
               && Midway(t, m, after, i) && SameSlot(t.fields[i], m[i], after[i])
               && Leads(t, b, limit, Point(p, slots, SeenBefore(t.fields, i)),
                        Point(next, after, Noted(t.fields, i, SeenBefore(t.fields, i))))
             else Fails(t, b, limit, Point(p, slots, SeenBefore(t.fields, i)))
    ensures FieldIsRead(t, m, i, r, b, p, limit, slots, after)
  {
    hide Midway, Leads, Fails, SeenBefore, Noted, SameSlot, ReadableSlot, Reading, ShapedSlot, RequiredBefore;
    SeenNext(t.fields, i);
    if ReadableSlot(t.fields[i], m[i]) {
      MidwayIsReading(t, m, after, i);
    }
  }

  lemma FieldReads(t: LType, m: seq<Slot>, i: nat, r: Bytes, b: Bytes, p: nat, limit: nat, slots: seq<Slot>) returns (after: seq<Slot>)
    requires Reading(t, m, slots, i) && i < |t.fields| == |m| && WrittenAt(t.fields, t.fields[i], m[i], r, b, p, limit)
    ensures FieldIsRead(t, m, i, r, b, p, limit, slots, after)
    decreases t, 1, 0
  {
    var f, s := t.fields[i], m[i];
    hide Reading, FieldIsRead, Readable, SameSlot, DefaultSlot, Packable, IsZero, Shaped, Holds, EncodesTagged, EncodesItems, WireSlot;
    if r == [] && IsUnset(f, s) {
      AbsentReads(t, m, i, b, p, limit, slots);
      after := slots;
    } else if f.htype.Repeated? {
      if Packable(f.ltype) {
        after := PackedFieldReads(t, m, i, r, b, p, limit, slots);
      } else {
        after := RepeatedFieldReads(t, m, i, r, b, p, limit, slots);
      }
    } else {
      after := CarriedFieldReads(t, m, i, if s.Branch? then s.chosen.value else s.value, r, b, p, limit, slots);
    }
  }

  /** What is not written reads as it was at the start. */
  lemma AbsentReads(t: LType, m: seq<Slot>, i: nat, b: Bytes, p: nat, limit: nat, slots: seq<Slot>)
    requires Reading(t, m, slots, i) && i < |t.fields| == |m| && ShapedSlot(t.fields[i], m[i]) && IsUnset(t.fields[i], m[i])
    requires p <= limit <= |b|
    ensures FieldIsRead(t, m, i, [], b, p, limit, slots, slots)
  {
    ReadingIsMidway(t, m, slots, i);
    UnsetIsReadable(t.fields[i], m[i]);
    hide GoodType, Around, ReadSoFar, SeenBefore, Readable, DecodeFields, Noted, Shaped, SameSlot, DefaultSlot, ReadableSlot;
    UnsetIsDefault(t.fields[i], m[i]);
    SeenNext(t.fields, i);
    MidwayIsReading(t, m, slots, i);
    StaysHere(t, b, limit, Point(p, slots, SeenBefore(t.fields, i)));
  }

  /** What counts as zero has no string that lacks its end. */
  lemma ZeroIsReadable(t: LType, v: Datum)
    requires GoodType(t) && Shaped(t, v) && IsZero(t, v)
    ensures Readable(t, v)
    decreases t
  {
    if t.Submessage? {
      forall i | 0 <= i < |t.fields|
        ensures ReadableSlot(t.fields[i], v.slots[i])
      {
        UnsetIsReadable(t.fields[i], v.slots[i]);
      }
    }
  }

  lemma UnsetIsReadable(f: Field, s: Slot)
    requires GoodField(f) && ShapedSlot(f, s) && IsUnset(f, s)
    ensures ReadableSlot(f, s)
    decreases f
  {
    if f.htype.Singular? {
      ZeroIsReadable(f.ltype, s.value);
    }
  }

  // ---------------------------------------------------------------- fields with one value

  /** A field that is set, or always there. */
  ghost predicate Carries(f: Field, s: Slot, v: Datum)
    requires ShapedSlot(f, s)
  {
    match f.htype
    case Required => s.value == v
    case Singular => s.value == v
    case Optional => s == Maybe(true, v)
    case Oneof(_) => s == Branch(Some(v))
    case Repeated(_) => false
  }

  lemma WireTypeBound(t: LType)
    ensures WireType(t) < 8
  {
  }

  /** A key, and the value it announces. */
  lemma TaggedParts(f: Field, v: Datum, r: Bytes, b: Bytes, p: nat, limit: nat) returns (value: Bytes)
    requires Shaped(f.ltype, v) && EncodesTagged(f, v, r) && Holds(b, p, limit, r)
    ensures var key := Key(f.tag, WireType(f.ltype));
            && |r| == |key| + |value| && Encodes(f.ltype, v, value)
            && Holds(b, p, limit, key) && Holds(b, p + |key|, limit, value)
  {
    hide Key, WireType, Encodes, Shaped, Holds;
    value :| r == Key(f.tag, WireType(f.ltype)) + value && Encodes(f.ltype, v, value);
    HoldsParts(b, p, limit, Key(f.tag, WireType(f.ltype)), value);
  }

  lemma CarriedSlotReads(f: Field, s: Slot, v: Datum, w: Bytes, b: Bytes, p: nat, limit: nat)
    requires GoodField(f) && ShapedSlot(f, s) && Carries(f, s, v) && Shaped(f.ltype, v)
    requires Encodes(f.ltype, v, w) && |w| < TWO_32 && Holds(b, p, limit, w)
    ensures p <= limit <= |b| && ShapedSlot(f, DefaultSlot(f))
    ensures var r := DecodeSlot(f, WireType(f.ltype), b, p, limit, DefaultSlot(f));
            && (r.Some? <==> ReadableSlot(f, s))
            && (r.Some? ==> r.value.next == p + |w| && SameSlot(f, s, r.value.slot))
    decreases f, 0, 0
  {
    hide *;
    InBounds(b, p, limit, w);
    CarriesOne(f, s, v);
    CarriedSlot(f, b, p, limit);
    var was := if f.ltype.Submessage? || f.htype.Oneof? then Blank(f.ltype) else f.initial;
    ValueReads(f.ltype, v, w, was, b, p, limit);
    if IsZero(f.ltype, v) {
      ZeroIsReadable(f.ltype, v);
    }
    CarriedMeans(f, s, v);
    var d := DecodeValue(f.ltype, b, p, limit, was);
    if d.Some? {
      CarriedSame(f, s, v, d.value.datum);
    }
  }

  /** A field that is not an array, with this in it. */
  function SlotOf(h: HType, v: Datum): Slot {
    match h
    case Required => One(v)
    case Singular => One(v)
    case Optional => Maybe(true, v)
    case Oneof(_) => Branch(Some(v))
    case Repeated(_) => Many([v])
  }

  lemma CarriesOne(f: Field, s: Slot, v: Datum)
    requires ShapedSlot(f, s) && Carries(f, s, v)
    ensures !f.htype.Repeated?
  {
  }

  lemma CarriedMeans(f: Field, s: Slot, v: Datum)
    requires ShapedSlot(f, s) && Carries(f, s, v) && Shaped(f.ltype, v) && (IsZero(f.ltype, v) ==> Readable(f.ltype, v))
    ensures ReadableSlot(f, s) <==> Readable(f.ltype, v)
  {
    hide Shaped, IsZero, Readable;
  }

  lemma CarriedSame(f: Field, s: Slot, v: Datum, d: Datum)
    requires ShapedSlot(f, s) && Carries(f, s, v) && Shaped(f.ltype, v) && Shaped(f.ltype, d) && SameDatum(f.ltype, v, d)
    ensures ShapedSlot(f, SlotOf(f.htype, d)) && SameSlot(f, s, SlotOf(f.htype, d))
  {
    hide Shaped, SameDatum;
  }

  /** What a field that is not an array is read into. */
  lemma CarriedSlot(f: Field, b: Bytes, p: nat, limit: nat)
    requires p <= limit <= |b| && GoodField(f) && !f.htype.Repeated?
    ensures GoodType(f.ltype) && ShapedSlot(f, DefaultSlot(f))
    ensures var was := if f.ltype.Submessage? || f.htype.Oneof? then Blank(f.ltype) else f.initial;
            && Shaped(f.ltype, was)
            && var v := DecodeValue(f.ltype, b, p, limit, was);
               DecodeSlot(f, WireType(f.ltype), b, p, limit, DefaultSlot(f))
               == if v.None? then None else Some(ParsedSlot(SlotOf(f.htype, v.value.datum), v.value.next))
  {
    DefaultIsShaped(f);
    BlankIsShaped(f.ltype);
    hide DecodeValue, Shaped, Blank, WireType;
  }

  lemma CarryFacts(f: Field, s: Slot, v: Datum)
    requires ShapedSlot(f, s) && Carries(f, s, v)
    ensures Shaped(f.ltype, v) && (f.htype.Oneof? ==> s.Branch? && s.chosen.Some?) && WireType(f.ltype) < 8
  {
    hide Shaped;
  }

  lemma CarriedFieldReads(t: LType, m: seq<Slot>, i: nat, v: Datum, r: Bytes, b: Bytes, p: nat, limit: nat, slots: seq<Slot>)
    returns (after: seq<Slot>)
    requires Reading(t, m, slots, i) && i < |t.fields| == |m| && ShapedSlot(t.fields[i], m[i])
    requires Carries(t.fields[i], m[i], v) && Shaped(t.fields[i].ltype, v) && EncodesTagged(t.fields[i], v, r)
    requires |r| < TWO_32 && Holds(b, p, limit, r)
    ensures FieldIsRead(t, m, i, r, b, p, limit, slots, after)
    decreases t, 0, 0
  {
    hide *;
    ReadingIsMidway(t, m, slots, i);
    MidwayFacts(t, m, slots, i);
    var f := t.fields[i];
    CarryFacts(f, m[i], v);
    var value := TaggedParts(f, v, r, b, p, limit);
    CarriedSlotReads(f, m[i], v, value, b, p + |Key(f.tag, WireType(f.ltype))|, limit);
    after := StoreStep(t, m, i, WireType(f.ltype), b, p, limit, slots, SeenBefore(t.fields, i));
    AsWritten(t, m, i, r, b, p, limit, slots, after, p + |Key(f.tag, WireType(f.ltype))| + |value|);
  }

  // ---------------------------------------------------------------- arrays

  ghost predicate SameItems(t: LType, items: seq<Datum>, got: seq<Datum>) {
    && |got| <= |items|
    && forall i :: 0 <= i < |got| ==> Shaped(t, items[i]) && Shaped(t, got[i]) && SameDatum(t, items[i], got[i])
  }

  lemma {:induction false} PackedReads(t: LType, items: seq<Datum>, got: seq<Datum>, max: nat, b: Bytes, p: nat, limit: nat)
    requires Packable(t) && GoodType(t) && |got| <= |items| <= max
    requires forall i :: 0 <= i < |items| ==> Shaped(t, items[i])
    requires forall i :: 0 <= i < |got| ==> Shaped(t, got[i])
    requires SameItems(t, items, got)
    requires var w := WirePacked(t, items, |items|); w.Some? && Holds(b, p, limit, w.value) && limit == p + |w.value|
    requires WirePacked(t, items, |got|).Some?
    ensures var at := p + |WirePacked(t, items, |got|).value|;
            && at <= limit <= |b|
            && var r := DecodePacked(t, b, at, limit, got, max);
               r.Some? && |r.value| == |items| && SameItems(t, items, r.value)
    decreases |items| - |got|
  {
    hide WirePacked, WireValue, Shaped, SameDatum, DecodeNumber, Holds, Packable, GoodType;
    var k := |got|;
    InBounds(b, p, limit, WirePacked(t, items, |items|).value);
    if k < |items| {
      PackedItemIsThere(t, items, |items|, k, b, p, limit);
      var at := p + |WirePacked(t, items, k).value|;
      NumberReads(t, items[k], b, at, limit);
      WireIsNotEmpty(t, items[k]);
      var v := DecodeNumber(t, b, at, limit).value;
      PackedReads(t, items, got + [Number(v.n)], max, b, p, limit);
    }
  }

  lemma WireIsNotEmpty(t: LType, v: Datum)
    requires Shaped(t, v) && Packable(t) && WireValue(t, v).Some?
    ensures |WireValue(t, v).value| > 0
  {
    if t.Fixed32? {
      Fixed32Size(v.n);
    }
  }

  /** A packed array is read from its one length-delimited run. */
  lemma PackedSlotReads(f: Field, s: Slot, b: Bytes, p: nat, limit: nat)
    requires GoodField(f) && ShapedSlot(f, s) && f.htype.Repeated? && Packable(f.ltype) && |s.items| <= f.htype.max
    requires var w := Prefixed(WirePacked(f.ltype, s.items, |s.items|));
             w.Some? && |w.value| < TWO_32 && Holds(b, p, limit, w.value)
    ensures p <= limit <= |b| && ShapedSlot(f, DefaultSlot(f)) && ReadableSlot(f, s)
    ensures var r := DecodeSlot(f, WT_STRING, b, p, limit, DefaultSlot(f));
            && r.Some? && r.value.next == p + |Prefixed(WirePacked(f.ltype, s.items, |s.items|)).value|
            && SameSlot(f, s, r.value.slot)
  {
    hide WirePacked, DecodePacked, SameDatum, EncodeVarint, DecodeVarint32, Holds;
    DefaultIsShaped(f);
    var w := WirePacked(f.ltype, s.items, |s.items|).value;
    PrefixedIsThere(b, p, limit, w);
    var q := p + |EncodeVarint(|w|)|;
    NarrowerLimit(b, q, limit, w);
    PackedOfNone(f.ltype, s.items);
    PackedReads(f.ltype, s.items, [], f.htype.max, b, q, q + |w|);
  }

  lemma PackedOfNone(t: LType, items: seq<Datum>)
    requires forall i :: 0 <= i < |items| ==> Shaped(t, items[i])
    ensures WirePacked(t, items, 0) == Some([])
  {
  }

  lemma PackedParts(fields: seq<Field>, f: Field, s: Slot, r: Bytes, b: Bytes, p: nat, limit: nat)
    requires WrittenAt(fields, f, s, r, b, p, limit) && f.htype.Repeated? && Packable(f.ltype) && s.items != []
    ensures 0 <= WT_STRING < 8 && |r| < TWO_32
    ensures var key, rest := Key(f.tag, WT_STRING), Prefixed(WirePacked(f.ltype, s.items, |s.items|));
            && |s.items| <= f.htype.max && rest.Some? && |r| == |key| + |rest.value|
            && Holds(b, p, limit, key) && Holds(b, p + |key|, limit, rest.value)
  {
    hide WirePacked, Prefixed, Key, Holds, Joined, Packable, Shaped, EncodesItems;
    JoinedParts(Some(Key(f.tag, WT_STRING)), Prefixed(WirePacked(f.ltype, s.items, |s.items|)), b, p, limit);
  }

  lemma PackedFieldReads(t: LType, m: seq<Slot>, i: nat, r: Bytes, b: Bytes, p: nat, limit: nat, slots: seq<Slot>)
    returns (after: seq<Slot>)
    requires Reading(t, m, slots, i) && i < |t.fields| == |m| && WrittenAt(t.fields, t.fields[i], m[i], r, b, p, limit)
    requires ShapedSlot(t.fields[i], m[i]) && t.fields[i].htype.Repeated? && Packable(t.fields[i].ltype) && m[i].items != []
    ensures FieldIsRead(t, m, i, r, b, p, limit, slots, after)
  {
    hide *;
    ReadingIsMidway(t, m, slots, i);
    MidwayFacts(t, m, slots, i);
    var f := t.fields[i];
    ArrayShape(f, m[i]);
    PackedParts(t.fields, f, m[i], r, b, p, limit);
    PackedSlotReads(f, m[i], b, p + |Key(f.tag, WT_STRING)|, limit);
    after := StoreStep(t, m, i, WT_STRING, b, p, limit, slots, SeenBefore(t.fields, i));
    AsWritten(t, m, i, r, b, p, limit, slots, after, p + |r|);
  }

  ghost predicate ReadableItems(t: LType, items: seq<Datum>, k: nat)
    requires forall i :: 0 <= i < |items| ==> Shaped(t, items[i])
  {
    forall i :: k <= i < |items| ==> Readable(t, items[i])
  }

  lemma ItemsStep(t: LType, items: seq<Datum>, k: nat)
    requires k < |items| && forall i :: 0 <= i < |items| ==> Shaped(t, items[i])
    ensures ReadableItems(t, items, k) <==> Readable(t, items[k]) && ReadableItems(t, items, k + 1)
  {
    hide Readable, Shaped;
  }

  lemma NoItemsLeft(t: LType, items: seq<Datum>)
    requires forall i :: 0 <= i < |items| ==> Shaped(t, items[i])
    ensures ReadableItems(t, items, |items|)
  {
  }

  lemma ItemSlotReads(f: Field, items: seq<Datum>, got: seq<Datum>, w: Bytes, b: Bytes, p: nat, limit: nat)
    requires GoodField(f) && f.htype.Repeated? && !Packable(f.ltype) && ShapedSlot(f, Many(items)) && ShapedSlot(f, Many(got))
    requires SameItems(f.ltype, items, got) && |got| < |items| <= f.htype.max
    requires Encodes(f.ltype, items[|got|], w) && |w| < TWO_32 && Holds(b, p, limit, w)
    ensures p <= limit <= |b|
    ensures var r := DecodeSlot(f, WireType(f.ltype), b, p, limit, Many(got));
            && (r.Some? <==> Readable(f.ltype, items[|got|]))
            && (r.Some? ==>
              && r.value.next == p + |w| && r.value.slot.Many?
              && |r.value.slot.items| == |got| + 1 && SameItems(f.ltype, items, r.value.slot.items))
    decreases f, 0, 0
  {
    hide *;
    ArrayItems(f, items);
    ArrayItems(f, got);
    WordsAreNotPacked(f.ltype);
    InBounds(b, p, limit, w);
    ItemSlot(f, WireType(f.ltype), b, p, limit, got);
    ValueReads(f.ltype, items[|got|], w, Blank(f.ltype), b, p, limit);
    var d := DecodeValue(f.ltype, b, p, limit, Blank(f.ltype));
    if d.Some? {
      OneMoreItem(f.ltype, items, got, d.value.datum);
    }
  }

  lemma ArrayItems(f: Field, items: seq<Datum>)
    requires ShapedSlot(f, Many(items)) && f.htype.Repeated?
    ensures forall i :: 0 <= i < |items| ==> Shaped(f.ltype, items[i])
  {
  }

  lemma OneMoreItem(t: LType, items: seq<Datum>, got: seq<Datum>, d: Datum)
    requires SameItems(t, items, got) && |got| < |items| && Shaped(t, items[|got|]) && Shaped(t, d) && SameDatum(t, items[|got|], d)
    ensures SameItems(t, items, got + [d])
  {
    hide Shaped, SameDatum;
  }

  lemma WordsAreNotPacked(t: LType)
    ensures Packable(t) ==> WireType(t) != WT_STRING
  {
  }

  lemma ItemSlot(f: Field, wireType: nat, b: Bytes, p: nat, limit: nat, got: seq<Datum>)
    requires p <= limit <= |b| && ShapedSlot(f, Many(got)) && GoodField(f) && f.htype.Repeated? && |got| < f.htype.max
    requires wireType == WT_STRING ==> !Packable(f.ltype)
    ensures Shaped(f.ltype, Blank(f.ltype)) && GoodType(f.ltype)
    ensures var v := DecodeValue(f.ltype, b, p, limit, Blank(f.ltype));
            DecodeSlot(f, wireType, b, p, limit, Many(got))
            == if v.None? then None else Some(ParsedSlot(Many(got + [v.value.datum]), v.value.next))
  {
    BlankIsShaped(f.ltype);
    hide DecodeValue, Shaped, Blank, Packable;
  }

  lemma ArrayShape(f: Field, s: Slot)
    requires ShapedSlot(f, s) && f.htype.Repeated?
    ensures s.Many? && s == Many(s.items)
  {
  }

  lemma SeenOfArray(fields: seq<Field>, i: nat, seen: set<nat>)
    requires i < |fields| && fields[i].htype.Repeated?
    ensures Noted(fields, i, seen) == seen
  {
  }

  /** So many items of an array that is not packed are read, and the others are encoded here. */
  ghost predicate ReadingArray(t: LType, m: seq<Slot>, i: nat, w: Bytes, b: Bytes, p: nat, limit: nat, slots: seq<Slot>) {
    && Midway(t, m, slots, i) && t.fields[i].htype.Repeated? && !Packable(t.fields[i].ltype)
    && |m[i].items| <= t.fields[i].htype.max && SameItems(t.fields[i].ltype, m[i].items, slots[i].items)
    && EncodesItems(t.fields, t.fields[i], m[i].items, |slots[i].items|, w) && |w| < TWO_32 && Holds(b, p, limit, w)
  }

  lemma ArrayFacts(t: LType, m: seq<Slot>, i: nat, w: Bytes, b: Bytes, p: nat, limit: nat, slots: seq<Slot>, seen: set<nat>)
    requires ReadingArray(t, m, i, w, b, p, limit, slots)
    ensures Midway(t, m, slots, i) && t.Submessage? && i < |t.fields| == |m| == |slots| && GoodField(t.fields[i])
    ensures var f, items, got := t.fields[i], m[i].items, slots[i].items;
            && f.htype.Repeated? && !Packable(f.ltype) && |items| <= f.htype.max && slots[i] == Many(got) && m[i] == Many(items)
            && ShapedSlot(f, Many(items)) && ShapedSlot(f, Many(got)) && (forall k :: 0 <= k < |items| ==> Shaped(f.ltype, items[k]))
            && (forall k :: 0 <= k < |got| ==> Shaped(f.ltype, got[k])) && SameItems(f.ltype, items, got) && |got| <= |items|
            && WireType(f.ltype) < 8 && Noted(t.fields, i, seen) == seen
            && EncodesItems(t.fields, f, items, |got|, w) && |w| < TWO_32 && Holds(b, p, limit, w)
    ensures OnTheWay(t, b, limit, Point(p, slots, seen))
  {
    WireTypeBound(t.fields[i].ltype);
    ArrayShape(t.fields[i], slots[i]);
    ArrayShape(t.fields[i], m[i]);
    SeenOfArray(t.fields, i, seen);
    hide GoodType, GoodField, Around, Shaped, EncodesItems, WireType, Noted, Packable;
  }

  /** The next item and the other fields before it. */
  lemma NextItem(fields: seq<Field>, f: Field, items: seq<Datum>, k: nat, w: Bytes, b: Bytes, p: nat, limit: nat)
    returns (others: Bytes, r: Bytes, rest: Bytes)
    requires k < |items| && forall i :: 0 <= i < |items| ==> Shaped(f.ltype, items[i])
    requires EncodesItems(fields, f, items, k, w) && |w| < TWO_32 && Holds(b, p, limit, w)
    ensures Others(fields, others) && Holds(b, p, limit, others) && |others| + |r| + |rest| == |w|
    ensures EncodesTagged(f, items[k], r) && Holds(b, p + |others|, limit, r)
    ensures EncodesItems(fields, f, items, k + 1, rest) && Holds(b, p + |others| + |r|, limit, rest)
  {
    hide Shaped, Holds, Others, EncodesTagged;
    others, r, rest :|
      && w == others + (r + rest) && Others(fields, others)
      && EncodesTagged(f, items[k], r) && EncodesItems(fields, f, items, k + 1, rest);
    hide EncodesItems;
    HoldsParts(b, p, limit, others, r + rest);
    HoldsParts(b, p + |others|, limit, r, rest);
  }

  lemma ItemStored(t: LType, m: seq<Slot>, i: nat, w: Bytes, b: Bytes, p: nat, limit: nat, slots: seq<Slot>, after: seq<Slot>,
                   rest: Bytes, q: nat)
    requires ReadingArray(t, m, i, w, b, p, limit, slots) && Midway(t, m, after, i) && after[i].Many?
    requires SameItems(t.fields[i].ltype, m[i].items, after[i].items)
    requires EncodesItems(t.fields, t.fields[i], m[i].items, |after[i].items|, rest) && |rest| <= |w| && Holds(b, q, limit, rest)
    ensures ReadingArray(t, m, i, rest, b, q, limit, after)
  {
    hide GoodType, GoodField, Around, Shaped, Holds, EncodesItems, Packable, SameItems;
  }

  /** One item. */
  lemma ItemReads(t: LType, m: seq<Slot>, i: nat, w: Bytes, b: Bytes, p: nat, limit: nat, slots: seq<Slot>, seen: set<nat>)
    returns (after: seq<Slot>, rest: Bytes)
    requires ReadingArray(t, m, i, w, b, p, limit, slots) && |slots[i].items| < |m[i].items|
    ensures var f, items, k := t.fields[i], m[i].items, |slots[i].items|;
            var here, q := Point(p, slots, seen), p + |w| - |rest|;
            && |rest| <= |w|
            && if Readable(f.ltype, items[k]) then
                 && ReadingArray(t, m, i, rest, b, q, limit, after) && |after[i].items| == k + 1
                 && Leads(t, b, limit, here, Point(q, after, seen))
               else Fails(t, b, limit, here)
    decreases t, 0, 0
  {
    hide *;
    ArrayFacts(t, m, i, w, b, p, limit, slots, seen);
    var f, items, got := t.fields[i], m[i].items, slots[i].items;
    var here := Point(p, slots, seen);
    var others, r;
    others, r, rest := NextItem(t.fields, f, items, |got|, w, b, p, limit);
    OthersAreSkipped(t, b, limit, here, others);
    var there := Point(p + |others|, slots, seen);
    var value := TaggedParts(f, items[|got|], r, b, there.p, limit);
    ItemSlotReads(f, items, got, value, b, there.p + |Key(f.tag, WireType(f.ltype))|, limit);
    after := StoreStep(t, m, i, WireType(f.ltype), b, there.p, limit, slots, seen);
    var next := Point(there.p + |r|, after, seen);
    LeadsOn(t, b, limit, here, there, next);
    if Readable(f.ltype, items[|got|]) {
      MidwayFacts(t, m, after, i);
      ItemStored(t, m, i, w, b, p, limit, slots, after, rest, next.p);
    }
  }

  lemma {:induction false} ItemsRead(t: LType, m: seq<Slot>, i: nat, w: Bytes, b: Bytes, p: nat, limit: nat, slots: seq<Slot>,
                                     seen: set<nat>)
    returns (after: seq<Slot>)
    requires ReadingArray(t, m, i, w, b, p, limit, slots)
    ensures var f, items, k := t.fields[i], m[i].items, |slots[i].items|;
            var here := Point(p, slots, seen);
            if ReadableItems(f.ltype, items, k) then
              && Midway(t, m, after, i) && SameSlot(f, m[i], after[i]) && Leads(t, b, limit, here, Point(p + |w|, after, seen))
            else Fails(t, b, limit, here)
    decreases t, 0, |m[i].items| - |slots[i].items| + 1
  {
    hide *;
    ArrayFacts(t, m, i, w, b, p, limit, slots, seen);
    var f, items, k := t.fields[i], m[i].items, |slots[i].items|;
    after := slots;
    if k == |items| {
      AllItemsRead(t, m, i, w, b, p, limit, slots, seen);
    } else {
      ItemsStep(f.ltype, items, k);
      var next, rest := ItemReads(t, m, i, w, b, p, limit, slots, seen);
      if Readable(f.ltype, items[k]) {
        var q := p + |w| - |rest|;
        ArrayFacts(t, m, i, rest, b, q, limit, next, seen);
        after := ItemsRead(t, m, i, rest, b, q, limit, next, seen);
        LeadsOn(t, b, limit, Point(p, slots, seen), Point(q, next, seen), Point(p + |w|, after, seen));
      }
    }
  }

  lemma AllItemsRead(t: LType, m: seq<Slot>, i: nat, w: Bytes, b: Bytes, p: nat, limit: nat, slots: seq<Slot>, seen: set<nat>)
    requires ReadingArray(t, m, i, w, b, p, limit, slots) && |slots[i].items| == |m[i].items|
    ensures ReadableItems(t.fields[i].ltype, m[i].items, |m[i].items|) && w == [] && Midway(t, m, slots, i)
    ensures SameSlot(t.fields[i], m[i], slots[i])
    ensures Leads(t, b, limit, Point(p, slots, seen), Point(p, slots, seen))
  {
    NoItemsLeft(t.fields[i].ltype, m[i].items);
    NothingLeft(t.fields, t.fields[i], m[i].items, w);
    hide DecodeFields, EncodesItems, SameDatum, Shaped, Around, ReadableItems, GoodType, GoodField, Packable;
  }

  lemma NothingLeft(fields: seq<Field>, f: Field, items: seq<Datum>, w: Bytes)
    requires (forall i :: 0 <= i < |items| ==> Shaped(f.ltype, items[i])) && EncodesItems(fields, f, items, |items|, w)
    ensures w == []
  {
  }

  lemma ArrayBegins(t: LType, m: seq<Slot>, i: nat, r: Bytes, b: Bytes, p: nat, limit: nat, slots: seq<Slot>)
    requires Reading(t, m, slots, i) && i < |t.fields| == |m| && WrittenAt(t.fields, t.fields[i], m[i], r, b, p, limit)
    requires ShapedSlot(t.fields[i], m[i]) && t.fields[i].htype.Repeated? && !Packable(t.fields[i].ltype) && m[i].items != []
    ensures ReadingArray(t, m, i, r, b, p, limit, slots) && slots[i].items == []
    ensures ReadableSlot(t.fields[i], m[i]) <==> ReadableItems(t.fields[i].ltype, m[i].items, 0)
  {
    ReadingIsMidway(t, m, slots, i);
    hide Reading, GoodType, GoodField, Around, Shaped, Holds, Readable, EncodesItems, Packable;
  }

  lemma RepeatedFieldReads(t: LType, m: seq<Slot>, i: nat, r: Bytes, b: Bytes, p: nat, limit: nat, slots: seq<Slot>)
    returns (after: seq<Slot>)
    requires Reading(t, m, slots, i) && i < |t.fields| == |m| && WrittenAt(t.fields, t.fields[i], m[i], r, b, p, limit)
    requires ShapedSlot(t.fields[i], m[i]) && t.fields[i].htype.Repeated? && !Packable(t.fields[i].ltype) && m[i].items != []
    ensures FieldIsRead(t, m, i, r, b, p, limit, slots, after)
    decreases t, 0, |m[i].items| + 2
  {
    ArrayBegins(t, m, i, r, b, p, limit, slots);
    SeenOfArray(t.fields, i, SeenBefore(t.fields, i));
    hide Reading, ReadableSlot, ReadableItems, SeenBefore, Leads, Fails, WireSlot, Noted, Midway, SameItems, SameSlot, Holds, EncodesItems,
         EncodesSlot, FieldIsRead;
    after := ItemsRead(t, m, i, r, b, p, limit, slots, SeenBefore(t.fields, i));
    AsWritten(t, m, i, r, b, p, limit, slots, after, p + |r|);
  }

  // ---------------------------------------------------------------- whole messages

  /** Decoding an encoding of a struct, in fewer than 2^32 bytes and with whatever other fields at whatever depth: it
      gives the struct up to the contents of unset fields, unless some string is not terminated; then decoding fails. */
  lemma EncodingReads(t: LType, m: seq<Slot>, w: Bytes)
    requires t.Submessage? && GoodType(t) && Shaped(t, Message(m)) && EncodesFrom(t, m, 0, w) && |w| < TWO_32
    ensures var r := DecodeMessage(t, w);
            && (r.Some? <==> Readable(t, Message(m)))
            && (r.Some? ==> SameDatum(t, Message(m), Message(r.value)))
  {
    hide EncodesFrom, DecodeFields, Shaped, GoodType, Readable, SameDatum;
    assert w[0..|w|] == w;
    MessageReads(t, m, w, w, 0, |w|);
  }
}
