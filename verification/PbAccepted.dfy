/**
 What nanopb's decoder accepts (pb_decode.c): only structs that fit their arrays, with every
 string ended, so that the encoder takes them back; and only bytes in which each of the first
 64 required fields occurs.
 */
module PbAccepted {
  import opened InternalKeys
  import opened Coding
  import opened PbTypes
  import opened PbVarints
  import opened PbEncode
  import opened PbDecode
  import opened PbReading
  import opened PbRoundTrip

  // ---------------------------------------------------------------- structs that fit

  /** Nothing is larger than its array, set or not, and every string ends inside it. */
  predicate Fits(t: LType, v: Datum)
    requires Shaped(t, v)
    decreases t
  {
    match t
    case ByteArray(max) => |v.bytes| <= max
    case Text(_) => Terminated(v.bytes)
    case Submessage(fields) => forall i :: 0 <= i < |fields| ==> FitsSlot(fields[i], v.slots[i])
    case _ => true
  }

  predicate FitsSlot(f: Field, s: Slot)
    requires ShapedSlot(f, s)
    decreases f
  {
    match f.htype
    case Required => Fits(f.ltype, s.value)
    case Singular => Fits(f.ltype, s.value)
    case Optional => Fits(f.ltype, s.value)
    case Repeated(max) => |s.items| <= max && forall i :: 0 <= i < |s.items| ==> Fits(f.ltype, s.items[i])
    case Oneof(_) => s.chosen.Some? ==> Fits(f.ltype, s.chosen.value)
  }

  /** The defaults of the descriptor fit. */
  predicate DefaultsFit(t: LType)
    requires GoodType(t)
    decreases t
  {
    t.Submessage? ==> forall i :: 0 <= i < |t.fields| ==> DefaultFits(t.fields[i])
  }

  predicate DefaultFits(f: Field)
    requires GoodField(f)
    decreases f
  {
    DefaultsFit(f.ltype) && (!f.ltype.Submessage? ==> Fits(f.ltype, f.initial))
  }

  lemma BlankFits(t: LType)
    requires GoodType(t) && DefaultsFit(t)
    ensures Shaped(t, Blank(t)) && Fits(t, Blank(t))
    decreases t
  {
    BlankIsShaped(t);
    if t.Text? {
      HasEnd(Zeros(t.size), 0);
    } else if t.Submessage? {
      forall i | 0 <= i < |t.fields|
        ensures ShapedSlot(t.fields[i], DefaultSlot(t.fields[i])) && FitsSlot(t.fields[i], DefaultSlot(t.fields[i]))
      {
        DefaultIsShaped(t.fields[i]);
        if t.fields[i].ltype.Submessage? {
          BlankFits(t.fields[i].ltype);
        }
      }
    }
  }

  /** A string with a 0 in it ends there. */
  lemma {:induction false} HasEnd(b: Bytes, k: nat)
    requires k < |b| && b[k] == 0
    ensures Terminated(b)
  {
    if b[0] != 0 {
      HasEnd(b[1..], k - 1);
    }
  }

  // ---------------------------------------------------------------- what fits can be encoded

  lemma {:induction false} FittingEncodes(t: LType, v: Datum)
    requires Shaped(t, v) && Fits(t, v)
    ensures WireValue(t, v).Some? && Readable(t, v)
    decreases t, 1, 0
  {
    if t.Submessage? {
      MessageFits(t, v.slots, |t.fields|);
    }
  }

  lemma {:induction false} MessageFits(t: LType, m: seq<Slot>, n: nat)
    requires t.Submessage? && Shaped(t, Message(m)) && Fits(t, Message(m)) && n <= |t.fields|
    ensures WireMessage(t, m, n).Some? && forall i :: 0 <= i < n ==> ReadableSlot(t.fields[i], m[i])
    decreases t, 0, n
  {
    if n > 0 {
      MessageFits(t, m, n - 1);
      SlotFits(t.fields[n - 1], m[n - 1]);
      hide WireSlot, ReadableSlot, FitsSlot, ShapedSlot;
    }
  }

  lemma SlotFits(f: Field, s: Slot)
    requires ShapedSlot(f, s) && FitsSlot(f, s)
    ensures WireSlot(f, s).Some? && ReadableSlot(f, s)
    decreases f, 2, 0
  {
    hide WireValue, WirePacked, WireRepeated, Key, Fits, Readable, IsZero;
    match f.htype
    case Required => FittingEncodes(f.ltype, s.value);
    case Singular => FittingEncodes(f.ltype, s.value);
    case Optional => FittingEncodes(f.ltype, s.value);
    case Oneof(_) =>
      if s.chosen.Some? {
        FittingEncodes(f.ltype, s.chosen.value);
      }
    case Repeated(_) => ItemsFit(f.ltype, f.tag, s.items, |s.items|);
  }

  lemma {:induction false} ItemsFit(t: LType, tag: nat, items: seq<Datum>, n: nat)
    requires n <= |items| && forall i :: 0 <= i < |items| ==> Shaped(t, items[i]) && Fits(t, items[i])
    ensures WirePacked(t, items, n).Some? && WireRepeated(t, tag, items, n).Some?
    ensures forall i :: 0 <= i < n ==> Readable(t, items[i])
    decreases t, 3, n
  {
    if n > 0 {
      ItemsFit(t, tag, items, n - 1);
      FittingEncodes(t, items[n - 1]);
      hide WireValue, Key, Fits, Readable, Shaped;
    }
  }

  // ---------------------------------------------------------------- what is decoded fits

  lemma BytesFit(t: LType, b: Bytes, p: nat, limit: nat, was: Bytes)
    requires (t.ByteArray? || t.Text? || t.FixedBytes?) && p <= limit <= |b| && Shaped(t, Data(was))
    ensures var r := DecodeBytes(t, b, p, limit, was); r.Some? ==> Fits(t, Data(r.value.slice))
  {
    hide DecodeVarint32;
    var r := DecodeBytes(t, b, p, limit, was);
    if t.Text? && r.Some? {
      HasEnd(r.value.slice, DecodeVarint32(b, p, limit).value.value);
    }
  }

  lemma {:induction false} PackedFits(t: LType, b: Bytes, p: nat, limit: nat, items: seq<Datum>, max: nat)
    requires Packable(t) && p <= limit <= |b| && |items| <= max && forall i :: 0 <= i < |items| ==> Shaped(t, items[i])
    ensures var r := DecodePacked(t, b, p, limit, items, max); r.Some? ==> |r.value| <= max
    decreases limit - p
  {
    hide DecodeNumber, Shaped;
    if p < limit && |items| < max {
      var v := DecodeNumber(t, b, p, limit);
      if v.Some? {
        PackedFits(t, b, v.value.next, limit, items + [Number(v.value.n)], max);
      }
    }
  }

  lemma NumbersFit(t: LType, v: Datum)
    requires Packable(t) && Shaped(t, v)
    ensures Fits(t, v)
  {
  }

  lemma {:induction false} DecodedValueFits(t: LType, b: Bytes, p: nat, limit: nat, was: Datum)
    requires p <= limit <= |b| && Shaped(t, was) && GoodType(t) && DefaultsFit(t) && Fits(t, was)
    ensures var r := DecodeValue(t, b, p, limit, was); r.Some? ==> Fits(t, r.value.datum)
    decreases t, 2, 0
  {
    hide DecodeNumber, DecodeBytes, DecodeFields, DecodeVarint32;
    if Packable(t) {
      var v := DecodeNumber(t, b, p, limit);
      if v.Some? {
        NumbersFit(t, Number(v.value.n));
      }
    } else if t.Submessage? {
      var size := DecodeVarint32(b, p, limit);
      if size.Some? && limit - size.value.next >= size.value.value {
        DecodedFieldsFit(t, b, size.value.next, size.value.next + size.value.value, was.slots, {});
      }
    } else {
      BytesFit(t, b, p, limit, was.bytes);
    }
  }

  lemma DecodedSlotFits(f: Field, wireType: nat, b: Bytes, p: nat, limit: nat, s: Slot)
    requires p <= limit <= |b| && ShapedSlot(f, s) && GoodField(f) && DefaultFits(f) && FitsSlot(f, s)
    ensures var r := DecodeSlot(f, wireType, b, p, limit, s); r.Some? ==> FitsSlot(f, r.value.slot)
    decreases f, 0, 0
  {
    hide DecodeValue, DecodePacked, DecodeVarint32, Packable, Blank, Fits, Shaped, GoodType, DefaultsFit;
    GoodTag(f);
    BlankFits(f.ltype);
    match f.htype
    case Required => DecodedValueFits(f.ltype, b, p, limit, s.value);
    case Singular => DecodedValueFits(f.ltype, b, p, limit, s.value);
    case Optional => DecodedValueFits(f.ltype, b, p, limit, s.value);
    case Oneof(_) => DecodedValueFits(f.ltype, b, p, limit, Blank(f.ltype));
    case Repeated(max) =>
      if wireType == WT_STRING && Packable(f.ltype) {
        var size := DecodeVarint32(b, p, limit);
        if size.Some? && limit - size.value.next >= size.value.value {
          var end := size.value.next + size.value.value;
          PackedFits(f.ltype, b, size.value.next, end, s.items, max);
          NumbersAllFit(f.ltype, DecodePacked(f.ltype, b, size.value.next, end, s.items, max));
        }
      } else if |s.items| < max {
        DecodedValueFits(f.ltype, b, p, limit, Blank(f.ltype));
      }
  }

  lemma NumbersAllFit(t: LType, items: Option<seq<Datum>>)
    requires Packable(t) && (items.Some? ==> forall i :: 0 <= i < |items.value| ==> Shaped(t, items.value[i]))
    ensures items.Some? ==> forall i :: 0 <= i < |items.value| ==> Fits(t, items.value[i])
  {
    if items.Some? {
      forall i | 0 <= i < |items.value|
        ensures Fits(t, items.value[i])
      {
        NumbersFit(t, items.value[i]);
      }
    }
  }

  lemma StoredFits(t: LType, slots: seq<Slot>, i: nat, s: Slot)
    requires t.Submessage? && Shaped(t, Message(slots)) && i < |t.fields| && ShapedSlot(t.fields[i], s)
    requires Fits(t, Message(slots)) && FitsSlot(t.fields[i], s)
    ensures Shaped(t, Message(Stored(t.fields, slots, i, s))) && Fits(t, Message(Stored(t.fields, slots, i, s)))
  {
    StoredIsShaped(t, slots, i, s);
    var after := Stored(t.fields, slots, i, s);
    forall j | 0 <= j < |t.fields|
      ensures FitsSlot(t.fields[j], after[j])
    {
    }
  }

  lemma DefaultOfField(t: LType, i: nat)
    requires t.Submessage? && GoodType(t) && DefaultsFit(t) && i < |t.fields|
    ensures GoodField(t.fields[i]) && DefaultFits(t.fields[i])
  {
  }

  lemma SlotOfMessage(t: LType, slots: seq<Slot>, i: nat)
    requires t.Submessage? && Shaped(t, Message(slots)) && Fits(t, Message(slots)) && i < |t.fields|
    ensures |slots| == |t.fields| && ShapedSlot(t.fields[i], slots[i]) && FitsSlot(t.fields[i], slots[i])
  {
  }

  lemma DecodedOneFits(t: LType, key: nat, b: Bytes, p: nat, limit: nat, slots: seq<Slot>, seen: set<nat>)
    requires t.Submessage? && GoodType(t) && DefaultsFit(t) && p <= limit <= |b|
    requires Shaped(t, Message(slots)) && Fits(t, Message(slots))
    ensures var r := DecodeOne(t, key, b, p, limit, slots, seen); r.Some? ==> Fits(t, Message(r.value.slots))
    decreases t, 0, 0
  {
    hide DecodeSlot, Stored, SkipUnknown, Shaped, ShapedSlot, Fits, FitsSlot, GoodType, GoodField, DefaultsFit, DefaultFits, Noted;
    var i := IndexOf(t.fields, key / 8);
    if i.Some? {
      var f := t.fields[i.value];
      DefaultOfField(t, i.value);
      SlotOfMessage(t, slots, i.value);
      DecodedSlotFits(f, key % 8, b, p, limit, slots[i.value]);
      var s := DecodeSlot(f, key % 8, b, p, limit, slots[i.value]);
      if s.Some? {
        StoredFits(t, slots, i.value, s.value.slot);
      }
    }
  }

  lemma {:induction false} DecodedFieldsFit(t: LType, b: Bytes, p: nat, limit: nat, slots: seq<Slot>, seen: set<nat>)
    requires t.Submessage? && GoodType(t) && DefaultsFit(t) && p <= limit <= |b|
    requires Shaped(t, Message(slots)) && Fits(t, Message(slots))
    ensures var r := DecodeFields(t, b, p, limit, slots, seen); r.Some? ==> Fits(t, Message(r.value))
    decreases t, 1, limit - p
  {
    hide DecodeVarint32, DecodeOne, AllSeen, Shaped, Fits, GoodType, DefaultsFit;
    var key := DecodeVarint32(b, p, limit);
    if p < limit && key.Some? && key.value.value != 0 {
      DecodedOneFits(t, key.value.value, b, key.value.next, limit, slots, seen);
      var r := DecodeOne(t, key.value.value, b, key.value.next, limit, slots, seen);
      if r.Some? {
        DecodedFieldsFit(t, b, r.value.next, limit, r.value.slots, r.value.seen);
      }
    }
  }

  /** Whatever bytes are decoded: the struct fits its arrays, so it can be encoded, and what that gives is decoded as
      the same struct again. */
  lemma AcceptedIsEncodable(t: LType, b: Bytes)
    requires t.Submessage? && GoodType(t) && DefaultsFit(t) && DecodeMessage(t, b).Some?
    ensures var m := DecodeMessage(t, b).value;
            && Shaped(t, Message(m)) && Fits(t, Message(m))
            && var w := WireMessage(t, m, |t.fields|);
               && w.Some?
               && (|w.value| < TWO_32 ==>
                     && DecodeMessage(t, w.value).Some?
                     && SameDatum(t, Message(m), Message(DecodeMessage(t, w.value).value)))
  {
    hide DecodeFields, Shaped, GoodType, DefaultsFit, Fits, Readable, SameDatum, WireMessage;
    BlankFits(t);
    BlankIsMessage(t);
    DecodedFieldsFit(t, b, 0, |b|, Blank(t).slots, {});
    var m := DecodeMessage(t, b).value;
    MessageFits(t, m, |t.fields|);
    FittingEncodes(t, Message(m));
    if |WireMessage(t, m, |t.fields|).value| < TWO_32 {
      RoundTrip(t, m);
    }
  }

  lemma BlankIsMessage(t: LType)
    requires t.Submessage?
    ensures Blank(t).Message?
  {
  }

  // ---------------------------------------------------------------- fields that do not occur

  /** Somewhere in these bytes a number is read that is a key of this tag. */
  ghost predicate Mentions(b: Bytes, p: nat, limit: nat, tag: nat)
    requires limit <= |b|
  {
    exists q :: p <= q < limit && KeyAt(b, q, limit, tag)
  }

  ghost predicate KeyAt(b: Bytes, q: nat, limit: nat, tag: nat)
    requires limit <= |b|
  {
    DecodeVarint32(b, q, limit).Some? && DecodeVarint32(b, q, limit).value.value / 8 == tag
  }

  lemma {:induction false} UnmentionedStays(t: LType, i: nat, b: Bytes, p: nat, limit: nat, slots: seq<Slot>, seen: set<nat>)
    requires t.Submessage? && GoodType(t) && p <= limit <= |b| && Shaped(t, Message(slots)) && i < |t.fields| == |slots|
    requires !Mentions(b, p, limit, t.fields[i].tag) && DecodeFields(t, b, p, limit, slots, seen).Some?
    requires t.fields[i].htype.Oneof? ==> slots[i] == Branch(None)
    ensures var r := DecodeFields(t, b, p, limit, slots, seen).value; |r| == |slots| && r[i] == slots[i]
    decreases limit - p
  {
    hide DecodeVarint32, DecodeSlot, SkipUnknown, Shaped, GoodType, AllSeen, Noted;
    var key := DecodeVarint32(b, p, limit);
    if p < limit && !(key.Some? && key.value.value == 0) {
      assert !KeyAt(b, p, limit, t.fields[i].tag);
      var r := DecodeOne(t, key.value.value, b, key.value.next, limit, slots, seen);
      forall q | r.value.next <= q < limit
        ensures !KeyAt(b, q, limit, t.fields[i].tag)
      {
      }
      UnmentionedStays(t, i, b, r.value.next, limit, r.value.slots, r.value.seen);
    }
  }

  /** A field that the bytes do not mention holds its default: the descriptor's, or nothing. */
  lemma UnmentionedIsDefault(t: LType, i: nat, b: Bytes)
    requires t.Submessage? && GoodType(t) && DecodeMessage(t, b).Some? && i < |t.fields| && !t.fields[i].ltype.Submessage?
    requires !Mentions(b, 0, |b|, t.fields[i].tag)
    ensures i < |DecodeMessage(t, b).value|
    ensures var f := t.fields[i];
            DecodeMessage(t, b).value[i] == match f.htype
                                            case Required => One(f.initial)
                                            case Singular => One(f.initial)
                                            case Optional => Maybe(false, f.initial)
                                            case Repeated(_) => Many([])
                                            case Oneof(_) => Branch(None)
  {
    hide DecodeFields, GoodType, Shaped, Mentions;
    BlankIsShaped(t);
    BlankIsMessage(t);
    UnmentionedStays(t, i, b, 0, |b|, Blank(t).slots, {});
  }

  // ---------------------------------------------------------------- required fields

  lemma {:induction false} RequiredIsRead(t: LType, i: nat, b: Bytes, p: nat, limit: nat, slots: seq<Slot>, seen: set<nat>)
    requires t.Submessage? && GoodType(t) && p <= limit <= |b| && Shaped(t, Message(slots))
    requires i < |t.fields| && t.fields[i].htype.Required? && RequiredBefore(t.fields, i) < 64
    requires RequiredBefore(t.fields, i) !in seen && DecodeFields(t, b, p, limit, slots, seen).Some?
    ensures Mentions(b, p, limit, t.fields[i].tag)
    decreases limit - p
  {
    hide DecodeVarint32, DecodeSlot, Stored, SkipUnknown, Shaped, GoodType;
    var bit := RequiredBefore(t.fields, i);
    RequiredGrows(t.fields, i + 1, |t.fields|);
    assert !AllSeen(t.fields, seen);
    var key := DecodeVarint32(b, p, limit);
    if p < limit && !(key.Some? && key.value.value == 0) && !KeyAt(b, p, limit, t.fields[i].tag) {
      var r := DecodeOne(t, key.value.value, b, key.value.next, limit, slots, seen);
      OtherBit(t, i, key.value.value, seen);
      RequiredIsRead(t, i, b, r.value.next, limit, r.value.slots, r.value.seen);
      var q :| r.value.next <= q < limit && KeyAt(b, q, limit, t.fields[i].tag);
      assert p <= q;
    }
  }

  /** A field of another tag notes another bit, or none. */
  lemma OtherBit(t: LType, i: nat, key: nat, seen: set<nat>)
    requires t.Submessage? && i < |t.fields| && t.fields[i].htype.Required? && key / 8 != t.fields[i].tag
    requires RequiredBefore(t.fields, i) !in seen
    ensures var k := IndexOf(t.fields, key / 8);
            k.Some? ==> RequiredBefore(t.fields, i) !in Noted(t.fields, k.value, seen)
  {
    var k := IndexOf(t.fields, key / 8);
    if k.Some? && t.fields[k.value].htype.Required? {
      if k.value < i {
        RequiredGrows(t.fields, k.value + 1, i);
      } else {
        RequiredGrows(t.fields, i + 1, k.value);
      }
    }
  }

  /** Bytes are accepted only if each of the first 64 required fields occurs in them. */
  lemma RequiredOccurs(t: LType, i: nat, b: Bytes)
    requires t.Submessage? && GoodType(t) && DecodeMessage(t, b).Some?
    requires i < |t.fields| && t.fields[i].htype.Required? && RequiredBefore(t.fields, i) < 64
    ensures Mentions(b, 0, |b|, t.fields[i].tag)
  {
    hide DecodeFields, GoodType, Shaped;
    BlankIsShaped(t);
    BlankIsMessage(t);
    RequiredIsRead(t, i, b, 0, |b|, Blank(t).slots, {});
  }
}
