/**
 Merging messages with nanopb (pb_decode_noinit, pb_decode.h): reading one message into a
 struct and then another into the same struct is reading the bytes of both at once, if the
 first is read to its end, a key of 0 would end it before.
 */
module PbMerge {
  import opened InternalKeys
  import opened Coding
  import opened PbTypes
  import opened PbVarints
  import opened PbEncode
  import opened PbDecode
  import opened PbReading

  // ---------------------------------------------------------------- what is read before a limit is read before a later one

  lemma {:induction false} TailBeforeLimit(b: Bytes, p: nat, limit: nat, later: nat, shift: nat, result: Word)
    requires limit <= later <= |b| && VarintTail(b, p, limit, shift, result).Some?
    ensures VarintTail(b, p, later, shift, result) == VarintTail(b, p, limit, shift, result)
    decreases limit - p
  {
    hide ShiftedIn;
    if p < limit && b[p] >= 128 {
      var low := b[p] as int % 128;
      TailBeforeLimit(b, p + 1, limit, later, NextShift(shift), if shift >= 32 then result else ShiftedIn(result, low, shift));
    }
  }

  lemma Varint32BeforeLimit(b: Bytes, p: nat, limit: nat, later: nat)
    requires limit <= later <= |b| && DecodeVarint32(b, p, limit).Some?
    ensures DecodeVarint32(b, p, later) == DecodeVarint32(b, p, limit)
  {
    hide VarintTail;
    if b[p] >= 128 {
      TailBeforeLimit(b, p + 1, limit, later, 7, b[p] as int - 128);
    }
  }

  lemma {:induction false} Varint64BeforeLimit(b: Bytes, p: nat, limit: nat, later: nat, k: nat, result: nat)
    requires limit <= later <= |b| && GetVarintFrom(b, p, limit, k, result, 10, TWO_64).Some?
    ensures GetVarintFrom(b, p, later, k, result, 10, TWO_64) == GetVarintFrom(b, p, limit, k, result, 10, TWO_64)
    decreases limit - p
  {
    hide ShiftedBy;
    if p < limit && b[p] >= 128 && k < 10 {
      Varint64BeforeLimit(b, p + 1, limit, later, k + 1, result + ShiftedBy(b[p] as int % 128, k));
    }
  }

  lemma NumberBeforeLimit(t: LType, b: Bytes, p: nat, limit: nat, later: nat)
    requires Packable(t) && p <= limit <= later <= |b| && DecodeNumber(t, b, p, limit).Some?
    ensures DecodeNumber(t, b, p, later) == DecodeNumber(t, b, p, limit)
  {
    hide DecodeVarint32, GetVarintFrom, InType, DecodeFixed32, DecodeFixed64;
    match t
    case Bool => Varint32BeforeLimit(b, p, limit, later);
    case Varint(_) => Varint64BeforeLimit(b, p, limit, later, 0, 0);
    case UVarint(_) => Varint64BeforeLimit(b, p, limit, later, 0, 0);
    case SVarint(_) => Varint64BeforeLimit(b, p, limit, later, 0, 0);
    case Fixed32 =>
    case Fixed64 =>
  }

  lemma BytesBeforeLimit(t: LType, b: Bytes, p: nat, limit: nat, later: nat, was: Bytes)
    requires (t.ByteArray? || t.Text? || t.FixedBytes?) && p <= limit <= later <= |b| && Shaped(t, Data(was))
    requires DecodeBytes(t, b, p, limit, was).Some?
    ensures DecodeBytes(t, b, p, later, was) == DecodeBytes(t, b, p, limit, was)
  {
    hide DecodeVarint32;
    Varint32BeforeLimit(b, p, limit, later);
  }

  lemma ValueBeforeLimit(t: LType, b: Bytes, p: nat, limit: nat, later: nat, was: Datum)
    requires p <= limit <= later <= |b| && Shaped(t, was) && GoodType(t) && DecodeValue(t, b, p, limit, was).Some?
    ensures DecodeValue(t, b, p, later, was) == DecodeValue(t, b, p, limit, was)
  {
    hide DecodeVarint32, DecodeNumber, DecodeBytes, DecodeFields, GoodType;
    if Packable(t) {
      NumberBeforeLimit(t, b, p, limit, later);
    } else if t.Submessage? {
      Varint32BeforeLimit(b, p, limit, later);
    } else {
      BytesBeforeLimit(t, b, p, limit, later, was.bytes);
    }
  }

  lemma SlotBeforeLimit(f: Field, wireType: nat, b: Bytes, p: nat, limit: nat, later: nat, s: Slot)
    requires p <= limit <= later <= |b| && ShapedSlot(f, s) && GoodField(f) && DecodeSlot(f, wireType, b, p, limit, s).Some?
    ensures DecodeSlot(f, wireType, b, p, later, s) == DecodeSlot(f, wireType, b, p, limit, s)
  {
    hide DecodeVarint32, DecodeValue, DecodePacked, Shaped, Blank, GoodType;
    GoodTag(f);
    BlankIsShaped(f.ltype);
    match f.htype
    case Repeated(max) =>
      if wireType == WT_STRING && Packable(f.ltype) {
        Varint32BeforeLimit(b, p, limit, later);
      } else {
        ValueBeforeLimit(f.ltype, b, p, limit, later, Blank(f.ltype));
      }
    case Oneof(_) => ValueBeforeLimit(f.ltype, b, p, limit, later, Blank(f.ltype));
    case _ => ValueBeforeLimit(f.ltype, b, p, limit, later, s.value);
  }

  lemma {:induction false} SkippedVarintBeforeLimit(b: Bytes, p: nat, limit: nat, later: nat)
    requires limit <= later <= |b| && SkipVarint(b, p, limit).Some?
    ensures SkipVarint(b, p, later) == SkipVarint(b, p, limit)
    decreases limit - p
  {
    if p < limit && b[p] >= 128 {
      SkippedVarintBeforeLimit(b, p + 1, limit, later);
    }
  }

  lemma SkippedBeforeLimit(fields: seq<Field>, tag: nat, wireType: nat, b: Bytes, p: nat, limit: nat, later: nat)
    requires p <= limit <= later <= |b| && SkipUnknown(fields, tag, wireType, b, p, limit).Some?
    ensures SkipUnknown(fields, tag, wireType, b, p, later) == SkipUnknown(fields, tag, wireType, b, p, limit)
  {
    hide DecodeVarint32, SkipVarint;
    if (fields == [] && tag == 0) || wireType == 2 {
      Varint32BeforeLimit(b, p, limit, later);
    } else if wireType == 0 {
      SkippedVarintBeforeLimit(b, p, limit, later);
    }
  }

  lemma OneBeforeLimit(t: LType, key: nat, b: Bytes, p: nat, limit: nat, later: nat, slots: seq<Slot>, seen: set<nat>)
    requires t.Submessage? && GoodType(t) && p <= limit <= later <= |b| && Shaped(t, Message(slots))
    requires DecodeOne(t, key, b, p, limit, slots, seen).Some?
    ensures DecodeOne(t, key, b, p, later, slots, seen) == DecodeOne(t, key, b, p, limit, slots, seen)
  {
    hide SkipUnknown, DecodeSlot, Stored, Noted, ShapedSlot;
    var i := IndexOf(t.fields, key / 8);
    if i.None? {
      SkippedBeforeLimit(t.fields, key / 8, key % 8, b, p, limit, later);
    } else {
      SlotBeforeLimit(t.fields[i.value], key % 8, b, p, limit, later, slots[i.value]);
    }
  }

  // ---------------------------------------------------------------- one message behind another

  /** Reading the fields from p on gets to the limit, with no key of 0 before it. */
  predicate RunsToEnd(t: LType, b: Bytes, p: nat, limit: nat, slots: seq<Slot>)
    requires t.Submessage? && GoodType(t) && p <= limit <= |b| && Shaped(t, Message(slots))
    decreases limit - p
  {
    p == limit
    || var key := DecodeVarint32(b, p, limit);
       && key.Some? && key.value.value != 0
       && var r := DecodeOne(t, key.value.value, b, key.value.next, limit, slots, {});
          r.Some? && RunsToEnd(t, b, r.value.next, limit, r.value.slots)
  }

  lemma SeenApart(t: LType, key: nat, b: Bytes, p: nat, limit: nat, slots: seq<Slot>, seen: set<nat>)
    requires t.Submessage? && GoodType(t) && p <= limit <= |b| && Shaped(t, Message(slots))
    ensures var r, r0 := DecodeOne(t, key, b, p, limit, slots, seen), DecodeOne(t, key, b, p, limit, slots, {});
            && (r.Some? <==> r0.Some?)
            && (r.Some? ==> r.value.slots == r0.value.slots && r.value.next == r0.value.next && r.value.seen == seen + r0.value.seen)
  {
    hide SkipUnknown, DecodeSlot, Stored, ShapedSlot;
  }

  /** Required fields that have been seen before are not missed. */
  lemma {:induction false} SeenBeforeIsSeen(t: LType, b: Bytes, p: nat, limit: nat, slots: seq<Slot>, seen: set<nat>, more: set<nat>)
    requires t.Submessage? && GoodType(t) && p <= limit <= |b| && Shaped(t, Message(slots)) && seen <= more
    requires DecodeFields(t, b, p, limit, slots, seen).Some?
    ensures DecodeFields(t, b, p, limit, slots, more) == DecodeFields(t, b, p, limit, slots, seen)
    decreases limit - p
  {
    hide DecodeVarint32, DecodeOne, Shaped, GoodType;
    var key := DecodeVarint32(b, p, limit);
    if p < limit && key.Some? && key.value.value != 0 {
      SeenApart(t, key.value.value, b, key.value.next, limit, slots, seen);
      SeenApart(t, key.value.value, b, key.value.next, limit, slots, more);
      var r := DecodeOne(t, key.value.value, b, key.value.next, limit, slots, seen).value;
      var r1 := DecodeOne(t, key.value.value, b, key.value.next, limit, slots, more).value;
      SeenBeforeIsSeen(t, b, r.next, limit, r.slots, r.seen, r1.seen);
    }
  }

  lemma {:induction false} Merging(t: LType, b: Bytes, p: nat, mid: nat, limit: nat, slots: seq<Slot>, seen: set<nat>)
    requires t.Submessage? && GoodType(t) && p <= mid <= limit <= |b| && Shaped(t, Message(slots))
    requires RunsToEnd(t, b, p, mid, slots) && DecodeFields(t, b, p, mid, slots, seen).Some?
    ensures var first := DecodeFields(t, b, p, mid, slots, seen).value;
            exists all: set<nat> :: AllSeen(t.fields, all)
              && DecodeFields(t, b, p, limit, slots, seen) == DecodeFields(t, b, mid, limit, first, all)
    decreases mid - p
  {
    hide DecodeVarint32, DecodeOne, Shaped, GoodType, AllSeen;
    if p < mid {
      var key := DecodeVarint32(b, p, mid).value;
      Varint32BeforeLimit(b, p, mid, limit);
      SeenApart(t, key.value, b, key.next, mid, slots, seen);
      OneBeforeLimit(t, key.value, b, key.next, mid, limit, slots, seen);
      var r := DecodeOne(t, key.value, b, key.next, mid, slots, seen).value;
      Merging(t, b, r.next, mid, limit, r.slots, r.seen);
    }
  }

  /** Two messages, one behind the other, read at once: what reading the second into the struct of the first gives. */
  lemma MergeIsConcatenation(t: LType, b: Bytes, p: nat, mid: nat, limit: nat, slots: seq<Slot>)
    requires t.Submessage? && GoodType(t) && p <= mid <= limit <= |b| && Shaped(t, Message(slots))
    requires RunsToEnd(t, b, p, mid, slots) && DecodeFields(t, b, p, mid, slots, {}).Some?
    ensures var first := DecodeFields(t, b, p, mid, slots, {}).value;
            DecodeFields(t, b, mid, limit, first, {}).Some?
            ==> DecodeFields(t, b, p, limit, slots, {}) == DecodeFields(t, b, mid, limit, first, {})
  {
    hide DecodeFields, Shaped, GoodType, AllSeen, RunsToEnd;
    Merging(t, b, p, mid, limit, slots, {});
    var first := DecodeFields(t, b, p, mid, slots, {}).value;
    var all: set<nat> :| AllSeen(t.fields, all) && DecodeFields(t, b, p, limit, slots, {}) == DecodeFields(t, b, mid, limit, first, all);
    if DecodeFields(t, b, mid, limit, first, {}).Some? {
      SeenBeforeIsSeen(t, b, mid, limit, first, {}, all);
    }
  }

  /** If the first does not run to its end, a key of 0 has ended it, and nothing behind that is read: the second message
      is lost without an error. */
  lemma {:induction false} NothingBehindTheEnd(t: LType, b: Bytes, p: nat, mid: nat, limit: nat, slots: seq<Slot>, seen: set<nat>)
    requires t.Submessage? && GoodType(t) && p <= mid <= limit <= |b| && Shaped(t, Message(slots))
    requires !RunsToEnd(t, b, p, mid, slots) && DecodeFields(t, b, p, mid, slots, seen).Some?
    ensures DecodeFields(t, b, p, limit, slots, seen) == DecodeFields(t, b, p, mid, slots, seen)
    decreases mid - p
  {
    hide DecodeVarint32, DecodeOne, Shaped, GoodType, AllSeen;
    var key := DecodeVarint32(b, p, mid).value;
    Varint32BeforeLimit(b, p, mid, limit);
    if key.value != 0 {
      SeenApart(t, key.value, b, key.next, mid, slots, seen);
      OneBeforeLimit(t, key.value, b, key.next, mid, limit, slots, seen);
      var r := DecodeOne(t, key.value, b, key.next, mid, slots, seen).value;
      NothingBehindTheEnd(t, b, r.next, mid, limit, r.slots, r.seen);
    }
  }
}
