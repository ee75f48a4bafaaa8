/**
 The decoder of nanopb (pb_decode.c): what a run of bytes means for a message struct, and the
 stream methods that read it.
 */
module PbDecode {
  import opened InternalKeys
  import opened Coding
  import opened PbTypes
  import opened PbVarints
  import opened PbEncode

  // ---------------------------------------------------------------- what bytes mean

  datatype ParsedNumber = ParsedNumber(n: int, next: nat)

  datatype ParsedDatum = ParsedDatum(datum: Datum, next: nat)

  datatype ParsedSlot = ParsedSlot(slot: Slot, next: nat)

  /** A number that its C type can hold; None is an error. */
  function InType(t: LType, n: int, next: nat): (r: Option<ParsedNumber>)
    requires Packable(t)
    ensures r.Some? ==> r.value == ParsedNumber(n, next) && Shaped(t, Number(n))
  {
    if Shaped(t, Number(n)) then Some(ParsedNumber(n, next)) else None
  }

  function DecodeNumber(t: LType, b: Bytes, p: nat, limit: nat): (r: Option<ParsedNumber>)
    requires Packable(t) && p <= limit <= |b|
    ensures r.Some? ==> p < r.value.next <= limit && Shaped(t, Number(r.value.n))
  {
    match t
    case Bool =>
      var v := DecodeVarint32(b, p, limit);
      if v.None? then None else Some(ParsedNumber(if v.value.value == 0 then 0 else 1, v.value.next))
    case Varint(size) =>
      var v := GetVarint64(b, p, limit);
      if v.None? then None else InType(t, Signed(if size == 8 then 8 else 4, v.value.value), v.value.next)
    case UVarint(_) =>
      var v := GetVarint64(b, p, limit);
      if v.None? then None else InType(t, v.value.value, v.value.next)
    case SVarint(_) =>
      var v := GetVarint64(b, p, limit);
      if v.None? then None else InType(t, UnZigZag(v.value.value), v.value.next)
    case Fixed32 => if limit - p < 4 then None else Some(ParsedNumber(DecodeFixed32(b[p..p + 4]), p + 4))
    case Fixed64 => if limit - p < 8 then None else Some(ParsedNumber(DecodeFixed64(b[p..p + 8]), p + 8))
  }

  /** Bytes of a given number, if there are as many. */
  function Slice(b: Bytes, p: nat, limit: nat, n: nat): (r: Option<ParsedSlice>)
    requires p <= limit <= |b|
    ensures r.Some? ==> p <= r.value.next <= limit && |r.value.slice| == n
  {
    if limit - p < n then None else Some(ParsedSlice(b[p..p + n], p + n))
  }

  /** A string is ended with a 0; what is behind that in the array stays. */
  function DecodeBytes(t: LType, b: Bytes, p: nat, limit: nat, was: Bytes): (r: Option<ParsedSlice>)
    requires (t.ByteArray? || t.Text? || t.FixedBytes?) && p <= limit <= |b| && Shaped(t, Data(was))
    ensures r.Some? ==> p < r.value.next <= limit && Shaped(t, Data(r.value.slice))
  {
    var size := DecodeVarint32(b, p, limit);
    if size.None? then None
    else
      var n, q := size.value.value, size.value.next;
      match t
      case ByteArray(max) => if n > max then None else Slice(b, q, limit, n)
      case Text(room) =>
        if n + 1 > room then None
        else
          var s := Slice(b, q, limit, n);
          if s.None? then None else Some(ParsedSlice(s.value.slice + [0] + was[n + 1..], s.value.next))
      case FixedBytes(length) =>
        if n == 0 then Some(ParsedSlice(Zeros(length), q))
        else if n != length then None
        else Slice(b, q, limit, n)
  }

  /** A value of the given type, read into one that is there already. */
  function DecodeValue(t: LType, b: Bytes, p: nat, limit: nat, was: Datum): (r: Option<ParsedDatum>)
    requires p <= limit <= |b| && Shaped(t, was) && GoodType(t)
    ensures r.Some? ==> p < r.value.next <= limit && Shaped(t, r.value.datum)
    decreases t, 2, 0
  {
    if Packable(t) then
      var v := DecodeNumber(t, b, p, limit);
      if v.None? then None else Some(ParsedDatum(Number(v.value.n), v.value.next))
    else if t.Submessage? then
      var size := DecodeVarint32(b, p, limit);
      if size.None? || limit - size.value.next < size.value.value then None
      else
        var end := size.value.next + size.value.value;
        var slots := DecodeFields(t, b, size.value.next, end, was.slots, {});
        if slots.None? then None else Some(ParsedDatum(Message(slots.value), end))
    else
      var s := DecodeBytes(t, b, p, limit, was.bytes);
      if s.None? then None else Some(ParsedDatum(Data(s.value.slice), s.value.next))
  }

  /** A packed array goes on as long as there are bytes, and must not have more items than the array has room for. */
  function DecodePacked(t: LType, b: Bytes, p: nat, limit: nat, items: seq<Datum>, max: nat): (r: Option<seq<Datum>>)
    requires Packable(t) && p <= limit <= |b| && forall i :: 0 <= i < |items| ==> Shaped(t, items[i])
    ensures r.Some? ==> forall i :: 0 <= i < |r.value| ==> Shaped(t, r.value[i])
    decreases limit - p
  {
    if p == limit then Some(items)
    else if |items| >= max then None
    else
      var v := DecodeNumber(t, b, p, limit);
      if v.None? then None else DecodePacked(t, b, v.value.next, limit, items + [Number(v.value.n)], max)
  }

  /** decode_static_field. The wire type only tells whether an array is packed. */
  function DecodeSlot(f: Field, wireType: nat, b: Bytes, p: nat, limit: nat, s: Slot): (r: Option<ParsedSlot>)
    requires p <= limit <= |b| && ShapedSlot(f, s) && GoodField(f)
    ensures r.Some? ==> p < r.value.next <= limit && ShapedSlot(f, r.value.slot)
    decreases f, 0, 0
  {
    match f.htype
    case Required | Singular =>
      var v := DecodeValue(f.ltype, b, p, limit, s.value);
      if v.None? then None else Some(ParsedSlot(One(v.value.datum), v.value.next))
    case Optional =>
      var v := DecodeValue(f.ltype, b, p, limit, s.value);
      if v.None? then None else Some(ParsedSlot(Maybe(true, v.value.datum), v.value.next))
    case Oneof(_) =>
      BlankIsShaped(f.ltype);
      var v := DecodeValue(f.ltype, b, p, limit, Blank(f.ltype));
      if v.None? then None else Some(ParsedSlot(Branch(Some(v.value.datum)), v.value.next))
    case Repeated(max) =>
      if wireType == WT_STRING && Packable(f.ltype) then
        var size := DecodeVarint32(b, p, limit);
        if size.None? || limit - size.value.next < size.value.value then None
        else
          var end := size.value.next + size.value.value;
          var items := DecodePacked(f.ltype, b, size.value.next, end, s.items, max);
          if items.None? then None else Some(ParsedSlot(Many(items.value), end))
      else if |s.items| >= max then None
      else
        BlankIsShaped(f.ltype);
        var v := DecodeValue(f.ltype, b, p, limit, Blank(f.ltype));
        if v.None? then None else Some(ParsedSlot(Many(s.items + [v.value.datum]), v.value.next))
  }

  function SkipVarint(b: Bytes, p: nat, limit: nat): (r: Option<nat>)
    requires limit <= |b|
    ensures r.Some? ==> p < r.value <= limit
    decreases limit - p
  {
    if p >= limit then None else if b[p] >= 128 then SkipVarint(b, p + 1, limit) else Some(p + 1)
  }

  /** pb_skip_field. */
  function SkipField(wireType: nat, b: Bytes, p: nat, limit: nat): (r: Option<nat>)
    requires p <= limit <= |b|
    ensures r.Some? ==> p < r.value <= limit
  {
    match wireType
    case 0 => SkipVarint(b, p, limit)
    case 1 => if limit - p < 8 then None else Some(p + 8)
    case 2 =>
      var size := DecodeVarint32(b, p, limit);
      if size.None? || limit - size.value.next < size.value.value then None else Some(size.value.next + size.value.value)
    case 5 => if limit - p < 4 then None else Some(p + 4)
    case _ => None
  }

  function IndexOf(fields: seq<Field>, tag: nat): (r: Option<nat>)
    ensures r.Some? ==> r.value < |fields| && fields[r.value].tag == tag
    ensures r.None? ==> forall i :: 0 <= i < |fields| ==> fields[i].tag != tag
  {
    if fields == [] then None
    else if fields[|fields| - 1].tag == tag then Some(|fields| - 1)
    else IndexOf(fields[..|fields| - 1], tag)
  }

  /** Storing a field; the other branches of a oneof are gone. */
  function Stored(fields: seq<Field>, slots: seq<Slot>, i: nat, s: Slot): (r: seq<Slot>)
    requires i < |fields| == |slots|
    ensures |r| == |slots|
  {
    seq(|slots|, j requires 0 <= j < |slots| =>
      if j == i then s else if SameGroup(fields[i], fields[j]) then Branch(None) else slots[j])
  }

  lemma StoredIsShaped(t: LType, slots: seq<Slot>, i: nat, s: Slot)
    requires t.Submessage? && Shaped(t, Message(slots)) && i < |t.fields| && ShapedSlot(t.fields[i], s)
    ensures Shaped(t, Message(Stored(t.fields, slots, i, s)))
  {
    var after := Stored(t.fields, slots, i, s);
    forall j | 0 <= j < |t.fields|
      ensures ShapedSlot(t.fields[j], after[j])
    {
    }
    hide ShapedSlot;
    assert OneBranch(t.fields, slots);
  }

  const MAX_REQUIRED_FIELDS: nat := 64

  function Noted(fields: seq<Field>, i: nat, seen: set<nat>): set<nat>
    requires i < |fields|
  {
    var index := RequiredBefore(fields, i);
    if fields[i].htype.Required? && index < MAX_REQUIRED_FIELDS then seen + {index} else seen
  }

  /** No required field is missing, as far as they are kept track of. */
  predicate AllSeen(fields: seq<Field>, seen: set<nat>) {
    forall k: nat :: k < RequiredBefore(fields, |fields|) && k < MAX_REQUIRED_FIELDS ==> k in seen
  }

  /** In an empty message the terminator, whose tag is 0, is taken for a bool. */
  function SkipUnknown(fields: seq<Field>, tag: nat, wireType: nat, b: Bytes, p: nat, limit: nat): (r: Option<nat>)
    requires p <= limit <= |b|
    ensures r.Some? ==> p < r.value <= limit
  {
    if fields == [] && tag == 0 then
      var v := DecodeVarint32(b, p, limit);
      if v.None? then None else Some(v.value.next)
    else SkipField(wireType, b, p, limit)
  }

  /** What has been read of a message. */
  datatype Progress = Progress(slots: seq<Slot>, seen: set<nat>, next: nat)

  /** The field that follows a key. */
  function DecodeOne(t: LType, key: nat, b: Bytes, p: nat, limit: nat, slots: seq<Slot>, seen: set<nat>): (r: Option<Progress>)
    requires t.Submessage? && GoodType(t) && p <= limit <= |b| && Shaped(t, Message(slots))
    ensures r.Some? ==> p < r.value.next <= limit && Shaped(t, Message(r.value.slots))
    decreases t, 0, 0
  {
    var tag, wireType := key / 8, key % 8;
    var i := IndexOf(t.fields, tag);
    if i.None? then
      var next := SkipUnknown(t.fields, tag, wireType, b, p, limit);
      if next.None? then None else Some(Progress(slots, seen, next.value))
    else
      var s := DecodeSlot(t.fields[i.value], wireType, b, p, limit, slots[i.value]);
      if s.None? then None
      else
        StoredIsShaped(t, slots, i.value, s.value.slot);
        Some(Progress(Stored(t.fields, slots, i.value, s.value.slot), Noted(t.fields, i.value, seen), s.value.next))
  }

  /** pb_decode_noinit from p to the limit. A key of 0 ends the message. */
  function DecodeFields(t: LType, b: Bytes, p: nat, limit: nat, slots: seq<Slot>, seen: set<nat>): (r: Option<seq<Slot>>)
    requires t.Submessage? && GoodType(t) && p <= limit <= |b| && Shaped(t, Message(slots))
    ensures r.Some? ==> Shaped(t, Message(r.value))
    decreases t, 1, limit - p
  {
    var key := DecodeVarint32(b, p, limit);
    if p == limit || (key.Some? && key.value.value == 0) then
      if AllSeen(t.fields, seen) then Some(slots) else None
    else if key.None? then None
    else
      var r := DecodeOne(t, key.value.value, b, key.value.next, limit, slots, seen);
      if r.None? then None else DecodeFields(t, b, r.value.next, limit, r.value.slots, r.value.seen)
  }

  /** pb_decode of a whole buffer. */
  function DecodeMessage(t: LType, b: Bytes): (r: Option<seq<Slot>>)
    requires t.Submessage? && GoodType(t)
    ensures r.Some? ==> Shaped(t, Message(r.value))
  {
    BlankIsShaped(t);
    DecodeFields(t, b, 0, |b|, Blank(t).slots, {})
  }

  // ---------------------------------------------------------------- pb_istream_t

  /** The bytes from pos to limit are left. */
  datatype In = In(source: Bytes, pos: nat, limit: nat) {
    predicate Valid() {
      pos <= limit <= |source|
    }
  }

  /** Reading has got to the given place, or has failed because there is none. */
  predicate Took(before: In, after: In, ok: bool, next: Option<nat>) {
    && after.Valid() && after.source == before.source && after.limit <= before.limit && (ok <==> next.Some?)
    && (ok ==> after.pos == next.value && after.limit == before.limit)
  }

  function Next(r: Option<Parsed>): Option<nat> {
    if r.Some? then Some(r.value.next) else None
  }

  class IStream {
    const source: Bytes
    var pos: nat
    var bytesLeft: nat

    ghost function Now(): In
      reads this
    {
      In(source, pos, pos + bytesLeft)
    }

    constructor FromBuffer(buf: Bytes)
      ensures Now() == In(buf, 0, |buf|)
    {
      source, pos, bytesLeft := buf, 0, |buf|;
    }

    constructor Copy(from: IStream, size: nat)
      ensures Now() == In(from.source, from.pos, from.pos + size)
    {
      source, pos, bytesLeft := from.source, from.pos, size;
    }

    /** pb_read. */
    method Read(count: nat) returns (ok: bool, buf: Bytes)
      requires Now().Valid()
      modifies this
      ensures ok == (old(bytesLeft) >= count)
      ensures Took(old(Now()), Now(), ok, if ok then Some(old(pos) + count) else None)
      ensures ok ==> buf == source[old(pos)..old(pos) + count]
    {
      if count == 0 {
        return true, [];
      }
      if bytesLeft < count {
        return false, [];
      }
      ok, buf := true, source[pos..pos + count];
      pos, bytesLeft := pos + count, bytesLeft - count;
    }

    method ReadByte() returns (ok: bool, c: byte)
      requires Now().Valid()
      modifies this
      ensures ok == (old(bytesLeft) > 0)
      ensures if ok then c == source[old(pos)] && Now() == old(Now()).(pos := old(pos) + 1) else Now() == old(Now())
    {
      if bytesLeft == 0 {
        return false, 0;
      }
      ok, c := true, source[pos];
      pos, bytesLeft := pos + 1, bytesLeft - 1;
    }

    /** pb_decode_varint32_eof, without its report of the end of the stream. */
    method GetVarint32() returns (ok: bool, value: Word)
      requires Now().Valid()
      modifies this
      ensures var r := DecodeVarint32(source, old(pos), old(Now()).limit);
              Took(old(Now()), Now(), ok, Next(r)) && (ok ==> value == r.value.value)
    {
      hide ShiftedIn, VarintTail;
      ghost var target := DecodeVarint32(source, pos, Now().limit);
      ghost var limit := Now().limit;
      var c: byte;
      ok, c := ReadByte();
      if !ok {
        return false, 0;
      }
      if c < 128 {
        return true, c as int;
      }
      var bitpos, result := 7, c as int - 128;
      while true
        invariant Now().Valid() && Now().limit == limit && 0 <= bitpos < 256
        invariant 0 <= result < TWO_32 && VarintTail(source, pos, limit, bitpos, result) == target
        decreases bytesLeft
      {
        TailUnrolled(source, pos, limit, bitpos, result);
        ok, c := ReadByte();
        if !ok {
          return false, 0;
        }
        var low := c as int % 128;
        if bitpos >= 32 {
          var signExtension := if bitpos < 63 then 0xff else 0x01;
          if low != 0 && (result < 0x8000_0000 || c as int != signExtension) {
            return false, 0;
          }
        } else {
          result := ShiftedIn(result, low, bitpos);
        }
        bitpos := NextShift(bitpos);
        if c < 128 {
          break;
        }
      }
      if bitpos == 35 && c as int / 16 % 8 != 0 {
        return false, 0;
      }
      ok, value := true, result;
    }

    /** pb_decode_varint. */
    method GetVarint() returns (ok: bool, value: nat)
      requires Now().Valid()
      modifies this
      ensures var r := GetVarint64(source, old(pos), old(Now()).limit);
              Took(old(Now()), Now(), ok, Next(r)) && (ok ==> value == r.value.value)
    {
      hide ShiftedBy;
      ghost var limit := Now().limit;
      ghost var target := GetVarint64(source, pos, limit);
      var k, result := 0, 0;
      while true
        invariant Now().Valid() && Now().limit == limit && 0 <= k && 0 <= result
        invariant GetVarintFrom(source, pos, limit, k, result, 10, TWO_64) == target
        decreases bytesLeft
      {
        if 7 * k >= 64 {
          return false, 0;
        }
        var c: byte;
        ok, c := ReadByte();
        if !ok {
          return false, 0;
        }
        result := result + ShiftedBy(c as int % 128, k);
        k := k + 1;
        if c < 128 {
          return true, result % TWO_64;
        }
      }
    }

    /** pb_make_string_substream. */
    method MakeSubstream() returns (sub: IStream?)
      requires Now().Valid()
      modifies this
      ensures var size := DecodeVarint32(source, old(pos), old(Now()).limit);
              && (sub != null <==> size.Some? && size.value.next + size.value.value <= old(Now()).limit)
              && (sub != null ==>
                && fresh(sub) && sub.Now() == In(source, size.value.next, size.value.next + size.value.value)
                && pos == size.value.next && bytesLeft == old(Now()).limit - sub.Now().limit)
      ensures Now().Valid() && Now().limit <= old(Now()).limit
    {
      var ok, size := GetVarint32();
      if !ok || bytesLeft < size {
        return null;
      }
      sub := new IStream.Copy(this, size);
      bytesLeft := bytesLeft - size;
    }

    /** pb_close_string_substream: what the substream has left is skipped. */
    method CloseSubstream(sub: IStream)
      requires sub != this && sub.Now().Valid() && sub.source == source && sub.Now().limit + bytesLeft <= |source|
      modifies this, sub
      ensures Now() == In(source, old(sub.Now()).limit, old(sub.Now()).limit + old(bytesLeft))
    {
      if sub.bytesLeft > 0 {
        var _, _ := sub.Read(sub.bytesLeft);
      }
      pos := sub.pos;
    }

    /** pb_skip_field. */
    method Skip(wireType: nat) returns (ok: bool)
      requires Now().Valid()
      modifies this
      ensures Took(old(Now()), Now(), ok, SkipField(wireType, source, old(pos), old(Now()).limit))
    {
      var buf: Bytes;
      match wireType
      case 0 => ok := SkipNumber();
      case 1 => ok, buf := Read(8);
      case 2 =>
        var size;
        ok, size := GetVarint32();
        if ok {
          ok, buf := Read(size);
        }
      case 5 => ok, buf := Read(4);
      case _ => ok := false;
    }

    method SkipNumber() returns (ok: bool)
      requires Now().Valid()
      modifies this
      ensures Took(old(Now()), Now(), ok, SkipVarint(source, old(pos), old(Now()).limit))
    {
      ghost var limit := Now().limit;
      ghost var target := SkipVarint(source, pos, limit);
      while true
        invariant Now().Valid() && Now().limit == limit && SkipVarint(source, pos, limit) == target
        decreases bytesLeft
      {
        var c: byte;
        ok, c := ReadByte();
        if !ok || c < 128 {
          return;
        }
      }
    }
  }

  // ---------------------------------------------------------------- values, fields and messages

  function NextOfDatum(r: Option<ParsedDatum>): Option<nat> {
    if r.Some? then Some(r.value.next) else None
  }

  function NextOfNumber(r: Option<ParsedNumber>): Option<nat> {
    if r.Some? then Some(r.value.next) else None
  }

  function NextOfBytes(r: Option<ParsedSlice>): Option<nat> {
    if r.Some? then Some(r.value.next) else None
  }

  function NextOfSlot(r: Option<ParsedSlot>): Option<nat> {
    if r.Some? then Some(r.value.next) else None
  }

  /** The decoders for numbers in PB_DECODERS. */
  method ReadNumber(s: IStream, t: LType) returns (ok: bool, n: int)
    requires s.Now().Valid() && Packable(t)
    modifies s
    ensures var r := DecodeNumber(t, s.source, old(s.pos), old(s.Now()).limit);
            Took(old(s.Now()), s.Now(), ok, NextOfNumber(r)) && (ok ==> n == r.value.n)
  {
    hide DecodeVarint32, GetVarint64, DecodeFixed32, DecodeFixed64, Signed, Shaped;
    match t
    case Bool =>
      ok, n := s.GetVarint32();
      n := if n == 0 then 0 else 1;
    case Varint(size) =>
      ok, n := s.GetVarint();
      if ok {
        n := Signed(if size == 8 then 8 else 4, n);
        ok := InRange(t, n);
      }
    case UVarint(_) =>
      ok, n := s.GetVarint();
      if ok {
        ok := InRange(t, n);
      }
    case SVarint(_) =>
      ok, n := s.GetVarint();
      if ok {
        n := UnZigZag(n);
        ok := InRange(t, n);
      }
    case Fixed32 =>
      var buf;
      ok, buf := s.Read(4);
      n := if ok then DecodeFixed32(buf) else 0;
    case Fixed64 =>
      var buf;
      ok, buf := s.Read(8);
      n := if ok then DecodeFixed64(buf) else 0;
  }

  /** Whether the cast to the field's type changes nothing. */
  method InRange(t: LType, n: int) returns (ok: bool)
    requires Packable(t)
    ensures ok <==> Shaped(t, Number(n))
  {
    ok := Shaped(t, Number(n));
  }

  /** pb_dec_bytes, pb_dec_string and pb_dec_fixed_length_bytes. */
  method ReadBytes(s: IStream, t: LType, was: Bytes) returns (ok: bool, bytes: Bytes)
    requires s.Now().Valid() && (t.ByteArray? || t.Text? || t.FixedBytes?) && Shaped(t, Data(was))
    modifies s
    ensures var r := DecodeBytes(t, s.source, old(s.pos), old(s.Now()).limit, was);
            Took(old(s.Now()), s.Now(), ok, NextOfBytes(r)) && (ok ==> bytes == r.value.slice)
  {
    hide DecodeVarint32;
    var size;
    ok, size := s.GetVarint32();
    if !ok {
      return false, [];
    }
    match t
    case ByteArray(max) =>
      if size > max {
        return false, [];
      }
      ok, bytes := s.Read(size);
    case Text(room) =>
      if size + 1 > room {
        return false, [];
      }
      ok, bytes := s.Read(size);
      bytes := if ok then bytes + [0] + was[size + 1..] else [];
    case FixedBytes(length) =>
      if size == 0 {
        return true, Zeros(length);
      }
      if size != length {
        return false, [];
      }
      ok, bytes := s.Read(size);
  }

  method ReadValue(s: IStream, t: LType, was: Datum) returns (r: Option<Datum>)
    requires s.Now().Valid() && Shaped(t, was) && GoodType(t)
    modifies s
    ensures var d := DecodeValue(t, s.source, old(s.pos), old(s.Now()).limit, was);
            Took(old(s.Now()), s.Now(), r.Some?, NextOfDatum(d)) && (r.Some? ==> r.value == d.value.datum)
    decreases t, 2, 0
  {
    hide DecodeNumber, DecodeBytes, DecodeFields, DecodeVarint32;
    if Packable(t) {
      var ok, n := ReadNumber(s, t);
      r := if ok then Some(Number(n)) else None;
    } else if t.Submessage? {
      r := ReadSubmessage(s, t, was.slots);
    } else {
      var ok, bytes := ReadBytes(s, t, was.bytes);
      r := if ok then Some(Data(bytes)) else None;
    }
  }

  /** pb_dec_submessage, once array entries have been set to defaults. */
  method ReadSubmessage(s: IStream, t: LType, slots: seq<Slot>) returns (r: Option<Datum>)
    requires s.Now().Valid() && t.Submessage? && GoodType(t) && Shaped(t, Message(slots))
    modifies s
    ensures var d := DecodeValue(t, s.source, old(s.pos), old(s.Now()).limit, Message(slots));
            Took(old(s.Now()), s.Now(), r.Some?, NextOfDatum(d)) && (r.Some? ==> r.value == d.value.datum)
    decreases t, 1, 0
  {
    hide DecodeFields, DecodeVarint32, Shaped, GoodType;
    var sub := s.MakeSubstream();
    if sub == null {
      return None;
    }
    ghost var limit := sub.Now().limit;
    var after := DecodeNoinit(sub, t, slots);
    ghost var end := sub.Now().limit;
    assert end <= limit;
    s.CloseSubstream(sub);
    r := if after.Some? then Some(Message(after.value)) else None;
  }

  /** decode_static_field. */
  method ReadField(s: IStream, f: Field, wireType: nat, slot: Slot) returns (r: Option<Slot>)
    requires s.Now().Valid() && ShapedSlot(f, slot) && GoodField(f)
    modifies s
    ensures var d := DecodeSlot(f, wireType, s.source, old(s.pos), old(s.Now()).limit, slot);
            Took(old(s.Now()), s.Now(), r.Some?, NextOfSlot(d)) && (r.Some? ==> r.value == d.value.slot)
    decreases f, 0, 0
  {
    hide DecodeValue, DecodeVarint32, DecodePacked, Packable, Blank;
    BlankIsShaped(f.ltype);
    match f.htype
    case Required | Singular =>
      var v := ReadValue(s, f.ltype, slot.value);
      r := if v.Some? then Some(One(v.value)) else None;
    case Optional =>
      var v := ReadValue(s, f.ltype, slot.value);
      r := if v.Some? then Some(Maybe(true, v.value)) else None;
    case Oneof(_) =>
      var v := ReadValue(s, f.ltype, Blank(f.ltype));
      r := if v.Some? then Some(Branch(v)) else None;
    case Repeated(max) =>
      if wireType == WT_STRING && Packable(f.ltype) {
        r := ReadPacked(s, f.ltype, slot.items, max);
      } else if |slot.items| >= max {
        r := None;
      } else {
        var v := ReadValue(s, f.ltype, Blank(f.ltype));
        r := if v.Some? then Some(Many(slot.items + [v.value])) else None;
      }
  }

  method ReadPacked(s: IStream, t: LType, was: seq<Datum>, max: nat) returns (r: Option<Slot>)
    requires s.Now().Valid() && Packable(t) && forall i :: 0 <= i < |was| ==> Shaped(t, was[i])
    modifies s
    ensures var size := DecodeVarint32(s.source, old(s.pos), old(s.Now()).limit);
            if size.None? || old(s.Now()).limit - size.value.next < size.value.value then r == None && Took(old(s.Now()), s.Now(), false, None)
            else
              var end := size.value.next + size.value.value;
              var items := DecodePacked(t, s.source, size.value.next, end, was, max);
              && r == (if items.None? then None else Some(Many(items.value)))
              && Took(old(s.Now()), s.Now(), r.Some?, if r.Some? then Some(end) else None)
  {
    hide DecodeVarint32, DecodeNumber, Shaped;
    var sub := s.MakeSubstream();
    if sub == null {
      return None;
    }
    ghost var target, end := DecodePacked(t, sub.source, sub.pos, sub.Now().limit, was, max), sub.Now().limit;
    ghost var kept := s.Now();
    var items := was;
    while sub.bytesLeft > 0 && |items| < max
      invariant sub.Now().Valid() && sub.Now().limit == end && sub.source == s.source && forall i :: 0 <= i < |items| ==> Shaped(t, items[i])
      invariant DecodePacked(t, sub.source, sub.pos, end, items, max) == target
      invariant s.Now() == kept
      decreases sub.bytesLeft
    {
      var ok, n := ReadNumber(sub, t);
      if !ok {
        return None;
      }
      items := items + [Number(n)];
    }
    if sub.bytesLeft != 0 {
      return None;
    }
    s.CloseSubstream(sub);
    r := Some(Many(items));
  }

  lemma GoodFields(t: LType)
    requires t.Submessage? && GoodType(t)
    ensures (forall i :: 0 <= i < |t.fields| ==> GoodField(t.fields[i])) && DistinctTags(t.fields)
  {
  }

  lemma SameIndex(fields: seq<Field>, tag: nat, i: nat)
    requires DistinctTags(fields) && i < |fields| && fields[i].tag == tag
    ensures IndexOf(fields, tag) == Some(i)
  {
  }

  lemma {:induction false} RequiredGrows(fields: seq<Field>, i: nat, j: nat)
    requires i <= j <= |fields|
    ensures RequiredBefore(fields, i) <= RequiredBefore(fields, j)
    decreases j
  {
    if i < j {
      RequiredGrows(fields, i, j - 1);
    }
  }

  /** Words with the lowest n bits set. */
  function LowBits(n: nat): (r: set<nat>)
    ensures forall k :: k in r <==> 0 <= k < n
  {
    if n == 0 then {} else LowBits(n - 1) + {n - 1}
  }

  /** Comparing the words of fields_seen with all bits set is the same as asking for each required field. */
  lemma AllBits(fields: seq<Field>, seen: set<nat>, required: nat)
    requires required == if RequiredBefore(fields, |fields|) < MAX_REQUIRED_FIELDS then RequiredBefore(fields, |fields|)
                         else MAX_REQUIRED_FIELDS
    requires forall k :: k in seen ==> k < required
    ensures seen == LowBits(required) <==> AllSeen(fields, seen)
  {
    if AllSeen(fields, seen) {
      assert forall k: nat :: k < required ==> k in seen;
    }
  }

  /** A field the descriptor does not have. */
  method SkipOther(s: IStream, t: LType, tag: nat, wireType: nat, found: bool) returns (ok: bool)
    requires s.Now().Valid() && t.Submessage? && found == (t.fields == [] && tag == 0)
    modifies s
    ensures Took(old(s.Now()), s.Now(), ok, SkipUnknown(t.fields, tag, wireType, s.source, old(s.pos), old(s.Now()).limit))
  {
    hide DecodeVarint32, SkipField;
    if found {
      var v;
      ok, v := s.GetVarint32();
    } else {
      ok := s.Skip(wireType);
    }
  }

  /** One turn of the loop of pb_decode_noinit, once the key is read. */
  method ReadOne(s: IStream, t: LType, iter: FieldIter, key: nat, slots: seq<Slot>, seen: set<nat>) returns (r: Option<Progress>)
    requires s.Now().Valid() && t.Submessage? && GoodType(t) && Shaped(t, Message(slots))
    requires iter.Valid() && iter.fields == t.fields
    modifies s, iter
    ensures var d := DecodeOne(t, key, s.source, old(s.pos), old(s.Now()).limit, slots, seen);
            && Took(old(s.Now()), s.Now(), r.Some?, if d.Some? then Some(d.value.next) else None)
            && (r.Some? ==> r.value.slots == d.value.slots && r.value.seen == d.value.seen)
    ensures iter.Valid()
    decreases t, 0, 0
  {
    hide DecodeSlot, ShapedSlot, Stored, SkipUnknown, GoodField;
    var tag, wireType := key / 8, key % 8;
    var found := iter.Find(tag);
    if !found || iter.pos == |t.fields| {
      NoIndex(t.fields, tag);
      var ok := SkipOther(s, t, tag, wireType, found);
      r := if ok then Some(Progress(slots, seen, s.pos)) else None;
      return;
    }
    var i := iter.pos;
    SameIndex(t.fields, tag, i);
    var nowSeen := seen;
    if t.fields[i].htype.Required? && iter.requiredFieldIndex < MAX_REQUIRED_FIELDS {
      nowSeen := seen + {iter.requiredFieldIndex};
    }
    var slot := ReadField(s, t.fields[i], wireType, slots[i]);
    r := if slot.Some? then Some(Progress(Stored(t.fields, slots, i, slot.value), nowSeen, s.pos)) else None;
  }

  lemma NoIndex(fields: seq<Field>, tag: nat)
    requires forall i :: 0 <= i < |fields| ==> fields[i].tag != tag
    ensures IndexOf(fields, tag) == None
  {
  }

  ghost predicate SeenInRange(fields: seq<Field>, seen: set<nat>) {
    forall k :: k in seen ==> k < RequiredBefore(fields, |fields|) && k < MAX_REQUIRED_FIELDS
  }

  lemma SeenStaysInRange(t: LType, key: nat, b: Bytes, p: nat, limit: nat, slots: seq<Slot>, seen: set<nat>)
    requires t.Submessage? && GoodType(t) && p <= limit <= |b| && Shaped(t, Message(slots)) && SeenInRange(t.fields, seen)
    ensures var r := DecodeOne(t, key, b, p, limit, slots, seen); r.Some? ==> SeenInRange(t.fields, r.value.seen)
  {
    hide DecodeSlot, Shaped, Stored, SkipUnknown, GoodType;
    var i := IndexOf(t.fields, key / 8);
    if i.Some? {
      RequiredGrows(t.fields, i.value + 1, |t.fields|);
    }
  }

  /** pb_decode_noinit. */
  method DecodeNoinit(s: IStream, t: LType, slots: seq<Slot>) returns (r: Option<seq<Slot>>)
    requires s.Now().Valid() && t.Submessage? && GoodType(t) && Shaped(t, Message(slots))
    modifies s
    ensures r == DecodeFields(t, s.source, old(s.pos), old(s.Now()).limit, slots, {})
    ensures s.Now().Valid() && s.Now().limit <= old(s.Now()).limit && (r.Some? ==> s.Now().limit == old(s.Now()).limit)
    decreases t, 0, 1
  {
    hide DecodeVarint32, DecodeOne, Shaped, GoodType, AllSeen;
    ghost var limit, target := s.Now().limit, DecodeFields(t, s.source, s.pos, s.Now().limit, slots, {});
    var iter := new FieldIter(t.fields);
    var fieldsSeen: set<nat>, current := {}, slots;
    while s.bytesLeft > 0
      invariant s.Now().Valid() && s.Now().limit == limit && iter.Valid()
      invariant Shaped(t, Message(current)) && target == DecodeFields(t, s.source, s.pos, limit, current, fieldsSeen)
      invariant SeenInRange(t.fields, fieldsSeen)
      decreases s.bytesLeft
    {
      var ok, key := s.GetVarint32();
      if !ok {
        return None;
      }
      if key == 0 {
        break;
      }
      SeenStaysInRange(t, key, s.source, s.pos, limit, current, fieldsSeen);
      var progress := ReadOne(s, t, iter, key, current, fieldsSeen);
      if progress.None? {
        return None;
      }
      current, fieldsSeen := progress.value.slots, progress.value.seen;
    }
    assert target == if AllSeen(t.fields, fieldsSeen) then Some(current) else None;
    hide DecodeFields;
    var required := iter.CountRequired();
    if required > MAX_REQUIRED_FIELDS {
      required := MAX_REQUIRED_FIELDS;
    }
    AllBits(t.fields, fieldsSeen, required);
    r := if fieldsSeen != LowBits(required) then None else Some(current);
  }

  /** pb_decode of a buffer. */
  method Decode(t: LType, buf: Bytes) returns (r: Option<seq<Slot>>)
    requires t.Submessage? && GoodType(t)
    ensures r == DecodeMessage(t, buf)
  {
    hide DecodeFields, GoodType, Shaped;
    var s := new IStream.FromBuffer(buf);
    BlankIsShaped(t);
    r := DecodeNoinit(s, t, Blank(t).slots);
  }
}
