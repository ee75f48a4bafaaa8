/**
 The encoder of nanopb (pb_encode.c): what a message is on the wire, and the stream methods
 that write it, with a pass that only counts before every submessage and packed array.
 */
module PbEncode {
  import opened InternalKeys
  import opened Coding
  import opened PbTypes
  import opened PbVarints

  // ---------------------------------------------------------------- what a message is on the wire

  function WireType(t: LType): nat {
    match t
    case Bool | Varint(_) | UVarint(_) | SVarint(_) => 0
    case Fixed64 => 1
    case ByteArray(_) | Text(_) | Submessage(_) | FixedBytes(_) => 2
    case Fixed32 => 5
  }

  const WT_STRING := 2

  predicate Packable(t: LType) {
    t.Bool? || t.Varint? || t.UVarint? || t.SVarint? || t.Fixed32? || t.Fixed64?
  }

  function Key(tag: nat, wireType: nat): Bytes {
    EncodeVarint(tag * 8 + wireType)
  }

  function Joined(a: Option<Bytes>, b: Option<Bytes>): Option<Bytes> {
    if a.Some? && b.Some? then Some(a.value + b.value) else None
  }

  function Prefixed(a: Option<Bytes>): Option<Bytes> {
    if a.Some? then Some(LengthPrefixed(a.value)) else None
  }

  /** None if the encoder reports an error. */
  function WireValue(t: LType, v: Datum): Option<Bytes>
    requires Shaped(t, v)
    decreases t, 1, 0
  {
    match t
    case Bool => Some(EncodeVarint(if v.n == 0 then 0 else 1))
    case Varint(size) => Some(EncodeVarint(Unsigned(Widened(size, v.n))))
    case UVarint(size) => Some(EncodeVarint(v.n))
    case SVarint(size) => Some(EncodeVarint(ZigZag(v.n)))
    case Fixed32 => Some(EncodeFixed32(v.n))
    case Fixed64 => Some(EncodeFixed64(v.n))
    case ByteArray(max) => if |v.bytes| > max then None else Some(LengthPrefixed(v.bytes))
    case Text(_) => Some(LengthPrefixed(UpToNul(v.bytes)))
    case FixedBytes(_) => Some(LengthPrefixed(v.bytes))
    case Submessage(fields) => Prefixed(WireMessage(t, v.slots, |fields|))
  }

  /** A number of a C type is one of the 64-bit type too. */
  function Widened(size: nat, n: int): (r: int)
    requires InSigned(size, n)
    ensures InSigned(8, r) && r == n
  {
    n
  }

  /** The first n fields of a message, in the order of the descriptor. */
  function WireMessage(t: LType, slots: seq<Slot>, n: nat): Option<Bytes>
    requires t.Submessage? && Shaped(t, Message(slots)) && n <= |t.fields|
    decreases t, 0, n
  {
    if n == 0 then Some([]) else Joined(WireMessage(t, slots, n - 1), WireSlot(t.fields[n - 1], slots[n - 1]))
  }

  function WireSlot(f: Field, s: Slot): Option<Bytes>
    requires ShapedSlot(f, s)
    decreases f, 0, 0
  {
    match f.htype
    case Required => WireTagged(f, s.value)
    case Optional => if s.has then WireTagged(f, s.value) else Some([])
    case Singular => if IsZero(f.ltype, s.value) then Some([]) else WireTagged(f, s.value)
    case Oneof(_) => if s.chosen.Some? then WireTagged(f, s.chosen.value) else Some([])
    case Repeated(max) =>
      if s.items == [] then Some([])
      else if |s.items| > max then None
      else if Packable(f.ltype) then Joined(Some(Key(f.tag, WT_STRING)), Prefixed(WirePacked(f.ltype, s.items, |s.items|)))
      else WireRepeated(f.ltype, f.tag, s.items, |s.items|)
  }

  function WireTagged(f: Field, v: Datum): Option<Bytes>
    requires Shaped(f.ltype, v)
    decreases f.ltype, 2, 0
  {
    Joined(Some(Key(f.tag, WireType(f.ltype))), WireValue(f.ltype, v))
  }

  function WirePacked(t: LType, items: seq<Datum>, n: nat): Option<Bytes>
    requires n <= |items| && forall i :: 0 <= i < |items| ==> Shaped(t, items[i])
    decreases t, 2, n
  {
    if n == 0 then Some([]) else Joined(WirePacked(t, items, n - 1), WireValue(t, items[n - 1]))
  }

  function WireRepeated(t: LType, tag: nat, items: seq<Datum>, n: nat): Option<Bytes>
    requires n <= |items| && forall i :: 0 <= i < |items| ==> Shaped(t, items[i])
    decreases t, 2, n
  {
    if n == 0 then Some([])
    else Joined(WireRepeated(t, tag, items, n - 1), Joined(Some(Key(tag, WireType(t))), WireValue(t, items[n - 1])))
  }

  // ---------------------------------------------------------------- what writing does to a stream

  datatype Out = Out(sizing: bool, maxSize: nat, written: nat, data: Bytes) {
    predicate Valid() {
      sizing || written <= maxSize
    }
  }

  /** Something that was to write w has done so, or has failed: because there is nothing to write, or no room for it.
      A stream that only counts has room for everything. */
  predicate Wrote(before: Out, after: Out, ok: bool, w: Option<Bytes>) {
    && after.Valid() && after.sizing == before.sizing && after.maxSize == before.maxSize
    && (ok <==> w.Some? && (before.sizing || before.written + |w.value| <= before.maxSize))
    && (ok ==> after.written == before.written + |w.value|)
    && (ok ==> after.data == if before.sizing then before.data else before.data + w.value)
  }

  lemma WroteThen(a: Out, b: Out, c: Out, ok: bool, v: Option<Bytes>, w: Option<Bytes>)
    requires Wrote(a, b, true, v) && Wrote(b, c, ok, w)
    ensures Wrote(a, c, ok, Joined(v, w))
  {
    if ok && !a.sizing {
      assert a.data + v.value + w.value == a.data + (v.value + w.value);
    }
  }

  lemma FailedThen(a: Out, b: Out, v: Option<Bytes>, w: Option<Bytes>)
    requires Wrote(a, b, false, v)
    ensures Wrote(a, b, false, Joined(v, w))
  {
  }

  lemma WroteNothing(a: Out)
    requires a.Valid()
    ensures Wrote(a, a, true, Some([]))
  {
  }

  lemma JoinedNothing(w: Option<Bytes>)
    ensures Joined(Some([]), w) == w
  {
    assert w.Some? ==> [] + w.value == w.value;
  }

  lemma PrefixedIsJoined(w: Bytes)
    ensures Some(LengthPrefixed(w)) == Joined(Some(EncodeVarint(|w|)), Some(w))
  {
  }

  // ---------------------------------------------------------------- pb_ostream_t

  /** A stream without a callback only counts. */
  class OStream {
    const sizing: bool
    const maxSize: nat
    var bytesWritten: nat
    var data: Bytes

    ghost function Now(): Out
      reads this
    {
      Out(sizing, maxSize, bytesWritten, data)
    }

    constructor Sizing()
      ensures Now() == Out(true, 0, 0, [])
    {
      sizing, maxSize, bytesWritten, data := true, 0, 0, [];
    }

    constructor FromBuffer(maxSize: nat)
      ensures Now() == Out(false, maxSize, 0, [])
    {
      this.sizing, this.maxSize, bytesWritten, data := false, maxSize, 0, [];
    }

    /** pb_write. */
    method Write(buf: Bytes) returns (ok: bool)
      requires Now().Valid()
      modifies this
      ensures Wrote(old(Now()), Now(), ok, Some(buf))
    {
      if |buf| > 0 && !sizing {
        if bytesWritten + |buf| > maxSize {
          return false;
        }
        data := data + buf;
      }
      bytesWritten := bytesWritten + |buf|;
      ok := true;
    }

    /** pb_write without a buffer, when only the size counts. */
    method Count(size: nat)
      requires sizing
      modifies this
      ensures forall w: Bytes :: |w| == size ==> Wrote(old(Now()), Now(), true, Some(w))
    {
      bytesWritten := bytesWritten + size;
    }

    /** pb_encode_varint: every byte with the high bit, which the last one loses again. */
    method PutVarint(value: nat) returns (ok: bool)
      requires Now().Valid()
      modifies this
      ensures Wrote(old(Now()), Now(), ok, Some(EncodeVarint(value)))
    {
      if value < 128 {
        ok := Write([value as byte]);
        return;
      }
      var buffer: Bytes := [];
      var v := value;
      while v != 0
        invariant v != 0 ==> buffer + EncodeVarint(v) == EncodeVarint(value)
        invariant v == 0 ==> |buffer| > 0 && buffer[|buffer| - 1] >= 128
                             && buffer[..|buffer| - 1] + [buffer[|buffer| - 1] - 128] == EncodeVarint(value)
      {
        ghost var was := buffer;
        buffer := buffer + [(v % 128 + 128) as byte];
        if v >= 128 {
          assert was + EncodeVarint(v) == buffer + EncodeVarint(v / 128);
        } else {
          assert buffer[..|buffer| - 1] == was;
        }
        v := v / 128;
      }
      buffer := buffer[..|buffer| - 1] + [buffer[|buffer| - 1] - 128];
      ok := Write(buffer);
    }

    /** pb_encode_svarint, with the shift and the complement of a 64-bit word. */
    method PutSvarint(value: int) returns (ok: bool)
      requires Now().Valid() && InSigned(8, value)
      modifies this
      ensures Wrote(old(Now()), Now(), ok, Some(EncodeVarint(ZigZag(value))))
    {
      var shifted := Unsigned(value) * 2 % TWO_64;
      var zigzagged := if value < 0 then TWO_64 - 1 - shifted else shifted;
      assert zigzagged == ZigZag(value);
      ok := PutVarint(zigzagged);
    }

    /** pb_encode_string. */
    method PutString(buffer: Bytes) returns (ok: bool)
      requires Now().Valid()
      modifies this
      ensures Wrote(old(Now()), Now(), ok, Some(LengthPrefixed(buffer)))
    {
      hide Wrote, EncodeVarint, Joined;
      ghost var a := Now();
      PrefixedIsJoined(buffer);
      ok := PutVarint(|buffer|);
      ghost var b := Now();
      if !ok {
        FailedThen(a, b, Some(EncodeVarint(|buffer|)), Some(buffer));
        return;
      }
      StaysValid(a, b, ok, Some(EncodeVarint(|buffer|)));
      ok := Write(buffer);
      WroteThen(a, b, Now(), ok, Some(EncodeVarint(|buffer|)), Some(buffer));
    }

    /** pb_encode_tag_for_field; packed arrays use the wire type of strings. */
    method PutTag(tag: nat, wireType: nat) returns (ok: bool)
      requires Now().Valid()
      modifies this
      ensures Wrote(old(Now()), Now(), ok, Some(Key(tag, wireType)))
    {
      ok := PutVarint(tag * 8 + wireType);
    }
  }

  lemma StaysValid(a: Out, b: Out, ok: bool, w: Option<Bytes>)
    requires Wrote(a, b, ok, w)
    ensures b.Valid() && b.sizing == a.sizing && b.maxSize == a.maxSize
  {
  }

  // ---------------------------------------------------------------- values, fields and messages

  /** The field encoders of PB_ENCODERS. */
  method EncodeValue(s: OStream, t: LType, v: Datum) returns (ok: bool)
    requires s.Now().Valid() && Shaped(t, v)
    modifies s
    ensures Wrote(old(s.Now()), s.Now(), ok, WireValue(t, v))
    decreases t, 1, 0
  {
    hide EncodeVarint, LengthPrefixed, WireMessage;
    match t
    case Bool => ok := s.PutVarint(if v.n == 0 then 0 else 1);
    case Varint(size) => ok := s.PutVarint(Unsigned(Widened(size, v.n)));
    case UVarint(_) => ok := s.PutVarint(v.n);
    case SVarint(size) => ok := s.PutSvarint(Widened(size, v.n));
    case Fixed32 => ok := s.Write(EncodeFixed32(v.n));
    case Fixed64 => ok := s.Write(EncodeFixed64(v.n));
    case ByteArray(max) =>
      if |v.bytes| > max {
        return false;
      }
      ok := s.PutString(v.bytes);
    case Text(_) =>
      var size := StringLength(v.bytes);
      ok := s.PutString(v.bytes[..size]);
    case FixedBytes(_) => ok := s.PutString(v.bytes);
    case Submessage(_) => ok := EncodeSubmessage(s, t, v.slots);
  }

  method StringLength(b: Bytes) returns (size: nat)
    ensures size <= |b| && b[..size] == UpToNul(b)
  {
    size := 0;
    while size < |b| && b[size] != 0
      invariant size <= |b| && UpToNul(b) == b[..size] + UpToNul(b[size..])
    {
      assert b[size..][1..] == b[size + 1..];
      assert b[..size] + ([b[size]] + UpToNul(b[size + 1..])) == b[..size + 1] + UpToNul(b[size + 1..]);
      size := size + 1;
    }
    assert b[..size] + [] == b[..size];
  }

  /** pb_encode_submessage. Its last check, whether the second pass wrote as much as the first counted, never fails. */
  method EncodeSubmessage(s: OStream, t: LType, slots: seq<Slot>) returns (ok: bool)
    requires s.Now().Valid() && t.Submessage? && Shaped(t, Message(slots))
    modifies s
    ensures Wrote(old(s.Now()), s.Now(), ok, Prefixed(WireMessage(t, slots, |t.fields|)))
    decreases t, 0, 1
  {
    hide EncodeVarint, WireMessage, Joined;
    ghost var a := s.Now();
    var substream := new OStream.Sizing();
    ok := Encode(substream, t, slots);
    if !ok {
      return;
    }
    var size := substream.bytesWritten;
    ghost var w := WireMessage(t, slots, |t.fields|).value;
    PrefixedIsJoined(w);
    ok := s.PutVarint(size);
    ghost var b := s.Now();
    if !ok {
      FailedThen(a, b, Some(EncodeVarint(|w|)), Some(w));
      return;
    }
    if s.sizing {
      s.Count(size);
      WroteThen(a, b, s.Now(), true, Some(EncodeVarint(|w|)), Some(w));
      return;
    }
    if s.bytesWritten + size > s.maxSize {
      ok := false;
    } else {
      substream := new OStream.FromBuffer(size);
      ok := Encode(substream, t, slots);
      s.bytesWritten := s.bytesWritten + substream.bytesWritten;
      s.data := s.data + substream.data;
      assert substream.bytesWritten == size;
      assert [] + w == w;
    }
    WroteThen(a, b, s.Now(), ok, Some(EncodeVarint(|w|)), Some(w));
  }

  /** pb_encode. */
  method Encode(s: OStream, t: LType, slots: seq<Slot>) returns (ok: bool)
    requires s.Now().Valid() && t.Submessage? && Shaped(t, Message(slots))
    modifies s
    ensures Wrote(old(s.Now()), s.Now(), ok, WireMessage(t, slots, |t.fields|))
    decreases t, 0, 0
  {
    hide Wrote, Joined, WireSlot, WireMessage;
    ghost var a := s.Now();
    WireOfNone(t, slots);
    WroteNothing(a);
    ok := true;
    for i := 0 to |t.fields|
      invariant s.Now().Valid() && ok && Wrote(a, s.Now(), true, WireMessage(t, slots, i))
    {
      ghost var b := s.Now();
      ok := EncodeField(s, t.fields[i], slots[i]);
      WroteThen(a, b, s.Now(), ok, WireMessage(t, slots, i), WireSlot(t.fields[i], slots[i]));
      OneMoreField(t, slots, i);
      StaysValid(b, s.Now(), ok, WireSlot(t.fields[i], slots[i]));
      if !ok {
        StaysFailed(t, slots, a, s.Now(), i + 1);
        return;
      }
    }
  }

  lemma WireOfNone(t: LType, slots: seq<Slot>)
    requires t.Submessage? && Shaped(t, Message(slots))
    ensures WireMessage(t, slots, 0) == Some([])
  {
  }

  lemma OneMoreField(t: LType, slots: seq<Slot>, i: nat)
    requires t.Submessage? && Shaped(t, Message(slots)) && i < |t.fields|
    ensures ShapedSlot(t.fields[i], slots[i])
    ensures WireMessage(t, slots, i + 1) == Joined(WireMessage(t, slots, i), WireSlot(t.fields[i], slots[i]))
  {
  }

  /** What has no room for the first fields has none for more. */
  lemma {:induction false} StaysFailed(t: LType, slots: seq<Slot>, a: Out, b: Out, i: nat)
    requires t.Submessage? && Shaped(t, Message(slots)) && i <= |t.fields|
    requires Wrote(a, b, false, WireMessage(t, slots, i))
    ensures Wrote(a, b, false, WireMessage(t, slots, |t.fields|))
    decreases |t.fields| - i
  {
    hide Wrote, Joined, WireSlot, WireMessage;
    if i < |t.fields| {
      OneMoreField(t, slots, i);
      FailedThen(a, b, WireMessage(t, slots, i), WireSlot(t.fields[i], slots[i]));
      StaysFailed(t, slots, a, b, i + 1);
    }
  }

  /** encode_basic_field. */
  method EncodeField(s: OStream, f: Field, slot: Slot) returns (ok: bool)
    requires s.Now().Valid() && ShapedSlot(f, slot)
    modifies s
    ensures Wrote(old(s.Now()), s.Now(), ok, WireSlot(f, slot))
    decreases f, 0, 0
  {
    hide WireTagged, WirePacked, WireRepeated, Packable, IsZero, Joined;
    match f.htype
    case Required => ok := EncodeTagged(s, f, slot.value);
    case Optional =>
      ok := true;
      if slot.has {
        ok := EncodeTagged(s, f, slot.value);
      }
    case Singular =>
      ok := true;
      if !IsZero(f.ltype, slot.value) {
        ok := EncodeTagged(s, f, slot.value);
      }
    case Oneof(_) =>
      ok := true;
      if slot.chosen.Some? {
        ok := EncodeTagged(s, f, slot.chosen.value);
      }
    case Repeated(max) => ok := EncodeArray(s, f, slot.items, max);
  }

  method EncodeTagged(s: OStream, f: Field, v: Datum) returns (ok: bool)
    requires s.Now().Valid() && Shaped(f.ltype, v)
    modifies s
    ensures Wrote(old(s.Now()), s.Now(), ok, WireTagged(f, v))
    decreases f.ltype, 2, 0
  {
    hide Wrote, Joined, Key, WireValue;
    ghost var a, key := s.Now(), Some(Key(f.tag, WireType(f.ltype)));
    ok := s.PutTag(f.tag, WireType(f.ltype));
    ghost var b := s.Now();
    StaysValid(a, b, ok, key);
    if !ok {
      FailedThen(a, b, key, WireValue(f.ltype, v));
      return;
    }
    ok := EncodeValue(s, f.ltype, v);
    WroteThen(a, b, s.Now(), ok, key, WireValue(f.ltype, v));
  }

  /** encode_array. */
  method EncodeArray(s: OStream, f: Field, items: seq<Datum>, max: nat) returns (ok: bool)
    requires s.Now().Valid() && f.htype == Repeated(max) && ShapedSlot(f, Many(items))
    modifies s
    ensures Wrote(old(s.Now()), s.Now(), ok, WireSlot(f, Many(items)))
    decreases f.ltype, 4, 0
  {
    hide WirePacked, WireRepeated, Joined, Key;
    if |items| == 0 {
      return true;
    }
    if |items| > max {
      return false;
    }
    if Packable(f.ltype) {
      hide Wrote;
      ghost var a, key := s.Now(), Some(Key(f.tag, WT_STRING));
      ghost var rest := Prefixed(WirePacked(f.ltype, items, |items|));
      ok := s.PutTag(f.tag, WT_STRING);
      ghost var b := s.Now();
      StaysValid(a, b, ok, key);
      if !ok {
        FailedThen(a, b, key, rest);
        return;
      }
      ok := EncodePacked(s, f.ltype, items);
      WroteThen(a, b, s.Now(), ok, key, rest);
    } else {
      ok := EncodeRepeated(s, f.ltype, f.tag, items);
    }
  }

  /** The part of encode_array that follows the tag of a packed array: the size, counted if it does not follow from
      the number of items, and the items. */
  method EncodePacked(s: OStream, t: LType, items: seq<Datum>) returns (ok: bool)
    requires s.Now().Valid() && forall i :: 0 <= i < |items| ==> Shaped(t, items[i])
    modifies s
    ensures Wrote(old(s.Now()), s.Now(), ok, Prefixed(WirePacked(t, items, |items|)))
    decreases t, 3, 0
  {
    hide EncodeVarint, WirePacked, Joined;
    var size := 0;
    if t.Fixed32? {
      size := 4 * |items|;
      WordsTake(t, items, |items|);
    } else if t.Fixed64? {
      size := 8 * |items|;
      WordsTake(t, items, |items|);
    } else {
      var sizestream := new OStream.Sizing();
      ok := EncodeItems(sizestream, t, items);
      if !ok {
        return;
      }
      size := sizestream.bytesWritten;
    }
    ghost var w := WirePacked(t, items, |items|).value;
    PrefixedIsJoined(w);
    ghost var a := s.Now();
    ok := s.PutVarint(size);
    ghost var b := s.Now();
    StaysValid(a, b, ok, Some(EncodeVarint(size)));
    hide Wrote;
    if !ok {
      FailedThen(a, b, Some(EncodeVarint(|w|)), Some(w));
      return;
    }
    if s.sizing {
      s.Count(size);
    } else {
      ok := EncodeItems(s, t, items);
    }
    WroteThen(a, b, s.Now(), ok, Some(EncodeVarint(|w|)), Some(w));
  }

  lemma {:induction false} WordsTake(t: LType, items: seq<Datum>, n: nat)
    requires (t.Fixed32? || t.Fixed64?) && n <= |items| && forall i :: 0 <= i < |items| ==> Shaped(t, items[i])
    ensures var w := WirePacked(t, items, n); w.Some? && |w.value| == (if t.Fixed32? then 4 else 8) * n
  {
    if n > 0 {
      WordsTake(t, items, n - 1);
      if t.Fixed32? {
        Fixed32Size(items[n - 1].n);
      }
    }
  }

  method EncodeItems(s: OStream, t: LType, items: seq<Datum>) returns (ok: bool)
    requires s.Now().Valid() && forall i :: 0 <= i < |items| ==> Shaped(t, items[i])
    modifies s
    ensures Wrote(old(s.Now()), s.Now(), ok, WirePacked(t, items, |items|))
    decreases t, 2, 0
  {
    hide Wrote, Joined, WireValue;
    ghost var a := s.Now();
    WroteNothing(a);
    ok := true;
    for i := 0 to |items|
      invariant s.Now().Valid() && ok && Wrote(a, s.Now(), true, WirePacked(t, items, i))
    {
      ghost var b := s.Now();
      ok := EncodeValue(s, t, items[i]);
      WroteThen(a, b, s.Now(), ok, WirePacked(t, items, i), WireValue(t, items[i]));
      StaysValid(b, s.Now(), ok, WireValue(t, items[i]));
      if !ok {
        PackedStaysFailed(t, items, a, s.Now(), i + 1);
        return;
      }
    }
  }

  lemma {:induction false} PackedStaysFailed(t: LType, items: seq<Datum>, a: Out, b: Out, i: nat)
    requires i <= |items| && forall k :: 0 <= k < |items| ==> Shaped(t, items[k])
    requires Wrote(a, b, false, WirePacked(t, items, i))
    ensures Wrote(a, b, false, WirePacked(t, items, |items|))
    decreases |items| - i
  {
    hide Wrote, Joined, WireValue;
    if i < |items| {
      FailedThen(a, b, WirePacked(t, items, i), WireValue(t, items[i]));
      PackedStaysFailed(t, items, a, b, i + 1);
    }
  }

  /** The part of encode_array for types that are not packed: each item with its tag. */
  method EncodeRepeated(s: OStream, t: LType, tag: nat, items: seq<Datum>) returns (ok: bool)
    requires s.Now().Valid() && forall i :: 0 <= i < |items| ==> Shaped(t, items[i])
    modifies s
    ensures Wrote(old(s.Now()), s.Now(), ok, WireRepeated(t, tag, items, |items|))
    decreases t, 3, 0
  {
    hide Wrote, Joined, WireValue, Key, WireType;
    ghost var a, key := s.Now(), Some(Key(tag, WireType(t)));
    WroteNothing(a);
    ok := true;
    for i := 0 to |items|
      invariant s.Now().Valid() && ok && Wrote(a, s.Now(), true, WireRepeated(t, tag, items, i))
    {
      ghost var b, w := s.Now(), WireValue(t, items[i]);
      ok := s.PutTag(tag, WireType(t));
      ghost var c := s.Now();
      StaysValid(b, c, ok, key);
      if ok {
        ok := EncodeValue(s, t, items[i]);
        WroteThen(b, c, s.Now(), ok, key, w);
      } else {
        FailedThen(b, c, key, w);
      }
      WroteThen(a, b, s.Now(), ok, WireRepeated(t, tag, items, i), Joined(key, w));
      StaysValid(b, s.Now(), ok, Joined(key, w));
      if !ok {
        RepeatedStaysFailed(t, tag, items, a, s.Now(), i + 1);
        return;
      }
    }
  }

  lemma {:induction false} RepeatedStaysFailed(t: LType, tag: nat, items: seq<Datum>, a: Out, b: Out, i: nat)
    requires i <= |items| && forall k :: 0 <= k < |items| ==> Shaped(t, items[k])
    requires Wrote(a, b, false, WireRepeated(t, tag, items, i))
    ensures Wrote(a, b, false, WireRepeated(t, tag, items, |items|))
    decreases |items| - i
  {
    hide Wrote, Joined, WireValue, Key, WireType;
    if i < |items| {
      FailedThen(a, b, WireRepeated(t, tag, items, i), Joined(Some(Key(tag, WireType(t))), WireValue(t, items[i])));
      RepeatedStaysFailed(t, tag, items, a, b, i + 1);
    }
  }

  /** pb_get_encoded_size: the counting pass tells exactly how long the encoding is; into a buffer of that size, and of
      no smaller one, the message can be written. */
  method EncodedSize(t: LType, slots: seq<Slot>) returns (size: Option<nat>)
    requires t.Submessage? && Shaped(t, Message(slots))
    ensures var w := WireMessage(t, slots, |t.fields|);
            if w.Some? then size == Some(|w.value|) else size == None
  {
    hide WireMessage;
    var stream := new OStream.Sizing();
    var ok := Encode(stream, t, slots);
    size := if ok then Some(stream.bytesWritten) else None;
  }

  method EncodeToBuffer(t: LType, slots: seq<Slot>, bufsize: nat) returns (r: Option<Bytes>)
    requires t.Submessage? && Shaped(t, Message(slots))
    ensures var w := WireMessage(t, slots, |t.fields|);
            r == if w.Some? && |w.value| <= bufsize then w else None
  {
    hide WireMessage;
    var stream := new OStream.FromBuffer(bufsize);
    var ok := Encode(stream, t, slots);
    ghost var w := WireMessage(t, slots, |t.fields|);
    assert w.Some? ==> [] + w.value == w.value;
    r := if ok then Some(stream.data) else None;
  }
}
