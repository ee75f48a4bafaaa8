/**
 What nanopb's encoder writes, its decoder reads back: the struct itself, up to the contents
 of fields that are not set, if and only if every string in it that is written is terminated.
 A decoder whose descriptor lacks some of the fields, at any depth, reads the others.
 */
module PbRoundTrip {
  import opened InternalKeys
  import opened Coding
  import opened PbTypes
  import opened PbVarints
  import opened PbEncode
  import opened PbDecode
  import opened PbReading

  // ---------------------------------------------------------------- descriptors that lack fields

  predicate Absent(tag: nat, fields: seq<Field>) {
    forall j :: 0 <= j < |fields| ==> fields[j].tag != tag
  }

  /** u is t without some of its fields, at any depth. */
  predicate Lacks(t: LType, u: LType)
    decreases t, 1, 0
  {
    if t.Submessage? && u.Submessage? then LacksFrom(t, 0, u, 0) else t == u
  }

  predicate Kept(t: LType, i: nat, u: LType, k: nat)
    requires t.Submessage? && u.Submessage? && i < |t.fields|
  {
    k < |u.fields| && t.fields[i].tag == u.fields[k].tag
  }

  /** The same of the fields of t from i on and those of u from k on. */
  predicate LacksFrom(t: LType, i: nat, u: LType, k: nat)
    requires t.Submessage? && u.Submessage? && i <= |t.fields| && k <= |u.fields|
    decreases t, 0, |t.fields| - i
  {
    if i == |t.fields| then k == |u.fields|
    else if Kept(t, i, u, k) then
      t.fields[i].htype == u.fields[k].htype && Lacks(t.fields[i].ltype, u.fields[k].ltype) && LacksFrom(t, i + 1, u, k + 1)
    else Absent(t.fields[i].tag, u.fields) && LacksFrom(t, i + 1, u, k)
  }

  /** What the struct is to the other descriptor. */
  function Narrowed(t: LType, u: LType, v: Datum): Datum
    requires Lacks(t, u) && Shaped(t, v)
    decreases t, 1, 0
  {
    if t.Submessage? then Message(NarrowedFrom(t, v.slots, 0, u, 0)) else v
  }

  function NarrowedFrom(t: LType, m: seq<Slot>, i: nat, u: LType, k: nat): (r: seq<Slot>)
    requires t.Submessage? && u.Submessage? && i <= |t.fields| && k <= |u.fields|
    requires LacksFrom(t, i, u, k) && Shaped(t, Message(m))
    ensures |r| == |u.fields| - k
    decreases t, 0, |t.fields| - i
  {
    if i == |t.fields| then []
    else if Kept(t, i, u, k) then
      [NarrowedSlot(t.fields[i], u.fields[k], m[i])] + NarrowedFrom(t, m, i + 1, u, k + 1)
    else NarrowedFrom(t, m, i + 1, u, k)
  }

  function NarrowedSlot(f: Field, g: Field, s: Slot): Slot
    requires f.htype == g.htype && Lacks(f.ltype, g.ltype) && ShapedSlot(f, s)
    decreases f, 0, 0
  {
    match s
    case One(v) => One(Narrowed(f.ltype, g.ltype, v))
    case Maybe(has, v) => Maybe(has, Narrowed(f.ltype, g.ltype, v))
    case Many(items) => Many(seq(|items|, i requires 0 <= i < |items| => Narrowed(f.ltype, g.ltype, items[i])))
    case Branch(chosen) => Branch(if chosen.None? then None else Some(Narrowed(f.ltype, g.ltype, chosen.value)))
  }

  lemma {:induction false} NarrowedIsShaped(t: LType, u: LType, v: Datum)
    requires Lacks(t, u) && Shaped(t, v)
    ensures Shaped(u, Narrowed(t, u, v))
    decreases t, 1, 0
  {
    if t.Submessage? {
      FromIsShaped(t, v.slots, 0, u, 0);
    }
  }

  /** The group of a branch that is chosen. */
  predicate Chosen(f: Field, s: Slot, group: nat) {
    f.htype == Oneof(group) && s.Branch? && s.chosen.Some?
  }

  lemma {:induction false} FromIsShaped(t: LType, m: seq<Slot>, i: nat, u: LType, k: nat)
    requires t.Submessage? && u.Submessage? && i <= |t.fields| && k <= |u.fields|
    requires LacksFrom(t, i, u, k) && Shaped(t, Message(m))
    ensures var r, fields := NarrowedFrom(t, m, i, u, k), u.fields[k..];
            && (forall j :: 0 <= j < |r| ==> ShapedSlot(fields[j], r[j])) && OneBranch(fields, r)
            && forall j, group :: 0 <= j < |r| && Chosen(fields[j], r[j], group) ==>
                 exists l :: i <= l < |t.fields| && Chosen(t.fields[l], m[l], group)
    decreases t, 0, |t.fields| - i
  {
    hide Shaped, ShapedSlot, OneBranch, Chosen;
    ShapedParts(t, m);
    if i < |t.fields| {
      if Kept(t, i, u, k) {
        SlotIsShaped(t.fields[i], u.fields[k], m[i]);
        FromIsShaped(t, m, i + 1, u, k + 1);
        var s, rest := NarrowedSlot(t.fields[i], u.fields[k], m[i]), NarrowedFrom(t, m, i + 1, u, k + 1);
        assert u.fields[k..] == [u.fields[k]] + u.fields[k + 1..];
        OneMoreBranch(t, m, i, u.fields[k], s, u.fields[k + 1..], rest);
      } else {
        FromIsShaped(t, m, i + 1, u, k);
      }
    } else {
      NoBranches(u.fields[k..]);
    }
  }

  lemma NoBranches(fields: seq<Field>)
    requires fields == []
    ensures OneBranch(fields, [])
  {
  }

  lemma ShapedParts(t: LType, m: seq<Slot>)
    requires t.Submessage? && Shaped(t, Message(m))
    ensures |m| == |t.fields| && OneBranch(t.fields, m) && forall j :: 0 <= j < |t.fields| ==> ShapedSlot(t.fields[j], m[j])
  {
  }

  lemma SlotIsShaped(f: Field, g: Field, s: Slot)
    requires f.htype == g.htype && Lacks(f.ltype, g.ltype) && ShapedSlot(f, s)
    ensures ShapedSlot(g, NarrowedSlot(f, g, s))
    ensures forall group :: Chosen(g, NarrowedSlot(f, g, s), group) <==> Chosen(f, s, group)
    decreases f, 0, 0
  {
    match s
    case One(v) => NarrowedIsShaped(f.ltype, g.ltype, v);
    case Maybe(has, v) => NarrowedIsShaped(f.ltype, g.ltype, v);
    case Many(items) =>
      forall i | 0 <= i < |items|
        ensures Shaped(g.ltype, Narrowed(f.ltype, g.ltype, items[i]))
      {
        NarrowedIsShaped(f.ltype, g.ltype, items[i]);
      }
    case Branch(chosen) =>
      if chosen.Some? {
        NarrowedIsShaped(f.ltype, g.ltype, chosen.value);
      }
  }

  lemma ChosenOnce(t: LType, m: seq<Slot>, i: nat, group: nat)
    requires t.Submessage? && i < |t.fields| == |m| && OneBranch(t.fields, m)
    ensures forall l :: i < l < |t.fields| ==> !(Chosen(t.fields[i], m[i], group) && Chosen(t.fields[l], m[l], group))
  {
    assert forall l :: i < l < |t.fields| && t.fields[i].htype == Oneof(group) == t.fields[l].htype ==> SameGroup(t.fields[i], t.fields[l]);
  }

  lemma OneMoreBranch(t: LType, m: seq<Slot>, i: nat, g: Field, s: Slot, fields: seq<Field>, rest: seq<Slot>)
    requires t.Submessage? && i < |t.fields| == |m| && OneBranch(t.fields, m) && |fields| == |rest| && OneBranch(fields, rest)
    requires forall group :: Chosen(g, s, group) <==> Chosen(t.fields[i], m[i], group)
    requires forall j, group :: 0 <= j < |rest| && Chosen(fields[j], rest[j], group) ==>
               exists l :: i < l < |t.fields| && Chosen(t.fields[l], m[l], group)
    ensures OneBranch([g] + fields, [s] + rest)
  {
    var fs, ss := [g] + fields, [s] + rest;
    forall a, c | 0 <= a < c < |fs| && SameGroup(fs[a], fs[c])
      ensures !(ss[a].Branch? && ss[a].chosen.Some? && ss[c].Branch? && ss[c].chosen.Some?)
    {
      if a == 0 {
        ChosenOnce(t, m, i, g.htype.group);
        assert Chosen(g, s, g.htype.group) == (s.Branch? && s.chosen.Some?);
        assert Chosen(fields[c - 1], rest[c - 1], g.htype.group) == (rest[c - 1].Branch? && rest[c - 1].chosen.Some?);
      } else {
        assert SameGroup(fields[a - 1], fields[c - 1]);
      }
    }
  }

  // ---------------------------------------------------------------- what is written is a run of fields

  lemma {:induction false} VarintIsWireValue(v: nat)
    ensures IsWireValue(0, EncodeVarint(v))
    decreases v
  {
    var w := EncodeVarint(v);
    if v >= 128 {
      VarintIsWireValue(v / 128);
      var rest := EncodeVarint(v / 128);
      assert w == [(v % 128 + 128) as byte] + rest;
      assert forall i :: 1 <= i < |w| ==> w[i] == rest[i - 1];
    }
  }

  /** A written value is one of its wire type: varints, eight bytes, a length and so many bytes, four bytes. */
  lemma ValueIsWireValue(t: LType, v: Datum)
    requires Shaped(t, v) && WireValue(t, v).Some? && |WireValue(t, v).value| < TWO_32
    ensures IsWireValue(WireType(t), WireValue(t, v).value)
  {
    hide EncodeVarint, WireMessage, UpToNul;
    var w := WireValue(t, v).value;
    match t
    case Bool => VarintIsWireValue(if v.n == 0 then 0 else 1);
    case Varint(size) => VarintIsWireValue(Unsigned(Widened(size, v.n)));
    case UVarint(_) => VarintIsWireValue(v.n);
    case SVarint(_) => VarintIsWireValue(ZigZag(v.n));
    case Fixed32 => Fixed32Size(v.n);
    case Fixed64 =>
    case ByteArray(_) => PrefixedIsWireValue(v.bytes);
    case Text(_) => PrefixedIsWireValue(UpToNul(v.bytes));
    case FixedBytes(_) => PrefixedIsWireValue(v.bytes);
    case Submessage(fields) => PrefixedIsWireValue(WireMessage(t, v.slots, |fields|).value);
  }

  lemma PrefixedIsWireValue(payload: Bytes)
    requires |LengthPrefixed(payload)| < TWO_32
    ensures IsWireValue(2, LengthPrefixed(payload))
  {
    hide EncodeVarint;
  }

  lemma OneOther(fields: seq<Field>, tag: nat, wireType: nat, value: Bytes)
    requires OtherField(fields, tag, wireType, value)
    ensures Others(fields, EncodeVarint(tag * 8 + wireType) + value)
  {
    hide EncodeVarint, OtherField;
    var nothing: Bytes := [];
    assert value + nothing == value;
    var w := EncodeVarint(tag * 8 + wireType) + value;
    KeyIsNotEmpty(tag * 8 + wireType);
    assert w == EncodeVarint(tag * 8 + wireType) + (value + nothing) && |nothing| < |w| && Others(fields, nothing);
  }

  lemma KeyIsNotEmpty(key: nat)
    ensures |EncodeVarint(key)| > 0
  {
  }

  lemma {:induction false} OthersJoin(fields: seq<Field>, a: Bytes, c: Bytes)
    requires Others(fields, a) && Others(fields, c)
    ensures Others(fields, a + c)
    decreases |a|
  {
    hide EncodeVarint, OtherField;
    if a == [] {
      assert a + c == c;
    } else {
      var tag: nat, wireType: nat, value: Bytes, rest: Bytes :|
        a == EncodeVarint(tag * 8 + wireType) + (value + rest) && |rest| < |a|
        && OtherField(fields, tag, wireType, value) && Others(fields, rest);
      OthersJoin(fields, rest, c);
      assert a + c == EncodeVarint(tag * 8 + wireType) + (value + (rest + c));
    }
  }

  /** A field that is written is, to a descriptor without its tag, a run of other fields. */
  lemma WrittenIsOthers(fields: seq<Field>, f: Field, s: Slot)
    requires GoodField(f) && Absent(f.tag, fields) && ShapedSlot(f, s)
    requires WireSlot(f, s).Some? && |WireSlot(f, s).value| < TWO_32
    ensures Others(fields, WireSlot(f, s).value)
  {
    hide WireTagged, WirePacked, WireRepeated, Others, Prefixed, Key, Shaped, GoodType, IsZero, Packable;
    NoOthers(fields);
    match f.htype
    case Required => TaggedIsOther(fields, f, s.value);
    case Optional =>
      if s.has {
        TaggedIsOther(fields, f, s.value);
      }
    case Singular =>
      if !IsZero(f.ltype, s.value) {
        TaggedIsOther(fields, f, s.value);
      }
    case Oneof(_) =>
      if s.chosen.Some? {
        TaggedIsOther(fields, f, s.chosen.value);
      }
    case Repeated(_) =>
      if s.items == [] {
      } else if Packable(f.ltype) {
        PackedIsOther(fields, f, s.items);
      } else {
        RepeatedIsOthers(fields, f, s.items, |s.items|);
      }
  }

  lemma NoOthers(fields: seq<Field>)
    ensures Others(fields, [])
  {
  }

  lemma TaggedIsOther(fields: seq<Field>, f: Field, v: Datum)
    requires 0 < f.tag < 0x2000_0000 && Absent(f.tag, fields) && Shaped(f.ltype, v)
    requires WireTagged(f, v).Some? && |WireTagged(f, v).value| < TWO_32
    ensures Others(fields, WireTagged(f, v).value)
  {
    hide EncodeVarint, WireValue, WireType, IsWireValue, Others, Shaped;
    ValueIsWireValue(f.ltype, v);
    WireTypeBound(f.ltype);
    OneOther(fields, f.tag, WireType(f.ltype), WireValue(f.ltype, v).value);
  }

  lemma PackedIsOther(fields: seq<Field>, f: Field, items: seq<Datum>)
    requires 0 < f.tag < 0x2000_0000 && Absent(f.tag, fields) && forall i :: 0 <= i < |items| ==> Shaped(f.ltype, items[i])
    requires var w := Joined(Some(Key(f.tag, WT_STRING)), Prefixed(WirePacked(f.ltype, items, |items|)));
             w.Some? && |w.value| < TWO_32
    ensures Others(fields, Joined(Some(Key(f.tag, WT_STRING)), Prefixed(WirePacked(f.ltype, items, |items|))).value)
  {
    hide EncodeVarint, WirePacked, IsWireValue, Others, Shaped, LengthPrefixed;
    var payload := WirePacked(f.ltype, items, |items|).value;
    PrefixedIsWireValue(payload);
    OneOther(fields, f.tag, 2, LengthPrefixed(payload));
  }

  lemma {:induction false} RepeatedIsOthers(fields: seq<Field>, f: Field, items: seq<Datum>, n: nat)
    requires 0 < f.tag < 0x2000_0000 && Absent(f.tag, fields) && n <= |items|
    requires forall i :: 0 <= i < |items| ==> Shaped(f.ltype, items[i])
    requires var w := WireRepeated(f.ltype, f.tag, items, n); w.Some? && |w.value| < TWO_32
    ensures Others(fields, WireRepeated(f.ltype, f.tag, items, n).value)
    decreases n
  {
    hide WireValue, WireType, Key, Others, Shaped;
    NoOthers(fields);
    if n > 0 {
      RepeatedIsOthers(fields, f, items, n - 1);
      TaggedIsOther(fields, f, items[n - 1]);
      OthersJoin(fields, WireRepeated(f.ltype, f.tag, items, n - 1).value, WireTagged(f, items[n - 1]).value);
    }
  }

  /** The wire type of the format for what a field holds: 0 for varints, 1 and 5 for words of eight and four bytes, 2
      for what has a length, arrays of numbers among them. */
  function KindOnWire(f: Field): nat {
    match f.ltype
    case Bool | Varint(_) | UVarint(_) | SVarint(_) => if f.htype.Repeated? then 2 else 0
    case Fixed64 => if f.htype.Repeated? then 2 else 1
    case Fixed32 => if f.htype.Repeated? then 2 else 5
    case ByteArray(_) | Text(_) | FixedBytes(_) | Submessage(_) => 2
  }

  /** A field that is written begins with the varint of eight times its tag and its wire type; for tags up to 15 that
      is one byte. */
  lemma FieldBegins(f: Field, s: Slot)
    requires GoodField(f) && ShapedSlot(f, s) && WireSlot(f, s).Some? && WireSlot(f, s).value != []
    ensures EncodeVarint(8 * f.tag + KindOnWire(f)) <= WireSlot(f, s).value
    ensures f.tag < 16 ==> WireSlot(f, s).value[0] as int == 8 * f.tag + KindOnWire(f)
  {
    hide WirePacked, WireRepeated, Prefixed, WireValue, Shaped, GoodType, IsZero;
    if f.htype.Repeated? && !Packable(f.ltype) {
      ItemsBegin(f, s.items, |s.items|);
    }
  }

  /** What is not written: options that are not set, branches that are not chosen, arrays without items. Required
      fields are always written. */
  lemma NothingIsWritten(f: Field, s: Slot)
    requires GoodField(f) && ShapedSlot(f, s) && !f.htype.Singular?
    ensures f.htype.Required? ==> WireSlot(f, s) != Some([])
    ensures f.htype.Optional? ==> (WireSlot(f, s) == Some([]) <==> !s.has)
    ensures f.htype.Oneof? ==> (WireSlot(f, s) == Some([]) <==> s.chosen.None?)
    ensures f.htype.Repeated? ==> (WireSlot(f, s) == Some([]) <==> s.items == [])
  {
    hide WirePacked, WireRepeated, Prefixed, WireValue, GoodType, EncodeVarint, Shaped;
    if f.htype.Repeated? && s.items != [] && !Packable(f.ltype) && WireSlot(f, s).Some? {
      ItemsBegin(f, s.items, |s.items|);
    }
  }

  /** In fields without a flag 0 and what is empty is not written, and everything else is. */
  lemma ZeroIsNotWritten(f: Field, s: Slot)
    requires GoodField(f) && ShapedSlot(f, s) && f.htype.Singular?
    ensures s.value.Number? ==> (WireSlot(f, s) == Some([]) <==> s.value.n == 0)
    ensures s.value.Data? && f.ltype.ByteArray? ==> (WireSlot(f, s) == Some([]) <==> s.value.bytes == [])
    ensures s.value.Data? && f.ltype.Text? ==> (WireSlot(f, s) == Some([]) <==> |s.value.bytes| > 0 && s.value.bytes[0] == 0)
  {
    hide WireValue, EncodeVarint;
  }

  lemma {:induction false} ItemsBegin(f: Field, items: seq<Datum>, n: nat)
    requires 0 < n <= |items| && forall i :: 0 <= i < |items| ==> Shaped(f.ltype, items[i])
    requires WireRepeated(f.ltype, f.tag, items, n).Some?
    ensures Key(f.tag, WireType(f.ltype)) <= WireRepeated(f.ltype, f.tag, items, n).value
  {
    hide Key, WireType, WireValue, Shaped;
    if n > 1 {
      ItemsBegin(f, items, n - 1);
    }
  }

  // ---------------------------------------------------------------- what is written encodes what is narrowed

  ghost predicate AllUnset(fields: seq<Field>, slots: seq<Slot>) {
    |slots| == |fields| && forall j :: 0 <= j < |fields| ==> ShapedSlot(fields[j], slots[j]) && IsUnset(fields[j], slots[j])
  }

  lemma ZeroMeans(t: LType, m: seq<Slot>)
    requires t.Submessage? && Shaped(t, Message(m))
    ensures IsZero(t, Message(m)) <==> AllUnset(t.fields, m)
  {
    hide ShapedSlot, IsUnset;
  }

  lemma {:induction false} ZeroStaysZero(t: LType, u: LType, v: Datum)
    requires Lacks(t, u) && Shaped(t, v) && IsZero(t, v)
    ensures Shaped(u, Narrowed(t, u, v)) && IsZero(u, Narrowed(t, u, v))
    decreases t, 1, 0
  {
    NarrowedIsShaped(t, u, v);
    if t.Submessage? {
      ZeroMeans(t, v.slots);
      UnsetStayUnset(t, v.slots, 0, u, 0);
      assert u.fields[0..] == u.fields;
      ZeroMeans(u, NarrowedFrom(t, v.slots, 0, u, 0));
    }
  }

  lemma {:induction false} UnsetStayUnset(t: LType, m: seq<Slot>, i: nat, u: LType, k: nat)
    requires t.Submessage? && u.Submessage? && i <= |t.fields| && k <= |u.fields|
    requires LacksFrom(t, i, u, k) && Shaped(t, Message(m)) && AllUnset(t.fields, m)
    ensures AllUnset(u.fields[k..], NarrowedFrom(t, m, i, u, k))
    decreases t, 0, |t.fields| - i
  {
    hide Shaped, ShapedSlot, IsUnset, NarrowedSlot;
    if i < |t.fields| {
      if Kept(t, i, u, k) {
        UnsetStaysUnset(t.fields[i], u.fields[k], m[i]);
        UnsetStayUnset(t, m, i + 1, u, k + 1);
        assert u.fields[k..] == [u.fields[k]] + u.fields[k + 1..];
      } else {
        UnsetStayUnset(t, m, i + 1, u, k);
      }
    }
  }

  lemma UnsetStaysUnset(f: Field, g: Field, s: Slot)
    requires f.htype == g.htype && Lacks(f.ltype, g.ltype) && ShapedSlot(f, s) && IsUnset(f, s)
    ensures var z := NarrowedSlot(f, g, s); ShapedSlot(g, z) && IsUnset(g, z)
    decreases f, 0, 0
  {
    SlotIsShaped(f, g, s);
    if f.htype.Singular? {
      ZeroStaysZero(f.ltype, g.ltype, s.value);
    }
  }

  lemma SameKind(t: LType, u: LType)
    requires Lacks(t, u)
    ensures WireType(t) == WireType(u) && Packable(t) == Packable(u) && t.Submessage? == u.Submessage? && (!t.Submessage? ==> t == u)
  {
  }

  lemma {:induction false} ValueEncodes(t: LType, u: LType, v: Datum)
    requires GoodType(t) && Lacks(t, u) && Shaped(t, v) && WireValue(t, v).Some? && |WireValue(t, v).value| < TWO_32
    ensures Shaped(u, Narrowed(t, u, v)) && Encodes(u, Narrowed(t, u, v), WireValue(t, v).value)
    decreases t, 4, 0
  {
    NarrowedIsShaped(t, u, v);
    if t.Submessage? {
      hide Shaped, GoodType, WireMessage, EncodesFrom, NarrowedFrom, EncodeVarint;
      MessageEncodes(t, v.slots, u);
    }
  }

  lemma {:induction false} MessageEncodes(t: LType, m: seq<Slot>, u: LType)
    requires t.Submessage? && u.Submessage? && GoodType(t) && Lacks(t, u) && Shaped(t, Message(m))
    requires WireMessage(t, m, |t.fields|).Some? && |WireMessage(t, m, |t.fields|).value| < TWO_32
    ensures var n := NarrowedFrom(t, m, 0, u, 0);
            Shaped(u, Message(n)) && EncodesFrom(u, n, 0, WireMessage(t, m, |t.fields|).value)
    decreases t, 3, 0
  {
    NarrowedIsShaped(t, u, Message(m));
    hide Shaped, GoodType, EncodesFrom, LacksFrom;
    WireOfNone(t, m);
    var n := NarrowedFrom(t, m, 0, u, 0);
    assert n[0..] == n;
    var rest := RestEncodes(t, m, 0, u, n, 0);
    assert [] + rest == rest;
  }

  /** What is written from field i on encodes what the other descriptor has from k on. */
  lemma {:induction false} RestEncodes(t: LType, m: seq<Slot>, i: nat, u: LType, n: seq<Slot>, k: nat) returns (rest: Bytes)
    requires t.Submessage? && u.Submessage? && GoodType(t) && i <= |t.fields| && k <= |u.fields|
    requires LacksFrom(t, i, u, k) && Shaped(t, Message(m)) && Shaped(u, Message(n)) && |n| == |u.fields|
    requires n[k..] == NarrowedFrom(t, m, i, u, k)
    requires WireMessage(t, m, |t.fields|).Some? && |WireMessage(t, m, |t.fields|).value| < TWO_32
    ensures WireMessage(t, m, i).Some? && WireMessage(t, m, |t.fields|).value == WireMessage(t, m, i).value + rest
    ensures EncodesFrom(u, n, k, rest)
    decreases t, 2, |t.fields| - i
  {
    hide Shaped, GoodType, WireMessage, EncodesFrom, WireSlot;
    if i == |t.fields| {
      rest := [];
      NothingEncodesNothing(u, n);
    } else {
      OneMoreField(t, m, i);
      ShapedParts(t, m);
      GoodParts(t, i);
      var f := t.fields[i];
      if Kept(t, i, u, k) {
        assert n[k] == n[k..][0] && n[k + 1..] == n[k..][1..];
        var behind := RestEncodes(t, m, i + 1, u, n, k + 1);
        var r := WireSlot(f, m[i]).value;
        rest := r + behind;
        assert WireMessage(t, m, i).value + r + behind == WireMessage(t, m, i).value + rest;
        SlotEncodes(u.fields, f, u.fields[k], m[i]);
        FieldInFront(u, n, k, r, behind);
      } else {
        var behind := RestEncodes(t, m, i + 1, u, n, k);
        var r := WireSlot(f, m[i]).value;
        rest := r + behind;
        assert WireMessage(t, m, i).value + r + behind == WireMessage(t, m, i).value + rest;
        WrittenIsOthers(u.fields, f, m[i]);
        OthersInFront(u, n, k, r, behind);
      }
    }
  }

  lemma GoodParts(t: LType, i: nat)
    requires t.Submessage? && GoodType(t) && i < |t.fields|
    ensures GoodField(t.fields[i])
  {
  }

  lemma NothingEncodesNothing(u: LType, n: seq<Slot>)
    requires u.Submessage? && Shaped(u, Message(n))
    ensures EncodesFrom(u, n, |u.fields|, [])
  {
  }

  lemma FieldInFront(u: LType, n: seq<Slot>, k: nat, r: Bytes, rest: Bytes)
    requires u.Submessage? && Shaped(u, Message(n)) && k < |u.fields| && ShapedSlot(u.fields[k], n[k])
    requires EncodesSlot(u.fields, u.fields[k], n[k], r) && EncodesFrom(u, n, k + 1, rest)
    ensures EncodesFrom(u, n, k, r + rest)
  {
    hide Shaped, EncodesSlot;
    NoOthers(u.fields);
    assert [] + (r + rest) == r + rest;
  }

  lemma OthersInFront(u: LType, n: seq<Slot>, k: nat, w: Bytes, rest: Bytes)
    requires u.Submessage? && Shaped(u, Message(n)) && k <= |u.fields| && Others(u.fields, w) && EncodesFrom(u, n, k, rest)
    ensures EncodesFrom(u, n, k, w + rest)
  {
    hide EncodesSlot, Others;
    if k == |u.fields| {
      OthersJoin(u.fields, w, rest);
    } else {
      var others, r, behind :|
        && rest == others + (r + behind) && Others(u.fields, others)
        && EncodesSlot(u.fields, u.fields[k], n[k], r) && EncodesFrom(u, n, k + 1, behind);
      OthersJoin(u.fields, w, others);
      assert w + rest == (w + others) + (r + behind);
    }
  }

  lemma SlotEncodes(fields: seq<Field>, f: Field, g: Field, s: Slot)
    requires GoodField(f) && f.tag == g.tag && f.htype == g.htype && Lacks(f.ltype, g.ltype) && ShapedSlot(f, s)
    requires WireSlot(f, s).Some? && |WireSlot(f, s).value| < TWO_32
    ensures ShapedSlot(g, NarrowedSlot(f, g, s)) && EncodesSlot(fields, g, NarrowedSlot(f, g, s), WireSlot(f, s).value)
    decreases f, 5, 0
  {
    SlotIsShaped(f, g, s);
    hide WireTagged, WirePacked, WireRepeated, Prefixed, Key, Shaped, GoodType, IsZero, EncodesTagged, EncodesItems, Lacks, Narrowed, Packable;
    match f.htype
    case Required => TaggedEncodes(f, g, s.value);
    case Optional =>
      if s.has {
        TaggedEncodes(f, g, s.value);
      }
    case Singular =>
      if IsZero(f.ltype, s.value) {
        ZeroStaysZero(f.ltype, g.ltype, s.value);
      } else {
        TaggedEncodes(f, g, s.value);
      }
    case Oneof(_) =>
      if s.chosen.Some? {
        TaggedEncodes(f, g, s.chosen.value);
      }
    case Repeated(_) =>
      if s.items != [] {
        ArrayEncodes(fields, f, g, s.items);
      }
  }

  lemma TaggedEncodes(f: Field, g: Field, v: Datum)
    requires f.tag == g.tag && Lacks(f.ltype, g.ltype) && GoodType(f.ltype) && Shaped(f.ltype, v)
    requires WireTagged(f, v).Some? && |WireTagged(f, v).value| < TWO_32
    ensures Shaped(g.ltype, Narrowed(f.ltype, g.ltype, v))
    ensures EncodesTagged(g, Narrowed(f.ltype, g.ltype, v), WireTagged(f, v).value)
    decreases f.ltype, 5, 0
  {
    SameKind(f.ltype, g.ltype);
    hide Shaped, WireValue, WireType, Key, Encodes, GoodType, Lacks, Narrowed;
    ValueEncodes(f.ltype, g.ltype, v);
  }

  lemma ArrayEncodes(fields: seq<Field>, f: Field, g: Field, items: seq<Datum>)
    requires GoodType(f.ltype) && f.tag == g.tag && f.htype == g.htype && Lacks(f.ltype, g.ltype)
    requires f.htype.Repeated? && ShapedSlot(f, Many(items)) && items != []
    requires WireSlot(f, Many(items)).Some? && |WireSlot(f, Many(items)).value| < TWO_32
    ensures ShapedSlot(g, NarrowedSlot(f, g, Many(items)))
    ensures EncodesSlot(fields, g, NarrowedSlot(f, g, Many(items)), WireSlot(f, Many(items)).value)
    decreases f.ltype, 7, 0
  {
    SlotIsShaped(f, g, Many(items));
    SameKind(f.ltype, g.ltype);
    var n := NarrowedSlot(f, g, Many(items)).items;
    if Packable(f.ltype) {
      assert n == items;
    } else {
      hide Shaped, GoodType, Lacks, Narrowed, EncodesItems, WireRepeated, Packable;
      RepeatedNone(f, items);
      var rest := ItemsEncode(fields, f, g, items, n, 0);
      assert [] + rest == rest;
    }
  }

  lemma RepeatedNone(f: Field, items: seq<Datum>)
    requires forall i :: 0 <= i < |items| ==> Shaped(f.ltype, items[i])
    ensures WireRepeated(f.ltype, f.tag, items, 0) == Some([])
  {
  }

  lemma OneMoreItem(f: Field, items: seq<Datum>, k: nat)
    requires k < |items| && forall i :: 0 <= i < |items| ==> Shaped(f.ltype, items[i])
    ensures WireRepeated(f.ltype, f.tag, items, k + 1) == Joined(WireRepeated(f.ltype, f.tag, items, k), WireTagged(f, items[k]))
  {
  }

  lemma {:induction false} ItemsEncode(fields: seq<Field>, f: Field, g: Field, items: seq<Datum>, n: seq<Datum>, k: nat)
    returns (rest: Bytes)
    requires GoodType(f.ltype) && f.tag == g.tag && Lacks(f.ltype, g.ltype) && k <= |items| == |n|
    requires forall i :: 0 <= i < |items| ==> Shaped(f.ltype, items[i])
    requires forall i :: 0 <= i < |n| ==> Shaped(g.ltype, n[i]) && n[i] == Narrowed(f.ltype, g.ltype, items[i])
    requires var w := WireRepeated(f.ltype, f.tag, items, |items|); w.Some? && |w.value| < TWO_32
    ensures WireRepeated(f.ltype, f.tag, items, k).Some?
    ensures WireRepeated(f.ltype, f.tag, items, |items|).value == WireRepeated(f.ltype, f.tag, items, k).value + rest
    ensures EncodesItems(fields, g, n, k, rest)
    decreases f.ltype, 6, |items| - k
  {
    hide Shaped, GoodType, WireRepeated, WireTagged, EncodesTagged, Narrowed, Lacks, Others;
    if k == |items| {
      rest := [];
    } else {
      var behind := ItemsEncode(fields, f, g, items, n, k + 1);
      OneMoreItem(f, items, k);
      var r := WireTagged(f, items[k]).value;
      rest := r + behind;
      assert WireRepeated(f.ltype, f.tag, items, k).value + r + behind == WireRepeated(f.ltype, f.tag, items, k).value + rest;
      TaggedEncodes(f, g, items[k]);
      NoOthers(fields);
      assert rest == [] + (r + behind);
    }
  }

  // ---------------------------------------------------------------- whole messages

  /** A reader whose descriptor lacks some of the writer's fields, at any depth, skips them and reads the others: what
      was written, in fewer than 2^32 bytes, reads as the narrowed struct, up to the contents of unset fields, unless
      some string that the reader looks at is not terminated; then decoding fails. */
  lemma NarrowerReads(t: LType, u: LType, m: seq<Slot>)
    requires t.Submessage? && u.Submessage? && GoodType(t) && GoodType(u) && Lacks(t, u) && Shaped(t, Message(m))
    requires WireMessage(t, m, |t.fields|).Some? && |WireMessage(t, m, |t.fields|).value| < TWO_32
    ensures var n := Narrowed(t, u, Message(m));
            var r := DecodeMessage(u, WireMessage(t, m, |t.fields|).value);
            && Shaped(u, n) && (r.Some? <==> Readable(u, n))
            && (r.Some? ==> SameDatum(u, n, Message(r.value)))
  {
    hide WireMessage, DecodeFields, Shaped, GoodType, Readable, SameDatum, EncodesFrom;
    MessageEncodes(t, m, u);
    EncodingReads(u, NarrowedFrom(t, m, 0, u, 0), WireMessage(t, m, |t.fields|).value);
  }

  lemma {:induction false} LacksNothing(t: LType, v: Datum)
    requires GoodType(t) && Shaped(t, v)
    ensures Lacks(t, t) && Narrowed(t, t, v) == v
    decreases t, 1, 0
  {
    if t.Submessage? {
      NoneLacking(t, v.slots, 0);
      assert v.slots[0..] == v.slots;
    }
  }

  lemma {:induction false} NoneLacking(t: LType, m: seq<Slot>, i: nat)
    requires t.Submessage? && GoodType(t) && Shaped(t, Message(m)) && i <= |t.fields|
    ensures LacksFrom(t, i, t, i) && NarrowedFrom(t, m, i, t, i) == m[i..]
    decreases t, 0, |t.fields| - i
  {
    if i < |t.fields| {
      NoneLacking(t, m, i + 1);
      SlotLacksNothing(t.fields[i], m[i]);
    }
  }

  lemma SlotLacksNothing(f: Field, s: Slot)
    requires GoodField(f) && ShapedSlot(f, s)
    ensures Lacks(f.ltype, f.ltype) && NarrowedSlot(f, f, s) == s
    decreases f, 0, 0
  {
    BlankIsShaped(f.ltype);
    LacksNothing(f.ltype, Blank(f.ltype));
    match s
    case One(v) => LacksNothing(f.ltype, v);
    case Maybe(has, v) => LacksNothing(f.ltype, v);
    case Many(items) =>
      forall i | 0 <= i < |items|
        ensures Narrowed(f.ltype, f.ltype, items[i]) == items[i]
      {
        LacksNothing(f.ltype, items[i]);
      }
    case Branch(chosen) =>
      if chosen.Some? {
        LacksNothing(f.ltype, chosen.value);
      }
  }

  /** For a descriptor of the generator's kind and a struct that can be encoded, in fewer than 2^32 bytes: decoding
      gives the struct back up to the contents of unset fields, unless some string that was written is not terminated;
      then decoding fails. */
  lemma RoundTrip(t: LType, m: seq<Slot>)
    requires t.Submessage? && GoodType(t) && Shaped(t, Message(m))
    requires WireMessage(t, m, |t.fields|).Some? && |WireMessage(t, m, |t.fields|).value| < TWO_32
    ensures var r := DecodeMessage(t, WireMessage(t, m, |t.fields|).value);
            && (r.Some? <==> Readable(t, Message(m)))
            && (r.Some? ==> SameDatum(t, Message(m), Message(r.value)))
  {
    hide *;
    LacksNothing(t, Message(m));
    NarrowerReads(t, t, m);
  }

  /** A string of one character in an array of one: it is encoded, but not decoded. */
  lemma UnterminatedIsLost()
    ensures var t := Submessage([Field(1, Text(1), Required, Data([0]))]);
            var m := [One(Data([65]))];
            && GoodType(t) && Shaped(t, Message(m)) && WireMessage(t, m, 1) == Some([0x0a, 0x01, 0x41])
            && DecodeMessage(t, [0x0a, 0x01, 0x41]) == None
  {
    var f := Field(1, Text(1), Required, Data([0]));
    var t, m := Submessage([f]), [One(Data([65]))];
    assert GoodField(f) && ShapedSlot(f, m[0]);
    assert UpToNul([65]) == [65];
    assert Key(1, 2) == [0x0a] && LengthPrefixed([65]) == [0x01, 0x41];
    assert WireValue(Text(1), Data([65])) == Some([0x01, 0x41]);
    assert [0x0a] + [0x01, 0x41] == [0x0a, 0x01, 0x41];
    assert WireTagged(f, Data([65])) == Some([0x0a, 0x01, 0x41]);
    WireOfNone(t, m);
    OneMoreField(t, m, 0);
    JoinedNothing(WireSlot(f, m[0]));
    assert !ReadableSlot(f, m[0]);
    RoundTrip(t, m);
  }

  const WORD := Field(1, Fixed32, Required, Number(0))
  const NUMBER := Field(2, UVarint(4), Optional, Number(0))

  lemma WordBytes()
    ensures GoodField(WORD) && ShapedSlot(WORD, One(Number(1)))
    ensures WireSlot(WORD, One(Number(1))) == Some([0x0d, 0x01, 0x00, 0x00, 0x00])
  {
    assert Key(1, 5) == [0x0d];
    assert WireValue(Fixed32, Number(1)) == Some([0x01, 0x00, 0x00, 0x00]);
    assert [0x0d] + [0x01, 0x00, 0x00, 0x00] == [0x0d, 0x01, 0x00, 0x00, 0x00];
    assert WireTagged(WORD, Number(1)) == Some([0x0d, 0x01, 0x00, 0x00, 0x00]);
  }

  lemma NumberBytes()
    ensures GoodField(NUMBER) && ShapedSlot(NUMBER, Maybe(true, Number(7)))
    ensures WireSlot(NUMBER, Maybe(true, Number(7))) == Some([0x10, 0x07])
  {
    assert Key(2, 0) == [0x10];
    assert WireValue(UVarint(4), Number(7)) == Some([0x07]);
    assert [0x10] + [0x07] == [0x10, 0x07];
    assert WireTagged(NUMBER, Number(7)) == Some([0x10, 0x07]);
  }

  lemma NumberIsLeft(v: Datum, w: Datum)
    requires Shaped(Submessage([WORD, NUMBER]), Message([One(v), Maybe(true, w)]))
    ensures Lacks(Submessage([WORD, NUMBER]), Submessage([NUMBER]))
    ensures Narrowed(Submessage([WORD, NUMBER]), Submessage([NUMBER]), Message([One(v), Maybe(true, w)])) == Message([Maybe(true, w)])
  {
    var t, u, m := Submessage([WORD, NUMBER]), Submessage([NUMBER]), [One(v), Maybe(true, w)];
    assert LacksFrom(t, 2, u, 1) && LacksFrom(t, 1, u, 0) && LacksFrom(t, 0, u, 0);
    assert ShapedSlot(NUMBER, m[1]) && NarrowedSlot(NUMBER, NUMBER, m[1]) == m[1];
    assert NarrowedFrom(t, m, 2, u, 1) == [];
    assert NarrowedFrom(t, m, 1, u, 0) == [m[1]] + [];
  }

  lemma ReadsSeven(slots: seq<Slot>)
    requires Shaped(Submessage([NUMBER]), Message(slots)) && Shaped(Submessage([NUMBER]), Message([Maybe(true, Number(7))]))
    requires SameDatum(Submessage([NUMBER]), Message([Maybe(true, Number(7))]), Message(slots))
    ensures slots == [Maybe(true, Number(7))]
  {
    assert SameSlot(NUMBER, Maybe(true, Number(7)), slots[0]);
  }

  lemma BothAreGood()
    ensures GoodType(Submessage([WORD, NUMBER])) && GoodType(Submessage([NUMBER]))
    ensures Shaped(Submessage([WORD, NUMBER]), Message([One(Number(1)), Maybe(true, Number(7))]))
    ensures Readable(Submessage([NUMBER]), Message([Maybe(true, Number(7))]))
  {
    WordBytes();
    NumberBytes();
    assert ReadableSlot(NUMBER, Maybe(true, Number(7)));
  }

  lemma BothBytes()
    ensures Shaped(Submessage([WORD, NUMBER]), Message([One(Number(1)), Maybe(true, Number(7))]))
    ensures WireMessage(Submessage([WORD, NUMBER]), [One(Number(1)), Maybe(true, Number(7))], 2)
            == Some([0x0d, 0x01, 0x00, 0x00, 0x00, 0x10, 0x07])
  {
    var t, m := Submessage([WORD, NUMBER]), [One(Number(1)), Maybe(true, Number(7))];
    BothAreGood();
    WordBytes();
    NumberBytes();
    hide Shaped, ShapedSlot, WireSlot, WireMessage;
    WireOfNone(t, m);
    OneMoreField(t, m, 0);
    OneMoreField(t, m, 1);
    JoinedNothing(WireSlot(WORD, m[0]));
    assert [0x0d, 0x01, 0x00, 0x00, 0x00] + [0x10, 0x07] == [0x0d, 0x01, 0x00, 0x00, 0x00, 0x10, 0x07];
  }

  /** Two fields, a word and a number, read by a reader that knows only the second. */
  lemma WordIsSkipped()
    ensures var t, u := Submessage([WORD, NUMBER]), Submessage([NUMBER]);
            var m, b := [One(Number(1)), Maybe(true, Number(7))], [0x0d, 0x01, 0x00, 0x00, 0x00, 0x10, 0x07];
            && GoodType(t) && GoodType(u) && Shaped(t, Message(m)) && WireMessage(t, m, 2) == Some(b)
            && DecodeMessage(u, b) == Some([Maybe(true, Number(7))])
  {
    var t, u, m := Submessage([WORD, NUMBER]), Submessage([NUMBER]), [One(Number(1)), Maybe(true, Number(7))];
    BothAreGood();
    BothBytes();
    NumberIsLeft(Number(1), Number(7));
    hide *;
    NarrowerReads(t, u, m);
    ReadsSeven(DecodeMessage(u, WireMessage(t, m, 2).value).value);
  }
}
