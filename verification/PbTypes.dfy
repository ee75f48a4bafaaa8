/**
 Message descriptors and message structs of nanopb (pb.h), and the iterator that both the
 encoder and the decoder walk them with (pb_common.c).

 Fields are static: no callbacks, extensions, pointers or arrays of a fixed count. A struct is
 its fields' contents, without offsets and padding.
 */
module PbTypes {
  import opened InternalKeys
  import opened Coding

  /** What a field holds; sizes are those of the C object, in bytes. */
  datatype LType =
    | Bool
    | Varint(size: nat)
    | UVarint(size: nat)
    | SVarint(size: nat)
    | Fixed32
    | Fixed64
    | ByteArray(max: nat)
    | Text(size: nat)                       // char[size], ended by a 0 if there is one
    | Submessage(fields: seq<Field>)
    | FixedBytes(size: nat)

  /** Singular is an optional field without a has-flag; the members of a oneof share a group. */
  datatype HType = Required | Optional | Singular | Repeated(max: nat) | Oneof(group: nat)

  /** initial is what an unset field that is not a message holds. */
  datatype Field = Field(tag: nat, ltype: LType, htype: HType, initial: Datum)

  datatype Datum = Number(n: int) | Data(bytes: Bytes) | Message(slots: seq<Slot>)

  /** A branch of a oneof is chosen if the group's which-field has its tag. */
  datatype Slot = One(value: Datum) | Maybe(has: bool, value: Datum) | Many(items: seq<Datum>) | Branch(chosen: Option<Datum>)

  // ---------------------------------------------------------------- numbers of a C type

  /** One more than the largest unsigned number of that many bytes; 0 for sizes no integer type has. */
  function Range(size: nat): nat {
    if size == 1 then 0x100 else if size == 2 then 0x1_0000 else if size == 4 then TWO_32 else if size == 8 then TWO_64 else 0
  }

  predicate InSigned(size: nat, n: int) {
    -(Range(size) / 2) <= n < Range(size) / 2
  }

  predicate InUnsigned(size: nat, n: int) {
    0 <= n < Range(size)
  }

  // ---------------------------------------------------------------- structs of a descriptor

  /** The struct has the C type the descriptor says. */
  predicate Shaped(t: LType, v: Datum)
    decreases t
  {
    match t
    case Bool => v.Number? && InUnsigned(1, v.n)
    case Varint(size) => v.Number? && InSigned(size, v.n)
    case UVarint(size) => v.Number? && InUnsigned(size, v.n)
    case SVarint(size) => v.Number? && InSigned(size, v.n)
    case Fixed32 => v.Number? && InUnsigned(4, v.n)
    case Fixed64 => v.Number? && InUnsigned(8, v.n)
    case ByteArray(_) => v.Data?
    case Text(size) => v.Data? && |v.bytes| == size
    case FixedBytes(size) => v.Data? && |v.bytes| == size
    case Submessage(fields) =>
      && v.Message? && |v.slots| == |fields|
      && (forall i :: 0 <= i < |fields| ==> ShapedSlot(fields[i], v.slots[i]))
      && OneBranch(fields, v.slots)
  }

  predicate ShapedSlot(f: Field, s: Slot)
    decreases f
  {
    match f.htype
    case Required => s.One? && Shaped(f.ltype, s.value)
    case Singular => s.One? && Shaped(f.ltype, s.value)
    case Optional => s.Maybe? && Shaped(f.ltype, s.value)
    case Repeated(_) => s.Many? && forall i :: 0 <= i < |s.items| ==> Shaped(f.ltype, s.items[i])
    case Oneof(_) => s.Branch? && (s.chosen.Some? ==> Shaped(f.ltype, s.chosen.value))
  }

  predicate SameGroup(f: Field, g: Field) {
    f.htype.Oneof? && g.htype == f.htype
  }

  /** A group has one which-field. */
  predicate OneBranch(fields: seq<Field>, slots: seq<Slot>)
    requires |slots| == |fields|
  {
    forall i, j :: 0 <= i < j < |fields| && SameGroup(fields[i], fields[j])
                   ==> !(slots[i].Branch? && slots[i].chosen.Some? && slots[j].Branch? && slots[j].chosen.Some?)
  }

  /** What the generator emits: integer types exist, tags are distinct and take 29 bits, a string has room for its end,
      defaults have the field's type, and those of fields without a flag are zero. */
  predicate GoodType(t: LType)
    decreases t
  {
    match t
    case Varint(size) => Range(size) > 0
    case UVarint(size) => Range(size) > 0
    case SVarint(size) => Range(size) > 0
    case Text(size) => size > 0
    case Submessage(fields) => (forall i :: 0 <= i < |fields| ==> GoodField(fields[i])) && DistinctTags(fields)
    case _ => true
  }

  predicate GoodField(f: Field)
    decreases f
  {
    && 0 < f.tag < 0x2000_0000 && GoodType(f.ltype)
    && (!f.ltype.Submessage? ==> Shaped(f.ltype, f.initial))
    && (!f.ltype.Submessage? && !f.ltype.FixedBytes? && f.htype.Singular? ==> IsZero(f.ltype, f.initial))
  }

  predicate DistinctTags(fields: seq<Field>) {
    forall i, j :: 0 <= i < j < |fields| ==> fields[i].tag != fields[j].tag
  }

  // ---------------------------------------------------------------- the contents of unset fields

  function Zeros(n: nat): (r: Bytes)
    ensures |r| == n && forall i :: 0 <= i < n ==> r[i] == 0
  {
    seq(n, _ => 0)
  }

  /** Memory that has been cleared. */
  function Blank(t: LType): (r: Datum)
    decreases t
  {
    match t
    case Bool | Varint(_) | UVarint(_) | SVarint(_) | Fixed32 | Fixed64 => Number(0)
    case ByteArray(_) => Data([])
    case Text(size) => Data(Zeros(size))
    case FixedBytes(size) => Data(Zeros(size))
    case Submessage(fields) => Message(DefaultSlots(t, |fields|))
  }

  /** pb_field_set_to_default. */
  function DefaultSlot(f: Field): Slot
    decreases f
  {
    var value := if f.ltype.Submessage? then Blank(f.ltype) else f.initial;
    match f.htype
    case Required => One(value)
    case Singular => One(value)
    case Optional => Maybe(false, value)
    case Repeated(_) => Many([])
    case Oneof(_) => Branch(None)
  }

  /** pb_message_set_to_defaults, for the first n fields. */
  function DefaultSlots(t: LType, n: nat): (r: seq<Slot>)
    requires t.Submessage? && n <= |t.fields|
    ensures |r| == n && forall i :: 0 <= i < n ==> r[i] == DefaultSlot(t.fields[i])
    decreases t, n
  {
    if n == 0 then [] else DefaultSlots(t, n - 1) + [DefaultSlot(t.fields[n - 1])]
  }

  lemma BlankIsShaped(t: LType)
    requires GoodType(t)
    ensures Shaped(t, Blank(t))
    decreases t
  {
    if t.Submessage? {
      forall i | 0 <= i < |t.fields|
        ensures ShapedSlot(t.fields[i], DefaultSlot(t.fields[i]))
      {
        DefaultIsShaped(t.fields[i]);
      }
      assert forall i :: 0 <= i < |t.fields| && t.fields[i].htype.Oneof? ==> DefaultSlot(t.fields[i]) == Branch(None);
    }
  }

  lemma DefaultIsShaped(f: Field)
    requires GoodField(f)
    ensures ShapedSlot(f, DefaultSlot(f))
    decreases f
  {
    if f.ltype.Submessage? {
      BlankIsShaped(f.ltype);
    }
  }

  // ---------------------------------------------------------------- equal up to unset fields

  /** The characters before the first 0, or all of them. */
  function UpToNul(b: Bytes): (r: Bytes)
    ensures |r| <= |b| && r == b[..|r|] && (|r| < |b| ==> b[|r|] == 0) && 0 !in r
  {
    if b == [] || b[0] == 0 then [] else [b[0]] + UpToNul(b[1..])
  }

  predicate Terminated(b: Bytes) {
    |UpToNul(b)| < |b|
  }

  predicate SameDatum(t: LType, a: Datum, b: Datum)
    requires Shaped(t, a) && Shaped(t, b)
    decreases t
  {
    match t
    case Bool => a.n == 0 <==> b.n == 0
    case Text(_) => UpToNul(a.bytes) == UpToNul(b.bytes)
    case Submessage(fields) => forall i :: 0 <= i < |fields| ==> SameSlot(fields[i], a.slots[i], b.slots[i])
    case _ => a == b
  }

  predicate SameSlot(f: Field, a: Slot, b: Slot)
    requires ShapedSlot(f, a) && ShapedSlot(f, b)
    decreases f
  {
    match f.htype
    case Required => SameDatum(f.ltype, a.value, b.value)
    case Singular => SameDatum(f.ltype, a.value, b.value)
    case Optional => a.has == b.has && (a.has ==> SameDatum(f.ltype, a.value, b.value))
    case Repeated(_) => |a.items| == |b.items| && forall i :: 0 <= i < |a.items| ==> SameDatum(f.ltype, a.items[i], b.items[i])
    case Oneof(_) => a.chosen.Some? == b.chosen.Some? && (a.chosen.Some? ==> SameDatum(f.ltype, a.chosen.value, b.chosen.value))
  }

  // ---------------------------------------------------------------- proto3's zero test

  /** pb_check_proto3_default_value, for the contents of a field without a flag. */
  predicate IsZero(t: LType, v: Datum)
    requires Shaped(t, v)
    decreases t
  {
    match t
    case ByteArray(_) => v.bytes == []
    case Text(_) => UpToNul(v.bytes) == []
    case FixedBytes(size) => size == 0
    case Submessage(fields) => forall i :: 0 <= i < |fields| ==> IsUnset(fields[i], v.slots[i])
    case _ => v.n == 0
  }

  predicate IsUnset(f: Field, s: Slot)
    requires ShapedSlot(f, s)
    decreases f
  {
    match f.htype
    case Required => false
    case Repeated(_) => s.items == []
    case Oneof(_) => s.chosen.None?
    case Optional => !s.has
    case Singular => IsZero(f.ltype, s.value)
  }

  /** Leaving out a field without a flag loses nothing: what counts as zero is what an unset field holds. */
  lemma ZeroIsDefault(t: LType, v: Datum, initial: Datum)
    requires GoodType(t) && Shaped(t, v) && IsZero(t, v)
    requires if t.Submessage? then initial == Blank(t) else Shaped(t, initial) && IsZero(t, initial)
    ensures Shaped(t, initial) && SameDatum(t, v, initial)
    decreases t
  {
    if t.Submessage? {
      BlankIsShaped(t);
      forall i | 0 <= i < |t.fields|
        ensures SameSlot(t.fields[i], v.slots[i], initial.slots[i])
      {
        UnsetIsDefault(t.fields[i], v.slots[i]);
      }
    }
  }

  lemma UnsetIsDefault(f: Field, s: Slot)
    requires GoodField(f) && ShapedSlot(f, s) && IsUnset(f, s)
    ensures ShapedSlot(f, DefaultSlot(f)) && SameSlot(f, s, DefaultSlot(f))
    decreases f
  {
    DefaultIsShaped(f);
    if f.htype.Singular? {
      ZeroIsDefault(f.ltype, s.value, if f.ltype.Submessage? then Blank(f.ltype) else f.initial);
    }
  }

  // ---------------------------------------------------------------- pb_field_iter_t

  function RequiredBefore(fields: seq<Field>, n: nat): (r: nat)
    requires n <= |fields|
    ensures r <= n
  {
    if n == 0 then 0 else RequiredBefore(fields, n - 1) + if fields[n - 1].htype.Required? then 1 else 0
  }

  /** Walks the fields in a circle. In an empty message it stands on the terminator, whose tag is 0. */
  class FieldIter {
    const fields: seq<Field>
    var pos: nat
    var requiredFieldIndex: nat

    ghost predicate Valid()
      reads this
    {
      pos <= |fields| && (fields != [] ==> pos < |fields|) && requiredFieldIndex == RequiredBefore(fields, pos)
    }

    function Tag(): nat
      requires Valid()
      reads this
    {
      if pos < |fields| then fields[pos].tag else 0
    }

    /** pb_field_iter_begin. */
    constructor (fields: seq<Field>)
      ensures this.fields == fields && Valid() && pos == 0
    {
      this.fields := fields;
      pos, requiredFieldIndex := 0, 0;
    }

    /** To the next field, or back to the first one. */
    method Next() returns (more: bool)
      requires Valid()
      modifies this
      ensures Valid() && more == (old(pos) + 1 < |fields|)
      ensures pos == if more then old(pos) + 1 else 0
    {
      if pos == |fields| {
        return false;
      }
      if pos + 1 == |fields| {
        pos, requiredFieldIndex := 0, 0;
        return false;
      }
      if fields[pos].htype.Required? {
        requiredFieldIndex := requiredFieldIndex + 1;
      }
      pos := pos + 1;
      more := true;
    }

    /** From wherever the iterator stands, the search goes round once. */
    method Find(tag: nat) returns (found: bool)
      requires Valid()
      modifies this
      ensures Valid()
      ensures found ==> Tag() == tag
      ensures !found ==> pos == old(pos) && (fields == [] ==> tag != 0) && forall i :: 0 <= i < |fields| ==> fields[i].tag != tag
    {
      var start := pos;
      ghost var wrapped := false;
      while true
        invariant Valid() && (if wrapped then pos < start else start <= pos)
        invariant forall i :: 0 <= i < |fields| && (start <= i < pos || (wrapped && (i < pos || start <= i))) ==> fields[i].tag != tag
        decreases if wrapped then start - pos else |fields| - pos + start
      {
        if Tag() == tag {
          return true;
        }
        var more := Next();
        wrapped := wrapped || !more;
        if pos == start {
          return false;
        }
      }
    }

    /** The number of required fields, counted by going on to the last field. */
    method CountRequired() returns (count: nat)
      requires Valid()
      modifies this
      ensures Valid() && count == RequiredBefore(fields, |fields|)
    {
      var last := pos;
      count := requiredFieldIndex;
      var more := Next();
      while more
        invariant Valid() && 0 <= last <= |fields| && count == RequiredBefore(fields, last)
        invariant if more then pos == last + 1 < |fields| else last + 1 >= |fields|
        decreases more, |fields| - pos
      {
        count, last := requiredFieldIndex, pos;
        more := Next();
      }
      if last < |fields| && fields[last].htype.Required? {
        count := count + 1;
      }
    }
  }
}
