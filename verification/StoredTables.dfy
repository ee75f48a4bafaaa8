/**
 Tables in bytes: the default comparator gives index keys the shortening that Tables asks
 for, and a block of bytes answers as the sorted entries it was built from.
 */
module StoredTables {
  import opened InternalKeys
  import opened Coding
  import opened Versions
  import opened Comparators
  import Tables
  import opened Blocks

  // ---------------------------------------------------------------- shortening with the default comparator

  /** The string at a position, if there is one. */
  ghost function StringAt(u: UserKey): (r: Option<Bytes>)
    ensures r.Some? ==> Position(r.value) == u
  {
    if s :| Position(s) == u then Some(s) else None
  }

  lemma StringIsFound(s: Bytes)
    ensures StringAt(Position(s)) == Some(s)
  {
    PositionIsOrder(s, StringAt(Position(s)).value);
  }

  ghost function ShortSeparator(a: UserKey, b: UserKey): UserKey {
    if StringAt(a).Some? && StringAt(b).Some? then Position(Separator(StringAt(a).value, StringAt(b).value)) else a
  }

  ghost function ShortSuccessor(a: UserKey): UserKey {
    if StringAt(a).Some? then Position(Successor(StringAt(a).value)) else a
  }

  ghost predicate ShorterString(a: UserKey, b: UserKey) {
    StringAt(a).Some? && StringAt(b).Some? && |StringAt(b).value| < |StringAt(a).value|
  }

  /** What BytewiseComparator offers an index. */
  ghost function Bytewise(): Tables.Shortening {
    Tables.Shortening((a, b) => ShortSeparator(a, b), a => ShortSuccessor(a), (a, b) => ShorterString(a, b))
  }

  lemma {:induction false} SeparatorOfSame(s: Bytes)
    ensures Separator(s, s) == s
  {
    if s != [] {
      SeparatorOfSame(s[1..]);
    }
  }

  lemma {:induction false} SeparatorLies(start: Bytes, limit: Bytes)
    requires Position(start) < Position(limit)
    ensures Position(start) <= Position(Separator(start, limit)) < Position(limit)
  {
    var n := DifferAt(start, limit);
    SeparatorFound(start, limit, n);
  }

  /** Where two strings part, or where one of them ends. */
  lemma {:induction false} DifferAt(a: Bytes, b: Bytes) returns (n: nat)
    ensures n <= |a| && n <= |b| && a[..n] == b[..n] && (n < |a| && n < |b| ==> a[n] != b[n])
  {
    n := 0;
    while n < |a| && n < |b| && a[n] == b[n]
      invariant n <= |a| && n <= |b| && a[..n] == b[..n]
      decreases |a| - n
    {
      n := n + 1;
    }
  }

  lemma {:induction false} SuccessorLies(key: Bytes)
    ensures Position(key) <= Position(Successor(key))
  {
    if key != [] && key[0] == 255 {
      SuccessorLies(key[1..]);
    } else if key != [] {
      assert FirstBelow255(key, 0);
      SuccessorFound(key, 0);
    }
  }

  /** So the theorems about index keys hold of the default comparator. */
  lemma BytewiseShortens()
    ensures Tables.GoodShortening(Bytewise())
  {
    hide Position, Separator, Successor;
    var c := Bytewise();
    forall a, b: UserKey | a < b
      ensures a <= c.separator(a, b) < b
    {
      if StringAt(a).Some? && StringAt(b).Some? {
        SeparatorLies(StringAt(a).value, StringAt(b).value);
      }
    }
    forall a: UserKey
      ensures c.separator(a, a) == a
    {
      if StringAt(a).Some? {
        SeparatorOfSame(StringAt(a).value);
      }
    }
    forall a: UserKey
      ensures a <= c.successor(a)
    {
      if StringAt(a).Some? {
        SuccessorLies(StringAt(a).value);
      }
    }
  }

  /** And on strings it is what the comparator's own functions compute. */
  lemma BytewiseIsTheComparator(start: Bytes, limit: Bytes)
    ensures Bytewise().separator(Position(start), Position(limit)) == Position(Separator(start, limit))
    ensures Bytewise().successor(Position(start)) == Position(Successor(start))
    ensures Bytewise().shorter(Position(start), Position(limit)) <==> |limit| < |start|
  {
    StringIsFound(start);
    StringIsFound(limit);
  }

  // ---------------------------------------------------------------- blocks of internal keys

  /** An entry whose user key is a string. */
  datatype Stored = Stored(userKey: Bytes, sn: nat, kind: ValueType, value: Bytes)

  function AsEntry(x: Stored): Entry {
    Entry(Position(x.userKey), x.sn, x.kind, x.value)
  }

  function AsEntries(block: seq<Stored>): seq<Entry> {
    seq(|block|, i requires 0 <= i < |block| => AsEntry(block[i]))
  }

  lemma TagFits(sn: nat, kind: ValueType)
    requires sn <= MAX_SEQUENCE
    ensures Pack(sn, kind) < TWO_64
  {
  }

  /** AppendInternalKey: the user key and eight bytes of tag. */
  function InternalBytes(userKey: Bytes, sn: nat, kind: ValueType): Bytes
    requires sn <= MAX_SEQUENCE
  {
    TagFits(sn, kind);
    userKey + EncodeFixed64(Pack(sn, kind))
  }

  function AsKeyValue(x: Stored): KeyValue
    requires x.sn <= MAX_SEQUENCE
  {
    KeyValue(InternalBytes(x.userKey, x.sn, x.kind), x.value)
  }

  ghost predicate Storable(block: seq<Stored>) {
    forall i :: 0 <= i < |block| ==> block[i].sn <= MAX_SEQUENCE
  }

  function AsKeyValues(block: seq<Stored>): seq<KeyValue>
    requires Storable(block)
  {
    seq(|block|, i requires 0 <= i < |block| => AsKeyValue(block[i]))
  }

  /** InternalKeyComparator on encoded keys; keys without a tag are not compared. */
  predicate InternalLess(a: Bytes, b: Bytes) {
    && |a| >= 8 && |b| >= 8
    && var x, y := Position(a[..|a| - 8]), Position(b[..|b| - 8]);
       x < y || (x == y && DecodeFixed64(a[|a| - 8..]) > DecodeFixed64(b[|b| - 8..]))
  }

  lemma InternalParts(userKey: Bytes, sn: nat, kind: ValueType)
    requires sn <= MAX_SEQUENCE
    ensures var b := InternalBytes(userKey, sn, kind);
            |b| == |userKey| + 8 && b[..|b| - 8] == userKey && DecodeFixed64(b[|b| - 8..]) == Pack(sn, kind)
  {
    hide EncodeFixed64, DecodeFixed64;
    TagFits(sn, kind);
    var tag := EncodeFixed64(Pack(sn, kind));
    Fixed64RoundTrip(Pack(sn, kind), []);
    assert tag + [] == tag;
  }

  /** Encoded keys compare as the internal keys they encode. */
  lemma OrderIsKept(a: Bytes, sn: nat, kind: ValueType, b: Bytes, tn: nat, tind: ValueType)
    requires sn <= MAX_SEQUENCE && tn <= MAX_SEQUENCE
    ensures InternalLess(InternalBytes(a, sn, kind), InternalBytes(b, tn, tind))
            <==> Less(IKey(Position(a), sn, kind), IKey(Position(b), tn, tind))
  {
    InternalParts(a, sn, kind);
    InternalParts(b, tn, tind);
    CompareIsLess(IKey(Position(a), sn, kind), IKey(Position(b), tn, tind));
    hide InternalBytes, Position, DecodeFixed64;
  }

  lemma InternalIsTransitive()
    ensures Transitive((a, b) => InternalLess(a, b))
  {
    hide Position, DecodeFixed64;
  }

  lemma SortedRises(block: seq<Stored>)
    requires Storable(block) && Sorted(AsEntries(block))
    ensures Rising((a, b) => InternalLess(a, b), AsKeyValues(block))
  {
    hide InternalLess;
    var kvs := AsKeyValues(block);
    forall i, j | 0 <= i < j < |kvs|
      ensures InternalLess(kvs[i].key, kvs[j].key)
    {
      assert Precedes(AsEntries(block)[i], AsEntries(block)[j]);
      OrderIsKept(block[i].userKey, block[i].sn, block[i].kind, block[j].userKey, block[j].sn, block[j].kind);
    }
  }

  /** A place found by comparing bytes is the place found by comparing entries. */
  lemma SamePlace(block: seq<Stored>, userKey: Bytes, sn: nat, kind: ValueType, i: nat)
    requires Storable(block) && Sorted(AsEntries(block)) && sn <= MAX_SEQUENCE
    requires IsSeekPlace((a, b) => InternalLess(a, b), AsKeyValues(block), InternalBytes(userKey, sn, kind), i)
    ensures IsSeekPosition(AsEntries(block), IKey(Position(userKey), sn, kind), i)
  {
    hide InternalLess, InternalBytes, Position;
    var kvs, target := AsKeyValues(block), IKey(Position(userKey), sn, kind);
    forall j | 0 <= j < |block|
      ensures InternalLess(kvs[j].key, InternalBytes(userKey, sn, kind)) <==> Less(AsEntries(block)[j].IK(), target)
    {
      OrderIsKept(block[j].userKey, block[j].sn, block[j].kind, userKey, sn, kind);
    }
  }

  /** The bytes of a block, at most: 15 for an entry's three numbers, and the offsets before them. */
  function Room(block: seq<Stored>): nat {
    if block == [] then 0
    else Room(block[..|block| - 1]) + |block[|block| - 1].userKey| + 8 + |block[|block| - 1].value| + 15
  }

  lemma {:induction false} RoomGrows(block: seq<Stored>, i: nat, j: nat)
    requires i <= j <= |block|
    ensures Room(block[..i]) <= Room(block[..j])
    decreases j
  {
    if i < j {
      RoomGrows(block, i, j - 1);
      assert block[..j][..j - 1] == block[..j - 1];
    }
  }

  lemma {:induction false} RoomBound(block: seq<Stored>)
    ensures 2 * |block| <= Room(block)
  {
    if block != [] {
      RoomBound(block[..|block| - 1]);
    }
  }

  /** The builder makes the block of these entries. */
  method BuildBlock(block: seq<Stored>, interval: nat) returns (data: Bytes, ghost end: nat, ghost l: Layout)
    requires Storable(block) && interval >= 1 && Room(block) < TWO_32
    ensures GoodBlock(data, end, l) && l.entries == AsKeyValues(block) && |data| <= 3 * Room(block) + 8
  {
    hide GoodBlock, InternalBytes, BuilderOk;
    var builder := new BlockBuilder(interval);
    assert AsKeyValues(block[..0]) == [];
    RoomBound(block);
    for i := 0 to |block|
      invariant builder.Valid() && !builder.finished && builder.layout.entries == AsKeyValues(block[..i])
      invariant |builder.buffer| <= Room(block[..i]) && |builder.restarts| <= i + 1
    {
      RoomGrows(block, i + 1, |block|);
      assert block[..i + 1][..i] == block[..i] && block[..|block|] == block;
      var kv := AsKeyValue(block[i]);
      InternalParts(block[i].userKey, block[i].sn, block[i].kind);
      builder.Add(kv.key, kv.value);
      assert AsKeyValues(block[..i + 1]) == AsKeyValues(block[..i]) + [kv];
    }
    assert block[..|block|] == block;
    end := |builder.buffer|;
    data, l := builder.Finish();
  }

  /** A block of bytes answers as its entries do: looked up for an internal key, it hands over the entry a search of
      the sorted entries would find, or none if that finds none. */
  method SeekBlock(data: Bytes, ghost end: nat, ghost l: Layout, ghost block: seq<Stored>, userKey: Bytes, sn: nat, kind: ValueType)
    returns (found: Option<KeyValue>)
    requires Storable(block) && Sorted(AsEntries(block)) && sn <= MAX_SEQUENCE
    requires GoodBlock(data, end, l) && l.entries == AsKeyValues(block)
    ensures exists i: nat :: IsSeekPosition(AsEntries(block), IKey(Position(userKey), sn, kind), i)
                        && found == if i < |block| then Some(AsKeyValue(block[i])) else None
  {
    hide GoodBlock, InternalLess, InternalBytes, Position, Transitive, Rising, IsSeekPlace, IsSeekPosition;
    var less := (a, b) => InternalLess(a, b);
    InternalIsTransitive();
    SortedRises(block);
    var it := new BlockIter(less, data, end, l);
    it.Seek(InternalBytes(userKey, sn, kind));
    SamePlace(block, userKey, sn, kind, it.at);
    BlockShape(it.data, it.restarts, it.layout, it.at);
    found := None;
    if it.current < it.restarts {
      found := Some(KeyValue(it.key, it.data[it.valueAt..it.valueAt + it.valueSize]));
    }
  }
}
