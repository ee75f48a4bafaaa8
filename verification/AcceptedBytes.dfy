/**
 Which bytes the readers of write batches and manifest records take (db/write_batch.cc,
 db/version_edit.cc): exactly those that are put together in the way the writers do it,
 except that a number may be in more bytes than it needs.
 */
module AcceptedBytes {
  import opened InternalKeys
  import opened Coding
  import WriteBatches
  import EditCodec

  // ---------------------------------------------------------------- numbers and slices

  /** The bytes from p to q are a number for the reader of 32-bit words. */
  ghost predicate WordAt(b: Bytes, p: nat, q: nat, n: nat) {
    p < q <= |b| && IsVarint(b[p..q], 5) && n == Groups(b[p..q]) % TWO_32
  }

  ghost predicate NumberAt(b: Bytes, p: nat, q: nat, n: nat) {
    p < q <= |b| && IsVarint(b[p..q], 10) && n == Groups(b[p..q]) % TWO_64
  }

  /** A slice with its length before it. */
  ghost predicate SliceAt(b: Bytes, p: nat, q: nat, s: Bytes) {
    exists m: nat :: WordAt(b, p, m, |s|) && m + |s| == q <= |b| && b[m..q] == s
  }

  lemma ReadsWord(b: Bytes, p: nat, q: nat, n: nat)
    requires p <= |b|
    ensures GetVarint32(b, p, |b|) == Some(Parsed(n, q)) <==> WordAt(b, p, q, n)
  {
    hide IsVarint, Groups, GetVarintFrom;
    VarintMeans(b, p, |b|, 0, 0, 5, TWO_32);
    Unshifted();
  }

  lemma ReadsNumber(b: Bytes, p: nat, q: nat, n: nat)
    requires p <= |b|
    ensures GetVarint64(b, p, |b|) == Some(Parsed(n, q)) <==> NumberAt(b, p, q, n)
  {
    hide IsVarint, Groups, GetVarintFrom;
    VarintMeans(b, p, |b|, 0, 0, 10, TWO_64);
    Unshifted();
  }

  lemma Unshifted()
    ensures forall v: nat :: ShiftedBy(v, 0) == v
  {
  }

  lemma ReadsSlice(b: Bytes, p: nat, q: nat, s: Bytes)
    requires p <= |b|
    ensures GetLengthPrefixed(b, p) == Some(ParsedSlice(s, q)) <==> SliceAt(b, p, q, s)
  {
    hide WordAt, GetVarint32;
    var n := GetVarint32(b, p, |b|);
    if n.Some? {
      ReadsWord(b, p, n.value.next, n.value.value);
    }
    if m: nat :| WordAt(b, p, m, |s|) && m + |s| == q <= |b| && b[m..q] == s {
      ReadsWord(b, p, m, |s|);
    }
  }

  // ---------------------------------------------------------------- write batches

  ghost predicate OpAt(b: Bytes, p: nat, q: nat, op: WriteBatches.Op) {
    p < |b| && match op
               case Put(key, value) => b[p] == 1 && exists m: nat :: m <= |b| && SliceAt(b, p + 1, m, key) && SliceAt(b, m, q, value)
               case Delete(key) => b[p] == 0 && SliceAt(b, p + 1, q, key)
  }

  ghost predicate OpsAt(b: Bytes, p: nat, ops: seq<WriteBatches.Op>)
    decreases |ops|
  {
    if ops == [] then p == |b| else exists q: nat :: OpAt(b, p, q, ops[0]) && OpsAt(b, q, ops[1..])
  }

  lemma ReadsOp(b: Bytes, p: nat, q: nat, op: WriteBatches.Op)
    requires p < |b|
    ensures WriteBatches.ParseOp(b, p) == WriteBatches.Read(op, q) <==> OpAt(b, p, q, op)
  {
    hide SliceAt, GetLengthPrefixed;
    var key := GetLengthPrefixed(b, p + 1);
    if key.Some? {
      ReadsSlice(b, p + 1, key.value.next, key.value.slice);
      var value := GetLengthPrefixed(b, key.value.next);
      if value.Some? {
        ReadsSlice(b, key.value.next, value.value.next, value.value.slice);
      }
    }
    if op.Put? {
      if m: nat :| m <= |b| && SliceAt(b, p + 1, m, op.key) && SliceAt(b, m, q, op.value) {
        ReadsSlice(b, p + 1, m, op.key);
        ReadsSlice(b, m, q, op.value);
      }
    } else {
      ReadsSlice(b, p + 1, q, op.key);
    }
  }

  lemma {:induction false} TellsOps(b: Bytes, p: nat, before: seq<WriteBatches.Op>, ops: seq<WriteBatches.Op>)
    requires WriteBatches.HEADER <= p <= |b| && OpsAt(b, p, ops)
    ensures WriteBatches.ToldFrom(b, p, before)
            == WriteBatches.Told(before + ops, if |before + ops| == WriteBatches.CountOf(b) then WriteBatches.Ok else WriteBatches.WrongCount)
    decreases |ops|
  {
    hide OpAt, WriteBatches.ParseOp, WriteBatches.CountOf;
    if ops == [] {
      assert before + ops == before;
    } else {
      var q: nat :| OpAt(b, p, q, ops[0]) && OpsAt(b, q, ops[1..]);
      OpIsInside(b, p, q, ops[0]);
      ReadsOp(b, p, q, ops[0]);
      TellsOps(b, q, before + [ops[0]], ops[1..]);
      assert before + [ops[0]] + ops[1..] == before + ops;
    }
  }

  lemma OpIsInside(b: Bytes, p: nat, q: nat, op: WriteBatches.Op)
    requires OpAt(b, p, q, op)
    ensures p < q <= |b|
  {
    hide WordAt;
    ReadsOp(b, p, q, op);
  }

  lemma {:induction false} ToldWereThere(b: Bytes, p: nat, before: seq<WriteBatches.Op>) returns (ops: seq<WriteBatches.Op>)
    requires WriteBatches.HEADER <= p <= |b| && WriteBatches.ToldFrom(b, p, before).status.Ok?
    ensures OpsAt(b, p, ops) && WriteBatches.ToldFrom(b, p, before).ops == before + ops && |before + ops| == WriteBatches.CountOf(b)
    decreases |b| - p
  {
    hide OpAt, WriteBatches.ParseOp, WriteBatches.CountOf;
    if p == |b| {
      ops := [];
      assert before + ops == before;
    } else {
      var r := WriteBatches.ParseOp(b, p);
      ReadsOp(b, p, r.next, r.op);
      var rest := ToldWereThere(b, r.next, before + [r.op]);
      ops := [r.op] + rest;
      assert ops[1..] == rest && before + [r.op] + rest == before + ops;
    }
  }

  /** Iterating over any bytes ends without an error, with these operations told, if and only if the bytes behind the
      header are these operations and the header counts them. */
  lemma BatchIsAccepted(b: Bytes, ops: seq<WriteBatches.Op>)
    ensures WriteBatches.Iterated(b) == WriteBatches.Told(ops, WriteBatches.Ok)
            <==> |b| >= 12 && |ops| < WriteBatches.TWO_31 && b[8..12] == EncodeFixed32(|ops|) && OpsAt(b, 12, ops)
  {
    hide OpsAt, WriteBatches.ToldFrom, EncodeFixed32, DecodeFixed32;
    if |b| >= 12 {
      CountIs(b, |ops|);
      if OpsAt(b, 12, ops) {
        TellsOps(b, 12, [], ops);
        assert [] + ops == ops;
      }
      if WriteBatches.ToldFrom(b, 12, []).status.Ok? {
        var there := ToldWereThere(b, 12, []);
        assert [] + there == there;
      }
    }
  }

  lemma CountIs(b: Bytes, n: nat)
    requires |b| >= 12
    ensures WriteBatches.CountOf(b) == n <==> n < WriteBatches.TWO_31 && b[8..12] == EncodeFixed32(n)
  {
    assert DecodeFixed32(b[8..]) == DecodeFixed32(b[8..12]);
    Fixed32IsUnique(b[8..12]);
    if n < TWO_32 {
      Fixed32RoundTrip(n, []);
      assert EncodeFixed32(n) + [] == EncodeFixed32(n);
    }
  }

  // ---------------------------------------------------------------- manifest records

  ghost predicate LevelAt(b: Bytes, p: nat, q: nat, level: nat) {
    WordAt(b, p, q, level) && level < 7
  }

  ghost predicate PayloadAt(b: Bytes, p: nat, q: nat, item: EditCodec.Item) {
    match item
    case Comparator(name) => SliceAt(b, p, q, name)
    case Numbered(_, n) => NumberAt(b, p, q, n)
    case CompactPointer(c) => exists m: nat :: m <= |b| && LevelAt(b, p, m, c.level) && SliceAt(b, m, q, c.key)
    case DeletedFile(d) => exists m: nat :: m <= |b| && LevelAt(b, p, m, d.level) && NumberAt(b, m, q, d.number)
    case AddedFile(f) =>
      exists m: nat :: m <= |b| && LevelAt(b, p, m, f.level) && FileAt(b, m, q, f)
  }

  ghost predicate FileAt(b: Bytes, p: nat, q: nat, f: EditCodec.NewFile) {
    exists m: nat, n: nat, k: nat ::
      && m <= |b| && n <= |b| && k <= |b| && NumberAt(b, p, m, f.number) && NumberAt(b, m, n, f.size)
      && SliceAt(b, n, k, f.smallest) && SliceAt(b, k, q, f.largest)
  }

  ghost predicate ItemAt(b: Bytes, p: nat, q: nat, item: EditCodec.Item) {
    exists m: nat :: m <= |b| && WordAt(b, p, m, EditCodec.Tag(item)) && PayloadAt(b, m, q, item)
  }

  ghost predicate ItemsAt(b: Bytes, p: nat, items: seq<EditCodec.Item>)
    decreases |items|
  {
    if items == [] then p == |b| else exists q: nat :: q <= |b| && ItemAt(b, p, q, items[0]) && ItemsAt(b, q, items[1..])
  }

  lemma ReadsLevel(b: Bytes, p: nat, q: nat, level: nat)
    requires p <= |b|
    ensures EditCodec.GetLevel(b, p) == Some(Parsed(level, q)) <==> LevelAt(b, p, q, level)
  {
    hide WordAt, GetVarint32;
    ReadsWord(b, p, q, level);
  }

  lemma ReadsPointer(b: Bytes, p: nat, q: nat, c: EditCodec.Pointer)
    requires p <= |b|
    ensures EditCodec.GetPointer(b, p) == Some(EditCodec.ParsedItem(EditCodec.CompactPointer(c), q))
            <==> PayloadAt(b, p, q, EditCodec.CompactPointer(c))
  {
    hide LevelAt, SliceAt, NumberAt, EditCodec.GetLevel, GetLengthPrefixed;
    var level := EditCodec.GetLevel(b, p);
    if level.Some? {
      ReadsLevel(b, p, level.value.next, level.value.value);
      ReadsSlice(b, level.value.next, q, c.key);
    }
    if m: nat :| m <= |b| && LevelAt(b, p, m, c.level) && SliceAt(b, m, q, c.key) {
      ReadsLevel(b, p, m, c.level);
      ReadsSlice(b, m, q, c.key);
    }
  }

  lemma ReadsDeleted(b: Bytes, p: nat, q: nat, d: EditCodec.Deleted)
    requires p <= |b|
    ensures EditCodec.GetDeleted(b, p) == Some(EditCodec.ParsedItem(EditCodec.DeletedFile(d), q))
            <==> PayloadAt(b, p, q, EditCodec.DeletedFile(d))
  {
    hide LevelAt, SliceAt, NumberAt, EditCodec.GetLevel, GetVarint64;
    var level := EditCodec.GetLevel(b, p);
    if level.Some? {
      ReadsLevel(b, p, level.value.next, level.value.value);
      ReadsNumber(b, level.value.next, q, d.number);
    }
    if m: nat :| m <= |b| && LevelAt(b, p, m, d.level) && NumberAt(b, m, q, d.number) {
      ReadsLevel(b, p, m, d.level);
      ReadsNumber(b, m, q, d.number);
    }
  }

  lemma FileReads(b: Bytes, p: nat, q: nat, f: EditCodec.NewFile)
    requires p <= |b| && PayloadAt(b, p, q, EditCodec.AddedFile(f))
    ensures EditCodec.GetNewFile(b, p) == Some(EditCodec.ParsedItem(EditCodec.AddedFile(f), q))
  {
    hide LevelAt, SliceAt, NumberAt, EditCodec.GetLevel, GetVarint64, GetLengthPrefixed;
    var l: nat :| l <= |b| && LevelAt(b, p, l, f.level) && FileAt(b, l, q, f);
    var m: nat, n: nat, k: nat :|
      && m <= |b| && n <= |b| && k <= |b| && NumberAt(b, l, m, f.number) && NumberAt(b, m, n, f.size)
      && SliceAt(b, n, k, f.smallest) && SliceAt(b, k, q, f.largest);
    ReadsLevel(b, p, l, f.level);
    ReadsNumber(b, l, m, f.number);
    ReadsNumber(b, m, n, f.size);
    ReadsSlice(b, n, k, f.smallest);
    ReadsSlice(b, k, q, f.largest);
  }

  lemma ReadFileIsThere(b: Bytes, p: nat)
    requires p <= |b| && EditCodec.GetNewFile(b, p).Some?
    ensures EditCodec.GetNewFile(b, p).value.item.AddedFile?
    ensures PayloadAt(b, p, EditCodec.GetNewFile(b, p).value.next, EditCodec.GetNewFile(b, p).value.item)
  {
    hide LevelAt, SliceAt, NumberAt, EditCodec.GetLevel, GetVarint64, GetLengthPrefixed;
    var level := EditCodec.GetLevel(b, p).value;
    var number := GetVarint64(b, level.next, |b|).value;
    var size := GetVarint64(b, number.next, |b|).value;
    var smallest := GetLengthPrefixed(b, size.next).value;
    var largest := GetLengthPrefixed(b, smallest.next).value;
    ReadsLevel(b, p, level.next, level.value);
    ReadsNumber(b, level.next, number.next, number.value);
    ReadsNumber(b, number.next, size.next, size.value);
    ReadsSlice(b, size.next, smallest.next, smallest.slice);
    ReadsSlice(b, smallest.next, largest.next, largest.slice);
    assert FileAt(b, level.next, largest.next, EditCodec.GetNewFile(b, p).value.item.file);
  }

  lemma ReadsFile(b: Bytes, p: nat, q: nat, f: EditCodec.NewFile)
    requires p <= |b|
    ensures EditCodec.GetNewFile(b, p) == Some(EditCodec.ParsedItem(EditCodec.AddedFile(f), q))
            <==> PayloadAt(b, p, q, EditCodec.AddedFile(f))
  {
    hide PayloadAt, EditCodec.GetNewFile;
    if PayloadAt(b, p, q, EditCodec.AddedFile(f)) {
      FileReads(b, p, q, f);
    }
    if EditCodec.GetNewFile(b, p).Some? {
      ReadFileIsThere(b, p);
    }
  }

  lemma ReadsPayload(b: Bytes, p: nat, q: nat, item: EditCodec.Item)
    requires p <= |b|
    ensures EditCodec.GetPayload(b, p, EditCodec.Tag(item)) == Some(EditCodec.ParsedItem(item, q)) <==> PayloadAt(b, p, q, item)
  {
    hide PayloadAt, SliceAt, NumberAt, EditCodec.GetPointer, EditCodec.GetDeleted, EditCodec.GetNewFile, GetLengthPrefixed, GetVarint64;
    match item
    case Comparator(name) => ReadsSlice(b, p, q, name); SimplePayload(b, p, q, item);
    case Numbered(_, n) => ReadsNumber(b, p, q, n); SimplePayload(b, p, q, item);
    case CompactPointer(c) => ReadsPointer(b, p, q, c);
    case DeletedFile(d) => ReadsDeleted(b, p, q, d);
    case AddedFile(f) => ReadsFile(b, p, q, f);
  }

  lemma SimplePayload(b: Bytes, p: nat, q: nat, item: EditCodec.Item)
    ensures item.Comparator? ==> (PayloadAt(b, p, q, item) <==> SliceAt(b, p, q, item.name))
    ensures item.Numbered? ==> (PayloadAt(b, p, q, item) <==> NumberAt(b, p, q, item.number))
  {
  }

  /** What is read carries the tag it was read for. */
  lemma TagOfPayload(b: Bytes, p: nat, tag: nat)
    requires p <= |b|
    ensures var r := EditCodec.GetPayload(b, p, tag); r.Some? ==> EditCodec.Tag(r.value.item) == tag
  {
    hide GetLengthPrefixed, GetVarint64, EditCodec.GetLevel;
  }

  lemma ItemIsRead(b: Bytes, p: nat, q: nat, item: EditCodec.Item)
    requires p <= |b| && ItemAt(b, p, q, item)
    ensures p < q <= |b|
    ensures var tag := GetVarint32(b, p, |b|);
            tag.Some? && EditCodec.GetPayload(b, tag.value.next, tag.value.value) == Some(EditCodec.ParsedItem(item, q))
  {
    hide WordAt, PayloadAt, GetVarint32, EditCodec.GetPayload, EditCodec.Tag;
    var m: nat :| m <= |b| && WordAt(b, p, m, EditCodec.Tag(item)) && PayloadAt(b, m, q, item);
    ReadsWord(b, p, m, EditCodec.Tag(item));
    ReadsPayload(b, m, q, item);
  }

  lemma {:induction false} ItemsAreTaken(r: EditCodec.Record, b: Bytes, p: nat, items: seq<EditCodec.Item>)
    requires p <= |b| && ItemsAt(b, p, items)
    ensures EditCodec.Decoded(r, b, p) == (EditCodec.AllTaken(r, items), true)
    decreases |items|
  {
    hide ItemAt, EditCodec.GetPayload, EditCodec.Taken, IsVarint, Groups;
    if items == [] {
      EndOfBytes(b);
    } else {
      var q: nat :| q <= |b| && ItemAt(b, p, q, items[0]) && ItemsAt(b, q, items[1..]);
      ItemIsRead(b, p, q, items[0]);
      ItemsAreTaken(EditCodec.Taken(r, items[0]), b, q, items[1..]);
      EditCodec.TakenFirst(r, items);
    }
  }

  lemma EndOfBytes(b: Bytes)
    ensures GetVarint32(b, |b|, |b|) == None
  {
  }

  lemma {:induction false} TakenWereThere(r: EditCodec.Record, b: Bytes, p: nat) returns (items: seq<EditCodec.Item>)
    requires p <= |b| && EditCodec.Decoded(r, b, p).1
    ensures ItemsAt(b, p, items) && EditCodec.Decoded(r, b, p).0 == EditCodec.AllTaken(r, items)
    decreases |b| - p
  {
    hide WordAt, PayloadAt, GetVarint32, EditCodec.GetPayload, EditCodec.Taken, EditCodec.Tag;
    var tag := GetVarint32(b, p, |b|);
    if tag.None? {
      items := [];
    } else {
      var m := tag.value.next;
      var x := EditCodec.GetPayload(b, m, tag.value.value).value;
      ReadsWord(b, p, m, tag.value.value);
      TagOfPayload(b, m, tag.value.value);
      ReadsPayload(b, m, x.next, x.item);
      assert ItemAt(b, p, x.next, x.item);
      var rest := TakenWereThere(EditCodec.Taken(r, x.item), b, x.next);
      items := [x.item] + rest;
      assert items[1..] == rest && items[0] == x.item;
      EditCodec.TakenFirst(r, items);
    }
  }

  /** A manifest record is decoded without an error if and only if its bytes are tagged items of known kinds at levels
      that exist, and what they hold is then in the edit, in their order. */
  lemma EditIsAccepted(r: EditCodec.Record, b: Bytes, after: EditCodec.Record)
    ensures EditCodec.Decoded(r, b, 0) == (after, true)
            <==> exists items :: ItemsAt(b, 0, items) && after == EditCodec.AllTaken(r, items)
  {
    hide ItemsAt, EditCodec.Decoded, EditCodec.AllTaken;
    if items: seq<EditCodec.Item> :| ItemsAt(b, 0, items) && after == EditCodec.AllTaken(r, items) {
      ItemsAreTaken(r, b, 0, items);
    }
    if EditCodec.Decoded(r, b, 0).1 {
      var items := TakenWereThere(r, b, 0);
    }
  }
}
