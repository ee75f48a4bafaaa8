/**
 Manifest records (db/version_edit.h, db/version_edit.cc): an edit is written as tagged
 fields, and read back field by field.
 */
module EditCodec {
  import opened InternalKeys
  import opened Coding

  datatype Pointer = Pointer(level: nat, key: Bytes)

  datatype Deleted = Deleted(level: nat, number: nat)

  datatype NewFile = NewFile(level: nat, number: nat, size: nat, smallest: Bytes, largest: Bytes)

  /** What an edit says; internal keys in their encoded form. */
  datatype Record = Record(
    comparator: Option<Bytes>,
    logNumber: Option<nat>,
    prevLogNumber: Option<nat>,
    nextFileNumber: Option<nat>,
    lastSequence: Option<nat>,
    compactPointers: seq<Pointer>,
    deletedFiles: set<Deleted>,
    newFiles: seq<NewFile>)

  const FRESH := Record(None, None, None, None, None, [], {}, [])

  // ---------------------------------------------------------------- one tagged field

  datatype Field = LogNumber | PrevLogNumber | NextFileNumber | LastSequence

  datatype Item =
    | Comparator(name: Bytes)
    | Numbered(field: Field, number: nat)
    | CompactPointer(pointer: Pointer)
    | DeletedFile(deleted: Deleted)
    | AddedFile(file: NewFile)

  function Tag(item: Item): nat {
    match item
    case Comparator(_) => 1
    case Numbered(LogNumber, _) => 2
    case Numbered(NextFileNumber, _) => 3
    case Numbered(LastSequence, _) => 4
    case CompactPointer(_) => 5
    case DeletedFile(_) => 6
    case AddedFile(_) => 7
    case Numbered(PrevLogNumber, _) => 9
  }

  function Payload(item: Item): Bytes {
    match item
    case Comparator(name) => LengthPrefixed(name)
    case Numbered(_, n) => EncodeVarint(n)
    case CompactPointer(c) => EncodeVarint(c.level) + LengthPrefixed(c.key)
    case DeletedFile(d) => EncodeVarint(d.level) + EncodeVarint(d.number)
    case AddedFile(f) =>
      EncodeVarint(f.level) + (EncodeVarint(f.number) + (EncodeVarint(f.size)
      + (LengthPrefixed(f.smallest) + LengthPrefixed(f.largest))))
  }

  function Encoded(item: Item): Bytes {
    EncodeVarint(Tag(item)) + Payload(item)
  }

  /** Levels exist, numbers take 64 bits, and lengths 32. */
  predicate Fits(item: Item) {
    match item
    case Comparator(name) => |name| < TWO_32
    case Numbered(_, n) => n < TWO_64
    case CompactPointer(c) => c.level < NUM_LEVELS && |c.key| < TWO_32
    case DeletedFile(d) => d.level < NUM_LEVELS && d.number < TWO_64
    case AddedFile(f) =>
      f.level < NUM_LEVELS && f.number < TWO_64 && f.size < TWO_64 && |f.smallest| < TWO_32 && |f.largest| < TWO_32
  }

  datatype ParsedItem = ParsedItem(item: Item, next: nat)

  function GetLevel(b: Bytes, p: nat): (r: Option<Parsed>)
    ensures r.Some? ==> p < r.value.next <= |b|
  {
    var v := GetVarint32(b, p, |b|);
    if v.Some? && v.value.value < NUM_LEVELS then v else None
  }

  function GetNumber(b: Bytes, p: nat, field: Field): (r: Option<ParsedItem>)
    ensures r.Some? ==> p < r.value.next <= |b|
  {
    var v := GetVarint64(b, p, |b|);
    if v.None? then None else Some(ParsedItem(Numbered(field, v.value.value), v.value.next))
  }

  /** The field after a tag; None is an error. */
  function GetPayload(b: Bytes, p: nat, tag: nat): (r: Option<ParsedItem>)
    ensures r.Some? ==> p < r.value.next <= |b|
  {
    if tag == 1 then
      var s := GetLengthPrefixed(b, p);
      if s.None? then None else Some(ParsedItem(Comparator(s.value.slice), s.value.next))
    else if tag == 2 then GetNumber(b, p, LogNumber)
    else if tag == 9 then GetNumber(b, p, PrevLogNumber)
    else if tag == 3 then GetNumber(b, p, NextFileNumber)
    else if tag == 4 then GetNumber(b, p, LastSequence)
    else if tag == 5 then GetPointer(b, p)
    else if tag == 6 then GetDeleted(b, p)
    else if tag == 7 then GetNewFile(b, p)
    else None
  }

  function GetPointer(b: Bytes, p: nat): (r: Option<ParsedItem>)
    ensures r.Some? ==> p < r.value.next <= |b|
  {
    var level := GetLevel(b, p);
    if level.None? then None else
    var key := GetLengthPrefixed(b, level.value.next);
    if key.None? then None else
    Some(ParsedItem(CompactPointer(Pointer(level.value.value, key.value.slice)), key.value.next))
  }

  function GetDeleted(b: Bytes, p: nat): (r: Option<ParsedItem>)
    ensures r.Some? ==> p < r.value.next <= |b|
  {
    var level := GetLevel(b, p);
    if level.None? then None else
    var number := GetVarint64(b, level.value.next, |b|);
    if number.None? then None else
    Some(ParsedItem(DeletedFile(Deleted(level.value.value, number.value.value)), number.value.next))
  }

  function GetNewFile(b: Bytes, p: nat): (r: Option<ParsedItem>)
    ensures r.Some? ==> p < r.value.next <= |b|
  {
    var level := GetLevel(b, p);
    if level.None? then None else
    var number := GetVarint64(b, level.value.next, |b|);
    if number.None? then None else
    var size := GetVarint64(b, number.value.next, |b|);
    if size.None? then None else
    var smallest := GetLengthPrefixed(b, size.value.next);
    if smallest.None? then None else
    var largest := GetLengthPrefixed(b, smallest.value.next);
    if largest.None? then None else
    Some(ParsedItem(AddedFile(NewFile(level.value.value, number.value.value, size.value.value,
                                      smallest.value.slice, largest.value.slice)), largest.value.next))
  }

  lemma NumberReads(b: Bytes, p: nat, n: nat)
    requires Holds(b, p, |b|, EncodeVarint(n))
    ensures n < TWO_64 ==> GetVarint64(b, p, |b|) == Some(Parsed(n, p + |EncodeVarint(n)|))
    ensures n < TWO_32 ==> GetVarint32(b, p, |b|) == Some(Parsed(n, p + |EncodeVarint(n)|))
  {
    VarintRoundTrip(b, p, |b|, n);
  }

  lemma SliceReads(b: Bytes, p: nat, s: Bytes)
    requires Holds(b, p, |b|, LengthPrefixed(s)) && |s| < TWO_32
    ensures GetLengthPrefixed(b, p) == Some(ParsedSlice(s, p + |LengthPrefixed(s)|))
  {
    LengthPrefixedRoundTrip(b, p, s);
  }

  /** The parts of a new file read one after the other make up the whole. */
  lemma NewFileParses(b: Bytes, p: nat, f: NewFile, p1: nat, p2: nat, p3: nat, p4: nat, p5: nat)
    requires f.level < NUM_LEVELS && GetVarint32(b, p, |b|) == Some(Parsed(f.level, p1))
    requires GetVarint64(b, p1, |b|) == Some(Parsed(f.number, p2)) && GetVarint64(b, p2, |b|) == Some(Parsed(f.size, p3))
    requires GetLengthPrefixed(b, p3) == Some(ParsedSlice(f.smallest, p4))
    requires GetLengthPrefixed(b, p4) == Some(ParsedSlice(f.largest, p5))
    ensures GetNewFile(b, p) == Some(ParsedItem(AddedFile(f), p5))
  {
    hide GetLengthPrefixed, GetVarint32, GetVarint64;
  }

  lemma NewFilePayload(f: NewFile)
    ensures Payload(AddedFile(f)) == EncodeVarint(f.level) + (EncodeVarint(f.number) + (EncodeVarint(f.size)
                                     + (LengthPrefixed(f.smallest) + LengthPrefixed(f.largest))))
    ensures Fits(AddedFile(f)) ==>
              f.level < NUM_LEVELS < TWO_32 && f.number < TWO_64 && f.size < TWO_64 && |f.smallest| < TWO_32 && |f.largest| < TWO_32
  {
    hide EncodeVarint, LengthPrefixed;
  }

  lemma NewFileReads(b: Bytes, p: nat, f: NewFile)
    requires Fits(AddedFile(f)) && Holds(b, p, |b|, Payload(AddedFile(f)))
    ensures GetNewFile(b, p) == Some(ParsedItem(AddedFile(f), p + |Payload(AddedFile(f))|))
  {
    hide *;
    NewFilePayload(f);
    var keys := LengthPrefixed(f.smallest) + LengthPrefixed(f.largest);
    var fromSize := EncodeVarint(f.size) + keys;
    var fromNumber := EncodeVarint(f.number) + fromSize;
    HoldsParts(b, p, |b|, EncodeVarint(f.level), fromNumber);
    var p1 := p + |EncodeVarint(f.level)|;
    HoldsParts(b, p1, |b|, EncodeVarint(f.number), fromSize);
    var p2 := p1 + |EncodeVarint(f.number)|;
    HoldsParts(b, p2, |b|, EncodeVarint(f.size), keys);
    var p3 := p2 + |EncodeVarint(f.size)|;
    HoldsParts(b, p3, |b|, LengthPrefixed(f.smallest), LengthPrefixed(f.largest));
    var p4 := p3 + |LengthPrefixed(f.smallest)|;
    NumberReads(b, p, f.level);
    NumberReads(b, p1, f.number);
    NumberReads(b, p2, f.size);
    SliceReads(b, p3, f.smallest);
    SliceReads(b, p4, f.largest);
    NewFileParses(b, p, f, p1, p2, p3, p4, p4 + |LengthPrefixed(f.largest)|);
  }

  lemma PointerReads(b: Bytes, p: nat, c: Pointer)
    requires Fits(CompactPointer(c)) && Holds(b, p, |b|, Payload(CompactPointer(c)))
    ensures GetPointer(b, p) == Some(ParsedItem(CompactPointer(c), p + |Payload(CompactPointer(c))|))
  {
    hide EncodeVarint, LengthPrefixed, GetLengthPrefixed, GetVarint32, GetVarint64, Holds;
    HoldsParts(b, p, |b|, EncodeVarint(c.level), LengthPrefixed(c.key));
    NumberReads(b, p, c.level);
    SliceReads(b, p + |EncodeVarint(c.level)|, c.key);
  }

  lemma DeletedReads(b: Bytes, p: nat, d: Deleted)
    requires Fits(DeletedFile(d)) && Holds(b, p, |b|, Payload(DeletedFile(d)))
    ensures GetDeleted(b, p) == Some(ParsedItem(DeletedFile(d), p + |Payload(DeletedFile(d))|))
  {
    hide EncodeVarint, LengthPrefixed, GetLengthPrefixed, GetVarint32, GetVarint64, Holds;
    HoldsParts(b, p, |b|, EncodeVarint(d.level), EncodeVarint(d.number));
    NumberReads(b, p, d.level);
    NumberReads(b, p + |EncodeVarint(d.level)|, d.number);
  }

  lemma PayloadReads(b: Bytes, p: nat, item: Item)
    requires Fits(item) && Holds(b, p, |b|, Payload(item))
    ensures GetPayload(b, p, Tag(item)) == Some(ParsedItem(item, p + |Payload(item)|))
  {
    hide EncodeVarint, LengthPrefixed, GetLengthPrefixed, GetVarint64, Holds, GetPointer, GetDeleted, GetNewFile;
    match item
    case Comparator(name) => SliceReads(b, p, name);
    case Numbered(_, n) => NumberReads(b, p, n);
    case CompactPointer(c) => PointerReads(b, p, c);
    case DeletedFile(d) => DeletedReads(b, p, d);
    case AddedFile(f) => NewFileReads(b, p, f);
  }

  /** A field that was written is read back, whatever follows it. */
  lemma ItemReads(b: Bytes, p: nat, item: Item)
    requires Fits(item) && Holds(b, p, |b|, Encoded(item))
    ensures var tag := GetVarint32(b, p, |b|);
            && tag.Some? && GetPayload(b, tag.value.next, tag.value.value) == Some(ParsedItem(item, p + |Encoded(item)|))
  {
    hide EncodeVarint, GetVarint32, GetVarint64, Holds, GetPayload, Payload, Fits;
    HoldsParts(b, p, |b|, EncodeVarint(Tag(item)), Payload(item));
    NumberReads(b, p, Tag(item));
    PayloadReads(b, p + |EncodeVarint(Tag(item))|, item);
  }

  // ---------------------------------------------------------------- whole records

  /** What reading one field does to the edit read so far. */
  function Taken(r: Record, item: Item): Record {
    match item
    case Comparator(name) => r.(comparator := Some(name))
    case Numbered(LogNumber, n) => r.(logNumber := Some(n))
    case Numbered(PrevLogNumber, n) => r.(prevLogNumber := Some(n))
    case Numbered(NextFileNumber, n) => r.(nextFileNumber := Some(n))
    case Numbered(LastSequence, n) => r.(lastSequence := Some(n))
    case CompactPointer(c) => r.(compactPointers := r.compactPointers + [c])
    case DeletedFile(d) => r.(deletedFiles := r.deletedFiles + {d})
    case AddedFile(f) => r.(newFiles := r.newFiles + [f])
  }

  function AllTaken(r: Record, items: seq<Item>): Record {
    if items == [] then r else Taken(AllTaken(r, items[..|items| - 1]), items[|items| - 1])
  }

  function AllEncoded(items: seq<Item>): Bytes {
    if items == [] then [] else AllEncoded(items[..|items| - 1]) + Encoded(items[|items| - 1])
  }

  /** The record left by the fields from p on, and whether all of them could be read. */
  function Decoded(r: Record, b: Bytes, p: nat): (Record, bool)
    requires p <= |b|
    decreases |b| - p
  {
    var tag := GetVarint32(b, p, |b|);
    if tag.None? then (r, p == |b|)
    else
      var item := GetPayload(b, tag.value.next, tag.value.value);
      if item.None? then (r, false) else Decoded(Taken(r, item.value.item), b, item.value.next)
  }

  lemma NoTagAtEnd(b: Bytes)
    ensures GetVarint32(b, |b|, |b|) == None
  {
  }

  /** Each field stands where the ones before it end. */
  lemma {:induction false} ItemIsThere(items: seq<Item>, i: nat)
    requires i < |items|
    ensures Holds(AllEncoded(items), |AllEncoded(items[..i])|, |AllEncoded(items)|, Encoded(items[i]))
    ensures |AllEncoded(items[..i + 1])| == |AllEncoded(items[..i])| + |Encoded(items[i])|
    decreases |items|
  {
    hide Encoded;
    var n := |items| - 1;
    assert items[..i + 1][..i] == items[..i];
    if i < n {
      ItemIsThere(items[..n], i);
      assert items[..n][..i] == items[..i] && items[..n][..i + 1] == items[..i + 1];
    } else {
      assert items[..i + 1] == items;
    }
  }

  lemma {:induction false} TakenFirst(r: Record, items: seq<Item>)
    requires items != []
    ensures AllTaken(r, items) == AllTaken(Taken(r, items[0]), items[1..])
    decreases |items|
  {
    hide Taken;
    var n := |items| - 1;
    if n > 0 {
      TakenFirst(r, items[..n]);
      assert items[..n][1..] == items[1..][..n - 1];
    } else {
      assert items[..0] == [] && items[1..] == [];
    }
  }

  /** Reading on from where the fields before i end. */
  lemma {:induction false} DecodesOn(items: seq<Item>, i: nat, r: Record)
    requires i <= |items| && forall k :: 0 <= k < |items| ==> Fits(items[k])
    ensures |AllEncoded(items[..i])| <= |AllEncoded(items)|
    ensures Decoded(r, AllEncoded(items), |AllEncoded(items[..i])|) == (AllTaken(r, items[i..]), true)
    decreases |items| - i
  {
    hide Encoded, Taken, Fits, GetVarint32, GetPayload, AllEncoded;
    var b, p := AllEncoded(items), |AllEncoded(items[..i])|;
    if i == |items| {
      assert items[..i] == items;
      NoTagAtEnd(b);
    } else {
      ItemIsThere(items, i);
      ItemReads(b, p, items[i]);
      DecodesOn(items, i + 1, Taken(r, items[i]));
      TakenFirst(r, items[i..]);
      assert items[i..][1..] == items[i + 1..];
    }
  }

  // ---------------------------------------------------------------- from edit to fields and back

  ghost predicate IsOrder(order: seq<Deleted>, files: set<Deleted>) {
    forall d :: d in order <==> d in files
  }

  function Number(field: Field, n: Option<nat>): seq<Item> {
    if n.Some? then [Numbered(field, n.value)] else []
  }

  function Pointers(pointers: seq<Pointer>): seq<Item> {
    seq(|pointers|, i requires 0 <= i < |pointers| => CompactPointer(pointers[i]))
  }

  function Deletions(order: seq<Deleted>): seq<Item> {
    seq(|order|, i requires 0 <= i < |order| => DeletedFile(order[i]))
  }

  function Additions(files: seq<NewFile>): seq<Item> {
    seq(|files|, i requires 0 <= i < |files| => AddedFile(files[i]))
  }

  function Named(comparator: Option<Bytes>): seq<Item> {
    if comparator.Some? then [Comparator(comparator.value)] else []
  }

  function Numbers(r: Record): seq<Item> {
    Named(r.comparator) + Number(LogNumber, r.logNumber) + Number(PrevLogNumber, r.prevLogNumber)
    + Number(NextFileNumber, r.nextFileNumber) + Number(LastSequence, r.lastSequence)
  }

  /** The fields EncodeTo writes, with deleted files in this order. */
  function Items(r: Record, order: seq<Deleted>): seq<Item> {
    Numbers(r) + Pointers(r.compactPointers) + Deletions(order) + Additions(r.newFiles)
  }

  lemma {:induction false} TakenJoins(r: Record, a: seq<Item>, b: seq<Item>)
    ensures AllTaken(r, a + b) == AllTaken(AllTaken(r, a), b)
    decreases |b|
  {
    hide Taken;
    if b == [] {
      assert a + b == a;
    } else {
      TakenJoins(r, a, b[..|b| - 1]);
      assert (a + b)[..|a + b| - 1] == a + b[..|b| - 1];
    }
  }

  /** A field more, read after the others. */
  lemma TakenLast(r: Record, items: seq<Item>, last: Item)
    ensures AllTaken(r, items + [last]) == Taken(AllTaken(r, items), last)
  {
    hide Taken;
    assert (items + [last])[..|items|] == items;
  }

  lemma {:induction false} PointersTaken(r: Record, pointers: seq<Pointer>)
    ensures AllTaken(r, Pointers(pointers)) == r.(compactPointers := r.compactPointers + pointers)
  {
    if pointers == [] {
      assert r.compactPointers + [] == r.compactPointers;
    } else {
      var n := |pointers| - 1;
      PointersTaken(r, pointers[..n]);
      TakenLast(r, Pointers(pointers[..n]), CompactPointer(pointers[n]));
      assert Pointers(pointers) == Pointers(pointers[..n]) + [CompactPointer(pointers[n])];
      hide AllTaken, Pointers;
      assert r.compactPointers + pointers == r.compactPointers + pointers[..n] + [pointers[n]];
    }
  }

  function Listed(order: seq<Deleted>): set<Deleted> {
    set d | d in order
  }

  lemma ListedLast(before: set<Deleted>, order: seq<Deleted>)
    requires order != []
    ensures var n := |order| - 1; before + Listed(order) == before + Listed(order[..n]) + {order[n]}
  {
    var n := |order| - 1;
    assert order == order[..n] + [order[n]];
  }

  lemma {:induction false} DeletionsTaken(r: Record, order: seq<Deleted>)
    ensures AllTaken(r, Deletions(order)) == r.(deletedFiles := r.deletedFiles + Listed(order))
  {
    if order == [] {
      assert r.deletedFiles + Listed([]) == r.deletedFiles;
    } else {
      var n := |order| - 1;
      DeletionsTaken(r, order[..n]);
      TakenLast(r, Deletions(order[..n]), DeletedFile(order[n]));
      assert Deletions(order) == Deletions(order[..n]) + [DeletedFile(order[n])];
      ListedLast(r.deletedFiles, order);
      hide AllTaken, Deletions, Listed;
    }
  }

  lemma {:induction false} AdditionsTaken(r: Record, files: seq<NewFile>)
    ensures AllTaken(r, Additions(files)) == r.(newFiles := r.newFiles + files)
  {
    if files == [] {
      assert r.newFiles + [] == r.newFiles;
    } else {
      var n := |files| - 1;
      AdditionsTaken(r, files[..n]);
      TakenLast(r, Additions(files[..n]), AddedFile(files[n]));
      assert Additions(files) == Additions(files[..n]) + [AddedFile(files[n])];
      hide AllTaken, Additions;
      assert r.newFiles + files == r.newFiles + files[..n] + [files[n]];
    }
  }

  function WithNumber(r: Record, field: Field, n: Option<nat>): Record {
    if n.Some? then Taken(r, Numbered(field, n.value)) else r
  }

  lemma NumberTaken(r: Record, before: seq<Item>, field: Field, n: Option<nat>)
    ensures AllTaken(r, before + Number(field, n)) == WithNumber(AllTaken(r, before), field, n)
  {
    if n.Some? {
      TakenLast(r, before, Numbered(field, n.value));
    } else {
      assert before + [] == before;
    }
  }

  lemma NamedTaken(r: Record, comparator: Option<Bytes>)
    requires r.comparator == None
    ensures AllTaken(r, Named(comparator)) == r.(comparator := comparator)
  {
    assert Named(comparator)[..0] == [];
  }

  lemma NumbersTaken(r: Record, pointers: seq<Pointer>)
    ensures AllTaken(FRESH.(compactPointers := pointers), Numbers(r))
            == r.(compactPointers := pointers, deletedFiles := {}, newFiles := [])
  {
    hide AllTaken, Number, Named;
    var s := FRESH.(compactPointers := pointers);
    var a := Named(r.comparator);
    var b := a + Number(LogNumber, r.logNumber);
    var c := b + Number(PrevLogNumber, r.prevLogNumber);
    var d := c + Number(NextFileNumber, r.nextFileNumber);
    NamedTaken(s, r.comparator);
    NumberTaken(s, a, LogNumber, r.logNumber);
    NumberTaken(s, b, PrevLogNumber, r.prevLogNumber);
    NumberTaken(s, c, NextFileNumber, r.nextFileNumber);
    NumberTaken(s, d, LastSequence, r.lastSequence);
  }

  /** The edit's own fields rebuild it, after whatever compaction pointers were there before. */
  lemma ItemsRebuild(r: Record, order: seq<Deleted>, pointers: seq<Pointer>)
    requires IsOrder(order, r.deletedFiles)
    ensures AllTaken(FRESH.(compactPointers := pointers), Items(r, order))
            == r.(compactPointers := pointers + r.compactPointers)
  {
    hide AllTaken, Numbers;
    var s0 := FRESH.(compactPointers := pointers);
    TakenJoins(s0, Numbers(r) + Pointers(r.compactPointers) + Deletions(order), Additions(r.newFiles));
    TakenJoins(s0, Numbers(r) + Pointers(r.compactPointers), Deletions(order));
    TakenJoins(s0, Numbers(r), Pointers(r.compactPointers));
    NumbersTaken(r, pointers);
    var s1 := r.(compactPointers := pointers, deletedFiles := {}, newFiles := []);
    PointersTaken(s1, r.compactPointers);
    var s2 := s1.(compactPointers := pointers + r.compactPointers);
    DeletionsTaken(s2, order);
    assert s2.deletedFiles + Listed(order) == r.deletedFiles;
    var s3 := s2.(deletedFiles := r.deletedFiles);
    AdditionsTaken(s3, r.newFiles);
    assert [] + r.newFiles == r.newFiles;
  }

  /** Levels exist, numbers take 64 bits and lengths 32, throughout. */
  ghost predicate RecordFits(r: Record) {
    && (r.comparator.Some? ==> |r.comparator.value| < TWO_32)
    && (r.logNumber.Some? ==> r.logNumber.value < TWO_64) && (r.prevLogNumber.Some? ==> r.prevLogNumber.value < TWO_64)
    && (r.nextFileNumber.Some? ==> r.nextFileNumber.value < TWO_64) && (r.lastSequence.Some? ==> r.lastSequence.value < TWO_64)
    && (forall i :: 0 <= i < |r.compactPointers| ==> Fits(CompactPointer(r.compactPointers[i])))
    && (forall d :: d in r.deletedFiles ==> Fits(DeletedFile(d)))
    && (forall i :: 0 <= i < |r.newFiles| ==> Fits(AddedFile(r.newFiles[i])))
  }

  lemma ItemsFit(r: Record, order: seq<Deleted>)
    requires RecordFits(r) && IsOrder(order, r.deletedFiles)
    ensures forall k :: 0 <= k < |Items(r, order)| ==> Fits(Items(r, order)[k])
  {
    var items := Items(r, order);
    forall item | item in items
      ensures Fits(item)
    {
      assert item in Numbers(r) || item in Pointers(r.compactPointers) || item in Deletions(order) || item in Additions(r.newFiles);
    }
  }

  /** Clear leaves the compaction pointers alone. */
  function Cleared(r: Record): Record {
    FRESH.(compactPointers := r.compactPointers)
  }

  /** Decoding an encoded edit gives it back, with the pointers the object had before put in front. */
  lemma DecodeGivesBack(r: Record, order: seq<Deleted>, before: Record)
    requires RecordFits(r) && IsOrder(order, r.deletedFiles)
    ensures Decoded(Cleared(before), AllEncoded(Items(r, order)), 0)
            == (r.(compactPointers := before.compactPointers + r.compactPointers), true)
  {
    hide Decoded, AllTaken, AllEncoded, Items, RecordFits, Fits, IsOrder;
    var items := Items(r, order);
    ItemsFit(r, order);
    assert items[..0] == [] && items[0..] == items;
    DecodesOn(items, 0, Cleared(before));
    ItemsRebuild(r, order, before.compactPointers);
    NothingEncoded();
  }

  /** So a fresh object, and only one without pointers, ends up equal to the edit that was encoded. */
  lemma DecodeRecovers(r: Record, order: seq<Deleted>, before: Record)
    requires RecordFits(r) && IsOrder(order, r.deletedFiles)
    ensures Decoded(Cleared(before), AllEncoded(Items(r, order)), 0) == (r, true) <==> before.compactPointers == []
  {
    hide Decoded, AllEncoded, Items, RecordFits, IsOrder;
    DecodeGivesBack(r, order, before);
    var all := before.compactPointers + r.compactPointers;
    assert |all| == |before.compactPointers| + |r.compactPointers|;
    assert before.compactPointers == [] ==> all == r.compactPointers;
  }

  lemma NothingEncoded()
    ensures AllEncoded([]) == []
  {
  }

  // ---------------------------------------------------------------- VersionEdit

  class VersionEdit {
    var comparator: Option<Bytes>
    var logNumber: Option<nat>
    var prevLogNumber: Option<nat>
    var nextFileNumber: Option<nat>
    var lastSequence: Option<nat>
    var compactPointers: seq<Pointer>
    var deletedFiles: set<Deleted>
    var newFiles: seq<NewFile>

    function Now(): Record
      reads this
    {
      Record(comparator, logNumber, prevLogNumber, nextFileNumber, lastSequence, compactPointers, deletedFiles, newFiles)
    }

    constructor ()
      ensures Now() == FRESH
    {
      comparator, logNumber, prevLogNumber, nextFileNumber, lastSequence := None, None, None, None, None;
      compactPointers, deletedFiles, newFiles := [], {}, [];
    }

    method Clear()
      modifies this
      ensures Now() == Cleared(old(Now()))
    {
      comparator, logNumber, prevLogNumber, nextFileNumber, lastSequence := None, None, None, None, None;
      deletedFiles, newFiles := {}, [];
    }

    /** EncodeTo appends the edit's fields, deleted files in ascending order of level and number. */
    method EncodeTo(dst: Bytes) returns (r: Bytes)
      ensures exists order :: IsOrder(order, deletedFiles) && Ascending(order) && r == dst + AllEncoded(Items(Now(), order))
    {
      hide Encoded, AllEncoded, Ascending, IsOrder, Numbers;
      var order := SortDeleted(deletedFiles);
      r := PutNumbers(dst);
      r := PutPointers(dst, Numbers(Now()), r);
      r := PutDeletions(dst, Numbers(Now()) + Pointers(compactPointers), r, order);
      r := PutAdditions(dst, Numbers(Now()) + Pointers(compactPointers) + Deletions(order), r);
    }

    method PutNumbers(dst: Bytes) returns (r: Bytes)
      ensures r == dst + AllEncoded(Numbers(Now()))
    {
      hide Encoded, AllEncoded;
      NothingEncoded();
      r := dst;
      if comparator.Some? {
        r := Put(dst, [], r, Comparator(comparator.value));
        assert [] + Named(comparator) == Named(comparator);
      }
      ghost var items := Named(comparator);
      assert r == dst + AllEncoded(items);
      r := PutNumber(dst, items, r, LogNumber, logNumber);
      items := items + Number(LogNumber, logNumber);
      r := PutNumber(dst, items, r, PrevLogNumber, prevLogNumber);
      items := items + Number(PrevLogNumber, prevLogNumber);
      r := PutNumber(dst, items, r, NextFileNumber, nextFileNumber);
      items := items + Number(NextFileNumber, nextFileNumber);
      r := PutNumber(dst, items, r, LastSequence, lastSequence);
    }

    method PutPointers(ghost dst: Bytes, ghost items: seq<Item>, written: Bytes) returns (r: Bytes)
      requires written == dst + AllEncoded(items)
      ensures r == dst + AllEncoded(items + Pointers(compactPointers))
    {
      hide Encoded, AllEncoded;
      r := written;
      assert items + Pointers([]) == items;
      for i := 0 to |compactPointers|
        invariant r == dst + AllEncoded(items + Pointers(compactPointers[..i]))
      {
        var c := CompactPointer(compactPointers[i]);
        r := Put(dst, items + Pointers(compactPointers[..i]), r, c);
        assert Pointers(compactPointers[..i + 1]) == Pointers(compactPointers[..i]) + [c];
        assert items + (Pointers(compactPointers[..i]) + [c]) == items + Pointers(compactPointers[..i]) + [c];
      }
      assert compactPointers[..|compactPointers|] == compactPointers;
    }

    method PutDeletions(ghost dst: Bytes, ghost items: seq<Item>, written: Bytes, order: seq<Deleted>) returns (r: Bytes)
      requires written == dst + AllEncoded(items)
      ensures r == dst + AllEncoded(items + Deletions(order))
    {
      hide Encoded, AllEncoded;
      r := written;
      assert items + Deletions([]) == items;
      for i := 0 to |order|
        invariant r == dst + AllEncoded(items + Deletions(order[..i]))
      {
        var d := DeletedFile(order[i]);
        r := Put(dst, items + Deletions(order[..i]), r, d);
        assert Deletions(order[..i + 1]) == Deletions(order[..i]) + [d];
        assert items + (Deletions(order[..i]) + [d]) == items + Deletions(order[..i]) + [d];
      }
      assert order[..|order|] == order;
    }

    method PutAdditions(ghost dst: Bytes, ghost items: seq<Item>, written: Bytes) returns (r: Bytes)
      requires written == dst + AllEncoded(items)
      ensures r == dst + AllEncoded(items + Additions(newFiles))
    {
      hide Encoded, AllEncoded;
      r := written;
      assert items + Additions([]) == items;
      for i := 0 to |newFiles|
        invariant r == dst + AllEncoded(items + Additions(newFiles[..i]))
      {
        var f := AddedFile(newFiles[i]);
        r := Put(dst, items + Additions(newFiles[..i]), r, f);
        assert Additions(newFiles[..i + 1]) == Additions(newFiles[..i]) + [f];
        assert items + (Additions(newFiles[..i]) + [f]) == items + Additions(newFiles[..i]) + [f];
      }
      assert newFiles[..|newFiles|] == newFiles;
    }

    /** DecodeFrom reads fields until there is no further tag or one is malformed. */
    method DecodeFrom(src: Bytes) returns (ok: bool)
      modifies this
      ensures (Now(), ok) == Decoded(Cleared(old(Now())), src, 0)
    {
      hide GetVarint32, GetPayload;
      Clear();
      ghost var target := Decoded(Now(), src, 0);
      var p := 0;
      while true
        invariant p <= |src| && Decoded(Now(), src, p) == target
        decreases |src| - p
      {
        var tag := GetVarint32(src, p, |src|);
        if tag.None? {
          return p == |src|;
        }
        var item := GetPayload(src, tag.value.next, tag.value.value);
        if item.None? {
          return false;
        }
        Take(item.value.item);
        p := item.value.next;
      }
    }

    method Take(item: Item)
      modifies this
      ensures Now() == Taken(old(Now()), item)
    {
      match item
      case Comparator(name) => comparator := Some(name);
      case Numbered(LogNumber, n) => logNumber := Some(n);
      case Numbered(PrevLogNumber, n) => prevLogNumber := Some(n);
      case Numbered(NextFileNumber, n) => nextFileNumber := Some(n);
      case Numbered(LastSequence, n) => lastSequence := Some(n);
      case CompactPointer(c) => compactPointers := compactPointers + [c];
      case DeletedFile(d) => deletedFiles := deletedFiles + {d};
      case AddedFile(f) => newFiles := newFiles + [f];
    }
  }

  predicate LessDeleted(a: Deleted, b: Deleted) {
    a.level < b.level || (a.level == b.level && a.number < b.number)
  }

  ghost predicate Ascending(order: seq<Deleted>) {
    forall i, j :: 0 <= i < j < |order| ==> LessDeleted(order[i], order[j])
  }

  lemma {:induction false} LeastDeleted(files: set<Deleted>) returns (d: Deleted)
    requires files != {}
    ensures d in files && forall x :: x in files && x != d ==> LessDeleted(d, x)
  {
    var y :| y in files;
    if files == {y} {
      d := y;
    } else {
      var rest := files - {y};
      var e := LeastDeleted(rest);
      d := if LessDeleted(y, e) then y else e;
      assert forall x :: x in files ==> x == y || x in rest;
    }
  }

  /** The order in which std::set hands out the deleted files. */
  method SortDeleted(files: set<Deleted>) returns (order: seq<Deleted>)
    ensures IsOrder(order, files) && Ascending(order)
  {
    order := [];
    var rest := files;
    while rest != {}
      invariant rest <= files && IsOrder(order, files - rest) && Ascending(order)
      invariant forall x, y :: x in order && y in rest ==> LessDeleted(x, y)
      decreases |rest|
    {
      ghost var least := LeastDeleted(rest);
      var d :| d in rest && forall x :: x in rest && x != d ==> LessDeleted(d, x);
      order := order + [d];
      rest := rest - {d};
    }
    assert files - rest == files;
  }

  /** One field is appended to what was written so far. */
  method Put(ghost dst: Bytes, ghost items: seq<Item>, written: Bytes, item: Item) returns (r: Bytes)
    requires written == dst + AllEncoded(items)
    ensures r == dst + AllEncoded(items + [item])
  {
    hide Encoded;
    r := written + Encoded(item);
    assert (items + [item])[..|items|] == items;
    assert AllEncoded(items + [item]) == AllEncoded(items) + Encoded(item);
    hide AllEncoded;
    assert dst + AllEncoded(items) + Encoded(item) == dst + (AllEncoded(items) + Encoded(item));
  }

  method PutNumber(ghost dst: Bytes, ghost items: seq<Item>, written: Bytes, field: Field, n: Option<nat>) returns (r: Bytes)
    requires written == dst + AllEncoded(items)
    ensures r == dst + AllEncoded(items + Number(field, n))
  {
    hide AllEncoded;
    r := written;
    if n.Some? {
      r := Put(dst, items, r, Numbered(field, n.value));
    } else {
      assert items + [] == items;
    }
  }
}
