/**
 Whole table files in bytes (TableBuilder::Finish in table/table_builder.cc, Table::Open and
 Table::InternalGet in table/table.cc): blocks one after the other, an index block of
 shortened keys and handles, and a footer that says where the index is. A file built this
 way answers a lookup as the sorted run of its entries does.
 */
module TableFiles {
  import opened InternalKeys
  import opened Coding
  import opened Versions
  import opened Comparators
  import opened Blocks
  import opened StoredTables
  import opened TableFormat
  import opened Tables

  // ---------------------------------------------------------------- the index

  function Named(userKey: Bytes, sn: nat, kind: ValueType, h: Handle): Stored {
    Stored(userKey, sn, kind, EncodeHandle(h))
  }

  /** The index entry between the blocks that end with x and begin with y (InternalKeyComparator::FindShortestSeparator). */
  function Between(x: Stored, y: Stored, h: Handle): Stored {
    var tmp := Separator(x.userKey, y.userKey);
    if |tmp| < |x.userKey| && Position(x.userKey) < Position(tmp) then Named(tmp, MAX_SEQUENCE, Value, h)
    else Named(x.userKey, x.sn, x.kind, h)
  }

  /** The one after the last block (FindShortSuccessor). */
  function After(x: Stored, h: Handle): Stored {
    var tmp := Successor(x.userKey);
    if |tmp| < |x.userKey| && Position(x.userKey) < Position(tmp) then Named(tmp, MAX_SEQUENCE, Value, h)
    else Named(x.userKey, x.sn, x.kind, h)
  }

  lemma BetweenIsSeparator(x: Stored, y: Stored, h: Handle)
    ensures AsEntry(Between(x, y, h)).IK() == Tables.FindShortestSeparator(Bytewise(), AsEntry(x).IK(), AsEntry(y).IK())
  {
    hide Position, Separator, Successor, Bytewise;
    BytewiseIsTheComparator(x.userKey, y.userKey);
    BytewiseIsTheComparator(x.userKey, Separator(x.userKey, y.userKey));
  }

  lemma AfterIsSuccessor(x: Stored, h: Handle)
    ensures AsEntry(After(x, h)).IK() == Tables.FindShortSuccessor(Bytewise(), AsEntry(x).IK())
  {
    hide Position, Separator, Successor, Bytewise;
    BytewiseIsTheComparator(x.userKey, x.userKey);
    BytewiseIsTheComparator(x.userKey, Successor(x.userKey));
  }

  ghost predicate AllStorable(blocks: seq<seq<Stored>>) {
    forall i :: 0 <= i < |blocks| ==> blocks[i] != [] && Storable(blocks[i])
  }

  function LastOf(block: seq<Stored>): Stored
    requires block != []
  {
    block[|block| - 1]
  }

  /** The index entry of block i. */
  function IndexEntry(blocks: seq<seq<Stored>>, i: nat, h: Handle): Stored
    requires i < |blocks| && forall k :: 0 <= k < |blocks| ==> blocks[k] != []
  {
    if i + 1 < |blocks| then Between(LastOf(blocks[i]), blocks[i + 1][0], h) else After(LastOf(blocks[i]), h)
  }

  ghost predicate IsIndex(blocks: seq<seq<Stored>>, handles: seq<Handle>, index: seq<Stored>)
    requires forall k :: 0 <= k < |blocks| ==> blocks[k] != []
  {
    |index| == |handles| == |blocks| && forall i :: 0 <= i < |blocks| ==> index[i] == IndexEntry(blocks, i, handles[i])
  }

  function EntryBlocks(blocks: seq<seq<Stored>>): seq<seq<Entry>> {
    seq(|blocks|, i requires 0 <= i < |blocks| => AsEntries(blocks[i]))
  }

  function Keys(index: seq<Stored>): seq<IKey> {
    seq(|index|, i requires 0 <= i < |index| => AsEntry(index[i]).IK())
  }

  /** What the file holds, without its bytes. */
  function TableOf(blocks: seq<seq<Stored>>, handles: seq<Handle>, index: seq<Stored>): Table {
    Table(EntryBlocks(blocks), seq(|handles|, i requires 0 <= i < |handles| => handles[i].offset), Keys(index), None)
  }

  lemma EndOfBlock(blocks: seq<seq<Entry>>, i: nat)
    requires i < |blocks| && blocks[i] != []
    ensures 0 < Begin(blocks, i + 1) <= |Flat(blocks)|
    ensures Flat(blocks)[Begin(blocks, i + 1) - 1] == blocks[i][|blocks[i]| - 1]
  {
    hide Flat;
    BeginNext(blocks, i);
    BeginGrows(blocks, i + 1, |blocks|);
    FlatAt(blocks, i, |blocks[i]| - 1);
  }

  lemma StartOfNext(blocks: seq<seq<Entry>>, i: nat)
    requires i < |blocks| && blocks[i] != []
    ensures Begin(blocks, i) < |Flat(blocks)| && Flat(blocks)[Begin(blocks, i)] == blocks[i][0]
  {
    hide Flat;
    FlatAt(blocks, i, 0);
  }

  lemma IndexEntryCuts(blocks: seq<seq<Stored>>, i: nat, h: Handle)
    requires (forall k :: 0 <= k < |blocks| ==> blocks[k] != []) && i < |blocks| && Sorted(Flat(EntryBlocks(blocks)))
    ensures Cuts(Flat(EntryBlocks(blocks)), Begin(EntryBlocks(blocks), i + 1), AsEntry(IndexEntry(blocks, i, h)).IK())
  {
    hide Flat, Cuts, Sorted, Between, After, Bytewise;
    var all, eb := Flat(EntryBlocks(blocks)), EntryBlocks(blocks);
    BytewiseShortens();
    EndOfBlock(eb, i);
    if i + 1 < |blocks| {
      StartOfNext(eb, i + 1);
      BetweenIsSeparator(LastOf(blocks[i]), blocks[i + 1][0], h);
      SeparatorCuts(Bytewise(), all, Begin(eb, i + 1));
    } else {
      assert eb[..|eb|] == eb;
      AfterIsSuccessor(LastOf(blocks[i]), h);
      SuccessorCuts(Bytewise(), all);
    }
  }

  lemma TableIsGood(hash: UserKey -> Word, blocks: seq<seq<Stored>>, handles: seq<Handle>, index: seq<Stored>)
    requires (forall k :: 0 <= k < |blocks| ==> blocks[k] != []) && Sorted(Flat(EntryBlocks(blocks)))
    requires IsIndex(blocks, handles, index)
    ensures GoodTable(hash, TableOf(blocks, handles, index))
  {
    hide Flat, Cuts, Sorted, IndexEntry;
    forall i | 0 <= i < |blocks|
      ensures Cuts(Flat(EntryBlocks(blocks)), Begin(EntryBlocks(blocks), i + 1), Keys(index)[i])
    {
      IndexEntryCuts(blocks, i, handles[i]);
    }
  }

  /** Keys that cut at different places are ordered as entries are. */
  lemma CutsAreOrdered(all: seq<Entry>, p: nat, k: IKey, q: nat, m: IKey)
    requires Sorted(all) && Cuts(all, p, k) && Cuts(all, q, m) && p < q
    ensures k.key < m.key || (k.key == m.key && k.sn > m.sn)
  {
    assert Less(k, all[p].IK()) && AtMost(all[p].IK(), m);
    if k.key == m.key {
      assert all[p].key == k.key;
      assert k == all[p - 1].IK() && m == all[q - 1].IK();
      assert Precedes(all[p - 1], all[q - 1]);
    }
  }

  lemma {:induction false} BeginRises(blocks: seq<seq<Entry>>, i: nat, j: nat)
    requires i < j <= |blocks| && forall k :: 0 <= k < |blocks| ==> blocks[k] != []
    ensures Begin(blocks, i) < Begin(blocks, j)
  {
    BeginNext(blocks, i);
    BeginGrows(blocks, i + 1, j);
  }

  lemma IndexIsSorted(blocks: seq<seq<Stored>>, handles: seq<Handle>, index: seq<Stored>)
    requires (forall k :: 0 <= k < |blocks| ==> blocks[k] != []) && Sorted(Flat(EntryBlocks(blocks)))
    requires IsIndex(blocks, handles, index)
    ensures Sorted(AsEntries(index))
  {
    hide Flat, Cuts, IndexEntry;
    var all, eb := Flat(EntryBlocks(blocks)), EntryBlocks(blocks);
    forall i, j | 0 <= i < j < |index|
      ensures Precedes(AsEntries(index)[i], AsEntries(index)[j])
    {
      IndexEntryCuts(blocks, i, handles[i]);
      IndexEntryCuts(blocks, j, handles[j]);
      BeginRises(eb, i + 1, j + 1);
      CutsAreOrdered(all, Begin(eb, i + 1), AsEntry(index[i]).IK(), Begin(eb, j + 1), AsEntry(index[j]).IK());
    }
  }

  lemma IndexIsStorable(blocks: seq<seq<Stored>>, handles: seq<Handle>, index: seq<Stored>)
    requires AllStorable(blocks) && IsIndex(blocks, handles, index)
    ensures Storable(index)
  {
    hide Separator, Successor, Position;
    forall i | 0 <= i < |index|
      ensures index[i].sn <= MAX_SEQUENCE && index[i].value == EncodeHandle(handles[i])
    {
      assert index[i] == IndexEntry(blocks, i, handles[i]);
      assert LastOf(blocks[i]).sn <= MAX_SEQUENCE;
    }
  }

  // ---------------------------------------------------------------- the file

  /** A sealed block of these entries is where the handle says. */
  ghost predicate BlockIn(crc: Bytes -> Word, file: Bytes, h: Handle, block: seq<Stored>)
    requires Storable(block)
  {
    exists data, end, l ::
      && |data| == h.size && Holds(file, h.offset, |file|, Sealed(crc, data))
      && GoodBlock(data, end, l) && l.entries == AsKeyValues(block)
  }

  ghost predicate BlocksIn(crc: Bytes -> Word, file: Bytes, blocks: seq<seq<Stored>>, handles: seq<Handle>)
    requires AllStorable(blocks) && |handles| <= |blocks|
  {
    forall i :: 0 <= i < |handles| ==> InWords(handles[i]) && BlockIn(crc, file, handles[i], blocks[i])
  }

  /** The data blocks, the index block and the footer are in their places. */
  ghost predicate TableFile(crc: Bytes -> Word, file: Bytes, blocks: seq<seq<Stored>>, handles: seq<Handle>, index: seq<Stored>,
                            meta: Handle, top: Handle) {
    && AllStorable(blocks) && Sorted(Flat(EntryBlocks(blocks)))
    && IsIndex(blocks, handles, index) && BlocksIn(crc, file, blocks, handles)
    && Storable(index) && BlockIn(crc, file, top, index)
    && InWords(meta) && InWords(top) && FOOTER_SIZE <= |file| && file[|file| - FOOTER_SIZE..] == EncodeFooter(meta, top)
  }

  lemma StaysInPlace(file: Bytes, more: Bytes, p: nat, part: Bytes)
    requires Holds(file, p, |file|, part)
    ensures Holds(file + more, p, |file + more|, part)
  {
  }

  lemma BlockStays(crc: Bytes -> Word, file: Bytes, more: Bytes, h: Handle, block: seq<Stored>)
    requires Storable(block) && BlockIn(crc, file, h, block)
    ensures BlockIn(crc, file + more, h, block)
  {
    hide Holds, GoodBlock, Sealed;
    var data, end, l :|
      && |data| == h.size && Holds(file, h.offset, |file|, Sealed(crc, data))
      && GoodBlock(data, end, l) && l.entries == AsKeyValues(block);
    StaysInPlace(file, more, h.offset, Sealed(crc, data));
  }

  lemma BlocksStay(crc: Bytes -> Word, file: Bytes, more: Bytes, blocks: seq<seq<Stored>>, handles: seq<Handle>)
    requires AllStorable(blocks) && |handles| <= |blocks| && BlocksIn(crc, file, blocks, handles)
    ensures BlocksIn(crc, file + more, blocks, handles)
  {
    hide BlockIn;
    forall i | 0 <= i < |handles|
      ensures BlockIn(crc, file + more, handles[i], blocks[i])
    {
      BlockStays(crc, file, more, handles[i], blocks[i]);
    }
  }

  lemma BlockAppended(crc: Bytes -> Word, file: Bytes, data: Bytes, end: nat, l: Layout, block: seq<Stored>)
    requires Storable(block) && GoodBlock(data, end, l) && l.entries == AsKeyValues(block)
    ensures BlockIn(crc, file + Sealed(crc, data), Handle(|file|, |data|), block)
  {
    hide GoodBlock, Sealed;
    var longer := file + Sealed(crc, data);
    assert longer[|file|..|file| + |Sealed(crc, data)|] == Sealed(crc, data);
  }

  /** The bytes of the data blocks, at most. */
  function FileRoom(blocks: seq<seq<Stored>>): nat {
    if blocks == [] then 0 else FileRoom(blocks[..|blocks| - 1]) + 3 * Room(blocks[|blocks| - 1]) + 8 + TRAILER_SIZE
  }

  /** And of the entries of the index. */
  function IndexRoom(blocks: seq<seq<Stored>>): nat
    requires forall k :: 0 <= k < |blocks| ==> blocks[k] != []
  {
    if blocks == [] then 0
    else IndexRoom(blocks[..|blocks| - 1]) + |LastOf(blocks[|blocks| - 1]).userKey| + 8 + MAX_HANDLE + 15
  }

  lemma {:induction false} FileRoomGrows(blocks: seq<seq<Stored>>, i: nat, j: nat)
    requires i <= j <= |blocks|
    ensures FileRoom(blocks[..i]) <= FileRoom(blocks[..j])
    decreases j
  {
    if i < j {
      FileRoomGrows(blocks, i, j - 1);
      assert blocks[..j][..j - 1] == blocks[..j - 1];
    }
  }

  lemma FileRoomNext(blocks: seq<seq<Stored>>, i: nat)
    requires i < |blocks|
    ensures FileRoom(blocks[..i + 1]) == FileRoom(blocks[..i]) + 3 * Room(blocks[i]) + 8 + TRAILER_SIZE
    ensures FileRoom(blocks[..i + 1]) <= FileRoom(blocks)
  {
    assert blocks[..i + 1][..i] == blocks[..i] && blocks[..|blocks|] == blocks;
    FileRoomGrows(blocks, i + 1, |blocks|);
  }

  lemma {:induction false} IndexFits(blocks: seq<seq<Stored>>, handles: seq<Handle>, index: seq<Stored>, n: nat)
    requires (forall k :: 0 <= k < |blocks| ==> blocks[k] != []) && IsIndex(blocks, handles, index) && n <= |blocks|
    requires forall i :: 0 <= i < |handles| ==> InWords(handles[i])
    ensures Room(index[..n]) <= IndexRoom(blocks[..n])
  {
    if n > 0 {
      IndexFits(blocks, handles, index, n - 1);
      assert index[..n][..n - 1] == index[..n - 1] && blocks[..n][..n - 1] == blocks[..n - 1];
      HandleSize(handles[n - 1]);
      KeyIsNoLonger(blocks, n - 1, handles[n - 1]);
    }
  }

  lemma KeyIsNoLonger(blocks: seq<seq<Stored>>, i: nat, h: Handle)
    requires (forall k :: 0 <= k < |blocks| ==> blocks[k] != []) && i < |blocks|
    ensures var x := IndexEntry(blocks, i, h); |x.userKey| <= |LastOf(blocks[i]).userKey| && x.value == EncodeHandle(h)
  {
    hide Separator, Successor, Position, EncodeHandle;
  }

  const HALF_WORD: nat := 0x8000_0000_0000_0000

  /** Everything has a place that a handle can name: blocks under 4 GiB, a file under 8 EiB. */
  ghost predicate FitsFile(blocks: seq<seq<Stored>>) {
    && AllStorable(blocks) && Sorted(Flat(EntryBlocks(blocks)))
    && (forall i :: 0 <= i < |blocks| ==> Room(blocks[i]) < TWO_32) && IndexRoom(blocks) < TWO_32
    && FileRoom(blocks) < HALF_WORD
  }

  /** The data blocks, one after the other, and the index made along the way. */
  method WriteBlocks(crc: Bytes -> Word, blocks: seq<seq<Stored>>, interval: nat)
    returns (file: Bytes, handles: seq<Handle>, index: seq<Stored>)
    requires FitsFile(blocks) && interval >= 1
    ensures IsIndex(blocks, handles, index) && BlocksIn(crc, file, blocks, handles) && |file| <= FileRoom(blocks)
  {
    hide BlockIn, GoodBlock, Room, IndexEntry, Storable, AsKeyValues, Sorted, Flat, IndexRoom, FileRoom, Sealed;
    file, handles, index := [], [], [];
    NoRoom();
    assert blocks[..0] == [];
    for i := 0 to |blocks|
      invariant |handles| == |index| == i && |file| <= FileRoom(blocks[..i])
      invariant forall k :: 0 <= k < i ==> index[k] == IndexEntry(blocks, k, handles[k])
      invariant BlocksIn(crc, file, blocks, handles)
    {
      var data, end, l := BuildBlock(blocks[i], interval);
      FileRoomNext(blocks, i);
      var h := Handle(|file|, |data|);
      BlockAppended(crc, file, data, end, l, blocks[i]);
      BlocksStay(crc, file, Sealed(crc, data), blocks, handles);
      SealedSize(crc, data);
      file := file + Sealed(crc, data);
      handles, index := handles + [h], index + [IndexEntry(blocks, i, h)];
    }
    assert blocks[..|blocks|] == blocks;
  }

  lemma NoRoom()
    ensures FileRoom([]) == 0
  {
  }

  lemma SealedSize(crc: Bytes -> Word, data: Bytes)
    ensures |Sealed(crc, data)| == |data| + TRAILER_SIZE
  {
  }

  /** A table without a filter: data blocks, an empty metaindex block, the index block and the footer. */
  method WriteTable(crc: Bytes -> Word, blocks: seq<seq<Stored>>, interval: nat)
    returns (file: Bytes, ghost handles: seq<Handle>, ghost index: seq<Stored>, ghost meta: Handle, ghost top: Handle)
    requires FitsFile(blocks) && interval >= 1
    ensures TableFile(crc, file, blocks, handles, index, meta, top)
  {
    hide BlockIn, BlocksIn, GoodBlock, Room, IsIndex, Storable, AsKeyValues, Sorted, Flat, IndexRoom, FileRoom, Sealed, EncodeFooter;
    var written, hs, entries := WriteBlocks(crc, blocks, interval);
    handles, index := hs, entries;
    SizesOf(blocks, hs, entries);
    IndexIsStorable(blocks, hs, entries);
    IndexHasRoom(crc, written, blocks, hs, entries);
    EmptyBlock();
    var none, _, _ := BuildBlock([], interval);
    var m := Handle(|written|, |none|);
    BlocksStay(crc, written, Sealed(crc, none), blocks, hs);
    SealedSize(crc, none);
    written := written + Sealed(crc, none);
    var data, end, l := BuildBlock(entries, 1);
    var t := Handle(|written|, |data|);
    BlockAppended(crc, written, data, end, l, entries);
    BlocksStay(crc, written, Sealed(crc, data), blocks, hs);
    written := written + Sealed(crc, data);
    var footer := EncodeFooter(m, t);
    BlocksStay(crc, written, footer, blocks, hs);
    BlockStays(crc, written, footer, t, entries);
    file, meta, top := written + footer, m, t;
    assert file[|file| - FOOTER_SIZE..] == footer;
  }

  lemma EmptyBlock()
    ensures Storable([]) && Room([]) == 0
  {
  }

  lemma IndexHasRoom(crc: Bytes -> Word, file: Bytes, blocks: seq<seq<Stored>>, handles: seq<Handle>, index: seq<Stored>)
    requires FitsFile(blocks) && IsIndex(blocks, handles, index) && BlocksIn(crc, file, blocks, handles)
    ensures Room(index) < TWO_32
  {
    hide BlockIn, IndexEntry, Room, IndexRoom, Flat, Sorted, Storable;
    IndexFits(blocks, handles, index, |blocks|);
    assert index[..|blocks|] == index && blocks[..|blocks|] == blocks;
  }

  // ---------------------------------------------------------------- lookups

  /** SaveValue: what the entry found says about the key. */
  function SaveValue(userKey: Bytes, found: Option<KeyValue>): SaverState {
    if found.None? || |found.value.key| < 8 then NotFound
    else
      var key := found.value.key;
      if Position(key[..|key| - 8]) != Position(userKey) then NotFound
      else if DecodeFixed64(key[|key| - 8..]) % 256 == 1 then Found(found.value.value)
      else Deleted
  }

  lemma SavedIs(userKey: Bytes, x: Stored)
    requires x.sn <= MAX_SEQUENCE
    ensures SaveValue(userKey, Some(AsKeyValue(x))) ==
            if Position(x.userKey) != Position(userKey) then NotFound
            else if x.kind.Value? then Found(x.value) else Deleted
  {
    hide DecodeFixed64, Position;
    InternalParts(x.userKey, x.sn, x.kind);
    hide InternalBytes;
    KindOfTag(x.sn, x.kind);
  }

  lemma KindOfTag(sn: nat, kind: ValueType)
    ensures Pack(sn, kind) % 256 == TypeCode(kind)
  {
  }

  lemma SameIndexPlace(index: seq<Stored>, target: IKey, i: nat)
    requires IsSeekPosition(AsEntries(index), target, i)
    ensures i == SeekIndex(Keys(index), target)
  {
    var k := SeekIndex(Keys(index), target);
    assert forall j :: 0 <= j < |index| ==> Keys(index)[j] == AsEntries(index)[j].IK();
    SeekIsUnique(AsEntries(index), target, i, k);
  }

  /** ReadBlock followed by Seek in the block. */
  method LookInBlock(crc: Bytes -> Word, verify: bool, file: Bytes, h: Handle, ghost block: seq<Stored>, userKey: Bytes, s: nat)
    returns (ok: bool, found: Option<KeyValue>)
    requires Storable(block) && Sorted(AsEntries(block)) && BlockIn(crc, file, h, block) && s <= MAX_SEQUENCE
    ensures ok
    ensures exists i: nat :: IsSeekPosition(AsEntries(block), SeekKey(Position(userKey), s), i)
                        && found == if i < |block| then Some(AsKeyValue(block[i])) else None
  {
    hide GoodBlock, Sealed, Holds, ReadBlock, Position, InternalBytes, IsSeekPosition, Sorted;
    ghost var data, end, l :|
      && |data| == h.size && Holds(file, h.offset, |file|, Sealed(crc, data))
      && GoodBlock(data, end, l) && l.entries == AsKeyValues(block);
    SealedReads(crc, verify, file, h, data);
    var contents := ReadBlock(crc, verify, file, h);
    if contents.None? {
      return false, None;
    }
    found := SeekBlock(contents.value, end, l, block, userKey, s, Value);
    ok := true;
  }

  ghost predicate Holding(f: File, blocks: seq<seq<Stored>>) {
    f.entries == Flat(EntryBlocks(blocks))
  }

  /** Table::Open and Table::InternalGet with SaveValue. On a file written as above, checksums verified or not, a lookup
      never fails and gives what the sorted run of all entries gives. */
  method GetFromFile(crc: Bytes -> Word, verify: bool, file: Bytes, ghost blocks: seq<seq<Stored>>, ghost handles: seq<Handle>,
                     ghost index: seq<Stored>, ghost meta: Handle, ghost top: Handle, ghost f: File, userKey: Bytes, s: nat)
    returns (ok: bool, r: SaverState)
    requires TableFile(crc, file, blocks, handles, index, meta, top) && Holding(f, blocks) && s <= MAX_SEQUENCE
    ensures ok && r == TableGet(f, Position(userKey), s)
  {
    hide BlockIn, BlocksIn, IsIndex, Sorted, Flat, EncodeFooter, DecodeFooter, Position, AsKeyValue, IsSeekPosition,
         SaveValue, TableGet, DecodeHandle, EncodeHandle, GoodTable;
    ghost var target := SeekKey(Position(userKey), s);
    ghost var hash := (u: UserKey) => 0 as Word;
    IndexIsSorted(blocks, handles, index);
    TableIsGood(hash, blocks, handles, index);
    BlockDecides(hash, TableOf(blocks, handles, index), Position(userKey), s);
    if |file| < FOOTER_SIZE {
      return false, NotFound;
    }
    FooterReads(meta, top);
    var footer := DecodeFooter(file[|file| - FOOTER_SIZE..]);
    if footer.None? {
      return false, NotFound;
    }
    var entry;
    ok, entry := LookInBlock(crc, verify, file, footer.value.1, index, userKey, s);
    ghost var i: nat :| IsSeekPosition(AsEntries(index), target, i)
                        && entry == if i < |index| then Some(AsKeyValue(index[i])) else None;
    SameIndexPlace(index, target, i);
    SizesOf(blocks, handles, index);
    PlaceIsWithin(index, target, i);
    if entry.None? {
      r := NotFound;
      NothingSaved(f, blocks, userKey, s);
      return;
    }
    HandleOfEntry(crc, file, blocks, handles, index, i);
    var h := DecodeHandle(entry.value.value, 0);
    if h.None? {
      return false, NotFound;
    }
    BlockOfTable(blocks, handles, index, i);
    var found;
    ok, found := LookInBlock(crc, verify, file, h.value.handle, blocks[i], userKey, s);
    ghost var j: nat :| IsSeekPosition(AsEntries(blocks[i]), target, j)
                        && found == if j < |blocks[i]| then Some(AsKeyValue(blocks[i][j])) else None;
    SeekIsUnique(AsEntries(blocks[i]), target, j, SeekTable(AsEntries(blocks[i]), target));
    PlaceIsWithin(blocks[i], target, j);
    r := SaveValue(userKey, found);
    FoundIsSaved(f, blocks, i, j, userKey, s);
  }

  lemma SizesOf(blocks: seq<seq<Stored>>, handles: seq<Handle>, index: seq<Stored>)
    requires (forall k :: 0 <= k < |blocks| ==> blocks[k] != []) && IsIndex(blocks, handles, index)
    ensures |index| == |handles| == |blocks|
  {
  }

  lemma PlaceIsWithin(block: seq<Stored>, target: IKey, i: nat)
    requires IsSeekPosition(AsEntries(block), target, i)
    ensures i <= |block|
  {
  }

  lemma HandleOfEntry(crc: Bytes -> Word, file: Bytes, blocks: seq<seq<Stored>>, handles: seq<Handle>, index: seq<Stored>, i: nat)
    requires AllStorable(blocks) && IsIndex(blocks, handles, index) && BlocksIn(crc, file, blocks, handles) && i < |index|
    requires index[i].sn <= MAX_SEQUENCE
    ensures AsKeyValue(index[i]).value == EncodeHandle(handles[i]) && BlockIn(crc, file, handles[i], blocks[i])
    ensures DecodeHandle(EncodeHandle(handles[i]), 0) == Some(ParsedHandle(handles[i], |EncodeHandle(handles[i])|))
  {
    hide BlockIn, EncodeHandle, DecodeHandle;
    KeyIsNoLonger(blocks, i, handles[i]);
    var b := EncodeHandle(handles[i]);
    assert b[0..0 + |b|] == b;
    HandleReads(b, 0, handles[i]);
  }

  lemma BlockOfTable(blocks: seq<seq<Stored>>, handles: seq<Handle>, index: seq<Stored>, i: nat)
    requires i < |blocks| && Sorted(Flat(EntryBlocks(blocks)))
    ensures Sorted(AsEntries(blocks[i])) && EntryBlocks(blocks)[i] == AsEntries(blocks[i])
  {
    hide Sorted, Flat;
    BlockIsSorted(TableOf(blocks, handles, index), i);
  }

  lemma NothingSaved(f: File, blocks: seq<seq<Stored>>, userKey: Bytes, s: nat)
    requires Holding(f, blocks) && SeekTable(f.entries, SeekKey(Position(userKey), s)) == |f.entries|
    ensures TableGet(f, Position(userKey), s) == NotFound
  {
  }

  lemma FoundIsSaved(f: File, blocks: seq<seq<Stored>>, i: nat, j: nat, userKey: Bytes, s: nat)
    requires Holding(f, blocks) && i < |blocks| && j <= |blocks[i]| && Storable(blocks[i])
    requires var p := SeekTable(f.entries, SeekKey(Position(userKey), s));
             if j < |blocks[i]| then p < |f.entries| && f.entries[p] == AsEntries(blocks[i])[j]
             else p == |f.entries| || f.entries[p].key != Position(userKey)
    ensures SaveValue(userKey, if j < |blocks[i]| then Some(AsKeyValue(blocks[i][j])) else None)
            == TableGet(f, Position(userKey), s)
  {
    hide Position, Flat, SeekTable, AsKeyValue;
    if j < |blocks[i]| {
      SavedIs(userKey, blocks[i][j]);
      hide SaveValue;
    }
  }
}
