/**
 Sorted tables (table/table_builder.cc, table/table.cc, table/two_level_iterator.cc): entries
 in blocks, an index of shortened keys between the blocks, and a filter per stretch of file.

 A block is its entries; how many bytes it takes is a parameter.
 */
module Tables {
  import opened InternalKeys
  import opened Versions
  import opened Filters

  // ---------------------------------------------------------------- entries in blocks

  function Flat(blocks: seq<seq<Entry>>): seq<Entry> {
    if blocks == [] then [] else Flat(blocks[..|blocks| - 1]) + blocks[|blocks| - 1]
  }

  /** Where block i begins in the run of all entries. */
  function Begin(blocks: seq<seq<Entry>>, i: nat): nat
    requires i <= |blocks|
  {
    |Flat(blocks[..i])|
  }

  lemma FlatJoins(blocks: seq<seq<Entry>>, b: seq<Entry>)
    ensures Flat(blocks + [b]) == Flat(blocks) + b
  {
    assert (blocks + [b])[..|blocks|] == blocks;
  }

  lemma BeginNext(blocks: seq<seq<Entry>>, i: nat)
    requires i < |blocks|
    ensures Begin(blocks, i + 1) == Begin(blocks, i) + |blocks[i]|
  {
    assert blocks[..i + 1] == blocks[..i] + [blocks[i]];
    FlatJoins(blocks[..i], blocks[i]);
  }

  lemma {:induction false} FlatAt(blocks: seq<seq<Entry>>, i: nat, j: nat)
    requires i < |blocks| && j < |blocks[i]|
    ensures Begin(blocks, i) + j < |Flat(blocks)| && Flat(blocks)[Begin(blocks, i) + j] == blocks[i][j]
  {
    var n := |blocks| - 1;
    if i < n {
      FlatAt(blocks[..n], i, j);
      assert blocks[..n][..i] == blocks[..i];
    }
  }

  lemma {:induction false} BeginGrows(blocks: seq<seq<Entry>>, i: nat, j: nat)
    requires i <= j <= |blocks|
    ensures Begin(blocks, i) <= Begin(blocks, j) <= |Flat(blocks)|
    decreases |blocks| - i
  {
    assert blocks[..|blocks|] == blocks;
    if i < |blocks| {
      BeginNext(blocks, i);
      BeginGrows(blocks, i + 1, if i < j then j else i + 1);
    }
  }

  // ---------------------------------------------------------------- shortened keys between blocks

  /** What the user's comparator offers; shorter(a, b) says whether b takes fewer bytes than a. */
  datatype Shortening = Shortening(
    separator: (UserKey, UserKey) -> UserKey,
    successor: UserKey -> UserKey,
    shorter: (UserKey, UserKey) -> bool)

  ghost predicate GoodShortening(c: Shortening) {
    && (forall a, b :: a < b ==> a <= c.separator(a, b) < b)
    && (forall a :: c.separator(a, a) == a)
    && (forall a :: a <= c.successor(a))
  }

  /** InternalKeyComparator::FindShortestSeparator. */
  function FindShortestSeparator(c: Shortening, start: IKey, limit: IKey): IKey {
    var tmp := c.separator(start.key, limit.key);
    if c.shorter(start.key, tmp) && start.key < tmp then IKey(tmp, MAX_SEQUENCE, Value) else start
  }

  function FindShortSuccessor(c: Shortening, key: IKey): IKey {
    var tmp := c.successor(key.key);
    if c.shorter(key.key, tmp) && key.key < tmp then IKey(tmp, MAX_SEQUENCE, Value) else key
  }

  /** The index key k cuts the entries at position p, and is the key before the cut or of a user key nobody has. */
  ghost predicate Cuts(all: seq<Entry>, p: nat, k: IKey) {
    && 0 < p <= |all|
    && (forall q :: 0 <= q < p ==> AtMost(all[q].IK(), k))
    && (forall q :: p <= q < |all| ==> Less(k, all[q].IK()))
    && (k == all[p - 1].IK() || forall q :: 0 <= q < |all| ==> all[q].key != k.key)
  }

  /** The separator put between the entries so far and the next one cuts there, and no later entry changes that. */
  lemma SeparatorCuts(c: Shortening, all: seq<Entry>, p: nat)
    requires GoodShortening(c) && Sorted(all) && 0 < p < |all|
    ensures Cuts(all, p, FindShortestSeparator(c, all[p - 1].IK(), all[p].IK()))
  {
    var k := FindShortestSeparator(c, all[p - 1].IK(), all[p].IK());
    forall q | 0 <= q < |all|
      ensures q < p - 1 ==> Precedes(all[q], all[p - 1])
      ensures p < q ==> Precedes(all[p], all[q])
      ensures Precedes(all[p - 1], all[p])
    {
    }
  }

  lemma SuccessorCuts(c: Shortening, all: seq<Entry>)
    requires GoodShortening(c) && Sorted(all) && |all| > 0
    ensures Cuts(all, |all|, FindShortSuccessor(c, all[|all| - 1].IK()))
  {
    var p := |all|;
    forall q | 0 <= q < p - 1
      ensures Precedes(all[q], all[p - 1])
    {
    }
  }

  /** The index so far: each key cuts at the end of its block, and stays a cut however the table goes on. */
  ghost predicate IndexOk(all: seq<Entry>, blocks: seq<seq<Entry>>, index: seq<IKey>) {
    |index| <= |blocks| && forall i :: 0 <= i < |index| ==> LastingCut(all, Begin(blocks, i + 1), index[i])
  }

  ghost predicate LastingCut(all: seq<Entry>, p: nat, k: IKey) {
    Cuts(all, p, k) && p < |all| && (k == all[p - 1].IK() || k.key < all[p].key)
  }

  lemma CutLasts(all: seq<Entry>, p: nat, k: IKey, e: Entry)
    requires LastingCut(all, p, k) && Sorted(all + [e])
    ensures LastingCut(all + [e], p, k)
  {
    assert Precedes((all + [e])[p], (all + [e])[|all|]);
  }

  lemma SeparatorLasts(c: Shortening, all: seq<Entry>, e: Entry)
    requires GoodShortening(c) && Sorted(all + [e]) && |all| > 0
    ensures LastingCut(all + [e], |all|, FindShortestSeparator(c, all[|all| - 1].IK(), e.IK()))
  {
    SeparatorCuts(c, all + [e], |all|);
    assert Precedes((all + [e])[|all| - 1], (all + [e])[|all|]);
  }

  lemma IndexGrows(all: seq<Entry>, blocks: seq<seq<Entry>>, index: seq<IKey>, e: Entry)
    requires IndexOk(all, blocks, index) && Sorted(all + [e])
    ensures IndexOk(all + [e], blocks, index)
  {
    hide LastingCut;
    forall i | 0 <= i < |index|
      ensures LastingCut(all + [e], Begin(blocks, i + 1), index[i])
    {
      CutLasts(all, Begin(blocks, i + 1), index[i], e);
    }
  }

  lemma IndexCatchesUp(c: Shortening, all: seq<Entry>, blocks: seq<seq<Entry>>, index: seq<IKey>, e: Entry)
    requires GoodShortening(c) && all == Flat(blocks) && |all| > 0 && Sorted(all + [e])
    requires IndexOk(all, blocks, index) && |index| + 1 == |blocks|
    ensures IndexOk(all + [e], blocks, index + [FindShortestSeparator(c, all[|all| - 1].IK(), e.IK())])
  {
    hide LastingCut, GoodShortening, FindShortestSeparator, Sorted, Flat;
    IndexGrows(all, blocks, index, e);
    SeparatorLasts(c, all, e);
    assert blocks[..|blocks|] == blocks;
  }

  lemma IndexKeepsOnFlush(all: seq<Entry>, blocks: seq<seq<Entry>>, b: seq<Entry>, index: seq<IKey>)
    requires IndexOk(all, blocks, index)
    ensures IndexOk(all, blocks + [b], index)
  {
    hide LastingCut;
    forall i | 0 <= i < |index|
      ensures LastingCut(all, Begin(blocks + [b], i + 1), index[i])
    {
      assert (blocks + [b])[..i + 1] == blocks[..i + 1];
    }
  }

  /** Between two runs of entries the index has the separator of the last key before and the first key after. */
  ghost predicate IndexIs(c: Shortening, runs: seq<seq<Entry>>, index: seq<IKey>) {
    |index| < |runs| && forall i: nat :: i < |index| ==> SeparatorIs(c, runs[i], runs[i + 1], index[i])
  }

  ghost predicate SeparatorIs(c: Shortening, before: seq<Entry>, after: seq<Entry>, k: IKey) {
    before != [] && after != [] && k == FindShortestSeparator(c, before[|before| - 1].IK(), after[0].IK())
  }

  lemma IndexIsAfterAdd(c: Shortening, blocks: seq<seq<Entry>>, block: seq<Entry>, e: Entry, index: seq<IKey>)
    requires IndexIs(c, blocks + [block], index) && (|index| == |blocks| > 0 ==> block != [])
    ensures IndexIs(c, blocks + [block + [e]], index)
  {
    hide FindShortestSeparator;
    var runs, more := blocks + [block], blocks + [block + [e]];
    forall i: nat | i < |index|
      ensures SeparatorIs(c, more[i], more[i + 1], index[i])
    {
      assert SeparatorIs(c, runs[i], runs[i + 1], index[i]);
      assert more[i] == runs[i] && (i + 1 < |blocks| ==> more[i + 1] == runs[i + 1]);
    }
  }

  lemma IndexIsAfterEntry(c: Shortening, blocks: seq<seq<Entry>>, e: Entry, index: seq<IKey>)
    requires IndexIs(c, blocks + [[]], index) && |index| + 1 == |blocks| && blocks[|index|] != []
    ensures IndexIs(c, blocks + [[e]], index + [FindShortestSeparator(c, LastKeyOf(blocks[|index|]), e.IK())])
  {
    hide FindShortestSeparator;
    var runs, more := blocks + [[]], blocks + [[e]];
    var longer := index + [FindShortestSeparator(c, LastKeyOf(blocks[|index|]), e.IK())];
    forall i: nat | i < |longer|
      ensures SeparatorIs(c, more[i], more[i + 1], longer[i])
    {
      assert i < |index| ==> SeparatorIs(c, runs[i], runs[i + 1], index[i]);
      assert i < |index| ==> more[i] == runs[i] && more[i + 1] == runs[i + 1];
    }
  }

  lemma IndexIsAfterFlush(c: Shortening, runs: seq<seq<Entry>>, index: seq<IKey>)
    requires IndexIs(c, runs, index)
    ensures IndexIs(c, runs + [[]], index)
  {
    hide FindShortestSeparator;
    var more := runs + [[]];
    forall i: nat | i < |index|
      ensures SeparatorIs(c, more[i], more[i + 1], index[i])
    {
      assert SeparatorIs(c, runs[i], runs[i + 1], index[i]);
    }
  }

  lemma DropLast(c: Shortening, blocks: seq<seq<Entry>>, index: seq<IKey>)
    requires IndexIs(c, blocks + [[]], index) && |index| < |blocks|
    ensures IndexIs(c, blocks, index)
  {
    hide SeparatorIs;
    var runs := blocks + [[]];
    forall i: nat | i < |index|
      ensures SeparatorIs(c, blocks[i], blocks[i + 1], index[i])
    {
      assert SeparatorIs(c, runs[i], runs[i + 1], index[i]);
    }
  }

  function LastKeyOf(block: seq<Entry>): IKey
    requires block != []
  {
    block[|block| - 1].IK()
  }

  lemma LastOfFlat(blocks: seq<seq<Entry>>)
    requires blocks != [] && blocks[|blocks| - 1] != []
    ensures |Flat(blocks)| > 0 && LastKeyOf(Flat(blocks)) == LastKeyOf(blocks[|blocks| - 1])
  {
  }

  /** A whole index: separators between the blocks and a successor after the last. */
  ghost predicate FullIndex(c: Shortening, blocks: seq<seq<Entry>>, index: seq<IKey>) {
    && |index| == |blocks|
    && (blocks != [] ==>
      && IndexIs(c, blocks, index[..|index| - 1]) && blocks[|blocks| - 1] != []
      && index[|index| - 1] == FindShortSuccessor(c, LastKeyOf(blocks[|blocks| - 1])))
  }

  /** Every key is promised to the filter of the offset its block begins at. */
  ghost predicate Promised(blocks: seq<seq<Entry>>, offsets: seq<nat>, added: seq<Added>)
    requires |offsets| == |blocks|
  {
    forall i, j :: 0 <= i < |blocks| && 0 <= j < |blocks[i]| ==> Added(offsets[i] / FILTER_BASE, blocks[i][j].key) in added
  }

  lemma PromiseMore(blocks: seq<seq<Entry>>, offsets: seq<nat>, block: seq<Entry>, offset: nat, added: seq<Added>, e: Entry)
    requires |offsets| == |blocks| && Promised(blocks + [block], offsets + [offset], added)
    ensures Promised(blocks + [block + [e]], offsets + [offset], added + [Added(offset / FILTER_BASE, e.key)])
  {
    var wider: seq<seq<Entry>> := blocks + [block + [e]];
    forall i: nat, j: nat | i < |wider| && j < |wider[i]|
      ensures Added((offsets + [offset])[i] / FILTER_BASE, wider[i][j].key) in added + [Added(offset / FILTER_BASE, e.key)]
    {
      if i < |blocks| || j < |block| {
        assert (blocks + [block])[i][j] == wider[i][j];
      }
    }
  }

  lemma PromiseOfNone(blocks: seq<seq<Entry>>, offsets: seq<nat>, offset: nat, added: seq<Added>)
    requires |offsets| == |blocks| && Promised(blocks, offsets, added)
    ensures Promised(blocks + [[]], offsets + [offset], added)
  {
  }

  // ---------------------------------------------------------------- a finished table

  datatype Table = Table(blocks: seq<seq<Entry>>, offsets: seq<nat>, index: seq<IKey>, filters: Option<FilterBlock>) {
    function Entries(): seq<Entry> {
      Flat(blocks)
    }
  }

  /** Every key of the index cuts the entries at the end of its block. */
  ghost predicate IndexCuts(blocks: seq<seq<Entry>>, index: seq<IKey>)
    requires |index| == |blocks|
  {
    forall i :: 0 <= i < |blocks| ==> Cuts(Flat(blocks), Begin(blocks, i + 1), index[i])
  }

  ghost predicate FilterAdmits(hash: UserKey -> Word, t: Table, i: nat, u: UserKey)
    requires i < |t.offsets|
  {
    t.filters.Some? ==> BlockMatches(hash, t.filters.value, t.offsets[i], u)
  }

  ghost predicate GoodTable(hash: UserKey -> Word, t: Table) {
    && |t.offsets| == |t.index| == |t.blocks| && Sorted(t.Entries())
    && IndexCuts(t.blocks, t.index)
    && (forall i, j :: 0 <= i < |t.blocks| && 0 <= j < |t.blocks[i]| ==> FilterAdmits(hash, t, i, t.blocks[i][j].key))
  }

  // ---------------------------------------------------------------- building

  /** A type byte and a checksum. */
  const TRAILER_SIZE: nat := 5

  class TableBuilder {
    const shortening: Shortening
    const blockSize: nat
    const bytes: seq<Entry> -> nat           // the estimate for an unfinished block, and what a finished one takes
    const hash: UserKey -> Word
    const filterBlock: FilterBlockBuilder?
    var blocks: seq<seq<Entry>>              // written
    var offsets: seq<nat>
    var index: seq<IKey>
    var dataBlock: seq<Entry>
    var pendingIndexEntry: bool
    var lastKey: Option<IKey>
    var offset: nat

    /** Everything added so far. */
    ghost function Contents(): seq<Entry>
      reads this
    {
      Flat(blocks) + dataBlock
    }

    ghost predicate Valid()
      reads this, filterBlock
    {
      EntriesOk() && FiltersOk()
    }

    ghost predicate EntriesOk()
      reads this
    {
      && GoodShortening(shortening) && Sorted(Contents())
      && lastKey == (if Contents() == [] then None else Some(Contents()[|Contents()| - 1].IK()))
      && (if dataBlock == [] then pendingIndexEntry == (blocks != []) else !pendingIndexEntry)
      && |offsets| == |blocks| == |index| + (if pendingIndexEntry then 1 else 0)
      && IndexOk(Contents(), blocks, index) && IndexIs(shortening, blocks + [dataBlock], index)
      && (forall i :: 0 <= i < |blocks| ==> |blocks[i]| > 0)
    }

    ghost predicate FiltersOk()
      reads this, filterBlock
      requires |offsets| == |blocks|
    {
      filterBlock != null ==>
        && filterBlock.Valid() && filterBlock.hash == hash && |filterBlock.filters| == offset / FILTER_BASE
        && Promised(blocks + [dataBlock], offsets + [offset], filterBlock.added)
    }

    constructor (shortening: Shortening, blockSize: nat, bytes: seq<Entry> -> nat, hash: UserKey -> Word,
                 filterBlock: FilterBlockBuilder?)
      requires GoodShortening(shortening)
      requires filterBlock != null ==> filterBlock.Valid() && filterBlock.hash == hash
                                       && filterBlock.filters == [] && filterBlock.added == []
      ensures Valid() && Contents() == [] && this.filterBlock == filterBlock && this.shortening == shortening && this.hash == hash
    {
      this.shortening, this.blockSize, this.bytes, this.hash := shortening, blockSize, bytes, hash;
      this.filterBlock := filterBlock;
      blocks, offsets, index, dataBlock, pendingIndexEntry, lastKey, offset := [], [], [], [], false, None, 0;
    }

    method Add(e: Entry)
      requires Valid() && Sorted(Contents() + [e])
      modifies this, filterBlock
      ensures Valid() && Contents() == old(Contents()) + [e]
      ensures var full, cut := old(dataBlock) + [e], bytes(old(dataBlock) + [e]) >= blockSize;
              && dataBlock == (if cut then [] else full)
              && blocks == old(blocks) + (if cut then [full] else [])
              && offsets == old(offsets) + (if cut then [old(offset)] else [])
              && offset == old(offset) + if cut then bytes(full) + TRAILER_SIZE else 0
    {
      hide EntriesOk, FiltersOk, ReadyFor, Flat, Sorted;
      AddIndexEntry(e);
      AddToBlock(e);
      if bytes(dataBlock) >= blockSize {
        Flush();
      }
    }

    /** The index is as it has to be when e is the next entry of the block. */
    ghost predicate ReadyFor(e: Entry)
      reads this, filterBlock
    {
      && !pendingIndexEntry && |offsets| == |blocks| == |index| && FiltersOk()
      && GoodShortening(shortening) && Sorted(Contents() + [e]) && (forall i :: 0 <= i < |blocks| ==> |blocks[i]| > 0)
      && IndexOk(Contents() + [e], blocks, index) && IndexIs(shortening, blocks + [dataBlock + [e]], index)
    }

    /** The part of Add that follows the index entry, up to the question whether the block is full. */
    method AddToBlock(e: Entry)
      requires ReadyFor(e)
      modifies this`lastKey, this`dataBlock, filterBlock
      ensures Valid() && Contents() == old(Contents()) + [e] && dataBlock == old(dataBlock) + [e]
    {
      hide IndexOk, IndexIs, GoodShortening, Sorted, Flat;
      ghost var all := Contents();
      if filterBlock != null {
        PromiseMore(blocks, offsets, dataBlock, offset, filterBlock.added, e);
        filterBlock.AddKey(e.key);
      }
      lastKey := Some(e.IK());
      dataBlock := dataBlock + [e];
      assert Contents() == all + [e];
    }

    /** The index entry for the block before is made only when the first key after it is known. */
    method AddIndexEntry(e: Entry)
      requires Valid() && Sorted(Contents() + [e])
      modifies this`index, this`pendingIndexEntry
      ensures ReadyFor(e) && Contents() == old(Contents())
    {
      hide IndexIs;
      if pendingIndexEntry {
        BlocksHold(blocks);
        LastOfFlat(blocks);
        IndexIsAfterEntry(shortening, blocks, e, index);
        assert dataBlock + [e] == [e];
        assert Contents() == Flat(blocks);
        IndexCatchesUp(shortening, Flat(blocks), blocks, index, e);
        index := index + [FindShortestSeparator(shortening, lastKey.value, e.IK())];
        pendingIndexEntry := false;
      } else {
        IndexGrows(Contents(), blocks, index, e);
        IndexIsAfterAdd(shortening, blocks, dataBlock, e, index);
      }
    }

    method Flush()
      requires Valid()
      modifies this, filterBlock
      ensures Valid() && Contents() == old(Contents()) && dataBlock == []
      ensures var block := old(dataBlock);
              if block == [] then blocks == old(blocks) && offsets == old(offsets) && offset == old(offset)
              else && blocks == old(blocks) + [block] && offsets == old(offsets) + [old(offset)]
                   && offset == old(offset) + bytes(block) + TRAILER_SIZE
    {
      if dataBlock == [] {
        return;
      }
      hide EntriesOk, Flat, Promised, FilterBlockBuilder.Valid;
      WriteBlock();
      if filterBlock != null {
        filterBlock.StartBlock(offset);
        PromiseOfNone(blocks, offsets, offset, filterBlock.added);
      }
    }

    /** The part of Flush that does not concern filters. */
    method WriteBlock()
      requires EntriesOk() && dataBlock != []
      modifies this
      ensures EntriesOk() && Contents() == old(Contents()) && dataBlock == [] && |offsets| == |blocks|
      ensures blocks == old(blocks + [dataBlock]) && offsets == old(offsets + [offset])
      ensures offset == old(offset + bytes(dataBlock) + TRAILER_SIZE)
    {
      hide IndexOk, IndexIs, GoodShortening, Sorted, Flat;
      IndexIsAfterFlush(shortening, blocks + [dataBlock], index);
      FlatJoins(blocks, dataBlock);
      IndexKeepsOnFlush(Contents(), blocks, dataBlock, index);
      blocks, offsets := blocks + [dataBlock], offsets + [offset];
      offset := offset + bytes(dataBlock) + TRAILER_SIZE;
      dataBlock, pendingIndexEntry := [], true;
      assert Contents() == old(Contents());
    }

    /** The finished table holds what was added, well indexed and with filters that admit every key. */
    method Finish() returns (t: Table)
      requires Valid()
      modifies this, filterBlock
      ensures GoodTable(hash, t) && t.Entries() == old(Contents())
      ensures forall i :: 0 <= i < |t.blocks| ==> |t.blocks[i]| > 0
      ensures FullIndex(shortening, t.blocks, t.index) && (t.filters.None? <==> filterBlock == null)
      ensures t.blocks == old(blocks) + (if old(dataBlock) == [] then [] else [old(dataBlock)])
      ensures t.offsets == old(offsets) + (if old(dataBlock) == [] then [] else [old(offset)])
    {
      hide Cuts, Flat, Sorted, GoodShortening, IndexOk, IndexCuts, IndexIs, FullIndex, BlockMatches, FiltersOk;
      Flush();
      assert Contents() == Flat(blocks);
      var filters := FinishFilters();
      FinishIndex();
      t := Table(blocks, offsets, index, filters);
    }

    /** The filters admit every key of the blocks written. */
    method FinishFilters() returns (filters: Option<FilterBlock>)
      requires Valid() && dataBlock == []
      modifies filterBlock
      ensures filters.None? <==> filterBlock == null
      ensures filters.Some? ==>
                forall i, j :: 0 <= i < |blocks| && 0 <= j < |blocks[i]| ==> BlockMatches(hash, filters.value, offsets[i], blocks[i][j].key)
    {
      hide BlockMatches, Promised, FilterBlockBuilder.Valid, IndexOk, IndexIs, GoodShortening, Sorted, Flat;
      filters := None;
      if filterBlock != null {
        var f := filterBlock.Finish();
        filters := Some(f);
        PromiseIsKept(hash, blocks, offsets, offset, f, filterBlock.added);
      }
    }

    /** The last block's index entry needs no key after it. */
    method FinishIndex()
      requires EntriesOk() && dataBlock == []
      modifies this`index, this`pendingIndexEntry
      ensures |index| == |blocks| && Sorted(Flat(blocks)) && IndexCuts(blocks, index) && FullIndex(shortening, blocks, index)
    {
      hide Cuts, Sorted, GoodShortening, IndexOk, IndexIs, FindShortSuccessor, Flat;
      assert Contents() == Flat(blocks);
      if pendingIndexEntry {
        IndexIsFinished(shortening, blocks, index);
        assert lastKey.value == Flat(blocks)[|Flat(blocks)| - 1].IK();
        LastOfFlat(blocks);
        assert IndexIs(shortening, blocks, index) by {
          DropLast(shortening, blocks, index);
        }
        ghost var before := index;
        index := index + [FindShortSuccessor(shortening, lastKey.value)];
        assert index[..|index| - 1] == before;
        pendingIndexEntry := false;
      }
    }
  }

  lemma PromiseIsKept(hash: UserKey -> Word, blocks: seq<seq<Entry>>, offsets: seq<nat>, offset: nat, f: FilterBlock,
                      added: seq<Added>)
    requires |offsets| == |blocks| && Promised(blocks + [[]], offsets + [offset], added)
    requires forall key, at: nat :: Added(at / FILTER_BASE, key) in added ==> BlockMatches(hash, f, at, key)
    ensures forall i, j :: 0 <= i < |blocks| && 0 <= j < |blocks[i]| ==> BlockMatches(hash, f, offsets[i], blocks[i][j].key)
  {
    hide BlockMatches;
    forall i, j | 0 <= i < |blocks| && 0 <= j < |blocks[i]|
      ensures Added(offsets[i] / FILTER_BASE, blocks[i][j].key) in added
    {
      assert (blocks + [[]])[i] == blocks[i] && (offsets + [offset])[i] == offsets[i];
    }
  }

  /** With the last block's successor added, every key of the index cuts. */
  lemma IndexIsFinished(c: Shortening, blocks: seq<seq<Entry>>, index: seq<IKey>)
    requires GoodShortening(c) && Sorted(Flat(blocks)) && |index| + 1 == |blocks| && |blocks[|blocks| - 1]| > 0
    requires IndexOk(Flat(blocks), blocks, index)
    ensures |Flat(blocks)| > 0
    ensures IndexCuts(blocks, index + [FindShortSuccessor(c, Flat(blocks)[|Flat(blocks)| - 1].IK())])
  {
    BlocksHold(blocks);
    SuccessorCuts(c, Flat(blocks));
    hide Cuts, Flat, GoodShortening, FindShortSuccessor;
    assert blocks[..|blocks|] == blocks;
  }

  lemma BlocksHold(blocks: seq<seq<Entry>>)
    requires |blocks| > 0 && |blocks[|blocks| - 1]| > 0
    ensures |Flat(blocks)| > 0
  {
  }

  // ---------------------------------------------------------------- lookups

  /** Where Seek leaves an iterator over the index. */
  function SeekIndex(index: seq<IKey>, target: IKey): (i: nat)
    ensures i <= |index| && (forall j :: 0 <= j < i ==> Less(index[j], target))
    ensures i < |index| ==> !Less(index[i], target)
  {
    if index == [] || !Less(index[0], target) then 0
    else
      assert forall k :: 0 <= k < |index[1..]| ==> index[1..][k] == index[k + 1];
      1 + SeekIndex(index[1..], target)
  }

  /** Entries in blocks before the one the index points to are before the target, entries in later ones are not. */
  lemma IndexNarrows(hash: UserKey -> Word, t: Table, target: IKey)
    requires GoodTable(hash, t)
    ensures var all, i := t.Entries(), SeekIndex(t.index, target);
            && Begin(t.blocks, i) <= |all|
            && (forall q :: 0 <= q < Begin(t.blocks, i) ==> Less(all[q].IK(), target))
            && (i < |t.blocks| ==> forall q :: Begin(t.blocks, i + 1) <= q < |all| ==> Less(target, all[q].IK()))
  {
    hide Flat;
    var i := SeekIndex(t.index, target);
    BeginGrows(t.blocks, i, |t.blocks|);
    if i > 0 {
      assert Cuts(t.Entries(), Begin(t.blocks, i), t.index[i - 1]);
      assert Less(t.index[i - 1], target);
    } else {
      assert t.blocks[..0] == [];
      NoBlocks();
    }
    if i < |t.blocks| {
      assert Cuts(t.Entries(), Begin(t.blocks, i + 1), t.index[i]);
      assert !Less(t.index[i], target);
    }
  }

  lemma NoBlocks()
    ensures Flat([]) == []
  {
  }

  lemma SeekIsUnique(all: seq<Entry>, target: IKey, a: nat, b: nat)
    requires IsSeekPosition(all, target, a) && IsSeekPosition(all, target, b)
    ensures a == b
  {
  }

  /** If the block the index points to holds the target's place, that is the table's place for it; if not, the next
      entry of the table is of another user key, for all the shortening of index keys. */
  lemma BlockDecides(hash: UserKey -> Word, t: Table, u: UserKey, s: nat)
    requires GoodTable(hash, t)
    ensures var target := SeekKey(u, s);
            var all, i := t.Entries(), SeekIndex(t.index, target);
            var p := SeekTable(all, target);
            if i == |t.blocks| then p == |all|
            else
              var j := SeekTable(t.blocks[i], target);
              if j < |t.blocks[i]| then p < |all| && all[p] == t.blocks[i][j]
              else p == |all| || all[p].key != u
  {
    hide Flat, Cuts;
    var target := SeekKey(u, s);
    var all, i := t.Entries(), SeekIndex(t.index, target);
    IndexNarrows(hash, t, target);
    if i == |t.blocks| {
      assert t.blocks[..i] == t.blocks;
      SeekIsUnique(all, target, SeekTable(all, target), |all|);
    } else {
      BlockPlace(t, i, target);
      if SeekTable(t.blocks[i], target) == |t.blocks[i]| {
        BeginNext(t.blocks, i);
        NextIsOther(hash, t, i, u, s);
      }
    }
  }

  lemma BlockIsSorted(t: Table, i: nat)
    requires Sorted(t.Entries()) && i < |t.blocks|
    ensures Sorted(t.blocks[i])
  {
    forall j, k | 0 <= j < k < |t.blocks[i]|
      ensures Precedes(t.blocks[i][j], t.blocks[i][k])
    {
      FlatAt(t.blocks, i, j);
      FlatAt(t.blocks, i, k);
    }
  }

  lemma BlockPlace(t: Table, i: nat, target: IKey)
    requires Sorted(t.Entries()) && i < |t.blocks|
    requires Begin(t.blocks, i) <= |t.Entries()|
    requires forall q :: 0 <= q < Begin(t.blocks, i) ==> Less(t.Entries()[q].IK(), target)
    requires forall q :: Begin(t.blocks, i + 1) <= q < |t.Entries()| ==> Less(target, t.Entries()[q].IK())
    ensures SeekTable(t.Entries(), target) == Begin(t.blocks, i) + SeekTable(t.blocks[i], target)
    ensures SeekTable(t.blocks[i], target) < |t.blocks[i]| ==>
              SeekTable(t.Entries(), target) < |t.Entries()|
              && t.Entries()[SeekTable(t.Entries(), target)] == t.blocks[i][SeekTable(t.blocks[i], target)]
  {
    hide Flat;
    var all, b, j := t.Entries(), t.blocks[i], SeekTable(t.blocks[i], target);
    var begin := Begin(t.blocks, i);
    BlockIsSorted(t, i);
    BeginNext(t.blocks, i);
    BeginGrows(t.blocks, i + 1, |t.blocks|);
    forall q | begin <= q < begin + |b|
      ensures all[q] == b[q - begin]
    {
      FlatAt(t.blocks, i, q - begin);
    }
    assert IsSeekPosition(all, target, begin + j);
    SeekIsUnique(all, target, SeekTable(all, target), begin + j);
  }

  lemma NextIsOther(hash: UserKey -> Word, t: Table, i: nat, u: UserKey, s: nat)
    requires GoodTable(hash, t) && i < |t.blocks| && !Less(t.index[i], SeekKey(u, s))
    requires SeekTable(t.Entries(), SeekKey(u, s)) == Begin(t.blocks, i + 1)
    ensures var p := SeekTable(t.Entries(), SeekKey(u, s)); p == |t.Entries()| || t.Entries()[p].key != u
  {
    hide Flat;
    var all, p := t.Entries(), Begin(t.blocks, i + 1);
    assert Cuts(all, p, t.index[i]);
    assert Less(all[p - 1].IK(), SeekKey(u, s));
  }

  /** Table::InternalGet: the entry handed to the callback, if any. */
  method InternalGet(hash: UserKey -> Word, t: Table, u: UserKey, s: nat) returns (r: Option<Entry>)
    requires GoodTable(hash, t)
    ensures var p := SeekTable(t.Entries(), SeekKey(u, s));
            if p < |t.Entries()| && t.Entries()[p].key == u then r == Some(t.Entries()[p])
            else r.None? || r.value.key != u
  {
    hide Cuts, Flat, BlockMatches;
    BlockDecides(hash, t, u, s);
    var target := SeekKey(u, s);
    var i := SeekIndex(t.index, target);
    if i == |t.index| {
      return None;
    }
    if t.filters.Some? {
      var may := BlockKeyMayMatch(hash, t.filters.value, t.offsets[i], u);
      if !may {
        // No entry of the block has the key: it would have been admitted
        return None;
      }
    }
    var j := SeekTable(t.blocks[i], target);
    r := if j < |t.blocks[i]| then Some(t.blocks[i][j]) else None;
  }

  /** What Version::Get learns from one table: SaveValue on the entry found. */
  method GetFromTable(hash: UserKey -> Word, t: Table, f: File, u: UserKey, s: nat) returns (r: SaverState)
    requires GoodTable(hash, t) && f.entries == t.Entries()
    ensures r == TableGet(f, u, s)
  {
    var e := InternalGet(hash, t, u, s);
    if e.None? || e.value.key != u {
      r := NotFound;
    } else if e.value.kind.Value? {
      r := Found(e.value.value);
    } else {
      r := Deleted;
    }
  }

  // ---------------------------------------------------------------- iterating over all blocks

  class TwoLevelIterator {
    const index: seq<IKey>
    const blocks: seq<seq<Entry>>
    var indexPos: nat                 // not valid at |blocks|
    var data: Option<nat>             // position in the block at indexPos, not valid at its length

    ghost predicate Valid()
      reads this
    {
      && |index| == |blocks| && indexPos <= |blocks|
      && (if indexPos < |blocks| then data.Some? && data.value < |blocks[indexPos]| else data == None)
    }

    /** The place in the run of all entries; its length if the iterator is not valid. */
    ghost function At(): nat
      reads this
      requires Valid()
    {
      Begin(blocks, indexPos) + if data.Some? then data.value else 0
    }

    constructor (index: seq<IKey>, blocks: seq<seq<Entry>>)
      requires |index| == |blocks|
      ensures Valid() && this.index == index && this.blocks == blocks && At() == |Flat(blocks)|
    {
      this.index, this.blocks := index, blocks;
      indexPos, data := |blocks|, None;
      assert blocks[..|blocks|] == blocks;
    }

    method Current() returns (e: Option<Entry>)
      requires Valid()
      ensures if At() < |Flat(blocks)| then e == Some(Flat(blocks)[At()]) else e == None
    {
      if data.Some? {
        FlatAt(blocks, indexPos, data.value);
        e := Some(blocks[indexPos][data.value]);
      } else {
        assert blocks[..|blocks|] == blocks;
        e := None;
      }
    }

    method SkipEmptyDataBlocksForward()
      requires |index| == |blocks| && indexPos <= |blocks|
      requires if indexPos < |blocks| then data.Some? && data.value <= |blocks[indexPos]| else data == None
      modifies this
      ensures Valid() && At() == old(Begin(blocks, indexPos) + if data.Some? then data.value else 0)
    {
      hide Flat;
      ghost var at := Begin(blocks, indexPos) + if data.Some? then data.value else 0;
      while data.None? || data.value >= |blocks[indexPos]|
        invariant indexPos <= |blocks|
        invariant if indexPos < |blocks| then data.Some? && data.value <= |blocks[indexPos]| else data == None
        invariant at == Begin(blocks, indexPos) + if data.Some? then data.value else 0
        decreases |blocks| - indexPos
      {
        if indexPos >= |blocks| {
          data := None;
          return;
        }
        BeginNext(blocks, indexPos);
        indexPos := indexPos + 1;
        data := if indexPos < |blocks| then Some(0) else None;
      }
    }

    method Next()
      requires Valid() && At() < |Flat(blocks)|
      modifies this
      ensures Valid() && At() == old(At()) + 1
    {
      assert blocks[..|blocks|] == blocks;
      data := Some(data.value + 1);
      SkipEmptyDataBlocksForward();
    }

    method SeekToFirst()
      requires Valid()
      modifies this
      ensures Valid() && At() == 0
    {
      indexPos := 0;
      data := if indexPos < |blocks| then Some(0) else None;
      assert blocks[..0] == [];
      SkipEmptyDataBlocksForward();
    }

    /** With an index that narrows, Seek lands on the first entry at or after the target. */
    method Seek(hash: UserKey -> Word, t: Table, target: IKey)
      requires Valid() && GoodTable(hash, t) && t.blocks == blocks && t.index == index
      modifies this
      ensures Valid() && IsSeekPosition(Flat(blocks), target, At())
    {
      hide Flat, Cuts;
      indexPos := SeekIndex(index, target);
      IndexNarrows(hash, t, target);
      if indexPos < |blocks| {
        BlockPlace(t, indexPos, target);
        BlockIsSorted(t, indexPos);
        data := Some(SeekTable(blocks[indexPos], target));
      } else {
        assert blocks[..|blocks|] == blocks;
        SeekIsUnique(t.Entries(), target, SeekTable(t.Entries(), target), |t.Entries()|);
        data := None;
      }
      SkipEmptyDataBlocksForward();
    }

    /** Moving back, a data iterator that has run out stands before its block's first entry. */
    method SkipEmptyDataBlocksBackward(ghost at: int)
      requires |index| == |blocks| && indexPos <= |blocks| && (data.Some? ==> indexPos < |blocks|)
      requires if data.Some? && data.value < |blocks[indexPos]| then at == Begin(blocks, indexPos) + data.value
               else at == Begin(blocks, indexPos) - 1 && indexPos < |blocks|
      modifies this
      ensures Valid() && At() == if at >= 0 then at else |Flat(blocks)|
    {
      hide Flat;
      while data.None? || data.value >= |blocks[indexPos]|
        invariant indexPos <= |blocks| && (data.Some? ==> indexPos < |blocks|)
        invariant if data.Some? && data.value < |blocks[indexPos]| then at == Begin(blocks, indexPos) + data.value
                  else if indexPos < |blocks| then at == Begin(blocks, indexPos) - 1
                  else at == -1 && data == None
        decreases if indexPos < |blocks| then indexPos + 1 else 0
      {
        if indexPos >= |blocks| {
          data := None;
          assert blocks[..|blocks|] == blocks;
          return;
        }
        if indexPos == 0 {
          assert blocks[..0] == [];
          NoBlocks();
          indexPos := |blocks|;
        } else {
          BeginNext(blocks, indexPos - 1);
          indexPos := indexPos - 1;
        }
        data := if indexPos >= |blocks| then None
                else if |blocks[indexPos]| == 0 then Some(0) else Some(|blocks[indexPos]| - 1);
      }
    }

    method Prev()
      requires Valid() && At() < |Flat(blocks)|
      modifies this
      ensures Valid() && At() == if old(At()) > 0 then old(At()) - 1 else |Flat(blocks)|
    {
      ghost var at: int := At();
      assert blocks[..|blocks|] == blocks;
      data := Some(if data.value == 0 then |blocks[indexPos]| else data.value - 1);
      SkipEmptyDataBlocksBackward(at - 1);
    }

    method SeekToLast()
      requires Valid()
      modifies this
      ensures Valid() && At() == if |Flat(blocks)| > 0 then |Flat(blocks)| - 1 else |Flat(blocks)|
    {
      assert blocks[..|blocks|] == blocks;
      if |blocks| == 0 {
        indexPos, data := 0, None;
      } else {
        indexPos := |blocks| - 1;
        BeginNext(blocks, indexPos);
        data := if |blocks[indexPos]| == 0 then Some(0) else Some(|blocks[indexPos]| - 1);
        SkipEmptyDataBlocksBackward(|Flat(blocks)| - 1);
      }
    }
  }
}
