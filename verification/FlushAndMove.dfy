/**
 The two cheaper ways a version changes: a flushed memtable becomes a table of some
 level (CompactMemTable in db/db_impl.cc, PickLevelForMemTableOutput in
 db/version_set.cc), and a lone table moves down a level unchanged (BackgroundCompaction).
 */
module FlushAndMove {
  import opened InternalKeys
  import opened Visibility
  import opened Versions
  import opened CompactionInputs
  import opened VersionSteps

  // ---------------------------------------------------------------- overlap tests

  /** SomeFileOverlapsRange; on a sorted level the answer comes from a single binary search. */
  method SomeFileOverlapsRange(disjointSorted: bool, files: seq<File>, lo: Bound, hi: Bound) returns (r: bool)
    requires GoodFiles(files) && (disjointSorted ==> LevelSorted(files))
    ensures r <==> exists f :: f in files && Overlaps(f, lo, hi)
  {
    if !disjointSorted {
      for i := 0 to |files|
        invariant forall j :: 0 <= j < i ==> !Overlaps(files[j], lo, hi)
      {
        if Overlaps(files[i], lo, hi) {
          return true;
        }
      }
      return false;
    }
    var index := 0;
    if lo.Some? {
      index := FindFile(files, SeekKey(lo.value, MAX_SEQUENCE));
    }
    SearchDecidesOverlap(files, index, lo, hi);
    if index >= |files| {
      return false;
    }
    return !(hi.Some? && hi.value < files[index].smallest.key);
  }

  lemma SearchDecidesOverlap(files: seq<File>, index: nat, lo: Bound, hi: Bound)
    requires GoodFiles(files) && LevelSorted(files) && index <= |files|
    requires lo.None? ==> index == 0
    requires lo.Some? ==> forall i :: 0 <= i < index ==> Less(files[i].largest, SeekKey(lo.value, MAX_SEQUENCE))
    requires lo.Some? ==> forall i :: index <= i < |files| ==> !Less(files[i].largest, SeekKey(lo.value, MAX_SEQUENCE))
    ensures (exists f :: f in files && Overlaps(f, lo, hi)) <==>
            index < |files| && !(hi.Some? && hi.value < files[index].smallest.key)
  {
    if index < |files| {
      BoundsOrdered(files[index]);
      forall i | index < i < |files|
        ensures files[index].smallest.key <= files[i].smallest.key
      {
        assert Less(files[index].largest, files[i].smallest);
      }
      assert files[index] in files;
      assert !(hi.Some? && hi.value < files[index].smallest.key) ==> Overlaps(files[index], lo, hi);
    }
    if f :| f in files && Overlaps(f, lo, hi) {
      var i :| 0 <= i < |files| && files[i] == f;
      assert i >= index;
    }
  }

  // ---------------------------------------------------------------- flush

  const MAX_MEM_COMPACT_LEVEL: nat := 2

  ghost predicate NoOverlap(v: Version, level: nat, lo: UserKey, hi: UserKey)
    requires level < NUM_LEVELS
  {
    forall f :: f in v[level] ==> !Overlaps(f, Some(lo), Some(hi))
  }

  /** Whether the table may sink below level: nothing overlaps it one level down, and not too much two down. */
  ghost predicate MaySink(v: Version, level: nat, lo: UserKey, hi: UserKey, maxFileSize: nat)
    requires level + 2 < NUM_LEVELS
  {
    NoOverlap(v, level + 1, lo, hi) &&
    TotalFileSize(Overlapping(v[level + 2], Some(lo), Some(hi))) <= 10 * maxFileSize
  }

  /** The table sinks past no table of its range, and stops only where it may not sink, or at the bottom. */
  ghost predicate Deepest(v: Version, lo: UserKey, hi: UserKey, maxFileSize: nat, level: nat) {
    && level <= MAX_MEM_COMPACT_LEVEL
    && (level > 0 ==> forall l :: 0 <= l <= level ==> NoOverlap(v, l, lo, hi))
    && (forall l :: 0 <= l < level ==> MaySink(v, l, lo, hi, maxFileSize))
    && (level < MAX_MEM_COMPACT_LEVEL && NoOverlap(v, 0, lo, hi) ==> !MaySink(v, level, lo, hi, maxFileSize))
  }

  lemma DeepLevelsAreSorted(v: Version)
    requires TreeInv(v)
    ensures forall l :: 1 <= l < NUM_LEVELS ==> LevelSorted(v[l])
  {
  }

  /** PickLevelForMemTableOutput: as deep as the table can sink without passing over its own keys. */
  method PickLevelForMemTableOutput(v: Version, lo: UserKey, hi: UserKey, maxFileSize: nat) returns (level: nat)
    requires TreeInv(v)
    ensures Deepest(v, lo, hi, maxFileSize, level)
  {
    hide TotalFileSize, TreeInv, GoodFiles, LevelSorted, Overlaps, OverlapClosure;
    LevelsAreGood(v);
    DeepLevelsAreSorted(v);
    level := 0;
    var overlap := SomeFileOverlapsRange(false, v[0], Some(lo), Some(hi));
    if !overlap {
      while level < MAX_MEM_COMPACT_LEVEL
        invariant 0 <= level <= MAX_MEM_COMPACT_LEVEL
        invariant forall l :: 0 <= l <= level ==> NoOverlap(v, l, lo, hi)
        invariant forall l :: 0 <= l < level ==> MaySink(v, l, lo, hi, maxFileSize)
      {
        overlap := SomeFileOverlapsRange(true, v[level + 1], Some(lo), Some(hi));
        if overlap {
          break;
        }
        var overlaps := GetOverlappingInputs(v, level + 2, Some(lo), Some(hi));
        if TotalFileSize(overlaps) > 10 * maxFileSize {
          break;
        }
        level := level + 1;
      }
    }
  }

  /** v' is v with the table f added to one level. */
  ghost predicate Added(v: Version, level: nat, f: File, v': Version) {
    && level < NUM_LEVELS
    && (forall l :: 0 <= l < NUM_LEVELS && l != level ==> v'[l] == v[l])
    && (forall g :: g in v'[level] <==> g in v[level] || g == f)
    && OrderedBySmallest(v'[level])
  }

  /** A table built from a memtable: newer than every stored entry of its keys, with a fresh number. */
  ghost predicate FreshTable(v: Version, f: File) {
    && GoodFile(f)
    && (forall g :: g in v[0] ==> g.number < f.number)
    && (forall e, x :: e in f.entries && x in VersionEntries(v) && e.key == x.key ==> e.sn > x.sn)
  }

  ghost function TableEntries(f: File): set<Entry> {
    set e | e in f.entries
  }

  lemma EntriesAfterFlush(v: Version, level: nat, f: File, v': Version)
    requires Added(v, level, f, v')
    ensures VersionEntries(v') == VersionEntries(v) + TableEntries(f)
  {
    forall e
      ensures e in VersionEntries(v') <==> e in VersionEntries(v) + TableEntries(f)
    {
      if e in VersionEntries(v') {
        var l: nat, g :| l < NUM_LEVELS && g in v'[l] && e in g.entries;
        assert g == f || g in v[l];
      }
      if e in VersionEntries(v) {
        var l: nat, g :| l < NUM_LEVELS && g in v[l] && e in g.entries;
        assert g in v'[l];
      }
      assert f in v'[level];
    }
  }

  lemma NoSharedKeys(v: Version, l: nat, f: File, g: File, e: Entry, x: Entry)
    requires l < NUM_LEVELS && GoodFile(f) && GoodFile(g) && g in v[l]
    requires NoOverlap(v, l, f.smallest.key, f.largest.key)
    requires e in f.entries && x in g.entries
    ensures e.key != x.key
  {
    WithinBounds(f, e);
    WithinBounds(g, x);
  }

  lemma FreshTableIsUnique(v: Version, f: File)
    requires TreeInv(v) && FreshTable(v, f)
    ensures OnePerSequence(VersionEntries(v) + TableEntries(f))
  {
    forall x, y | x in VersionEntries(v) + TableEntries(f) && y in VersionEntries(v) + TableEntries(f)
                  && x.key == y.key && x.sn == y.sn
      ensures x == y
    {
      if x in f.entries && y in f.entries {
        var i :| 0 <= i < |f.entries| && f.entries[i] == x;
        var j :| 0 <= j < |f.entries| && f.entries[j] == y;
        assert i == j || Precedes(x, y) || Precedes(y, x);
      } else {
        assert x in VersionEntries(v) && y in VersionEntries(v);
      }
    }
  }

  /** Flushing a fresh table to the level that was picked keeps the tree invariant and adds exactly its entries. */
  lemma FlushKeepsTree(v: Version, level: nat, f: File, v': Version)
    requires TreeInv(v) && Added(v, level, f, v') && FreshTable(v, f)
    requires level > 0 ==> forall l :: 0 <= l <= level ==> NoOverlap(v, l, f.smallest.key, f.largest.key)
    ensures TreeInv(v') && VersionEntries(v') == VersionEntries(v) + TableEntries(f)
  {
    EntriesAfterFlush(v, level, f, v');
    FreshTableIsUnique(v, f);
    forall l, m, g, h | 0 <= l < m < NUM_LEVELS && g in v'[l] && h in v'[m]
      ensures FileNewer(g, h)
    {
      FlushKeepsAges(v, level, f, v', l, m, g, h);
    }
    if level > 0 {
      forall g, h | g in v'[level] && h in v'[level] && g != h
        ensures Apart(g, h)
      {
        FlushedApart(v, level, f, g, h);
      }
      assert GoodFiles(v'[level]);
      OrderedAndApart(v'[level]);
    } else {
      FlushKeepsLevelZero(v, f, v');
    }
  }

  lemma FlushKeepsAges(v: Version, level: nat, f: File, v': Version, l: nat, m: nat, g: File, h: File)
    requires TreeInv(v) && Added(v, level, f, v') && FreshTable(v, f)
    requires level > 0 ==> forall l :: 0 <= l <= level ==> NoOverlap(v, l, f.smallest.key, f.largest.key)
    requires l < m < NUM_LEVELS && g in v'[l] && h in v'[m]
    ensures FileNewer(g, h)
  {
    if g in v[l] && h in v[m] {
      assert FileNewer(g, h);
    } else if h in v[m] {
      forall e, x | e in g.entries && x in h.entries && e.key == x.key
        ensures e.sn > x.sn
      {
        assert x in VersionEntries(v);
      }
    } else {
      forall e, x | e in g.entries && x in h.entries
        ensures e.key != x.key
      {
        NoSharedKeys(v, l, f, g, x, e);
      }
    }
  }

  lemma FlushedApart(v: Version, level: nat, f: File, g: File, h: File)
    requires TreeInv(v) && 0 < level < NUM_LEVELS && GoodFile(f) && NoOverlap(v, level, f.smallest.key, f.largest.key)
    requires (g in v[level] || g == f) && (h in v[level] || h == f) && g != h
    ensures Apart(g, h)
  {
    if g in v[level] && h in v[level] {
      SortedFilesApart(v[level], g, h);
    }
  }

  lemma FlushKeepsLevelZero(v: Version, f: File, v': Version)
    requires TreeInv(v) && Added(v, 0, f, v') && FreshTable(v, f)
    ensures NumberedByAge(v'[0])
  {
    LevelFacts(v, 0);
    forall h | h in v[0]
      ensures f.number > h.number && FileNewer(f, h)
    {
      FreshIsNewer(v, f, h);
    }
    NewestJoins(v[0], f, v'[0]);
  }

  lemma NewestJoins(files: seq<File>, f: File, more: seq<File>)
    requires NumberedByAge(files) && (forall h :: h in files ==> f.number > h.number && FileNewer(f, h))
    requires forall g :: g in more <==> g in files || g == f
    ensures NumberedByAge(more)
  {
    hide FileNewer;
  }

  lemma FreshIsNewer(v: Version, f: File, h: File)
    requires FreshTable(v, f) && h in v[0]
    ensures f.number > h.number && FileNewer(f, h)
  {
    forall e, x | e in f.entries && x in h.entries && e.key == x.key
      ensures e.sn > x.sn
    {
      assert x in VersionEntries(v);
    }
  }

  // ---------------------------------------------------------------- trivial move

  predicate IsTrivialMove(c: Compaction, maxFileSize: nat) {
    |c.inputs0| == 1 && c.inputs1 == [] && TotalFileSize(c.grandparents) <= 10 * maxFileSize
  }

  /** Moving the only input down keeps the tree invariant and every entry. */
  lemma TrivialMoveKeepsTree(v: Version, c: Compaction, v': Version)
    requires TreeInv(v) && WellChosen(v, c)
    requires |c.inputs0| == 1 && c.inputs1 == [] && Replaced(v, c, c.inputs0, v')
    ensures TreeInv(v') && VersionEntries(v') == VersionEntries(v)
  {
    hide TreeInv, WellChosen, Compactable, Replaced, VersionEntries;
    WellChosenIsCompactable(v, c);
    MovedTableIsGood(v, c);
    ReplaceKeepsTree(v, c, c.inputs0, v');
    forall e
      ensures e in VersionEntries(v') <==> e in VersionEntries(v)
    {
      EntriesAfterCompaction(v, c, c.inputs0, v', e);
      if e in InputEntries(c) {
        InputsAreEntries(v, c, e);
      }
    }
  }

  lemma MovedTableIsGood(v: Version, c: Compaction)
    requires TreeInv(v) && WellChosen(v, c) && |c.inputs0| == 1
    ensures GoodOutputs(c, c.inputs0)
  {
    hide WellChosen, Compactable;
    WellChosenIsCompactable(v, c);
    ChosenLevel(v, c);
    InputsInLevels(v, c);
    forall g, e | g in c.inputs0 && e in g.entries
      ensures e in InputEntries(c)
    {
      assert e in LevelEntries(c.inputs0);
    }
  }
}
