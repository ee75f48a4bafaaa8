/**
 The input of a compaction as it is made (VersionSet::MakeInputIterator in
 db/version_set.cc): level-0 tables one by one, deeper inputs one table after the other, all
 of them merged.
 */
module InputMerge {
  import opened InternalKeys
  import opened Visibility
  import opened Versions
  import CompactionInputs
  import opened CompactionWork
  import opened VersionSteps
  import Merger

  type Compaction = CompactionInputs.Compaction

  /** What one level contributes. */
  function Part(level: nat, files: seq<File>): seq<seq<Entry>> {
    if files == [] then []
    else if level == 0 then seq(|files|, i requires 0 <= i < |files| => files[i].entries)
    else [Flatten(files)]
  }

  function Children(c: Compaction): seq<seq<Entry>> {
    Part(c.level, c.inputs0) + Part(c.level + 1, c.inputs1)
  }

  // ---------------------------------------------------------------- tables one after the other

  lemma LaterPrecedes(files: seq<File>, i: nat, j: nat, e: Entry, x: Entry)
    requires GoodFiles(files) && LevelSorted(files) && OnePerSequence(LevelEntries(files)) && i < j < |files|
    requires e in files[i].entries && x in files[j].entries
    ensures Precedes(e, x)
  {
    WithinBounds(files[i], e);
    WithinBounds(files[j], x);
    CompactionInputs.EarlierIsNewer(files, i, j);
  }

  lemma ShorterLevel(files: seq<File>, n: nat)
    requires GoodFiles(files) && LevelSorted(files) && OnePerSequence(LevelEntries(files)) && n <= |files|
    ensures GoodFiles(files[..n]) && LevelSorted(files[..n]) && OnePerSequence(LevelEntries(files[..n]))
  {
    assert forall f :: f in files[..n] ==> f in files;
    assert LevelEntries(files[..n]) <= LevelEntries(files);
  }

  /** On a sorted level the tables one after the other are one sorted run. */
  lemma {:induction false} FlattenIsSorted(files: seq<File>)
    requires GoodFiles(files) && LevelSorted(files) && OnePerSequence(LevelEntries(files))
    ensures Sorted(Flatten(files))
    decreases |files|
  {
    hide GoodFiles, LevelSorted, OnePerSequence, Sorted;
    if files == [] {
      NothingIsSorted();
    } else {
      var n := |files| - 1;
      var before := files[..n];
      ShorterLevel(files, n);
      FlattenIsSorted(before);
      TableIsSorted(files, n);
      forall e, x | e in Flatten(before) && x in files[n].entries
        ensures Precedes(e, x)
      {
        FlattenMembers(before, e);
        var f :| f in before && e in f.entries;
        var m :| 0 <= m < |before| && before[m] == f;
        LaterPrecedes(files, m, n, e, x);
      }
      SortedJoins(Flatten(before), files[n].entries);
    }
  }

  lemma NothingIsSorted()
    ensures Sorted([])
  {
  }

  lemma TableIsSorted(files: seq<File>, n: nat)
    requires GoodFiles(files) && n < |files|
    ensures Sorted(files[n].entries)
  {
    assert GoodFile(files[n]);
  }

  lemma SortedJoins(a: seq<Entry>, b: seq<Entry>)
    requires Sorted(a) && Sorted(b) && forall e, x :: e in a && x in b ==> Precedes(e, x)
    ensures Sorted(a + b)
  {
    hide Precedes;
  }

  // ---------------------------------------------------------------- the inputs of a compaction

  /** Tables of a sorted level, in its order. */
  ghost predicate InLevelOrder(files: seq<File>, selected: seq<File>) {
    exists i, j :: 0 <= i <= j <= |files| && selected == files[i..j]
  }

  lemma OrderedSlice(files: seq<File>, selected: seq<File>)
    requires GoodFiles(files) && LevelSorted(files) && OnePerSequence(LevelEntries(files)) && InLevelOrder(files, selected)
    ensures Sorted(Flatten(selected)) && forall f :: f in selected ==> f in files
  {
    hide Sorted;
    var i, j :| 0 <= i <= j <= |files| && selected == files[i..j];
    assert forall f :: f in selected ==> f in files;
    assert LevelEntries(selected) <= LevelEntries(files);
    FlattenIsSorted(selected);
  }

  lemma ChosenInOrder(v: Version, c: Compaction)
    requires TreeInv(v) && CompactionInputs.WellChosen(v, c)
    ensures c.level + 1 < NUM_LEVELS && InLevelOrder(v[c.level + 1], c.inputs1)
    ensures c.level > 0 ==> InLevelOrder(v[c.level], c.inputs0)
  {
    hide CompactionInputs.Isolated, CompactionInputs.IsSmallest, CompactionInputs.IsLargest, GoodFile, FileNewer;
    var a, z :| CompactionInputs.IsSmallest(c.inputs0, a) && CompactionInputs.IsLargest(c.inputs0, z)
                && c.inputs1 == CompactionInputs.Overlapping(v[c.level + 1], Some(a.key), Some(z.key));
    var files := v[c.level + 1];
    CompactionInputs.SortedIsConvex(files, Some(a.key), Some(z.key));
    var i, j := CompactionInputs.OverlappingIsRun(files, |files|, Some(a.key), Some(z.key));
    assert c.inputs1 == files[i..j];
  }

  /** No table is listed twice. */
  ghost predicate AllDifferent(files: seq<File>) {
    forall i, j :: 0 <= i < j < |files| ==> files[i] != files[j]
  }

  lemma {:induction false} OverlappingKeepsOrder(files: seq<File>, n: nat, lo: CompactionInputs.Bound, hi: CompactionInputs.Bound)
    requires OrderedBySmallest(files) && n <= |files|
    ensures AllDifferent(CompactionInputs.OverlappingFirst(files, n, lo, hi))
  {
    if n > 0 {
      OverlappingKeepsOrder(files, n - 1, lo, hi);
      CompactionInputs.OverlappingFirstMembers(files, n - 1, lo, hi, files[n - 1]);
      assert files[n - 1] !in files[..n - 1];
    }
  }

  lemma LevelZeroInputsDiffer(v: Version, c: Compaction)
    requires CompactionInputs.WellChosen(v, c) && c.level == 0 && OrderedBySmallest(v[0])
    ensures AllDifferent(c.inputs0)
  {
    hide CompactionInputs.Isolated, CompactionInputs.OverlapsRangeOf, OrderedBySmallest;
    var lo, hi :| CompactionInputs.Closed(v[0], lo, hi) && c.inputs0 == CompactionInputs.Overlapping(v[0], lo, hi);
    OverlappingKeepsOrder(v[0], |v[0]|, lo, hi);
  }

  ghost predicate PartOk(v: Version, level: nat, files: seq<File>) {
    && level < NUM_LEVELS && GoodFiles(files) && (forall f :: f in files ==> f in v[level])
    && (level > 0 ==> Sorted(Flatten(files))) && (level == 0 ==> AllDifferent(files))
  }

  lemma PartsAreOk(v: Version, c: Compaction)
    requires TreeInv(v) && CompactionInputs.WellChosen(v, c) && OrderedBySmallest(v[0])
    ensures PartOk(v, c.level, c.inputs0) && PartOk(v, c.level + 1, c.inputs1)
  {
    hide CompactionInputs.WellChosen, CompactionInputs.Compactable, InLevelOrder, GoodFile, FileNewer, OrderedBySmallest, AllDifferent;
    ChosenInOrder(v, c);
    CompactionInputs.WellChosenIsCompactable(v, c);
    InputsInLevels(v, c);
    CompactionInputs.LevelIsUnique(v, c.level);
    CompactionInputs.LevelIsUnique(v, c.level + 1);
    hide OnePerSequence, Sorted, LevelSorted;
    OrderedSlice(v[c.level + 1], c.inputs1);
    if c.level > 0 {
      OrderedSlice(v[c.level], c.inputs0);
    } else {
      LevelZeroInputsDiffer(v, c);
    }
  }

  lemma PartIsSorted(v: Version, level: nat, files: seq<File>)
    requires PartOk(v, level, files)
    ensures Merger.ChildrenSorted(Part(level, files))
  {
    forall i | 0 <= i < |Part(level, files)|
      ensures Sorted(Part(level, files)[i])
    {
      assert level == 0 ==> GoodFile(files[i]);
    }
  }

  lemma PartMembers(level: nat, files: seq<File>, e: Entry)
    ensures (exists i :: 0 <= i < |Part(level, files)| && e in Part(level, files)[i]) <==> e in LevelEntries(files)
  {
    FlattenMembers(files, e);
    var part := Part(level, files);
    if e in LevelEntries(files) {
      var f :| f in files && e in f.entries;
      var i :| 0 <= i < |files| && files[i] == f;
      assert e in part[if level == 0 then i else 0];
    }
  }

  /** The table an entry of a child comes from. */
  lemma EntryHome(level: nat, files: seq<File>, i: nat, e: Entry) returns (f: File)
    requires i < |Part(level, files)| && e in Part(level, files)[i]
    ensures f in files && e in f.entries && (level == 0 ==> i < |files| && f == files[i])
  {
    if level == 0 {
      f := files[i];
    } else {
      FlattenMembers(files, e);
      f :| f in files && e in f.entries;
    }
  }

  /** Within a level an entry is in one child only. */
  lemma OneChild(v: Version, level: nat, files: seq<File>, i: nat, j: nat, e: Entry)
    requires TreeInv(v) && PartOk(v, level, files) && i < |Part(level, files)| && j < |Part(level, files)|
    requires e in Part(level, files)[i] && e in Part(level, files)[j]
    ensures i == j
  {
    hide TreeInv, GoodFiles;
    var f := EntryHome(level, files, i, e);
    var g := EntryHome(level, files, j, e);
    OneHome(v, level, level, f, g, e);
  }

  /** And not in children of both levels. */
  lemma OneLevel(v: Version, level: nat, files: seq<File>, lower: seq<File>, i: nat, j: nat, e: Entry)
    requires TreeInv(v) && PartOk(v, level, files) && PartOk(v, level + 1, lower)
    requires i < |Part(level, files)| && j < |Part(level + 1, lower)|
    requires e in Part(level, files)[i]
    ensures e !in Part(level + 1, lower)[j]
  {
    hide TreeInv, GoodFiles;
    if e in Part(level + 1, lower)[j] {
      var f := EntryHome(level, files, i, e);
      var g := EntryHome(level + 1, lower, j, e);
      OneHome(v, level, level + 1, f, g, e);
      assert false;
    }
  }

  lemma ChildrenDiffer(v: Version, c: Compaction, i: nat, j: nat, e: Entry)
    requires TreeInv(v) && PartOk(v, c.level, c.inputs0) && PartOk(v, c.level + 1, c.inputs1)
    requires i < |Children(c)| && j < |Children(c)| && e in Children(c)[i] && e in Children(c)[j]
    ensures i == j
  {
    hide TreeInv, PartOk, Part;
    var upper, lower := Part(c.level, c.inputs0), Part(c.level + 1, c.inputs1);
    var n := |upper|;
    if i < n && j < n {
      OneChild(v, c.level, c.inputs0, i, j, e);
    } else if i >= n && j >= n {
      OneChild(v, c.level + 1, c.inputs1, i - n, j - n, e);
    } else if i < n {
      OneLevel(v, c.level, c.inputs0, c.inputs1, i, j - n, e);
    } else {
      OneLevel(v, c.level, c.inputs0, c.inputs1, j, i - n, e);
    }
  }

  lemma ChildrenHoldInputs(v: Version, c: Compaction)
    requires PartOk(v, c.level, c.inputs0) && PartOk(v, c.level + 1, c.inputs1)
    ensures Merger.ChildrenSorted(Children(c))
    ensures forall e :: (exists i :: 0 <= i < |Children(c)| && e in Children(c)[i]) <==> e in InputEntries(c)
  {
    PartIsSorted(v, c.level, c.inputs0);
    PartIsSorted(v, c.level + 1, c.inputs1);
    hide PartOk, Part;
    var upper, lower := Part(c.level, c.inputs0), Part(c.level + 1, c.inputs1);
    forall e
      ensures (exists i :: 0 <= i < |Children(c)| && e in Children(c)[i]) <==> e in InputEntries(c)
    {
      PartMembers(c.level, c.inputs0, e);
      PartMembers(c.level + 1, c.inputs1, e);
      if i :| 0 <= i < |upper| && e in upper[i] {
        assert Children(c)[i] == upper[i];
      }
      if i :| 0 <= i < |lower| && e in lower[i] {
        assert Children(c)[|upper| + i] == lower[i];
      }
    }
  }

  // ---------------------------------------------------------------- the scan

  lemma SpotsDiffer(v: Version, c: Compaction, p: Merger.Spot, q: Merger.Spot)
    requires TreeInv(v) && PartOk(v, c.level, c.inputs0) && PartOk(v, c.level + 1, c.inputs1)
    requires Merger.Has(Children(c), p) && Merger.Has(Children(c), q) && p != q
    ensures var e, x := Merger.EntryAt(Children(c), p), Merger.EntryAt(Children(c), q); e.key != x.key || e.sn != x.sn
  {
    ChildrenHoldInputs(v, c);
    var children := Children(c);
    var e, x := Merger.EntryAt(children, p), Merger.EntryAt(children, q);
    hide PartOk, Children, Sorted;
    if p.child == q.child {
      SameChildDiffers(children[p.child], p.index, q.index);
    } else if e == x {
      ChildrenDiffer(v, c, p.child, q.child, e);
      assert false;
    } else {
      PartEntry(v, c, p);
      PartEntry(v, c, q);
      hide VersionEntries;
      assert OnePerSequence(VersionEntries(v));
    }
  }

  lemma SameChildDiffers(entries: seq<Entry>, i: nat, j: nat)
    requires Sorted(entries) && i < |entries| && j < |entries| && i != j
    ensures entries[i].key != entries[j].key || entries[i].sn != entries[j].sn
  {
  }

  lemma PartEntry(v: Version, c: Compaction, p: Merger.Spot)
    requires PartOk(v, c.level, c.inputs0) && PartOk(v, c.level + 1, c.inputs1) && Merger.Has(Children(c), p)
    ensures Merger.EntryAt(Children(c), p) in VersionEntries(v)
  {
    var e := Merger.EntryAt(Children(c), p);
    ChildrenHoldInputs(v, c);
    assert e in Children(c)[p.child];
    hide Children;
    assert e in InputEntries(c);
    if e in LevelEntries(c.inputs0) {
      var f :| f in c.inputs0 && e in f.entries;
      assert f in v[c.level];
    } else {
      var f :| f in c.inputs1 && e in f.entries;
      assert f in v[c.level + 1];
    }
  }

  /** Scanned to its end, the merging iterator has handed out the merged input of the compaction. */
  lemma ScanIsMergedInput(v: Version, c: Compaction, order: seq<Merger.Spot>)
    requires TreeInv(v) && CompactionInputs.WellChosen(v, c) && OrderedBySmallest(v[0])
    requires Merger.ChildrenSorted(Children(c)) && Merger.IsOrder(Children(c), order)
    ensures MergedInput(c, Merger.Merged(Children(c), order))
  {
    hide TreeInv, CompactionInputs.WellChosen, Children, Sorted, PartOk, OrderedBySmallest, InputEntries;
    PartsAreOk(v, c);
    ChildrenHoldInputs(v, c);
    forall p, q | Merger.Has(Children(c), p) && Merger.Has(Children(c), q) && p != q
      ensures Merger.KeyAt(Children(c), p).key != Merger.KeyAt(Children(c), q).key
              || Merger.KeyAt(Children(c), p).sn != Merger.KeyAt(Children(c), q).sn
    {
      SpotsDiffer(v, c, p, q);
    }
    Merger.MergedIsSortedUnion(Children(c), order);
  }

  lemma FirstOfOrder(children: seq<seq<Entry>>, order: seq<Merger.Spot>, r: Option<Merger.Spot>)
    requires Merger.ChildrenSorted(children) && Merger.IsOrder(children, order)
    requires Merger.IsFirst(children, Merger.Everything, r)
    ensures Merger.At(order, 0, r)
  {
    if order != [] {
      assert Merger.Within(children, Merger.Everything, order[0]);
      var k :| 0 <= k < |order| && order[k] == r.value;
      Merger.OrderDecides(children, order, 0, k);
    }
  }

  method MakeChildren(c: Compaction) returns (children: seq<seq<Entry>>)
    ensures children == Children(c)
  {
    children := Part(c.level, c.inputs0) + Part(c.level + 1, c.inputs1);
  }

  /** MakeInputIterator and the scan over it that the compaction loop makes: every input entry once, in order. */
  method MergeInputs(v: Version, c: Compaction) returns (input: seq<Entry>)
    requires TreeInv(v) && CompactionInputs.WellChosen(v, c) && OrderedBySmallest(v[0])
    ensures MergedInput(c, input)
  {
    hide TreeInv, CompactionInputs.WellChosen, Children, MergedInput, OrderedBySmallest, Merger.IsFirst, Merger.IsOrder,
         Merger.ChildrenSorted;
    var children := MakeChildren(c);
    ChildrenAreSorted(v, c);
    Merger.OrderExists(children);
    ghost var order :| Merger.IsOrder(children, order);
    SpotsOfOrder(children, order);
    var it := new Merger.MergingIterator(children);
    it.SeekToFirst();
    FirstOfOrder(children, order, it.Shown());
    input := [];
    while it.current.Some?
      invariant it.Valid() && it.children == children && it.direction.Forward?
      invariant |input| <= |order| && input == Merger.Merged(children, order)[..|input|]
      invariant Merger.At(order, |input|, it.Shown())
      decreases |order| - |input|
    {
      var e := children[it.current.value][it.pos[it.current.value]];
      ghost var k := |input|;
      assert e == Merger.Merged(children, order)[k];
      input := input + [e];
      it.Next();
      Merger.StepForward(children, order, k, it.Shown());
    }
    assert input == Merger.Merged(children, order);
    ScanIsMergedInput(v, c, order);
  }

  lemma ChildrenAreSorted(v: Version, c: Compaction)
    requires TreeInv(v) && CompactionInputs.WellChosen(v, c) && OrderedBySmallest(v[0])
    ensures Merger.ChildrenSorted(Children(c))
  {
    hide TreeInv, CompactionInputs.WellChosen, Children, OrderedBySmallest, PartOk;
    PartsAreOk(v, c);
    ChildrenHoldInputs(v, c);
  }

  lemma SpotsOfOrder(children: seq<seq<Entry>>, order: seq<Merger.Spot>)
    requires Merger.IsOrder(children, order)
    ensures forall k :: 0 <= k < |order| ==> Merger.Has(children, order[k])
  {
  }
}
