/**
 A store on which a compaction brings a deleted value back.

 SetupOtherInputs widens the upper inputs to their boundary tables, but not the lower
 ones. Below, the deletion of key 3 ends one level-3 table and the value it deletes starts
 the next. A level-2 table that overlaps only the first of the two is compacted: the
 deletion is dropped because no deeper level holds the key, and the old value is read again.
 Module DefectRun reaches this store from a new database.
 */
module BoundaryDefect {
  import opened InternalKeys
  import opened Visibility
  import opened Versions
  import opened CompactionInputs
  import opened CompactionWork
  import opened VersionSteps

  const PUT1 := Entry(1.0, 1, Value, [])
  const PUT3 := Entry(3.0, 2, Value, [9])
  const DELETE3 := Entry(3.0, 3, Deletion, [])
  const PUT2 := Entry(2.0, 4, Value, [])

  const LOWER := File(6, 100, PUT1.IK(), DELETE3.IK(), [PUT1, DELETE3])
  const NEIGHBOUR := File(7, 100, PUT3.IK(), PUT3.IK(), [PUT3])
  const UPPER := File(9, 100, PUT2.IK(), PUT2.IK(), [PUT2])

  const STORE: Version := [[], [], [UPPER], [LOWER, NEIGHBOUR], [], [], []]

  const LATEST: nat := 4

  lemma StoreTables(l: nat, f: File)
    requires l < NUM_LEVELS
    ensures f in STORE[l] <==> (l == 2 && f == UPPER) || (l == 3 && (f == LOWER || f == NEIGHBOUR))
  {
    assert l == 0 || l == 1 || l == 2 || l == 3 || l == 4 || l == 5 || l == 6;
  }

  lemma StoreEntries(e: Entry)
    ensures e in VersionEntries(STORE) <==> e == PUT2 || e == PUT1 || e == DELETE3 || e == PUT3
  {
    StoreTables(2, UPPER);
    StoreTables(3, LOWER);
    StoreTables(3, NEIGHBOUR);
    assert PUT2 in UPPER.entries && PUT1 in LOWER.entries && DELETE3 in LOWER.entries && PUT3 in NEIGHBOUR.entries;
    if e in VersionEntries(STORE) {
      var l: nat, f :| l < NUM_LEVELS && f in STORE[l] && e in f.entries;
      StoreTables(l, f);
    }
  }

  lemma StoreTablesAreGood()
    ensures GoodFile(UPPER) && GoodFile(LOWER) && GoodFile(NEIGHBOUR)
  {
  }

  lemma StoreIsGood()
    ensures TreeInv(STORE)
  {
    hide GoodFile, VersionEntries;
    StoreTablesAreGood();
    forall x, y | x in VersionEntries(STORE) && y in VersionEntries(STORE) && x.key == y.key && x.sn == y.sn
      ensures x == y
    {
      StoreEntries(x);
      StoreEntries(y);
    }
    forall l, f | 0 <= l < NUM_LEVELS && f in STORE[l]
      ensures GoodFile(f)
    {
      StoreTables(l, f);
    }
    forall l, m, f, g | 0 <= l < m < NUM_LEVELS && f in STORE[l] && g in STORE[m]
      ensures FileNewer(f, g)
    {
      StoreTables(l, f);
      StoreTables(m, g);
    }
    forall l | 1 <= l < NUM_LEVELS
      ensures LevelSorted(STORE[l])
    {
      assert l == 2 || l == 3 || STORE[l] == [];
    }
    assert NumberedByAge(STORE[0]);
  }

  /** Whatever way the compaction of level 2 is set up, it takes LOWER but not NEIGHBOUR. */
  lemma OnlyLowerIsTaken(c: Compaction)
    requires WellChosen(STORE, c) && c.level == 2
    ensures forall f :: f in c.inputs0 <==> f == UPPER
    ensures forall f :: f in c.inputs1 <==> f == LOWER
  {
    hide Startable, Isolated, IsSmallest, IsLargest;
    StoreIsGood();
    StartableInLevel(STORE, 2, c.inputs0);
    StartableNonempty(STORE, 2, c.inputs0);
    assert c.inputs0[0] in c.inputs0;
    forall f
      ensures f in c.inputs0 <==> f == UPPER
    {
      StoreTables(2, f);
      StoreTables(2, c.inputs0[0]);
    }
    var a, z :| IsSmallest(c.inputs0, a) && IsLargest(c.inputs0, z) && c.inputs1 == Overlapping(STORE[3], Some(a.key), Some(z.key));
    OnlyUpperSpans(c.inputs0, a, z);
    OverlappingMembers(STORE[3], Some(a.key), Some(z.key));
    forall f
      ensures f in c.inputs1 <==> f == LOWER
    {
      StoreTables(3, f);
    }
  }

  lemma OnlyUpperSpans(inputs: seq<File>, a: IKey, z: IKey)
    requires (forall f :: f in inputs <==> f == UPPER) && IsSmallest(inputs, a) && IsLargest(inputs, z)
    ensures a == UPPER.smallest && z == UPPER.largest
  {
  }

  lemma InputsAndNeighbour(c: Compaction, e: Entry)
    requires WellChosen(STORE, c) && c.level == 2
    ensures e in InputEntries(c) <==> e == PUT2 || e == PUT1 || e == DELETE3
    ensures e in LeftBehind(STORE, c) <==> e == PUT3
  {
    hide WellChosen;
    OnlyLowerIsTaken(c);
    StoreTables(3, NEIGHBOUR);
    assert UPPER in c.inputs0 && LOWER in c.inputs1;
    assert PUT2 in UPPER.entries && PUT1 in LOWER.entries && DELETE3 in LOWER.entries && PUT3 in NEIGHBOUR.entries;
    if e in LeftBehind(STORE, c) {
      var f :| f in STORE[3] && f !in c.inputs1 && e in f.entries;
      StoreTables(3, f);
    }
  }

  lemma DeletionIsNewest()
    ensures Newest(VersionEntries(STORE), 3.0, LATEST, DELETE3)
  {
    hide VersionEntries;
    StoreEntries(DELETE3);
    forall x | x in VersionEntries(STORE) && x.key == 3.0
      ensures x.sn <= DELETE3.sn
    {
      StoreEntries(x);
    }
  }

  lemma NothingDeeper()
    ensures forall u :: BaseLevel(STORE, 2, u)
  {
    forall l, f | 4 <= l < NUM_LEVELS
      ensures f !in STORE[l]
    {
      StoreTables(l, f);
    }
  }

  lemma ValueIsExposed(c: Compaction)
    requires WellChosen(STORE, c) && c.level == 2
    ensures Exposes(STORE, c, {}, LATEST, 3.0)
  {
    hide WellChosen, VersionEntries;
    assert {} + VersionEntries(STORE) == VersionEntries(STORE);
    DeletionIsNewest();
    InputsAndNeighbour(c, DELETE3);
    InputsAndNeighbour(c, PUT3);
    NothingDeeper();
    forall y | y in LeftBehind(STORE, c)
      ensures y.sn <= PUT3.sn
    {
      InputsAndNeighbour(c, y);
    }
  }

  /** Every compaction of level 2 of this store makes the deleted value readable at the latest
      sequence number, although the tree invariant holds before and after. */
  lemma DeletedValueReturns(c: Compaction, input: seq<Entry>, outputs: seq<File>, after: Version)
    requires WellChosen(STORE, c) && c.level == 2
    requires MergedInput(c, input) && CutFrom(outputs, Kept(STORE, c.level, input, |input|, LATEST))
    requires Replaced(STORE, c, outputs, after)
    ensures TreeInv(STORE) && TreeInv(after)
    ensures Answer(VersionEntries(STORE), 3.0, LATEST) == None
    ensures Answer(VersionEntries(after), 3.0, LATEST).Some?
  {
    hide TreeInv, WellChosen, Compactable, Replaced, CutFrom, MergedInput, VersionEntries, InputEntries, Exposes, AllNewer;
    StoreIsGood();
    WellChosenIsCompactable(STORE, c);
    CompactionGivesGoodOutputs(STORE, c, LATEST, input, outputs);
    ReplaceKeepsTree(STORE, c, outputs, after);
    assert {} + VersionEntries(STORE) == VersionEntries(STORE) && {} + VersionEntries(after) == VersionEntries(after);
    assert OnePerSequence(VersionEntries(STORE)) && AllNewer({}, VersionEntries(STORE)) by { StoreIsUnique(); }
    CompactionGivesCompactedStore(STORE, c, {}, LATEST, input, outputs, after);
    ValueIsExposed(c);
    ExposedReadChanges(STORE, c, {}, LATEST, input, VersionEntries(after), 3.0);
  }

  lemma StoreIsUnique()
    ensures OnePerSequence(VersionEntries(STORE)) && AllNewer({}, VersionEntries(STORE))
  {
    StoreIsGood();
  }

  // ---------------------------------------------------------------- the compaction, step by step

  const TAKEN := Compaction(2, [UPPER], [LOWER], [], PUT2.IK())
  const MERGED := [PUT1, PUT2, DELETE3]
  const OUTPUT := File(10, 100, PUT1.IK(), PUT2.IK(), [PUT1, PUT2])
  const AFTER: Version := [[], [], [], [OUTPUT, NEIGHBOUR], [], [], []]

  lemma Spans(files: seq<File>, f: File, g: File)
    requires f in files && g in files && forall h :: h in files ==> AtMost(f.smallest, h.smallest) && AtMost(h.largest, g.largest)
    ensures IsSmallest(files, f.smallest) && IsLargest(files, g.largest)
  {
  }

  lemma UpperIsStartable()
    ensures Startable(STORE, 2, [UPPER]) && Isolated(STORE[2], [UPPER])
  {
    assert [UPPER] == STORE[2][0..1];
  }

  lemma OverlapsRange(files: seq<File>, inputs: seq<File>, f: File, g: File, selected: seq<File>)
    requires f in inputs && g in inputs
    requires forall h :: h in inputs ==> AtMost(f.smallest, h.smallest) && AtMost(h.largest, g.largest)
    requires selected == Overlapping(files, Some(f.smallest.key), Some(g.largest.key))
    ensures OverlapsRangeOf(files, inputs, selected) && IsLargest(inputs, g.largest)
  {
    hide Overlapping;
    Spans(inputs, f, g);
  }

  lemma OneOfTwoOverlaps(f: File, g: File, lo: Bound, hi: Bound)
    requires Overlaps(f, lo, hi) && !Overlaps(g, lo, hi)
    ensures Overlapping([f, g], lo, hi) == [f]
  {
    hide Overlaps;
    assert OverlappingFirst([f, g], 0, lo, hi) == [] && OverlappingFirst([f, g], 1, lo, hi) == [f];
  }

  /** This is how the code sets it up. */
  lemma TakenIsWellChosen()
    ensures WellChosen(STORE, TAKEN)
  {
    hide Startable, Isolated, OverlapsRangeOf, IsLargest, Overlapping;
    UpperIsStartable();
    OneOfTwoOverlaps(LOWER, NEIGHBOUR, Some(2.0), Some(2.0));
    OverlapsRange(STORE[3], [UPPER], UPPER, UPPER, [LOWER]);
    NothingToOverlap(Some(1.0), Some(3.0));
    OverlapsRange(STORE[4], [UPPER] + [LOWER], LOWER, LOWER, []);
  }

  lemma NothingToOverlap(lo: Bound, hi: Bound)
    ensures Overlapping([], lo, hi) == []
  {
  }

  lemma MergedIsInput()
    ensures MergedInput(TAKEN, MERGED)
  {
    hide WellChosen, InputEntries;
    TakenIsWellChosen();
    forall e
      ensures e in MERGED <==> e in InputEntries(TAKEN)
    {
      InputsAndNeighbour(TAKEN, e);
    }
  }

  lemma DeletionIsDropped()
    ensures CutFrom([OUTPUT], Kept(STORE, 2, MERGED, |MERGED|, LATEST))
  {
    hide BaseLevel;
    NothingDeeper();
    assert Dropped(STORE, 2, MERGED, 2, LATEST);
    assert !Dropped(STORE, 2, MERGED, 0, LATEST) && !Dropped(STORE, 2, MERGED, 1, LATEST);
    hide Dropped;
    assert Kept(STORE, 2, MERGED, 1, LATEST) == [PUT1];
    assert Kept(STORE, 2, MERGED, 2, LATEST) == [PUT1, PUT2];
    assert Kept(STORE, 2, MERGED, 3, LATEST) == [PUT1, PUT2];
    FlattenGrows([], OUTPUT);
    assert [] + [OUTPUT] == [OUTPUT] && [] + OUTPUT.entries == OUTPUT.entries;
  }

  lemma AfterTables(l: nat, f: File)
    requires l < NUM_LEVELS
    ensures f in AFTER[l] <==> l == 3 && (f == OUTPUT || f == NEIGHBOUR)
  {
    assert l == 0 || l == 1 || l == 2 || l == 3 || l == 4 || l == 5 || l == 6;
  }

  lemma OutputReplacesInputs()
    ensures Replaced(STORE, TAKEN, [OUTPUT], AFTER)
  {
    forall l: nat, f | l < NUM_LEVELS
      ensures f in AFTER[l] <==> l == 3 && (f == OUTPUT || f == NEIGHBOUR)
      ensures f in STORE[l] <==> (l == 2 && f == UPPER) || (l == 3 && (f == LOWER || f == NEIGHBOUR))
    {
      AfterTables(l, f);
      StoreTables(l, f);
    }
    forall l: nat | l < NUM_LEVELS && l != 2 && l != 3
      ensures AFTER[l] == STORE[l]
    {
      assert l == 0 || l == 1 || l == 4 || l == 5 || l == 6;
    }
  }

  lemma OldValueIsNewest()
    ensures OnePerSequence(VersionEntries(AFTER)) && Newest(VersionEntries(AFTER), 3.0, LATEST, PUT3)
  {
    AfterTables(3, NEIGHBOUR);
    assert PUT3 in NEIGHBOUR.entries;
    forall e | e in VersionEntries(AFTER)
      ensures e == PUT1 || e == PUT2 || e == PUT3
    {
      var l: nat, f :| l < NUM_LEVELS && f in AFTER[l] && e in f.entries;
      AfterTables(l, f);
    }
  }

  /** The compaction as the code picks, merges, cuts and installs it: key 3 was deleted before, and has its old value
      after. */
  lemma DefectHappens()
    ensures WellChosen(STORE, TAKEN) && MergedInput(TAKEN, MERGED)
    ensures CutFrom([OUTPUT], Kept(STORE, 2, MERGED, |MERGED|, LATEST)) && Replaced(STORE, TAKEN, [OUTPUT], AFTER)
    ensures Answer(VersionEntries(STORE), 3.0, LATEST) == None && Answer(VersionEntries(AFTER), 3.0, LATEST) == Some([9])
  {
    hide WellChosen, Kept, VersionEntries, Replaced, CutFrom, MergedInput;
    TakenIsWellChosen();
    MergedIsInput();
    DeletionIsDropped();
    OutputReplacesInputs();
    DeletedValueReturns(TAKEN, MERGED, [OUTPUT], AFTER);
    OldValueIsNewest();
    AnswerIs(VersionEntries(AFTER), 3.0, LATEST, PUT3);
  }

  // ---------------------------------------------------------------- with the lower inputs widened

  const WIDENED := Compaction(2, [UPPER], [LOWER, NEIGHBOUR], [], PUT2.IK())

  /** Widening the lower inputs takes the neighbour too. */
  lemma NeighbourIsTaken()
    ensures WidenedChoice(STORE, WIDENED)
  {
    hide Startable, Isolated, OverlapsRangeOf, Overlapping;
    UpperIsStartable();
    OneOfTwoOverlaps(LOWER, NEIGHBOUR, Some(2.0), Some(2.0));
    OverlapsRange(STORE[3], [UPPER], UPPER, UPPER, [LOWER]);
    var files, start := STORE[3], DELETE3.IK();
    assert [LOWER, NEIGHBOUR] == [LOWER] + [NEIGHBOUR];
    assert SmallestBoundary(files, start, NEIGHBOUR);
    ChainGrows(files, start, [], NEIGHBOUR);
    assert [] + [NEIGHBOUR] == [NEIGHBOUR];
    assert NoBoundary(files, NEIGHBOUR.largest);
    assert IsLargest([LOWER], start) by {
      Spans([LOWER], LOWER, LOWER);
    }
    assert BoundaryClosure(files, [LOWER], [LOWER, NEIGHBOUR]);
  }

  /** And every compaction of level 2 whose lower inputs are widened leaves the key deleted. */
  lemma DeletedValueStaysDeleted(c: Compaction, input: seq<Entry>, outputs: seq<File>, after: Version)
    requires WidenedChoice(STORE, c) && c.level == 2
    requires MergedInput(c, input) && CutFrom(outputs, Kept(STORE, c.level, input, |input|, LATEST))
    requires Replaced(STORE, c, outputs, after)
    ensures TreeInv(after) && Answer(VersionEntries(after), 3.0, LATEST) == None
  {
    hide TreeInv, WidenedChoice, Replaced, CutFrom, MergedInput, VersionEntries, Kept, AllNewer, OnePerSequence;
    StoreIsGood();
    StoreIsUnique();
    assert {} + VersionEntries(STORE) == VersionEntries(STORE) && {} + VersionEntries(after) == VersionEntries(after);
    WidenedInputsPreserveReads(STORE, c, {}, LATEST, input, outputs, after);
    DeletionIsNewest();
    AnswerIs(VersionEntries(STORE), 3.0, LATEST, DELETE3);
  }
}
