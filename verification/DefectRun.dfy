/**
 A run from a new database to the store of BoundaryDefect and through the compaction that
 brings the deleted value back: put 1, put 3, take a snapshot, delete 3, flush; compact the
 table's level, which cuts the output between the two entries of key 3; release the
 snapshot, put 2, flush; compact again.

 The first compaction is a manual one, of a range that some table of a deeper level lies in
 as well: left to itself the lone table would be moved, not rewritten. Keys, values and
 table sizes stand for larger ones, as no table is cut before it has reached its target
 size. The second compaction has an input of its output level, so it rewrites it anyway.
 */
module DefectRun {
  import opened InternalKeys
  import opened Visibility
  import opened Versions
  import opened CompactionInputs
  import opened CompactionWork
  import opened VersionSteps
  import opened FlushAndMove
  import opened RunningCompaction
  import opened VersionEdits
  import opened Database
  import opened WriteSteps
  import opened BackgroundSteps
  import opened Runs
  import opened Reaching
  import opened BoundaryDefect

  const FLUSHED := File(5, 100, PUT1.IK(), PUT3.IK(), [PUT1, DELETE3, PUT3])
  const ONE_TABLE: Version := [[], [], [FLUSHED], [], [], [], []]
  const SPLIT: Version := [[], [], [], [LOWER, NEIGHBOUR], [], [], []]
  const FIRST := Compaction(2, [FLUSHED], [], [], PUT3.IK())

  // ---------------------------------------------------------------- the versions the run goes through

  lemma TablesOfRun(l: nat, f: File)
    requires l < NUM_LEVELS
    ensures f !in EMPTY_VERSION[l]
    ensures f in ONE_TABLE[l] <==> l == 2 && f == FLUSHED
    ensures f in SPLIT[l] <==> l == 3 && (f == LOWER || f == NEIGHBOUR)
  {
    assert l == 0 || l == 1 || l == 2 || l == 3 || l == 4 || l == 5 || l == 6;
  }

  lemma RunTablesAreOrdered()
    ensures AllOrdered(ONE_TABLE) && AllOrdered(SPLIT) && AllOrdered(STORE) && AllOrdered(AFTER)
  {
    forall l: nat | l < NUM_LEVELS
      ensures OrderedBySmallest(ONE_TABLE[l]) && OrderedBySmallest(SPLIT[l]) && OrderedBySmallest(STORE[l])
              && OrderedBySmallest(AFTER[l])
    {
      assert l == 0 || l == 1 || l == 2 || l == 3 || l == 4 || l == 5 || l == 6;
    }
  }

  lemma RunTablesAreGood()
    ensures GoodFile(FLUSHED) && TableEntries(FLUSHED) == EntrySet([PUT1, PUT3]) + EntrySet([DELETE3])
    ensures GoodFile(UPPER) && TableEntries(UPPER) == EntrySet([PUT2])
  {
    assert PUT1 in FLUSHED.entries && DELETE3 in FLUSHED.entries && PUT3 in FLUSHED.entries;
    assert PUT1 in [PUT1, PUT3] && PUT3 in [PUT1, PUT3] && DELETE3 in [DELETE3] && PUT2 in [PUT2] && PUT2 in UPPER.entries;
  }

  // ---------------------------------------------------------------- the first compaction

  lemma FirstIsWellChosen()
    ensures WellChosen(ONE_TABLE, FIRST)
  {
    hide OverlapsRangeOf, IsLargest, Overlapping;
    assert [FLUSHED] == ONE_TABLE[2][0..1];
    NothingToOverlap(Some(1.0), Some(3.0));
    OverlapsRange(ONE_TABLE[3], [FLUSHED], FLUSHED, FLUSHED, []);
    assert [FLUSHED] + [] == [FLUSHED];
    OverlapsRange(ONE_TABLE[4], [FLUSHED] + [], FLUSHED, FLUSHED, []);
  }

  /** At the snapshot everything is kept, and the size limit cuts after the deletion. */
  lemma EverythingIsKept()
    ensures MergedInput(FIRST, FLUSHED.entries)
    ensures CutFrom([LOWER, NEIGHBOUR], Kept(ONE_TABLE, 2, FLUSHED.entries, 3, 2))
  {
    var input := FLUSHED.entries;
    assert FLUSHED in FIRST.inputs0;
    hide BaseLevel;
    assert !Dropped(ONE_TABLE, 2, input, 0, 2) && !Dropped(ONE_TABLE, 2, input, 1, 2) && !Dropped(ONE_TABLE, 2, input, 2, 2);
    hide Dropped;
    assert Kept(ONE_TABLE, 2, input, 1, 2) == [PUT1];
    assert Kept(ONE_TABLE, 2, input, 2, 2) == [PUT1, DELETE3];
    assert Kept(ONE_TABLE, 2, input, 3, 2) == [PUT1, DELETE3, PUT3];
    FlattenGrows([], LOWER);
    FlattenGrows([LOWER], NEIGHBOUR);
    assert [] + [LOWER] == [LOWER] && [LOWER] + [NEIGHBOUR] == [LOWER, NEIGHBOUR];
  }

  // ---------------------------------------------------------------- the steps

  lemma Written() returns (d: Db)
    ensures Reachable(d, true) && At(d, 3, [2], EntrySet([PUT1, PUT3]) + EntrySet([DELETE3]), None, EMPTY_VERSION, 4, None)
    ensures d.history == EntrySet([PUT1, PUT3]) + EntrySet([DELETE3])
  {
    hide Reachable, EntrySet;
    NewIsReachable(true);
    var d1 := AfterWrite(NEW_DB, [PUT1, PUT3]);
    OnWrite(true, NEW_DB, [PUT1, PUT3]);
    var d2 := AfterGetSnapshot(d1);
    OnGetSnapshot(true, d1);
    d := AfterWrite(d2, [DELETE3]);
    OnWrite(true, d2, [DELETE3]);
  }

  lemma FlushedToLevelTwo(db: Db)
    requires At(db, 3, [2], {}, Some(TableEntries(FLUSHED)), EMPTY_VERSION, 5, None)
    ensures FlushedTo(db, 2, Some(FLUSHED), ONE_TABLE)
  {
    hide GoodFile, OrderedBySmallest;
    RunTablesAreGood();
    RunTablesAreOrdered();
    assert PUT1 in TableEntries(FLUSHED);
    forall l: nat, f | l < NUM_LEVELS
      ensures f !in EMPTY_VERSION[l] && (f in ONE_TABLE[l] <==> l == 2 && f == FLUSHED)
    {
      TablesOfRun(l, f);
    }
  }

  lemma Flushed() returns (d: Db)
    ensures Reachable(d, true) && At(d, 3, [2], {}, None, ONE_TABLE, 6, None) && d.history == EntrySet([PUT1, PUT3]) + EntrySet([DELETE3])
  {
    hide Reachable, EntrySet, FlushedTo, Next;
    var db := Written();
    var d1 := AfterSwitch(db);
    OnSwitch(true, db);
    RunTablesAreGood();
    FlushedToLevelTwo(d1);
    d := AfterFlush(d1, 2, Some(FLUSHED), ONE_TABLE);
    OnFlush(true, d1, 2, Some(FLUSHED), ONE_TABLE);
  }

  const FIRST_JOB := Job(FIRST, ONE_TABLE, 2)

  lemma SplitInstalls(db: Db)
    requires At(db, 3, [2], {}, None, ONE_TABLE, 8, Some(FIRST_JOB)) && Pending(db, LOWER) && Pending(db, NEIGHBOUR)
    ensures CompactedTo(db, FLUSHED.entries, [LOWER, NEIGHBOUR], SPLIT)
  {
    hide OrderedBySmallest, MergedInput, CutFrom, Kept;
    EverythingIsKept();
    RunTablesAreOrdered();
    forall l: nat, f | l < NUM_LEVELS
      ensures f in ONE_TABLE[l] <==> l == 2 && f == FLUSHED
      ensures f in SPLIT[l] <==> l == 3 && (f == LOWER || f == NEIGHBOUR)
      ensures (l, f) in AtLevel(3, [LOWER, NEIGHBOUR]) <==> l == 3 && (f == LOWER || f == NEIGHBOUR)
    {
      TablesOfRun(l, f);
      AtLevelMembers(3, [LOWER, NEIGHBOUR], l, f);
    }
    assert FLUSHED in FIRST.inputs0;
  }

  lemma FirstHasNoGap()
    ensures Joined(FIRST.inputs0 + FIRST.inputs1)
  {
    assert [FLUSHED] + [] == [FLUSHED];
    OneIsJoined(FLUSHED);
  }

  lemma Split() returns (d: Db)
    ensures Reachable(d, true) && At(d, 3, [2], {}, None, SPLIT, 8, None) && d.history == EntrySet([PUT1, PUT3]) + EntrySet([DELETE3])
  {
    hide Reachable, EntrySet, CompactedTo, WellChosen, Joined, Next;
    var db := Flushed();
    FirstIsWellChosen();
    FirstHasNoGap();
    var d0 := AfterStart(db, FIRST);
    OnStart(true, db, FIRST);
    var d1 := AfterOpenOutput(d0, LOWER);
    OnOpenOutput(true, d0, LOWER);
    var d2 := AfterOpenOutput(d1, NEIGHBOUR);
    OnOpenOutput(true, d1, NEIGHBOUR);
    SplitInstalls(d2);
    d := AfterInstall(d2, FIRST, [LOWER, NEIGHBOUR], SPLIT);
    OnFinish(true, d2, FLUSHED.entries, [LOWER, NEIGHBOUR], SPLIT);
  }

  lemma FlushedAbove(db: Db)
    requires At(db, 4, [], {}, Some(TableEntries(UPPER)), SPLIT, 9, None)
    ensures FlushedTo(db, 2, Some(UPPER), STORE)
  {
    hide GoodFile, OrderedBySmallest;
    RunTablesAreGood();
    RunTablesAreOrdered();
    assert PUT2 in TableEntries(UPPER);
    forall l: nat, f | l < NUM_LEVELS
      ensures f in SPLIT[l] <==> l == 3 && (f == LOWER || f == NEIGHBOUR)
      ensures f in STORE[l] <==> (l == 2 && f == UPPER) || (l == 3 && (f == LOWER || f == NEIGHBOUR))
    {
      TablesOfRun(l, f);
      StoreTables(l, f);
    }
  }

  /** The store of BoundaryDefect is reached. */
  lemma StoreIsReachable() returns (d: Db)
    ensures Reachable(d, true) && At(d, LATEST, [], {}, None, STORE, 10, None)
    ensures d.history == EntrySet([PUT1, PUT3]) + EntrySet([DELETE3]) + EntrySet([PUT2])
  {
    hide Reachable, EntrySet, FlushedTo, Next;
    var db := Split();
    var d1 := AfterReleaseSnapshot(db, 0);
    OnReleaseSnapshot(true, db, 0);
    var d2 := AfterWrite(d1, [PUT2]);
    OnWrite(true, d1, [PUT2]);
    var d3 := AfterSwitch(d2);
    OnSwitch(true, d2);
    RunTablesAreGood();
    assert {} + EntrySet([PUT2]) == EntrySet([PUT2]);
    FlushedAbove(d3);
    d := AfterFlush(d3, 2, Some(UPPER), STORE);
    OnFlush(true, d3, 2, Some(UPPER), STORE);
  }

  lemma OutputEdit(db: Db)
    requires db.version == STORE
    ensures EditResult(STORE, CompactionEdit(db, TAKEN, [OUTPUT]), AFTER)
  {
    hide OrderedBySmallest;
    RunTablesAreOrdered();
    forall l: nat, f | l < NUM_LEVELS
      ensures f in STORE[l] <==> (l == 2 && f == UPPER) || (l == 3 && (f == LOWER || f == NEIGHBOUR))
      ensures f in AFTER[l] <==> l == 3 && (f == OUTPUT || f == NEIGHBOUR)
      ensures (l, f) in AtLevel(3, [OUTPUT]) <==> l == 3 && f == OUTPUT
    {
      StoreTables(l, f);
      AfterTables(l, f);
      AtLevelMembers(3, [OUTPUT], l, f);
    }
    assert UPPER in TAKEN.inputs0 && LOWER in TAKEN.inputs1;
  }

  const SECOND_JOB := Job(TAKEN, STORE, LATEST)

  lemma OutputInstalls(db: Db)
    requires At(db, LATEST, [], {}, None, STORE, 11, Some(SECOND_JOB)) && Pending(db, OUTPUT)
    ensures CompactedTo(db, MERGED, [OUTPUT], AFTER)
  {
    hide MergedInput, CutFrom, Kept, EditResult;
    TakenIsHere();
    MergedIsInput();
    DeletionIsDropped();
    OutputEdit(db);
  }

  lemma TakenIsHere()
    ensures InputsHere(STORE, TAKEN)
  {
    StoreTables(2, UPPER);
    StoreTables(3, LOWER);
  }

  lemma SecondHasNoGap()
    ensures Joined(TAKEN.inputs0 + TAKEN.inputs1)
  {
    assert LOWER in TAKEN.inputs0 + TAKEN.inputs1;
    forall f, g, u | f in TAKEN.inputs0 + TAKEN.inputs1 && g in TAKEN.inputs0 + TAKEN.inputs1 && f.smallest.key <= u <= g.largest.key
      ensures Reached(TAKEN.inputs0 + TAKEN.inputs1, u)
    {
      assert CoversKey(LOWER, u);
    }
  }

  lemma HistorySaysDeleted(history: set<Entry>)
    requires history == EntrySet([PUT1, PUT3]) + EntrySet([DELETE3]) + EntrySet([PUT2])
    ensures Answer(history, 3.0, LATEST) == None
  {
    assert DELETE3 in [DELETE3];
    assert Newest(history, 3.0, LATEST, DELETE3);
    assert OnePerSequence(history);
    AnswerIs(history, 3.0, LATEST, DELETE3);
  }

  /** The same store after the compaction. */
  lemma DefectIsReachable() returns (d: Db)
    ensures Reachable(d, true) && d.lastSequence == LATEST && Answer(Stored(d), 3.0, LATEST) == Some([9])
    ensures d.history == EntrySet([PUT1, PUT3]) + EntrySet([DELETE3]) + EntrySet([PUT2])
  {
    hide Reachable, EntrySet, CompactedTo, VersionEntries, Answer, WellChosen, Joined;
    var db := StoreIsReachable();
    TakenIsWellChosen();
    SecondHasNoGap();
    var d0 := AfterStart(db, TAKEN);
    OnStart(true, db, TAKEN);
    var d1 := AfterOpenOutput(d0, OUTPUT);
    OnOpenOutput(true, d0, OUTPUT);
    OutputInstalls(d1);
    d := AfterInstall(d1, TAKEN, [OUTPUT], AFTER);
    OnFinish(true, d1, MERGED, [OUTPUT], AFTER);
    OldValueIsRead();
    assert Stored(d) == VersionEntries(AFTER);
  }

  lemma OldValueIsRead()
    ensures Answer(VersionEntries(AFTER), 3.0, LATEST) == Some([9])
  {
    hide VersionEntries, WellChosen, MergedInput, CutFrom, Replaced;
    DefectHappens();
  }

  /** There is a run after which a read at the latest sequence number finds a value the user had deleted. So the
      theorem about reads does need its assumption that no compaction exposes anything. */
  lemma DeletedValueIsRead()
    ensures exists dbs: seq<Db>, steps: seq<Step> ::
              && Runs.IsRun(dbs, steps) && NeverClashing(dbs, steps) && dbs[|steps|].lastSequence == LATEST
              && LookUp(MapAfter(Writes(steps), LATEST), 3.0) == None
              && Answer(Stored(dbs[|steps|]), 3.0, LATEST) == Some([9])
  {
    var d := DefectIsReachable();
    hide Next, EntrySet, Inv, Faithful, VersionEntries, Stored, MapAfter, Answer, LookUp, Writes, WithoutGaps, NeverClashing;
    var dbs, steps :| RunTo(dbs, steps, d, true);
    GaplessRunsNeverClash(dbs, steps);
    RunKeepsInv(dbs, steps);
    AnswerIsMap(Writes(steps), 3.0, LATEST);
    HistorySaysDeleted(d.history);
  }
}
