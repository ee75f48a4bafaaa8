/**
 A run on which a flush and a manual compaction clash.

 Two tables of level 1, with keys 1 and 9, are compacted together by hand into level 2.
 Meanwhile key 5 is written and flushed. No table there is overlaps it, so its table sinks
 to level 2, into the gap between the inputs. The output reaches from key 1 to key 9: level
 2 then has two tables that overlap, and the binary search among them no longer finds key 5.
 Table sizes stand for larger ones.
 */
module ClashRun {
  import opened InternalKeys
  import opened Visibility
  import opened Versions
  import opened CompactionInputs
  import opened CompactionWork
  import opened VersionSteps
  import opened FlushAndMove
  import opened RunningCompaction
  import opened VersionEdits
  import opened Database
  import opened WriteSteps
  import opened BackgroundSteps
  import opened Runs
  import opened Reaching
  import BoundaryDefect

  const OLD1 := Entry(1.0, 1, Value, [])
  const OLD9 := Entry(9.0, 2, Value, [])
  const NEW1 := Entry(1.0, 3, Value, [])
  const NEW9 := Entry(9.0, 4, Value, [])
  const PUT5 := Entry(5.0, 5, Value, [7])

  const BELOW1 := TableOf(5, OLD1)
  const BELOW9 := TableOf(7, OLD9)
  const INPUT1 := TableOf(9, NEW1)
  const INPUT9 := TableOf(11, NEW9)
  const FLUSHED := TableOf(13, PUT5)
  const OUTPUT := File(14, 100, NEW1.IK(), NEW9.IK(), [NEW1, NEW9])

  function TableOf(number: nat, e: Entry): File {
    File(number, 100, e.IK(), e.IK(), [e])
  }

  const ONE: Version := [[], [], [BELOW1], [], [], [], []]
  const TWO: Version := [[], [], [BELOW1, BELOW9], [], [], [], []]
  const THREE: Version := [[], [INPUT1], [BELOW1, BELOW9], [], [], [], []]
  const FOUR: Version := [[], [INPUT1, INPUT9], [BELOW1, BELOW9], [], [], [], []]
  const FIVE: Version := [[], [INPUT1, INPUT9], [BELOW1, FLUSHED, BELOW9], [], [], [], []]
  const CLASHED: Version := [[], [], [OUTPUT, FLUSHED], [], [], [], []]

  const BY_HAND := Compaction(1, [INPUT1, INPUT9], [BELOW1, BELOW9], [], NEW9.IK())
  const JOB := Job(BY_HAND, FOUR, 4)
  const MERGED := [NEW1, OLD1, NEW9, OLD9]

  // ---------------------------------------------------------------- writing a key and flushing it

  /** The table of one entry goes to a level below which nothing it overlaps has been passed. */
  ghost predicate Sinks(v: Version, level: nat, f: File, v': Version) {
    && level < NUM_LEVELS && AllOrdered(v')
    && (level > 0 ==> forall l :: 0 <= l <= level ==> NoOverlap(v, l, f.smallest.key, f.largest.key))
    && forall l: nat, g :: l < NUM_LEVELS ==> (g in v'[l] <==> g in v[l] || (l == level && g == f))
  }

  lemma OneIsGood(number: nat, e: Entry)
    requires e.sn <= MAX_SEQUENCE
    ensures GoodFile(TableOf(number, e)) && TableEntries(TableOf(number, e)) == {e} == EntrySet([e])
  {
    assert e in TableOf(number, e).entries && e in [e];
  }

  lemma SinksIsFlush(db: Db, level: nat, e: Entry, v': Version)
    requires db.imm == Some({e}) && e.sn <= MAX_SEQUENCE && Sinks(db.version, level, TableOf(db.nextFile, e), v')
    ensures FlushedTo(db, level, Some(TableOf(db.nextFile, e)), v')
  {
    hide NoOverlap, OrderedBySmallest;
    OneIsGood(db.nextFile, e);
    assert e in {e};
  }

  lemma WriteAndFlush(db: Db, last: nat, v: Version, next: nat, running: Option<Job>, e: Entry, level: nat, v': Version) returns (d: Db)
    requires Reachable(db, false) && At(db, last, [], {}, None, v, next, running)
    requires e.sn == last + 1 && last + 1 < MAX_SEQUENCE && Sinks(v, level, TableOf(next + 1, e), v')
    ensures Reachable(d, false) && At(d, last + 1, [], {}, None, v', next + 2, running) && d.history == db.history + {e}
  {
    hide Reachable, FlushedTo, Sinks, EntrySet;
    OneIsGood(next + 1, e);
    var d1 := AfterWrite(db, [e]);
    OnWrite(false, db, [e]);
    var d2 := AfterSwitch(d1);
    OnSwitch(false, d1);
    assert {} + {e} == {e};
    SinksIsFlush(d2, level, e, v');
    d := AfterFlush(d2, level, Some(TableOf(next + 1, e)), v');
    OnFlush(false, d2, level, Some(TableOf(next + 1, e)), v');
  }

  // ---------------------------------------------------------------- the versions of the run

  lemma TablesOfRun(l: nat, f: File)
    requires l < NUM_LEVELS
    ensures f !in EMPTY_VERSION[l]
    ensures f in ONE[l] <==> l == 2 && f == BELOW1
    ensures f in TWO[l] <==> l == 2 && (f == BELOW1 || f == BELOW9)
    ensures f in THREE[l] <==> (l == 1 && f == INPUT1) || (l == 2 && (f == BELOW1 || f == BELOW9))
    ensures f in FOUR[l] <==> (l == 1 && (f == INPUT1 || f == INPUT9)) || (l == 2 && (f == BELOW1 || f == BELOW9))
    ensures f in FIVE[l] <==>
            (l == 1 && (f == INPUT1 || f == INPUT9)) || (l == 2 && (f == BELOW1 || f == BELOW9 || f == FLUSHED))
    ensures f in CLASHED[l] <==> l == 2 && (f == OUTPUT || f == FLUSHED)
  {
    assert l == 0 || l == 1 || l == 2 || l == 3 || l == 4 || l == 5 || l == 6;
  }

  lemma AllAreOrdered()
    ensures AllOrdered(ONE) && AllOrdered(TWO) && AllOrdered(THREE) && AllOrdered(FOUR) && AllOrdered(FIVE) && AllOrdered(CLASHED)
  {
    forall l: nat | l < NUM_LEVELS
      ensures OrderedBySmallest(ONE[l]) && OrderedBySmallest(TWO[l]) && OrderedBySmallest(THREE[l])
              && OrderedBySmallest(FOUR[l]) && OrderedBySmallest(FIVE[l]) && OrderedBySmallest(CLASHED[l])
    {
      assert l == 0 || l == 1 || l == 2 || l == 3 || l == 4 || l == 5 || l == 6;
    }
  }

  lemma TheySink()
    ensures Sinks(EMPTY_VERSION, 2, BELOW1, ONE) && Sinks(ONE, 2, BELOW9, TWO)
    ensures Sinks(TWO, 1, INPUT1, THREE) && Sinks(THREE, 1, INPUT9, FOUR) && Sinks(FOUR, 2, FLUSHED, FIVE)
  {
    hide AllOrdered;
    AllAreOrdered();
    forall l: nat, f | l < NUM_LEVELS
      ensures f !in EMPTY_VERSION[l]
      ensures f in ONE[l] <==> l == 2 && f == BELOW1
      ensures f in TWO[l] <==> l == 2 && (f == BELOW1 || f == BELOW9)
      ensures f in THREE[l] <==> (l == 1 && f == INPUT1) || (l == 2 && (f == BELOW1 || f == BELOW9))
      ensures f in FOUR[l] <==> (l == 1 && (f == INPUT1 || f == INPUT9)) || (l == 2 && (f == BELOW1 || f == BELOW9))
      ensures f in FIVE[l] <==>
              (l == 1 && (f == INPUT1 || f == INPUT9)) || (l == 2 && (f == BELOW1 || f == BELOW9 || f == FLUSHED))
    {
      TablesOfRun(l, f);
    }
  }

  /** Nor is any of these levels another than PickLevelForMemTableOutput picks: the table of the level below overlaps. */
  lemma LevelOneIsPicked()
    ensures !NoOverlap(TWO, 2, 1.0, 1.0) && !NoOverlap(THREE, 2, 9.0, 9.0)
  {
    TablesOfRun(2, BELOW1);
    TablesOfRun(2, BELOW9);
    assert Overlaps(BELOW1, Some(1.0), Some(1.0)) && Overlaps(BELOW9, Some(9.0), Some(9.0));
  }

  // ---------------------------------------------------------------- the compaction

  lemma BothOverlap(lo: Bound, hi: Bound)
    requires Overlaps(BELOW1, lo, hi) && Overlaps(BELOW9, lo, hi)
    ensures Overlapping([BELOW1, BELOW9], lo, hi) == [BELOW1, BELOW9]
  {
    hide Overlaps;
    var files := [BELOW1, BELOW9];
    assert OverlappingFirst(files, 0, lo, hi) == [] && OverlappingFirst(files, 1, lo, hi) == [BELOW1];
  }

  lemma ByHandIsWellChosen()
    ensures WellChosen(FOUR, BY_HAND)
  {
    hide OverlapsRangeOf, IsLargest, Overlapping;
    assert [INPUT1, INPUT9] == FOUR[1][0..2];
    BothOverlap(Some(1.0), Some(9.0));
    BoundaryDefect.OverlapsRange(FOUR[2], [INPUT1, INPUT9], INPUT1, INPUT9, [BELOW1, BELOW9]);
    BoundaryDefect.NothingToOverlap(Some(1.0), Some(9.0));
    var all := [INPUT1, INPUT9] + [BELOW1, BELOW9];
    BoundaryDefect.OverlapsRange(FOUR[3], all, INPUT1, BELOW9, []);
  }

  /** The key between the inputs is in the range of none of them. */
  lemma ByHandHasGap()
    ensures !Joined(BY_HAND.inputs0 + BY_HAND.inputs1)
  {
    var all := BY_HAND.inputs0 + BY_HAND.inputs1;
    assert INPUT1 in all && INPUT9 in all;
    forall f | f in all
      ensures !CoversKey(f, 5.0)
    {
    }
    assert !Reached(all, 5.0);
  }

  lemma MergedIsInput()
    ensures MergedInput(BY_HAND, MERGED)
  {
    assert INPUT1 in BY_HAND.inputs0 && INPUT9 in BY_HAND.inputs0 && BELOW1 in BY_HAND.inputs1 && BELOW9 in BY_HAND.inputs1;
    assert NEW1 in INPUT1.entries && NEW9 in INPUT9.entries && OLD1 in BELOW1.entries && OLD9 in BELOW9.entries;
  }

  lemma NewestAreKept()
    ensures CutFrom([OUTPUT], Kept(FOUR, 1, MERGED, 4, 4))
  {
    assert Hidden(MERGED, 1, 4) && Hidden(MERGED, 3, 4);
    assert !Dropped(FOUR, 1, MERGED, 0, 4) && !Dropped(FOUR, 1, MERGED, 2, 4);
    assert Dropped(FOUR, 1, MERGED, 1, 4) && Dropped(FOUR, 1, MERGED, 3, 4);
    hide Dropped;
    assert Kept(FOUR, 1, MERGED, 1, 4) == [NEW1];
    assert Kept(FOUR, 1, MERGED, 2, 4) == [NEW1];
    assert Kept(FOUR, 1, MERGED, 3, 4) == [NEW1, NEW9];
    assert Kept(FOUR, 1, MERGED, 4, 4) == [NEW1, NEW9];
    FlattenGrows([], OUTPUT);
    assert [] + [OUTPUT] == [OUTPUT] && [] + OUTPUT.entries == OUTPUT.entries;
  }

  lemma OutputEdit(db: Db)
    requires db.version == FIVE
    ensures EditResult(FIVE, CompactionEdit(db, BY_HAND, [OUTPUT]), CLASHED) && InputsHere(FIVE, BY_HAND)
  {
    hide OrderedBySmallest;
    AllAreOrdered();
    forall l: nat, f | l < NUM_LEVELS
      ensures f in FIVE[l] <==>
              (l == 1 && (f == INPUT1 || f == INPUT9)) || (l == 2 && (f == BELOW1 || f == BELOW9 || f == FLUSHED))
      ensures f in CLASHED[l] <==> l == 2 && (f == OUTPUT || f == FLUSHED)
      ensures (l, f) in AtLevel(2, [OUTPUT]) <==> l == 2 && f == OUTPUT
    {
      TablesOfRun(l, f);
      AtLevelMembers(2, [OUTPUT], l, f);
    }
    assert INPUT1 in BY_HAND.inputs0 && INPUT9 in BY_HAND.inputs0 && BELOW1 in BY_HAND.inputs1 && BELOW9 in BY_HAND.inputs1;
  }

  lemma OutputInstalls(db: Db)
    requires At(db, 5, [], {}, None, FIVE, 15, Some(JOB)) && Pending(db, OUTPUT)
    ensures CompactedTo(db, MERGED, [OUTPUT], CLASHED)
  {
    hide MergedInput, CutFrom, Kept, EditResult, InputsHere;
    MergedIsInput();
    NewestAreKept();
    OutputEdit(db);
  }

  // ---------------------------------------------------------------- the run

  lemma BeforeCompaction() returns (d: Db)
    ensures Reachable(d, false) && At(d, 4, [], {}, None, FOUR, 12, None) && d.history == {OLD1, OLD9, NEW1, NEW9}
  {
    hide Reachable, Sinks, At;
    TheySink();
    NewIsReachable(false);
    NewIsAt();
    var d1 := WriteAndFlush(NEW_DB, 0, EMPTY_VERSION, 4, None, OLD1, 2, ONE);
    var d2 := WriteAndFlush(d1, 1, ONE, 6, None, OLD9, 2, TWO);
    var d3 := WriteAndFlush(d2, 2, TWO, 8, None, NEW1, 1, THREE);
    d := WriteAndFlush(d3, 3, THREE, 10, None, NEW9, 1, FOUR);
  }

  lemma NewIsAt()
    ensures At(NEW_DB, 0, [], {}, None, EMPTY_VERSION, 4, None) && NEW_DB.history == {}
  {
  }

  lemma ClashIsReachable() returns (before: Db, d: Db)
    ensures Reachable(before, false) && Next(before, Step.FinishCompaction(MERGED, [OUTPUT]), d) && Reachable(d, false)
    ensures At(before, 5, [], {}, None, FIVE, 15, Some(JOB)) && At(d, 5, [], {}, None, CLASHED, 15, None)
    ensures d.history == {OLD1, OLD9, NEW1, NEW9, PUT5}
  {
    hide Reachable, Sinks, CompactedTo, WellChosen;
    TheySink();
    ByHandIsWellChosen();
    var db := BeforeCompaction();
    var d1 := AfterStart(db, BY_HAND);
    OnStart(false, db, BY_HAND);
    var d2 := WriteAndFlush(d1, 4, FOUR, 12, Some(JOB), PUT5, 2, FIVE);
    before := AfterOpenOutput(d2, OUTPUT);
    OnOpenOutput(false, d2, OUTPUT);
    OutputInstalls(before);
    d := AfterInstall(before, BY_HAND, [OUTPUT], CLASHED);
    OnFinish(false, before, MERGED, [OUTPUT], CLASHED);
  }

  // ---------------------------------------------------------------- what it does

  lemma LevelTwoOverlaps()
    ensures !LevelSorted(CLASHED[2]) && !TreeInv(CLASHED)
  {
    assert !Less(OUTPUT.largest, FLUSHED.smallest);
    assert CLASHED[2][0] == OUTPUT && CLASHED[2][1] == FLUSHED;
  }

  /** The search of level 2 for key 5 looks into the output, which does not have it. */
  lemma SearchMissesKey()
    ensures LookedInto(CLASHED[2], 5.0, 5) == [OUTPUT] && TableGet(OUTPUT, 5.0, 5) == NotFound
    ensures forall l :: 0 <= l < NUM_LEVELS && l != 2 ==> CLASHED[l] == []
  {
    var files, target := CLASHED[2], SeekKey(5.0, 5);
    assert |files| == 2;
    assert !Less(files[1].largest, target) && !Less(files[0].largest, target);
    assert Halved(files, target, 0, 0) == 0;
    assert Halved(files, target, 0, 1) == 0;
    assert Halved(files, target, 0, 2) == 0;
    var entries := OUTPUT.entries;
    assert SeekTable(entries, target) == 1 by {
      assert Less(entries[0].IK(), target) && entries[1..] == [NEW9];
      assert SeekTable([NEW9], target) == 0;
    }
    forall l | 0 <= l < NUM_LEVELS && l != 2
      ensures CLASHED[l] == []
    {
      assert l == 0 || l == 1 || l == 3 || l == 4 || l == 5 || l == 6;
    }
  }

  lemma KeyIsStored(d: Db)
    requires d.mem == {} && d.imm == None && d.version == CLASHED
    ensures Answer(Stored(d), 5.0, 5) == Some([7])
  {
    TablesOfRun(2, FLUSHED);
    assert PUT5 in FLUSHED.entries;
    forall e | e in Stored(d)
      ensures e == NEW1 || e == NEW9 || e == PUT5
    {
      var l: nat, f :| l < NUM_LEVELS && f in CLASHED[l] && e in f.entries;
      TablesOfRun(l, f);
    }
    assert Newest(Stored(d), 5.0, 5, PUT5);
    assert OnePerSequence(Stored(d));
    AnswerIs(Stored(d), 5.0, 5, PUT5);
  }

  /** There is a run, with a compaction by hand and a flush during it, after which the invariant is broken and a key that
      was written is stored but not found. */
  lemma WrittenKeyIsLost()
    ensures exists dbs: seq<Db>, steps: seq<Step> ::
              && Runs.IsRun(dbs, steps)
              && var d := dbs[|steps|];
                 && !Inv(d) && d.mem == {} && d.imm == None && d.version == CLASHED && Answer(Stored(d), 5.0, d.lastSequence) == Some([7])
    ensures LookedInto(CLASHED[2], 5.0, 5) == [OUTPUT] && TableGet(OUTPUT, 5.0, 5) == NotFound
  {
    hide Next, Inv, Stored, Answer, TableGet, LookedInto;
    var before, d := ClashIsReachable();
    SearchMissesKey();
    KeyIsStored(d);
    LevelTwoOverlaps();
    if Inv(d) {
      BackgroundSteps.TreeOf(d);
    }
    var dbs, steps :| RunTo(dbs, steps, d, false);
  }
}
