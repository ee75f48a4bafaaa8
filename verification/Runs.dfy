/**
 Whole runs of the database: from a new database, through any sequence of steps and any
 number of crashes, every live snapshot reads what replaying the user's writes gives.
 */
module Runs {
  import opened InternalKeys
  import opened Visibility
  import opened Versions
  import opened CompactionInputs
  import opened VersionSteps
  import opened FlushAndMove
  import opened RunningCompaction
  import opened VersionEdits
  import opened Database
  import opened WriteSteps
  import opened BackgroundSteps
  import opened RecoverySteps

  // ---------------------------------------------------------------- what the user sees

  /** The key-value map after the writes numbered up to s, applied one after the other. */
  function MapAfter(writes: seq<Entry>, s: nat): map<UserKey, Bytes> {
    if writes == [] then map[]
    else
      var before := MapAfter(writes[..|writes| - 1], s);
      var e := writes[|writes| - 1];
      if e.sn > s then before
      else if e.kind.Value? then before[e.key := e.value]
      else before - {e.key}
  }

  function LookUp(m: map<UserKey, Bytes>, u: UserKey): Option<Bytes> {
    if u in m then Some(m[u]) else None
  }

  lemma AscendingIsUnique(writes: seq<Entry>)
    requires Ascending(writes)
    ensures OnePerSequence(EntrySet(writes))
  {
    forall x, y | x in EntrySet(writes) && y in EntrySet(writes) && x.sn == y.sn
      ensures x == y
    {
      var i :| 0 <= i < |writes| && writes[i] == x;
      var j :| 0 <= j < |writes| && writes[j] == y;
      assert i == j || writes[i].sn != writes[j].sn;
    }
  }

  lemma LastWrite(writes: seq<Entry>)
    requires writes != [] && Ascending(writes)
    ensures var before, e := writes[..|writes| - 1], writes[|writes| - 1];
            && Ascending(before)
            && EntrySet(writes) == EntrySet(before) + {e}
            && forall x :: x in EntrySet(before) ==> x.sn < e.sn
  {
    var before, e := writes[..|writes| - 1], writes[|writes| - 1];
    assert writes == before + [e];
    forall x | x in EntrySet(before)
      ensures x.sn < e.sn
    {
      var i :| 0 <= i < |before| && before[i] == x;
      assert writes[i] == x;
    }
  }

  /** Reading the newest visible entry is looking the key up in that map. */
  lemma {:induction false} AnswerIsMap(writes: seq<Entry>, u: UserKey, s: nat)
    requires Ascending(writes)
    ensures Answer(EntrySet(writes), u, s) == LookUp(MapAfter(writes, s), u)
    decreases |writes|
  {
    if writes == [] {
      AnswerNothing(EntrySet(writes), u, s);
    } else {
      var before, e := writes[..|writes| - 1], writes[|writes| - 1];
      LastWrite(writes);
      AnswerIsMap(before, u, s);
      AscendingIsUnique(writes);
      AscendingIsUnique(before);
      hide EntrySet, Ascending, OnePerSequence, Answer;
      if e.key == u && e.sn <= s {
        AnswerIs(EntrySet(writes), u, s, e);
      } else {
        OldEntriesDecide(EntrySet(before), {e}, u, s);
      }
    }
  }

  // ---------------------------------------------------------------- steps and runs

  datatype Step =
    | Write(entries: seq<Entry>)
    | SwitchMemTable
    | GetSnapshot
    | ReleaseSnapshot(i: nat)
    | NewIterator
    | DropIterator(v: Version)
    | Flush(level: nat, table: Option<File>)
    | TrivialMove(c: Compaction)
    | OpenOutput(f: File)
    | StartCompaction(c: Compaction)
    | FinishCompaction(input: seq<Entry>, outputs: seq<File>)
    | DeleteObsoleteFiles
    | CrashAndRecover(halfway: seq<Db>, files: seq<File>)

  ghost predicate Next(db: Db, step: Step, d: Db) {
    match step
    case Write(entries) =>
      Stamped(entries, db.lastSequence) && db.lastSequence + |entries| < MAX_SEQUENCE && d == AfterWrite(db, entries)
    case SwitchMemTable =>
      db.imm.None? && d == AfterSwitch(db)
    case GetSnapshot =>
      d == AfterGetSnapshot(db)
    case ReleaseSnapshot(i) =>
      i < |db.snapshots| && d == AfterReleaseSnapshot(db, i)
    case NewIterator =>
      d == AfterHold(db)
    case DropIterator(v) =>
      d == AfterUnhold(db, v)
    case Flush(level, table) =>
      FlushedTo(db, level, table, d.version) && d == AfterFlush(db, level, table, d.version)
    case TrivialMove(c) =>
      && db.running.None? && WellChosen(db.version, c) && |c.inputs0| == 1 && c.inputs1 == []
      && InstalledAs(db, c, c.inputs0, d.version) && d == AfterInstall(db, c, c.inputs0, d.version)
    case OpenOutput(f) =>
      f.number == db.nextFile && d == AfterOpenOutput(db, f)
    case StartCompaction(c) =>
      db.running.None? && WellChosen(db.version, c) && d == AfterStart(db, c)
    case FinishCompaction(input, outputs) =>
      CompactedTo(db, input, outputs, d.version) && d == AfterInstall(db, db.running.value.c, outputs, d.version)
    case DeleteObsoleteFiles =>
      FilesDeleted(db, d)
    case CrashAndRecover(halfway, files) =>
      RecoveredAfter(db, halfway, files, d)
  }

  /** A compaction that brings back a value of its output level. */
  ghost predicate Exposing(db: Db, step: Step) {
    step.FinishCompaction? && ExposesSomething(db)
  }

  /** A compaction whose output runs into a table flushed meanwhile. */
  ghost predicate Clashing(db: Db, step: Step) {
    step.FinishCompaction? && Clashes(db, step.outputs)
  }

  /** Every step keeps the invariant but for one: installing a compaction that clashes breaks it. */
  lemma StepKeepsInv(db: Db, step: Step, d: Db)
    requires Inv(db) && Next(db, step, d)
    ensures Inv(d) <==> !Clashing(db, step)
    ensures Faithful(db) && !Exposing(db, step) ==> Faithful(d)
  {
    hide Inv, Faithful, Stored, ExposesSomething, Clashes, FlushedTo, InstalledAs, CompactedTo, FilesDeleted, RecoveredAfter, WellChosen;
    match step
    case Write(entries) =>
      WriteKeepsInv(db, entries);
      if Faithful(db) {
        WriteStaysFaithful(db, entries);
      }
    case SwitchMemTable => SwitchKeepsInv(db);
    case GetSnapshot => GetSnapshotKeepsInv(db);
    case ReleaseSnapshot(i) => ReleaseSnapshotKeepsInv(db, i);
    case NewIterator => HoldKeepsInv(db, db.version);
    case DropIterator(v) => HoldKeepsInv(db, v);
    case Flush(level, table) => FlushKeepsInv(db, level, table, d.version);
    case TrivialMove(c) => MoveKeepsInv(db, c, d.version);
    case OpenOutput(f) => OpenOutputKeepsInv(db, f);
    case StartCompaction(c) => StartKeepsInv(db, c);
    case FinishCompaction(input, outputs) =>
      CompactionKeepsInv(db, input, outputs, d.version);
      CompactionKeepsReads(db, input, outputs, d.version);
    case DeleteObsoleteFiles => DeleteKeepsInv(db, d);
    case CrashAndRecover(halfway, files) => RecoveryAgainKeepsInv(db, halfway, files, d);
  }

  /** The database NewDB and the first DB::Open leave: manifest and log numbers 2 and 3 are taken. */
  const NEW_DB := Db(
    0, [], {}, 3, None, 0, EMPTY_VERSION, {}, {}, None, 4, 3,
    map[3 := []], map[], [SnapshotEdit(EMPTY_VERSION), Edit({}, [], Some(3), Some(4), Some(0))],
    {}, [EMPTY_VERSION, EMPTY_VERSION, EMPTY_VERSION])

  lemma NoTables(v: Version)
    requires forall l: nat :: l < NUM_LEVELS ==> v[l] == []
    ensures TreeOk(v) && VersionEntries(v) == {}
    ensures forall held: set<Version>, f :: held == {} ==> !LiveTable(v, held, f)
  {
    hide GoodFile, FileNewer, FileLess;
    assert VersionEntries(v) == {};
  }

  lemma NewTreeIsGood()
    ensures TreeOk(EMPTY_VERSION) && VersionEntries(EMPTY_VERSION) == {}
    ensures forall held: set<Version>, f :: held == {} ==> !LiveTable(EMPTY_VERSION, held, f)
  {
    hide TreeOk, VersionEntries, LiveTable;
    forall l: nat | l < NUM_LEVELS
      ensures EMPTY_VERSION[l] == []
    {
      EmptyLevel(l);
    }
    NoTables(EMPTY_VERSION);
  }

  const FIRST_EDIT := Edit({}, [], Some(3), Some(4), Some(0))

  lemma NewManifestIsGood()
    ensures ManifestOk(NEW_DB.manifest, NEW_DB.versions, EMPTY_VERSION)
    ensures NumbersOk(NEW_DB.manifest, {}, 4) && RecordOk(FIRST_EDIT, EMPTY_VERSION, 3, 4, 0)
  {
    hide TreeInv, AllOrdered, SnapshotEdit;
    NewTreeIsGood();
    forall l: nat | l < NUM_LEVELS
      ensures EMPTY_VERSION[l] == []
    {
      EmptyLevel(l);
    }
    SnapshotIsReplayable(EMPTY_VERSION);
    NothingHappens();
    RecordKeepsManifest([SnapshotEdit(EMPTY_VERSION)], [EMPTY_VERSION, EMPTY_VERSION], EMPTY_VERSION, FIRST_EDIT, EMPTY_VERSION);
    assert [SnapshotEdit(EMPTY_VERSION)] + [FIRST_EDIT] == NEW_DB.manifest;
    assert [EMPTY_VERSION, EMPTY_VERSION] + [EMPTY_VERSION] == NEW_DB.versions;
    forall l: nat, n: nat
      ensures !AddedBefore(NEW_DB.manifest, l, n)
    {
      AddedByEither([SnapshotEdit(EMPTY_VERSION)], FIRST_EDIT, l, n);
      SnapshotNumbers(EMPTY_VERSION, l, n);
    }
    hide ManifestOk, AddedBefore;
  }

  lemma NothingHappens()
    ensures EditResult(EMPTY_VERSION, FIRST_EDIT, EMPTY_VERSION)
    ensures EditFits(EMPTY_VERSION, [SnapshotEdit(EMPTY_VERSION)], FIRST_EDIT)
  {
    forall l: nat | l < NUM_LEVELS
      ensures EMPTY_VERSION[l] == []
    {
      EmptyLevel(l);
    }
  }

  lemma NewDbIsGood()
    ensures Inv(NEW_DB) && Faithful(NEW_DB)
  {
    hide TreeOk, ManifestOk, NumbersOk, RecordOk, VersionEntries;
    NewTreeIsGood();
    NewManifestIsGood();
    assert BatchEntries([]) == {};
    assert Live(NEW_DB) == [];
    assert Stored(NEW_DB) == {};
  }

  /** dbs are the states a run goes through. */
  ghost predicate IsRun(dbs: seq<Db>, steps: seq<Step>) {
    && |dbs| == |steps| + 1
    && dbs[0] == NEW_DB
    && forall i :: 0 <= i < |steps| ==> Next(dbs[i], steps[i], dbs[i + 1])
  }

  /** Everything the user wrote, in order. */
  function Writes(steps: seq<Step>): seq<Entry> {
    if steps == [] then []
    else Writes(steps[..|steps| - 1]) + if steps[|steps| - 1].Write? then steps[|steps| - 1].entries else []
  }

  lemma RunPrefix(dbs: seq<Db>, steps: seq<Step>)
    requires IsRun(dbs, steps) && steps != []
    ensures IsRun(dbs[..|dbs| - 1], steps[..|steps| - 1])
  {
    hide Next;
    var n := |steps| - 1;
    forall i | 0 <= i < n
      ensures Next(dbs[..n + 1][i], steps[..n][i], dbs[..n + 1][i + 1])
    {
      assert dbs[..n + 1][i] == dbs[i] && steps[..n][i] == steps[i] && dbs[..n + 1][i + 1] == dbs[i + 1];
    }
  }

  ghost predicate NeverExposing(dbs: seq<Db>, steps: seq<Step>)
    requires |dbs| == |steps| + 1
  {
    forall i :: 0 <= i < |steps| ==> !Exposing(dbs[i], steps[i])
  }

  ghost predicate NeverClashing(dbs: seq<Db>, steps: seq<Step>)
    requires |dbs| == |steps| + 1
  {
    forall i :: 0 <= i < |steps| ==> !Clashing(dbs[i], steps[i])
  }

  lemma HistoryOfStep(db: Db, step: Step, d: Db)
    requires Inv(db) && Next(db, step, d)
    ensures d.history == db.history + if step.Write? then EntrySet(step.entries) else {}
  {
    hide Inv, FlushedTo, InstalledAs, CompactedTo, WellChosen, RecoveredAfter, Stored, Faithful, EntrySet, Stamped;
    if step.CrashAndRecover? {
      RecoveryAgainKeepsInv(db, step.halfway, step.files, d);
    }
  }

  /** Unless a compaction clashed the invariant holds in the last state of every run, and its history is what was
      written. */
  lemma {:induction false} RunKeepsInv(dbs: seq<Db>, steps: seq<Step>)
    requires IsRun(dbs, steps) && NeverClashing(dbs, steps)
    ensures var last := dbs[|steps|];
            && Inv(last)
            && last.history == EntrySet(Writes(steps))
            && Ascending(Writes(steps)) && (forall e :: e in Writes(steps) ==> e.sn <= last.lastSequence)
            && (NeverExposing(dbs, steps) ==> Faithful(last))
    decreases |steps|
  {
    hide Inv, Next, Faithful, Exposing, Clashing;
    if steps == [] {
      NewDbIsGood();
    } else {
      var n := |steps| - 1;
      RunPrefix(dbs, steps);
      PrefixIsClean(dbs, steps);
      RunKeepsInv(dbs[..n + 1], steps[..n]);
      assert dbs[..n + 1][n] == dbs[n];
      StepKeepsInv(dbs[n], steps[n], dbs[n + 1]);
      HistoryOfStep(dbs[n], steps[n], dbs[n + 1]);
      WritesGrow(dbs[n], steps, dbs[n + 1]);
    }
  }

  lemma PrefixIsClean(dbs: seq<Db>, steps: seq<Step>)
    requires |dbs| == |steps| + 1 && steps != []
    ensures NeverClashing(dbs, steps) ==> NeverClashing(dbs[..|steps|], steps[..|steps| - 1]) && !Clashing(dbs[|steps| - 1], steps[|steps| - 1])
    ensures NeverExposing(dbs, steps) ==> NeverExposing(dbs[..|steps|], steps[..|steps| - 1]) && !Exposing(dbs[|steps| - 1], steps[|steps| - 1])
  {
    hide Exposing, Clashing;
    var n := |steps| - 1;
    forall i | 0 <= i < n
      ensures dbs[..n + 1][i] == dbs[i] && steps[..n][i] == steps[i]
    {
    }
  }

  lemma WritesGrow(db: Db, steps: seq<Step>, d: Db)
    requires steps != [] && Inv(db) && Next(db, steps[|steps| - 1], d)
    requires var before := Writes(steps[..|steps| - 1]); Ascending(before) && forall e :: e in before ==> e.sn <= db.lastSequence
    ensures Ascending(Writes(steps)) && forall e :: e in Writes(steps) ==> e.sn <= d.lastSequence
    ensures EntrySet(Writes(steps)) ==
            EntrySet(Writes(steps[..|steps| - 1])) + if steps[|steps| - 1].Write? then EntrySet(steps[|steps| - 1].entries) else {}
  {
    var before, step := Writes(steps[..|steps| - 1]), steps[|steps| - 1];
    var added := if step.Write? then step.entries else [];
    assert Writes(steps) == before + added;
    SequenceNeverFalls(db, step, d);
    hide Inv, Next, Ascending, EntrySet, Stamped, Writes;
    NothingStamped(db.lastSequence);
    AppendStamped(before, added, db.lastSequence);
  }

  lemma NothingStamped(last: nat)
    ensures Stamped([], last) && EntrySet([]) == {}
  {
  }

  lemma AppendStamped(before: seq<Entry>, entries: seq<Entry>, last: nat)
    requires Ascending(before) && Stamped(entries, last) && forall e :: e in before ==> e.sn <= last
    ensures Ascending(before + entries) && forall e :: e in before + entries ==> e.sn <= last + |entries|
    ensures EntrySet(before + entries) == EntrySet(before) + EntrySet(entries)
  {
    var all := before + entries;
    forall i, j | 0 <= i < j < |all|
      ensures all[i].sn < all[j].sn
    {
      assert i < |before| ==> all[i] in before;
    }
  }

  lemma SequenceNeverFalls(db: Db, step: Step, d: Db)
    requires Inv(db) && Next(db, step, d)
    ensures d.lastSequence >= db.lastSequence
    ensures step.Write? ==> Stamped(step.entries, db.lastSequence) && d.lastSequence == db.lastSequence + |step.entries|
  {
    hide Inv, FlushedTo, InstalledAs, CompactedTo, WellChosen, RecoveredAfter, Stored, Faithful, EntrySet, Stamped, Floor;
    if step.CrashAndRecover? {
      RecoveryAgainKeepsInv(db, step.halfway, step.files, d);
    }
  }

  /** The main theorem. After any run whose compactions neither clash nor expose anything, a read at any live snapshot
      finds exactly the value the user's own writes up to that snapshot give the key. */
  lemma EveryReadIsRight(dbs: seq<Db>, steps: seq<Step>, u: UserKey, s: nat)
    requires IsRun(dbs, steps) && NeverClashing(dbs, steps) && NeverExposing(dbs, steps)
    requires Floor(dbs[|steps|]) <= s
    ensures Answer(Stored(dbs[|steps|]), u, s) == LookUp(MapAfter(Writes(steps), s), u)
  {
    hide Inv, Next, NeverExposing, NeverClashing;
    RunKeepsInv(dbs, steps);
    AnswerIsMap(Writes(steps), u, s);
  }

  // ---------------------------------------------------------------- runs without gaps

  /** Only compactions whose inputs leave no gaps, as all that PickCompaction sets up. */
  ghost predicate WithoutGaps(steps: seq<Step>) {
    forall i :: 0 <= i < |steps| && steps[i].StartCompaction? ==> Joined(steps[i].c.inputs0 + steps[i].c.inputs1)
  }

  ghost predicate RunsWithoutGaps(db: Db) {
    db.running.Some? ==> Joined(db.running.value.c.inputs0 + db.running.value.c.inputs1)
  }

  lemma JobWithoutGaps(db: Db, step: Step, d: Db)
    requires Next(db, step, d) && RunsWithoutGaps(db)
    requires step.StartCompaction? ==> Joined(step.c.inputs0 + step.c.inputs1)
    ensures RunsWithoutGaps(d)
  {
    hide Joined, FlushedTo, InstalledAs, CompactedTo, WellChosen, RecoveredAfter;
    if step.CrashAndRecover? {
      NothingRunsAfter(db, step.halfway, step.files, d);
    }
  }

  lemma StepWithoutGaps(db: Db, step: Step, d: Db)
    requires Inv(db) && Next(db, step, d) && RunsWithoutGaps(db)
    ensures !Clashing(db, step)
  {
    hide Inv, Joined, Clashes, CompactedTo;
    if step.FinishCompaction? {
      JobIsThere(db, step.input, step.outputs, d.version);
      JoinedCompactionIsSafe(db, step.input, step.outputs, d.version);
    }
  }

  /** No compaction of such a run ever clashes with a flush. */
  lemma {:induction false} GaplessRunsNeverClash(dbs: seq<Db>, steps: seq<Step>)
    requires IsRun(dbs, steps) && WithoutGaps(steps)
    ensures NeverClashing(dbs, steps) && Inv(dbs[|steps|]) && RunsWithoutGaps(dbs[|steps|])
    decreases |steps|
  {
    hide Inv, Next, Clashing, RunsWithoutGaps, Joined;
    if steps == [] {
      NewDbIsGood();
      NothingRuns();
    } else {
      var n := |steps| - 1;
      RunPrefix(dbs, steps);
      GaplessRunsNeverClash(dbs[..n + 1], steps[..n]);
      assert dbs[..n + 1][n] == dbs[n];
      StepWithoutGaps(dbs[n], steps[n], dbs[n + 1]);
      StepKeepsInv(dbs[n], steps[n], dbs[n + 1]);
      JobWithoutGaps(dbs[n], steps[n], dbs[n + 1]);
      forall i | 0 <= i < |steps|
        ensures !Clashing(dbs[i], steps[i])
      {
        assert i < n ==> !Clashing(dbs[..n + 1][i], steps[..n][i]);
      }
    }
  }

  lemma NothingRuns()
    ensures RunsWithoutGaps(NEW_DB)
  {
  }
}
