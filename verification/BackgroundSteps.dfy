/**
 The background steps keep the database invariant and stay faithful: flushing the
 immutable memtable, moving a table, and installing a compaction. Each one records an
 edit in the manifest and installs the version the builder makes of it.
 */
module BackgroundSteps {
  import opened InternalKeys
  import opened Visibility
  import opened Versions
  import opened CompactionInputs
  import opened CompactionWork
  import opened VersionSteps
  import opened FlushAndMove
  import opened RunningCompaction
  import opened VersionEdits
  import opened Database
  import opened WriteSteps

  // ---------------------------------------------------------------- LogAndApply

  /** The edit's tables are new where they go and do not clash with the tables that stay. */
  ghost predicate EditFits(v: Version, manifest: seq<Edit>, edit: Edit) {
    && GoodEdit(edit)
    && (forall l: nat, f, m: nat, g :: (l, f) in edit.added && m < NUM_LEVELS && g in v[m] && Survives(edit, m, g) ==>
          f.number != g.number)
    && (forall l: nat, f, m: nat, g :: (l, f) in edit.added && (m, g) in edit.added && f.number == g.number ==> l == m && f == g)
    && (forall l: nat, f, m: nat :: (l, f) in edit.added && AddedBefore(manifest, m, f.number) ==> m < l)
  }

  lemma HistoryGrows(manifest: seq<Edit>, versions: seq<Version>, v: Version, edit: Edit, v': Version)
    requires History(EMPTY_VERSION, manifest, versions) && versions[|manifest|] == v && EditResult(v, edit, v')
    ensures History(EMPTY_VERSION, manifest + [edit], versions + [v'])
  {
    hide EditResult;
  }

  lemma NeverReusedGrows(manifest: seq<Edit>, v: Version, edit: Edit)
    requires NeverReused(EMPTY_VERSION, manifest) && EditFits(v, manifest, edit)
    ensures NeverReused(EMPTY_VERSION, manifest + [edit])
  {
    hide AddedBefore;
    var longer := manifest + [edit];
    forall i | 0 <= i < |longer|
      ensures AddsUnused(EMPTY_VERSION, longer[..i], longer[i])
    {
      assert longer[..i] == manifest[..i];
      assert manifest[..|manifest|] == manifest;
    }
  }

  lemma NumbersStayUnique(v: Version, manifest: seq<Edit>, edit: Edit, v': Version)
    requires NumbersUnique(v) && EditFits(v, manifest, edit) && EditResult(v, edit, v')
    ensures NumbersUnique(v')
  {
    hide OrderedBySmallest, AddedBefore;
  }

  lemma TablesOnlyMoveDown(v: Version, manifest: seq<Edit>, edit: Edit, v': Version, l: nat, m: nat, f: File)
    requires EditFits(v, manifest, edit) && EditResult(v, edit, v') && l < NUM_LEVELS
    requires f in v[l] && AddedBefore(manifest, m, f.number) ==> m <= l
    requires f in v'[l] && AddedBefore(manifest + [edit], m, f.number)
    ensures m <= l
  {
    AddedByEither(manifest, edit, m, f.number);
    hide OrderedBySmallest, AddedBefore;
    if AddedBefore(manifest, m, f.number) {
      assert f in v[l] || (l, f) in edit.added;
    } else {
      var g :| (m, g) in edit.added && g.number == f.number;
      assert (f in v[l] && Survives(edit, l, f)) || (l, f) in edit.added;
    }
  }

  /** Recording an edit keeps the manifest replayable to the current version. */
  lemma RecordKeepsManifest(manifest: seq<Edit>, versions: seq<Version>, v: Version, edit: Edit, v': Version)
    requires ManifestOk(manifest, versions, v) && NumbersUnique(v)
    requires EditFits(v, manifest, edit) && EditResult(v, edit, v')
    ensures ManifestOk(manifest + [edit], versions + [v'], v')
    ensures NumbersUnique(v') && AllOrdered(v')
  {
    HistoryGrows(manifest, versions, v, edit, v');
    NeverReusedGrows(manifest, v, edit);
    NumbersStayUnique(v, manifest, edit, v');
    forall l: nat, m: nat, f | l < NUM_LEVELS && f in v'[l] && AddedBefore(manifest + [edit], m, f.number)
      ensures m <= l
    {
      TablesOnlyMoveDown(v, manifest, edit, v', l, m, f);
    }
    hide History, NeverReused, NumbersUnique, AddedBefore;
  }

  /** Tables the edit adds exist on disk and are counted. */
  ghost predicate AddsExisting(edit: Edit, tables: map<nat, File>, nextFile: nat, pendingOutputs: set<nat>) {
    forall l: nat, f :: (l, f) in edit.added ==>
      f.number in tables && tables[f.number] == f && f.number < nextFile && f.number !in pendingOutputs
  }

  /** The new version's tables exist, are counted, and the record's counters cover them. */
  lemma RecordKeepsFiles(db: Db, edit: Edit, v': Version, d: Db)
    requires Inv(db) && EditResult(db.version, edit, v')
    requires d.version == v' && d.held == db.held && d.manifest == db.manifest + [edit]
    requires db.nextFile <= d.nextFile && d.pendingOutputs <= db.pendingOutputs
    requires forall n :: n in db.tables && n < db.nextFile ==> n in d.tables && d.tables[n] == db.tables[n]
    requires AddsExisting(edit, d.tables, d.nextFile, d.pendingOutputs)
    requires edit.logNumber == Some(d.logNumber) && edit.nextFile == Some(d.nextFile) && edit.lastSequence == Some(d.lastSequence)
    ensures RecordOk(LastRecord(d), d.version, d.logNumber, d.nextFile, d.lastSequence)
    ensures NumbersOk(d.manifest, d.pendingOutputs, d.nextFile)
    ensures TablesOk(d.tables, d.version, d.held, d.pendingOutputs, d.nextFile)
  {
    hide TreeOk, AgesOk, HistoryOk, LogsOk, CounterOk, ManifestOk, SnapshotsOk, OrderedBySmallest, AddedBefore;
    forall l: nat, n: nat | AddedBefore(d.manifest, l, n)
      ensures n < d.nextFile && n !in d.pendingOutputs
    {
      AddedByEither(db.manifest, edit, l, n);
    }
    forall f | LiveTable(d.version, d.held, f)
      ensures f.number in d.tables && d.tables[f.number] == f && f.number < d.nextFile
    {
      assert LiveTable(db.version, db.held, f) || exists l: nat :: (l, f) in edit.added;
    }
  }

  /** Levels the edit does not mention keep their tables in the same order. */
  lemma UntouchedLevel(v: Version, edit: Edit, v': Version, l: nat)
    requires AllOrdered(v) && EditResult(v, edit, v') && l < NUM_LEVELS
    requires forall f :: (l, f) !in edit.added
    requires forall n: nat :: (l, n) !in edit.deleted
    ensures v'[l] == v[l]
  {
    OrderedLevelIsUnique(v'[l], v[l]);
  }

  // ---------------------------------------------------------------- CompactMemTable

  function FlushEdit(db: Db, level: nat, f: Option<File>): Edit {
    Edit({}, if f.Some? then [(level, f.value)] else [], Some(db.memLog), Some(db.nextFile + 1), Some(db.lastSequence))
  }

  /** The table holds exactly the immutable memtable (there is none for an empty one) and goes to a
      level PickLevelForMemTableOutput may choose. */
  ghost predicate FlushedTo(db: Db, level: nat, f: Option<File>, v': Version) {
    && db.imm.Some? && level < NUM_LEVELS
    && (f.None? <==> db.imm.value == {})
    && (f.Some? ==>
          && f.value.number == db.nextFile && GoodFile(f.value) && TableEntries(f.value) == db.imm.value
          && (level > 0 ==> forall l :: 0 <= l <= level ==> NoOverlap(db.version, l, f.value.smallest.key, f.value.largest.key)))
    && EditResult(db.version, FlushEdit(db, level, f), v')
  }

  function AfterFlush(db: Db, level: nat, f: Option<File>, v': Version): Db {
    db.(imm := None, version := v', logNumber := db.memLog, nextFile := db.nextFile + 1,
        tables := if f.Some? then db.tables[db.nextFile := f.value] else db.tables,
        manifest := db.manifest + [FlushEdit(db, level, f)], versions := db.versions + [v'])
  }

  lemma FlushEditFits(db: Db, level: nat, f: Option<File>, v': Version)
    requires Inv(db) && FlushedTo(db, level, f, v')
    ensures EditFits(db.version, db.manifest, FlushEdit(db, level, f))
  {
    hide TreeOk, AgesOk, HistoryOk, LogsOk, CounterOk, ManifestOk, SnapshotsOk, TablesOk, EditResult, AddedBefore, GoodFile;
  }

  lemma FlushedTreeAndEntries(db: Db, level: nat, f: Option<File>, v': Version)
    requires Inv(db) && FlushedTo(db, level, f, v')
    ensures TreeInv(v') && VersionEntries(v') == VersionEntries(db.version) + db.imm.value
  {
    hide TreeInv, HistoryOk, LogsOk, CounterOk, ManifestOk, SnapshotsOk, TablesOk, GoodFile, NoOverlap, VersionEntries;
    var edit := FlushEdit(db, level, f);
    forall l | 0 <= l < NUM_LEVELS && (f.None? || l != level)
      ensures v'[l] == db.version[l]
    {
      UntouchedLevel(db.version, edit, v', l);
    }
    if f.None? {
      assert v' == db.version;
    } else {
      assert Added(db.version, level, f.value, v');
      FlushKeepsTree(db.version, level, f.value, v');
    }
  }

  lemma FlushKeepsLogs(db: Db, level: nat, f: Option<File>, v': Version)
    requires Inv(db) && FlushedTo(db, level, f, v')
    ensures var d := AfterFlush(db, level, f, v');
            && LogsOk(d.logs, d.mem, d.memLog, d.imm, d.immLog, d.logNumber)
            && CounterOk(LastRecord(d).lastSequence, Live(d), d.lastSequence)
  {
    hide TreeOk, AgesOk, HistoryOk, ManifestOk, SnapshotsOk, TablesOk, RecordOk, NumbersOk, FlushedTo, EditResult;
    FlushHasImm(db, level, f, v');
    var d := AfterFlush(db, level, f, v');
    var older := LogOf(db.logs, db.immLog);
    assert Live(db) == older + Live(d);
    forall b | b in Live(d)
      ensures b in Live(db)
    {
    }
    forall i, j | 0 <= i < j < |Live(d)|
      ensures Live(d)[i].first + |Live(d)[i].entries| <= Live(d)[j].first
    {
      assert Live(db)[|older| + i] == Live(d)[i] && Live(db)[|older| + j] == Live(d)[j];
    }
  }

  lemma FlushHasImm(db: Db, level: nat, f: Option<File>, v': Version)
    requires FlushedTo(db, level, f, v')
    ensures db.imm.Some?
  {
  }

  lemma FlushedFiles(db: Db, level: nat, f: Option<File>, v': Version)
    requires Inv(db) && FlushedTo(db, level, f, v')
    ensures var d := AfterFlush(db, level, f, v');
            && RecordOk(LastRecord(d), d.version, d.logNumber, d.nextFile, d.lastSequence)
            && NumbersOk(d.manifest, d.pendingOutputs, d.nextFile)
            && TablesOk(d.tables, d.version, d.held, d.pendingOutputs, d.nextFile)
  {
    hide TreeOk, AgesOk, HistoryOk, LogsOk, CounterOk, ManifestOk, SnapshotsOk, NumbersOk, RecordOk, EditResult;
    RecordKeepsFiles(db, FlushEdit(db, level, f), v', AfterFlush(db, level, f, v'));
  }

  /** A table flushed while a compaction runs is newer than all the compaction started from, and passes over no input
      it overlaps. */
  lemma FlushKeepsRunning(db: Db, level: nat, f: Option<File>, v': Version)
    requires Inv(db) && FlushedTo(db, level, f, v')
    ensures RunningOk(db.running, v', Floor(db))
  {
    hide AgesOk, HistoryOk, LogsOk, CounterOk, ManifestOk, SnapshotsOk, TablesOk, RecordOk, NumbersOk, NoOverlap, VersionEntries,
         WellChosen, TreeInv, Compactable, FlushedInto, OrderedBySmallest;
    if db.running.Some? {
      var job := db.running.value;
      WellChosenIsCompactable(job.start, job.c);
      InputsStay(job.start, job.c, db.version);
      FlushAdds(db, level, f, v');
      forall l: nat, g | l < NUM_LEVELS && g in v'[l] && g !in job.start[l]
        ensures FlushedInto(job.start, job.c, l, g)
      {
        if g !in db.version[l] {
          FlushIsInto(db, level, f.value);
        }
      }
    }
  }

  lemma FlushAdds(db: Db, level: nat, f: Option<File>, v': Version)
    requires FlushedTo(db, level, f, v')
    ensures forall l: nat, g :: l < NUM_LEVELS ==> (g in v'[l] <==> g in db.version[l] || (f.Some? && l == level && g == f.value))
  {
    hide OrderedBySmallest, NoOverlap, GoodFile;
  }

  lemma FlushIsInto(db: Db, level: nat, f: File)
    requires Inv(db) && db.running.Some? && db.imm.Some? && InputsHere(db.version, db.running.value.c) && level < NUM_LEVELS
    requires GoodFile(f) && TableEntries(f) == db.imm.value
    requires level > 0 ==> forall l :: 0 <= l <= level ==> NoOverlap(db.version, l, f.smallest.key, f.largest.key)
    ensures FlushedInto(db.running.value.start, db.running.value.c, level, f)
  {
    hide HistoryOk, LogsOk, CounterOk, ManifestOk, SnapshotsOk, TablesOk, RecordOk, NumbersOk, VersionEntries, WellChosen, TreeInv,
         OrderedBySmallest, GoodFile;
    var job := db.running.value;
    StartIsThere(job.start, job.c, db.version);
    forall e | e in f.entries
      ensures e in db.imm.value
    {
      assert e in TableEntries(f);
    }
    forall m: nat, g | level > 0 && m <= level && IsInput(job.c, m, g)
      ensures Disjoint(f, g)
    {
      assert g in db.version[m] && NoOverlap(db.version, m, f.smallest.key, f.largest.key);
    }
  }

  /** Flushing keeps the invariant and moves the memtable's entries into the tables, no more and no less. */
  lemma FlushKeepsInv(db: Db, level: nat, f: Option<File>, v': Version)
    requires Inv(db) && FlushedTo(db, level, f, v')
    ensures Inv(AfterFlush(db, level, f, v'))
    ensures Stored(AfterFlush(db, level, f, v')) == Stored(db)
    ensures Faithful(AfterFlush(db, level, f, v')) <==> Faithful(db)
  {
    hide History, NeverReused, LogsOk, CounterOk, ManifestOk, RecordOk, NumbersOk, TablesOk, EditResult, TreeInv, FlushedTo,
         AllOrdered, NumbersUnique, VersionEntries, AnswersAlike, RunningOk;
    FlushKeepsRunning(db, level, f, v');
    var d := AfterFlush(db, level, f, v');
    FlushHasImm(db, level, f, v');
    FlushEditFits(db, level, f, v');
    FlushIsEdit(db, level, f, v');
    FlushedTreeAndEntries(db, level, f, v');
    RecordKeepsManifest(db.manifest, db.versions, db.version, FlushEdit(db, level, f), v');
    FlushKeepsLogs(db, level, f, v');
    FlushedFiles(db, level, f, v');
    assert d.mem + {} + VersionEntries(v') == Stored(db);
  }

  lemma FlushIsEdit(db: Db, level: nat, f: Option<File>, v': Version)
    requires FlushedTo(db, level, f, v')
    ensures EditResult(db.version, FlushEdit(db, level, f), v')
  {
  }

  // ---------------------------------------------------------------- InstallCompactionResults, trivial moves

  function Numbers(files: seq<File>): set<nat> {
    set f | f in files :: f.number
  }

  /** AddInputDeletions. */
  function InputDeletions(c: Compaction): set<(nat, nat)> {
    (set f | f in c.inputs0 :: (c.level, f.number)) + (set f | f in c.inputs1 :: (c.level + 1, f.number))
  }

  function AtLevel(level: nat, files: seq<File>): seq<(nat, File)> {
    seq(|files|, i requires 0 <= i < |files| => (level, files[i]))
  }

  lemma AtLevelMembers(level: nat, files: seq<File>, l: nat, f: File)
    ensures (l, f) in AtLevel(level, files) <==> l == level && f in files
  {
    if l == level && f in files {
      var i :| 0 <= i < |files| && files[i] == f;
      assert AtLevel(level, files)[i] == (l, f);
    }
  }

  /** The edit that puts outputs in place of the inputs of c. */
  function CompactionEdit(db: Db, c: Compaction, outputs: seq<File>): Edit {
    Edit(InputDeletions(c), AtLevel(c.level + 1, outputs), Some(db.logNumber), Some(db.nextFile), Some(db.lastSequence))
  }

  function AfterInstall(db: Db, c: Compaction, outputs: seq<File>, v': Version): Db {
    db.(version := v', pendingOutputs := db.pendingOutputs - Numbers(outputs),
        running := None, manifest := db.manifest + [CompactionEdit(db, c, outputs)], versions := db.versions + [v'])
  }

  /** The outputs are either freshly written pending tables, or the single input of a trivial move. */
  ghost predicate OutputsFit(db: Db, c: Compaction, outputs: seq<File>) {
    || ((forall f :: f in outputs ==> f.number in db.pendingOutputs && f.number in db.tables && db.tables[f.number] == f)
        && (forall f, g :: f in outputs && g in outputs && f.number == g.number ==> f == g))
    || (|c.inputs0| == 1 && c.inputs1 == [] && outputs == c.inputs0)
  }

  ghost predicate InstalledAs(db: Db, c: Compaction, outputs: seq<File>, v': Version) {
    && InputsHere(db.version, c)
    && OutputsFit(db, c, outputs)
    && EditResult(db.version, CompactionEdit(db, c, outputs), v')
  }

  lemma ChosenInDb(db: Db, c: Compaction)
    requires Inv(db) && WellChosen(db.version, c)
    ensures TreeInv(db.version) && Compactable(db.version, c) && InputsHere(db.version, c) && OrderedBySmallest(db.version[0])
  {
    hide AgesOk, HistoryOk, LogsOk, CounterOk, ManifestOk, SnapshotsOk, NumbersOk, RecordOk, TablesOk, TreeInv, WellChosen, Compactable,
         RunningOk, OrderedBySmallest;
    WellChosenIsCompactable(db.version, c);
    ChosenLevel(db.version, c);
    InputsInLevels(db.version, c);
  }

  /** A table survives the edit exactly when it is not an input. */
  lemma SurvivorsAreNotInputs(db: Db, c: Compaction, outputs: seq<File>, l: nat, f: File)
    requires NumbersUnique(db.version) && InputsHere(db.version, c) && l < NUM_LEVELS && f in db.version[l]
    ensures Survives(CompactionEdit(db, c, outputs), l, f) <==> !IsInput(c, l, f)
  {
  }

  lemma InstallReplaces(db: Db, c: Compaction, outputs: seq<File>, v': Version)
    requires Inv(db) && InstalledAs(db, c, outputs, v')
    ensures Replaced(db.version, c, outputs, v')
  {
    hide AgesOk, HistoryOk, LogsOk, CounterOk, ManifestOk, SnapshotsOk, NumbersOk, RecordOk, TablesOk, TreeInv, OutputsFit,
         NumbersUnique, RunningOk;
    var edit := CompactionEdit(db, c, outputs);
    forall l: nat, f
      ensures (l, f) in edit.added <==> l == c.level + 1 && f in outputs
    {
      AtLevelMembers(c.level + 1, outputs, l, f);
    }
    forall l | 0 <= l < NUM_LEVELS && l != c.level && l != c.level + 1
      ensures v'[l] == db.version[l]
    {
      UntouchedLevel(db.version, edit, v', l);
    }
    forall l: nat, f | l < NUM_LEVELS && f in db.version[l]
      ensures Survives(edit, l, f) <==> !IsInput(c, l, f)
    {
      SurvivorsAreNotInputs(db, c, outputs, l, f);
    }
    hide Survives, OrderedBySmallest;
  }

  lemma PendingIsUnused(db: Db, m: nat, n: nat)
    requires Inv(db) && n in db.pendingOutputs
    ensures !AddedBefore(db.manifest, m, n)
  {
  }

  lemma EmptyLevel(l: nat)
    requires l < NUM_LEVELS
    ensures EMPTY_VERSION[l] == []
  {
    assert l == 0 || l == 1 || l == 2 || l == 3 || l == 4 || l == 5 || l == 6;
  }

  /** A table in the tree was recorded when it was added. */
  lemma {:induction false} TreeTablesWereAdded(manifest: seq<Edit>, versions: seq<Version>, n: nat, l: nat, f: File)
    requires History(EMPTY_VERSION, manifest, versions) && n <= |manifest|
    requires l < NUM_LEVELS && f in versions[n][l]
    ensures AddedBefore(manifest, l, f.number)
  {
    EmptyLevel(l);
    if n > 0 {
      assert EditResult(versions[n - 1], manifest[n - 1], versions[n]);
      if f in versions[n - 1][l] {
        TreeTablesWereAdded(manifest, versions, n - 1, l, f);
      } else {
        assert (l, f) in manifest[n - 1].added;
      }
    }
  }

  lemma NewOutputsFit(db: Db, c: Compaction, outputs: seq<File>)
    requires Inv(db) && InputsHere(db.version, c)
    requires forall f :: f in outputs ==> f.number in db.pendingOutputs
    requires forall f, g :: f in outputs && g in outputs && f.number == g.number ==> f == g
    ensures EditFits(db.version, db.manifest, CompactionEdit(db, c, outputs))
  {
    hide AgesOk, HistoryOk, LogsOk, CounterOk, SnapshotsOk, RecordOk, TablesOk, TreeOk, NeverReused, History, AddedBefore, RunningOk;
    var edit := CompactionEdit(db, c, outputs);
    forall l: nat, f | (l, f) in edit.added
      ensures l == c.level + 1 && f in outputs
    {
      AtLevelMembers(c.level + 1, outputs, l, f);
    }
    forall f, m: nat, g | f in outputs && m < NUM_LEVELS && g in db.version[m]
      ensures f.number != g.number
    {
      TreeTablesWereAdded(db.manifest, db.versions, |db.manifest|, m, g);
      PendingIsUnused(db, m, f.number);
    }
    forall f, m: nat | f in outputs
      ensures !AddedBefore(db.manifest, m, f.number)
    {
      PendingIsUnused(db, m, f.number);
    }
  }

  lemma MovedTableFits(db: Db, c: Compaction)
    requires Inv(db) && InputsHere(db.version, c) && |c.inputs0| == 1 && c.inputs1 == []
    ensures EditFits(db.version, db.manifest, CompactionEdit(db, c, c.inputs0))
  {
    hide AgesOk, HistoryOk, LogsOk, CounterOk, SnapshotsOk, RecordOk, TablesOk, TreeInv, NeverReused, History, AddedBefore, RunningOk;
    var edit := CompactionEdit(db, c, c.inputs0);
    var moved := c.inputs0[0];
    assert moved in c.inputs0;
    forall l: nat, f | (l, f) in edit.added
      ensures l == c.level + 1 && f == moved
    {
      AtLevelMembers(c.level + 1, c.inputs0, l, f);
    }
    forall m: nat, g | m < NUM_LEVELS && g in db.version[m] && Survives(edit, m, g)
      ensures moved.number != g.number
    {
      SurvivorsAreNotInputs(db, c, c.inputs0, m, g);
    }
  }

  lemma InstalledFits(db: Db, c: Compaction, outputs: seq<File>, v': Version)
    requires Inv(db) && InstalledAs(db, c, outputs, v')
    ensures EditFits(db.version, db.manifest, CompactionEdit(db, c, outputs))
    ensures AddsExisting(CompactionEdit(db, c, outputs), db.tables, db.nextFile, db.pendingOutputs - Numbers(outputs))
  {
    hide AgesOk, HistoryOk, LogsOk, CounterOk, SnapshotsOk, RecordOk, NumbersOk, ManifestOk, TreeOk, EditFits, EditResult, RunningOk;
    if outputs == c.inputs0 && c.inputs1 == [] && |c.inputs0| == 1 {
      MovedTableFits(db, c);
      assert LiveTable(db.version, db.held, c.inputs0[0]);
    } else {
      NewOutputsFit(db, c, outputs);
    }
    forall l: nat, f | (l, f) in CompactionEdit(db, c, outputs).added
      ensures f in outputs
    {
      AtLevelMembers(c.level + 1, outputs, l, f);
    }
  }

  lemma InstalledIsEdit(db: Db, c: Compaction, outputs: seq<File>, v': Version)
    requires InstalledAs(db, c, outputs, v')
    ensures EditResult(db.version, CompactionEdit(db, c, outputs), v') && InputsHere(db.version, c)
  {
  }

  /** Installing keeps the invariant if it keeps the tree and adds no entries. */
  lemma InstallKeepsInv(db: Db, c: Compaction, outputs: seq<File>, v': Version)
    requires Inv(db) && InstalledAs(db, c, outputs, v') && TreeInv(v') && VersionEntries(v') <= VersionEntries(db.version)
    ensures Inv(AfterInstall(db, c, outputs, v'))
  {
    hide HistoryOk, LogsOk, CounterOk, SnapshotsOk, RecordOk, NumbersOk, ManifestOk, TablesOk, EditFits, EditResult, InputsHere,
         InstalledAs, TreeInv, AllOrdered, NumbersUnique, VersionEntries;
    var d := AfterInstall(db, c, outputs, v');
    InstalledIsEdit(db, c, outputs, v');
    InstalledFits(db, c, outputs, v');
    RecordKeepsManifest(db.manifest, db.versions, db.version, CompactionEdit(db, c, outputs), v');
    RecordKeepsFiles(db, CompactionEdit(db, c, outputs), v', d);
    InstallKeepsCounter(db, c, outputs, v');
  }

  lemma InstallKeepsCounter(db: Db, c: Compaction, outputs: seq<File>, v': Version)
    requires Inv(db)
    ensures var d := AfterInstall(db, c, outputs, v');
            CounterOk(LastRecord(d).lastSequence, Live(d), d.lastSequence)
  {
  }

  /** A trivial move keeps the invariant and every read. */
  lemma MoveKeepsInv(db: Db, c: Compaction, v': Version)
    requires Inv(db) && WellChosen(db.version, c) && |c.inputs0| == 1 && c.inputs1 == [] && InstalledAs(db, c, c.inputs0, v')
    ensures Inv(AfterInstall(db, c, c.inputs0, v'))
    ensures Stored(AfterInstall(db, c, c.inputs0, v')) == Stored(db)
    ensures Faithful(AfterInstall(db, c, c.inputs0, v')) <==> Faithful(db)
  {
    hide AgesOk, HistoryOk, LogsOk, CounterOk, SnapshotsOk, RecordOk, NumbersOk, ManifestOk, TablesOk, WellChosen, Compactable,
         InstalledAs, Replaced, TreeInv, AnswersAlike, VersionEntries, RunningOk;
    ChosenInDb(db, c);
    InstallReplaces(db, c, c.inputs0, v');
    TrivialMoveKeepsTree(db.version, c, v');
    InstallKeepsInv(db, c, c.inputs0, v');
  }

  // ---------------------------------------------------------------- a compaction from start to end

  /** The compaction is set up; DoCompactionWork notes the oldest snapshot. */
  function AfterStart(db: Db, c: Compaction): Db {
    db.(running := Some(Job(c, db.version, Floor(db))))
  }

  lemma StartKeepsInv(db: Db, c: Compaction)
    requires Inv(db) && WellChosen(db.version, c)
    ensures Inv(AfterStart(db, c)) && Stored(AfterStart(db, c)) == Stored(db)
    ensures Faithful(AfterStart(db, c)) <==> Faithful(db)
  {
    hide AgesOk, HistoryOk, LogsOk, CounterOk, SnapshotsOk, RecordOk, NumbersOk, ManifestOk, TablesOk, WellChosen, Compactable,
         TreeInv, AnswersAlike, VersionEntries, FlushedInto, OrderedBySmallest;
    ChosenInDb(db, c);
  }

  /** The outputs are what the compaction loop makes of the merged inputs, going by the version and the oldest snapshot
      it started from. */
  ghost predicate CompactedTo(db: Db, input: seq<Entry>, outputs: seq<File>, v': Version) {
    && db.running.Some?
    && var job := db.running.value;
       && InstalledAs(db, job.c, outputs, v')
       && MergedInput(job.c, input)
       && CutFrom(outputs, Kept(job.start, job.c.level, input, |input|, job.floor))
  }

  /** A value comes back that was deleted, as far as the version the compaction started from goes. */
  ghost predicate ExposesSomething(db: Db) {
    && db.running.Some?
    && var job := db.running.value;
       job.c.level + 1 < NUM_LEVELS && exists u :: Exposes(job.start, job.c, NewerThan(Stored(db), job.start), job.floor, u)
  }

  /** An output runs into a table that was flushed to its level while the compaction ran. */
  ghost predicate Clashes(db: Db, outputs: seq<File>) {
    && db.running.Some?
    && var job := db.running.value;
       job.c.level + 1 < NUM_LEVELS && Clash(job.start, db.version, job.c, outputs)
  }

  lemma JobFacts(db: Db)
    requires Inv(db) && db.running.Some?
    ensures var job := db.running.value;
            && TreeInv(job.start) && WellChosen(job.start, job.c) && Compactable(job.start, job.c)
            && FlushedSince(job.start, job.c, db.version) && TreeInv(db.version) && InputsHere(db.version, job.c)
            && job.floor <= Floor(db) && OrderedBySmallest(job.start[0])
  {
    hide AgesOk, HistoryOk, LogsOk, CounterOk, SnapshotsOk, RecordOk, NumbersOk, ManifestOk, TablesOk, WellChosen, Compactable,
         TreeInv, FlushedSince, OrderedBySmallest;
    var job := db.running.value;
    WellChosenIsCompactable(job.start, job.c);
    InputsStay(job.start, job.c, db.version);
  }

  lemma JobIsThere(db: Db, input: seq<Entry>, outputs: seq<File>, v': Version)
    requires CompactedTo(db, input, outputs, v')
    ensures db.running.Some?
  {
  }

  lemma CompactedParts(db: Db, input: seq<Entry>, outputs: seq<File>, v': Version)
    requires Inv(db) && CompactedTo(db, input, outputs, v')
    ensures var job := db.running.value;
            && Installs(job.start, job.c, db.version, outputs, v') && InstalledAs(db, job.c, outputs, v')
            && MergedInput(job.c, input) && CutFrom(outputs, Kept(job.start, job.c.level, input, |input|, job.floor))
  {
    hide Inv, WellChosen, Compactable, FlushedSince, InstalledAs, Replaced, TreeInv, MergedInput, CutFrom, GoodOutputs, Kept;
    var job := db.running.value;
    JobFacts(db);
    InstallReplaces(db, job.c, outputs, v');
    CompactionGivesGoodOutputs(job.start, job.c, job.floor, input, outputs);
  }

  /** Installing a compaction keeps the invariant if and only if no output runs into a table flushed meanwhile. */
  lemma CompactionKeepsInv(db: Db, input: seq<Entry>, outputs: seq<File>, v': Version)
    requires Inv(db) && CompactedTo(db, input, outputs, v')
    ensures Inv(AfterInstall(db, db.running.value.c, outputs, v')) <==> !Clashes(db, outputs)
  {
    hide Inv, CompactedTo, Installs, InstalledAs, Clash, VersionEntries, TreeInv, MergedInput, CutFrom, Kept;
    JobIsThere(db, input, outputs, v');
    var job := db.running.value;
    CompactedParts(db, input, outputs, v');
    InstallKeepsTreeIff(job.start, job.c, db.version, outputs, v');
    NothingNewInstalled(job.start, job.c, db.version, outputs, v');
    if TreeInv(v') {
      InstallKeepsInv(db, job.c, outputs, v');
    } else if Inv(AfterInstall(db, job.c, outputs, v')) {
      TreeOf(AfterInstall(db, job.c, outputs, v'));
    }
  }

  lemma TreeOf(db: Db)
    requires Inv(db)
    ensures TreeInv(db.version) && AllOrdered(db.version)
  {
  }

  /** It keeps every read from its oldest snapshot on exactly when it exposes nothing. */
  lemma CompactionKeepsReads(db: Db, input: seq<Entry>, outputs: seq<File>, v': Version)
    requires Inv(db) && CompactedTo(db, input, outputs, v')
    ensures var d := AfterInstall(db, db.running.value.c, outputs, v');
            && (AnswersAlike(Stored(d), Stored(db), db.running.value.floor) <==> !ExposesSomething(db))
            && (!ExposesSomething(db) && Faithful(db) ==> Faithful(d))
  {
    hide Inv, CompactedTo, Installs, InstalledAs, VersionEntries, TreeInv, MergedInput, CutFrom, Kept, CompactedStore, Exposes,
         AllNewer, OnePerSequence, NewerThan, WellChosen, Compactable, FlushedSince, OrderedBySmallest;
    JobIsThere(db, input, outputs, v');
    var job := db.running.value;
    var d := AfterInstall(db, job.c, outputs, v');
    JobFacts(db);
    CompactedParts(db, input, outputs, v');
    StoreAges(db);
    InstallGivesCompactedStore(job.start, job.c, db.version, Unflushed(db), job.floor, input, outputs, v');
    ReadsPreservedIff(job.start, job.c, NewerThan(Stored(db), job.start), job.floor, input, Stored(d));
    AllOfStore(db);
  }

  lemma StoreAges(db: Db)
    requires Inv(db)
    ensures AllNewer(Unflushed(db), VersionEntries(db.version)) && OnePerSequence(Unflushed(db) + VersionEntries(db.version))
  {
    hide TreeOk, HistoryOk, LogsOk, CounterOk, SnapshotsOk, RecordOk, NumbersOk, ManifestOk, TablesOk, RunningOk, VersionEntries;
  }

  /** The version a compaction started from is a part of the store. */
  lemma AllOfStore(db: Db)
    requires Inv(db) && db.running.Some?
    ensures NewerThan(Stored(db), db.running.value.start) + VersionEntries(db.running.value.start) == Stored(db)
  {
    hide Inv, WellChosen, Compactable, TreeInv, OrderedBySmallest, VersionEntries, FlushedSince;
    JobFacts(db);
    StartIsThere(db.running.value.start, db.running.value.c, db.version);
  }

  /** Inputs without gaps never clash. */
  lemma JoinedCompactionIsSafe(db: Db, input: seq<Entry>, outputs: seq<File>, v': Version)
    requires Inv(db) && CompactedTo(db, input, outputs, v')
    requires Joined(db.running.value.c.inputs0 + db.running.value.c.inputs1)
    ensures !Clashes(db, outputs) && Inv(AfterInstall(db, db.running.value.c, outputs, v'))
  {
    hide Inv, CompactedTo, InstalledAs, Clash, VersionEntries, TreeInv, MergedInput, CutFrom, Kept, Joined, Compactable, FlushedSince,
         GoodOutputs, Replaced;
    JobIsThere(db, input, outputs, v');
    var job := db.running.value;
    CompactedParts(db, input, outputs, v');
    JoinedNeverClashes(job.start, job.c, db.version, outputs);
    CompactionKeepsInv(db, input, outputs, v');
  }
}
