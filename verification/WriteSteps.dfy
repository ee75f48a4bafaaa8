/**
 The steps of the write path keep the database invariant and stay faithful: logging and
 applying a group, switching memtables, taking and releasing snapshots and iterators,
 and deleting obsolete files.
 */
module WriteSteps {
  import opened InternalKeys
  import opened Visibility
  import opened Versions
  import opened VersionSteps
  import opened VersionEdits
  import opened Database

  // ---------------------------------------------------------------- DBImpl::Write

  function EntrySet(entries: seq<Entry>): set<Entry> {
    set e | e in entries
  }

  /** Sequence numbers as SetSequence and MemTableInserter hand them out. */
  ghost predicate Stamped(entries: seq<Entry>, last: nat) {
    forall k :: 0 <= k < |entries| ==> entries[k].sn == last + 1 + k
  }

  /** The group is appended to the current log and applied to the memtable. */
  function AfterWrite(db: Db, entries: seq<Entry>): Db {
    db.(lastSequence := db.lastSequence + |entries|,
        mem := db.mem + EntrySet(entries),
        logs := db.logs[db.memLog := LogOf(db.logs, db.memLog) + [Batch(db.lastSequence + 1, entries)]],
        history := db.history + EntrySet(entries))
  }

  /** Adding the same newer entries to two stores that answer alike keeps them alike. */
  lemma NewerEntriesAnswerAlike(a: set<Entry>, b: set<Entry>, n: set<Entry>, u: UserKey, s: nat)
    requires OnePerSequence(a + n) && OnePerSequence(b + n) && OnePerSequence(a) && OnePerSequence(b)
    requires forall x, y :: x in n && (y in a || y in b) ==> x.sn > y.sn
    requires Answer(a, u, s) == Answer(b, u, s)
    ensures Answer(a + n, u, s) == Answer(b + n, u, s)
  {
    if !Nothing(n, u, s) {
      var e := NewestExists(n, u, s);
      SameNewest(a + n, b + n, u, s, e);
    } else {
      OldEntriesDecide(a, n, u, s);
      OldEntriesDecide(b, n, u, s);
    }
  }

  lemma OldEntriesDecide(a: set<Entry>, n: set<Entry>, u: UserKey, s: nat)
    requires OnePerSequence(a + n) && OnePerSequence(a) && Nothing(n, u, s)
    ensures Answer(a + n, u, s) == Answer(a, u, s)
  {
    if Nothing(a, u, s) {
      AnswerNothing(a, u, s);
      AnswerNothing(a + n, u, s);
    } else {
      var e := NewestExists(a, u, s);
      SameNewest(a + n, a, u, s, e);
    }
  }

  lemma StampedIsUnique(a: set<Entry>, entries: seq<Entry>, last: nat)
    requires OnePerSequence(a) && Stamped(entries, last) && forall e :: e in a ==> e.sn <= last
    ensures OnePerSequence(a + EntrySet(entries))
    ensures forall e :: e in a + EntrySet(entries) ==> e.sn <= last + |entries|
    ensures forall x, y :: x in EntrySet(entries) && y in a ==> x.sn > y.sn
  {
    forall x | x in EntrySet(entries)
      ensures exists k :: 0 <= k < |entries| && entries[k] == x && x.sn == last + 1 + k
    {
    }
  }

  lemma WriteAnswersAlike(a: set<Entry>, b: set<Entry>, entries: seq<Entry>, last: nat, floor: nat, floor': nat)
    requires OnePerSequence(a) && OnePerSequence(b) && Stamped(entries, last)
    requires forall e :: e in a || e in b ==> e.sn <= last
    requires AnswersAlike(a, b, floor) && floor <= floor'
    ensures AnswersAlike(a + EntrySet(entries), b + EntrySet(entries), floor')
  {
    StampedIsUnique(a, entries, last);
    StampedIsUnique(b, entries, last);
    forall u, s: nat | floor' <= s
      ensures Answer(a + EntrySet(entries), u, s) == Answer(b + EntrySet(entries), u, s)
    {
      NewerEntriesAnswerAlike(a, b, EntrySet(entries), u, s);
    }
  }

  lemma BatchEntriesGrow(batches: seq<Batch>, b: Batch)
    ensures BatchEntries(batches + [b]) == BatchEntries(batches) + EntrySet(b.entries)
  {
    assert b in batches + [b];
    forall e
      ensures e in BatchEntries(batches + [b]) <==> e in BatchEntries(batches) + EntrySet(b.entries)
    {
      if e in BatchEntries(batches) {
        var c :| c in batches && e in c.entries;
        assert c in batches + [b];
      }
    }
  }

  lemma LoggedBatch(live: seq<Batch>, recorded: Option<nat>, entries: seq<Entry>, last: nat)
    requires BatchesOk(live) && CounterOk(recorded, live, last) && Stamped(entries, last)
    ensures BatchesOk(live + [Batch(last + 1, entries)])
    ensures CounterOk(recorded, live + [Batch(last + 1, entries)], last + |entries|)
  {
    var batch := Batch(last + 1, entries);
    forall i | 0 <= i < |live|
      ensures live[i].first + |live[i].entries| <= batch.first
    {
      assert live[i] in live;
    }
    assert batch in live + [batch] && BatchEnd(batch) == last + |entries|;
  }

  lemma WriteKeepsLogs(db: Db, entries: seq<Entry>)
    requires Inv(db) && Stamped(entries, db.lastSequence)
    ensures var d := AfterWrite(db, entries);
            && LogsOk(d.logs, d.mem, d.memLog, d.imm, d.immLog, d.logNumber)
            && CounterOk(LastRecord(d).lastSequence, Live(d), d.lastSequence)
  {
    hide TreeOk, AgesOk, HistoryOk, TablesOk, ManifestOk, RecordOk, NumbersOk, BatchesOk, CounterOk;
    var d := AfterWrite(db, entries);
    BatchEntriesGrow(db.logs[db.memLog], Batch(db.lastSequence + 1, entries));
    LoggedBatch(Live(db), LastRecord(db).lastSequence, entries, db.lastSequence);
    assert Live(d) == Live(db) + [Batch(db.lastSequence + 1, entries)];
  }

  lemma WriteKeepsAges(mem: set<Entry>, imm: set<Entry>, tables: set<Entry>, entries: seq<Entry>, last: nat)
    requires AgesOk(mem, imm, tables, last) && Stamped(entries, last)
    ensures AgesOk(mem + EntrySet(entries), imm, tables, last + |entries|)
  {
    StampedIsUnique(mem + imm + tables, entries, last);
    assert mem + EntrySet(entries) + imm + tables == (mem + imm + tables) + EntrySet(entries);
  }

  /** Logging and applying a write group. */
  lemma WriteKeepsInv(db: Db, entries: seq<Entry>)
    requires Inv(db) && Stamped(entries, db.lastSequence) && db.lastSequence + |entries| < MAX_SEQUENCE
    ensures Inv(AfterWrite(db, entries))
  {
    hide TreeOk, AgesOk, LogsOk, CounterOk, ManifestOk, NumbersOk, TablesOk;
    WriteKeepsLogs(db, entries);
    WriteKeepsAges(db.mem, ImmEntries(db.imm), VersionEntries(db.version), entries, db.lastSequence);
    StampedIsUnique(db.history, entries, db.lastSequence);
  }

  lemma WriteStaysFaithful(db: Db, entries: seq<Entry>)
    requires Inv(db) && Stamped(entries, db.lastSequence) && Faithful(db)
    ensures Faithful(AfterWrite(db, entries))
  {
    hide TreeOk, CounterOk, ManifestOk, NumbersOk, TablesOk, RecordOk, AnswersAlike, VersionEntries;
    var d := AfterWrite(db, entries);
    assert Stored(d) == Stored(db) + EntrySet(entries);
    WriteAnswersAlike(Stored(db), db.history, entries, db.lastSequence, Floor(db), Floor(d));
  }

  // ---------------------------------------------------------------- MakeRoomForWrite

  /** A fresh log and memtable; the full memtable waits to be flushed. */
  function AfterSwitch(db: Db): Db {
    db.(imm := Some(db.mem), immLog := db.memLog, mem := {}, memLog := db.nextFile, nextFile := db.nextFile + 1,
        logs := db.logs[db.nextFile := []])
  }

  lemma SwitchKeepsLogs(db: Db)
    requires Inv(db) && db.imm.None?
    ensures var d := AfterSwitch(db);
            && LogsOk(d.logs, d.mem, d.memLog, d.imm, d.immLog, d.logNumber)
            && Live(d) == Live(db)
  {
    hide TreeOk, AgesOk, HistoryOk, TablesOk, ManifestOk, RecordOk, NumbersOk, CounterOk;
    assert Live(AfterSwitch(db)) == Live(db);
  }

  lemma SwitchKeepsInv(db: Db)
    requires Inv(db) && db.imm.None?
    ensures Inv(AfterSwitch(db))
    ensures Stored(AfterSwitch(db)) == Stored(db)
    ensures Faithful(AfterSwitch(db)) <==> Faithful(db)
  {
    hide TreeOk, LogsOk, CounterOk, ManifestOk, AnswersAlike, VersionEntries;
    SwitchKeepsLogs(db);
    assert db.mem + {} == db.mem && {} + db.mem == db.mem;
  }

  // ---------------------------------------------------------------- snapshots and iterators

  /** Whatever leaves the store and the history alone and does not lower the floor stays faithful. */
  lemma SameStoreStaysFaithful(db: Db, d: Db)
    requires Stored(d) == Stored(db) && d.history == db.history && Floor(db) <= Floor(d)
    ensures Faithful(db) ==> Faithful(d)
  {
  }

  function AfterGetSnapshot(db: Db): Db {
    db.(snapshots := db.snapshots + [db.lastSequence])
  }

  function AfterReleaseSnapshot(db: Db, i: nat): Db
    requires i < |db.snapshots|
  {
    db.(snapshots := db.snapshots[..i] + db.snapshots[i + 1..])
  }

  lemma GetSnapshotKeepsInv(db: Db)
    requires Inv(db)
    ensures Inv(AfterGetSnapshot(db)) && (Faithful(db) ==> Faithful(AfterGetSnapshot(db)))
  {
    hide TreeOk, AgesOk, HistoryOk, LogsOk, CounterOk, ManifestOk, NumbersOk, TablesOk, RecordOk;
    var d := AfterGetSnapshot(db);
    assert d.snapshots[0] == if db.snapshots == [] then db.lastSequence else db.snapshots[0];
    forall s | s in d.snapshots
      ensures s <= d.lastSequence
    {
      assert s in db.snapshots || s == db.lastSequence;
    }
    forall i, j | 0 <= i < j < |d.snapshots|
      ensures d.snapshots[i] <= d.snapshots[j]
    {
      assert d.snapshots[i] in db.snapshots;
    }
    SameStoreStaysFaithful(db, d);
  }

  lemma ReleaseSnapshotKeepsInv(db: Db, i: nat)
    requires Inv(db) && i < |db.snapshots|
    ensures Inv(AfterReleaseSnapshot(db, i)) && (Faithful(db) ==> Faithful(AfterReleaseSnapshot(db, i)))
  {
    hide TreeOk, AgesOk, HistoryOk, LogsOk, CounterOk, ManifestOk, NumbersOk, TablesOk, RecordOk;
    var d := AfterReleaseSnapshot(db, i);
    forall s | s in d.snapshots
      ensures s in db.snapshots
    {
    }
    assert db.snapshots[0] in db.snapshots;
    if d.snapshots != [] {
      assert d.snapshots[0] == if i == 0 then db.snapshots[1] else db.snapshots[0];
    }
    SameStoreStaysFaithful(db, d);
  }

  /** An iterator keeps the current version alive. */
  function AfterHold(db: Db): Db {
    db.(held := db.held + {db.version})
  }

  function AfterUnhold(db: Db, v: Version): Db {
    db.(held := db.held - {v})
  }

  lemma HoldKeepsInv(db: Db, v: Version)
    requires Inv(db)
    ensures Inv(AfterHold(db)) && (Faithful(db) ==> Faithful(AfterHold(db)))
    ensures Inv(AfterUnhold(db, v)) && (Faithful(db) ==> Faithful(AfterUnhold(db, v)))
  {
    hide TreeOk, AgesOk, HistoryOk, LogsOk, CounterOk, ManifestOk, NumbersOk, RecordOk;
    assert forall f :: LiveTable(db.version, AfterHold(db).held, f) ==> LiveTable(db.version, db.held, f);
    assert forall f :: LiveTable(db.version, AfterUnhold(db, v).held, f) ==> LiveTable(db.version, db.held, f);
    SameStoreStaysFaithful(db, AfterHold(db));
    SameStoreStaysFaithful(db, AfterUnhold(db, v));
  }

  // ---------------------------------------------------------------- pending outputs and deletion

  /** A compaction output is given the next number and written while its number is pending. */
  function AfterOpenOutput(db: Db, f: File): Db
    requires f.number == db.nextFile
  {
    db.(nextFile := db.nextFile + 1, pendingOutputs := db.pendingOutputs + {db.nextFile},
        tables := db.tables[db.nextFile := f])
  }

  /** The number is one no record and no table of a live version has. */
  lemma OpenOutputFits(db: Db, f: File)
    requires Inv(db) && f.number == db.nextFile
    ensures var d := AfterOpenOutput(db, f);
            NumbersOk(d.manifest, d.pendingOutputs, d.nextFile) && TablesOk(d.tables, d.version, d.held, d.pendingOutputs, d.nextFile)
  {
    hide TreeOk, AgesOk, HistoryOk, LogsOk, CounterOk, ManifestOk, RunningOk, RecordOk, SnapshotsOk, LiveTable, AddedBefore;
  }

  lemma OpenOutputKeepsInv(db: Db, f: File)
    requires Inv(db) && f.number == db.nextFile
    ensures Inv(AfterOpenOutput(db, f)) && (Faithful(db) ==> Faithful(AfterOpenOutput(db, f)))
  {
    hide TreeOk, AgesOk, HistoryOk, LogsOk, CounterOk, ManifestOk, TablesOk, NumbersOk, AnswersAlike, VersionEntries, RunningOk;
    OpenOutputFits(db, f);
    SameStoreStaysFaithful(db, AfterOpenOutput(db, f));
  }

  /** Table numbers DeleteObsoleteFiles must keep: pending outputs and the tables of every live version. */
  ghost predicate IsLiveNumber(db: Db, n: nat) {
    n in db.pendingOutputs || exists f :: LiveTable(db.version, db.held, f) && f.number == n
  }

  /** DeleteObsoleteFiles: logs below the recorded log number and tables nothing live refers to go away. */
  ghost predicate FilesDeleted(db: Db, d: Db) {
    && d == db.(logs := d.logs, tables := d.tables)
    && (forall n :: n in d.logs <==> n in db.logs && n >= db.logNumber)
    && (forall n :: n in d.logs ==> d.logs[n] == db.logs[n])
    && (forall n :: n in d.tables <==> n in db.tables && IsLiveNumber(db, n))
    && (forall n :: n in d.tables ==> d.tables[n] == db.tables[n])
  }

  /** Deleting obsolete files loses no table of a live version, no pending output and no log recovery needs. */
  lemma DeleteKeepsInv(db: Db, d: Db)
    requires Inv(db) && FilesDeleted(db, d)
    ensures Inv(d) && (Faithful(db) ==> Faithful(d))
    ensures Live(d) == Live(db)
    ensures forall f :: LiveTable(db.version, db.held, f) ==> f.number in d.tables && d.tables[f.number] == f
    ensures forall n :: n in db.pendingOutputs ==> n in d.tables
  {
    hide TreeOk, AgesOk, HistoryOk, CounterOk, ManifestOk, NumbersOk, RecordOk;
    SameStoreStaysFaithful(db, d);
    assert Live(d) == Live(db);
  }
}
