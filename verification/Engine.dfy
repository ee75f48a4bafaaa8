/**
 DBImpl (db/db_impl.cc): the methods that perform the steps of the database, each by
 running the algorithm of the source, and the point read across memtables and tables.
 */
module Engine {
  import opened InternalKeys
  import opened Visibility
  import opened Versions
  import opened CompactionInputs
  import opened CompactionWork
  import opened VersionSteps
  import opened FlushAndMove
  import opened RunningCompaction
  import opened VersionEdits
  import opened Database
  import opened WriteSteps
  import opened BackgroundSteps
  import InputMerge
  import opened RecoverySteps
  import opened Runs

  // ---------------------------------------------------------------- memtables

  /** A least entry in internal-key order. */
  ghost predicate IsFirst(entries: set<Entry>, e: Entry) {
    e in entries && forall x :: x in entries && x != e ==> Precedes(e, x)
  }

  lemma {:induction false} FirstExists(entries: set<Entry>) returns (e: Entry)
    requires entries != {} && OnePerSequence(entries)
    ensures IsFirst(entries, e)
    decreases |entries|
  {
    var x :| x in entries;
    var rest := entries - {x};
    if rest == {} {
      assert entries == {x};
      e := x;
    } else {
      var y := FirstExists(rest);
      e := if Precedes(x, y) then x else y;
      assert x != y && (Precedes(x, y) || Precedes(y, x));
      forall z | z in entries && z != e
        ensures Precedes(e, z)
      {
        assert z == x || z in rest;
      }
    }
  }

  /** The entries a memtable iterator yields from SeekToFirst on: all of them, in internal-key order. */
  method MemTableEntries(entries: set<Entry>) returns (sorted: seq<Entry>)
    requires OnePerSequence(entries)
    ensures Sorted(sorted) && EntrySet(sorted) == entries
  {
    sorted := [];
    var rest := entries;
    while rest != {}
      invariant rest <= entries && Sorted(sorted) && EntrySet(sorted) == entries - rest
      invariant forall x, y :: x in sorted && y in rest ==> Precedes(x, y)
      decreases rest
    {
      ghost var first := FirstExists(rest);
      var e :| e in rest && forall x :: x in rest && x != e ==> Precedes(e, x);
      assert EntrySet(sorted + [e]) == EntrySet(sorted) + {e};
      sorted := sorted + [e];
      rest := rest - {e};
    }
  }

  /** MemTable::Get. */
  method MemTableGet(entries: set<Entry>, u: UserKey, s: nat) returns (state: SaverState)
    requires OnePerSequence(entries)
    ensures state.NotFound? ==> Nothing(entries, u, s)
    ensures !state.NotFound? ==> exists e :: Newest(entries, u, s, e) && Outcome(e) == SavedOutcome(state)
  {
    var sorted := MemTableEntries(entries);
    var i := SeekTable(sorted, SeekKey(u, s));
    SeekFindsNewest(entries, sorted, i, u, s);
    if i == |sorted| || sorted[i].key != u {
      return NotFound;
    }
    assert Newest(entries, u, s, sorted[i]);
    return if sorted[i].kind.Value? then Found(sorted[i].value) else Deleted;
  }

  lemma SeekFindsNewest(entries: set<Entry>, sorted: seq<Entry>, i: nat, u: UserKey, s: nat)
    requires Sorted(sorted) && EntrySet(sorted) == entries && IsSeekPosition(sorted, SeekKey(u, s), i)
    ensures i < |sorted| && sorted[i].key == u ==> Newest(entries, u, s, sorted[i])
    ensures i == |sorted| || sorted[i].key != u ==> Nothing(entries, u, s)
  {
    forall e | e in entries && e.key == u && e.sn <= s
      ensures i < |sorted| && sorted[i].key == u && sorted[i].sn >= e.sn
    {
      assert e in sorted;
      var j :| 0 <= j < |sorted| && sorted[j] == e;
      assert !Less(sorted[j].IK(), SeekKey(u, s));
      assert i <= j;
      assert i == j || Precedes(sorted[i], sorted[j]);
    }
  }

  /** The newest entry of a newer part of the store decides; otherwise the older part does. */
  lemma NewerPartDecides(newer: set<Entry>, older: set<Entry>, u: UserKey, s: nat)
    requires AllNewer(newer, older) && OnePerSequence(newer + older)
    ensures forall e :: Newest(newer, u, s, e) ==> Answer(newer + older, u, s) == Outcome(e)
    ensures Nothing(newer, u, s) ==> Answer(newer + older, u, s) == Answer(older, u, s)
  {
    forall e | Newest(newer, u, s, e)
      ensures Answer(newer + older, u, s) == Outcome(e)
    {
      AnswerIs(newer + older, u, s, e);
    }
    if Nothing(newer, u, s) {
      if Nothing(older, u, s) {
        AnswerNothing(older, u, s);
        AnswerNothing(newer + older, u, s);
      } else {
        var e := NewestExists(older, u, s);
        SameNewest(newer + older, older, u, s, e);
      }
    }
  }

  // ---------------------------------------------------------------- write batches

  datatype Operation = Put(key: UserKey, value: Bytes) | Delete(key: UserKey)

  function ToEntry(op: Operation, sn: nat): Entry {
    match op
    case Put(key, value) => Entry(key, sn, Value, value)
    case Delete(key) => Entry(key, sn, Deletion, [])
  }

  /** MemTableInserter: consecutive sequence numbers in batch order. */
  method InsertInto(ops: seq<Operation>, last: nat, mem: set<Entry>) returns (entries: seq<Entry>, mem': set<Entry>)
    ensures |entries| == |ops| && Stamped(entries, last)
    ensures forall i :: 0 <= i < |ops| ==> entries[i] == ToEntry(ops[i], last + 1 + i)
    ensures mem' == mem + EntrySet(entries)
  {
    entries, mem' := [], mem;
    var sequence := last + 1;
    for i := 0 to |ops|
      invariant |entries| == i && sequence == last + 1 + i
      invariant forall k :: 0 <= k < i ==> entries[k] == ToEntry(ops[k], last + 1 + k)
      invariant mem' == mem + EntrySet(entries)
    {
      var e := ToEntry(ops[i], sequence);
      entries, mem' := entries + [e], mem' + {e};
      sequence := sequence + 1;
    }
  }

  // ---------------------------------------------------------------- DBImpl

  class DBImpl {
    var db: Db
    const maxFileSize: nat
    const bytesSoFar: seq<Entry> -> nat
    const sizeOf: seq<Entry> -> nat

    ghost predicate Valid()
      reads this
    {
      Inv(db)
    }

    /** Creating a new database. */
    constructor (maxFileSize: nat, bytesSoFar: seq<Entry> -> nat, sizeOf: seq<Entry> -> nat)
      ensures Valid() && db == NEW_DB
    {
      this.maxFileSize, this.bytesSoFar, this.sizeOf := maxFileSize, bytesSoFar, sizeOf;
      db := NEW_DB;
      new;
      NewDbIsGood();
    }

    /** DBImpl::Get: the memtable, then the immutable one, then the tables. While the store is
        faithful this is what the history of all writes says. */
    method Get(u: UserKey, snapshot: Option<nat>) returns (r: Option<Bytes>)
      requires Valid()
      ensures var s := if snapshot.Some? then snapshot.value else db.lastSequence;
              && r == Answer(Stored(db), u, s)
              && (Faithful(db) && (snapshot.Some? ==> snapshot.value in db.snapshots) ==> r == Answer(db.history, u, s))
    {
      hide TreeOk, LogsOk, CounterOk, NumbersOk, TablesOk, ManifestOk, RecordOk, VersionEntries;
      var s := if snapshot.Some? then snapshot.value else db.lastSequence;
      FloorIsOldest(db);
      var imm := if db.imm.Some? then db.imm.value else {};
      ghost var tables := VersionEntries(db.version);
      assert db.mem + (imm + tables) == Stored(db);
      NewerPartDecides(db.mem, imm + tables, u, s);
      NewerPartDecides(imm, tables, u, s);
      var state := MemTableGet(db.mem, u, s);
      if state.NotFound? {
        state := MemTableGet(imm, u, s);
      }
      if state.NotFound? {
        r := ReadTables(u, s);
      } else {
        r := SavedOutcome(state);
      }
    }

    method ReadTables(u: UserKey, s: nat) returns (r: Option<Bytes>)
      requires Valid()
      ensures r == Answer(VersionEntries(db.version), u, s)
    {
      r := Versions.Get(db.version, u, s);
    }

    /** DBImpl::Write for one group: log, then memtable. */
    method Write(ops: seq<Operation>)
      requires Valid() && db.lastSequence + |ops| < MAX_SEQUENCE
      modifies this
      ensures Valid() && (old(Faithful(db)) ==> Faithful(db))
      ensures exists entries ::
                && |entries| == |ops|
                && (forall i :: 0 <= i < |ops| ==> entries[i] == ToEntry(ops[i], old(db).lastSequence + 1 + i))
                && Stamped(entries, old(db).lastSequence)
                && db == AfterWrite(old(db), entries)
    {
      hide Inv, Faithful;
      var entries, mem := InsertInto(ops, db.lastSequence, db.mem);
      WriteKeepsInv(db, entries);
      if Faithful(db) {
        WriteStaysFaithful(db, entries);
      }
      db := db.(lastSequence := db.lastSequence + |entries|,
                mem := mem,
                logs := db.logs[db.memLog := LogOf(db.logs, db.memLog) + [Batch(db.lastSequence + 1, entries)]],
                history := db.history + EntrySet(entries));
    }

    /** MakeRoomForWrite when the memtable is full and no other one waits. */
    method SwitchMemTable()
      requires Valid() && db.imm.None?
      modifies this
      ensures Valid() && (old(Faithful(db)) <==> Faithful(db))
      ensures db == AfterSwitch(old(db))
    {
      hide Inv, Faithful, Stored;
      SwitchKeepsInv(db);
      db := db.(imm := Some(db.mem), immLog := db.memLog, mem := {}, memLog := db.nextFile, nextFile := db.nextFile + 1,
                logs := db.logs[db.nextFile := []]);
    }

    /** GetSnapshot pins the current sequence number. */
    method GetSnapshot() returns (s: nat)
      requires Valid()
      modifies this
      ensures Valid() && (old(Faithful(db)) ==> Faithful(db))
      ensures s == db.lastSequence && db == AfterGetSnapshot(old(db)) && s in db.snapshots
    {
      hide Inv, Faithful;
      GetSnapshotKeepsInv(db);
      s := db.lastSequence;
      db := db.(snapshots := db.snapshots + [s]);
    }

    /** The immutable memtable has become a table of the deepest level it may sink to; an empty one just goes. */
    ghost predicate Flushes(before: Db, after: Db) {
      exists level, f ::
        && FlushedTo(before, level, f, after.version) && after == AfterFlush(before, level, f, after.version)
        && (f.Some? ==>
              && f.value.size == sizeOf(f.value.entries)
              && Deepest(before.version, f.value.smallest.key, f.value.largest.key, maxFileSize, level))
    }

    /** WriteLevel0Table: the table, and the level it is for. */
    method WriteLevel0Table(entries: seq<Entry>) returns (level: nat, f: Option<File>)
      requires Valid()
      ensures f == if entries == [] then None
                   else Some(File(db.nextFile, sizeOf(entries), entries[0].IK(), entries[|entries| - 1].IK(), entries))
      ensures if f.None? then level == 0
              else Deepest(db.version, f.value.smallest.key, f.value.largest.key, maxFileSize, level)
      ensures level < NUM_LEVELS
      ensures f.Some? && level > 0 ==> forall l :: 0 <= l <= level ==> NoOverlap(db.version, l, f.value.smallest.key, f.value.largest.key)
    {
      hide Inv, NoOverlap, MaySink;
      level, f := 0, None;
      if entries != [] {
        var table := File(db.nextFile, sizeOf(entries), entries[0].IK(), entries[|entries| - 1].IK(), entries);
        f := Some(table);
        TreeOf(db);
        level := PickLevelForMemTableOutput(db.version, table.smallest.key, table.largest.key, maxFileSize);
      }
    }

    /** CompactMemTable: the immutable memtable becomes a table of the deepest level it may sink to. */
    method CompactMemTable()
      requires Valid() && db.imm.Some?
      modifies this
      ensures Valid() && db.imm.None? && Stored(db) == old(Stored(db))
      ensures old(Faithful(db)) <==> Faithful(db)
      ensures Flushes(old(db), db) && db.running == old(db).running
    {
      hide Inv, Faithful, Stored, FlushedTo, Deepest;
      ImmIsUnique(db);
      var entries := MemTableEntries(db.imm.value);
      var level, f := WriteLevel0Table(entries);
      var edit := FlushEdit(db, level, f);
      FlushEditIsFresh(db, level, f);
      var v := ApplyEdit(db.version, edit);
      BuiltTable(db, entries, level, f, v);
      FlushKeepsInv(db, level, f, v);
      db := AfterFlush(db, level, f, v);
    }

    /** DeleteObsoleteFiles. */
    method DeleteObsoleteFiles()
      requires Valid()
      modifies this
      ensures Valid() && (old(Faithful(db)) ==> Faithful(db))
      ensures FilesDeleted(old(db), db)
      ensures forall f :: LiveTable(db.version, db.held, f) ==> f.number in db.tables && db.tables[f.number] == f
      ensures forall n :: n in db.logs ==> n >= db.logNumber
      ensures forall n :: n in db.tables ==>
                n in db.pendingOutputs
                || exists v: Version, l: nat, f :: (v == db.version || v in db.held) && l < 7 && f in v[l] && f.number == n
    {
      hide Inv, Faithful;
      var versions := db.held + {db.version};
      var live := db.pendingOutputs + set v: Version, l: nat, f: File | v in versions && l < NUM_LEVELS && f in v[l] :: f.number;
      LiveNumbers(db, live);
      ghost var before := db;
      db := db.(logs := map n | n in db.logs && n >= db.logNumber :: db.logs[n],
                tables := map n | n in db.tables && n in live :: db.tables[n]);
      DeleteKeepsInv(before, db);
    }

    /** Output numbers are taken and kept pending while the tables are written. */
    method OpenOutputs(outputs: seq<File>)
      requires Valid()
      requires forall i :: 0 <= i < |outputs| ==> outputs[i].number == db.nextFile + i
      modifies this
      ensures Valid() && (old(Faithful(db)) ==> Faithful(db))
      ensures db == old(db).(nextFile := db.nextFile, pendingOutputs := db.pendingOutputs, tables := db.tables)
      ensures forall f :: f in outputs ==> f.number in db.pendingOutputs && f.number in db.tables && db.tables[f.number] == f
    {
      hide Inv, Faithful;
      for i := 0 to |outputs|
        invariant Valid() && (old(Faithful(db)) ==> Faithful(db))
        invariant db == old(db).(nextFile := db.nextFile, pendingOutputs := db.pendingOutputs, tables := db.tables)
        invariant db.nextFile == old(db).nextFile + i
        invariant forall k :: 0 <= k < i ==> outputs[k].number in db.pendingOutputs && outputs[k].number in db.tables
                                             && db.tables[outputs[k].number] == outputs[k]
      {
        OpenOutputKeepsInv(db, outputs[i]);
        db := AfterOpenOutput(db, outputs[i]);
      }
    }

    /** The compaction is taken up. */
    method BeginCompaction(c: Compaction)
      requires Valid() && db.running.None? && WellChosen(db.version, c)
      modifies this
      ensures Valid() && db == AfterStart(old(db), c) && (old(Faithful(db)) <==> Faithful(db)) && Stored(db) == old(Stored(db))
      ensures db.running.Some? && db.running.value.c == c && db.running.value.start == db.version
      ensures var oldest := db.running.value.floor;
              && (forall s :: s in db.snapshots ==> oldest <= s)
              && if db.snapshots == [] then oldest == db.lastSequence else oldest in db.snapshots
    {
      hide Inv, Faithful, WellChosen, Stored;
      FloorIsOldest(db);
      StartKeepsInv(db, c);
      db := db.(running := Some(Job(c, db.version, Floor(db))));
    }

    /** Each output is cut where it is big enough or would overlap too much two levels down, and nowhere else. */
    ghost predicate CutWell(before: Db, outputs: seq<File>) {
      && before.running.Some?
      && (exists from :: Cuts(before.running.value.c.grandparents, maxFileSize, bytesSoFar).Explain(outputs, from))
      && forall f :: f in outputs ==> f.size == sizeOf(f.entries)
    }

    /** The running compaction has been installed; only the files it wrote have come in between. */
    ghost predicate Installs(before: Db, after: Db) {
      && before.running.Some?
      && exists written: Db, input, outputs ::
           && written == before.(nextFile := written.nextFile, pendingOutputs := written.pendingOutputs, tables := written.tables)
           && CompactedTo(written, input, outputs, after.version) && CutWell(written, outputs)
           && after == AfterInstall(written, before.running.value.c, outputs, after.version)
    }

    /** The rest of DoCompactionWork and InstallCompactionResults, whatever has happened since the start. The invariant
        is kept exactly when no output runs into a table flushed meanwhile, and reads from the compaction's oldest
        snapshot on exactly when nothing is exposed. */
    method FinishCompaction() returns (ghost before: Db, ghost outputs: seq<File>)
      requires Valid() && db.running.Some?
      modifies this
      ensures before == old(db).(nextFile := before.nextFile, pendingOutputs := before.pendingOutputs, tables := before.tables)
      ensures db == AfterInstall(before, old(db).running.value.c, outputs, db.version)
      ensures exists input :: CompactedTo(before, input, outputs, db.version)
      ensures CutWell(before, outputs)
      ensures Valid() <==> !Clashes(before, outputs)
      ensures var c := old(db).running.value.c; Joined(c.inputs0 + c.inputs1) ==> Valid()
      ensures AnswersAlike(Stored(db), old(Stored(db)), old(db).running.value.floor) <==> !ExposesSomething(old(db))
      ensures !ExposesSomething(old(db)) && old(Faithful(db)) ==> Faithful(db)
    {
      hide Inv, Faithful, WellChosen, Compactable, TreeInv, FlushedSince, CutFrom, Kept, Stored, ExposesSomething, Clashes, Joined,
           OrderedBySmallest, InstalledAs, Cuts.Explain, MustStay;
      var running := db.running.value;
      JobFacts(db);
      FloorBelowLast(db);
      SequenceIsSmall(db);
      var input := InputMerge.MergeInputs(running.start, running.c);
      var job := new CompactionJob(running.start, running.c, running.floor, maxFileSize, bytesSoFar, sizeOf, db.nextFile);
      job.Run(input);
      var written := job.outputs;
      OpenOutputs(written);
      outputs, before := written, db;
      OutputsAreUnused(db, running.c, written);
      var v := ApplyEdit(db.version, CompactionEdit(db, running.c, written));
      OutputsInstalled(db, running.c, written, v);
      assert CompactedTo(db, input, written, v);
      CompactionKeepsInv(db, input, written, v);
      CompactionKeepsReads(db, input, written, v);
      if Joined(running.c.inputs0 + running.c.inputs1) {
        JoinedCompactionIsSafe(db, input, written, v);
      }
      SameExposure(old(db), db);
      assert CutWell(db, written) by {
        assert Cuts(running.c.grandparents, maxFileSize, bytesSoFar).Explain(written, job.from);
      }
      db := AfterInstall(db, running.c, written, v);
    }

    ghost predicate Compacts(before: Db, c: Compaction, after: Db) {
      if before.imm.None? then Installs(AfterStart(before, c), after)
      else exists mid :: Flushes(AfterStart(before, c), mid) && Installs(mid, after)
    }

    /** A compaction from start to end, with the flush DoCompactionWork lets in for a memtable that is waiting. */
    method RunCompaction(c: Compaction)
      requires Valid() && db.running.None? && WellChosen(db.version, c)
      modifies this
      ensures db.running.None?
      ensures Compacts(old(db), c, db)
      ensures Joined(c.inputs0 + c.inputs1) ==> Valid()
      ensures AnswersAlike(Stored(db), old(Stored(db)), old(Floor(db))) <==> !ExposesSomething(AfterStart(old(db), c))
      ensures !ExposesSomething(AfterStart(old(db), c)) && old(Faithful(db)) ==> Faithful(db)
    {
      hide Inv, Faithful, WellChosen, Stored, ExposesSomething, Joined, CompactedTo, CutWell, Flushes;
      BeginCompaction(c);
      ghost var begun := db;
      if db.imm.Some? {
        CompactMemTable();
      }
      SameStoreExposure(begun, db);
      ghost var mid := db;
      ghost var written, outputs := FinishCompaction();
      assert Installs(mid, db);
    }

    /** The only input has moved down a level as it is. */
    ghost predicate Moves(before: Db, c: Compaction, after: Db) {
      InstalledAs(before, c, c.inputs0, after.version) && after == AfterInstall(before, c, c.inputs0, after.version)
    }

    /** BackgroundCompaction: a waiting memtable goes first; otherwise the triggered compaction is
        set up and run, or its only table moved. Its inputs leave no gaps, so it never clashes with a flush. */
    method BackgroundCompaction(trigger: Trigger, pointers: seq<Option<IKey>>) returns (c: Option<Compaction>)
      requires Valid() && db.running.None? && |pointers| == NUM_LEVELS
      requires trigger.Size? ==> trigger.level + 1 < NUM_LEVELS && db.version[trigger.level] != []
      requires trigger.Seek? ==> trigger.level + 1 < NUM_LEVELS && trigger.file in db.version[trigger.level]
      modifies this
      ensures Valid() && db.running.None?
      ensures c.None? <==> old(db).imm.Some? || trigger.NoTrigger?
      ensures c.None? ==> Stored(db) == old(Stored(db)) && (old(Faithful(db)) ==> Faithful(db))
      ensures c.None? ==> if old(db).imm.Some? then Flushes(old(db), db) else db == old(db)
      ensures c.Some? ==> c.value.level == trigger.level && WellChosen(old(db).version, c.value)
      ensures c.Some? ==> exists f :: Triggers(old(db).version, trigger, pointers, f)
                                      && PickedFrom(old(db).version, trigger.level, f, maxFileSize, c.value)
      ensures c.Some? ==>
                if |c.value.inputs0| == 1 && c.value.inputs1 == [] && TotalFileSize(c.value.grandparents) <= 10 * maxFileSize
                then Moves(old(db), c.value, db) else Compacts(old(db), c.value, db)
      ensures c.Some? && !ExposesSomething(AfterStart(old(db), c.value)) && old(Faithful(db)) ==> Faithful(db)
    {
      hide Inv, Faithful, WellChosen, Compactable, TreeInv, Stored, ExposesSomething, Joined, Flushes, Moves, Compacts, PickedFrom,
           Triggers;
      if db.imm.Some? {
        CompactMemTable();
        return None;
      }
      TreeOf(db);
      c := PickCompaction(db.version, trigger, pointers, maxFileSize);
      if c.Some? {
        if IsTrivialMove(c.value, maxFileSize) {
          MoveTable(c.value);
        } else {
          RunCompaction(c.value);
        }
      }
    }

    /** A trivial move. */
    method MoveTable(c: Compaction)
      requires Valid() && db.running.None? && WellChosen(db.version, c) && |c.inputs0| == 1 && c.inputs1 == []
      modifies this
      ensures Valid() && db.running.None? && Stored(db) == old(Stored(db)) && (old(Faithful(db)) <==> Faithful(db))
      ensures Moves(old(db), c, db)
    {
      hide Inv, Faithful, WellChosen, Stored, InputsHere, EditResult;
      MovedIsUnused(db, c);
      ChosenInDb(db, c);
      var v := ApplyEdit(db.version, CompactionEdit(db, c, c.inputs0));
      MovedInstalled(db, c, v);
      MoveKeepsInv(db, c, v);
      db := AfterInstall(db, c, c.inputs0, v);
    }
  }

  lemma FloorIsOldest(db: Db)
    requires Inv(db)
    ensures Floor(db) <= db.lastSequence && forall s :: s in db.snapshots ==> Floor(db) <= s
    ensures if db.snapshots == [] then Floor(db) == db.lastSequence else Floor(db) in db.snapshots
  {
    FloorBelowLast(db);
    forall s | s in db.snapshots
      ensures Floor(db) <= s
    {
      var i :| 0 <= i < |db.snapshots| && db.snapshots[i] == s;
    }
  }

  lemma ImmIsUnique(db: Db)
    requires Inv(db) && db.imm.Some?
    ensures OnePerSequence(db.imm.value) && forall e :: e in db.imm.value ==> e.sn <= MAX_SEQUENCE
  {
    hide TreeOk, LogsOk, CounterOk, NumbersOk, TablesOk, ManifestOk, RecordOk, VersionEntries;
  }

  lemma FlushEditIsFresh(db: Db, level: nat, f: Option<File>)
    requires Inv(db) && level < NUM_LEVELS && (f.Some? ==> f.value.number == db.nextFile)
    ensures GoodEdit(FlushEdit(db, level, f)) && AddsUnused(db.version, [], FlushEdit(db, level, f)) && AllOrdered(db.version)
  {
    hide TreeInv, AgesOk, LogsOk, CounterOk, NumbersOk, TablesOk, ManifestOk;
  }

  /** BuildTable: the table holds the memtable's entries between its first and last key. */
  lemma BuiltTable(db: Db, entries: seq<Entry>, level: nat, f: Option<File>, v: Version)
    requires db.imm.Some? && level < NUM_LEVELS && Sorted(entries) && EntrySet(entries) == db.imm.value
    requires forall e :: e in db.imm.value ==> e.sn <= MAX_SEQUENCE
    requires f.None? <==> entries == []
    requires f.Some? ==> f.value.number == db.nextFile && f.value.entries == entries
                         && f.value.smallest == entries[0].IK() && f.value.largest == entries[|entries| - 1].IK()
    requires f.Some? && level > 0 ==> forall l :: 0 <= l <= level ==> NoOverlap(db.version, l, f.value.smallest.key, f.value.largest.key)
    requires EditResult(db.version, FlushEdit(db, level, f), v)
    ensures FlushedTo(db, level, f, v)
  {
    hide EditResult, NoOverlap;
    if f.Some? {
      assert entries[0] in EntrySet(entries);
      assert TableEntries(f.value) == EntrySet(entries);
      assert forall e :: e in entries ==> e in EntrySet(entries);
    }
  }

  lemma LiveNumbers(db: Db, live: set<nat>)
    requires live == db.pendingOutputs +
               set v: Version, l: nat, f: File | v in db.held + {db.version} && l < NUM_LEVELS && f in v[l] :: f.number
    ensures forall n :: n in live <==> IsLiveNumber(db, n)
  {
    forall n
      ensures n in live <==> IsLiveNumber(db, n)
    {
      if f :| LiveTable(db.version, db.held, f) && f.number == n {
        var v: Version, l: nat :| (v == db.version || v in db.held) && l < NUM_LEVELS && f in v[l];
        assert v in db.held + {db.version};
      }
    }
  }

  lemma SequenceIsSmall(db: Db)
    requires Inv(db)
    ensures db.lastSequence < MAX_SEQUENCE
  {
  }

  lemma OutputsAreUnused(db: Db, c: Compaction, outputs: seq<File>)
    requires Inv(db) && InputsHere(db.version, c)
    requires forall f :: f in outputs ==> f.number in db.pendingOutputs
    requires forall i, j :: 0 <= i < j < |outputs| ==> outputs[i].number < outputs[j].number
    ensures AllOrdered(db.version) && AddsUnused(db.version, [], CompactionEdit(db, c, outputs)) && GoodEdit(CompactionEdit(db, c, outputs))
    ensures forall f, g :: f in outputs && g in outputs && f.number == g.number ==> f == g
  {
    hide Inv, InputsHere;
    TreeOf(db);
    forall f, g | f in outputs && g in outputs
      ensures f.number == g.number ==> f == g
    {
      var i :| 0 <= i < |outputs| && outputs[i] == f;
      var j :| 0 <= j < |outputs| && outputs[j] == g;
      assert i == j || outputs[i].number != outputs[j].number;
    }
    NewOutputsFit(db, c, outputs);
    FitsAreUnused(db, c, outputs);
  }

  lemma FitsAreUnused(db: Db, c: Compaction, outputs: seq<File>)
    requires Inv(db) && InputsHere(db.version, c)
    requires EditFits(db.version, db.manifest, CompactionEdit(db, c, outputs))
    ensures AddsUnused(db.version, [], CompactionEdit(db, c, outputs)) && GoodEdit(CompactionEdit(db, c, outputs))
  {
    hide TreeOk, LogsOk, CounterOk, NumbersOk, TablesOk, InputsHere, AgesOk, RecordOk, RunningOk, AddedBefore, NeverReused, CompactionEdit;
    var edit := CompactionEdit(db, c, outputs);
    forall l: nat, f, g | l < NUM_LEVELS && (l, f) in edit.added && g in db.version[l]
      ensures f.number != g.number
    {
      TreeTablesWereAdded(db.manifest, db.versions, |db.manifest|, l, g);
    }
    forall l: nat, f | l < NUM_LEVELS && (l, f) in edit.added
      ensures !AddedBefore([], l, f.number)
    {
      NothingAddedBefore(l, f.number);
    }
  }

  lemma MovedIsUnused(db: Db, c: Compaction)
    requires Inv(db) && WellChosen(db.version, c) && |c.inputs0| == 1 && c.inputs1 == []
    ensures AllOrdered(db.version)
    ensures AddsUnused(db.version, [], CompactionEdit(db, c, c.inputs0)) && GoodEdit(CompactionEdit(db, c, c.inputs0))
  {
    TreeOf(db);
    ChosenInDb(db, c);
    MovedTableFits(db, c);
    FitsAreUnused(db, c, c.inputs0);
  }

  lemma MovedInstalled(db: Db, c: Compaction, v: Version)
    requires InputsHere(db.version, c) && EditResult(db.version, CompactionEdit(db, c, c.inputs0), v)
    requires |c.inputs0| == 1 && c.inputs1 == []
    ensures InstalledAs(db, c, c.inputs0, v)
  {
    hide EditResult, InputsHere;
  }

  lemma OutputsInstalled(db: Db, c: Compaction, outputs: seq<File>, v: Version)
    requires InputsHere(db.version, c) && EditResult(db.version, CompactionEdit(db, c, outputs), v)
    requires forall f :: f in outputs ==> f.number in db.pendingOutputs && f.number in db.tables && db.tables[f.number] == f
    requires forall f, g :: f in outputs && g in outputs && f.number == g.number ==> f == g
    ensures InstalledAs(db, c, outputs, v)
  {
    hide EditResult, InputsHere;
  }

  /** Taking output numbers changes nothing a compaction could expose. */
  lemma SameExposure(before: Db, after: Db)
    requires after == before.(nextFile := after.nextFile, pendingOutputs := after.pendingOutputs, tables := after.tables)
    ensures ExposesSomething(after) <==> ExposesSomething(before)
    ensures Stored(after) == Stored(before)
  {
    hide Exposes, VersionEntries;
    assert Stored(after) == Stored(before);
    SameStoreExposure(before, after);
  }

  lemma SameStoreExposure(before: Db, after: Db)
    requires after.running == before.running && Stored(after) == Stored(before)
    ensures ExposesSomething(after) <==> ExposesSomething(before)
  {
    hide Exposes, Stored, NewerThan;
  }
}
