/**
 A crash followed by recovery (VersionSet::Recover in db/version_set.cc, DBImpl::Recover,
 RecoverLogFile and DB::Open in db/db_impl.cc): the manifest is replayed, the logs it does
 not cover are replayed into new level-0 tables, and a new manifest is started.
 */
module RecoverySteps {
  import opened InternalKeys
  import opened Visibility
  import opened Versions
  import opened VersionSteps
  import opened FlushAndMove
  import opened VersionEdits
  import opened Database
  import opened WriteSteps
  import opened BackgroundSteps

  // ---------------------------------------------------------------- replaying logs

  /** The logs to replay: those on disk with a number at or above the recorded one, in order. */
  ghost predicate LogsToReplay(logs: map<nat, seq<Batch>>, logNumber: nat, order: seq<nat>) {
    && (forall i, j :: 0 <= i < j < |order| ==> order[i] < order[j])
    && (forall n :: n in order <==> n in logs && n >= logNumber)
  }

  function ReadLogs(logs: map<nat, seq<Batch>>, order: seq<nat>): seq<Batch> {
    if order == [] then [] else LogOf(logs, order[0]) + ReadLogs(logs, order[1..])
  }

  /** The wanted ones of these logs, in order. */
  function Wanted(order: seq<nat>, wanted: set<nat>): seq<nat> {
    if order == [] then []
    else if order[0] in wanted then [order[0]] + Wanted(order[1..], wanted)
    else Wanted(order[1..], wanted)
  }

  ghost predicate Rising(order: seq<nat>) {
    forall i, j :: 0 <= i < j < |order| ==> order[i] < order[j]
  }

  lemma {:induction false} WantedMembers(order: seq<nat>, wanted: set<nat>)
    requires Rising(order)
    ensures forall n :: n in Wanted(order, wanted) <==> n in order && n in wanted
    ensures Rising(Wanted(order, wanted))
  {
    if order != [] {
      var rest := order[1..];
      WantedMembers(rest, wanted);
      assert order == [order[0]] + rest;
      forall n | n in rest
        ensures order[0] < n
      {
        var i :| 0 <= i < |rest| && rest[i] == n;
        assert order[i + 1] == n;
      }
      if order[0] in wanted {
        RisesOn(order[0], Wanted(rest, wanted));
      }
    }
  }

  lemma RisesOn(n: nat, rest: seq<nat>)
    requires Rising(rest) && forall m :: m in rest ==> n < m
    ensures Rising([n] + rest)
  {
    assert forall j :: 0 <= j < |rest| ==> rest[j] in rest;
  }

  lemma ReadFirst(logs: map<nat, seq<Batch>>, n: nat, rest: seq<nat>)
    ensures ReadLogs(logs, [n] + rest) == LogOf(logs, n) + ReadLogs(logs, rest)
  {
    hide LogOf;
    assert ([n] + rest)[1..] == rest;
  }

  /** Empty logs add nothing to what is read. */
  lemma {:induction false} EmptyLogsAddNothing(logs: map<nat, seq<Batch>>, order: seq<nat>, wanted: set<nat>)
    requires forall n :: n in order && n !in wanted ==> LogOf(logs, n) == []
    ensures ReadLogs(logs, order) == ReadLogs(logs, Wanted(order, wanted))
  {
    hide LogOf, ReadLogs;
    if order != [] {
      var rest := order[1..];
      assert order == [order[0]] + rest;
      EmptyLogsAddNothing(logs, rest, wanted);
      ReadFirst(logs, order[0], rest);
      if order[0] in wanted {
        ReadFirst(logs, order[0], Wanted(rest, wanted));
      }
    }
  }

  /** What recovery reads is exactly the log of the immutable memtable, if any, and the current one; whatever else it
      replays is empty. */
  lemma ReplaysLiveLogs(db: Db, order: seq<nat>)
    requires Inv(db) && LogsToReplay(db.logs, db.logNumber, order)
    ensures ReadLogs(db.logs, order) == Live(db)
    ensures db.memLog in order && (db.imm.Some? ==> db.immLog in order)
  {
    hide TreeOk, AgesOk, HistoryOk, CounterOk, ManifestOk, NumbersOk, RecordOk, TablesOk, BatchesOk, RunningOk;
    assert db.memLog in order && (db.imm.Some? ==> db.immLog in order);
    var wanted := if db.imm.None? then {db.memLog} else {db.immLog, db.memLog};
    WantedMembers(order, wanted);
    EmptyLogsAddNothing(db.logs, order, wanted);
    ReadsWanted(db, Wanted(order, wanted));
  }

  lemma ReadsWanted(db: Db, order: seq<nat>)
    requires Rising(order)
    requires forall n :: n in order <==> n == db.memLog || (db.imm.Some? && n == db.immLog)
    requires db.imm.Some? ==> db.immLog < db.memLog
    ensures ReadLogs(db.logs, order) == Live(db)
  {
    if db.imm.None? {
      OneLog(order, db.memLog);
    } else {
      TwoLogs(order, db.immLog, db.memLog);
      assert order[1..] == [db.memLog];
    }
    assert ReadLogs(db.logs, [db.memLog]) == LogOf(db.logs, db.memLog) + ReadLogs(db.logs, []);
  }

  lemma OneLog(order: seq<nat>, a: nat)
    requires forall i, j :: 0 <= i < j < |order| ==> order[i] < order[j]
    requires forall n :: n in order <==> n == a
    ensures order == [a]
  {
    assert |order| > 1 ==> order[0] < order[1];
    assert a in order;
    forall i | 0 <= i < |order|
      ensures order[i] == a
    {
      assert order[i] in order;
    }
  }

  lemma TwoLogs(order: seq<nat>, a: nat, b: nat)
    requires forall i, j :: 0 <= i < j < |order| ==> order[i] < order[j]
    requires a < b && forall n :: n in order <==> n == a || n == b
    ensures order == [a, b]
  {
    assert |order| > 2 ==> order[0] < order[1] < order[2];
    assert a in order && b in order;
    forall i | 0 <= i < |order|
      ensures order[i] == a || order[i] == b
    {
      assert order[i] in order;
    }
  }

  function Concat(batches: seq<Batch>): seq<Entry> {
    if batches == [] then [] else Concat(batches[..|batches| - 1]) + batches[|batches| - 1].entries
  }

  ghost predicate Ascending(entries: seq<Entry>) {
    forall i, j :: 0 <= i < j < |entries| ==> entries[i].sn < entries[j].sn
  }

  lemma {:induction false} ConcatMembers(batches: seq<Batch>)
    ensures EntrySet(Concat(batches)) == BatchEntries(batches)
    decreases |batches|
  {
    if batches != [] {
      var before, last := batches[..|batches| - 1], batches[|batches| - 1];
      assert batches == before + [last];
      ConcatMembers(before);
      BatchEntriesGrow(before, last);
    }
  }

  lemma BatchesBefore(batches: seq<Batch>)
    requires BatchesOk(batches) && batches != []
    ensures var before, last := batches[..|batches| - 1], batches[|batches| - 1];
            && BatchesOk(before) && (before != [] ==> before[|before| - 1].first + |before[|before| - 1].entries| <= last.first)
            && forall k :: 0 <= k < |last.entries| ==> last.entries[k].sn == last.first + k
  {
    var before, last := batches[..|batches| - 1], batches[|batches| - 1];
    assert last in batches;
    forall b | b in before
      ensures b in batches
    {
    }
    if before != [] {
      assert batches[|before| - 1] == before[|before| - 1];
    }
  }

  /** Batches in log order hold strictly increasing sequence numbers, all below the end of the last. */
  lemma {:induction false} ConcatAscends(batches: seq<Batch>)
    requires BatchesOk(batches)
    ensures Ascending(Concat(batches))
    ensures batches != [] ==>
              forall e :: e in Concat(batches) ==> e.sn < batches[|batches| - 1].first + |batches[|batches| - 1].entries|
    decreases |batches|
  {
    hide BatchesOk;
    if batches != [] {
      var before, last := batches[..|batches| - 1], batches[|batches| - 1];
      BatchesBefore(batches);
      ConcatAscends(before);
      AscendingJoins(Concat(before), last.entries, last.first);
    }
  }

  lemma AscendingJoins(a: seq<Entry>, b: seq<Entry>, first: nat)
    requires Ascending(a) && (forall e :: e in a ==> e.sn < first)
    requires forall k :: 0 <= k < |b| ==> b[k].sn == first + k
    ensures Ascending(a + b) && forall e :: e in a + b ==> e.sn < first + |b|
  {
    assert forall k :: 0 <= k < |a| ==> a[k] in a;
  }

  /** The largest sequence number any record reaches, or start. */
  function MaxEnd(batches: seq<Batch>, start: nat): nat {
    if batches == [] then start
    else
      var m := MaxEnd(batches[..|batches| - 1], start);
      if BatchEnd(batches[|batches| - 1]) > m then BatchEnd(batches[|batches| - 1]) else m
  }

  lemma {:induction false} MaxEndIsCounter(batches: seq<Batch>, start: nat, last: nat)
    requires start <= last && forall b :: b in batches ==> BatchEnd(b) <= last
    ensures start <= MaxEnd(batches, start) <= last
    ensures forall b :: b in batches ==> BatchEnd(b) <= MaxEnd(batches, start)
    decreases |batches|
  {
    if batches != [] {
      var before := batches[..|batches| - 1];
      assert batches == before + [batches[|batches| - 1]];
      MaxEndIsCounter(before, start, last);
    }
  }

  /** Replaying restores the sequence counter exactly. */
  lemma CounterIsRestored(db: Db)
    requires Inv(db)
    ensures MaxEnd(Live(db), LastRecord(db).lastSequence.value) == db.lastSequence
  {
    hide TreeOk, AgesOk, HistoryOk, LogsOk, ManifestOk, NumbersOk, TablesOk;
    MaxEndIsCounter(Live(db), LastRecord(db).lastSequence.value, db.lastSequence);
  }

  // ---------------------------------------------------------------- replaying the manifest

  lemma {:induction false} HistoryIsUnique(edits: seq<Edit>, a: seq<Version>, b: seq<Version>, n: nat)
    requires History(EMPTY_VERSION, edits, a) && History(EMPTY_VERSION, edits, b) && n <= |edits|
    ensures a[n] == b[n]
  {
    if n > 0 {
      HistoryIsUnique(edits, a, b, n - 1);
      EditResultIsUnique(a[n - 1], edits[n - 1], a[n], b[n]);
    }
  }

  // ---------------------------------------------------------------- the new level-0 tables

  /** Each table holds a non-empty stretch of the replayed entries; together they hold all of them. */
  ghost predicate TablesHold(files: seq<File>, entries: seq<Entry>)
    decreases |files|
  {
    if files == [] then entries == []
    else
      exists cut :: 0 <= cut < |entries| && TableEntries(files[|files| - 1]) == EntrySet(entries[cut..])
                    && TablesHold(files[..|files| - 1], entries[..cut])
  }

  lemma {:induction false} TablesHoldAll(files: seq<File>, entries: seq<Entry>)
    requires TablesHold(files, entries)
    ensures LevelEntries(files) == EntrySet(entries)
    decreases |files|
  {
    hide LevelEntries, EntrySet, TableEntries;
    NothingHeld();
    if files != [] {
      var before, last := files[..|files| - 1], files[|files| - 1];
      assert files == before + [last];
      var cut :| 0 <= cut < |entries| && TableEntries(last) == EntrySet(entries[cut..]) && TablesHold(before, entries[..cut]);
      TablesHoldAll(before, entries[..cut]);
      EntriesJoin(entries[..cut], entries[cut..]);
      LevelJoins(before, last);
      assert entries == entries[..cut] + entries[cut..];
    }
  }

  lemma NothingHeld()
    ensures LevelEntries([]) == {} == EntrySet([])
  {
  }

  lemma EntriesJoin(a: seq<Entry>, b: seq<Entry>)
    ensures EntrySet(a + b) == EntrySet(a) + EntrySet(b)
  {
  }

  lemma LevelJoins(files: seq<File>, f: File)
    ensures LevelEntries(files + [f]) == LevelEntries(files) + TableEntries(f)
  {
    assert f in files + [f];
    forall e | e in LevelEntries(files)
      ensures e in LevelEntries(files + [f])
    {
      var g :| g in files && e in g.entries;
      assert g in files + [f];
    }
  }

  lemma PrefixAscends(entries: seq<Entry>, cut: nat)
    requires Ascending(entries) && cut <= |entries|
    ensures Ascending(entries[..cut])
  {
  }

  /** Later tables are newer throughout. */
  lemma {:induction false} LaterTablesAreNewer(files: seq<File>, entries: seq<Entry>, i: nat, j: nat, e: Entry, x: Entry)
    requires TablesHold(files, entries) && Ascending(entries) && i < j < |files|
    requires x in files[i].entries && e in files[j].entries
    ensures e.sn > x.sn
    decreases |files|
  {
    var before, last := files[..|files| - 1], files[|files| - 1];
    var cut :| 0 <= cut < |entries| && TableEntries(last) == EntrySet(entries[cut..]) && TablesHold(before, entries[..cut]);
    PrefixAscends(entries, cut);
    hide Ascending;
    if j < |files| - 1 {
      LaterTablesAreNewer(before, entries[..cut], i, j, e, x);
    } else {
      TablesHoldAll(before, entries[..cut]);
      assert before[i] in before && x in LevelEntries(before);
      assert e in TableEntries(last);
      AcrossCutAscends(entries, cut, x, e);
    }
  }

  lemma AcrossCutAscends(entries: seq<Entry>, cut: nat, x: Entry, e: Entry)
    requires Ascending(entries) && cut <= |entries| && x in entries[..cut] && e in entries[cut..]
    ensures x.sn < e.sn
  {
    var a :| 0 <= a < cut && entries[..cut][a] == x;
    var b :| 0 <= b < |entries[cut..]| && entries[cut..][b] == e;
    assert entries[a] == x && entries[cut + b] == e;
  }

  /** v' is v with some tables added to level 0. */
  ghost predicate ManyAdded(v: Version, files: seq<File>, v': Version) {
    && (forall l :: 1 <= l < NUM_LEVELS ==> v'[l] == v[l])
    && (forall f :: f in v'[0] <==> f in v[0] || f in files)
  }

  lemma EntriesWithMany(v: Version, files: seq<File>, v': Version)
    requires ManyAdded(v, files, v')
    ensures VersionEntries(v') == VersionEntries(v) + LevelEntries(files)
  {
    forall e
      ensures e in VersionEntries(v') <==> e in VersionEntries(v) + LevelEntries(files)
    {
      if e in VersionEntries(v') {
        var l: nat, g :| l < NUM_LEVELS && g in v'[l] && e in g.entries;
        assert g in files || g in v[l];
      }
      if e in VersionEntries(v) {
        var l: nat, g :| l < NUM_LEVELS && g in v[l] && e in g.entries;
        assert g in v'[l];
      }
      if e in LevelEntries(files) {
        var g :| g in files && e in g.entries;
        assert g in v'[0];
      }
    }
  }

  ghost predicate NewTables(v: Version, files: seq<File>) {
    && (forall i :: 0 <= i < |files| ==> FreshTable(v, files[i]))
    && (forall i, j :: 0 <= i < j < |files| ==> files[i].number < files[j].number && FileNewer(files[j], files[i]))
  }

  lemma ManyAddedByAge(v: Version, files: seq<File>, v': Version)
    requires TreeInv(v) && ManyAdded(v, files, v') && NewTables(v, files)
    ensures NumberedByAge(v'[0])
  {
    hide LevelsGood, DeepLevelsSorted, AgesDescend, GoodFile;
    forall g, h | g in v'[0] && h in v'[0] && g.number >= h.number
      ensures g == h || (g.number > h.number && FileNewer(g, h))
    {
      if g in files && h in files {
        var i :| 0 <= i < |files| && files[i] == g;
        var j :| 0 <= j < |files| && files[j] == h;
        assert i == j || j < i;
      } else if g in files {
        NewTableIsNewer(v, files, g, 0, h);
      } else {
        assert h in files ==> FreshTable(v, h);
      }
    }
  }

  lemma NewTableIsNewer(v: Version, files: seq<File>, g: File, l: nat, h: File)
    requires NewTables(v, files) && g in files && l < NUM_LEVELS && h in v[l]
    ensures FileNewer(g, h)
    ensures l == 0 ==> g.number > h.number
  {
    assert FreshTable(v, g);
    forall e, x | e in g.entries && x in h.entries && e.key == x.key
      ensures e.sn > x.sn
    {
      assert x in VersionEntries(v);
    }
  }

  lemma ManyAddedDescend(v: Version, files: seq<File>, v': Version)
    requires TreeInv(v) && ManyAdded(v, files, v') && NewTables(v, files)
    ensures AgesDescend(v')
  {
    hide LevelsGood, DeepLevelsSorted, NumberedByAge, FileNewer, NewTables, OnePerSequence;
    forall l, m, f, g | 0 <= l < m < NUM_LEVELS && f in v'[l] && g in v'[m]
      ensures FileNewer(f, g)
    {
      if f in v[l] {
        assert FileNewer(f, g);
      } else {
        NewTableIsNewer(v, files, f, m, g);
      }
    }
  }

  /** Adding replayed tables to level 0 keeps the tree invariant. */
  lemma ManyAddedKeepTree(v: Version, files: seq<File>, v': Version)
    requires TreeInv(v) && ManyAdded(v, files, v') && NewTables(v, files)
    requires OnePerSequence(VersionEntries(v) + LevelEntries(files))
    ensures TreeInv(v') && VersionEntries(v') == VersionEntries(v) + LevelEntries(files)
  {
    EntriesWithMany(v, files, v');
    ManyAddedByAge(v, files, v');
    ManyAddedDescend(v, files, v');
    assert forall f :: f in files ==> GoodFile(f);
    hide NumberedByAge, AgesDescend, OnePerSequence, GoodFile, LevelSorted;
  }

  // ---------------------------------------------------------------- the whole recovery

  /** WriteSnapshot: every table of the version. */
  function AllTables(v: Version): seq<(nat, File)> {
    AtLevel(0, v[0]) + AtLevel(1, v[1]) + AtLevel(2, v[2]) + AtLevel(3, v[3]) + AtLevel(4, v[4]) + AtLevel(5, v[5]) + AtLevel(6, v[6])
  }

  function SnapshotEdit(v: Version): Edit {
    Edit({}, AllTables(v), None, None, None)
  }

  lemma AllTablesMembers(v: Version, l: nat, f: File)
    ensures (l, f) in AllTables(v) <==> l < NUM_LEVELS && f in v[l]
  {
    AtLevelMembers(0, v[0], l, f);
    AtLevelMembers(1, v[1], l, f);
    AtLevelMembers(2, v[2], l, f);
    AtLevelMembers(3, v[3], l, f);
    AtLevelMembers(4, v[4], l, f);
    AtLevelMembers(5, v[5], l, f);
    AtLevelMembers(6, v[6], l, f);
  }

  /** The number counter Recover continues with: one past the number it gives the new manifest. */
  function RestartNumber(db: Db): nat
    requires db.manifest != [] && LastRecord(db).nextFile.Some?
  {
    LastRecord(db).nextFile.value + 1
  }

  function RecoveryEdit(files: seq<File>, newLog: nat, lastSequence: nat): Edit {
    Edit({}, AtLevel(0, files), Some(newLog), Some(newLog + 1), Some(lastSequence))
  }

  /** d is what opening the database after a crash of db may produce. The disk is all that db contributes. */
  ghost predicate Recovered(db: Db, files: seq<File>, d: Db) {
    && db.manifest != [] && LastRecord(db).nextFile.Some? && LastRecord(db).logNumber.Some? && LastRecord(db).lastSequence.Some?
    && exists order, vs ::
         && LogsToReplay(db.logs, LastRecord(db).logNumber.value, order)
         && History(EMPTY_VERSION, db.manifest, vs)
         && TablesHold(files, Concat(ReadLogs(db.logs, order)))
         && RecoveredFrom(db, order, vs[|db.manifest|], files, d)
  }

  ghost predicate RecoveredFrom(db: Db, order: seq<nat>, v: Version, files: seq<File>, d: Db)
    requires db.manifest != [] && LastRecord(db).nextFile.Some? && LastRecord(db).lastSequence.Some?
  {
    && (forall f :: f in files ==> GoodFile(f))
    && (forall i :: 0 <= i < |files| ==> RestartNumber(db) <= files[i].number < d.memLog)
    && (forall i, j :: 0 <= i < j < |files| ==> files[i].number < files[j].number)
    && RestartNumber(db) <= d.memLog && (forall n :: n in order ==> n < d.memLog)
    && d.nextFile == d.memLog + 1
    && d.lastSequence == MaxEnd(ReadLogs(db.logs, order), LastRecord(db).lastSequence.value)
    && d.snapshots == [] && d.mem == {} && d.imm == None && d.held == {} && d.pendingOutputs == {} && d.running == None
    && d.logNumber == d.memLog && d.logs == db.logs[d.memLog := []]
    && (forall f :: f in files ==> f.number in d.tables && d.tables[f.number] == f)
    && (forall n :: n in db.tables && n < RestartNumber(db) ==> n in d.tables && d.tables[n] == db.tables[n])
    && d.history == db.history
    && d.manifest == [SnapshotEdit(v), RecoveryEdit(files, d.memLog, d.lastSequence)]
    && EditResult(v, RecoveryEdit(files, d.memLog, d.lastSequence), d.version)
    && d.versions == [EMPTY_VERSION, v, d.version]
  }

  /** What recovery finds on disk is the version, the unflushed entries and the counter from before the crash. */
  lemma RecoveryFinds(db: Db, files: seq<File>, d: Db) returns (order: seq<nat>)
    requires Inv(db) && Recovered(db, files, d)
    ensures LogsToReplay(db.logs, db.logNumber, order) && ReadLogs(db.logs, order) == Live(db)
    ensures RecoveredFrom(db, order, db.version, files, d)
    ensures TablesHold(files, Concat(Live(db))) && d.lastSequence == db.lastSequence
  {
    hide TreeOk, AgesOk, HistoryOk, LogsOk, CounterOk, NumbersOk, TablesOk, NeverReused, TablesHold, LogsToReplay, EditResult;
    var o, vs :|
      && LogsToReplay(db.logs, LastRecord(db).logNumber.value, o)
      && History(EMPTY_VERSION, db.manifest, vs)
      && TablesHold(files, Concat(ReadLogs(db.logs, o)))
      && RecoveredFrom(db, o, vs[|db.manifest|], files, d);
    order := o;
    ReplaysLiveLogs(db, order);
    HistoryIsUnique(db.manifest, vs, db.versions, |db.manifest|);
    CounterIsRestored(db);
  }

  /** A recovered version's tables are all on disk, so recovery never stops for missing files. */
  lemma NoTableIsMissing(db: Db, l: nat, f: File)
    requires Inv(db) && l < NUM_LEVELS && f in db.version[l]
    ensures f.number in db.tables && db.tables[f.number] == f
  {
    assert LiveTable(db.version, db.held, f);
  }

  lemma SnapshotRebuilds(v: Version)
    requires AllOrdered(v)
    ensures EditResult(EMPTY_VERSION, SnapshotEdit(v), v) && GoodEdit(SnapshotEdit(v))
  {
    var edit := SnapshotEdit(v);
    forall l: nat, f
      ensures (l, f) in edit.added <==> l < NUM_LEVELS && f in v[l]
    {
      AllTablesMembers(v, l, f);
    }
    forall l: nat | l < NUM_LEVELS
      ensures EMPTY_VERSION[l] == []
    {
      EmptyLevel(l);
    }
    forall p | p in edit.added
      ensures p.0 < NUM_LEVELS
    {
      AllTablesMembers(v, p.0, p.1);
    }
    hide OrderedBySmallest;
  }

  lemma SnapshotNumbers(v: Version, m: nat, n: nat)
    ensures AddedBefore([SnapshotEdit(v)], m, n) ==> exists f :: m < NUM_LEVELS && f in v[m] && f.number == n
  {
    AddedByEither([], SnapshotEdit(v), m, n);
    assert [] + [SnapshotEdit(v)] == [SnapshotEdit(v)];
    if f :| (m, f) in SnapshotEdit(v).added && f.number == n {
      AllTablesMembers(v, m, f);
    }
  }

  lemma NothingAddedBefore(l: nat, n: nat)
    ensures !AddedBefore([], l, n)
  {
  }

  lemma SnapshotIsFresh(v: Version)
    requires NumbersUnique(v)
    ensures NeverReused(EMPTY_VERSION, [SnapshotEdit(v)])
  {
    hide SnapshotEdit, AddedBefore;
    var edit := SnapshotEdit(v);
    forall l: nat, f | (l, f) in edit.added
      ensures l < NUM_LEVELS && f in v[l] && EMPTY_VERSION[l] == [] && !AddedBefore([], l, f.number)
    {
      SnapshotMembers(v, l, f);
      EmptyLevel(l);
      NothingAddedBefore(l, f.number);
    }
    assert [edit][..0] == [];
    assert AddsUnused(EMPTY_VERSION, [], edit);
  }

  lemma SnapshotMembers(v: Version, l: nat, f: File)
    ensures (l, f) in SnapshotEdit(v).added <==> l < NUM_LEVELS && f in v[l]
  {
    AllTablesMembers(v, l, f);
  }

  lemma SnapshotIsReplayable(v: Version)
    requires TreeOk(v)
    ensures ManifestOk([SnapshotEdit(v)], [EMPTY_VERSION, v], v)
  {
    SnapshotRebuilds(v);
    SnapshotIsFresh(v);
    forall m: nat, n: nat
      ensures AddedBefore([SnapshotEdit(v)], m, n) ==> exists f :: m < NUM_LEVELS && f in v[m] && f.number == n
    {
      SnapshotNumbers(v, m, n);
    }
    hide TreeInv, AllOrdered, NeverReused, EditResult, AddedBefore, GoodEdit, SnapshotEdit;
  }

  /** Level-0 tables with numbers above all earlier ones fit any version. */
  lemma FitsByNumbers(v: Version, manifest: seq<Edit>, files: seq<File>, edit: Edit, bound: nat)
    requires edit.deleted == {} && edit.added == AtLevel(0, files)
    requires forall l: nat, g :: l < NUM_LEVELS && g in v[l] ==> g.number < bound
    requires forall m: nat, n: nat :: AddedBefore(manifest, m, n) ==> n < bound
    requires forall f :: f in files ==> f.number >= bound
    requires forall i, j :: 0 <= i < j < |files| ==> files[i].number < files[j].number
    ensures EditFits(v, manifest, edit)
  {
    hide AddedBefore;
    forall l: nat, f
      ensures (l, f) in edit.added <==> l == 0 && f in files
    {
      AtLevelMembers(0, files, l, f);
    }
    forall p | p in edit.added
      ensures p.0 < NUM_LEVELS
    {
      AtLevelMembers(0, files, p.0, p.1);
    }
    forall f, g | f in files && g in files
      ensures f.number == g.number ==> f == g
    {
      var i :| 0 <= i < |files| && files[i] == f;
      var j :| 0 <= j < |files| && files[j] == g;
      assert i == j || files[i].number != files[j].number;
    }
  }

  lemma RecoveryEditFits(db: Db, order: seq<nat>, files: seq<File>, d: Db)
    requires Inv(db) && RecoveredFrom(db, order, db.version, files, d)
    ensures EditFits(db.version, [SnapshotEdit(db.version)], RecoveryEdit(files, d.memLog, d.lastSequence))
  {
    hide AgesOk, HistoryOk, LogsOk, CounterOk, NumbersOk, TablesOk, ManifestOk, EditResult, AddedBefore, TreeOk, EditFits, SnapshotEdit;
    forall m: nat, n: nat | AddedBefore([SnapshotEdit(db.version)], m, n)
      ensures n < RestartNumber(db)
    {
      SnapshotNumbers(db.version, m, n);
    }
    forall f | f in files
      ensures f.number >= RestartNumber(db)
    {
      var i :| 0 <= i < |files| && files[i] == f;
    }
    FitsByNumbers(db.version, [SnapshotEdit(db.version)], files, RecoveryEdit(files, d.memLog, d.lastSequence), RestartNumber(db));
  }

  lemma RecoveredTablesAreNew(db: Db, order: seq<nat>, files: seq<File>, d: Db)
    requires Inv(db) && RecoveredFrom(db, order, db.version, files, d) && TablesHold(files, Concat(Live(db)))
    ensures NewTables(db.version, files) && LevelEntries(files) == Unflushed(db)
  {
    hide TreeOk, HistoryOk, CounterOk, NumbersOk, TablesOk, ManifestOk, EditResult, GoodFile, TablesHold, VersionEntries, OnePerSequence;
    TablesHoldAll(files, Concat(Live(db)));
    ConcatMembers(Live(db));
    LiveBatchesHoldUnflushed(db);
    ConcatAscends(Live(db));
    forall f, e | f in files && e in f.entries
      ensures e in Unflushed(db)
    {
      assert e in LevelEntries(files);
    }
    forall i, j, e, x | 0 <= i < j < |files| && x in files[i].entries && e in files[j].entries
      ensures e.sn > x.sn
    {
      LaterTablesAreNewer(files, Concat(Live(db)), i, j, e, x);
    }
    forall i | 0 <= i < |files|
      ensures FreshTable(db.version, files[i])
    {
      assert files[i] in files;
    }
  }

  lemma LiveBatchesHoldUnflushed(db: Db)
    requires Inv(db)
    ensures BatchEntries(Live(db)) == Unflushed(db)
  {
    var older, current := if db.imm.Some? then LogOf(db.logs, db.immLog) else [], LogOf(db.logs, db.memLog);
    BatchEntriesJoin(older, current);
  }

  lemma BatchEntriesJoin(a: seq<Batch>, b: seq<Batch>)
    ensures BatchEntries(a + b) == BatchEntries(a) + BatchEntries(b)
  {
    forall e
      ensures e in BatchEntries(a + b) <==> e in BatchEntries(a) + BatchEntries(b)
    {
      if e in BatchEntries(a) {
        var c :| c in a && e in c.entries;
        assert c in a + b;
      }
      if e in BatchEntries(b) {
        var c :| c in b && e in c.entries;
        assert c in a + b;
      }
    }
  }

  lemma RecoveredTree(db: Db, order: seq<nat>, files: seq<File>, d: Db)
    requires Inv(db) && RecoveredFrom(db, order, db.version, files, d) && TablesHold(files, Concat(Live(db)))
    ensures TreeOk(d.version)
    ensures VersionEntries(d.version) == Stored(db)
    ensures ManifestOk(d.manifest, d.versions, d.version)
  {
    hide TreeInv, HistoryOk, CounterOk, LogsOk, NumbersOk, TablesOk, ManifestOk, EditResult, TablesHold, VersionEntries, OnePerSequence,
         AllOrdered, NumbersUnique, EditFits, NewTables, GoodFile;
    var edit := RecoveryEdit(files, d.memLog, d.lastSequence);
    RecoveredTablesAreNew(db, order, files, d);
    RecoveredAdds(db, order, files, d);
    assert VersionEntries(db.version) + Unflushed(db) == Stored(db);
    ManyAddedKeepTree(db.version, files, d.version);
    SnapshotIsReplayable(db.version);
    RecoveryEditFits(db, order, files, d);
    RecordKeepsManifest([SnapshotEdit(db.version)], [EMPTY_VERSION, db.version], db.version, edit, d.version);
    assert [SnapshotEdit(db.version)] + [edit] == d.manifest;
    assert [EMPTY_VERSION, db.version] + [d.version] == d.versions;
  }

  lemma RecoveredAdds(db: Db, order: seq<nat>, files: seq<File>, d: Db)
    requires Inv(db) && RecoveredFrom(db, order, db.version, files, d)
    ensures ManyAdded(db.version, files, d.version)
  {
    hide TreeInv, HistoryOk, CounterOk, LogsOk, NumbersOk, TablesOk, ManifestOk, RecordOk, GoodFile;
    var edit := RecoveryEdit(files, d.memLog, d.lastSequence);
    forall l: nat, f
      ensures (l, f) in edit.added <==> l == 0 && f in files
    {
      AtLevelMembers(0, files, l, f);
    }
    forall l | 1 <= l < NUM_LEVELS
      ensures d.version[l] == db.version[l]
    {
      UntouchedLevel(db.version, edit, d.version, l);
    }
    hide OrderedBySmallest;
  }

  lemma RecoveredTablesThere(db: Db, order: seq<nat>, files: seq<File>, d: Db)
    requires Inv(db) && RecoveredFrom(db, order, db.version, files, d) && ManyAdded(db.version, files, d.version)
    ensures forall l: nat, f :: l < NUM_LEVELS && f in d.version[l] ==>
                             f.number < d.memLog && f.number in d.tables && d.tables[f.number] == f
  {
    hide HistoryOk, AgesOk, CounterOk, LogsOk, ManifestOk, EditResult, GoodFile, AddedBefore, TreeOk, RunningOk, NumbersOk;
    forall l: nat, f | l < NUM_LEVELS && f in d.version[l]
      ensures f.number < d.memLog && f.number in d.tables && d.tables[f.number] == f
    {
      if f in db.version[l] {
        NoTableIsMissing(db, l, f);
      }
    }
  }

  lemma RecoveredFiles(db: Db, order: seq<nat>, files: seq<File>, d: Db)
    requires Inv(db) && RecoveredFrom(db, order, db.version, files, d) && ManyAdded(db.version, files, d.version)
    ensures RecordOk(LastRecord(d), d.version, d.logNumber, d.nextFile, d.lastSequence)
    ensures NumbersOk(d.manifest, d.pendingOutputs, d.nextFile)
    ensures TablesOk(d.tables, d.version, d.held, d.pendingOutputs, d.nextFile)
  {
    hide HistoryOk, AgesOk, CounterOk, LogsOk, ManifestOk, EditResult, GoodFile, AddedBefore, TreeOk, RunningOk;
    RecoveredTablesThere(db, order, files, d);
    var snapshot, edit := SnapshotEdit(db.version), RecoveryEdit(files, d.memLog, d.lastSequence);
    forall l: nat, n: nat | AddedBefore(d.manifest, l, n)
      ensures n < d.nextFile
    {
      assert d.manifest == [snapshot] + [edit];
      AddedByEither([snapshot], edit, l, n);
      SnapshotNumbers(db.version, l, n);
      if !AddedBefore([snapshot], l, n) {
        var f :| (l, f) in edit.added && f.number == n;
        AtLevelMembers(0, files, l, f);
      }
    }
  }

  lemma RecoveredLogs(db: Db, order: seq<nat>, files: seq<File>, d: Db)
    requires Inv(db) && RecoveredFrom(db, order, db.version, files, d)
    requires LogsToReplay(db.logs, db.logNumber, order) && d.lastSequence == db.lastSequence
    ensures LogsOk(d.logs, d.mem, d.memLog, d.imm, d.immLog, d.logNumber)
    ensures CounterOk(LastRecord(d).lastSequence, Live(d), d.lastSequence)
  {
    hide HistoryOk, AgesOk, CounterOk, NumbersOk, ManifestOk, EditResult, GoodFile, TreeOk, TablesOk, RecordOk;
    assert Live(d) == [];
    assert db.memLog in order;
    FreshLogIsOnlyLive(db.logs, db.logNumber, order, d.memLog, d.immLog);
    LastHasCounter(d, files);
  }

  lemma FreshLogIsOnlyLive(logs: map<nat, seq<Batch>>, logNumber: nat, order: seq<nat>, newLog: nat, immLog: nat)
    requires LogsToReplay(logs, logNumber, order) && order != [] && forall n :: n in order ==> n < newLog
    ensures LogsOk(logs[newLog := []], {}, newLog, None, immLog, newLog)
  {
    assert order[0] in order;
    assert BatchEntries([]) == {};
  }

  lemma LastHasCounter(d: Db, files: seq<File>)
    requires |d.manifest| == 2 && d.manifest[1] == RecoveryEdit(files, d.memLog, d.lastSequence) && Live(d) == []
    ensures CounterOk(LastRecord(d).lastSequence, Live(d), d.lastSequence)
  {
  }

  /** A crash at any point, followed by recovery, keeps the invariant and exactly the stored entries. */
  lemma RecoveryKeepsInv(db: Db, files: seq<File>, d: Db)
    requires Inv(db) && Recovered(db, files, d)
    ensures Inv(d)
    ensures Stored(d) == Stored(db) && d.lastSequence == db.lastSequence && d.history == db.history
    ensures Faithful(db) ==> Faithful(d)
  {
    RecoveredKeepsParts(db, files, d);
    FloorBelowLast(db);
    hide Inv, Recovered, Stored, Floor;
    SameStoreStaysFaithful(db, d);
  }

  // ---------------------------------------------------------------- recovery started again

  /** What a crash in the middle of recovery leaves: perhaps tables that no record mentions, under numbers the manifest
      does not know of, and perhaps the new log, still empty. Memory is gone. */
  ghost predicate HalfRecovered(db: Db, d: Db) {
    && db.manifest != [] && LastRecord(db).nextFile.Some?
    && d == db.(snapshots := [], held := {}, pendingOutputs := {}, running := None, logs := d.logs, tables := d.tables)
    && (forall n :: n in db.tables && n < RestartNumber(db) ==> n in d.tables && d.tables[n] == db.tables[n])
    && (forall n :: n in db.logs ==> n in d.logs && d.logs[n] == db.logs[n])
    && (forall n :: n in d.logs && n !in db.logs ==> d.logs[n] == [])
  }

  lemma HalfRecoveryKeepsInv(db: Db, d: Db)
    requires Inv(db) && HalfRecovered(db, d)
    ensures Inv(d) && Stored(d) == Stored(db) && d.lastSequence == db.lastSequence && d.history == db.history
    ensures Faithful(db) ==> Faithful(d)
  {
    hide TreeOk, AgesOk, HistoryOk, LogsOk, TablesOk, CounterOk, ManifestOk, VersionEntries, AnswersAlike;
    FloorBelowLast(db);
    HalfRecoveredLogs(db, d);
    HalfRecoveredTables(db, d);
    SameStoreStaysFaithful(db, d);
  }

  lemma HalfRecoveredLogs(db: Db, d: Db)
    requires Inv(db) && HalfRecovered(db, d)
    ensures LogsOk(d.logs, d.mem, d.memLog, d.imm, d.immLog, d.logNumber) && Live(d) == Live(db)
  {
    hide TreeOk, AgesOk, HistoryOk, TablesOk, CounterOk, ManifestOk, RecordOk, NumbersOk, BatchesOk;
    assert Live(d) == Live(db);
  }

  lemma HalfRecoveredTables(db: Db, d: Db)
    requires Inv(db) && HalfRecovered(db, d)
    ensures TablesOk(d.tables, d.version, d.held, d.pendingOutputs, d.nextFile)
  {
    hide TreeOk, AgesOk, HistoryOk, LogsOk, CounterOk, ManifestOk, NumbersOk;
    forall f | LiveTable(d.version, d.held, f)
      ensures f.number in d.tables && d.tables[f.number] == f && f.number < d.nextFile
    {
      assert LiveTable(db.version, db.held, f);
    }
  }

  /** Recovery gets through in the end, having crashed halfway any number of times. */
  ghost predicate RecoveredAfter(db: Db, halfway: seq<Db>, files: seq<File>, d: Db)
    decreases |halfway|
  {
    if halfway == [] then Recovered(db, files, d)
    else HalfRecovered(db, halfway[0]) && RecoveredAfter(halfway[0], halfway[1..], files, d)
  }

  lemma {:induction false} NothingRunsAfter(db: Db, halfway: seq<Db>, files: seq<File>, d: Db)
    requires RecoveredAfter(db, halfway, files, d)
    ensures d.running == None
    decreases |halfway|
  {
    if halfway != [] {
      NothingRunsAfter(halfway[0], halfway[1..], files, d);
    }
  }

  /** However often recovery was begun, it gives the contents from before the first crash. */
  lemma {:induction false} RecoveryAgainKeepsInv(db: Db, halfway: seq<Db>, files: seq<File>, d: Db)
    requires Inv(db) && RecoveredAfter(db, halfway, files, d)
    ensures Inv(d)
    ensures Stored(d) == Stored(db) && d.lastSequence == db.lastSequence && d.history == db.history
    ensures Faithful(db) ==> Faithful(d)
    decreases |halfway|
  {
    hide Inv, Recovered, HalfRecovered, Stored, Faithful;
    if halfway == [] {
      RecoveryKeepsInv(db, files, d);
    } else {
      HalfRecoveryKeepsInv(db, halfway[0]);
      RecoveryAgainKeepsInv(halfway[0], halfway[1..], files, d);
    }
  }

  lemma RecoveredKeepsParts(db: Db, files: seq<File>, d: Db)
    requires Inv(db) && Recovered(db, files, d)
    ensures Inv(d)
    ensures Stored(d) == Stored(db) && d.lastSequence == db.lastSequence && d.history == db.history && Floor(d) == d.lastSequence
  {
    hide TreeOk, LogsOk, CounterOk, NumbersOk, TablesOk, ManifestOk, RecordOk, TablesHold, LogsToReplay, VersionEntries, AnswersAlike;
    var order := RecoveryFinds(db, files, d);
    RecoveredTree(db, order, files, d);
    RecoveredAdds(db, order, files, d);
    RecoveredFiles(db, order, files, d);
    RecoveredLogs(db, order, files, d);
    hide Recovered;
    assert Stored(d) == VersionEntries(d.version);
    assert AgesOk({}, {}, Stored(db), db.lastSequence) by { AgesCollapse(db); }
  }

  lemma AgesCollapse(db: Db)
    requires Inv(db)
    ensures AgesOk({}, {}, Stored(db), db.lastSequence)
  {
    hide TreeOk, LogsOk, CounterOk, NumbersOk, TablesOk, ManifestOk, RecordOk, VersionEntries;
    assert {} + {} + Stored(db) == Stored(db);
  }

  lemma FloorBelowLast(db: Db)
    requires Inv(db)
    ensures Floor(db) <= db.lastSequence
  {
    assert db.snapshots == [] || db.snapshots[0] in db.snapshots;
  }
}
