/**
 The database as a state machine (db/db_impl.cc, VersionSet::LogAndApply and
 VersionSet::Recover in db/version_set.cc): memtables, write-ahead logs, tables,
 manifest, snapshots, and a crash at any point.

 A step is one critical section of the source: a write group, a memtable switch, a flush,
 a trivial move, the start or the installation of a compaction, taking or dropping a
 snapshot or an iterator, deleting obsolete files, a crash followed by recovery. Appends
 to the log and to the manifest are taken as durable.
 */
module Database {
  import opened InternalKeys
  import opened Visibility
  import opened Versions
  import opened CompactionInputs
  import opened CompactionWork
  import opened VersionSteps
  import opened FlushAndMove
  import opened RunningCompaction
  import opened VersionEdits

  /** A logged write group: its entries carry the sequence numbers first, first + 1, ... */
  datatype Batch = Batch(first: nat, entries: seq<Entry>)

  datatype Db = Db(
    // in memory
    lastSequence: nat,
    snapshots: seq<nat>,
    mem: set<Entry>,
    memLog: nat,
    imm: Option<set<Entry>>,
    immLog: nat,
    version: Version,
    held: set<Version>,          // versions kept alive by iterators
    pendingOutputs: set<nat>,
    running: Option<Job>,        // the compaction being worked on
    nextFile: nat,
    logNumber: nat,
    // on disk
    logs: map<nat, seq<Batch>>,
    tables: map<nat, File>,
    manifest: seq<Edit>,
    // what the user did
    history: set<Entry>,
    // the versions the manifest goes through, the empty one first
    versions: seq<Version>)

  const EMPTY_VERSION: Version := [[], [], [], [], [], [], []]

  function ImmEntries(imm: Option<set<Entry>>): set<Entry> {
    if imm.Some? then imm.value else {}
  }

  /** What is not in tables yet. */
  function Unflushed(db: Db): set<Entry> {
    db.mem + ImmEntries(db.imm)
  }

  ghost function Stored(db: Db): set<Entry> {
    Unflushed(db) + VersionEntries(db.version)
  }

  /** The oldest sequence number a reader can still ask for. */
  function Floor(db: Db): nat {
    if db.snapshots == [] then db.lastSequence else db.snapshots[0]
  }

  /** The store answers every live snapshot as the history of all writes does. */
  ghost predicate Faithful(db: Db) {
    AnswersAlike(Stored(db), db.history, Floor(db))
  }

  ghost predicate AnswersAlike(a: set<Entry>, b: set<Entry>, floor: nat) {
    forall u, s :: floor <= s ==> Answer(a, u, s) == Answer(b, u, s)
  }

  // ---------------------------------------------------------------- the invariant

  ghost predicate NumbersUnique(v: Version) {
    forall l: nat, m: nat, f, g :: l < NUM_LEVELS && m < NUM_LEVELS && f in v[l] && g in v[m] && f.number == g.number ==>
                                     l == m && f == g
  }

  ghost predicate AllOrdered(v: Version) {
    forall l: nat :: l < NUM_LEVELS ==> OrderedBySmallest(v[l])
  }

  ghost predicate TreeOk(v: Version) {
    TreeInv(v) && AllOrdered(v) && NumbersUnique(v)
  }

  ghost predicate AgesOk(mem: set<Entry>, imm: set<Entry>, tables: set<Entry>, lastSequence: nat) {
    && AllNewer(mem, imm + tables)
    && AllNewer(imm, tables)
    && OnePerSequence(mem + imm + tables)
    && (forall e :: e in mem + imm + tables ==> e.sn <= lastSequence)
  }

  ghost predicate SnapshotsOk(snapshots: seq<nat>, lastSequence: nat) {
    && (forall i, j :: 0 <= i < j < |snapshots| ==> snapshots[i] <= snapshots[j])
    && (forall s :: s in snapshots ==> s <= lastSequence)
  }

  ghost predicate HistoryOk(history: set<Entry>, lastSequence: nat) {
    OnePerSequence(history) && forall e :: e in history ==> e.sn <= lastSequence
  }

  function BatchEntries(batches: seq<Batch>): set<Entry> {
    set b, e | b in batches && e in b.entries :: e
  }

  /** Every batch numbers its entries consecutively, and later batches carry later numbers. */
  ghost predicate BatchesOk(batches: seq<Batch>) {
    && (forall b, k :: b in batches && 0 <= k < |b.entries| ==> b.entries[k].sn == b.first + k)
    && (forall i, j :: 0 <= i < j < |batches| ==> batches[i].first + |batches[i].entries| <= batches[j].first)
  }

  function LogOf(logs: map<nat, seq<Batch>>, n: nat): seq<Batch> {
    if n in logs then logs[n] else []
  }

  /** The records recovery has to replay, oldest first. */
  function LiveBatches(logs: map<nat, seq<Batch>>, imm: Option<set<Entry>>, immLog: nat, memLog: nat): seq<Batch> {
    (if imm.Some? then LogOf(logs, immLog) else []) + LogOf(logs, memLog)
  }

  function Live(db: Db): seq<Batch> {
    LiveBatches(db.logs, db.imm, db.immLog, db.memLog)
  }

  ghost predicate LogsOk(logs: map<nat, seq<Batch>>, mem: set<Entry>, memLog: nat, imm: Option<set<Entry>>, immLog: nat,
                         logNumber: nat) {
    && memLog in logs && BatchEntries(logs[memLog]) == mem
    && (imm.Some? ==> immLog in logs && BatchEntries(logs[immLog]) == imm.value && immLog < memLog)
    && BatchesOk(LiveBatches(logs, imm, immLog, memLog))
    && logNumber <= (if imm.Some? then immLog else memLog)
    && (forall n :: n in logs && n >= logNumber ==> n == memLog || (imm.Some? && n == immLog) || logs[n] == [])
  }

  /** Replaying the manifest rebuilds the current version; no level was ever given a number twice,
      and tables only ever moved down. */
  ghost predicate ManifestOk(manifest: seq<Edit>, versions: seq<Version>, version: Version) {
    && History(EMPTY_VERSION, manifest, versions)
    && versions[|manifest|] == version
    && NeverReused(EMPTY_VERSION, manifest)
    && (forall edit :: edit in manifest ==> GoodEdit(edit))
    && (forall l: nat, m: nat, f :: l < NUM_LEVELS && f in version[l] && AddedBefore(manifest, m, f.number) ==> m <= l)
  }

  /** The last manifest record carries counters recovery can continue from. */
  ghost predicate RecordOk(record: Edit, version: Version, logNumber: nat, nextFile: nat, lastSequence: nat) {
    && record.logNumber == Some(logNumber)
    && record.nextFile.Some? && record.nextFile.value <= nextFile
    && (forall l: nat, f :: l < NUM_LEVELS && f in version[l] ==> f.number < record.nextFile.value)
    && record.lastSequence.Some? && record.lastSequence.value <= lastSequence
  }

  /** Numbers already given to tables are below the counter, and not those of pending outputs. */
  ghost predicate NumbersOk(manifest: seq<Edit>, pendingOutputs: set<nat>, nextFile: nat) {
    forall l: nat, n: nat :: AddedBefore(manifest, l, n) ==> n < nextFile && n !in pendingOutputs
  }

  function BatchEnd(b: Batch): int {
    b.first + |b.entries| - 1
  }

  /** The sequence counter is the recorded one or the end of some batch recovery will read. */
  ghost predicate CounterOk(recorded: Option<nat>, live: seq<Batch>, lastSequence: nat) {
    && (forall b :: b in live ==> BatchEnd(b) <= lastSequence)
    && (recorded == Some(lastSequence) || exists b :: b in live && BatchEnd(b) == lastSequence)
  }

  /** A table some live version needs. */
  ghost predicate LiveTable(version: Version, held: set<Version>, f: File) {
    exists v: Version, l: nat :: (v == version || v in held) && l < NUM_LEVELS && f in v[l]
  }

  ghost predicate TablesOk(tables: map<nat, File>, version: Version, held: set<Version>, pendingOutputs: set<nat>, nextFile: nat) {
    && (forall f :: LiveTable(version, held, f) ==> f.number in tables && tables[f.number] == f && f.number < nextFile)
    && (forall n :: n in pendingOutputs ==> n in tables && n < nextFile)
  }

  /** While a compaction runs its inputs stay where they are, whatever is flushed, and no snapshot older than its own
      appears. */
  ghost predicate RunningOk(running: Option<Job>, version: Version, floor: nat) {
    running.Some? ==> JobOk(running.value, version, floor)
  }

  function LastRecord(db: Db): Edit
    requires db.manifest != []
  {
    db.manifest[|db.manifest| - 1]
  }

  ghost predicate Inv(db: Db) {
    && TreeOk(db.version)
    && AgesOk(db.mem, ImmEntries(db.imm), VersionEntries(db.version), db.lastSequence)
    && SnapshotsOk(db.snapshots, db.lastSequence)
    && HistoryOk(db.history, db.lastSequence)
    && LogsOk(db.logs, db.mem, db.memLog, db.imm, db.immLog, db.logNumber)
    && db.memLog < db.nextFile
    && db.manifest != []
    && ManifestOk(db.manifest, db.versions, db.version)
    && RecordOk(LastRecord(db), db.version, db.logNumber, db.nextFile, db.lastSequence)
    && NumbersOk(db.manifest, db.pendingOutputs, db.nextFile)
    && CounterOk(LastRecord(db).lastSequence, Live(db), db.lastSequence)
    && TablesOk(db.tables, db.version, db.held, db.pendingOutputs, db.nextFile)
    && RunningOk(db.running, db.version, Floor(db))
    && db.lastSequence < MAX_SEQUENCE
  }
}
