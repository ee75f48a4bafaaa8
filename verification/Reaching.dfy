/**
 Building runs step by step, for the runs that show what can go wrong.
 */
module Reaching {
  import opened InternalKeys
  import opened Versions
  import opened CompactionInputs
  import opened RunningCompaction
  import opened Database
  import opened WriteSteps
  import opened BackgroundSteps
  import opened Runs

  /** What the steps look at. */
  ghost predicate At(d: Db, last: nat, snapshots: seq<nat>, mem: set<Entry>, imm: Option<set<Entry>>, version: Version, next: nat,
                     running: Option<Job>) {
    && d.lastSequence == last && d.snapshots == snapshots && d.mem == mem && d.imm == imm && d.version == version
    && d.nextFile == next && d.running == running
  }

  ghost predicate Pending(d: Db, f: File) {
    f.number in d.pendingOutputs && f.number in d.tables && d.tables[f.number] == f
  }

  /** A run that has got to this state; a gapless one has no compaction whose inputs leave gaps. */
  ghost predicate RunTo(dbs: seq<Db>, steps: seq<Step>, d: Db, gapless: bool) {
    Runs.IsRun(dbs, steps) && dbs[|steps|] == d && (gapless ==> WithoutGaps(steps))
  }

  ghost predicate LeavesNoGap(step: Step) {
    step.StartCompaction? ==> Joined(step.c.inputs0 + step.c.inputs1)
  }

  lemma GoOn(gapless: bool, dbs: seq<Db>, steps: seq<Step>, db: Db, step: Step, d: Db)
    requires RunTo(dbs, steps, db, gapless) && Next(db, step, d) && (gapless ==> LeavesNoGap(step))
    ensures RunTo(dbs + [d], steps + [step], d, gapless)
  {
    hide Next, Joined;
    forall i | 0 <= i < |steps + [step]|
      ensures Next((dbs + [d])[i], (steps + [step])[i], (dbs + [d])[i + 1])
    {
    }
  }

  ghost predicate Reachable(d: Db, gapless: bool) {
    exists dbs, steps :: RunTo(dbs, steps, d, gapless)
  }

  lemma OneStepOn(gapless: bool, db: Db, step: Step, d: Db)
    requires Reachable(db, gapless) && Next(db, step, d) && (gapless ==> LeavesNoGap(step))
    ensures Reachable(d, gapless)
  {
    hide Next, RunTo, LeavesNoGap;
    var dbs, steps :| RunTo(dbs, steps, db, gapless);
    GoOn(gapless, dbs, steps, db, step, d);
  }

  lemma NewIsReachable(gapless: bool)
    ensures Reachable(NEW_DB, gapless)
  {
    assert RunTo([NEW_DB], [], NEW_DB, gapless);
  }

  // ---------------------------------------------------------------- one lemma for each kind of step

  lemma OnWrite(gapless: bool, db: Db, entries: seq<Entry>)
    requires Reachable(db, gapless) && Stamped(entries, db.lastSequence) && db.lastSequence + |entries| < MAX_SEQUENCE
    ensures Reachable(AfterWrite(db, entries), gapless)
  {
    hide Reachable;
    OneStepOn(gapless, db, Step.Write(entries), AfterWrite(db, entries));
  }

  lemma OnSwitch(gapless: bool, db: Db)
    requires Reachable(db, gapless) && db.imm.None?
    ensures Reachable(AfterSwitch(db), gapless)
  {
    hide Reachable;
    OneStepOn(gapless, db, Step.SwitchMemTable, AfterSwitch(db));
  }

  lemma OnGetSnapshot(gapless: bool, db: Db)
    requires Reachable(db, gapless)
    ensures Reachable(AfterGetSnapshot(db), gapless)
  {
    hide Reachable;
    OneStepOn(gapless, db, Step.GetSnapshot, AfterGetSnapshot(db));
  }

  lemma OnReleaseSnapshot(gapless: bool, db: Db, i: nat)
    requires Reachable(db, gapless) && i < |db.snapshots|
    ensures Reachable(AfterReleaseSnapshot(db, i), gapless)
  {
    hide Reachable;
    OneStepOn(gapless, db, Step.ReleaseSnapshot(i), AfterReleaseSnapshot(db, i));
  }

  lemma OnFlush(gapless: bool, db: Db, level: nat, f: Option<File>, v: Version)
    requires Reachable(db, gapless) && FlushedTo(db, level, f, v)
    ensures Reachable(AfterFlush(db, level, f, v), gapless)
  {
    hide Reachable, FlushedTo;
    OneStepOn(gapless, db, Step.Flush(level, f), AfterFlush(db, level, f, v));
  }

  lemma OnOpenOutput(gapless: bool, db: Db, f: File)
    requires Reachable(db, gapless) && f.number == db.nextFile
    ensures Reachable(AfterOpenOutput(db, f), gapless)
  {
    hide Reachable;
    OneStepOn(gapless, db, Step.OpenOutput(f), AfterOpenOutput(db, f));
  }

  lemma OnStart(gapless: bool, db: Db, c: Compaction)
    requires Reachable(db, gapless) && db.running.None? && WellChosen(db.version, c)
    requires gapless ==> Joined(c.inputs0 + c.inputs1)
    ensures Reachable(AfterStart(db, c), gapless)
  {
    hide Reachable, WellChosen, Joined;
    OneStepOn(gapless, db, Step.StartCompaction(c), AfterStart(db, c));
  }

  lemma OnFinish(gapless: bool, db: Db, input: seq<Entry>, outputs: seq<File>, v: Version)
    requires Reachable(db, gapless) && CompactedTo(db, input, outputs, v)
    ensures db.running.Some? && Reachable(AfterInstall(db, db.running.value.c, outputs, v), gapless)
    ensures Next(db, Step.FinishCompaction(input, outputs), AfterInstall(db, db.running.value.c, outputs, v))
  {
    hide Reachable, CompactedTo;
    JobIsThere(db, input, outputs, v);
    OneStepOn(gapless, db, Step.FinishCompaction(input, outputs), AfterInstall(db, db.running.value.c, outputs, v));
  }
}
