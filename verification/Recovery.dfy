/**
 Opening a database after a crash (DB::Open, DBImpl::Recover and RecoverLogFile in
 db/db_impl.cc; VersionSet::Recover in db/version_set.cc).
 */
module Recovery {
  import opened InternalKeys
  import opened Visibility
  import opened Versions
  import opened VersionSteps
  import opened FlushAndMove
  import opened VersionEdits
  import opened Database
  import opened WriteSteps
  import opened BackgroundSteps
  import opened RecoverySteps
  import opened Engine

  // ---------------------------------------------------------------- manifest counters

  /** The last value there is. */
  ghost predicate IsLatest(values: seq<Option<nat>>, r: Option<nat>) {
    if r.None? then forall i :: 0 <= i < |values| ==> values[i].None?
    else exists i :: 0 <= i < |values| && values[i] == r && forall j :: i < j < |values| ==> values[j].None?
  }

  function LogNumbers(manifest: seq<Edit>): seq<Option<nat>> {
    seq(|manifest|, i requires 0 <= i < |manifest| => manifest[i].logNumber)
  }

  function NextFiles(manifest: seq<Edit>): seq<Option<nat>> {
    seq(|manifest|, i requires 0 <= i < |manifest| => manifest[i].nextFile)
  }

  function LastSequences(manifest: seq<Edit>): seq<Option<nat>> {
    seq(|manifest|, i requires 0 <= i < |manifest| => manifest[i].lastSequence)
  }

  lemma LatestGoesOn(values: seq<Option<nat>>, r: Option<nat>, next: Option<nat>)
    requires IsLatest(values, r)
    ensures IsLatest(values + [next], if next.Some? then next else r)
  {
    var more := values + [next];
    if next.Some? {
      assert more[|values|] == next;
    } else if r.Some? {
      var i :| 0 <= i < |values| && values[i] == r && forall j :: i < j < |values| ==> values[j].None?;
      assert more[i] == r;
    }
  }

  /** Every counter is taken from the last record that has it. */
  method ReadCounters(manifest: seq<Edit>) returns (logNumber: Option<nat>, nextFile: Option<nat>, lastSequence: Option<nat>)
    ensures IsLatest(LogNumbers(manifest), logNumber)
    ensures IsLatest(NextFiles(manifest), nextFile)
    ensures IsLatest(LastSequences(manifest), lastSequence)
  {
    hide IsLatest;
    logNumber, nextFile, lastSequence := None, None, None;
    NoneYet();
    for i := 0 to |manifest|
      invariant IsLatest(LogNumbers(manifest)[..i], logNumber)
      invariant IsLatest(NextFiles(manifest)[..i], nextFile)
      invariant IsLatest(LastSequences(manifest)[..i], lastSequence)
    {
      LatestGoesOn(LogNumbers(manifest)[..i], logNumber, manifest[i].logNumber);
      LatestGoesOn(NextFiles(manifest)[..i], nextFile, manifest[i].nextFile);
      LatestGoesOn(LastSequences(manifest)[..i], lastSequence, manifest[i].lastSequence);
      assert LogNumbers(manifest)[..i + 1] == LogNumbers(manifest)[..i] + [manifest[i].logNumber];
      assert NextFiles(manifest)[..i + 1] == NextFiles(manifest)[..i] + [manifest[i].nextFile];
      assert LastSequences(manifest)[..i + 1] == LastSequences(manifest)[..i] + [manifest[i].lastSequence];
      if manifest[i].logNumber.Some? {
        logNumber := manifest[i].logNumber;
      }
      if manifest[i].nextFile.Some? {
        nextFile := manifest[i].nextFile;
      }
      if manifest[i].lastSequence.Some? {
        lastSequence := manifest[i].lastSequence;
      }
    }
    assert LogNumbers(manifest)[..|manifest|] == LogNumbers(manifest);
    assert NextFiles(manifest)[..|manifest|] == NextFiles(manifest);
    assert LastSequences(manifest)[..|manifest|] == LastSequences(manifest);
  }

  lemma NoneYet()
    ensures IsLatest([], None)
  {
  }

  /** A record that has the counter and comes last decides it. */
  lemma LastRecordDecides(values: seq<Option<nat>>, r: Option<nat>)
    requires IsLatest(values, r) && values != [] && values[|values| - 1].Some?
    ensures r == values[|values| - 1]
  {
  }

  lemma CountersOfLastRecord(manifest: seq<Edit>, logNumber: Option<nat>, nextFile: Option<nat>, lastSequence: Option<nat>)
    requires IsLatest(LogNumbers(manifest), logNumber) && IsLatest(NextFiles(manifest), nextFile)
    requires IsLatest(LastSequences(manifest), lastSequence) && manifest != []
    ensures var last := manifest[|manifest| - 1];
            && (last.logNumber.Some? ==> logNumber == last.logNumber) && (last.nextFile.Some? ==> nextFile == last.nextFile)
            && (last.lastSequence.Some? ==> lastSequence == last.lastSequence)
  {
    hide IsLatest;
    var last := manifest[|manifest| - 1];
    if last.logNumber.Some? {
      LastRecordDecides(LogNumbers(manifest), logNumber);
    }
    if last.nextFile.Some? {
      LastRecordDecides(NextFiles(manifest), nextFile);
    }
    if last.lastSequence.Some? {
      LastRecordDecides(LastSequences(manifest), lastSequence);
    }
  }

  /** The order std::sort leaves the log numbers in. */
  method SortNumbers(numbers: set<nat>) returns (order: seq<nat>)
    ensures forall i, j :: 0 <= i < j < |order| ==> order[i] < order[j]
    ensures forall n :: n in order <==> n in numbers
  {
    order := [];
    var rest := numbers;
    while rest != {}
      invariant rest <= numbers
      invariant forall i, j :: 0 <= i < j < |order| ==> order[i] < order[j]
      invariant forall n :: n in order <==> n in numbers - rest
      invariant forall m, n :: m in order && n in rest ==> m < n
      decreases rest
    {
      ghost var least := LeastNumber(rest);
      var n :| n in rest && forall m :: m in rest ==> n <= m;
      forall i | 0 <= i < |order|
        ensures order[i] < n
      {
        assert order[i] in order;
      }
      assert forall m :: m in rest - {n} ==> n < m;
      order := order + [n];
      rest := rest - {n};
    }
  }

  lemma {:induction false} LeastNumber(numbers: set<nat>) returns (n: nat)
    requires numbers != {}
    ensures n in numbers && forall m :: m in numbers ==> n <= m
    decreases |numbers|
  {
    var x :| x in numbers;
    var rest := numbers - {x};
    if rest == {} {
      assert numbers == {x};
      n := x;
    } else {
      var y := LeastNumber(rest);
      n := if x <= y then x else y;
      assert forall m :: m in numbers ==> m == x || m in rest;
    }
  }

  // ---------------------------------------------------------------- RecoverLogFile

  /** Recovered tables so far: well formed, numbered upwards from first and below next. */
  ghost predicate TablesSoFar(files: seq<File>, first: nat, next: nat) {
    && (forall f :: f in files ==> GoodFile(f))
    && (forall i :: 0 <= i < |files| ==> first <= files[i].number < next)
    && (forall i, j :: 0 <= i < j < |files| ==> files[i].number < files[j].number)
    && first <= next
  }

  lemma ChunkIsUnique(chunk: seq<Entry>)
    requires Ascending(chunk)
    ensures OnePerSequence(EntrySet(chunk))
  {
    Runs.AscendingIsUnique(chunk);
  }

  /** WriteLevel0Table during recovery; an empty memtable uses up a number but makes no table. */
  method FlushChunk(files: seq<File>, ghost held: seq<Entry>, chunk: seq<Entry>, first: nat, next: nat, sizeOf: seq<Entry> -> nat)
    returns (files': seq<File>, next': nat)
    requires TablesSoFar(files, first, next) && TablesHold(files, held)
    requires Ascending(chunk) && forall e :: e in chunk ==> e.sn <= MAX_SEQUENCE
    ensures next' == next + 1 && TablesSoFar(files', first, next') && TablesHold(files', held + chunk)
  {
    hide TablesHold, Ascending, Sorted;
    next' := next + 1;
    if chunk == [] {
      assert held + chunk == held;
      return files, next';
    }
    ChunkIsUnique(chunk);
    var entries := MemTableEntries(EntrySet(chunk));
    assert chunk[0] in EntrySet(chunk);
    var f := File(next, sizeOf(entries), entries[0].IK(), entries[|entries| - 1].IK(), entries);
    forall e | e in entries
      ensures e.sn <= MAX_SEQUENCE
    {
      assert e in EntrySet(entries);
    }
    assert GoodFile(f);
    files' := files + [f];
    TablesHoldMore(files, held, f, chunk);
    NumberedNext(files, f, first, next);
  }

  lemma NumberedNext(files: seq<File>, f: File, first: nat, next: nat)
    requires TablesSoFar(files, first, next) && GoodFile(f) && f.number == next
    ensures TablesSoFar(files + [f], first, next + 1)
  {
    hide GoodFile;
  }

  lemma TablesHoldMore(files: seq<File>, held: seq<Entry>, f: File, chunk: seq<Entry>)
    requires TablesHold(files, held) && chunk != [] && EntrySet(f.entries) == EntrySet(chunk)
    ensures TablesHold(files + [f], held + chunk)
  {
    var all := held + chunk;
    assert (files + [f])[..|files|] == files && all[..|held|] == held && all[|held|..] == chunk;
    assert TableEntries(f) == EntrySet(f.entries);
  }

  lemma ConcatGrows(batches: seq<Batch>, k: nat)
    requires k < |batches|
    ensures Concat(batches[..k + 1]) == Concat(batches[..k]) + batches[k].entries
  {
    assert batches[..k + 1][..k] == batches[..k];
  }

  lemma MaxEndGrows(batches: seq<Batch>, k: nat, start: nat)
    requires k < |batches|
    ensures MaxEnd(batches[..k + 1], start) ==
            if BatchEnd(batches[k]) > MaxEnd(batches[..k], start) then BatchEnd(batches[k]) else MaxEnd(batches[..k], start)
  {
    assert batches[..k + 1][..k] == batches[..k];
  }

  lemma SubAscends(a: seq<Entry>, b: seq<Entry>, c: seq<Entry>)
    requires Ascending(a + b + c)
    ensures Ascending(b)
  {
    var all := a + b + c;
    forall i, j | 0 <= i < j < |b|
      ensures b[i].sn < b[j].sn
    {
      assert all[|a| + i] == b[i] && all[|a| + j] == b[j];
    }
  }

  /** The records a memtable is filled from: those behind the last place where one was written out. */
  ghost function Since(cuts: seq<nat>): nat {
    if cuts == [] then 0 else cuts[|cuts| - 1]
  }

  /** A memtable is full after these records and not before. */
  ghost predicate FillsUp(batches: seq<Batch>, from: nat, to: nat, full: seq<Entry> -> bool) {
    from < to <= |batches| && full(Concat(batches[from..to])) && StaysUnder(batches, from, to - 1, full)
  }

  ghost predicate StaysUnder(batches: seq<Batch>, from: nat, to: nat, full: seq<Entry> -> bool) {
    from <= to <= |batches| && forall k :: from < k <= to ==> !full(Concat(batches[from..k]))
  }

  /** Memtables are written out after these numbers of records. */
  ghost predicate CutWhenFull(batches: seq<Batch>, cuts: seq<nat>, full: seq<Entry> -> bool) {
    forall j :: 0 <= j < |cuts| ==> FillsUp(batches, Since(cuts[..j]), cuts[j], full)
  }

  lemma OneMoreCut(batches: seq<Batch>, cuts: seq<nat>, to: nat, full: seq<Entry> -> bool)
    requires CutWhenFull(batches, cuts, full) && FillsUp(batches, Since(cuts), to, full)
    ensures CutWhenFull(batches, cuts + [to], full) && Since(cuts + [to]) == to
  {
    hide FillsUp;
    var more := cuts + [to];
    forall j | 0 <= j < |more|
      ensures FillsUp(batches, Since(more[..j]), more[j], full)
    {
      assert more[..j] == if j < |cuts| then cuts[..j] else cuts;
    }
  }

  lemma StillUnder(batches: seq<Batch>, from: nat, k: nat, full: seq<Entry> -> bool)
    requires from <= k < |batches| && StaysUnder(batches, from, k, full)
    ensures if full(Concat(batches[from..k + 1])) then FillsUp(batches, from, k + 1, full)
            else StaysUnder(batches, from, k + 1, full)
  {
    hide Concat;
  }

  lemma MemGrows(batches: seq<Batch>, from: nat, k: nat)
    requires from <= k < |batches|
    ensures Concat(batches[from..k + 1]) == Concat(batches[from..k]) + batches[k].entries
  {
    assert batches[from..k + 1][..k - from] == batches[from..k];
  }

  lemma MemIsEmpty(batches: seq<Batch>, k: nat, full: seq<Entry> -> bool)
    requires k <= |batches|
    ensures Concat(batches[k..k]) == [] && StaysUnder(batches, k, k, full)
  {
  }

  /** There is a memtable once a record has come since the last one was written out. */
  ghost predicate Filled(batches: seq<Batch>, from: nat, k: nat, mem: Option<seq<Entry>>) {
    from <= k <= |batches| && mem == if from < k then Some(Concat(batches[from..k])) else None
  }

  function Contents(mem: Option<seq<Entry>>): seq<Entry> {
    if mem.Some? then mem.value else []
  }

  /** The first k records are in tables or in the memtable. */
  ghost predicate Applied(batches: seq<Batch>, k: nat, held: seq<Entry>, flushed: seq<Entry>, mem: Option<seq<Entry>>,
                          cuts: seq<nat>, full: seq<Entry> -> bool)
    requires k <= |batches|
  {
    && Filled(batches, Since(cuts), k, mem) && flushed + Contents(mem) == held + Concat(batches[..k])
    && CutWhenFull(batches, cuts, full) && StaysUnder(batches, Since(cuts), k, full)
  }

  lemma NothingApplied(batches: seq<Batch>, held: seq<Entry>, full: seq<Entry> -> bool)
    ensures Applied(batches, 0, held, held, None, [], full)
  {
    assert batches[..0] == [] && held + [] == held;
  }

  lemma AppliedNext(batches: seq<Batch>, k: nat, held: seq<Entry>, flushed: seq<Entry>, mem: Option<seq<Entry>>, cuts: seq<nat>,
                    full: seq<Entry> -> bool)
    requires k < |batches| && Applied(batches, k, held, flushed, mem, cuts, full)
    ensures var entries := Contents(mem) + batches[k].entries;
            && flushed + entries == held + Concat(batches[..k + 1])
            && if full(entries) then Applied(batches, k + 1, held, flushed + entries, None, cuts + [k + 1], full)
               else Applied(batches, k + 1, held, flushed, Some(entries), cuts, full)
  {
    hide Concat, CutWhenFull, FillsUp, StaysUnder;
    ConcatGrows(batches, k);
    MemIsEmpty(batches, k, full);
    MemGrows(batches, Since(cuts), k);
    StillUnder(batches, Since(cuts), k, full);
    var entries := Contents(mem) + batches[k].entries;
    assert flushed + entries == (flushed + Contents(mem)) + batches[k].entries;
    assert flushed + entries == held + Concat(batches[..k + 1]);
    if full(entries) {
      OneMoreCut(batches, cuts, k + 1, full);
      MemIsEmpty(batches, k + 1, full);
      assert flushed + entries + [] == flushed + entries;
    }
  }

  lemma AllApplied(batches: seq<Batch>, held: seq<Entry>, flushed: seq<Entry>, mem: Option<seq<Entry>>, cuts: seq<nat>,
                   full: seq<Entry> -> bool)
    requires Applied(batches, |batches|, held, flushed, mem, cuts, full)
    ensures flushed + Contents(mem) == held + Concat(batches)
    ensures WritesOut(batches, full, |cuts| + if mem.Some? then 1 else 0)
  {
    hide Concat, CutWhenFull, StaysUnder;
    assert batches[..|batches|] == batches;
  }

  /** A memtable is written out whenever it is full, and once more at the end of the log if there is one then. */
  ghost predicate WritesOut(batches: seq<Batch>, full: seq<Entry> -> bool, memtables: nat) {
    exists cuts ::
      && CutWhenFull(batches, cuts, full) && StaysUnder(batches, Since(cuts), |batches|, full)
      && memtables == |cuts| + if Since(cuts) < |batches| then 1 else 0
  }

  /** One record. */
  method ReplayRecord(batches: seq<Batch>, k: nat, files: seq<File>, ghost held: seq<Entry>, ghost all: seq<Entry>,
                      ghost flushed: seq<Entry>, ghost cuts: seq<nat>, mem: Option<seq<Entry>>, first: nat, next: nat,
                      full: seq<Entry> -> bool, sizeOf: seq<Entry> -> nat)
    returns (files': seq<File>, next': nat, mem': Option<seq<Entry>>, ghost flushed': seq<Entry>, ghost cuts': seq<nat>)
    requires k < |batches| && TablesSoFar(files, first, next) && TablesHold(files, flushed)
    requires Applied(batches, k, held, flushed, mem, cuts, full)
    requires Ascending(all) && held + Concat(batches) <= all && forall e :: e in all ==> e.sn <= MAX_SEQUENCE
    ensures TablesSoFar(files', first, next') && TablesHold(files', flushed')
    ensures Applied(batches, k + 1, held, flushed', mem', cuts', full)
    ensures next' + |cuts| == next + |cuts'|
  {
    hide TablesSoFar, TablesHold, Ascending, Applied, Concat;
    AppliedNext(batches, k, held, flushed, mem, cuts, full);
    var entries := Contents(mem) + batches[k].entries;
    if full(entries) {
      PrefixOfReplay(held, batches, k + 1, all);
      MemIsPart(flushed, entries, all);
      files', next' := FlushChunk(files, flushed, entries, first, next, sizeOf);
      mem', flushed', cuts' := None, flushed + entries, cuts + [k + 1];
    } else {
      files', next', mem', flushed', cuts' := files, next, Some(entries), flushed, cuts;
    }
  }

  /** RecoverLogFile: the records of one log, applied to memtables. Each memtable written out takes a file number. */
  method RecoverLogFile(batches: seq<Batch>, files: seq<File>, ghost held: seq<Entry>, ghost all: seq<Entry>, first: nat, next: nat,
                        maxSequence: nat, full: seq<Entry> -> bool, sizeOf: seq<Entry> -> nat)
    returns (files': seq<File>, next': nat, maxSequence': nat)
    requires TablesSoFar(files, first, next) && TablesHold(files, held)
    requires Ascending(all) && held + Concat(batches) <= all && forall e :: e in all ==> e.sn <= MAX_SEQUENCE
    ensures TablesSoFar(files', first, next') && TablesHold(files', held + Concat(batches))
    ensures maxSequence' == MaxEnd(batches, maxSequence)
    ensures next <= next' && WritesOut(batches, full, next' - next)
  {
    hide TablesSoFar, TablesHold, Ascending, MaxEnd, Applied, WritesOut, Concat;
    files', next', maxSequence' := files, next, maxSequence;
    var mem: Option<seq<Entry>> := None;
    ghost var flushed, cuts: seq<nat> := held, [];
    MaxEndOfNone(maxSequence);
    NothingApplied(batches, held, full);
    assert batches[..0] == [];
    for k := 0 to |batches|
      invariant Applied(batches, k, held, flushed, mem, cuts, full)
      invariant TablesSoFar(files', first, next') && next' == next + |cuts| && TablesHold(files', flushed)
      invariant maxSequence' == MaxEnd(batches[..k], maxSequence)
    {
      MaxEndGrows(batches, k, maxSequence);
      if BatchEnd(batches[k]) > maxSequence' {
        maxSequence' := BatchEnd(batches[k]);
      }
      files', next', mem, flushed, cuts :=
        ReplayRecord(batches, k, files', held, all, flushed, cuts, mem, first, next', full, sizeOf);
    }
    assert batches[..|batches|] == batches;
    AllApplied(batches, held, flushed, mem, cuts, full);
    if mem.Some? {
      MemIsPart(flushed, mem.value, all);
      files', next' := FlushChunk(files', flushed, mem.value, first, next', sizeOf);
    } else {
      assert flushed + [] == flushed;
    }
  }

  lemma MaxEndOfNone(start: nat)
    ensures MaxEnd([], start) == start
  {
  }

  lemma {:induction false} ConcatIsMonotone(batches: seq<Batch>, k: nat)
    requires k <= |batches|
    ensures Concat(batches[..k]) <= Concat(batches)
    decreases |batches| - k
  {
    if k < |batches| {
      ConcatGrows(batches, k);
      ConcatIsMonotone(batches, k + 1);
    } else {
      assert batches[..k] == batches;
    }
  }

  lemma PrefixOfReplay(held: seq<Entry>, batches: seq<Batch>, k: nat, all: seq<Entry>)
    requires k <= |batches| && held + Concat(batches) <= all
    ensures held + Concat(batches[..k]) <= all
  {
    ConcatIsMonotone(batches, k);
  }

  lemma MemIsPart(flushed: seq<Entry>, mem: seq<Entry>, all: seq<Entry>)
    requires flushed + mem <= all && Ascending(all) && forall e :: e in all ==> e.sn <= MAX_SEQUENCE
    ensures Ascending(mem) && forall e :: e in mem ==> e.sn <= MAX_SEQUENCE
  {
    var rest := all[|flushed + mem|..];
    assert all == flushed + mem + rest;
    SubAscends(flushed, mem, rest);
    forall e | e in mem
      ensures e in all
    {
      var i :| 0 <= i < |mem| && mem[i] == e;
      assert all[|flushed| + i] == e;
    }
  }

  // ---------------------------------------------------------------- DBImpl::Recover

  lemma FirstLog(logs: map<nat, seq<Batch>>, order: seq<nat>, i: nat)
    requires 0 < i <= |order|
    ensures ReadLogs(logs, order[..i]) == LogOf(logs, order[0]) + ReadLogs(logs, order[1..][..i - 1])
  {
    assert order[..i][1..] == order[1..][..i - 1];
  }

  lemma {:induction false} ReadLogsGrow(logs: map<nat, seq<Batch>>, order: seq<nat>, i: nat)
    requires i < |order|
    ensures ReadLogs(logs, order[..i + 1]) == ReadLogs(logs, order[..i]) + LogOf(logs, order[i])
    decreases i
  {
    hide LogOf;
    if i == 0 {
      assert order[..1] == [order[0]] && order[..0] == [];
      assert ReadLogs(logs, order[..1]) == LogOf(logs, order[0]) + ReadLogs(logs, []);
    } else {
      ReadLogsGrow(logs, order[1..], i - 1);
      FirstLog(logs, order, i);
      FirstLog(logs, order, i + 1);
      hide ReadLogs;
    }
  }

  lemma {:induction false} ConcatJoins(a: seq<Batch>, b: seq<Batch>)
    ensures Concat(a + b) == Concat(a) + Concat(b)
    decreases |b|
  {
    if b == [] {
      assert a + b == a && Concat(a) + [] == Concat(a);
    } else {
      var before := b[..|b| - 1];
      ConcatJoins(a, before);
      assert (a + b)[..|a + b| - 1] == a + before;
    }
  }

  lemma {:induction false} MaxEndJoins(a: seq<Batch>, b: seq<Batch>, start: nat)
    ensures MaxEnd(a + b, start) == MaxEnd(b, MaxEnd(a, start))
    decreases |b|
  {
    if b == [] {
      assert a + b == a;
    } else {
      var before := b[..|b| - 1];
      MaxEndJoins(a, before, start);
      assert (a + b)[..|a + b| - 1] == a + before;
    }
  }

  lemma {:induction false} MaxEndFrom(batches: seq<Batch>, start: nat)
    ensures MaxEnd(batches, start) == if start < MaxEnd(batches, 0) then MaxEnd(batches, 0) else start
    decreases |batches|
  {
    if batches != [] {
      MaxEndFrom(batches[..|batches| - 1], start);
    }
  }

  /** Where the replay stands after the first i logs. */
  ghost predicate ReplayedTo(logs: map<nat, seq<Batch>>, order: seq<nat>, i: nat, files: seq<File>, first: nat, next: nat, maxSequence: nat)
    requires i <= |order|
  {
    && TablesSoFar(files, first, next) && TablesHold(files, Concat(ReadLogs(logs, order[..i])))
    && maxSequence == MaxEnd(ReadLogs(logs, order[..i]), 0)
  }

  lemma NothingReplayed(logs: map<nat, seq<Batch>>, order: seq<nat>, first: nat)
    ensures ReplayedTo(logs, order, 0, [], first, first, 0)
  {
    assert order[..0] == [];
    assert ReadLogs(logs, []) == [] && Concat([]) == [];
  }

  lemma AllReplayed(logs: map<nat, seq<Batch>>, order: seq<nat>, files: seq<File>, first: nat, next: nat, maxSequence: nat)
    requires ReplayedTo(logs, order, |order|, files, first, next, maxSequence)
    ensures TablesSoFar(files, first, next) && TablesHold(files, Concat(ReadLogs(logs, order)))
    ensures maxSequence == MaxEnd(ReadLogs(logs, order), 0)
  {
    assert order[..|order|] == order;
  }

  /** One log, after which its number counts as used. */
  method RecoverNextLog(logs: map<nat, seq<Batch>>, order: seq<nat>, i: nat, files: seq<File>, first: nat, next: nat, maxSequence: nat,
                        full: seq<Entry> -> bool, sizeOf: seq<Entry> -> nat)
    returns (files': seq<File>, next': nat, maxSequence': nat)
    requires i < |order| && ReplayedTo(logs, order, i, files, first, next, maxSequence)
    requires Ascending(Concat(ReadLogs(logs, order))) && forall e :: e in Concat(ReadLogs(logs, order)) ==> e.sn <= MAX_SEQUENCE
    ensures ReplayedTo(logs, order, i + 1, files', first, next', maxSequence')
    ensures next <= next' && order[i] < next'
  {
    hide TablesSoFar, TablesHold, MaxEnd, Ascending, ReadLogs, Concat, WritesOut;
    ghost var read := ReadLogs(logs, order[..i]);
    ReadLogsGrow(logs, order, i);
    ReplayIsPrefix(logs, order, i + 1);
    ConcatJoins(read, LogOf(logs, order[i]));
    MaxEndJoins(read, LogOf(logs, order[i]), 0);
    files', next', maxSequence' :=
      RecoverLogFile(LogOf(logs, order[i]), files, Concat(read), Concat(ReadLogs(logs, order)), first, next, maxSequence, full, sizeOf);
    if next' <= order[i] {
      NumbersMayGrow(files', first, next', order[i] + 1);
      next' := order[i] + 1;
    }
  }

  /** Replays all logs in order. */
  method RecoverLogs(logs: map<nat, seq<Batch>>, order: seq<nat>, first: nat, full: seq<Entry> -> bool, sizeOf: seq<Entry> -> nat)
    returns (files: seq<File>, next: nat, maxSequence: nat)
    requires Ascending(Concat(ReadLogs(logs, order))) && forall e :: e in Concat(ReadLogs(logs, order)) ==> e.sn <= MAX_SEQUENCE
    ensures TablesSoFar(files, first, next) && TablesHold(files, Concat(ReadLogs(logs, order)))
    ensures forall n :: n in order ==> n < next
    ensures maxSequence == MaxEnd(ReadLogs(logs, order), 0)
  {
    hide ReplayedTo, TablesSoFar, TablesHold, MaxEnd, Ascending, ReadLogs, Concat;
    files, next, maxSequence := [], first, 0;
    NothingReplayed(logs, order, first);
    for i := 0 to |order|
      invariant ReplayedTo(logs, order, i, files, first, next, maxSequence)
      invariant forall k :: 0 <= k < i ==> order[k] < next
    {
      files, next, maxSequence := RecoverNextLog(logs, order, i, files, first, next, maxSequence, full, sizeOf);
    }
    AllReplayed(logs, order, files, first, next, maxSequence);
  }

  lemma NumbersMayGrow(files: seq<File>, first: nat, next: nat, next': nat)
    requires TablesSoFar(files, first, next) && next <= next'
    ensures TablesSoFar(files, first, next')
  {
  }

  lemma {:induction false} ReplayIsPrefix(logs: map<nat, seq<Batch>>, order: seq<nat>, i: nat)
    requires i <= |order|
    ensures Concat(ReadLogs(logs, order[..i])) <= Concat(ReadLogs(logs, order))
    decreases |order| - i
  {
    if i < |order| {
      ReadLogsGrow(logs, order, i);
      ConcatJoins(ReadLogs(logs, order[..i]), LogOf(logs, order[i]));
      ReplayIsPrefix(logs, order, i + 1);
    } else {
      assert order[..i] == order;
    }
  }

  // ---------------------------------------------------------------- DB::Open

  lemma DiskIsReadable(db: Db, order: seq<nat>)
    requires Inv(db) && LogsToReplay(db.logs, db.logNumber, order)
    ensures Ascending(Concat(ReadLogs(db.logs, order))) && forall e :: e in Concat(ReadLogs(db.logs, order)) ==> e.sn <= MAX_SEQUENCE
  {
    hide TreeOk, AgesOk, CounterOk, NumbersOk, TablesOk, ManifestOk, RecordOk;
    ReplaysLiveLogs(db, order);
    ConcatAscends(Live(db));
    ConcatMembers(Live(db));
    LiveBatchesHoldUnflushed(db);
    UnflushedIsBounded(db);
    forall e | e in Concat(Live(db))
      ensures e.sn <= MAX_SEQUENCE
    {
      assert e in EntrySet(Concat(Live(db)));
    }
  }

  lemma UnflushedIsBounded(db: Db)
    requires Inv(db)
    ensures forall e :: e in Unflushed(db) ==> e.sn <= MAX_SEQUENCE
  {
    hide TreeOk, LogsOk, CounterOk, NumbersOk, TablesOk, ManifestOk, RecordOk, VersionEntries;
  }

  lemma RecoveredEditIsFresh(db: Db, files: seq<File>, newLog: nat, lastSequence: nat)
    requires Inv(db) && TablesSoFar(files, RestartNumber(db), newLog)
    ensures AllOrdered(db.version) && GoodEdit(RecoveryEdit(files, newLog, lastSequence))
    ensures AddsUnused(db.version, [], RecoveryEdit(files, newLog, lastSequence))
  {
    hide TreeInv, AgesOk, LogsOk, CounterOk, NumbersOk, TablesOk, ManifestOk, AddedBefore;
    var edit := RecoveryEdit(files, newLog, lastSequence);
    forall l: nat, f
      ensures (l, f) in edit.added <==> l == 0 && f in files
      ensures !AddedBefore([], l, f.number)
    {
      AtLevelMembers(0, files, l, f);
      NothingAddedBefore(l, f.number);
    }
    forall p | p in edit.added
      ensures p.0 < NUM_LEVELS
    {
      AtLevelMembers(0, files, p.0, p.1);
    }
    forall f, g | f in files && g in files
      ensures f.number == g.number ==> f == g
    {
      var i :| 0 <= i < |files| && files[i] == f;
      var j :| 0 <= j < |files| && files[j] == g;
      assert i == j || files[i].number != files[j].number;
    }
    hide TablesSoFar;
    forall f | f in files
      ensures f.number >= RestartNumber(db)
    {
      NumberedFrom(files, RestartNumber(db), newLog, f);
    }
  }

  lemma NumberedFrom(files: seq<File>, first: nat, next: nat, f: File)
    requires TablesSoFar(files, first, next) && f in files
    ensures first <= f.number < next
  {
  }

  function WithTables(tables: map<nat, File>, files: seq<File>): map<nat, File> {
    if files == [] then tables else WithTables(tables, files[..|files| - 1])[files[|files| - 1].number := files[|files| - 1]]
  }

  lemma {:induction false} WithTablesHolds(tables: map<nat, File>, files: seq<File>, first: nat, next: nat)
    requires TablesSoFar(files, first, next)
    ensures forall f :: f in files ==> f.number in WithTables(tables, files) && WithTables(tables, files)[f.number] == f
    ensures forall n :: n in tables && n < first ==> n in WithTables(tables, files) && WithTables(tables, files)[n] == tables[n]
    decreases |files|
  {
    hide GoodFile;
    if files != [] {
      var before, last := files[..|files| - 1], files[|files| - 1];
      assert files == before + [last];
      WithTablesHolds(tables, before, first, next);
      forall f | f in before
        ensures f.number != last.number
      {
        var i :| 0 <= i < |before| && before[i] == f;
        assert files[i].number < files[|files| - 1].number;
      }
    }
  }

  /** Opening after a crash uses nothing but the disk, and finds every entry that was stored. The
      manifest's versions are passed only to say what its replay means. */
  method OpenAfterCrash(db: Db, full: seq<Entry> -> bool, sizeOf: seq<Entry> -> nat) returns (d: Db)
    requires Inv(db)
    ensures exists files :: Recovered(db, files, d)
    ensures Inv(d) && Stored(d) == Stored(db) && d.lastSequence == db.lastSequence
    ensures Faithful(db) ==> Faithful(d)
  {
    hide Inv, History, NeverReused, TablesHold, TablesSoFar, Ascending, ReadLogs, Concat, MaxEnd, EditResult, WithTables, RecoveredFrom,
         Recovered, Stored, Faithful, AddsUnused;
    ManifestFacts(db);
    var v := Replay(EMPTY_VERSION, db.manifest, db.versions);
    var logNumber, nextFile, lastSequence := ReadCounters(db.manifest);
    CountersOfLastRecord(db.manifest, logNumber, nextFile, lastSequence);
    var order := SortNumbers(set n | n in db.logs && n >= logNumber.value);
    DiskIsReadable(db, order);
    var files, next, maxSequence := RecoverLogs(db.logs, order, nextFile.value + 1, full, sizeOf);
    MaxEndFrom(ReadLogs(db.logs, order), lastSequence.value);
    var last := if lastSequence.value < maxSequence then maxSequence else lastSequence.value;
    var edit := RecoveryEdit(files, next, last);
    RecoveredEditIsFresh(db, files, next, last);
    var v' := ApplyEdit(v, edit);
    d := Db(last, [], {}, next, None, 0, v', {}, {}, None, next + 1, next,
            db.logs[next := []], WithTables(db.tables, files), [SnapshotEdit(v), edit], db.history, [EMPTY_VERSION, v, v']);
    OpenedFrom(db, order, files, d);
    OpenedIsRecovered(db, order, files, d);
    RecoveryKeepsInv(db, files, d);
  }

  lemma OpenedFrom(db: Db, order: seq<nat>, files: seq<File>, d: Db)
    requires db.manifest != [] && LastRecord(db).nextFile.Some? && LastRecord(db).lastSequence.Some?
    requires TablesSoFar(files, RestartNumber(db), d.memLog) && forall n :: n in order ==> n < d.memLog
    requires d.lastSequence == MaxEnd(ReadLogs(db.logs, order), LastRecord(db).lastSequence.value)
    requires EditResult(db.version, RecoveryEdit(files, d.memLog, d.lastSequence), d.version)
    requires d == Db(d.lastSequence, [], {}, d.memLog, None, 0, d.version, {}, {}, None, d.memLog + 1, d.memLog,
                     db.logs[d.memLog := []], WithTables(db.tables, files),
                     [SnapshotEdit(db.version), RecoveryEdit(files, d.memLog, d.lastSequence)], db.history,
                     [EMPTY_VERSION, db.version, d.version])
    ensures RecoveredFrom(db, order, db.version, files, d)
  {
    hide EditResult, GoodFile, MaxEnd, ReadLogs;
    WithTablesHolds(db.tables, files, RestartNumber(db), d.memLog);
  }

  lemma ManifestFacts(db: Db)
    requires Inv(db)
    ensures db.manifest != []
    ensures History(EMPTY_VERSION, db.manifest, db.versions) && db.versions[|db.manifest|] == db.version
    ensures NeverReused(EMPTY_VERSION, db.manifest) && forall edit :: edit in db.manifest ==> GoodEdit(edit)
    ensures forall l: nat :: l < NUM_LEVELS ==> OrderedBySmallest(EMPTY_VERSION[l])
    ensures LastRecord(db).logNumber == Some(db.logNumber) && LastRecord(db).nextFile.Some? && LastRecord(db).lastSequence.Some?
  {
    hide TreeOk, AgesOk, LogsOk, CounterOk, NumbersOk, TablesOk;
    forall l: nat | l < NUM_LEVELS
      ensures EMPTY_VERSION[l] == []
    {
      EmptyLevel(l);
    }
  }

  lemma OpenedIsRecovered(db: Db, order: seq<nat>, files: seq<File>, d: Db)
    requires Inv(db) && LogsToReplay(db.logs, db.logNumber, order)
    requires TablesHold(files, Concat(ReadLogs(db.logs, order)))
    requires RecoveredFrom(db, order, db.version, files, d)
    ensures Recovered(db, files, d)
  {
    hide TreeOk, AgesOk, LogsOk, CounterOk, NumbersOk, TablesOk, TablesHold, LogsToReplay, NeverReused, EditResult;
    assert History(EMPTY_VERSION, db.manifest, db.versions);
    assert db.version == db.versions[|db.manifest|];
  }
}
