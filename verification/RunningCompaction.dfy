/**
 A compaction and the flushes it lets in (DoCompactionWork in db/db_impl.cc, which calls
 CompactMemTable from its loop): between setting a compaction up and installing it, tables
 may be added to the version it was set up on.
 */
module RunningCompaction {
  import opened InternalKeys
  import opened Visibility
  import opened Versions
  import opened CompactionInputs
  import opened CompactionWork
  import opened VersionSteps
  import opened FlushAndMove

  /** CompactionState: the compaction, the version it was set up on and the oldest snapshot then. */
  datatype Job = Job(c: Compaction, start: Version, floor: nat)

  predicate Disjoint(f: File, g: File) {
    f.largest.key < g.smallest.key || g.largest.key < f.smallest.key
  }

  /** What a flush during the compaction adds: newer entries only, and below level 0 no overlap with an input it would
      have passed over. */
  ghost predicate FlushedInto(start: Version, c: Compaction, l: nat, f: File) {
    && (forall e, x :: e in f.entries && x in VersionEntries(start) && e.key == x.key ==> e.sn > x.sn)
    && (l > 0 ==> forall m: nat, g :: m <= l && IsInput(c, m, g) ==> Disjoint(f, g))
  }

  ghost predicate FlushedSince(start: Version, c: Compaction, now: Version) {
    && (forall l: nat, f :: l < NUM_LEVELS && f in start[l] ==> f in now[l])
    && (forall l: nat, f :: l < NUM_LEVELS && f in now[l] && f !in start[l] ==> FlushedInto(start, c, l, f))
  }

  ghost predicate JobOk(job: Job, now: Version, floor: nat) {
    && TreeInv(job.start) && OrderedBySmallest(job.start[0]) && WellChosen(job.start, job.c)
    && FlushedSince(job.start, job.c, now) && job.floor <= floor
  }

  /** The inputs are there to be replaced. */
  ghost predicate InputsHere(now: Version, c: Compaction) {
    && c.level + 1 < NUM_LEVELS
    && (forall f :: f in c.inputs0 ==> f in now[c.level]) && (forall f :: f in c.inputs1 ==> f in now[c.level + 1])
  }

  lemma InputsStay(start: Version, c: Compaction, now: Version)
    requires Compactable(start, c) && FlushedSince(start, c, now)
    ensures InputsHere(now, c)
  {
    hide Compactable;
    ChosenLevel(start, c);
    InputsInLevels(start, c);
  }

  // ---------------------------------------------------------------- the tree

  /** An output overlaps a table that was flushed to its level meanwhile. */
  ghost predicate Clash(start: Version, now: Version, c: Compaction, outputs: seq<File>)
    requires c.level + 1 < NUM_LEVELS
  {
    exists o, r :: o in outputs && r in now[c.level + 1] && r !in start[c.level + 1] && !Apart(o, r)
  }

  /** What installing goes by: outputs made of the inputs take their places in the version there is by then. */
  ghost predicate Installs(start: Version, c: Compaction, now: Version, outputs: seq<File>, v': Version) {
    && TreeInv(start) && Compactable(start, c) && FlushedSince(start, c, now) && TreeInv(now)
    && GoodOutputs(c, outputs) && Replaced(now, c, outputs, v')
  }

  lemma OutputKeyIsCovered(start: Version, c: Compaction, outputs: seq<File>, o: File, x: Entry) returns (m: nat, h: File)
    requires TreeInv(start) && Compactable(start, c) && GoodOutputs(c, outputs) && o in outputs && x in o.entries
    ensures m < NUM_LEVELS && h in start[m] && IsInput(c, m, h) && x in h.entries && CoversKey(h, x.key)
    ensures x in VersionEntries(start) && c.level <= m <= c.level + 1
  {
    hide TreeInv, Compactable;
    m, h := InputHome(start, c, x);
    EntryCovered(start, m, h, x);
  }

  lemma OutputAndFlushed(start: Version, c: Compaction, outputs: seq<File>, o: File, l: nat, r: File, x: Entry, e: Entry)
    requires TreeInv(start) && Compactable(start, c) && GoodOutputs(c, outputs) && o in outputs && x in o.entries
    requires GoodFile(r) && FlushedInto(start, c, l, r) && e in r.entries && e.key == x.key
    ensures e.sn > x.sn && l <= c.level
  {
    hide TreeInv, Compactable, GoodFile, GoodOutputs;
    var m, h := OutputKeyIsCovered(start, c, outputs, o, x);
    if l > c.level {
      WithinBounds(r, e);
      assert false;
    }
  }

  lemma AgesAfterInstall(start: Version, c: Compaction, now: Version, outputs: seq<File>, v': Version, l: nat, m: nat, f: File, g: File)
    requires Installs(start, c, now, outputs, v') && l < m < NUM_LEVELS && f in v'[l] && g in v'[m]
    ensures FileNewer(f, g)
  {
    hide Compactable, OrderedBySmallest, GoodOutputs, FlushedInto, LevelsGood, NumberedByAge, DeepLevelsSorted;
    ChosenLevel(start, c);
    if g in outputs && m == c.level + 1 {
      assert f in now[l] && !IsInput(c, l, f);
      OlderOutput(start, c, now, outputs, l, f, g);
    } else if f in outputs && l == c.level + 1 {
      assert g in now[m];
      NewerOutput(start, c, now, outputs, f, m, g);
    } else {
      assert f in now[l] && g in now[m];
    }
  }

  /** What lies above an output is newer than it. */
  lemma OlderOutput(start: Version, c: Compaction, now: Version, outputs: seq<File>, l: nat, f: File, o: File)
    requires TreeInv(start) && Compactable(start, c) && FlushedSince(start, c, now) && TreeInv(now) && GoodOutputs(c, outputs)
    requires l <= c.level && c.level + 1 < NUM_LEVELS && f in now[l] && !IsInput(c, l, f) && o in outputs
    ensures FileNewer(f, o)
  {
    hide TreeInv, Compactable, GoodOutputs, FlushedInto, GoodFile;
    LevelFacts(now, l);
    forall e, x | e in f.entries && x in o.entries && e.key == x.key
      ensures e.sn > x.sn
    {
      if f in start[l] {
        var m, h := OutputKeyIsCovered(start, c, outputs, o, x);
        OutsideAboveIsNewer(start, c, l, f, m, h);
      } else {
        OutputAndFlushed(start, c, outputs, o, l, f, x, e);
      }
    }
  }

  /** And an output is newer than what lies below it. */
  lemma NewerOutput(start: Version, c: Compaction, now: Version, outputs: seq<File>, o: File, m: nat, g: File)
    requires TreeInv(start) && Compactable(start, c) && FlushedSince(start, c, now) && TreeInv(now) && GoodOutputs(c, outputs)
    requires c.level + 1 < m < NUM_LEVELS && o in outputs && g in now[m]
    ensures FileNewer(o, g)
  {
    hide TreeInv, Compactable, GoodOutputs, FlushedInto, GoodFile;
    LevelFacts(now, m);
    forall x, e | x in o.entries && e in g.entries && x.key == e.key
      ensures x.sn > e.sn
    {
      if g in start[m] {
        var n, h := OutputKeyIsCovered(start, c, outputs, o, x);
        DeeperIsOlder(start, n, h, m, g);
      } else {
        OutputAndFlushed(start, c, outputs, o, m, g, x, e);
        assert false;
      }
    }
  }

  lemma DeeperIsOlder(v: Version, n: nat, h: File, m: nat, g: File)
    requires TreeInv(v) && n < m < NUM_LEVELS && h in v[n] && g in v[m]
    ensures FileNewer(h, g)
  {
  }

  lemma OutputLevelAfterInstall(start: Version, c: Compaction, now: Version, outputs: seq<File>, v': Version)
    requires Installs(start, c, now, outputs, v') && c.level + 1 < NUM_LEVELS && !Clash(start, now, c, outputs)
    ensures GoodFiles(v'[c.level + 1]) && LevelSorted(v'[c.level + 1])
  {
    hide Compactable, OrderedBySmallest, FlushedInto, Apart, TreeInv, GoodFile;
    LevelFacts(now, c.level + 1);
    forall f, g | f in v'[c.level + 1] && g in v'[c.level + 1] && f != g
      ensures Apart(f, g)
    {
      if f in outputs && g in outputs {
        SortedFilesApart(outputs, f, g);
      } else if f in outputs {
        ApartFromOthers(start, c, now, outputs, f, g);
      } else if g in outputs {
        ApartFromOthers(start, c, now, outputs, g, f);
        ApartIsSymmetric(f, g);
      } else {
        SortedFilesApart(now[c.level + 1], f, g);
      }
    }
    OrderedAndApart(v'[c.level + 1]);
  }

  lemma ApartIsSymmetric(f: File, g: File)
    ensures Apart(f, g) <==> Apart(g, f)
  {
  }

  lemma ApartFromOthers(start: Version, c: Compaction, now: Version, outputs: seq<File>, o: File, r: File)
    requires TreeInv(start) && Compactable(start, c) && GoodOutputs(c, outputs) && c.level + 1 < NUM_LEVELS
    requires o in outputs && r in now[c.level + 1] && r !in c.inputs1 && !Clash(start, now, c, outputs)
    ensures Apart(o, r)
  {
    hide TreeInv, Compactable, GoodOutputs;
    if r in start[c.level + 1] {
      OutputApartFromRest(start, c, outputs, o, r);
    }
  }

  lemma UpperLevelAfterInstall(start: Version, c: Compaction, now: Version, outputs: seq<File>, v': Version)
    requires Installs(start, c, now, outputs, v') && c.level + 1 < NUM_LEVELS
    ensures GoodFiles(v'[c.level]) && (c.level > 0 ==> LevelSorted(v'[c.level])) && NumberedByAge(v'[0])
  {
    hide Compactable, OrderedBySmallest, FlushedSince, Apart, AgesDescend, GoodFile, FileNewer, GoodOutputs;
    LevelFacts(now, c.level);
    if c.level > 0 {
      forall f, g | f in v'[c.level] && g in v'[c.level] && f != g
        ensures Apart(f, g)
      {
        SortedFilesApart(now[c.level], f, g);
      }
      OrderedAndApart(v'[c.level]);
    }
  }

  lemma OtherLevelsAfterInstall(start: Version, c: Compaction, now: Version, outputs: seq<File>, v': Version)
    requires Installs(start, c, now, outputs, v') && c.level + 1 < NUM_LEVELS && !Clash(start, now, c, outputs)
    ensures LevelsGood(v') && DeepLevelsSorted(v') && NumberedByAge(v'[0])
  {
    OutputLevelAfterInstall(start, c, now, outputs, v');
    UpperLevelAfterInstall(start, c, now, outputs, v');
    hide Compactable, OrderedBySmallest, FlushedSince, AgesDescend, GoodFile, LevelSorted, NumberedByAge, GoodOutputs, Clash;
    forall l | 0 <= l < NUM_LEVELS && l != c.level && l != c.level + 1
      ensures v'[l] == now[l]
    {
    }
  }

  /** What has been added since, and what the loop made of the inputs, is all there is. */
  lemma EntriesAfterInstall(start: Version, c: Compaction, now: Version, outputs: seq<File>, v': Version, e: Entry)
    requires Installs(start, c, now, outputs, v')
    ensures e in VersionEntries(v') <==>
            e in LevelEntries(outputs) || (e in VersionEntries(now) && (e !in VersionEntries(start) || e !in InputEntries(c)))
  {
    hide TreeInv, Compactable, OrderedBySmallest, GoodOutputs;
    ChosenLevel(start, c);
    InputsStay(start, c, now);
    if e in VersionEntries(v') {
      var l: nat, f :| l < NUM_LEVELS && f in v'[l] && e in f.entries;
      if !(l == c.level + 1 && f in outputs) {
        assert f in now[l] && !IsInput(c, l, f);
        StaysOut(start, c, now, l, f, e);
      }
    }
    if e in LevelEntries(outputs) {
      var f :| f in outputs && e in f.entries;
      assert f in v'[c.level + 1];
    }
    if e in VersionEntries(now) && (e !in VersionEntries(start) || e !in InputEntries(c)) {
      var l: nat, f :| l < NUM_LEVELS && f in now[l] && e in f.entries;
      NotAnInput(start, c, l, f, e);
      assert f in v'[l];
    }
  }

  lemma StaysOut(start: Version, c: Compaction, now: Version, l: nat, f: File, e: Entry)
    requires TreeInv(start) && Compactable(start, c) && FlushedSince(start, c, now)
    requires l < NUM_LEVELS && f in now[l] && !IsInput(c, l, f) && e in f.entries
    ensures e in VersionEntries(now) && (e !in VersionEntries(start) || e !in InputEntries(c))
  {
    hide TreeInv, Compactable;
    if f in start[l] {
      InputByHome(start, c, l, f, e);
    } else {
      assert FlushedInto(start, c, l, f);
    }
  }

  lemma NotAnInput(start: Version, c: Compaction, l: nat, f: File, e: Entry)
    requires Compactable(start, c) && e in f.entries && (e !in VersionEntries(start) || e !in InputEntries(c))
    ensures !IsInput(c, l, f)
  {
    hide Compactable;
    if IsInput(c, l, f) {
      assert e in LevelEntries(c.inputs0) || e in LevelEntries(c.inputs1);
      InputsAreEntries(start, c, e);
    }
  }

  lemma NothingNewInstalled(start: Version, c: Compaction, now: Version, outputs: seq<File>, v': Version)
    requires Installs(start, c, now, outputs, v')
    ensures VersionEntries(v') <= VersionEntries(now) && VersionEntries(start) <= VersionEntries(now)
  {
    StartIsThere(start, c, now);
    hide TreeInv, Compactable, VersionEntries, Replaced, FlushedSince;
    forall e | e in VersionEntries(v')
      ensures e in VersionEntries(now)
    {
      EntriesAfterInstall(start, c, now, outputs, v', e);
      if e in LevelEntries(outputs) {
        InputsAreEntries(start, c, e);
      }
    }
  }

  lemma StartIsThere(start: Version, c: Compaction, now: Version)
    requires FlushedSince(start, c, now)
    ensures VersionEntries(start) <= VersionEntries(now)
  {
    forall e | e in VersionEntries(start)
      ensures e in VersionEntries(now)
    {
      var l: nat, f :| l < NUM_LEVELS && f in start[l] && e in f.entries;
      assert f in now[l];
    }
  }

  lemma NoClashKeepsTree(start: Version, c: Compaction, now: Version, outputs: seq<File>, v': Version)
    requires Installs(start, c, now, outputs, v') && c.level + 1 < NUM_LEVELS && !Clash(start, now, c, outputs)
    ensures TreeInv(v')
  {
    OtherLevelsAfterInstall(start, c, now, outputs, v');
    NothingNewInstalled(start, c, now, outputs, v');
    hide Installs, LevelsGood, DeepLevelsSorted, NumberedByAge, Clash, VersionEntries, FileNewer;
    forall l, m, f, g | 0 <= l < m < NUM_LEVELS && f in v'[l] && g in v'[m]
      ensures FileNewer(f, g)
    {
      AgesAfterInstall(start, c, now, outputs, v', l, m, f, g);
    }
    assert OnePerSequence(VersionEntries(now)) by { InstallsOnTree(start, c, now, outputs, v'); }
  }

  lemma InstallsOnTree(start: Version, c: Compaction, now: Version, outputs: seq<File>, v': Version)
    requires Installs(start, c, now, outputs, v')
    ensures OnePerSequence(VersionEntries(now)) && TreeInv(start) && Compactable(start, c)
  {
    hide Compactable, VersionEntries;
  }

  lemma ClashBreaksTree(start: Version, c: Compaction, now: Version, outputs: seq<File>, v': Version)
    requires Installs(start, c, now, outputs, v') && c.level + 1 < NUM_LEVELS && Clash(start, now, c, outputs)
    ensures !LevelSorted(v'[c.level + 1])
  {
    hide Compactable, OrderedBySmallest, TreeInv, FlushedInto;
    var o, r :| o in outputs && r in now[c.level + 1] && r !in start[c.level + 1] && !Apart(o, r);
    InputsStay(start, c, now);
    InputsInLevels(start, c);
    assert r !in c.inputs1;
    assert r in v'[c.level + 1] && o in v'[c.level + 1];
    if o == r {
      assert GoodFile(o);
      OutputAndFlushed(start, c, outputs, o, c.level + 1, r, o.entries[0], o.entries[0]);
      assert false;
    }
    if LevelSorted(v'[c.level + 1]) {
      SortedFilesApart(v'[c.level + 1], o, r);
    }
  }

  /** Installing keeps the tree invariant if and only if no output overlaps a table flushed to its level meanwhile. */
  lemma InstallKeepsTreeIff(start: Version, c: Compaction, now: Version, outputs: seq<File>, v': Version)
    requires Installs(start, c, now, outputs, v')
    ensures c.level + 1 < NUM_LEVELS
    ensures TreeInv(v') <==> !Clash(start, now, c, outputs)
  {
    hide Installs, Clash, Compactable;
    InstallsOnTree(start, c, now, outputs, v');
    ChosenLevel(start, c);
    if Clash(start, now, c, outputs) {
      ClashBreaksTree(start, c, now, outputs, v');
    } else {
      NoClashKeepsTree(start, c, now, outputs, v');
    }
  }

  /** Inputs without gaps leave no room for a table between them, so there is nothing an output could run into. */
  lemma JoinedNeverClashes(start: Version, c: Compaction, now: Version, outputs: seq<File>)
    requires TreeInv(start) && Compactable(start, c) && FlushedSince(start, c, now) && TreeInv(now) && GoodOutputs(c, outputs)
    requires Joined(c.inputs0 + c.inputs1)
    ensures c.level + 1 < NUM_LEVELS && !Clash(start, now, c, outputs)
  {
    hide TreeInv, Compactable, Joined, FlushedInto, GoodOutputs;
    ChosenLevel(start, c);
    LevelFacts(now, c.level + 1);
    forall o, r | o in outputs && r in now[c.level + 1] && r !in start[c.level + 1]
      ensures Apart(o, r)
    {
      FlushedBeside(start, c, outputs, o, r);
    }
  }

  lemma FlushedBeside(start: Version, c: Compaction, outputs: seq<File>, o: File, r: File)
    requires TreeInv(start) && Compactable(start, c) && GoodOutputs(c, outputs) && Joined(c.inputs0 + c.inputs1)
    requires o in outputs && GoodFile(r) && FlushedInto(start, c, c.level + 1, r)
    ensures Apart(o, r)
  {
    hide TreeInv, Compactable, Joined, GoodOutputs;
    var first, last := OutputEnds(c, outputs, o);
    var m, h := OutputKeyIsCovered(start, c, outputs, o, first);
    var n, k := OutputKeyIsCovered(start, c, outputs, o, last);
    BoundsOrdered(r);
    assert Disjoint(r, h) && Disjoint(r, k);
    if !Apart(o, r) {
      var l, g := BetweenIsInput(c, m, h, n, k, r.smallest.key);
      assert false;
    }
  }

  lemma BetweenIsInput(c: Compaction, m: nat, h: File, n: nat, k: File, u: UserKey) returns (l: nat, g: File)
    requires Joined(c.inputs0 + c.inputs1) && IsInput(c, m, h) && IsInput(c, n, k)
    requires h.smallest.key <= u <= k.largest.key
    ensures l <= c.level + 1 && IsInput(c, l, g) && CoversKey(g, u)
  {
    hide Joined;
    JoinedAt(c.inputs0 + c.inputs1, h, k, u);
    g :| g in c.inputs0 + c.inputs1 && CoversKey(g, u);
    l := if g in c.inputs0 then c.level else c.level + 1;
  }

  lemma OutputEnds(c: Compaction, outputs: seq<File>, o: File) returns (first: Entry, last: Entry)
    requires GoodOutputs(c, outputs) && o in outputs
    ensures first in o.entries && last in o.entries && o.smallest == first.IK() && o.largest == last.IK()
  {
    assert GoodFile(o);
    first, last := o.entries[0], o.entries[|o.entries| - 1];
  }

  // ---------------------------------------------------------------- reads

  /** All that is not in the version the compaction was set up on. */
  ghost function NewerThan(all: set<Entry>, start: Version): set<Entry> {
    all - VersionEntries(start)
  }

  lemma FlushedIsNewer(start: Version, c: Compaction, now: Version, e: Entry, x: Entry)
    requires FlushedSince(start, c, now) && e in VersionEntries(now) && e !in VersionEntries(start)
    requires x in VersionEntries(start) && e.key == x.key
    ensures e.sn > x.sn
  {
    var l: nat, f :| l < NUM_LEVELS && f in now[l] && e in f.entries;
    assert FlushedInto(start, c, l, f);
  }

  /** To the compaction, what was flushed meanwhile is as if it had not reached the tables yet. */
  lemma InstallGivesCompactedStore(start: Version, c: Compaction, now: Version, newer: set<Entry>, oldest: nat, input: seq<Entry>,
                                   outputs: seq<File>, v': Version)
    requires Installs(start, c, now, outputs, v')
    requires AllNewer(newer, VersionEntries(now)) && OnePerSequence(newer + VersionEntries(now))
    requires MergedInput(c, input) && CutFrom(outputs, Kept(start, c.level, input, |input|, oldest))
    ensures VersionEntries(start) <= VersionEntries(now) && newer !! VersionEntries(now)
    ensures CompactedStore(start, c, NewerThan(newer + VersionEntries(now), start), oldest, input, newer + VersionEntries(v'))
  {
    hide Installs, TreeInv, Compactable, VersionEntries, InputEntries, Kept, CutFrom, MergedInput, GoodOutputs;
    InstallsOnTree(start, c, now, outputs, v');
    NothingNewInstalled(start, c, now, outputs, v');
    CompactionGivesGoodOutputs(start, c, oldest, input, outputs);
    var more := NewerThan(newer + VersionEntries(now), start);
    forall e | e in newer
      ensures e !in VersionEntries(now)
    {
    }
    forall e, x | e in more && x in VersionEntries(start) && e.key == x.key
      ensures e.sn > x.sn
    {
      if e !in newer {
        SinceIsNewer(start, c, now, outputs, v', e, x);
      }
    }
    assert more + VersionEntries(start) == newer + VersionEntries(now);
    forall e
      ensures e in newer + VersionEntries(v') <==>
              e in more || e in Kept(start, c.level, input, |input|, oldest) || (e in VersionEntries(start) && e !in InputEntries(c))
    {
      EntriesAfterInstall(start, c, now, outputs, v', e);
      if e in InputEntries(c) {
        InputsAreEntries(start, c, e);
      }
    }
  }

  lemma SinceIsNewer(start: Version, c: Compaction, now: Version, outputs: seq<File>, v': Version, e: Entry, x: Entry)
    requires Installs(start, c, now, outputs, v') && e in VersionEntries(now) && e !in VersionEntries(start)
    requires x in VersionEntries(start) && e.key == x.key
    ensures e.sn > x.sn
  {
    hide TreeInv, Compactable, Replaced, GoodOutputs;
    FlushedIsNewer(start, c, now, e, x);
  }
}
