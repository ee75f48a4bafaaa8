/**
 What a compaction does to a version and to the reads of live snapshots.
 */
module VersionSteps {
  import opened InternalKeys
  import opened Visibility
  import opened Versions
  import opened CompactionInputs
  import opened CompactionWork

  ghost function InputEntries(c: Compaction): set<Entry> {
    LevelEntries(c.inputs0) + LevelEntries(c.inputs1)
  }

  /** input is what MakeInputIterator yields: the entries of all inputs in internal-key order. */
  ghost predicate MergedInput(c: Compaction, input: seq<Entry>) {
    Sorted(input) && forall e :: e in input <==> e in InputEntries(c)
  }

  /** BySmallestKey, the order Builder keeps every level in. */
  predicate FileLess(f: File, g: File) {
    Less(f.smallest, g.smallest) || (f.smallest == g.smallest && f.number < g.number)
  }

  ghost predicate OrderedBySmallest(files: seq<File>) {
    forall i, j :: 0 <= i < j < |files| ==> FileLess(files[i], files[j])
  }

  /** v' is v with the inputs replaced by the outputs; only the two levels involved change. */
  ghost predicate Replaced(v: Version, c: Compaction, outputs: seq<File>, v': Version) {
    && c.level + 1 < NUM_LEVELS
    && (forall l :: 0 <= l < NUM_LEVELS && l != c.level && l != c.level + 1 ==> v'[l] == v[l])
    && (forall f :: f in v'[c.level] <==> f in v[c.level] && f !in c.inputs0)
    && (forall f :: f in v'[c.level + 1] <==> (f in v[c.level + 1] && f !in c.inputs1) || f in outputs)
    && OrderedBySmallest(v'[c.level]) && OrderedBySmallest(v'[c.level + 1])
  }

  // ---------------------------------------------------------------- where an entry lives

  /** No entry is stored twice. */
  lemma OneHome(v: Version, l: nat, m: nat, f: File, g: File, e: Entry)
    requires TreeInv(v) && l < NUM_LEVELS && m < NUM_LEVELS
    requires f in v[l] && g in v[m] && e in f.entries
    ensures e in g.entries ==> l == m && f == g
  {
    if l < m {
      assert FileNewer(f, g);
    } else if m < l {
      assert FileNewer(g, f);
    } else if l == 0 {
      assert f == g || FileNewer(f, g) || FileNewer(g, f);
    } else if e in g.entries {
      var i :| 0 <= i < |v[l]| && v[l][i] == f;
      var j :| 0 <= j < |v[l]| && v[l][j] == g;
      WithinBounds(f, e);
      WithinBounds(g, e);
    }
  }

  lemma InputsInLevels(v: Version, c: Compaction)
    requires Compactable(v, c)
    ensures forall f :: f in c.inputs0 ==> f in v[c.level]
    ensures forall f :: f in c.inputs1 ==> f in v[c.level + 1]
  {
    hide Startable, Isolated, IsSmallest, IsLargest;
    StartableInLevel(v, c.level, c.inputs0);
  }

  predicate IsInput(c: Compaction, l: nat, f: File) {
    (l == c.level && f in c.inputs0) || (l == c.level + 1 && f in c.inputs1)
  }

  /** An entry belongs to the inputs exactly when the table it lives in does. */
  lemma InputByHome(v: Version, c: Compaction, l: nat, f: File, e: Entry)
    requires TreeInv(v) && Compactable(v, c) && l < NUM_LEVELS && f in v[l] && e in f.entries
    ensures e in InputEntries(c) <==> IsInput(c, l, f)
  {
    hide TreeInv, Compactable;
    ChosenLevel(v, c);
    InputsInLevels(v, c);
    if e in InputEntries(c) {
      if e in LevelEntries(c.inputs0) {
        var g :| g in c.inputs0 && e in g.entries;
        OneHome(v, l, c.level, f, g, e);
      } else {
        var g :| g in c.inputs1 && e in g.entries;
        OneHome(v, l, c.level + 1, f, g, e);
      }
    }
  }

  /** After the step: the inputs' entries are gone except for the kept ones, all others are untouched. */
  lemma EntriesAfterCompaction(v: Version, c: Compaction, outputs: seq<File>, v': Version, e: Entry)
    requires TreeInv(v) && Compactable(v, c) && Replaced(v, c, outputs, v')
    ensures e in VersionEntries(v') <==> e in LevelEntries(outputs) || (e in VersionEntries(v) && e !in InputEntries(c))
  {
    hide TreeInv, Compactable, OrderedBySmallest;
    if e in VersionEntries(v') {
      var l: nat, f :| l < NUM_LEVELS && f in v'[l] && e in f.entries;
      if f in v[l] && !IsInput(c, l, f) {
        InputByHome(v, c, l, f, e);
      } else {
        assert f in outputs;
      }
    }
    if e in LevelEntries(outputs) {
      var f :| f in outputs && e in f.entries;
      assert f in v'[c.level + 1];
    }
    if e in VersionEntries(v) && e !in InputEntries(c) {
      var l: nat, f :| l < NUM_LEVELS && f in v[l] && e in f.entries;
      InputByHome(v, c, l, f, e);
      assert f in v'[l];
    }
  }

  // ---------------------------------------------------------------- reads

  /** What the compaction leaves behind in its output level. */
  ghost function LeftBehind(v: Version, c: Compaction): set<Entry>
    requires c.level + 1 < NUM_LEVELS
  {
    set f, e | f in v[c.level + 1] && f !in c.inputs1 && e in f.entries :: e
  }

  /** newer holds what has not reached the tables yet: for one key it is newer than every table entry. */
  ghost predicate AllNewer(newer: set<Entry>, older: set<Entry>) {
    forall x, y :: x in newer && y in older && x.key == y.key ==> x.sn > y.sn
  }

  /** The newest entry of u for the oldest snapshot is a deletion the compaction drops, and the
      next older entry the output level keeps outside the compaction is a value. */
  ghost predicate Exposes(v: Version, c: Compaction, newer: set<Entry>, oldest: nat, u: UserKey)
    requires c.level + 1 < NUM_LEVELS
  {
    exists t, x ::
      && t in InputEntries(c) && t.kind.Deletion? && Newest(newer + VersionEntries(v), u, oldest, t)
      && BaseLevel(v, c.level, u)
      && x in LeftBehind(v, c) && x.key == u && x.sn < t.sn && x.kind.Value?
      && forall y :: y in LeftBehind(v, c) && y.key == u && y.sn < t.sn ==> y.sn <= x.sn
  }

  /** At or above the compacted level, tables outside the inputs are newer than the inputs. */
  lemma OutsideAboveIsNewer(v: Version, c: Compaction, l: nat, g: File, m: nat, f: File)
    requires TreeInv(v) && Compactable(v, c) && l <= c.level && g in v[l] && !IsInput(c, l, g)
    requires m < NUM_LEVELS && f in v[m] && IsInput(c, m, f)
    ensures FileNewer(g, f)
  {
    assert Isolated(v[c.level], c.inputs0);
  }

  lemma InputHome(v: Version, c: Compaction, t: Entry) returns (m: nat, f: File)
    requires Compactable(v, c) && t in InputEntries(c)
    ensures m < NUM_LEVELS && f in v[m] && IsInput(c, m, f) && t in f.entries
  {
    hide Compactable;
    InputsInLevels(v, c);
    if t in LevelEntries(c.inputs0) {
      f :| f in c.inputs0 && t in f.entries;
      m := c.level;
    } else {
      f :| f in c.inputs1 && t in f.entries;
      m := c.level + 1;
    }
    ChosenLevel(v, c);
  }

  lemma ChosenLevel(v: Version, c: Compaction)
    requires Compactable(v, c)
    ensures c.level + 1 < NUM_LEVELS
  {
  }

  /** Older entries of a key of the inputs, outside the inputs, are left behind in the output level
      or lie deeper. */
  lemma OlderIsLeftBehind(v: Version, c: Compaction, newer: set<Entry>, t: Entry, y: Entry)
    requires TreeInv(v) && Compactable(v, c) && AllNewer(newer, VersionEntries(v))
    requires t in InputEntries(c) && BaseLevel(v, c.level, t.key)
    requires y in newer + VersionEntries(v) && y !in InputEntries(c) && y.key == t.key && y.sn < t.sn
    ensures y in LeftBehind(v, c)
  {
    hide Compactable, TreeInv, InputEntries, GoodFile;
    var m, f := InputHome(v, c, t);
    assert t in VersionEntries(v);
    var l: nat, g :| l < NUM_LEVELS && g in v[l] && y in g.entries;
    InputByHome(v, c, l, g, y);
    EntryCovered(v, l, g, y);
    if l <= c.level {
      OutsideAboveIsNewer(v, c, l, g, m, f);
    }
  }

  lemma EntryCovered(v: Version, l: nat, g: File, y: Entry)
    requires TreeInv(v) && l < NUM_LEVELS && g in v[l] && y in g.entries
    ensures CoversKey(g, y.key)
  {
    WithinBounds(g, y);
  }

  lemma InputsAreEntries(v: Version, c: Compaction, t: Entry)
    requires Compactable(v, c) && t in InputEntries(c)
    ensures t in VersionEntries(v)
  {
    hide Compactable;
    var m, f := InputHome(v, c, t);
  }

  /** Rule (A) leaves nothing below an entry every snapshot sees. */
  lemma NothingKeptBelow(v: Version, c: Compaction, input: seq<Entry>, oldest: nat, t: Entry, x: Entry)
    requires Sorted(input) && t in input && t.sn <= oldest
    requires x in Kept(v, c.level, input, |input|, oldest) && x.key == t.key
    ensures x.sn >= t.sn
  {
    KeptMembers(v, c.level, input, |input|, oldest, x);
    var i :| 0 <= i < |input| && input[i] == x && !Dropped(v, c.level, input, i, oldest);
    var j :| 0 <= j < |input| && input[j] == t;
    if j < i {
      BelowIsHidden(input, j, i, oldest);
    }
  }

  lemma BelowIsHidden(input: seq<Entry>, j: nat, i: nat, oldest: nat)
    requires Sorted(input) && j < i < |input| && input[j].key == input[i].key && input[j].sn <= oldest
    ensures Hidden(input, i, oldest)
  {
    assert j == i - 1 || Precedes(input[j], input[i - 1]);
    assert Precedes(input[i - 1], input[i]);
  }

  lemma DroppedMeans(v: Version, c: Compaction, input: seq<Entry>, oldest: nat, e: Entry)
    requires Sorted(input) && e in input && e !in Kept(v, c.level, input, |input|, oldest)
    ensures Obsolete(v, c.level, e, oldest) ||
            exists p :: p in input && p.key == e.key && e.sn < p.sn <= oldest
  {
    KeptMembers(v, c.level, input, |input|, oldest, e);
    var i :| 0 <= i < |input| && input[i] == e;
    assert Dropped(v, c.level, input, i, oldest);
    if Hidden(input, i, oldest) {
      assert Precedes(input[i - 1], input[i]);
    }
  }

  /** The state of the store before and after, as far as reads can tell. */
  ghost predicate CompactedStore(v: Version, c: Compaction, newer: set<Entry>, oldest: nat, input: seq<Entry>, after: set<Entry>) {
    && TreeInv(v) && Compactable(v, c)
    && AllNewer(newer, VersionEntries(v)) && OnePerSequence(newer + VersionEntries(v))
    && MergedInput(c, input)
    && forall e :: e in after <==> e in newer || e in Kept(v, c.level, input, |input|, oldest)
                                   || (e in VersionEntries(v) && e !in InputEntries(c))
  }

  lemma AfterIsSubset(v: Version, c: Compaction, newer: set<Entry>, oldest: nat, input: seq<Entry>, after: set<Entry>)
    requires CompactedStore(v, c, newer, oldest, input, after)
    ensures after <= newer + VersionEntries(v)
    ensures OnePerSequence(after)
  {
    forall e | e in after
      ensures e in newer + VersionEntries(v)
    {
      KeptMembers(v, c.level, input, |input|, oldest, e);
      if e in Kept(v, c.level, input, |input|, oldest) {
        InputsAreEntries(v, c, e);
      }
    }
  }

  /** Once an obsolete deletion t is gone, only entries left behind in the output level can answer for its key. */
  lemma OnlyLeftBehindAnswers(v: Version, c: Compaction, newer: set<Entry>, oldest: nat, input: seq<Entry>, after: set<Entry>,
                              s: nat, t: Entry, y: Entry)
    requires CompactedStore(v, c, newer, oldest, input, after) && oldest <= s
    requires t in InputEntries(c) && Obsolete(v, c.level, t, oldest) && Newest(newer + VersionEntries(v), t.key, s, t)
    requires y in after && y.key == t.key && y.sn <= s
    ensures y in LeftBehind(v, c) && y.sn < t.sn
  {
    AfterIsSubset(v, c, newer, oldest, input, after);
    assert y.sn <= t.sn;
    InputsAreEntries(v, c, t);
    KeptMembers(v, c.level, input, |input|, oldest, t);
    assert t !in Kept(v, c.level, input, |input|, oldest);
    assert t !in newer;
    assert y != t;
    if y in Kept(v, c.level, input, |input|, oldest) {
      NothingKeptBelow(v, c, input, oldest, t, y);
      assert false;
    }
    assert y in newer ==> y.sn > t.sn;
    OlderIsLeftBehind(v, c, newer, t, y);
  }

  /** Without an exposed value, no snapshot at or after the oldest one reads anything different. */
  lemma ReadsPreserved(v: Version, c: Compaction, newer: set<Entry>, oldest: nat, input: seq<Entry>, after: set<Entry>,
                       u: UserKey, s: nat)
    requires CompactedStore(v, c, newer, oldest, input, after) && oldest <= s
    requires !Exposes(v, c, newer, oldest, u)
    ensures Answer(after, u, s) == Answer(newer + VersionEntries(v), u, s)
  {
    hide TreeInv, Compactable, BaseLevel, AllNewer, LeftBehind, InputEntries, Sorted;
    ChosenLevel(v, c);
    var before := newer + VersionEntries(v);
    AfterIsSubset(v, c, newer, oldest, input, after);
    if Nothing(before, u, s) {
      AnswerNothing(before, u, s);
      AnswerNothing(after, u, s);
      return;
    }
    var e := NewestExists(before, u, s);
    if e in after {
      SameNewest(before, after, u, s, e);
      return;
    }
    DroppedMeans(v, c, input, oldest, e);
    forall p | p in input
      ensures p in before
    {
      InputsAreEntries(v, c, p);
    }
    assert Obsolete(v, c.level, e, oldest);
    AnswerIs(before, u, s, e);
    if Nothing(after, u, s) {
      AnswerNothing(after, u, s);
      return;
    }
    var y := NewestExists(after, u, s);
    OnlyLeftBehindAnswers(v, c, newer, oldest, input, after, s, e, y);
    AnswerIs(after, u, s, y);
    forall x | x in LeftBehind(v, c) && x.key == u && x.sn < e.sn
      ensures x.sn <= y.sn
    {
      LeftBehindStays(v, c, x);
    }
    assert Newest(before, u, oldest, e);
  }

  lemma LeftBehindStays(v: Version, c: Compaction, x: Entry)
    requires TreeInv(v) && Compactable(v, c) && x in LeftBehind(v, c)
    ensures x in VersionEntries(v) && x !in InputEntries(c)
  {
    hide TreeInv, Compactable, InputEntries;
    ChosenLevel(v, c);
    var f :| f in v[c.level + 1] && f !in c.inputs1 && x in f.entries;
    InputByHome(v, c, c.level + 1, f, x);
  }

  /** An exposed value is read by the oldest snapshot afterwards, where before the key was deleted. */
  lemma ExposedReadChanges(v: Version, c: Compaction, newer: set<Entry>, oldest: nat, input: seq<Entry>, after: set<Entry>,
                           u: UserKey)
    requires CompactedStore(v, c, newer, oldest, input, after)
    requires Exposes(v, c, newer, oldest, u)
    ensures Answer(newer + VersionEntries(v), u, oldest) == None && Answer(after, u, oldest).Some?
  {
    hide TreeInv, Compactable, AllNewer, MergedInput, LeftBehind, InputEntries, BaseLevel;
    ChosenLevel(v, c);
    var before := newer + VersionEntries(v);
    AfterIsSubset(v, c, newer, oldest, input, after);
    var t, x :|
      && t in InputEntries(c) && t.kind.Deletion? && Newest(before, u, oldest, t)
      && BaseLevel(v, c.level, u)
      && x in LeftBehind(v, c) && x.key == u && x.sn < t.sn && x.kind.Value?
      && forall y :: y in LeftBehind(v, c) && y.key == u && y.sn < t.sn ==> y.sn <= x.sn;
    AnswerIs(before, u, oldest, t);
    LeftBehindStays(v, c, x);
    forall y | y in after && y.key == u && y.sn <= oldest
      ensures y.sn <= x.sn
    {
      OnlyLeftBehindAnswers(v, c, newer, oldest, input, after, oldest, t, y);
    }
    assert Newest(after, u, oldest, x);
    AnswerIs(after, u, oldest, x);
  }

  /** A compaction leaves every read at or after the oldest snapshot unchanged if and only if it
      exposes no value of the output level. */
  lemma ReadsPreservedIff(v: Version, c: Compaction, newer: set<Entry>, oldest: nat, input: seq<Entry>, after: set<Entry>)
    requires CompactedStore(v, c, newer, oldest, input, after)
    ensures (forall u, s :: oldest <= s ==> Answer(after, u, s) == Answer(newer + VersionEntries(v), u, s)) <==>
            (forall u :: !Exposes(v, c, newer, oldest, u))
  {
    forall u, s: nat | oldest <= s && !Exposes(v, c, newer, oldest, u)
      ensures Answer(after, u, s) == Answer(newer + VersionEntries(v), u, s)
    {
      ReadsPreserved(v, c, newer, oldest, input, after, u, s);
    }
    forall u | Exposes(v, c, newer, oldest, u)
      ensures Answer(after, u, oldest) != Answer(newer + VersionEntries(v), u, oldest)
    {
      ExposedReadChanges(v, c, newer, oldest, input, after, u);
    }
  }

  /** If what stays behind in the output level is newer than the inputs from it, nothing is exposed. */
  lemma IsolatedInputsExposeNothing(v: Version, c: Compaction, newer: set<Entry>, oldest: nat, u: UserKey)
    requires TreeInv(v) && Compactable(v, c) && Isolated(v[c.level + 1], c.inputs1)
    ensures !Exposes(v, c, newer, oldest, u)
  {
    hide TreeInv, Compactable, InputEntries, BaseLevel, Isolated;
    ChosenLevel(v, c);
    forall t, x | t in InputEntries(c) && x in LeftBehind(v, c) && x.key == t.key
      ensures x.sn > t.sn
    {
      IsolatedLeavesNewer(v, c, t, x);
    }
  }

  /** Widening the lower inputs to their boundary tables, as is done for the upper ones, rules exposure out and leaves
      every read at or after the oldest snapshot as it was. */
  lemma WidenedInputsPreserveReads(v: Version, c: Compaction, newer: set<Entry>, oldest: nat, input: seq<Entry>,
                                   outputs: seq<File>, v': Version)
    requires TreeInv(v) && WidenedChoice(v, c) && AllNewer(newer, VersionEntries(v)) && OnePerSequence(newer + VersionEntries(v))
    requires MergedInput(c, input) && CutFrom(outputs, Kept(v, c.level, input, |input|, oldest))
    requires Replaced(v, c, outputs, v')
    ensures Isolated(v[c.level + 1], c.inputs1) && forall u :: !Exposes(v, c, newer, oldest, u)
    ensures TreeInv(v')
    ensures forall u, s :: oldest <= s ==> Answer(newer + VersionEntries(v'), u, s) == Answer(newer + VersionEntries(v), u, s)
  {
    hide TreeInv, WidenedChoice, Compactable, Isolated, MergedInput, CutFrom, Replaced, VersionEntries, AllNewer, OnePerSequence,
         Exposes, GoodOutputs;
    WidenedIsCompactable(v, c);
    ChosenLevel(v, c);
    forall u
      ensures !Exposes(v, c, newer, oldest, u)
    {
      IsolatedInputsExposeNothing(v, c, newer, oldest, u);
    }
    CompactionGivesGoodOutputs(v, c, oldest, input, outputs);
    ReplaceKeepsTree(v, c, outputs, v');
    CompactionGivesCompactedStore(v, c, newer, oldest, input, outputs, v');
    hide CompactedStore;
    ReadsPreservedIff(v, c, newer, oldest, input, newer + VersionEntries(v'));
  }

  lemma IsolatedLeavesNewer(v: Version, c: Compaction, t: Entry, x: Entry)
    requires TreeInv(v) && Compactable(v, c) && Isolated(v[c.level + 1], c.inputs1)
    requires t in InputEntries(c) && x in LeftBehind(v, c) && x.key == t.key
    ensures x.sn > t.sn
  {
    hide TreeInv, Compactable;
    ChosenLevel(v, c);
    var g :| g in v[c.level + 1] && g !in c.inputs1 && x in g.entries;
    var m, f := InputHome(v, c, t);
    EntryCovered(v, c.level + 1, g, x);
    EntryCovered(v, m, f, t);
    ChosenRange(v, c);
    assert f in c.inputs0 || FileNewer(g, f);
  }

  lemma ChosenRange(v: Version, c: Compaction)
    requires Compactable(v, c)
    ensures forall f, g :: f in c.inputs0 && g in v[c.level + 1] && g !in c.inputs1 ==>
                             g.largest.key < f.smallest.key || f.largest.key < g.smallest.key
  {
    hide Startable, Isolated;
  }

  // ---------------------------------------------------------------- the tree invariant

  /** A table of the output level outside the inputs lies wholly on one side of them. */
  lemma StaysAside(v: Version, c: Compaction, r: File)
    requires TreeInv(v) && Compactable(v, c) && r in v[c.level + 1] && r !in c.inputs1
    ensures (forall x :: x in InputEntries(c) ==> Less(r.largest, x.IK())) ||
            (forall x :: x in InputEntries(c) ==> Less(x.IK(), r.smallest))
  {
    hide Compactable, InputEntries;
    ChosenLevel(v, c);
    var a, z := ChosenSpan(v, c);
    var before := LiesBefore(r, c.inputs1, a);
    forall x | x in InputEntries(c)
      ensures if before then Less(r.largest, x.IK()) else Less(x.IK(), r.smallest)
    {
      var m, f := InputHome(v, c, x);
      OneSide(v, c, a, z, r, m, f, x);
    }
  }

  lemma ChosenSpan(v: Version, c: Compaction) returns (a: IKey, z: IKey)
    requires Compactable(v, c)
    ensures c.level + 1 < NUM_LEVELS && IsSmallest(c.inputs0, a) && IsLargest(c.inputs0, z)
    ensures Parted(v[c.level + 1], c.inputs1, a, z)
  {
    hide Startable, Isolated, IsSmallest, IsLargest, Parted;
    a, z :| IsSmallest(c.inputs0, a) && IsLargest(c.inputs0, z) && Parted(v[c.level + 1], c.inputs1, a, z);
  }

  lemma OneSide(v: Version, c: Compaction, a: IKey, z: IKey, r: File, m: nat, f: File, x: Entry)
    requires TreeInv(v) && c.level + 1 < NUM_LEVELS && IsSmallest(c.inputs0, a) && IsLargest(c.inputs0, z)
    requires Parted(v[c.level + 1], c.inputs1, a, z) && r in v[c.level + 1] && r !in c.inputs1
    requires m < NUM_LEVELS && f in v[m] && IsInput(c, m, f) && x in f.entries
    ensures if LiesBefore(r, c.inputs1, a) then Less(r.largest, x.IK()) else Less(x.IK(), r.smallest)
  {
    WithinBounds(f, x);
    BoundsOrdered(r);
    assert LiesBefore(r, c.inputs1, a) || LiesAfter(r, c.inputs1, z);
  }

  ghost predicate Apart(f: File, g: File) {
    Less(f.largest, g.smallest) || Less(g.largest, f.smallest)
  }

  lemma OrderedAndApart(files: seq<File>)
    requires GoodFiles(files) && OrderedBySmallest(files)
    requires forall f, g :: f in files && g in files && f != g ==> Apart(f, g)
    ensures LevelSorted(files)
  {
    forall i, j | 0 <= i < j < |files|
      ensures Less(files[i].largest, files[j].smallest)
    {
      BoundsOrdered(files[i]);
      BoundsOrdered(files[j]);
      assert FileLess(files[i], files[j]);
      assert Apart(files[i], files[j]);
    }
  }

  /** The outputs hold nothing but input entries and lie side by side. */
  ghost predicate GoodOutputs(c: Compaction, outputs: seq<File>) {
    && GoodFiles(outputs) && LevelSorted(outputs)
    && forall f, e :: f in outputs && e in f.entries ==> e in InputEntries(c)
  }

  lemma OutputApartFromRest(v: Version, c: Compaction, outputs: seq<File>, o: File, r: File)
    requires TreeInv(v) && Compactable(v, c) && GoodOutputs(c, outputs)
    requires o in outputs && r in v[c.level + 1] && r !in c.inputs1
    ensures Apart(o, r)
  {
    hide TreeInv, Compactable;
    StaysAside(v, c, r);
    assert GoodFile(o);
    assert o.entries[0] in o.entries && o.entries[|o.entries| - 1] in o.entries;
  }

  lemma SortedFilesApart(files: seq<File>, f: File, g: File)
    requires LevelSorted(files) && f in files && g in files && f != g
    ensures Apart(f, g)
  {
    var i :| 0 <= i < |files| && files[i] == f;
    var j :| 0 <= j < |files| && files[j] == g;
  }

  lemma OutputLevelSorted(v: Version, c: Compaction, outputs: seq<File>, v': Version)
    requires TreeInv(v) && Compactable(v, c) && GoodOutputs(c, outputs) && Replaced(v, c, outputs, v')
    ensures GoodFiles(v'[c.level + 1]) && LevelSorted(v'[c.level + 1])
  {
    hide Compactable;
    forall f, g | f in v'[c.level + 1] && g in v'[c.level + 1] && f != g
      ensures Apart(f, g)
    {
      if f in outputs && g in outputs {
        SortedFilesApart(outputs, f, g);
      } else if f in outputs {
        OutputApartFromRest(v, c, outputs, f, g);
      } else if g in outputs {
        OutputApartFromRest(v, c, outputs, g, f);
      } else {
        SortedFilesApart(v[c.level + 1], f, g);
      }
    }
    OrderedAndApart(v'[c.level + 1]);
  }

  lemma UpperLevelSorted(v: Version, c: Compaction, outputs: seq<File>, v': Version)
    requires TreeInv(v) && Compactable(v, c) && Replaced(v, c, outputs, v')
    ensures GoodFiles(v'[c.level])
    ensures c.level > 0 ==> LevelSorted(v'[c.level])
  {
    hide Compactable;
    if c.level > 0 {
      forall f, g | f in v'[c.level] && g in v'[c.level] && f != g
        ensures Apart(f, g)
      {
        SortedFilesApart(v[c.level], f, g);
      }
      OrderedAndApart(v'[c.level]);
    }
  }

  /** The age rule between levels survives: an output is as old as the inputs it came from. */
  lemma AgesAfter(v: Version, c: Compaction, outputs: seq<File>, v': Version, l: nat, m: nat, f: File, g: File)
    requires TreeInv(v) && Compactable(v, c) && GoodOutputs(c, outputs) && Replaced(v, c, outputs, v')
    requires l < m < NUM_LEVELS && f in v'[l] && g in v'[m]
    ensures FileNewer(f, g)
  {
    hide Compactable, OrderedBySmallest;
    if f in v[l] && g in v[m] && !(m == c.level + 1 && g in outputs) {
      assert FileNewer(f, g);
    } else if m == c.level + 1 && g in outputs {
      forall e, x | e in f.entries && x in g.entries && e.key == x.key
        ensures e.sn > x.sn
      {
        var n, h := InputHome(v, c, x);
        assert f in v[l] && !IsInput(c, l, f);
        OutsideAboveIsNewer(v, c, l, f, n, h);
      }
    } else {
      forall e, x | e in f.entries && x in g.entries && e.key == x.key
        ensures e.sn > x.sn
      {
        var n, h := InputHome(v, c, e);
        assert FileNewer(h, g);
      }
    }
  }

  lemma NothingNew(v: Version, c: Compaction, outputs: seq<File>, v': Version)
    requires TreeInv(v) && Compactable(v, c) && GoodOutputs(c, outputs) && Replaced(v, c, outputs, v')
    ensures VersionEntries(v') <= VersionEntries(v)
  {
    hide TreeInv, Compactable, OrderedBySmallest, VersionEntries, Replaced;
    forall e | e in VersionEntries(v')
      ensures e in VersionEntries(v)
    {
      EntriesAfterCompaction(v, c, outputs, v', e);
      if e in LevelEntries(outputs) {
        InputsAreEntries(v, c, e);
      }
    }
  }

  lemma AllLevelsAfter(v: Version, c: Compaction, outputs: seq<File>, v': Version)
    requires TreeInv(v) && Compactable(v, c) && GoodOutputs(c, outputs) && Replaced(v, c, outputs, v')
    ensures LevelsGood(v') && DeepLevelsSorted(v') && NumberedByAge(v'[0])
  {
    hide Compactable, GoodOutputs, AgesDescend, OrderedBySmallest;
    UpperLevelSorted(v, c, outputs, v');
    OutputLevelSorted(v, c, outputs, v');
  }

  lemma AllAgesAfter(v: Version, c: Compaction, outputs: seq<File>, v': Version)
    requires TreeInv(v) && Compactable(v, c) && GoodOutputs(c, outputs) && Replaced(v, c, outputs, v')
    ensures AgesDescend(v')
  {
    hide TreeInv, Compactable, GoodOutputs, Replaced, FileNewer;
    forall l, m, f, g | 0 <= l < m < NUM_LEVELS && f in v'[l] && g in v'[m]
      ensures FileNewer(f, g)
    {
      AgesAfter(v, c, outputs, v', l, m, f, g);
    }
  }

  /** Replacing inputs by outputs made from them keeps the tree invariant, exposed values or not. */
  lemma ReplaceKeepsTree(v: Version, c: Compaction, outputs: seq<File>, v': Version)
    requires TreeInv(v) && Compactable(v, c) && GoodOutputs(c, outputs) && Replaced(v, c, outputs, v')
    ensures TreeInv(v')
  {
    hide Compactable, GoodOutputs, Replaced, LevelsGood, DeepLevelsSorted, NumberedByAge, AgesDescend, VersionEntries;
    AllLevelsAfter(v, c, outputs, v');
    AllAgesAfter(v, c, outputs, v');
    NothingNew(v, c, outputs, v');
  }

  lemma CompactionGivesGoodOutputs(v: Version, c: Compaction, oldest: nat, input: seq<Entry>, outputs: seq<File>)
    requires TreeInv(v) && Compactable(v, c)
    requires MergedInput(c, input) && CutFrom(outputs, Kept(v, c.level, input, |input|, oldest))
    ensures GoodOutputs(c, outputs)
    ensures forall e :: e in LevelEntries(outputs) <==> e in Kept(v, c.level, input, |input|, oldest)
  {
    var kept := Kept(v, c.level, input, |input|, oldest);
    KeptSorted(v, c.level, input, |input|, oldest);
    forall e | e in kept
      ensures e.sn <= MAX_SEQUENCE
    {
      KeptMembers(v, c.level, input, |input|, oldest, e);
      var m, f := InputHome(v, c, e);
      assert GoodFile(f);
    }
    CutTablesAreDisjoint(outputs, kept);
    forall e
      ensures e in LevelEntries(outputs) <==> e in kept
      ensures e in kept ==> e in InputEntries(c)
    {
      FlattenMembers(outputs, e);
      KeptMembers(v, c.level, input, |input|, oldest, e);
    }
    forall f, e | f in outputs && e in f.entries
      ensures e in InputEntries(c)
    {
      assert e in LevelEntries(outputs);
    }
  }

  /** Installing the outputs of the compaction loop gives the store the read theorems speak about. */
  lemma CompactionGivesCompactedStore(v: Version, c: Compaction, newer: set<Entry>, oldest: nat, input: seq<Entry>,
                                      outputs: seq<File>, v': Version)
    requires TreeInv(v) && Compactable(v, c) && AllNewer(newer, VersionEntries(v)) && OnePerSequence(newer + VersionEntries(v))
    requires MergedInput(c, input) && CutFrom(outputs, Kept(v, c.level, input, |input|, oldest))
    requires Replaced(v, c, outputs, v')
    ensures CompactedStore(v, c, newer, oldest, input, newer + VersionEntries(v'))
  {
    hide TreeInv, Compactable, Replaced, CutFrom, MergedInput, VersionEntries, InputEntries, AllNewer, OnePerSequence;
    CompactionGivesGoodOutputs(v, c, oldest, input, outputs);
    forall e
      ensures e in VersionEntries(v') <==> e in Kept(v, c.level, input, |input|, oldest)
                                           || (e in VersionEntries(v) && e !in InputEntries(c))
    {
      EntriesAfterCompaction(v, c, outputs, v', e);
    }
  }
}
