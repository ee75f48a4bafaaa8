/**
 The compaction loop (DoCompactionWork in db/db_impl.cc) with the helpers it keeps state
 in (class Compaction in db/version_set.cc).

 The loop reads the inputs in internal-key order, drops what no reader at or after the
 oldest snapshot can see, and writes the rest to new tables of the next level.
 */
module CompactionWork {
  import opened InternalKeys
  import opened Visibility
  import opened Versions
  import opened CompactionInputs

  // ---------------------------------------------------------------- what is dropped

  /** No table two or more levels below the compaction has u in its range. */
  ghost predicate BaseLevel(v: Version, level: nat, u: UserKey) {
    forall l, f :: level + 2 <= l < NUM_LEVELS && f in v[l] ==> !CoversKey(f, u)
  }

  /** Rule (A): hidden by a newer entry that every snapshot sees. */
  predicate Hidden(input: seq<Entry>, i: nat, oldest: nat)
    requires i < |input|
  {
    i > 0 && input[i - 1].key == input[i].key && input[i - 1].sn <= oldest
  }

  /** The other rule: a deletion every snapshot sees, with no table further down to delete from. */
  ghost predicate Obsolete(v: Version, level: nat, e: Entry, oldest: nat) {
    e.kind.Deletion? && e.sn <= oldest && BaseLevel(v, level, e.key)
  }

  ghost predicate Dropped(v: Version, level: nat, input: seq<Entry>, i: nat, oldest: nat)
    requires i < |input|
  {
    Hidden(input, i, oldest) || Obsolete(v, level, input[i], oldest)
  }

  /** The survivors among the first n entries. */
  ghost function Kept(v: Version, level: nat, input: seq<Entry>, n: nat, oldest: nat): seq<Entry>
    requires n <= |input|
  {
    if n == 0 then []
    else
      var before := Kept(v, level, input, n - 1, oldest);
      if Dropped(v, level, input, n - 1, oldest) then before else before + [input[n - 1]]
  }

  lemma {:induction false} KeptMembers(v: Version, level: nat, input: seq<Entry>, n: nat, oldest: nat, e: Entry)
    requires n <= |input|
    ensures e in Kept(v, level, input, n, oldest) <==>
            exists i :: 0 <= i < n && input[i] == e && !Dropped(v, level, input, i, oldest)
  {
    if n > 0 {
      KeptMembers(v, level, input, n - 1, oldest, e);
    }
  }

  lemma {:induction false} KeptSorted(v: Version, level: nat, input: seq<Entry>, n: nat, oldest: nat)
    requires n <= |input| && Sorted(input)
    ensures Sorted(Kept(v, level, input, n, oldest))
  {
    if n > 0 {
      KeptSorted(v, level, input, n - 1, oldest);
      var before := Kept(v, level, input, n - 1, oldest);
      forall i | 0 <= i < |before|
        ensures Precedes(before[i], input[n - 1])
      {
        KeptMembers(v, level, input, n - 1, oldest, before[i]);
      }
    }
  }

  /** What has to be written, said of the inputs as a set: an entry that no newer input of its key hides from the
      oldest snapshot on, unless it is a deletion with nothing to delete. A deletion that old is needed only if some
      table two or more levels down has its key in range. */
  ghost predicate MustStay(v: Version, level: nat, input: seq<Entry>, oldest: nat, e: Entry) {
    && e in input
    && (forall x :: x in input && x.key == e.key && x.sn > e.sn ==> x.sn > oldest)
    && (e.kind == Deletion && e.sn <= oldest ==>
          exists l, f :: level + 2 <= l < NUM_LEVELS && f in v[l] && f.smallest.key <= e.key <= f.largest.key)
  }

  /** The entry before is hidden behind the same newer ones, or is the one that hides. */
  lemma HiddenByNewer(input: seq<Entry>, i: nat, oldest: nat, j: nat)
    requires Sorted(input) && j < i < |input| && input[j].key == input[i].key && input[j].sn <= oldest
    ensures Hidden(input, i, oldest)
  {
    assert Precedes(input[j], input[i]) && Precedes(input[i - 1], input[i]);
    if j < i - 1 {
      assert Precedes(input[j], input[i - 1]);
    }
  }

  lemma {:induction false} KeptExactly(v: Version, level: nat, input: seq<Entry>, oldest: nat, e: Entry)
    requires Sorted(input)
    ensures e in Kept(v, level, input, |input|, oldest) <==> MustStay(v, level, input, oldest, e)
  {
    KeptMembers(v, level, input, |input|, oldest, e);
    hide Kept;
    if e in input {
      var i :| 0 <= i < |input| && input[i] == e;
      OnlyThere(input, i);
      BaseMeans(v, level, e.key);
      HiddenMeans(input, i, oldest);
    }
  }

  lemma BaseMeans(v: Version, level: nat, u: UserKey)
    ensures BaseLevel(v, level, u) <==>
            !exists l, f :: level + 2 <= l < NUM_LEVELS && f in v[l] && f.smallest.key <= u <= f.largest.key
  {
    forall l, f | level + 2 <= l < NUM_LEVELS && f in v[l]
      ensures CoversKey(f, u) <==> f.smallest.key <= u <= f.largest.key
    {
    }
  }

  lemma OnlyThere(input: seq<Entry>, i: nat)
    requires Sorted(input) && i < |input|
    ensures forall j :: 0 <= j < |input| && input[j] == input[i] ==> j == i
  {
    forall j | 0 <= j < |input| && j != i
      ensures input[j] != input[i]
    {
      if j < i {
        assert Precedes(input[j], input[i]);
      } else {
        assert Precedes(input[i], input[j]);
      }
    }
  }

  lemma HiddenMeans(input: seq<Entry>, i: nat, oldest: nat)
    requires Sorted(input) && i < |input|
    ensures Hidden(input, i, oldest) <==>
            exists x :: x in input && x.key == input[i].key && x.sn > input[i].sn && x.sn <= oldest
  {
    var e := input[i];
    if Hidden(input, i, oldest) {
      assert Precedes(input[i - 1], e);
      assert input[i - 1] in input;
    }
    forall x | x in input && x.key == e.key && x.sn > e.sn && x.sn <= oldest
      ensures Hidden(input, i, oldest)
    {
      var j :| 0 <= j < |input| && input[j] == x;
      assert j > i ==> Precedes(e, x);
      HiddenByNewer(input, i, oldest, j);
    }
  }

  // ---------------------------------------------------------------- output tables

  function Flatten(files: seq<File>): seq<Entry> {
    if files == [] then [] else Flatten(files[..|files| - 1]) + files[|files| - 1].entries
  }

  lemma FlattenGrows(files: seq<File>, f: File)
    ensures Flatten(files + [f]) == Flatten(files) + f.entries
  {
    assert (files + [f])[..|files|] == files;
  }

  predicate BoundsFromEntries(f: File) {
    && f.entries != []
    && f.smallest == f.entries[0].IK()
    && f.largest == f.entries[|f.entries| - 1].IK()
  }

  /** Tables cut one after the other from a sorted sequence. */
  ghost predicate CutFrom(files: seq<File>, entries: seq<Entry>) {
    Flatten(files) == entries && forall f :: f in files ==> BoundsFromEntries(f)
  }

  lemma {:induction false} FlattenMembers(files: seq<File>, e: Entry)
    ensures e in Flatten(files) <==> e in LevelEntries(files)
    decreases |files|
  {
    if files != [] {
      var before, last := files[..|files| - 1], files[|files| - 1];
      assert files == before + [last];
      FlattenMembers(before, e);
    }
  }

  /** Tables cut from a sorted sequence are well formed and lie side by side in order. */
  lemma {:induction false} CutTablesAreDisjoint(files: seq<File>, entries: seq<Entry>)
    requires CutFrom(files, entries) && Sorted(entries) && forall e :: e in entries ==> e.sn <= MAX_SEQUENCE
    ensures GoodFiles(files)
    ensures LevelSorted(files)
    decreases |files|
  {
    if files != [] {
      var before, last := files[..|files| - 1], files[|files| - 1];
      assert files == before + [last];
      var cut := |Flatten(before)|;
      assert Flatten(before) == entries[..cut] && last.entries == entries[cut..];
      CutTablesAreDisjoint(before, entries[..cut]);
      assert BoundsFromEntries(last);
      forall f | f in before
        ensures Less(f.largest, last.smallest)
      {
        EarlierPieceIsLess(before, entries, cut, f);
      }
      hide BoundsFromEntries, Sorted;
    }
  }

  lemma EarlierPieceIsLess(before: seq<File>, entries: seq<Entry>, cut: nat, f: File)
    requires Sorted(entries) && cut < |entries| && Flatten(before) == entries[..cut]
    requires f in before && BoundsFromEntries(f)
    ensures Less(f.largest, entries[cut].IK())
  {
    var e := f.entries[|f.entries| - 1];
    assert e in f.entries && e in LevelEntries(before);
    FlattenMembers(before, e);
    var k :| 0 <= k < cut && entries[k] == e;
    assert Precedes(entries[k], entries[cut]);
  }

  // ---------------------------------------------------------------- where tables are cut

  /** How many tables at the front end before the key. */
  ghost function Past(files: seq<File>, key: IKey): (n: nat)
    ensures n <= |files| && (forall j :: 0 <= j < n ==> Less(files[j].largest, key))
    ensures n < |files| ==> !Less(files[n].largest, key)
  {
    if files == [] || !Less(files[0].largest, key) then 0
    else
      assert forall j :: 0 <= j < |files| - 1 ==> files[1..][j] == files[j + 1];
      1 + Past(files[1..], key)
  }

  lemma PastGrows(files: seq<File>, a: IKey, b: IKey)
    requires AtMost(a, b)
    ensures Past(files, a) <= Past(files, b)
  {
    assert Past(files, a) > Past(files, b) ==> Less(files[Past(files, b)].largest, a);
  }

  lemma PastIs(files: seq<File>, key: IKey, n: nat)
    requires n <= |files| && (forall j :: 0 <= j < n ==> Less(files[j].largest, key))
    requires n < |files| ==> !Less(files[n].largest, key)
    ensures n == Past(files, key)
  {
  }

  function Stretch(files: seq<File>, a: nat, b: nat): nat
    requires a <= b <= |files|
  {
    TotalFileSize(files[a..b])
  }

  lemma {:induction false} StretchesJoin(files: seq<File>, a: nat, b: nat, c: nat)
    requires a <= b <= c <= |files|
    ensures Stretch(files, a, b) + Stretch(files, b, c) == Stretch(files, a, c)
    decreases c
  {
    if b == c {
      assert files[b..c] == [];
    } else {
      StretchesJoin(files, a, b, c - 1);
      OneLonger(files, a, c - 1);
      OneLonger(files, b, c - 1);
    }
  }

  lemma OneLonger(files: seq<File>, a: nat, b: nat)
    requires a <= b < |files|
    ensures Stretch(files, a, b + 1) == Stretch(files, a, b) + files[b].size
  {
    TotalGrows(files[a..], b - a);
    assert files[a..][..b - a] == files[a..b] && files[a..][..b - a + 1] == files[a..b + 1];
  }

  /** Why a compaction cut its output where it did: the options, the tables two levels down, and for each output how
      many of them had been passed when the overlap was last counted from. */
  datatype Cuts = Cuts(grandparents: seq<File>, maxFileSize: nat, bytesSoFar: seq<Entry> -> nat)
  {
    /** The table is cut as soon as it is big enough, and spans at most ten target sizes of grandparents. */
    ghost predicate SmallEnough(f: File) {
      && (forall n :: 0 < n < |f.entries| ==> bytesSoFar(f.entries[..n]) < maxFileSize)
      && SpansLittle(f.smallest, f.largest)
    }

    ghost predicate SpansLittle(first: IKey, last: IKey) {
      && Past(grandparents, first) <= Past(grandparents, last)
      && Stretch(grandparents, Past(grandparents, first), Past(grandparents, last)) <= 10 * maxFileSize
    }

    /** It was big enough, or going on past one more grandparent would have brought the overlap counted since a
        place before the table over the bound. */
    ghost predicate HadToEnd(f: File, from: nat, to: nat) {
      || bytesSoFar(f.entries) >= maxFileSize
      || (from <= Past(grandparents, f.smallest) && Past(grandparents, f.largest) < to <= |grandparents| && from <= to
          && Stretch(grandparents, from, to) > 10 * maxFileSize)
    }

    /** from[i] is where the overlap that ended table i is counted from; no grandparent is counted for two tables. */
    ghost predicate Explain(files: seq<File>, from: seq<nat>) {
      && |from| == |files|
      && (forall i :: 0 <= i < |files| ==> SmallEnough(files[i]) && from[i] <= Past(grandparents, files[i].smallest))
      && (forall i :: 0 <= i < |files| - 1 ==> from[i] <= from[i + 1] && HadToEnd(files[i], from[i], from[i + 1]))
    }

    /** The same of finished tables, with the place the next one is counted from. */
    ghost predicate Ended(files: seq<File>, from: seq<nat>, next: nat) {
      && Explain(files, from)
      && (files != [] ==> from[|files| - 1] <= next && HadToEnd(files[|files| - 1], from[|files| - 1], next))
    }

    /** What the loop knows of the entries of the open builder. */
    ghost predicate Open(building: seq<Entry>, counted: nat, index: nat)
      requires building != []
    {
      && counted <= Past(grandparents, building[0].IK()) <= Past(grandparents, building[|building| - 1].IK()) <= index
      && forall n :: 0 < n <= |building| ==> bytesSoFar(building[..n]) < maxFileSize
    }

    /** The overlap in the open table's favour is that of the grandparents from counted to index. */
    ghost predicate Fit(files: seq<File>, from: seq<nat>, building: seq<Entry>, counted: nat, index: nat, seen: bool, bytes: nat) {
      && counted <= index <= |grandparents| && Ended(files, from, counted)
      && (if seen then bytes == Stretch(grandparents, counted, index) <= 10 * maxFileSize
          else files == [] && building == [] && bytes == 0)
      && (building != [] ==> Open(building, counted, index))
    }

    lemma HadToEndThere(f: File, from: nat, next: nat, later: nat)
      requires HadToEnd(f, from, next) && next <= later <= |grandparents|
      ensures HadToEnd(f, from, later)
    {
      if bytesSoFar(f.entries) < maxFileSize {
        StretchesJoin(grandparents, from, next, later);
      }
    }

    lemma EndedThere(files: seq<File>, from: seq<nat>, next: nat, later: nat)
      requires Ended(files, from, next) && next <= later <= |grandparents|
      ensures Ended(files, from, later)
    {
      if files != [] {
        HadToEndThere(files[|files| - 1], from[|files| - 1], next, later);
      }
    }

    lemma EndedOneMore(files: seq<File>, from: seq<nat>, f: File, start: nat, next: nat)
      requires Ended(files, from, start) && SmallEnough(f) && start <= Past(grandparents, f.smallest) && start <= next
      requires HadToEnd(f, start, next)
      ensures Ended(files + [f], from + [start], next)
    {
      hide SmallEnough, HadToEnd, Past;
      ExplainOneMore(files, from, f, start);
    }

    lemma ExplainOneMore(files: seq<File>, from: seq<nat>, f: File, start: nat)
      requires Ended(files, from, start) && SmallEnough(f) && start <= Past(grandparents, f.smallest)
      ensures Explain(files + [f], from + [start])
    {
      hide SmallEnough, HadToEnd, Past;
      var fs, from' := files + [f], from + [start];
      forall i | 0 <= i < |files|
        ensures fs[i] == files[i] && from'[i] == from[i] && from[i] <= from'[i + 1] && HadToEnd(fs[i], from'[i], from'[i + 1])
      {
        if i + 1 < |files| {
          assert from'[i + 1] == from[i + 1];
        }
      }
    }

    lemma OpenIsSmall(f: File, building: seq<Entry>, counted: nat, index: nat)
      requires building != [] && Open(building, counted, index) && index <= |grandparents|
      requires Stretch(grandparents, counted, index) <= 10 * maxFileSize
      requires f.entries == building && f.smallest == building[0].IK() && f.largest == building[|building| - 1].IK()
      ensures SmallEnough(f) && counted <= Past(grandparents, f.smallest) && Past(grandparents, f.largest) <= index
    {
      hide Stretch, Past;
      var a, b := Past(grandparents, f.smallest), Past(grandparents, f.largest);
      StretchesJoin(grandparents, counted, a, index);
      StretchesJoin(grandparents, a, b, index);
    }

    /** A new entry, which is at or after everything passed so far, takes the search on to index'; nothing ends. */
    lemma GoesOn(files: seq<File>, from: seq<nat>, building: seq<Entry>, counted: nat, index: nat, seen: bool, bytes: nat, index': nat)
      requires Fit(files, from, building, counted, index, seen, bytes) && index <= index' <= |grandparents|
      requires seen ==> bytes + Stretch(grandparents, index, index') <= 10 * maxFileSize
      ensures var counted' := if seen then counted else index';
              Fit(files, from, building, counted', index', true, if seen then bytes + Stretch(grandparents, index, index') else 0)
    {
      hide Stretch, Past;
      if seen {
        StretchesJoin(grandparents, counted, index, index');
      } else {
        NoStretch(index');
      }
    }

    lemma NothingYet()
      ensures Fit([], [], [], 0, 0, false, 0)
    {
    }

    lemma NothingCounted(files: seq<File>, from: seq<nat>, building: seq<Entry>, counted: nat, index: nat, bytes: nat)
      requires Fit(files, from, building, counted, index, false, bytes)
      ensures bytes == 0
    {
    }

    lemma NoStretch(index: nat)
      requires index <= |grandparents|
      ensures Stretch(grandparents, index, index) == 0
    {
      assert grandparents[index..index] == [];
    }

    /** The overlap would get too large: an open table ends, and counting begins again. */
    lemma Stops(files: seq<File>, from: seq<nat>, building: seq<Entry>, counted: nat, index: nat, bytes: nat, index': nat, f: File)
      requires Fit(files, from, building, counted, index, true, bytes) && index <= index' <= |grandparents|
      requires bytes + Stretch(grandparents, index, index') > 10 * maxFileSize
      requires building != [] ==>
                 f.entries == building && f.smallest == building[0].IK() && f.largest == building[|building| - 1].IK()
      ensures if building == [] then Fit(files, from, [], index', index', true, 0)
              else Fit(files + [f], from + [counted], [], index', index', true, 0)
    {
      hide Stretch, Past, HadToEnd, SmallEnough, Ended;
      NoStretch(index');
      StretchesJoin(grandparents, counted, index, index');
      if building == [] {
        EndedThere(files, from, counted, index');
      } else {
        OpenIsSmall(f, building, counted, index);
        if index == index' {
          NoStretch(index);
        }
        EndsForOverlap(f, counted, index');
        EndedOneMore(files, from, f, counted, index');
      }
    }

    lemma EndsForOverlap(f: File, from: nat, next: nat)
      requires from <= Past(grandparents, f.smallest) && Past(grandparents, f.largest) < next <= |grandparents| && from <= next
      requires Stretch(grandparents, from, next) > 10 * maxFileSize
      ensures HadToEnd(f, from, next)
    {
    }

    /** A surviving entry makes the open table longer, or is the first of a new one. */
    lemma Grows(files: seq<File>, from: seq<nat>, building: seq<Entry>, counted: nat, index: nat, bytes: nat, e: Entry)
      requires Fit(files, from, building, counted, index, true, bytes) && index == Past(grandparents, e.IK())
      requires bytesSoFar(building + [e]) < maxFileSize
      ensures Fit(files, from, building + [e], counted, index, true, bytes)
    {
      hide Stretch, Past, HadToEnd, SmallEnough, Ended;
      var longer := building + [e];
      forall n | 0 < n <= |longer|
        ensures bytesSoFar(longer[..n]) < maxFileSize
      {
        assert longer[..n] == if n <= |building| then building[..n] else longer;
      }
      assert longer[0] == if building == [] then e else building[0];
    }

    /** The entry makes the table big enough. */
    lemma Fills(files: seq<File>, from: seq<nat>, building: seq<Entry>, counted: nat, index: nat, bytes: nat, e: Entry, f: File)
      requires Fit(files, from, building, counted, index, true, bytes) && index == Past(grandparents, e.IK())
      requires bytesSoFar(building + [e]) >= maxFileSize
      requires f.entries == building + [e] && f.smallest == f.entries[0].IK() && f.largest == e.IK()
      ensures Fit(files + [f], from + [counted], [], counted, index, true, bytes)
    {
      hide Stretch, Past, Ended;
      var longer := building + [e];
      forall n | 0 < n < |longer|
        ensures bytesSoFar(longer[..n]) < maxFileSize
      {
        assert longer[..n] == building[..n];
      }
      assert longer[0] == if building == [] then e else building[0];
      var a := Past(grandparents, f.smallest);
      assert counted <= a <= index;
      StretchesJoin(grandparents, counted, a, index);
      EndedOneMore(files, from, f, counted, counted);
    }

    /** Nothing follows: an open table is the last. */
    lemma Finishes(files: seq<File>, from: seq<nat>, building: seq<Entry>, counted: nat, index: nat, seen: bool, bytes: nat, f: File)
      requires Fit(files, from, building, counted, index, seen, bytes)
      requires building != [] ==>
                 f.entries == building && f.smallest == building[0].IK() && f.largest == building[|building| - 1].IK()
      ensures if building == [] then Explain(files, from) else Explain(files + [f], from + [counted])
    {
      hide Stretch, Past, HadToEnd, SmallEnough;
      if building != [] {
        OpenIsSmall(f, building, counted, index);
        ExplainOneMore(files, from, f, counted);
      }
    }
  }

  // ---------------------------------------------------------------- the loop

  class CompactionJob {
    const v: Version
    const c: Compaction
    const oldest: nat                   // smallest_snapshot
    const maxFileSize: nat
    const bytesSoFar: seq<Entry> -> nat // what a table builder reports for the entries added, and
    const sizeOf: seq<Entry> -> nat     // what it does once it has finished

    // Compaction: search positions that only move forwards
    var levelPtrs: seq<nat>
    var grandparentIndex: nat
    var seenKey: bool
    var overlappedBytes: nat

    // CompactionState: finished output tables and the entries of the open builder
    var outputs: seq<File>
    var building: seq<Entry>
    var nextFileNumber: nat
    ghost var from: seq<nat>            // per output, and
    ghost var counted: nat              // for the next one: where the overlap is counted from

    constructor (v: Version, c: Compaction, oldest: nat, maxFileSize: nat, bytesSoFar: seq<Entry> -> nat,
                 sizeOf: seq<Entry> -> nat, nextFileNumber: nat)
      ensures this.v == v && this.c == c && this.oldest == oldest && this.maxFileSize == maxFileSize
      ensures this.bytesSoFar == bytesSoFar && this.sizeOf == sizeOf && this.nextFileNumber == nextFileNumber
      ensures levelPtrs == seq(NUM_LEVELS, _ => 0) && grandparentIndex == 0 && !seenKey && overlappedBytes == 0
      ensures outputs == [] && building == [] && from == [] && counted == 0
    {
      this.v, this.c, this.oldest, this.maxFileSize := v, c, oldest, maxFileSize;
      this.bytesSoFar, this.sizeOf := bytesSoFar, sizeOf;
      this.nextFileNumber := nextFileNumber;
      levelPtrs := seq(NUM_LEVELS, _ => 0);
      grandparentIndex, seenKey, overlappedBytes := 0, false, 0;
      outputs, building := [], [];
      from, counted := [], 0;
    }

    /** Every table the search positions have passed ends before u. */
    ghost predicate PassedBefore(u: UserKey)
      reads this`levelPtrs
    {
      && |levelPtrs| == NUM_LEVELS
      && forall l :: 0 <= l < NUM_LEVELS ==>
           levelPtrs[l] <= |v[l]| && forall j :: 0 <= j < levelPtrs[l] ==> v[l][j].largest.key < u
    }

    /** IsBaseLevelForKey answers for a key by resuming where the previous, smaller key stopped. */
    method IsBaseLevelForKey(u: UserKey) returns (base: bool)
      requires TreeInv(v) && PassedBefore(u) && c.level + 1 < NUM_LEVELS
      modifies this`levelPtrs
      ensures base <==> BaseLevel(v, c.level, u)
      ensures PassedBefore(u)
    {
      hide TreeInv, GoodFiles, GoodFile;
      for l := c.level + 2 to NUM_LEVELS
        invariant PassedBefore(u)
        invariant forall m, f :: c.level + 2 <= m < l && f in v[m] ==> !CoversKey(f, u)
      {
        while levelPtrs[l] < |v[l]|
          invariant PassedBefore(u)
          invariant levelPtrs[l] == |v[l]| || levelPtrs[l] < |v[l]|
          decreases |v[l]| - levelPtrs[l]
        {
          var f := v[l][levelPtrs[l]];
          if u <= f.largest.key {
            if u >= f.smallest.key {
              assert CoversKey(f, u);
              return false;
            }
            break;
          }
          levelPtrs := levelPtrs[l := levelPtrs[l] + 1];
        }
        NoneCovers(v, l, levelPtrs[l], u);
      }
      return true;
    }

    /** ShouldStopBefore: moves past the grandparents that end before key, charging those passed
        since the first key to the open output. */
    method ShouldStopBefore(key: IKey) returns (stop: bool)
      requires grandparentIndex <= |c.grandparents|
      modifies this`grandparentIndex, this`seenKey, this`overlappedBytes
      ensures old(grandparentIndex) <= grandparentIndex <= |c.grandparents| && seenKey
      ensures forall j :: old(grandparentIndex) <= j < grandparentIndex ==> Less(c.grandparents[j].largest, key)
      ensures grandparentIndex < |c.grandparents| ==> !Less(c.grandparents[grandparentIndex].largest, key)
      ensures var charged := old(overlappedBytes) +
                (if old(seenKey) then TotalFileSize(c.grandparents[old(grandparentIndex)..grandparentIndex]) else 0);
              stop == (charged > 10 * maxFileSize) && overlappedBytes == if stop then 0 else charged
    {
      ghost var start := grandparentIndex;
      while grandparentIndex < |c.grandparents| && Less(c.grandparents[grandparentIndex].largest, key)
        invariant start <= grandparentIndex <= |c.grandparents|
        invariant seenKey == old(seenKey)
        invariant forall j :: start <= j < grandparentIndex ==> Less(c.grandparents[j].largest, key)
        invariant overlappedBytes == old(overlappedBytes) +
                    (if seenKey then TotalFileSize(c.grandparents[start..grandparentIndex]) else 0)
      {
        TotalGrows(c.grandparents[start..], grandparentIndex - start);
        assert c.grandparents[start..][..grandparentIndex - start] == c.grandparents[start..grandparentIndex];
        assert c.grandparents[start..][..grandparentIndex - start + 1] == c.grandparents[start..grandparentIndex + 1];
        if seenKey {
          overlappedBytes := overlappedBytes + c.grandparents[grandparentIndex].size;
        }
        grandparentIndex := grandparentIndex + 1;
      }
      seenKey := true;
      if overlappedBytes > 10 * maxFileSize {
        overlappedBytes := 0;
        return true;
      }
      return false;
    }

    ghost function Written(): seq<Entry>
      reads this`outputs, this`building
    {
      Flatten(outputs) + building
    }

    /** The finished tables carry the numbers first, first + 1, and so on. */
    ghost predicate OutputsGood(first: nat)
      reads this`outputs, this`building, this`nextFileNumber
    {
      && (forall i :: 0 <= i < |outputs| ==>
            BoundsFromEntries(outputs[i]) && outputs[i].number == first + i && outputs[i].size == sizeOf(outputs[i].entries))
      && nextFileNumber == first + |outputs| + (if building == [] then 0 else 1)
    }

    ghost function Why(): Cuts {
      Cuts(c.grandparents, maxFileSize, bytesSoFar)
    }

    ghost predicate CutsFit()
      reads this`outputs, this`from, this`building, this`counted, this`grandparentIndex, this`seenKey, this`overlappedBytes
    {
      Why().Fit(outputs, from, building, counted, grandparentIndex, seenKey, overlappedBytes)
    }

    ghost function Finished(): File
      reads this`building, this`nextFileNumber
      requires building != [] && nextFileNumber > 0
    {
      File(nextFileNumber - 1, sizeOf(building), building[0].IK(), building[|building| - 1].IK(), building)
    }

    /** FinishCompactionOutputFile. */
    method FinishOutput(ghost first: nat)
      requires building != [] && OutputsGood(first)
      modifies this`outputs, this`building, this`from
      ensures building == [] && OutputsGood(first)
      ensures outputs == old(outputs + [Finished()]) && from == old(from + [counted])
      ensures Written() == old(Written())
    {
      var file := File(nextFileNumber - 1, sizeOf(building), building[0].IK(), building[|building| - 1].IK(), building);
      FlattenGrows(outputs, file);
      outputs := outputs + [file];
      from := from + [counted];
      building := [];
    }

    /** The first part of a turn of the loop: with the next key the open output may have to be closed. */
    method StopBefore(key: IKey, ghost first: nat)
      requires OutputsGood(first) && CutsFit() && grandparentIndex <= Past(c.grandparents, key)
      modifies this`grandparentIndex, this`seenKey, this`overlappedBytes, this`outputs, this`building, this`from, this`counted
      ensures OutputsGood(first) && CutsFit() && seenKey && grandparentIndex == Past(c.grandparents, key)
      ensures Written() == old(Written())
    {
      hide Past, Cuts.Fit, BoundsFromEntries;
      if !seenKey {
        Why().NothingCounted(outputs, from, building, counted, grandparentIndex, overlappedBytes);
      }
      var stop := ShouldStopBefore(key);
      PastIs(c.grandparents, key, grandparentIndex);
      ghost var index, bytes := old(grandparentIndex), old(overlappedBytes);
      if stop {
        Why().Stops(outputs, from, building, counted, index, bytes, grandparentIndex,
                    if building == [] then File(0, 0, key, key, []) else Finished());
        if building != [] {
          FinishOutput(first);
        }
        counted := grandparentIndex;
      } else {
        Why().GoesOn(outputs, from, building, counted, index, old(seenKey), bytes, grandparentIndex);
        if !old(seenKey) {
          counted := grandparentIndex;
        }
      }
    }

    method Append(e: Entry, ghost first: nat)
      requires OutputsGood(first)
      modifies this`building, this`nextFileNumber
      ensures OutputsGood(first) && building == old(building) + [e] && nextFileNumber > 0
      ensures Written() == old(Written()) + [e]
    {
      hide BoundsFromEntries;
      if building == [] {
        nextFileNumber := nextFileNumber + 1;
      }
      building := building + [e];
      assert Written() == old(Written()) + [e];
    }

    /** Adds a surviving entry, opening an output when none is open and closing it once it is big enough. */
    method AddToOutput(e: Entry, ghost first: nat)
      requires OutputsGood(first) && CutsFit() && seenKey && grandparentIndex == Past(c.grandparents, e.IK())
      modifies this`outputs, this`building, this`from, this`nextFileNumber
      ensures OutputsGood(first) && CutsFit()
      ensures Written() == old(Written()) + [e]
    {
      hide Past, Cuts.Fit, OutputsGood, BoundsFromEntries, Written;
      ghost var was, why, bytes := building, Why(), overlappedBytes;
      Append(e, first);
      if bytesSoFar(building) >= maxFileSize {
        why.Fills(outputs, from, was, counted, grandparentIndex, bytes, e, Finished());
        FinishOutput(first);
      } else {
        why.Grows(outputs, from, was, counted, grandparentIndex, bytes, e);
      }
    }

    /** The drop rules for one entry, given the sequence number of the previous entry of its key. */
    method ShouldDrop(input: seq<Entry>, i: nat, lastSequenceForKey: nat) returns (drop: bool)
      requires TreeInv(v) && c.level + 1 < NUM_LEVELS && i < |input| && oldest < MAX_SEQUENCE
      requires lastSequenceForKey == if i > 0 && input[i - 1].key == input[i].key then input[i - 1].sn else MAX_SEQUENCE
      requires PassedBefore(input[i].key)
      modifies this`levelPtrs
      ensures PassedBefore(input[i].key)
      ensures drop == Dropped(v, c.level, input, i, oldest)
    {
      if lastSequenceForKey <= oldest {
        drop := true;
      } else if input[i].kind.Deletion? && input[i].sn <= oldest {
        drop := IsBaseLevelForKey(input[i].key);
      } else {
        drop := false;
      }
    }

    lemma NothingPassedYet()
      requires levelPtrs == seq(NUM_LEVELS, _ => 0)
      ensures forall u :: PassedBefore(u)
    {
    }

    lemma StillPassed(u: UserKey, u': UserKey)
      requires PassedBefore(u) && u <= u'
      ensures PassedBefore(u')
    {
    }

    /** One turn of the loop. */
    method HandleEntry(input: seq<Entry>, i: nat, currentUserKey: Option<UserKey>, lastSequenceForKey: nat, ghost first: nat)
      requires TreeInv(v) && c.level + 1 < NUM_LEVELS && i < |input| && oldest < MAX_SEQUENCE
      requires currentUserKey == if i == 0 then None else Some(input[i - 1].key)
      requires i > 0 ==> lastSequenceForKey == input[i - 1].sn
      requires PassedBefore(input[i].key) && OutputsGood(first)
      requires CutsFit() && grandparentIndex <= Past(c.grandparents, input[i].IK())
      modifies this
      ensures PassedBefore(input[i].key) && OutputsGood(first)
      ensures CutsFit() && grandparentIndex == Past(c.grandparents, input[i].IK())
      ensures Written() == old(Written()) + if Dropped(v, c.level, input, i, oldest) then [] else [input[i]]
    {
      hide TreeInv, Dropped, PassedBefore, CutsFit, OutputsGood, Past;
      StopBefore(input[i].IK(), first);
      var last := lastSequenceForKey;
      if currentUserKey.None? || input[i].key != currentUserKey.value {
        last := MAX_SEQUENCE;  // First occurrence of this user key
      }
      var drop := ShouldDrop(input, i, last);
      if !drop {
        AddToOutput(input[i], first);
      }
    }

    /** DoCompactionWork: the output tables hold exactly the survivors, in order. Each is cut where it is big enough or
        would overlap too much two levels down, and nowhere else. */
    method Run(input: seq<Entry>)
      requires TreeInv(v) && c.level + 1 < NUM_LEVELS && Sorted(input) && oldest < MAX_SEQUENCE
      requires levelPtrs == seq(NUM_LEVELS, _ => 0) && grandparentIndex == 0 && !seenKey && overlappedBytes == 0
      requires outputs == [] && building == [] && from == [] && counted == 0
      modifies this
      ensures CutFrom(outputs, Kept(v, c.level, input, |input|, oldest))
      ensures forall e :: e in Flatten(outputs) <==> MustStay(v, c.level, input, oldest, e)
      ensures Cuts(c.grandparents, maxFileSize, bytesSoFar).Explain(outputs, from)
      ensures forall i :: 0 <= i < |outputs| ==>
                outputs[i].number == old(nextFileNumber) + i && outputs[i].size == sizeOf(outputs[i].entries)
      ensures nextFileNumber == old(nextFileNumber) + |outputs|
    {
      hide TreeInv, Dropped, Sorted, PassedBefore, Past, Cuts.Fit, Cuts.Explain, MustStay;
      NothingPassedYet();
      Why().NothingYet();
      ghost var first := nextFileNumber;
      var currentUserKey: Option<UserKey> := None;
      var lastSequenceForKey := MAX_SEQUENCE;
      for i := 0 to |input|
        invariant Written() == Kept(v, c.level, input, i, oldest)
        invariant OutputsGood(first) && CutsFit()
        invariant i < |input| ==> PassedBefore(input[i].key) && grandparentIndex <= Past(c.grandparents, input[i].IK())
        invariant currentUserKey == if i == 0 then None else Some(input[i - 1].key)
        invariant i > 0 ==> lastSequenceForKey == input[i - 1].sn
      {
        HandleEntry(input, i, currentUserKey, lastSequenceForKey, first);
        currentUserKey, lastSequenceForKey := Some(input[i].key), input[i].sn;
        if i + 1 < |input| {
          NextKeyIsLater(input, i);
          StillPassed(input[i].key, input[i + 1].key);
          PastGrows(c.grandparents, input[i].IK(), input[i + 1].IK());
        }
      }
      FinishLast(first);
      SurvivorsAreKept(input);
    }

    method FinishLast(ghost first: nat)
      requires OutputsGood(first) && CutsFit()
      modifies this`outputs, this`building, this`from
      ensures OutputsGood(first) && building == [] && Flatten(outputs) == old(Written())
      ensures Why().Explain(outputs, from)
    {
      hide Past, Cuts.Fit, Cuts.Explain;
      Why().Finishes(outputs, from, building, counted, grandparentIndex, seenKey, overlappedBytes,
                     if building == [] then File(0, 0, IKey(0.0, 0, Value), IKey(0.0, 0, Value), []) else Finished());
      if building != [] {
        FinishOutput(first);
      }
      assert Written() == Flatten(outputs);
    }

    lemma SurvivorsAreKept(input: seq<Entry>)
      requires Sorted(input)
      ensures forall e :: e in Kept(v, c.level, input, |input|, oldest) <==> MustStay(v, c.level, input, oldest, e)
    {
      forall e: Entry
        ensures e in Kept(v, c.level, input, |input|, oldest) <==> MustStay(v, c.level, input, oldest, e)
      {
        KeptExactly(v, c.level, input, oldest, e);
      }
    }
  }

  lemma NextKeyIsLater(input: seq<Entry>, i: nat)
    requires Sorted(input) && i + 1 < |input|
    ensures input[i].key <= input[i + 1].key && AtMost(input[i].IK(), input[i + 1].IK())
  {
    assert Precedes(input[i], input[i + 1]);
  }

  /** Once the search stops, no table of the level has u in its range. */
  lemma NoneCovers(v: Version, l: nat, p: nat, u: UserKey)
    requires TreeInv(v) && 1 <= l < NUM_LEVELS && p <= |v[l]|
    requires forall j :: 0 <= j < p ==> v[l][j].largest.key < u
    requires p == |v[l]| || u < v[l][p].smallest.key
    ensures forall f :: f in v[l] ==> !CoversKey(f, u)
  {
    forall f | f in v[l]
      ensures !CoversKey(f, u)
    {
      var k :| 0 <= k < |v[l]| && v[l][k] == f;
      if k > p {
        BoundsOrdered(v[l][p]);
      }
    }
  }
}
