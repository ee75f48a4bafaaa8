/**
 Tables, versions and point reads (db/version_set.cc, db/version_set.h).

 A version is seven levels of tables. Level 0 holds flushed memtables that may overlap;
 the tables of every deeper level are sorted and disjoint. Reads rely on the age rule:
 for one user key, whatever a shallower level (or a higher-numbered level-0 table)
 holds is newer than whatever a deeper one holds.
 */
module Versions {
  import opened InternalKeys
  import opened Visibility

  /** FileMetaData together with the entries of the table it describes. */
  datatype File = File(number: nat, size: nat, smallest: IKey, largest: IKey, entries: seq<Entry>)

  type Version = v: seq<seq<File>> | |v| == NUM_LEVELS witness seq(NUM_LEVELS, _ => [])

  ghost predicate GoodFile(f: File) {
    && f.entries != []
    && Sorted(f.entries)
    && (forall e :: e in f.entries ==> e.sn <= MAX_SEQUENCE)
    && f.smallest == f.entries[0].IK()
    && f.largest == f.entries[|f.entries| - 1].IK()
  }

  ghost predicate GoodFiles(files: seq<File>) {
    forall f :: f in files ==> GoodFile(f)
  }

  /** What SaveTo asserts of the levels below level 0. */
  ghost predicate LevelSorted(files: seq<File>) {
    forall i, j :: 0 <= i < j < |files| ==> Less(files[i].largest, files[j].smallest)
  }

  ghost predicate FileNewer(f: File, g: File) {
    forall e, x :: e in f.entries && x in g.entries && e.key == x.key ==> e.sn > x.sn
  }

  function LevelEntries(files: seq<File>): set<Entry> {
    set f, e | f in files && e in f.entries :: e
  }

  ghost function VersionEntries(v: Version): set<Entry> {
    set l: nat, f, e | l < NUM_LEVELS && f in v[l] && e in f.entries :: e
  }

  /** Level-0 tables are ordered in age by their numbers. */
  ghost predicate NumberedByAge(files: seq<File>) {
    forall f, g :: f in files && g in files && f.number >= g.number ==> f == g || (f.number > g.number && FileNewer(f, g))
  }

  ghost predicate LevelsGood(v: Version) {
    forall l :: 0 <= l < NUM_LEVELS ==> GoodFiles(v[l])
  }

  ghost predicate DeepLevelsSorted(v: Version) {
    forall l :: 1 <= l < NUM_LEVELS ==> LevelSorted(v[l])
  }

  ghost predicate AgesDescend(v: Version) {
    forall l, m, f, g :: 0 <= l < m < NUM_LEVELS && f in v[l] && g in v[m] ==> FileNewer(f, g)
  }

  ghost predicate TreeInv(v: Version) {
    && LevelsGood(v)
    && NumberedByAge(v[0])
    && DeepLevelsSorted(v)
    && AgesDescend(v)
    && OnePerSequence(VersionEntries(v))
  }

  /** Every entry of a table lies between the bounds recorded for it. */
  lemma WithinBounds(f: File, e: Entry)
    requires GoodFile(f) && e in f.entries
    ensures AtMost(f.smallest, e.IK()) && AtMost(e.IK(), f.largest)
    ensures f.smallest.key <= e.key <= f.largest.key
  {
    var i :| 0 <= i < |f.entries| && f.entries[i] == e;
    assert i == 0 || Precedes(f.entries[0], e);
    assert i == |f.entries| - 1 || Precedes(e, f.entries[|f.entries| - 1]);
  }

  lemma BoundsOrdered(f: File)
    requires GoodFile(f)
    ensures AtMost(f.smallest, f.largest) && f.smallest.key <= f.largest.key
  {
    WithinBounds(f, f.entries[0]);
  }

  function TotalFileSize(files: seq<File>): nat {
    if files == [] then 0 else files[0].size + TotalFileSize(files[1..])
  }

  // ---------------------------------------------------------------- searching

  /** Where halving the tables from left to right ends. */
  function Halved(files: seq<File>, target: IKey, left: nat, right: nat): (i: nat)
    requires left <= right <= |files|
    ensures left <= i <= right
    decreases right - left
  {
    if left == right then left
    else
      var mid := (left + right) / 2;
      if Less(files[mid].largest, target) then Halved(files, target, mid + 1, right) else Halved(files, target, left, mid)
  }

  /** On a sorted level that is where the tables begin whose largest key is at or after target. */
  lemma {:induction false} HalvedIsFirst(files: seq<File>, target: IKey, left: nat, right: nat)
    requires GoodFiles(files) && LevelSorted(files) && left <= right <= |files|
    ensures forall i :: left <= i < Halved(files, target, left, right) ==> Less(files[i].largest, target)
    ensures forall i :: Halved(files, target, left, right) <= i < right ==> !Less(files[i].largest, target)
    decreases right - left
  {
    hide GoodFile;
    if left < right {
      var mid := (left + right) / 2;
      forall i, j | 0 <= i < j < |files|
        ensures Less(files[i].largest, files[j].largest)
      {
        BoundsOrdered(files[j]);
      }
      if Less(files[mid].largest, target) {
        HalvedIsFirst(files, target, mid + 1, right);
      } else {
        HalvedIsFirst(files, target, left, mid);
      }
    }
  }

  /** FindFile: on a sorted level, the earliest table whose largest key is at or after target. */
  method FindFile(files: seq<File>, target: IKey) returns (right: nat)
    requires GoodFiles(files)
    ensures right == Halved(files, target, 0, |files|)
    ensures LevelSorted(files) ==> forall i :: 0 <= i < right ==> Less(files[i].largest, target)
    ensures LevelSorted(files) ==> forall i :: right <= i < |files| ==> !Less(files[i].largest, target)
  {
    hide GoodFiles, LevelSorted, Less, Compare;
    var left := 0;
    right := |files|;
    while left < right
      invariant 0 <= left <= right <= |files| && Halved(files, target, left, right) == Halved(files, target, 0, |files|)
    {
      var mid := (left + right) / 2;
      CompareIsLess(files[mid].largest, target);
      if Compare(files[mid].largest, target) < 0 {
        left := mid + 1;
      } else {
        right := mid;
      }
    }
    if LevelSorted(files) {
      HalvedIsFirst(files, target, 0, |files|);
    }
  }

  /** The position a table iterator takes on Seek. */
  function SeekTable(entries: seq<Entry>, target: IKey): (i: nat)
    ensures i <= |entries|
    ensures Sorted(entries) ==> IsSeekPosition(entries, target, i)
  {
    if entries == [] || !Less(entries[0].IK(), target) then 0
    else
      assert forall k :: 0 <= k < |entries[1..]| ==> entries[1..][k] == entries[k + 1];
      1 + SeekTable(entries[1..], target)
  }

  datatype SaverState = NotFound | Found(value: Bytes) | Deleted

  /** TableCache::Get with SaveValue as its callback. */
  function TableGet(f: File, u: UserKey, s: nat): SaverState {
    var i := SeekTable(f.entries, SeekKey(u, s));
    if i == |f.entries| || f.entries[i].key != u then NotFound
    else if f.entries[i].kind.Value? then Found(f.entries[i].value)
    else Deleted
  }

  ghost predicate NothingIn(f: File, u: UserKey, s: nat) {
    forall e :: e in f.entries && e.key == u ==> e.sn > s
  }

  ghost predicate NewestIn(f: File, u: UserKey, s: nat, e: Entry) {
    && e in f.entries
    && e.key == u
    && e.sn <= s
    && (forall x :: x in f.entries && x.key == u && x.sn <= s ==> x.sn <= e.sn)
  }

  lemma TableGetFindsNewest(f: File, u: UserKey, s: nat)
    requires GoodFile(f)
    ensures TableGet(f, u, s).NotFound? ==> NothingIn(f, u, s)
    ensures !TableGet(f, u, s).NotFound? ==>
              exists e :: NewestIn(f, u, s, e) && Outcome(e) == SavedOutcome(TableGet(f, u, s))
  {
    var i := SeekTable(f.entries, SeekKey(u, s));
    forall e | e in f.entries && e.key == u && e.sn <= s
      ensures i < |f.entries| && f.entries[i].key == u && f.entries[i].sn >= e.sn
    {
      var j :| 0 <= j < |f.entries| && f.entries[j] == e;
      assert !Less(f.entries[j].IK(), SeekKey(u, s));
      assert i <= j;
      assert i == j || Precedes(f.entries[i], f.entries[j]);
    }
    if !TableGet(f, u, s).NotFound? {
      assert NewestIn(f, u, s, f.entries[i]);
    }
  }

  function SavedOutcome(state: SaverState): Option<Bytes> {
    if state.Found? then Some(state.value) else None
  }

  // ---------------------------------------------------------------- Version::Get

  ghost predicate NewestFirst(files: seq<File>) {
    forall i, j :: 0 <= i < j < |files| ==> files[i].number >= files[j].number
  }

  method InsertNewestFirst(files: seq<File>, f: File) returns (r: seq<File>)
    requires NewestFirst(files)
    ensures NewestFirst(r) && multiset(r) == multiset(files) + multiset{f}
  {
    var k := 0;
    while k < |files| && files[k].number >= f.number
      invariant 0 <= k <= |files|
      invariant forall i :: 0 <= i < k ==> files[i].number >= f.number
    {
      k := k + 1;
    }
    InsertedNewestFirst(files, k, f);
    r := files[..k] + [f] + files[k..];
  }

  lemma InsertedNewestFirst(files: seq<File>, k: nat, f: File)
    requires NewestFirst(files) && k <= |files|
    requires forall i :: 0 <= i < k ==> files[i].number >= f.number
    requires k < |files| ==> files[k].number < f.number
    ensures NewestFirst(files[..k] + [f] + files[k..])
    ensures multiset(files[..k] + [f] + files[k..]) == multiset(files) + multiset{f}
  {
    InsertedSameTables(files, k, f);
    var r := files[..k] + [f] + files[k..];
    forall i, j | 0 <= i < j < |r|
      ensures r[i].number >= r[j].number
    {
      InsertedAt(files, k, f, i);
      InsertedAt(files, k, f, j);
    }
  }

  lemma InsertedSameTables(files: seq<File>, k: nat, f: File)
    requires k <= |files|
    ensures multiset(files[..k] + [f] + files[k..]) == multiset(files) + multiset{f}
  {
    assert files == files[..k] + files[k..];
  }

  lemma InsertedAt(files: seq<File>, k: nat, f: File, i: nat)
    requires k <= |files| && i <= |files|
    ensures (files[..k] + [f] + files[k..])[i] == if i < k then files[i] else if i == k then f else files[i - 1]
  {
  }

  /** The order std::sort leaves the overlapping level-0 tables in. */
  method SortNewestFirst(files: seq<File>) returns (sorted: seq<File>)
    ensures NewestFirst(sorted) && multiset(sorted) == multiset(files)
  {
    sorted := [];
    for n := 0 to |files|
      invariant NewestFirst(sorted) && multiset(sorted) == multiset(files[..n])
    {
      assert files[..n + 1] == files[..n] + [files[n]];
      sorted := InsertNewestFirst(sorted, files[n]);
    }
    assert files[..|files|] == files;
  }

  ghost predicate CoversKey(f: File, u: UserKey) {
    f.smallest.key <= u <= f.largest.key
  }

  ghost predicate NothingAt(files: seq<File>, u: UserKey, s: nat) {
    forall f :: f in files ==> NothingIn(f, u, s)
  }

  ghost predicate NewestAt(files: seq<File>, u: UserKey, s: nat, e: Entry) {
    forall f, x :: f in files && x in f.entries && x.key == u && x.sn <= s ==> x.sn <= e.sn
  }

  /** Searching found in order, up to the first hit, decides what the whole level says about u at s. */
  ghost predicate Decides(found: seq<File>, files: seq<File>, u: UserKey, s: nat) {
    && (forall f :: f in found ==> f in files)
    && (NothingAt(found, u, s) ==> NothingAt(files, u, s))
    && (forall i, e :: 0 <= i < |found| && NothingAt(found[..i], u, s) && NewestIn(found[i], u, s, e) ==>
                         NewestAt(files, u, s, e))
  }

  /** Level-0 tables whose range covers u, newest first. */
  method OverlappingNewestFirst(files: seq<File>, u: UserKey, s: nat) returns (found: seq<File>)
    requires GoodFiles(files) && NumberedByAge(files)
    ensures Decides(found, files, u, s)
    ensures forall f :: f in found <==> f in files && CoversKey(f, u)
    ensures forall i, j :: 0 <= i < j < |found| ==> found[i].number >= found[j].number
  {
    var tmp: seq<File> := [];
    for i := 0 to |files|
      invariant forall f :: f in tmp <==> f in files[..i] && CoversKey(f, u)
    {
      if u >= files[i].smallest.key && u <= files[i].largest.key {
        tmp := tmp + [files[i]];
      }
    }
    found := SortNewestFirst(tmp);
    assert forall f :: f in found <==> f in multiset(found);
    assert forall f :: f in tmp <==> f in multiset(tmp);
    NewestFirstDecides(found, files, u, s);
  }

  lemma NewestFirstDecides(found: seq<File>, files: seq<File>, u: UserKey, s: nat)
    requires GoodFiles(files) && NumberedByAge(files) && NewestFirst(found)
    requires forall f :: f in found <==> f in files && CoversKey(f, u)
    ensures Decides(found, files, u, s)
  {
    forall f, e | f in files && e in f.entries && e.key == u && e.sn <= s
      ensures f in found
    {
      WithinBounds(f, e);
    }
    forall i, e | 0 <= i < |found| && NothingAt(found[..i], u, s) && NewestIn(found[i], u, s, e)
      ensures NewestAt(files, u, s, e)
    {
      forall f, x | f in files && x in f.entries && x.key == u && x.sn <= s
        ensures x.sn <= e.sn
      {
        var k :| 0 <= k < |found| && found[k] == f;
        FirstHitDecides(found, i, k, u, s, e, x);
      }
    }
  }

  lemma EarlierHas(found: seq<File>, i: nat, k: nat, u: UserKey, s: nat, x: Entry)
    requires k < i <= |found| && x in found[k].entries && x.key == u && x.sn <= s
    ensures !NothingAt(found[..i], u, s)
  {
    assert found[..i][k] == found[k] && found[k] in found[..i];
  }

  /** No earlier table has the key, and later ones are older. */
  lemma FirstHitDecides(found: seq<File>, i: nat, k: nat, u: UserKey, s: nat, e: Entry, x: Entry)
    requires NewestFirst(found) && NumberedByAge(found) && i < |found| && k < |found|
    requires NothingAt(found[..i], u, s) && NewestIn(found[i], u, s, e)
    requires x in found[k].entries && x.key == u && x.sn <= s
    ensures x.sn <= e.sn
  {
    if k < i {
      EarlierHas(found, i, k, u, s, x);
      assert false;
    }
    assert found[i].number >= found[k].number;
    assert found[i] == found[k] || FileNewer(found[i], found[k]);
  }

  /** The tables a read looks into on a level below level 0. */
  function LookedInto(files: seq<File>, u: UserKey, s: nat): seq<File> {
    var index := Halved(files, SeekKey(u, s), 0, |files|);
    if index < |files| && files[index].smallest.key <= u then [files[index]] else []
  }

  /** The one table of a sorted level that can decide what the level says about u at s, if any. */
  method SearchSortedLevel(files: seq<File>, u: UserKey, s: nat) returns (found: seq<File>)
    requires GoodFiles(files)
    ensures found == LookedInto(files, u, s)
    ensures LevelSorted(files) ==> Decides(found, files, u, s)
  {
    hide Halved;
    var index := FindFile(files, SeekKey(u, s));
    if index >= |files| {
      found := [];
    } else if u < files[index].smallest.key {
      found := [];
    } else {
      found := [files[index]];
    }
    if LevelSorted(files) {
      SortedLevelDecides(files, index, found, u, s);
    }
  }

  lemma SortedLevelDecides(files: seq<File>, index: nat, found: seq<File>, u: UserKey, s: nat)
    requires GoodFiles(files) && LevelSorted(files) && index <= |files|
    requires forall i :: 0 <= i < index ==> Less(files[i].largest, SeekKey(u, s))
    requires forall i :: index <= i < |files| ==> !Less(files[i].largest, SeekKey(u, s))
    requires found == if index < |files| && files[index].smallest.key <= u then [files[index]] else []
    ensures Decides(found, files, u, s)
  {
    forall f, e | f in files && e in f.entries && e.key == u && e.sn <= s
      ensures found != [] && exists x :: x in found[0].entries && x.key == u && x.sn <= s
      ensures found != [] && forall x :: NewestIn(found[0], u, s, x) ==> e.sn <= x.sn
    {
      var i :| 0 <= i < |files| && files[i] == f;
      WithinBounds(f, e);
      assert i >= index;
      assert GoodFile(files[index]);
      BoundsOrdered(files[index]);
      var last := files[index].entries[|files[index].entries| - 1];
      if i > index {
        assert Less(files[index].largest, f.smallest);
        assert last in found[0].entries && last.key == u && e.sn <= last.sn <= s;
      }
    }
  }

  /** The newest entry of the first level that knows the key is the newest of the whole version. */
  lemma FirstHitIsNewest(v: Version, level: nat, hit: File, u: UserKey, s: nat, e: Entry)
    requires TreeInv(v) && level < NUM_LEVELS && hit in v[level]
    requires forall l :: 0 <= l < level ==> NothingAt(v[l], u, s)
    requires NewestIn(hit, u, s, e) && NewestAt(v[level], u, s, e)
    ensures Newest(VersionEntries(v), u, s, e)
  {
    forall x | x in VersionEntries(v) && x.key == u
      ensures x.sn <= e.sn || x.sn > s
    {
      var l: nat, f :| l < NUM_LEVELS && f in v[l] && x in f.entries;
      if l < level {
        assert NothingAt(v[l], u, s);
      } else if l > level {
        assert FileNewer(hit, f);
      }
    }
  }

  lemma LevelFacts(v: Version, level: nat)
    requires TreeInv(v) && level < NUM_LEVELS
    ensures GoodFiles(v[level])
    ensures if level == 0 then NumberedByAge(v[0]) else LevelSorted(v[level])
    ensures OnePerSequence(VersionEntries(v))
  {
  }

  lemma NothingAnywhere(v: Version, u: UserKey, s: nat)
    requires forall l :: 0 <= l < NUM_LEVELS ==> NothingAt(v[l], u, s)
    ensures Nothing(VersionEntries(v), u, s)
  {
    forall x | x in VersionEntries(v) && x.key == u
      ensures x.sn > s
    {
      var l: nat, f :| l < NUM_LEVELS && f in v[l] && x in f.entries;
      assert NothingAt(v[l], u, s);
    }
  }

  /** Version::Get: level by level, stopping at the first table that knows the key. */
  method Get(v: Version, u: UserKey, s: nat) returns (r: Option<Bytes>)
    requires TreeInv(v)
    ensures r == Answer(VersionEntries(v), u, s)
  {
    hide TreeInv, NumberedByAge, LevelSorted, OnePerSequence, VersionEntries, GoodFile, Nothing, Answer;
    for level := 0 to NUM_LEVELS
      invariant forall l :: 0 <= l < level ==> NothingAt(v[l], u, s)
    {
      LevelFacts(v, level);
      var files;
      if level == 0 {
        files := OverlappingNewestFirst(v[0], u, s);
      } else {
        files := SearchSortedLevel(v[level], u, s);
      }
      for i := 0 to |files|
        invariant NothingAt(files[..i], u, s)
      {
        var state := TableGet(files[i], u, s);
        TableGetFindsNewest(files[i], u, s);
        if !state.NotFound? {
          ghost var e :| NewestIn(files[i], u, s, e) && Outcome(e) == SavedOutcome(state);
          FirstHitIsNewest(v, level, files[i], u, s, e);
          AnswerIs(VersionEntries(v), u, s, e);
          return SavedOutcome(state);
        }
      }
      assert files[..|files|] == files;
    }
    NothingAnywhere(v, u, s);
    AnswerNothing(VersionEntries(v), u, s);
    return None;
  }
}
