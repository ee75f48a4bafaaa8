/**
 Choosing what to compact (db/version_set.cc): the overlap search, the widening to
 boundary tables, and SetupOtherInputs.
 */
module CompactionInputs {
  import opened InternalKeys
  import opened Visibility
  import opened Versions

  // A missing bound stands for the null begin or end of the source.
  type Bound = Option<UserKey>

  datatype Compaction = Compaction(
    level: nat,
    inputs0: seq<File>,
    inputs1: seq<File>,
    grandparents: seq<File>,
    pointer: IKey)

  predicate Overlaps(f: File, lo: Bound, hi: Bound) {
    !(lo.Some? && f.largest.key < lo.value) && !(hi.Some? && f.smallest.key > hi.value)
  }

  predicate Inside(f: File, lo: Bound, hi: Bound) {
    (lo.Some? ==> lo.value <= f.smallest.key) && (hi.Some? ==> f.largest.key <= hi.value)
  }

  /** The tables among the first n that overlap the range. */
  function OverlappingFirst(files: seq<File>, n: nat, lo: Bound, hi: Bound): (r: seq<File>)
    requires n <= |files|
  {
    if n == 0 then []
    else
      var rest := OverlappingFirst(files, n - 1, lo, hi);
      if Overlaps(files[n - 1], lo, hi) then rest + [files[n - 1]] else rest
  }

  function Overlapping(files: seq<File>, lo: Bound, hi: Bound): (r: seq<File>) {
    OverlappingFirst(files, |files|, lo, hi)
  }

  lemma {:induction false} OverlappingFirstMembers(files: seq<File>, n: nat, lo: Bound, hi: Bound, f: File)
    requires n <= |files|
    ensures f in OverlappingFirst(files, n, lo, hi) <==> f in files[..n] && Overlaps(f, lo, hi)
  {
    if n > 0 {
      OverlappingFirstMembers(files, n - 1, lo, hi, f);
      assert files[..n] == files[..n - 1] + [files[n - 1]];
    }
  }

  lemma OverlappingMembers(files: seq<File>, lo: Bound, hi: Bound)
    ensures forall f :: f in Overlapping(files, lo, hi) <==> f in files && Overlaps(f, lo, hi)
  {
    forall f
      ensures f in Overlapping(files, lo, hi) <==> f in files && Overlaps(f, lo, hi)
    {
      OverlappingFirstMembers(files, |files|, lo, hi, f);
      assert files[..|files|] == files;
    }
  }

  // ---------------------------------------------------------------- overlap search

  ghost predicate Widens(lo: Bound, hi: Bound, lo': Bound, hi': Bound) {
    && (lo.Some? <==> lo'.Some?) && (lo.Some? ==> lo'.value <= lo.value)
    && (hi.Some? <==> hi'.Some?) && (hi.Some? ==> hi.value <= hi'.value)
  }

  /** No table sticks out of the range it overlaps. */
  ghost predicate Closed(files: seq<File>, lo: Bound, hi: Bound) {
    forall f :: f in files && Overlaps(f, lo, hi) ==> Inside(f, lo, hi)
  }

  /** (lo', hi') is the smallest range that contains (lo, hi) and cuts through no table. */
  ghost predicate LeastClosed(files: seq<File>, lo: Bound, hi: Bound, lo': Bound, hi': Bound) {
    && Widens(lo, hi, lo', hi')
    && Closed(files, lo', hi')
    && (forall l, h :: Widens(lo, hi, l, h) && Closed(files, l, h) ==> Widens(lo', hi', l, h))
  }

  /** Every closed range around (lo, hi) also contains (lo', hi'). */
  ghost predicate NoWiderThanNeeded(files: seq<File>, lo: Bound, hi: Bound, lo': Bound, hi': Bound) {
    forall l, h :: Widens(lo, hi, l, h) && Closed(files, l, h) ==> Widens(lo', hi', l, h)
  }

  lemma WideningIsNeeded(files: seq<File>, lo: Bound, hi: Bound, lo': Bound, hi': Bound, f: File)
    requires NoWiderThanNeeded(files, lo, hi, lo', hi')
    requires f in files && Overlaps(f, lo', hi')
    ensures lo'.Some? && f.smallest.key < lo'.value ==> NoWiderThanNeeded(files, lo, hi, Some(f.smallest.key), hi')
    ensures hi'.Some? && f.largest.key > hi'.value ==> NoWiderThanNeeded(files, lo, hi, lo', Some(f.largest.key))
  {
    forall l, h | Widens(lo, hi, l, h) && Closed(files, l, h)
      ensures Widens(lo', hi', l, h) && Inside(f, l, h)
    {
      assert Overlaps(f, l, h);
    }
  }

  /** The tables that stick out below lo or above hi; these shrink whenever the range grows. */
  ghost function BelowRange(files: seq<File>, lo: Bound): set<File> {
    set f | f in files && lo.Some? && f.smallest.key < lo.value
  }

  ghost function AboveRange(files: seq<File>, hi: Bound): set<File> {
    set f | f in files && hi.Some? && f.largest.key > hi.value
  }

  lemma FewerStickOut(files: seq<File>, lo: Bound, hi: Bound, f: File)
    requires f in files
    ensures lo.Some? && f.smallest.key < lo.value ==> BelowRange(files, Some(f.smallest.key)) < BelowRange(files, lo)
    ensures hi.Some? && f.largest.key > hi.value ==> AboveRange(files, Some(f.largest.key)) < AboveRange(files, hi)
  {
    assert f in BelowRange(files, lo) || !(lo.Some? && f.smallest.key < lo.value);
    assert f in AboveRange(files, hi) || !(hi.Some? && f.largest.key > hi.value);
    assert f !in BelowRange(files, Some(f.smallest.key));
    assert f !in AboveRange(files, Some(f.largest.key));
  }

  /** inputs are the tables of the smallest closed range around (lo, hi). */
  ghost predicate OverlapClosure(files: seq<File>, lo: Bound, hi: Bound, inputs: seq<File>) {
    exists lo', hi' :: LeastClosed(files, lo, hi, lo', hi') && inputs == Overlapping(files, lo', hi')
  }

  /** Version::GetOverlappingInputs. */
  method GetOverlappingInputs(v: Version, level: nat, begin: Bound, end: Bound) returns (inputs: seq<File>)
    requires level < NUM_LEVELS && GoodFiles(v[level])
    ensures level > 0 ==> inputs == Overlapping(v[level], begin, end)
    ensures level == 0 ==> OverlapClosure(v[0], begin, end, inputs)
  {
    var files := v[level];
    var userBegin, userEnd := begin, end;
    inputs := [];
    var i := 0;
    while i < |files|
      invariant 0 <= i <= |files|
      invariant inputs == OverlappingFirst(files, i, userBegin, userEnd)
      invariant Widens(begin, end, userBegin, userEnd)
      invariant level > 0 ==> userBegin == begin && userEnd == end
      invariant level == 0 ==> Closed(files[..i], userBegin, userEnd)
      invariant NoWiderThanNeeded(files, begin, end, userBegin, userEnd)
      decreases BelowRange(files, userBegin), AboveRange(files, userEnd), |files| - i
    {
      var f := files[i];
      BoundsOrdered(f);
      i := i + 1;
      if userBegin.Some? && f.largest.key < userBegin.value {
        // f is completely before the range
      } else if userEnd.Some? && f.smallest.key > userEnd.value {
        // f is completely after the range
      } else {
        inputs := inputs + [f];
        WideningIsNeeded(files, begin, end, userBegin, userEnd, f);
        FewerStickOut(files, userBegin, userEnd, f);
        if level == 0 {
          if userBegin.Some? && f.smallest.key < userBegin.value {
            userBegin := Some(f.smallest.key);
            inputs := [];
            i := 0;
          } else if userEnd.Some? && f.largest.key > userEnd.value {
            userEnd := Some(f.largest.key);
            inputs := [];
            i := 0;
          }
        }
      }
    }
    assert files[..|files|] == files;
    assert inputs == Overlapping(files, userBegin, userEnd);
    assert level == 0 ==> LeastClosed(files, begin, end, userBegin, userEnd);
  }

  // ---------------------------------------------------------------- ranges

  ghost predicate IsLargest(files: seq<File>, key: IKey) {
    && (exists f :: f in files && f.largest == key)
    && (forall f :: f in files ==> AtMost(f.largest, key))
  }

  ghost predicate IsSmallest(files: seq<File>, key: IKey) {
    && (exists f :: f in files && f.smallest == key)
    && (forall f :: f in files ==> AtMost(key, f.smallest))
  }

  /** FindLargestKey. */
  method FindLargestKey(files: seq<File>) returns (largest: Option<IKey>)
    ensures largest.None? <==> files == []
    ensures largest.Some? ==> IsLargest(files, largest.value)
  {
    if files == [] {
      return None;
    }
    var key := files[0].largest;
    for i := 1 to |files|
      invariant IsLargest(files[..i], key)
    {
      if Less(key, files[i].largest) {
        key := files[i].largest;
        assert files[i] in files[..i + 1];
      }
    }
    assert files[..|files|] == files;
    return Some(key);
  }

  lemma OneSpans(f: File)
    ensures IsSmallest([f], f.smallest) && IsLargest([f], f.largest)
  {
  }

  lemma SpansGrow(inputs: seq<File>, smallest: IKey, largest: IKey, f: File)
    requires IsSmallest(inputs, smallest) && IsLargest(inputs, largest)
    ensures IsSmallest(inputs + [f], if Less(f.smallest, smallest) then f.smallest else smallest)
    ensures IsLargest(inputs + [f], if Less(largest, f.largest) then f.largest else largest)
  {
  }

  /** GetRange. */
  method GetRange(inputs: seq<File>) returns (smallest: IKey, largest: IKey)
    requires inputs != []
    ensures IsSmallest(inputs, smallest) && IsLargest(inputs, largest)
  {
    hide IsSmallest, IsLargest;
    smallest, largest := inputs[0].smallest, inputs[0].largest;
    OneSpans(inputs[0]);
    assert inputs[..1] == [inputs[0]];
    for i := 1 to |inputs|
      invariant IsSmallest(inputs[..i], smallest) && IsLargest(inputs[..i], largest)
    {
      var f := inputs[i];
      assert inputs[..i + 1] == inputs[..i] + [f];
      SpansGrow(inputs[..i], smallest, largest, f);
      if Less(f.smallest, smallest) {
        smallest := f.smallest;
      }
      if Less(largest, f.largest) {
        largest := f.largest;
      }
    }
    assert inputs[..|inputs|] == inputs;
  }

  // ---------------------------------------------------------------- boundary tables

  /** f continues the user key that key ends with. */
  predicate IsBoundary(f: File, key: IKey) {
    Less(key, f.smallest) && f.smallest.key == key.key
  }

  ghost predicate SmallestBoundary(files: seq<File>, key: IKey, f: File) {
    && f in files
    && IsBoundary(f, key)
    && (forall g :: g in files && IsBoundary(g, key) ==> AtMost(f.smallest, g.smallest))
  }

  ghost predicate NoBoundary(files: seq<File>, key: IKey) {
    forall f :: f in files ==> !IsBoundary(f, key)
  }

  /** FindSmallestBoundaryFile. */
  method FindSmallestBoundaryFile(files: seq<File>, largest: IKey) returns (found: Option<File>)
    ensures found.None? ==> NoBoundary(files, largest)
    ensures found.Some? ==> SmallestBoundary(files, largest, found.value)
  {
    found := None;
    for i := 0 to |files|
      invariant found.None? ==> NoBoundary(files[..i], largest)
      invariant found.Some? ==> SmallestBoundary(files[..i], largest, found.value)
    {
      var f := files[i];
      assert files[..i + 1] == files[..i] + [f];
      if IsBoundary(f, largest) {
        if found.None? || Less(f.smallest, found.value.smallest) {
          found := Some(f);
        }
      }
    }
    assert files[..|files|] == files;
  }

  ghost function ChainEnd(start: IKey, added: seq<File>): IKey {
    if added == [] then start else added[|added| - 1].largest
  }

  /** Each added table is the smallest boundary of the key reached before it. */
  ghost predicate BoundaryChain(files: seq<File>, start: IKey, added: seq<File>) {
    added == [] ||
    var before := added[..|added| - 1];
    BoundaryChain(files, start, before) && SmallestBoundary(files, ChainEnd(start, before), added[|added| - 1])
  }

  lemma ChainGrows(files: seq<File>, start: IKey, added: seq<File>, f: File)
    requires BoundaryChain(files, start, added) && SmallestBoundary(files, ChainEnd(start, added), f)
    ensures BoundaryChain(files, start, added + [f]) && ChainEnd(start, added + [f]) == f.largest
  {
    assert (added + [f])[..|added|] == added;
  }

  lemma LargestGrows(inputs: seq<File>, key: IKey, f: File)
    requires IsLargest(inputs, key) && GoodFile(f) && Less(key, f.smallest)
    ensures IsLargest(inputs + [f], f.largest)
  {
    BoundsOrdered(f);
    assert f in inputs + [f];
  }

  ghost function StartingAfter(files: seq<File>, key: IKey): set<File> {
    set f | f in files && Less(key, f.smallest)
  }

  lemma FewerStartAfter(files: seq<File>, key: IKey, f: File)
    requires f in files && GoodFile(f) && Less(key, f.smallest)
    ensures StartingAfter(files, f.largest) < StartingAfter(files, key)
  {
    BoundsOrdered(f);
    assert f in StartingAfter(files, key) && f !in StartingAfter(files, f.largest);
  }

  /** The inputs followed by a chain of boundary tables that cannot be extended. */
  ghost predicate BoundaryClosure(files: seq<File>, inputs: seq<File>, result: seq<File>) {
    exists start, added ::
      && IsLargest(inputs, start)
      && result == inputs + added
      && BoundaryChain(files, start, added)
      && NoBoundary(files, ChainEnd(start, added))
  }

  /** AddBoundaryInputs: no table of the level continues the key the result ends with. */
  method AddBoundaryInputs(files: seq<File>, inputs: seq<File>) returns (result: seq<File>)
    requires GoodFiles(files)
    ensures if inputs == [] then result == [] else BoundaryClosure(files, inputs, result)
    ensures inputs != [] ==> exists key :: IsLargest(result, key) && NoBoundary(files, key)
  {
    result := inputs;
    var key := FindLargestKey(inputs);
    if key.None? {
      return;
    }
    var largest := key.value;
    ghost var start, added := largest, [];
    var searching := true;
    while searching
      invariant result == inputs + added
      invariant BoundaryChain(files, start, added) && ChainEnd(start, added) == largest
      invariant IsLargest(result, largest)
      invariant !searching ==> NoBoundary(files, largest)
      decreases searching, StartingAfter(files, largest)
    {
      var found := FindSmallestBoundaryFile(files, largest);
      if found.Some? {
        ChainGrows(files, start, added, found.value);
        LargestGrows(result, largest, found.value);
        FewerStartAfter(files, largest, found.value);
        result := result + [found.value];
        added := added + [found.value];
        largest := found.value.largest;
      } else {
        searching := false;
      }
    }
  }

  // ---------------------------------------------------------------- shapes of an input set

  ghost predicate IsRun(files: seq<File>, inputs: seq<File>) {
    exists i, j :: 0 <= i < j <= |files| && inputs == files[i..j]
  }

  ghost predicate WholeRange(files: seq<File>, inputs: seq<File>) {
    exists lo, hi :: Closed(files, lo, hi) && inputs == Overlapping(files, lo, hi)
  }

  /** Level-0 inputs fill a range no table sticks out of; deeper inputs are neighbours. */
  ghost predicate Startable(v: Version, level: nat, inputs: seq<File>)
    requires level < NUM_LEVELS
  {
    inputs != [] && if level == 0 then WholeRange(v[0], inputs) else IsRun(v[level], inputs)
  }

  /** Whatever stays behind in the level is newer than the inputs. */
  ghost predicate Isolated(files: seq<File>, inputs: seq<File>) {
    forall f, g :: f in inputs && g in files && g !in inputs ==> FileNewer(g, f)
  }

  ghost predicate Convex(files: seq<File>, lo: Bound, hi: Bound) {
    forall a, b, c :: 0 <= a < b < c < |files| && Overlaps(files[a], lo, hi) && Overlaps(files[c], lo, hi) ==>
                        Overlaps(files[b], lo, hi)
  }

  lemma SortedIsConvex(files: seq<File>, lo: Bound, hi: Bound)
    requires GoodFiles(files) && LevelSorted(files)
    ensures Convex(files, lo, hi)
  {
    forall a, b, c | 0 <= a < b < c < |files| && Overlaps(files[a], lo, hi) && Overlaps(files[c], lo, hi)
      ensures Overlaps(files[b], lo, hi)
    {
      BoundsOrdered(files[b]);
      assert Less(files[a].largest, files[b].smallest) && Less(files[b].largest, files[c].smallest);
    }
  }

  lemma SliceGrows(files: seq<File>, i: nat, n: nat)
    requires i < n <= |files|
    ensures files[i..n] == files[i..n - 1] + [files[n - 1]]
  {
  }

  lemma ConvexAt(files: seq<File>, lo: Bound, hi: Bound, a: nat, b: nat, c: nat)
    requires Convex(files, lo, hi) && a < b < c < |files|
    requires Overlaps(files[a], lo, hi) && Overlaps(files[c], lo, hi)
    ensures Overlaps(files[b], lo, hi)
  {
  }

  /** On a sorted level the overlapping tables are neighbours. */
  lemma {:induction false} OverlappingIsRun(files: seq<File>, n: nat, lo: Bound, hi: Bound) returns (i: nat, j: nat)
    requires Convex(files, lo, hi) && n <= |files|
    ensures i <= j <= n && OverlappingFirst(files, n, lo, hi) == files[i..j]
    ensures forall k :: i <= k < j ==> Overlaps(files[k], lo, hi)
    ensures forall k :: 0 <= k < n && !(i <= k < j) ==> !Overlaps(files[k], lo, hi)
  {
    hide Convex, Overlaps;
    if n == 0 {
      return 0, 0;
    }
    i, j := OverlappingIsRun(files, n - 1, lo, hi);
    if Overlaps(files[n - 1], lo, hi) {
      if i == j {
        i, j := n - 1, n;
      } else {
        if j < n - 1 {
          ConvexAt(files, lo, hi, j - 1, j, n - 1);
        }
        j := n;
      }
      SliceGrows(files, i, n);
    }
  }

  /** On a sorted level the boundary chain is simply the next tables of the level. */
  lemma {:induction false} BoundaryChainIsRun(files: seq<File>, j: nat, start: IKey, added: seq<File>)
    requires GoodFiles(files) && LevelSorted(files) && 0 < j <= |files|
    requires start == files[j - 1].largest
    requires BoundaryChain(files, start, added)
    ensures j + |added| <= |files| && added == files[j..j + |added|]
    ensures ChainEnd(start, added) == files[j + |added| - 1].largest
    decreases |added|
  {
    hide GoodFiles, LevelSorted, SmallestBoundary;
    if added != [] {
      var before := added[..|added| - 1];
      BoundaryChainIsRun(files, j, start, before);
      var k := j + |before|;
      NextIsBoundary(files, k, added[|added| - 1]);
      SliceGrows(files, j, k + 1);
    }
  }

  lemma NextIsBoundary(files: seq<File>, k: nat, f: File)
    requires GoodFiles(files) && LevelSorted(files) && 0 < k <= |files|
    requires SmallestBoundary(files, files[k - 1].largest, f)
    ensures k < |files| && f == files[k]
  {
    var m :| 0 <= m < |files| && files[m] == f;
    BoundsOrdered(f);
    BoundsOrdered(files[k - 1]);
    assert m >= k;
    BoundsOrdered(files[k]);
    if m > k {
      assert Less(files[k].largest, files[m].smallest);
      assert IsBoundary(files[k], files[k - 1].largest);
    }
  }

  lemma RunEndsLargest(files: seq<File>, i: nat, j: nat, key: IKey)
    requires GoodFiles(files) && LevelSorted(files) && i < j <= |files|
    requires IsLargest(files[i..j], key)
    ensures key == files[j - 1].largest
  {
    assert files[j - 1] in files[i..j];
    var f :| f in files[i..j] && f.largest == key;
    var k :| i <= k < j && files[k] == f;
    BoundsOrdered(files[j - 1]);
    BoundsOrdered(files[k]);
  }

  lemma EarlierIsNewer(files: seq<File>, b: nat, a: nat)
    requires GoodFiles(files) && LevelSorted(files) && OnePerSequence(LevelEntries(files))
    requires b < a < |files|
    ensures FileNewer(files[b], files[a])
  {
    forall e, x | e in files[b].entries && x in files[a].entries && e.key == x.key
      ensures e.sn > x.sn
    {
      WithinBounds(files[a], x);
      WithinBounds(files[b], e);
      assert e in LevelEntries(files) && x in LevelEntries(files);
    }
  }

  lemma PastBoundaryIsDisjoint(files: seq<File>, a: nat, k: nat, b: nat, x: Entry, e: Entry)
    requires GoodFiles(files) && LevelSorted(files) && a < k <= b < |files|
    requires NoBoundary(files, files[k - 1].largest)
    requires x in files[a].entries && e in files[b].entries
    ensures e.key != x.key
  {
    WithinBounds(files[a], x);
    WithinBounds(files[b], e);
    BoundsOrdered(files[k]);
    BoundsOrdered(files[k - 1]);
    assert !IsBoundary(files[k], files[k - 1].largest);
  }

  lemma InRun(files: seq<File>, i: nat, k: nat, b: nat)
    requires i <= k <= |files| && b < |files|
    ensures i <= b < k ==> files[b] in files[i..k]
  {
    if i <= b < k {
      assert files[i..k][b - i] == files[b];
    }
  }

  lemma RunIsIsolated(files: seq<File>, i: nat, k: nat)
    requires GoodFiles(files) && LevelSorted(files) && OnePerSequence(LevelEntries(files))
    requires i < k <= |files| && NoBoundary(files, files[k - 1].largest)
    ensures Isolated(files, files[i..k])
  {
    hide GoodFiles, LevelSorted, OnePerSequence, NoBoundary;
    forall f, g | f in files[i..k] && g in files && g !in files[i..k]
      ensures FileNewer(g, f)
    {
      var a :| i <= a < k && files[a] == f;
      var b :| 0 <= b < |files| && files[b] == g;
      if b < i {
        EarlierIsNewer(files, b, a);
      } else {
        assert b >= k by {
          InRun(files, i, k, b);
        }
        forall e, x | e in g.entries && x in f.entries && e.key == x.key
          ensures false
        {
          PastBoundaryIsDisjoint(files, a, k, b, x, e);
        }
      }
    }
  }

  lemma WholeRangeIsIsolated(files: seq<File>, lo: Bound, hi: Bound)
    requires GoodFiles(files) && Closed(files, lo, hi)
    ensures Isolated(files, Overlapping(files, lo, hi))
  {
    OverlappingMembers(files, lo, hi);
    forall f, g, e, x | f in Overlapping(files, lo, hi) && g in files && g !in Overlapping(files, lo, hi) && e in g.entries && x in f.entries
      ensures e.key != x.key
    {
      WithinBounds(f, x);
      WithinBounds(g, e);
    }
  }

  /** A closed level-0 range has no boundary table outside it. */
  lemma WholeRangeHasNoBoundary(files: seq<File>, lo: Bound, hi: Bound, key: IKey, f: File)
    requires GoodFiles(files) && Closed(files, lo, hi)
    requires IsLargest(Overlapping(files, lo, hi), key)
    requires f in files
    ensures !IsBoundary(f, key)
  {
    OverlappingMembers(files, lo, hi);
    BoundsOrdered(f);
    var g :| g in Overlapping(files, lo, hi) && g.largest == key;
    BoundsOrdered(g);
    assert f in Overlapping(files, lo, hi) || !Overlaps(f, lo, hi);
  }

  lemma LevelIsUnique(v: Version, level: nat)
    requires level < NUM_LEVELS && OnePerSequence(VersionEntries(v))
    ensures OnePerSequence(LevelEntries(v[level]))
  {
    assert LevelEntries(v[level]) <= VersionEntries(v);
  }

  lemma SlicesJoin(files: seq<File>, i: nat, j: nat, k: nat)
    requires i <= j <= k <= |files|
    ensures files[i..j] + files[j..k] == files[i..k]
  {
  }

  lemma RunAfterBoundary(files: seq<File>, i: nat, j: nat, start: IKey, added: seq<File>)
    requires GoodFiles(files) && LevelSorted(files) && OnePerSequence(LevelEntries(files))
    requires i < j <= |files|
    requires IsLargest(files[i..j], start) && BoundaryChain(files, start, added)
    requires NoBoundary(files, ChainEnd(start, added))
    ensures IsRun(files, files[i..j] + added) && Isolated(files, files[i..j] + added)
  {
    hide Isolated, GoodFiles, LevelSorted, OnePerSequence, BoundaryChain;
    RunEndsLargest(files, i, j, start);
    BoundaryChainIsRun(files, j, start, added);
    var k := j + |added|;
    SlicesJoin(files, i, j, k);
    RunIsIsolated(files, i, k);
  }

  /** Adding boundary tables keeps the shape, and afterwards nothing older is left behind. */
  lemma AfterBoundary(v: Version, level: nat, inputs: seq<File>, result: seq<File>)
    requires TreeInv(v) && level < NUM_LEVELS && Startable(v, level, inputs)
    requires BoundaryClosure(v[level], inputs, result)
    ensures Startable(v, level, result) && Isolated(v[level], result)
  {
    var start, added :|
      && IsLargest(inputs, start)
      && result == inputs + added
      && BoundaryChain(v[level], start, added)
      && NoBoundary(v[level], ChainEnd(start, added));
    if level == 0 {
      var lo, hi :| Closed(v[0], lo, hi) && inputs == Overlapping(v[0], lo, hi);
      NoneAddedAtLevelZero(v[0], lo, hi, start, added);
      assert inputs + added == inputs;
      WholeRangeIsIsolated(v[0], lo, hi);
    } else {
      var i, j :| 0 <= i < j <= |v[level]| && inputs == v[level][i..j];
      LevelIsUnique(v, level);
      RunAfterBoundary(v[level], i, j, start, added);
    }
  }

  lemma {:induction false} BoundaryChainStarts(files: seq<File>, start: IKey, added: seq<File>)
    requires added != [] && BoundaryChain(files, start, added)
    ensures added[0] in files && IsBoundary(added[0], start)
    decreases |added|
  {
    if |added| > 1 {
      BoundaryChainStarts(files, start, added[..|added| - 1]);
    }
  }

  lemma NoneAddedAtLevelZero(files: seq<File>, lo: Bound, hi: Bound, start: IKey, added: seq<File>)
    requires GoodFiles(files) && Closed(files, lo, hi)
    requires IsLargest(Overlapping(files, lo, hi), start) && BoundaryChain(files, start, added)
    ensures added == []
  {
    if added != [] {
      BoundaryChainStarts(files, start, added);
      WholeRangeHasNoBoundary(files, lo, hi, start, added[0]);
    }
  }

  // ---------------------------------------------------------------- SetupOtherInputs

  ghost predicate OverlapsRangeOf(files: seq<File>, inputs: seq<File>, selected: seq<File>) {
    exists a, z :: IsSmallest(inputs, a) && IsLargest(inputs, z) && selected == Overlapping(files, Some(a.key), Some(z.key))
  }

  /** What every compaction the engine runs satisfies. */
  ghost predicate WellChosen(v: Version, c: Compaction) {
    && c.level + 1 < NUM_LEVELS
    && Startable(v, c.level, c.inputs0)
    && Isolated(v[c.level], c.inputs0)
    && OverlapsRangeOf(v[c.level + 1], c.inputs0, c.inputs1)
    && (if c.level + 2 < NUM_LEVELS
        then OverlapsRangeOf(v[c.level + 2], c.inputs0 + c.inputs1, c.grandparents)
        else c.grandparents == [])
    && IsLargest(c.inputs0, c.pointer)
  }

  /** The choice with one change: the lower inputs too are widened to their boundary tables. */
  ghost predicate WidenedChoice(v: Version, c: Compaction) {
    && c.level + 1 < NUM_LEVELS
    && Startable(v, c.level, c.inputs0)
    && Isolated(v[c.level], c.inputs0)
    && WidenedRangeOf(v[c.level + 1], c.inputs0, c.inputs1)
  }

  /** What AddBoundaryInputs makes of the tables that overlap the range of the inputs. */
  ghost predicate WidenedRangeOf(files: seq<File>, inputs: seq<File>, selected: seq<File>) {
    exists base ::
      OverlapsRangeOf(files, inputs, base) && if base == [] then selected == [] else BoundaryClosure(files, base, selected)
  }

  /** What both choices have, and all that the theorems about compactions need of one. */
  ghost predicate Compactable(v: Version, c: Compaction) {
    && c.level + 1 < NUM_LEVELS
    && Startable(v, c.level, c.inputs0)
    && Isolated(v[c.level], c.inputs0)
    && Surrounded(v[c.level + 1], c.inputs0, c.inputs1)
  }

  /** The selected tables and the range of the inputs lie together: what is not selected is before or after all of it. */
  ghost predicate Surrounded(files: seq<File>, inputs: seq<File>, selected: seq<File>) {
    exists a, z :: IsSmallest(inputs, a) && IsLargest(inputs, z) && Parted(files, selected, a, z)
  }

  ghost predicate Parted(files: seq<File>, selected: seq<File>, a: IKey, z: IKey) {
    && (forall f :: f in selected ==> f in files)
    && forall r :: r in files && r !in selected ==> LiesBefore(r, selected, a) || LiesAfter(r, selected, z)
  }

  ghost predicate LiesBefore(r: File, selected: seq<File>, a: IKey) {
    r.largest.key < a.key && forall f :: f in selected ==> Less(r.largest, f.smallest)
  }

  ghost predicate LiesAfter(r: File, selected: seq<File>, z: IKey) {
    z.key < r.smallest.key && forall f :: f in selected ==> Less(f.largest, r.smallest)
  }

  lemma ApartBySide(files: seq<File>, i: nat, k: nat, a: IKey, z: IKey, b: nat)
    requires GoodFiles(files) && LevelSorted(files) && i <= k <= |files| && b < |files|
    requires b < i ==> files[b].largest.key < a.key
    requires b >= k ==> z.key < files[b].smallest.key
    ensures b < i ==> LiesBefore(files[b], files[i..k], a)
    ensures b >= k ==> LiesAfter(files[b], files[i..k], z)
  {
  }

  /** A run of a sorted level, with the rest of the level on the two sides of the range. */
  lemma RunIsParted(files: seq<File>, i: nat, k: nat, a: IKey, z: IKey)
    requires GoodFiles(files) && LevelSorted(files) && i <= k <= |files|
    requires forall b :: 0 <= b < i ==> files[b].largest.key < a.key
    requires forall b :: k <= b < |files| ==> z.key < files[b].smallest.key
    ensures Parted(files, files[i..k], a, z)
  {
    forall r | r in files && r !in files[i..k]
      ensures LiesBefore(r, files[i..k], a) || LiesAfter(r, files[i..k], z)
    {
      var b :| 0 <= b < |files| && files[b] == r;
      InRun(files, i, k, b);
      ApartBySide(files, i, k, a, z, b);
    }
  }

  /** On a sorted level what overlaps a range is a run that parts the level. */
  lemma OverlapIsRun(files: seq<File>, a: IKey, z: IKey) returns (i: nat, j: nat)
    requires GoodFiles(files) && LevelSorted(files) && a.key <= z.key
    ensures i <= j <= |files| && Overlapping(files, Some(a.key), Some(z.key)) == files[i..j]
    ensures i < j ==> (forall b :: 0 <= b < i ==> files[b].largest.key < a.key)
                      && (forall b :: j <= b < |files| ==> z.key < files[b].smallest.key)
  {
    SortedIsConvex(files, Some(a.key), Some(z.key));
    i, j := OverlappingIsRun(files, |files|, Some(a.key), Some(z.key));
    if i < j {
      forall b | 0 <= b < |files|
        ensures b < i ==> files[b].largest.key < a.key
        ensures b >= j ==> z.key < files[b].smallest.key
      {
        BoundsOrdered(files[b]);
        BoundsOrdered(files[i]);
        BoundsOrdered(files[j - 1]);
        assert b < i ==> Less(files[b].largest, files[i].smallest);
        assert b >= j ==> Less(files[j - 1].largest, files[b].smallest);
      }
    }
  }

  lemma NothingOverlaps(files: seq<File>, a: IKey, z: IKey)
    requires Overlapping(files, Some(a.key), Some(z.key)) == []
    ensures Parted(files, [], a, z)
  {
    OverlappingMembers(files, Some(a.key), Some(z.key));
    forall r | r in files
      ensures LiesBefore(r, [], a) || LiesAfter(r, [], z)
    {
      assert r !in Overlapping(files, Some(a.key), Some(z.key));
    }
  }

  lemma SpanIsRange(inputs: seq<File>, a: IKey, z: IKey)
    requires GoodFiles(inputs) && IsSmallest(inputs, a) && IsLargest(inputs, z)
    ensures a.key <= z.key
  {
    var f :| f in inputs && f.smallest == a;
    BoundsOrdered(f);
  }

  lemma ChosenTables(v: Version, level: nat, inputs: seq<File>)
    requires TreeInv(v) && level + 1 < NUM_LEVELS && Startable(v, level, inputs)
    ensures GoodFiles(inputs)
    ensures GoodFiles(v[level + 1]) && LevelSorted(v[level + 1]) && OnePerSequence(LevelEntries(v[level + 1]))
  {
    StartableInLevel(v, level, inputs);
    LevelIsUnique(v, level + 1);
  }

  lemma OverlapIsParted(files: seq<File>, inputs: seq<File>, selected: seq<File>)
    requires GoodFiles(inputs) && GoodFiles(files) && LevelSorted(files) && OverlapsRangeOf(files, inputs, selected)
    ensures Surrounded(files, inputs, selected)
  {
    hide GoodFiles, LevelSorted, IsSmallest, IsLargest, Parted;
    var a, z :| IsSmallest(inputs, a) && IsLargest(inputs, z) && selected == Overlapping(files, Some(a.key), Some(z.key));
    SpanIsRange(inputs, a, z);
    var i, j := OverlapIsRun(files, a, z);
    if i == j {
      NothingOverlaps(files, a, z);
    } else {
      RunIsParted(files, i, j, a, z);
    }
  }

  /** The choice the code makes can be compacted. */
  lemma WellChosenIsCompactable(v: Version, c: Compaction)
    requires TreeInv(v) && WellChosen(v, c)
    ensures Compactable(v, c)
  {
    hide TreeInv, Startable, Isolated, GoodFiles, LevelSorted, Surrounded, OverlapsRangeOf;
    ChosenTables(v, c.level, c.inputs0);
    OverlapIsParted(v[c.level + 1], c.inputs0, c.inputs1);
  }

  /** Widened, the lower inputs are the next tables too, and none behind them continues their last user key. */
  lemma WidenedIsParted(files: seq<File>, inputs: seq<File>, selected: seq<File>)
    requires GoodFiles(inputs) && GoodFiles(files) && LevelSorted(files) && OnePerSequence(LevelEntries(files))
    requires WidenedRangeOf(files, inputs, selected)
    ensures Surrounded(files, inputs, selected) && Isolated(files, selected)
  {
    hide GoodFiles, LevelSorted, IsSmallest, IsLargest, Parted, OnePerSequence, Isolated, BoundaryChain, NoBoundary;
    var base :|
      OverlapsRangeOf(files, inputs, base) && if base == [] then selected == [] else BoundaryClosure(files, base, selected);
    var a, z :| IsSmallest(inputs, a) && IsLargest(inputs, z) && base == Overlapping(files, Some(a.key), Some(z.key));
    SpanIsRange(inputs, a, z);
    if base == [] {
      NothingOverlaps(files, a, z);
      NothingIsIsolated(files);
      return;
    }
    var i, j := OverlapIsRun(files, a, z);
    var start, added :|
      && IsLargest(base, start)
      && selected == base + added
      && BoundaryChain(files, start, added)
      && NoBoundary(files, ChainEnd(start, added));
    RunEndsLargest(files, i, j, start);
    BoundaryChainIsRun(files, j, start, added);
    SlicesJoin(files, i, j, j + |added|);
    RunIsParted(files, i, j + |added|, a, z);
    RunIsIsolated(files, i, j + |added|);
  }

  lemma NothingIsIsolated(files: seq<File>)
    ensures Isolated(files, [])
  {
  }

  lemma WidenedIsCompactable(v: Version, c: Compaction)
    requires TreeInv(v) && WidenedChoice(v, c)
    ensures Compactable(v, c) && Isolated(v[c.level + 1], c.inputs1)
  {
    hide TreeInv, Startable, Isolated, GoodFiles, LevelSorted, Surrounded, WidenedRangeOf, OnePerSequence;
    ChosenTables(v, c.level, c.inputs0);
    WidenedIsParted(v[c.level + 1], c.inputs0, c.inputs1);
  }

  /** Every table of an input set overlaps the range the set spans. */
  lemma SpanOverlaps(inputs: seq<File>, a: IKey, z: IKey, f: File)
    requires IsSmallest(inputs, a) && IsLargest(inputs, z) && f in inputs
    requires GoodFile(f)
    ensures Overlaps(f, Some(a.key), Some(z.key))
  {
    BoundsOrdered(f);
  }

  lemma StartableInLevel(v: Version, level: nat, inputs: seq<File>)
    requires level < NUM_LEVELS && Startable(v, level, inputs)
    ensures forall f :: f in inputs ==> f in v[level]
  {
    if level == 0 {
      var lo, hi :| Closed(v[0], lo, hi) && inputs == Overlapping(v[0], lo, hi);
      OverlappingMembers(v[0], lo, hi);
    }
  }

  /** Searching a level for a range that one of its own tables overlaps gives a startable set holding that table. */
  lemma SearchIsStartable(v: Version, level: nat, lo: Bound, hi: Bound, inputs: seq<File>)
    requires TreeInv(v) && level < NUM_LEVELS
    requires level > 0 ==> inputs == Overlapping(v[level], lo, hi)
    requires level == 0 ==> OverlapClosure(v[0], lo, hi, inputs)
    requires exists f :: f in v[level] && Overlaps(f, lo, hi)
    ensures Startable(v, level, inputs)
    ensures forall f :: f in v[level] && Overlaps(f, lo, hi) ==> f in inputs
  {
    if level == 0 {
      var lo', hi' :| LeastClosed(v[0], lo, hi, lo', hi') && inputs == Overlapping(v[0], lo', hi');
      OverlappingMembers(v[0], lo', hi');
    } else {
      OverlappingMembers(v[level], lo, hi);
      SortedIsConvex(v[level], lo, hi);
      var i, j := OverlappingIsRun(v[level], |v[level]|, lo, hi);
    }
  }

  lemma SearchEmptyIff(v: Version, level: nat, lo: Bound, hi: Bound, inputs: seq<File>)
    requires level < NUM_LEVELS
    requires level > 0 ==> inputs == Overlapping(v[level], lo, hi)
    requires level == 0 ==> OverlapClosure(v[0], lo, hi, inputs)
    ensures inputs == [] <==> forall f :: f in v[level] ==> !Overlaps(f, lo, hi)
  {
    OverlappingMembers(v[level], lo, hi);
    assert inputs != [] ==> inputs[0] in inputs;
    if level == 0 {
      var lo', hi' :| LeastClosed(v[0], lo, hi, lo', hi') && inputs == Overlapping(v[0], lo', hi');
      OverlappingMembers(v[0], lo', hi');
      if forall f :: f in v[0] ==> !Overlaps(f, lo, hi) {
        assert Closed(v[0], lo, hi) && Widens(lo, hi, lo, hi);
        assert lo' == lo && hi' == hi;
      }
    }
  }

  lemma PrefixOfRun(files: seq<File>, inputs: seq<File>, n: nat)
    requires IsRun(files, inputs) && 0 < n <= |inputs|
    ensures IsRun(files, inputs[..n])
  {
    var i, j :| 0 <= i < j <= |files| && inputs == files[i..j];
    assert inputs[..n] == files[i..i + n];
  }

  lemma StartablePrefix(v: Version, level: nat, inputs: seq<File>, n: nat)
    requires 0 < level < NUM_LEVELS && Startable(v, level, inputs) && 0 < n <= |inputs|
    ensures Startable(v, level, inputs[..n])
  {
    PrefixOfRun(v[level], inputs, n);
  }

  lemma {:induction false} NarrowerSelectsFewer(files: seq<File>, n: nat, lo: Bound, hi: Bound, lo': Bound, hi': Bound)
    requires n <= |files|
    requires forall f :: f in files && Overlaps(f, lo, hi) ==> Overlaps(f, lo', hi')
    ensures |OverlappingFirst(files, n, lo, hi)| <= |OverlappingFirst(files, n, lo', hi')|
    ensures |OverlappingFirst(files, n, lo, hi)| == |OverlappingFirst(files, n, lo', hi')| ==>
              OverlappingFirst(files, n, lo, hi) == OverlappingFirst(files, n, lo', hi')
  {
    if n > 0 {
      NarrowerSelectsFewer(files, n - 1, lo, hi, lo', hi');
    }
  }

  lemma SpanWidens(inputs: seq<File>, wider: seq<File>, a: IKey, z: IKey, a': IKey, z': IKey)
    requires forall f :: f in inputs ==> f in wider
    requires IsSmallest(inputs, a) && IsLargest(inputs, z) && IsSmallest(wider, a') && IsLargest(wider, z')
    ensures a'.key <= a.key && z.key <= z'.key
  {
    var f :| f in inputs && f.smallest == a;
    var g :| g in inputs && g.largest == z;
    assert AtMost(a', f.smallest) && AtMost(g.largest, z');
  }

  /** A larger input set that overlaps as many tables one level down overlaps the same ones. */
  lemma SameCountSameTables(files: seq<File>, inputs: seq<File>, wider: seq<File>, selected: seq<File>, selected': seq<File>)
    requires forall f :: f in inputs ==> f in wider
    requires OverlapsRangeOf(files, inputs, selected) && OverlapsRangeOf(files, wider, selected')
    requires |selected| == |selected'|
    ensures selected == selected'
  {
    var a, z :| IsSmallest(inputs, a) && IsLargest(inputs, z) && selected == Overlapping(files, Some(a.key), Some(z.key));
    var a', z' :| IsSmallest(wider, a') && IsLargest(wider, z') && selected' == Overlapping(files, Some(a'.key), Some(z'.key));
    SpanWidens(inputs, wider, a, z, a', z');
    hide IsSmallest, IsLargest;
    NarrowerSelectsFewer(files, |files|, Some(a.key), Some(z.key), Some(a'.key), Some(z'.key));
  }

  lemma LevelsAreGood(v: Version)
    requires TreeInv(v)
    ensures forall l :: 0 <= l < NUM_LEVELS ==> GoodFiles(v[l])
  {
  }

  lemma SpanIncludes(v: Version, level: nat, inputs: seq<File>, all: seq<File>, a: IKey, z: IKey)
    requires level < NUM_LEVELS && GoodFiles(v[level]) && Startable(v, level, inputs)
    requires inputs <= all && IsSmallest(all, a) && IsLargest(all, z)
    ensures forall f :: f in inputs ==> f in v[level] && Overlaps(f, Some(a.key), Some(z.key))
    ensures exists f :: f in v[level] && Overlaps(f, Some(a.key), Some(z.key))
  {
    StartableInLevel(v, level, inputs);
    forall f | f in inputs
      ensures f in v[level] && Overlaps(f, Some(a.key), Some(z.key))
    {
      SpanOverlaps(all, a, z, f);
    }
    assert inputs[0] in inputs;
  }

  // ---------------------------------------------------------------- inputs without gaps

  ghost predicate Reached(files: seq<File>, u: UserKey) {
    exists f :: f in files && CoversKey(f, u)
  }

  /** Whatever key lies between two of the tables is in the range of one of them. */
  ghost predicate Joined(files: seq<File>) {
    forall f, g, u :: f in files && g in files && f.smallest.key <= u <= g.largest.key ==> Reached(files, u)
  }

  ghost predicate Union(files: seq<File>, more: seq<File>, all: seq<File>) {
    forall f :: f in all <==> f in files || f in more
  }

  /** The table overlaps the range that the tables span. */
  ghost predicate Touches(files: seq<File>, g: File) {
    exists a, b :: a in files && b in files && a.smallest.key <= g.largest.key && g.smallest.key <= b.largest.key
  }

  lemma ReachedByMore(files: seq<File>, all: seq<File>, u: UserKey)
    requires Reached(files, u) && forall f :: f in files ==> f in all
    ensures Reached(all, u)
  {
  }

  lemma JoinedGrows(files: seq<File>, more: seq<File>, all: seq<File>)
    requires Joined(files) && Union(files, more, all) && forall g :: g in more ==> Touches(files, g)
    ensures Joined(all)
  {
    forall f, g, u | f in all && g in all && f.smallest.key <= u <= g.largest.key
      ensures Reached(all, u)
    {
      if CoversKey(f, u) {
      } else if CoversKey(g, u) {
      } else {
        var a := StartsBefore(files, f, u);
        var b := EndsAfter(files, g, u);
        JoinedAt(files, a, b, u);
        ReachedByMore(files, all, u);
      }
    }
  }

  lemma JoinedAt(files: seq<File>, a: File, b: File, u: UserKey)
    requires Joined(files) && a in files && b in files && a.smallest.key <= u <= b.largest.key
    ensures Reached(files, u)
  {
  }

  lemma StartsBefore(files: seq<File>, f: File, u: UserKey) returns (a: File)
    requires (f in files || Touches(files, f)) && f.smallest.key <= u && !CoversKey(f, u)
    ensures a in files && a.smallest.key <= u
  {
    if f in files {
      a := f;
    } else {
      var x, y :| x in files && y in files && x.smallest.key <= f.largest.key && f.smallest.key <= y.largest.key;
      a := x;
    }
  }

  lemma EndsAfter(files: seq<File>, g: File, u: UserKey) returns (b: File)
    requires (g in files || Touches(files, g)) && u <= g.largest.key && !CoversKey(g, u)
    ensures b in files && u <= b.largest.key
  {
    if g in files {
      b := g;
    } else {
      var x, y :| x in files && y in files && x.smallest.key <= g.largest.key && g.smallest.key <= y.largest.key;
      b := y;
    }
  }

  lemma OneIsJoined(f: File)
    ensures Joined([f])
  {
    assert forall u :: f.smallest.key <= u <= f.largest.key ==> CoversKey(f, u);
  }

  /** The tables that overlap the span of joined tables leave no gap either. */
  lemma OverlappingJoins(files: seq<File>, inputs: seq<File>, a: IKey, z: IKey, all: seq<File>)
    requires Joined(inputs) && IsSmallest(inputs, a) && IsLargest(inputs, z)
    requires Union(inputs, Overlapping(files, Some(a.key), Some(z.key)), all)
    ensures Joined(all)
  {
    hide Joined;
    var more := Overlapping(files, Some(a.key), Some(z.key));
    OverlappingMembers(files, Some(a.key), Some(z.key));
    hide Overlapping;
    var f :| f in inputs && f.smallest == a;
    var g :| g in inputs && g.largest == z;
    assert forall h :: h in more ==> Touches(inputs, h);
    JoinedGrows(inputs, more, all);
  }

  /** The greatest of z and the largest keys below u. */
  ghost function MostBelow(files: seq<File>, z: UserKey, u: UserKey): UserKey {
    if files == [] then z
    else
      var k, rest := files[0].largest.key, MostBelow(files[1..], z, u);
      if rest < k < u then k else rest
  }

  lemma {:induction false} MostBelowBounds(files: seq<File>, z: UserKey, u: UserKey)
    requires z < u
    ensures z <= MostBelow(files, z, u) < u
    ensures forall f :: f in files && f.largest.key < u ==> f.largest.key <= MostBelow(files, z, u)
  {
    if files != [] {
      MostBelowBounds(files[1..], z, u);
      assert forall f :: f in files ==> f == files[0] || f in files[1..];
    }
  }

  /** The least of a and the smallest keys above u. */
  ghost function LeastAbove(files: seq<File>, a: UserKey, u: UserKey): UserKey {
    if files == [] then a
    else
      var k, rest := files[0].smallest.key, LeastAbove(files[1..], a, u);
      if u < k < rest then k else rest
  }

  lemma {:induction false} LeastAboveBounds(files: seq<File>, a: UserKey, u: UserKey)
    requires u < a
    ensures u < LeastAbove(files, a, u) <= a
    ensures forall f :: f in files && f.smallest.key > u ==> f.smallest.key >= LeastAbove(files, a, u)
  {
    if files != [] {
      LeastAboveBounds(files[1..], a, u);
      assert forall f :: f in files ==> f == files[0] || f in files[1..];
    }
  }

  /** The least closed range has no gap above the range it was found from: the tables before the gap would be closed. */
  lemma NoGapAbove(files: seq<File>, a: UserKey, z: UserKey, lo: Bound, hi: Bound, u: UserKey)
    requires GoodFiles(files) && LeastClosed(files, Some(a), Some(z), lo, hi) && z < u <= hi.value
    ensures exists f :: f in files && Overlaps(f, lo, hi) && CoversKey(f, u)
  {
    if forall f :: f in files && Overlaps(f, lo, hi) ==> !CoversKey(f, u) {
      ClosedBeforeGap(files, z, lo, hi, u);
      assert false;
    }
  }

  lemma ClosedBeforeGap(files: seq<File>, z: UserKey, lo: Bound, hi: Bound, u: UserKey)
    requires GoodFiles(files) && Closed(files, lo, hi) && hi.Some? && z < u <= hi.value
    requires forall f :: f in files && Overlaps(f, lo, hi) ==> !CoversKey(f, u)
    ensures z <= MostBelow(files, z, u) < u && Closed(files, lo, Some(MostBelow(files, z, u)))
  {
    hide MostBelow;
    var h := MostBelow(files, z, u);
    MostBelowBounds(files, z, u);
    forall f | f in files && Overlaps(f, lo, Some(h))
      ensures Inside(f, lo, Some(h))
    {
      BoundsOrdered(f);
      assert Overlaps(f, lo, hi);
    }
  }

  lemma NoGapBelow(files: seq<File>, a: UserKey, z: UserKey, lo: Bound, hi: Bound, u: UserKey)
    requires GoodFiles(files) && LeastClosed(files, Some(a), Some(z), lo, hi) && lo.value <= u < a
    ensures exists f :: f in files && Overlaps(f, lo, hi) && CoversKey(f, u)
  {
    if forall f :: f in files && Overlaps(f, lo, hi) ==> !CoversKey(f, u) {
      ClosedAfterGap(files, a, lo, hi, u);
      assert false;
    }
  }

  lemma ClosedAfterGap(files: seq<File>, a: UserKey, lo: Bound, hi: Bound, u: UserKey)
    requires GoodFiles(files) && Closed(files, lo, hi) && lo.Some? && lo.value <= u < a
    requires forall f :: f in files && Overlaps(f, lo, hi) ==> !CoversKey(f, u)
    ensures u < LeastAbove(files, a, u) <= a && Closed(files, Some(LeastAbove(files, a, u)), hi)
  {
    hide LeastAbove;
    var l := LeastAbove(files, a, u);
    LeastAboveBounds(files, a, u);
    forall f | f in files && Overlaps(f, Some(l), hi)
      ensures Inside(f, Some(l), hi)
    {
      BoundsOrdered(f);
      assert Overlaps(f, lo, hi);
    }
  }

  /** Nor do the tables of the least closed range around the span. */
  lemma ClosureJoins(files: seq<File>, inputs: seq<File>, a: IKey, z: IKey, found: seq<File>, all: seq<File>)
    requires GoodFiles(files) && Joined(inputs) && IsSmallest(inputs, a) && IsLargest(inputs, z)
    requires OverlapClosure(files, Some(a.key), Some(z.key), found) && Union(inputs, found, all)
    ensures Joined(all)
  {
    hide GoodFiles, Reached;
    var lo, hi :| LeastClosed(files, Some(a.key), Some(z.key), lo, hi) && found == Overlapping(files, lo, hi);
    OverlappingMembers(files, lo, hi);
    hide LeastClosed, Overlapping;
    ClosedFacts(files, a.key, z.key, lo, hi);
    var first :| first in inputs && first.smallest == a;
    var last :| last in inputs && last.largest == z;
    forall f, g, u | f in all && g in all && f.smallest.key <= u <= g.largest.key
      ensures Reached(all, u)
    {
      WithinRange(inputs, a, z, lo, hi, f);
      WithinRange(inputs, a, z, lo, hi, g);
      if u > z.key {
        NoGapAbove(files, a.key, z.key, lo, hi, u);
        var h :| h in files && Overlaps(h, lo, hi) && CoversKey(h, u);
        IsReached(all, h, u);
      } else if u < a.key {
        NoGapBelow(files, a.key, z.key, lo, hi, u);
        var h :| h in files && Overlaps(h, lo, hi) && CoversKey(h, u);
        IsReached(all, h, u);
      } else {
        JoinedAt(inputs, first, last, u);
        ReachedByMore(inputs, all, u);
      }
    }
  }

  lemma IsReached(all: seq<File>, h: File, u: UserKey)
    requires h in all && CoversKey(h, u)
    ensures Reached(all, u)
  {
  }

  lemma ClosedFacts(files: seq<File>, a: UserKey, z: UserKey, lo: Bound, hi: Bound)
    requires LeastClosed(files, Some(a), Some(z), lo, hi)
    ensures lo.Some? && hi.Some? && lo.value <= a && z <= hi.value
    ensures forall f :: f in files && Overlaps(f, lo, hi) ==> Inside(f, lo, hi)
  {
  }

  lemma WithinRange(inputs: seq<File>, a: IKey, z: IKey, lo: Bound, hi: Bound, f: File)
    requires IsSmallest(inputs, a) && IsLargest(inputs, z) && lo.Some? && hi.Some? && lo.value <= a.key && z.key <= hi.value
    requires f in inputs || Inside(f, lo, hi)
    ensures lo.value <= f.smallest.key && f.largest.key <= hi.value
  {
  }

  /** Each boundary table shares a key with the tables before it. */
  lemma {:induction false} ChainJoins(files: seq<File>, inputs: seq<File>, others: seq<File>, start: IKey, added: seq<File>)
    requires GoodFiles(files) && GoodFiles(inputs) && Joined(inputs + others)
    requires IsLargest(inputs, start) && BoundaryChain(files, start, added)
    ensures Joined(inputs + added + others) && IsLargest(inputs + added, ChainEnd(start, added)) && GoodFiles(inputs + added)
    decreases |added|
  {
    hide Joined, IsLargest, GoodFile;
    if added == [] {
      assert inputs + added == inputs;
    } else {
      var before, f := added[..|added| - 1], added[|added| - 1];
      var key := ChainEnd(start, before);
      ChainJoins(files, inputs, others, start, before);
      LargestGrows(inputs + before, key, f);
      assert inputs + before + [f] == inputs + added;
      SharesKey(inputs + before, others, key, f);
      JoinedGrows(inputs + before + others, [f], inputs + added + others);
    }
  }

  lemma SharesKey(inputs: seq<File>, others: seq<File>, key: IKey, f: File)
    requires GoodFiles(inputs) && IsLargest(inputs, key) && IsBoundary(f, key) && GoodFile(f)
    ensures Touches(inputs + others, f)
  {
    BoundsOrdered(f);
    var g :| g in inputs && g.largest == key;
    BoundsOrdered(g);
    assert g in inputs + others;
  }

  lemma BoundaryJoins(files: seq<File>, inputs: seq<File>, others: seq<File>, result: seq<File>)
    requires GoodFiles(files) && GoodFiles(inputs) && Joined(inputs + others) && BoundaryClosure(files, inputs, result)
    ensures Joined(result + others)
  {
    hide Joined, GoodFiles;
    var start, added :|
      && IsLargest(inputs, start)
      && result == inputs + added
      && BoundaryChain(files, start, added)
      && NoBoundary(files, ChainEnd(start, added));
    ChainJoins(files, inputs, others, start, added);
  }

  /** What a search of a level for the tables in a range finds. */
  ghost predicate Search(v: Version, level: nat, lo: Bound, hi: Bound, found: seq<File>)
    requires level < NUM_LEVELS
  {
    if level == 0 then OverlapClosure(v[0], lo, hi, found) else found == Overlapping(v[level], lo, hi)
  }

  /** The tables of the level in the whole range of the inputs of both levels, with their boundary tables. */
  ghost predicate Expansion(v: Version, level: nat, inputs0: seq<File>, inputs1: seq<File>, expanded: seq<File>)
    requires level < NUM_LEVELS
  {
    exists a, z, found ::
      && IsSmallest(inputs0 + inputs1, a) && IsLargest(inputs0 + inputs1, z)
      && Search(v, level, Some(a.key), Some(z.key), found)
      && BoundaryClosure(v[level], found, expanded)
  }

  /** All upper-level tables in the range of the whole compaction, with their boundary tables. */
  method ExpandInputs(v: Version, level: nat, inputs0: seq<File>, inputs1: seq<File>) returns (expanded: seq<File>)
    requires TreeInv(v) && level < NUM_LEVELS && Startable(v, level, inputs0)
    ensures Expansion(v, level, inputs0, inputs1, expanded)
    ensures Startable(v, level, expanded) && Isolated(v[level], expanded)
    ensures forall f :: f in inputs0 ==> f in expanded
    ensures Joined(inputs0 + inputs1) ==> Joined(expanded + inputs1)
  {
    hide Startable, Isolated, TreeInv, BoundaryClosure, OverlapClosure, IsSmallest, IsLargest, GoodFiles, Joined;
    LevelsAreGood(v);
    assert inputs0 != [] by { StartableNonempty(v, level, inputs0); }
    var start, limit := GetRange(inputs0 + inputs1);
    SpanIncludes(v, level, inputs0, inputs0 + inputs1, start, limit);
    var found := GetOverlappingInputs(v, level, Some(start.key), Some(limit.key));
    SearchIsStartable(v, level, Some(start.key), Some(limit.key), found);
    StartableNonempty(v, level, found);
    expanded := AddBoundaryInputs(v[level], found);
    BoundaryClosureKeeps(v[level], found, expanded);
    AfterBoundary(v, level, found, expanded);
    assert Search(v, level, Some(start.key), Some(limit.key), found);
    if Joined(inputs0 + inputs1) {
      SearchJoins(v, level, inputs0, inputs1, start, limit, found);
      BoundaryJoins(v[level], found, inputs1, expanded);
    }
  }

  lemma SearchJoins(v: Version, level: nat, inputs0: seq<File>, inputs1: seq<File>, a: IKey, z: IKey, found: seq<File>)
    requires TreeInv(v) && level < NUM_LEVELS && Joined(inputs0 + inputs1)
    requires IsSmallest(inputs0 + inputs1, a) && IsLargest(inputs0 + inputs1, z)
    requires level > 0 ==> found == Overlapping(v[level], Some(a.key), Some(z.key))
    requires level == 0 ==> OverlapClosure(v[0], Some(a.key), Some(z.key), found)
    requires Startable(v, level, found) && forall f :: f in inputs0 ==> f in found
    ensures Joined(found + inputs1) && GoodFiles(found)
  {
    hide Joined, IsSmallest, IsLargest, TreeInv, Startable, OverlapClosure, GoodFile, Overlapping;
    LevelsAreGood(v);
    StartableInLevel(v, level, found);
    assert Union(inputs0 + inputs1, found, found + inputs1);
    if level == 0 {
      ClosureJoins(v[0], inputs0 + inputs1, a, z, found, found + inputs1);
    } else {
      OverlappingJoins(v[level], inputs0 + inputs1, a, z, found + inputs1);
    }
  }

  lemma StartableNonempty(v: Version, level: nat, inputs: seq<File>)
    requires level < NUM_LEVELS && Startable(v, level, inputs)
    ensures inputs != []
  {
  }

  lemma BoundaryClosureKeeps(files: seq<File>, inputs: seq<File>, result: seq<File>)
    requires BoundaryClosure(files, inputs, result)
    ensures forall f :: f in inputs ==> f in result
  {
  }

  /** The expansion is taken exactly if it has more tables, the total stays under 25 target file sizes, and it overlaps
      no further lower tables. */
  ghost predicate GrownTo(v: Version, level: nat, inputs0: seq<File>, inputs1: seq<File>, maxFileSize: nat, grown: seq<File>)
    requires level + 1 < NUM_LEVELS
  {
    if inputs1 == [] then grown == inputs0
    else
      exists expanded ::
        && Expansion(v, level, inputs0, inputs1, expanded)
        && if |expanded| > |inputs0| && TotalFileSize(inputs1) + TotalFileSize(expanded) < 25 * maxFileSize then
             exists more ::
               OverlapsRangeOf(v[level + 1], expanded, more) && grown == if |more| == |inputs1| then expanded else inputs0
           else grown == inputs0
  }

  /** Takes more upper-level tables when that costs no further lower-level table. */
  method GrowInputs(v: Version, level: nat, inputs0: seq<File>, inputs1: seq<File>, maxFileSize: nat)
    returns (grown: seq<File>)
    requires TreeInv(v) && level + 1 < NUM_LEVELS
    requires Startable(v, level, inputs0) && Isolated(v[level], inputs0)
    requires OverlapsRangeOf(v[level + 1], inputs0, inputs1)
    ensures Startable(v, level, grown) && Isolated(v[level], grown)
    ensures OverlapsRangeOf(v[level + 1], grown, inputs1)
    ensures forall f :: f in inputs0 ==> f in grown
    ensures GrownTo(v, level, inputs0, inputs1, maxFileSize, grown)
    ensures Joined(inputs0 + inputs1) ==> Joined(grown + inputs1)
  {
    hide Startable, Isolated, TreeInv, IsSmallest, IsLargest, GoodFiles, Joined;
    LevelsAreGood(v);
    grown := inputs0;
    if inputs1 != [] {
      var expanded0 := ExpandInputs(v, level, inputs0, inputs1);
      if |expanded0| > |inputs0| && TotalFileSize(inputs1) + TotalFileSize(expanded0) < 25 * maxFileSize {
        var newStart, newLimit := GetRange(expanded0);
        var expanded1 := GetOverlappingInputs(v, level + 1, Some(newStart.key), Some(newLimit.key));
        assert OverlapsRangeOf(v[level + 1], expanded0, expanded1);
        if |expanded1| == |inputs1| {
          SameCountSameTables(v[level + 1], inputs0, expanded0, inputs1, expanded1);
          grown := expanded0;
        }
      }
    }
  }

  /** The tables two levels down that the whole compaction overlaps. */
  method FindGrandparents(v: Version, level: nat, inputs0: seq<File>, inputs1: seq<File>) returns (grandparents: seq<File>)
    requires TreeInv(v) && inputs0 != []
    ensures if level + 2 < NUM_LEVELS
            then OverlapsRangeOf(v[level + 2], inputs0 + inputs1, grandparents)
            else grandparents == []
  {
    hide TreeInv, IsSmallest, IsLargest, GoodFiles;
    LevelsAreGood(v);
    var allStart, allLimit := GetRange(inputs0 + inputs1);
    grandparents := [];
    if level + 2 < NUM_LEVELS {
      grandparents := GetOverlappingInputs(v, level + 2, Some(allStart.key), Some(allLimit.key));
    }
  }

  /** What the inputs to start with are completed to. */
  ghost predicate SetUp(v: Version, level: nat, inputs: seq<File>, maxFileSize: nat, c: Compaction)
    requires level + 1 < NUM_LEVELS
  {
    exists base ::
      && BoundaryClosure(v[level], inputs, base)
      && OverlapsRangeOf(v[level + 1], base, c.inputs1)
      && GrownTo(v, level, base, c.inputs1, maxFileSize, c.inputs0)
  }

  /** SetupOtherInputs. The upper inputs grow whenever that is allowed, and doing so never changes what is read from the
      lower level. */
  method SetupOtherInputs(v: Version, level: nat, inputs: seq<File>, maxFileSize: nat) returns (c: Compaction)
    requires TreeInv(v) && level + 1 < NUM_LEVELS && Startable(v, level, inputs)
    ensures c.level == level && WellChosen(v, c)
    ensures forall f :: f in inputs ==> f in c.inputs0
    ensures SetUp(v, level, inputs, maxFileSize, c)
    ensures Joined(inputs) ==> Joined(c.inputs0 + c.inputs1)
  {
    hide Startable, Isolated, TreeInv, BoundaryClosure, IsSmallest, IsLargest, GoodFiles, GrownTo, Joined;
    LevelsAreGood(v);
    StartableNonempty(v, level, inputs);
    var base := AddBoundaryInputs(v[level], inputs);
    AfterBoundary(v, level, inputs, base);
    BoundaryClosureKeeps(v[level], inputs, base);
    StartableNonempty(v, level, base);
    var smallest, largest := GetRange(base);
    var inputs1 := GetOverlappingInputs(v, level + 1, Some(smallest.key), Some(largest.key));
    assert OverlapsRangeOf(v[level + 1], base, inputs1);
    if Joined(inputs) {
      BaseJoins(v, level, inputs, base, smallest, largest, inputs1);
    }
    var inputs0 := GrowInputs(v, level, base, inputs1, maxFileSize);
    StartableNonempty(v, level, inputs0);
    smallest, largest := GetRange(inputs0);
    var grandparents := FindGrandparents(v, level, inputs0, inputs1);
    c := Compaction(level, inputs0, inputs1, grandparents, largest);
  }

  lemma BaseJoins(v: Version, level: nat, inputs: seq<File>, base: seq<File>, a: IKey, z: IKey, inputs1: seq<File>)
    requires TreeInv(v) && level + 1 < NUM_LEVELS && Startable(v, level, inputs) && Joined(inputs)
    requires BoundaryClosure(v[level], inputs, base) && IsSmallest(base, a) && IsLargest(base, z)
    requires inputs1 == Overlapping(v[level + 1], Some(a.key), Some(z.key))
    ensures Joined(base + inputs1)
  {
    hide Joined, IsSmallest, IsLargest, TreeInv, Startable, GoodFile, Overlapping, BoundaryClosure;
    LevelsAreGood(v);
    StartableInLevel(v, level, inputs);
    assert inputs + [] == inputs && base + [] == base;
    BoundaryJoins(v[level], inputs, [], base);
    OverlappingJoins(v[level + 1], base, a, z, base + inputs1);
  }

  // ---------------------------------------------------------------- PickCompaction, CompactRange

  datatype Trigger = NoTrigger | Size(level: nat) | Seek(level: nat, file: File)

  ghost predicate PastPointer(pointer: Option<IKey>, f: File) {
    pointer.None? || Less(pointer.value, f.largest)
  }

  /** The first table past the compaction pointer, wrapping around to the first of the level. */
  ghost predicate NextInTurn(files: seq<File>, pointer: Option<IKey>, f: File) {
    exists i :: 0 <= i < |files| && f == files[i]
                && (PastPointer(pointer, f) || i == 0)
                && forall j :: 0 <= j < (if PastPointer(pointer, f) then i else |files|) ==> !PastPointer(pointer, files[j])
  }

  ghost predicate Triggers(v: Version, trigger: Trigger, pointers: seq<Option<IKey>>, f: File)
    requires |pointers| == NUM_LEVELS
  {
    match trigger
    case NoTrigger => false
    case Size(level) => level < NUM_LEVELS && NextInTurn(v[level], pointers[level], f)
    case Seek(level, file) => f == file
  }

  /** The tables of a sorted level take turns: when the pointer is where the last compaction of one of them ended, the
      next one is picked, and after the last one the first. */
  lemma TablesTakeTurns(files: seq<File>, i: nat, f: File)
    requires GoodFiles(files) && LevelSorted(files) && i < |files| && NextInTurn(files, Some(files[i].largest), f)
    ensures f == files[if i + 1 < |files| then i + 1 else 0]
  {
    forall k | 0 <= k < |files|
      ensures PastPointer(Some(files[i].largest), files[k]) <==> i < k
    {
      BoundsOrdered(files[k]);
      BoundsOrdered(files[i]);
    }
    hide PastPointer, LevelSorted, GoodFiles;
    var j :| 0 <= j < |files| && f == files[j]
             && (PastPointer(Some(files[i].largest), f) || j == 0)
             && forall k :: 0 <= k < (if PastPointer(Some(files[i].largest), f) then j else |files|)
                            ==> !PastPointer(Some(files[i].largest), files[k]);
  }

  method PickFile(files: seq<File>, pointer: Option<IKey>) returns (f: File)
    requires files != []
    ensures f in files && NextInTurn(files, pointer, f)
  {
    for i := 0 to |files|
      invariant forall j :: 0 <= j < i ==> !PastPointer(pointer, files[j])
    {
      if pointer.None? || Less(pointer.value, files[i].largest) {
        return files[i];
      }
    }
    return files[0];
  }

  /** The table alone is completed, or at level 0 the tables of the least closed range around it. */
  ghost predicate PickedFrom(v: Version, level: nat, f: File, maxFileSize: nat, c: Compaction)
    requires level + 1 < NUM_LEVELS
  {
    exists inputs ::
      && (if level == 0 then OverlapClosure(v[0], Some(f.smallest.key), Some(f.largest.key), inputs) else inputs == [f])
      && SetUp(v, level, inputs, maxFileSize, c)
  }

  /** PickCompaction: the triggered table is compacted, with everything that has to go with it. */
  method PickCompaction(v: Version, trigger: Trigger, pointers: seq<Option<IKey>>, maxFileSize: nat)
    returns (c: Option<Compaction>)
    requires TreeInv(v) && |pointers| == NUM_LEVELS
    requires trigger.Size? ==> trigger.level + 1 < NUM_LEVELS && v[trigger.level] != []
    requires trigger.Seek? ==> trigger.level + 1 < NUM_LEVELS && trigger.file in v[trigger.level]
    ensures c.None? <==> trigger.NoTrigger?
    ensures c.Some? ==> c.value.level == trigger.level && WellChosen(v, c.value)
    ensures c.Some? ==> exists f :: f in c.value.inputs0 && Triggers(v, trigger, pointers, f)
                                    && PickedFrom(v, trigger.level, f, maxFileSize, c.value)
    ensures c.Some? ==> Joined(c.value.inputs0 + c.value.inputs1)
  {
    hide Joined, WellChosen, SetUp;
    if trigger.NoTrigger? {
      return None;
    }
    var level := trigger.level;
    var f;
    if trigger.Size? {
      f := PickFile(v[level], pointers[level]);
    } else {
      f := trigger.file;
    }
    assert Triggers(v, trigger, pointers, f);
    var inputs := [f];
    OneIsJoined(f);
    if level == 0 {
      var smallest, largest := GetRange(inputs);
      assert smallest == f.smallest && largest == f.largest;
      inputs := GetOverlappingInputs(v, 0, Some(smallest.key), Some(largest.key));
      SpanOverlaps([f], smallest, largest, f);
      SearchIsStartable(v, 0, Some(smallest.key), Some(largest.key), inputs);
      ClosureJoins(v[0], [f], smallest, largest, inputs, inputs);
    } else {
      var i :| 0 <= i < |v[level]| && v[level][i] == f;
      assert inputs == v[level][i..i + 1];
    }
    assert f in inputs;
    var setup := SetupOtherInputs(v, level, inputs, maxFileSize);
    assert PickedFrom(v, level, f, maxFileSize, setup);
    return Some(setup);
  }

  /** How many inputs CompactRange takes before their total reaches the limit. */
  method SizeLimitedPrefix(inputs: seq<File>, limit: nat) returns (n: nat)
    requires inputs != []
    ensures 0 < n <= |inputs|
    ensures n == |inputs| || TotalFileSize(inputs[..n]) >= limit
    ensures n > 1 ==> TotalFileSize(inputs[..n - 1]) < limit
  {
    var total := 0;
    n := 0;
    while n < |inputs|
      invariant 0 <= n <= |inputs|
      invariant total == TotalFileSize(inputs[..n])
      invariant n > 0 ==> total < limit
      invariant n > 1 ==> TotalFileSize(inputs[..n - 1]) < limit
    {
      TotalGrows(inputs, n);
      total := total + inputs[n].size;
      n := n + 1;
      if total >= limit {
        break;
      }
    }
  }

  lemma {:induction false} TotalGrows(files: seq<File>, n: nat)
    requires n < |files|
    ensures TotalFileSize(files[..n + 1]) == TotalFileSize(files[..n]) + files[n].size
    decreases n
  {
    if n > 0 {
      TotalGrows(files[1..], n - 1);
      assert files[..n + 1][1..] == files[1..][..n];
      assert files[..n][1..] == files[1..][..n - 1];
    }
  }

  /** At level 0 all that the search finds; at other levels as many from the front as it takes to reach the limit. */
  ghost predicate RangeInputs(v: Version, level: nat, begin: Bound, end: Bound, limit: nat, inputs: seq<File>)
    requires level < NUM_LEVELS
  {
    if level == 0 then OverlapClosure(v[0], begin, end, inputs)
    else
      var found := Overlapping(v[level], begin, end);
      && 0 < |inputs| <= |found| && inputs == found[..|inputs|]
      && (|inputs| == |found| || TotalFileSize(inputs) >= limit)
      && (|inputs| > 1 ==> TotalFileSize(inputs[..|inputs| - 1]) < limit)
  }

  /** CompactRange: nothing to do exactly when no table overlaps the range; at level 0 every
      overlapping table takes part. */
  method CompactRange(v: Version, level: nat, begin: Bound, end: Bound, maxFileSize: nat) returns (c: Option<Compaction>)
    requires TreeInv(v) && level + 1 < NUM_LEVELS
    ensures c.None? <==> forall f :: f in v[level] ==> !Overlaps(f, begin, end)
    ensures c.Some? ==> c.value.level == level && WellChosen(v, c.value)
    ensures c.Some? ==> exists inputs :: RangeInputs(v, level, begin, end, maxFileSize, inputs)
                                         && SetUp(v, level, inputs, maxFileSize, c.value)
    ensures c.Some? && level == 0 ==> forall f :: f in v[0] && Overlaps(f, begin, end) ==> f in c.value.inputs0
    ensures c.Some? && level > 0 ==>
              Overlapping(v[level], begin, end) != [] && Overlapping(v[level], begin, end)[0] in c.value.inputs0
  {
    hide Startable, TreeInv, WellChosen, GoodFiles, BoundaryClosure, OverlapClosure, OverlapsRangeOf, TotalFileSize, SetUp;
    LevelsAreGood(v);
    var inputs := GetOverlappingInputs(v, level, begin, end);
    SearchEmptyIff(v, level, begin, end, inputs);
    if inputs == [] {
      return None;
    }
    SearchIsStartable(v, level, begin, end, inputs);
    if level > 0 {
      var n := SizeLimitedPrefix(inputs, maxFileSize);
      StartablePrefix(v, level, inputs, n);
      assert inputs[0] in inputs[..n];
      assert inputs[..n][..n - 1] == inputs[..n - 1];
      inputs := inputs[..n];
    }
    assert RangeInputs(v, level, begin, end, maxFileSize, inputs);
    var setup := SetupOtherInputs(v, level, inputs, maxFileSize);
    return Some(setup);
  }
}
