/**
 What a database iterator runs over (DBImpl::NewInternalIterator in db/db_impl.cc and
 Version::AddIterators in db/version_set.cc): memtable, immutable memtable, level-0 tables
 one by one and each deeper level as a whole, merged. Moved either way, the merging iterator
 walks the sorted run of everything stored, so what the database iterator shows of it is
 what the user wrote.
 */
module DbScan {
  import opened InternalKeys
  import opened Visibility
  import opened Versions
  import opened CompactionWork
  import opened VersionSteps
  import opened Database
  import opened WriteSteps
  import Runs
  import InputMerge
  import Merger
  import DbIterator
  import Engine
  import CompactionInputs

  // ---------------------------------------------------------------- the children

  /** AddIterators, for the levels from level on. */
  function LevelParts(v: Version, level: nat): seq<seq<Entry>>
    requires level <= NUM_LEVELS
    decreases NUM_LEVELS - level
  {
    if level == NUM_LEVELS then [] else InputMerge.Part(level, v[level]) + LevelParts(v, level + 1)
  }

  function Children(mem: seq<Entry>, imm: Option<seq<Entry>>, v: Version): seq<seq<Entry>> {
    ([mem] + if imm.Some? then [imm.value] else []) + LevelParts(v, 0)
  }

  /** The runs the two memtables are walked in. */
  ghost predicate MemRuns(db: Db, mem: seq<Entry>, imm: Option<seq<Entry>>) {
    && Sorted(mem) && EntrySet(mem) == db.mem
    && (imm.Some? <==> db.imm.Some?) && (imm.Some? ==> Sorted(imm.value) && EntrySet(imm.value) == db.imm.value)
  }

  /** What holds of the tables, as far as iterators go. */
  ghost predicate TablesFit(v: Version) {
    TreeInv(v) && forall l :: 0 <= l < NUM_LEVELS ==> InputMerge.PartOk(v, l, v[l])
  }

  lemma {:induction false} OrderedDiffer(files: seq<File>)
    requires OrderedBySmallest(files)
    ensures InputMerge.AllDifferent(files)
  {
  }

  lemma LevelIsOk(v: Version, l: nat)
    requires TreeInv(v) && l < NUM_LEVELS && OrderedBySmallest(v[0])
    ensures InputMerge.PartOk(v, l, v[l])
  {
    hide TreeInv, GoodFile, OrderedBySmallest, InputMerge.AllDifferent, Sorted;
    LevelFacts(v, l);
    CompactionInputs.LevelIsUnique(v, l);
    if l > 0 {
      InputMerge.FlattenIsSorted(v[l]);
    } else {
      OrderedDiffer(v[0]);
    }
  }

  lemma TreeFits(v: Version)
    requires TreeInv(v) && OrderedBySmallest(v[0])
    ensures TablesFit(v)
  {
    hide TreeInv, OrderedBySmallest, InputMerge.PartOk;
    forall l | 0 <= l < NUM_LEVELS
      ensures InputMerge.PartOk(v, l, v[l])
    {
      LevelIsOk(v, l);
    }
  }

  // ---------------------------------------------------------------- what they hold

  ghost predicate InSome(children: seq<seq<Entry>>, e: Entry) {
    exists i :: 0 <= i < |children| && e in children[i]
  }

  lemma InEither(a: seq<seq<Entry>>, b: seq<seq<Entry>>, e: Entry)
    ensures InSome(a + b, e) <==> InSome(a, e) || InSome(b, e)
  {
    if i :| 0 <= i < |a| && e in a[i] {
      assert (a + b)[i] == a[i];
    }
    if i :| 0 <= i < |b| && e in b[i] {
      assert (a + b)[|a| + i] == b[i];
    }
  }

  lemma BothSorted(a: seq<seq<Entry>>, b: seq<seq<Entry>>)
    requires Merger.ChildrenSorted(a) && Merger.ChildrenSorted(b)
    ensures Merger.ChildrenSorted(a + b)
  {
    hide Sorted;
  }

  lemma {:induction false} LevelPartsHold(v: Version, level: nat, e: Entry)
    requires level <= NUM_LEVELS
    ensures InSome(LevelParts(v, level), e) <==> exists l :: level <= l < NUM_LEVELS && e in LevelEntries(v[l])
    decreases NUM_LEVELS - level
  {
    hide InputMerge.Part, LevelEntries, InSome;
    if level == NUM_LEVELS {
      NothingIn(e);
    } else {
      InEither(InputMerge.Part(level, v[level]), LevelParts(v, level + 1), e);
      PartHolds(level, v[level], e);
      LevelPartsHold(v, level + 1, e);
    }
  }

  lemma NothingIn(e: Entry)
    ensures !InSome([], e)
  {
  }

  lemma PartHolds(level: nat, files: seq<File>, e: Entry)
    ensures InSome(InputMerge.Part(level, files), e) <==> e in LevelEntries(files)
  {
    InputMerge.PartMembers(level, files, e);
  }

  lemma {:induction false} LevelPartsSorted(v: Version, level: nat)
    requires TablesFit(v) && level <= NUM_LEVELS
    ensures Merger.ChildrenSorted(LevelParts(v, level))
    decreases NUM_LEVELS - level
  {
    hide TreeInv, InputMerge.PartOk, InputMerge.Part, Sorted;
    if level < NUM_LEVELS {
      InputMerge.PartIsSorted(v, level, v[level]);
      LevelPartsSorted(v, level + 1);
      BothSorted(InputMerge.Part(level, v[level]), LevelParts(v, level + 1));
    }
  }

  lemma TablesHold(v: Version, e: Entry)
    ensures InSome(LevelParts(v, 0), e) <==> e in VersionEntries(v)
  {
    LevelPartsHold(v, 0, e);
    if l :| 0 <= l < NUM_LEVELS && e in LevelEntries(v[l]) {
      var f :| f in v[l] && e in f.entries;
    }
    if e in VersionEntries(v) {
      var l: nat, f :| l < NUM_LEVELS && f in v[l] && e in f.entries;
      assert e in LevelEntries(v[l]);
    }
  }

  lemma MemsHold(mem: seq<Entry>, imm: Option<seq<Entry>>, e: Entry)
    ensures var mems := [mem] + if imm.Some? then [imm.value] else [];
            InSome(mems, e) <==> e in EntrySet(mem) || (imm.Some? && e in EntrySet(imm.value))
  {
    var mems := [mem] + if imm.Some? then [imm.value] else [];
    if e in mem {
      assert e in mems[0];
    }
    if imm.Some? && e in imm.value {
      assert e in mems[1];
    }
  }

  /** Together the children hold what is stored. */
  lemma ChildrenHold(db: Db, mem: seq<Entry>, imm: Option<seq<Entry>>, e: Entry)
    requires MemRuns(db, mem, imm)
    ensures InSome(Children(mem, imm, db.version), e) <==> e in Stored(db)
  {
    hide InSome, LevelParts, VersionEntries, EntrySet;
    var mems := [mem] + if imm.Some? then [imm.value] else [];
    InEither(mems, LevelParts(db.version, 0), e);
    MemsHold(mem, imm, e);
    TablesHold(db.version, e);
  }

  lemma ChildrenAreSorted(db: Db, mem: seq<Entry>, imm: Option<seq<Entry>>)
    requires MemRuns(db, mem, imm) && TablesFit(db.version)
    ensures Merger.ChildrenSorted(Children(mem, imm, db.version))
  {
    hide Sorted, LevelParts, TablesFit, EntrySet;
    LevelPartsSorted(db.version, 0);
    BothSorted([mem] + if imm.Some? then [imm.value] else [], LevelParts(db.version, 0));
  }

  // ---------------------------------------------------------------- no entry is in two of them

  ghost predicate InOneOnly(children: seq<seq<Entry>>, e: Entry) {
    forall i, j :: 0 <= i < |children| && 0 <= j < |children| && e in children[i] && e in children[j] ==> i == j
  }

  lemma OneOfEither(a: seq<seq<Entry>>, b: seq<seq<Entry>>, e: Entry)
    requires InOneOnly(a, e) && InOneOnly(b, e) && !(InSome(a, e) && InSome(b, e))
    ensures InOneOnly(a + b, e)
  {
    var all := a + b;
    forall i, j | 0 <= i < |all| && 0 <= j < |all| && e in all[i] && e in all[j]
      ensures i == j
    {
      assert i < |a| ==> e in a[i];
      assert i >= |a| ==> e in b[i - |a|];
      assert j < |a| ==> e in a[j];
      assert j >= |a| ==> e in b[j - |a|];
    }
  }

  lemma PartHasOne(v: Version, l: nat, e: Entry)
    requires TablesFit(v) && l < NUM_LEVELS
    ensures InOneOnly(InputMerge.Part(l, v[l]), e)
  {
    hide TreeInv, InputMerge.PartOk, InputMerge.Part;
    var part := InputMerge.Part(l, v[l]);
    forall i, j | 0 <= i < |part| && 0 <= j < |part| && e in part[i] && e in part[j]
      ensures i == j
    {
      InputMerge.OneChild(v, l, v[l], i, j, e);
    }
  }

  lemma NoTwoLevels(v: Version, l: nat, m: nat, e: Entry)
    requires TreeInv(v) && l < m < NUM_LEVELS && e in LevelEntries(v[l])
    ensures e !in LevelEntries(v[m])
  {
    hide TreeInv;
    if e in LevelEntries(v[m]) {
      var f :| f in v[l] && e in f.entries;
      var g :| g in v[m] && e in g.entries;
      OneHome(v, l, m, f, g, e);
      assert false;
    }
  }

  lemma {:induction false} LevelPartsHaveOne(v: Version, level: nat, e: Entry)
    requires TablesFit(v) && level <= NUM_LEVELS
    ensures InOneOnly(LevelParts(v, level), e)
    decreases NUM_LEVELS - level
  {
    hide TreeInv, InputMerge.PartOk, InputMerge.Part, InSome, LevelEntries;
    if level < NUM_LEVELS {
      PartHasOne(v, level, e);
      LevelPartsHaveOne(v, level + 1, e);
      PartHolds(level, v[level], e);
      LevelPartsHold(v, level + 1, e);
      if l :| level + 1 <= l < NUM_LEVELS && e in LevelEntries(v[l]) && e in LevelEntries(v[level]) {
        NoTwoLevels(v, level, l, e);
        assert false;
      }
      OneOfEither(InputMerge.Part(level, v[level]), LevelParts(v, level + 1), e);
    }
  }

  ghost predicate AgesFit(db: Db) {
    AgesOk(db.mem, ImmEntries(db.imm), VersionEntries(db.version), db.lastSequence)
  }

  lemma ChildrenHaveOne(db: Db, mem: seq<Entry>, imm: Option<seq<Entry>>, e: Entry)
    requires MemRuns(db, mem, imm) && TablesFit(db.version) && AgesFit(db)
    ensures InOneOnly(Children(mem, imm, db.version), e)
  {
    hide TablesFit, InSome, LevelParts, VersionEntries, Sorted, EntrySet;
    var mems := [mem] + if imm.Some? then [imm.value] else [];
    LevelPartsHaveOne(db.version, 0, e);
    TablesHold(db.version, e);
    MemsHold(mem, imm, e);
    MemsHaveOne(db, mem, imm, e);
    NotFlushed(db, e);
    OneOfEither(mems, LevelParts(db.version, 0), e);
  }

  lemma NotFlushed(db: Db, e: Entry)
    requires AgesFit(db)
    ensures e in db.mem ==> e !in ImmEntries(db.imm) && e !in VersionEntries(db.version)
    ensures e in ImmEntries(db.imm) ==> e !in VersionEntries(db.version)
  {
    hide VersionEntries, OnePerSequence;
  }

  lemma MemsHaveOne(db: Db, mem: seq<Entry>, imm: Option<seq<Entry>>, e: Entry)
    requires MemRuns(db, mem, imm) && AgesFit(db)
    ensures InOneOnly([mem] + if imm.Some? then [imm.value] else [], e)
  {
    NotFlushed(db, e);
    hide AgesFit, Sorted;
    var mems := [mem] + if imm.Some? then [imm.value] else [];
    forall i, j | 0 <= i < |mems| && 0 <= j < |mems| && e in mems[i] && e in mems[j]
      ensures i == j
    {
      assert e in EntrySet(mem) || (imm.Some? && e in EntrySet(imm.value));
    }
  }

  // ---------------------------------------------------------------- the order

  ghost predicate KeysDiffer(children: seq<seq<Entry>>) {
    forall p, q :: Merger.Has(children, p) && Merger.Has(children, q) && p != q ==>
      Merger.KeyAt(children, p).key != Merger.KeyAt(children, q).key || Merger.KeyAt(children, p).sn != Merger.KeyAt(children, q).sn
  }

  lemma StoredIsUnique(db: Db)
    requires AgesFit(db)
    ensures OnePerSequence(Stored(db))
  {
    hide VersionEntries;
    assert Stored(db) == db.mem + ImmEntries(db.imm) + VersionEntries(db.version);
  }

  lemma ChildrenDiffer(db: Db, mem: seq<Entry>, imm: Option<seq<Entry>>)
    requires MemRuns(db, mem, imm) && TablesFit(db.version) && AgesFit(db)
    ensures KeysDiffer(Children(mem, imm, db.version))
  {
    hide MemRuns, TablesFit, AgesFit, Children, Sorted, Stored;
    var children := Children(mem, imm, db.version);
    ChildrenAreSorted(db, mem, imm);
    StoredIsUnique(db);
    forall p, q | Merger.Has(children, p) && Merger.Has(children, q) && p != q
      ensures Merger.KeyAt(children, p).key != Merger.KeyAt(children, q).key
              || Merger.KeyAt(children, p).sn != Merger.KeyAt(children, q).sn
    {
      var e, x := Merger.EntryAt(children, p), Merger.EntryAt(children, q);
      SpotIsIn(children, p);
      SpotIsIn(children, q);
      ChildrenHold(db, mem, imm, e);
      ChildrenHold(db, mem, imm, x);
      ChildrenHaveOne(db, mem, imm, e);
      if p.child == q.child {
        InputMerge.SameChildDiffers(children[p.child], p.index, q.index);
      }
    }
  }

  lemma SpotIsIn(children: seq<seq<Entry>>, p: Merger.Spot)
    requires Merger.Has(children, p)
    ensures InSome(children, Merger.EntryAt(children, p)) && Merger.EntryAt(children, p) in children[p.child]
  {
  }

  /** Merged, the children are the sorted run of everything that is stored. */
  lemma MergedIsStored(db: Db, mem: seq<Entry>, imm: Option<seq<Entry>>, order: seq<Merger.Spot>)
    requires MemRuns(db, mem, imm) && TablesFit(db.version) && AgesFit(db)
    requires Merger.IsOrder(Children(mem, imm, db.version), order)
    ensures Merger.ChildrenSorted(Children(mem, imm, db.version)) && KeysDiffer(Children(mem, imm, db.version))
    ensures var entries := Merger.Merged(Children(mem, imm, db.version), order);
            Sorted(entries) && EntrySet(entries) == Stored(db)
  {
    hide MemRuns, TablesFit, AgesFit, Children, Sorted, Stored;
    var children := Children(mem, imm, db.version);
    ChildrenAreSorted(db, mem, imm);
    ChildrenDiffer(db, mem, imm);
    Merger.MergedIsSortedUnion(children, order);
    forall e
      ensures e in Merger.Merged(children, order) <==> e in Stored(db)
    {
      ChildrenHold(db, mem, imm, e);
    }
  }

  lemma InvFits(db: Db)
    requires Inv(db)
    ensures TablesFit(db.version) && AgesFit(db) && (db.imm.Some? ==> OnePerSequence(db.imm.value)) && OnePerSequence(db.mem)
  {
    hide LogsOk, CounterOk, NumbersOk, TablesOk, ManifestOk, RecordOk, RunningOk, TreeInv, OrderedBySmallest, VersionEntries;
    TreeFits(db.version);
  }

  // ---------------------------------------------------------------- what a scan shows

  /** After any run that neither clashes nor exposes anything, the entries a database iterator shows at a live sequence
      number are exactly the user's own map at that number, in key order and each key once. */
  lemma ScanIsRight(dbs: seq<Db>, steps: seq<Runs.Step>, mem: seq<Entry>, imm: Option<seq<Entry>>, order: seq<Merger.Spot>,
                    s: nat, u: UserKey, value: Bytes)
    requires Runs.IsRun(dbs, steps) && Runs.NeverClashing(dbs, steps) && Runs.NeverExposing(dbs, steps)
    requires var db := dbs[|steps|];
             MemRuns(db, mem, imm) && Merger.IsOrder(Children(mem, imm, db.version), order) && Floor(db) <= s
    ensures var entries := Merger.Merged(Children(mem, imm, dbs[|steps|].version), order);
            && ((exists i :: DbIterator.Shown(entries, s, i) && entries[i].key == u && entries[i].value == value) <==>
                Runs.LookUp(Runs.MapAfter(Runs.Writes(steps), s), u) == Some(value))
            && forall i, j :: i < j && DbIterator.Shown(entries, s, i) && DbIterator.Shown(entries, s, j) ==>
                                entries[i].key < entries[j].key
  {
    hide Inv, Runs.Next, Runs.NeverClashing, Runs.NeverExposing, TablesFit, AgesFit, MemRuns, Children, Sorted, Stored, EntrySet,
         OnePerSequence, Faithful, Runs.Writes, Runs.MapAfter;
    var db := dbs[|steps|];
    Runs.RunKeepsInv(dbs, steps);
    InvFits(db);
    StoredIsUnique(db);
    MergedIsStored(db, mem, imm, order);
    var entries := Merger.Merged(Children(mem, imm, db.version), order);
    Runs.EveryReadIsRight(dbs, steps, u, s);
    DbIterator.ShownIsTheMap(entries, s, u, value);
    forall i, j | i < j && DbIterator.Shown(entries, s, i) && DbIterator.Shown(entries, s, j)
      ensures entries[i].key < entries[j].key
    {
      DbIterator.ShownInKeyOrder(entries, s, i, j);
    }
  }

  // ---------------------------------------------------------------- the internal iterator

  /** With all keys different, what is above the key of a spot is what comes after the spot. */
  lemma AboveIsAfter(children: seq<seq<Entry>>, p: Merger.Spot, r: Option<Merger.Spot>)
    requires KeysDiffer(children) && Merger.Has(children, p)
    ensures Merger.IsFirst(children, Merger.Above(Merger.KeyAt(children, p)), r) ==> Merger.IsFirst(children, Merger.AfterSpot(p), r)
    ensures Merger.IsLast(children, Merger.Below(Merger.KeyAt(children, p)), r) ==> Merger.IsLast(children, Merger.BeforeSpot(p), r)
  {
    forall q | Merger.Has(children, q)
      ensures Merger.Within(children, Merger.Above(Merger.KeyAt(children, p)), q) <==> Merger.Within(children, Merger.AfterSpot(p), q)
      ensures Merger.Within(children, Merger.Below(Merger.KeyAt(children, p)), q) <==> Merger.Within(children, Merger.BeforeSpot(p), q)
    {
    }
  }

  lemma LastOfOrder(children: seq<seq<Entry>>, order: seq<Merger.Spot>, r: Option<Merger.Spot>)
    requires Merger.ChildrenSorted(children) && Merger.IsOrder(children, order)
    requires Merger.IsLast(children, Merger.Everything, r)
    ensures Merger.At(order, |order| - 1, r)
  {
    if order != [] {
      var n := |order| - 1;
      assert Merger.Within(children, Merger.Everything, order[n]);
      var k :| 0 <= k < |order| && order[k] == r.value;
      Merger.OrderDecides(children, order, k, n);
    }
  }

  /** The merging iterator as a cursor over one sorted run, which is how the database iterator uses it. */
  class InternalIterator {
    const it: Merger.MergingIterator
    ghost const order: seq<Merger.Spot>
    ghost const entries: seq<Entry>
    ghost var pos: nat                  // not valid at |entries|

    ghost predicate Valid()
      reads this, it
    {
      && it.Valid() && Merger.IsOrder(it.children, order) && KeysDiffer(it.children)
      && entries == Merger.Merged(it.children, order) && pos <= |entries|
      && Merger.At(order, pos, it.Shown())
    }

    /** NewInternalIterator. */
    constructor (db: Db)
      requires Inv(db)
      ensures Valid() && fresh(it) && Sorted(entries) && EntrySet(entries) == Stored(db) && pos == |entries|
    {
      hide Inv, Sorted, Stored, TablesFit, AgesFit, Children, OnePerSequence, KeysDiffer, Merger.IsOrder, Merger.ChildrenSorted;
      InvFits(db);
      var mem := Engine.MemTableEntries(db.mem);
      var imm: Option<seq<Entry>> := None;
      if db.imm.Some? {
        var run := Engine.MemTableEntries(db.imm.value);
        imm := Some(run);
      }
      var children := Children(mem, imm, db.version);
      ChildrenAreSorted(db, mem, imm);
      Merger.OrderExists(children);
      ghost var o :| Merger.IsOrder(children, o);
      MergedIsStored(db, mem, imm, o);
      InputMerge.SpotsOfOrder(children, o);
      it := new Merger.MergingIterator(children);
      order, entries := o, Merger.Merged(children, o);
      pos := |o|;
    }

    method Show() returns (e: Option<Entry>)
      requires Valid()
      ensures e == if pos < |entries| then Some(entries[pos]) else None
    {
      hide Merger.IsOrder, KeysDiffer;
      InputMerge.SpotsOfOrder(it.children, order);
      e := if it.current.Some? then Some(it.children[it.current.value][it.pos[it.current.value]]) else None;
    }

    method SeekToFirst()
      requires Valid()
      modifies this`pos, it
      ensures Valid() && pos == 0
    {
      hide Merger.IsOrder, KeysDiffer, Merger.IsFirst, Merger.ChildrenSorted;
      it.SeekToFirst();
      InputMerge.FirstOfOrder(it.children, order, it.Shown());
      pos := 0;
    }

    method SeekToLast()
      requires Valid()
      modifies this`pos, it
      ensures Valid() && pos == if |entries| == 0 then 0 else |entries| - 1
    {
      hide Merger.IsOrder, KeysDiffer, Merger.IsLast, Merger.ChildrenSorted;
      it.SeekToLast();
      LastOfOrder(it.children, order, it.Shown());
      pos := if |entries| == 0 then 0 else |entries| - 1;
    }

    method Seek(target: IKey)
      requires Valid()
      modifies this`pos, it
      ensures Valid() && IsSeekPosition(entries, target, pos)
    {
      hide Merger.IsOrder, KeysDiffer, Merger.IsFirst, Merger.ChildrenSorted;
      InputMerge.SpotsOfOrder(it.children, order);
      it.Seek(target);
      Merger.SeekLands(it.children, order, target, it.Shown());
      ghost var k :| 0 <= k <= |order| && Merger.At(order, k, it.Shown())
                     && forall l :: 0 <= l < |order| ==> (l < k <==> Less(Merger.KeyAt(it.children, order[l]), target));
      pos := k;
    }

    /** From either direction, Next goes one entry on. */
    method Next()
      requires Valid() && pos < |entries|
      modifies this`pos, it
      ensures Valid() && pos == old(pos) + 1
    {
      hide Merger.IsOrder, KeysDiffer, Merger.IsFirst, Merger.ChildrenSorted;
      InputMerge.SpotsOfOrder(it.children, order);
      ghost var p := order[pos];
      it.Next();
      AboveIsAfter(it.children, p, it.Shown());
      Merger.StepForward(it.children, order, pos, it.Shown());
      pos := pos + 1;
    }

    /** And Prev goes one back, or past the front. */
    method Prev()
      requires Valid() && pos < |entries|
      modifies this`pos, it
      ensures Valid() && pos == if old(pos) == 0 then |entries| else old(pos) - 1
    {
      hide Merger.IsOrder, KeysDiffer, Merger.IsLast, Merger.ChildrenSorted;
      InputMerge.SpotsOfOrder(it.children, order);
      ghost var p := order[pos];
      it.Prev();
      AboveIsAfter(it.children, p, it.Shown());
      Merger.StepBack(it.children, order, pos, it.Shown());
      pos := if pos == 0 then |entries| else pos - 1;
    }
  }
}
