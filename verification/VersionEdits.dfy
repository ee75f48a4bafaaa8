/**
 Version edits and the builder that applies them (VersionSet::Builder in
 db/version_set.cc).
 */
module VersionEdits {
  import opened InternalKeys
  import opened Versions
  import opened VersionSteps

  /** VersionEdit: deleted (level, number) pairs, added (level, table) pairs and the counters it records. */
  datatype Edit = Edit(
    deleted: set<(nat, nat)>,
    added: seq<(nat, File)>,
    logNumber: Option<nat>,
    nextFile: Option<nat>,
    lastSequence: Option<nat>)

  ghost predicate GoodEdit(edit: Edit) {
    && (forall p :: p in edit.deleted ==> p.0 < NUM_LEVELS)
    && (forall p :: p in edit.added ==> p.0 < NUM_LEVELS)
  }

  // ---------------------------------------------------------------- what an edit means

  ghost predicate Survives(edit: Edit, level: nat, f: File) {
    (level, f.number) !in edit.deleted
  }

  /** v' is v without the deleted tables and with the added ones, every level in order. */
  ghost predicate EditResult(v: Version, edit: Edit, v': Version) {
    forall l: nat :: l < NUM_LEVELS ==>
      && OrderedBySmallest(v'[l])
      && forall f :: f in v'[l] <==> (f in v[l] && Survives(edit, l, f)) || (l, f) in edit.added
  }

  /** An ordered level is determined by the tables in it. */
  lemma {:induction false} OrderedLevelIsUnique(a: seq<File>, b: seq<File>)
    requires OrderedBySmallest(a) && OrderedBySmallest(b)
    requires forall f :: f in a <==> f in b
    ensures a == b
    decreases |a|
  {
    assert a != [] ==> a[0] in a;
    assert b != [] ==> b[0] in b;
    if a != [] {
      FirstIsLeast(a, b);
      TailMembers(a);
      TailMembers(b);
      OrderedLevelIsUnique(a[1..], b[1..]);
    }
  }

  lemma TailMembers(a: seq<File>)
    requires a != [] && OrderedBySmallest(a)
    ensures forall f :: f in a[1..] <==> f in a && f != a[0]
  {
    assert a == [a[0]] + a[1..];
  }

  lemma FirstIsLeast(a: seq<File>, b: seq<File>)
    requires OrderedBySmallest(a) && OrderedBySmallest(b) && a != [] && b != []
    requires forall f :: f in a <==> f in b
    ensures a[0] == b[0]
  {
    assert a[0] in a && b[0] in b;
    var i :| 0 <= i < |b| && b[i] == a[0];
    var j :| 0 <= j < |a| && a[j] == b[0];
    assert i == 0 || FileLess(b[0], b[i]);
    assert j == 0 || FileLess(a[0], a[j]);
  }

  lemma EditResultIsUnique(v: Version, edit: Edit, a: Version, b: Version)
    requires EditResult(v, edit, a) && EditResult(v, edit, b)
    ensures a == b
  {
    forall l | 0 <= l < NUM_LEVELS
      ensures a[l] == b[l]
    {
      OrderedLevelIsUnique(a[l], b[l]);
    }
  }

  // ---------------------------------------------------------------- the builder

  /** Insertion into a std::set ordered by BySmallestKey: an equivalent element is left alone. */
  method InsertOrdered(files: seq<File>, f: File) returns (r: seq<File>)
    requires OrderedBySmallest(files)
    ensures OrderedBySmallest(r)
    ensures (exists g :: g in files && g.smallest == f.smallest && g.number == f.number) ==> r == files
    ensures (forall g :: g in files ==> g.smallest != f.smallest || g.number != f.number) ==>
              forall g :: g in r <==> g in files || g == f
  {
    var k := 0;
    while k < |files| && FileLess(files[k], f)
      invariant 0 <= k <= |files|
      invariant forall i :: 0 <= i < k ==> FileLess(files[i], f)
    {
      k := k + 1;
    }
    if k < |files| && !FileLess(f, files[k]) {
      return files;
    }
    InsertedInOrder(files, k, f);
    r := files[..k] + [f] + files[k..];
  }

  lemma InsertedInOrder(files: seq<File>, k: nat, f: File)
    requires OrderedBySmallest(files) && k <= |files|
    requires forall i :: 0 <= i < k ==> FileLess(files[i], f)
    requires k < |files| ==> FileLess(f, files[k])
    ensures OrderedBySmallest(files[..k] + [f] + files[k..])
    ensures forall g :: g in files[..k] + [f] + files[k..] <==> g in files || g == f
  {
    var r := files[..k] + [f] + files[k..];
    forall i, j | 0 <= i < j < |r|
      ensures FileLess(r[i], r[j])
    {
      assert r[i] == if i < k then files[i] else if i == k then f else files[i - 1];
      assert r[j] == if j < k then files[j] else if j == k then f else files[j - 1];
      assert i == k && j > k + 1 ==> FileLess(files[k], files[j - 1]);
    }
    assert files == files[..k] + files[k..];
  }

  /** The tables of base and added that are not deleted. */
  ghost predicate SavedLevel(base: seq<File>, deleted: set<nat>, added: seq<File>, r: seq<File>) {
    && OrderedBySmallest(r)
    && forall f :: f in r <==> (f in base || f in added) && f.number !in deleted
  }

  ghost predicate NoCommonNumber(base: seq<File>, added: seq<File>) {
    forall f, g :: f in base && g in added ==> f.number != g.number
  }

  class Builder {
    const base: Version
    var deleted: seq<set<nat>>
    var added: seq<seq<File>>

    ghost predicate Valid()
      reads this
    {
      && |deleted| == NUM_LEVELS && |added| == NUM_LEVELS
      && forall l: nat :: l < NUM_LEVELS ==>
           && OrderedBySmallest(base[l]) && OrderedBySmallest(added[l])
           && NoCommonNumber(base[l], added[l])
           && (forall f, g :: f in added[l] && g in added[l] && f.number == g.number ==> f == g)
    }

    /** v is what SaveTo would produce now. */
    ghost predicate Represents(v: Version)
      requires Valid()
      reads this
    {
      forall l: nat :: l < NUM_LEVELS ==> SavedLevel(base[l], deleted[l], added[l], v[l])
    }

    constructor (base: Version)
      requires forall l: nat :: l < NUM_LEVELS ==> OrderedBySmallest(base[l])
      ensures this.base == base && Valid() && Represents(base)
      ensures forall l: nat :: l < NUM_LEVELS ==> added[l] == []
    {
      this.base := base;
      deleted := seq(NUM_LEVELS, _ => {});
      added := seq(NUM_LEVELS, _ => []);
    }

    /** The numbers the edit adds to a level are new to the builder. */
    ghost predicate FreshHere(edit: Edit)
      requires Valid()
      reads this
    {
      && (forall l: nat, f, g :: l < NUM_LEVELS && (l, f) in edit.added && (g in base[l] || g in added[l]) ==> f.number != g.number)
      && (forall l: nat, f, g :: l < NUM_LEVELS && (l, f) in edit.added && (l, g) in edit.added && f.number == g.number ==> f == g)
    }

    method DeleteFiles(edit: Edit)
      requires Valid() && GoodEdit(edit)
      modifies this`deleted
      ensures Valid() && |deleted| == NUM_LEVELS
      ensures forall l: nat, n :: l < NUM_LEVELS ==> (n in deleted[l] <==> n in old(deleted)[l] || (l, n) in edit.deleted)
    {
      var todo := edit.deleted;
      while todo != {}
        invariant todo <= edit.deleted && Valid()
        invariant forall l: nat, n :: l < NUM_LEVELS ==>
                    (n in deleted[l] <==> n in old(deleted)[l] || (l, n) in edit.deleted - todo)
      {
        var p :| p in todo;
        deleted := deleted[p.0 := deleted[p.0] + {p.1}];
        todo := todo - {p};
      }
    }

    method AddFile(level: nat, f: File)
      requires Valid() && level < NUM_LEVELS
      requires forall g :: g in base[level] ==> g.number != f.number
      requires forall g :: g in added[level] ==> g.number != f.number || g == f
      modifies this
      ensures Valid()
      ensures deleted == old(deleted)[level := old(deleted)[level] - {f.number}]
      ensures forall l: nat, g :: l < NUM_LEVELS ==> (g in added[l] <==> g in old(added)[l] || (l == level && g == f))
    {
      deleted := deleted[level := deleted[level] - {f.number}];
      var grown := InsertOrdered(added[level], f);
      assert forall g :: g in grown <==> g in added[level] || g == f;
      added := added[level := grown];
    }

    method AddFiles(edit: Edit)
      requires Valid() && GoodEdit(edit) && FreshHere(edit)
      modifies this
      ensures Valid()
      ensures forall l: nat, n :: l < NUM_LEVELS ==>
                (n in deleted[l] <==> n in old(deleted)[l] && forall f :: (l, f) in edit.added ==> f.number != n)
      ensures forall l: nat, f :: l < NUM_LEVELS ==> (f in added[l] <==> f in old(added)[l] || (l, f) in edit.added)
    {
      for i := 0 to |edit.added|
        invariant Valid()
        invariant forall l: nat, n :: l < NUM_LEVELS ==>
                    (n in deleted[l] <==> n in old(deleted)[l] && forall f :: (l, f) in edit.added[..i] ==> f.number != n)
        invariant forall l: nat, f :: l < NUM_LEVELS ==> (f in added[l] <==> f in old(added)[l] || (l, f) in edit.added[..i])
      {
        var (level, f) := edit.added[i];
        assert edit.added[..i + 1] == edit.added[..i] + [edit.added[i]];
        assert (level, f) in edit.added;
        AddFile(level, f);
      }
      assert edit.added[..|edit.added|] == edit.added;
    }

    /** Apply: deletions first, then additions, which cancel a pending deletion of the same number. */
    method Apply(edit: Edit)
      requires Valid() && GoodEdit(edit) && FreshHere(edit)
      modifies this
      ensures Valid()
      ensures forall l: nat, n :: l < NUM_LEVELS ==>
                (n in deleted[l] <==>
                 (n in old(deleted)[l] || (l, n) in edit.deleted) && forall f :: (l, f) in edit.added ==> f.number != n)
      ensures forall l: nat, f :: l < NUM_LEVELS ==> (f in added[l] <==> f in old(added)[l] || (l, f) in edit.added)
    {
      DeleteFiles(edit);
      AddFiles(edit);
    }

    /** SaveTo for one level: merges the kept base tables with the added ones. */
    method SaveLevel(level: nat) returns (files: seq<File>)
      requires Valid() && level < NUM_LEVELS
      ensures SavedLevel(base[level], deleted[level], added[level], files)
    {
      var baseFiles, addedFiles := base[level], added[level];
      var b := 0;
      files := [];
      for a := 0 to |addedFiles|
        invariant 0 <= b <= |baseFiles|
        invariant Merged(baseFiles, b, addedFiles, a, deleted[level], files)
      {
        // All base tables that sort before the added one
        while b < |baseFiles| && !FileLess(addedFiles[a], baseFiles[b])
          invariant 0 <= b <= |baseFiles|
          invariant Merged(baseFiles, b, addedFiles, a, deleted[level], files)
        {
          MergeBase(baseFiles, b, addedFiles, a, deleted[level], files);
          files := MaybeAdd(files, deleted[level], baseFiles[b]);
          b := b + 1;
        }
        MergeAdded(baseFiles, b, addedFiles, a, deleted[level], files);
        files := MaybeAdd(files, deleted[level], addedFiles[a]);
      }
      while b < |baseFiles|
        invariant 0 <= b <= |baseFiles|
        invariant Merged(baseFiles, b, addedFiles, |addedFiles|, deleted[level], files)
      {
        MergeBase(baseFiles, b, addedFiles, |addedFiles|, deleted[level], files);
        files := MaybeAdd(files, deleted[level], baseFiles[b]);
        b := b + 1;
      }
      assert baseFiles[..b] == baseFiles && addedFiles[..|addedFiles|] == addedFiles;
    }

    /** SaveTo. */
    method SaveTo() returns (v: Version)
      requires Valid()
      ensures Represents(v)
    {
      var levels: seq<seq<File>> := [];
      for level := 0 to NUM_LEVELS
        invariant |levels| == level
        invariant forall l: nat :: l < level ==> SavedLevel(base[l], deleted[l], added[l], levels[l])
      {
        var files := SaveLevel(level);
        levels := levels + [files];
      }
      v := levels;
    }
  }

  /** MaybeAddFile. */
  function MaybeAdd(files: seq<File>, deleted: set<nat>, f: File): seq<File> {
    if f.number in deleted then files else files + [f]
  }

  /** files holds the kept tables among the first b of base and the first a of added, in order,
      and everything not yet merged sorts after them. */
  ghost predicate Merged(base: seq<File>, b: nat, added: seq<File>, a: nat, deleted: set<nat>, files: seq<File>)
    requires b <= |base| && a <= |added|
  {
    && OrderedBySmallest(files)
    && (forall f :: f in files <==> (f in base[..b] || f in added[..a]) && f.number !in deleted)
    && (forall f, j :: f in files && b <= j < |base| ==> FileLess(f, base[j]))
    && (forall f, j :: f in files && a <= j < |added| ==> FileLess(f, added[j]))
  }

  lemma MergeBase(base: seq<File>, b: nat, added: seq<File>, a: nat, deleted: set<nat>, files: seq<File>)
    requires b < |base| && a <= |added| && OrderedBySmallest(base) && OrderedBySmallest(added)
    requires NoCommonNumber(base, added)
    requires a < |added| ==> !FileLess(added[a], base[b])
    requires Merged(base, b, added, a, deleted, files)
    ensures Merged(base, b + 1, added, a, deleted, MaybeAdd(files, deleted, base[b]))
  {
    assert base[..b + 1] == base[..b] + [base[b]];
    forall j | a <= j < |added|
      ensures FileLess(base[b], added[j])
    {
      assert base[b] in base && added[a] in added;
      assert FileLess(base[b], added[a]);
      assert j == a || FileLess(added[a], added[j]);
    }
  }

  lemma MergeAdded(base: seq<File>, b: nat, added: seq<File>, a: nat, deleted: set<nat>, files: seq<File>)
    requires b <= |base| && a < |added| && OrderedBySmallest(base) && OrderedBySmallest(added)
    requires b < |base| ==> FileLess(added[a], base[b])
    requires Merged(base, b, added, a, deleted, files)
    ensures Merged(base, b, added, a + 1, deleted, MaybeAdd(files, deleted, added[a]))
  {
    assert added[..a + 1] == added[..a] + [added[a]];
    forall j | b <= j < |base|
      ensures FileLess(added[a], base[j])
    {
      assert j == b || FileLess(base[b], base[j]);
    }
  }

  // ---------------------------------------------------------------- replay

  /** vs are the versions that applying the edits one at a time goes through. */
  ghost predicate History(base: Version, edits: seq<Edit>, vs: seq<Version>) {
    && |vs| == |edits| + 1
    && vs[0] == base
    && forall i :: 0 <= i < |edits| ==> EditResult(vs[i], edits[i], vs[i + 1])
  }

  ghost predicate AddedBefore(edits: seq<Edit>, level: nat, number: nat) {
    exists i, f :: 0 <= i < |edits| && (level, f) in edits[i].added && f.number == number
  }

  /** What was added by some edits and one more. */
  lemma AddedByEither(edits: seq<Edit>, edit: Edit, l: nat, k: nat)
    ensures AddedBefore(edits + [edit], l, k) <==>
            AddedBefore(edits, l, k) || exists f :: (l, f) in edit.added && f.number == k
  {
    var longer := edits + [edit];
    if AddedBefore(edits, l, k) {
      var i, f :| 0 <= i < |edits| && (l, f) in edits[i].added && f.number == k;
      assert (l, f) in longer[i].added;
    }
    if f :| (l, f) in edit.added && f.number == k {
      assert (l, f) in longer[|edits|].added;
    }
    if AddedBefore(longer, l, k) {
      var i, f :| 0 <= i < |longer| && (l, f) in longer[i].added && f.number == k;
      assert i == |edits| || (l, f) in edits[i].added;
    }
  }

  /** The edit gives no level a number it was given before. */
  ghost predicate AddsUnused(base: Version, earlier: seq<Edit>, edit: Edit) {
    && (forall l: nat, f, g :: l < NUM_LEVELS && (l, f) in edit.added && g in base[l] ==> f.number != g.number)
    && (forall l: nat, f, g :: l < NUM_LEVELS && (l, f) in edit.added && (l, g) in edit.added && f.number == g.number ==> f == g)
    && (forall l: nat, f :: l < NUM_LEVELS && (l, f) in edit.added ==> !AddedBefore(earlier, l, f.number))
  }

  /** No level is ever given the same table number twice. */
  ghost predicate NeverReused(base: Version, edits: seq<Edit>) {
    forall i :: 0 <= i < |edits| ==> AddsUnused(base, edits[..i], edits[i])
  }

  lemma SavedLevelIsUnique(base: seq<File>, deleted: set<nat>, added: seq<File>, a: seq<File>, b: seq<File>)
    requires SavedLevel(base, deleted, added, a) && SavedLevel(base, deleted, added, b)
    ensures a == b
  {
    OrderedLevelIsUnique(a, b);
  }

  /** One more edit: what the builder would save follows what it would have saved before. */
  lemma SavedGoesOn(base: seq<File>, deleted0: set<nat>, added0: seq<File>, saved0: seq<File>, edit: Edit, l: nat,
                    deleted1: set<nat>, added1: seq<File>, saved1: seq<File>)
    requires SavedLevel(base, deleted0, added0, saved0) && OrderedBySmallest(saved1)
    requires forall f :: f in saved1 <==> (f in saved0 && Survives(edit, l, f)) || (l, f) in edit.added
    requires forall n :: n in deleted1 <==>
                           (n in deleted0 || (l, n) in edit.deleted) && forall f :: (l, f) in edit.added ==> f.number != n
    requires forall f :: f in added1 <==> f in added0 || (l, f) in edit.added
    requires forall f, g :: (l, f) in edit.added && (g in base || g in added0) ==> f.number != g.number
    ensures SavedLevel(base, deleted1, added1, saved1)
  {
  }

  /** Feeding a whole history through one builder gives the version that applying the edits one
      by one, each with a builder of its own, ends with. */
  method Replay(base: Version, edits: seq<Edit>, ghost vs: seq<Version>) returns (v: Version)
    requires forall l: nat :: l < NUM_LEVELS ==> OrderedBySmallest(base[l])
    requires forall edit :: edit in edits ==> GoodEdit(edit)
    requires History(base, edits, vs) && NeverReused(base, edits)
    ensures v == vs[|edits|]
  {
    hide SavedLevel, OrderedBySmallest, AddedBefore;
    var builder := new Builder(base);
    for i := 0 to |edits|
      invariant builder.base == base && builder.Valid() && builder.Represents(vs[i])
      invariant forall l: nat, f :: l < NUM_LEVELS && f in builder.added[l] ==> AddedBefore(edits[..i], l, f.number)
    {
      assert AddsUnused(base, edits[..i], edits[i]);
      forall l: nat, k: nat
        ensures AddedBefore(edits[..i + 1], l, k) <==>
                AddedBefore(edits[..i], l, k) || exists f :: (l, f) in edits[i].added && f.number == k
      {
        assert edits[..i + 1] == edits[..i] + [edits[i]];
        AddedByEither(edits[..i], edits[i], l, k);
      }
      ghost var deleted, added := builder.deleted, builder.added;
      builder.Apply(edits[i]);
      assert EditResult(vs[i], edits[i], vs[i + 1]);
      forall l: nat | l < NUM_LEVELS
        ensures SavedLevel(base[l], builder.deleted[l], builder.added[l], vs[i + 1][l])
      {
        SavedGoesOn(base[l], deleted[l], added[l], vs[i][l], edits[i], l, builder.deleted[l], builder.added[l], vs[i + 1][l]);
      }
    }
    v := builder.SaveTo();
    forall l: nat | l < NUM_LEVELS
      ensures v[l] == vs[|edits|][l]
    {
      SavedLevelIsUnique(base[l], builder.deleted[l], builder.added[l], v[l], vs[|edits|][l]);
    }
  }

  /** The builder's part of LogAndApply: one edit on top of the current version. */
  method ApplyEdit(v: Version, edit: Edit) returns (v': Version)
    requires GoodEdit(edit) && forall l: nat :: l < NUM_LEVELS ==> OrderedBySmallest(v[l])
    requires AddsUnused(v, [], edit)
    ensures EditResult(v, edit, v')
  {
    var builder := new Builder(v);
    builder.Apply(edit);
    v' := builder.SaveTo();
  }
}
