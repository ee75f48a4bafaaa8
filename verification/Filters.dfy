/**
 Filters that let a lookup skip a block (util/bloom.cc, table/filter_block.cc): a Bloom
 filter for every 2 KiB of file offset. The hash function is a parameter.
 */
module Filters {
  import opened InternalKeys

  // ---------------------------------------------------------------- Bloom filters

  /** k is the number of probes; the source keeps it in the filter's last byte. */
  datatype Filter = Filter(bits: seq<bool>, k: nat)

  /** Rotate right by 17 bits. */
  function Delta(h: Word): Word {
    h / 0x2_0000 + h % 0x2_0000 * 0x8000
  }

  /** The hash value after j steps of double hashing, in 32 bits. */
  function Probe(h: Word, j: nat): Word {
    (h + j * Delta(h)) % 0x1_0000_0000
  }

  lemma NextProbe(h: Word, j: nat)
    ensures Probe(h, j + 1) == (Probe(h, j) + Delta(h)) % 0x1_0000_0000
    ensures Probe(h, 0) == h
  {
    hide Delta;
    OneMore(h, j, Delta(h));
    SumMod(h + j * Delta(h), Delta(h));
  }

  lemma OneMore(h: nat, j: nat, d: nat)
    ensures h + (j + 1) * d == h + j * d + d && h + 0 * d == h
  {
  }

  lemma SumMod(a: nat, b: nat)
    ensures (a + b) % 0x1_0000_0000 == (a % 0x1_0000_0000 + b) % 0x1_0000_0000
  {
    assert a == a / 0x1_0000_0000 * 0x1_0000_0000 + a % 0x1_0000_0000;
  }

  ghost predicate ProbesSet(bits: seq<bool>, h: Word, k: nat) {
    |bits| > 0 && forall j :: 0 <= j < k ==> bits[Probe(h, j) % |bits|]
  }

  /** What KeyMayMatch answers. */
  ghost predicate Matches(hash: UserKey -> Word, f: Filter, key: UserKey) {
    |f.bits| > 0 && (f.k > 30 || ProbesSet(f.bits, hash(key), f.k))
  }

  /** One of the first k probes from h lands on bit b of n. */
  ghost predicate IsProbed(b: nat, h: Word, k: nat, n: nat)
    requires n > 0
  {
    exists j: nat :: j < k && Probe(h, j) % n == b
  }

  /** The bits set are those that some key's probes land on, and no others. */
  ghost predicate FilterFor(hash: UserKey -> Word, keys: seq<UserKey>, f: Filter) {
    && |f.bits| > 0
    && forall b: nat :: b < |f.bits| ==> (f.bits[b] <==> BitIsDue(hash, keys, b, f.k, |f.bits|))
  }

  ghost predicate BitIsDue(hash: UserKey -> Word, keys: seq<UserKey>, b: nat, k: nat, n: nat)
    requires n > 0
  {
    exists i: nat :: i < |keys| && IsProbed(b, hash(keys[i]), k, n)
  }

  /** No false negatives. */
  lemma FilterAdmitsItsKeys(hash: UserKey -> Word, keys: seq<UserKey>, f: Filter)
    requires FilterFor(hash, keys, f)
    ensures forall i :: 0 <= i < |keys| ==> Matches(hash, f, keys[i])
  {
    hide Probe;
    forall i: nat, j: nat | i < |keys| && j < f.k
      ensures f.bits[Probe(hash(keys[i]), j) % |f.bits|]
    {
      assert IsProbed(Probe(hash(keys[i]), j) % |f.bits|, hash(keys[i]), f.k, |f.bits|);
      assert BitIsDue(hash, keys, Probe(hash(keys[i]), j) % |f.bits|, f.k, |f.bits|);
    }
  }

  /** Some probe of an added key goes to this place. */
  ghost predicate HitByAdded(hash: UserKey -> Word, keys: seq<UserKey>, k: nat, n: nat, place: nat)
    requires n > 0
  {
    exists i: nat, x: nat :: i < |keys| && x < k && Probe(hash(keys[i]), x) % n == place
  }

  /** Any key matches exactly if each of its probes goes where a probe of some added key does. */
  lemma FilterExcludes(hash: UserKey -> Word, keys: seq<UserKey>, f: Filter, key: UserKey)
    requires FilterFor(hash, keys, f) && f.k <= 30
    ensures Matches(hash, f, key) <==>
            forall j: nat :: j < f.k ==> HitByAdded(hash, keys, f.k, |f.bits|, Probe(hash(key), j) % |f.bits|)
  {
    hide Probe, HitByAdded;
    forall j: nat | j < f.k
      ensures f.bits[Probe(hash(key), j) % |f.bits|] <==> HitByAdded(hash, keys, f.k, |f.bits|, Probe(hash(key), j) % |f.bits|)
    {
      ProbedByAdded(hash, keys, f, Probe(hash(key), j) % |f.bits|);
    }
  }

  lemma ProbedByAdded(hash: UserKey -> Word, keys: seq<UserKey>, f: Filter, b: nat)
    requires FilterFor(hash, keys, f) && b < |f.bits|
    ensures f.bits[b] <==> HitByAdded(hash, keys, f.k, |f.bits|, b)
  {
    hide Probe;
    assert f.bits[b] <==> BitIsDue(hash, keys, b, f.k, |f.bits|);
    if i: nat, x: nat :| i < |keys| && x < f.k && Probe(hash(keys[i]), x) % |f.bits| == b {
      assert IsProbed(b, hash(keys[i]), f.k, |f.bits|);
    }
  }

  lemma OneMoreKey(hash: UserKey -> Word, keys: seq<UserKey>, key: UserKey, b: nat, k: nat, n: nat)
    requires n > 0
    ensures BitIsDue(hash, keys + [key], b, k, n) <==> BitIsDue(hash, keys, b, k, n) || IsProbed(b, hash(key), k, n)
  {
    hide IsProbed;
    var more := keys + [key];
    assert forall i :: 0 <= i < |keys| ==> more[i] == keys[i];
    assert more[|keys|] == key;
  }

  /** CreateFilter. */
  method CreateFilter(hash: UserKey -> Word, keys: seq<UserKey>, bitsPerKey: nat, k: nat) returns (f: Filter)
    requires 1 <= k <= 30
    ensures FilterFor(hash, keys, f) && f.k == k
    ensures |f.bits| % 8 == 0 && |f.bits| >= 64
    ensures |keys| * bitsPerKey >= 64 ==> |keys| * bitsPerKey <= |f.bits| < |keys| * bitsPerKey + 8
    ensures |keys| * bitsPerKey < 64 ==> |f.bits| == 64
  {
    hide IsProbed;
    var n := |keys| * bitsPerKey;
    if n < 64 {
      n := 64;
    }
    var bytes := (n + 7) / 8;
    n := bytes * 8;
    var array_ := new bool[n](_ => false);
    for i := 0 to |keys|
      invariant forall b: nat :: b < n ==> (array_[b] <==> BitIsDue(hash, keys[..i], b, k, n))
    {
      SetProbes(array_, hash(keys[i]), k);
      assert keys[..i + 1] == keys[..i] + [keys[i]];
      forall b: nat | b < n
        ensures array_[b] <==> BitIsDue(hash, keys[..i + 1], b, k, n)
      {
        OneMoreKey(hash, keys[..i], keys[i], b, k, n);
      }
    }
    assert keys[..|keys|] == keys;
    f := Filter(array_[..], k);
  }

  /** The inner loop of CreateFilter, for one key's hash value. */
  method SetProbes(array_: array<bool>, first: Word, k: nat)
    requires array_.Length > 0
    modifies array_
    ensures forall b: nat :: b < array_.Length ==> (array_[b] <==> old(array_[b]) || IsProbed(b, first, k, array_.Length))
  {
    hide Probe, Delta;
    var n := array_.Length;
    var h, delta := first, Delta(first);
    NextProbe(first, 0);
    for j := 0 to k
      invariant h == Probe(first, j) && delta == Delta(first)
      invariant forall b: nat :: b < n ==> (array_[b] <==> old(array_[b]) || IsProbed(b, first, j, n))
    {
      array_[h % n] := true;
      forall b: nat | b < n
        ensures IsProbed(b, first, j + 1, n) <==> IsProbed(b, first, j, n) || h % n == b
      {
        OneMoreProbe(b, first, j, n);
      }
      hide IsProbed;
      NextProbe(first, j);
      h := (h + delta) % 0x1_0000_0000;
    }
  }

  lemma OneMoreProbe(b: nat, h: Word, j: nat, n: nat)
    requires n > 0
    ensures IsProbed(b, h, j + 1, n) <==> IsProbed(b, h, j, n) || Probe(h, j) % n == b
  {
    hide Probe;
  }

  method KeyMayMatch(hash: UserKey -> Word, key: UserKey, f: Filter) returns (match_: bool)
    ensures match_ <==> Matches(hash, f, key)
  {
    hide Probe, Delta;
    if |f.bits| == 0 {
      return false;
    }
    if f.k > 30 {
      return true;
    }
    var h := hash(key);
    var delta := Delta(h);
    ghost var first := h;
    NextProbe(first, 0);
    for j := 0 to f.k
      invariant h == Probe(first, j) && delta == Delta(first) && ProbesSet(f.bits, first, j)
    {
      if !f.bits[h % |f.bits|] {
        return false;
      }
      NextProbe(first, j);
      h := (h + delta) % 0x1_0000_0000;
    }
    match_ := true;
  }

  // ---------------------------------------------------------------- the filter block

  const FILTER_BASE: nat := 2048

  /** No filter for a stretch of offsets in which no block with keys began. */
  type FilterBlock = seq<Option<Filter>>

  ghost predicate BlockMatches(hash: UserKey -> Word, filters: FilterBlock, blockOffset: nat, key: UserKey) {
    var index := blockOffset / FILTER_BASE;
    index < |filters| ==> filters[index].Some? && Matches(hash, filters[index].value, key)
  }

  /** FilterBlockReader::KeyMayMatch. */
  method BlockKeyMayMatch(hash: UserKey -> Word, filters: FilterBlock, blockOffset: nat, key: UserKey) returns (match_: bool)
    ensures match_ <==> BlockMatches(hash, filters, blockOffset, key)
    ensures blockOffset >= 2048 * |filters| ==> match_
    ensures forall i: nat :: 2048 * i <= blockOffset < 2048 * (i + 1) && i < |filters| ==>
              (match_ <==> filters[i].Some? && Matches(hash, filters[i].value, key))
  {
    var index := blockOffset / FILTER_BASE;
    if index < |filters| {
      match filters[index]
      case None => match_ := false;
      case Some(f) => match_ := KeyMayMatch(hash, key, f);
    } else {
      match_ := true;
    }
  }

  /** A key, with the number of the filter it belongs to. */
  datatype Added = Added(index: nat, key: UserKey)

  /** The keys that were added for one filter, in the order they came. */
  function KeysFor(added: seq<Added>, index: nat): (r: seq<UserKey>) {
    if added == [] then []
    else
      var before, last := KeysFor(added[..|added| - 1], index), added[|added| - 1];
      if last.index == index then before + [last.key] else before
  }

  lemma KeysForOneMore(added: seq<Added>, a: Added, index: nat)
    ensures KeysFor(added + [a], index) == if a.index == index then KeysFor(added, index) + [a.key] else KeysFor(added, index)
  {
    assert (added + [a])[..|added|] == added;
  }

  lemma {:induction false} AddedIsAmong(added: seq<Added>, a: Added)
    ensures a in added <==> a.key in KeysFor(added, a.index)
  {
    if added != [] {
      var n := |added| - 1;
      AddedIsAmong(added[..n], a);
      assert added == added[..n] + [added[n]];
    }
  }

  lemma {:induction false} NoneYet(added: seq<Added>, index: nat)
    requires forall a :: a in added ==> a.index < index
    ensures KeysFor(added, index) == []
  {
    if added != [] {
      var n := |added| - 1;
      assert added == added[..n] + [added[n]];
      NoneYet(added[..n], index);
    }
  }

  /** The filter for these keys; none if there are none. */
  ghost predicate MadeFor(hash: UserKey -> Word, keys: seq<UserKey>, k: nat, f: Option<Filter>) {
    if keys == [] then f == None else f.Some? && FilterFor(hash, keys, f.value) && f.value.k == k
  }

  class FilterBlockBuilder {
    const hash: UserKey -> Word
    const bitsPerKey: nat
    const k: nat
    var filters: FilterBlock
    var keys: seq<UserKey>                    // of the filter to be made next
    ghost var added: seq<Added>

    ghost predicate Valid()
      reads this
    {
      && 1 <= k <= 30
      && keys == KeysFor(added, |filters|)
      && (forall a :: a in added ==> a.index <= |filters|)
      && MadeSoFar()
    }

    /** Each filter is the one for the keys that were added at its offsets. */
    ghost predicate MadeSoFar()
      reads this
    {
      forall i: nat :: i < |filters| ==> MadeFor(hash, KeysFor(added, i), k, filters[i])
    }

    constructor (hash: UserKey -> Word, bitsPerKey: nat, k: nat)
      requires 1 <= k <= 30
      ensures Valid() && filters == [] && added == [] && this.hash == hash
    {
      this.hash, this.bitsPerKey, this.k := hash, bitsPerKey, k;
      filters, keys, added := [], [], [];
    }

    method GenerateFilter()
      requires Valid()
      modifies this`filters, this`keys
      ensures Valid() && keys == []
      ensures |filters| == old(|filters|) + 1 && filters[..old(|filters|)] == old(filters)
    {
      hide FilterFor, KeysFor;
      NoneYet(added, |filters| + 1);
      if |keys| == 0 {
        filters := filters + [None];
        return;
      }
      var f := CreateFilter(hash, keys, bitsPerKey, k);
      filters := filters + [Some(f)];
      keys := [];
    }

    /** Keys added from now on belong to the filter for this offset. */
    method StartBlock(blockOffset: nat)
      requires Valid() && blockOffset / FILTER_BASE >= |filters|
      modifies this`filters, this`keys
      ensures Valid() && |filters| == blockOffset / FILTER_BASE && old(filters) <= filters
    {
      hide MadeSoFar;
      var filterIndex := blockOffset / FILTER_BASE;
      while filterIndex > |filters|
        invariant Valid() && |filters| <= filterIndex && old(filters) <= filters
        decreases filterIndex - |filters|
      {
        GenerateFilter();
      }
    }

    method AddKey(key: UserKey)
      requires Valid()
      modifies this`keys, this`added
      ensures Valid() && added == old(added) + [Added(|filters|, key)]
    {
      hide KeysFor, MadeFor;
      forall i: nat | i <= |filters|
        ensures KeysFor(added + [Added(|filters|, key)], i)
                == if i == |filters| then KeysFor(added, i) + [key] else KeysFor(added, i)
      {
        KeysForOneMore(added, Added(|filters|, key), i);
      }
      keys := keys + [key];
      added := added + [Added(|filters|, key)];
    }

    /** The filters made, the last one for the keys still waiting. No false negatives: every key matches at the offset
        its block began at. */
    method Finish() returns (result: FilterBlock)
      requires Valid()
      modifies this`filters, this`keys
      ensures Valid() && keys == [] && result == filters && old(filters) <= result
      ensures |result| == old(|filters|) + (if old(keys) == [] then 0 else 1)
      ensures forall key, offset: nat :: Added(offset / FILTER_BASE, key) in added ==> BlockMatches(hash, result, offset, key)
    {
      if |keys| > 0 {
        GenerateFilter();
      }
      result := filters;
      forall key, offset: nat | Added(offset / FILTER_BASE, key) in added
        ensures BlockMatches(hash, result, offset, key)
      {
        AddedMatches(key, offset);
      }
    }

    lemma AddedMatches(key: UserKey, offset: nat)
      requires Valid() && Added(offset / FILTER_BASE, key) in added
      ensures BlockMatches(hash, filters, offset, key)
    {
      hide KeysFor, FilterFor, Matches;
      var index := offset / FILTER_BASE;
      if index < |filters| {
        AddedIsAmong(added, Added(index, key));
        assert MadeFor(hash, KeysFor(added, index), k, filters[index]);
        FilterAdmitsItsKeys(hash, KeysFor(added, index), filters[index].value);
      }
    }
  }
}
