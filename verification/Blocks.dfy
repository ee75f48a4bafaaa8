/**
 Blocks (table/block_builder.cc, table/block.cc): sorted keys and values in bytes, each key
 without the prefix it shares with the one before, and restart points to search from.
 */
module Blocks {
  import opened InternalKeys
  import opened Coding

  datatype KeyValue = KeyValue(key: Bytes, value: Bytes)

  // ---------------------------------------------------------------- one entry

  predicate Fits(kv: KeyValue) {
    |kv.key| < TWO_32 && |kv.value| < TWO_32
  }

  function EncodeEntry(shared: nat, kv: KeyValue): Bytes
    requires Fits(kv) && shared <= |kv.key|
  {
    EncodeVarint(shared) + EncodeVarint(|kv.key| - shared) + EncodeVarint(|kv.value|)
    + kv.key[shared..] + kv.value
  }

  /** The three numbers of an entry, and where the rest of its key begins. */
  datatype Decoded = Decoded(shared: nat, nonShared: nat, valueLength: nat, at: nat)

  function DecodeEntry(data: Bytes, p: nat, limit: nat): (r: Option<Decoded>)
    requires p <= limit <= |data|
    ensures r.Some? ==> r.value.at + r.value.nonShared + r.value.valueLength <= limit
  {
    if limit - p < 3 then None
    else if data[p] < 128 && data[p + 1] < 128 && data[p + 2] < 128 then
      InBlock(data[p] as int, data[p + 1] as int, data[p + 2] as int, p + 3, limit)
    else
      var a := GetVarint32(data, p, limit);
      if a.None? then None else
      var b := GetVarint32(data, a.value.next, limit);
      if b.None? then None else
      var c := GetVarint32(data, b.value.next, limit);
      if c.None? then None else
      InBlock(a.value.value, b.value.value, c.value.value, c.value.next, limit)
  }

  function InBlock(shared: nat, nonShared: nat, valueLength: nat, at: nat, limit: nat): (r: Option<Decoded>)
    ensures r.Some? ==> r == Some(Decoded(shared, nonShared, valueLength, at)) && at + nonShared + valueLength <= limit
  {
    if limit - at < nonShared + valueLength then None else Some(Decoded(shared, nonShared, valueLength, at))
  }

  lemma Peel(data: Bytes, p: nat, first: Bytes, rest: Bytes)
    requires p + |first| + |rest| <= |data| && data[p..p + |first| + |rest|] == first + rest
    ensures data[p..p + |first|] == first && data[p + |first|..p + |first| + |rest|] == rest
  {
    var whole := data[p..p + |first| + |rest|];
    assert whole[..|first|] == first && whole[|first|..] == rest;
    assert data[p..p + |first|] == whole[..|first|];
    assert data[p + |first|..p + |first| + |rest|] == whole[|first|..];
  }

  lemma Assoc(a: Bytes, b: Bytes, c: Bytes, k: Bytes, v: Bytes)
    ensures a + b + c + k + v == a + (b + (c + (k + v)))
  {
  }

  /** Decoding an encoded entry gives its parts back, by the fast path and the slow one. */
  lemma EntryRoundTrip(data: Bytes, p: nat, limit: nat, shared: nat, kv: KeyValue)
    requires Fits(kv) && shared <= |kv.key| && p + |EncodeEntry(shared, kv)| <= limit <= |data|
    requires data[p..p + |EncodeEntry(shared, kv)|] == EncodeEntry(shared, kv)
    ensures var n, m := |kv.key| - shared, |kv.value|;
            var at := p + |EncodeEntry(shared, kv)| - n - m;
            && p + 3 <= at && DecodeEntry(data, p, limit) == Some(Decoded(shared, n, m, at))
            && data[at..at + n] == kv.key[shared..] && data[at + n..at + n + m] == kv.value
  {
    hide EncodeVarint, DecodeEntry, HoldsVarint, EncodeEntry;
    EntryHolds(data, p, limit, shared, kv);
    ThreeNumbers(data, p, limit, shared, |kv.key| - shared, |kv.value|);
  }

  /** The parts of an encoded entry, one after the other. */
  lemma EntryHolds(data: Bytes, p: nat, limit: nat, shared: nat, kv: KeyValue)
    requires Fits(kv) && shared <= |kv.key| && p + |EncodeEntry(shared, kv)| <= limit <= |data|
    requires data[p..p + |EncodeEntry(shared, kv)|] == EncodeEntry(shared, kv)
    ensures var n, m := |kv.key| - shared, |kv.value|;
            var a, b, c := |EncodeVarint(shared)|, |EncodeVarint(n)|, |EncodeVarint(m)|;
            var at := p + a + b + c;
            && HoldsVarint(data, p, limit, shared) && HoldsVarint(data, p + a, limit, n) && HoldsVarint(data, p + a + b, limit, m)
            && |EncodeEntry(shared, kv)| == a + b + c + n + m && a > 0 && b > 0 && c > 0
            && data[at..at + n] == kv.key[shared..] && data[at + n..at + n + m] == kv.value
  {
    hide EncodeVarint;
    var a, b, c := EncodeVarint(shared), EncodeVarint(|kv.key| - shared), EncodeVarint(|kv.value|);
    var k, v := kv.key[shared..], kv.value;
    var whole := a + b + c + k + v;
    assert EncodeEntry(shared, kv) == whole && |whole| == |a| + |b| + |c| + |k| + |v|;
    hide EncodeEntry;
    FiveParts(data, p, a, b, c, k, v);
  }

  lemma FiveParts(data: Bytes, p: nat, a: Bytes, b: Bytes, c: Bytes, k: Bytes, v: Bytes)
    requires var whole := a + b + c + k + v; p + |whole| <= |data| && data[p..p + |whole|] == whole
    ensures data[p..p + |a|] == a && data[p + |a|..p + |a| + |b|] == b
    ensures data[p + |a| + |b|..p + |a| + |b| + |c|] == c
    ensures var at := p + |a| + |b| + |c|; data[at..at + |k|] == k && data[at + |k|..at + |k| + |v|] == v
  {
    Assoc(a, b, c, k, v);
    var kv := k + v;
    var ckv := c + kv;
    var bckv := b + ckv;
    Peel(data, p, a, bckv);
    Peel(data, p + |a|, b, ckv);
    Peel(data, p + |a| + |b|, c, kv);
    Peel(data, p + |a| + |b| + |c|, k, v);
  }

  lemma ThreeNumbers(data: Bytes, p: nat, limit: nat, x: Word, y: Word, z: Word)
    requires HoldsVarint(data, p, limit, x) && HoldsVarint(data, p + |EncodeVarint(x)|, limit, y)
    requires HoldsVarint(data, p + |EncodeVarint(x)| + |EncodeVarint(y)|, limit, z)
    requires p + |EncodeVarint(x)| + |EncodeVarint(y)| + |EncodeVarint(z)| + y + z <= limit <= |data|
    ensures var at := p + |EncodeVarint(x)| + |EncodeVarint(y)| + |EncodeVarint(z)|;
            DecodeEntry(data, p, limit) == Some(Decoded(x, y, z, at))
  {
    hide EncodeVarint, GetVarint32, HoldsVarint;
    var q := p + |EncodeVarint(x)|;
    var r := q + |EncodeVarint(y)|;
    FirstByteTells(data, p, limit, x);
    FirstByteTells(data, q, limit, y);
    FirstByteTells(data, r, limit, z);
    if x >= 128 || y >= 128 || z >= 128 {
      VarintRoundTrip(data, p, limit, x);
      VarintRoundTrip(data, q, limit, y);
      VarintRoundTrip(data, r, limit, z);
      SlowPath(data, p, limit, Parsed(x, q), Parsed(y, r), Parsed(z, r + |EncodeVarint(z)|));
    }
  }

  lemma SlowPath(data: Bytes, p: nat, limit: nat, x: Parsed, y: Parsed, z: Parsed)
    requires p + 3 <= limit <= |data| && !(data[p] < 128 && data[p + 1] < 128 && data[p + 2] < 128)
    requires GetVarint32(data, p, limit) == Some(x) && GetVarint32(data, x.next, limit) == Some(y)
    requires GetVarint32(data, y.next, limit) == Some(z) && z.next + y.value + z.value <= limit
    ensures DecodeEntry(data, p, limit) == Some(Decoded(x.value, y.value, z.value, z.next))
  {
    hide GetVarint32;
  }

  // ---------------------------------------------------------------- entries one after the other

  /** Where each entry of a block begins, how much of its key it takes from the one before, and which entries
      are restart points. */
  datatype Layout = Layout(entries: seq<KeyValue>, offsets: seq<nat>, shares: seq<nat>, restarts: seq<nat>)

  ghost predicate EntryLaid(data: Bytes, l: Layout, i: nat)
    requires i < |l.entries| && |l.offsets| == |l.entries| + 1 && |l.shares| == |l.entries|
  {
    var kv, shared := l.entries[i], l.shares[i];
    && Fits(kv) && shared <= |kv.key|
    && (if i == 0 then shared == 0
        else shared <= |l.entries[i - 1].key| && l.entries[i - 1].key[..shared] == kv.key[..shared])
    && l.offsets[i + 1] == l.offsets[i] + |EncodeEntry(shared, kv)| <= |data|
    && data[l.offsets[i]..l.offsets[i + 1]] == EncodeEntry(shared, kv)
  }

  ghost predicate RestartsOk(l: Layout)
    requires |l.shares| == |l.entries|
  {
    && |l.restarts| > 0 && l.restarts[0] == 0
    && (forall k :: 0 < k < |l.restarts| ==> l.restarts[k] < |l.entries|)
    && (forall j, k :: 0 <= j < k < |l.restarts| ==> l.restarts[j] < l.restarts[k])
    && (forall k :: 0 <= k < |l.restarts| && l.restarts[k] < |l.entries| ==> l.shares[l.restarts[k]] == 0)
  }

  /** The first limit bytes of data are these entries. */
  ghost predicate Laid(data: Bytes, limit: nat, l: Layout) {
    && |l.offsets| == |l.entries| + 1 && |l.shares| == |l.entries|
    && l.offsets[0] == 0 && l.offsets[|l.entries|] == limit <= |data|
    && (forall i :: 0 <= i < |l.entries| ==> EntryLaid(data, l, i))
    && RestartsOk(l)
  }

  lemma {:induction false} OffsetsRise(data: Bytes, limit: nat, l: Layout, i: nat, j: nat)
    requires Laid(data, limit, l) && i <= j <= |l.entries|
    ensures l.offsets[i] + (j - i) <= l.offsets[j] <= limit
    decreases |l.entries| - i, j
  {
    hide EncodeEntry, RestartsOk;
    if i < |l.entries| {
      assert EntryLaid(data, l, i);
      EntrySize(l.shares[i], l.entries[i]);
      OffsetsRise(data, limit, l, i + 1, if i < j then j else i + 1);
    }
  }

  lemma EntrySize(shared: nat, kv: KeyValue)
    requires Fits(kv) && shared <= |kv.key|
    ensures |EncodeEntry(shared, kv)| >= 3
  {
  }

  /** Bytes appended do not change the entries. */
  lemma LaidStays(data: Bytes, limit: nat, l: Layout, more: Bytes)
    requires Laid(data, limit, l)
    ensures Laid(data + more, limit, l)
  {
    hide EncodeEntry, RestartsOk;
    forall i | 0 <= i < |l.entries|
      ensures EntryLaid(data + more, l, i)
    {
      assert EntryLaid(data, l, i);
      assert (data + more)[l.offsets[i]..l.offsets[i + 1]] == data[l.offsets[i]..l.offsets[i + 1]];
    }
  }

  function LastKey(l: Layout): Bytes {
    if l.entries == [] then [] else l.entries[|l.entries| - 1].key
  }

  function Appended(l: Layout, shared: nat, kv: KeyValue, limit: nat, restart: bool): Layout {
    Layout(l.entries + [kv], l.offsets + [limit], l.shares + [shared],
           if restart then l.restarts + [|l.entries|] else l.restarts)
  }

  /** One more entry at the end. */
  lemma AppendKeepsLaid(data: Bytes, l: Layout, shared: nat, kv: KeyValue, restart: bool)
    requires Laid(data, |data|, l) && Fits(kv) && shared <= |kv.key| && shared <= |LastKey(l)|
    requires LastKey(l)[..shared] == kv.key[..shared]
    requires restart ==> shared == 0 && |l.entries| > 0 && l.restarts[|l.restarts| - 1] < |l.entries|
    ensures var more := data + EncodeEntry(shared, kv); Laid(more, |more|, Appended(l, shared, kv, |more|, restart))
  {
    var more := data + EncodeEntry(shared, kv);
    var m := Appended(l, shared, kv, |more|, restart);
    LaidStays(data, |data|, l, EncodeEntry(shared, kv));
    hide EncodeEntry;
    forall i | 0 <= i < |m.entries|
      ensures EntryLaid(more, m, i)
    {
      if i < |l.entries| {
        assert EntryLaid(more, l, i);
      } else {
        assert more[|data|..|more|] == EncodeEntry(shared, kv);
      }
    }
    AppendKeepsRestarts(l, shared, kv, |more|, restart);
  }

  lemma AppendKeepsRestarts(l: Layout, shared: nat, kv: KeyValue, limit: nat, restart: bool)
    requires |l.shares| == |l.entries| && RestartsOk(l)
    requires |l.entries| == 0 ==> shared == 0
    requires restart ==> shared == 0 && |l.entries| > 0 && l.restarts[|l.restarts| - 1] < |l.entries|
    ensures RestartsOk(Appended(l, shared, kv, limit, restart))
  {
    var m := Appended(l, shared, kv, limit, restart);
    if restart {
      forall j | 0 <= j < |l.restarts|
        ensures l.restarts[j] < |l.entries|
      {
        assert j > 0 || l.restarts[j] == 0;
      }
    }
    forall k | 0 <= k < |m.restarts|
      ensures m.restarts[k] == if k < |l.restarts| then l.restarts[k] else |l.entries|
      ensures 0 < k ==> m.restarts[k] < |m.entries|
      ensures m.restarts[k] < |m.entries| ==> m.shares[m.restarts[k]] == 0
    {
    }
    forall j, k | 0 <= j < k < |m.restarts|
      ensures m.restarts[j] < m.restarts[k]
    {
    }
  }

  // ---------------------------------------------------------------- finished blocks

  function RestartArray(points: seq<nat>): (r: Bytes)
    requires forall k :: 0 <= k < |points| ==> points[k] < TWO_32
    ensures |r| == 4 * |points|
  {
    if points == [] then []
    else
      Fixed32Size(points[|points| - 1]);
      RestartArray(points[..|points| - 1]) + EncodeFixed32(points[|points| - 1])
  }

  function RestartPoint(data: Bytes, restarts: nat, k: nat): Word
    requires restarts + 4 * k + 4 <= |data|
  {
    DecodeFixed32(data[restarts + 4 * k..])
  }

  lemma {:induction false} RestartArrayAt(before: Bytes, points: seq<nat>, after: Bytes, k: nat)
    requires (forall k :: 0 <= k < |points| ==> points[k] < TWO_32) && k < |points|
    ensures RestartPoint(before + RestartArray(points) + after, |before|, k) == points[k]
    decreases |points|
  {
    hide EncodeFixed32, DecodeFixed32;
    var n := |points| - 1;
    var last := EncodeFixed32(points[n]);
    Fixed32Size(points[n]);
    var all := before + RestartArray(points) + after;
    if k < n {
      RestartArrayAt(before, points[..n], last + after, k);
      assert all == before + RestartArray(points[..n]) + (last + after);
    } else {
      assert all[|before| + 4 * n..] == last + after;
      Fixed32RoundTrip(points[n], after);
    }
  }

  /** What Block's constructor makes of the bytes: where the restart array is, and what it says. */
  ghost predicate GoodBlock(data: Bytes, restarts: nat, l: Layout) {
    && restarts + 4 * (|l.restarts| + 1) == |data| && Laid(data, restarts, l)
    && RestartPoint(data, restarts, |l.restarts|) == |l.restarts|
    && (forall k :: 0 <= k < |l.restarts| ==> RestartPoint(data, restarts, k) == l.offsets[l.restarts[k]])
  }

  /** What a builder's fields say about the entries it has been given. */
  ghost predicate BuilderOk(interval: nat, buffer: Bytes, restarts: seq<nat>, counter: nat, lastKey: Bytes, l: Layout) {
    && counter <= interval && |buffer| < TWO_32
    && Laid(buffer, |buffer|, l) && lastKey == LastKey(l)
    && (counter == 0 ==> l.entries == [])
    && l.restarts[|l.restarts| - 1] + counter == |l.entries|
    && Spaced(interval, l.restarts) && PointsAre(l, restarts)
  }

  /** Every interval entries there is a restart point. */
  ghost predicate Spaced(interval: nat, restarts: seq<nat>) {
    forall k :: 1 <= k < |restarts| ==> restarts[k] == restarts[k - 1] + interval
  }

  lemma SpacedOn(interval: nat, restarts: seq<nat>, next: nat)
    requires Spaced(interval, restarts) && |restarts| > 0 && next == restarts[|restarts| - 1] + interval
    ensures Spaced(interval, restarts + [next])
  {
  }

  ghost predicate PointsAre(l: Layout, points: seq<nat>)
    requires |l.offsets| == |l.entries| + 1
  {
    && |points| == |l.restarts|
    && forall k :: 0 <= k < |points| ==> l.restarts[k] <= |l.entries| && points[k] == l.offsets[l.restarts[k]]
  }

  lemma CounterInRange(interval: nat, buffer: Bytes, restarts: seq<nat>, counter: nat, lastKey: Bytes, l: Layout)
    requires BuilderOk(interval, buffer, restarts, counter, lastKey, l)
    ensures counter <= interval
  {
  }

  lemma AddKeepsOk(interval: nat, buffer: Bytes, restarts: seq<nat>, counter: nat, lastKey: Bytes, l: Layout,
                   shared: nat, kv: KeyValue, restart: bool)
    requires BuilderOk(interval, buffer, restarts, counter, lastKey, l) && interval >= 1
    requires |buffer| + |kv.key| + |kv.value| + 15 < TWO_32 && Fits(kv)
    requires shared <= |kv.key| && shared <= |lastKey| && lastKey[..shared] == kv.key[..shared]
    requires restart == (counter == interval) && (restart ==> shared == 0)
    ensures var more := buffer + EncodeEntry(shared, kv);
            BuilderOk(interval, more, if restart then restarts + [|buffer|] else restarts,
                      (if restart then 0 else counter) + 1, kv.key, Appended(l, shared, kv, |more|, restart))
  {
    hide EncodeEntry, BuilderOk;
    if restart {
      AddRestartKeepsOk(interval, buffer, restarts, counter, lastKey, l, kv);
    } else {
      AddSharedKeepsOk(interval, buffer, restarts, counter, lastKey, l, shared, kv);
    }
  }

  lemma AddSharedKeepsOk(interval: nat, buffer: Bytes, restarts: seq<nat>, counter: nat, lastKey: Bytes, l: Layout,
                         shared: nat, kv: KeyValue)
    requires BuilderOk(interval, buffer, restarts, counter, lastKey, l) && counter != interval
    requires |buffer| + |kv.key| + |kv.value| + 15 < TWO_32 && Fits(kv)
    requires shared <= |kv.key| && shared <= |lastKey| && lastKey[..shared] == kv.key[..shared]
    ensures var more := buffer + EncodeEntry(shared, kv);
            BuilderOk(interval, more, restarts, counter + 1, kv.key, Appended(l, shared, kv, |more|, false))
  {
    var more := buffer + EncodeEntry(shared, kv);
    BuilderShape(interval, buffer, restarts, counter, lastKey, l);
    hide EncodeEntry, Laid, PointsAre, Spaced, LastKey, BuilderOk;
    AppendKeepsLaid(buffer, l, shared, kv, false);
    EntryBound(shared, kv);
    LastOf(l, shared, kv, |more|, false);
    PointsGo(l, shared, kv, |more|, false, restarts, |buffer|);
    AppendedShape(l, shared, kv, |more|, false);
    hide Appended;
    MakesOk(interval, more, restarts, counter + 1, kv.key, Appended(l, shared, kv, |more|, false));
  }

  lemma AddRestartKeepsOk(interval: nat, buffer: Bytes, restarts: seq<nat>, counter: nat, lastKey: Bytes, l: Layout,
                          kv: KeyValue)
    requires BuilderOk(interval, buffer, restarts, counter, lastKey, l) && counter == interval >= 1
    requires |buffer| + |kv.key| + |kv.value| + 15 < TWO_32 && Fits(kv)
    ensures var more := buffer + EncodeEntry(0, kv);
            BuilderOk(interval, more, restarts + [|buffer|], 1, kv.key, Appended(l, 0, kv, |more|, true))
  {
    var more := buffer + EncodeEntry(0, kv);
    BuilderShape(interval, buffer, restarts, counter, lastKey, l);
    hide EncodeEntry, Laid, PointsAre, Spaced, LastKey, BuilderOk;
    assert LastKey(l)[..0] == kv.key[..0];
    AppendKeepsLaid(buffer, l, 0, kv, true);
    EntryBound(0, kv);
    LastOf(l, 0, kv, |more|, true);
    SpacedOn(interval, l.restarts, |l.entries|);
    PointsGo(l, 0, kv, |more|, true, restarts, |buffer|);
    AppendedShape(l, 0, kv, |more|, true);
    hide Appended;
    MakesOk(interval, more, restarts + [|buffer|], 1, kv.key, Appended(l, 0, kv, |more|, true));
  }

  lemma AppendedShape(l: Layout, shared: nat, kv: KeyValue, limit: nat, restart: bool)
    requires |l.offsets| == |l.entries| + 1 && |l.restarts| > 0
    ensures var m := Appended(l, shared, kv, limit, restart);
            && |m.entries| == |l.entries| + 1 == |m.offsets| - 1 && m.entries != [] && |m.restarts| > 0
            && m.restarts == (if restart then l.restarts + [|l.entries|] else l.restarts)
            && m.restarts[|m.restarts| - 1] == if restart then |l.entries| else l.restarts[|l.restarts| - 1]
  {
  }

  lemma LastOf(l: Layout, shared: nat, kv: KeyValue, limit: nat, restart: bool)
    ensures LastKey(Appended(l, shared, kv, limit, restart)) == kv.key
  {
  }

  lemma BuilderShape(interval: nat, buffer: Bytes, restarts: seq<nat>, counter: nat, lastKey: Bytes, l: Layout)
    requires BuilderOk(interval, buffer, restarts, counter, lastKey, l)
    ensures Laid(buffer, |buffer|, l) && |l.offsets| == |l.entries| + 1 && l.offsets[|l.entries|] == |buffer|
    ensures counter <= interval && lastKey == LastKey(l) && (counter == 0 ==> l.entries == [])
    ensures |l.restarts| > 0 && l.restarts[|l.restarts| - 1] + counter == |l.entries|
    ensures Spaced(interval, l.restarts) && PointsAre(l, restarts)
  {
  }

  lemma MakesOk(interval: nat, buffer: Bytes, restarts: seq<nat>, counter: nat, lastKey: Bytes, l: Layout)
    requires counter <= interval && |buffer| < TWO_32 && Laid(buffer, |buffer|, l) && lastKey == LastKey(l)
    requires (counter == 0 ==> l.entries == []) && |l.restarts| > 0 && l.restarts[|l.restarts| - 1] + counter == |l.entries|
    requires Spaced(interval, l.restarts) && |l.offsets| == |l.entries| + 1 && PointsAre(l, restarts)
    ensures BuilderOk(interval, buffer, restarts, counter, lastKey, l)
  {
    hide PointsAre, Spaced, LastKey;
  }

  class BlockBuilder {
    const interval: nat
    var buffer: Bytes
    var restarts: seq<nat>
    var counter: nat
    var lastKey: Bytes
    var finished: bool
    ghost var layout: Layout

    ghost predicate Valid()
      reads this
    {
      interval >= 1 && BuilderOk(interval, buffer, restarts, counter, lastKey, layout)
    }

    constructor (interval: nat)
      requires interval >= 1
      ensures Valid() && layout.entries == [] && !finished && this.interval == interval && buffer == [] && |restarts| == 1
    {
      this.interval := interval;
      buffer, restarts, counter, lastKey, finished := [], [0], 0, [], false;
      layout := Layout([], [0], [], [0]);
    }

    method Add(key: Bytes, value: Bytes)
      requires Valid() && !finished
      requires |buffer| + |key| + |value| + 15 < TWO_32      // offsets take 32 bits
      modifies this
      ensures Valid() && !finished
      ensures layout.entries == old(layout.entries) + [KeyValue(key, value)]
      ensures var n := |old(layout.shares)|;
              && |layout.shares| == n + 1 && layout.shares[..n] == old(layout.shares)
              && if old(counter) == interval then layout.shares[n] == 0
                 else CommonPrefix(old(lastKey), key, layout.shares[n])
      ensures layout.restarts == old(layout.restarts) + if old(counter) == interval then [|old(layout.entries)|] else []
      ensures |buffer| <= old(|buffer|) + |key| + |value| + 15 && |restarts| <= old(|restarts|) + 1
    {
      hide EncodeEntry, BuilderOk, EncodeVarint;
      CounterInRange(interval, buffer, restarts, counter, lastKey, layout);
      var shared, restart := 0, counter >= interval;
      if !restart {
        shared := SharedPrefix(lastKey, key);
      }
      ghost var kv := KeyValue(key, value);
      AddKeepsOk(interval, buffer, restarts, counter, lastKey, layout, shared, kv, restart);
      PrefixJoins(lastKey, key, shared);
      layout := Appended(layout, shared, kv, |buffer + EncodeEntry(shared, kv)|, restart);
      assert layout.entries == old(layout.entries) + [kv];
      hide Appended;
      if restart {
        restarts := restarts + [|buffer|];
        counter := 0;
      }
      EntryBound(shared, kv);
      AppendEntry(shared, key, value);
      lastKey := lastKey[..shared] + key[shared..];
      counter := counter + 1;
    }

    method AppendEntry(shared: nat, key: Bytes, value: Bytes)
      requires shared <= |key| && Fits(KeyValue(key, value))
      modifies this`buffer
      ensures buffer == old(buffer) + EncodeEntry(shared, KeyValue(key, value))
    {
      EntryAppended(buffer, shared, KeyValue(key, value));
      hide EncodeEntry, EncodeVarint;
      buffer := buffer + EncodeVarint(shared) + EncodeVarint(|key| - shared) + EncodeVarint(|value|);
      buffer := buffer + key[shared..] + value;
    }

    method Finish() returns (data: Bytes, ghost l: Layout)
      requires Valid() && !finished && |restarts| < TWO_32
      modifies this
      ensures finished && l == old(layout) && GoodBlock(data, old(|buffer|), l)
      ensures |data| == old(|buffer|) + 4 * (old(|restarts|) + 1)
    {
      PointsFit(buffer, layout, restarts);
      l := layout;
      FinishedIsGood(buffer, layout, restarts);
      Fixed32Size(|restarts|);
      data := buffer + RestartArray(restarts) + EncodeFixed32(|restarts|);
      finished := true;
    }
  }

  lemma PointsGo(l: Layout, shared: nat, kv: KeyValue, limit: nat, restart: bool, points: seq<nat>, end: nat)
    requires |l.offsets| == |l.entries| + 1 && PointsAre(l, points) && end == l.offsets[|l.entries|]
    ensures PointsAre(Appended(l, shared, kv, limit, restart), if restart then points + [end] else points)
  {
  }

  lemma PointsFit(buffer: Bytes, l: Layout, points: seq<nat>)
    requires Laid(buffer, |buffer|, l) && |buffer| < TWO_32 && PointsAre(l, points)
    ensures forall k :: 0 <= k < |points| ==> points[k] < TWO_32
  {
    forall k | 0 <= k < |points|
      ensures points[k] < TWO_32
    {
      OffsetsRise(buffer, |buffer|, l, l.restarts[k], |l.entries|);
    }
  }

  lemma FinishedIsGood(buffer: Bytes, l: Layout, points: seq<nat>)
    requires Laid(buffer, |buffer|, l) && PointsAre(l, points) && |points| < TWO_32
    requires forall k :: 0 <= k < |points| ==> points[k] < TWO_32
    ensures GoodBlock(buffer + RestartArray(points) + EncodeFixed32(|points|), |buffer|, l)
  {
    hide Laid, EncodeFixed32, DecodeFixed32, RestartArray;
    var last := EncodeFixed32(|points|);
    var data := buffer + RestartArray(points) + last;
    Fixed32Size(|points|);
    assert data == buffer + (RestartArray(points) + last);
    LaidStays(buffer, |buffer|, l, RestartArray(points) + last);
    forall k | 0 <= k < |points|
      ensures RestartPoint(data, |buffer|, k) == points[k]
    {
      RestartArrayAt(buffer, points, last, k);
    }
    assert data[|buffer| + 4 * |points|..] == last + [];
    Fixed32RoundTrip(|points|, []);
  }

  lemma PrefixJoins(a: Bytes, b: Bytes, n: nat)
    requires n <= |a| && n <= |b| && a[..n] == b[..n]
    ensures a[..n] + b[n..] == b
  {
  }

  lemma EntryAppended(buffer: Bytes, shared: nat, kv: KeyValue)
    requires Fits(kv) && shared <= |kv.key|
    ensures buffer + EncodeVarint(shared) + EncodeVarint(|kv.key| - shared) + EncodeVarint(|kv.value|)
            + kv.key[shared..] + kv.value == buffer + EncodeEntry(shared, kv)
  {
    hide EncodeVarint;
  }

  /** The longest prefix two keys share has n bytes. */
  ghost predicate CommonPrefix(a: Bytes, b: Bytes, n: nat) {
    n <= |a| && n <= |b| && a[..n] == b[..n] && (n < |a| && n < |b| ==> a[n] != b[n])
  }

  /** Such a prefix is all that the keys share. */
  lemma NoLongerPrefix(a: Bytes, b: Bytes, n: nat, m: nat)
    requires CommonPrefix(a, b, n) && m <= |a| && m <= |b|
    ensures a[..m] == b[..m] <==> m <= n
  {
    if m <= n {
      assert a[..m] == a[..n][..m] && b[..m] == b[..n][..m];
    } else {
      assert a[..m][n] != b[..m][n];
    }
  }

  method SharedPrefix(a: Bytes, b: Bytes) returns (shared: nat)
    ensures CommonPrefix(a, b, shared)
  {
    var minLength := if |a| < |b| then |a| else |b|;
    shared := 0;
    while shared < minLength && a[shared] == b[shared]
      invariant shared <= minLength && a[..shared] == b[..shared]
    {
      shared := shared + 1;
    }
  }

  lemma {:induction false} VarintBound(v: Word, k: nat)
    requires k > 0 && v < Pow128(k)
    ensures |EncodeVarint(v)| <= k
    decreases k
  {
    if v >= 128 {
      assert k > 1 by { assert Pow128(1) == 128; }
      VarintBound(v / 128, k - 1);
    }
  }

  lemma EntryBound(shared: nat, kv: KeyValue)
    requires Fits(kv) && shared <= |kv.key|
    ensures |EncodeEntry(shared, kv)| <= 15 + |kv.key| + |kv.value|
  {
    assert Pow128(1) == 128 && Pow128(2) == 16384 && Pow128(3) == 2097152 && Pow128(4) == 268435456;
    VarintBound(shared, 5);
    VarintBound(|kv.key| - shared, 5);
    VarintBound(|kv.value|, 5);
  }

  // ---------------------------------------------------------------- iterating

  ghost predicate Transitive(less: (Bytes, Bytes) -> bool) {
    forall a, b, c :: less(a, b) && less(b, c) ==> less(a, c)
  }

  ghost predicate Rising(less: (Bytes, Bytes) -> bool, entries: seq<KeyValue>) {
    forall i, j :: 0 <= i < j < |entries| ==> less(entries[i].key, entries[j].key)
  }

  /** The first entry whose key is not before the target. */
  ghost predicate IsSeekPlace(less: (Bytes, Bytes) -> bool, entries: seq<KeyValue>, target: Bytes, i: nat) {
    && i <= |entries|
    && (forall j :: 0 <= j < i ==> less(entries[j].key, target))
    && (i < |entries| ==> !less(entries[i].key, target))
  }

  /** Keys before one that is before the target are before the target too. */
  lemma AllBefore(less: (Bytes, Bytes) -> bool, entries: seq<KeyValue>, target: Bytes, i: nat)
    requires Transitive(less) && Rising(less, entries) && i < |entries| && less(entries[i].key, target)
    ensures forall j :: 0 <= j < i ==> less(entries[j].key, target)
  {
  }

  class BlockIter {
    const less: (Bytes, Bytes) -> bool
    const data: Bytes
    const restarts: nat             // offset of the restart array
    const numRestarts: nat
    ghost const layout: Layout
    var current: nat                // offset of the current entry; at or after the restart array if not valid
    var restartIndex: nat
    var key: Bytes
    var valueAt: nat
    var valueSize: nat
    ghost var at: nat               // the current entry, |entries| for none

    ghost predicate Valid()
      reads this
    {
      && GoodBlock(data, restarts, layout) && numRestarts == |layout.restarts| && at <= |layout.entries|
      && if at == |layout.entries| then current >= restarts
         else
           && current == layout.offsets[at] && key == layout.entries[at].key
           && valueAt + valueSize == layout.offsets[at + 1] && valueAt + valueSize <= |data|
           && data[valueAt..valueAt + valueSize] == layout.entries[at].value
           && restartIndex < numRestarts && layout.restarts[restartIndex] <= at
           && (restartIndex + 1 < numRestarts ==> at <= layout.restarts[restartIndex + 1])
    }

    /** The next entry to parse is j: it begins where the value held ends, and the key held has its prefix. */
    ghost predicate Before(j: nat)
      reads this
    {
      && GoodBlock(data, restarts, layout) && numRestarts == |layout.restarts| && j <= |layout.entries|
      && valueAt + valueSize == layout.offsets[j]
      && (j < |layout.entries| ==>
            && layout.shares[j] <= |key| && layout.shares[j] <= |layout.entries[j].key|
            && key[..layout.shares[j]] == layout.entries[j].key[..layout.shares[j]])
      && restartIndex < numRestarts && layout.restarts[restartIndex] <= j
    }

    /** Block's constructor and NewIterator on the bytes Finish made. */
    constructor (less: (Bytes, Bytes) -> bool, data: Bytes, ghost end: nat, ghost l: Layout)
      requires GoodBlock(data, end, l)
      ensures Valid() && at == |l.entries| && layout == l && this.data == data && this.less == less
    {
      assert end + 4 * |l.restarts| == |data| - 4;
      this.less, this.data, layout := less, data, l;
      numRestarts := DecodeFixed32(data[|data| - 4..]);
      restarts := |data| - 4 * (DecodeFixed32(data[|data| - 4..]) + 1);
      current, restartIndex, key, valueAt, valueSize := |data|, 0, [], 0, 0;
      at := |l.entries|;
    }

    function GetRestartPoint(k: nat): Word
      reads this
      requires restarts + 4 * k + 4 <= |data|
    {
      RestartPoint(data, restarts, k)
    }

    method SeekToRestartPoint(k: nat)
      requires GoodBlock(data, restarts, layout) && k < |layout.restarts| == numRestarts
      modifies this`key, this`restartIndex, this`valueAt, this`valueSize
      ensures Before(layout.restarts[k]) && restartIndex == k
    {
      key, restartIndex := [], k;
      valueAt, valueSize := GetRestartPoint(k), 0;
    }

    /** Entry j becomes the current one; past the last entry the iterator is no longer valid. */
    method ParseNextKey(ghost j: nat) returns (ok: bool)
      requires Before(j)
      modifies this
      ensures Valid() && at == j && (ok <==> j < |layout.entries|)
      ensures ok ==> restartIndex >= old(restartIndex)
    {
      BlockShape(data, restarts, layout, j);
      hide GoodBlock;
      current := valueAt + valueSize;
      at := j;
      if current >= restarts {
        current, restartIndex := restarts, numRestarts;
        return false;
      }
      ParseAt();
      ok := true;
    }

    /** The rest of ParseNextKey, where there is an entry. */
    method ParseAt()
      requires GoodBlock(data, restarts, layout) && numRestarts == |layout.restarts|
      requires at < |layout.entries| && current == layout.offsets[at]
      requires layout.shares[at] <= |key| && layout.shares[at] <= |layout.entries[at].key|
      requires key[..layout.shares[at]] == layout.entries[at].key[..layout.shares[at]]
      requires restartIndex < numRestarts && layout.restarts[restartIndex] <= at
      modifies this`key, this`valueAt, this`valueSize, this`restartIndex
      ensures Valid() && restartIndex >= old(restartIndex)
    {
      BlockShape(data, restarts, layout, at);
      hide GoodBlock;
      ParseEntry();
      AdvanceRestartIndex();
    }

    /** The entry at current is decoded: its key takes a prefix from the key held. */
    method ParseEntry()
      requires GoodBlock(data, restarts, layout) && at < |layout.entries| && current == layout.offsets[at]
      requires layout.shares[at] <= |key| && layout.shares[at] <= |layout.entries[at].key|
      requires key[..layout.shares[at]] == layout.entries[at].key[..layout.shares[at]]
      modifies this`key, this`valueAt, this`valueSize
      ensures key == layout.entries[at].key
      ensures valueAt + valueSize == layout.offsets[at + 1] <= |data|
      ensures data[valueAt..valueAt + valueSize] == layout.entries[at].value
    {
      EntryIsThere(data, restarts, layout, at);
      hide DecodeEntry, GoodBlock;
      var d := DecodeEntry(data, current, restarts);
      PrefixJoins(key, layout.entries[at].key, layout.shares[at]);
      key := key[..d.value.shared] + data[d.value.at..d.value.at + d.value.nonShared];
      valueAt, valueSize := d.value.at + d.value.nonShared, d.value.valueLength;
    }

    /** The last restart point before the current entry, or the one at it where the search came from. */
    method AdvanceRestartIndex()
      requires GoodBlock(data, restarts, layout) && numRestarts == |layout.restarts|
      requires at < |layout.entries| && current == layout.offsets[at]
      requires restartIndex < numRestarts && layout.restarts[restartIndex] <= at
      modifies this`restartIndex
      ensures old(restartIndex) <= restartIndex < numRestarts && layout.restarts[restartIndex] <= at
      ensures restartIndex + 1 < numRestarts ==> at <= layout.restarts[restartIndex + 1]
    {
      while restartIndex + 1 < numRestarts && GetRestartPoint(restartIndex + 1) < current
        invariant old(restartIndex) <= restartIndex < numRestarts && layout.restarts[restartIndex] <= at
        decreases numRestarts - restartIndex
      {
        restartIndex := restartIndex + 1;
        BeforeByOffset(data, restarts, layout, layout.restarts[restartIndex], at);
      }
      if restartIndex + 1 < numRestarts {
        BeforeByOffset(data, restarts, layout, layout.restarts[restartIndex + 1], at);
      }
    }

    method Next()
      requires Valid() && at < |layout.entries|
      modifies this
      ensures Valid() && at == old(at) + 1
    {
      var _ := ParseFollowing();
    }

    /** ParseNextKey from a current entry. */
    method ParseFollowing() returns (ok: bool)
      requires Valid() && at < |layout.entries|
      modifies this
      ensures Valid() && at == old(at) + 1 && (ok <==> at < |layout.entries|)
    {
      BlockShape(data, restarts, layout, at);
      EntryShares(data, restarts, layout, at + 1);
      hide GoodBlock;
      ok := ParseNextKey(at + 1);
    }

    method Prev()
      requires Valid() && at < |layout.entries|
      modifies this
      ensures Valid() && at == if old(at) > 0 then old(at) - 1 else |layout.entries|
    {
      var original := current;
      ghost var was := at;
      var found := FindRestartBefore(original);
      if found {
        ghost var j: nat := layout.restarts[restartIndex];
        hide GoodBlock;
        SeekToRestartPoint(restartIndex);
        ScanTo(original, j, was);
      }
    }

    /** Scan backwards to a restart point before the current entry. */
    method FindRestartBefore(original: nat) returns (found: bool)
      requires Valid() && at < |layout.entries| && original == current
      modifies this`restartIndex, this`current, this`at
      ensures found <==> old(at) > 0
      ensures found ==> restartIndex < numRestarts && layout.restarts[restartIndex] < old(at) && at == old(at)
      ensures !found ==> Valid() && at == |layout.entries|
    {
      ghost var was := at;
      RestartOffsets(data, restarts, layout);
      while GetRestartPoint(restartIndex) >= original
        invariant restartIndex < numRestarts && layout.restarts[restartIndex] <= was && at == was
        decreases restartIndex
      {
        BeforeByOffset(data, restarts, layout, layout.restarts[restartIndex], was);
        if restartIndex == 0 {
          current, restartIndex := restarts, numRestarts;
          at := |layout.entries|;
          return false;
        }
        restartIndex := restartIndex - 1;
      }
      BeforeByOffset(data, restarts, layout, layout.restarts[restartIndex], was);
      found := true;
    }

    /** Parse from entry j on until the end of the current entry hits the given offset. */
    method ScanTo(original: nat, ghost j: nat, ghost end: nat)
      requires Before(j) && |layout.entries| + 1 == |layout.offsets|
      requires end <= |layout.entries| && original == layout.offsets[end] && (j < end || j == end == |layout.entries|)
      modifies this
      ensures Valid() && at == if j < end then end - 1 else end
    {
      hide GoodBlock, Laid;
      var ok := ParseNextKey(j);
      GoodIsLaid(data, restarts, layout);
      while ok && NextEntryOffset() < original
        invariant Valid() && (ok <==> at < |layout.entries|) && Laid(data, restarts, layout)
        invariant if j < end then at < end else at == end
        decreases end - at
      {
        BeforeByOffset(data, restarts, layout, at + 1, end);
        ok := ParseFollowing();
      }
      if ok {
        BeforeByOffset(data, restarts, layout, at + 1, end);
      }
    }

    method SeekToFirst()
      requires Valid()
      modifies this
      ensures Valid() && at == 0
    {
      RestartOffsets(data, restarts, layout);
      SeekToRestartPoint(0);
      var _ := ParseNextKey(0);
    }

    method SeekToLast()
      requires Valid()
      modifies this
      ensures Valid() && at == if |layout.entries| > 0 then |layout.entries| - 1 else 0
    {
      RestartOffsets(data, restarts, layout);
      BlockShape(data, restarts, layout, |layout.entries|);
      SeekToRestartPoint(numRestarts - 1);
      LastRestart(layout);
      ScanTo(restarts, layout.restarts[numRestarts - 1], |layout.entries|);
    }

    /** Seek: binary search among the restart points, then entry by entry. */
    method Seek(target: Bytes)
      requires Valid() && Transitive(less) && Rising(less, layout.entries)
      modifies this
      ensures Valid() && IsSeekPlace(less, layout.entries, target, at)
    {
      hide Transitive, Rising;
      var left := FindRestartFor(target);
      hide GoodBlock;
      SeekToRestartPoint(left);
      var ok := ParseNextKey(layout.restarts[left]);
      SeekOn(ok, target);
    }

    /** The linear search, from the entry just parsed. */
    method SeekOn(parsed: bool, target: Bytes)
      requires Valid() && (parsed <==> at < |layout.entries|)
      requires forall j :: 0 <= j < at ==> less(layout.entries[j].key, target)
      modifies this
      ensures Valid() && IsSeekPlace(less, layout.entries, target, at)
    {
      hide GoodBlock;
      var ok := parsed;
      while ok && less(key, target)
        invariant Valid() && (ok <==> at < |layout.entries|)
        invariant forall j :: 0 <= j < at ==> less(layout.entries[j].key, target)
        decreases |layout.entries| - at
      {
        ok := ParseFollowing();
      }
    }

    method KeyAtRestart(k: nat) returns (midKey: Bytes)
      requires GoodBlock(data, restarts, layout) && 0 < k < |layout.restarts|
      ensures layout.restarts[k] < |layout.entries| && midKey == layout.entries[layout.restarts[k]].key
    {
      RestartKey(data, restarts, layout, k);
      var d := DecodeEntry(data, GetRestartPoint(k), restarts);
      midKey := data[d.value.at..d.value.at + d.value.nonShared];
    }

    /** The last restart point with a key before the target, or the first one. */
    method FindRestartFor(target: Bytes) returns (left: nat)
      requires Valid() && Transitive(less) && Rising(less, layout.entries)
      ensures left < numRestarts == |layout.restarts| && layout.restarts[left] <= |layout.entries|
      ensures forall j :: 0 <= j < layout.restarts[left] ==> less(layout.entries[j].key, target)
    {
      RestartOffsets(data, restarts, layout);
      hide Transitive, Rising, GoodBlock, RestartPoint, DecodeEntry;
      left := 0;
      var right := numRestarts - 1;
      while left < right
        invariant left <= right < numRestarts
        invariant forall j :: 0 <= j < layout.restarts[left] ==> less(layout.entries[j].key, target)
        decreases right - left
      {
        var mid := (left + right + 1) / 2;
        var midKey := KeyAtRestart(mid);
        if less(midKey, target) {
          AllBefore(less, layout.entries, target, layout.restarts[mid]);
          left := mid;
        } else {
          right := mid - 1;
        }
      }
    }

    function NextEntryOffset(): nat
      reads this
    {
      valueAt + valueSize
    }
  }

  /** Offsets compare as the entries do. */
  lemma BeforeByOffset(data: Bytes, limit: nat, l: Layout, i: nat, j: nat)
    requires Laid(data, limit, l) && i <= |l.entries| && j <= |l.entries|
    ensures l.offsets[i] < l.offsets[j] <==> i < j
  {
    if i <= j {
      OffsetsRise(data, limit, l, i, j);
    } else {
      OffsetsRise(data, limit, l, j, i);
    }
  }

  lemma GoodIsLaid(data: Bytes, restarts: nat, l: Layout)
    requires GoodBlock(data, restarts, l)
    ensures Laid(data, restarts, l) && |l.offsets| == |l.entries| + 1
  {
  }

  lemma BlockShape(data: Bytes, restarts: nat, l: Layout, j: nat)
    requires GoodBlock(data, restarts, l) && j <= |l.entries|
    ensures |l.offsets| == |l.entries| + 1 && |l.shares| == |l.entries| && restarts <= |data| && |l.restarts| > 0
    ensures restarts + 4 * (|l.restarts| + 1) == |data|
    ensures l.offsets[j] <= restarts && (l.offsets[j] < restarts <==> j < |l.entries|)
  {
    BeforeByOffset(data, restarts, l, j, |l.entries|);
    OffsetsRise(data, restarts, l, j, |l.entries|);
  }

  lemma LastRestart(l: Layout)
    requires |l.shares| == |l.entries| && RestartsOk(l)
    ensures |l.entries| == 0 ==> |l.restarts| == 1
    ensures |l.entries| > 0 ==> l.restarts[|l.restarts| - 1] < |l.entries|
  {
    var last := |l.restarts| - 1;
    assert last > 0 ==> l.restarts[last] < |l.entries|;
    assert last == 0 ==> l.restarts[last] == 0;
  }

  /** At a restart point the whole key is there, so no corruption is found. */
  lemma RestartKey(data: Bytes, restarts: nat, l: Layout, k: nat)
    requires GoodBlock(data, restarts, l) && 0 < k < |l.restarts|
    ensures l.restarts[k] < |l.entries| && RestartPoint(data, restarts, k) <= restarts
    ensures var d := DecodeEntry(data, RestartPoint(data, restarts, k), restarts);
            && d.Some? && d.value.shared == 0
            && data[d.value.at..d.value.at + d.value.nonShared] == l.entries[l.restarts[k]].key
  {
    hide EncodeEntry, DecodeEntry;
    EntryIsThere(data, restarts, l, l.restarts[k]);
  }

  lemma EntryShares(data: Bytes, restarts: nat, l: Layout, j: nat)
    requires GoodBlock(data, restarts, l) && 0 < j <= |l.entries|
    ensures |l.shares| == |l.entries|
    ensures j < |l.entries| ==> l.shares[j] <= |l.entries[j - 1].key| && l.shares[j] <= |l.entries[j].key|
    ensures j < |l.entries| ==> l.entries[j - 1].key[..l.shares[j]] == l.entries[j].key[..l.shares[j]]
  {
    hide EncodeEntry;
    assert j < |l.entries| ==> EntryLaid(data, l, j);
  }

  lemma RestartOffsets(data: Bytes, restarts: nat, l: Layout)
    requires GoodBlock(data, restarts, l)
    ensures |l.offsets| == |l.entries| + 1 && l.restarts[0] == 0 && l.offsets[0] == 0
    ensures forall k :: 0 <= k < |l.restarts| ==>
              l.restarts[k] <= |l.entries| && RestartPoint(data, restarts, k) == l.offsets[l.restarts[k]]
    ensures forall j, k :: 0 <= j < k < |l.restarts| ==> l.restarts[j] < l.restarts[k]
  {
  }

  lemma EntryIsThere(data: Bytes, limit: nat, l: Layout, j: nat)
    requires Laid(data, limit, l) && j < |l.entries|
    ensures l.offsets[j] < limit
    ensures var d := DecodeEntry(data, l.offsets[j], limit);
            var kv := l.entries[j];
            && d.Some? && d.value.shared == l.shares[j] && l.shares[j] <= |kv.key|
            && d.value.at + d.value.nonShared + d.value.valueLength == l.offsets[j + 1]
            && data[d.value.at..d.value.at + d.value.nonShared] == kv.key[l.shares[j]..]
            && data[d.value.at + d.value.nonShared..l.offsets[j + 1]] == kv.value
  {
    hide EncodeEntry, DecodeEntry;
    OffsetsRise(data, limit, l, j + 1, |l.entries|);
    OffsetsRise(data, limit, l, j, j + 1);
    assert EntryLaid(data, l, j);
    EntryRoundTrip(data, l.offsets[j], limit, l.shares[j], l.entries[j]);
  }
}
