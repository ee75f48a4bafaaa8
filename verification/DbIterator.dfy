/**
 The database iterator (db/db_iter.cc): it walks an internal iterator over all entries in
 both directions and shows one entry per user key, the newest one at its sequence number,
 leaving deleted keys out.
 */
module DbIterator {
  import opened InternalKeys
  import opened Visibility
  import opened Versions
  import opened WriteSteps

  // ---------------------------------------------------------------- what is shown

  /** Entry i is the newest visible one of its key, and a value. */
  ghost predicate Shown(entries: seq<Entry>, s: nat, i: int) {
    && 0 <= i < |entries|
    && entries[i].sn <= s && entries[i].kind.Value?
    && forall j :: 0 <= j < i && entries[j].key == entries[i].key ==> entries[j].sn > s
  }

  /** r is the first shown entry at or after from; |entries| stands for none. */
  ghost predicate NextShown(entries: seq<Entry>, s: nat, from: int, r: int) {
    && from <= r && (r == |entries| || Shown(entries, s, r))
    && forall i :: from <= i < r ==> !Shown(entries, s, i)
  }

  /** r is the last shown entry before below; |entries| stands for none. */
  ghost predicate PrevShown(entries: seq<Entry>, s: nat, below: int, r: int) {
    || (r == |entries| && forall i :: 0 <= i < below ==> !Shown(entries, s, i))
    || (r < below && Shown(entries, s, r) && forall i :: r < i < below ==> !Shown(entries, s, i))
  }

  /** The shown entries are the map from keys to newest values at s, in key order. */
  lemma ShownIsTheMap(entries: seq<Entry>, s: nat, u: UserKey, value: Bytes)
    requires Sorted(entries) && OnePerSequence(EntrySet(entries))
    ensures (exists i :: Shown(entries, s, i) && entries[i].key == u && entries[i].value == value) <==>
            Answer(EntrySet(entries), u, s) == Some(value)
  {
    if i :| Shown(entries, s, i) && entries[i].key == u && entries[i].value == value {
      ShownIsNewest(entries, s, i);
      AnswerIs(EntrySet(entries), u, s, entries[i]);
    }
    if Answer(EntrySet(entries), u, s) == Some(value) {
      var e :| Newest(EntrySet(entries), u, s, e) && Outcome(e) == Some(value);
      var i :| 0 <= i < |entries| && entries[i] == e;
      forall j | 0 <= j < i && entries[j].key == u
        ensures entries[j].sn > s
      {
        assert Precedes(entries[j], entries[i]);
        assert entries[j] in EntrySet(entries);
      }
      assert Shown(entries, s, i);
    }
  }

  lemma ShownIsNewest(entries: seq<Entry>, s: nat, i: int)
    requires Sorted(entries) && Shown(entries, s, i)
    ensures Newest(EntrySet(entries), entries[i].key, s, entries[i])
  {
    forall x | x in EntrySet(entries) && x.key == entries[i].key
      ensures x.sn <= entries[i].sn || x.sn > s
    {
      var j :| 0 <= j < |entries| && entries[j] == x;
      assert i < j ==> Precedes(entries[i], entries[j]);
    }
  }

  lemma ShownInKeyOrder(entries: seq<Entry>, s: nat, i: int, j: int)
    requires Sorted(entries) && Shown(entries, s, i) && Shown(entries, s, j) && i < j
    ensures entries[i].key < entries[j].key
  {
    assert Precedes(entries[i], entries[j]);
  }

  /** A key with an answer has a shown entry. */
  lemma AnsweredIsShown(entries: seq<Entry>, s: nat, u: UserKey) returns (i: nat)
    requires Sorted(entries) && OnePerSequence(EntrySet(entries))
    requires Answer(EntrySet(entries), u, s).Some?
    ensures Shown(entries, s, i) && entries[i].key == u && Answer(EntrySet(entries), u, s) == Some(entries[i].value)
  {
    var value := Answer(EntrySet(entries), u, s).value;
    ShownIsTheMap(entries, s, u, value);
    i :| Shown(entries, s, i) && entries[i].key == u && entries[i].value == value;
  }

  /** Moving on from c shows the least key of the map above c's, with its value, or there is none. */
  lemma NextIsNextKey(entries: seq<Entry>, s: nat, c: int, r: int)
    requires Sorted(entries) && OnePerSequence(EntrySet(entries))
    requires Shown(entries, s, c) && NextShown(entries, s, c + 1, r)
    ensures r < |entries| ==>
              entries[r].key > entries[c].key && Answer(EntrySet(entries), entries[r].key, s) == Some(entries[r].value)
    ensures forall u :: u > entries[c].key && (r < |entries| ==> u < entries[r].key) ==>
              Answer(EntrySet(entries), u, s) == None
  {
    hide Sorted, Answer, EntrySet, OnePerSequence;
    if r < |entries| {
      ShownInKeyOrder(entries, s, c, r);
      ShownIsTheMap(entries, s, entries[r].key, entries[r].value);
    }
    forall u | u > entries[c].key && (r < |entries| ==> u < entries[r].key) && Answer(EntrySet(entries), u, s).Some?
      ensures false
    {
      var i := AnsweredIsShown(entries, s, u);
      if i < c {
        ShownInKeyOrder(entries, s, i, c);
      } else if r < i {
        ShownInKeyOrder(entries, s, r, i);
      }
    }
  }

  /** Moving back from c shows the greatest key of the map below c's, with its value, or there is none. */
  lemma PrevIsPrevKey(entries: seq<Entry>, s: nat, c: int, r: int)
    requires Sorted(entries) && OnePerSequence(EntrySet(entries))
    requires Shown(entries, s, c) && PrevShown(entries, s, c, r)
    ensures 0 <= r <= |entries|
    ensures r < |entries| ==>
              entries[r].key < entries[c].key && Answer(EntrySet(entries), entries[r].key, s) == Some(entries[r].value)
    ensures forall u :: u < entries[c].key && (r < |entries| ==> u > entries[r].key) ==>
              Answer(EntrySet(entries), u, s) == None
  {
    hide Sorted, Answer, EntrySet, OnePerSequence;
    if r < |entries| {
      ShownInKeyOrder(entries, s, r, c);
      ShownIsTheMap(entries, s, entries[r].key, entries[r].value);
    }
    forall u | u < entries[c].key && (r < |entries| ==> u > entries[r].key) && Answer(EntrySet(entries), u, s).Some?
      ensures false
    {
      var i := AnsweredIsShown(entries, s, u);
      if c < i {
        ShownInKeyOrder(entries, s, c, i);
      } else if r < |entries| && i < r {
        ShownInKeyOrder(entries, s, i, r);
      }
    }
  }

  /** Prev undoes Next and Next undoes Prev, wherever the other end exists. */
  lemma MovesUndoEachOther(entries: seq<Entry>, s: nat, c: int, there: int, back: int)
    requires Shown(entries, s, c) && 0 <= there < |entries|
    requires (NextShown(entries, s, c + 1, there) && PrevShown(entries, s, there, back))
             || (PrevShown(entries, s, c, there) && NextShown(entries, s, there + 1, back))
    ensures back == c
  {
    if NextShown(entries, s, c + 1, there) && PrevShown(entries, s, there, back) {
      assert !(back < c && Shown(entries, s, back));
    } else {
      assert Shown(entries, s, c);
    }
  }

  datatype Direction = Forward | Reverse

  class DBIter {
    const entries: seq<Entry>           // what the internal iterator runs over
    const sequence: nat
    var pos: nat                        // the internal iterator; not valid at |entries|
    var direction: Direction
    var valid: bool
    var savedKey: Option<UserKey>
    var savedValue: Bytes
    ghost var cur: nat                  // the entry shown, |entries| for none

    /** The position of the internal iterator when moving backwards: before the first entry if not valid. */
    ghost function Before(): int
      reads this`pos
    {
      if pos >= |entries| then -1 else pos
    }

    ghost predicate Valid()
      reads this
    {
      && Sorted(entries) && pos <= |entries| && cur <= |entries|
      && valid == (cur < |entries|)
      && (valid ==> Shown(entries, sequence, cur))
      && (valid && direction.Forward? ==> pos == cur)
      && (valid && direction.Reverse? ==>
            && savedKey == Some(entries[cur].key) && savedValue == entries[cur].value
            && Before() < cur
            && (Before() >= 0 ==> entries[Before()].key < entries[cur].key)
            && forall j :: Before() < j < |entries| && entries[j].key < entries[cur].key ==> entries[j].sn > sequence)
    }

    constructor (entries: seq<Entry>, sequence: nat)
      requires Sorted(entries)
      ensures Valid() && this.entries == entries && this.sequence == sequence && !valid
    {
      this.entries, this.sequence := entries, sequence;
      pos, direction, valid, savedKey, savedValue := |entries|, Forward, false, None, [];
      cur := |entries|;
    }

    method Key() returns (k: UserKey)
      requires Valid() && valid
      ensures k == entries[cur].key
    {
      k := if direction.Forward? then entries[pos].key else savedKey.value;
    }

    method CurrentValue() returns (v: Bytes)
      requires Valid() && valid
      ensures v == entries[cur].value
    {
      v := if direction.Forward? then entries[pos].value else savedValue;
    }

    /** Visible entries the scan has passed cannot hide what is still ahead, except for keys being skipped;
        and no entry of a skipped key from position p on is due to be shown at or after from. */
    ghost predicate ScanInv(p: nat, from: int, skipping: bool, skip: Option<UserKey>)
      requires p <= |entries| && (skipping ==> skip.Some?)
    {
      && (forall j, k :: 0 <= j < p <= k < |entries| && entries[j].sn <= sequence && entries[j].key == entries[k].key ==>
            skipping && entries[k].key <= skip.value)
      && (skipping ==> forall k :: p <= k < |entries| && entries[k].key <= skip.value && Shown(entries, sequence, k) ==> k < from)
      && (forall k :: from <= k < p ==> !Shown(entries, sequence, k))
      && (forall k :: p <= k < from && k < |entries| && entries[k].sn <= sequence ==> skipping && entries[k].key == skip.value)
    }

    lemma ScanStep(p: nat, from: int, skipping: bool, skip: Option<UserKey>)
      requires Sorted(entries) && p < |entries| && (skipping ==> skip.Some?)
      requires ScanInv(p, from, skipping, skip)
      ensures var e := entries[p];
              if e.sn > sequence || (e.kind.Value? && skipping && e.key <= skip.value) then ScanInv(p + 1, from, skipping, skip)
              else if e.kind.Deletion? then ScanInv(p + 1, from, true, Some(e.key))
              else Shown(entries, sequence, p) && from <= p
    {
      KeysRise();
      var e := entries[p];
      if e.sn > sequence || (e.kind.Value? && skipping && e.key <= skip.value) {
        ScanSkips(p, from, skipping, skip);
      } else if e.kind.Deletion? {
        ScanDeletion(p, from, skipping, skip);
      }
    }

    lemma ScanSkips(p: nat, from: int, skipping: bool, skip: Option<UserKey>)
      requires Sorted(entries) && p < |entries| && (skipping ==> skip.Some?) && ScanInv(p, from, skipping, skip)
      requires entries[p].sn > sequence || (entries[p].kind.Value? && skipping && entries[p].key <= skip.value)
      ensures ScanInv(p + 1, from, skipping, skip)
    {
      KeysRise();
    }

    lemma ScanDeletion(p: nat, from: int, skipping: bool, skip: Option<UserKey>)
      requires Sorted(entries) && p < |entries| && (skipping ==> skip.Some?) && ScanInv(p, from, skipping, skip)
      requires entries[p].sn <= sequence && entries[p].kind.Deletion?
      ensures ScanInv(p + 1, from, true, Some(entries[p].key))
    {
      KeysRise();
    }

    /** FindNextUserEntry. */
    method FindNextUserEntry(skip0: bool, key0: Option<UserKey>, ghost from: int)
      requires Sorted(entries) && pos < |entries| && direction.Forward? && (skip0 ==> key0.Some?)
      requires 0 <= from <= |entries| && ScanInv(pos, from, skip0, key0)
      modifies this
      ensures Valid() && NextShown(entries, sequence, from, cur)
    {
      var skipping, skip := skip0, key0;
      while pos < |entries|
        invariant pos <= |entries| && direction.Forward? && (skipping ==> skip.Some?)
        invariant ScanInv(pos, from, skipping, skip)
        decreases |entries| - pos
      {
        ScanStep(pos, from, skipping, skip);
        var e := entries[pos];
        if e.sn <= sequence {
          if e.kind.Deletion? {
            skip, skipping := Some(e.key), true;
          } else if skipping && e.key <= skip.value {
            // Entry hidden
          } else {
            valid, savedKey := true, None;
            cur := pos;
            return;
          }
        }
        pos := pos + 1;
      }
      savedKey, valid := None, false;
      cur := |entries|;
    }

    // The internal iterator's moves

    method InnerNext()
      requires pos < |entries|
      modifies this`pos
      ensures pos == old(pos) + 1
    {
      pos := pos + 1;
    }

    method InnerPrev()
      requires pos < |entries|
      modifies this`pos
      ensures pos <= |entries| && Before() == old(pos) - 1
    {
      pos := if pos == 0 then |entries| else pos - 1;
    }

    method InnerSeekToLast()
      modifies this`pos
      ensures pos <= |entries| && Before() == |entries| - 1
    {
      pos := if |entries| == 0 then 0 else |entries| - 1;
    }

    /** Next shows the first entry due after the current one, whichever way the iterator was moving. */
    method Next()
      requires Valid() && valid
      modifies this
      ensures Valid() && NextShown(entries, sequence, old(cur) + 1, cur)
    {
      ghost var from := cur + 1;
      if direction.Reverse? {
        direction := Forward;
        // Move into the range of entries of the current key
        if pos >= |entries| {
          pos := 0;
        } else {
          InnerNext();
        }
        // The current key has an entry at or after this position, so the source's test for the end fails.
        assert pos <= cur;
        ReverseScanInv(pos, cur, savedKey);
      } else {
        savedKey := Some(entries[pos].key);
        ForwardScanInv(cur);
      }
      FindNextUserEntry(true, savedKey, from);
    }

    lemma ForwardScanInv(c: nat)
      requires Sorted(entries) && Shown(entries, sequence, c)
      ensures ScanInv(c, c + 1, true, Some(entries[c].key))
    {
      KeysRise();
    }

    lemma ReverseScanInv(p: nat, c: nat, key: Option<UserKey>)
      requires Sorted(entries) && p <= c && Shown(entries, sequence, c) && key == Some(entries[c].key)
      requires p > 0 ==> entries[p - 1].key < entries[c].key
      requires forall j :: p <= j < |entries| && entries[j].key < entries[c].key ==> entries[j].sn > sequence
      ensures ScanInv(p, c + 1, true, key)
    {
      KeysRise();
      forall k | p <= k < c + 1 && entries[k].sn <= sequence
        ensures entries[k].key == entries[c].key
      {
        assert entries[k].key <= entries[c].key;
      }
    }

    lemma KeysRise()
      requires Sorted(entries)
      ensures forall j, k :: 0 <= j <= k < |entries| ==> entries[j].key <= entries[k].key
    {
      forall j, k | 0 <= j <= k < |entries|
        ensures entries[j].key <= entries[k].key
      {
        assert j == k || Precedes(entries[j], entries[k]);
      }
    }

    /** Seek shows the first entry due whose key is at or after the target. */
    method Seek(target: UserKey)
      requires Valid()
      modifies this
      ensures Valid()
      ensures cur < |entries| ==> entries[cur].key >= target
      ensures forall i :: 0 <= i < cur && entries[i].key >= target ==> !Shown(entries, sequence, i)
    {
      direction, savedValue, savedKey := Forward, [], None;
      pos := SeekTable(entries, SeekKey(target, sequence));
      SeekScanInv(pos, target);
      if pos < |entries| {
        FindNextUserEntry(false, savedKey, pos);
        KeysRise();
      } else {
        valid := false;
        cur := |entries|;
      }
    }

    lemma SeekScanInv(p: nat, target: UserKey)
      requires Sorted(entries) && IsSeekPosition(entries, SeekKey(target, sequence), p)
      ensures ScanInv(p, p, false, None)
      ensures forall i :: 0 <= i < p && entries[i].key >= target ==> !Shown(entries, sequence, i)
      ensures forall i :: p <= i < |entries| ==> entries[i].key >= target
    {
      KeysRise();
    }

    method SeekToFirst()
      requires Valid()
      modifies this
      ensures Valid() && NextShown(entries, sequence, 0, cur)
    {
      direction, savedValue := Forward, [];
      pos := 0;
      if pos < |entries| {
        FindNextUserEntry(false, savedKey, 0);
      } else {
        valid := false;
        cur := |entries|;
      }
    }

    /** What the backward scan knows after passing every entry above p: value and key of the newest visible
        entry of the key it is in, if that is a value; nothing due in between. */
    ghost predicate BackInv(p: int, below: int, kind: ValueType, key: Option<UserKey>, value: Bytes)
      requires -1 <= p < below <= |entries|
    {
      if kind.Deletion? then
        forall i :: p < i < below ==> !Shown(entries, sequence, i)
      else
        exists c :: p < c < below && HoldsNewestAbove(p, below, c, key, value)
    }

    ghost predicate HoldsNewestAbove(p: int, below: int, c: int, key: Option<UserKey>, value: Bytes)
      requires -1 <= p < c < below <= |entries|
    {
      && entries[c].sn <= sequence && entries[c].kind.Value? && key == Some(entries[c].key) && value == entries[c].value
      && (forall j :: p < j < c ==> entries[j].sn > sequence)
      && (forall i :: c < i < below ==> !Shown(entries, sequence, i))
    }

    lemma BackStep(p: int, below: int, kind: ValueType, key: Option<UserKey>, value: Bytes)
      requires Sorted(entries) && 0 <= p < below <= |entries| && BackInv(p, below, kind, key, value)
      ensures var e := entries[p];
              if e.sn > sequence then BackInv(p - 1, below, kind, key, value)
              else if kind.Value? && e.key < key.value then exists c :: IsLastBelow(p, below, c, key, value)
              else if e.kind.Deletion? then BackInv(p - 1, below, e.kind, None, [])
              else BackInv(p - 1, below, e.kind, Some(e.key), e.value)
    {
      KeysRise();
      var e := entries[p];
      if kind.Deletion? {
        if e.sn <= sequence && e.kind.Value? {
          assert HoldsNewestAbove(p - 1, below, p, Some(e.key), e.value);
        }
      } else {
        var c :| p < c < below && HoldsNewestAbove(p, below, c, key, value);
        if e.sn > sequence {
          assert HoldsNewestAbove(p - 1, below, c, key, value);
        } else if e.key < key.value {
          assert IsLastBelow(p, below, c, key, value);
        } else if e.kind.Value? {
          assert HoldsNewestAbove(p - 1, below, p, Some(e.key), e.value);
        }
      }
    }

    /** c is the last entry due before below, found by a scan that stopped at p. */
    ghost predicate IsLastBelow(p: int, below: int, c: int, key: Option<UserKey>, value: Bytes) {
      && -1 <= p < c < below <= |entries| && Shown(entries, sequence, c)
      && key == Some(entries[c].key) && value == entries[c].value
      && (p >= 0 ==> entries[p].key < entries[c].key)
      && (forall j :: p < j < |entries| && entries[j].key < entries[c].key ==> entries[j].sn > sequence)
      && (forall i :: c < i < below ==> !Shown(entries, sequence, i))
    }

    lemma BackStart(below: int, kind: ValueType, key: Option<UserKey>, value: Bytes)
      requires Sorted(entries) && 0 <= below <= |entries|
      requires -1 < below && BackInv(-1, below, kind, key, value)
      ensures kind.Value? ==> exists c :: IsLastBelow(-1, below, c, key, value)
      ensures kind.Deletion? ==> forall i :: 0 <= i < below ==> !Shown(entries, sequence, i)
    {
      KeysRise();
      if kind.Value? {
        var c :| -1 < c < below && HoldsNewestAbove(-1, below, c, key, value);
        assert IsLastBelow(-1, below, c, key, value);
      }
    }

    lemma NothingPassed(below: int)
      requires -1 <= Before() < below <= |entries| && forall i :: Before() < i < below ==> !Shown(entries, sequence, i)
      ensures forall key, value :: BackInv(Before(), below, ValueType.Deletion, key, value)
    {
    }

    /** FindPrevUserEntry. */
    method FindPrevUserEntry(ghost below: nat)
      requires Sorted(entries) && direction.Reverse? && pos <= |entries| && below <= |entries|
      requires Before() < below && forall i :: Before() < i < below ==> !Shown(entries, sequence, i)
      modifies this
      ensures Valid() && PrevShown(entries, sequence, below, cur)
    {
      hide Sorted, Shown, BackInv, HoldsNewestAbove;
      var kind := ValueType.Deletion;
      NothingPassed(below);
      while pos < |entries|
        invariant pos <= |entries| && direction.Reverse? && Before() < below
        invariant kind.Value? ==> savedKey.Some?
        invariant BackInv(Before(), below, kind, savedKey, savedValue)
        decreases Before()
      {
        var e := entries[pos];
        BackStep(pos, below, kind, savedKey, savedValue);
        if e.sn <= sequence {
          if kind.Value? && e.key < savedKey.value {
            // A value is at hand and the entries of an earlier key have been reached
            ghost var c :| IsLastBelow(pos, below, c, savedKey, savedValue);
            cur := c;
            valid := true;
            return;
          }
          kind := e.kind;
          if kind.Deletion? {
            savedKey, savedValue := None, [];
          } else {
            savedKey, savedValue := Some(e.key), e.value;
          }
        }
        InnerPrev();
      }
      BackStart(below, kind, savedKey, savedValue);
      if kind.Deletion? {
        valid, savedKey, savedValue, direction := false, None, [], Forward;
        cur := |entries|;
      } else {
        ghost var c :| IsLastBelow(-1, below, c, savedKey, savedValue);
        cur := c;
        valid := true;
      }
    }

    /** Prev shows the last entry due before the current one, whichever way the iterator was moving. */
    method Prev()
      requires Valid() && valid
      modifies this
      ensures Valid() && PrevShown(entries, sequence, old(cur), cur)
    {
      ghost var below := cur;
      KeysRise();
      if direction.Forward? {
        // Move back to before the entries of the current key
        savedKey := Some(entries[pos].key);
        while true
          invariant pos < |entries| && pos <= below && savedKey == Some(entries[below].key) && entries[pos].key == entries[below].key
          invariant direction.Forward? && Sorted(entries) && Shown(entries, sequence, below)
          decreases pos
        {
          InnerPrev();
          if pos >= |entries| {
            valid, savedKey, savedValue := false, None, [];
            cur := |entries|;
            return;
          }
          if entries[pos].key < savedKey.value {
            break;
          }
        }
        direction := Reverse;
      }
      FindPrevUserEntry(below);
    }

    method SeekToLast()
      requires Valid()
      modifies this
      ensures Valid() && PrevShown(entries, sequence, |entries|, cur)
    {
      direction, savedValue := Reverse, [];
      InnerSeekToLast();
      FindPrevUserEntry(|entries|);
    }
  }
}
