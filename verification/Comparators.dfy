/**
 The default comparator (util/comparator.cc): byte strings in lexicographic order, and the
 short keys it offers for index blocks.

 Position maps byte strings to the reals so that the two orders agree; it is what stands
 for a user key in the other modules.
 */
module Comparators {
  import opened InternalKeys

  /** Slice::compare is below zero. */
  predicate BytesLess(a: Bytes, b: Bytes) {
    && b != []
    && (a == [] || a[0] < b[0] || (a[0] == b[0] && BytesLess(a[1..], b[1..])))
  }

  /** The bytes as digits after the point, in base 257, with no digit 0. */
  function Position(s: Bytes): (r: UserKey)
    ensures 0.0 <= r < 1.0
  {
    if s == [] then 0.0 else ((s[0] as int) as real + 1.0 + Position(s[1..])) / 257.0
  }

  /** Positions are ordered as the strings are, and different strings have different positions. */
  lemma {:induction false} PositionIsOrder(a: Bytes, b: Bytes)
    ensures BytesLess(a, b) <==> Position(a) < Position(b)
    ensures a == b <==> Position(a) == Position(b)
  {
    if a != [] && b != [] {
      PositionIsOrder(a[1..], b[1..]);
      assert a == [a[0]] + a[1..] && b == [b[0]] + b[1..];
    }
  }

  lemma {:induction false} SharedPrefix(a: Bytes, b: Bytes, n: nat)
    requires n <= |a| && n <= |b| && a[..n] == b[..n]
    ensures BytesLess(a, b) <==> BytesLess(a[n..], b[n..])
  {
    if n > 0 {
      assert a[0] == a[..n][0] == b[..n][0] == b[0];
      assert a[1..][..n - 1] == a[..n][1..] == b[..n][1..] == b[1..][..n - 1];
      SharedPrefix(a[1..], b[1..], n - 1);
      assert a[1..][n - 1..] == a[n..] && b[1..][n - 1..] == b[n..];
    }
  }

  /** The first place where both strings have a byte and the bytes differ. */
  ghost predicate FirstDifference(a: Bytes, b: Bytes, d: nat) {
    d < |a| && d < |b| && a[..d] == b[..d] && a[d] != b[d]
  }

  /** Strings that end at or before the first difference do not lie between the two keys. */
  lemma {:induction false} NoneShorterBetween(start: Bytes, limit: Bytes, d: nat, s: Bytes)
    requires FirstDifference(start, limit, d) && |s| <= d
    ensures !(Position(start) <= Position(s) < Position(limit))
    decreases d
  {
    PositionIsOrder(s, start);
    PositionIsOrder(s, limit);
    if s != [] {
      assert start[0] == start[..d][0] == limit[..d][0] == limit[0];
      assert start[1..][..d - 1] == start[..d][1..] == limit[..d][1..] == limit[1..][..d - 1];
      NoneShorterBetween(start[1..], limit[1..], d - 1, s[1..]);
      PositionIsOrder(s[1..], start[1..]);
      PositionIsOrder(s[1..], limit[1..]);
    }
  }

  /** What the loop and the increment make of the two keys, byte by byte. */
  function Separator(start: Bytes, limit: Bytes): Bytes {
    if start == [] || limit == [] then start
    else if start[0] == limit[0] then [start[0]] + Separator(start[1..], limit[1..])
    else if start[0] as int + 1 < limit[0] as int then [start[0] + 1]
    else start
  }

  function Successor(key: Bytes): Bytes {
    if key == [] then []
    else if key[0] == 255 then [key[0]] + Successor(key[1..])
    else [key[0] + 1]
  }

  lemma {:induction false} SeparatorAt(start: Bytes, limit: Bytes, n: nat)
    requires n <= |start| && n <= |limit| && start[..n] == limit[..n]
    ensures Separator(start, limit) == start[..n] + Separator(start[n..], limit[n..])
  {
    if n > 0 {
      assert start[0] == start[..n][0] == limit[..n][0] == limit[0];
      assert start[1..][..n - 1] == start[..n][1..] == limit[..n][1..] == limit[1..][..n - 1];
      SeparatorAt(start[1..], limit[1..], n - 1);
      assert start[1..][n - 1..] == start[n..] && limit[1..][n - 1..] == limit[n..];
    }
  }

  lemma {:induction false} SuccessorAt(key: Bytes, n: nat)
    requires n <= |key| && forall j :: 0 <= j < n ==> key[j] == 255
    ensures Successor(key) == key[..n] + Successor(key[n..])
  {
    if n > 0 {
      SuccessorAt(key[1..], n - 1);
      assert key[1..][n - 1..] == key[n..];
    }
  }

  lemma SeparatorIsBetween(start: Bytes, limit: Bytes, d: nat, r: Bytes)
    requires FirstDifference(start, limit, d) && start[d] as int + 1 < limit[d] as int && r == start[..d] + [start[d] + 1]
    ensures Position(start) <= Position(r) < Position(limit)
  {
    SharedPrefix(start, r, d);
    SharedPrefix(r, limit, d);
    PositionIsOrder(start, r);
    PositionIsOrder(r, limit);
  }

  /** Where the search for a difference stops. */
  lemma OnlyFirst(a: Bytes, b: Bytes, n: nat)
    requires n <= |a| && n <= |b| && a[..n] == b[..n] && (n < |a| && n < |b| ==> a[n] != b[n])
    ensures forall d: nat :: FirstDifference(a, b, d) ==> d == n
  {
    AgreeBelow(a, b, n);
    forall d: nat | FirstDifference(a, b, d)
      ensures d == n
    {
      AgreeBelow(a, b, d);
    }
  }

  lemma AgreeBelow(a: Bytes, b: Bytes, n: nat)
    requires n <= |a| && n <= |b| && a[..n] == b[..n]
    ensures forall i :: 0 <= i < n ==> a[i] == b[i]
  {
    forall i | 0 <= i < n
      ensures a[i] == b[i]
    {
      assert a[i] == a[..n][i] == b[..n][i] == b[i];
    }
  }

  /** What the result is, once the search has stopped at n. */
  lemma SeparatorFound(start: Bytes, limit: Bytes, n: nat)
    requires n <= |start| && n <= |limit| && start[..n] == limit[..n] && (n < |start| && n < |limit| ==> start[n] != limit[n])
    ensures if FirstDifference(start, limit, n) && start[n] as int + 1 < limit[n] as int then
              var r := start[..n] + [start[n] + 1];
              && Separator(start, limit) == r && Position(start) <= Position(r) < Position(limit)
              && forall s :: Position(start) <= Position(s) < Position(limit) ==> |s| >= |r|
            else Separator(start, limit) == start
  {
    SeparatorAt(start, limit, n);
    if FirstDifference(start, limit, n) && start[n] as int + 1 < limit[n] as int {
      var r := start[..n] + [start[n] + 1];
      SeparatorIsBetween(start, limit, n, r);
      forall s | |s| < |r|
        ensures !(Position(start) <= Position(s) < Position(limit))
      {
        NoneShorterBetween(start, limit, n, s);
      }
    }
  }

  /** A key that still separates start from limit: start itself, or, if the first byte in which they differ can go up
      by one and stay below limit's, one that no separator is shorter than. */
  method FindShortestSeparator(start: Bytes, limit: Bytes) returns (r: Bytes)
    ensures |r| <= |start|
    ensures Position(start) < Position(limit) ==> Position(start) <= Position(r) < Position(limit)
    ensures Position(start) >= Position(limit) ==> r == start
    ensures forall d: nat :: FirstDifference(start, limit, d) && start[d] as int + 1 < limit[d] as int
                        ==> r == start[..d] + [start[d] + 1]
    ensures (forall d: nat :: FirstDifference(start, limit, d) ==> start[d] as int + 1 >= limit[d] as int) ==> r == start
    ensures forall s :: Position(start) <= Position(s) < Position(limit) ==> |s| >= |r| || r == start
    ensures r == Separator(start, limit)
  {
    hide Position, Separator, BytesLess;
    var minLength := if |start| < |limit| then |start| else |limit|;
    var diffIndex := 0;
    while diffIndex < minLength && start[diffIndex] == limit[diffIndex]
      invariant diffIndex <= minLength && start[..diffIndex] == limit[..diffIndex]
    {
      diffIndex := diffIndex + 1;
    }
    OnlyFirst(start, limit, diffIndex);
    SeparatorFound(start, limit, diffIndex);
    r := start;
    if diffIndex < minLength {
      var diffByte := start[diffIndex];
      if diffByte < 255 && (diffByte as int) + 1 < limit[diffIndex] as int {
        r := start[..diffIndex] + [diffByte + 1];
      }
    }
  }

  ghost predicate FirstBelow255(key: Bytes, i: int) {
    0 <= i < |key| && key[i] != 255 && forall j :: 0 <= j < i ==> key[j] == 255
  }

  lemma SuccessorFound(key: Bytes, i: nat)
    requires FirstBelow255(key, i)
    ensures var r := key[..i] + [key[i] + 1]; Successor(key) == r && Position(key) <= Position(r)
  {
    var r := key[..i] + [key[i] + 1];
    SuccessorAt(key, i);
    SharedPrefix(key, r, i);
    PositionIsOrder(key, r);
  }

  lemma NoSuccessor(key: Bytes)
    requires forall j :: 0 <= j < |key| ==> key[j] == 255
    ensures Successor(key) == key
  {
    SuccessorAt(key, |key|);
  }

  /** A key no longer than the given one, at or after it: its first byte other than 0xff goes up by one and ends it. */
  method FindShortSuccessor(key: Bytes) returns (r: Bytes)
    ensures |r| <= |key| && Position(key) <= Position(r)
    ensures r == key <==> forall i :: 0 <= i < |key| ==> key[i] == 255
    ensures forall i :: FirstBelow255(key, i) ==> r == key[..i] + [key[i] + 1]
    ensures r == Successor(key)
  {
    hide Position, Successor;
    for i := 0 to |key|
      invariant forall j :: 0 <= j < i ==> key[j] == 255
    {
      if key[i] != 255 {
        SuccessorFound(key, i);
        return key[..i] + [key[i] + 1];
      }
    }
    r := key;
    NoSuccessor(key);
  }
}
