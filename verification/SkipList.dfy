/**
 The memtable's skip list (db/skiplist.h): one writer links a new node in level by level,
 store by store, while readers search without any lock, load by load.

 Every atomic load or store is one step. Nodes are numbered; node HEAD stands before all
 keys. The links a node does not have yet are absent, so a proof that a reader's load is
 defined says that no uninitialised link is ever read.
 */
module SkipList {
  import opened InternalKeys

  const HEAD: nat := 0
  const MAX_HEIGHT: nat := 12

  type Links = seq<Option<nat>>

  /** rows[l] lists the nodes linked at level l, HEAD first: it only says what the links say. */
  datatype List = List(keys: map<nat, IKey>, next: map<nat, Links>, maxHeight: nat, rows: seq<seq<nat>>)

  /** The insertion under way: which level comes next, and whether x's own link there is set. */
  datatype Writer = Idle | Linking(x: nat, prev: seq<nat>, level: nat, own: bool)

  // ---------------------------------------------------------------- well-linked lists

  function After(row: seq<nat>, i: nat): Option<nat> {
    if i + 1 < |row| then Some(row[i + 1]) else None
  }

  ghost predicate RowInv(a: List, l: nat)
    requires l < |a.rows|
  {
    var row := a.rows[l];
    && |row| > 0 && row[0] == HEAD
    && (forall i :: 0 < i < |row| ==> row[i] != HEAD && row[i] in a.keys)
    && (forall i, j :: 0 < i < j < |row| ==> Less(a.keys[row[i]], a.keys[row[j]]))
    && (forall i :: 0 <= i < |row| ==> row[i] in a.next && l < |a.next[row[i]]|)
    && (forall i :: 0 <= i < |row| ==> a.next[row[i]][l] == After(row, i))
  }

  ghost predicate IsSubRow(a: List, l: nat)
    requires l + 1 < |a.rows|
  {
    forall n :: n in a.rows[l + 1] ==> n in a.rows[l]
  }

  /** Each level is sorted, and a sublist of the level below. */
  ghost predicate ListInv(a: List) {
    && |a.rows| == MAX_HEIGHT && 1 <= a.maxHeight <= MAX_HEIGHT
    && (forall l :: 0 <= l < MAX_HEIGHT ==> RowInv(a, l))
    && (forall l :: 0 <= l < MAX_HEIGHT - 1 ==> IsSubRow(a, l))
    && (forall l :: a.maxHeight <= l < MAX_HEIGHT ==> a.rows[l] == [HEAD])
  }

  ghost predicate NodeBefore(a: List, n: nat, key: IKey) {
    n == HEAD || (n in a.keys && Less(a.keys[n], key))
  }

  /** A new node with this key belongs right after position i of row l. */
  ghost predicate Gap(a: List, l: nat, i: int, key: IKey)
    requires l < |a.rows|
  {
    && 0 <= i < |a.rows[l]| && NodeBefore(a, a.rows[l][i], key)
    && (i + 1 < |a.rows[l]| ==> a.rows[l][i + 1] in a.keys && Less(key, a.keys[a.rows[l][i + 1]]))
  }

  ghost predicate IsPrev(a: List, l: nat, n: nat, key: IKey)
    requires l < |a.rows|
  {
    exists i :: Gap(a, l, i, key) && a.rows[l][i] == n
  }

  ghost predicate WriterInv(a: List, w: Writer) {
    w.Linking? ==>
      && |a.rows| == MAX_HEIGHT && w.level < |w.prev| <= a.maxHeight <= MAX_HEIGHT
      && w.x != HEAD && w.x in a.keys && w.x in a.next
      && |a.next[w.x]| == w.level + (if w.own then 1 else 0)
      && (forall l :: 0 <= l < w.level ==> w.x in a.rows[l])
      && (forall l :: w.level <= l < MAX_HEIGHT ==> w.x !in a.rows[l])
      && (forall l :: w.level <= l < |w.prev| ==> IsPrev(a, l, w.prev[l], a.keys[w.x]))
      && (w.own ==>
            w.prev[w.level] in a.next && w.level < |a.next[w.prev[w.level]]|
            && a.next[w.x][w.level] == a.next[w.prev[w.level]][w.level])
  }

  // ---------------------------------------------------------------- the writer's stores

  /** The new height is announced, and a node without links is made, which nobody else can see. */
  function Begun(a: List, x: nat, key: IKey, height: nat): List {
    a.(keys := a.keys[x := key], next := a.next[x := []], maxHeight := if height > a.maxHeight then height else a.maxHeight)
  }

  ghost predicate CanBegin(a: List, x: nat, key: IKey, prev: seq<nat>) {
    && |a.rows| == MAX_HEIGHT && 1 <= |prev| <= MAX_HEIGHT
    && x != HEAD && x !in a.keys && x !in a.next
    && forall l :: 0 <= l < |prev| ==> IsPrev(a, l, prev[l], key)
  }

  function OwnLinkSet(a: List, w: Writer): List
    requires w.Linking? && w.level < |w.prev| && w.x in a.next
    requires w.prev[w.level] in a.next && w.level < |a.next[w.prev[w.level]]|
  {
    a.(next := a.next[w.x := a.next[w.x] + [a.next[w.prev[w.level]][w.level]]])
  }

  function InsertedAfter(row: seq<nat>, p: nat, x: nat): seq<nat> {
    if row == [] then []
    else if row[0] == p then [p, x] + row[1..]
    else [row[0]] + InsertedAfter(row[1..], p, x)
  }

  /** p's link at this level now leads to x. */
  function LinkStored(a: List, p: nat, x: nat, level: nat): List
    requires level < |a.rows| && p in a.next && level < |a.next[p]|
  {
    a.(next := a.next[p := a.next[p][level := Some(x)]],
       rows := a.rows[level := InsertedAfter(a.rows[level], p, x)])
  }

  function Published(a: List, w: Writer): List
    requires w.Linking? && w.level < |w.prev| && w.level < |a.rows|
    requires w.prev[w.level] in a.next && w.level < |a.next[w.prev[w.level]]|
  {
    LinkStored(a, w.prev[w.level], w.x, w.level)
  }

  lemma {:induction false} InsertedAfterIs(row: seq<nat>, i: nat, x: nat)
    requires i < |row| && forall k :: 0 <= k < i ==> row[k] != row[i]
    ensures InsertedAfter(row, row[i], x) == row[..i + 1] + [x] + row[i + 1..]
  {
    if i == 0 {
      assert row == [row[0]] + row[1..];
    } else {
      InsertedAfterIs(row[1..], i - 1, x);
      assert row[1..][..i] == row[1..i + 1] && row[1..][i..] == row[i + 1..];
      assert [row[0]] + row[1..i + 1] == row[..i + 1];
    }
  }

  lemma RowDistinct(a: List, l: nat, i: nat, j: nat)
    requires l < |a.rows| && RowInv(a, l) && i < j < |a.rows[l]|
    ensures a.rows[l][i] != a.rows[l][j]
  {
    assert i > 0 ==> Less(a.keys[a.rows[l][i]], a.keys[a.rows[l][j]]);
  }

  /** A row stays well linked when its nodes keep their keys and their links at its level. */
  lemma RowStays(a: List, b: List, l: nat)
    requires l < |a.rows| && l < |b.rows| && RowInv(a, l) && b.rows[l] == a.rows[l]
    requires forall n :: n in a.rows[l] ==> n in b.next && l < |b.next[n]| && b.next[n][l] == a.next[n][l]
    requires forall n :: n in a.keys ==> n in b.keys && b.keys[n] == a.keys[n]
    ensures RowInv(b, l)
  {
    var row := a.rows[l];
    forall i | 0 <= i < |row|
      ensures b.next[row[i]][l] == After(row, i)
    {
      assert row[i] in row;
    }
  }

  lemma PrevStays(a: List, b: List, l: nat, n: nat, key: IKey)
    requires l < |a.rows| && l < |b.rows| && IsPrev(a, l, n, key) && b.rows[l] == a.rows[l]
    requires forall n :: n in a.keys ==> n in b.keys && b.keys[n] == a.keys[n]
    ensures IsPrev(b, l, n, key)
  {
    var i :| Gap(a, l, i, key) && a.rows[l][i] == n;
    assert Gap(b, l, i, key);
  }

  lemma BeginKeepsInv(a: List, x: nat, key: IKey, prev: seq<nat>)
    requires ListInv(a) && CanBegin(a, x, key, prev)
    ensures ListInv(Begun(a, x, key, |prev|)) && WriterInv(Begun(a, x, key, |prev|), Linking(x, prev, 0, false))
  {
    var b := Begun(a, x, key, |prev|);
    forall l | 0 <= l < MAX_HEIGHT
      ensures RowInv(b, l) && x !in b.rows[l]
    {
      assert RowInv(a, l);
      RowStays(a, b, l);
    }
    forall l | 0 <= l < MAX_HEIGHT - 1
      ensures IsSubRow(b, l)
    {
      assert IsSubRow(a, l);
    }
    forall l | 0 <= l < |prev|
      ensures IsPrev(b, l, prev[l], key)
    {
      PrevStays(a, b, l, prev[l], key);
    }
  }

  lemma PrevHasLink(a: List, w: Writer)
    requires ListInv(a) && WriterInv(a, w) && w.Linking?
    ensures w.prev[w.level] in a.next && w.level < |a.next[w.prev[w.level]]| && w.prev[w.level] != w.x
    ensures w.prev[w.level] in a.rows[w.level]
  {
    assert RowInv(a, w.level) && IsPrev(a, w.level, w.prev[w.level], a.keys[w.x]);
  }

  lemma OwnLinkKeepsInv(a: List, w: Writer)
    requires ListInv(a) && WriterInv(a, w) && w.Linking? && !w.own
    ensures w.prev[w.level] in a.next && w.level < |a.next[w.prev[w.level]]|
    ensures ListInv(OwnLinkSet(a, w)) && WriterInv(OwnLinkSet(a, w), w.(own := true))
  {
    PrevHasLink(a, w);
    var b := OwnLinkSet(a, w);
    forall l | 0 <= l < MAX_HEIGHT
      ensures RowInv(b, l)
    {
      assert RowInv(a, l);
      RowStays(a, b, l);
    }
    forall l | 0 <= l < MAX_HEIGHT - 1
      ensures IsSubRow(b, l)
    {
      assert IsSubRow(a, l);
    }
    forall l | w.level <= l < |w.prev|
      ensures IsPrev(b, l, w.prev[l], b.keys[w.x])
    {
      PrevStays(a, b, l, w.prev[l], a.keys[w.x]);
    }
  }

  /** After the last level is linked the insertion is over. */
  function Advanced(w: Writer): Writer
    requires w.Linking?
  {
    if w.level + 1 < |w.prev| then Linking(w.x, w.prev, w.level + 1, false) else Idle
  }

  /** The row with x linked in after position i. */
  lemma PublishedRow(a: List, w: Writer) returns (i: nat)
    requires ListInv(a) && WriterInv(a, w) && w.Linking? && w.own
    ensures Gap(a, w.level, i, a.keys[w.x]) && a.rows[w.level][i] == w.prev[w.level]
    ensures w.prev[w.level] in a.next && w.level < |a.next[w.prev[w.level]]|
    ensures Published(a, w).rows[w.level] == a.rows[w.level][..i + 1] + [w.x] + a.rows[w.level][i + 1..]
  {
    var l := w.level;
    PrevHasLink(a, w);
    assert RowInv(a, l);
    assert IsPrev(a, l, w.prev[l], a.keys[w.x]);
    i :| Gap(a, l, i, a.keys[w.x]) && a.rows[l][i] == w.prev[l];
    forall k | 0 <= k < i
      ensures a.rows[l][k] != a.rows[l][i]
    {
      RowDistinct(a, l, k, i);
    }
    InsertedAfterIs(a.rows[l], i, w.x);
  }

  predicate Ordered(keys: map<nat, IKey>, row: seq<nat>) {
    && |row| > 0 && row[0] == HEAD
    && (forall i :: 0 < i < |row| ==> row[i] != HEAD && row[i] in keys)
    && (forall i, j :: 0 < i < j < |row| ==> Less(keys[row[i]], keys[row[j]]))
  }

  function Spread(row: seq<nat>, i: nat, x: nat, j: nat): nat
    requires i < |row| && j <= |row|
  {
    if j <= i then row[j] else if j == i + 1 then x else row[j - 1]
  }

  lemma SpreadIs(row: seq<nat>, i: nat, x: nat, wide: seq<nat>)
    requires i < |row| && wide == row[..i + 1] + [x] + row[i + 1..]
    ensures |wide| == |row| + 1 && forall j :: 0 <= j < |wide| ==> wide[j] == Spread(row, i, x, j)
  {
  }

  lemma InsertedInOrder(a: List, l: nat, i: nat, x: nat, wide: seq<nat>)
    requires l < |a.rows| && Ordered(a.keys, a.rows[l]) && x in a.keys && x != HEAD && Gap(a, l, i, a.keys[x])
    requires wide == a.rows[l][..i + 1] + [x] + a.rows[l][i + 1..]
    ensures Ordered(a.keys, wide)
  {
    var row := a.rows[l];
    SpreadIs(row, i, x, wide);
    hide Less;
    forall j, k | 0 < j < k < |wide|
      ensures Less(a.keys[wide[j]], a.keys[wide[k]])
    {
      if k == i + 1 {
        LessChain(a, row, j, i, a.keys[x]);
      } else if j == i + 1 {
        LessChainUp(a, row, i + 1, k - 1, a.keys[x]);
      }
    }
  }

  lemma LessChain(a: List, row: seq<nat>, j: nat, i: nat, key: IKey)
    requires Ordered(a.keys, row) && 0 < j <= i < |row| && Less(a.keys[row[i]], key)
    ensures Less(a.keys[row[j]], key)
  {
  }

  lemma LessChainUp(a: List, row: seq<nat>, i: nat, k: nat, key: IKey)
    requires Ordered(a.keys, row) && 0 < i <= k < |row| && Less(key, a.keys[row[i]])
    ensures Less(key, a.keys[row[k]])
  {
  }

  lemma InsertedIsLinked(a: List, b: List, l: nat, i: nat, x: nat)
    requires l < |a.rows| == |b.rows| && RowInv(a, l) && i < |a.rows[l]| && x !in a.rows[l]
    requires x in a.next && l < |a.next[x]| && a.next[x][l] == After(a.rows[l], i)
    requires b.rows[l] == a.rows[l][..i + 1] + [x] + a.rows[l][i + 1..]
    requires b.next == a.next[a.rows[l][i] := a.next[a.rows[l][i]][l := Some(x)]]
    ensures forall j :: 0 <= j < |b.rows[l]| ==>
              b.rows[l][j] in b.next && l < |b.next[b.rows[l][j]]| && b.next[b.rows[l][j]][l] == After(b.rows[l], j)
  {
    var row, wide := a.rows[l], b.rows[l];
    SpreadIs(row, i, x, wide);
    hide Less;
    forall j | 0 <= j < |wide|
      ensures wide[j] in b.next && l < |b.next[wide[j]]| && b.next[wide[j]][l] == After(wide, j)
    {
      if j < i {
        RowDistinct(a, l, j, i);
      } else if i + 1 < j {
        RowDistinct(a, l, i, j - 1);
      }
    }
  }

  lemma PublishKeepsRow(a: List, w: Writer, i: nat)
    requires ListInv(a) && WriterInv(a, w) && w.Linking? && w.own
    requires Gap(a, w.level, i, a.keys[w.x]) && a.rows[w.level][i] == w.prev[w.level]
    requires w.prev[w.level] in a.next && w.level < |a.next[w.prev[w.level]]|
    requires Published(a, w).rows[w.level] == a.rows[w.level][..i + 1] + [w.x] + a.rows[w.level][i + 1..]
    ensures RowInv(Published(a, w), w.level)
  {
    var l := w.level;
    assert RowInv(a, l);
    InsertedInOrder(a, l, i, w.x, Published(a, w).rows[l]);
    InsertedIsLinked(a, Published(a, w), l, i, w.x);
  }

  /** The store adds x to one row and changes one link, at that level. */
  ghost predicate OneLinkMore(a: List, b: List, w: Writer)
    requires w.Linking?
  {
    && b.keys == a.keys && b.maxHeight == a.maxHeight && |b.rows| == |a.rows| == MAX_HEIGHT && w.level < MAX_HEIGHT
    && (forall l :: 0 <= l < MAX_HEIGHT && l != w.level ==> b.rows[l] == a.rows[l])
    && (forall n :: n in b.rows[w.level] <==> n in a.rows[w.level] || n == w.x)
    && (forall n :: n in a.next ==> n in b.next && |b.next[n]| == |a.next[n]|)
    && (forall n, l :: n in a.next && 0 <= l < |a.next[n]| && l != w.level ==> b.next[n][l] == a.next[n][l])
  }

  lemma PublishAddsOne(a: List, w: Writer)
    requires ListInv(a) && WriterInv(a, w) && w.Linking? && w.own
    ensures w.prev[w.level] in a.next && w.level < |a.next[w.prev[w.level]]|
    ensures OneLinkMore(a, Published(a, w), w)
    ensures RowInv(Published(a, w), w.level)
  {
    PrevHasLink(a, w);
    var i := PublishedRow(a, w);
    PublishKeepsRow(a, w, i);
    hide ListInv, WriterInv, RowInv, Gap, InsertedAfter;
    LinkChangesOne(a, Published(a, w), w, i);
  }

  lemma LinkChangesOne(a: List, b: List, w: Writer, i: nat)
    requires |a.rows| == MAX_HEIGHT && w.Linking? && w.level < |w.prev| && w.level < MAX_HEIGHT && i < |a.rows[w.level]|
    requires w.prev[w.level] in a.next && w.level < |a.next[w.prev[w.level]]|
    requires b == Published(a, w) && b.rows[w.level] == a.rows[w.level][..i + 1] + [w.x] + a.rows[w.level][i + 1..]
    ensures OneLinkMore(a, b, w)
  {
    hide InsertedAfter;
    var row := a.rows[w.level];
    assert row == row[..i + 1] + row[i + 1..];
  }

  lemma OneMoreKeepsList(a: List, b: List, w: Writer)
    requires ListInv(a) && WriterInv(a, w) && w.Linking? && OneLinkMore(a, b, w) && RowInv(b, w.level)
    ensures ListInv(b)
  {
    forall l | 0 <= l < MAX_HEIGHT && l != w.level
      ensures RowInv(b, l)
    {
      assert RowInv(a, l);
      RowStays(a, b, l);
    }
    hide RowInv, IsPrev;
    forall l | 0 <= l < MAX_HEIGHT - 1
      ensures IsSubRow(b, l)
    {
      assert IsSubRow(a, l);
    }
  }

  lemma OneMoreKeepsWriter(a: List, b: List, w: Writer)
    requires WriterInv(a, w) && w.Linking? && w.own && OneLinkMore(a, b, w)
    ensures WriterInv(b, Advanced(w))
  {
    forall l | w.level < l < |w.prev|
      ensures IsPrev(b, l, w.prev[l], b.keys[w.x])
    {
      PrevStays(a, b, l, w.prev[l], a.keys[w.x]);
    }
    hide IsPrev;
  }

  lemma PublishKeepsInv(a: List, w: Writer)
    requires ListInv(a) && WriterInv(a, w) && w.Linking? && w.own
    ensures w.prev[w.level] in a.next && w.level < |a.next[w.prev[w.level]]|
    ensures ListInv(Published(a, w)) && WriterInv(Published(a, w), Advanced(w))
  {
    hide OneLinkMore, RowInv, IsPrev, IsSubRow, InsertedAfter;
    PublishAddsOne(a, w);
    OneMoreKeepsList(a, Published(a, w), w);
    OneMoreKeepsWriter(a, Published(a, w), w);
  }

  // ---------------------------------------------------------------- the readers' loads

  datatype Search = AtOrAfter(key: IKey) | Before(key: IKey) | Last

  /** A search in progress stands on node x at some level; a finished one has its node (none past the end). */
  datatype Reader = Searching(search: Search, x: nat, level: nat) | Found(search: Search, node: Option<nat>)

  /** The search passes over next at this level. */
  predicate Passes(a: List, search: Search, next: Option<nat>)
    requires next.Some? ==> next.value in a.keys
  {
    next.Some? && (search.Last? || Less(a.keys[next.value], search.key))
  }

  /** One turn of the loops of FindGreaterOrEqual, FindLessThan and FindLast: load x's link, then move or descend. */
  function Turn(a: List, r: Reader): Reader
    requires r.Searching? && r.x in a.next && r.level < |a.next[r.x]|
    requires a.next[r.x][r.level].Some? ==> a.next[r.x][r.level].value in a.keys
  {
    var next := a.next[r.x][r.level];
    if Passes(a, r.search, next) then Searching(r.search, next.value, r.level)
    else if r.level > 0 then Searching(r.search, r.x, r.level - 1)
    else Found(r.search, if r.search.AtOrAfter? then next else Some(r.x))
  }

  ghost predicate ReaderInv(a: List, r: Reader) {
    r.Searching? ==>
      && |a.rows| == MAX_HEIGHT && r.level < MAX_HEIGHT && r.x in a.rows[r.level]
      && (r.search.Last? || NodeBefore(a, r.x, r.search.key))
  }

  /** What a search means, on the list as it is at this moment. */
  ghost predicate Correct(a: List, search: Search, node: Option<nat>)
    requires |a.rows| > 0
  {
    match search
    case AtOrAfter(key) =>
      if node.None? then forall n :: n in a.rows[0] ==> NodeBefore(a, n, key)
      else
        && node.value in a.rows[0] && node.value in a.keys && node.value != HEAD && !Less(a.keys[node.value], key)
        && forall n :: n in a.rows[0] && n != HEAD && n in a.keys && !Less(a.keys[n], key) ==>
             n == node.value || Less(a.keys[node.value], a.keys[n])
    case Before(key) =>
      node.Some? && node.value in a.rows[0] && NodeBefore(a, node.value, key)
      && forall n :: n in a.rows[0] && NodeBefore(a, n, key) ==>
           n == node.value || n == HEAD || (node.value in a.keys && n in a.keys && Less(a.keys[n], a.keys[node.value]))
    case Last =>
      node.Some? && node.value in a.rows[0]
      && forall n :: n in a.rows[0] ==>
           n == node.value || n == HEAD || (node.value in a.keys && n in a.keys && Less(a.keys[n], a.keys[node.value]))
  }

  lemma PlaceInRow(a: List, l: nat, n: nat) returns (i: nat)
    requires l < |a.rows| && n in a.rows[l]
    ensures i < |a.rows[l]| && a.rows[l][i] == n
  {
    i :| 0 <= i < |a.rows[l]| && a.rows[l][i] == n;
  }

  /** The load a reader is about to make is of an initialised link, to a node that has a key. */
  lemma LoadIsDefined(a: List, r: Reader)
    requires ListInv(a) && ReaderInv(a, r) && r.Searching?
    ensures r.x in a.next && r.level < |a.next[r.x]|
    ensures a.next[r.x][r.level].Some? ==>
              a.next[r.x][r.level].value in a.keys && a.next[r.x][r.level].value in a.rows[r.level]
  {
    var i := PlaceInRow(a, r.level, r.x);
    assert RowInv(a, r.level);
  }

  /** Whatever the writer is in the middle of, a turn of a search goes on as it should, and if it ends the search
      its result is right for the list at the moment of the load. */
  lemma TurnIsCorrect(a: List, r: Reader)
    requires ListInv(a) && ReaderInv(a, r) && r.Searching?
    ensures r.x in a.next && r.level < |a.next[r.x]|
    ensures a.next[r.x][r.level].Some? ==> a.next[r.x][r.level].value in a.keys
    ensures var t := Turn(a, r); ReaderInv(a, t) && t.search == r.search && (t.Found? ==> Correct(a, r.search, t.node))
  {
    LoadIsDefined(a, r);
    if r.level > 0 {
      assert IsSubRow(a, r.level - 1);
    } else {
      TurnAtBottom(a, r);
    }
  }

  lemma BeforeUpTo(a: List, j: nat, i: nat, key: IKey)
    requires |a.rows| > 0 && RowInv(a, 0) && j <= i < |a.rows[0]| && NodeBefore(a, a.rows[0][i], key)
    ensures NodeBefore(a, a.rows[0][j], key)
  {
    assert 0 < j < i ==> Less(a.keys[a.rows[0][j]], a.keys[a.rows[0][i]]);
  }

  lemma NotBeforeFrom(a: List, i: nat, j: nat, key: IKey)
    requires |a.rows| > 0 && RowInv(a, 0) && 0 < i <= j < |a.rows[0]| && !NodeBefore(a, a.rows[0][i], key)
    ensures !NodeBefore(a, a.rows[0][j], key)
  {
    assert i < j ==> Less(a.keys[a.rows[0][i]], a.keys[a.rows[0][j]]);
  }

  lemma TurnAtBottom(a: List, r: Reader)
    requires ListInv(a) && ReaderInv(a, r) && r.Searching? && r.level == 0
    requires r.x in a.next && r.level < |a.next[r.x]|
    requires a.next[r.x][r.level].Some? ==>
               a.next[r.x][r.level].value in a.keys && a.next[r.x][r.level].value in a.rows[0]
    ensures Turn(a, r).Found? ==> Correct(a, r.search, Turn(a, r).node)
  {
    assert RowInv(a, 0);
    var row := a.rows[0];
    var i := PlaceInRow(a, 0, r.x);
    var next := a.next[r.x][0];
    assert next == After(row, i);
    if Turn(a, r).Found? {
      var node := Turn(a, r).node;
      forall n | n in row
        ensures r.search.AtOrAfter? && node.None? ==> NodeBefore(a, n, r.search.key)
        ensures r.search.AtOrAfter? && node.Some? && n != HEAD && !Less(a.keys[n], r.search.key) ==>
                  n == node.value || Less(a.keys[node.value], a.keys[n])
        ensures r.search.Before? && NodeBefore(a, n, r.search.key) ==>
                  n == r.x || n == HEAD || Less(a.keys[n], a.keys[r.x])
        ensures r.search.Last? ==> n == r.x || n == HEAD || Less(a.keys[n], a.keys[r.x])
      {
        var j := PlaceInRow(a, 0, n);
        hide Less;
        if r.search.Last? {
          assert i + 1 == |row|;
        } else if j <= i {
          BeforeUpTo(a, j, i, r.search.key);
        } else {
          NotBeforeFrom(a, i + 1, j, r.search.key);
        }
      }
    }
  }

  // ---------------------------------------------------------------- all interleavings

  datatype State = State(list: List, writer: Writer, readers: map<nat, Reader>)

  const NO_LINKS: Links := [None, None, None, None, None, None, None, None, None, None, None, None]
  const NO_ROWS: seq<seq<nat>> :=
    [[HEAD], [HEAD], [HEAD], [HEAD], [HEAD], [HEAD], [HEAD], [HEAD], [HEAD], [HEAD], [HEAD], [HEAD]]
  const EMPTY_LIST := List(map[], map[HEAD := NO_LINKS], 1, NO_ROWS)

  datatype Step =
    | Begin(x: nat, key: IKey, prev: seq<nat>)
    | SetOwn
    | Publish
    | Start(id: nat, search: Search, height: nat)     // height may be any the list has had
    | Load(id: nat)

  ghost predicate Inv(s: State) {
    && ListInv(s.list) && WriterInv(s.list, s.writer)
    && forall id :: id in s.readers ==> ReaderInv(s.list, s.readers[id])
  }

  ghost predicate Next(s: State, step: Step, t: State)
    requires Inv(s)
  {
    match step
    case Begin(x, key, prev) =>
      s.writer.Idle? && CanBegin(s.list, x, key, prev)
      && t == s.(list := Begun(s.list, x, key, |prev|), writer := Linking(x, prev, 0, false))
    case SetOwn =>
      s.writer.Linking? && !s.writer.own
      && (PrevHasLink(s.list, s.writer); t == s.(list := OwnLinkSet(s.list, s.writer), writer := s.writer.(own := true)))
    case Publish =>
      s.writer.Linking? && s.writer.own
      && (PrevHasLink(s.list, s.writer); t == s.(list := Published(s.list, s.writer), writer := Advanced(s.writer)))
    case Start(id, search, height) =>
      1 <= height <= s.list.maxHeight
      && t == s.(readers := s.readers[id := Searching(search, HEAD, height - 1)])
    case Load(id) =>
      id in s.readers && s.readers[id].Searching?
      && (LoadIsDefined(s.list, s.readers[id]); t == s.(readers := s.readers[id := Turn(s.list, s.readers[id])]))
  }

  /** Nodes are never unlinked, and keep their keys. */
  ghost predicate Grows(a: List, b: List) {
    && |a.rows| == |b.rows| == MAX_HEIGHT
    && (forall l, n :: 0 <= l < MAX_HEIGHT && n in a.rows[l] ==> n in b.rows[l])
    && (forall n :: n in a.keys ==> n in b.keys && b.keys[n] == a.keys[n])
  }

  lemma StepGrows(s: State, step: Step, t: State)
    requires Inv(s) && Next(s, step, t)
    ensures Grows(s.list, t.list)
  {
    if step.Publish? {
      PublishAddsOne(s.list, s.writer);
      hide ListInv, WriterInv, Published;
    }
  }

  lemma ReadersStay(s: State, t: State)
    requires Inv(s) && Grows(s.list, t.list) && t.readers == s.readers
    ensures forall id :: id in t.readers ==> ReaderInv(t.list, t.readers[id])
  {
    hide ListInv, WriterInv;
    forall id | id in t.readers
      ensures ReaderInv(t.list, t.readers[id])
    {
      assert ReaderInv(s.list, s.readers[id]);
    }
  }

  lemma StepKeepsInv(s: State, step: Step, t: State)
    requires Inv(s) && Next(s, step, t)
    ensures Inv(t)
  {
    StepGrows(s, step, t);
    match step
    case Begin(x, key, prev) =>
      BeginKeepsInv(s.list, x, key, prev);
      ReadersStay(s, t);
    case SetOwn =>
      OwnLinkKeepsInv(s.list, s.writer);
      ReadersStay(s, t);
    case Publish =>
      PublishKeepsInv(s.list, s.writer);
      ReadersStay(s, t);
    case Start(id, search, height) =>
      assert RowInv(s.list, height - 1);
    case Load(id) =>
      TurnIsCorrect(s.list, s.readers[id]);
  }

  lemma EmptyIsGood()
    ensures Inv(State(EMPTY_LIST, Idle, map[]))
  {
  }

  ghost predicate IsRun(states: seq<State>, steps: seq<Step>) {
    && |states| == |steps| + 1 && states[0] == State(EMPTY_LIST, Idle, map[])
    && forall i :: 0 <= i < |steps| ==> Inv(states[i]) ==> Next(states[i], steps[i], states[i + 1])
  }

  lemma {:induction false} RunKeepsInv(states: seq<State>, steps: seq<Step>, i: nat)
    requires IsRun(states, steps) && i < |states|
    ensures Inv(states[i])
  {
    if i == 0 {
      EmptyIsGood();
    } else {
      RunKeepsInv(states, steps, i - 1);
      StepKeepsInv(states[i - 1], steps[i - 1], states[i]);
    }
  }

  lemma {:induction false} RunGrows(states: seq<State>, steps: seq<Step>, i: nat, j: nat)
    requires IsRun(states, steps) && i <= j < |states|
    ensures Grows(states[i].list, states[j].list)
    decreases j - i
  {
    RunKeepsInv(states, steps, i);
    if i < j {
      StepGrows(states[i], steps[i], states[i + 1]);
      RunGrows(states, steps, i + 1, j);
    }
  }

  /** In every interleaving, a search that ends is right for the list at the moment of its last load. */
  lemma SearchIsRight(states: seq<State>, steps: seq<Step>, i: nat, id: nat)
    requires IsRun(states, steps) && i < |steps| && steps[i] == Load(id)
    requires id in states[i + 1].readers && states[i + 1].readers[id].Found?
    ensures |states[i].list.rows| > 0
    ensures Correct(states[i].list, states[i + 1].readers[id].search, states[i + 1].readers[id].node)
  {
    RunKeepsInv(states, steps, i);
    TurnIsCorrect(states[i].list, states[i].readers[id]);
  }

  /** Whatever was linked at the bottom level by some moment is not missed by a search that ends later. */
  lemma NothingIsMissed(states: seq<State>, steps: seq<Step>, m: nat, n: nat, i: nat, id: nat)
    requires IsRun(states, steps) && m <= i < |steps| && steps[i] == Load(id)
    requires id in states[i + 1].readers && states[i + 1].readers[id].Found?
    requires |states[m].list.rows| > 0 && n in states[m].list.rows[0] && n != HEAD && n in states[m].list.keys
    ensures var r, key := states[i + 1].readers[id], states[m].list.keys[n];
            r.search.AtOrAfter? && !Less(key, r.search.key) ==>
              r.node.Some? && r.node.value in states[i].list.keys && !Less(key, states[i].list.keys[r.node.value])
  {
    SearchIsRight(states, steps, i, id);
    RunGrows(states, steps, m, i);
    hide IsRun;
    assert n in states[i].list.rows[0];
  }

  // ---------------------------------------------------------------- the operations, run alone

  ghost predicate Absent(a: List, key: IKey) {
    |a.rows| == MAX_HEIGHT && forall n :: n in a.rows[0] && n != HEAD && n in a.keys ==> a.keys[n] != key
  }

  lemma InBottomRow(a: List, l: nat, n: nat)
    requires ListInv(a) && l < MAX_HEIGHT && n in a.rows[l]
    ensures n in a.rows[0]
  {
    hide RowInv;
    if l > 0 {
      assert IsSubRow(a, l - 1);
      InBottomRow(a, l - 1, n);
    }
  }

  /** Where a search for an absent key goes down a level, a node with that key belongs. */
  lemma StopsAtGap(a: List, key: IKey, l: nat, i: nat)
    requires ListInv(a) && Absent(a, key) && l < MAX_HEIGHT && i < |a.rows[l]| && NodeBefore(a, a.rows[l][i], key)
    requires var next := After(a.rows[l], i); next.Some? ==> next.value in a.keys && !Less(a.keys[next.value], key)
    ensures IsPrev(a, l, a.rows[l][i], key)
  {
    hide IsSubRow;
    if i + 1 < |a.rows[l]| {
      var next := a.rows[l][i + 1];
      InBottomRow(a, l, next);
      assert RowInv(a, l);
      hide RowInv;
      assert a.keys[next] != key;
    }
    assert Gap(a, l, i, key);
  }

  lemma LoadFollowsRow(a: List, search: Search, x: nat, level: nat, at: nat)
    requires ListInv(a) && ReaderInv(a, Searching(search, x, level)) && at < |a.rows[level]| && a.rows[level][at] == x
    ensures x in a.next && level < |a.next[x]| && a.next[x][level] == After(a.rows[level], at)
    ensures a.next[x][level].Some? ==> a.next[x][level].value in a.keys
  {
    assert RowInv(a, level);
  }

  /** A search starts at HEAD on the top level. */
  function StartLevel(a: List): (level: nat)
    requires ListInv(a)
    ensures level == a.maxHeight - 1 && |a.rows| == MAX_HEIGHT && a.maxHeight <= MAX_HEIGHT
    ensures |a.rows[level]| > 0 && a.rows[level][0] == HEAD
  {
    assert RowInv(a, a.maxHeight - 1);
    a.maxHeight - 1
  }

  class SkipList {
    var list: List

    ghost predicate Valid()
      reads this
    {
      ListInv(list)
    }

    constructor ()
      ensures Valid() && list == EMPTY_LIST
    {
      list := EMPTY_LIST;
      new;
      EmptyIsGood();
    }

    method FindGreaterOrEqual(key: IKey) returns (node: Option<nat>, prev: seq<nat>)
      requires Valid()
      ensures Correct(list, AtOrAfter(key), node)
      ensures |prev| == list.maxHeight
      ensures Absent(list, key) ==> forall l :: 0 <= l < |prev| ==> IsPrev(list, l, prev[l], key)
    {
      hide ListInv, RowInv, IsPrev, Correct, Gap, Absent, Less;
      ghost var search := AtOrAfter(key);
      var x, level := HEAD, StartLevel(list);
      prev := seq(list.maxHeight, _ => HEAD);
      ghost var at: nat := 0;
      while true
        invariant 0 <= level < list.maxHeight == |prev|
        invariant ReaderInv(list, Searching(search, x, level))
        invariant at < |list.rows[level]| && list.rows[level][at] == x
        invariant Absent(list, key) ==> forall l :: level < l < |prev| ==> IsPrev(list, l, prev[l], key)
        decreases level, |list.rows[level]| - at
      {
        LoadFollowsRow(list, search, x, level, at);
        TurnIsCorrect(list, Searching(search, x, level));
        var next := list.next[x][level];
        if next.Some? && Less(list.keys[next.value], key) {
          x := next.value;
          at := at + 1;
        } else {
          prev := prev[level := x];
          if Absent(list, key) {
            StopsAtGap(list, key, level, at);
          }
          if level == 0 {
            return next, prev;
          }
          level := level - 1;
          at := PlaceInRow(list, level, x);
        }
      }
    }

    method Contains(key: IKey) returns (found: bool)
      requires Valid()
      ensures found <==> !Absent(list, key)
    {
      var node, _ := FindGreaterOrEqual(key);
      found := node.Some? && Compare(key, list.keys[node.value]) == 0;
    }

    /** The nodes to link from; HEAD on the levels the list does not have yet. */
    method Predecessors(key: IKey, height: nat) returns (prev: seq<nat>)
      requires Valid() && Absent(list, key) && 1 <= height <= MAX_HEIGHT
      ensures |prev| == height && forall l :: 0 <= l < height ==> IsPrev(list, l, prev[l], key)
    {
      var _, found := FindGreaterOrEqual(key);
      prev := if height > |found| then found + seq(height - |found|, _ => HEAD) else found[..height];
      forall l | |found| <= l < height
        ensures IsPrev(list, l, prev[l], key)
      {
        assert Gap(list, l, 0, key);
      }
    }

    /** Insert, with the height drawn and the address of the new node as parameters. The invariant of the loop is
        what holds between any two stores. */
    method Insert(key: IKey, height: nat, x: nat)
      requires Valid() && Absent(list, key) && 1 <= height <= MAX_HEIGHT
      requires x != HEAD && x !in list.keys && x !in list.next
      modifies this
      ensures Valid()
      ensures list.keys == old(list.keys)[x := key]
      ensures forall n :: n in list.rows[0] <==> n in old(list.rows[0]) || n == x
      ensures forall l :: 0 < l < MAX_HEIGHT ==>
                forall n :: n in list.rows[l] <==> n in old(list.rows[l]) || (n == x && l < height)
    {
      var prev := Predecessors(key, height);
      hide ListInv, WriterInv, RowInv, IsPrev, InsertedAfter;
      BeginKeepsInv(list, x, key, prev);
      ghost var w := Linking(x, prev, 0, false);
      list := Begun(list, x, key, height);
      for i := 0 to height
        invariant ListInv(list) && WriterInv(list, w)
        invariant w == if i < height then Linking(x, prev, i, false) else Idle
        invariant list.keys == old(list.keys)[x := key] && x in list.next
        invariant forall l :: 0 <= l < MAX_HEIGHT ==>
                    forall n :: n in list.rows[l] <==> n in old(list.rows[l]) || (n == x && l < i)
      {
        OwnLinkKeepsInv(list, w);
        list := list.(next := list.next[x := list.next[x] + [list.next[prev[i]][i]]]);
        w := w.(own := true);
        PublishKeepsInv(list, w);
        PublishAddsOne(list, w);
        list := LinkStored(list, prev[i], x, i);
        w := Advanced(w);
      }
    }
  }
}
