/**
 The block and table cache (util/cache.cc): one shard, with reference-counted handles, a
 list of entries nobody uses in the order they were last used, and one of those in use.

 The hash table is a map here and each linked list a sequence, oldest first. What clients
 hold is history that no operation looks at.
 */
module Cache {
  import opened InternalKeys

  type Id = nat

  datatype Handle = Handle(key: Bytes, charge: nat, refs: nat, inCache: bool)

  function TotalCharge(handles: map<Id, Handle>, ids: seq<Id>): nat
    requires forall id :: id in ids ==> id in handles
  {
    if ids == [] then 0 else TotalCharge(handles, ids[..|ids| - 1]) + handles[ids[|ids| - 1]].charge
  }

  ghost predicate Distinct(ids: seq<Id>) {
    forall i, j :: 0 <= i < j < |ids| ==> ids[i] != ids[j]
  }

  function Without(ids: seq<Id>, id: Id): seq<Id> {
    if ids == [] then []
    else if ids[|ids| - 1] == id then ids[..|ids| - 1]
    else Without(ids[..|ids| - 1], id) + [ids[|ids| - 1]]
  }

  lemma {:induction false} WithoutMembers(ids: seq<Id>, id: Id)
    requires Distinct(ids)
    ensures Distinct(Without(ids, id)) && forall x :: x in Without(ids, id) <==> x in ids && x != id
    ensures id in ids ==> |Without(ids, id)| == |ids| - 1
    ensures id !in ids ==> Without(ids, id) == ids
  {
    if ids != [] {
      var n := |ids| - 1;
      assert ids == ids[..n] + [ids[n]];
      WithoutMembers(ids[..n], id);
      assert ids[n] !in ids[..n];
    }
  }

  lemma {:induction false} WithoutCharge(handles: map<Id, Handle>, ids: seq<Id>, id: Id)
    requires Distinct(ids) && (forall x :: x in ids ==> x in handles)
    ensures forall x :: x in Without(ids, id) ==> x in handles
    ensures id in ids ==> TotalCharge(handles, ids) == TotalCharge(handles, Without(ids, id)) + handles[id].charge
  {
    WithoutMembers(ids, id);
    if ids != [] {
      var n := |ids| - 1;
      var rest := ids[..n];
      WithoutMembers(rest, id);
      if ids[n] != id {
        WithoutCharge(handles, rest, id);
        assert (Without(rest, id) + [ids[n]])[..|Without(rest, id)|] == Without(rest, id);
        assert id in ids ==> id in rest;
      }
    }
  }

  lemma {:induction false} SameCharges(a: map<Id, Handle>, b: map<Id, Handle>, ids: seq<Id>)
    requires forall x :: x in ids ==> x in a && x in b && a[x].charge == b[x].charge
    ensures TotalCharge(a, ids) == TotalCharge(b, ids)
  {
    if ids != [] {
      SameCharges(a, b, ids[..|ids| - 1]);
    }
  }

  // ---------------------------------------------------------------- the state and what it keeps

  datatype Shard = Shard(
    capacity: nat,
    usage: int,
    handles: map<Id, Handle>,        // allocated
    table: map<Bytes, Id>,
    lru: seq<Id>,                    // in the cache, used by nobody; oldest first
    inUse: seq<Id>,                  // in the cache, used by clients
    held: map<Id, nat>,              // history: how many references clients hold on each handle
    deleted: seq<Id>)                // history: whose deleter has run, in that order

  /** A handle's references are its clients' and the cache's, and they say which list it is in. */
  ghost predicate HandleOk(s: Shard, id: Id) {
    id in s.handles && id in s.held
    && var h := s.handles[id];
       && h.refs == s.held[id] + (if h.inCache then 1 else 0) && h.refs > 0
       && (id in s.lru <==> h.inCache && s.held[id] == 0)
       && (id in s.inUse <==> h.inCache && s.held[id] > 0)
  }

  ghost predicate HandlesOk(s: Shard) {
    s.held.Keys == s.handles.Keys && forall id :: id in s.handles ==> HandleOk(s, id)
  }

  /** The table holds exactly the handles in the cache, except one that is just being taken out. */
  ghost predicate TableOk(s: Shard, leaving: Option<Id>) {
    && (forall key :: key in s.table ==>
          s.table[key] in s.handles && s.handles[s.table[key]].key == key && s.handles[s.table[key]].inCache
          && Some(s.table[key]) != leaving)
    && (forall id :: id in s.handles && s.handles[id].inCache ==>
          Some(id) == leaving || (s.handles[id].key in s.table && s.table[s.handles[id].key] == id))
    && (leaving.Some? ==> leaving.value in s.handles && s.handles[leaving.value].inCache)
  }

  /** No handle is in two places or was deleted before, and usage is what the cached entries cost. */
  ghost predicate ListsOk(s: Shard) {
    && Distinct(s.lru) && Distinct(s.inUse) && (forall id :: id in s.lru || id in s.inUse ==> id in s.handles)
    && s.usage == TotalCharge(s.handles, s.lru) + TotalCharge(s.handles, s.inUse)
    && Distinct(s.deleted) && (forall id :: id in s.deleted ==> id !in s.handles)
  }

  ghost predicate ValidBut(s: Shard, leaving: Option<Id>) {
    HandlesOk(s) && TableOk(s, leaving) && ListsOk(s)
  }

  // ---------------------------------------------------------------- the internal moves

  /** FinishErase after e has left the table: it leaves its list, and goes for good if no client holds it. */
  function Erased(s: Shard, e: Id): Shard
    requires e in s.handles && s.handles[e].refs > 0
  {
    var h := s.handles[e];
    var t := s.(lru := Without(s.lru, e), inUse := Without(s.inUse, e), usage := s.usage - h.charge);
    if h.refs == 1 then t.(handles := s.handles - {e}, held := s.held - {e}, deleted := s.deleted + [e])
    else t.(handles := s.handles[e := h.(inCache := false, refs := h.refs - 1)])
  }

  lemma ErasedHandles(s: Shard, e: Id)
    requires HandlesOk(s) && Distinct(s.lru) && Distinct(s.inUse)
    requires e in s.handles && s.handles[e].refs > 0 && s.handles[e].inCache
    ensures HandlesOk(Erased(s, e))
  {
    hide Distinct, Without;
    WithoutMembers(s.lru, e);
    WithoutMembers(s.inUse, e);
    var t := Erased(s, e);
    assert HandleOk(s, e);
    forall id | id in t.handles && id != e
      ensures HandleOk(t, id)
    {
      assert HandleOk(s, id);
      assert t.handles[id] == s.handles[id] && t.held[id] == s.held[id];
    }
  }

  lemma ErasedTable(s: Shard, e: Id)
    requires TableOk(s, Some(e)) && e in s.handles && s.handles[e].refs > 0
    ensures TableOk(Erased(s, e), None)
  {
    hide Without;
  }

  lemma ErasedLists(s: Shard, e: Id)
    requires HandlesOk(s) && ListsOk(s) && e in s.handles && s.handles[e].refs > 0 && s.handles[e].inCache
    ensures ListsOk(Erased(s, e))
  {
    hide HandlesOk, Without, TotalCharge, Distinct;
    WithoutMembers(s.lru, e);
    WithoutMembers(s.inUse, e);
    DistinctGrows(s.deleted, e);
    ErasedUsage(s, e);
  }

  lemma DistinctGrows(ids: seq<Id>, id: Id)
    requires Distinct(ids) && id !in ids
    ensures Distinct(ids + [id])
  {
  }

  lemma ErasedUsage(s: Shard, e: Id)
    requires HandlesOk(s) && ListsOk(s) && e in s.handles && s.handles[e].refs > 0 && s.handles[e].inCache
    ensures var t := Erased(s, e);
            && (forall id :: id in t.lru || id in t.inUse ==> id in t.handles)
            && t.usage == TotalCharge(t.handles, t.lru) + TotalCharge(t.handles, t.inUse)
  {
    assert HandleOk(s, e);
    WithoutMembers(s.lru, e);
    WithoutMembers(s.inUse, e);
    WithoutCharge(s.handles, s.lru, e);
    WithoutCharge(s.handles, s.inUse, e);
    hide HandlesOk, HandleOk, Without, TotalCharge, Distinct;
    var t := Erased(s, e);
    SameCharges(s.handles, t.handles, t.lru);
    SameCharges(s.handles, t.handles, t.inUse);
  }

  lemma ErasedKeeps(s: Shard, e: Id)
    requires ValidBut(s, Some(e))
    ensures e in s.handles && s.handles[e].refs > 0 && ValidBut(Erased(s, e), None)
  {
    assert HandleOk(s, e);
    ErasedHandles(s, e);
    ErasedTable(s, e);
    ErasedLists(s, e);
  }

  // ---------------------------------------------------------------- Lookup and Release

  /** Ref, for a client: an evictable entry comes into use. */
  function Reffed(s: Shard, id: Id): Shard
    requires id in s.handles && id in s.held
  {
    var h := s.handles[id];
    var t := s.(handles := s.handles[id := h.(refs := h.refs + 1)], held := s.held[id := s.held[id] + 1]);
    if h.refs == 1 && h.inCache then t.(lru := Without(s.lru, id), inUse := Without(s.inUse, id) + [id]) else t
  }

  /** Unref, for a client: its last reference makes a cached entry evictable, and an uncached one goes for good. */
  function Released(s: Shard, id: Id): Shard
    requires id in s.handles && s.handles[id].refs > 0 && id in s.held && s.held[id] > 0
  {
    var h := s.handles[id];
    if h.refs == 1 then s.(handles := s.handles - {id}, held := s.held - {id}, deleted := s.deleted + [id])
    else
      var t := s.(handles := s.handles[id := h.(refs := h.refs - 1)], held := s.held[id := s.held[id] - 1]);
      if h.inCache && h.refs == 2 then t.(lru := Without(s.lru, id) + [id], inUse := Without(s.inUse, id)) else t
  }

  lemma ChargeMoves(handles: map<Id, Handle>, from: seq<Id>, to: seq<Id>, id: Id)
    requires Distinct(from) && Distinct(to) && id in from && id !in to
    requires forall x :: x in from || x in to ==> x in handles
    ensures var f, t := Without(from, id), to + [id];
            && Distinct(f) && Distinct(t) && (forall x :: x in f || x in t ==> x in handles)
            && TotalCharge(handles, f) + TotalCharge(handles, t) == TotalCharge(handles, from) + TotalCharge(handles, to)
  {
    WithoutMembers(from, id);
    WithoutCharge(handles, from, id);
    hide Without;
    assert (to + [id])[..|to|] == to;
  }

  /** The entry stays in its list or moves to the end of the other one. */
  ghost predicate ListsMove(s: Shard, t: Shard, id: Id) {
    || (t.lru == s.lru && t.inUse == s.inUse)
    || (id in s.inUse && id !in s.lru && t.lru == Without(s.lru, id) + [id] && t.inUse == Without(s.inUse, id))
    || (id in s.lru && id !in s.inUse && t.lru == Without(s.lru, id) && t.inUse == Without(s.inUse, id) + [id])
  }

  /** Only id's own bookkeeping changes. */
  ghost predicate OthersSame(s: Shard, t: Shard, id: Id) {
    && t.table == s.table && t.held.Keys == t.handles.Keys
    && (forall x :: x != id ==> (x in t.handles <==> x in s.handles))
    && (forall x :: x in t.handles && x in t.held && x in s.handles && x in s.held && x != id ==>
          t.handles[x] == s.handles[x] && t.held[x] == s.held[x])
    && (forall x :: x != id ==> (x in t.lru <==> x in s.lru) && (x in t.inUse <==> x in s.inUse))
  }

  /** The cost of what is cached stays the same. */
  lemma MovedLists(s: Shard, t: Shard, id: Id)
    requires ListsOk(s) && ListsMove(s, t, id)
    requires t.usage == s.usage && t.deleted == s.deleted && t.handles.Keys == s.handles.Keys
    requires forall x :: x in s.handles ==> t.handles[x].charge == s.handles[x].charge
    ensures ListsOk(t)
  {
    SameCharges(s.handles, t.handles, s.lru);
    SameCharges(s.handles, t.handles, s.inUse);
    WithoutMembers(s.lru, id);
    WithoutMembers(s.inUse, id);
    if id in s.inUse && id !in s.lru {
      ChargeMoves(t.handles, s.inUse, s.lru, id);
    }
    if id in s.lru && id !in s.inUse {
      ChargeMoves(t.handles, s.lru, s.inUse, id);
    }
    hide Without, TotalCharge, Distinct;
  }

  lemma OthersStay(s: Shard, t: Shard, id: Id)
    requires HandlesOk(s) && TableOk(s, None) && OthersSame(s, t, id)
    requires id in t.handles ==>
               HandleOk(t, id) && id in s.handles && t.handles[id].key == s.handles[id].key
               && t.handles[id].inCache == s.handles[id].inCache
    requires id !in t.handles && id in s.handles ==> !s.handles[id].inCache
    ensures HandlesOk(t) && TableOk(t, None)
  {
    hide HandleOk;
    forall x | x in t.handles && x != id
      ensures HandleOk(t, x) && t.handles[x] == s.handles[x]
    {
      assert HandleOk(s, x);
      OtherHandleStays(s, t, id, x);
    }
  }

  lemma OtherHandleStays(s: Shard, t: Shard, id: Id, x: Id)
    requires HandleOk(s, x) && OthersSame(s, t, id) && x in t.handles && x != id
    ensures HandleOk(t, x) && t.handles[x] == s.handles[x]
  {
  }

  lemma ListsMoveMembers(s: Shard, t: Shard, id: Id)
    requires Distinct(s.lru) && Distinct(s.inUse) && ListsMove(s, t, id)
    ensures forall x :: x != id ==> (x in t.lru <==> x in s.lru) && (x in t.inUse <==> x in s.inUse)
    ensures t.lru != s.lru || t.inUse != s.inUse ==> (id in t.lru <==> id in s.inUse) && (id in t.inUse <==> id in s.lru)
  {
    WithoutMembers(s.lru, id);
    WithoutMembers(s.inUse, id);
    hide Without, Distinct;
  }

  lemma LongerList(ids: seq<Id>, id: Id)
    requires Distinct(ids)
    ensures id in ids ==> Without(ids, id) != ids
  {
    WithoutMembers(ids, id);
  }

  lemma ReffedParts(s: Shard, id: Id)
    requires HandleOk(s, id) && s.held.Keys == s.handles.Keys && Distinct(s.lru) && Distinct(s.inUse)
    ensures var t := Reffed(s, id); ListsMove(s, t, id) && OthersSame(s, t, id) && HandleOk(t, id)
  {
    var t := Reffed(s, id);
    hide Without, Distinct;
    assert ListsMove(s, t, id);
    ListsMoveMembers(s, t, id);
    LongerList(s.inUse, id);
    LongerList(s.lru, id);
    hide ListsMove;
  }

  lemma ReffedKeeps(s: Shard, id: Id)
    requires ValidBut(s, None) && id in s.handles
    ensures id in s.held && ValidBut(Reffed(s, id), None)
  {
    assert HandleOk(s, id);
    ReffedParts(s, id);
    var t := Reffed(s, id);
    hide ListsMove, OthersSame, HandleOk, HandlesOk, TableOk, ListsOk;
    MovedLists(s, t, id);
    OthersStay(s, t, id);
  }

  lemma ReleasedParts(s: Shard, id: Id)
    requires HandleOk(s, id) && s.held.Keys == s.handles.Keys && Distinct(s.lru) && Distinct(s.inUse) && s.held[id] > 0
    ensures var t := Released(s, id);
            && OthersSame(s, t, id)
            && (s.handles[id].refs > 1 ==> ListsMove(s, t, id) && HandleOk(t, id))
            && (s.handles[id].refs == 1 ==> !s.handles[id].inCache && id !in s.lru && id !in s.inUse)
  {
    var t := Released(s, id);
    hide Without, Distinct;
    assert ListsMove(s, t, id);
    ListsMoveMembers(s, t, id);
    LongerList(s.inUse, id);
    LongerList(s.lru, id);
    hide ListsMove;
  }

  lemma ReleasedKeeps(s: Shard, id: Id)
    requires ValidBut(s, None) && id in s.handles && id in s.held && s.held[id] > 0
    ensures s.handles[id].refs > 0 && ValidBut(Released(s, id), None)
  {
    assert HandleOk(s, id);
    ReleasedParts(s, id);
    var t := Released(s, id);
    hide ListsMove, OthersSame, HandleOk, HandlesOk, TableOk, ListsOk;
    if s.handles[id].refs > 1 {
      MovedLists(s, t, id);
    } else {
      DeletedLists(s, t, id);
    }
    OthersStay(s, t, id);
  }

  /** An uncached entry goes for good. */
  lemma DeletedLists(s: Shard, t: Shard, id: Id)
    requires ListsOk(s) && id in s.handles && id !in s.lru && id !in s.inUse
    requires t == s.(handles := s.handles - {id}, held := t.held, deleted := s.deleted + [id])
    ensures ListsOk(t)
  {
    SameCharges(s.handles, t.handles, s.lru);
    SameCharges(s.handles, t.handles, s.inUse);
    hide TotalCharge;
  }

  // ---------------------------------------------------------------- Insert, Erase and Prune

  /** A new entry, held by the client it is returned to; a cache of capacity 0 does not keep it. */
  function Added(s: Shard, id: Id, key: Bytes, charge: nat): Shard {
    if s.capacity > 0 then
      s.(handles := s.handles[id := Handle(key, charge, 2, true)], held := s.held[id := 1],
         inUse := s.inUse + [id], usage := s.usage + charge, table := s.table[key := id])
    else
      s.(handles := s.handles[id := Handle(key, charge, 1, false)], held := s.held[id := 1])
  }

  /** The entry the new one replaces in the table, if any. */
  function Replaced(s: Shard, key: Bytes): Option<Id> {
    if s.capacity > 0 && key in s.table then Some(s.table[key]) else None
  }

  lemma AddedLists(s: Shard, id: Id, key: Bytes, charge: nat)
    requires ListsOk(s) && id !in s.handles && id !in s.deleted
    ensures ListsOk(Added(s, id, key, charge))
  {
    var t := Added(s, id, key, charge);
    SameCharges(s.handles, t.handles, s.lru);
    SameCharges(s.handles, t.handles, s.inUse);
    hide TotalCharge;
    if s.capacity > 0 {
      OneMore(t.handles, s.inUse, id);
    }
  }

  lemma OneMore(handles: map<Id, Handle>, ids: seq<Id>, id: Id)
    requires Distinct(ids) && id !in ids && id in handles && forall x :: x in ids ==> x in handles
    ensures Distinct(ids + [id]) && forall x :: x in ids + [id] ==> x in handles
    ensures TotalCharge(handles, ids + [id]) == TotalCharge(handles, ids) + handles[id].charge
  {
    assert (ids + [id])[..|ids|] == ids;
  }

  lemma AddedHandles(s: Shard, id: Id, key: Bytes, charge: nat)
    requires HandlesOk(s) && ListsOk(s) && id !in s.handles
    ensures HandlesOk(Added(s, id, key, charge))
  {
    var t := Added(s, id, key, charge);
    assert id !in s.lru && id !in s.inUse;
    hide ListsOk;
    forall x | x in t.handles && x != id
      ensures HandleOk(t, x)
    {
      assert HandleOk(s, x);
    }
  }

  lemma AddedTable(s: Shard, id: Id, key: Bytes, charge: nat)
    requires TableOk(s, None) && id !in s.handles
    ensures TableOk(Added(s, id, key, charge), Replaced(s, key))
  {
  }

  lemma AddedKeeps(s: Shard, id: Id, key: Bytes, charge: nat)
    requires ValidBut(s, None) && id !in s.handles && id !in s.deleted
    ensures ValidBut(Added(s, id, key, charge), Replaced(s, key))
  {
    AddedLists(s, id, key, charge);
    AddedHandles(s, id, key, charge);
    AddedTable(s, id, key, charge);
  }

  /** FinishErase(table_.Remove(...)) for the entry of this key. */
  function Removed(s: Shard, key: Bytes): Shard
    requires key in s.table && s.table[key] in s.handles && s.handles[s.table[key]].refs > 0
  {
    Erased(s.(table := s.table - {key}), s.table[key])
  }

  lemma RemovedKeeps(s: Shard, key: Bytes)
    requires ValidBut(s, None) && key in s.table
    ensures s.table[key] in s.handles && s.handles[s.table[key]].refs > 0 && ValidBut(Removed(s, key), None)
  {
    var out := s.(table := s.table - {key});
    assert HandleOk(s, s.table[key]);
    assert HandlesOk(out) by {
      forall id | id in out.handles
        ensures HandleOk(out, id)
      {
        assert HandleOk(s, id);
      }
    }
    ErasedKeeps(out, s.table[key]);
  }

  /** The oldest entry nobody uses is taken out of the table, which ends it. */
  lemma OldestIsDeleted(s: Shard)
    requires ValidBut(s, None) && s.lru != []
    ensures s.lru[0] in s.handles && s.handles[s.lru[0]].key in s.table && s.table[s.handles[s.lru[0]].key] == s.lru[0]
    ensures s.handles[s.lru[0]].refs == 1 && s.held[s.lru[0]] == 0
    ensures var t := Removed(s, s.handles[s.lru[0]].key);
            && t.lru == s.lru[1..] && t.inUse == s.inUse && t.deleted == s.deleted + [s.lru[0]] && t.capacity == s.capacity
            && t.handles == s.handles - {s.lru[0]} && t.held == s.held - {s.lru[0]}
            && t.table == s.table - {s.handles[s.lru[0]].key}
  {
    var e := s.lru[0];
    assert e in s.lru;
    assert HandleOk(s, e);
    WithoutFirst(s.lru);
    WithoutMembers(s.inUse, e);
  }

  lemma {:induction false} WithoutFirst(ids: seq<Id>)
    requires Distinct(ids) && ids != []
    ensures Without(ids, ids[0]) == ids[1..]
  {
    if |ids| > 1 {
      var n := |ids| - 1;
      WithoutFirst(ids[..n]);
      assert ids[..n][1..] + [ids[n]] == ids[1..];
    }
  }

  /** Oldest first, unused entries go until the rest fits or is all in use. */
  ghost function Evicted(s: Shard): Shard
    requires ValidBut(s, None)
    decreases |s.lru|
  {
    if s.usage > s.capacity && s.lru != [] then
      OldestIsDeleted(s);
      RemovedKeeps(s, s.handles[s.lru[0]].key);
      Evicted(Removed(s, s.handles[s.lru[0]].key))
    else s
  }

  /** The n oldest unused entries are gone, deleted in order, and nothing else has changed. */
  ghost predicate WithoutOldest(s: Shard, t: Shard, n: nat) {
    && n <= |s.lru| && t.lru == s.lru[n..] && t.deleted == s.deleted + s.lru[..n]
    && t.inUse == s.inUse && t.capacity == s.capacity
    && (forall id :: id in t.handles <==> id in s.handles && id !in s.lru[..n])
    && (forall id :: id in t.handles ==> t.handles[id] == s.handles[id])
    && (forall id :: id in t.held <==> id in s.held && id !in s.lru[..n])
    && (forall id :: id in t.held ==> t.held[id] == s.held[id])
    && (forall key :: key in t.table <==> key in s.table && s.table[key] !in s.lru[..n])
    && (forall key :: key in t.table ==> t.table[key] == s.table[key])
  }

  lemma OldestIsOut(s: Shard)
    requires ValidBut(s, None) && s.lru != []
    ensures s.lru[0] in s.handles && s.handles[s.lru[0]].key in s.table
    ensures s.table[s.handles[s.lru[0]].key] == s.lru[0] && s.handles[s.lru[0]].refs == 1
    ensures WithoutOldest(s, Removed(s, s.handles[s.lru[0]].key), 1)
    ensures Removed(s, s.handles[s.lru[0]].key).usage == s.usage - s.handles[s.lru[0]].charge
  {
    hide HandlesOk, ListsOk, Removed;
    OldestIsDeleted(s);
    RemovedUsage(s, s.handles[s.lru[0]].key);
    assert s.lru[..1] == [s.lru[0]];
  }

  lemma RemovedUsage(s: Shard, key: Bytes)
    requires key in s.table && s.table[key] in s.handles && s.handles[s.table[key]].refs > 0
    ensures Removed(s, key).usage == s.usage - s.handles[s.table[key]].charge
  {
    hide Without;
  }

  lemma OneMoreOldest(s: Shard, t: Shard, u: Shard, m: nat)
    requires WithoutOldest(s, t, 1) && WithoutOldest(t, u, m)
    ensures WithoutOldest(s, u, m + 1)
  {
    assert s.lru[..m + 1] == s.lru[..1] + t.lru[..m];
    assert s.lru[m + 1..] == t.lru[m..];
    assert s.deleted + s.lru[..m + 1] == t.deleted + t.lru[..m];
  }

  /** The n-th oldest entry goes only if usage is over capacity without those before it. */
  ghost predicate NeedsRoom(s: Shard, n: nat)
    requires n <= |s.lru| && forall id :: id in s.lru ==> id in s.handles
  {
    n > 0 ==> s.usage - TotalCharge(s.handles, s.lru[..n - 1]) > s.capacity
  }

  lemma OneMoreNeedsRoom(s: Shard, t: Shard, m: nat)
    requires s.lru != [] && t.lru == s.lru[1..] && m <= |t.lru| && s.usage > s.capacity == t.capacity
    requires forall id :: id in s.lru ==> id in s.handles
    requires forall id :: id in t.lru ==> id in t.handles && t.handles[id] == s.handles[id]
    requires t.usage == s.usage - s.handles[s.lru[0]].charge && NeedsRoom(t, m)
    ensures NeedsRoom(s, m + 1)
  {
    if m > 0 {
      assert s.lru[..m] == [s.lru[0]] + t.lru[..m - 1];
      ChargeOfFirst(s.handles, s.lru[0], t.lru[..m - 1]);
      SameCharges(s.handles, t.handles, t.lru[..m - 1]);
    }
  }

  lemma {:induction false} ChargeOfFirst(handles: map<Id, Handle>, id: Id, rest: seq<Id>)
    requires id in handles && forall x :: x in rest ==> x in handles
    ensures TotalCharge(handles, [id] + rest) == handles[id].charge + TotalCharge(handles, rest)
  {
    var all := [id] + rest;
    if rest == [] {
      assert all[..0] == [];
    } else {
      assert all[..|all| - 1] == [id] + rest[..|rest| - 1];
      ChargeOfFirst(handles, id, rest[..|rest| - 1]);
    }
  }

  lemma UnusedAreThere(s: Shard)
    requires ValidBut(s, None)
    ensures forall id :: id in s.lru ==> id in s.handles
  {
  }

  /** What eviction does: a stretch of oldest unused entries is deleted, in order; nothing a client holds is touched;
      it ends within capacity, or with nothing left to evict, and no sooner than usage fits does it delete anything. */
  lemma {:induction false} EvictedIs(s: Shard) returns (n: nat)
    requires ValidBut(s, None)
    ensures ValidBut(Evicted(s), None) && WithoutOldest(s, Evicted(s), n)
    ensures Evicted(s).usage <= s.capacity || Evicted(s).lru == []
    ensures (forall id :: id in s.lru ==> id in s.handles) && NeedsRoom(s, n)
    decreases |s.lru|
  {
    hide ValidBut, Removed, NeedsRoom, WithoutOldest;
    UnusedAreThere(s);
    if s.usage > s.capacity && s.lru != [] {
      OldestIsOut(s);
      var key := s.handles[s.lru[0]].key;
      RemovedKeeps(s, key);
      var t := Removed(s, key);
      OneGone(s, t);
      var m := EvictedIs(t);
      OneMoreOldest(s, t, Evicted(t), m);
      WithoutBound(t, Evicted(t), m);
      OneMoreNeedsRoom(s, t, m);
      n := m + 1;
    } else {
      NoneNeedsRoom(s);
      NoneOut(s);
      n := 0;
    }
  }

  lemma OneGone(s: Shard, t: Shard)
    requires s.lru != [] && WithoutOldest(s, t, 1) && forall id :: id in s.lru ==> id in s.handles
    ensures t.lru == s.lru[1..] && t.capacity == s.capacity
    ensures forall id :: id in t.lru && id in t.handles ==> t.handles[id] == s.handles[id]
  {
  }

  lemma WithoutBound(s: Shard, t: Shard, n: nat)
    requires WithoutOldest(s, t, n)
    ensures n <= |s.lru|
  {
  }

  lemma NoneOut(s: Shard)
    ensures WithoutOldest(s, s, 0)
  {
    assert s.lru[..0] == [];
  }

  lemma NoneNeedsRoom(s: Shard)
    requires forall id :: id in s.lru ==> id in s.handles
    ensures NeedsRoom(s, 0)
  {
  }

  /** Insert as far as the eviction loop. */
  ghost function Inserted(s: Shard, id: Id, key: Bytes, charge: nat): Shard
    requires ValidBut(s, None) && id !in s.handles && id !in s.deleted
  {
    AddedKeeps(s, id, key, charge);
    if Replaced(s, key).Some? then
      ErasedKeeps(Added(s, id, key, charge), s.table[key]);
      Erased(Added(s, id, key, charge), s.table[key])
    else Added(s, id, key, charge)
  }

  lemma InsertedKeeps(s: Shard, id: Id, key: Bytes, charge: nat)
    requires ValidBut(s, None) && id !in s.handles && id !in s.deleted
    ensures ValidBut(Inserted(s, id, key, charge), None)
  {
    AddedKeeps(s, id, key, charge);
    if Replaced(s, key).Some? {
      ErasedKeeps(Added(s, id, key, charge), s.table[key]);
    }
  }

  // ---------------------------------------------------------------- every run

  datatype Step =
    | Insert(id: Id, key: Bytes, charge: nat)      // id: the address allocated
    | Lookup(key: Bytes)
    | Release(id: Id)
    | Erase(key: Bytes)
    | Prune

  ghost predicate Next(s: Shard, step: Step, t: Shard)
    requires ValidBut(s, None)
  {
    match step
    case Insert(id, key, charge) =>
      id !in s.handles && id !in s.deleted
      && (InsertedKeeps(s, id, key, charge); t == Evicted(Inserted(s, id, key, charge)))
    case Lookup(key) =>
      if key in s.table then (ReffedKeeps(s, s.table[key]); t == Reffed(s, s.table[key])) else t == s
    case Release(id) =>
      id in s.handles && id in s.held && s.held[id] > 0      // a client gives back what it holds
      && (ReleasedKeeps(s, id); t == Released(s, id))
    case Erase(key) =>
      if key in s.table then (RemovedKeeps(s, key); t == Removed(s, key)) else t == s
    case Prune => t == Pruned(s)
  }

  ghost function Pruned(s: Shard): Shard
    requires ValidBut(s, None)
    decreases |s.lru|
  {
    if s.lru != [] then
      OldestIsDeleted(s);
      RemovedKeeps(s, s.handles[s.lru[0]].key);
      Pruned(Removed(s, s.handles[s.lru[0]].key))
    else s
  }

  lemma {:induction false} PrunedKeeps(s: Shard)
    requires ValidBut(s, None)
    ensures ValidBut(Pruned(s), None) && Pruned(s).lru == [] && Pruned(s).inUse == s.inUse
    ensures Pruned(s).deleted == s.deleted + s.lru
    ensures forall id :: id in Pruned(s).handles <==> id in s.handles && id !in s.lru
    decreases |s.lru|
  {
    hide HandlesOk, ListsOk, TotalCharge, Without;
    if s.lru != [] {
      OldestIsDeleted(s);
      var key := s.handles[s.lru[0]].key;
      RemovedKeeps(s, key);
      var t := Removed(s, key);
      hide Removed;
      PrunedKeeps(t);
      assert s.lru == [s.lru[0]] + t.lru;
      assert s.deleted + s.lru == t.deleted + t.lru;
    } else {
      assert s.deleted + s.lru == s.deleted;
    }
  }

  lemma StepKeeps(s: Shard, step: Step, t: Shard)
    requires ValidBut(s, None) && Next(s, step, t)
    ensures ValidBut(t, None)
  {
    hide HandlesOk, ListsOk, Reffed, Released, Removed;
    match step
    case Insert(id, key, charge) =>
      InsertedKeeps(s, id, key, charge);
      var _ := EvictedIs(Inserted(s, id, key, charge));
    case Lookup(key) =>
      if key in s.table {
        ReffedKeeps(s, s.table[key]);
      }
    case Release(id) => ReleasedKeeps(s, id);
    case Erase(key) =>
      if key in s.table {
        RemovedKeeps(s, key);
      }
    case Prune => PrunedKeeps(s);
  }

  /** An entry is deleted exactly when its handle is freed: no step loses one, and none comes back. */
  ghost predicate DeletesWhatItFrees(s: Shard, step: Step, t: Shard) {
    && s.deleted <= t.deleted
    && (forall id :: id in s.handles ==> (id in t.handles <==> id !in t.deleted))
    && (forall id :: id in t.handles ==> id in s.handles || (step.Insert? && id == step.id))
    && (step.Insert? ==> step.id in t.handles)
  }

  lemma ErasedFrees(s: Shard, e: Id)
    requires e in s.handles && s.handles[e].refs > 0 && (forall id :: id in s.deleted ==> id !in s.handles)
    ensures s.deleted <= Erased(s, e).deleted
    ensures forall id :: id in s.handles ==> (id in Erased(s, e).handles <==> id !in Erased(s, e).deleted)
    ensures forall id :: id in Erased(s, e).handles ==> id in s.handles
  {
    hide Without;
  }

  lemma InsertedFrees(s: Shard, id: Id, key: Bytes, charge: nat)
    requires ValidBut(s, None) && id !in s.handles && id !in s.deleted
    ensures DeletesWhatItFrees(s, Insert(id, key, charge), Inserted(s, id, key, charge))
  {
    var a := Added(s, id, key, charge);
    AddedKeeps(s, id, key, charge);
    AddedFrees(s, id, key, charge);
    if Replaced(s, key).Some? {
      var e := s.table[key];
      ReplacedCount(s, key);
      ErasedKeeps(a, e);
      ErasedFrees(a, e);
      hide ValidBut, Added;
      FreesOn(s, Insert(id, key, charge), a, Erased(a, e));
    }
  }

  lemma AddedFrees(s: Shard, id: Id, key: Bytes, charge: nat)
    requires ListsOk(s) && id !in s.handles && id !in s.deleted
    ensures DeletesWhatItFrees(s, Insert(id, key, charge), Added(s, id, key, charge))
    ensures forall x :: x in s.deleted ==> x !in Added(s, id, key, charge).handles
  {
  }

  lemma InsertedHeld(s: Shard, id: Id, key: Bytes, charge: nat, x: Id)
    requires ValidBut(s, None) && id !in s.handles && id !in s.deleted
    requires x in s.held && s.held[x] > 0 && x in s.handles
    ensures var t := Inserted(s, id, key, charge);
              && x in t.handles && x in t.held && t.held[x] == s.held[x]
              && t.handles[x].key == s.handles[x].key && t.handles[x].charge == s.handles[x].charge
  {
    InsertedIs(s, id, key, charge);
    AddedHeld(s, id, key, charge, x);
    if Replaced(s, key).Some? {
      ReplacedCount(s, key);
      hide ValidBut, Added, Erased, Inserted;
      ErasedHeld(Added(s, id, key, charge), s.table[key], x);
    }
  }

  lemma InsertedIs(s: Shard, id: Id, key: Bytes, charge: nat)
    requires ValidBut(s, None) && id !in s.handles && id !in s.deleted
    ensures var a := Added(s, id, key, charge);
            if Replaced(s, key).None? then Inserted(s, id, key, charge) == a
            else
              var e := s.table[key];
              && e in s.handles && e in a.handles && a.handles[e] == s.handles[e] && a.handles[e].refs > 0
              && Inserted(s, id, key, charge) == Erased(a, e)
  {
    AddedKeeps(s, id, key, charge);
    if Replaced(s, key).Some? {
      ErasedKeeps(Added(s, id, key, charge), s.table[key]);
      ReplacedCount(s, key);
    }
    hide HandlesOk, ListsOk, TableOk, Erased;
  }

  lemma AddedHeld(s: Shard, id: Id, key: Bytes, charge: nat, x: Id)
    requires id !in s.handles && x in s.held && x in s.handles
    ensures var a := Added(s, id, key, charge);
            x in a.handles && x in a.held && a.held[x] == s.held[x] && a.handles[x] == s.handles[x]
  {
  }

  /** Taking an entry out of the cache frees it only if no client holds it. */
  lemma ErasedHeld(s: Shard, e: Id, x: Id)
    requires e in s.handles && s.handles[e].refs > 0 && x in s.handles && x in s.held
    requires x == e ==> s.handles[e].refs > 1
    ensures var t := Erased(s, e);
              && x in t.handles && x in t.held && t.held[x] == s.held[x]
              && t.handles[x].key == s.handles[x].key && t.handles[x].charge == s.handles[x].charge
  {
    hide Without;
  }

  /** An entry in the table that a client holds has more than one reference. */
  lemma ReplacedCount(s: Shard, key: Bytes)
    requires ValidBut(s, None) && key in s.table
    ensures s.table[key] in s.handles && s.table[key] in s.held
    ensures s.handles[s.table[key]].refs > if s.held[s.table[key]] > 0 then 1 else 0
  {
    assert HandleOk(s, s.table[key]);
  }

  lemma EvictedFrees(b: Shard)
    requires ValidBut(b, None)
    ensures var t := Evicted(b);
            && b.deleted <= t.deleted
            && (forall x :: x in b.handles ==> (x in t.handles <==> x !in t.deleted))
            && (forall x :: x in t.handles ==> x in b.handles)
            && (forall x :: x in b.held && b.held[x] > 0 && x in b.handles ==>
                  x in t.handles && x in t.held && t.held[x] == b.held[x] && t.handles[x] == b.handles[x])
  {
    var n := EvictedIs(b);
    forall x | x in b.lru
      ensures x in b.held && b.held[x] == 0
    {
      LruIsUnused(b, x);
    }
    assert forall x :: x in b.deleted ==> x !in b.handles;
    hide ValidBut, Evicted;
    assert forall x :: x in b.lru[..n] ==> x in b.lru;
    assert forall x :: x in b.deleted + b.lru[..n] <==> x in b.deleted || x in b.lru[..n];
  }

  /** The unused entries once the new one has displaced what the table had for its key. */
  ghost function UnusedAfter(s: Shard, key: Bytes): seq<Id> {
    if s.capacity > 0 && key in s.table then Without(s.lru, s.table[key]) else s.lru
  }

  /** What the cache holds then, in charge. */
  ghost function UsageAfter(s: Shard, key: Bytes, charge: nat): int
    requires key in s.table ==> s.table[key] in s.handles
  {
    if s.capacity == 0 then s.usage
    else s.usage + charge - if key in s.table then s.handles[s.table[key]].charge else 0
  }

  /** Insert ends with the new entry in the table. Of the unused entries the n oldest are gone; what is left is within
      capacity or is all in use, and with one entry fewer gone it would not be. */
  lemma InsertMeans(s: Shard, step: Step, t: Shard) returns (n: nat)
    requires ValidBut(s, None) && step.Insert? && Next(s, step, t)
    ensures step.id in t.handles && step.id in t.held && t.held[step.id] == 1
    ensures s.capacity > 0 ==> step.key in t.table && t.table[step.key] == step.id
    ensures t.usage <= t.capacity || t.lru == []
    ensures step.key in s.table ==> s.table[step.key] in s.handles
    ensures var unused, usage := UnusedAfter(s, step.key), UsageAfter(s, step.key, step.charge);
            && (forall id :: id in unused ==> id in s.handles)
            && n <= |unused| && t.lru == unused[n..]
            && (n > 0 ==> usage - TotalCharge(s.handles, unused[..n - 1]) > s.capacity)
    ensures forall key :: key in t.table <==> (key in s.table && s.table[key] !in UnusedAfter(s, step.key)[..n])
                                              || (key == step.key && s.capacity > 0)
    ensures forall key :: key in t.table && (key != step.key || s.capacity == 0) ==> t.table[key] == s.table[key]
  {
    InsertedKeeps(s, step.id, step.key, step.charge);
    NewIsHeld(s, step.id, step.key, step.charge);
    var b := Inserted(s, step.id, step.key, step.charge);
    hide *;
    InsertedUnused(s, step.id, step.key, step.charge);
    n := EvictedIs(b);
    NewIsNotEvicted(b, step.id);
    InsertIs(s, step, t);
    NeededRoom(s, b, n);
    assert forall x :: x in b.lru[..n] ==> x in b.lru;
    InsertLeaves(s, step, b, t, n);
  }

  lemma InsertIs(s: Shard, step: Step, t: Shard)
    requires ValidBut(s, None) && step.Insert? && Next(s, step, t)
    ensures step.id !in s.handles && step.id !in s.deleted && ValidBut(Inserted(s, step.id, step.key, step.charge), None)
    ensures t == Evicted(Inserted(s, step.id, step.key, step.charge))
  {
    InsertedKeeps(s, step.id, step.key, step.charge);
    hide ValidBut, Inserted, Evicted;
  }

  lemma InsertLeaves(s: Shard, step: Step, b: Shard, t: Shard, n: nat)
    requires step.Insert? && WithoutOldest(b, t, n) && b.lru == UnusedAfter(s, step.key) && b.capacity == s.capacity
    requires step.id in b.handles && step.id in b.held && b.held[step.id] == 1 && step.id !in b.lru
    requires s.capacity > 0 ==> step.key in b.table && b.table[step.key] == step.id
    requires forall k :: k in b.table <==> k in s.table || (k == step.key && s.capacity > 0)
    requires forall k :: k in b.table && (k != step.key || s.capacity == 0) ==> b.table[k] == s.table[k]
    requires s.capacity > 0 && step.key in s.table ==> s.table[step.key] !in b.lru
    ensures n <= |b.lru| && t.lru == b.lru[n..]
    ensures t.capacity == s.capacity && step.id in t.handles && step.id in t.held && t.held[step.id] == 1
    ensures s.capacity > 0 ==> step.key in t.table && t.table[step.key] == step.id
    ensures forall key :: key in t.table <==> (key in s.table && s.table[key] !in UnusedAfter(s, step.key)[..n])
                                              || (key == step.key && s.capacity > 0)
    ensures forall key :: key in t.table && (key != step.key || s.capacity == 0) ==> t.table[key] == s.table[key]
  {
    hide UnusedAfter;
    assert forall x :: x in b.lru[..n] ==> x in b.lru;
  }

  lemma InsertedUnused(s: Shard, id: Id, key: Bytes, charge: nat)
    requires ValidBut(s, None) && id !in s.handles && id !in s.deleted
    ensures key in s.table ==> s.table[key] in s.handles
    ensures var b := Inserted(s, id, key, charge);
            && b.lru == UnusedAfter(s, key) && b.usage == UsageAfter(s, key, charge) && b.capacity == s.capacity
            && (forall x :: x in b.lru ==> x in s.handles && x in b.handles && b.handles[x].charge == s.handles[x].charge)
            && (forall k :: k in b.table <==> k in s.table || (k == key && s.capacity > 0))
            && (forall k :: k in b.table && (k != key || s.capacity == 0) ==> b.table[k] == s.table[k])
            && (s.capacity > 0 && key in s.table ==> s.table[key] !in b.lru)
  {
    InsertedIs(s, id, key, charge);
    UnusedAreThere(s);
    AddedFields(s, id, key, charge);
    if key in s.table {
      ReplacedCount(s, key);
      WithoutUnused(s, s.table[key]);
      if s.capacity > 0 {
        ErasedFields(Added(s, id, key, charge), s.table[key]);
      }
    }
    hide ValidBut, Inserted, Added, Erased, Without;
  }

  lemma WithoutUnused(s: Shard, id: Id)
    requires ValidBut(s, None)
    ensures id !in Without(s.lru, id) && forall x :: x in Without(s.lru, id) ==> x in s.lru && x != id
  {
    WithoutMembers(s.lru, id);
  }

  lemma AddedFields(s: Shard, id: Id, key: Bytes, charge: nat)
    requires id !in s.handles
    ensures var a := Added(s, id, key, charge);
            && a.lru == s.lru && a.usage == s.usage + (if s.capacity > 0 then charge else 0) && a.capacity == s.capacity
            && (forall x :: x in s.handles ==> x in a.handles && a.handles[x] == s.handles[x])
            && a.table == if s.capacity > 0 then s.table[key := id] else s.table
  {
  }

  lemma ErasedFields(a: Shard, e: Id)
    requires e in a.handles && a.handles[e].refs > 0
    ensures var t := Erased(a, e);
            && t.lru == Without(a.lru, e) && t.usage == a.usage - a.handles[e].charge && t.capacity == a.capacity
            && (forall x :: x in a.handles && x != e ==> x in t.handles && t.handles[x] == a.handles[x])
            && t.table == a.table
  {
    hide Without;
  }

  lemma NeededRoom(s: Shard, b: Shard, n: nat)
    requires n <= |b.lru| && b.capacity == s.capacity
    requires forall x :: x in b.lru ==> x in s.handles && x in b.handles && b.handles[x].charge == s.handles[x].charge
    requires NeedsRoom(b, n)
    ensures n > 0 ==> b.usage - TotalCharge(s.handles, b.lru[..n - 1]) > s.capacity
  {
    if n > 0 {
      SameCharges(s.handles, b.handles, b.lru[..n - 1]);
    }
  }

  /** An entry that fits in beside all the others displaces none of them. */
  lemma FittingInsertKeepsAll(s: Shard, step: Step, t: Shard, key: Bytes)
    requires ValidBut(s, None) && step.Insert? && Next(s, step, t) && s.usage + step.charge <= s.capacity
    requires key in s.table && key != step.key
    ensures key in t.table && t.table[key] == s.table[key]
  {
    var n := InsertMeans(s, step, t);
    hide ValidBut, Next;
  }

  lemma NewIsNotEvicted(s: Shard, id: Id)
    requires ValidBut(s, None) && id in s.held && s.held[id] > 0
    ensures id !in s.lru
  {
    assert HandleOk(s, id);
  }

  lemma InsertFrees(s: Shard, id: Id, key: Bytes, charge: nat)
    requires ValidBut(s, None) && id !in s.handles && id !in s.deleted
    ensures ValidBut(Inserted(s, id, key, charge), None)
    ensures DeletesWhatItFrees(s, Insert(id, key, charge), Evicted(Inserted(s, id, key, charge)))
  {
    InsertedFrees(s, id, key, charge);
    InsertedKeeps(s, id, key, charge);
    NewIsHeld(s, id, key, charge);
    var b := Inserted(s, id, key, charge);
    EvictedFrees(b);
    FreesOn(s, Insert(id, key, charge), b, Evicted(b));
  }

  lemma FreesOn(s: Shard, step: Step, b: Shard, t: Shard)
    requires DeletesWhatItFrees(s, step, b) && b.deleted <= t.deleted
    requires (forall x :: x in b.handles ==> (x in t.handles <==> x !in t.deleted)) && (forall x :: x in t.handles ==> x in b.handles)
    requires step.Insert? ==> step.id in t.handles
    ensures DeletesWhatItFrees(s, step, t)
  {
    forall x | x in b.deleted
      ensures x in t.deleted
    {
      var i :| 0 <= i < |b.deleted| && b.deleted[i] == x;
      assert t.deleted[i] == x;
    }
  }

  lemma LruIsUnused(s: Shard, x: Id)
    requires ValidBut(s, None) && x in s.lru
    ensures x in s.handles && x in s.held && s.held[x] == 0
  {
    assert HandleOk(s, x);
  }

  lemma NewIsHeld(s: Shard, id: Id, key: Bytes, charge: nat)
    requires ValidBut(s, None) && id !in s.handles && id !in s.deleted
    ensures var t := Inserted(s, id, key, charge);
            && id in t.handles && id in t.held && t.held[id] == 1 && t.capacity == s.capacity
            && (s.capacity > 0 ==> key in t.table && t.table[key] == id)
  {
    hide Without, ListsOk;
  }

  lemma StepFrees(s: Shard, step: Step, t: Shard)
    requires ValidBut(s, None) && Next(s, step, t)
    ensures DeletesWhatItFrees(s, step, t)
  {
    hide ValidBut, Reffed, Released, Removed, Inserted, Evicted, Pruned;
    match step
    case Insert(id, key, charge) => InsertFrees(s, id, key, charge);
    case Lookup(key) => LookupFrees(s, key, t);
    case Release(id) => ReleaseFrees(s, id, t);
    case Erase(key) =>
      if key in s.table {
        EraseFrees(s, key);
      } else {
        DeletedAreGone(s);
      }
    case Prune => PruneFrees(s);
  }

  lemma PruneFrees(s: Shard)
    requires ValidBut(s, None)
    ensures DeletesWhatItFrees(s, Prune, Pruned(s))
  {
    hide ValidBut, Pruned;
    PrunedKeeps(s);
    assert forall x :: x in s.deleted + s.lru <==> x in s.deleted || x in s.lru;
    DeletedAreGone(s);
  }

  lemma DeletedAreGone(s: Shard)
    requires ValidBut(s, None)
    ensures forall id :: id in s.deleted ==> id !in s.handles
  {
  }

  lemma LookupFrees(s: Shard, key: Bytes, t: Shard)
    requires ValidBut(s, None) && Next(s, Lookup(key), t)
    ensures DeletesWhatItFrees(s, Lookup(key), t)
  {
    DeletedAreGone(s);
    hide HandlesOk, ListsOk, Without;
  }

  lemma ReleaseFrees(s: Shard, id: Id, t: Shard)
    requires ValidBut(s, None) && Next(s, Release(id), t)
    ensures DeletesWhatItFrees(s, Release(id), t)
  {
    DeletedAreGone(s);
    ReleasedKeeps(s, id);
    hide HandlesOk, ListsOk, TableOk, Without;
  }

  lemma EraseFrees(s: Shard, key: Bytes)
    requires ValidBut(s, None) && key in s.table
    ensures s.table[key] in s.handles && s.handles[s.table[key]].refs > 0
    ensures DeletesWhatItFrees(s, Erase(key), Removed(s, key))
  {
    hide ValidBut, Erased;
    DeletedAreGone(s);
    RemovedKeeps(s, key);
    ErasedFrees(s.(table := s.table - {key}), s.table[key]);
  }

  ghost predicate IsRun(states: seq<Shard>, steps: seq<Step>) {
    && |states| == |steps| + 1
    && (exists capacity: nat :: states[0] == Shard(capacity, 0, map[], map[], [], [], map[], []))
    && forall i :: 0 <= i < |steps| ==> ValidBut(states[i], None) ==> Next(states[i], steps[i], states[i + 1])
  }

  lemma {:induction false} RunKeeps(states: seq<Shard>, steps: seq<Step>, i: nat)
    requires IsRun(states, steps) && i < |states|
    ensures ValidBut(states[i], None)
  {
    if i > 0 {
      RunKeeps(states, steps, i - 1);
      StepKeeps(states[i - 1], steps[i - 1], states[i]);
    }
  }

  /** Whatever was allocated is either still there, and not deleted, or deleted exactly once. */
  lemma {:induction false} DeletedOnce(states: seq<Shard>, steps: seq<Step>, i: nat, j: nat, id: Id)
    requires IsRun(states, steps) && i <= j < |states| && (id in states[i].handles || id in states[i].deleted)
    ensures id in states[j].handles <==> id !in states[j].deleted
    ensures Distinct(states[j].deleted)
    decreases j - i
  {
    RunKeeps(states, steps, i);
    if i < j {
      StepFrees(states[i], steps[i], states[i + 1]);
      RunKeeps(states, steps, i + 1);
      DeletedOnce(states, steps, i + 1, j, id);
    }
  }

  /** No client's handle is ever freed or changed under it: it has its references, and the entry its key and cost. */
  lemma HeldStays(s: Shard, step: Step, t: Shard, id: Id)
    requires ValidBut(s, None) && Next(s, step, t) && id in s.held && s.held[id] > 0 && step != Release(id)
    ensures id in s.handles && id in t.handles && id in t.held && t.held[id] >= s.held[id]
    ensures t.handles[id].key == s.handles[id].key && t.handles[id].charge == s.handles[id].charge
  {
    hide HandlesOk, TableOk, ListsOk, Reffed, Released, Removed, Evicted, Inserted, Pruned;
    HeldIsThere(s, id);
    match step
    case Insert(new_, key, charge) => InsertHeld(s, new_, key, charge, id);
    case Lookup(key) =>
      if key in s.table {
        ReplacedCount(s, key);
        ReffedHeld(s, s.table[key], id);
      }
    case Release(other) =>
      ReleasedKeeps(s, other);
      ReleasedHeld(s, other, id);
    case Erase(key) =>
      if key in s.table {
        ReplacedCount(s, key);
        RemovedHeld(s, key, id);
      }
    case Prune => PrunedHeld(s, id);
  }

  lemma HeldIsThere(s: Shard, id: Id)
    requires HandlesOk(s) && id in s.held
    ensures id in s.handles
  {
  }

  lemma ReffedHeld(s: Shard, e: Id, id: Id)
    requires e in s.handles && e in s.held && id in s.handles && id in s.held
    ensures var t := Reffed(s, e);
            && id in t.handles && id in t.held && t.held[id] >= s.held[id]
            && t.handles[id].key == s.handles[id].key && t.handles[id].charge == s.handles[id].charge
  {
    hide Without;
  }

  lemma ReleasedHeld(s: Shard, e: Id, id: Id)
    requires e in s.handles && s.handles[e].refs > 0 && e in s.held && s.held[e] > 0
    requires id in s.handles && id in s.held && id != e
    ensures var t := Released(s, e);
            id in t.handles && id in t.held && t.held[id] == s.held[id] && t.handles[id] == s.handles[id]
  {
    hide Without;
  }

  lemma RemovedHeld(s: Shard, key: Bytes, id: Id)
    requires key in s.table && s.table[key] in s.handles && id in s.handles && id in s.held
    requires s.handles[s.table[key]].refs > if id == s.table[key] then 1 else 0
    ensures var t := Removed(s, key);
            && id in t.handles && id in t.held && t.held[id] == s.held[id]
            && t.handles[id].key == s.handles[id].key && t.handles[id].charge == s.handles[id].charge
  {
    hide Without;
  }

  lemma InsertHeld(s: Shard, new_: Id, key: Bytes, charge: nat, id: Id)
    requires ValidBut(s, None) && new_ !in s.handles && new_ !in s.deleted
    requires id in s.held && s.held[id] > 0 && id in s.handles
    ensures ValidBut(Inserted(s, new_, key, charge), None)
    ensures var t := Evicted(Inserted(s, new_, key, charge));
            && id in t.handles && id in t.held && t.held[id] == s.held[id]
            && t.handles[id].key == s.handles[id].key && t.handles[id].charge == s.handles[id].charge
  {
    InsertedHeld(s, new_, key, charge, id);
    InsertedKeeps(s, new_, key, charge);
    EvictedFrees(Inserted(s, new_, key, charge));
    hide ValidBut, Inserted, Evicted;
  }

  lemma {:induction false} PrunedHeld(s: Shard, id: Id)
    requires ValidBut(s, None) && id in s.held && s.held[id] > 0 && id in s.handles
    ensures id in Pruned(s).handles && id in Pruned(s).held && Pruned(s).held[id] == s.held[id]
    ensures Pruned(s).handles[id] == s.handles[id]
    decreases |s.lru|
  {
    hide HandlesOk, ListsOk, TotalCharge, Without;
    if s.lru != [] {
      OldestIsDeleted(s);
      var key := s.handles[s.lru[0]].key;
      RemovedKeeps(s, key);
      hide Removed;
      PrunedHeld(Removed(s, key), id);
    }
  }

  /** Only Insert, Erase and Prune change what a lookup finds, and Erase changes it for its key alone. */
  lemma LookupsAfterStep(s: Shard, step: Step, t: Shard)
    requires ValidBut(s, None) && Next(s, step, t) && !step.Insert? && !step.Prune?
    ensures t.table == if step.Erase? then s.table - {step.key} else s.table
  {
    hide HandlesOk, TableOk, ListsOk, Without;
    match step
    case Lookup(key) =>
      if key in s.table {
        ReplacedCount(s, key);
      }
    case Release(id) => ReleasedKeeps(s, id);
    case Erase(key) =>
      if key in s.table {
        RemovedKeeps(s, key);
      }
  }

  // ---------------------------------------------------------------- least recently used

  /** The last of the first n steps in which a client gave id back; -1 if there is none. */
  ghost function LastReleased(steps: seq<Step>, n: nat, id: Id): (r: int)
    requires n <= |steps|
    ensures -1 <= r < n
  {
    if n == 0 then -1 else if steps[n - 1] == Release(id) then n - 1 else LastReleased(steps, n - 1, id)
  }

  ghost predicate ByLastUse(ids: seq<Id>, steps: seq<Step>, n: nat)
    requires n <= |steps|
  {
    forall i, j :: 0 <= i < j < |ids| ==> LastReleased(steps, n, ids[i]) < LastReleased(steps, n, ids[j])
  }

  lemma {:induction false} WithoutIsInOrder(ids: seq<Id>, id: Id, steps: seq<Step>, n: nat)
    requires n <= |steps| && ByLastUse(ids, steps, n) && Distinct(ids)
    ensures ByLastUse(Without(ids, id), steps, n)
  {
    hide LastReleased;
    if ids != [] && ids[|ids| - 1] != id {
      var rest := ids[..|ids| - 1];
      WithoutIsInOrder(rest, id, steps, n);
      WithoutMembers(rest, id);
      hide Without;
      forall i | 0 <= i < |Without(rest, id)|
        ensures LastReleased(steps, n, Without(rest, id)[i]) < LastReleased(steps, n, ids[|ids| - 1])
      {
        assert Without(rest, id)[i] in Without(rest, id);
        var k :| 0 <= k < |rest| && rest[k] == Without(rest, id)[i];
        assert ids[k] == rest[k];
      }
    }
  }

  /** The entries in the list stay in order if another one is given back or none is. */
  lemma StillInOrder(ids: seq<Id>, steps: seq<Step>, n: nat)
    requires n < |steps| && ByLastUse(ids, steps, n) && (steps[n].Release? ==> steps[n].id !in ids)
    ensures ByLastUse(ids, steps, n + 1)
  {
  }

  lemma LastInOrder(ids: seq<Id>, id: Id, steps: seq<Step>, n: nat)
    requires n < |steps| && ByLastUse(ids, steps, n) && steps[n] == Release(id) && id !in ids
    ensures ByLastUse(ids + [id], steps, n + 1)
  {
    StillInOrder(ids, steps, n);
  }

  lemma UnusedAreDistinct(s: Shard)
    requires ValidBut(s, None)
    ensures Distinct(s.lru) && forall id :: id in s.lru ==> id in s.held && s.held[id] == 0
  {
    forall id | id in s.lru
      ensures id in s.held && s.held[id] == 0
    {
      LruIsUnused(s, id);
    }
  }

  /** What a step makes of the unused entries: some go, and one may come at the end. */
  lemma UnusedAfterStep(s: Shard, step: Step, t: Shard)
    requires ValidBut(s, None) && Next(s, step, t)
    ensures match step
            case Insert(_, key, _) => exists n: nat :: n <= |UnusedAfter(s, key)| && t.lru == UnusedAfter(s, key)[n..]
            case Lookup(key) => t.lru == s.lru || (key in s.table && t.lru == Without(s.lru, s.table[key]))
            case Release(id) => t.lru == s.lru || t.lru == Without(s.lru, id) + [id]
            case Erase(key) => t.lru == s.lru || (key in s.table && t.lru == Without(s.lru, s.table[key]))
            case Prune => t.lru == []
  {
    hide HandlesOk, TableOk, ListsOk, Without, Inserted, Evicted, Pruned;
    match step
    case Insert(_, _, _) => var n := InsertMeans(s, step, t);
    case Lookup(key) =>
      if key in s.table {
        ReplacedCount(s, key);
      }
    case Release(id) => ReleasedKeeps(s, id);
    case Erase(key) =>
      if key in s.table {
        RemovedKeeps(s, key);
      }
    case Prune => PrunedKeeps(s);
  }

  /** In every run the unused entries are in the order in which clients last gave them back, so the ones that
      eviction takes, from the front, are the least recently used. */
  lemma {:induction false} UnusedByLastUse(states: seq<Shard>, steps: seq<Step>, n: nat)
    requires IsRun(states, steps) && n < |states|
    ensures ByLastUse(states[n].lru, steps, n)
  {
    if n > 0 {
      var s, step, t := states[n - 1], steps[n - 1], states[n];
      UnusedByLastUse(states, steps, n - 1);
      RunKeeps(states, steps, n - 1);
      hide IsRun, ByLastUse, LastReleased;
      InOrderAfterStep(s, step, t, steps, n - 1);
    } else {
      assert states[0].lru == [];
    }
  }

  lemma InOrderAfterStep(s: Shard, step: Step, t: Shard, steps: seq<Step>, n: nat)
    requires ValidBut(s, None) && Next(s, step, t) && n < |steps| && steps[n] == step && ByLastUse(s.lru, steps, n)
    ensures ByLastUse(t.lru, steps, n + 1)
  {
    UnusedAreDistinct(s);
    UnusedAfterStep(s, step, t);
    hide ValidBut, Next, ByLastUse, Without;
    match step
    case Insert(_, key, _) =>
      var k: nat :| k <= |UnusedAfter(s, key)| && t.lru == UnusedAfter(s, key)[k..];
      if s.capacity > 0 && key in s.table {
        WithoutIsInOrder(s.lru, s.table[key], steps, n);
      }
      StillInOrder(UnusedAfter(s, key), steps, n);
      SuffixInOrder(UnusedAfter(s, key), k, steps, n + 1);
    case Lookup(key) =>
      if t.lru != s.lru {
        WithoutIsInOrder(s.lru, s.table[key], steps, n);
      }
      StillInOrder(t.lru, steps, n);
    case Release(id) =>
      WithoutMembers(s.lru, id);
      WithoutIsInOrder(s.lru, id, steps, n);
      if t.lru == s.lru {
        ReleasedIsHeld(s, id, t);
        StillInOrder(t.lru, steps, n);
      } else {
        LastInOrder(Without(s.lru, id), id, steps, n);
      }
    case Erase(key) =>
      if t.lru != s.lru {
        WithoutIsInOrder(s.lru, s.table[key], steps, n);
      }
      StillInOrder(t.lru, steps, n);
    case Prune => NoneInOrder(steps, n + 1);
  }

  lemma SuffixInOrder(ids: seq<Id>, k: nat, steps: seq<Step>, n: nat)
    requires n <= |steps| && k <= |ids| && ByLastUse(ids, steps, n)
    ensures ByLastUse(ids[k..], steps, n)
  {
  }

  lemma NoneInOrder(steps: seq<Step>, n: nat)
    requires n <= |steps|
    ensures ByLastUse([], steps, n)
  {
  }

  /** What is given back was held, so it was not among the unused. */
  lemma ReleasedIsHeld(s: Shard, id: Id, t: Shard)
    requires ValidBut(s, None) && Next(s, Release(id), t)
    ensures id !in s.lru
  {
    NewIsNotEvicted(s, id);
  }

  // ---------------------------------------------------------------- the operations

  class LRUCache {
    const capacity: nat
    var usage: int
    var handles: map<Id, Handle>
    var table: map<Bytes, Id>
    var lru: seq<Id>
    var inUse: seq<Id>
    ghost var held: map<Id, nat>
    ghost var deleted: seq<Id>

    ghost function Now(): Shard
      reads this
    {
      Shard(capacity, usage, handles, table, lru, inUse, held, deleted)
    }

    ghost predicate Valid()
      reads this
    {
      ValidBut(Now(), None)
    }

    constructor (capacity: nat)
      ensures Valid() && Now() == Shard(capacity, 0, map[], map[], [], [], map[], [])
    {
      this.capacity := capacity;
      usage, handles, table, lru, inUse, held, deleted := 0, map[], map[], [], [], map[], [];
    }

    method Ref(e: Id)
      requires e in handles
      modifies this`handles, this`lru, this`inUse
      ensures handles == old(handles)[e := old(handles)[e].(refs := old(handles)[e].refs + 1)]
      ensures if old(handles)[e].refs == 1 && old(handles)[e].inCache then
                lru == Without(old(lru), e) && inUse == Without(old(inUse), e) + [e]
              else lru == old(lru) && inUse == old(inUse)
    {
      var h := handles[e];
      if h.refs == 1 && h.inCache {
        lru, inUse := Without(lru, e), Without(inUse, e);
        inUse := inUse + [e];
      }
      handles := handles[e := h.(refs := h.refs + 1)];
    }

    method Unref(e: Id)
      requires e in handles && handles[e].refs > 0
      modifies this`handles, this`held, this`lru, this`inUse, this`deleted
      ensures var h := old(handles)[e];
              if h.refs == 1 then
                && handles == old(handles) - {e} && held == old(held) - {e} && deleted == old(deleted) + [e]
                && lru == old(lru) && inUse == old(inUse)
              else
                && handles == old(handles)[e := h.(refs := h.refs - 1)] && held == old(held) && deleted == old(deleted)
                && if h.inCache && h.refs == 2 then
                     lru == Without(old(lru), e) + [e] && inUse == Without(old(inUse), e)
                   else lru == old(lru) && inUse == old(inUse)
    {
      var h := handles[e];
      handles := handles[e := h.(refs := h.refs - 1)];
      if handles[e].refs == 0 {
        deleted := deleted + [e];
        handles, held := handles - {e}, held - {e};
      } else if handles[e].inCache && handles[e].refs == 1 {
        lru, inUse := Without(lru, e), Without(inUse, e);
        lru := lru + [e];
      }
    }

    method Lookup(key: Bytes) returns (r: Option<Id>)
      requires Valid()
      modifies this
      ensures Valid() && Next(old(Now()), Step.Lookup(key), Now())
      ensures r == if key in old(table) then Some(old(table)[key]) else None
    {
      r := None;
      if key in table {
        hide HandlesOk, TableOk, ListsOk, Reffed;
        var e := table[key];
        ReplacedCount(Now(), key);
        ReffedKeeps(Now(), e);
        HandOut(e);
        r := Some(e);
      }
    }

    /** One more reference, for a client. */
    method HandOut(e: Id)
      requires e in handles && e in held
      modifies this`handles, this`lru, this`inUse, this`held
      ensures Now() == Reffed(old(Now()), e)
    {
      hide Without;
      Ref(e);
      held := held[e := held[e] + 1];
    }

    method Release(e: Id)
      requires Valid() && e in handles && e in held && held[e] > 0
      modifies this
      ensures Valid() && Next(old(Now()), Step.Release(e), Now())
    {
      hide HandlesOk, TableOk, ListsOk, Without;
      ReleasedKeeps(Now(), e);
      held := held[e := held[e] - 1];
      Unref(e);
      assert Now() == Released(old(Now()), e);
    }

    method FinishErase(e: Option<Id>) returns (erased: bool)
      requires e.Some? ==> ValidBut(Now(), e)
      modifies this
      ensures erased == e.Some?
      ensures e.None? ==> Now() == old(Now())
      ensures e.Some? ==> (ErasedKeeps(old(Now()), e.value); Valid() && Now() == Erased(old(Now()), e.value))
    {
      hide HandlesOk, TableOk, ListsOk, Without;
      if e.Some? {
        ErasedKeeps(Now(), e.value);
        var h := handles[e.value];
        lru, inUse := Without(lru, e.value), Without(inUse, e.value);
        handles := handles[e.value := h.(inCache := false)];
        usage := usage - h.charge;
        Unref(e.value);
        assert Now().handles == Erased(old(Now()), e.value).handles;
      }
      erased := e.Some?;
    }

    /** FinishErase(table_.Remove(key)). */
    method RemoveFromTable(key: Bytes) returns (erased: bool)
      requires Valid()
      modifies this
      ensures Valid() && Next(old(Now()), Step.Erase(key), Now()) && erased == (key in old(table))
    {
      if key in table {
        RemovedKeeps(Now(), key);
        RemovalLeaves(Now(), key);
        var e := table[key];
        table := table - {key};
        erased := FinishErase(Some(e));
      } else {
        erased := FinishErase(None);
      }
    }

    method Erase(key: Bytes)
      requires Valid()
      modifies this
      ensures Valid() && Next(old(Now()), Step.Erase(key), Now())
    {
      var _ := RemoveFromTable(key);
    }

    method Insert(id: Id, key: Bytes, charge: nat)
      requires Valid() && id !in handles && id !in deleted
      modifies this
      ensures Valid() && Next(old(Now()), Step.Insert(id, key, charge), Now())
    {
      InsertedKeeps(Now(), id, key, charge);
      hide HandlesOk, TableOk, ListsOk, Inserted;
      AddEntry(id, key, charge);
      ghost var target := Evicted(Now());
      while usage > capacity && lru != []
        invariant Valid() && Evicted(Now()) == target
        decreases |lru|
      {
        OldestIsDeleted(Now());
        var erased := RemoveFromTable(handles[lru[0]].key);
      }
    }

    /** The part of Insert before the eviction loop. */
    method AddEntry(id: Id, key: Bytes, charge: nat)
      requires Valid() && id !in handles && id !in deleted
      modifies this
      ensures Valid() && Now() == Inserted(old(Now()), id, key, charge)
    {
      InsertedKeeps(Now(), id, key, charge);
      AddedKeeps(Now(), id, key, charge);
      hide HandlesOk, TableOk, ListsOk, Added, Erased;
      var previous := AddHandle(id, key, charge);
      var _ := FinishErase(previous);
    }

    /** The new entry, linked where it belongs; what it displaces from the table is returned. */
    method AddHandle(id: Id, key: Bytes, charge: nat) returns (previous: Option<Id>)
      modifies this
      ensures Now() == Added(old(Now()), id, key, charge) && previous == Replaced(old(Now()), key)
    {
      var h := Handle(key, charge, 1, false);
      held := held[id := 1];
      previous := None;
      if capacity > 0 {
        h := h.(refs := h.refs + 1, inCache := true);
        inUse := inUse + [id];
        usage := usage + charge;
        if key in table {
          previous := Some(table[key]);
        }
        table := table[key := id];
      }
      handles := handles[id := h];
    }

    method Prune()
      requires Valid()
      modifies this
      ensures Valid() && Next(old(Now()), Step.Prune, Now())
    {
      ghost var target := Pruned(Now());
      while lru != []
        invariant Valid() && Pruned(Now()) == target
        decreases |lru|
      {
        OldestIsDeleted(Now());
        var erased := RemoveFromTable(handles[lru[0]].key);
      }
    }
  }

  lemma RemovalLeaves(s: Shard, key: Bytes)
    requires ValidBut(s, None) && key in s.table
    ensures ValidBut(s.(table := s.table - {key}), Some(s.table[key]))
  {
    var out := s.(table := s.table - {key});
    forall id | id in out.handles
      ensures HandleOk(out, id)
    {
      assert HandleOk(s, id);
    }
  }
}
