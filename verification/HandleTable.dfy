/**
 The cache's own hash table (util/cache.cc, HandleTable): an array of chains, doubled when
 there are more entries than chains.

 A chain is a sequence of what the source links together. The hash function is a parameter;
 callers hand in a key's hash with the key.
 */
module HandleTables {
  import opened InternalKeys

  type Id = nat

  datatype Node = Node(key: Bytes, hash: Word, id: Id)

  predicate PowerOfTwo(n: nat) {
    n == 1 || (n > 1 && n % 2 == 0 && PowerOfTwo(n / 2))
  }

  /** hash & (length - 1), for a length that is a power of two. */
  function Masked(hash: Word, length: nat): (r: nat)
    requires PowerOfTwo(length)
    ensures r < length
  {
    hash % length
  }

  ghost predicate HasKey(chain: seq<Node>, key: Bytes) {
    exists x :: 0 <= x < |chain| && chain[x].key == key
  }

  ghost predicate NodeOk(hashOf: Bytes -> Word, table: map<Bytes, Id>, n: Node, chain: nat, length: nat)
    requires PowerOfTwo(length)
  {
    n.hash == hashOf(n.key) && chain == Masked(n.hash, length) && n.key in table && table[n.key] == n.id
  }

  ghost predicate ChainOk(hashOf: Bytes -> Word, table: map<Bytes, Id>, nodes: seq<Node>, chain: nat, length: nat)
    requires PowerOfTwo(length)
  {
    && (forall x :: 0 <= x < |nodes| ==> NodeOk(hashOf, table, nodes[x], chain, length))
    && (forall x, y :: 0 <= x < y < |nodes| ==> nodes[x].key != nodes[y].key)
  }

  /** The chain with the node at place x, in place of the one with its key or at the end. */
  function Placed(nodes: seq<Node>, x: nat, h: Node): seq<Node>
    requires x <= |nodes|
  {
    if x < |nodes| then nodes[x := h] else nodes + [h]
  }

  lemma PlacedIsOk(hashOf: Bytes -> Word, table: map<Bytes, Id>, nodes: seq<Node>, b: nat, length: nat, x: nat, h: Node)
    requires PowerOfTwo(length) && ChainOk(hashOf, table, nodes, b, length) && x <= |nodes|
    requires h.hash == hashOf(h.key) && b == Masked(h.hash, length)
    requires if x < |nodes| then nodes[x].key == h.key else h.key !in table
    ensures ChainOk(hashOf, table[h.key := h.id], Placed(nodes, x, h), b, length)
    ensures HasKey(Placed(nodes, x, h), h.key) && forall key :: HasKey(nodes, key) ==> HasKey(Placed(nodes, x, h), key)
  {
    hide Masked, PowerOfTwo;
    var after := Placed(nodes, x, h);
    assert after[x].key == h.key;
    forall key | HasKey(nodes, key)
      ensures HasKey(after, key)
    {
      var y :| 0 <= y < |nodes| && nodes[y].key == key;
      assert after[y].key == key;
    }
    forall y | 0 <= y < |after|
      ensures NodeOk(hashOf, table[h.key := h.id], after[y], b, length)
    {
      assert y < |nodes| ==> NodeOk(hashOf, table, nodes[y], b, length);
    }
    forall y, z | 0 <= y < z < |after|
      ensures after[y].key != after[z].key
    {
      assert z < |nodes| ==> nodes[y].key != nodes[z].key;
      assert NodeOk(hashOf, table, nodes[y], b, length);
    }
  }

  lemma RemovedIsOk(hashOf: Bytes -> Word, table: map<Bytes, Id>, nodes: seq<Node>, b: nat, length: nat, x: nat)
    requires PowerOfTwo(length) && ChainOk(hashOf, table, nodes, b, length) && x < |nodes|
    ensures ChainOk(hashOf, Dropped(table, nodes[x].key), nodes[..x] + nodes[x + 1..], b, length)
    ensures forall key :: HasKey(nodes, key) && key != nodes[x].key ==> HasKey(nodes[..x] + nodes[x + 1..], key)
  {
    hide Masked, PowerOfTwo;
    var after := nodes[..x] + nodes[x + 1..];
    forall key | HasKey(nodes, key) && key != nodes[x].key
      ensures HasKey(after, key)
    {
      var y :| 0 <= y < |nodes| && nodes[y].key == key;
      assert after[if y < x then y else y - 1].key == key;
    }
    forall y | 0 <= y < |after|
      ensures NodeOk(hashOf, Dropped(table, nodes[x].key), after[y], b, length)
    {
      var z := if y < x then y else y + 1;
      assert after[y] == nodes[z] && NodeOk(hashOf, table, nodes[z], b, length);
      assert if z < x then nodes[z].key != nodes[x].key else nodes[x].key != nodes[z].key;
    }
  }

  /** A key's entry is a matter of its own chain only. */
  lemma OtherChainIsOk(hashOf: Bytes -> Word, table: map<Bytes, Id>, nodes: seq<Node>, b: nat, length: nat, key: Bytes, id: Id)
    requires PowerOfTwo(length) && ChainOk(hashOf, table, nodes, b, length) && Masked(hashOf(key), length) != b
    ensures ChainOk(hashOf, table[key := id], nodes, b, length) && ChainOk(hashOf, Dropped(table, key), nodes, b, length)
  {
    hide Masked, PowerOfTwo;
    forall y | 0 <= y < |nodes|
      ensures NodeOk(hashOf, table[key := id], nodes[y], b, length) && NodeOk(hashOf, Dropped(table, key), nodes[y], b, length)
    {
      assert NodeOk(hashOf, table, nodes[y], b, length);
    }
  }

  function Dropped(table: map<Bytes, Id>, key: Bytes): map<Bytes, Id> {
    map k | k in table && k != key :: table[k]
  }

  class HandleTable {
    const hashOf: Bytes -> Word
    var length: nat
    var elems: nat
    var list: array<seq<Node>>
    ghost var table: map<Bytes, Id>          // what the chains say

    /** Each key of the map is in the chain of its hash and nowhere else. */
    ghost predicate ChainsOk()
      reads this, list
    {
      && list.Length == length && PowerOfTwo(length)
      && (forall b :: 0 <= b < length ==> ChainOk(hashOf, table, list[b], b, length))
      && (forall key :: key in table ==> HasKey(list[Masked(hashOf(key), length)], key))
    }

    /** There are no more entries than chains, and at least four chains. */
    ghost predicate Valid()
      reads this, list
    {
      ChainsOk() && elems == |table| <= length && length >= 4
    }

    constructor (hashOf: Bytes -> Word)
      ensures Valid() && fresh(list) && table == map[] && this.hashOf == hashOf
    {
      this.hashOf := hashOf;
      length, elems, table := 4, 0, map[];
      list := new seq<Node>[4](_ => []);
      assert PowerOfTwo(1) && PowerOfTwo(2) && PowerOfTwo(4);
    }

    /** The place of the key in its chain, or the place after the last one. */
    method FindPointer(key: Bytes, hash: Word) returns (b: nat, x: nat)
      requires Valid() && hash == hashOf(key)
      ensures b == Masked(hash, length) && x <= |list[b]|
      ensures key in table <==> x < |list[b]|
      ensures x < |list[b]| ==> list[b][x].key == key && list[b][x].id == table[key]
    {
      b, x := Masked(hash, length), 0;
      while x < |list[b]| && (list[b][x].hash != hash || key != list[b][x].key)
        invariant x <= |list[b]| && forall y :: 0 <= y < x ==> list[b][y].key != key
      {
        assert NodeOk(hashOf, table, list[b][x], b, length);
        x := x + 1;
      }
      assert x < |list[b]| ==> NodeOk(hashOf, table, list[b][x], b, length);
    }

    method Lookup(key: Bytes, hash: Word) returns (r: Option<Id>)
      requires Valid() && hash == hashOf(key)
      ensures r == if key in table then Some(table[key]) else None
    {
      var b, x := FindPointer(key, hash);
      r := if x < |list[b]| then Some(list[b][x].id) else None;
    }

    /** The entry takes the place of the one with its key, which is handed back, or that of a new one at the end. */
    method Insert(h: Node) returns (old_: Option<Id>)
      requires Valid() && h.hash == hashOf(h.key)
      modifies this, list
      ensures Valid() && (list == old(list) || fresh(list)) && table == old(table)[h.key := h.id]
      ensures old_ == if h.key in old(table) then Some(old(table)[h.key]) else None
    {
      hide ChainOk, HasKey, Masked, PowerOfTwo;
      var b, x := FindPointer(h.key, h.hash);
      old_ := if x < |list[b]| then Some(list[b][x].id) else None;
      PlacedIsOk(hashOf, table, list[b], b, length, x, h);
      forall c | 0 <= c < length && c != b
        ensures ChainOk(hashOf, table[h.key := h.id], list[c], c, length)
      {
        OtherChainIsOk(hashOf, table, list[c], c, length, h.key, h.id);
      }
      list[b] := Placed(list[b], x, h);
      table := table[h.key := h.id];
      if old_.None? {
        elems := elems + 1;
        if elems > length {
          Resize();
        }
      }
    }

    method Remove(key: Bytes, hash: Word) returns (r: Option<Id>)
      requires Valid() && hash == hashOf(key)
      modifies this, list
      ensures Valid() && list == old(list) && table == Dropped(old(table), key)
      ensures r == if key in old(table) then Some(old(table)[key]) else None
    {
      hide ChainOk, HasKey, PowerOfTwo;
      var b, x := FindPointer(key, hash);
      hide Masked, ChainsOk, Dropped;
      NotThere(table, key);
      r := None;
      if x < |list[b]| {
        r := Some(list[b][x].id);
        OneLess(table, key);
        Unlink(b, x);
        elems := elems - 1;
      }
    }

    method Unlink(b: nat, x: nat)
      requires ChainsOk() && b < length && x < |list[b]|
      modifies this`table, list
      ensures ChainsOk() && list == old(list) && table == Dropped(old(table), old(list[b][x].key))
    {
      ghost var key := list[b][x].key;
      assert NodeOk(hashOf, table, list[b][x], b, length);
      hide ChainOk, HasKey, Masked, PowerOfTwo;
      RemovedIsOk(hashOf, table, list[b], b, length, x);
      forall c | 0 <= c < length && c != b
        ensures ChainOk(hashOf, Dropped(table, key), list[c], c, length)
      {
        OtherChainIsOk(hashOf, table, list[c], c, length, key, 0);
      }
      list[b] := list[b][..x] + list[b][x + 1..];
      table := Dropped(table, key);
    }

    /** The entries move, one by one to the front of their new chain, into twice as many chains or as many as it
        takes. The number moved is the number of entries. */
    method Resize()
      requires ChainsOk() && elems == |table|
      modifies this`length, this`list
      ensures Valid() && fresh(list) && elems <= length && (length == 4 || length < 2 * elems)
    {
      var newLength := 4;
      assert PowerOfTwo(1) && PowerOfTwo(2) && PowerOfTwo(4);
      while newLength < elems
        invariant newLength >= 4 && PowerOfTwo(newLength) && (newLength == 4 || newLength < 2 * elems)
        decreases elems - newLength
      {
        assert newLength * 2 / 2 == newLength;
        newLength := newLength * 2;
      }
      var newList, count := Rehash(newLength);
      assert count == elems;
      list := newList;
      length := newLength;
    }

    method Rehash(newLength: nat) returns (newList: array<seq<Node>>, count: nat)
      requires ChainsOk() && PowerOfTwo(newLength)
      ensures fresh(newList) && newList.Length == newLength && count == |table|
      ensures forall c :: 0 <= c < newLength ==> ChainOk(hashOf, table, newList[c], c, newLength)
      ensures forall key :: key in table ==> HasKey(newList[Masked(hashOf(key), newLength)], key)
    {
      newList := new seq<Node>[newLength](_ => []);
      hide PowerOfTwo, Masked, ChainOk, Rehashed;
      ghost var moved: set<Bytes> := {};
      count := 0;
      NothingMoved(newList, newLength);
      for i := 0 to length
        invariant Rehashed(newList, newLength, moved) && count == |moved| && AllBefore(moved, i, 0)
      {
        var n;
        n, moved := MoveChain(newList, newLength, i, moved);
        count := count + n;
      }
      EverythingMoved(newList, newLength, moved);
    }

    /** The new chains hold exactly the entries with these keys. */
    ghost predicate Rehashed(newList: array<seq<Node>>, newLength: nat, moved: set<Bytes>)
      reads this, newList
    {
      && newList.Length == newLength && PowerOfTwo(newLength)
      && (forall c :: 0 <= c < newLength ==> ChainOk(hashOf, table, newList[c], c, newLength))
      && (forall c, x :: 0 <= c < newLength && 0 <= x < |newList[c]| ==> newList[c][x].key in moved)
      && (forall key :: key in moved ==> key in table && HasKey(newList[Masked(hashOf(key), newLength)], key))
    }

    /** The keys of the entries before place j of chain i. */
    ghost predicate AllBefore(moved: set<Bytes>, i: nat, j: nat)
      reads this, list
      requires list.Length == length
    {
      forall c, x :: 0 <= c < length && 0 <= x < |list[c]| ==> (list[c][x].key in moved <==> c < i || (c == i && x < j))
    }

    lemma NothingMoved(newList: array<seq<Node>>, newLength: nat)
      requires newList.Length == newLength && PowerOfTwo(newLength) && forall c :: 0 <= c < newLength ==> newList[c] == []
      ensures Rehashed(newList, newLength, {})
    {
    }

    lemma EverythingMoved(newList: array<seq<Node>>, newLength: nat, moved: set<Bytes>)
      requires ChainsOk() && Rehashed(newList, newLength, moved) && AllBefore(moved, length, 0)
      ensures moved == table.Keys && |moved| == |table|
      ensures newList.Length == newLength && PowerOfTwo(newLength)
      ensures forall c :: 0 <= c < newLength ==> ChainOk(hashOf, table, newList[c], c, newLength)
      ensures forall key :: key in table ==> HasKey(newList[Masked(hashOf(key), newLength)], key)
    {
      hide PowerOfTwo, ChainOk;
      forall key | key in table
        ensures key in moved
      {
        var c := Masked(hashOf(key), length);
        var x :| 0 <= x < |list[c]| && list[c][x].key == key;
      }
    }

    lemma KeysApart(c: nat, x: nat, i: nat, j: nat)
      requires ChainsOk() && c < length && x < |list[c]| && i < length && j < |list[i]| && (c != i || x != j)
      ensures list[c][x].key != list[i][j].key
    {
      hide Masked, PowerOfTwo, HasKey;
      assert ChainOk(hashOf, table, list[c], c, length) && ChainOk(hashOf, table, list[i], i, length);
      assert NodeOk(hashOf, table, list[c][x], c, length) && NodeOk(hashOf, table, list[i][j], i, length);
    }

    lemma NextIsNew(moved: set<Bytes>, i: nat, j: nat)
      requires ChainsOk() && i < length && j < |list[i]| && AllBefore(moved, i, j)
      ensures list[i][j].key !in moved && AllBefore(moved + {list[i][j].key}, i, j + 1)
      ensures list[i][j].hash == hashOf(list[i][j].key) && list[i][j].key in table && table[list[i][j].key] == list[i][j].id
    {
      assert ChainOk(hashOf, table, list[i], i, length) && NodeOk(hashOf, table, list[i][j], i, length);
      hide ChainsOk, ChainOk, NodeOk, Masked, PowerOfTwo;
      forall c, x | 0 <= c < length && 0 <= x < |list[c]| && (c != i || x != j)
        ensures list[c][x].key != list[i][j].key
      {
        KeysApart(c, x, i, j);
      }
    }

    lemma ChainIsDone(moved: set<Bytes>, i: nat)
      requires list.Length == length && i < length && AllBefore(moved, i, |list[i]|)
      ensures AllBefore(moved, i + 1, 0)
    {
    }

    method MoveChain(newList: array<seq<Node>>, newLength: nat, i: nat, ghost before: set<Bytes>)
      returns (count: nat, ghost moved: set<Bytes>)
      requires ChainsOk() && Rehashed(newList, newLength, before) && newList != list
      requires i < length && AllBefore(before, i, 0)
      modifies newList
      ensures Rehashed(newList, newLength, moved) && AllBefore(moved, i + 1, 0) && count == |moved| - |before|
    {
      hide PowerOfTwo, Masked, ChainOk, Rehashed, AllBefore;
      count, moved := 0, before;
      for j := 0 to |list[i]|
        invariant Rehashed(newList, newLength, moved) && AllBefore(moved, i, j) && count == |moved| - |before|
      {
        NextIsNew(moved, i, j);
        MoveNode(newList, newLength, list[i][j], moved);
        moved := moved + {list[i][j].key};
        count := count + 1;
      }
      ChainIsDone(moved, i);
    }

    method MoveNode(newList: array<seq<Node>>, newLength: nat, h: Node, ghost moved: set<Bytes>)
      requires Rehashed(newList, newLength, moved) && newList != list
      requires h.hash == hashOf(h.key) && h.key in table && table[h.key] == h.id && h.key !in moved
      modifies newList
      ensures Rehashed(newList, newLength, moved + {h.key})
      ensures newList[Masked(h.hash, newLength)] == [h] + old(newList[Masked(h.hash, newLength)])
      ensures forall b :: 0 <= b < newLength && b != Masked(h.hash, newLength) ==> newList[b] == old(newList[b])
    {
      hide PowerOfTwo, Masked;
      var c := Masked(h.hash, newLength);
      ghost var was := newList[c];
      newList[c] := [h] + newList[c];
      assert newList[c][0].key == h.key;
      forall key | HasKey(was, key)
        ensures HasKey(newList[c], key)
      {
        var x :| 0 <= x < |was| && was[x].key == key;
        assert newList[c][x + 1].key == key;
      }
    }
  }

  lemma NotThere(table: map<Bytes, Id>, key: Bytes)
    ensures key !in table ==> Dropped(table, key) == table
  {
  }

  lemma OneLess(table: map<Bytes, Id>, key: Bytes)
    requires key in table
    ensures |Dropped(table, key)| == |table| - 1
  {
    assert Dropped(table, key).Keys == table.Keys - {key};
    assert |Dropped(table, key).Keys| == |table.Keys| - 1;
  }
}
