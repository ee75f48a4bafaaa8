/**
 The merging iterator (table/merger.cc): one cursor over several sorted children, moving
 in either direction, repositioning the other children when it turns round.
 */
module Merger {
  import opened InternalKeys
  import opened Visibility
  import opened Versions
  import opened WriteSteps

  // ---------------------------------------------------------------- the merged order

  /** An entry of one of the children. */
  datatype Spot = Spot(child: nat, index: nat)

  predicate Has(children: seq<seq<Entry>>, p: Spot) {
    p.child < |children| && p.index < |children[p.child]|
  }

  function EntryAt(children: seq<seq<Entry>>, p: Spot): Entry
    requires Has(children, p)
  {
    children[p.child][p.index]
  }

  function KeyAt(children: seq<seq<Entry>>, p: Spot): IKey
    requires Has(children, p)
  {
    EntryAt(children, p).IK()
  }

  /** Spots are ordered by key; equal keys by child. */
  predicate Before(children: seq<seq<Entry>>, p: Spot, q: Spot)
    requires Has(children, p) && Has(children, q)
  {
    || Less(KeyAt(children, p), KeyAt(children, q))
    || (KeyAt(children, p) == KeyAt(children, q) && p.child < q.child)
  }

  ghost predicate ChildrenSorted(children: seq<seq<Entry>>) {
    forall i :: 0 <= i < |children| ==> Sorted(children[i])
  }

  lemma BeforeIsTotal(children: seq<seq<Entry>>, p: Spot, q: Spot)
    requires ChildrenSorted(children) && Has(children, p) && Has(children, q)
    ensures p == q || Before(children, p, q) || Before(children, q, p)
    ensures !(Before(children, p, q) && Before(children, q, p)) && !Before(children, p, p)
  {
    assert Sorted(children[p.child]);
  }

  // ---------------------------------------------------------------- what a move looks for

  datatype Bound =
    | Everything
    | AtLeast(key: IKey)
    | Above(key: IKey)
    | AfterSpot(spot: Spot)
    | Below(key: IKey)
    | BeforeSpot(spot: Spot)

  predicate GoodBound(children: seq<seq<Entry>>, b: Bound) {
    (b.AfterSpot? || b.BeforeSpot?) ==> Has(children, b.spot)
  }

  predicate Within(children: seq<seq<Entry>>, b: Bound, q: Spot)
    requires GoodBound(children, b) && Has(children, q)
  {
    match b
    case Everything => true
    case AtLeast(key) => !Less(KeyAt(children, q), key)
    case Above(key) => Less(key, KeyAt(children, q))
    case AfterSpot(p) => Before(children, p, q)
    case Below(key) => Less(KeyAt(children, q), key)
    case BeforeSpot(p) => Before(children, q, p)
  }

  /** r is the first spot within b; None if there is none. */
  ghost predicate IsFirst(children: seq<seq<Entry>>, b: Bound, r: Option<Spot>)
    requires GoodBound(children, b)
  {
    && (r.Some? ==> Has(children, r.value) && Within(children, b, r.value))
    && forall q :: Has(children, q) && Within(children, b, q) ==> r.Some? && !Before(children, q, r.value)
  }

  /** r is the last spot within b; None if there is none. */
  ghost predicate IsLast(children: seq<seq<Entry>>, b: Bound, r: Option<Spot>)
    requires GoodBound(children, b)
  {
    && (r.Some? ==> Has(children, r.value) && Within(children, b, r.value))
    && forall q :: Has(children, q) && Within(children, b, q) ==> r.Some? && !Before(children, r.value, q)
  }

  // ---------------------------------------------------------------- the sorted union

  ghost predicate InOrder(children: seq<seq<Entry>>, order: seq<Spot>) {
    && (forall k :: 0 <= k < |order| ==> Has(children, order[k]))
    && (forall k, l :: 0 <= k < l < |order| ==> Before(children, order[k], order[l]))
  }

  /** All spots, in order. */
  ghost predicate IsOrder(children: seq<seq<Entry>>, order: seq<Spot>) {
    InOrder(children, order) && forall p :: Has(children, p) ==> p in order
  }

  ghost function Spots(children: seq<seq<Entry>>): set<Spot> {
    set i, j | 0 <= i < |children| && 0 <= j < |children[i]| :: Spot(i, j)
  }

  lemma {:induction false} Inserted(children: seq<seq<Entry>>, rest: seq<Spot>, p: Spot) returns (order: seq<Spot>)
    requires ChildrenSorted(children) && InOrder(children, rest) && Has(children, p) && p !in rest
    ensures InOrder(children, order)
    ensures forall q :: q in order <==> q in rest || q == p
  {
    var n := |rest|;
    if n == 0 {
      order := [p];
    } else {
      var last := rest[n - 1];
      BeforeIsTotal(children, last, p);
      if Before(children, last, p) {
        order := rest + [p];
      } else {
        var o := Inserted(children, rest[..n - 1], p);
        order := o + [last];
        assert rest == rest[..n - 1] + [last];
        forall k | 0 <= k < |o|
          ensures Before(children, o[k], last)
        {
          assert o[k] in o;
          assert o[k] in rest[..n - 1] || o[k] == p;
        }
      }
    }
  }

  /** Any set of spots can be put in order. */
  lemma {:induction false} OrderOf(children: seq<seq<Entry>>, spots: set<Spot>) returns (order: seq<Spot>)
    requires ChildrenSorted(children) && forall p :: p in spots ==> Has(children, p)
    ensures InOrder(children, order)
    ensures forall p :: p in order <==> p in spots
    decreases |spots|
  {
    if spots == {} {
      order := [];
    } else {
      var p :| p in spots;
      order := OrderOf(children, spots - {p});
      order := Inserted(children, order, p);
    }
  }

  lemma OrderExists(children: seq<seq<Entry>>)
    requires ChildrenSorted(children)
    ensures exists order :: IsOrder(children, order)
  {
    var order := OrderOf(children, Spots(children));
    forall p | Has(children, p)
      ensures p in order
    {
      assert p == Spot(p.child, p.index);
      assert p in Spots(children);
    }
    assert IsOrder(children, order);
  }

  /** The place of a result in the order: |order| stands for none going forwards. */
  ghost predicate At(order: seq<Spot>, k: int, r: Option<Spot>) {
    if 0 <= k < |order| then r == Some(order[k]) else r == None
  }

  lemma OrderDecides(children: seq<seq<Entry>>, order: seq<Spot>, k: int, l: int)
    requires ChildrenSorted(children) && IsOrder(children, order) && 0 <= k < |order| && 0 <= l < |order|
    ensures Before(children, order[k], order[l]) <==> k < l
  {
    BeforeIsTotal(children, order[k], order[l]);
  }

  /** Moving on without turning is one step along the sorted union, whichever keys are shared. */
  lemma StepForward(children: seq<seq<Entry>>, order: seq<Spot>, k: int, r: Option<Spot>)
    requires ChildrenSorted(children) && IsOrder(children, order) && 0 <= k < |order|
    requires IsFirst(children, AfterSpot(order[k]), r)
    ensures At(order, k + 1, r)
  {
    if k + 1 < |order| {
      assert Within(children, AfterSpot(order[k]), order[k + 1]);
    }
    if r.Some? {
      var l :| 0 <= l < |order| && order[l] == r.value;
      OrderDecides(children, order, k, l);
      if k + 1 < |order| {
        OrderDecides(children, order, k + 1, l);
      }
    }
  }

  lemma StepBack(children: seq<seq<Entry>>, order: seq<Spot>, k: int, r: Option<Spot>)
    requires ChildrenSorted(children) && IsOrder(children, order) && 0 <= k < |order|
    requires IsLast(children, BeforeSpot(order[k]), r)
    ensures At(order, k - 1, r)
  {
    if k > 0 {
      assert Within(children, BeforeSpot(order[k]), order[k - 1]);
    }
    if r.Some? {
      var l :| 0 <= l < |order| && order[l] == r.value;
      OrderDecides(children, order, l, k);
      if k > 0 {
        OrderDecides(children, order, l, k - 1);
      }
    }
  }

  lemma SeekLands(children: seq<seq<Entry>>, order: seq<Spot>, target: IKey, r: Option<Spot>)
    requires ChildrenSorted(children) && IsOrder(children, order)
    requires IsFirst(children, AtLeast(target), r)
    ensures exists k :: 0 <= k <= |order| && At(order, k, r)
              && forall l :: 0 <= l < |order| ==> (l < k <==> Less(KeyAt(children, order[l]), target))
  {
    if r.None? {
      forall l | 0 <= l < |order|
        ensures Less(KeyAt(children, order[l]), target)
      {
        assert Has(children, order[l]);
      }
      assert At(order, |order|, r);
    } else {
      assert r.value in order;
      var k :| 0 <= k < |order| && order[k] == r.value;
      forall l | 0 <= l < |order|
        ensures l < k <==> Less(KeyAt(children, order[l]), target)
      {
        assert l > k ==> Before(children, order[k], order[l]);
        BeforeIsTotal(children, order[l], order[k]);
      }
      assert At(order, k, r);
    }
  }

  /** Another child holds the same key. */
  ghost predicate Twin(children: seq<seq<Entry>>, p: Spot, q: Spot)
    requires Has(children, p)
  {
    Has(children, q) && q.child != p.child && KeyAt(children, q) == KeyAt(children, p)
  }

  /** Turning forward at p goes to the next spot of the union exactly when no later child holds p's key:
      otherwise those copies are skipped. */
  lemma TurnForwardIff(children: seq<seq<Entry>>, p: Spot, r: Option<Spot>, next: Option<Spot>)
    requires ChildrenSorted(children) && Has(children, p)
    requires IsFirst(children, Above(KeyAt(children, p)), r) && IsFirst(children, AfterSpot(p), next)
    ensures r == next <==> !exists q :: Twin(children, p, q) && q.child > p.child
  {
    if q :| Twin(children, p, q) && q.child > p.child {
      assert Within(children, AfterSpot(p), q);
    } else if next.Some? {
      if !Within(children, Above(KeyAt(children, p)), next.value) {
        assert Twin(children, p, next.value);
      }
      BeforeIsTotal(children, r.value, next.value);
      assert Within(children, AfterSpot(p), r.value);
    }
  }

  lemma TurnBackIff(children: seq<seq<Entry>>, p: Spot, r: Option<Spot>, prev: Option<Spot>)
    requires ChildrenSorted(children) && Has(children, p)
    requires IsLast(children, Below(KeyAt(children, p)), r) && IsLast(children, BeforeSpot(p), prev)
    ensures r == prev <==> !exists q :: Twin(children, p, q) && q.child < p.child
  {
    if q :| Twin(children, p, q) && q.child < p.child {
      assert Within(children, BeforeSpot(p), q);
    } else if prev.Some? {
      if !Within(children, Below(KeyAt(children, p)), prev.value) {
        assert Twin(children, p, prev.value);
      }
      BeforeIsTotal(children, r.value, prev.value);
      assert Within(children, BeforeSpot(p), r.value);
    }
  }

  ghost function Merged(children: seq<seq<Entry>>, order: seq<Spot>): seq<Entry>
    requires forall k :: 0 <= k < |order| ==> Has(children, order[k])
  {
    seq(|order|, k requires 0 <= k < |order| => EntryAt(children, order[k]))
  }

  /** What the cursor runs over is every entry of every child, in internal key order, so the database
      iterator can take it as its sorted run of entries. */
  lemma MergedIsSortedUnion(children: seq<seq<Entry>>, order: seq<Spot>)
    requires ChildrenSorted(children) && IsOrder(children, order)
    requires forall p, q :: Has(children, p) && Has(children, q) && p != q ==>
               KeyAt(children, p).key != KeyAt(children, q).key || KeyAt(children, p).sn != KeyAt(children, q).sn
    ensures Sorted(Merged(children, order))
    ensures forall e :: e in Merged(children, order) <==> exists i :: 0 <= i < |children| && e in children[i]
  {
    var m := Merged(children, order);
    forall k, l | 0 <= k < l < |m|
      ensures Precedes(m[k], m[l])
    {
      assert Before(children, order[k], order[l]);
      BeforeIsTotal(children, order[k], order[l]);
      assert m[k].IK() == KeyAt(children, order[k]) && m[l].IK() == KeyAt(children, order[l]);
    }
    forall e
      ensures e in m <==> exists i :: 0 <= i < |children| && e in children[i]
    {
      if i :| 0 <= i < |children| && e in children[i] {
        var j :| 0 <= j < |children[i]| && children[i][j] == e;
        assert Has(children, Spot(i, j));
        var k :| 0 <= k < |order| && order[k] == Spot(i, j);
        assert m[k] == e;
      }
    }
  }

  datatype Direction = Forward | Reverse

  class MergingIterator {
    const children: seq<seq<Entry>>
    var pos: seq<nat>               // where each child is; not valid at the child's length
    var current: Option<nat>
    var direction: Direction

    /** The spot shown, if any. */
    ghost function Shown(): Option<Spot>
      reads this
      requires current.Some? ==> current.value < |pos|
    {
      if current.Some? then Some(Spot(current.value, pos[current.value])) else None
    }

    /** Moving backwards, an invalid child stands before its first entry. */
    ghost function Back(i: nat): int
      reads this
      requires i < |pos| == |children|
    {
      if pos[i] >= |children[i]| then -1 else pos[i]
    }

    ghost predicate Placed()
      reads this
    {
      && ChildrenSorted(children) && |pos| == |children|
      && forall i :: 0 <= i < |pos| ==> pos[i] <= |children[i]|
    }

    /** Every child stands at its first entry within b. */
    ghost predicate StandAtFirst(b: Bound)
      reads this
      requires Placed() && GoodBound(children, b)
    {
      forall i, j :: 0 <= i < |children| && 0 <= j < |children[i]| ==>
        (j < pos[i] <==> !Within(children, b, Spot(i, j)))
    }

    /** Every child stands at its last entry within b. */
    ghost predicate StandAtLast(b: Bound)
      reads this
      requires Placed() && GoodBound(children, b)
    {
      forall i, j :: 0 <= i < |children| && 0 <= j < |children[i]| ==>
        (j <= Back(i) <==> Within(children, b, Spot(i, j)))
    }

    ghost predicate Valid()
      reads this
    {
      && Placed()
      && (current.Some? ==>
            && current.value < |pos| && pos[current.value] < |children[current.value]|
            && (direction.Forward? ==>
                  forall i, j :: 0 <= i < |children| && 0 <= j < |children[i]| ==>
                    (j < pos[i] <==> Before(children, Spot(i, j), Spot(current.value, pos[current.value]))))
            && (direction.Reverse? ==>
                  forall i, j :: 0 <= i < |children| && 0 <= j < |children[i]| ==>
                    (j > Back(i) <==> Before(children, Spot(current.value, pos[current.value]), Spot(i, j)))))
    }

    constructor (children: seq<seq<Entry>>)
      requires ChildrenSorted(children)
      ensures Valid() && this.children == children && current.None?
    {
      this.children := children;
      pos := seq(|children|, i requires 0 <= i < |children| => |children[i]|);
      current, direction := None, Forward;
    }

    /** FindSmallest. */
    method FindSmallest(ghost b: Bound)
      requires Placed() && GoodBound(children, b) && StandAtFirst(b)
      requires b.Everything? || b.AtLeast? || b.Above? || b.AfterSpot?
      modifies this`current
      ensures current.Some? ==> current.value < |pos|
      ensures IsFirst(children, b, Shown())
      ensures direction.Forward? ==> Valid()
    {
      var smallest: Option<nat> := None;
      for i := 0 to |children|
        invariant smallest.Some? ==> smallest.value < i && pos[smallest.value] < |children[smallest.value]|
        invariant forall k :: 0 <= k < i && pos[k] < |children[k]| ==>
                    smallest.Some? && !Before(children, Spot(k, pos[k]), Spot(smallest.value, pos[smallest.value]))
      {
        if pos[i] < |children[i]| {
          if smallest.None? {
            smallest := Some(i);
          } else if Compare(children[i][pos[i]].IK(), children[smallest.value][pos[smallest.value]].IK()) < 0 {
            smallest := Some(i);
          }
        }
      }
      current := smallest;
      SmallestIsFirst(b);
    }

    lemma SmallestIsFirst(b: Bound)
      requires Placed() && GoodBound(children, b) && StandAtFirst(b)
      requires b.Everything? || b.AtLeast? || b.Above? || b.AfterSpot?
      requires current.Some? ==> current.value < |pos| && pos[current.value] < |children[current.value]|
      requires forall k :: 0 <= k < |children| && pos[k] < |children[k]| ==>
                 current.Some? && !Before(children, Spot(k, pos[k]), Spot(current.value, pos[current.value]))
      ensures IsFirst(children, b, Shown())
      ensures direction.Forward? ==> Valid()
    {
      forall q | Has(children, q) && Within(children, b, q)
        ensures current.Some? && !Before(children, q, Spot(current.value, pos[current.value]))
      {
        assert q == Spot(q.child, q.index);
        assert pos[q.child] <= q.index;
        assert Sorted(children[q.child]);
      }
      if current.Some? && direction.Forward? {
        SmallestIsShown(b, Spot(current.value, pos[current.value]));
      }
    }

    lemma SmallestIsShown(b: Bound, r: Spot)
      requires Placed() && GoodBound(children, b) && StandAtFirst(b)
      requires b.Everything? || b.AtLeast? || b.Above? || b.AfterSpot?
      requires IsFirst(children, b, Some(r))
      ensures forall i, j :: 0 <= i < |children| && 0 <= j < |children[i]| ==>
                (j < pos[i] <==> Before(children, Spot(i, j), r))
    {
      forall i, j | 0 <= i < |children| && 0 <= j < |children[i]|
        ensures j < pos[i] <==> Before(children, Spot(i, j), r)
      {
        if j < pos[i] {
          assert !Within(children, b, Spot(i, j)) && Within(children, b, r);
          if b.AfterSpot? {
            BeforeIsTotal(children, b.spot, Spot(i, j));
          }
        }
      }
    }

    /** FindLargest. */
    method FindLargest(ghost b: Bound)
      requires Placed() && GoodBound(children, b) && StandAtLast(b)
      requires b.Everything? || b.Below? || b.BeforeSpot?
      modifies this`current
      ensures current.Some? ==> current.value < |pos|
      ensures IsLast(children, b, Shown())
      ensures direction.Reverse? ==> Valid()
    {
      var largest: Option<nat> := None;
      for i := |children| downto 0
        invariant largest.Some? ==> i <= largest.value < |children| && pos[largest.value] < |children[largest.value]|
        invariant forall k :: i <= k < |children| && pos[k] < |children[k]| ==>
                    largest.Some? && !Before(children, Spot(largest.value, pos[largest.value]), Spot(k, pos[k]))
      {
        if pos[i] < |children[i]| {
          if largest.None? {
            largest := Some(i);
          } else if Compare(children[i][pos[i]].IK(), children[largest.value][pos[largest.value]].IK()) > 0 {
            largest := Some(i);
          }
        }
      }
      current := largest;
      LargestIsLast(b);
    }

    lemma LargestIsLast(b: Bound)
      requires Placed() && GoodBound(children, b) && StandAtLast(b)
      requires b.Everything? || b.Below? || b.BeforeSpot?
      requires current.Some? ==> current.value < |pos| && pos[current.value] < |children[current.value]|
      requires forall k :: 0 <= k < |children| && pos[k] < |children[k]| ==>
                 current.Some? && !Before(children, Spot(current.value, pos[current.value]), Spot(k, pos[k]))
      ensures IsLast(children, b, Shown())
      ensures direction.Reverse? ==> Valid()
    {
      forall q | Has(children, q) && Within(children, b, q)
        ensures current.Some? && !Before(children, Spot(current.value, pos[current.value]), q)
      {
        assert q == Spot(q.child, q.index);
        assert q.index <= Back(q.child);
        assert Sorted(children[q.child]);
      }
      if current.Some? && direction.Reverse? {
        LargestIsShown(b, Spot(current.value, pos[current.value]));
      }
    }

    lemma LargestIsShown(b: Bound, r: Spot)
      requires Placed() && GoodBound(children, b) && StandAtLast(b)
      requires b.Everything? || b.Below? || b.BeforeSpot?
      requires IsLast(children, b, Some(r))
      ensures forall i, j :: 0 <= i < |children| && 0 <= j < |children[i]| ==>
                (j > Back(i) <==> Before(children, r, Spot(i, j)))
    {
      forall i, j | 0 <= i < |children| && 0 <= j < |children[i]|
        ensures j > Back(i) <==> Before(children, r, Spot(i, j))
      {
        if j > Back(i) {
          assert !Within(children, b, Spot(i, j)) && Within(children, b, r);
          if b.BeforeSpot? {
            BeforeIsTotal(children, b.spot, Spot(i, j));
          }
        }
      }
    }

    method SeekToFirst()
      requires Valid()
      modifies this
      ensures Valid() && direction.Forward? && IsFirst(children, Everything, Shown())
    {
      for i := 0 to |children|
        invariant Placed() && forall k :: 0 <= k < i ==> pos[k] == 0
      {
        pos := pos[i := 0];
      }
      direction := Forward;
      FindSmallest(Everything);
    }

    method SeekToLast()
      requires Valid()
      modifies this
      ensures Valid() && direction.Reverse? && IsLast(children, Everything, Shown())
    {
      for i := 0 to |children|
        invariant Placed() && forall k :: 0 <= k < i ==> Back(k) == |children[k]| - 1
      {
        pos := pos[i := if |children[i]| == 0 then 0 else |children[i]| - 1];
      }
      direction := Reverse;
      FindLargest(Everything);
    }

    method Seek(target: IKey)
      requires Valid()
      modifies this
      ensures Valid() && direction.Forward? && IsFirst(children, AtLeast(target), Shown())
    {
      for i := 0 to |children|
        invariant Placed()
        invariant forall k :: 0 <= k < i ==> IsSeekPosition(children[k], target, pos[k])
      {
        pos := pos[i := SeekTable(children[i], target)];
      }
      direction := Forward;
      assert StandAtFirst(AtLeast(target)) by {
        forall i, j | 0 <= i < |children| && 0 <= j < |children[i]|
          ensures j < pos[i] <==> !Within(children, AtLeast(target), Spot(i, j))
        {
          assert IsSeekPosition(children[i], target, pos[i]) && Sorted(children[i]);
        }
      }
      FindSmallest(AtLeast(target));
    }

    /** The children other than the current one are put just after key; the current one stands at it. */
    method TurnForward(key: IKey)
      requires Valid() && current.Some? && key == children[current.value][pos[current.value]].IK()
      modifies this`pos
      ensures Placed() && pos[current.value] == old(pos[current.value])
      ensures forall k, j :: 0 <= k < |children| && k != current.value && 0 <= j < |children[k]| ==>
                (j < pos[k] <==> !Less(key, children[k][j].IK()))
    {
      for i := 0 to |children|
        invariant Placed() && pos[current.value] == old(pos[current.value])
        invariant forall k, j :: 0 <= k < i && k != current.value && 0 <= j < |children[k]| ==>
                    (j < pos[k] <==> !Less(key, children[k][j].IK()))
      {
        if i != current.value {
          assert Sorted(children[i]);
          var p := SeekTable(children[i], key);
          if p < |children[i]| && Compare(key, children[i][p].IK()) == 0 {
            p := p + 1;
          }
          pos := pos[i := p];
        }
      }
    }

    /** The children other than the current one are put just before key; the current one stands at it. */
    method TurnBack(key: IKey)
      requires Valid() && current.Some? && key == children[current.value][pos[current.value]].IK()
      modifies this`pos
      ensures Placed() && pos[current.value] == old(pos[current.value])
      ensures forall k, j :: 0 <= k < |children| && k != current.value && 0 <= j < |children[k]| ==>
                (j <= Back(k) <==> Less(children[k][j].IK(), key))
    {
      for i := 0 to |children|
        invariant Placed() && pos[current.value] == old(pos[current.value])
        invariant forall k, j :: 0 <= k < i && k != current.value && 0 <= j < |children[k]| ==>
                    (j <= Back(k) <==> Less(children[k][j].IK(), key))
      {
        if i != current.value {
          assert Sorted(children[i]);
          var p := SeekTable(children[i], key);
          if p < |children[i]| {
            p := if p == 0 then |children[i]| else p - 1;
          } else {
            p := if |children[i]| == 0 then 0 else |children[i]| - 1;
          }
          pos := pos[i := p];
        }
      }
    }

    /** Going on forwards shows the next spot; turning round shows the first spot of a greater key. */
    method Next()
      requires Valid() && current.Some?
      modifies this
      ensures Valid() && direction.Forward?
      ensures old(direction.Forward?) ==> IsFirst(children, AfterSpot(old(Shown().value)), Shown())
      ensures old(direction.Reverse?) ==> IsFirst(children, Above(KeyAt(children, old(Shown().value))), Shown())
    {
      ghost var was := Shown().value;
      ghost var b := if direction.Forward? then AfterSpot(was) else Above(KeyAt(children, was));
      if !direction.Forward? {
        TurnForward(children[current.value][pos[current.value]].IK());
        direction := Forward;
      }
      assert Sorted(children[current.value]);
      pos := pos[current.value := pos[current.value] + 1];
      assert StandAtFirst(b) by {
        forall i, j | 0 <= i < |children| && 0 <= j < |children[i]|
          ensures j < pos[i] <==> !Within(children, b, Spot(i, j))
        {
          BeforeIsTotal(children, was, Spot(i, j));
        }
      }
      FindSmallest(b);
    }

    /** Going on backwards shows the previous spot; turning round shows the last spot of a smaller key. */
    method Prev()
      requires Valid() && current.Some?
      modifies this
      ensures Valid() && direction.Reverse?
      ensures old(direction.Reverse?) ==> IsLast(children, BeforeSpot(old(Shown().value)), Shown())
      ensures old(direction.Forward?) ==> IsLast(children, Below(KeyAt(children, old(Shown().value))), Shown())
    {
      ghost var was := Shown().value;
      ghost var b := if direction.Reverse? then BeforeSpot(was) else Below(KeyAt(children, was));
      if !direction.Reverse? {
        TurnBack(children[current.value][pos[current.value]].IK());
        direction := Reverse;
      }
      assert Sorted(children[current.value]);
      var p := pos[current.value];
      pos := pos[current.value := if p == 0 then |children[current.value]| else p - 1];
      assert StandAtLast(b) by {
        forall i, j | 0 <= i < |children| && 0 <= j < |children[i]|
          ensures j <= Back(i) <==> Within(children, b, Spot(i, j))
        {
          BeforeIsTotal(children, was, Spot(i, j));
        }
      }
      FindLargest(b);
    }
  }
}
