/**
 What a read means, without any storage layout: among all entries of a key that are no
 newer than the snapshot, the newest one decides, and a deletion means absent.
 */
module Visibility {
  import opened InternalKeys

  ghost predicate Newest(entries: set<Entry>, u: UserKey, s: nat, e: Entry) {
    && e in entries
    && e.key == u
    && e.sn <= s
    && (forall x :: x in entries && x.key == u && x.sn <= s ==> x.sn <= e.sn)
  }

  ghost predicate OnePerSequence(entries: set<Entry>) {
    forall x, y :: x in entries && y in entries && x.key == y.key && x.sn == y.sn ==> x == y
  }

  ghost predicate Nothing(entries: set<Entry>, u: UserKey, s: nat) {
    forall x :: x in entries && x.key == u ==> x.sn > s
  }

  function Outcome(e: Entry): Option<Bytes> {
    if e.kind.Value? then Some(e.value) else None
  }

  ghost function Answer(entries: set<Entry>, u: UserKey, s: nat): Option<Bytes> {
    if exists e :: Newest(entries, u, s, e) then
      var e :| Newest(entries, u, s, e);
      Outcome(e)
    else
      None
  }

  lemma {:induction false} NewestExists(entries: set<Entry>, u: UserKey, s: nat) returns (e: Entry)
    requires !Nothing(entries, u, s)
    ensures Newest(entries, u, s, e)
    decreases |entries|
  {
    var x :| x in entries && x.key == u && x.sn <= s;
    var rest := entries - {x};
    if Nothing(rest, u, s) {
      e := x;
      forall y | y in entries && y.key == u && y.sn <= s
        ensures y.sn <= e.sn
      {
        assert y in rest || y == x;
      }
    } else {
      var y := NewestExists(rest, u, s);
      e := if x.sn <= y.sn then y else x;
      forall z | z in entries && z.key == u && z.sn <= s
        ensures z.sn <= e.sn
      {
        assert z in rest || z == x;
      }
    }
  }

  lemma AnswerIs(entries: set<Entry>, u: UserKey, s: nat, e: Entry)
    requires OnePerSequence(entries)
    requires Newest(entries, u, s, e)
    ensures Answer(entries, u, s) == Outcome(e)
  {
    var f :| Newest(entries, u, s, f) && Answer(entries, u, s) == Outcome(f);
    assert Newest(entries, u, s, f);
  }

  lemma AnswerNothing(entries: set<Entry>, u: UserKey, s: nat)
    requires Nothing(entries, u, s)
    ensures Answer(entries, u, s) == None
  {
  }

  /** Reads look only at the newest entry, so two sets with the same newest entry give the same answer. */
  lemma SameNewest(a: set<Entry>, b: set<Entry>, u: UserKey, s: nat, e: Entry)
    requires OnePerSequence(a) && OnePerSequence(b)
    requires Newest(a, u, s, e) && Newest(b, u, s, e)
    ensures Answer(a, u, s) == Answer(b, u, s)
  {
    AnswerIs(a, u, s, e);
    AnswerIs(b, u, s, e);
  }
}
