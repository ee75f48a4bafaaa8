/**
 Entries and internal keys (db/dbformat.h, db/dbformat.cc).

 The engine looks at a user key only through the comparator the user supplies, so a
 user key is represented by its position in that comparator's order. Any total preorder
 on finite byte strings has such a representation, and two keys the comparator calls
 equal share a position. Module Comparators gives the positions for the default
 bytewise comparator.
 */
module InternalKeys {

  type UserKey = real

  type Bytes = seq<byte>

  newtype byte = x: int | 0 <= x < 256

  // 32 bits, unsigned
  type Word = x: int | 0 <= x < 0x1_0000_0000

  datatype Option<+T> = None | Some(value: T)

  /** Levels of tables. */
  const NUM_LEVELS: nat := 7

  datatype ValueType = Deletion | Value

  // Eight bits are left for the type when the two are packed into 64 bits.
  const MAX_SEQUENCE: nat := 0xff_ffff_ffff_ffff

  function TypeCode(kind: ValueType): nat {
    if kind.Value? then 1 else 0
  }

  function Pack(sn: nat, kind: ValueType): nat {
    sn * 256 + TypeCode(kind)
  }

  datatype IKey = IKey(key: UserKey, sn: nat, kind: ValueType)

  datatype Entry = Entry(key: UserKey, sn: nat, kind: ValueType, value: Bytes) {
    function IK(): IKey {
      IKey(key, sn, kind)
    }
  }

  /** InternalKeyComparator::Compare: user keys upwards, then packed tags downwards. */
  function Compare(a: IKey, b: IKey): int {
    if a.key < b.key then -1
    else if a.key > b.key then 1
    else if Pack(a.sn, a.kind) > Pack(b.sn, b.kind) then -1
    else if Pack(a.sn, a.kind) < Pack(b.sn, b.kind) then 1
    else 0
  }

  predicate Less(a: IKey, b: IKey) {
    || a.key < b.key
    || (a.key == b.key && (a.sn > b.sn || (a.sn == b.sn && a.kind.Value? && b.kind.Deletion?)))
  }

  predicate AtMost(a: IKey, b: IKey) {
    !Less(b, a)
  }

  /** Comparing packed tags is comparing sequence numbers first and types second, and only
      identical internal keys compare equal. */
  lemma CompareIsLess(a: IKey, b: IKey)
    ensures Compare(a, b) < 0 <==> Less(a, b)
    ensures Compare(a, b) > 0 <==> Less(b, a)
    ensures Compare(a, b) == 0 <==> a == b
  {
  }

  /** The key a reader at snapshot s seeks to: every type sorts at or after it. */
  function SeekKey(u: UserKey, s: nat): IKey {
    IKey(u, s, Value)
  }

  /** A seek for (u, s) skips exactly the entries of smaller keys and the entries of u that are newer than s. */
  lemma SeekSkipsTooNew(e: Entry, u: UserKey, s: nat)
    ensures Less(e.IK(), SeekKey(u, s)) <==> e.key < u || (e.key == u && e.sn > s)
  {
  }

  // No two entries of one user key carry the same sequence number, so the order of
  // stored entries is decided by key and sequence alone.
  predicate Precedes(a: Entry, b: Entry) {
    a.key < b.key || (a.key == b.key && a.sn > b.sn)
  }

  predicate Sorted(entries: seq<Entry>) {
    forall i, j :: 0 <= i < j < |entries| ==> Precedes(entries[i], entries[j])
  }

  /** The position Seek leaves a table iterator at: the first entry at or after target. */
  ghost predicate IsSeekPosition(entries: seq<Entry>, target: IKey, i: nat) {
    && i <= |entries|
    && (forall j :: 0 <= j < i ==> Less(entries[j].IK(), target))
    && (i < |entries| ==> !Less(entries[i].IK(), target))
  }
}
