/**
 What the log reader makes of a file with damaged blocks (db/log_reader.cc). Because no
 fragment straddles a block, it finds its way again at the next one: however the blocks
 between two boundaries are changed, every record that ends before them and every record
 that begins after them is read, unless the damage passes for a fragment of type 5. That is
 the number by which the reader tells itself that the file has ended.
 */
module DamagedLog {
  import opened InternalKeys
  import opened Coding
  import opened LogFormat
  import opened LogReader

  // ---------------------------------------------------------------- reading on from anywhere

  /** The records read from here on, with scratch holding the fragments read so far if inFragment. */
  function ReadFrom(crc: Bytes -> Word, checksum: bool, st: State, inFragment: bool, scratch: Bytes): seq<Bytes> {
    var r := ReadLogical(crc, checksum, st, inFragment, scratch);
    if r.record.None? then [] else [r.record.value] + ReadAll(crc, checksum, r.state).0
  }

  lemma AllIsFrom(crc: Bytes -> Word, checksum: bool, st: State)
    ensures ReadAll(crc, checksum, st).0 == ReadFrom(crc, checksum, st, false, [])
  {
    hide ReadLogical;
  }

  lemma PhysicalAfterRefill(crc: Bytes -> Word, checksum: bool, s: State, t: State)
    requires Refill(s) == Refill(t)
    ensures ReadPhysical(crc, checksum, s) == ReadPhysical(crc, checksum, t)
  {
    hide Refill, HeaderLength, Unmask, DecodeFixed32;
  }

  lemma RefillIgnoresDrops(s: State, t: State)
    requires t == s.(drops := t.drops)
    ensures Refill(t) == Refill(s).(drops := t.drops) && Refill(s).drops == s.drops
  {
  }

  /** What was reported before makes no difference. */
  lemma PhysicalIgnoresDrops(crc: Bytes -> Word, checksum: bool, s: State, t: State)
    requires t == s.(drops := t.drops)
    ensures var p, q := ReadPhysical(crc, checksum, s), ReadPhysical(crc, checksum, t);
            q.kind == p.kind && q.fragment == p.fragment && q.state == p.state.(drops := q.state.drops)
  {
    hide Refill, HeaderLength, Unmask, DecodeFixed32;
    RefillIgnoresDrops(s, t);
  }

  /** What one physical record means: reading ends, with a record or without, or goes on. */
  datatype Turn = Turn(ends: bool, record: Option<Bytes>, state: State, inFragment: bool, scratch: Bytes)

  function TurnOf(p: PhysicalRead, inFragment: bool, scratch: Bytes): Turn {
    var held := if inFragment then |scratch| else 0;
    var dropped := if inFragment && scratch != [] then p.state.Drop(|scratch|) else p.state;
    if p.kind == FULL_TYPE then Turn(true, Some(p.fragment), dropped, false, [])
    else if p.kind == FIRST_TYPE then Turn(false, None, dropped, true, p.fragment)
    else if p.kind == MIDDLE_TYPE then
      if inFragment then Turn(false, None, p.state, true, scratch + p.fragment)
      else Turn(false, None, p.state.Drop(|p.fragment|), false, scratch)
    else if p.kind == LAST_TYPE then
      if inFragment then Turn(true, Some(scratch + p.fragment), p.state, false, [])
      else Turn(false, None, p.state.Drop(|p.fragment|), false, scratch)
    else if p.kind == EOF then Turn(true, None, p.state, false, [])
    else if p.kind == BAD_RECORD then
      Turn(false, None, if inFragment then p.state.Drop(|scratch|) else p.state, false, if inFragment then [] else scratch)
    else Turn(false, None, p.state.Drop(|p.fragment| + held), false, [])
  }

  lemma LogicalTurns(crc: Bytes -> Word, checksum: bool, st: State, inFragment: bool, scratch: Bytes)
    ensures var p := ReadPhysical(crc, checksum, st);
            var t := TurnOf(p, inFragment, scratch);
            && t.state == p.state.(drops := t.state.drops) && (!t.ends ==> t.state.Size() < st.Size())
            && ReadLogical(crc, checksum, st, inFragment, scratch)
               == if t.ends then LogicalRead(t.state, t.record) else ReadLogical(crc, checksum, t.state, t.inFragment, t.scratch)
  {
    hide ReadPhysical;
  }

  lemma {:induction false} LogicalIgnoresDrops(crc: Bytes -> Word, checksum: bool, s: State, t: State, inFragment: bool, scratch: Bytes)
    requires t == s.(drops := t.drops)
    ensures var p, q := ReadLogical(crc, checksum, s, inFragment, scratch), ReadLogical(crc, checksum, t, inFragment, scratch);
            q.record == p.record && q.state == p.state.(drops := q.state.drops)
    decreases s.Size()
  {
    hide ReadPhysical, ReadLogical, TurnOf;
    PhysicalIgnoresDrops(crc, checksum, s, t);
    LogicalTurns(crc, checksum, s, inFragment, scratch);
    LogicalTurns(crc, checksum, t, inFragment, scratch);
    var p, q := ReadPhysical(crc, checksum, s), ReadPhysical(crc, checksum, t);
    TurnIgnoresDrops(p, q, inFragment, scratch);
    var a, c := TurnOf(p, inFragment, scratch), TurnOf(q, inFragment, scratch);
    if !a.ends {
      LogicalIgnoresDrops(crc, checksum, a.state, c.state, a.inFragment, a.scratch);
    }
  }

  lemma TurnIgnoresDrops(p: PhysicalRead, q: PhysicalRead, inFragment: bool, scratch: Bytes)
    requires q.kind == p.kind && q.fragment == p.fragment && q.state == p.state.(drops := q.state.drops)
    ensures var a, c := TurnOf(p, inFragment, scratch), TurnOf(q, inFragment, scratch);
            c == a.(state := c.state) && c.state == a.state.(drops := c.state.drops)
  {
  }

  lemma {:induction false} AllIgnoresDrops(crc: Bytes -> Word, checksum: bool, s: State, t: State)
    requires t == s.(drops := t.drops)
    ensures ReadAll(crc, checksum, t).0 == ReadAll(crc, checksum, s).0
    decreases s.Size()
  {
    hide ReadLogical;
    LogicalIgnoresDrops(crc, checksum, s, t, false, []);
    var p, q := ReadLogical(crc, checksum, s, false, []), ReadLogical(crc, checksum, t, false, []);
    if p.record.Some? {
      AllIgnoresDrops(crc, checksum, p.state, q.state);
    }
  }

  lemma FromIgnoresDrops(crc: Bytes -> Word, checksum: bool, s: State, t: State, inFragment: bool, scratch: Bytes)
    requires t == s.(drops := t.drops)
    ensures ReadFrom(crc, checksum, t, inFragment, scratch) == ReadFrom(crc, checksum, s, inFragment, scratch)
  {
    hide ReadLogical, ReadAll;
    LogicalIgnoresDrops(crc, checksum, s, t, inFragment, scratch);
    var p, q := ReadLogical(crc, checksum, s, inFragment, scratch), ReadLogical(crc, checksum, t, inFragment, scratch);
    if p.record.Some? {
      AllIgnoresDrops(crc, checksum, p.state, q.state);
    }
  }

  /** One physical record: perhaps a record is complete, and reading goes on behind it. */
  lemma OneStep(crc: Bytes -> Word, checksum: bool, st: State, inFragment: bool, scratch: Bytes)
    returns (got: seq<Bytes>, inFragment': bool, scratch': Bytes)
    requires ReadPhysical(crc, checksum, st).kind != EOF
    ensures ReadFrom(crc, checksum, st, inFragment, scratch)
            == got + ReadFrom(crc, checksum, ReadPhysical(crc, checksum, st).state, inFragment', scratch')
  {
    hide ReadPhysical, ReadAll, ReadLogical;
    LogicalTurns(crc, checksum, st, inFragment, scratch);
    var p := ReadPhysical(crc, checksum, st);
    var t := TurnOf(p, inFragment, scratch);
    got, inFragment', scratch' := if t.ends then [t.record.value] else [], t.inFragment, t.scratch;
    AllIsFrom(crc, checksum, t.state);
    FromIgnoresDrops(crc, checksum, p.state, t.state, inFragment', scratch');
    assert ReadFrom(crc, checksum, st, inFragment, scratch) == got + ReadFrom(crc, checksum, t.state, inFragment', scratch');
  }

  // ---------------------------------------------------------------- damaged blocks

  /** The two files differ only between two block boundaries. */
  ghost predicate Damaged(f: Bytes, d: Bytes, lo: nat, hi: nat) {
    && |d| == |f| && lo <= hi <= |f| && lo % BLOCK_SIZE == 0 && hi % BLOCK_SIZE == 0
    && forall i :: 0 <= i < |f| && (i < lo || hi <= i) ==> d[i] == f[i]
  }

  /** A fragment of type 5 that the reader would accept: it ends within its block and its checksum fits. */
  ghost predicate FalseEnd(crc: Bytes -> Word, checksum: bool, d: Bytes, q: nat) {
    && q % BLOCK_SIZE + HEADER_SIZE <= BLOCK_SIZE && q + HEADER_SIZE <= |d| && d[q + 6] == 5
    && var length := d[q + 4] as int + d[q + 5] as int * 256;
       && q % BLOCK_SIZE + HEADER_SIZE + length <= BLOCK_SIZE && q + HEADER_SIZE + length <= |d|
       && (checksum ==> crc(d[q + 6..q + HEADER_SIZE + length]) == Unmask(DecodeFixed32(d[q..])))
  }

  ghost predicate NoFalseEnd(crc: Bytes -> Word, checksum: bool, d: Bytes, lo: nat, hi: nat) {
    forall q :: lo <= q < hi ==> !FalseEnd(crc, checksum, d, q)
  }

  lemma DamageEnds(f: Bytes, d: Bytes, lo: nat, hi: nat)
    requires Damaged(f, d, lo, hi)
    ensures hi % BLOCK_SIZE == 0 && |d| == |f| && lo <= hi <= |d|
  {
  }

  lemma HeaderFits(q: nat, hi: nat)
    requires q < hi && hi % BLOCK_SIZE == 0 && q % BLOCK_SIZE + HEADER_SIZE <= BLOCK_SIZE
    ensures q - q % BLOCK_SIZE + BLOCK_SIZE <= hi && q + HEADER_SIZE <= hi
  {
    assert q == q / BLOCK_SIZE * BLOCK_SIZE + q % BLOCK_SIZE;
    assert hi == hi / BLOCK_SIZE * BLOCK_SIZE;
  }

  lemma NextHeaderFits(p: nat, hi: nat)
    requires p <= hi && hi % BLOCK_SIZE == 0
    ensures p <= NextHeader(p) <= hi && NextHeader(p) % BLOCK_SIZE + HEADER_SIZE <= BLOCK_SIZE
  {
    BlockEnds(p, p);
    assert p == p / BLOCK_SIZE * BLOCK_SIZE + p % BLOCK_SIZE;
    assert hi == hi / BLOCK_SIZE * BLOCK_SIZE;
  }

  /** A physical record is taken from the buffer, if its length and checksum allow it, or the buffer is dropped. */
  lemma PhysicalCases(crc: Bytes -> Word, checksum: bool, s: State)
    requires HEADER_SIZE <= |s.buffer| && !s.eof
    ensures var r, n := ReadPhysical(crc, checksum, s), HEADER_SIZE + HeaderLength(s.buffer);
            || (r.kind == BAD_RECORD && r.state == s.(buffer := [], drops := r.state.drops))
            || (n <= |s.buffer| && r.kind == s.buffer[6] as int && r.state == s.(buffer := s.buffer[n..])
                && (checksum ==> crc(s.buffer[6..n]) == Unmask(DecodeFixed32(s.buffer))))
  {
    hide HeaderLength, Unmask, DecodeFixed32;
    assert Refill(s) == s;
  }

  lemma HeaderOfWindow(d: Bytes, q: nat, e: nat, s: State)
    requires Window(d, q, e, s) && HEADER_SIZE <= |s.buffer|
    ensures q + HEADER_SIZE <= e <= |d| && s.buffer[6] == d[q + 6]
    ensures HeaderLength(s.buffer) == d[q + 4] as int + d[q + 5] as int * 256
    ensures DecodeFixed32(s.buffer) == DecodeFixed32(d[q..])
    ensures |s.buffer| == e - q && e <= q - q % BLOCK_SIZE + BLOCK_SIZE
  {
    SameWord(d, q, e);
    hide DecodeFixed32;
  }

  lemma WindowMoves(d: Bytes, q: nat, e: nat, s: State, n: nat)
    requires Window(d, q, e, s) && 0 < n <= |s.buffer|
    ensures Window(d, q + n, e, s.(buffer := s.buffer[n..]))
  {
    NextInBlock(q, n, e);
    assert d[q..e][n..] == d[q + n..e];
  }

  /** Whatever is at q, reading it leaves the reader further on and within the block. */
  lemma ReadsAnything(crc: Bytes -> Word, checksum: bool, d: Bytes, q: nat, e: nat, s: State) returns (next: nat)
    requires Window(d, q, e, s) && HEADER_SIZE <= |s.buffer| && !s.eof && !FalseEnd(crc, checksum, d, q)
    ensures var p := ReadPhysical(crc, checksum, s); p.kind != EOF && q < next <= e && At(d, next, p.state)
  {
    hide ReadPhysical, HeaderLength, Unmask, DecodeFixed32;
    PhysicalCases(crc, checksum, s);
    HeaderOfWindow(d, q, e, s);
    var n := HEADER_SIZE + HeaderLength(s.buffer);
    var p := ReadPhysical(crc, checksum, s);
    if p.state == s.(buffer := [], drops := p.state.drops) && p.kind == BAD_RECORD {
      next := e;
      assert d[e..e] == [];
      assert Window(d, e, e, p.state);
    } else {
      next := q + n;
      WindowMoves(d, q, e, s, n);
      InnerSlice(d, q, e, 6, n);
    }
  }

  lemma InnerSlice(d: Bytes, q: nat, e: nat, a: nat, b: nat)
    requires q <= e <= |d| && a <= b <= e - q
    ensures d[q..e][a..b] == d[q + a..q + b]
  {
    forall i | 0 <= i < b - a
      ensures d[q..e][a..b][i] == d[q + a..q + b][i]
    {
    }
  }

  lemma SameWord(d: Bytes, q: nat, e: nat)
    requires q + HEADER_SIZE <= e <= |d|
    ensures DecodeFixed32(d[q..e]) == DecodeFixed32(d[q..])
  {
  }

  /** One physical record within the damaged blocks. */
  lemma StepsWithin(crc: Bytes -> Word, checksum: bool, d: Bytes, lo: nat, hi: nat, p: nat, st: State) returns (next: nat)
    requires hi < |d| && hi % BLOCK_SIZE == 0 && NoFalseEnd(crc, checksum, d, lo, hi)
    requires At(d, p, st) && lo <= p <= hi && NextHeader(p) < hi
    ensures var r := ReadPhysical(crc, checksum, st); r.kind != EOF && p < next <= hi && At(d, next, r.state)
  {
    hide ReadPhysical, FalseEnd, At, Window, Refill;
    var q := NextHeader(p);
    NextHeaderFits(p, hi);
    HeaderFits(q, hi);
    RefillLands(d, p, st);
    var s := Refill(st);
    var e := WindowOf(d, q, s);
    WindowWithin(d, q, hi, e, s);
    SameAfterRefill(crc, checksum, st);
    next := ReadsAnything(crc, checksum, d, q, e, s);
  }

  lemma WindowOf(d: Bytes, p: nat, st: State) returns (e: nat)
    requires At(d, p, st)
    ensures Window(d, p, e, st)
  {
    e :| Window(d, p, e, st);
  }

  lemma WindowWithin(d: Bytes, q: nat, hi: nat, e: nat, s: State)
    requires Window(d, q, e, s) && q < hi < |d| && hi % BLOCK_SIZE == 0 && HEADER_SIZE <= |s.buffer|
    requires q % BLOCK_SIZE + HEADER_SIZE <= BLOCK_SIZE
    ensures e <= hi && !s.eof
  {
    HeaderFits(q, hi);
  }

  lemma SameAfterRefill(crc: Bytes -> Word, checksum: bool, st: State)
    requires |Refill(st).buffer| >= HEADER_SIZE
    ensures ReadPhysical(crc, checksum, st) == ReadPhysical(crc, checksum, Refill(st))
  {
    hide HeaderLength, Unmask, DecodeFixed32;
    assert Refill(Refill(st)) == Refill(st);
  }

  /** The reader gets to the boundary behind the damage, with or without records in hand. */
  lemma {:induction false} GetsThrough(crc: Bytes -> Word, checksum: bool, d: Bytes, lo: nat, hi: nat, p: nat, st: State,
                                       inFragment: bool, scratch: Bytes)
    returns (got: seq<Bytes>, st': State, inFragment': bool, scratch': Bytes)
    requires hi < |d| && hi % BLOCK_SIZE == 0 && NoFalseEnd(crc, checksum, d, lo, hi)
    requires At(d, p, st) && lo <= p <= hi
    ensures At(d, hi, st')
    ensures ReadFrom(crc, checksum, st, inFragment, scratch) == got + ReadFrom(crc, checksum, st', inFragment', scratch')
    decreases hi - p
  {
    hide ReadPhysical, ReadFrom, At, NoFalseEnd;
    NextHeaderFits(p, hi);
    if NextHeader(p) == hi {
      got, inFragment', scratch' := [], inFragment, scratch;
      st' := AtBoundary(crc, checksum, d, p, hi, st, inFragment, scratch);
      assert [] + ReadFrom(crc, checksum, st', inFragment, scratch) == ReadFrom(crc, checksum, st', inFragment, scratch);
    } else {
      var next := StepsWithin(crc, checksum, d, lo, hi, p, st);
      var first, inF, sc := OneStep(crc, checksum, st, inFragment, scratch);
      var rest;
      rest, st', inFragment', scratch' :=
        GetsThrough(crc, checksum, d, lo, hi, next, ReadPhysical(crc, checksum, st).state, inF, sc);
      got := first + rest;
      assert first + (rest + ReadFrom(crc, checksum, st', inFragment', scratch'))
             == got + ReadFrom(crc, checksum, st', inFragment', scratch');
    }
  }

  function Fresh(d: Bytes, e: nat): State
    requires e <= |d|
  {
    State(d[e..], [], false, [])
  }

  lemma FreshIsAt(d: Bytes, e: nat)
    requires e <= |d| && e % BLOCK_SIZE == 0
    ensures At(d, e, Fresh(d, e))
  {
    assert d[e..e] == [];
    assert Window(d, e, e, Fresh(d, e));
  }

  /** With less than a header left the reader goes on at the next block. */
  lemma AtBoundary(crc: Bytes -> Word, checksum: bool, d: Bytes, p: nat, hi: nat, st: State, inFragment: bool, scratch: Bytes)
    returns (st': State)
    requires At(d, p, st) && p <= hi == NextHeader(p) && hi < |d| && hi % BLOCK_SIZE == 0
    ensures At(d, hi, st')
    ensures ReadFrom(crc, checksum, st', inFragment, scratch) == ReadFrom(crc, checksum, st, inFragment, scratch)
  {
    if p == hi {
      st' := st;
    } else {
      var e := WindowOf(d, p, st);
      BlockEnds(p, e);
      BlockEnds(p, hi);
      hide ReadFrom;
      FreshIsAt(d, hi);
      LeftoverIsIgnored(crc, checksum, d, hi, st, inFragment, scratch);
      st' := Fresh(d, hi);
    }
  }

  lemma LeftoverIsIgnored(crc: Bytes -> Word, checksum: bool, d: Bytes, e: nat, st: State, inFragment: bool, scratch: Bytes)
    requires e <= |d| && st.rest == d[e..] && !st.eof && |st.buffer| < HEADER_SIZE
    ensures ReadFrom(crc, checksum, Fresh(d, e), inFragment, scratch) == ReadFrom(crc, checksum, st, inFragment, scratch)
  {
    var clean := Fresh(d, e).(drops := st.drops);
    assert Refill(st) == Refill(clean);
    hide Refill, ReadPhysical, ReadLogical, ReadAll, TurnOf;
    PhysicalAfterRefill(crc, checksum, st, clean);
    LogicalTurns(crc, checksum, st, inFragment, scratch);
    LogicalTurns(crc, checksum, clean, inFragment, scratch);
    FromIgnoresDrops(crc, checksum, clean, Fresh(d, e), inFragment, scratch);
  }

  // ---------------------------------------------------------------- sound fragments

  lemma WholeFile(d: Bytes)
    ensures d[..|d|] == d
  {
  }

  /** The fragments of a record up to a block boundary inside it. */
  lemma {:induction false} ReadsUpTo(crc: Bytes -> Word, checksum: bool, f: Bytes, d: Bytes, lo: nat, hi: nat, p: nat, st: State,
                                     data: Bytes, begin: bool, inFragment: bool, scratch: Bytes)
    returns (got: seq<Bytes>, st': State, inFragment': bool, scratch': Bytes)
    requires Damaged(f, d, lo, hi) && lo < |d| && At(d, p, st) && p <= lo
    requires HoldsRecord(crc, f, p, data, begin) && lo < RecordEnd(crc, p, data, begin)
    ensures At(d, lo, st')
    ensures ReadFrom(crc, checksum, st, inFragment, scratch) == got + ReadFrom(crc, checksum, st', inFragment', scratch')
    decreases |data|, Turns(p % BLOCK_SIZE)
  {
    hide ReadPhysical, ReadFrom, At, HoldsRecord, HoldsFragment, RecordEnd;
    NextHeaderFits(p, lo);
    var q := NextHeader(p);
    if q == lo {
      got, inFragment', scratch' := [], inFragment, scratch;
      st' := AtBoundary(crc, checksum, d, p, lo, st, inFragment, scratch);
      assert [] + ReadFrom(crc, checksum, st', inFragment, scratch) == ReadFrom(crc, checksum, st', inFragment, scratch);
    } else {
      FirstFragment(crc, f, p, data, begin);
      var n := FragmentLength(q % BLOCK_SIZE, |data|);
      var kind := FragmentType(begin, n == |data|);
      var next := q + HEADER_SIZE + n;
      HeaderFits(q, lo);
      FragmentSame(crc, f, d, lo, hi, q, kind, data[..n]);
      WholeFile(d);
      ReadsFragment(crc, checksum, d, |d|, p, st, kind, data[..n]);
      var first, inF, sc := OneStep(crc, checksum, st, inFragment, scratch);
      NextHeaderTurns(p, n, |data|);
      var rest;
      rest, st', inFragment', scratch' :=
        ReadsUpTo(crc, checksum, f, d, lo, hi, next, ReadPhysical(crc, checksum, st).state, data[n..], false, inF, sc);
      got := first + rest;
      assert first + (rest + ReadFrom(crc, checksum, st', inFragment', scratch'))
             == got + ReadFrom(crc, checksum, st', inFragment', scratch');
    }
  }

  lemma SliceSame(f: Bytes, d: Bytes, lo: nat, hi: nat, a: nat, b: nat)
    requires Damaged(f, d, lo, hi) && a <= b <= |f| && (b <= lo || hi <= a)
    ensures d[a..b] == f[a..b]
  {
  }

  lemma FragmentSame(crc: Bytes -> Word, f: Bytes, d: Bytes, lo: nat, hi: nat, q: nat, kind: nat, payload: Bytes)
    requires Damaged(f, d, lo, hi) && HoldsFragment(crc, f, q, kind, payload)
    requires q + HEADER_SIZE + |payload| <= lo || hi <= q
    ensures HoldsFragment(crc, d, q, kind, payload)
  {
    SliceSame(f, d, lo, hi, q, q + HEADER_SIZE + |payload|);
    hide Damaged, Physical;
  }

  lemma RecordSame(crc: Bytes -> Word, f: Bytes, d: Bytes, lo: nat, hi: nat, p: nat, data: Bytes, begin: bool)
    requires Damaged(f, d, lo, hi) && HoldsRecord(crc, f, p, data, begin)
    requires RecordEnd(crc, p, data, begin) <= lo || hi <= p
    ensures HoldsRecord(crc, d, p, data, begin)
  {
    hide Encoded;
    SliceSame(f, d, lo, hi, p, RecordEnd(crc, p, data, begin));
  }

  /** At a boundary inside a record the rest of it begins with a fragment. */
  lemma {:induction false} RestOfRecord(crc: Bytes -> Word, f: Bytes, hi: nat, p: nat, data: Bytes, begin: bool) returns (rest: Bytes)
    requires HoldsRecord(crc, f, p, data, begin) && hi % BLOCK_SIZE == 0 && p <= hi
    requires NextHeader(p) < hi < RecordEnd(crc, p, data, begin)
    ensures HoldsRecord(crc, f, hi, rest, false) && RecordEnd(crc, hi, rest, false) == RecordEnd(crc, p, data, begin)
    decreases |data|, Turns(p % BLOCK_SIZE)
  {
    hide HoldsRecord, HoldsFragment, RecordEnd;
    FirstFragment(crc, f, p, data, begin);
    NextHeaderFits(p, hi);
    var q := NextHeader(p);
    var n := FragmentLength(q % BLOCK_SIZE, |data|);
    HeaderFits(q, hi);
    var next := q + HEADER_SIZE + n;
    rest := data[n..];
    if next < hi {
      NextHeaderTurns(p, n, |data|);
      NextHeaderFits(next, next);
      rest := RestOfRecord(crc, f, hi, next, data[n..], false);
    }
  }

  /** The rest of a record that began before is read, whatever becomes of it. */
  lemma {:induction false} ReadsRest(crc: Bytes -> Word, checksum: bool, d: Bytes, p: nat, st: State, data: Bytes,
                                     inFragment: bool, scratch: Bytes)
    returns (got: seq<Bytes>, st': State, inFragment': bool, scratch': Bytes)
    requires At(d, p, st) && HoldsRecord(crc, d, p, data, false)
    ensures At(d, RecordEnd(crc, p, data, false), st')
    ensures ReadFrom(crc, checksum, st, inFragment, scratch) == got + ReadFrom(crc, checksum, st', inFragment', scratch')
    decreases |data|, Turns(p % BLOCK_SIZE)
  {
    hide ReadPhysical, ReadFrom, At, HoldsRecord, HoldsFragment, RecordEnd;
    FirstFragment(crc, d, p, data, false);
    var q := NextHeader(p);
    var n := FragmentLength(q % BLOCK_SIZE, |data|);
    WholeFile(d);
    FragmentEnds(crc, d, q, FragmentType(false, n == |data|), data[..n]);
    ReadsFragment(crc, checksum, d, |d|, p, st, FragmentType(false, n == |data|), data[..n]);
    got, inFragment', scratch' := OneStep(crc, checksum, st, inFragment, scratch);
    st' := ReadPhysical(crc, checksum, st).state;
    if n < |data| {
      NextHeaderTurns(p, n, |data|);
      var first, rest := got, [];
      rest, st', inFragment', scratch' := ReadsRest(crc, checksum, d, q + HEADER_SIZE + n, st', data[n..], inFragment', scratch');
      got := first + rest;
      assert first + (rest + ReadFrom(crc, checksum, st', inFragment', scratch'))
             == got + ReadFrom(crc, checksum, st', inFragment', scratch');
    }
  }

  lemma FragmentEnds(crc: Bytes -> Word, d: Bytes, q: nat, kind: nat, payload: Bytes)
    requires HoldsFragment(crc, d, q, kind, payload)
    ensures q + HEADER_SIZE + |payload| <= |d| && kind != EOF
  {
  }

  /** A whole record is read even if the reader takes itself to be inside another. */
  lemma ReadsRecordAnyway(crc: Bytes -> Word, checksum: bool, d: Bytes, p: nat, st: State, data: Bytes, inFragment: bool, scratch: Bytes)
    returns (st': State)
    requires At(d, p, st) && HoldsRecord(crc, d, p, data, true)
    ensures At(d, RecordEnd(crc, p, data, true), st')
    ensures ReadFrom(crc, checksum, st, inFragment, scratch) == [data] + ReadAll(crc, checksum, st').0
  {
    hide At, HoldsRecord, HoldsFragment, RecordEnd, ReadPhysical, ReadAll;
    WholeFile(d);
    RecordFits(crc, d, p, data, true);
    ReadsRecord(crc, checksum, d, |d|, p, st, data, true, []);
    var r := ReadLogical(crc, checksum, st, false, []);
    st' := r.state;
    FirstFragment(crc, d, p, data, true);
    var n := FragmentLength(NextHeader(p) % BLOCK_SIZE, |data|);
    ReadsFragment(crc, checksum, d, |d|, p, st, FragmentType(true, n == |data|), data[..n]);
    FragmentEnds(crc, d, NextHeader(p), FragmentType(true, n == |data|), data[..n]);
    var a := ReadPhysical(crc, checksum, st);
    if inFragment && scratch != [] {
      var b := a.state.Drop(|scratch|);
      LogicalIgnoresDrops(crc, checksum, a.state, b, true, a.fragment);
      AllIgnoresDrops(crc, checksum, r.state, ReadLogical(crc, checksum, st, inFragment, scratch).state);
    }
  }

  lemma RecordFits(crc: Bytes -> Word, d: Bytes, p: nat, data: Bytes, begin: bool)
    requires HoldsRecord(crc, d, p, data, begin)
    ensures RecordEnd(crc, p, data, begin) <= |d|
  {
  }

  lemma NothingAtEnd(crc: Bytes -> Word, checksum: bool, d: Bytes, st: State, inFragment: bool, scratch: Bytes)
    requires At(d, |d|, st)
    ensures ReadFrom(crc, checksum, st, inFragment, scratch) == []
  {
    RefillLands(d, |d|, st);
    hide ReadAll;
  }

  // ---------------------------------------------------------------- whole files

  /** The file holds these records from i on, where they belong. */
  ghost predicate HoldsFrom(crc: Bytes -> Word, records: seq<Bytes>, d: Bytes, i: nat) {
    && |d| == |File(crc, records)|
    && forall j :: i <= j < |records| ==> HoldsRecord(crc, d, |File(crc, records[..j])|, records[j], true)
  }

  lemma PlaceOf(crc: Bytes -> Word, records: seq<Bytes>, i: nat)
    requires i < |records|
    ensures HoldsRecord(crc, File(crc, records), |File(crc, records[..i])|, records[i], true)
    ensures RecordEnd(crc, |File(crc, records[..i])|, records[i], true) == |File(crc, records[..i + 1])|
  {
    hide *;
    FileHolds(crc, records, i);
  }

  lemma {:induction false} ReadsTheRest(crc: Bytes -> Word, checksum: bool, records: seq<Bytes>, d: Bytes, i: nat, st: State,
                                        inFragment: bool, scratch: Bytes)
    requires HoldsFrom(crc, records, d, i) && i <= |records| && At(d, |File(crc, records[..i])|, st)
    ensures ReadFrom(crc, checksum, st, inFragment, scratch) == records[i..]
    decreases |records| - i
  {
    hide File, At, HoldsRecord, RecordEnd, ReadFrom, ReadAll;
    if i == |records| {
      assert records[..i] == records;
      NothingAtEnd(crc, checksum, d, st, inFragment, scratch);
    } else {
      PlaceOf(crc, records, i);
      var st' := ReadsRecordAnyway(crc, checksum, d, |File(crc, records[..i])|, st, records[i], inFragment, scratch);
      AllIsFrom(crc, checksum, st');
      ReadsTheRest(crc, checksum, records, d, i + 1, st', false, []);
      assert records[i..] == [records[i]] + records[i + 1..];
    }
  }

  lemma {:induction false} ReadsTheFirst(crc: Bytes -> Word, checksum: bool, records: seq<Bytes>, d: Bytes, lo: nat, hi: nat, i: nat)
    returns (st: State)
    requires Damaged(File(crc, records), d, lo, hi) && i <= |records| && |File(crc, records[..i])| <= lo
    ensures At(d, |File(crc, records[..i])|, st)
    ensures ReadAll(crc, checksum, Start(d)).0 == records[..i] + ReadAll(crc, checksum, st).0
    decreases i
  {
    hide File, At, HoldsRecord, RecordEnd, ReadAll, Damaged;
    if i == 0 {
      st := Start(d);
      StartIsAt(crc, records, d);
      assert [] + ReadAll(crc, checksum, st).0 == ReadAll(crc, checksum, st).0;
    } else {
      PlaceOf(crc, records, i - 1);
      var p := |File(crc, records[..i - 1])|;
      LogReader.FileGrows(crc, records, i - 1, i);
      var before := ReadsTheFirst(crc, checksum, records, d, lo, hi, i - 1);
      RecordSame(crc, File(crc, records), d, lo, hi, p, records[i - 1], true);
      AllIsFrom(crc, checksum, before);
      st := ReadsRecordAnyway(crc, checksum, d, p, before, records[i - 1], false, []);
      assert records[..i] == records[..i - 1] + [records[i - 1]];
    }
  }

  lemma StartIsAt(crc: Bytes -> Word, records: seq<Bytes>, d: Bytes)
    ensures |File(crc, records[..0])| == 0 && At(d, 0, Start(d)) && records[..0] == []
  {
    assert d[0..0] == [] && d[0..] == d;
    assert Window(d, 0, 0, Start(d));
  }

  /** The first record whose first header is at or behind hi is k. */
  ghost predicate BeginsBehind(crc: Bytes -> Word, records: seq<Bytes>, hi: nat, k: nat) {
    && k <= |records| && (k < |records| ==> hi <= NextHeader(|File(crc, records[..k])|))
    && (k > 0 ==> NextHeader(|File(crc, records[..k - 1])|) < hi)
  }

  /** However the blocks between two boundaries are damaged, as long as nothing there passes for a fragment of type 5:
      the records that end before are read first, and those that begin behind are read last. */
  lemma DamageIsConfined(crc: Bytes -> Word, checksum: bool, records: seq<Bytes>, d: Bytes, lo: nat, hi: nat, j: nat, k: nat)
    requires Damaged(File(crc, records), d, lo, hi) && NoFalseEnd(crc, checksum, d, lo, hi)
    requires WholeBefore(crc, records, lo, j) && BeginsBehind(crc, records, hi, k)
    ensures exists between :: ReadAll(crc, checksum, Start(d)).0 == records[..j] + between + records[k..]
  {
    hide File, At, HoldsRecord, RecordEnd, ReadAll, NoFalseEnd;
    var st := ReadsTheFirst(crc, checksum, records, d, lo, hi, j);
    AllIsFrom(crc, checksum, st);
    var between := BehindTheFirst(crc, checksum, records, d, lo, hi, j, k, st);
    assert records[..j] + (between + records[k..]) == records[..j] + between + records[k..];
  }

  lemma BehindTheFirst(crc: Bytes -> Word, checksum: bool, records: seq<Bytes>, d: Bytes, lo: nat, hi: nat, j: nat, k: nat, st: State)
    returns (between: seq<Bytes>)
    requires Damaged(File(crc, records), d, lo, hi) && NoFalseEnd(crc, checksum, d, lo, hi)
    requires WholeBefore(crc, records, lo, j) && BeginsBehind(crc, records, hi, k)
    requires At(d, |File(crc, records[..j])|, st)
    ensures ReadFrom(crc, checksum, st, false, []) == between + records[k..]
  {
    hide File, At, HoldsRecord, RecordEnd, ReadFrom, NoFalseEnd;
    if hi == |d| {
      EndsBefore(crc, records, hi, k);
      between := ReadFrom(crc, checksum, st, false, []);
      assert records[k..] == [] && between + [] == between;
    } else {
      var f := File(crc, records);
      NotAllBefore(crc, records, lo, j);
      PlaceOf(crc, records, j);
      var g0, st0, in0, sc0 := ReadsUpTo(crc, checksum, f, d, lo, hi, |File(crc, records[..j])|, st, records[j], true, false, []);
      var g1, st1, in1, sc1 := GetsThrough(crc, checksum, d, lo, hi, lo, st0, in0, sc0);
      var g2 := BehindTheDamage(crc, checksum, records, d, lo, hi, k, st1, in1, sc1);
      between := g0 + g1 + g2;
      assert g0 + (g1 + (g2 + records[k..])) == between + records[k..];
    }
  }

  lemma NotAllBefore(crc: Bytes -> Word, records: seq<Bytes>, lo: nat, j: nat)
    requires WholeBefore(crc, records, lo, j) && lo < |File(crc, records)|
    ensures j < |records|
  {
    hide Encoded;
    assert records[..|records|] == records;
  }

  lemma EndsBefore(crc: Bytes -> Word, records: seq<Bytes>, hi: nat, k: nat)
    requires BeginsBehind(crc, records, hi, k) && hi == |File(crc, records)| && hi % BLOCK_SIZE == 0
    ensures k == |records|
  {
    hide File, NextHeader;
    if k < |records| {
      LogReader.FileGrows(crc, records, k, k + 1);
      LogReader.FileGrows(crc, records, k + 1, |records|);
      assert records[..|records|] == records;
      PlaceOf(crc, records, k);
      RecordSize(crc, |File(crc, records[..k])|, records[k]);
      RecordBeyond(crc, File(crc, records), |File(crc, records[..k])|, records[k]);
    }
  }

  lemma RecordBeyond(crc: Bytes -> Word, g: Bytes, p: nat, data: Bytes)
    requires HoldsRecord(crc, g, p, data, true)
    ensures NextHeader(p) + HEADER_SIZE <= RecordEnd(crc, p, data, true) <= |g|
  {
    hide HoldsRecord, HoldsFragment, RecordEnd, NextHeader;
    RecordFits(crc, g, p, data, true);
    FirstFragment(crc, g, p, data, true);
    var q := NextHeader(p);
    var n := FragmentLength(q % BLOCK_SIZE, |data|);
    if n < |data| {
      RecordGrows(crc, q + HEADER_SIZE + n, data[n..]);
    }
  }

  lemma PlaceBehind(crc: Bytes -> Word, records: seq<Bytes>, hi: nat, k: nat, i: nat)
    requires BeginsBehind(crc, records, hi, k) && k < i <= |records|
    ensures hi <= |File(crc, records[..i])|
  {
    hide File, NextHeader;
    PlaceOf(crc, records, k);
    RecordBeyond(crc, File(crc, records), |File(crc, records[..k])|, records[k]);
    LogReader.FileGrows(crc, records, k + 1, i);
  }

  lemma HoldsBehind(crc: Bytes -> Word, records: seq<Bytes>, d: Bytes, lo: nat, hi: nat, k: nat, i: nat)
    requires Damaged(File(crc, records), d, lo, hi) && BeginsBehind(crc, records, hi, k) && k <= i
    requires i == k ==> hi <= |File(crc, records[..k])|
    ensures HoldsFrom(crc, records, d, i)
  {
    hide File, HoldsRecord, RecordEnd, BeginsBehind;
    var f := File(crc, records);
    assert |d| == |f|;
    hide Damaged;
    forall j | i <= j < |records|
      ensures HoldsRecord(crc, d, |File(crc, records[..j])|, records[j], true)
    {
      PlaceOf(crc, records, j);
      if j > k {
        PlaceBehind(crc, records, hi, k, j);
      }
      RecordSame(crc, f, d, lo, hi, |File(crc, records[..j])|, records[j], true);
    }
  }

  lemma AtTheFirst(crc: Bytes -> Word, records: seq<Bytes>, d: Bytes, lo: nat, hi: nat, k: nat)
    requires Damaged(File(crc, records), d, lo, hi) && BeginsBehind(crc, records, hi, k) && hi < |d|
    requires |File(crc, records[..k])| <= hi
    ensures k < |records| && HoldsRecord(crc, d, hi, records[k], true)
    ensures RecordEnd(crc, hi, records[k], true) == |File(crc, records[..k + 1])|
  {
    hide File, HoldsRecord, RecordEnd;
    var f, p := File(crc, records), |File(crc, records[..k])|;
    assert records[..|records|] == records;
    PlaceOf(crc, records, k);
    NextHeaderFits(p, hi);
    SkipsTrailer(crc, f, p, records[k], true);
    RecordSame(crc, f, d, lo, hi, hi, records[k], true);
  }

  lemma SpansIt(crc: Bytes -> Word, records: seq<Bytes>, hi: nat, k: nat)
    requires BeginsBehind(crc, records, hi, k) && hi < |File(crc, records[..k])| && hi % BLOCK_SIZE == 0
    ensures 0 < k <= |records|
    ensures |File(crc, records[..k - 1])| <= hi && NextHeader(|File(crc, records[..k - 1])|) < hi
  {
    hide Encoded;
    assert records[..0] == [];
    NextHeaderIsLater(|File(crc, records[..k - 1])|);
  }

  lemma NextHeaderIsLater(p: nat)
    ensures p <= NextHeader(p)
  {
  }

  /** From the boundary behind the damage on. */
  lemma BehindTheDamage(crc: Bytes -> Word, checksum: bool, records: seq<Bytes>, d: Bytes, lo: nat, hi: nat, k: nat, st: State,
                        inFragment: bool, scratch: Bytes)
    returns (got: seq<Bytes>)
    requires Damaged(File(crc, records), d, lo, hi) && BeginsBehind(crc, records, hi, k) && hi < |d| && At(d, hi, st)
    ensures ReadFrom(crc, checksum, st, inFragment, scratch) == got + records[k..]
  {
    hide File, At, HoldsRecord, RecordEnd, ReadFrom, Damaged;
    var f := File(crc, records);
    var p := |File(crc, records[..k])|;
    if p <= hi {
      AtTheFirst(crc, records, d, lo, hi, k);
      HoldsBehind(crc, records, d, lo, hi, k, k + 1);
      var st' := ReadsRecordAnyway(crc, checksum, d, hi, st, records[k], inFragment, scratch);
      AllIsFrom(crc, checksum, st');
      ReadsTheRest(crc, checksum, records, d, k + 1, st', false, []);
      got := [];
      assert records[k..] == [] + ([records[k]] + records[k + 1..]);
    } else {
      DamageEnds(f, d, lo, hi);
      SpansIt(crc, records, hi, k);
      HoldsBehind(crc, records, d, lo, hi, k, k);
      PlaceOf(crc, records, k - 1);
      var q := |File(crc, records[..k - 1])|;
      var rest := RestOfRecord(crc, f, hi, q, records[k - 1], true);
      RecordSame(crc, f, d, lo, hi, hi, rest, false);
      var st', in1, sc1;
      got, st', in1, sc1 := ReadsRest(crc, checksum, d, hi, st, rest, inFragment, scratch);
      ReadsTheRest(crc, checksum, records, d, k, st', in1, sc1);
    }
  }

  /** A fragment of type 5 with a fitting checksum is taken for the end of the file: nothing behind it is read. */
  lemma FalseEndHidesTheRest(crc: Bytes -> Word, checksum: bool, rest: Bytes)
    ensures var d := EncodeFixed32(Mask(crc([5]))) + [0, 0, 5] + rest;
            FalseEnd(crc, checksum, d, 0) && ReadAll(crc, checksum, Start(d)).0 == []
  {
    var word := EncodeFixed32(Mask(crc([5])));
    var d := word + [0, 0, 5] + rest;
    Fixed32Size(Mask(crc([5])));
    assert d == word + ([0, 0, 5] + rest);
    UnmaskMask(crc([5]));
    FirstWord(Mask(crc([5])), [0, 0, 5] + rest);
    hide Mask, Unmask, EncodeFixed32, DecodeFixed32;
    assert d[4] == 0 && d[5] == 0 && d[6] == 5 && d[0..] == d;
    assert d[6..7] == [5];
    assert crc(d[6..7]) == crc([5]);
    FalseEndIsEnd(crc, checksum, d);
  }

  lemma FirstWord(v: Word, rest: Bytes)
    ensures DecodeFixed32(EncodeFixed32(v) + rest) == v
  {
    Fixed32RoundTrip(v, rest);
  }

  lemma FalseEndIsEnd(crc: Bytes -> Word, checksum: bool, d: Bytes)
    requires |d| >= 7 && d[4] == 0 && d[5] == 0 && d[6] == 5
    requires crc(d[6..7]) == Unmask(DecodeFixed32(d))
    ensures ReadAll(crc, checksum, Start(d)).0 == []
  {
    hide Unmask, DecodeFixed32;
    var s := Refill(Start(d));
    assert s.buffer == d[..|s.buffer|] && |s.buffer| >= 7;
    assert s.buffer[6..7] == d[6..7];
    WordOfFront(d, |s.buffer|);
    assert ReadPhysical(crc, checksum, Start(d)).kind == EOF;
    hide ReadPhysical;
    assert ReadLogical(crc, checksum, Start(d), false, []).record == None;
  }

  lemma WordOfFront(d: Bytes, n: nat)
    requires 4 <= n <= |d|
    ensures DecodeFixed32(d[..n]) == DecodeFixed32(d)
  {
  }

  // ---------------------------------------------------------------- nothing without a checksum

  /** A fragment of the file whose checksum fits. */
  ghost predicate Checked(crc: Bytes -> Word, d: Bytes, q: nat, payload: Bytes) {
    && q + HEADER_SIZE + |payload| <= |d| && payload == d[q + HEADER_SIZE..q + HEADER_SIZE + |payload|]
    && d[q + 4] as int + d[q + 5] as int * 256 == |payload|
    && crc(d[q + 6..q + HEADER_SIZE + |payload|]) == Unmask(DecodeFixed32(d[q..]))
  }

  ghost predicate Sound(crc: Bytes -> Word, d: Bytes, payload: Bytes) {
    exists q: nat :: Checked(crc, d, q, payload)
  }

  function Flat(parts: seq<Bytes>): Bytes {
    if parts == [] then [] else Flat(parts[..|parts| - 1]) + parts[|parts| - 1]
  }

  /** Put together from such fragments. */
  ghost predicate Composed(crc: Bytes -> Word, d: Bytes, record: Bytes) {
    exists parts :: record == Flat(parts) && forall i :: 0 <= i < |parts| ==> Sound(crc, d, parts[i])
  }

  lemma OneMoreFragment(crc: Bytes -> Word, d: Bytes, record: Bytes, payload: Bytes)
    requires Composed(crc, d, record) && Sound(crc, d, payload)
    ensures Composed(crc, d, record + payload)
  {
    hide Sound;
    var parts :| record == Flat(parts) && forall i :: 0 <= i < |parts| ==> Sound(crc, d, parts[i]);
    var more := parts + [payload];
    assert more[..|parts|] == parts;
    assert Flat(more) == record + payload;
  }

  lemma OneFragment(crc: Bytes -> Word, d: Bytes, payload: Bytes)
    requires Sound(crc, d, payload)
    ensures Composed(crc, d, payload)
  {
    hide Sound;
    assert Flat([]) == [] && Composed(crc, d, []);
    OneMoreFragment(crc, d, [], payload);
    assert [] + payload == payload;
  }

  lemma ShortIsEnd(crc: Bytes -> Word, st: State)
    requires |Refill(st).buffer| < HEADER_SIZE
    ensures ReadPhysical(crc, true, st).kind == EOF
  {
  }

  lemma PhysicalResults(crc: Bytes -> Word, s: State)
    requires HEADER_SIZE <= |s.buffer|
    ensures var r, n := ReadPhysical(crc, true, s), HEADER_SIZE + HeaderLength(s.buffer);
            || r.kind == EOF
            || (r.kind == BAD_RECORD && r.state == s.(buffer := [], drops := r.state.drops))
            || (n <= |s.buffer| && r.fragment == s.buffer[HEADER_SIZE..n] && r.state == s.(buffer := s.buffer[n..])
                && crc(s.buffer[6..n]) == Unmask(DecodeFixed32(s.buffer)))
  {
    hide HeaderLength, Unmask, DecodeFixed32;
    assert Refill(s) == s;
  }

  lemma BufferIsSound(crc: Bytes -> Word, d: Bytes, q: nat, e: nat, s: State) returns (next: nat)
    requires Window(d, q, e, s) && HEADER_SIZE <= |s.buffer|
    ensures var r := ReadPhysical(crc, true, s);
            (r.kind != EOF ==> At(d, next, r.state)) && (r.kind != EOF && r.kind != BAD_RECORD ==> Sound(crc, d, r.fragment))
  {
    hide ReadPhysical, HeaderLength, Unmask, DecodeFixed32;
    PhysicalResults(crc, s);
    HeaderOfWindow(d, q, e, s);
    var n := HEADER_SIZE + HeaderLength(s.buffer);
    var r := ReadPhysical(crc, true, s);
    next := q;
    if r.kind == BAD_RECORD && r.state == s.(buffer := [], drops := r.state.drops) {
      next := e;
      assert d[e..e] == [];
      assert Window(d, e, e, r.state);
    } else if r.kind != EOF {
      next := q + n;
      WindowMoves(d, q, e, s, n);
      InnerSlice(d, q, e, 6, n);
      InnerSlice(d, q, e, HEADER_SIZE, n);
      assert Checked(crc, d, q, r.fragment);
    }
  }

  /** Reading a physical record, with checksums, stays in the file and hands over a sound fragment. */
  lemma PhysicalIsSound(crc: Bytes -> Word, d: Bytes, p: nat, st: State) returns (next: nat)
    requires At(d, p, st)
    ensures var r := ReadPhysical(crc, true, st);
            (r.kind != EOF ==> At(d, next, r.state)) && (r.kind != EOF && r.kind != BAD_RECORD ==> Sound(crc, d, r.fragment))
  {
    hide ReadPhysical, At, Window, Refill, Sound;
    RefillLands(d, p, st);
    var s := Refill(st);
    next := p;
    if |s.buffer| < HEADER_SIZE {
      ShortIsEnd(crc, st);
    } else {
      var q := NextHeader(p);
      var e := WindowOf(d, q, s);
      SameAfterRefill(crc, true, st);
      next := BufferIsSound(crc, d, q, e, s);
    }
  }

  lemma {:induction false} LogicalIsSound(crc: Bytes -> Word, d: Bytes, p: nat, st: State, inFragment: bool, scratch: Bytes)
    returns (next: nat)
    requires At(d, p, st) && (inFragment ==> Composed(crc, d, scratch))
    ensures var r := ReadLogical(crc, true, st, inFragment, scratch);
            r.record.Some? ==> Composed(crc, d, r.record.value) && At(d, next, r.state)
    decreases st.Size()
  {
    hide ReadPhysical, ReadLogical, At, Sound, Composed;
    next := PhysicalIsSound(crc, d, p, st);
    LogicalTurns(crc, true, st, inFragment, scratch);
    var r := ReadPhysical(crc, true, st);
    var t := TurnOf(r, inFragment, scratch);
    if r.kind != EOF {
      AtIgnoresDrops(d, next, r.state, t.state);
      if FULL_TYPE <= r.kind <= LAST_TYPE {
        OneFragment(crc, d, r.fragment);
        if inFragment {
          OneMoreFragment(crc, d, scratch, r.fragment);
        }
      }
      if !t.ends {
        next := LogicalIsSound(crc, d, next, t.state, t.inFragment, t.scratch);
      }
    }
  }

  lemma AtIgnoresDrops(d: Bytes, p: nat, s: State, t: State)
    requires At(d, p, s) && t == s.(drops := t.drops)
    ensures At(d, p, t)
  {
    var e :| Window(d, p, e, s);
    assert Window(d, p, e, t);
  }

  lemma {:induction false} AllAreSound(crc: Bytes -> Word, d: Bytes, p: nat, st: State)
    requires At(d, p, st)
    ensures forall record :: record in ReadAll(crc, true, st).0 ==> Composed(crc, d, record)
    decreases st.Size()
  {
    hide ReadLogical, At, Composed;
    var next := LogicalIsSound(crc, d, p, st, false, []);
    var r := ReadLogical(crc, true, st, false, []);
    if r.record.Some? {
      AllAreSound(crc, d, next, r.state);
    }
  }

  /** Whatever the file: with checksums on, every record read is put together from fragments of the file whose
      checksums fit. */
  lemma NothingUncheckedIsRead(crc: Bytes -> Word, d: Bytes)
    ensures forall record :: record in ReadAll(crc, true, Start(d)).0 ==> Composed(crc, d, record)
  {
    hide ReadAll, Composed;
    assert d[0..0] == [] && d[0..] == d;
    assert Window(d, 0, 0, Start(d));
    AllAreSound(crc, d, 0, Start(d));
  }
}
