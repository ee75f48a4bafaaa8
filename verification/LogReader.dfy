/**
 Reading a log (db/log_reader.cc) from its beginning, and what the reader makes of a file
 the writer was still working on when the machine stopped.
 */
module LogReader {
  import opened InternalKeys
  import opened Coding
  import opened LogFormat

  // ---------------------------------------------------------------- the reader, on any bytes

  /** What is not read yet, what is left of the block read last, whether that was the last block,
      and the sizes of the drops reported. */
  datatype State = State(rest: Bytes, buffer: Bytes, eof: bool, drops: seq<nat>) {
    function Size(): nat {
      |rest| + |buffer|
    }

    function Drop(n: nat): State {
      this.(drops := drops + [n])
    }
  }

  function Start(file: Bytes): State {
    State(file, [], false, [])
  }

  function Refill(st: State): State {
    if |st.buffer| < HEADER_SIZE && !st.eof then
      var n := if |st.rest| < BLOCK_SIZE then |st.rest| else BLOCK_SIZE;
      State(st.rest[n..], st.rest[..n], n < BLOCK_SIZE, st.drops)
    else
      st
  }

  datatype PhysicalRead = PhysicalRead(state: State, kind: nat, fragment: Bytes)

  function HeaderLength(b: Bytes): nat
    requires |b| >= HEADER_SIZE
  {
    b[4] as int + b[5] as int * 256
  }

  function ReadPhysical(crc: Bytes -> Word, checksum: bool, st: State): (r: PhysicalRead)
    ensures r.kind != EOF ==> r.state.Size() < st.Size()
  {
    var s := Refill(st);
    if |s.buffer| < HEADER_SIZE then
      PhysicalRead(s.(buffer := []), EOF, [])
    else
      var length := HeaderLength(s.buffer);
      if HEADER_SIZE + length > |s.buffer| then
        if !s.eof then PhysicalRead(s.(buffer := []).Drop(|s.buffer|), BAD_RECORD, [])
        else PhysicalRead(s.(buffer := []), EOF, [])
      else if s.buffer[6] as int == ZERO_TYPE && length == 0 then
        PhysicalRead(s.(buffer := []), BAD_RECORD, [])
      else if checksum && crc(s.buffer[6..HEADER_SIZE + length]) != Unmask(DecodeFixed32(s.buffer)) then
        PhysicalRead(s.(buffer := []).Drop(|s.buffer|), BAD_RECORD, [])
      else
        PhysicalRead(s.(buffer := s.buffer[HEADER_SIZE + length..]), s.buffer[6] as int,
                     s.buffer[HEADER_SIZE..HEADER_SIZE + length])
  }

  datatype LogicalRead = LogicalRead(state: State, record: Option<Bytes>)

  /** The next record, with scratch holding the fragments read so far if inFragment. */
  function ReadLogical(crc: Bytes -> Word, checksum: bool, st: State, inFragment: bool, scratch: Bytes): (r: LogicalRead)
    ensures r.record.Some? ==> r.state.Size() < st.Size()
    decreases st.Size()
  {
    var p := ReadPhysical(crc, checksum, st);
    if p.kind == FULL_TYPE then
      LogicalRead(if inFragment && scratch != [] then p.state.Drop(|scratch|) else p.state, Some(p.fragment))
    else if p.kind == FIRST_TYPE then
      ReadLogical(crc, checksum, if inFragment && scratch != [] then p.state.Drop(|scratch|) else p.state, true, p.fragment)
    else if p.kind == MIDDLE_TYPE then
      if !inFragment then ReadLogical(crc, checksum, p.state.Drop(|p.fragment|), false, scratch)
      else ReadLogical(crc, checksum, p.state, true, scratch + p.fragment)
    else if p.kind == LAST_TYPE then
      if !inFragment then ReadLogical(crc, checksum, p.state.Drop(|p.fragment|), false, scratch)
      else LogicalRead(p.state, Some(scratch + p.fragment))
    else if p.kind == EOF then
      LogicalRead(p.state, None)
    else if p.kind == BAD_RECORD then
      if inFragment then ReadLogical(crc, checksum, p.state.Drop(|scratch|), false, [])
      else ReadLogical(crc, checksum, p.state, false, scratch)
    else
      ReadLogical(crc, checksum, p.state.Drop(|p.fragment| + if inFragment then |scratch| else 0), false, [])
  }

  class Reader {
    const crc: Bytes -> Word
    const checksum: bool
    var rest: Bytes           // of the file
    var buffer: Bytes
    var eof: bool
    var drops: seq<nat>       // as reported

    function Now(): State
      reads this
    {
      State(rest, buffer, eof, drops)
    }

    constructor (crc: Bytes -> Word, checksum: bool, file: Bytes)
      ensures this.crc == crc && this.checksum == checksum && Now() == Start(file)
    {
      this.crc, this.checksum := crc, checksum;
      rest, buffer, eof, drops := file, [], false, [];
    }

    method ReadPhysicalRecord() returns (kind: nat, fragment: Bytes)
      modifies this
      ensures PhysicalRead(Now(), kind, fragment) == ReadPhysical(crc, checksum, old(Now()))
    {
      hide Unmask, DecodeFixed32;
      ghost var start := Now();
      kind, fragment := EOF, [];
      while true
        invariant kind == EOF && fragment == []
        invariant Now() == start || (Now() == Refill(start) && (|buffer| >= HEADER_SIZE || eof))
        decreases |buffer| < HEADER_SIZE && !eof
      {
        if |buffer| < HEADER_SIZE {
          if !eof {
            var n := if |rest| < BLOCK_SIZE then |rest| else BLOCK_SIZE;
            buffer, rest := rest[..n], rest[n..];
            eof := |buffer| < BLOCK_SIZE;
            continue;
          }
          buffer := [];
          return;
        }
        var length := HeaderLength(buffer);
        var size := |buffer|;
        if HEADER_SIZE + length > size {
          buffer := [];
          if !eof {
            drops := drops + [size];
            kind := BAD_RECORD;
          }
          return;
        }
        if buffer[6] as int == ZERO_TYPE && length == 0 {
          buffer, kind := [], BAD_RECORD;
          return;
        }
        if checksum && crc(buffer[6..HEADER_SIZE + length]) != Unmask(DecodeFixed32(buffer)) {
          buffer, kind := [], BAD_RECORD;
          drops := drops + [size];
          return;
        }
        kind, fragment := buffer[6] as int, buffer[HEADER_SIZE..HEADER_SIZE + length];
        buffer := buffer[HEADER_SIZE + length..];
        return;
      }
    }

    method ReadRecord() returns (record: Option<Bytes>)
      modifies this
      ensures LogicalRead(Now(), record) == ReadLogical(crc, checksum, old(Now()), false, [])
    {
      hide ReadPhysical;
      ghost var target := ReadLogical(crc, checksum, Now(), false, []);
      var scratch: Bytes, inFragment := [], false;
      while true
        invariant target == ReadLogical(crc, checksum, Now(), inFragment, scratch)
        decreases Now().Size()
      {
        var kind, fragment := ReadPhysicalRecord();
        if kind == FULL_TYPE {
          if inFragment && scratch != [] {
            drops := drops + [|scratch|];
          }
          return Some(fragment);
        } else if kind == FIRST_TYPE {
          if inFragment && scratch != [] {
            drops := drops + [|scratch|];
          }
          scratch, inFragment := fragment, true;
        } else if kind == MIDDLE_TYPE {
          if !inFragment {
            drops := drops + [|fragment|];
          } else {
            scratch := scratch + fragment;
          }
        } else if kind == LAST_TYPE {
          if !inFragment {
            drops := drops + [|fragment|];
          } else {
            scratch := scratch + fragment;
            return Some(scratch);
          }
        } else if kind == EOF {
          return None;
        } else if kind == BAD_RECORD {
          if inFragment {
            drops := drops + [|scratch|];
            inFragment, scratch := false, [];
          }
        } else {
          drops := drops + [|fragment| + if inFragment then |scratch| else 0];
          inFragment, scratch := false, [];
        }
      }
    }
  }

  /** Reading on until there is nothing more. */
  function ReadAll(crc: Bytes -> Word, checksum: bool, st: State): (seq<Bytes>, State)
    decreases st.Size()
  {
    var r := ReadLogical(crc, checksum, st, false, []);
    if r.record.None? then ([], r.state)
    else
      var (records, last) := ReadAll(crc, checksum, r.state);
      ([r.record.value] + records, last)
  }

  // ---------------------------------------------------------------- a file cut off anywhere

  /** The reader has consumed the first p bytes of file and holds the bytes up to e. */
  ghost predicate Window(file: Bytes, p: nat, e: nat, st: State) {
    && p <= e <= |file|
    && st.buffer == file[p..e] && st.rest == file[e..]
    && (if st.eof then e == |file| else e % BLOCK_SIZE == 0)
    && (p < e ==> e <= p - p % BLOCK_SIZE + BLOCK_SIZE)
  }

  ghost predicate At(file: Bytes, p: nat, st: State) {
    exists e :: Window(file, p, e, st)
  }

  /** Where the next fragment begins: a header never straddles blocks. */
  function NextHeader(p: nat): nat {
    if p % BLOCK_SIZE + HEADER_SIZE > BLOCK_SIZE then p - p % BLOCK_SIZE + BLOCK_SIZE else p
  }

  lemma BlockEnds(p: nat, e: nat)
    ensures e % BLOCK_SIZE == 0 && p < e <= p - p % BLOCK_SIZE + BLOCK_SIZE ==> e == p - p % BLOCK_SIZE + BLOCK_SIZE
    ensures (p - p % BLOCK_SIZE) % BLOCK_SIZE == 0
  {
    assert p - p % BLOCK_SIZE == p / BLOCK_SIZE * BLOCK_SIZE;
    assert e == e / BLOCK_SIZE * BLOCK_SIZE + e % BLOCK_SIZE;
  }

  /** Less than a header is left of the bytes held: the next header is at their end, or past the file's. */
  lemma ShortOfHeader(p: nat, e: nat)
    requires p <= e < p + HEADER_SIZE && (p < e ==> e <= p - p % BLOCK_SIZE + BLOCK_SIZE)
    ensures e % BLOCK_SIZE == 0 ==> NextHeader(p) == e
    ensures e < NextHeader(p) + HEADER_SIZE
  {
    BlockEnds(p, e);
  }

  lemma RefillLands(file: Bytes, p: nat, st: State)
    requires At(file, p, st)
    ensures var s := Refill(st);
            s.drops == st.drops
            && if |s.buffer| < HEADER_SIZE then s.eof && |file| < NextHeader(p) + HEADER_SIZE
               else At(file, NextHeader(p), s) && NextHeader(p) + HEADER_SIZE <= |file|
  {
    var e: nat :| Window(file, p, e, st);
    if |st.buffer| < HEADER_SIZE {
      ShortOfHeader(p, e);
      if !st.eof {
        RefillReads(file, e, st);
      }
    } else {
      assert Refill(st) == st;
      assert NextHeader(p) == p;
    }
  }

  lemma RefillReads(file: Bytes, e: nat, st: State)
    requires e <= |file| && st.rest == file[e..] && e % BLOCK_SIZE == 0 && !st.eof && |st.buffer| < HEADER_SIZE
    ensures var s := Refill(st);
            s.drops == st.drops && At(file, e, s)
            && if |s.buffer| < HEADER_SIZE then s.eof && |file| < e + HEADER_SIZE else e + HEADER_SIZE <= |file|
  {
    var s := Refill(st);
    var n := |s.buffer|;
    assert file[e..][..n] == file[e..e + n] && file[e..][n..] == file[e + n..];
    assert Window(file, e, e + n, s);
  }

  /** g holds this fragment at q. */
  ghost predicate HoldsFragment(crc: Bytes -> Word, g: Bytes, q: nat, kind: nat, payload: Bytes) {
    && FULL_TYPE <= kind <= LAST_TYPE && q % BLOCK_SIZE + HEADER_SIZE + |payload| <= BLOCK_SIZE
    && q + HEADER_SIZE + |payload| <= |g|
    && g[q..q + HEADER_SIZE + |payload|] == Physical(crc, kind, payload)
  }

  /** A fragment at q that is wholly in the file is read back; one that is cut off reads as the end of the file. */
  lemma ReadsFragment(crc: Bytes -> Word, checksum: bool, g: Bytes, cut: nat, p: nat, st: State,
                      kind: nat, payload: Bytes)
    requires cut <= |g| && At(g[..cut], p, st)
    requires HoldsFragment(crc, g, NextHeader(p), kind, payload)
    ensures var r := ReadPhysical(crc, checksum, st);
            var end := NextHeader(p) + HEADER_SIZE + |payload|;
            r.state.drops == st.drops
            && if end <= cut then r.kind == kind && r.fragment == payload && At(g[..cut], end, r.state)
               else r.kind == EOF
  {
    var f, q := g[..cut], NextHeader(p);
    RefillLands(f, p, st);
    var s := Refill(st);
    if |s.buffer| < HEADER_SIZE {
      hide Refill, HeaderLength, Unmask, DecodeFixed32, At, NextHeader;
      assert ReadPhysical(crc, checksum, st) == PhysicalRead(s.(buffer := []), EOF, []);
    } else {
      hide Refill, NextHeader, ReadPhysical;
      FragmentBuffered(crc, g, cut, q, s, kind, payload);
      hide At, HoldsFragment, HeaderLength, Unmask, DecodeFixed32;
      ParsesFragment(crc, checksum, st, kind, payload);
    }
  }

  lemma FragmentBuffered(crc: Bytes -> Word, g: Bytes, cut: nat, q: nat, s: State, kind: nat, payload: Bytes)
    requires cut <= |g| && At(g[..cut], q, s) && HoldsFragment(crc, g, q, kind, payload) && |s.buffer| >= HEADER_SIZE
    ensures var b, n := s.buffer, |payload|;
            && HeaderLength(b) == n && b[6] as int == kind
            && Unmask(DecodeFixed32(b)) == crc([kind as byte] + payload)
            && (if q + HEADER_SIZE + n <= cut then
                  && |b| >= HEADER_SIZE + n
                  && b[6..HEADER_SIZE + n] == [kind as byte] + payload && b[HEADER_SIZE..HEADER_SIZE + n] == payload
                  && At(g[..cut], q + HEADER_SIZE + n, s.(buffer := b[HEADER_SIZE + n..]))
                else |b| < HEADER_SIZE + n && s.eof)
  {
    var e: nat :| Window(g[..cut], q, e, s);
    assert s.buffer == g[q..e];
    FragmentFits(g[..cut], q, e, s, |payload|);
    hide At, Window;
    FragmentBytes(crc, g, q, kind, payload, s.buffer);
    hide HoldsFragment, HeaderLength, Unmask, DecodeFixed32;
  }

  lemma ParsesFragment(crc: Bytes -> Word, checksum: bool, st: State, kind: nat, payload: Bytes)
    requires FULL_TYPE <= kind <= LAST_TYPE
    requires var b := Refill(st).buffer;
             && |b| >= HEADER_SIZE && HeaderLength(b) == |payload| && b[6] as int == kind
             && Unmask(DecodeFixed32(b)) == crc([kind as byte] + payload)
             && (|b| >= HEADER_SIZE + |payload| ==>
                   b[6..HEADER_SIZE + |payload|] == [kind as byte] + payload && b[HEADER_SIZE..HEADER_SIZE + |payload|] == payload)
             && (|b| < HEADER_SIZE + |payload| ==> Refill(st).eof)
    ensures var r, s := ReadPhysical(crc, checksum, st), Refill(st);
            if |s.buffer| >= HEADER_SIZE + |payload| then
              r == PhysicalRead(s.(buffer := s.buffer[HEADER_SIZE + |payload|..]), kind, payload)
            else r == PhysicalRead(s.(buffer := []), EOF, [])
  {
    hide Refill, HeaderLength, Unmask, DecodeFixed32;
  }

  /** Whether the fragment is all in the bytes held is whether it is all in the file. */
  lemma FragmentFits(f: Bytes, q: nat, e: nat, s: State, n: nat)
    requires Window(f, q, e, s) && q % BLOCK_SIZE + HEADER_SIZE + n <= BLOCK_SIZE && q < e
    ensures var end := q + HEADER_SIZE + n;
            if end <= |f| then
              HEADER_SIZE + n <= |s.buffer| && At(f, end, s.(buffer := s.buffer[HEADER_SIZE + n..]))
            else HEADER_SIZE + n > |s.buffer| && s.eof
  {
    var end := q + HEADER_SIZE + n;
    BlockEnds(q, e);
    if end <= |f| {
      NextInBlock(q, HEADER_SIZE + n, e);
      assert s.buffer[HEADER_SIZE + n..] == f[end..e];
      assert Window(f, end, e, s.(buffer := s.buffer[HEADER_SIZE + n..]));
    }
  }

  lemma NextInBlock(q: nat, n: nat, e: nat)
    requires q % BLOCK_SIZE + n <= BLOCK_SIZE && q + n <= e
    requires q < e ==> e <= q - q % BLOCK_SIZE + BLOCK_SIZE
    ensures q + n < e ==> e <= q + n - (q + n) % BLOCK_SIZE + BLOCK_SIZE
  {
    if q + n < e {
      assert q % BLOCK_SIZE + n < BLOCK_SIZE;
      assert (q + n) % BLOCK_SIZE == q % BLOCK_SIZE + n;
    }
  }

  /** What the reader finds in a header, given that its buffer starts like the fragment does. */
  lemma FragmentBytes(crc: Bytes -> Word, g: Bytes, q: nat, kind: nat, payload: Bytes, buffer: Bytes)
    requires HoldsFragment(crc, g, q, kind, payload)
    requires HEADER_SIZE <= |buffer| && q + |buffer| <= |g| && buffer == g[q..q + |buffer|]
    ensures HeaderLength(buffer) == |payload| && buffer[6] as int == kind
    ensures Unmask(DecodeFixed32(buffer)) == crc([kind as byte] + payload)
    ensures |buffer| >= HEADER_SIZE + |payload| ==>
              buffer[6..HEADER_SIZE + |payload|] == [kind as byte] + payload
              && buffer[HEADER_SIZE..HEADER_SIZE + |payload|] == payload
  {
    hide Mask, Unmask, EncodeFixed32, DecodeFixed32;
    var header := Header(crc, kind, payload);
    var sum := Mask(crc([kind as byte] + payload));
    var whole := Physical(crc, kind, payload);
    assert forall i :: 0 <= i < HEADER_SIZE ==> buffer[i] == whole[i] == header[i];
    Fixed32RoundTrip(sum, header[4..] + buffer[HEADER_SIZE..]);
    UnmaskMask(crc([kind as byte] + payload));
    Fixed32Size(sum);
    assert buffer == EncodeFixed32(sum) + (header[4..] + buffer[HEADER_SIZE..]);
    if |buffer| >= HEADER_SIZE + |payload| {
      assert forall i :: 0 <= i < |payload| ==> buffer[HEADER_SIZE + i] == whole[HEADER_SIZE + i] == payload[i];
    }
  }

  /** g holds the fragments of a record (its first one if begin) from position p on. */
  ghost predicate HoldsRecord(crc: Bytes -> Word, g: Bytes, p: nat, data: Bytes, begin: bool) {
    var encoded := Encoded(crc, p % BLOCK_SIZE, data, begin);
    p + |encoded| <= |g| && g[p..p + |encoded|] == encoded
  }

  function RecordEnd(crc: Bytes -> Word, p: nat, data: Bytes, begin: bool): nat {
    p + |Encoded(crc, p % BLOCK_SIZE, data, begin)|
  }

  /** A record held at p is a fragment at the next header, and the rest of the record after it. */
  lemma FirstFragment(crc: Bytes -> Word, g: Bytes, p: nat, data: Bytes, begin: bool)
    requires HoldsRecord(crc, g, p, data, begin)
    ensures var q := NextHeader(p);
            var n := FragmentLength(q % BLOCK_SIZE, |data|);
            HoldsFragment(crc, g, q, FragmentType(begin, n == |data|), data[..n])
            && (if n == |data| then RecordEnd(crc, p, data, begin) == q + HEADER_SIZE + n
                else HoldsRecord(crc, g, q + HEADER_SIZE + n, data[n..], false)
                     && (q + HEADER_SIZE + n) % BLOCK_SIZE == 0
                     && RecordEnd(crc, q + HEADER_SIZE + n, data[n..], false) == RecordEnd(crc, p, data, begin))
  {
    hide HoldsRecord, HoldsFragment, RecordEnd, NextHeader;
    SkipsTrailer(crc, g, p, data, begin);
    FragmentHere(crc, g, NextHeader(p), data, begin);
  }

  lemma FragmentHere(crc: Bytes -> Word, g: Bytes, q: nat, data: Bytes, begin: bool)
    requires HoldsRecord(crc, g, q, data, begin) && q % BLOCK_SIZE + HEADER_SIZE <= BLOCK_SIZE
    ensures var n := FragmentLength(q % BLOCK_SIZE, |data|);
            HoldsFragment(crc, g, q, FragmentType(begin, n == |data|), data[..n])
            && (if n == |data| then RecordEnd(crc, q, data, begin) == q + HEADER_SIZE + n
                else HoldsRecord(crc, g, q + HEADER_SIZE + n, data[n..], false)
                     && (q + HEADER_SIZE + n) % BLOCK_SIZE == 0
                     && RecordEnd(crc, q + HEADER_SIZE + n, data[n..], false) == RecordEnd(crc, q, data, begin))
  {
    hide Encoded, Physical, Zeros;
    var n := FragmentLength(q % BLOCK_SIZE, |data|);
    EncodedStep(crc, q % BLOCK_SIZE, data, begin);
    var physical := Physical(crc, FragmentType(begin, n == |data|), data[..n]);
    var tail := if n == |data| then [] else Encoded(crc, BLOCK_SIZE, data[n..], false);
    assert [] + physical + tail == physical + tail == physical + tail + [];
    Inside(g, q, [], physical, tail);
    if n < |data| {
      Inside(g, q, physical, tail, []);
      BlockFilled(crc, q, data[n..]);
    }
  }

  /** A block filled to the end is followed by a new one. */
  lemma BlockFilled(crc: Bytes -> Word, q: nat, rest: Bytes)
    ensures (q - q % BLOCK_SIZE + BLOCK_SIZE) % BLOCK_SIZE == 0
    ensures Encoded(crc, BLOCK_SIZE, rest, false) == Encoded(crc, 0, rest, false)
  {
    hide Encoded, Zeros;
    BlockEnds(q, q);
    EncodedPads(crc, BLOCK_SIZE, rest, false);
    NoZeros();
    assert [] + Encoded(crc, 0, rest, false) == Encoded(crc, 0, rest, false);
  }

  lemma Inside(g: Bytes, p: nat, before: Bytes, part: Bytes, after: Bytes)
    requires p + |before + part + after| <= |g| && g[p..p + |before + part + after|] == before + part + after
    ensures g[p + |before|..p + |before| + |part|] == part
  {
    var whole := before + part + after;
    forall i | 0 <= i < |part|
      ensures g[p + |before| + i] == part[i]
    {
      assert g[p + |before| + i] == g[p..p + |whole|][|before| + i] == whole[|before| + i];
    }
  }

  /** The bytes up to the next header are filler. */
  lemma SkipsTrailer(crc: Bytes -> Word, g: Bytes, p: nat, data: Bytes, begin: bool)
    requires HoldsRecord(crc, g, p, data, begin)
    ensures HoldsRecord(crc, g, NextHeader(p), data, begin) && NextHeader(p) % BLOCK_SIZE + HEADER_SIZE <= BLOCK_SIZE
    ensures RecordEnd(crc, NextHeader(p), data, begin) == RecordEnd(crc, p, data, begin)
  {
    hide Encoded;
    var offset := p % BLOCK_SIZE;
    if offset + HEADER_SIZE > BLOCK_SIZE {
      BlockEnds(p, p);
      assert NextHeader(p) % BLOCK_SIZE == 0;
      var pad, here := Zeros(BLOCK_SIZE - offset), Encoded(crc, 0, data, begin);
      EncodedPads(crc, offset, data, begin);
      assert pad + here + [] == pad + here;
      Inside(g, p, pad, here, []);
    }
  }

  /** A record wholly in the file is read back, however many fragments it has; of a record that is cut off
      anywhere nothing is seen, and nothing is reported. */
  lemma {:induction false} ReadsRecord(crc: Bytes -> Word, checksum: bool, g: Bytes, cut: nat, p: nat, st: State,
                                       data: Bytes, begin: bool, scratch: Bytes)
    requires cut <= |g| && At(g[..cut], p, st) && HoldsRecord(crc, g, p, data, begin)
    ensures var r := ReadLogical(crc, checksum, st, !begin, scratch);
            var end := RecordEnd(crc, p, data, begin);
            r.state.drops == st.drops
            && if end <= cut then
                 r.record == Some(if begin then data else scratch + data) && At(g[..cut], end, r.state)
               else r.record == None
    decreases |data|, Turns(p % BLOCK_SIZE)
  {
    hide At, HoldsRecord, HoldsFragment, RecordEnd, ReadPhysical;
    FirstFragment(crc, g, p, data, begin);
    var q := NextHeader(p);
    var n := FragmentLength(q % BLOCK_SIZE, |data|);
    var kind := FragmentType(begin, n == |data|);
    ReadsFragment(crc, checksum, g, cut, p, st, kind, data[..n]);
    var r := ReadPhysical(crc, checksum, st);
    var next := q + HEADER_SIZE + n;
    if n == |data| {
      assert data[..n] == data;
    } else {
      RecordGrows(crc, next, data[n..]);
      if next <= cut {
        var got := if begin then data[..n] else scratch + data[..n];
        NextHeaderTurns(p, n, |data|);
        ReadsRecord(crc, checksum, g, cut, next, r.state, data[n..], false, got);
        assert got + data[n..] == if begin then data else scratch + data by {
          assert data[..n] + data[n..] == data;
        }
      }
    }
  }

  lemma RecordGrows(crc: Bytes -> Word, p: nat, data: Bytes)
    ensures RecordEnd(crc, p, data, false) >= p
  {
  }

  lemma NextHeaderTurns(p: nat, n: nat, size: nat)
    requires n == FragmentLength(NextHeader(p) % BLOCK_SIZE, size) < size
    ensures n > 0 || Turns(p % BLOCK_SIZE) > Turns(0)
  {
    BlockEnds(p, p);
  }

  /** At the end of the file there is nothing to read and nothing to report. */
  lemma EndOfFile(crc: Bytes -> Word, checksum: bool, f: Bytes, st: State)
    requires At(f, |f|, st)
    ensures ReadLogical(crc, checksum, st, false, []).record == None
    ensures ReadLogical(crc, checksum, st, false, []).state.drops == st.drops
  {
    RefillLands(f, |f|, st);
  }

  // ---------------------------------------------------------------- whole files

  lemma {:induction false} FileHolds(crc: Bytes -> Word, records: seq<Bytes>, i: nat)
    requires i < |records|
    ensures |File(crc, records[..i + 1])| <= |File(crc, records)|
    ensures HoldsRecord(crc, File(crc, records), |File(crc, records[..i])|, records[i], true)
    ensures RecordEnd(crc, |File(crc, records[..i])|, records[i], true) == |File(crc, records[..i + 1])|
    decreases |records|
  {
    hide Encoded;
    var n := |records| - 1;
    assert records[..i + 1][..i] == records[..i];
    if i < n {
      var shorter := records[..n];
      FileHolds(crc, shorter, i);
      assert shorter[..i] == records[..i] && shorter[..i + 1] == records[..i + 1];
      var before := File(crc, shorter);
      var p, end := |File(crc, records[..i])|, |File(crc, records[..i + 1])|;
      assert File(crc, records)[p..end] == before[p..end];
    } else {
      assert records[..i + 1] == records;
    }
  }

  lemma {:induction false} ReadsOn(crc: Bytes -> Word, checksum: bool, records: seq<Bytes>, cut: nat, k: nat, i: nat, st: State)
    requires i <= k <= |records| && cut <= |File(crc, records)|
    requires |File(crc, records[..k])| <= cut && (k < |records| ==> cut < |File(crc, records[..k + 1])|)
    requires At(File(crc, records)[..cut], |File(crc, records[..i])|, st)
    ensures ReadAll(crc, checksum, st).0 == records[i..k] && ReadAll(crc, checksum, st).1.drops == st.drops
    decreases k - i
  {
    hide At, HoldsRecord, RecordEnd, File, ReadLogical;
    var g := File(crc, records);
    var p := |File(crc, records[..i])|;
    if i < |records| {
      FileHolds(crc, records, i);
      ReadsRecord(crc, checksum, g, cut, p, st, records[i], true, []);
      var r := ReadLogical(crc, checksum, st, false, []);
      if i < k {
        FileGrows(crc, records, i + 1, k);
        ReadsOn(crc, checksum, records, cut, k, i + 1, r.state);
        assert records[i..k] == [records[i]] + records[i + 1..k];
      }
    } else {
      assert records[..i] == records;
      EndOfFile(crc, checksum, g[..cut], st);
    }
  }

  lemma {:induction false} FileGrows(crc: Bytes -> Word, records: seq<Bytes>, i: nat, k: nat)
    requires i <= k <= |records|
    ensures |File(crc, records[..i])| <= |File(crc, records[..k])|
    decreases k - i
  {
    hide File, HoldsRecord, RecordEnd;
    if i < k {
      FileHolds(crc, records[..k], i);
      assert records[..k][..i + 1] == records[..i + 1] && records[..k][..i] == records[..i];
      FileGrows(crc, records, i + 1, k);
      RecordSize(crc, |File(crc, records[..i])|, records[i]);
    }
  }

  lemma RecordSize(crc: Bytes -> Word, p: nat, data: Bytes)
    ensures RecordEnd(crc, p, data, true) >= p + HEADER_SIZE
  {
  }

  /** k records end before the cut, and no more. */
  ghost predicate WholeBefore(crc: Bytes -> Word, records: seq<Bytes>, cut: nat, k: nat) {
    k <= |records| && |File(crc, records[..k])| <= cut && (k < |records| ==> cut < |File(crc, records[..k + 1])|)
  }

  lemma CutReadsPrefix(crc: Bytes -> Word, checksum: bool, records: seq<Bytes>, cut: nat, k: nat)
    requires cut <= |File(crc, records)| && WholeBefore(crc, records, cut, k)
    ensures ReadAll(crc, checksum, Start(File(crc, records)[..cut])).0 == records[..k]
    ensures ReadAll(crc, checksum, Start(File(crc, records)[..cut])).1.drops == []
  {
    hide ReadAll;
    var f := File(crc, records)[..cut];
    assert Window(f, 0, 0, Start(f));
    assert records[..0] == [];
    ReadsOn(crc, checksum, records, cut, k, 0, Start(f));
    assert records[0..k] == records[..k];
  }

  /** Every cut falls after some number of whole records. */
  lemma SomeRecordsAreWhole(crc: Bytes -> Word, records: seq<Bytes>, cut: nat) returns (k: nat)
    requires cut <= |File(crc, records)|
    ensures WholeBefore(crc, records, cut, k)
  {
    hide Encoded;
    k := |records|;
    assert records[..k] == records;
    while |File(crc, records[..k])| > cut
      invariant k <= |records| && (k < |records| ==> cut < |File(crc, records[..k + 1])|)
      decreases k
    {
      k := k - 1;
    }
  }

  /** Cut the file anywhere: reading it gives exactly the records that end before the cut, and reports no
      corruption. With the cut at the end this is the round trip. */
  lemma CutLogReadsBack(crc: Bytes -> Word, checksum: bool, records: seq<Bytes>, cut: nat)
    requires cut <= |File(crc, records)|
    ensures exists k: nat :: WholeBefore(crc, records, cut, k) && ReadAll(crc, checksum, Start(File(crc, records)[..cut])).0 == records[..k]
    ensures cut == |File(crc, records)| ==> ReadAll(crc, checksum, Start(File(crc, records)[..cut])).0 == records
    ensures ReadAll(crc, checksum, Start(File(crc, records)[..cut])).1.drops == []
  {
    hide ReadAll;
    var k := SomeRecordsAreWhole(crc, records, cut);
    CutReadsPrefix(crc, checksum, records, cut, k);
    if cut == |File(crc, records)| {
      assert records[..|records|] == records;
      CutReadsPrefix(crc, checksum, records, cut, |records|);
    }
  }
}
