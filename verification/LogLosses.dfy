/**
 What the log reader reports (db/log_reader.cc): every byte of any file is part of a record
 read, is reported as dropped, or is one of the few kinds of bytes that are passed over
 silently.
 */
module LogLosses {
  import opened InternalKeys
  import opened Coding
  import opened LogFormat
  import opened LogReader
  import opened DamagedLog

  function Sum(ns: seq<nat>): nat {
    if ns == [] then 0 else Sum(ns[..|ns| - 1]) + ns[|ns| - 1]
  }

  function Lengths(records: seq<Bytes>): nat {
    if records == [] then 0 else |records[0]| + Lengths(records[1..])
  }

  lemma OneMoreDrop(s: State, n: nat)
    ensures Sum(s.Drop(n).drops) == Sum(s.drops) + n
  {
    assert (s.drops + [n])[..|s.drops|] == s.drops;
  }

  // ---------------------------------------------------------------- one physical record

  /** What is left of a block when no header fits any more. */
  function Trailer(st: State): nat {
    if |st.buffer| < 7 && !st.eof then |st.buffer| else 0
  }

  /** Besides the trailer of a block: the rest of a block that begins with zeros, the header of a fragment that is
      read, and a fragment of type 6. */
  function PassedOver(crc: Bytes -> Word, checksum: bool, buffer: Bytes): nat
    requires |buffer| >= 7
  {
    var length := buffer[4] as int + buffer[5] as int * 256;
    if 7 + length > |buffer| then 0
    else if buffer[6] == 0 && length == 0 then |buffer|
    else if checksum && crc(buffer[6..7 + length]) != Unmask(DecodeFixed32(buffer)) then 0
    else 7 + if buffer[6] == 6 then length else 0
  }

  function Silently(crc: Bytes -> Word, checksum: bool, st: State): nat {
    Trailer(st) + if |Refill(st).buffer| >= 7 then PassedOver(crc, checksum, Refill(st).buffer) else 0
  }

  lemma RefillLosesTrailer(st: State)
    ensures Refill(st).Size() + Trailer(st) == st.Size() && Refill(st).drops == st.drops
  {
  }

  lemma BufferIsAccounted(crc: Bytes -> Word, checksum: bool, s: State)
    requires |s.buffer| >= 7
    ensures var r := ReadPhysical(crc, checksum, s);
            && (r.kind == EOF ==> r.state.drops == s.drops)
            && (r.kind == BAD_RECORD ==>
                  s.Size() + Sum(s.drops) == r.state.Size() + Sum(r.state.drops) + PassedOver(crc, checksum, s.buffer))
            && (r.kind != EOF && r.kind != BAD_RECORD ==>
                  && r.state.drops == s.drops
                  && s.Size() == r.state.Size() + |r.fragment| + PassedOver(crc, checksum, s.buffer))
  {
    hide Unmask, DecodeFixed32;
    assert Refill(s) == s;
    OneMoreDrop(s.(buffer := []), |s.buffer|);
  }

  lemma PhysicalIsAccounted(crc: Bytes -> Word, checksum: bool, st: State)
    ensures var r := ReadPhysical(crc, checksum, st);
            && (r.kind == EOF ==> r.state.drops == st.drops)
            && (r.kind == BAD_RECORD ==>
                  st.Size() + Sum(st.drops) == r.state.Size() + Sum(r.state.drops) + Silently(crc, checksum, st))
            && (r.kind != EOF && r.kind != BAD_RECORD ==>
                  && r.state.drops == st.drops
                  && st.Size() == r.state.Size() + |r.fragment| + Silently(crc, checksum, st))
  {
    RefillLosesTrailer(st);
    var s := Refill(st);
    if |s.buffer| >= 7 {
      SameAfterRefill(crc, checksum, st);
      hide ReadPhysical, PassedOver, Refill;
      BufferIsAccounted(crc, checksum, s);
    } else {
      assert ReadPhysical(crc, checksum, st).kind == EOF;
      assert ReadPhysical(crc, checksum, st).state.drops == st.drops;
      hide ReadPhysical, Refill;
    }
  }

  // ---------------------------------------------------------------- a whole file

  function Held(inFragment: bool, scratch: Bytes): nat {
    if inFragment then |scratch| else 0
  }

  lemma TurnIsAccounted(p: PhysicalRead, inFragment: bool, scratch: Bytes)
    requires p.kind != EOF
    ensures var t := TurnOf(p, inFragment, scratch);
            var got := if t.ends then |t.record.value| else 0;
            && t.state.Size() == p.state.Size()
            && (t.ends ==> t.record.Some? && !t.inFragment)
            && Sum(p.state.drops) + Held(inFragment, scratch) + (if p.kind == BAD_RECORD then 0 else |p.fragment|)
               == Sum(t.state.drops) + got + Held(t.inFragment, t.scratch)
  {
    hide Sum;
    OneMoreDrop(p.state, |scratch|);
    OneMoreDrop(p.state, |p.fragment|);
    OneMoreDrop(p.state, |p.fragment| + Held(inFragment, scratch));
  }

  /** All that has been reported when the reader has got to the end. */
  function ReportsFrom(crc: Bytes -> Word, checksum: bool, st: State, inFragment: bool, scratch: Bytes): seq<nat> {
    var r := ReadLogical(crc, checksum, st, inFragment, scratch);
    if r.record.None? then r.state.drops else ReadAll(crc, checksum, r.state).1.drops
  }

  /** The bytes passed over silently from here on. At the end these are what is left of the file and of a record. */
  function Silent(crc: Bytes -> Word, checksum: bool, st: State, inFragment: bool, scratch: Bytes): nat
    decreases st.Size()
  {
    var p := ReadPhysical(crc, checksum, st);
    if p.kind == EOF then st.Size() + Held(inFragment, scratch)
    else
      var t := TurnOf(p, inFragment, scratch);
      TurnIsAccounted(p, inFragment, scratch);
      Silently(crc, checksum, st) + Silent(crc, checksum, t.state, t.inFragment, t.scratch)
  }

  lemma TurnsGoOn(crc: Bytes -> Word, checksum: bool, st: State, inFragment: bool, scratch: Bytes)
    requires ReadPhysical(crc, checksum, st).kind != EOF
    ensures var t := TurnOf(ReadPhysical(crc, checksum, st), inFragment, scratch);
            var got := if t.ends then [t.record.value] else [];
            && ReadFrom(crc, checksum, st, inFragment, scratch) == got + ReadFrom(crc, checksum, t.state, t.inFragment, t.scratch)
            && ReportsFrom(crc, checksum, st, inFragment, scratch) == ReportsFrom(crc, checksum, t.state, t.inFragment, t.scratch)
  {
    hide ReadPhysical, ReadLogical;
    LogicalTurns(crc, checksum, st, inFragment, scratch);
    var t := TurnOf(ReadPhysical(crc, checksum, st), inFragment, scratch);
    AllIsFrom(crc, checksum, t.state);
    if !t.ends {
      assert [] + ReadFrom(crc, checksum, t.state, t.inFragment, t.scratch)
             == ReadFrom(crc, checksum, t.state, t.inFragment, t.scratch);
    }
  }

  lemma TurnsEnd(crc: Bytes -> Word, checksum: bool, st: State, inFragment: bool, scratch: Bytes)
    requires ReadPhysical(crc, checksum, st).kind == EOF
    ensures ReadFrom(crc, checksum, st, inFragment, scratch) == [] && ReportsFrom(crc, checksum, st, inFragment, scratch) == st.drops
  {
    PhysicalIsAccounted(crc, checksum, st);
    hide ReadPhysical, ReadLogical, ReadAll;
    LogicalTurns(crc, checksum, st, inFragment, scratch);
  }

  lemma {:induction false} RestIsAccounted(crc: Bytes -> Word, checksum: bool, st: State, inFragment: bool, scratch: Bytes)
    ensures st.Size() + Sum(st.drops) + Held(inFragment, scratch)
            == Lengths(ReadFrom(crc, checksum, st, inFragment, scratch)) + Sum(ReportsFrom(crc, checksum, st, inFragment, scratch))
               + Silent(crc, checksum, st, inFragment, scratch)
    decreases st.Size()
  {
    hide ReadPhysical, ReadFrom, ReportsFrom, TurnOf, Silently, Sum;
    var p := ReadPhysical(crc, checksum, st);
    if p.kind == EOF {
      TurnsEnd(crc, checksum, st, inFragment, scratch);
    } else {
      var t := TurnOf(p, inFragment, scratch);
      TurnsGoOn(crc, checksum, st, inFragment, scratch);
      PhysicalIsAccounted(crc, checksum, st);
      TurnIsAccounted(p, inFragment, scratch);
      RestIsAccounted(crc, checksum, t.state, t.inFragment, t.scratch);
      var rest := ReadFrom(crc, checksum, t.state, t.inFragment, t.scratch);
      if t.ends {
        assert ([t.record.value] + rest)[1..] == rest;
      } else {
        assert [] + rest == rest;
      }
    }
  }

  /** Of any file, damaged or not, every byte is in a record that was read, reported as dropped, or silently passed over
      as a header, trailer, zeros, a fragment of type 6, or what is left at the end. */
  lemma EveryByteIsAccounted(crc: Bytes -> Word, checksum: bool, file: Bytes)
    ensures var r := ReadAll(crc, checksum, Start(file));
            |file| == Lengths(r.0) + Sum(r.1.drops) + Silent(crc, checksum, Start(file), false, [])
  {
    hide Silent, Sum, ReadLogical;
    RestIsAccounted(crc, checksum, Start(file), false, []);
    AllIsFrom(crc, checksum, Start(file));
    NoReports();
  }

  lemma NoReports()
    ensures Sum([]) == 0
  {
  }
}
