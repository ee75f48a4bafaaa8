/**
 The write-ahead log and manifest file format (db/log_format.h, db/log_writer.cc,
 db/log_reader.cc): records are cut into fragments that never straddle a 32 KiB block,
 and the reader puts them together again.

 The checksum function is a parameter: nothing here depends on which function it is.
 */
module LogFormat {
  import opened InternalKeys
  import opened Coding

  const BLOCK_SIZE: nat := 32768
  const HEADER_SIZE: nat := 7

  const ZERO_TYPE: nat := 0
  const FULL_TYPE: nat := 1
  const FIRST_TYPE: nat := 2
  const MIDDLE_TYPE: nat := 3
  const LAST_TYPE: nat := 4

  // Two further results of reading a physical record
  const EOF: nat := 5
  const BAD_RECORD: nat := 6

  // ---------------------------------------------------------------- stored checksums

  const MASK_DELTA := 0xa282ead8

  /** Rotate right by 15 bits and add a constant. */
  function Mask(crc: Word): Word {
    (crc / 0x8000 + crc % 0x8000 * 0x2_0000 + MASK_DELTA) % 0x1_0000_0000
  }

  function Unmask(masked: Word): Word {
    var rot := (masked - MASK_DELTA) % 0x1_0000_0000;
    rot / 0x2_0000 + rot % 0x2_0000 * 0x8000
  }

  lemma UnmaskMask(crc: Word)
    ensures Unmask(Mask(crc)) == crc
  {
    var hi, lo := crc / 0x8000, crc % 0x8000;
    var rotated := hi + lo * 0x2_0000;
    assert (Mask(crc) - MASK_DELTA) % 0x1_0000_0000 == rotated;
    assert rotated / 0x2_0000 == lo && rotated % 0x2_0000 == hi;
  }

  lemma MaskUnmask(masked: Word)
    ensures Mask(Unmask(masked)) == masked
  {
    var rot := (masked - MASK_DELTA) % 0x1_0000_0000;
    var hi, lo := rot / 0x2_0000, rot % 0x2_0000;
    assert Unmask(masked) / 0x8000 == lo && Unmask(masked) % 0x8000 == hi;
  }

  // ---------------------------------------------------------------- what the writer puts into the file

  function Zeros(n: nat): (r: Bytes)
    ensures |r| == n
  {
    seq(n, _ => 0 as byte)
  }

  /** Checksum of type and payload, length and type of one fragment. */
  function Header(crc: Bytes -> Word, kind: nat, payload: Bytes): (r: Bytes)
    requires kind <= LAST_TYPE && |payload| <= 0xffff
    ensures |r| == HEADER_SIZE
  {
    EncodeFixed32(Mask(crc([kind as byte] + payload)))
    + [(|payload| % 256) as byte, (|payload| / 256) as byte, kind as byte]
  }

  function Physical(crc: Bytes -> Word, kind: nat, payload: Bytes): (r: Bytes)
    requires kind <= LAST_TYPE && |payload| <= 0xffff
    ensures |r| == HEADER_SIZE + |payload|
  {
    Header(crc, kind, payload) + payload
  }

  function FragmentType(begin: bool, end: bool): (kind: nat)
    ensures FULL_TYPE <= kind <= LAST_TYPE
  {
    if begin && end then FULL_TYPE else if begin then FIRST_TYPE else if end then LAST_TYPE else MIDDLE_TYPE
  }

  /** How much of a record goes into a block from offset on. */
  function FragmentLength(offset: nat, left: nat): (n: nat)
    requires offset + HEADER_SIZE <= BLOCK_SIZE
    ensures n <= left && offset + HEADER_SIZE + n <= BLOCK_SIZE
    ensures n < left ==> offset + HEADER_SIZE + n == BLOCK_SIZE
  {
    var avail := BLOCK_SIZE - offset - HEADER_SIZE;
    if left < avail then left else avail
  }

  // Emitting an empty fragment at the end of a block is followed by a fragment with data.
  function Turns(offset: nat): nat {
    if offset == 0 then 0 else if offset + HEADER_SIZE > BLOCK_SIZE then 1 else 2
  }

  /** The bytes one record adds to a file whose last block is filled up to offset. */
  function Encoded(crc: Bytes -> Word, offset: nat, data: Bytes, begin: bool): (r: Bytes)
    requires offset <= BLOCK_SIZE
    ensures |r| >= HEADER_SIZE
    decreases |data|, Turns(offset)
  {
    if offset + HEADER_SIZE > BLOCK_SIZE then
      Zeros(BLOCK_SIZE - offset) + Encoded(crc, 0, data, begin)
    else
      var n := FragmentLength(offset, |data|);
      if n == |data| then
        Physical(crc, FragmentType(begin, true), data)
      else
        Physical(crc, FragmentType(begin, false), data[..n]) + Encoded(crc, BLOCK_SIZE, data[n..], false)
  }

  /** A file holding exactly these records. */
  function File(crc: Bytes -> Word, records: seq<Bytes>): Bytes {
    if records == [] then []
    else
      var before := File(crc, records[..|records| - 1]);
      before + Encoded(crc, |before| % BLOCK_SIZE, records[|records| - 1], true)
  }

  lemma NoZeros()
    ensures Zeros(0) == []
  {
  }

  lemma EncodedPads(crc: Bytes -> Word, offset: nat, data: Bytes, begin: bool)
    requires offset <= BLOCK_SIZE < offset + HEADER_SIZE
    ensures Encoded(crc, offset, data, begin) == Zeros(BLOCK_SIZE - offset) + Encoded(crc, 0, data, begin)
  {
    hide Physical;
  }

  lemma EncodedStep(crc: Bytes -> Word, offset: nat, data: Bytes, begin: bool)
    requires offset + HEADER_SIZE <= BLOCK_SIZE
    ensures var n := FragmentLength(offset, |data|);
            Encoded(crc, offset, data, begin)
            == Physical(crc, FragmentType(begin, n == |data|), data[..n])
               + if n == |data| then [] else Encoded(crc, BLOCK_SIZE, data[n..], false)
  {
    hide Physical;
    assert data[..|data|] == data;
  }

  lemma Regroup(a: Bytes, b: Bytes, c: Bytes)
    ensures a + (b + c) == (a + b) + c
    ensures b == [] ==> a + c == a + b + c
  {
  }

  lemma FileGrows(crc: Bytes -> Word, records: seq<Bytes>, record: Bytes)
    ensures var file := File(crc, records);
            File(crc, records + [record]) == file + Encoded(crc, |file| % BLOCK_SIZE, record, true)
  {
    hide Encoded;
    assert (records + [record])[..|records|] == records;
  }

  class Writer {
    const crc: Bytes -> Word
    var dest: Bytes
    var blockOffset: nat

    ghost predicate Valid()
      reads this
    {
      blockOffset <= BLOCK_SIZE && blockOffset % BLOCK_SIZE == |dest| % BLOCK_SIZE
    }

    /** Writer(dest, dest_length): goes on at the end of what is already there. */
    constructor (crc: Bytes -> Word, dest: Bytes)
      ensures Valid() && this.dest == dest && this.crc == crc
    {
      this.crc, this.dest := crc, dest;
      blockOffset := |dest| % BLOCK_SIZE;
    }

    method EmitPhysicalRecord(kind: nat, payload: Bytes)
      requires Valid() && kind <= LAST_TYPE && blockOffset + HEADER_SIZE + |payload| <= BLOCK_SIZE
      modifies this
      ensures Valid() && blockOffset == old(blockOffset) + HEADER_SIZE + |payload|
      ensures dest == old(dest) + Physical(crc, kind, payload)
    {
      hide Header;
      Regroup(dest, Header(crc, kind, payload), payload);
      dest := dest + Header(crc, kind, payload);
      dest := dest + payload;
      blockOffset := blockOffset + HEADER_SIZE + |payload|;
    }

    /** Too little of the block is left for a header: zeros fill it up. */
    method SwitchBlock()
      requires Valid() && blockOffset <= BLOCK_SIZE < blockOffset + HEADER_SIZE
      modifies this
      ensures Valid() && blockOffset == 0 && dest == old(dest) + Zeros(BLOCK_SIZE - old(blockOffset))
    {
      hide Zeros;
      var leftover := BLOCK_SIZE - blockOffset;
      if leftover > 0 {
        dest := dest + Zeros(leftover);
      } else {
        NoZeros();
      }
      blockOffset := 0;
    }

    method AddRecord(slice: Bytes)
      requires Valid()
      modifies this
      ensures Valid()
      ensures dest == old(dest) + Encoded(crc, old(|dest|) % BLOCK_SIZE, slice, true)
      ensures forall records :: File(crc, records) == old(dest) ==> dest == File(crc, records + [slice])
    {
      hide Encoded, Physical, Zeros, File, FragmentType, FragmentLength;
      ghost var todo := Encoded(crc, blockOffset, slice, true);
      if blockOffset == BLOCK_SIZE {
        EncodedPads(crc, blockOffset, slice, true);
        NoZeros();
      }
      assert todo == Encoded(crc, |dest| % BLOCK_SIZE, slice, true);
      ghost var target := dest + todo;
      var left, begin, more := slice, true, true;
      while more
        invariant Valid()
        invariant todo == if more then Encoded(crc, blockOffset, left, begin) else []
        invariant target == dest + todo
        decreases more, |left|, Turns(blockOffset)
      {
        if BLOCK_SIZE - blockOffset < HEADER_SIZE {
          EncodedPads(crc, blockOffset, left, begin);
          todo := Encoded(crc, 0, left, begin);
          Regroup(dest, Zeros(BLOCK_SIZE - blockOffset), todo);
          SwitchBlock();
        }
        var fragmentLength := FragmentLength(blockOffset, |left|);
        var end := |left| == fragmentLength;
        EncodedStep(crc, blockOffset, left, begin);
        todo := if end then [] else Encoded(crc, BLOCK_SIZE, left[fragmentLength..], false);
        Regroup(dest, Physical(crc, FragmentType(begin, end), left[..fragmentLength]), todo);
        EmitPhysicalRecord(FragmentType(begin, end), left[..fragmentLength]);
        left, begin := left[fragmentLength..], false;
        more := |left| > 0;
      }
      forall records | File(crc, records) == old(dest)
        ensures dest == File(crc, records + [slice])
      {
        FileGrows(crc, records, slice);
      }
    }
  }
}
