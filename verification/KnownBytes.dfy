/**
 Examples of the formats byte by byte. That what is written is read back would also hold of
 formats with other tags, sizes and byte orders; files that exist have these.
 */
module KnownBytes {
  import opened InternalKeys
  import opened Coding
  import LogFormat
  import WriteBatches
  import EditCodec
  import Blocks
  import StoredTables
  import TableFormat
  import Filters
  import TableFiles
  import opened Comparators

  /** Words are stored lowest byte first. */
  lemma FixedBytes()
    ensures EncodeFixed32(0x04030201) == [0x01, 0x02, 0x03, 0x04]
    ensures EncodeFixed64(0x0807060504030201) == [0x01, 0x02, 0x03, 0x04, 0x05, 0x06, 0x07, 0x08]
  {
    assert 0x0807060504030201 % TWO_32 == 0x04030201 && 0x0807060504030201 / TWO_32 == 0x08070605;
    assert EncodeFixed32(0x08070605) == [0x05, 0x06, 0x07, 0x08];
  }

  /** Varints have seven bits in a byte, the lowest first, and the high bit where more follow. */
  lemma VarintBytes()
    ensures EncodeVarint(127) == [0x7f] && EncodeVarint(128) == [0x80, 0x01] && EncodeVarint(300) == [0xac, 0x02]
  {
    assert EncodeVarint(1) == [0x01] && EncodeVarint(2) == [0x02];
  }

  const PUT := WriteBatches.Put([102, 111, 111], [104, 105])
  const DELETE := WriteBatches.Delete([98])

  lemma OpBytes()
    ensures WriteBatches.Encoded(PUT) == [1, 3, 102, 111, 111, 2, 104, 105] && WriteBatches.Encoded(DELETE) == [0, 1, 98]
  {
    assert EncodeVarint(3) == [3] && EncodeVarint(2) == [2] && EncodeVarint(1) == [1];
    assert LengthPrefixed([102, 111, 111]) == [3, 102, 111, 111];
    assert LengthPrefixed([104, 105]) == [2, 104, 105] && LengthPrefixed([98]) == [1, 98];
  }

  lemma OpsBytes()
    ensures WriteBatches.AllEncoded([PUT, DELETE]) == [1, 3, 102, 111, 111, 2, 104, 105, 0, 1, 98]
  {
    hide WriteBatches.Encoded;
    OpBytes();
    assert [PUT, DELETE][..1] == [PUT] && [PUT][..0] == [];
    assert WriteBatches.AllEncoded([PUT]) == [] + WriteBatches.Encoded(PUT) == WriteBatches.Encoded(PUT);
    assert [1, 3, 102, 111, 111, 2, 104, 105] + [0, 1, 98] == [1, 3, 102, 111, 111, 2, 104, 105, 0, 1, 98];
  }

  /** A value and a deletion in a batch at sequence number 100. */
  lemma BatchBytes()
    ensures WriteBatches.IsBatch([100, 0, 0, 0, 0, 0, 0, 0, 2, 0, 0, 0, 1, 3, 102, 111, 111, 2, 104, 105, 0, 1, 98], 100, [PUT, DELETE])
  {
    hide WriteBatches.AllEncoded;
    OpsBytes();
    assert EncodeFixed32(100) == [100, 0, 0, 0] && EncodeFixed32(0) == [0, 0, 0, 0] && EncodeFixed32(2) == [2, 0, 0, 0];
    assert EncodeFixed64(100) == [100, 0, 0, 0, 0, 0, 0, 0];
    hide EncodeFixed64, EncodeFixed32;
    assert [100, 0, 0, 0, 0, 0, 0, 0] + [2, 0, 0, 0] + [1, 3, 102, 111, 111, 2, 104, 105, 0, 1, 98]
           == [100, 0, 0, 0, 0, 0, 0, 0, 2, 0, 0, 0, 1, 3, 102, 111, 111, 2, 104, 105, 0, 1, 98];
  }

  /** The fields of a manifest record. */
  lemma EditBytes()
    ensures EditCodec.Encoded(EditCodec.Comparator([97, 98])) == [1, 2, 97, 98]
    ensures EditCodec.Encoded(EditCodec.Numbered(EditCodec.LogNumber, 300)) == [2, 0xac, 0x02]
    ensures EditCodec.Encoded(EditCodec.Numbered(EditCodec.NextFileNumber, 7)) == [3, 7]
    ensures EditCodec.Encoded(EditCodec.Numbered(EditCodec.LastSequence, 8)) == [4, 8]
    ensures EditCodec.Encoded(EditCodec.CompactPointer(EditCodec.Pointer(5, [97]))) == [5, 5, 1, 97]
    ensures EditCodec.Encoded(EditCodec.DeletedFile(EditCodec.Deleted(2, 9))) == [6, 2, 9]
    ensures EditCodec.Encoded(EditCodec.AddedFile(EditCodec.NewFile(3, 10, 11, [97], [98]))) == [7, 3, 10, 11, 1, 97, 1, 98]
    ensures EditCodec.Encoded(EditCodec.Numbered(EditCodec.PrevLogNumber, 6)) == [9, 6]
  {
    VarintBytes();
    assert forall n: nat :: n < 12 ==> EncodeVarint(n) == [n as byte];
    assert LengthPrefixed([97]) == [1, 97] && LengthPrefixed([98]) == [1, 98] && LengthPrefixed([97, 98]) == [2, 97, 98];
    assert [3] + ([10] + ([11] + ([1, 97] + [1, 98]))) == [3, 10, 11, 1, 97, 1, 98];
    assert [7] + [3, 10, 11, 1, 97, 1, 98] == [7, 3, 10, 11, 1, 97, 1, 98];
    assert [5] + ([5] + [1, 97]) == [5, 5, 1, 97] && [6] + ([2] + [9]) == [6, 2, 9];
  }

  /** A user key and its tag: the type is the lowest byte, the sequence number is above it. */
  lemma InternalKeyBytes()
    ensures StoredTables.InternalBytes([97], 3, Value) == [97, 1, 3, 0, 0, 0, 0, 0, 0]
    ensures StoredTables.InternalBytes([97], 258, Deletion) == [97, 0, 2, 1, 0, 0, 0, 0, 0]
  {
    assert Pack(3, Value) == 0x301 && Pack(258, Deletion) == 0x10200;
    assert EncodeFixed32(0x301) == [1, 3, 0, 0] && EncodeFixed32(0x10200) == [0, 2, 1, 0] && EncodeFixed32(0) == [0, 0, 0, 0];
    assert EncodeFixed64(0x301) == [1, 3, 0, 0] + [0, 0, 0, 0] && EncodeFixed64(0x10200) == [0, 2, 1, 0] + [0, 0, 0, 0];
  }

  /** Two entries of a block: lengths of the shared prefix, of the rest of the key and of the value; rest; value. */
  lemma BlockBytes()
    ensures Blocks.EncodeEntry(0, Blocks.KeyValue([97, 98], [49])) == [0, 2, 1, 97, 98, 49]
    ensures Blocks.EncodeEntry(1, Blocks.KeyValue([97, 99], [50, 51])) == [1, 1, 2, 99, 50, 51]
  {
    assert EncodeVarint(0) == [0] && EncodeVarint(1) == [1] && EncodeVarint(2) == [2];
    hide EncodeVarint;
    assert [97, 98][0..] == [97, 98] && [97, 99][1..] == [99];
    assert [0] + [2] + [1] + [97, 98] + [49] == [0, 2, 1, 97, 98, 49];
    assert [1] + [1] + [2] + [99] + [50, 51] == [1, 1, 2, 99, 50, 51];
  }

  /** The restart array of a block: offsets in words. */
  lemma RestartBytes()
    ensures Blocks.RestartArray([0, 258]) == [0, 0, 0, 0, 2, 1, 0, 0]
  {
    assert EncodeFixed32(0) == [0, 0, 0, 0] && EncodeFixed32(258) == [2, 1, 0, 0];
    assert [0, 258][..1] == [0] && [0][..0] == [];
    assert Blocks.RestartArray([0]) == [] + [0, 0, 0, 0] == [0, 0, 0, 0];
  }

  /** The last eight of a table file's 48 bytes of footer. */
  lemma FooterBytes(meta: TableFormat.Handle, index: TableFormat.Handle)
    requires TableFormat.InWords(meta) && TableFormat.InWords(index)
    ensures var b := TableFormat.EncodeFooter(meta, index);
            |b| == 48 && b[40..] == [0x57, 0xfb, 0x80, 0x8b, 0x24, 0x75, 0x47, 0xdb]
  {
    TableFormat.FooterParts(meta, index);
    assert EncodeFixed32(0x8b80fb57) == [0x57, 0xfb, 0x80, 0x8b] && EncodeFixed32(0xdb477524) == [0x24, 0x75, 0x47, 0xdb];
  }

  /** A fragment of a log: masked checksum of type and payload, length, type, payload. Types 1 to 4 stand for a whole
      record, its first, a middle and its last fragment. */
  lemma FragmentBytes(crc: Bytes -> Word)
    ensures LogFormat.Mask(0) == 0xa282ead8 && LogFormat.Mask(1) == 0xa284ead8 && LogFormat.Mask(0x8000) == 0xa282ead9
    ensures LogFormat.Physical(crc, LogFormat.FragmentType(true, true), [7, 8])
            == EncodeFixed32(LogFormat.Mask(crc([1, 7, 8]))) + [2, 0, 1, 7, 8]
    ensures LogFormat.FragmentType(true, false) == 2 && LogFormat.FragmentType(false, false) == 3
    ensures LogFormat.FragmentType(false, true) == 4
  {
    assert [1] + [7, 8] == [1, 7, 8];
    assert [2, 0, 1] + [7, 8] == [2, 0, 1, 7, 8];
  }

  /** A record of 40000 bytes in a new file: a first fragment that fills the 32768 bytes of a block, and a last one. */
  lemma LongRecord(crc: Bytes -> Word, data: Bytes)
    requires |data| == 40000
    ensures var f := LogFormat.Encoded(crc, 0, data, true);
            && |f| == 40014 && f[7..32768] == data[..32761] && f[32775..] == data[32761..]
            && f[4..7] == [0xf9, 0x7f, 2] && f[32772..32775] == [0x47, 0x1c, 4]
  {
    hide LogFormat.Physical, LogFormat.Encoded;
    LongParts(crc, data);
    HeaderEnds(crc, 2, data[..32761]);
    HeaderEnds(crc, 4, data[32761..]);
    Halves(LogFormat.Physical(crc, 2, data[..32761]), LogFormat.Physical(crc, 4, data[32761..]));
  }

  lemma LongParts(crc: Bytes -> Word, data: Bytes)
    requires |data| == 40000
    ensures LogFormat.Encoded(crc, 0, data, true)
            == LogFormat.Physical(crc, 2, data[..32761]) + LogFormat.Physical(crc, 4, data[32761..])
  {
    hide LogFormat.Encoded, LogFormat.Physical, LogFormat.Zeros;
    LogFormat.EncodedStep(crc, 0, data, true);
    LogFormat.EncodedPads(crc, 32768, data[32761..], false);
    LogFormat.EncodedStep(crc, 0, data[32761..], false);
    LogFormat.NoZeros();
    assert data[32761..][..7239] == data[32761..];
    var last := LogFormat.Physical(crc, 4, data[32761..]);
    assert last + [] == last && [] + last == last;
  }

  lemma Halves(a: Bytes, b: Bytes)
    requires |a| == 32768 && |b| >= 7
    ensures (a + b)[4..7] == a[4..7] && (a + b)[7..32768] == a[7..]
    ensures (a + b)[32772..32775] == b[4..7] && (a + b)[32775..] == b[7..]
  {
  }

  lemma HeaderEnds(crc: Bytes -> Word, kind: nat, payload: Bytes)
    requires kind <= LogFormat.LAST_TYPE && |payload| <= 0xffff
    ensures var p := LogFormat.Physical(crc, kind, payload);
            |p| == 7 + |payload| && p[4..7] == [(|payload| % 256) as byte, (|payload| / 256) as byte, kind as byte] && p[7..] == payload
  {
    Fixed32Size(LogFormat.Mask(crc([kind as byte] + payload)));
    hide LogFormat.Mask, EncodeFixed32;
  }

  /** Where the probes of a hash value go: each is one more rotation of it by 17 bits further on, in 32 bits. */
  lemma ProbePlaces()
    ensures Filters.Delta(0x12345678) == 0x2b3c_091a
    ensures Filters.Probe(0x12345678, 0) == 0x12345678 && Filters.Probe(0x12345678, 1) == 0x3d70_5f92
    ensures Filters.Probe(0x12345678, 6) == 0x159c_8d14
  {
  }

  /** The index keys after "hello" with "jelly" next, and after "hello" at the end: "i" with the largest sequence number.
      Where nothing shorter lies between, the key itself stays. */
  lemma IndexKeys(h: TableFormat.Handle)
    ensures var hello := StoredTables.Stored([104, 101, 108, 108, 111], 5, Value, []);
            && TableFiles.Between(hello, StoredTables.Stored([106, 101, 108, 108, 121], 6, Value, []), h)
               == TableFiles.Named([105], MAX_SEQUENCE, Value, h)
            && TableFiles.After(hello, h) == TableFiles.Named([105], MAX_SEQUENCE, Value, h)
            && TableFiles.Between(hello, StoredTables.Stored([105], 6, Value, []), h) == TableFiles.Named(hello.userKey, 5, Value, h)
  {
    hide Position;
    FirstByteOrders([104, 101, 108, 108, 111], [105]);
  }

  lemma FirstByteOrders(a: Bytes, b: Bytes)
    requires a != [] && b != [] && a[0] < b[0]
    ensures Position(a) < Position(b)
  {
    hide Position;
    PositionIsOrder(a, b);
  }
}
