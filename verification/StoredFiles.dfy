/**
 Logs and manifests in bytes: what a crash leaves of a log file stands for the first of its
 batches, and a manifest file for its edits, so that recovery may be stated over batches
 and edits.
 */
module StoredFiles {
  import opened InternalKeys
  import opened Coding
  import opened Versions
  import opened Comparators
  import opened VersionEdits
  import opened Database
  import opened WriteSteps
  import opened Engine
  import LogFormat
  import LogReader
  import WriteBatches
  import EditCodec
  import StoredTables

  // ---------------------------------------------------------------- a log record is a batch

  function AsOperation(op: WriteBatches.Op): Operation {
    match op
    case Put(key, value) => Operation.Put(Position(key), value)
    case Delete(key) => Operation.Delete(Position(key))
  }

  ghost predicate OpsAre(ops: seq<WriteBatches.Op>, batch: Batch) {
    && |batch.entries| == |ops|
    && forall i :: 0 <= i < |ops| ==> batch.entries[i] == ToEntry(AsOperation(ops[i]), batch.first + i)
  }

  /** The bytes are those of this batch. */
  ghost predicate RecordOf(b: Bytes, batch: Batch) {
    exists ops :: WriteBatches.IsBatch(b, batch.first, ops) && OpsAre(ops, batch)
  }

  /** Iterating over a record's bytes, as recovery does, gives the entries of its batch. */
  lemma RecordReads(b: Bytes, batch: Batch)
    requires RecordOf(b, batch)
    ensures WriteBatches.Iterated(b).status == WriteBatches.Ok && OpsAre(WriteBatches.Iterated(b).ops, batch)
    ensures |b| >= WriteBatches.HEADER && DecodeFixed64(b) == batch.first && (batch.first > 0 ==> Stamped(batch.entries, batch.first - 1))
  {
    hide WriteBatches.IsBatch, WriteBatches.Iterated, DecodeFixed64;
    var ops :| WriteBatches.IsBatch(b, batch.first, ops) && OpsAre(ops, batch);
    WriteBatches.BatchReads(b, batch.first, ops);
    WriteBatches.HeaderReads(b, batch.first, ops);
  }

  /** So a record stands for one batch only. */
  lemma RecordTells(b: Bytes, x: Batch, y: Batch)
    requires RecordOf(b, x) && RecordOf(b, y)
    ensures x == y
  {
    hide RecordOf, WriteBatches.Iterated, DecodeFixed64;
    RecordReads(b, x);
    RecordReads(b, y);
    assert x.entries == y.entries;
  }

  ghost predicate RecordsOf(records: seq<Bytes>, batches: seq<Batch>) {
    |records| == |batches| && forall i :: 0 <= i < |records| ==> RecordOf(records[i], batches[i])
  }

  /** A log file cut anywhere reads as the batches that end before the cut, with no corruption reported. */
  lemma CutLogGivesBatches(crc: Bytes -> Word, checksum: bool, records: seq<Bytes>, batches: seq<Batch>, cut: nat, read: seq<Batch>)
    requires RecordsOf(records, batches) && cut <= |LogFormat.File(crc, records)|
    requires RecordsOf(LogReader.ReadAll(crc, checksum, LogReader.Start(LogFormat.File(crc, records)[..cut])).0, read)
    ensures exists k: nat :: LogReader.WholeBefore(crc, records, cut, k) && read == batches[..k]
    ensures cut == |LogFormat.File(crc, records)| ==> read == batches
    ensures LogReader.ReadAll(crc, checksum, LogReader.Start(LogFormat.File(crc, records)[..cut])).1.drops == []
  {
    hide LogReader.ReadAll, RecordOf, LogFormat.File;
    LogReader.CutLogReadsBack(crc, checksum, records, cut);
    var got := LogReader.ReadAll(crc, checksum, LogReader.Start(LogFormat.File(crc, records)[..cut])).0;
    var k: nat :| LogReader.WholeBefore(crc, records, cut, k) && got == records[..k];
    WholeIsWithin(crc, records, cut, k);
    SameBatches(records[..k], batches[..k], read);
    if got == records {
      SameBatches(records, batches, read);
    }
  }

  lemma WholeIsWithin(crc: Bytes -> Word, records: seq<Bytes>, cut: nat, k: nat)
    requires LogReader.WholeBefore(crc, records, cut, k)
    ensures k <= |records|
  {
  }

  lemma SameBatches(records: seq<Bytes>, x: seq<Batch>, y: seq<Batch>)
    requires RecordsOf(records, x) && RecordsOf(records, y)
    ensures x == y
  {
    hide RecordOf;
    forall i | 0 <= i < |x|
      ensures x[i] == y[i]
    {
      RecordTells(records[i], x[i], y[i]);
    }
  }

  // ---------------------------------------------------------------- a manifest record is an edit

  /** The bytes of an edit, with some order of its deleted files. */
  ghost predicate EncodedEdit(b: Bytes, r: EditCodec.Record) {
    EditCodec.RecordFits(r)
    && exists order :: EditCodec.IsOrder(order, r.deletedFiles) && b == EditCodec.AllEncoded(EditCodec.Items(r, order))
  }

  lemma EditIsRead(b: Bytes, r: EditCodec.Record)
    requires EncodedEdit(b, r)
    ensures EditCodec.Decoded(EditCodec.FRESH, b, 0) == (r, true)
  {
    hide EditCodec.RecordFits, EditCodec.Decoded, EditCodec.IsOrder, EditCodec.AllEncoded, EditCodec.Items;
    var order :| EditCodec.IsOrder(order, r.deletedFiles) && b == EditCodec.AllEncoded(EditCodec.Items(r, order));
    EditCodec.DecodeRecovers(r, order, EditCodec.FRESH);
  }

  /** A manifest file, cut anywhere, gives the edits that end before the cut, each decoded into a fresh object. */
  lemma CutManifestGivesEdits(crc: Bytes -> Word, checksum: bool, records: seq<Bytes>, edits: seq<EditCodec.Record>, cut: nat)
    requires |records| == |edits| && (forall i :: 0 <= i < |records| ==> EncodedEdit(records[i], edits[i]))
    requires cut <= |LogFormat.File(crc, records)|
    ensures var got := LogReader.ReadAll(crc, checksum, LogReader.Start(LogFormat.File(crc, records)[..cut])).0;
            && (exists k: nat :: LogReader.WholeBefore(crc, records, cut, k) && |got| == k)
            && |got| <= |edits| && (cut == |LogFormat.File(crc, records)| ==> |got| == |edits|)
            && forall i :: 0 <= i < |got| ==> EditCodec.Decoded(EditCodec.FRESH, got[i], 0) == (edits[i], true)
  {
    hide LogReader.ReadAll, EncodedEdit, LogFormat.File, EditCodec.Decoded;
    LogReader.CutLogReadsBack(crc, checksum, records, cut);
    var got := LogReader.ReadAll(crc, checksum, LogReader.Start(LogFormat.File(crc, records)[..cut])).0;
    var k: nat :| LogReader.WholeBefore(crc, records, cut, k) && got == records[..k];
    WholeIsWithin(crc, records, cut, k);
    forall i | 0 <= i < |got|
      ensures EditCodec.Decoded(EditCodec.FRESH, got[i], 0) == (edits[i], true)
    {
      EditIsRead(records[i], edits[i]);
    }
  }

  /** The encoded key is that of this internal key. */
  ghost predicate KeyOf(b: Bytes, k: IKey) {
    exists s :: k.sn <= MAX_SEQUENCE && Position(s) == k.key && b == StoredTables.InternalBytes(s, k.sn, k.kind)
  }

  lemma KeyTells(b: Bytes, x: IKey, y: IKey)
    requires KeyOf(b, x) && KeyOf(b, y)
    ensures x == y
  {
    hide StoredTables.InternalBytes;
    var s :| x.sn <= MAX_SEQUENCE && Position(s) == x.key && b == StoredTables.InternalBytes(s, x.sn, x.kind);
    var t :| y.sn <= MAX_SEQUENCE && Position(t) == y.key && b == StoredTables.InternalBytes(t, y.sn, y.kind);
    StoredTables.InternalParts(s, x.sn, x.kind);
    StoredTables.InternalParts(t, y.sn, y.kind);
    hide Position;
    CompareIsLess(x, y);
  }

  /** A manifest record says what an edit of the version model says; a table's entries are in its own file. */
  ghost predicate Describes(r: EditCodec.Record, edit: Edit, tables: map<nat, File>) {
    && r.logNumber == edit.logNumber && r.nextFileNumber == edit.nextFile && r.lastSequence == edit.lastSequence
    && r.deletedFiles == (set p | p in edit.deleted :: EditCodec.Deleted(p.0, p.1))
    && |r.newFiles| == |edit.added|
    && forall i :: 0 <= i < |r.newFiles| ==> DescribesFile(r.newFiles[i], edit.added[i], tables)
  }

  ghost predicate DescribesFile(n: EditCodec.NewFile, added: (nat, File), tables: map<nat, File>) {
    && n.level == added.0 && n.number == added.1.number && n.size == added.1.size
    && KeyOf(n.smallest, added.1.smallest) && KeyOf(n.largest, added.1.largest)
    && n.number in tables && tables[n.number].entries == added.1.entries
  }

  /** With the tables at hand a record stands for one edit only. */
  lemma RecordIsOneEdit(r: EditCodec.Record, x: Edit, y: Edit, tables: map<nat, File>)
    requires Describes(r, x, tables) && Describes(r, y, tables)
    ensures x == y
  {
    hide KeyOf;
    forall i | 0 <= i < |x.added|
      ensures x.added[i] == y.added[i]
    {
      assert DescribesFile(r.newFiles[i], x.added[i], tables) && DescribesFile(r.newFiles[i], y.added[i], tables);
      KeyTells(r.newFiles[i].smallest, x.added[i].1.smallest, y.added[i].1.smallest);
      KeyTells(r.newFiles[i].largest, x.added[i].1.largest, y.added[i].1.largest);
    }
    forall p
      ensures p in x.deleted <==> p in y.deleted
    {
      assert p in x.deleted <==> EditCodec.Deleted(p.0, p.1) in r.deletedFiles;
      assert p in y.deleted <==> EditCodec.Deleted(p.0, p.1) in r.deletedFiles;
    }
  }
}
