/**
 The frame of a table file (table/format.cc, WriteRawBlock in table/table_builder.cc): block
 handles, blocks sealed with their type and a checksum, and the footer.
 */
module TableFormat {
  import opened InternalKeys
  import opened Coding
  import LogFormat
  import opened Tables

  // ---------------------------------------------------------------- handles

  datatype Handle = Handle(offset: nat, size: nat)

  predicate InWords(h: Handle) {
    h.offset < TWO_64 && h.size < TWO_64
  }

  /** BlockHandle::EncodeTo. */
  function EncodeHandle(h: Handle): Bytes {
    EncodeVarint(h.offset) + EncodeVarint(h.size)
  }

  datatype ParsedHandle = ParsedHandle(handle: Handle, next: nat)

  /** BlockHandle::DecodeFrom. */
  function DecodeHandle(b: Bytes, p: nat): Option<ParsedHandle> {
    var offset := GetVarint64(b, p, |b|);
    if offset.None? then None else
    var size := GetVarint64(b, offset.value.next, |b|);
    if size.None? then None else Some(ParsedHandle(Handle(offset.value.value, size.value.value), size.value.next))
  }

  lemma HandleReads(b: Bytes, p: nat, h: Handle)
    requires InWords(h) && Holds(b, p, |b|, EncodeHandle(h))
    ensures DecodeHandle(b, p) == Some(ParsedHandle(h, p + |EncodeHandle(h)|))
  {
    hide Holds, EncodeVarint, GetVarint64;
    HoldsParts(b, p, |b|, EncodeVarint(h.offset), EncodeVarint(h.size));
    VarintRoundTrip(b, p, |b|, h.offset);
    VarintRoundTrip(b, p + |EncodeVarint(h.offset)|, |b|, h.size);
  }

  lemma {:induction false} VarintSize(v: nat, k: nat)
    requires k > 0 && v < Pow128(k)
    ensures |EncodeVarint(v)| <= k
  {
    if v >= 128 {
      assert Pow128(1) == 128;
      VarintSize(v / 128, k - 1);
    }
  }

  const MAX_HANDLE: nat := 20

  lemma HandleSize(h: Handle)
    requires InWords(h)
    ensures |EncodeHandle(h)| <= MAX_HANDLE
  {
    hide EncodeVarint;
    PowersOf128();
    VarintSize(h.offset, 10);
    VarintSize(h.size, 10);
  }

  // ---------------------------------------------------------------- the footer

  const FOOTER_SIZE: nat := 2 * MAX_HANDLE + 8
  const MAGIC_LOW: Word := 0x8b80_fb57
  const MAGIC_HIGH: Word := 0xdb47_7524

  function Handles(meta: Handle, index: Handle): Bytes {
    EncodeHandle(meta) + EncodeHandle(index)
  }

  function Magic(): Bytes {
    EncodeFixed32(MAGIC_LOW) + EncodeFixed32(MAGIC_HIGH)
  }

  /** Footer::EncodeTo: the handles, padding and the magic number. */
  function EncodeFooter(meta: Handle, index: Handle): (r: Bytes)
    requires InWords(meta) && InWords(index)
    ensures |r| == FOOTER_SIZE
  {
    HandleSize(meta);
    HandleSize(index);
    Handles(meta, index) + (LogFormat.Zeros(2 * MAX_HANDLE - |Handles(meta, index)|) + Magic())
  }

  /** Footer::DecodeFrom: the handles of the metaindex block and of the index block. */
  function DecodeFooter(b: Bytes): Option<(Handle, Handle)>
    requires |b| == FOOTER_SIZE
  {
    var magic := b[FOOTER_SIZE - 8..];
    if DecodeFixed32(magic) != MAGIC_LOW || DecodeFixed32(magic[4..]) != MAGIC_HIGH then None
    else
      var meta := DecodeHandle(b, 0);
      if meta.None? then None else
      var index := DecodeHandle(b, meta.value.next);
      if index.None? then None else Some((meta.value.handle, index.value.handle))
  }

  lemma MagicReads()
    ensures |Magic()| == 8 && DecodeFixed32(Magic()) == MAGIC_LOW && DecodeFixed32(Magic()[4..]) == MAGIC_HIGH
  {
    hide DecodeFixed32, EncodeFixed32;
    var low, high := EncodeFixed32(MAGIC_LOW), EncodeFixed32(MAGIC_HIGH);
    Fixed32Size(MAGIC_LOW);
    Fixed32Size(MAGIC_HIGH);
    Fixed32RoundTrip(MAGIC_LOW, high);
    Fixed32RoundTrip(MAGIC_HIGH, []);
    assert Magic()[4..] == high == high + [];
  }

  lemma FooterParts(meta: Handle, index: Handle)
    requires InWords(meta) && InWords(index)
    ensures var b := EncodeFooter(meta, index);
            b[FOOTER_SIZE - 8..] == Magic() && Holds(b, 0, |b|, Handles(meta, index))
  {
    hide Magic, EncodeHandle;
    MagicReads();
  }

  /** A footer is read back. */
  lemma FooterReads(meta: Handle, index: Handle)
    requires InWords(meta) && InWords(index)
    ensures DecodeFooter(EncodeFooter(meta, index)) == Some((meta, index))
  {
    hide Holds, EncodeHandle, DecodeHandle, EncodeFooter, Magic, DecodeFixed32;
    var b := EncodeFooter(meta, index);
    FooterParts(meta, index);
    MagicReads();
    HoldsParts(b, 0, |b|, EncodeHandle(meta), EncodeHandle(index));
    HandleReads(b, 0, meta);
    HandleReads(b, |EncodeHandle(meta)|, index);
  }

  // ---------------------------------------------------------------- sealed blocks

  /** WriteRawBlock of an uncompressed block: contents, type and checksum of both. */
  function Sealed(crc: Bytes -> Word, contents: Bytes): (r: Bytes)
    ensures |r| == |contents| + TRAILER_SIZE
  {
    Fixed32Size(LogFormat.Mask(crc(contents + [0])));
    contents + [0] + EncodeFixed32(LogFormat.Mask(crc(contents + [0])))
  }

  /** ReadBlock; a compressed block is not read. */
  function ReadBlock(crc: Bytes -> Word, verify: bool, file: Bytes, h: Handle): Option<Bytes> {
    if h.offset + h.size + TRAILER_SIZE > |file| then None
    else
      var raw := file[h.offset..h.offset + h.size + TRAILER_SIZE];
      if verify && LogFormat.Unmask(DecodeFixed32(raw[h.size + 1..])) != crc(raw[..h.size + 1]) then None
      else if raw[h.size] != 0 then None
      else Some(raw[..h.size])
  }

  /** A sealed block is read back, its checksum verified or not. */
  lemma SealedReads(crc: Bytes -> Word, verify: bool, file: Bytes, h: Handle, contents: Bytes)
    requires h.size == |contents| && Holds(file, h.offset, |file|, Sealed(crc, contents))
    ensures ReadBlock(crc, verify, file, h) == Some(contents)
  {
    hide LogFormat.Mask, LogFormat.Unmask, DecodeFixed32, EncodeFixed32;
    var raw := Sealed(crc, contents);
    var sum := LogFormat.Mask(crc(contents + [0]));
    assert raw[..|contents| + 1] == contents + [0] && raw[|contents| + 1..] == EncodeFixed32(sum) == EncodeFixed32(sum) + [];
    assert raw[..|contents|] == contents;
    Fixed32RoundTrip(sum, []);
    LogFormat.UnmaskMask(crc(contents + [0]));
  }

  /** With checksums verified nothing else is read as a block. */
  lemma OnlySealedReads(crc: Bytes -> Word, file: Bytes, h: Handle, contents: Bytes)
    ensures ReadBlock(crc, true, file, h) == Some(contents)
            <==> |contents| == h.size && Holds(file, h.offset, |file|, Sealed(crc, contents))
  {
    if |contents| == h.size && Holds(file, h.offset, |file|, Sealed(crc, contents)) {
      SealedReads(crc, true, file, h, contents);
    }
    if ReadBlock(crc, true, file, h) == Some(contents) {
      var raw := file[h.offset..h.offset + h.size + TRAILER_SIZE];
      RawIsSealed(crc, raw, h.size);
    }
  }

  lemma RawIsSealed(crc: Bytes -> Word, raw: Bytes, n: nat)
    requires |raw| == n + TRAILER_SIZE && raw[n] == 0 && LogFormat.Unmask(DecodeFixed32(raw[n + 1..])) == crc(raw[..n + 1])
    ensures raw == Sealed(crc, raw[..n])
  {
    hide LogFormat.Mask, LogFormat.Unmask, DecodeFixed32, EncodeFixed32;
    var sum := raw[n + 1..];
    assert raw[..n + 1] == raw[..n] + [0];
    LogFormat.MaskUnmask(DecodeFixed32(sum));
    Fixed32IsUnique(sum);
    assert raw == raw[..n + 1] + sum;
  }

  /** Nothing without the magic number is a footer. */
  lemma NoMagicNoFooter(b: Bytes)
    requires |b| == FOOTER_SIZE
    ensures DecodeFooter(b).Some? ==> b[FOOTER_SIZE - 8..] == [0x57, 0xfb, 0x80, 0x8b, 0x24, 0x75, 0x47, 0xdb]
  {
    hide DecodeHandle, DecodeFixed32;
    var magic := b[FOOTER_SIZE - 8..];
    if DecodeFixed32(magic) == MAGIC_LOW && DecodeFixed32(magic[4..]) == MAGIC_HIGH {
      FirstFour(magic);
      Fixed32IsUnique(magic[..4]);
      Fixed32IsUnique(magic[4..]);
      assert magic == magic[..4] + magic[4..];
      assert EncodeFixed32(MAGIC_LOW) == [0x57, 0xfb, 0x80, 0x8b] && EncodeFixed32(MAGIC_HIGH) == [0x24, 0x75, 0x47, 0xdb];
    }
  }

  lemma FirstFour(b: Bytes)
    requires |b| >= 4
    ensures DecodeFixed32(b[..4]) == DecodeFixed32(b)
  {
  }
}
