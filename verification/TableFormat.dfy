/** The table file: blocks with trailers, handles that name them, the footer, and what a table holds. */
module TableFormat {
  import opened BlockFormat
  import opened BlockIter
  import opened Coding
  import opened Keys
  import LogFormat

  const TRAILER: nat := 5
  const FOOTER: nat := 48
  const MAGIC: nat := 0xdb47_7524_8b80_fb57

  /** Where a block is in the file, without its trailer. */
  datatype Handle = Handle(offset: nat, size: nat)

  predicate HandleOk(h: Handle) { h.offset < TWO64 && h.size < TWO64 }

  function HandleBytes(h: Handle): Bytes { Varint(h.offset) + Varint(h.size) }

  function TakeHandle(input: Bytes): Taken<Handle> {
    match TakeVarint64(input)
    case Fail => Fail
    case Got(offset, r) =>
      match TakeVarint64(r)
      case Fail => Fail
      case Got(size, rest) => Got(Handle(offset, size), rest)
  }

  lemma HandleRoundTrip(h: Handle, rest: Bytes)
    requires HandleOk(h)
    ensures TakeHandle(HandleBytes(h) + rest) == Got(h, rest)
  {
    hide Varint, TakeVarint64;
    Assoc(Varint(h.offset), Varint(h.size), rest);
    Varint64RoundTrip(h.offset, Varint(h.size) + rest);
    Varint64RoundTrip(h.size, rest);
  }

  lemma HandleAlone(h: Handle)
    requires HandleOk(h)
    ensures TakeHandle(HandleBytes(h)) == Got(h, [])
  {
    hide TakeHandle, HandleBytes;
    HandleRoundTrip(h, []);
    assert HandleBytes(h) + [] == HandleBytes(h);
  }

  // ---------------------------------------------------------------- blocks in a file

  /** No compression: kind 0, and the checksum of contents and kind. */
  function Trailer(crc: LogFormat.Crc, contents: Bytes): (t: Bytes)
    ensures |t| == TRAILER && t[0] == 0
  {
    [0] + EncodeFixed32(LogFormat.Mask(crc(0, contents)))
  }

  /** `ReadBlock`: the contents, unless the read is short, the checksum is wrong or the kind unknown. */
  function ReadBlock(crc: LogFormat.Crc, file: Bytes, h: Handle, verify: bool): Option<Bytes> {
    if h.offset + h.size + TRAILER > |file| then None
    else
      var contents, trailer := file[h.offset..h.offset + h.size], file[h.offset + h.size..h.offset + h.size + TRAILER];
      if verify && LogFormat.Unmask(DecodeFixed32(trailer[1..])) != crc(trailer[0], contents) then None
      else if trailer[0] == 0 then Some(contents)
      else None
  }

  lemma ReadsBlock(crc: LogFormat.Crc, file: Bytes, h: Handle, contents: Bytes, verify: bool)
    requires h.size == |contents| && h.offset + h.size + TRAILER <= |file|
    requires file[h.offset..h.offset + h.size + TRAILER] == contents + Trailer(crc, contents)
    ensures ReadBlock(crc, file, h, verify) == Some(contents)
  {
    var all := file[h.offset..h.offset + h.size + TRAILER];
    var trailer := Trailer(crc, contents);
    assert file[h.offset..h.offset + h.size] == all[..h.size] == contents;
    assert file[h.offset + h.size..h.offset + h.size + TRAILER] == all[h.size..] == trailer;
    FixedRoundTrip(LogFormat.Mask(crc(0, contents)));
    LogFormat.UnmaskUndoesMask(crc(0, contents));
    assert trailer[1..] == EncodeFixed32(LogFormat.Mask(crc(0, contents)));
    hide EncodeFixed32, DecodeFixed32, LogFormat.Mask, LogFormat.Unmask;
  }

  /** With verification, exactly the blocks whose trailer is the one that is written are read. */
  lemma VerifiedReadIsExact(crc: LogFormat.Crc, file: Bytes, h: Handle)
    ensures ReadBlock(crc, file, h, true).Some? <==>
      h.offset + h.size + TRAILER <= |file| && var contents := file[h.offset..h.offset + h.size];
        file[h.offset + h.size..h.offset + h.size + TRAILER] == Trailer(crc, contents)
  {
    if h.offset + h.size + TRAILER <= |file| {
      var contents, trailer := file[h.offset..h.offset + h.size], file[h.offset + h.size..h.offset + h.size + TRAILER];
      assert trailer == [trailer[0]] + trailer[1..];
      FixedIsBytes(trailer[1..]);
      LogFormat.MaskUndoesUnmask(DecodeFixed32(trailer[1..]));
      LogFormat.UnmaskUndoesMask(crc(0, contents));
      FixedRoundTrip(LogFormat.Mask(crc(0, contents)));
      hide EncodeFixed32, DecodeFixed32, LogFormat.Mask, LogFormat.Unmask;
      assert ([0] + EncodeFixed32(LogFormat.Mask(crc(0, contents))))[1..] == EncodeFixed32(LogFormat.Mask(crc(0, contents)));
    }
  }

  /** A data block in the file. */
  datatype Stored = Stored(handle: Handle, layout: Layout)

  ghost predicate StoredOk(crc: LogFormat.Crc, file: Bytes, b: Stored) {
    var h := b.handle;
    && HandleOk(h) && h.offset + h.size + TRAILER <= |file|
    && b.layout.entries != [] && Encodes(file[h.offset..h.offset + h.size], b.layout)
    && file[h.offset + h.size..h.offset + h.size + TRAILER] == Trailer(crc, file[h.offset..h.offset + h.size])
  }

  lemma StoredMore(crc: LogFormat.Crc, file: Bytes, more: Bytes, b: Stored)
    requires StoredOk(crc, file, b)
    ensures StoredOk(crc, file + more, b)
  {
    hide Trailer, Encodes;
    var h := b.handle;
    assert (file + more)[h.offset..h.offset + h.size] == file[h.offset..h.offset + h.size];
    assert (file + more)[h.offset + h.size..h.offset + h.size + TRAILER] == file[h.offset + h.size..h.offset + h.size + TRAILER];
  }

  lemma StoredReads(crc: LogFormat.Crc, file: Bytes, b: Stored, verify: bool)
    requires StoredOk(crc, file, b)
    ensures
      var contents := file[b.handle.offset..b.handle.offset + b.handle.size];
      ReadBlock(crc, file, b.handle, verify) == Some(contents) && Encodes(contents, b.layout)
  {
    hide Trailer, Encodes, ReadBlock;
    var h := b.handle;
    var contents := file[h.offset..h.offset + h.size];
    assert file[h.offset..h.offset + h.size + TRAILER] == contents + file[h.offset + h.size..h.offset + h.size + TRAILER];
    ReadsBlock(crc, file, h, contents, verify);
  }

  // ---------------------------------------------------------------- the entries of a table

  function Entries(blocks: seq<Stored>): seq<Pair> {
    if blocks == [] then [] else Entries(blocks[..|blocks| - 1]) + blocks[|blocks| - 1].layout.entries
  }

  /** Each block's index key is at or after its last key and before every key of the blocks behind it. */
  ghost predicate Separates(rank: Bytes -> real, blocks: seq<Stored>, index: seq<Pair>, i: nat)
    requires i < |blocks| && i < |index|
  {
    && index[i].value == HandleBytes(blocks[i].handle)
    && (forall e :: e in blocks[i].layout.entries ==> rank(e.key) <= rank(index[i].key))
    && (forall j, e :: i < j < |blocks| && e in blocks[j].layout.entries ==> rank(index[i].key) < rank(e.key))
  }

  ghost predicate Indexed(rank: Bytes -> real, blocks: seq<Stored>, index: seq<Pair>) {
    |index| <= |blocks| && forall i :: 0 <= i < |index| ==> Separates(rank, blocks, index, i)
  }

  /** The data blocks of a table, an index that names and separates them, and sorted keys throughout. */
  ghost predicate TableOk(crc: LogFormat.Crc, rank: Bytes -> real, file: Bytes, blocks: seq<Stored>, index: Layout) {
    && (forall i :: 0 <= i < |blocks| ==> StoredOk(crc, file, blocks[i]))
    && Indexed(rank, blocks, index.entries) && |index.entries| == |blocks|
    && KeysSorted(rank, Entries(blocks)) && Ascending(blocks)
  }

  /** Blocks lie one behind the other, so no two have the same handle. */
  ghost predicate Ascending(blocks: seq<Stored>) {
    forall i, j :: 0 <= i < j < |blocks| ==> blocks[i].handle.offset < blocks[j].handle.offset
  }

  // ---------------------------------------------------------------- the footer

  /** `resize`: cut off or padded with zeros. */
  function Resized(b: Bytes, n: nat): (r: Bytes)
    ensures |r| == n
  {
    if |b| >= n then b[..n] else b + Zeros(n - |b|)
  }

  function FooterBytes(meta: Handle, index: Handle): (f: Bytes)
    ensures |f| == FOOTER
  {
    Resized(HandleBytes(meta) + HandleBytes(index), 40) + EncodeFixed32(MAGIC % 0x1_0000_0000) + EncodeFixed32(MAGIC / 0x1_0000_0000)
  }

  /** The two handles, if the magic number is there. */
  function TakeFooter(f: Bytes): Option<(Handle, Handle)>
    requires |f| == FOOTER
  {
    if DecodeFixed32(f[40..44]) + DecodeFixed32(f[44..48]) * 0x1_0000_0000 != MAGIC then None
    else
      match TakeHandle(f)
      case Fail => None
      case Got(meta, r) =>
        match TakeHandle(r)
        case Fail => None
        case Got(index, _) => Some((meta, index))
  }

  lemma HandleSize(h: Handle)
    requires HandleOk(h)
    ensures |HandleBytes(h)| <= 20
  {
    hide Varint;
    Powers();
    VarintSize(h.offset, 10);
    VarintSize(h.size, 10);
  }

  /** A footer is refused unless it ends with the magic number. */
  lemma FooterIsChecked(f: Bytes)
    requires |f| == FOOTER && TakeFooter(f).Some?
    ensures f[40..] == [0x57, 0xfb, 0x80, 0x8b, 0x24, 0x75, 0x47, 0xdb]
  {
    hide TakeHandle;
    FixedIsBytes(f[40..44]);
    FixedIsBytes(f[44..48]);
    assert f[40..] == f[40..44] + f[44..48];
    assert DecodeFixed32(f[40..44]) == 0x8b80_fb57 && DecodeFixed32(f[44..48]) == 0xdb47_7524;
    assert EncodeFixed32(0x8b80_fb57) == [0x57, 0xfb, 0x80, 0x8b] && EncodeFixed32(0xdb47_7524) == [0x24, 0x75, 0x47, 0xdb];
  }

  lemma FooterRoundTrip(meta: Handle, index: Handle)
    requires HandleOk(meta) && HandleOk(index)
    ensures TakeFooter(FooterBytes(meta, index)) == Some((meta, index))
  {
    HandleSize(meta);
    HandleSize(index);
    hide HandleBytes, TakeHandle, EncodeFixed32, DecodeFixed32;
    var a, b := HandleBytes(meta), HandleBytes(index);
    var zeros := Zeros(40 - |a + b|);
    var lo, hi := EncodeFixed32(MAGIC % 0x1_0000_0000), EncodeFixed32(MAGIC / 0x1_0000_0000);
    var f := FooterBytes(meta, index);
    FixedRoundTrip(MAGIC % 0x1_0000_0000);
    FixedRoundTrip(MAGIC / 0x1_0000_0000);
    assert Resized(a + b, 40) == a + b + zeros;
    assert f[40..44] == lo && f[44..48] == hi;
    var rest := zeros + lo + hi;
    assert f == a + (b + rest);
    HandleRoundTrip(meta, b + rest);
    HandleRoundTrip(index, rest);
  }
}
