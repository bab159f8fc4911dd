/**
 Encodings written out byte by byte, as the format documents give them: the round trips alone would hold for any
 numbering that writer and reader share.
 */
module Vectors {
  import opened Coding
  import opened Keys
  import L = LogFormat
  import R = LogRecords
  import W = WriteBatch
  import V = VersionEdit
  import T = TableFormat
  import B = BlockFormat
  import S = Separators

  lemma SmallVarint(n: nat)
    requires n < 128
    ensures Varint(n) == [ToByte(n)]
  {
  }

  lemma SmallString(s: Bytes)
    requires |s| < 128
    ensures LengthPrefixed(s) == [ToByte(|s|)] + s
  {
    SmallVarint(|s|);
  }

  lemma OpsVector()
    ensures W.OpsBytes([W.Put([107], [118]), W.Delete([107])]) == [1, 1, 107, 1, 118, 0, 1, 107]
  {
    hide LengthPrefixed;
    SmallString([107]);
    SmallString([118]);
    assert W.OpBytes(W.Put([107], [118])) == [1, 1, 107, 1, 118];
    assert W.OpBytes(W.Delete([107])) == [0, 1, 107];
    var ops := [W.Put([107], [118]), W.Delete([107])];
    assert ops[1..] == [W.Delete([107])];
    assert W.OpsBytes(ops[1..]) == [0, 1, 107];
  }

  /** A put and a delete of the key k, with sequence number 100: the header of twelve bytes, then kind, key and value. */
  lemma BatchVector()
    ensures W.BatchBytes(100, [W.Put([107], [118]), W.Delete([107])])
         == [100, 0, 0, 0, 0, 0, 0, 0, 2, 0, 0, 0, 1, 1, 107, 1, 118, 0, 1, 107]
  {
    hide W.OpsBytes;
    OpsVector();
    assert EncodeFixed64(100) == [100, 0, 0, 0, 0, 0, 0, 0] && EncodeFixed32(2) == [2, 0, 0, 0];
  }

  /** The fields of a version edit, one of each. */
  lemma EditVectors()
    ensures V.ItemBytes(V.Comparator([120])) == [1, 1, 120]
    ensures V.ItemBytes(V.LogNumber(5)) == [2, 5]
    ensures V.ItemBytes(V.NextFile(6)) == [3, 6]
    ensures V.ItemBytes(V.LastSequence(7)) == [4, 7]
    ensures V.ItemBytes(V.CompactPointer(1, [107])) == [5, 1, 1, 107]
    ensures V.ItemBytes(V.Deleted(2, 9)) == [6, 2, 9]
    ensures V.ItemBytes(V.New(0, V.FileMeta(5, 10, [97], [98]))) == [7, 0, 5, 10, 1, 97, 1, 98]
    ensures V.ItemBytes(V.PrevLogNumber(4)) == [9, 4]
  {
    SmallString([120]);
    SmallString([107]);
    SmallString([97]);
    SmallString([98]);
    assert forall n: nat :: n < 128 ==> Varint(n) == [ToByte(n)];
    assert V.Body(V.New(0, V.FileMeta(5, 10, [97], [98]))) == [0, 5, 10, 1, 97, 1, 98];
  }

  /** Deleted files are kept by level and then by number, each once, in whatever order they were named. */
  lemma DeletedVector()
    ensures V.InsertPair(V.InsertPair(V.InsertPair([(2, 4)], (1, 9)), (2, 3)), (1, 9)) == [(1, 9), (2, 3), (2, 4)]
  {
  }

  /** The masked checksum: rotated right by 15 bits, and a constant added. */
  lemma MaskVectors()
    ensures L.Mask(0) == 0xa282ead8 && L.Mask(1) == 0xa284ead8 && L.Mask(0x8000) == 0xa282ead9
    ensures L.Mask(0xFFFF_FFFF) == 0xa282ead7
  {
  }

  /** A record of one byte is a header of seven bytes, with length and kind behind the checksum, and the byte. */
  lemma LogVector(crc: L.Crc, b: Byte)
    ensures R.LogBytes(crc, [[b]]) == EncodeFixed32(L.Mask(crc(1, [b]))) + [1, 0, 1, b]
  {
    var h := L.Header(crc, 1, [b]);
    assert L.Fragments(0, [b], true) == [L.Chunk(0, 1, [b])] by {
      assert [b][..1] == [b];
    }
    var c := L.Chunk(0, 1, [b]);
    assert [c][1..] == [];
    assert R.LogChunks(0, [[b]]) == [c] by {
      assert [[b]][1..] == [];
      assert R.LogChunks(L.Total([c]), []) == [];
      assert [c] + [] == [c];
    }
    assert L.ChunksBytes(crc, [c]) == L.ChunkBytes(crc, c) + [];
    assert L.ChunkBytes(crc, c) == [] + h + [b];
    assert h == EncodeFixed32(L.Mask(crc(1, [b]))) + [1, 0, 1];
  }

  /** A record too long for what is left of a block of 32 KB goes on in the next one: kinds 2, 3 and 4. */
  lemma FragmentVector(data: Bytes)
    requires |data| == 70000
    ensures
      L.Fragments(0, data, true) ==
        [L.Chunk(0, 2, data[..32761]), L.Chunk(0, 3, data[32761..65522]), L.Chunk(0, 4, data[65522..])]
  {
    hide L.Fragments, L.Pad, L.Room;
    Blocks();
    L.FragmentsStep(0, data, true);
    L.FragmentsStep(32768, data[32761..], false);
    L.FragmentsStep(65536, data[32761..][32761..], false);
    assert data[32761..][..32761] == data[32761..65522] && data[32761..][32761..] == data[65522..];
    assert data[65522..][..4478] == data[65522..];
  }

  lemma Blocks()
    ensures forall p: nat :: p == 0 || p == 32768 || p == 65536 ==> L.Pad(p) == 0 && L.Room(p) == 32768
    ensures L.HEADER == 7
  {
  }

  lemma MagicBytes()
    ensures EncodeFixed32(T.MAGIC % 0x1_0000_0000) == [0x57, 0xfb, 0x80, 0x8b]
    ensures EncodeFixed32(T.MAGIC / 0x1_0000_0000) == [0x24, 0x75, 0x47, 0xdb]
  {
    hide EncodeFixed32;
    var low, high := [0x57, 0xfb, 0x80, 0x8b], [0x24, 0x75, 0x47, 0xdb];
    FixedIsBytes(low);
    FixedIsBytes(high);
    assert DecodeFixed32(low) == T.MAGIC % 0x1_0000_0000 && DecodeFixed32(high) == T.MAGIC / 0x1_0000_0000;
  }

  /** The last eight bytes of a table are the magic number, low byte first. */
  lemma FooterVector(meta: T.Handle, index: T.Handle)
    ensures |T.FooterBytes(meta, index)| == 48
    ensures T.FooterBytes(meta, index)[40..] == [0x57, 0xfb, 0x80, 0x8b, 0x24, 0x75, 0x47, 0xdb]
  {
    hide EncodeFixed32, T.HandleBytes, T.Resized;
    MagicBytes();
  }

  /** An entry that shares two bytes of its key with the one before it. */
  lemma EntryVector()
    ensures B.EntryBytes(2, B.Pair([1, 2, 3], [9])) == [2, 1, 1, 3, 9]
  {
    SmallVarint(2);
    SmallVarint(1);
  }

  /** An internal key ends with sequence number and kind, low byte first. */
  lemma InternalKeyVector()
    ensures S.Internal([107], IKey(0.0, 100, Value).Tag()) == [107, 1, 100, 0, 0, 0, 0, 0, 0]
    ensures S.Internal([107], IKey(0.0, 100, Deletion).Tag()) == [107, 0, 100, 0, 0, 0, 0, 0, 0]
  {
  }

  /** The tag of a shortened key is the largest one. */
  lemma SeekKeyVector()
    ensures S.Internal([107], S.SEEK_TAG) == [107, 1, 255, 255, 255, 255, 255, 255, 255]
  {
  }
}
