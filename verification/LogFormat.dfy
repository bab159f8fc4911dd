/** The log file format: 32 KB blocks of physical records, and what one read of it yields. */
module LogFormat {
  import opened Coding
  import opened Keys

  const BLOCK: nat := 32768
  const HEADER: nat := 7

  // Physical record kinds; zero is reserved for preallocated files.
  const ZERO: Byte := 0
  const FULL: Byte := 1
  const FIRST: Byte := 2
  const MIDDLE: Byte := 3
  const LAST: Byte := 4

  /** The checksum of a kind byte and a payload; nothing is used of it but that it is a function. */
  type Crc = f: (Byte, Bytes) -> nat | forall k, d :: f(k, d) < 0x1_0000_0000 witness (k, d) => 0

  const MASK_DELTA: nat := 0xa282ead8

  /** `crc32c::Mask`: rotate right by 15 bits and add a constant, modulo 2^32. */
  function Mask(crc: nat): nat requires crc < 0x1_0000_0000 {
    (crc / 0x8000 + (crc % 0x8000) * 0x2_0000 + MASK_DELTA) % 0x1_0000_0000
  }

  function Unmask(masked: nat): nat requires masked < 0x1_0000_0000 {
    var rot := (masked + 0x1_0000_0000 - MASK_DELTA) % 0x1_0000_0000;
    rot / 0x2_0000 + (rot % 0x2_0000) * 0x8000
  }

  lemma UnmaskUndoesMask(crc: nat)
    requires crc < 0x1_0000_0000
    ensures Unmask(Mask(crc)) == crc
  {
    var hi, lo := crc / 0x8000, crc % 0x8000;
    var rot := hi + lo * 0x2_0000;
    assert rot < 0x1_0000_0000;
    assert (Mask(crc) + 0x1_0000_0000 - MASK_DELTA) % 0x1_0000_0000 == rot;
    assert rot / 0x2_0000 == lo && rot % 0x2_0000 == hi;
  }

  lemma MaskUndoesUnmask(masked: nat)
    requires masked < 0x1_0000_0000
    ensures Unmask(masked) < 0x1_0000_0000 && Mask(Unmask(masked)) == masked
  {
    var rot := (masked + 0x1_0000_0000 - MASK_DELTA) % 0x1_0000_0000;
    var hi, lo := rot / 0x2_0000, rot % 0x2_0000;
    var c := hi + lo * 0x8000;
    assert Unmask(masked) == c && c / 0x8000 == lo && c % 0x8000 == hi;
    assert (rot + MASK_DELTA) % 0x1_0000_0000 == masked;
  }

  function Header(crc: Crc, kind: Byte, data: Bytes): (h: Bytes)
    ensures |h| == HEADER
  {
    EncodeFixed32(Mask(crc(kind, data))) + [ToByte(|data| % 256), ToByte(|data| / 256 % 256), kind]
  }

  /** One physical record and the zero bytes that fill the end of the block before it. */
  datatype Chunk = Chunk(pad: nat, kind: Byte, data: Bytes) {
    function Size(): nat { pad + HEADER + |data| }
  }

  function ChunkBytes(crc: Crc, c: Chunk): (b: Bytes)
    ensures |b| == c.Size()
  {
    Zeros(c.pad) + Header(crc, c.kind, c.data) + c.data
  }

  /** Bytes left in the block that position `p` lies in. */
  function Room(p: nat): (r: nat)
    ensures 0 < r <= BLOCK
  {
    BLOCK - p % BLOCK
  }

  function Pad(p: nat): nat { if Room(p) < HEADER then Room(p) else 0 }

  /** A chunk written at `p` fills a short trailer and then stays inside one block. */
  predicate Fits(p: nat, c: Chunk) {
    c.pad == Pad(p) && HEADER + |c.data| <= Room(p + c.pad) && FULL <= c.kind <= LAST
  }

  // ---------------------------------------------------------------- writing

  function KindOf(begin: bool, end: bool): Byte {
    if begin && end then FULL else if begin then FIRST else if end then LAST else MIDDLE
  }

  /** The chunks that `AddRecord` emits for what is left of a record, starting at position `p`. */
  function Fragments(p: nat, data: Bytes, begin: bool): (cs: seq<Chunk>)
    ensures cs != []
    decreases |data|, p % BLOCK
  {
    var pad := Pad(p);
    var avail := Room(p + pad) - HEADER;
    var n := if |data| < avail then |data| else avail;
    var end := n == |data|;
    var c := Chunk(pad, KindOf(begin, end), data[..n]);
    assert n == 0 && !end ==> pad == 0 && p % BLOCK == BLOCK - HEADER && (p + HEADER) % BLOCK == 0;
    if end then [c] else [c] + Fragments(p + c.Size(), data[n..], false)
  }

  function Total(cs: seq<Chunk>): nat {
    if cs == [] then 0 else cs[0].Size() + Total(cs[1..])
  }

  function ChunksBytes(crc: Crc, cs: seq<Chunk>): (b: Bytes)
    ensures |b| == Total(cs)
  {
    if cs == [] then [] else ChunkBytes(crc, cs[0]) + ChunksBytes(crc, cs[1..])
  }

  ghost predicate AllFit(p: nat, cs: seq<Chunk>)
    decreases cs
  {
    cs == [] || (Fits(p, cs[0]) && AllFit(p + cs[0].Size(), cs[1..]))
  }

  lemma FirstFits(p: nat, data: Bytes, kind: Byte, begin: bool, end: bool)
    requires Room(p + Pad(p)) >= HEADER && kind == KindOf(begin, end)
    ensures Fits(p, Chunk(Pad(p), kind, data[..FirstLength(p, data)]))
  {
  }

  lemma NoRoomMovesOn(p: nat)
    ensures Room(p + Pad(p)) >= HEADER
    ensures Room(p + Pad(p)) == HEADER ==> Pad(p) == 0 && (p + HEADER) % BLOCK < p % BLOCK
  {
  }

  /** Payload bytes that go into the first chunk of what is left of a record. */
  function FirstLength(p: nat, data: Bytes): (n: nat)
    requires Room(p + Pad(p)) >= HEADER
    ensures n <= |data|
  {
    var avail := Room(p + Pad(p)) - HEADER;
    if |data| < avail then |data| else avail
  }

  lemma FragmentsStep(p: nat, data: Bytes, begin: bool)
    ensures Room(p + Pad(p)) >= HEADER
    ensures
      var n := FirstLength(p, data);
      var c := Chunk(Pad(p), KindOf(begin, n == |data|), data[..n]);
      var q := p + Pad(p) + HEADER + n;
      && Fragments(p, data, begin) == (if n == |data| then [c] else [c] + Fragments(q, data[n..], false))
      && (n < |data| ==> n > 0 || q % BLOCK < p % BLOCK)
  {
    NoRoomMovesOn(p);
  }

  lemma {:induction false} FragmentsFit(p: nat, data: Bytes, begin: bool)
    ensures AllFit(p, Fragments(p, data, begin))
    decreases |data|, p % BLOCK
  {
    hide *;
    FragmentsStep(p, data, begin);
    var n := FirstLength(p, data);
    var kind := KindOf(begin, n == |data|);
    var c := Chunk(Pad(p), kind, data[..n]);
    var q := p + Pad(p) + HEADER + n;
    FirstFits(p, data, kind, begin, n == |data|);
    if n == |data| {
      OneFits(p, c);
    } else {
      FragmentsFit(q, data[n..], false);
      MoreFit(p, c, q, Fragments(q, data[n..], false));
    }
  }

  lemma OneFits(p: nat, c: Chunk)
    requires Fits(p, c)
    ensures AllFit(p, [c])
  {
    hide Fits;
    assert [c][1..] == [];
  }

  lemma MoreFit(p: nat, c: Chunk, q: nat, cs: seq<Chunk>)
    requires Fits(p, c) && c.pad == Pad(p) && q == p + Pad(p) + HEADER + |c.data| && AllFit(q, cs)
    ensures AllFit(p, [c] + cs)
  {
    hide Fits, Pad;
    assert ([c] + cs)[1..] == cs;
  }

  // ---------------------------------------------------------------- reading one physical record

  datatype Event = Frag(kind: Byte, data: Bytes) | Bad(dropped: nat) | Eof

  /** Where the block that holds `p` ends in the file, and whether the file ends first. */
  function BlockEnd(file: Bytes, p: nat): nat requires p <= |file| {
    if p + Room(p) <= |file| then p + Room(p) else |file|
  }

  predicate LastBlock(file: Bytes, p: nat) { |file| < p + Room(p) }

  /** Parse the header at `p`, where at least a header's worth of the block remains. */
  function ParseAt(crc: Crc, file: Bytes, p: nat): (Event, nat)
    requires p <= |file| && p + HEADER <= BlockEnd(file, p)
  {
    var end := BlockEnd(file, p);
    var length := ToNat(file[p + 4]) + 256 * ToNat(file[p + 5]);
    var kind := file[p + 6];
    if p + HEADER + length > end then
      if LastBlock(file, p) then (Eof, end) else (Bad(end - p), end)
    else if kind == ZERO && length == 0 then (Bad(0), end)
    else
      var data := file[p + HEADER..p + HEADER + length];
      if Unmask(DecodeFixed32(file[p..p + 4])) != crc(kind, data) then (Bad(end - p), end)
      else (Frag(kind, data), p + HEADER + length)
  }

  /** `ReadPhysicalRecord` from position `p`: the event and where reading goes on. */
  function Physical(crc: Crc, file: Bytes, p: nat): (r: (Event, nat))
    requires p <= |file|
    ensures p <= r.1 <= |file| && (r.0 != Eof ==> p < r.1)
  {
    if p + HEADER <= BlockEnd(file, p) then ParseAt(crc, file, p)
    else if LastBlock(file, p) then (Eof, |file|)
    else
      var q := p + Room(p);
      if q + HEADER <= BlockEnd(file, q) then ParseAt(crc, file, q) else (Eof, |file|)
  }
}
