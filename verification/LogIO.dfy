/** The log writer and reader as objects, tied to the specification of the log. */
module LogIO {
  import opened Coding
  import opened Keys
  import opened LogFormat
  import opened LogRecords

  // ---------------------------------------------------------------- writer

  /** One more record at the end of a log. */
  lemma {:induction false} LogChunksAppend(p: nat, records: seq<Bytes>, data: Bytes)
    ensures
      var cs := LogChunks(p, records);
      LogChunks(p, records + [data]) == cs + Fragments(p + Total(cs), data, true)
    decreases records
  {
    hide *;
    LogStep(p, records, 0);
    LogStep(p, records + [data], 0);
    if records == [] {
      EmptyLog(p);
      EmptyLog(p + Total(Fragments(p, data, true)));
      assert [data][1..] == [] && [] + [data] == [data];
      assert Fragments(p, data, true) + [] == Fragments(p, data, true);
    } else {
      var f := Fragments(p, records[0], true);
      var end := p + Total(f);
      LogChunksAppend(end, records[1..], data);
      assert (records + [data])[1..] == records[1..] + [data];
      TotalAppend(f, LogChunks(end, records[1..]));
    }
  }

  lemma EmptyLog(p: nat)
    ensures LogChunks(p, []) == [] && Total([]) == 0
  {
  }

  lemma LogAppend(crc: Crc, records: seq<Bytes>, data: Bytes)
    ensures
      var log := LogBytes(crc, records);
      LogBytes(crc, records + [data]) == log + ChunksBytes(crc, Fragments(|log|, data, true))
  {
    hide *;
    LogIsChunks(crc, records);
    LogIsChunks(crc, records + [data]);
    LogChunksAppend(0, records, data);
    BytesAppend(crc, LogChunks(0, records), Fragments(|LogBytes(crc, records)|, data, true));
  }

  /** A record's bytes start with its first chunk. */
  lemma EmitStep(crc: Crc, p: nat, data: Bytes, begin: bool)
    ensures Room(p + Pad(p)) >= HEADER
    ensures
      var n := FirstLength(p, data);
      var kind := KindOf(begin, n == |data|);
      var first := Zeros(Pad(p)) + Header(crc, kind, data[..n]) + data[..n];
      && ChunksBytes(crc, Fragments(p, data, begin))
         == (if n == |data| then first else first + ChunksBytes(crc, Fragments(p + |first|, data[n..], false)))
      && (n < |data| ==> n > 0 || (p + |first|) % BLOCK < p % BLOCK)
  {
    FragmentsStep(p, data, begin);
    var n := FirstLength(p, data);
    var c := Chunk(Pad(p), KindOf(begin, n == |data|), data[..n]);
    hide Fragments, FirstLength, Pad, Room, KindOf, Header;
    OneChunk(crc, c);
    if n < |data| {
      assert ([c] + Fragments(p + c.Size(), data[n..], false))[1..] == Fragments(p + c.Size(), data[n..], false);
    }
  }

  lemma OneChunk(crc: Crc, c: Chunk)
    ensures ChunksBytes(crc, [c]) == ChunkBytes(crc, c)
  {
    assert [c][1..] == [];
    assert ChunksBytes(crc, [c]) == ChunkBytes(crc, c) + [];
  }

  lemma SameBlockOffset(p: nat, offset: nat)
    requires offset <= BLOCK && offset % BLOCK == p % BLOCK
    ensures
      var leftover := BLOCK - offset;
      && (leftover < HEADER ==> leftover == (if Room(p) == BLOCK then 0 else Pad(p)))
      && (leftover < HEADER ==> (p + leftover) % BLOCK == 0 && Room(p + leftover) == BLOCK && Pad(p) == leftover)
      && (leftover >= HEADER ==> Pad(p) == 0 && Room(p) == leftover)
  {
  }

  lemma Advance(p: nat, offset: nat, n: nat)
    requires offset % BLOCK == p % BLOCK && offset + n <= BLOCK
    ensures (offset + n) % BLOCK == (p + n) % BLOCK
  {
  }

  class Writer {
    const crc: Crc
    var dest: Bytes
    var blockOffset: nat

    ghost predicate Valid() reads this {
      blockOffset <= BLOCK && blockOffset % BLOCK == |dest| % BLOCK
    }

    /** Appending to a file that already holds `length` bytes goes on at its last block. */
    constructor (crc: Crc, existing: Bytes)
      ensures Valid() && this.crc == crc && dest == existing
    {
      this.crc, dest, blockOffset := crc, existing, |existing| % BLOCK;
    }

    /** Zero-fill a trailer too short for a header. */
    method FillTrailer()
      requires Valid()
      modifies this
      ensures Valid() && dest == old(dest) + Zeros(Pad(|old(dest)|))
      ensures BLOCK - blockOffset == Room(|dest|) >= HEADER
    {
      var leftover := BLOCK - blockOffset;
      SameBlockOffset(|dest|, blockOffset);
      if leftover < HEADER {
        dest := dest + Zeros(leftover);
        blockOffset := 0;
      } else {
        assert dest == dest + Zeros(0);
      }
    }

    method EmitPhysicalRecord(kind: Byte, data: Bytes)
      requires Valid() && blockOffset + HEADER + |data| <= BLOCK
      modifies this
      ensures Valid() && dest == old(dest) + Header(crc, kind, data) + data
    {
      Advance(|dest|, blockOffset, HEADER + |data|);
      hide Header;
      dest := dest + Header(crc, kind, data);
      dest := dest + data;
      blockOffset := blockOffset + HEADER + |data|;
    }

    method AddRecord(data: Bytes)
      requires Valid()
      modifies this
      ensures Valid() && dest == old(dest) + ChunksBytes(crc, Fragments(|old(dest)|, data, true))
      ensures forall records :: old(dest) == LogBytes(crc, records) ==> dest == LogBytes(crc, records + [data])
    {
      hide Fragments, ChunksBytes, Pad, KindOf, FirstLength, LogBytes, Header, Room, Zeros, Writer.Valid;
      forall records | dest == LogBytes(crc, records)
        ensures dest + ChunksBytes(crc, Fragments(|dest|, data, true)) == LogBytes(crc, records + [data])
      {
        LogAppend(crc, records, data);
      }
      var left, begin, done := data, true, false;
      ghost var goal := dest + ChunksBytes(crc, Fragments(|dest|, data, true));
      while !done
        invariant Valid()
        invariant if done then dest == goal else dest + ChunksBytes(crc, Fragments(|dest|, left, begin)) == goal
        decreases !done, |left|, |dest| % BLOCK
      {
        ghost var start := dest;
        EmitStep(crc, |dest|, left, begin);
        FillTrailer();
        var avail := BLOCK - blockOffset - HEADER;
        var n := if |left| < avail then |left| else avail;
        FirstLengthIs(|start|, left, avail);
        var kind := KindOf(begin, n == |left|);
        EmitPhysicalRecord(kind, left[..n]);
        ghost var first := Zeros(Pad(|start|)) + Header(crc, kind, left[..n]) + left[..n];
        Append3(start, Zeros(Pad(|start|)), Header(crc, kind, left[..n]), left[..n]);
        if n < |left| {
          Assoc(start, first, ChunksBytes(crc, Fragments(|dest|, left[n..], false)));
        }
        left, begin, done := left[n..], false, n == |left|;
      }
    }
  }

  lemma Append3(a: Bytes, b: Bytes, c: Bytes, d: Bytes)
    ensures a + b + c + d == a + (b + c + d)
  {
  }

  lemma FirstLengthIs(p: nat, data: Bytes, avail: nat)
    requires Room(p + Pad(p)) >= HEADER && avail == Room(p + Pad(p)) - HEADER
    ensures FirstLength(p, data) == if |data| < avail then |data| else avail
  {
  }

  // ---------------------------------------------------------------- reader

  class Reader {
    const crc: Crc
    const file: Bytes
    var readPos: nat
    var buffer: Bytes
    var eof: bool
    var drops: seq<nat>

    /** The position of the next unread byte. */
    ghost function Pos(): (p: nat)
      requires Valid()
      reads `readPos, `buffer, `eof
      ensures p <= |file|
    {
      readPos - |buffer|
    }

    ghost predicate Valid() reads `readPos, `buffer, `eof {
      && |buffer| <= readPos <= |file| && buffer == file[readPos - |buffer|..readPos]
      && |buffer| <= BLOCK
      && (if eof then readPos == |file| && readPos / BLOCK == (readPos - |buffer|) / BLOCK
          else readPos % BLOCK == 0)
    }

    constructor (crc: Crc, file: Bytes)
      ensures Valid() && this.crc == crc && this.file == file && Pos() == 0 && drops == []
    {
      this.crc, this.file := crc, file;
      readPos, buffer, eof, drops := 0, [], false, [];
    }

    /** Refill the buffer with the next block; a short read is the end of the file. */
    method ReadBlock()
      requires Valid() && !eof
      modifies this
      ensures Valid() && drops == old(drops) && Pos() == old(readPos)
      ensures |buffer| == BLOCK || eof
    {
      var n := if |file| - readPos < BLOCK then |file| - readPos else BLOCK;
      buffer := file[readPos..readPos + n];
      readPos := readPos + n;
      eof := n < BLOCK;
    }

    /** Parse the header at the front of the buffer. */
    method ParseHeader() returns (event: Event)
      requires Valid() && |buffer| >= HEADER
      modifies this
      ensures Valid()
      ensures old(Pos()) + HEADER <= BlockEnd(file, old(Pos()))
      ensures (event, Pos()) == ParseAt(crc, file, old(Pos()))
      ensures drops == old(drops) + Dropped(event)
    {
      hide Unmask, DecodeFixed32, Room, BlockEnd, LastBlock, ParseAt;
      BufferParses();
      var length := ToNat(buffer[4]) + 256 * ToNat(buffer[5]);
      var kind := buffer[6];
      if HEADER + length > |buffer| {
        var dropped := |buffer|;
        buffer := [];
        if !eof {
          drops := drops + [dropped];
          return Bad(dropped);
        }
        return Eof;
      }
      if kind == ZERO && length == 0 {
        buffer := [];
        return Bad(0);
      }
      if Unmask(DecodeFixed32(buffer[..4])) != crc(kind, buffer[HEADER..HEADER + length]) {
        var dropped := |buffer|;
        buffer := [];
        drops := drops + [dropped];
        return Bad(dropped);
      }
      event := Frag(kind, buffer[HEADER..HEADER + length]);
      buffer := buffer[HEADER + length..];
    }

    /** What is at the reader's position, by what is in its buffer. */
    lemma BufferParses()
      requires Valid() && |buffer| >= HEADER
      ensures Pos() + HEADER <= BlockEnd(file, Pos())
      ensures
        var length, kind := ToNat(buffer[4]) + 256 * ToNat(buffer[5]), buffer[6];
        ParseAt(crc, file, Pos()) ==
          if HEADER + length > |buffer| then (if eof then Eof else Bad(|buffer|), readPos)
          else if kind == ZERO && length == 0 then (Bad(0), readPos)
          else if Unmask(DecodeFixed32(buffer[..4])) != crc(kind, buffer[HEADER..HEADER + length]) then (Bad(|buffer|), readPos)
          else (Frag(kind, buffer[HEADER..HEADER + length]), Pos() + HEADER + length)
    {
      hide Unmask, DecodeFixed32, Room, BlockEnd, LastBlock, ToNat;
      BufferIsBlock();
      var length := ToNat(buffer[4]) + 256 * ToNat(buffer[5]);
      BufferSlice(0, 4);
      assert buffer[..4] == buffer[0..4];
      if HEADER + length <= |buffer| {
        BufferSlice(HEADER, HEADER + length);
      }
    }

    lemma BufferSlice(i: nat, j: nat)
      requires Valid() && i <= j <= |buffer|
      ensures buffer[i..j] == file[Pos() + i..Pos() + j]
    {
    }

    /** A non-empty buffer holds the rest of its block. */
    lemma BufferIsBlock()
      requires Valid() && buffer != []
      ensures BlockEnd(file, Pos()) == readPos && (LastBlock(file, Pos()) <==> eof)
    {
    }

    /** With less than a header left, reading goes on in the next block, if there is one. */
    lemma ShortBuffer()
      requires Valid() && |buffer| < HEADER
      ensures eof ==> Physical(crc, file, Pos()) == (Eof, |file|)
      ensures !eof ==> Physical(crc, file, Pos()) == Physical(crc, file, readPos)
    {
      hide ParseAt;
      if eof || buffer == [] {
      } else {
        BufferIsBlock();
      }
    }

    method ReadPhysicalRecord() returns (event: Event)
      requires Valid()
      modifies this
      ensures Valid() && (event, Pos()) == Physical(crc, file, old(Pos()))
      ensures drops == old(drops) + Dropped(event)
    {
      hide Physical, ParseAt, BlockEnd, LastBlock;
      while |buffer| < HEADER
        invariant Valid() && drops == old(drops)
        invariant Physical(crc, file, Pos()) == Physical(crc, file, old(Pos()))
        decreases |buffer| < HEADER && !eof
      {
        ShortBuffer();
        if eof {
          buffer := [];
          return Eof;
        }
        ReadBlock();
      }
      BufferIsBlock();
      ParsesHere(crc, file, Pos());
      event := ParseHeader();
    }

    /** Read one logical record; the reader's position and drops account for everything consumed. */
    method ReadRecord() returns (record: Option<Bytes>)
      requires Valid()
      modifies this
      ensures Valid() && |drops| >= |old(drops)| && drops[..|old(drops)|] == old(drops)
      ensures
        var reported := drops[|old(drops)|..];
        var before := ReadFrom(crc, file, old(Pos()), CLEAN);
        var after := ReadFrom(crc, file, Pos(), CLEAN);
        if record.Some? then old(Pos()) < Pos() && before == Outcome([record.value] + after.records, reported + after.drops)
        else before == Outcome([], reported)
    {
      hide *;
      var inFragmentedRecord, scratch: Bytes := false, [];
      ghost var o := ReadFrom(crc, file, Pos(), CLEAN);
      ghost var d: seq<nat> := [];
      StartsClean(o);
      while true
        invariant Valid() && drops == old(drops) + d && old(Pos()) <= Pos() <= |file|
        invariant Partial(inFragmentedRecord, scratch) == CLEAN || inFragmentedRecord
        invariant o == Before(d, ReadFrom(crc, file, Pos(), Partial(inFragmentedRecord, scratch)))
        decreases |file| - Pos()
      {
        ghost var p, s := Pos(), Partial(inFragmentedRecord, scratch);
        var event := ReadPhysicalRecord();
        ReadOne(crc, file, p, s, d);
        if event.Eof? || (event.Frag? && event.kind == EOF_KIND) {
          record := None;
          d := d + Dropped(event);
          return;
        }
        ghost var e := if event.Frag? then OnFragment(event.kind, event.data, s) else OnBad(event.dropped, s);
        Cases(event, s);
        if event.Bad? || event.kind == BAD_KIND {
          if inFragmentedRecord {
            drops := drops + [|scratch|];
          }
          inFragmentedRecord, scratch := false, [];
        } else if event.kind == FULL {
          if inFragmentedRecord && scratch != [] {
            drops := drops + [|scratch|];
          }
          d := d + e.drops;
          return Some(event.data);
        } else if event.kind == FIRST {
          if inFragmentedRecord && scratch != [] {
            drops := drops + [|scratch|];
          }
          inFragmentedRecord, scratch := true, event.data;
        } else if event.kind == MIDDLE {
          if !inFragmentedRecord {
            drops := drops + [|event.data|];
          } else {
            scratch := scratch + event.data;
          }
        } else if event.kind == LAST {
          if !inFragmentedRecord {
            drops := drops + [|event.data|];
          } else {
            d := d + e.drops;
            return Some(scratch + event.data);
          }
        } else {
          drops := drops + [|event.data| + if inFragmentedRecord then |scratch| else 0];
          inFragmentedRecord, scratch := false, [];
        }
        d := d + e.drops;
      }
    }

    /** The recovery loop: every record of the file, and every reported drop. */
    method ReadAll() returns (records: seq<Bytes>)
      requires Valid()
      modifies this
      ensures Outcome(records, drops) == Before(old(drops), ReadFrom(crc, file, old(Pos()), CLEAN))
    {
      hide ReadFrom, Valid, Pos;
      records := [];
      ghost var whole := ReadFrom(crc, file, Pos(), CLEAN);
      ghost var n := |drops|;
      assert [] + whole.records == whole.records && drops[n..] + whole.drops == whole.drops;
      while true
        invariant Valid() && n <= |drops| && drops[..n] == old(drops)
        invariant
          var rest := ReadFrom(crc, file, Pos(), CLEAN);
          whole == Outcome(records + rest.records, drops[n..] + rest.drops)
        decreases |file| - Pos()
      {
        ghost var before, rest := drops, ReadFrom(crc, file, Pos(), CLEAN);
        var record := ReadRecord();
        ReadMore(whole, records, before, n, rest, record, drops, ReadFrom(crc, file, Pos(), CLEAN));
        if record.None? {
          assert drops == old(drops) + drops[n..];
          break;
        }
        records := records + [record.value];
      }
    }
  }

  /** One more record, or none, in front of the rest. */
  lemma ReadMore(whole: Outcome, records: seq<Bytes>, before: seq<nat>, n: nat, rest: Outcome, record: Option<Bytes>,
      drops: seq<nat>, rest': Outcome)
    requires n <= |before| <= |drops| && drops[..|before|] == before
    requires whole == Outcome(records + rest.records, before[n..] + rest.drops)
    requires rest ==
      if record.Some? then Outcome([record.value] + rest'.records, drops[|before|..] + rest'.drops)
      else Outcome([], drops[|before|..])
    ensures drops[..n] == before[..n]
    ensures whole ==
      if record.Some? then Outcome(records + [record.value] + rest'.records, drops[n..] + rest'.drops)
      else Outcome(records, drops[n..])
  {
    assert drops[n..] == before[n..] + drops[|before|..];
    assert drops[..n] == drops[..|before|][..n];
    if record.Some? {
      assert records + ([record.value] + rest'.records) == records + [record.value] + rest'.records;
      assert before[n..] + (drops[|before|..] + rest'.drops) == drops[n..] + rest'.drops;
    } else {
      assert records + [] == records;
    }
  }

  /** An outcome with earlier drops in front. */
  function Before(d: seq<nat>, o: Outcome): Outcome { Outcome(o.records, d + o.drops) }

  lemma StartsClean(o: Outcome)
    ensures Partial(false, []) == CLEAN && Before([], o) == o
  {
    assert [] + o.drops == o.drops;
  }

  /** The effect of a physical record, case by case of the reader's switch. */
  lemma Cases(event: Event, s: Partial)
    requires !event.Eof? && (s == CLEAN || s.open)
    ensures event.Frag? ==> Dropped(event) == []
    ensures
      var e := if event.Frag? then OnFragment(event.kind, event.data, s) else OnBad(event.dropped, s);
      var lost := if s.open && s.scratch != [] then [|s.scratch|] else [];
      if event.Bad? || event.kind == BAD_KIND then
        e == Effect(None, CLEAN, Dropped(event) + if s.open then [|s.scratch|] else [])
      else if event.kind == FULL then e == Effect(Some(event.data), CLEAN, lost)
      else if event.kind == FIRST then e == Effect(None, Partial(true, event.data), lost)
      else if event.kind == MIDDLE then
        e == if s.open then Effect(None, Partial(true, s.scratch + event.data), []) else Effect(None, s, [|event.data|])
      else if event.kind == LAST then
        e == if s.open then Effect(Some(s.scratch + event.data), CLEAN, []) else Effect(None, s, [|event.data|])
      else e == Effect(None, CLEAN, [|event.data| + if s.open then |s.scratch| else 0])
  {
  }

  /** One physical record accounts for its share of what is read from `p` on. */
  lemma ReadOne(crc: Crc, file: Bytes, p: nat, s: Partial, d: seq<nat>)
    requires p <= |file|
    ensures
      var (event, q) := Physical(crc, file, p);
      var before := Before(d, ReadFrom(crc, file, p, s));
      if event.Eof? || (event.Frag? && event.kind == EOF_KIND) then before == Outcome([], d + Dropped(event))
      else
        var e := if event.Frag? then OnFragment(event.kind, event.data, s) else OnBad(event.dropped, s);
        var after := ReadFrom(crc, file, q, e.state);
        before == if e.record.Some? then Outcome([e.record.value] + after.records, d + e.drops + after.drops)
                  else Before(d + e.drops, after)
  {
    hide Physical, OnFragment, OnBad;
    var (event, q) := Physical(crc, file, p);
    assert d + [] == d;
    if !(event.Eof? || (event.Frag? && event.kind == EOF_KIND)) {
      var e := if event.Frag? then OnFragment(event.kind, event.data, s) else OnBad(event.dropped, s);
      var o := ReadFrom(crc, file, q, e.state);
      assert d + (e.drops + o.drops) == (d + e.drops) + o.drops;
      assert [] + o.records == o.records;
    }
  }

  function Dropped(event: Event): seq<nat> {
    if event.Bad? && event.dropped > 0 then [event.dropped] else []
  }

  lemma ParsesHere(crc: Crc, file: Bytes, p: nat)
    requires p <= |file| && p + HEADER <= BlockEnd(file, p)
    ensures Physical(crc, file, p) == ParseAt(crc, file, p)
  {
  }
}
