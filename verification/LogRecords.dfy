/** Assembling logical records from physical ones, and what that gives for written, cut and damaged logs. */
module LogRecords {
  import opened Coding
  import opened Keys
  import opened LogFormat

  // A physical record with one of these kind bytes is taken for the reader's own end or error signal.
  const EOF_KIND: Byte := 5
  const BAD_KIND: Byte := 6

  /** Inside a fragmented record, with the bytes collected so far. */
  datatype Partial = Partial(open: bool, scratch: Bytes)

  const CLEAN: Partial := Partial(false, [])

  /** What one physical record does: maybe a finished record, the next state, the drops it reports. */
  datatype Effect = Effect(record: Option<Bytes>, state: Partial, drops: seq<nat>)

  /** The cases of `ReadRecord` for a physical record that was read. */
  function OnFragment(kind: Byte, data: Bytes, s: Partial): Effect {
    if kind == FULL then
      Effect(Some(data), CLEAN, if s.open && s.scratch != [] then [|s.scratch|] else [])
    else if kind == FIRST then
      Effect(None, Partial(true, data), if s.open && s.scratch != [] then [|s.scratch|] else [])
    else if kind == MIDDLE then
      if s.open then Effect(None, Partial(true, s.scratch + data), []) else Effect(None, s, [|data|])
    else if kind == LAST then
      if s.open then Effect(Some(s.scratch + data), CLEAN, []) else Effect(None, s, [|data|])
    else if kind == BAD_KIND then OnBad(0, s)
    else Effect(None, CLEAN, [|data| + if s.open then |s.scratch| else 0])
  }

  function OnBad(dropped: nat, s: Partial): Effect {
    Effect(None, CLEAN, (if dropped > 0 then [dropped] else []) + (if s.open then [|s.scratch|] else []))
  }

  /** The records and the reported drops of a stretch of the log. */
  datatype Outcome = Outcome(records: seq<Bytes>, drops: seq<nat>)

  function Prepend(e: Effect, o: Outcome): Outcome {
    Outcome((if e.record.Some? then [e.record.value] else []) + o.records, e.drops + o.drops)
  }

  /** Everything a reader returns and reports from position `p` on. */
  function ReadFrom(crc: Crc, file: Bytes, p: nat, s: Partial): Outcome
    requires p <= |file|
    decreases |file| - p
  {
    var (event, q) := Physical(crc, file, p);
    match event
    case Eof => Outcome([], [])
    case Bad(dropped) =>
      var e := OnBad(dropped, s);
      Prepend(e, ReadFrom(crc, file, q, e.state))
    case Frag(kind, data) =>
      if kind == EOF_KIND then Outcome([], [])
      else
        var e := OnFragment(kind, data, s);
        Prepend(e, ReadFrom(crc, file, q, e.state))
  }

  /** The same over a list of chunks: what they yield and the state they leave. */
  function Run(cs: seq<Chunk>, s: Partial): (Outcome, Partial) {
    if cs == [] then (Outcome([], []), s)
    else
      var e := OnFragment(cs[0].kind, cs[0].data, s);
      var (o, t) := Run(cs[1..], e.state);
      (Prepend(e, o), t)
  }

  function Join(a: Outcome, b: Outcome): Outcome { Outcome(a.records + b.records, a.drops + b.drops) }

  lemma PrependJoin(e: Effect, a: Outcome, b: Outcome)
    ensures Prepend(e, Join(a, b)) == Join(Prepend(e, a), b)
  {
    var r: seq<Bytes> := if e.record.Some? then [e.record.value] else [];
    assert r + (a.records + b.records) == (r + a.records) + b.records;
    assert e.drops + (a.drops + b.drops) == (e.drops + a.drops) + b.drops;
  }

  // ---------------------------------------------------------------- reading chunks

  lemma HeaderBytes(crc: Crc, kind: Byte, data: Bytes)
    requires |data| < 65536
    ensures
      var h := Header(crc, kind, data);
      && h[..4] == EncodeFixed32(Mask(crc(kind, data)))
      && ToNat(h[4]) + 256 * ToNat(h[5]) == |data| && h[6] == kind
  {
  }

  lemma ParsesHeader(crc: Crc, file: Bytes, q: nat, kind: Byte, data: Bytes)
    requires kind != ZERO && HEADER + |data| <= Room(q)
    requires q + HEADER + |data| <= |file|
    requires file[q..q + HEADER + |data|] == Header(crc, kind, data) + data
    ensures q + HEADER <= BlockEnd(file, q)
    ensures ParseAt(crc, file, q) == (Frag(kind, data), q + HEADER + |data|)
  {
    HeaderBytes(crc, kind, data);
    FixedRoundTrip(Mask(crc(kind, data)));
    UnmaskUndoesMask(crc(kind, data));
    var h := Header(crc, kind, data);
    var b := file[q..q + HEADER + |data|];
    hide Header, EncodeFixed32, DecodeFixed32, Mask, Unmask;
    assert b == h + data;
    assert file[q + 4] == b[4] && file[q + 5] == b[5] && file[q + 6] == b[6];
    assert file[q + HEADER..q + HEADER + |data|] == b[HEADER..] == data;
    assert file[q..q + 4] == b[..4] == h[..4];
  }

  lemma BodyAt(crc: Crc, file: Bytes, p: nat, c: Chunk)
    requires p + c.Size() <= |file|
    requires file[p..p + c.Size()] == ChunkBytes(crc, c)
    ensures
      var q := p + c.pad;
      file[q..q + HEADER + |c.data|] == Header(crc, c.kind, c.data) + c.data
  {
    hide Header, Zeros;
    var q := p + c.pad;
    var z, body := Zeros(c.pad), Header(crc, c.kind, c.data) + c.data;
    assert ChunkBytes(crc, c) == z + body;
    assert file[q..q + HEADER + |c.data|] == file[p..p + c.Size()][c.pad..];
  }

  /** A whole chunk in the file is read back as what was written, from its start or from its header. */
  lemma ReadsChunk(crc: Crc, file: Bytes, p: nat, c: Chunk)
    requires Fits(p, c) && p + c.Size() <= |file|
    requires file[p..p + c.Size()] == ChunkBytes(crc, c)
    ensures Physical(crc, file, p) == (Frag(c.kind, c.data), p + c.Size())
    ensures Physical(crc, file, p + c.pad) == (Frag(c.kind, c.data), p + c.Size())
  {
    BodyAt(crc, file, p, c);
    hide ChunkBytes, Header, ParseAt;
    ParsesHeader(crc, file, p + c.pad, c.kind, c.data);
  }

  /** A chunk that the file ends inside of reads as the end of the file. */
  lemma TruncatedChunk(crc: Crc, file: Bytes, p: nat, c: Chunk)
    requires Fits(p, c) && p <= |file| < p + c.Size()
    requires file[p..] == ChunkBytes(crc, c)[..|file| - p]
    ensures Physical(crc, file, p).0 == Eof
  {
    hide ChunkBytes, Header, ToNat;
    if p + c.pad + HEADER <= |file| {
      LengthIsThere(crc, file, p, c);
    }
  }

  /** The length field of a header that the file still holds. */
  lemma LengthIsThere(crc: Crc, file: Bytes, p: nat, c: Chunk)
    requires |c.data| < 0x1_0000 && p + c.pad + HEADER <= |file| < p + c.Size()
    requires file[p..] == ChunkBytes(crc, c)[..|file| - p]
    ensures ToNat(file[p + c.pad + 4]) + 256 * ToNat(file[p + c.pad + 5]) == |c.data|
  {
    HeaderBytes(crc, c.kind, c.data);
    var q, h := p + c.pad, Header(crc, c.kind, c.data);
    hide Header, ToNat;
    var b := ChunkBytes(crc, c);
    assert b == Zeros(c.pad) + (h + c.data);
    assert file[q + 4] == file[p..][c.pad + 4] == b[c.pad + 4] == h[4];
    assert file[q + 5] == file[p..][c.pad + 5] == b[c.pad + 5] == h[5];
  }

  // ---------------------------------------------------------------- lists of chunks

  lemma {:induction false} TotalAppend(a: seq<Chunk>, b: seq<Chunk>)
    ensures Total(a + b) == Total(a) + Total(b)
  {
    if a == [] {
      assert a + b == b;
    } else {
      assert (a + b)[1..] == a[1..] + b;
      TotalAppend(a[1..], b);
    }
  }

  lemma {:induction false} FitAppend(p: nat, a: seq<Chunk>, b: seq<Chunk>)
    requires AllFit(p, a) && AllFit(p + Total(a), b)
    ensures AllFit(p, a + b)
    decreases a
  {
    hide Fits;
    if a == [] {
      assert a + b == b;
    } else {
      assert (a + b)[1..] == a[1..] + b;
      FitAppend(p + a[0].Size(), a[1..], b);
    }
  }

  lemma {:induction false} BytesAppend(crc: Crc, a: seq<Chunk>, b: seq<Chunk>)
    ensures ChunksBytes(crc, a + b) == ChunksBytes(crc, a) + ChunksBytes(crc, b)
  {
    hide ChunkBytes;
    if a == [] {
      assert a + b == b;
      assert ChunksBytes(crc, []) == [];
    } else {
      assert (a + b)[1..] == a[1..] + b;
      BytesAppend(crc, a[1..], b);
      Assoc(ChunkBytes(crc, a[0]), ChunksBytes(crc, a[1..]), ChunksBytes(crc, b));
    }
  }

  lemma {:induction false} SplitFit(p: nat, a: seq<Chunk>, m: nat)
    requires AllFit(p, a) && m <= |a|
    ensures AllFit(p, a[..m]) && AllFit(p + Total(a[..m]), a[m..])
    decreases a
  {
    if m > 0 {
      assert a[..m][1..] == a[1..][..m - 1] && a[m..] == a[1..][m - 1..];
      SplitFit(p + a[0].Size(), a[1..], m - 1);
    }
  }

  lemma {:induction false} RunAppend(a: seq<Chunk>, b: seq<Chunk>, s: Partial)
    ensures
      var (o, t) := Run(a, s);
      var (o', t') := Run(b, t);
      Run(a + b, s) == (Join(o, o'), t')
  {
    if a == [] {
      assert a + b == b;
      var (o', t') := Run(b, s);
      assert Join(Outcome([], []), o') == o';
    } else {
      assert (a + b)[1..] == a[1..] + b;
      var e := OnFragment(a[0].kind, a[0].data, s);
      RunAppend(a[1..], b, e.state);
      var (o, t) := Run(a[1..], e.state);
      var (o', t') := Run(b, t);
      PrependJoin(e, o, o');
    }
  }

  /** Reading whole chunks is running over them, then reading on behind them. */
  lemma {:induction false} ReadRun(crc: Crc, file: Bytes, p: nat, cs: seq<Chunk>, s: Partial)
    requires AllFit(p, cs) && p + Total(cs) <= |file|
    requires file[p..p + Total(cs)] == ChunksBytes(crc, cs)
    ensures ReadFrom(crc, file, p, s) == Join(Run(cs, s).0, ReadFrom(crc, file, p + Total(cs), Run(cs, s).1))
    decreases cs
  {
    hide *;
    if cs == [] {
      ReadNothing(crc, file, p, s);
    } else {
      var c, rest := cs[0], cs[1..];
      var q := p + c.Size();
      var e := OnFragment(c.kind, c.data, s);
      assert cs == [c] + rest;
      FirstChunk(crc, file, p, cs);
      ReadStep(crc, file, p, q, c.kind, c.data, s);
      ReadRun(crc, file, q, rest, e.state);
      RunCons(c, rest, s);
      PrependJoin(e, Run(rest, e.state).0, ReadFrom(crc, file, q + Total(rest), Run(rest, e.state).1));
    }
  }

  lemma ReadNothing(crc: Crc, file: Bytes, p: nat, s: Partial)
    requires p <= |file|
    ensures Total([]) == 0
    ensures ReadFrom(crc, file, p, s) == Join(Run([], s).0, ReadFrom(crc, file, p, Run([], s).1))
  {
    hide Physical;
    JoinNothing(ReadFrom(crc, file, p, s));
  }

  lemma ReadStep(crc: Crc, file: Bytes, p: nat, q: nat, kind: Byte, data: Bytes, s: Partial)
    requires p <= q <= |file| && Physical(crc, file, p) == (Frag(kind, data), q) && kind != EOF_KIND
    ensures
      var e := OnFragment(kind, data, s);
      ReadFrom(crc, file, p, s) == Prepend(e, ReadFrom(crc, file, q, e.state))
  {
    hide Physical, Prepend, OnFragment;
  }

  lemma FitsKind(p: nat, c: Chunk)
    requires Fits(p, c)
    ensures c.kind != EOF_KIND
  {
  }

  lemma FirstChunk(crc: Crc, file: Bytes, p: nat, cs: seq<Chunk>)
    requires cs != [] && AllFit(p, cs) && p + Total(cs) <= |file|
    requires file[p..p + Total(cs)] == ChunksBytes(crc, cs)
    ensures
      var q := p + cs[0].Size();
      && q <= |file| && cs[0].kind != EOF_KIND
      && Physical(crc, file, p) == (Frag(cs[0].kind, cs[0].data), q)
      && AllFit(q, cs[1..]) && q + Total(cs[1..]) == p + Total(cs)
      && file[q..q + Total(cs[1..])] == ChunksBytes(crc, cs[1..])
  {
    hide Physical, ChunkBytes, Pad, Room, Fits;
    var c, q := cs[0], p + cs[0].Size();
    FitsKind(p, c);
    SliceHead(file, p, q, p + Total(cs), ChunkBytes(crc, c), ChunksBytes(crc, cs[1..]));
    ReadsChunk(crc, file, p, c);
  }

  lemma SliceHead(file: Bytes, p: nat, q: nat, r: nat, a: Bytes, b: Bytes)
    requires p <= q <= r <= |file| && file[p..r] == a + b && |a| == q - p
    ensures file[p..q] == a && file[q..r] == b
  {
    assert file[p..q] == file[p..r][..q - p];
    assert file[q..r] == file[p..r][q - p..];
  }

  // ---------------------------------------------------------------- the chunks of a log

  function LogChunks(p: nat, records: seq<Bytes>): seq<Chunk>
    decreases records
  {
    if records == [] then []
    else
      var f := Fragments(p, records[0], true);
      f + LogChunks(p + Total(f), records[1..])
  }

  lemma {:induction false} LogFits(p: nat, records: seq<Bytes>)
    ensures AllFit(p, LogChunks(p, records))
    decreases records
  {
    if records != [] {
      var f := Fragments(p, records[0], true);
      FragmentsFit(p, records[0], true);
      LogFits(p + Total(f), records[1..]);
      FitAppend(p, f, LogChunks(p + Total(f), records[1..]));
    }
  }

  /** The file that writing the records to an empty log produces. */
  function LogBytes(crc: Crc, records: seq<Bytes>): Bytes {
    ChunksBytes(crc, LogChunks(0, records))
  }

  lemma RunCons(c: Chunk, cs: seq<Chunk>, s: Partial)
    ensures
      var e := OnFragment(c.kind, c.data, s);
      Run([c] + cs, s) == (Prepend(e, Run(cs, e.state).0), Run(cs, e.state).1)
  {
    assert ([c] + cs)[1..] == cs;
  }

  /** A chunk in the middle of a record only extends what was collected. */
  lemma OpenChunk(s: Partial, data: Bytes)
    requires !s.open ==> s == CLEAN
    ensures OnFragment(KindOf(!s.open, false), data, s) == Effect(None, Partial(true, s.scratch + data), [])
    ensures OnFragment(KindOf(!s.open, true), data, s) == Effect(Some(s.scratch + data), CLEAN, [])
  {
  }

  lemma PrependNothing(state: Partial, o: Outcome)
    ensures Prepend(Effect(None, state, []), o) == o
    ensures forall r: Bytes :: Prepend(Effect(Some(r), state, []), o) == Outcome([r] + o.records, o.drops)
  {
    var none: seq<nat> := [];
    assert none + o.drops == o.drops;
    var nothing: seq<Bytes> := [];
    assert nothing + o.records == o.records;
  }

  /** The chunks of one record assemble to that record. */
  lemma {:induction false} RunRecord(p: nat, data: Bytes, s: Partial)
    requires !s.open ==> s == CLEAN
    ensures Run(Fragments(p, data, !s.open), s) == (Outcome([s.scratch + data], []), CLEAN)
    decreases |data|, p % BLOCK
  {
    hide *;
    FragmentsStep(p, data, !s.open);
    var n := FirstLength(p, data);
    OpenChunk(s, data[..n]);
    var c := Chunk(Pad(p), KindOf(!s.open, n == |data|), data[..n]);
    var e := OnFragment(c.kind, c.data, s);
    if n < |data| {
      var rest := Fragments(p + Pad(p) + HEADER + n, data[n..], false);
      RunCons(c, rest, s);
      RunRecord(p + Pad(p) + HEADER + n, data[n..], e.state);
      assert (s.scratch + data[..n]) + data[n..] == s.scratch + data;
      PrependNothing(e.state, Run(rest, e.state).0);
    } else {
      assert data[..n] == data;
      RunCons(c, [], s);
      RunNothing(CLEAN);
      assert [c] + [] == [c];
      PrependNothing(CLEAN, Outcome([], []));
      assert [s.scratch + data] + [] == [s.scratch + data];
    }
  }

  lemma RunNothing(s: Partial)
    ensures Run([], s) == (Outcome([], []), s)
  {
  }

  /** Only part of a record's chunks yields nothing and reports nothing. */
  lemma {:induction false} RunPartial(p: nat, data: Bytes, s: Partial, m: nat)
    requires !s.open ==> s == CLEAN
    requires m < |Fragments(p, data, !s.open)|
    ensures Run(Fragments(p, data, !s.open)[..m], s).0 == Outcome([], [])
    ensures
      var t := Run(Fragments(p, data, !s.open)[..m], s).1;
      if m == 0 then t == s else t.open && s.scratch <= t.scratch <= s.scratch + data
    decreases |data|, p % BLOCK
  {
    hide *;
    var f := Fragments(p, data, !s.open);
    if m == 0 {
      RunNothing(s);
    } else {
      FragmentsStep(p, data, !s.open);
      var n := FirstLength(p, data);
      OpenChunk(s, data[..n]);
      var c := f[0];
      var e := OnFragment(c.kind, c.data, s);
      var rest := Fragments(p + Pad(p) + HEADER + n, data[n..], false);
      assert f[..m] == [c] + rest[..m - 1];
      RunCons(c, rest[..m - 1], s);
      RunPartial(p + Pad(p) + HEADER + n, data[n..], e.state, m - 1);
      PrependNothing(e.state, Outcome([], []));
      assert (s.scratch + data[..n]) + data[n..] == s.scratch + data;
    }
  }

  /** How many records end at or before position `n`. */
  function Whole(p: nat, records: seq<Bytes>, n: nat): (k: nat)
    ensures k <= |records|
    decreases records
  {
    if records == [] then 0
    else
      var end := p + Total(Fragments(p, records[0], true));
      if end > n then 0 else 1 + Whole(end, records[1..], n)
  }

  /** How many chunks end at or before position `n`. */
  function Inside(p: nat, cs: seq<Chunk>, n: nat): (m: nat)
    ensures m <= |cs|
    decreases cs
  {
    if cs == [] || p + cs[0].Size() > n then 0 else 1 + Inside(p + cs[0].Size(), cs[1..], n)
  }

  lemma {:induction false} InsideEnds(p: nat, cs: seq<Chunk>, n: nat)
    requires p <= n
    ensures
      var m := Inside(p, cs, n);
      p + Total(cs[..m]) <= n && (m < |cs| ==> n < p + Total(cs[..m]) + cs[m].Size())
    decreases cs
  {
    if cs != [] && p + cs[0].Size() <= n {
      var m := Inside(p, cs, n);
      InsideEnds(p + cs[0].Size(), cs[1..], n);
      assert cs[..m][1..] == cs[1..][..m - 1];
    }
  }

  lemma {:induction false} InsideAppend(p: nat, a: seq<Chunk>, b: seq<Chunk>, n: nat)
    requires p <= n
    ensures p + Total(a) <= n ==> Inside(p, a + b, n) == |a| + Inside(p + Total(a), b, n)
    ensures p + Total(a) > n ==> Inside(p, a + b, n) < |a|
    decreases a
  {
    if a == [] {
      assert a + b == b;
    } else {
      assert (a + b)[1..] == a[1..] + b;
      if p + a[0].Size() <= n {
        InsideAppend(p + a[0].Size(), a[1..], b, n);
      }
    }
  }

  /** The chunks that end by `n` assemble to the records that end by `n`, with nothing reported. */
  lemma {:induction false} RunPrefix(p: nat, records: seq<Bytes>, n: nat)
    requires p <= n
    ensures
      var cs := LogChunks(p, records);
      Run(cs[..Inside(p, cs, n)], CLEAN).0 == Outcome(records[..Whole(p, records, n)], [])
    decreases records
  {
    hide *;
    LogStep(p, records, n);
    if records != [] {
      var f := Fragments(p, records[0], true);
      var end := p + Total(f);
      var rest := LogChunks(end, records[1..]);
      var cs := LogChunks(p, records);
      var m := Inside(p, cs, n);
      InsideAppend(p, f, rest, n);
      if end <= n {
        RunPrefix(end, records[1..], n);
        RunRecord(p, records[0], CLEAN);
        assert cs[..m] == f + rest[..m - |f|];
        RunAppend(f, rest[..m - |f|], CLEAN);
        FirstRecord(records, Whole(end, records[1..], n));
      } else {
        assert cs[..m] == f[..m];
        RunPartial(p, records[0], CLEAN, m);
      }
    }
  }

  /** One unfolding of the chunks of a log and of the count of its whole records. */
  lemma LogStep(p: nat, records: seq<Bytes>, n: nat)
    ensures !CLEAN.open && CLEAN.scratch == []
    ensures records == [] ==> Run(LogChunks(p, records)[..Inside(p, LogChunks(p, records), n)], CLEAN).0 == Outcome([], [])
    ensures records != [] ==>
      var f := Fragments(p, records[0], true);
      var end := p + Total(f);
      && LogChunks(p, records) == f + LogChunks(end, records[1..])
      && Whole(p, records, n) == if end > n then 0 else 1 + Whole(end, records[1..], n)
  {
    hide Fragments, Total;
  }

  lemma FirstRecord(records: seq<Bytes>, k: nat)
    requires k < |records|
    ensures Join(Outcome([[] + records[0]], []), Outcome(records[1..][..k], [])) == Outcome(records[..k + 1], [])
  {
    assert [] + records[0] == records[0];
    assert [records[0]] + records[1..][..k] == records[..k + 1];
  }

  lemma EndOfFile(crc: Crc, file: Bytes, s: Partial)
    ensures ReadFrom(crc, file, |file|, s) == Outcome([], [])
  {
  }

  /**
   Log round trip and crash: reading any prefix of a written log returns exactly the records whose
   last fragment lies inside it, in order, and reports no corruption.
   */
  lemma PrefixReadsWholeRecords(crc: Crc, records: seq<Bytes>, n: nat)
    requires n <= |LogBytes(crc, records)|
    ensures ReadFrom(crc, LogBytes(crc, records)[..n], 0, CLEAN) == Outcome(records[..Whole(0, records, n)], [])
  {
    hide *;
    var cs, full := LogChunks(0, records), LogBytes(crc, records);
    var m := Inside(0, cs, n);
    var a, b := cs[..m], cs[m..];
    LogFits(0, records);
    InsideEnds(0, cs, n);
    RunPrefix(0, records, n);
    SplitFit(0, cs, m);
    assert cs == a + b;
    LogIsChunks(crc, records);
    WrittenSplit(crc, a, b, full);
    ReadsPrefix(crc, a, b, full, n);
  }

  lemma LogIsChunks(crc: Crc, records: seq<Bytes>)
    ensures LogBytes(crc, records) == ChunksBytes(crc, LogChunks(0, records))
  {
  }

  lemma ReadsPrefix(crc: Crc, a: seq<Chunk>, b: seq<Chunk>, full: Bytes, n: nat)
    requires AllFit(0, a) && AllFit(Total(a), b) && Total(a) <= n <= |full|
    requires full[0..Total(a)] == ChunksBytes(crc, a) && full[Total(a)..] == ChunksBytes(crc, b)
    requires if b == [] then n <= Total(a) else n < Total(a) + b[0].Size()
    ensures ReadFrom(crc, full[..n], 0, CLEAN) == Run(a, CLEAN).0
  {
    hide AllFit, ChunksBytes, Run, ReadFrom, Total, Physical;
    var file, q := full[..n], Total(a);
    assert file[0..q] == full[0..q];
    ReadRun(crc, file, 0, a, CLEAN);
    CutTail(crc, full, q, b, n, Run(a, CLEAN).1);
    JoinNothing(Run(a, CLEAN).0);
  }

  lemma JoinNothing(o: Outcome)
    ensures Join(o, Outcome([], [])) == o && Join(Outcome([], []), o) == o
  {
  }

  lemma WrittenSplit(crc: Crc, a: seq<Chunk>, b: seq<Chunk>, full: Bytes)
    requires full == ChunksBytes(crc, a + b)
    ensures Total(a) + Total(b) == |full| && (b == [] ==> |full| == Total(a))
    ensures full[0..Total(a)] == ChunksBytes(crc, a) && full[Total(a)..] == ChunksBytes(crc, b)
  {
    hide ChunksBytes;
    BytesAppend(crc, a, b);
    TotalAppend(a, b);
    SliceHead(full, 0, Total(a), |full|, ChunksBytes(crc, a), ChunksBytes(crc, b));
  }

  /** Behind the last whole chunk, a cut log reads as ended. */
  lemma CutTail(crc: Crc, full: Bytes, q: nat, b: seq<Chunk>, n: nat, t: Partial)
    requires q <= n <= |full| && AllFit(q, b) && full[q..] == ChunksBytes(crc, b)
    requires if b == [] then n <= q else n < q + b[0].Size()
    ensures ReadFrom(crc, full[..n], q, t) == Outcome([], [])
  {
    var file := full[..n];
    if b == [] {
      EndOfFile(crc, file, t);
    } else {
      assert b[0] in b;
      assert file[q..] == full[q..][..n - q];
      assert full[q..][..n - q] == (ChunkBytes(crc, b[0]) + ChunksBytes(crc, b[1..]))[..n - q];
      TruncatedChunk(crc, file, q, b[0]);
    }
  }

  lemma WholeIsAll(p: nat, records: seq<Bytes>, n: nat)
    requires n >= p + Total(LogChunks(p, records))
    ensures Whole(p, records, n) == |records|
    decreases records
  {
    if records != [] {
      var f := Fragments(p, records[0], true);
      TotalAppend(f, LogChunks(p + Total(f), records[1..]));
      WholeIsAll(p + Total(f), records[1..], n);
    }
  }

  /** Reading back a complete log gives the records that were written. */
  lemma LogRoundTrip(crc: Crc, records: seq<Bytes>)
    ensures ReadFrom(crc, LogBytes(crc, records), 0, CLEAN) == Outcome(records, [])
  {
    var full := LogBytes(crc, records);
    PrefixReadsWholeRecords(crc, records, |full|);
    assert full[..|full|] == full;
    LogFits(0, records);
    WholeIsAll(0, records, |full|);
    assert records[..|records|] == records;
  }
}
