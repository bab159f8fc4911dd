/** A log with one damaged block: exactly the records with a fragment in the rest of that block are lost. */
module LogDamage {
  import opened Coding
  import opened Keys
  import opened LogFormat
  import opened LogRecords

  /** How many leading chunks have their header before position `e`. */
  function Before(p: nat, cs: seq<Chunk>, e: nat): (k: nat)
    ensures k <= |cs|
    decreases cs
  {
    if cs == [] || p + cs[0].pad >= e then 0 else 1 + Before(p + cs[0].Size(), cs[1..], e)
  }

  /** How many leading records have their first header before position `e`. */
  function Begun(p: nat, records: seq<Bytes>, e: nat): (k: nat)
    ensures k <= |records|
    decreases records
  {
    if records == [] || p + Pad(p) >= e then 0
    else 1 + Begun(p + Total(Fragments(p, records[0], true)), records[1..], e)
  }

  predicate IsBoundary(e: nat) { e % BLOCK == 0 }

  // ---------------------------------------------------------------- positions

  lemma BlockAligned(p: nat, c: Chunk, e: nat)
    requires Fits(p, c) && IsBoundary(e) && p <= e
    ensures if p + c.pad < e then p + c.Size() <= e else p + c.pad == e
  {
    var q := p + c.pad;
    if q < e {
      assert q + Room(q) <= e by {
        assert IsBoundary(q + Room(q));
      }
    }
  }

  /** A block boundary is the header of the first chunk that is not before it. */
  lemma {:induction false} BeforeEnds(p: nat, cs: seq<Chunk>, e: nat)
    requires AllFit(p, cs) && p <= e && IsBoundary(e)
    ensures
      var k := Before(p, cs, e);
      p + Total(cs[..k]) <= e && (k < |cs| ==> p + Total(cs[..k]) + cs[k].pad == e)
    decreases cs
  {
    hide Fits;
    if cs != [] {
      BlockAligned(p, cs[0], e);
      if p + cs[0].pad < e {
        BeforeEnds(p + cs[0].Size(), cs[1..], e);
        var k := Before(p, cs, e);
        assert cs[..k][1..] == cs[1..][..k - 1];
      }
    }
  }

  lemma {:induction false} BeforeAppend(p: nat, a: seq<Chunk>, b: seq<Chunk>, e: nat)
    ensures
      var k := Before(p, a, e);
      if k < |a| then Before(p, a + b, e) == k && p + Total(a) >= e
      else Before(p, a + b, e) == |a| + Before(p + Total(a), b, e)
    decreases a
  {
    if a == [] {
      assert a + b == b;
    } else {
      assert (a + b)[1..] == a[1..] + b;
      if p + a[0].pad < e {
        BeforeAppend(p + a[0].Size(), a[1..], b, e);
      }
    }
  }

  // ---------------------------------------------------------------- what an orphaned tail yields

  ghost predicate Continues(cs: seq<Chunk>) {
    forall c :: c in cs ==> c.kind == MIDDLE || c.kind == LAST
  }

  lemma OrphanChunk(c: Chunk)
    requires c.kind == MIDDLE || c.kind == LAST
    ensures OnFragment(c.kind, c.data, CLEAN) == Effect(None, CLEAN, [|c.data|])
  {
  }

  predicate Orphan(c: Chunk) { c.kind == MIDDLE || c.kind == LAST }

  /** The sizes of the leading fragments that go on with a record. */
  function OrphanSizes(cs: seq<Chunk>): seq<nat> {
    if cs == [] || !Orphan(cs[0]) then [] else [|cs[0].data|] + OrphanSizes(cs[1..])
  }

  /** Fragments without their beginning yield no record and leave a clean state; each is reported with its size. */
  lemma {:induction false} RunOrphans(cs: seq<Chunk>)
    requires Continues(cs)
    ensures Run(cs, CLEAN) == (Outcome([], OrphanSizes(cs)), CLEAN)
  {
    hide OnFragment;
    if cs != [] {
      FirstContinues(cs);
      OrphanChunk(cs[0]);
      RunOrphans(cs[1..]);
      assert [] + Run(cs[1..], CLEAN).0.records == [];
    }
  }

  lemma {:induction false} OrphansThen(a: seq<Chunk>, b: seq<Chunk>)
    requires Continues(a) && (b == [] || !Orphan(b[0]))
    ensures OrphanSizes(a + b) == OrphanSizes(a)
  {
    if a == [] {
      assert a + b == b;
    } else {
      assert (a + b)[1..] == a[1..] + b;
      OrphansThen(a[1..], b);
    }
  }

  /** A log begins with the beginning of a record. */
  lemma NoOrphans(p: nat, records: seq<Bytes>)
    ensures OrphanSizes(LogChunks(p, records)) == []
    ensures LogChunks(p, records) == [] || !Orphan(LogChunks(p, records)[0])
  {
    if records != [] {
      FragmentsStep(p, records[0], true);
      hide Fragments, Total;
    }
  }

  lemma {:induction false} FragmentsContinue(p: nat, data: Bytes, begin: bool)
    ensures begin ==> Continues(Fragments(p, data, begin)[1..])
    ensures !begin ==> Continues(Fragments(p, data, begin))
    decreases |data|, p % BLOCK
  {
    hide Fragments, Room, Pad, FirstLength;
    FragmentsStep(p, data, begin);
    var n := FirstLength(p, data);
    if n < |data| {
      FragmentsContinue(p + Pad(p) + HEADER + n, data[n..], false);
    }
  }

  // ---------------------------------------------------------------- the chunks behind a block

  lemma LogUnfolds(p: nat, records: seq<Bytes>, e: nat)
    ensures records == [] ==> LogChunks(p, records) == [] && Begun(p, records, e) == 0
    ensures records != [] ==>
      var f := Fragments(p, records[0], true);
      && LogChunks(p, records) == f + LogChunks(p + Total(f), records[1..])
      && Begun(p, records, e) == if p + Pad(p) >= e then 0 else 1 + Begun(p + Total(f), records[1..], e)
  {
    hide Fragments, Total, Pad;
  }

  lemma FirstHeader(p: nat, data: Bytes, e: nat)
    ensures
      var f := Fragments(p, data, true);
      f != [] && (Before(p, f, e) == 0 <==> p + Pad(p) >= e)
  {
    FragmentsStep(p, data, true);
    hide Fragments, Pad;
  }

  lemma {:induction false} NoneBefore(p: nat, records: seq<Bytes>, e: nat)
    requires p >= e
    ensures Begun(p, records, e) == 0 && Before(p, LogChunks(p, records), e) == 0
  {
  }

  lemma {:induction false} RunAll(p: nat, records: seq<Bytes>)
    ensures Run(LogChunks(p, records), CLEAN) == (Outcome(records, []), CLEAN)
    decreases records
  {
    hide *;
    LogStep(p, records, 0);
    if records == [] {
      LogUnfolds(p, records, 0);
      RunNothing(CLEAN);
    } else {
      var f := Fragments(p, records[0], true);
      var rest := LogChunks(p + Total(f), records[1..]);
      RunRecord(p, records[0], CLEAN);
      RunAll(p + Total(f), records[1..]);
      RunAppend(f, rest, CLEAN);
      ConsRecord(records);
    }
  }

  lemma ConsRecord(records: seq<Bytes>)
    requires records != []
    ensures Join(Outcome([[] + records[0]], []), Outcome(records[1..], [])) == Outcome(records, [])
  {
    assert [] + records[0] == records[0];
    assert [records[0]] + records[1..] == records;
  }

  /**
   Reading the chunks from a position on yields exactly the records that begin there or later, and reports the
   leading fragments whose beginning is before it.
   */
  lemma {:induction false} RunSuffix(p: nat, records: seq<Bytes>, e: nat)
    ensures
      var cs := LogChunks(p, records);
      var b := cs[Before(p, cs, e)..];
      Run(b, CLEAN).0 == Outcome(records[Begun(p, records, e)..], OrphanSizes(b))
    decreases records
  {
    hide *;
    LogUnfolds(p, records, e);
    var cs := LogChunks(p, records);
    if records == [] {
      RunNothing(CLEAN);
      NoOrphans(p, records);
      assert cs[Before(p, cs, e)..] == cs;
    } else {
      var f := Fragments(p, records[0], true);
      var end := p + Total(f);
      var rest := LogChunks(end, records[1..]);
      FirstHeader(p, records[0], e);
      BeforeAppend(p, f, rest, e);
      var k := Before(p, f, e);
      if k == 0 {
        RunAll(p, records);
        NoOrphans(p, records);
        assert cs[0..] == cs && records[0..] == records;
      } else if k < |f| {
        NoneBefore(end, records[1..], e);
        RunTail(p, records[0], records[1..], k);
        assert cs[k..] == f[k..] + rest;
      } else {
        RunSuffix(end, records[1..], e);
        assert cs[Before(p, cs, e)..] == rest[Before(end, rest, e)..];
      }
    }
  }

  lemma RunTail(p: nat, data: Bytes, records: seq<Bytes>, k: nat)
    requires 0 < k < |Fragments(p, data, true)|
    ensures
      var f := Fragments(p, data, true);
      var b := f[k..] + LogChunks(p + Total(f), records);
      Run(b, CLEAN).0 == Outcome(records, OrphanSizes(b))
  {
    hide *;
    var f := Fragments(p, data, true);
    var rest := LogChunks(p + Total(f), records);
    TailContinues(p, data, k);
    RunOrphans(f[k..]);
    RunAll(p + Total(f), records);
    RunAppend(f[k..], rest, CLEAN);
    NoOrphans(p + Total(f), records);
    OrphansThen(f[k..], rest);
    JoinOrphans(OrphanSizes(f[k..]), records);
  }

  lemma TailContinues(p: nat, data: Bytes, k: nat)
    requires 0 < k <= |Fragments(p, data, true)|
    ensures Continues(Fragments(p, data, true)[k..])
  {
    hide Fragments;
    var f := Fragments(p, data, true);
    FragmentsContinue(p, data, true);
    assert f[k..] == f[1..][k - 1..];
  }

  lemma JoinOrphans(sizes: seq<nat>, records: seq<Bytes>)
    ensures Join(Outcome([], sizes), Outcome(records, [])) == Outcome(records, sizes)
  {
    assert [] + records == records && sizes + [] == sizes;
  }

  /** Inside a record after `n` bytes: the reader holds a beginning of it exactly if the next fragment goes on with it. */
  lemma {:induction false} StateAt(p: nat, records: seq<Bytes>, n: nat)
    requires p <= n
    ensures
      var cs := LogChunks(p, records);
      var m, w := Inside(p, cs, n), Whole(p, records, n);
      var t := Run(cs[..m], CLEAN).1;
      if m < |cs| && Orphan(cs[m]) then t.open && w < |records| && t.scratch <= records[w] else t == CLEAN
    decreases records
  {
    hide *;
    LogStep(p, records, n);
    var cs := LogChunks(p, records);
    var m := Inside(p, cs, n);
    if records == [] {
      LogUnfolds(p, records, n);
      RunNothing(CLEAN);
      assert cs[..m] == [];
    } else {
      var f := Fragments(p, records[0], true);
      var end := p + Total(f);
      var rest := LogChunks(end, records[1..]);
      InsideAppend(p, f, rest, n);
      if end <= n {
        StateAt(end, records[1..], n);
        RunRecord(p, records[0], CLEAN);
        assert cs[..m] == f + rest[..m - |f|];
        RunAppend(f, rest[..m - |f|], CLEAN);
      } else {
        assert cs[..m] == f[..m] && cs[m] == f[m];
        RunPartial(p, records[0], CLEAN, m);
        NoOrphans(p, records);
        if m > 0 {
          TailContinues(p, records[0], m);
          FirstContinues(f[m..]);
        }
        assert [] + records[0] == records[0];
      }
    }
  }

  lemma FirstContinues(cs: seq<Chunk>)
    requires cs != [] && Continues(cs)
    ensures Orphan(cs[0])
  {
  }

  // ---------------------------------------------------------------- reading on behind a block

  /** A chunk may be read from its header, whatever fills the trailer before it. */
  lemma FromHeader(crc: Crc, p: nat, b: seq<Chunk>, s: Partial)
    requires b != [] && AllFit(p, b)
    ensures
      var h := [Chunk(0, b[0].kind, b[0].data)] + b[1..];
      && AllFit(p + b[0].pad, h) && b[0].pad + Total(h) == Total(b)
      && ChunksBytes(crc, h) == ChunksBytes(crc, b)[b[0].pad..] && Run(h, s) == Run(b, s)
  {
    hide *;
    var c, rest := b[0], b[1..];
    var h := [Chunk(0, c.kind, c.data)] + rest;
    assert h[1..] == rest && b == [c] + rest;
    FirstChunk(crc, p, b);
    ZeroPad(p, c);
    FirstChunk(crc, p + c.pad, h);
    RunCons(c, rest, s);
    RunCons(h[0], rest, s);
    HeaderFirst(crc, c);
    var body := ChunkBytes(crc, h[0]);
    BehindPad(c.pad, body, ChunksBytes(crc, rest));
  }

  lemma FirstChunk(crc: Crc, p: nat, b: seq<Chunk>)
    requires b != []
    ensures AllFit(p, b) <==> Fits(p, b[0]) && AllFit(p + b[0].Size(), b[1..])
    ensures Total(b) == b[0].Size() + Total(b[1..]) && ChunksBytes(crc, b) == ChunkBytes(crc, b[0]) + ChunksBytes(crc, b[1..])
    ensures b[0].Size() == b[0].pad + Chunk(0, b[0].kind, b[0].data).Size()
  {
    hide Fits, ChunkBytes;
  }

  lemma BehindPad(n: nat, body: Bytes, rest: Bytes)
    ensures (Zeros(n) + body + rest)[n..] == body + rest && |Zeros(n)| == n
  {
  }

  lemma HeaderFirst(crc: Crc, c: Chunk)
    ensures ChunkBytes(crc, c) == Zeros(c.pad) + ChunkBytes(crc, Chunk(0, c.kind, c.data))
  {
    hide Header;
    assert Zeros(0) == [];
  }

  lemma ZeroPad(p: nat, c: Chunk)
    requires Fits(p, c)
    ensures Fits(p + c.pad, Chunk(0, c.kind, c.data))
  {
  }

  /** Reading from a chunk's header to the end of the file. */
  lemma ReadsSuffix(crc: Crc, file: Bytes, p: nat, b: seq<Chunk>)
    requires b != [] && AllFit(p, b) && |file| == p + Total(b)
    requires p + b[0].pad <= |file| && file[p + b[0].pad..] == ChunksBytes(crc, b)[b[0].pad..]
    ensures ReadFrom(crc, file, p + b[0].pad, CLEAN) == Run(b, CLEAN).0
  {
    hide *;
    var q := p + b[0].pad;
    var h := [Chunk(0, b[0].kind, b[0].data)] + b[1..];
    FromHeader(crc, p, b, CLEAN);
    assert file[q..q + Total(h)] == file[q..];
    ReadRun(crc, file, q, h, CLEAN);
    EndOfFile(crc, file, Run(b, CLEAN).1);
    JoinNothing(Run(b, CLEAN).0);
  }

  /** The rest of the block, unless it is empty by its header, and the part of a record that was being put together. */
  function Reported(event: Event, s: Partial): seq<nat> {
    if !event.Bad? then []
    else (if event.dropped > 0 then [event.dropped] else []) + if s.open then [|s.scratch|] else []
  }

  /** What reading yields after such a report. */
  function After(report: seq<nat>, o: Outcome): Outcome { Outcome(o.records, report + o.drops) }

  /** A header that fails its checks ends the reading of its block. */
  lemma FailedHeader(crc: Crc, file: Bytes, p: nat, q: nat, s: Partial)
    requires q == p + Pad(p) && q + HEADER <= |file| && !Physical(crc, file, q).0.Frag?
    ensures
      var e := BlockEnd(file, q);
      ReadFrom(crc, file, p, s) == After(Reported(Physical(crc, file, q).0, s), ReadFrom(crc, file, e, CLEAN))
  {
    SamePhysical(crc, file, p);
    var e := BlockEnd(file, q);
    NotAFragment(crc, file, q);
    hide Physical, BlockEnd;
    var event := Physical(crc, file, p).0;
    if event == Eof {
      EndOfFile(crc, file, CLEAN);
    } else {
      assert [] + ReadFrom(crc, file, e, CLEAN).records == ReadFrom(crc, file, e, CLEAN).records;
    }
  }

  lemma SamePhysical(crc: Crc, file: Bytes, p: nat)
    requires p + Pad(p) + HEADER <= |file|
    ensures Physical(crc, file, p) == Physical(crc, file, p + Pad(p))
  {
    hide ParseAt;
  }

  lemma NotAFragment(crc: Crc, file: Bytes, q: nat)
    requires q + HEADER <= |file| && Pad(q) == 0 && !Physical(crc, file, q).0.Frag?
    ensures Physical(crc, file, q).1 == BlockEnd(file, q)
    ensures Physical(crc, file, q).0 == Eof ==> BlockEnd(file, q) == |file|
    ensures Physical(crc, file, q).0.Bad? ==>
      Physical(crc, file, q).0.dropped == if file[q + 4..q + HEADER] == [0, 0, 0] then 0 else BlockEnd(file, q) - q
  {
  }

  /**
   Damage inside one block, from the trailer or header at `q` on to the block's end, whose first damaged
   physical record fails its checks: the reader returns, unchanged and in order, the records that end
   before `q` and those that begin behind the block, and nothing else.  It reports the rest of the block, unless the
   header there reads as an empty one; what it held of a record that had begun; and every fragment behind the block
   that goes on with a lost record.
   */
  lemma DamagedBlock(crc: Crc, records: seq<Bytes>, m: nat, damaged: Bytes)
    requires m < |LogChunks(0, records)| && |damaged| == |LogBytes(crc, records)|
    requires
      var cs, full := LogChunks(0, records), LogBytes(crc, records);
      var q := Total(cs[..m]) + cs[m].pad;
      var e := q + Room(q);
      && q <= |full| && damaged[..q] == full[..q] && (e <= |full| ==> damaged[e..] == full[e..])
      && !Physical(crc, damaged, q).0.Frag?
    ensures
      var cs := LogChunks(0, records);
      var p := Total(cs[..m]);
      var e := p + cs[m].pad + Room(p + cs[m].pad);
      ReadFrom(crc, damaged, 0, CLEAN).records == records[..Whole(0, records, p)] + records[Begun(0, records, e)..]
    ensures
      var cs := LogChunks(0, records);
      var p, q := Total(cs[..m]), Total(cs[..m]) + cs[m].pad;
      var e, w := q + Room(q), Whole(0, records, p);
      var event, held := Physical(crc, damaged, q).0, Run(cs[..m], CLEAN).1;
      && (event.Bad? ==> event.dropped == if damaged[q + 4..q + HEADER] == [0, 0, 0] then 0 else BlockEnd(damaged, q) - q)
      && (if Orphan(cs[m]) then held.open && w < |records| && held.scratch <= records[w] else held == CLEAN)
      && ReadFrom(crc, damaged, 0, CLEAN).drops == Reported(event, held) + OrphanSizes(cs[Before(0, cs, e)..])
  {
    hide *;
    var cs, full := LogChunks(0, records), LogBytes(crc, records);
    var p := Total(cs[..m]);
    var q := p + cs[m].pad;
    var e := q + Room(q);
    LogFits(0, records);
    LogIsChunks(crc, records);
    UntilDamage(crc, cs, m, full, damaged);
    InsideTotal(0, cs, m);
    RunPrefix(0, records, p);
    StateAt(0, records, p);
    AfterDamage(crc, cs, full, damaged, q);
    RunSuffix(0, records, e);
    var event, held := Physical(crc, damaged, q).0, Run(cs[..m], CLEAN).1;
    JoinAfter(records[..Whole(0, records, p)], Reported(event, held), Run(cs[Before(0, cs, e)..], CLEAN).0);
    HeaderAligned(cs, m);
    if event.Bad? {
      DroppedThere(crc, damaged, q);
    }
  }

  lemma HeaderAligned(cs: seq<Chunk>, m: nat)
    requires AllFit(0, cs) && m < |cs|
    ensures Pad(Total(cs[..m]) + cs[m].pad) == 0
  {
    SplitFit(0, cs, m);
    hide Total;
  }

  lemma {:induction false} InsideTotal(p: nat, cs: seq<Chunk>, m: nat)
    requires m <= |cs|
    ensures Inside(p, cs, p + Total(cs[..m])) == m
    decreases cs
  {
    if m > 0 {
      assert cs[..m][1..] == cs[1..][..m - 1];
      InsideTotal(p + cs[0].Size(), cs[1..], m - 1);
    } else {
      assert cs[..0] == [];
    }
  }

  lemma UntilDamage(crc: Crc, cs: seq<Chunk>, m: nat, full: Bytes, damaged: Bytes)
    requires AllFit(0, cs) && full == ChunksBytes(crc, cs) && m < |cs| && |damaged| == |full|
    requires
      var q := Total(cs[..m]) + cs[m].pad;
      q <= |full| && damaged[..q] == full[..q] && !Physical(crc, damaged, q).0.Frag?
    ensures
      var q := Total(cs[..m]) + cs[m].pad;
      var (before, held) := Run(cs[..m], CLEAN);
      && q + HEADER <= |damaged|
      && ReadFrom(crc, damaged, 0, CLEAN) == Join(before, After(Reported(Physical(crc, damaged, q).0, held),
                                                    ReadFrom(crc, damaged, BlockEnd(damaged, q), CLEAN)))
  {
    hide *;
    var a, b := cs[..m], cs[m..];
    var p := Total(a);
    assert cs == a + b;
    SplitFit(0, cs, m);
    WrittenSplit(crc, a, b, full);
    FirstOf(p, b);
    assert damaged[0..p] == damaged[..p + b[0].pad][..p] == full[0..p];
    ReadRun(crc, damaged, 0, a, CLEAN);
    FailedHeader(crc, damaged, p, p + b[0].pad, Run(a, CLEAN).1);
  }

  /** What is dropped at the damage, by the bytes there. */
  lemma DroppedThere(crc: Crc, damaged: Bytes, q: nat)
    requires q + HEADER <= |damaged| && Pad(q) == 0 && Physical(crc, damaged, q).0.Bad?
    ensures Physical(crc, damaged, q).0.dropped == if damaged[q + 4..q + HEADER] == [0, 0, 0] then 0 else BlockEnd(damaged, q) - q
  {
    NotAFragment(crc, damaged, q);
  }

  lemma JoinAfter(a: seq<Bytes>, report: seq<nat>, o: Outcome)
    ensures Join(Outcome(a, []), After(report, o)) == Outcome(a + o.records, report + o.drops)
  {
    assert [] + (report + o.drops) == report + o.drops;
  }

  lemma FirstOf(p: nat, b: seq<Chunk>)
    requires AllFit(p, b) && b != []
    ensures b[0].pad == Pad(p) && b[0].pad + HEADER <= Total(b)
  {
  }

  lemma AfterDamage(crc: Crc, cs: seq<Chunk>, full: Bytes, damaged: Bytes, q: nat)
    requires AllFit(0, cs) && full == ChunksBytes(crc, cs) && |damaged| == |full| && q <= |full|
    requires q + Room(q) <= |full| ==> damaged[q + Room(q)..] == full[q + Room(q)..]
    ensures
      var k := Before(0, cs, q + Room(q));
      ReadFrom(crc, damaged, BlockEnd(damaged, q), CLEAN) == Run(cs[k..], CLEAN).0
  {
    hide *;
    var e := q + Room(q);
    Boundary(|damaged|, damaged, q);
    BeforeEnds(0, cs, e);
    var k := Before(0, cs, e);
    FromBoundary(crc, cs, k, full, damaged, e);
    if k == |cs| {
      Halves(cs, k);
      RunNothing(CLEAN);
      EndOfFile(crc, damaged, CLEAN);
    }
  }

  /** The chunks from a block boundary on are read as written. */
  lemma FromBoundary(crc: Crc, cs: seq<Chunk>, k: nat, full: Bytes, damaged: Bytes, e: nat)
    requires AllFit(0, cs) && full == ChunksBytes(crc, cs) && |damaged| == |full| && k <= |cs|
    requires Total(cs[..k]) <= e && (k < |cs| ==> Total(cs[..k]) + cs[k].pad == e)
    requires e <= |full| ==> damaged[e..] == full[e..]
    ensures if k == |cs| then |full| <= e else e <= |full| && ReadFrom(crc, damaged, e, CLEAN) == Run(cs[k..], CLEAN).0
  {
    hide *;
    var a, b := cs[..k], cs[k..];
    Halves(cs, k);
    SplitFit(0, cs, k);
    WrittenSplit(crc, a, b, full);
    if k < |cs| {
      FirstOf(Total(a), b);
      BehindBoth(full, damaged, Total(a), b[0].pad, ChunksBytes(crc, b));
      ReadsSuffix(crc, damaged, Total(a), b);
    }
  }

  lemma BehindBoth(full: Bytes, damaged: Bytes, p: nat, n: nat, rest: Bytes)
    requires p + n <= |full| == |damaged| && damaged[p + n..] == full[p + n..] && full[p..] == rest
    ensures n <= |rest| && damaged[p + n..] == rest[n..]
  {
  }

  lemma Halves(cs: seq<Chunk>, k: nat)
    requires k <= |cs|
    ensures cs == cs[..k] + cs[k..] && (k == |cs| ==> cs[k..] == [])
  {
  }

  lemma Boundary(n: nat, file: Bytes, q: nat)
    requires n == |file| && q <= n
    ensures IsBoundary(q + Room(q))
    ensures BlockEnd(file, q) == if q + Room(q) <= n then q + Room(q) else n
  {
  }

  // ---------------------------------------------------------------- a log that is written on

  /** A writer that goes on after another died in the middle of a record: the part is reported, the new records stand. */
  lemma {:induction false} RunOn(p: nat, records: seq<Bytes>, s: Partial)
    requires !s.open ==> s == CLEAN
    ensures Run(LogChunks(p, records), s).0 ==
      Outcome(records, if records != [] && s.open && s.scratch != [] then [|s.scratch|] else [])
    ensures records != [] ==> Run(LogChunks(p, records), s).1 == CLEAN
  {
    hide *;
    LogUnfolds(p, records, 0);
    RunAll(p, records);
    if records == [] {
      RunNothing(s);
    } else {
      NoOrphans(p, records);
      FirstForgets(p, records[0], LogChunks(p + Total(Fragments(p, records[0], true)), records[1..]), s);
      AnyReport(Run(LogChunks(p, records), CLEAN).0, if s.open && s.scratch != [] then [|s.scratch|] else []);
    }
  }

  lemma AnyReport(o: Outcome, report: seq<nat>)
    requires o.drops == []
    ensures Outcome(o.records, report + o.drops) == Outcome(o.records, report)
  {
    assert report + [] == report;
  }

  /** The beginning of a record forgets what was held, and reports it if it is not empty. */
  lemma FirstForgets(p: nat, data: Bytes, rest: seq<Chunk>, s: Partial)
    requires !s.open ==> s == CLEAN
    ensures
      var cs := Fragments(p, data, true) + rest;
      var report := if s.open && s.scratch != [] then [|s.scratch|] else [];
      && Run(cs, s).1 == Run(cs, CLEAN).1
      && Run(cs, s).0 == Outcome(Run(cs, CLEAN).0.records, report + Run(cs, CLEAN).0.drops)
  {
    FragmentsStep(p, data, true);
    hide Fragments, Run;
    var f := Fragments(p, data, true);
    var tail := f[1..] + rest;
    assert f + rest == [f[0]] + tail;
    RunCons(f[0], tail, s);
    RunCons(f[0], tail, CLEAN);
  }

  lemma WholeFile(crc: Crc, cs: seq<Chunk>, file: Bytes)
    requires AllFit(0, cs) && file == ChunksBytes(crc, cs)
    ensures ReadFrom(crc, file, 0, CLEAN) == Run(cs, CLEAN).0
  {
    hide *;
    SizeOfFile(crc, cs);
    assert file[0..Total(cs)] == file;
    ReadRun(crc, file, 0, cs, CLEAN);
    EndOfFile(crc, file, Run(cs, CLEAN).1);
    JoinNothing(Run(cs, CLEAN).0);
  }

  lemma SizeOfFile(crc: Crc, cs: seq<Chunk>)
    ensures |ChunksBytes(crc, cs)| == Total(cs)
  {
  }

  lemma JoinReports(a: seq<Bytes>, b: seq<Bytes>, drops: seq<nat>)
    ensures Join(Outcome(a, []), Outcome(b, drops)) == Outcome(a + b, drops)
  {
    assert [] + drops == drops;
  }

  lemma HeldOrClean(s: Partial)
    ensures s == CLEAN ==> !s.open && s.scratch == []
  {
  }

  /**
   A log of which only the first `m` fragments were written, and on which another writer went on: the records that were
   whole and the new ones are returned, and the part of a record between them is reported.
   */
  lemma WrittenOn(crc: Crc, records: seq<Bytes>, m: nat, more: seq<Bytes>)
    requires m <= |LogChunks(0, records)|
    ensures
      var cs := LogChunks(0, records);
      var p := Total(cs[..m]);
      var held := Run(cs[..m], CLEAN).1;
      var file := ChunksBytes(crc, cs[..m]) + ChunksBytes(crc, LogChunks(p, more));
      && (if m < |cs| && Orphan(cs[m])
          then held.open && Whole(0, records, p) < |records| && held.scratch <= records[Whole(0, records, p)]
          else held == CLEAN)
      && ReadFrom(crc, file, 0, CLEAN) ==
           Outcome(records[..Whole(0, records, p)] + more, if more != [] && held.scratch != [] then [|held.scratch|] else [])
  {
    hide *;
    var cs := LogChunks(0, records);
    var a := cs[..m];
    var p := Total(a);
    var b := LogChunks(p, more);
    var file := ChunksBytes(crc, a) + ChunksBytes(crc, b);
    LogFits(0, records);
    InsideTotal(0, cs, m);
    RunPrefix(0, records, p);
    StateAt(0, records, p);
    RunOn(p, more, Run(a, CLEAN).1);
    SplitFit(0, cs, m);
    LogFits(p, more);
    FitAppend(0, a, b);
    BytesAppend(crc, a, b);
    RunAppend(a, b, CLEAN);
    WholeFile(crc, a + b, file);
    JoinReports(records[..Whole(0, records, p)], more, Run(b, Run(a, CLEAN).1).0.drops);
    HeldOrClean(Run(a, CLEAN).1);
  }
}
