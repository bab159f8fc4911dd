/**
 Losing power: the bytes of the current log may be cut anywhere behind what was synced.  Opening then gives back a
 beginning of the write queue that has every call which asked for a sync and returned.
 */
module PowerLoss {
  import opened Coding
  import opened Keys
  import opened Reads
  import opened Versions
  import opened LogFormat
  import opened LogRecords
  import opened LogIO
  import opened WriteBatch
  import opened WritePath
  import opened Torn
  import E = Engine
  import G = GroupCommit
  import R = Recovery

  // ---------------------------------------------------------------- a log file

  ghost predicate BatchesOk(bs: seq<G.Record>) {
    forall i :: 0 <= i < |bs| ==> bs[i].seqno < TWO64 && |bs[i].ops| < MAX_COUNT && WriteBatch.AllFit(bs[i].ops)
  }

  /** The records of a log: each a batch. */
  ghost function Batches(bs: seq<G.Record>): (r: seq<Bytes>)
    requires BatchesOk(bs)
    ensures |r| == |bs| && forall i :: 0 <= i < |r| ==> r[i] == BatchBytes(bs[i].seqno, bs[i].ops)
  {
    seq(|bs|, i requires 0 <= i < |bs| => BatchBytes(bs[i].seqno, bs[i].ops))
  }

  /** What the records mean to the engine. */
  function RecordsOf(bs: seq<G.Record>, rank: Bytes -> UserKey): (r: seq<R.Record>)
    ensures |r| == |bs| && forall i :: 0 <= i < |r| ==> r[i] == R.Record(bs[i].seqno, OpsOf(bs[i].ops, rank))
  {
    seq(|bs|, i requires 0 <= i < |bs| => R.Record(bs[i].seqno, OpsOf(bs[i].ops, rank)))
  }

  /** How many records of the log are wholly in a beginning of its file. */
  ghost function WholeRecords(bs: seq<G.Record>, file: Bytes): (k: nat)
    requires BatchesOk(bs)
    ensures k <= |bs|
  {
    Whole(0, Batches(bs), |file|)
  }

  lemma {:induction false} RecordsMean(bs: seq<G.Record>, rank: Bytes -> UserKey)
    ensures R.RecordOps(RecordsOf(bs, rank)) == OpsOf(G.LogOps(bs), rank)
  {
    hide OpsOf;
    if bs == [] {
      NoOps(rank);
    } else {
      var n := |bs| - 1;
      RecordsMean(bs[..n], rank);
      CutRecords(bs, n, rank);
      OpsOfJoin(G.LogOps(bs[..n]), bs[n].ops, rank);
    }
  }

  /** Read a log file: every record that is long enough for a batch is taken apart. */
  method ReadLog(crc: Crc, file: Bytes, rank: Bytes -> UserKey, ghost bs: seq<G.Record>) returns (records: seq<R.Record>)
    requires BatchesOk(bs) && file <= LogBytes(crc, Batches(bs))
    ensures records == RecordsOf(bs[..WholeRecords(bs, file)], rank)
    ensures Distinguishes(rank) ==>
      var ops, written := R.RecordOps(records), G.LogOps(bs[..WholeRecords(bs, file)]);
      |ops| == |written| && forall key, v :: ReadHistory(ops, rank(key), |ops|) == Some(v) <==> LastPut(written, key, v, |written|)
  {
    hide *;
    ghost var k := WholeRecords(bs, file);
    var reader := new Reader(crc, file);
    var read := reader.ReadAll();
    ReadsBatches(crc, file, bs, read, reader.drops);
    records := [];
    var batch := new Batch();
    NothingRead(rank);
    for i := 0 to |read|
      invariant records == RecordsOf(bs[..i], rank)
    {
      BatchIs(bs, i, rank);
      if |read[i]| >= WriteBatch.HEADER {
        batch.rep := read[i];
        var ops, ok := batch.Iterate();
        records := records + [R.Record(Sequence(batch.rep), OpsOf(ops, rank))];
      }
    }
    assert k == |read|;
    RecordsMean(bs[..k], rank);
    if Distinguishes(rank) {
      ReadsLastPuts(G.LogOps(bs[..k]), rank, |G.LogOps(bs[..k])|);
    }
  }

  lemma NothingRead(rank: Bytes -> UserKey)
    ensures forall bs: seq<G.Record> :: RecordsOf(bs[..0], rank) == []
  {
  }

  lemma ReadsBatches(crc: Crc, file: Bytes, bs: seq<G.Record>, read: seq<Bytes>, drops: seq<nat>)
    requires BatchesOk(bs) && file <= LogBytes(crc, Batches(bs))
    requires Outcome(read, drops) == LogIO.Before([], ReadFrom(crc, file, 0, CLEAN))
    ensures |read| == WholeRecords(bs, file) <= |bs|
    ensures forall i :: 0 <= i < |read| ==> read[i] == BatchBytes(bs[i].seqno, bs[i].ops)
  {
    hide ReadFrom, LogBytes, Whole, BatchBytes;
    assert file == LogBytes(crc, Batches(bs))[..|file|];
    PrefixReadsWholeRecords(crc, Batches(bs), |file|);
  }

  lemma BatchIs(bs: seq<G.Record>, i: nat, rank: Bytes -> UserKey)
    requires BatchesOk(bs) && i < |bs|
    ensures
      var rep := BatchBytes(bs[i].seqno, bs[i].ops);
      && |rep| >= WriteBatch.HEADER && Contents(rep) == (bs[i].ops, true) && Sequence(rep) == bs[i].seqno
    ensures RecordsOf(bs[..i + 1], rank) == RecordsOf(bs[..i], rank) + [R.Record(bs[i].seqno, OpsOf(bs[i].ops, rank))]
  {
    hide OpsOf, OpsBytes, Contents, Sequence, WriteBatch.AllFit;
    BatchRoundTrip(bs[i].seqno, bs[i].ops);
    BatchParts(bs[i].seqno, bs[i].ops);
  }

  // ---------------------------------------------------------------- runs with careful compactions

  ghost predicate CarefulRun(states: seq<Pair>, rank: Bytes -> UserKey) {
    && WritePath.Run(states, rank)
    && forall i :: 0 <= i < |states| - 1 && E.FinishStep(states[i].s.st, states[i + 1].s.st) ==> Careful(states[i].s.st)
  }

  lemma {:induction false} AppliesKeepsAlone(s: R.System, s': R.System)
    requires Applies(s, s') && Alone(s.st)
    ensures Alone(s'.st)
    decreases |s.unapplied|
  {
    hide Alone, R.ApplyStep;
    if s.unapplied != [] {
      var t :| R.ApplyStep(s, t) && |t.unapplied| < |s.unapplied| && Applies(t, s');
      ApplyKeepsAlone(s, t);
      AppliesKeepsAlone(t, s');
    }
  }

  lemma StepKeepsAlone(p: Pair, p': Pair, rank: Bytes -> UserKey)
    requires R.SystemInv(p.s) && Step(p, p', rank) && Alone(p.s.st)
    requires E.FinishStep(p.s.st, p'.s.st) ==> Careful(p.s.st)
    ensures Alone(p'.s.st)
  {
    hide *;
    StepCases(p, p', rank);
    if p'.s == p.s {
    } else if R.LogStep(p.s, p'.s) {
      SameEngine(p.s, p'.s);
    } else if Applies(p.s, p'.s) {
      AppliesKeepsAlone(p.s, p'.s);
    } else {
      assert R.SystemStep(p.s, p'.s);
      IsCareful(p.s, p'.s);
      SystemStepKeepsAlone(p.s, p'.s);
    }
  }

  lemma StepCases(p: Pair, p': Pair, rank: Bytes -> UserKey)
    requires Step(p, p', rank)
    ensures p'.s == p.s || R.LogStep(p.s, p'.s) || Applies(p.s, p'.s) || R.SystemStep(p.s, p'.s)
  {
    hide Applies, R.LogStep, R.SwitchLogStep, R.BuildTableStep, R.InstallFlushStep, R.InstallCompactionStep, R.MemoryStep, R.RemoveStep;
  }

  lemma IsCareful(s: R.System, s': R.System)
    requires R.SystemStep(s, s') && (E.FinishStep(s.st, s'.st) ==> Careful(s.st))
    ensures CarefulStep(s, s')
  {
    hide R.SystemStep, E.FinishStep, Careful;
  }

  lemma {:induction false} EveryCarefulRunIsAlone(states: seq<Pair>, rank: Bytes -> UserKey, i: nat)
    requires CarefulRun(states, rank) && i < |states|
    ensures Coupled(states[i], rank) && R.SystemInv(states[i].s) && Alone(states[i].s.st)
  {
    hide *;
    CarefulParts(states, rank, i);
    EveryRunIsCoupled(states, rank, i);
    CoupledParts(states[i], rank);
    if i == 0 {
      NewIsAlone();
    } else {
      EveryCarefulRunIsAlone(states, rank, i - 1);
      StepKeepsAlone(states[i - 1], states[i], rank);
    }
  }

  lemma CarefulParts(states: seq<Pair>, rank: Bytes -> UserKey, i: nat)
    requires CarefulRun(states, rank) && i < |states|
    ensures WritePath.Run(states, rank) && (i == 0 ==> states[i].s == R.NewSystem())
    ensures i > 0 ==> Step(states[i - 1], states[i], rank)
    ensures i > 0 ==> (E.FinishStep(states[i - 1].s.st, states[i].s.st) ==> Careful(states[i - 1].s.st))
  {
    hide Step, E.FinishStep, Careful, R.NewSystem, G.Init;
  }

  // ---------------------------------------------------------------- after the power is back

  /** Everything that a sync has put on disk is in the surviving part. */
  ghost predicate SyncedSurvive(q: G.State, n: nat) {
    forall w :: w in q.durable && w < |q.arrived| ==> |G.Ops(q.arrived[..w + 1])| <= n
  }

  /** The write queue up to the last of the first `k` records of the current log. */
  ghost function HistoryLeft(p: Pair, rank: Bytes -> UserKey, k: nat): (h: seq<Op>)
    requires p.s.logNumber in p.s.disk.logs && k <= |p.s.disk.logs[p.s.logNumber]|
  {
    var upTo := if LoggedUpTo(p.q) <= |p.q.arrived| then LoggedUpTo(p.q) else 0;
    var all := OpsOf(G.Ops(p.q.arrived[..upTo]), rank);
    var n := p.s.st.memFrom + |R.RecordOps(p.s.disk.logs[p.s.logNumber][..k])|;
    if n <= |all| then all[..n] else all
  }

  lemma LeftIsSurviving(p: Pair, rank: Bytes -> UserKey, k: nat)
    requires R.SystemInv(p.s) && LoggedUpTo(p.q) <= |p.q.arrived| && p.s.logNumber in p.s.disk.logs
    requires R.Logged(p.s) == OpsOf(G.Ops(p.q.arrived[..LoggedUpTo(p.q)]), rank) && k <= |p.s.disk.logs[p.s.logNumber]|
    ensures HistoryLeft(p, rank, k) == Surviving(p.s, k) <= R.Logged(p.s)
  {
    hide R.SystemInv, G.Ops, OpsOf, R.RecordOps, Surviving;
    SurvivingIs(p.s, k);
  }

  lemma SyncedIsPrefix(p: Pair, rank: Bytes -> UserKey, h: seq<Op>, w: nat)
    requires Coupled(p, rank) && w < p.q.finished && p.q.arrived[w].sync && p.q.arrived[w].batch.Some?
    requires p.q.finished <= LoggedUpTo(p.q) <= |p.q.arrived| && h <= OpsOf(G.Ops(p.q.arrived[..LoggedUpTo(p.q)]), rank)
    requires SyncedSurvive(p.q, |h|)
    ensures OpsOf(G.Ops(p.q.arrived[..w + 1]), rank) <= h
  {
    hide *;
    SyncedIsDurable(p, rank, w);
    SurvivesFor(p.q, |h|, w);
    QueuePrefix(p.q.arrived, w + 1, LoggedUpTo(p.q), rank);
    var all := OpsOf(G.Ops(p.q.arrived[..LoggedUpTo(p.q)]), rank);
    var mine := OpsOf(G.Ops(p.q.arrived[..w + 1]), rank);
    assert |mine| <= |h| && mine == all[..|mine|] && h == all[..|h|];
  }

  lemma SurvivesFor(q: G.State, n: nat, w: nat)
    requires SyncedSurvive(q, n) && w in q.durable && w < |q.arrived|
    ensures |G.Ops(q.arrived[..w + 1])| <= n
  {
    hide G.Ops;
  }

  lemma SyncedIsDurable(p: Pair, rank: Bytes -> UserKey, w: nat)
    requires Coupled(p, rank) && w < p.q.finished && p.q.arrived[w].sync && p.q.arrived[w].batch.Some?
    ensures w in p.q.durable && p.q.finished <= |p.q.arrived|
  {
    hide R.SystemInv, Histories, G.LogOps, G.Ops, G.Numbered, G.GroupOk;
  }

  lemma QueuePrefix(arrived: seq<G.Request>, m: nat, n: nat, rank: Bytes -> UserKey)
    requires m <= n <= |arrived|
    ensures OpsOf(G.Ops(arrived[..m]), rank) <= OpsOf(G.Ops(arrived[..n]), rank)
  {
    hide G.Ops, OpsOf;
    assert arrived[..n] == arrived[..m] + arrived[m..n];
    G.OpsJoin(arrived[..m], arrived[m..n]);
    OpsOfJoin(G.Ops(arrived[..m]), G.Ops(arrived[m..n]), rank);
  }

  /**
   Open after power was lost at any point of a run with careful compactions.  `file` is what is left of the current
   log.  The recovered history is a beginning of the queue, and every call that asked for a sync and returned is in it.
   */
  method OpenAfterPowerLoss(crc: Crc, file: Bytes, current: nat, logs: map<nat, seq<R.Record>>, tables: map<nat, seq<Entry>>,
      manifest: R.Manifest, full: seq<Entry> -> bool, size: seq<Entry> -> nat, rank: Bytes -> UserKey,
      ghost states: seq<Pair>, ghost bs: seq<G.Record>)
    returns (disk': R.Disk, logNumber: nat)
    requires CarefulRun(states, rank)
    requires
      var s := states[|states| - 1].s;
      && s.disk == R.Disk(logs, tables, manifest) && current == s.logNumber && current in logs
      && BatchesOk(bs) && RecordsOf(bs, rank) == logs[current] && file <= LogBytes(crc, Batches(bs))
    requires SyncedSurvive(states[|states| - 1].q, |HistoryLeft(states[|states| - 1], rank, WholeRecords(bs, file))|)
    ensures
      var h := HistoryLeft(states[|states| - 1], rank, WholeRecords(bs, file));
      && |disk'.manifest.version| == Keys.NUM_LEVELS && disk'.manifest.last == (if manifest.last > |h| then manifest.last else |h|)
      && forall user, n: nat :: n >= |h| ==>
           Answer(LevelEntries(disk'.manifest.version, 0, Keys.NUM_LEVELS), user, n) == ReadHistory(h, user, |h|)
    ensures
      var q, h := states[|states| - 1].q, HistoryLeft(states[|states| - 1], rank, WholeRecords(bs, file));
      && LoggedUpTo(q) <= |q.arrived| && |h| <= |G.Ops(q.arrived[..LoggedUpTo(q)])| && |disk'.manifest.version| == Keys.NUM_LEVELS
      && (Distinguishes(rank) ==> forall key, v, n: nat :: n >= |h| ==>
            (Answer(LevelEntries(disk'.manifest.version, 0, Keys.NUM_LEVELS), rank(key), n) == Some(v) <==>
              LastPut(G.Ops(q.arrived[..LoggedUpTo(q)]), key, v, |h|)))
    ensures
      var q, h := states[|states| - 1].q, HistoryLeft(states[|states| - 1], rank, WholeRecords(bs, file));
      && q.finished <= LoggedUpTo(q) <= |q.arrived| && h <= OpsOf(G.Ops(q.arrived[..LoggedUpTo(q)]), rank)
      && forall w :: 0 <= w < q.finished && q.arrived[w].sync && q.arrived[w].batch.Some? ==> OpsOf(G.Ops(q.arrived[..w + 1]), rank) <= h
  {
    hide *;
    RunHasStates(states, rank);
    ghost var p := states[|states| - 1];
    EveryCarefulRunIsAlone(states, rank, |states| - 1);
    DiskHoldsTheQueue(p, rank);
    var records := ReadLog(crc, file, rank, bs);
    ghost var k := WholeRecords(bs, file);
    CutRecords(bs, k, rank);
    TornIsRecoverable(p.s, k);
    LeftIsSurviving(p, rank, k);
    ghost var h, start := HistoryLeft(p, rank, k), p.s.st.FilesUpTo();
    var disk := R.Disk(logs[current := records], tables, manifest);
    HasTables(disk, h, start);
    var ok;
    ghost var s';
    ok, disk', logNumber, s' := R.Recover(disk, full, size, h, start, start);
    if Distinguishes(rank) {
      PrefixReads(h, OpsOf(G.Ops(p.q.arrived[..LoggedUpTo(p.q)]), rank));
      ReadsLastPuts(G.Ops(p.q.arrived[..LoggedUpTo(p.q)]), rank, |h|);
    }
    forall w | 0 <= w < p.q.finished && p.q.arrived[w].sync && p.q.arrived[w].batch.Some?
      ensures OpsOf(G.Ops(p.q.arrived[..w + 1]), rank) <= h
    {
      SyncedIsPrefix(p, rank, h, w);
    }
  }

  /** A read looks only at the history up to its sequence number. */
  lemma PrefixReads(h: seq<Op>, all: seq<Op>)
    requires h <= all
    ensures forall user :: ReadHistory(h, user, |h|) == ReadHistory(all, user, |h|)
  {
    hide *;
    forall user
      ensures ReadHistory(h, user, |h|) == ReadHistory(all, user, |h|)
    {
      PrefixRead(h, all, user, |h|);
    }
  }

  lemma {:induction false} PrefixRead(h: seq<Op>, all: seq<Op>, user: UserKey, n: nat)
    requires h <= all && n <= |h|
    ensures ReadHistory(h, user, n) == ReadHistory(all, user, n)
  {
    if n > 0 {
      PrefixRead(h, all, user, n - 1);
    }
  }

  lemma RunHasStates(states: seq<Pair>, rank: Bytes -> UserKey)
    requires CarefulRun(states, rank)
    ensures states != []
  {
  }

  lemma CutRecords(bs: seq<G.Record>, k: nat, rank: Bytes -> UserKey)
    requires k <= |bs|
    ensures RecordsOf(bs[..k], rank) == RecordsOf(bs, rank)[..k]
  {
    hide OpsOf;
  }

  lemma HasTables(d: R.Disk, h: seq<Op>, start: nat)
    requires R.Recoverable(d, h, start, start)
    ensures !R.MissingTable(d)
  {
    hide E.Inv, R.Chain, R.IsKept;
    R.NoneMissing(d);
  }
}
