/**
 The write path as a whole: the commit queue drives the engine and its logs.  The leader's group is logged, put
 into the memtable with sequence numbers nobody reads yet, and then published; the engine's history is what has
 been published.  In between, flushes and compactions, snapshots and file removal go on.
 */
module WritePath {
  import opened Keys
  import opened Reads
  import opened WriteBatch
  import E = Engine
  import G = GroupCommit
  import R = Recovery

  /** An operation of a batch, with its key's place in the comparator's order. */
  function OpOf(b: BatchOp, rank: Bytes -> UserKey): Op {
    match b
    case Put(key, value) => Op(rank(key), Value, value)
    case Delete(key) => Op(rank(key), Deletion, [])
  }

  function OpsOf(bs: seq<BatchOp>, rank: Bytes -> UserKey): (ops: seq<Op>)
    ensures |ops| == |bs| && forall i :: 0 <= i < |bs| ==> ops[i] == OpOf(bs[i], rank)
  {
    seq(|bs|, i requires 0 <= i < |bs| => OpOf(bs[i], rank))
  }

  lemma OpsOfJoin(a: seq<BatchOp>, b: seq<BatchOp>, rank: Bytes -> UserKey)
    ensures OpsOf(a + b, rank) == OpsOf(a, rank) + OpsOf(b, rank)
  {
  }

  // ---------------------------------------------------------------- what the operations mean to a reader

  /** The comparator tells different keys apart. */
  ghost predicate Distinguishes(rank: Bytes -> UserKey) {
    forall a, b :: rank(a) == rank(b) ==> a == b
  }

  /** Of the first `n` operations the last one about `key` puts `v`. */
  ghost predicate LastPut(bs: seq<BatchOp>, key: Bytes, v: Bytes, n: nat)
    requires n <= |bs|
  {
    exists i :: 0 <= i < n && bs[i] == Put(key, v) && forall j :: i < j < n ==> bs[j].key != key
  }

  /** After one more operation: a put gives its value, a delete nothing, and any other key is as before. */
  lemma LastPutStep(bs: seq<BatchOp>, key: Bytes, v: Bytes, n: nat)
    requires 0 < n <= |bs|
    ensures LastPut(bs, key, v, n) <==>
      if bs[n - 1].key == key then bs[n - 1] == Put(key, v) else LastPut(bs, key, v, n - 1)
  {
    if LastPut(bs, key, v, n) {
      var i :| 0 <= i < n && bs[i] == Put(key, v) && forall j :: i < j < n ==> bs[j].key != key;
    }
    if bs[n - 1].key != key && LastPut(bs, key, v, n - 1) {
      var i :| 0 <= i < n - 1 && bs[i] == Put(key, v) && forall j :: i < j < n - 1 ==> bs[j].key != key;
    }
  }

  /** A read of the history finds exactly what was put last and not deleted since. */
  lemma {:induction false} ReadsLastPut(bs: seq<BatchOp>, rank: Bytes -> UserKey, key: Bytes, v: Bytes, n: nat)
    requires Distinguishes(rank) && n <= |bs|
    ensures ReadHistory(OpsOf(bs, rank), rank(key), n) == Some(v) <==> LastPut(bs, key, v, n)
  {
    hide LastPut;
    if n == 0 {
      NothingPut(bs, key, v);
    } else {
      LastPutStep(bs, key, v, n);
      ReadsLastPut(bs, rank, key, v, n - 1);
      assert rank(bs[n - 1].key) == rank(key) ==> bs[n - 1].key == key;
    }
  }

  lemma NothingPut(bs: seq<BatchOp>, key: Bytes, v: Bytes)
    ensures !LastPut(bs, key, v, 0)
  {
  }

  /** The reads of a history of these operations, for every key at once. */
  lemma ReadsLastPuts(bs: seq<BatchOp>, rank: Bytes -> UserKey, n: nat)
    requires Distinguishes(rank) && n <= |bs|
    ensures forall key, v :: ReadHistory(OpsOf(bs, rank), rank(key), n) == Some(v) <==> LastPut(bs, key, v, n)
  {
    hide *;
    forall key, v
      ensures ReadHistory(OpsOf(bs, rank), rank(key), n) == Some(v) <==> LastPut(bs, key, v, n)
    {
      ReadsLastPut(bs, rank, key, v, n);
    }
  }

  /** The queue and the engine. */
  datatype Pair = Pair(q: G.State, s: R.System)

  /** What the leader has logged and not yet published. */
  function Waiting(q: G.State): seq<BatchOp> {
    if q.phase.Logged? || q.phase.Inserting? then q.phase.g.ops else []
  }

  // ---------------------------------------------------------------- steps

  ghost predicate QueueStep(p: Pair, p': Pair) {
    && p'.s == p.s
    && (G.ArriveStep(p.q, p'.q) || G.BuildStep(p.q, p'.q) || G.ForcedStep(p.q, p'.q) || G.SyncStep(p.q, p'.q)
        || G.InsertStep(p.q, p'.q))
  }

  /** The group's record goes to the engine's current log. */
  ghost predicate LogsStep(p: Pair, p': Pair, rank: Bytes -> UserKey) {
    && G.LogStep(p.q, p'.q) && R.LogStep(p.s, p'.s) && p'.s.unapplied == OpsOf(p.q.phase.g.ops, rank)
  }

  /** All that was logged becomes history, one operation after the other. */
  ghost predicate Applies(s: R.System, s': R.System)
    decreases |s.unapplied|
  {
    if s.unapplied == [] then s' == s
    else exists t :: R.ApplyStep(s, t) && |t.unapplied| < |s.unapplied| && Applies(t, s')
  }

  ghost predicate PublishesStep(p: Pair, p': Pair) {
    G.PublishStep(p.q, p'.q) && Applies(p.s, p'.s)
  }

  /** The leader switches memtables before it builds its group; the rest may happen at any time. */
  ghost predicate EngineStep(p: Pair, p': Pair) {
    && p'.q == p.q
    && ((p.q.phase.Idle? && R.SwitchLogStep(p.s, p'.s))
        || R.BuildTableStep(p.s, p'.s) || R.InstallFlushStep(p.s, p'.s) || R.InstallCompactionStep(p.s, p'.s)
        || R.MemoryStep(p.s, p'.s) || R.RemoveStep(p.s, p'.s))
  }

  ghost predicate Step(p: Pair, p': Pair, rank: Bytes -> UserKey) {
    QueueStep(p, p') || LogsStep(p, p', rank) || PublishesStep(p, p') || EngineStep(p, p')
  }

  ghost predicate Run(states: seq<Pair>, rank: Bytes -> UserKey) {
    && states != [] && G.Init(states[0].q) && states[0].s == R.NewSystem()
    && forall i :: 0 <= i < |states| - 1 ==> Step(states[i], states[i + 1], rank)
  }

  // ---------------------------------------------------------------- what every step keeps

  ghost predicate Histories(p: Pair, rank: Bytes -> UserKey) {
    && p.q.finished <= |p.q.arrived|
    && p.s.st.history == OpsOf(G.Ops(p.q.arrived[..p.q.finished]), rank)
    && p.s.unapplied == OpsOf(Waiting(p.q), rank)
  }

  ghost predicate Coupled(p: Pair, rank: Bytes -> UserKey) {
    G.Inv(p.q) && R.SystemInv(p.s) && Histories(p, rank)
  }

  lemma QueueKeeps(p: Pair, p': Pair, rank: Bytes -> UserKey)
    requires G.Inv(p.q) && Histories(p, rank) && QueueStep(p, p')
    ensures Histories(p', rank)
  {
    hide G.Ops, OpsOf, G.LogOps;
    if G.ArriveStep(p.q, p'.q) {
      assert p'.q.arrived[..p.q.finished] == p.q.arrived[..p.q.finished];
    } else if G.ForcedStep(p.q, p'.q) {
      hide G.SizeOf;
      G.PrefixStep(p.q.arrived, p.q.finished);
    }
  }

  lemma LogsKeeps(p: Pair, p': Pair, rank: Bytes -> UserKey)
    requires Histories(p, rank) && LogsStep(p, p', rank)
    ensures Histories(p', rank)
  {
    hide G.Ops, OpsOf;
  }

  lemma {:induction false} AppliesAdds(s: R.System, s': R.System)
    requires Applies(s, s')
    ensures s'.st.history == s.st.history + s.unapplied && s'.unapplied == []
    ensures R.SystemInv(s) ==> R.SystemInv(s')
    decreases |s.unapplied|
  {
    hide R.SystemInv, E.WriteStep;
    if s.unapplied != [] {
      var t :| R.ApplyStep(s, t) && |t.unapplied| < |s.unapplied| && Applies(t, s');
      if R.SystemInv(s) {
        R.ApplyKeeps(s, t);
      }
      AppliesAdds(t, s');
      assert s.unapplied == [s.unapplied[0]] + s.unapplied[1..];
    }
  }

  lemma PublishesKeeps(p: Pair, p': Pair, rank: Bytes -> UserKey)
    requires G.Inv(p.q) && Histories(p, rank) && PublishesStep(p, p')
    ensures Histories(p', rank)
  {
    hide G.Ops, OpsOf, G.LogOps, Applies, G.Numbered;
    AppliesAdds(p.s, p'.s);
    var a, g := p.q.arrived, p.q.phase.g;
    assert a[..g.upto] == a[..g.from] + a[g.from..g.upto];
    G.OpsJoin(a[..g.from], a[g.from..g.upto]);
    OpsOfJoin(G.Ops(a[..g.from]), g.ops, rank);
    NoOps(rank);
  }

  lemma NoOps(rank: Bytes -> UserKey)
    ensures OpsOf([], rank) == []
  {
  }

  /** A step of the engine's own leaves the history and what is logged alone. */
  lemma EngineStepLeaves(s: R.System, s': R.System)
    requires R.SwitchLogStep(s, s') || R.BuildTableStep(s, s') || R.InstallFlushStep(s, s') || R.InstallCompactionStep(s, s')
      || R.MemoryStep(s, s') || R.RemoveStep(s, s')
    ensures s'.st.history == s.st.history && s'.unapplied == s.unapplied
  {
    hide R.TablesOnDisk, E.MergedInput, E.SafeToDrop;
  }

  lemma StepKeepsCoupled(p: Pair, p': Pair, rank: Bytes -> UserKey)
    requires Coupled(p, rank) && Step(p, p', rank)
    ensures Coupled(p', rank)
  {
    hide G.Inv, R.SystemInv, Histories, G.ArriveStep, G.BuildStep, G.ForcedStep, G.SyncStep, G.InsertStep, G.LogStep;
    hide G.PublishStep, R.LogStep, Applies, R.SwitchLogStep, R.BuildTableStep, R.InstallFlushStep;
    hide R.InstallCompactionStep, R.MemoryStep, R.RemoveStep, OpsOf;
    if QueueStep(p, p') {
      QueueKeeps(p, p', rank);
      G.StepKeepsInv(p.q, p'.q);
    } else if LogsStep(p, p', rank) {
      LogsKeeps(p, p', rank);
      G.StepKeepsInv(p.q, p'.q);
      R.LogKeeps(p.s, p'.s);
    } else if PublishesStep(p, p') {
      PublishesKeeps(p, p', rank);
      G.StepKeepsInv(p.q, p'.q);
      AppliesAdds(p.s, p'.s);
    } else {
      EngineStepLeaves(p.s, p'.s);
      SameHistories(p, p', rank);
      R.SystemStepKeeps(p.s, p'.s);
    }
  }

  lemma SameHistories(p: Pair, p': Pair, rank: Bytes -> UserKey)
    requires Histories(p, rank) && p'.q == p.q && p'.s.st.history == p.s.st.history && p'.s.unapplied == p.s.unapplied
    ensures Histories(p', rank)
  {
  }

  lemma {:induction false} EveryRunIsCoupled(states: seq<Pair>, rank: Bytes -> UserKey, i: nat)
    requires Run(states, rank) && i < |states|
    ensures Coupled(states[i], rank)
  {
    hide Step, G.Init, R.NewSystem, G.Inv, R.SystemInv, Histories;
    if i == 0 {
      G.InitInv(states[0].q);
      R.NewSystemInv();
      Starts(states[0], rank);
    } else {
      EveryRunIsCoupled(states, rank, i - 1);
      StepKeepsCoupled(states[i - 1], states[i], rank);
    }
  }

  lemma Starts(p: Pair, rank: Bytes -> UserKey)
    requires G.Init(p.q) && p.s == R.NewSystem()
    ensures Histories(p, rank)
  {
    assert p.q.arrived[..0] == [];
  }

  // ---------------------------------------------------------------- the queue never waits for the engine

  lemma {:induction false} AppliesAll(s: R.System) returns (s': R.System)
    requires R.SystemInv(s)
    ensures Applies(s, s')
    decreases |s.unapplied|
  {
    hide R.SystemInv;
    if s.unapplied == [] {
      s' := s;
    } else {
      var t := R.ApplyOne(s);
      s' := AppliesAll(t);
    }
  }

  lemma MayLog(s: R.System, ops: seq<Op>) returns (s': R.System)
    requires R.SystemInv(s) && s.unapplied == [] && |s.st.history| + |ops| < MAX_SEQUENCE
    ensures R.LogStep(s, s') && s'.unapplied == ops
  {
    hide E.Inv, R.TablesOnDisk;
    s' := s.(unapplied := ops, disk := s.disk.(logs :=
      s.disk.logs[s.logNumber := s.disk.logs[s.logNumber] + [R.Record(|s.st.history| + 1, ops)]]));
  }

  /** Every step of the queue is a step of the whole, as long as sequence numbers last. */
  lemma EngineFollows(p: Pair, q': G.State, rank: Bytes -> UserKey) returns (p': Pair)
    requires Coupled(p, rank) && G.Step(p.q, q') && |G.LogOps(q'.log)| < MAX_SEQUENCE
    ensures p'.q == q' && Step(p, p', rank)
  {
    hide G.Inv, R.SystemInv, Histories, G.ArriveStep, G.BuildStep, G.ForcedStep, G.SyncStep, G.InsertStep, G.LogStep;
    hide G.PublishStep, R.LogStep, Applies, OpsOf, R.SwitchLogStep, R.BuildTableStep, R.InstallFlushStep;
    hide R.InstallCompactionStep, R.MemoryStep, R.RemoveStep, G.LogOps;
    if G.LogStep(p.q, q') {
      Unlogged(p, q', rank);
      var s' := MayLog(p.s, OpsOf(p.q.phase.g.ops, rank));
      p' := Pair(q', s');
      assert LogsStep(p, p', rank);
    } else if G.PublishStep(p.q, q') {
      var s' := AppliesAll(p.s);
      p' := Pair(q', s');
      assert PublishesStep(p, p');
    } else {
      p' := Pair(q', p.s);
      assert QueueStep(p, p');
    }
  }

  lemma Unlogged(p: Pair, q': G.State, rank: Bytes -> UserKey)
    requires Coupled(p, rank) && G.LogStep(p.q, q') && |G.LogOps(q'.log)| < MAX_SEQUENCE
    ensures p.q.phase.Built? && p.s.unapplied == [] && |p.s.st.history| + |OpsOf(p.q.phase.g.ops, rank)| < MAX_SEQUENCE
  {
    hide R.SystemInv, G.Ops, G.Numbered;
    assert q'.log[..|p.q.log|] == p.q.log;
  }

  // ---------------------------------------------------------------- what readers see

  /** Entries of the group that is being inserted: in the memtable, but behind the last sequence number. */
  ghost function Unpublished(q: G.State, rank: Bytes -> UserKey): set<Entry> {
    set a | a in q.mem && a.seqno > q.last :: EntryOf(OpOf(a.op, rank), a.seqno)
  }

  /** Everything that a reader comes across. */
  ghost function Visible(p: Pair, rank: Bytes -> UserKey): set<Entry>
    requires |p.s.st.version| == Keys.NUM_LEVELS
  {
    p.s.st.Contents() + Unpublished(p.q, rank)
  }

  /** Entries later than the snapshot do not matter. */
  lemma LaterIsUnseen(es: set<Entry>, later: set<Entry>, user: UserKey, s: nat)
    requires Distinct(es) && forall e :: e in later ==> e.ikey.seqno > s
    ensures Answer(es + later, user, s) == Answer(es, user, s)
  {
    if HasEntry(es, user, s) {
      NewestExists(es, user, s);
      forall x
        ensures IsNewest(es + later, user, s, x) <==> IsNewest(es, user, s, x)
      {
        SameNewest(es, later, user, s, x);
      }
      var e :| IsNewest(es, user, s, e);
      AnswerIs(es, user, s, e);
      OnlyNewest(es, later, user, s, e);
    } else {
      AnswerNone(es, user, s);
      AnswerNone(es + later, user, s);
    }
  }

  lemma SameNewest(es: set<Entry>, later: set<Entry>, user: UserKey, s: nat, x: Entry)
    requires forall e :: e in later ==> e.ikey.seqno > s
    ensures IsNewest(es + later, user, s, x) <==> IsNewest(es, user, s, x)
  {
  }

  lemma OnlyNewest(es: set<Entry>, later: set<Entry>, user: UserKey, s: nat, e: Entry)
    requires Distinct(es) && IsNewest(es, user, s, e)
    requires forall x :: IsNewest(es + later, user, s, x) <==> IsNewest(es, user, s, x)
    ensures Answer(es + later, user, s) == if e.ikey.kind == Value then Some(e.value) else None
  {
    forall x | IsNewest(es + later, user, s, x)
      ensures x == e
    {
    }
  }

  lemma LiveIsPublished(p: Pair, rank: Bytes -> UserKey, n: nat)
    requires Coupled(p, rank) && (n in p.s.st.snapshots || n == p.q.last)
    ensures n <= p.q.last == |p.s.st.history| && E.Inv(p.s.st) && |p.s.st.version| == Keys.NUM_LEVELS
    ensures n in p.s.st.snapshots || n == p.s.st.LastSequence()
    ensures Distinct(p.s.st.Contents())
  {
    hide G.LogOps, G.Ops, G.Numbered, R.MemtablesLogged, R.ManifestOk, R.TablesOnDisk, E.MemtablesOk, E.FilesOk, E.JobOk;
    hide Agrees;
    E.FromHistoryDistinct(p.s.st.Contents(), p.s.st.history);
  }

  /**
   A read at a live snapshot or at the last sequence number, at any time, gives what the published groups give:
   whole groups in queue order, and nothing of a group that is still being inserted.  In terms of the queued batches:
   the value that their operations up to there put last, if they did not delete it since.
   */
  lemma EveryReadSeesWholeGroups(states: seq<Pair>, rank: Bytes -> UserKey, i: nat, user: UserKey, n: nat)
    requires Run(states, rank) && i < |states|
    requires n in states[i].s.st.snapshots || n == states[i].q.last
    ensures
      var p := states[i];
      && p.q.finished <= |p.q.arrived| && |p.s.st.version| == Keys.NUM_LEVELS
      && n <= |G.Ops(p.q.arrived[..p.q.finished])|
      && Answer(Visible(p, rank), user, n) == ReadHistory(OpsOf(G.Ops(p.q.arrived[..p.q.finished]), rank), user, n)
      && (Distinguishes(rank) ==> forall key, v :: rank(key) == user ==>
           (Answer(Visible(p, rank), user, n) == Some(v) <==> LastPut(G.Ops(p.q.arrived[..p.q.finished]), key, v, n)))
  {
    hide *;
    EveryRunIsCoupled(states, rank, i);
    var p := states[i];
    LiveIsPublished(p, rank, n);
    HistoryIs(p, rank);
    E.LiveReads(p.s.st, user, n);
    UnpublishedIsLater(p.q, rank);
    VisibleIs(p, rank);
    LaterIsUnseen(p.s.st.Contents(), Unpublished(p.q, rank), user, n);
    if Distinguishes(rank) {
      ReadsLastPuts(G.Ops(p.q.arrived[..p.q.finished]), rank, n);
    }
  }

  lemma VisibleIs(p: Pair, rank: Bytes -> UserKey)
    requires |p.s.st.version| == Keys.NUM_LEVELS
    ensures Visible(p, rank) == p.s.st.Contents() + Unpublished(p.q, rank)
  {
  }

  lemma HistoryIs(p: Pair, rank: Bytes -> UserKey)
    requires Coupled(p, rank)
    ensures p.q.finished <= |p.q.arrived| && p.s.st.history == OpsOf(G.Ops(p.q.arrived[..p.q.finished]), rank)
    ensures |G.Ops(p.q.arrived[..p.q.finished])| == |p.s.st.history|
  {
  }

  lemma UnpublishedIsLater(q: G.State, rank: Bytes -> UserKey)
    ensures forall e :: e in Unpublished(q, rank) ==> e.ikey.seqno > q.last
  {
  }

  // ---------------------------------------------------------------- what a crash leaves

  /** How far the log reaches in the queue. */
  function LoggedUpTo(q: G.State): nat {
    if q.phase.Logged? || q.phase.Inserting? then q.phase.g.upto else q.finished
  }

  /** The engine's logs and tables together hold the queue up to the last logged group, the group included. */
  lemma DiskHoldsTheQueue(p: Pair, rank: Bytes -> UserKey)
    requires Coupled(p, rank)
    ensures p.q.finished <= LoggedUpTo(p.q) <= |p.q.arrived|
    ensures R.Logged(p.s) == OpsOf(G.Ops(p.q.arrived[..LoggedUpTo(p.q)]), rank)
    ensures Distinguishes(rank) ==>
      var bs := G.Ops(p.q.arrived[..LoggedUpTo(p.q)]);
      forall key, v :: ReadHistory(R.Logged(p.s), rank(key), |R.Logged(p.s)|) == Some(v) <==> LastPut(bs, key, v, |bs|)
  {
    hide R.SystemInv, G.Ops, G.LogOps, OpsOf, G.Numbered, LastPut, Distinguishes, ReadHistory;
    NoOps(rank);
    if p.q.phase.Logged? || p.q.phase.Inserting? {
      var a, g := p.q.arrived, p.q.phase.g;
      assert a[..g.upto] == a[..g.from] + a[g.from..g.upto];
      G.OpsJoin(a[..g.from], a[g.from..g.upto]);
      OpsOfJoin(G.Ops(a[..g.from]), g.ops, rank);
    }
    if Distinguishes(rank) {
      ReadsLastPuts(G.Ops(p.q.arrived[..LoggedUpTo(p.q)]), rank, |G.Ops(p.q.arrived[..LoggedUpTo(p.q)])|);
    }
  }

  /**
   Stop at any point of any run and open what is on disk: every group that was logged is back, in queue order.
   Calls that had returned are among them, and a read finds exactly what was put last and not deleted since.
   */
  method OpenAfterCrash(disk: R.Disk, full: seq<Entry> -> bool, size: seq<Entry> -> nat,
                        ghost states: seq<Pair>, ghost rank: Bytes -> UserKey)
    returns (disk': R.Disk, logNumber: nat, ghost s': R.System)
    requires Run(states, rank) && disk == states[|states| - 1].s.disk
    ensures s'.disk == disk' && s'.logNumber == logNumber && R.SystemInv(s') && |s'.st.version| == Keys.NUM_LEVELS
    ensures
      var q := states[|states| - 1].q;
      && q.returned == G.Between(0, q.finished) && q.finished <= LoggedUpTo(q) <= |q.arrived|
      && disk'.manifest.last == |G.Ops(q.arrived[..LoggedUpTo(q)])|
    ensures
      var q := states[|states| - 1].q;
      && q.finished <= LoggedUpTo(q) <= |q.arrived|
      && var h := OpsOf(G.Ops(q.arrived[..LoggedUpTo(q)]), rank);
         && s'.st.history == h
         && (forall user :: Answer(s'.st.Contents(), user, |h|) == ReadHistory(h, user, |h|))
         && (Distinguishes(rank) ==> forall key, v ::
               Answer(s'.st.Contents(), rank(key), |h|) == Some(v) <==>
                 LastPut(G.Ops(q.arrived[..LoggedUpTo(q)]), key, v, |h|))
  {
    hide *;
    RunIsNotEmpty(states, rank);
    ghost var p := states[|states| - 1];
    EveryRunIsCoupled(states, rank, |states| - 1);
    DiskHoldsTheQueue(p, rank);
    CoupledParts(p, rank);
    R.RunningIsRecoverable(p.s);
    RunningHasTables(p.s);
    var ok;
    ok, disk', logNumber, s' := R.Recover(disk, full, size, R.Logged(p.s), p.s.st.floor, p.s.st.FilesUpTo());
    R.ReadsLogged(s');
    if Distinguishes(rank) {
      ReadsLastPuts(G.Ops(p.q.arrived[..LoggedUpTo(p.q)]), rank, |G.Ops(p.q.arrived[..LoggedUpTo(p.q)])|);
    }
  }

  lemma RunningHasTables(s: R.System)
    requires R.SystemInv(s)
    ensures !R.MissingTable(s.disk)
  {
    hide E.Inv, R.MemtablesLogged;
  }

  lemma RunIsNotEmpty(states: seq<Pair>, rank: Bytes -> UserKey)
    requires Run(states, rank)
    ensures states != []
  {
  }

  lemma CoupledParts(p: Pair, rank: Bytes -> UserKey)
    requires Coupled(p, rank)
    ensures R.SystemInv(p.s) && p.q.returned == G.Between(0, p.q.finished)
  {
    hide R.SystemInv, G.Ops, G.LogOps, OpsOf, G.Numbered;
  }
}
