/** Group commit: queued writers, one of which logs and applies a whole prefix of the queue. */
module GroupCommit {
  import opened Keys
  import opened WriteBatch

  /** One call of `Write`; a call without a batch only forces a memtable switch. */
  datatype Request = Request(batch: Option<seq<BatchOp>>, sync: bool)

  function BatchOf(r: Request): seq<BatchOp> {
    if r.batch.Some? then r.batch.value else []
  }

  /** The operations of the non-null batches, in queue order. */
  function Ops(rs: seq<Request>): seq<BatchOp> {
    if rs == [] then [] else BatchOf(rs[0]) + Ops(rs[1..])
  }

  lemma OpsCons(r: Request, rs: seq<Request>)
    ensures Ops([]) == [] && Ops([r] + rs) == BatchOf(r) + Ops(rs)
  {
    hide BatchOf;
    assert ([r] + rs)[1..] == rs;
  }

  lemma {:induction false} OpsJoin(a: seq<Request>, b: seq<Request>)
    ensures Ops(a + b) == Ops(a) + Ops(b)
  {
    hide *;
    if a == [] {
      OpsCons(Request(None, false), []);
      assert a + b == b && [] + Ops(b) == Ops(b);
    } else {
      OpsJoin(a[1..], b);
      OpsCons(a[0], a[1..]);
      OpsCons(a[0], a[1..] + b);
      assert a == [a[0]] + a[1..] && a + b == [a[0]] + (a[1..] + b);
      assert BatchOf(a[0]) + (Ops(a[1..]) + Ops(b)) == (BatchOf(a[0]) + Ops(a[1..])) + Ops(b);
    }
  }

  // ---------------------------------------------------------------- choosing a group

  function ByteSize(r: Request): nat {
    if r.batch.Some? then HEADER + |OpsBytes(r.batch.value)| else 0
  }

  /** A small first write keeps its group small. */
  function MaxSize(first: Request): nat {
    if ByteSize(first) <= 0x2_0000 then ByteSize(first) + 0x2_0000 else 0x10_0000
  }

  predicate MayLead(queue: seq<Request>) { queue != [] && queue[0].batch.Some? }

  function SizeOf(queue: seq<Request>): nat {
    if queue == [] then 0 else SizeOf(queue[..|queue| - 1]) + ByteSize(queue[|queue| - 1])
  }

  /** Request `n` may join the `n` requests before it. */
  ghost predicate Joins(queue: seq<Request>, n: nat)
    requires queue != [] && n < |queue|
  {
    && (queue[n].sync ==> queue[0].sync)
    && (queue[n].batch.Some? ==> SizeOf(queue[..n]) + ByteSize(queue[n]) <= MaxSize(queue[0]))
  }

  /** The longest prefix in which every request but the first may join those before it. */
  ghost predicate IsGroup(queue: seq<Request>, n: nat) {
    && MayLead(queue) && 1 <= n <= |queue|
    && (forall i :: 1 <= i < n ==> Joins(queue, i))
    && (n < |queue| ==> !Joins(queue, n))
  }

  lemma GroupIsUnique(queue: seq<Request>, m: nat, n: nat)
    requires IsGroup(queue, m) && IsGroup(queue, n)
    ensures m == n
  {
  }

  /** A sync write is only ever in a group whose leader syncs. */
  lemma SyncOnlyWithSync(queue: seq<Request>, n: nat, i: nat)
    requires IsGroup(queue, n) && i < n && queue[i].sync
    ensures queue[0].sync
  {
    assert i > 0 ==> Joins(queue, i);
  }

  /** The bytes of the record in which the operations of some requests are logged. */
  function RecordSize(rs: seq<Request>): nat { 12 + |OpsBytes(Ops(rs))| }

  lemma {:induction false} RecordAtMost(queue: seq<Request>, n: nat)
    requires 1 <= n <= |queue| && queue[0].batch.Some?
    ensures ByteSize(queue[0]) == RecordSize(queue[..1]) && RecordSize(queue[..n]) <= SizeOf(queue[..n])
    ensures (forall i :: 1 <= i < n ==> queue[i].batch.None?) ==> SizeOf(queue[..n]) == ByteSize(queue[0])
  {
    hide Ops, OpsBytes, SizeOf;
    if n == 1 {
      assert queue[..1] == [queue[0]];
      OneRequest(queue[0]);
    } else {
      RecordAtMost(queue, n - 1);
      PrefixStep(queue, n - 1);
      OpsAppend(Ops(queue[..n - 1]), BatchOf(queue[n - 1]));
    }
  }

  lemma {:induction false} LastJoins(queue: seq<Request>, n: nat)
    requires 1 <= n <= |queue| && forall i :: 1 <= i < n ==> Joins(queue, i)
    ensures SizeOf(queue[..n]) <= MaxSize(queue[0]) || forall i :: 1 <= i < n ==> queue[i].batch.None?
  {
    hide SizeOf, MaxSize, ByteSize;
    if n > 1 {
      assert Joins(queue, n - 1);
      PrefixStep(queue, n - 1);
      LastJoins(queue, n - 1);
    }
  }

  /**
   A leader of at most 128 KB has a record of at most 128 KB more; a larger one has a record of at most 1 MB, or its own
   batch alone.  A request that is left out would have made the group too large, or would have made it sync.
   */
  lemma GroupIsBounded(queue: seq<Request>, n: nat)
    requires IsGroup(queue, n)
    ensures
      var own := RecordSize(queue[..1]);
      var limit := if own <= 128 * 1024 then own + 128 * 1024 else 1024 * 1024;
      && (RecordSize(queue[..n]) <= limit || RecordSize(queue[..n]) == own)
      && (n < |queue| ==> if queue[n].batch.None? then queue[n].sync && !queue[0].sync
            else (queue[n].sync && !queue[0].sync) || SizeOf(queue[..n]) + RecordSize([queue[n]]) > limit)
  {
    hide SizeOf, Ops, OpsBytes;
    RecordAtMost(queue, n);
    LastJoins(queue, n);
    RecordGrows(queue, n);
    if n < |queue| {
      OneRequest(queue[n]);
      assert !Joins(queue, n);
    }
  }

  lemma RecordGrows(queue: seq<Request>, n: nat)
    requires 1 <= n <= |queue|
    ensures RecordSize(queue[..1]) <= RecordSize(queue[..n])
  {
    hide Ops, OpsBytes;
    assert queue[..n] == queue[..1] + queue[1..n];
    OpsJoin(queue[..1], queue[1..n]);
    OpsAppend(Ops(queue[..1]), Ops(queue[1..n]));
  }

  /** `BuildBatchGroup`: one pass over the queue, collecting batches until one may not join. */
  method BuildBatchGroup(queue: seq<Request>) returns (ops: seq<BatchOp>, count: nat)
    requires MayLead(queue)
    ensures IsGroup(queue, count) && ops == Ops(queue[..count])
  {
    hide ByteSize, MaxSize, BatchOf;
    var first := queue[0];
    ops := first.batch.value;
    var size, maxSize := ByteSize(first), MaxSize(first);
    assert queue[..1] == [first];
    OneRequest(first);
    count := 1;
    while count < |queue|
      invariant 1 <= count <= |queue| && ops == Ops(queue[..count]) && size == SizeOf(queue[..count])
      invariant forall i :: 1 <= i < count ==> Joins(queue, i)
    {
      var w := queue[count];
      PrefixStep(queue, count);
      if w.sync && !first.sync { break; }
      if w.batch.Some? {
        if size + ByteSize(w) > maxSize { break; }
        size := size + ByteSize(w);
        ops := ops + w.batch.value;
      }
      count := count + 1;
    }
  }

  lemma OneRequest(r: Request)
    ensures r.batch.Some? ==> Ops([r]) == r.batch.value
    ensures SizeOf([r]) == ByteSize(r)
  {
    hide ByteSize;
    assert [r][1..] == [] && [r][..0] == [];
    assert BatchOf(r) + [] == BatchOf(r);
  }

  lemma PrefixStep(queue: seq<Request>, n: nat)
    requires n < |queue|
    ensures Ops(queue[..n + 1]) == Ops(queue[..n]) + BatchOf(queue[n])
    ensures SizeOf(queue[..n + 1]) == SizeOf(queue[..n]) + ByteSize(queue[n])
    ensures queue[n].batch.None? ==> ByteSize(queue[n]) == 0 && Ops(queue[..n + 1]) == Ops(queue[..n])
    ensures queue[n].batch.Some? ==> BatchOf(queue[n]) == queue[n].batch.value
  {
    assert queue[..n + 1] == queue[..n] + [queue[n]];
    assert queue[..n + 1][..n] == queue[..n];
    OpsJoin(queue[..n], [queue[n]]);
    assert [queue[n]][1..] == [];
    assert Ops([queue[n]]) == BatchOf(queue[n]) + [];
    assert Ops(queue[..n]) + [] == Ops(queue[..n]);
  }

  // ---------------------------------------------------------------- the state machine

  /** What the leader of the queue works on: arrivals `from..upto`, numbered from `seqno`. */
  datatype Group = Group(from: nat, upto: nat, seqno: nat, ops: seq<BatchOp>, sync: bool)

  /** The leader holds the mutex only between phases; `Inserting` counts operations already in the memtable. */
  datatype Phase = Idle | Built(g: Group) | Logged(g: Group) | Inserting(g: Group, done: nat)

  datatype Record = Record(seqno: nat, ops: seq<BatchOp>)
  datatype Applied = Applied(seqno: nat, op: BatchOp)

  /**
   All requests in the order they were queued, how many have left the queue, the calls told that they are
   done, the log, the arrivals known to be on disk, the memtable insertions, and the last sequence number.
   */
  datatype State = State(arrived: seq<Request>, finished: nat, returned: set<nat>, log: seq<Record>,
                         durable: set<nat>, mem: seq<Applied>, last: nat, phase: Phase)

  function LogOps(log: seq<Record>): seq<BatchOp> {
    if log == [] then [] else LogOps(log[..|log| - 1]) + log[|log| - 1].ops
  }

  /** Operations with consecutive sequence numbers. */
  function Numbered(ops: seq<BatchOp>, from: nat): (r: seq<Applied>)
    ensures |r| == |ops| && forall i :: 0 <= i < |r| ==> r[i] == Applied(from + i, ops[i])
  {
    seq(|ops|, i requires 0 <= i < |ops| => Applied(from + i, ops[i]))
  }

  ghost predicate Init(s: State) {
    s == State([], 0, {}, [], {}, [], 0, Idle)
  }

  ghost predicate ArriveStep(s: State, s': State) {
    exists r :: s' == s.(arrived := s.arrived + [r])
  }

  /** The front request becomes leader and fixes its group, under the mutex. */
  ghost predicate BuildStep(s: State, s': State) {
    && s.phase == Idle && s.finished <= |s.arrived|
    && MayLead(s.arrived[s.finished..])
    && exists n: nat :: IsGroup(s.arrived[s.finished..], n) && s' == s.(phase := Built(GroupOf(s, n)))
  }

  ghost function GroupOf(s: State, n: nat): Group
    requires s.finished <= |s.arrived| && 1 <= n <= |s.arrived| - s.finished
  {
    var queue := s.arrived[s.finished..];
    Group(s.finished, s.finished + n, s.last + 1, Ops(queue[..n]), queue[0].sync)
  }

  /** A request without a batch leaves alone. */
  ghost predicate ForcedStep(s: State, s': State) {
    && s.phase == Idle && s.finished < |s.arrived| && s.arrived[s.finished].batch.None?
    && s' == s.(finished := s.finished + 1, returned := s.returned + {s.finished})
  }

  ghost predicate LogStep(s: State, s': State) {
    && s.phase.Built?
    && s' == s.(log := s.log + [Record(s.phase.g.seqno, s.phase.g.ops)], phase := Logged(s.phase.g))
  }

  function Between(a: nat, b: nat): (r: set<nat>)
    ensures forall i :: i in r <==> a <= i < b
    decreases b
  {
    if a >= b then {} else Between(a, b - 1) + {b - 1}
  }

  function Members(g: Group): set<nat> { Between(g.from, g.upto) }

  /** Sync if the leader asked for it, then start inserting. */
  ghost predicate SyncStep(s: State, s': State) {
    && s.phase.Logged?
    && s' == s.(durable := if s.phase.g.sync then s.durable + Members(s.phase.g) else s.durable,
                phase := Inserting(s.phase.g, 0))
  }

  ghost predicate InsertStep(s: State, s': State) {
    && s.phase.Inserting? && s.phase.done < |s.phase.g.ops|
    && s' == s.(mem := s.mem + [Applied(s.phase.g.seqno + s.phase.done, s.phase.g.ops[s.phase.done])],
                phase := Inserting(s.phase.g, s.phase.done + 1))
  }

  /** Publish the sequence number and tell every member of the group. */
  ghost predicate PublishStep(s: State, s': State) {
    && s.phase.Inserting? && s.phase.done == |s.phase.g.ops|
    && s' == s.(last := s.last + |s.phase.g.ops|, finished := s.phase.g.upto,
                returned := s.returned + Members(s.phase.g), phase := Idle)
  }

  ghost predicate Step(s: State, s': State) {
    || ArriveStep(s, s') || BuildStep(s, s') || ForcedStep(s, s') || LogStep(s, s')
    || SyncStep(s, s') || InsertStep(s, s') || PublishStep(s, s')
  }

  // ---------------------------------------------------------------- the invariant

  /** The operations of everything that has left the queue. */
  ghost function Settled(s: State): seq<BatchOp>
    requires s.finished <= |s.arrived|
  {
    Ops(s.arrived[..s.finished])
  }

  ghost predicate GroupOk(s: State, g: Group) {
    && g.from == s.finished < g.upto <= |s.arrived| && g.seqno == s.last + 1
    && g.ops == Ops(s.arrived[g.from..g.upto])
    && forall i :: g.from <= i < g.upto && s.arrived[i].sync ==> g.sync
  }

  /** Each log record starts with the sequence number after those of the records before it. */
  ghost predicate LogNumbered(log: seq<Record>) {
    forall k :: 0 <= k < |log| ==> log[k].seqno == 1 + |LogOps(log[..k])|
  }

  ghost predicate SyncedAreDurable(s: State)
    requires s.finished <= |s.arrived|
  {
    forall i :: 0 <= i < s.finished && s.arrived[i].sync && s.arrived[i].batch.Some? ==> i in s.durable
  }

  ghost predicate Inv(s: State) {
    && s.finished <= |s.arrived| && s.last == |Settled(s)|
    && s.returned == Between(0, s.finished)
    && SyncedAreDurable(s) && LogNumbered(s.log)
    && (s.phase != Idle ==> GroupOk(s, s.phase.g))
    && LogOps(s.log) == Settled(s) + (if s.phase.Logged? || s.phase.Inserting? then s.phase.g.ops else [])
    && (if s.phase.Inserting? then
          && s.phase.done <= |s.phase.g.ops| && (s.phase.g.sync ==> Members(s.phase.g) <= s.durable)
          && s.mem == Numbered(Settled(s) + s.phase.g.ops[..s.phase.done], 1)
        else s.mem == Numbered(Settled(s), 1))
  }

  lemma InitInv(s: State)
    requires Init(s)
    ensures Inv(s)
  {
    assert s.arrived[..0] == [];
    assert Settled(s) == [] && LogOps([]) == [];
    hide Ops, LogOps;
  }

  lemma ArriveKeepsInv(s: State, s': State)
    requires Inv(s) && ArriveStep(s, s')
    ensures Inv(s')
  {
    hide Ops, LogOps, Numbered;
    assert s'.arrived[..s.finished] == s.arrived[..s.finished];
    if s.phase != Idle {
      var g := s.phase.g;
      assert s'.arrived[g.from..g.upto] == s.arrived[g.from..g.upto];
    }
  }

  lemma BuildKeepsInv(s: State, s': State)
    requires Inv(s) && BuildStep(s, s')
    ensures Inv(s')
  {
    hide Ops, LogOps, Numbered, Joins;
    var queue := s.arrived[s.finished..];
    var n: nat :| IsGroup(queue, n) && s' == s.(phase := Built(GroupOf(s, n)));
    assert queue[..n] == s.arrived[s.finished..s.finished + n];
    forall i | s.finished <= i < s.finished + n && s.arrived[i].sync
      ensures queue[0].sync
    {
      SyncOnlyWithSync(queue, n, i - s.finished);
    }
    assert Settled(s) + [] == Settled(s);
  }

  lemma ForcedKeepsInv(s: State, s': State)
    requires Inv(s) && ForcedStep(s, s')
    ensures Inv(s')
  {
    hide Ops, LogOps, Numbered, SizeOf;
    PrefixStep(s.arrived, s.finished);
  }

  lemma LogKeepsInv(s: State, s': State)
    requires Inv(s) && LogStep(s, s')
    ensures Inv(s')
  {
    hide Ops, Numbered;
    var g := s.phase.g;
    assert s'.log[..|s.log|] == s.log;
    forall k | 0 <= k < |s'.log|
      ensures s'.log[k].seqno == 1 + |LogOps(s'.log[..k])|
    {
      if k < |s.log| {
        assert s'.log[..k] == s.log[..k];
      } else {
        assert LogOps(s.log) == Settled(s) + [] == Settled(s);
      }
    }
    assert Settled(s) + [] == Settled(s);
  }

  lemma SyncKeepsInv(s: State, s': State)
    requires Inv(s) && SyncStep(s, s')
    ensures Inv(s')
  {
    hide Ops, LogOps, Numbered;
    assert Settled(s) + s.phase.g.ops[..0] == Settled(s);
  }

  lemma InsertKeepsInv(s: State, s': State)
    requires Inv(s) && InsertStep(s, s')
    ensures Inv(s')
  {
    hide Ops, LogOps;
    var g, k := s.phase.g, s.phase.done;
    assert g.ops[..k + 1] == g.ops[..k] + [g.ops[k]];
    assert Settled(s) + g.ops[..k + 1] == (Settled(s) + g.ops[..k]) + [g.ops[k]];
  }

  lemma PublishKeepsInv(s: State, s': State)
    requires Inv(s) && PublishStep(s, s')
    ensures Inv(s')
  {
    hide Ops, LogOps, Numbered;
    var g := s.phase.g;
    assert s.arrived[..g.upto] == s.arrived[..g.from] + s.arrived[g.from..g.upto];
    OpsJoin(s.arrived[..g.from], s.arrived[g.from..g.upto]);
    assert g.ops[..|g.ops|] == g.ops;
    assert Settled(s') + [] == Settled(s');
    forall i | 0 <= i < s'.finished && s'.arrived[i].sync && s'.arrived[i].batch.Some?
      ensures i in s'.durable
    {
      if i >= g.from {
        assert i in Members(g);
      }
    }
  }

  lemma StepKeepsInv(s: State, s': State)
    requires Inv(s) && Step(s, s')
    ensures Inv(s')
  {
    hide Inv, ArriveStep, BuildStep, ForcedStep, LogStep, SyncStep, InsertStep, PublishStep;
    if ArriveStep(s, s') {
      ArriveKeepsInv(s, s');
    } else if BuildStep(s, s') {
      BuildKeepsInv(s, s');
    } else if ForcedStep(s, s') {
      ForcedKeepsInv(s, s');
    } else if LogStep(s, s') {
      LogKeepsInv(s, s');
    } else if SyncStep(s, s') {
      SyncKeepsInv(s, s');
    } else if InsertStep(s, s') {
      InsertKeepsInv(s, s');
    } else {
      PublishKeepsInv(s, s');
    }
  }

  ghost predicate Run(states: seq<State>) {
    && states != [] && Init(states[0])
    && forall i :: 0 <= i < |states| - 1 ==> Step(states[i], states[i + 1])
  }

  lemma {:induction false} EveryRunKeepsInv(states: seq<State>, i: nat)
    requires Run(states) && i < |states|
    ensures Inv(states[i])
  {
    hide Inv, Init, Step;
    if i == 0 {
      InitInv(states[0]);
    } else {
      EveryRunKeepsInv(states, i - 1);
      StepKeepsInv(states[i - 1], states[i]);
    }
  }

  // ---------------------------------------------------------------- what every run guarantees

  /** The log is the queued batches in queue order, each exactly once, with consecutive unused numbers. */
  lemma LogIsQueueOrder(states: seq<State>, i: nat)
    requires Run(states) && i < |states|
    ensures
      var s := states[i];
      && s.finished <= |s.arrived|
      && (s.phase.Idle? || s.phase.Built? ==> LogOps(s.log) == Ops(s.arrived[..s.finished]))
      && (s.phase.Logged? || s.phase.Inserting? ==>
            s.finished < s.phase.g.upto <= |s.arrived| && LogOps(s.log) == Ops(s.arrived[..s.phase.g.upto]))
      && forall k :: 0 <= k < |s.log| ==> s.log[k].seqno == 1 + |LogOps(s.log[..k])|
  {
    hide Ops, LogOps, Numbered, Run;
    EveryRunKeepsInv(states, i);
    var s := states[i];
    assert Settled(s) + [] == Settled(s);
    if s.phase.Logged? || s.phase.Inserting? {
      var g := s.phase.g;
      assert s.arrived[..g.upto] == s.arrived[..g.from] + s.arrived[g.from..g.upto];
      OpsJoin(s.arrived[..g.from], s.arrived[g.from..g.upto]);
    }
  }

  /** Reading at the last sequence number sees whole groups only, while a group is being inserted too. */
  lemma ReadersSeeWholeGroups(states: seq<State>, i: nat)
    requires Run(states) && i < |states|
    ensures
      var s := states[i];
      && s.finished <= |s.arrived| && s.last <= |s.mem|
      && s.mem[..s.last] == Numbered(Ops(s.arrived[..s.finished]), 1)
      && forall k :: 0 <= k < |s.mem| ==> s.mem[k].seqno == k + 1
  {
    hide Ops, LogOps, Run;
    EveryRunKeepsInv(states, i);
  }

  /** A call that has returned has its operations visible, and on disk if it asked for a sync. */
  lemma ReturnedIsApplied(states: seq<State>, i: nat, w: nat, op: BatchOp)
    requires Run(states) && i < |states| && w in states[i].returned
    ensures w < states[i].finished <= |states[i].arrived|
    ensures
      var s := states[i];
      op in BatchOf(s.arrived[w]) ==>
        exists k :: 0 <= k < s.last <= |s.mem| && s.mem[k].op == op && s.mem[k].seqno <= s.last
    ensures
      var s := states[i];
      s.arrived[w].sync && s.arrived[w].batch.Some? ==> w in s.durable
  {
    hide Ops, LogOps, Run;
    EveryRunKeepsInv(states, i);
    var s := states[i];
    if op in BatchOf(s.arrived[w]) {
      SettledOp(s.arrived, s.finished, w, op);
      var k :| 0 <= k < |Settled(s)| && Settled(s)[k] == op;
      assert s.mem[k].op == op;
    }
  }

  lemma SettledOp(arrived: seq<Request>, n: nat, w: nat, op: BatchOp)
    requires w < n <= |arrived| && op in BatchOf(arrived[w])
    ensures op in Ops(arrived[..n])
  {
    hide BatchOf, ByteSize;
    PrefixStep(arrived, w);
    assert arrived[..n] == arrived[..w + 1] + arrived[w + 1..n];
    OpsJoin(arrived[..w + 1], arrived[w + 1..n]);
  }

  // ---------------------------------------------------------------- the write queue

  /** The writer queue and the leader's locals; each method is one stretch between releases of the mutex. */
  class Committer {
    var writers: seq<Request>
    var log: seq<Record>
    var mem: seq<Applied>
    var lastSequence: nat
    var groupOps: seq<BatchOp>
    var groupCount: nat
    var inserted: nat
    ghost var arrived: seq<Request>
    ghost var returned: set<nat>
    ghost var durable: set<nat>
    ghost var phase: Phase

    ghost function Abs(): State
      requires |writers| <= |arrived|
      reads this
    {
      State(arrived, |arrived| - |writers|, returned, log, durable, mem, lastSequence, phase)
    }

    ghost predicate Valid() reads this {
      && |writers| <= |arrived| && writers == arrived[|arrived| - |writers|..] && Inv(Abs())
      && (phase != Idle ==>
            groupOps == phase.g.ops && groupCount == phase.g.upto - phase.g.from
            && 1 <= groupCount <= |writers| && writers[0].sync == phase.g.sync)
      && (phase.Inserting? ==> inserted == phase.done)
    }

    constructor ()
      ensures Valid() && Init(Abs())
    {
      writers, log, mem, lastSequence, groupOps, groupCount, inserted := [], [], [], 0, [], 0, 0;
      arrived, returned, durable, phase := [], {}, {}, Idle;
      new;
      InitInv(Abs());
    }

    method Enqueue(r: Request)
      requires Valid()
      modifies this
      ensures Valid() && ArriveStep(old(Abs()), Abs()) && writers == old(writers) + [r]
    {
      hide Inv, Init;
      ghost var s := Abs();
      writers := writers + [r];
      arrived := arrived + [r];
      assert Abs() == s.(arrived := s.arrived + [r]);
      ArriveKeepsInv(s, Abs());
    }

    method BuildGroup()
      requires Valid() && phase.Idle? && MayLead(writers)
      modifies this
      ensures Valid() && BuildStep(old(Abs()), Abs())
    {
      hide Inv, IsGroup, Ops;
      ghost var s := Abs();
      groupOps, groupCount := BuildBatchGroup(writers);
      GroupSize(writers, groupCount);
      assert s.arrived[s.finished..] == writers;
      phase := Built(GroupOf(s, groupCount));
      assert Abs() == s.(phase := Built(GroupOf(s, groupCount)));
      BuildKeepsInv(s, Abs());
    }

    /** A front request without a batch only wanted the memtable switched. */
    method LeaveAlone()
      requires Valid() && phase.Idle? && writers != [] && writers[0].batch.None?
      modifies this
      ensures Valid() && ForcedStep(old(Abs()), Abs())
    {
      hide Inv;
      ghost var s := Abs();
      writers := writers[1..];
      returned := returned + {s.finished};
      ForcedKeepsInv(s, Abs());
    }

    method AddRecord()
      requires Valid() && phase.Built?
      modifies this
      ensures Valid() && LogStep(old(Abs()), Abs())
    {
      hide GroupOk, LogOps, Numbered, LogNumbered, SyncedAreDurable, Ops;
      ghost var s := Abs();
      log := log + [Record(lastSequence + 1, groupOps)];
      phase := Logged(phase.g);
      LeaderNumber(s);
      hide Inv;
      LogKeepsInv(s, Abs());
    }

    method SyncLog()
      requires Valid() && phase.Logged?
      modifies this
      ensures Valid() && SyncStep(old(Abs()), Abs())
    {
      hide Inv;
      ghost var s := Abs();
      if writers[0].sync {
        durable := durable + Members(phase.g);
      }
      inserted := 0;
      phase := Inserting(phase.g, 0);
      SyncKeepsInv(s, Abs());
    }

    method InsertNext()
      requires Valid() && phase.Inserting? && inserted < |groupOps|
      modifies this
      ensures Valid() && InsertStep(old(Abs()), Abs())
    {
      hide Inv;
      ghost var s := Abs();
      mem := mem + [Applied(lastSequence + 1 + inserted, groupOps[inserted])];
      inserted := inserted + 1;
      phase := Inserting(phase.g, phase.done + 1);
      LeaderNumber(s);
      InsertKeepsInv(s, Abs());
    }

    /** Publish the new last sequence number and pop the group, telling each member that it is done. */
    method Publish()
      requires Valid() && phase.Inserting? && inserted == |groupOps|
      modifies this
      ensures Valid() && PublishStep(old(Abs()), Abs())
    {
      hide Inv;
      ghost var s := Abs();
      LeaderNumber(s);
      lastSequence := lastSequence + |groupOps|;
      var popped := 0;
      while popped < groupCount
        invariant popped <= groupCount <= |s.arrived| - s.finished
        invariant writers == s.arrived[s.finished + popped..]
        invariant returned == s.returned + Between(s.finished, s.finished + popped)
        modifies `writers, `returned
      {
        writers := writers[1..];
        returned := returned + {s.finished + popped};
        popped := popped + 1;
      }
      phase := Idle;
      PublishKeepsInv(s, Abs());
    }
  }

  lemma GroupSize(queue: seq<Request>, n: nat)
    requires IsGroup(queue, n)
    ensures 1 <= n <= |queue|
  {
  }

  lemma LeaderNumber(s: State)
    requires Inv(s) && s.phase != Idle
    ensures s.phase.g.seqno == s.last + 1 && s.phase.g.from == s.finished
  {
  }
}
