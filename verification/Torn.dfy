/**
 Losing the end of the current log.  What was written but not synced may be gone after a crash, while compactions
 have already used the sequence numbers of lost writes.  The tables alone are an engine of their own, whose history
 ends where the logs begin; so any beginning of the current log recovers to a beginning of the history.
 */
module Torn {
  import opened Keys
  import opened Files
  import opened Reads
  import opened DropRule
  import opened VersionBuilder
  import opened Versions
  import opened VersionSteps
  import opened CompactionSteps
  import opened CompactionLoop
  import opened Selection
  import opened Engine
  import opened Boundary
  import opened MemTable
  import opened Recovery

  /** The engine with its tables only: the history ends with the newest operation that a table may hold. */
  ghost function TablesOnly(st: State): State
    requires st.FilesUpTo() <= |st.history|
  {
    var n := st.FilesUpTo();
    State(st.history[..n], n, [], n, None, 0, st.version, st.nextFile, [], CappedJob(st))
  }

  /** A compaction reads no table entry newer than that, whatever its smallest snapshot. */
  function CappedJob(st: State): Option<Job> {
    if st.job == None then None
    else if st.job.value.smallest <= st.FilesUpTo() then st.job
    else Some(st.job.value.(smallest := st.FilesUpTo()))
  }

  /** The tables alone satisfy the engine's invariant. */
  ghost predicate Alone(st: State) {
    st.FilesUpTo() <= |st.history| && Inv(TablesOnly(st))
  }

  /** The running compaction does not resurrect for a reader of the tables alone. */
  ghost predicate Careful(st: State) {
    st.FilesUpTo() <= |st.history| && |st.version| == NUM_LEVELS && st.job.Some? && st.job.value.level + 1 < NUM_LEVELS ==>
      !Resurrects(TablesOnly(st))
  }

  // ---------------------------------------------------------------- small changes

  lemma DropsJob(st: State)
    requires Inv(st)
    ensures Inv(st.(job := None))
  {
    hide MemtablesOk, FilesOk, Agrees, FromHistory, ReadyInputs;
    assert st.(job := None).Contents() == st.Contents();
    SamePieces(st, st.(job := None));
  }

  lemma TakesJob(st: State, j: Job)
    requires Inv(st) && j.level + 1 < NUM_LEVELS == |st.version| && j.smallest <= st.floor
    requires ReadyInputs(j.level, st.version[j.level], st.version[j.level + 1], j.here, j.next)
    ensures Inv(st.(job := Some(j)))
  {
    hide MemtablesOk, FilesOk, Agrees, FromHistory, ReadyInputs;
    assert st.(job := Some(j)).Contents() == st.Contents();
    SamePieces(st, st.(job := Some(j)));
  }

  lemma SamePieces(st: State, st': State)
    requires st' == st.(job := st'.job)
    ensures MemtablesOk(st) == MemtablesOk(st') && FilesOk(st) == FilesOk(st')
  {
    hide GoodVersion, NumbersBelow, Sorted, LevelEntries;
  }

  lemma RaisesFloor(st: State, floor: nat)
    requires Inv(st) && st.job == None && st.snapshots == [] && st.floor <= floor <= |st.history|
    ensures Inv(st.(floor := floor))
  {
    hide MemtablesOk, FilesOk, Agrees, FromHistory, JobOk;
    var st' := st.(floor := floor);
    assert st'.Contents() == st.Contents();
    FloorPieces(st, st');
    LaterFloor(st.Contents(), st.history, st.floor, floor);
  }

  lemma FloorPieces(st: State, st': State)
    requires st' == st.(floor := st'.floor) && |st.version| == NUM_LEVELS && st.job == None
    ensures MemtablesOk(st) == MemtablesOk(st') && FilesOk(st) == FilesOk(st') && JobOk(st')
  {
    hide GoodVersion, NumbersBelow, Sorted, LevelEntries;
  }

  lemma {:induction false} SortedIsUnique(a: seq<Entry>, b: seq<Entry>)
    requires Sorted(a) && Sorted(b) && SetOf(a) == SetOf(b)
    ensures a == b
  {
    EmptySets(a);
    EmptySets(b);
    if a != [] {
      assert a[0] in SetOf(b) && b[0] in SetOf(a);
      FirstIsSame(a, b);
      RestIsSame(a, b);
      SortedIsUnique(a[1..], b[1..]);
    }
  }

  lemma EmptySets(a: seq<Entry>)
    ensures SetOf(a) == {} <==> a == []
  {
    if a != [] {
      assert a[0] in SetOf(a);
    }
  }

  lemma FirstIsSame(a: seq<Entry>, b: seq<Entry>)
    requires Sorted(a) && Sorted(b) && a != [] && b != [] && a[0] in b && b[0] in a
    ensures a[0] == b[0]
  {
    HeadIsFirst(b, a[0]);
    HeadIsFirst(a, b[0]);
  }

  lemma HeadIsFirst(a: seq<Entry>, x: Entry)
    requires Sorted(a) && x in a
    ensures x == a[0] || Less(a[0].ikey, x.ikey)
  {
    var k :| 0 <= k < |a| && a[k] == x;
  }

  lemma RestIsSame(a: seq<Entry>, b: seq<Entry>)
    requires Sorted(a) && Sorted(b) && a != [] && b != [] && a[0] == b[0] && SetOf(a) == SetOf(b)
    ensures Sorted(a[1..]) && Sorted(b[1..]) && SetOf(a[1..]) == SetOf(b[1..])
  {
    WithoutFirst(a);
    WithoutFirst(b);
  }

  lemma WithoutFirst(a: seq<Entry>)
    requires Sorted(a) && a != []
    ensures Sorted(a[1..]) && SetOf(a[1..]) == SetOf(a) - {a[0]}
  {
    assert a == [a[0]] + a[1..];
    forall x | x in a[1..]
      ensures x != a[0]
    {
      var k :| 0 <= k < |a[1..]| && a[1..][k] == x;
      assert Less(a[0].ikey, a[k + 1].ikey);
    }
  }

  // ---------------------------------------------------------------- replaying operations

  lemma {:induction false} MemOfPrefix(h: seq<Op>, a: nat, b: nat, n: nat)
    requires a <= b <= n <= |h|
    ensures MemOf(h[..n], a, b) == MemOf(h, a, b)
    decreases b
  {
    hide MemInsert;
    if a < b {
      MemOfPrefix(h, a, b - 1, n);
    }
  }

  /** Writing the next operations one by one, from tables that hold the first `a`. */
  lemma {:induction false} ReplaysUpTo(h: seq<Op>, a: nat, n: nat, v: Version, nextFile: nat)
    requires a <= n <= |h| < MAX_SEQUENCE && Inv(Reopening(h[..a], a, a, 0, v, nextFile))
    ensures Inv(Reopening(h[..n], a, a, 0, v, nextFile))
    decreases n
  {
    hide *;
    if a < n {
      ReplaysUpTo(h, a, n - 1, v, nextFile);
      ReplaysOne(h, a, n, v, nextFile);
      WriteKeepsInv(Reopening(h[..n - 1], a, a, 0, v, nextFile), Reopening(h[..n], a, a, 0, v, nextFile));
    }
  }

  lemma ReplaysOne(h: seq<Op>, a: nat, n: nat, v: Version, nextFile: nat)
    requires a < n <= |h| < MAX_SEQUENCE
    ensures WriteStep(Reopening(h[..n - 1], a, a, 0, v, nextFile), Reopening(h[..n], a, a, 0, v, nextFile))
  {
    hide MemInsert, Stretch, Sorted;
    var op, before, after := h[n - 1], MemOf(h[..n - 1], a, n - 1), MemOf(h[..n], a, n);
    MemOfPrefix(h, a, n - 1, n - 1);
    MemOfPrefix(h, a, n - 1, n);
    MemOfIs(h[..n - 1], a, n - 1);
    MemOfIs(h[..n], a, n);
    assert h[..n] == h[..n - 1] + [op];
    StretchExtends(h[..n - 1], [op], a, n - 1);
    StretchSplits(h[..n], a, n - 1, n);
    LastStretch(h[..n - 1], op);
    assert SetOf(after) == SetOf(before) + {EntryOf(op, n)};
    assert Reopening(h[..n], a, a, 0, v, nextFile)
        == Reopening(h[..n - 1], a, a, 0, v, nextFile).(history := h[..n - 1] + [op], mem := after);
  }

  /** Tables alone, without a compaction, as recovery starts from them. */
  lemma TablesReopen(st: State)
    requires Alone(st)
    ensures
      var n := st.FilesUpTo();
      n <= |st.history| && Inv(Reopening(st.history[..n], n, n, 0, st.version, st.nextFile))
  {
    hide Inv;
    var n := st.FilesUpTo();
    DropsJob(TablesOnly(st));
    assert MemOf(st.history[..n], n, n) == [];
  }

  // ---------------------------------------------------------------- what each step keeps

  /** Nothing that the tables alone depend on has changed, but for unused file numbers. */
  lemma SameTablesAlone(st: State, st': State)
    requires Alone(st) && st'.FilesUpTo() == st.FilesUpTo() <= |st'.history| && st'.version == st.version
    requires st'.history[..st.FilesUpTo()] == st.history[..st.FilesUpTo()] && st'.job == st.job && st'.nextFile >= st.nextFile
    ensures Alone(st')
  {
    hide Inv;
    assert TablesOnly(st') == TablesOnly(st).(nextFile := st'.nextFile);
    BumpKeepsInv(TablesOnly(st), st'.nextFile);
  }

  lemma FlushKeepsAlone(st: State, st': State)
    requires Alone(st) && FlushStep(st, st') && st.immFrom <= st.memFrom <= |st.history| < MAX_SEQUENCE
    requires st.imm.Some? && Sorted(st.imm.value) && SetOf(st.imm.value) == Stretch(st.history, st.immFrom, st.memFrom)
    ensures Alone(st')
  {
    hide *;
    var a, b := st.immFrom, st.memFrom;
    FlushParts(st, st');
    ImmIsMemOf(st, a, b);
    if st.imm.value == [] {
      NothingBetween(st, a, b);
      SameTablesAlone(st, st');
    } else {
      TablesReopen(st);
      UpToOf(st, a);
      var h := st.history[..b];
      assert h[..a] == st.history[..a];
      ReplaysUpTo(st.history, a, b, st.version, st.nextFile);
      Repartition(h, a, a, b, 0, st.version, st.nextFile);
      var f, level, r := FlushedAs(st, st');
      var mid := State(h, a, [], b, Some(st.imm.value), a, st.version, st.nextFile, [], None);
      var mid' := State(h, a, [], b, None, a, st'.version, st'.nextFile, [], None);
      NoMem(h, b);
      FlushesMid(st, st', mid, mid', f, level, r);
      FlushKeepsInv(mid, mid');
      RaisesFloor(mid', b);
      MidIsAlone(st, st', mid', a, b);
    }
  }

  lemma FlushParts(st: State, st': State)
    requires FlushStep(st, st')
    ensures |st.version| == NUM_LEVELS && st.job == None && st.imm.Some?
    ensures st'.history == st.history && st'.imm == None && st'.memFrom == st.memFrom && st'.job == None
    ensures st'.nextFile == st.nextFile + 1 && |st'.version| == NUM_LEVELS
    ensures st.imm.value == [] ==> st'.version == st.version
  {
    hide MayFlushTo, Rebuilt;
  }

  lemma UpToOf(st: State, a: nat)
    requires st.imm.Some? && a == st.immFrom
    ensures st.FilesUpTo() == a
  {
  }

  lemma ImmIsMemOf(st: State, a: nat, b: nat)
    requires a <= b <= |st.history| && st.imm.Some? && Sorted(st.imm.value) && SetOf(st.imm.value) == Stretch(st.history, a, b)
    ensures st.imm.value == MemOf(st.history[..b], a, b)
  {
    hide Sorted, MemOf, Stretch, SetOf;
    MemOfIs(st.history, a, b);
    MemOfPrefix(st.history, a, b, b);
    SortedIsUnique(st.imm.value, MemOf(st.history, a, b));
  }

  lemma StretchHas(h: seq<Op>, a: nat, b: nat)
    requires a < b <= |h|
    ensures Stretch(h, a, b) != {}
  {
    assert EntryOf(h[a], a + 1) in Stretch(h, a, b);
  }

  lemma NothingBetween(st: State, a: nat, b: nat)
    requires a <= b <= |st.history| && st.imm == Some([]) && SetOf([]) == Stretch(st.history, a, b)
    requires st.immFrom == a && st.memFrom == b
    ensures a == b && st.FilesUpTo() == a
    ensures forall st': State :: st'.imm == None && st'.memFrom == b ==> st'.FilesUpTo() == a
  {
    if a < b {
      StretchHas(st.history, a, b);
    }
  }

  lemma NoMem(h: seq<Op>, b: nat)
    requires b == |h|
    ensures MemOf(h, b, |h|) == []
  {
  }

  lemma FlushedAs(st: State, st': State) returns (f: File, level: nat, r: seq<File>)
    requires FlushStep(st, st') && st.imm.value != []
    ensures |st.version| == NUM_LEVELS && f.number == st.nextFile && f.entries == st.imm.value
    ensures level < NUM_LEVELS && MayFlushTo(st.version, level, f) && Rebuilt(st.version[level], {}, [f], r)
    ensures st'.version == st.version[level := r]
  {
    hide MayFlushTo, Rebuilt;
    f, level, r :|
      && f.number == st.nextFile && f.entries == st.imm.value
      && level < NUM_LEVELS && MayFlushTo(st.version, level, f)
      && Rebuilt(st.version[level], {}, [f], r)
      && st' == st.(imm := None, nextFile := st.nextFile + 1, version := st.version[level := r]);
  }

  lemma FlushesMid(st: State, st': State, mid: State, mid': State, f: File, level: nat, r: seq<File>)
    requires |st.version| == NUM_LEVELS && st.imm.Some? && st.imm.value != [] && f.number == st.nextFile && f.entries == st.imm.value
    requires level < NUM_LEVELS && MayFlushTo(st.version, level, f) && Rebuilt(st.version[level], {}, [f], r)
    requires st'.version == st.version[level := r] && st'.nextFile == st.nextFile + 1
    requires mid.imm == st.imm && mid.version == st.version && mid.nextFile == st.nextFile && mid.job == None
    requires mid' == mid.(imm := None, version := st'.version, nextFile := st'.nextFile)
    ensures FlushStep(mid, mid')
  {
    hide MayFlushTo, Rebuilt;
  }

  lemma MidIsAlone(st: State, st': State, mid': State, a: nat, b: nat)
    requires st'.history == st.history && st'.imm == None && st'.memFrom == b <= |st.history| && st'.job == None
    requires mid' == State(st.history[..b], a, [], b, None, a, st'.version, st'.nextFile, [], None)
    requires Inv(mid'.(floor := b))
    ensures Alone(st')
  {
    hide Agrees, FromHistory, GoodVersion, LevelEntries, NumbersBelow;
    assert TablesOnly(st').Contents() == mid'.(floor := b).Contents();
  }

  // ---------------------------------------------------------------- compactions

  lemma {:induction false} KeptCapped(es: seq<Entry>, n: nat, smallest: nat, cap: nat, base: iset<UserKey>)
    requires n <= |es| && cap <= smallest && forall e :: e in es ==> e.ikey.seqno <= cap
    ensures Kept(es, n, smallest, base) == Kept(es, n, cap, base)
  {
    if n > 0 {
      KeptCapped(es, n - 1, smallest, cap, base);
      assert es[n - 1] in es;
      forall j | 0 <= j < n - 1
        ensures es[j].ikey.seqno <= cap
      {
        assert es[j] in es;
      }
    }
  }

  lemma FinishKeepsAlone(st: State, st': State)
    requires Alone(st) && FinishStep(st, st') && Careful(st)
    ensures Alone(st')
  {
    hide *;
    var input, outs := FinishedAs(st, st');
    CappedParts(st);
    var p := TablesOnly(st);
    InputsAreOld(st, input);
    CapsKept(st, input);
    SafeIsExact(p, input);
    CappedFinish(st, st', input, outs);
    FinishKeepsInv(p, TablesOnly(st'));
    FinishIsAlone(st, st');
  }

  lemma FinishedAs(st: State, st': State) returns (input: seq<Entry>, outs: seq<File>)
    requires FinishStep(st, st')
    ensures |st.version| == NUM_LEVELS && st.job.Some? && st.job.value.level + 1 < NUM_LEVELS
    ensures Compacts(st, st', input, outs) && MergedInput(st.job.value, input)
    ensures st'.FilesUpTo() == st.FilesUpTo() && st'.history == st.history
  {
    hide MergedInput, SafeToDrop, Kept, EntriesOf, Replaces, BaseKeys, SetOf;
    var i, os: seq<File>, v', nextFile' :|
      var j := st.job.value;
      && MergedInput(j, i) && SafeToDrop(st, i)
      && EntriesOf(os) == SetOf(Kept(i, |i|, j.smallest, BaseKeys(st.version, j.level)))
      && (forall f :: f in os ==> st.nextFile <= f.number < nextFile')
      && nextFile' >= st.nextFile
      && Replaces(st.version, j.level, j.here, j.next, os, v')
      && st' == st.(version := v', nextFile := nextFile', job := None);
    input, outs := i, os;
  }

  lemma CappedParts(st: State)
    requires Alone(st) && Careful(st) && |st.version| == NUM_LEVELS && st.job.Some? && st.job.value.level + 1 < NUM_LEVELS
    ensures
      var p := TablesOnly(st);
      && st.FilesUpTo() <= |st.history| && Inv(p) && p.job.Some? && p.version == st.version && !Resurrects(p)
      && p.job.value == st.job.value.(smallest := p.job.value.smallest)
      && p.job.value.smallest == if st.job.value.smallest <= st.FilesUpTo() then st.job.value.smallest else st.FilesUpTo()
  {
    hide Inv, Resurrects;
  }

  lemma InputsAreOld(st: State, input: seq<Entry>)
    requires st.FilesUpTo() <= |st.history|
    requires Inv(TablesOnly(st)) && TablesOnly(st).job.Some? && MergedInput(st.job.value, input) && st.job.Some?
    requires TablesOnly(st).job.value == st.job.value.(smallest := TablesOnly(st).job.value.smallest)
    ensures MergedInput(TablesOnly(st).job.value, input)
    ensures forall e :: e in input ==> e.ikey.seqno <= st.FilesUpTo()
  {
    var p := TablesOnly(st);
    hide Inv, TablesOnly, ReadyInputs, EntriesLeft, Shallow, Deep, Sorted, InputEntries, State.Contents;
    JobGood(p);
    var j := p.job.value;
    ContentsBefore(p, j.level, j.here, j.next);
    HistoryLength(st);
    forall e | e in input
      ensures e.ikey.seqno <= st.FilesUpTo()
    {
      assert e in SetOf(input);
      assert e in p.Contents();
    }
  }

  lemma HistoryLength(st: State)
    requires st.FilesUpTo() <= |st.history|
    ensures |TablesOnly(st).history| == st.FilesUpTo()
  {
  }

  lemma CapsKept(st: State, input: seq<Entry>)
    requires st.job.Some? && |st.version| == NUM_LEVELS && forall e :: e in input ==> e.ikey.seqno <= st.FilesUpTo()
    ensures
      var s := st.job.value.smallest;
      var cap := if s <= st.FilesUpTo() then s else st.FilesUpTo();
      forall base :: Kept(input, |input|, s, base) == Kept(input, |input|, cap, base)
  {
    hide Kept;
    var s := st.job.value.smallest;
    if s > st.FilesUpTo() {
      forall base
        ensures Kept(input, |input|, s, base) == Kept(input, |input|, st.FilesUpTo(), base)
      {
        KeptCapped(input, |input|, s, st.FilesUpTo(), base);
      }
    }
  }

  lemma CappedFinish(st: State, st': State, input: seq<Entry>, outs: seq<File>)
    requires |st.version| == NUM_LEVELS && st.job.Some? && st.job.value.level + 1 < NUM_LEVELS && Compacts(st, st', input, outs)
    requires st'.FilesUpTo() == st.FilesUpTo() <= |st.history| && st'.history == st.history
    requires
      var p := TablesOnly(st);
      && p.job.Some? && p.version == st.version && p.job.value == st.job.value.(smallest := p.job.value.smallest)
      && SafeToDrop(p, input) && MergedInput(p.job.value, input)
      && p.job.value.smallest == (if st.job.value.smallest <= st.FilesUpTo() then st.job.value.smallest else st.FilesUpTo())
    requires
      var s := st.job.value.smallest;
      var cap := if s <= st.FilesUpTo() then s else st.FilesUpTo();
      forall base :: Kept(input, |input|, s, base) == Kept(input, |input|, cap, base)
    ensures FinishStep(TablesOnly(st), TablesOnly(st'))
  {
    hide Kept, SafeToDrop, MergedInput, EntriesOf, Replaces, BaseKeys, SetOf;
    var p, j := TablesOnly(st), st.job.value;
    assert TablesOnly(st') == p.(version := st'.version, nextFile := st'.nextFile, job := None);
    assert EntriesOf(outs) == SetOf(Kept(input, |input|, p.job.value.smallest, BaseKeys(p.version, j.level)));
  }

  lemma FinishIsAlone(st: State, st': State)
    requires st'.FilesUpTo() == st.FilesUpTo() <= |st.history| && st'.history == st.history && Inv(TablesOnly(st'))
    ensures Alone(st')
  {
  }

  lemma MoveKeepsAlone(st: State, st': State)
    requires Alone(st) && MoveStep(st, st')
    ensures Alone(st')
  {
    hide Inv, Replaces;
    var l, f, v' :| Replaces(st.version, l, [f], [], [f], v') && st' == st.(version := v');
    assert TablesOnly(st') == TablesOnly(st).(version := v');
    assert MoveStep(TablesOnly(st), TablesOnly(st'));
    MoveKeepsInv(TablesOnly(st), TablesOnly(st'));
  }

  lemma BeginKeepsAlone(st: State, st': State)
    requires Alone(st) && BeginStep(st, st')
    ensures Alone(st')
  {
    hide Inv, ReadyInputs;
    var l: nat, here, next :|
      && l + 1 < NUM_LEVELS && ReadyInputs(l, st.version[l], st.version[l + 1], here, next)
      && st' == st.(job := Some(Job(l, here, next, SmallestSnapshot(st))), floor := SmallestSnapshot(st));
    var j := CappedJob(st').value;
    assert TablesOnly(st') == TablesOnly(st).(job := Some(j));
    TakesJob(TablesOnly(st), j);
  }

  // ---------------------------------------------------------------- runs

  /** A step of the running system that, if it finishes a compaction, finishes a careful one. */
  ghost predicate CarefulStep(s: System, s': System) {
    SystemStep(s, s') && (FinishStep(s.st, s'.st) ==> Careful(s.st))
  }

  lemma SystemStepKeepsAlone(s: System, s': System)
    requires SystemInv(s) && CarefulStep(s, s') && Alone(s.st)
    ensures Alone(s'.st)
  {
    hide SystemInv, Alone, LogStep, ApplyStep, SwitchLogStep, BuildTableStep, InstallFlushStep, InstallCompactionStep;
    hide MemoryStep, RemoveStep, Careful, FinishStep;
    if LogStep(s, s') || BuildTableStep(s, s') || RemoveStep(s, s') {
      SameEngine(s, s');
    } else if ApplyStep(s, s') {
      ApplyKeepsAlone(s, s');
    } else if SwitchLogStep(s, s') {
      SwitchKeepsAlone(s, s');
    } else if InstallFlushStep(s, s') {
      InstallFlushKeepsAlone(s, s');
    } else if InstallCompactionStep(s, s') {
      InstallKeepsAlone(s, s');
    } else {
      MemoryKeepsAlone(s, s');
    }
  }

  lemma SameEngine(s: System, s': System)
    requires LogStep(s, s') || BuildTableStep(s, s') || RemoveStep(s, s')
    ensures s'.st == s.st
  {
    hide Live;
  }

  lemma ApplyKeepsAlone(s: System, s': System)
    requires ApplyStep(s, s') && Alone(s.st)
    ensures Alone(s'.st)
  {
    hide Inv, Alone;
    WriteAdds(s.st, s'.st);
    UpToBounds(s.st);
    assert s'.st.history[..s.st.FilesUpTo()] == s.st.history[..s.st.FilesUpTo()];
    SameTablesAlone(s.st, s'.st);
  }

  lemma UpToBounds(st: State)
    requires Alone(st)
    ensures st.FilesUpTo() <= |st.history|
  {
  }

  lemma SwitchKeepsAlone(s: System, s': System)
    requires SwitchLogStep(s, s') && Alone(s.st)
    ensures Alone(s'.st)
  {
    hide Inv, Alone;
    UpToBounds(s.st);
    SameTablesAlone(s.st, s'.st);
  }

  lemma InstallFlushKeepsAlone(s: System, s': System)
    requires SystemInv(s) && InstallFlushStep(s, s') && Alone(s.st)
    ensures Alone(s'.st)
  {
    hide Alone, FlushStep, LogIs, TablesOnDisk, NumbersBelow, FilesOk, Agrees, FromHistory;
    FlushParts(s.st, s'.st);
    FlushKeepsAlone(s.st, s'.st);
  }

  lemma InstallKeepsAlone(s: System, s': System)
    requires InstallCompactionStep(s, s') && (FinishStep(s.st, s'.st) ==> Careful(s.st)) && Alone(s.st)
    ensures Alone(s'.st)
  {
    hide Alone, FinishStep, MoveStep, Careful;
    if FinishStep(s.st, s'.st) {
      FinishKeepsAlone(s.st, s'.st);
    } else {
      MoveKeepsAlone(s.st, s'.st);
    }
  }

  lemma MemoryKeepsAlone(s: System, s': System)
    requires MemoryStep(s, s') && Alone(s.st)
    ensures Alone(s'.st)
  {
    hide Alone, BeginStep;
    if BeginStep(s.st, s'.st) {
      BeginKeepsAlone(s.st, s'.st);
    } else {
      UpToBounds(s.st);
      SameTablesAlone(s.st, s'.st);
    }
  }

  lemma NewIsAlone()
    ensures Alone(NewSystem().st)
  {
    hide Inv;
    NewSystemInv();
    var st := NewSystem().st;
    assert TablesOnly(st) == st;
  }

  // ---------------------------------------------------------------- the end of the current log is lost

  lemma {:induction false} OpsPrefix(rs: seq<Record>, k: nat)
    requires k <= |rs|
    ensures |RecordOps(rs[..k])| <= |RecordOps(rs)| && RecordOps(rs)[..|RecordOps(rs[..k])|] == RecordOps(rs[..k])
    decreases |rs|
  {
    if k < |rs| {
      var init := rs[..|rs| - 1];
      OpsPrefix(init, k);
      assert init[..k] == rs[..k];
    } else {
      assert rs[..k] == rs;
    }
  }

  /** The first records of a log hold the operations up to where they end. */
  lemma LogIsCut(rs: seq<Record>, h: seq<Op>, a: nat, b: nat, k: nat)
    requires LogIs(rs, h, a, b) && k <= |rs|
    ensures
      var c := a + |RecordOps(rs[..k])|;
      c <= b && LogIs(rs[..k], h[..c], a, c)
  {
    hide RecordOps;
    OpsPrefix(rs, k);
    var c := a + |RecordOps(rs[..k])|;
    assert h[a..b][..c - a] == h[a..c] == h[..c][a..c];
    assert forall i :: 0 <= i < k ==> rs[..k][..i] == rs[..i];
  }

  lemma LogIsShortened(rs: seq<Record>, h: seq<Op>, a: nat, b: nat, c: nat)
    requires LogIs(rs, h, a, b) && b <= c <= |h|
    ensures LogIs(rs, h[..c], a, b)
  {
    hide RecordOps;
    assert h[..c][a..b] == h[a..b];
  }

  /** What the first `k` records of the current log, and everything before it, hold. */
  ghost function Surviving(s: System, k: nat): seq<Op>
    requires SystemInv(s) && k <= |s.disk.logs[s.logNumber]|
    ensures Surviving(s, k) <= Logged(s)
  {
    LogIsCut(s.disk.logs[s.logNumber], Logged(s), s.st.memFrom, |Logged(s)|, k);
    Logged(s)[..s.st.memFrom + |RecordOps(s.disk.logs[s.logNumber][..k])|]
  }

  /** With any beginning of the current log, the disk holds the history up to there. */
  lemma TornIsRecoverable(s: System, k: nat)
    requires SystemInv(s) && Alone(s.st) && k <= |s.disk.logs[s.logNumber]|
    ensures
      var d := s.disk.(logs := s.disk.logs[s.logNumber := s.disk.logs[s.logNumber][..k]]);
      Recoverable(d, Surviving(s, k), s.st.FilesUpTo(), s.st.FilesUpTo())
  {
    hide *;
    LogContents(s);
    DiskIsEnough(s);
    SurvivingIs(s, k);
    var rs := s.disk.logs[s.logNumber];
    var d := s.disk.(logs := s.disk.logs[s.logNumber := rs[..k]]);
    var h, start := Surviving(s, k), s.st.FilesUpTo();
    LogIsCut(rs, Logged(s), s.st.memFrom, |Logged(s)|, k);
    TornReopens(s, k);
    if s.st.imm.Some? {
      LogBounds(s.disk.logs[s.immLog], Logged(s), s.st.immFrom, s.st.memFrom);
      LogIsShortened(s.disk.logs[s.immLog], Logged(s), s.st.immFrom, s.st.memFrom, |h|);
    }
    forall ns | IsKept(d, ns)
      ensures Chain(d.logs, ns, h, start)
    {
      SameNumbersKept(s.disk, d, ns);
      KeptAre(s.disk, ns);
      LogsToReplay(s, ns);
      if s.st.imm.Some? {
        TwoLogs(d.logs, s.immLog, s.logNumber, h, start, s.st.memFrom);
      } else {
        OneLog(d.logs, s.logNumber, h, start);
      }
    }
    CurrentLogIsKept(s);
    var n :| n in s.disk.logs && n >= s.disk.manifest.logNumber;
    assert n in d.logs;
    AreRecoverable(d, h, start, start);
  }

  lemma LogBounds(rs: seq<Record>, h: seq<Op>, a: nat, b: nat)
    requires LogIs(rs, h, a, b)
    ensures a <= b <= |h|
  {
  }

  lemma SurvivingIs(s: System, k: nat)
    requires SystemInv(s) && k <= |s.disk.logs[s.logNumber]|
    ensures Surviving(s, k) == Logged(s)[..|Surviving(s, k)|]
    ensures s.st.memFrom <= |Surviving(s, k)| == s.st.memFrom + |RecordOps(s.disk.logs[s.logNumber][..k])| <= |Logged(s)|
    ensures s.st.FilesUpTo() <= s.st.memFrom <= |s.st.history|
    ensures s.st.history[..s.st.FilesUpTo()] == Logged(s)[..s.st.FilesUpTo()]
  {
    hide LogIs, RecordOps, FilesOk, Agrees, FromHistory, Sorted, NumbersBelow;
    LogIsCut(s.disk.logs[s.logNumber], Logged(s), s.st.memFrom, |Logged(s)|, k);
  }

  lemma SameNumbersKept(d: Disk, d': Disk, ns: seq<nat>)
    requires d'.manifest == d.manifest && (forall n :: n in d.logs <==> n in d'.logs) && IsKept(d', ns)
    ensures IsKept(d, ns)
  {
    hide Increasing;
  }

  lemma TornReopens(s: System, k: nat)
    requires SystemInv(s) && Alone(s.st) && k <= |s.disk.logs[s.logNumber]|
    ensures
      var h, start, m := Surviving(s, k), s.st.FilesUpTo(), s.disk.manifest;
      start <= |h| < MAX_SEQUENCE && Inv(Reopening(h, start, start, 0, m.version, m.nextFile))
  {
    hide *;
    SurvivingIs(s, k);
    LogContents(s);
    TablesReopen(s.st);
    var h, start := Logged(s), s.st.FilesUpTo();
    var n := |Surviving(s, k)|;
    ReplaysUpTo(h, start, n, s.st.version, s.st.nextFile);
    ManifestNumbers(s);
    BumpReopened(h[..n], start, s.st.version, s.st.nextFile, s.disk.manifest.nextFile);
  }

  lemma ManifestNumbers(s: System)
    requires SystemInv(s)
    ensures s.disk.manifest.version == s.st.version && NumbersBelow(s.st.version, s.disk.manifest.nextFile)
  {
    hide Inv, MemtablesLogged, NumbersBelow, TablesOnDisk;
  }

  lemma BumpReopened(h: seq<Op>, a: nat, v: Version, n: nat, m: nat)
    requires a <= |h| && Inv(Reopening(h, a, a, 0, v, n)) && NumbersBelow(v, m)
    ensures Inv(Reopening(h, a, a, 0, v, m))
  {
    hide Inv, MemOf, NumbersBelow;
    BumpKeepsInv(Reopening(h, a, a, 0, v, n), m);
  }
}
