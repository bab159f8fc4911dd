/**
 What is on disk while the engine runs, and why opening the database again rebuilds the same history:
 every logged write is in a table of the manifest's version or in a kept log that recovery replays.
 */
module Recovery {
  import opened Keys
  import opened Files
  import opened Reads
  import opened DropRule
  import opened VersionBuilder
  import opened Versions
  import opened VersionSteps
  import opened CompactionSteps
  import opened Planning
  import opened Selection
  import opened Engine
  import opened Database
  import opened MemTable

  // ---------------------------------------------------------------- memtables of a stretch of history

  /** The entries of operations `a..b` of the history. */
  ghost function Stretch(h: seq<Op>, a: nat, b: nat): set<Entry>
    requires a <= b <= |h|
  {
    set i | a <= i < b :: EntryOf(h[i], i + 1)
  }

  /** The memtable that inserting operations `a..b` one by one builds. */
  function MemOf(h: seq<Op>, a: nat, b: nat): seq<Entry>
    requires a <= b <= |h|
    decreases b
  {
    if a == b then [] else MemInsert(MemOf(h, a, b - 1), EntryOf(h[b - 1], b))
  }

  lemma {:induction false} MemOfIs(h: seq<Op>, a: nat, b: nat)
    requires a <= b <= |h|
    ensures Sorted(MemOf(h, a, b)) && SetOf(MemOf(h, a, b)) == Stretch(h, a, b)
    decreases b
  {
    hide MemInsert, Sorted;
    if a == b {
      EmptyIsSorted();
    } else {
      MemOfIs(h, a, b - 1);
      var e, m := EntryOf(h[b - 1], b), MemOf(h, a, b - 1);
      forall x | x in m
        ensures x.ikey != e.ikey
      {
        assert x in SetOf(m);
      }
      MemInsertKeepsSorted(m, e);
      assert Stretch(h, a, b) == Stretch(h, a, b - 1) + {e};
    }
  }

  lemma StretchSplits(h: seq<Op>, a: nat, b: nat, c: nat)
    requires a <= b <= c <= |h|
    ensures Stretch(h, a, c) == Stretch(h, a, b) + Stretch(h, b, c)
  {
  }

  lemma StretchSeqnos(h: seq<Op>, a: nat, b: nat)
    requires a <= b <= |h|
    ensures forall e :: e in Stretch(h, a, b) ==> a < e.ikey.seqno <= b
  {
  }

  lemma StretchExtends(h: seq<Op>, more: seq<Op>, a: nat, b: nat)
    requires a <= b <= |h|
    ensures Stretch(h + more, a, b) == Stretch(h, a, b)
  {
    assert forall i :: a <= i < b ==> (h + more)[i] == h[i];
  }

  // ---------------------------------------------------------------- the same contents in other places

  /** The invariant only asks for the right contents; where in memory they stand may change. */
  lemma SameContents(st: State, st': State)
    requires Inv(st) && |st'.version| == NUM_LEVELS && MemtablesOk(st') && FilesOk(st') && SnapshotsOk(st')
    requires st'.job == None && st'.history == st.history && st'.floor == st.floor
    requires st'.Contents() == st.Contents()
    ensures Inv(st')
  {
    hide MemtablesOk, FilesOk, SnapshotsOk, FromHistory, Agrees, State.Contents;
  }

  /** An engine that holds operations after `a` in its memtable and everything older in table files. */
  ghost function Reopening(h: seq<Op>, floor: nat, a: nat, immFrom: nat, v: Version, nextFile: nat): State
    requires a <= |h|
  {
    State(h, floor, MemOf(h, a, |h|), a, None, immFrom, v, nextFile, [], None)
  }

  /** The first part of the memtable may be taken for an immutable one. */
  lemma Repartition(h: seq<Op>, floor: nat, a: nat, b: nat, immFrom: nat, v: Version, nextFile: nat)
    requires a <= b <= |h| && Inv(Reopening(h, floor, a, immFrom, v, nextFile))
    ensures Inv(State(h, floor, MemOf(h, b, |h|), b, Some(MemOf(h, a, b)), a, v, nextFile, [], None))
  {
    hide *;
    var st := Reopening(h, floor, a, immFrom, v, nextFile);
    var st' := State(h, floor, MemOf(h, b, |h|), b, Some(MemOf(h, a, b)), a, v, nextFile, [], None);
    ReopeningParts(h, floor, a, immFrom, v, nextFile);
    RepartitionedTables(h, floor, a, b, v, nextFile);
    RepartitionedContents(h, floor, a, b, immFrom, v, nextFile);
    SameContents(st, st');
  }

  lemma RepartitionedTables(h: seq<Op>, floor: nat, a: nat, b: nat, v: Version, nextFile: nat)
    requires a <= b <= |h| && |v| == NUM_LEVELS && GoodVersion(v) && NumbersBelow(v, nextFile) && floor <= |h| < MAX_SEQUENCE
    requires forall e :: e in LevelEntries(v, 0, NUM_LEVELS) ==> e.ikey.seqno <= a
    ensures
      var st := State(h, floor, MemOf(h, b, |h|), b, Some(MemOf(h, a, b)), a, v, nextFile, [], None);
      MemtablesOk(st) && FilesOk(st) && SnapshotsOk(st)
  {
    hide MemOf, Sorted, Stretch, LevelEntries, GoodVersion, NumbersBelow;
    MemOfIs(h, a, b);
    MemOfIs(h, b, |h|);
    StretchSeqnos(h, a, b);
    StretchSeqnos(h, b, |h|);
    forall e | e in MemOf(h, b, |h|)
      ensures b < e.ikey.seqno
    {
      assert e in SetOf(MemOf(h, b, |h|));
    }
  }

  lemma RepartitionedContents(h: seq<Op>, floor: nat, a: nat, b: nat, immFrom: nat, v: Version, nextFile: nat)
    requires a <= b <= |h| && |v| == NUM_LEVELS
    ensures
      var st := Reopening(h, floor, a, immFrom, v, nextFile);
      var st' := State(h, floor, MemOf(h, b, |h|), b, Some(MemOf(h, a, b)), a, v, nextFile, [], None);
      st'.Contents() == st.Contents() && st'.history == st.history && st'.floor == st.floor && st'.job == None && st'.version == v
  {
    hide MemOf, Sorted, Stretch, LevelEntries, SetOf;
    MemOfIs(h, a, |h|);
    MemOfIs(h, a, b);
    MemOfIs(h, b, |h|);
    StretchSplits(h, a, b, |h|);
  }

  lemma ReopeningParts(h: seq<Op>, floor: nat, a: nat, immFrom: nat, v: Version, nextFile: nat)
    requires a <= |h| && Inv(Reopening(h, floor, a, immFrom, v, nextFile))
    ensures |v| == NUM_LEVELS > 0 && GoodVersion(v) && NumbersBelow(v, nextFile) && floor <= |h| < MAX_SEQUENCE
    ensures forall e :: e in LevelEntries(v, 0, NUM_LEVELS) ==> e.ikey.seqno <= a
  {
    hide GoodVersion, NumbersBelow, LevelEntries;
  }

  lemma BumpKeepsInv(st: State, n: nat)
    requires Inv(st) && (n >= st.nextFile || NumbersBelow(st.version, n))
    ensures Inv(st.(nextFile := n))
  {
    hide Agrees, LevelEntries, FromHistory, GoodVersion, ReadyInputs;
    assert st.(nextFile := n).Contents() == st.Contents();
  }

  /** Writing operations `a..b` as one level-0 table. */
  lemma ChunkFlushed(h: seq<Op>, floor: nat, a: nat, b: nat, immFrom: nat, v: Version, nextFile: nat, f: File)
    requires a <= b <= |h| && Inv(Reopening(h, floor, a, immFrom, v, nextFile))
    requires f.number == nextFile && f.entries == MemOf(h, a, b)
    ensures |v| == NUM_LEVELS && Rebuilt(v[0], {}, [f], Insert(v[0], f))
    ensures Inv(Reopening(h, floor, b, a, v[0 := Insert(v[0], f)], nextFile + 1))
  {
    hide *;
    ReopeningParts(h, floor, a, immFrom, v, nextFile);
    Repartition(h, floor, a, b, immFrom, v, nextFile);
    var st := State(h, floor, MemOf(h, b, |h|), b, Some(MemOf(h, a, b)), a, v, nextFile, [], None);
    FlushedToZero(st, f);
    ReopenedAs(h, floor, b, a, v[0 := Insert(v[0], f)], nextFile + 1);
  }

  lemma FlushedToZero(st: State, f: File)
    requires Inv(st) && st.job == None && st.imm == Some(f.entries) && f.number == st.nextFile
    ensures |st.version| == NUM_LEVELS && Rebuilt(st.version[0], {}, [f], Insert(st.version[0], f))
    ensures Inv(st.(imm := None, nextFile := st.nextFile + 1, version := st.version[0 := Insert(st.version[0], f)]))
  {
    hide Inv, Rebuilt, Insert, FlushStep, Ordered, NoTies;
    Shape(st);
    FreshNumber(st, 0, f);
    InsertKeepsOrder(st.version[0], f);
    var st' := st.(imm := None, nextFile := st.nextFile + 1, version := st.version[0 := Insert(st.version[0], f)]);
    Flushed(st, st', f, 0, Insert(st.version[0], f));
    FlushKeepsInv(st, st');
  }

  lemma ReopenedAs(h: seq<Op>, floor: nat, b: nat, a: nat, v: Version, nextFile: nat)
    requires b <= |h|
    ensures Reopening(h, floor, b, a, v, nextFile) == State(h, floor, MemOf(h, b, |h|), b, None, a, v, nextFile, [], None)
  {
  }

  /** An empty memtable writes no table, but uses up a file number. */
  lemma NothingFlushed(h: seq<Op>, floor: nat, a: nat, immFrom: nat, v: Version, nextFile: nat)
    requires a <= |h| && Inv(Reopening(h, floor, a, immFrom, v, nextFile))
    ensures Inv(Reopening(h, floor, a, immFrom, v, nextFile + 1))
  {
    hide Inv, MemOf;
    BumpKeepsInv(Reopening(h, floor, a, immFrom, v, nextFile), nextFile + 1);
  }

  // ---------------------------------------------------------------- logs, manifest and tables

  /** One log record: a batch, by the sequence number of its first operation. */
  datatype Record = Record(seqno: nat, ops: seq<Op>)

  function RecordOps(rs: seq<Record>): seq<Op> {
    if rs == [] then [] else RecordOps(rs[..|rs| - 1]) + rs[|rs| - 1].ops
  }

  /** The log holds operations `a..b` of the history, each record with its place in it. */
  ghost predicate LogIs(rs: seq<Record>, h: seq<Op>, a: nat, b: nat) {
    && a <= b <= |h| && RecordOps(rs) == h[a..b]
    && forall k :: 0 <= k < |rs| ==> rs[k].seqno == a + 1 + |RecordOps(rs[..k])|
  }

  /** What the manifest says: the live tables, the oldest log still needed, and the two counters. */
  datatype Manifest = Manifest(version: Version, logNumber: nat, nextFile: nat, last: nat)

  datatype Disk = Disk(logs: map<nat, seq<Record>>, tables: map<nat, seq<Entry>>, manifest: Manifest)

  /**
   The running engine and its files.  `unapplied` are operations of the record just logged that are not
   yet in the memtable; `pending` are tables being built.
   */
  datatype System = System(st: State, unapplied: seq<Op>, disk: Disk, logNumber: nat, immLog: nat, pending: set<nat>)

  function Logged(s: System): seq<Op> { s.st.history + s.unapplied }

  ghost predicate TablesOnDisk(v: Version, tables: map<nat, seq<Entry>>) {
    forall l, f :: 0 <= l < |v| && f in v[l] ==> f.number in tables && tables[f.number] == f.entries
  }

  ghost predicate Live(v: Version, n: nat) {
    exists l, f :: 0 <= l < |v| && f in v[l] && f.number == n
  }

  /** The memtables hold exactly the operations that the two current logs hold. */
  ghost predicate MemtablesLogged(s: System) {
    var st, d := s.st, s.disk;
    && st.memFrom <= |st.history| && SetOf(st.mem) == Stretch(st.history, st.memFrom, |st.history|)
    && s.logNumber in d.logs && LogIs(d.logs[s.logNumber], Logged(s), st.memFrom, |Logged(s)|)
    && (st.imm.Some? ==>
          && st.immFrom <= st.memFrom && SetOf(st.imm.value) == Stretch(st.history, st.immFrom, st.memFrom)
          && s.immLog in d.logs && s.immLog < s.logNumber
          && LogIs(d.logs[s.immLog], Logged(s), st.immFrom, st.memFrom))
  }

  /** The oldest log that is still needed. */
  function OldestLog(s: System): nat { if s.st.imm.Some? then s.immLog else s.logNumber }

  ghost predicate ManifestOk(s: System) {
    var m := s.disk.manifest;
    && m.version == s.st.version && NumbersBelow(m.version, m.nextFile)
    && s.st.FilesUpTo() <= m.last <= |s.st.history|
    && m.logNumber <= OldestLog(s)
    && (forall n :: n in s.disk.logs && m.logNumber <= n ==> n == s.logNumber || n == OldestLog(s))
  }

  ghost predicate SystemInv(s: System) {
    && Inv(s.st) && |Logged(s)| < MAX_SEQUENCE
    && MemtablesLogged(s) && ManifestOk(s)
    && TablesOnDisk(s.st.version, s.disk.tables)
    && (forall n :: n in s.disk.logs ==> n <= s.logNumber)
    && s.logNumber < s.st.nextFile
    && s.pending <= s.disk.tables.Keys
  }

  // ---------------------------------------------------------------- steps

  ghost predicate LogStep(s: System, s': System) {
    && s.unapplied == [] && s.logNumber in s.disk.logs
    && exists ops: seq<Op> :: |s.st.history| + |ops| < MAX_SEQUENCE
         && s' == s.(unapplied := ops, disk := s.disk.(logs :=
              s.disk.logs[s.logNumber := s.disk.logs[s.logNumber] + [Record(|s.st.history| + 1, ops)]]))
  }

  ghost predicate ApplyStep(s: System, s': System) {
    && s.unapplied != [] && WriteStep(s.st, s'.st)
    && s'.st.history == s.st.history + [s.unapplied[0]]
    && s' == s.(st := s'.st, unapplied := s.unapplied[1..])
  }

  /** A new log file takes the next file number; the full memtable keeps the old log. */
  ghost predicate SwitchLogStep(s: System, s': System) {
    && s.unapplied == []
    && exists mid :: SwitchStep(s.st, mid)
         && s' == System(mid.(nextFile := mid.nextFile + 1), [], s.disk.(logs := s.disk.logs[s.st.nextFile := []]),
                         s.st.nextFile, s.logNumber, s.pending)
  }

  ghost predicate BuildTableStep(s: System, s': System) {
    exists n :: n in s'.disk.tables && !Live(s.st.version, n)
      && s' == s.(disk := s.disk.(tables := s.disk.tables[n := s'.disk.tables[n]]), pending := s.pending + {n})
  }

  function InstallManifest(s: System, st': State, logNumber: nat, done: set<nat>): System {
    s.(st := st', pending := s.pending - done,
       disk := s.disk.(manifest := Manifest(st'.version, logNumber, st'.nextFile, |st'.history|)))
  }

  /** Install the flushed table: from now on only the current log is needed. */
  ghost predicate InstallFlushStep(s: System, s': System) {
    && FlushStep(s.st, s'.st) && TablesOnDisk(s'.st.version, s.disk.tables)
    && exists done :: s' == InstallManifest(s, s'.st, s.logNumber, done)
  }

  /** Install a trivial move or the outputs of a compaction. */
  ghost predicate InstallCompactionStep(s: System, s': System) {
    && (MoveStep(s.st, s'.st) || FinishStep(s.st, s'.st)) && TablesOnDisk(s'.st.version, s.disk.tables)
    && exists done :: s' == InstallManifest(s, s'.st, s.disk.manifest.logNumber, done)
  }

  /** Steps that leave the disk alone. */
  ghost predicate MemoryStep(s: System, s': System) {
    && (BeginStep(s.st, s'.st) || SnapshotStep(s.st, s'.st) || ReleaseStep(s.st, s'.st))
    && s' == s.(st := s'.st)
  }

  /** `RemoveObsoleteFiles` deletes one file: an older log than the manifest's, or a table nobody needs. */
  ghost predicate RemoveStep(s: System, s': System) {
    || (exists n :: n in s.disk.logs && n < s.disk.manifest.logNumber
          && s' == s.(disk := s.disk.(logs := s.disk.logs - {n})))
    || (exists n :: n in s.disk.tables && !Live(s.st.version, n) && n !in s.pending
          && s' == s.(disk := s.disk.(tables := s.disk.tables - {n})))
  }

  ghost predicate SystemStep(s: System, s': System) {
    || LogStep(s, s') || ApplyStep(s, s') || SwitchLogStep(s, s') || BuildTableStep(s, s')
    || InstallFlushStep(s, s') || InstallCompactionStep(s, s') || MemoryStep(s, s') || RemoveStep(s, s')
  }

  // ---------------------------------------------------------------- what each step keeps

  lemma LogIsExtended(rs: seq<Record>, h: seq<Op>, more: seq<Op>, a: nat, b: nat)
    requires LogIs(rs, h, a, b)
    ensures LogIs(rs, h + more, a, b)
  {
    hide RecordOps;
    assert (h + more)[a..b] == h[a..b];
  }

  lemma RecordAdded(rs: seq<Record>, h: seq<Op>, ops: seq<Op>, a: nat)
    requires LogIs(rs, h, a, |h|)
    ensures LogIs(rs + [Record(|h| + 1, ops)], h + ops, a, |h + ops|)
  {
    hide RecordOps;
    var r := Record(|h| + 1, ops);
    var rs' := rs + [r];
    OneMore(rs, r);
    assert (h + ops)[a..|h + ops|] == h[a..|h|] + ops;
    assert rs'[..|rs|] == rs;
    forall k | 0 <= k < |rs'|
      ensures rs'[k].seqno == a + 1 + |RecordOps(rs'[..k])|
    {
      assert rs'[..k] == rs[..k];
    }
  }

  lemma OneMore(rs: seq<Record>, r: Record)
    ensures RecordOps(rs + [r]) == RecordOps(rs) + r.ops
  {
    assert (rs + [r])[..|rs|] == rs;
  }

  lemma LogKeeps(s: System, s': System)
    requires SystemInv(s) && LogStep(s, s')
    ensures SystemInv(s')
  {
    hide Inv, LogIs, Stretch, NumbersBelow, TablesOnDisk, SetOf;
    var st, h := s.st, s.st.history;
    var ops := s'.unapplied;
    assert Logged(s) == h && Logged(s') == h + ops;
    RecordAdded(s.disk.logs[s.logNumber], h, ops, st.memFrom);
    if st.imm.Some? {
      LogIsExtended(s.disk.logs[s.immLog], h, ops, st.immFrom, st.memFrom);
    }
  }

  lemma WriteAdds(st: State, st': State)
    requires WriteStep(st, st')
    ensures |st'.history| == |st.history| + 1
    ensures SetOf(st'.mem) == SetOf(st.mem) + {EntryOf(st'.history[|st.history|], |st.history| + 1)}
    ensures st' == st.(history := st'.history, mem := st'.mem) && st'.history[..|st.history|] == st.history
  {
    hide Sorted, SetOf;
  }

  lemma ApplyKeeps(s: System, s': System)
    requires SystemInv(s) && ApplyStep(s, s')
    ensures SystemInv(s')
  {
    hide Inv, LogIs, NumbersBelow, TablesOnDisk, SetOf, WriteStep, Stretch;
    var st, h := s.st, s.st.history;
    WriteKeepsInv(st, s'.st);
    WriteAdds(st, s'.st);
    var op := s.unapplied[0];
    assert Logged(s') == Logged(s);
    StretchExtends(h, [op], st.memFrom, |h|);
    StretchSplits(h + [op], st.memFrom, |h|, |h| + 1);
    LastStretch(h, op);
    if st.imm.Some? {
      StretchExtends(h, [op], st.immFrom, st.memFrom);
    }
  }

  lemma LastStretch(h: seq<Op>, op: Op)
    ensures Stretch(h + [op], |h|, |h| + 1) == {EntryOf((h + [op])[|h|], |h| + 1)}
  {
  }

  lemma SwitchKeeps(s: System, s': System)
    requires SystemInv(s) && SwitchLogStep(s, s')
    ensures SystemInv(s')
  {
    hide Inv, LogIs, NumbersBelow, TablesOnDisk, SetOf, Stretch;
    var st, h := s.st, s.st.history;
    var mid :| SwitchStep(st, mid)
         && s' == System(mid.(nextFile := mid.nextFile + 1), [], s.disk.(logs := s.disk.logs[st.nextFile := []]),
                         st.nextFile, s.logNumber, s.pending);
    SwitchKeepsInv(st, mid);
    BumpKeepsInv(mid, mid.nextFile + 1);
    EmptyMemtable(h);
    assert Logged(s) == h && Logged(s') == h;
  }

  lemma EmptyMemtable(h: seq<Op>)
    ensures SetOf([]) == Stretch(h, |h|, |h|) && LogIs([], h, |h|, |h|)
  {
  }

  lemma BuildTableKeeps(s: System, s': System)
    requires SystemInv(s) && BuildTableStep(s, s')
    ensures SystemInv(s')
  {
    hide Inv, LogIs, NumbersBelow, SetOf, Stretch;
    var n :| n in s'.disk.tables && !Live(s.st.version, n)
      && s' == s.(disk := s.disk.(tables := s.disk.tables[n := s'.disk.tables[n]]), pending := s.pending + {n});
    forall l, f | 0 <= l < |s.st.version| && f in s.st.version[l]
      ensures f.number != n
    {
      assert f.number == n ==> Live(s.st.version, n);
    }
  }

  lemma FlushShape(st: State, st': State)
    requires Inv(st) && FlushStep(st, st')
    ensures Inv(st') && NumbersBelow(st'.version, st'.nextFile)
    ensures st.imm.Some? && st.immFrom <= st.memFrom <= |st.history| && st'.nextFile >= st.nextFile
    ensures st' == st.(imm := None, nextFile := st'.nextFile, version := st'.version)
  {
    hide Agrees, FromHistory, GoodVersion, NumbersBelow, Rebuilt, MayFlushTo;
    FlushKeepsInv(st, st');
    assert FilesOk(st');
  }

  lemma InstallFlushKeeps(s: System, s': System)
    requires SystemInv(s) && InstallFlushStep(s, s')
    ensures SystemInv(s')
  {
    hide Inv, FlushStep, LogIs, NumbersBelow, SetOf, Stretch, TablesOnDisk;
    FlushShape(s.st, s'.st);
  }

  lemma CompactionShape(st: State, st': State)
    requires Inv(st) && (MoveStep(st, st') || FinishStep(st, st'))
    ensures Inv(st') && NumbersBelow(st'.version, st'.nextFile) && st'.nextFile >= st.nextFile
    ensures st' == st.(nextFile := st'.nextFile, version := st'.version, job := None)
  {
    hide Inv, Replaces, MergedInput, SafeToDrop, Kept;
    if MoveStep(st, st') {
      MoveKeepsInv(st, st');
    } else {
      FinishKeepsInv(st, st');
    }
    NumbersFromInv(st');
  }

  lemma NumbersFromInv(st: State)
    requires Inv(st)
    ensures NumbersBelow(st.version, st.nextFile)
  {
    hide Agrees, FromHistory, GoodVersion, NumbersBelow, LevelEntries;
  }

  lemma InstallCompactionKeeps(s: System, s': System)
    requires SystemInv(s) && InstallCompactionStep(s, s')
    ensures SystemInv(s')
  {
    hide Inv, MoveStep, FinishStep, LogIs, NumbersBelow, SetOf, Stretch, TablesOnDisk;
    CompactionShape(s.st, s'.st);
    UpTo(s.st);
  }

  lemma UpTo(st: State)
    requires Inv(st)
    ensures st.FilesUpTo() <= |st.history|
  {
    hide Agrees, FromHistory, GoodVersion, NumbersBelow, LevelEntries;
  }

  lemma MemoryKeeps(s: System, s': System)
    requires SystemInv(s) && MemoryStep(s, s')
    ensures SystemInv(s')
  {
    hide Inv, LogIs, NumbersBelow, SetOf, Stretch, TablesOnDisk, ReadyInputs;
    if BeginStep(s.st, s'.st) {
      BeginKeepsInv(s.st, s'.st);
    } else {
      SnapshotKeepsInv(s.st, s'.st);
    }
  }

  lemma RemoveKeeps(s: System, s': System)
    requires SystemInv(s) && RemoveStep(s, s')
    ensures SystemInv(s')
  {
    hide Inv, LogIs, NumbersBelow, SetOf, Stretch;
    forall l, f | 0 <= l < |s.st.version| && f in s.st.version[l]
      ensures f.number in s'.disk.tables && s'.disk.tables[f.number] == f.entries
    {
      assert Live(s.st.version, f.number);
    }
  }

  /** Every step keeps every logged write in a live table or in a log that the manifest still names. */
  lemma SystemStepKeeps(s: System, s': System)
    requires SystemInv(s) && SystemStep(s, s')
    ensures SystemInv(s')
  {
    hide SystemInv, LogStep, ApplyStep, SwitchLogStep, BuildTableStep, InstallFlushStep, InstallCompactionStep;
    hide MemoryStep, RemoveStep;
    if LogStep(s, s') {
      LogKeeps(s, s');
    } else if ApplyStep(s, s') {
      ApplyKeeps(s, s');
    } else if SwitchLogStep(s, s') {
      SwitchKeeps(s, s');
    } else if BuildTableStep(s, s') {
      BuildTableKeeps(s, s');
    } else if InstallFlushStep(s, s') {
      InstallFlushKeeps(s, s');
    } else if InstallCompactionStep(s, s') {
      InstallCompactionKeeps(s, s');
    } else if MemoryStep(s, s') {
      MemoryKeeps(s, s');
    } else {
      RemoveKeeps(s, s');
    }
  }

  ghost predicate SystemRun(states: seq<System>) {
    && states != [] && SystemInv(states[0])
    && forall i :: 0 <= i < |states| - 1 ==> SystemStep(states[i], states[i + 1])
  }

  /** In every run of a database that was newly made or recovered. */
  lemma {:induction false} EveryRunIsRecoverable(states: seq<System>, i: nat)
    requires SystemRun(states) && i < |states|
    ensures SystemInv(states[i])
  {
    hide SystemInv, SystemStep;
    if i > 0 {
      EveryRunIsRecoverable(states, i - 1);
      SystemStepKeeps(states[i - 1], states[i]);
    }
  }

  /** `NewDB`: a manifest that names log 0 and no tables; opening makes the first log. */
  function NewSystem(): System {
    var empty: Version := seq(NUM_LEVELS, _ => []);
    System(State([], 0, [], 0, None, 0, empty, 4, [], None), [],
           Disk(map[3 := []], map[], Manifest(empty, 3, 4, 0)), 3, 0, {})
  }

  lemma NewSystemInv()
    ensures SystemInv(NewSystem())
  {
    hide Inv, LogIs, SetOf, Stretch;
    var st := State([], 0, [], 0, None, 0, seq(NUM_LEVELS, _ => []), 2, [], None);
    InitInv(st);
    BumpKeepsInv(st, 4);
    EmptyMemtable([]);
  }

  // ---------------------------------------------------------------- recovery

  lemma RecordAt(rs: seq<Record>, h: seq<Op>, a: nat, b: nat, k: nat)
    requires LogIs(rs, h, a, b) && k < |rs|
    ensures
      var p := a + |RecordOps(rs[..k])|;
      && rs[k].seqno == p + 1 && p + |rs[k].ops| <= b <= |h| && rs[k].ops == h[p..p + |rs[k].ops|]
      && a + |RecordOps(rs[..k + 1])| == p + |rs[k].ops|
  {
    hide RecordOps;
    OpsSplit(rs, k);
    var i, j := |RecordOps(rs[..k])|, |RecordOps(rs[..k + 1])|;
    assert j == i + |rs[k].ops| && |RecordOps(rs)| == b - a;
    SubSlice(h, a, b, i, j);
    assert h[a + i..a + i + |rs[k].ops|] == h[a + i..a + j];
  }

  lemma SubSlice(h: seq<Op>, a: nat, b: nat, i: nat, j: nat)
    requires a <= b <= |h| && i <= j <= b - a
    ensures h[a..b][i..j] == h[a + i..a + j]
  {
    var x := h[a..b];
    assert forall k :: 0 <= k < j - i ==> x[i..j][k] == x[i + k] == h[a + i + k];
  }

  lemma {:induction false} OpsSplit(rs: seq<Record>, k: nat)
    requires k < |rs|
    ensures RecordOps(rs[..k + 1]) == RecordOps(rs[..k]) + rs[k].ops
    ensures |RecordOps(rs[..k + 1])| <= |RecordOps(rs)|
    ensures RecordOps(rs)[|RecordOps(rs[..k])|..|RecordOps(rs[..k + 1])|] == rs[k].ops
    decreases |rs|
  {
    hide RecordOps;
    OneMore(rs[..k], rs[k]);
    assert rs[..k + 1] == rs[..k] + [rs[k]];
    if k + 1 == |rs| {
      assert rs[..k + 1] == rs;
    } else {
      var init := rs[..|rs| - 1];
      OneMore(init, rs[|rs| - 1]);
      assert rs == init + [rs[|rs| - 1]];
      OpsSplit(init, k);
      assert init[..k] == rs[..k] && init[..k + 1] == rs[..k + 1];
    }
  }

  /** The files that recovery has added to level 0 so far, on top of the manifest's version. */
  ghost predicate Collected(base: Version, added: seq<File>, v: Version, nextFile: nat) {
    && |base| == NUM_LEVELS == |v| && v == base[0 := v[0]]
    && Ordered(base[0]) && Ordered(added) && NoTies(base[0], added)
    && (forall f :: f in added || f in base[0] ==> f.number < nextFile)
    && Rebuilt(base[0], {}, added, v[0])
  }

  lemma CollectsOne(base: Version, added: seq<File>, v: Version, nextFile: nat, f: File)
    requires Collected(base, added, v, nextFile) && f.number == nextFile
    requires Rebuilt(v[0], {}, [f], Insert(v[0], f))
    ensures Collected(base, Insert(added, f), v[0 := Insert(v[0], f)], nextFile + 1)
  {
    hide FileData.Valid, Before, Insert;
    FreshNeverTies(added, f);
    FreshNeverTies(base[0], f);
    InsertKeepsOrder(added, f);
    var r := Insert(added, f);
    assert f in [f];
    assert forall g :: g in r <==> g in added || g in [f];
  }

  // ---------------------------------------------------------------- where a replayed log is cut

  /** The memtable of some records of a log whose first operation comes after position `from` of the history. */
  ghost function MemOfRecords(h: seq<Op>, rs: seq<Record>, from: nat, a: nat, b: nat): seq<Entry>
    requires a <= b <= |rs|
  {
    var p, q := from + |RecordOps(rs[..a])|, from + |RecordOps(rs[..b])|;
    if p <= q <= |h| then MemOf(h, p, q) else []
  }

  ghost predicate IsFull(h: seq<Op>, rs: seq<Record>, from: nat, full: seq<Entry> -> bool, a: nat, b: nat)
    requires a <= b <= |rs|
  {
    full(MemOfRecords(h, rs, from, a, b))
  }

  /** A memtable ends after the first record that fills it: the cuts among the first `n` records, the last at `last`. */
  ghost predicate CutsWhenFull(h: seq<Op>, rs: seq<Record>, from: nat, full: seq<Entry> -> bool, cuts: seq<nat>, n: nat, last: nat)
    requires n <= |rs|
  {
    && cuts != [] && cuts[0] == 0 && (forall i, j :: 0 <= i < j < |cuts| ==> cuts[i] < cuts[j]) && cuts[|cuts| - 1] == last <= n
    && (forall i :: 0 <= i < |cuts| ==> cuts[i] <= n)
    && (forall i, j :: 0 <= i && j == i + 1 < |cuts| ==> IsFull(h, rs, from, full, cuts[i], cuts[j]))
    && forall i, m :: 0 <= i < |cuts| && cuts[i] < m <= n && (i + 1 < |cuts| ==> m < cuts[i + 1]) ==>
         !IsFull(h, rs, from, full, cuts[i], m)
  }

  /** The memtables between the cuts are tables with consecutive numbers. */
  ghost predicate TablesBetween(tables: map<nat, seq<Entry>>, first: nat, h: seq<Op>, rs: seq<Record>, from: nat, cuts: seq<nat>) {
    && (forall i, j :: 0 <= i < j < |cuts| ==> cuts[i] <= cuts[j] <= |rs|)
    && forall i :: 0 <= i < |cuts| - 1 ==>
         var m := MemOfRecords(h, rs, from, cuts[i], cuts[i + 1]);
         m != [] ==> first + i in tables && tables[first + i] == m
  }

  /** What a replay writes: a table for each memtable, the last one of which need not be full. */
  ghost predicate ReplayedTo(tables: map<nat, seq<Entry>>, first: nat, next: nat, h: seq<Op>, rs: seq<Record>, from: nat,
      full: seq<Entry> -> bool)
  {
    exists cuts: seq<nat>, last: nat :: CutsWhenFull(h, rs, from, full, cuts, |rs|, last) &&
      var all := if last < |rs| then cuts + [|rs|] else cuts;
      TablesBetween(tables, first, h, rs, from, all) && next == first + |all| - 1
  }

  /** The replay after `n` records. */
  ghost predicate Cutting(tables: map<nat, seq<Entry>>, first: nat, next: nat, h: seq<Op>, rs: seq<Record>, from: nat,
      full: seq<Entry> -> bool, cuts: seq<nat>, n: nat, last: nat)
  {
    && last <= n <= |rs| && CutsWhenFull(h, rs, from, full, cuts, n, last)
    && TablesBetween(tables, first, h, rs, from, cuts) && next == first + |cuts| - 1
  }

  lemma CuttingStarts(tables: map<nat, seq<Entry>>, first: nat, h: seq<Op>, rs: seq<Record>, from: nat, full: seq<Entry> -> bool)
    ensures Cutting(tables, first, first, h, rs, from, full, [0], 0, 0)
  {
  }

  /** One record more: the memtable goes on, or becomes a table. */
  lemma CuttingStep(tables: map<nat, seq<Entry>>, first: nat, next: nat, h: seq<Op>, rs: seq<Record>, from: nat,
      full: seq<Entry> -> bool, cuts: seq<nat>, n: nat, last: nat, p: nat, q: nat, tables': map<nat, seq<Entry>>)
    requires Cutting(tables, first, next, h, rs, from, full, cuts, n, last) && n < |rs|
    requires p == from + |RecordOps(rs[..last])| && q == from + |RecordOps(rs[..n + 1])| && p <= q <= |h|
    requires tables' == if full(MemOf(h, p, q)) && MemOf(h, p, q) != [] then tables[next := MemOf(h, p, q)] else tables
    ensures if full(MemOf(h, p, q)) then Cutting(tables', first, next + 1, h, rs, from, full, cuts + [n + 1], n + 1, n + 1)
      else Cutting(tables, first, next, h, rs, from, full, cuts, n + 1, last)
  {
    hide MemOf, RecordOps;
    if full(MemOf(h, p, q)) {
      FullHere(h, rs, from, full, cuts, n, last);
      TableMore(tables, first, h, rs, from, cuts, n + 1, MemOf(h, p, q), tables');
    } else {
      NotFullYet(h, rs, from, full, cuts, n, last);
    }
  }

  lemma NotFullYet(h: seq<Op>, rs: seq<Record>, from: nat, full: seq<Entry> -> bool, cuts: seq<nat>, n: nat, last: nat)
    requires n < |rs| && CutsWhenFull(h, rs, from, full, cuts, n, last) && !IsFull(h, rs, from, full, last, n + 1)
    ensures CutsWhenFull(h, rs, from, full, cuts, n + 1, last)
  {
    hide IsFull;
  }

  lemma FullHere(h: seq<Op>, rs: seq<Record>, from: nat, full: seq<Entry> -> bool, cuts: seq<nat>, n: nat, last: nat)
    requires n < |rs| && CutsWhenFull(h, rs, from, full, cuts, n, last) && IsFull(h, rs, from, full, last, n + 1)
    ensures CutsWhenFull(h, rs, from, full, cuts + [n + 1], n + 1, n + 1)
  {
    hide IsFull;
    var more: seq<nat> := cuts + [n + 1];
    forall i, m: nat | 0 <= i < |more| && more[i] < m <= n + 1 && (i + 1 < |more| ==> m < more[i + 1])
      ensures !IsFull(h, rs, from, full, more[i], m)
    {
    }
  }

  lemma TableMore(tables: map<nat, seq<Entry>>, first: nat, h: seq<Op>, rs: seq<Record>, from: nat, cuts: seq<nat>, n: nat,
      mem: seq<Entry>, tables': map<nat, seq<Entry>>)
    requires cuts != [] && TablesBetween(tables, first, h, rs, from, cuts) && cuts[|cuts| - 1] <= n <= |rs|
    requires mem == MemOfRecords(h, rs, from, cuts[|cuts| - 1], n)
    requires tables' == if mem == [] then tables else tables[first + |cuts| - 1 := mem]
    ensures TablesBetween(tables', first, h, rs, from, cuts + [n])
  {
    hide MemOfRecords;
  }

  lemma CuttingEnds(tables: map<nat, seq<Entry>>, first: nat, next: nat, h: seq<Op>, rs: seq<Record>, from: nat,
      full: seq<Entry> -> bool, cuts: seq<nat>, last: nat, p: nat, q: nat, tables': map<nat, seq<Entry>>, next': nat)
    requires Cutting(tables, first, next, h, rs, from, full, cuts, |rs|, last)
    requires p == from + |RecordOps(rs[..last])| && q == from + |RecordOps(rs[..|rs|])| && p <= q <= |h|
    requires if last == |rs| then tables' == tables && next' == next
      else tables' == (if MemOf(h, p, q) == [] then tables else tables[next := MemOf(h, p, q)]) && next' == next + 1
    ensures ReplayedTo(tables', first, next', h, rs, from, full)
  {
    hide MemOf, RecordOps, IsFull;
    if last < |rs| {
      TableMore(tables, first, h, rs, from, cuts, |rs|, MemOf(h, p, q), tables');
    }
    hide CutsWhenFull, TablesBetween;
  }

  /** `DB::Open`: the edit that recovery collects, and the counters of the version set. */
  class Opening {
    const base: Version
    var added: seq<File>
    var tables: map<nat, seq<Entry>>
    var nextFile: nat
    var maxSequence: nat
    ghost const h: seq<Op>
    ghost const floor: nat
    ghost const found: map<nat, seq<Entry>>   // the tables there were, all below number `first`
    ghost const first: nat
    ghost var pos: nat
    ghost var immFrom: nat
    ghost var version: Version

    ghost predicate Valid() reads `added, `tables, `nextFile, `pos, `immFrom, `version {
      && pos <= |h| && Inv(Reopening(h, floor, pos, immFrom, version, nextFile))
      && Collected(base, added, version, nextFile) && TablesOnDisk(version, tables)
      && first <= nextFile && TablesKept(found, tables, first)
    }

    constructor (base: Version, nextFile: nat, tables: map<nat, seq<Entry>>, ghost h: seq<Op>, ghost floor: nat, ghost pos: nat)
      requires pos <= |h| && Inv(Reopening(h, floor, pos, 0, base, nextFile)) && TablesOnDisk(base, tables)
      ensures Valid() && this.base == base && this.h == h && this.floor == floor && this.pos == pos
      ensures maxSequence == 0 && this.nextFile == nextFile && first == nextFile && found == tables
    {
      this.base, this.nextFile, this.h, this.floor, this.pos, this.tables := base, nextFile, h, floor, pos, tables;
      found, first := tables, nextFile;
      added, maxSequence, immFrom, version := [], 0, 0, base;
      new;
      NothingCollected(h, floor, pos, base, nextFile);
    }

    /** `WriteLevel0Table` without a base version: the memtable becomes a table of level 0, unless it is empty. */
    method WriteLevel0Table(mem: seq<Entry>, size: nat, ghost b: nat)
      requires Valid() && pos <= b <= |h| && mem == MemOf(h, pos, b)
      modifies this
      ensures Valid() && pos == b && maxSequence == old(maxSequence) && nextFile == old(nextFile) + 1
      ensures tables == if mem == [] then old(tables) else old(tables)[old(nextFile) := mem]
      ensures mem == [] ==> added == old(added)
      ensures mem != [] ==> FileData(old(nextFile), size, mem).Valid() && added == Insert(old(added), FileData(old(nextFile), size, mem))
    {
      hide *;
      OpenValid();
      MemEmpty(h, pos, b);
      if mem != [] {
        ChunkIsTable(h, floor, pos, b, immFrom, version, nextFile, size);
        var f: File := FileData(nextFile, size, mem);
        ChunkFlushed(h, floor, pos, b, immFrom, version, nextFile, f);
        CollectsOne(base, added, version, nextFile, f);
        ReopeningParts(h, floor, pos, immFrom, version, nextFile);
        BuildsTable(version, nextFile, tables, f);
        KeepsTables(found, tables, first, nextFile, mem);
        tables := tables[nextFile := mem];
        added := Insert(added, f);
        version := version[0 := Insert(version[0], f)];
        immFrom := pos;
      } else {
        NothingFlushed(h, floor, pos, immFrom, version, nextFile);
        CollectsNothing(base, added, version, nextFile);
      }
      pos := b;
      nextFile := nextFile + 1;
      MakesValid();
    }

    /** Replay one log into memtables, each of which becomes a table when it is full and at the end. */
    method RecoverLogFile(records: seq<Record>, full: seq<Entry> -> bool, size: seq<Entry> -> nat, ghost upto: nat)
      requires Valid() && LogIs(records, h, pos, upto) && maxSequence <= pos
      modifies this
      ensures Valid() && pos == upto && nextFile >= old(nextFile)
      ensures maxSequence == if records == [] then old(maxSequence) else upto
      ensures ReplayedTo(tables, old(nextFile), nextFile, h, records, old(pos), full)
    {
      hide *;
      ghost var from, b, first := pos, pos, nextFile;
      ghost var cuts: seq<nat>, last: nat := [0], 0;
      var mem: Option<seq<Entry>> := None;
      OpenValid();
      NoRecords(records, h, from, upto);
      CuttingStarts(tables, first, h, records, from, full);
      for k := 0 to |records|
        invariant Valid() && pos <= b <= upto <= |h| && b == from + |RecordOps(records[..k])|
        invariant if mem.None? then pos == b else mem.value == MemOf(h, pos, b)
        invariant maxSequence == (if k == 0 then old(maxSequence) else b) && nextFile >= old(nextFile)
        invariant Cutting(tables, first, nextFile, h, records, from, full, cuts, k, last)
        invariant last <= k && pos == from + |RecordOps(records[..last])| && (mem.None? <==> last == k)
      {
        RecordAt(records, h, from, upto, k);
        if mem == None {
          mem := Some([]);
          MemEmpty(h, pos, b);
        }
        var m := InsertInto(mem.value, records[k], h, pos, b);
        mem := Some(m);
        b := b + |records[k].ops|;
        var lastSeq := records[k].seqno + |records[k].ops| - 1;
        if lastSeq > maxSequence {
          maxSequence := lastSeq;
        }
        ghost var was, next, p := tables, nextFile, pos;
        if full(m) {
          WriteLevel0Table(m, size(m), b);
          mem := None;
        }
        CuttingStep(was, first, next, h, records, from, full, cuts, k, last, p, b, tables);
        if full(m) {
          cuts, last := cuts + [k + 1], k + 1;
        }
      }
      assert records[..|records|] == records;
      ghost var was, next, p := tables, nextFile, pos;
      if mem.Some? {
        WriteLevel0Table(mem.value, size(mem.value), b);
      }
      CuttingEnds(was, first, next, h, records, from, full, cuts, last, p, b, tables, nextFile);
    }

    /** A log's number may be larger than any the manifest has seen. */
    method MarkFileNumberUsed(n: nat)
      requires Valid()
      modifies `nextFile
      ensures Valid() && nextFile == if old(nextFile) <= n then n + 1 else old(nextFile)
    {
      hide *;
      OpenValid();
      if nextFile <= n {
        BumpReopening(h, floor, pos, immFrom, version, nextFile, n + 1);
        CollectsLater(base, added, version, nextFile, n + 1);
        nextFile := n + 1;
        MakesValid();
      }
    }

    /** Apply the collected edit to the manifest's version. */
    method SaveVersion() returns (v: Version)
      requires Valid()
      ensures v == version
    {
      hide Inv, Rebuilt, TablesOnDisk, NoTies, Ordered;
      AreInOrder(base[0]);
      var r := SaveLevel(base[0], {}, added);
      SameLevel(base[0], added, r, version[0]);
      v := base[0 := r];
    }

    lemma OpenValid()
      requires Valid()
      ensures pos <= |h| && Inv(Reopening(h, floor, pos, immFrom, version, nextFile))
      ensures Collected(base, added, version, nextFile) && |version| == NUM_LEVELS > 0 && TablesOnDisk(version, tables)
      ensures first <= nextFile && TablesKept(found, tables, first)
    {
      hide Inv;
    }

    lemma MakesValid()
      requires pos <= |h| && Inv(Reopening(h, floor, pos, immFrom, version, nextFile))
      requires Collected(base, added, version, nextFile) && TablesOnDisk(version, tables)
      requires first <= nextFile && TablesKept(found, tables, first)
      ensures Valid()
    {
    }
  }

  /** No table below number `n` was touched. */
  ghost predicate TablesKept(before: map<nat, seq<Entry>>, after: map<nat, seq<Entry>>, n: nat) {
    forall k :: k < n ==> (k in before <==> k in after) && (k in before ==> before[k] == after[k])
  }

  lemma KeepsTables(before: map<nat, seq<Entry>>, after: map<nat, seq<Entry>>, first: nat, n: nat, es: seq<Entry>)
    requires TablesKept(before, after, first) && first <= n
    ensures TablesKept(before, after[n := es], first)
  {
  }

  lemma SameLevel(base: seq<File>, added: seq<File>, r: seq<File>, r': seq<File>)
    requires Rebuilt(base, {}, added, r) && Rebuilt(base, {}, added, r')
    ensures r == r'
  {
    OrderedIsUnique(r, r');
  }

  /** `InsertInto`: a record's operations go into the memtable with consecutive sequence numbers. */
  method InsertInto(mem: seq<Entry>, r: Record, ghost h: seq<Op>, ghost a: nat, ghost b: nat) returns (m: seq<Entry>)
    requires a <= b && b + |r.ops| <= |h| && mem == MemOf(h, a, b)
    requires r.seqno == b + 1 && r.ops == h[b..b + |r.ops|]
    ensures m == MemOf(h, a, b + |r.ops|)
  {
    hide MemInsert;
    m := mem;
    for i := 0 to |r.ops|
      invariant m == MemOf(h, a, b + i)
    {
      assert r.ops[i] == h[b + i];
      m := MemInsert(m, EntryOf(r.ops[i], r.seqno + i));
    }
  }

  lemma NoRecords(rs: seq<Record>, h: seq<Op>, a: nat, b: nat)
    requires LogIs(rs, h, a, b)
    ensures a <= b <= |h| && |RecordOps(rs[..0])| == 0 && a + |RecordOps(rs)| == b
  {
    assert rs[..0] == [];
  }

  lemma BuildsTable(v: Version, nextFile: nat, tables: map<nat, seq<Entry>>, f: File)
    requires |v| == NUM_LEVELS > 0 && NumbersBelow(v, nextFile) && TablesOnDisk(v, tables) && f.number == nextFile
    requires Rebuilt(v[0], {}, [f], Insert(v[0], f))
    ensures TablesOnDisk(v[0 := Insert(v[0], f)], tables[nextFile := f.entries])
  {
    hide Insert, FileData.Valid, Ordered;
  }

  lemma BumpReopening(h: seq<Op>, floor: nat, a: nat, immFrom: nat, v: Version, nextFile: nat, n: nat)
    requires a <= |h| && Inv(Reopening(h, floor, a, immFrom, v, nextFile)) && n >= nextFile
    ensures Inv(Reopening(h, floor, a, immFrom, v, n))
  {
    hide Inv, MemOf;
    BumpKeepsInv(Reopening(h, floor, a, immFrom, v, nextFile), n);
  }

  lemma CollectsLater(base: Version, added: seq<File>, v: Version, nextFile: nat, n: nat)
    requires Collected(base, added, v, nextFile) && nextFile <= n
    ensures Collected(base, added, v, n)
  {
    hide Rebuilt, Ordered;
  }

  lemma NothingCollected(h: seq<Op>, floor: nat, pos: nat, base: Version, nextFile: nat)
    requires pos <= |h| && Inv(Reopening(h, floor, pos, 0, base, nextFile))
    ensures Collected(base, [], base, nextFile)
  {
    hide MemOf, Agrees, FromHistory, Before, LevelEntries;
    LevelsGood(base);
  }

  lemma CollectsNothing(base: Version, added: seq<File>, v: Version, nextFile: nat)
    requires Collected(base, added, v, nextFile)
    ensures Collected(base, added, v, nextFile + 1)
  {
    hide Rebuilt, Ordered;
  }

  lemma MemEmpty(h: seq<Op>, a: nat, b: nat)
    requires a <= b <= |h|
    ensures MemOf(h, a, b) == [] <==> a == b
  {
    MemOfIs(h, a, b);
    if a < b {
      assert EntryOf(h[a], a + 1) in Stretch(h, a, b);
    }
  }

  lemma ChunkIsTable(h: seq<Op>, floor: nat, a: nat, b: nat, immFrom: nat, v: Version, nextFile: nat, size: nat)
    requires a < b <= |h| && Inv(Reopening(h, floor, a, immFrom, v, nextFile))
    ensures FileData(nextFile, size, MemOf(h, a, b)).Valid()
  {
    hide *;
    Repartition(h, floor, a, b, immFrom, v, nextFile);
    MemEmpty(h, a, b);
    ImmIsTable(State(h, floor, MemOf(h, b, |h|), b, Some(MemOf(h, a, b)), a, v, nextFile, [], None), size);
  }

  // ---------------------------------------------------------------- opening a database again

  /** One more unapplied operation may as well have reached the memtable before the crash. */
  lemma ApplyOne(s: System) returns (s': System)
    requires SystemInv(s) && s.unapplied != []
    ensures ApplyStep(s, s') && SystemInv(s') && Logged(s') == Logged(s) && s'.unapplied == s.unapplied[1..]
    ensures s' == s.(st := s'.st, unapplied := s.unapplied[1..])
    ensures s'.st.version == s.st.version && s'.st.floor == s.st.floor && s'.st.FilesUpTo() == s.st.FilesUpTo()
  {
    hide Inv, MemInsert, Sorted, MemtablesLogged, ManifestOk, TablesOnDisk, SetOf;
    var st, op := s.st, s.unapplied[0];
    var e := EntryOf(op, |st.history| + 1);
    MemIsSorted(st, e);
    MemInsertKeepsSorted(st.mem, e);
    var st' := st.(history := st.history + [op], mem := MemInsert(st.mem, e));
    assert WriteStep(st, st');
    s' := s.(st := st', unapplied := s.unapplied[1..]);
    assert s.unapplied == [op] + s.unapplied[1..];
    ApplyKeeps(s, s');
  }

  lemma MemIsSorted(st: State, e: Entry)
    requires Inv(st) && e.ikey.seqno == |st.history| + 1
    ensures Sorted(st.mem) && forall x :: x in st.mem ==> x.ikey != e.ikey
  {
    forall x | x in st.mem
      ensures x.ikey != e.ikey
    {
      MemSeqnos(st, x);
    }
  }

  lemma {:induction false} ApplyRest(s: System) returns (s': System)
    requires SystemInv(s)
    ensures SystemInv(s') && Logged(s') == Logged(s) && s'.unapplied == []
    ensures s' == s.(st := s'.st, unapplied := [])
    ensures s'.st.version == s.st.version && s'.st.floor == s.st.floor && s'.st.FilesUpTo() == s.st.FilesUpTo()
    decreases |s.unapplied|
  {
    hide SystemInv;
    if s.unapplied == [] {
      s' := s;
    } else {
      var t := ApplyOne(s);
      s' := ApplyRest(t);
    }
  }

  /** With all of it applied, the memtables hold what the logs hold behind the manifest's tables. */
  lemma StartsRight(s: System)
    requires SystemInv(s) && s.unapplied == []
    ensures s.st.FilesUpTo() <= |s.st.history|
    ensures Inv(Reopening(s.st.history, s.st.floor, s.st.FilesUpTo(), 0, s.disk.manifest.version, s.disk.manifest.nextFile))
  {
    hide LogIs, Stretch, SetOf, LevelEntries, GoodVersion, NumbersBelow, FromHistory, Agrees, MemOf, Sorted, TablesOnDisk;
    var st, h, a := s.st, s.st.history, s.st.FilesUpTo();
    var st' := Reopening(h, st.floor, a, 0, s.disk.manifest.version, s.disk.manifest.nextFile);
    MemOfIs(h, a, |h|);
    StretchSplits(h, a, st.memFrom, |h|);
    StretchSeqnos(h, a, |h|);
    EmptyStretch(h, st.memFrom);
    forall e | e in st'.mem
      ensures a < e.ikey.seqno
    {
      InSetOf(st'.mem, e);
    }
    assert st'.Contents() == st.Contents();
    SameContents(st, st');
  }

  lemma EmptyStretch(h: seq<Op>, a: nat)
    requires a <= |h|
    ensures Stretch(h, a, a) == {}
  {
  }

  lemma InSetOf(es: seq<Entry>, e: Entry)
    requires e in es
    ensures e in SetOf(es)
  {
  }

  /** What recovery may rely on: the disk of any state the system can be in. */
  lemma DiskIsEnough(s: System)
    requires SystemInv(s)
    ensures s.st.FilesUpTo() <= s.disk.manifest.last <= |Logged(s)| && s.st.FilesUpTo() <= |Logged(s)|
    ensures TablesOnDisk(s.disk.manifest.version, s.disk.tables)
    ensures Inv(Reopening(Logged(s), s.st.floor, s.st.FilesUpTo(), 0, s.disk.manifest.version, s.disk.manifest.nextFile))
  {
    hide Inv, MemtablesLogged, NumbersBelow, TablesOnDisk;
    var t := ApplyRest(s);
    assert Logged(t) == t.st.history;
    StartsRight(t);
  }

  ghost predicate Increasing(ns: seq<nat>) {
    forall i, j :: 0 <= i < j < |ns| ==> ns[i] < ns[j]
  }

  lemma {:induction false} LeastOf(ns: set<nat>) returns (least: nat)
    requires ns != {}
    ensures least in ns && forall m :: m in ns ==> least <= m
  {
    var n :| n in ns;
    var rest := ns - {n};
    assert forall m :: m in ns <==> m == n || m in rest;
    least := n;
    if rest != {} {
      var k := LeastOf(rest);
      least := if n < k then n else k;
    }
  }

  /** The numbers of the logs to replay, in the order in which they were made. */
  method SortedLogs(all: set<nat>, minLog: nat) returns (logs: seq<nat>)
    ensures Increasing(logs) && forall n :: n in logs <==> n in all && n >= minLog
  {
    var left := set n | n in all && n >= minLog;
    ghost var keep := left;
    logs := [];
    while left != {}
      invariant Increasing(logs) && left <= keep && forall n :: n in logs ==> n in keep
      invariant forall n :: n in keep ==> n in logs || n in left
      invariant forall i, m :: 0 <= i < |logs| && m in left ==> logs[i] < m
      decreases |left|
    {
      ghost var least := LeastOf(left);
      var n :| n in left && forall m :: m in left ==> n <= m;
      logs := logs + [n];
      left := left - {n};
    }
  }

  /** Exactly the log of the immutable memtable, if there is one, and the current log are replayed. */
  lemma LogsToReplay(s: System, logs: seq<nat>)
    requires SystemInv(s) && Increasing(logs)
    requires forall n :: n in logs <==> n in s.disk.logs.Keys && n >= s.disk.manifest.logNumber
    ensures logs == if s.st.imm.Some? then [s.immLog, s.logNumber] else [s.logNumber]
  {
    hide Inv, LogIs, NumbersBelow, TablesOnDisk, Stretch;
    assert s.logNumber in logs && OldestLog(s) in logs;
    assert forall n :: n in logs ==> n == s.logNumber || n == OldestLog(s);
    PairOf(logs, OldestLog(s), s.logNumber);
  }

  lemma PairOf(ns: seq<nat>, a: nat, b: nat)
    requires Increasing(ns) && a <= b && forall n :: n in ns <==> n == a || n == b
    ensures ns == if a < b then [a, b] else [b]
  {
    assert a in ns && b in ns;
    var i :| 0 <= i < |ns| && ns[i] == a;
    var j :| 0 <= j < |ns| && ns[j] == b;
    OnlyTwo(ns, a, b, i, j, 0);
    OnlyTwo(ns, a, b, i, j, 1);
    OnlyTwo(ns, a, b, i, j, 2);
  }

  lemma OnlyTwo(ns: seq<nat>, a: nat, b: nat, i: nat, j: nat, x: nat)
    requires Increasing(ns) && i < |ns| && j < |ns| && ns[i] == a && ns[j] == b
    requires forall n :: n in ns <==> n == a || n == b
    ensures x < |ns| ==> x == i || x == j
  {
    if x < |ns| {
      assert ns[x] in ns;
    }
  }

  /** What the kept logs hold. */
  lemma LogContents(s: System)
    requires SystemInv(s)
    ensures |Logged(s)| < MAX_SEQUENCE && s.logNumber in s.disk.logs
    ensures LogIs(s.disk.logs[s.logNumber], Logged(s), s.st.memFrom, |Logged(s)|)
    ensures s.disk.logs[s.logNumber] == [] ==> s.st.memFrom == |Logged(s)|
    ensures if s.st.imm.Some? then
        && s.immLog in s.disk.logs && LogIs(s.disk.logs[s.immLog], Logged(s), s.st.immFrom, s.st.memFrom)
        && s.st.FilesUpTo() == s.st.immFrom && s.immLog < s.logNumber
        && (s.disk.logs[s.immLog] == [] ==> s.st.immFrom == s.st.memFrom)
      else s.st.FilesUpTo() == s.st.memFrom
  {
    hide Inv, Stretch, NumbersBelow, TablesOnDisk, SetOf;
  }

  lemma ReopenedInv(h: seq<Op>, floor: nat, immFrom: nat, disk: Disk, logNumber: nat)
    requires |h| < MAX_SEQUENCE && Inv(Reopening(h, floor, |h|, immFrom, disk.manifest.version, disk.manifest.nextFile))
    requires TablesOnDisk(disk.manifest.version, disk.tables)
    requires logNumber in disk.logs && disk.logs[logNumber] == [] && disk.manifest.logNumber == logNumber
    requires (forall n :: n in disk.logs ==> n <= logNumber) && logNumber < disk.manifest.nextFile
    requires disk.manifest.last == |h|
    ensures SystemInv(Reopened(h, floor, immFrom, disk, logNumber))
  {
    hide Inv, LogIs, Stretch, NumbersBelow, TablesOnDisk, SetOf;
    var m := disk.manifest;
    NumbersFromInv(Reopening(h, floor, |h|, immFrom, m.version, m.nextFile));
    EmptyMemtable(h);
    assert h + [] == h;
  }

  /** The system after a successful open. */
  ghost function Reopened(h: seq<Op>, floor: nat, immFrom: nat, disk: Disk, logNumber: nat): System {
    System(State(h, floor, [], |h|, None, immFrom, disk.manifest.version, disk.manifest.nextFile, [], None), [],
           disk, logNumber, 0, {})
  }

  lemma ReopenedHas(h: seq<Op>, floor: nat, immFrom: nat, disk: Disk, logNumber: nat)
    ensures
      var s := Reopened(h, floor, immFrom, disk, logNumber);
      s.disk == disk && s.logNumber == logNumber && s.st.history == h && s.st.floor == floor
  {
  }

  /** Reading at the last sequence number gives what the last operations wrote. */
  lemma ReadsLogged(s: System)
    requires SystemInv(s)
    ensures |s.st.version| == NUM_LEVELS
    ensures forall user :: Answer(s.st.Contents(), user, |s.st.history|) == ReadHistory(s.st.history, user, |s.st.history|)
  {
    hide Inv, MemtablesLogged, ManifestOk, TablesOnDisk, State.Contents, Answer, ReadHistory;
    LiveReads(s.st, 0.0, |s.st.history|);
    forall user
      ensures Answer(s.st.Contents(), user, |s.st.history|) == ReadHistory(s.st.history, user, |s.st.history|)
    {
      LiveReads(s.st, user, |s.st.history|);
    }
  }

  // ---------------------------------------------------------------- what can be recovered

  /** The logs hold the rest of the history, one after the other. */
  ghost predicate Chain(logs: map<nat, seq<Record>>, ns: seq<nat>, h: seq<Op>, a: nat)
    decreases ns
  {
    if ns == [] then a == |h|
    else ns[0] in logs && exists b :: LogIs(logs[ns[0]], h, a, b) && Chain(logs, ns[1..], h, b)
  }

  /** The logs that recovery replays, in order. */
  ghost predicate IsKept(d: Disk, ns: seq<nat>) {
    Increasing(ns) && forall n :: n in ns <==> n in d.logs && n >= d.manifest.logNumber
  }

  /** The disk holds `h`: its tables the first `start` operations, and the kept logs the others. */
  ghost predicate Recoverable(d: Disk, h: seq<Op>, floor: nat, start: nat) {
    var m := d.manifest;
    && start <= |h| < MAX_SEQUENCE && start <= m.last && TablesOnDisk(m.version, d.tables)
    && Inv(Reopening(h, floor, start, 0, m.version, m.nextFile))
    && (forall ns :: IsKept(d, ns) ==> Chain(d.logs, ns, h, start))
    && exists n :: n in d.logs && n >= m.logNumber
  }

  lemma OneLog(logs: map<nat, seq<Record>>, n: nat, h: seq<Op>, a: nat)
    requires n in logs && LogIs(logs[n], h, a, |h|)
    ensures Chain(logs, [n], h, a)
  {
    hide LogIs;
    assert [n][1..] == [];
    assert Chain(logs, [], h, |h|);
  }

  lemma TwoLogs(logs: map<nat, seq<Record>>, k: nat, n: nat, h: seq<Op>, a: nat, b: nat)
    requires k in logs && n in logs && LogIs(logs[k], h, a, b) && LogIs(logs[n], h, b, |h|)
    ensures Chain(logs, [k, n], h, a)
  {
    hide LogIs;
    OneLog(logs, n, h, b);
    assert [k, n][1..] == [n];
  }

  /** At any moment of any run, what is on disk is the whole logged history. */
  lemma RunningIsRecoverable(s: System)
    requires SystemInv(s)
    ensures s.st.FilesUpTo() <= s.disk.manifest.last <= |Logged(s)|
    ensures Recoverable(s.disk, Logged(s), s.st.floor, s.st.FilesUpTo())
  {
    hide *;
    DiskIsEnough(s);
    LogContents(s);
    var d, h, start := s.disk, Logged(s), s.st.FilesUpTo();
    forall ns | IsKept(d, ns)
      ensures Chain(d.logs, ns, h, start)
    {
      KeptAre(d, ns);
      LogsToReplay(s, ns);
      if s.st.imm.Some? {
        TwoLogs(d.logs, s.immLog, s.logNumber, h, start, s.st.memFrom);
      } else {
        OneLog(d.logs, s.logNumber, h, start);
      }
    }
    CurrentLogIsKept(s);
    AreRecoverable(d, h, s.st.floor, start);
  }

  lemma KeptAre(d: Disk, ns: seq<nat>)
    requires IsKept(d, ns)
    ensures Increasing(ns) && forall n :: n in ns <==> n in d.logs.Keys && n >= d.manifest.logNumber
  {
  }

  lemma CurrentLogIsKept(s: System)
    requires SystemInv(s)
    ensures exists n :: n in s.disk.logs && n >= s.disk.manifest.logNumber
  {
    hide Inv, LogIs, Stretch, NumbersBelow, TablesOnDisk, SetOf;
    assert s.logNumber in s.disk.logs;
  }

  lemma AreRecoverable(d: Disk, h: seq<Op>, floor: nat, start: nat)
    requires start <= |h| < MAX_SEQUENCE && start <= d.manifest.last && TablesOnDisk(d.manifest.version, d.tables)
    requires Inv(Reopening(h, floor, start, 0, d.manifest.version, d.manifest.nextFile))
    requires forall ns :: IsKept(d, ns) ==> Chain(d.logs, ns, h, start)
    requires exists n :: n in d.logs && n >= d.manifest.logNumber
    ensures Recoverable(d, h, floor, start)
  {
    hide Inv, Chain, IsKept, TablesOnDisk;
  }

  lemma RecoverableParts(d: Disk, h: seq<Op>, floor: nat, start: nat)
    requires Recoverable(d, h, floor, start)
    ensures start <= |h| < MAX_SEQUENCE && start <= d.manifest.last && TablesOnDisk(d.manifest.version, d.tables)
    ensures Inv(Reopening(h, floor, start, 0, d.manifest.version, d.manifest.nextFile))
    ensures forall ns :: IsKept(d, ns) ==> Chain(d.logs, ns, h, start)
    ensures exists n :: n in d.logs && n >= d.manifest.logNumber
  {
    hide Inv, Chain, IsKept, TablesOnDisk;
  }

  // ---------------------------------------------------------------- stopping inside an open

  lemma {:induction false} ChainExtends(logs: map<nat, seq<Record>>, ns: seq<nat>, h: seq<Op>, a: nat, x: nat)
    requires Chain(logs, ns, h, a) && x !in logs
    ensures Chain(logs[x := []], ns + [x], h, a)
    decreases ns
  {
    hide LogIs;
    var more := logs[x := []];
    if ns == [] {
      EmptyMemtable(h);
      OneLog(more, x, h, a);
      assert ns + [x] == [x];
    } else {
      var b :| LogIs(logs[ns[0]], h, a, b) && Chain(logs, ns[1..], h, b);
      ChainExtends(logs, ns[1..], h, b, x);
      assert (ns + [x])[1..] == ns[1..] + [x] && more[ns[0]] == logs[ns[0]];
    }
  }

  /** A new empty log behind all others leaves the kept ones as they are, with itself at the end. */
  lemma KeptBefore(d: Disk, d': Disk, ns: seq<nat>, x: nat)
    requires d'.manifest == d.manifest && d'.logs == d.logs[x := []] && x >= d.manifest.logNumber
    requires (forall n :: n in d.logs ==> n < x) && IsKept(d', ns)
    ensures ns != [] && ns[|ns| - 1] == x && IsKept(d, ns[..|ns| - 1])
  {
    assert x in ns;
    LastIsLargest(ns);
    var init, last := ns[..|ns| - 1], ns[|ns| - 1];
    assert last in ns && ns == init + [last];
    assert last in d'.logs;
    forall n | n in init
      ensures n < last
    {
      var i :| 0 <= i < |init| && init[i] == n;
    }
    forall n
      ensures n in init <==> n in d.logs && n >= d.manifest.logNumber
    {
      assert n in ns <==> n in d'.logs && n >= d.manifest.logNumber;
      assert n in ns <==> n in init || n == last;
    }
  }

  lemma LastIsLargest(ns: seq<nat>)
    requires Increasing(ns) && ns != []
    ensures forall i :: 0 <= i < |ns| - 1 ==> ns[i] < ns[|ns| - 1]
    ensures forall n :: n in ns ==> n <= ns[|ns| - 1]
  {
  }

  /**
   An open that stops before it installs its manifest has made some tables, with numbers that the manifest has
   not given out, and perhaps its new log.  What is on disk is still the same history.
   */
  lemma StoppedOpenIsRecoverable(d: Disk, h: seq<Op>, floor: nat, start: nat, tables: map<nat, seq<Entry>>, x: nat)
    requires Recoverable(d, h, floor, start) && TablesKept(d.tables, tables, d.manifest.nextFile)
    ensures Recoverable(d.(tables := tables), h, floor, start)
    ensures x >= d.manifest.logNumber && (forall n :: n in d.logs ==> n < x) ==>
      Recoverable(d.(tables := tables, logs := d.logs[x := []]), h, floor, start)
  {
    hide *;
    RecoverableParts(d, h, floor, start);
    LiveTablesKept(h, floor, start, d, tables);
    var d1 := d.(tables := tables);
    forall ns | IsKept(d1, ns)
      ensures Chain(d1.logs, ns, h, start)
    {
      SameKept(d, d1, ns);
    }
    AreRecoverable(d1, h, floor, start);
    if x >= d.manifest.logNumber && forall n :: n in d.logs ==> n < x {
      var d2 := d.(tables := tables, logs := d.logs[x := []]);
      forall ns | IsKept(d2, ns)
        ensures Chain(d2.logs, ns, h, start)
      {
        KeptBefore(d, d2, ns, x);
        var init := ns[..|ns| - 1];
        ChainExtends(d.logs, init, h, start, x);
        assert init + [x] == ns;
      }
      assert x in d2.logs;
      AreRecoverable(d2, h, floor, start);
    }
  }

  lemma SameKept(d: Disk, d': Disk, ns: seq<nat>)
    requires d'.logs == d.logs && d'.manifest == d.manifest
    ensures IsKept(d, ns) <==> IsKept(d', ns)
  {
    hide Increasing;
  }

  lemma LiveTablesKept(h: seq<Op>, floor: nat, start: nat, d: Disk, tables: map<nat, seq<Entry>>)
    requires start <= |h| && Inv(Reopening(h, floor, start, 0, d.manifest.version, d.manifest.nextFile))
    requires TablesOnDisk(d.manifest.version, d.tables) && TablesKept(d.tables, tables, d.manifest.nextFile)
    ensures TablesOnDisk(d.manifest.version, tables)
  {
    hide Inv;
    ReopeningParts(h, floor, start, 0, d.manifest.version, d.manifest.nextFile);
  }

  // ---------------------------------------------------------------- opening

  /** A live table is not there. */
  ghost predicate MissingTable(d: Disk) {
    exists l, f :: 0 <= l < |d.manifest.version| && f in d.manifest.version[l] && f.number !in d.tables
  }

  /** Every file that the manifest's version lists is looked for. */
  method FindMissing(d: Disk) returns (missing: bool)
    ensures missing == MissingTable(d)
  {
    var v: Version := d.manifest.version;
    for l := 0 to |v|
      invariant forall k, f: File :: 0 <= k < l && f in v[k] ==> f.number in d.tables
    {
      for i := 0 to |v[l]|
        invariant forall k :: 0 <= k < i ==> v[l][k].number in d.tables
      {
        if v[l][i].number !in d.tables {
          assert v[l][i] in v[l];
          return true;
        }
      }
    }
    return false;
  }

  lemma NoneMissing(d: Disk)
    requires TablesOnDisk(d.manifest.version, d.tables)
    ensures !MissingTable(d)
  {
  }

  lemma {:induction false} ChainStep(logs: map<nat, seq<Record>>, ns: seq<nat>, i: nat, h: seq<Op>, a: nat) returns (b: nat)
    requires i < |ns| && Chain(logs, ns[i..], h, a)
    ensures ns[i] in logs && LogIs(logs[ns[i]], h, a, b) && Chain(logs, ns[i + 1..], h, b) && (logs[ns[i]] == [] ==> a == b)
  {
    hide Chain;
    ChainCons(logs, ns[i..], h, a);
    b :| LogIs(logs[ns[i..][0]], h, a, b) && Chain(logs, ns[i..][1..], h, b);
    assert ns[i..][1..] == ns[i + 1..];
  }

  lemma ChainCons(logs: map<nat, seq<Record>>, ns: seq<nat>, h: seq<Op>, a: nat)
    requires ns != [] && Chain(logs, ns, h, a)
    ensures ns[0] in logs && exists b: nat :: LogIs(logs[ns[0]], h, a, b) && Chain(logs, ns[1..], h, b)
  {
  }

  lemma ChainEnd(logs: map<nat, seq<Record>>, ns: seq<nat>, h: seq<Op>, a: nat)
    requires ns == [] && Chain(logs, ns, h, a)
    ensures a == |h|
  {
  }

  /** All logs are below the new one. */
  lemma NewLogIsLast(d: Disk, ns: seq<nat>, n: nat)
    requires IsKept(d, ns) && (forall k :: 0 <= k < |ns| ==> ns[k] < n) && exists k :: k in d.logs && k >= d.manifest.logNumber
    ensures n >= d.manifest.logNumber && forall k :: k in d.logs ==> k < n
  {
    var k :| k in d.logs && k >= d.manifest.logNumber;
    assert k in ns;
    forall i | i in d.logs
      ensures i < n
    {
      if i >= d.manifest.logNumber {
        assert i in ns;
      }
    }
  }

  lemma KeepsFewer(before: map<nat, seq<Entry>>, after: map<nat, seq<Entry>>, n: nat, m: nat)
    requires TablesKept(before, after, n) && m <= n
    ensures TablesKept(before, after, m)
  {
  }

  /** What has been read reads as the history, also at any later number. */
  lemma ReadsAll(h: seq<Op>, floor: nat, immFrom: nat, v: Version, nextFile: nat)
    requires Inv(Reopening(h, floor, |h|, immFrom, v, nextFile))
    ensures |v| == NUM_LEVELS
    ensures forall user, s: nat :: s >= |h| ==> Answer(LevelEntries(v, 0, NUM_LEVELS), user, s) == ReadHistory(h, user, |h|)
  {
    hide Inv, LevelEntries, ReadHistory, Answer, MemOf;
    var st := Reopening(h, floor, |h|, immFrom, v, nextFile);
    ReopeningParts(h, floor, |h|, immFrom, v, nextFile);
    OnlyTables(h, floor, immFrom, v, nextFile);
    forall user, s: nat | s >= |h|
      ensures Answer(LevelEntries(v, 0, NUM_LEVELS), user, s) == ReadHistory(h, user, |h|)
    {
      LiveReads(st, user, |h|);
      LaterReads(LevelEntries(v, 0, NUM_LEVELS), user, |h|, s);
    }
  }

  lemma OnlyTables(h: seq<Op>, floor: nat, immFrom: nat, v: Version, nextFile: nat)
    requires |v| == NUM_LEVELS && Inv(Reopening(h, floor, |h|, immFrom, v, nextFile))
    ensures Reopening(h, floor, |h|, immFrom, v, nextFile).Contents() == LevelEntries(v, 0, NUM_LEVELS)
    ensures Distinct(LevelEntries(v, 0, NUM_LEVELS)) && Reopening(h, floor, |h|, immFrom, v, nextFile).LastSequence() == |h|
  {
    hide LevelEntries;
    var st := Reopening(h, floor, |h|, immFrom, v, nextFile);
    assert st.Contents() == LevelEntries(v, 0, NUM_LEVELS);
    FromHistoryDistinct(st.Contents(), h);
  }

  lemma LaterReads(es: set<Entry>, user: UserKey, s: nat, t: nat)
    requires Distinct(es) && s <= t && forall e :: e in es ==> e.ikey.seqno <= s
    ensures Answer(es, user, s) == Answer(es, user, t)
  {
    SameBelow(es, user, t, s);
  }

  /**
   `DBImpl::Recover` and `DB::Open`, from what is on disk alone: look for the live tables, replay the kept logs in
   order, install the tables this makes, and start a new log.  Nothing that the disk holds is lost: reads give what
   the history gives, and if the manifest was not ahead of the logs, the reopened system satisfies the invariant of
   the running one.  Up to the installation of the manifest, stopping leaves a disk that holds the same history.
   */
  method Recover(disk: Disk, full: seq<Entry> -> bool, size: seq<Entry> -> nat, ghost h: seq<Op>, ghost floor: nat, ghost start: nat)
    returns (ok: bool, disk': Disk, logNumber: nat, ghost s': System)
    requires MissingTable(disk) || Recoverable(disk, h, floor, start)
    ensures ok == !MissingTable(disk) && (!ok ==> disk' == disk)
    ensures ok ==> disk'.manifest.last == if disk.manifest.last > |h| then disk.manifest.last else |h|
    ensures ok ==> |disk'.manifest.version| == NUM_LEVELS && TablesOnDisk(disk'.manifest.version, disk'.tables)
    ensures ok ==> forall user, s: nat :: s >= |h| ==>
      Answer(LevelEntries(disk'.manifest.version, 0, NUM_LEVELS), user, s) == ReadHistory(h, user, |h|)
    ensures ok ==> disk'.logs == disk.logs[logNumber := []] && logNumber !in disk.logs && disk'.manifest.logNumber == logNumber
    ensures ok && disk.manifest.last <= |h| ==>
      s'.disk == disk' && s'.logNumber == logNumber && SystemInv(s') && s'.st.history == h && s'.st.floor == floor
    ensures ok ==> Recoverable(disk'.(manifest := disk.manifest), h, floor, start)
  {
    hide *;
    ok, disk', logNumber, s' := false, disk, 0, Reopened([], 0, 0, disk, 0);
    var missing := FindMissing(disk);
    if missing {
      return;
    }
    RecoverableParts(disk, h, floor, start);
    var m := disk.manifest;
    var logs: seq<nat> := SortedLogs(disk.logs.Keys, m.logNumber);
    AreKept(disk, logs);
    // the manifest's next number goes to the new manifest file
    BumpReopening(h, floor, start, 0, m.version, m.nextFile, m.nextFile + 1);
    var o := new Opening(m.version, m.nextFile + 1, disk.tables, h, floor, start);
    assert logs[0..] == logs;
    for i := 0 to |logs|
      invariant o.Valid() && Chain(disk.logs, logs[i..], h, o.pos)
      invariant o.maxSequence == o.pos || (o.maxSequence == 0 && o.pos == start)
      invariant forall k :: 0 <= k < i ==> logs[k] < o.nextFile
      invariant o.nextFile >= m.nextFile + 1
    {
      ghost var upto := ChainStep(disk.logs, logs, i, h, o.pos);
      o.RecoverLogFile(disk.logs[logs[i]], full, size, upto);
      o.MarkFileNumberUsed(logs[i]);
    }
    ChainEnd(disk.logs, logs[|logs|..], h, o.pos);
    var last := if m.last < o.maxSequence then o.maxSequence else m.last;
    logNumber := o.nextFile;
    NewLogIsLast(disk, logs, logNumber);
    o.MarkFileNumberUsed(logNumber);
    var version := o.SaveVersion();
    ok, disk' := true, Disk(disk.logs[logNumber := []], o.tables, Manifest(version, logNumber, o.nextFile, last));
    o.OpenValid();
    KeepsFewer(disk.tables, o.tables, m.nextFile + 1, m.nextFile);
    StoppedOpenIsRecoverable(disk, h, floor, start, o.tables, logNumber);
    ReadsAll(h, floor, o.immFrom, version, o.nextFile);
    if m.last <= |h| {
      s' := Reopened(h, floor, o.immFrom, disk', logNumber);
      ReopenedInv(h, floor, o.immFrom, disk', logNumber);
      ReopenedHas(h, floor, o.immFrom, disk', logNumber);
    }
  }

  lemma AreKept(d: Disk, ns: seq<nat>)
    requires Increasing(ns) && forall n :: n in ns <==> n in d.logs.Keys && n >= d.manifest.logNumber
    ensures IsKept(d, ns)
  {
  }
}
