/** `DBImpl`: the engine's operations as methods that take the steps of the state machine. */
module Database {
  import opened Keys
  import opened Files
  import opened Reads
  import opened DropRule
  import opened VersionBuilder
  import opened Versions
  import opened Selection
  import opened VersionSteps
  import opened CompactionSteps
  import opened CompactionLoop
  import opened InternalIter
  import opened Planning
  import opened Compacting
  import opened Engine
  import opened Boundary
  import opened MemTable
  import Merger
  import DbIter
  import Scan

  class Db {
    const maxFileSize: nat
    var lastSequence: nat
    var mem: seq<Entry>
    var imm: Option<seq<Entry>>
    var version: Version
    var nextFile: nat
    var snapshots: seq<nat>
    var job: Option<Job>
    ghost var history: seq<Op>
    ghost var floor: nat
    ghost var memFrom: nat
    ghost var immFrom: nat

    ghost function Abs(): State
      reads this
    {
      State(history, floor, mem, memFrom, imm, immFrom, version, nextFile, snapshots, job)
    }

    ghost predicate Valid()
      reads this
    {
      lastSequence == |history| && Inv(Abs())
    }

    constructor (maxFileSize: nat)
      ensures Valid() && Init(Abs()) && this.maxFileSize == maxFileSize
    {
      this.maxFileSize := maxFileSize;
      lastSequence, mem, imm, version, nextFile, snapshots, job := 0, [], None, seq(NUM_LEVELS, _ => []), 2, [], None;
      history, floor, memFrom, immFrom := [], 0, 0, 0;
      new;
      InitInv(Abs());
    }

    /** Apply a logged batch: consecutive sequence numbers, one memtable entry per operation. */
    method Write(batch: seq<Op>)
      requires Valid() && lastSequence + |batch| + 1 < MAX_SEQUENCE
      modifies this`lastSequence, this`mem, this`history
      ensures Valid() && history == old(history) + batch
    {
      hide Inv, Sorted, MemInsert, SetOf;
      assert history + batch[..0] == history;
      for i := 0 to |batch|
        invariant Valid() && history == old(history) + batch[..i]
      {
        var e := EntryOf(batch[i], lastSequence + 1);
        ghost var before := Abs();
        MemHasOnlyOlder(before, e);
        MemInsertKeepsSorted(mem, e);
        mem := MemInsert(mem, e);
        lastSequence := lastSequence + 1;
        history := history + [batch[i]];
        assert batch[..i + 1] == batch[..i] + [batch[i]];
        assert WriteStep(before, Abs());
        WriteKeepsInv(before, Abs());
      }
      assert batch[..|batch|] == batch;
    }

    /** `MakeRoomForWrite`, when the memtable is full and the previous one has been flushed. */
    method SwitchMemTable()
      requires Valid() && imm == None
      modifies this`mem, this`imm, this`memFrom, this`immFrom
      ensures Valid() && SwitchStep(old(Abs()), Abs())
    {
      hide Inv;
      imm, mem := Some(mem), [];
      immFrom, memFrom := memFrom, |history|;
      SwitchKeepsInv(old(Abs()), Abs());
    }

    method GetSnapshot() returns (s: nat)
      requires Valid()
      modifies this`snapshots
      ensures Valid() && s == lastSequence && s in snapshots && SnapshotStep(old(Abs()), Abs())
    {
      hide Inv;
      s := lastSequence;
      snapshots := snapshots + [lastSequence];
      SnapshotKeepsInv(old(Abs()), Abs());
    }

    method ReleaseSnapshot(i: nat)
      requires Valid() && i < |snapshots|
      modifies this`snapshots
      ensures Valid() && snapshots == old(snapshots)[..i] + old(snapshots)[i + 1..]
    {
      hide Inv;
      snapshots := snapshots[..i] + snapshots[i + 1..];
      assert ReleaseStep(old(Abs()), Abs());
      SnapshotKeepsInv(old(Abs()), Abs());
    }

    /**
     `CompactMemTable`: write the immutable memtable as a table, unless it is empty, and install it at
     the picked level.
     */
    method CompactMemTable(fileBytes: seq<Entry> -> nat) returns (level: nat)
      requires Valid() && imm.Some? && job == None
      modifies this`imm, this`version, this`nextFile
      ensures Valid() && FlushStep(old(Abs()), Abs()) && imm == None && nextFile == old(nextFile) + 1
      ensures |old(version)| == NUM_LEVELS && level < NUM_LEVELS
      ensures if old(imm).value == [] then version == old(version)
        else Flushes(old(version), old(imm).value, old(nextFile), fileBytes, maxFileSize, level, version)
    {
      hide Inv, FilesOk, GoodVersion, MayFlushTo, FileData.Valid, Rebuilt, Ordered, FlushStep, FlushesTo, Flushes;
      Shape(Abs());
      ghost var before := Abs();
      level := 0;
      if imm.value != [] {
        ImmIsTable(Abs(), fileBytes(imm.value));
        var f: File := FileData(nextFile, fileBytes(imm.value), imm.value);
        level := PickLevelForMemTableOutput(version, f, maxFileSize);
        FreshNumber(Abs(), level, f);
        AreInOrder(version[level]);
        var r := SaveLevel(version[level], {}, [f]);
        version, imm := version[level := r], None;
        nextFile := nextFile + 1;
        Flushed(before, Abs(), f, level, r);
        FlushesWith(before.version, f, fileBytes, maxFileSize, level, r);
      } else {
        imm := None;
        nextFile := nextFile + 1;
        FlushedNothing(before, Abs());
      }
      FlushKeepsInv(before, Abs());
    }

    method InstallMove(level: nat, f: File, ghost here: seq<File>)
      requires Valid() && job == None && level + 1 < NUM_LEVELS == |version| && here == [f]
      requires ReadyInputs(level, version[level], version[level + 1], here, [])
      modifies this`version
      ensures Valid() && MoveStep(old(Abs()), Abs()) && Replaces(old(version), level, here, [], here, version)
    {
      hide Inv, GoodVersion, ReadyInputs, Replaces, MoveStep;
      Shape(Abs());
      version := MoveFile(version, level, f, here);
      Moved(old(Abs()), Abs(), level, f);
    }

    method BeginJob(level: nat, here: seq<File>, next: seq<File>)
      requires Valid() && job == None && level + 1 < NUM_LEVELS == |version|
      requires ReadyInputs(level, version[level], version[level + 1], here, next)
      modifies this`job, this`floor
      ensures Valid() && BeginStep(old(Abs()), Abs()) && job.Some? && job.value.level == level
      ensures job.value.here == here && job.value.next == next
    {
      hide Inv, ReadyInputs;
      ghost var before := Abs();
      job := Some(Job(level, here, next, if snapshots == [] then lastSequence else snapshots[0]));
      floor := job.value.smallest;
      Begun(before, Abs(), level, here, next);
      BeginKeepsInv(before, Abs());
    }

    /** Fill in the other inputs; then either move a lone file down, or start a compaction. */
    method StartCompaction(level: nat, inputs: seq<File>, isManual: bool)
      returns (moved: bool, here: seq<File>, next: seq<File>, pointer: IKey)
      requires Valid() && job == None && level + 1 < NUM_LEVELS && GoodInputs(level, version[level], inputs)
      modifies this`version, this`job, this`floor
      ensures Valid() && |old(version)| == NUM_LEVELS && IsLargest(here, pointer)
      ensures SetUp(level, old(version)[level], old(version)[level + 1], inputs, maxFileSize, here, next)
      ensures moved <==> !isManual && |here| == 1 && next == [] && FewGrandparents(old(version), level, here + next, 10 * maxFileSize)
      ensures moved ==> MoveStep(old(Abs()), Abs()) && Replaces(old(version), level, here, [], here, version)
      ensures !moved ==> BeginStep(old(Abs()), Abs()) && job.Some? && job.value.level == level
      ensures !moved ==> job.value.here == here && job.value.next == next
    {
      hide Inv, GoodVersion, GoodInputs, ReadyInputs, MoveStep, BeginStep, SetUp, IsLargest, Replaces, FewGrandparents;
      Shape(Abs());
      var lone;
      here, next, lone, pointer := PlanCompaction(version, level, inputs, maxFileSize);
      moved := !isManual && lone;
      if moved {
        InstallMove(level, here[0], here);
      } else {
        BeginJob(level, here, next);
      }
    }

    /**
     Merge, write and install the running compaction.  The inputs were picked when it began; writes,
     memtable switches and snapshots may have happened since.
     */
    method FinishCompaction(fileBytes: seq<Entry> -> nat) returns (ghost input: seq<Entry>, ghost outs: seq<File>)
      requires Valid() && job.Some?
      modifies this`version, this`nextFile, this`job
      ensures |old(version)| == NUM_LEVELS == |version| && old(job).value.level + 1 < NUM_LEVELS
      ensures Compacts(old(Abs()), Abs(), input, outs)
      ensures WellCut(old(version), old(job).value.level, old(job).value.here + old(job).value.next, outs, fileBytes, maxFileSize)
      ensures SameReads(old(Abs()), Abs(), old(job).value.smallest) <==> !old(Resurrects(Abs()))
      ensures !old(Resurrects(Abs())) ==> Valid() && FinishStep(old(Abs()), Abs())
    {
      hide Inv, GoodVersion, NumbersBelow, ReadyInputs, Distinct, Replaces, MergedInput, Compacts, SameReads, Resurrects;
      hide FinishStep, Kept, EntriesOf, SetOf, BaseKeys, WellCut;
      ghost var before := Abs();
      RunnableJob(before);
      var j := job.value;
      var v', n';
      v', n', input, outs := RunCompaction(version, j, nextFile, fileBytes, maxFileSize);
      version, nextFile, job := v', n', None;
      HasCompacted(before, Abs(), input, outs);
      CompactionIsExact(before, Abs(), input, outs);
      if !Resurrects(before) {
        Finished(before, Abs(), input, outs);
      }
    }

    /**
     `DBImpl::NewIterator`: a row cursor over the merge of the memtables and every table, at a live
     snapshot.  What it shows is the full history at that sequence number, in key order.
     */
    method NewIterator(s: nat) returns (it: DbIter.DBIter)
      requires Valid() && (s in snapshots || s == lastSequence)
      ensures fresh(it) && fresh(it.iter) && fresh(it.iter.pos)
      ensures it.Valid() && !it.valid && it.sequence == s && s <= |history|
      ensures ShowsHistory(it.es, s, history)
    {
      hide Inv, GoodVersion, VersionOk, FilesOk, MemtablesOk, Sorted, Covers, Distinct, SetOf, LevelEntries;
      hide Merger.Merge, State.Contents, State.ImmEntries, ShowsHistory;
      Layers(Abs());
      LayersApart(Abs());
      NoChildren();
      AddChild([], {}, mem);
      var children: seq<seq<Entry>> := [] + [mem];
      if imm.Some? {
        AddChild(children, {} + SetOf(mem), imm.value);
        children := children + [imm.value];
      }
      children := AddIterators(children, SetOf(mem) + Abs().ImmEntries(), version);
      MergeIsInput(children, Abs().Contents());
      ScanShowsHistory(Abs(), Merger.Merge(children), s);
      LiveReads(Abs(), 0.0, s);
      var iter := new Merger.MergingIterator(children);
      it := new DbIter.DBIter(iter, s);
    }

    /** `DBImpl::Get`: memtable, immutable memtable, then the version, stopping at the first that has the key. */
    method Get(user: UserKey, s: nat) returns (r: Option<Bytes>)
      requires Valid() && (s in snapshots || s == lastSequence)
      ensures s <= |history| && r == ReadHistory(history, user, s)
    {
      hide Inv, FilesOk, MemtablesOk, VersionOk, GoodVersion, Finds, Above;
      Layers(Abs());
      LiveReads(Abs(), user, s);
      var inMem := TableGet(mem, user, s);
      FindsInRun(mem, user, s);
      var found := inMem;
      ghost var inImm: Option<Entry>, inFiles: Option<Entry> := None, None;
      if found == None {
        if imm.Some? {
          FindsInRun(imm.value, user, s);
          inImm := TableGet(imm.value, user, s);
          found := TableGet(imm.value, user, s);
        } else {
          FindsNothing(user, s);
        }
        if found == None {
          found := Versions.Get(version, user, s);
          inFiles := found;
        }
      }
      FindsLayered(Abs(), user, s, inMem, inImm, inFiles);
      FindsIsAnswer(Abs(), user, s, found);
      r := if found.Some? && found.value.ikey.kind == Value then Some(found.value.value) else None;
    }
  }

  /** A version gets one more table, with these entries and this number, at the level that is picked for it. */
  ghost predicate Flushes(v: Version, entries: seq<Entry>, number: nat, fileBytes: seq<Entry> -> nat, maxFileSize: nat,
      level: nat, v': Version)
  {
    |v| == NUM_LEVELS && level < NUM_LEVELS && exists f: File, r ::
      && f.number == number && f.size == fileBytes(entries) && f.entries == entries && FlushesTo(v, level, f, maxFileSize)
      && Rebuilt(v[level], {}, [f], r) && v' == v[level := r]
  }

  lemma FlushesWith(v: Version, f: File, fileBytes: seq<Entry> -> nat, maxFileSize: nat, level: nat, r: seq<File>)
    requires |v| == NUM_LEVELS && level < NUM_LEVELS && FlushesTo(v, level, f, maxFileSize) && f.size == fileBytes(f.entries)
    requires Rebuilt(v[level], {}, [f], r)
    ensures Flushes(v, f.entries, f.number, fileBytes, maxFileSize, level, v[level := r])
  {
    hide FlushesTo, Rebuilt;
  }

  lemma Shape(st: State)
    requires Inv(st)
    ensures |st.version| == NUM_LEVELS && GoodVersion(st.version)
  {
  }

  lemma Moved(st: State, st': State, level: nat, f: File)
    requires Inv(st) && st.job == None
    requires Replaces(st.version, level, [f], [], [f], st'.version) && st' == st.(version := st'.version)
    ensures MoveStep(st, st') && Inv(st')
  {
    hide Inv, Replaces;
    assert MoveStep(st, st');
    MoveKeepsInv(st, st');
  }

  lemma Flushed(st: State, st': State, f: File, level: nat, r: seq<File>)
    requires |st.version| == NUM_LEVELS && st.job == None && st.imm.Some? && st.imm.value != []
    requires f.number == st.nextFile && f.entries == st.imm.value
    requires level < NUM_LEVELS && MayFlushTo(st.version, level, f) && Rebuilt(st.version[level], {}, [f], r)
    requires st' == st.(imm := None, nextFile := st.nextFile + 1, version := st.version[level := r])
    ensures FlushStep(st, st')
  {
  }

  lemma FlushedNothing(st: State, st': State)
    requires |st.version| == NUM_LEVELS && st.job == None && st.imm == Some([])
    requires st' == st.(imm := None, nextFile := st.nextFile + 1)
    ensures FlushStep(st, st')
  {
  }

  lemma RunnableJob(st: State)
    requires Inv(st) && st.job.Some?
    ensures
      var j, v := st.job.value, st.version;
      && |v| == NUM_LEVELS && j.level + 1 < NUM_LEVELS
      && GoodVersion(v) && NumbersBelow(v, st.nextFile) && j.smallest < MAX_SEQUENCE
      && ReadyInputs(j.level, v[j.level], v[j.level + 1], j.here, j.next)
      && Distinct(EntriesOf(j.here) + EntriesOf(j.next))
  {
    hide Inv, MemtablesOk, FilesOk, FromHistory, ReadyInputs, GoodVersion, NumbersBelow, LevelEntries, EntriesOf;
    var j, v := st.job.value, st.version;
    JobGood(st);
    FromHistoryDistinct(st.Contents(), st.history);
    forall x | x in EntriesOf(j.here) + EntriesOf(j.next)
      ensures x in st.Contents()
    {
      InputIsOnDisk(v, j.level, j.here, j.next, x);
    }
  }

  lemma HasCompacted(st: State, st': State, input: seq<Entry>, outs: seq<File>)
    requires |st.version| == NUM_LEVELS && st.job.Some? && st.job.value.level + 1 < NUM_LEVELS && MergedInput(st.job.value, input)
    requires EntriesOf(outs) ==
      SetOf(Kept(input, |input|, st.job.value.smallest, BaseKeys(st.version, st.job.value.level)))
    requires st'.nextFile == st.nextFile + |outs| && forall f :: f in outs ==> st.nextFile <= f.number < st'.nextFile
    requires Replaces(st.version, st.job.value.level, st.job.value.here, st.job.value.next, outs, st'.version)
    requires st' == st.(version := st'.version, nextFile := st'.nextFile, job := None)
    ensures Compacts(st, st', input, outs)
  {
    hide Replaces, MergedInput, Kept, EntriesOf, SetOf, BaseKeys;
  }

  lemma Finished(st: State, st': State, input: seq<Entry>, outs: seq<File>)
    requires Inv(st) && Compacts(st, st', input, outs) && !Resurrects(st)
    ensures FinishStep(st, st') && Inv(st')
  {
    hide Inv, Replaces, MergedInput, SafeToDrop, Kept, EntriesOf, SetOf, BaseKeys, Resurrects;
    SafeIsExact(st, input);
    assert FinishStep(st, st');
    FinishKeepsInv(st, st');
  }

  /** The rows of a sorted run at `s` are the keys the history maps at `s`, with its values, in order. */
  ghost predicate ShowsHistory(es: seq<Entry>, s: nat, h: seq<Op>) {
    && s <= |h|
    && (forall i: nat :: DbIter.IsRow(es, s, i) ==> ReadHistory(h, es[i].ikey.user, s) == Some(es[i].value))
    && (forall user :: ReadHistory(h, user, s) != None ==> exists i: nat :: DbIter.IsRow(es, s, i) && es[i].ikey.user == user)
    && (forall i: nat, j: nat :: DbIter.IsRow(es, s, i) && DbIter.IsRow(es, s, j) && i < j ==>
          es[i].ikey.user < es[j].ikey.user)
  }

  lemma ScanShowsHistory(st: State, es: seq<Entry>, s: nat)
    requires Inv(st) && (s in st.snapshots || s == st.LastSequence())
    requires Sorted(es) && |st.version| == NUM_LEVELS && SetOf(es) == st.Contents()
    ensures ShowsHistory(es, s, st.history)
  {
    hide Inv, Sorted, State.Contents, DbIter.IsRow, Distinct, Answer, ReadHistory, SetOf;
    Layers(st);
    LiveReads(st, 0.0, s);
    forall user
      ensures s <= |st.history| && Answer(st.Contents(), user, s) == ReadHistory(st.history, user, s)
    {
      LiveReads(st, user, s);
    }
    Scan.RowsAreTheAnswers(es, s);
    assert forall user :: Answer(SetOf(es), user, s) == ReadHistory(st.history, user, s);
  }

  lemma LayersApart(st: State)
    requires Inv(st)
    ensures |st.version| == NUM_LEVELS
    ensures
      var m, i, f := SetOf(st.mem), st.ImmEntries(), LevelEntries(st.version, 0, NUM_LEVELS);
      && {} !! m && Distinct({} + m) && {} + m !! i && Distinct({} + m + i) && {} + m + i == m + i
      && m + i !! f && Distinct(m + i + f) && m + i + f == st.Contents()
      && (st.imm == None ==> {} + m == m + i)
      && (st.imm.Some? ==> SetOf(st.imm.value) == i)
  {
    hide *;
    LayersAre(st);
    var m, i, f := SetOf(st.mem), st.ImmEntries(), LevelEntries(st.version, 0, NUM_LEVELS);
    FromHistoryDistinct(st.Contents(), st.history);
    ImmAboveFiles(st);
    AboveApart(m, i + f);
    AboveApart(i, f);
    assert {} + m == m && {} + m + i == m + i;
    PartDistinct(m, m + i + f);
    PartDistinct(m + i, m + i + f);
  }

  lemma PartDistinct(part: set<Entry>, all: set<Entry>)
    requires part <= all && Distinct(all)
    ensures Distinct(part)
  {
  }

  lemma LayersAre(st: State)
    requires Inv(st)
    ensures |st.version| == NUM_LEVELS && MemtablesOk(st) && FilesOk(st) && FromHistory(st.Contents(), st.history)
    ensures SetOf(st.mem) + st.ImmEntries() + LevelEntries(st.version, 0, NUM_LEVELS) == st.Contents()
    ensures st.imm == None ==> st.ImmEntries() == {}
    ensures st.imm.Some? ==> SetOf(st.imm.value) == st.ImmEntries()
  {
    hide SetOf, LevelEntries, FromHistory, Agrees, MemtablesOk, FilesOk;
  }

  lemma Begun(st: State, st': State, level: nat, here: seq<File>, next: seq<File>)
    requires |st.version| == NUM_LEVELS && st.job == None && level + 1 < NUM_LEVELS
    requires ReadyInputs(level, st.version[level], st.version[level + 1], here, next)
    requires st' == st.(job := Some(Job(level, here, next, SmallestSnapshot(st))), floor := SmallestSnapshot(st))
    ensures BeginStep(st, st')
  {
  }

  lemma ImmIsTable(st: State, size: nat)
    requires Inv(st) && st.imm.Some? && st.imm.value != []
    ensures FileData(st.nextFile, size, st.imm.value).Valid()
  {
    forall e | e in st.imm.value
      ensures e.ikey.seqno <= MAX_SEQUENCE
    {
      assert e in st.Contents();
    }
  }

  lemma FreshNumber(st: State, level: nat, f: File)
    requires Inv(st) && level < NUM_LEVELS && f.number == st.nextFile
    ensures Ordered(st.version[level]) && NoTies(st.version[level], [f]) && Ordered([f])
  {
    hide GoodVersion, Before;
    LevelsGood(st.version);
    FreshNeverTies(st.version[level], f);
  }

  lemma FreshNeverTies(files: seq<File>, f: File)
    requires forall g :: g in files ==> g.number < f.number
    ensures NoTies(files, [f]) && Ordered([f])
  {
  }

  lemma Layers(st: State)
    requires Inv(st)
    ensures |st.version| == NUM_LEVELS && VersionOk(st.version) && GoodVersion(st.version) && MemtablesOk(st) && FilesOk(st)
    ensures Sorted(st.mem) && (st.imm.Some? ==> Sorted(st.imm.value))
    ensures Distinct(st.Contents())
  {
    FromHistoryDistinct(st.Contents(), st.history);
  }

  lemma FindsInRun(es: seq<Entry>, user: UserKey, s: nat)
    requires Sorted(es)
    ensures Finds(SetOf(es), user, s, TableGet(es, user, s))
  {
    TableGetIsNewest(es, user, s);
  }

  lemma FindsNothing(user: UserKey, s: nat)
    ensures Finds({}, user, s, None)
  {
  }

  /** The three layers searched in turn answer for all of them. */
  lemma FindsLayered(st: State, user: UserKey, s: nat, inMem: Option<Entry>, inImm: Option<Entry>, inFiles: Option<Entry>)
    requires |st.version| == NUM_LEVELS && MemtablesOk(st) && FilesOk(st)
    requires Finds(SetOf(st.mem), user, s, inMem)
    requires inMem == None ==> Finds(st.ImmEntries(), user, s, inImm)
    requires inMem == None && inImm == None ==> Finds(LevelEntries(st.version, 0, NUM_LEVELS), user, s, inFiles)
    ensures Finds(st.Contents(), user, s, if inMem.Some? then inMem else if inImm.Some? then inImm else inFiles)
  {
    ImmAboveFiles(st);
    hide MemtablesOk, FilesOk, LevelEntries, SetOf;
    if inMem == None {
      FirstThat(st.ImmEntries(), LevelEntries(st.version, 0, NUM_LEVELS), user, s, inImm, inFiles);
    }
    FirstThat(SetOf(st.mem), st.ImmEntries() + LevelEntries(st.version, 0, NUM_LEVELS), user, s,
      inMem, if inImm.Some? then inImm else inFiles);
    assert st.Contents() == SetOf(st.mem) + (st.ImmEntries() + LevelEntries(st.version, 0, NUM_LEVELS));
  }

  lemma FirstThat(above: set<Entry>, below: set<Entry>, user: UserKey, s: nat, r1: Option<Entry>, r2: Option<Entry>)
    requires Above(above, below) && Finds(above, user, s, r1) && (r1 == None ==> Finds(below, user, s, r2))
    ensures Finds(above + below, user, s, if r1.Some? then r1 else r2)
  {
  }

  lemma FindsIsAnswer(st: State, user: UserKey, s: nat, found: Option<Entry>)
    requires |st.version| == NUM_LEVELS && Distinct(st.Contents()) && Finds(st.Contents(), user, s, found)
    ensures Answer(st.Contents(), user, s) ==
      if found.Some? && found.value.ikey.kind == Value then Some(found.value.value) else None
  {
    if found.Some? {
      AnswerIs(st.Contents(), user, s, found.value);
    } else {
      AnswerNone(st.Contents(), user, s);
    }
  }

  lemma MemHasOnlyOlder(st: State, e: Entry)
    requires Inv(st) && e.ikey.seqno == |st.history| + 1
    ensures Sorted(st.mem) && forall x :: x in st.mem ==> x.ikey != e.ikey
  {
    forall x | x in st.mem
      ensures x.ikey != e.ikey
    {
      MemSeqnos(st, x);
    }
  }
}
