/**
 The storage engine as a state machine over the steps taken under its mutex: writes, memtable
 switches, flushes, trivial moves, compactions that begin and finish while writes and snapshots go
 on, and snapshots taken and released.  `Inv` is what every step keeps; a read then returns what the
 full history says.
 */
module Engine {
  import opened Keys
  import opened Files
  import opened Reads
  import opened DropRule
  import opened VersionBuilder
  import opened Versions
  import opened Selection
  import opened VersionSteps
  import opened CompactionSteps
  import opened CompactionLoop

  /** A compaction that has picked its inputs and not yet installed its outputs. */
  datatype Job = Job(level: nat, here: seq<File>, next: seq<File>, smallest: nat)

  /**
   `history` lists every write; it, `floor` and the two `From` marks exist for the specification.
   `floor` is the largest `smallest_snapshot` a compaction has used: older reads are not promised.
   The memtable holds exactly later writes than `memFrom`, the immutable one those after `immFrom`.
   */
  datatype State = State(
    history: seq<Op>, floor: nat,
    mem: seq<Entry>, memFrom: nat,
    imm: Option<seq<Entry>>, immFrom: nat,
    version: Version, nextFile: nat,
    snapshots: seq<nat>, job: Option<Job>)
  {
    function LastSequence(): nat { |history| }

    function ImmEntries(): set<Entry> { if imm.Some? then SetOf(imm.value) else {} }

    /** The newest sequence number a table file may hold. */
    function FilesUpTo(): nat { if imm.Some? then immFrom else memFrom }

    ghost function Contents(): set<Entry>
      requires |version| == NUM_LEVELS
    {
      SetOf(mem) + ImmEntries() + LevelEntries(version, 0, NUM_LEVELS)
    }
  }

  ghost predicate MemtablesOk(st: State) {
    && Sorted(st.mem)
    && (st.imm.Some? ==> Sorted(st.imm.value) && st.immFrom <= st.memFrom)
    && st.memFrom <= |st.history|
    && (forall e :: e in st.mem ==> st.memFrom < e.ikey.seqno)
    && (forall e :: e in st.ImmEntries() ==> st.immFrom < e.ikey.seqno <= st.memFrom)
  }

  ghost predicate NumbersBelow(v: Version, n: nat) {
    forall l, f :: 0 <= l < |v| && f in v[l] ==> f.number < n
  }

  ghost predicate FilesOk(st: State) {
    && GoodVersion(st.version)
    && NumbersBelow(st.version, st.nextFile)
    && (forall e :: e in LevelEntries(st.version, 0, NUM_LEVELS) ==> e.ikey.seqno <= st.FilesUpTo())
  }

  ghost predicate SnapshotsOk(st: State) {
    && st.floor <= |st.history| < MAX_SEQUENCE
    && (forall i :: 0 <= i < |st.snapshots| ==> st.floor <= st.snapshots[i] <= |st.history|)
    && (forall i, j :: 0 <= i < j < |st.snapshots| ==> st.snapshots[i] <= st.snapshots[j])
  }

  ghost predicate JobOk(st: State)
    requires |st.version| == NUM_LEVELS
  {
    st.job.Some? ==>
      var j := st.job.value;
      && j.level + 1 < NUM_LEVELS
      && ReadyInputs(j.level, st.version[j.level], st.version[j.level + 1], j.here, j.next)
      && j.smallest <= st.floor
  }

  ghost predicate Inv(st: State) {
    && |st.version| == NUM_LEVELS
    && MemtablesOk(st) && FilesOk(st) && SnapshotsOk(st) && JobOk(st)
    && FromHistory(st.Contents(), st.history)
    && Agrees(st.Contents(), st.history, st.floor)
  }

  lemma FromHistoryDistinct(es: set<Entry>, h: seq<Op>)
    requires FromHistory(es, h)
    ensures Distinct(es)
  {
  }

  // ---------------------------------------------------------------- steps

  ghost predicate Init(st: State) {
    st == State([], 0, [], 0, None, 0, seq(NUM_LEVELS, _ => []), 2, [], None)
  }

  /** One operation of a batch goes into the memtable with the next sequence number. */
  ghost predicate WriteStep(st: State, st': State) {
    && |st.history| + 1 < MAX_SEQUENCE
    && exists op, mem' :: Sorted(mem') && SetOf(mem') == SetOf(st.mem) + {EntryOf(op, |st.history| + 1)}
         && st' == st.(history := st.history + [op], mem := mem')
  }

  /** `MakeRoomForWrite`: the full memtable becomes the immutable one. */
  ghost predicate SwitchStep(st: State, st': State) {
    && st.imm == None
    && st' == st.(imm := Some(st.mem), immFrom := st.memFrom, mem := [], memFrom := |st.history|)
  }

  /** `CompactMemTable`: the immutable memtable becomes a table at the picked level, if it has entries. */
  ghost predicate FlushStep(st: State, st': State) {
    && |st.version| == NUM_LEVELS && st.job == None && st.imm.Some?
    && if st.imm.value == [] then
         st' == st.(imm := None, nextFile := st.nextFile + 1)
       else
         exists f: File, level: nat, r ::
           && f.number == st.nextFile && f.entries == st.imm.value
           && level < NUM_LEVELS && MayFlushTo(st.version, level, f)
           && Rebuilt(st.version[level], {}, [f], r)
           && st' == st.(imm := None, nextFile := st.nextFile + 1, version := st.version[level := r])
  }

  /** A compaction of one file with nothing to merge: the file moves down a level. */
  ghost predicate MoveStep(st: State, st': State) {
    && st.job == None
    && exists l, f, v' :: Replaces(st.version, l, [f], [], [f], v') && st' == st.(version := v')
  }

  /** The oldest live snapshot, or the last sequence number when there is none. */
  function SmallestSnapshot(st: State): nat {
    if st.snapshots == [] then st.LastSequence() else st.snapshots[0]
  }

  ghost predicate BeginStep(st: State, st': State) {
    && |st.version| == NUM_LEVELS && st.job == None
    && exists l: nat, here, next ::
         && l + 1 < NUM_LEVELS && ReadyInputs(l, st.version[l], st.version[l + 1], here, next)
         && st' == st.(job := Some(Job(l, here, next, SmallestSnapshot(st))), floor := SmallestSnapshot(st))
  }

  /** Everything newer than the inputs: memtables, shallower levels, and what is left at the input level. */
  ghost function Shallow(st: State, level: nat, here: seq<File>): set<Entry>
    requires level + 1 < |st.version| == NUM_LEVELS
  {
    SetOf(st.mem) + st.ImmEntries() + (LevelEntries(st.version, 0, level) + EntriesLeft(st.version[level], here))
  }

  ghost function InputEntries(here: seq<File>, next: seq<File>): set<Entry> {
    EntriesOf(here) + EntriesOf(next)
  }

  ghost function Deep(v: Version, level: nat): set<Entry>
    requires level + 1 < |v| == NUM_LEVELS
  {
    LevelEntries(v, level + 2, NUM_LEVELS)
  }

  /** The entries the running compaction works on and around. */
  ghost function JobLayout(st: State, input: seq<Entry>): Layout
    requires |st.version| == NUM_LEVELS && st.job.Some? && st.job.value.level + 1 < NUM_LEVELS
  {
    var j := st.job.value;
    Layout(Shallow(st, j.level, j.here), input, EntriesLeft(st.version[j.level + 1], j.next), Deep(st.version, j.level))
  }

  ghost function EntriesLeft(files: seq<File>, chosen: seq<File>): set<Entry> {
    set f, e | f in files && f !in chosen && e in f.entries :: e
  }

  /** The sorted merge of the inputs, as the merging iterator delivers it. */
  ghost predicate MergedInput(j: Job, input: seq<Entry>) {
    Sorted(input) && SetOf(input) == InputEntries(j.here, j.next)
  }

  /** No tombstone that this compaction drops hides an older value left at the output level. */
  ghost predicate SafeToDrop(st: State, input: seq<Entry>)
    requires |st.version| == NUM_LEVELS && st.job.Some? && st.job.value.level + 1 < NUM_LEVELS
  {
    var j := st.job.value;
    forall user, t, y :: !JobLayout(st, input).Exposes(user, t, y, j.smallest, BaseKeys(st.version, j.level))
  }

  ghost predicate FinishStep(st: State, st': State) {
    && |st.version| == NUM_LEVELS && st.job.Some? && st.job.value.level + 1 < NUM_LEVELS
    && exists input, outs: seq<File>, v', nextFile' ::
         var j := st.job.value;
         && MergedInput(j, input) && SafeToDrop(st, input)
         && EntriesOf(outs) == SetOf(Kept(input, |input|, j.smallest, BaseKeys(st.version, j.level)))
         && (forall f :: f in outs ==> st.nextFile <= f.number < nextFile')
         && nextFile' >= st.nextFile
         && Replaces(st.version, j.level, j.here, j.next, outs, v')
         && st' == st.(version := v', nextFile := nextFile', job := None)
  }

  ghost predicate SnapshotStep(st: State, st': State) {
    st' == st.(snapshots := st.snapshots + [st.LastSequence()])
  }

  ghost predicate ReleaseStep(st: State, st': State) {
    exists i :: 0 <= i < |st.snapshots| && st' == st.(snapshots := st.snapshots[..i] + st.snapshots[i + 1..])
  }

  ghost predicate Step(st: State, st': State) {
    || WriteStep(st, st') || SwitchStep(st, st') || FlushStep(st, st') || MoveStep(st, st')
    || BeginStep(st, st') || FinishStep(st, st') || SnapshotStep(st, st') || ReleaseStep(st, st')
  }

  // ---------------------------------------------------------------- what each step keeps

  lemma InitInv(st: State)
    requires Init(st)
    ensures Inv(st)
  {
    hide LevelEntries, FromHistory, Agrees, GoodVersion, NumbersBelow;
    NoLevels(st.version);
    assert st.Contents() == {};
    EmptyVersion(st.version, 2);
    EmptyAgrees();
  }

  lemma NoLevels(v: Version)
    requires v == seq(NUM_LEVELS, _ => [])
    ensures LevelEntries(v, 0, NUM_LEVELS) == {}
  {
    hide LevelEntries;
    forall e
      ensures e !in LevelEntries(v, 0, NUM_LEVELS)
    {
      InLevels(v, 0, NUM_LEVELS, e);
    }
  }

  lemma EmptyVersion(v: Version, n: nat)
    requires v == seq(NUM_LEVELS, _ => [])
    ensures GoodVersion(v) && NumbersBelow(v, n)
  {
  }

  lemma EmptyAgrees()
    ensures FromHistory({}, []) && Agrees({}, [], 0)
  {
    forall user, s | 0 <= s <= 0
      ensures Answer({}, user, s) == None
    {
      AnswerNone({}, user, s);
    }
  }

  lemma WriteKeepsInv(st: State, st': State)
    requires Inv(st) && WriteStep(st, st')
    ensures Inv(st')
  {
    hide FilesOk, Agrees, LevelEntries;
    var op, mem' :| Sorted(mem') && SetOf(mem') == SetOf(st.mem) + {EntryOf(op, |st.history| + 1)}
      && st' == st.(history := st.history + [op], mem := mem');
    var e := EntryOf(op, |st.history| + 1);
    assert st'.Contents() == st.Contents() + {e};
    WriteAgrees(st.Contents(), st.history, st.floor, op);
    forall x | x in st'.mem
      ensures st.memFrom < x.ikey.seqno
    {
      assert x in SetOf(mem');
    }
    assert FilesOk(st') by { SameFiles(st, st'); }
  }

  lemma SameFiles(st: State, st': State)
    requires FilesOk(st) && st'.version == st.version && st'.nextFile == st.nextFile
    requires st'.FilesUpTo() == st.FilesUpTo()
    ensures FilesOk(st')
  {
  }

  lemma SwitchKeepsInv(st: State, st': State)
    requires Inv(st) && SwitchStep(st, st')
    ensures Inv(st')
  {
    hide Agrees, LevelEntries, FromHistory, FilesOk, Sorted;
    SameFiles(st, st');
    assert st'.Contents() == st.Contents();
    forall e | e in st.mem
      ensures e.ikey.seqno <= |st.history|
    {
      MemSeqnos(st, e);
    }
    EmptyIsSorted();
  }

  lemma EmptyIsSorted()
    ensures Sorted([])
  {
  }

  lemma MemSeqnos(st: State, e: Entry)
    requires |st.version| == NUM_LEVELS && FromHistory(st.Contents(), st.history) && e in st.mem
    ensures e.ikey.seqno <= |st.history|
  {
    assert e in st.Contents();
  }

  lemma SnapshotKeepsInv(st: State, st': State)
    requires Inv(st) && (SnapshotStep(st, st') || ReleaseStep(st, st'))
    ensures Inv(st')
  {
    hide Agrees, LevelEntries, FromHistory, GoodVersion, ReadyInputs, NumbersBelow;
    assert st'.Contents() == st.Contents();
  }

  lemma BeginKeepsInv(st: State, st': State)
    requires Inv(st) && BeginStep(st, st')
    ensures Inv(st')
  {
    hide Agrees, LevelEntries, FromHistory, GoodVersion, ReadyInputs, NumbersBelow;
    assert st'.Contents() == st.Contents();
    LaterFloor(st.Contents(), st.history, st.floor, st'.floor);
  }

  lemma LaterFloor(es: set<Entry>, h: seq<Op>, floor: nat, floor': nat)
    requires Agrees(es, h, floor) && floor <= floor'
    ensures Agrees(es, h, floor')
  {
  }

  lemma FlushKeepsInv(st: State, st': State)
    requires Inv(st) && FlushStep(st, st')
    ensures Inv(st')
  {
    hide Agrees, LevelEntries, FromHistory, GoodVersion, Rebuilt, MayFlushTo;
    if st.imm.value == [] {
      assert st'.Contents() == st.Contents();
    } else {
      var f: File, level: nat, r :|
        && f.number == st.nextFile && f.entries == st.imm.value
        && level < NUM_LEVELS && MayFlushTo(st.version, level, f)
        && Rebuilt(st.version[level], {}, [f], r)
        && st' == st.(imm := None, nextFile := st.nextFile + 1, version := st.version[level := r]);
      ImmAboveFiles(st);
      FlushNumbers(st, level, f, r);
      FlushKeepsVersion(st.version, level, f, r);
      assert st'.Contents() == st.Contents();
    }
  }

  lemma ImmAboveFiles(st: State)
    requires MemtablesOk(st) && FilesOk(st)
    ensures Above(st.ImmEntries(), LevelEntries(st.version, 0, NUM_LEVELS))
    ensures Above(SetOf(st.mem), st.ImmEntries() + LevelEntries(st.version, 0, NUM_LEVELS))
  {
  }

  lemma FlushNumbers(st: State, level: nat, f: File, r: seq<File>)
    requires FilesOk(st) && level < NUM_LEVELS && f.number == st.nextFile && Rebuilt(st.version[level], {}, [f], r)
    ensures NumbersBelow(st.version, f.number) && NumbersBelow(st.version[level := r], f.number + 1)
  {
    AddedEntries(st.version[level], {}, f, r);
  }

  // ---------------------------------------------------------------- compactions

  lemma LevelSplit(v: Version, lo: nat, mid: nat, hi: nat)
    requires lo <= mid <= hi <= |v|
    ensures LevelEntries(v, lo, hi) == LevelEntries(v, lo, mid) + LevelEntries(v, mid, hi)
  {
    hide EntriesOf, LevelEntries;
    forall e
      ensures e in LevelEntries(v, lo, hi) <==> e in LevelEntries(v, lo, mid) + LevelEntries(v, mid, hi)
    {
      InLevels(v, lo, hi, e);
      InLevels(v, lo, mid, e);
      InLevels(v, mid, hi, e);
    }
  }

  lemma {:induction false} SameLevels(v: Version, v': Version, lo: nat, hi: nat)
    requires lo <= hi <= |v| == |v'| && forall l :: lo <= l < hi ==> v[l] == v'[l]
    ensures LevelEntries(v, lo, hi) == LevelEntries(v', lo, hi)
    decreases hi - lo
  {
    if lo < hi {
      SameLevels(v, v', lo + 1, hi);
    }
  }

  lemma TwoLevels(v: Version, l: nat)
    requires l + 1 < |v| == NUM_LEVELS
    ensures LevelEntries(v, 0, NUM_LEVELS) ==
      LevelEntries(v, 0, l) + EntriesOf(v[l]) + EntriesOf(v[l + 1]) + LevelEntries(v, l + 2, NUM_LEVELS)
  {
    LevelSplit(v, 0, l, NUM_LEVELS);
  }

  lemma LeftAndTaken(files: seq<File>, chosen: seq<File>)
    requires forall f :: f in chosen ==> f in files
    ensures EntriesOf(files) == EntriesLeft(files, chosen) + EntriesOf(chosen)
  {
  }

  /** The entries on disk, split around the inputs of a compaction. */
  lemma SplitAround(v: Version, l: nat, here: seq<File>, next: seq<File>)
    requires l + 1 < |v| == NUM_LEVELS && ReadyInputs(l, v[l], v[l + 1], here, next)
    ensures LevelEntries(v, 0, NUM_LEVELS) ==
      LevelEntries(v, 0, l) + EntriesLeft(v[l], here) + (EntriesOf(here) + EntriesOf(next))
      + EntriesLeft(v[l + 1], next) + LevelEntries(v, l + 2, NUM_LEVELS)
  {
    hide ReadyInputs, EntriesOf, EntriesLeft, LevelEntries;
    ReadyAreFiles(v, l, here, next);
    TwoLevels(v, l);
    LeftAndTaken(v[l], here);
    LeftAndTaken(v[l + 1], next);
  }

  /** The entries on disk, split around a compaction, before and after it is installed. */
  lemma ReplacedEntries(v: Version, l: nat, here: seq<File>, next: seq<File>, outs: seq<File>, v': Version)
    requires GoodVersion(v) && Replaces(v, l, here, next, outs, v')
    ensures LevelEntries(v, 0, NUM_LEVELS) ==
      LevelEntries(v, 0, l) + EntriesLeft(v[l], here) + (EntriesOf(here) + EntriesOf(next))
      + EntriesLeft(v[l + 1], next) + LevelEntries(v, l + 2, NUM_LEVELS)
    ensures LevelEntries(v', 0, NUM_LEVELS) ==
      LevelEntries(v, 0, l) + EntriesLeft(v[l], here) + EntriesOf(outs)
      + EntriesLeft(v[l + 1], next) + LevelEntries(v, l + 2, NUM_LEVELS)
  {
    hide Replaces, GoodVersion, EntriesOf, EntriesLeft, LevelEntries;
    OrdersGood(v);
    InputFiles(v, l, here, next, outs, v');
    Members(v, l, here, next, outs, v');
    TwoLevels(v, l);
    TwoLevels(v', l);
    SameLevels(v, v', 0, l);
    SameLevels(v, v', l + 2, NUM_LEVELS);
    LeftAndTaken(v[l], here);
    LeftAndTaken(v[l + 1], next);
    LeftAndAdded(v[l], here, [], v'[l]);
    LeftAndAdded(v[l + 1], next, outs, v'[l + 1]);
  }

  lemma LeftAndAdded(files: seq<File>, chosen: seq<File>, added: seq<File>, r: seq<File>)
    requires forall f :: f in r <==> (f in files && f !in chosen) || f in added
    ensures EntriesOf(r) == EntriesLeft(files, chosen) + EntriesOf(added)
    ensures added == [] ==> EntriesOf(r) == EntriesLeft(files, chosen)
  {
  }

  lemma MoveKeepsInv(st: State, st': State)
    requires Inv(st) && MoveStep(st, st')
    ensures Inv(st')
  {
    hide Agrees, LevelEntries, FromHistory, GoodVersion, Replaces, NumbersBelow;
    var l, f, v' :| Replaces(st.version, l, [f], [], [f], v') && st' == st.(version := v');
    ReplaceKeepsVersion(st.version, l, [f], [], [f], v');
    ReplacedEntries(st.version, l, [f], [], [f], v');
    MovedNumbers(st.version, l, f, v', st.nextFile);
    assert EntriesOf([]) == {};
    assert LevelEntries(v', 0, NUM_LEVELS) == LevelEntries(st.version, 0, NUM_LEVELS);
    assert st'.Contents() == st.Contents();
  }

  lemma MovedNumbers(v: Version, l: nat, f: File, v': Version, n: nat)
    requires GoodVersion(v) && Replaces(v, l, [f], [], [f], v') && NumbersBelow(v, n)
    ensures |v'| == NUM_LEVELS && NumbersBelow(v', n)
  {
    hide VersionOk, Replaces;
    SameElsewhere(v, l, [f], [], [f], v', 0);
    OutputNumbers(v, l, [f], [], [f], v', n);
  }

  lemma OutputNumbers(v: Version, l: nat, here: seq<File>, next: seq<File>, outs: seq<File>, v': Version, n: nat)
    requires VersionOk(v) && Replaces(v, l, here, next, outs, v') && NumbersBelow(v, n)
    requires forall f :: f in outs ==> f.number < n || f in here
    ensures |v'| == NUM_LEVELS && NumbersBelow(v', n)
  {
    hide VersionOk, Replaces;
    SameElsewhere(v, l, here, next, outs, v', 0);
    InputFiles(v, l, here, next, outs, v');
    forall m, f | 0 <= m < NUM_LEVELS && f in v'[m]
      ensures f.number < n
    {
      FileCameFrom(v, l, here, next, outs, v', m, f);
    }
  }

  lemma InputFiles(v: Version, l: nat, here: seq<File>, next: seq<File>, outs: seq<File>, v': Version)
    requires Replaces(v, l, here, next, outs, v')
    ensures l + 1 < |v| == |v'| == NUM_LEVELS
    ensures forall f :: f in here ==> f in v[l]
    ensures forall f :: f in next ==> f in v[l + 1]
    ensures forall m :: 0 <= m < NUM_LEVELS && m != l && m != l + 1 ==> v'[m] == v[m]
  {
    ReadyAreFiles(v, l, here, next);
  }

  lemma OrdersGood(v: Version)
    requires GoodVersion(v)
    ensures VersionOk(v)
  {
  }

  lemma ShallowAbove(st: State, level: nat, here: seq<File>, next: seq<File>)
    requires MemtablesOk(st) && FilesOk(st) && level + 1 < NUM_LEVELS
    requires ReadyInputs(level, st.version[level], st.version[level + 1], here, next)
    ensures Above(Shallow(st, level, here), InputEntries(here, next) + EntriesLeft(st.version[level + 1], next))
  {
    ImmAboveFiles(st);
    assert VersionOk(st.version);
    hide MemtablesOk, FilesOk, EntriesOf, EntriesLeft, LevelEntries, VersionOk, ReadyInputs;
    forall x, y |
      && x in Shallow(st, level, here) && y in InputEntries(here, next) + EntriesLeft(st.version[level + 1], next)
      && x.ikey.user == y.ikey.user
      ensures Less(x.ikey, y.ikey)
    {
      if x in LevelEntries(st.version, 0, level) + EntriesLeft(st.version[level], here) {
        UpperIsNewer(st.version, level, here, next, x, y);
      } else {
        InputIsOnDisk(st.version, level, here, next, y);
      }
    }
  }

  lemma InputIsOnDisk(v: Version, level: nat, here: seq<File>, next: seq<File>, y: Entry)
    requires level + 1 < |v| == NUM_LEVELS && ReadyInputs(level, v[level], v[level + 1], here, next)
    requires y in EntriesOf(here) + EntriesOf(next) + EntriesLeft(v[level + 1], next)
    ensures y in LevelEntries(v, 0, NUM_LEVELS)
  {
    ReadyAreFiles(v, level, here, next);
    InLevels(v, 0, NUM_LEVELS, y);
    TakenFromLevel(v[level], here);
    TakenFromLevel(v[level + 1], next);
  }

  lemma InputsAboveDeep(v: Version, level: nat, here: seq<File>, next: seq<File>)
    requires |v| == NUM_LEVELS && VersionOk(v)
    requires level + 1 < NUM_LEVELS && ReadyInputs(level, v[level], v[level + 1], here, next)
    ensures Above(InputEntries(here, next), Deep(v, level))
    ensures forall e :: e in Deep(v, level) ==> e.ikey.user !in BaseKeys(v, level)
  {
    hide EntriesOf, LevelEntries, VersionOk, ReadyInputs, BaseLevel;
    forall x, y | x in InputEntries(here, next) && y in Deep(v, level) && x.ikey.user == y.ikey.user
      ensures Less(x.ikey, y.ikey)
    {
      DeepIsOlder(v, level, here, next, x, y);
    }
    forall e | e in Deep(v, level)
      ensures !BaseLevel(v, level, e.ikey.user)
    {
      DeepKeyIsNotBase(v, level, e);
    }
  }

  lemma ContentsBefore(st: State, level: nat, here: seq<File>, next: seq<File>)
    requires |st.version| == NUM_LEVELS && level + 1 < NUM_LEVELS
    requires ReadyInputs(level, st.version[level], st.version[level + 1], here, next)
    ensures st.Contents() ==
      Shallow(st, level, here) + InputEntries(here, next) + EntriesLeft(st.version[level + 1], next) + Deep(st.version, level)
  {
    hide EntriesOf, EntriesLeft, LevelEntries, ReadyInputs, SetOf;
    SplitAround(st.version, level, here, next);
  }

  lemma ContentsAround(st: State, level: nat, here: seq<File>, next: seq<File>, outs: seq<File>, v': Version)
    requires |st.version| == NUM_LEVELS && GoodVersion(st.version) && Replaces(st.version, level, here, next, outs, v')
    ensures level + 1 < NUM_LEVELS == |v'|
    ensures st.Contents() ==
      Shallow(st, level, here) + InputEntries(here, next) + EntriesLeft(st.version[level + 1], next) + Deep(st.version, level)
    ensures st.(version := v').Contents() ==
      Shallow(st, level, here) + EntriesOf(outs) + EntriesLeft(st.version[level + 1], next) + Deep(st.version, level)
  {
    hide EntriesOf, EntriesLeft, LevelEntries, GoodVersion, Replaces, SetOf;
    InputFiles(st.version, level, here, next, outs, v');
    ReplacedEntries(st.version, level, here, next, outs, v');
  }

  /** The state around a running compaction has the layout that the drop rule needs. */
  lemma JobLayoutValid(st: State, input: seq<Entry>)
    requires Inv(st) && st.job.Some? && MergedInput(st.job.value, input)
    ensures JobLayout(st, input).Valid(BaseKeys(st.version, st.job.value.level))
    ensures JobLayout(st, input).Before() == st.Contents()
  {
    hide *;
    var j := st.job.value;
    JobGood(st);
    FromHistoryDistinct(st.Contents(), st.history);
    JobLayoutAround(st, input);
    LayoutIsValid(st, j.level, j.here, j.next, input);
  }

  lemma JobLayoutAround(st: State, input: seq<Entry>)
    requires st.job.Some? && st.job.value.level + 1 < |st.version| == NUM_LEVELS && MergedInput(st.job.value, input)
    ensures
      var j := st.job.value;
      && Sorted(input) && SetOf(input) == InputEntries(j.here, j.next)
      && JobLayout(st, input) ==
           Layout(Shallow(st, j.level, j.here), input, EntriesLeft(st.version[j.level + 1], j.next), Deep(st.version, j.level))
  {
    hide Sorted, SetOf, Shallow, InputEntries, EntriesLeft, Deep;
  }

  lemma LayoutIsValid(st: State, level: nat, here: seq<File>, next: seq<File>, input: seq<Entry>)
    requires |st.version| == NUM_LEVELS && level + 1 < NUM_LEVELS
    requires ReadyInputs(level, st.version[level], st.version[level + 1], here, next)
    requires MemtablesOk(st) && FilesOk(st) && GoodVersion(st.version) && VersionOk(st.version)
    requires Distinct(st.Contents()) && Sorted(input) && SetOf(input) == InputEntries(here, next)
    ensures
      var l := Layout(Shallow(st, level, here), input, EntriesLeft(st.version[level + 1], next), Deep(st.version, level));
      l.Valid(BaseKeys(st.version, level)) && l.Before() == st.Contents()
  {
    hide MemtablesOk, FilesOk, GoodVersion, VersionOk, ReadyInputs, Replaces, Shallow, InputEntries, Deep;
    hide EntriesLeft, Above, Distinct, Sorted, SetOf, BaseKeys, State.Contents;
    ContentsBefore(st, level, here, next);
    InputsApart(st.version, level, here, next);
    ShallowAbove(st, level, here, next);
    InputsAboveDeep(st.version, level, here, next);
    AboveApart(Shallow(st, level, here), InputEntries(here, next) + EntriesLeft(st.version[level + 1], next));
    AboveApart(InputEntries(here, next), Deep(st.version, level));
  }

  lemma JobGood(st: State)
    requires Inv(st) && st.job.Some?
    ensures
      var j, v := st.job.value, st.version;
      && |v| == NUM_LEVELS && j.level + 1 < NUM_LEVELS
      && ReadyInputs(j.level, v[j.level], v[j.level + 1], j.here, j.next)
      && j.smallest <= st.floor && j.smallest < MAX_SEQUENCE && NumbersBelow(v, st.nextFile)
      && MemtablesOk(st) && FilesOk(st) && GoodVersion(v) && VersionOk(v) && FromHistory(st.Contents(), st.history)
  {
  }

  lemma DeepKeyIsNotBase(v: Version, level: nat, e: Entry)
    requires level + 1 < |v| && e in LevelEntries(v, level + 2, |v|)
    ensures !BaseLevel(v, level, e.ikey.user)
  {
    InLevels(v, level + 2, |v|, e);
    var l :| level + 2 <= l < |v| && e in EntriesOf(v[l]);
    var f :| f in v[l] && e in f.entries;
    EntryInRange(f, e);
  }

  lemma DeepIsOlder(v: Version, level: nat, here: seq<File>, next: seq<File>, x: Entry, y: Entry)
    requires VersionOk(v) && level + 1 < NUM_LEVELS && ReadyInputs(level, v[level], v[level + 1], here, next)
    requires x in EntriesOf(here) + EntriesOf(next) && y in LevelEntries(v, level + 2, NUM_LEVELS)
    requires x.ikey.user == y.ikey.user
    ensures Less(x.ikey, y.ikey)
  {
    hide ReadyInputs, VersionOk, NewerAboveOlder, LevelEntries, EntriesOf;
    SevenLevels(v);
    ReadyAreFiles(v, level, here, next);
    TakenFromLevel(v[level], here);
    TakenFromLevel(v[level + 1], next);
    InLevels(v, level + 2, NUM_LEVELS, y);
    var m :| level + 2 <= m < NUM_LEVELS && y in EntriesOf(v[m]);
    if x in EntriesOf(here) {
      AboveSplits(v, level, m, x, y);
    } else {
      AboveSplits(v, level + 1, m, x, y);
    }
  }

  lemma SevenLevels(v: Version)
    requires VersionOk(v)
    ensures |v| == NUM_LEVELS && NewerAboveOlder(v)
  {
  }

  lemma UpperIsNewer(v: Version, level: nat, here: seq<File>, next: seq<File>, x: Entry, y: Entry)
    requires VersionOk(v) && level + 1 < NUM_LEVELS && ReadyInputs(level, v[level], v[level + 1], here, next)
    requires x in LevelEntries(v, 0, level) + EntriesLeft(v[level], here)
    requires y in EntriesOf(here) + EntriesOf(next) + EntriesLeft(v[level + 1], next)
    requires x.ikey.user == y.ikey.user
    ensures Less(x.ikey, y.ikey)
  {
    ReadyAreFiles(v, level, here, next);
    hide LevelOk;
    var m := if y in EntriesOf(here) then level else level + 1;
    assert y in EntriesOf(v[m]);
    if x in LevelEntries(v, 0, level) {
      InLevels(v, 0, level, x);
      var a :| 0 <= a < level && x in EntriesOf(v[a]);
      AboveSplits(v, a, m, x, y);
    } else if m == level {
      var g :| g in v[level] && g !in here && x in g.entries;
      var f :| f in here && y in f.entries;
      assert NoOlder(g, f);
    } else {
      assert x in EntriesOf(v[level]);
      AboveSplits(v, level, level + 1, x, y);
    }
  }

  /** No entry of an input file is also in a file that is not an input. */
  lemma InputsApart(v: Version, level: nat, here: seq<File>, next: seq<File>)
    requires VersionOk(v) && level + 1 < NUM_LEVELS && ReadyInputs(level, v[level], v[level + 1], here, next)
    ensures InputEntries(here, next) !! EntriesLeft(v[level + 1], next)
  {
    ReadyAreFiles(v, level, here, next);
    assert LevelOk(v[level + 1], level + 1);
    assert Above(EntriesOf(v[level]), EntriesOf(v[level + 1]));
    AboveApart(EntriesOf(v[level]), EntriesOf(v[level + 1]));
    hide ReadyInputs, VersionOk;
    forall x | x in EntriesOf(next)
      ensures x !in EntriesLeft(v[level + 1], next)
    {
      var f :| f in next && x in f.entries;
      forall g | g in v[level + 1] && g !in next
        ensures x !in g.entries
      {
        ApartShareNothing(v[level + 1], f, g, x);
      }
    }
    TakenFromLevel(v[level], here);
    TakenFromLevel(v[level + 1], next);
  }

  lemma ApartShareNothing(files: seq<File>, f: File, g: File, x: Entry)
    requires Disjoint(files) && f in files && g in files && f != g && x in f.entries
    ensures x !in g.entries
  {
    DisjointApart(files, f, g);
    EntryInRange(f, x);
    if x in g.entries {
      EntryInRange(g, x);
    }
  }

  lemma TakenFromLevel(files: seq<File>, chosen: seq<File>)
    requires forall f :: f in chosen ==> f in files
    ensures EntriesOf(chosen) <= EntriesOf(files) && EntriesLeft(files, chosen) <= EntriesOf(files)
  {
  }

  lemma FinishKeepsInv(st: State, st': State)
    requires Inv(st) && FinishStep(st, st')
    ensures Inv(st')
  {
    hide Inv, JobOk, Replaces, NumbersBelow, EntriesOf, Kept;
    var j := st.job.value;
    var input, outs: seq<File>, v', nextFile' :|
      && MergedInput(j, input) && SafeToDrop(st, input)
      && EntriesOf(outs) == SetOf(Kept(input, |input|, j.smallest, BaseKeys(st.version, j.level)))
      && (forall f :: f in outs ==> st.nextFile <= f.number < nextFile')
      && nextFile' >= st.nextFile
      && Replaces(st.version, j.level, j.here, j.next, outs, v')
      && st' == st.(version := v', nextFile := nextFile', job := None);
    InstallKeepsInv(st, input, outs, v', nextFile');
  }

  lemma InstallKeepsInv(st: State, input: seq<Entry>, outs: seq<File>, v': Version, nextFile': nat)
    requires Inv(st) && st.job.Some? && MergedInput(st.job.value, input) && SafeToDrop(st, input)
    requires EntriesOf(outs) ==
      SetOf(Kept(input, |input|, st.job.value.smallest, BaseKeys(st.version, st.job.value.level)))
    requires (forall f :: f in outs ==> f.number < nextFile') && nextFile' >= st.nextFile
    requires Replaces(st.version, st.job.value.level, st.job.value.here, st.job.value.next, outs, v')
    ensures Inv(st.(version := v', nextFile := nextFile', job := None))
  {
    hide *;
    var j := st.job.value;
    JobGood(st);
    JobLayoutValid(st, input);
    JobLayoutIs(st, j, input);
    InstalledReads(st, j.level, j.here, j.next, outs, v', j.smallest, input);
    InstalledFiles(st, j.level, j.here, j.next, outs, v', nextFile');
    AfterInstall(st, j.smallest, v', nextFile');
  }

  lemma JobLayoutIs(st: State, j: Job, input: seq<Entry>)
    requires st.job == Some(j) && |st.version| == NUM_LEVELS && j.level + 1 < NUM_LEVELS && SafeToDrop(st, input)
    ensures
      var l := Layout(Shallow(st, j.level, j.here), input, EntriesLeft(st.version[j.level + 1], j.next), Deep(st.version, j.level));
      && JobLayout(st, input) == l
      && forall user, t, y :: !l.Exposes(user, t, y, j.smallest, BaseKeys(st.version, j.level))
  {
    hide Shallow, EntriesLeft, Deep, BaseKeys, Layout.Exposes;
  }

  /** Reads at `smallest` or later are the same after the outputs are installed. */
  lemma InstalledReads(st: State, level: nat, here: seq<File>, next: seq<File>, outs: seq<File>, v': Version,
      smallest: nat, input: seq<Entry>)
    requires |st.version| == NUM_LEVELS && level + 1 < NUM_LEVELS && GoodVersion(st.version)
    requires Replaces(st.version, level, here, next, outs, v')
    requires
      var base := BaseKeys(st.version, level);
      var l := Layout(Shallow(st, level, here), input, EntriesLeft(st.version[level + 1], next), Deep(st.version, level));
      && l.Valid(base) && l.Before() == st.Contents()
      && EntriesOf(outs) == SetOf(Kept(input, |input|, smallest, base))
      && forall user, t, y :: !l.Exposes(user, t, y, smallest, base)
    ensures |v'| == NUM_LEVELS && st.(version := v').Contents() <= st.Contents()
    ensures forall user, s :: smallest <= s ==>
      Answer(st.(version := v').Contents(), user, s) == Answer(st.Contents(), user, s)
  {
    var base := BaseKeys(st.version, level);
    var l := Layout(Shallow(st, level, here), input, EntriesLeft(st.version[level + 1], next), Deep(st.version, level));
    hide GoodVersion, Replaces, BaseKeys, EntriesLeft, Shallow, Deep, SetOf, Kept, EntriesOf, State.Contents;
    hide Layout.Exposes, Layout.Valid;
    DropRuleIsExact(l, smallest, base);
    AfterIsSmaller(l, smallest, base);
    ContentsAround(st, level, here, next, outs, v');
    assert st.(version := v').Contents() == l.After(smallest, base);
  }

  lemma InstalledFiles(st: State, level: nat, here: seq<File>, next: seq<File>, outs: seq<File>, v': Version, nextFile': nat)
    requires FilesOk(st) && Replaces(st.version, level, here, next, outs, v')
    requires (forall f :: f in outs ==> f.number < nextFile') && nextFile' >= st.nextFile
    ensures GoodVersion(v') && NumbersBelow(v', nextFile')
    ensures LevelEntries(v', 0, NUM_LEVELS) <= LevelEntries(st.version, 0, NUM_LEVELS)
  {
    hide GoodVersion, Replaces, EntriesOf, EntriesLeft, LevelEntries;
    OrdersGood(st.version);
    ReplaceKeepsVersion(st.version, level, here, next, outs, v');
    OutputNumbers(st.version, level, here, next, outs, v', nextFile');
    ReplacedEntries(st.version, level, here, next, outs, v');
    OutputsAreInputs(st.version, level, here, next, outs, v');
  }

  lemma OutputsAreInputs(v: Version, level: nat, here: seq<File>, next: seq<File>, outs: seq<File>, v': Version)
    requires Replaces(v, level, here, next, outs, v')
    ensures EntriesOf(outs) <= EntriesOf(here) + EntriesOf(next)
  {
    hide EntriesOf, ReadyInputs, Rebuilt;
  }

  lemma AfterInstall(st: State, smallest: nat, v': Version, nextFile': nat)
    requires Inv(st) && smallest <= st.floor && |v'| == NUM_LEVELS
    requires GoodVersion(v') && NumbersBelow(v', nextFile')
    requires LevelEntries(v', 0, NUM_LEVELS) <= LevelEntries(st.version, 0, NUM_LEVELS)
    requires st.(version := v').Contents() <= st.Contents()
    requires forall user, s :: smallest <= s ==>
      Answer(st.(version := v').Contents(), user, s) == Answer(st.Contents(), user, s)
    ensures Inv(st.(version := v', nextFile := nextFile', job := None))
  {
    hide GoodVersion, NumbersBelow, LevelEntries, Answer;
    var st' := st.(version := v', nextFile := nextFile', job := None);
    assert st'.Contents() == st.(version := v').Contents();
  }

  // ---------------------------------------------------------------- runs

  lemma StepKeepsInv(st: State, st': State)
    requires Inv(st) && Step(st, st')
    ensures Inv(st')
  {
    hide Inv, WriteStep, SwitchStep, FlushStep, MoveStep, BeginStep, FinishStep, SnapshotStep, ReleaseStep;
    if WriteStep(st, st') {
      WriteKeepsInv(st, st');
    } else if SwitchStep(st, st') {
      SwitchKeepsInv(st, st');
    } else if FlushStep(st, st') {
      FlushKeepsInv(st, st');
    } else if MoveStep(st, st') {
      MoveKeepsInv(st, st');
    } else if BeginStep(st, st') {
      BeginKeepsInv(st, st');
    } else if FinishStep(st, st') {
      FinishKeepsInv(st, st');
    } else {
      SnapshotKeepsInv(st, st');
    }
  }

  ghost predicate Run(states: seq<State>) {
    && states != [] && Init(states[0])
    && forall i :: 0 <= i < |states| - 1 ==> Step(states[i], states[i + 1])
  }

  lemma {:induction false} EveryRunKeepsInv(states: seq<State>, i: nat)
    requires Run(states) && i < |states|
    ensures Inv(states[i])
  {
    hide Inv, Init, Step;
    if i == 0 {
      InitInv(states[0]);
    } else {
      EveryRunKeepsInv(states, i - 1);
      StepKeepsInv(states[i - 1], states[i]);
    }
  }

  /**
   The main result.  In every state of every run, reading any live snapshot, or the last sequence
   number, from what the engine holds gives exactly what the full history of writes gives.
   */
  lemma EveryRunReadsTheHistory(states: seq<State>, i: nat, user: UserKey, s: nat)
    requires Run(states) && i < |states|
    requires s in states[i].snapshots || s == states[i].LastSequence()
    ensures |states[i].version| == NUM_LEVELS && s <= |states[i].history|
    ensures Answer(states[i].Contents(), user, s) == ReadHistory(states[i].history, user, s)
  {
    hide Inv, Run;
    EveryRunKeepsInv(states, i);
    LiveReads(states[i], user, s);
  }

  lemma LiveReads(st: State, user: UserKey, s: nat)
    requires Inv(st) && (s in st.snapshots || s == st.LastSequence())
    ensures |st.version| == NUM_LEVELS && s <= |st.history|
    ensures Answer(st.Contents(), user, s) == ReadHistory(st.history, user, s)
  {
  }
}
