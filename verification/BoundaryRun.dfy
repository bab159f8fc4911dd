/**
 A run of the engine that ends in a compaction which would bring a deleted value back.  The first compaction cuts
 its output between the two versions of one user key, which an old snapshot keeps apart; after its release the
 next compaction takes only the first of the two files.
 */
module BoundaryRun {
  import opened Keys
  import opened Files
  import opened Reads
  import opened DropRule
  import opened VersionBuilder
  import opened Versions
  import opened Selection
  import opened VersionSteps
  import opened CompactionSteps
  import opened CompactionLoop
  import opened Engine
  import opened Boundary

  // ---------------------------------------------------------------- one more step of a run

  lemma RunGrows(states: seq<State>, st': State)
    requires Run(states) && Step(states[|states| - 1], st')
    ensures Run(states + [st'])
  {
    hide Init, Step;
  }

  lemma Writes(st: State, op: Op, mem': seq<Entry>) returns (st': State)
    requires |st.history| + 1 < MAX_SEQUENCE && Sorted(mem') && mem' == [EntryOf(op, |st.history| + 1)] + st.mem
    ensures st' == st.(history := st.history + [op], mem := mem') && Step(st, st')
  {
    hide Sorted;
    st' := st.(history := st.history + [op], mem := mem');
    assert SetOf(mem') == SetOf(st.mem) + {EntryOf(op, |st.history| + 1)};
    assert WriteStep(st, st');
  }

  lemma TakesSnapshot(st: State) returns (st': State)
    ensures st' == st.(snapshots := st.snapshots + [|st.history|]) && Step(st, st')
  {
    st' := st.(snapshots := st.snapshots + [st.LastSequence()]);
    assert SnapshotStep(st, st');
  }

  lemma Releases(st: State) returns (st': State)
    requires |st.snapshots| == 1
    ensures st' == st.(snapshots := []) && Step(st, st')
  {
    st' := st.(snapshots := st.snapshots[..0] + st.snapshots[1..]);
    assert ReleaseStep(st, st');
  }

  lemma Switches(st: State) returns (st': State)
    requires st.imm == None
    ensures st' == st.(imm := Some(st.mem), immFrom := st.memFrom, mem := [], memFrom := |st.history|) && Step(st, st')
  {
    st' := st.(imm := Some(st.mem), immFrom := st.memFrom, mem := [], memFrom := |st.history|);
    assert SwitchStep(st, st');
  }

  /** Files at levels 2 and 3 only. */
  function Levels(two: seq<File>, three: seq<File>): Version { [[], [], two, three, [], [], []] }

  /** The immutable memtable goes to level 2 when that is empty. */
  lemma Flushes(st: State, f: File, three: seq<File>) returns (st': State)
    requires st.version == Levels([], three) && st.job == None && st.imm == Some(f.entries) && f.number == st.nextFile
    ensures st' == st.(imm := None, nextFile := st.nextFile + 1, version := Levels([f], three)) && Step(st, st')
  {
    st' := st.(imm := None, nextFile := st.nextFile + 1, version := Levels([f], three));
    assert Levels([], three)[2 := [f]] == Levels([f], three);
    assert MayFlushTo(st.version, 2, f) && Rebuilt(st.version[2], {}, [f], [f]);
    assert FlushStep(st, st');
  }

  lemma Begins(st: State, here: seq<File>, next: seq<File>, three: seq<File>, s: nat) returns (st': State)
    requires st.version == Levels(here, three) && st.job == None && ReadyInputs(2, here, three, here, next)
    requires s == SmallestSnapshot(st)
    ensures st' == st.(job := Some(Job(2, here, next, s)), floor := s) && Step(st, st')
  {
    hide ReadyInputs;
    st' := st.(job := Some(Job(2, here, next, s)), floor := s);
    assert st.version[2] == here && st.version[3] == three;
    assert BeginStep(st, st');
  }

  /** The one file of level 2 becomes two of level 3, with nothing dropped. */
  lemma Finishes(st: State, f: File, left: File, right: File, s: nat) returns (st': State)
    requires st.version == Levels([f], []) && st.job == Some(Job(2, [f], [], s)) && ReadyInputs(2, [f], [], [f], [])
    requires f.entries == left.entries + right.entries && Less(left.Largest(), right.Smallest())
    requires f.number < st.nextFile == left.number == right.number - 1
    requires forall e :: e in f.entries ==> s < e.ikey.seqno || e == f.entries[|f.entries| - 1]
    requires f.entries[|f.entries| - 1].ikey.kind == Value
    ensures st' == st.(version := Levels([], [left, right]), nextFile := st.nextFile + 2, job := None) && Step(st, st')
  {
    hide *;
    st' := st.(version := Levels([], [left, right]), nextFile := st.nextFile + 2, job := None);
    LevelsAre([f], []);
    FileIsRun(f);
    NothingDropped(f.entries, |f.entries|, s, BaseKeys(st.version, 2));
    OneFile(f);
    TwoFiles(f, left, right);
    IsReplaced(f, left, right);
    NothingExposed(st, f, s);
    FinishIs(st, f.entries, [left, right], Levels([], [left, right]), st.nextFile + 2);
  }

  lemma Oldest(st: State)
    ensures SmallestSnapshot(st) == if st.snapshots == [] then |st.history| else st.snapshots[0]
  {
  }

  lemma LevelsAre(two: seq<File>, three: seq<File>)
    ensures |Levels(two, three)| == 7 == NUM_LEVELS && Levels(two, three)[2] == two && Levels(two, three)[3] == three
  {
  }

  lemma FileIsRun(f: File)
    ensures Sorted(f.entries) && f.entries != []
  {
  }

  lemma FinishIs(st: State, input: seq<Entry>, outs: seq<File>, v': Version, nextFile': nat)
    requires |st.version| == NUM_LEVELS && st.job.Some? && st.job.value.level + 1 < NUM_LEVELS
    requires SafeToDrop(st, input) && Sorted(input) && SetOf(input) == InputEntries(st.job.value.here, st.job.value.next)
    requires EntriesOf(outs) == SetOf(Kept(input, |input|, st.job.value.smallest, BaseKeys(st.version, st.job.value.level)))
    requires forall f :: f in outs ==> st.nextFile <= f.number < nextFile'
    requires nextFile' >= st.nextFile && Replaces(st.version, st.job.value.level, st.job.value.here, st.job.value.next, outs, v')
    ensures Step(st, st.(version := v', nextFile := nextFile', job := None))
  {
    hide Kept, EntriesOf, Replaces, SafeToDrop, Sorted, BaseKeys, SetOf, InputEntries;
    assert MergedInput(st.job.value, input);
    assert FinishStep(st, st.(version := v', nextFile := nextFile', job := None));
  }

  lemma {:induction false} NothingDropped(es: seq<Entry>, n: nat, s: nat, base: iset<UserKey>)
    requires Sorted(es) && n <= |es| && |es| > 0 && es[|es| - 1].ikey.kind == Value
    requires forall e :: e in es ==> s < e.ikey.seqno || e == es[|es| - 1]
    ensures Kept(es, n, s, base) == es[..n] && es[..|es|] == es
  {
    if n > 0 {
      NothingDropped(es, n - 1, s, base);
      forall j | 0 <= j < n - 1
        ensures es[j].ikey.seqno > s
      {
        assert es[j] in es && Less(es[j].ikey, es[|es| - 1].ikey);
      }
      assert es[n - 1] in es;
    }
  }

  lemma OneFile(f: File)
    ensures EntriesOf([f]) == SetOf(f.entries) && EntriesOf([]) == {} && InputEntries([f], []) == SetOf(f.entries) && Sorted(f.entries)
  {
    assert f in [f];
  }

  lemma TwoFiles(f: File, left: File, right: File)
    requires f.entries == left.entries + right.entries
    ensures EntriesOf([left, right]) == SetOf(f.entries)
  {
    assert left in [left, right] && right in [left, right];
  }

  lemma IsReplaced(f: File, left: File, right: File)
    requires f.entries == left.entries + right.entries && Less(left.Largest(), right.Smallest())
    requires f.number < left.number == right.number - 1 && ReadyInputs(2, [f], [], [f], [])
    ensures Replaces(Levels([f], []), 2, [f], [], [left, right], Levels([], [left, right]))
  {
    hide ReadyInputs, Rebuilt, OutputsOk;
    OutputsAreOk(f, left, right);
    LevelsRebuilt(f, left, right);
    LevelsAre([f], []);
  }

  lemma OutputsAreOk(f: File, left: File, right: File)
    requires f.entries == left.entries + right.entries && Less(left.Largest(), right.Smallest())
    requires f.number < left.number == right.number - 1
    ensures OutputsOk(Levels([f], []), 2, [f], [], [left, right])
  {
    OneFile(f);
    TwoFiles(f, left, right);
    LevelsAre([f], []);
    hide EntriesOf, SetOf;
    assert forall m, g :: 0 <= m < 7 && g in Levels([f], [])[m] ==> g == f;
  }

  lemma LevelsRebuilt(f: File, left: File, right: File)
    requires f.entries == left.entries + right.entries && Less(left.Largest(), right.Smallest())
    ensures Rebuilt([f], Numbers([f]), [], []) && Rebuilt([], Numbers([]), [left, right], [left, right])
  {
    EntryInRange(left, left.entries[0]);
    assert Before(left, right) && Apart(left, right);
    assert f.number in Numbers([f]) by { assert f in [f]; }
  }

  lemma NothingExposed(st: State, f: File, s: nat)
    requires |st.version| == NUM_LEVELS && st.job == Some(Job(2, [f], [], s))
    requires forall e :: e in f.entries ==> s < e.ikey.seqno || e == f.entries[|f.entries| - 1]
    requires f.entries[|f.entries| - 1].ikey.kind == Value
    ensures SafeToDrop(st, f.entries)
  {
    hide BaseKeys, IsNewest, EntriesLeft, Shallow, Deep;
  }

  // ---------------------------------------------------------------- the inputs of the two compactions

  lemma WholeIsReady(f: File)
    ensures ReadyInputs(2, [f], [], [f], [])
  {
    assert [f] == [f][0..1] && f in [f];
    EntryInRange(f, f.entries[0]);
    assert IsSmallest([f], f.Smallest()) && IsLargest([f], f.Largest());
    assert Select([], Some(f.Smallest().user), Some(f.Largest().user)) == [];
  }

  lemma LeftIsReady(upper: File, left: File, right: File, a: UserKey)
    requires upper.Smallest().user == upper.Largest().user == a == left.Smallest().user <= left.Largest().user
    requires a < right.Smallest().user
    ensures ReadyInputs(2, [upper], [left, right], [upper], [left])
  {
    var files := [left, right];
    assert files[..1] == [left] && files[..1][..0] == [];
    assert Select([left], Some(a), Some(a)) == [left];
    assert Select(files, Some(a), Some(a)) == [left];
    assert [upper] == [upper][0..1] && upper in [upper];
    assert IsSmallest([upper], upper.Smallest()) && IsLargest([upper], upper.Largest());
  }

  // ---------------------------------------------------------------- the run

  lemma TheFiles(k1: Entry, k2: Entry, a3: Entry, a4: Entry) returns (whole: File, left: File, right: File, upper: File)
    requires Less(a3.ikey, k2.ikey) && Less(k2.ikey, k1.ikey)
    requires forall e :: e in [k1, k2, a3, a4] ==> e.ikey.seqno <= MAX_SEQUENCE
    ensures whole == FileData(2, 1, [a3, k2, k1]) && left == FileData(3, 1, [a3, k2])
    ensures right == FileData(4, 1, [k1]) && upper == FileData(5, 1, [a4])
  {
    var small := [k1, k2, a3, a4];
    assert k1 in small && k2 in small && a3 in small && a4 in small;
    whole, left, right, upper := FileData(2, 1, [a3, k2, k1]), FileData(3, 1, [a3, k2]), FileData(4, 1, [k1]), FileData(5, 1, [a4]);
  }

  const KEY_A: UserKey := 0.0
  const KEY_K: UserKey := 1.0

  /** Put k, delete k, put a, put a. */
  function Writing(n: nat): Op
    requires n < 4
  {
    if n == 0 then Op(KEY_K, Value, [1]) else if n == 1 then Op(KEY_K, Deletion, []) else Op(KEY_A, Value, [n])
  }

  function Written(n: nat): Entry requires 0 < n <= 4 { EntryOf(Writing(n - 1), n) }

  lemma WrittenOrder()
    ensures Less(Written(3).ikey, Written(2).ikey) && Less(Written(2).ikey, Written(1).ikey)
    ensures Sorted([Written(1)]) && Sorted([Written(2), Written(1)]) && Sorted([Written(3), Written(2), Written(1)]) && Sorted([Written(4)])
    ensures MAX_SEQUENCE > 10
    ensures forall n :: 0 < n <= 4 ==> Written(n).ikey.seqno == n
    ensures Written(1).ikey.kind == Value && Written(2).ikey.kind == Deletion
    ensures Written(3).ikey.user == Written(4).ikey.user < Written(2).ikey.user == Written(1).ikey.user
  {
  }

  lemma Begun() returns (states: seq<State>)
    ensures Run(states) && |states| == 1
    ensures states[0] == State([], 0, [], 0, None, 0, Levels([], []), 2, [], None)
  {
    var st := State([], 0, [], 0, None, 0, seq(NUM_LEVELS, _ => []), 2, [], None);
    assert st.version == Levels([], []);
    states := [st];
  }

  lemma Extend(states: seq<State>, st: State, st': State)
    requires states != [] && states[|states| - 1] == st && Run(states) && Step(st, st')
    ensures Run(states + [st']) && (states + [st'])[|states|] == st' && |states + [st']| == |states| + 1
  {
    hide Run, Step;
    RunGrows(states, st');
  }

  /** Up to the compaction that cuts its output between the two entries of k. */
  lemma RunToCut(whole: File, left: File, right: File) returns (states: seq<State>, st: State)
    requires whole == FileData(2, 1, [Written(3), Written(2), Written(1)])
    requires left == FileData(3, 1, [Written(3), Written(2)]) && right == FileData(4, 1, [Written(1)])
    ensures Run(states) && states != [] && states[|states| - 1] == st
    ensures st == State([Writing(0), Writing(1), Writing(2)], 1, [], 3, None, 0, Levels([], [left, right]), 5, [1], None)
  {
    hide *;
    WrittenOrder();
    states := Begun();
    var s0 := states[0];
    SeqnosOf();
    var s1 := Writes(s0, Writing(0), [Written(1)]);
    Extend(states, s0, s1);
    states := states + [s1];
    var s2 := TakesSnapshot(s1);
    Extend(states, s1, s2);
    states := states + [s2];
    var s3 := Writes(s2, Writing(1), [Written(2), Written(1)]);
    Extend(states, s2, s3);
    states := states + [s3];
    var s4 := Writes(s3, Writing(2), [Written(3), Written(2), Written(1)]);
    Extend(states, s3, s4);
    states := states + [s4];
    var s5 := Switches(s4);
    Extend(states, s4, s5);
    states := states + [s5];
    var s6 := Flushes(s5, whole, []);
    Extend(states, s5, s6);
    states := states + [s6];
    WholeIsReady(whole);
    Oldest(s6);
    var s7 := Begins(s6, [whole], [], [], 1);
    Extend(states, s6, s7);
    states := states + [s7];
    Cut(whole, left, right);
    st := Finishes(s7, whole, left, right, 1);
    Extend(states, s7, st);
    states := states + [st];
  }

  /** Up to the second compaction, which takes only the left of the two files. */
  lemma RunToHarm(whole: File, left: File, right: File, upper: File) returns (states: seq<State>, st: State)
    requires whole == FileData(2, 1, [Written(3), Written(2), Written(1)])
    requires left == FileData(3, 1, [Written(3), Written(2)]) && right == FileData(4, 1, [Written(1)])
    requires upper == FileData(5, 1, [Written(4)])
    ensures Run(states) && states != [] && states[|states| - 1] == st
    ensures st == State([Writing(0), Writing(1), Writing(2), Writing(3)], 4, [], 4, None, 3,
      Levels([upper], [left, right]), 6, [], Some(Job(2, [upper], [left], 4)))
  {
    hide *;
    WrittenOrder();
    var s8;
    states, s8 := RunToCut(whole, left, right);
    SeqnosOf();
    var s9 := Releases(s8);
    Extend(states, s8, s9);
    states := states + [s9];
    var s10 := Writes(s9, Writing(3), [Written(4)]);
    Extend(states, s9, s10);
    states := states + [s10];
    var s11 := Switches(s10);
    Extend(states, s10, s11);
    states := states + [s11];
    var s12 := Flushes(s11, upper, [left, right]);
    Extend(states, s11, s12);
    states := states + [s12];
    Ends(left, right, upper);
    LeftIsReady(upper, left, right, KEY_A);
    Oldest(s12);
    st := Begins(s12, [upper], [left], [left, right], 4);
    Extend(states, s12, st);
    states := states + [st];
  }

  lemma Ends(left: File, right: File, upper: File)
    requires left == FileData(3, 1, [Written(3), Written(2)]) && right == FileData(4, 1, [Written(1)])
    requires upper == FileData(5, 1, [Written(4)])
    ensures left.entries != [] && right.entries != [] && upper.entries != []
    ensures upper.Smallest().user == upper.Largest().user == KEY_A == left.Smallest().user
    ensures left.Largest().user == right.Smallest().user == KEY_K > KEY_A
    ensures right.Smallest().kind == Value
  {
  }

  /** What the engine holds at the end of the run. */
  lemma Holds(st: State, left: File, right: File, upper: File)
    requires st.mem == [] && st.imm == None && st.version == Levels([upper], [left, right])
    ensures |st.version| == NUM_LEVELS && st.Contents() == SetOf(upper.entries) + SetOf(left.entries) + SetOf(right.entries)
  {
    assert upper in [upper] && left in [left, right] && right in [left, right];
    var v := st.version;
    assert EntriesOf([upper]) == SetOf(upper.entries);
    assert EntriesOf([left, right]) == SetOf(left.entries) + SetOf(right.entries);
    assert LevelEntries(v, 4, NUM_LEVELS) == {};
    assert LevelEntries(v, 0, NUM_LEVELS) == EntriesOf(v[2]) + EntriesOf(v[3]);
  }

  lemma NothingDeeper(two: seq<File>, three: seq<File>, user: UserKey)
    ensures user in BaseKeys(Levels(two, three), 2)
  {
  }

  lemma SeqnosOf()
    ensures forall n :: 0 < n <= 4 ==> Written(n) == EntryOf(Writing(n - 1), n)
  {
  }

  lemma Cut(whole: File, left: File, right: File)
    requires whole == FileData(2, 1, [Written(3), Written(2), Written(1)])
    requires left == FileData(3, 1, [Written(3), Written(2)]) && right == FileData(4, 1, [Written(1)])
    ensures whole.entries == left.entries + right.entries && left.entries != [] && right.entries != []
    ensures Less(left.Largest(), right.Smallest())
    ensures forall e :: e in whole.entries ==> 1 < e.ikey.seqno || e == whole.entries[2]
    ensures whole.entries[2].ikey.kind == Value
  {
  }

  // ---------------------------------------------------------------- where the first compaction cuts

  /**
   The merge loop makes this cut: with the old snapshot at 1 it keeps all three entries, and if two of them fill a
   table the next one starts between the two versions of k.
   */
  method CutsBetween(left: File, right: File) returns (outputs: seq<seq<Entry>>)
    requires left == FileData(3, 1, [Written(3), Written(2)]) && right == FileData(4, 1, [Written(1)])
    ensures outputs == [left.entries, right.entries]
  {
    hide Written, Kept, Sorted, Flatten, CutInTime, CutsPaidFor, FewPassed, BaseKeys;
    WrittenOrder();
    var input := [Written(3), Written(2), Written(1)];
    var c := new Compaction(2, [[], [], [], [], [], [], []], [], 20);
    outputs := DoCompactionWork(c, input, 1, es => |es|, 2);
    NothingDropped(input, 3, 1, BaseKeys(c.levels, c.level));
    NoFiles();
    OneCut(outputs, input, es => |es|);
    assert input[..2] == left.entries && input[2..] == right.entries;
  }

  /** Three entries in tables of two: there is only one way. */
  lemma OneCut(outputs: seq<seq<Entry>>, input: seq<Entry>, fileBytes: seq<Entry> -> nat)
    requires |input| == 3 && Flatten(outputs) == input && (forall t :: fileBytes(t) == |t|)
    requires (forall t :: t in outputs ==> CutInTime(t, fileBytes, 2)) && CutsPaidFor(outputs, fileBytes, 2, 20, 0)
    ensures outputs == [input[..2], input[2..]]
  {
    hide Flatten;
    forall i | 0 <= i < |outputs|
      ensures 1 <= |outputs[i]| <= 2 && (i < |outputs| - 1 ==> |outputs[i]| == 2)
    {
      SizeOf(outputs, i, fileBytes);
    }
    TwoAndOne(outputs, input);
  }

  lemma SizeOf(outputs: seq<seq<Entry>>, i: nat, fileBytes: seq<Entry> -> nat)
    requires i < |outputs| && (forall t :: fileBytes(t) == |t|)
    requires (forall t :: t in outputs ==> CutInTime(t, fileBytes, 2)) && CutsPaidFor(outputs, fileBytes, 2, 20, 0)
    ensures 1 <= |outputs[i]| <= 2 && (i < |outputs| - 1 ==> |outputs[i]| == 2)
  {
    FullButLast(outputs, fileBytes, 2, 20);
    var t := outputs[i];
    assert t in outputs;
    assert fileBytes(t) == |t|;
  }

  lemma TwoAndOne(outputs: seq<seq<Entry>>, input: seq<Entry>)
    requires |input| == 3 && Flatten(outputs) == input
    requires forall i :: 0 <= i < |outputs| ==> 1 <= |outputs[i]| <= 2 && (i < |outputs| - 1 ==> |outputs[i]| == 2)
    ensures outputs == [input[..2], input[2..]]
  {
    hide Flatten;
    NothingFlat();
    assert outputs != [];
    var n := |outputs| - 1;
    var first, last := outputs[..n], outputs[n];
    assert outputs == first + [last];
    FlattenSnoc(first, last);
    FlattenPairs(first);
    assert n == 1;
    OneTable(first);
    assert input == outputs[0] + last;
  }

  lemma NothingFlat()
    ensures Flatten([]) == []
  {
  }

  lemma OneTable(tables: seq<seq<Entry>>)
    requires |tables| == 1
    ensures Flatten(tables) == tables[0]
  {
    assert tables[..0] == [];
  }

  lemma {:induction false} FlattenPairs(tables: seq<seq<Entry>>)
    requires forall i :: 0 <= i < |tables| ==> |tables[i]| == 2
    ensures |Flatten(tables)| == 2 * |tables|
  {
    if tables != [] {
      FlattenPairs(tables[..|tables| - 1]);
    }
  }

  // ---------------------------------------------------------------- the harm

  /** The tombstone of k is in the left file, and it is what a read of k finds. */
  lemma TombstoneIsNewest(all: set<Entry>, left: File, right: File, upper: File)
    requires left == FileData(3, 1, [Written(3), Written(2)]) && right == FileData(4, 1, [Written(1)])
    requires upper == FileData(5, 1, [Written(4)])
    requires all == SetOf(upper.entries) + SetOf(left.entries) + SetOf(right.entries)
    ensures IsNewest(all, KEY_K, 4, Written(2)) && Written(2).ikey.kind == Deletion
    ensures Written(2) in InputEntries([upper], [left])
  {
    assert left in [left];
    assert left.entries[1] == Written(2);
  }

  lemma IsHarmful(st: State, left: File, right: File, upper: File)
    requires |st.version| == NUM_LEVELS && st.version == Levels([upper], [left, right])
    requires st.job == Some(Job(2, [upper], [left], 4))
    requires left.Largest().user == right.Smallest().user == KEY_K && right.Smallest().kind == Value
    requires IsNewest(st.Contents(), KEY_K, 4, Written(2)) && Written(2).ikey.kind == Deletion
    requires Written(2) in InputEntries([upper], [left]) && KEY_K in BaseKeys(st.version, 2)
    ensures Resurrects(st)
  {
    hide IsNewest, BaseKeys, InputEntries, State.Contents, Written;
    var next := [left];
    assert st.version[3] == [left, right];
    assert Behind(st.version[3], next, 1);
    assert ReadsTombstone(st, 1);
  }

  lemma Merged(left: File, right: File, upper: File) returns (input: seq<Entry>)
    requires left == FileData(3, 1, [Written(3), Written(2)]) && upper == FileData(5, 1, [Written(4)])
    ensures MergedInput(Job(2, [upper], [left], 4), input)
  {
    input := [Written(4), Written(3), Written(2)];
    assert upper in [upper] && left in [left];
    assert EntriesOf([upper]) == SetOf(upper.entries) && EntriesOf([left]) == SetOf(left.entries);
  }

  /** An unsafe drop at the last sequence number loses the deletion that a read of it finds. */
  lemma UnsafeMisreads(st: State, input: seq<Entry>) returns (user: UserKey)
    requires Inv(st) && st.job.Some? && MergedInput(st.job.value, input) && st.job.value.smallest == |st.history|
    requires |st.version| == NUM_LEVELS && st.job.value.level + 1 < NUM_LEVELS && !SafeToDrop(st, input)
    ensures ReadHistory(st.history, user, |st.history|) == None
    ensures Answer(AfterJob(st, input), user, |st.history|) != None
  {
    hide *;
    JobLayoutValid(st, input);
    var t, y;
    var l, s := JobLayout(st, input), st.job.value.smallest;
    var base := BaseKeys(st.version, st.job.value.level);
    user, t, y := AnExposure(st, input);
    LastRead(st, user);
    var i := ExposureMeans(l, user, t, y, s, base);
    ExposedRead(l, s, base, user, s, i);
    AnswerIs(l.Before(), user, s, t);
    AfterJobIs(st, input);
  }

  /** What the job would leave behind. */
  ghost function AfterJob(st: State, input: seq<Entry>): set<Entry>
    requires |st.version| == NUM_LEVELS && st.job.Some? && st.job.value.level + 1 < NUM_LEVELS
  {
    JobLayout(st, input).After(st.job.value.smallest, BaseKeys(st.version, st.job.value.level))
  }

  lemma AfterJobIs(st: State, input: seq<Entry>)
    requires |st.version| == NUM_LEVELS && st.job.Some? && st.job.value.level + 1 < NUM_LEVELS
    ensures AfterJob(st, input) == JobLayout(st, input).After(st.job.value.smallest, BaseKeys(st.version, st.job.value.level))
  {
  }

  lemma AnExposure(st: State, input: seq<Entry>) returns (user: UserKey, t: Entry, y: Entry)
    requires |st.version| == NUM_LEVELS && st.job.Some? && st.job.value.level + 1 < NUM_LEVELS && !SafeToDrop(st, input)
    ensures JobLayout(st, input).Exposes(user, t, y, st.job.value.smallest, BaseKeys(st.version, st.job.value.level))
  {
    hide JobLayout, BaseKeys, Layout.Exposes;
    user, t, y :| JobLayout(st, input).Exposes(user, t, y, st.job.value.smallest, BaseKeys(st.version, st.job.value.level));
  }

  lemma ExposureMeans(l: Layout, user: UserKey, t: Entry, y: Entry, s: nat, base: iset<UserKey>) returns (i: nat)
    requires l.Valid(base) && l.Exposes(user, t, y, s, base)
    ensures i < |l.inputs| && l.inputs[i] == t && IsNewest(l.Before(), user, s, t) && Dropped(l.inputs, i, s, base)
    ensures Distinct(l.Before()) && t.ikey.kind == Deletion && exists z :: l.Exposes(user, l.inputs[i], z, s, base)
  {
    i :| 0 <= i < |l.inputs| && l.inputs[i] == t;
  }

  lemma LastRead(st: State, user: UserKey)
    requires Inv(st)
    ensures |st.version| == NUM_LEVELS && Answer(st.Contents(), user, |st.history|) == ReadHistory(st.history, user, |st.history|)
  {
    LiveReads(st, user, |st.history|);
  }

  /**
   The engine can come to a compaction that brings a deleted value back: after the job of the last state, run by
   the drop rule, a read of the last sequence number finds a value of a key that the history has deleted.
   */
  lemma BoundaryCanResurrect() returns (states: seq<State>, input: seq<Entry>, user: UserKey)
    ensures Run(states) && states != []
    ensures
      var st := states[|states| - 1];
      && |st.version| == NUM_LEVELS && st.job.Some? && st.job.value.level + 1 < NUM_LEVELS
      && MergedInput(st.job.value, input) && !SafeToDrop(st, input)
      && ReadHistory(st.history, user, |st.history|) == None
      && Answer(AfterJob(st, input), user, |st.history|) != None
  {
    hide *;
    WrittenOrder();
    var whole, left, right, upper := TheFiles(Written(1), Written(2), Written(3), Written(4));
    var st;
    states, st := RunToHarm(whole, left, right, upper);
    Holds(st, left, right, upper);
    Ends(left, right, upper);
    TombstoneIsNewest(st.Contents(), left, right, upper);
    NothingDeeper([upper], [left, right], KEY_K);
    IsHarmful(st, left, right, upper);
    input := Merged(left, right, upper);
    EveryRunKeepsInv(states, |states| - 1);
    SafeIsExact(st, input);
    user := UnsafeMisreads(st, input);
  }
}
