/**
 The boundary case at the output level.  Boundary files are added for the input level only, so two
 neighbouring files of the output level may share a user key with only the first of them an input.
 `SafeIsExact` says when that does harm, by looking at one pair of neighbouring files and one read;
 `NoSharedBoundaryIsSafe` is the simpler condition on the files alone.
 */
module Boundary {
  import opened Keys
  import opened Files
  import opened Reads
  import opened DropRule
  import opened Versions
  import opened Selection
  import opened CompactionSteps
  import opened CompactionLoop
  import opened Engine

  /** No file left at the output level starts with the user key that an input file of that level ends with. */
  ghost predicate NoSharedBoundary(files1: seq<File>, next: seq<File>) {
    forall f, g :: f in next && g in files1 && g !in next ==> f.Largest().user != g.Smallest().user
  }

  lemma SiblingOfHere(files1: seq<File>, here: seq<File>, next: seq<File>, s: IKey, l: IKey, t: Entry, y: Entry)
    requires IsSmallest(here, s) && IsLargest(here, l) && next == Select(files1, Some(s.user), Some(l.user))
    requires t in EntriesOf(here) && y in EntriesLeft(files1, next)
    ensures t.ikey.user != y.ikey.user
  {
    var f :| f in here && t in f.entries;
    var g :| g in files1 && g !in next && y in g.entries;
    hide IsSmallest, IsLargest, EntriesOf, EntriesLeft;
    assert AtMost(s, f.Smallest()) && AtMost(f.Largest(), l) by { Bounds(here, s, l, f); }
    EntryInRange(f, t);
    EntryInRange(g, y);
    assert !Overlaps(g, Some(s.user), Some(l.user));
  }

  lemma Bounds(here: seq<File>, s: IKey, l: IKey, f: File)
    requires IsSmallest(here, s) && IsLargest(here, l) && f in here
    ensures AtMost(s, f.Smallest()) && AtMost(f.Largest(), l)
  {
  }

  // ---------------------------------------------------------------- the file right behind the inputs

  /** File `n` of the output level is right behind the last input there. */
  ghost predicate Behind(files1: seq<File>, next: seq<File>, n: nat) {
    0 < n < |files1| && next != [] && next[|next| - 1] == files1[n - 1]
  }

  lemma BehindIs(files1: seq<File>, next: seq<File>, i: nat, j: nat, n: nat)
    requires Disjoint(files1) && i < j <= |files1| && next == files1[i..j]
    ensures Behind(files1, next, n) <==> n == j < |files1|
  {
    if Behind(files1, next, n) {
      SpanIsOrdered(files1, n - 1);
      SpanIsOrdered(files1, j - 1);
    }
  }

  /** Last key of the inputs at the output level, and first key behind them. */
  ghost predicate SharesKey(files1: seq<File>, n: nat)
    requires 0 < n < |files1|
  {
    files1[n - 1].Largest().user == files1[n].Smallest().user
  }

  /** Files left out before the inputs are newer; those behind share a key only through the boundary. */
  lemma SiblingPlace(files1: seq<File>, next: seq<File>, i: nat, j: nat, t: Entry, x: Entry)
    requires Disjoint(files1) && i < j <= |files1| && next == files1[i..j]
    requires t in EntriesOf(next) && x in EntriesLeft(files1, next) && t.ikey.user == x.ikey.user
    ensures Less(x.ikey, t.ikey) || BehindBoundary(files1, j, t, x)
  {
    hide *;
    var a := FileOf(files1, i, j, t);
    var b := LeftFileOf(files1, i, j, x);
    if b < i {
      FilesApart(files1, b, a, x, t);
    } else {
      AcrossBoundary(files1, j, a, b, t, x);
    }
  }

  /** An input entry and a sibling of the same key with the boundary between them. */
  ghost predicate BehindBoundary(files1: seq<File>, j: nat, t: Entry, x: Entry) {
    && 0 < j < |files1| && SharesKey(files1, j) && files1[j].Smallest().user == t.ikey.user
    && Less(t.ikey, files1[j].Smallest()) && AtMost(files1[j].Smallest(), x.ikey)
  }

  lemma FileOf(files: seq<File>, i: nat, j: nat, t: Entry) returns (a: nat)
    requires i <= j <= |files| && t in EntriesOf(files[i..j])
    ensures i <= a < j && t in files[a].entries
  {
    var f :| f in files[i..j] && t in f.entries;
    var k :| 0 <= k < j - i && files[i..j][k] == f;
    a := i + k;
  }

  lemma LeftFileOf(files: seq<File>, i: nat, j: nat, x: Entry) returns (b: nat)
    requires i < j <= |files| && x in EntriesLeft(files, files[i..j])
    ensures b < |files| && !(i <= b < j) && x in files[b].entries
  {
    var g :| g in files && g !in files[i..j] && x in g.entries;
    b :| 0 <= b < |files| && files[b] == g;
    InRun(files, i, j, b);
  }

  lemma FilesApart(files: seq<File>, b: nat, a: nat, x: Entry, t: Entry)
    requires Disjoint(files) && b < a < |files| && x in files[b].entries && t in files[a].entries
    ensures Less(x.ikey, t.ikey)
  {
    EntryInRange(files[b], x);
    EntryInRange(files[a], t);
  }

  lemma AcrossBoundary(files: seq<File>, j: nat, a: nat, b: nat, t: Entry, x: Entry)
    requires Disjoint(files) && a < j <= b < |files| && t in files[a].entries && x in files[b].entries
    requires t.ikey.user == x.ikey.user
    ensures BehindBoundary(files, j, t, x)
  {
    var last, first := files[j - 1].entries[|files[j - 1].entries| - 1], files[j].entries[0];
    EntryInRange(files[a], t);
    EntryInRange(files[b], x);
    if a < j - 1 { FilesApart(files, a, j - 1, t, last); }
    if j < b { FilesApart(files, j, b, first, x); }
    FilesApart(files, j - 1, j, last, first);
  }

  lemma FirstEntry(files1: seq<File>, next: seq<File>, i: nat, j: nat)
    requires Disjoint(files1) && i < j < |files1| && next == files1[i..j]
    ensures files1[j].entries != []
    ensures files1[j].entries[0] in EntriesLeft(files1, next) && files1[j].entries[0].ikey == files1[j].Smallest()
  {
    forall a | i <= a < j
      ensures files1[a] != files1[j]
    {
      SpanIsOrdered(files1, j);
    }
    var f := files1[j];
    assert f !in next && f.entries[0] in f.entries;
  }

  /**
   A compaction does harm: the file behind the inputs begins with a value of the user key that the inputs end
   with, no deeper file covers that key, and a read of it at the oldest snapshot finds a tombstone of the inputs.
   */
  ghost predicate Resurrects(st: State)
    requires |st.version| == NUM_LEVELS && st.job.Some? && st.job.value.level + 1 < NUM_LEVELS
  {
    var j := st.job.value;
    exists n: nat :: Behind(st.version[j.level + 1], j.next, n) && ReadsTombstone(st, n)
  }

  ghost predicate ReadsTombstone(st: State, n: nat)
    requires |st.version| == NUM_LEVELS && st.job.Some? && st.job.value.level + 1 < NUM_LEVELS
    requires Behind(st.version[st.job.value.level + 1], st.job.value.next, n)
  {
    var j := st.job.value;
    var files1 := st.version[j.level + 1];
    var first := files1[n].Smallest();
    && SharesKey(files1, n) && first.kind == Value && first.user in BaseKeys(st.version, j.level)
    && exists t :: t in InputEntries(j.here, j.next) && t.ikey.kind == Deletion && IsNewest(st.Contents(), first.user, j.smallest, t)
  }

  /** A tombstone and the sibling it exposes are on the two sides of the boundary. */
  lemma ExposedAtBoundary(files1: seq<File>, here: seq<File>, next: seq<File>, s: IKey, l: IKey, all: set<Entry>, t: Entry, y: Entry)
    returns (n: nat)
    requires Disjoint(files1) && IsSmallest(here, s) && IsLargest(here, l) && next == Select(files1, Some(s.user), Some(l.user))
    requires Distinct(all) && InputEntries(here, next) + EntriesLeft(files1, next) <= all
    requires t in InputEntries(here, next) && IsNewest(EntriesLeft(files1, next), t.ikey.user, t.ikey.seqno, y)
    ensures 0 < n < |files1| && files1[n].entries != [] && y.ikey.user == t.ikey.user
    ensures Behind(files1, next, n) && SharesKey(files1, n) && files1[n].Smallest() == y.ikey
  {
    hide *;
    NewestIs(EntriesLeft(files1, next), t.ikey.user, t.ikey.seqno, y);
    InputIsNext(files1, here, next, s, l, t, y);
    var i, j := SelectIsRun(files1, Some(s.user), Some(l.user));
    RunHas(files1, i, j, t);
    NotNewer(all, t, y);
    SiblingPlace(files1, next, i, j, t, y);
    Across(files1, j, t, y);
    BehindIs(files1, next, i, j, j);
    FirstEntry(files1, next, i, j);
    n := j;
    var first := files1[j].entries[0];
    Ranked(t, first);
    Ranked(first, y);
    NewestIs(EntriesLeft(files1, next), t.ikey.user, t.ikey.seqno, first);
    OneEntry(all, first, y);
  }

  lemma NewestIs(es: set<Entry>, user: UserKey, s: nat, x: Entry)
    requires (x in es && x.ikey.user == user && x.ikey.seqno <= s) || IsNewest(es, user, s, x)
    ensures x in es && x.ikey.user == user && x.ikey.seqno <= s
    ensures forall y :: IsNewest(es, user, s, y) ==> x.ikey.seqno <= y.ikey.seqno
  {
  }

  lemma InputIsNext(files1: seq<File>, here: seq<File>, next: seq<File>, s: IKey, l: IKey, t: Entry, y: Entry)
    requires IsSmallest(here, s) && IsLargest(here, l) && next == Select(files1, Some(s.user), Some(l.user))
    requires t in InputEntries(here, next) && y in EntriesLeft(files1, next) && t.ikey.user == y.ikey.user
    ensures t in EntriesOf(next)
  {
    hide EntriesLeft, EntriesOf, Select, IsSmallest, IsLargest;
    if t in EntriesOf(here) {
      SiblingOfHere(files1, here, next, s, l, t, y);
    }
  }

  lemma Across(files1: seq<File>, j: nat, t: Entry, x: Entry)
    requires BehindBoundary(files1, j, t, x)
    ensures 0 < j < |files1| && SharesKey(files1, j) && files1[j].Smallest().user == t.ikey.user
    ensures Less(t.ikey, files1[j].Smallest()) && AtMost(files1[j].Smallest(), x.ikey)
    ensures files1[j].entries != []
  {
  }

  /** Of two entries of one key, the later one in key order has no larger sequence number. */
  lemma Ranked(x: Entry, y: Entry)
    requires AtMost(x.ikey, y.ikey) && x.ikey.user == y.ikey.user
    ensures y.ikey.seqno <= x.ikey.seqno
  {
  }

  lemma NotNewer(all: set<Entry>, t: Entry, y: Entry)
    requires Distinct(all) && t in all && y in all && y.ikey.user == t.ikey.user && y.ikey.seqno <= t.ikey.seqno
    ensures !Less(y.ikey, t.ikey)
  {
    if y.ikey.seqno == t.ikey.seqno {
      assert y == t;
    }
  }

  lemma OneEntry(all: set<Entry>, x: Entry, y: Entry)
    requires Distinct(all) && x in all && y in all && x.ikey.user == y.ikey.user && x.ikey.seqno == y.ikey.seqno
    ensures x == y
  {
  }

  lemma RunHas(files1: seq<File>, i: nat, j: nat, t: Entry)
    requires i <= j <= |files1| && t in EntriesOf(files1[i..j])
    ensures i < j
  {
  }

  /** The first entry behind the boundary is the newest sibling that is older than a tombstone of the inputs. */
  lemma BoundaryExposes(files1: seq<File>, here: seq<File>, next: seq<File>, s: IKey, l: IKey, all: set<Entry>, t: Entry, n: nat)
    returns (y: Entry)
    requires Disjoint(files1) && IsSmallest(here, s) && IsLargest(here, l) && next == Select(files1, Some(s.user), Some(l.user))
    requires Distinct(all) && InputEntries(here, next) + EntriesLeft(files1, next) <= all
    requires Behind(files1, next, n) && SharesKey(files1, n)
    requires t in InputEntries(here, next) && t.ikey.user == files1[n].Smallest().user
    ensures y.ikey == files1[n].Smallest() && IsNewest(EntriesLeft(files1, next), t.ikey.user, t.ikey.seqno, y)
  {
    hide *;
    var i, j := SelectIsRun(files1, Some(s.user), Some(l.user));
    RunIsNotEmpty(files1, next, i, j, n);
    BehindIs(files1, next, i, j, n);
    FirstEntry(files1, next, i, j);
    y := files1[j].entries[0];
    InputIsNext(files1, here, next, s, l, t, y);
    BehindInput(files1, next, i, j, t, y);
    forall x | x in EntriesLeft(files1, next) && x.ikey.user == t.ikey.user && x.ikey.seqno <= t.ikey.seqno
      ensures x.ikey.seqno <= y.ikey.seqno
    {
      NotNewer(all, t, x);
      SiblingPlace(files1, next, i, j, t, x);
      Across(files1, j, t, x);
      Ranked(y, x);
    }
    AsNewest(EntriesLeft(files1, next), t.ikey.user, t.ikey.seqno, y);
  }

  lemma RunIsNotEmpty(files1: seq<File>, next: seq<File>, i: nat, j: nat, n: nat)
    requires Behind(files1, next, n) && i <= j <= |files1| && next == files1[i..j]
    ensures i < j && 0 < n < |files1|
  {
  }

  lemma BehindInput(files1: seq<File>, next: seq<File>, i: nat, j: nat, t: Entry, y: Entry)
    requires Disjoint(files1) && i < j < |files1| && next == files1[i..j] && t in EntriesOf(next)
    requires y == files1[j].entries[0] && t.ikey.user == y.ikey.user
    ensures y.ikey.seqno <= t.ikey.seqno
  {
    hide EntriesOf;
    var a := FileOf(files1, i, j, t);
    FilesApart(files1, a, j, t, y);
  }

  lemma AsNewest(es: set<Entry>, user: UserKey, s: nat, y: Entry)
    requires y in es && y.ikey.user == user && y.ikey.seqno <= s
    requires forall x :: x in es && x.ikey.user == user && x.ikey.seqno <= s ==> x.ikey.seqno <= y.ikey.seqno
    ensures IsNewest(es, user, s, y)
  {
  }

  // ---------------------------------------------------------------- when the drop rule is safe

  /** The output level of a running compaction and the range its inputs there were selected by. */
  lemma JobRange(st: State) returns (s: IKey, l: IKey)
    requires Inv(st) && st.job.Some?
    ensures
      var j := st.job.value;
      && |st.version| == NUM_LEVELS && j.level + 1 < NUM_LEVELS && Disjoint(st.version[j.level + 1])
      && IsSmallest(j.here, s) && IsLargest(j.here, l)
      && j.next == Select(st.version[j.level + 1], Some(s.user), Some(l.user))
      && Distinct(st.Contents())
      && InputEntries(j.here, j.next) + EntriesLeft(st.version[j.level + 1], j.next) <= st.Contents()
  {
    hide *;
    JobGood(st);
    FromHistoryDistinct(st.Contents(), st.history);
    var j := st.job.value;
    OutputLevelDisjoint(st.version, j.level + 1);
    ContentsBefore(st, j.level, j.here, j.next);
    s, l := RangeOf(j.level, st.version[j.level], st.version[j.level + 1], j.here, j.next);
  }

  lemma RangeOf(level: nat, files: seq<File>, files1: seq<File>, here: seq<File>, next: seq<File>) returns (s: IKey, l: IKey)
    requires ReadyInputs(level, files, files1, here, next)
    ensures IsSmallest(here, s) && IsLargest(here, l) && next == Select(files1, Some(s.user), Some(l.user))
  {
    hide GoodInputs, LeavesNoOlder, Select, IsSmallest, IsLargest;
    s, l :| IsSmallest(here, s) && IsLargest(here, l) && next == Select(files1, Some(s.user), Some(l.user));
  }

  lemma OutputLevelDisjoint(v: Version, m: nat)
    requires VersionOk(v) && 0 < m < NUM_LEVELS
    ensures |v| == NUM_LEVELS && Disjoint(v[m])
  {
    assert LevelOk(v[m], m);
  }

  /**
   The exact condition: a compaction drops nothing that exposes an older value, whatever its inputs hold, if and
   only if it does not leave a value right behind a tombstone that it drops.
   */
  lemma SafeIsExact(st: State, input: seq<Entry>)
    requires Inv(st) && st.job.Some? && MergedInput(st.job.value, input)
    ensures |st.version| == NUM_LEVELS && st.job.value.level + 1 < NUM_LEVELS
    ensures SafeToDrop(st, input) <==> !Resurrects(st)
  {
    hide Inv, MergedInput, SafeToDrop, Resurrects, JobLayout;
    var s, l := JobRange(st);
    if !SafeToDrop(st, input) {
      UnsafeResurrects(st, input, s, l);
    }
    if Resurrects(st) {
      ResurrectsUnsafe(st, input, s, l);
    }
  }

  lemma UnsafeResurrects(st: State, input: seq<Entry>, s: IKey, l: IKey)
    requires Inv(st) && st.job.Some? && MergedInput(st.job.value, input) && |st.version| == NUM_LEVELS
    requires st.job.value.level + 1 < NUM_LEVELS && Disjoint(st.version[st.job.value.level + 1])
    requires IsSmallest(st.job.value.here, s) && IsLargest(st.job.value.here, l) && Distinct(st.Contents())
    requires st.job.value.next == Select(st.version[st.job.value.level + 1], Some(s.user), Some(l.user))
    requires InputEntries(st.job.value.here, st.job.value.next)
      + EntriesLeft(st.version[st.job.value.level + 1], st.job.value.next) <= st.Contents()
    requires !SafeToDrop(st, input)
    ensures Resurrects(st)
  {
    hide *;
    JobLayoutValid(st, input);
    var user, t, y := Exposure(st, input);
    var j := st.job.value;
    var n := ExposedAtBoundary(st.version[j.level + 1], j.here, j.next, s, l, st.Contents(), t, y);
    AreResurrected(st, n, t);
  }

  /** What an unsafe drop exposes. */
  lemma Exposure(st: State, input: seq<Entry>) returns (user: UserKey, t: Entry, y: Entry)
    requires |st.version| == NUM_LEVELS && st.job.Some? && st.job.value.level + 1 < NUM_LEVELS
    requires MergedInput(st.job.value, input) && !SafeToDrop(st, input)
    ensures
      var j := st.job.value;
      && t in InputEntries(j.here, j.next) && t.ikey.user == user && t.ikey.kind == Deletion && user in BaseKeys(st.version, j.level)
      && IsNewest(JobLayout(st, input).Before(), user, j.smallest, t)
      && IsNewest(EntriesLeft(st.version[j.level + 1], j.next), user, t.ikey.seqno, y) && y.ikey.kind == Value
      && y.ikey.user == user
  {
    hide BaseKeys, EntriesLeft, Shallow, Deep, InputEntries, Sorted, Layout.Before;
    var j := st.job.value;
    user, t, y :| JobLayout(st, input).Exposes(user, t, y, j.smallest, BaseKeys(st.version, j.level));
    assert t in SetOf(input);
  }

  lemma AreResurrected(st: State, n: nat, t: Entry)
    requires |st.version| == NUM_LEVELS && st.job.Some? && st.job.value.level + 1 < NUM_LEVELS
    requires Behind(st.version[st.job.value.level + 1], st.job.value.next, n)
    requires
      var j := st.job.value;
      var files1 := st.version[j.level + 1];
      && 0 < n < |files1| && SharesKey(files1, n) && files1[n].entries != []
      && files1[n].Smallest().kind == Value && files1[n].Smallest().user in BaseKeys(st.version, j.level)
      && t in InputEntries(j.here, j.next) && t.ikey.kind == Deletion
      && IsNewest(st.Contents(), files1[n].Smallest().user, j.smallest, t)
    ensures Resurrects(st)
  {
    hide BaseKeys, IsNewest, InputEntries, Behind, SharesKey, State.Contents;
    assert ReadsTombstone(st, n);
  }

  lemma ResurrectsUnsafe(st: State, input: seq<Entry>, s: IKey, l: IKey)
    requires Inv(st) && st.job.Some? && MergedInput(st.job.value, input) && |st.version| == NUM_LEVELS
    requires st.job.value.level + 1 < NUM_LEVELS && Disjoint(st.version[st.job.value.level + 1])
    requires IsSmallest(st.job.value.here, s) && IsLargest(st.job.value.here, l) && Distinct(st.Contents())
    requires st.job.value.next == Select(st.version[st.job.value.level + 1], Some(s.user), Some(l.user))
    requires InputEntries(st.job.value.here, st.job.value.next)
      + EntriesLeft(st.version[st.job.value.level + 1], st.job.value.next) <= st.Contents()
    requires Resurrects(st)
    ensures !SafeToDrop(st, input)
  {
    hide *;
    JobLayoutValid(st, input);
    var n, t := Tombstone(st);
    var j := st.job.value;
    var y := BoundaryExposes(st.version[j.level + 1], j.here, j.next, s, l, st.Contents(), t, n);
    IsExposed(st, input, t, y);
  }

  lemma Tombstone(st: State) returns (n: nat, t: Entry)
    requires |st.version| == NUM_LEVELS && st.job.Some? && st.job.value.level + 1 < NUM_LEVELS && Resurrects(st)
    ensures
      var j := st.job.value;
      var files1 := st.version[j.level + 1];
      && Behind(files1, j.next, n) && 0 < n < |files1| && SharesKey(files1, n) && files1[n].entries != []
      && files1[n].Smallest().kind == Value && files1[n].Smallest().user in BaseKeys(st.version, j.level)
      && t in InputEntries(j.here, j.next) && t.ikey.kind == Deletion && t.ikey.user == files1[n].Smallest().user
      && t.ikey.seqno <= j.smallest && IsNewest(st.Contents(), t.ikey.user, j.smallest, t)
  {
    hide BaseKeys, InputEntries, SharesKey, State.Contents;
    var j := st.job.value;
    n :| Behind(st.version[j.level + 1], j.next, n) && ReadsTombstone(st, n);
    t :| t in InputEntries(j.here, j.next) && t.ikey.kind == Deletion
      && IsNewest(st.Contents(), st.version[j.level + 1][n].Smallest().user, j.smallest, t);
  }

  lemma IsExposed(st: State, input: seq<Entry>, t: Entry, y: Entry)
    requires |st.version| == NUM_LEVELS && st.job.Some? && st.job.value.level + 1 < NUM_LEVELS
    requires MergedInput(st.job.value, input)
    requires
      var j := st.job.value;
      && t in InputEntries(j.here, j.next) && t.ikey.kind == Deletion && t.ikey.seqno <= j.smallest
      && t.ikey.user in BaseKeys(st.version, j.level)
      && IsNewest(JobLayout(st, input).Before(), t.ikey.user, j.smallest, t)
      && IsNewest(EntriesLeft(st.version[j.level + 1], j.next), t.ikey.user, t.ikey.seqno, y) && y.ikey.kind == Value
    ensures !SafeToDrop(st, input)
  {
    hide BaseKeys, EntriesLeft, Shallow, Deep, InputEntries, Sorted, Layout.Before, IsNewest;
    var j := st.job.value;
    assert t in SetOf(input);
    assert JobLayout(st, input).Exposes(t.ikey.user, t, y, j.smallest, BaseKeys(st.version, j.level));
  }

  /** So the compaction keeps every promised read exactly when it does not resurrect. */
  lemma ReadsKeptIsExact(st: State, input: seq<Entry>)
    requires Inv(st) && st.job.Some? && MergedInput(st.job.value, input)
    ensures |st.version| == NUM_LEVELS && st.job.value.level + 1 < NUM_LEVELS
    ensures JobLayout(st, input).ReadsKept(st.job.value.smallest, BaseKeys(st.version, st.job.value.level)) <==> !Resurrects(st)
  {
    hide *;
    JobGood(st);
    JobLayoutValid(st, input);
    SafeIsExact(st, input);
    SafeMeans(st, input);
    DropRuleIsExact(JobLayout(st, input), st.job.value.smallest, BaseKeys(st.version, st.job.value.level));
  }

  lemma SafeMeans(st: State, input: seq<Entry>)
    requires |st.version| == NUM_LEVELS && st.job.Some? && st.job.value.level + 1 < NUM_LEVELS
    ensures SafeToDrop(st, input) <==> forall user, t, y ::
      !JobLayout(st, input).Exposes(user, t, y, st.job.value.smallest, BaseKeys(st.version, st.job.value.level))
  {
    hide JobLayout, BaseKeys, Layout.Exposes;
  }

  /** With no shared boundary at the output level, the drop rule exposes nothing. */
  lemma NoSharedBoundaryIsSafe(st: State, input: seq<Entry>)
    requires Inv(st) && st.job.Some? && MergedInput(st.job.value, input)
    requires NoSharedBoundary(st.version[st.job.value.level + 1], st.job.value.next)
    ensures SafeToDrop(st, input)
  {
    hide Inv, MergedInput, SafeToDrop, BaseKeys, State.Contents, EntriesLeft, InputEntries, Select;
    SafeIsExact(st, input);
    var s, l := JobRange(st);
    if Resurrects(st) {
      var n, t := Tombstone(st);
      BehindIsLeft(st.version[st.job.value.level + 1], st.job.value.next, s, l, n);
    }
  }

  lemma BehindIsLeft(files1: seq<File>, next: seq<File>, s: IKey, l: IKey, n: nat)
    requires Disjoint(files1) && next == Select(files1, Some(s.user), Some(l.user)) && Behind(files1, next, n)
    ensures files1[n - 1] in next && files1[n] in files1 && files1[n] !in next
  {
    hide Select;
    var i, j := SelectIsRun(files1, Some(s.user), Some(l.user));
    BehindIs(files1, next, i, j, n);
    SpanIsOrdered(files1, n);
  }

  // ---------------------------------------------------------------- any compaction

  /** The running compaction has been merged, written and installed, whatever that exposes. */
  ghost predicate Compacts(st: State, st': State, input: seq<Entry>, outs: seq<File>) {
    && |st.version| == NUM_LEVELS && st.job.Some? && st.job.value.level + 1 < NUM_LEVELS
    && var j := st.job.value;
      && MergedInput(j, input)
      && EntriesOf(outs) == SetOf(Kept(input, |input|, j.smallest, BaseKeys(st.version, j.level)))
      && (forall f :: f in outs ==> st.nextFile <= f.number < st'.nextFile) && st'.nextFile >= st.nextFile
      && Replaces(st.version, j.level, j.here, j.next, outs, st'.version)
      && st' == st.(version := st'.version, nextFile := st'.nextFile, job := None)
  }

  /** Every read at or after the smallest snapshot gives what it gave before. */
  ghost predicate SameReads(st: State, st': State, smallest: nat)
    requires |st.version| == NUM_LEVELS == |st'.version|
  {
    forall user, s: nat :: smallest <= s ==> Answer(st'.Contents(), user, s) == Answer(st.Contents(), user, s)
  }

  /** What a compaction does to reads: nothing, exactly if it does not resurrect. */
  lemma CompactionIsExact(st: State, st': State, input: seq<Entry>, outs: seq<File>)
    requires Inv(st) && Compacts(st, st', input, outs)
    ensures |st.version| == NUM_LEVELS == |st'.version| && st.job.Some? && st.job.value.level + 1 < NUM_LEVELS
    ensures SameReads(st, st', st.job.value.smallest) <==> !Resurrects(st)
  {
    hide *;
    CompactsParts(st, st', input, outs);
    JobGood(st);
    JobLayoutValid(st, input);
    ReadsKeptIsExact(st, input);
    var j := st.job.value;
    ContentsAround(st, j.level, j.here, j.next, outs, st'.version);
    AfterIs(st, st', input, outs);
    SameReadsIs(st, st', JobLayout(st, input), j.smallest, BaseKeys(st.version, j.level));
  }

  lemma CompactsParts(st: State, st': State, input: seq<Entry>, outs: seq<File>)
    requires Compacts(st, st', input, outs)
    ensures |st.version| == NUM_LEVELS && st.job.Some? && st.job.value.level + 1 < NUM_LEVELS
    ensures MergedInput(st.job.value, input)
    ensures Replaces(st.version, st.job.value.level, st.job.value.here, st.job.value.next, outs, st'.version)
    ensures EntriesOf(outs) == SetOf(Kept(input, |input|, st.job.value.smallest, BaseKeys(st.version, st.job.value.level)))
    ensures st' == st.(version := st'.version, nextFile := st'.nextFile, job := None)
  {
    hide MergedInput, Replaces, EntriesOf, Kept, BaseKeys, SetOf;
  }

  lemma AfterIs(st: State, st': State, input: seq<Entry>, outs: seq<File>)
    requires |st.version| == NUM_LEVELS == |st'.version| && st.job.Some? && st.job.value.level + 1 < NUM_LEVELS
    requires EntriesOf(outs) == SetOf(Kept(input, |input|, st.job.value.smallest, BaseKeys(st.version, st.job.value.level)))
    requires st' == st.(version := st'.version, nextFile := st'.nextFile, job := None)
    requires
      var j := st.job.value;
      st.(version := st'.version).Contents() ==
        Shallow(st, j.level, j.here) + EntriesOf(outs) + EntriesLeft(st.version[j.level + 1], j.next) + Deep(st.version, j.level)
    ensures st'.Contents() == JobLayout(st, input).After(st.job.value.smallest, BaseKeys(st.version, st.job.value.level))
  {
    hide EntriesOf, Kept, BaseKeys, SetOf, LevelEntries, Shallow, Deep, EntriesLeft;
    assert st'.Contents() == st.(version := st'.version).Contents();
  }

  lemma SameReadsIs(st: State, st': State, l: Layout, smallest: nat, base: iset<UserKey>)
    requires |st.version| == NUM_LEVELS == |st'.version| && l.Before() == st.Contents() && st'.Contents() == l.After(smallest, base)
    ensures SameReads(st, st', smallest) <==> l.ReadsKept(smallest, base)
  {
    hide State.Contents, Layout.Before, Layout.After, Answer;
  }
}
