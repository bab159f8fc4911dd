/** Which level a flush goes to and which files a compaction takes, for a version of good shape. */
module Planning {
  import opened Keys
  import opened Files
  import opened VersionBuilder
  import opened Versions
  import opened Selection
  import opened VersionSteps
  import opened CompactionSteps

  lemma LevelsGood(v: Version)
    requires GoodVersion(v)
    ensures |v| == NUM_LEVELS && (forall l :: 0 < l < NUM_LEVELS ==> Disjoint(v[l]))
    ensures forall l :: 0 <= l < NUM_LEVELS ==> Ordered(v[l])
  {
    assert forall l :: 0 <= l < NUM_LEVELS ==> LevelOk(v[l], l);
  }

  /** Nothing at the level overlaps the table. */
  ghost predicate Free(v: Version, level: nat, f: File)
    requires level < |v|
  {
    forall g :: g in v[level] ==> !Overlaps(g, Some(f.Smallest().user), Some(f.Largest().user))
  }

  /** A flush goes on from a level when the next one is free and the one after it not overlapped too much. */
  ghost predicate GoesOn(v: Version, level: nat, f: File, maxFileSize: nat)
    requires level + 2 < |v|
  {
    && Free(v, level + 1, f)
    && TotalFileSize(Select(v[level + 2], Some(f.Smallest().user), Some(f.Largest().user))) <= 10 * maxFileSize
  }

  /** How deep a flush goes: not at all if level 0 overlaps it, else on while it may, down to level 2. */
  ghost predicate FlushesTo(v: Version, level: nat, f: File, maxFileSize: nat)
    requires |v| == NUM_LEVELS
  {
    && level <= 2 && (!Free(v, 0, f) ==> level == 0)
    && (Free(v, 0, f) ==>
          (forall m :: 0 <= m < level ==> GoesOn(v, m, f, maxFileSize)) && (level < 2 ==> !GoesOn(v, level, f, maxFileSize)))
  }

  /** `PickLevelForMemTableOutput`: as deep as 2 while nothing on the way overlaps the new table. */
  method PickLevelForMemTableOutput(v: Version, f: File, maxFileSize: nat) returns (level: nat)
    requires GoodVersion(v)
    ensures |v| == NUM_LEVELS && level < NUM_LEVELS && MayFlushTo(v, level, f) && FlushesTo(v, level, f, maxFileSize)
  {
    hide *;
    LevelsGood(v);
    Seven(v);
    HasEntries(f);
    var lo, hi := Some(f.Smallest().user), Some(f.Largest().user);
    level := 0;
    var overlap := SomeFileOverlapsRange(false, v[0], lo, hi);
    FreeIs(v, 0, f);
    if !overlap {
      while level < 2
        invariant level <= 2
        invariant forall m :: 0 <= m <= level ==> Free(v, m, f)
        invariant forall m :: 0 <= m < level ==> GoesOn(v, m, f, maxFileSize)
      {
        GoesOnIs(v, level, f, maxFileSize);
        overlap := SomeFileOverlapsRange(true, v[level + 1], lo, hi);
        FreeIs(v, level + 1, f);
        if overlap {
          break;
        }
        ghost var l, h;
        var grandparents;
        grandparents, l, h := GetOverlappingInputs(level + 2, v[level + 2], lo, hi);
        if TotalFileSize(grandparents) > 10 * maxFileSize {
          break;
        }
        level := level + 1;
      }
    }
    FreeMayFlush(v, level, f);
    FlushesToBy(v, level, f, maxFileSize);
  }

  lemma FlushesToBy(v: Version, level: nat, f: File, maxFileSize: nat)
    requires |v| == NUM_LEVELS && level <= 2 && (!Free(v, 0, f) ==> level == 0)
    requires Free(v, 0, f) ==>
      (forall m :: 0 <= m < level ==> GoesOn(v, m, f, maxFileSize)) && (level < 2 ==> !GoesOn(v, level, f, maxFileSize))
    ensures FlushesTo(v, level, f, maxFileSize)
  {
    hide Free, GoesOn;
  }

  lemma Seven(v: Version)
    requires |v| == NUM_LEVELS
    ensures |v| == 7 == NUM_LEVELS
  {
  }

  lemma HasEntries(f: File)
    ensures f.entries != []
  {
  }

  lemma FreeIs(v: Version, level: nat, f: File)
    requires level < |v|
    ensures Free(v, level, f) <==> !exists g :: g in v[level] && Overlaps(g, Some(f.Smallest().user), Some(f.Largest().user))
  {
    hide Overlaps;
  }

  lemma GoesOnIs(v: Version, level: nat, f: File, maxFileSize: nat)
    requires level + 2 < |v|
    ensures GoesOn(v, level, f, maxFileSize) <==>
      && Free(v, level + 1, f)
      && TotalFileSize(Select(v[level + 2], Some(f.Smallest().user), Some(f.Largest().user))) <= 10 * maxFileSize
  {
  }

  lemma FreeMayFlush(v: Version, level: nat, f: File)
    requires |v| == NUM_LEVELS && level <= 2 && (level > 0 ==> forall m :: 0 <= m <= level ==> Free(v, m, f))
    ensures MayFlushTo(v, level, f)
  {
    hide Overlaps;
    forall m, g | level > 0 && 0 <= m <= level && g in v[m]
      ensures !Overlaps(g, Some(f.Smallest().user), Some(f.Largest().user))
    {
      assert Free(v, m, f);
    }
  }

  /** The first inputs of a compaction that starts from one file: that file, at level 0 with all it touches. */
  ghost predicate IsPick(v: Version, level: nat, i: nat, inputs: seq<File>)
    requires level < |v| && i < |v[level]|
  {
    var f := v[level][i];
    if level == 0 then LeastOverlap(v[0], Some(f.Smallest().user), Some(f.Largest().user), inputs) else inputs == [f]
  }

  /** The first inputs `PickCompaction` chooses, given which file of the level comes next. */
  method PickInputs(v: Version, level: nat, i: nat) returns (inputs: seq<File>)
    requires GoodVersion(v) && level + 1 < |v| && i < |v[level]|
    ensures GoodInputs(level, v[level], inputs) && v[level][i] in inputs && IsPick(v, level, i, inputs)
  {
    LevelsGood(v);
    hide GoodVersion, Disjoint, Overlaps, Select, Closed, Least, LeastOverlap;
    var f := v[level][i];
    inputs := [f];
    if level == 0 {
      ghost var lo, hi;
      inputs, lo, hi := GetOverlappingInputs(0, v[0], Some(f.Smallest().user), Some(f.Largest().user));
      OwnRangeOverlaps(f, lo, hi);
      SelectHas(v[0], f, lo, hi);
      OverlapIsGood(0, v[0], inputs, lo, hi);
    } else {
      assert [f] == v[level][i..i + 1];
    }
  }

  /** The first files, up to the one with which their total size reaches the limit. */
  ghost predicate CutAt(files: seq<File>, r: seq<File>, limit: nat) {
    && r <= files && (files != [] ==> r != []) && (|r| > 1 ==> TotalFileSize(r[..|r| - 1]) < limit)
    && (r != files ==> TotalFileSize(r) >= limit)
  }

  /** `VersionSet::CompactRange`: the overlap with a range, cut short on the deeper levels. */
  method CompactRange(v: Version, level: nat, begin: Bound, end: Bound, maxFileSize: nat) returns (inputs: seq<File>)
    requires GoodVersion(v) && level + 1 < |v|
    ensures inputs == [] <==> forall f :: f in v[level] ==> !Overlaps(f, begin, end)
    ensures inputs != [] ==> GoodInputs(level, v[level], inputs)
    ensures level == 0 ==> LeastOverlap(v[0], begin, end, inputs)
    ensures level > 0 ==> CutAt(Select(v[level], begin, end), inputs, maxFileSize)
  {
    LevelsGood(v);
    hide GoodVersion, Disjoint, Overlaps, Select, Closed, Least, GoodInputs;
    ghost var lo, hi;
    inputs, lo, hi := GetOverlappingInputs(level, v[level], begin, end);
    EmptyOverlap(level, v[level], begin, end, lo, hi);
    if inputs != [] {
      OverlapIsGood(level, v[level], inputs, lo, hi);
      if level > 0 {
        inputs := CutShort(level, v[level], inputs, maxFileSize);
      }
    }
  }

  /** Take files until their total size reaches the limit. */
  method CutShort(level: nat, files: seq<File>, inputs: seq<File>, limit: nat) returns (r: seq<File>)
    requires level > 0 && inputs != [] && GoodInputs(level, files, inputs)
    ensures r != [] && GoodInputs(level, files, r) && CutAt(inputs, r, limit)
  {
    hide GoodInputs;
    var total, k := 0, 0;
    while k < |inputs| && (k == 0 || total < limit)
      invariant 0 <= k <= |inputs| && total == TotalFileSize(inputs[..k])
      invariant k > 1 ==> TotalFileSize(inputs[..k - 1]) < limit
    {
      SizeSnoc(inputs, k);
      total := total + inputs[k].size;
      k := k + 1;
    }
    PrefixIsGood(level, files, inputs, k);
    r := inputs[..k];
    assert r[..|r| - 1] == inputs[..k - 1];
    assert k == |inputs| ==> r == inputs;
  }

  /**
   `SetupOtherInputs` and `IsTrivialMove`: the inputs, whether they are one file over nothing, and the
   compaction pointer.
   */
  method PlanCompaction(v: Version, level: nat, inputs: seq<File>, maxFileSize: nat)
    returns (here: seq<File>, next: seq<File>, lone: bool, pointer: IKey)
    requires GoodVersion(v) && level + 1 < |v| && GoodInputs(level, v[level], inputs)
    ensures ReadyInputs(level, v[level], v[level + 1], here, next) && IsLargest(here, pointer)
    ensures forall f :: f in inputs ==> f in here
    ensures SetUp(level, v[level], v[level + 1], inputs, maxFileSize, here, next)
    ensures lone <==> |here| == 1 && next == [] && FewGrandparents(v, level, here + next, 10 * maxFileSize)
  {
    hide *;
    LevelsGood(v);
    Seven(v);
    here, next, pointer := SetupOtherInputs(level, v[level], v[level + 1], inputs, maxFileSize);
    var bytes := 0;
    if level + 2 < 7 {
      InputsNotEmpty(level, v[level], v[level + 1], here, next);
      var start, limit := GetRange(here + next);
      ghost var lo, hi;
      var grandparents;
      grandparents, lo, hi := GetOverlappingInputs(level + 2, v[level + 2], Some(start.user), Some(limit.user));
      bytes := TotalFileSize(grandparents);
      GrandparentsCounted(v, level, here + next, 10 * maxFileSize, start, limit);
    } else {
      NoGrandparents(v, level, here + next, 10 * maxFileSize);
    }
    lone := |here| == 1 && next == [] && bytes <= 10 * maxFileSize;
  }

  lemma NoGrandparents(v: Version, level: nat, inputs: seq<File>, limit: nat)
    requires |v| == NUM_LEVELS && level + 2 >= NUM_LEVELS
    ensures FewGrandparents(v, level, inputs, limit)
  {
  }

  /** The files two levels down that the inputs' whole range overlaps are not too large. */
  ghost predicate FewGrandparents(v: Version, level: nat, inputs: seq<File>, limit: nat)
    requires |v| == NUM_LEVELS
  {
    level + 2 < NUM_LEVELS ==> forall lo, hi :: IsSmallest(inputs, lo) && IsLargest(inputs, hi) ==>
      TotalFileSize(Select(v[level + 2], Some(lo.user), Some(hi.user))) <= limit
  }

  /** The range of the inputs is unique. */
  lemma GrandparentsCounted(v: Version, level: nat, inputs: seq<File>, limit: nat, lo: IKey, hi: IKey)
    requires |v| == NUM_LEVELS && level + 2 < NUM_LEVELS && IsSmallest(inputs, lo) && IsLargest(inputs, hi)
    ensures FewGrandparents(v, level, inputs, limit) <==>
      TotalFileSize(Select(v[level + 2], Some(lo.user), Some(hi.user))) <= limit
  {
    hide Select, IsSmallest, IsLargest, TotalFileSize;
    forall lo', hi' | IsSmallest(inputs, lo') && IsLargest(inputs, hi')
      ensures lo == lo' && hi == hi'
    {
      OneRange(inputs, lo, lo', hi, hi');
    }
  }

  lemma OneRange(inputs: seq<File>, lo: IKey, lo': IKey, hi: IKey, hi': IKey)
    requires IsSmallest(inputs, lo) && IsSmallest(inputs, lo') && IsLargest(inputs, hi) && IsLargest(inputs, hi')
    ensures lo == lo' && hi == hi'
  {
  }

  /** The edit of a trivial move: remove the file from its level, add it to the next. */
  method MoveFile(v: Version, level: nat, f: File, ghost here: seq<File>) returns (v': Version)
    requires GoodVersion(v) && level + 1 < |v| && here == [f]
    requires ReadyInputs(level, v[level], v[level + 1], here, [])
    ensures Replaces(v, level, [f], [], [f], v')
  {
    LevelsGood(v);
    MovedNumberIsApart(v, level, f);
    hide GoodVersion, ReadyInputs, NoTies, Ordered, Rebuilt;
    AreInOrder(v[level]);
    AreInOrder(v[level + 1]);
    var upper := SaveLevel(v[level], Numbers([f]), []);
    var lower := SaveLevel(v[level + 1], Numbers([]), [f]);
    MoveReplaces(v, level, f, upper, lower);
    v' := v[level := upper][level + 1 := lower];
  }

  lemma OwnRangeOverlaps(f: File, lo: Bound, hi: Bound)
    requires Within(Some(f.Smallest().user), Some(f.Largest().user), lo, hi)
    ensures Overlaps(f, lo, hi)
  {
    EntryInRange(f, f.entries[0]);
  }

  lemma SelectHas(files: seq<File>, f: File, lo: Bound, hi: Bound)
    requires f in files && Overlaps(f, lo, hi)
    ensures f in Select(files, lo, hi) && Select(files, lo, hi) != []
  {
  }

  lemma EmptyOverlap(level: nat, files: seq<File>, begin: Bound, end: Bound, lo: Bound, hi: Bound)
    requires if level == 0 then Within(begin, end, lo, hi) && Least(files, begin, end, lo, hi) else lo == begin && hi == end
    ensures Select(files, lo, hi) == [] <==> forall f :: f in files ==> !Overlaps(f, begin, end)
  {
    if forall f :: f in files ==> !Overlaps(f, begin, end) {
      if level == 0 {
        assert Closed(files, begin, end) && Within(begin, end, begin, end);
        assert Within(lo, hi, begin, end);
        assert lo == begin && hi == end;
      }
      if f :| f in Select(files, lo, hi) {
      }
    } else {
      var f :| f in files && Overlaps(f, begin, end);
      assert Overlaps(f, lo, hi);
      assert f in Select(files, lo, hi);
    }
  }

  lemma PrefixIsGood(level: nat, files: seq<File>, inputs: seq<File>, k: nat)
    requires level > 0 && GoodInputs(level, files, inputs) && 0 < k <= |inputs|
    ensures GoodInputs(level, files, inputs[..k])
  {
    hide Disjoint;
    var i, j :| 0 <= i < j <= |files| && inputs == files[i..j];
    assert inputs[..k] == files[i..i + k];
  }

  lemma InputsNotEmpty(level: nat, files: seq<File>, files1: seq<File>, here: seq<File>, next: seq<File>)
    requires ReadyInputs(level, files, files1, here, next)
    ensures here != []
  {
  }

  lemma MovedNumberIsApart(v: Version, level: nat, f: File)
    requires GoodVersion(v) && level + 1 < |v| && ReadyInputs(level, v[level], v[level + 1], [f], [])
    ensures NoTies(v[level + 1], [f]) && Ordered([f]) && Ordered([]) && NoTies(v[level], [])
    ensures f in v[level]
  {
    InputsAreFiles(level, v[level], [f]);
    hide VersionOk, ReadyInputs;
    assert f in [f];
    forall g | g in v[level + 1]
      ensures g.number != f.number
    {
    }
  }

  /** Moving a file that overlaps nothing below is a compaction whose output is that file. */
  lemma MoveReplaces(v: Version, level: nat, f: File, upper: seq<File>, lower: seq<File>)
    requires |v| == NUM_LEVELS && GoodVersion(v) && level + 1 < NUM_LEVELS && f in v[level]
    requires ReadyInputs(level, v[level], v[level + 1], [f], [])
    requires Rebuilt(v[level], Numbers([f]), [], upper) && Rebuilt(v[level + 1], Numbers([]), [f], lower)
    ensures Replaces(v, level, [f], [], [f], v[level := upper][level + 1 := lower])
  {
    hide ReadyInputs, Rebuilt, NewerAboveOlder, EntriesOf;
    forall m, g | 0 <= m < NUM_LEVELS && g in v[m] && g.number == f.number
      ensures m == level && g in [f]
    {
      assert LevelOk(v[level], level);
    }
  }
}
