/** Which level and file an automatic compaction starts from. */
module Picking {
  import opened Keys
  import opened Files
  import opened Versions
  import opened Selection
  import opened VersionSteps
  import opened Planning

  const L0_COMPACTION_TRIGGER: nat := 4

  /** Ten times more for every level below the first. */
  function MaxBytesForLevel(level: nat): (r: real)
    ensures r > 0.0
  {
    if level <= 1 then 10.0 * 1048576.0 else 10.0 * MaxBytesForLevel(level - 1)
  }

  /** How full a level is: by the number of files at level 0, by their size below. */
  function Score(v: Version, level: nat): real
    requires level < |v|
  {
    if level == 0 then |v[0]| as real / L0_COMPACTION_TRIGGER as real
    else TotalFileSize(v[level]) as real / MaxBytesForLevel(level)
  }

  /** A level is full with four files at level 0, and with 10 MB, 100 MB and so on below. */
  lemma FullIs(v: Version, level: nat)
    requires |v| == NUM_LEVELS && level + 1 < NUM_LEVELS
    ensures Score(v, level) >= 1.0 <==>
      if level == 0 then |v[0]| >= 4
      else TotalFileSize(v[level]) >= [10_485_760, 104_857_600, 1_048_576_000, 10_485_760_000, 104_857_600_000][level - 1]
  {
    hide TotalFileSize;
    assert MaxBytesForLevel(1) == 10_485_760.0;
    assert MaxBytesForLevel(2) == 104_857_600.0;
    assert MaxBytesForLevel(3) == 1_048_576_000.0;
    assert MaxBytesForLevel(4) == 10_485_760_000.0;
    assert MaxBytesForLevel(5) == 104_857_600_000.0;
  }

  /** The bound is the product of a loop. */
  method MaxBytes(level: nat) returns (r: real)
    ensures r == MaxBytesForLevel(level)
  {
    r := 10.0 * 1048576.0;
    var l := level;
    while l > 1
      invariant r * MaxBytesForLevel(l) == MaxBytesForLevel(level) * (10.0 * 1048576.0) && (level <= 1 ==> l == level)
      invariant l <= 1 ==> MaxBytesForLevel(l) == 10.0 * 1048576.0
    {
      assert MaxBytesForLevel(l) == 10.0 * MaxBytesForLevel(l - 1);
      r := r * 10.0;
      l := l - 1;
    }
  }

  /** `VersionSet::Finalize`: the fullest level that has one below it, the first of equals. */
  method Finalize(v: Version) returns (level: nat, score: real)
    requires |v| == NUM_LEVELS
    ensures level + 1 < NUM_LEVELS && score == Score(v, level)
    ensures forall m :: 0 <= m < NUM_LEVELS - 1 ==> Score(v, m) <= score
    ensures forall m :: 0 <= m < level ==> Score(v, m) < score
  {
    hide MaxBytesForLevel, TotalFileSize;
    level, score := 0, -1.0;
    for l := 0 to NUM_LEVELS - 1
      invariant level < NUM_LEVELS && (l == 0 ==> score == -1.0)
      invariant l > 0 ==> level < l && score == Score(v, level)
      invariant forall m :: 0 <= m < l ==> Score(v, m) <= score
      invariant forall m :: 0 <= m < level ==> Score(v, m) < score
    {
      var s := |v[0]| as real / L0_COMPACTION_TRIGGER as real;
      if l > 0 {
        var max := MaxBytes(l);
        s := TotalFileSize(v[l]) as real / max;
      }
      assert s == Score(v, l);
      NotNegative(v, l);
      if s > score {
        level, score := l, s;
      }
    }
  }

  lemma NotNegative(v: Version, level: nat)
    requires level < |v|
    ensures Score(v, level) >= 0.0 && (Score(v, level) > 0.0 ==> v[level] != [])
  {
    if level > 0 {
      var size, max := TotalFileSize(v[level]) as real, MaxBytesForLevel(level);
      assert size / max >= 0.0;
      assert v[level] == [] ==> size == 0.0;
    }
  }

  /** The first file that ends after the compaction pointer, or the first of all. */
  function Turn(files: seq<File>, pointer: Option<IKey>): (i: nat)
    requires files != []
    ensures i < |files|
  {
    var i := FirstAfter(files, pointer);
    if i < |files| then i else 0
  }

  function FirstAfter(files: seq<File>, pointer: Option<IKey>): (i: nat)
    ensures i <= |files| && (i < |files| ==> IsAfter(files[i], pointer)) && forall k :: 0 <= k < i ==> !IsAfter(files[k], pointer)
  {
    if files == [] || IsAfter(files[0], pointer) then 0 else 1 + FirstAfter(files[1..], pointer)
  }

  predicate IsAfter(f: File, pointer: Option<IKey>) { pointer == None || Less(pointer.value, f.Largest()) }

  /** With the pointer at the end of a file, the next one has its turn, and the first one after the last. */
  lemma TurnsComeRound(files: seq<File>, i: nat)
    requires Disjoint(files) && i < |files|
    ensures Turn(files, Some(files[i].Largest())) == if i + 1 < |files| then i + 1 else 0
  {
    var pointer := Some(files[i].Largest());
    forall k | 0 <= k < |files|
      ensures IsAfter(files[k], pointer) <==> k > i
    {
      OwnEnds(files[i]);
      if k < i {
        EntryInRange(files[i], files[i].entries[0]);
        assert Less(files[k].Largest(), files[i].Smallest());
      } else if i < k {
        EntryInRange(files[k], files[k].entries[0]);
        assert Less(files[i].Largest(), files[k].Smallest());
      }
    }
    var n := FirstAfter(files, pointer);
    assert n < |files| ==> IsAfter(files[n], pointer);
    assert i + 1 < |files| ==> IsAfter(files[i + 1], pointer);
  }

  ghost predicate HoldsAfter(f: File, pointer: IKey) {
    exists e :: e in f.entries && Less(pointer, e.ikey)
  }

  /** The file whose turn it is holds the first entries behind the pointer; if there are none, it is the first file. */
  lemma TurnHoldsNext(files: seq<File>, pointer: IKey)
    requires files != []
    ensures
      var i := Turn(files, Some(pointer));
      if exists f :: f in files && HoldsAfter(f, pointer)
      then HoldsAfter(files[i], pointer) && forall k :: 0 <= k < i ==> !HoldsAfter(files[k], pointer)
      else i == 0
  {
    hide HoldsAfter;
    forall f | f in files
      ensures IsAfter(f, Some(pointer)) <==> HoldsAfter(f, pointer)
    {
      LargestIsAfter(f, pointer);
    }
    var n := FirstAfter(files, Some(pointer));
    assert n < |files| ==> files[n] in files;
  }

  lemma LargestIsAfter(f: File, pointer: IKey)
    ensures Less(pointer, f.Largest()) <==> HoldsAfter(f, pointer)
  {
    assert f.entries[|f.entries| - 1] in f.entries;
    if HoldsAfter(f, pointer) {
      var e :| e in f.entries && Less(pointer, e.ikey);
      EntryInRange(f, e);
    }
  }

  lemma OwnEnds(f: File)
    ensures AtMost(f.Smallest(), f.Largest())
  {
    EntryInRange(f, f.entries[|f.entries| - 1]);
  }

  ghost predicate SomeLevelFull(v: Version)
    requires |v| == NUM_LEVELS
  {
    exists m :: 0 <= m < NUM_LEVELS - 1 && Score(v, m) >= 1.0
  }

  /** `PickCompaction`: a level that is too full, else a file that was sought in too often, else nothing. */
  method PickCompaction(v: Version, pointers: seq<Option<IKey>>, seek: Option<(nat, nat)>)
    returns (r: Option<(nat, seq<File>)>)
    requires GoodVersion(v) && |pointers| == NUM_LEVELS
    requires seek.Some? ==> seek.value.0 + 1 < |v| && seek.value.1 < |v[seek.value.0]|
    ensures |v| == NUM_LEVELS && (r.None? <==> !SomeLevelFull(v) && seek.None?)
    ensures r.Some? ==> r.value.0 + 1 < NUM_LEVELS && GoodInputs(r.value.0, v[r.value.0], r.value.1)
    ensures SomeLevelFull(v) ==>
      var (level, inputs) := r.value;
      && (forall m :: 0 <= m < NUM_LEVELS - 1 ==> Score(v, m) <= Score(v, level))
      && (forall m :: 0 <= m < level ==> Score(v, m) < Score(v, level))
      && v[level] != [] && IsPick(v, level, Turn(v[level], pointers[level]), inputs)
    ensures r.Some? && !SomeLevelFull(v) ==>
      r.value.0 == seek.value.0 && IsPick(v, seek.value.0, seek.value.1, r.value.1)
  {
    hide Score, GoodInputs, Turn, GoodVersion, IsPick;
    SevenLevels(v);
    var level, score := Finalize(v);
    if score >= 1.0 {
      NotNegative(v, level);
      var k := 0;
      while k < |v[level]| && !IsAfter(v[level][k], pointers[level])
        invariant k <= |v[level]| && forall j :: 0 <= j < k ==> !IsAfter(v[level][j], pointers[level])
      {
        k := k + 1;
      }
      if k == |v[level]| { k := 0; }
      IsTurn(v[level], pointers[level], k);
      var inputs := PickInputs(v, level, k);
      r := Some((level, inputs));
    } else if seek.Some? {
      var inputs := PickInputs(v, seek.value.0, seek.value.1);
      r := Some((seek.value.0, inputs));
    } else {
      r := None;
    }
  }

  lemma SevenLevels(v: Version)
    requires GoodVersion(v)
    ensures |v| == NUM_LEVELS
  {
  }

  lemma IsTurn(files: seq<File>, pointer: Option<IKey>, k: nat)
    requires k < |files|
    requires (IsAfter(files[k], pointer) && forall j :: 0 <= j < k ==> !IsAfter(files[j], pointer))
      || (k == 0 && forall j :: 0 <= j < |files| ==> !IsAfter(files[j], pointer))
    ensures Turn(files, pointer) == k
  {
  }
}
