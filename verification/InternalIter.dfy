/** The children of the internal iterator: memtables, level-0 tables, one run per deeper level. */
module InternalIter {
  import opened Keys
  import opened Files
  import opened Reads
  import opened DropRule
  import opened VersionBuilder
  import opened Versions
  import opened Merger

  /** The children hold exactly the entries of `covered`, each in one of them. */
  ghost predicate Covers(lists: seq<seq<Entry>>, covered: set<Entry>) {
    && AllSorted(lists) && NoSharedKeys(lists)
    && forall e :: e in covered <==> exists i :: 0 <= i < |lists| && e in lists[i]
  }

  lemma AddChild(lists: seq<seq<Entry>>, covered: set<Entry>, es: seq<Entry>)
    requires Covers(lists, covered) && Sorted(es)
    requires covered !! SetOf(es) && Distinct(covered + SetOf(es))
    ensures Covers(lists + [es], covered + SetOf(es))
  {
    var r := lists + [es];
    forall i, j, x: Entry, y: Entry | 0 <= i < j < |r| && x in r[i] && y in r[j]
      ensures x.ikey != y.ikey
    {
      if j == |lists| {
        assert x in lists[i];
        assert x in covered && y in SetOf(es);
      }
    }
    forall e
      ensures e in covered + SetOf(es) <==> exists i :: 0 <= i < |r| && e in r[i]
    {
      if e in covered {
        var i :| 0 <= i < |lists| && e in lists[i];
        assert e in r[i];
      }
      if e in SetOf(es) {
        assert e in r[|lists|];
      }
    }
  }

  /** The entries of the files of one level, one file after the other. */
  function Concat(files: seq<File>): seq<Entry> {
    if files == [] then [] else files[0].entries + Concat(files[1..])
  }

  lemma {:induction false} ConcatHolds(files: seq<File>)
    ensures SetOf(Concat(files)) == EntriesOf(files)
  {
    if files == [] {
      assert EntriesOf(files) == {};
    } else {
      ConcatHolds(files[1..]);
      assert files == [files[0]] + files[1..];
      forall e
        ensures e in SetOf(Concat(files)) <==> e in EntriesOf(files)
      {
        assert e in Concat(files) <==> e in files[0].entries || e in SetOf(Concat(files[1..]));
        if e in EntriesOf(files) {
          var f :| f in files && e in f.entries;
          assert f != files[0] ==> f in files[1..];
        }
      }
    }
  }

  lemma {:induction false} ConcatSorted(files: seq<File>)
    requires Disjoint(files)
    ensures Sorted(Concat(files))
  {
    if files != [] {
      var rest := files[1..];
      ConcatSorted(rest);
      ConcatHolds(rest);
      forall x, y | x in files[0].entries && y in Concat(rest)
        ensures Less(x.ikey, y.ikey)
      {
        assert y in SetOf(Concat(rest));
        var f :| f in rest && y in f.entries;
        var k :| 0 <= k < |rest| && rest[k] == f;
        assert f == files[k + 1];
        EntryInRange(files[0], x);
        EntryInRange(f, y);
      }
      SortedJoin(files[0].entries, Concat(rest));
    }
  }

  lemma SortedJoin(a: seq<Entry>, b: seq<Entry>)
    requires Sorted(a) && Sorted(b) && forall x, y :: x in a && y in b ==> Less(x.ikey, y.ikey)
    ensures Sorted(a + b)
  {
  }

  /** One child per level-0 table. */
  method Level0Children(lists: seq<seq<Entry>>, ghost covered: set<Entry>, files: seq<File>)
    returns (r: seq<seq<Entry>>)
    requires Covers(lists, covered) && LevelOk(files, 0)
    requires covered !! EntriesOf(files) && Distinct(covered + EntriesOf(files))
    ensures Covers(r, covered + EntriesOf(files))
  {
    r := lists;
    assert covered + EntriesOf(files[..0]) == covered;
    for i := 0 to |files|
      invariant Covers(r, covered + EntriesOf(files[..i]))
    {
      NextTable(files, i, covered);
      AddChild(r, covered + EntriesOf(files[..i]), files[i].entries);
      r := r + [files[i].entries];
    }
    assert files[..|files|] == files;
  }

  lemma NextTable(files: seq<File>, i: nat, covered: set<Entry>)
    requires LevelOk(files, 0) && i < |files|
    requires covered !! EntriesOf(files) && Distinct(covered + EntriesOf(files))
    ensures covered + EntriesOf(files[..i + 1]) == covered + EntriesOf(files[..i]) + SetOf(files[i].entries)
    ensures covered + EntriesOf(files[..i]) !! SetOf(files[i].entries)
    ensures Distinct(covered + EntriesOf(files[..i]) + SetOf(files[i].entries))
  {
    assert files[..i + 1] == files[..i] + [files[i]];
    assert EntriesOf(files[..i]) <= EntriesOf(files);
    assert SetOf(files[i].entries) <= EntriesOf(files);
    forall x | x in EntriesOf(files[..i])
      ensures x !in SetOf(files[i].entries)
    {
      var f :| f in files[..i] && x in f.entries;
      TablesApart(files, f, files[i], i);
      assert x in SetOf(f.entries);
    }
  }

  lemma TablesApart(files: seq<File>, f: File, g: File, i: nat)
    requires LevelOk(files, 0) && i < |files| && f in files[..i] && g == files[i]
    ensures SetOf(f.entries) !! SetOf(g.entries)
  {
    var k :| 0 <= k < i && files[k] == f;
    assert Before(files[k], files[i]);
    assert f != g;
    if f.number > g.number {
      AboveApart(SetOf(f.entries), SetOf(g.entries));
    } else {
      AboveApart(SetOf(g.entries), SetOf(f.entries));
    }
  }

  /** `Version::AddIterators`: the level-0 tables, then a concatenation per non-empty deeper level. */
  method AddIterators(lists: seq<seq<Entry>>, ghost covered: set<Entry>, v: Version) returns (r: seq<seq<Entry>>)
    requires VersionOk(v) && Covers(lists, covered)
    requires covered !! LevelEntries(v, 0, NUM_LEVELS) && Distinct(covered + LevelEntries(v, 0, NUM_LEVELS))
    ensures Covers(r, covered + LevelEntries(v, 0, NUM_LEVELS))
  {
    hide Covers, EntriesOf, LevelOk;
    LevelsUpTo(v, 0, covered);
    r := Level0Children(lists, covered, v[0]);
    assert covered + {} == covered;
    for level := 1 to NUM_LEVELS
      invariant Covers(r, covered + LevelEntries(v, 0, level))
    {
      LevelsUpTo(v, level, covered);
      if v[level] != [] {
        DeepLevel(v[level], level);
        AddChild(r, covered + LevelEntries(v, 0, level), Concat(v[level]));
        r := r + [Concat(v[level])];
      } else {
        NoFiles();
        assert covered + LevelEntries(v, 0, level) + {} == covered + LevelEntries(v, 0, level);
      }
    }
  }

  lemma NoFiles()
    ensures EntriesOf([]) == {}
  {
  }

  lemma DeepLevel(files: seq<File>, level: nat)
    requires level > 0 && LevelOk(files, level)
    ensures Sorted(Concat(files)) && SetOf(Concat(files)) == EntriesOf(files)
  {
    ConcatSorted(files);
    ConcatHolds(files);
  }

  lemma LevelsUpTo(v: Version, level: nat, covered: set<Entry>)
    requires VersionOk(v) && level < NUM_LEVELS
    requires covered !! LevelEntries(v, 0, NUM_LEVELS) && Distinct(covered + LevelEntries(v, 0, NUM_LEVELS))
    ensures LevelOk(v[level], level)
    ensures covered + LevelEntries(v, 0, level + 1) == covered + LevelEntries(v, 0, level) + EntriesOf(v[level])
    ensures level == 0 ==> LevelEntries(v, 0, level) == {}
    ensures covered + LevelEntries(v, 0, level) !! EntriesOf(v[level])
    ensures Distinct(covered + LevelEntries(v, 0, level) + EntriesOf(v[level]))
    ensures Distinct(covered + EntriesOf(v[level])) && covered !! EntriesOf(v[level])
  {
    LevelsJoin(v, level, covered);
    LevelApart(v, level);
    LevelOnDisk(v, level);
    hide EntriesOf, LevelEntries, LevelOk, NewerAboveOlder;
  }

  lemma LevelsJoin(v: Version, level: nat, covered: set<Entry>)
    requires level < |v| == NUM_LEVELS
    ensures LevelEntries(v, 0, level + 1) == LevelEntries(v, 0, level) + EntriesOf(v[level])
    ensures covered + LevelEntries(v, 0, level + 1) == covered + LevelEntries(v, 0, level) + EntriesOf(v[level])
    ensures level == 0 ==> LevelEntries(v, 0, level) == {}
  {
    assert LevelEntries(v, 0, 0) == {};
    hide EntriesOf, LevelEntries;
    forall e
      ensures e in LevelEntries(v, 0, level + 1) <==> e in LevelEntries(v, 0, level) + EntriesOf(v[level])
    {
      InLevels(v, 0, level + 1, e);
      InLevels(v, 0, level, e);
    }
  }

  lemma LevelOnDisk(v: Version, level: nat)
    requires level < |v| == NUM_LEVELS
    ensures LevelEntries(v, 0, level + 1) <= LevelEntries(v, 0, NUM_LEVELS)
  {
    hide EntriesOf, LevelEntries;
    forall e | e in LevelEntries(v, 0, level + 1)
      ensures e in LevelEntries(v, 0, NUM_LEVELS)
    {
      InLevels(v, 0, level + 1, e);
      InLevels(v, 0, NUM_LEVELS, e);
    }
  }

  lemma LevelApart(v: Version, level: nat)
    requires VersionOk(v) && level < NUM_LEVELS
    ensures LevelEntries(v, 0, level) !! EntriesOf(v[level])
  {
    hide EntriesOf, LevelEntries, LevelOk;
    forall e | e in LevelEntries(v, 0, level)
      ensures e !in EntriesOf(v[level])
    {
      InLevels(v, 0, level, e);
      var l :| 0 <= l < level && e in EntriesOf(v[l]);
      AboveApart(EntriesOf(v[l]), EntriesOf(v[level]));
    }
  }
}
