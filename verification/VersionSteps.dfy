/** Every way a version changes keeps its shape: a flush adds a file, a compaction replaces files. */
module VersionSteps {
  import opened Keys
  import opened Files
  import opened Reads
  import opened DropRule
  import opened VersionBuilder
  import opened Versions

  /** A file number is used at one level only. */
  ghost predicate NumbersApart(v: Version) {
    forall l, m, f, g :: 0 <= l < m < |v| && f in v[l] && g in v[m] ==> f.number != g.number
  }

  ghost predicate GoodVersion(v: Version) { VersionOk(v) && NumbersApart(v) }

  ghost predicate Apart(f: File, g: File) {
    Less(f.Largest(), g.Smallest()) || Less(g.Largest(), f.Smallest())
  }

  lemma OrderedDisjoint(files: seq<File>)
    requires Ordered(files)
    requires forall f, g :: f in files && g in files && f != g ==> Apart(f, g)
    ensures Disjoint(files)
  {
    forall i, j | 0 <= i < j < |files|
      ensures Less(files[i].Largest(), files[j].Smallest())
    {
      assert Before(files[i], files[j]);
      assert Apart(files[i], files[j]);
      EntryInRange(files[i], files[i].entries[0]);
      EntryInRange(files[j], files[j].entries[0]);
    }
  }

  lemma DisjointApart(files: seq<File>, f: File, g: File)
    requires Disjoint(files) && f in files && g in files && f != g
    ensures Apart(f, g)
  {
    var i :| 0 <= i < |files| && files[i] == f;
    var j :| 0 <= j < |files| && files[j] == g;
  }

  /** Deleting by number removes exactly the chosen files. */
  lemma DeletedByNumber(files: seq<File>, chosen: seq<File>, added: seq<File>, r: seq<File>)
    requires DistinctNumbers(files) && (forall f :: f in chosen ==> f in files)
    requires Rebuilt(files, Numbers(chosen), added, r)
    requires forall f :: f in added ==> f.number !in Numbers(chosen)
    ensures forall f :: f in r <==> (f in files && f !in chosen) || f in added
  {
    forall f | f in files
      ensures f.number in Numbers(chosen) <==> f in chosen
    {
    }
  }

  lemma FewerFilesOk(files: seq<File>, level: nat, r: seq<File>)
    requires LevelOk(files, level) && Ordered(r) && forall f :: f in r ==> f in files
    ensures LevelOk(r, level)
  {
    if level > 0 {
      forall f, g | f in r && g in r && f != g
        ensures Apart(f, g)
      {
        DisjointApart(files, f, g);
      }
      OrderedDisjoint(r);
    }
  }

  lemma AboveSplits(v: Version, l: nat, m: nat, x: Entry, y: Entry)
    requires NewerAboveOlder(v) && l < m < |v|
    requires x in EntriesOf(v[l]) && y in EntriesOf(v[m]) && x.ikey.user == y.ikey.user
    ensures Less(x.ikey, y.ikey)
  {
    assert Above(EntriesOf(v[l]), EntriesOf(v[m]));
  }

  // ---------------------------------------------------------------- flush

  /** The level a memtable table may go to: nothing at or above it overlaps, unless it is level 0. */
  ghost predicate MayFlushTo(v: Version, level: nat, f: File)
    requires |v| == NUM_LEVELS
  {
    && level <= 2
    && (level > 0 ==> forall m, g :: 0 <= m <= level && g in v[m] ==>
          !Overlaps(g, Some(f.Smallest().user), Some(f.Largest().user)))
  }

  lemma NoOverlapNoKey(g: File, f: File, x: Entry, y: Entry)
    requires !Overlaps(g, Some(f.Smallest().user), Some(f.Largest().user))
    requires x in g.entries && y in f.entries
    ensures x.ikey.user != y.ikey.user && Apart(f, g)
  {
    EntryInRange(g, x);
    EntryInRange(f, y);
  }

  lemma FlushedLevelOk(v: Version, level: nat, f: File, r: seq<File>)
    requires GoodVersion(v) && level < NUM_LEVELS && MayFlushTo(v, level, f)
    requires forall g :: g in v[level] ==> g.number < f.number
    requires Above(SetOf(f.entries), EntriesOf(v[level]))
    requires Rebuilt(v[level], {}, [f], r)
    ensures LevelOk(r, level)
  {
    if level > 0 {
      forall g, h | g in r && h in r && g != h
        ensures Apart(g, h)
      {
        if g in v[level] && h in v[level] {
          DisjointApart(v[level], g, h);
        } else if g in v[level] {
          NoOverlapNoKey(g, f, g.entries[0], f.entries[0]);
        } else {
          NoOverlapNoKey(h, f, h.entries[0], f.entries[0]);
        }
      }
      OrderedDisjoint(r);
    } else {
      forall g, h | g in r && h in r && g.number > h.number
        ensures Above(SetOf(g.entries), SetOf(h.entries))
      {
        if g !in v[level] {
          assert forall e :: e in SetOf(h.entries) ==> e in EntriesOf(v[level]);
        }
      }
    }
  }

  lemma FlushKeepsOrder(v: Version, level: nat, f: File, r: seq<File>, l: nat, m: nat, x: Entry, y: Entry)
    requires VersionOk(v) && level < NUM_LEVELS && MayFlushTo(v, level, f)
    requires Above(SetOf(f.entries), LevelEntries(v, 0, NUM_LEVELS))
    requires EntriesOf(r) == EntriesOf(v[level]) + SetOf(f.entries)
    requires l < m < NUM_LEVELS && x.ikey.user == y.ikey.user
    requires x in EntriesOf(v[level := r][l]) && y in EntriesOf(v[level := r][m])
    ensures Less(x.ikey, y.ikey)
  {
    hide LevelOk;
    if x in EntriesOf(v[l]) {
      if y in EntriesOf(v[m]) {
        AboveSplits(v, l, m, x, y);
      } else {
        var g :| g in v[l] && x in g.entries;
        NoOverlapNoKey(g, f, x, y);
      }
    } else {
      InLevels(v, 0, NUM_LEVELS, y);
    }
  }

  lemma FlushContents(v: Version, level: nat, f: File, r: seq<File>)
    requires level < |v| == NUM_LEVELS
    requires EntriesOf(r) == EntriesOf(v[level]) + SetOf(f.entries)
    ensures LevelEntries(v[level := r], 0, NUM_LEVELS) == LevelEntries(v, 0, NUM_LEVELS) + SetOf(f.entries)
  {
    hide EntriesOf, LevelEntries;
    var v' := v[level := r];
    forall e
      ensures e in LevelEntries(v', 0, NUM_LEVELS) <==> e in LevelEntries(v, 0, NUM_LEVELS) + SetOf(f.entries)
    {
      InLevels(v', 0, NUM_LEVELS, e);
      InLevels(v, 0, NUM_LEVELS, e);
      if e in SetOf(f.entries) {
        assert e in EntriesOf(v'[level]);
      }
      if e in LevelEntries(v, 0, NUM_LEVELS) {
        var l :| 0 <= l < NUM_LEVELS && e in EntriesOf(v[l]);
        assert e in EntriesOf(v'[l]);
      }
    }
  }

  lemma AddedEntries(files: seq<File>, deleted: set<nat>, f: File, r: seq<File>)
    requires Rebuilt(files, deleted, [f], r) && deleted == {}
    ensures EntriesOf(r) == EntriesOf(files) + SetOf(f.entries)
    ensures forall g :: g in r ==> g in files || g == f
  {
  }

  /** Installing a flushed table at the chosen level. */
  lemma FlushKeepsVersion(v: Version, level: nat, f: File, r: seq<File>)
    requires GoodVersion(v) && level < NUM_LEVELS && MayFlushTo(v, level, f)
    requires forall l, g :: 0 <= l < NUM_LEVELS && g in v[l] ==> g.number < f.number
    requires Above(SetOf(f.entries), LevelEntries(v, 0, NUM_LEVELS))
    requires Rebuilt(v[level], {}, [f], r)
    ensures GoodVersion(v[level := r])
    ensures LevelEntries(v[level := r], 0, NUM_LEVELS) == LevelEntries(v, 0, NUM_LEVELS) + SetOf(f.entries)
  {
    hide EntriesOf, LevelEntries, Rebuilt, LevelOk, MayFlushTo;
    var v' := v[level := r];
    AddedEntries(v[level], {}, f, r);
    FlushContents(v, level, f, r);
    LevelBelowAll(v, level, f);
    FlushedLevelOk(v, level, f, r);
    forall l, m | 0 <= l < m < NUM_LEVELS
      ensures Above(EntriesOf(v'[l]), EntriesOf(v'[m]))
    {
      forall x, y | x in EntriesOf(v'[l]) && y in EntriesOf(v'[m]) && x.ikey.user == y.ikey.user
        ensures Less(x.ikey, y.ikey)
      {
        FlushKeepsOrder(v, level, f, r, l, m, x, y);
      }
    }
  }

  lemma LevelBelowAll(v: Version, level: nat, f: File)
    requires level < |v| == NUM_LEVELS
    requires Above(SetOf(f.entries), LevelEntries(v, 0, NUM_LEVELS))
    ensures Above(SetOf(f.entries), EntriesOf(v[level]))
  {
    forall y | y in EntriesOf(v[level])
      ensures y in LevelEntries(v, 0, NUM_LEVELS)
    {
      InLevels(v, 0, NUM_LEVELS, y);
    }
  }
}
