/** Replacing compaction inputs by outputs one level down keeps the version's shape. */
module CompactionSteps {
  import opened Keys
  import opened Files
  import opened Reads
  import opened DropRule
  import opened VersionBuilder
  import opened Versions
  import opened Selection
  import opened VersionSteps

  /** The output tables: entries of the inputs only, in tables that do not interleave, newly numbered. */
  ghost predicate OutputsOk(v: Version, l: nat, here: seq<File>, next: seq<File>, outs: seq<File>)
    requires l + 1 < |v|
  {
    && EntriesOf(outs) <= EntriesOf(here) + EntriesOf(next)
    && (forall f, g :: f in outs && g in outs && f != g ==> Apart(f, g) && f.number != g.number)
    // a moved file keeps its number; every other output has a fresh one
    && (forall f, m, g :: f in outs && 0 <= m < |v| && g in v[m] && g.number == f.number ==> m == l && g in here)
  }

  /** The edit a compaction installs. */
  ghost predicate Replaces(v: Version, l: nat, here: seq<File>, next: seq<File>, outs: seq<File>, v': Version) {
    && |v| == |v'| == NUM_LEVELS && l + 1 < NUM_LEVELS
    && ReadyInputs(l, v[l], v[l + 1], here, next)
    && OutputsOk(v, l, here, next, outs)
    && (forall m :: 0 <= m < NUM_LEVELS && m != l && m != l + 1 ==> v'[m] == v[m])
    && Rebuilt(v[l], Numbers(here), [], v'[l])
    && Rebuilt(v[l + 1], Numbers(next), outs, v'[l + 1])
  }

  lemma ReadyAreFiles(v: Version, l: nat, here: seq<File>, next: seq<File>)
    requires l + 1 < |v| && ReadyInputs(l, v[l], v[l + 1], here, next)
    ensures forall f :: f in here ==> f in v[l]
    ensures forall f :: f in next ==> f in v[l + 1]
  {
    InputsAreFiles(l, v[l], here);
  }

  /** What is at the two levels afterwards. */
  lemma Members(v: Version, l: nat, here: seq<File>, next: seq<File>, outs: seq<File>, v': Version)
    requires VersionOk(v) && Replaces(v, l, here, next, outs, v')
    ensures forall f :: f in v'[l] <==> f in v[l] && f !in here
    ensures forall f :: f in v'[l + 1] <==> (f in v[l + 1] && f !in next) || f in outs
    ensures Ordered(v'[l]) && Ordered(v'[l + 1])
  {
    hide ReadyInputs, NewerAboveOlder, Disjoint, NewestNumberFirst;
    ReadyAreFiles(v, l, here, next);
    assert LevelOk(v[l], l) && LevelOk(v[l + 1], l + 1);
    DeletedByNumber(v[l], here, [], v'[l]);
    forall f | f in outs
      ensures f.number !in Numbers(next)
    {
      forall g | g in next
        ensures g.number != f.number
      {
      }
    }
    DeletedByNumber(v[l + 1], next, outs, v'[l + 1]);
  }

  ghost predicate AllBefore(es: set<Entry>, k: IKey) { forall x :: x in es ==> Less(x.ikey, k) }

  ghost predicate AllAfter(k: IKey, es: set<Entry>) { forall x :: x in es ==> Less(k, x.ikey) }

  /** A file left at the output level lies wholly before or wholly after all inputs. */
  lemma LeftFileIsOutside(v: Version, l: nat, here: seq<File>, next: seq<File>, g: File)
    requires VersionOk(v) && l + 1 < NUM_LEVELS && ReadyInputs(l, v[l], v[l + 1], here, next)
    requires g in v[l + 1] && g !in next
    ensures
      var inputs := EntriesOf(here) + EntriesOf(next);
      AllBefore(inputs, g.Smallest()) || AllAfter(g.Largest(), inputs)
  {
    var s, t :| IsSmallest(here, s) && IsLargest(here, t) && next == Select(v[l + 1], Some(s.user), Some(t.user));
    assert LevelOk(v[l + 1], l + 1);
    EntryInRange(g, g.entries[0]);
    if g.Largest().user < s.user {
      forall x | x in EntriesOf(here) + EntriesOf(next)
        ensures Less(g.Largest(), x.ikey)
      {
        OutsideBelow(v[l + 1], here, next, s, t, g, x);
      }
    } else {
      forall x | x in EntriesOf(here) + EntriesOf(next)
        ensures Less(x.ikey, g.Smallest())
      {
        OutsideAbove(v[l + 1], here, next, s, t, g, x);
      }
    }
  }

  lemma OutsideBelow(files: seq<File>, here: seq<File>, next: seq<File>, s: IKey, t: IKey, g: File, x: Entry)
    requires Disjoint(files) && IsSmallest(here, s) && next == Select(files, Some(s.user), Some(t.user))
    requires g in files && g.Largest().user < s.user
    requires x in EntriesOf(here) + EntriesOf(next)
    ensures Less(g.Largest(), x.ikey)
  {
    if x in EntriesOf(here) {
      var f :| f in here && x in f.entries;
      hide Select, Disjoint, EntriesOf, FileData.Valid;
      EntryInRange(f, x);
    } else {
      var f :| f in next && x in f.entries;
      hide IsSmallest, Disjoint, EntriesOf;
      EntryInRange(f, x);
      EntryInRange(g, g.entries[0]);
      DisjointApart(files, f, g);
    }
  }

  lemma OutsideAbove(files: seq<File>, here: seq<File>, next: seq<File>, s: IKey, t: IKey, g: File, x: Entry)
    requires Disjoint(files) && IsLargest(here, t) && next == Select(files, Some(s.user), Some(t.user))
    requires g in files && t.user < g.Smallest().user
    requires x in EntriesOf(here) + EntriesOf(next)
    ensures Less(x.ikey, g.Smallest())
  {
    if x in EntriesOf(here) {
      var f :| f in here && x in f.entries;
      EntryInRange(f, x);
    } else {
      var f :| f in next && x in f.entries;
      EntryInRange(f, x);
      EntryInRange(g, g.entries[0]);
      DisjointApart(files, f, g);
    }
  }

  lemma OutsideIsApart(inputs: set<Entry>, f: File, g: File)
    requires SetOf(f.entries) <= inputs
    requires AllBefore(inputs, g.Smallest()) || AllAfter(g.Largest(), inputs)
    ensures Apart(f, g) && Apart(g, f)
  {
    var first, last := f.entries[0], f.entries[|f.entries| - 1];
    assert first in SetOf(f.entries) && last in SetOf(f.entries);
  }

  lemma OutputApart(v: Version, l: nat, here: seq<File>, next: seq<File>, outs: seq<File>, f: File, g: File)
    requires VersionOk(v) && l + 1 < NUM_LEVELS && ReadyInputs(l, v[l], v[l + 1], here, next)
    requires EntriesOf(outs) <= EntriesOf(here) + EntriesOf(next)
    requires f in outs && g in v[l + 1] && g !in next
    ensures Apart(f, g) && Apart(g, f)
  {
    hide VersionOk, ReadyInputs, AllBefore, AllAfter;
    LeftFileIsOutside(v, l, here, next, g);
    assert forall e :: e in f.entries ==> e in EntriesOf(outs);
    OutsideIsApart(EntriesOf(here) + EntriesOf(next), f, g);
  }

  lemma MixedLevelOk(files: seq<File>, next: seq<File>, outs: seq<File>, r: seq<File>, level: nat)
    requires level > 0 && LevelOk(files, level) && Ordered(r)
    requires forall f :: f in r <==> (f in files && f !in next) || f in outs
    requires forall f, g :: f in outs && g in outs && f != g ==> Apart(f, g) && f.number != g.number
    requires forall f, g :: f in outs && g in files && g !in next ==>
      Apart(f, g) && Apart(g, f) && f.number != g.number
    ensures LevelOk(r, level)
  {
    hide Apart, Ordered, Disjoint;
    forall f, g | f in r && g in r && f != g
      ensures Apart(f, g) && f.number != g.number
    {
      if f in files && g in files && f !in next && g !in next {
        DisjointApart(files, f, g);
      }
    }
    OrderedDisjoint(r);
  }

  lemma OutputLevelOk(v: Version, l: nat, here: seq<File>, next: seq<File>, outs: seq<File>, v': Version)
    requires GoodVersion(v) && Replaces(v, l, here, next, outs, v')
    ensures LevelOk(v'[l], l) && LevelOk(v'[l + 1], l + 1)
  {
    hide *;
    GoodLevels(v, l, here, next, outs, v');
    Members(v, l, here, next, outs, v');
    OutputsOutside(v, l, here, next, outs, v');
    FewerFilesOk(v[l], l, v'[l]);
    MixedLevelOk(v[l + 1], next, outs, v'[l + 1], l + 1);
  }

  lemma GoodLevels(v: Version, l: nat, here: seq<File>, next: seq<File>, outs: seq<File>, v': Version)
    requires GoodVersion(v) && Replaces(v, l, here, next, outs, v')
    ensures VersionOk(v) && |v| == |v'| == NUM_LEVELS && l + 1 < NUM_LEVELS
    ensures LevelOk(v[l], l) && LevelOk(v[l + 1], l + 1) && Ordered(v'[l]) && Ordered(v'[l + 1])
  {
    hide LevelOk, OutputsOk, ReadyInputs, NumbersApart, NewerAboveOlder, Ordered;
  }

  lemma OutputsOutside(v: Version, l: nat, here: seq<File>, next: seq<File>, outs: seq<File>, v': Version)
    requires VersionOk(v) && Replaces(v, l, here, next, outs, v')
    ensures forall f, g :: f in outs && g in outs && f != g ==> Apart(f, g) && f.number != g.number
    ensures forall f, g :: f in outs && g in v[l + 1] && g !in next ==>
      Apart(f, g) && Apart(g, f) && f.number != g.number
  {
    hide ReadyInputs, Apart, EntriesOf, LevelOk, NewerAboveOlder, Rebuilt;
    forall f, g | f in outs && g in v[l + 1] && g !in next
      ensures Apart(f, g) && Apart(g, f)
    {
      OutputApart(v, l, here, next, outs, f, g);
    }
  }

  /** Where a file of the new version comes from. */
  lemma FileCameFrom(v: Version, l: nat, here: seq<File>, next: seq<File>, outs: seq<File>, v': Version, m: nat, f: File)
    requires VersionOk(v) && Replaces(v, l, here, next, outs, v') && m < NUM_LEVELS && f in v'[m]
    ensures f in v[m] || (m == l + 1 && f in outs)
    ensures m == l ==> f in v[l] && f !in here
  {
    hide *;
    Members(v, l, here, next, outs, v');
    SameElsewhere(v, l, here, next, outs, v', m);
  }

  lemma SameElsewhere(v: Version, l: nat, here: seq<File>, next: seq<File>, outs: seq<File>, v': Version, m: nat)
    requires Replaces(v, l, here, next, outs, v') && m < NUM_LEVELS
    ensures |v| == |v'| == NUM_LEVELS && l + 1 < NUM_LEVELS
    ensures m != l && m != l + 1 ==> v'[m] == v[m]
  {
  }

  lemma OutputEntries(v: Version, l: nat, here: seq<File>, next: seq<File>, outs: seq<File>, v': Version, f: File, x: Entry)
    requires VersionOk(v) && Replaces(v, l, here, next, outs, v') && f in outs && x in f.entries
    ensures (x in EntriesOf(here) && x in EntriesOf(v[l])) || x in EntriesOf(v[l + 1])
  {
    ReadyAreFiles(v, l, here, next);
    assert x in EntriesOf(outs);
    hide VersionOk, ReadyInputs, Rebuilt, NumbersApart;
    if x in EntriesOf(here) {
      var g :| g in here && x in g.entries;
    } else {
      var g :| g in next && x in g.entries;
    }
  }

  /** Where an entry of the new version was before: at the same level, or among the upper inputs. */
  lemma CameFrom(v: Version, l: nat, here: seq<File>, next: seq<File>, outs: seq<File>, v': Version, m: nat, x: Entry)
    requires VersionOk(v) && Replaces(v, l, here, next, outs, v') && m < NUM_LEVELS
    requires x in EntriesOf(v'[m])
    ensures x in EntriesOf(v[m]) || (m == l + 1 && x in EntriesOf(here) && x in EntriesOf(v[l]))
    ensures m == l ==> exists g :: g in v[l] && g !in here && x in g.entries
  {
    hide VersionOk, Replaces;
    SameElsewhere(v, l, here, next, outs, v', m);
    var f :| f in v'[m] && x in f.entries;
    FileCameFrom(v, l, here, next, outs, v', m, f);
    if f in v[m] {
    } else {
      OutputEntries(v, l, here, next, outs, v', f, x);
    }
  }

  lemma ReplaceKeepsOrder(v: Version, l: nat, here: seq<File>, next: seq<File>, outs: seq<File>, v': Version,
      a: nat, b: nat, x: Entry, y: Entry)
    requires VersionOk(v) && Replaces(v, l, here, next, outs, v')
    requires a < b < NUM_LEVELS && x.ikey.user == y.ikey.user
    requires x in EntriesOf(v'[a]) && y in EntriesOf(v'[b])
    ensures Less(x.ikey, y.ikey)
  {
    hide LevelOk, OutputsOk, Rebuilt, GoodInputs;
    CameFrom(v, l, here, next, outs, v', a, x);
    CameFrom(v, l, here, next, outs, v', b, y);
    if y in EntriesOf(v[b]) {
      if x in EntriesOf(v[a]) {
        AboveSplits(v, a, b, x, y);
      } else {
        AboveSplits(v, l, b, x, y);
      }
    } else if a == l {
      var g :| g in v[l] && g !in here && x in g.entries;
      var f :| f in here && y in f.entries;
      assert NoOlder(g, f);
    } else {
      AboveSplits(v, a, l, x, y);
    }
  }

  /** Installing a compaction (or a trivial move) preserves every version invariant. */
  lemma ReplaceKeepsVersion(v: Version, l: nat, here: seq<File>, next: seq<File>, outs: seq<File>, v': Version)
    requires GoodVersion(v) && Replaces(v, l, here, next, outs, v')
    ensures GoodVersion(v')
  {
    hide LevelOk, EntriesOf, ReadyInputs, OutputsOk, Rebuilt, NumbersApart;
    OutputLevelOk(v, l, here, next, outs, v');
    ReplaceKeepsNumbers(v, l, here, next, outs, v');
    forall a, b | 0 <= a < b < NUM_LEVELS
      ensures Above(EntriesOf(v'[a]), EntriesOf(v'[b]))
    {
      forall x, y | x in EntriesOf(v'[a]) && y in EntriesOf(v'[b]) && x.ikey.user == y.ikey.user
        ensures Less(x.ikey, y.ikey)
      {
        ReplaceKeepsOrder(v, l, here, next, outs, v', a, b, x, y);
      }
    }
  }

  lemma ReplaceKeepsNumbers(v: Version, l: nat, here: seq<File>, next: seq<File>, outs: seq<File>, v': Version)
    requires GoodVersion(v) && Replaces(v, l, here, next, outs, v')
    ensures NumbersApart(v')
  {
    hide VersionOk, Replaces, OutputsOk;
    SameElsewhere(v, l, here, next, outs, v', 0);
    forall a, b, f, g | 0 <= a < b < NUM_LEVELS && f in v'[a] && g in v'[b]
      ensures f.number != g.number
    {
      FileCameFrom(v, l, here, next, outs, v', a, f);
      FileCameFrom(v, l, here, next, outs, v', b, g);
      OutputNumber(v, l, here, next, outs, v', f, b, g);
      OutputNumber(v, l, here, next, outs, v', g, a, f);
    }
  }

  lemma OutputNumber(v: Version, l: nat, here: seq<File>, next: seq<File>, outs: seq<File>, v': Version,
      f: File, m: nat, g: File)
    requires Replaces(v, l, here, next, outs, v') && m < NUM_LEVELS
    ensures f in outs && g in v[m] && g.number == f.number ==> m == l && g in here
  {
    hide ReadyInputs, Rebuilt, Apart, EntriesOf;
  }
}
