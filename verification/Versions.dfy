/** Versions: seven file lists, the order that lets a read stop early, and the read itself. */
module Versions {
  import opened Keys
  import opened Files
  import opened Reads
  import opened VersionBuilder
  import opened DropRule

  type Version = seq<seq<File>>

  /** The entries of the files of one list. */
  ghost function EntriesOf(files: seq<File>): set<Entry> {
    set f, e | f in files && e in f.entries :: e
  }

  /** The entries of levels `lo` to `hi - 1`. */
  ghost function LevelEntries(v: Version, lo: nat, hi: nat): set<Entry>
    requires lo <= hi <= |v|
    decreases hi - lo
  {
    if lo == hi then {} else EntriesOf(v[lo]) + LevelEntries(v, lo + 1, hi)
  }

  lemma {:induction false} InLevels(v: Version, lo: nat, hi: nat, e: Entry)
    requires lo <= hi <= |v|
    ensures e in LevelEntries(v, lo, hi) <==> exists l :: lo <= l < hi && e in EntriesOf(v[l])
    decreases hi - lo
  {
    if lo < hi {
      InLevels(v, lo + 1, hi, e);
    }
  }

  /** A file number names one file of a level. */
  ghost predicate DistinctNumbers(files: seq<File>) {
    forall f, g :: f in files && g in files && f.number == g.number ==> f == g
  }

  /** Level 0: a higher-numbered file holds the newer entries of every user key. */
  ghost predicate NewestNumberFirst(files: seq<File>) {
    forall f, g :: f in files && g in files && f.number > g.number ==> Above(SetOf(f.entries), SetOf(g.entries))
  }

  ghost predicate LevelOk(files: seq<File>, level: nat) {
    && Ordered(files) && DistinctNumbers(files)
    && if level == 0 then NewestNumberFirst(files) else Disjoint(files)
  }

  /** Levels from shallow to deep go from newer to older, user key by user key. */
  ghost predicate NewerAboveOlder(v: Version) {
    forall l, m :: 0 <= l < m < |v| ==> Above(EntriesOf(v[l]), EntriesOf(v[m]))
  }

  ghost predicate VersionOk(v: Version) {
    && |v| == NUM_LEVELS
    && (forall l :: 0 <= l < |v| ==> LevelOk(v[l], l))
    && NewerAboveOlder(v)
  }

  // ---------------------------------------------------------------- reading one level

  /** `Table::InternalGet` with the key check of `SaveValue`: the first entry at or after the target. */
  function TableGet(es: seq<Entry>, user: UserKey, s: nat): Option<Entry> {
    var p := SeekIndex(es, LookupKey(user, s));
    if p < |es| && es[p].ikey.user == user then Some(es[p]) else None
  }

  /** A sorted run answers with its newest entry that the snapshot can see. */
  lemma TableGetIsNewest(es: seq<Entry>, user: UserKey, s: nat)
    requires Sorted(es)
    ensures TableGet(es, user, s) == None <==> !HasEntry(SetOf(es), user, s)
    ensures TableGet(es, user, s).Some? ==> IsNewest(SetOf(es), user, s, TableGet(es, user, s).value)
  {
    var target := LookupKey(user, s);
    var p := SeekIndex(es, target);
    SeekIndexSplits(es, target);
    forall e | e in SetOf(es) && e.ikey.user == user && e.ikey.seqno <= s
      ensures p < |es| && es[p].ikey.user == user && e.ikey.seqno <= es[p].ikey.seqno
    {
      var i :| 0 <= i < |es| && es[i] == e;
      assert p <= i;
      assert p < i ==> Less(es[p].ikey, es[i].ikey);
    }
    assert p < |es| ==> es[p] in SetOf(es);
  }

  /** The only file of a disjoint level that can answer is the one `FindFile` finds. */
  lemma OneFileAnswers(files: seq<File>, index: nat, user: UserKey, s: nat, e: Entry)
    requires Disjoint(files) && index <= |files|
    requires forall i :: 0 <= i < index ==> Less(files[i].Largest(), LookupKey(user, s))
    requires forall i :: index <= i < |files| ==> !Less(files[i].Largest(), LookupKey(user, s))
    requires e in EntriesOf(files) && e.ikey.user == user && e.ikey.seqno <= s
    ensures index < |files| && files[index].Smallest().user <= user
    ensures exists x ::
      x in files[index].entries && x.ikey.user == user && e.ikey.seqno <= x.ikey.seqno <= s
  {
    var f :| f in files && e in f.entries;
    var k :| 0 <= k < |files| && files[k] == f;
    EntryInRange(f, e);
    assert k >= index;
    SpanIsOrdered(files, index);
    if k > index {
      var x := files[index].entries[|files[index].entries| - 1];
      assert x.ikey == files[index].Largest();
      assert AtMost(LookupKey(user, s), x.ikey);
      assert Less(files[index].Largest(), files[k].Smallest());
    }
  }

  /** What a search reports: nothing, or the newest entry the snapshot can see. */
  ghost predicate Finds(es: set<Entry>, user: UserKey, s: nat, r: Option<Entry>) {
    if r == None then !HasEntry(es, user, s) else IsNewest(es, user, s, r.value)
  }

  lemma InsertedNewest(r: seq<File>, p: nat, f: File)
    requires p <= |r| && forall i, j :: 0 <= i < j < |r| ==> r[i].number >= r[j].number
    requires (forall i :: 0 <= i < p ==> r[i].number >= f.number) && (p < |r| ==> f.number > r[p].number)
    ensures
      var r' := r[..p] + [f] + r[p..];
      && (forall g :: g in r' <==> g in r || g == f)
      && forall i, j :: 0 <= i < j < |r'| ==> r'[i].number >= r'[j].number
  {
    hide FileData.Valid;
    var r' := r[..p] + [f] + r[p..];
    assert r == r[..p] + r[p..];
    forall i | 0 <= i < |r'|
      ensures r'[i] == if i < p then r[i] else if i == p then f else r[i - 1]
    {
    }
  }

  /** `std::sort` by descending file number, as an insertion sort. */
  method SortNewestFirst(files: seq<File>) returns (r: seq<File>)
    ensures forall f :: f in r <==> f in files
    ensures forall i, j :: 0 <= i < j < |r| ==> r[i].number >= r[j].number
  {
    r := [];
    for n := 0 to |files|
      invariant forall f :: f in r <==> f in files[..n]
      invariant forall i, j :: 0 <= i < j < |r| ==> r[i].number >= r[j].number
    {
      var p := 0;
      while p < |r| && r[p].number >= files[n].number
        invariant p <= |r|
        invariant forall i :: 0 <= i < p ==> r[i].number >= files[n].number
      {
        p := p + 1;
      }
      InsertedNewest(r, p, files[n]);
      assert files[..n + 1] == files[..n] + [files[n]];
      r := r[..p] + [files[n]] + r[p..];
    }
    assert files[..|files|] == files;
  }

  /** The level-0 half of `ForEachOverlapping`: candidates from newest to oldest. */
  method GetFromLevel0(files: seq<File>, user: UserKey, s: nat) returns (r: Option<Entry>)
    requires LevelOk(files, 0)
    ensures Finds(EntriesOf(files), user, s, r)
  {
    var tmp: seq<File> := [];
    for i := 0 to |files|
      invariant forall f :: f in tmp <==> f in files[..i] && Overlaps(f, Some(user), Some(user))
    {
      assert files[..i + 1] == files[..i] + [files[i]];
      if user >= files[i].Smallest().user && user <= files[i].Largest().user {
        tmp := tmp + [files[i]];
      }
    }
    assert files[..|files|] == files;
    tmp := SortNewestFirst(tmp);
    for i := 0 to |tmp|
      invariant forall j :: 0 <= j < i ==> !HasEntry(SetOf(tmp[j].entries), user, s)
    {
      r := TableGet(tmp[i].entries, user, s);
      TableGetIsNewest(tmp[i].entries, user, s);
      if r.Some? {
        FoundInFile(files, tmp, i, user, s, r.value);
        return;
      }
    }
    r := None;
    NotInFiles(files, tmp, user, s);
  }

  lemma CandidatesOnly(files: seq<File>, tmp: seq<File>, user: UserKey, e: Entry)
    requires forall f :: f in tmp <==> f in files && Overlaps(f, Some(user), Some(user))
    requires e in EntriesOf(files) && e.ikey.user == user
    ensures exists j :: 0 <= j < |tmp| && e in tmp[j].entries
  {
    var f :| f in files && e in f.entries;
    EntryInRange(f, e);
    assert f in tmp;
  }

  lemma NotInFiles(files: seq<File>, tmp: seq<File>, user: UserKey, s: nat)
    requires forall f :: f in tmp <==> f in files && Overlaps(f, Some(user), Some(user))
    requires forall j :: 0 <= j < |tmp| ==> !HasEntry(SetOf(tmp[j].entries), user, s)
    ensures !HasEntry(EntriesOf(files), user, s)
  {
    forall e | e in EntriesOf(files) && e.ikey.user == user
      ensures e.ikey.seqno > s
    {
      CandidatesOnly(files, tmp, user, e);
      var j :| 0 <= j < |tmp| && e in tmp[j].entries;
      assert e in SetOf(tmp[j].entries);
    }
  }

  lemma FoundInFile(files: seq<File>, tmp: seq<File>, i: nat, user: UserKey, s: nat, found: Entry)
    requires LevelOk(files, 0)
    requires forall f :: f in tmp <==> f in files && Overlaps(f, Some(user), Some(user))
    requires forall k, j :: 0 <= k < j < |tmp| ==> tmp[k].number >= tmp[j].number
    requires i < |tmp| && IsNewest(SetOf(tmp[i].entries), user, s, found)
    requires forall j :: 0 <= j < i ==> !HasEntry(SetOf(tmp[j].entries), user, s)
    ensures IsNewest(EntriesOf(files), user, s, found)
  {
    hide LevelOk, Disjoint, Ordered;
    assert tmp[i] in tmp && found in tmp[i].entries;
    forall e | e in EntriesOf(files) && e.ikey.user == user && e.ikey.seqno <= s
      ensures e.ikey.seqno <= found.ikey.seqno
    {
      CandidatesOnly(files, tmp, user, e);
      var j :| 0 <= j < |tmp| && e in tmp[j].entries;
      assert e in SetOf(tmp[j].entries);
      assert j >= i;
      if j > i {
        HigherNumberIsNewer(files, tmp[i], tmp[j], found, e);
      }
    }
  }

  lemma HigherNumberIsNewer(files: seq<File>, f: File, g: File, x: Entry, y: Entry)
    requires LevelOk(files, 0) && f in files && g in files && f.number >= g.number
    requires x in f.entries && y in g.entries && x.ikey.user == y.ikey.user
    ensures f == g || Less(x.ikey, y.ikey)
  {
    assert x in SetOf(f.entries) && y in SetOf(g.entries);
  }

  /** One disjoint level of `ForEachOverlapping`. */
  method GetFromLevel(files: seq<File>, level: nat, user: UserKey, s: nat) returns (r: Option<Entry>)
    requires level > 0 && LevelOk(files, level)
    ensures Finds(EntriesOf(files), user, s, r)
  {
    r := None;
    var index := FindFile(files, LookupKey(user, s));
    if index < |files| && files[index].Smallest().user <= user {
      r := TableGet(files[index].entries, user, s);
      TableGetIsNewest(files[index].entries, user, s);
      assert r.Some? ==> r.value in files[index].entries && files[index] in files;
    }
    forall e | e in EntriesOf(files) && e.ikey.user == user && e.ikey.seqno <= s
      ensures r.Some? && e.ikey.seqno <= r.value.ikey.seqno
    {
      OneFileAnswers(files, index, user, s, e);
      var x :| x in files[index].entries && x.ikey.user == user && e.ikey.seqno <= x.ikey.seqno <= s;
      assert x in SetOf(files[index].entries);
    }
  }

  lemma FoundAtLevel(v: Version, l: nat, user: UserKey, s: nat, r: Option<Entry>)
    requires NewerAboveOlder(v) && l < |v|
    requires !HasEntry(LevelEntries(v, 0, l), user, s)
    requires Finds(EntriesOf(v[l]), user, s, r)
    ensures Finds(LevelEntries(v, 0, if r == None then l + 1 else |v|), user, s, r)
  {
    forall e | e in LevelEntries(v, 0, if r == None then l + 1 else |v|) && e.ikey.user == user && e.ikey.seqno <= s
      ensures r.Some? && e.ikey.seqno <= r.value.ikey.seqno
    {
      InLevels(v, 0, if r == None then l + 1 else |v|, e);
      InLevels(v, 0, l, e);
      var m :| 0 <= m < |v| && e in EntriesOf(v[m]);
      assert m >= l;
      assert m > l && r.Some? ==> Less(r.value.ikey, e.ikey);
    }
    if r.Some? {
      InLevels(v, 0, |v|, r.value);
    }
  }

  /** `Version::Get`: level by level, stopping at the first file that has the key. */
  method Get(v: Version, user: UserKey, s: nat) returns (r: Option<Entry>)
    requires VersionOk(v)
    ensures Finds(LevelEntries(v, 0, NUM_LEVELS), user, s, r)
  {
    hide EntriesOf, LevelEntries, LevelOk, NewerAboveOlder, IsNewest;
    r := GetFromLevel0(v[0], user, s);
    NothingAbove(v, user, s);
    FoundAtLevel(v, 0, user, s, r);
    if r.Some? {
      return;
    }
    for level := 1 to NUM_LEVELS
      invariant r == None && !HasEntry(LevelEntries(v, 0, level), user, s)
    {
      if v[level] != [] {
        r := GetFromLevel(v[level], level, user, s);
      } else {
        EmptyLevel(user, s);
      }
      FoundAtLevel(v, level, user, s, r);
      if r.Some? {
        return;
      }
    }
  }

  lemma NothingAbove(v: Version, user: UserKey, s: nat)
    requires 0 < |v|
    ensures !HasEntry(LevelEntries(v, 0, 0), user, s)
  {
  }

  lemma EmptyLevel(user: UserKey, s: nat)
    ensures Finds(EntriesOf([]), user, s, None)
  {
  }
}
