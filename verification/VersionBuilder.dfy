/** `VersionSet::Builder`: applying edits to a version without building the versions in between. */
module VersionBuilder {
  import opened Keys
  import opened Files

  function Numbers(files: seq<File>): set<nat> { set i | 0 <= i < |files| :: files[i].number }

  /** `BySmallestKey`: by smallest internal key, ties by file number. */
  predicate Before(f: File, g: File) {
    Less(f.Smallest(), g.Smallest()) || (f.Smallest() == g.Smallest() && f.number < g.number)
  }

  ghost predicate Ordered(files: seq<File>) {
    forall i, j :: 0 <= i < j < |files| ==> Before(files[i], files[j])
  }

  /** No two files of the lists tie in the set's order. */
  ghost predicate NoTies(base: seq<File>, added: seq<File>) {
    forall f, g :: f in base && g in added ==> Before(f, g) || Before(g, f)
  }

  /** The effect of an edit on one level, whatever the order in which it is written down. */
  ghost predicate Rebuilt(base: seq<File>, deleted: set<nat>, added: seq<File>, r: seq<File>) {
    && Ordered(r)
    && forall f :: f in r <==> (f in base || f in added) && f.number !in deleted
  }

  lemma EmptyTogether(r: seq<File>, r': seq<File>)
    requires forall f :: f in r <==> f in r'
    ensures r == [] <==> r' == []
  {
    assert r != [] ==> r[0] in r';
    assert r' != [] ==> r'[0] in r;
  }

  /** One level's file list is determined by its members. */
  lemma {:induction false} OrderedIsUnique(r: seq<File>, r': seq<File>)
    requires Ordered(r) && Ordered(r')
    requires forall f :: f in r <==> f in r'
    ensures r == r'
  {
    EmptyTogether(r, r');
    if r != [] {
      assert r[0] in r';
      assert r'[0] in r;
      var k :| 0 <= k < |r'| && r'[k] == r[0];
      var l :| 0 <= l < |r| && r[l] == r'[0];
      assert k == 0;
      forall f
        ensures f in r[1..] <==> f in r'[1..]
      {
        assert f in r <==> f == r[0] || f in r[1..];
        assert f in r' <==> f == r[0] || f in r'[1..];
        assert f in r[1..] ==> f != r[0];
        assert f in r'[1..] ==> f != r[0];
      }
      OrderedIsUnique(r[1..], r'[1..]);
    }
  }

  // ---------------------------------------------------------------- merging base and added files

  /** Sorted as `std::upper_bound` needs it: ties are allowed. */
  ghost predicate InOrder(files: seq<File>) {
    forall i, j :: 0 <= i < j < |files| ==> !Before(files[j], files[i])
  }

  /** The two files are equal for the set's order. */
  predicate Tied(f: File, g: File) { f.Smallest() == g.Smallest() && f.number == g.number }

  /** What the order means: smallest keys ascend, and of files with the same one the older comes first. */
  lemma OrderMeans(files: seq<File>, i: nat, j: nat)
    requires InOrder(files) && i < j < |files|
    ensures AtMost(files[i].Smallest(), files[j].Smallest())
    ensures files[i].Smallest() == files[j].Smallest() ==> files[i].number <= files[j].number
  {
    Trichotomy(files[i], files[j]);
  }

  lemma Trichotomy(f: File, g: File)
    ensures Before(f, g) || Before(g, f) || Tied(f, g)
    ensures Before(f, g) ==> !Before(g, f) && !Tied(f, g)
  {
  }

  lemma AreInOrder(files: seq<File>)
    requires Ordered(files)
    ensures InOrder(files)
  {
    hide Before, FileData.Valid;
    forall i, j | 0 <= i < j < |files|
      ensures !Before(files[j], files[i])
    {
      Trichotomy(files[i], files[j]);
    }
  }

  /** The files whose numbers are not deleted. */
  function Survivors(files: seq<File>, deleted: set<nat>): seq<File>
    decreases files
  {
    if files == [] then []
    else (if files[0].number in deleted then [] else [files[0]]) + Survivors(files[1..], deleted)
  }

  /** What `SaveTo` makes of one level: both lists merged, of tied files the base's first, deleted ones left out. */
  function Saved(base: seq<File>, deleted: set<nat>, added: seq<File>): seq<File>
    decreases |base| + |added|
  {
    if added == [] then Survivors(base, deleted)
    else if base != [] && !Before(added[0], base[0]) then
      (if base[0].number in deleted then [] else [base[0]]) + Saved(base[1..], deleted, added)
    else
      (if added[0].number in deleted then [] else [added[0]]) + Saved(base, deleted, added[1..])
  }

  /** `std::upper_bound` from `from` on. */
  method UpperBound(base: seq<File>, from: nat, f: File) returns (pos: nat)
    requires from <= |base| && InOrder(base)
    ensures from <= pos <= |base|
    ensures forall i :: from <= i < pos ==> !Before(f, base[i])
    ensures forall i :: pos <= i < |base| ==> Before(f, base[i])
  {
    pos := from;
    while pos < |base| && !Before(f, base[pos])
      invariant from <= pos <= |base|
      invariant forall i :: from <= i < pos ==> !Before(f, base[i])
    {
      pos := pos + 1;
    }
    forall i | pos <= i < |base|
      ensures Before(f, base[i])
    {
      if i > pos { NotBeforeMovesOn(f, base[pos], base[i]); }
    }
  }

  lemma NotBeforeMovesOn(f: File, g: File, h: File)
    requires Before(f, g) && !Before(h, g)
    ensures Before(f, h)
  {
  }

  function MaybeAddFile(r: seq<File>, deleted: set<nat>, f: File): seq<File> {
    if f.number in deleted then r else r + [f]
  }

  /** `SaveTo` for one level. */
  method SaveLevel(base: seq<File>, deleted: set<nat>, added: seq<File>) returns (r: seq<File>)
    requires InOrder(base)
    ensures r == Saved(base, deleted, added)
    ensures Ordered(base) && Ordered(added) && NoTies(base, added) ==> Rebuilt(base, deleted, added, r)
  {
    hide Before, Saved, Ordered, InOrder, MaybeAddFile, NoTies, Rebuilt;
    r := [];
    var b := 0;
    ghost var all := Saved(base, deleted, added);
    assert base[0..] == base && added[0..] == added;
    for a := 0 to |added|
      invariant 0 <= b <= |base| && r + Saved(base[b..], deleted, added[a..]) == all
    {
      var pos := UpperBound(base, b, added[a]);
      while b < pos
        invariant b <= pos && r + Saved(base[b..], deleted, added[a..]) == all
      {
        TakeBase(r, base, b, deleted, added, a);
        r := MaybeAddFile(r, deleted, base[b]);
        b := b + 1;
      }
      TakeAdded(r, base, b, deleted, added, a);
      r := MaybeAddFile(r, deleted, added[a]);
    }
    while b < |base|
      invariant 0 <= b <= |base| && r + Saved(base[b..], deleted, added[|added|..]) == all
    {
      TakeBase(r, base, b, deleted, added, |added|);
      r := MaybeAddFile(r, deleted, base[b]);
      b := b + 1;
    }
    NothingSaved(r, base, deleted, added);
    if Ordered(base) && Ordered(added) && NoTies(base, added) {
      SavedIsRebuilt(base, deleted, added);
    }
  }

  lemma TakeBase(r: seq<File>, base: seq<File>, b: nat, deleted: set<nat>, added: seq<File>, a: nat)
    requires b < |base| && a <= |added| && (a < |added| ==> !Before(added[a], base[b]))
    ensures r + Saved(base[b..], deleted, added[a..])
         == MaybeAddFile(r, deleted, base[b]) + Saved(base[b + 1..], deleted, added[a..])
  {
    hide Before, FileData.Valid;
    assert base[b..][1..] == base[b + 1..];
    assert Saved(base[b..], deleted, added[a..])
        == (if base[b].number in deleted then [] else [base[b]]) + Saved(base[b + 1..], deleted, added[a..]);
  }

  lemma TakeAdded(r: seq<File>, base: seq<File>, b: nat, deleted: set<nat>, added: seq<File>, a: nat)
    requires b <= |base| && a < |added| && (b < |base| ==> Before(added[a], base[b]))
    ensures r + Saved(base[b..], deleted, added[a..])
         == MaybeAddFile(r, deleted, added[a]) + Saved(base[b..], deleted, added[a + 1..])
  {
    hide Before, FileData.Valid;
    assert added[a..][1..] == added[a + 1..];
    assert Saved(base[b..], deleted, added[a..])
        == (if added[a].number in deleted then [] else [added[a]]) + Saved(base[b..], deleted, added[a + 1..]);
  }

  lemma NothingSaved(r: seq<File>, base: seq<File>, deleted: set<nat>, added: seq<File>)
    ensures r + Saved(base[|base|..], deleted, added[|added|..]) == r
  {
  }

  /** What is saved: every surviving file of both lists, as often as it is there. */
  lemma {:induction false} SavedHolds(base: seq<File>, deleted: set<nat>, added: seq<File>)
    ensures multiset(Saved(base, deleted, added)) == multiset(Survivors(base, deleted)) + multiset(Survivors(added, deleted))
    decreases |base| + |added|
  {
    hide Before, FileData.Valid;
    if added == [] {
    } else if base != [] && !Before(added[0], base[0]) {
      SavedHolds(base[1..], deleted, added);
    } else {
      SavedHolds(base, deleted, added[1..]);
    }
  }

  lemma {:induction false} SurvivorsAre(files: seq<File>, deleted: set<nat>)
    ensures forall f :: f in Survivors(files, deleted) <==> f in files && f.number !in deleted
    decreases files
  {
    hide FileData.Valid;
    if files != [] {
      SurvivorsAre(files[1..], deleted);
      assert files == [files[0]] + files[1..];
    }
  }

  lemma SavedMembers(base: seq<File>, deleted: set<nat>, added: seq<File>)
    ensures forall f :: f in Saved(base, deleted, added) <==> (f in base || f in added) && f.number !in deleted
  {
    hide Saved, Survivors, FileData.Valid;
    SavedHolds(base, deleted, added);
    SurvivorsAre(base, deleted);
    SurvivorsAre(added, deleted);
    forall f
      ensures f in Saved(base, deleted, added) <==> f in Survivors(base, deleted) || f in Survivors(added, deleted)
    {
      var r := Saved(base, deleted, added);
      assert f in r <==> f in multiset(r);
    }
  }

  lemma {:induction false} SurvivorsOrdered(files: seq<File>, deleted: set<nat>)
    ensures InOrder(files) ==> InOrder(Survivors(files, deleted))
    ensures Ordered(files) ==> Ordered(Survivors(files, deleted))
    decreases files
  {
    hide Before, FileData.Valid;
    if files != [] {
      var rest := Survivors(files[1..], deleted);
      SurvivorsOrdered(files[1..], deleted);
      SurvivorsAre(files[1..], deleted);
      forall x | x in rest
        ensures InOrder(files) ==> !Before(x, files[0])
        ensures Ordered(files) ==> Before(files[0], x)
      {
        var k :| 0 <= k < |files[1..]| && files[1..][k] == x;
        assert x == files[k + 1];
      }
    }
  }

  lemma {:induction false} SavedInOrder(base: seq<File>, deleted: set<nat>, added: seq<File>)
    requires InOrder(base) && Ordered(added)
    ensures InOrder(Saved(base, deleted, added))
    decreases |base| + |added|
  {
    hide Before, FileData.Valid, Survivors;
    if added == [] {
      SurvivorsOrdered(base, deleted);
    } else if base != [] && !Before(added[0], base[0]) {
      var rest := Saved(base[1..], deleted, added);
      SavedInOrder(base[1..], deleted, added);
      SavedMembers(base[1..], deleted, added);
      forall x | x in rest
        ensures !Before(x, base[0])
      {
        if x in added {
          BeforeIsTransitive(added[0], x, base[0]);
          assert x == added[0] || Before(added[0], x);
        }
      }
    } else {
      var rest := Saved(base, deleted, added[1..]);
      SavedInOrder(base, deleted, added[1..]);
      SavedMembers(base, deleted, added[1..]);
      forall x | x in rest
        ensures !Before(x, added[0])
      {
        Trichotomy(added[0], x);
        if x in base {
          BeforeIsTransitive(x, added[0], base[0]);
          assert !Before(x, base[0]) by { if x != base[0] { assert x in base[1..]; } else { Trichotomy(x, x); } }
        }
      }
    }
  }

  /** Without ties the level is rebuilt in strict order. */
  lemma SavedIsRebuilt(base: seq<File>, deleted: set<nat>, added: seq<File>)
    requires Ordered(base) && Ordered(added) && NoTies(base, added)
    ensures Rebuilt(base, deleted, added, Saved(base, deleted, added))
  {
    hide Ordered, NoTies, Saved, Before;
    SavedMembers(base, deleted, added);
    SavedOrdered(base, deleted, added);
  }

  lemma {:induction false} SavedOrdered(base: seq<File>, deleted: set<nat>, added: seq<File>)
    requires Ordered(base) && Ordered(added) && NoTies(base, added)
    ensures Ordered(Saved(base, deleted, added))
    decreases |base| + |added|
  {
    hide Before, FileData.Valid, Survivors, Ordered, NoTies;
    if added == [] {
      SurvivorsOrdered(base, deleted);
    } else if base != [] && !Before(added[0], base[0]) {
      BaseComesFirst(base, added);
      SavedOrdered(base[1..], deleted, added);
      SavedMembers(base[1..], deleted, added);
      Leads(base[0], deleted, Saved(base[1..], deleted, added));
    } else {
      AddedComesFirst(base, added);
      SavedOrdered(base, deleted, added[1..]);
      SavedMembers(base, deleted, added[1..]);
      Leads(added[0], deleted, Saved(base, deleted, added[1..]));
    }
  }

  lemma BaseComesFirst(base: seq<File>, added: seq<File>)
    requires Ordered(base) && Ordered(added) && NoTies(base, added) && base != [] && added != [] && !Before(added[0], base[0])
    ensures forall x :: x in base[1..] || x in added ==> Before(base[0], x)
    ensures Ordered(base[1..]) && NoTies(base[1..], added)
  {
    hide Before, FileData.Valid;
    assert base[0] in base && added[0] in added;
    forall x | x in added
      ensures Before(base[0], x)
    {
      BeforeIsTransitive(base[0], added[0], x);
    }
  }

  lemma AddedComesFirst(base: seq<File>, added: seq<File>)
    requires Ordered(base) && Ordered(added) && NoTies(base, added) && added != [] && (base != [] ==> Before(added[0], base[0]))
    ensures forall x :: x in base || x in added[1..] ==> Before(added[0], x)
    ensures Ordered(added[1..]) && NoTies(base, added[1..])
  {
    hide Before, FileData.Valid;
    forall x | x in base
      ensures Before(added[0], x)
    {
      BeforeIsTransitive(added[0], base[0], x);
    }
  }

  lemma Leads(f: File, deleted: set<nat>, rest: seq<File>)
    requires Ordered(rest) && forall x :: x in rest ==> Before(f, x)
    ensures Ordered((if f.number in deleted then [] else [f]) + rest)
  {
    hide Before, FileData.Valid;
    assert [] + rest == rest;
  }

  /** A tie between surviving files of the two lists is not in strict order. */
  lemma TieIsNotOrdered(base: seq<File>, deleted: set<nat>, added: seq<File>, f: File, g: File)
    requires f in base && g in added && Tied(f, g) && f.number !in deleted
    ensures !Ordered(Saved(base, deleted, added))
  {
    hide Before, FileData.Valid, Saved, Survivors, FileData.Smallest;
    var r := Saved(base, deleted, added);
    SavedHolds(base, deleted, added);
    SavedMembers(base, deleted, added);
    SurvivorsAre(base, deleted);
    SurvivorsAre(added, deleted);
    Trichotomy(f, g);
    Trichotomy(g, f);
    if f == g {
      OrderedHasNoRepeats(r, f);
      assert multiset(r)[f] == multiset(Survivors(base, deleted))[f] + multiset(Survivors(added, deleted))[f];
    } else {
      var i :| 0 <= i < |r| && r[i] == f;
      var j :| 0 <= j < |r| && r[j] == g;
    }
  }

  lemma {:induction false} OrderedHasNoRepeats(r: seq<File>, f: File)
    ensures Ordered(r) ==> multiset(r)[f] <= 1
  {
    hide Before, FileData.Valid;
    if r != [] {
      var rest := r[1..];
      assert r == [r[0]] + rest;
      OrderedHasNoRepeats(rest, f);
      if r[0] == f && f in rest {
        Trichotomy(f, f);
      }
    }
  }

  /** Insertion into the ordered set of added files; a file that ties with a member changes nothing. */
  function Insert(files: seq<File>, f: File): seq<File> {
    if files == [] || Before(f, files[0]) then [f] + files
    else if Before(files[0], f) then [files[0]] + Insert(files[1..], f)
    else files
  }

  lemma {:induction false} InsertKeepsOrder(files: seq<File>, f: File)
    requires Ordered(files) && NoTies(files, [f])
    ensures Rebuilt(files, {}, [f], Insert(files, f))
  {
    hide FileData.Valid, FileData.Smallest, Less, Before;
    assert f in [f];
    if files == [] {
    } else if Before(f, files[0]) {
      forall g | g in files
        ensures Before(f, g)
      {
        assert g == files[0] || Before(files[0], g);
        BeforeIsTransitive(f, files[0], g);
      }
      PrependOrdered(f, files);
    } else {
      assert files[0] in files;
      var rest := files[1..];
      assert files == [files[0]] + rest;
      InsertKeepsOrder(rest, f);
      PrependOrdered(files[0], Insert(rest, f));
    }
  }

  lemma PrependOrdered(f: File, files: seq<File>)
    requires Ordered(files) && forall g :: g in files ==> Before(f, g)
    ensures Ordered([f] + files) && forall g :: g in [f] + files <==> g == f || g in files
  {
  }

  lemma BeforeIsTransitive(f: File, g: File, h: File)
    ensures Before(f, g) && Before(g, h) ==> Before(f, h)
  {
  }
}
