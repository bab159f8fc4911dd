/**
 The manifest: a chain of `LogAndApply` calls writes it, and replaying it through one builder gives back
 the version and the counters that the chain arrived at.
 */
module Manifest {
  import opened Keys
  import opened Files
  import opened VersionBuilder
  import opened Versions

  // ---------------------------------------------------------------- one level

  /** What an edit says about one level. */
  datatype LevelEdit = LevelEdit(deleted: set<nat>, added: seq<File>)

  /** What a builder has collected about one level. */
  datatype LevelState = LevelState(deleted: set<nat>, added: seq<File>)

  const NOTHING: LevelState := LevelState({}, [])

  /** Adding files one by one: each takes its number out of the deleted ones. */
  function AddFiles(s: LevelState, files: seq<File>): LevelState
    decreases files
  {
    if files == [] then s
    else AddFiles(LevelState(s.deleted - {files[0].number}, Insert(s.added, files[0])), files[1..])
  }

  /** `Builder::Apply` at one level: deletions first, then additions. */
  function ApplyLevel(s: LevelState, e: LevelEdit): LevelState {
    AddFiles(LevelState(s.deleted + e.deleted, s.added), e.added)
  }

  ghost predicate AnyTied(files: seq<File>, f: File) {
    exists g :: g in files && Tied(f, g)
  }

  lemma TiedChain(f: File, g: File, h: File)
    ensures Tied(f, f) && (Tied(f, g) && Tied(g, h) ==> Tied(f, h)) && (Tied(f, g) ==> Tied(g, f) && f.number == g.number)
  {
  }

  lemma TiedCons(files: seq<File>, f: File)
    requires files != []
    ensures AnyTied(files, f) <==> Tied(f, files[0]) || AnyTied(files[1..], f)
  {
    hide Tied, FileData.Valid;
    assert files == [files[0]] + files[1..];
    if AnyTied(files[1..], f) {
      var g :| g in files[1..] && Tied(f, g);
      assert g in files;
    }
  }

  /** A file goes into the set unless one that is equal for the set's order is there. */
  lemma {:induction false} InsertedIs(files: seq<File>, f: File)
    requires Ordered(files)
    ensures Ordered(Insert(files, f)) && forall g :: g in Insert(files, f) <==> g in files || (g == f && !AnyTied(files, f))
  {
    hide Before, Tied, FileData.Valid;
    if files != [] {
      var rest := files[1..];
      assert files == [files[0]] + rest;
      Trichotomy(f, files[0]);
      Trichotomy(files[0], f);
      if Before(f, files[0]) {
        forall g | g in files
          ensures Before(f, g) && !Tied(f, g)
        {
          BeforeIsTransitive(f, files[0], g);
          Trichotomy(f, g);
        }
        PrependOrdered(f, files);
      } else if Before(files[0], f) {
        InsertedIs(rest, f);
        PrependOrdered(files[0], Insert(rest, f));
        TiedChain(f, files[0], f);
        TiedCons(files, f);
      } else {
        assert files[0] in files && Tied(f, files[0]);
      }
    }
  }

  lemma {:induction false} AddFilesIs(s: LevelState, files: seq<File>)
    requires Ordered(s.added)
    ensures
      var r := AddFiles(s, files);
      && r.deleted == s.deleted - Numbers(files) && Ordered(r.added)
      && (forall f :: f in s.added ==> f in r.added) && (forall f :: f in r.added ==> f in s.added || f in files)
      && forall g :: g in files ==> AnyTied(r.added, g)
    decreases files
  {
    hide Before, FileData.Valid, Insert, Ordered, Tied, AnyTied;
    if files != [] {
      var f, rest := files[0], files[1..];
      assert files == [f] + rest;
      InsertedIs(s.added, f);
      var s' := LevelState(s.deleted - {f.number}, Insert(s.added, f));
      AddFilesIs(s', rest);
      assert Numbers(files) == {f.number} + Numbers(rest);
      StaysTied(s.added, s'.added, AddFiles(s', rest).added, f);
    }
  }

  lemma StaysTied(files: seq<File>, more: seq<File>, most: seq<File>, f: File)
    requires forall g :: g in files ==> g in more
    requires forall g :: g in more ==> g in most
    requires AnyTied(files, f) || f in more
    ensures AnyTied(most, f)
  {
    hide Tied;
    TiedChain(f, f, f);
    if AnyTied(files, f) {
      var g :| g in files && Tied(f, g);
      assert g in most;
    }
  }

  lemma ApplyLevelIs(s: LevelState, e: LevelEdit)
    requires Ordered(s.added)
    ensures
      var r := ApplyLevel(s, e);
      && r.deleted == s.deleted + e.deleted - Numbers(e.added) && Ordered(r.added)
      && (forall f :: f in s.added ==> f in r.added) && (forall f :: f in r.added ==> f in s.added || f in e.added)
      && forall g :: g in e.added ==> AnyTied(r.added, g)
  {
    hide Ordered, AddFiles, AnyTied;
    AddFilesIs(LevelState(s.deleted + e.deleted, s.added), e.added);
  }

  /** What a builder with something in it takes from an edit, by what an empty builder takes from it. */
  ghost predicate TakesOver(base: seq<File>, own: seq<File>, all: seq<File>) {
    forall f :: f in all <==> f in base || (f in own && !AnyTied(base, f))
  }

  lemma TakesOneOver(base: seq<File>, own: seq<File>, all: seq<File>, f: File)
    requires TakesOver(base, own, all) && Ordered(own) && Ordered(all)
    ensures TakesOver(base, Insert(own, f), Insert(all, f))
  {
    hide Before, FileData.Valid, Insert, Ordered, Tied;
    InsertedIs(own, f);
    InsertedIs(all, f);
    if AnyTied(all, f) {
      var g :| g in all && Tied(f, g);
      TiedChain(f, g, f);
    }
    if AnyTied(base, f) {
      var g :| g in base && Tied(f, g);
      assert g in all;
    } else if AnyTied(own, f) {
      var g :| g in own && Tied(f, g);
      forall b | b in base && Tied(g, b)
        ensures Tied(f, b)
      {
        TiedChain(f, g, b);
      }
      assert g in all;
    }
  }

  lemma {:induction false} TakesAllOver(base: seq<File>, own: LevelState, all: LevelState, files: seq<File>)
    requires TakesOver(base, own.added, all.added) && Ordered(own.added) && Ordered(all.added)
    ensures TakesOver(base, AddFiles(own, files).added, AddFiles(all, files).added)
    decreases files
  {
    hide Insert, Ordered, TakesOver;
    if files != [] {
      var f := files[0];
      TakesOneOver(base, own.added, all.added, f);
      InsertedIs(own.added, f);
      InsertedIs(all.added, f);
      TakesAllOver(base, LevelState(own.deleted - {f.number}, Insert(own.added, f)),
                   LevelState(all.deleted - {f.number}, Insert(all.added, f)), files[1..]);
    }
  }

  lemma EditTakesOver(s: LevelState, e: LevelEdit)
    requires Ordered(s.added)
    ensures TakesOver(s.added, ApplyLevel(NOTHING, e).added, ApplyLevel(s, e).added)
  {
    hide AddFiles, Ordered, AnyTied;
    EmptyIsOrdered();
    TakesAllOver(s.added, LevelState({} + e.deleted, []), LevelState(s.deleted + e.deleted, s.added), e.added);
  }

  lemma EmptyIsOrdered()
    ensures Ordered([])
  {
  }

  /** The files that a builder on an empty version shows. */
  function Shown(s: LevelState): seq<File> { Saved([], s.deleted, s.added) }

  lemma {:induction false} ShownIs(s: LevelState)
    ensures Shown(s) == Survivors(s.added, s.deleted)
    decreases s.added
  {
    if s.added != [] {
      ShownIs(LevelState(s.deleted, s.added[1..]));
    }
  }

  /** One more edit, by a builder of its own on the level as it is. */
  function OneStep(files: seq<File>, e: LevelEdit): seq<File> {
    Saved(files, ApplyLevel(NOTHING, e).deleted, ApplyLevel(NOTHING, e).added)
  }

  /**
   The edit adds no file that is equal, by number and smallest key, to a live one; and where it adds the number of
   a file that was deleted earlier, it adds that same file.
   */
  ghost predicate Agree(s: LevelState, e: LevelEdit) {
    && (forall f, g :: f in Shown(s) && g in e.added ==> !Tied(f, g))
    && forall f :: f in s.added && f.number in s.deleted && f.number in Numbers(e.added) ==> f in ApplyLevel(NOTHING, e).added
  }

  /**
   Collecting all edits in one builder and building a version after every edit: from a level on which the two
   ways agree, they agree on the next one exactly if the edit is of this kind.
   */
  lemma StepIsExact(s: LevelState, e: LevelEdit)
    requires Ordered(s.added)
    ensures OneStep(Shown(s), e) == Shown(ApplyLevel(s, e)) <==> Agree(s, e)
  {
    hide *;
    if Agree(s, e) {
      AgreeMeets(s, e);
    }
    if OneStep(Shown(s), e) == Shown(ApplyLevel(s, e)) {
      MeetsAgree(s, e);
    }
  }

  lemma ShownMembers(s: LevelState)
    ensures forall f :: f in Shown(s) <==> f in s.added && f.number !in s.deleted
    ensures Ordered(s.added) ==> Ordered(Shown(s))
  {
    hide Shown, Survivors, Ordered;
    ShownIs(s);
    SurvivorsAre(s.added, s.deleted);
    SurvivorsOrdered(s.added, s.deleted);
  }

  lemma NumberOf(files: seq<File>, f: File)
    ensures f in files ==> f.number in Numbers(files)
  {
  }

  lemma AgreeMeets(s: LevelState, e: LevelEdit)
    requires Ordered(s.added) && Agree(s, e)
    ensures OneStep(Shown(s), e) == Shown(ApplyLevel(s, e))
  {
    hide Shown, ApplyLevel, Ordered, Survivors, Saved, Tied, AnyTied, NoTies, Numbers;
    var own, all, files := ApplyLevel(NOTHING, e), ApplyLevel(s, e), Shown(s);
    EmptyIsOrdered();
    ApplyLevelIs(NOTHING, e);
    ApplyLevelIs(s, e);
    ShownMembers(s);
    ShownMembers(all);
    NoneTied(files, own.added, e.added);
    SavedMembers(files, own.deleted, own.added);
    SavedOrdered(files, own.deleted, own.added);
    EditTakesOver(s, e);
    forall f
      ensures f in OneStep(files, e) <==> f in Shown(all)
    {
      SameMember(s, e, f);
    }
    StepIs(files, e);
    OrderedIsUnique(OneStep(files, e), Shown(all));
  }

  lemma StepIs(files: seq<File>, e: LevelEdit)
    ensures OneStep(files, e) == Saved(files, ApplyLevel(NOTHING, e).deleted, ApplyLevel(NOTHING, e).added)
  {
  }

  lemma NoneTied(files: seq<File>, own: seq<File>, added: seq<File>)
    requires forall f, g :: f in files && g in added ==> !Tied(f, g)
    requires forall g :: g in own ==> g in added
    ensures NoTies(files, own)
  {
    hide Tied, Before;
    forall f, g | f in files && g in own
      ensures Before(f, g) || Before(g, f)
    {
      Trichotomy(f, g);
    }
  }

  lemma OrderedHasNoTies(files: seq<File>, f: File, g: File)
    requires Ordered(files) && f in files && g in files && Tied(f, g)
    ensures f == g
  {
    hide Tied, Before;
    Trichotomy(f, g);
    Trichotomy(g, f);
    TiedChain(f, g, f);
  }

  /** A file that the edit adds by itself is tied with no other collected one. */
  lemma TiedOnlyItself(s: LevelState, e: LevelEdit, f: File, g: File)
    requires Agree(s, e) && Ordered(s.added) && f in ApplyLevel(NOTHING, e).added && g in s.added && Tied(g, f)
    ensures g == f
  {
    hide ApplyLevel, Ordered, Tied, Shown, Numbers;
    EmptyIsOrdered();
    ApplyLevelIs(NOTHING, e);
    ShownMembers(s);
    NumberOf(e.added, f);
    TiedChain(g, f, g);
    OwnTied(ApplyLevel(NOTHING, e).added, f, g);
  }

  lemma OwnTied(own: seq<File>, f: File, g: File)
    requires Ordered(own) && f in own && Tied(g, f)
    ensures g in own ==> g == f
  {
    hide Tied, Ordered;
    if g in own {
      OrderedHasNoTies(own, g, f);
    }
  }

  lemma SameMember(s: LevelState, e: LevelEdit, f: File)
    requires Ordered(s.added) && Agree(s, e)
    ensures f in OneStep(Shown(s), e) <==> f in Shown(ApplyLevel(s, e))
  {
    hide ApplyLevel, Ordered, Tied, Shown, Numbers, Saved;
    var own := ApplyLevel(NOTHING, e);
    EmptyIsOrdered();
    ApplyLevelIs(NOTHING, e);
    ApplyLevelIs(s, e);
    ShownMembers(s);
    ShownMembers(ApplyLevel(s, e));
    EditTakesOver(s, e);
    SavedMembers(Shown(s), own.deleted, own.added);
    NumberOf(e.added, f);
    if f in own.added && AnyTied(s.added, f) {
      var g :| g in s.added && Tied(f, g);
      TiedChain(f, g, f);
      TiedOnlyItself(s, e, f, g);
    }
  }

  lemma MeetsAgree(s: LevelState, e: LevelEdit)
    requires Ordered(s.added) && OneStep(Shown(s), e) == Shown(ApplyLevel(s, e))
    ensures Agree(s, e)
  {
    hide ApplyLevel, Ordered, Tied, Shown, Numbers, Saved, AnyTied;
    var own, all, files := ApplyLevel(NOTHING, e), ApplyLevel(s, e), Shown(s);
    EmptyIsOrdered();
    ApplyLevelIs(NOTHING, e);
    ApplyLevelIs(s, e);
    ShownMembers(s);
    ShownMembers(all);
    SavedMembers(files, own.deleted, own.added);
    forall f, g | f in files && g in e.added
      ensures !Tied(f, g)
    {
      LiveTieShows(files, e, f, g);
    }
    forall f | f in s.added && f.number in s.deleted && f.number in Numbers(e.added)
      ensures f in own.added
    {
      assert f in Shown(all);
    }
  }

  lemma LiveTieShows(files: seq<File>, e: LevelEdit, f: File, g: File)
    requires f in files && g in e.added && Ordered(OneStep(files, e))
    ensures !Tied(f, g)
  {
    hide ApplyLevel, Ordered, Tied, Numbers, Saved;
    if Tied(f, g) {
      EmptyIsOrdered();
      ApplyLevelIs(NOTHING, e);
      var own := ApplyLevel(NOTHING, e);
      assert AnyTied(own.added, g);
      var h :| h in own.added && Tied(g, h);
      TiedChain(f, g, h);
      NumberOf(e.added, g);
      TieIsNotOrdered(files, own.deleted, own.added, f, h);
    }
  }

  /**
   The two ways at work: `f` was added and deleted, and then its number is added again for another file.
   One builder for all edits has `f` live again; building version after version does not.
   */
  lemma ReusedNumberDisagrees(f: File, g: File)
    requires f.number == g.number && f != g
    ensures
      var s, e := LevelState({f.number}, [f]), LevelEdit({}, [g]);
      Shown(s) == [] && OneStep([], e) == [g] && f in Shown(ApplyLevel(s, e))
  {
    hide Insert, Saved, ApplyLevel, Survivors, Tied;
    var s := LevelState({f.number}, [f]);
    AddsOne(s, g);
    OwnAddsOne(g);
    OneIsOrdered(f);
    InsertedIs([f], g);
    ShownMembers(LevelState({}, Insert([f], g)));
    assert {f.number} - {g.number} == {};
    ShownIs(s);
    NoneSurvives(f);
  }

  lemma NoneSurvives(f: File)
    ensures Survivors([f], {f.number}) == [] && Survivors([f], {}) == [f]
  {
  }

  lemma OneIsOrdered(f: File)
    ensures Ordered([f])
  {
  }

  /** What an empty builder takes from adding one file, and saves of it. */
  lemma OwnAddsOne(g: File)
    ensures ApplyLevel(NOTHING, LevelEdit({}, [g])) == LevelState({}, [g])
    ensures Saved([], {}, [g]) == [g]
  {
    AddsOne(NOTHING, g);
    var r: seq<File> := [g];
    assert {} - {g.number} == {};
    assert r[1..] == [];
    assert Saved([], {}, r) == [g] + Saved([], {}, r[1..]);
  }

  /** Adding a file that is equal, by number and smallest key, to a live one: the set drops it, a version lists both. */
  lemma TiedFileDisagrees(f: File, g: File)
    requires Tied(g, f)
    ensures
      var s, e := LevelState({}, [f]), LevelEdit({}, [g]);
      Shown(s) == [f] && OneStep([f], e) == [f, g] && Shown(ApplyLevel(s, e)) == [f]
  {
    hide ApplyLevel, Before, Tied, FileData.Valid;
    var s, files := LevelState({}, [f]), [f];
    AddsOne(s, g);
    OwnAddsOne(g);
    Trichotomy(g, f);
    Trichotomy(f, g);
    TiedChain(g, f, g);
    assert Insert(files, g) == files;
    assert {} - {g.number} == {};
    ShownIs(s);
    NoneSurvives(f);
    assert files[1..] == [];
    assert Saved(files, {}, [g]) == [f] + Saved(files[1..], {}, [g]);
  }

  lemma AddsOne(s: LevelState, f: File)
    ensures ApplyLevel(s, LevelEdit({}, [f])) == LevelState(s.deleted - {f.number}, Insert(s.added, f))
  {
    hide Insert;
    var files := [f];
    var s0, s1 := LevelState(s.deleted + {}, s.added), LevelState(s.deleted - {f.number}, Insert(s.added, f));
    assert s.deleted + {} == s.deleted;
    assert AddFiles(s0, files) == AddFiles(s1, files[1..]);
    assert files[1..] == [];
  }

  // ---------------------------------------------------------------- the builder

  class Builder {
    const base: Version
    var levels: seq<LevelState>

    ghost predicate Valid() reads this {
      && |base| == |levels| == NUM_LEVELS
      && forall l :: 0 <= l < NUM_LEVELS ==> InOrder(base[l]) && Ordered(levels[l].added)
    }

    constructor (base: Version)
      requires |base| == NUM_LEVELS && forall l :: 0 <= l < NUM_LEVELS ==> InOrder(base[l])
      ensures Valid() && this.base == base && levels == EMPTY
    {
      this.base := base;
      levels := seq(NUM_LEVELS, _ => NOTHING);
      new;
      assert levels == EMPTY;
    }

    lemma HasParts()
      requires Valid()
      ensures |base| == |levels| == NUM_LEVELS
    {
    }

    /** Apply an edit to every level it names. */
    method Apply(e: seq<LevelEdit>)
      requires Valid() && |e| == NUM_LEVELS
      modifies `levels
      ensures Valid() && levels == Applied(old(levels), e)
    {
      hide Ordered, ApplyLevel, InOrder;
      ghost var levels0 := levels;
      for l := 0 to NUM_LEVELS
        invariant |levels| == NUM_LEVELS
        invariant forall k :: 0 <= k < NUM_LEVELS ==> levels[k] == if k < l then ApplyLevel(levels0[k], e[k]) else levels0[k]
        invariant forall k :: 0 <= k < NUM_LEVELS ==> Ordered(levels[k].added)
      {
        ApplyLevelIs(levels[l], e[l]);
        var s := ApplyOneLevel(levels[l], e[l]);
        levels := levels[l := s];
      }
    }

    /** Merge what was collected with the base version, level by level. */
    method SaveTo() returns (v: Version)
      requires Valid()
      ensures v == SavedLevels(base, levels)
    {
      hide Ordered, InOrder, Saved;
      v := [];
      for l := 0 to NUM_LEVELS
        invariant |v| == l && forall k :: 0 <= k < l ==> v[k] == Saved(base[k], levels[k].deleted, levels[k].added)
      {
        var r := SaveLevel(base[l], levels[l].deleted, levels[l].added);
        v := v + [r];
      }
    }
  }

  const EMPTY: seq<LevelState> := [NOTHING, NOTHING, NOTHING, NOTHING, NOTHING, NOTHING, NOTHING]

  const NO_FILES: Version := [[], [], [], [], [], [], []]

  function Applied(levels: seq<LevelState>, e: seq<LevelEdit>): (r: seq<LevelState>)
    requires |levels| == |e|
    ensures |r| == |levels|
  {
    seq(|levels|, l requires 0 <= l < |levels| => ApplyLevel(levels[l], e[l]))
  }

  function SavedLevels(base: Version, levels: seq<LevelState>): (v: Version)
    requires |base| == |levels|
    ensures |v| == |base|
  {
    seq(|base|, l requires 0 <= l < |base| => Saved(base[l], levels[l].deleted, levels[l].added))
  }

  /** The two loops of `Apply` at one level. */
  method ApplyOneLevel(s: LevelState, e: LevelEdit) returns (r: LevelState)
    ensures r == ApplyLevel(s, e)
  {
    r := LevelState(s.deleted + e.deleted, s.added);
    hide Insert;
    assert e.added[0..] == e.added;
    for i := 0 to |e.added|
      invariant AddFiles(r, e.added[i..]) == ApplyLevel(s, e)
    {
      var f := e.added[i];
      assert e.added[i..][1..] == e.added[i + 1..];
      r := LevelState(r.deleted - {f.number}, Insert(r.added, f));
    }
  }

  // ---------------------------------------------------------------- manifests

  /** A manifest record. */
  datatype Edit = Edit(logNumber: Option<nat>, prevLogNumber: Option<nat>, nextFile: Option<nat>,
                       lastSequence: Option<nat>, levels: seq<LevelEdit>)

  ghost predicate SevenLevels(manifest: seq<Edit>) {
    forall k :: 0 <= k < |manifest| ==> |manifest[k].levels| == NUM_LEVELS
  }

  /** The builder's state after all records of a manifest. */
  function Replay(manifest: seq<Edit>): (r: seq<LevelState>)
    requires SevenLevels(manifest)
    ensures |r| == NUM_LEVELS
  {
    if manifest == [] then EMPTY
    else
      var n := |manifest| - 1;
      assert SevenLevels(manifest[..n]);
      Applied(Replay(manifest[..n]), manifest[n].levels)
  }

  /** The version that a manifest describes. */
  function Described(manifest: seq<Edit>): (v: Version)
    requires SevenLevels(manifest)
    ensures |v| == NUM_LEVELS
  {
    SavedLevels(NO_FILES, Replay(manifest))
  }

  lemma {:induction false} ReplayOrdered(manifest: seq<Edit>)
    requires SevenLevels(manifest)
    ensures forall l :: 0 <= l < NUM_LEVELS ==> Ordered(Replay(manifest)[l].added)
  {
    hide Ordered, ApplyLevel;
    if manifest == [] {
      EmptyIsOrdered();
    } else {
      var n := |manifest| - 1;
      ReplayOrdered(manifest[..n]);
      forall l | 0 <= l < NUM_LEVELS
        ensures Ordered(Replay(manifest)[l].added)
      {
        ApplyLevelIs(Replay(manifest[..n])[l], manifest[n].levels[l]);
      }
    }
  }

  lemma ReplayMore(m: seq<Edit>, e: Edit)
    requires SevenLevels(m) && |e.levels| == NUM_LEVELS
    ensures SevenLevels(m + [e]) && Replay(m + [e]) == Applied(Replay(m), e.levels)
  {
    hide Applied;
    assert (m + [e])[..|m|] == m;
  }

  /** The next version, by a builder of its own on the current one. */
  function Next(v: Version, e: seq<LevelEdit>): (v': Version)
    requires |v| == |e|
    ensures |v'| == |v|
  {
    seq(|v|, l requires 0 <= l < |v| => OneStep(v[l], e[l]))
  }

  ghost predicate AllAgree(levels: seq<LevelState>, e: seq<LevelEdit>)
    requires |levels| == |e|
  {
    forall l :: 0 <= l < |e| ==> Agree(levels[l], e[l])
  }

  /** One more record describes the next version exactly if the edit agrees with the records before it. */
  lemma NextIsDescribed(m: seq<Edit>, e: Edit)
    requires SevenLevels(m) && |e.levels| == NUM_LEVELS
    ensures SevenLevels(m + [e])
    ensures Described(m + [e]) == Next(Described(m), e.levels) <==> AllAgree(Replay(m), e.levels)
  {
    hide Ordered, Agree, ApplyLevel, Shown, OneStep, Replay;
    ReplayMore(m, e);
    ReplayOrdered(m);
    var levels := Replay(m);
    forall l | 0 <= l < NUM_LEVELS
      ensures Described(m + [e])[l] == Next(Described(m), e.levels)[l] <==> Agree(levels[l], e.levels[l])
    {
      DescribedAt(m, l);
      DescribedAt(m + [e], l);
      StepIsExact(levels[l], e.levels[l]);
    }
  }

  lemma DescribedAt(m: seq<Edit>, l: nat)
    requires SevenLevels(m) && l < NUM_LEVELS
    ensures Described(m)[l] == Shown(Replay(m)[l])
  {
    hide Replay, Saved;
  }

  datatype Counters = Counters(logNumber: Option<nat>, prevLogNumber: Option<nat>, nextFile: Option<nat>, lastSequence: Option<nat>)

  function Later(a: Option<nat>, b: Option<nat>): Option<nat> { if b.Some? then b else a }

  /** For each counter the last record that has it decides. */
  function CountersOf(manifest: seq<Edit>): Counters {
    if manifest == [] then Counters(None, None, None, None)
    else
      var c, e := CountersOf(manifest[..|manifest| - 1]), manifest[|manifest| - 1];
      Counters(Later(c.logNumber, e.logNumber), Later(c.prevLogNumber, e.prevLogNumber),
               Later(c.nextFile, e.nextFile), Later(c.lastSequence, e.lastSequence))
  }

  /** The record that lists a whole version. */
  function SnapshotOf(v: Version): Edit {
    Edit(None, None, None, None, seq(|v|, l requires 0 <= l < |v| => LevelEdit({}, v[l])))
  }

  lemma {:induction false} AddsInOrder(s: LevelState, files: seq<File>)
    requires Ordered(s.added + files)
    ensures AddFiles(s, files).added == s.added + files
    decreases files
  {
    hide Before, FileData.Valid, Insert;
    if files == [] {
      assert s.added + files == s.added;
    } else {
      var f := files[0];
      assert s.added + files == (s.added + [f]) + files[1..];
      forall g | g in s.added
        ensures Before(g, f)
      {
        var k :| 0 <= k < |s.added| && s.added[k] == g;
        assert (s.added + files)[k] == g && (s.added + files)[|s.added|] == f;
      }
      InsertsLast(s.added, f);
      AddsInOrder(LevelState(s.deleted - {f.number}, s.added + [f]), files[1..]);
    }
  }

  lemma {:induction false} InsertsLast(files: seq<File>, f: File)
    requires forall g :: g in files ==> Before(g, f)
    ensures Insert(files, f) == files + [f]
  {
    hide Before, FileData.Valid;
    if files != [] {
      assert files == [files[0]] + files[1..];
      Trichotomy(files[0], f);
      InsertsLast(files[1..], f);
    }
  }

  /** A snapshot describes its version exactly if no level has ties. */
  lemma SnapshotDescribes(v: Version)
    requires |v| == NUM_LEVELS
    ensures SevenLevels([SnapshotOf(v)])
    ensures Described([SnapshotOf(v)]) == v <==> forall l :: 0 <= l < NUM_LEVELS ==> Ordered(v[l])
  {
    hide Ordered, ApplyLevel, Saved, Shown;
    var m := [SnapshotOf(v)];
    assert m[..0] == [];
    EmptyIsOrdered();
    forall l | 0 <= l < NUM_LEVELS
      ensures Described(m)[l] == v[l] <==> Ordered(v[l])
    {
      assert Replay(m)[l] == ApplyLevel(NOTHING, LevelEdit({}, v[l]));
      ApplyLevelIs(NOTHING, LevelEdit({}, v[l]));
      ShownMembers(Replay(m)[l]);
      DescribedAt(m, l);
      if Ordered(v[l]) {
        ListedLevel(v[l]);
      }
    }
  }

  lemma ListedLevel(files: seq<File>)
    requires Ordered(files)
    ensures Shown(ApplyLevel(NOTHING, LevelEdit({}, files))) == files
  {
    hide Ordered, AddFiles, Saved, Survivors;
    var s := LevelState({} + {}, []);
    assert [] + files == files;
    EmptyIsOrdered();
    AddsInOrder(s, files);
    AddFilesIs(s, files);
    assert AddFiles(s, files) == LevelState({}, files);
    ShownIs(LevelState({}, files));
    AllSurvive(files);
  }

  lemma {:induction false} AllSurvive(files: seq<File>)
    ensures Survivors(files, {}) == files
    decreases files
  {
    if files != [] {
      AllSurvive(files[1..]);
    }
  }

  /** An edit as it is written: with every counter, the log numbers as they were if it does not change them. */
  function Completed(e: Edit, logNumber: nat, prevLogNumber: nat, nextFile: nat, lastSequence: nat): Edit {
    e.(logNumber := Later(Some(logNumber), e.logNumber), prevLogNumber := Later(Some(prevLogNumber), e.prevLogNumber),
       nextFile := Some(nextFile), lastSequence := Some(lastSequence))
  }

  // ---------------------------------------------------------------- the version set

  /** What recovery reads from a manifest. */
  datatype Recovered = Recovered(version: Version, nextFile: nat, lastSequence: nat, logNumber: nat, prevLogNumber: nat)

  class VersionSet {
    var current: Version
    var nextFile: nat
    var lastSequence: nat
    var logNumber: nat
    var prevLogNumber: nat
    var manifest: seq<Edit>

    ghost predicate Valid() reads this {
      && |current| == NUM_LEVELS && (forall l :: 0 <= l < NUM_LEVELS ==> InOrder(current[l]))
      && SevenLevels(manifest)
    }

    /** The records that the next edit will follow. */
    ghost function Records(): (m: seq<Edit>)
      requires Valid()
      reads this
      ensures m != [] && SevenLevels(m)
    {
      if manifest == [] then [SnapshotOf(current)] else manifest
    }

    /** Apply an edit to the current version and append it to the manifest, which starts with a snapshot. */
    method LogAndApply(edit: Edit)
      requires Valid() && |edit.levels| == NUM_LEVELS
      modifies this
      ensures Valid() && nextFile == old(nextFile) && lastSequence == old(lastSequence)
      ensures current == Next(old(current), edit.levels)
      ensures manifest == old(Records()) +
        [Completed(edit, old(logNumber), old(prevLogNumber), old(nextFile), old(lastSequence))]
      ensures CountersOf(manifest) == Counters(Some(logNumber), Some(prevLogNumber), Some(nextFile), Some(lastSequence))
      ensures logNumber == if edit.logNumber.Some? then edit.logNumber.value else old(logNumber)
      ensures prevLogNumber == if edit.prevLogNumber.Some? then edit.prevLogNumber.value else old(prevLogNumber)
      ensures old(Described(Records()) == current) ==>
        (Described(manifest) == current <==> AllAgree(old(Replay(Records())), edit.levels))
    {
      hide *;
      ghost var m, v := Records(), current;
      var e := edit;
      if e.logNumber == None { e := e.(logNumber := Some(logNumber)); }
      if e.prevLogNumber == None { e := e.(prevLogNumber := Some(prevLogNumber)); }
      e := e.(nextFile := Some(nextFile), lastSequence := Some(lastSequence));
      HasParts();
      CompletedIs(edit, e, logNumber, prevLogNumber, nextFile, lastSequence);
      var builder := new Builder(current);
      builder.HasParts();
      builder.Apply(e.levels);
      var v' := builder.SaveTo();
      OwnBuilder(current, e.levels, v');
      NextIsDescribed(m, e);
      CountersMore(m, e);
      if manifest == [] {
        manifest := [SnapshotOf(current)];
      }
      manifest := manifest + [e];
      current := v';
      logNumber, prevLogNumber := e.logNumber.value, e.prevLogNumber.value;
      MakesValid();
    }

    lemma HasParts()
      requires Valid()
      ensures |current| == NUM_LEVELS && (forall l :: 0 <= l < NUM_LEVELS ==> InOrder(current[l])) && SevenLevels(manifest)
      ensures Records() == if manifest == [] then [SnapshotOf(current)] else manifest
    {
    }

    lemma MakesValid()
      requires |current| == NUM_LEVELS && (forall l :: 0 <= l < NUM_LEVELS ==> InOrder(current[l])) && SevenLevels(manifest)
      ensures Valid()
    {
    }
  }

  lemma CompletedIs(edit: Edit, e: Edit, logNumber: nat, prevLogNumber: nat, nextFile: nat, lastSequence: nat)
    requires
      var e1 := if edit.logNumber == None then edit.(logNumber := Some(logNumber)) else edit;
      var e2 := if e1.prevLogNumber == None then e1.(prevLogNumber := Some(prevLogNumber)) else e1;
      e == e2.(nextFile := Some(nextFile), lastSequence := Some(lastSequence))
    ensures e == Completed(edit, logNumber, prevLogNumber, nextFile, lastSequence)
  {
  }

  lemma CountersMore(m: seq<Edit>, e: Edit)
    requires e.logNumber.Some? && e.prevLogNumber.Some? && e.nextFile.Some? && e.lastSequence.Some?
    ensures CountersOf(m + [e]) == Counters(e.logNumber, e.prevLogNumber, e.nextFile, e.lastSequence)
  {
    assert (m + [e])[..|m|] == m;
  }

  /** A builder that takes one edit on a version makes the next version, in order. */
  lemma OwnBuilder(v: Version, e: seq<LevelEdit>, v': Version)
    requires |v| == |e| == NUM_LEVELS && (forall l :: 0 <= l < NUM_LEVELS ==> InOrder(v[l]))
    requires v' == SavedLevels(v, Applied(EMPTY, e))
    ensures v' == Next(v, e) && forall l :: 0 <= l < NUM_LEVELS ==> InOrder(v'[l])
  {
    hide InOrder, Ordered, ApplyLevel, Saved;
    EmptyIsOrdered();
    forall l | 0 <= l < NUM_LEVELS
      ensures v'[l] == OneStep(v[l], e[l]) && InOrder(v'[l])
    {
      ApplyLevelIs(NOTHING, e[l]);
      SavedInOrder(v[l], ApplyLevel(NOTHING, e[l]).deleted, ApplyLevel(NOTHING, e[l]).added);
    }
  }

  /**
   `VersionSet::Recover`: one builder takes all records; the last value of each counter counts.  `None`
   stands for a manifest without one of the counters it must have.
   */
  method Recover(manifest: seq<Edit>) returns (r: Option<Recovered>)
    requires SevenLevels(manifest)
    ensures
      var c := CountersOf(manifest);
      r.None? <==> c.nextFile.None? || c.logNumber.None? || c.lastSequence.None?
    ensures r.Some? ==>
      var c := CountersOf(manifest);
      && r.value.version == Described(manifest)
      && r.value.nextFile == c.nextFile.value + 1 && r.value.lastSequence == c.lastSequence.value
      && r.value.logNumber == c.logNumber.value
      && r.value.prevLogNumber == if c.prevLogNumber.Some? then c.prevLogNumber.value else 0
  {
    hide *;
    NoFilesInOrder();
    var builder := new Builder(NO_FILES);
    var logNumber: Option<nat>, prevLogNumber: Option<nat>, nextFile: Option<nat>, lastSequence: Option<nat> := None, None, None, None;
    NoRecords(manifest);
    LaterIs();
    for k := 0 to |manifest|
      invariant builder.Valid() && builder.base == NO_FILES && SevenLevels(manifest[..k]) && builder.levels == Replay(manifest[..k])
      invariant CountersOf(manifest[..k]) == Counters(logNumber, prevLogNumber, nextFile, lastSequence)
    {
      var e := manifest[k];
      RecordStep(manifest, k);
      builder.HasParts();
      builder.Apply(e.levels);
      if e.logNumber.Some? { logNumber := e.logNumber; }
      if e.prevLogNumber.Some? { prevLogNumber := e.prevLogNumber; }
      if e.nextFile.Some? { nextFile := e.nextFile; }
      if e.lastSequence.Some? { lastSequence := e.lastSequence; }
    }
    assert manifest[..|manifest|] == manifest;
    if nextFile == None || logNumber == None || lastSequence == None {
      return None;
    }
    builder.HasParts();
    var v := builder.SaveTo();
    DescribedIs(manifest);
    r := Some(Recovered(v, nextFile.value + 1, lastSequence.value, logNumber.value,
                        if prevLogNumber.Some? then prevLogNumber.value else 0));
  }

  lemma LaterIs()
    ensures forall a: Option<nat>, b: Option<nat> :: Later(a, b) == if b.Some? then b else a
  {
  }

  lemma NoFilesInOrder()
    ensures |NO_FILES| == NUM_LEVELS && forall l :: 0 <= l < NUM_LEVELS ==> InOrder(NO_FILES[l])
  {
  }

  lemma DescribedIs(manifest: seq<Edit>)
    requires SevenLevels(manifest)
    ensures |NO_FILES| == NUM_LEVELS && Described(manifest) == SavedLevels(NO_FILES, Replay(manifest))
  {
    hide Replay, SavedLevels;
  }

  lemma NoRecords(manifest: seq<Edit>)
    ensures manifest[..0] == [] && SevenLevels([]) && Replay([]) == EMPTY && CountersOf([]) == Counters(None, None, None, None)
  {
  }

  lemma RecordStep(manifest: seq<Edit>, k: nat)
    requires k < |manifest| && SevenLevels(manifest)
    ensures |manifest[k].levels| == NUM_LEVELS && SevenLevels(manifest[..k]) && SevenLevels(manifest[..k + 1])
    ensures Replay(manifest[..k + 1]) == Applied(Replay(manifest[..k]), manifest[k].levels)
    ensures
      var c, e := CountersOf(manifest[..k]), manifest[k];
      CountersOf(manifest[..k + 1]) == Counters(Later(c.logNumber, e.logNumber), Later(c.prevLogNumber, e.prevLogNumber),
                                                Later(c.nextFile, e.nextFile), Later(c.lastSequence, e.lastSequence))
  {
    hide Applied;
    assert manifest[..k + 1][..k] == manifest[..k];
  }

  /** Recovering from the manifest that a version set wrote gives its counters, and its version if that is described. */
  method ReadBack(vs: VersionSet) returns (r: Option<Recovered>)
    requires vs.Valid() && vs.manifest != []
    requires CountersOf(vs.manifest) ==
      Counters(Some(vs.logNumber), Some(vs.prevLogNumber), Some(vs.nextFile), Some(vs.lastSequence))
    ensures r.Some?
    ensures r == Some(Recovered(vs.current, vs.nextFile + 1, vs.lastSequence, vs.logNumber, vs.prevLogNumber))
      <==> Described(vs.manifest) == vs.current
  {
    hide Replay, CountersOf, Described;
    r := Recover(vs.manifest);
  }
}
