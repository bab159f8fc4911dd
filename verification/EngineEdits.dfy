/**
 The edits that the engine's steps install.  Whatever the run, each is one on which collecting all edits in one
 builder and building version after version agree; so the records written so far always describe the version.
 */
module EngineEdits {
  import opened Keys
  import opened Files
  import opened VersionBuilder
  import opened Versions
  import opened Selection
  import opened VersionSteps
  import opened CompactionSteps
  import E = Engine
  import M = Manifest

  /** An edit of one or two neighbouring levels. */
  function EditAt(level: nat, here: M.LevelEdit, below: M.LevelEdit): (e: seq<M.LevelEdit>)
    ensures |e| == NUM_LEVELS
  {
    seq(NUM_LEVELS, l requires 0 <= l < NUM_LEVELS =>
      if l == level then here else if l == level + 1 then below else M.LevelEdit({}, []))
  }

  /** The edit of a flush or, with an empty file list, of a step that installs nothing. */
  function FlushEdit(level: nat, files: seq<File>): (e: seq<M.LevelEdit>)
    ensures |e| == NUM_LEVELS
  {
    EditAt(level, M.LevelEdit({}, files), M.LevelEdit({}, []))
  }

  /** The edit of a compaction or a move: delete the inputs, add the outputs one level down. */
  function ReplaceEdit(level: nat, here: seq<File>, next: seq<File>, outs: seq<File>): (e: seq<M.LevelEdit>)
    ensures |e| == NUM_LEVELS
  {
    EditAt(level, M.LevelEdit(Numbers(here), []), M.LevelEdit(Numbers(next), outs))
  }

  /** What a step writes to the manifest. */
  ghost predicate Installs(st: E.State, st': E.State, e: seq<M.LevelEdit>) {
    || (st'.version == st.version && e == FlushEdit(0, []))
    || (exists level: nat, f: File :: level < NUM_LEVELS && f.number == st.nextFile && e == FlushEdit(level, [f]))
    || (exists level: nat, here, next, outs ::
          Replaces(st.version, level, here, next, outs, st'.version) && e == ReplaceEdit(level, here, next, outs))
  }

  // ---------------------------------------------------------------- numbers

  /** Every collected number is used up, and its file, if it is live, has not moved up since. */
  ghost predicate NumbersOk(levels: seq<M.LevelState>, v: Version, nextFile: nat)
    requires |levels| == |v|
  {
    && (forall l, f :: 0 <= l < |levels| && f in levels[l].added ==> f.number < nextFile)
    && forall l, f, m, g :: 0 <= l < |levels| && f in levels[l].added && 0 <= m < |v| && g in v[m] && g.number == f.number ==> l <= m
  }

  /** The collected edits show the version. */
  ghost predicate Tracks(levels: seq<M.LevelState>, st: E.State) {
    && |levels| == |st.version| == NUM_LEVELS
    && (forall l :: 0 <= l < NUM_LEVELS ==> Ordered(levels[l].added) && M.Shown(levels[l]) == st.version[l])
    && NumbersOk(levels, st.version, st.nextFile)
  }

  // ---------------------------------------------------------------- one level

  ghost predicate NumbersDiffer(files: seq<File>) {
    forall f, g :: f in files && g in files && f.number == g.number ==> f == g
  }

  /** An edit that adds files with numbers of their own does what `Rebuilt` says. */
  lemma OneStepRebuilds(files: seq<File>, e: M.LevelEdit, r: seq<File>)
    requires Ordered(files) && Rebuilt(files, e.deleted, e.added, r) && NumbersDiffer(e.added)
    requires forall f :: f in e.added ==> f.number !in e.deleted
    requires forall f, g :: f in files && g in e.added ==> f.number != g.number
    ensures M.OneStep(files, e) == r
  {
    hide Before, FileData.Valid, M.ApplyLevel, Saved, Ordered, Numbers, Tied;
    var own := M.ApplyLevel(M.NOTHING, e);
    M.EmptyIsOrdered();
    M.ApplyLevelIs(M.NOTHING, e);
    OwnMembers(e);
    ApartAreNotTied(files, own.added);
    SavedIsRebuilt(files, own.deleted, own.added);
    forall f
      ensures f in Saved(files, own.deleted, own.added) <==> f in r
    {
      M.NumberOf(e.added, f);
      DeletedApart(e, f);
    }
    OrderedIsUnique(Saved(files, own.deleted, own.added), r);
  }

  lemma DeletedApart(e: M.LevelEdit, f: File)
    requires forall g :: g in e.added ==> g.number !in e.deleted
    ensures f.number in {} + e.deleted - Numbers(e.added) <==> f.number in e.deleted
  {
  }

  lemma OwnMembers(e: M.LevelEdit)
    requires NumbersDiffer(e.added)
    ensures forall f :: f in M.ApplyLevel(M.NOTHING, e).added <==> f in e.added
  {
    hide M.ApplyLevel, Ordered, Tied;
    M.EmptyIsOrdered();
    M.ApplyLevelIs(M.NOTHING, e);
    forall f | f in e.added
      ensures f in M.ApplyLevel(M.NOTHING, e).added
    {
      assert M.AnyTied(M.ApplyLevel(M.NOTHING, e).added, f);
      var g :| g in M.ApplyLevel(M.NOTHING, e).added && Tied(f, g);
      M.TiedChain(f, g, f);
    }
  }

  lemma ApartAreNotTied(files: seq<File>, added: seq<File>)
    requires forall f, g :: f in files && g in added ==> f.number != g.number
    ensures NoTies(files, added)
  {
    hide Before;
    forall f, g | f in files && g in added
      ensures Before(f, g) || Before(g, f)
    {
      Trichotomy(f, g);
    }
  }

  /** With numbers that were never collected at this level, the two ways agree. */
  lemma NewNumbersAgree(s: M.LevelState, e: M.LevelEdit)
    requires Ordered(s.added) && forall f, g :: f in s.added && g in e.added ==> f.number != g.number
    ensures M.Agree(s, e)
  {
    hide M.Shown, M.ApplyLevel, Ordered, FileData.Smallest;
    M.ShownMembers(s);
  }

  lemma NothingChanges(files: seq<File>)
    requires Ordered(files)
    ensures M.OneStep(files, M.LevelEdit({}, [])) == files
  {
    hide Ordered, Rebuilt, M.OneStep;
    KeepsAll(files);
    OneStepRebuilds(files, M.LevelEdit({}, []), files);
  }

  lemma KeepsAll(files: seq<File>)
    requires Ordered(files)
    ensures Rebuilt(files, {}, [], files)
  {
  }

  // ---------------------------------------------------------------- one step

  /** Live files under the numbers of collected ones are no deeper to find than where those were collected. */
  ghost predicate NoneMovedUp(added: seq<File>, level: nat, v: Version) {
    forall f, m, g :: f in added && 0 <= m < |v| && g in v[m] && g.number == f.number ==> level <= m
  }

  ghost predicate NumbersApartFrom(collected: seq<File>, added: seq<File>) {
    forall f, g :: f in collected && g in added ==> f.number != g.number
  }

  ghost predicate AllBelow(files: seq<File>, n: nat) { forall f :: f in files ==> f.number < n }

  /** What an edit needs so that one builder goes on to show the version. */
  ghost predicate Fits(levels: seq<M.LevelState>, st: E.State, e: seq<M.LevelEdit>, st': E.State)
    requires |levels| == |st.version| == |e| == |st'.version| == NUM_LEVELS
  {
    && st.nextFile <= st'.nextFile
    && (forall l :: 0 <= l < NUM_LEVELS ==> M.OneStep(st.version[l], e[l]) == st'.version[l])
    && (forall l :: 0 <= l < NUM_LEVELS ==> NumbersApartFrom(levels[l].added, e[l].added) && AllBelow(e[l].added, st'.nextFile))
    && forall l :: 0 <= l < NUM_LEVELS ==> NoneMovedUp(levels[l].added, l, st'.version) && NoneMovedUp(e[l].added, l, st'.version)
  }

  lemma TracksNext(levels: seq<M.LevelState>, st: E.State, e: seq<M.LevelEdit>, st': E.State)
    requires Tracks(levels, st) && |e| == |st'.version| == NUM_LEVELS && Fits(levels, st, e, st')
    ensures M.AllAgree(levels, e) && Tracks(M.Applied(levels, e), st')
  {
    hide M.OneStep, M.Shown, M.ApplyLevel, M.Agree, Ordered, NumbersApartFrom, NoneMovedUp, AllBelow, NumbersOk;
    var r := M.Applied(levels, e);
    forall l | 0 <= l < NUM_LEVELS
      ensures M.Agree(levels[l], e[l]) && Ordered(r[l].added) && M.Shown(r[l]) == st'.version[l]
      ensures AllBelow(r[l].added, st'.nextFile) && NoneMovedUp(r[l].added, l, st'.version)
    {
      CollectedBelow(levels, st.version, st.nextFile, st'.nextFile, l);
      LevelNext(levels[l], e[l], l, st'.version, st'.nextFile);
    }
    AreNumbersOk(r, st'.version, st'.nextFile);
  }

  lemma CollectedBelow(levels: seq<M.LevelState>, v: Version, n: nat, n': nat, l: nat)
    requires |levels| == |v| && NumbersOk(levels, v, n) && n <= n' && l < |levels|
    ensures AllBelow(levels[l].added, n')
  {
  }

  lemma AreNumbersOk(levels: seq<M.LevelState>, v: Version, n: nat)
    requires |levels| == |v|
    requires forall l :: 0 <= l < |v| ==> AllBelow(levels[l].added, n) && NoneMovedUp(levels[l].added, l, v)
    ensures NumbersOk(levels, v, n)
  {
  }

  lemma LevelNext(s: M.LevelState, e: M.LevelEdit, l: nat, v: Version, n: nat)
    requires Ordered(s.added) && NumbersApartFrom(s.added, e.added)
    requires AllBelow(s.added, n) && AllBelow(e.added, n) && NoneMovedUp(s.added, l, v) && NoneMovedUp(e.added, l, v)
    ensures
      var r := M.ApplyLevel(s, e);
      && M.Agree(s, e) && Ordered(r.added) && M.Shown(r) == M.OneStep(M.Shown(s), e)
      && AllBelow(r.added, n) && NoneMovedUp(r.added, l, v)
  {
    hide M.ApplyLevel, M.Shown, M.OneStep, M.Agree, Ordered, NoneMovedUp, AllBelow, M.AnyTied;
    NewNumbersAgree(s, e);
    M.StepIsExact(s, e);
    M.ApplyLevelIs(s, e);
    JoinsUp(s.added, e.added, M.ApplyLevel(s, e).added, l, v, n);
  }

  lemma JoinsUp(a: seq<File>, b: seq<File>, r: seq<File>, l: nat, v: Version, n: nat)
    requires forall f :: f in r ==> f in a || f in b
    requires AllBelow(a, n) && AllBelow(b, n) && NoneMovedUp(a, l, v) && NoneMovedUp(b, l, v)
    ensures AllBelow(r, n) && NoneMovedUp(r, l, v)
  {
    hide FileData.Valid;
  }

  // ---------------------------------------------------------------- the engine's steps

  lemma AtLevel(levels: seq<M.LevelState>, st: E.State, l: nat)
    requires Tracks(levels, st) && l < NUM_LEVELS
    ensures |levels| == |st.version| == NUM_LEVELS
    ensures Ordered(st.version[l]) && AllBelow(levels[l].added, st.nextFile) && NoneMovedUp(levels[l].added, l, st.version)
  {
    hide M.Shown, Ordered;
    M.ShownMembers(levels[l]);
  }

  /** A step that installs nothing new, or only takes a file number. */
  lemma SameFits(levels: seq<M.LevelState>, st: E.State, st': E.State)
    requires Tracks(levels, st) && st'.version == st.version && st'.nextFile >= st.nextFile
    ensures |levels| == |st.version| == NUM_LEVELS && Fits(levels, st, FlushEdit(0, []), st')
  {
    hide M.OneStep, Ordered, Tracks, NoneMovedUp, AllBelow;
    LevelsOf(levels, st);
    forall l | 0 <= l < NUM_LEVELS
      ensures M.OneStep(st.version[l], FlushEdit(0, [])[l]) == st'.version[l]
      ensures NoneMovedUp(levels[l].added, l, st'.version)
    {
      AtLevel(levels, st, l);
      NothingChanges(st.version[l]);
    }
    NoFilesFit(st'.version, st'.nextFile);
  }

  lemma LevelsOf(levels: seq<M.LevelState>, st: E.State)
    requires Tracks(levels, st)
    ensures |levels| == |st.version| == NUM_LEVELS
  {
  }

  lemma NoFilesFit(v: Version, n: nat)
    ensures AllBelow([], n) && forall l :: NoneMovedUp([], l, v)
  {
  }

  lemma FlushFits(levels: seq<M.LevelState>, st: E.State, level: nat, f: File, r: seq<File>, st': E.State)
    requires Tracks(levels, st) && E.NumbersBelow(st.version, st.nextFile) && level < NUM_LEVELS && f.number == st.nextFile
    requires |st.version| == NUM_LEVELS && Rebuilt(st.version[level], {}, [f], r)
    requires st'.version == st.version[level := r] && st'.nextFile == st.nextFile + 1
    ensures |levels| == NUM_LEVELS && Fits(levels, st, FlushEdit(level, [f]), st')
  {
    hide M.OneStep, Ordered, Tracks, NoneMovedUp, AllBelow, E.NumbersBelow, Rebuilt, NumbersApartFrom;
    LevelsOf(levels, st);
    var e := FlushEdit(level, [f]);
    NoFilesFit(st'.version, st'.nextFile);
    forall l | 0 <= l < NUM_LEVELS
      ensures M.OneStep(st.version[l], e[l]) == st'.version[l]
      ensures NumbersApartFrom(levels[l].added, e[l].added) && AllBelow(e[l].added, st'.nextFile)
      ensures NoneMovedUp(levels[l].added, l, st'.version) && NoneMovedUp(e[l].added, l, st'.version)
    {
      AtLevel(levels, st, l);
      NewFileFits(levels[l].added, l, st.version, level, f, r);
      if l == level {
        NewFileIsAdded(st.version, level, f, r);
      } else {
        NothingChanges(st.version[l]);
        NothingCollides(levels[l].added);
      }
    }
  }

  lemma NothingCollides(collected: seq<File>)
    ensures NumbersApartFrom(collected, [])
  {
  }

  lemma NewFileFits(collected: seq<File>, l: nat, v: Version, level: nat, f: File, r: seq<File>)
    requires level < |v| && Rebuilt(v[level], {}, [f], r) && E.NumbersBelow(v, f.number)
    requires AllBelow(collected, f.number) && NoneMovedUp(collected, l, v)
    ensures NumbersApartFrom(collected, [f]) && AllBelow([f], f.number + 1)
    ensures NoneMovedUp(collected, l, v[level := r]) && NoneMovedUp([f], level, v[level := r])
  {
    hide Ordered, FileData.Valid;
  }

  lemma NewFileIsAdded(v: Version, level: nat, f: File, r: seq<File>)
    requires level < |v| && Ordered(v[level]) && Rebuilt(v[level], {}, [f], r) && E.NumbersBelow(v, f.number)
    ensures M.OneStep(v[level], M.LevelEdit({}, [f])) == r
  {
    hide Ordered, FileData.Valid, Rebuilt, M.OneStep;
    assert NumbersDiffer([f]);
    OneStepRebuilds(v[level], M.LevelEdit({}, [f]), r);
  }

  /** Every output has a new number or is an input that moves down. */
  ghost predicate NewOrMoved(outs: seq<File>, here: seq<File>, nextFile: nat) {
    forall o :: o in outs ==> o.number >= nextFile || o in here
  }

  lemma ReplaceFits(levels: seq<M.LevelState>, st: E.State, l: nat, here: seq<File>, next: seq<File>, outs: seq<File>, st': E.State)
    requires Tracks(levels, st) && GoodVersion(st.version) && Replaces(st.version, l, here, next, outs, st'.version)
    requires NewOrMoved(outs, here, st.nextFile) && AllBelow(outs, st'.nextFile) && st'.nextFile >= st.nextFile
    ensures |levels| == |st.version| == |st'.version| == NUM_LEVELS && Fits(levels, st, ReplaceEdit(l, here, next, outs), st')
  {
    hide M.OneStep, Ordered, Tracks, NoneMovedUp, AllBelow, Replaces, NumbersApartFrom, GoodVersion, NewOrMoved;
    LevelsOf(levels, st);
    var e := ReplaceEdit(l, here, next, outs);
    NoFilesFit(st'.version, st'.nextFile);
    ReplaceShape(st.version, l, here, next, outs, st'.version);
    forall k | 0 <= k < NUM_LEVELS
      ensures M.OneStep(st.version[k], e[k]) == st'.version[k]
      ensures NumbersApartFrom(levels[k].added, e[k].added) && AllBelow(e[k].added, st'.nextFile)
      ensures NoneMovedUp(levels[k].added, k, st'.version) && NoneMovedUp(e[k].added, k, st'.version)
    {
      AtLevel(levels, st, k);
      CollectedStay(levels[k].added, k, st.version, st.nextFile, l, here, next, outs, st'.version);
      NothingCollides(levels[k].added);
      if k == l {
        InputsDeleted(st.version, l, here, next, outs, st'.version);
      } else if k == l + 1 {
        OutputsAdded(levels[k].added, st.version, st.nextFile, l, here, next, outs, st'.version);
      } else {
        NothingChanges(st.version[k]);
      }
    }
  }

  lemma ReplaceShape(v: Version, l: nat, here: seq<File>, next: seq<File>, outs: seq<File>, v': Version)
    requires Replaces(v, l, here, next, outs, v')
    ensures |v| == |v'| == NUM_LEVELS && l + 1 < NUM_LEVELS
    ensures forall m :: 0 <= m < NUM_LEVELS && m != l && m != l + 1 ==> v'[m] == v[m]
  {
  }

  lemma CollectedStay(collected: seq<File>, k: nat, v: Version, nextFile: nat, l: nat, here: seq<File>, next: seq<File>,
      outs: seq<File>, v': Version)
    requires GoodVersion(v) && Replaces(v, l, here, next, outs, v') && NewOrMoved(outs, here, nextFile)
    requires AllBelow(collected, nextFile) && NoneMovedUp(collected, k, v)
    ensures NoneMovedUp(collected, k, v')
  {
    hide Replaces, VersionOk, NumbersApart, FileData.Valid;
    ReplaceShape(v, l, here, next, outs, v');
    InputsLive(v, l, here, next, outs, v');
    forall f, m, g | f in collected && 0 <= m < |v'| && g in v'[m] && g.number == f.number
      ensures k <= m
    {
      FileCameFrom(v, l, here, next, outs, v', m, g);
    }
  }

  lemma InputsLive(v: Version, l: nat, here: seq<File>, next: seq<File>, outs: seq<File>, v': Version)
    requires Replaces(v, l, here, next, outs, v')
    ensures |v| == NUM_LEVELS > l + 1 && (forall f :: f in here ==> f in v[l]) && (forall f :: f in next ==> f in v[l + 1])
  {
    hide ReadyInputs, OutputsOk, Rebuilt;
    ReadyAreFiles(v, l, here, next);
  }

  lemma InputsDeleted(v: Version, l: nat, here: seq<File>, next: seq<File>, outs: seq<File>, v': Version)
    requires Replaces(v, l, here, next, outs, v') && |v| == |v'| == NUM_LEVELS > l + 1 && Ordered(v[l])
    ensures M.OneStep(v[l], M.LevelEdit(Numbers(here), [])) == v'[l]
  {
    hide ReadyInputs, OutputsOk, Rebuilt, Ordered, M.OneStep;
    OneStepRebuilds(v[l], M.LevelEdit(Numbers(here), []), v'[l]);
  }

  lemma OutputsAdded(collected: seq<File>, v: Version, nextFile: nat, l: nat, here: seq<File>, next: seq<File>, outs: seq<File>, v': Version)
    requires GoodVersion(v) && Replaces(v, l, here, next, outs, v') && NewOrMoved(outs, here, nextFile)
    requires |v| == |v'| == NUM_LEVELS > l + 1 && Ordered(v[l + 1])
    requires AllBelow(collected, nextFile) && NoneMovedUp(collected, l + 1, v)
    ensures M.OneStep(v[l + 1], M.LevelEdit(Numbers(next), outs)) == v'[l + 1]
    ensures NumbersApartFrom(collected, outs) && NoneMovedUp(outs, l + 1, v')
  {
    hide Replaces, GoodVersion, FileData.Valid, M.OneStep, Ordered, Rebuilt;
    InputsLive(v, l, here, next, outs, v');
    OutputNumbers(v, l, here, next, outs, v');
    OneStepRebuilds(v[l + 1], M.LevelEdit(Numbers(next), outs), v'[l + 1]);
    forall f, m, g | f in outs && 0 <= m < |v'| && g in v'[m] && g.number == f.number
      ensures l + 1 <= m
    {
      VersionOf(v);
      FileCameFrom(v, l, here, next, outs, v', m, g);
    }
  }

  lemma VersionOf(v: Version)
    requires GoodVersion(v)
    ensures VersionOk(v)
  {
  }

  lemma OutputNumbers(v: Version, l: nat, here: seq<File>, next: seq<File>, outs: seq<File>, v': Version)
    requires Replaces(v, l, here, next, outs, v') && |v| == |v'| == NUM_LEVELS > l + 1
    requires forall f :: f in next ==> f in v[l + 1]
    ensures NumbersDiffer(outs) && Rebuilt(v[l + 1], Numbers(next), outs, v'[l + 1])
    ensures forall f :: f in outs ==> f.number !in Numbers(next)
    ensures forall f, g :: f in v[l + 1] && g in outs ==> f.number != g.number
    ensures forall f, m, g :: f in outs && 0 <= m < |v| && g in v[m] && g.number == f.number ==> m == l && g in here
  {
    hide ReadyInputs, Rebuilt, FileData.Valid, Apart;
    forall f, k | f in outs && 0 <= k < |next|
      ensures f.number != next[k].number
    {
      assert next[k] in next;
    }
  }

  // ---------------------------------------------------------------- runs

  /** Each step of the engine installs an edit after which the collected records show the version again. */
  lemma StepInstalls(levels: seq<M.LevelState>, st: E.State, st': E.State) returns (e: seq<M.LevelEdit>)
    requires E.Inv(st) && E.Step(st, st') && Tracks(levels, st)
    ensures |levels| == |st.version| == |e| == |st'.version| == NUM_LEVELS
    ensures Installs(st, st', e) && Fits(levels, st, e, st')
  {
    hide *;
    LevelsOf(levels, st);
    InvParts(st);
    if E.FlushStep(st, st') {
      e := FlushInstalls(levels, st, st');
    } else if E.MoveStep(st, st') {
      e := MoveInstalls(levels, st, st');
    } else if E.FinishStep(st, st') {
      e := FinishInstalls(levels, st, st');
    } else {
      OtherSteps(st, st');
      e := FlushEdit(0, []);
      SameFits(levels, st, st');
    }
  }

  lemma InvParts(st: E.State)
    requires E.Inv(st)
    ensures GoodVersion(st.version) && E.NumbersBelow(st.version, st.nextFile)
  {
    hide GoodVersion, E.NumbersBelow;
  }

  lemma OtherSteps(st: E.State, st': E.State)
    requires E.Step(st, st') && !E.FlushStep(st, st') && !E.MoveStep(st, st') && !E.FinishStep(st, st')
    ensures st'.version == st.version && st'.nextFile == st.nextFile && Installs(st, st', FlushEdit(0, []))
  {
    hide ReadyInputs, E.FlushStep, E.MoveStep, E.FinishStep, Sorted;
  }

  lemma FlushInstalls(levels: seq<M.LevelState>, st: E.State, st': E.State) returns (e: seq<M.LevelEdit>)
    requires E.FlushStep(st, st') && Tracks(levels, st) && E.NumbersBelow(st.version, st.nextFile)
    ensures |levels| == |st.version| == |e| == |st'.version| == NUM_LEVELS
    ensures Installs(st, st', e) && Fits(levels, st, e, st')
  {
    hide Tracks, E.NumbersBelow, Rebuilt, MayFlushTo, Fits, FlushEdit;
    if st.imm.value == [] {
      e := FlushEdit(0, []);
      SameFits(levels, st, st');
    } else {
      var f: File, level: nat, r :|
        && f.number == st.nextFile && f.entries == st.imm.value
        && level < NUM_LEVELS && MayFlushTo(st.version, level, f)
        && Rebuilt(st.version[level], {}, [f], r)
        && st' == st.(imm := None, nextFile := st.nextFile + 1, version := st.version[level := r]);
      e := FlushEdit(level, [f]);
      FlushFits(levels, st, level, f, r, st');
    }
  }

  lemma MoveInstalls(levels: seq<M.LevelState>, st: E.State, st': E.State) returns (e: seq<M.LevelEdit>)
    requires E.MoveStep(st, st') && Tracks(levels, st) && GoodVersion(st.version) && E.NumbersBelow(st.version, st.nextFile)
    ensures |levels| == |st.version| == |e| == |st'.version| == NUM_LEVELS
    ensures Installs(st, st', e) && Fits(levels, st, e, st')
  {
    hide Tracks, Replaces, GoodVersion, Fits, ReplaceEdit;
    var l, f, v' :| Replaces(st.version, l, [f], [], [f], v') && st' == st.(version := v');
    e := ReplaceEdit(l, [f], [], [f]);
    InputsLive(st.version, l, [f], [], [f], v');
    assert f in [f];
    ReplaceFits(levels, st, l, [f], [], [f], st');
  }

  lemma FinishInstalls(levels: seq<M.LevelState>, st: E.State, st': E.State) returns (e: seq<M.LevelEdit>)
    requires E.FinishStep(st, st') && Tracks(levels, st) && GoodVersion(st.version)
    ensures |levels| == |st.version| == |e| == |st'.version| == NUM_LEVELS
    ensures Installs(st, st', e) && Fits(levels, st, e, st')
  {
    hide *;
    var outs := FinishOuts(st, st');
    var j := st.job.value;
    e := ReplaceEdit(j.level, j.here, j.next, outs);
    ReplaceFits(levels, st, j.level, j.here, j.next, outs, st');
    ReplaceInstalls(st, st', j.level, j.here, j.next, outs);
  }

  lemma ReplaceInstalls(st: E.State, st': E.State, l: nat, here: seq<File>, next: seq<File>, outs: seq<File>)
    requires Replaces(st.version, l, here, next, outs, st'.version)
    ensures Installs(st, st', ReplaceEdit(l, here, next, outs))
  {
    hide Replaces, ReplaceEdit;
  }

  lemma FinishOuts(st: E.State, st': E.State) returns (outs: seq<File>)
    requires E.FinishStep(st, st')
    ensures st.job.Some? && Replaces(st.version, st.job.value.level, st.job.value.here, st.job.value.next, outs, st'.version)
    ensures NewOrMoved(outs, st.job.value.here, st.nextFile) && AllBelow(outs, st'.nextFile) && st'.nextFile >= st.nextFile
  {
    hide Replaces, E.MergedInput, E.SafeToDrop, EntriesOf;
    var input, os: seq<File>, v', nextFile' :|
      var j := st.job.value;
      && E.MergedInput(j, input) && E.SafeToDrop(st, input)
      && (forall f :: f in os ==> st.nextFile <= f.number < nextFile')
      && nextFile' >= st.nextFile
      && Replaces(st.version, j.level, j.here, j.next, os, v')
      && st' == st.(version := v', nextFile := nextFile', job := None);
    outs := os;
  }

  /** A manifest record with an edit of the files only. */
  function Record(e: seq<M.LevelEdit>): M.Edit { M.Edit(None, None, None, None, e) }

  /** One record for each step of the run, each of the code's form, and all of them describing the versions. */
  ghost predicate Follows(m: seq<M.Edit>, states: seq<E.State>) {
    && |m| + 1 == |states| && M.SevenLevels(m)
    && (forall i :: 0 <= i < |m| ==> FollowsStep(m, states, i))
    && forall i :: 0 <= i <= |m| ==> DescribesState(m, i, states[i])
  }

  ghost predicate FollowsStep(m: seq<M.Edit>, states: seq<E.State>, i: nat)
    requires i < |m| && |m| + 1 == |states| && M.SevenLevels(m)
  {
    && M.SevenLevels(m[..i]) && Installs(states[i], states[i + 1], m[i].levels)
    && M.AllAgree(M.Replay(m[..i]), m[i].levels)
  }

  ghost predicate DescribesState(m: seq<M.Edit>, i: nat, st: E.State)
    requires i <= |m|
  {
    M.SevenLevels(m[..i]) && M.Described(m[..i]) == st.version
  }

  /**
   For every run of the engine there are edits, one for each step and of the form that the code gives them, such
   that each agrees with those before it, and that at every moment the records so far describe the version.
   */
  lemma {:induction false} EveryRunIsDescribed(states: seq<E.State>) returns (m: seq<M.Edit>)
    requires E.Run(states)
    ensures Follows(m, states) && Tracks(M.Replay(m), states[|states| - 1])
    decreases |states|
  {
    hide *;
    RunShape(states);
    var n := |states| - 1;
    if n == 0 {
      m := [];
      StartsEmpty(states);
    } else {
      var before := EveryRunIsDescribed(states[..n]);
      FollowsShape(before, states[..n]);
      assert states[..n][n - 1] == states[n - 1];
      E.EveryRunKeepsInv(states, n - 1);
      var e := StepInstalls(M.Replay(before), states[n - 1], states[n]);
      TracksNext(M.Replay(before), states[n - 1], e, states[n]);
      m := before + [Record(e)];
      OneMoreRecord(before, e, states);
    }
  }

  lemma RunShape(states: seq<E.State>)
    requires E.Run(states)
    ensures states != [] && E.Init(states[0])
    ensures |states| > 1 ==> E.Run(states[..|states| - 1]) && E.Step(states[|states| - 2], states[|states| - 1])
  {
    hide E.Init, E.Step;
  }

  lemma FollowsShape(m: seq<M.Edit>, states: seq<E.State>)
    requires Follows(m, states)
    ensures |m| + 1 == |states| && M.SevenLevels(m)
  {
  }

  lemma StartsEmpty(states: seq<E.State>)
    requires |states| == 1 && E.Init(states[0])
    ensures Follows([], states) && Tracks(M.Replay([]), states[0])
  {
    hide *;
    M.NoRecords([]);
    NewVersion(states[0]);
    NothingCollected();
    EmptyTracks(M.EMPTY, states[0]);
    TracksDescribes([], states[0]);
    FollowsNothing(states);
  }

  lemma FollowsNothing(states: seq<E.State>)
    requires |states| == 1 && M.SevenLevels([]) && M.Described([]) == states[0].version
    ensures Follows([], states)
  {
    hide M.Described;
    var m: seq<M.Edit> := [];
    assert m[..0] == m;
  }

  lemma NewVersion(st: E.State)
    requires E.Init(st)
    ensures |st.version| == NUM_LEVELS && forall l :: 0 <= l < NUM_LEVELS ==> st.version[l] == []
  {
  }

  lemma NothingCollected()
    ensures |M.EMPTY| == NUM_LEVELS && forall l :: 0 <= l < NUM_LEVELS ==> M.EMPTY[l] == M.NOTHING
    ensures M.Shown(M.NOTHING) == [] && M.NOTHING.added == []
  {
  }

  lemma EmptyTracks(levels: seq<M.LevelState>, st: E.State)
    requires |levels| == NUM_LEVELS && (forall l :: 0 <= l < NUM_LEVELS ==> levels[l] == M.NOTHING)
    requires M.Shown(M.NOTHING) == [] && M.NOTHING.added == []
    requires |st.version| == NUM_LEVELS && forall l :: 0 <= l < NUM_LEVELS ==> st.version[l] == []
    ensures Tracks(levels, st)
  {
    hide M.Shown, M.NOTHING, Ordered;
    M.EmptyIsOrdered();
  }

  lemma TracksDescribes(m: seq<M.Edit>, st: E.State)
    requires M.SevenLevels(m) && Tracks(M.Replay(m), st)
    ensures M.Described(m) == st.version
  {
    hide M.Described, M.Replay, M.Shown, Ordered, NumbersOk;
    forall l | 0 <= l < NUM_LEVELS
      ensures M.Described(m)[l] == st.version[l]
    {
      M.DescribedAt(m, l);
    }
  }

  lemma OneMoreRecord(before: seq<M.Edit>, e: seq<M.LevelEdit>, states: seq<E.State>)
    requires |states| > 1 && Follows(before, states[..|states| - 1]) && |e| == NUM_LEVELS && M.SevenLevels(before)
    requires Installs(states[|states| - 2], states[|states| - 1], e) && M.AllAgree(M.Replay(before), e)
    requires Tracks(M.Applied(M.Replay(before), e), states[|states| - 1])
    ensures
      var m := before + [Record(e)];
      Follows(m, states) && Tracks(M.Replay(m), states[|states| - 1])
  {
    hide Installs, M.AllAgree, M.Replay, Tracks, M.Described;
    var m, n := before + [Record(e)], |before|;
    M.ReplayMore(before, Record(e));
    TracksDescribes(m, states[|states| - 1]);
    assert m[..n] == before && m[..n + 1] == m && before[..n] == before;
    forall i | 0 <= i < |m|
      ensures FollowsStep(m, states, i)
    {
      if i < n {
        assert m[..i] == before[..i];
        assert FollowsStep(before, states[..|states| - 1], i);
      }
    }
    forall i | 0 <= i <= |m|
      ensures DescribesState(m, i, states[i])
    {
      if i <= n {
        assert m[..i] == before[..i];
        assert DescribesState(before, i, states[..|states| - 1][i]);
      }
    }
  }
}
