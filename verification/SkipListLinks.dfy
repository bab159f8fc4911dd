/**
 The skip list behind a memtable as linked nodes, one insertion at a time with any number of concurrent
 searches.  Every load and every store of a link is a step of its own.
 */
module SkipListLinks {
  const MAX_HEIGHT: nat := 12

  /** Keys are ordered by a comparator; see the remark in `Keys`. */
  type Key = real

  /** Node 0 is the head; no link points to it, so 0 in a link stands for null. */
  const HEAD: nat := 0
  const NIL: nat := 0

  /**
   The nodes' keys and their links by level.  `lists` names, for the specification, the nodes that are
   linked at each level in order, without the head.
   */
  datatype Links = Links(keys: seq<Key>, next: seq<seq<nat>>, lists: seq<seq<nat>>)

  function Path(list: seq<nat>): seq<nat> { [HEAD] + list }

  /** The node at a position of a list, or null behind its end. */
  function NodeAt(list: seq<nat>, k: nat): nat { if k < |list| then list[k] else NIL }

  ghost predicate Chain(next: seq<seq<nat>>, list: seq<nat>, level: nat) {
    forall k :: 0 <= k <= |list| ==>
      Path(list)[k] < |next| && level < |next[Path(list)[k]]| && next[Path(list)[k]][level] == NodeAt(list, k)
  }

  ghost predicate SortedList(keys: seq<Key>, list: seq<nat>) {
    && (forall i :: 0 <= i < |list| ==> 0 < list[i] < |keys|)
    && (forall i, j :: 0 <= i < j < |list| ==> keys[list[i]] < keys[list[j]])
  }

  /** For strictly sorted lists, having the same members in the same order is having the members. */
  ghost predicate Sublist(upper: seq<nat>, lower: seq<nat>) {
    forall n :: n in upper ==> n in lower
  }

  /** Every level is strictly sorted, linked in that order, and a sublist of the level below. */
  ghost predicate LevelsOk(s: Links) {
    && |s.lists| == MAX_HEIGHT && |s.keys| == |s.next| > 0
    && (forall l :: 0 <= l < MAX_HEIGHT ==> Chain(s.next, s.lists[l], l) && SortedList(s.keys, s.lists[l]))
    && (forall l, m :: 0 <= m < l < MAX_HEIGHT ==> Sublist(s.lists[l], s.lists[m]))
  }

  /** How many leading nodes have a smaller key. */
  function Rank(keys: seq<Key>, list: seq<nat>, key: Key): (r: nat)
    requires forall i :: 0 <= i < |list| ==> list[i] < |keys|
    ensures r <= |list| && (forall i :: 0 <= i < r ==> keys[list[i]] < key)
    ensures r < |list| ==> keys[list[r]] >= key
  {
    if list == [] || keys[list[0]] >= key then 0 else 1 + Rank(keys, list[1..], key)
  }

  lemma RankIs(keys: seq<Key>, list: seq<nat>, key: Key, k: nat)
    requires SortedList(keys, list) && k <= |list|
    requires k > 0 ==> keys[list[k - 1]] < key
    requires k < |list| ==> keys[list[k]] >= key
    ensures Rank(keys, list, key) == k
  {
  }

  /** The first node at or after a key, and the last node before it, in the bottom list. */
  ghost function FirstAtLeast(s: Links, key: Key): nat
    requires LevelsOk(s)
  {
    NodeAt(s.lists[0], Rank(s.keys, s.lists[0], key))
  }

  ghost function LastBelow(s: Links, key: Key): nat
    requires LevelsOk(s)
  {
    Path(s.lists[0])[Rank(s.keys, s.lists[0], key)]
  }

  // ---------------------------------------------------------------- searches

  datatype Query = AtLeast(key: Key) | Below(key: Key) | Last

  /** A search goes on to a node that comes before what it looks for; null comes after everything. */
  predicate GoesTo(q: Query, keys: seq<Key>, n: nat) {
    n != NIL && n < |keys| && (q.Last? || keys[n] < q.key)
  }

  /** A search stands at node `x` of a level, or has returned a node. */
  datatype Search = Searching(q: Query, x: nat, level: nat) | Found(q: Query, node: nat)

  ghost predicate OnTheWay(s: Links, r: Search) {
    match r
    case Searching(q, x, level) =>
      && level < MAX_HEIGHT == |s.lists|
      && (x == HEAD || (x in s.lists[level] && GoesTo(q, s.keys, x)))
    case Found(_, _) => true
  }

  /** The node a search should return, in the list as it stands. */
  ghost function Answer(s: Links, q: Query): nat
    requires LevelsOk(s)
  {
    match q
    case AtLeast(key) => FirstAtLeast(s, key)
    case Below(key) => LastBelow(s, key)
    case Last => Path(s.lists[0])[|s.lists[0]|]
  }

  function Begin(q: Query, maxHeight: nat): Search
    requires maxHeight > 0
  {
    Searching(q, HEAD, maxHeight - 1)
  }

  /** One load of a link and what the search does with it. */
  function Load(s: Links, r: Search): Search
    requires r.Searching? && r.x < |s.next| && r.level < |s.next[r.x]|
  {
    var next := s.next[r.x][r.level];
    if GoesTo(r.q, s.keys, next) then Searching(r.q, next, r.level)
    else if r.level > 0 then Searching(r.q, r.x, r.level - 1)
    else Found(r.q, if r.q.AtLeast? then next else r.x)
  }

  /** Position of a search in the list of its level. */
  lemma WhereOnPath(s: Links, r: Search) returns (k: nat)
    requires LevelsOk(s) && r.Searching? && OnTheWay(s, r)
    ensures k <= |s.lists[r.level]| && Path(s.lists[r.level])[k] == r.x && (k == 0 <==> r.x == HEAD)
    ensures r.x < |s.next| && r.level < |s.next[r.x]| && s.next[r.x][r.level] == NodeAt(s.lists[r.level], k)
    ensures k > 0 ==> GoesTo(r.q, s.keys, s.lists[r.level][k - 1])
  {
    var list := s.lists[r.level];
    assert Chain(s.next, list, r.level) && SortedList(s.keys, list);
    if r.x == HEAD {
      k := 0;
    } else {
      var i :| 0 <= i < |list| && list[i] == r.x;
      k := i + 1;
    }
    assert Path(list)[k] == r.x;
  }

  /** A load is safe, keeps the search on its way, and what it returns is right in the list at that moment. */
  lemma LoadFinds(s: Links, r: Search)
    requires LevelsOk(s) && r.Searching? && OnTheWay(s, r)
    ensures r.x < |s.next| && r.level < |s.next[r.x]|
    ensures OnTheWay(s, Load(s, r))
    ensures Load(s, r).Found? ==> Load(s, r).node == Answer(s, r.q)
  {
    var k := WhereOnPath(s, r);
    var list := s.lists[r.level];
    assert SortedList(s.keys, list);
    assert r.level > 0 ==> Sublist(list, s.lists[r.level - 1]);
    var next := NodeAt(list, k);
    if next != NIL {
      assert next == list[k] && next in list;
    }
    if r.level == 0 && !GoesTo(r.q, s.keys, next) {
      if !r.q.Last? {
        RankIs(s.keys, list, r.q.key, k);
      }
    }
  }

  // ---------------------------------------------------------------- the inserting thread

  /**
   An insertion that has linked its node `x` at the levels below `level`; `own` says that the link out of
   `x` at `level` is already set.
   */
  datatype Writer = Idle | Inserting(x: nat, height: nat, prev: seq<nat>, level: nat, own: bool)

  datatype State = State(links: Links, maxHeight: nat, writer: Writer, searches: seq<Search>)

  /** The place of a key that is not in the list yet. */
  ghost predicate Place(s: Links, key: Key, level: nat, p: nat)
    requires LevelsOk(s) && level < MAX_HEIGHT
  {
    && p == Path(s.lists[level])[Rank(s.keys, s.lists[level], key)]
    && forall n :: n in s.lists[level] ==> s.keys[n] != key
  }

  ghost predicate WriterOk(s: State)
    requires LevelsOk(s.links)
  {
    s.writer.Inserting? ==>
      var w, links := s.writer, s.links;
      && 0 < w.x < |links.keys| && w.level < w.height <= |w.prev| && w.height == |links.next[w.x]| <= MAX_HEIGHT
      && (forall l :: 0 <= l < w.level ==> w.x in links.lists[l])
      && (forall l :: w.level <= l < w.height ==> w.x !in links.lists[l] && Place(links, links.keys[w.x], l, w.prev[l]))
      && (forall l :: w.height <= l < MAX_HEIGHT ==> w.x !in links.lists[l])
      && (w.own ==> links.next[w.x][w.level] == links.next[w.prev[w.level]][w.level])
  }

  ghost predicate Inv(s: State) {
    && LevelsOk(s.links) && 0 < s.maxHeight <= MAX_HEIGHT
    && (forall l :: s.maxHeight <= l < MAX_HEIGHT ==> s.links.lists[l] == [])
    && (s.writer.Inserting? ==> s.writer.height <= s.maxHeight)
    && WriterOk(s) && forall i :: 0 <= i < |s.searches| ==> OnTheWay(s.links, s.searches[i])
  }

  // ---------------------------------------------------------------- steps

  function InsertAt(list: seq<nat>, r: nat, x: nat): seq<nat>
    requires r <= |list|
  {
    list[..r] + [x] + list[r..]
  }

  /** Where `FindGreaterOrEqual` leaves its trace: the last node before the key at each level. */
  ghost predicate Trace(s: Links, key: Key, height: nat, prev: seq<nat>)
    requires LevelsOk(s)
  {
    |prev| >= height && forall l :: 0 <= l < height && l < MAX_HEIGHT ==> Place(s, key, l, prev[l])
  }

  /** Choose a height and make the node; nothing links to it yet. */
  ghost predicate StartStep(s: State, s': State) {
    && s.writer == Idle && LevelsOk(s.links)
    && exists key, height: nat, prev ::
         && 1 <= height <= MAX_HEIGHT && Trace(s.links, key, height, prev)
         && s' == Started(s, key, height, prev)
  }

  function Started(s: State, key: Key, height: nat, prev: seq<nat>): State {
    s.(links := s.links.(keys := s.links.keys + [key], next := s.links.next + [seq(height, _ => NIL)]),
       maxHeight := if height > s.maxHeight then height else s.maxHeight,
       writer := Inserting(|s.links.keys|, height, prev, 0, false))
  }

  function SetNext(next: seq<seq<nat>>, node: nat, level: nat, x: nat): seq<seq<nat>>
    requires node < |next| && level < |next[node]|
  {
    var links: seq<nat> := next[node][level := x];
    next[node := links]
  }

  ghost predicate MayStore(s: State) {
    && s.writer.Inserting? && s.writer.level < |s.writer.prev| && LevelsOk(s.links) && s.writer.level < MAX_HEIGHT
    && s.writer.x < |s.links.next| && s.writer.level < |s.links.next[s.writer.x]|
    && s.writer.prev[s.writer.level] < |s.links.next|
    && s.writer.level < |s.links.next[s.writer.prev[s.writer.level]]|
  }

  /** Set the new node's own link at one level. */
  ghost predicate OwnStep(s: State, s': State) {
    MayStore(s) && !s.writer.own && s' == Owned(s)
  }

  ghost function Owned(s: State): State
    requires MayStore(s)
  {
    var w := s.writer;
    s.(links := s.links.(next := SetNext(s.links.next, w.x, w.level, s.links.next[w.prev[w.level]][w.level])),
       writer := w.(own := true))
  }

  /** Publish the new node at one level. */
  ghost predicate LinkStep(s: State, s': State) {
    MayStore(s) && s.writer.own && s' == Linked(s)
  }

  ghost function Linked(s: State): State
    requires MayStore(s)
  {
    var w := s.writer;
    s.(links := Publish(s.links, w.prev[w.level], w.level, w.x),
       writer := if w.level + 1 < w.height then w.(level := w.level + 1, own := false) else Idle)
  }

  ghost function Publish(s: Links, p: nat, level: nat, x: nat): Links
    requires LevelsOk(s) && level < MAX_HEIGHT && x < |s.keys| && p < |s.next| && level < |s.next[p]|
  {
    assert SortedList(s.keys, s.lists[level]);
    var list: seq<nat> := s.lists[level];
    var grown: seq<nat> := InsertAt(list, Rank(s.keys, list, s.keys[x]), x);
    Links(s.keys, SetNext(s.next, p, level, x), s.lists[level := grown])
  }

  /** A reader may see any height the list has had. */
  ghost predicate BeginStep(s: State, s': State) {
    exists q, height: nat :: 0 < height <= s.maxHeight && s' == s.(searches := s.searches + [Begin(q, height)])
  }

  ghost predicate LoadStep(s: State, s': State) {
    exists i ::
      && 0 <= i < |s.searches| && s.searches[i].Searching?
      && s.searches[i].x < |s.links.next| && s.searches[i].level < |s.links.next[s.searches[i].x]|
      && s' == s.(searches := s.searches[i := Load(s.links, s.searches[i])])
  }

  ghost predicate Step(s: State, s': State) {
    StartStep(s, s') || OwnStep(s, s') || LinkStep(s, s') || BeginStep(s, s') || LoadStep(s, s')
  }

  // ---------------------------------------------------------------- what each step keeps

  lemma PathDistinct(keys: seq<Key>, list: seq<nat>, i: nat, j: nat)
    requires SortedList(keys, list) && i <= |list| && j <= |list| && i != j
    ensures Path(list)[i] != Path(list)[j]
  {
  }

  /** Publishing a node between two neighbours extends the chain by it. */
  lemma InsertChain(keys: seq<Key>, next: seq<seq<nat>>, list: seq<nat>, level: nat, r: nat, x: nat)
    requires Chain(next, list, level) && SortedList(keys, list) && r <= |list|
    requires 0 < x < |next| && x !in list && level < |next[x]| && next[x][level] == NodeAt(list, r)
    ensures Path(list)[r] < |next| && level < |next[Path(list)[r]]|
    ensures Chain(SetNext(next, Path(list)[r], level, x), InsertAt(list, r, x), level)
  {
    var p := Path(list)[r];
    var list', next' := InsertAt(list, r, x), SetNext(next, p, level, x);
    forall k | 0 <= k <= |list'|
      ensures Path(list')[k] < |next'| && level < |next'[Path(list')[k]]|
      ensures next'[Path(list')[k]][level] == NodeAt(list', k)
    {
      if k <= r {
        assert Path(list')[k] == Path(list)[k];
        if k < r { PathDistinct(keys, list, k, r); }
      } else if k == r + 1 {
        assert Path(list')[k] == x;
      } else {
        assert Path(list')[k] == Path(list)[k - 1];
        PathDistinct(keys, list, k - 1, r);
      }
    }
  }

  /** Stores at one level do not disturb the chain of another. */
  lemma OtherChain(next: seq<seq<nat>>, list: seq<nat>, level: nat, node: nat, other: nat, x: nat)
    requires Chain(next, list, level) && node < |next| && other < |next[node]|
    requires other != level || node !in Path(list)
    ensures Chain(SetNext(next, node, other, x), list, level)
  {
    forall k | 0 <= k <= |list|
      ensures Path(list)[k] != node || other != level
    {
      assert Path(list)[k] in Path(list);
    }
  }

  lemma InsertSorted(keys: seq<Key>, list: seq<nat>, x: nat)
    requires SortedList(keys, list) && 0 < x < |keys| && forall n :: n in list ==> keys[n] != keys[x]
    ensures SortedList(keys, InsertAt(list, Rank(keys, list, keys[x]), x))
  {
    var r := Rank(keys, list, keys[x]);
    Around(keys, list, x, r);
    hide Rank;
    var list' := InsertAt(list, r, x);
    forall i, j | 0 <= i < j < |list'|
      ensures keys[list'[i]] < keys[list'[j]]
    {
      assert list'[i] == if i < r then list[i] else if i == r then x else list[i - 1];
      assert list'[j] == if j < r then list[j] else if j == r then x else list[j - 1];
    }
  }

  lemma Around(keys: seq<Key>, list: seq<nat>, x: nat, r: nat)
    requires SortedList(keys, list) && 0 < x < |keys| && (forall n :: n in list ==> keys[n] != keys[x])
    requires r == Rank(keys, list, keys[x])
    ensures forall i :: 0 <= i < r ==> keys[list[i]] < keys[x]
    ensures forall i :: r <= i < |list| ==> keys[x] < keys[list[i]]
  {
    if r < |list| { assert list[r] in list; }
  }

  lemma RankExtends(keys: seq<Key>, list: seq<nat>, key: Key, more: Key)
    requires SortedList(keys, list)
    ensures SortedList(keys + [more], list) && Rank(keys + [more], list, key) == Rank(keys, list, key)
  {
    RankIs(keys + [more], list, key, Rank(keys, list, key));
  }

  lemma StartKeeps(s: State, s': State)
    requires Inv(s) && StartStep(s, s')
    ensures Inv(s')
  {
    hide Rank, Chain;
    var links := s.links;
    var key, height: nat, prev :|
      1 <= height <= MAX_HEIGHT && Trace(links, key, height, prev) && s' == Started(s, key, height, prev);
    forall l | 0 <= l < MAX_HEIGHT
      ensures Chain(s'.links.next, links.lists[l], l) && SortedList(s'.links.keys, links.lists[l])
      ensures Rank(s'.links.keys, links.lists[l], key) == Rank(links.keys, links.lists[l], key)
    {
      assert Chain(links.next, links.lists[l], l);
      ChainExtends(links.next, links.lists[l], l, seq(height, _ => NIL));
      RankExtends(links.keys, links.lists[l], key, key);
    }
    StartedSearches(s, s');
  }

  lemma ChainExtends(next: seq<seq<nat>>, list: seq<nat>, level: nat, more: seq<nat>)
    requires Chain(next, list, level)
    ensures Chain(next + [more], list, level)
  {
  }

  /** Searches stay on their way when lists and nodes only grow. */
  lemma StartedSearches(s: State, s': State)
    requires LevelsOk(s.links) && s'.searches == s.searches
    requires forall i :: 0 <= i < |s.searches| ==> OnTheWay(s.links, s.searches[i])
    requires |s'.links.lists| == MAX_HEIGHT
    requires forall l, n :: 0 <= l < MAX_HEIGHT && n in s.links.lists[l] ==> n in s'.links.lists[l]
    requires |s.links.keys| <= |s'.links.keys| && s'.links.keys[..|s.links.keys|] == s.links.keys
    ensures forall i :: 0 <= i < |s'.searches| ==> OnTheWay(s'.links, s'.searches[i])
  {
    assert forall n :: 0 <= n < |s.links.keys| ==> s'.links.keys[n] == s.links.keys[n];
  }

  lemma OwnKeeps(s: State, s': State)
    requires Inv(s) && OwnStep(s, s')
    ensures Inv(s')
  {
    hide Rank, Chain, OnTheWay;
    var links, w := s.links, s.writer;
    var x := links.next[w.prev[w.level]][w.level];
    forall l | 0 <= l < MAX_HEIGHT
      ensures Chain(s'.links.next, links.lists[l], l)
    {
      OtherChain(links.next, links.lists[l], l, w.x, w.level, x);
    }
    PlaceIsNotNew(links, w.x, w.level, w.prev[w.level]);
    StillOnTheWay(s, s');
  }

  lemma StillOnTheWay(s: State, s': State)
    requires s'.searches == s.searches && s'.links.lists == s.links.lists && s'.links.keys == s.links.keys
    requires forall i :: 0 <= i < |s.searches| ==> OnTheWay(s.links, s.searches[i])
    ensures forall i :: 0 <= i < |s'.searches| ==> OnTheWay(s'.links, s'.searches[i])
  {
  }

  lemma PlaceIsNotNew(s: Links, x: nat, level: nat, p: nat)
    requires LevelsOk(s) && level < MAX_HEIGHT && 0 < x < |s.keys| && Place(s, s.keys[x], level, p)
    ensures p != x
  {
    assert SortedList(s.keys, s.lists[level]);
  }

  lemma LinkKeeps(s: State, s': State)
    requires Inv(s) && LinkStep(s, s')
    ensures Inv(s')
  {
    var links, w := s.links, s.writer;
    var list := links.lists[w.level];
    assert SortedList(links.keys, list) && Chain(links.next, list, w.level);
    var r := Rank(links.keys, list, links.keys[w.x]);
    PlacedLink(links, w.x, w.level, w.prev[w.level], r);
    hide Rank, Chain, OnTheWay, SortedList;
    InsertChain(links.keys, links.next, list, w.level, r, w.x);
    InsertSorted(links.keys, list, w.x);
    forall l | 0 <= l < MAX_HEIGHT
      ensures Chain(s'.links.next, s'.links.lists[l], l) && SortedList(s'.links.keys, s'.links.lists[l])
    {
      if l != w.level {
        OtherChain(links.next, links.lists[l], l, w.prev[w.level], w.level, w.x);
      }
    }
    InsertMembers(list, r, w.x);
    StartedSearches(s, s');
  }

  /** The place of the new key is where its own link already leads on. */
  lemma PlacedLink(s: Links, x: nat, level: nat, p: nat, r: nat)
    requires LevelsOk(s) && level < MAX_HEIGHT && 0 < x < |s.keys| && Place(s, s.keys[x], level, p)
    requires r == Rank(s.keys, s.lists[level], s.keys[x])
    ensures p == Path(s.lists[level])[r] && p < |s.next| && level < |s.next[p]|
    ensures s.next[p][level] == NodeAt(s.lists[level], r)
    ensures forall n :: n in s.lists[level] ==> s.keys[n] != s.keys[x]
  {
    assert Chain(s.next, s.lists[level], level);
  }

  lemma InsertMembers(list: seq<nat>, r: nat, x: nat)
    requires r <= |list|
    ensures forall n :: n in InsertAt(list, r, x) <==> n in list || n == x
  {
    assert list == list[..r] + list[r..];
  }

  lemma SearchKeeps(s: State, s': State)
    requires Inv(s) && (BeginStep(s, s') || LoadStep(s, s'))
    ensures Inv(s')
  {
    hide Rank, Chain, SortedList;
    if LoadStep(s, s') {
      var i :|
        && 0 <= i < |s.searches| && s.searches[i].Searching?
        && s.searches[i].x < |s.links.next| && s.searches[i].level < |s.links.next[s.searches[i].x]|
        && s' == s.(searches := s.searches[i := Load(s.links, s.searches[i])]);
      LoadFinds(s.links, s.searches[i]);
    }
  }

  lemma StepKeeps(s: State, s': State)
    requires Inv(s) && Step(s, s')
    ensures Inv(s')
  {
    hide Inv, StartStep, OwnStep, LinkStep, BeginStep, LoadStep;
    if StartStep(s, s') {
      StartKeeps(s, s');
    } else if OwnStep(s, s') {
      OwnKeeps(s, s');
    } else if LinkStep(s, s') {
      LinkKeeps(s, s');
    } else {
      SearchKeeps(s, s');
    }
  }

  function Empty(): State {
    State(Links([0.0], [seq(MAX_HEIGHT, _ => NIL)], seq(MAX_HEIGHT, _ => [])), 1, Idle, [])
  }

  lemma EmptyInv()
    ensures Inv(Empty())
  {
  }

  ghost predicate Run(states: seq<State>) {
    && states != [] && states[0] == Empty()
    && forall i :: 0 <= i < |states| - 1 ==> Step(states[i], states[i + 1])
  }

  /** After every single store and load, all levels are sorted sublists and every search is on its way. */
  lemma {:induction false} EveryRunKeepsInv(states: seq<State>, i: nat)
    requires Run(states) && i < |states|
    ensures Inv(states[i])
  {
    hide Inv, Step, Empty;
    if i == 0 {
      EmptyInv();
    } else {
      EveryRunKeepsInv(states, i - 1);
      StepKeeps(states[i - 1], states[i]);
    }
  }

  /** A search that returns gives the right node of the bottom list as it stood at its last load. */
  lemma EverySearchIsRight(states: seq<State>, i: nat, r: nat)
    requires Run(states) && i + 1 < |states| && r < |states[i].searches| && r < |states[i + 1].searches|
    requires states[i].searches[r].Searching? && states[i + 1].searches[r].Found?
    ensures LevelsOk(states[i].links)
    ensures states[i + 1].searches[r].node == Answer(states[i].links, states[i].searches[r].q)
  {
    hide Inv, LevelsOk, Answer, Step;
    EveryRunKeepsInv(states, i);
    SearchesOk(states[i], r);
    assert Step(states[i], states[i + 1]);
    ReturnIsLoad(states[i], states[i + 1], r);
    LoadFinds(states[i].links, states[i].searches[r]);
  }

  lemma SearchesOk(s: State, r: nat)
    requires Inv(s) && r < |s.searches|
    ensures LevelsOk(s.links) && OnTheWay(s.links, s.searches[r])
  {
  }

  lemma ReturnIsLoad(s: State, s': State, r: nat)
    requires Step(s, s') && r < |s.searches| && r < |s'.searches|
    requires s.searches[r].Searching? && s'.searches[r].Found?
    ensures s.searches[r].x < |s.links.next| && s.searches[r].level < |s.links.next[s.searches[r].x]|
    ensures s'.searches[r] == Load(s.links, s.searches[r])
  {
    hide LevelsOk, Started, Linked, Load, Rank;
    StartKeepsSearches(s, s');
  }

  lemma StartKeepsSearches(s: State, s': State)
    requires Step(s, s')
    ensures StartStep(s, s') || OwnStep(s, s') || LinkStep(s, s') ==> s'.searches == s.searches
  {
    hide LevelsOk, Rank;
  }
}
