/** `SkipList` as an object: searches by loops over the links, and insertion store by store. */
module SkipList {
  import opened SkipListLinks

  /** The keys of a list of nodes. */
  ghost function KeysOf(keys: seq<Key>, list: seq<nat>): (ks: seq<Key>)
    requires SortedList(keys, list)
    ensures |ks| == |list| && forall i :: 0 <= i < |ks| ==> ks[i] == keys[list[i]]
    ensures forall i, j :: 0 <= i < j < |ks| ==> ks[i] < ks[j]
  {
    seq(|list|, i requires 0 <= i < |list| => keys[list[i]])
  }

  class List {
    var keys: seq<Key>
    var next: seq<seq<nat>>
    var maxHeight: nat
    ghost var lists: seq<seq<nat>>

    ghost function Abs(): Links reads this { Links(keys, next, lists) }

    ghost predicate Valid() reads this {
      Inv(State(Abs(), maxHeight, Idle, []))
    }

    ghost function Contents(): (ks: seq<Key>)
      requires Valid()
      reads this
      ensures forall i, j :: 0 <= i < j < |ks| ==> ks[i] < ks[j]
    {
      KeysOf(keys, lists[0])
    }

    constructor ()
      ensures Valid() && Contents() == []
    {
      keys, next, maxHeight := [0.0], [seq(MAX_HEIGHT, _ => NIL)], 1;
      lists := seq(MAX_HEIGHT, _ => []);
      new;
      EmptyInv();
    }

    lemma ValidLinks()
      requires Valid()
      ensures LevelsOk(Abs()) && 0 < maxHeight <= MAX_HEIGHT == |lists| && |keys| == |next| > 0
      ensures Inv(State(Abs(), maxHeight, Idle, []))
      ensures forall l :: maxHeight <= l < MAX_HEIGHT ==> lists[l] == []
    {
      hide Chain, SortedList, Sublist;
    }

    /** The step of a search from node `x` at a level, with `k` its position there. */
    lemma Stands(q: Query, x: nat, level: nat) returns (k: nat)
      requires Valid() && OnTheWay(Abs(), Searching(q, x, level))
      ensures level < |lists| && k <= |lists[level]| && Path(lists[level])[k] == x
      ensures x < |next| && level < |next[x]| && next[x][level] == NodeAt(lists[level], k)
      ensures LevelsOk(Abs()) && OnTheWay(Abs(), Load(Abs(), Searching(q, x, level)))
      ensures Load(Abs(), Searching(q, x, level)).Found? ==> Load(Abs(), Searching(q, x, level)).node == Answer(Abs(), q)
      ensures GoesTo(q, keys, next[x][level]) ==>
        k + 1 <= |lists[level]| && Path(lists[level])[k + 1] == next[x][level]
      ensures !GoesTo(q, keys, next[x][level]) && !q.Last? ==>
        forall i :: 0 <= i < |lists[level]| ==> lists[level][i] < |keys|
      ensures !GoesTo(q, keys, next[x][level]) && !q.Last? ==> k == Rank(keys, lists[level], q.key)
    {
      ValidLinks();
      hide Chain, Sublist, Answer, Inv;
      var r := Searching(q, x, level);
      LoadFinds(Abs(), r);
      k := WhereOnPath(Abs(), r);
      var list := lists[level];
      assert SortedList(keys, list);
      if !GoesTo(q, keys, next[x][level]) && !q.Last? {
        RankIs(keys, list, q.key, k);
      }
    }

    lemma StartsAtHead(q: Query)
      requires Valid()
      ensures 0 < maxHeight <= MAX_HEIGHT == |lists| && OnTheWay(Abs(), Searching(q, HEAD, maxHeight - 1))
      ensures LevelsOk(Abs())
    {
      ValidLinks();
    }

    /** The earliest node at or after a key, and the last node before it at every level in use. */
    method FindGreaterOrEqual(key: Key) returns (node: nat, prev: seq<nat>)
      requires Valid()
      ensures LevelsOk(Abs()) && node == FirstAtLeast(Abs(), key)
      ensures |prev| == MAX_HEIGHT && forall l :: 0 <= l < maxHeight && l < |lists| ==> AtRank(Abs(), key, l, prev[l])
    {
      hide LevelsOk, OnTheWay, Load, Answer, Rank, FirstAtLeast, LastBelow, NodeAt, SortedList, Valid, AtRank;
      StartsAtHead(AtLeast(key));
      prev := seq(MAX_HEIGHT, _ => HEAD);
      var x: nat, level: nat := HEAD, maxHeight - 1;
      ghost var k: nat := Stands(AtLeast(key), x, level);
      while true
        invariant level < maxHeight <= |lists| && OnTheWay(Abs(), Searching(AtLeast(key), x, level))
        invariant k <= |lists[level]| && Path(lists[level])[k] == x
        invariant |prev| == MAX_HEIGHT && forall l :: level < l < maxHeight ==> AtRank(Abs(), key, l, prev[l])
        decreases level, |lists[level]| - k
      {
        ghost var here := Stands(AtLeast(key), x, level);
        LoadIs(Abs(), Searching(AtLeast(key), x, level));
        SamePosition(Abs(), level, k, here);
        node := next[x][level];
        if KeyIsAfterNode(key, node) {
          x := node;
          k := k + 1;
        } else {
          prev := prev[level := x];
          RankHere(Abs(), key, level, k);
          if level == 0 {
            return;
          }
          level := level - 1;
          k := Stands(AtLeast(key), x, level);
        }
      }
    }

    predicate KeyIsAfterNode(key: Key, n: nat)
      reads this
    {
      n != NIL && n < |keys| && keys[n] < key
    }

    method FindLessThan(key: Key) returns (x: nat)
      requires Valid()
      ensures LevelsOk(Abs()) && x == LastBelow(Abs(), key)
    {
      hide LevelsOk, OnTheWay, Load, Answer, Rank, FirstAtLeast, LastBelow, NodeAt, SortedList, Valid, AtRank;
      StartsAtHead(Below(key));
      x := HEAD;
      var level: nat := maxHeight - 1;
      ghost var k: nat := Stands(Below(key), x, level);
      while true
        invariant level < maxHeight <= |lists| && OnTheWay(Abs(), Searching(Below(key), x, level))
        invariant k <= |lists[level]| && Path(lists[level])[k] == x
        decreases level, |lists[level]| - k
      {
        ghost var here := Stands(Below(key), x, level);
        LoadIs(Abs(), Searching(Below(key), x, level));
        SamePosition(Abs(), level, k, here);
        var node := next[x][level];
        if node == NIL || keys[node] >= key {
          if level == 0 {
            return;
          }
          level := level - 1;
          k := Stands(Below(key), x, level);
        } else {
          x := node;
          k := k + 1;
        }
      }
    }

    method FindLast() returns (x: nat)
      requires Valid()
      ensures LevelsOk(Abs()) && x == Answer(Abs(), Last)
    {
      hide LevelsOk, OnTheWay, Load, Answer, Rank, FirstAtLeast, LastBelow, NodeAt, SortedList, Valid, AtRank;
      StartsAtHead(Last);
      x := HEAD;
      var level: nat := maxHeight - 1;
      ghost var k: nat := Stands(Last, x, level);
      while true
        invariant level < maxHeight <= |lists| && OnTheWay(Abs(), Searching(Last, x, level))
        invariant k <= |lists[level]| && Path(lists[level])[k] == x
        decreases level, |lists[level]| - k
      {
        ghost var here := Stands(Last, x, level);
        LoadIs(Abs(), Searching(Last, x, level));
        SamePosition(Abs(), level, k, here);
        var node := next[x][level];
        if node == NIL {
          if level == 0 {
            return;
          }
          level := level - 1;
          k := Stands(Last, x, level);
        } else {
          x := node;
          k := k + 1;
        }
      }
    }
  
    /** The state that an insertion has reached after linking `level` levels. */
    ghost function Now(x: nat, height: nat, prev: seq<nat>, level: nat): State reads this {
      State(Abs(), maxHeight, if level < height then Inserting(x, height, prev, level, false) else Idle, [])
    }

    /** Where a new key goes in the bottom list. */
    lemma Bottom(key: Key) returns (r: nat)
      requires Valid() && key !in Contents()
      ensures LevelsOk(Abs()) && |lists| == MAX_HEIGHT > 0 && SortedList(keys, lists[0])
      ensures r == Rank(keys, lists[0], key) && r <= |lists[0]|
      ensures forall n :: n in lists[0] ==> n < |keys| && keys[n] != key
      ensures Contents() == KeysOf(keys, lists[0])
    {
      assert SortedList(keys, lists[0]);
      hide Rank, Chain, Sublist;
      r := Rank(keys, lists[0], key);
      forall n | n in lists[0]
        ensures n < |keys| && keys[n] != key
      {
        var i :| 0 <= i < |lists[0]| && lists[0][i] == n;
        assert Contents()[i] == keys[n];
      }
    }

    lemma IsValid()
      requires Inv(State(Abs(), maxHeight, Idle, []))
      ensures Valid() && |lists| == MAX_HEIGHT > 0 && SortedList(keys, lists[0]) && Contents() == KeysOf(keys, lists[0])
    {
    }

    /** Insert a key that is not in the list; `height` is the random choice. */
    method Insert(key: Key, height: nat)
      requires Valid() && key !in Contents() && 1 <= height <= MAX_HEIGHT
      modifies this
      ensures Valid() && forall k :: k in Contents() <==> k in old(Contents()) || k == key
    {
      hide Inv, LevelsOk, Valid, Rank, AtRank, Contents, FirstAtLeast, InsertAt, SortedList, KeysOf;
      var _, prev: seq<nat> := FindGreaterOrEqual(key);
      ghost var r := Bottom(key);
      ValidLinks();
      ghost var s, bottom := State(Abs(), maxHeight, Idle, []), lists[0];
      prev := FillPrev(key, height, prev);
      Starts(s, key, height, prev);
      if height > maxHeight {
        maxHeight := height;
      }
      var x := |keys|;
      keys := keys + [key];
      next := next + [seq(height, _ => NIL)];
      assert Now(x, height, prev, 0) == Started(s, key, height, prev);
      for i := 0 to height
        invariant Inv(Now(x, height, prev, i)) && height <= |prev| && x == |s.links.keys|
        invariant keys == s.links.keys + [key] && |lists| == MAX_HEIGHT
        invariant lists[0] == if i == 0 then bottom else InsertAt(bottom, r, x)
      {
        LinkLevel(s.links, key, x, height, prev, i, bottom, r);
      }
      IsValid();
      Inserted(s.links.keys, bottom, key, r, x);
    }

    /** Levels above the list's height start at the head. */
    method FillPrev(key: Key, height: nat, trace: seq<nat>) returns (prev: seq<nat>)
      requires Valid() && LevelsOk(Abs()) && height <= MAX_HEIGHT == |trace| && maxHeight <= MAX_HEIGHT == |lists|
      requires forall l :: 0 <= l < maxHeight ==> AtRank(Abs(), key, l, trace[l])
      ensures |prev| == MAX_HEIGHT && forall l :: 0 <= l < height ==> AtRank(Abs(), key, l, prev[l])
    {
      ValidLinks();
      hide LevelsOk, Valid, AtRank;
      prev := trace;
      if height > maxHeight {
        for i := maxHeight to height
          invariant |prev| == MAX_HEIGHT && forall l :: 0 <= l < i ==> AtRank(Abs(), key, l, prev[l])
        {
          HeadAtEmpty(Abs(), key, i);
          prev := prev[i := HEAD];
        }
      }
    }

    /** Two stores: the new node's own link at a level, then the link to it. */
    method LinkLevel(ghost before: Links, ghost key: Key, x: nat, height: nat, prev: seq<nat>, i: nat,
        ghost bottom: seq<nat>, ghost r: nat)
      requires i < height && Inv(Now(x, height, prev, i)) && |lists| == MAX_HEIGHT > 0
      requires SortedList(before.keys, bottom) && r == Rank(before.keys, bottom, key)
      requires keys == before.keys + [key] && x == |before.keys|
      requires lists[0] == if i == 0 then bottom else InsertAt(bottom, r, x)
      modifies `next, `lists
      ensures Inv(Now(x, height, prev, i + 1)) && |lists| == MAX_HEIGHT
      ensures lists[0] == InsertAt(bottom, r, x)
    {
      hide Inv, LevelsOk, Rank, InsertAt, MayStore, SortedList;
      ghost var now := Now(x, height, prev, i);
      MayStoreNow(now);
      next := SetNext(next, x, i, next[prev[i]][i]);
      ghost var own := Owned(now);
      assert own.links == Abs();
      MayStoreOwned(own);
      next := SetNext(next, prev[i], i, x);
      lists := Linked(own).links.lists;
      assert Now(x, height, prev, i + 1) == Linked(own);
      PublishedBottom(before, own, bottom, key, r);
    }

    method Contains(key: Key) returns (found: bool)
      requires Valid()
      ensures found <==> key in Contents()
    {
      hide *;
      var x, _ := FindGreaterOrEqual(key);
      KeyIsAtRank(key);
      found := x != NIL && keys[x] == key;
    }

    lemma KeyIsAtRank(key: Key)
      requires Valid() && LevelsOk(Abs())
      ensures
        var x := FirstAtLeast(Abs(), key);
        x < |keys| && (key in Contents() <==> x != NIL && keys[x] == key)
    {
      assert SortedList(keys, lists[0]);
      hide Chain, Sublist;
      var k := Rank(keys, lists[0], key);
      assert k < |lists[0]| && keys[lists[0][k]] == key ==> Contents()[k] == key;
      if key in Contents() {
        var i :| 0 <= i < |lists[0]| && Contents()[i] == key;
        RankIs(keys, lists[0], key, i);
      }
    }
  }

  /** `SkipList::Iterator`: a cursor over the bottom list; position `|Contents()|` is the invalid one. */
  class Iterator {
    const list: List
    var node: nat

    ghost predicate At(k: nat)
      reads this, list
    {
      && list.Valid() && k <= |list.Contents()|
      && node == NodeAt(list.lists[0], k)
      && (k < |list.Contents()| <==> node != NIL)
      && (node != NIL ==> node < |list.keys| && list.keys[node] == list.Contents()[k])
    }

    constructor (list: List)
      requires list.Valid()
      ensures this.list == list && At(|list.Contents()|)
    {
      this.list := list;
      node := NIL;
    }

    /** Positions and nodes of the bottom list. */
    lemma Positions(k: nat)
      requires list.Valid() && k <= |list.Contents()|
      ensures LevelsOk(list.Abs()) && |list.lists| > 0 && |list.lists[0]| == |list.Contents()|
      ensures k < |list.Contents()| ==>
        && 0 < list.lists[0][k] < |list.next| == |list.keys| && |list.next[list.lists[0][k]]| > 0
        && list.keys[list.lists[0][k]] == list.Contents()[k]
        && list.next[list.lists[0][k]][0] == NodeAt(list.lists[0], k + 1)
        && Rank(list.keys, list.lists[0], list.Contents()[k]) == k
      ensures |list.next| > 0 && |list.next[HEAD]| > 0 && list.next[HEAD][0] == NodeAt(list.lists[0], 0)
    {
      assert Chain(list.next, list.lists[0], 0) && SortedList(list.keys, list.lists[0]);
      if k < |list.Contents()| {
        assert Path(list.lists[0])[k + 1] == list.lists[0][k];
        RankIs(list.keys, list.lists[0], list.Contents()[k], k);
      }
      assert Path(list.lists[0])[0] == HEAD;
    }

    /** The last node below a key, as a position. */
    lemma NodeBelow(key: Key)
      requires list.Valid() && LevelsOk(list.Abs())
      ensures
        var r := Rank(list.keys, list.lists[0], key);
        && r <= |list.Contents()| && LastBelow(list.Abs(), key) == (if r == 0 then HEAD else NodeAt(list.lists[0], r - 1))
        && FirstAtLeast(list.Abs(), key) == NodeAt(list.lists[0], r)
        && (forall i :: 0 <= i < r ==> list.Contents()[i] < key)
        && (r < |list.Contents()| ==> list.Contents()[r] >= key)
    {
      assert SortedList(list.keys, list.lists[0]);
    }

    lemma LastNode(k: nat)
      requires list.Valid() && LevelsOk(list.Abs()) && |list.lists| > 0 && |list.lists[0]| == |list.Contents()|
      requires k == if list.Contents() == [] then 0 else |list.Contents()| - 1
      ensures Answer(list.Abs(), Last) == NodeAt(list.lists[0], k)
    {
      hide Chain, SortedList, Sublist, List.Valid, List.Contents;
    }

    method Next(ghost k: nat)
      requires At(k) && node != NIL
      modifies this
      ensures At(k + 1)
    {
      Positions(k);
      Positions(k + 1);
      hide LevelsOk, List.Valid, List.Contents, Rank;
      node := list.next[node][0];
    }

    /** There are no back links: search for the last node before the current key. */
    method Prev(ghost k: nat)
      requires At(k) && node != NIL
      modifies this
      ensures At(if k == 0 then |list.Contents()| else k - 1)
    {
      hide LevelsOk, List.Valid, List.Contents, Rank, LastBelow, FirstAtLeast;
      Positions(k);
      Positions(if k == 0 then |list.Contents()| else k - 1);
      NodeBelow(list.keys[node]);
      node := list.FindLessThan(list.keys[node]);
      if node == HEAD {
        node := NIL;
      }
    }

    method Seek(target: Key) returns (ghost k: nat)
      requires list.Valid()
      modifies this
      ensures At(k) && forall i :: 0 <= i < |list.Contents()| ==> (list.Contents()[i] < target <==> i < k)
    {
      Positions(0);
      NodeBelow(target);
      k := Rank(list.keys, list.lists[0], target);
      Positions(k);
      hide LevelsOk, List.Valid, List.Contents, Rank, LastBelow, FirstAtLeast;
      var n, _ := list.FindGreaterOrEqual(target);
      node := n;
    }

    method SeekToFirst()
      requires list.Valid()
      modifies this
      ensures At(0)
    {
      Positions(0);
      hide LevelsOk, List.Valid, List.Contents, Rank;
      node := list.next[HEAD][0];
    }

    method SeekToLast()
      requires list.Valid()
      modifies this
      ensures At(if list.Contents() == [] then 0 else |list.Contents()| - 1)
    {
      hide LevelsOk, List.Valid, List.Contents, Rank, Answer, List.Abs;
      ghost var k: nat := if list.Contents() == [] then 0 else |list.Contents()| - 1;
      Positions(k);
      LastNode(k);
      node := list.FindLast();
      if node == HEAD {
        node := NIL;
      }
    }
  }

  /** `p` is the last node before the key at a level. */
  ghost predicate AtRank(s: Links, key: Key, level: nat, p: nat) {
    LevelsOk(s) && level < MAX_HEIGHT && SortedList(s.keys, s.lists[level])
    && p == Path(s.lists[level])[Rank(s.keys, s.lists[level], key)]
  }

  lemma RankHere(s: Links, key: Key, level: nat, k: nat)
    requires LevelsOk(s) && level < |s.lists| && k <= |s.lists[level]|
    requires forall i :: 0 <= i < |s.lists[level]| ==> s.lists[level][i] < |s.keys|
    requires k == Rank(s.keys, s.lists[level], key)
    ensures AtRank(s, key, level, Path(s.lists[level])[k])
  {
    hide Rank, Chain;
  }

  lemma SamePosition(s: Links, level: nat, i: nat, j: nat)
    requires LevelsOk(s) && level < |s.lists| && i <= |s.lists[level]| && j <= |s.lists[level]|
    requires Path(s.lists[level])[i] == Path(s.lists[level])[j]
    ensures i == j
  {
    hide Chain, Sublist;
    if i != j {
      PathDistinct(s.keys, s.lists[level], i, j);
    }
  }

  lemma LoadIs(s: Links, r: Search)
    requires r.Searching? && r.x < |s.next| && r.level < |s.next[r.x]| && LevelsOk(s) && OnTheWay(s, r)
    ensures
      var next := s.next[r.x][r.level];
      && (next != NIL ==> next < |s.keys|)
      && (GoesTo(r.q, s.keys, next) <==> next != NIL && (r.q.Last? || s.keys[next] < r.q.key))
      && Load(s, r) == (if GoesTo(r.q, s.keys, next) then Searching(r.q, next, r.level)
                        else if r.level > 0 then Searching(r.q, r.x, r.level - 1)
                        else Found(r.q, if r.q.AtLeast? then next else r.x))
      && (r.q.AtLeast? ==> Answer(s, r.q) == FirstAtLeast(s, r.q.key))
      && (r.q.Below? ==> Answer(s, r.q) == LastBelow(s, r.q.key))
  {
    var k := WhereOnPath(s, r);
    assert SortedList(s.keys, s.lists[r.level]);
  }

  lemma HeadAtEmpty(s: Links, key: Key, level: nat)
    requires LevelsOk(s) && level < MAX_HEIGHT && s.lists[level] == []
    ensures AtRank(s, key, level, HEAD)
  {
  }

  lemma Starts(s: State, key: Key, height: nat, prev: seq<nat>)
    requires Inv(s) && s.writer == Idle && s.searches == [] && 1 <= height <= MAX_HEIGHT && height <= |prev|
    requires forall l :: 0 <= l < height ==> AtRank(s.links, key, l, prev[l])
    requires |s.links.lists| > 0 && forall n :: n in s.links.lists[0] ==> n < |s.links.keys| && s.links.keys[n] != key
    ensures Inv(Started(s, key, height, prev))
  {
    hide Rank, Chain, SortedList;
    assert LevelsOk(s.links);
    forall l | 0 <= l < height
      ensures Place(s.links, key, l, prev[l])
    {
      assert l > 0 ==> Sublist(s.links.lists[l], s.links.lists[0]);
      assert AtRank(s.links, key, l, prev[l]);
    }
    assert StartStep(s, Started(s, key, height, prev));
    StartKeeps(s, Started(s, key, height, prev));
  }

  lemma MayStoreNow(s: State)
    requires Inv(s) && s.writer.Inserting? && !s.writer.own
    ensures MayStore(s) && s.writer.x < |s.links.next| && s.writer.level < |s.links.next[s.writer.x]|
    ensures s.writer.level < |s.writer.prev| && s.writer.prev[s.writer.level] < |s.links.next|
    ensures s.writer.level < |s.links.next[s.writer.prev[s.writer.level]]|
    ensures Inv(Owned(s))
  {
    var w := s.writer;
    PlacedLink(s.links, w.x, w.level, w.prev[w.level], Rank(s.links.keys, s.links.lists[w.level], s.links.keys[w.x]));
    hide Inv;
    OwnKeeps(s, Owned(s));
  }

  lemma MayStoreOwned(s: State)
    requires Inv(s) && s.writer.Inserting? && s.writer.own
    ensures MayStore(s) && s.writer.level < |s.writer.prev| && s.writer.prev[s.writer.level] < |s.links.next|
    ensures s.writer.level < |s.links.next[s.writer.prev[s.writer.level]]|
    ensures Inv(Linked(s))
  {
    var w := s.writer;
    PlacedLink(s.links, w.x, w.level, w.prev[w.level], Rank(s.links.keys, s.links.lists[w.level], s.links.keys[w.x]));
    hide Inv;
    LinkKeeps(s, Linked(s));
  }

  lemma PublishedBottom(before: Links, own: State, bottom: seq<nat>, key: Key, r: nat)
    requires MayStore(own) && own.links.keys == before.keys + [key] && own.writer.x == |before.keys|
    requires SortedList(before.keys, bottom) && r == Rank(before.keys, bottom, key)
    requires own.writer.level == 0 ==> own.links.lists[0] == bottom
    ensures |Linked(own).links.lists| == MAX_HEIGHT
    ensures Linked(own).links.lists[0] ==
      if own.writer.level == 0 then InsertAt(bottom, r, own.writer.x) else own.links.lists[0]
  {
    RankExtends(before.keys, bottom, key, key);
    hide Rank, Chain, Sublist;
  }

  /** Inserting the new node at its rank adds exactly its key. */
  lemma Inserted(keys: seq<Key>, bottom: seq<nat>, key: Key, r: nat, x: nat)
    requires SortedList(keys, bottom) && r <= |bottom| && x == |keys|
    requires SortedList(keys + [key], InsertAt(bottom, r, x))
    ensures forall k :: k in KeysOf(keys + [key], InsertAt(bottom, r, x)) <==> k in KeysOf(keys, bottom) || k == key
  {
    var ks, ks' := KeysOf(keys, bottom), KeysOf(keys + [key], InsertAt(bottom, r, x));
    assert ks' == ks[..r] + [key] + ks[r..];
    assert ks == ks[..r] + ks[r..];
  }
}
