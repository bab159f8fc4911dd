/** `HandleTable`: the cache's hash table, with buckets that are singly linked through the handles. */
module HandleTable {
  import opened Keys

  const NULL: nat := 0

  /** The fields of a handle that the table uses; handles are named by positive numbers. */
  datatype Node = Node(key: Bytes, hash: nat, next: nat)

  // ---------------------------------------------------------------- chains

  ghost predicate Linked(nodes: map<nat, Node>, head: nat, chain: seq<nat>)
    decreases |chain|
  {
    if chain == [] then head == NULL
    else head == chain[0] != NULL && head in nodes && Linked(nodes, nodes[head].next, chain[1..])
  }

  ghost predicate Distinct(chain: seq<nat>) {
    forall i, j :: 0 <= i < j < |chain| ==> chain[i] != chain[j]
  }

  /** Only what the chain's own nodes say matters. */
  lemma {:induction false} LinkedFrame(nodes: map<nat, Node>, nodes': map<nat, Node>, head: nat, chain: seq<nat>)
    requires Linked(nodes, head, chain)
    requires forall h :: h in chain ==> h in nodes' && h in nodes && nodes'[h].next == nodes[h].next
    ensures Linked(nodes', head, chain)
    decreases |chain|
  {
    if chain != [] {
      assert chain[0] in chain;
      assert forall h :: h in chain[1..] ==> h in chain;
      LinkedFrame(nodes, nodes', nodes[head].next, chain[1..]);
    }
  }

  lemma {:induction false} LinkedAt(nodes: map<nat, Node>, head: nat, chain: seq<nat>, i: nat)
    requires Linked(nodes, head, chain) && i <= |chain|
    ensures i > 0 ==> chain[i - 1] in nodes && chain[i - 1] != NULL
    ensures Linked(nodes, if i == 0 then head else nodes[chain[i - 1]].next, chain[i..])
    decreases |chain|
  {
    if i > 0 {
      LinkedAt(nodes, nodes[head].next, chain[1..], i - 1);
      assert chain[1..][i - 1..] == chain[i..];
    }
  }

  lemma LinkedMembers(nodes: map<nat, Node>, head: nat, chain: seq<nat>)
    requires Linked(nodes, head, chain)
    ensures forall h :: h in chain ==> h in nodes && h != NULL
  {
    forall h | h in chain
      ensures h in nodes && h != NULL
    {
      var i :| 0 <= i < |chain| && chain[i] == h;
      LinkedAt(nodes, head, chain, i + 1);
    }
  }

  function WithNext(nodes: map<nat, Node>, h: nat, next: nat): map<nat, Node>
    requires h in nodes
  {
    nodes[h := nodes[h].(next := next)]
  }

  /** Storing `v` in the link behind the first `i > 0` nodes makes those nodes lead on to what `v` leads to. */
  lemma {:induction false} SetLink(nodes: map<nat, Node>, head: nat, chain: seq<nat>, i: nat, v: nat, tail: seq<nat>)
    requires Linked(nodes, head, chain) && 0 < i <= |chain| && Distinct(chain)
    requires chain[i - 1] in nodes && chain[i - 1] !in tail && Linked(nodes, v, tail)
    ensures Linked(WithNext(nodes, chain[i - 1], v), head, chain[..i] + tail)
    decreases |chain|
  {
    var p := chain[i - 1];
    var nodes' := WithNext(nodes, p, v);
    var result := chain[..i] + tail;
    assert result[0] == chain[0];
    if i == 1 {
      LinkedMembers(nodes, v, tail);
      LinkedFrame(nodes, nodes', v, tail);
      assert result[1..] == tail;
    } else {
      SetLink(nodes, nodes[head].next, chain[1..], i - 1, v, tail);
      assert result[1..] == chain[1..][..i - 1] + tail;
    }
  }

  // ---------------------------------------------------------------- the table

  ghost predicate Matches(n: Node, key: Bytes, hash: nat) { n.hash == hash && n.key == key }

  ghost predicate BucketOk(nodes: map<nat, Node>, list: seq<nat>, chains: seq<seq<nat>>, b: nat) {
    && b < |list| == |chains| && Linked(nodes, list[b], chains[b]) && Distinct(chains[b])
    && forall h :: h in chains[b] ==> h in nodes && nodes[h].hash % |list| == b
  }

  ghost predicate ChainsOk(nodes: map<nat, Node>, list: seq<nat>, chains: seq<seq<nat>>) {
    && |list| == |chains| > 0
    && forall b :: 0 <= b < |list| ==> BucketOk(nodes, list, chains, b)
  }

  ghost predicate Covered(nodes: map<nat, Node>, chains: seq<seq<nat>>) {
    |chains| > 0 && forall h :: h in nodes ==> h in chains[nodes[h].hash % |chains|]
  }

  /** No two nodes have the same key and hash. */
  ghost predicate Unique(nodes: map<nat, Node>) {
    forall g, h :: g in nodes && h in nodes && Matches(nodes[g], nodes[h].key, nodes[h].hash) ==> g == h
  }

  /** Which handle is stored under which key and hash. */
  ghost function EntriesOf(nodes: map<nat, Node>): map<nat, (Bytes, nat)> {
    map h | h in nodes :: (nodes[h].key, nodes[h].hash)
  }

  /** Twice as much until it is enough. */
  function Doubled(length: nat, elems: nat): (n: nat)
    requires length > 0
    ensures n >= elems && n >= length
    decreases elems - length
  {
    if length < elems then Doubled(2 * length, elems) else length
  }

  function LengthFor(elems: nat): (n: nat) { Doubled(4, elems) }

  ghost predicate IsPowerOfTwo(n: nat) { n == 1 || (n > 0 && n % 2 == 0 && IsPowerOfTwo(n / 2)) }

  lemma {:induction false} DoubledIs(length: nat, elems: nat)
    requires length > 0 && IsPowerOfTwo(length)
    ensures IsPowerOfTwo(Doubled(length, elems)) && (Doubled(length, elems) > length ==> Doubled(length, elems) < 2 * elems)
    decreases elems - length
  {
    if length < elems {
      assert 2 * length / 2 == length;
      DoubledIs(2 * length, elems);
    }
  }

  /** The least power of two with room for one handle in every bucket, but at least four buckets. */
  lemma LengthForIs(elems: nat)
    ensures IsPowerOfTwo(LengthFor(elems)) && 4 <= LengthFor(elems) && elems <= LengthFor(elems)
    ensures LengthFor(elems) > 4 ==> LengthFor(elems) < 2 * elems
  {
    assert IsPowerOfTwo(4) by { assert IsPowerOfTwo(2) && IsPowerOfTwo(1); }
    DoubledIs(4, elems);
  }

  /** Where a link is stored: the head of a bucket, or in a node. */
  datatype Slot = Head(b: nat) | NextOf(h: nat)

  class Table {
    var list: seq<nat>
    var elems: nat
    var nodes: map<nat, Node>
    ghost var chains: seq<seq<nat>>

    ghost predicate Valid() reads this {
      TableOk(nodes, list, chains) && elems == |nodes.Keys| <= |list|
    }

    ghost function Entries(): map<nat, (Bytes, nat)> reads this { EntriesOf(nodes) }

    constructor ()
      ensures Valid() && Entries() == map[] && |list| == 4
    {
      list, elems, nodes := [NULL, NULL, NULL, NULL], 0, map[];
      chains := [[], [], [], []];
    }

    function Load(s: Slot): nat
      requires match s case Head(b) => b < |list| case NextOf(h) => h in nodes
      reads this
    {
      match s
      case Head(b) => list[b]
      case NextOf(h) => nodes[h].next
    }

    /** The slot that holds the matching handle, or the slot at the end of its bucket. */
    method FindPointer(key: Bytes, hash: nat) returns (slot: Slot, b: nat, ghost i: nat)
      requires Valid()
      ensures |list| == |chains| > 0 && b == hash % |list| < |list| && i <= |chains[b]|
      ensures slot == if i == 0 then Head(b) else NextOf(chains[b][i - 1])
      ensures i > 0 ==> chains[b][i - 1] in nodes
      ensures Load(slot) == if i < |chains[b]| then chains[b][i] else NULL
      ensures i < |chains[b]| ==> chains[b][i] in nodes && chains[b][i] != NULL && Matches(nodes[chains[b][i]], key, hash)
      ensures i == |chains[b]| ==> forall h :: h in nodes ==> !Matches(nodes[h], key, hash)
    {
      hide TableOk;
      HasBuckets(nodes, list, chains);
      b := hash % |list|;
      ghost var chain := chains[b];
      slot, i := Head(b), 0;
      StartsBucket(nodes, list, chains, b);
      while Load(slot) != NULL && !(nodes[Load(slot)].hash == hash && nodes[Load(slot)].key == key)
        invariant i <= |chain| && slot == if i == 0 then Head(b) else NextOf(chain[i - 1])
        invariant i > 0 ==> chain[i - 1] in nodes
        invariant Load(slot) == if i < |chain| then chain[i] else NULL
        invariant i < |chain| ==> chain[i] in nodes && chain[i] != NULL
        invariant NoneMatches(nodes, chain[..i], key, hash)
        decreases |chain| - i
      {
        assert chain[..i + 1] == chain[..i] + [chain[i]];
        slot := NextOf(Load(slot));
        i := i + 1;
        NextInBucket(nodes, list, chains, b, i);
      }
      NoMatch(nodes, list, chains, b, i, key, hash);
    }

    method Lookup(key: Bytes, hash: nat) returns (h: nat)
      requires Valid()
      ensures if h == NULL then forall g :: g in Entries() ==> Entries()[g] != (key, hash)
              else h in Entries() && Entries()[h] == (key, hash)
    {
      hide Matches;
      var slot, _, _ := FindPointer(key, hash);
      h := Load(slot);
      MatchIsEntry(nodes, key, hash);
    }

    method Store(s: Slot, v: nat)
      requires match s case Head(b) => b < |list| case NextOf(h) => h in nodes
      modifies `list, `nodes
      ensures list == (if s.Head? then old(list)[s.b := v] else old(list))
      ensures nodes == if s.NextOf? then WithNext(old(nodes), s.h, v) else old(nodes)
    {
      match s
      case Head(b) => list := list[b := v];
      case NextOf(h) => nodes := WithNext(nodes, h, v);
    }

    /** A key and hash are stored at most once. */
    lemma OneEntry()
      requires Valid()
      ensures forall g, h :: g in Entries() && h in Entries() && Entries()[g] == Entries()[h] ==> g == h
    {
      hide ChainsOk, Covered;
    }

    /** Add a handle; one with the same key and hash is replaced and returned. */
    method Insert(h: nat, key: Bytes, hash: nat) returns (old_: nat)
      requires Valid() && h != NULL && h !in Entries()
      modifies this
      ensures Valid()
      ensures if old_ == NULL then forall g :: g in old(Entries()) ==> old(Entries())[g] != (key, hash)
              else old_ in old(Entries()) && old(Entries())[old_] == (key, hash)
      ensures Entries() == (old(Entries()) - {old_})[h := (key, hash)]
      ensures |list| == if elems > old(|list|) then LengthFor(elems) else old(|list|)
    {
      hide ChainsOk, Covered, Unique, Matches, EntriesOf;
      var slot, b, i := FindPointer(key, hash);
      old_ := Load(slot);
      MatchIsEntry(nodes, key, hash);
      ghost var rest: seq<nat> := if old_ == NULL then [] else chains[b][i + 1..];
      Inserts(nodes, list, chains, b, i, h, key, hash, old_);
      nodes := nodes[h := Node(key, hash, if old_ == NULL then NULL else nodes[old_].next)];
      Store(slot, h);
      nodes := nodes - {old_};
      chains := chains[b := chains[b][..i] + ([h] + rest)];
      if old_ == NULL {
        elems := elems + 1;
        if elems > |list| {
          Resize();
        }
      }
    }

    /** Take out the handle stored under the key and hash, if there is one. */
    method Remove(key: Bytes, hash: nat) returns (h: nat)
      requires Valid()
      modifies this
      ensures Valid()
      ensures if h == NULL then forall g :: g in old(Entries()) ==> old(Entries())[g] != (key, hash)
              else h in old(Entries()) && old(Entries())[h] == (key, hash)
      ensures Entries() == old(Entries()) - {h} && |list| == old(|list|)
    {
      hide ChainsOk, Covered, Unique, Matches, EntriesOf;
      var slot, b, i := FindPointer(key, hash);
      h := Load(slot);
      MatchIsEntry(nodes, key, hash);
      if h != NULL {
        Removes(nodes, list, chains, b, i, key, hash);
        Store(slot, nodes[h].next);
        nodes := nodes - {h};
        chains := chains[b := chains[b][..i] + chains[b][i + 1..]];
        elems := elems - 1;
      } else {
        NullIsNoNode(nodes, list, chains);
        NothingRemoved(nodes);
      }
    }

    /** Move every handle to a table with at least as many buckets as handles. */
    method Resize()
      requires TableOk(nodes, list, chains) && elems == |nodes.Keys|
      modifies this
      ensures Valid() && Entries() == old(Entries()) && elems == old(elems) && |list| == LengthFor(elems)
    {
      hide TableOk, Linked, Distinct, BucketOk, EntriesOf, Covered, Unique, NewChains, SameNodes;
      TableParts(nodes, list, chains);
      var newLength := 4;
      while newLength < elems
        invariant newLength > 0 && Doubled(newLength, elems) == LengthFor(elems)
        modifies {}
      {
        newLength := newLength * 2;
      }
      var newList: seq<nat> := seq(newLength, _ => NULL);
      ghost var newChains: seq<seq<nat>> := seq(newLength, _ => []);
      ghost var was, moved: set<nat> := nodes, {};
      EmptyTable(nodes, newLength);
      NothingMoved(nodes);
      for i := 0 to |list|
        invariant SameNodes(was, nodes) && list == old(list) && chains == old(chains) && elems == old(elems)
        invariant NewChains(nodes, newList, newChains, moved) && |newList| == newLength
        invariant forall b :: i <= b < |list| ==> Linked(nodes, list[b], chains[b])
        invariant forall b, g :: i <= b < |list| && g in chains[b] ==> g !in moved
        invariant forall b, g :: 0 <= b < i && g in chains[b] ==> g in moved
      {
        BucketApart(was, list, chains, i);
        SameKeysStill(was, nodes);
        ghost var before := nodes;
        newList, newChains := MoveBucket(list[i], newList, chains[i], newChains, moved);
        SameKeysStill(before, nodes);
        OthersLinked(before, nodes, list, chains, i);
        moved := moved + (set g | g in chains[i]);
        SameTrans(was, before, nodes);
      }
      AllMoved(was, nodes, list, chains, newList, newChains, moved);
      list := newList;
      chains := newChains;
    }

    /** Push the handles of one old bucket, front to back, onto the fronts of their new buckets. */
    method MoveBucket(head: nat, list0: seq<nat>, ghost chain: seq<nat>, ghost chains0: seq<seq<nat>>, ghost moved: set<nat>)
      returns (newList: seq<nat>, ghost newChains: seq<seq<nat>>)
      requires Linked(nodes, head, chain) && Distinct(chain) && NewChains(nodes, list0, chains0, moved)
      requires forall g :: g in chain ==> g in nodes && g !in moved
      modifies `nodes
      ensures SameNodes(old(nodes), nodes) && |newList| == |list0|
      ensures NewChains(nodes, newList, newChains, moved + (set g | g in chain))
      ensures forall g :: g in nodes && g !in chain ==> nodes[g] == old(nodes)[g]
    {
      hide *;
      newList, newChains := list0, chains0;
      ghost var was, rest, done := nodes, chain, moved;
      var h := head;
      SameRefl(nodes);
      while h != NULL
        invariant SameNodes(was, nodes) && |newList| == |list0|
        invariant Linked(nodes, h, rest) && Distinct(rest) && NewChains(nodes, newList, newChains, done)
        invariant forall g :: g in chain <==> g in rest || g in done - moved
        invariant moved <= done && forall g :: g in rest ==> g in nodes && g !in done
        invariant forall g :: g in was && g !in chain ==> g in nodes && nodes[g] == was[g]
        decreases |rest|
      {
        LinkHere2(nodes, h, rest);
        var next := nodes[h].next;
        MovesOne(nodes, newList, newChains, done, h);
        StillLinked(nodes, h, newList[nodes[h].hash % |newList|], next, rest[1..]);
        var slot := nodes[h].hash % |newList|;
        SameWithNext(was, nodes, h, newList[slot]);
        NextStored(nodes, h, newList[slot]);
        nodes := WithNext(nodes, h, newList[slot]);
        newList := newList[slot := h];
        newChains := newChains[slot := [h] + newChains[slot]];
        done := done + {h};
        rest := rest[1..];
        h := next;
      }
      LinkedEmpty(nodes, h, rest);
      assert done == moved + (set g | g in chain);
      SameDomain(was, nodes);
    }
  }

  /** The handles moved so far are exactly those in the new buckets. */
  ghost predicate NewChains(nodes: map<nat, Node>, list: seq<nat>, chains: seq<seq<nat>>, moved: set<nat>) {
    && ChainsOk(nodes, list, chains) && moved <= nodes.Keys
    && (forall g :: g in moved ==> g in chains[nodes[g].hash % |chains|])
    && (forall b, g :: 0 <= b < |chains| && g in chains[b] ==> g in moved)
  }

  ghost predicate SameNodes(nodes: map<nat, Node>, nodes': map<nat, Node>) {
    && nodes'.Keys == nodes.Keys
    && forall g :: g in nodes ==> nodes'[g].key == nodes[g].key && nodes'[g].hash == nodes[g].hash
  }

  lemma SameRefl(nodes: map<nat, Node>)
    ensures SameNodes(nodes, nodes)
  {
  }

  lemma SameTrans(a: map<nat, Node>, b: map<nat, Node>, c: map<nat, Node>)
    requires SameNodes(a, b) && SameNodes(b, c)
    ensures SameNodes(a, c)
  {
  }

  lemma SameDomain(a: map<nat, Node>, b: map<nat, Node>)
    requires SameNodes(a, b)
    ensures forall g :: g in a <==> g in b
  {
  }

  lemma SameKeysStill(a: map<nat, Node>, b: map<nat, Node>)
    requires SameNodes(a, b)
    ensures b.Keys == a.Keys
  {
  }

  lemma SameWithNext(was: map<nat, Node>, nodes: map<nat, Node>, h: nat, v: nat)
    requires SameNodes(was, nodes) && h in nodes
    ensures SameNodes(was, WithNext(nodes, h, v))
  {
  }

  lemma NextStored(nodes: map<nat, Node>, h: nat, v: nat)
    requires h in nodes
    ensures forall g :: g in nodes <==> g in WithNext(nodes, h, v)
    ensures forall g :: g in nodes && g != h ==> WithNext(nodes, h, v)[g] == nodes[g]
  {
  }

  lemma LinkHere2(nodes: map<nat, Node>, head: nat, chain: seq<nat>)
    requires Linked(nodes, head, chain) && head != NULL && Distinct(chain)
    ensures chain != [] && head == chain[0] && head in nodes && Linked(nodes, nodes[head].next, chain[1..])
    ensures Distinct(chain[1..]) && head !in chain[1..]
    ensures forall g :: g in chain <==> g == head || g in chain[1..]
  {
    assert chain == [chain[0]] + chain[1..];
  }

  lemma LinkedEmpty(nodes: map<nat, Node>, head: nat, chain: seq<nat>)
    requires Linked(nodes, head, chain) && head == NULL
    ensures chain == []
  {
  }

  lemma StillLinked(nodes: map<nat, Node>, h: nat, v: nat, head: nat, chain: seq<nat>)
    requires Linked(nodes, head, chain) && h in nodes && h !in chain
    ensures Linked(WithNext(nodes, h, v), head, chain)
  {
    LinkedMembers(nodes, head, chain);
    LinkedFrame(nodes, WithNext(nodes, h, v), head, chain);
  }

  lemma MovesOne(nodes: map<nat, Node>, list: seq<nat>, chains: seq<seq<nat>>, moved: set<nat>, h: nat)
    requires NewChains(nodes, list, chains, moved) && h in nodes && h !in moved && h != NULL
    ensures |list| == |chains| > 0
    ensures
      var s := nodes[h].hash % |list|;
      NewChains(WithNext(nodes, h, list[s]), list[s := h], chains[s := [h] + chains[s]], moved + {h})
  {
    var s := nodes[h].hash % |list|;
    var nodes' := WithNext(nodes, h, list[s]);
    hide BucketOk;
    forall b, g | 0 <= b < |chains| && g in chains[b]
      ensures g in nodes && g != h
    {
      ChainNode(nodes, list, chains, b, g);
    }
    OtherNodes(nodes, nodes', list, chains);
    Pushed(nodes', list, chains, s, h);
  }

  lemma Pushed(nodes: map<nat, Node>, list: seq<nat>, chains: seq<seq<nat>>, s: nat, h: nat)
    requires ChainsOk(nodes, list, chains) && s < |list| && h in nodes && h != NULL && h !in chains[s]
    requires nodes[h].hash % |list| == s && nodes[h].next == list[s]
    ensures ChainsOk(nodes, list[s := h], chains[s := [h] + chains[s]])
  {
    assert BucketOk(nodes, list, chains, s);
    assert ([h] + chains[s])[1..] == chains[s];
    var list', chains' := list[s := h], chains[s := [h] + chains[s]];
    forall b | 0 <= b < |list|
      ensures BucketOk(nodes, list', chains', b)
    {
      assert BucketOk(nodes, list, chains, b);
    }
  }

  lemma TableParts(nodes: map<nat, Node>, list: seq<nat>, chains: seq<seq<nat>>)
    requires TableOk(nodes, list, chains)
    ensures |list| == |chains| > 0 && forall b :: 0 <= b < |list| ==> Linked(nodes, list[b], chains[b])
  {
    forall b | 0 <= b < |list|
      ensures Linked(nodes, list[b], chains[b])
    {
      assert BucketOk(nodes, list, chains, b);
    }
  }

  lemma EmptyTable(nodes: map<nat, Node>, n: nat)
    requires n > 0
    ensures NewChains(nodes, seq(n, _ => NULL), seq(n, _ => []), {})
  {
  }

  lemma NothingMoved(nodes: map<nat, Node>)
    ensures SameNodes(nodes, nodes)
  {
  }

  /** The members of one bucket, and that no other bucket has them. */
  lemma BucketApart(nodes: map<nat, Node>, list: seq<nat>, chains: seq<seq<nat>>, i: nat)
    requires TableOk(nodes, list, chains) && i < |list|
    ensures i < |chains| && Distinct(chains[i]) && (forall g :: g in chains[i] ==> g in nodes)
    ensures forall b, g :: 0 <= b < |chains| && b != i && g in chains[b] ==> g !in chains[i]
  {
    assert BucketOk(nodes, list, chains, i);
    hide Linked, Distinct;
    forall b, g | 0 <= b < |chains| && b != i && g in chains[b]
      ensures g !in chains[i]
    {
      assert BucketOk(nodes, list, chains, b);
    }
  }

  lemma OthersLinked(nodes: map<nat, Node>, nodes': map<nat, Node>, list: seq<nat>, chains: seq<seq<nat>>, i: nat)
    requires |list| == |chains| && i < |list| && forall b :: i <= b < |list| ==> Linked(nodes, list[b], chains[b])
    requires forall b, g :: 0 <= b < |chains| && b != i && g in chains[b] ==> g !in chains[i]
    requires nodes'.Keys == nodes.Keys && forall g :: g in nodes && g !in chains[i] ==> nodes'[g] == nodes[g]
    ensures forall b :: i < b < |list| ==> Linked(nodes', list[b], chains[b])
  {
    hide Linked;
    forall b | i < b < |list|
      ensures Linked(nodes', list[b], chains[b])
    {
      LinkedMembers(nodes, list[b], chains[b]);
      LinkedFrame(nodes, nodes', list[b], chains[b]);
    }
  }

  /** When every old bucket is moved, the new buckets are the table. */
  lemma AllMoved(was: map<nat, Node>, nodes: map<nat, Node>, list: seq<nat>, chains: seq<seq<nat>>,
      newList: seq<nat>, newChains: seq<seq<nat>>, moved: set<nat>)
    requires TableOk(was, list, chains) && SameNodes(was, nodes) && NewChains(nodes, newList, newChains, moved)
    requires forall b, g :: 0 <= b < |list| && g in chains[b] ==> g in moved
    ensures TableOk(nodes, newList, newChains) && EntriesOf(nodes) == EntriesOf(was) && nodes.Keys == was.Keys
  {
    hide BucketOk;
    UniqueKeys(was, nodes);
    forall g | g in nodes
      ensures g in moved
    {
      assert g in chains[was[g].hash % |list|];
    }
  }

  ghost predicate NoneMatches(nodes: map<nat, Node>, ns: seq<nat>, key: Bytes, hash: nat) {
    forall h :: h in ns ==> h in nodes && !Matches(nodes[h], key, hash)
  }

  lemma HasBuckets(nodes: map<nat, Node>, list: seq<nat>, chains: seq<seq<nat>>)
    requires TableOk(nodes, list, chains)
    ensures |list| == |chains| > 0
  {
    hide BucketOk, Unique, Covered;
  }

  lemma StartsBucket(nodes: map<nat, Node>, list: seq<nat>, chains: seq<seq<nat>>, b: nat)
    requires TableOk(nodes, list, chains) && b < |list| == |chains|
    ensures list[b] == if chains[b] == [] then NULL else chains[b][0]
    ensures chains[b] != [] ==> chains[b][0] in nodes && chains[b][0] != NULL
  {
    assert BucketOk(nodes, list, chains, b);
    hide Linked, Distinct, Unique, Covered, ChainsOk;
    LinkHere(nodes, list[b], chains[b]);
  }

  lemma NextInBucket(nodes: map<nat, Node>, list: seq<nat>, chains: seq<seq<nat>>, b: nat, i: nat)
    requires TableOk(nodes, list, chains) && b < |list| == |chains| && 0 < i <= |chains[b]|
    ensures chains[b][i - 1] in nodes
    ensures nodes[chains[b][i - 1]].next == if i < |chains[b]| then chains[b][i] else NULL
    ensures i < |chains[b]| ==> chains[b][i] in nodes && chains[b][i] != NULL
  {
    assert BucketOk(nodes, list, chains, b);
    hide Linked, Distinct, Unique, Covered, ChainsOk;
    LinkedAt(nodes, list[b], chains[b], i);
    LinkHere(nodes, nodes[chains[b][i - 1]].next, chains[b][i..]);
  }

  lemma NoMatch(nodes: map<nat, Node>, list: seq<nat>, chains: seq<seq<nat>>, b: nat, i: nat, key: Bytes, hash: nat)
    requires TableOk(nodes, list, chains) && |list| == |chains| > 0 && b == hash % |list| && i <= |chains[b]|
    requires NoneMatches(nodes, chains[b][..i], key, hash)
    ensures i == |chains[b]| ==> forall h :: h in nodes ==> !Matches(nodes[h], key, hash)
  {
    hide BucketOk, Unique;
    forall h | h in nodes
      ensures i == |chains[b]| ==> !Matches(nodes[h], key, hash)
    {
      assert nodes[h].hash == hash ==> h in chains[b];
      assert i == |chains[b]| ==> chains[b][..i] == chains[b];
    }
  }

  // ---------------------------------------------------------------- splicing one bucket

  ghost predicate InBucket(nodes: map<nat, Node>, n: nat, b: nat, tail: seq<nat>)
    requires n > 0
  {
    forall h :: h in tail ==> h in nodes && nodes[h].hash % n == b
  }

  function StoredNodes(nodes: map<nat, Node>, s: Slot, v: nat): map<nat, Node>
    requires s.NextOf? ==> s.h in nodes
  {
    if s.NextOf? then WithNext(nodes, s.h, v) else nodes
  }

  function StoredList(list: seq<nat>, s: Slot, v: nat): seq<nat>
    requires s.Head? ==> s.b < |list|
  {
    if s.Head? then list[s.b := v] else list
  }

  /** Storing a link to another tail behind the first `i` nodes of a bucket. */
  lemma Splices(nodes: map<nat, Node>, list: seq<nat>, chains: seq<seq<nat>>, b: nat, i: nat, v: nat, tail: seq<nat>)
    requires ChainsOk(nodes, list, chains) && b < |list| && i <= |chains[b]|
    requires Linked(nodes, v, tail) && InBucket(nodes, |list|, b, tail) && Distinct(chains[b][..i] + tail)
    ensures i > 0 ==> chains[b][i - 1] in nodes
    ensures
      var slot := if i == 0 then Head(b) else NextOf(chains[b][i - 1]);
      ChainsOk(StoredNodes(nodes, slot, v), StoredList(list, slot, v), chains[b := chains[b][..i] + tail])
  {
    var chain := chains[b];
    assert BucketOk(nodes, list, chains, b);
    hide Linked, Distinct;
    LinkedMembers(nodes, list[b], chain);
    assert i > 0 ==> chain[i - 1] in chain;
    var slot := if i == 0 then Head(b) else NextOf(chain[i - 1]);
    var nodes', list', chains' := StoredNodes(nodes, slot, v), StoredList(list, slot, v), chains[b := chain[..i] + tail];
    forall c | 0 <= c < |list|
      ensures BucketOk(nodes', list', chains', c)
    {
      assert BucketOk(nodes, list, chains, c);
      if c == b {
        if i > 0 {
          NotInTail(chain[..i], tail);
          assert chain[..i][i - 1] == chain[i - 1];
          SetLink(nodes, list[b], chain, i, v, tail);
        } else {
          assert chain[..0] + tail == tail;
        }
        assert forall h :: h in chain[..i] ==> h in chain;
      } else {
        assert i > 0 ==> chain[i - 1] !in chains[c];
        LinkedMembers(nodes, list[c], chains[c]);
        LinkedFrame(nodes, nodes', list[c], chains[c]);
      }
    }
  }

  lemma NotInTail(a: seq<nat>, tail: seq<nat>)
    requires Distinct(a + tail)
    ensures forall h :: h in a ==> h !in tail
  {
    forall h | h in a
      ensures h !in tail
    {
      var i :| 0 <= i < |a| && a[i] == h;
      forall j | 0 <= j < |tail|
        ensures tail[j] != h
      {
        assert (a + tail)[i] == h && (a + tail)[|a| + j] == tail[j];
      }
    }
  }

  /** Nodes outside all chains may come and go. */
  lemma OtherNodes(nodes: map<nat, Node>, nodes': map<nat, Node>, list: seq<nat>, chains: seq<seq<nat>>)
    requires ChainsOk(nodes, list, chains)
    requires forall b, h :: 0 <= b < |chains| && h in chains[b] ==> h in nodes && h in nodes' && nodes'[h] == nodes[h]
    ensures ChainsOk(nodes', list, chains)
  {
    hide Linked, Distinct;
    forall b | 0 <= b < |list|
      ensures BucketOk(nodes', list, chains, b)
    {
      assert BucketOk(nodes, list, chains, b);
      LinkedFrame(nodes, nodes', list[b], chains[b]);
    }
  }

  lemma LinkHere(nodes: map<nat, Node>, head: nat, chain: seq<nat>)
    requires Linked(nodes, head, chain)
    ensures head == if chain == [] then NULL else chain[0]
    ensures chain != [] ==> chain[0] in nodes && chain[0] != NULL
  {
  }

  lemma MatchIsEntry(nodes: map<nat, Node>, key: Bytes, hash: nat)
    ensures EntriesOf(nodes).Keys == nodes.Keys
    ensures forall h :: h in nodes ==> (Matches(nodes[h], key, hash) <==> EntriesOf(nodes)[h] == (key, hash))
  {
  }

  /** Two members of chains are the same only at the same place. */
  lemma OnePlace(nodes: map<nat, Node>, list: seq<nat>, chains: seq<seq<nat>>, b: nat, i: nat, c: nat, h: nat)
    requires ChainsOk(nodes, list, chains) && b < |list| && c < |list| && i < |chains[b]| && h == chains[b][i] && h in chains[c]
    ensures c == b && h !in chains[b][..i] && h !in chains[b][i + 1..]
  {
    assert BucketOk(nodes, list, chains, b) && BucketOk(nodes, list, chains, c);
    hide Linked;
    assert h in chains[b];
  }

  lemma {:induction false} DistinctParts(chain: seq<nat>, i: nat, j: nat)
    requires Distinct(chain) && i <= j <= |chain|
    ensures Distinct(chain[..i] + chain[j..])
  {
    var r := chain[..i] + chain[j..];
    assert forall k :: 0 <= k < |r| ==> r[k] == if k < i then chain[k] else chain[k - i + j];
  }

  lemma DistinctWith(a: seq<nat>, h: nat, b: seq<nat>)
    requires Distinct(a + b) && h !in a && h !in b
    ensures Distinct(a + ([h] + b))
  {
    var r := a + ([h] + b);
    assert forall k :: 0 <= k < |r| ==> r[k] == if k < |a| then (a + b)[k] else if k == |a| then h else (a + b)[k - 1];
    assert forall k :: 0 <= k < |a| ==> a[k] == (a + b)[k];
    assert forall k :: 0 <= k < |b| ==> b[k] == (a + b)[|a| + k];
  }

  ghost predicate TableOk(nodes: map<nat, Node>, list: seq<nat>, chains: seq<seq<nat>>) {
    ChainsOk(nodes, list, chains) && Covered(nodes, chains) && Unique(nodes)
  }

  /** The chains of a table lose the node at one place. */
  lemma Drops(nodes: map<nat, Node>, list: seq<nat>, chains: seq<seq<nat>>, gone: nat)
    requires ChainsOk(nodes, list, chains) && forall b :: 0 <= b < |chains| ==> gone !in chains[b]
    ensures ChainsOk(nodes - {gone}, list, chains)
  {
    hide BucketOk;
    forall b, h | 0 <= b < |chains| && h in chains[b]
      ensures h in nodes && h != gone
    {
      ChainNode(nodes, list, chains, b, h);
    }
    OtherNodes(nodes, nodes - {gone}, list, chains);
  }

  lemma ChainNode(nodes: map<nat, Node>, list: seq<nat>, chains: seq<seq<nat>>, b: nat, h: nat)
    requires ChainsOk(nodes, list, chains) && b < |chains| && h in chains[b]
    ensures h in nodes && nodes[h].hash % |list| == b && h != NULL
  {
    assert BucketOk(nodes, list, chains, b);
    LinkedMembers(nodes, list[b], chains[b]);
  }

  lemma NothingRemoved(nodes: map<nat, Node>)
    requires NULL !in nodes
    ensures EntriesOf(nodes) - {NULL} == EntriesOf(nodes)
  {
  }

  /** The stored nodes differ from the given ones only in one link. */
  lemma SameKeys(nodes: map<nat, Node>, s: Slot, v: nat)
    requires s.NextOf? ==> s.h in nodes
    ensures
      var nodes' := StoredNodes(nodes, s, v);
      nodes'.Keys == nodes.Keys && forall g :: g in nodes ==> nodes'[g].key == nodes[g].key && nodes'[g].hash == nodes[g].hash
  {
  }

  lemma UniqueKeys(nodes: map<nat, Node>, nodes': map<nat, Node>)
    requires Unique(nodes) && nodes'.Keys <= nodes.Keys
    requires forall g :: g in nodes' ==> nodes'[g].key == nodes[g].key && nodes'[g].hash == nodes[g].hash
    ensures Unique(nodes')
  {
  }

  /** Splitting a chain at one of its places. */
  lemma AllButOne(chain: seq<nat>, i: nat)
    requires i < |chain|
    ensures forall g :: g in chain <==> g in chain[..i] || g == chain[i] || g in chain[i + 1..]
    ensures forall g :: g in chain[..i] + chain[i + 1..] <==> g in chain[..i] || g in chain[i + 1..]
  {
    assert chain == chain[..i] + [chain[i]] + chain[i + 1..];
  }

  lemma BucketParts(nodes: map<nat, Node>, list: seq<nat>, chains: seq<seq<nat>>, b: nat, i: nat)
    requires ChainsOk(nodes, list, chains) && b < |list| && i <= |chains[b]|
    ensures |list| == |chains| > 0 && (i > 0 ==> chains[b][i - 1] in nodes)
    ensures Distinct(chains[b]) && InBucket(nodes, |list|, b, chains[b])
    ensures i < |chains[b]| ==>
      && chains[b][i] in nodes && chains[b][i] != NULL && InBucket(nodes, |list|, b, chains[b][i + 1..])
      && Linked(nodes, nodes[chains[b][i]].next, chains[b][i + 1..])
  {
    var chain := chains[b];
    assert BucketOk(nodes, list, chains, b);
    LinkedMembers(nodes, list[b], chain);
    assert i > 0 ==> chain[i - 1] in chain;
    if i < |chain| {
      assert chain[i] in chain && forall g :: g in chain[i + 1..] ==> g in chain;
      LinkedAt(nodes, list[b], chain, i + 1);
    }
  }

  lemma Removes(nodes: map<nat, Node>, list: seq<nat>, chains: seq<seq<nat>>, b: nat, i: nat, key: Bytes, hash: nat)
    requires TableOk(nodes, list, chains) && b < |list| && i < |chains[b]| && chains[b][i] in nodes
    ensures i > 0 ==> chains[b][i - 1] in nodes
    ensures
      var h, slot := chains[b][i], if i == 0 then Head(b) else NextOf(chains[b][i - 1]);
      var nodes' := StoredNodes(nodes, slot, nodes[h].next) - {h};
      && TableOk(nodes', StoredList(list, slot, nodes[h].next), chains[b := chains[b][..i] + chains[b][i + 1..]])
      && EntriesOf(nodes') == EntriesOf(nodes) - {h} && |nodes'.Keys| == |nodes.Keys| - 1
  {
    hide ChainsOk, Covered, Unique, Linked, Distinct, InBucket;
    BucketParts(nodes, list, chains, b, i);
    var chain := chains[b];
    var h, slot := chain[i], if i == 0 then Head(b) else NextOf(chain[i - 1]);
    var stored := StoredNodes(nodes, slot, nodes[h].next);
    SameKeys(nodes, slot, nodes[h].next);
    hide StoredNodes;
    DistinctParts(chain, i, i + 1);
    Splices(nodes, list, chains, b, i, nodes[h].next, chain[i + 1..]);
    UniqueKeys(nodes, stored - {h});
    GoneFromChains(nodes, list, chains, b, i);
    RemovesCovered(nodes, list, chains, b, i, stored - {h});
    Drops(stored, StoredList(list, slot, nodes[h].next), chains[b := chain[..i] + chain[i + 1..]], h);
    assert stored.Keys - {h} == (stored - {h}).Keys;
    CountWithout(nodes.Keys, h);
  }

  lemma GoneFromChains(nodes: map<nat, Node>, list: seq<nat>, chains: seq<seq<nat>>, b: nat, i: nat)
    requires ChainsOk(nodes, list, chains) && b < |list| && i < |chains[b]|
    ensures
      var chains' := chains[b := chains[b][..i] + chains[b][i + 1..]];
      forall c :: 0 <= c < |chains'| ==> chains[b][i] !in chains'[c]
  {
    var h := chains[b][i];
    hide BucketOk;
    forall c | 0 <= c < |chains|
      ensures c != b ==> h !in chains[c]
    {
      if h in chains[c] {
        OnePlace(nodes, list, chains, b, i, c, h);
      }
    }
    assert h in chains[b];
    OnePlace(nodes, list, chains, b, i, b, h);
  }

  lemma RemovesCovered(nodes: map<nat, Node>, list: seq<nat>, chains: seq<seq<nat>>, b: nat, i: nat, nodes': map<nat, Node>)
    requires ChainsOk(nodes, list, chains) && Covered(nodes, chains) && b < |list| && i < |chains[b]|
    requires nodes'.Keys == nodes.Keys - {chains[b][i]}
    requires forall g :: g in nodes' ==> nodes'[g].hash == nodes[g].hash
    ensures Covered(nodes', chains[b := chains[b][..i] + chains[b][i + 1..]])
  {
    hide BucketOk;
    AllButOne(chains[b], i);
  }

  lemma CountWithout(a: set<nat>, h: nat)
    requires h in a
    ensures |a - {h}| == |a| - 1
  {
  }

  lemma CountWith(a: set<nat>, h: nat)
    requires h !in a
    ensures |a + {h}| == |a| + 1
  {
  }

  /** A new handle in place of an old one, or at the end of its bucket. */
  lemma Inserts(nodes: map<nat, Node>, list: seq<nat>, chains: seq<seq<nat>>, b: nat, i: nat, h: nat, key: Bytes, hash: nat, old_: nat)
    requires TableOk(nodes, list, chains) && |list| == |chains| > 0 && b == hash % |list| < |list|
    requires i <= |chains[b]| && h != NULL && h !in nodes
    requires old_ == if i < |chains[b]| then chains[b][i] else NULL
    requires i < |chains[b]| ==> old_ in nodes && Matches(nodes[old_], key, hash)
    requires i == |chains[b]| ==> forall g :: g in nodes ==> !Matches(nodes[g], key, hash)
    ensures i > 0 ==> chains[b][i - 1] in nodes
    ensures
      var rest: seq<nat> := if i == |chains[b]| then [] else chains[b][i + 1..];
      var added := nodes[h := Node(key, hash, if i == |chains[b]| then NULL else nodes[old_].next)];
      var slot := if i == 0 then Head(b) else NextOf(chains[b][i - 1]);
      var nodes' := StoredNodes(added, slot, h) - {old_};
      && TableOk(nodes', StoredList(list, slot, h), chains[b := chains[b][..i] + ([h] + rest)])
      && EntriesOf(nodes') == (EntriesOf(nodes) - {old_})[h := (key, hash)]
      && |nodes'.Keys| == |nodes.Keys| + if i == |chains[b]| then 1 else 0
  {
    hide ChainsOk, Covered, Unique, Linked, Distinct, InBucket, EntriesOf, StoredNodes, StoredList, Matches;
    var chain := chains[b];
    var rest: seq<nat> := if i == |chain| then [] else chain[i + 1..];
    var node := Node(key, hash, if i == |chain| then NULL else nodes[old_].next);
    var slot := if i == 0 then Head(b) else NextOf(chain[i - 1]);
    NullIsNoNode(nodes, list, chains);
    InsertLinks(nodes, list, chains, b, i, h, node, old_);
    var nodes' := StoredNodes(nodes[h := node], slot, h) - {old_};
    InsertKeys(nodes, h, node, slot, old_);
    ReplacedInChains(nodes, list, chains, b, i, h, old_);
    InsertsCovered(nodes, list, chains, b, i, h, old_, nodes');
    InsertsUnique(nodes, h, key, hash, old_, nodes');
    CountReplaced(nodes.Keys, h, old_);
  }

  lemma CountReplaced(a: set<nat>, h: nat, old_: nat)
    requires h !in a && old_ != h
    ensures |a + {h} - {old_}| == |a| + if old_ in a then 0 else 1
  {
    CountWith(a, h);
    if old_ in a {
      CountWithout(a + {h}, old_);
    } else {
      assert a + {h} - {old_} == a + {h};
    }
  }

  lemma InsertKeys(nodes: map<nat, Node>, h: nat, node: Node, slot: Slot, old_: nat)
    requires h !in nodes && h != old_ && (slot.NextOf? ==> slot.h in nodes)
    ensures
      var nodes' := StoredNodes(nodes[h := node], slot, h) - {old_};
      && nodes'.Keys == nodes.Keys + {h} - {old_}
      && nodes'[h].key == node.key && nodes'[h].hash == node.hash
      && forall g :: g in nodes' && g != h ==> g in nodes && nodes'[g].key == nodes[g].key && nodes'[g].hash == nodes[g].hash
  {
  }

  lemma InsertLinks(nodes: map<nat, Node>, list: seq<nat>, chains: seq<seq<nat>>, b: nat, i: nat, h: nat, node: Node, old_: nat)
    requires ChainsOk(nodes, list, chains) && b < |list| == |chains| && i <= |chains[b]| && h != NULL && h !in nodes
    requires node.hash % |list| == b && old_ == if i < |chains[b]| then chains[b][i] else NULL
    requires node.next == if i == |chains[b]| then NULL else if old_ in nodes then nodes[old_].next else NULL
    ensures i > 0 ==> chains[b][i - 1] in nodes
    ensures old_ != h
    ensures
      var rest: seq<nat> := if i == |chains[b]| then [] else chains[b][i + 1..];
      var slot := if i == 0 then Head(b) else NextOf(chains[b][i - 1]);
      ChainsOk(StoredNodes(nodes[h := node], slot, h) - {old_}, StoredList(list, slot, h), chains[b := chains[b][..i] + ([h] + rest)])
  {
    hide ChainsOk, Linked, Distinct, InBucket, StoredNodes, StoredList;
    BucketParts(nodes, list, chains, b, i);
    EmptyLinked(nodes);
    var rest: seq<nat> := if i == |chains[b]| then [] else chains[b][i + 1..];
    NewChain(nodes, list, chains, b, i, h);
    assert i == |chains[b]| ==> InBucket(nodes, |list|, b, rest);
    NewNode(nodes, list, chains, b, h, nodes[h := node], rest);
    Splices(nodes[h := node], list, chains, b, i, h, [h] + rest);
    ReplacedInChains(nodes, list, chains, b, i, h, old_);
    var slot := if i == 0 then Head(b) else NextOf(chains[b][i - 1]);
    Drops(StoredNodes(nodes[h := node], slot, h), StoredList(list, slot, h), chains[b := chains[b][..i] + ([h] + rest)], old_);
  }

  lemma ReplacedInChains(nodes: map<nat, Node>, list: seq<nat>, chains: seq<seq<nat>>, b: nat, i: nat, h: nat, old_: nat)
    requires ChainsOk(nodes, list, chains) && b < |list| && i <= |chains[b]| && h !in nodes && h != NULL
    requires old_ == if i < |chains[b]| then chains[b][i] else NULL
    ensures old_ != h && (i == |chains[b]| ==> old_ !in nodes || NULL in nodes)
    ensures
      var rest: seq<nat> := if i == |chains[b]| then [] else chains[b][i + 1..];
      var chains' := chains[b := chains[b][..i] + ([h] + rest)];
      forall c :: 0 <= c < |chains'| ==> old_ !in chains'[c]
  {
    hide BucketOk;
    if i < |chains[b]| {
      GoneFromChains(nodes, list, chains, b, i);
      var chains' := chains[b := chains[b][..i] + chains[b][i + 1..]];
      assert old_ !in chains'[b] && forall c :: 0 <= c < |chains| && c != b ==> chains'[c] == chains[c];
      AllButOne(chains[b], i);
      ChainNode(nodes, list, chains, b, old_);
    } else {
      forall c | 0 <= c < |chains|
        ensures NULL !in chains[c]
      {
        if NULL in chains[c] {
          ChainNode(nodes, list, chains, c, NULL);
        }
      }
    }
  }

  lemma InsertsCovered(nodes: map<nat, Node>, list: seq<nat>, chains: seq<seq<nat>>, b: nat, i: nat, h: nat, old_: nat,
      nodes': map<nat, Node>)
    requires ChainsOk(nodes, list, chains) && Covered(nodes, chains) && b < |list| && i <= |chains[b]|
    requires old_ == if i < |chains[b]| then chains[b][i] else NULL
    requires nodes'.Keys == nodes.Keys + {h} - {old_} && (h in nodes' ==> nodes'[h].hash % |list| == b)
    requires forall g :: g in nodes' && g != h ==> g in nodes && nodes'[g].hash == nodes[g].hash
    ensures
      var rest: seq<nat> := if i == |chains[b]| then [] else chains[b][i + 1..];
      Covered(nodes', chains[b := chains[b][..i] + ([h] + rest)])
  {
    hide BucketOk;
    if i < |chains[b]| {
      AllButOne(chains[b], i);
    } else {
      assert chains[b][..i] == chains[b];
    }
  }

  lemma InsertsUnique(nodes: map<nat, Node>, h: nat, key: Bytes, hash: nat, old_: nat, nodes': map<nat, Node>)
    requires Unique(nodes) && h !in nodes && h != old_
    requires old_ in nodes ==> Matches(nodes[old_], key, hash)
    requires old_ !in nodes ==> forall g :: g in nodes ==> !Matches(nodes[g], key, hash)
    requires nodes'.Keys == nodes.Keys + {h} - {old_}
    requires forall g :: g in nodes' && g != h ==> nodes'[g].key == nodes[g].key && nodes'[g].hash == nodes[g].hash
    requires Matches(nodes'[h], key, hash)
    ensures Unique(nodes') && EntriesOf(nodes') == (EntriesOf(nodes) - {old_})[h := (key, hash)]
  {
    forall g | g in nodes && g != old_
      ensures !Matches(nodes[g], key, hash)
    {
    }
  }

  lemma EmptyLinked(nodes: map<nat, Node>)
    ensures Linked(nodes, NULL, [])
  {
  }

  lemma NullIsNoNode(nodes: map<nat, Node>, list: seq<nat>, chains: seq<seq<nat>>)
    requires ChainsOk(nodes, list, chains) && Covered(nodes, chains)
    ensures NULL !in nodes
  {
    hide BucketOk;
    if NULL in nodes {
      ChainNode(nodes, list, chains, nodes[NULL].hash % |chains|, NULL);
    }
  }

  lemma NewChain(nodes: map<nat, Node>, list: seq<nat>, chains: seq<seq<nat>>, b: nat, i: nat, h: nat)
    requires ChainsOk(nodes, list, chains) && b < |list| && i <= |chains[b]| && h !in nodes
    ensures
      var rest: seq<nat> := if i == |chains[b]| then [] else chains[b][i + 1..];
      Distinct(chains[b][..i] + ([h] + rest)) && InBucket(nodes, |list|, b, rest) && h !in rest
  {
    var chain := chains[b];
    var rest: seq<nat> := if i == |chain| then [] else chain[i + 1..];
    BucketParts(nodes, list, chains, b, i);
    assert h !in chain;
    hide ChainsOk, Distinct, Linked;
    DistinctParts(chain, i, if i == |chain| then i else i + 1);
    assert i == |chain| ==> chain[..i] + chain[i..] == chain[..i] + rest;
    DistinctWith(chain[..i], h, rest);
  }

  lemma NewNode(nodes: map<nat, Node>, list: seq<nat>, chains: seq<seq<nat>>, b: nat, h: nat, added: map<nat, Node>, rest: seq<nat>)
    requires ChainsOk(nodes, list, chains) && b < |list| && h !in nodes && h != NULL
    requires h in added && added == nodes[h := added[h]] && added[h].hash % |list| == b
    requires Linked(nodes, added[h].next, rest) && InBucket(nodes, |list|, b, rest) && h !in rest
    ensures ChainsOk(added, list, chains) && Linked(added, h, [h] + rest) && InBucket(added, |list|, b, [h] + rest)
  {
    hide BucketOk;
    forall c, g | 0 <= c < |chains| && g in chains[c]
      ensures g in nodes && g != h
    {
      ChainNode(nodes, list, chains, c, g);
    }
    OtherNodes(nodes, added, list, chains);
    LinkedFrame(nodes, added, added[h].next, rest);
    assert ([h] + rest)[1..] == rest;
  }
}
