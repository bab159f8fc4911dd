/** The cache's circular doubly linked lists: unlinking a handle and linking one in before the head. */
module CacheLists {

  /** The list between two occurrences of its dummy head. */
  function Cycle(head: nat, list: seq<nat>): seq<nat> { [head] + list + [head] }

  /** Two neighbours in the cycle link to each other. */
  ghost predicate Joined(next: map<nat, nat>, prev: map<nat, nat>, head: nat, list: seq<nat>, i: nat)
    requires i <= |list|
  {
    var a, b := Cycle(head, list)[i], Cycle(head, list)[i + 1];
    a in next && next[a] == b && b in prev && prev[b] == a
  }

  ghost predicate Ring(next: map<nat, nat>, prev: map<nat, nat>, head: nat, list: seq<nat>) {
    forall i :: 0 <= i <= |list| ==> Joined(next, prev, head, list, i)
  }

  ghost predicate NoRepeats(list: seq<nat>) {
    forall i, j :: 0 <= i < j < |list| ==> list[i] != list[j]
  }

  function Members(list: seq<nat>): set<nat> { set h | h in list }

  function Without(list: seq<nat>, e: nat): (r: seq<nat>)
    ensures e !in list ==> r == list
    ensures forall x :: x in r <==> x in list && x != e
  {
    if list == [] then []
    else if list[0] == e then Without(list[1..], e)
    else [list[0]] + Without(list[1..], e)
  }

  lemma {:induction false} WithoutIs(list: seq<nat>, i: nat)
    requires NoRepeats(list) && i < |list|
    ensures Without(list, list[i]) == list[..i] + list[i + 1..]
  {
    if i == 0 {
      assert list[0] !in list[1..];
      assert Without(list[1..], list[0]) == list[1..];
    } else {
      WithoutIs(list[1..], i - 1);
      assert list[1..][..i - 1] == list[1..i] && list[1..][i..] == list[i + 1..];
    }
  }

  /** The fields of a handle in a ring name its neighbours. */
  lemma Neighbours(next: map<nat, nat>, prev: map<nat, nat>, head: nat, list: seq<nat>, i: nat)
    requires Ring(next, prev, head, list) && i < |list|
    ensures list[i] in next && list[i] in prev
    ensures prev[list[i]] == Cycle(head, list)[i] && next[list[i]] == Cycle(head, list)[i + 2]
  {
    assert Joined(next, prev, head, list, i) && Joined(next, prev, head, list, i + 1);
    assert Cycle(head, list)[i + 1] == list[i];
  }

  lemma HeadOf(next: map<nat, nat>, prev: map<nat, nat>, head: nat, list: seq<nat>)
    requires Ring(next, prev, head, list)
    ensures head in next && head in prev
    ensures next[head] == (if list == [] then head else list[0])
    ensures prev[head] == (if list == [] then head else list[|list| - 1])
  {
    assert Joined(next, prev, head, list, 0) && Joined(next, prev, head, list, |list|);
    assert Cycle(head, list)[0] == head && Cycle(head, list)[|list| + 1] == head;
    assert Cycle(head, list)[1] == if list == [] then head else list[0];
    assert Cycle(head, list)[|list|] == if list == [] then head else list[|list| - 1];
  }

  /** `LRU_Remove`: the neighbours of a handle link to each other. */
  lemma RemoveRing(next: map<nat, nat>, prev: map<nat, nat>, head: nat, list: seq<nat>, i: nat)
    requires Ring(next, prev, head, list) && i < |list| && NoRepeats(list) && head !in list
    ensures list[i] in next && list[i] in prev
    ensures
      var e := list[i];
      Ring(next[prev[e] := next[e]], prev[next[e] := prev[e]], head, list[..i] + list[i + 1..])
  {
    Neighbours(next, prev, head, list, i);
    var e, c := list[i], Cycle(head, list);
    var list' := list[..i] + list[i + 1..];
    var next', prev' := next[prev[e] := next[e]], prev[next[e] := prev[e]];
    forall k | 0 <= k <= |list'|
      ensures Joined(next', prev', head, list', k)
    {
      assert k < |list| ==> Joined(next, prev, head, list, if k <= i then k else k + 1);
      var p, q := if k <= i then k else k + 1, if k < i then k + 1 else k + 2;
      assert Cycle(head, list')[k] == c[p] && Cycle(head, list')[k + 1] == c[q];
      PlacesDiffer(head, list, p, i);
      PlacesDiffer(head, list, q - 1, i + 1);
    }
  }

  /** Up to the last, resp. after the first, all places of a cycle hold different handles. */
  lemma PlacesDiffer(head: nat, list: seq<nat>, i: nat, j: nat)
    requires NoRepeats(list) && head !in list && i <= |list| && j <= |list|
    ensures i != j ==> Cycle(head, list)[i] != Cycle(head, list)[j]
    ensures i != j ==> Cycle(head, list)[i + 1] != Cycle(head, list)[j + 1]
  {
  }

  /** `LRU_Append`: a handle is linked in just before the head. */
  lemma AppendRing(next: map<nat, nat>, prev: map<nat, nat>, head: nat, list: seq<nat>, e: nat)
    requires Ring(next, prev, head, list) && NoRepeats(list) && head !in list && e !in list && e != head
    ensures head in prev && prev[head] != e
    ensures Ring(next[e := head][prev[head] := e], prev[e := prev[head]][head := e], head, list + [e])
  {
    HeadOf(next, prev, head, list);
    var c, list' := Cycle(head, list), list + [e];
    var last := prev[head];
    assert c[|list|] == last;
    var next', prev' := next[e := head][last := e], prev[e := last][head := e];
    forall k | 0 <= k <= |list'|
      ensures Joined(next', prev', head, list', k)
    {
      assert Joined(next, prev, head, list, if k <= |list| then k else |list|);
      assert Cycle(head, list')[k] == if k <= |list| then c[k] else e;
      assert Cycle(head, list')[k + 1] == if k < |list| then c[k + 1] else if k == |list| then e else head;
      PlacesDiffer(head, list, if k <= |list| then k else 0, |list|);
    }
  }

  /** Links of handles outside a ring do not matter to it. */
  lemma OtherRing(next: map<nat, nat>, prev: map<nat, nat>, next': map<nat, nat>, prev': map<nat, nat>, head: nat, list: seq<nat>)
    requires Ring(next, prev, head, list)
    requires forall x :: x == head || x in list ==> (x in next ==> x in next' && next'[x] == next[x])
    requires forall x :: x == head || x in list ==> (x in prev ==> x in prev' && prev'[x] == prev[x])
    ensures Ring(next', prev', head, list)
  {
    forall k | 0 <= k <= |list|
      ensures Joined(next', prev', head, list, k)
    {
      assert Joined(next, prev, head, list, k);
      assert Cycle(head, list)[k] == if k == 0 then head else list[k - 1];
      assert Cycle(head, list)[k + 1] == if k == |list| then head else list[k];
    }
  }
}
