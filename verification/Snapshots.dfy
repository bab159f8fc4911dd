/** `SnapshotList`: live snapshots in a circular doubly linked list, oldest first. */
module Snapshots {
  import opened CacheLists

  const HEAD: nat := 0

  function Numbers(numbers: map<nat, nat>, list: seq<nat>): (r: seq<nat>)
    requires forall i :: 0 <= i < |list| ==> list[i] in numbers
    ensures |r| == |list| && forall i :: 0 <= i < |list| ==> r[i] == numbers[list[i]]
  {
    seq(|list|, i requires 0 <= i < |list| => numbers[list[i]])
  }

  ghost predicate Ascending(s: seq<nat>) {
    forall i, j :: 0 <= i < j < |s| ==> s[i] <= s[j]
  }

  ghost predicate Known(numbers: map<nat, nat>, list: seq<nat>, bound: nat) {
    forall i :: 0 <= i < |list| ==> list[i] in numbers && HEAD != list[i] < bound
  }

  lemma KnownIs(numbers: map<nat, nat>, list: seq<nat>, bound: nat)
    requires Known(numbers, list, bound)
    ensures forall i :: 0 <= i < |list| ==> list[i] in numbers
  {
  }

  /** What adding a snapshot at the end does to the list and its numbers. */
  lemma Adds(numbers: map<nat, nat>, list: seq<nat>, id: nat, sequence: nat)
    requires Known(numbers, list, id) && NoRepeats(list) && Ascending(Numbers(numbers, list)) && id > HEAD
    requires forall x :: x in Numbers(numbers, list) ==> x <= sequence
    ensures id !in list && HEAD !in list && NoRepeats(list + [id]) && Known(numbers[id := sequence], list + [id], id + 1)
    ensures Numbers(numbers[id := sequence], list + [id]) == Numbers(numbers, list) + [sequence]
    ensures Ascending(Numbers(numbers, list) + [sequence])
  {
    var s := Numbers(numbers, list);
    assert forall i :: 0 <= i < |s| ==> s[i] in s;
  }

  lemma Deletes(numbers: map<nat, nat>, list: seq<nat>, bound: nat, i: nat)
    requires Known(numbers, list, bound) && NoRepeats(list) && Ascending(Numbers(numbers, list)) && i < |list|
    ensures HEAD !in list && NoRepeats(list[..i] + list[i + 1..]) && Known(numbers, list[..i] + list[i + 1..], bound)
    ensures Numbers(numbers, list[..i] + list[i + 1..]) == Numbers(numbers, list)[..i] + Numbers(numbers, list)[i + 1..]
    ensures Ascending(Numbers(numbers, list)[..i] + Numbers(numbers, list)[i + 1..])
    ensures forall j :: 0 <= j < |list| && list[j] == list[i] ==> j == i
  {
  }

  class SnapshotList {
    var next: map<nat, nat>
    var prev: map<nat, nat>
    var sequenceNumber: map<nat, nat>
    var fresh_: nat
    ghost var list: seq<nat>

    /** The links are those of the list, whose sequence numbers never decrease. */
    ghost predicate Valid() reads this {
      && Ring(next, prev, HEAD, list) && NoRepeats(list) && Known(sequenceNumber, list, fresh_) && fresh_ > HEAD
      && Ascending(Numbers(sequenceNumber, list))
    }

    /** The sequence numbers of the live snapshots, in the order they were taken. */
    ghost function Live(): (s: seq<nat>)
      requires Valid()
      reads this
    {
      Numbers(sequenceNumber, list)
    }

    constructor ()
      ensures Valid() && Live() == []
    {
      next, prev, sequenceNumber, fresh_, list := map[HEAD := HEAD], map[HEAD := HEAD], map[], HEAD + 1, [];
    }

    lemma Ends()
      requires Valid()
      ensures HEAD in next && HEAD in prev
      ensures next[HEAD] == (if list == [] then HEAD else list[0])
      ensures prev[HEAD] == (if list == [] then HEAD else list[|list| - 1])
    {
      HeadOf(next, prev, HEAD, list);
    }

    method Empty() returns (r: bool)
      requires Valid()
      ensures r <==> Live() == []
    {
      Ends();
      r := next[HEAD] == HEAD;
    }

    /** The oldest snapshot has the smallest sequence number of all. */
    method Oldest() returns (s: nat)
      requires Valid() && Live() != []
      ensures s == Live()[0] && forall x :: x in Live() ==> s <= x
    {
      Ends();
      s := sequenceNumber[next[HEAD]];
    }

    method Newest() returns (s: nat)
      requires Valid() && Live() != []
      ensures s == Live()[|Live()| - 1] && forall x :: x in Live() ==> x <= s
    {
      Ends();
      s := sequenceNumber[prev[HEAD]];
    }

    /** A new snapshot goes to the end. */
    method New(sequence: nat) returns (snapshot: nat)
      requires Valid() && forall x :: x in Live() ==> x <= sequence
      modifies this
      ensures Valid() && list == old(list) + [snapshot] && snapshot !in old(list)
      ensures Live() == old(Live()) + [sequence]
    {
      hide Ring, Known, NoRepeats, Ascending;
      KnownIs(sequenceNumber, list, fresh_);
      assert Live() == Numbers(sequenceNumber, list);
      snapshot := fresh_;
      Adds(sequenceNumber, list, snapshot, sequence);
      Ends();
      AppendRing(next, prev, HEAD, list, snapshot);
      var last := prev[HEAD];
      fresh_ := fresh_ + 1;
      sequenceNumber := sequenceNumber[snapshot := sequence];
      next := next[snapshot := HEAD][last := snapshot];
      prev := prev[snapshot := last][HEAD := snapshot];
      list := list + [snapshot];
    }

    /** A released snapshot leaves the list; the others stay in order. */
    method Delete(snapshot: nat)
      requires Valid() && snapshot in list
      modifies this
      ensures Valid()
      ensures forall i :: 0 <= i < |old(list)| && old(list)[i] == snapshot ==>
        list == old(list)[..i] + old(list)[i + 1..] && Live() == old(Live())[..i] + old(Live())[i + 1..]
    {
      hide Ring, Known, NoRepeats, Ascending;
      ghost var i: nat :| i < |list| && list[i] == snapshot;
      Deletes(sequenceNumber, list, fresh_, i);
      RemoveRing(next, prev, HEAD, list, i);
      var p, n := prev[snapshot], next[snapshot];
      next := next[p := n];
      prev := prev[n := p];
      list := list[..i] + list[i + 1..];
    }
  }
}
