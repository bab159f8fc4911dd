/** `MergingIterator`: several sorted children read as one sorted sequence, in both directions. */
module Merger {
  import opened Keys

  // ---------------------------------------------------------------- the merged sequence

  function MergeTwo(a: seq<Entry>, b: seq<Entry>): seq<Entry> {
    if a == [] then b
    else if b == [] then a
    else if Less(b[0].ikey, a[0].ikey) then [b[0]] + MergeTwo(a, b[1..])
    else [a[0]] + MergeTwo(a[1..], b)
  }

  function Merge(lists: seq<seq<Entry>>): seq<Entry> {
    if lists == [] then [] else MergeTwo(lists[0], Merge(lists[1..]))
  }

  ghost predicate AllSorted(lists: seq<seq<Entry>>) {
    forall i :: 0 <= i < |lists| ==> Sorted(lists[i])
  }

  /** No key occurs in two children. */
  ghost predicate NoSharedKeys(lists: seq<seq<Entry>>) {
    forall i, j, x, y :: 0 <= i < j < |lists| && x in lists[i] && y in lists[j] ==> x.ikey != y.ikey
  }

  lemma {:induction false} MergeTwoSorted(a: seq<Entry>, b: seq<Entry>)
    requires Sorted(a) && Sorted(b) && forall x, y :: x in a && y in b ==> x.ikey != y.ikey
    ensures Sorted(MergeTwo(a, b))
    ensures forall e :: e in MergeTwo(a, b) <==> e in a || e in b
  {
    if a == [] || b == [] {
    } else if Less(b[0].ikey, a[0].ikey) {
      MergeTwoSorted(a, b[1..]);
      HeadFirst(b[0], MergeTwo(a, b[1..]), a, b[1..]);
    } else {
      assert a[0] in a && b[0] in b;
      MergeTwoSorted(a[1..], b);
      HeadFirst(a[0], MergeTwo(a[1..], b), a[1..], b);
    }
  }

  lemma HeadFirst(e: Entry, m: seq<Entry>, a: seq<Entry>, b: seq<Entry>)
    requires Sorted(m) && forall x :: x in m <==> x in a || x in b
    requires forall x :: x in a || x in b ==> Less(e.ikey, x.ikey)
    ensures Sorted([e] + m)
  {
  }

  lemma {:induction false} MergeSorted(lists: seq<seq<Entry>>)
    requires AllSorted(lists) && NoSharedKeys(lists)
    ensures Sorted(Merge(lists))
    ensures forall e :: e in Merge(lists) <==> exists i :: 0 <= i < |lists| && e in lists[i]
  {
    if lists != [] {
      var rest := lists[1..];
      assert forall i :: 0 <= i < |rest| ==> rest[i] == lists[i + 1];
      MergeSorted(rest);
      forall x, y | x in lists[0] && y in Merge(rest)
        ensures x.ikey != y.ikey
      {
        var i :| 0 <= i < |rest| && y in rest[i];
        assert y in lists[i + 1];
      }
      MergeTwoSorted(lists[0], Merge(rest));
      forall e
        ensures e in Merge(lists) <==> exists i :: 0 <= i < |lists| && e in lists[i]
      {
        if e in Merge(rest) {
          var i :| 0 <= i < |rest| && e in rest[i];
          assert e in lists[i + 1];
        }
        if i :| 0 <= i < |lists| && e in lists[i] && e !in lists[0] {
          assert e in rest[i - 1];
        }
      }
    }
  }

  // ---------------------------------------------------------------- cuts

  /** `e` comes before position `q` of the merged sequence. */
  ghost predicate Low(merged: seq<Entry>, q: nat, e: Entry)
    requires q <= |merged|
  {
    q == |merged| || Less(e.ikey, merged[q].ikey)
  }

  /** `b` cuts every child where `q` cuts the merged sequence. */
  ghost predicate Cut(lists: seq<seq<Entry>>, merged: seq<Entry>, b: seq<nat>, q: nat) {
    && |b| == |lists| && q <= |merged|
    && (forall i :: 0 <= i < |lists| ==> b[i] <= |lists[i]|)
    && forall i, j :: 0 <= i < |lists| && 0 <= j < |lists[i]| ==> (Low(merged, q, lists[i][j]) <==> j < b[i])
  }

  /** `merged` is the sorted union of the children. */
  ghost predicate IsMerge(lists: seq<seq<Entry>>, merged: seq<Entry>) {
    && AllSorted(lists) && NoSharedKeys(lists) && Sorted(merged)
    && forall e :: e in merged <==> exists i :: 0 <= i < |lists| && e in lists[i]
  }

  /** Entry `q` of the merged sequence is the head of one child, and every other head comes later. */
  lemma HeadAtCut(lists: seq<seq<Entry>>, merged: seq<Entry>, b: seq<nat>, q: nat) returns (c: nat)
    requires IsMerge(lists, merged) && Cut(lists, merged, b, q) && q < |merged|
    ensures c < |lists| && b[c] < |lists[c]| && lists[c][b[c]] == merged[q]
    ensures forall i :: 0 <= i < |lists| && i != c && b[i] < |lists[i]| ==> Less(merged[q].ikey, lists[i][b[i]].ikey)
  {
    var e := merged[q];
    assert e in merged;
    c :| 0 <= c < |lists| && e in lists[c];
    var j :| 0 <= j < |lists[c]| && lists[c][j] == e;
    assert !Low(merged, q, e);
    assert Sorted(lists[c]);
    assert !Low(merged, q, lists[c][b[c]]);
    forall i | 0 <= i < |lists| && i != c && b[i] < |lists[i]|
      ensures Less(e.ikey, lists[i][b[i]].ikey)
    {
      var x := lists[i][b[i]];
      assert !Low(merged, q, x);
      assert x.ikey != e.ikey;
    }
  }

  /** At the end of the merged sequence no child has a head. */
  lemma NoHeadAtEnd(lists: seq<seq<Entry>>, merged: seq<Entry>, b: seq<nat>)
    requires Cut(lists, merged, b, |merged|)
    ensures forall i :: 0 <= i < |lists| ==> b[i] == |lists[i]|
  {
    forall i | 0 <= i < |lists| && b[i] < |lists[i]|
      ensures false
    {
      assert Low(merged, |merged|, lists[i][b[i]]);
    }
  }

  lemma CutAdvances(lists: seq<seq<Entry>>, merged: seq<Entry>, b: seq<nat>, q: nat, c: nat)
    requires IsMerge(lists, merged) && Cut(lists, merged, b, q) && q < |merged|
    requires c < |lists| && b[c] < |lists[c]| && lists[c][b[c]] == merged[q]
    ensures Cut(lists, merged, b[c := b[c] + 1], q + 1)
  {
    forall i, j | 0 <= i < |lists| && 0 <= j < |lists[i]|
      ensures Low(merged, q + 1, lists[i][j]) <==> Low(merged, q, lists[i][j]) || (i == c && j == b[c])
    {
      var k := InMerged(lists, merged, i, j);
      if k == q {
        SameSpot(lists, i, j, c, b[c]);
      }
    }
  }

  lemma SameSpot(lists: seq<seq<Entry>>, i: nat, j: nat, c: nat, k: nat)
    requires AllSorted(lists) && NoSharedKeys(lists)
    requires i < |lists| && j < |lists[i]| && c < |lists| && k < |lists[c]| && lists[i][j] == lists[c][k]
    ensures i == c && j == k
  {
    assert lists[i][j] in lists[i] && lists[c][k] in lists[c];
    assert Sorted(lists[i]);
  }

  lemma SeekSplits(es: seq<Entry>, target: IKey, j: nat)
    requires Sorted(es) && j < |es|
    ensures j < SeekIndex(es, target) <==> Less(es[j].ikey, target)
  {
    SeekIndexSplits(es, target);
  }

  lemma SeekLow(merged: seq<Entry>, target: IKey, e: Entry)
    requires Sorted(merged) && e in merged
    ensures Low(merged, SeekIndex(merged, target), e) <==> Less(e.ikey, target)
  {
    var q := SeekIndex(merged, target);
    var k :| 0 <= k < |merged| && merged[k] == e;
    SeekSplits(merged, target, k);
  }

  lemma SeekCuts(lists: seq<seq<Entry>>, merged: seq<Entry>, b: seq<nat>, target: IKey)
    requires IsMerge(lists, merged) && |b| == |lists|
    requires forall i :: 0 <= i < |lists| ==> b[i] == SeekIndex(lists[i], target)
    ensures Cut(lists, merged, b, SeekIndex(merged, target))
  {
    hide Low, Sorted, Less;
    forall i, j | 0 <= i < |lists| && 0 <= j < |lists[i]|
      ensures Low(merged, SeekIndex(merged, target), lists[i][j]) <==> j < b[i]
    {
      assert lists[i][j] in lists[i];
      SeekSplits(lists[i], target, j);
      SeekLow(merged, target, lists[i][j]);
    }
  }

  /** The mirror image of `HeadAtCut`: the entry just before the cut ends one child's lower part. */
  lemma TailAtCut(lists: seq<seq<Entry>>, merged: seq<Entry>, b: seq<nat>, q: nat) returns (c: nat)
    requires IsMerge(lists, merged) && Cut(lists, merged, b, q) && q > 0
    ensures c < |lists| && b[c] > 0 && lists[c][b[c] - 1] == merged[q - 1]
    ensures forall i :: 0 <= i < |lists| && i != c && b[i] > 0 ==> Less(lists[i][b[i] - 1].ikey, merged[q - 1].ikey)
  {
    var e := merged[q - 1];
    assert e in merged;
    c :| 0 <= c < |lists| && e in lists[c];
    var j :| 0 <= j < |lists[c]| && lists[c][j] == e;
    hide Low;
    LowJustBefore(merged, q);
    LowIsBefore(lists, merged, q, c, b[c] - 1);
    forall i | 0 <= i < |lists| && i != c && b[i] > 0
      ensures Less(lists[i][b[i] - 1].ikey, e.ikey)
    {
      LowIsBefore(lists, merged, q, i, b[i] - 1);
      assert lists[i][b[i] - 1] in lists[i];
    }
  }

  lemma LowJustBefore(merged: seq<Entry>, q: nat)
    requires Sorted(merged) && 0 < q <= |merged|
    ensures Low(merged, q, merged[q - 1])
  {
  }

  lemma LowIsBefore(lists: seq<seq<Entry>>, merged: seq<Entry>, q: nat, i: nat, j: nat)
    requires IsMerge(lists, merged) && 0 < q <= |merged| && i < |lists| && j < |lists[i]|
    requires Low(merged, q, lists[i][j])
    ensures AtMost(lists[i][j].ikey, merged[q - 1].ikey)
  {
    var e := lists[i][j];
    var k := InMerged(lists, merged, i, j);
  }

  lemma InMerged(lists: seq<seq<Entry>>, merged: seq<Entry>, i: nat, j: nat) returns (k: nat)
    requires IsMerge(lists, merged) && i < |lists| && j < |lists[i]|
    ensures k < |merged| && merged[k] == lists[i][j]
  {
    assert lists[i][j] in lists[i];
    assert lists[i][j] in merged;
    k :| 0 <= k < |merged| && merged[k] == lists[i][j];
  }

  lemma NothingBeforeStart(lists: seq<seq<Entry>>, merged: seq<Entry>, i: nat, j: nat)
    requires IsMerge(lists, merged) && i < |lists| && j < |lists[i]|
    ensures !Low(merged, 0, lists[i][j])
  {
    var k := InMerged(lists, merged, i, j);
  }

  lemma NoTailAtStart(lists: seq<seq<Entry>>, merged: seq<Entry>, b: seq<nat>)
    requires IsMerge(lists, merged) && Cut(lists, merged, b, 0)
    ensures forall i :: 0 <= i < |lists| ==> b[i] == 0
  {
    forall i | 0 <= i < |lists|
      ensures b[i] == 0
    {
      if lists[i] != [] {
        NothingBeforeStart(lists, merged, i, 0);
      }
    }
  }

  lemma CutRetreats(lists: seq<seq<Entry>>, merged: seq<Entry>, b: seq<nat>, q: nat, c: nat)
    requires IsMerge(lists, merged) && Cut(lists, merged, b, q) && q > 0
    requires c < |lists| && b[c] > 0 && lists[c][b[c] - 1] == merged[q - 1]
    ensures Cut(lists, merged, b[c := b[c] - 1], q - 1)
  {
    forall i, j | 0 <= i < |lists| && 0 <= j < |lists[i]|
      ensures Low(merged, q - 1, lists[i][j]) <==> Low(merged, q, lists[i][j]) && !(i == c && j == b[c] - 1)
    {
      var k := InMerged(lists, merged, i, j);
      if k == q - 1 {
        SameSpot(lists, i, j, c, b[c] - 1);
      }
    }
  }

  lemma WholeCut(lists: seq<seq<Entry>>, merged: seq<Entry>)
    requires IsMerge(lists, merged)
    ensures Cut(lists, merged, seq(|lists|, _ => 0), 0)
    ensures Cut(lists, merged, seq(|lists|, i requires 0 <= i < |lists| => |lists[i]|), |merged|)
  {
    forall i, j | 0 <= i < |lists| && 0 <= j < |lists[i]|
      ensures !Low(merged, 0, lists[i][j])
    {
      NothingBeforeStart(lists, merged, i, j);
    }
  }

  // ---------------------------------------------------------------- the iterator

  /** Where a child stands when it is at the last entry before its cut; its length means invalid. */
  function Back(b: nat, length: nat): nat { if b == 0 then length else b - 1 }

  class MergingIterator {
    const lists: seq<seq<Entry>>      // the children; each is read through a cursor
    const pos: array<nat>             // the cursors; the length of the child means not valid
    var current: Option<nat>
    var forward: bool
    ghost var at: nat                 // position in the merged sequence; its length means not valid
    ghost var cut: seq<nat>           // where `at` cuts each child

    ghost predicate Valid()
      reads this, pos
    {
      var merged := Merge(lists);
      && IsMerge(lists, merged)
      && pos.Length == |lists| && at <= |merged|
      && (current == None <==> at == |merged|)
      && (current.Some? ==>
            var c := current.value;
            && Cut(lists, merged, cut, at)
            && c < |lists| && cut[c] < |lists[c]| && lists[c][cut[c]] == merged[at]
            && pos[c] == cut[c]
            && forall i :: 0 <= i < |lists| && i != c ==>
                 pos[i] == if forward then cut[i] else Back(cut[i], |lists[i]|))
    }

    constructor (lists: seq<seq<Entry>>)
      requires AllSorted(lists) && NoSharedKeys(lists)
      ensures this.lists == lists && Valid() && fresh(pos) && current == None
    {
      this.lists := lists;
      pos := new nat[|lists|](i requires 0 <= i < |lists| => |lists[i]|);
      current, forward := None, true;
      at, cut := |Merge(lists)|, [];
      new;
      MergeSorted(lists);
    }

    /** The entry under the iterator, if it is valid. */
    function Entry(): (r: Option<Entry>)
      requires Valid()
      reads this, pos
      ensures r == if at < |Merge(lists)| then Some(Merge(lists)[at]) else None
    {
      if current == None then None else Some(lists[current.value][pos[current.value]])
    }

    method FindSmallest(ghost q: nat)
      requires pos.Length == |lists| && IsMerge(lists, Merge(lists)) && Cut(lists, Merge(lists), pos[..], q)
      modifies this`current, this`at, this`cut
      ensures at == q && cut == pos[..]
      ensures current == None <==> q == |Merge(lists)|
      ensures current.Some? ==>
        current.value < |lists| && pos[current.value] < |lists[current.value]|
        && lists[current.value][pos[current.value]] == Merge(lists)[q]
    {
      hide IsMerge, Cut, Merge;
      var smallest: Option<nat> := None;
      CutBounds(lists, Merge(lists), pos[..], q);
      for i := 0 to |lists|
        invariant smallest.Some? ==> smallest.value < i && pos[smallest.value] < |lists[smallest.value]|
        invariant smallest == None ==> forall k :: 0 <= k < i ==> pos[k] == |lists[k]|
        invariant smallest.Some? ==> forall k :: 0 <= k < i && pos[k] < |lists[k]| ==>
          !Less(lists[k][pos[k]].ikey, lists[smallest.value][pos[smallest.value]].ikey)
      {
        if pos[i] < |lists[i]| {
          if smallest == None {
            smallest := Some(i);
          } else if Less(lists[i][pos[i]].ikey, lists[smallest.value][pos[smallest.value]].ikey) {
            smallest := Some(i);
          }
        }
      }
      current, at, cut := smallest, q, pos[..];
      if q < |Merge(lists)| {
        var c := HeadAtCut(lists, Merge(lists), pos[..], q);
      } else {
        NoHeadAtEnd(lists, Merge(lists), pos[..]);
      }
    }

    method FindLargest(ghost b: seq<nat>, ghost q: nat)
      requires pos.Length == |lists| && IsMerge(lists, Merge(lists)) && Cut(lists, Merge(lists), b, q)
      requires forall i :: 0 <= i < |lists| ==> pos[i] == Back(b[i], |lists[i]|)
      modifies this`current, this`at, this`cut
      ensures current == None <==> q == 0
      ensures at == if q == 0 then |Merge(lists)| else q - 1
      ensures current.Some? ==>
        var c := current.value;
        && c < |lists| && b[c] > 0 && lists[c][b[c] - 1] == Merge(lists)[q - 1]
        && cut == b[c := b[c] - 1]
    {
      hide IsMerge, Cut, Merge;
      CutBounds(lists, Merge(lists), b, q);
      var largest: Option<nat> := None;
      var i := |lists|;
      while i > 0
        invariant 0 <= i <= |lists|
        invariant largest.Some? ==> i <= largest.value < |lists| && b[largest.value] > 0
        invariant largest == None ==> forall k :: i <= k < |lists| ==> b[k] == 0
        invariant largest.Some? ==> forall k :: i <= k < |lists| && b[k] > 0 ==>
          !Less(lists[largest.value][b[largest.value] - 1].ikey, lists[k][b[k] - 1].ikey)
      {
        i := i - 1;
        if pos[i] < |lists[i]| {
          if largest == None {
            largest := Some(i);
          } else if Less(lists[largest.value][pos[largest.value]].ikey, lists[i][pos[i]].ikey) {
            largest := Some(i);
          }
        }
      }
      current := largest;
      if q > 0 {
        var c := TailAtCut(lists, Merge(lists), b, q);
        at, cut := q - 1, b[largest.value := b[largest.value] - 1];
      } else {
        NoTailAtStart(lists, Merge(lists), b);
        at := |Merge(lists)|;
      }
    }

    // One child's cursor moves; the others stay.

    method ChildSeekToFirst(i: nat)
      requires i < |lists| == pos.Length
      modifies pos
      ensures pos[i] == 0 && forall k :: 0 <= k < |lists| && k != i ==> pos[k] == old(pos[k])
    {
      pos[i] := 0;
    }

    method ChildSeekToLast(i: nat)
      requires i < |lists| == pos.Length
      modifies pos
      ensures pos[i] == Back(|lists[i]|, |lists[i]|)
      ensures forall k :: 0 <= k < |lists| && k != i ==> pos[k] == old(pos[k])
    {
      pos[i] := if lists[i] == [] then 0 else |lists[i]| - 1;
    }

    method ChildSeek(i: nat, target: IKey)
      requires i < |lists| == pos.Length
      modifies pos
      ensures pos[i] == SeekIndex(lists[i], target)
      ensures forall k :: 0 <= k < |lists| && k != i ==> pos[k] == old(pos[k])
    {
      pos[i] := SeekIndex(lists[i], target);
    }

    /** Seek, then step over an entry that compares equal. */
    method ChildSeekAfter(i: nat, key: IKey)
      requires i < |lists| == pos.Length
      modifies pos
      ensures
        var p := SeekIndex(lists[i], key);
        pos[i] == if p < |lists[i]| && lists[i][p].ikey == key then p + 1 else p
      ensures forall k :: 0 <= k < |lists| && k != i ==> pos[k] == old(pos[k])
    {
      ChildSeek(i, key);
      if pos[i] < |lists[i]| && lists[i][pos[i]].ikey == key {
        pos[i] := pos[i] + 1;
      }
    }

    /** Seek, then step back, or to the last entry if nothing is at or after the key. */
    method ChildSeekBefore(i: nat, key: IKey)
      requires i < |lists| == pos.Length
      modifies pos
      ensures pos[i] == Back(SeekIndex(lists[i], key), |lists[i]|)
      ensures forall k :: 0 <= k < |lists| && k != i ==> pos[k] == old(pos[k])
    {
      ChildSeek(i, key);
      if pos[i] < |lists[i]| {
        pos[i] := if pos[i] == 0 then |lists[i]| else pos[i] - 1;
      } else {
        ChildSeekToLast(i);
      }
    }

    method SeekToFirst()
      requires Valid()
      modifies this, pos
      ensures Valid() && at == 0
    {
      hide IsMerge, Cut, Merge;
      for i := 0 to |lists|
        invariant forall k :: 0 <= k < i ==> pos[k] == 0
      {
        ChildSeekToFirst(i);
      }
      WholeCut(lists, Merge(lists));
      assert pos[..] == seq(|lists|, _ => 0);
      FindSmallest(0);
      forward := true;
    }

    method SeekToLast()
      requires Valid()
      modifies this, pos
      ensures Valid() && at == if Merge(lists) == [] then 0 else |Merge(lists)| - 1
    {
      hide IsMerge, Cut, Merge;
      for i := 0 to |lists|
        invariant forall k :: 0 <= k < i ==> pos[k] == Back(|lists[k]|, |lists[k]|)
      {
        ChildSeekToLast(i);
      }
      WholeCut(lists, Merge(lists));
      ghost var b := seq(|lists|, i requires 0 <= i < |lists| => |lists[i]|);
      FindLargest(b, |Merge(lists)|);
      forward := false;
      if current.Some? {
        CutRetreats(lists, Merge(lists), b, |Merge(lists)|, current.value);
      }
    }

    /** Position at the first entry of the merged sequence at or after `target`. */
    method Seek(target: IKey)
      requires Valid()
      modifies this, pos
      ensures Valid() && at == SeekIndex(Merge(lists), target)
    {
      hide IsMerge, Cut, Merge, SeekIndex;
      for i := 0 to |lists|
        invariant forall k :: 0 <= k < i ==> pos[k] == SeekIndex(lists[k], target)
      {
        ChildSeek(i, target);
      }
      SeekCuts(lists, Merge(lists), pos[..], target);
      FindSmallest(SeekIndex(Merge(lists), target));
      forward := true;
    }

    /** Bring every child to the first entry after the current one, coming from the other direction. */
    method TurnForward()
      requires Valid() && current.Some? && !forward
      modifies pos, this`forward
      ensures Valid() && forward
    {
      hide IsMerge, Cut, Merge, SeekIndex;
      var c := current.value;
      var key := lists[c][pos[c]].ikey;
      CutBounds(lists, Merge(lists), cut, at);
      for i := 0 to |lists|
        invariant pos[c] == cut[c]
        invariant forall k :: 0 <= k < i ==> pos[k] == cut[k]
      {
        if i != c {
          SeekFindsCut(lists, Merge(lists), cut, at, i, c);
          ChildSeekAfter(i, key);
        }
      }
      forward := true;
    }

    /** Bring every other child to the last entry before the current one. */
    method TurnBackward()
      requires Valid() && current.Some? && forward
      modifies pos, this`forward
      ensures Valid() && !forward
    {
      hide IsMerge, Cut, Merge, SeekIndex;
      var c := current.value;
      var key := lists[c][pos[c]].ikey;
      CutBounds(lists, Merge(lists), cut, at);
      for i := 0 to |lists|
        invariant pos[c] == cut[c]
        invariant forall k :: 0 <= k < i && k != c ==> pos[k] == Back(cut[k], |lists[k]|)
      {
        if i != c {
          SeekFindsCut(lists, Merge(lists), cut, at, i, c);
          ChildSeekBefore(i, key);
        }
      }
      forward := false;
    }

    method Next()
      requires Valid() && current.Some?
      modifies this, pos
      ensures Valid() && at == old(at) + 1
    {
      hide IsMerge, Cut, Merge;
      if !forward {
        TurnForward();
      }
      var c := current.value;
      CutBounds(lists, Merge(lists), cut, at);
      CutAdvances(lists, Merge(lists), cut, at, c);
      assert pos[..] == cut;
      pos[c] := pos[c] + 1;
      assert pos[..] == cut[c := cut[c] + 1];
      FindSmallest(at + 1);
    }

    method Prev()
      requires Valid() && current.Some?
      modifies this, pos
      ensures Valid() && at == if old(at) == 0 then |Merge(lists)| else old(at) - 1
    {
      hide IsMerge, Cut, Merge;
      if forward {
        TurnBackward();
      }
      var c := current.value;
      ghost var b, q := cut, at;
      CutBounds(lists, Merge(lists), b, q);
      pos[c] := if pos[c] == 0 then |lists[c]| else pos[c] - 1;
      FindLargest(b, q);
      if current.Some? {
        CutRetreats(lists, Merge(lists), b, q, current.value);
      }
    }
  }

  lemma SeekFindsCut(lists: seq<seq<Entry>>, merged: seq<Entry>, b: seq<nat>, q: nat, i: nat, c: nat)
    requires IsMerge(lists, merged) && Cut(lists, merged, b, q) && q < |merged| && i < |lists|
    requires i != c && c < |lists| && merged[q] in lists[c]
    ensures |b| == |lists| && b[i] <= |lists[i]|
    ensures SeekIndex(lists[i], merged[q].ikey) == b[i]
    ensures b[i] < |lists[i]| ==> lists[i][b[i]].ikey != merged[q].ikey
  {
    var p := SeekIndex(lists[i], merged[q].ikey);
    if p < |lists[i]| {
      assert Low(merged, q, lists[i][p]) <==> p < b[i];
    }
    if b[i] < |lists[i]| {
      assert Low(merged, q, lists[i][b[i]]) <==> b[i] < b[i];
      SeekSplits(lists[i], merged[q].ikey, b[i]);
      assert lists[i][b[i]] in lists[i];
    }
  }

  lemma CutBounds(lists: seq<seq<Entry>>, merged: seq<Entry>, b: seq<nat>, q: nat)
    requires Cut(lists, merged, b, q)
    ensures |b| == |lists| && q <= |merged| && forall i :: 0 <= i < |lists| ==> b[i] <= |lists[i]|
  {
  }
}
