/** `MemTable::Add`: insertion into the sorted list that the skip list represents. */
module MemTable {
  import opened Keys
  import opened DropRule
  import opened InternalIter
  import opened OutputTables

  /** `MemTable::Add` on the sorted list that the skip list represents. */
  function MemInsert(es: seq<Entry>, e: Entry): seq<Entry> {
    var p := SeekIndex(es, e.ikey);
    es[..p] + ([e] + es[p..])
  }

  lemma InsertionPoint(es: seq<Entry>, e: Entry, p: nat)
    requires Sorted(es) && p == SeekIndex(es, e.ikey) && forall x :: x in es ==> x.ikey != e.ikey
    ensures forall x :: x in es[..p] ==> Less(x.ikey, e.ikey)
    ensures forall x :: x in es[p..] ==> Less(e.ikey, x.ikey)
  {
    SeekIndexSplits(es, e.ikey);
    forall x | x in es[p..]
      ensures Less(e.ikey, x.ikey)
    {
      var i :| p <= i < |es| && es[i] == x;
      assert x in es;
    }
  }

  lemma MemInsertKeepsSorted(es: seq<Entry>, e: Entry)
    requires Sorted(es) && forall x :: x in es ==> x.ikey != e.ikey
    ensures Sorted(MemInsert(es, e))
    ensures SetOf(MemInsert(es, e)) == SetOf(es) + {e}
  {
    var p := SeekIndex(es, e.ikey);
    InsertionPoint(es, e, p);
    SortedHalves(es, p);
    SetOfInsert(es, e, p);
    OneSorted(e);
    hide Less, SeekIndex, Sorted, SetOf;
    SortedJoin([e], es[p..]);
    SortedJoin(es[..p], [e] + es[p..]);
  }

  lemma SortedHalves(es: seq<Entry>, p: nat)
    requires Sorted(es) && p <= |es|
    ensures Sorted(es[..p]) && Sorted(es[p..])
    ensures forall x, y :: x in es[..p] && y in es[p..] ==> Less(x.ikey, y.ikey)
  {
    hide Less;
    assert es == es[..p] + es[p..];
    SortedParts(es[..p], es[p..]);
  }

  lemma SetOfInsert(es: seq<Entry>, e: Entry, p: nat)
    requires p <= |es|
    ensures SetOf(es[..p] + ([e] + es[p..])) == SetOf(es) + {e}
  {
    assert es == es[..p] + es[p..];
    forall x
      ensures x in es[..p] + ([e] + es[p..]) <==> x in es || x == e
    {
      assert x in es <==> x in es[..p] || x in es[p..];
    }
  }

  lemma OneSorted(e: Entry)
    ensures Sorted([e])
  {
  }
}
