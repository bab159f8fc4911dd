/** `LRUCache`: reference-counted handles, a hash table of the cached ones, and the two lists they are on. */
module LruCache {
  import opened CacheLists
  import opened Keys
  import opened HandleTable

  // The dummy heads of the two lists; handles are named by larger numbers.
  const LRU: nat := 1
  const IN_USE: nat := 2
  const FIRST: nat := 3

  /** `refs` counts the clients' references and, while `inCache`, the cache's own. */
  datatype Handle = Handle(key: Bytes, hash: nat, charge: nat, inCache: bool, refs: nat)

  type Handles = map<nat, Handle>

  // ---------------------------------------------------------------- what the parts must satisfy

  ghost predicate RingsOk(next: map<nat, nat>, prev: map<nat, nat>, lru: seq<nat>, inUse: seq<nat>) {
    && Ring(next, prev, LRU, lru) && Ring(next, prev, IN_USE, inUse)
    && NoRepeats(lru) && NoRepeats(inUse)
    && (forall h :: h in lru ==> h >= FIRST && h !in inUse)
    && (forall h :: h in inUse ==> h >= FIRST)
  }

  /** A cached handle is on the LRU list iff only the cache refers to it, and else on the in-use list. */
  ghost predicate ListsMatch(handles: Handles, lru: seq<nat>, inUse: seq<nat>) {
    && (forall h :: h in lru <==> h in handles && handles[h].inCache && handles[h].refs == 1)
    && (forall h :: h in inUse <==> h in handles && handles[h].inCache && handles[h].refs >= 2)
  }

  ghost predicate RefsMatch(handles: Handles, held: multiset<nat>) {
    && (forall h :: h in handles ==>
          handles[h].refs == held[h] + (if handles[h].inCache then 1 else 0) && handles[h].refs > 0)
    && forall h :: h in held ==> h in handles
  }

  function Total(handles: Handles, list: seq<nat>): nat {
    if list == [] then 0
    else (if list[0] in handles then handles[list[0]].charge else 0) + Total(handles, list[1..])
  }

  ghost function CachedEntries(handles: Handles): Keyed {
    map h | h in handles && handles[h].inCache :: (handles[h].key, handles[h].hash)
  }

  /** Every handle ever made is either still referred to or was passed to its deleter, once. */
  ghost predicate DeletedOnce(handles: Handles, deleted: seq<nat>, nextId: nat) {
    && nextId >= FIRST && NoRepeats(deleted)
    && (forall h :: h in handles || h in deleted <==> FIRST <= h < nextId)
    && (forall h :: h in deleted ==> h !in handles)
  }

  lemma {:induction false} TotalFrame(handles: Handles, handles': Handles, list: seq<nat>)
    requires forall h :: h in list ==> h in handles && h in handles' && handles'[h].charge == handles[h].charge
    ensures Total(handles', list) == Total(handles, list)
  {
    if list != [] {
      assert list[0] in list;
      TotalFrame(handles, handles', list[1..]);
    }
  }

  lemma {:induction false} TotalWithout(handles: Handles, list: seq<nat>, e: nat)
    requires NoRepeats(list) && e in list && e in handles
    ensures Total(handles, list) == Total(handles, Without(list, e)) + handles[e].charge
  {
    if list[0] == e {
      assert e !in list[1..];
    } else {
      TotalWithout(handles, list[1..], e);
      var r := Without(list[1..], e);
      assert ([list[0]] + r)[1..] == r;
    }
  }

  lemma {:induction false} TotalAppend(handles: Handles, list: seq<nat>, e: nat)
    requires e in handles
    ensures Total(handles, list + [e]) == Total(handles, list) + handles[e].charge
  {
    if list == [] {
      assert [e][1..] == [];
    } else {
      TotalAppend(handles, list[1..], e);
      assert (list + [e])[1..] == list[1..] + [e];
    }
  }

  lemma {:induction false} WithoutNoRepeats(list: seq<nat>, e: nat)
    requires NoRepeats(list)
    ensures NoRepeats(Without(list, e))
  {
    if list != [] {
      WithoutNoRepeats(list[1..], e);
      assert list[0] !in list[1..] && list[0] !in Without(list[1..], e);
    }
  }

  // ---------------------------------------------------------------- the lists

  /** Unlinking from one ring leaves the other alone. */
  lemma RemovesFromOne(next: map<nat, nat>, prev: map<nat, nat>, head: nat, list: seq<nat>, other: nat, others: seq<nat>, e: nat)
    requires Ring(next, prev, head, list) && Ring(next, prev, other, others) && NoRepeats(list) && e in list
    requires head != other && head !in list && head !in others && other !in list && forall h :: h in list ==> h !in others
    ensures e in next && e in prev
    ensures Ring(next[prev[e] := next[e]], prev[next[e] := prev[e]], head, Without(list, e))
    ensures Ring(next[prev[e] := next[e]], prev[next[e] := prev[e]], other, others)
  {
    hide Ring, Without, NoRepeats;
    var i :| 0 <= i < |list| && list[i] == e;
    RemoveRing(next, prev, head, list, i);
    WithoutIs(list, i);
    Neighbours(next, prev, head, list, i);
    assert prev[e] == head || prev[e] in list;
    assert next[e] == head || next[e] in list by {
      assert next[e] == Cycle(head, list)[i + 2];
    }
    OtherRing(next, prev, next[prev[e] := next[e]], prev[next[e] := prev[e]], other, others);
  }

  lemma RemovesFromRings(next: map<nat, nat>, prev: map<nat, nat>, lru: seq<nat>, inUse: seq<nat>, e: nat)
    requires RingsOk(next, prev, lru, inUse) && (e in lru || e in inUse)
    ensures e in next && e in prev && next[e] != e && prev[e] != e
    ensures RingsOk(next[prev[e] := next[e]], prev[next[e] := prev[e]], Without(lru, e), Without(inUse, e))
  {
    hide Ring, NoRepeats;
    if e in lru {
      RemovesFromOne(next, prev, LRU, lru, IN_USE, inUse, e);
      NotOwnNeighbour(next, prev, LRU, lru, e);
    } else {
      RemovesFromOne(next, prev, IN_USE, inUse, LRU, lru, e);
      NotOwnNeighbour(next, prev, IN_USE, inUse, e);
    }
    WithoutNoRepeats(lru, e);
    WithoutNoRepeats(inUse, e);
  }

  lemma NotOwnNeighbour(next: map<nat, nat>, prev: map<nat, nat>, head: nat, list: seq<nat>, e: nat)
    requires Ring(next, prev, head, list) && NoRepeats(list) && e in list && head !in list
    ensures e in next && e in prev && next[e] != e && prev[e] != e
  {
    hide Ring;
    var i :| 0 <= i < |list| && list[i] == e;
    Neighbours(next, prev, head, list, i);
    assert Cycle(head, list)[i] == (if i == 0 then head else list[i - 1]);
    assert Cycle(head, list)[i + 2] == if i + 1 == |list| then head else list[i + 1];
  }

  lemma AppendsToRings(next: map<nat, nat>, prev: map<nat, nat>, lru: seq<nat>, inUse: seq<nat>, head: nat, e: nat)
    requires RingsOk(next, prev, lru, inUse) && e !in lru && e !in inUse && e >= FIRST && (head == LRU || head == IN_USE)
    ensures head in prev && prev[head] != e && head != e
    ensures RingsOk(next[e := head][prev[head] := e], prev[e := prev[head]][head := e],
                    if head == LRU then lru + [e] else lru, if head == IN_USE then inUse + [e] else inUse)
  {
    var list, other, others := if head == LRU then lru else inUse,
                               if head == LRU then IN_USE else LRU, if head == LRU then inUse else lru;
    hide Ring;
    AppendRing(next, prev, head, list, e);
    HeadOf(next, prev, head, list);
    assert prev[head] == head || prev[head] in list;
    OtherRing(next, prev, next[e := head][prev[head] := e], prev[e := prev[head]][head := e], other, others);
  }

  class Cache {
    const capacity: nat
    const table: Table
    var usage: nat
    var handles: Handles
    var next: map<nat, nat>
    var prev: map<nat, nat>
    var nextId: nat
    var deleted: seq<nat>
    ghost var lru: seq<nat>
    ghost var inUse: seq<nat>
    ghost var held: multiset<nat>

    /** The handles in the cache, with their keys and hashes. */
    ghost function Cached(): Keyed reads this { CachedEntries(handles) }

    ghost function Charge(h: nat): nat
      requires h in handles
      reads this
    {
      handles[h].charge
    }

    /** Everything but the hash table. */
    ghost predicate Core() reads this {
      && RingsOk(next, prev, lru, inUse) && ListsMatch(handles, lru, inUse) && RefsMatch(handles, held)
      && usage == Total(handles, lru) + Total(handles, inUse) && DeletedOnce(handles, deleted, nextId)
    }

    ghost predicate Valid() reads this, table {
      Core() && table.Valid() && table.Entries() == CachedEntries(handles)
    }

    constructor (capacity: nat)
      ensures Valid() && fresh(table) && this.capacity == capacity && handles == map[] && held == multiset{}
    {
      this.capacity := capacity;
      table := new Table();
      usage, handles, nextId, deleted := 0, map[], FIRST, [];
      next, prev := map[LRU := LRU, IN_USE := IN_USE], map[LRU := LRU, IN_USE := IN_USE];
      lru, inUse, held := [], [], multiset{};
    }

    method LRU_Remove(e: nat)
      requires RingsOk(next, prev, lru, inUse) && (e in lru || e in inUse)
      modifies `next, `prev, `lru, `inUse
      ensures RingsOk(next, prev, lru, inUse) && lru == Without(old(lru), e) && inUse == Without(old(inUse), e)
      ensures forall h :: h in lru <==> h in old(lru) && h != e
      ensures forall h :: h in inUse <==> h in old(inUse) && h != e
    {
      hide RingsOk;
      RemovesFromRings(next, prev, lru, inUse, e);
      prev := prev[next[e] := prev[e]];
      next := next[prev[e] := next[e]];
      lru, inUse := Without(lru, e), Without(inUse, e);
    }

    method LRU_Append(list: nat, e: nat)
      requires RingsOk(next, prev, lru, inUse) && e !in lru && e !in inUse && e >= FIRST && (list == LRU || list == IN_USE)
      modifies `next, `prev, `lru, `inUse
      ensures RingsOk(next, prev, lru, inUse)
      ensures lru == (if list == LRU then old(lru) + [e] else old(lru))
      ensures inUse == if list == IN_USE then old(inUse) + [e] else old(inUse)
    {
      hide RingsOk;
      AppendsToRings(next, prev, lru, inUse, list, e);
      next := next[e := list];
      prev := prev[e := prev[list]];
      next := next[prev[e] := e];
      prev := prev[next[e] := e];
      if list == LRU { lru := lru + [e]; } else { inUse := inUse + [e]; }
    }
  
    /** A client gets a reference; a handle that only the cache referred to moves to the in-use list. */
    method Ref(e: nat)
      requires Core() && e in handles
      modifies `handles, `next, `prev, `lru, `inUse, `held
      ensures Core() && held == old(held) + multiset{e}
      ensures handles == old(handles)[e := old(handles)[e].(refs := old(handles)[e].refs + 1)]
      ensures lru == Without(old(lru), e) && forall h :: h in inUse <==> h in old(inUse) || (h == e && e in old(lru))
    {
      hide RingsOk, ListsMatch, RefsMatch, Total, DeletedOnce, NoRepeats, Without;
      ghost var handles0, lru0, inUse0 := handles, lru, inUse;
      OnLists(handles, next, prev, lru, inUse, e);
      ListedAreHandles(handles, lru, inUse);
      if handles[e].refs == 1 && handles[e].inCache {
        LRU_Remove(e);
        LRU_Append(IN_USE, e);
        MovedTotal(handles0, lru0, inUse0, e);
        RefTotal(handles, lru0, inUse0, lru, inUse, e, handles[e].refs + 1);
      } else {
        NotOn(lru, e);
        RefTotal(handles, lru0, inUse0, lru, inUse, e, handles[e].refs + 1);
      }
      RefKeeps(handles0, lru0, inUse0, lru, inUse, held, e);
      handles := handles[e := handles[e].(refs := handles[e].refs + 1)];
      held := held + multiset{e};
      DeletedStays(handles0, handles, deleted, nextId);
    }

    /** One reference fewer: the last one calls the deleter, the last client's moves it to the LRU list. */
    method Unref(e: nat)
      requires RingsOk(next, prev, lru, inUse) && ListsMatch(handles, lru, inUse)
      requires e in handles && handles[e].refs > 0 && (handles[e].inCache ==> handles[e].refs >= 2)
      modifies `handles, `next, `prev, `lru, `inUse, `deleted
      ensures RingsOk(next, prev, lru, inUse) && ListsMatch(handles, lru, inUse)
      ensures
        var h := old(handles)[e];
        var idle := h.inCache && h.refs == 2;
        && handles == (if h.refs == 1 then old(handles) - {e} else old(handles)[e := h.(refs := h.refs - 1)])
        && deleted == (if h.refs == 1 then old(deleted) + [e] else old(deleted))
        && lru == (if idle then old(lru) + [e] else old(lru))
        && inUse == (if idle then Without(old(inUse), e) else old(inUse))
    {
      hide RingsOk, ListsMatch, NoRepeats, Without;
      ghost var handles0, lru0, inUse0 := handles, lru, inUse;
      OnLists(handles, next, prev, lru, inUse, e);
      handles := handles[e := handles[e].(refs := handles[e].refs - 1)];
      if handles[e].refs == 0 {
        deleted := deleted + [e];
        handles := handles - {e};
        assert handles == handles0 - {e};
      } else if handles[e].inCache && handles[e].refs == 1 {
        LRU_Remove(e);
        LRU_Append(LRU, e);
        NotOn(lru0, e);
      }
      UnrefLists(handles0, lru0, inUse0, lru, inUse, e);
    }

    /** Off its list, out of the cache, and one reference fewer. */
    method Detach(e: nat)
      requires Core() && e in handles && handles[e].inCache
      modifies `handles, `next, `prev, `lru, `inUse, `deleted, `usage
      ensures Core() && lru == Without(old(lru), e) && inUse == Without(old(inUse), e)
      ensures
        var h := old(handles)[e];
        && usage + h.charge == old(usage)
        && handles == (if h.refs == 1 then old(handles) - {e} else old(handles)[e := h.(inCache := false, refs := h.refs - 1)])
        && deleted == (if h.refs == 1 then old(deleted) + [e] else old(deleted))
    {
      hide RingsOk, ListsMatch, RefsMatch, Total, DeletedOnce, NoRepeats, Without;
      ghost var handles0, lru0, inUse0 := handles, lru, inUse;
      OnLists(handles, next, prev, lru, inUse, e);
      ListedAreHandles(handles, lru, inUse);
      HasRefs(handles, held, e);
      ErasedTotal(handles, lru, inUse, e);
      LRU_Remove(e);
      handles := handles[e := handles[e].(inCache := false)];
      usage := usage - handles[e].charge;
      ErasedLists(handles0, lru0, inUse0, lru, inUse, e);
      Unref(e);
      ErasedKeeps(handles0, lru, inUse, held, e);
      DeletedMore(handles0, handles, deleted, old(deleted), nextId, e);
      assert handles0[e := handles0[e].(inCache := false)] - {e} == handles0 - {e};
    }

    /** Look a key up; the caller gets a reference that it must release. */
    method Lookup(key: Bytes, hash: nat) returns (e: nat)
      requires Valid()
      modifies `handles, `next, `prev, `lru, `inUse, `held
      ensures Valid() && Cached() == old(Cached())
      ensures if e == NULL then
          && (forall h :: h in Cached() ==> Cached()[h] != (key, hash))
          && held == old(held) && lru == old(lru) && handles == old(handles)
        else
          && e in Cached() && Cached()[e] == (key, hash)
          && held == old(held) + multiset{e} && lru == Without(old(lru), e)
    {
      hide Core, CachedEntries, Without;
      e := table.Lookup(key, hash);
      if e != NULL {
        CachedIsHandle(handles, e);
        ghost var handles0 := handles;
        Ref(e);
        SameCached(handles0, handles, e);
      }
    }

    /** A client gives a reference back. */
    method Release(e: nat)
      requires Valid() && e in held
      modifies `handles, `next, `prev, `lru, `inUse, `deleted, `held
      ensures Valid() && held == old(held) - multiset{e} && usage == old(usage) && Cached() == old(Cached())
      ensures e in old(handles)
      ensures
        var h := old(handles)[e];
        && deleted == (if h.refs == 1 then old(deleted) + [e] else old(deleted))
        && lru == (if h.inCache && h.refs == 2 then old(lru) + [e] else old(lru))
    {
      hide Core, CachedEntries;
      ReleaseRef(e);
    }

    method ReleaseRef(e: nat)
      requires Core() && e in held
      modifies `handles, `next, `prev, `lru, `inUse, `deleted, `held
      ensures Core() && held == old(held) - multiset{e} && usage == old(usage) && Cached() == old(Cached())
      ensures e in old(handles)
      ensures
        var h := old(handles)[e];
        && deleted == (if h.refs == 1 then old(deleted) + [e] else old(deleted))
        && lru == (if h.inCache && h.refs == 2 then old(lru) + [e] else old(lru))
    {
      hide RingsOk, ListsMatch, RefsMatch, Total, DeletedOnce, NoRepeats, Without, CachedEntries;
      ghost var handles0, lru0, inUse0 := handles, lru, inUse;
      HeldIsHandle(handles, held, e);
      OnLists(handles, next, prev, lru, inUse, e);
      ListedAreHandles(handles, lru, inUse);
      if handles[e].inCache && handles[e].refs == 2 {
        MovedTotal(handles, inUse, lru, e);
        NotOn(lru, e);
      }
      Unref(e);
      held := held - multiset{e};
      assert held + multiset{e} == old(held);
      NotOn(inUse0, e);
      OnlyOf(inUse0, e);
      ReleasedKeeps(handles0, lru0, inUse0, lru, inUse, held, e);
      DeletedMore(handles0, handles, deleted, old(deleted), nextId, e);
    }

    /** Finish taking a handle out of the cache after it has left the hash table. */
    method FinishErase(e: nat)
      requires Core() && e in Cached()
      modifies `handles, `next, `prev, `lru, `inUse, `deleted, `usage
      ensures Core() && lru == Without(old(lru), e) && inUse == Without(old(inUse), e) && Cached() == old(Cached()) - {e}
      ensures e in old(handles) && usage + old(Charge(e)) == old(usage)
      ensures deleted == old(deleted) + if e in held then [] else [e]
      ensures Charged(old(handles), handles)
    {
      hide Core, CachedEntries, Without, Charged;
      ghost var handles0 := handles;
      CachedIsHandle(handles, e);
      HeldWhenErased(e);
      NothingMore(deleted);
      Detach(e);
      ErasedEntries(handles0, handles, e);
    }

    /** Take a key out of the hash table and out of the cache. */
    method EraseEntry(key: Bytes, hash: nat) returns (e: nat)
      requires Valid()
      modifies table, `handles, `next, `prev, `lru, `inUse, `deleted, `usage
      ensures Valid() && lru == Without(old(lru), e) && inUse == Without(old(inUse), e) && Cached() == old(Cached()) - {e}
      ensures e == NULL ==>
        && (forall h :: h in old(Cached()) ==> old(Cached())[h] != (key, hash))
        && usage == old(usage) && deleted == old(deleted) && handles == old(handles)
      ensures e != NULL ==>
        && e in old(Cached()) && old(Cached())[e] == (key, hash) && e in old(handles)
        && usage + old(Charge(e)) == old(usage)
        && deleted == (if e in held then old(deleted) else old(deleted) + [e])
        && Charged(old(handles), handles)
    {
      hide Core, CachedEntries, Without, Charged;
      CachedAreHandles(handles);
      NothingMore(deleted);
      e := table.Remove(key, hash);
      if e != NULL {
        FinishErase(e);
      } else {
        NullIsNotListed();
        NotOn(lru, NULL);
        NotOn(inUse, NULL);
      }
    }

    lemma HeldWhenErased(e: nat)
      requires Core() && e in handles && handles[e].inCache
      ensures handles[e].refs == 1 <==> e !in held
    {
      hide RingsOk, ListsMatch, Total, DeletedOnce;
    }

    lemma NullIsNotListed()
      requires Core()
      ensures NULL !in lru && NULL !in inUse && NULL !in handles && Cached() - {NULL} == Cached()
    {
      hide Total;
    }

    /** The head of the LRU list links to its oldest handle. */
    lemma OldestIsNext()
      requires Core()
      ensures LRU in next && next[LRU] == if lru == [] then LRU else lru[0]
      ensures lru != [] ==> lru[0] != LRU && lru[0] !in inUse && lru[0] in handles && handles[lru[0]].inCache
      ensures lru != [] ==> handles[lru[0]].refs == 1
      ensures NoRepeats(lru)
    {
      hide Total;
      HeadOf(next, prev, LRU, lru);
      assert lru != [] ==> lru[0] in lru;
    }

    /**
     After `Erase` exactly the handle of that key, if there was one, is no longer cached; the deleter gets it at
     once unless a client still holds it.
     */
    method Erase(key: Bytes, hash: nat) returns (ghost e: nat)
      requires Valid()
      modifies table, `handles, `next, `prev, `lru, `inUse, `deleted, `usage
      ensures Valid() && Cached() == old(Cached()) - {e} && lru == Without(old(lru), e)
      ensures e == NULL ==> usage == old(usage) && deleted == old(deleted) && handles == old(handles)
      ensures e != NULL ==>
        && e in old(Cached()) && old(Cached())[e] == (key, hash) && e in old(handles)
        && usage + old(Charge(e)) == old(usage) && deleted == (if e in held then old(deleted) else old(deleted) + [e])
      ensures forall h :: h in Cached() ==> h in old(Cached()) && Cached()[h] == old(Cached())[h] != (key, hash)
      ensures forall h :: h in old(Cached()) && old(Cached())[h] != (key, hash) ==> h in Cached()
    {
      hide Core, CachedEntries, Without;
      UniqueEntries(key, hash);
      e := EraseEntry(key, hash);
    }

    /** At most one cached handle has a key and hash. */
    lemma UniqueEntries(key: Bytes, hash: nat)
      requires Valid()
      ensures forall g, h ::
        g in Cached() && h in Cached() && Cached()[g] == (key, hash) && Cached()[h] == (key, hash) ==> g == h
    {
      table.OneEntry();
    }

    /**
     Throw out the oldest idle handles until the usage fits or none is left.  `k` of them go, each to its
     deleter, in least-recently-used order, and no more than needed.
     */
    method Evict() returns (ghost k: nat)
      requires Valid()
      modifies table, `handles, `next, `prev, `lru, `inUse, `deleted, `usage
      ensures Valid() && (usage <= capacity || lru == [])
      ensures Dropped(old(Cached()), old(lru), old(deleted), k, Cached(), lru, deleted)
      ensures k > 0 ==> old(lru)[k - 1] in old(handles) && usage + old(handles)[old(lru)[k - 1]].charge > capacity
    {
      hide Core, CachedEntries, Without, Charged, Dropped, NoRepeats;
      ghost var lru0, handles0, cached0, deleted0 := lru, handles, Cached(), deleted;
      k := 0;
      OldestIsNext();
      NothingDropped(cached0, lru0, deleted0);
      ChargedSame(handles0);
      while usage > capacity && next[LRU] != LRU
        invariant Valid() && LRU in next && next[LRU] == (if lru == [] then LRU else lru[0]) && (lru != [] ==> lru[0] != LRU)
        invariant k <= |lru0| && Dropped(cached0, lru0, deleted0, k, Cached(), lru, deleted) && Charged(handles0, handles)
        invariant k > 0 ==> lru0[k - 1] in handles0 && usage + handles0[lru0[k - 1]].charge > capacity
        decreases |lru|
      {
        ghost var handles1, oldest := handles, lru[0];
        DropsOneMore(cached0, lru0, deleted0, k, Cached(), lru, deleted);
        EvictOldest();
        ChargedTrans(handles0, handles1, handles, oldest);
        k := k + 1;
        OldestIsNext();
      }
      DroppedCount(cached0, lru0, deleted0, k, Cached(), lru, deleted);
    }

    /** Erase the head of the LRU list. */
    method EvictOldest()
      requires Valid() && lru != [] && LRU in next && next[LRU] == lru[0]
      modifies table, `handles, `next, `prev, `lru, `inUse, `deleted, `usage
      ensures Valid() && lru == old(lru)[1..] && inUse == old(inUse) && deleted == old(deleted) + [old(lru)[0]]
      ensures Cached() == old(Cached()) - {old(lru)[0]}
      ensures old(lru)[0] in old(handles) && usage + old(handles)[old(lru)[0]].charge == old(usage)
      ensures Charged(old(handles), handles)
    {
      hide Core, CachedEntries, Without, NoRepeats;
      OldestIsNext();
      NullIsNotListed();
      ghost var oldest := lru[0];
      var e := next[LRU];
      HandleIsCached(handles, e);
      HeldWhenErased(e);
      UniqueEntries(handles[e].key, handles[e].hash);
      WithoutIs(lru, 0);
      NotOn(inUse, e);
      assert lru[..0] + lru[1..] == lru[1..];
      var erased := EraseEntry(handles[e].key, handles[e].hash);
    }

    /** `Prune`: throw out every idle handle. */
    method Prune()
      requires Valid()
      modifies table, `handles, `next, `prev, `lru, `inUse, `deleted, `usage
      ensures Valid() && lru == [] && Dropped(old(Cached()), old(lru), old(deleted), |old(lru)|, Cached(), lru, deleted)
    {
      hide Core, CachedEntries, Without, Charged, Dropped, NoRepeats;
      ghost var lru0, k: nat, cached0, deleted0 := lru, 0, Cached(), deleted;
      OldestIsNext();
      NothingDropped(cached0, lru0, deleted0);
      while next[LRU] != LRU
        invariant Valid() && LRU in next && next[LRU] == (if lru == [] then LRU else lru[0]) && (lru != [] ==> lru[0] != LRU)
        invariant Dropped(cached0, lru0, deleted0, k, Cached(), lru, deleted)
        decreases |lru|
      {
        DropsOneMore(cached0, lru0, deleted0, k, Cached(), lru, deleted);
        EvictOldest();
        k := k + 1;
        OldestIsNext();
      }
      DroppedCount(cached0, lru0, deleted0, k, Cached(), lru, deleted);
    }

    /** Make a handle with one client reference, and one of the cache's if it is to be cached. */
    method NewHandle(key: Bytes, hash: nat, charge: nat, cached: bool) returns (e: nat)
      requires Core()
      modifies `handles, `next, `prev, `inUse, `lru, `held, `nextId, `usage
      ensures Core() && e == old(nextId) && e !in old(handles) && e >= FIRST && e !in old(lru) && e !in old(inUse)
      ensures handles == old(handles)[e := Handle(key, hash, charge, cached, if cached then 2 else 1)]
      ensures held == old(held) + multiset{e} && lru == old(lru)
      ensures inUse == if cached then old(inUse) + [e] else old(inUse)
      ensures usage == if cached then old(usage) + charge else old(usage)
      ensures Cached() == (if cached then old(Cached())[e := (key, hash)] else old(Cached())) && e !in old(Cached())
    {
      hide RingsOk, ListsMatch, RefsMatch, Total, DeletedOnce, NoRepeats, CachedEntries;
      ghost var handles0, lru0, inUse0 := handles, lru, inUse;
      e := nextId;
      FreshHandle(handles, deleted, lru, inUse, held, e);
      nextId := nextId + 1;
      handles := handles[e := Handle(key, hash, charge, cached, if cached then 2 else 1)];
      held := held + multiset{e};
      if cached {
        LRU_Append(IN_USE, e);
        usage := usage + charge;
      }
      NewHandleKeeps(handles0, lru0, inUse0, old(held), deleted, e, handles[e]);
      NewEntries(handles0, handles, e);
    }

    /** Put a cached handle into the hash table, and finish erasing the one it replaces. */
    method AddToTable(e: nat, key: Bytes, hash: nat) returns (replaced: nat)
      requires Core() && table.Valid() && e != NULL && e in Cached() && Cached()[e] == (key, hash)
      requires table.Entries() == Cached() - {e}
      modifies table, `handles, `next, `prev, `lru, `inUse, `deleted, `usage
      ensures Valid() && lru == Without(old(lru), replaced) && Cached() == old(Cached()) - {replaced}
      ensures replaced != NULL ==> replaced in old(Cached()) && old(Cached())[replaced] == (key, hash)
      ensures replaced != e
      ensures deleted == old(deleted) + PassedOn(replaced, held)
    {
      hide Core, CachedEntries, Without, NoRepeats;
      NullIsNotListed();
      CachedAreHandles(handles);
      ghost var cached := Cached();
      replaced := table.Insert(e, key, hash);
      ReplacedEntry(cached, e, (key, hash), replaced);
      NotOn(lru, NULL);
      if replaced != NULL {
        FinishErase(replaced);
      } else {
        NothingMore(deleted);
      }
    }

    /** The first half of `Insert`: the new handle is in place, over capacity perhaps. */
    method InsertHandle(key: Bytes, hash: nat, charge: nat) returns (e: nat, ghost replaced: nat)
      requires Valid()
      modifies this, table
      ensures Valid() && held == old(held) + multiset{e} && e !in old(held) && e !in old(handles)
      ensures replaced != NULL ==> replaced in old(Cached()) && old(Cached())[replaced] == (key, hash)
      ensures Cached() == AfterInsert(old(Cached()), capacity, e, (key, hash), replaced)
      ensures lru == Without(old(lru), replaced) && e !in lru
      ensures deleted == old(deleted) + PassedOn(replaced, old(held))
    {
      hide Core, CachedEntries, Without, NoRepeats, PassedOn;
      NullIsNotListed();
      FreshIsNotHeld();
      ghost var cached0, lru0, held0 := Cached(), lru, held;
      replaced := NULL;
      e := NewHandle(key, hash, charge, capacity > 0);
      NotOn(lru0, NULL);
      NothingMore(deleted);
      if capacity > 0 {
        NewEntryGone(cached0, e, (key, hash));
        replaced := AddToTable(e, key, hash);
        NewEntryStays(cached0, e, (key, hash), replaced);
      }
      PassedOnSame(replaced, held0, e);
      OnlyOf(lru0, replaced);
    }

    /**
     Insert a key; the caller gets a reference.  With no capacity nothing is cached; else the new handle
     replaces one of the same key.  Then idle handles are thrown out until the usage fits.
     */
    method Insert(key: Bytes, hash: nat, charge: nat) returns (e: nat, ghost replaced: nat, ghost k: nat)
      requires Valid()
      modifies this, table
      ensures Valid() && held == old(held) + multiset{e} && e !in old(held) && e !in old(handles)
      ensures usage <= capacity || lru == []
      ensures capacity > 0 ==> e in Cached() && Cached()[e] == (key, hash)
      ensures replaced != NULL ==> replaced in old(Cached()) && old(Cached())[replaced] == (key, hash)
      ensures
        var gone := PassedOn(replaced, old(held));
        Dropped(AfterInsert(old(Cached()), capacity, e, (key, hash), replaced), Without(old(lru), replaced),
                old(deleted) + gone, k, Cached(), lru, deleted)
    {
      hide Core, CachedEntries, Without, NoRepeats, Dropped, PassedOn, AfterInsert;
      e, replaced := InsertHandle(key, hash, charge);
      ghost var cached1, lru1, deleted1 := Cached(), lru, deleted;
      k := Evict();
      NewIsCached(old(Cached()), capacity, e, (key, hash), replaced);
      NewIsNotDropped(cached1, lru1, deleted1, k, Cached(), lru, deleted, e);
    }

    lemma FreshIsNotHeld()
      requires Core()
      ensures nextId !in held && nextId !in handles
    {
      hide RingsOk, ListsMatch, Total;
    }
  }

  lemma NothingMore(list: seq<nat>)
    ensures list + [] == list
  {
  }

  lemma CachedAreHandles(handles: Handles)
    ensures forall h :: h in CachedEntries(handles) ==> h in handles
  {
  }

  lemma ReplacedEntry(cached: Keyed, e: nat, entry: (Bytes, nat), replaced: nat)
    requires e in cached && cached[e] == entry && replaced != e
    ensures (cached - {e} - {replaced})[e := entry] == cached - {replaced}
  {
  }

  lemma NewEntryGone(cached: Keyed, e: nat, entry: (Bytes, nat))
    requires e !in cached
    ensures cached[e := entry] - {e} == cached
  {
  }

  lemma NewEntryStays(cached: Keyed, e: nat, entry: (Bytes, nat), replaced: nat)
    requires replaced != e
    ensures cached[e := entry] - {replaced} == (cached - {replaced})[e := entry]
    ensures replaced in cached[e := entry] ==> replaced in cached && cached[e := entry][replaced] == cached[replaced]
  {
  }

  type Keyed = map<nat, (Bytes, nat)>

  /** The deleter is called for a replaced handle that no client holds. */
  function PassedOn(replaced: nat, held: multiset<nat>): seq<nat> {
    if replaced == NULL || replaced in held then [] else [replaced]
  }

  lemma PassedOnSame(replaced: nat, held: multiset<nat>, e: nat)
    ensures PassedOn(NULL, held) == []
    ensures replaced != e ==> PassedOn(replaced, held + multiset{e}) == PassedOn(replaced, held)
  {
  }

  function AfterInsert(cached: Keyed, capacity: nat, e: nat, entry: (Bytes, nat), replaced: nat): Keyed {
    if capacity > 0 then (cached - {replaced})[e := entry] else cached
  }

  lemma NewIsCached(cached: Keyed, capacity: nat, e: nat, entry: (Bytes, nat), replaced: nat)
    ensures capacity > 0 ==>
      e in AfterInsert(cached, capacity, e, entry, replaced) && AfterInsert(cached, capacity, e, entry, replaced)[e] == entry
  {
  }

  /** From one state to another the `k` oldest idle handles have left the cache for their deleters. */
  ghost predicate Dropped(cached0: Keyed, lru0: seq<nat>, deleted0: seq<nat>, k: nat,
      cached: Keyed, lru: seq<nat>, deleted: seq<nat>)
  {
    k <= |lru0| && lru == lru0[k..] && deleted == deleted0 + lru0[..k] && cached == cached0 - Members(lru0[..k])
  }

  lemma NothingDropped(cached: Keyed, lru: seq<nat>, deleted: seq<nat>)
    ensures Dropped(cached, lru, deleted, 0, cached, lru, deleted)
  {
    assert Members(lru[..0]) == {} && deleted + lru[..0] == deleted;
  }

  lemma DroppedCount(cached0: Keyed, lru0: seq<nat>, deleted0: seq<nat>, k: nat, cached: Keyed, lru: seq<nat>, deleted: seq<nat>)
    requires Dropped(cached0, lru0, deleted0, k, cached, lru, deleted)
    ensures k <= |lru0| && |lru| == |lru0| - k
  {
  }

  lemma DropsOneMore(cached0: Keyed, lru0: seq<nat>, deleted0: seq<nat>, k: nat, cached: Keyed, lru: seq<nat>, deleted: seq<nat>)
    requires Dropped(cached0, lru0, deleted0, k, cached, lru, deleted) && lru != []
    ensures Dropped(cached0, lru0, deleted0, k + 1, cached - {lru[0]}, lru[1..], deleted + [lru[0]])
    ensures k < |lru0| && lru[0] == lru0[k]
  {
    assert lru0[..k + 1] == lru0[..k] + [lru0[k]];
    assert Members(lru0[..k + 1]) == Members(lru0[..k]) + {lru0[k]};
  }

  lemma NewIsNotDropped(cached1: Keyed, lru1: seq<nat>, deleted1: seq<nat>, k: nat, cached: Keyed, lru: seq<nat>, deleted: seq<nat>,
      e: nat)
    requires Dropped(cached1, lru1, deleted1, k, cached, lru, deleted) && e !in lru1
    ensures e in cached1 ==> e in cached && cached[e] == cached1[e]
  {
  }

  ghost predicate Charged(before: Handles, after: Handles) {
    forall h :: h in after ==> h in before && after[h].charge == before[h].charge
  }

  lemma ChargedSame(handles: Handles)
    ensures Charged(handles, handles)
  {
  }

  lemma ChargedTrans(a: Handles, b: Handles, c: Handles, e: nat)
    requires Charged(a, b) && Charged(b, c)
    ensures Charged(a, c) && (e in b ==> e in a && a[e].charge == b[e].charge)
  {
  }

  lemma HandleIsCached(handles: Handles, e: nat)
    requires e in handles && handles[e].inCache
    ensures e in CachedEntries(handles) && CachedEntries(handles)[e] == (handles[e].key, handles[e].hash)
  {
  }

  lemma FreshHandle(handles: Handles, deleted: seq<nat>, lru: seq<nat>, inUse: seq<nat>, held: multiset<nat>, e: nat)
    requires DeletedOnce(handles, deleted, e) && ListsMatch(handles, lru, inUse) && RefsMatch(handles, held)
    ensures e !in handles && e !in deleted && e !in lru && e !in inUse && e !in held && e >= FIRST
  {
  }

  lemma NewHandleKeeps(handles: Handles, lru: seq<nat>, inUse: seq<nat>, held: multiset<nat>, deleted: seq<nat>, e: nat, h: Handle)
    requires DeletedOnce(handles, deleted, e) && ListsMatch(handles, lru, inUse) && RefsMatch(handles, held)
    requires h.refs == if h.inCache then 2 else 1
    ensures DeletedOnce(handles[e := h], deleted, e + 1) && RefsMatch(handles[e := h], held + multiset{e})
    ensures ListsMatch(handles[e := h], lru, if h.inCache then inUse + [e] else inUse)
    ensures Total(handles[e := h], lru) == Total(handles, lru) && Total(handles[e := h], inUse) == Total(handles, inUse)
    ensures Total(handles[e := h], inUse + [e]) == Total(handles, inUse) + h.charge
  {
    hide Total;
    FreshHandle(handles, deleted, lru, inUse, held, e);
    TotalFrame(handles, handles[e := h], lru);
    TotalFrame(handles, handles[e := h], inUse);
    TotalAppend(handles[e := h], inUse, e);
  }

  lemma NewEntries(handles: Handles, handles': Handles, e: nat)
    requires e !in handles && e in handles' && handles' == handles[e := handles'[e]]
    ensures CachedEntries(handles') ==
      if handles'[e].inCache then CachedEntries(handles)[e := (handles'[e].key, handles'[e].hash)] else CachedEntries(handles)
    ensures e !in CachedEntries(handles)
  {
  }

  lemma ErasedEntries(handles: Handles, handles': Handles, e: nat)
    requires e in handles
    requires var h := handles[e];
      handles' == (if h.refs == 1 then handles - {e} else handles[e := h.(inCache := false, refs := if h.refs > 0 then h.refs - 1 else 0)])
    ensures CachedEntries(handles') == CachedEntries(handles) - {e}
    ensures Charged(handles, handles')
  {
  }

  lemma UnrefLists(handles: Handles, lru: seq<nat>, inUse: seq<nat>, lru': seq<nat>, inUse': seq<nat>, e: nat)
    requires ListsMatch(handles, lru, inUse) && e in handles && handles[e].refs > 0
    requires handles[e].inCache ==> handles[e].refs >= 2
    requires
      var idle := handles[e].inCache && handles[e].refs == 2;
      && (forall h :: h in lru' <==> h in lru || (idle && h == e))
      && (forall h :: h in inUse' <==> h in inUse && !(idle && h == e))
    ensures
      var h := handles[e];
      ListsMatch(if h.refs == 1 then handles - {e} else handles[e := h.(refs := h.refs - 1)], lru', inUse')
  {
  }

  lemma HasRefs(handles: Handles, held: multiset<nat>, e: nat)
    requires RefsMatch(handles, held) && e in handles
    ensures handles[e].refs == held[e] + (if handles[e].inCache then 1 else 0) && handles[e].refs > 0
  {
  }

  lemma HeldIsHandle(handles: Handles, held: multiset<nat>, e: nat)
    requires RefsMatch(handles, held) && e in held
    ensures e in handles && handles[e].refs > 0 && (handles[e].inCache ==> handles[e].refs >= 2)
  {
  }

  lemma ErasedTotal(handles: Handles, lru: seq<nat>, inUse: seq<nat>, e: nat)
    requires NoRepeats(lru) && NoRepeats(inUse) && e in handles && (e in lru <==> e !in inUse)
    requires forall h :: h in lru || h in inUse ==> h in handles
    ensures Total(handles, Without(lru, e)) + Total(handles, Without(inUse, e)) + handles[e].charge
         == Total(handles, lru) + Total(handles, inUse)
  {
    hide Total, NoRepeats;
    NotOn(lru, e);
    NotOn(inUse, e);
    if e in lru {
      TotalWithout(handles, lru, e);
    } else {
      TotalWithout(handles, inUse, e);
    }
  }

  lemma ErasedLists(handles: Handles, lru: seq<nat>, inUse: seq<nat>, lru': seq<nat>, inUse': seq<nat>, e: nat)
    requires ListsMatch(handles, lru, inUse) && e in handles
    requires (forall h :: h in lru' <==> h in lru && h != e) && forall h :: h in inUse' <==> h in inUse && h != e
    ensures ListsMatch(handles[e := handles[e].(inCache := false)], lru', inUse')
  {
  }

  lemma ErasedKeeps(handles: Handles, lru: seq<nat>, inUse: seq<nat>, held: multiset<nat>, e: nat)
    requires RefsMatch(handles, held) && e in handles && handles[e].inCache && e !in lru && e !in inUse
    requires forall h :: h in lru || h in inUse ==> h in handles
    ensures
      var off := handles[e := handles[e].(inCache := false)];
      var h := off[e];
      var handles' := if h.refs == 1 then off - {e} else off[e := h.(refs := h.refs - 1)];
      && RefsMatch(handles', held)
      && Total(handles', lru) == Total(handles, lru) && Total(handles', inUse) == Total(handles, inUse)
  {
    hide Total;
    var off := handles[e := handles[e].(inCache := false)];
    var h := off[e];
    var handles' := if h.refs == 1 then off - {e} else off[e := h.(refs := h.refs - 1)];
    TotalFrame(handles, handles', lru);
    TotalFrame(handles, handles', inUse);
  }

  lemma ReleasedKeeps(handles: Handles, lru: seq<nat>, inUse: seq<nat>, lru': seq<nat>, inUse': seq<nat>, held: multiset<nat>, e: nat)
    requires RefsMatch(handles, held + multiset{e}) && e in handles
    requires forall h :: h in lru' || h in inUse' ==> h in handles && (h == e ==> handles[e].inCache)
    ensures
      var h := handles[e];
      var handles' := if h.refs == 1 then handles - {e} else handles[e := h.(refs := h.refs - 1)];
      && RefsMatch(handles', held) && CachedEntries(handles') == CachedEntries(handles)
      && Total(handles', lru') == Total(handles, lru') && Total(handles', inUse') == Total(handles, inUse')
  {
    hide Total;
    var h := handles[e];
    var handles' := if h.refs == 1 then handles - {e} else handles[e := h.(refs := h.refs - 1)];
    assert held + multiset{e} == (held + multiset{e});
    TotalFrame(handles, handles', lru');
    TotalFrame(handles, handles', inUse');
  }

  lemma DeletedMore(handles: Handles, handles': Handles, deleted': seq<nat>, deleted: seq<nat>, nextId: nat, e: nat)
    requires DeletedOnce(handles, deleted, nextId) && e in handles
    requires (handles'.Keys == handles.Keys && deleted' == deleted)
          || (handles'.Keys == handles.Keys - {e} && deleted' == deleted + [e])
    ensures DeletedOnce(handles', deleted', nextId)
  {
  }

  lemma CachedIsHandle(handles: Handles, e: nat)
    requires e in CachedEntries(handles)
    ensures e in handles && handles[e].inCache && CachedEntries(handles)[e] == (handles[e].key, handles[e].hash)
  {
  }

  lemma SameCached(handles: Handles, handles': Handles, e: nat)
    requires e in handles && handles' == handles[e := handles[e].(refs := handles[e].refs + 1)]
    ensures CachedEntries(handles') == CachedEntries(handles)
  {
  }

  /** Where a handle is, by the two invariants. */
  lemma OnLists(handles: Handles, next: map<nat, nat>, prev: map<nat, nat>, lru: seq<nat>, inUse: seq<nat>, e: nat)
    requires RingsOk(next, prev, lru, inUse) && ListsMatch(handles, lru, inUse) && e in handles
    ensures NoRepeats(lru) && NoRepeats(inUse) && (e in lru || e in inUse ==> e >= FIRST)
    ensures e in lru <==> handles[e].inCache && handles[e].refs == 1
    ensures e in inUse <==> handles[e].inCache && handles[e].refs >= 2
    ensures e in lru ==> e !in inUse
  {
  }

  lemma ListedAreHandles(handles: Handles, lru: seq<nat>, inUse: seq<nat>)
    requires ListsMatch(handles, lru, inUse)
    ensures forall h :: h in lru || h in inUse ==> h in handles
  {
  }

  lemma OnlyOf(list: seq<nat>, e: nat)
    ensures forall h :: h in Without(list, e) ==> h in list
  {
  }

  lemma NotOn(list: seq<nat>, e: nat)
    ensures e !in list ==> Without(list, e) == list
    ensures e !in Without(list, e)
  {
  }

  lemma MovedTotal(handles: Handles, lru: seq<nat>, inUse: seq<nat>, e: nat)
    requires NoRepeats(lru) && e in lru && e in handles && e !in inUse
    ensures Total(handles, Without(lru, e)) + Total(handles, Without(inUse, e) + [e]) == Total(handles, lru) + Total(handles, inUse)
  {
    hide Total;
    TotalWithout(handles, lru, e);
    TotalAppend(handles, inUse, e);
    assert Without(inUse, e) == inUse;
  }

  /** Counting a reference does not change what the lists hold in total. */
  lemma RefTotal(handles: Handles, lru0: seq<nat>, inUse0: seq<nat>, lru: seq<nat>, inUse: seq<nat>, e: nat, refs: nat)
    requires e in handles && (forall h :: h in lru0 || h in inUse0 ==> h in handles)
    requires forall h :: h in lru || h in inUse ==> h in lru0 || h in inUse0
    ensures
      var handles' := handles[e := handles[e].(refs := refs)];
      Total(handles', lru) + Total(handles', inUse) == Total(handles, lru) + Total(handles, inUse)
  {
    hide Total;
    var handles' := handles[e := handles[e].(refs := refs)];
    TotalFrame(handles, handles', lru);
    TotalFrame(handles, handles', inUse);
  }

  lemma RefKeeps(handles: Handles, lru: seq<nat>, inUse: seq<nat>, lru': seq<nat>, inUse': seq<nat>, held: multiset<nat>, e: nat)
    requires ListsMatch(handles, lru, inUse) && RefsMatch(handles, held) && e in handles
    requires forall h :: h in lru' <==> h in lru && h != e
    requires forall h :: h in inUse' <==> h in inUse || (h == e && e in lru)
    ensures
      var handles' := handles[e := handles[e].(refs := handles[e].refs + 1)];
      ListsMatch(handles', lru', inUse') && RefsMatch(handles', held + multiset{e})
  {
  }

  lemma DeletedStays(handles: Handles, handles': Handles, deleted: seq<nat>, nextId: nat)
    requires DeletedOnce(handles, deleted, nextId) && handles'.Keys == handles.Keys
    ensures DeletedOnce(handles', deleted, nextId)
  {
  }
}
