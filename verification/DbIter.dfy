/** `DBIter`: a cursor over the user-visible rows, driven by an internal iterator over all entries. */
module DbIter {
  import opened Keys
  import opened Merger

  /** Entry `i` is what a reader at snapshot `s` sees for its user key: a value, and nothing newer hides it. */
  ghost predicate IsRow(es: seq<Entry>, s: nat, i: nat) {
    && i < |es| && es[i].ikey.seqno <= s && es[i].ikey.kind == Value
    && !Covered(es, s, i, es[i].ikey.user)
  }

  /** Some entry before `i` is visible at `s` and has this user key. */
  ghost predicate Covered(es: seq<Entry>, s: nat, i: nat, user: UserKey)
    requires i <= |es|
  {
    exists j :: 0 <= j < i && es[j].ikey.user == user && es[j].ikey.seqno <= s
  }

  /** The first row at or after `i`, or the length if there is none. */
  ghost function RowFrom(es: seq<Entry>, s: nat, i: nat): (r: nat)
    requires i <= |es|
    ensures i <= r <= |es|
    ensures r < |es| ==> IsRow(es, s, r)
    ensures forall k :: i <= k < r ==> !IsRow(es, s, k)
    decreases |es| - i
  {
    if i == |es| || IsRow(es, s, i) then i else RowFrom(es, s, i + 1)
  }

  /** The last row before `i`, or the length if there is none. */
  ghost function RowBefore(es: seq<Entry>, s: nat, i: nat): (r: nat)
    requires i <= |es|
    ensures r < i || r == |es|
    ensures r < i ==> IsRow(es, s, r) && forall k :: r < k < i ==> !IsRow(es, s, k)
    ensures r == |es| ==> forall k :: 0 <= k < i ==> !IsRow(es, s, k)
  {
    if i == 0 then |es| else if IsRow(es, s, i - 1) then i - 1 else RowBefore(es, s, i - 1)
  }

  lemma RowFromIs(es: seq<Entry>, s: nat, i: nat, r: nat)
    requires i <= r <= |es| && (r < |es| ==> IsRow(es, s, r))
    requires forall k :: i <= k < r ==> !IsRow(es, s, k)
    ensures RowFrom(es, s, i) == r
  {
  }

  /** Position of the first entry whose user key is at or after `user`. */
  function UserIndex(es: seq<Entry>, user: UserKey): (p: nat)
    ensures p <= |es|
    ensures forall i :: 0 <= i < p ==> es[i].ikey.user < user
    ensures p < |es| ==> user <= es[p].ikey.user
  {
    if es == [] || user <= es[0].ikey.user then 0 else 1 + UserIndex(es[1..], user)
  }

  const EMPTY_KEY: UserKey := 0.0  // the rank of the empty string, what a cleared `saved_key_` holds

  class DBIter {
    const iter: MergingIterator
    const sequence: nat
    ghost const es: seq<Entry>   // what the internal iterator runs over
    ghost var pos: nat           // where it stands; the length means not valid
    var savedKey: UserKey
    var savedValue: Bytes
    var forward: bool
    var valid: bool
    ghost var at: nat            // the current row; the length means not valid

    constructor (iter: MergingIterator, sequence: nat)
      requires iter.Valid() && iter.current == None
      ensures this.iter == iter && this.sequence == sequence && es == Merge(iter.lists) && Valid() && !valid
    {
      this.iter, this.sequence := iter, sequence;
      es, pos, at := Merge(iter.lists), |Merge(iter.lists)|, |Merge(iter.lists)|;
      savedKey, savedValue, forward, valid := EMPTY_KEY, [], true, false;
    }

    /** `pos` is where the internal iterator stands, and `es` what it merges. */
    ghost predicate Linked()
      reads `pos, iter, iter.pos
    {
      iter.Valid() && es == Merge(iter.lists) && pos == iter.at && Sorted(es) && pos <= |es|
    }

    lemma LinkedIs()
      requires Linked()
      ensures Sorted(es) && pos <= |es|
    {
    }

    /** First position not yet passed when the internal iterator moves backwards. */
    ghost function Low(): nat
      reads `pos
    {
      if pos < |es| then pos + 1 else 0
    }

    ghost predicate Valid()
      reads this, iter, iter.pos
    {
      && Linked()
      && (valid <==> at < |es|) && at <= |es|
      && (valid ==>
            && IsRow(es, sequence, at)
            && if forward then pos == at else
                 && savedKey == es[at].ikey.user && savedValue == es[at].value
                 && BehindRow(es, sequence, pos, at))
    }

    function Key(): UserKey
      requires Valid() && valid
      reads this, iter, iter.pos
      ensures Key() == es[at].ikey.user
    {
      if forward then Current().ikey.user else savedKey
    }

    function Value(): Bytes
      requires Valid() && valid
      reads this, iter, iter.pos
      ensures Value() == es[at].value
    {
      if forward then Current().value else savedValue
    }

    // The internal iterator, and where its operations leave it.

    predicate IterValid()
      requires Linked()
      reads `pos, iter, iter.pos
      ensures IterValid() <==> pos < |es|
    {
      iter.current.Some?
    }

    function Current(): Entry
      requires Linked() && pos < |es|
      reads `pos, iter, iter.pos
      ensures Current() == es[pos]
    {
      iter.Entry().value
    }

    method IterNext()
      requires Linked() && pos < |es|
      modifies this`pos, iter, iter.pos
      ensures Linked() && pos == old(pos) + 1
    {
      iter.Next();
      pos := iter.at;
    }

    method IterPrev()
      requires Linked() && pos < |es|
      modifies this`pos, iter, iter.pos
      ensures Linked() && pos == if old(pos) == 0 then |es| else old(pos) - 1
    {
      iter.Prev();
      pos := iter.at;
    }

    method IterSeek(target: IKey)
      requires Linked()
      modifies this`pos, iter, iter.pos
      ensures Linked() && pos == SeekIndex(es, target)
    {
      iter.Seek(target);
      pos := iter.at;
    }

    method IterSeekToFirst()
      requires Linked()
      modifies this`pos, iter, iter.pos
      ensures Linked() && pos == 0
    {
      iter.SeekToFirst();
      pos := iter.at;
    }

    method IterSeekToLast()
      requires Linked()
      modifies this`pos, iter, iter.pos
      ensures Linked() && pos == if es == [] then 0 else |es| - 1
    {
      iter.SeekToLast();
      pos := iter.at;
    }

    /** Moves forward to the next row not hidden by `skip`. */
    method FindNextUserEntry(skipping: bool, skip: UserKey, ghost from: nat)
      requires Linked() && pos < |es| && forward && from <= |es|
      requires Skips(es, sequence, pos, skipping, skip, from)
      requires forall k :: from <= k < pos ==> !IsRow(es, sequence, k)
      modifies this, iter, iter.pos
      ensures Valid() && forward && at == RowFrom(es, sequence, from)
    {
      hide Linked, IterValid, Current, IsRow, Covered, Skips, RowFrom, Sorted, Less;
      LinkedIs();
      var hiding, key := skipping, skip;
      while IterValid()
        invariant Linked() && pos <= |es|
        invariant Skips(es, sequence, pos, hiding, key, from)
        invariant forall k :: from <= k < pos ==> !IsRow(es, sequence, k)
        invariant forward
        decreases |es| - pos
      {
        var ikey := Current().ikey;
        SkipStep(es, sequence, pos, hiding, key, from);
        if ikey.seqno <= sequence {
          match ikey.kind {
            case Deletion =>
              key := ikey.user;
              hiding := true;
            case Value =>
              if hiding && ikey.user <= key {
                // hidden
              } else {
                valid := true;
                savedKey := EMPTY_KEY;
                at := pos;
                RowFromIs(es, sequence, from, pos);
                return;
              }
          }
        }
        IterNext();
        LinkedIs();
      }
      savedKey := EMPTY_KEY;
      valid := false;
      at := |es|;
      RowFromIs(es, sequence, from, |es|);
    }

    /** Moves backward to the last row before `upto`; everything in between holds no row. */
    method FindPrevUserEntry(ghost upto: nat)
      requires Linked() && !forward && upto <= |es|
      requires Low() <= upto && forall k :: Low() <= k < upto ==> !IsRow(es, sequence, k)
      modifies this, iter, iter.pos
      ensures Valid() && at == RowBefore(es, sequence, upto)
    {
      hide IsRow, Covered, RowBefore, Linked, IterValid, Current, Sorted, Less, PassedBack, BehindRow;
      LinkedIs();
      var valueType := Deletion;
      ghost var cand: nat := upto;  // the last visible entry passed, if any was
      StartBack(es, sequence, Low(), upto);
      while IterValid()
        invariant Linked() && pos <= |es| && !forward && cand <= upto
        invariant PassedBack(es, sequence, Low(), cand, upto)
        invariant cand == upto ==> valueType == Deletion
        invariant cand < upto ==> valueType == es[cand].ikey.kind
        invariant cand < upto && valueType.Value? ==> savedKey == es[cand].ikey.user && savedValue == es[cand].value
        decreases Low()
      {
        var ikey := Current().ikey;
        BackStep(es, sequence, pos, cand, upto);
        if ikey.seqno <= sequence {
          if valueType != Deletion && ikey.user < savedKey {
            break;
          }
          valueType := ikey.kind;
          cand := pos;
          if valueType == Deletion {
            savedKey, savedValue := EMPTY_KEY, [];
          } else {
            savedKey, savedValue := Current().ikey.user, Current().value;
          }
        }
        IterPrev();
        LinkedIs();
      }
      if valueType == Deletion {
        valid := false;
        savedKey, savedValue := EMPTY_KEY, [];
        forward := true;
        at := |es|;
        NothingBack(es, sequence, cand, upto);
      } else {
        valid := true;
        at := cand;
        FoundBack(es, sequence, pos, cand, upto);
      }
    }

    method Next()
      requires Valid() && valid
      modifies this, iter, iter.pos
      ensures Valid() && at == RowFrom(es, sequence, old(at) + 1)
    {
      hide Linked, IterValid, Current;
      LinkedIs();
      ghost var from := at + 1;
      if !forward {
        forward := true;
        if !IterValid() {
          IterSeekToFirst();
        } else {
          IterNext();
        }
      } else {
        savedKey := Current().ikey.user;
        IterNext();
      }
      LinkedIs();
      if !IterValid() {
        valid, savedKey, at := false, EMPTY_KEY, |es|;
        return;
      }
      SkipsRow(es, sequence, pos, at);
      FindNextUserEntry(true, savedKey, from);
    }

    method Prev()
      requires Valid() && valid
      modifies this, iter, iter.pos
      ensures Valid() && at == RowBefore(es, sequence, old(at))
    {
      hide Linked, IterValid, Current;
      LinkedIs();
      ghost var upto := at;
      if forward {
        savedKey := Current().ikey.user;
        while true
          invariant Linked() && pos < |es| && pos <= upto && forward
          invariant forall k :: pos <= k <= upto ==> es[k].ikey.user == savedKey
          invariant unchanged(`at, `valid) && upto < |es| && savedKey == es[upto].ikey.user
          decreases pos
        {
          IterPrev();
          if !IterValid() {
            OwnEntriesHideNoRow(es, sequence, 0, upto);
            valid, savedKey, savedValue, at := false, EMPTY_KEY, [], |es|;
            NoRowBefore(es, sequence, upto);
            return;
          }
          if Current().ikey.user < savedKey {
            break;
          }
          assert Less(es[pos].ikey, es[upto].ikey);
        }
        forward := false;
        OwnEntriesHideNoRow(es, sequence, pos + 1, upto);
      }
      FindPrevUserEntry(upto);
    }

    /** Position at the first row whose user key is at or after `target`. */
    method Seek(target: UserKey)
      requires Valid()
      modifies this, iter, iter.pos
      ensures Valid() && at == RowFrom(es, sequence, UserIndex(es, target))
    {
      hide Linked;
      forward := true;
      savedValue := [];
      savedKey := EMPTY_KEY;
      IterSeek(LookupKey(target, sequence));
      LinkedIs();
      SeekSkipsNothing(es, sequence, target);
      if IterValid() {
        FindNextUserEntry(false, savedKey, UserIndex(es, target));
      } else {
        valid, at := false, |es|;
        RowFromIs(es, sequence, UserIndex(es, target), |es|);
      }
    }

    method SeekToFirst()
      requires Valid()
      modifies this, iter, iter.pos
      ensures Valid() && at == RowFrom(es, sequence, 0)
    {
      hide Linked;
      forward := true;
      savedValue := [];
      IterSeekToFirst();
      LinkedIs();
      if IterValid() {
        FindNextUserEntry(false, savedKey, 0);
      } else {
        valid, at := false, |es|;
      }
    }

    method SeekToLast()
      requires Valid()
      modifies this, iter, iter.pos
      ensures Valid() && at == RowBefore(es, sequence, |es|)
    {
      hide Linked;
      forward := false;
      savedValue := [];
      IterSeekToLast();
      LinkedIs();
      FindPrevUserEntry(|es|);
    }
  }

  /** In reverse, the internal iterator is at an entry of a smaller key, past nothing visible but the row's own entries. */
  ghost predicate BehindRow(es: seq<Entry>, s: nat, pos: nat, at: nat)
    requires pos <= |es| && at < |es|
  {
    var low := if pos < |es| then pos + 1 else 0;
    && low <= at
    && (pos < |es| ==> es[pos].ikey.user < es[at].ikey.user)
    && forall k :: low <= k < at ==> es[k].ikey.seqno > s
  }

  /**
   What `skip` means while moving forward from `i`: a visible entry still to come is skipped exactly
   if it cannot be the wanted row because of something before it.
   */
  ghost predicate Skips(es: seq<Entry>, s: nat, i: nat, skipping: bool, skip: UserKey, from: nat)
    requires i <= |es|
  {
    forall k :: i <= k < |es| && es[k].ikey.seqno <= s ==>
      && (skipping ==> skip <= es[k].ikey.user)
      && if skipping && es[k].ikey.user <= skip then !(k >= from && IsRow(es, s, k))
         else k >= from && !Covered(es, s, i, es[k].ikey.user)
  }

  lemma SkipStep(es: seq<Entry>, s: nat, i: nat, skipping: bool, skip: UserKey, from: nat)
    requires Sorted(es) && i < |es| && Skips(es, s, i, skipping, skip, from)
    ensures
      var e := es[i].ikey;
      var hidden := skipping && e.user <= skip;
      && (e.seqno > s || hidden ==> Skips(es, s, i + 1, skipping, skip, from) && !(i >= from && IsRow(es, s, i)))
      && (e.seqno <= s && e.kind == Deletion ==> Skips(es, s, i + 1, true, e.user, from) && !IsRow(es, s, i))
      && (e.seqno <= s && e.kind == Value && !hidden ==> i >= from && IsRow(es, s, i))
  {
    forall k | i < k < |es|
      ensures es[i].ikey.user <= es[k].ikey.user
      ensures Covered(es, s, i + 1, es[k].ikey.user) <==>
        Covered(es, s, i, es[k].ikey.user) || (es[i].ikey.user == es[k].ikey.user && es[i].ikey.seqno <= s)
    {
      assert Less(es[i].ikey, es[k].ikey);
    }
    forall k | i < k < |es| && es[i].ikey.user == es[k].ikey.user && es[i].ikey.seqno <= s
      ensures !IsRow(es, s, k)
    {
    }
  }

  lemma OnlyVisibleValuesAreRows(es: seq<Entry>, s: nat)
    ensures forall i: nat :: i < |es| && (es[i].ikey.seqno > s || es[i].ikey.kind == Deletion) ==> !IsRow(es, s, i)
  {
  }

  lemma KeysAscend(es: seq<Entry>, i: nat, j: nat)
    requires Sorted(es) && i < |es|
    ensures i < j < |es| ==> es[i].ikey.user <= es[j].ikey.user
  {
    assert i < j < |es| ==> Less(es[i].ikey, es[j].ikey);
  }

  /** Moving backward down to `low`: `cand` is the last visible entry passed, and nothing behind it is a row. */
  ghost predicate PassedBack(es: seq<Entry>, s: nat, low: nat, cand: nat, upto: nat) {
    && low <= cand <= upto <= |es|
    && (cand < upto ==> es[cand].ikey.seqno <= s && forall k :: low <= k < cand ==> es[k].ikey.seqno > s)
    && (cand == upto ==> forall k :: low <= k < upto ==> !IsRow(es, s, k))
    && forall k :: cand < k < upto ==> !IsRow(es, s, k)
  }

  lemma StartBack(es: seq<Entry>, s: nat, low: nat, upto: nat)
    requires low <= upto <= |es| && forall k :: low <= k < upto ==> !IsRow(es, s, k)
    ensures PassedBack(es, s, low, upto, upto)
  {
  }

  lemma BackStep(es: seq<Entry>, s: nat, pos: nat, cand: nat, upto: nat)
    requires Sorted(es) && pos < |es| && PassedBack(es, s, pos + 1, cand, upto)
    ensures pos < cand <= upto <= |es|
    ensures es[pos].ikey.seqno > s ==> PassedBack(es, s, pos, cand, upto)
    ensures es[pos].ikey.seqno <= s && (cand == upto || es[cand].ikey.kind == Deletion || es[cand].ikey.user <= es[pos].ikey.user)
      ==> PassedBack(es, s, pos, pos, upto)
  {
    hide IsRow, Less, Sorted;
    OnlyVisibleValuesAreRows(es, s);
    if es[pos].ikey.seqno <= s {
      CoveredBy(es, s, pos, cand);
      KeysAscend(es, pos, cand);
    }
  }

  lemma NothingBack(es: seq<Entry>, s: nat, cand: nat, upto: nat)
    requires PassedBack(es, s, 0, cand, upto) && (cand < upto ==> es[cand].ikey.kind == Deletion)
    ensures RowBefore(es, s, upto) == |es|
  {
    hide IsRow, RowBefore;
    OnlyVisibleValuesAreRows(es, s);
    NoRowBefore(es, s, upto);
  }

  lemma FoundBack(es: seq<Entry>, s: nat, pos: nat, cand: nat, upto: nat)
    requires Sorted(es) && pos <= |es| && PassedBack(es, s, if pos < |es| then pos + 1 else 0, cand, upto)
    requires cand < upto && es[cand].ikey.kind == Value && (pos < |es| ==> es[pos].ikey.user < es[cand].ikey.user)
    ensures RowBefore(es, s, upto) == cand && IsRow(es, s, cand) && BehindRow(es, s, pos, cand)
  {
    hide IsRow, RowBefore, Sorted;
    UncoveredBehind(es, s, pos, cand);
    RowBeforeIs(es, s, upto, cand);
  }

  lemma NoRowBefore(es: seq<Entry>, s: nat, upto: nat)
    requires upto <= |es| && forall k :: 0 <= k < upto ==> !IsRow(es, s, k)
    ensures RowBefore(es, s, upto) == |es|
  {
  }

  lemma RowBeforeIs(es: seq<Entry>, s: nat, upto: nat, r: nat)
    requires r < upto <= |es| && IsRow(es, s, r) && forall k :: r < k < upto ==> !IsRow(es, s, k)
    ensures RowBefore(es, s, upto) == r
  {
  }

  /** A visible entry hides the later entries of its own key. */
  lemma CoveredBy(es: seq<Entry>, s: nat, i: nat, cand: nat)
    requires i < |es| && es[i].ikey.seqno <= s
    ensures i < cand < |es| && es[cand].ikey.user == es[i].ikey.user ==> !IsRow(es, s, cand)
  {
  }

  /** With only smaller keys or invisible entries before it, a visible value is a row. */
  lemma UncoveredBehind(es: seq<Entry>, s: nat, pos: nat, at: nat)
    requires Sorted(es) && pos <= |es| && at < |es| && BehindRow(es, s, pos, at)
    requires es[at].ikey.seqno <= s && es[at].ikey.kind == Value
    ensures IsRow(es, s, at)
  {
    forall j | 0 <= j < at
      ensures es[j].ikey.user == es[at].ikey.user ==> es[j].ikey.seqno > s
    {
      assert pos < |es| && j < pos ==> Less(es[j].ikey, es[pos].ikey);
    }
  }

  /** The entries of a row's own key before it are newer than the snapshot, so none is a row. */
  lemma OwnEntriesHideNoRow(es: seq<Entry>, s: nat, low: nat, at: nat)
    requires low <= at < |es| && IsRow(es, s, at)
    requires forall k :: low <= k < at ==> es[k].ikey.user == es[at].ikey.user
    ensures forall k :: low <= k < at ==> !IsRow(es, s, k) && es[k].ikey.seqno > s
  {
  }

  /** Moving on from a row, skipping its key, from either direction. */
  lemma SkipsRow(es: seq<Entry>, s: nat, pos: nat, at: nat)
    requires Sorted(es) && pos <= |es| && at < |es| && IsRow(es, s, at)
    requires pos <= at + 1 && forall k :: pos <= k < at ==> es[k].ikey.seqno > s
    ensures Skips(es, s, pos, true, es[at].ikey.user, at + 1)
  {
    forall k | pos <= k < |es| && es[k].ikey.seqno <= s
      ensures es[at].ikey.user <= es[k].ikey.user
      ensures if es[k].ikey.user <= es[at].ikey.user then !(k >= at + 1 && IsRow(es, s, k))
        else k >= at + 1 && !Covered(es, s, pos, es[k].ikey.user)
    {
      assert k > at ==> Less(es[at].ikey, es[k].ikey);
      forall j | 0 <= j < pos
        ensures es[j].ikey.user <= es[at].ikey.user
      {
        assert j < at ==> Less(es[j].ikey, es[at].ikey);
      }
    }
  }

  lemma SeekSkipsNothing(es: seq<Entry>, s: nat, target: UserKey)
    requires Sorted(es)
    ensures
      var p, u := SeekIndex(es, LookupKey(target, s)), UserIndex(es, target);
      && u <= p && Skips(es, s, p, false, EMPTY_KEY, u)
      && forall k :: u <= k < p ==> !IsRow(es, s, k)
  {
    var p, u := SeekIndex(es, LookupKey(target, s)), UserIndex(es, target);
    SeekIndexSplits(es, LookupKey(target, s));
    assert p < |es| ==> target <= es[p].ikey.user;
    forall k | p <= k < |es| && es[k].ikey.seqno <= s
      ensures !Covered(es, s, p, es[k].ikey.user)
    {
      forall j | 0 <= j < p && es[j].ikey.user == es[k].ikey.user
        ensures es[j].ikey.seqno > s
      {
        assert Less(es[j].ikey, LookupKey(target, s)) && AtMost(LookupKey(target, s), es[k].ikey);
      }
    }
    forall k | u <= k < p
      ensures es[k].ikey.seqno > s
    {
      assert Less(es[k].ikey, LookupKey(target, s));
      assert k > u ==> Less(es[u].ikey, es[k].ikey);
    }
  }
}
