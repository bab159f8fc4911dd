/** Which entries a compaction drops, and exactly when that preserves every promised read. */
module DropRule {
  import opened Keys
  import opened Reads

  /** A newer entry of the same user key, itself visible at `smallest`, hides entry `i`. */
  ghost predicate Hidden(es: seq<Entry>, i: nat, smallest: nat)
    requires i < |es|
  {
    exists j :: 0 <= j < i && es[j].ikey.user == es[i].ikey.user && es[j].ikey.seqno <= smallest
  }

  ghost predicate Obsolete(e: Entry, smallest: nat, base: iset<UserKey>) {
    e.ikey.kind == Deletion && e.ikey.seqno <= smallest && e.ikey.user in base
  }

  ghost predicate Dropped(es: seq<Entry>, i: nat, smallest: nat, base: iset<UserKey>)
    requires i < |es|
  {
    Hidden(es, i, smallest) || Obsolete(es[i], smallest, base)
  }

  /** What is left of the first `n` entries. */
  ghost function Kept(es: seq<Entry>, n: nat, smallest: nat, base: iset<UserKey>): (r: seq<Entry>)
    requires n <= |es|
    ensures forall e :: e in r <==> exists i :: 0 <= i < n && e == es[i] && !Dropped(es, i, smallest, base)
  {
    if n == 0 then []
    else
      var r := Kept(es, n - 1, smallest, base);
      if Dropped(es, n - 1, smallest, base) then r else r + [es[n - 1]]
  }

  lemma {:induction false} KeptSorted(es: seq<Entry>, n: nat, smallest: nat, base: iset<UserKey>)
    requires n <= |es| && Sorted(es)
    ensures Sorted(Kept(es, n, smallest, base))
  {
    if n > 0 {
      KeptSorted(es, n - 1, smallest, base);
      forall e | e in Kept(es, n - 1, smallest, base)
        ensures Less(e.ikey, es[n - 1].ikey)
      {
      }
    }
  }

  function SetOf(es: seq<Entry>): set<Entry> { set e | e in es }

  /**
   Where the entries stand when a compaction runs: `inputs` is the merged input, `shallow` is
   everything newer for the same user keys, `deep` what lies two levels or more below, and
   `siblings` the entries of the output level that are not inputs.
   */
  datatype Layout = Layout(shallow: set<Entry>, inputs: seq<Entry>, siblings: set<Entry>, deep: set<Entry>) {
    ghost predicate Valid(base: iset<UserKey>) {
      && Sorted(inputs)
      && Distinct(Before())
      && SetOf(inputs) !! siblings + shallow + deep
      && Above(shallow, SetOf(inputs) + siblings)
      && Above(SetOf(inputs), deep)
      && (forall e :: e in deep ==> e.ikey.user !in base)
    }

    ghost function Before(): set<Entry> { shallow + SetOf(inputs) + siblings + deep }

    ghost function After(smallest: nat, base: iset<UserKey>): set<Entry> {
      shallow + SetOf(Kept(inputs, |inputs|, smallest, base)) + siblings + deep
    }

    /**
     A dropped tombstone was the newest entry of its key at `smallest`, and the next older one,
     left behind in a neighbouring file of the output level, is a value.
     */
    ghost predicate Exposes(user: UserKey, t: Entry, y: Entry, smallest: nat, base: iset<UserKey>) {
      && t in inputs && IsNewest(Before(), user, smallest, t) && Obsolete(t, smallest, base)
      && IsNewest(siblings, user, t.ikey.seqno, y) && y.ikey.kind == Value
    }

    ghost predicate ReadsKept(smallest: nat, base: iset<UserKey>) {
      forall user, s :: smallest <= s ==> Answer(After(smallest, base), user, s) == Answer(Before(), user, s)
    }
  }

  lemma EarlierIsNewer(es: seq<Entry>, i: nat, j: nat)
    requires Sorted(es) && Distinct(SetOf(es)) && i < |es| && j < |es| && es[i].ikey.user == es[j].ikey.user
    ensures i < j <==> es[i].ikey.seqno > es[j].ikey.seqno
  {
    assert es[i] in SetOf(es) && es[j] in SetOf(es);
  }

  /** What can be left of a key whose newest entry was dropped: only siblings. */
  lemma OnlySiblingsLeft(l: Layout, smallest: nat, base: iset<UserKey>, user: UserKey, s: nat, i: nat, x: Entry)
    requires l.Valid(base) && smallest <= s && i < |l.inputs|
    requires IsNewest(l.Before(), user, s, l.inputs[i]) && Dropped(l.inputs, i, smallest, base)
    requires x in l.After(smallest, base) && x.ikey.user == user && x.ikey.seqno <= s
    ensures Obsolete(l.inputs[i], smallest, base)
    ensures x in l.siblings && x.ikey.seqno < l.inputs[i].ikey.seqno
  {
    DroppedNewest(l, smallest, base, user, s, i);
    var e := l.inputs[i];
    assert e in SetOf(l.inputs) && x in l.Before();
    if x in Kept(l.inputs, |l.inputs|, smallest, base) {
      var k :| 0 <= k < |l.inputs| && x == l.inputs[k] && !Dropped(l.inputs, k, smallest, base);
      assert Distinct(SetOf(l.inputs));
      EarlierIsNewer(l.inputs, i, k);
      assert false;
    }
    assert x in l.deep ==> x.ikey.user !in base;
    assert x in l.shallow ==> Less(x.ikey, e.ikey);
  }

  lemma DroppedNewest(l: Layout, smallest: nat, base: iset<UserKey>, user: UserKey, s: nat, i: nat)
    requires l.Valid(base) && smallest <= s && i < |l.inputs|
    requires IsNewest(l.Before(), user, s, l.inputs[i]) && Dropped(l.inputs, i, smallest, base)
    ensures Obsolete(l.inputs[i], smallest, base)
    ensures l.inputs[i] !in l.After(smallest, base)
  {
    var e := l.inputs[i];
    assert e in SetOf(l.inputs);
    if Hidden(l.inputs, i, smallest) {
      var j :| 0 <= j < i && l.inputs[j].ikey.user == user && l.inputs[j].ikey.seqno <= smallest;
      assert l.inputs[j] in SetOf(l.inputs);
      EarlierIsNewer(l.inputs, j, i);
      assert false;
    }
    forall k | 0 <= k < |l.inputs| && e == l.inputs[k]
      ensures k == i
    {
      EarlierIsNewer(l.inputs, i, k);
      EarlierIsNewer(l.inputs, k, i);
    }
  }

  lemma AfterIsSmaller(l: Layout, smallest: nat, base: iset<UserKey>)
    ensures l.After(smallest, base) <= l.Before()
  {
  }

  lemma KeptRead(l: Layout, smallest: nat, base: iset<UserKey>, user: UserKey, s: nat)
    requires l.Valid(base) && smallest <= s
    requires forall t, y :: !l.Exposes(user, t, y, smallest, base)
    ensures Answer(l.After(smallest, base), user, s) == Answer(l.Before(), user, s)
  {
    AfterIsSmaller(l, smallest, base);
    var before, after := l.Before(), l.After(smallest, base);
    if !HasEntry(before, user, s) {
      AnswerNone(before, user, s);
      AnswerNone(after, user, s);
    } else {
      NewestExists(before, user, s);
      var e :| IsNewest(before, user, s, e);
      AnswerIs(before, user, s, e);
      if e in after {
        AnswerIs(after, user, s, e);
      } else {
        assert e in l.inputs;
        var i :| 0 <= i < |l.inputs| && l.inputs[i] == e;
        assert Dropped(l.inputs, i, smallest, base);
        DroppedNewest(l, smallest, base, user, s, i);
        ExposedRead(l, smallest, base, user, s, i);
      }
    }
  }

  /** After dropping the newest entry of a key, the newest older sibling answers. */
  lemma ExposedRead(l: Layout, smallest: nat, base: iset<UserKey>, user: UserKey, s: nat, i: nat)
    requires l.Valid(base) && smallest <= s && i < |l.inputs|
    requires IsNewest(l.Before(), user, s, l.inputs[i]) && Dropped(l.inputs, i, smallest, base)
    ensures Answer(l.After(smallest, base), user, s) != None <==>
      exists y :: l.Exposes(user, l.inputs[i], y, smallest, base)
  {
    var after, t := l.After(smallest, base), l.inputs[i];
    DroppedNewest(l, smallest, base, user, s, i);
    assert IsNewest(l.Before(), user, smallest, t);
    AfterIsSmaller(l, smallest, base);
    forall x | x in after && x.ikey.user == user && x.ikey.seqno <= s
      ensures x in l.siblings && x.ikey.seqno < t.ikey.seqno
    {
      OnlySiblingsLeft(l, smallest, base, user, s, i, x);
    }
    if HasEntry(l.siblings, user, t.ikey.seqno) {
      NewestExists(l.siblings, user, t.ikey.seqno);
      var y :| IsNewest(l.siblings, user, t.ikey.seqno, y);
      assert IsNewest(after, user, s, y);
      AnswerIs(after, user, s, y);
      assert l.Exposes(user, t, y, smallest, base) <==> y.ikey.kind == Value;
      assert Distinct(l.siblings);
    } else {
      assert !HasEntry(after, user, s);
      AnswerNone(after, user, s);
    }
  }

  /**
   The drop rule preserves every read at `smallest` or later exactly when no dropped tombstone
   exposes an older value that was left behind at the output level.
   */
  lemma DropRuleIsExact(l: Layout, smallest: nat, base: iset<UserKey>)
    requires l.Valid(base)
    ensures l.ReadsKept(smallest, base) <==>
      forall user, t, y :: !l.Exposes(user, t, y, smallest, base)
  {
    if forall user, t, y :: !l.Exposes(user, t, y, smallest, base) {
      forall user, s | smallest <= s
        ensures Answer(l.After(smallest, base), user, s) == Answer(l.Before(), user, s)
      {
        KeptRead(l, smallest, base, user, s);
      }
    } else {
      var user, t, y :| l.Exposes(user, t, y, smallest, base);
      var i :| 0 <= i < |l.inputs| && l.inputs[i] == t;
      ExposedRead(l, smallest, base, user, smallest, i);
      AnswerIs(l.Before(), user, smallest, t);
    }
  }
}
