/** What a read means: over a set of entries, and over the full history of writes. */
module Reads {
  import opened Keys

  /** One write; operation number `n` of the history (counting from 1) has sequence number `n`. */
  datatype Op = Op(user: UserKey, kind: Kind, value: Bytes)

  function EntryOf(op: Op, seqno: nat): Entry {
    Entry(IKey(op.user, seqno, op.kind), op.value)
  }

  /** The value of `user` after the first `s` operations: the last of them on that key decides. */
  function ReadHistory(h: seq<Op>, user: UserKey, s: nat): Option<Bytes>
    requires s <= |h|
  {
    if s == 0 then None
    else if h[s - 1].user != user then ReadHistory(h, user, s - 1)
    else if h[s - 1].kind == Deletion then None
    else Some(h[s - 1].value)
  }

  /** Sequence numbers identify entries of one user key. */
  ghost predicate Distinct(es: set<Entry>) {
    forall x, y :: x in es && y in es && x.ikey.user == y.ikey.user && x.ikey.seqno == y.ikey.seqno ==> x == y
  }

  ghost predicate IsNewest(es: set<Entry>, user: UserKey, s: nat, e: Entry) {
    && e in es && e.ikey.user == user && e.ikey.seqno <= s
    && forall x :: x in es && x.ikey.user == user && x.ikey.seqno <= s ==> x.ikey.seqno <= e.ikey.seqno
  }

  ghost predicate HasEntry(es: set<Entry>, user: UserKey, s: nat) {
    exists e :: e in es && e.ikey.user == user && e.ikey.seqno <= s
  }

  /** The answer of a read of `user` at snapshot `s`: the newest entry not after `s` decides. */
  ghost function Answer(es: set<Entry>, user: UserKey, s: nat): Option<Bytes> {
    if exists e :: IsNewest(es, user, s, e) && e.ikey.kind == Value
    then var e :| IsNewest(es, user, s, e) && e.ikey.kind == Value; Some(e.value)
    else None
  }

  lemma AnswerIs(es: set<Entry>, user: UserKey, s: nat, e: Entry)
    requires Distinct(es) && IsNewest(es, user, s, e)
    ensures Answer(es, user, s) == if e.ikey.kind == Value then Some(e.value) else None
  {
    forall x | IsNewest(es, user, s, x)
      ensures x == e
    {
    }
  }

  lemma AnswerNone(es: set<Entry>, user: UserKey, s: nat)
    requires !HasEntry(es, user, s)
    ensures Answer(es, user, s) == None
  {
  }

  lemma {:induction false} NewestExists(es: set<Entry>, user: UserKey, s: nat)
    requires HasEntry(es, user, s)
    ensures exists e :: IsNewest(es, user, s, e)
  {
    var e :| e in es && e.ikey.user == user && e.ikey.seqno <= s;
    var rest := es - {e};
    if HasEntry(rest, user, s) {
      NewestExists(rest, user, s);
      var x :| IsNewest(rest, user, s, x);
      assert IsNewest(es, user, s, if x.ikey.seqno >= e.ikey.seqno then x else e);
    } else {
      assert IsNewest(es, user, s, e) by {
        forall x | x in es && x.ikey.user == user && x.ikey.seqno <= s
          ensures x == e
        {
          assert x != e ==> x in rest;
        }
      }
    }
  }

  /** Newer above older, for one user key: nothing in `below` is newer than anything in `above`. */
  ghost predicate Above(above: set<Entry>, below: set<Entry>) {
    forall x, y :: x in above && y in below && x.ikey.user == y.ikey.user ==> Less(x.ikey, y.ikey)
  }

  lemma AboveApart(above: set<Entry>, below: set<Entry>)
    requires Above(above, below)
    ensures above !! below
  {
    forall x | x in above
      ensures x !in below
    {
      assert !Less(x.ikey, x.ikey);
    }
  }

  /** A layered search may stop at the first layer that has an entry. */
  lemma LayeredAnswer(above: set<Entry>, below: set<Entry>, user: UserKey, s: nat)
    requires Distinct(above + below) && Above(above, below)
    ensures Answer(above + below, user, s) ==
      if HasEntry(above, user, s) then Answer(above, user, s) else Answer(below, user, s)
  {
    var all := above + below;
    assert Distinct(above) && Distinct(below);
    if HasEntry(above, user, s) {
      NewestExists(above, user, s);
      var e :| IsNewest(above, user, s, e);
      assert IsNewest(all, user, s, e);
      AnswerIs(above, user, s, e);
      AnswerIs(all, user, s, e);
    } else if HasEntry(below, user, s) {
      NewestExists(below, user, s);
      var e :| IsNewest(below, user, s, e);
      assert IsNewest(all, user, s, e);
      AnswerIs(below, user, s, e);
      AnswerIs(all, user, s, e);
    } else {
      AnswerNone(all, user, s);
      AnswerNone(below, user, s);
    }
  }

  /** Every entry is the operation of the history that its sequence number names. */
  ghost predicate FromHistory(es: set<Entry>, h: seq<Op>) {
    forall e :: e in es ==> 1 <= e.ikey.seqno <= |h| && e == EntryOf(h[e.ikey.seqno - 1], e.ikey.seqno)
  }

  ghost predicate Agrees(es: set<Entry>, h: seq<Op>, floor: nat) {
    forall user, s :: floor <= s <= |h| ==> Answer(es, user, s) == ReadHistory(h, user, s)
  }

  lemma {:induction false} HistoryPrefix(h: seq<Op>, op: Op, user: UserKey, s: nat)
    requires s <= |h|
    ensures ReadHistory(h + [op], user, s) == ReadHistory(h, user, s)
  {
    if s > 0 {
      HistoryPrefix(h, op, user, s - 1);
    }
  }

  /** Adding the next operation to both sides keeps them in agreement. */
  lemma WriteAgrees(es: set<Entry>, h: seq<Op>, floor: nat, op: Op)
    requires FromHistory(es, h) && Agrees(es, h, floor) && floor <= |h|
    ensures FromHistory(es + {EntryOf(op, |h| + 1)}, h + [op])
    ensures Agrees(es + {EntryOf(op, |h| + 1)}, h + [op], floor)
  {
    var n := |h| + 1;
    var e := EntryOf(op, n);
    var es', h' := es + {e}, h + [op];
    forall x | x in es'
      ensures 1 <= x.ikey.seqno <= n && x == EntryOf(h'[x.ikey.seqno - 1], x.ikey.seqno)
    {
    }
    forall user, s | floor <= s <= n
      ensures Answer(es', user, s) == ReadHistory(h', user, s)
    {
      assert Above({e}, es);
      assert es' == {e} + es;
      LayeredAnswer({e}, es, user, s);
      if s == n && op.user == user {
        assert IsNewest({e}, user, s, e);
        AnswerIs({e}, user, s, e);
      } else {
        assert !HasEntry({e}, user, s);
        var t := if s == n then |h| else s;
        SameBelow(es, user, s, t);
        HistoryPrefix(h, op, user, t);
      }
    }
  }

  /** Snapshots with no entry between them read alike. */
  lemma SameBelow(es: set<Entry>, user: UserKey, s: nat, t: nat)
    requires Distinct(es) && t <= s
    requires forall x :: x in es && x.ikey.user == user ==> !(t < x.ikey.seqno <= s)
    ensures Answer(es, user, s) == Answer(es, user, t)
  {
    if HasEntry(es, user, s) {
      NewestExists(es, user, s);
      var e :| IsNewest(es, user, s, e);
      assert IsNewest(es, user, t, e);
      AnswerIs(es, user, s, e);
      AnswerIs(es, user, t, e);
    } else {
      AnswerNone(es, user, s);
      AnswerNone(es, user, t);
    }
  }
}
