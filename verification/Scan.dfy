/** What a scan shows: the rows of the iterator are exactly the answers of reads, in key order. */
module Scan {
  import opened Keys
  import opened Reads
  import opened DropRule
  import opened DbIter

  lemma RowAnswers(es: seq<Entry>, s: nat, i: nat)
    requires Sorted(es) && Distinct(SetOf(es)) && IsRow(es, s, i)
    ensures Answer(SetOf(es), es[i].ikey.user, s) == Some(es[i].value)
  {
    assert es[i] in SetOf(es);
    forall x | x in SetOf(es) && x.ikey.user == es[i].ikey.user && x.ikey.seqno <= s
      ensures x.ikey.seqno <= es[i].ikey.seqno
    {
      var j :| 0 <= j < |es| && es[j] == x;
      assert j > i ==> Less(es[i].ikey, es[j].ikey);
    }
    AnswerIs(SetOf(es), es[i].ikey.user, s, es[i]);
  }

  lemma AnswerHasRow(es: seq<Entry>, s: nat, user: UserKey)
    requires Sorted(es) && Distinct(SetOf(es)) && Answer(SetOf(es), user, s) != None
    ensures exists i: nat :: IsRow(es, s, i) && es[i].ikey.user == user
  {
    var e :| IsNewest(SetOf(es), user, s, e) && e.ikey.kind == Value;
    var i :| 0 <= i < |es| && es[i] == e;
    forall j | 0 <= j < i && es[j].ikey.user == user
      ensures es[j].ikey.seqno > s
    {
      assert es[j] in SetOf(es);
      assert Less(es[j].ikey, es[i].ikey);
    }
    assert IsRow(es, s, i);
  }

  /**
   The rows at snapshot `s` are the keys that a read at `s` finds, each once, with the value that
   read returns, in ascending key order.
   */
  lemma RowsAreTheAnswers(es: seq<Entry>, s: nat)
    requires Sorted(es) && Distinct(SetOf(es))
    ensures forall i: nat :: IsRow(es, s, i) ==> Answer(SetOf(es), es[i].ikey.user, s) == Some(es[i].value)
    ensures forall user :: Answer(SetOf(es), user, s) != None ==> exists i: nat :: IsRow(es, s, i) && es[i].ikey.user == user
    ensures forall i: nat, j: nat :: IsRow(es, s, i) && IsRow(es, s, j) && i < j ==> es[i].ikey.user < es[j].ikey.user
  {
    hide Answer, Distinct;
    forall i: nat | IsRow(es, s, i)
      ensures Answer(SetOf(es), es[i].ikey.user, s) == Some(es[i].value)
    {
      RowAnswers(es, s, i);
    }
    forall user | Answer(SetOf(es), user, s) != None
      ensures exists i: nat :: IsRow(es, s, i) && es[i].ikey.user == user
    {
      AnswerHasRow(es, s, user);
    }
    forall i: nat, j: nat | IsRow(es, s, i) && IsRow(es, s, j) && i < j
      ensures es[i].ikey.user < es[j].ikey.user
    {
      assert Less(es[i].ikey, es[j].ikey);
    }
  }
}
