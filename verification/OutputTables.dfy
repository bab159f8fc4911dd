/** From the cut output of the compaction loop to table files. */
module OutputTables {
  import opened Keys
  import opened Files
  import opened DropRule
  import opened Versions
  import opened VersionSteps
  import opened CompactionLoop

  /** Tables cut out of one sorted run, in order. */
  ghost predicate Cuts(tables: seq<seq<Entry>>, run: seq<Entry>) {
    Flatten(tables) == run && forall t :: t in tables ==> t != []
  }

  lemma SortedParts(a: seq<Entry>, b: seq<Entry>)
    requires Sorted(a + b)
    ensures Sorted(a) && Sorted(b)
    ensures forall x, y :: x in a && y in b ==> Less(x.ikey, y.ikey)
  {
    var c := a + b;
    forall i, j | 0 <= i < j < |a|
      ensures Less(a[i].ikey, a[j].ikey)
    {
      assert c[i] == a[i] && c[j] == a[j];
    }
    forall i, j | 0 <= i < j < |b|
      ensures Less(b[i].ikey, b[j].ikey)
    {
      assert c[|a| + i] == b[i] && c[|a| + j] == b[j];
    }
    forall x, y | x in a && y in b
      ensures Less(x.ikey, y.ikey)
    {
      var i :| 0 <= i < |a| && a[i] == x;
      var j :| 0 <= j < |b| && b[j] == y;
      assert c[i] == x && c[|a| + j] == y;
    }
  }

  ghost predicate SmallSeqnos(es: seq<Entry>) {
    forall e :: e in es ==> e.ikey.seqno <= MAX_SEQUENCE
  }

  /** The files hold the run, table by table, and are numbered upwards from `first`. */
  ghost predicate Holds(files: seq<File>, run: seq<Entry>, first: nat) {
    && EntriesOf(files) == SetOf(run)
    && (forall i :: 0 <= i < |files| ==> files[i].number == first + i)
    && (forall i, j :: 0 <= i < j < |files| ==> Less(files[i].Largest(), files[j].Smallest()))
  }

  function Tables(files: seq<File>): seq<seq<Entry>> {
    seq(|files|, i requires 0 <= i < |files| => files[i].entries)
  }

  ghost predicate SizedBy(files: seq<File>, fileBytes: seq<Entry> -> nat) {
    forall f :: f in files ==> f.size == fileBytes(f.entries)
  }

  lemma TablesSnoc(files: seq<File>, f: File, fileBytes: seq<Entry> -> nat)
    requires SizedBy(files, fileBytes) && f.size == fileBytes(f.entries)
    ensures Tables(files + [f]) == Tables(files) + [f.entries] && SizedBy(files + [f], fileBytes)
  {
  }

  lemma NoTables(fileBytes: seq<Entry> -> nat)
    ensures Tables([]) == [] && SizedBy([], fileBytes)
  {
  }

  /** What a file of the next table needs. */
  lemma NextTable(tables: seq<seq<Entry>>, i: nat, run: seq<Entry>)
    requires Cuts(tables, run) && Sorted(run) && i < |tables|
    ensures tables[..i + 1] == tables[..i] + [tables[i]]
    ensures Flatten(tables[..i + 1]) == Flatten(tables[..i]) + tables[i]
    ensures tables[i] != [] && Sorted(tables[i])
    ensures forall x, y :: x in Flatten(tables[..i]) && y in tables[i] ==> Less(x.ikey, y.ikey)
    ensures forall e :: e in tables[i] ==> e in run
  {
    hide Flatten, Sorted, Less;
    assert tables[i] in tables;
    PrefixOfRun(tables, i + 1, run);
    FlattenSnoc(tables[..i], tables[i]);
    assert tables[..i + 1] == tables[..i] + [tables[i]];
    SortedParts(Flatten(tables[..i]), tables[i]);
    InRun(tables, i, run);
  }

  lemma CutsRun(tables: seq<seq<Entry>>, run: seq<Entry>)
    requires Cuts(tables, run)
    ensures Flatten(tables) == run
  {
  }

  /** Each output table becomes a file with the next file number. */
  method MakeFiles(tables: seq<seq<Entry>>, ghost run: seq<Entry>, first: nat, fileBytes: seq<Entry> -> nat)
    returns (files: seq<File>)
    requires Cuts(tables, run) && Sorted(run) && SmallSeqnos(run)
    ensures Tables(files) == tables && Holds(files, run, first) && SizedBy(files, fileBytes)
  {
    hide *;
    files := [];
    HoldsNothing(first);
    NoTables(fileBytes);
    for i := 0 to |tables|
      invariant |files| == i && Tables(files) == tables[..i] && SizedBy(files, fileBytes)
      invariant Holds(files, Flatten(tables[..i]), first)
    {
      NextTable(tables, i, run);
      ValidTable(FileData(first + i, fileBytes(tables[i]), tables[i]), run);
      var f: File := FileData(first + i, fileBytes(tables[i]), tables[i]);
      HoldsMore(files, Flatten(tables[..i]), first, f);
      TablesSnoc(files, f, fileBytes);
      files := files + [f];
    }
    assert tables[..|tables|] == tables;
    CutsRun(tables, run);
  }

  lemma ValidTable(f: FileData, run: seq<Entry>)
    requires f.entries != [] && Sorted(f.entries) && SmallSeqnos(run)
    requires forall e :: e in f.entries ==> e in run
    ensures f.Valid()
  {
  }

  lemma HoldsNothing(first: nat)
    ensures Holds([], Flatten([]), first)
  {
  }

  lemma HoldsMore(files: seq<File>, run: seq<Entry>, first: nat, f: File)
    requires Holds(files, run, first) && f.number == first + |files|
    requires forall x, y :: x in run && y in f.entries ==> Less(x.ikey, y.ikey)
    ensures Holds(files + [f], run + f.entries, first)
  {
    var r := files + [f];
    forall i | 0 <= i < |files|
      ensures Less(files[i].Largest(), f.Smallest())
    {
      var x := files[i].entries[|files[i].entries| - 1];
      assert files[i] in files && x in files[i].entries;
      assert x in EntriesOf(files);
      assert x in run;
    }
    forall e
      ensures e in EntriesOf(r) <==> e in SetOf(run + f.entries)
    {
      assert e in EntriesOf(r) <==> e in EntriesOf(files) || e in f.entries;
    }
  }

  lemma {:induction false} PrefixOfRun(tables: seq<seq<Entry>>, i: nat, run: seq<Entry>)
    requires i <= |tables| && Cuts(tables, run) && Sorted(run)
    ensures exists rest :: Flatten(tables[..i]) + rest == run
    ensures Sorted(Flatten(tables[..i]))
    decreases |tables| - i
  {
    if i == |tables| {
      assert tables[..i] == tables;
      assert Flatten(tables) + [] == run;
    } else {
      PrefixOfRun(tables, i + 1, run);
      assert tables[..i + 1] == tables[..i] + [tables[i]];
      FlattenSnoc(tables[..i], tables[i]);
      var rest :| Flatten(tables[..i + 1]) + rest == run;
      assert Flatten(tables[..i]) + (tables[i] + rest) == run;
      SortedParts(Flatten(tables[..i]), tables[i] + rest);
    }
  }

  lemma InRun(tables: seq<seq<Entry>>, i: nat, run: seq<Entry>)
    requires i < |tables| && Cuts(tables, run) && Sorted(run)
    ensures forall e :: e in tables[i] ==> e in run
  {
    PrefixOfRun(tables, i + 1, run);
    assert tables[..i + 1] == tables[..i] + [tables[i]];
    FlattenSnoc(tables[..i], tables[i]);
  }

  /** Files that hold a sorted run do not interleave and have different numbers. */
  lemma HeldApart(files: seq<File>, run: seq<Entry>, first: nat)
    requires Holds(files, run, first)
    ensures forall f, g :: f in files && g in files && f != g ==> Apart(f, g) && f.number != g.number
    ensures forall f :: f in files ==> first <= f.number < first + |files|
    ensures EntriesOf(files) == SetOf(run)
  {
  }
}
