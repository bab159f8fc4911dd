/** Table files as the version set sees them, and the searches over one level's file list. */
module Files {
  import opened Keys

  /** `FileMetaData` together with the entries of the table it describes. */
  datatype FileData = FileData(number: nat, size: nat, entries: seq<Entry>) {
    ghost predicate Valid() {
      && entries != []
      && Sorted(entries)
      && (forall e :: e in entries ==> e.ikey.seqno <= MAX_SEQUENCE)
    }

    function Smallest(): IKey requires entries != [] { entries[0].ikey }

    function Largest(): IKey requires entries != [] { entries[|entries| - 1].ikey }
  }

  /** Tables are built from at least one entry, in internal-key order. */
  type File = f: FileData | f.Valid() witness FileData(0, 0, [Entry(IKey(0.0, 0, Value), [])])

  /** Levels 1 and deeper: every file ends before the next one begins. */
  ghost predicate Disjoint(files: seq<File>) {
    forall i, j :: 0 <= i < j < |files| ==> Less(files[i].Largest(), files[j].Smallest())
  }

  lemma EntryInRange(f: File, e: Entry)
    requires e in f.entries
    ensures AtMost(f.Smallest(), e.ikey) && AtMost(e.ikey, f.Largest())
    ensures f.Smallest().user <= e.ikey.user <= f.Largest().user
  {
    var i :| 0 <= i < |f.entries| && f.entries[i] == e;
  }

  /** A user-key bound; `None` is the null slice: before everything below, after everything above. */
  type Bound = Option<UserKey>

  predicate AfterFile(user: Bound, f: File) {
    user.Some? && user.value > f.Largest().user
  }

  predicate BeforeFile(user: Bound, f: File) {
    user.Some? && user.value < f.Smallest().user
  }

  predicate Overlaps(f: File, lo: Bound, hi: Bound) {
    !AfterFile(lo, f) && !BeforeFile(hi, f)
  }

  /** Binary search for the first file whose largest key is at or after `key`. */
  method FindFile(files: seq<File>, key: IKey) returns (right: nat)
    requires Disjoint(files)
    ensures right <= |files|
    ensures forall i :: 0 <= i < right ==> Less(files[i].Largest(), key)
    ensures forall i :: right <= i < |files| ==> !Less(files[i].Largest(), key)
  {
    var left := 0;
    right := |files|;
    while left < right
      invariant 0 <= left <= right <= |files|
      invariant forall i :: 0 <= i < left ==> Less(files[i].Largest(), key)
      invariant forall i :: right <= i < |files| ==> !Less(files[i].Largest(), key)
    {
      var mid := (left + right) / 2;
      SpanIsOrdered(files, mid);
      if Less(files[mid].Largest(), key) {
        left := mid + 1;
      } else {
        right := mid;
      }
    }
  }

  lemma SpanIsOrdered(files: seq<File>, mid: nat)
    requires Disjoint(files) && mid < |files|
    ensures forall i :: 0 <= i < mid ==> Less(files[i].Largest(), files[mid].Largest())
    ensures forall i :: mid < i < |files| ==> Less(files[mid].Largest(), files[i].Largest())
    ensures forall i :: 0 <= i < |files| ==> AtMost(files[i].Smallest(), files[i].Largest())
  {
    forall i | 0 <= i < |files|
      ensures AtMost(files[i].Smallest(), files[i].Largest())
    {
      EntryInRange(files[i], files[i].entries[0]);
    }
  }

  /** Does any file overlap the user-key range?  A scan, or a binary search on a disjoint level. */
  method SomeFileOverlapsRange(disjoint: bool, files: seq<File>, lo: Bound, hi: Bound) returns (r: bool)
    requires disjoint ==> Disjoint(files)
    ensures r <==> exists f :: f in files && Overlaps(f, lo, hi)
  {
    if !disjoint {
      for i := 0 to |files|
        invariant forall j :: 0 <= j < i ==> !Overlaps(files[j], lo, hi)
      {
        if !(AfterFile(lo, files[i]) || BeforeFile(hi, files[i])) {
          assert files[i] in files && Overlaps(files[i], lo, hi);
          return true;
        }
      }
      return false;
    }
    var index := 0;
    if lo.Some? {
      index := FindFile(files, LookupKey(lo.value, MAX_SEQUENCE));
    }
    forall i | 0 <= i < |files|
      ensures AfterFile(lo, files[i]) <==> i < index
    {
      LargestAgainstLookup(files[i], lo);
    }
    if index >= |files| {
      return false;
    }
    SpanIsOrdered(files, index);
    r := !BeforeFile(hi, files[index]);
    assert r ==> Overlaps(files[index], lo, hi);
  }

  lemma LargestAgainstLookup(f: File, lo: Bound)
    ensures lo.Some? ==> (Less(f.Largest(), LookupKey(lo.value, MAX_SEQUENCE)) <==> AfterFile(lo, f))
  {
    assert f.entries[|f.entries| - 1] in f.entries;
  }

  function TotalFileSize(files: seq<File>): nat {
    if files == [] then 0 else files[0].size + TotalFileSize(files[1..])
  }

  lemma {:induction false} SizeSnoc(files: seq<File>, k: nat)
    requires k < |files|
    ensures TotalFileSize(files[..k + 1]) == TotalFileSize(files[..k]) + files[k].size
  {
    if k > 0 {
      SizeSnoc(files[1..], k - 1);
      assert files[..k + 1][1..] == files[1..][..k];
      assert files[..k][1..] == files[1..][..k - 1];
    }
  }
}
