/** Choosing compaction inputs: range overlap with restart, boundary files, expansion. */
module Selection {
  import opened Keys
  import opened Files

  /** The files whose user-key range meets [lo, hi], in list order. */
  function Select(files: seq<File>, lo: Bound, hi: Bound): (r: seq<File>)
    ensures forall f :: f in r <==> f in files && Overlaps(f, lo, hi)
    ensures |r| <= |files|
  {
    if files == [] then []
    else
      var rest := Select(files[..|files| - 1], lo, hi);
      var last := files[|files| - 1];
      assert files == files[..|files| - 1] + [last];
      if Overlaps(last, lo, hi) then rest + [last] else rest
  }

  /** [lo, hi] lies inside [l, h]. */
  predicate Within(lo: Bound, hi: Bound, l: Bound, h: Bound) {
    && (l.Some? ==> lo.Some? && l.value <= lo.value)
    && (h.Some? ==> hi.Some? && hi.value <= h.value)
  }

  predicate Inside(f: File, lo: Bound, hi: Bound) {
    && (lo.Some? ==> lo.value <= f.Smallest().user)
    && (hi.Some? ==> f.Largest().user <= hi.value)
  }

  /** No file straddles the end of the range. */
  ghost predicate Closed(files: seq<File>, lo: Bound, hi: Bound) {
    forall f :: f in files && Overlaps(f, lo, hi) ==> Inside(f, lo, hi)
  }

  ghost function Straddling(files: seq<File>, lo: Bound, hi: Bound): nat {
    if files == [] then 0
    else
      Straddling(files[1..], lo, hi)
      + (if lo.Some? && files[0].Smallest().user < lo.value then 1 else 0)
      + (if hi.Some? && files[0].Largest().user > hi.value then 1 else 0)
  }

  /** Every closed range around [begin, end] contains [lo, hi]. */
  ghost predicate Least(files: seq<File>, begin: Bound, end: Bound, lo: Bound, hi: Bound) {
    forall l, h :: Closed(files, l, h) && Within(begin, end, l, h) ==> Within(lo, hi, l, h)
  }

  lemma StartsLeast(files: seq<File>, begin: Bound, end: Bound)
    ensures Least(files, begin, end, begin, end) && Closed([], begin, end)
  {
  }

  lemma ClosedEmpty(lo: Bound, hi: Bound)
    ensures Closed([], lo, hi)
  {
  }

  lemma SelectSnoc(files: seq<File>, i: nat, lo: Bound, hi: Bound)
    requires i < |files|
    ensures Select(files[..i + 1], lo, hi) ==
      Select(files[..i], lo, hi) + (if Overlaps(files[i], lo, hi) then [files[i]] else [])
    ensures Closed(files[..i + 1], lo, hi) <==>
      Closed(files[..i], lo, hi) && (Overlaps(files[i], lo, hi) ==> Inside(files[i], lo, hi))
  {
    assert files[..i + 1][..i] == files[..i];
    assert files[..i + 1] == files[..i] + [files[i]];
  }

  lemma WideningIsForced(files: seq<File>, f: File, begin: Bound, end: Bound, lo: Bound, hi: Bound)
    requires Least(files, begin, end, lo, hi)
    requires f in files && Overlaps(f, lo, hi)
    ensures lo.Some? && f.Smallest().user < lo.value ==> Least(files, begin, end, Some(f.Smallest().user), hi)
    ensures hi.Some? && f.Largest().user > hi.value ==> Least(files, begin, end, lo, Some(f.Largest().user))
  {
    forall l, h | Closed(files, l, h) && Within(begin, end, l, h)
      ensures Inside(f, l, h) && Within(lo, hi, l, h)
    {
      assert Within(lo, hi, l, h);
      assert Overlaps(f, l, h);
    }
  }

  lemma {:induction false} WideningCuts(files: seq<File>, lo: Bound, hi: Bound, l: Bound, h: Bound)
    requires Within(lo, hi, l, h) && l.Some? == lo.Some? && h.Some? == hi.Some?
    ensures Straddling(files, l, h) <= Straddling(files, lo, hi)
  {
    if files != [] {
      WideningCuts(files[1..], lo, hi, l, h);
    }
  }

  /** The overlap with the least range that contains the one asked for and is closed under overlap. */
  ghost predicate LeastOverlap(files: seq<File>, begin: Bound, end: Bound, inputs: seq<File>) {
    exists lo, hi ::
      Within(begin, end, lo, hi) && Closed(files, lo, hi) && Least(files, begin, end, lo, hi) && inputs == Select(files, lo, hi)
  }

  /**
   `Version::GetOverlappingInputs`.  On level 0 a file that sticks out of the range widens it and
   restarts the scan; the result is then the overlap with the least range that contains [begin, end]
   and is closed under overlap.
   */
  method GetOverlappingInputs(level: nat, files: seq<File>, begin: Bound, end: Bound)
    returns (inputs: seq<File>, ghost lo: Bound, ghost hi: Bound)
    ensures inputs == Select(files, lo, hi)
    ensures level > 0 ==> lo == begin && hi == end
    ensures level == 0 ==>
      Within(begin, end, lo, hi) && Closed(files, lo, hi) && Least(files, begin, end, lo, hi)
    ensures if level > 0 then inputs == Select(files, begin, end) else LeastOverlap(files, begin, end, inputs)
  {
    hide Least, Straddling, Closed;
    inputs := [];
    var userBegin, userEnd := begin, end;
    var i := 0;
    StartsLeast(files, begin, end);
    while i < |files|
      invariant 0 <= i <= |files|
      invariant userBegin.Some? == begin.Some? && userEnd.Some? == end.Some?
      invariant Within(begin, end, userBegin, userEnd)
      invariant level > 0 ==> userBegin == begin && userEnd == end
      invariant inputs == Select(files[..i], userBegin, userEnd)
      invariant level == 0 ==> Closed(files[..i], userBegin, userEnd)
      invariant Least(files, begin, end, userBegin, userEnd)
      decreases Straddling(files, userBegin, userEnd), |files| - i
    {
      var f := files[i];
      SelectSnoc(files, i, userBegin, userEnd);
      i := i + 1;
      if userBegin.Some? && f.Largest().user < userBegin.value {
        // completely before the range
      } else if userEnd.Some? && f.Smallest().user > userEnd.value {
        // completely after the range
      } else {
        inputs := inputs + [f];
        if level == 0 {
          WideningIsForced(files, f, begin, end, userBegin, userEnd);
          if begin.Some? && f.Smallest().user < userBegin.value {
            StraddlerCuts(files, f, userBegin, userEnd);
            userBegin := Some(f.Smallest().user);
            ClosedEmpty(userBegin, userEnd);
            inputs, i := [], 0;
          } else if end.Some? && f.Largest().user > userEnd.value {
            StraddlerCuts(files, f, userBegin, userEnd);
            userEnd := Some(f.Largest().user);
            ClosedEmpty(userBegin, userEnd);
            inputs, i := [], 0;
          }
        }
      }
    }
    assert files[..i] == files;
    lo, hi := userBegin, userEnd;
  }

  /** Termination of the restarts: widening to a straddling file leaves fewer ends outside. */
  lemma {:induction false} StraddlerCuts(files: seq<File>, f: File, lo: Bound, hi: Bound)
    requires f in files
    ensures lo.Some? && f.Smallest().user < lo.value ==>
      Straddling(files, Some(f.Smallest().user), hi) < Straddling(files, lo, hi)
    ensures hi.Some? && f.Largest().user > hi.value ==>
      Straddling(files, lo, Some(f.Largest().user)) < Straddling(files, lo, hi)
  {
    if lo.Some? && f.Smallest().user < lo.value {
      WideningCuts(files[1..], lo, hi, Some(f.Smallest().user), hi);
    }
    if hi.Some? && f.Largest().user > hi.value {
      WideningCuts(files[1..], lo, hi, lo, Some(f.Largest().user));
    }
    if f != files[0] {
      assert files == [files[0]] + files[1..];
      StraddlerCuts(files[1..], f, lo, hi);
    }
  }

  // ---------------------------------------------------------------- boundary files

  /** `largest` bounds the inputs from above and one of them reaches it. */
  ghost predicate IsLargest(inputs: seq<File>, largest: IKey) {
    && (exists f :: f in inputs && f.Largest() == largest)
    && (forall f :: f in inputs ==> AtMost(f.Largest(), largest))
  }

  ghost predicate IsSmallest(inputs: seq<File>, smallest: IKey) {
    && (exists f :: f in inputs && f.Smallest() == smallest)
    && (forall f :: f in inputs ==> AtMost(smallest, f.Smallest()))
  }

  method FindLargestKey(files: seq<File>) returns (r: Option<IKey>)
    ensures r == None <==> files == []
    ensures r.Some? ==> IsLargest(files, r.value)
  {
    if files == [] {
      return None;
    }
    var largest := files[0].Largest();
    for i := 1 to |files|
      invariant IsLargest(files[..i], largest)
    {
      var f := files[i];
      assert files[..i + 1] == files[..i] + [f];
      if Less(largest, f.Largest()) {
        largest := f.Largest();
      }
    }
    assert files[..|files|] == files;
    r := Some(largest);
  }

  method GetRange(inputs: seq<File>) returns (smallest: IKey, largest: IKey)
    requires inputs != []
    ensures IsSmallest(inputs, smallest) && IsLargest(inputs, largest)
  {
    smallest, largest := inputs[0].Smallest(), inputs[0].Largest();
    ghost var s, l := 0, 0;
    for i := 1 to |inputs|
      invariant s < |inputs| && inputs[s].Smallest() == smallest
      invariant l < |inputs| && inputs[l].Largest() == largest
      invariant forall k :: 0 <= k < i ==> AtMost(smallest, inputs[k].Smallest())
      invariant forall k :: 0 <= k < i ==> AtMost(inputs[k].Largest(), largest)
    {
      if Less(inputs[i].Smallest(), smallest) {
        smallest, s := inputs[i].Smallest(), i;
      }
      if Less(largest, inputs[i].Largest()) {
        largest, l := inputs[i].Largest(), i;
      }
    }
    assert inputs[s] in inputs && inputs[l] in inputs;
  }

  /** A file that starts after `largest` with the same user key. */
  predicate IsBoundary(f: File, largest: IKey) {
    Less(largest, f.Smallest()) && f.Smallest().user == largest.user
  }

  method FindSmallestBoundaryFile(files: seq<File>, largest: IKey) returns (r: Option<File>)
    ensures r == None ==> forall f :: f in files ==> !IsBoundary(f, largest)
    ensures r.Some? ==> r.value in files && IsBoundary(r.value, largest)
    ensures r.Some? ==> forall f :: f in files && IsBoundary(f, largest) ==> AtMost(r.value.Smallest(), f.Smallest())
  {
    r := None;
    for i := 0 to |files|
      invariant r == None ==> forall f :: f in files[..i] ==> !IsBoundary(f, largest)
      invariant r.Some? ==> r.value in files && IsBoundary(r.value, largest)
      invariant r.Some? ==>
        forall f :: f in files[..i] && IsBoundary(f, largest) ==> AtMost(r.value.Smallest(), f.Smallest())
    {
      var f := files[i];
      assert files[..i + 1] == files[..i] + [f];
      if Less(largest, f.Smallest()) && f.Smallest().user == largest.user {
        if r == None || Less(f.Smallest(), r.value.Smallest()) {
          r := Some(f);
        }
      }
    }
    assert files[..|files|] == files;
  }

  /** On a disjoint level: past every neighbour that continues the user key ending just before `j`. */
  function BoundaryEnd(files: seq<File>, j: nat): (r: nat)
    requires 0 < j <= |files|
    ensures j <= r <= |files|
    ensures r < |files| ==> files[r].Smallest().user != files[r - 1].Largest().user
    decreases |files| - j
  {
    if j < |files| && files[j].Smallest().user == files[j - 1].Largest().user
    then BoundaryEnd(files, j + 1) else j
  }

  ghost function StartingAfter(files: seq<File>, key: IKey): nat {
    if files == [] then 0
    else StartingAfter(files[1..], key) + (if Less(key, files[0].Smallest()) then 1 else 0)
  }

  lemma {:induction false} StartingAfterDrops(files: seq<File>, low: IKey, high: IKey)
    requires Less(low, high)
    ensures StartingAfter(files, high) <= StartingAfter(files, low)
  {
    if files != [] {
      StartingAfterDrops(files[1..], low, high);
    }
  }

  lemma {:induction false} PassingDrops(files: seq<File>, k: nat, low: IKey)
    requires k < |files| && Less(low, files[k].Smallest())
    ensures StartingAfter(files, files[k].Largest()) < StartingAfter(files, low)
  {
    EntryInRange(files[k], files[k].entries[0]);
    StartingAfterDrops(files[1..], low, files[k].Largest());
    if k > 0 {
      PassingDrops(files[1..], k - 1, low);
    }
  }

  /**
   The two shapes of level-`level` inputs: on level 0 everything that overlaps a closed range, on a
   deeper level a run of neighbours.
   */
  ghost predicate GoodInputs(level: nat, files: seq<File>, inputs: seq<File>) {
    && inputs != []
    && (level == 0 ==> exists lo, hi :: Closed(files, lo, hi) && inputs == Select(files, lo, hi))
    && (level > 0 ==> Disjoint(files) && exists i, j :: 0 <= i < j <= |files| && inputs == files[i..j])
  }

  /** No entry of `g` is older than an entry of `f` with the same user key. */
  ghost predicate NoOlder(g: File, f: File) {
    forall x, y :: x in f.entries && y in g.entries && x.ikey.user == y.ikey.user ==> Less(y.ikey, x.ikey)
  }

  /** No file left behind holds an older entry of a user key that the inputs hold. */
  ghost predicate LeavesNoOlder(files: seq<File>, inputs: seq<File>) {
    forall f, g :: f in inputs && g in files && g !in inputs ==> NoOlder(g, f)
  }

  lemma RunIsLargest(files: seq<File>, i: nat, j: nat, largest: IKey)
    requires Disjoint(files) && i < j <= |files|
    ensures IsLargest(files[i..j], largest) <==> largest == files[j - 1].Largest()
  {
    SpanIsOrdered(files, j - 1);
    assert files[j - 1] == files[i..j][j - 1 - i];
    forall f | f in files[i..j]
      ensures AtMost(f.Largest(), files[j - 1].Largest())
    {
      var k :| 0 <= k < j - i && files[i..j][k] == f;
      assert f == files[i + k];
    }
  }

  /** On a disjoint level the smallest boundary file is the next neighbour, or there is none. */
  lemma BoundaryIsNext(files: seq<File>, j: nat, r: Option<File>)
    requires Disjoint(files) && 0 < j <= |files|
    requires r == None ==> forall f :: f in files ==> !IsBoundary(f, files[j - 1].Largest())
    requires r.Some? ==> r.value in files && IsBoundary(r.value, files[j - 1].Largest())
    requires r.Some? ==>
      forall f :: f in files && IsBoundary(f, files[j - 1].Largest()) ==> AtMost(r.value.Smallest(), f.Smallest())
    ensures r == None ==> BoundaryEnd(files, j) == j
    ensures r.Some? ==> j < |files| && r.value == files[j] && BoundaryEnd(files, j) == BoundaryEnd(files, j + 1)
  {
    SpanIsOrdered(files, j - 1);
    if j < |files| {
      SpanIsOrdered(files, j);
      assert files[j] in files;
    }
    if r.Some? {
      var k :| 0 <= k < |files| && files[k] == r.value;
    }
  }

  lemma InRun(files: seq<File>, i: nat, j: nat, k: nat)
    requires i < j <= |files| && k < |files|
    ensures i <= k < j ==> files[k] in files[i..j]
  {
    if i <= k < j {
      assert files[i..j][k - i] == files[k];
    }
  }

  lemma RunLeavesNoOlder(files: seq<File>, i: nat, j: nat)
    requires Disjoint(files) && i < j <= |files|
    requires j < |files| ==> files[j].Smallest().user != files[j - 1].Largest().user
    ensures LeavesNoOlder(files, files[i..j])
  {
    hide NoOlder, Disjoint;
    forall f, g | f in files[i..j] && g in files && g !in files[i..j]
      ensures NoOlder(g, f)
    {
      var a :| 0 <= a < j - i && files[i..j][a] == f;
      var b :| 0 <= b < |files| && files[b] == g;
      assert f == files[i + a];
      InRun(files, i, j, b);
      OutsideRun(files, i, j, i + a, b);
    }
  }

  /** A file before the run ends before it, and one after it shares no user key with the run's last. */
  lemma OutsideRun(files: seq<File>, i: nat, j: nat, a: nat, b: nat)
    requires Disjoint(files) && i <= a < j <= |files| && b < |files| && !(i <= b < j)
    requires j < |files| ==> files[j].Smallest().user != files[j - 1].Largest().user
    ensures NoOlder(files[b], files[a])
  {
    var f, g := files[a], files[b];
    forall x, y | x in f.entries && y in g.entries && x.ikey.user == y.ikey.user
      ensures Less(y.ikey, x.ikey)
    {
      EntryInRange(f, x);
      EntryInRange(g, y);
      SpanIsOrdered(files, j - 1);
      if j < |files| {
        SpanIsOrdered(files, j);
      }
    }
  }

  lemma ClosedLeavesNoOlder(files: seq<File>, inputs: seq<File>)
    requires GoodInputs(0, files, inputs)
    ensures LeavesNoOlder(files, inputs)
  {
    var lo, hi :| Closed(files, lo, hi) && inputs == Select(files, lo, hi);
    forall f, g | f in inputs && g in files && g !in inputs
      ensures NoOlder(g, f)
    {
      assert Inside(f, lo, hi) && !Overlaps(g, lo, hi);
      forall x, y | x in f.entries && y in g.entries
        ensures x.ikey.user != y.ikey.user
      {
        EntryInRange(f, x);
        EntryInRange(g, y);
      }
    }
  }

  lemma ClosedHasNoBoundary(files: seq<File>, inputs: seq<File>, largest: IKey, f: File)
    requires GoodInputs(0, files, inputs) && IsLargest(inputs, largest)
    requires f in files
    ensures !IsBoundary(f, largest)
  {
    var lo, hi :| Closed(files, lo, hi) && inputs == Select(files, lo, hi);
    var g :| g in inputs && g.Largest() == largest;
    EntryInRange(f, f.entries[0]);
    EntryInRange(g, g.entries[0]);
    assert Inside(g, lo, hi);
  }

  lemma RunStep(files: seq<File>, i: nat, end: nat, next: Option<File>)
    requires Disjoint(files) && i < end <= |files|
    requires next == None ==> forall f :: f in files ==> !IsBoundary(f, files[end - 1].Largest())
    requires next.Some? ==> next.value in files && IsBoundary(next.value, files[end - 1].Largest())
    requires next.Some? ==>
      forall f :: f in files && IsBoundary(f, files[end - 1].Largest()) ==> AtMost(next.value.Smallest(), f.Smallest())
    ensures next == None ==> BoundaryEnd(files, end) == end
    ensures next.Some? ==>
      && end < |files|
      && next.value == files[end]
      && files[i..end] + [next.value] == files[i..end + 1]
      && BoundaryEnd(files, end) == BoundaryEnd(files, end + 1)
      && StartingAfter(files, next.value.Largest()) < StartingAfter(files, files[end - 1].Largest())
  {
    hide Less, AtMost, Sorted, Disjoint, StartingAfter, BoundaryEnd;
    BoundaryIsNext(files, end, next);
    if next.Some? {
      PassingDrops(files, end, files[end - 1].Largest());
    }
  }

  lemma RunIsGood(level: nat, files: seq<File>, i: nat, j: nat, end: nat)
    requires level > 0 && i < j <= end <= |files| && GoodInputs(level, files, files[i..j])
    ensures Disjoint(files)
    ensures GoodInputs(level, files, files[i..end])
    ensures files[i..j] <= files[i..end]
  {
    hide Disjoint;
  }

  lemma HaveEntries(files: seq<File>)
    ensures forall k :: 0 <= k < |files| ==> files[k].entries != []
    ensures forall f :: f in files ==> f.entries != []
  {
  }

  method AddBoundaryInputs(level: nat, files: seq<File>, inputs: seq<File>, ghost i: nat, ghost j: nat)
    returns (r: seq<File>)
    requires inputs != [] && GoodInputs(level, files, inputs)
    requires level > 0 ==> i < j <= |files| && inputs == files[i..j]
    ensures GoodInputs(level, files, r)
    ensures LeavesNoOlder(files, r)
    ensures inputs <= r
    ensures r == if level == 0 then inputs else files[i..BoundaryEnd(files, j)]
  {
    hide *;
    HaveEntries(files);
    r := inputs;
    var found := FindLargestKey(inputs);
    var largest := found.value;
    var searching := true;
    ghost var end := j;
    if level > 0 {
      RunIsGood(level, files, i, j, j);
      RunIsLargest(files, i, j, largest);
    }
    while searching
      invariant level == 0 ==> r == inputs && IsLargest(inputs, largest)
      invariant level > 0 ==> j <= end <= |files| && r == files[i..end] && largest == files[end - 1].Largest()
      invariant level > 0 ==> BoundaryEnd(files, j) == if searching then BoundaryEnd(files, end) else end
      decreases searching, StartingAfter(files, largest)
    {
      var next := FindSmallestBoundaryFile(files, largest);
      if next.Some? {
        if level == 0 {
          ClosedHasNoBoundary(files, inputs, largest, next.value);
          assert false;
        }
        RunStep(files, i, end, next);
        end := end + 1;
        r := r + [next.value];
        largest := next.value.Largest();
      } else {
        if level > 0 {
          RunStep(files, i, end, next);
        }
        searching := false;
      }
    }
    if level == 0 {
      ClosedLeavesNoOlder(files, r);
    } else {
      RunLeavesNoOlder(files, i, end);
      RunIsGood(level, files, i, j, end);
    }
  }

  // ---------------------------------------------------------------- the other inputs

  lemma {:induction false} SelectMonotone(files: seq<File>, lo: Bound, hi: Bound, l: Bound, h: Bound)
    requires Within(lo, hi, l, h)
    ensures |Select(files, lo, hi)| <= |Select(files, l, h)|
    ensures |Select(files, lo, hi)| == |Select(files, l, h)| ==> Select(files, lo, hi) == Select(files, l, h)
  {
    if files != [] {
      SelectMonotone(files[..|files| - 1], lo, hi, l, h);
    }
  }

  lemma {:induction false} SelectOfRun(files: seq<File>, n: nat, i: nat, j: nat, lo: Bound, hi: Bound)
    requires i <= j <= |files| && n <= |files|
    requires forall k :: 0 <= k < |files| ==> (Overlaps(files[k], lo, hi) <==> i <= k < j)
    ensures Select(files[..n], lo, hi) == files[if i < n then i else n..if j < n then j else n]
  {
    hide *;
    if n > 0 {
      SelectOfRun(files, n - 1, i, j, lo, hi);
      SelectSnoc(files, n - 1, lo, hi);
      if i <= n - 1 < j {
        assert files[i..n - 1] + [files[n - 1]] == files[i..n];
      }
    }
  }

  lemma OverlapIsConvex(files: seq<File>, a: nat, k: nat, b: nat, lo: Bound, hi: Bound)
    requires Disjoint(files) && a <= k <= b < |files|
    requires Overlaps(files[a], lo, hi) && Overlaps(files[b], lo, hi)
    ensures Overlaps(files[k], lo, hi)
  {
    SpanIsOrdered(files, k);
  }

  /** On a disjoint level the files that meet a range are neighbours. */
  lemma SelectIsRun(files: seq<File>, lo: Bound, hi: Bound) returns (i: nat, j: nat)
    requires Disjoint(files)
    ensures i <= j <= |files| && Select(files, lo, hi) == files[i..j]
  {
    hide *;
    i, j := 0, |files|;
    while i < j && !Overlaps(files[i], lo, hi)
      invariant i <= j == |files|
      invariant forall k :: 0 <= k < i ==> !Overlaps(files[k], lo, hi)
    {
      i := i + 1;
    }
    while i < j && !Overlaps(files[j - 1], lo, hi)
      invariant i <= j <= |files|
      invariant forall k :: j <= k < |files| ==> !Overlaps(files[k], lo, hi)
    {
      j := j - 1;
    }
    forall k | i <= k < j
      ensures Overlaps(files[k], lo, hi)
    {
      OverlapIsConvex(files, i, k, j - 1, lo, hi);
    }
    SelectOfRun(files, |files|, i, j, lo, hi);
    assert files[..|files|] == files;
  }

  /** A non-empty overlap query result has the shape of compaction inputs. */
  lemma OverlapIsGood(level: nat, files: seq<File>, inputs: seq<File>, lo: Bound, hi: Bound)
    requires inputs != [] && inputs == Select(files, lo, hi)
    requires if level == 0 then Closed(files, lo, hi) else Disjoint(files)
    ensures GoodInputs(level, files, inputs)
  {
    hide Disjoint, Closed, Select;
    if level > 0 {
      var i, j := SelectIsRun(files, lo, hi);
    }
  }

  /** The inputs of one compaction: `here` from `level`, `next` from `level + 1`. */
  ghost predicate ReadyInputs(level: nat, files: seq<File>, files1: seq<File>, here: seq<File>, next: seq<File>) {
    && GoodInputs(level, files, here)
    && LeavesNoOlder(files, here)
    && exists s, l :: IsSmallest(here, s) && IsLargest(here, l) && next == Select(files1, Some(s.user), Some(l.user))
  }

  /** What `GetOverlappingInputs` gives. */
  ghost predicate IsOverlap(level: nat, files: seq<File>, lo: Bound, hi: Bound, r: seq<File>) {
    if level == 0 then LeastOverlap(files, lo, hi, r) else r == Select(files, lo, hi)
  }

  /** The inputs and, on a disjoint level, the neighbours that go on with their last user key. */
  ghost predicate Bounded(level: nat, files: seq<File>, inputs: seq<File>, r: seq<File>) {
    if level == 0 then r == inputs
    else exists i, j :: 0 <= i < j <= |files| && inputs == files[i..j] && r == files[i..BoundaryEnd(files, j)]
  }

  /** The overlap of a level with the whole range of some inputs, and its boundary files. */
  ghost predicate IsExpansion(level: nat, files: seq<File>, inputs: seq<File>, r: seq<File>) {
    exists s, l, o :: IsSmallest(inputs, s) && IsLargest(inputs, l)
                      && IsOverlap(level, files, Some(s.user), Some(l.user), o) && Bounded(level, files, o, r)
  }

  /** The files that meet the range of some others. */
  ghost predicate MeetRange(files: seq<File>, inputs: seq<File>, r: seq<File>) {
    exists s, l :: IsSmallest(inputs, s) && IsLargest(inputs, l) && r == Select(files, Some(s.user), Some(l.user))
  }

  /** The larger set is taken if it is larger, small enough, and meets no further file of the next level. */
  ghost predicate Expands(files1: seq<File>, bounded: seq<File>, next: seq<File>, e: seq<File>, maxFileSize: nat) {
    && |e| > |bounded| && TotalFileSize(next) + TotalFileSize(e) < 25 * maxFileSize
    && exists meet :: MeetRange(files1, e, meet) && |meet| == |next|
  }

  /** What becomes of the first inputs: themselves, or their expansion. */
  ghost predicate Chosen(level: nat, files: seq<File>, files1: seq<File>, bounded: seq<File>, next: seq<File>,
      maxFileSize: nat, here: seq<File>)
  {
    if next == [] then here == bounded
    else
      exists e :: IsExpansion(level, files, bounded + next, e)
                  && here == if Expands(files1, bounded, next, e, maxFileSize) then e else bounded
  }

  /** Exactly what the inputs of a compaction become. */
  ghost predicate SetUp(level: nat, files: seq<File>, files1: seq<File>, inputs: seq<File>, maxFileSize: nat,
      here: seq<File>, next: seq<File>)
  {
    && MeetRange(files1, here, next)
    && exists bounded, met :: Bounded(level, files, inputs, bounded) && MeetRange(files1, bounded, met)
                              && Chosen(level, files, files1, bounded, met, maxFileSize, here)
  }

  lemma InputsRun(level: nat, files: seq<File>, inputs: seq<File>) returns (i: nat, j: nat)
    requires GoodInputs(level, files, inputs)
    ensures inputs != [] && forall f :: f in inputs ==> f in files
    ensures level > 0 ==> i < j <= |files| && inputs == files[i..j]
  {
    hide Disjoint;
    i, j := 0, 1;
    if level > 0 {
      i, j :| 0 <= i < j <= |files| && inputs == files[i..j];
    }
  }

  lemma InputsAreFiles(level: nat, files: seq<File>, inputs: seq<File>)
    requires GoodInputs(level, files, inputs)
    ensures inputs != [] && forall f :: f in inputs ==> f in files
  {
  }

  lemma BoundedRun(level: nat, files: seq<File>, inputs: seq<File>, r: seq<File>, i: nat, j: nat)
    requires level > 0 ==> i < j <= |files| && inputs == files[i..j]
    requires r == if level == 0 then inputs else files[i..BoundaryEnd(files, j)]
    ensures Bounded(level, files, inputs, r)
  {
    hide BoundaryEnd;
  }

  /** The range of some files is unique, and so is what meets it. */
  lemma OneMeetRange(files: seq<File>, inputs: seq<File>, s: IKey, l: IKey, r: seq<File>)
    requires IsSmallest(inputs, s) && IsLargest(inputs, l) && r == Select(files, Some(s.user), Some(l.user))
    ensures MeetRange(files, inputs, r) && forall x :: MeetRange(files, inputs, x) ==> x == r
  {
    hide Select;
  }

  lemma ExpansionIs(level: nat, files: seq<File>, inputs: seq<File>, s: IKey, l: IKey, overlap: seq<File>, r: seq<File>)
    requires IsSmallest(inputs, s) && IsLargest(inputs, l)
    requires IsOverlap(level, files, Some(s.user), Some(l.user), overlap) && Bounded(level, files, overlap, r)
    ensures IsExpansion(level, files, inputs, r)
  {
    hide IsSmallest, IsLargest, IsOverlap, Bounded;
  }

  /** With the expansion `e`, which meets `meet`, at hand the test is the one of the code. */
  lemma ChosenByTest(level: nat, files: seq<File>, files1: seq<File>, bounded: seq<File>, next: seq<File>, e: seq<File>,
      meet: seq<File>, maxFileSize: nat)
    requires next != [] && IsExpansion(level, files, bounded + next, e)
    requires MeetRange(files1, e, meet) && forall x :: MeetRange(files1, e, x) ==> x == meet
    ensures Chosen(level, files, files1, bounded, next, maxFileSize,
              if |e| > |bounded| && TotalFileSize(next) + TotalFileSize(e) < 25 * maxFileSize && |meet| == |next|
              then e else bounded)
  {
    hide MeetRange, IsExpansion, TotalFileSize;
  }

  lemma ChosenTooLarge(level: nat, files: seq<File>, files1: seq<File>, bounded: seq<File>, next: seq<File>, e: seq<File>,
      maxFileSize: nat)
    requires next != [] && IsExpansion(level, files, bounded + next, e)
    requires |e| <= |bounded| || TotalFileSize(next) + TotalFileSize(e) >= 25 * maxFileSize
    ensures Chosen(level, files, files1, bounded, next, maxFileSize, bounded)
  {
    hide MeetRange, IsExpansion, TotalFileSize;
  }

  lemma ChosenWithout(level: nat, files: seq<File>, files1: seq<File>, bounded: seq<File>, next: seq<File>, maxFileSize: nat)
    requires next == []
    ensures Chosen(level, files, files1, bounded, next, maxFileSize, bounded)
  {
  }

  lemma SetUpBy(level: nat, files: seq<File>, files1: seq<File>, inputs: seq<File>, maxFileSize: nat, here: seq<File>,
      next: seq<File>, bounded: seq<File>, met: seq<File>)
    requires MeetRange(files1, here, next) && Bounded(level, files, inputs, bounded) && MeetRange(files1, bounded, met)
    requires Chosen(level, files, files1, bounded, met, maxFileSize, here)
    ensures SetUp(level, files, files1, inputs, maxFileSize, here, next)
  {
    hide MeetRange, Bounded, Chosen;
  }

  lemma ReadyBy(level: nat, files: seq<File>, files1: seq<File>, here: seq<File>, next: seq<File>)
    requires GoodInputs(level, files, here) && LeavesNoOlder(files, here) && MeetRange(files1, here, next)
    ensures ReadyInputs(level, files, files1, here, next)
  {
    hide GoodInputs, LeavesNoOlder, IsSmallest, IsLargest, Select;
  }

  /** `GetOverlappingInputs` for a range that already covers some inputs, then the boundary files. */
  method ExpandInputs(level: nat, files: seq<File>, inputs: seq<File>, start: IKey, limit: IKey)
    returns (r: seq<File>, ghost overlap: seq<File>)
    requires GoodInputs(level, files, inputs)
    requires forall f :: f in inputs ==> Overlaps(f, Some(start.user), Some(limit.user))
    ensures GoodInputs(level, files, r) && LeavesNoOlder(files, r)
    ensures forall f :: f in inputs ==> f in r
    ensures IsOverlap(level, files, Some(start.user), Some(limit.user), overlap) && Bounded(level, files, overlap, r)
  {
    hide *;
    ghost var lo, hi;
    r, lo, hi := GetOverlappingInputs(level, files, Some(start.user), Some(limit.user));
    overlap := r;
    OverlapHolds(level, files, inputs, Some(start.user), Some(limit.user), lo, hi);
    OverlapIsGood(level, files, r, lo, hi);
    OverlapIs(level, files, Some(start.user), Some(limit.user), r);
    ghost var i, j := InputsRun(level, files, r);
    r := AddBoundaryInputs(level, files, r, i, j);
    BoundedRun(level, files, overlap, r, i, j);
  }

  lemma OverlapHolds(level: nat, files: seq<File>, inputs: seq<File>, begin: Bound, end: Bound, lo: Bound, hi: Bound)
    requires GoodInputs(level, files, inputs)
    requires if level == 0 then Within(begin, end, lo, hi) else lo == begin && hi == end
    requires forall f :: f in inputs ==> Overlaps(f, begin, end)
    ensures level > 0 ==> Disjoint(files)
    ensures Select(files, lo, hi) != [] && forall f :: f in inputs ==> f in Select(files, lo, hi)
  {
    InputsAreFiles(level, files, inputs);
    hide GoodInputs, Select;
    forall f | f in inputs
      ensures f in Select(files, lo, hi)
    {
      assert Overlaps(f, lo, hi);
    }
    assert inputs[0] in Select(files, lo, hi);
  }

  lemma OverlapIs(level: nat, files: seq<File>, begin: Bound, end: Bound, r: seq<File>)
    requires if level > 0 then r == Select(files, begin, end) else LeastOverlap(files, begin, end, r)
    ensures IsOverlap(level, files, begin, end, r)
  {
  }

  /** More files reach at least as far on both sides. */
  lemma RangeGrows(small: seq<File>, big: seq<File>, s: IKey, l: IKey, s': IKey, l': IKey)
    requires forall f :: f in small ==> f in big
    requires IsSmallest(small, s) && IsLargest(small, l) && IsSmallest(big, s') && IsLargest(big, l')
    ensures Within(Some(s.user), Some(l.user), Some(s'.user), Some(l'.user))
  {
  }

  lemma RangeCovers(inputs: seq<File>, s: IKey, l: IKey)
    requires IsSmallest(inputs, s) && IsLargest(inputs, l)
    ensures forall f :: f in inputs ==> Overlaps(f, Some(s.user), Some(l.user))
  {
    forall f | f in inputs
      ensures Overlaps(f, Some(s.user), Some(l.user))
    {
      EntryInRange(f, f.entries[0]);
    }
  }

  lemma NotNoInputs(level: nat, files: seq<File>, inputs: seq<File>)
    requires GoodInputs(level, files, inputs)
    ensures inputs != []
  {
  }

  /**
   `VersionSet::SetupOtherInputs`: boundary files, the overlap at the next level, and the expansion
   of the first set when that brings in no further file of the second.  `largest` becomes the compaction pointer.
   */
  method SetupOtherInputs(level: nat, files: seq<File>, files1: seq<File>, inputs: seq<File>, maxFileSize: nat)
    returns (here: seq<File>, next: seq<File>, largest: IKey)
    requires GoodInputs(level, files, inputs) && Disjoint(files1)
    ensures ReadyInputs(level, files, files1, here, next) && IsLargest(here, largest)
    ensures forall f :: f in inputs ==> f in here
    ensures SetUp(level, files, files1, inputs, maxFileSize, here, next)
  {
    hide *;
    ghost var i, j := InputsRun(level, files, inputs);
    here := AddBoundaryInputs(level, files, inputs, i, j);
    BoundedRun(level, files, inputs, here, i, j);
    NotNoInputs(level, files, here);
    var smallest;
    smallest, largest := GetRange(here);
    ghost var lo, hi;
    next, lo, hi := GetOverlappingInputs(level + 1, files1, Some(smallest.user), Some(largest.user));
    OneMeetRange(files1, here, smallest, largest, next);
    ghost var bounded, met := here, next;
    if next != [] {
      var start, limit := GetRange(here + next);
      RangeGrows(here, here + next, smallest, largest, start, limit);
      RangeCovers(here + next, start, limit);
      ghost var overlap;
      var expanded0;
      expanded0, overlap := ExpandInputs(level, files, here, start, limit);
      ExpansionIs(level, files, here + next, start, limit, overlap, expanded0);
      NotNoInputs(level, files, expanded0);
      if |expanded0| > |here| && TotalFileSize(next) + TotalFileSize(expanded0) < 25 * maxFileSize {
        var newStart, newLimit := GetRange(expanded0);
        var expanded1;
        expanded1, lo, hi := GetOverlappingInputs(level + 1, files1, Some(newStart.user), Some(newLimit.user));
        OneMeetRange(files1, expanded0, newStart, newLimit, expanded1);
        ChosenByTest(level, files, files1, bounded, met, expanded0, expanded1, maxFileSize);
        if |expanded1| == |next| {
          here, next, largest := expanded0, expanded1, newLimit;
        }
      } else {
        ChosenTooLarge(level, files, files1, bounded, met, expanded0, maxFileSize);
      }
    } else {
      ChosenWithout(level, files, files1, bounded, met, maxFileSize);
    }
    SetUpBy(level, files, files1, inputs, maxFileSize, here, next, bounded, met);
    ReadyBy(level, files, files1, here, next);
  }
}
