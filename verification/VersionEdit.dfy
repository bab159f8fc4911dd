/** `VersionEdit`: the manifest's record format, field by field, and reading it back. */
module VersionEdit {
  import opened Coding
  import opened Keys

  // Tags; 8 is no longer used.
  const COMPARATOR: nat := 1
  const LOG_NUMBER: nat := 2
  const NEXT_FILE_NUMBER: nat := 3
  const LAST_SEQUENCE: nat := 4
  const COMPACT_POINTER: nat := 5
  const DELETED_FILE: nat := 6
  const NEW_FILE: nat := 7
  const PREV_LOG_NUMBER: nat := 9

  /** A file as the manifest describes it; the bounds are encoded internal keys. */
  datatype FileMeta = FileMeta(number: nat, size: nat, smallest: Bytes, largest: Bytes)

  /** One field of an edit as it is written. */
  datatype Item =
    | Comparator(name: Bytes)
    | LogNumber(n: nat)
    | PrevLogNumber(n: nat)
    | NextFile(n: nat)
    | LastSequence(n: nat)
    | CompactPointer(level: nat, key: Bytes)
    | Deleted(level: nat, n: nat)
    | New(level: nat, file: FileMeta)

  predicate KeyOk(k: Bytes) { 0 < |k| < TWO32 }

  /** What fits the field's width and what its reader accepts. */
  predicate Writable(i: Item) {
    match i
    case Comparator(name) => |name| < TWO32
    case LogNumber(n) => n < TWO64
    case PrevLogNumber(n) => n < TWO64
    case NextFile(n) => n < TWO64
    case LastSequence(n) => n < TWO64
    case CompactPointer(level, key) => level < NUM_LEVELS && KeyOk(key)
    case Deleted(level, n) => level < NUM_LEVELS && n < TWO64
    case New(level, f) => level < NUM_LEVELS && f.number < TWO64 && f.size < TWO64 && KeyOk(f.smallest) && KeyOk(f.largest)
  }

  function Body(i: Item): Bytes {
    match i
    case Comparator(name) => LengthPrefixed(name)
    case LogNumber(n) => Varint(n)
    case PrevLogNumber(n) => Varint(n)
    case NextFile(n) => Varint(n)
    case LastSequence(n) => Varint(n)
    case CompactPointer(level, key) => Varint(level) + LengthPrefixed(key)
    case Deleted(level, n) => Varint(level) + Varint(n)
    case New(level, f) =>
      Varint(level) + (Varint(f.number) + (Varint(f.size) + (LengthPrefixed(f.smallest) + LengthPrefixed(f.largest))))
  }

  function Tag(i: Item): nat {
    match i
    case Comparator(_) => COMPARATOR
    case LogNumber(_) => LOG_NUMBER
    case PrevLogNumber(_) => PREV_LOG_NUMBER
    case NextFile(_) => NEXT_FILE_NUMBER
    case LastSequence(_) => LAST_SEQUENCE
    case CompactPointer(_, _) => COMPACT_POINTER
    case Deleted(_, _) => DELETED_FILE
    case New(_, _) => NEW_FILE
  }

  function ItemBytes(i: Item): Bytes { Varint(Tag(i)) + Body(i) }

  function ItemsBytes(items: seq<Item>): Bytes {
    if items == [] then [] else ItemBytes(items[0]) + ItemsBytes(items[1..])
  }

  // ---------------------------------------------------------------- reading one field

  function TakeLevel(input: Bytes): Taken<nat> {
    match TakeVarint32(input)
    case Fail => Fail
    case Got(v, rest) => if v < NUM_LEVELS then Got(v, rest) else Fail
  }

  function TakeKey(input: Bytes): Taken<Bytes> {
    match TakeLengthPrefixed(input)
    case Fail => Fail
    case Got(k, rest) => if k == [] then Fail else Got(k, rest)
  }

  function TakeFile(input: Bytes): Taken<FileMeta> {
    match TakeVarint64(input)
    case Fail => Fail
    case Got(number, r1) =>
      match TakeVarint64(r1)
      case Fail => Fail
      case Got(size, r2) =>
        match TakeKey(r2)
        case Fail => Fail
        case Got(smallest, r3) =>
          match TakeKey(r3)
          case Fail => Fail
          case Got(largest, r4) => Got(FileMeta(number, size, smallest, largest), r4)
  }

  function Map<T, U>(t: Taken<T>, f: T -> U): Taken<U> {
    match t
    case Fail => Fail
    case Got(v, rest) => Got(f(v), rest)
  }

  /** The cases of the reader's switch. */
  function TakeBody(tag: nat, input: Bytes): Taken<Item> {
    if tag == COMPARATOR then Map(TakeLengthPrefixed(input), name => Comparator(name))
    else if tag == LOG_NUMBER then Map(TakeVarint64(input), n => LogNumber(n))
    else if tag == PREV_LOG_NUMBER then Map(TakeVarint64(input), n => PrevLogNumber(n))
    else if tag == NEXT_FILE_NUMBER then Map(TakeVarint64(input), n => NextFile(n))
    else if tag == LAST_SEQUENCE then Map(TakeVarint64(input), n => LastSequence(n))
    else if tag == COMPACT_POINTER || tag == DELETED_FILE || tag == NEW_FILE then
      match TakeLevel(input)
      case Fail => Fail
      case Got(level, rest) =>
        if tag == COMPACT_POINTER then Map(TakeKey(rest), key => CompactPointer(level, key))
        else if tag == DELETED_FILE then Map(TakeVarint64(rest), n => Deleted(level, n))
        else Map(TakeFile(rest), f => New(level, f))
    else Fail
  }

  lemma LevelRoundTrip(level: nat, rest: Bytes)
    requires level < NUM_LEVELS
    ensures TakeLevel(Varint(level) + rest) == Got(level, rest)
  {
    hide Varint, TakeVarint32;
    Varint32RoundTrip(level, rest);
  }

  lemma KeyRoundTrip(k: Bytes, rest: Bytes)
    requires KeyOk(k)
    ensures TakeKey(LengthPrefixed(k) + rest) == Got(k, rest)
  {
    hide LengthPrefixed, TakeLengthPrefixed;
    LengthPrefixedRoundTrip(k, rest);
  }

  lemma FileRoundTrip(f: FileMeta, rest: Bytes)
    requires f.number < TWO64 && f.size < TWO64 && KeyOk(f.smallest) && KeyOk(f.largest)
    ensures TakeFile(Varint(f.number) + (Varint(f.size) + (LengthPrefixed(f.smallest) + LengthPrefixed(f.largest))) + rest) == Got(f, rest)
  {
    hide LengthPrefixed, Varint, TakeVarint64, TakeKey, KeyOk;
    var a, b, c, d := Varint(f.number), Varint(f.size), LengthPrefixed(f.smallest), LengthPrefixed(f.largest);
    Assoc(a, b + (c + d), rest);
    Assoc(b, c + d, rest);
    Assoc(c, d, rest);
    Varint64RoundTrip(f.number, b + (c + (d + rest)));
    Varint64RoundTrip(f.size, c + (d + rest));
    KeyRoundTrip(f.smallest, d + rest);
    KeyRoundTrip(f.largest, rest);
  }

  lemma BodyRoundTrip(i: Item, rest: Bytes)
    requires Writable(i)
    ensures TakeBody(Tag(i), Body(i) + rest) == Got(i, rest)
  {
    hide LengthPrefixed, Varint, TakeVarint64, TakeVarint32, TakeKey, TakeLevel, TakeFile, TakeLengthPrefixed, KeyOk;
    match i
    case Comparator(name) => LengthPrefixedRoundTrip(name, rest);
    case LogNumber(n) => Varint64RoundTrip(n, rest);
    case PrevLogNumber(n) => Varint64RoundTrip(n, rest);
    case NextFile(n) => Varint64RoundTrip(n, rest);
    case LastSequence(n) => Varint64RoundTrip(n, rest);
    case CompactPointer(level, key) =>
      Assoc(Varint(level), LengthPrefixed(key), rest);
      LevelRoundTrip(level, LengthPrefixed(key) + rest);
      KeyRoundTrip(key, rest);
    case Deleted(level, n) =>
      Assoc(Varint(level), Varint(n), rest);
      LevelRoundTrip(level, Varint(n) + rest);
      Varint64RoundTrip(n, rest);
    case New(level, f) =>
      var b := Varint(f.number) + (Varint(f.size) + (LengthPrefixed(f.smallest) + LengthPrefixed(f.largest)));
      Assoc(Varint(level), b, rest);
      LevelRoundTrip(level, b + rest);
      FileRoundTrip(f, rest);
  }

  /** A field behind its tag; `Fail` also for a tag that cannot be read. */
  function TakeItem(input: Bytes): Taken<Item> {
    match TakeVarint32(input)
    case Fail => Fail
    case Got(tag, rest) => TakeBody(tag, rest)
  }

  lemma ItemRoundTrip(i: Item, rest: Bytes)
    requires Writable(i)
    ensures TakeItem(ItemBytes(i) + rest) == Got(i, rest)
  {
    hide Varint, TakeVarint32, TakeBody, Body, Writable;
    Assoc(Varint(Tag(i)), Body(i), rest);
    TagIsSmall(i);
    Varint32RoundTrip(Tag(i), Body(i) + rest);
    BodyRoundTrip(i, rest);
  }

  lemma TagIsSmall(i: Item)
    ensures Tag(i) < TWO32
  {
  }

  // ---------------------------------------------------------------- whole records

  lemma ItemShrinks(input: Bytes)
    requires TakeItem(input).Got?
    ensures |TakeItem(input).rest| < |input|
  {
    Shrinks32(input);
    if TakeVarint32(input).Got? {
      BodyShrinks(TakeVarint32(input).value, TakeVarint32(input).rest);
    }
  }

  lemma Shrinks32(input: Bytes)
    ensures TakeVarint32(input).Got? ==> |TakeVarint32(input).rest| < |input|
    ensures TakeVarint64(input).Got? ==> |TakeVarint64(input).rest| < |input|
    ensures TakeLengthPrefixed(input).Got? ==> |TakeLengthPrefixed(input).rest| < |input|
  {
    DigitsShrink(input, 5);
    DigitsShrink(input, 10);
  }

  lemma BodyShrinks(tag: nat, input: Bytes)
    ensures TakeBody(tag, input).Got? ==> |TakeBody(tag, input).rest| <= |input|
  {
    Shrinks32(input);
    if TakeVarint32(input).Got? {
      Shrinks32(TakeVarint32(input).rest);
      FileShrinks(TakeVarint32(input).rest);
    }
  }

  lemma FileShrinks(input: Bytes)
    ensures TakeFile(input).Got? ==> |TakeFile(input).rest| <= |input|
  {
    hide TakeVarint64, TakeLengthPrefixed;
    Shrinks32(input);
    match TakeVarint64(input)
    case Fail =>
    case Got(_, r1) =>
      Shrinks32(r1);
      match TakeVarint64(r1)
      case Fail =>
      case Got(_, r2) =>
        Shrinks32(r2);
        if TakeLengthPrefixed(r2).Got? {
          Shrinks32(TakeLengthPrefixed(r2).rest);
        }
  }

  /** The fields of a record in order, and whether all of it could be read. */
  function Parse(input: Bytes): (seq<Item>, bool)
    decreases |input|
  {
    match TakeItem(input)
    case Fail => ([], input == [])
    case Got(i, rest) =>
      ItemShrinks(input);
      var (items, ok) := Parse(rest);
      ([i] + items, ok)
  }

  lemma EmptyInput()
    ensures Parse([]) == ([], true)
  {
  }

  lemma ParseStep(input: Bytes)
    ensures
      match TakeItem(input)
      case Fail => Parse(input) == ([], input == [])
      case Got(i, rest) => |rest| < |input| && Parse(input) == ([i] + Parse(rest).0, Parse(rest).1)
  {
    hide TakeItem;
    if TakeItem(input).Got? {
      ItemShrinks(input);
    }
  }

  ghost predicate AllWritable(items: seq<Item>) {
    forall k :: 0 <= k < |items| ==> Writable(items[k])
  }

  lemma {:induction false} ParseRoundTrip(items: seq<Item>)
    requires AllWritable(items)
    ensures Parse(ItemsBytes(items)) == (items, true)
  {
    hide TakeItem, ItemBytes, Writable, Parse;
    if items == [] {
      EmptyInput();
    } else {
      ItemRoundTrip(items[0], ItemsBytes(items[1..]));
      ParseStep(ItemsBytes(items));
      ParseRoundTrip(items[1..]);
      assert items == [items[0]] + items[1..];
    }
  }

  // ---------------------------------------------------------------- edits

  datatype Edit = Edit(
    comparator: Option<Bytes>, logNumber: Option<nat>, prevLogNumber: Option<nat>,
    nextFile: Option<nat>, lastSequence: Option<nat>,
    compactPointers: seq<(nat, Bytes)>, deleted: seq<(nat, nat)>, newFiles: seq<(nat, FileMeta)>)

  predicate PairBefore(a: (nat, nat), b: (nat, nat)) { a.0 < b.0 || (a.0 == b.0 && a.1 < b.1) }

  /** The deleted files are an ordered set, written out in its order. */
  ghost predicate OrderedSet(ps: seq<(nat, nat)>) {
    forall i, j :: 0 <= i < j < |ps| ==> PairBefore(ps[i], ps[j])
  }

  function InsertPair(ps: seq<(nat, nat)>, p: (nat, nat)): seq<(nat, nat)> {
    if ps == [] || PairBefore(p, ps[0]) then [p] + ps
    else if p == ps[0] then ps
    else [ps[0]] + InsertPair(ps[1..], p)
  }

  lemma {:induction false} InsertLast(ps: seq<(nat, nat)>, p: (nat, nat))
    requires OrderedSet(ps + [p])
    ensures InsertPair(ps, p) == ps + [p]
  {
    if ps != [] {
      assert PairBefore((ps + [p])[0], (ps + [p])[|ps|]);
      assert ps[1..] + [p] == (ps + [p])[1..];
      InsertLast(ps[1..], p);
      assert ps + [p] == [ps[0]] + (ps[1..] + [p]);
    }
  }

  lemma {:induction false} InsertKeepsSet(ps: seq<(nat, nat)>, p: (nat, nat))
    requires OrderedSet(ps)
    ensures OrderedSet(InsertPair(ps, p)) && forall q :: q in InsertPair(ps, p) <==> q in ps || q == p
  {
    if ps == [] || PairBefore(p, ps[0]) || p == ps[0] {
    } else {
      InsertKeepsSet(ps[1..], p);
      var r := InsertPair(ps[1..], p);
      forall q | q in r
        ensures PairBefore(ps[0], q)
      {
        if q != p {
          var k :| 0 <= k < |ps[1..]| && ps[1..][k] == q;
          assert PairBefore(ps[0], ps[k + 1]);
        }
      }
    }
  }

  /** What reading one field does to an edit. */
  function Add(e: Edit, i: Item): Edit {
    match i
    case Comparator(name) => e.(comparator := Some(name))
    case LogNumber(n) => e.(logNumber := Some(n))
    case PrevLogNumber(n) => e.(prevLogNumber := Some(n))
    case NextFile(n) => e.(nextFile := Some(n))
    case LastSequence(n) => e.(lastSequence := Some(n))
    case CompactPointer(level, key) => e.(compactPointers := e.compactPointers + [(level, key)])
    case Deleted(level, n) => e.(deleted := InsertPair(e.deleted, (level, n)))
    case New(level, f) => e.(newFiles := e.newFiles + [(level, f)])
  }

  function AddAll(e: Edit, items: seq<Item>): Edit
    decreases items
  {
    if items == [] then e else AddAll(Add(e, items[0]), items[1..])
  }

  lemma {:induction false} AddAllJoin(e: Edit, a: seq<Item>, b: seq<Item>)
    ensures AddAll(e, a + b) == AddAll(AddAll(e, a), b)
    decreases a
  {
    if a == [] {
      assert a + b == b;
    } else {
      assert (a + b)[1..] == a[1..] + b;
      AddAllJoin(Add(e, a[0]), a[1..], b);
    }
  }

  // ---------------------------------------------------------------- what is written

  function Field<T>(o: Option<T>, f: T -> Item): seq<Item> {
    if o.Some? then [f(o.value)] else []
  }

  function Scalars(e: Edit): seq<Item> {
    Field(e.comparator, name => Comparator(name)) + Field(e.logNumber, n => LogNumber(n))
    + Field(e.prevLogNumber, n => PrevLogNumber(n)) + Field(e.nextFile, n => NextFile(n))
    + Field(e.lastSequence, n => LastSequence(n))
  }

  function Pointers(ps: seq<(nat, Bytes)>): seq<Item> {
    seq(|ps|, k requires 0 <= k < |ps| => CompactPointer(ps[k].0, ps[k].1))
  }

  function Deletions(ds: seq<(nat, nat)>): seq<Item> {
    seq(|ds|, k requires 0 <= k < |ds| => Deleted(ds[k].0, ds[k].1))
  }

  function Additions(fs: seq<(nat, FileMeta)>): seq<Item> {
    seq(|fs|, k requires 0 <= k < |fs| => New(fs[k].0, fs[k].1))
  }

  /** The fields of an edit in the order in which they are written. */
  function Items(e: Edit): seq<Item> {
    Scalars(e) + (Pointers(e.compactPointers) + (Deletions(e.deleted) + Additions(e.newFiles)))
  }

  const CLEARED: Edit := Edit(None, None, None, None, None, [], [], [])

  lemma ScalarsRead(e: Edit, d: Edit)
    requires d.comparator.None? && d.logNumber.None? && d.prevLogNumber.None? && d.nextFile.None? && d.lastSequence.None?
    ensures AddAll(d, Scalars(e)) == d.(comparator := e.comparator, logNumber := e.logNumber,
      prevLogNumber := e.prevLogNumber, nextFile := e.nextFile, lastSequence := e.lastSequence)
  {
    var a, b := Field(e.comparator, name => Comparator(name)), Field(e.logNumber, n => LogNumber(n));
    var c, f := Field(e.prevLogNumber, n => PrevLogNumber(n)), Field(e.nextFile, n => NextFile(n));
    var g := Field(e.lastSequence, n => LastSequence(n));
    AddAllJoin(d, a + b + c + f, g);
    AddAllJoin(d, a + b + c, f);
    AddAllJoin(d, a + b, c);
    AddAllJoin(d, a, b);
    OneField(d, a);
    OneField(AddAll(d, a), b);
    OneField(AddAll(d, a + b), c);
    OneField(AddAll(d, a + b + c), f);
    OneField(AddAll(d, a + b + c + f), g);
  }

  lemma OneField(d: Edit, items: seq<Item>)
    ensures items == [] ==> AddAll(d, items) == d
    ensures |items| == 1 ==> AddAll(d, items) == Add(d, items[0])
  {
  }

  lemma {:induction false} PointersRead(d: Edit, ps: seq<(nat, Bytes)>)
    ensures AddAll(d, Pointers(ps)) == d.(compactPointers := d.compactPointers + ps)
    decreases |ps|
  {
    if ps == [] {
      assert d.compactPointers + [] == d.compactPointers;
    } else {
      assert Pointers(ps)[1..] == Pointers(ps[1..]);
      PointersRead(Add(d, Pointers(ps)[0]), ps[1..]);
      assert d.compactPointers + [ps[0]] + ps[1..] == d.compactPointers + ps;
    }
  }

  lemma {:induction false} DeletionsRead(d: Edit, ds: seq<(nat, nat)>)
    requires OrderedSet(d.deleted + ds)
    ensures AddAll(d, Deletions(ds)) == d.(deleted := d.deleted + ds)
    decreases |ds|
  {
    if ds == [] {
      assert d.deleted + [] == d.deleted;
    } else {
      assert Deletions(ds)[1..] == Deletions(ds[1..]);
      assert d.deleted + ds == (d.deleted + [ds[0]]) + ds[1..];
      assert d.deleted + [ds[0]] == (d.deleted + ds)[..|d.deleted| + 1];
      InsertLast(d.deleted, ds[0]);
      DeletionsRead(Add(d, Deletions(ds)[0]), ds[1..]);
    }
  }

  lemma {:induction false} AdditionsRead(d: Edit, fs: seq<(nat, FileMeta)>)
    ensures AddAll(d, Additions(fs)) == d.(newFiles := d.newFiles + fs)
    decreases |fs|
  {
    if fs == [] {
      assert d.newFiles + [] == d.newFiles;
    } else {
      assert Additions(fs)[1..] == Additions(fs[1..]);
      AdditionsRead(Add(d, Additions(fs)[0]), fs[1..]);
      assert d.newFiles + [fs[0]] + fs[1..] == d.newFiles + fs;
    }
  }

  lemma ItemsRead(e: Edit, pointers: seq<(nat, Bytes)>)
    requires OrderedSet(e.deleted)
    ensures AddAll(CLEARED.(compactPointers := pointers), Items(e)) == e.(compactPointers := pointers + e.compactPointers)
  {
    var d := CLEARED.(compactPointers := pointers);
    hide AddAll, Scalars, Pointers, Deletions, Additions, OrderedSet;
    var p, q, r := Pointers(e.compactPointers), Deletions(e.deleted), Additions(e.newFiles);
    AddAllJoin(d, Scalars(e), p + (q + r));
    ScalarsRead(e, d);
    var d1 := AddAll(d, Scalars(e));
    AddAllJoin(d1, p, q + r);
    PointersRead(d1, e.compactPointers);
    var d2 := AddAll(d1, p);
    AddAllJoin(d2, q, r);
    assert [] + e.deleted == e.deleted;
    DeletionsRead(d2, e.deleted);
    AdditionsRead(AddAll(d2, q), e.newFiles);
    assert [] + e.newFiles == e.newFiles;
  }

  ghost predicate EditOk(e: Edit) {
    OrderedSet(e.deleted) && AllWritable(Items(e))
  }

  /** What `EditOk` asks of each field. */
  ghost predicate FieldsFit(e: Edit) {
    && OrderedSet(e.deleted)
    && (e.comparator.Some? ==> |e.comparator.value| < TWO32)
    && (e.logNumber.Some? ==> e.logNumber.value < TWO64) && (e.prevLogNumber.Some? ==> e.prevLogNumber.value < TWO64)
    && (e.nextFile.Some? ==> e.nextFile.value < TWO64) && (e.lastSequence.Some? ==> e.lastSequence.value < TWO64)
    && (forall p :: p in e.compactPointers ==> p.0 < NUM_LEVELS && KeyOk(p.1))
    && (forall p :: p in e.deleted ==> p.0 < NUM_LEVELS && p.1 < TWO64)
    && forall p :: p in e.newFiles ==> Writable(New(p.0, p.1))
  }

  lemma WritableJoin(a: seq<Item>, b: seq<Item>)
    ensures AllWritable(a + b) <==> AllWritable(a) && AllWritable(b)
  {
    assert forall k :: 0 <= k < |a| ==> (a + b)[k] == a[k];
    assert forall k :: 0 <= k < |b| ==> (a + b)[|a| + k] == b[k];
  }

  lemma ScalarsWritable(e: Edit)
    ensures AllWritable(Scalars(e)) <==>
      && (e.comparator.Some? ==> |e.comparator.value| < TWO32)
      && (e.logNumber.Some? ==> e.logNumber.value < TWO64) && (e.prevLogNumber.Some? ==> e.prevLogNumber.value < TWO64)
      && (e.nextFile.Some? ==> e.nextFile.value < TWO64) && (e.lastSequence.Some? ==> e.lastSequence.value < TWO64)
  {
    hide AllWritable;
    var a, b := Field(e.comparator, name => Comparator(name)), Field(e.logNumber, n => LogNumber(n));
    var c, d := Field(e.prevLogNumber, n => PrevLogNumber(n)), Field(e.nextFile, n => NextFile(n));
    var f := Field(e.lastSequence, n => LastSequence(n));
    WritableJoin(a + b + c + d, f);
    WritableJoin(a + b + c, d);
    WritableJoin(a + b, c);
    WritableJoin(a, b);
    FieldWritable(a);
    FieldWritable(b);
    FieldWritable(c);
    FieldWritable(d);
    FieldWritable(f);
  }

  lemma FieldWritable(items: seq<Item>)
    requires |items| <= 1
    ensures AllWritable(items) <==> (items != [] ==> Writable(items[0]))
  {
  }

  lemma ListsWritable(e: Edit)
    ensures AllWritable(Pointers(e.compactPointers)) <==> forall p :: p in e.compactPointers ==> p.0 < NUM_LEVELS && KeyOk(p.1)
    ensures AllWritable(Deletions(e.deleted)) <==> forall p :: p in e.deleted ==> p.0 < NUM_LEVELS && p.1 < TWO64
    ensures AllWritable(Additions(e.newFiles)) <==> forall p :: p in e.newFiles ==> Writable(New(p.0, p.1))
  {
    hide KeyOk;
    var ps, ds, fs := Pointers(e.compactPointers), Deletions(e.deleted), Additions(e.newFiles);
    assert forall k :: 0 <= k < |ps| ==> ps[k] == CompactPointer(e.compactPointers[k].0, e.compactPointers[k].1);
    assert forall k :: 0 <= k < |ds| ==> ds[k] == Deleted(e.deleted[k].0, e.deleted[k].1);
    assert forall k :: 0 <= k < |fs| ==> fs[k] == New(e.newFiles[k].0, e.newFiles[k].1);
  }

  lemma EditOkIsFieldsFit(e: Edit)
    ensures EditOk(e) <==> FieldsFit(e)
  {
    hide AllWritable, Scalars, Pointers, Deletions, Additions, OrderedSet, KeyOk, Writable;
    var s, p, q, r := Scalars(e), Pointers(e.compactPointers), Deletions(e.deleted), Additions(e.newFiles);
    WritableJoin(s, p + (q + r));
    WritableJoin(p, q + r);
    WritableJoin(q, r);
    ScalarsWritable(e);
    ListsWritable(e);
  }

  function Encoded(e: Edit): Bytes { ItemsBytes(Items(e)) }

  /**
   Reading what was written.  The compaction pointers that the reading edit already holds stay in front:
   clearing an edit does not clear them.
   */
  lemma EditRoundTrip(e: Edit, pointers: seq<(nat, Bytes)>)
    requires EditOk(e)
    ensures Parse(Encoded(e)).1
    ensures AddAll(CLEARED.(compactPointers := pointers), Parse(Encoded(e)).0)
         == e.(compactPointers := pointers + e.compactPointers)
  {
    hide Items, ItemsBytes, Parse, AllWritable, OrderedSet, AddAll;
    ParseRoundTrip(Items(e));
    ItemsRead(e, pointers);
  }

  /** So reading undoes writing if and only if the reading edit had no compaction pointers. */
  lemma FreshReadIsExact(e: Edit, pointers: seq<(nat, Bytes)>)
    requires EditOk(e)
    ensures AddAll(CLEARED.(compactPointers := pointers), Parse(Encoded(e)).0) == e <==> pointers == []
  {
    hide Encoded, Parse, AddAll, EditOk;
    EditRoundTrip(e, pointers);
    assert |pointers + e.compactPointers| == |pointers| + |e.compactPointers|;
    assert pointers == [] ==> pointers + e.compactPointers == e.compactPointers;
  }

  // ---------------------------------------------------------------- any bytes

  /** Whatever the bytes, a field that is read is one that can be written: a level that exists, keys that are not empty. */
  lemma ReadIsWritable(input: Bytes)
    requires TakeItem(input).Got?
    ensures Writable(TakeItem(input).value)
  {
    hide TakeDigits;
  }

  lemma {:induction false} AllReadIsWritable(input: Bytes)
    ensures AllWritable(Parse(input).0)
    decreases |input|
  {
    hide TakeItem, Writable, Parse;
    ParseStep(input);
    if TakeItem(input).Got? {
      ReadIsWritable(input);
      AllReadIsWritable(TakeItem(input).rest);
    }
  }

  lemma AddKeepsFit(e: Edit, i: Item)
    requires FieldsFit(e) && Writable(i)
    ensures FieldsFit(Add(e, i))
  {
    hide KeyOk, OrderedSet, InsertPair;
    if i.Deleted? {
      InsertKeepsSet(e.deleted, (i.level, i.n));
    }
  }

  lemma {:induction false} AddAllKeepsFit(e: Edit, items: seq<Item>)
    requires FieldsFit(e) && AllWritable(items)
    ensures FieldsFit(AddAll(e, items))
    decreases items
  {
    hide FieldsFit, Writable, Add;
    if items != [] {
      AddKeepsFit(e, items[0]);
      AddAllKeepsFit(Add(e, items[0]), items[1..]);
    }
  }

  lemma ClearedFits()
    ensures FieldsFit(CLEARED)
  {
  }

  /** What a fresh edit has read, from any bytes, can be written, and reads back as the same edit. */
  lemma AnyReadRoundTrip(input: Bytes)
    ensures
      var e := AddAll(CLEARED, Parse(input).0);
      EditOk(e) && Parse(Encoded(e)).1 && AddAll(CLEARED, Parse(Encoded(e)).0) == e
  {
    hide *;
    AllReadIsWritable(input);
    ClearedFits();
    AddAllKeepsFit(CLEARED, Parse(input).0);
    var e := AddAll(CLEARED, Parse(input).0);
    EditOkIsFieldsFit(e);
    EditRoundTrip(e, []);
    NoPointersInFront(e);
  }

  lemma NoPointersInFront(e: Edit)
    ensures CLEARED.(compactPointers := []) == CLEARED && e.(compactPointers := [] + e.compactPointers) == e
  {
    assert [] + e.compactPointers == e.compactPointers;
  }

  // ---------------------------------------------------------------- the edit object

  class VersionEdit {
    var edit: Edit

    constructor ()
      ensures edit == CLEARED
    {
      edit := CLEARED;
    }

    /** Everything is reset except the compaction pointers. */
    method Clear()
      modifies this
      ensures edit == CLEARED.(compactPointers := old(edit).compactPointers)
    {
      edit := edit.(comparator := None);
      edit := edit.(logNumber := None, prevLogNumber := None, lastSequence := None, nextFile := None);
      edit := edit.(deleted := [], newFiles := []);
    }

    method AddFile(level: nat, file: FileMeta)
      modifies this
      ensures edit == old(edit).(newFiles := old(edit).newFiles + [(level, file)])
    {
      edit := edit.(newFiles := edit.newFiles + [(level, file)]);
    }

    method RemoveFile(level: nat, file: nat)
      requires OrderedSet(edit.deleted)
      modifies this
      ensures edit == old(edit).(deleted := edit.deleted) && OrderedSet(edit.deleted)
      ensures forall q :: q in edit.deleted <==> q in old(edit).deleted || q == (level, file)
    {
      InsertKeepsSet(edit.deleted, (level, file));
      edit := edit.(deleted := InsertPair(edit.deleted, (level, file)));
    }

    /** Write each present field behind its tag, then the three lists. */
    method EncodeTo(dst0: Bytes) returns (dst: Bytes)
      requires EditOk(edit)
      ensures dst == dst0 + Encoded(edit)
    {
      hide ItemsBytes, Scalars, Pointers, Deletions, Additions, EditOk;
      ghost var s, p, q, r := Scalars(edit), Pointers(edit.compactPointers), Deletions(edit.deleted), Additions(edit.newFiles);
      ItemsJoin(s, p + (q + r));
      ItemsJoin(p, q + r);
      ItemsJoin(q, r);
      dst := EncodeScalars(dst0);
      dst := EncodePointers(dst);
      dst := EncodeDeletions(dst);
      dst := EncodeAdditions(dst);
      var a, b, c, d := ItemsBytes(s), ItemsBytes(p), ItemsBytes(q), ItemsBytes(r);
      assert dst0 + a + b + c + d == dst0 + (a + (b + (c + d)));
    }

    method EncodeScalars(dst0: Bytes) returns (dst: Bytes)
      ensures dst == dst0 + ItemsBytes(Scalars(edit))
    {
      hide Varint, LengthPrefixed, ItemsBytes, Scalars;
      ScalarBytes(edit);
      dst := dst0;
      if edit.comparator.Some? {
        dst := dst + Varint(COMPARATOR);
        dst := dst + LengthPrefixed(edit.comparator.value);
      }
      ghost var a := if edit.comparator.Some? then Varint(COMPARATOR) + LengthPrefixed(edit.comparator.value) else [];
      assert dst == dst0 + a;
      dst := EncodeNumber(dst, LOG_NUMBER, edit.logNumber);
      dst := EncodeNumber(dst, PREV_LOG_NUMBER, edit.prevLogNumber);
      dst := EncodeNumber(dst, NEXT_FILE_NUMBER, edit.nextFile);
      dst := EncodeNumber(dst, LAST_SEQUENCE, edit.lastSequence);
      Assoc5(dst0, a, NumberBytes(LOG_NUMBER, edit.logNumber), NumberBytes(PREV_LOG_NUMBER, edit.prevLogNumber),
             NumberBytes(NEXT_FILE_NUMBER, edit.nextFile), NumberBytes(LAST_SEQUENCE, edit.lastSequence));
    }

    /** One number behind its tag, if it is present. */
    method EncodeNumber(dst0: Bytes, tag: nat, n: Option<nat>) returns (dst: Bytes)
      ensures dst == dst0 + NumberBytes(tag, n)
    {
      dst := dst0;
      if n.Some? {
        Assoc(dst, Varint(tag), Varint(n.value));
        dst := dst + Varint(tag);
        dst := dst + Varint(n.value);
      }
    }

    method EncodePointers(dst0: Bytes) returns (dst: Bytes)
      ensures dst == dst0 + ItemsBytes(Pointers(edit.compactPointers))
    {
      ghost var items := Pointers(edit.compactPointers);
      hide ItemsBytes, Varint, LengthPrefixed;
      dst := dst0;
      assert items[0..] == items;
      for i := 0 to |edit.compactPointers|
        invariant dst + ItemsBytes(items[i..]) == dst0 + ItemsBytes(items)
      {
        ItemsStep(dst, items, i);
        Assoc(dst, Varint(COMPACT_POINTER), Body(items[i]));
        Assoc(dst + Varint(COMPACT_POINTER), Varint(edit.compactPointers[i].0), LengthPrefixed(edit.compactPointers[i].1));
        dst := dst + Varint(COMPACT_POINTER);
        dst := dst + Varint(edit.compactPointers[i].0);
        dst := dst + LengthPrefixed(edit.compactPointers[i].1);
      }
      NoMoreItems(dst, items);
    }

    method EncodeDeletions(dst0: Bytes) returns (dst: Bytes)
      ensures dst == dst0 + ItemsBytes(Deletions(edit.deleted))
    {
      ghost var items := Deletions(edit.deleted);
      hide ItemsBytes, Varint, LengthPrefixed;
      dst := dst0;
      assert items[0..] == items;
      for i := 0 to |edit.deleted|
        invariant dst + ItemsBytes(items[i..]) == dst0 + ItemsBytes(items)
      {
        ItemsStep(dst, items, i);
        Assoc(dst, Varint(DELETED_FILE), Body(items[i]));
        Assoc(dst + Varint(DELETED_FILE), Varint(edit.deleted[i].0), Varint(edit.deleted[i].1));
        dst := dst + Varint(DELETED_FILE);
        dst := dst + Varint(edit.deleted[i].0);
        dst := dst + Varint(edit.deleted[i].1);
      }
      NoMoreItems(dst, items);
    }

    method EncodeAdditions(dst0: Bytes) returns (dst: Bytes)
      ensures dst == dst0 + ItemsBytes(Additions(edit.newFiles))
    {
      ghost var items := Additions(edit.newFiles);
      hide ItemsBytes, Varint, LengthPrefixed, ItemBytes;
      dst := dst0;
      assert items[0..] == items;
      for i := 0 to |edit.newFiles|
        invariant dst + ItemsBytes(items[i..]) == dst0 + ItemsBytes(items)
      {
        ItemsStep(dst, items, i);
        dst := EncodeFile(dst, edit.newFiles[i].0, edit.newFiles[i].1);
      }
      NoMoreItems(dst, items);
    }

    method EncodeFile(dst0: Bytes, level: nat, f: FileMeta) returns (dst: Bytes)
      ensures dst == dst0 + ItemBytes(New(level, f))
    {
      hide Varint, LengthPrefixed;
      var a, b, c, d := Varint(f.number), Varint(f.size), LengthPrefixed(f.smallest), LengthPrefixed(f.largest);
      assert dst0 + (Varint(NEW_FILE) + (Varint(level) + (a + (b + (c + d)))))
          == dst0 + Varint(NEW_FILE) + Varint(level) + a + b + c + d;
      dst := dst0 + Varint(NEW_FILE);
      dst := dst + Varint(level);
      dst := dst + Varint(f.number);
      dst := dst + Varint(f.size);
      dst := dst + LengthPrefixed(f.smallest);
      dst := dst + LengthPrefixed(f.largest);
    }

    /** Read a record; false for a field that cannot be read, an unknown tag or bytes left over. */
    method DecodeFrom(src: Bytes) returns (ok: bool)
      modifies this
      ensures ok == Parse(src).1
      ensures edit == AddAll(CLEARED.(compactPointers := old(edit).compactPointers), Parse(src).0)
    {
      Clear();
      ghost var e0 := edit;
      var input := src;
      hide Parse, AddAll, Add, TakeItem;
      while true
        invariant AddAll(e0, Parse(src).0) == AddAll(edit, Parse(input).0) && Parse(src).1 == Parse(input).1
        decreases |input|
      {
        ParseStep(input);
        AddStep(edit, Parse(input).0);
        var taken := TakeItem(input);
        if taken.Fail? {
          return input == [];
        }
        edit := Add(edit, taken.value);
        input := taken.rest;
      }
    }
  }

  lemma {:induction false} ItemsJoin(a: seq<Item>, b: seq<Item>)
    ensures ItemsBytes(a + b) == ItemsBytes(a) + ItemsBytes(b)
    decreases a
  {
    hide ItemBytes;
    if a == [] {
      assert a + b == b;
    } else {
      assert (a + b)[1..] == a[1..] + b;
      ItemsJoin(a[1..], b);
      Assoc(ItemBytes(a[0]), ItemsBytes(a[1..]), ItemsBytes(b));
    }
  }

  lemma ItemsStep(dst: Bytes, items: seq<Item>, i: nat)
    requires i < |items|
    ensures dst + ItemsBytes(items[i..]) == (dst + ItemBytes(items[i])) + ItemsBytes(items[i + 1..])
  {
    hide ItemBytes;
    assert items[i..][1..] == items[i + 1..];
    Assoc(dst, ItemBytes(items[i]), ItemsBytes(items[i + 1..]));
  }

  lemma NoMoreItems(dst: Bytes, items: seq<Item>)
    ensures dst + ItemsBytes(items[|items|..]) == dst
  {
  }

  function NumberBytes(tag: nat, n: Option<nat>): Bytes {
    if n.Some? then Varint(tag) + Varint(n.value) else []
  }

  lemma Assoc5(d: Bytes, a: Bytes, b: Bytes, c: Bytes, e: Bytes, f: Bytes)
    ensures d + a + b + c + e + f == d + (a + b + c + e + f)
  {
  }

  /** The scalar fields' bytes, one optional piece after the other. */
  lemma ScalarBytes(e: Edit)
    ensures ItemsBytes(Scalars(e)) ==
      (if e.comparator.Some? then Varint(COMPARATOR) + LengthPrefixed(e.comparator.value) else [])
      + NumberBytes(LOG_NUMBER, e.logNumber) + NumberBytes(PREV_LOG_NUMBER, e.prevLogNumber)
      + NumberBytes(NEXT_FILE_NUMBER, e.nextFile) + NumberBytes(LAST_SEQUENCE, e.lastSequence)
  {
    hide Varint, LengthPrefixed, ItemsBytes, NumberBytes, Field;
    var a, b := Field(e.comparator, name => Comparator(name)), Field(e.logNumber, n => LogNumber(n));
    var c, f := Field(e.prevLogNumber, n => PrevLogNumber(n)), Field(e.nextFile, n => NextFile(n));
    var g := Field(e.lastSequence, n => LastSequence(n));
    ItemsJoin(a + b + c + f, g);
    ItemsJoin(a + b + c, f);
    ItemsJoin(a + b, c);
    ItemsJoin(a, b);
    FieldBytes(e);
  }

  /** The bytes of each optional field. */
  lemma FieldBytes(e: Edit)
    ensures ItemsBytes(Field(e.comparator, name => Comparator(name))) ==
      if e.comparator.Some? then Varint(COMPARATOR) + LengthPrefixed(e.comparator.value) else []
    ensures ItemsBytes(Field(e.logNumber, n => LogNumber(n))) == NumberBytes(LOG_NUMBER, e.logNumber)
    ensures ItemsBytes(Field(e.prevLogNumber, n => PrevLogNumber(n))) == NumberBytes(PREV_LOG_NUMBER, e.prevLogNumber)
    ensures ItemsBytes(Field(e.nextFile, n => NextFile(n))) == NumberBytes(NEXT_FILE_NUMBER, e.nextFile)
    ensures ItemsBytes(Field(e.lastSequence, n => LastSequence(n))) == NumberBytes(LAST_SEQUENCE, e.lastSequence)
  {
    hide Varint, LengthPrefixed, ItemsBytes;
    FewItems(Field(e.comparator, name => Comparator(name)));
    FewItems(Field(e.logNumber, n => LogNumber(n)));
    FewItems(Field(e.prevLogNumber, n => PrevLogNumber(n)));
    FewItems(Field(e.nextFile, n => NextFile(n)));
    FewItems(Field(e.lastSequence, n => LastSequence(n)));
  }

  lemma FewItems(items: seq<Item>)
    ensures items == [] ==> ItemsBytes(items) == []
    ensures |items| == 1 ==> ItemsBytes(items) == ItemBytes(items[0])
  {
    hide ItemBytes;
    if |items| == 1 {
      assert items[1..] == [];
      assert ItemBytes(items[0]) + [] == ItemBytes(items[0]);
    }
  }

  lemma AddStep(e: Edit, items: seq<Item>)
    ensures AddAll(e, []) == e
    ensures items != [] ==> AddAll(e, items) == AddAll(Add(e, items[0]), items[1..])
  {
  }
}
