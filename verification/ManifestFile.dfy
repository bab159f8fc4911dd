/**
 The manifest as a file: edits are encoded field by field and appended as log records.  Reading the file back,
 also when its end is cut off, and replaying what it holds gives the version and the counters of the last edit
 that is wholly there; opening the database from the bytes starts from that.
 */
module ManifestFile {
  import opened Coding
  import opened Keys
  import opened Files
  import opened Reads
  import opened VersionBuilder
  import opened Versions
  import opened LogFormat
  import opened LogRecords
  import opened LogIO
  import V = VersionEdit
  import M = Manifest
  import R = Recovery

  // ---------------------------------------------------------------- what a record means

  /** How internal keys are written, and the file that a description names. */
  datatype Codec = Codec(key: IKey -> Bytes, open: V.FileMeta -> File) {
    function Describe(f: File): V.FileMeta { V.FileMeta(f.number, f.size, key(f.Smallest()), key(f.Largest())) }

    /** A new file on the wire: level, number, size, first and last key. */
    lemma FileIsWritten(level: nat, f: File)
      ensures V.ItemBytes(V.New(level, Describe(f))) ==
        Varint(7) + (Varint(level) + (Varint(f.number) + (Varint(f.size) +
          (LengthPrefixed(key(f.entries[0].ikey)) + LengthPrefixed(key(f.entries[|f.entries| - 1].ikey))))))
    {
      hide Varint;
    }

    /** The description of the file can be written, and leads back to the file. */
    ghost predicate Known(f: File) { open(Describe(f)) == f && V.Writable(V.New(0, Describe(f))) }

    /** The files added at one level, in the order in which they are listed. */
    function AddedAt(files: seq<(nat, V.FileMeta)>, level: nat): seq<File>
      decreases files
    {
      if files == [] then []
      else (if files[0].0 == level then [open(files[0].1)] else []) + AddedAt(files[1..], level)
    }

    function LevelOf(e: V.Edit, level: nat): M.LevelEdit {
      M.LevelEdit(set p | p in e.deleted && p.0 == level :: p.1, AddedAt(e.newFiles, level))
    }

    function Meaning(e: V.Edit): (m: M.Edit)
      ensures |m.levels| == NUM_LEVELS
    {
      M.Edit(e.logNumber, e.prevLogNumber, e.nextFile, e.lastSequence, seq(NUM_LEVELS, l requires l >= 0 => LevelOf(e, l)))
    }

    function Meanings(edits: seq<V.Edit>): (m: seq<M.Edit>)
      ensures |m| == |edits| && M.SevenLevels(m) && forall k :: 0 <= k < |m| ==> m[k] == Meaning(edits[k])
    {
      seq(|edits|, k requires 0 <= k < |edits| => Meaning(edits[k]))
    }

    ghost predicate AddsKnown(e: V.Edit) { forall p :: p in e.newFiles ==> Known(open(p.1)) }

    lemma {:induction false} AddedJoin(a: seq<(nat, V.FileMeta)>, b: seq<(nat, V.FileMeta)>, level: nat)
      ensures AddedAt(a + b, level) == AddedAt(a, level) + AddedAt(b, level)
      decreases a
    {
      if a == [] {
        assert a + b == b;
      } else {
        assert (a + b)[1..] == a[1..] + b;
        AddedJoin(a[1..], b, level);
      }
    }

    lemma {:induction false} AddedAreKnown(files: seq<(nat, V.FileMeta)>, level: nat)
      requires forall p :: p in files ==> Known(open(p.1))
      ensures forall f :: f in AddedAt(files, level) ==> Known(f)
      decreases files
    {
      hide Known;
      if files != [] {
        AddedAreKnown(files[1..], level);
      }
    }

    // the snapshot of a version

    function Listed(files: seq<File>, level: nat): (r: seq<(nat, V.FileMeta)>)
      ensures |r| == |files|
    {
      if files == [] then []
      else Listed(files[..|files| - 1], level) + [(level, Describe(files[|files| - 1]))]
    }

    /** The files of the first levels, as a snapshot lists them. */
    function ListedUpTo(v: Version, n: nat): seq<(nat, V.FileMeta)>
      requires n <= |v|
    {
      if n == 0 then [] else ListedUpTo(v, n - 1) + Listed(v[n - 1], n - 1)
    }

    lemma {:induction false} ListedMeans(files: seq<File>, level: nat, l: nat)
      requires forall f :: f in files ==> Known(f)
      ensures AddedAt(Listed(files, level), l) == if l == level then files else []
      ensures forall p :: p in Listed(files, level) ==> p.0 == level && exists f :: f in files && p.1 == Describe(f)
    {
      if files != [] {
        var n := |files| - 1;
        var f, last := files[n], [(level, Describe(files[n]))];
        assert files == files[..n] + [f];
        ListedMeans(files[..n], level, l);
        AddedJoin(Listed(files[..n], level), last, l);
        OneAdded(last, l);
        assert f in files && Known(f);
      }
    }

    lemma OneAdded(files: seq<(nat, V.FileMeta)>, l: nat)
      requires |files| == 1
      ensures AddedAt(files, l) == if files[0].0 == l then [open(files[0].1)] else []
    {
      assert files[1..] == [];
    }

    ghost predicate AllKnown(v: Version) {
      forall l, f :: 0 <= l < |v| && f in v[l] ==> Known(f)
    }

    lemma {:induction false} ListedUpToMeans(v: Version, n: nat, l: nat)
      requires n <= |v| && AllKnown(v)
      ensures AddedAt(ListedUpTo(v, n), l) == if l < n then v[l] else []
      ensures forall p :: p in ListedUpTo(v, n) ==> p.0 < n && exists k, f :: 0 <= k < n && f in v[k] && p.1 == Describe(f)
    {
      hide Known, Codec.Listed, Codec.Describe, Codec.AddedAt;
      if n == 0 {
        NoneAdded(l);
      } else {
        ListedUpToMeans(v, n - 1, l);
        ListedMeans(v[n - 1], n - 1, l);
        AddedJoin(ListedUpTo(v, n - 1), Listed(v[n - 1], n - 1), l);
      }
    }

    lemma NoneAdded(l: nat)
      ensures AddedAt([], l) == []
    {
    }

    /** The record that lists a whole version. */
    function Snapshot(comparator: Bytes, pointers: seq<(nat, Bytes)>, v: Version): V.Edit {
      V.CLEARED.(comparator := Some(comparator), compactPointers := pointers, newFiles := ListedUpTo(v, |v|))
    }

    lemma SnapshotMeans(comparator: Bytes, pointers: seq<(nat, Bytes)>, v: Version)
      requires |v| == NUM_LEVELS && AllKnown(v)
      ensures Meaning(Snapshot(comparator, pointers, v)) == M.SnapshotOf(v)
    {
      hide Known, Codec.ListedUpTo, Codec.AddedAt;
      var e := Snapshot(comparator, pointers, v);
      forall l: nat | l < NUM_LEVELS
        ensures LevelOf(e, l) == M.LevelEdit({}, v[l])
      {
        ListedUpToMeans(v, |v|, l);
        assert (set p | p in e.deleted && p.0 == l :: p.1) == {};
      }
    }

    lemma SnapshotFits(comparator: Bytes, pointers: seq<(nat, Bytes)>, v: Version)
      requires |v| == NUM_LEVELS && AllKnown(v) && |comparator| < TWO32
      requires forall p :: p in pointers ==> p.0 < NUM_LEVELS && V.KeyOk(p.1)
      ensures V.EditOk(Snapshot(comparator, pointers, v))
    {
      hide V.KeyOk, Codec.ListedUpTo, Codec.AddedAt, Codec.Describe, V.EditOk;
      var e := Snapshot(comparator, pointers, v);
      ListedUpToMeans(v, |v|, 0);
      forall p | p in e.newFiles
        ensures V.Writable(V.New(p.0, p.1))
      {
        var k: nat, f :| k < |v| && f in v[k] && p.1 == Describe(f);
        assert Known(f);
      }
      V.EditOkIsFieldsFit(e);
    }
  }

  // ---------------------------------------------------------------- writing

  function Records(edits: seq<V.Edit>): (r: seq<Bytes>)
    ensures |r| == |edits| && forall k :: 0 <= k < |r| ==> r[k] == V.Encoded(edits[k])
  {
    seq(|edits|, k requires 0 <= k < |edits| => V.Encoded(edits[k]))
  }

  /** The bytes of a manifest that holds these edits. */
  function FileBytes(crc: Crc, edits: seq<V.Edit>): Bytes { LogBytes(crc, Records(edits)) }

  ghost predicate AllEditsOk(edits: seq<V.Edit>) {
    forall e :: e in edits ==> V.EditOk(e)
  }

  /** The record names another comparator than the one the database is opened with. */
  predicate Foreign(e: V.Edit, comparator: Bytes) { e.comparator.Some? && e.comparator.value != comparator }

  ghost predicate NoneForeign(edits: seq<V.Edit>, comparator: Bytes) {
    forall e :: e in edits ==> !Foreign(e, comparator)
  }

  class ManifestLog {
    const codec: Codec
    const comparator: Bytes
    const vs: M.VersionSet
    const log: Writer
    ghost var edits: seq<V.Edit>

    ghost predicate Valid() reads this, vs, log {
      && vs.Valid() && log.Valid() && |comparator| < TWO32
      && AllEditsOk(edits) && NoneForeign(edits, comparator) && codec.Meanings(edits) == vs.manifest
      && log.dest == FileBytes(log.crc, edits)
      && codec.AllKnown(vs.current)
    }

    constructor (codec: Codec, comparator: Bytes, vs: M.VersionSet, crc: Crc)
      requires vs.Valid() && vs.manifest == [] && codec.AllKnown(vs.current) && |comparator| < TWO32
      ensures Valid() && this.codec == codec && this.vs == vs && fresh(log) && edits == []
    {
      this.codec, this.comparator, this.vs := codec, comparator, vs;
      log := new Writer(crc, []);
      edits := [];
      new;
      NoBytes(crc);
    }

    /** Encode an edit and append it as one record. */
    method Append(edit: V.VersionEdit)
      requires log.Valid() && V.EditOk(edit.edit) && log.dest == FileBytes(log.crc, edits)
      modifies this`edits, log
      ensures log.Valid() && edits == old(edits) + [edit.edit] && log.dest == FileBytes(log.crc, edits)
    {
      hide V.EditOk, V.Encoded, LogBytes, Fragments, ChunksBytes;
      var record := edit.EncodeTo([]);
      assert [] + V.Encoded(edit.edit) == V.Encoded(edit.edit);
      assert Records(edits + [edit.edit]) == Records(edits) + [record];
      log.AddRecord(record);
      edits := edits + [edit.edit];
    }

    /** Save the comparator's name, the compaction pointers and the current version. */
    method WriteSnapshot(pointers: seq<(nat, Bytes)>)
      requires log.Valid() && vs.Valid() && codec.AllKnown(vs.current) && |comparator| < TWO32
      requires log.dest == FileBytes(log.crc, edits)
      requires forall p :: p in pointers ==> p.0 < NUM_LEVELS && V.KeyOk(p.1)
      modifies this`edits, log
      ensures log.Valid() && log.dest == FileBytes(log.crc, edits)
      ensures edits == old(edits) + [codec.Snapshot(comparator, pointers, vs.current)]
      ensures V.EditOk(codec.Snapshot(comparator, pointers, vs.current))
    {
      hide *;
      var edit := new V.VersionEdit();
      edit.edit := edit.edit.(comparator := Some(comparator), compactPointers := pointers);
      SnapshotIs(codec, comparator, pointers, vs.current);
      ListFiles(edit);
      codec.SnapshotFits(comparator, pointers, vs.current);
      Append(edit);
    }

    method ListFiles(edit: V.VersionEdit)
      requires vs.Valid() && edit.edit.newFiles == []
      modifies edit
      ensures |vs.current| == NUM_LEVELS
      ensures edit.edit == old(edit.edit).(newFiles := codec.ListedUpTo(vs.current, |vs.current|))
    {
      hide Codec.Describe, M.VersionSet.Valid;
      ghost var start := edit.edit;
      SevenLevels(vs);
      for level := 0 to NUM_LEVELS
        invariant edit.edit == start.(newFiles := codec.ListedUpTo(vs.current, level))
      {
        var files := vs.current[level];
        assert files[..0] == [];
        assert codec.Listed([], level) == [];
        for i := 0 to |files|
          invariant edit.edit == start.(newFiles := codec.ListedUpTo(vs.current, level) + codec.Listed(files[..i], level))
        {
          var f := files[i];
          assert files[..i + 1][..i] == files[..i];
          edit.AddFile(level, codec.Describe(f));
        }
        assert files[..|files|] == files;
      }
    }

    /** Complete the edit, append it behind a snapshot if the file is new, and install the version it makes. */
    method LogAndApply(edit: V.VersionEdit, pointers: seq<(nat, Bytes)>)
      requires Valid() && V.EditOk(edit.edit) && codec.AddsKnown(edit.edit) && !Foreign(edit.edit, comparator)
      requires vs.logNumber < TWO64 && vs.prevLogNumber < TWO64 && vs.nextFile < TWO64 && vs.lastSequence < TWO64
      requires forall p :: p in pointers ==> p.0 < NUM_LEVELS && V.KeyOk(p.1)
      modifies this`edits, vs, log, edit
      ensures Valid() && vs.manifest != [] && vs.nextFile == old(vs.nextFile) && vs.lastSequence == old(vs.lastSequence)
      ensures M.CountersOf(vs.manifest) ==
        M.Counters(Some(vs.logNumber), Some(vs.prevLogNumber), Some(vs.nextFile), Some(vs.lastSequence))
      ensures vs.current == M.Next(old(vs.current), codec.Meaning(old(edit.edit)).levels)
      ensures old(M.Described(vs.Records()) == vs.current) ==>
        var e := codec.Meaning(old(edit.edit)).levels;
        M.Described(vs.manifest) == vs.current <==> M.AllAgree(old(M.Replay(vs.Records())), e)
    {
      hide *;
      HasParts();
      RecordsOf(vs);
      ghost var current := vs.current;
      var e0 := edit.edit;
      if vs.manifest == [] {
        assert edits == [];
        WriteSnapshot(pointers);
        StartsFile(codec, comparator, pointers, current);
        assert edits == [codec.Snapshot(comparator, pointers, current)];
      }
      ghost var written := edits;
      assert codec.Meanings(written) == vs.Records() && AllEditsOk(written) && NoneForeign(written, comparator);
      edit.edit := Complete(e0, vs.logNumber, vs.prevLogNumber, vs.nextFile, vs.lastSequence);
      CompleteMeans(codec, e0, vs.logNumber, vs.prevLogNumber, vs.nextFile, vs.lastSequence);
      Append(edit);
      vs.LogAndApply(codec.Meaning(e0));
      OneMoreEdit(codec, comparator, written, e0, edit.edit);
      SevenLevels(vs);
      StillKnown(codec, current, e0, vs.current);
      IsValid();
    }

    lemma HasParts()
      requires Valid()
      ensures vs.Valid() && log.Valid() && |comparator| < TWO32 && AllEditsOk(edits) && codec.Meanings(edits) == vs.manifest
      ensures log.dest == FileBytes(log.crc, edits) && codec.AllKnown(vs.current) && |vs.current| == NUM_LEVELS
      ensures NoneForeign(edits, comparator)
    {
    }

    lemma IsValid()
      requires vs.Valid() && log.Valid() && |comparator| < TWO32 && AllEditsOk(edits) && codec.Meanings(edits) == vs.manifest
      requires log.dest == FileBytes(log.crc, edits) && codec.AllKnown(vs.current) && NoneForeign(edits, comparator)
      ensures Valid()
    {
    }
  }

  lemma NoBytes(crc: Crc)
    ensures FileBytes(crc, []) == []
  {
  }

  lemma SnapshotIs(codec: Codec, comparator: Bytes, pointers: seq<(nat, Bytes)>, v: Version)
    ensures V.CLEARED.newFiles == []
    ensures codec.Snapshot(comparator, pointers, v) ==
      V.CLEARED.(comparator := Some(comparator), compactPointers := pointers, newFiles := codec.ListedUpTo(v, |v|))
  {
  }

  lemma SevenLevels(vs: M.VersionSet)
    requires vs.Valid()
    ensures |vs.current| == NUM_LEVELS
  {
  }

  lemma RecordsOf(vs: M.VersionSet)
    requires vs.Valid()
    ensures vs.Records() == if vs.manifest == [] then [M.SnapshotOf(vs.current)] else vs.manifest
  {
  }

  lemma StartsFile(codec: Codec, comparator: Bytes, pointers: seq<(nat, Bytes)>, v: Version)
    requires |v| == NUM_LEVELS && codec.AllKnown(v) && V.EditOk(codec.Snapshot(comparator, pointers, v))
    ensures
      var edits := [codec.Snapshot(comparator, pointers, v)];
      codec.Meanings(edits) == [M.SnapshotOf(v)] && AllEditsOk(edits) && NoneForeign(edits, comparator)
  {
    hide V.EditOk, Codec.AllKnown, Codec.Meaning, Codec.ListedUpTo;
    codec.SnapshotMeans(comparator, pointers, v);
  }

  /** Set what the edit leaves open: the log numbers in use, and always the two counters. */
  function Complete(e: V.Edit, logNumber: nat, prevLogNumber: nat, nextFile: nat, lastSequence: nat): V.Edit {
    var e1 := if e.logNumber == None then e.(logNumber := Some(logNumber)) else e;
    var e2 := if e1.prevLogNumber == None then e1.(prevLogNumber := Some(prevLogNumber)) else e1;
    e2.(nextFile := Some(nextFile), lastSequence := Some(lastSequence))
  }

  lemma CompleteMeans(codec: Codec, e: V.Edit, logNumber: nat, prevLogNumber: nat, nextFile: nat, lastSequence: nat)
    requires V.EditOk(e) && logNumber < TWO64 && prevLogNumber < TWO64 && nextFile < TWO64 && lastSequence < TWO64
    ensures
      var e' := Complete(e, logNumber, prevLogNumber, nextFile, lastSequence);
      && V.EditOk(e')
      && e'.comparator == e.comparator
      && codec.Meaning(e') == M.Completed(codec.Meaning(e), logNumber, prevLogNumber, nextFile, lastSequence)
  {
    hide V.EditOk, V.KeyOk, V.Writable, V.OrderedSet;
    var e' := Complete(e, logNumber, prevLogNumber, nextFile, lastSequence);
    V.EditOkIsFieldsFit(e);
    V.EditOkIsFieldsFit(e');
    assert forall l: nat :: codec.LevelOf(e', l) == codec.LevelOf(e, l);
    assert codec.Meaning(e').levels == codec.Meaning(e).levels;
  }

  lemma OneMoreEdit(codec: Codec, comparator: Bytes, edits: seq<V.Edit>, e0: V.Edit, e: V.Edit)
    requires AllEditsOk(edits) && V.EditOk(e)
    requires NoneForeign(edits, comparator) && !Foreign(e0, comparator) && e.comparator == e0.comparator
    ensures AllEditsOk(edits + [e]) && codec.Meanings(edits + [e]) == codec.Meanings(edits) + [codec.Meaning(e)]
    ensures NoneForeign(edits + [e], comparator)
  {
    hide V.EditOk, Codec.Meaning;
  }

  lemma StillKnown(codec: Codec, v: Version, e: V.Edit, v': Version)
    requires |v| == NUM_LEVELS && codec.AllKnown(v) && codec.AddsKnown(e) && v' == M.Next(v, codec.Meaning(e).levels)
    ensures codec.AllKnown(v')
  {
    hide Codec.Known, Codec.AddedAt, Ordered, Saved, M.ApplyLevel;
    var m := codec.Meaning(e).levels;
    M.EmptyIsOrdered();
    forall l, f | 0 <= l < NUM_LEVELS && f in v'[l]
      ensures codec.Known(f)
    {
      var own := M.ApplyLevel(M.NOTHING, m[l]);
      M.ApplyLevelIs(M.NOTHING, m[l]);
      SavedMembers(v[l], own.deleted, own.added);
      codec.AddedAreKnown(e.newFiles, l);
    }
  }

  // ---------------------------------------------------------------- reading

  datatype Outcome =
    | WrongComparator
    | MissingCounters
    | Read(recovered: M.Recovered)

  lemma ReadsEdit(e: V.Edit)
    requires V.EditOk(e)
    ensures V.Parse(V.Encoded(e)).1
    ensures V.AddAll(V.CLEARED.(compactPointers := []), V.Parse(V.Encoded(e)).0) == e
  {
    hide *;
    V.EditRoundTrip(e, []);
    assert [] + e.compactPointers == e.compactPointers;
  }

  lemma ReadsPrefixOf(crc: Crc, edits: seq<V.Edit>, n: nat)
    requires n <= |FileBytes(crc, edits)|
    ensures Whole(0, Records(edits), n) <= |edits|
    ensures ReadFrom(crc, FileBytes(crc, edits)[..n], 0, CLEAN).records == Records(edits[..Whole(0, Records(edits), n)])
  {
    hide ReadFrom, Whole, LogBytes, V.Encoded;
    PrefixReadsWholeRecords(crc, Records(edits), n);
    var k := Whole(0, Records(edits), n);
    assert Records(edits)[..k] == Records(edits[..k]);
  }

  /** The edits of which the file holds the whole record. */
  ghost function WholeEdits(crc: Crc, edits: seq<V.Edit>, file: Bytes): (r: seq<V.Edit>)
    ensures r <= edits
  {
    edits[..Whole(0, Records(edits), |file|)]
  }

  /**
   Recover from the manifest's bytes, of which the end may be missing: what counts is the records that are whole.
   Each record is decoded by itself; the first one of another comparator ends it.
   */
  method RecoverFile(crc: Crc, file: Bytes, codec: Codec, comparator: Bytes, ghost edits: seq<V.Edit>) returns (r: Outcome)
    requires file <= FileBytes(crc, edits) && AllEditsOk(edits)
    ensures r == WrongComparator <==> !NoneForeign(WholeEdits(crc, edits, file), comparator)
    ensures r != WrongComparator ==>
      var m := codec.Meanings(WholeEdits(crc, edits, file));
      var c := M.CountersOf(m);
      && (r == MissingCounters <==> c.nextFile.None? || c.logNumber.None? || c.lastSequence.None?)
      && (r.Read? ==>
            && r.recovered.version == M.Described(m)
            && r.recovered.nextFile == c.nextFile.value + 1 && r.recovered.lastSequence == c.lastSequence.value
            && r.recovered.logNumber == c.logNumber.value
            && r.recovered.prevLogNumber == if c.prevLogNumber.Some? then c.prevLogNumber.value else 0)
  {
    hide *;
    ghost var whole := WholeEdits(crc, edits, file);
    var reader := new Reader(crc, file);
    var records := reader.ReadAll();
    WholeIs(crc, edits, file, records, reader.drops);
    NoMeanings(codec);
    var manifest: seq<M.Edit> := [];
    for k := 0 to |records|
      invariant manifest == codec.Meanings(whole[..k])
      invariant forall i :: 0 <= i < k && whole[i].comparator.Some? ==> whole[i].comparator.value == comparator
    {
      var edit := new V.VersionEdit();
      ClearedHas();
      NextRecord(codec, whole, k);
      var ok := edit.DecodeFrom(records[k]);
      assert ok && edit.edit == whole[k];
      if edit.edit.comparator.Some? && edit.edit.comparator.value != comparator {
        OneForeign(whole, k, comparator);
        return WrongComparator;
      }
      manifest := manifest + [codec.Meaning(edit.edit)];
    }
    assert whole[..|records|] == whole;
    AllOwn(whole, comparator);
    var recovered := M.Recover(manifest);
    r := if recovered.None? then MissingCounters else Read(recovered.value);
  }

  lemma ClearedHas()
    ensures V.CLEARED.compactPointers == []
  {
  }

  lemma NextRecord(codec: Codec, whole: seq<V.Edit>, k: nat)
    requires k < |whole| && AllEditsOk(whole)
    ensures V.Parse(Records(whole)[k]).1
    ensures V.AddAll(V.CLEARED.(compactPointers := []), V.Parse(Records(whole)[k]).0) == whole[k]
    ensures codec.Meanings(whole[..k + 1]) == codec.Meanings(whole[..k]) + [codec.Meaning(whole[k])]
  {
    hide V.Parse, V.AddAll, V.Encoded, V.EditOk, Codec.Meaning;
    ReadsEdit(whole[k]);
  }

  lemma WholeIs(crc: Crc, edits: seq<V.Edit>, file: Bytes, records: seq<Bytes>, drops: seq<nat>)
    requires file <= FileBytes(crc, edits) && AllEditsOk(edits)
    requires LogRecords.Outcome(records, drops) == LogIO.Before([], ReadFrom(crc, file, 0, CLEAN))
    ensures records == Records(WholeEdits(crc, edits, file)) && AllEditsOk(WholeEdits(crc, edits, file))
  {
    hide ReadFrom, FileBytes, V.EditOk, Whole, Records;
    assert file == FileBytes(crc, edits)[..|file|];
    ReadsPrefixOf(crc, edits, |file|);
  }

  lemma NoMeanings(codec: Codec)
    ensures codec.Meanings([]) == []
  {
  }

  lemma OneForeign(edits: seq<V.Edit>, k: nat, comparator: Bytes)
    requires k < |edits| && edits[k].comparator.Some? && edits[k].comparator.value != comparator
    ensures !NoneForeign(edits, comparator)
  {
    assert edits[k] in edits;
  }

  lemma AllOwn(edits: seq<V.Edit>, comparator: Bytes)
    requires forall k :: 0 <= k < |edits| && edits[k].comparator.Some? ==> edits[k].comparator.value == comparator
    ensures NoneForeign(edits, comparator)
  {
  }

  // ---------------------------------------------------------------- the whole way

  lemma AllWhole(crc: Crc, edits: seq<V.Edit>)
    ensures WholeEdits(crc, edits, FileBytes(crc, edits)) == edits
  {
    hide Whole, ChunksBytes, LogChunks, V.Encoded, AllFit;
    var n := |FileBytes(crc, edits)|;
    LogFits(0, Records(edits));
    WholeIsAll(0, Records(edits), n);
  }

  /**
   Reading the file that a sequence of edits wrote gives the counters they arrived at; and the version they
   arrived at, exactly if the records describe it.
   */
  method ReadBack(m: ManifestLog) returns (r: Outcome)
    requires m.Valid() && m.vs.manifest != []
    requires M.CountersOf(m.vs.manifest) ==
      M.Counters(Some(m.vs.logNumber), Some(m.vs.prevLogNumber), Some(m.vs.nextFile), Some(m.vs.lastSequence))
    ensures r.Read?
    ensures r == Read(M.Recovered(m.vs.current, m.vs.nextFile + 1, m.vs.lastSequence, m.vs.logNumber, m.vs.prevLogNumber))
      <==> M.Described(m.vs.manifest) == m.vs.current
  {
    hide *;
    m.HasParts();
    AllWhole(m.log.crc, m.edits);
    r := RecoverFile(m.log.crc, m.log.dest, m.codec, m.comparator, m.edits);
  }

  /** The edits describe what the engine takes the manifest to say. */
  ghost predicate Stands(codec: Codec, edits: seq<V.Edit>, m: R.Manifest) {
    var c := M.CountersOf(codec.Meanings(edits));
    && m.version == M.Described(codec.Meanings(edits))
    && c.logNumber == Some(m.logNumber) && c.nextFile == Some(m.nextFile) && c.lastSequence == Some(m.last)
  }

  /**
   Open a database from its files: the bytes of its manifest, of which the end may be missing, the logs and the
   tables.  If what the whole records describe holds the history together with logs and tables, it is not lost.
   */
  method Open(crc: Crc, file: Bytes, codec: Codec, comparator: Bytes,
              logs: map<nat, seq<R.Record>>, tables: map<nat, seq<Entry>>,
              full: seq<Entry> -> bool, size: seq<Entry> -> nat,
              ghost edits: seq<V.Edit>, ghost m: R.Manifest, ghost h: seq<Op>, ghost floor: nat, ghost start: nat)
    returns (ok: bool, disk': R.Disk, logNumber: nat, ghost s': R.System)
    requires file <= FileBytes(crc, edits) && AllEditsOk(edits) && NoneForeign(edits, comparator)
    requires Stands(codec, WholeEdits(crc, edits, file), m)
    requires R.MissingTable(R.Disk(logs, tables, m)) || R.Recoverable(R.Disk(logs, tables, m), h, floor, start)
    ensures ok <==> !R.MissingTable(R.Disk(logs, tables, m))
    ensures ok ==> disk'.manifest.last == (if m.last > |h| then m.last else |h|) && |disk'.manifest.version| == NUM_LEVELS
    ensures ok ==> forall user, s: nat :: s >= |h| ==>
      Answer(LevelEntries(disk'.manifest.version, 0, NUM_LEVELS), user, s) == ReadHistory(h, user, |h|)
    ensures ok && m.last <= |h| ==> s'.disk == disk' && s'.logNumber == logNumber && R.SystemInv(s') && s'.st.history == h
  {
    hide *;
    ghost var whole := WholeEdits(crc, edits, file);
    PrefixOwn(edits, whole, comparator);
    StandsHas(codec, whole, m);
    var r := RecoverFile(crc, file, codec, comparator, edits);
    var c := r.recovered;
    var disk := R.Disk(logs, tables, R.Manifest(c.version, c.logNumber, c.nextFile - 1, c.lastSequence));
    assert disk == R.Disk(logs, tables, m);
    ok, disk', logNumber, s' := R.Recover(disk, full, size, h, floor, start);
  }

  lemma PrefixOwn(edits: seq<V.Edit>, whole: seq<V.Edit>, comparator: Bytes)
    requires whole <= edits && NoneForeign(edits, comparator)
    ensures NoneForeign(whole, comparator)
  {
  }

  lemma StandsHas(codec: Codec, edits: seq<V.Edit>, m: R.Manifest)
    requires Stands(codec, edits, m)
    ensures
      var c := M.CountersOf(codec.Meanings(edits));
      && m.version == M.Described(codec.Meanings(edits))
      && c.logNumber == Some(m.logNumber) && c.nextFile == Some(m.nextFile) && c.lastSequence == Some(m.last)
  {
  }
}
