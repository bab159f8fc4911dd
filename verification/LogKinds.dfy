/**
 Physical records of no known kind.  The reader gives its own two signals, end of file and bad record, the numbers
 behind the largest kind, and tells them from a kind byte in the file by nothing.
 */
module LogKinds {
  import opened Keys
  import opened LogFormat
  import opened LogRecords

  /** A record at `p` passes the length and checksum tests, and its kind is none that a writer uses. */
  ghost predicate UnknownAt(crc: Crc, file: Bytes, p: nat, kind: Byte, data: Bytes, q: nat) {
    p <= |file| && !(FULL <= kind <= LAST) && Physical(crc, file, p) == (Frag(kind, data), q)
  }

  /** The record's bytes and those collected before it are reported as dropped, and reading goes on behind it. */
  ghost predicate DropsAndGoesOn(crc: Crc, file: Bytes, p: nat, data: Bytes, q: nat, s: Partial)
    requires p <= |file| && q <= |file|
  {
    ReadFrom(crc, file, p, s) ==
      Prepend(Effect(None, CLEAN, [|data| + if s.open then |s.scratch| else 0]), ReadFrom(crc, file, q, CLEAN))
  }

  /**
   A record of unknown kind is dropped, reported and passed over, if and only if its kind is not one of the reader's
   signals; or it is the bad-record signal on an empty record inside a fragmented one, where the reports are the same.
   */
  lemma DropIsExact(crc: Crc, file: Bytes, p: nat, kind: Byte, data: Bytes, q: nat, s: Partial)
    requires UnknownAt(crc, file, p, kind, data, q)
    ensures q <= |file|
    ensures DropsAndGoesOn(crc, file, p, data, q, s) <==>
      (kind != 5 && kind != 6) || (kind == 6 && s.open && data == [])
  {
    hide Physical, ReadFrom, Prepend;
    var n := |data| + if s.open then |s.scratch| else 0;
    var rest := ReadFrom(crc, file, q, CLEAN);
    if kind == EOF_KIND {
      EndSignal(crc, file, p, data, q, s);
      NotNothing(n, rest);
    } else {
      var e := OnFragment(kind, data, s);
      hide OnFragment;
      ReadStep(crc, file, p, q, kind, data, s);
      WhatIsReported(kind, data, s, n);
      SameReports(e, Effect(None, CLEAN, [n]), rest);
      OneDrop(e.drops, n, rest.drops);
    }
  }

  lemma WhatIsReported(kind: Byte, data: Bytes, s: Partial, n: nat)
    requires !(FULL <= kind <= LAST) && kind != EOF_KIND && n == |data| + if s.open then |s.scratch| else 0
    ensures
      var e := OnFragment(kind, data, s);
      && e.state == CLEAN && e.record == None && |e.drops| <= 1
      && (e.drops == [n] <==> kind != BAD_KIND || (s.open && data == []))
  {
    var drops := OnFragment(kind, data, s).drops;
    assert kind == BAD_KIND ==> drops == if s.open then [|s.scratch|] else [];
    assert drops != [] ==> (drops == [n] <==> drops[0] == n);
  }

  lemma NotNothing(n: nat, o: Outcome)
    ensures Prepend(Effect(None, CLEAN, [n]), o) != Outcome([], [])
  {
    assert |[n] + o.drops| > 0;
  }

  lemma SameReports(a: Effect, b: Effect, o: Outcome)
    requires a.record == b.record
    ensures Prepend(a, o) == Prepend(b, o) <==> a.drops + o.drops == b.drops + o.drops
  {
  }

  /** Two lists of reports with the same rest are equal if their beginnings are. */
  lemma OneDrop(drops: seq<nat>, n: nat, rest: seq<nat>)
    requires |drops| <= 1
    ensures drops + rest == [n] + rest <==> drops == [n]
  {
    if drops + rest == [n] + rest {
      assert |drops + rest| == |[n] + rest|;
      assert (drops + rest)[0] == ([n] + rest)[0];
    }
  }

  /** Kind 5 ends the reading: it and everything behind it is lost, and nothing is reported. */
  lemma EndSignal(crc: Crc, file: Bytes, p: nat, data: Bytes, q: nat, s: Partial)
    requires UnknownAt(crc, file, p, 5, data, q)
    ensures ReadFrom(crc, file, p, s) == Outcome([], [])
  {
    hide Physical;
  }

  /** Kind 6 is passed over, but of its own bytes nothing is reported. */
  lemma BadSignal(crc: Crc, file: Bytes, p: nat, data: Bytes, q: nat, s: Partial)
    requires UnknownAt(crc, file, p, 6, data, q)
    ensures q <= |file|
    ensures ReadFrom(crc, file, p, s) ==
      Prepend(Effect(None, CLEAN, if s.open then [|s.scratch|] else []), ReadFrom(crc, file, q, CLEAN))
  {
    hide Physical, ReadFrom;
    ReadStep(crc, file, p, q, BAD_KIND, data, s);
  }

  // ---------------------------------------------------------------- a file

  /** An empty record of some kind, with the right checksum, in front of a written log of one record. */
  function FileWith(crc: Crc, kind: Byte, data: Bytes): Bytes {
    Header(crc, kind, []) + (Header(crc, FULL, data) + data)
  }

  lemma FileParses(crc: Crc, kind: Byte, data: Bytes)
    requires kind != ZERO && 2 * HEADER + |data| <= BLOCK
    ensures
      var file := FileWith(crc, kind, data);
      && |file| == 2 * HEADER + |data|
      && Physical(crc, file, 0) == (Frag(kind, []), HEADER)
      && Physical(crc, file, HEADER) == (Frag(FULL, data), |file|)
      && Physical(crc, file, |file|).0 == Eof
  {
    hide Header, ParseAt;
    var file := FileWith(crc, kind, data);
    assert file[0..HEADER] == Header(crc, kind, []) + [];
    assert file[HEADER..HEADER + HEADER + |data|] == Header(crc, FULL, data) + data;
    ParsesHeader(crc, file, 0, kind, []);
    ParsesHeader(crc, file, HEADER, FULL, data);
    AtTheEnd(crc, file);
  }

  lemma AtTheEnd(crc: Crc, file: Bytes)
    ensures Physical(crc, file, |file|).0 == Eof
  {
    hide ParseAt;
  }

  /** Behind an empty record of kind 5, a written record is lost without a report; behind one of kind 7 it is read. */
  lemma SignalHidesRecord(crc: Crc, data: Bytes)
    requires 2 * HEADER + |data| <= BLOCK
    ensures ReadFrom(crc, FileWith(crc, 5, data), 0, CLEAN) == Outcome([], [])
    ensures ReadFrom(crc, FileWith(crc, 6, data), 0, CLEAN) == Outcome([data], [])
    ensures ReadFrom(crc, FileWith(crc, 7, data), 0, CLEAN) == Outcome([data], [0])
  {
    hide Physical, FileWith, ReadFrom;
    FileParses(crc, EOF_KIND, data);
    EndSignal(crc, FileWith(crc, EOF_KIND, data), 0, [], HEADER, CLEAN);
    ReadsBehind(crc, BAD_KIND, data);
    ReadsBehind(crc, 7, data);
  }

  lemma ReadsBehind(crc: Crc, kind: Byte, data: Bytes)
    requires kind != ZERO && kind != EOF_KIND && 2 * HEADER + |data| <= BLOCK && !(FULL <= kind <= LAST)
    ensures ReadFrom(crc, FileWith(crc, kind, data), 0, CLEAN) == Outcome([data], if kind == BAD_KIND then [] else [0])
  {
    hide Physical, FileWith, ReadFrom;
    var file := FileWith(crc, kind, data);
    FileParses(crc, kind, data);
    ReadStep(crc, file, 0, HEADER, kind, [], CLEAN);
    ReadStep(crc, file, HEADER, |file|, FULL, data, CLEAN);
    EndsHere(crc, file);
  }

  lemma EndsHere(crc: Crc, file: Bytes)
    requires Physical(crc, file, |file|).0 == Eof
    ensures ReadFrom(crc, file, |file|, CLEAN) == Outcome([], [])
  {
    hide Physical;
  }
}
