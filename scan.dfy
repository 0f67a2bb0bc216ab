/**
  The scan of the selected files (the nested loop at the end of `main`).
  Each line's timestamp is read from its fixed-width prefix as UTC; lines
  inside the window are written out, the first line past the window's end
  stops the current file, and the next file is scanned from its start.
  The file system is a map from file name to the file's lines (already
  decompressed); the output is the sequence of lines written.
*/
module Scan {
  import opened Wrappers
  import opened Timestamps
  import opened Query

  /** Where the scan of one file stands. */
  datatype FileState =
    | Reading(emitted: seq<string>)  // every line so far was at or before the window's end
    | Stopped(emitted: seq<string>)  // a line past the window's end was met: the `break`
    | Failed(emitted: seq<string>)   // a line's timestamp could not be parsed

  /** A file being opened or closed. */
  datatype Event = Opened(name: string) | Closed(name: string)

  datatype ScanError =
    | CannotOpen(name: string)      // the file is not in the file system
    | UnparsableLine(name: string)  // a line of this file has no readable timestamp

  /** What the scan produced: the lines written, the open/close trace and the error that ended it, if any. */
  datatype Outcome = Outcome(out: seq<string>, events: seq<Event>, error: Option<ScanError>)

  /** The line's timestamp lies in the window, both ends included. */
  predicate Matches(parser: DateParser, localOffset: int, w: Window, line: string)
    requires WellFormed(w)
  {
    var ts := ParseLogTimestamp(parser, localOffset, line);
    ts.Some? && Le(w.start, ts.value) && Le(ts.value, w.end)
  }

  /** The line ends the scan of its file: its timestamp is unreadable or past the window's end. */
  predicate Ends(parser: DateParser, localOffset: int, w: Window, line: string)
    requires WellFormed(w)
  {
    var ts := ParseLogTimestamp(parser, localOffset, line);
    ts.None? || Lt(w.end, ts.value)
  }

  /** One pass of the line loop (lines 135-139) on a file that is still being read. */
  function Step(parser: DateParser, localOffset: int, w: Window, emitted: seq<string>, line: string): (st: FileState)
    requires WellFormed(w)
    ensures st.Failed? <==> ParseLogTimestamp(parser, localOffset, line).None?
    ensures st.Reading? <==> !Ends(parser, localOffset, w, line)
    ensures st.emitted == if Matches(parser, localOffset, w, line) then emitted + [line] else emitted
    ensures Matches(parser, localOffset, w, line) ==> !Ends(parser, localOffset, w, line)
  {
    match ParseLogTimestamp(parser, localOffset, line)
    case None => Failed(emitted)
    case Some(ts) =>
      var e := if Le(w.start, ts) && Le(ts, w.end) then emitted + [line] else emitted;
      if Lt(w.end, ts) then Stopped(e) else Reading(e)
  }

  /** The state of the line loop after it has been offered `lines`, in order. */
  function ScanFile(parser: DateParser, localOffset: int, w: Window, lines: seq<string>): FileState
    requires WellFormed(w)
  {
    if lines == [] then Reading([])
    else
      match ScanFile(parser, localOffset, w, lines[..|lines| - 1])
      case Reading(e) => Step(parser, localOffset, w, e, lines[|lines| - 1])
      case other => other
  }

  /** One pass of the file loop (lines 133-140): open `name`, scan it, close it, unless an earlier file failed. */
  function ScanNext(parser: DateParser, localOffset: int, w: Window, fs: map<string, seq<string>>, prev: Outcome, name: string): Outcome
    requires WellFormed(w)
  {
    if prev.error.Some? then prev
    else if name !in fs then Outcome(prev.out, prev.events, Some(CannotOpen(name)))
    else
      match ScanFile(parser, localOffset, w, fs[name])
      case Failed(e) => Outcome(prev.out + e, prev.events + [Opened(name)], Some(UnparsableLine(name)))
      case Reading(e) => Outcome(prev.out + e, prev.events + [Opened(name), Closed(name)], None)
      case Stopped(e) => Outcome(prev.out + e, prev.events + [Opened(name), Closed(name)], None)
  }

  /** The outcome of the file loop (lines 132-140) after the files named in `names`. */
  function ScanAll(parser: DateParser, localOffset: int, w: Window, fs: map<string, seq<string>>, names: seq<string>): Outcome
    requires WellFormed(w)
  {
    if names == [] then Outcome([], [], None)
    else ScanNext(parser, localOffset, w, fs, ScanAll(parser, localOffset, w, fs, names[..|names| - 1]), names[|names| - 1])
  }

  /** The outcome of scanning after `ra`: nothing more when `ra` ended in an error, otherwise both concatenated. */
  function Then(ra: Outcome, rb: Outcome): Outcome
  {
    if ra.error.Some? then ra else Outcome(ra.out + rb.out, ra.events + rb.events, rb.error)
  }

  // ---------------------------------------------------------------------
  // Reference definitions for one file

  /** The lines whose timestamp lies in the window, in order. */
  function Filter(parser: DateParser, localOffset: int, w: Window, lines: seq<string>): seq<string>
    requires WellFormed(w)
  {
    if lines == [] then []
    else
      var head := if Matches(parser, localOffset, w, lines[0]) then [lines[0]] else [];
      head + Filter(parser, localOffset, w, lines[1..])
  }

  /** The index of the first line that ends the scan of the file, or the file's length. */
  function StopIndex(parser: DateParser, localOffset: int, w: Window, lines: seq<string>): (k: nat)
    requires WellFormed(w)
    ensures k <= |lines|
    ensures forall i :: 0 <= i < k ==> !Ends(parser, localOffset, w, lines[i])
    ensures k < |lines| ==> Ends(parser, localOffset, w, lines[k])
  {
    if lines == [] then 0
    else if Ends(parser, localOffset, w, lines[0]) then 0
    else 1 + StopIndex(parser, localOffset, w, lines[1..])
  }

  lemma {:induction false} FilterAppend(parser: DateParser, localOffset: int, w: Window, a: seq<string>, b: seq<string>)
    requires WellFormed(w)
    ensures Filter(parser, localOffset, w, a + b)
         == Filter(parser, localOffset, w, a) + Filter(parser, localOffset, w, b)
    decreases |a|
  {
    if a == [] {
      assert a + b == b;
    } else {
      assert (a + b)[0] == a[0];
      assert (a + b)[1..] == a[1..] + b;
      FilterAppend(parser, localOffset, w, a[1..], b);
    }
  }

  lemma {:induction false} StopIndexAppend(parser: DateParser, localOffset: int, w: Window, a: seq<string>, b: seq<string>)
    requires WellFormed(w)
    ensures var k := StopIndex(parser, localOffset, w, a);
      StopIndex(parser, localOffset, w, a + b)
        == if k < |a| then k else |a| + StopIndex(parser, localOffset, w, b)
    decreases |a|
  {
    if a == [] {
      assert a + b == b;
    } else {
      assert (a + b)[1..] == a[1..] + b;
      assert (a + b)[0] == a[0];
      if !Ends(parser, localOffset, w, a[0]) {
        StopIndexAppend(parser, localOffset, w, a[1..], b);
      }
    }
  }

  /** What `ScanFileCharacterized` states about `lines`, with `k` the index of the line ending the scan. */
  predicate ScannedUpTo(parser: DateParser, localOffset: int, w: Window, lines: seq<string>, st: FileState, k: nat)
    requires WellFormed(w) && k <= |lines|
  {
    && st.emitted == Filter(parser, localOffset, w, lines[..k])
    && (st.Reading? <==> k == |lines|)
    && (st.Failed? <==> k < |lines| && ParseLogTimestamp(parser, localOffset, lines[k]).None?)
  }

  /**
    The scan of a file emits exactly the in-window lines that come before
    the first line ending it; it fails when that line is unreadable, stops
    when it is past the window, and reads to the end when there is none.
  */
  lemma {:induction false} ScanFileCharacterized(parser: DateParser, localOffset: int, w: Window, lines: seq<string>)
    requires WellFormed(w)
    ensures ScannedUpTo(parser, localOffset, w, lines, ScanFile(parser, localOffset, w, lines), StopIndex(parser, localOffset, w, lines))
    decreases |lines|
  {
    if lines != [] {
      var init := lines[..|lines| - 1];
      ScanFileCharacterized(parser, localOffset, w, init);
      if StopIndex(parser, localOffset, w, init) < |init| {
        ScanFileAfterStop(parser, localOffset, w, lines);
      } else {
        ScanFileAfterReading(parser, localOffset, w, lines);
      }
    }
  }

  lemma ScanFileAfterStop(parser: DateParser, localOffset: int, w: Window, lines: seq<string>)
    requires WellFormed(w) && lines != []
    requires StopIndex(parser, localOffset, w, lines[..|lines| - 1]) < |lines| - 1
    requires ScannedUpTo(parser, localOffset, w, lines[..|lines| - 1], ScanFile(parser, localOffset, w, lines[..|lines| - 1]), StopIndex(parser, localOffset, w, lines[..|lines| - 1]))
    ensures ScannedUpTo(parser, localOffset, w, lines, ScanFile(parser, localOffset, w, lines), StopIndex(parser, localOffset, w, lines))
  {
    var init, x := lines[..|lines| - 1], lines[|lines| - 1];
    InitLast(lines);
    var k := StopIndex(parser, localOffset, w, init);
    StopIndexAppend(parser, localOffset, w, init, [x]);
    assert ScanFile(parser, localOffset, w, lines) == ScanFile(parser, localOffset, w, init);
    assert lines[..k] == init[..k];
    assert lines[k] == init[k];
  }

  lemma ScanFileAfterReading(parser: DateParser, localOffset: int, w: Window, lines: seq<string>)
    requires WellFormed(w) && lines != []
    requires StopIndex(parser, localOffset, w, lines[..|lines| - 1]) == |lines| - 1
    requires ScannedUpTo(parser, localOffset, w, lines[..|lines| - 1], ScanFile(parser, localOffset, w, lines[..|lines| - 1]), StopIndex(parser, localOffset, w, lines[..|lines| - 1]))
    ensures ScannedUpTo(parser, localOffset, w, lines, ScanFile(parser, localOffset, w, lines), StopIndex(parser, localOffset, w, lines))
  {
    var init, x := lines[..|lines| - 1], lines[|lines| - 1];
    InitLast(lines);
    StopIndexAppend(parser, localOffset, w, init, [x]);
    assert init[..|init|] == init;
    var e := Filter(parser, localOffset, w, init);
    var st := ScanFile(parser, localOffset, w, lines);
    assert st == Step(parser, localOffset, w, e, x);
    assert [x][1..] == [];
    var k := StopIndex(parser, localOffset, w, lines);
    if Ends(parser, localOffset, w, x) {
      assert k == |init| && st.emitted == e;
      assert lines[..k] == init && lines[k] == x;
    } else {
      assert k == |lines| && st.Reading?;
      assert Filter(parser, localOffset, w, [x]) == if Matches(parser, localOffset, w, x) then [x] else [];
      FilterAppend(parser, localOffset, w, init, [x]);
      assert lines[..k] == lines;
    }
  }

  lemma InitLast<T>(s: seq<T>)
    requires s != []
    ensures s == s[..|s| - 1] + [s[|s| - 1]]
  {
  }

  /** Once a file's scan has stopped or failed, further lines change nothing. */
  lemma {:induction false} FinishedScanIgnoresRest(parser: DateParser, localOffset: int, w: Window, lines: seq<string>, rest: seq<string>)
    requires WellFormed(w)
    requires !ScanFile(parser, localOffset, w, lines).Reading?
    ensures ScanFile(parser, localOffset, w, lines + rest) == ScanFile(parser, localOffset, w, lines)
    decreases |rest|
  {
    if rest == [] {
      assert lines + rest == lines;
    } else {
      var init := rest[..|rest| - 1];
      FinishedScanIgnoresRest(parser, localOffset, w, lines, init);
      assert (lines + rest)[..|lines + rest| - 1] == lines + init;
    }
  }

  /**
    Early exit: the line that ends a file's scan is the last one examined.
    Whatever follows it, even unreadable text, leaves the outcome unchanged.
  */
  lemma EarlyExit(parser: DateParser, localOffset: int, w: Window, lines: seq<string>, rest: seq<string>)
    requires WellFormed(w)
    requires StopIndex(parser, localOffset, w, lines) < |lines|
    ensures var k := StopIndex(parser, localOffset, w, lines);
      ScanFile(parser, localOffset, w, lines[..k + 1] + rest) == ScanFile(parser, localOffset, w, lines)
  {
    var k := StopIndex(parser, localOffset, w, lines);
    var head := lines[..k + 1];
    assert lines == head + lines[k + 1..];
    StopIndexAppend(parser, localOffset, w, head, lines[k + 1..]);
    ScanFileCharacterized(parser, localOffset, w, head);
    FinishedScanIgnoresRest(parser, localOffset, w, head, rest);
    FinishedScanIgnoresRest(parser, localOffset, w, head, lines[k + 1..]);
  }

  /** Every emitted line of a file lies in the window. */
  lemma {:induction false} FilterMatches(parser: DateParser, localOffset: int, w: Window, lines: seq<string>)
    requires WellFormed(w)
    ensures forall i :: 0 <= i < |Filter(parser, localOffset, w, lines)| ==>
      Matches(parser, localOffset, w, Filter(parser, localOffset, w, lines)[i])
    decreases |lines|
  {
    if lines != [] {
      FilterMatches(parser, localOffset, w, lines[1..]);
    }
  }

  /** Every line of `lines` has a readable timestamp, and they never decrease. */
  predicate Chronological(parser: DateParser, localOffset: int, lines: seq<string>)
  {
    forall i, j :: 0 <= i <= j < |lines| ==>
      var a, b := ParseLogTimestamp(parser, localOffset, lines[i]), ParseLogTimestamp(parser, localOffset, lines[j]);
      a.Some? && b.Some? && Le(a.value, b.value)
  }

  lemma {:induction false} FilterNone(parser: DateParser, localOffset: int, w: Window, lines: seq<string>)
    requires WellFormed(w)
    requires forall i :: 0 <= i < |lines| ==> !Matches(parser, localOffset, w, lines[i])
    ensures Filter(parser, localOffset, w, lines) == []
    decreases |lines|
  {
    if lines != [] {
      FilterNone(parser, localOffset, w, lines[1..]);
    }
  }

  /** On a file whose timestamps are in order, the early exit loses no in-window line. */
  lemma ChronologicalScanIsFilter(parser: DateParser, localOffset: int, w: Window, lines: seq<string>)
    requires WellFormed(w)
    requires Chronological(parser, localOffset, lines)
    ensures ScanFile(parser, localOffset, w, lines).emitted == Filter(parser, localOffset, w, lines)
  {
    ScanFileCharacterized(parser, localOffset, w, lines);
    var k := StopIndex(parser, localOffset, w, lines);
    if k < |lines| {
      var tail := lines[k..];
      assert lines == lines[..k] + tail;
      FilterAppend(parser, localOffset, w, lines[..k], tail);
      var stop := ParseLogTimestamp(parser, localOffset, lines[k]);
      assert stop.Some? && Lt(w.end, stop.value);
      forall i | 0 <= i < |tail|
        ensures !Matches(parser, localOffset, w, tail[i])
      {
        assert tail[i] == lines[k + i];
        var ts := ParseLogTimestamp(parser, localOffset, lines[k + i]);
        assert ts.Some? && Le(stop.value, ts.value);
      }
      FilterNone(parser, localOffset, w, tail);
    } else {
      assert lines[..k] == lines;
    }
  }

  /**
    On a file out of order, the early exit drops in-window lines: a line
    past the window followed by one inside it emits nothing.
  */
  lemma OutOfOrderLineLost(parser: DateParser, localOffset: int, w: Window, late: string, inside: string)
    requires WellFormed(w)
    requires ParseLogTimestamp(parser, localOffset, late).Some?
    requires Lt(w.end, ParseLogTimestamp(parser, localOffset, late).value)
    requires Matches(parser, localOffset, w, inside)
    ensures ScanFile(parser, localOffset, w, [late, inside]).emitted == []
    ensures Filter(parser, localOffset, w, [late, inside]) == [inside]
  {
    assert [late, inside][..1] == [late];
    assert [late][..0] == [];
    assert ScanFile(parser, localOffset, w, [late]) == Stopped([]);
    assert !Matches(parser, localOffset, w, late);
    assert [late, inside][1..] == [inside];
    assert [inside][1..] == [];
    assert Filter(parser, localOffset, w, [inside]) == [inside];
  }

  // ---------------------------------------------------------------------
  // Properties of the whole scan

  /** One more file after a concatenated outcome is one more file after its second part. */
  lemma ScanNextThen(parser: DateParser, localOffset: int, w: Window, fs: map<string, seq<string>>, ra: Outcome, rb: Outcome, name: string)
    requires WellFormed(w)
    ensures ScanNext(parser, localOffset, w, fs, Then(ra, rb), name) == Then(ra, ScanNext(parser, localOffset, w, fs, rb, name))
  {
    if ra.error.None? && rb.error.None? && name in fs {
      var e := ScanFile(parser, localOffset, w, fs[name]).emitted;
      assert ra.out + rb.out + e == ra.out + (rb.out + e);
      assert ra.events + rb.events + [Opened(name)] == ra.events + (rb.events + [Opened(name)]);
      assert ra.events + rb.events + [Opened(name), Closed(name)] == ra.events + (rb.events + [Opened(name), Closed(name)]);
    }
  }

  /** Scanning `a` then `b`: the outcomes are concatenated, and an error in `a` ends everything. */
  lemma {:induction false} ScanAllAppend(parser: DateParser, localOffset: int, w: Window, fs: map<string, seq<string>>, a: seq<string>, b: seq<string>)
    requires WellFormed(w)
    ensures ScanAll(parser, localOffset, w, fs, a + b)
         == Then(ScanAll(parser, localOffset, w, fs, a), ScanAll(parser, localOffset, w, fs, b))
    decreases |b|
  {
    var ra := ScanAll(parser, localOffset, w, fs, a);
    if b == [] {
      assert a + b == a;
      assert ra.out + [] == ra.out && ra.events + [] == ra.events;
    } else {
      var init, name := b[..|b| - 1], b[|b| - 1];
      ScanAllAppend(parser, localOffset, w, fs, a, init);
      assert (a + b)[..|a + b| - 1] == a + init;
      assert (a + b)[|a + b| - 1] == name;
      ScanNextThen(parser, localOffset, w, fs, ra, ScanAll(parser, localOffset, w, fs, init), name);
    }
  }

  /** Every line written lies in the window. */
  lemma {:induction false} OutputInWindow(parser: DateParser, localOffset: int, w: Window, fs: map<string, seq<string>>, names: seq<string>)
    requires WellFormed(w)
    ensures forall i :: 0 <= i < |ScanAll(parser, localOffset, w, fs, names).out| ==>
      Matches(parser, localOffset, w, ScanAll(parser, localOffset, w, fs, names).out[i])
    decreases |names|
  {
    if names != [] {
      var init, name := names[..|names| - 1], names[|names| - 1];
      OutputInWindow(parser, localOffset, w, fs, init);
      var prev := ScanAll(parser, localOffset, w, fs, init);
      if prev.error.None? && name in fs {
        var lines := fs[name];
        var e := ScanFile(parser, localOffset, w, lines).emitted;
        ScanFileCharacterized(parser, localOffset, w, lines);
        FilterMatches(parser, localOffset, w, lines[..StopIndex(parser, localOffset, w, lines)]);
        var out := ScanAll(parser, localOffset, w, fs, names).out;
        assert out == prev.out + e;
        forall i | 0 <= i < |out| ensures Matches(parser, localOffset, w, out[i]) {
          if i < |prev.out| {
            assert out[i] == prev.out[i];
          } else {
            assert out[i] == e[i - |prev.out|];
          }
        }
      }
    }
  }

  /**
    When the scan completes, each file was opened and then closed, once,
    in order; after a failure the failing file's handle is left open.
  */
  lemma {:induction false} EventsPaired(parser: DateParser, localOffset: int, w: Window, fs: map<string, seq<string>>, names: seq<string>)
    requires WellFormed(w)
    ensures var r := ScanAll(parser, localOffset, w, fs, names);
      r.error.None? ==>
        |r.events| == 2 * |names| &&
        forall k :: 0 <= k < |names| ==> r.events[2 * k] == Opened(names[k]) && r.events[2 * k + 1] == Closed(names[k])
    ensures var r := ScanAll(parser, localOffset, w, fs, names);
      r.error.Some? && r.error.value.UnparsableLine? ==>
        r.events != [] && r.events[|r.events| - 1] == Opened(r.error.value.name)
    decreases |names|
  {
    if names != [] {
      var init, name := names[..|names| - 1], names[|names| - 1];
      EventsPaired(parser, localOffset, w, fs, init);
      var prev := ScanAll(parser, localOffset, w, fs, init);
      var r := ScanAll(parser, localOffset, w, fs, names);
      if prev.error.None? && name in fs && r.error.None? {
        assert r.events == prev.events + [Opened(name), Closed(name)];
        forall k | 0 <= k < |names|
          ensures r.events[2 * k] == Opened(names[k]) && r.events[2 * k + 1] == Closed(names[k])
        {
          if k < |init| {
            assert names[k] == init[k];
          }
        }
      }
    }
  }

  /**
    What the scan writes for the files named in `names`, file by file: the
    in-window lines before the line that ends each file.
  */
  function Emitted(parser: DateParser, localOffset: int, w: Window, fs: map<string, seq<string>>, names: seq<string>): seq<string>
    requires WellFormed(w)
  {
    if names == [] then []
    else
      var head := if names[0] in fs then FileOutput(parser, localOffset, w, fs[names[0]]) else [];
      head + Emitted(parser, localOffset, w, fs, names[1..])
  }

  /** The in-window lines of one file before the line that ends its scan. */
  function FileOutput(parser: DateParser, localOffset: int, w: Window, lines: seq<string>): seq<string>
    requires WellFormed(w)
  {
    Filter(parser, localOffset, w, lines[..StopIndex(parser, localOffset, w, lines)])
  }

  lemma {:induction false} EmittedAppend(parser: DateParser, localOffset: int, w: Window, fs: map<string, seq<string>>, a: seq<string>, b: seq<string>)
    requires WellFormed(w)
    ensures Emitted(parser, localOffset, w, fs, a + b)
         == Emitted(parser, localOffset, w, fs, a) + Emitted(parser, localOffset, w, fs, b)
    decreases |a|
  {
    if a == [] {
      assert a + b == b;
    } else {
      assert (a + b)[0] == a[0];
      assert (a + b)[1..] == a[1..] + b;
      EmittedAppend(parser, localOffset, w, fs, a[1..], b);
    }
  }

  /**
    A scan that ends without error opened every selected file and wrote,
    file after file, exactly the in-window lines before the line that
    ended each file.
  */
  lemma {:induction false} ScanAllIsFilterOfEachFile(parser: DateParser, localOffset: int, w: Window, fs: map<string, seq<string>>, names: seq<string>)
    requires WellFormed(w)
    ensures var r := ScanAll(parser, localOffset, w, fs, names);
      r.error.None? ==>
        (forall i :: 0 <= i < |names| ==> names[i] in fs) &&
        r.out == Emitted(parser, localOffset, w, fs, names)
    decreases |names|
  {
    if names != [] {
      var init, name := names[..|names| - 1], names[|names| - 1];
      ScanAllIsFilterOfEachFile(parser, localOffset, w, fs, init);
      var prev := ScanAll(parser, localOffset, w, fs, init);
      var r := ScanAll(parser, localOffset, w, fs, names);
      if r.error.None? {
        assert prev.error.None? && name in fs;
        var lines := fs[name];
        ScanFileCharacterized(parser, localOffset, w, lines);
        assert r.out == prev.out + FileOutput(parser, localOffset, w, lines);
        InitLast(names);
        EmittedAppend(parser, localOffset, w, fs, init, [name]);
        assert [name][1..] == [];
        forall i | 0 <= i < |names| ensures names[i] in fs {
          if i < |init| {
            assert names[i] == init[i];
          }
        }
      }
    }
  }

  /** An inverted window writes nothing. */
  lemma {:induction false} InvertedWindowWritesNothing(parser: DateParser, localOffset: int, w: Window, fs: map<string, seq<string>>, names: seq<string>)
    requires WellFormed(w) && Lt(w.end, w.start)
    ensures ScanAll(parser, localOffset, w, fs, names).out == []
    decreases |names|
  {
    if names != [] {
      var init, name := names[..|names| - 1], names[|names| - 1];
      InvertedWindowWritesNothing(parser, localOffset, w, fs, init);
      if name in fs {
        var lines := fs[name];
        var k := StopIndex(parser, localOffset, w, lines);
        ScanFileCharacterized(parser, localOffset, w, lines);
        FilterNone(parser, localOffset, w, lines[..k]);
      }
    }
  }

  // ---------------------------------------------------------------------
  // The loops themselves

  /**
    Lines 132-140 of `main`: for each selected file, read its lines in
    order, write those in the window and leave the file at the first line
    past the window's end. An unreadable line aborts the scan with the
    file still open.
  */
  method ScanLogs(parser: DateParser, localOffset: int, w: Window, fs: map<string, seq<string>>, logsToSearch: seq<string>)
    returns (out: seq<string>, events: seq<Event>, error: Option<ScanError>)
    requires WellFormed(w)
    ensures Outcome(out, events, error) == ScanAll(parser, localOffset, w, fs, logsToSearch)
  {
    out, events, error := [], [], None;
    var i := 0;
    while i < |logsToSearch|
      invariant 0 <= i <= |logsToSearch|
      invariant Outcome(out, events, None) == ScanAll(parser, localOffset, w, fs, logsToSearch[..i])
    {
      var filename := logsToSearch[i];
      ghost var done := logsToSearch[..i + 1];
      assert done[..i] == logsToSearch[..i] && done[i] == filename;
      assert logsToSearch == done + logsToSearch[i + 1..];
      if filename !in fs {
        error := Some(CannotOpen(filename));
        ScanAllAppend(parser, localOffset, w, fs, done, logsToSearch[i + 1..]);
        return;
      }
      events := events + [Opened(filename)];
      var file := ScanLines(parser, localOffset, w, fs[filename]);
      out := out + file.emitted;
      if file.Failed? {
        error := Some(UnparsableLine(filename));
        ScanAllAppend(parser, localOffset, w, fs, done, logsToSearch[i + 1..]);
        return;
      }
      events := events + [Closed(filename)];
      i := i + 1;
    }
    assert logsToSearch[..i] == logsToSearch;
  }

  /**
    The line loop of one file (lines 135-140): each line's timestamp is read;
    a line in the window is written; the first line past the window's end
    leaves the loop; an unreadable line aborts it.
  */
  method ScanLines(parser: DateParser, localOffset: int, w: Window, lines: seq<string>) returns (file: FileState)
    requires WellFormed(w)
    ensures file == ScanFile(parser, localOffset, w, lines)
  {
    var emitted := [];
    var j := 0;
    while j < |lines|
      invariant 0 <= j <= |lines|
      invariant Reading(emitted) == ScanFile(parser, localOffset, w, lines[..j])
    {
      var line := lines[j];
      ScanFileStep(parser, localOffset, w, lines, j);
      var logTs := ParseLogTimestamp(parser, localOffset, line);
      if logTs.None? {
        return Failed(emitted);
      }
      var ts := logTs.value;
      if Le(w.start, ts) && Le(ts, w.end) {
        emitted := emitted + [line];
      }
      if Lt(w.end, ts) {
        return Stopped(emitted);
      }
      j := j + 1;
    }
    assert lines[..j] == lines;
    file := Reading(emitted);
  }

  /** One pass of the line loop; a pass that leaves the loop fixes the file's outcome. */
  lemma ScanFileStep(parser: DateParser, localOffset: int, w: Window, lines: seq<string>, j: nat)
    requires WellFormed(w) && j < |lines|
    requires ScanFile(parser, localOffset, w, lines[..j]).Reading?
    ensures var st := Step(parser, localOffset, w, ScanFile(parser, localOffset, w, lines[..j]).emitted, lines[j]);
      ScanFile(parser, localOffset, w, lines[..j + 1]) == st &&
      (!st.Reading? ==> ScanFile(parser, localOffset, w, lines) == st)
  {
    var st := Step(parser, localOffset, w, ScanFile(parser, localOffset, w, lines[..j]).emitted, lines[j]);
    assert ScanFile(parser, localOffset, w, lines[..j + 1]) == st by {
      assert lines[..j + 1][..j] == lines[..j] && lines[..j + 1][j] == lines[j];
    }
    if !st.Reading? {
      FinishedScanIgnoresRest(parser, localOffset, w, lines[..j + 1], lines[j + 1..]);
      assert lines[..j + 1] + lines[j + 1..] == lines;
    }
  }
}
