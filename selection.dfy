/**
  Choice of the log files to scan (the `prev_log_end` loop of `main`): each
  catalog entry covers the interval from the previous entry's end to its own
  end, and the files whose interval contains the query start are kept.
*/
module Selection {
  import opened Wrappers
  import opened Timestamps

  /** A catalog entry: the file's last-modified instant and its name. */
  datatype LogFile = LogFile(end: DateTime, name: string)

  /** How far before the query start the first file's interval begins: 1000 * 365 days. */
  const LookBack: int := 1000 * 365 * SecondsPerDay

  /** Every last-modified instant carries a zone (the catalog labels them UTC). */
  predicate AllAware(logs: seq<LogFile>) {
    forall i :: 0 <= i < |logs| ==> Aware(logs[i].end)
  }

  /** The value `prev_log_end` holds when entry `i` is examined. */
  function PrevEnd(logs: seq<LogFile>, queryStart: DateTime, i: nat): (p: DateTime)
    requires i < |logs|
    ensures Aware(queryStart) && AllAware(logs) ==> Aware(p)
  {
    if i == 0 then Minus(queryStart, LookBack) else logs[i - 1].end
  }

  /** Entry `i` covers the query start: `prev_end <= query_start <= log_end`. */
  predicate Covers(logs: seq<LogFile>, queryStart: DateTime, i: nat)
    requires AllAware(logs) && Aware(queryStart) && i < |logs|
  {
    Le(PrevEnd(logs, queryStart, i), queryStart) && Le(queryStart, logs[i].end)
  }

  /** The indices among the first `n` entries that cover the query start, in catalog order. */
  function CoveringIndices(logs: seq<LogFile>, queryStart: DateTime, n: nat): (r: seq<nat>)
    requires AllAware(logs) && Aware(queryStart) && n <= |logs|
    ensures forall k :: 0 <= k < |r| ==> r[k] < n
  {
    if n == 0 then []
    else CoveringIndices(logs, queryStart, n - 1) + (if Covers(logs, queryStart, n - 1) then [n - 1] else [])
  }

  /** The names of the entries at the given indices. */
  function NamesAt(logs: seq<LogFile>, indices: seq<nat>): (names: seq<string>)
    requires forall k :: 0 <= k < |indices| ==> indices[k] < |logs|
    ensures |names| == |indices|
    ensures forall k :: 0 <= k < |indices| ==> names[k] == logs[indices[k]].name
  {
    if indices == [] then [] else [logs[indices[0]].name] + NamesAt(logs, indices[1..])
  }

  /**
    The covering indices are exactly the entries that cover the query
    start, strictly increasing: the selection is a subsequence of the
    catalog in catalog order.
  */
  lemma {:induction false} CoveringIndicesCharacterized(logs: seq<LogFile>, queryStart: DateTime, n: nat)
    requires AllAware(logs) && Aware(queryStart) && n <= |logs|
    ensures var r := CoveringIndices(logs, queryStart, n);
      && (forall k, l :: 0 <= k < l < |r| ==> r[k] < r[l])
      && (forall i :: 0 <= i < n ==> (i in r <==> Covers(logs, queryStart, i)))
  {
    if n > 0 {
      CoveringIndicesCharacterized(logs, queryStart, n - 1);
    }
  }

  /** The names `main` searches for a given query start: the covering entries, in order. */
  function Selected(logs: seq<LogFile>, queryStart: DateTime): seq<string>
    requires AllAware(logs) && Aware(queryStart)
  {
    NamesAt(logs, CoveringIndices(logs, queryStart, |logs|))
  }

  /**
    Lines 123-128 of `main`: walk the catalog keeping the previous entry's
    end, and append each file whose interval contains the query start.
    The query end is not an input.
  */
  method SelectLogs(logs: seq<LogFile>, queryStart: DateTime) returns (logsToSearch: seq<string>)
    requires AllAware(logs) && Aware(queryStart)
    ensures logsToSearch == Selected(logs, queryStart)
  {
    logsToSearch := [];
    var prevLogEnd := Minus(queryStart, LookBack);
    var i := 0;
    while i < |logs|
      invariant 0 <= i <= |logs|
      invariant i < |logs| ==> prevLogEnd == PrevEnd(logs, queryStart, i)
      invariant logsToSearch == NamesAt(logs, CoveringIndices(logs, queryStart, i))
    {
      var logEnd, logFilename := logs[i].end, logs[i].name;
      SelectStep(logs, queryStart, i);
      if Le(queryStart, logEnd) && Le(prevLogEnd, queryStart) {
        logsToSearch := logsToSearch + [logFilename];
      }
      prevLogEnd := logEnd;
      i := i + 1;
    }
  }

  /** One pass of the selection loop appends the entry's name exactly when it covers the query start. */
  lemma SelectStep(logs: seq<LogFile>, queryStart: DateTime, i: nat)
    requires AllAware(logs) && Aware(queryStart) && i < |logs|
    ensures NamesAt(logs, CoveringIndices(logs, queryStart, i + 1))
         == NamesAt(logs, CoveringIndices(logs, queryStart, i)) + if Covers(logs, queryStart, i) then [logs[i].name] else []
    ensures i + 1 < |logs| ==> PrevEnd(logs, queryStart, i + 1) == logs[i].end
  {
    var before := CoveringIndices(logs, queryStart, i);
    if Covers(logs, queryStart, i) {
      NamesAppend(logs, before, i);
    } else {
      assert CoveringIndices(logs, queryStart, i + 1) == before;
    }
  }

  lemma NamesAppend(logs: seq<LogFile>, indices: seq<nat>, i: nat)
    requires forall k :: 0 <= k < |indices| ==> indices[k] < |logs|
    requires i < |logs|
    ensures NamesAt(logs, indices + [i]) == NamesAt(logs, indices) + [logs[i].name]
  {
  }

  // ---------------------------------------------------------------------
  // Selection on a catalog sorted by last-modified instant

  /** The catalog order: last-modified instants ascending. */
  predicate Ascending(logs: seq<LogFile>)
  {
    AllAware(logs) &&
    forall i, j :: 0 <= i <= j < |logs| ==> Le(logs[i].end, logs[j].end)
  }

  /** The first file that ends at or after the query start is selected. */
  lemma FirstReachingFileSelected(logs: seq<LogFile>, queryStart: DateTime, f: nat)
    requires Ascending(logs) && Aware(queryStart) && f < |logs|
    requires Le(queryStart, logs[f].end)
    requires forall i :: 0 <= i < f ==> !Le(queryStart, logs[i].end)
    ensures Covers(logs, queryStart, f)
    ensures logs[f].name in Selected(logs, queryStart)
  {
    CoveringIndicesCharacterized(logs, queryStart, |logs|);
    var r := CoveringIndices(logs, queryStart, |logs|);
    assert f in r;
    var k :| 0 <= k < |r| && r[k] == f;
    assert Selected(logs, queryStart)[k] == logs[f].name;
  }

  /** A query start after every file's end selects nothing. */
  lemma LateStartSelectsNothing(logs: seq<LogFile>, queryStart: DateTime)
    requires AllAware(logs) && Aware(queryStart)
    requires forall i :: 0 <= i < |logs| ==> Lt(logs[i].end, queryStart)
    ensures Selected(logs, queryStart) == []
  {
    NothingCoveredNothingSelected(logs, queryStart, |logs|);
  }

  lemma {:induction false} NothingCoveredNothingSelected(logs: seq<LogFile>, queryStart: DateTime, n: nat)
    requires AllAware(logs) && Aware(queryStart) && n <= |logs|
    requires forall i :: 0 <= i < n ==> !Covers(logs, queryStart, i)
    ensures CoveringIndices(logs, queryStart, n) == []
  {
    if n > 0 {
      NothingCoveredNothingSelected(logs, queryStart, n - 1);
    }
  }

  /** On a sorted catalog the selected files form a contiguous run. */
  lemma SelectionContiguous(logs: seq<LogFile>, queryStart: DateTime, i: nat, j: nat, k: nat)
    requires Ascending(logs) && Aware(queryStart)
    requires i < j < k < |logs|
    requires Covers(logs, queryStart, i) && Covers(logs, queryStart, k)
    ensures Covers(logs, queryStart, j)
  {
    assert Le(logs[i].end, logs[j].end);
    assert Le(logs[j - 1].end, logs[k - 1].end);
  }

  /** A file ending exactly at the query start is selected together with the next one. */
  lemma TieSelectsBoth(logs: seq<LogFile>, queryStart: DateTime, i: nat)
    requires Ascending(logs) && Aware(queryStart)
    requires i + 1 < |logs|
    requires SameInstant(logs[i].end, queryStart)
    ensures Covers(logs, queryStart, i) && Covers(logs, queryStart, i + 1)
  {
    if i > 0 {
      assert Le(logs[i - 1].end, logs[i].end);
    }
    assert Le(logs[i].end, logs[i + 1].end);
  }

  /** With strictly increasing ends, at most two files are selected (two only on a tie). */
  lemma {:induction false} StrictCatalogSelectsAtMostTwo(logs: seq<LogFile>, queryStart: DateTime)
    requires AllAware(logs) && Aware(queryStart)
    requires forall i, j :: 0 <= i < j < |logs| ==> Lt(logs[i].end, logs[j].end)
    ensures |Selected(logs, queryStart)| <= 2
  {
    CoveringIndicesCharacterized(logs, queryStart, |logs|);
    var r := CoveringIndices(logs, queryStart, |logs|);
    if |r| > 2 {
      assert r[0] < r[1] < r[2];
      CoveredOnlyByNeighbours(logs, queryStart, r[0], r[2]);
      assert false;
    }
  }

  lemma CoveredOnlyByNeighbours(logs: seq<LogFile>, queryStart: DateTime, i: nat, k: nat)
    requires AllAware(logs) && Aware(queryStart)
    requires forall i, j :: 0 <= i < j < |logs| ==> Lt(logs[i].end, logs[j].end)
    requires i < k < |logs|
    requires Covers(logs, queryStart, i) && Covers(logs, queryStart, k)
    ensures k == i + 1
  {
  }

  /**
    Two files modified at 2024-01-01 00:00 and 2024-01-02 00:00 UTC and a
    query starting at 2024-01-01 12:00 UTC: only the second file covers the
    start, since the first ends before it.
  */
  lemma TwoFileExample(logs: seq<LogFile>, queryStart: DateTime, day: int)
    requires logs == [LogFile(DateTime(day, Some(0)), "a.log"), LogFile(DateTime(day + SecondsPerDay, Some(0)), "b.log")]
    requires queryStart == DateTime(At(day, 12, 0), Some(0))
    ensures Selected(logs, queryStart) == ["b.log"]
  {
    assert !Covers(logs, queryStart, 0);
    assert Covers(logs, queryStart, 1);
    assert CoveringIndices(logs, queryStart, 1) == [];
    assert CoveringIndices(logs, queryStart, 2) == [1];
  }
}
