/**
  `main`: build the query window from the command line, choose the log
  files from the catalog sorted by last-modified instant, and scan them.
  The catalog and the files' lines are inputs; the result is the sequence
  of lines written to standard output, the open/close trace and the error
  that aborted the run, if any.
*/
module Jack {
  import opened Wrappers
  import opened Timestamps
  import opened Query
  import opened Selection
  import opened Scan

  datatype Failure =
    | QueryFailed(queryError: QueryError)  // a boundary could not be parsed or was missing
    | ScanFailed(scanError: ScanError)     // a file could not be opened or a line could not be parsed

  /** The lines `main` writes and how it ends, for a window that was built. */
  function Expected(parser: DateParser, localOffset: int, w: Window, logs: seq<LogFile>, fs: map<string, seq<string>>): Outcome
    requires WellFormed(w) && AllAware(logs)
  {
    ScanAll(parser, localOffset, w, fs, Selected(logs, w.start))
  }

  /**
    `main(argv)` with `logs` the sorted catalog and `fs` the readable
    files. The files to scan depend on the query start only.
  */
  method Run(parser: DateParser, localOffset: int, argv: seq<string>, logs: seq<LogFile>, fs: map<string, seq<string>>)
    returns (out: seq<string>, events: seq<Event>, failure: Option<Failure>)
    requires AllAware(logs)
    ensures match BuildQuery(parser, localOffset, argv)
      case Err(e) => out == [] && events == [] && failure == Some(QueryFailed(e))
      case Ok(w) =>
        var r := Expected(parser, localOffset, w, logs, fs);
        && out == r.out && events == r.events
        && (failure.Some? <==> r.error.Some?)
        && (r.error.Some? ==> failure == Some(ScanFailed(r.error.value)))
  {
    var query := BuildQuery(parser, localOffset, argv);
    if query.Err? {
      return [], [], Some(QueryFailed(query.error));
    }
    var w := query.value;
    var logsToSearch := SelectLogs(logs, w.start);
    var error;
    out, events, error := ScanLogs(parser, localOffset, w, fs, logsToSearch);
    failure := if error.Some? then Some(ScanFailed(error.value)) else None;
  }

  /** Everything `main` writes lies in the query window. */
  lemma RunWritesOnlyWindowLines(parser: DateParser, localOffset: int, w: Window, logs: seq<LogFile>, fs: map<string, seq<string>>)
    requires WellFormed(w) && AllAware(logs)
    ensures var out := Expected(parser, localOffset, w, logs, fs).out;
      forall i :: 0 <= i < |out| ==> Matches(parser, localOffset, w, out[i])
  {
    OutputInWindow(parser, localOffset, w, fs, Selected(logs, w.start));
  }
}
