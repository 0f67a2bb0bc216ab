/**
  The query window built by `main` from the command line: the two boundary
  texts are parsed, the start takes over the end's zone label (keeping its
  clock reading) and both bounds are normalized to UTC.
*/
module Query {
  import opened Wrappers
  import opened Args
  import opened Timestamps

  datatype QueryError =
    | UnparsableBoundary(text: string)  // the date parser's failure on a boundary
    | MissingEndBoundary                // `args[1]` does not exist: the arguments held no "to"

  /** The query window, both bounds labelled UTC. */
  datatype Window = Window(start: DateTime, end: DateTime)

  /** Both bounds carry a zone, so they can be compared with timestamps. */
  predicate WellFormed(w: Window) {
    Aware(w.start) && Aware(w.end)
  }

  /**
    The zone reconciliation: the start is relabelled with the end's zone
    without converting its clock reading, then both are normalized.
  */
  function Reconcile(start: DateTime, end: DateTime): (w: Window)
    requires Aware(start) && Aware(end)
    ensures w.start.tz == Some(0) && w.end.tz == Some(0)
    ensures UtcSeconds(w.start) == start.clock - end.tz.value
    ensures SameInstant(w.end, end)
  {
    Window(NormalizeToUtc(Replace(start, end.tz)), NormalizeToUtc(end))
  }

  /** Whatever zone the start carried is discarded: only its clock reading matters. */
  lemma ReconcileIgnoresStartZone(start1: DateTime, start2: DateTime, end: DateTime)
    requires Aware(start1) && Aware(start2) && Aware(end)
    requires start1.clock == start2.clock
    ensures Reconcile(start1, end) == Reconcile(start2, end)
  {
  }

  /** Both bounds are read in one zone, so equal clock readings give equal UTC bounds. */
  lemma EqualClocksEqualBounds(start: DateTime, end: DateTime)
    requires Aware(start) && Aware(end)
    requires start.clock == end.clock
    ensures Reconcile(start, end).start == Reconcile(start, end).end
  {
  }

  /** The window is ordered exactly when the two clock readings are. */
  lemma WindowOrderFollowsClocks(start: DateTime, end: DateTime)
    requires Aware(start) && Aware(end)
    ensures Le(Reconcile(start, end).start, Reconcile(start, end).end) <==> start.clock <= end.clock
  {
  }

  /**
    Lines 100-110 of `main`, given the boundary texts `parse_args` produced
    (never empty): parse the start, then look up and parse the end, then
    reconcile. The start is parsed before `args[1]` is looked up.
  */
  function QueryFromBoundaries(parser: DateParser, localOffset: int, args: seq<string>): (r: Result<Window, QueryError>)
    requires |args| >= 1
    ensures r.Ok? <==> parser(args[0]).Some? && |args| >= 2 && parser(args[1]).Some?
    ensures r.Ok? ==>
      var endZone := ZoneOf(parser(args[1]).value, localOffset);
      && r.value.start.tz == Some(0) && r.value.end.tz == Some(0)
      && UtcSeconds(r.value.start) == parser(args[0]).value.clock - endZone
      && UtcSeconds(r.value.end) == parser(args[1]).value.clock - endZone
    ensures r == Err(MissingEndBoundary) <==> parser(args[0]).Some? && |args| < 2
  {
    match ParseTimestamp(parser, localOffset, args[0])
    case None => Err(UnparsableBoundary(args[0]))
    case Some(start) =>
      if |args| < 2 then Err(MissingEndBoundary)
      else
        match ParseTimestamp(parser, localOffset, args[1])
        case None => Err(UnparsableBoundary(args[1]))
        case Some(end) => Ok(Reconcile(start, end))
  }

  /** Lines 99-110 of `main`: split the command line, then build the window. */
  function BuildQuery(parser: DateParser, localOffset: int, argv: seq<string>): Result<Window, QueryError>
  {
    QueryFromBoundaries(parser, localOffset, ParseArgs(argv))
  }

  /** `jack 8:22pm to 8:30pm PDT`: the start is read in PDT, like the end. */
  lemma BuildQueryExample(parser: DateParser, localOffset: int, argv: seq<string>)
    requires argv == ["jack", "8:22pm", "to", "8:30pm PDT"]
    requires parser("8:22pm").Some? && !Aware(parser("8:22pm").value)
    requires parser("8:30pm PDT") == Some(DateTime(parser("8:22pm").value.clock + 8 * 60, Some(PdtOffset)))
    ensures var r := BuildQuery(parser, localOffset, argv);
      r.Ok? && UtcSeconds(r.value.start) == parser("8:22pm").value.clock - PdtOffset
      && UtcSeconds(r.value.end) == UtcSeconds(r.value.start) + 8 * 60
  {
    ParseArgsExampleWithZone();
  }
}
