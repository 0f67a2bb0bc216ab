# jack — a verified model of the log-window query tool

`jack` prints the lines of a directory's rotated log files that fall inside
a time window given on the command line, e.g. `jack 8:22pm to 8:30pm PDT`.
This project models its core, `jack/__init__.py`, in Dafny:

- **Argument splitting** (`parse_args`): the arguments after the program
  name are joined with spaces, cut at every occurrence of the substring
  `to`, and each piece is stripped (`args.dfy`, module `Args`).
- **Instants and zones** (`parse_timestamp`, `normalize_to_utc`,
  `parse_log_timestamp`): a datetime is a wall-clock reading in seconds
  plus an optional fixed UTC offset. Naive datetimes exist, so "always
  zone-aware" is a real property (`timestamps.dfy`, module `Timestamps`).
- **Query window** (lines 99-110 of `main`): the start boundary keeps its
  clock reading but takes the end boundary's zone, then both are
  normalized to UTC (`query.dfy`, module `Query`).
- **File selection** (lines 123-128 of `main`): a loop keeps each catalog
  entry whose interval `[previous end, own end]` contains the query start
  (`selection.dfy`, module `Selection`, method `SelectLogs`).
- **Scan** (lines 132-140 of `main`): a nested loop writes the in-window
  lines of each selected file and leaves a file at its first line past the
  window's end (`scan.dfy`, module `Scan`, method `ScanLogs` for the loop
  over files and method `ScanLines` for the loop over one file's lines).
- **main** composed from the above (`jack.dfy`, module `Jack`, method `Run`).

The loops of `main` are methods with loop invariants, proved equal to
fold-style specification functions (`ScanFile`, `ScanAll`, `CoveringIndices`).
Each of those functions is then related to the source's promise in its own
way. `ScanFile` is proved equal to an independent definition: a plain
filter of the lines before "the first line that ends the file"
(`ScanFileCharacterized`). `ScanAll` is proved, when no error occurs, to
write the concatenation of that per-file output over the selected files, an
independent definition by recursion from the front (`ScanAllIsFilterOfEachFile`).
It is also proved to distribute over concatenation (`ScanAllAppend`), to write
only in-window lines (`OutputInWindow`) and to pair opens with closes
(`EventsPaired`). `CoveringIndices` is characterized by membership and order: an
index is selected iff its entry passes the test of line 126, and the
selected indices increase (`CoveringIndicesCharacterized`).

`wrappers.dfy` holds the `Option` and `Result` types.

The source is Python 2 (`print` statements). Strings are byte strings, so
`str.strip()` removes space, `\t`, `\n`, `\v`, `\f` and `\r`.

Behaviour of the code worth knowing, each proved:

- A query start equal to one file's last-modified instant selects that file
  and the next one: both comparisons at line 126 include equality
  (`Selection.TieSelectsBoth`).
- With files modified at 2024-01-01 00:00 and 2024-01-02 00:00 UTC, a query
  starting at 2024-01-01 12:00 selects only the second file
  (`Selection.TwoFileExample`).
- `logfile.close()` at line 140 is not in a `finally`: after an unreadable
  line the failing file stays open. The model's trace ends with that file
  opened and not closed (`Scan.EventsPaired`).
- The split at line 60 is on the substring "to", also inside words:
  `jack today to 8pm` gives three boundary texts (`Args.ParseArgsInsideWord`).

## Model

| member | source | states |
|---|---|---|
| `Args.Join` | jack/__init__.py:60 | `sep.join(pieces)`; `Args.JoinSplit` proves it undoes `Args.Split` |
| `Args.Split` | jack/__init__.py:60 | `str.split(sep)`: at least one piece; `Args.JoinSplit`, `Args.SplitPiecesFree` and `Args.SplitCount` characterize the pieces |
| `Args.Strip` | jack/__init__.py:60 | `str.strip()`, the slice between `Args.LeadingSpaces` and `Args.TrailingSpaces`; `Args.StripCharacterized` states what it removes |
| `Args.StripAll` | jack/__init__.py:60 | the comprehension `[_.strip() for _ in …]`, one stripped element per piece, in order (`Args.ParseArgsPieces`) |
| `Args.ArgumentText` | jack/__init__.py:60 | `' '.join(argv[1:])`, the text that is split; its shape for `[prog, x, "to", z]` is used by `Args.ParseArgsTwoBoundaries` |
| `Args.ParseArgs` | jack/__init__.py:58-60 | `parse_args`; characterized by `Args.ParseArgsCount` and `Args.ParseArgsPieces` |
| `Args.LeadingSpaces` | jack/__init__.py:60 | the cut `strip()` makes at the front covers only whitespace and stops at the first non-space character |
| `Args.TrailingSpaces` | jack/__init__.py:60 | the cut `strip()` makes at the back covers only whitespace and stops at the last non-space character |
| `Args.StripCharacterized` | jack/__init__.py:60 | `strip()` removes a leading and a trailing run of whitespace and nothing else; the result has non-space ends |
| `Args.StripIdempotent` | jack/__init__.py:60 | stripping a stripped text changes nothing |
| `Args.LeadingSpacesPadded` | jack/__init__.py:60 | whitespace in front of a text that starts with a non-space character is cut exactly |
| `Args.TrailingSpacesPadded` | jack/__init__.py:60 | whitespace after a text that ends with a non-space character is cut exactly |
| `Args.StripPadded` | jack/__init__.py:60 | stripping a text with non-space ends padded by whitespace gives back exactly that text |
| `Args.JoinSplit` | jack/__init__.py:60 | joining the pieces of `split(sep)` with `sep` restores the text (round trip) |
| `Args.SplitFirstIsPrefix` | jack/__init__.py:60 | the first piece of a split is a prefix of the text |
| `Args.SplitPiecesFree` | jack/__init__.py:60 | no piece of `split(sep)` contains `sep` |
| `Args.SplitCount` | jack/__init__.py:60 | splitting on "to" gives one more piece than there are occurrences of "to" |
| `Args.SplitAtFirst` | jack/__init__.py:60 | the first cut is made at the first occurrence of "to" |
| `Args.SplitWithoutSeparator` | jack/__init__.py:60 | a text without "to" is a single piece |
| `Args.ParseArgsCount` | jack/__init__.py:58-60 | `parse_args` returns one more boundary text than there are "to"s in the joined arguments |
| `Args.ParseArgsPieces` | jack/__init__.py:58-60 | every boundary text is stripped and comes from a "to"-free piece; the pieces rejoined by "to" give the joined arguments |
| `Args.ParseArgsTwoBoundaries` | jack/__init__.py:58-60 | `[prog, x, "to", z]` with `x` and `z` non-empty, free of "to" and without leading or trailing whitespace yields exactly `[x, z]` |
| `Args.ParseArgsExampleWithZone` | jack/__init__.py:67-69 | `['jack','8:22pm','to','8:30pm PDT']` yields `['8:22pm','8:30pm PDT']` |
| `Args.ParseArgsExampleLocal` | jack/__init__.py:64-66 | `['jack','8:22pm','to','8:30pm']` yields `['8:22pm','8:30pm']` |
| `Args.ParseArgsInsideWord` | jack/__init__.py:60 | "today" is cut too: `['jack','today','to','8pm']` yields `['', 'day', '8pm']` |
| `Timestamps.Le` | jack/__init__.py:126 | Python's `<=` on aware datetimes compares instants, not clock readings (`Timestamps.NormalizePreservesOrder`) |
| `Timestamps.Lt` | jack/__init__.py:138 | Python's `>` on aware datetimes compares instants |
| `Timestamps.Replace` | jack/__init__.py:29 | `.replace(tzinfo=…)` keeps the clock reading and changes only the label, so the instant moves (`Timestamps.NaiveTextIsLocal`, `Timestamps.LogTimestampIsClockAsUtc`, `Query.ReconcileIgnoresStartZone`) |
| `Timestamps.Hour` | jack/__init__.py:51-55 | `.hour`: a value in 0..23 (`Timestamps.NormalizeHourExamples`) |
| `Timestamps.Minus` | jack/__init__.py:124 | subtracting a timedelta keeps the zone label and moves the clock reading, hence the instant of an aware datetime, back by that amount |
| `Timestamps.ParseTimestamp` | jack/__init__.py:23-30 | fails exactly when the date parser fails; otherwise zone-aware with the parsed clock reading, an explicit zone kept as-is, the local zone attached when none was found |
| `Timestamps.NaiveTextIsLocal` | jack/__init__.py:28-29 | a text without a zone denotes its clock reading in the local zone |
| `Timestamps.ZoneOf` | jack/__init__.py:27-29 | the zone a parsed text has after `parse_timestamp`: its own, or the local one attached to a naive result; `Query.QueryFromBoundaries` and `Timestamps.DifferentZonesDifferentInstants` are stated through it |
| `Timestamps.DifferentZonesDifferentInstants` | jack/__init__.py:41 | one clock reading ending up in two different zones, explicit or the local one attached to an unknown zone (CEST is not in `TZINFOS`, lines 11-20), gives two different instants |
| `Timestamps.NormalizeToUtc` | jack/__init__.py:45-46 | the result is labelled UTC and denotes the same instant |
| `Timestamps.NormalizeUtcIsIdentity` | jack/__init__.py:45-46 | on a UTC datetime normalization is the identity |
| `Timestamps.NormalizePreservesOrder` | jack/__init__.py:45-46 | normalization preserves and reflects order and equality of instants |
| `Timestamps.NormalizeHourExamples` | jack/__init__.py:49-55 | 10:00 on 2014-01-01 becomes hour 17 from PDT, hour 18 from UTC-8, and stays hour 10 from UTC |
| `Timestamps.LogPrefix` | jack/__init__.py:83-85 | the timestamp text is the line's first 15 characters, or the whole line if shorter |
| `Timestamps.ParseLogTimestamp` | jack/__init__.py:84-88 | fails exactly when the prefix does not parse; otherwise labelled UTC with the parsed clock reading |
| `Timestamps.LogTimestampReadsPrefixOnly` | jack/__init__.py:83-88 | two lines with the same 15-character prefix get the same timestamp |
| `Timestamps.LogTimestampIgnoresLocalZone` | jack/__init__.py:86-88 | the local zone has no effect on a log line's timestamp |
| `Timestamps.LogTimestampIsClockAsUtc` | jack/__init__.py:87-88 | a log line's instant is its clock reading taken as UTC, whatever zone its text names |
| `Query.Reconcile` | jack/__init__.py:103-110 | both bounds are labelled UTC; the start is its clock reading read in the end's zone; the end keeps its instant |
| `Query.ReconcileIgnoresStartZone` | jack/__init__.py:103-104 | the start's own zone is discarded: starts with equal clock readings give the same window |
| `Query.EqualClocksEqualBounds` | jack/__init__.py:103-110 | equal clock readings give equal UTC bounds |
| `Query.WindowOrderFollowsClocks` | jack/__init__.py:103-110 | the window is ordered exactly when the start's clock reading is not after the end's |
| `Query.QueryFromBoundaries` | jack/__init__.py:100-110 | succeeds exactly when both boundaries exist and parse; a missing end after a readable start is reported as such; on success both bounds are UTC and each is its clock reading read in the end's zone (explicit, or local) |
| `Query.BuildQuery` | jack/__init__.py:99-110 | lines 99-110 of `main`: `Query.QueryFromBoundaries` applied to `parse_args(argv)`; `Query.BuildQueryExample` instantiates it |
| `Query.BuildQueryExample` | jack/__init__.py:99-110 | `jack 8:22pm to 8:30pm PDT` reads the zone-less start in PDT, eight minutes before the end |
| `Selection.PrevEnd` | jack/__init__.py:124-128 | the value `prev_log_end` holds at entry `i`: the start minus 365000 days for the first, the previous entry's end otherwise; always aware |
| `Selection.Covers` | jack/__init__.py:126 | the test of line 126; `Selection.CoveringIndicesCharacterized` proves the selection is exactly the entries passing it |
| `Selection.Selected` | jack/__init__.py:123-128 | the names the loop collects; `Selection.SelectLogs` proves the loop computes it |
| `Selection.CoveringIndices` | jack/__init__.py:123-128 | the selected indices lie within the catalog prefix examined |
| `Selection.CoveringIndicesCharacterized` | jack/__init__.py:123-128 | entry `i` is selected iff `prev_end(i) <= query_start <= end(i)`; selected indices strictly increase, so the selection is a subsequence in catalog order |
| `Selection.SelectLogs` | jack/__init__.py:123-128 | the loop returns the names of exactly the covering entries, in catalog order, using only the query start |
| `Selection.FirstReachingFileSelected` | jack/__init__.py:116-128 | on a sorted catalog the first file ending at or after the query start is selected |
| `Selection.LateStartSelectsNothing` | jack/__init__.py:123-128 | a query start after every file's end selects nothing |
| `Selection.SelectionContiguous` | jack/__init__.py:116-128 | on a sorted catalog the selected files form a contiguous run |
| `Selection.TieSelectsBoth` | jack/__init__.py:116-128 | on a sorted catalog a file ending exactly at the query start is selected together with the next file |
| `Selection.StrictCatalogSelectsAtMostTwo` | jack/__init__.py:116-128 | with strictly increasing ends at most two files are selected |
| `Selection.TwoFileExample` | jack/__init__.py:123-128 | files ending 2024-01-01 00:00 and 2024-01-02 00:00 with a query start of 2024-01-01 12:00: only the second is selected |
| `Scan.Matches` | jack/__init__.py:135-136 | the test of line 136: the line's timestamp is readable and lies in `[query_start, query_end]`; this is what "in the window" means in the `Scan.Step`, `Scan.Filter`, `Scan.OutputInWindow` and `Jack.RunWritesOnlyWindowLines` rows |
| `Scan.Ends` | jack/__init__.py:135-139 | the line ends its file's scan: its timestamp cannot be parsed (the exception from line 135) or lies after `query_end` (the `break` of lines 138-139); `Scan.Step` and `Scan.StopIndex` are stated through it |
| `Scan.Step` | jack/__init__.py:135-139 | one pass of the line loop fails iff the timestamp is unreadable, keeps reading iff the line does not end the file, and appends the line iff it lies in the window (such a line never ends the file) |
| `Scan.ScanFile` | jack/__init__.py:134-139 | the state of the line loop after a prefix of the file; `Scan.ScanFileCharacterized` and `Scan.ScanLines` characterize it |
| `Scan.Filter` | jack/__init__.py:136-137 | the in-window lines of a file, in order: the reference the scan is compared with (`Scan.ScanFileCharacterized`, `Scan.ChronologicalScanIsFilter`, `Scan.OutOfOrderLineLost`) |
| `Scan.ScanNext` | jack/__init__.py:133-140 | one pass of the file loop; `Scan.ScanAllAppend` and `Scan.EventsPaired` state what it adds |
| `Scan.ScanAll` | jack/__init__.py:132-140 | the file loop's outcome; `Scan.ScanLogs` computes it, `Scan.ScanAllIsFilterOfEachFile`, `Scan.OutputInWindow`, `Scan.EventsPaired` and `Scan.ScanAllAppend` characterize it |
| `Scan.StopIndex` | jack/__init__.py:134-139 | the index of the first line whose timestamp is unreadable or past the end: no earlier line is such a line |
| `Scan.FilterAppend` | jack/__init__.py:136-137 | filtering distributes over concatenation |
| `Scan.ScanFileCharacterized` | jack/__init__.py:134-139 | a file's scan writes exactly the in-window lines before its first ending line; it fails iff that line is unreadable, reads to the end iff there is none |
| `Scan.FinishedScanIgnoresRest` | jack/__init__.py:138-139 | after the `break` or a failure, further lines change nothing |
| `Scan.EarlyExit` | jack/__init__.py:138-139 | the line that ends a file is the last one examined: any continuation, even unreadable, gives the same outcome |
| `Scan.ChronologicalScanIsFilter` | jack/__init__.py:134-139 | on a file whose timestamps never decrease, the early exit loses no in-window line |
| `Scan.OutOfOrderLineLost` | jack/__init__.py:138-139 | on an out-of-order file, an in-window line after a line past the end is not written |
| `Scan.ScanAllAppend` | jack/__init__.py:132-140 | scanning `a` then `b` concatenates the outputs and traces; each file is scanned from its first line; an error in `a` ends the scan |
| `Scan.OutputInWindow` | jack/__init__.py:132-137 | every written line has a readable timestamp in `[start, end]` |
| `Scan.EventsPaired` | jack/__init__.py:132-140 | on completion each file is opened and then closed exactly once, in order; after an unreadable line the failing file is left open |
| `Scan.EmittedAppend` | jack/__init__.py:132-137 | the file-by-file reference output distributes over concatenation of the file list |
| `Scan.ScanAllIsFilterOfEachFile` | jack/__init__.py:132-140 | a scan that ends without error opened every selected file and wrote, file after file, exactly the in-window lines before the line ending each file |
| `Scan.InvertedWindowWritesNothing` | jack/__init__.py:136-137 | a window whose end precedes its start writes nothing |
| `Scan.ScanLines` | jack/__init__.py:134-139 | the line loop with its `break` ends in exactly the state the one-file scan specification gives: the lines written and how it ended |
| `Scan.ScanLogs` | jack/__init__.py:132-140 | the nested loop with its `break` produces exactly the output, trace and error of the scan specification |
| `Jack.Expected` | jack/__init__.py:123-140 | the outcome of lines 123-140 for a window that was built: the scan of the files selected by the query start; `Jack.Run` and `Jack.RunWritesOnlyWindowLines` are stated through it |
| `Jack.Run` | jack/__init__.py:98-140 | `main` either reports the query error having written nothing, or writes and traces exactly the scan of the files selected by the query start |
| `Jack.RunWritesOnlyWindowLines` | jack/__init__.py:98-140 | everything `main` writes lies in the query window |

## Left out

- The date parser (`dateutil.parser.parse` with `fuzzy=True`) is a foreign library: it is a function parameter from text to an optional datetime. What it does with incomplete dates (today's date) and unknown zone names is part of that function.
- The zone table `TZINFOS` and `pytz`: each zone is a fixed integer offset carried by the parsed datetime. Daylight-saving rules and the pytz quirk that `replace(tzinfo=...)` attaches a zone's historical local mean time are not modelled.
- The local zone (`dateutil.tz.tzlocal()`) is a fixed offset given as a parameter.
- Datetimes are whole seconds: microseconds are not modelled.
- Python datetimes only span years 1 to 9999. Clock readings here are unbounded integers, so two `OverflowError`s are not modelled: the one from `query_start - timedelta(days=365000)` (line 124) for a start before about year 1000, and the one `normalize_to_utc` (`astimezone`, line 46) raises when shifting a datetime near year 1 or year 9999 crosses the range.
- `last_modified_date`, `all_logs` (`glob('*log*')`) and the `sorted` call (lines 72-80, 116-119) are file-system access and a library sort. `Run` takes the catalog as an input sequence, in the order `sorted` produces. The lemmas about sorted catalogs take sortedness as a hypothesis.
- `open_log` (lines 91-95) and gzip decompression are I/O. The file system is a map from file name to the file's lines, already decompressed. A name missing from the map stands for a file that cannot be opened.
- The diagnostic `print`s (lines 106-107, 112-113, 121, 130) are not modelled. `sys.stdout.write` becomes the returned output sequence. `sys.exit` and uncaught exceptions become the returned `Failure`.
- The test functions are restated as lemmas where they test the core. In `test_parse_timestamp`, lines 34-40 and 42 only assert that the date parser accepts each text; they are properties of the date parser and are left out with it. Line 41 is restated by `Timestamps.DifferentZonesDifferentInstants`. `test_normalize_to_utc` (lines 49-55) is restated by `Timestamps.NormalizeHourExamples`, and `test_parse_args` (lines 63-69) by `Args.ParseArgsExampleLocal` and `Args.ParseArgsExampleWithZone`. Their environment-dependent parts are stated with explicit offsets: the local zone of UTC-8 and the parser's output.
- Python 2 raises a `TypeError` when comparing naive and aware datetimes. This cannot happen in `main`: every compared datetime is aware, which the model's preconditions state.
- `setup.py` holds packaging metadata only.
