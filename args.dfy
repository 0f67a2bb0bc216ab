/**
  Splitting of the command line into the two boundary texts (`parse_args`):
  drop the program name, join the remaining tokens with single spaces, split
  on every occurrence of the substring "to" and strip each piece.
  Strings are modelled as Python 2 byte strings, i.e. `seq<char>`.
*/
module Args {

  /** The separator `parse_args` splits on. */
  const Separator: string := "to"

  /** The characters Python 2's `str.strip()` removes: space, \t, \n, \v, \f, \r. */
  predicate IsSpace(c: char) {
    c == ' ' || '\t' <= c <= '\r'
  }

  /** Number of positions at which `w` occurs in `s` (overlapping occurrences counted). */
  function Occurrences(s: string, w: string): nat
    requires w != []
    decreases |s|
  {
    if |s| < |w| then 0
    else (if s[..|w|] == w then 1 else 0) + Occurrences(s[1..], w)
  }

  /** Python's `sep.join(pieces)`. */
  function Join(pieces: seq<string>, sep: string): string
  {
    if |pieces| == 0 then []
    else if |pieces| == 1 then pieces[0]
    else pieces[0] + sep + Join(pieces[1..], sep)
  }

  /**
    Python's `s.split(sep)` for a non-empty separator: the text is cut at
    each leftmost, non-overlapping occurrence of `sep`.
  */
  function Split(s: string, sep: string): (r: seq<string>)
    requires sep != []
    ensures |r| >= 1
    decreases |s|
  {
    if |s| < |sep| then [s]
    else if s[..|sep|] == sep then [[]] + Split(s[|sep|..], sep)
    else
      var rest := Split(s[1..], sep);
      [[s[0]] + rest[0]] + rest[1..]
  }

  /** How many whitespace characters `s` starts with: the cut `lstrip()` makes. */
  function LeadingSpaces(s: string): (n: nat)
    ensures n <= |s|
    ensures forall i :: 0 <= i < n ==> IsSpace(s[i])
    ensures n < |s| ==> !IsSpace(s[n])
  {
    if s != [] && IsSpace(s[0]) then
      var n := LeadingSpaces(s[1..]);
      assert forall i :: 1 <= i < n + 1 ==> s[i] == s[1..][i - 1];
      n + 1
    else 0
  }

  /** How many whitespace characters `s` ends with: the cut `rstrip()` makes. */
  function TrailingSpaces(s: string): (n: nat)
    ensures n <= |s|
    ensures forall i :: |s| - n <= i < |s| ==> IsSpace(s[i])
    ensures n < |s| ==> !IsSpace(s[|s| - n - 1])
  {
    if s != [] && IsSpace(s[|s| - 1]) then
      var n := TrailingSpaces(s[..|s| - 1]);
      assert forall i :: |s| - 1 - n <= i < |s| - 1 ==> s[i] == s[..|s| - 1][i];
      n + 1
    else 0
  }

  /** Python's `s.lstrip()`. */
  function StripLeft(s: string): string
  {
    s[LeadingSpaces(s)..]
  }

  /** Python's `s.rstrip()`. */
  function StripRight(s: string): string
  {
    s[..|s| - TrailingSpaces(s)]
  }

  /** Python's `s.strip()`. */
  function Strip(s: string): string
  {
    StripRight(StripLeft(s))
  }

  /** `argv[1:]`, which is empty when `argv` is. */
  function DropProgramName(argv: seq<string>): seq<string>
  {
    if argv == [] then [] else argv[1..]
  }

  /** The text `parse_args` splits: the arguments after the program name, joined by spaces. */
  function ArgumentText(argv: seq<string>): string
  {
    Join(DropProgramName(argv), " ")
  }

  /** The comprehension `[_.strip() for _ in pieces]`. */
  function StripAll(pieces: seq<string>): seq<string>
  {
    seq(|pieces|, k requires 0 <= k < |pieces| => Strip(pieces[k]))
  }

  /** `parse_args(argv)`: the split text, each piece stripped. */
  function ParseArgs(argv: seq<string>): seq<string>
  {
    StripAll(Split(ArgumentText(argv), Separator))
  }

  // ---------------------------------------------------------------------
  // Stripping

  /** A stripped text is the input minus a run of leading and a run of trailing whitespace. */
  lemma StripCharacterized(s: string)
    ensures var r, lead := Strip(s), LeadingSpaces(s);
      Trimmed(s, lead, r) && (r == [] || (!IsSpace(r[0]) && !IsSpace(r[|r| - 1])))
  {
    var lead := LeadingSpaces(s);
    var l := s[lead..];
    var n := TrailingSpaces(l);
    assert Strip(s) == l[..|l| - n];
    TrimmedByCuts(s, lead, l, n);
  }

  /** Cutting `lead` leading and then `n` trailing whitespace characters trims `s`. */
  lemma TrimmedByCuts(s: string, lead: nat, l: string, n: nat)
    requires lead <= |s| && l == s[lead..] && n <= |l|
    requires forall i :: 0 <= i < lead ==> IsSpace(s[i])
    requires lead < |s| ==> !IsSpace(s[lead])
    requires forall i :: |l| - n <= i < |l| ==> IsSpace(l[i])
    requires n < |l| ==> !IsSpace(l[|l| - n - 1])
    ensures var r := l[..|l| - n];
      Trimmed(s, lead, r) && (r == [] || (!IsSpace(r[0]) && !IsSpace(r[|r| - 1])))
  {
    var r := l[..|l| - n];
    assert Trimmed(s, lead, r) by {
      assert s[lead..lead + |r|] == r;
      forall i | lead + |r| <= i < |s| ensures IsSpace(s[i]) {
        assert s[i] == l[i - lead];
      }
    }
    if r != [] {
      assert r[0] == s[lead];
      assert r[|r| - 1] == l[|l| - n - 1];
    }
  }

  /** `r` is `s` with `lead` whitespace characters cut from its front and whitespace only cut from its back. */
  predicate Trimmed(s: string, lead: int, r: string)
  {
    0 <= lead && lead + |r| <= |s| && s[lead..lead + |r|] == r &&
    (forall i :: 0 <= i < lead ==> IsSpace(s[i])) &&
    (forall i :: lead + |r| <= i < |s| ==> IsSpace(s[i]))
  }

  /** Stripping is idempotent. */
  lemma StripIdempotent(s: string)
    ensures Strip(Strip(s)) == Strip(s)
  {
    var r := Strip(s);
    StripCharacterized(s);
    if r != [] {
      assert LeadingSpaces(r) == 0;
      assert r[0..] == r;
      assert TrailingSpaces(r) == 0;
      assert r[..|r|] == r;
    }
  }

  lemma {:induction false} LeadingSpacesPadded(lead: string, rest: string)
    requires forall i :: 0 <= i < |lead| ==> IsSpace(lead[i])
    requires rest == [] || !IsSpace(rest[0])
    ensures LeadingSpaces(lead + rest) == |lead|
    decreases |lead|
  {
    if lead != [] {
      assert (lead + rest)[1..] == lead[1..] + rest;
      LeadingSpacesPadded(lead[1..], rest);
    }
  }

  lemma {:induction false} TrailingSpacesPadded(rest: string, trail: string)
    requires forall i :: 0 <= i < |trail| ==> IsSpace(trail[i])
    requires rest == [] || !IsSpace(rest[|rest| - 1])
    ensures TrailingSpaces(rest + trail) == |trail|
    decreases |trail|
  {
    if trail != [] {
      assert (rest + trail)[..|rest + trail| - 1] == rest + trail[..|trail| - 1];
      TrailingSpacesPadded(rest, trail[..|trail| - 1]);
    }
  }

  /** Stripping removes exactly the whitespace padding around a text with non-space ends. */
  lemma StripPadded(lead: string, core: string, trail: string)
    requires forall i :: 0 <= i < |lead| ==> IsSpace(lead[i])
    requires forall i :: 0 <= i < |trail| ==> IsSpace(trail[i])
    requires core != [] && !IsSpace(core[0]) && !IsSpace(core[|core| - 1])
    ensures Strip(lead + core + trail) == core
  {
    var s := lead + core + trail;
    assert s == lead + (core + trail);
    LeadingSpacesPadded(lead, core + trail);
    assert StripLeft(s) == core + trail;
    TrailingSpacesPadded(core, trail);
    assert (core + trail)[..|core|] == core;
  }

  // ---------------------------------------------------------------------
  // Splitting and joining

  lemma {:induction false} JoinConsFirst(c: char, p: string, tail: seq<string>, sep: string)
    ensures Join([[c] + p] + tail, sep) == [c] + Join([p] + tail, sep)
  {
    assert ([[c] + p] + tail)[1..] == tail;
    assert ([p] + tail)[1..] == tail;
  }

  /** Joining the pieces of a split with the separator gives the text back. */
  lemma {:induction false} JoinSplit(s: string, sep: string)
    requires sep != []
    ensures Join(Split(s, sep), sep) == s
    decreases |s|
  {
    if |s| < |sep| {
    } else if s[..|sep|] == sep {
      var rest := Split(s[|sep|..], sep);
      JoinSplit(s[|sep|..], sep);
      assert Split(s, sep) == [[]] + rest;
      assert ([[]] + rest)[1..] == rest;
      assert Join([[]] + rest, sep) == [] + sep + Join(rest, sep);
      assert s == sep + s[|sep|..];
    } else {
      var rest := Split(s[1..], sep);
      JoinSplit(s[1..], sep);
      JoinConsFirst(s[0], rest[0], rest[1..], sep);
      assert [rest[0]] + rest[1..] == rest;
      assert s == [s[0]] + s[1..];
    }
  }

  /** The first piece of a split is a prefix of the text. */
  lemma {:induction false} SplitFirstIsPrefix(s: string, sep: string)
    requires sep != []
    ensures var p := Split(s, sep)[0]; |p| <= |s| && s[..|p|] == p
    decreases |s|
  {
    if |s| >= |sep| && s[..|sep|] != sep {
      SplitFirstIsPrefix(s[1..], sep);
    }
  }

  /** No piece of a split contains the separator. */
  lemma {:induction false} SplitPiecesFree(s: string, sep: string)
    requires sep != []
    ensures forall k :: 0 <= k < |Split(s, sep)| ==> Occurrences(Split(s, sep)[k], sep) == 0
    decreases |s|
  {
    var r := Split(s, sep);
    if |s| < |sep| {
      assert Occurrences(s, sep) == 0;
    } else if s[..|sep|] == sep {
      SplitPiecesFree(s[|sep|..], sep);
      assert Occurrences([], sep) == 0;
      assert forall k :: 1 <= k < |r| ==> r[k] == Split(s[|sep|..], sep)[k - 1];
    } else {
      var rest := Split(s[1..], sep);
      SplitPiecesFree(s[1..], sep);
      SplitFirstIsPrefix(s[1..], sep);
      var p := [s[0]] + rest[0];
      assert p == s[..|p|];
      if |p| >= |sep| {
        assert p[..|sep|] == s[..|sep|];
        assert p[1..] == rest[0];
      }
      assert Occurrences(p, sep) == 0;
      assert forall k :: 1 <= k < |r| ==> r[k] == rest[k];
    }
  }

  /** Splitting on "to" gives one more piece than there are occurrences of "to". */
  lemma {:induction false} SplitCount(s: string)
    ensures |Split(s, Separator)| == Occurrences(s, Separator) + 1
    decreases |s|
  {
    if |s| < 2 {
    } else if s[..2] == Separator {
      SplitCount(s[2..]);
      assert s[1] == 'o';
      if |s[1..]| >= 2 {
        assert s[1..][..2] != Separator;
        assert s[1..][1..] == s[2..];
      }
    } else {
      SplitCount(s[1..]);
    }
  }

  // ---------------------------------------------------------------------
  // parse_args

  /** The number of boundary texts is one more than the number of "to"s in the joined arguments. */
  lemma ParseArgsCount(argv: seq<string>)
    ensures |ParseArgs(argv)| == Occurrences(ArgumentText(argv), Separator) + 1
  {
    SplitCount(ArgumentText(argv));
  }

  /**
    Each boundary text is stripped, contains no "to", and is a piece of the
    joined arguments: rejoining the unstripped pieces with "to" restores them.
  */
  lemma ParseArgsPieces(argv: seq<string>)
    ensures forall k :: 0 <= k < |ParseArgs(argv)| ==>
      Strip(ParseArgs(argv)[k]) == ParseArgs(argv)[k] &&
      Occurrences(Split(ArgumentText(argv), Separator)[k], Separator) == 0
    ensures Join(Split(ArgumentText(argv), Separator), Separator) == ArgumentText(argv)
  {
    var pieces := Split(ArgumentText(argv), Separator);
    forall k | 0 <= k < |pieces|
      ensures Strip(ParseArgs(argv)[k]) == ParseArgs(argv)[k]
    {
      StripIdempotent(pieces[k]);
    }
    SplitPiecesFree(ArgumentText(argv), Separator);
    JoinSplit(ArgumentText(argv), Separator);
  }

  /** A text without "to" is not cut. */
  lemma {:induction false} SplitWithoutSeparator(a: string)
    requires Occurrences(a, Separator) == 0
    ensures Split(a, Separator) == [a]
    decreases |a|
  {
    if |a| >= 2 {
      assert a[..2] != Separator;
      SplitWithoutSeparator(a[1..]);
      assert [a[0]] + a[1..] == a;
    }
  }

  /** A text without the letter 't' has no "to". */
  lemma {:induction false} OccurrencesWithoutT(a: string)
    requires forall i :: 0 <= i < |a| ==> a[i] != 't'
    ensures Occurrences(a, Separator) == 0
    decreases |a|
  {
    if |a| >= 2 {
      assert a[0] != 't';
      OccurrencesWithoutT(a[1..]);
    }
  }

  /** The first cut falls at the first "to". */
  lemma {:induction false} SplitAtFirst(a: string, b: string)
    requires Occurrences(a, Separator) == 0
    ensures Split(a + Separator + b, Separator) == [a] + Split(b, Separator)
    decreases |a|
  {
    var s := a + Separator + b;
    if a == [] {
      assert s[..2] == Separator;
      assert s[2..] == b;
    } else {
      assert s[..2] != Separator by {
        if |a| >= 2 { assert s[..2] == a[..2]; } else { assert s[1] == 't'; }
      }
      if |a| >= 2 {
        assert Occurrences(a[1..], Separator) == 0;
      }
      assert s[1..] == a[1..] + Separator + b;
      SplitAtFirst(a[1..], b);
      assert [a[0]] + a[1..] == a;
    }
  }

  lemma JoinThree(x: string, y: string, z: string, sep: string)
    ensures Join([x, y, z], sep) == x + sep + y + sep + z
  {
    assert [x, y, z][1..] == [y, z];
    assert [y, z][1..] == [z];
    assert Join([y, z], sep) == y + sep + z;
    assert Join([x, y, z], sep) == x + sep + (y + sep + z);
  }

  /** Arguments whose joined text holds exactly one "to" give the two stripped sides. */
  lemma ParseArgsOneSeparator(argv: seq<string>, a: string, b: string)
    requires ArgumentText(argv) == a + Separator + b
    requires Occurrences(a, Separator) == 0 && Occurrences(b, Separator) == 0
    ensures ParseArgs(argv) == [Strip(a), Strip(b)]
  {
    SplitAtFirst(a, b);
    SplitWithoutSeparator(b);
    assert Split(ArgumentText(argv), Separator) == [a, b];
    assert StripAll([a, b]) == [Strip(a), Strip(b)];
  }

  lemma {:induction false} ArgumentTextOfThree(argv: seq<string>, x: string, z: string)
    requires |argv| == 4 && argv[1] == x && argv[2] == Separator && argv[3] == z
    ensures ArgumentText(argv) == (x + " ") + Separator + (" " + z)
  {
    assert DropProgramName(argv) == [x, Separator, z];
    JoinThree(x, Separator, z, " ");
  }

  /** A space next to a "to"-free text creates no "to": the joining spaces keep boundaries apart. */
  lemma {:induction false} PaddedWithoutSeparator(x: string)
    requires Occurrences(x, Separator) == 0
    ensures Occurrences(x + " ", Separator) == 0 && Occurrences(" " + x, Separator) == 0
    decreases |x|
  {
    var a := x + " ";
    if x != [] {
      assert a[..2] != Separator by {
        if |x| >= 2 { assert a[..2] == x[..2]; } else { assert a[1] == ' '; }
      }
      if |x| >= 2 {
        assert Occurrences(x[1..], Separator) == 0;
      }
      PaddedWithoutSeparator(x[1..]);
      assert a[1..] == x[1..] + " ";
    }
    var b := " " + x;
    if |b| >= 2 {
      assert b[0] == ' ';
      assert b[..2] != Separator;
      assert b[1..] == x;
    }
  }

  lemma StripSpaceAround(x: string, z: string)
    requires x != [] && !IsSpace(x[0]) && !IsSpace(x[|x| - 1])
    requires z != [] && !IsSpace(z[0]) && !IsSpace(z[|z| - 1])
    ensures Strip(x + " ") == x && Strip(" " + z) == z
  {
    StripPadded([], x, " ");
    assert [] + x + " " == x + " ";
    StripPadded(" ", z, []);
    assert " " + z + [] == " " + z;
  }

  /**
    `jack x to z`, where neither boundary contains "to" nor starts or ends
    with whitespace, yields exactly `[x, z]`.
  */
  lemma ParseArgsTwoBoundaries(argv: seq<string>, x: string, z: string)
    requires |argv| == 4 && argv[1] == x && argv[2] == Separator && argv[3] == z
    requires Occurrences(x, Separator) == 0 && Occurrences(z, Separator) == 0
    requires x != [] && !IsSpace(x[0]) && !IsSpace(x[|x| - 1])
    requires z != [] && !IsSpace(z[0]) && !IsSpace(z[|z| - 1])
    ensures ParseArgs(argv) == [x, z]
  {
    ArgumentTextOfThree(argv, x, z);
    PaddedWithoutSeparator(x);
    PaddedWithoutSeparator(z);
    ParseArgsOneSeparator(argv, x + " ", " " + z);
    StripSpaceAround(x, z);
  }

  /** Boundaries without the letter 't' contain no "to", so `ParseArgsTwoBoundaries` and `ParseArgsLeadingTo` apply. */
  lemma BoundariesWithoutT(argv: seq<string>, x: string, z: string, leading: bool)
    requires |argv| == 4 && argv[1] == (if leading then Separator + x else x) && argv[2] == Separator && argv[3] == z
    requires forall i :: 0 <= i < |x| ==> x[i] != 't'
    requires forall i :: 0 <= i < |z| ==> z[i] != 't'
    requires x != [] && !IsSpace(x[0]) && !IsSpace(x[|x| - 1])
    requires z != [] && !IsSpace(z[0]) && !IsSpace(z[|z| - 1])
    ensures ParseArgs(argv) == if leading then ["", x, z] else [x, z]
  {
    OccurrencesWithoutT(x);
    OccurrencesWithoutT(z);
    if leading {
      ParseArgsLeadingTo(argv, x, z);
    } else {
      ParseArgsTwoBoundaries(argv, x, z);
    }
  }

  /** `test_parse_args`, with an explicit zone: `jack 8:22pm to 8:30pm PDT`. */
  lemma ParseArgsExampleWithZone()
    ensures ParseArgs(["jack", "8:22pm", "to", "8:30pm PDT"]) == ["8:22pm", "8:30pm PDT"]
  {
    BoundariesWithoutT(["jack", "8:22pm", "to", "8:30pm PDT"], "8:22pm", "8:30pm PDT", false);
  }

  /** `test_parse_args`, without a zone: `jack 8:22pm to 8:30pm`. */
  lemma ParseArgsExampleLocal()
    ensures ParseArgs(["jack", "8:22pm", "to", "8:30pm"]) == ["8:22pm", "8:30pm"]
  {
    BoundariesWithoutT(["jack", "8:22pm", "to", "8:30pm"], "8:22pm", "8:30pm", false);
  }

  /**
    `jack to<x> to z`, with `x` and `z` as in `ParseArgsTwoBoundaries`: the
    leading "to" of the first word cuts too, giving `["", x, z]`.
  */
  lemma ParseArgsLeadingTo(argv: seq<string>, x: string, z: string)
    requires |argv| == 4 && argv[1] == Separator + x && argv[2] == Separator && argv[3] == z
    requires Occurrences(x, Separator) == 0 && Occurrences(z, Separator) == 0
    requires x != [] && !IsSpace(x[0]) && !IsSpace(x[|x| - 1])
    requires z != [] && !IsSpace(z[0]) && !IsSpace(z[|z| - 1])
    ensures ParseArgs(argv) == ["", x, z]
  {
    var a, b := x + " ", " " + z;
    ArgumentTextOfThree(argv, Separator + x, z);
    Reassociate(Separator, x, z);
    PaddedWithoutSeparator(x);
    PaddedWithoutSeparator(z);
    ParseArgsLeadingSeparator(argv, a, b);
    StripSpaceAround(x, z);
    assert Strip([]) == [];
  }

  lemma Reassociate(s: string, x: string, z: string)
    ensures (s + x + " ") + s + (" " + z) == s + ((x + " ") + s + (" " + z))
  {
  }

  /** Arguments whose joined text starts with "to" and holds one more give an empty first boundary. */
  lemma ParseArgsLeadingSeparator(argv: seq<string>, a: string, b: string)
    requires ArgumentText(argv) == Separator + (a + Separator + b)
    requires Occurrences(a, Separator) == 0 && Occurrences(b, Separator) == 0
    ensures ParseArgs(argv) == [Strip([]), Strip(a), Strip(b)]
  {
    SplitLeadingSeparator(a, b);
    StripAllThree([], a, b);
  }

  /** A text that starts with "to" and holds one more, between two "to"-free parts, splits into three. */
  lemma SplitLeadingSeparator(a: string, b: string)
    requires Occurrences(a, Separator) == 0 && Occurrences(b, Separator) == 0
    ensures Split(Separator + (a + Separator + b), Separator) == [[], a, b]
  {
    assert Occurrences([], Separator) == 0;
    assert [] + Separator + (a + Separator + b) == Separator + (a + Separator + b);
    SplitAtFirst([], a + Separator + b);
    SplitAtFirst(a, b);
    SplitWithoutSeparator(b);
  }

  lemma StripAllThree(p: string, q: string, r: string)
    ensures StripAll([p, q, r]) == [Strip(p), Strip(q), Strip(r)]
  {
  }

  /** The cut also happens inside words: "today" contributes one. */
  lemma ParseArgsInsideWord()
    ensures ParseArgs(["jack", "today", "to", "8pm"]) == ["", "day", "8pm"]
  {
    assert "today" == Separator + "day";
    BoundariesWithoutT(["jack", "today", "to", "8pm"], "day", "8pm", true);
  }
}
