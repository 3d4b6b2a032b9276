/** What a cron expression with a line break in it does to the block: it is printed over several lines, and the first of
    them cannot be read back. */
module CronLineBreaks {
  import opened Contracts
  import opened Text
  import opened CronSchedule
  import opened CronText
  import opened CronReadBack
  import opened CronEdits
  import opened CronDocument
  import opened CronHost
  import opened CronRuns

  // ---- lines that break into several

  predicate Closed(line: string) {
    line != "" && !IsBreak(line[|line| - 1])
  }

  predicate ClosedEach(lines: seq<string>) {
    forall i :: 0 <= i < |lines| ==> Closed(lines[i])
  }

  /** The lines that the given lines are read back as. */
  function Pieces(lines: seq<string>): seq<string> {
    if lines == [] then [] else Pieces(lines[..|lines| - 1]) + SplitLines(lines[|lines| - 1])
  }

  lemma {:induction false} PiecesConcat(a: seq<string>, b: seq<string>)
    ensures Pieces(a + b) == Pieces(a) + Pieces(b)
  {
    if b == [] {
      assert a + b == a;
    } else {
      assert (a + b)[..|a + b| - 1] == a + b[..|b| - 1];
      PiecesConcat(a, b[..|b| - 1]);
      Regroup(Pieces(a), Pieces(b[..|b| - 1]), SplitLines(b[|b| - 1]));
    }
  }

  lemma {:induction false} PiecesOne(line: string)
    ensures Pieces([line]) == SplitLines(line)
  {
    assert [line][..0] == [];
  }

  lemma {:induction false} SplitWhole(line: string)
    requires OneLine(line) && line != ""
    ensures SplitLines(line) == [line]
  {
    assert LineLength(line) == |line|;
  }

  lemma {:induction false} PiecesWhole(lines: seq<string>)
    requires OneLineEach(lines) && ClosedEach(lines)
    ensures Pieces(lines) == lines
  {
    if lines != [] {
      var init, last := lines[..|lines| - 1], lines[|lines| - 1];
      assert lines == init + [last];
      PiecesConcat(init, [last]);
      PiecesOne(last);
      PiecesWhole(init);
      SplitWhole(last);
    }
  }

  lemma {:induction false} LineLengthIs(s: string, n: nat)
    requires n < |s| && IsBreak(s[n]) && forall i :: 0 <= i < n ==> !IsBreak(s[i])
    ensures LineLength(s) == n
  {
  }

  function BreakWidth(s: string, n: nat): nat
    requires n < |s|
  {
    if s[n] == '\r' && n + 1 < |s| && s[n + 1] == '\n' then 2 else 1
  }

  lemma {:induction false} FirstCut(s: string, head: string, rest: string)
    requires |head| == LineLength(s) < |s| && |head| + BreakWidth(s, |head|) <= |s|
    requires head == s[..|head|] && rest == s[|head| + BreakWidth(s, |head|)..]
    ensures SplitLines(s) == [head] + SplitLines(rest)
  {
  }

  /** Text after a closed line does not change how that line is split. */
  lemma {:induction false} SplitAppend(a: string, b: string)
    requires Closed(a)
    ensures SplitLines(a + "\n" + b) == SplitLines(a) + SplitLines(b)
    decreases |a|
  {
    var n := LineLength(a);
    if n == |a| {
      SplitFirstLine(a, b);
      SplitWhole(a);
    } else {
      var s, width := a + "\n" + b, BreakWidth(a, n);
      var head, rest := a[..n], a[n + width..];
      AppendShape(a, b, n, rest);
      FirstCut(a, head, rest);
      FirstCut(s, head, rest + "\n" + b);
      SplitAppend(rest, b);
      Regroup([head], SplitLines(rest), SplitLines(b));
    }
  }

  lemma {:induction false} AppendShape(a: string, b: string, n: nat, rest: string)
    requires Closed(a) && n == LineLength(a) < |a| && n + BreakWidth(a, n) <= |a| && rest == a[n + BreakWidth(a, n)..]
    ensures Closed(rest)
    ensures var s := a + "\n" + b;
      && n == LineLength(s) < |s| && BreakWidth(s, n) == BreakWidth(a, n)
      && s[..n] == a[..n] && s[n + BreakWidth(s, n)..] == rest + "\n" + b
  {
    var s := a + "\n" + b;
    assert n < |a| - 1;
    assert forall i :: 0 <= i < |a| ==> s[i] == a[i];
    LineLengthIs(s, n);
  }

  lemma {:induction false} SplitOfJoin(lines: seq<string>)
    requires ClosedEach(lines) && lines != []
    ensures SplitLines(JoinLines(lines)) == Pieces(lines)
  {
    if |lines| == 1 {
      PiecesOne(lines[0]);
      assert lines == [lines[0]];
    } else {
      SplitOfJoin(lines[1..]);
      SplitAppend(lines[0], JoinLines(lines[1..]));
      PiecesConcat([lines[0]], lines[1..]);
      PiecesOne(lines[0]);
      assert lines == [lines[0]] + lines[1..];
    }
  }

  // ---- fields of a line that was cut short

  lemma {:induction false} FieldsOfPrefix(a: string, b: string)
    ensures |Fields(a)| <= |Fields(a + b)|
    decreases |a|
  {
    var t := SkipSpaces(a);
    SkipSpacesConcat(a, b);
    if t != "" {
      var w := Word(t);
      var rest := t[|w|..];
      assert t == w + rest;
      TakeWord(a, w, rest, 0);
      if rest == "" {
        SomeField(a + b);
      } else {
        Regroup(w, rest, b);
        TakeWord(a + b, w, rest + b, 0);
        FieldsOfPrefix(rest, b);
      }
    }
  }

  lemma {:induction false} SomeField(s: string)
    requires SkipSpaces(s) != ""
    ensures |Fields(s)| >= 1 && Fields("") == []
  {
  }

  lemma {:induction false} SplitFieldsFew(s: string, limit: nat)
    ensures |SplitFields(s, limit)| <= |Fields(s)|
    decreases |s|
  {
    var t := SkipSpaces(s);
    if t != "" && limit > 0 {
      SplitFieldsFew(t[|Word(t)|..], limit - 1);
    }
  }

  /** A prefix of a cron expression is no crontab entry: the command is missing. */
  lemma {:induction false} CutShort(schedule: string, n: nat)
    requires CronExpression(schedule) && n <= |schedule|
    ensures SplitCronEntry(schedule[..n]).Err?
  {
    assert schedule == schedule[..n] + schedule[n..];
    FieldsOfPrefix(schedule[..n], schedule[n..]);
    SplitFieldsFew(schedule[..n], 5);
  }

  // ---- the lines of one entry

  /** An entry as any validated manifest gives it, with or without line breaks in the schedule. */
  predicate LooseEntry(e: Entry) {
    TokenMeta(e.meta) && CronExpression(e.schedule) && PathText(e.wrapperPath)
  }

  predicate LooseEntries(entries: seq<Entry>) {
    forall i :: 0 <= i < |entries| ==> LooseEntry(entries[i])
  }

  /** A line that no marker and no metadata line looks like. */
  predicate NoHash(line: string) {
    line == "" || line[0] != '#'
  }

  lemma {:induction false} NoHashLine(line: string, projectId: string)
    requires NoHash(line)
    ensures !IsBegin(projectId, line) && !IsEnd(projectId, line) && ParseMeta(line) == None && line != DISABLED_MARKER
  {
    assert BeginMarker(projectId)[0] == '#' && EndMarker(projectId)[0] == '#';
  }

  lemma {:induction false} PiecesOfTail(s: string, path: string)
    requires OneLine(path) && forall i :: 0 <= i < |s| ==> s[i] != '#'
    ensures forall i :: 0 <= i < |SplitLines(s + " " + path)| ==> NoHash(SplitLines(s + " " + path)[i])
    decreases |s|
  {
    var t := s + " " + path;
    var n := LineLength(t);
    assert t[0] != '#';
    if n == |t| {
      SplitWhole(t);
    } else {
      TailShape(s, path, n);
      var rest := s[n + BreakWidth(t, n)..];
      FirstCut(t, t[..n], rest + " " + path);
      PiecesOfTail(rest, path);
    }
  }

  lemma {:induction false} TailShape(s: string, path: string, n: nat)
    requires OneLine(path) && n == LineLength(s + " " + path) < |s + " " + path|
    ensures var t := s + " " + path;
      n + BreakWidth(t, n) <= |s| && t[n + BreakWidth(t, n)..] == s[n + BreakWidth(t, n)..] + " " + path
  {
    var t := s + " " + path;
    assert t[|s|] == ' ';
    assert forall i :: |s| < i < |t| ==> t[i] == path[i - |s| - 1];
  }

  lemma {:induction false} ExpressionNoHash(schedule: string)
    requires CronExpression(schedule)
    ensures forall i :: 0 <= i < |schedule| ==> schedule[i] != '#'
  {
    ExpressionChars(schedule);
  }

  lemma {:induction false} CutBeforeBlank(s: string, path: string, n: nat)
    requires n == LineLength(s) < |s|
    ensures var t := s + " " + path;
      n == LineLength(t) && n + BreakWidth(t, n) <= |s| && t[..n] == s[..n]
  {
    var t := s + " " + path;
    assert t[|s|] == ' ';
    assert forall i :: 0 <= i < |s| ==> t[i] == s[i];
    LineLengthIs(t, n);
  }

  lemma {:induction false} CutAfter(before: string, t: string, head: string, rest: string)
    requires OneLine(before) && |head| == LineLength(t) < |t| && |head| + BreakWidth(t, |head|) <= |t|
    requires head == t[..|head|] && rest == t[|head| + BreakWidth(t, |head|)..]
    ensures SplitLines(before + t) == [before + head] + SplitLines(rest)
  {
    var line, n := before + t, |before| + |head|;
    assert forall i :: 0 <= i < |t| ==> line[|before| + i] == t[i];
    LineLengthIs(line, n);
    assert BreakWidth(line, n) == BreakWidth(t, |head|);
    assert line[..n] == before + head;
    assert line[n + BreakWidth(line, n)..] == t[|head| + BreakWidth(t, |head|)..];
    FirstCut(line, before + head, rest);
  }

  /** Where a broken text is cut first does not depend on what is printed before it or on the blank after it. */
  lemma {:induction false} CutInContext(before: string, s: string, path: string) returns (n: nat, tail: string)
    requires OneLine(before) && OneLine(path) && !OneLine(s)
    ensures n <= |s| && |tail| <= |s| && tail == s[|s| - |tail|..]
    ensures SplitLines(before + (s + " " + path)) == [before + s[..n]] + SplitLines(tail + " " + path)
  {
    var t := s + " " + path;
    n := LineLength(s);
    CutBeforeBlank(s, path, n);
    TailShape(s, path, n);
    tail := s[n + BreakWidth(t, n)..];
    CutAfter(before, t, s[..n], tail + " " + path);
  }

  /** A command line with a broken schedule, with whatever is printed before it: a cut schedule, then the rest. */
  lemma {:induction false} FirstPiece(before: string, e: Entry) returns (n: nat, tail: string)
    requires OneLine(before) && LooseEntry(e) && !OneLine(e.schedule)
    ensures n <= |e.schedule| && forall i :: 0 <= i < |tail| ==> tail[i] != '#'
    ensures SplitLines(before + CommandLine(e)) == [before + e.schedule[..n]] + SplitLines(tail + " " + e.wrapperPath)
  {
    ExpressionNoHash(e.schedule);
    n, tail := CutInContext(before, e.schedule, e.wrapperPath);
    assert forall i :: 0 <= i < |tail| ==> tail[i] == e.schedule[|e.schedule| - |tail| + i];
    Regroup(e.schedule, " ", e.wrapperPath);
  }

  // ---- reading a broken entry back

  /** The outcome of reading the lines of a broken entry: refused, or the entry of a disabled job comes back enabled. */
  ghost predicate Misread(r: Result<seq<Inspection>, CronError>, e: Entry, rest: seq<string>, projectId: string) {
    r.Err? || exists item: Inspection, pieces: seq<string> ::
      && !e.enabled && item.qualifiedId == e.meta.qualifiedId && item.enabled
      && (forall i :: 0 <= i < |pieces| ==> NoHash(pieces[i]))
      && r == Prepend([item], InspectLines(pieces + rest, projectId, IDLE))
  }

  lemma {:induction false} BrokenEnabled(e: Entry, rest: seq<string>, projectId: string)
    requires LooseEntry(e) && !OneLine(e.schedule) && e.enabled
    ensures InspectLines(Pieces(EntryLines(e)) + rest, projectId, IDLE).Err?
  {
    var n, tail := FirstPiece("", e);
    var meta, line, others := MetaLine(e.meta), e.schedule[..n], SplitLines(tail + " " + e.wrapperPath);
    assert "" + CommandLine(e) == CommandLine(e) && "" + line == line;
    EnabledPieces(e);
    assert Pieces(EntryLines(e)) == [meta] + ([line] + others);
    RegroupThree([meta], [line], others, rest);
    InspectMeta(e.meta, [line] + (others + rest), projectId);
    CutLineRefused(e, n, others + rest, projectId);
  }

  lemma {:induction false} RegroupThree<T>(a: seq<T>, b: seq<T>, c: seq<T>, d: seq<T>)
    ensures a + (b + c) + d == a + (b + (c + d))
  {
  }

  lemma {:induction false} CutLineRefused(e: Entry, n: nat, rest: seq<string>, projectId: string)
    requires LooseEntry(e) && n <= |e.schedule|
    ensures InspectLines([e.schedule[..n]] + rest, projectId, Scan(true, Some(e.meta), false)).Err?
  {
    ExpressionNoHash(e.schedule);
    NoHashLine(e.schedule[..n], projectId);
    CutShort(e.schedule, n);
    InspectPlain(e.schedule[..n], rest, projectId, e.meta, false);
  }

  lemma {:induction false} TwoPieces(a: string, b: string)
    requires OneLine(a) && a != ""
    ensures Pieces([a, b]) == [a] + SplitLines(b)
  {
    SplitWhole(a);
    assert [a, b] == [a] + [b];
    PiecesConcat([a], [b]);
    PiecesOne(a);
    PiecesOne(b);
  }

  lemma {:induction false} ThreePieces(a: string, b: string, c: string)
    requires OneLine(a) && a != "" && OneLine(b) && b != ""
    ensures Pieces([a, b, c]) == [a] + ([b] + SplitLines(c))
  {
    SplitWhole(a);
    assert [a, b, c] == [a] + [b, c];
    PiecesConcat([a], [b, c]);
    PiecesOne(a);
    TwoPieces(b, c);
  }

  lemma {:induction false} DisabledMarkerShows()
    ensures OneLine(DISABLED_MARKER) && DISABLED_MARKER != ""
  {
  }

  lemma {:induction false} EnabledPieces(e: Entry)
    requires TokenMeta(e.meta) && e.enabled
    ensures Pieces(EntryLines(e)) == [MetaLine(e.meta)] + SplitLines(CommandLine(e))
  {
    MetaOneLine(e.meta);
    TwoPieces(MetaLine(e.meta), CommandLine(e));
    assert EntryLines(e) == [MetaLine(e.meta), CommandLine(e)];
  }

  lemma {:induction false} DisabledPieces(e: Entry)
    requires TokenMeta(e.meta) && !e.enabled
    ensures Pieces(EntryLines(e)) == [MetaLine(e.meta)] + ([DISABLED_MARKER] + SplitLines("# " + CommandLine(e)))
  {
    MetaOneLine(e.meta);
    DisabledMarkerShows();
    ThreePieces(MetaLine(e.meta), DISABLED_MARKER, "# " + CommandLine(e));
    assert EntryLines(e) == [MetaLine(e.meta), DISABLED_MARKER, "# " + CommandLine(e)];
  }

  lemma {:induction false} PrefixUnmarked(line: string, whole: string)
    requires line <= whole && Unmarked(whole)
    ensures Unmarked(line)
  {
    PrefixUp(BEGIN_MARKER_PREFIX, line, whole);
    PrefixUp(END_MARKER_PREFIX, line, whole);
  }

  lemma {:induction false} PrefixNoMeta(line: string, whole: string)
    requires line <= whole && !(QUALIFIED_KEY <= whole)
    ensures ParseMeta(line) == None
  {
    PrefixUp(QUALIFIED_KEY, line, whole);
  }

  /** The first line of a disabled broken entry is no marker and no metadata. */
  lemma {:induction false} CutDisabled(e: Entry, line: string, projectId: string)
    requires LooseEntry(e) && line <= "# " + CommandLine(e)
    ensures !IsBegin(projectId, line) && !IsEnd(projectId, line) && ParseMeta(line) == None
  {
    NotBeginMarker(e);
    NotEndMarker(e);
    PrefixUnmarked(line, "# " + CommandLine(e));
    UnmarkedForAll(line, projectId);
    NotQualifiedKey(e);
    PrefixNoMeta(line, "# " + CommandLine(e));
  }

  lemma {:induction false} BrokenDisabled(e: Entry, rest: seq<string>, projectId: string)
    requires LooseEntry(e) && !OneLine(e.schedule) && !e.enabled
    ensures Misread(InspectLines(Pieces(EntryLines(e)) + rest, projectId, IDLE), e, rest, projectId)
  {
    var n, tail := FirstPiece("# ", e);
    var meta, line, pieces := MetaLine(e.meta), "# " + e.schedule[..n], SplitLines(tail + " " + e.wrapperPath);
    DisabledPieces(e);
    assert Pieces(EntryLines(e)) == [meta] + ([DISABLED_MARKER] + ([line] + pieces));
    RegroupThree([meta], [DISABLED_MARKER], [line] + pieces, rest);
    Regroup([line], pieces, rest);
    InspectMeta(e.meta, [DISABLED_MARKER] + ([line] + (pieces + rest)), projectId);
    InspectDisabledMarker(e.meta, [line] + (pieces + rest), projectId);
    PiecesOfTail(tail, e.wrapperPath);
    CutDisabledLine(e, n, pieces, rest, projectId);
  }

  lemma {:induction false} CutDisabledLine(e: Entry, n: nat, pieces: seq<string>, rest: seq<string>, projectId: string)
    requires LooseEntry(e) && n <= |e.schedule| && !e.enabled
    requires pieces != [] && forall i :: 0 <= i < |pieces| ==> NoHash(pieces[i])
    ensures Misread(InspectLines(["# " + e.schedule[..n]] + (pieces + rest), projectId, Scan(true, Some(e.meta), true)),
                    e, rest, projectId)
  {
    var line := "# " + e.schedule[..n];
    if line != DISABLED_MARKER {
      assert line <= "# " + CommandLine(e);
      CutDisabled(e, line, projectId);
      assert line[2..] == e.schedule[..n];
      CutShort(e.schedule, n);
      InspectPlain(line, pieces + rest, projectId, e.meta, true);
    } else {
      InspectMarkerAgain(e.meta, pieces + rest, projectId);
      ReenabledPiece(e, pieces, rest, projectId);
    }
  }

  /** A second announcement changes nothing. */
  lemma {:induction false} InspectMarkerAgain(m: Meta, rest: seq<string>, projectId: string)
    ensures InspectLines([DISABLED_MARKER] + rest, projectId, Scan(true, Some(m), true))
      == InspectLines(rest, projectId, Scan(true, Some(m), true))
  {
    assert DISABLED_MARKER[2] == 'd';
    UnmarkedForAll(DISABLED_MARKER, projectId);
    assert ([DISABLED_MARKER] + rest)[1..] == rest;
  }

  lemma {:induction false} ReenabledPiece(e: Entry, pieces: seq<string>, rest: seq<string>, projectId: string)
    requires pieces != [] && !e.enabled && forall i :: 0 <= i < |pieces| ==> NoHash(pieces[i])
    ensures Misread(InspectLines(pieces + rest, projectId, Scan(true, Some(e.meta), true)), e, rest, projectId)
  {
    var line, others := pieces[0], pieces[1..];
    assert pieces + rest == [line] + (others + rest);
    NoHashLine(line, projectId);
    InspectPlain(line, others + rest, projectId, e.meta, true);
    var parts := SplitCronEntry(line);
    if parts.Ok? {
      var item := InspectionOf(e.meta, false, line, parts.value);
      assert item.qualifiedId == e.meta.qualifiedId && item.enabled;
    }
  }

  lemma {:induction false} BrokenEntry(e: Entry, rest: seq<string>, projectId: string)
    requires LooseEntry(e) && !OneLine(e.schedule)
    ensures Misread(InspectLines(Pieces(EntryLines(e)) + rest, projectId, IDLE), e, rest, projectId)
  {
    if e.enabled {
      BrokenEnabled(e, rest, projectId);
    } else {
      BrokenDisabled(e, rest, projectId);
    }
  }

  // ---- the block as it is written

  lemma {:induction false} CommandClosed(before: string, e: Entry)
    requires LooseEntry(e)
    ensures Closed(before + CommandLine(e))
  {
    var line := before + CommandLine(e);
    assert line[|line| - 1] == e.wrapperPath[|e.wrapperPath| - 1];
  }

  lemma {:induction false} EntryClosed(e: Entry)
    requires LooseEntry(e)
    ensures ClosedEach(EntryLines(e))
  {
    MetaOneLine(e.meta);
    CommandClosed("", e);
    assert "" + CommandLine(e) == CommandLine(e);
    CommandClosed("# ", e);
  }

  lemma {:induction false} BodyClosed(entries: seq<Entry>)
    requires LooseEntries(entries)
    ensures ClosedEach(BodyLines(entries))
  {
    if entries != [] {
      BodyClosed(entries[..|entries| - 1]);
      EntryClosed(entries[|entries| - 1]);
    }
  }

  /** The lines between the markers as they come back. */
  function BodyPieces(entries: seq<Entry>): seq<string> {
    Pieces(BodyLines(entries))
  }

  lemma {:induction false} BodyConcat(a: seq<Entry>, b: seq<Entry>)
    ensures BodyLines(a + b) == BodyLines(a) + BodyLines(b)
  {
    if b == [] {
      assert a + b == a;
    } else {
      assert (a + b)[..|a + b| - 1] == a + b[..|b| - 1];
      BodyConcat(a, b[..|b| - 1]);
      Regroup(BodyLines(a), BodyLines(b[..|b| - 1]), EntryLines(b[|b| - 1]));
    }
  }

  lemma {:induction false} BodyPiecesConcat(a: seq<Entry>, b: seq<Entry>)
    ensures BodyPieces(a + b) == BodyPieces(a) + BodyPieces(b)
  {
    BodyConcat(a, b);
    PiecesConcat(BodyLines(a), BodyLines(b));
  }

  lemma {:induction false} BodyPiecesOne(e: Entry)
    ensures BodyPieces([e]) == Pieces(EntryLines(e))
  {
    assert [e] == [] + [e];
    BodySnoc([], e);
    assert BodyLines([]) + EntryLines(e) == EntryLines(e);
  }

  lemma {:induction false} FramePieces(begin: string, body: seq<string>, end: string)
    requires OneLine(begin) && begin != "" && OneLine(end) && end != ""
    ensures Pieces([begin] + body + [end]) == [begin] + Pieces(body) + [end]
  {
    PiecesConcat([begin] + body, [end]);
    PiecesConcat([begin], body);
    PiecesOne(begin);
    PiecesOne(end);
    SplitWhole(begin);
    SplitWhole(end);
  }

  lemma {:induction false} FrameClosed(projectId: string)
    requires IsToken(projectId)
    ensures Closed(BeginLine(projectId)) && Closed(EndMarker(projectId))
  {
    MarkerLines(projectId);
    assert BeginLine(projectId)[|BeginLine(projectId)| - 1] == 'n';
  }

  lemma {:induction false} BlockClosed(projectId: string, entries: seq<Entry>)
    requires IsToken(projectId) && LooseEntries(entries)
    ensures ClosedEach(BlockLines(projectId, entries))
  {
    FrameClosed(projectId);
    BodyClosed(entries);
  }

  lemma {:induction false} BlockPieces(projectId: string, entries: seq<Entry>)
    requires IsToken(projectId)
    ensures Pieces(BlockLines(projectId, entries))
      == [BeginLine(projectId)] + BodyPieces(entries) + [EndMarker(projectId)]
  {
    MarkerLines(projectId);
    assert BeginLine(projectId) != "";
    FramePieces(BeginLine(projectId), BodyLines(entries), EndMarker(projectId));
  }

  lemma {:induction false} ReplacementPieces(lines: seq<string>)
    requires ClosedEach(lines) && lines != []
    ensures ReplacementLines(Some(BlockText(lines))) == Pieces(lines)
  {
    assert Closed(lines[|lines| - 1]);
    BlockTextStrips(lines);
    SplitOfJoin(lines);
  }

  lemma {:induction false} FoundPlace(doc: seq<Segment>, projectId: string, k: nat, lines: seq<string>)
    requires ValidDoc(doc) && IsToken(projectId) && k == FirstMatch(doc, projectId) < |doc|
    ensures EditedLines(Render(doc), projectId, lines) == Render(doc[..k]) + lines + Render(doc[k + 1..])
  {
    RenderAround(doc, k);
    PlainBlock(doc[k].owner, doc[k].body, projectId);
    NoBeginUnmatched(doc[..k], projectId);
    NoBeginNoBlock(Render(doc[..k]), projectId);
    EditInContext(Render(doc[..k]), SegmentLines(doc[k]), Render(doc[k + 1..]), projectId, lines);
  }

  /** Where an edit puts the new lines: after lines that hold no begin marker of the project. */
  lemma {:induction false} EditPlaces(doc: seq<Segment>, projectId: string, lines: seq<string>)
    returns (before: seq<string>, after: seq<string>)
    requires ValidDoc(doc) && IsToken(projectId) && lines != []
    ensures EditedLines(Render(doc), projectId, lines) == before + lines + after
    ensures OneLineEach(before) && OneLineEach(after)
    ensures forall i :: 0 <= i < |before| ==> !IsBegin(projectId, before[i])
  {
    var k := FirstMatch(doc, projectId);
    if k < |doc| {
      before, after := Render(doc[..k]), Render(doc[k + 1..]);
      FoundPlace(doc, projectId, k, lines);
      RenderOneLine(doc[..k]);
      RenderOneLine(doc[k + 1..]);
      NoBeginUnmatched(doc[..k], projectId);
    } else {
      before, after := Render(doc) + Separator(Render(doc)), [];
      RenderOneLine(doc);
      NoBeginUnmatched(doc, projectId);
      NoBeginNoBlock(Render(doc), projectId);
      assert before + lines + after == before + lines;
    }
  }

  /** The last line shows up to its last character. */
  predicate Visible(lines: seq<string>) {
    lines != [] && lines[|lines| - 1] != "" && !IsSpace(lines[|lines| - 1][|lines[|lines| - 1]| - 1])
  }

  lemma {:induction false} OneLineThree(a: seq<string>, b: seq<string>, c: seq<string>)
    requires OneLineEach(a) && OneLineEach(b) && OneLineEach(c)
    ensures OneLineEach(a + b + c)
  {
  }

  lemma {:induction false} TrimVisible(before: seq<string>, lines: seq<string>)
    requires Visible(lines)
    ensures TrimLines(before + lines) == before + lines
  {
    assert (before + lines)[|before + lines| - 1] == lines[|lines| - 1];
    TrimUnchanged(before + lines);
  }

  lemma {:induction false} SettleVisible(before: seq<string>, lines: seq<string>, after: seq<string>)
    requires Visible(lines)
    ensures Settle(before + lines + after) == before + lines + TrimLines(after)
  {
    TrimVisible(before, lines);
    TrimConcat(before + lines, after);
    assert TrimLines(after) == [] ==> before + lines + TrimLines(after) == before + lines;
    assert before + lines != [];
  }

  lemma {:induction false} WrittenLines(content: string, doc: seq<Segment>, projectId: string, lines: seq<string>,
          block: seq<string>)
    returns (before: seq<string>, after: seq<string>)
    requires ValidDoc(doc) && SplitLines(content) == Render(doc) && IsToken(projectId)
    requires ClosedEach(lines) && lines != [] && block == Pieces(lines) && Visible(block)
    ensures SplitLines(EditedText(content, projectId, Some(BlockText(lines)))) == before + block + after
    ensures forall i :: 0 <= i < |before| ==> !IsBegin(projectId, before[i])
  {
    ReplacementPieces(lines);
    var rest;
    before, rest := EditPlaces(doc, projectId, block);
    PiecesOneLine(lines);
    OneLineThree(before, block, rest);
    FinishReread(before + block + rest);
    SettleVisible(before, block, rest);
    after := TrimLines(rest);
  }

  /** The written crontab, read back for its project: what counts are the lines between the markers. */
  lemma {:induction false} WrittenReads(content: string, doc: seq<Segment>, projectId: string, entries: seq<Entry>)
    returns (after: seq<string>)
    requires ValidDoc(doc) && SplitLines(content) == Render(doc) && IsToken(projectId) && LooseEntries(entries)
    ensures InspectLines(SplitLines(EditedText(content, projectId, Some(BlockText(BlockLines(projectId, entries))))),
                         projectId, START)
      == InspectLines(BodyPieces(entries) + ([EndMarker(projectId)] + after), projectId, IDLE)
  {
    var before;
    var block := [BeginLine(projectId)] + BodyPieces(entries) + [EndMarker(projectId)];
    BlockClosed(projectId, entries);
    BlockPieces(projectId, entries);
    MarkerLines(projectId);
    assert Visible(block);
    before, after := WrittenLines(content, doc, projectId, BlockLines(projectId, entries), block);
    RegroupBlock(before, [BeginLine(projectId)], BodyPieces(entries), [EndMarker(projectId)], after);
    SkipBefore(before, [BeginLine(projectId)] + (BodyPieces(entries) + ([EndMarker(projectId)] + after)), projectId);
    InspectBegin(projectId, BodyPieces(entries) + ([EndMarker(projectId)] + after), projectId);
  }

  lemma {:induction false} PiecesOneLine(lines: seq<string>)
    ensures OneLineEach(Pieces(lines))
  {
    if lines != [] {
      PiecesOneLine(lines[..|lines| - 1]);
    }
  }

  lemma {:induction false} RegroupBlock<T>(a: seq<T>, b: seq<T>, c: seq<T>, d: seq<T>, e: seq<T>)
    ensures a + (b + c + d) + e == a + (b + (c + (d + e)))
  {
  }

  // ---- no other line of the block gives the same job

  predicate OtherMeta(line: string, id: string) {
    ParseMeta(line).Some? ==> ParseMeta(line).value.qualifiedId != id
  }

  predicate OtherMetaEach(lines: seq<string>, id: string) {
    forall i :: 0 <= i < |lines| ==> OtherMeta(lines[i], id)
  }

  lemma {:induction false} OtherMetaConcat(a: seq<string>, b: seq<string>, id: string)
    requires OtherMetaEach(a, id) && OtherMetaEach(b, id)
    ensures OtherMetaEach(a + b, id)
  {
  }

  predicate Without(items: seq<Inspection>, id: string) {
    forall i :: 0 <= i < |items| ==> items[i].qualifiedId != id
  }

  /** Lines up to the end marker that never announce a job never give it. */
  lemma {:induction false} NeverGiven(lines: seq<string>, tail: seq<string>, projectId: string, id: string, scan: Scan)
    requires scan.inside && (scan.meta.Some? ==> scan.meta.value.qualifiedId != id)
    requires OtherMetaEach(lines, id)
    requires tail != [] && IsEnd(projectId, tail[0])
    ensures var r := InspectLines(lines + tail, projectId, scan); r.Ok? ==> Without(r.value, id)
    decreases |lines|
  {
    if lines == [] {
      assert lines + tail == tail;
      if IsBegin(projectId, tail[0]) {
        BeginIsNotEnd(projectId, projectId, tail[0]);
      }
    } else {
      var line, rest := lines[0], lines[1..];
      assert (lines + tail)[0] == line && (lines + tail)[1..] == rest + tail;
      assert OtherMeta(line, id);
      if IsBegin(projectId, line) {
        NeverGiven(rest, tail, projectId, id, IDLE);
      } else if IsEnd(projectId, line) {
      } else if ParseMeta(line).Some? {
        NeverGiven(rest, tail, projectId, id, Scan(true, ParseMeta(line), false));
      } else if line == DISABLED_MARKER {
        NeverGiven(rest, tail, projectId, id, scan.(pendingDisabled := true));
      } else if scan.meta.None? {
        NeverGiven(rest, tail, projectId, id, scan);
      } else {
        NeverGiven(rest, tail, projectId, id, IDLE);
        assert lines + tail == [line] + (rest + tail);
        InspectPlain(line, rest + tail, projectId, scan.meta.value, scan.pendingDisabled);
      }
    }
  }

  lemma {:induction false} NoHashPieces(pieces: seq<string>, id: string)
    requires forall i :: 0 <= i < |pieces| ==> NoHash(pieces[i])
    ensures OtherMetaEach(pieces, id)
  {
    forall i | 0 <= i < |pieces| ensures OtherMeta(pieces[i], id) {
      NoHashLine(pieces[i], "");
    }
  }

  lemma {:induction false} CommandPieces(before: string, e: Entry) returns (first: string, others: seq<string>)
    requires OneLine(before) && LooseEntry(e)
    ensures SplitLines(before + CommandLine(e)) == [first] + others
    ensures first <= before + CommandLine(e) && forall i :: 0 <= i < |others| ==> NoHash(others[i])
  {
    if OneLine(e.schedule) {
      JoinBlanksOneLine(" ", e.wrapperPath);
      JoinBlanksOneLine(e.schedule, " " + e.wrapperPath);
      JoinBlanksOneLine(before, CommandLine(e));
      SplitWhole(before + CommandLine(e));
      first, others := before + CommandLine(e), [];
    } else {
      var n, tail := FirstPiece(before, e);
      first, others := before + e.schedule[..n], SplitLines(tail + " " + e.wrapperPath);
      PiecesOfTail(tail, e.wrapperPath);
    }
  }

  lemma {:induction false} EnabledOtherMeta(e: Entry, id: string)
    requires LooseEntry(e) && e.enabled
    ensures OtherMetaEach(SplitLines(CommandLine(e)), id)
  {
    var first, others := CommandPieces("", e);
    assert "" + CommandLine(e) == CommandLine(e);
    ExpressionNoHash(e.schedule);
    assert CommandLine(e)[0] == e.schedule[0];
    NoHashPieces([first], id);
    NoHashPieces(others, id);
    OtherMetaConcat([first], others, id);
  }

  lemma {:induction false} DisabledOtherMeta(e: Entry, id: string)
    requires LooseEntry(e)
    ensures OtherMetaEach(SplitLines("# " + CommandLine(e)), id)
  {
    var first, others := CommandPieces("# ", e);
    CutDisabled(e, first, "");
    NoHashPieces(others, id);
    OtherMetaConcat([first], others, id);
  }

  lemma {:induction false} MetaOtherMeta(m: Meta, id: string)
    requires TokenMeta(m) && m.qualifiedId != id
    ensures OtherMetaEach([MetaLine(m)], id)
  {
    ParseMetaLine(m);
  }

  lemma {:induction false} MarkerOtherMeta(id: string)
    ensures OtherMetaEach([DISABLED_MARKER], id)
  {
    assert DISABLED_MARKER[2] == 'd' && QUALIFIED_KEY[2] == 'X';
    assert TakeField(DISABLED_MARKER, QUALIFIED_KEY) == None;
  }

  /** The lines of an entry, whole or broken, announce no other job. */
  lemma {:induction false} EntryOtherMeta(e: Entry, id: string)
    requires LooseEntry(e) && e.meta.qualifiedId != id
    ensures OtherMetaEach(Pieces(EntryLines(e)), id)
  {
    MetaOtherMeta(e.meta, id);
    if e.enabled {
      EnabledPieces(e);
      EnabledOtherMeta(e, id);
      OtherMetaConcat([MetaLine(e.meta)], SplitLines(CommandLine(e)), id);
    } else {
      var command := SplitLines("# " + CommandLine(e));
      DisabledPieces(e);
      DisabledOtherMeta(e, id);
      MarkerOtherMeta(id);
      OtherMetaConcat([DISABLED_MARKER], command, id);
      OtherMetaConcat([MetaLine(e.meta)], [DISABLED_MARKER] + command, id);
    }
  }

  lemma {:induction false} BodyOtherMeta(entries: seq<Entry>, id: string)
    requires LooseEntries(entries) && forall i :: 0 <= i < |entries| ==> entries[i].meta.qualifiedId != id
    ensures OtherMetaEach(BodyPieces(entries), id)
  {
    if entries != [] {
      var init, last := entries[..|entries| - 1], entries[|entries| - 1];
      assert entries == init + [last];
      BodyPiecesConcat(init, [last]);
      BodyPiecesOne(last);
      BodyOtherMeta(init, id);
      EntryOtherMeta(last, id);
      OtherMetaConcat(BodyPieces(init), Pieces(EntryLines(last)), id);
    }
  }

  // ---- the whole block

  lemma {:induction false} BodyWhole(entries: seq<Entry>)
    requires ValidEntries(entries)
    ensures BodyPieces(entries) == BodyLines(entries)
  {
    BodyPlain(entries);
    BodyClosed(entries);
    PiecesWhole(BodyLines(entries));
  }

  /** Reading stops, or the first broken job comes back once, enabled although it is disabled. */
  ghost predicate Spoiled(r: Result<seq<Inspection>, CronError>, e: Entry) {
    r.Err? || exists first: seq<Inspection>, item: Inspection, others: seq<Inspection> ::
      && !e.enabled && item.qualifiedId == e.meta.qualifiedId && item.enabled && Without(others, item.qualifiedId)
      && r.value == first + [item] + others
  }

  /** Reading the lines between the markers, when the entry at `k` is the first one with a line break in its schedule.
      */
  lemma {:induction false} SpoiledAt(entries: seq<Entry>, k: nat, after: seq<string>, projectId: string)
    requires LooseEntries(entries) && DistinctEntries(entries) && k < |entries|
    requires ValidEntries(entries[..k]) && !OneLine(entries[k].schedule)
    ensures Spoiled(InspectLines(BodyPieces(entries) + ([EndMarker(projectId)] + after), projectId, IDLE), entries[k])
  {
    var e, later, end := entries[k], entries[k + 1..], [EndMarker(projectId)] + after;
    var rest := BodyPieces(later) + end;
    SplitBody(entries, k, end);
    BodyWhole(entries[..k]);
    InspectBody(entries[..k], Pieces(EntryLines(e)) + rest, projectId);
    BrokenEntry(e, rest, projectId);
    SpoiledBehind(ReadBacks(entries[..k]), InspectLines(Pieces(EntryLines(e)) + rest, projectId, IDLE), e, later, end,
                  projectId);
  }

  lemma {:induction false} SpoiledBehind(read: seq<Inspection>, r: Result<seq<Inspection>, CronError>, e: Entry,
          later: seq<Entry>, end: seq<string>, projectId: string)
    requires LooseEntries(later) && forall i :: 0 <= i < |later| ==> later[i].meta.qualifiedId != e.meta.qualifiedId
    requires end != [] && IsEnd(projectId, end[0])
    requires Misread(r, e, BodyPieces(later) + end, projectId)
    ensures Spoiled(Prepend(read, r), e)
  {
    if r.Ok? {
      var rest := BodyPieces(later) + end;
      var item: Inspection, pieces: seq<string> :|
        && !e.enabled && item.qualifiedId == e.meta.qualifiedId && item.enabled
        && (forall i :: 0 <= i < |pieces| ==> NoHash(pieces[i]))
        && r == Prepend([item], InspectLines(pieces + rest, projectId, IDLE));
      NeverAgain(pieces, later, end, projectId, e.meta.qualifiedId);
      var others := InspectLines(pieces + rest, projectId, IDLE).value;
      Regroup(read, [item], others);
    }
  }

  lemma {:induction false} NeverAgain(pieces: seq<string>, later: seq<Entry>, end: seq<string>, projectId: string,
          id: string)
    requires forall i :: 0 <= i < |pieces| ==> NoHash(pieces[i])
    requires LooseEntries(later) && forall i :: 0 <= i < |later| ==> later[i].meta.qualifiedId != id
    requires end != [] && IsEnd(projectId, end[0])
    ensures var r := InspectLines(pieces + (BodyPieces(later) + end), projectId, IDLE); r.Ok? ==> Without(r.value, id)
  {
    NoHashPieces(pieces, id);
    BodyOtherMeta(later, id);
    OtherMetaConcat(pieces, BodyPieces(later), id);
    Regroup(pieces, BodyPieces(later), end);
    NeverGiven(pieces + BodyPieces(later), end, projectId, id, IDLE);
  }

  lemma {:induction false} SplitBody(entries: seq<Entry>, k: nat, end: seq<string>)
    requires k < |entries|
    ensures BodyPieces(entries) + end
      == BodyPieces(entries[..k]) + (Pieces(EntryLines(entries[k])) + (BodyPieces(entries[k + 1..]) + end))
  {
    assert entries == entries[..k] + ([entries[k]] + entries[k + 1..]);
    BodyPiecesConcat(entries[..k], [entries[k]] + entries[k + 1..]);
    BodyPiecesConcat([entries[k]], entries[k + 1..]);
    BodyPiecesOne(entries[k]);
    RegroupThree(BodyPieces(entries[..k]), Pieces(EntryLines(entries[k])), BodyPieces(entries[k + 1..]), end);
  }
}
