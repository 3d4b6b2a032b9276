/** Printing a block and reading it back: the parser undoes the printer, wherever the block stands. */
module CronReadBack {
  import opened Contracts
  import opened Text
  import opened CronSchedule
  import opened CronText

  // ---- metadata lines

  lemma {:induction false} TakeFieldOf(key: string, w: string, rest: string)
    requires IsToken(w)
    requires rest == "" || IsSpace(rest[0])
    ensures TakeField(key + (w + rest), key) == Some((w, rest))
  {
    var s := key + (w + rest);
    assert s[|key|..] == w + rest;
    WordThenBreak(w, rest);
    assert s[|key| + |w|..] == s[|key|..][|w|..];
  }

  lemma {:induction false} TakeFieldInverse(s: string, key: string, w: string, rest: string)
    requires TakeField(s, key) == Some((w, rest))
    ensures s == key + (w + rest) && IsToken(w)
  {
    assert s == key + s[|key|..];
    assert s[|key|..] == w + s[|key|..][|w|..];
    assert s[|key| + |w|..] == s[|key|..][|w|..];
  }

  /** The metadata pattern accepts exactly the printed lines, and the ids come back as they went in. */
  lemma {:induction false} ParseMetaExactly(line: string, m: Meta)
    ensures ParseMeta(line) == Some(m) <==> TokenMeta(m) && line == MetaLine(m)
  {
    if TokenMeta(m) && line == MetaLine(m) {
      ParseMetaLine(m);
    }
    if ParseMeta(line) == Some(m) {
      var a := TakeField(line, QUALIFIED_KEY).value;
      var b := TakeField(a.1, JOB_KEY).value;
      var c := TakeField(b.1, DESIRED_KEY).value;
      var d := TakeField(c.1, DEFINITION_KEY).value;
      TakeFieldInverse(line, QUALIFIED_KEY, a.0, a.1);
      TakeFieldInverse(a.1, JOB_KEY, b.0, b.1);
      TakeFieldInverse(b.1, DESIRED_KEY, c.0, c.1);
      TakeFieldInverse(c.1, DEFINITION_KEY, d.0, d.1);
    }
  }

  lemma {:induction false} ParseMetaLine(m: Meta)
    requires TokenMeta(m)
    ensures ParseMeta(MetaLine(m)) == Some(m)
  {
    var s3 := DEFINITION_KEY + (m.definitionHash + "");
    var s2 := DESIRED_KEY + (m.desiredHash + s3);
    var s1 := JOB_KEY + (m.jobId + s2);
    TakeFieldOf(DEFINITION_KEY, m.definitionHash, "");
    TakeFieldOf(DESIRED_KEY, m.desiredHash, s3);
    TakeFieldOf(JOB_KEY, m.jobId, s2);
    TakeFieldOf(QUALIFIED_KEY, m.qualifiedId, s1);
  }

  // ---- a printed line is never mistaken for another kind of line

  /** A line that carries no marker of any project. */
  predicate Unmarked(line: string) {
    !(BEGIN_MARKER_PREFIX <= line) && !(END_MARKER_PREFIX <= line)
  }

  function Spaces(s: string): nat {
    if s == "" then 0 else Spaces(s[..|s| - 1]) + if IsSpace(s[|s| - 1]) then 1 else 0
  }

  lemma {:induction false} SpacesConcat(a: string, b: string)
    ensures Spaces(a + b) == Spaces(a) + Spaces(b)
  {
    if b == "" {
      assert a + b == a;
    } else {
      assert (a + b)[..|a + b| - 1] == a + b[..|b| - 1];
      SpacesConcat(a, b[..|b| - 1]);
    }
  }

  lemma {:induction false} SpacesOfToken(s: string)
    requires s == "" || IsToken(s)
    ensures Spaces(s) == 0
  {
    if s != "" {
      SpacesOfToken(s[..|s| - 1]);
    }
  }

  lemma {:induction false} SkipOnlyShortens(s: string)
    ensures Spaces(SkipSpaces(s)) <= Spaces(s)
  {
    if s != "" && IsSpace(s[0]) {
      SkipOnlyShortens(s[1..]);
      assert s == [s[0]] + s[1..];
      SpacesConcat([s[0]], s[1..]);
    }
  }

  /** Fields are separated, so there are at most one more of them than blanks. */
  lemma {:induction false} FieldsNeedSpaces(s: string)
    ensures |Fields(s)| <= Spaces(s) + 1
    decreases |s|
  {
    var t := SkipSpaces(s);
    SkipOnlyShortens(s);
    if t != "" {
      var w := Word(t);
      var rest := t[|w|..];
      assert t == w + rest;
      SpacesConcat(w, rest);
      SpacesOfToken(w);
      if rest != "" {
        assert rest == [rest[0]] + rest[1..];
        SpacesConcat([rest[0]], rest[1..]);
        SkipOneSpace(rest[0], rest[1..]);
        FieldsNeedSpaces(rest[1..]);
        assert Spaces([rest[0]]) == 1 by { assert [rest[0]][..0] == ""; assert Spaces("") == 0; }
      }
    }
  }

  /** Every character of a cron expression is a cron character or a blank. */
  lemma {:induction false} ExpressionChars(s: string)
    requires forall i :: 0 <= i < |Fields(s)| ==> CronField(Fields(s)[i])
    ensures forall i :: 0 <= i < |s| ==> IsSpace(s[i]) || IsCronChar(s[i])
    decreases |s|
  {
    if s != "" {
      if IsSpace(s[0]) {
        assert s == [s[0]] + s[1..];
        SkipOneSpace(s[0], s[1..]);
        ExpressionChars(s[1..]);
        assert forall i :: 1 <= i < |s| ==> s[i] == s[1..][i - 1];
      } else {
        var w := Word(s);
        var rest := s[|w|..];
        var f := Fields(s);
        assert f == [w] + Fields(rest);
        forall i | 0 <= i < |Fields(rest)| ensures CronField(Fields(rest)[i]) {
          assert Fields(rest)[i] == f[i + 1];
        }
        ExpressionChars(rest);
        forall i | 0 <= i < |s| ensures IsSpace(s[i]) || IsCronChar(s[i]) {
          if i < |w| {
            assert s[i] == w[i] && f[0] == w;
          } else {
            assert s[i] == rest[i - |w|];
          }
        }
      }
    }
  }

  /** Three words, the last ending in `=`, cannot start a command line: a cron expression has five fields and no `=`. */
  lemma {:induction false} NotThreeWords(schedule: string, more: string, a: string, b: string, c: string)
    requires CronExpression(schedule)
    requires IsToken(a) && IsToken(b) && IsToken(c)
    ensures !(a + " " + b + " " + c + "=" <= schedule + more)
  {
    var key := a + " " + b + " " + c + "=";
    var line := schedule + more;
    ExpressionChars(schedule);
    assert forall i :: 0 <= i < |schedule| ==> line[i] == schedule[i] != '=';
    if key <= line {
      var n := |key| - 1;
      assert line[n] == key[n] == '=';
      var short := a + " " + b + " " + c;
      assert short == key[..n] == line[..n];
      assert short == schedule + short[|schedule|..];
      SpacesConcat(schedule, short[|schedule|..]);
      SpacesConcat(a + " " + b + " ", c);
      SpacesConcat(a + " " + b, " ");
      SpacesConcat(a + " ", b);
      SpacesConcat(a, " ");
      SpacesOfToken(a);
      SpacesOfToken(b);
      SpacesOfToken(c);
      assert Spaces(" ") == 1 by { assert " "[..0] == ""; assert Spaces("") == 0; }
      FieldsNeedSpaces(schedule);
    }
  }

  lemma {:induction false} DropTwo(line: string, key: string, short: string)
    requires key == "# " + short && |line| >= 2
    ensures key <= line ==> short <= line[2..]
  {
    if key <= line {
      assert line == key + line[|key|..];
      assert line[2..] == short + line[|key|..];
    }
  }

  /** A comment key made of three words and an equals sign. */
  ghost predicate ThreeWords(key: string, a: string, b: string, c: string) {
    && IsToken(a) && IsToken(b) && IsToken(c)
    && key == "# " + (a + " " + b + " " + c + "=")
  }

  ghost predicate WordyKey(key: string) {
    exists a, b, c :: ThreeWords(key, a, b, c)
  }

  /** A disabled command does not start with any key made of three words. */
  lemma {:induction false} NotKey(e: Entry, key: string)
    requires CronExpression(e.schedule) && WordyKey(key)
    ensures !(key <= "# " + CommandLine(e))
  {
    var a, b, c :| ThreeWords(key, a, b, c);
    var line := "# " + CommandLine(e);
    assert line[2..] == e.schedule + (" " + e.wrapperPath);
    NotThreeWords(e.schedule, " " + e.wrapperPath, a, b, c);
    DropTwo(line, key, a + " " + b + " " + c + "=");
  }

  lemma {:induction false} MarkerWords()
    ensures WordyKey(BEGIN_MARKER_PREFIX) && WordyKey(END_MARKER_PREFIX)
  {
    assert ThreeWords(BEGIN_MARKER_PREFIX, "BEGIN", "XCRON", "project");
    assert ThreeWords(END_MARKER_PREFIX, "END", "XCRON", "project");
  }

  lemma {:induction false} QualifiedWords()
    ensures WordyKey(QUALIFIED_KEY)
  {
    assert ThreeWords(QUALIFIED_KEY, "XCRON", "job", "qualified_id");
  }

  lemma {:induction false} NotBeginMarker(e: Entry)
    requires CronExpression(e.schedule)
    ensures !(BEGIN_MARKER_PREFIX <= "# " + CommandLine(e))
  {
    MarkerWords();
    NotKey(e, BEGIN_MARKER_PREFIX);
  }

  lemma {:induction false} NotEndMarker(e: Entry)
    requires CronExpression(e.schedule)
    ensures !(END_MARKER_PREFIX <= "# " + CommandLine(e))
  {
    MarkerWords();
    NotKey(e, END_MARKER_PREFIX);
  }

  lemma {:induction false} NotQualifiedKey(e: Entry)
    requires CronExpression(e.schedule)
    ensures !(QUALIFIED_KEY <= "# " + CommandLine(e))
  {
    QualifiedWords();
    NotKey(e, QUALIFIED_KEY);
  }

  lemma {:induction false} NotMetadata(e: Entry)
    requires CronExpression(e.schedule)
    ensures ParseMeta("# " + CommandLine(e)) == None
  {
    NotQualifiedKey(e);
  }

  lemma {:induction false} DisabledLine(e: Entry)
    requires ValidEntry(e)
    ensures Unmarked("# " + CommandLine(e))
    ensures ParseMeta("# " + CommandLine(e)) == None
    ensures "# " + CommandLine(e) != DISABLED_MARKER
  {
    NotBeginMarker(e);
    NotEndMarker(e);
    NotMetadata(e);
    assert ("# " + CommandLine(e))[2 + |e.schedule|] == ' ';
    assert forall i :: 2 <= i < |DISABLED_MARKER| ==> DISABLED_MARKER[i] != ' ';
  }

  lemma {:induction false} EnabledLine(e: Entry)
    requires ValidEntry(e)
    ensures var line := CommandLine(e);
      Unmarked(line) && ParseMeta(line) == None && line != DISABLED_MARKER
  {
    ExpressionChars(e.schedule);
    assert e.schedule != "";
    assert CommandLine(e)[0] == e.schedule[0] != '#';
  }

  lemma {:induction false} MetaLineUnmarked(m: Meta)
    ensures Unmarked(MetaLine(m))
  {
    assert MetaLine(m)[2] == 'X';
  }

  /** What reading back an entry must give: everything as printed, and the schedule up to runs of blanks. */
  function ReadBack(e: Entry): Inspection {
    Inspection(e.meta.qualifiedId, e.meta.jobId, JoinBlanks(Fields(e.schedule)), e.wrapperPath, e.enabled,
               e.meta.desiredHash, e.meta.definitionHash,
               if e.enabled then CommandLine(e) else "# " + CommandLine(e))
  }

  function ReadBacks(entries: seq<Entry>): (r: seq<Inspection>)
    ensures |r| == |entries|
  {
    if entries == [] then [] else ReadBacks(entries[..|entries| - 1]) + [ReadBack(entries[|entries| - 1])]
  }

  predicate ValidEntries(entries: seq<Entry>) {
    forall i :: 0 <= i < |entries| ==> ValidEntry(entries[i])
  }

  const IDLE := Scan(true, None, false)

  lemma {:induction false} SplitCommand(e: Entry)
    requires ValidEntry(e)
    ensures SplitCronEntry(CommandLine(e)) == Ok((JoinBlanks(Fields(e.schedule)), e.wrapperPath))
  {
    var fields := Fields(e.schedule);
    SplitFieldsThenTail(e.schedule, e.wrapperPath, fields);
    assert (fields + [e.wrapperPath])[..5] == fields;
  }

  lemma {:induction false} PrefixOfPrefix(a: string, b: string, line: string)
    ensures a + b <= line ==> a <= line
  {
    if a + b <= line {
      assert line[..|a|] == (a + b)[..|a|] == a;
    }
  }

  lemma {:induction false} UnmarkedForAll(line: string, projectId: string)
    requires Unmarked(line)
    ensures !(BeginMarker(projectId) <= line) && !(EndMarker(projectId) <= line)
  {
    PrefixOfPrefix(BEGIN_MARKER_PREFIX, projectId, line);
    PrefixOfPrefix(END_MARKER_PREFIX, projectId, line);
  }

  /** One step over a metadata line. */
  lemma {:induction false} InspectMeta(m: Meta, rest: seq<string>, projectId: string)
    requires TokenMeta(m)
    ensures InspectLines([MetaLine(m)] + rest, projectId, IDLE)
      == InspectLines(rest, projectId, Scan(true, Some(m), false))
  {
    MetaLineUnmarked(m);
    UnmarkedForAll(MetaLine(m), projectId);
    ParseMetaLine(m);
    assert ([MetaLine(m)] + rest)[1..] == rest;
  }

  /** One step over a command line. */
  lemma {:induction false} InspectCommand(e: Entry, line: string, disabled: bool, rest: seq<string>, projectId: string)
    requires ValidEntry(e)
    requires line == if disabled then "# " + CommandLine(e) else CommandLine(e)
    ensures InspectLines([line] + rest, projectId, Scan(true, Some(e.meta), disabled))
      == Prepend([ReadBack(e.(enabled := !disabled))], InspectLines(rest, projectId, IDLE))
  {
    if disabled { DisabledLine(e); } else { EnabledLine(e); }
    UnmarkedForAll(line, projectId);
    SplitCommand(e);
    assert ([line] + rest)[1..] == rest;
    assert disabled ==> line[2..] == CommandLine(e);
  }

  /** A line of the block that is no marker: it completes an entry or it is refused. */
  lemma {:induction false} InspectPlain(line: string, rest: seq<string>, projectId: string, m: Meta, pending: bool)
    requires !IsBegin(projectId, line) && !IsEnd(projectId, line) && ParseMeta(line) == None && line != DISABLED_MARKER
    ensures var disabled := pending && "# " <= line;
      var parts := SplitCronEntry(if disabled then line[2..] else line);
      InspectLines([line] + rest, projectId, Scan(true, Some(m), pending)) ==
        if parts.Err? then Err(parts.error)
        else Prepend([InspectionOf(m, disabled, line, parts.value)], InspectLines(rest, projectId, IDLE))
  {
    assert ([line] + rest)[1..] == rest;
  }

  /** One step over the marker that announces a disabled command. */
  lemma {:induction false} InspectDisabledMarker(m: Meta, rest: seq<string>, projectId: string)
    ensures InspectLines([DISABLED_MARKER] + rest, projectId, Scan(true, Some(m), false))
      == InspectLines(rest, projectId, Scan(true, Some(m), true))
  {
    assert DISABLED_MARKER[2] == 'd';
    UnmarkedForAll(DISABLED_MARKER, projectId);
    assert ([DISABLED_MARKER] + rest)[1..] == rest;
  }

  lemma {:induction false} InspectEntry(e: Entry, rest: seq<string>, projectId: string)
    requires ValidEntry(e)
    ensures InspectLines(EntryLines(e) + rest, projectId, IDLE)
      == Prepend([ReadBack(e)], InspectLines(rest, projectId, IDLE))
  {
    assert e.(enabled := e.enabled) == e;
    if e.enabled {
      var line := CommandLine(e);
      assert EntryLines(e) + rest == [MetaLine(e.meta)] + ([line] + rest);
      InspectMeta(e.meta, [line] + rest, projectId);
      InspectCommand(e, line, false, rest, projectId);
    } else {
      var line := "# " + CommandLine(e);
      assert EntryLines(e) + rest == [MetaLine(e.meta)] + ([DISABLED_MARKER] + ([line] + rest));
      InspectMeta(e.meta, [DISABLED_MARKER] + ([line] + rest), projectId);
      InspectDisabledMarker(e.meta, [line] + rest, projectId);
      InspectCommand(e, line, true, rest, projectId);
    }
  }

  lemma {:induction false} InspectBody(entries: seq<Entry>, rest: seq<string>, projectId: string)
    requires ValidEntries(entries)
    ensures InspectLines(BodyLines(entries) + rest, projectId, IDLE)
      == Prepend(ReadBacks(entries), InspectLines(rest, projectId, IDLE))
  {
    if entries == [] {
      assert BodyLines(entries) + rest == rest;
      PrependNothing(InspectLines(rest, projectId, IDLE));
    } else {
      var init, last := entries[..|entries| - 1], entries[|entries| - 1];
      var lines := EntryLines(last) + rest;
      Regroup(BodyLines(init), EntryLines(last), rest);
      InspectBody(init, lines, projectId);
      InspectEntry(last, rest, projectId);
      PrependTwice(ReadBacks(init), [ReadBack(last)], InspectLines(rest, projectId, IDLE));
    }
  }

  /** Lines before the block do not matter unless one of them opens a block of this project. */
  lemma {:induction false} SkipBefore(before: seq<string>, rest: seq<string>, projectId: string)
    requires forall i :: 0 <= i < |before| ==> !IsBegin(projectId, before[i])
    ensures InspectLines(before + rest, projectId, START) == InspectLines(rest, projectId, START)
  {
    if before == [] {
      assert before + rest == rest;
    } else {
      assert (before + rest)[0] == before[0] && (before + rest)[1..] == before[1..] + rest;
      SkipBefore(before[1..], rest, projectId);
    }
  }

  lemma {:induction false} InspectEnd(owner: string, after: seq<string>, projectId: string)
    requires projectId <= owner
    ensures InspectLines([EndMarker(owner)] + after, projectId, IDLE) == Ok([])
  {
    MarkersExtend(projectId, owner);
    assert BeginMarker(projectId)[2] == 'B' && EndMarker(owner)[2] == 'E';
  }

  lemma {:induction false} InspectBegin(owner: string, inner: seq<string>, projectId: string)
    requires projectId <= owner
    ensures InspectLines([BeginLine(owner)] + inner, projectId, START) == InspectLines(inner, projectId, IDLE)
  {
    MarkersExtend(projectId, owner);
    assert ([BeginLine(owner)] + inner)[1..] == inner;
  }

  /** Printer and parser undo each other in any context: the owner may be any id that this id is a prefix of. */
  lemma {:induction false} ReadBackInContext(before: seq<string>, owner: string, entries: seq<Entry>,
          after: seq<string>, projectId: string)
    requires projectId <= owner && ValidEntries(entries)
    requires forall i :: 0 <= i < |before| ==> !IsBegin(projectId, before[i])
    ensures InspectLines(before + BlockLines(owner, entries) + after, projectId, START) == Ok(ReadBacks(entries))
  {
    var end := [EndMarker(owner)] + after;
    var inner := BodyLines(entries) + end;
    BlockInContext(before, owner, entries, after);
    SkipBefore(before, [BeginLine(owner)] + inner, projectId);
    InspectBegin(owner, inner, projectId);
    InspectBody(entries, end, projectId);
    InspectEnd(owner, after, projectId);
    PrependAll<Inspection, CronError>(ReadBacks(entries));
  }

  lemma {:induction false} BlockInContext(before: seq<string>, owner: string, entries: seq<Entry>, after: seq<string>)
    ensures before + BlockLines(owner, entries) + after
      == before + ([BeginLine(owner)] + (BodyLines(entries) + ([EndMarker(owner)] + after)))
  {
  }

  lemma {:induction false} PrependAll<T, E>(items: seq<T>)
    ensures Prepend<T, E>(items, Ok([])) == Ok(items)
  {
    assert items + [] == items;
  }

  lemma {:induction false} MarkersExtend(projectId: string, owner: string)
    requires projectId <= owner
    ensures IsBegin(projectId, BeginLine(owner)) && IsEnd(projectId, EndMarker(owner))
  {
    assert owner == projectId + owner[|projectId|..];
    assert BeginLine(owner) == BeginMarker(projectId) + (owner[|projectId|..] + " backend=cron");
    assert EndMarker(owner) == EndMarker(projectId) + owner[|projectId|..];
  }
}
