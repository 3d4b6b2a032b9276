/** The managed block of one project inside a shared crontab: printing it, splicing it in, reading it back. */
module CronText {
  import opened Contracts
  import opened Text
  import opened CronSchedule

  const BEGIN_MARKER_PREFIX := "# BEGIN XCRON project="
  const END_MARKER_PREFIX := "# END XCRON project="
  const DISABLED_MARKER := "# disabled"
  const QUALIFIED_KEY := "# XCRON job qualified_id="
  const JOB_KEY := " job_id="
  const DESIRED_KEY := " desired_hash="
  const DEFINITION_KEY := " definition_hash="

  // ---- lines of a block

  /** The four ids on a job's metadata line. */
  datatype Meta = Meta(qualifiedId: string, jobId: string, desiredHash: string, definitionHash: string)

  /** One job as it is printed into the block. */
  datatype Entry = Entry(meta: Meta, schedule: string, wrapperPath: string, enabled: bool)

  predicate TokenMeta(m: Meta) {
    IsToken(m.qualifiedId) && IsToken(m.jobId) && IsToken(m.desiredHash) && IsToken(m.definitionHash)
  }

  /** A path that can end a crontab line: not empty, no leading blank, no line break. */
  predicate PathText(path: string) {
    path != "" && !IsSpace(path[0]) && OneLine(path)
  }

  predicate ValidEntry(e: Entry) {
    TokenMeta(e.meta) && CronExpression(e.schedule) && OneLine(e.schedule) && PathText(e.wrapperPath)
  }

  function MetaLine(m: Meta): string {
    QUALIFIED_KEY + (m.qualifiedId +
    (JOB_KEY + (m.jobId + (DESIRED_KEY + (m.desiredHash + (DEFINITION_KEY + (m.definitionHash + "")))))))
  }

  function CommandLine(e: Entry): string {
    e.schedule + (" " + e.wrapperPath)
  }

  function BeginMarker(projectId: string): string { BEGIN_MARKER_PREFIX + projectId }
  function EndMarker(projectId: string): string { END_MARKER_PREFIX + projectId }
  function BeginLine(projectId: string): string { BeginMarker(projectId) + " backend=cron" }

  function EntryLines(e: Entry): seq<string> {
    [MetaLine(e.meta)] + if e.enabled then [CommandLine(e)] else [DISABLED_MARKER, "# " + CommandLine(e)]
  }

  function BodyLines(entries: seq<Entry>): seq<string> {
    if entries == [] then [] else BodyLines(entries[..|entries| - 1]) + EntryLines(entries[|entries| - 1])
  }

  function BlockLines(projectId: string, entries: seq<Entry>): seq<string> {
    [BeginLine(projectId)] + BodyLines(entries) + [EndMarker(projectId)]
  }

  // ---- reading a block back

  /** One literal key and the nonempty run of non-blanks after it. */
  function TakeField(s: string, key: string): Option<(string, string)> {
    if key <= s then
      var w := Word(s[|key|..]);
      if w == "" then None else Some((w, s[|key| + |w|..]))
    else None
  }

  /** The regular expression for metadata lines, matched against a whole line. */
  function ParseMeta(line: string): Option<Meta> {
    match TakeField(line, QUALIFIED_KEY)
    case None => None
    case Some(a) =>
      match TakeField(a.1, JOB_KEY)
      case None => None
      case Some(b) =>
        match TakeField(b.1, DESIRED_KEY)
        case None => None
        case Some(c) =>
          match TakeField(c.1, DEFINITION_KEY)
          case None => None
          case Some(d) => if d.1 == "" then Some(Meta(a.0, b.0, c.0, d.0)) else None
  }

  datatype Inspection = Inspection(
    qualifiedId: string,
    jobId: string,
    schedule: string,
    wrapperPath: string,
    enabled: bool,
    desiredHash: string,
    definitionHash: string,
    rawEntry: string)

  datatype CronError = InvalidManagedEntry(entry: string)

  /** `split_cron_entry`: five schedule fields, then the rest of the line. */
  function SplitCronEntry(entry: string): Result<(string, string), CronError> {
    var parts := SplitFields(entry, 5);
    if |parts| != 6 then Err(InvalidManagedEntry(entry)) else Ok((JoinBlanks(parts[..5]), parts[5]))
  }

  /** The variables of the line scan. */
  datatype Scan = Scan(inside: bool, meta: Option<Meta>, pendingDisabled: bool)

  const START := Scan(false, None, false)

  function InspectionOf(m: Meta, disabled: bool, line: string, parts: (string, string)): Inspection {
    Inspection(m.qualifiedId, m.jobId, parts.0, parts.1, !disabled, m.desiredHash, m.definitionHash, line)
  }

  function Prepend<T, E>(first: seq<T>, rest: Result<seq<T>, E>): Result<seq<T>, E> {
    match rest
    case Ok(items) => Ok(first + items)
    case Err(e) => Err(e)
  }

  function InspectLines(lines: seq<string>, projectId: string, scan: Scan): Result<seq<Inspection>, CronError>
    decreases |lines|
  {
    if lines == [] then Ok([])
    else
      var line, rest := lines[0], lines[1..];
      if BeginMarker(projectId) <= line then InspectLines(rest, projectId, Scan(true, None, false))
      else if scan.inside && EndMarker(projectId) <= line then Ok([])
      else if !scan.inside then InspectLines(rest, projectId, scan)
      else if ParseMeta(line).Some? then InspectLines(rest, projectId, Scan(true, ParseMeta(line), false))
      else if line == DISABLED_MARKER then InspectLines(rest, projectId, scan.(pendingDisabled := true))
      else if scan.meta.None? then InspectLines(rest, projectId, scan)
      else
        var disabled := scan.pendingDisabled && "# " <= line;
        match SplitCronEntry(if disabled then line[2..] else line)
        case Err(e) => Err(e)
        case Ok(parts) =>
          Prepend([InspectionOf(scan.meta.value, disabled, line, parts)],
                  InspectLines(rest, projectId, Scan(true, None, false)))
  }

  lemma {:induction false} PrependTwice<T, E>(a: seq<T>, b: seq<T>, rest: Result<seq<T>, E>)
    ensures Prepend(a, Prepend(b, rest)) == Prepend(a + b, rest)
  {
    if rest.Ok? {
      Regroup(a, b, rest.value);
    }
  }

  lemma {:induction false} PrependNothing<T, E>(rest: Result<seq<T>, E>)
    ensures Prepend([], rest) == rest
  {
    if rest.Ok? {
      assert [] + rest.value == rest.value;
    }
  }

  /** `inspect_cron_project` on the crontab's text. */
  method InspectCronProject(content: string, projectId: string) returns (r: Result<seq<Inspection>, CronError>)
    ensures r == InspectLines(SplitLines(content), projectId, START)
  {
    var lines := SplitLines(content);
    var scan := START;
    var inspections: seq<Inspection> := [];
    ghost var whole := InspectLines(lines, projectId, START);
    assert lines[0..] == lines;
    PrependNothing(whole);
    for i := 0 to |lines|
      invariant whole == Prepend(inspections, InspectLines(lines[i..], projectId, scan))
    {
      var line := lines[i];
      assert lines[i..][0] == line && lines[i..][1..] == lines[i + 1..];
      if BeginMarker(projectId) <= line {
        scan := Scan(true, None, false);
        continue;
      }
      if scan.inside && EndMarker(projectId) <= line {
        assert inspections + [] == inspections;
        return Ok(inspections);
      }
      if !scan.inside {
        continue;
      }
      var parsed := ParseMeta(line);
      if parsed.Some? {
        scan := Scan(true, parsed, false);
        continue;
      }
      if line == DISABLED_MARKER {
        scan := scan.(pendingDisabled := true);
        continue;
      }
      if scan.meta.None? {
        continue;
      }
      var disabled := scan.pendingDisabled && "# " <= line;
      var parts := SplitCronEntry(if disabled then line[2..] else line);
      if parts.Err? {
        return Err(parts.error);
      }
      var item := InspectionOf(scan.meta.value, disabled, line, parts.value);
      scan := Scan(true, None, false);
      PrependTwice(inspections, [item], InspectLines(lines[i + 1..], projectId, scan));
      inspections := inspections + [item];
    }
    assert inspections + [] == inspections;
    return Ok(inspections);
  }

  // ---- splicing

  predicate IsBegin(projectId: string, line: string) { BeginMarker(projectId) <= line }
  predicate IsEnd(projectId: string, line: string) { EndMarker(projectId) <= line }

  /** The lines that an edit replaces: the first end marker that follows some begin marker,
      and the last begin marker before it. */
  ghost predicate Located(lines: seq<string>, projectId: string, s: int, e: int) {
    && 0 <= s < e < |lines|
    && IsBegin(projectId, lines[s]) && IsEnd(projectId, lines[e])
    && (forall k :: s < k < e ==> !IsBegin(projectId, lines[k]))
    && (forall i, k :: 0 <= i < k < e && IsBegin(projectId, lines[i]) ==> !IsEnd(projectId, lines[k]))
  }

  ghost predicate HasBlock(lines: seq<string>, projectId: string) {
    exists s, e :: Located(lines, projectId, s, e)
  }

  function Separator(lines: seq<string>): seq<string> {
    if lines != [] && lines[|lines| - 1] != "" then [""] else []
  }

  /** The lines after an edit, before trailing white space goes. */
  ghost function EditedLines(lines: seq<string>, projectId: string, replacement: seq<string>): seq<string> {
    if HasBlock(lines, projectId) then
      var s, e :| Located(lines, projectId, s, e);
      lines[..s] + replacement + lines[e + 1..]
    else if replacement == [] then lines
    else lines + Separator(lines) + replacement
  }

  /** `"\n".join(lines).rstrip()` and a final newline unless there are no lines. */
  function Finish(lines: seq<string>): string {
    RStrip(JoinLines(lines)) + if lines == [] then "" else "\n"
  }

  function ReplacementLines(replacement: Option<string>): seq<string> {
    match replacement
    case None => []
    case Some(text) => SplitLines(RStripNewlines(text))
  }

  ghost function EditedText(content: string, projectId: string, replacement: Option<string>): string {
    Finish(EditedLines(SplitLines(content), projectId, ReplacementLines(replacement)))
  }

  lemma {:induction false} BeginIsNotEnd(p: string, q: string, line: string)
    requires IsBegin(p, line)
    ensures !IsEnd(q, line)
  {
    assert BeginMarker(p)[2] == 'B' && EndMarker(q)[2] == 'E';
  }

  lemma {:induction false} LocatedUnique(lines: seq<string>, projectId: string, s: int, e: int, s': int, e': int)
    requires Located(lines, projectId, s, e) && Located(lines, projectId, s', e')
    ensures s == s' && e == e'
  {
  }

  lemma {:induction false} EditLocated(lines: seq<string>, projectId: string, replacement: seq<string>, s: int, e: int)
    requires Located(lines, projectId, s, e)
    ensures EditedLines(lines, projectId, replacement) == lines[..s] + replacement + lines[e + 1..]
  {
    var s', e' :|
      && Located(lines, projectId, s', e')
      && EditedLines(lines, projectId, replacement) == lines[..s'] + replacement + lines[e' + 1..];
    LocatedUnique(lines, projectId, s, e, s', e');
  }

  /** The scan of `replace_project_block`: -1 stands for an index that was never set. */
  method FindBlock(lines: seq<string>, projectId: string) returns (start: int, end: int)
    ensures start == -1 || end == -1 ==> !HasBlock(lines, projectId)
    ensures start != -1 && end != -1 ==> Located(lines, projectId, start, end)
  {
    start, end := -1, -1;
    for index := 0 to |lines|
      invariant -1 <= start < index && end == -1
      invariant start == -1 ==> forall k :: 0 <= k < index ==> !IsBegin(projectId, lines[k])
      invariant start != -1 ==>
        IsBegin(projectId, lines[start]) && forall k :: start < k < index ==> !IsBegin(projectId, lines[k])
      invariant forall i, k :: 0 <= i < k < index && IsBegin(projectId, lines[i]) ==> !IsEnd(projectId, lines[k])
    {
      if IsBegin(projectId, lines[index]) {
        BeginIsNotEnd(projectId, projectId, lines[index]);
        start := index;
      }
      if start != -1 && IsEnd(projectId, lines[index]) {
        end := index;
        return;
      }
    }
    forall s, e ensures !Located(lines, projectId, s, e) {
    }
  }

  /** `replace_project_block`. */
  method ReplaceProjectBlock(content: string, projectId: string, replacement: Option<string>) returns (r: string)
    ensures r == EditedText(content, projectId, replacement)
  {
    var lines := SplitLines(content);
    var start, end := FindBlock(lines, projectId);
    var replacementLines := ReplacementLines(replacement);
    var newLines;
    if start == -1 || end == -1 {
      newLines := lines;
      if replacementLines != [] {
        if newLines != [] && newLines[|newLines| - 1] != "" {
          newLines := newLines + [""];
        }
        newLines := newLines + replacementLines;
      }
      assert newLines == EditedLines(lines, projectId, replacementLines);
      return RStrip(JoinLines(newLines)) + if newLines != [] || replacementLines != [] then "\n" else "";
    }
    EditLocated(lines, projectId, replacementLines, start, end);
    newLines := lines[..start] + replacementLines + lines[end + 1..];
    return RStrip(JoinLines(newLines)) + if newLines != [] then "\n" else "";
  }

  /** The lines that a finished text is read back as. */
  function Settle(lines: seq<string>): (r: seq<string>) {
    if lines == [] then [] else if TrimLines(lines) == [] then [""] else TrimLines(lines)
  }

  lemma {:induction false} FinishReread(lines: seq<string>)
    requires OneLineEach(lines)
    ensures SplitLines(Finish(lines)) == Settle(lines)
  {
    RStripJoined(lines);
    if lines != [] {
      if TrimLines(lines) == [] {
        assert Finish(lines) == JoinLines([""]) + "\n";
        SplitJoined([""]);
      } else {
        SplitJoined(TrimLines(lines));
      }
    }
  }
}
