/** What splicing a block into a crontab, replacing it and taking it out again do to the text as a whole. */
module CronEdits {
  import opened Contracts
  import opened Text
  import opened CronText
  import opened CronReadBack

  /** Lines that form one block of the project and nothing more. */
  predicate BlockOf(lines: seq<string>, projectId: string) {
    && |lines| >= 2 && OneLineEach(lines)
    && IsBegin(projectId, lines[0]) && IsEnd(projectId, lines[|lines| - 1])
    && (forall k :: 0 < k < |lines| - 1 ==> !IsBegin(projectId, lines[k]) && !IsEnd(projectId, lines[k]))
    && !IsSpace(lines[|lines| - 1][|lines[|lines| - 1]| - 1])
  }

  /** No end marker follows a begin marker, so the scan runs through. */
  ghost predicate NoPair(lines: seq<string>, projectId: string) {
    forall i, k :: 0 <= i < k < |lines| && IsBegin(projectId, lines[i]) ==> !IsEnd(projectId, lines[k])
  }

  /** The text of a block as the printer hands it over. */
  function BlockText(lines: seq<string>): string {
    JoinLines(lines) + "\n"
  }

  // ---- line level

  lemma {:induction false} LastOfBlock(before: seq<string>, block: seq<string>, projectId: string)
    requires BlockOf(block, projectId)
    ensures TrimLines(before + block) == before + block
  {
    var lines := before + block;
    assert lines[|lines| - 1] == block[|block| - 1];
    TrimUnchanged(lines);
  }

  lemma {:induction false} LocatedInContext(before: seq<string>, block: seq<string>, after: seq<string>,
          projectId: string)
    requires NoPair(before, projectId) && BlockOf(block, projectId)
    ensures Located(before + block + after, projectId, |before|, |before| + |block| - 1)
  {
    var lines := before + block + after;
    var s, e := |before|, |before| + |block| - 1;
    assert forall k :: 0 <= k < |before| ==> lines[k] == before[k];
    assert forall k :: s <= k <= e ==> lines[k] == block[k - s];
    BeginIsNotEnd(projectId, projectId, lines[s]);
  }

  /** An edit swaps a block for the replacement and touches nothing around it. */
  lemma {:induction false} EditInContext(before: seq<string>, block: seq<string>, after: seq<string>, projectId: string,
          replacement: seq<string>)
    requires NoPair(before, projectId) && BlockOf(block, projectId)
    ensures EditedLines(before + block + after, projectId, replacement) == before + replacement + after
  {
    var lines := before + block + after;
    LocatedInContext(before, block, after, projectId);
    EditLocated(lines, projectId, replacement, |before|, |before| + |block| - 1);
    assert lines[..|before|] == before;
    assert lines[|before| + |block|..] == after;
  }

  /** Splicing a block in always leaves it in one piece, after lines that hold no earlier pair of markers. */
  lemma {:induction false} EditShape(lines: seq<string>, projectId: string, block: seq<string>)
    returns (before: seq<string>, after: seq<string>)
    requires BlockOf(block, projectId)
    ensures EditedLines(lines, projectId, block) == before + block + after
    ensures NoPair(before, projectId)
    ensures OneLineEach(lines) ==> OneLineEach(before) && OneLineEach(after)
  {
    if HasBlock(lines, projectId) {
      var s, e :| Located(lines, projectId, s, e);
      EditLocated(lines, projectId, block, s, e);
      before, after := lines[..s], lines[e + 1..];
    } else {
      before, after := lines + Separator(lines), [];
      assert EditedLines(lines, projectId, block) == before + block + after;
      NoBlockNoPair(lines, projectId);
    }
  }

  /** If some end marker followed some begin marker, there would be a first one and a last begin before it. */
  lemma {:induction false} NoBlockNoPair(lines: seq<string>, projectId: string)
    requires !HasBlock(lines, projectId)
    ensures NoPair(lines, projectId)
    ensures NoPair(lines + Separator(lines), projectId)
  {
    forall i, k | 0 <= i < k < |lines| && IsBegin(projectId, lines[i]) ensures !IsEnd(projectId, lines[k]) {
      if IsEnd(projectId, lines[k]) {
        PairGivesBlock(lines, projectId, i, k);
      }
    }
  }

  lemma {:induction false} PairGivesBlock(lines: seq<string>, projectId: string, i: nat, k: nat)
    requires i < k < |lines| && IsBegin(projectId, lines[i]) && IsEnd(projectId, lines[k])
    ensures HasBlock(lines, projectId)
    decreases k
  {
    if j, l :| 0 <= j < l < k && IsBegin(projectId, lines[j]) && IsEnd(projectId, lines[l]) {
      PairGivesBlock(lines, projectId, j, l);
    } else {
      LastBegin(lines, projectId, i, k);
    }
  }

  lemma {:induction false} LastBegin(lines: seq<string>, projectId: string, i: nat, k: nat)
    requires i < k < |lines| && IsBegin(projectId, lines[i]) && IsEnd(projectId, lines[k])
    requires forall j, l :: 0 <= j < l < k && IsBegin(projectId, lines[j]) ==> !IsEnd(projectId, lines[l])
    ensures HasBlock(lines, projectId)
    decreases k - i
  {
    if j :| i < j < k && IsBegin(projectId, lines[j]) {
      LastBegin(lines, projectId, j, k);
    } else {
      assert Located(lines, projectId, i, k);
    }
  }

  lemma {:induction false} SettleAround(before: seq<string>, block: seq<string>, after: seq<string>, projectId: string)
    requires BlockOf(block, projectId)
    ensures Settle(before + block + after) == before + block + TrimLines(after)
    ensures TrimLines(before + block + TrimLines(after)) == before + block + TrimLines(after)
  {
    TrimConcat(before + block, after);
    TrimConcat(before + block, TrimLines(after));
    TrimIdempotent(after);
    LastOfBlock(before, block, projectId);
    if TrimLines(after) == [] {
      assert before + block + TrimLines(after) == before + block;
    }
  }

  // ---- text level

  lemma {:induction false} BlockTextStrips(lines: seq<string>)
    requires lines != [] && lines[|lines| - 1] != "" && lines[|lines| - 1][|lines[|lines| - 1]| - 1] != '\n'
    ensures RStripNewlines(BlockText(lines)) == JoinLines(lines)
  {
    var last, joined := lines[|lines| - 1], JoinLines(lines);
    JoinSnoc(lines[..|lines| - 1], last);
    assert lines == lines[..|lines| - 1] + [last];
    assert joined[|joined| - 1] == last[|last| - 1];
    assert BlockText(lines)[..|BlockText(lines)| - 1] == joined;
  }

  /** The printer's text is split into the lines it was joined from. */
  lemma {:induction false} ReplacementOfBlock(block: seq<string>, projectId: string)
    requires BlockOf(block, projectId)
    ensures ReplacementLines(Some(BlockText(block))) == block
  {
    BlockTextStrips(block);
    SplitJoinedOpen(block);
  }

  lemma {:induction false} FinishTrimmed(lines: seq<string>)
    ensures Finish(lines) == JoinLines(TrimLines(lines)) + if lines == [] then "" else "\n"
  {
    RStripJoined(lines);
  }

  lemma {:induction false} ReappliedBlock(before: seq<string>, block: seq<string>, after: seq<string>,
          projectId: string)
    requires OneLineEach(before + block + after) && NoPair(before, projectId) && BlockOf(block, projectId)
    ensures var once := before + block + after;
      Finish(EditedLines(SplitLines(Finish(once)), projectId, block)) == Finish(once)
  {
    var once, settled := before + block + after, before + block + TrimLines(after);
    FinishReread(once);
    SettleAround(before, block, after, projectId);
    EditInContext(before, block, TrimLines(after), projectId, block);
    FinishTrimmed(once);
    FinishTrimmed(settled);
  }

  /** Applying the same block twice equals applying it once, for every crontab text. */
  lemma {:induction false} ApplyIdempotent(content: string, projectId: string, block: seq<string>)
    requires BlockOf(block, projectId)
    ensures EditedText(EditedText(content, projectId, Some(BlockText(block))), projectId, Some(BlockText(block)))
      == EditedText(content, projectId, Some(BlockText(block)))
  {
    ReplacementOfBlock(block, projectId);
    var before, after := EditShape(SplitLines(content), projectId, block);
    ReappliedBlock(before, block, after, projectId);
  }

  /** The lines of a crontab that had no block of the project, after its block went in. */
  lemma {:induction false} AddedBlock(content: string, projectId: string, block: seq<string>)
    requires BlockOf(block, projectId)
    requires !HasBlock(SplitLines(content), projectId)
    ensures var lines := SplitLines(content);
      SplitLines(EditedText(content, projectId, Some(BlockText(block)))) == lines + Separator(lines) + block
  {
    var lines := SplitLines(content);
    var before := lines + Separator(lines);
    ReplacementOfBlock(block, projectId);
    assert before + block + [] == before + block;
    FinishReread(before + block);
    SettleAround(before, block, [], projectId);
    assert TrimLines([]) == [];
  }

  lemma {:induction false} RemovedBlock(lines: seq<string>, projectId: string, block: seq<string>)
    requires BlockOf(block, projectId) && !HasBlock(lines, projectId)
    ensures EditedLines(lines + Separator(lines) + block, projectId, []) == lines + Separator(lines)
  {
    var before := lines + Separator(lines);
    NoBlockNoPair(lines, projectId);
    EditInContext(before, block, [], projectId, []);
    assert before + block + [] == before + block && before + [] + [] == before;
  }

  lemma {:induction false} FinishSeparated(lines: seq<string>)
    ensures Finish(lines + Separator(lines)) == Finish(lines)
  {
    FinishTrimmed(lines + Separator(lines));
    FinishTrimmed(lines);
    if Separator(lines) == [] {
      assert lines + Separator(lines) == lines;
    } else {
      TrimConcat(lines, [""]);
      assert TrimLines([""]) == [] by { assert [""][..0] == []; }
    }
  }

  /** Where the project had no block, taking out what was put in equals never having put it in. */
  lemma {:induction false} PruneAfterApply(content: string, projectId: string, block: seq<string>)
    requires BlockOf(block, projectId)
    requires !HasBlock(SplitLines(content), projectId)
    ensures EditedText(EditedText(content, projectId, Some(BlockText(block))), projectId, None)
      == EditedText(content, projectId, None)
  {
    AddedBlock(content, projectId, block);
    RemovedBlock(SplitLines(content), projectId, block);
    FinishSeparated(SplitLines(content));
  }

  predicate BlankLines(lines: seq<string>) {
    forall i :: 0 <= i < |lines| ==> RStrip(lines[i]) == ""
  }

  lemma {:induction false} TrimmedAway(lines: seq<string>)
    ensures TrimLines(lines) == [] <==> BlankLines(lines)
  {
    if lines != [] {
      TrimmedAway(lines[..|lines| - 1]);
    }
  }

  lemma {:induction false} FinishTrimmedTail(before: seq<string>, after: seq<string>)
    ensures Finish(before + TrimLines(after)) == Finish(before + after)
      <==> !(before == [] && after != [] && BlankLines(after))
  {
    TrimmedAway(after);
    TrimConcat(before, after);
    TrimConcat(before, TrimLines(after));
    TrimIdempotent(after);
    FinishTrimmed(before + after);
    FinishTrimmed(before + TrimLines(after));
    assert before + [] == before && [] + after == after;
  }

  /** The lines of a crontab that had a block of the project, after the block was replaced. */
  lemma {:induction false} ReplacedBlock(content: string, projectId: string, block: seq<string>, before: seq<string>,
          after: seq<string>)
    requires BlockOf(block, projectId)
    requires EditedLines(SplitLines(content), projectId, block) == before + block + after
    requires OneLineEach(before) && OneLineEach(after)
    ensures SplitLines(EditedText(content, projectId, Some(BlockText(block)))) == before + block + TrimLines(after)
  {
    ReplacementOfBlock(block, projectId);
    FinishReread(before + block + after);
    SettleAround(before, block, after, projectId);
  }

  /** Where the project has a block, replacing it and then taking it out equals taking it out, unless the block starts
      the text and only blank lines follow it: those go with the replacement, and the prune then writes an empty file.
      */
  lemma {:induction false} PruneAfterReplaceExactly(content: string, projectId: string, block: seq<string>, s: int,
          e: int)
    requires BlockOf(block, projectId)
    requires Located(SplitLines(content), projectId, s, e)
    ensures EditedText(EditedText(content, projectId, Some(BlockText(block))), projectId, None)
      == EditedText(content, projectId, None)
      <==> !(s == 0 && e + 1 < |SplitLines(content)| && BlankLines(SplitLines(content)[e + 1..]))
  {
    var lines := SplitLines(content);
    var before, after := lines[..s], lines[e + 1..];
    EditLocated(lines, projectId, block, s, e);
    EditLocated(lines, projectId, [], s, e);
    ReplacedBlock(content, projectId, block, before, after);
    EditInContext(before, block, TrimLines(after), projectId, []);
    assert before + [] == before;
    FinishTrimmedTail(before, after);
  }

  // ---- when the round trip gives back the very same text

  predicate OnlyNewlines(s: string) {
    forall i :: 0 <= i < |s| && IsBreak(s[i]) ==> s[i] == '\n'
  }

  /** Empty, or stripped text plus one newline, with no other kind of line break. */
  predicate Canonical(content: string) {
    content == "" || (content == RStrip(content) + "\n" && OnlyNewlines(content))
  }

  lemma {:induction false} JoinedOnlyNewlines(lines: seq<string>)
    requires OneLineEach(lines)
    ensures OnlyNewlines(JoinLines(lines))
  {
    if |lines| > 1 {
      JoinedOnlyNewlines(lines[1..]);
      var rest := JoinLines(lines[1..]);
      var s := lines[0] + "\n" + rest;
      assert forall i :: 0 <= i < |lines[0]| ==> s[i] == lines[0][i];
      assert forall i :: |lines[0]| < i < |s| ==> s[i] == rest[i - |lines[0]| - 1];
    }
  }

  /** Text with only newline breaks and a final newline is the join of its lines. */
  lemma {:induction false} JoinOfSplit(s: string)
    requires s != "" && s[|s| - 1] == '\n' && OnlyNewlines(s)
    ensures SplitLines(s) != [] && JoinLines(SplitLines(s)) + "\n" == s
    decreases |s|
  {
    var n := LineLength(s);
    assert IsBreak(s[|s| - 1]);
    assert n < |s| && s[n] == '\n';
    var first, rest := s[..n], s[n + 1..];
    assert s == first + "\n" + rest;
    SplitFirstLine(first, rest);
    if rest != "" {
      assert rest[|rest| - 1] == s[|s| - 1];
      JoinOfSplit(rest);
      JoinCons(first, SplitLines(rest));
      Regroup(first + "\n", JoinLines(SplitLines(rest)), "\n");
    }
  }

  lemma {:induction false} NewlineStrips()
    ensures RStrip("\n") == ""
  {
    assert "\n"[..0] == "";
  }

  lemma {:induction false} FinishOfCanonical(content: string)
    requires Canonical(content) && content != ""
    ensures Finish(SplitLines(content)) == content
  {
    assert content[|content| - 1] == '\n';
    JoinOfSplit(content);
    RStripConcat(JoinLines(SplitLines(content)), "\n");
    NewlineStrips();
  }

  lemma {:induction false} FinishIsCanonical(lines: seq<string>)
    requires OneLineEach(lines) && lines != []
    ensures Canonical(Finish(lines))
  {
    var joined := JoinLines(TrimLines(lines));
    FinishTrimmed(lines);
    RStripJoined(lines);
    RStripIdempotent(JoinLines(lines));
    RStripConcat(joined, "\n");
    NewlineStrips();
    JoinedOnlyNewlines(TrimLines(lines));
  }

  /** Pruning a crontab without a block of the project changes nothing exactly on canonical text. */
  lemma {:induction false} FinishFixedExactly(content: string)
    ensures Finish(SplitLines(content)) == content <==> Canonical(content)
  {
    if content != "" {
      if Canonical(content) {
        FinishOfCanonical(content);
      }
      FinishIsCanonical(SplitLines(content));
    }
  }

  /** Apply then prune is the identity, character for character, exactly on canonical text. */
  lemma {:induction false} ApplyThenPruneExactly(content: string, projectId: string, block: seq<string>)
    requires BlockOf(block, projectId)
    requires !HasBlock(SplitLines(content), projectId)
    ensures EditedText(EditedText(content, projectId, Some(BlockText(block))), projectId, None) == content
      <==> Canonical(content)
  {
    PruneAfterApply(content, projectId, block);
    FinishFixedExactly(content);
  }

  // ---- where a new block goes

  lemma {:induction false} JoinConcat(a: seq<string>, b: seq<string>)
    requires a != [] && b != []
    ensures JoinLines(a + b) == JoinLines(a) + ("\n" + JoinLines(b))
  {
    var rest := a[1..];
    assert a == [a[0]] + rest;
    assert a + b == [a[0]] + (rest + b);
    JoinCons(a[0], rest + b);
    if rest == [] {
      assert rest + b == b;
    } else {
      JoinConcat(rest, b);
      Regroup(a[0] + "\n", JoinLines(rest), "\n" + JoinLines(b));
    }
  }

  lemma {:induction false} JoinedWithBlock(before: seq<string>, block: seq<string>, projectId: string)
    requires BlockOf(block, projectId)
    ensures Finish(before + block) == (if before == [] then "" else JoinLines(before) + "\n") + BlockText(block)
  {
    FinishTrimmed(before + block);
    LastOfBlock(before, block, projectId);
    if before == [] {
      assert before + block == block;
    } else {
      JoinConcat(before, block);
      Regroup(JoinLines(before), "\n", JoinLines(block));
      Regroup(JoinLines(before) + "\n", JoinLines(block), "\n");
    }
  }

  /** The text in front of a new block: what was there, and an empty line unless it ends in one or is empty. */
  function InFront(content: string): string {
    var lines := SplitLines(content);
    if lines == [] then ""
    else if lines[|lines| - 1] == "" then JoinLines(lines) + "\n"
    else JoinLines(lines) + "\n\n"
  }

  lemma {:induction false} InFrontJoined(content: string)
    ensures var before := SplitLines(content) + Separator(SplitLines(content));
      InFront(content) == if before == [] then "" else JoinLines(before) + "\n"
  {
    var lines := SplitLines(content);
    if Separator(lines) == [] {
      assert lines + Separator(lines) == lines;
    } else {
      JoinSnoc(lines, "");
      assert JoinLines(lines) + "\n" + "" + "\n" == JoinLines(lines) + "\n\n";
    }
  }

  lemma {:induction false} LastJoined(lines: seq<string>)
    requires lines != []
    ensures var joined := JoinLines(lines);
      if lines[|lines| - 1] != "" then joined != ""
      else if |lines| == 1 then joined == ""
      else joined != "" && joined[|joined| - 1] == '\n'
  {
    var init, last := lines[..|lines| - 1], lines[|lines| - 1];
    JoinSnoc(init, last);
    assert lines == init + [last];
  }

  lemma {:induction false} CanonicalInFront(content: string)
    requires Canonical(content) && content != ""
    ensures InFront(content) == if content == "\n" then content else content + "\n"
  {
    var joined := JoinLines(SplitLines(content));
    JoinOfSplit(content);
    LastJoined(SplitLines(content));
    assert joined == content[..|content| - 1] == RStrip(content);
    assert joined + "\n\n" == joined + "\n" + "\n";
  }

  /** A first apply puts the block at the end, behind an empty line, and leaves the text before it alone but for its
      kinds of line breaks; canonical text is left alone altogether. */
  lemma {:induction false} FirstApply(content: string, projectId: string, block: seq<string>)
    requires BlockOf(block, projectId) && !HasBlock(SplitLines(content), projectId)
    ensures EditedText(content, projectId, Some(BlockText(block))) == InFront(content) + BlockText(block)
    ensures Canonical(content) ==> InFront(content) == if content in {"", "\n"} then content else content + "\n"
  {
    ReplacementOfBlock(block, projectId);
    JoinedWithBlock(SplitLines(content) + Separator(SplitLines(content)), block, projectId);
    InFrontJoined(content);
    if Canonical(content) && content != "" {
      CanonicalInFront(content);
    }
  }

  // ---- printed blocks

  lemma {:induction false} JoinBlanksOneLine(s: string, t: string)
    requires OneLine(s) && OneLine(t)
    ensures OneLine(s + t)
  {
  }

  lemma {:induction false} TokenOneLine(s: string)
    requires IsToken(s)
    ensures OneLine(s)
  {
  }

  lemma {:induction false} KeysOneLine()
    ensures OneLine(QUALIFIED_KEY) && OneLine(JOB_KEY) && OneLine(DESIRED_KEY) && OneLine(DEFINITION_KEY)
  {
  }

  lemma {:induction false} MetaOneLine(m: Meta)
    requires TokenMeta(m)
    ensures OneLine(MetaLine(m))
  {
    KeysOneLine();
    TokenOneLine(m.qualifiedId);
    TokenOneLine(m.jobId);
    TokenOneLine(m.desiredHash);
    TokenOneLine(m.definitionHash);
    var s6 := m.definitionHash + "";
    var s5 := DEFINITION_KEY + s6;
    var s4 := m.desiredHash + s5;
    var s3 := DESIRED_KEY + s4;
    var s2 := m.jobId + s3;
    var s1 := JOB_KEY + s2;
    var s0 := m.qualifiedId + s1;
    JoinBlanksOneLine(m.definitionHash, "");
    JoinBlanksOneLine(DEFINITION_KEY, s6);
    JoinBlanksOneLine(m.desiredHash, s5);
    JoinBlanksOneLine(DESIRED_KEY, s4);
    JoinBlanksOneLine(m.jobId, s3);
    JoinBlanksOneLine(JOB_KEY, s2);
    JoinBlanksOneLine(m.qualifiedId, s1);
    JoinBlanksOneLine(QUALIFIED_KEY, s0);
  }

  /** Lines between the markers: one line each, and no marker of any project. */
  predicate PlainLine(line: string) {
    OneLine(line) && Unmarked(line)
  }

  lemma {:induction false} EntryPlain(e: Entry)
    requires ValidEntry(e)
    ensures forall i :: 0 <= i < |EntryLines(e)| ==> PlainLine(EntryLines(e)[i])
  {
    MetaOneLine(e.meta);
    MetaLineUnmarked(e.meta);
    JoinBlanksOneLine(" ", e.wrapperPath);
    JoinBlanksOneLine(e.schedule, " " + e.wrapperPath);
    JoinBlanksOneLine("# ", CommandLine(e));
    if e.enabled {
      EnabledLine(e);
    } else {
      DisabledLine(e);
      assert DISABLED_MARKER[2] == 'd';
    }
  }

  lemma {:induction false} BodyPlain(entries: seq<Entry>)
    requires ValidEntries(entries)
    ensures forall i :: 0 <= i < |BodyLines(entries)| ==> PlainLine(BodyLines(entries)[i])
  {
    if entries != [] {
      BodyPlain(entries[..|entries| - 1]);
      EntryPlain(entries[|entries| - 1]);
    }
  }

  lemma {:induction false} MarkerLines(owner: string)
    requires IsToken(owner)
    ensures OneLine(BeginLine(owner)) && OneLine(EndMarker(owner))
    ensures !IsSpace(EndMarker(owner)[|EndMarker(owner)| - 1])
    ensures EndMarker(owner) != ""
  {
    TokenOneLine(owner);
    assert OneLine(BEGIN_MARKER_PREFIX) && OneLine(END_MARKER_PREFIX) && OneLine(" backend=cron");
    JoinBlanksOneLine(BEGIN_MARKER_PREFIX, owner);
    JoinBlanksOneLine(BeginMarker(owner), " backend=cron");
    JoinBlanksOneLine(END_MARKER_PREFIX, owner);
    assert EndMarker(owner)[|EndMarker(owner)| - 1] == owner[|owner| - 1];
  }

  /** A block of plain lines is a block of its owner and of every prefix of the owner. */
  lemma {:induction false} PlainBlock(owner: string, body: seq<string>, projectId: string)
    requires IsToken(owner) && projectId <= owner
    requires forall i :: 0 <= i < |body| ==> PlainLine(body[i])
    ensures BlockOf([BeginLine(owner)] + body + [EndMarker(owner)], projectId)
  {
    var lines := [BeginLine(owner)] + body + [EndMarker(owner)];
    MarkerLines(owner);
    MarkersExtend(projectId, owner);
    forall k | 0 < k < |lines| - 1
      ensures OneLine(lines[k]) && !IsBegin(projectId, lines[k]) && !IsEnd(projectId, lines[k])
    {
      assert lines[k] == body[k - 1];
      UnmarkedForAll(body[k - 1], projectId);
    }
  }
}
