/** A shared crontab as a list of unmanaged lines and project blocks, and what whole runs of edits do to it.
    The text edits of `CronText` refine the edits on this structure. */
module CronDocument {
  import opened Contracts
  import opened Text
  import opened CronText
  import opened CronReadBack
  import opened CronEdits

  datatype Segment = Free(line: string) | Block(owner: string, body: seq<string>)

  predicate ValidBody(body: seq<string>) {
    forall i :: 0 <= i < |body| ==> PlainLine(body[i])
  }

  predicate ValidSegment(s: Segment) {
    match s
    case Free(line) => PlainLine(line)
    case Block(owner, body) => IsToken(owner) && ValidBody(body)
  }

  predicate ValidDoc(doc: seq<Segment>) {
    forall i :: 0 <= i < |doc| ==> ValidSegment(doc[i])
  }

  function SegmentLines(s: Segment): seq<string> {
    match s
    case Free(line) => [line]
    case Block(owner, body) => [BeginLine(owner)] + body + [EndMarker(owner)]
  }

  function Render(doc: seq<Segment>): seq<string> {
    if doc == [] then [] else Render(doc[..|doc| - 1]) + SegmentLines(doc[|doc| - 1])
  }

  /** A block that the markers of this project select: its owner's id starts with the project id. */
  predicate Matches(s: Segment, projectId: string) {
    s.Block? && projectId <= s.owner
  }

  function FirstMatch(doc: seq<Segment>, projectId: string): (k: nat)
    ensures k <= |doc|
    ensures k < |doc| ==> Matches(doc[k], projectId)
    ensures forall i :: 0 <= i < k ==> !Matches(doc[i], projectId)
  {
    if doc == [] || Matches(doc[0], projectId) then 0 else 1 + FirstMatch(doc[1..], projectId)
  }

  function TrimDoc(doc: seq<Segment>): seq<Segment> {
    if doc == [] then []
    else
      match doc[|doc| - 1]
      case Block(_, _) => doc
      case Free(line) =>
        if RStrip(line) == "" then TrimDoc(doc[..|doc| - 1]) else doc[..|doc| - 1] + [Free(RStrip(line))]
  }

  function SettleDoc(doc: seq<Segment>): seq<Segment> {
    if doc == [] then [] else if TrimDoc(doc) == [] then [Free("")] else TrimDoc(doc)
  }

  function DocSeparator(doc: seq<Segment>): seq<Segment> {
    if doc != [] && doc[|doc| - 1] != Free("") then [Free("")] else []
  }

  function NewSegments(projectId: string, body: Option<seq<string>>): seq<Segment> {
    match body
    case None => []
    case Some(lines) => [Block(projectId, lines)]
  }

  /** The edit before trailing blanks go: the first matching block is swapped, or a new one is appended. */
  function SwapDoc(doc: seq<Segment>, projectId: string, body: Option<seq<string>>): seq<Segment> {
    var k := FirstMatch(doc, projectId);
    if k < |doc| then doc[..k] + NewSegments(projectId, body) + doc[k + 1..]
    else if body.None? then doc
    else doc + DocSeparator(doc) + NewSegments(projectId, body)
  }

  function EditDoc(doc: seq<Segment>, projectId: string, body: Option<seq<string>>): seq<Segment> {
    SettleDoc(SwapDoc(doc, projectId, body))
  }

  // ---- the text edit refines the document edit

  lemma {:induction false} RenderConcat(a: seq<Segment>, b: seq<Segment>)
    ensures Render(a + b) == Render(a) + Render(b)
  {
    if b == [] {
      assert a + b == a;
    } else {
      assert (a + b)[..|a + b| - 1] == a + b[..|b| - 1];
      RenderConcat(a, b[..|b| - 1]);
      Regroup(Render(a), Render(b[..|b| - 1]), SegmentLines(b[|b| - 1]));
    }
  }

  lemma {:induction false} RenderOne(s: Segment)
    ensures Render([s]) == SegmentLines(s)
  {
    assert [s][..0] == [];
    assert Render([]) + SegmentLines(s) == SegmentLines(s);
  }

  lemma {:induction false} RenderAround(doc: seq<Segment>, k: nat)
    requires k < |doc|
    ensures Render(doc) == Render(doc[..k]) + SegmentLines(doc[k]) + Render(doc[k + 1..])
  {
    assert doc == doc[..k] + [doc[k]] + doc[k + 1..];
    RenderConcat(doc[..k] + [doc[k]], doc[k + 1..]);
    RenderConcat(doc[..k], [doc[k]]);
    RenderOne(doc[k]);
  }

  /** A token is a prefix of a begin line's id exactly when it is a prefix of the owner. */
  lemma {:induction false} BeginLineOf(projectId: string, owner: string)
    requires IsToken(projectId)
    ensures IsBegin(projectId, BeginLine(owner)) <==> projectId <= owner
  {
    var rest := owner + " backend=cron";
    assert BeginLine(owner) == BEGIN_MARKER_PREFIX + rest;
    assert rest[|owner|] == ' ';
    if IsBegin(projectId, BeginLine(owner)) {
      assert projectId == BeginMarker(projectId)[|BEGIN_MARKER_PREFIX|..] == rest[..|projectId|];
      assert forall i :: 0 <= i < |projectId| ==> projectId[i] == rest[i];
    }
    if projectId <= owner {
      MarkersExtend(projectId, owner);
    }
  }

  lemma {:induction false} NoBeginUnmatched(doc: seq<Segment>, projectId: string)
    requires ValidDoc(doc) && IsToken(projectId)
    requires forall i :: 0 <= i < |doc| ==> !Matches(doc[i], projectId)
    ensures forall j :: 0 <= j < |Render(doc)| ==> !IsBegin(projectId, Render(doc)[j])
  {
    if doc != [] {
      var init, last := doc[..|doc| - 1], doc[|doc| - 1];
      NoBeginUnmatched(init, projectId);
      match last {
        case Free(line) =>
          UnmarkedForAll(line, projectId);
        case Block(owner, body) =>
          BeginLineOf(projectId, owner);
          assert EndMarker(owner)[2] == 'E' && BeginMarker(projectId)[2] == 'B';
          forall j | 0 <= j < |body| ensures !IsBegin(projectId, body[j]) { UnmarkedForAll(body[j], projectId); }
      }
    }
  }

  lemma {:induction false} RenderOneLine(doc: seq<Segment>)
    requires ValidDoc(doc)
    ensures OneLineEach(Render(doc))
  {
    if doc != [] {
      RenderOneLine(doc[..|doc| - 1]);
      if doc[|doc| - 1].Block? {
        MarkerLines(doc[|doc| - 1].owner);
      }
    }
  }

  lemma {:induction false} RStripPlain(line: string)
    requires PlainLine(line)
    ensures PlainLine(RStrip(line))
  {
    var r := RStrip(line);
    assert forall i :: 0 <= i < |r| ==> r[i] == line[i];
    assert line == r + line[|r|..];
    PrefixUp(BEGIN_MARKER_PREFIX, r, line);
    PrefixUp(END_MARKER_PREFIX, r, line);
  }

  lemma {:induction false} PrefixUp(a: string, b: string, line: string)
    requires b <= line
    ensures a <= b ==> a <= line
  {
  }

  lemma {:induction false} TrimLast(init: seq<string>, line: string)
    ensures TrimLines(init + [line]) == if RStrip(line) == "" then TrimLines(init) else init + [RStrip(line)]
  {
    assert (init + [line])[..|init|] == init;
  }

  lemma {:induction false} TrimDocValid(doc: seq<Segment>)
    requires ValidDoc(doc)
    ensures ValidDoc(TrimDoc(doc))
  {
    if doc != [] && doc[|doc| - 1].Free? {
      RStripPlain(doc[|doc| - 1].line);
      if RStrip(doc[|doc| - 1].line) == "" {
        TrimDocValid(doc[..|doc| - 1]);
      }
    }
  }

  lemma {:induction false} TrimDocLines(doc: seq<Segment>)
    requires ValidDoc(doc)
    ensures TrimLines(Render(doc)) == Render(TrimDoc(doc))
  {
    if doc != [] {
      var init, last := doc[..|doc| - 1], doc[|doc| - 1];
      match last {
        case Block(owner, body) =>
          TrimBlockLast(Render(init), owner, body);
        case Free(line) =>
          TrimLast(Render(init), line);
          TrimDocLines(init);
          RenderConcat(init, [Free(RStrip(line))]);
          RenderOne(Free(RStrip(line)));
      }
    }
  }

  lemma {:induction false} TrimBlockLast(init: seq<string>, owner: string, body: seq<string>)
    requires IsToken(owner)
    ensures TrimLines(init + SegmentLines(Block(owner, body))) == init + SegmentLines(Block(owner, body))
  {
    MarkerLines(owner);
    TrimUnchanged(init + SegmentLines(Block(owner, body)));
  }

  lemma {:induction false} TrimDocRefines(doc: seq<Segment>)
    requires ValidDoc(doc)
    ensures ValidDoc(TrimDoc(doc)) && TrimLines(Render(doc)) == Render(TrimDoc(doc))
  {
    TrimDocValid(doc);
    TrimDocLines(doc);
  }

  lemma {:induction false} SettleDocRefines(doc: seq<Segment>)
    requires ValidDoc(doc)
    ensures ValidDoc(SettleDoc(doc)) && Settle(Render(doc)) == Render(SettleDoc(doc))
  {
    TrimDocRefines(doc);
    RenderOne(Free(""));
    if doc != [] {
      assert SegmentLines(doc[|doc| - 1]) != [];
      NonemptyRender(TrimDoc(doc));
      assert PlainLine("");
    }
  }

  lemma {:induction false} NonemptyRender(doc: seq<Segment>)
    ensures Render(doc) == [] <==> doc == []
  {
  }

  lemma {:induction false} NoBeginNoBlock(lines: seq<string>, projectId: string)
    requires forall j :: 0 <= j < |lines| ==> !IsBegin(projectId, lines[j])
    ensures !HasBlock(lines, projectId) && NoPair(lines, projectId)
  {
  }

  lemma {:induction false} SeparatorRefines(doc: seq<Segment>)
    requires ValidDoc(doc)
    ensures Separator(Render(doc)) == Render(DocSeparator(doc))
    ensures ValidDoc(DocSeparator(doc))
  {
    NonemptyRender(doc);
    RenderOne(Free(""));
    assert PlainLine("");
    if doc != [] && doc[|doc| - 1].Block? {
      MarkerLines(doc[|doc| - 1].owner);
    }
  }

  lemma {:induction false} SwapFoundRefines(doc: seq<Segment>, projectId: string, k: nat, news: seq<Segment>)
    requires ValidDoc(doc) && IsToken(projectId)
    requires k == FirstMatch(doc, projectId) < |doc|
    ensures EditedLines(Render(doc), projectId, Render(news)) == Render(doc[..k] + news + doc[k + 1..])
  {
    var before, after := doc[..k], doc[k + 1..];
    RenderAround(doc, k);
    PlainBlock(doc[k].owner, doc[k].body, projectId);
    NoBeginUnmatched(before, projectId);
    NoBeginNoBlock(Render(before), projectId);
    EditInContext(Render(before), SegmentLines(doc[k]), Render(after), projectId, Render(news));
    RenderConcat(before + news, after);
    RenderConcat(before, news);
  }

  lemma {:induction false} SwapAppendRefines(doc: seq<Segment>, projectId: string, news: seq<Segment>)
    requires ValidDoc(doc) && IsToken(projectId)
    requires FirstMatch(doc, projectId) == |doc|
    ensures EditedLines(Render(doc), projectId, Render(news))
      == if news == [] then Render(doc) else Render(doc + DocSeparator(doc) + news)
  {
    NoBeginUnmatched(doc, projectId);
    NoBeginNoBlock(Render(doc), projectId);
    SeparatorRefines(doc);
    NonemptyRender(news);
    RenderConcat(doc + DocSeparator(doc), news);
    RenderConcat(doc, DocSeparator(doc));
  }

  lemma {:induction false} NewSegmentsValid(projectId: string, body: Option<seq<string>>)
    requires IsToken(projectId) && (body.Some? ==> ValidBody(body.value))
    ensures ValidDoc(NewSegments(projectId, body))
  {
  }

  lemma {:induction false} SwapValid(doc: seq<Segment>, projectId: string, body: Option<seq<string>>)
    requires ValidDoc(doc) && ValidDoc(NewSegments(projectId, body))
    ensures ValidDoc(SwapDoc(doc, projectId, body))
  {
    SeparatorRefines(doc);
  }

  lemma {:induction false} SwapShape(doc: seq<Segment>, projectId: string, body: Option<seq<string>>, k: nat,
          news: seq<Segment>)
    requires k == FirstMatch(doc, projectId) && news == NewSegments(projectId, body)
    ensures k < |doc| ==> SwapDoc(doc, projectId, body) == doc[..k] + news + doc[k + 1..]
    ensures k == |doc| ==> SwapDoc(doc, projectId, body) == if news == [] then doc else doc + DocSeparator(doc) + news
  {
  }

  /** The lines of an edit, before trailing blanks go. */
  lemma {:induction false} SwapRefines(doc: seq<Segment>, projectId: string, body: Option<seq<string>>,
          news: seq<Segment>, swapped: seq<Segment>)
    requires ValidDoc(doc) && IsToken(projectId)
    requires news == NewSegments(projectId, body) && swapped == SwapDoc(doc, projectId, body)
    ensures EditedLines(Render(doc), projectId, Render(news)) == Render(swapped)
  {
    var k := FirstMatch(doc, projectId);
    SwapShape(doc, projectId, body, k, news);
    if k < |doc| {
      SwapFoundRefines(doc, projectId, k, news);
    } else {
      SwapAppendRefines(doc, projectId, news);
    }
  }

  function BodyText(projectId: string, body: Option<seq<string>>): Option<string> {
    match body
    case None => None
    case Some(lines) => Some(BlockText(SegmentLines(Block(projectId, lines))))
  }

  /** Refinement: splitting the edited text gives the edited document, whatever the ids have in common. */
  lemma {:induction false} EditRefines(content: string, doc: seq<Segment>, projectId: string, body: Option<seq<string>>)
    requires ValidDoc(doc) && SplitLines(content) == Render(doc)
    requires IsToken(projectId)
    requires body.Some? ==> ValidBody(body.value)
    ensures ValidDoc(EditDoc(doc, projectId, body))
    ensures SplitLines(EditedText(content, projectId, BodyText(projectId, body)))
      == Render(EditDoc(doc, projectId, body))
  {
    var news := NewSegments(projectId, body);
    if body.Some? {
      PlainBlock(projectId, body.value, projectId);
      ReplacementOfBlock(SegmentLines(Block(projectId, body.value)), projectId);
      RenderOne(Block(projectId, body.value));
    }
    assert ReplacementLines(BodyText(projectId, body)) == Render(news);
    NewSegmentsValid(projectId, body);
    SwapValid(doc, projectId, body);
    SwapRefines(doc, projectId, body, NewSegments(projectId, body), SwapDoc(doc, projectId, body));
    var swapped := SwapDoc(doc, projectId, body);
    RenderOneLine(swapped);
    FinishReread(Render(swapped));
    SettleDocRefines(swapped);
  }

  // ---- what an edit keeps

  /** The bodies of the blocks that belong to one project, in order. */
  function Bodies(doc: seq<Segment>, owner: string): seq<seq<string>> {
    if doc == [] then []
    else
      var last := doc[|doc| - 1];
      Bodies(doc[..|doc| - 1], owner) + if last.Block? && last.owner == owner then [last.body] else []
  }

  /** The unmanaged lines that show, without trailing white space, in order. */
  function Unmanaged(doc: seq<Segment>): seq<string> {
    if doc == [] then []
    else
      var last := doc[|doc| - 1];
      Unmanaged(doc[..|doc| - 1]) + if last.Free? && RStrip(last.line) != "" then [RStrip(last.line)] else []
  }

  function AsBodies(body: Option<seq<string>>): seq<seq<string>> {
    match body
    case None => []
    case Some(lines) => [lines]
  }

  lemma {:induction false} BodiesConcat(a: seq<Segment>, b: seq<Segment>, owner: string)
    ensures Bodies(a + b, owner) == Bodies(a, owner) + Bodies(b, owner)
    ensures Unmanaged(a + b) == Unmanaged(a) + Unmanaged(b)
  {
    if b == [] {
      assert a + b == a;
    } else {
      assert (a + b)[..|a + b| - 1] == a + b[..|b| - 1];
      BodiesConcat(a, b[..|b| - 1], owner);
    }
  }

  lemma {:induction false} BodiesOne(s: Segment, owner: string)
    ensures Bodies([s], owner) == if s.Block? && s.owner == owner then [s.body] else []
    ensures Unmanaged([s]) == if s.Free? && RStrip(s.line) != "" then [RStrip(s.line)] else []
  {
    assert [s][..0] == [];
  }

  lemma {:induction false} SettleKeeps(doc: seq<Segment>, owner: string)
    ensures Bodies(TrimDoc(doc), owner) == Bodies(doc, owner)
    ensures Unmanaged(TrimDoc(doc)) == Unmanaged(doc)
    ensures Bodies(SettleDoc(doc), owner) == Bodies(doc, owner)
    ensures Unmanaged(SettleDoc(doc)) == Unmanaged(doc)
  {
    BodiesOne(Free(""), owner);
    if doc != [] && doc[|doc| - 1].Free? {
      var init, line := doc[..|doc| - 1], doc[|doc| - 1].line;
      if RStrip(line) == "" {
        SettleKeeps(init, owner);
      } else {
        BodiesConcat(init, [Free(RStrip(line))], owner);
        BodiesOne(Free(RStrip(line)), owner);
        RStripIdempotent(line);
      }
    }
  }

  lemma {:induction false} BodiesAround(doc: seq<Segment>, k: nat, owner: string)
    requires k < |doc|
    ensures Bodies(doc, owner) == Bodies(doc[..k], owner) + Bodies([doc[k]], owner) + Bodies(doc[k + 1..], owner)
    ensures Unmanaged(doc) == Unmanaged(doc[..k]) + Unmanaged([doc[k]]) + Unmanaged(doc[k + 1..])
  {
    assert doc == doc[..k] + [doc[k]] + doc[k + 1..];
    BodiesConcat(doc[..k] + [doc[k]], doc[k + 1..], owner);
    BodiesConcat(doc[..k], [doc[k]], owner);
  }

  lemma {:induction false} SwapFoundKeeps(doc: seq<Segment>, k: nat, news: seq<Segment>, owner: string)
    requires k < |doc|
    ensures Bodies(doc[..k] + news + doc[k + 1..], owner)
      == Bodies(doc[..k], owner) + Bodies(news, owner) + Bodies(doc[k + 1..], owner)
    ensures doc[k].Block? && Unmanaged(news) == [] ==> Unmanaged(doc[..k] + news + doc[k + 1..]) == Unmanaged(doc)
  {
    BodiesConcat(doc[..k] + news, doc[k + 1..], owner);
    BodiesConcat(doc[..k], news, owner);
    BodiesAround(doc, k, owner);
    BodiesOne(doc[k], owner);
  }

  lemma {:induction false} SeparatorKeeps(doc: seq<Segment>, owner: string)
    ensures Bodies(DocSeparator(doc), owner) == [] && Unmanaged(DocSeparator(doc)) == []
  {
    BodiesOne(Free(""), owner);
  }

  lemma {:induction false} AppendKeeps(doc: seq<Segment>, sep: seq<Segment>, news: seq<Segment>, owner: string)
    requires Bodies(sep, owner) == [] && Unmanaged(sep) == []
    ensures Bodies(doc + sep + news, owner) == Bodies(doc, owner) + Bodies(news, owner)
    ensures Unmanaged(news) == [] ==> Unmanaged(doc + sep + news) == Unmanaged(doc)
  {
    BodiesConcat(doc + sep, news, owner);
    BodiesConcat(doc, sep, owner);
  }

  lemma {:induction false} SwapAppendKeeps(doc: seq<Segment>, news: seq<Segment>, owner: string)
    ensures Bodies(doc + DocSeparator(doc) + news, owner) == Bodies(doc, owner) + Bodies(news, owner)
    ensures Unmanaged(news) == [] ==> Unmanaged(doc + DocSeparator(doc) + news) == Unmanaged(doc)
  {
    SeparatorKeeps(doc, owner);
    AppendKeeps(doc, DocSeparator(doc), news, owner);
  }

  lemma {:induction false} NewSegmentsKeep(projectId: string, body: Option<seq<string>>, owner: string)
    ensures Bodies(NewSegments(projectId, body), owner) == if owner == projectId then AsBodies(body) else []
    ensures Unmanaged(NewSegments(projectId, body)) == []
  {
    if body.Some? {
      BodiesOne(Block(projectId, body.value), owner);
    }
  }

  /** Unmanaged lines survive every edit, in order, up to trailing white space. */
  lemma {:induction false} EditKeepsUnmanaged(doc: seq<Segment>, projectId: string, body: Option<seq<string>>)
    ensures Unmanaged(EditDoc(doc, projectId, body)) == Unmanaged(doc)
  {
    var k := FirstMatch(doc, projectId);
    var news := NewSegments(projectId, body);
    SettleKeeps(SwapDoc(doc, projectId, body), projectId);
    NewSegmentsKeep(projectId, body, projectId);
    SwapShape(doc, projectId, body, k, news);
    if k < |doc| {
      SwapFoundKeeps(doc, k, news, projectId);
    } else {
      SwapAppendKeeps(doc, news, projectId);
    }
  }

  /** The blocks of one owner after an edit. */
  lemma {:induction false} EditBodies(doc: seq<Segment>, projectId: string, body: Option<seq<string>>, owner: string,
          k: nat)
    requires k == FirstMatch(doc, projectId)
    ensures Bodies(EditDoc(doc, projectId, body), owner) ==
      var own := if owner == projectId then AsBodies(body) else [];
      if k < |doc| then Bodies(doc[..k], owner) + own + Bodies(doc[k + 1..], owner) else Bodies(doc, owner) + own
  {
    var news := NewSegments(projectId, body);
    SettleKeeps(SwapDoc(doc, projectId, body), owner);
    NewSegmentsKeep(projectId, body, owner);
    SwapShape(doc, projectId, body, k, news);
    if k < |doc| {
      SwapFoundKeeps(doc, k, news, owner);
    } else {
      SwapAppendKeeps(doc, news, owner);
    }
  }

  lemma {:induction false} EditOthers(doc: seq<Segment>, projectId: string, body: Option<seq<string>>, owner: string,
          k: nat)
    requires k == FirstMatch(doc, projectId)
    requires owner != projectId
    requires k < |doc| ==> doc[k].owner == projectId
    ensures Bodies(EditDoc(doc, projectId, body), owner) == Bodies(doc, owner)
  {
    EditBodies(doc, projectId, body, owner, k);
    if k < |doc| {
      BodiesAround(doc, k, owner);
      BodiesOne(doc[k], owner);
    }
  }

  /** Isolation, exactly: an edit leaves every other project's blocks alone if and only if the first block
      that its prefix match selects, if there is one, is its own. */
  lemma {:induction false} IsolationExactly(doc: seq<Segment>, projectId: string, body: Option<seq<string>>)
    ensures (forall q :: q != projectId ==> Bodies(EditDoc(doc, projectId, body), q) == Bodies(doc, q))
      <==> FirstMatch(doc, projectId) < |doc| ==> doc[FirstMatch(doc, projectId)].owner == projectId
  {
    var k := FirstMatch(doc, projectId);
    var edited := EditDoc(doc, projectId, body);
    if k < |doc| && doc[k].owner != projectId {
      var q := doc[k].owner;
      EditBodies(doc, projectId, body, q, k);
      BodiesAround(doc, k, q);
      BodiesOne(doc[k], q);
      assert |Bodies(edited, q)| + 1 == |Bodies(doc, q)|;
    } else {
      forall q | q != projectId ensures Bodies(edited, q) == Bodies(doc, q) {
        EditOthers(doc, projectId, body, q, k);
      }
    }
  }

  /** Two ids of which one properly extends the other do collide: the shorter one's apply overwrites the longer one's
      block. */
  lemma {:induction false} PrefixCollision(p: string, q: string, body: seq<string>, other: seq<string>)
    requires p < q
    ensures var doc := [Block(q, other)];
      && Bodies(doc, q) == [other]
      && EditDoc(doc, p, Some(body)) == [Block(p, body)]
      && Bodies(EditDoc(doc, p, Some(body)), q) == []
  {
    var doc := [Block(q, other)];
    assert FirstMatch(doc, p) == 0;
    BodiesOne(doc[0], q);
    BodiesOne(Block(p, body), q);
    assert SwapDoc(doc, p, Some(body)) == [Block(p, body)];
  }

  // ---- runs of many projects

  datatype Edit = Edit(projectId: string, body: Option<seq<string>>)

  /** No id of the set starts with another. */
  ghost predicate Incomparable(projects: set<string>) {
    && (forall p :: p in projects ==> IsToken(p))
    && (forall p, q :: p in projects && q in projects && p <= q ==> p == q)
  }

  ghost predicate OwnedBy(doc: seq<Segment>, projects: set<string>) {
    forall i :: 0 <= i < |doc| ==> doc[i].Block? ==> doc[i].owner in projects
  }

  ghost predicate OneBlockEach(doc: seq<Segment>) {
    forall q :: |Bodies(doc, q)| <= 1
  }

  ghost predicate ValidEdit(e: Edit, projects: set<string>) {
    e.projectId in projects && (e.body.Some? ==> ValidBody(e.body.value))
  }

  function RunDoc(doc: seq<Segment>, edits: seq<Edit>): seq<Segment> {
    if edits == [] then doc
    else EditDoc(RunDoc(doc, edits[..|edits| - 1]), edits[|edits| - 1].projectId, edits[|edits| - 1].body)
  }

  ghost function RunText(content: string, edits: seq<Edit>): string {
    if edits == [] then content
    else
      var e := edits[|edits| - 1];
      EditedText(RunText(content, edits[..|edits| - 1]), e.projectId, BodyText(e.projectId, e.body))
  }

  /** What a run leaves as the blocks of one project: its own last write, or what was there. */
  function LastWrite(edits: seq<Edit>, owner: string, initial: seq<seq<string>>): seq<seq<string>> {
    if edits == [] then initial
    else if edits[|edits| - 1].projectId == owner then AsBodies(edits[|edits| - 1].body)
    else LastWrite(edits[..|edits| - 1], owner, initial)
  }

  lemma {:induction false} TrimOwnedBy(doc: seq<Segment>, projects: set<string>)
    requires OwnedBy(doc, projects)
    ensures OwnedBy(SettleDoc(doc), projects) && OwnedBy(TrimDoc(doc), projects)
  {
    if doc != [] {
      TrimOwnedBy(doc[..|doc| - 1], projects);
    }
  }

  lemma {:induction false} NoOwnerNoBodies(doc: seq<Segment>, owner: string)
    requires forall i :: 0 <= i < |doc| ==> !(doc[i].Block? && doc[i].owner == owner)
    ensures Bodies(doc, owner) == []
  {
    if doc != [] {
      NoOwnerNoBodies(doc[..|doc| - 1], owner);
    }
  }

  lemma {:induction false} EditOwn(doc: seq<Segment>, projectId: string, body: Option<seq<string>>, k: nat)
    requires k == FirstMatch(doc, projectId)
    requires k < |doc| ==> doc[k].owner == projectId
    requires |Bodies(doc, projectId)| <= 1
    ensures Bodies(EditDoc(doc, projectId, body), projectId) == AsBodies(body)
  {
    EditBodies(doc, projectId, body, projectId, k);
    if k < |doc| {
      BodiesAround(doc, k, projectId);
      BodiesOne(doc[k], projectId);
    } else {
      NoOwnerNoBodies(doc, projectId);
    }
  }

  /** One edit by one of a set of incomparable projects: its own block becomes the new one, and nobody else's changes.
      */
  lemma {:induction false} EditKeepsOwnership(doc: seq<Segment>, projects: set<string>, e: Edit)
    requires Incomparable(projects) && OwnedBy(doc, projects) && OneBlockEach(doc)
    requires ValidEdit(e, projects)
    ensures OwnedBy(EditDoc(doc, e.projectId, e.body), projects)
    ensures Bodies(EditDoc(doc, e.projectId, e.body), e.projectId) == AsBodies(e.body)
    ensures forall q :: q != e.projectId ==> Bodies(EditDoc(doc, e.projectId, e.body), q) == Bodies(doc, q)
    ensures OneBlockEach(EditDoc(doc, e.projectId, e.body))
  {
    var p, body := e.projectId, e.body;
    var k := FirstMatch(doc, p);
    assert k < |doc| ==> doc[k].owner == p;
    SwapOwnedBy(doc, projects, p, body);
    TrimOwnedBy(SwapDoc(doc, p, body), projects);
    EditOwn(doc, p, body, k);
    OthersUntouched(doc, p, body, k);
    OneEach(doc, EditDoc(doc, p, body), p);
  }

  lemma {:induction false} SwapOwnedBy(doc: seq<Segment>, projects: set<string>, projectId: string,
          body: Option<seq<string>>)
    requires OwnedBy(doc, projects) && projectId in projects
    ensures OwnedBy(SwapDoc(doc, projectId, body), projects)
  {
  }

  lemma {:induction false} OthersUntouched(doc: seq<Segment>, projectId: string, body: Option<seq<string>>, k: nat)
    requires k == FirstMatch(doc, projectId)
    requires k < |doc| ==> doc[k].owner == projectId
    ensures forall q :: q != projectId ==> Bodies(EditDoc(doc, projectId, body), q) == Bodies(doc, q)
  {
    forall q | q != projectId ensures Bodies(EditDoc(doc, projectId, body), q) == Bodies(doc, q) {
      EditOthers(doc, projectId, body, q, k);
    }
  }

  lemma {:induction false} OneEach(doc: seq<Segment>, edited: seq<Segment>, projectId: string)
    requires OneBlockEach(doc)
    requires |Bodies(edited, projectId)| <= 1
    requires forall q :: q != projectId ==> Bodies(edited, q) == Bodies(doc, q)
    ensures OneBlockEach(edited)
  {
    forall q ensures |Bodies(edited, q)| <= 1 {
      assert |Bodies(doc, q)| <= 1;
    }
  }

  /** Ownership over whole runs: after any sequence of applies and prunes by incomparable projects the crontab is
      still a list of unmanaged lines and separate blocks, each project has at most one block, that block is its own
      last write, and the unmanaged lines are the ones it started with. */
  lemma {:induction false} RunOwnership(content: string, doc: seq<Segment>, projects: set<string>, edits: seq<Edit>)
    requires ValidDoc(doc) && SplitLines(content) == Render(doc)
    requires Incomparable(projects) && OwnedBy(doc, projects) && OneBlockEach(doc)
    requires forall i :: 0 <= i < |edits| ==> ValidEdit(edits[i], projects)
    ensures ValidDoc(RunDoc(doc, edits)) && SplitLines(RunText(content, edits)) == Render(RunDoc(doc, edits))
    ensures OwnedBy(RunDoc(doc, edits), projects) && OneBlockEach(RunDoc(doc, edits))
    ensures forall q :: Bodies(RunDoc(doc, edits), q) == LastWrite(edits, q, Bodies(doc, q))
    ensures Unmanaged(RunDoc(doc, edits)) == Unmanaged(doc)
  {
    if edits != [] {
      var init, e := edits[..|edits| - 1], edits[|edits| - 1];
      RunOwnership(content, doc, projects, init);
      assert ValidEdit(e, projects);
      EditRefines(RunText(content, init), RunDoc(doc, init), e.projectId, e.body);
      EditKeepsOwnership(RunDoc(doc, init), projects, e);
      EditKeepsUnmanaged(RunDoc(doc, init), e.projectId, e.body);
    }
  }

  // ---- reading a project's block

  /** The first matching block is the one that gets read back. */
  lemma {:induction false} InspectDocument(doc: seq<Segment>, projectId: string, k: nat, entries: seq<Entry>)
    requires ValidDoc(doc) && IsToken(projectId)
    requires k == FirstMatch(doc, projectId) < |doc|
    requires ValidEntries(entries) && doc[k].body == BodyLines(entries)
    ensures InspectLines(Render(doc), projectId, START) == Ok(ReadBacks(entries))
  {
    RenderAround(doc, k);
    NoBeginUnmatched(doc[..k], projectId);
    ReadBackInContext(Render(doc[..k]), doc[k].owner, entries, Render(doc[k + 1..]), projectId);
  }

  lemma {:induction false} InspectNothing(doc: seq<Segment>, projectId: string)
    requires ValidDoc(doc) && IsToken(projectId)
    requires FirstMatch(doc, projectId) == |doc|
    ensures InspectLines(Render(doc), projectId, START) == Ok([])
  {
    NoBeginUnmatched(doc, projectId);
    SkipBefore(Render(doc), [], projectId);
    assert Render(doc) + [] == Render(doc);
  }
}
