/** One apply puts a project in place, whatever else the crontab holds. */
module CronConvergence {
  import opened Contracts
  import opened Order
  import opened Text
  import opened CronSchedule
  import opened CronText
  import opened CronReadBack
  import opened CronEdits
  import opened CronDocument
  import opened CronHost
  import opened CronRuns
  import opened Plan

  // ---- where the block is after the edit

  lemma {:induction false} TrimKeepsBlock(doc: seq<Segment>, k: nat)
    requires k < |doc| && doc[k].Block?
    ensures k < |TrimDoc(doc)| && TrimDoc(doc)[..k + 1] == doc[..k + 1]
  {
    var last := doc[|doc| - 1];
    if last.Free? {
      if RStrip(last.line) == "" {
        TrimKeepsBlock(doc[..|doc| - 1], k);
        assert doc[..|doc| - 1][..k + 1] == doc[..k + 1];
      }
    }
  }

  lemma {:induction false} FirstMatchIs(doc: seq<Segment>, projectId: string, k: nat)
    requires k <= |doc| && (k < |doc| ==> Matches(doc[k], projectId))
    requires forall i :: 0 <= i < k ==> !Matches(doc[i], projectId)
    ensures FirstMatch(doc, projectId) == k
  {
  }

  lemma {:induction false} SettleKeepsMatch(doc: seq<Segment>, projectId: string, k: nat)
    requires k == FirstMatch(doc, projectId) < |doc|
    ensures FirstMatch(SettleDoc(doc), projectId) == k < |SettleDoc(doc)| && SettleDoc(doc)[k] == doc[k]
  {
    TrimKeepsBlock(doc, k);
    var t := TrimDoc(doc);
    assert t[k] == t[..k + 1][k] == doc[..k + 1][k];
    forall i | 0 <= i < k ensures !Matches(t[i], projectId) {
      assert t[i] == t[..k + 1][i] == doc[..k + 1][i];
    }
    FirstMatchIs(t, projectId, k);
  }

  lemma {:induction false} SettleWithoutMatch(doc: seq<Segment>, projectId: string)
    requires FirstMatch(doc, projectId) == |doc|
    ensures FirstMatch(SettleDoc(doc), projectId) == |SettleDoc(doc)|
  {
    TrimWithoutMatch(doc, projectId);
    FirstMatchIs(SettleDoc(doc), projectId, |SettleDoc(doc)|);
  }

  lemma {:induction false} TrimWithoutMatch(doc: seq<Segment>, projectId: string)
    requires forall i :: 0 <= i < |doc| ==> !Matches(doc[i], projectId)
    ensures forall i :: 0 <= i < |TrimDoc(doc)| ==> !Matches(TrimDoc(doc)[i], projectId)
  {
    if doc != [] && doc[|doc| - 1].Free? && RStrip(doc[|doc| - 1].line) == "" {
      TrimWithoutMatch(doc[..|doc| - 1], projectId);
    }
  }

  /** After a write the first block that the markers select is the project's own, with the new lines. */
  lemma {:induction false} WrittenBlock(doc: seq<Segment>, projectId: string, body: seq<string>) returns (k: nat)
    ensures k == FirstMatch(EditDoc(doc, projectId, Some(body)), projectId) < |EditDoc(doc, projectId, Some(body))|
    ensures EditDoc(doc, projectId, Some(body))[k] == Block(projectId, body)
  {
    var f := FirstMatch(doc, projectId);
    var swapped := SwapDoc(doc, projectId, Some(body));
    k := if f < |doc| then f else |doc| + |DocSeparator(doc)|;
    assert swapped[k] == Block(projectId, body);
    forall i | 0 <= i < k ensures !Matches(swapped[i], projectId) {
      if i < |doc| {
        assert swapped[i] == doc[i];
      } else {
        assert swapped[i] == DocSeparator(doc)[i - |doc|];
      }
    }
    FirstMatchIs(swapped, projectId, k);
    SettleKeepsMatch(swapped, projectId, k);
  }

  // ---- one apply

  /** The plan drawn from the crontab is one NOOP for each desired job, and nothing else. */
  ghost predicate InPlace(crontab: string, manifest: NormalizedManifest, hashes: Hashes, artifactPath: string)
    requires Hashed(manifest.jobs, hashes)
  {
    var collected := CollectCronProjectState(crontab, manifest.projectId, artifactPath);
    && collected.Ok? && AllNoop(Changes(manifest, BACKEND, hashes, collected.value))
    && |Changes(manifest, BACKEND, hashes, collected.value)| == |manifest.jobs|
  }

  /** The crontab after a managed apply, as the reader sees it. */
  lemma {:induction false} AppliedReads(st: HostState, doc: seq<Segment>, manifest: NormalizedManifest, hashes: Hashes,
          layout: Layout, crontabPath: Option<string>)
    requires ValidDoc(doc) && SplitLines(st.crontab) == Render(doc)
    requires ValidManifest(manifest, hashes, layout) && Schedulable(manifest.jobs) && CronExpressible(manifest.jobs)
    requires manifest.jobs != []
    ensures var applied := AppliedState(st, manifest, hashes, layout, crontabPath, true);
      InspectLines(SplitLines(applied.crontab), manifest.projectId, START)
      == Ok(ReadBacks(Entries(manifest.jobs, hashes, layout)))
  {
    var p, entries := manifest.projectId, Entries(manifest.jobs, hashes, layout);
    ManifestEntries(manifest, hashes, layout);
    BodyPlain(entries);
    EditRefines(st.crontab, doc, p, Some(BodyLines(entries)));
    var k := WrittenBlock(doc, p, BodyLines(entries));
    InspectDocument(EditDoc(doc, p, Some(BodyLines(entries))), p, k, entries);
  }

  /** Convergence: from any crontab made of plain lines and blocks, whoever owns them, applying a manifest with jobs
      and reading the crontab back leaves nothing to do. */
  lemma {:induction false} ApplyConverges(st: HostState, doc: seq<Segment>, manifest: NormalizedManifest,
          hashes: Hashes, layout: Layout, crontabPath: Option<string>, artifactPath: string)
    requires ValidDoc(doc) && SplitLines(st.crontab) == Render(doc)
    requires ValidManifest(manifest, hashes, layout) && Schedulable(manifest.jobs) && CronExpressible(manifest.jobs)
    requires manifest.jobs != []
    ensures InPlace(AppliedState(st, manifest, hashes, layout, crontabPath, true).crontab, manifest, hashes,
                    artifactPath)
  {
    var p, entries := manifest.projectId, Entries(manifest.jobs, hashes, layout);
    ManifestEntries(manifest, hashes, layout);
    AppliedReads(st, doc, manifest, hashes, layout, crontabPath);
    CollectedMirrors(entries, artifactPath);
    MirrorConverged(manifest, hashes, layout,
                    ProjectState(p, BACKEND, None, CollectedJobs(ReadBacks(entries), artifactPath)));
  }

  // ---- applying a manifest without jobs

  /** Every block that the project's markers select was printed from jobs. */
  ghost predicate MatchesPrinted(doc: seq<Segment>, projectId: string) {
    forall i :: 0 <= i < |doc| && Matches(doc[i], projectId) ==> Printed(doc[i].body)
  }

  ghost predicate Printed(body: seq<string>) {
    exists entries :: ValidEntries(entries) && entries != [] && body == BodyLines(entries)
  }

  /** No block but the first matching one is selected by the project's markers. */
  predicate AtMostOneMatch(doc: seq<Segment>, projectId: string) {
    forall i :: FirstMatch(doc, projectId) < i < |doc| ==> !Matches(doc[i], projectId)
  }

  lemma {:induction false} EmptyPlanSize(manifest: NormalizedManifest, hashes: Hashes, state: ProjectState)
    requires manifest.jobs == []
    ensures |Changes(manifest, BACKEND, hashes, state)| == |state.jobs|
  {
    RemovalsAll(Sort(state.jobs, DeployedLe));
  }

  lemma {:induction false} RemovalsAll(jobs: seq<DeployedJob>)
    ensures |Removals(jobs, map[])| == |jobs|
  {
    if jobs != [] {
      RemovalsAll(jobs[..|jobs| - 1]);
    }
  }

  /** The document with the first matching block gone. */
  lemma {:induction false} DroppedMatch(doc: seq<Segment>, projectId: string, swapped: seq<Segment>, k: nat)
    requires swapped == SwapDoc(doc, projectId, None) && k == FirstMatch(swapped, projectId)
    ensures AtMostOneMatch(doc, projectId) <==> k == |swapped|
    ensures k < |swapped| ==> swapped[k] in doc && Matches(swapped[k], projectId)
  {
    var f := FirstMatch(doc, projectId);
    assert forall i :: 0 <= i < |swapped| ==> swapped[i] == doc[if i < f then i else i + 1];
    forall i | f < i < |doc| && k == |swapped| ensures !Matches(doc[i], projectId) {
      assert swapped[i - 1] == doc[i];
    }
  }

  lemma {:induction false} RemovedMatch(doc: seq<Segment>, projectId: string, rest: seq<Segment>)
    requires rest == EditDoc(doc, projectId, None)
    ensures AtMostOneMatch(doc, projectId) <==> FirstMatch(rest, projectId) == |rest|
    ensures MatchesPrinted(doc, projectId) && FirstMatch(rest, projectId) < |rest| ==>
      Printed(rest[FirstMatch(rest, projectId)].body)
  {
    var swapped := SwapDoc(doc, projectId, None);
    var k := FirstMatch(swapped, projectId);
    DroppedMatch(doc, projectId, swapped, k);
    if k < |swapped| {
      SettleKeepsMatch(swapped, projectId, k);
    } else {
      SettleWithoutMatch(swapped, projectId);
    }
  }

  /** Applying a manifest without jobs takes the project's block out, and leaves nothing to do exactly when no second
      block is selected by the project's markers: the jobs of such a block would be read as the project's own. */
  lemma {:induction false} EmptyApplyExactly(st: HostState, doc: seq<Segment>, manifest: NormalizedManifest,
          hashes: Hashes, layout: Layout, crontabPath: Option<string>, artifactPath: string)
    requires ValidDoc(doc) && SplitLines(st.crontab) == Render(doc)
    requires ValidManifest(manifest, hashes, layout) && Schedulable(manifest.jobs) && CronExpressible(manifest.jobs)
    requires manifest.jobs == [] && MatchesPrinted(doc, manifest.projectId)
    ensures InPlace(AppliedState(st, manifest, hashes, layout, crontabPath, true).crontab, manifest, hashes,
                    artifactPath)
      <==> AtMostOneMatch(doc, manifest.projectId)
  {
    var p := manifest.projectId;
    var rest := EditDoc(doc, p, None);
    EditRefines(st.crontab, doc, p, None);
    RemovedMatch(doc, p, rest);
    ReadsEmptyExactly(rest, p);
    EmptyInPlace(AppliedState(st, manifest, hashes, layout, crontabPath, true).crontab, Render(rest), manifest, hashes,
                 artifactPath);
  }

  lemma {:induction false} EmptyInPlace(crontab: string, lines: seq<string>, manifest: NormalizedManifest,
          hashes: Hashes, artifactPath: string)
    requires manifest.jobs == [] && SplitLines(crontab) == lines && InspectLines(lines, manifest.projectId, START).Ok?
    ensures InPlace(crontab, manifest, hashes, artifactPath)
      <==> InspectLines(lines, manifest.projectId, START) == Ok([])
  {
    var items := InspectLines(lines, manifest.projectId, START).value;
    EmptyPlanSize(manifest, hashes,
                  ProjectState(manifest.projectId, BACKEND, None, CollectedJobs(items, artifactPath)));
  }

  lemma {:induction false} ReadsEmptyExactly(doc: seq<Segment>, projectId: string)
    requires ValidDoc(doc) && IsToken(projectId)
    requires FirstMatch(doc, projectId) < |doc| ==> Printed(doc[FirstMatch(doc, projectId)].body)
    ensures InspectLines(Render(doc), projectId, START).Ok?
    ensures InspectLines(Render(doc), projectId, START) == Ok([]) <==> FirstMatch(doc, projectId) == |doc|
  {
    var k := FirstMatch(doc, projectId);
    if k == |doc| {
      InspectNothing(doc, projectId);
    } else {
      var entries :| ValidEntries(entries) && entries != [] && doc[k].body == BodyLines(entries);
      InspectDocument(doc, projectId, k, entries);
    }
  }

  // ---- the saved record against the crontab

  /** A managed apply of a manifest with jobs makes record and crontab agree, whatever was recorded before and whatever
      else the crontab holds. */
  lemma {:induction false} ApplyAgrees(st: HostState, doc: seq<Segment>, manifest: NormalizedManifest, hashes: Hashes,
          layout: Layout, crontabPath: Option<string>, artifactPath: string)
    requires ValidDoc(doc) && SplitLines(st.crontab) == Render(doc)
    requires ValidManifest(manifest, hashes, layout) && Schedulable(manifest.jobs) && CronExpressible(manifest.jobs)
    requires manifest.jobs != []
    ensures Agrees(AppliedState(st, manifest, hashes, layout, crontabPath, true), manifest.projectId, artifactPath)
  {
    var p, entries := manifest.projectId, Entries(manifest.jobs, hashes, layout);
    var now := AppliedState(st, manifest, hashes, layout, crontabPath, true);
    ManifestEntries(manifest, hashes, layout);
    AppliedReads(st, doc, manifest, hashes, layout, crontabPath);
    CollectedMirrors(entries, artifactPath);
    RecordMirrors(manifest, hashes, layout, crontabPath, now.records);
    MirrorsPlanAlike(LoadProjectState(now.records, p, BACKEND),
                     CollectCronProjectState(now.crontab, p, artifactPath).value, entries);
  }

  const NO_HASHES := Hashes("", map[], map[])

  /** A state without jobs plans like another state exactly when that one has no jobs either. */
  lemma {:induction false} EmptyPlanAlike(a: ProjectState, b: ProjectState)
    requires a.jobs == []
    ensures PlanAlike(a, b) <==> b.jobs == []
  {
    var manifest := NormalizedManifest(1, "", "", "", []);
    assert Hashed(manifest.jobs, NO_HASHES) && DistinctJobs(manifest.jobs);
    EmptyPlanSize(manifest, NO_HASHES, a);
    EmptyPlanSize(manifest, NO_HASHES, b);
    if PlanAlike(a, b) {
      assert |Outcomes(Changes(manifest, BACKEND, NO_HASHES, a))|
        == |Outcomes(Changes(manifest, BACKEND, NO_HASHES, b))|;
    }
  }

  /** After the project's block is taken out, a record without jobs agrees with the crontab exactly when no second block
      is selected by the project's markers. */
  lemma {:induction false} EmptyAgreesExactly(st: HostState, content: string, doc: seq<Segment>, projectId: string,
          artifactPath: string)
    requires ValidDoc(doc) && SplitLines(content) == Render(doc) && IsToken(projectId) && MatchesPrinted(doc, projectId)
    requires st.crontab == EditedText(content, projectId, None)
    requires LoadProjectState(st.records, projectId, BACKEND).jobs == []
    ensures Agrees(st, projectId, artifactPath) <==> AtMostOneMatch(doc, projectId)
  {
    var rest := EditDoc(doc, projectId, None);
    EditRefines(content, doc, projectId, None);
    RemovedMatch(doc, projectId, rest);
    ReadsEmptyExactly(rest, projectId);
    EmptyPlanAlike(LoadProjectState(st.records, projectId, BACKEND),
                   CollectCronProjectState(st.crontab, projectId, artifactPath).value);
  }

  /** A managed apply, whatever its manifest holds, makes record and crontab agree exactly when it printed a block or
      there was no second block to be mistaken for the project's own. */
  lemma {:induction false} ApplyAgreesExactly(st: HostState, doc: seq<Segment>, manifest: NormalizedManifest,
          hashes: Hashes, layout: Layout, crontabPath: Option<string>, artifactPath: string)
    requires ValidDoc(doc) && SplitLines(st.crontab) == Render(doc)
    requires ValidManifest(manifest, hashes, layout) && Schedulable(manifest.jobs) && CronExpressible(manifest.jobs)
    requires manifest.jobs == [] ==> MatchesPrinted(doc, manifest.projectId)
    ensures Agrees(AppliedState(st, manifest, hashes, layout, crontabPath, true), manifest.projectId, artifactPath)
      <==> manifest.jobs != [] || AtMostOneMatch(doc, manifest.projectId)
  {
    if manifest.jobs != [] {
      ApplyAgrees(st, doc, manifest, hashes, layout, crontabPath, artifactPath);
    } else {
      EmptyAgreesExactly(AppliedState(st, manifest, hashes, layout, crontabPath, true), st.crontab, doc,
                         manifest.projectId, artifactPath);
    }
  }

  /** A managed prune deletes the record and makes the two agree under the same condition. */
  lemma {:induction false} PruneAgreesExactly(st: HostState, doc: seq<Segment>, projectId: string, artifactPath: string)
    requires ValidDoc(doc) && SplitLines(st.crontab) == Render(doc) && IsToken(projectId)
    requires MatchesPrinted(doc, projectId)
    ensures Agrees(PrunedState(st, projectId, true), projectId, artifactPath) <==> AtMostOneMatch(doc, projectId)
  {
    EmptyAgreesExactly(PrunedState(st, projectId, true), st.crontab, doc, projectId, artifactPath);
  }
}
