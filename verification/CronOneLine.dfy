/** When an apply puts a project in place: exactly when its ids and schedules are each on a single line. */
module CronOneLine {
  import opened Contracts
  import opened Order
  import opened Text
  import opened CronSchedule
  import opened CronText
  import opened CronReadBack
  import opened CronDocument
  import opened CronHost
  import opened CronRuns
  import opened CronConvergence
  import opened CronLineBreaks
  import opened Plan

  /** What validation, normalization and hashing give whatever the ids and schedules look like. */
  ghost predicate LooseManifest(manifest: NormalizedManifest, hashes: Hashes, layout: Layout) {
    && manifest.projectId != ""
    && DistinctJobs(manifest.jobs) && Hashed(manifest.jobs, hashes)
    && forall i :: 0 <= i < |manifest.jobs| ==> LooseJob(manifest.jobs[i], manifest.projectId, hashes, layout)
  }

  ghost predicate LooseJob(job: Job, projectId: string, hashes: Hashes, layout: Layout) {
    && job.projectId == projectId && job.jobId != "" && job.qualifiedId == BuildQualifiedJobId(projectId, job.jobId)
    && job.qualifiedId in hashes.jobs && IsToken(hashes.jobs[job.qualifiedId])
    && job.qualifiedId in hashes.definitions && IsToken(hashes.definitions[job.qualifiedId])
    && ValidSchedule(job.schedule) && PathText(layout(job))
  }

  /** An id is a token only if its parts are. */
  lemma {:induction false} TokenParts(projectId: string, jobId: string)
    requires projectId != "" && jobId != "" && IsToken(BuildQualifiedJobId(projectId, jobId))
    ensures IsToken(projectId) && IsToken(jobId)
  {
    var q := BuildQualifiedJobId(projectId, jobId);
    assert forall i :: 0 <= i < |projectId| ==> projectId[i] == q[i];
    assert forall i :: 0 <= i < |jobId| ==> jobId[i] == q[|projectId| + 1 + i];
  }

  // ---- what a NOOP says about the collected state

  lemma {:induction false} NoopMeansSettled(manifest: NormalizedManifest, hashes: Hashes, state: ProjectState, i: nat)
    requires Hashed(manifest.jobs, hashes) && i < |manifest.jobs|
    requires AllNoop(Changes(manifest, BACKEND, hashes, state))
    ensures var job, deployed := manifest.jobs[i], DeployedIndex(state.jobs);
      job.qualifiedId in deployed && deployed[job.qualifiedId].enabled == job.enabled
  {
    var job, deployed := manifest.jobs[i], DeployedIndex(state.jobs);
    var a := DesiredChanges(manifest.jobs, BACKEND, hashes, deployed);
    var b := Removals(Sort(state.jobs, DeployedLe), DesiredIndex(manifest.jobs));
    DesiredAt(manifest.jobs, BACKEND, hashes, deployed, i);
    assert a[i] == (a + b)[i];
    MultisetMembers(a + b, Sort(a + b, ChangeLe));
    assert a[i] in Changes(manifest, BACKEND, hashes, state);
    assert a[i].kind == Noop;
  }

  lemma {:induction false} IndexedId(jobs: seq<DeployedJob>, id: string)
    requires id in DeployedIndex(jobs)
    ensures exists i :: 0 <= i < |jobs| && jobs[i].qualifiedId == id
  {
    if jobs[|jobs| - 1].qualifiedId != id {
      IndexedId(jobs[..|jobs| - 1], id);
    }
  }

  /** The last record under an id is the one that counts. */
  lemma {:induction false} IndexedLast(first: seq<DeployedJob>, d: DeployedJob, others: seq<DeployedJob>)
    requires forall i :: 0 <= i < |others| ==> others[i].qualifiedId != d.qualifiedId
    ensures d.qualifiedId in DeployedIndex(first + [d] + others)
    ensures DeployedIndex(first + [d] + others)[d.qualifiedId] == d
  {
    var jobs := first + [d] + others;
    if others == [] {
      assert jobs == first + [d];
    } else {
      var init := others[..|others| - 1];
      assert jobs[..|jobs| - 1] == first + [d] + init;
      IndexedLast(first, d, init);
    }
  }

  // ---- ids that are no tokens

  ghost predicate TokensRead(r: Result<seq<Inspection>, CronError>) {
    r.Ok? ==> forall i :: 0 <= i < |r.value| ==> IsToken(r.value[i].qualifiedId)
  }

  lemma {:induction false} OneMoreToken(item: Inspection, r: Result<seq<Inspection>, CronError>)
    requires IsToken(item.qualifiedId) && TokensRead(r)
    ensures TokensRead(Prepend([item], r))
  {
  }

  /** Every collected job has a token for an id. */
  lemma {:induction false} CollectedTokens(lines: seq<string>, projectId: string, scan: Scan)
    requires scan.meta.Some? ==> IsToken(scan.meta.value.qualifiedId)
    ensures TokensRead(InspectLines(lines, projectId, scan))
    decreases |lines|
  {
    if lines == [] || (scan.inside && !IsBegin(projectId, lines[0]) && IsEnd(projectId, lines[0])) {
    } else {
      var line, rest := lines[0], lines[1..];
      CollectedTokens(rest, projectId, IDLE);
      CollectedTokens(rest, projectId, scan);
      if IsBegin(projectId, line) || !scan.inside {
      } else if ParseMeta(line).Some? {
        ParseMetaExactly(line, ParseMeta(line).value);
        CollectedTokens(rest, projectId, Scan(true, ParseMeta(line), false));
      } else if line == DISABLED_MARKER {
        CollectedTokens(rest, projectId, scan.(pendingDisabled := true));
      } else if scan.meta.Some? {
        assert lines == [line] + rest;
        CompletedTokens(line, rest, projectId, scan);
      }
    }
  }

  lemma {:induction false} CompletedTokens(line: string, rest: seq<string>, projectId: string, scan: Scan)
    requires scan.inside && scan.meta.Some? && IsToken(scan.meta.value.qualifiedId)
    requires !IsBegin(projectId, line) && !IsEnd(projectId, line) && ParseMeta(line) == None && line != DISABLED_MARKER
    requires TokensRead(InspectLines(rest, projectId, IDLE))
    ensures TokensRead(InspectLines([line] + rest, projectId, scan))
  {
    InspectPlain(line, rest, projectId, scan.meta.value, scan.pendingDisabled);
    var disabled := scan.pendingDisabled && "# " <= line;
    var parts := SplitCronEntry(if disabled then line[2..] else line);
    if parts.Ok? {
      OneMoreToken(InspectionOf(scan.meta.value, disabled, line, parts.value), InspectLines(rest, projectId, IDLE));
    }
  }

  /** So a job whose id is no token is never found, and always has something to change. */
  lemma {:induction false} UnfoundJob(crontab: string, manifest: NormalizedManifest, hashes: Hashes,
          artifactPath: string, i: nat)
    requires Hashed(manifest.jobs, hashes) && i < |manifest.jobs| && !IsToken(manifest.jobs[i].qualifiedId)
    ensures !InPlace(crontab, manifest, hashes, artifactPath)
  {
    var collected := CollectCronProjectState(crontab, manifest.projectId, artifactPath);
    if InPlace(crontab, manifest, hashes, artifactPath) {
      CollectedTokens(SplitLines(crontab), manifest.projectId, START);
      NoopMeansSettled(manifest, hashes, collected.value, i);
      IndexedId(collected.value.jobs, manifest.jobs[i].qualifiedId);
      assert false;
    }
  }

  // ---- schedules with line breaks

  lemma {:induction false} EveryOneLine(value: string)
    requires EveryValue(value)
    ensures OneLine(value)
  {
    assert forall i :: 0 <= i < |value| - 1 ==> value[i] == value[..|value| - 1][i];
  }

  /** What is printed for a schedule is on one line exactly when the schedule is. */
  lemma {:induction false} RenderedOneLineExactly(schedule: Schedule)
    requires ValidSchedule(schedule) && !CronIncompatible(schedule)
    ensures RenderCronSchedule(schedule).Ok?
    ensures (OneLine(RenderCronSchedule(schedule).value) <==> OneLine(schedule.value))
  {
    RenderFailsExactly(schedule);
    if schedule.kind == EverySchedule {
      EveryOneLine(schedule.value);
      RenderedOneLine(schedule);
    }
  }

  ghost predicate TokenIds(jobs: seq<Job>) {
    forall i :: 0 <= i < |jobs| ==> IsToken(jobs[i].qualifiedId)
  }

  predicate OneLineSchedules(jobs: seq<Job>) {
    forall i :: 0 <= i < |jobs| ==> OneLine(jobs[i].schedule.value)
  }

  lemma {:induction false} LooseManifestEntry(manifest: NormalizedManifest, hashes: Hashes, layout: Layout, i: nat)
    requires LooseManifest(manifest, hashes, layout) && TokenIds(manifest.jobs) && i < |manifest.jobs|
    requires Schedulable(manifest.jobs) && CronExpressible(manifest.jobs)
    ensures var e := Entries(manifest.jobs, hashes, layout)[i];
      && LooseEntry(e) && e.meta.qualifiedId == manifest.jobs[i].qualifiedId && e.enabled == manifest.jobs[i].enabled
      && (OneLine(e.schedule) <==> OneLine(manifest.jobs[i].schedule.value))
  {
    var job := manifest.jobs[i];
    EntriesAt(manifest.jobs, hashes, layout, i);
    assert LooseJob(job, manifest.projectId, hashes, layout);
    TokenParts(manifest.projectId, job.jobId);
    RenderedExpression(job.schedule);
    RenderedOneLineExactly(job.schedule);
  }

  lemma {:induction false} LooseManifestEntries(manifest: NormalizedManifest, hashes: Hashes, layout: Layout)
    requires LooseManifest(manifest, hashes, layout) && TokenIds(manifest.jobs)
    requires Schedulable(manifest.jobs) && CronExpressible(manifest.jobs)
    ensures LooseEntries(Entries(manifest.jobs, hashes, layout))
    ensures DistinctEntries(Entries(manifest.jobs, hashes, layout))
    ensures forall i :: 0 <= i < |manifest.jobs| ==>
      (OneLine(Entries(manifest.jobs, hashes, layout)[i].schedule) <==> OneLine(manifest.jobs[i].schedule.value))
  {
    var entries := Entries(manifest.jobs, hashes, layout);
    forall i | 0 <= i < |entries|
      ensures LooseEntry(entries[i]) && entries[i].meta.qualifiedId == manifest.jobs[i].qualifiedId
      ensures OneLine(entries[i].schedule) <==> OneLine(manifest.jobs[i].schedule.value)
    {
      LooseManifestEntry(manifest, hashes, layout, i);
    }
  }

  lemma {:induction false} SpoiledWrite(content: string, doc: seq<Segment>, projectId: string, entries: seq<Entry>,
          k: nat)
    requires ValidDoc(doc) && SplitLines(content) == Render(doc) && IsToken(projectId)
    requires LooseEntries(entries) && DistinctEntries(entries) && k < |entries|
    requires ValidEntries(entries[..k]) && !OneLine(entries[k].schedule)
    ensures Spoiled(InspectLines(SplitLines(EditedText(content, projectId, BodyText(projectId, EntriesBody(entries)))),
                                 projectId, START),
                    entries[k])
  {
    var after := WrittenReads(content, doc, projectId, entries);
    SpoiledAt(entries, k, after, projectId);
  }

  lemma {:induction false} ValidBefore(entries: seq<Entry>, jobs: seq<Job>, k: nat)
    requires k <= |entries| == |jobs| && LooseEntries(entries) && OneLineSchedules(jobs[..k])
    requires forall i :: 0 <= i < |jobs| ==> (OneLine(entries[i].schedule) <==> OneLine(jobs[i].schedule.value))
    ensures ValidEntries(entries[..k])
  {
    forall i | 0 <= i < k ensures ValidEntry(entries[..k][i]) {
      assert jobs[..k][i] == jobs[i];
      assert LooseEntry(entries[i]);
    }
  }

  /** What the project reads after an apply whose first schedule with a line break is at `k`. */
  lemma {:induction false} SpoiledApply(st: HostState, doc: seq<Segment>, manifest: NormalizedManifest, hashes: Hashes,
          layout: Layout, crontabPath: Option<string>, k: nat)
    requires ValidDoc(doc) && SplitLines(st.crontab) == Render(doc)
    requires LooseManifest(manifest, hashes, layout) && TokenIds(manifest.jobs)
    requires Schedulable(manifest.jobs) && CronExpressible(manifest.jobs)
    requires k < |manifest.jobs| && OneLineSchedules(manifest.jobs[..k]) && !OneLine(manifest.jobs[k].schedule.value)
    ensures var applied := AppliedState(st, manifest, hashes, layout, crontabPath, true);
      Spoiled(InspectLines(SplitLines(applied.crontab), manifest.projectId, START),
              Entries(manifest.jobs, hashes, layout)[k])
  {
    var entries := Entries(manifest.jobs, hashes, layout);
    assert LooseJob(manifest.jobs[k], manifest.projectId, hashes, layout);
    TokenParts(manifest.projectId, manifest.jobs[k].jobId);
    LooseManifestEntries(manifest, hashes, layout);
    ValidBefore(entries, manifest.jobs, k);
    SpoiledWrite(st.crontab, doc, manifest.projectId, entries, k);
  }

  lemma {:induction false} SpoiledNotInPlace(crontab: string, manifest: NormalizedManifest, hashes: Hashes,
          artifactPath: string, e: Entry, k: nat)
    requires Hashed(manifest.jobs, hashes) && k < |manifest.jobs|
    requires e.meta.qualifiedId == manifest.jobs[k].qualifiedId && e.enabled == manifest.jobs[k].enabled
    requires Spoiled(InspectLines(SplitLines(crontab), manifest.projectId, START), e)
    ensures !InPlace(crontab, manifest, hashes, artifactPath)
  {
    var r := InspectLines(SplitLines(crontab), manifest.projectId, START);
    if r.Ok? {
      var first: seq<Inspection>, item: Inspection, others: seq<Inspection> :|
        && !e.enabled && item.qualifiedId == e.meta.qualifiedId && item.enabled && Without(others, item.qualifiedId)
        && r.value == first + [item] + others;
      SpoiledIndex(first, item, others, artifactPath);
      var collected := CollectCronProjectState(crontab, manifest.projectId, artifactPath);
      if AllNoop(Changes(manifest, BACKEND, hashes, collected.value)) {
        NoopMeansSettled(manifest, hashes, collected.value, k);
        assert false;
      }
    }
  }

  lemma {:induction false} SpoiledIndex(first: seq<Inspection>, item: Inspection, others: seq<Inspection>,
          artifactPath: string)
    requires Without(others, item.qualifiedId)
    ensures var deployed := DeployedIndex(CollectedJobs(first + [item] + others, artifactPath));
      item.qualifiedId in deployed && deployed[item.qualifiedId].enabled == item.enabled
  {
    var d := CollectedJob(item, artifactPath);
    var a, b := CollectedJobs(first, artifactPath), CollectedJobs(others, artifactPath);
    assert CollectedJobs(first + [item] + others, artifactPath) == a + [d] + b;
    IndexedLast(a, d, b);
  }

  lemma {:induction false} FirstBroken(jobs: seq<Job>) returns (k: nat)
    requires !OneLineSchedules(jobs)
    ensures k < |jobs| && OneLineSchedules(jobs[..k]) && !OneLine(jobs[k].schedule.value)
  {
    if OneLineSchedules(jobs[..|jobs| - 1]) {
      k := |jobs| - 1;
      assert jobs == jobs[..k] + [jobs[k]];
    } else {
      k := FirstBroken(jobs[..|jobs| - 1]);
      assert jobs[..|jobs| - 1][..k] == jobs[..k];
    }
  }

  lemma {:induction false} ValidExactly(manifest: NormalizedManifest, hashes: Hashes, layout: Layout)
    requires LooseManifest(manifest, hashes, layout) && manifest.jobs != []
    ensures ValidManifest(manifest, hashes, layout) <==> TokenIds(manifest.jobs) && OneLineSchedules(manifest.jobs)
  {
    if TokenIds(manifest.jobs) && OneLineSchedules(manifest.jobs) {
      forall i | 0 <= i < |manifest.jobs| ensures ValidJob(manifest.jobs[i], manifest.projectId, hashes, layout) {
        assert LooseJob(manifest.jobs[i], manifest.projectId, hashes, layout);
        TokenParts(manifest.projectId, manifest.jobs[i].jobId);
      }
      assert LooseJob(manifest.jobs[0], manifest.projectId, hashes, layout);
      TokenParts(manifest.projectId, manifest.jobs[0].jobId);
    }
    if ValidManifest(manifest, hashes, layout) {
      forall i | 0 <= i < |manifest.jobs|
        ensures IsToken(manifest.jobs[i].qualifiedId) && OneLine(manifest.jobs[i].schedule.value)
      {
        assert ValidJob(manifest.jobs[i], manifest.projectId, hashes, layout);
      }
    }
  }

  /** One managed apply of a manifest with jobs, on any crontab made of plain lines and blocks, puts the project in
      place if and only if all its ids are tokens and all its schedules are on one line. */
  lemma {:induction false} InPlaceExactly(st: HostState, doc: seq<Segment>, manifest: NormalizedManifest,
          hashes: Hashes, layout: Layout, crontabPath: Option<string>, artifactPath: string)
    requires ValidDoc(doc) && SplitLines(st.crontab) == Render(doc)
    requires LooseManifest(manifest, hashes, layout) && manifest.jobs != []
    requires Schedulable(manifest.jobs) && CronExpressible(manifest.jobs)
    ensures InPlace(AppliedState(st, manifest, hashes, layout, crontabPath, true).crontab, manifest, hashes,
                    artifactPath)
      <==> TokenIds(manifest.jobs) && OneLineSchedules(manifest.jobs)
  {
    var applied := AppliedState(st, manifest, hashes, layout, crontabPath, true);
    ValidExactly(manifest, hashes, layout);
    if !TokenIds(manifest.jobs) {
      var i :| 0 <= i < |manifest.jobs| && !IsToken(manifest.jobs[i].qualifiedId);
      UnfoundJob(applied.crontab, manifest, hashes, artifactPath, i);
    } else if OneLineSchedules(manifest.jobs) {
      ApplyConverges(st, doc, manifest, hashes, layout, crontabPath, artifactPath);
    } else {
      var k := FirstBroken(manifest.jobs);
      SpoiledApply(st, doc, manifest, hashes, layout, crontabPath, k);
      LooseManifestEntry(manifest, hashes, layout, k);
      SpoiledNotInPlace(applied.crontab, manifest, hashes, artifactPath, Entries(manifest.jobs, hashes, layout)[k], k);
    }
  }

  /** The project's block cannot be read, so every later apply and prune of the project is refused and changes nothing.
      */
  ghost predicate Stuck(st: HostState, projectId: string, layout: Layout, crontabPath: Option<string>) {
    && InspectLines(SplitLines(st.crontab), projectId, START).Err?
    && forall s :: Printable(s) && Actor(s) == projectId ==> StepHost(st, s, layout, crontabPath) == st
  }

  /** When the first job with a line break in its schedule is enabled, the apply leaves the project stuck. */
  lemma {:induction false} BrokenScheduleStuck(st: HostState, doc: seq<Segment>, manifest: NormalizedManifest,
          hashes: Hashes, layout: Layout, crontabPath: Option<string>, k: nat)
    requires ValidDoc(doc) && SplitLines(st.crontab) == Render(doc)
    requires LooseManifest(manifest, hashes, layout) && TokenIds(manifest.jobs)
    requires Schedulable(manifest.jobs) && CronExpressible(manifest.jobs)
    requires k < |manifest.jobs| && OneLineSchedules(manifest.jobs[..k]) && !OneLine(manifest.jobs[k].schedule.value)
    requires manifest.jobs[k].enabled
    ensures Stuck(AppliedState(st, manifest, hashes, layout, crontabPath, true), manifest.projectId, layout,
                  crontabPath)
  {
    SpoiledApply(st, doc, manifest, hashes, layout, crontabPath, k);
    LooseManifestEntry(manifest, hashes, layout, k);
  }
}
