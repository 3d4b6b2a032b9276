/** What cron runs after an apply: which command at which times, and what a later prune takes away. */
module CronCommands {
  import opened Contracts
  import opened Order
  import opened Text
  import opened CronSchedule
  import opened CronText
  import opened CronReadBack
  import opened CronDocument
  import opened CronHost
  import opened CronRuns
  import opened CronConvergence
  import opened Plan

  // ---- the five fields of a schedule

  /** The cron fields of a schedule: its own, or those of the portable form. */
  ghost predicate CronTimes(schedule: Schedule, fields: seq<string>) {
    match schedule.kind
    case CronSchedule => fields == Fields(schedule.value)
    case EverySchedule =>
      && EveryValue(schedule.value)
      && var n := schedule.value[..|schedule.value| - 1];
         match Unit(schedule.value)
         case 'm' => fields == ["*/" + n, "*", "*", "*", "*"]
         case 'h' => fields == ["0", "*/" + n, "*", "*", "*"]
         case 'd' => fields == ["0", "0", "*/" + n, "*", "*"]
         case 'w' => n == "1" && fields == ["0", "0", "*", "*", "0"]
         case _ => false
  }

  lemma {:induction false} NatTextOf(s: string)
    requires IsDigits(s) && s[0] != '0'
    ensures NatText(NatOf(s)) == s
  {
    var init, last := s[..|s| - 1], s[|s| - 1];
    assert s == init + [last];
    if init != "" {
      LeadingDigitPositive(init);
      NatTextOf(init);
    }
  }

  lemma {:induction false} StepFields(n: string)
    requires CronField(n)
    ensures Fields(JoinBlanks([n, "*", "*", "*", "*"])) == [n, "*", "*", "*", "*"]
    ensures Fields(JoinBlanks(["0", n, "*", "*", "*"])) == ["0", n, "*", "*", "*"]
    ensures Fields(JoinBlanks(["0", "0", n, "*", "*"])) == ["0", "0", n, "*", "*"]
  {
    JoinedExpression([n, "*", "*", "*", "*"]);
    JoinedExpression(["0", n, "*", "*", "*"]);
    JoinedExpression(["0", "0", n, "*", "*"]);
  }

  lemma {:induction false} EveryTimes(schedule: Schedule, digits: string)
    requires schedule.kind == EverySchedule && ValidSchedule(schedule) && !CronIncompatible(schedule)
    requires digits == schedule.value[..|schedule.value| - 1] && NatText(Amount(schedule.value)) == digits
    requires Unit(schedule.value) == 'w' ==> digits == "1"
    requires CronField("*/" + digits) && RenderCronSchedule(schedule).Ok?
    ensures CronTimes(schedule, Fields(RenderCronSchedule(schedule).value))
  {
    StepFields("*/" + digits);
    JoinedExpression(["0", "0", "*", "*", "0"]);
  }

  /** Whatever is printed has the schedule's own fields. */
  lemma {:induction false} RenderedTimes(schedule: Schedule)
    requires ValidSchedule(schedule) && !CronIncompatible(schedule)
    ensures RenderCronSchedule(schedule).Ok? && CronTimes(schedule, Fields(RenderCronSchedule(schedule).value))
  {
    RenderFailsExactly(schedule);
    if schedule.kind == EverySchedule {
      var digits := schedule.value[..|schedule.value| - 1];
      NatTextOf(digits);
      StepField(Amount(schedule.value));
      if Unit(schedule.value) == 'w' {
        OnlyOne(digits);
      }
      EveryTimes(schedule, digits);
    }
  }

  // ---- what is read back

  /** The inspected entry of a job, with the crontab line that it stands for. */
  ghost predicate ReadsAs(item: Inspection, job: Job, hashes: Hashes, layout: Layout) {
    && item.qualifiedId == job.qualifiedId && item.jobId == job.jobId && item.enabled == job.enabled
    && job.qualifiedId in hashes.jobs && item.desiredHash == hashes.jobs[job.qualifiedId]
    && job.qualifiedId in hashes.definitions && item.definitionHash == hashes.definitions[job.qualifiedId]
    && item.wrapperPath == layout(job) && CronTimes(job.schedule, Fields(item.schedule))
    && RunsWrapper(item.rawEntry, job, layout)
  }

  /** The line runs the job's wrapper at the job's times, behind a comment sign if the job is disabled. */
  ghost predicate RunsWrapper(line: string, job: Job, layout: Layout) {
    exists times :: CronTimes(job.schedule, Fields(times)) && line == Sign(job.enabled) + (times + " " + layout(job))
  }

  function Sign(enabled: bool): string { if enabled then "" else "# " }

  lemma {:induction false} EntryReadsAs(job: Job, projectId: string, hashes: Hashes, layout: Layout)
    requires ValidJob(job, projectId, hashes, layout) && !CronIncompatible(job.schedule)
    ensures ReadsAs(ReadBack(EntryOf(job, hashes, layout)), job, hashes, layout)
  {
    var e := EntryOf(job, hashes, layout);
    RenderedTimes(job.schedule);
    FieldsOfJoin(Fields(e.schedule));
    Regroup(e.schedule, " ", e.wrapperPath);
    assert Sign(true) + CommandLine(e) == CommandLine(e);
    assert CommandLine(e) == e.schedule + " " + layout(job);
  }

  ghost predicate ReadFrom(r: Result<seq<Inspection>, CronError>, lines: seq<string>) {
    r.Ok? ==> forall i :: 0 <= i < |r.value| ==> r.value[i].rawEntry in lines
  }

  lemma {:induction false} ReadFromRest(r: Result<seq<Inspection>, CronError>, line: string, rest: seq<string>)
    requires ReadFrom(r, rest)
    ensures ReadFrom(r, [line] + rest)
  {
  }

  lemma {:induction false} OneMoreRead(item: Inspection, r: Result<seq<Inspection>, CronError>, lines: seq<string>)
    requires item.rawEntry in lines && ReadFrom(r, lines)
    ensures ReadFrom(Prepend([item], r), lines)
  {
  }

  lemma {:induction false} CompletedEntry(line: string, rest: seq<string>, projectId: string, scan: Scan)
    requires scan.inside && scan.meta.Some?
    requires !IsBegin(projectId, line) && !IsEnd(projectId, line)
    requires ParseMeta(line) == None && line != DISABLED_MARKER
    requires ReadFrom(InspectLines(rest, projectId, IDLE), [line] + rest)
    ensures ReadFrom(InspectLines([line] + rest, projectId, scan), [line] + rest)
  {
    InspectPlain(line, rest, projectId, scan.meta.value, scan.pendingDisabled);
    var disabled := scan.pendingDisabled && "# " <= line;
    var parts := SplitCronEntry(if disabled then line[2..] else line);
    if parts.Ok? {
      OneMoreRead(InspectionOf(scan.meta.value, disabled, line, parts.value), InspectLines(rest, projectId, IDLE),
                  [line] + rest);
    }
  }

  /** Every inspected entry is a line of the crontab. */
  lemma {:induction false} EntriesAreLines(lines: seq<string>, projectId: string, scan: Scan)
    ensures ReadFrom(InspectLines(lines, projectId, scan), lines)
    decreases |lines|
  {
    if lines != [] && !(scan.inside && !IsBegin(projectId, lines[0]) && IsEnd(projectId, lines[0])) {
      var line, rest := lines[0], lines[1..];
      assert lines == [line] + rest;
      var next := NextScan(line, projectId, scan);
      EntriesAreLines(rest, projectId, next);
      ReadFromRest(InspectLines(rest, projectId, next), line, rest);
      if Completes(line, projectId, scan) {
        CompletedEntry(line, rest, projectId, scan);
      }
    }
  }

  /** The line completes an entry. */
  predicate Completes(line: string, projectId: string, scan: Scan) {
    && scan.inside && scan.meta.Some? && !IsBegin(projectId, line) && !IsEnd(projectId, line)
    && ParseMeta(line) == None && line != DISABLED_MARKER
  }

  /** The scan after a line. */
  function NextScan(line: string, projectId: string, scan: Scan): Scan {
    if IsBegin(projectId, line) then IDLE
    else if !scan.inside then scan
    else if ParseMeta(line).Some? then Scan(true, ParseMeta(line), false)
    else if line == DISABLED_MARKER then scan.(pendingDisabled := true)
    else if scan.meta.None? then scan
    else IDLE
  }

  /** From any crontab made of plain lines and blocks: after a managed apply the project reads back one entry for
      each job, in order. The entry's line runs that job's wrapper at the times of its schedule, and is a comment
      exactly for a disabled job. */
  lemma {:induction false} AppliedCommands(st: HostState, doc: seq<Segment>, manifest: NormalizedManifest,
          hashes: Hashes, layout: Layout, crontabPath: Option<string>)
    requires ValidDoc(doc) && SplitLines(st.crontab) == Render(doc)
    requires ValidManifest(manifest, hashes, layout) && Schedulable(manifest.jobs) && CronExpressible(manifest.jobs)
    requires manifest.jobs != []
    ensures var lines := SplitLines(AppliedState(st, manifest, hashes, layout, crontabPath, true).crontab);
      var r := InspectLines(lines, manifest.projectId, START);
      && r.Ok? && |r.value| == |manifest.jobs|
      && forall i :: 0 <= i < |manifest.jobs| ==>
           ReadsAs(r.value[i], manifest.jobs[i], hashes, layout) && r.value[i].rawEntry in lines
  {
    var entries := Entries(manifest.jobs, hashes, layout);
    AppliedReads(st, doc, manifest, hashes, layout, crontabPath);
    EntriesAreLines(SplitLines(AppliedState(st, manifest, hashes, layout, crontabPath, true).crontab),
                    manifest.projectId, START);
    forall i | 0 <= i < |manifest.jobs| ensures ReadsAs(ReadBacks(entries)[i], manifest.jobs[i], hashes, layout) {
      ReadBackAt(entries, i);
      EntriesAt(manifest.jobs, hashes, layout, i);
      EntryReadsAs(manifest.jobs[i], manifest.projectId, hashes, layout);
    }
  }

  /** The job as it is collected from the crontab. The crontab does not tell the artifact id, so the qualified id
      stands in for it. */
  ghost predicate CollectedAs(d: DeployedJob, job: Job, hashes: Hashes, layout: Layout, artifactPath: string) {
    && d.qualifiedId == d.artifactId == job.qualifiedId && d.jobId == job.jobId
    && d.backend == "cron" && d.enabled == job.enabled
    && job.qualifiedId in hashes.jobs && d.desiredHash == hashes.jobs[job.qualifiedId]
    && d.observedHash == Some(d.desiredHash)
    && job.qualifiedId in hashes.definitions && d.definitionHash == Some(hashes.definitions[job.qualifiedId])
    && d.serviceLabel == None && d.artifactPath == Some(artifactPath) && d.wrapperPath == Some(layout(job))
  }

  /** What an apply installed is what is collected afterwards, job by job in manifest order. */
  lemma {:induction false} AppliedCollects(st: HostState, doc: seq<Segment>, manifest: NormalizedManifest,
          hashes: Hashes, layout: Layout, crontabPath: Option<string>, artifactPath: string)
    requires ValidDoc(doc) && SplitLines(st.crontab) == Render(doc)
    requires ValidManifest(manifest, hashes, layout) && Schedulable(manifest.jobs) && CronExpressible(manifest.jobs)
    requires manifest.jobs != []
    ensures var applied := AppliedState(st, manifest, hashes, layout, crontabPath, true);
      var r := CollectCronProjectState(applied.crontab, manifest.projectId, artifactPath);
      && r.Ok? && r.value.projectId == manifest.projectId && r.value.backend == "cron" && r.value.manifestHash == None
      && |r.value.jobs| == |manifest.jobs|
      && forall i :: 0 <= i < |manifest.jobs| ==>
           CollectedAs(r.value.jobs[i], manifest.jobs[i], hashes, layout, artifactPath)
  {
    var applied := AppliedState(st, manifest, hashes, layout, crontabPath, true);
    AppliedCommands(st, doc, manifest, hashes, layout, crontabPath);
    var items := InspectLines(SplitLines(applied.crontab), manifest.projectId, START).value;
    forall i | 0 <= i < |manifest.jobs|
      ensures CollectedAs(CollectedJobs(items, artifactPath)[i], manifest.jobs[i], hashes, layout, artifactPath)
    {
      assert ReadsAs(items[i], manifest.jobs[i], hashes, layout);
      assert ValidJob(manifest.jobs[i], manifest.projectId, hashes, layout);
    }
  }

  // ---- wrappers

  /** The wrappers of a manifest are those of its jobs. */
  lemma {:induction false} WrapperPathsExactly(jobs: seq<Job>, layout: Layout, path: string)
    ensures path in WrapperPaths(jobs, layout) <==> exists i :: 0 <= i < |jobs| && layout(jobs[i]) == path
  {
    if jobs != [] {
      var init := jobs[..|jobs| - 1];
      WrapperPathsExactly(init, layout, path);
      assert forall i :: 0 <= i < |init| ==> init[i] == jobs[i];
    }
  }

  lemma {:induction false} PathsReadBack(jobs: seq<Job>, hashes: Hashes, layout: Layout)
    requires Hashed(jobs, hashes) && Schedulable(jobs) && CronExpressible(jobs)
    ensures InspectedPaths(ReadBacks(Entries(jobs, hashes, layout))) == WrapperPaths(jobs, layout)
  {
    if jobs != [] {
      PathsReadBack(jobs[..|jobs| - 1], hashes, layout);
    }
  }

  /** What a prune removes after a managed apply: the wrappers of exactly the applied jobs, whichever files there
      are. */
  lemma {:induction false} PruneTakesWrappers(st: HostState, doc: seq<Segment>, manifest: NormalizedManifest,
          hashes: Hashes, layout: Layout, crontabPath: Option<string>, path: string)
    requires ValidDoc(doc) && SplitLines(st.crontab) == Render(doc)
    requires ValidManifest(manifest, hashes, layout) && Schedulable(manifest.jobs) && CronExpressible(manifest.jobs)
    requires manifest.jobs != []
    ensures var applied := AppliedState(st, manifest, hashes, layout, crontabPath, true);
      var r := InspectLines(SplitLines(applied.crontab), manifest.projectId, START);
      && r.Ok? && InspectedPaths(r.value) == WrapperPaths(manifest.jobs, layout)
      && (path in InspectedPaths(r.value) <==> exists i :: 0 <= i < |manifest.jobs| && layout(manifest.jobs[i]) == path)
  {
    AppliedReads(st, doc, manifest, hashes, layout, crontabPath);
    PathsReadBack(manifest.jobs, hashes, layout);
    WrapperPathsExactly(manifest.jobs, layout, path);
  }

  // ---- the saved record

  /** The record saved for a job: what is deployed, under which hashes, and where. */
  ghost predicate RecordedAs(d: DeployedJob, job: Job, hashes: Hashes, layout: Layout, crontabPath: Option<string>) {
    && d.qualifiedId == job.qualifiedId && d.jobId == job.jobId && d.artifactId == job.artifactId
    && d.backend == "cron" && d.enabled == job.enabled
    && job.qualifiedId in hashes.jobs && d.desiredHash == hashes.jobs[job.qualifiedId]
    && d.observedHash == Some(d.desiredHash)
    && job.qualifiedId in hashes.definitions && d.definitionHash == Some(hashes.definitions[job.qualifiedId])
    && d.serviceLabel == None && d.artifactPath == crontabPath && d.wrapperPath == Some(layout(job))
  }

  ghost predicate HasRecord(saved: seq<DeployedJob>, job: Job, hashes: Hashes, layout: Layout,
          crontabPath: Option<string>) {
    exists d :: d in saved && RecordedAs(d, job, hashes, layout, crontabPath)
  }

  ghost predicate IsRecord(d: DeployedJob, jobs: seq<Job>, hashes: Hashes, layout: Layout, crontabPath: Option<string>)
    {
    exists i :: 0 <= i < |jobs| && RecordedAs(d, jobs[i], hashes, layout, crontabPath)
  }

  /** The record that an apply saves holds one entry for each job, sorted by id, and nothing else. */
  lemma {:induction false} SavedRecord(manifest: NormalizedManifest, hashes: Hashes, layout: Layout,
          crontabPath: Option<string>)
    requires Hashed(manifest.jobs, hashes)
    ensures var saved := AppliedRecord(manifest, hashes, layout, crontabPath);
      && saved.projectId == manifest.projectId && saved.backend == "cron" && saved.manifestHash == Some(hashes.manifest)
      && |saved.jobs| == |manifest.jobs| && SortedBy(saved.jobs, DeployedLe)
      && (forall i :: 0 <= i < |manifest.jobs| ==>
            HasRecord(saved.jobs, manifest.jobs[i], hashes, layout, crontabPath))
      && (forall d :: d in saved.jobs ==> IsRecord(d, manifest.jobs, hashes, layout, crontabPath))
  {
    var jobs := manifest.jobs;
    var recorded := RecordedJobs(jobs, hashes, layout, crontabPath);
    var saved := Sort(recorded, DeployedLe);
    ChangeLeTotalPreorder();
    SortSorted(recorded, DeployedLe);
    MultisetMembers(recorded, saved);
    forall i | 0 <= i < |jobs| ensures HasRecord(saved, jobs[i], hashes, layout, crontabPath) {
      assert recorded[i] in recorded && RecordedAs(recorded[i], jobs[i], hashes, layout, crontabPath);
    }
    forall d | d in saved ensures IsRecord(d, jobs, hashes, layout, crontabPath) {
      var i :| 0 <= i < |recorded| && recorded[i] == d;
      assert RecordedAs(recorded[i], jobs[i], hashes, layout, crontabPath);
    }
  }

  /** Records come back as they were saved: an apply's until the next one, and an empty baseline after a prune. No other
      project's record changes. */
  lemma {:induction false} RecordsReload(st: HostState, manifest: NormalizedManifest, hashes: Hashes, layout: Layout,
          crontabPath: Option<string>, manage: bool, other: string)
    requires Hashed(manifest.jobs, hashes) && Schedulable(manifest.jobs) && CronExpressible(manifest.jobs)
    ensures var p := manifest.projectId;
      var applied := AppliedState(st, manifest, hashes, layout, crontabPath, manage);
      var pruned := PrunedState(st, p, manage);
      && LoadProjectState(applied.records, p, "cron") == AppliedRecord(manifest, hashes, layout, crontabPath)
      && LoadProjectState(pruned.records, p, "cron") == ProjectState(p, "cron", None, [])
      && (other != p ==>
            && LoadProjectState(applied.records, other, "cron") == LoadProjectState(st.records, other, "cron")
            && LoadProjectState(pruned.records, other, "cron") == LoadProjectState(st.records, other, "cron"))
  {
    var saved := AppliedRecord(manifest, hashes, layout, crontabPath);
    ChangeLeTotalPreorder();
    SortSorted(RecordedJobs(manifest.jobs, hashes, layout, crontabPath), DeployedLe);
    SortOfSorted(saved.jobs, DeployedLe);
  }
}
