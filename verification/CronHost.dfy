/** The cron backend as a whole: the user's crontab, the saved records of what was deployed, and the
    apply and prune operations that change both. */
module CronHost {
  import opened Contracts
  import opened Order
  import opened Text
  import opened CronSchedule
  import opened CronText
  import opened CronEdits
  import opened CronDocument
  import opened Plan

  const BACKEND := "cron"

  /** Where the wrapper script of a job is written. */
  type Layout = Job -> string

  /** What validation, normalization and hashing guarantee about one manifest. */
  ghost predicate ValidManifest(manifest: NormalizedManifest, hashes: Hashes, layout: Layout) {
    && IsToken(manifest.projectId)
    && DistinctJobs(manifest.jobs) && Hashed(manifest.jobs, hashes)
    && forall i :: 0 <= i < |manifest.jobs| ==> ValidJob(manifest.jobs[i], manifest.projectId, hashes, layout)
  }

  ghost predicate ValidJob(job: Job, projectId: string, hashes: Hashes, layout: Layout) {
    && job.projectId == projectId
    && IsToken(job.qualifiedId) && IsToken(job.jobId)
    && job.qualifiedId in hashes.jobs && IsToken(hashes.jobs[job.qualifiedId])
    && job.qualifiedId in hashes.definitions && IsToken(hashes.definitions[job.qualifiedId])
    && ValidSchedule(job.schedule) && OneLine(job.schedule.value)
    && PathText(layout(job))
  }

  predicate CronExpressible(jobs: seq<Job>)
    requires Schedulable(jobs)
  {
    forall i :: 0 <= i < |jobs| ==> !CronIncompatible(jobs[i].schedule)
  }

  // ---- printing

  function EntryOf(job: Job, hashes: Hashes, layout: Layout): Entry
    requires job.qualifiedId in hashes.jobs && job.qualifiedId in hashes.definitions
    requires ValidSchedule(job.schedule) && !CronIncompatible(job.schedule)
  {
    RenderFailsExactly(job.schedule);
    Entry(Meta(job.qualifiedId, job.jobId, hashes.jobs[job.qualifiedId], hashes.definitions[job.qualifiedId]),
          RenderCronSchedule(job.schedule).value, layout(job), job.enabled)
  }

  function Entries(jobs: seq<Job>, hashes: Hashes, layout: Layout): (entries: seq<Entry>)
    requires Hashed(jobs, hashes) && Schedulable(jobs) && CronExpressible(jobs)
    ensures |entries| == |jobs|
  {
    if jobs == [] then [] else Entries(jobs[..|jobs| - 1], hashes, layout) + [EntryOf(jobs[|jobs| - 1], hashes, layout)]
  }

  lemma {:induction false} EntriesAt(jobs: seq<Job>, hashes: Hashes, layout: Layout, i: nat)
    requires Hashed(jobs, hashes) && Schedulable(jobs) && CronExpressible(jobs)
    requires i < |jobs|
    ensures Entries(jobs, hashes, layout)[i] == EntryOf(jobs[i], hashes, layout)
  {
    if i < |jobs| - 1 {
      EntriesAt(jobs[..|jobs| - 1], hashes, layout, i);
    }
  }

  function WrapperPaths(jobs: seq<Job>, layout: Layout): set<string> {
    if jobs == [] then {} else WrapperPaths(jobs[..|jobs| - 1], layout) + {layout(jobs[|jobs| - 1])}
  }

  lemma {:induction false} WrapperPathsNext(jobs: seq<Job>, n: nat, layout: Layout)
    requires n < |jobs|
    ensures WrapperPaths(jobs[..n + 1], layout) == WrapperPaths(jobs[..n], layout) + {layout(jobs[n])}
  {
    assert jobs[..n + 1][..n] == jobs[..n];
  }

  function InspectedPaths(items: seq<Inspection>): set<string> {
    if items == [] then {} else InspectedPaths(items[..|items| - 1]) + {items[|items| - 1].wrapperPath}
  }

  lemma {:induction false} BodySnoc(entries: seq<Entry>, e: Entry)
    ensures BodyLines(entries + [e]) == BodyLines(entries) + EntryLines(e)
  {
    assert (entries + [e])[..|entries|] == entries;
  }

  lemma {:induction false} OneMorePrintable(jobs: seq<Job>, hashes: Hashes, i: nat)
    requires Hashed(jobs, hashes) && Schedulable(jobs) && i < |jobs|
    requires Schedulable(jobs[..i]) && CronExpressible(jobs[..i])
    requires !CronIncompatible(jobs[i].schedule)
    ensures Hashed(jobs[..i + 1], hashes) && Schedulable(jobs[..i + 1]) && CronExpressible(jobs[..i + 1])
  {
    assert jobs[..i + 1] == jobs[..i] + [jobs[i]];
  }

  /** What the printer's loop leaves: the lines of all jobs, or the error of the first that cannot be printed. */
  ghost predicate PrintedJobs(jobs: seq<Job>, hashes: Hashes, layout: Layout, r: Result<seq<string>, RenderError>,
          before: set<string>, after: set<string>)
    requires Hashed(jobs, hashes) && Schedulable(jobs)
  {
    && (r.Ok? <==> CronExpressible(jobs))
    && (r.Ok? ==> r.value == BodyLines(Entries(jobs, hashes, layout)) && after == before + WrapperPaths(jobs, layout))
    && (r.Err? ==> StoppedEarly(jobs, r.error, before, after, layout))
  }

  /** The printer stopped at the first job that cron cannot express, having written the wrappers up to and including
      its. */
  ghost predicate Stopped(jobs: seq<Job>, k: nat, error: RenderError, before: set<string>, after: set<string>,
          layout: Layout)
    requires Schedulable(jobs)
  {
    && k < |jobs| && CronIncompatible(jobs[k].schedule)
    && (forall i :: 0 <= i < k ==> !CronIncompatible(jobs[i].schedule))
    && error == CannotTranslate(jobs[k].schedule.value)
    && after == before + WrapperPaths(jobs[..k + 1], layout)
  }

  ghost predicate StoppedEarly(jobs: seq<Job>, error: RenderError, before: set<string>, after: set<string>,
          layout: Layout)
    requires Schedulable(jobs)
  {
    exists k: nat :: Stopped(jobs, k, error, before, after, layout)
  }

  lemma {:induction false} StopsAt(jobs: seq<Job>, k: nat, before: set<string>, after: set<string>, layout: Layout)
    requires Schedulable(jobs) && k < |jobs| && CronIncompatible(jobs[k].schedule)
    requires Schedulable(jobs[..k]) && CronExpressible(jobs[..k])
    requires after == before + WrapperPaths(jobs[..k], layout) + {layout(jobs[k])}
    ensures StoppedEarly(jobs, CannotTranslate(jobs[k].schedule.value), before, after, layout)
  {
    WrapperPathsNext(jobs, k, layout);
    assert forall i :: 0 <= i < k ==> jobs[..k][i] == jobs[i];
    assert Stopped(jobs, k, CannotTranslate(jobs[k].schedule.value), before, after, layout);
  }

  /** The lines of one more job. */
  lemma {:induction false} EntriesSnoc(jobs: seq<Job>, hashes: Hashes, layout: Layout, i: nat)
    requires i < |jobs|
    requires Hashed(jobs[..i], hashes) && Schedulable(jobs[..i]) && CronExpressible(jobs[..i])
    requires Hashed(jobs[..i + 1], hashes) && Schedulable(jobs[..i + 1]) && CronExpressible(jobs[..i + 1])
    ensures jobs[i].qualifiedId in hashes.jobs && jobs[i].qualifiedId in hashes.definitions
    ensures ValidSchedule(jobs[i].schedule) && !CronIncompatible(jobs[i].schedule)
    ensures BodyLines(Entries(jobs[..i + 1], hashes, layout)) ==
      BodyLines(Entries(jobs[..i], hashes, layout)) + EntryLines(EntryOf(jobs[i], hashes, layout))
  {
    assert jobs[..i + 1][i] == jobs[i] && jobs[..i + 1][..i] == jobs[..i];
    BodySnoc(Entries(jobs[..i], hashes, layout), EntryOf(jobs[i], hashes, layout));
  }

  /** The lines printed for the first `i` jobs. */
  ghost predicate PrintedSoFar(jobs: seq<Job>, i: nat, hashes: Hashes, layout: Layout, lines: seq<string>)
    requires i <= |jobs|
  {
    && Hashed(jobs[..i], hashes) && Schedulable(jobs[..i]) && CronExpressible(jobs[..i])
    && lines == BodyLines(Entries(jobs[..i], hashes, layout))
  }

  lemma {:induction false} PrintNext(jobs: seq<Job>, i: nat, hashes: Hashes, layout: Layout, lines: seq<string>)
    requires Hashed(jobs, hashes) && Schedulable(jobs) && i < |jobs| && !CronIncompatible(jobs[i].schedule)
    requires PrintedSoFar(jobs, i, hashes, layout, lines)
    ensures PrintedSoFar(jobs, i + 1, hashes, layout, lines + EntryLines(EntryOf(jobs[i], hashes, layout)))
  {
    OneMorePrintable(jobs, hashes, i);
    EntriesSnoc(jobs, hashes, layout, i);
  }

  function EntriesBody(entries: seq<Entry>): Option<seq<string>> {
    if entries == [] then None else Some(BodyLines(entries))
  }

  // ---- deployed records

  /** One inspected entry as a deployed job. */
  function CollectedJob(item: Inspection, artifactPath: string): DeployedJob {
    DeployedJob(item.qualifiedId, if item.jobId != "" then item.jobId else item.qualifiedId, item.qualifiedId, BACKEND,
                item.enabled, item.desiredHash, Some(item.definitionHash), Some(item.desiredHash), None,
                Some(artifactPath), Some(item.wrapperPath))
  }

  function CollectedJobs(items: seq<Inspection>, artifactPath: string): (jobs: seq<DeployedJob>)
    ensures |jobs| == |items|
    ensures forall i :: 0 <= i < |items| ==> jobs[i] == CollectedJob(items[i], artifactPath)
  {
    seq(|items|, i requires 0 <= i < |items| => CollectedJob(items[i], artifactPath))
  }

  /** `collect_cron_project_state` on the crontab's text. */
  function CollectCronProjectState(crontab: string, projectId: string, artifactPath: string)
    : Result<ProjectState, CronError> {
    match InspectLines(SplitLines(crontab), projectId, START)
    case Err(e) => Err(e)
    case Ok(items) => Ok(ProjectState(projectId, BACKEND, None, CollectedJobs(items, artifactPath)))
  }

  /** What an apply records about one job. */
  function RecordedJob(job: Job, hashes: Hashes, layout: Layout, crontabPath: Option<string>): DeployedJob
    requires job.qualifiedId in hashes.jobs && job.qualifiedId in hashes.definitions
  {
    DeployedJob(job.qualifiedId, job.jobId, job.artifactId, BACKEND, job.enabled, hashes.jobs[job.qualifiedId],
                Some(hashes.definitions[job.qualifiedId]), Some(hashes.jobs[job.qualifiedId]), None, crontabPath,
                Some(layout(job)))
  }

  function RecordedJobs(jobs: seq<Job>, hashes: Hashes, layout: Layout, crontabPath: Option<string>)
    : (r: seq<DeployedJob>)
    requires Hashed(jobs, hashes)
    ensures |r| == |jobs|
    ensures forall i :: 0 <= i < |jobs| ==> r[i] == RecordedJob(jobs[i], hashes, layout, crontabPath)
  {
    seq(|jobs|, i requires 0 <= i < |jobs| => RecordedJob(jobs[i], hashes, layout, crontabPath))
  }

  function AppliedRecord(manifest: NormalizedManifest, hashes: Hashes, layout: Layout, crontabPath: Option<string>)
    : ProjectState
    requires Hashed(manifest.jobs, hashes)
  {
    ProjectState(manifest.projectId, BACKEND, Some(hashes.manifest),
                 Sort(RecordedJobs(manifest.jobs, hashes, layout, crontabPath), DeployedLe))
  }

  /** `load_project_state`: a missing file is an empty baseline, and jobs are sorted again on the way in. */
  function LoadProjectState(records: map<string, ProjectState>, projectId: string, backend: string): ProjectState {
    if projectId in records then records[projectId].(jobs := Sort(records[projectId].jobs, DeployedLe))
    else ProjectState(projectId, backend, None, [])
  }

  lemma {:induction false} ManifestBlock(manifest: NormalizedManifest, hashes: Hashes, layout: Layout)
    requires ValidManifest(manifest, hashes, layout) && Schedulable(manifest.jobs) && CronExpressible(manifest.jobs)
    ensures BodyText(manifest.projectId, EntriesBody(Entries(manifest.jobs, hashes, layout))) ==
      if manifest.jobs == [] then None
      else Some(BlockText(BlockLines(manifest.jobs[0].projectId, Entries(manifest.jobs, hashes, layout))))
  {
    assert manifest.jobs != [] ==> ValidJob(manifest.jobs[0], manifest.projectId, hashes, layout);
  }

  // ---- the operations

  /** The crontab and the record files as one value. */
  datatype HostState = HostState(crontab: string, records: map<string, ProjectState>)

  datatype Failure =
    | WrongBackend(backend: string)
    | Unreadable(error: CronError)
    | NotExpressible
    | NotPrintable(reason: RenderError)

  ghost function AppliedState(st: HostState, manifest: NormalizedManifest, hashes: Hashes, layout: Layout,
          crontabPath: Option<string>, manage: bool): HostState
    requires Hashed(manifest.jobs, hashes) && Schedulable(manifest.jobs) && CronExpressible(manifest.jobs)
  {
    var body := EntriesBody(Entries(manifest.jobs, hashes, layout));
    var edited := EditedText(st.crontab, manifest.projectId, BodyText(manifest.projectId, body));
    HostState(if manage then edited else st.crontab,
              st.records[manifest.projectId := AppliedRecord(manifest, hashes, layout, crontabPath)])
  }

  ghost function PrunedState(st: HostState, projectId: string, manage: bool): HostState {
    HostState(if manage then EditedText(st.crontab, projectId, None) else st.crontab, st.records - {projectId})
  }

  /** What a refused apply reports, and the wrappers it has written by then: those of the jobs up to and including the
      first one that cron cannot express. */
  ghost predicate Refusal(backend: string, jobs: seq<Job>, e: Failure, before: set<string>, after: set<string>,
          layout: Layout)
    requires Schedulable(jobs)
  {
    if backend != BACKEND then e == WrongBackend(backend) && after == before
    else e.NotPrintable? && StoppedEarly(jobs, e.reason, before, after, layout)
  }

  class Host {
    var crontab: string
    var records: map<string, ProjectState>
    var wrappers: set<string>
    const crontabPath: Option<string>
    const layout: Layout

    constructor (crontab: string, crontabPath: Option<string>, layout: Layout)
      ensures State() == HostState(crontab, map[]) && wrappers == {}
      ensures this.crontabPath == crontabPath && this.layout == layout
    {
      this.crontab, this.records, this.wrappers := crontab, map[], {};
      this.crontabPath, this.layout := crontabPath, layout;
    }

    function State(): HostState
      reads this
    {
      HostState(crontab, records)
    }

    /** One turn of the printer's loop: write the wrapper, then print the job's lines. */
    method RenderJob(job: Job, hashes: Hashes) returns (r: Result<seq<string>, RenderError>)
      requires job.qualifiedId in hashes.jobs && job.qualifiedId in hashes.definitions && ValidSchedule(job.schedule)
      modifies this`wrappers
      ensures wrappers == old(wrappers) + {layout(job)}
      ensures r.Ok? <==> !CronIncompatible(job.schedule)
      ensures r.Ok? ==> r.value == EntryLines(EntryOf(job, hashes, layout))
      ensures r.Err? ==> r.error == CannotTranslate(job.schedule.value)
    {
      var wrapperPath := layout(job);
      wrappers := wrappers + {wrapperPath};
      var lines := [MetaLine(Meta(job.qualifiedId, job.jobId, hashes.jobs[job.qualifiedId],
                                  hashes.definitions[job.qualifiedId]))];
      RenderFailsExactly(job.schedule);
      var schedule := RenderCronSchedule(job.schedule);
      if schedule.Err? {
        return Err(schedule.error);
      }
      var command := schedule.value + (" " + wrapperPath);
      if job.enabled {
        lines := lines + [command];
      } else {
        lines := lines + [DISABLED_MARKER];
        lines := lines + ["# " + command];
      }
      return Ok(lines);
    }

    /** The loop of `render_cron_block`: wrappers and lines job by job, up to the first job that cannot be printed. */
    method RenderJobs(jobs: seq<Job>, hashes: Hashes) returns (r: Result<seq<string>, RenderError>)
      requires Hashed(jobs, hashes) && Schedulable(jobs)
      modifies this`wrappers
      ensures PrintedJobs(jobs, hashes, layout, r, old(wrappers), wrappers)
    {
      var lines := [];
      for i := 0 to |jobs|
        invariant PrintedSoFar(jobs, i, hashes, layout, lines)
        invariant wrappers == old(wrappers) + WrapperPaths(jobs[..i], layout)
      {
        var group := RenderJob(jobs[i], hashes);
        if group.Err? {
          StopsAt(jobs, i, old(wrappers), wrappers, layout);
          return Err(group.error);
        }
        WrapperPathsNext(jobs, i, layout);
        PrintNext(jobs, i, hashes, layout, lines);
        lines := lines + group.value;
      }
      assert jobs[..|jobs|] == jobs;
      return Ok(lines);
    }

    /** `render_cron_block`: the jobs' lines between the markers of the first job's project. */
    method RenderCronBlock(jobs: seq<Job>, hashes: Hashes) returns (r: Result<string, RenderError>)
      requires Hashed(jobs, hashes) && Schedulable(jobs)
      modifies this`wrappers
      ensures r.Ok? <==> jobs != [] && CronExpressible(jobs)
      ensures r.Ok? ==> r.value == BlockText(BlockLines(jobs[0].projectId, Entries(jobs, hashes, layout)))
      ensures r.Ok? ==> wrappers == old(wrappers) + WrapperPaths(jobs, layout)
      ensures jobs == [] ==> r == Err(NoJobs) && wrappers == old(wrappers)
      ensures r.Err? && jobs != [] ==> StoppedEarly(jobs, r.error, old(wrappers), wrappers, layout)
    {
      if jobs == [] {
        return Err(NoJobs);
      }
      var projectId := jobs[0].projectId;
      var body := RenderJobs(jobs, hashes);
      if body.Err? {
        return Err(body.error);
      }
      var lines := [BeginLine(projectId)] + body.value + [EndMarker(projectId)];
      return Ok(JoinLines(lines) + "\n");
    }

    /** `apply_cron_plan`. */
    method ApplyCronPlan(backend: string, manifest: NormalizedManifest, hashes: Hashes, manage: bool)
      returns (r: Result<ProjectState, Failure>)
      requires ValidManifest(manifest, hashes, layout) && Schedulable(manifest.jobs)
      modifies this
      ensures r.Ok? <==> backend == BACKEND && CronExpressible(manifest.jobs)
      ensures r.Err? ==>
        State() == old(State()) && Refusal(backend, manifest.jobs, r.error, old(wrappers), wrappers, layout)
      ensures r.Ok? ==> State() == AppliedState(old(State()), manifest, hashes, layout, crontabPath, manage)
      ensures r.Ok? ==> r.value == records[manifest.projectId]
      ensures r.Ok? ==> wrappers == old(wrappers) + WrapperPaths(manifest.jobs, layout)
    {
      if backend != BACKEND {
        return Err(WrongBackend(backend));
      }
      var current := if manage then crontab else "";
      var replacement := None;
      if manifest.jobs != [] {
        var block := RenderCronBlock(manifest.jobs, hashes);
        if block.Err? {
          return Err(NotPrintable(block.error));
        }
        replacement := Some(block.value);
      }
      ManifestBlock(manifest, hashes, layout);
      var content := ReplaceProjectBlock(current, manifest.projectId, replacement);
      if manage {
        crontab := content;
      }
      var state := AppliedRecord(manifest, hashes, layout, crontabPath);
      records := records[manifest.projectId := state];
      return Ok(state);
    }

    /** The service's apply: status first, then the schedule check, then the backend. */
    method Apply(manifest: NormalizedManifest, hashes: Hashes, manage: bool) returns (r: Result<ProjectState, Failure>)
      requires ValidManifest(manifest, hashes, layout) && Schedulable(manifest.jobs)
      modifies this
      ensures State() == AfterApply(old(State()), manifest, hashes, layout, crontabPath, manage)
      ensures r.Ok?
        <==> CronExpressible(manifest.jobs) && InspectLines(SplitLines(old(crontab)), manifest.projectId, START).Ok?
      ensures r.Ok? ==>
        && r.value == AppliedRecord(manifest, hashes, layout, crontabPath)
        && wrappers == old(wrappers) + WrapperPaths(manifest.jobs, layout)
      ensures r.Err? ==>
        && wrappers == old(wrappers)
        && r.error == match InspectLines(SplitLines(old(crontab)), manifest.projectId, START)
                      case Err(e) => Unreadable(e)
                      case Ok(_) => NotExpressible
    {
      var inspections := InspectCronProject(crontab, manifest.projectId);
      if inspections.Err? {
        return Err(Unreadable(inspections.error));
      }
      if !CronExpressible(manifest.jobs) {
        return Err(NotExpressible);
      }
      r := ApplyCronPlan(BACKEND, manifest, hashes, manage);
    }

    /** The wrapper files of the inspected entries go; a file that is already gone is no error. */
    method DropWrappers(items: seq<Inspection>)
      modifies this`wrappers
      ensures wrappers == old(wrappers) - InspectedPaths(items)
    {
      for i := 0 to |items|
        invariant wrappers == old(wrappers) - InspectedPaths(items[..i])
      {
        assert items[..i + 1][..i] == items[..i];
        wrappers := wrappers - {items[i].wrapperPath};
      }
      assert items[..|items|] == items;
    }

    /** The service's prune: the backend takes the block out and drops the wrappers, then the record goes. */
    method Prune(projectId: string, manage: bool) returns (r: Result<seq<Inspection>, Failure>)
      modifies this
      ensures State() == AfterPrune(old(State()), projectId, manage)
      ensures r.Ok? <==> InspectLines(SplitLines(old(crontab)), projectId, START).Ok?
      ensures r.Ok? ==> InspectLines(SplitLines(old(crontab)), projectId, START) == Ok(r.value)
      ensures r.Ok? ==> wrappers == old(wrappers) - InspectedPaths(r.value)
      ensures r.Err? ==>
        && wrappers == old(wrappers)
        && InspectLines(SplitLines(old(crontab)), projectId, START).Err?
        && r.error == Unreadable(InspectLines(SplitLines(old(crontab)), projectId, START).error)
    {
      var inspections := InspectCronProject(crontab, projectId);
      if inspections.Err? {
        return Err(Unreadable(inspections.error));
      }
      var items := inspections.value;
      var content := ReplaceProjectBlock(crontab, projectId, None);
      if manage {
        crontab := content;
      }
      DropWrappers(items);
      records := records - {projectId};
      return Ok(items);
    }
  }

  ghost function AfterApply(st: HostState, manifest: NormalizedManifest, hashes: Hashes, layout: Layout,
          crontabPath: Option<string>, manage: bool): HostState
    requires Hashed(manifest.jobs, hashes) && Schedulable(manifest.jobs)
  {
    if InspectLines(SplitLines(st.crontab), manifest.projectId, START).Err? || !CronExpressible(manifest.jobs) then st
    else AppliedState(st, manifest, hashes, layout, crontabPath, manage)
  }

  ghost function AfterPrune(st: HostState, projectId: string, manage: bool): HostState {
    if InspectLines(SplitLines(st.crontab), projectId, START).Err? then st else PrunedState(st, projectId, manage)
  }
}
