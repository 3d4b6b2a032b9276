/** The launchd backend: property lists on disk, launchctl's enabled and loaded labels, and the saved record. */
module Launchd {
  import opened Contracts
  import opened Order
  import opened Plan
  import opened Dependencies
  import opened CronSchedule
  import Calendar
  import LaunchdSchedule

  const BACKEND := "launchd"
  const LABEL_PREFIX := "com.xcron."

  /** What a property list carries: the service label, the ids and hashes of its environment, and when it starts. */
  datatype Plist = Plist(
    serviceLabel: string,
    qualifiedId: string,
    jobId: string,
    desiredHash: string,
    definitionHash: string,
    disabledKey: bool,
    start: Calendar.StartKey)

  /** Property lists by the label that names their file, and launchctl's view of the labels. */
  datatype World = World(plists: map<string, Plist>, disabled: set<string>, loaded: set<string>)

  function LabelOfId(artifactId: string): string { LABEL_PREFIX + artifactId }

  /** `build_launchd_label`. */
  function BuildLaunchdLabel(job: Job): string { LabelOfId(job.artifactId) }

  /** The label of the job with this qualified id. */
  function LabelFor(id: string): string { LabelOfId(ArtifactId(id)) }

  /** The files that the project's glob selects. */
  predicate Selected(serviceLabel: string, projectId: string) {
    LabelOfId(projectId + ".") <= serviceLabel
  }

  // ---- rendering

  predicate Renderable(job: Job, hashes: Hashes) {
    && job.qualifiedId in hashes.jobs && job.qualifiedId in hashes.definitions
    && ValidSchedule(job.schedule) && LaunchdSchedule.LaunchdExpressible(job.schedule)
  }

  ghost function Rendered(job: Job, hashes: Hashes): Plist
    requires Renderable(job, hashes)
  {
    LaunchdSchedule.CompileExactly(job.schedule);
    Plist(BuildLaunchdLabel(job), job.qualifiedId, job.jobId, hashes.jobs[job.qualifiedId],
          hashes.definitions[job.qualifiedId], !job.enabled, LaunchdSchedule.Compile(job.schedule).value)
  }

  // ---- reading back

  function InspectedJob(p: Plist, disabled: set<string>): DeployedJob {
    DeployedJob(p.qualifiedId, if p.jobId != "" then p.jobId else p.qualifiedId, p.qualifiedId, BACKEND,
                p.serviceLabel !in disabled,
                p.desiredHash, Some(p.definitionHash), Some(p.desiredHash), Some(p.serviceLabel), Some(p.serviceLabel),
                None)
  }

  /** Every selected file was rendered for the job whose id its name carries. */
  ghost predicate WellFormed(w: World, projectId: string) {
    forall l :: l in w.plists && Selected(l, projectId) ==>
      w.plists[l].serviceLabel == l && l == LabelFor(w.plists[l].qualifiedId)
  }

  /** A collected state: one deployed job for each selected file, and nothing else. */
  ghost predicate Collected(jobs: seq<DeployedJob>, w: World, projectId: string) {
    && DistinctDeployed(jobs)
    && forall d ::
       d in jobs <==> exists l :: l in w.plists && Selected(l, projectId) && d == InspectedJob(w.plists[l], w.disabled)
  }

  // ---- applying

  function KindOf(changes: seq<Change>, id: string): Option<ChangeKind> {
    if changes == [] then None
    else if changes[|changes| - 1].qualifiedId == id then Some(changes[|changes| - 1].kind)
    else KindOf(changes[..|changes| - 1], id)
  }

  predicate NeedsWriting(changes: seq<Change>, id: string) {
    KindOf(changes, id).Some? && KindOf(changes, id) != Some(Noop)
  }

  /** The first loop stops here: the job has a change other than NOOP, and its schedule does not compile. */
  predicate Blocked(changes: seq<Change>, job: Job) {
    NeedsWriting(changes, job.qualifiedId) && !LaunchdSchedule.LaunchdExpressible(job.schedule)
  }

  predicate Renders(changes: seq<Change>, jobs: seq<Job>) {
    forall i :: 0 <= i < |jobs| ==> !Blocked(changes, jobs[i])
  }

  /** The position of the first blocked job, or the number of jobs. */
  function Stop(changes: seq<Change>, jobs: seq<Job>): (k: nat)
    ensures k <= |jobs| && Renders(changes, jobs[..k])
    ensures k < |jobs| ==> Blocked(changes, jobs[k])
  {
    if jobs == [] then 0
    else
      var k := Stop(changes, jobs[..|jobs| - 1]);
      if k < |jobs| - 1 then
        assert jobs[..|jobs| - 1][..k] == jobs[..k];
        k
      else
        assert jobs[..|jobs| - 1][..k] == jobs[..|jobs| - 1];
        if Blocked(changes, jobs[|jobs| - 1]) then |jobs| - 1 else |jobs|
  }

  /** The files after rendering these jobs: every one with a change other than NOOP is rendered anew. */
  ghost function Written(plists: map<string, Plist>, jobs: seq<Job>, changes: seq<Change>, hashes: Hashes)
    : map<string, Plist>
    requires Hashed(jobs, hashes) && Schedulable(jobs) && Renders(changes, jobs)
  {
    if jobs == [] then plists
    else
      var job := jobs[|jobs| - 1];
      var before := Written(plists, jobs[..|jobs| - 1], changes, hashes);
      if NeedsWriting(changes, job.qualifiedId) then before[BuildLaunchdLabel(job) := Rendered(job, hashes)] else before
  }

  predicate Starts(kind: ChangeKind) { kind in {Create, Update, Drift, Enable} }

  function LabelOfChange(c: Change): string
    requires c.desiredJob.Some? || (c.deployedJob.Some? && c.deployedJob.value.serviceLabel.Some?)
  {
    if c.desiredJob.Some? then BuildLaunchdLabel(c.desiredJob.value) else c.deployedJob.value.serviceLabel.value
  }

  /** A change carries what its branch looks at. */
  predicate Usable(c: Change) {
    && (c.desiredJob.Some? || (c.deployedJob.Some? && c.deployedJob.value.serviceLabel.Some?))
    && (c.kind == Remove ==>
          c.deployedJob.Some? && c.deployedJob.value.serviceLabel.Some? && c.deployedJob.value.artifactPath.Some?)
  }

  /** One turn of the second loop. Reloading is a bootout and a bootstrap; both leave the label loaded. */
  function ApplyChange(w: World, c: Change, manage: bool): World
    requires Usable(c)
  {
    if Starts(c.kind) then
      if manage then w.(loaded := w.loaded + {LabelOfChange(c)}, disabled := w.disabled - {LabelOfChange(c)}) else w
    else if c.kind == Disable then
      if manage then w.(loaded := w.loaded + {LabelOfChange(c)}, disabled := w.disabled + {LabelOfChange(c)}) else w
    else if c.kind == Remove then
      var d := c.deployedJob.value;
      World(w.plists - {d.artifactPath.value}, w.disabled,
            if manage then w.loaded - {d.serviceLabel.value} else w.loaded)
    else w
  }

  function ApplyChanges(w: World, changes: seq<Change>, manage: bool): World
    requires forall i :: 0 <= i < |changes| ==> Usable(changes[i])
  {
    if changes == [] then w
    else ApplyChange(ApplyChanges(w, changes[..|changes| - 1], manage), changes[|changes| - 1], manage)
  }

  /** The world after an apply. If a job is blocked, the files of the jobs before it are written and nothing else
      happens. */
  ghost function Applied(w: World, jobs: seq<Job>, changes: seq<Change>, hashes: Hashes, manage: bool): World
    requires Hashed(jobs, hashes) && Schedulable(jobs) && forall i :: 0 <= i < |changes| ==> Usable(changes[i])
  {
    var k := Stop(changes, jobs);
    var written := w.(plists := Written(w.plists, jobs[..k], changes, hashes));
    if k < |jobs| then written else ApplyChanges(written, changes, manage)
  }

  // ---- the saved record

  /** What an apply records about one job. */
  function RecordedJob(job: Job, hashes: Hashes): DeployedJob
    requires job.qualifiedId in hashes.jobs && job.qualifiedId in hashes.definitions
  {
    DeployedJob(job.qualifiedId, job.jobId, job.artifactId, BACKEND, job.enabled, hashes.jobs[job.qualifiedId],
                Some(hashes.definitions[job.qualifiedId]), Some(hashes.jobs[job.qualifiedId]),
                Some(BuildLaunchdLabel(job)),
                Some(BuildLaunchdLabel(job)), None)
  }

  function RecordedJobs(jobs: seq<Job>, hashes: Hashes): (r: seq<DeployedJob>)
    requires Hashed(jobs, hashes)
    ensures |r| == |jobs| && forall i :: 0 <= i < |jobs| ==> r[i] == RecordedJob(jobs[i], hashes)
  {
    seq(|jobs|, i requires 0 <= i < |jobs| => RecordedJob(jobs[i], hashes))
  }

  function SavedState(manifest: NormalizedManifest, hashes: Hashes): ProjectState
    requires Hashed(manifest.jobs, hashes)
  {
    ProjectState(manifest.projectId, BACKEND, Some(hashes.manifest),
                 Sort(RecordedJobs(manifest.jobs, hashes), DeployedLe))
  }

  // ---- pruning

  function SelectedNames(w: World, projectId: string): set<string> {
    set l | l in w.plists && Selected(l, projectId)
  }

  /** The world without these files; their services are stopped if launchctl is managed. */
  function Without(w: World, names: set<string>, manage: bool): World {
    World(w.plists - names, w.disabled,
          if manage then w.loaded - (set l | l in names && l in w.plists :: w.plists[l].serviceLabel) else w.loaded)
  }

  lemma {:induction false} WithoutOneMore(w: World, names: set<string>, name: string, manage: bool)
    requires name in w.plists
    ensures Without(w, names + {name}, manage).plists == Without(w, names, manage).plists - {name}
    ensures Without(w, names + {name}, manage).loaded ==
      if manage then Without(w, names, manage).loaded - {w.plists[name].serviceLabel} else w.loaded
  {
  }

  /** The world without the files that the project's glob selects. */
  function Pruned(w: World, projectId: string, manage: bool): World {
    Without(w, SelectedNames(w, projectId), manage)
  }

  datatype Failure = WrongBackend(backend: string) | NotRendered(qualifiedId: string, error: Calendar.FieldError)

  /** What an apply that did not go through reports. */
  ghost predicate Refusal(backend: string, manifest: NormalizedManifest, changes: seq<Change>, e: Failure)
    requires Schedulable(manifest.jobs)
  {
    if backend != BACKEND then e == WrongBackend(backend)
    else
      var k := Stop(changes, manifest.jobs);
      && k < |manifest.jobs| && LaunchdSchedule.Compile(manifest.jobs[k].schedule).Err?
      && e == NotRendered(manifest.jobs[k].qualifiedId, LaunchdSchedule.Compile(manifest.jobs[k].schedule).error)
  }

  lemma {:induction false} StopIs(changes: seq<Change>, jobs: seq<Job>, k: nat)
    requires k <= |jobs| && Renders(changes, jobs[..k]) && (k < |jobs| ==> Blocked(changes, jobs[k]))
    ensures Stop(changes, jobs) == k
  {
    RendersBefore(changes, jobs, k);
    RendersBefore(changes, jobs, Stop(changes, jobs));
  }

  lemma {:induction false} RendersBefore(changes: seq<Change>, jobs: seq<Job>, k: nat)
    requires k <= |jobs| && Renders(changes, jobs[..k])
    ensures forall i :: 0 <= i < k ==> !Blocked(changes, jobs[i])
  {
    forall i | 0 <= i < k ensures !Blocked(changes, jobs[i]) {
      assert jobs[..k][i] == jobs[i];
    }
  }

  lemma {:induction false} OneMoreRenders(changes: seq<Change>, jobs: seq<Job>, i: nat)
    requires i < |jobs| && Renders(changes, jobs[..i]) && !Blocked(changes, jobs[i])
    ensures Renders(changes, jobs[..i + 1]) && jobs[..i + 1][..i] == jobs[..i]
  {
    assert jobs[..i + 1] == jobs[..i] + [jobs[i]];
  }

  class Host {
    var plists: map<string, Plist>
    var disabled: set<string>
    var loaded: set<string>
    var records: map<string, ProjectState>

    constructor (w: World, records: map<string, ProjectState>)
      ensures State() == w && this.records == records
    {
      plists, disabled, loaded, this.records := w.plists, w.disabled, w.loaded, records;
    }

    function State(): World
      reads this
    {
      World(plists, disabled, loaded)
    }

    method Bootout(serviceLabel: string)
      modifies this`loaded
      ensures loaded == old(loaded) - {serviceLabel}
    {
      loaded := loaded - {serviceLabel};
    }

    method Bootstrap(serviceLabel: string)
      modifies this`loaded
      ensures loaded == old(loaded) + {serviceLabel}
    {
      loaded := loaded + {serviceLabel};
    }

    /** The first loop of `apply_launchd_plan`: a schedule that does not compile ends it. */
    method RenderJobs(jobs: seq<Job>, changes: seq<Change>, hashes: Hashes) returns (failure: Option<Failure>)
      requires Hashed(jobs, hashes) && Schedulable(jobs)
      modifies this`plists
      ensures plists == Written(old(plists), jobs[..Stop(changes, jobs)], changes, hashes)
      ensures failure.None? <==> Stop(changes, jobs) == |jobs|
      ensures failure.Some? ==> var job := jobs[Stop(changes, jobs)];
        LaunchdSchedule.Compile(job.schedule).Err? &&
        failure.value == NotRendered(job.qualifiedId, LaunchdSchedule.Compile(job.schedule).error)
    {
      for i := 0 to |jobs|
        invariant Renders(changes, jobs[..i])
        invariant plists == Written(old(plists), jobs[..i], changes, hashes)
      {
        var job := jobs[i];
        if NeedsWriting(changes, job.qualifiedId) {
          var start := LaunchdSchedule.RenderLaunchdSchedule(job.schedule);
          if start.Err? {
            StopIs(changes, jobs, i);
            return Some(NotRendered(job.qualifiedId, start.error));
          }
          OneMoreRenders(changes, jobs, i);
          plists := plists[BuildLaunchdLabel(job) :=
            Plist(BuildLaunchdLabel(job), job.qualifiedId, job.jobId, hashes.jobs[job.qualifiedId],
                  hashes.definitions[job.qualifiedId], !job.enabled, start.value)];
        } else {
          OneMoreRenders(changes, jobs, i);
        }
      }
      StopIs(changes, jobs, |jobs|);
      return None;
    }

    /** `apply_launchd_plan`: render, then go through the changes, then save the record. A schedule that does not
        compile leaves the files of the jobs before it behind, and neither launchctl nor the record hears of it. */
    method ApplyLaunchdPlan(backend: string, manifest: NormalizedManifest, changes: seq<Change>, hashes: Hashes,
            manage: bool)
      returns (r: Result<ProjectState, Failure>)
      requires Hashed(manifest.jobs, hashes) && Schedulable(manifest.jobs)
      requires forall i :: 0 <= i < |changes| ==> Usable(changes[i])
      modifies this
      ensures r.Ok? <==> backend == BACKEND && Renders(changes, manifest.jobs)
      ensures State() ==
        if backend != BACKEND then old(State()) else Applied(old(State()), manifest.jobs, changes, hashes, manage)
      ensures r.Err? ==> records == old(records) && Refusal(backend, manifest, changes, r.error)
      ensures r.Ok? ==>
        r.value == SavedState(manifest, hashes) && records == old(records)[manifest.projectId := r.value]
    {
      if backend != BACKEND {
        return Err(WrongBackend(backend));
      }
      var jobs := manifest.jobs;
      ghost var k := Stop(changes, jobs);
      assert k == |jobs| <==> Renders(changes, jobs) by {
        assert k == |jobs| ==> jobs[..k] == jobs;
      }
      var failure := RenderJobs(jobs, changes, hashes);
      if failure.Some? {
        return Err(failure.value);
      }
      ghost var written := State();
      for i := 0 to |changes|
        invariant State() == ApplyChanges(written, changes[..i], manage)
        invariant records == old(records)
      {
        assert changes[..i + 1][..i] == changes[..i];
        ApplyOne(changes[i], manage);
      }
      assert changes[..|changes|] == changes;
      var state := SavedState(manifest, hashes);
      records := records[manifest.projectId := state];
      return Ok(state);
    }

    method ApplyOne(c: Change, manage: bool)
      requires Usable(c)
      modifies this`plists, this`disabled, this`loaded
      ensures State() == ApplyChange(old(State()), c, manage)
    {
      var serviceLabel := LabelOfChange(c);
      if Starts(c.kind) {
        if manage {
          Bootout(serviceLabel);
          Bootstrap(serviceLabel);
          disabled := disabled - {serviceLabel};
          assert loaded == old(loaded) + {serviceLabel};
        }
      } else if c.kind == Disable {
        if manage {
          Bootout(serviceLabel);
          Bootstrap(serviceLabel);
          disabled := disabled + {serviceLabel};
          assert loaded == old(loaded) + {serviceLabel};
        }
      } else if c.kind == Remove {
        var d := c.deployedJob.value;
        if manage {
          Bootout(d.serviceLabel.value);
        }
        plists := plists - {d.artifactPath.value};
      }
    }

    /** `prune_launchd_project`. */
    method Prune(projectId: string, manage: bool)
      modifies this`plists, this`loaded
      ensures State() == Pruned(old(State()), projectId, manage)
    {
      var names := SortedNames(SelectedNames(State(), projectId));
      ghost var start := State();
      ghost var gone: set<string> := {};
      for i := 0 to |names|
        invariant forall k :: 0 <= k < i ==> names[k] in gone
        invariant forall l :: l in gone ==> l in names[..i]
        invariant State() == Without(start, gone, manage)
      {
        assert names[i] in names && names[i] !in names[..i];
        WithoutOneMore(start, gone, names[i], manage);
        if manage {
          Bootout(plists[names[i]].serviceLabel);
        }
        plists := plists - {names[i]};
        gone := gone + {names[i]};
      }
      assert gone == SelectedNames(start, projectId);
    }

    /** `collect_launchd_project_state`: the selected files in file order. */
    method CollectProjectState(projectId: string) returns (state: ProjectState)
      requires WellFormed(State(), projectId)
      ensures Collected(state.jobs, State(), projectId)
      ensures state.projectId == projectId && state.backend == BACKEND && state.manifestHash.None?
    {
      var names := SortedNames(set l | l in plists && Selected(l, projectId));
      var jobs: seq<DeployedJob> := [];
      for i := 0 to |names|
        invariant |jobs| == i
        invariant forall k :: 0 <= k < i ==> names[k] in plists && jobs[k] == InspectedJob(plists[names[k]], disabled)
      {
        assert names[i] in names;
        jobs := jobs + [InspectedJob(plists[names[i]], disabled)];
      }
      CollectedFiles(names, jobs, State(), projectId);
      state := ProjectState(projectId, BACKEND, None, jobs);
    }
  }

  lemma {:induction false} CollectedFiles(names: seq<string>, jobs: seq<DeployedJob>, w: World, projectId: string)
    requires WellFormed(w, projectId) && Distinct(names) && |jobs| == |names|
    requires forall l :: l in names <==> l in w.plists && Selected(l, projectId)
    requires forall k :: 0 <= k < |names| ==>
      names[k] in w.plists && jobs[k] == InspectedJob(w.plists[names[k]], w.disabled)
    ensures Collected(jobs, w, projectId)
  {
    forall i, j | 0 <= i < j < |jobs| ensures jobs[i].qualifiedId != jobs[j].qualifiedId {
      assert names[i] in names && names[j] in names;
      assert names[i] == LabelFor(jobs[i].qualifiedId) && names[j] == LabelFor(jobs[j].qualifiedId);
    }
    forall d
      ensures d in jobs <==>
        exists l :: l in w.plists && Selected(l, projectId) && d == InspectedJob(w.plists[l], w.disabled)
    {
      if d in jobs {
        var k :| 0 <= k < |jobs| && jobs[k] == d;
        assert names[k] in names;
      }
      if l :| l in w.plists && Selected(l, projectId) && d == InspectedJob(w.plists[l], w.disabled) {
        assert l in names;
        var k :| 0 <= k < |names| && names[k] == l;
        assert jobs[k] == d;
      }
    }
  }
}
