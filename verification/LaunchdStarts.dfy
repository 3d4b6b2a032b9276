/** When installed jobs start: the schedule in the manifest against the file that launchd reads. */
module LaunchdStarts {
  import opened Contracts
  import opened CronSchedule
  import opened Plan
  import opened Manifest
  import opened Launchd
  import opened LaunchdSettling
  import Text
  import Calendar
  import LaunchdSchedule

  /** The start key gives the moments that the schedule stands for. */
  ghost predicate StartsAs(schedule: Schedule, start: Calendar.StartKey) {
    match schedule.kind
    case EverySchedule =>
      EveryValue(schedule.value) && start == Calendar.StartInterval(LaunchdSchedule.ParseEverySeconds(schedule.value))
    case CronSchedule =>
      |Text.Fields(schedule.value)| == 5 && LaunchdSchedule.CronAnswer(Text.Fields(schedule.value), start)
  }

  /** The file of a job: it carries the job's ids and hashes, and starts it by its schedule. */
  ghost predicate FileOf(p: Plist, job: Job, hashes: Hashes) {
    && p.serviceLabel == LabelFor(job.qualifiedId) && p.qualifiedId == job.qualifiedId && p.jobId == job.jobId
    && job.qualifiedId in hashes.jobs && p.desiredHash == hashes.jobs[job.qualifiedId]
    && job.qualifiedId in hashes.definitions && p.definitionHash == hashes.definitions[job.qualifiedId]
    && p.disabledKey == !job.enabled && StartsAs(job.schedule, p.start)
  }

  lemma {:induction false} RenderedFile(job: Job, hashes: Hashes)
    requires Renderable(job, hashes) && job.artifactId == ArtifactId(job.qualifiedId)
    ensures FileOf(Rendered(job, hashes), job, hashes)
  {
    LaunchdSchedule.CompileExactly(job.schedule);
  }

  /** After an apply that goes through, every changed job has its own file, which starts it by its schedule. */
  lemma {:induction false} ChangedJobStarts(w: World, manifest: NormalizedManifest, hashes: Hashes,
          changes: seq<Change>, id: string)
    requires ValidManifest(manifest, hashes) && PlanFor(changes, w, manifest, hashes) && Renders(changes, manifest.jobs)
    requires id in DesiredIndex(manifest.jobs) && KindOf(changes, id) != Some(Noop)
    ensures var t, l := AppliedPlan(w, manifest, hashes, changes), LabelFor(id);
      l in t.plists && FileOf(t.plists[l], DesiredIndex(manifest.jobs)[id], hashes)
  {
    PlannedKind(changes, w, manifest, hashes, id);
    RemoveExactly(id, DesiredIndex(manifest.jobs), DeployedMap(w, manifest.projectId), hashes);
    AppliedAt(w, manifest, hashes, changes, id);
    ValidDesired(manifest, hashes, id);
    RenderedFile(DesiredIndex(manifest.jobs)[id], hashes);
  }

  /** The desired job has a file that starts it by its schedule. */
  ghost predicate StartsRight(w: World, desired: map<string, Job>, id: string) {
    id in desired && LabelFor(id) in w.plists && StartsAs(desired[id].schedule, w.plists[LabelFor(id)].start)
  }

  /** So after such an apply every desired job starts by its schedule, if the jobs that were left alone did before. */
  lemma {:induction false} AllStartRight(w: World, manifest: NormalizedManifest, hashes: Hashes, changes: seq<Change>)
    requires ValidManifest(manifest, hashes) && PlanFor(changes, w, manifest, hashes) && Renders(changes, manifest.jobs)
    requires forall id :: id in DesiredIndex(manifest.jobs) && KindOf(changes, id) == Some(Noop) ==>
      StartsRight(w, DesiredIndex(manifest.jobs), id)
    ensures forall id :: id in DesiredIndex(manifest.jobs) ==>
      StartsRight(AppliedPlan(w, manifest, hashes, changes), DesiredIndex(manifest.jobs), id)
  {
    var desired := DesiredIndex(manifest.jobs);
    forall id | id in desired ensures StartsRight(AppliedPlan(w, manifest, hashes, changes), desired, id) {
      if KindOf(changes, id) == Some(Noop) {
        assert StartsRight(w, desired, id);
        AppliedAt(w, manifest, hashes, changes, id);
      } else {
        ChangedJobStarts(w, manifest, hashes, changes, id);
      }
    }
  }

  // ---- the definition hash vouches for the schedule

  /** The file was rendered from some job: its definition hash is that job's, and it starts that job by its schedule. */
  ghost predicate Vouched(p: Plist, h: Digest) {
    exists job :: p.definitionHash == HashDefinition(job, h) && StartsAs(job.schedule, p.start)
  }

  ghost predicate AllVouched(w: World, projectId: string, h: Digest) {
    forall l :: l in w.plists && Selected(l, projectId) ==> Vouched(w.plists[l], h)
  }

  /** What hashing gives for every job of the manifest. */
  ghost predicate HashedBy(manifest: NormalizedManifest, hashes: Hashes, h: Digest) {
    forall id :: id in DesiredIndex(manifest.jobs) ==>
      id in hashes.definitions && hashes.definitions[id] == HashDefinition(DesiredIndex(manifest.jobs)[id], h)
  }

  /** A vouched file with the definition hash of a job starts that job by its schedule. */
  lemma {:induction false} VouchedStarts(p: Plist, job: Job, h: Digest)
    requires Injective(h) && Vouched(p, h) && p.definitionHash == HashDefinition(job, h)
    ensures StartsAs(job.schedule, p.start)
  {
    var other :| p.definitionHash == HashDefinition(other, h) && StartsAs(other.schedule, p.start);
    JobHashExactly(other, job, h);
    assert other.(enabled := job.enabled).schedule == other.schedule;
  }

  lemma {:induction false} FileVouched(p: Plist, job: Job, hashes: Hashes, h: Digest)
    requires FileOf(p, job, hashes) && hashes.definitions[job.qualifiedId] == HashDefinition(job, h)
    ensures Vouched(p, h)
  {
  }

  lemma {:induction false} RenderedVouched(job: Job, hashes: Hashes, h: Digest)
    requires Renderable(job, hashes) && job.artifactId == ArtifactId(job.qualifiedId)
    requires hashes.definitions[job.qualifiedId] == HashDefinition(job, h)
    ensures Vouched(Rendered(job, hashes), h)
  {
    RenderedFile(job, hashes);
    FileVouched(Rendered(job, hashes), job, hashes, h);
  }

  lemma {:induction false} VouchedThrough(w: World, manifest: NormalizedManifest, hashes: Hashes, changes: seq<Change>,
          h: Digest, id: string)
    requires ValidManifest(manifest, hashes) && PlanFor(changes, w, manifest, hashes) && HashedBy(manifest, hashes, h)
    requires AllVouched(w, manifest.projectId, h) && Renders(changes, manifest.jobs)
    requires id in DesiredIndex(manifest.jobs) || id in DeployedMap(w, manifest.projectId)
    ensures var t, l := AppliedPlan(w, manifest, hashes, changes), LabelFor(id);
      l in t.plists && Selected(l, manifest.projectId) ==> Vouched(t.plists[l], h)
  {
    AppliedAt(w, manifest, hashes, changes, id);
    if id in DesiredIndex(manifest.jobs) {
      ValidDesired(manifest, hashes, id);
      if KindOf(changes, id) != Some(Noop) {
        ChangedJobStarts(w, manifest, hashes, changes, id);
        FileVouched(AppliedPlan(w, manifest, hashes, changes).plists[LabelFor(id)], DesiredIndex(manifest.jobs)[id],
                    hashes, h);
      }
    } else {
      PlannedKind(changes, w, manifest, hashes, id);
      RemoveExactly(id, DesiredIndex(manifest.jobs), DeployedMap(w, manifest.projectId), hashes);
    }
  }

  lemma {:induction false} VouchedRefused(w: World, manifest: NormalizedManifest, hashes: Hashes, changes: seq<Change>,
          h: Digest, id: string)
    requires ValidManifest(manifest, hashes) && PlanFor(changes, w, manifest, hashes) && HashedBy(manifest, hashes, h)
    requires AllVouched(w, manifest.projectId, h) && Stop(changes, manifest.jobs) < |manifest.jobs|
    requires id in DesiredIndex(manifest.jobs) || id in DeployedMap(w, manifest.projectId)
    ensures var t, l := AppliedPlan(w, manifest, hashes, changes), LabelFor(id);
      l in t.plists && Selected(l, manifest.projectId) ==> Vouched(t.plists[l], h)
  {
    var k, t := Stop(changes, manifest.jobs), AppliedPlan(w, manifest, hashes, changes);
    RefusedAt(w, manifest, hashes, changes, t, id, k);
    if id in DesiredIndex(manifest.jobs[..k]) && NeedsWriting(changes, id) {
      ValidDesired(manifest, hashes, id);
      RenderedVouched(DesiredIndex(manifest.jobs)[id], hashes, h);
    }
  }

  lemma {:induction false} VouchedAfter(w: World, manifest: NormalizedManifest, hashes: Hashes, changes: seq<Change>,
          h: Digest, id: string)
    requires ValidManifest(manifest, hashes) && PlanFor(changes, w, manifest, hashes) && HashedBy(manifest, hashes, h)
    requires AllVouched(w, manifest.projectId, h)
    requires id in DesiredIndex(manifest.jobs) || id in DeployedMap(w, manifest.projectId)
    ensures var t, l := AppliedPlan(w, manifest, hashes, changes), LabelFor(id);
      l in t.plists && Selected(l, manifest.projectId) ==> Vouched(t.plists[l], h)
  {
    if Stop(changes, manifest.jobs) < |manifest.jobs| {
      VouchedRefused(w, manifest, hashes, changes, h, id);
    } else {
      assert manifest.jobs[..Stop(changes, manifest.jobs)] == manifest.jobs;
      VouchedThrough(w, manifest, hashes, changes, h, id);
    }
  }

  /** Applies, refused or not, keep every file of the project vouched. */
  lemma {:induction false} VouchedKept(w: World, manifest: NormalizedManifest, hashes: Hashes, changes: seq<Change>,
          h: Digest)
    requires ValidManifest(manifest, hashes) && PlanFor(changes, w, manifest, hashes) && HashedBy(manifest, hashes, h)
    requires AllVouched(w, manifest.projectId, h)
    ensures AllVouched(AppliedPlan(w, manifest, hashes, changes), manifest.projectId, h)
  {
    var t := AppliedPlan(w, manifest, hashes, changes);
    forall l | l in t.plists && Selected(l, manifest.projectId) ensures Vouched(t.plists[l], h) {
      if id :| (id in DesiredIndex(manifest.jobs) || id in DeployedMap(w, manifest.projectId)) && LabelFor(id) == l {
        VouchedAfter(w, manifest, hashes, changes, h, id);
      } else {
        AppliedElsewhere(w, manifest, hashes, changes, l);
      }
    }
  }

  /** With a collision-free digest, every apply that goes through leaves every desired job starting by its schedule:
      a job that the plan leaves alone has a file with its definition hash, and the hash covers the schedule. */
  lemma {:induction false} EveryJobStartsRight(w: World, manifest: NormalizedManifest, hashes: Hashes,
          changes: seq<Change>, h: Digest, id: string)
    requires ValidManifest(manifest, hashes) && PlanFor(changes, w, manifest, hashes) && Renders(changes, manifest.jobs)
    requires Injective(h) && (forall payload :: h(payload) != "")
    requires HashedBy(manifest, hashes, h) && AllVouched(w, manifest.projectId, h)
    requires id in DesiredIndex(manifest.jobs)
    ensures StartsRight(AppliedPlan(w, manifest, hashes, changes), DesiredIndex(manifest.jobs), id)
  {
    var t := AppliedPlan(w, manifest, hashes, changes);
    AfterOneApply(w, manifest, hashes, changes, t, id);
    ValidDesired(manifest, hashes, id);
    VouchedKept(w, manifest, hashes, changes, h);
    SettledHash(t, DesiredIndex(manifest.jobs)[id], hashes.definitions[id], LabelFor(id));
    VouchedStarts(t.plists[LabelFor(id)], DesiredIndex(manifest.jobs)[id], h);
  }

  lemma {:induction false} SettledHash(t: World, job: Job, definitionHash: string, l: string)
    requires l in t.plists && t.plists[l].definitionHash != ""
    requires Settled(job.(enabled := l !in t.disabled), BACKEND, definitionHash, InspectedJob(t.plists[l], t.disabled))
    ensures t.plists[l].definitionHash == definitionHash
  {
  }
}
