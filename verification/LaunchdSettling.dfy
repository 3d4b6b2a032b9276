/** What applies of the launchd backend leave to do: two of them settle every project whose changed schedules compile,
    and a schedule that does not compile blocks the project for good. */
module LaunchdSettling {
  import opened Contracts
  import opened Order
  import opened CronSchedule
  import opened Plan
  import opened Launchd

  /** A normalized manifest with a hash for every job, and a project id that sanitizing leaves alone. */
  ghost predicate ValidManifest(manifest: NormalizedManifest, hashes: Hashes) {
    && DistinctJobs(manifest.jobs) && Hashed(manifest.jobs, hashes) && Schedulable(manifest.jobs)
    && ArtifactId(manifest.projectId) == manifest.projectId
    && forall i :: 0 <= i < |manifest.jobs| ==> ValidJob(manifest.jobs[i], manifest.projectId, hashes)
  }

  predicate ValidJob(job: Job, projectId: string, hashes: Hashes) {
    && job.qualifiedId == BuildQualifiedJobId(projectId, job.jobId) && job.artifactId == ArtifactId(job.qualifiedId)
    && job.qualifiedId in hashes.definitions && hashes.definitions[job.qualifiedId] != ""
  }

  // ---- the world as a map from job ids

  ghost function DeployedMap(w: World, projectId: string): map<string, DeployedJob>
    requires WellFormed(w, projectId)
  {
    var ids := set l | l in w.plists && Selected(l, projectId) :: w.plists[l].qualifiedId;
    map id | id in ids :: IdInspected(w, projectId, id)
  }

  ghost function IdInspected(w: World, projectId: string, id: string): DeployedJob
    requires exists l :: l in w.plists && Selected(l, projectId) && w.plists[l].qualifiedId == id
  {
    if LabelFor(id) in w.plists then InspectedJob(w.plists[LabelFor(id)], w.disabled)
    else
      var l :| l in w.plists && Selected(l, projectId) && w.plists[l].qualifiedId == id;
      InspectedJob(w.plists[l], w.disabled)
  }

  /** The file with the label of the id is the id's own. */
  ghost predicate Installed(w: World, projectId: string, id: string) {
    LabelFor(id) in w.plists && Selected(LabelFor(id), projectId) && w.plists[LabelFor(id)].qualifiedId == id
  }

  lemma {:induction false} DeployedAt(w: World, projectId: string, id: string)
    requires WellFormed(w, projectId)
    ensures id in DeployedMap(w, projectId) <==> Installed(w, projectId, id)
    ensures id in DeployedMap(w, projectId) ==>
      DeployedMap(w, projectId)[id] == InspectedJob(w.plists[LabelFor(id)], w.disabled)
  {
  }

  /** Every collected state is this map. */
  lemma {:induction false} CollectedIsMap(jobs: seq<DeployedJob>, w: World, projectId: string)
    requires WellFormed(w, projectId) && Collected(jobs, w, projectId)
    ensures DeployedIndex(jobs) == DeployedMap(w, projectId)
  {
    var index, deployed := DeployedIndex(jobs), DeployedMap(w, projectId);
    DeployedIndexContents(jobs);
    forall id ensures id in index <==> id in deployed {
      DeployedAt(w, projectId, id);
      if id in index {
        assert index[id] in jobs;
      }
      if id in deployed {
        assert InspectedJob(w.plists[LabelFor(id)], w.disabled) in jobs;
      }
    }
    forall id | id in index ensures index[id] == deployed[id] {
      DeployedAt(w, projectId, id);
      assert deployed[id] in jobs;
    }
  }

  // ---- what one apply does, id by id

  /** Each id has one change, under the label of its id. */
  ghost predicate Tidy(changes: seq<Change>) {
    && DistinctBy(changes, (c: Change) => c.qualifiedId)
    && forall i :: 0 <= i < |changes| ==> TidyChange(changes[i])
  }

  predicate TidyChange(c: Change) {
    && Usable(c) && LabelOfChange(c) == LabelFor(c.qualifiedId)
    && (c.kind == Remove ==>
          c.deployedJob.value.artifactPath == c.deployedJob.value.serviceLabel == Some(LabelFor(c.qualifiedId)))
  }

  /** No other change is made under this label. */
  ghost predicate OwnLabel(changes: seq<Change>, id: string) {
    forall i :: 0 <= i < |changes| && LabelFor(changes[i].qualifiedId) == LabelFor(id) ==> changes[i].qualifiedId == id
  }

  lemma {:induction false} KindOfExactly(changes: seq<Change>, id: string)
    requires DistinctBy(changes, (c: Change) => c.qualifiedId)
    ensures KindOf(changes, id) == None <==> id !in ChangeIds(changes)
    ensures forall i :: 0 <= i < |changes| && changes[i].qualifiedId == id ==>
      KindOf(changes, id) == Some(changes[i].kind)
  {
    if changes != [] {
      var init := changes[..|changes| - 1];
      KindOfExactly(init, id);
      assert ChangeIds(changes) == ChangeIds(init) + [changes[|changes| - 1].qualifiedId];
    }
  }

  /** One label before and after the second loop, given the kind of the change made under it. */
  ghost predicate LabelAfter(w: World, t: World, l: string, kind: Option<ChangeKind>) {
    && (l in t.plists <==> l in w.plists && kind != Some(Remove))
    && (l in t.plists ==> t.plists[l] == w.plists[l])
    && (l in t.disabled <==> kind == Some(Disable) || (l in w.disabled && !(kind.Some? && Starts(kind.value))))
    && (l in t.loaded <==>
          (kind.Some? && (Starts(kind.value) || kind.value == Disable)) || (l in w.loaded && kind != Some(Remove)))
  }

  /** The second loop, seen from one id. */
  lemma {:induction false} ChangesAt(w: World, changes: seq<Change>, id: string)
    requires Tidy(changes) && OwnLabel(changes, id)
    ensures forall i :: 0 <= i < |changes| ==> Usable(changes[i])
    ensures LabelAfter(w, ApplyChanges(w, changes, true), LabelFor(id), KindOf(changes, id))
  {
    if changes != [] {
      var init, c := changes[..|changes| - 1], changes[|changes| - 1];
      assert TidyChange(c);
      ChangesAt(w, init, id);
      if c.qualifiedId == id {
        KindOfExactly(init, id);
        assert id !in ChangeIds(init);
      }
    }
  }

  /** A label that no change is made under. */
  lemma {:induction false} ChangesElsewhere(w: World, changes: seq<Change>, l: string)
    requires Tidy(changes) && forall i :: 0 <= i < |changes| ==> LabelFor(changes[i].qualifiedId) != l
    ensures forall i :: 0 <= i < |changes| ==> Usable(changes[i])
    ensures LabelAfter(w, ApplyChanges(w, changes, true), l, None)
  {
    if changes != [] {
      assert TidyChange(changes[|changes| - 1]);
      ChangesElsewhere(w, changes[..|changes| - 1], l);
    }
  }

  ghost predicate RenderedJobs(jobs: seq<Job>, changes: seq<Change>, hashes: Hashes) {
    && Hashed(jobs, hashes) && DistinctJobs(jobs) && Schedulable(jobs) && Renders(changes, jobs)
    && forall i :: 0 <= i < |jobs| ==> jobs[i].artifactId == ArtifactId(jobs[i].qualifiedId)
  }

  /** The first loop, seen from one id. */
  lemma {:induction false} WrittenAt(plists: map<string, Plist>, jobs: seq<Job>, changes: seq<Change>, hashes: Hashes,
          id: string)
    requires RenderedJobs(jobs, changes, hashes)
    requires forall i :: 0 <= i < |jobs| && LabelFor(jobs[i].qualifiedId) == LabelFor(id) ==> jobs[i].qualifiedId == id
    ensures id in DesiredIndex(jobs) ==> DesiredIndex(jobs)[id].qualifiedId == id
    ensures id in DesiredIndex(jobs) && NeedsWriting(changes, id) ==> Renderable(DesiredIndex(jobs)[id], hashes)
    ensures var t, l, desired := Written(plists, jobs, changes, hashes), LabelFor(id), DesiredIndex(jobs);
      if id in desired && NeedsWriting(changes, id) then l in t && t[l] == Rendered(desired[id], hashes)
      else (l in t <==> l in plists) && (l in t ==> t[l] == plists[l])
  {
    if jobs != [] {
      WrittenAt(plists, jobs[..|jobs| - 1], changes, hashes, id);
    }
  }

  lemma {:induction false} WrittenElsewhere(plists: map<string, Plist>, jobs: seq<Job>, changes: seq<Change>,
          hashes: Hashes, l: string)
    requires RenderedJobs(jobs, changes, hashes)
    requires forall i :: 0 <= i < |jobs| ==> LabelFor(jobs[i].qualifiedId) != l
    ensures var t := Written(plists, jobs, changes, hashes); (l in t <==> l in plists) && (l in t ==> t[l] == plists[l])
  {
    if jobs != [] {
      WrittenElsewhere(plists, jobs[..|jobs| - 1], changes, hashes, l);
    }
  }

  // ---- a plan of the project

  /** Different ids of the set have different labels. */
  ghost predicate LabelsApart(ids: set<string>) {
    forall a, b :: a in ids && b in ids && LabelFor(a) == LabelFor(b) ==> a == b
  }

  /** A plan made for the collected state of this world; every id that it speaks of has a label of its own. */
  ghost predicate PlanFor(changes: seq<Change>, w: World, manifest: NormalizedManifest, hashes: Hashes) {
    && WellFormed(w, manifest.projectId)
    && LabelsApart(DesiredIndex(manifest.jobs).Keys + DeployedMap(w, manifest.projectId).Keys)
    && Partition(changes, DesiredIndex(manifest.jobs), DeployedMap(w, manifest.projectId), BACKEND, hashes)
  }

  /** Whatever the order in which files are listed, planning from the collected state is such a plan. */
  lemma {:induction false} CollectedPlan(w: World, manifest: NormalizedManifest, hashes: Hashes, state: ProjectState)
    requires ValidManifest(manifest, hashes) && WellFormed(w, manifest.projectId)
    requires Collected(state.jobs, w, manifest.projectId)
    requires LabelsApart(DesiredIndex(manifest.jobs).Keys + DeployedMap(w, manifest.projectId).Keys)
    ensures PlanFor(Changes(manifest, BACKEND, hashes, state), w, manifest, hashes)
  {
    PlanPartition(manifest, BACKEND, hashes, state);
    CollectedIsMap(state.jobs, w, manifest.projectId);
  }

  lemma {:induction false} ValidDesired(manifest: NormalizedManifest, hashes: Hashes, id: string)
    requires ValidManifest(manifest, hashes) && id in DesiredIndex(manifest.jobs)
    ensures ValidJob(DesiredIndex(manifest.jobs)[id], manifest.projectId, hashes)
    ensures DesiredIndex(manifest.jobs)[id].qualifiedId == id && Selected(LabelFor(id), manifest.projectId)
    ensures BuildLaunchdLabel(DesiredIndex(manifest.jobs)[id]) == LabelFor(id)
  {
    var job := DesiredIndex(manifest.jobs)[id];
    DesiredIndexContents(manifest.jobs);
    var i :| 0 <= i < |manifest.jobs| && manifest.jobs[i] == job;
    SanitizedSelected(manifest.projectId, job.jobId);
  }

  lemma {:induction false} SanitizedSelected(projectId: string, jobId: string)
    requires ArtifactId(projectId) == projectId
    ensures Selected(LabelFor(BuildQualifiedJobId(projectId, jobId)), projectId)
  {
    var q, dotted := BuildQualifiedJobId(projectId, jobId), projectId + ".";
    forall i | 0 <= i < |dotted| ensures ArtifactId(q)[i] == dotted[i] {
      assert i < |projectId| ==> q[i] == projectId[i] && ArtifactId(projectId)[i] == projectId[i];
    }
    assert ArtifactId(q) == dotted + ArtifactId(q)[|dotted|..];
    assert LabelFor(q) == LabelOfId(dotted) + ArtifactId(q)[|dotted|..];
  }

  lemma {:induction false} PlanTidy(changes: seq<Change>, w: World, manifest: NormalizedManifest, hashes: Hashes)
    requires ValidManifest(manifest, hashes) && PlanFor(changes, w, manifest, hashes)
    ensures Tidy(changes)
  {
    forall i, j | 0 <= i < j < |changes| ensures changes[i].qualifiedId != changes[j].qualifiedId {
      assert ChangeIds(changes)[i] != ChangeIds(changes)[j];
    }
    forall i | 0 <= i < |changes| ensures TidyChange(changes[i]) {
      assert changes[i] in changes;
      PlannedTidy(changes, w, manifest, hashes, changes[i]);
    }
  }

  lemma {:induction false} PlannedTidy(changes: seq<Change>, w: World, manifest: NormalizedManifest, hashes: Hashes,
          c: Change)
    requires ValidManifest(manifest, hashes) && PlanFor(changes, w, manifest, hashes) && c in changes
    ensures TidyChange(c)
  {
    var id := c.qualifiedId;
    var desired, deployed := DesiredIndex(manifest.jobs), DeployedMap(w, manifest.projectId);
    DeployedAt(w, manifest.projectId, id);
    if id in desired {
      ValidDesired(manifest, hashes, id);
      TidyDesired(desired[id], hashes.jobs[id], hashes.definitions[id], Lookup(deployed, id));
    } else {
      TidyRemoval(deployed[id]);
    }
  }

  lemma {:induction false} TidyDesired(job: Job, hash: string, definitionHash: string, found: Option<DeployedJob>)
    requires BuildLaunchdLabel(job) == LabelFor(job.qualifiedId)
    ensures TidyChange(ChangeFor(job, BACKEND, hash, definitionHash, found))
  {
  }

  lemma {:induction false} TidyRemoval(d: DeployedJob)
    requires d.artifactPath == d.serviceLabel == Some(LabelFor(d.qualifiedId))
    ensures TidyChange(Removal(d))
  {
  }

  /** The ids of a plan have their labels to themselves. */
  lemma {:induction false} PlanOwnLabel(changes: seq<Change>, w: World, manifest: NormalizedManifest, hashes: Hashes,
          id: string)
    requires PlanFor(changes, w, manifest, hashes)
    requires id in DesiredIndex(manifest.jobs) || id in DeployedMap(w, manifest.projectId)
    ensures OwnLabel(changes, id)
    ensures DistinctJobs(manifest.jobs) ==>
      forall i :: 0 <= i < |manifest.jobs| && LabelFor(manifest.jobs[i].qualifiedId) == LabelFor(id) ==>
        manifest.jobs[i].qualifiedId == id
  {
    forall i | 0 <= i < |changes| && LabelFor(changes[i].qualifiedId) == LabelFor(id)
      ensures changes[i].qualifiedId == id
    {
      assert ChangeIds(changes)[i] in ChangeIds(changes);
    }
    if DistinctJobs(manifest.jobs) {
      DesiredIndexContents(manifest.jobs);
    }
  }

  /** The world after applying a plan of the project. */
  ghost function AppliedPlan(w: World, manifest: NormalizedManifest, hashes: Hashes, changes: seq<Change>): World
    requires ValidManifest(manifest, hashes) && PlanFor(changes, w, manifest, hashes)
  {
    PlanTidy(changes, w, manifest, hashes);
    Applied(w, manifest.jobs, changes, hashes, true)
  }

  /** The kind that a plan has for an id. */
  lemma {:induction false} PlannedKind(changes: seq<Change>, w: World, manifest: NormalizedManifest, hashes: Hashes,
          id: string)
    requires ValidManifest(manifest, hashes) && PlanFor(changes, w, manifest, hashes)
    ensures var desired, deployed := DesiredIndex(manifest.jobs), DeployedMap(w, manifest.projectId);
      if id in desired || id in deployed then
        KindOf(changes, id) == Some(Verdict(id, desired, deployed, BACKEND, hashes).kind)
      else KindOf(changes, id) == None
  {
    PlanTidy(changes, w, manifest, hashes);
    KindOfExactly(changes, id);
    if id in DesiredIndex(manifest.jobs) || id in DeployedMap(w, manifest.projectId) {
      PartitionAt(changes, DesiredIndex(manifest.jobs), DeployedMap(w, manifest.projectId), BACKEND, hashes, id);
    }
  }

  lemma {:induction false} RemoveExactly(id: string, desired: map<string, Job>, deployed: map<string, DeployedJob>,
          hashes: Hashes)
    requires id in desired || id in deployed
    requires forall k :: k in desired ==> k in hashes.jobs && k in hashes.definitions
    ensures Verdict(id, desired, deployed, BACKEND, hashes).kind == Remove <==> id !in desired
    ensures Verdict(id, desired, deployed, BACKEND, hashes).kind != Error
  {
  }

  // ---- an apply that goes through

  /** The label of a planned id after an apply that goes through. */
  ghost predicate AfterApply(w: World, t: World, desired: map<string, Job>, hashes: Hashes, id: string,
          kind: ChangeKind) {
    var l := LabelFor(id);
    && (kind == Remove ==> l !in t.plists)
    && (kind != Remove && kind != Noop ==>
          && id in desired && Renderable(desired[id], hashes)
          && l in t.plists && t.plists[l] == Rendered(desired[id], hashes))
    && (kind == Noop ==> (l in t.plists <==> l in w.plists) && (l in t.plists ==> t.plists[l] == w.plists[l]))
    && (l in t.disabled <==> kind == Disable || (l in w.disabled && !Starts(kind)))
    && (l in t.loaded <==> kind !in {Noop, Remove} || (l in w.loaded && kind == Noop))
  }

  /** Nothing happened under this label. */
  ghost predicate Untouched(w: World, t: World, l: string) {
    && (l in t.plists <==> l in w.plists) && (l in t.plists ==> t.plists[l] == w.plists[l])
    && (l in t.disabled <==> l in w.disabled) && (l in t.loaded <==> l in w.loaded)
  }

  lemma {:induction false} JobsRendered(manifest: NormalizedManifest, hashes: Hashes, changes: seq<Change>, k: nat)
    requires ValidManifest(manifest, hashes) && k <= |manifest.jobs| && Renders(changes, manifest.jobs[..k])
    ensures RenderedJobs(manifest.jobs[..k], changes, hashes)
  {
  }

  lemma {:induction false} AppliedAt(w: World, manifest: NormalizedManifest, hashes: Hashes, changes: seq<Change>,
          id: string)
    requires ValidManifest(manifest, hashes) && PlanFor(changes, w, manifest, hashes) && Renders(changes, manifest.jobs)
    requires id in DesiredIndex(manifest.jobs) || id in DeployedMap(w, manifest.projectId)
    ensures KindOf(changes, id).Some?
    ensures AfterApply(w, AppliedPlan(w, manifest, hashes, changes), DesiredIndex(manifest.jobs), hashes, id,
                       KindOf(changes, id).value)
  {
    var jobs := manifest.jobs;
    var written := w.(plists := Written(w.plists, jobs, changes, hashes));
    AllRendered(changes, jobs);
    PlanTidy(changes, w, manifest, hashes);
    PlannedKind(changes, w, manifest, hashes, id);
    RemoveExactly(id, DesiredIndex(jobs), DeployedMap(w, manifest.projectId), hashes);
    PlanOwnLabel(changes, w, manifest, hashes, id);
    WrittenAt(w.plists, jobs, changes, hashes, id);
    ChangesAt(written, changes, id);
    BothLoops(w, written, ApplyChanges(written, changes, true), DesiredIndex(jobs), hashes, id,
              KindOf(changes, id).value);
  }

  /** The two loops together, seen from one label. */
  lemma {:induction false} BothLoops(w: World, written: World, t: World, desired: map<string, Job>, hashes: Hashes,
          id: string, kind: ChangeKind)
    requires written.disabled == w.disabled && written.loaded == w.loaded
    requires kind == Remove <==> id !in desired
    requires id in desired && kind != Noop ==> Renderable(desired[id], hashes)
    requires var l := LabelFor(id);
      if id in desired && kind != Noop then l in written.plists && written.plists[l] == Rendered(desired[id], hashes)
      else (l in written.plists <==> l in w.plists) && (l in written.plists ==> written.plists[l] == w.plists[l])
    requires kind != Error && LabelAfter(written, t, LabelFor(id), Some(kind))
    ensures AfterApply(w, t, desired, hashes, id, kind)
  {
  }

  lemma {:induction false} AllRendered(changes: seq<Change>, jobs: seq<Job>)
    requires Renders(changes, jobs)
    ensures Stop(changes, jobs) == |jobs| && jobs[..|jobs|] == jobs
  {
    assert jobs[..|jobs|] == jobs;
    StopIs(changes, jobs, |jobs|);
  }

  /** A label that no planned id has. */
  lemma {:induction false} AppliedElsewhere(w: World, manifest: NormalizedManifest, hashes: Hashes,
          changes: seq<Change>, l: string)
    requires ValidManifest(manifest, hashes) && PlanFor(changes, w, manifest, hashes)
    requires forall id :: (id in DesiredIndex(manifest.jobs) || id in DeployedMap(w, manifest.projectId)) ==>
      LabelFor(id) != l
    ensures Untouched(w, AppliedPlan(w, manifest, hashes, changes), l)
  {
    var k := Stop(changes, manifest.jobs);
    var written := w.(plists := Written(w.plists, manifest.jobs[..k], changes, hashes));
    DesiredIndexContents(manifest.jobs);
    PlanTidy(changes, w, manifest, hashes);
    JobsRendered(manifest, hashes, changes, k);
    WrittenElsewhere(w.plists, manifest.jobs[..k], changes, hashes, l);
    forall i | 0 <= i < |changes| ensures LabelFor(changes[i].qualifiedId) != l {
      assert ChangeIds(changes)[i] in ChangeIds(changes);
    }
    ChangesElsewhere(written, changes, l);
  }

  /** What an apply leaves to do for a desired job: disabling it, if the apply has just started a job that should be
      off. */
  predicate LeftOver(kind: ChangeKind, job: Job) {
    kind in {Create, Update, Drift} && !job.enabled
  }

  /** How an apply that goes through leaves a desired job. */
  ghost predicate Left(t: World, projectId: string, job: Job, definitionHash: string, id: string, kind: ChangeKind) {
    var l := LabelFor(id);
    && Installed(t, projectId, id) && t.plists[l].serviceLabel == l
    && Settled(job.(enabled := l !in t.disabled), BACKEND, definitionHash, InspectedJob(t.plists[l], t.disabled))
    && (l !in t.disabled <==> job.enabled || LeftOver(kind, job))
  }

  /** After an apply that goes through the project's files are exactly its desired jobs, each as the planner wants it
      except for being on, and a job is loaded if the apply touched it or if it was loaded before. */
  lemma {:induction false} AfterOneApply(w: World, manifest: NormalizedManifest, hashes: Hashes, changes: seq<Change>,
          t: World, id: string)
    requires ValidManifest(manifest, hashes) && PlanFor(changes, w, manifest, hashes) && Renders(changes, manifest.jobs)
    requires t == AppliedPlan(w, manifest, hashes, changes)
    ensures id in DeployedMap(w, manifest.projectId) && id !in DesiredIndex(manifest.jobs) ==> LabelFor(id) !in t.plists
    ensures id in DesiredIndex(manifest.jobs) ==>
      && KindOf(changes, id).Some? && id in hashes.definitions
      && Left(t, manifest.projectId, DesiredIndex(manifest.jobs)[id], hashes.definitions[id], id,
              KindOf(changes, id).value)
      && (LabelFor(id) in t.loaded <==> KindOf(changes, id) != Some(Noop) || LabelFor(id) in w.loaded)
  {
    var p := manifest.projectId;
    var desired, deployed := DesiredIndex(manifest.jobs), DeployedMap(w, p);
    PlannedKind(changes, w, manifest, hashes, id);
    DeployedAt(w, p, id);
    if id in desired || id in deployed {
      RemoveExactly(id, desired, deployed, hashes);
      AppliedAt(w, manifest, hashes, changes, id);
    }
    if id in desired {
      ValidDesired(manifest, hashes, id);
      SettledAfter(w, t, manifest, hashes, id, KindOf(changes, id).value);
    }
  }

  lemma {:induction false} SettledAfter(w: World, t: World, manifest: NormalizedManifest, hashes: Hashes, id: string,
          kind: ChangeKind)
    requires ValidManifest(manifest, hashes) && WellFormed(w, manifest.projectId) && id in DesiredIndex(manifest.jobs)
    requires id in hashes.jobs && id in hashes.definitions
    requires var d := DeployedMap(w, manifest.projectId);
      kind == ChangeFor(DesiredIndex(manifest.jobs)[id], BACKEND, hashes.jobs[id], hashes.definitions[id],
                        Lookup(d, id)).kind
    requires AfterApply(w, t, DesiredIndex(manifest.jobs), hashes, id, kind)
    ensures Left(t, manifest.projectId, DesiredIndex(manifest.jobs)[id], hashes.definitions[id], id, kind)
  {
    var job, l := DesiredIndex(manifest.jobs)[id], LabelFor(id);
    ValidDesired(manifest, hashes, id);
    DeployedAt(w, manifest.projectId, id);
    if kind == Noop {
      var d := DeployedMap(w, manifest.projectId)[id];
      assert d == InspectedJob(w.plists[l], w.disabled);
      assert EffectiveDefinitionHash(d) == hashes.definitions[id];
    } else {
      assert t.plists[l] == Rendered(job, hashes);
    }
  }

  // ---- an apply that is refused

  /** A refused apply has rewritten the files of the changed jobs before the blocked one, and done nothing else. */
  lemma {:induction false} RefusedAt(w: World, manifest: NormalizedManifest, hashes: Hashes, changes: seq<Change>,
          t: World, id: string, k: nat)
    requires ValidManifest(manifest, hashes) && PlanFor(changes, w, manifest, hashes)
    requires k == Stop(changes, manifest.jobs) < |manifest.jobs| && t == AppliedPlan(w, manifest, hashes, changes)
    requires id in DesiredIndex(manifest.jobs) || id in DeployedMap(w, manifest.projectId)
    ensures t.disabled == w.disabled && t.loaded == w.loaded
    ensures var early, l := DesiredIndex(manifest.jobs[..k]), LabelFor(id);
      if id in early && NeedsWriting(changes, id) then
        id in DesiredIndex(manifest.jobs) && early[id] == DesiredIndex(manifest.jobs)[id] &&
        Renderable(early[id], hashes) &&
        l in t.plists && t.plists[l] == Rendered(early[id], hashes)
      else (l in t.plists <==> l in w.plists) && (l in t.plists ==> t.plists[l] == w.plists[l])
  {
    var early := manifest.jobs[..k];
    JobsRendered(manifest, hashes, changes, k);
    PlanOwnLabel(changes, w, manifest, hashes, id);
    assert forall i :: 0 <= i < k ==> early[i] == manifest.jobs[i];
    WrittenAt(w.plists, early, changes, hashes, id);
    EarlyJobs(manifest.jobs, k);
  }

  lemma {:induction false} EarlyJobs(jobs: seq<Job>, k: nat)
    requires DistinctJobs(jobs) && k <= |jobs|
    ensures forall id :: id in DesiredIndex(jobs[..k]) ==>
      id in DesiredIndex(jobs) && DesiredIndex(jobs)[id] == DesiredIndex(jobs[..k])[id]
    ensures forall i :: 0 <= i < |jobs| ==> (jobs[i].qualifiedId in DesiredIndex(jobs[..k]) <==> i < k)
  {
    var early := jobs[..k];
    DesiredIndexContents(jobs);
    DesiredIndexContents(early);
    assert forall i :: 0 <= i < k ==> early[i] == jobs[i];
    forall id | id in DesiredIndex(early)
      ensures id in DesiredIndex(jobs) && DesiredIndex(jobs)[id] == DesiredIndex(early)[id]
    {
      var i :| 0 <= i < k && early[i] == DesiredIndex(early)[id];
      assert jobs[i] == early[i];
    }
    forall i | 0 <= i < |jobs| ensures jobs[i].qualifiedId in DesiredIndex(early) <==> i < k {
      if jobs[i].qualifiedId in DesiredIndex(early) {
        var j :| 0 <= j < k && early[j] == DesiredIndex(early)[jobs[i].qualifiedId];
        assert jobs[j].qualifiedId == jobs[i].qualifiedId;
      }
      assert i < k ==> early[i] == jobs[i];
    }
  }

  // ---- the project stays well formed, and its labels apart

  lemma {:induction false} AppliedLabel(w: World, manifest: NormalizedManifest, hashes: Hashes, changes: seq<Change>,
          t: World, id: string)
    requires ValidManifest(manifest, hashes) && PlanFor(changes, w, manifest, hashes)
    requires t == AppliedPlan(w, manifest, hashes, changes)
    requires id in DesiredIndex(manifest.jobs) || id in DeployedMap(w, manifest.projectId)
    requires LabelFor(id) in t.plists && Selected(LabelFor(id), manifest.projectId)
    ensures var p := t.plists[LabelFor(id)];
      && p.serviceLabel == LabelFor(id) && LabelFor(p.qualifiedId) == LabelFor(id)
      && (p.qualifiedId in DesiredIndex(manifest.jobs) || p.qualifiedId in DeployedMap(w, manifest.projectId))
  {
    var k, l := Stop(changes, manifest.jobs), LabelFor(id);
    if id in DesiredIndex(manifest.jobs) {
      ValidDesired(manifest, hashes, id);
    }
    if k < |manifest.jobs| {
      RefusedAt(w, manifest, hashes, changes, t, id, k);
    } else {
      assert manifest.jobs[..k] == manifest.jobs;
      AppliedAt(w, manifest, hashes, changes, id);
      PlannedKind(changes, w, manifest, hashes, id);
    }
    if l in w.plists && t.plists[l] == w.plists[l] {
      DeployedAt(w, manifest.projectId, w.plists[l].qualifiedId);
    }
  }

  lemma {:induction false} ApplyKeepsLabel(w: World, manifest: NormalizedManifest, hashes: Hashes, changes: seq<Change>,
          t: World, l: string)
    requires ValidManifest(manifest, hashes) && PlanFor(changes, w, manifest, hashes)
    requires t == AppliedPlan(w, manifest, hashes, changes)
    requires l in t.plists && Selected(l, manifest.projectId)
    ensures t.plists[l].serviceLabel == l && l == LabelFor(t.plists[l].qualifiedId)
    ensures t.plists[l].qualifiedId in DesiredIndex(manifest.jobs).Keys + DeployedMap(w, manifest.projectId).Keys
  {
    if id :| (id in DesiredIndex(manifest.jobs) || id in DeployedMap(w, manifest.projectId)) && LabelFor(id) == l {
      AppliedLabel(w, manifest, hashes, changes, t, id);
    } else {
      AppliedElsewhere(w, manifest, hashes, changes, l);
      DeployedAt(w, manifest.projectId, w.plists[l].qualifiedId);
    }
  }

  /** Refused or not, an apply leaves well-formed files, and no ids but the desired and the deployed ones. */
  lemma {:induction false} ApplyKeepsWellFormed(w: World, manifest: NormalizedManifest, hashes: Hashes,
          changes: seq<Change>, t: World)
    requires ValidManifest(manifest, hashes) && PlanFor(changes, w, manifest, hashes)
    requires t == AppliedPlan(w, manifest, hashes, changes)
    ensures WellFormed(t, manifest.projectId)
    ensures LabelsApart(DesiredIndex(manifest.jobs).Keys + DeployedMap(t, manifest.projectId).Keys)
  {
    forall l | l in t.plists && Selected(l, manifest.projectId)
      ensures t.plists[l].serviceLabel == l && l == LabelFor(t.plists[l].qualifiedId)
    {
      ApplyKeepsLabel(w, manifest, hashes, changes, t, l);
    }
    forall id | id in DeployedMap(t, manifest.projectId)
      ensures id in DesiredIndex(manifest.jobs) || id in DeployedMap(w, manifest.projectId)
    {
      DeployedAt(t, manifest.projectId, id);
      ApplyKeepsLabel(w, manifest, hashes, changes, t, LabelFor(id));
    }
  }

  /** The premises are met along the way: the next collected state has a plan, whatever the listing order. */
  lemma {:induction false} NextPlanExists(w: World, manifest: NormalizedManifest, hashes: Hashes, first: seq<Change>,
          state: ProjectState)
    requires ValidManifest(manifest, hashes) && PlanFor(first, w, manifest, hashes)
    requires Collected(state.jobs, AppliedPlan(w, manifest, hashes, first), manifest.projectId)
    ensures PlanFor(Changes(manifest, BACKEND, hashes, state), AppliedPlan(w, manifest, hashes, first), manifest,
                    hashes)
  {
    ApplyKeepsWellFormed(w, manifest, hashes, first, AppliedPlan(w, manifest, hashes, first));
    CollectedPlan(AppliedPlan(w, manifest, hashes, first), manifest, hashes, state);
  }
}
