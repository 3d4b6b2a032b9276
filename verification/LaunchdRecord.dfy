/** The saved record of the launchd backend beside the installed jobs, and the removal of a whole project. */
module LaunchdRecord {
  import opened Contracts
  import opened Order
  import opened Plan
  import opened Launchd
  import opened LaunchdSettling
  import opened LaunchdOutcomes

  lemma {:induction false} SavedDistinct(manifest: NormalizedManifest, hashes: Hashes, saved: seq<DeployedJob>)
    requires ValidManifest(manifest, hashes) && saved == SavedState(manifest, hashes).jobs
    ensures DistinctDeployed(saved) && forall d :: d in RecordedJobs(manifest.jobs, hashes) <==> d in saved
  {
    var jobs := RecordedJobs(manifest.jobs, hashes);
    DistinctPermutation(jobs, saved, (d: DeployedJob) => d.qualifiedId);
    MultisetMembers(jobs, saved);
  }

  lemma {:induction false} SavedAt(manifest: NormalizedManifest, hashes: Hashes, saved: seq<DeployedJob>, id: string)
    requires ValidManifest(manifest, hashes) && DistinctDeployed(saved)
    requires forall d :: d in RecordedJobs(manifest.jobs, hashes) <==> d in saved
    ensures id in DeployedIndex(saved) <==> id in DesiredIndex(manifest.jobs)
    ensures id in DeployedIndex(saved) && id in DesiredIndex(manifest.jobs) ==>
      && id in hashes.definitions
      && Settled(DesiredIndex(manifest.jobs)[id], BACKEND, hashes.definitions[id], DeployedIndex(saved)[id])
  {
    var jobs := RecordedJobs(manifest.jobs, hashes);
    DesiredIndexContents(manifest.jobs);
    DeployedIndexContents(saved);
    if id in DeployedIndex(saved) {
      var i :| 0 <= i < |jobs| && jobs[i] == DeployedIndex(saved)[id];
      assert manifest.jobs[i].qualifiedId == id;
    }
    if id in DesiredIndex(manifest.jobs) {
      ValidDesired(manifest, hashes, id);
      var i :| 0 <= i < |manifest.jobs| && manifest.jobs[i] == DesiredIndex(manifest.jobs)[id];
      assert jobs[i] in jobs;
      var j :| 0 <= j < |saved| && saved[j] == jobs[i];
    }
  }

  /** The plan drawn from the record that an apply saves is all NOOP. */
  lemma {:induction false} RecordedPlan(manifest: NormalizedManifest, hashes: Hashes)
    requires ValidManifest(manifest, hashes)
    ensures AllNoop(Changes(manifest, BACKEND, hashes, SavedState(manifest, hashes)))
  {
    var state := SavedState(manifest, hashes);
    var desired, deployed := DesiredIndex(manifest.jobs), DeployedIndex(state.jobs);
    SavedDistinct(manifest, hashes, state.jobs);
    PlanPartition(manifest, BACKEND, hashes, state);
    forall id ensures id in deployed <==> id in desired {
      SavedAt(manifest, hashes, state.jobs, id);
    }
    forall id | id in desired && id in deployed
      ensures id in hashes.definitions && Settled(desired[id], BACKEND, hashes.definitions[id], deployed[id])
    {
      SavedAt(manifest, hashes, state.jobs, id);
    }
    ConvergedNoop(Changes(manifest, BACKEND, hashes, state), desired, deployed, BACKEND, hashes);
  }

  /** The record saved for a job. */
  predicate RecordedAs(d: DeployedJob, job: Job, hashes: Hashes) {
    && d.qualifiedId == job.qualifiedId && d.jobId == job.jobId && d.artifactId == job.artifactId
    && d.backend == "launchd" && d.enabled == job.enabled
    && job.qualifiedId in hashes.jobs && d.desiredHash == hashes.jobs[job.qualifiedId]
    && d.observedHash == Some(d.desiredHash)
    && job.qualifiedId in hashes.definitions && d.definitionHash == Some(hashes.definitions[job.qualifiedId])
    && d.serviceLabel == d.artifactPath == Some("com.xcron." + job.artifactId) && d.wrapperPath == None
  }

  predicate HasRecord(saved: seq<DeployedJob>, job: Job, hashes: Hashes) {
    exists d :: d in saved && RecordedAs(d, job, hashes)
  }

  predicate IsRecord(d: DeployedJob, jobs: seq<Job>, hashes: Hashes) {
    exists i :: 0 <= i < |jobs| && RecordedAs(d, jobs[i], hashes)
  }

  /** The record that an apply saves holds one entry for each job, sorted by id, and nothing else. */
  lemma {:induction false} SavedRecord(manifest: NormalizedManifest, hashes: Hashes)
    requires Hashed(manifest.jobs, hashes)
    ensures var saved := SavedState(manifest, hashes);
      && saved.projectId == manifest.projectId && saved.backend == "launchd"
      && saved.manifestHash == Some(hashes.manifest)
      && |saved.jobs| == |manifest.jobs| && SortedBy(saved.jobs, DeployedLe)
      && (forall i :: 0 <= i < |manifest.jobs| ==> HasRecord(saved.jobs, manifest.jobs[i], hashes))
      && (forall d :: d in saved.jobs ==> IsRecord(d, manifest.jobs, hashes))
  {
    var jobs, recorded := manifest.jobs, RecordedJobs(manifest.jobs, hashes);
    var saved := Sort(recorded, DeployedLe);
    ChangeLeTotalPreorder();
    SortSorted(recorded, DeployedLe);
    MultisetMembers(recorded, saved);
    forall i | 0 <= i < |jobs| ensures HasRecord(saved, jobs[i], hashes) {
      assert recorded[i] in recorded && RecordedAs(recorded[i], jobs[i], hashes);
    }
    forall d | d in saved ensures IsRecord(d, jobs, hashes) {
      var i :| 0 <= i < |recorded| && recorded[i] == d;
      assert RecordedAs(recorded[i], jobs[i], hashes);
    }
  }

  /** After an apply that went through, and so saved its record, the plan drawn from the record is all NOOP, while the
      plan drawn from the installed jobs is so exactly when no disabled job was created, updated or repaired: the record
      claims the enabled state that the manifest asks for, not the one that launchctl was left with. */
  lemma {:induction false} RecordAgreesExactly(w: World, manifest: NormalizedManifest, hashes: Hashes,
          first: seq<Change>, second: seq<Change>)
    requires ValidManifest(manifest, hashes) && PlanFor(first, w, manifest, hashes) && Renders(first, manifest.jobs)
    requires PlanFor(second, AppliedPlan(w, manifest, hashes, first), manifest, hashes)
    ensures AllNoop(Changes(manifest, BACKEND, hashes, SavedState(manifest, hashes)))
    ensures AllNoop(second) <==> NoDisabledStart(first)
  {
    RecordedPlan(manifest, hashes);
    SecondPlan(w, manifest, hashes, first, second);
  }

  /** A prune takes out exactly the files that the project's glob selects, and with launchctl managed it stops exactly
      their services. Every other file stays as it is, and nothing is collected afterwards. */
  lemma {:induction false} PruneExactly(w: World, projectId: string, manage: bool, l: string, jobs: seq<DeployedJob>)
    requires WellFormed(w, projectId) && Collected(jobs, Pruned(w, projectId, manage), projectId)
    ensures var t := Pruned(w, projectId, manage);
      && (l in t.plists <==> l in w.plists && !Selected(l, projectId))
      && (l in t.plists ==> t.plists[l] == w.plists[l])
      && (l in t.loaded <==> l in w.loaded && !(manage && l in w.plists && Selected(l, projectId)))
      && t.disabled == w.disabled
    ensures jobs == []
  {
    var names := SelectedNames(w, projectId);
    assert l in names && l in w.plists ==> w.plists[l].serviceLabel == l;
    if jobs != [] {
      SomeMember(jobs);
    }
  }

  lemma {:induction false} SomeMember<T>(s: seq<T>)
    requires s != []
    ensures exists x :: x in s
  {
    assert s[0] in s;
  }
}
