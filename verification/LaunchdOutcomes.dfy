/** What the next plan says after an apply of the launchd backend that went through, and after one that was refused. */
module LaunchdOutcomes {
  import opened Contracts
  import opened CronSchedule
  import opened Plan
  import opened Launchd
  import opened LaunchdSettling

  // ---- after an apply that goes through

  /** The plan after an apply, change by change. */
  lemma {:induction false} NextPlan(w: World, manifest: NormalizedManifest, hashes: Hashes, changes: seq<Change>,
          next: seq<Change>, c: Change)
    requires ValidManifest(manifest, hashes) && PlanFor(changes, w, manifest, hashes) && Renders(changes, manifest.jobs)
    requires PlanFor(next, AppliedPlan(w, manifest, hashes, changes), manifest, hashes) && c in next
    ensures c.qualifiedId in DesiredIndex(manifest.jobs) && KindOf(changes, c.qualifiedId).Some?
    ensures c.kind == NextKind(KindOf(changes, c.qualifiedId).value, DesiredIndex(manifest.jobs)[c.qualifiedId])
  {
    var id, t := c.qualifiedId, AppliedPlan(w, manifest, hashes, changes);
    var desired, deployed := DesiredIndex(manifest.jobs), DeployedMap(t, manifest.projectId);
    assert c == Verdict(id, desired, deployed, BACKEND, hashes);
    DeployedAt(t, manifest.projectId, id);
    NothingElse(w, manifest, hashes, changes, t, id);
    AfterOneApply(w, manifest, hashes, changes, t, id);
    if id in desired {
      LeftVerdict(t, manifest.projectId, desired[id], hashes.jobs[id], hashes.definitions[id], id,
                  KindOf(changes, id).value);
    }
  }

  function NextKind(kind: ChangeKind, job: Job): ChangeKind {
    if LeftOver(kind, job) then Disable else Noop
  }

  /** Only desired jobs are left. */
  lemma {:induction false} NothingElse(w: World, manifest: NormalizedManifest, hashes: Hashes, changes: seq<Change>,
          t: World, id: string)
    requires ValidManifest(manifest, hashes) && PlanFor(changes, w, manifest, hashes) && Renders(changes, manifest.jobs)
    requires t == AppliedPlan(w, manifest, hashes, changes) && WellFormed(t, manifest.projectId)
    ensures id in DeployedMap(t, manifest.projectId) ==> id in DesiredIndex(manifest.jobs)
  {
    DeployedAt(t, manifest.projectId, id);
    if id in DeployedMap(t, manifest.projectId) {
      ApplyKeepsLabel(w, manifest, hashes, changes, t, LabelFor(id));
      AfterOneApply(w, manifest, hashes, changes, t, id);
    }
  }

  lemma {:induction false} LeftVerdict(t: World, projectId: string, job: Job, hash: string, definitionHash: string,
          id: string, kind: ChangeKind)
    requires Left(t, projectId, job, definitionHash, id, kind)
    ensures ChangeFor(job, BACKEND, hash, definitionHash, Some(InspectedJob(t.plists[LabelFor(id)], t.disabled))).kind
      == NextKind(kind, job)
  {
  }

  lemma {:induction false} KindOfMember(changes: seq<Change>, id: string)
    requires KindOf(changes, id).Some?
    ensures exists i ::
      0 <= i < |changes| && changes[i].qualifiedId == id && changes[i].kind == KindOf(changes, id).value
  {
    if changes[|changes| - 1].qualifiedId != id {
      KindOfMember(changes[..|changes| - 1], id);
    }
  }

  /** What the second plan says of each id, in terms of the first. */
  ghost predicate Follows(first: seq<Change>, second: seq<Change>, desired: map<string, Job>) {
    && (forall id :: id in ChangeIds(second) <==> id in desired)
    && forall c :: c in second ==>
         && c.qualifiedId in desired && KindOf(first, c.qualifiedId).Some?
         && c.kind == NextKind(KindOf(first, c.qualifiedId).value, desired[c.qualifiedId])
  }

  lemma {:induction false} PlanFollows(w: World, manifest: NormalizedManifest, hashes: Hashes, first: seq<Change>,
          second: seq<Change>)
    requires ValidManifest(manifest, hashes) && PlanFor(first, w, manifest, hashes) && Renders(first, manifest.jobs)
    requires PlanFor(second, AppliedPlan(w, manifest, hashes, first), manifest, hashes)
    ensures Follows(first, second, DesiredIndex(manifest.jobs))
  {
    forall c | c in second
      ensures c.qualifiedId in DesiredIndex(manifest.jobs) && KindOf(first, c.qualifiedId).Some?
      ensures c.kind == NextKind(KindOf(first, c.qualifiedId).value, DesiredIndex(manifest.jobs)[c.qualifiedId])
    {
      NextPlan(w, manifest, hashes, first, second, c);
    }
    IdMembers(second);
  }

  /** The first apply was enough exactly when it left nothing over. */
  lemma {:induction false} FirstEnough(first: seq<Change>, second: seq<Change>, desired: map<string, Job>)
    requires Follows(first, second, desired)
    ensures AllNoop(second) <==> NothingLeftOver(first, desired)
  {
    if AllNoop(second) {
      forall id | id in desired && KindOf(first, id).Some? ensures !LeftOver(KindOf(first, id).value, desired[id]) {
        assert id in ChangeIds(second);
        var i :| 0 <= i < |second| && ChangeIds(second)[i] == id;
        assert second[i] in second;
      }
    }
    forall i | 0 <= i < |second|
      ensures second[i].kind == NextKind(KindOf(first, second[i].qualifiedId).value, desired[second[i].qualifiedId])
    {
      assert second[i] in second;
    }
  }

  ghost predicate NothingLeftOver(first: seq<Change>, desired: map<string, Job>) {
    forall id :: id in desired && KindOf(first, id).Some? ==> !LeftOver(KindOf(first, id).value, desired[id])
  }

  /** No created, updated or repaired job is turned off in the manifest. */
  ghost predicate NoDisabledStart(plan: seq<Change>) {
    forall c :: c in plan && c.kind in {Create, Update, Drift} ==> c.desiredJob.Some? && c.desiredJob.value.enabled
  }

  /** A written change carries the job the manifest holds for its id, and is the id's only change. */
  ghost predicate CarriesJobs(plan: seq<Change>, desired: map<string, Job>) {
    forall c :: c in plan && c.kind in {Create, Update, Drift} ==>
      && c.qualifiedId in desired && c.desiredJob == Some(desired[c.qualifiedId])
      && KindOf(plan, c.qualifiedId) == Some(c.kind)
  }

  lemma {:induction false} PlanCarriesJobs(w: World, manifest: NormalizedManifest, hashes: Hashes, plan: seq<Change>)
    requires ValidManifest(manifest, hashes) && PlanFor(plan, w, manifest, hashes)
    ensures CarriesJobs(plan, DesiredIndex(manifest.jobs))
  {
    var desired, deployed := DesiredIndex(manifest.jobs), DeployedMap(w, manifest.projectId);
    PlanTidy(plan, w, manifest, hashes);
    forall c | c in plan && c.kind in {Create, Update, Drift}
      ensures c.qualifiedId in desired && c.desiredJob == Some(desired[c.qualifiedId])
      ensures KindOf(plan, c.qualifiedId) == Some(c.kind)
    {
      assert c == Verdict(c.qualifiedId, desired, deployed, BACKEND, hashes);
      WrittenVerdict(c.qualifiedId, desired, deployed, hashes);
      KindOfExactly(plan, c.qualifiedId);
    }
  }

  lemma {:induction false} WrittenVerdict(id: string, desired: map<string, Job>, deployed: map<string, DeployedJob>,
          hashes: Hashes)
    requires id in desired || id in deployed
    requires forall k :: k in desired ==> k in hashes.jobs && k in hashes.definitions
    ensures var c := Verdict(id, desired, deployed, BACKEND, hashes);
      c.kind in {Create, Update, Drift} ==> id in desired && c.desiredJob == Some(desired[id])
  {
  }

  /** Nothing left over, read off the first plan. */
  lemma {:induction false} LeftOverInPlan(plan: seq<Change>, desired: map<string, Job>)
    requires CarriesJobs(plan, desired)
    ensures NothingLeftOver(plan, desired) <==> NoDisabledStart(plan)
  {
    forall id | id in desired && KindOf(plan, id).Some?
      ensures exists c :: c in plan && c.qualifiedId == id && c.kind == KindOf(plan, id).value
    {
      KindOfMember(plan, id);
    }
  }

  // ---- settling, exactly

  /** A plan of only NOOP and DISABLE that follows on one that renders renders as well. */
  lemma {:induction false} RendersAgain(first: seq<Change>, second: seq<Change>, jobs: seq<Job>)
    requires DistinctJobs(jobs) && Follows(first, second, DesiredIndex(jobs)) && Renders(first, jobs)
    ensures Renders(second, jobs)
  {
    DesiredIndexContents(jobs);
    forall i | 0 <= i < |jobs| && NeedsWriting(second, jobs[i].qualifiedId)
      ensures NeedsWriting(first, jobs[i].qualifiedId)
    {
      var id := jobs[i].qualifiedId;
      KindOfMember(second, id);
      var j :| 0 <= j < |second| && second[j].qualifiedId == id && second[j].kind == KindOf(second, id).value;
      assert second[j] in second;
    }
  }

  lemma {:induction false} SecondEnough(second: seq<Change>, third: seq<Change>, desired: map<string, Job>)
    requires forall c :: c in second ==> c.kind in {Noop, Disable}
    requires Follows(second, third, desired)
    ensures AllNoop(third)
  {
    FirstEnough(second, third, desired);
    forall id | id in desired && KindOf(second, id).Some? ensures !LeftOver(KindOf(second, id).value, desired[id]) {
      KindOfMember(second, id);
      var i :| 0 <= i < |second| && second[i].qualifiedId == id && second[i].kind == KindOf(second, id).value;
      assert second[i] in second;
    }
  }

  /** An id whose installed file and label did not change gets the same kind of change again. */
  lemma {:induction false} SameKind(w: World, t: World, manifest: NormalizedManifest, hashes: Hashes,
          first: seq<Change>, second: seq<Change>, id: string)
    requires ValidManifest(manifest, hashes) && PlanFor(first, w, manifest, hashes)
    requires PlanFor(second, t, manifest, hashes)
    requires t.disabled == w.disabled
    requires var l := LabelFor(id); (l in t.plists <==> l in w.plists) && (l in t.plists ==> t.plists[l] == w.plists[l])
    ensures KindOf(second, id) == KindOf(first, id)
  {
    DeployedAt(w, manifest.projectId, id);
    DeployedAt(t, manifest.projectId, id);
    PlannedKind(first, w, manifest, hashes, id);
    PlannedKind(second, t, manifest, hashes, id);
  }

  /** A refused apply is refused again: the blocked job keeps its change. */
  lemma {:induction false} BlockedAgain(w: World, manifest: NormalizedManifest, hashes: Hashes, first: seq<Change>,
          second: seq<Change>)
    requires ValidManifest(manifest, hashes) && PlanFor(first, w, manifest, hashes) && !Renders(first, manifest.jobs)
    requires PlanFor(second, AppliedPlan(w, manifest, hashes, first), manifest, hashes)
    ensures !Renders(second, manifest.jobs) && !AllNoop(second)
  {
    var t, k := AppliedPlan(w, manifest, hashes, first), Stop(first, manifest.jobs);
    assert manifest.jobs[..|manifest.jobs|] == manifest.jobs;
    var id := manifest.jobs[k].qualifiedId;
    DesiredIndexContents(manifest.jobs);
    EarlyJobs(manifest.jobs, k);
    RefusedAt(w, manifest, hashes, first, t, id, k);
    SameKind(w, t, manifest, hashes, first, second, id);
    assert Blocked(second, manifest.jobs[k]);
    KindOfMember(second, id);
  }

  lemma {:induction false} SecondPlan(w: World, manifest: NormalizedManifest, hashes: Hashes, first: seq<Change>,
          second: seq<Change>)
    requires ValidManifest(manifest, hashes) && PlanFor(first, w, manifest, hashes) && Renders(first, manifest.jobs)
    requires PlanFor(second, AppliedPlan(w, manifest, hashes, first), manifest, hashes)
    ensures Follows(first, second, DesiredIndex(manifest.jobs)) && Renders(second, manifest.jobs)
    ensures AllNoop(second) <==> NoDisabledStart(first)
  {
    PlanFollows(w, manifest, hashes, first, second);
    RendersAgain(first, second, manifest.jobs);
    FirstEnough(first, second, DesiredIndex(manifest.jobs));
    PlanCarriesJobs(w, manifest, hashes, first);
    LeftOverInPlan(first, DesiredIndex(manifest.jobs));
  }

  /** launchd settles if and only if every changed job's schedule compiles. Then one apply leaves only NOOP and DISABLE,
      a second one leaves only NOOP, and the first was enough exactly when it created, updated or repaired no job that
      the manifest turns off. Otherwise no apply ever goes through. */
  lemma {:induction false} SettlesExactly(w: World, manifest: NormalizedManifest, hashes: Hashes, first: seq<Change>,
          second: seq<Change>, third: seq<Change>)
    requires ValidManifest(manifest, hashes) && PlanFor(first, w, manifest, hashes)
    requires PlanFor(second, AppliedPlan(w, manifest, hashes, first), manifest, hashes)
    requires PlanFor(third, AppliedPlan(AppliedPlan(w, manifest, hashes, first), manifest, hashes, second), manifest,
                     hashes)
    ensures AllNoop(third) <==> Renders(first, manifest.jobs)
    ensures Renders(first, manifest.jobs) <==> Renders(second, manifest.jobs)
    ensures Renders(first, manifest.jobs) ==> forall c :: c in second ==> c.kind in {Noop, Disable}
    ensures AllNoop(second) <==> Renders(first, manifest.jobs) && NoDisabledStart(first)
  {
    if Renders(first, manifest.jobs) {
      SecondPlan(w, manifest, hashes, first, second);
      SecondPlan(AppliedPlan(w, manifest, hashes, first), manifest, hashes, second, third);
      SecondEnough(second, third, DesiredIndex(manifest.jobs));
    } else {
      BlockedAgain(w, manifest, hashes, first, second);
      BlockedAgain(AppliedPlan(w, manifest, hashes, first), manifest, hashes, second, third);
    }
  }

  // ---- what a refused apply leaves behind

  /** The change that switches a job whose file is up to date. */
  function SwitchKind(job: Job, off: bool): ChangeKind {
    if job.enabled && off then Enable else if !job.enabled && !off then Disable else Noop
  }

  lemma {:induction false} RenderedVerdict(job: Job, hashes: Hashes, disabled: set<string>)
    requires Renderable(job, hashes) && hashes.definitions[job.qualifiedId] != ""
    ensures ChangeFor(job, BACKEND, hashes.jobs[job.qualifiedId], hashes.definitions[job.qualifiedId],
                      Some(InspectedJob(Rendered(job, hashes), disabled))).kind
      == SwitchKind(job, BuildLaunchdLabel(job) in disabled)
  {
  }

  /** The plan after a refused apply: the changed jobs before the blocked one have their files and are only to be
      switched, although launchctl was never told of them; every other id keeps its change. */
  lemma {:induction false} RefusedLeaves(w: World, manifest: NormalizedManifest, hashes: Hashes, first: seq<Change>,
          second: seq<Change>, id: string, k: nat)
    requires ValidManifest(manifest, hashes) && PlanFor(first, w, manifest, hashes)
    requires k == Stop(first, manifest.jobs) < |manifest.jobs|
    requires PlanFor(second, AppliedPlan(w, manifest, hashes, first), manifest, hashes)
    requires id in DesiredIndex(manifest.jobs) || id in DeployedMap(w, manifest.projectId)
    ensures var t := AppliedPlan(w, manifest, hashes, first); t.loaded == w.loaded && t.disabled == w.disabled
    ensures var early := DesiredIndex(manifest.jobs[..k]);
      KindOf(second, id) ==
        if id in early && NeedsWriting(first, id) then Some(SwitchKind(early[id], LabelFor(id) in w.disabled))
        else KindOf(first, id)
  {
    var t, early := AppliedPlan(w, manifest, hashes, first), DesiredIndex(manifest.jobs[..k]);
    RefusedAt(w, manifest, hashes, first, t, id, k);
    if id in early && NeedsWriting(first, id) {
      ValidDesired(manifest, hashes, id);
      DeployedAt(t, manifest.projectId, id);
      PlannedKind(second, t, manifest, hashes, id);
      RenderedVerdict(early[id], hashes, w.disabled);
    } else {
      SameKind(w, t, manifest, hashes, first, second, id);
    }
  }

  /** In particular a new, enabled job before the blocked one reads as NOOP from then on, and is not loaded. */
  lemma {:induction false} RefusedHides(w: World, manifest: NormalizedManifest, hashes: Hashes, first: seq<Change>,
          second: seq<Change>, i: nat)
    requires ValidManifest(manifest, hashes) && PlanFor(first, w, manifest, hashes)
    requires i < Stop(first, manifest.jobs) < |manifest.jobs|
    requires PlanFor(second, AppliedPlan(w, manifest, hashes, first), manifest, hashes)
    requires var id := manifest.jobs[i].qualifiedId;
      KindOf(first, id) == Some(Create) && manifest.jobs[i].enabled && LabelFor(id) !in w.disabled + w.loaded
    ensures KindOf(second, manifest.jobs[i].qualifiedId) == Some(Noop)
    ensures LabelFor(manifest.jobs[i].qualifiedId) !in AppliedPlan(w, manifest, hashes, first).loaded
  {
    var k := Stop(first, manifest.jobs);
    DesiredIndexContents(manifest.jobs);
    EarlyJobs(manifest.jobs, k);
    RefusedLeaves(w, manifest, hashes, first, second, manifest.jobs[i].qualifiedId, k);
  }

  // ---- loaded services

  /** Every installed job of the project is loaded. */
  ghost predicate AllLoaded(w: World, projectId: string) {
    forall l :: l in w.plists && Selected(l, projectId) ==> l in w.loaded
  }

  /** Applies that go through keep every installed job loaded. */
  lemma {:induction false} LoadedKept(w: World, manifest: NormalizedManifest, hashes: Hashes, changes: seq<Change>)
    requires ValidManifest(manifest, hashes) && PlanFor(changes, w, manifest, hashes) && Renders(changes, manifest.jobs)
    requires AllLoaded(w, manifest.projectId)
    ensures AllLoaded(AppliedPlan(w, manifest, hashes, changes), manifest.projectId)
  {
    var t := AppliedPlan(w, manifest, hashes, changes);
    forall l | l in t.plists && Selected(l, manifest.projectId) ensures l in t.loaded {
      ApplyKeepsLabel(w, manifest, hashes, changes, t, l);
      var id := t.plists[l].qualifiedId;
      AfterOneApply(w, manifest, hashes, changes, t, id);
      AfterApplyLoaded(w, manifest, hashes, changes, t, id);
    }
  }

  lemma {:induction false} AfterApplyLoaded(w: World, manifest: NormalizedManifest, hashes: Hashes,
          changes: seq<Change>, t: World, id: string)
    requires ValidManifest(manifest, hashes) && PlanFor(changes, w, manifest, hashes) && Renders(changes, manifest.jobs)
    requires t == AppliedPlan(w, manifest, hashes, changes) && AllLoaded(w, manifest.projectId)
    requires id in DesiredIndex(manifest.jobs)
    ensures LabelFor(id) in t.loaded
  {
    AfterOneApply(w, manifest, hashes, changes, t, id);
    PlannedKind(changes, w, manifest, hashes, id);
    DeployedAt(w, manifest.projectId, id);
    if KindOf(changes, id) == Some(Noop) {
      assert id in DeployedMap(w, manifest.projectId);
    }
  }

  lemma {:induction false} WritesNothing(plists: map<string, Plist>, jobs: seq<Job>, changes: seq<Change>,
          hashes: Hashes)
    requires Hashed(jobs, hashes) && Schedulable(jobs) && Renders(changes, jobs)
    requires forall i :: 0 <= i < |jobs| ==> !NeedsWriting(changes, jobs[i].qualifiedId)
    ensures Written(plists, jobs, changes, hashes) == plists
  {
    if jobs != [] {
      WritesNothing(plists, jobs[..|jobs| - 1], changes, hashes);
    }
  }

  lemma {:induction false} ChangesNothing(w: World, changes: seq<Change>)
    requires AllNoop(changes) && forall i :: 0 <= i < |changes| ==> Usable(changes[i])
    ensures ApplyChanges(w, changes, true) == w
  {
    if changes != [] {
      ChangesNothing(w, changes[..|changes| - 1]);
    }
  }

  /** Applying a plan of only NOOP changes nothing at all: a settled job that is not loaded stays so. */
  lemma {:induction false} NoopChangesNothing(w: World, manifest: NormalizedManifest, hashes: Hashes,
          changes: seq<Change>)
    requires ValidManifest(manifest, hashes) && PlanFor(changes, w, manifest, hashes) && AllNoop(changes)
    ensures AppliedPlan(w, manifest, hashes, changes) == w
  {
    var jobs := manifest.jobs;
    forall i | 0 <= i < |jobs| ensures !NeedsWriting(changes, jobs[i].qualifiedId) {
      if KindOf(changes, jobs[i].qualifiedId).Some? {
        KindOfMember(changes, jobs[i].qualifiedId);
      }
    }
    PlanTidy(changes, w, manifest, hashes);
    AllRendered(changes, jobs);
    WritesNothing(w.plists, jobs, changes, hashes);
    ChangesNothing(w, changes);
  }

  // ---- other labels

  /** An apply, refused or not, leaves every label alone that the project's glob does not select. */
  lemma {:induction false} OtherLabelsUntouched(w: World, manifest: NormalizedManifest, hashes: Hashes,
          changes: seq<Change>, l: string)
    requires ValidManifest(manifest, hashes) && PlanFor(changes, w, manifest, hashes)
    requires !Selected(l, manifest.projectId)
    ensures Untouched(w, AppliedPlan(w, manifest, hashes, changes), l)
  {
    forall id | id in DesiredIndex(manifest.jobs) || id in DeployedMap(w, manifest.projectId)
      ensures LabelFor(id) != l
    {
      DeployedAt(w, manifest.projectId, id);
      if id in DesiredIndex(manifest.jobs) {
        ValidDesired(manifest, hashes, id);
      }
    }
    AppliedElsewhere(w, manifest, hashes, changes, l);
  }

  /** A file that no desired job has the label of is removed if and only if the apply goes through and the project's
      glob selects the file, whoever it belongs to. */
  lemma {:induction false} ForeignRemovedExactly(w: World, manifest: NormalizedManifest, hashes: Hashes,
          changes: seq<Change>, l: string)
    requires ValidManifest(manifest, hashes) && PlanFor(changes, w, manifest, hashes)
    requires l in w.plists && forall id :: id in DesiredIndex(manifest.jobs) ==> LabelFor(id) != l
    ensures l !in AppliedPlan(w, manifest, hashes, changes).plists <==>
      Renders(changes, manifest.jobs) && Selected(l, manifest.projectId)
  {
    var t, id := AppliedPlan(w, manifest, hashes, changes), w.plists[l].qualifiedId;
    DeployedAt(w, manifest.projectId, id);
    if !Selected(l, manifest.projectId) {
      OtherLabelsUntouched(w, manifest, hashes, changes, l);
    } else if Renders(changes, manifest.jobs) {
      AfterOneApply(w, manifest, hashes, changes, t, id);
    } else {
      var k := Stop(changes, manifest.jobs);
      assert manifest.jobs[..|manifest.jobs|] == manifest.jobs;
      EarlyJobs(manifest.jobs, k);
      RefusedAt(w, manifest, hashes, changes, t, id, k);
    }
  }

  /** The glob selects the label of a job exactly when its sanitized id continues the project id with a dot. */
  lemma {:induction false} SelectedExactly(id: string, projectId: string)
    ensures Selected(LabelFor(id), projectId) <==> projectId + "." <= ArtifactId(id)
  {
    var dotted, artifact := projectId + ".", ArtifactId(id);
    if Selected(LabelFor(id), projectId) {
      assert dotted
        == LabelOfId(dotted)[|LABEL_PREFIX|..] == LabelOfId(artifact)[|LABEL_PREFIX|..|LABEL_PREFIX| + |dotted|];
      assert artifact == LabelOfId(artifact)[|LABEL_PREFIX|..];
      assert dotted == artifact[..|dotted|];
    }
    if dotted <= artifact {
      assert artifact == dotted + artifact[|dotted|..];
      assert LabelOfId(artifact) == LabelOfId(dotted) + artifact[|dotted|..];
    }
  }

  /** The label shows this character as a dash. */
  predicate Dashed(c: char) {
    !('a' <= c <= 'z' || 'A' <= c <= 'Z' || '0' <= c <= '9' || c == '_' || c == '.')
  }

  /** The ids are the same up to characters that a label shows as dashes. */
  predicate LookAlike(a: string, b: string) {
    |a| == |b| && forall i :: 0 <= i < |a| ==> a[i] == b[i] || (Dashed(a[i]) && Dashed(b[i]))
  }

  lemma {:induction false} ArtifactIdAt(id: string, i: nat)
    requires i < |id|
    ensures ArtifactId(id)[i] == if Dashed(id[i]) then '-' else id[i]
  {
  }

  /** When two ids share a label. */
  lemma {:induction false} SameLabelExactly(a: string, b: string)
    ensures LabelFor(a) == LabelFor(b) <==> LookAlike(a, b)
  {
    assert LabelFor(a)[|LABEL_PREFIX|..] == ArtifactId(a) && LabelFor(b)[|LABEL_PREFIX|..] == ArtifactId(b);
    forall i | 0 <= i < |a| && |a| == |b|
      ensures ArtifactId(a)[i] == ArtifactId(b)[i] <==> a[i] == b[i] || (Dashed(a[i]) && Dashed(b[i]))
    {
      ArtifactIdAt(a, i);
      ArtifactIdAt(b, i);
    }
    if LookAlike(a, b) {
      assert forall i :: 0 <= i < |a| ==> ArtifactId(a)[i] == ArtifactId(b)[i];
    }
  }

  /** Two desired jobs whose ids look alike share a label and never settle: only one of them can be installed. */
  lemma {:induction false} SharedLabelNeverSettles(w: World, manifest: NormalizedManifest, hashes: Hashes,
          changes: seq<Change>, a: string, b: string)
    requires WellFormed(w, manifest.projectId)
    requires Partition(changes, DesiredIndex(manifest.jobs), DeployedMap(w, manifest.projectId), BACKEND, hashes)
    requires a in DesiredIndex(manifest.jobs) && b in DesiredIndex(manifest.jobs) && a != b
    requires LookAlike(a, b)
    ensures !AllNoop(changes)
  {
    SameLabelExactly(a, b);
    ConvergedExactly(changes, DesiredIndex(manifest.jobs), DeployedMap(w, manifest.projectId), BACKEND, hashes);
    DeployedAt(w, manifest.projectId, a);
    DeployedAt(w, manifest.projectId, b);
    assert a in DeployedMap(w, manifest.projectId).Keys <==> a in DeployedMap(w, manifest.projectId);
    assert b in DesiredIndex(manifest.jobs).Keys && a in DesiredIndex(manifest.jobs).Keys;
  }
}
