/** From a validated manifest to the launchd results. */
module ManifestLaunchd {
  import opened Contracts
  import opened Text
  import opened Plan
  import opened Manifest
  import opened ManifestSchema
  import opened ManifestCron
  import opened Launchd
  import opened LaunchdSettling
  import opened LaunchdOutcomes
  import opened LaunchdStarts

  // ---- sanitized ids

  predicate Kept(s: string) {
    forall i :: 0 <= i < |s| ==> IsArtifactChar(s[i])
  }

  lemma {:induction false} KeptParts(a: string, b: string)
    ensures Kept(a + b) <==> Kept(a) && Kept(b)
  {
    assert forall i :: 0 <= i < |a| ==> (a + b)[i] == a[i];
    assert forall i :: 0 <= i < |b| ==> (a + b)[|a| + i] == b[i];
  }

  lemma {:induction false} KeptExactly(s: string)
    ensures ArtifactId(s) == s <==> Kept(s)
  {
    assert ArtifactId(s) == s ==> forall i :: 0 <= i < |s| ==> ArtifactId(s)[i] == s[i];
  }

  lemma {:induction false} KeptId(s: string)
    requires IdPattern(s)
    ensures Kept(s) <==> !FinalNewline(s)
  {
    if FinalNewline(s) {
      assert !IsArtifactChar(s[|s| - 1]);
    }
  }

  /** Sanitizing keeps the qualified ids of a validated manifest, unless an id ends in a newline. */
  lemma {:induction false} ArtifactIdKept(projectId: string, jobId: string)
    requires IdPattern(projectId) && IdPattern(jobId)
    ensures var q := BuildQualifiedJobId(projectId, jobId);
      ArtifactId(q) == q <==> !FinalNewline(projectId) && !FinalNewline(jobId)
  {
    KeptExactly(BuildQualifiedJobId(projectId, jobId));
    KeptParts(projectId + ".", jobId);
    KeptParts(projectId, ".");
    KeptId(projectId);
    KeptId(jobId);
  }

  /** Ids that sanitizing keeps have labels of their own. */
  lemma {:induction false} KeptLabelsApart(ids: set<string>)
    requires forall id :: id in ids ==> ArtifactId(id) == id
    ensures LabelsApart(ids)
  {
    forall a, b | a in ids && b in ids && LabelFor(a) == LabelFor(b) ensures a == b {
      assert a == LabelOfId(a)[|LABEL_PREFIX|..];
      assert b == LabelOfId(b)[|LABEL_PREFIX|..];
    }
  }

  // ---- what validation guarantees

  ghost function Fit(projectId: string, hashes: Hashes): (ok: Job -> bool)
    ensures forall x {:trigger ok(x)} :: ok(x) == ValidJob(x, projectId, hashes)
  {
    (x: Job) => ValidJob(x, projectId, hashes)
  }

  lemma {:induction false} FitImage(raw: RawManifest, i: nat, machine: Machine, place: Place, h: Digest)
    requires Valid(raw, machine) && TokenDigest(h) && i < |raw.jobs.jobs|
    ensures var m := NormalizeManifest(Parse(raw), place);
      Fit(raw.projectId, BuildHashes(m, h))(Normalizer(Parse(raw), place)(Parse(raw).jobs[i]))
  {
    var p, m := Parse(raw), NormalizeManifest(Parse(raw), place);
    var x := Normalizer(p, place)(p.jobs[i]);
    NormalizedContents(p, place);
    assert Image(p.jobs, Normalizer(p, place), x);
    HashesAt(m.jobs, h);
    var j :| 0 <= j < |m.jobs| && m.jobs[j] == x;
    assert IsToken(HashDefinition(x, h));
  }

  predicate AnyJob(job: JobDefinition) { true }

  /** A validated manifest meets the premises of the launchd results exactly when its project id has no final newline.
      */
  lemma {:induction false} LaunchdReadyExactly(raw: RawManifest, machine: Machine, place: Place, h: Digest)
    requires Valid(raw, machine) && TokenDigest(h)
    ensures var m := NormalizeManifest(Parse(raw), place);
      ValidManifest(m, BuildHashes(m, h)) <==> !FinalNewline(raw.projectId)
  {
    var p, m := Parse(raw), NormalizeManifest(Parse(raw), place);
    var ok := Fit(raw.projectId, BuildHashes(m, h));
    NormalizedContents(p, place);
    NormalizedSchedulable(raw, machine, place);
    HashesComplete(m, h);
    KeptExactly(raw.projectId);
    KeptId(raw.projectId);
    forall i | 0 <= i < |p.jobs| ensures ok(Normalizer(p, place)(p.jobs[i])) <==> AnyJob(p.jobs[i]) {
      FitImage(raw, i, machine, place, h);
    }
    AllImages(p.jobs, m.jobs, Normalizer(p, place), AnyJob, ok);
    FitEach(m, BuildHashes(m, h));
  }

  lemma {:induction false} FitEach(m: NormalizedManifest, hashes: Hashes)
    requires forall j :: 0 <= j < |m.jobs| ==> Fit(m.projectId, hashes)(m.jobs[j])
    ensures forall j :: 0 <= j < |m.jobs| ==> ValidJob(m.jobs[j], m.projectId, hashes)
  {
  }

  // ---- from the stored manifest to settled services

  /** Plan and apply twice, collecting the installed jobs each time in whatever order they are listed. */
  datatype Course = Course(first: ProjectState, second: ProjectState, third: ProjectState)

  /** The states of the course are collected from the world before and after each apply. */
  ghost predicate Runs(c: Course, m: NormalizedManifest, hashes: Hashes, w: World)
    requires ValidManifest(m, hashes)
  {
    && Collected(c.first.jobs, w, m.projectId)
    && PlanFor(Changes(m, BACKEND, hashes, c.first), w, m, hashes)
    && var w1 := AppliedPlan(w, m, hashes, Changes(m, BACKEND, hashes, c.first));
       && Collected(c.second.jobs, w1, m.projectId)
       && PlanFor(Changes(m, BACKEND, hashes, c.second), w1, m, hashes)
       && Collected(c.third.jobs, AppliedPlan(w1, m, hashes, Changes(m, BACKEND, hashes, c.second)), m.projectId)
  }

  /** Collecting is all it takes: the plans are plans for their worlds. */
  lemma {:induction false} RunsWhenCollected(c: Course, m: NormalizedManifest, hashes: Hashes, w: World)
    requires ValidManifest(m, hashes) && WellFormed(w, m.projectId) && Collected(c.first.jobs, w, m.projectId)
    requires LabelsApart(DesiredIndex(m.jobs).Keys + DeployedMap(w, m.projectId).Keys)
    ensures PlanFor(Changes(m, BACKEND, hashes, c.first), w, m, hashes)
    ensures var w1 := AppliedPlan(w, m, hashes, Changes(m, BACKEND, hashes, c.first));
      Collected(c.second.jobs, w1, m.projectId) ==> PlanFor(Changes(m, BACKEND, hashes, c.second), w1, m, hashes)
  {
    CollectedPlan(w, m, hashes, c.first);
    var w1 := AppliedPlan(w, m, hashes, Changes(m, BACKEND, hashes, c.first));
    if Collected(c.second.jobs, w1, m.projectId) {
      NextPlanExists(w, m, hashes, Changes(m, BACKEND, hashes, c.first), c.second);
    }
  }

  lemma {:induction false} CourseSettlesExactly(c: Course, m: NormalizedManifest, hashes: Hashes, w: World)
    requires ValidManifest(m, hashes) && Runs(c, m, hashes, w)
    ensures AllNoop(Changes(m, BACKEND, hashes, c.third)) <==> Renders(Changes(m, BACKEND, hashes, c.first), m.jobs)
  {
    var a, b := Changes(m, BACKEND, hashes, c.first), Changes(m, BACKEND, hashes, c.second);
    NextPlanExists(AppliedPlan(w, m, hashes, a), m, hashes, b, c.third);
    SettlesExactly(w, m, hashes, a, b, Changes(m, BACKEND, hashes, c.third));
  }

  predicate AllExpressible(jobs: seq<Job>) {
    forall i :: 0 <= i < |jobs| ==> LaunchdSchedule.LaunchdExpressible(jobs[i].schedule)
  }

  /** A first plan for a project without installed jobs creates every job, and so needs every schedule. */
  lemma {:induction false} FreshRenders(m: NormalizedManifest, hashes: Hashes, w: World, changes: seq<Change>)
    requires ValidManifest(m, hashes) && PlanFor(changes, w, m, hashes) && DeployedMap(w, m.projectId) == map[]
    ensures Renders(changes, m.jobs) <==> AllExpressible(m.jobs)
  {
    DesiredIndexContents(m.jobs);
    forall i | 0 <= i < |m.jobs| ensures NeedsWriting(changes, m.jobs[i].qualifiedId) {
      PlannedKind(changes, w, m, hashes, m.jobs[i].qualifiedId);
    }
  }

  /** From the stored manifest to settled services: a validated project that has nothing installed settles in two
      applies if and only if every one of its schedules compiles. */
  lemma {:induction false} ValidatedSettlesExactly(raw: RawManifest, machine: Machine, place: Place, h: Digest,
          w: World, c: Course)
    requires Valid(raw, machine) && TokenDigest(h) && !FinalNewline(raw.projectId)
    requires WellFormed(w, raw.projectId) && DeployedMap(w, raw.projectId) == map[]
    ensures var m := NormalizeManifest(Parse(raw), place);
      var hashes := BuildHashes(m, h);
      && ValidManifest(m, hashes)
      && (Runs(c, m, hashes, w) ==> (AllNoop(Changes(m, BACKEND, hashes, c.third)) <==> AllExpressible(m.jobs)))
  {
    var m := NormalizeManifest(Parse(raw), place);
    LaunchdReadyExactly(raw, machine, place, h);
    if Runs(c, m, BuildHashes(m, h), w) {
      CourseSettlesExactly(c, m, BuildHashes(m, h), w);
      FreshRenders(m, BuildHashes(m, h), w, Changes(m, BACKEND, BuildHashes(m, h), c.first));
    }
  }

  /** A validated project without newlines at the end of its ids has a label of its own for every job. */
  lemma {:induction false} OneLineLabelsApart(raw: RawManifest, machine: Machine, place: Place)
    requires Valid(raw, machine) && !FinalNewline(raw.projectId)
    requires forall i :: 0 <= i < |Parse(raw).jobs| ==> !FinalNewline(Parse(raw).jobs[i].id)
    ensures LabelsApart(DesiredIndex(NormalizeManifest(Parse(raw), place).jobs).Keys)
  {
    var m := NormalizeManifest(Parse(raw), place);
    NormalizedContents(Parse(raw), place);
    DesiredIndexContents(m.jobs);
    forall id | id in DesiredIndex(m.jobs) ensures ArtifactId(id) == id {
      var j :| 0 <= j < |m.jobs| && m.jobs[j] == DesiredIndex(m.jobs)[id];
      var i := Source(Parse(raw), place, j);
      ReadySchedule(raw, i, machine);
      ArtifactIdKept(raw.projectId, Parse(raw).jobs[i].id);
    }
    KeptLabelsApart(DesiredIndex(m.jobs).Keys);
  }

  /** So when nothing of it is installed, plans drawn from collected states are all that the course needs. */
  lemma {:induction false} FreshCourse(raw: RawManifest, machine: Machine, place: Place, h: Digest, w: World, c: Course)
    requires Valid(raw, machine) && TokenDigest(h) && !FinalNewline(raw.projectId)
    requires forall i :: 0 <= i < |Parse(raw).jobs| ==> !FinalNewline(Parse(raw).jobs[i].id)
    requires WellFormed(w, raw.projectId) && DeployedMap(w, raw.projectId) == map[]
    requires Collected(c.first.jobs, w, raw.projectId)
    ensures var m := NormalizeManifest(Parse(raw), place);
      var hashes := BuildHashes(m, h);
      && ValidManifest(m, hashes) && PlanFor(Changes(m, BACKEND, hashes, c.first), w, m, hashes)
      && var w1 := AppliedPlan(w, m, hashes, Changes(m, BACKEND, hashes, c.first));
         Collected(c.second.jobs, w1, m.projectId) ==> PlanFor(Changes(m, BACKEND, hashes, c.second), w1, m, hashes)
  {
    var m := NormalizeManifest(Parse(raw), place);
    LaunchdReadyExactly(raw, machine, place, h);
    OneLineLabelsApart(raw, machine, place);
    assert DesiredIndex(m.jobs).Keys + DeployedMap(w, m.projectId).Keys == DesiredIndex(m.jobs).Keys;
    RunsWhenCollected(c, m, BuildHashes(m, h), w);
  }

  // ---- when the jobs start

  lemma {:induction false} HashedByDigest(m: NormalizedManifest, h: Digest)
    requires DistinctJobs(m.jobs)
    ensures HashedBy(m, BuildHashes(m, h), h)
  {
    HashesAt(m.jobs, h);
    DesiredIndexContents(m.jobs);
    forall id | id in DesiredIndex(m.jobs)
      ensures && id in DefinitionHashes(m.jobs, h)
              && DefinitionHashes(m.jobs, h)[id] == HashDefinition(DesiredIndex(m.jobs)[id], h)
    {
      var i :| 0 <= i < |m.jobs| && m.jobs[i] == DesiredIndex(m.jobs)[id];
    }
  }

  /** From the stored manifest to launchd's files: whenever an apply of a validated project goes through, every job
      of the manifest starts by its schedule, and the files stay such that the next apply keeps this. */
  lemma {:induction false} ValidatedStartsRight(raw: RawManifest, machine: Machine, place: Place, h: Digest, w: World,
          state: ProjectState)
    requires Valid(raw, machine) && TokenDigest(h) && Injective(h) && !FinalNewline(raw.projectId)
    requires WellFormed(w, raw.projectId) && Collected(state.jobs, w, raw.projectId) && AllVouched(w, raw.projectId, h)
    requires LabelsApart(
      DesiredIndex(NormalizeManifest(Parse(raw), place).jobs).Keys + DeployedMap(w, raw.projectId).Keys)
    ensures var m := NormalizeManifest(Parse(raw), place);
      var hashes := BuildHashes(m, h);
      && ValidManifest(m, hashes) && PlanFor(Changes(m, BACKEND, hashes, state), w, m, hashes)
      && var changes := Changes(m, BACKEND, hashes, state);
         var t := AppliedPlan(w, m, hashes, changes);
         && AllVouched(t, m.projectId, h)
         && (Renders(changes, m.jobs) ==>
               forall id :: id in DesiredIndex(m.jobs) ==> StartsRight(t, DesiredIndex(m.jobs), id))
  {
    var m := NormalizeManifest(Parse(raw), place);
    var hashes := BuildHashes(m, h);
    LaunchdReadyExactly(raw, machine, place, h);
    HashedByDigest(m, h);
    CollectedPlan(w, m, hashes, state);
    var changes := Changes(m, BACKEND, hashes, state);
    VouchedKept(w, m, hashes, changes, h);
    if Renders(changes, m.jobs) {
      forall id | id in DesiredIndex(m.jobs)
        ensures StartsRight(AppliedPlan(w, m, hashes, changes), DesiredIndex(m.jobs), id)
      {
        EveryJobStartsRight(w, m, hashes, changes, h, id);
      }
    }
  }

  // ---- a project id that ends in a newline

  /** Labels are sanitized and the glob is not, so such a project never finds a file. */
  lemma {:induction false} NewlineSelectsNothing(w: World, projectId: string)
    requires FinalNewline(projectId) && WellFormed(w, projectId)
    ensures DeployedMap(w, projectId) == map[]
  {
    forall id ensures id !in DeployedMap(w, projectId) {
      DeployedAt(w, projectId, id);
      if Selected(LabelFor(id), projectId) {
        SelectedExactly(id, projectId);
        assert ArtifactId(id)[|projectId| - 1] == (projectId + ".")[|projectId| - 1] == '\n';
      }
    }
  }

  /** And with a job it never settles, whatever was applied before. */
  lemma {:induction false} NewlineNeverSettles(w: World, m: NormalizedManifest, hashes: Hashes, changes: seq<Change>)
    requires FinalNewline(m.projectId) && WellFormed(w, m.projectId) && m.jobs != []
    requires Partition(changes, DesiredIndex(m.jobs), DeployedMap(w, m.projectId), BACKEND, hashes)
    ensures !AllNoop(changes)
  {
    NewlineSelectsNothing(w, m.projectId);
    ConvergedExactly(changes, DesiredIndex(m.jobs), DeployedMap(w, m.projectId), BACKEND, hashes);
    assert m.jobs[|m.jobs| - 1].qualifiedId in DesiredIndex(m.jobs).Keys;
  }
}
