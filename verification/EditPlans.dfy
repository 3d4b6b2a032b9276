/** What a manifest edit does to the plan of a project that was in place: one edit, one change. */
module EditPlans {
  import opened Contracts
  import opened Plan
  import opened Manifest
  import opened ManifestSchema
  import opened ManifestEditor

  // ---- the plan against a settled state is the diff of two manifests

  /** The step from one version of a job to the next. */
  function DiffKind(before: Option<Job>, after: Option<Job>): ChangeKind {
    match (before, after)
    case (None, _) => Create
    case (Some(_), None) => Remove
    case (Some(b), Some(a)) =>
      if b.(enabled := a.enabled) != a then Update
      else if a.enabled == b.enabled then Noop
      else if a.enabled then Enable
      else Disable
  }

  /** One change for each id of either version, of the kind that the two versions differ by. */
  ghost predicate DiffPlan(changes: seq<Change>, before: map<string, Job>, after: map<string, Job>) {
    && SortedIds(ChangeIds(changes))
    && (forall id :: id in ChangeIds(changes) <==> id in before || id in after)
    && forall c :: c in changes ==> c.kind == DiffKind(Lookup(before, c.qualifiedId), Lookup(after, c.qualifiedId))
  }

  /** The hashes that the planner looks up are those of the jobs it compares. */
  lemma {:induction false} IndexedHashes(m: NormalizedManifest, h: Digest, id: string)
    requires DistinctJobs(m.jobs) && id in DesiredIndex(m.jobs)
    ensures var hashes := BuildHashes(m, h);
      && id in hashes.jobs && id in hashes.definitions
      && hashes.definitions[id] == HashDefinition(DesiredIndex(m.jobs)[id], h)
  {
    DesiredIndexContents(m.jobs);
    HashesAt(m.jobs, h);
    var i :| 0 <= i < |m.jobs| && m.jobs[i] == DesiredIndex(m.jobs)[id];
  }

  lemma {:induction false} SettledKind(before: Job, after: Job, backend: string, hash: string, h: Digest,
          d: DeployedJob)
    requires Injective(h) && Settled(before, backend, HashDefinition(before, h), d)
    ensures ChangeFor(after, backend, hash, HashDefinition(after, h), Some(d)).kind
      == DiffKind(Some(before), Some(after))
  {
    JobHashExactly(before, after, h);
  }

  lemma {:induction false} VerdictKind(id: string, before: map<string, Job>, after: map<string, Job>,
          deployed: map<string, DeployedJob>, backend: string, hashes: Hashes, h: Digest)
    requires Injective(h) && before.Keys == deployed.Keys && (id in before || id in after)
    requires forall k :: k in after ==> k in hashes.jobs && k in hashes.definitions
    requires id in after ==> hashes.definitions[id] == HashDefinition(after[id], h)
    requires id in before ==>
      id in deployed && Settled(before[id], backend, HashDefinition(before[id], h), deployed[id])
    ensures Verdict(id, after, deployed, backend, hashes).kind == DiffKind(Lookup(before, id), Lookup(after, id))
  {
    assert id in deployed <==> id in before;
    if id in before && id in after {
      SettledKind(before[id], after[id], backend, hashes.jobs[id], h, deployed[id]);
    }
  }

  /** Against a state that is in place for one manifest, the plan for any other manifest is their difference. */
  lemma {:induction false} DiffOfManifests(before: NormalizedManifest, after: NormalizedManifest, h: Digest,
          backend: string, state: ProjectState)
    requires Injective(h) && DistinctJobs(before.jobs) && DistinctJobs(after.jobs) && DistinctDeployed(state.jobs)
    requires Hashed(before.jobs, BuildHashes(before, h)) && Hashed(after.jobs, BuildHashes(after, h))
    requires AllNoop(Changes(before, backend, BuildHashes(before, h), state))
    ensures DiffPlan(Changes(after, backend, BuildHashes(after, h), state), DesiredIndex(before.jobs),
                     DesiredIndex(after.jobs))
  {
    var changes := Changes(after, backend, BuildHashes(after, h), state);
    var was, now, deployed := DesiredIndex(before.jobs), DesiredIndex(after.jobs), DeployedIndex(state.jobs);
    PlanPartition(before, backend, BuildHashes(before, h), state);
    ConvergedExactly(Changes(before, backend, BuildHashes(before, h), state), was, deployed, backend,
                     BuildHashes(before, h));
    PlanPartition(after, backend, BuildHashes(after, h), state);
    PartitionDiff(changes, before, after, h, deployed, backend);
  }

  lemma {:induction false} PartitionDiff(changes: seq<Change>, before: NormalizedManifest, after: NormalizedManifest,
          h: Digest, deployed: map<string, DeployedJob>, backend: string)
    requires Injective(h) && DistinctJobs(before.jobs) && DistinctJobs(after.jobs)
    requires Partition(changes, DesiredIndex(after.jobs), deployed, backend, BuildHashes(after, h))
    requires DesiredIndex(before.jobs).Keys == deployed.Keys
    requires forall k :: k in DesiredIndex(before.jobs) && k in deployed ==>
      && k in BuildHashes(before, h).definitions
      && Settled(DesiredIndex(before.jobs)[k], backend, BuildHashes(before, h).definitions[k], deployed[k])
    ensures DiffPlan(changes, DesiredIndex(before.jobs), DesiredIndex(after.jobs))
  {
    var was, now, hashes := DesiredIndex(before.jobs), DesiredIndex(after.jobs), BuildHashes(after, h);
    forall c | c in changes ensures c.kind == DiffKind(Lookup(was, c.qualifiedId), Lookup(now, c.qualifiedId)) {
      var id := c.qualifiedId;
      assert c == Verdict(id, now, deployed, backend, hashes);
      assert id in was <==> id in deployed;
      if id in now {
        IndexedHashes(after, h, id);
      }
      if id in was {
        IndexedHashes(before, h, id);
      }
      VerdictKind(id, was, now, deployed, backend, hashes, h);
    }
    forall id ensures id in ChangeIds(changes) <==> id in was || id in now {
      assert id in was <==> id in deployed;
    }
  }

  /** The plan has this one change, and leaves everything else alone. */
  ghost predicate OnlyChange(changes: seq<Change>, id: string, kind: ChangeKind) {
    id in ChangeIds(changes) && forall c :: c in changes ==> c.kind == if c.qualifiedId == id then kind else Noop
  }

  /** Two versions of the desired jobs that differ under one id, by this kind of step. */
  ghost predicate OnlyDifference(before: map<string, Job>, after: map<string, Job>, id: string, kind: ChangeKind) {
    && (id in before || id in after)
    && kind == DiffKind(Lookup(before, id), Lookup(after, id))
    && forall k :: k != id ==> Lookup(before, k) == Lookup(after, k)
  }

  lemma {:induction false} OneDifference(changes: seq<Change>, before: map<string, Job>, after: map<string, Job>,
          id: string, kind: ChangeKind)
    requires DiffPlan(changes, before, after) && OnlyDifference(before, after, id, kind)
    ensures OnlyChange(changes, id, kind)
  {
    forall c | c in changes && c.qualifiedId != id ensures c.kind == Noop {
      assert Lookup(before, c.qualifiedId) == Lookup(after, c.qualifiedId);
      var i :| 0 <= i < |changes| && changes[i] == c;
      assert ChangeIds(changes)[i] == c.qualifiedId;
    }
  }

  // ---- typed manifests that differ in one job

  /** The normalized job under a qualified id. */
  ghost function Look(m: ProjectManifest, place: Place, id: string): Option<Job> {
    Lookup(IndexOf(m, place), id)
  }

  ghost function IndexOf(m: ProjectManifest, place: Place): map<string, Job> {
    DesiredIndex(NormalizeManifest(m, place).jobs)
  }

  ghost function NormalOf(m: ProjectManifest, place: Place, job: JobDefinition): (r: Job)
    ensures r.qualifiedId == BuildQualifiedJobId(m.projectId, job.id)
  {
    NormalizeJob(m.projectId, m.defaults, job, place.resolve)
  }

  lemma {:induction false} LookAt(m: ProjectManifest, place: Place, i: nat)
    requires DistinctIds(m.jobs) && i < |m.jobs|
    ensures Look(m, place, BuildQualifiedJobId(m.projectId, m.jobs[i].id)) == Some(NormalOf(m, place, m.jobs[i]))
  {
    var jobs, x := NormalizeManifest(m, place).jobs, NormalOf(m, place, m.jobs[i]);
    NormalizedContents(m, place);
    DesiredIndexContents(jobs);
    assert Normalizer(m, place)(m.jobs[i]) == x;
    assert Image(m.jobs, Normalizer(m, place), x);
    var j :| 0 <= j < |jobs| && jobs[j] == x;
  }

  lemma {:induction false} LookFound(m: ProjectManifest, place: Place, id: string) returns (i: nat)
    requires DistinctIds(m.jobs) && Look(m, place, id).Some?
    ensures i < |m.jobs| && BuildQualifiedJobId(m.projectId, m.jobs[i].id) == id
  {
    var jobs := NormalizeManifest(m, place).jobs;
    NormalizedContents(m, place);
    DesiredIndexContents(jobs);
    var j :| 0 <= j < |jobs| && jobs[j] == DesiredIndex(jobs)[id];
    i := Source(m, place, j);
  }

  lemma {:induction false} LookNone(m: ProjectManifest, place: Place, id: string)
    requires DistinctIds(m.jobs)
    requires forall i :: 0 <= i < |m.jobs| ==> BuildQualifiedJobId(m.projectId, m.jobs[i].id) != id
    ensures Look(m, place, id) == None
  {
    if Look(m, place, id).Some? {
      var i := LookFound(m, place, id);
    }
  }

  /** The two manifests have the same job under this id, if any. */
  lemma {:induction false} SameLook(a: ProjectManifest, b: ProjectManifest, place: Place, id: string)
    requires DistinctIds(a.jobs) && DistinctIds(b.jobs) && a.projectId == b.projectId && a.defaults == b.defaults
    requires forall j: JobDefinition :: BuildQualifiedJobId(a.projectId, j.id) == id ==> (j in a.jobs <==> j in b.jobs)
    ensures Look(a, place, id) == Look(b, place, id)
  {
    if i :| 0 <= i < |a.jobs| && BuildQualifiedJobId(a.projectId, a.jobs[i].id) == id {
      assert a.jobs[i] in b.jobs;
      var j :| 0 <= j < |b.jobs| && b.jobs[j] == a.jobs[i];
      LookAt(a, place, i);
      LookAt(b, place, j);
    } else {
      forall i | 0 <= i < |b.jobs| ensures BuildQualifiedJobId(b.projectId, b.jobs[i].id) != id {
        assert b.jobs[i] in b.jobs;
      }
      LookNone(a, place, id);
      LookNone(b, place, id);
    }
  }

  /** Two manifests that agree on all ids but this one. */
  ghost predicate DifferAt(a: ProjectManifest, b: ProjectManifest, id: string) {
    && DistinctIds(a.jobs) && DistinctIds(b.jobs) && a.projectId == b.projectId && a.defaults == b.defaults
    && forall j: JobDefinition :: j.id != id ==> (j in a.jobs <==> j in b.jobs)
  }

  lemma {:induction false} DifferingLooks(a: ProjectManifest, b: ProjectManifest, place: Place, id: string)
    requires DifferAt(a, b, id)
    ensures forall k :: k != BuildQualifiedJobId(a.projectId, id) ==> Look(a, place, k) == Look(b, place, k)
  {
    forall k | k != BuildQualifiedJobId(a.projectId, id) ensures Look(a, place, k) == Look(b, place, k) {
      forall j: JobDefinition | BuildQualifiedJobId(a.projectId, j.id) == k ensures j in a.jobs <==> j in b.jobs {
        SamePrefix(a.projectId + ".", j.id, id);
      }
      SameLook(a, b, place, k);
    }
  }

  lemma {:induction false} DifferenceAt(a: ProjectManifest, b: ProjectManifest, place: Place, id: string,
          kind: ChangeKind)
    requires DifferAt(a, b, id)
    requires var q := BuildQualifiedJobId(a.projectId, id);
      (Look(a, place, q).Some? || Look(b, place, q).Some?) && kind == DiffKind(Look(a, place, q), Look(b, place, q))
    ensures OnlyDifference(IndexOf(a, place), IndexOf(b, place), BuildQualifiedJobId(a.projectId, id), kind)
  {
    var q := BuildQualifiedJobId(a.projectId, id);
    DifferingLooks(a, b, place, id);
    forall k | k != q ensures Lookup(IndexOf(a, place), k) == Lookup(IndexOf(b, place), k) {
      assert Look(a, place, k) == Look(b, place, k);
    }
  }

  /** One job more. */
  lemma {:induction false} AppendDifference(a: ProjectManifest, job: JobDefinition, b: ProjectManifest, place: Place)
    requires DistinctIds(b.jobs) && b == a.(jobs := a.jobs + [job])
    ensures OnlyDifference(IndexOf(a, place), IndexOf(b, place), BuildQualifiedJobId(a.projectId, job.id), Create)
  {
    assert b.jobs[|a.jobs|] == job;
    assert forall i :: 0 <= i < |a.jobs| ==> b.jobs[i] == a.jobs[i];
    forall i | 0 <= i < |a.jobs|
      ensures BuildQualifiedJobId(a.projectId, a.jobs[i].id) != BuildQualifiedJobId(a.projectId, job.id)
    {
      assert b.jobs[i].id != b.jobs[|a.jobs|].id;
      SamePrefix(a.projectId + ".", a.jobs[i].id, job.id);
    }
    LookNone(a, place, BuildQualifiedJobId(a.projectId, job.id));
    LookAt(b, place, |a.jobs|);
    DifferenceAt(a, b, place, job.id, Create);
  }

  /** One job less. */
  lemma {:induction false} DropDifference(a: ProjectManifest, k: nat, b: ProjectManifest, place: Place)
    requires DistinctIds(a.jobs) && k < |a.jobs| && b == a.(jobs := a.jobs[..k] + a.jobs[k + 1..])
    ensures OnlyDifference(IndexOf(a, place), IndexOf(b, place), BuildQualifiedJobId(a.projectId, a.jobs[k].id), Remove)
  {
    DropDiffers(a, b, k);
    LookAt(a, place, k);
    forall i | 0 <= i < |b.jobs|
      ensures BuildQualifiedJobId(b.projectId, b.jobs[i].id) != BuildQualifiedJobId(a.projectId, a.jobs[k].id)
    {
      SamePrefix(a.projectId + ".", b.jobs[i].id, a.jobs[k].id);
    }
    LookNone(b, place, BuildQualifiedJobId(a.projectId, a.jobs[k].id));
    DifferenceAt(a, b, place, a.jobs[k].id, Remove);
  }

  lemma {:induction false} DropDiffers(a: ProjectManifest, b: ProjectManifest, k: nat)
    requires DistinctIds(a.jobs) && k < |a.jobs| && b == a.(jobs := a.jobs[..k] + a.jobs[k + 1..])
    ensures DifferAt(a, b, a.jobs[k].id)
    ensures forall i :: 0 <= i < |b.jobs| ==> b.jobs[i].id != a.jobs[k].id
  {
    assert forall i :: 0 <= i < |b.jobs| ==> b.jobs[i] == a.jobs[if i < k then i else i + 1];
    forall j: JobDefinition | j.id != a.jobs[k].id ensures j in a.jobs <==> j in b.jobs {
      if j in a.jobs {
        var i :| 0 <= i < |a.jobs| && a.jobs[i] == j;
        assert b.jobs[if i < k then i else i - 1] == j;
      }
    }
  }

  /** One job for another with the same id. */
  lemma {:induction false} SwapDifference(a: ProjectManifest, k: nat, job: JobDefinition, b: ProjectManifest,
          place: Place)
    requires DistinctIds(a.jobs) && k < |a.jobs| && b == a.(jobs := a.jobs[k := job]) && job.id == a.jobs[k].id
    ensures OnlyDifference(IndexOf(a, place), IndexOf(b, place), BuildQualifiedJobId(a.projectId, job.id),
                           DiffKind(Some(NormalOf(a, place, a.jobs[k])), Some(NormalOf(a, place, job))))
  {
    assert forall i :: 0 <= i < |b.jobs| ==> b.jobs[i].id == a.jobs[i].id;
    SwapDiffers(a, b, k, job);
    LookAt(a, place, k);
    LookAt(b, place, k);
    DifferenceAt(a, b, place, job.id, DiffKind(Some(NormalOf(a, place, a.jobs[k])), Some(NormalOf(a, place, job))));
  }

  lemma {:induction false} SwapDiffers(a: ProjectManifest, b: ProjectManifest, k: nat, job: JobDefinition)
    requires DistinctIds(a.jobs) && DistinctIds(b.jobs) && k < |a.jobs| && b == a.(jobs := a.jobs[k := job])
    requires job.id == a.jobs[k].id
    ensures DifferAt(a, b, job.id)
  {
    forall j: JobDefinition | j.id != job.id ensures j in a.jobs <==> j in b.jobs {
      if j in a.jobs {
        var i :| 0 <= i < |a.jobs| && a.jobs[i] == j;
        assert b.jobs[i] == j;
      }
      if j in b.jobs {
        var i :| 0 <= i < |b.jobs| && b.jobs[i] == j;
        assert a.jobs[i] == j;
      }
    }
  }

  /** The two manifests differ under two ids: one has only the first, the other only the second. */
  ghost predicate Moved(before: map<string, Job>, after: map<string, Job>, from: string, to: string) {
    && from in before && from !in after && to in after && to !in before
    && forall k :: k != from && k != to ==> Lookup(before, k) == Lookup(after, k)
  }

  /** One job for another with a new id. */
  lemma {:induction false} RenameDifference(a: ProjectManifest, k: nat, job: JobDefinition, b: ProjectManifest,
          place: Place)
    requires DistinctIds(a.jobs) && DistinctIds(b.jobs) && k < |a.jobs| && b == a.(jobs := a.jobs[k := job])
    requires job.id != a.jobs[k].id
    ensures Moved(IndexOf(a, place), IndexOf(b, place), BuildQualifiedJobId(a.projectId, a.jobs[k].id),
                  BuildQualifiedJobId(a.projectId, job.id))
  {
    var from, to := BuildQualifiedJobId(a.projectId, a.jobs[k].id), BuildQualifiedJobId(a.projectId, job.id);
    assert b.jobs[k] == job && forall i :: 0 <= i < |a.jobs| && i != k ==> b.jobs[i] == a.jobs[i];
    forall i | 0 <= i < |a.jobs|
      ensures BuildQualifiedJobId(a.projectId, b.jobs[i].id) != from
      ensures BuildQualifiedJobId(a.projectId, a.jobs[i].id) != to
    {
      SamePrefix(a.projectId + ".", b.jobs[i].id, a.jobs[k].id);
      SamePrefix(a.projectId + ".", a.jobs[i].id, job.id);
      assert i != k ==> b.jobs[i].id != b.jobs[k].id && a.jobs[i].id != a.jobs[k].id;
    }
    LookAt(a, place, k);
    LookAt(b, place, k);
    LookNone(b, place, from);
    LookNone(a, place, to);
    forall x | x != from && x != to ensures Lookup(IndexOf(a, place), x) == Lookup(IndexOf(b, place), x) {
      RenameElsewhere(a, k, job, b, place, x);
    }
  }

  lemma {:induction false} RenameElsewhere(a: ProjectManifest, k: nat, job: JobDefinition, b: ProjectManifest,
          place: Place, x: string)
    requires DistinctIds(a.jobs) && DistinctIds(b.jobs) && k < |a.jobs| && b == a.(jobs := a.jobs[k := job])
    requires x != BuildQualifiedJobId(a.projectId, a.jobs[k].id) && x != BuildQualifiedJobId(a.projectId, job.id)
    ensures Look(a, place, x) == Look(b, place, x)
  {
    forall j: JobDefinition | BuildQualifiedJobId(a.projectId, j.id) == x ensures j in a.jobs <==> j in b.jobs {
      if j in a.jobs {
        var i :| 0 <= i < |a.jobs| && a.jobs[i] == j;
        assert b.jobs[i] == j;
      }
      if j in b.jobs {
        var i :| 0 <= i < |b.jobs| && b.jobs[i] == j;
        assert a.jobs[i] == j;
      }
    }
    SameLook(a, b, place, x);
  }

  /** The plan of a rename. */
  ghost predicate MoveChanges(changes: seq<Change>, from: string, to: string) {
    && from in ChangeIds(changes) && to in ChangeIds(changes)
    && forall c :: c in changes ==>
         c.kind == if c.qualifiedId == from then Remove else if c.qualifiedId == to then Create else Noop
  }

  lemma {:induction false} MovePlan(changes: seq<Change>, before: map<string, Job>, after: map<string, Job>,
          from: string, to: string)
    requires DiffPlan(changes, before, after) && Moved(before, after, from, to)
    ensures MoveChanges(changes, from, to)
  {
    forall c | c in changes && c.qualifiedId != from && c.qualifiedId != to ensures c.kind == Noop {
      assert Lookup(before, c.qualifiedId) == Lookup(after, c.qualifiedId);
      var i :| 0 <= i < |changes| && changes[i] == c;
      assert ChangeIds(changes)[i] == c.qualifiedId;
    }
  }

  // ---- from raw edits to plans

  lemma {:induction false} AppendedParse(raw: RawManifest, job: RawJob, after: RawManifest)
    requires SchemaOk(raw) && SchemaOk(after) && after == raw.(jobs := Listed(raw.jobs.jobs + [job]))
    ensures JobSchemaOk(job) && Parse(after) == Parse(raw).(jobs := Parse(raw).jobs + [ParseJob(job)])
  {
    assert after.jobs.jobs[|raw.jobs.jobs|] == job;
    forall i | 0 <= i < |raw.jobs.jobs| ensures Parse(after).jobs[i] == Parse(raw).jobs[i] {
      assert after.jobs.jobs[i] == raw.jobs.jobs[i];
    }
  }

  lemma {:induction false} RemovedParse(raw: RawManifest, k: nat, after: RawManifest)
    requires SchemaOk(raw) && k < |raw.jobs.jobs| && after == raw.(jobs := Listed(WithoutAt(raw.jobs.jobs, k)))
    requires SchemaOk(after)
    ensures Parse(after) == Parse(raw).(jobs := Parse(raw).jobs[..k] + Parse(raw).jobs[k + 1..])
  {
    ParsedWithout(raw.jobs.jobs, k, after.jobs.jobs, ParseJobs(raw.jobs.jobs), ParseJobs(after.jobs.jobs));
  }

  lemma {:induction false} ParsedWithout<A, B>(s: seq<A>, k: nat, left: seq<A>, parsed: seq<B>, rest: seq<B>)
    requires |parsed| == |s| && |rest| == |left| && k < |s| && left == s[..k] + s[k + 1..]
    requires forall i, j :: 0 <= i < |s| && 0 <= j < |left| && s[i] == left[j] ==> parsed[i] == rest[j]
    ensures rest == parsed[..k] + parsed[k + 1..]
  {
    forall j | 0 <= j < |rest| ensures rest[j] == parsed[if j < k then j else j + 1] {
      assert left[j] == s[if j < k then j else j + 1];
    }
  }

  lemma {:induction false} SwappedParse(raw: RawManifest, k: nat, job: RawJob, after: RawManifest)
    requires SchemaOk(raw) && SchemaOk(after) && k < |raw.jobs.jobs|
    requires after == raw.(jobs := Listed(raw.jobs.jobs[k := job]))
    ensures JobSchemaOk(job) && Parse(after) == Parse(raw).(jobs := Parse(raw).jobs[k := ParseJob(job)])
  {
    assert after.jobs.jobs[k] == job;
    forall i | 0 <= i < |raw.jobs.jobs| && i != k ensures Parse(after).jobs[i] == Parse(raw).jobs[i] {
      assert after.jobs.jobs[i] == raw.jobs.jobs[i];
    }
  }

  /** Raw data that compares equal parses to jobs with the same normal form. */
  lemma {:induction false} SameJobParses(a: RawJob, b: RawJob)
    requires JobSchemaOk(a) && JobSchemaOk(b) && SameJob(a, b)
    ensures SameDefinition(ParseJob(a), ParseJob(b))
  {
    assert FieldOk(ScheduleOf, a[ScheduleOf]) && FieldOk(ScheduleOf, b[ScheduleOf]);
    assert a[ScheduleOf].items[0] == b[ScheduleOf].items[0] by {
      assert AsMap(a[ScheduleOf].items) == AsMap(b[ScheduleOf].items);
      assert a[ScheduleOf].items[0].0 in AsMap(b[ScheduleOf].items);
    }
    SameFields(a, b);
  }

  lemma {:induction false} SameFields(a: RawJob, b: RawJob)
    requires JobSchemaOk(a) && JobSchemaOk(b) && SameJob(a, b)
    ensures a[Id] == b[Id] && a[Command] == b[Command]
    ensures forall key :: key in {Description, Enabled, WorkingDir, ShellOf, Overlap} && key in a ==>
      key in b && a[key] == b[key]
    ensures EnvOf in a ==>
      EnvOf in b && a[EnvOf].Table? && b[EnvOf].Table? && AsMap(a[EnvOf].items) == AsMap(b[EnvOf].items)
  {
    assert forall k :: k in a ==> FieldOk(k, a[k]) && FieldOk(k, b[k]) && SameValue(a[k], b[k]);
  }

  /** The job that an edit is about is there, and an update does not rename it. */
  predicate KeepsId(jobs: seq<RawJob>, projectId: string, edit: Edit) {
    edit.UpdateJob? ==>
      var k := Find(jobs, projectId, edit.identifier);
      k < |jobs| && JobIdText(Updated(jobs[k], edit.clear, edit.updates)) == JobIdText(jobs[k])
  }

  /** The qualified id that an edit is about. */
  function Target(raw: RawManifest, edit: Edit): string {
    if edit.AddJob? then BuildQualifiedJobId(raw.projectId, JobIdText(edit.job))
    else
      var k := Find(JobsOf(raw), raw.projectId, edit.identifier);
      BuildQualifiedJobId(raw.projectId, if k < |JobsOf(raw)| then JobIdText(JobsOf(raw)[k]) else "")
  }

  /** The change that an edit should show as: for an update, what the two normal forms of the job differ by. */
  ghost function ExpectedKind(raw: RawManifest, edit: Edit, place: Place): ChangeKind
    requires SchemaOk(raw)
  {
    match edit
    case AddJob(_) => Create
    case RemoveJob(_) => Remove
    case UpdateJob(identifier, clear, updates) =>
      var k := Find(raw.jobs.jobs, raw.projectId, identifier);
      if k == |raw.jobs.jobs| then Noop
      else
        var job := Updated(raw.jobs.jobs[k], clear, updates);
        if !JobSchemaOk(job) then Noop else UpdateKind(Parse(raw), place, Parse(raw).jobs[k], ParseJob(job))
  }

  ghost function UpdateKind(m: ProjectManifest, place: Place, before: JobDefinition, after: JobDefinition): ChangeKind {
    DiffKind(Some(NormalOf(m, place, before)), Some(NormalOf(m, place, after)))
  }

  lemma {:induction false} AddDifference(raw: RawManifest, job: RawJob, machine: Machine, place: Place)
    requires Valid(raw, machine) && AfterEdit(raw, AddJob(job), machine).0.Ok?
    ensures var after := AfterEdit(raw, AddJob(job), machine).1;
      && Valid(after, machine)
      && OnlyDifference(IndexOf(Parse(raw), place), IndexOf(Parse(after), place), Target(raw, AddJob(job)), Create)
  {
    var after := raw.(jobs := Listed(raw.jobs.jobs + [job]));
    Rewrites(raw, AddJob(job), after, machine);
    AppendedParse(raw, job, after);
    ParsedId(job);
    AppendDifference(Parse(raw), ParseJob(job), Parse(after), place);
  }

  lemma {:induction false} RemoveDifference(raw: RawManifest, identifier: string, machine: Machine, place: Place)
    requires Valid(raw, machine) && AfterEdit(raw, RemoveJob(identifier), machine).0.Ok?
    ensures var after := AfterEdit(raw, RemoveJob(identifier), machine).1;
      && Valid(after, machine)
      && OnlyDifference(IndexOf(Parse(raw), place), IndexOf(Parse(after), place), Target(raw, RemoveJob(identifier)),
                        Remove)
  {
    var k := Find(raw.jobs.jobs, raw.projectId, identifier);
    var after := raw.(jobs := Listed(WithoutAt(raw.jobs.jobs, k)));
    Rewrites(raw, RemoveJob(identifier), after, machine);
    RemovedParse(raw, k, after);
    ParsedId(raw.jobs.jobs[k]);
    DropDifference(Parse(raw), k, Parse(after), place);
  }

  /** Nothing was written: the data compares equal, and so do the normal forms. */
  lemma {:induction false} UnchangedKind(raw: RawManifest, k: nat, job: RawJob, place: Place)
    requires SchemaOk(raw) && k < |raw.jobs.jobs| && JobSchemaOk(job) && SameJob(job, raw.jobs.jobs[k])
    ensures UpdateKind(Parse(raw), place, Parse(raw).jobs[k], ParseJob(job)) == Noop
  {
    SameJobParses(job, raw.jobs.jobs[k]);
    SameNormalJob(raw.projectId, raw.defaults, raw.defaults, ParseJob(job), Parse(raw).jobs[k], place.resolve);
  }

  lemma {:induction false} NoDifference(m: ProjectManifest, k: nat, place: Place)
    requires DistinctIds(m.jobs) && k < |m.jobs|
    ensures OnlyDifference(IndexOf(m, place), IndexOf(m, place), BuildQualifiedJobId(m.projectId, m.jobs[k].id), Noop)
  {
    LookAt(m, place, k);
  }

  lemma {:induction false} UpdateDifference(raw: RawManifest, edited: RawManifest, k: nat, job: RawJob,
          machine: Machine, place: Place)
    requires Valid(raw, machine) && Valid(edited, machine) && k < |raw.jobs.jobs|
    requires edited == raw.(jobs := Listed(raw.jobs.jobs[k := job]))
    requires JobIdText(job) == JobIdText(raw.jobs.jobs[k])
    ensures JobSchemaOk(job)
    ensures OnlyDifference(IndexOf(Parse(raw), place), IndexOf(Parse(edited), place),
                           BuildQualifiedJobId(raw.projectId, JobIdText(job)),
                           UpdateKind(Parse(raw), place, Parse(raw).jobs[k], ParseJob(job)))
    ensures SameJob(job, raw.jobs.jobs[k]) ==>
      OnlyDifference(IndexOf(Parse(raw), place), IndexOf(Parse(raw), place),
                     BuildQualifiedJobId(raw.projectId, JobIdText(job)),
                     UpdateKind(Parse(raw), place, Parse(raw).jobs[k], ParseJob(job)))
  {
    SwappedParse(raw, k, job, edited);
    ParsedId(job);
    ParsedId(raw.jobs.jobs[k]);
    SwapDifference(Parse(raw), k, ParseJob(job), Parse(edited), place);
    if SameJob(job, raw.jobs.jobs[k]) {
      UnchangedKind(raw, k, job, place);
      NoDifference(Parse(raw), k, place);
    }
  }

  lemma {:induction false} StoredUpdate(raw: RawManifest, edit: Edit, k: nat, job: RawJob, machine: Machine)
    requires Valid(raw, machine) && edit.UpdateJob? && AfterEdit(raw, edit, machine).0.Ok?
    requires k == Find(raw.jobs.jobs, raw.projectId, edit.identifier) < |raw.jobs.jobs|
    requires job == Updated(raw.jobs.jobs[k], edit.clear, edit.updates)
    ensures var edited := raw.(jobs := Listed(raw.jobs.jobs[k := job]));
      && Valid(edited, machine)
      && (|| AfterEdit(raw, edit, machine).1 == edited
          || (AfterEdit(raw, edit, machine).1 == raw && SameJob(job, raw.jobs.jobs[k])))
  {
    var edited := raw.(jobs := Listed(raw.jobs.jobs[k := job]));
    assert Edited(raw, edit) == Ok(edited);
    if SameRaw(edited, raw) {
      assert edited.jobs.jobs[k] == job;
      assert edited.jobs == raw.jobs ==> job == raw.jobs.jobs[k];
    }
  }

  lemma {:induction false} UpdateEditDifference(raw: RawManifest, edit: Edit, k: nat, job: RawJob, machine: Machine,
          place: Place)
    requires Valid(raw, machine) && edit.UpdateJob? && AfterEdit(raw, edit, machine).0.Ok?
    requires k == Find(raw.jobs.jobs, raw.projectId, edit.identifier) < |raw.jobs.jobs|
    requires job == Updated(raw.jobs.jobs[k], edit.clear, edit.updates) && JobIdText(job) == JobIdText(raw.jobs.jobs[k])
    ensures JobSchemaOk(job) && Valid(AfterEdit(raw, edit, machine).1, machine)
    ensures OnlyDifference(IndexOf(Parse(raw), place), IndexOf(Parse(AfterEdit(raw, edit, machine).1), place),
                           BuildQualifiedJobId(raw.projectId, JobIdText(job)), UpdateKind(Parse(raw), place,
                                                                   Parse(raw).jobs[k], ParseJob(job)))
  {
    StoredUpdate(raw, edit, k, job, machine);
    UpdateDifference(raw, raw.(jobs := Listed(raw.jobs.jobs[k := job])), k, job, machine, place);
  }

  /** A successful edit that renames no job makes one difference to the desired jobs. */
  lemma {:induction false} EditDifference(raw: RawManifest, edit: Edit, machine: Machine, place: Place)
    requires Valid(raw, machine) && AfterEdit(raw, edit, machine).0.Ok? && KeepsId(raw.jobs.jobs, raw.projectId, edit)
    ensures Valid(AfterEdit(raw, edit, machine).1, machine)
    ensures OnlyDifference(IndexOf(Parse(raw), place), IndexOf(Parse(AfterEdit(raw, edit, machine).1), place),
                           Target(raw, edit), ExpectedKind(raw, edit, place))
  {
    match edit {
      case AddJob(job) => AddDifference(raw, job, machine, place);
      case RemoveJob(identifier) => RemoveDifference(raw, identifier, machine, place);
      case UpdateJob(identifier, clear, updates) =>
        var k := Find(raw.jobs.jobs, raw.projectId, identifier);
        UpdateEditDifference(raw, edit, k, Updated(raw.jobs.jobs[k], clear, updates), machine, place);
    }
  }

  /** The plan of a stored manifest against a deployed state. */
  ghost function PlanOf(raw: RawManifest, machine: Machine, place: Place, h: Digest, backend: string,
          state: ProjectState): seq<Change>
    requires Valid(raw, machine)
  {
    var m := NormalizeManifest(Parse(raw), place);
    NormalizedContents(Parse(raw), place);
    HashesComplete(m, h);
    Changes(m, backend, BuildHashes(m, h), state)
  }

  lemma {:induction false} PlanIsDifference(raw: RawManifest, after: RawManifest, machine: Machine, place: Place,
          h: Digest, backend: string, state: ProjectState)
    requires Valid(raw, machine) && Valid(after, machine)
    requires Injective(h) && DistinctDeployed(state.jobs) && AllNoop(PlanOf(raw, machine, place, h, backend, state))
    ensures DiffPlan(PlanOf(after, machine, place, h, backend, state), IndexOf(Parse(raw), place),
                     IndexOf(Parse(after), place))
  {
    var before, now := NormalizeManifest(Parse(raw), place), NormalizeManifest(Parse(after), place);
    NormalizedContents(Parse(raw), place);
    NormalizedContents(Parse(after), place);
    HashesComplete(before, h);
    HashesComplete(now, h);
    DiffOfManifests(before, now, h, backend, state);
  }

  /** One edit, one change: starting from a project that is in place, the plan after a successful edit that renames no
      job holds one CREATE for an added job, one REMOVE for a removed one, the difference of the two versions for an
      updated one, and NOOP for every other job. */
  lemma {:induction false} OneEditOneChange(raw: RawManifest, edit: Edit, machine: Machine, place: Place, h: Digest,
          backend: string, state: ProjectState)
    requires Valid(raw, machine) && AfterEdit(raw, edit, machine).0.Ok? && KeepsId(raw.jobs.jobs, raw.projectId, edit)
    requires Injective(h) && DistinctDeployed(state.jobs) && AllNoop(PlanOf(raw, machine, place, h, backend, state))
    ensures Valid(AfterEdit(raw, edit, machine).1, machine)
    ensures OnlyChange(PlanOf(AfterEdit(raw, edit, machine).1, machine, place, h, backend, state), Target(raw, edit),
                       ExpectedKind(raw, edit, place))
  {
    var after := AfterEdit(raw, edit, machine).1;
    EditDifference(raw, edit, machine, place);
    PlanIsDifference(raw, after, machine, place, h, backend, state);
    OneDifference(PlanOf(after, machine, place, h, backend, state), IndexOf(Parse(raw), place),
                  IndexOf(Parse(after), place),
                  Target(raw, edit), ExpectedKind(raw, edit, place));
  }

  lemma {:induction false} RenameEdit(raw: RawManifest, edit: Edit, k: nat, job: RawJob, machine: Machine, place: Place)
    requires Valid(raw, machine) && edit.UpdateJob? && AfterEdit(raw, edit, machine).0.Ok?
    requires k == Find(raw.jobs.jobs, raw.projectId, edit.identifier) < |raw.jobs.jobs|
    requires job == Updated(raw.jobs.jobs[k], edit.clear, edit.updates) && JobIdText(job) != JobIdText(raw.jobs.jobs[k])
    ensures Valid(AfterEdit(raw, edit, machine).1, machine)
    ensures Moved(IndexOf(Parse(raw), place), IndexOf(Parse(AfterEdit(raw, edit, machine).1), place),
                        BuildQualifiedJobId(raw.projectId, JobIdText(raw.jobs.jobs[k])),
                        BuildQualifiedJobId(raw.projectId, JobIdText(job)))
  {
    var edited := raw.(jobs := Listed(raw.jobs.jobs[k := job]));
    StoredUpdate(raw, edit, k, job, machine);
    SwappedParse(raw, k, job, edited);
    ParsedId(job);
    ParsedId(raw.jobs.jobs[k]);
    if SameJob(job, raw.jobs.jobs[k]) {
      SameFields(job, raw.jobs.jobs[k]);
    }
    RenameDifference(Parse(raw), k, ParseJob(job), Parse(edited), place);
  }

  /** A renamed job is one REMOVE and one CREATE, and nothing else happens. */
  lemma {:induction false} RenameTwoChanges(raw: RawManifest, edit: Edit, k: nat, job: RawJob, machine: Machine,
          place: Place, h: Digest, backend: string, state: ProjectState)
    requires Valid(raw, machine) && edit.UpdateJob? && AfterEdit(raw, edit, machine).0.Ok?
    requires k == Find(raw.jobs.jobs, raw.projectId, edit.identifier) < |raw.jobs.jobs|
    requires job == Updated(raw.jobs.jobs[k], edit.clear, edit.updates) && JobIdText(job) != JobIdText(raw.jobs.jobs[k])
    requires Injective(h) && DistinctDeployed(state.jobs) && AllNoop(PlanOf(raw, machine, place, h, backend, state))
    ensures Valid(AfterEdit(raw, edit, machine).1, machine)
    ensures MoveChanges(PlanOf(AfterEdit(raw, edit, machine).1, machine, place, h, backend, state),
                        BuildQualifiedJobId(raw.projectId, JobIdText(raw.jobs.jobs[k])),
                        BuildQualifiedJobId(raw.projectId, JobIdText(job)))
  {
    var after := AfterEdit(raw, edit, machine).1;
    RenameEdit(raw, edit, k, job, machine, place);
    PlanIsDifference(raw, after, machine, place, h, backend, state);
    MovePlan(PlanOf(after, machine, place, h, backend, state), IndexOf(Parse(raw), place), IndexOf(Parse(after), place),
             BuildQualifiedJobId(raw.projectId, JobIdText(raw.jobs.jobs[k])),
             BuildQualifiedJobId(raw.projectId, JobIdText(job)));
  }

  // ---- what an update of one field shows as

  lemma {:induction false} OneUpdate(job: RawJob, key: Field, value: Value)
    ensures Updated(job, [], [(key, value)]) == job[key := value]
  {
    var updates := [(key, value)];
    assert updates[..|updates| - 1] == [];
    assert Filled(job, updates[..|updates| - 1]) == job;
  }

  /** The change for an update of one field, from the two versions of the job. */
  lemma {:induction false} FieldKind(raw: RawManifest, identifier: string, key: Field, value: Value, place: Place,
          k: nat, after: JobDefinition)
    requires SchemaOk(raw) && k == Find(raw.jobs.jobs, raw.projectId, identifier) < |raw.jobs.jobs|
    requires JobSchemaOk(raw.jobs.jobs[k][key := value]) && ParseJob(raw.jobs.jobs[k][key := value]) == after
    ensures ExpectedKind(raw, UpdateJob(identifier, [], [(key, value)]), place) ==
      UpdateKind(Parse(raw), place, Parse(raw).jobs[k], after)
    ensures key != Id ==> KeepsId(raw.jobs.jobs, raw.projectId, UpdateJob(identifier, [], [(key, value)]))
  {
    OneUpdate(raw.jobs.jobs[k], key, value);
  }

  lemma {:induction false} EnabledUpdate(m: ProjectManifest, place: Place, job: JobDefinition, enabled: bool)
    ensures UpdateKind(m, place, job, job.(enabled := enabled)) ==
      if job.enabled == enabled then Noop else if enabled then Enable else Disable
  {
  }

  lemma {:induction false} CommandUpdate(m: ProjectManifest, place: Place, job: JobDefinition, command: string)
    ensures UpdateKind(m, place, job, job.(command := command)) == if job.command == command then Noop else Update
  {
  }

  lemma {:induction false} OverlapUpdate(m: ProjectManifest, place: Place, job: JobDefinition, overlap: OverlapPolicy)
    ensures UpdateKind(m, place, job, job.(overlap := overlap)) == if job.overlap == overlap then Noop else Update
  {
  }

  /** Turning a job on or off is one ENABLE or DISABLE; setting what is set already is no change, even where it adds
      the `enabled` key to the file. */
  lemma {:induction false} EnableKind(raw: RawManifest, identifier: string, enabled: bool, place: Place)
    requires SchemaOk(raw) && Find(raw.jobs.jobs, raw.projectId, identifier) < |raw.jobs.jobs|
    ensures KeepsId(raw.jobs.jobs, raw.projectId, SetEnabled(identifier, enabled))
    ensures var k := Find(raw.jobs.jobs, raw.projectId, identifier);
      ExpectedKind(raw, SetEnabled(identifier, enabled), place) ==
      if Parse(raw).jobs[k].enabled == enabled then Noop else if enabled then Enable else Disable
  {
    var k := Find(raw.jobs.jobs, raw.projectId, identifier);
    EnabledParse(raw.jobs.jobs[k], enabled);
    FieldKind(raw, identifier, Enabled, Flag(enabled), place, k, Parse(raw).jobs[k].(enabled := enabled));
    EnabledUpdate(Parse(raw), place, Parse(raw).jobs[k], enabled);
  }

  lemma {:induction false} EnabledParse(job: RawJob, enabled: bool)
    requires JobSchemaOk(job)
    ensures JobSchemaOk(job[Enabled := Flag(enabled)])
    ensures ParseJob(job[Enabled := Flag(enabled)]) == ParseJob(job).(enabled := enabled)
  {
  }

  /** A new command is one UPDATE. */
  lemma {:induction false} CommandKind(raw: RawManifest, identifier: string, command: string, place: Place)
    requires SchemaOk(raw) && Find(raw.jobs.jobs, raw.projectId, identifier) < |raw.jobs.jobs|
    ensures KeepsId(raw.jobs.jobs, raw.projectId, UpdateJob(identifier, [], [(Command, Text(command))]))
    ensures var k := Find(raw.jobs.jobs, raw.projectId, identifier);
      ExpectedKind(raw, UpdateJob(identifier, [], [(Command, Text(command))]), place) ==
      if Parse(raw).jobs[k].command == command then Noop else Update
  {
    var k := Find(raw.jobs.jobs, raw.projectId, identifier);
    CommandParse(raw.jobs.jobs[k], command);
    FieldKind(raw, identifier, Command, Text(command), place, k, Parse(raw).jobs[k].(command := command));
    CommandUpdate(Parse(raw), place, Parse(raw).jobs[k], command);
  }

  lemma {:induction false} DirectoryUpdate(m: ProjectManifest, place: Place, job: JobDefinition, dir: string)
    ensures var before := Normalizer(m, place)(job).execution.workingDir;
      UpdateKind(m, place, job, job.(workingDir := Some(dir))) ==
      if before == place.resolve(if dir != "" then dir else m.defaults.workingDir) then Noop else Update
  {
  }

  lemma {:induction false} ShellUpdate(m: ProjectManifest, place: Place, job: JobDefinition, shell: string)
    ensures var before := Normalizer(m, place)(job).execution.shell;
      UpdateKind(m, place, job, job.(shell := Some(shell))) ==
      if before == (if shell != "" then shell else m.defaults.shell) then Noop else Update
  {
  }

  /** A new shell is one UPDATE, unless the job was run by that shell anyway. */
  lemma {:induction false} ShellKind(raw: RawManifest, identifier: string, shell: string, place: Place)
    requires SchemaOk(raw) && Find(raw.jobs.jobs, raw.projectId, identifier) < |raw.jobs.jobs|
    ensures KeepsId(raw.jobs.jobs, raw.projectId, UpdateJob(identifier, [], [(ShellOf, Text(shell))]))
    ensures var k := Find(raw.jobs.jobs, raw.projectId, identifier);
      var before := Normalizer(Parse(raw), place)(Parse(raw).jobs[k]).execution.shell;
      ExpectedKind(raw, UpdateJob(identifier, [], [(ShellOf, Text(shell))]), place) ==
      if before == (if shell != "" then shell else raw.defaults.shell) then Noop else Update
  {
    var k := Find(raw.jobs.jobs, raw.projectId, identifier);
    TextParse(raw.jobs.jobs[k], shell);
    FieldKind(raw, identifier, ShellOf, Text(shell), place, k, Parse(raw).jobs[k].(shell := Some(shell)));
    ShellUpdate(Parse(raw), place, Parse(raw).jobs[k], shell);
  }

  /** A new working directory is one UPDATE, unless it resolves to the directory that the job ran in anyway. */
  lemma {:induction false} WorkingDirKind(raw: RawManifest, identifier: string, dir: string, place: Place)
    requires SchemaOk(raw) && Find(raw.jobs.jobs, raw.projectId, identifier) < |raw.jobs.jobs|
    ensures KeepsId(raw.jobs.jobs, raw.projectId, UpdateJob(identifier, [], [(WorkingDir, Text(dir))]))
    ensures var k := Find(raw.jobs.jobs, raw.projectId, identifier);
      var before := Normalizer(Parse(raw), place)(Parse(raw).jobs[k]).execution.workingDir;
      ExpectedKind(raw, UpdateJob(identifier, [], [(WorkingDir, Text(dir))]), place) ==
      if before == place.resolve(if dir != "" then dir else raw.defaults.workingDir) then Noop else Update
  {
    var k := Find(raw.jobs.jobs, raw.projectId, identifier);
    TextParse(raw.jobs.jobs[k], dir);
    FieldKind(raw, identifier, WorkingDir, Text(dir), place, k, Parse(raw).jobs[k].(workingDir := Some(dir)));
    DirectoryUpdate(Parse(raw), place, Parse(raw).jobs[k], dir);
  }

  /** A changed overlap policy is one UPDATE; spelling out the default is none. */
  lemma {:induction false} OverlapKind(raw: RawManifest, identifier: string, forbid: bool, place: Place)
    requires SchemaOk(raw) && Find(raw.jobs.jobs, raw.projectId, identifier) < |raw.jobs.jobs|
    ensures var value := if forbid then "forbid" else "allow";
      var k := Find(raw.jobs.jobs, raw.projectId, identifier);
      && KeepsId(raw.jobs.jobs, raw.projectId, UpdateJob(identifier, [], [(Overlap, Text(value))]))
      && ExpectedKind(raw, UpdateJob(identifier, [], [(Overlap, Text(value))]), place) ==
         if Parse(raw).jobs[k].overlap == (if forbid then Forbid else Allow) then Noop else Update
  {
    var k, overlap := Find(raw.jobs.jobs, raw.projectId, identifier), if forbid then Forbid else Allow;
    OverlapParse(raw.jobs.jobs[k], forbid);
    FieldKind(raw, identifier, Overlap, Text(if forbid then "forbid" else "allow"), place, k,
              Parse(raw).jobs[k].(overlap := overlap));
    OverlapUpdate(Parse(raw), place, Parse(raw).jobs[k], overlap);
  }

  lemma {:induction false} TextParse(job: RawJob, text: string)
    requires JobSchemaOk(job)
    ensures JobSchemaOk(job[ShellOf := Text(text)]) && JobSchemaOk(job[WorkingDir := Text(text)])
    ensures ParseJob(job[ShellOf := Text(text)]) == ParseJob(job).(shell := Some(text))
    ensures ParseJob(job[WorkingDir := Text(text)]) == ParseJob(job).(workingDir := Some(text))
  {
  }

  lemma {:induction false} OverlapParse(job: RawJob, forbid: bool)
    requires JobSchemaOk(job)
    ensures var value := if forbid then "forbid" else "allow";
      && JobSchemaOk(job[Overlap := Text(value)])
      && ParseJob(job[Overlap := Text(value)]) == ParseJob(job).(overlap := if forbid then Forbid else Allow)
  {
  }

  lemma {:induction false} CommandParse(job: RawJob, command: string)
    requires JobSchemaOk(job)
    ensures JobSchemaOk(job[Command := Text(command)])
    ensures ParseJob(job[Command := Text(command)]) == ParseJob(job).(command := command)
  {
  }
}
