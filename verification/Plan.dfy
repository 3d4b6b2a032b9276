/** The desired-versus-deployed diff of one project, and the status report drawn from it. */
module Plan {
  import opened Contracts
  import opened Order

  datatype ChangeKind = Create | Update | Remove | Enable | Disable | Noop | Drift | Error

  datatype Reason =
    | NotPresent
    | ObservedHashDiffers
    | BackendChanged(before: string, now: string)
    | DefinitionChanged
    | DisabledButWanted
    | EnabledButUnwanted
    | UpToDate
    | NotInManifest
    | SubMinute(value: string)
    | MultiWeek(value: string)

  datatype Change = Change(
    kind: ChangeKind,
    qualifiedId: string,
    reason: Reason,
    desiredJob: Option<Job>,
    deployedJob: Option<DeployedJob>,
    desiredHash: Option<string>,
    deployedHash: Option<string>)

  datatype ProjectPlan = ProjectPlan(backend: string, manifest: NormalizedManifest, changes: seq<Change>,
      state: ProjectState)

  function KindValue(kind: ChangeKind): string {
    match kind
    case Create => "create"
    case Update => "update"
    case Remove => "remove"
    case Enable => "enable"
    case Disable => "disable"
    case Noop => "noop"
    case Drift => "drift"
    case Error => "error"
  }

  predicate ChangeLe(a: Change, b: Change) {
    if a.qualifiedId == b.qualifiedId then StrLe(KindValue(a.kind), KindValue(b.kind))
    else StrLe(a.qualifiedId, b.qualifiedId)
  }

  predicate DeployedLe(a: DeployedJob, b: DeployedJob) {
    StrLe(a.qualifiedId, b.qualifiedId)
  }

  lemma {:induction false} ChangeLeTotalPreorder()
    ensures TotalPreorder(ChangeLe) && TotalPreorder(DeployedLe)
  {
    StrLeTotalPreorder();
    forall x, y, z | ChangeLe(x, y) && ChangeLe(y, z) ensures ChangeLe(x, z) {
      StrLeTotal(x.qualifiedId, y.qualifiedId);
      StrLeTotal(y.qualifiedId, z.qualifiedId);
    }
  }

  // ---- specification of the diff

  /** A dictionary built from the list: a later entry with the same id wins. */
  function DeployedIndex(jobs: seq<DeployedJob>): map<string, DeployedJob> {
    if jobs == [] then map[]
    else
      var last := jobs[|jobs| - 1];
      DeployedIndex(jobs[..|jobs| - 1])[last.qualifiedId := last]
  }

  function DesiredIndex(jobs: seq<Job>): map<string, Job> {
    if jobs == [] then map[]
    else
      var last := jobs[|jobs| - 1];
      DesiredIndex(jobs[..|jobs| - 1])[last.qualifiedId := last]
  }

  /** `deployed_job.definition_hash or deployed_job.desired_hash`. */
  function EffectiveDefinitionHash(job: DeployedJob): string {
    if job.definitionHash.Some? && job.definitionHash.value != "" then job.definitionHash.value else job.desiredHash
  }

  function Deployed(kind: ChangeKind, reason: Reason, job: Job, deployed: DeployedJob, hash: string): Change {
    Change(kind, job.qualifiedId, reason, Some(job), Some(deployed), Some(hash), Some(deployed.desiredHash))
  }

  /** The verdict on one desired job, given what is deployed under its id. */
  function ChangeFor(job: Job, backend: string, hash: string, definitionHash: string, found: Option<DeployedJob>)
    : (c: Change)
    ensures c.qualifiedId == job.qualifiedId
  {
    match found
    case None =>
      Change(Create, job.qualifiedId, NotPresent, Some(job), None, Some(hash), None)
    case Some(d) =>
      if d.observedHash.Some? && d.observedHash.value != d.desiredHash then
        Deployed(Drift, ObservedHashDiffers, job, d, hash)
      else if d.backend != backend then
        Deployed(Update, BackendChanged(d.backend, backend), job, d, hash)
      else if EffectiveDefinitionHash(d) != definitionHash then
        Deployed(Update, DefinitionChanged, job, d, hash)
      else if job.enabled && !d.enabled then
        Deployed(Enable, DisabledButWanted, job, d, hash)
      else if !job.enabled && d.enabled then
        Deployed(Disable, EnabledButUnwanted, job, d, hash)
      else
        Deployed(Noop, UpToDate, job, d, hash)
  }

  function Removal(d: DeployedJob): Change {
    Change(Remove, d.qualifiedId, NotInManifest, None, Some(d), None, Some(d.desiredHash))
  }

  function Lookup<T>(m: map<string, T>, id: string): Option<T> {
    if id in m then Some(m[id]) else None
  }

  function DesiredChanges(jobs: seq<Job>, backend: string, hashes: Hashes, deployed: map<string, DeployedJob>)
    : (r: seq<Change>)
    requires Hashed(jobs, hashes)
    ensures |r| == |jobs|
  {
    if jobs == [] then []
    else
      var init, last := jobs[..|jobs| - 1], jobs[|jobs| - 1];
      var id := last.qualifiedId;
      DesiredChanges(init, backend, hashes, deployed)
      + [ChangeFor(last, backend, hashes.jobs[id], hashes.definitions[id], Lookup(deployed, id))]
  }

  function Removals(deployed: seq<DeployedJob>, desired: map<string, Job>): seq<Change> {
    if deployed == [] then []
    else
      var init, last := deployed[..|deployed| - 1], deployed[|deployed| - 1];
      Removals(init, desired) + if last.qualifiedId in desired then [] else [Removal(last)]
  }

  function Changes(manifest: NormalizedManifest, backend: string, hashes: Hashes, state: ProjectState): seq<Change>
    requires Hashed(manifest.jobs, hashes)
  {
    Sort(DesiredChanges(manifest.jobs, backend, hashes, DeployedIndex(state.jobs))
         + Removals(Sort(state.jobs, DeployedLe), DesiredIndex(manifest.jobs)),
         ChangeLe)
  }

  function PlanSpec(manifest: NormalizedManifest, backend: string, hashes: Hashes, state: ProjectState): ProjectPlan
    requires Hashed(manifest.jobs, hashes)
  {
    ProjectPlan(backend, manifest, Changes(manifest, backend, hashes, state),
                ProjectState(if state.projectId != "" then state.projectId else manifest.projectId,
                             backend, Some(hashes.manifest), state.jobs))
  }

  /** `build_project_plan`: two loops that append to one list, then one sort. */
  method BuildProjectPlan(manifest: NormalizedManifest, backend: string, hashes: Hashes, state: ProjectState)
    returns (plan: ProjectPlan)
    requires Hashed(manifest.jobs, hashes)
    ensures plan == PlanSpec(manifest, backend, hashes, state)
  {
    var deployedById := DeployedIndex(state.jobs);
    var desiredById := DesiredIndex(manifest.jobs);
    var changes := [];
    for i := 0 to |manifest.jobs|
      invariant changes == DesiredChanges(manifest.jobs[..i], backend, hashes, deployedById)
    {
      assert manifest.jobs[..i + 1][..i] == manifest.jobs[..i];
      var job := manifest.jobs[i];
      changes := changes + [ChangeFor(job, backend, hashes.jobs[job.qualifiedId], hashes.definitions[job.qualifiedId],
                                      Lookup(deployedById, job.qualifiedId))];
    }
    assert manifest.jobs[..|manifest.jobs|] == manifest.jobs;
    ghost var wanted := changes;
    var deployed := Sort(state.jobs, DeployedLe);
    for i := 0 to |deployed|
      invariant changes == wanted + Removals(deployed[..i], desiredById)
    {
      assert deployed[..i + 1][..i] == deployed[..i];
      if deployed[i].qualifiedId !in desiredById {
        changes := changes + [Removal(deployed[i])];
      }
    }
    assert deployed[..|deployed|] == deployed;
    plan := ProjectPlan(backend, manifest, Sort(changes, ChangeLe),
                        ProjectState(if state.projectId != "" then state.projectId else manifest.projectId,
                                     backend, Some(hashes.manifest), state.jobs));
  }

  // ---- the plan is a sorted partition of the desired and deployed ids

  lemma {:induction false} DeployedIndexContents(jobs: seq<DeployedJob>)
    requires DistinctDeployed(jobs)
    ensures forall i :: 0 <= i < |jobs| ==>
      jobs[i].qualifiedId in DeployedIndex(jobs) && DeployedIndex(jobs)[jobs[i].qualifiedId] == jobs[i]
    ensures forall id :: id in DeployedIndex(jobs) ==>
      DeployedIndex(jobs)[id] in jobs && DeployedIndex(jobs)[id].qualifiedId == id
  {
    if jobs != [] {
      var init := jobs[..|jobs| - 1];
      DeployedIndexContents(init);
      assert forall i :: 0 <= i < |init| ==> init[i] == jobs[i];
      assert jobs[|jobs| - 1] in jobs;
    }
  }

  lemma {:induction false} DesiredIndexContents(jobs: seq<Job>)
    requires DistinctJobs(jobs)
    ensures forall i :: 0 <= i < |jobs| ==>
      jobs[i].qualifiedId in DesiredIndex(jobs) && DesiredIndex(jobs)[jobs[i].qualifiedId] == jobs[i]
    ensures forall id :: id in DesiredIndex(jobs) ==>
      DesiredIndex(jobs)[id] in jobs && DesiredIndex(jobs)[id].qualifiedId == id
  {
    if jobs != [] {
      var init := jobs[..|jobs| - 1];
      DesiredIndexContents(init);
      assert forall i :: 0 <= i < |init| ==> init[i] == jobs[i];
      assert jobs[|jobs| - 1] in jobs;
    }
  }

  predicate SortedIds(ids: seq<string>) {
    forall i, j :: 0 <= i < j < |ids| ==> ids[i] != ids[j] && StrLe(ids[i], ids[j])
  }

  function ChangeIds(changes: seq<Change>): (ids: seq<string>)
    ensures |ids| == |changes|
  {
    seq(|changes|, i requires 0 <= i < |changes| => changes[i].qualifiedId)
  }

  /** The one change that an id of either side gets. */
  ghost function Verdict(id: string, desired: map<string, Job>, deployed: map<string, DeployedJob>, backend: string,
          hashes: Hashes): Change
    requires id in desired || id in deployed
    requires forall k :: k in desired ==> k in hashes.jobs && k in hashes.definitions
  {
    if id in desired then ChangeFor(desired[id], backend, hashes.jobs[id], hashes.definitions[id], Lookup(deployed, id))
    else Removal(deployed[id])
  }

  /** Every change is the verdict on its own id. */
  ghost predicate Verdicts(changes: seq<Change>, desired: map<string, Job>, deployed: map<string, DeployedJob>,
          backend: string, hashes: Hashes)
    requires forall k :: k in desired ==> k in hashes.jobs && k in hashes.definitions
  {
    forall c :: c in changes ==>
      && (c.qualifiedId in desired || c.qualifiedId in deployed)
      && c == Verdict(c.qualifiedId, desired, deployed, backend, hashes)
  }

  lemma {:induction false} RemovalsContents(deployed: seq<DeployedJob>, desired: map<string, Job>)
    requires DistinctDeployed(deployed)
    ensures forall c :: c in Removals(deployed, desired) ==> (
      && c.deployedJob.Some? && c.deployedJob.value in deployed
      && c.qualifiedId !in desired && c == Removal(c.deployedJob.value))
    ensures forall d :: d in deployed && d.qualifiedId !in desired ==> Removal(d) in Removals(deployed, desired)
    ensures DistinctBy(Removals(deployed, desired), (c: Change) => c.qualifiedId)
  {
    if deployed != [] {
      var init, last := deployed[..|deployed| - 1], deployed[|deployed| - 1];
      assert deployed == init + [last];
      RemovalsContents(init, desired);
      var r := Removals(init, desired);
      forall i | 0 <= i < |r| ensures r[i].qualifiedId != last.qualifiedId {
        assert r[i] in r;
      }
    }
  }

  lemma {:induction false} DesiredAt(jobs: seq<Job>, backend: string, hashes: Hashes,
          deployed: map<string, DeployedJob>, i: nat)
    requires Hashed(jobs, hashes) && i < |jobs|
    ensures DesiredChanges(jobs, backend, hashes, deployed)[i] ==
      ChangeFor(jobs[i], backend, hashes.jobs[jobs[i].qualifiedId], hashes.definitions[jobs[i].qualifiedId],
                Lookup(deployed, jobs[i].qualifiedId))
  {
    if i < |jobs| - 1 {
      DesiredAt(jobs[..|jobs| - 1], backend, hashes, deployed, i);
    }
  }

  lemma {:induction false} DesiredContents(jobs: seq<Job>, backend: string, hashes: Hashes,
          deployed: map<string, DeployedJob>)
    requires Hashed(jobs, hashes) && DistinctJobs(jobs)
    ensures forall k :: k in DesiredIndex(jobs) ==> k in hashes.jobs && k in hashes.definitions
    ensures Verdicts(DesiredChanges(jobs, backend, hashes, deployed), DesiredIndex(jobs), deployed, backend, hashes)
    ensures forall k :: k in ChangeIds(DesiredChanges(jobs, backend, hashes, deployed)) <==> k in DesiredIndex(jobs)
    ensures DistinctBy(DesiredChanges(jobs, backend, hashes, deployed), (c: Change) => c.qualifiedId)
  {
    var desired := DesiredIndex(jobs);
    var a := DesiredChanges(jobs, backend, hashes, deployed);
    DesiredIndexContents(jobs);
    forall i | 0 <= i < |a|
      ensures a[i].qualifiedId == jobs[i].qualifiedId
      ensures a[i] == Verdict(jobs[i].qualifiedId, desired, deployed, backend, hashes)
    {
      DesiredAt(jobs, backend, hashes, deployed, i);
    }
    SameIds(jobs, a);
  }

  lemma {:induction false} SameIds(jobs: seq<Job>, changes: seq<Change>)
    requires DistinctJobs(jobs) && |changes| == |jobs|
    requires forall i :: 0 <= i < |jobs| ==> changes[i].qualifiedId == jobs[i].qualifiedId
    ensures forall k :: k in ChangeIds(changes) <==> k in DesiredIndex(jobs)
    ensures DistinctBy(changes, (c: Change) => c.qualifiedId)
  {
    DesiredIndexContents(jobs);
    forall k | k in DesiredIndex(jobs) ensures k in ChangeIds(changes) {
      var i :| 0 <= i < |jobs| && jobs[i] == DesiredIndex(jobs)[k];
      assert ChangeIds(changes)[i] == k;
    }
  }

  lemma {:induction false} SortedDeployed(jobs: seq<DeployedJob>)
    requires DistinctDeployed(jobs)
    ensures DistinctDeployed(Sort(jobs, DeployedLe))
    ensures forall d ::
      d in Sort(jobs, DeployedLe) <==> d.qualifiedId in DeployedIndex(jobs) && DeployedIndex(jobs)[d.qualifiedId] == d
  {
    DeployedIndexContents(jobs);
    DistinctPermutation(jobs, Sort(jobs, DeployedLe), (d: DeployedJob) => d.qualifiedId);
    MultisetMembers(jobs, Sort(jobs, DeployedLe));
  }

  lemma {:induction false} RemovedContents(jobs: seq<DeployedJob>, desired: map<string, Job>, r: seq<Change>)
    requires DistinctDeployed(jobs)
    requires r == Removals(Sort(jobs, DeployedLe), desired)
    ensures DistinctBy(r, (c: Change) => c.qualifiedId)
    ensures forall c :: c in r ==>
      && c.qualifiedId !in desired && c.qualifiedId in DeployedIndex(jobs)
      && c == Removal(DeployedIndex(jobs)[c.qualifiedId])
    ensures forall k :: k in ChangeIds(r) <==> k in DeployedIndex(jobs) && k !in desired
  {
    var deployed := DeployedIndex(jobs);
    DeployedIndexContents(jobs);
    SortedDeployed(jobs);
    RemovalsContents(Sort(jobs, DeployedLe), desired);
    IdMembers(r);
    forall k | k in deployed && k !in desired ensures k in ChangeIds(r) {
      assert deployed[k] in Sort(jobs, DeployedLe);
      assert Removal(deployed[k]).qualifiedId == k;
    }
  }

  /** Exactly one change for each id of either side, in id order, each the verdict on its own id. */
  ghost predicate Partition(changes: seq<Change>, desired: map<string, Job>, deployed: map<string, DeployedJob>,
          backend: string, hashes: Hashes) {
    && SortedIds(ChangeIds(changes))
    && (forall k :: k in ChangeIds(changes) <==> k in desired || k in deployed)
    && (forall k :: k in desired ==> k in hashes.jobs && k in hashes.definitions && desired[k].qualifiedId == k)
    && (forall k :: k in deployed ==> deployed[k].qualifiedId == k)
    && Verdicts(changes, desired, deployed, backend, hashes)
  }

  lemma {:induction false} VerdictsOfSort(a: seq<Change>, b: seq<Change>, desired: map<string, Job>,
          deployed: map<string, DeployedJob>, backend: string, hashes: Hashes)
    requires forall k :: k in desired ==> k in hashes.jobs && k in hashes.definitions
    requires Verdicts(a, desired, deployed, backend, hashes)
    requires forall c :: c in b ==>
      c.qualifiedId !in desired && c.qualifiedId in deployed && c == Removal(deployed[c.qualifiedId])
    ensures Verdicts(Sort(a + b, ChangeLe), desired, deployed, backend, hashes)
  {
    MultisetMembers(a + b, Sort(a + b, ChangeLe));
  }

  /** The plan is a sorted partition of the desired and deployed ids. */
  lemma {:induction false} PlanPartition(manifest: NormalizedManifest, backend: string, hashes: Hashes,
          state: ProjectState)
    requires Hashed(manifest.jobs, hashes)
    requires DistinctJobs(manifest.jobs) && DistinctDeployed(state.jobs)
    ensures Partition(Changes(manifest, backend, hashes, state), DesiredIndex(manifest.jobs), DeployedIndex(state.jobs),
                      backend, hashes)
  {
    var desired, deployed := DesiredIndex(manifest.jobs), DeployedIndex(state.jobs);
    var a := DesiredChanges(manifest.jobs, backend, hashes, deployed);
    var b := Removals(Sort(state.jobs, DeployedLe), desired);
    DesiredIndexContents(manifest.jobs);
    DeployedIndexContents(state.jobs);
    DesiredContents(manifest.jobs, backend, hashes, deployed);
    RemovedContents(state.jobs, desired, b);
    DistinctAppend(a, b, desired.Keys);
    SortedIdsOfSort(a + b);
    VerdictsOfSort(a, b, desired, deployed, backend, hashes);
  }

  lemma {:induction false} IdMembers(changes: seq<Change>)
    ensures forall k :: k in ChangeIds(changes) <==> exists c :: c in changes && c.qualifiedId == k
  {
    forall c | c in changes ensures c.qualifiedId in ChangeIds(changes) {
      var i :| 0 <= i < |changes| && changes[i] == c;
      assert ChangeIds(changes)[i] == c.qualifiedId;
    }
  }

  lemma {:induction false} DistinctAppend(a: seq<Change>, b: seq<Change>, ids: set<string>)
    requires DistinctBy(a, (c: Change) => c.qualifiedId) && DistinctBy(b, (c: Change) => c.qualifiedId)
    requires forall k :: k in ChangeIds(a) ==> k in ids
    requires forall k :: k in ChangeIds(b) ==> k !in ids
    ensures DistinctBy(a + b, (c: Change) => c.qualifiedId)
    ensures forall k :: k in ChangeIds(a + b) <==> k in ChangeIds(a) || k in ChangeIds(b)
  {
    assert ChangeIds(a + b) == ChangeIds(a) + ChangeIds(b);
    var ab := a + b;
    forall i, j | 0 <= i < j < |ab| ensures ab[i].qualifiedId != ab[j].qualifiedId {
      if i < |a| <= j {
        assert ChangeIds(a)[i] == ab[i].qualifiedId && ChangeIds(b)[j - |a|] == ab[j].qualifiedId;
        assert ab[i].qualifiedId in ids && ab[j].qualifiedId !in ids;
      } else if j < |a| {
        assert ab[i] == a[i] && ab[j] == a[j];
      } else {
        assert ab[i] == b[i - |a|] && ab[j] == b[j - |a|];
      }
    }
  }

  lemma {:induction false} SortedIdsOfSort(raw: seq<Change>)
    requires DistinctBy(raw, (c: Change) => c.qualifiedId)
    ensures SortedIds(ChangeIds(Sort(raw, ChangeLe)))
    ensures forall k :: k in ChangeIds(Sort(raw, ChangeLe)) <==> k in ChangeIds(raw)
  {
    var s := Sort(raw, ChangeLe);
    ChangeLeTotalPreorder();
    SortSorted(raw, ChangeLe);
    DistinctPermutation(raw, s, (c: Change) => c.qualifiedId);
    MultisetMembers(raw, s);
    IdMembers(raw);
    IdMembers(s);
  }

  /** The change that a partition holds for an id. */
  lemma {:induction false} PartitionAt(changes: seq<Change>, desired: map<string, Job>,
          deployed: map<string, DeployedJob>, backend: string, hashes: Hashes, id: string)
    requires Partition(changes, desired, deployed, backend, hashes)
    requires id in desired || id in deployed
    ensures Verdict(id, desired, deployed, backend, hashes) in changes
  {
    assert id in ChangeIds(changes);
    IdMembers(changes);
    var c :| c in changes && c.qualifiedId == id;
  }

  /** Which side an id is on decides CREATE and REMOVE, and nothing else does. */
  lemma {:induction false} CreateAndRemoveExactly(changes: seq<Change>, desired: map<string, Job>,
          deployed: map<string, DeployedJob>, backend: string, hashes: Hashes, c: Change)
    requires Partition(changes, desired, deployed, backend, hashes)
    requires c in changes
    ensures c.kind == Create <==> c.qualifiedId in desired && c.qualifiedId !in deployed
    ensures c.kind == Remove <==> c.qualifiedId !in desired && c.qualifiedId in deployed
    ensures c.kind != Error
  {
    assert c == Verdict(c.qualifiedId, desired, deployed, backend, hashes);
  }

  predicate Tampered(d: DeployedJob) {
    d.observedHash.Some? && d.observedHash.value != d.desiredHash
  }

  /** The change that a job on both sides calls for: the first thing that differs, in this order, decides. */
  predicate CallsFor(kind: ChangeKind, reason: Reason, job: Job, backend: string, definitionHash: string,
          d: DeployedJob) {
    var moved := d.backend != backend;
    var recorded := if d.definitionHash == None || d.definitionHash == Some("") then d.desiredHash
                    else d.definitionHash.value;
    var redefined := recorded != definitionHash;
    match kind
    case Drift => Tampered(d) && reason == ObservedHashDiffers
    case Update =>
      && !Tampered(d) && (moved || redefined)
      && reason == if moved then BackendChanged(d.backend, backend) else DefinitionChanged
    case Enable => !Tampered(d) && !moved && !redefined && job.enabled && !d.enabled && reason == DisabledButWanted
    case Disable => !Tampered(d) && !moved && !redefined && !job.enabled && d.enabled && reason == EnabledButUnwanted
    case Noop => !Tampered(d) && !moved && !redefined && job.enabled == d.enabled && reason == UpToDate
    case _ => false
  }

  lemma {:induction false} KindExactly(job: Job, backend: string, hash: string, definitionHash: string, d: DeployedJob)
    ensures var c := ChangeFor(job, backend, hash, definitionHash, Some(d));
      && (forall kind, reason ::
            c.kind == kind && c.reason == reason <==> CallsFor(kind, reason, job, backend, definitionHash, d))
      && c.desiredJob == Some(job) && c.deployedJob == Some(d)
      && c.desiredHash == Some(hash) && c.deployedHash == Some(d.desiredHash)
  {
  }

  /** The change of an id on both sides: its kind and reason, what it carries, and that it is the only one. */
  lemma {:induction false} VerdictExactly(changes: seq<Change>, desired: map<string, Job>,
          deployed: map<string, DeployedJob>, backend: string, hashes: Hashes, id: string, c: Change)
    requires Partition(changes, desired, deployed, backend, hashes)
    requires id in desired && id in deployed
    ensures c in changes && c.qualifiedId == id <==>
      && c.qualifiedId == id && c.desiredJob == Some(desired[id]) && c.deployedJob == Some(deployed[id])
      && c.desiredHash == Some(hashes.jobs[id]) && c.deployedHash == Some(deployed[id].desiredHash)
      && CallsFor(c.kind, c.reason, desired[id], backend, hashes.definitions[id], deployed[id])
  {
    PartitionAt(changes, desired, deployed, backend, hashes, id);
    KindExactly(desired[id], backend, hashes.jobs[id], hashes.definitions[id], deployed[id]);
    var v := Verdict(id, desired, deployed, backend, hashes);
    assert c in changes && c.qualifiedId == id ==> c == v;
  }

  // ---- what a plan looks at

  /** A deployed job as far as the planner can tell it apart from another. */
  datatype Footprint = Footprint(backend: string, enabled: bool, desiredHash: string, definitionHash: string,
      observedHash: Option<string>)

  function FootprintOf(d: DeployedJob): Footprint {
    Footprint(d.backend, d.enabled, d.desiredHash, EffectiveDefinitionHash(d), d.observedHash)
  }

  ghost predicate SameFootprints(a: map<string, DeployedJob>, b: map<string, DeployedJob>) {
    a.Keys == b.Keys && forall k :: k in a ==> FootprintOf(a[k]) == FootprintOf(b[k])
  }

  /** A change without the deployed record it was drawn from. */
  datatype Outcome = Outcome(id: string, kind: ChangeKind, reason: Reason, desiredJob: Option<Job>,
      desiredHash: Option<string>, deployedHash: Option<string>)

  function OutcomeOf(c: Change): Outcome {
    Outcome(c.qualifiedId, c.kind, c.reason, c.desiredJob, c.desiredHash, c.deployedHash)
  }

  function Outcomes(changes: seq<Change>): (r: seq<Outcome>)
    ensures |r| == |changes|
  {
    seq(|changes|, i requires 0 <= i < |changes| => OutcomeOf(changes[i]))
  }

  lemma {:induction false} SortedIdsUnique(a: seq<string>, b: seq<string>)
    requires SortedIds(a) && SortedIds(b)
    requires forall k :: k in a <==> k in b
    ensures a == b
  {
    assert b != [] ==> b[0] in b;
    if a != [] {
      assert a[0] in b && b[0] in a;
      StrLeTotal(a[0], b[0]);
      assert a == [a[0]] + a[1..] && b == [b[0]] + b[1..];
      forall k ensures k in a[1..] <==> k in b[1..] {
        assert k in a[1..] <==> k in a && k != a[0];
        assert k in b[1..] <==> k in b && k != b[0];
      }
      SortedIdsUnique(a[1..], b[1..]);
    }
  }

  lemma {:induction false} ChangeByFootprint(job: Job, backend: string, hash: string, definitionHash: string,
          d: DeployedJob, e: DeployedJob)
    requires FootprintOf(d) == FootprintOf(e)
    ensures OutcomeOf(ChangeFor(job, backend, hash, definitionHash, Some(d)))
      == OutcomeOf(ChangeFor(job, backend, hash, definitionHash, Some(e)))
  {
    assert d.backend == FootprintOf(d).backend && d.desiredHash == FootprintOf(d).desiredHash;
    assert d.observedHash == FootprintOf(d).observedHash && d.enabled == FootprintOf(d).enabled;
    assert EffectiveDefinitionHash(d) == FootprintOf(d).definitionHash;
  }

  lemma {:induction false} VerdictByFootprint(id: string, desired: map<string, Job>, a: map<string, DeployedJob>,
          b: map<string, DeployedJob>, backend: string, hashes: Hashes)
    requires id in desired || id in a
    requires SameFootprints(a, b)
    requires forall k :: k in desired ==> k in hashes.jobs && k in hashes.definitions
    requires forall k :: k in a ==> a[k].qualifiedId == k && b[k].qualifiedId == k
    ensures OutcomeOf(Verdict(id, desired, a, backend, hashes)) == OutcomeOf(Verdict(id, desired, b, backend, hashes))
  {
    if id in a {
      assert FootprintOf(a[id]) == FootprintOf(b[id]);
      if id in desired {
        ChangeByFootprint(desired[id], backend, hashes.jobs[id], hashes.definitions[id], a[id], b[id]);
      } else {
        assert a[id].desiredHash == FootprintOf(a[id]).desiredHash;
      }
    }
  }

  lemma {:induction false} OutcomesByFootprint(ca: seq<Change>, cb: seq<Change>, desired: map<string, Job>,
          a: map<string, DeployedJob>, b: map<string, DeployedJob>, backend: string, hashes: Hashes)
    requires Partition(ca, desired, a, backend, hashes) && Partition(cb, desired, b, backend, hashes)
    requires SameFootprints(a, b)
    ensures Outcomes(ca) == Outcomes(cb)
  {
    SortedIdsUnique(ChangeIds(ca), ChangeIds(cb));
    forall i | 0 <= i < |ca| ensures OutcomeOf(ca[i]) == OutcomeOf(cb[i]) {
      assert ChangeIds(ca)[i] == ChangeIds(cb)[i];
      assert ca[i] in ca && cb[i] in cb;
      VerdictByFootprint(ca[i].qualifiedId, desired, a, b, backend, hashes);
    }
  }

  /** Two deployed states with the same footprints get the same plan, whatever the order of their records. */
  lemma {:induction false} PlanByFootprint(manifest: NormalizedManifest, backend: string, hashes: Hashes,
          a: ProjectState, b: ProjectState)
    requires Hashed(manifest.jobs, hashes) && DistinctJobs(manifest.jobs)
    requires DistinctDeployed(a.jobs) && DistinctDeployed(b.jobs)
    requires SameFootprints(DeployedIndex(a.jobs), DeployedIndex(b.jobs))
    ensures Outcomes(Changes(manifest, backend, hashes, a)) == Outcomes(Changes(manifest, backend, hashes, b))
  {
    PlanPartition(manifest, backend, hashes, a);
    PlanPartition(manifest, backend, hashes, b);
    OutcomesByFootprint(Changes(manifest, backend, hashes, a), Changes(manifest, backend, hashes, b),
                        DesiredIndex(manifest.jobs), DeployedIndex(a.jobs), DeployedIndex(b.jobs), backend, hashes);
  }

  // ---- convergence

  predicate AllNoop(changes: seq<Change>) {
    forall i :: 0 <= i < |changes| ==> changes[i].kind == Noop
  }

  /** The deployed record of a job that the planner has nothing to say about. */
  predicate Settled(job: Job, backend: string, definitionHash: string, d: DeployedJob) {
    && (d.observedHash.Some? ==> d.observedHash.value == d.desiredHash)
    && d.backend == backend
    && EffectiveDefinitionHash(d) == definitionHash
    && d.enabled == job.enabled
  }

  /** A plan is all NOOP exactly when both sides have the same ids and every record is settled. */
  lemma {:induction false} ConvergedExactly(changes: seq<Change>, desired: map<string, Job>,
          deployed: map<string, DeployedJob>, backend: string, hashes: Hashes)
    requires Partition(changes, desired, deployed, backend, hashes)
    ensures AllNoop(changes) <==>
      && desired.Keys == deployed.Keys
      && forall k :: k in desired && k in deployed ==> Settled(desired[k], backend, hashes.definitions[k], deployed[k])
  {
    if AllNoop(changes) {
      forall k | k in desired || k in deployed
        ensures k in desired && k in deployed && Settled(desired[k], backend, hashes.definitions[k], deployed[k])
      {
        PartitionAt(changes, desired, deployed, backend, hashes, k);
        var c := Verdict(k, desired, deployed, backend, hashes);
        assert c.kind == Noop;
      }
      assert forall k :: k in desired <==> k in deployed;
    }
    if && desired.Keys == deployed.Keys
       && forall k :: k in desired && k in deployed ==>
            Settled(desired[k], backend, hashes.definitions[k], deployed[k]) {
      forall i | 0 <= i < |changes| ensures changes[i].kind == Noop {
        assert changes[i] in changes;
        var k := changes[i].qualifiedId;
        assert k in desired.Keys && k in deployed.Keys;
        assert Settled(desired[k], backend, hashes.definitions[k], deployed[k]);
      }
    }
  }

  lemma {:induction false} ConvergedNoop(changes: seq<Change>, desired: map<string, Job>,
          deployed: map<string, DeployedJob>, backend: string, hashes: Hashes)
    requires Partition(changes, desired, deployed, backend, hashes)
    requires forall id :: id in desired <==> id in deployed
    requires forall id :: id in desired && id in deployed && id in hashes.definitions ==>
      Settled(desired[id], backend, hashes.definitions[id], deployed[id])
    ensures AllNoop(changes)
  {
    assert desired.Keys == deployed.Keys;
    ConvergedExactly(changes, desired, deployed, backend, hashes);
  }

  // ---- status

  datatype StatusKind = StatusOk | Missing | Drifted | Extra | DisabledStatus | StatusError

  datatype StatusEntry = StatusEntry(kind: StatusKind, qualifiedId: string, desiredJob: Option<Job>,
      deployedJob: Option<DeployedJob>)

  function StatusKindForChange(change: Change): StatusKind {
    match change.kind
    case Remove => Extra
    case Error => StatusError
    case Drift => Drifted
    case Update => Drifted
    case Enable => Drifted
    case Disable => Drifted
    case Create => if change.desiredJob.Some? && !change.desiredJob.value.enabled then DisabledStatus else Missing
    case Noop => if change.desiredJob.Some? && !change.desiredJob.value.enabled then DisabledStatus else StatusOk
  }

  function BuildStatusEntries(changes: seq<Change>): (r: seq<StatusEntry>)
    ensures |r| == |changes|
  {
    seq(|changes|, i requires 0 <= i < |changes| =>
      StatusEntry(StatusKindForChange(changes[i]), changes[i].qualifiedId, changes[i].desiredJob,
                  changes[i].deployedJob))
  }

  predicate CalmChange(c: Change) {
    c.kind == Noop || (c.kind == Create && c.desiredJob.Some? && !c.desiredJob.value.enabled)
  }

  /** Both sides hold the id and the planner has nothing to say about it. */
  predicate SettledAt(id: string, desired: map<string, Job>, deployed: map<string, DeployedJob>, backend: string,
          definitions: map<string, string>) {
    id in desired && id in deployed && id in definitions && Settled(desired[id], backend, definitions[id], deployed[id])
  }

  /** The status of an id by what is there: only deployed, only desired, or both and how far they agree. */
  predicate StatusMeans(kind: StatusKind, id: string, desired: map<string, Job>, deployed: map<string, DeployedJob>,
          backend: string, definitions: map<string, string>) {
    var settled := SettledAt(id, desired, deployed, backend, definitions);
    match kind
    case Extra => id !in desired && id in deployed
    case Missing => id in desired && desired[id].enabled && id !in deployed
    case Drifted => id in desired && id in deployed && !settled
    case DisabledStatus => id in desired && !desired[id].enabled && (id in deployed ==> settled)
    case StatusOk => settled && desired[id].enabled
    case StatusError => false
  }

  lemma {:induction false} VerdictStatus(id: string, desired: map<string, Job>, deployed: map<string, DeployedJob>,
          backend: string, hashes: Hashes)
    requires id in desired || id in deployed
    requires forall k :: k in desired ==> k in hashes.jobs && k in hashes.definitions
    ensures var c := Verdict(id, desired, deployed, backend, hashes);
      && StatusMeans(StatusKindForChange(c), id, desired, deployed, backend, hashes.definitions)
      && c.desiredJob == Lookup(desired, id) && c.deployedJob == Lookup(deployed, id)
  {
    if id in desired && id in deployed {
      KindExactly(desired[id], backend, hashes.jobs[id], hashes.definitions[id], deployed[id]);
    }
  }

  /** Every entry has the status that the two sides call for, and an id cannot have two. */
  lemma {:induction false} StatusExactly(changes: seq<Change>, desired: map<string, Job>,
          deployed: map<string, DeployedJob>, backend: string, hashes: Hashes, i: nat, kind: StatusKind)
    requires Partition(changes, desired, deployed, backend, hashes) && i < |changes|
    ensures var e := BuildStatusEntries(changes)[i];
      && e.qualifiedId == changes[i].qualifiedId
      && e.desiredJob == Lookup(desired, e.qualifiedId) && e.deployedJob == Lookup(deployed, e.qualifiedId)
      && (e.kind == kind <==> StatusMeans(kind, e.qualifiedId, desired, deployed, backend, hashes.definitions))
  {
    var c := changes[i];
    assert c in changes;
    assert c == Verdict(c.qualifiedId, desired, deployed, backend, hashes);
    VerdictStatus(c.qualifiedId, desired, deployed, backend, hashes);
  }

  /** A report with only OK and DISABLED entries does not mean that the project is in place:
      a disabled job that was never installed also reports DISABLED. */
  lemma {:induction false} CalmStatusExactly(changes: seq<Change>)
    ensures (forall i :: 0 <= i < |changes| ==> BuildStatusEntries(changes)[i].kind in {StatusOk, DisabledStatus})
      <==> forall i :: 0 <= i < |changes| ==> CalmChange(changes[i])
  {
    var entries := BuildStatusEntries(changes);
    forall i | 0 <= i < |changes|
      ensures entries[i].kind in {StatusOk, DisabledStatus} <==> CalmChange(changes[i])
    {
    }
  }
}
