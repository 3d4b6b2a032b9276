/** The typed manifest, its normal form, and the hashes of the normal form. */
module Manifest {
  import opened Contracts
  import opened Order
  import opened Plan

  // ---- string dictionaries

  predicate DistinctKeys(items: seq<(string, string)>) {
    forall i, j :: 0 <= i < j < |items| ==> items[i].0 != items[j].0
  }

  /** The items of a Python dictionary in insertion order. */
  type Dict = items: seq<(string, string)> | DistinctKeys(items) witness []

  function AsMap(d: Dict): (m: map<string, string>)
    ensures forall i :: 0 <= i < |d| ==> d[i].0 in m && m[d[i].0] == d[i].1
    ensures forall k :: k in m ==> (k, m[k]) in d
  {
    if d == [] then map[] else AsMap(d[1..])[d[0].0 := d[0].1]
  }

  lemma {:induction false} MapDetermined(d: Dict, m: map<string, string>)
    requires forall i :: 0 <= i < |d| ==> d[i].0 in m && m[d[i].0] == d[i].1
    requires forall k :: k in m ==> (k, m[k]) in d
    ensures AsMap(d) == m
  {
    forall k ensures k in AsMap(d) <==> k in m {
      assert k in AsMap(d) ==> (k, AsMap(d)[k]) in d;
      assert k in m ==> (k, m[k]) in d;
    }
    forall k | k in m ensures AsMap(d)[k] == m[k] {
      assert (k, m[k]) in d;
    }
  }

  /** `d[key] = value`: a known key keeps its place, a new one goes to the end. */
  function Put(d: Dict, key: string, value: string): Dict {
    if key in AsMap(d) then seq(|d|, i requires 0 <= i < |d| => if d[i].0 == key then (key, value) else d[i])
    else d + [(key, value)]
  }

  lemma {:induction false} PutMeaning(d: Dict, key: string, value: string)
    ensures AsMap(Put(d, key, value)) == AsMap(d)[key := value]
  {
    var r, m := Put(d, key, value), AsMap(d)[key := value];
    forall k | k in m ensures (k, m[k]) in r {
      if k in AsMap(d) {
        var i :| 0 <= i < |d| && d[i] == (k, AsMap(d)[k]);
        assert r[i] == (k, m[k]);
      } else {
        assert r[|d|] == (k, m[k]);
      }
    }
    MapDetermined(r, m);
  }

  /** `base.update(extra)`. */
  function Merge(base: Dict, extra: Dict): Dict {
    if extra == [] then base else Put(Merge(base, extra[..|extra| - 1]), extra[|extra| - 1].0, extra[|extra| - 1].1)
  }

  lemma {:induction false} MergeMeaning(base: Dict, extra: Dict)
    ensures AsMap(Merge(base, extra)) == AsMap(base) + AsMap(extra)
  {
    if extra != [] {
      var init, last := extra[..|extra| - 1], extra[|extra| - 1];
      MergeMeaning(base, init);
      PutMeaning(Merge(base, init), last.0, last.1);
      MapOfInit(extra);
      LastPut(AsMap(base), AsMap(init), last.0, last.1);
    }
  }

  lemma {:induction false} LastPut(a: map<string, string>, b: map<string, string>, key: string, value: string)
    ensures (a + b)[key := value] == a + b[key := value]
  {
  }

  lemma {:induction false} MapOfInit(d: Dict)
    requires d != []
    ensures AsMap(d) == AsMap(d[..|d| - 1])[d[|d| - 1].0 := d[|d| - 1].1]
  {
    var init, last := d[..|d| - 1], d[|d| - 1];
    var m := AsMap(init)[last.0 := last.1];
    forall i | 0 <= i < |d| ensures d[i].0 in m && m[d[i].0] == d[i].1 {
      assert i < |d| - 1 ==> init[i] == d[i];
    }
    forall k | k in m ensures (k, m[k]) in d {
      assert k != last.0 ==> (k, m[k]) in init;
      assert d[|d| - 1] == last;
    }
    MapDetermined(d, m);
  }

  predicate PairLe(a: (string, string), b: (string, string)) {
    if a.0 == b.0 then StrLe(a.1, b.1) else StrLe(a.0, b.0)
  }

  /** `stable_env_items`. */
  function StableEnvItems(d: Dict): seq<(string, string)> {
    Sort(d, PairLe)
  }

  lemma {:induction false} PairLeTotalPreorder()
    ensures TotalPreorder(PairLe)
    ensures forall s :: NoTies(s, PairLe)
  {
    StrLeTotalPreorder();
    forall x, y, z | PairLe(x, y) && PairLe(y, z) ensures PairLe(x, z) {
      StrLeTotal(x.0, y.0);
      StrLeTotal(y.0, z.0);
    }
    forall s: seq<(string, string)> ensures NoTies(s, PairLe) {
      forall x, y | x in s && y in s && PairLe(x, y) && PairLe(y, x) ensures x == y {
        StrLeTotal(x.0, y.0);
        StrLeTotal(x.1, y.1);
      }
    }
  }

  lemma {:induction false} ItemsOfMap(d: Dict, x: (string, string))
    ensures multiset(d)[x] == if x.0 in AsMap(d) && AsMap(d)[x.0] == x.1 then 1 else 0
  {
    Once(d, (p: (string, string)) => p.0, x);
    assert x in d <==> x in multiset(d);
  }

  /** The stable items show what a dictionary maps and hide the order it was filled in. */
  lemma {:induction false} StableItemsExactly(a: Dict, b: Dict)
    ensures StableEnvItems(a) == StableEnvItems(b) <==> AsMap(a) == AsMap(b)
  {
    if AsMap(a) == AsMap(b) {
      forall x ensures multiset(a)[x] == multiset(b)[x] {
        ItemsOfMap(a, x);
        ItemsOfMap(b, x);
      }
      PairLeTotalPreorder();
      SortPermutation(a, b, PairLe);
    }
    if StableEnvItems(a) == StableEnvItems(b) {
      MultisetMembers(a, b);
      forall k ensures k in AsMap(a) <==> k in AsMap(b) {
        assert k in AsMap(a) ==> (k, AsMap(a)[k]) in b;
        assert k in AsMap(b) ==> (k, AsMap(b)[k]) in a;
      }
      forall k | k in AsMap(a) ensures AsMap(a)[k] == AsMap(b)[k] {
        assert (k, AsMap(a)[k]) in b;
      }
    }
  }

  // ---- the typed manifest

  datatype JobDefinition = JobDefinition(
    id: string,
    command: string,
    schedule: Schedule,
    description: Option<string>,
    enabled: bool,
    workingDir: Option<string>,
    shell: Option<string>,
    env: Dict,
    overlap: OverlapPolicy)

  datatype Defaults = Defaults(workingDir: string, shell: string, timezone: Option<string>, env: Dict)

  datatype ProjectManifest = ProjectManifest(version: int, projectId: string, jobs: seq<JobDefinition>,
      defaults: Defaults)

  /** Where a manifest was loaded from, with the path resolution of that place. */
  datatype Place = Place(root: string, manifestPath: string, resolve: string -> string)

  predicate DistinctIds(jobs: seq<JobDefinition>) {
    forall i, j :: 0 <= i < j < |jobs| ==> jobs[i].id != jobs[j].id
  }

  /** Python's `value or fallback` on optional text. */
  function Or(value: Option<string>, fallback: string): string {
    if value.Some? && value.value != "" then value.value else fallback
  }

  /** `normalize_job`: the job's own settings win over the defaults. */
  function NormalizeJob(projectId: string, defaults: Defaults, job: JobDefinition, resolve: string -> string): Job {
    var qualifiedId := BuildQualifiedJobId(projectId, job.id);
    Job(projectId, job.id, qualifiedId, ArtifactId(qualifiedId), job.enabled, job.schedule,
        Execution(job.command, resolve(Or(job.workingDir, defaults.workingDir)), Or(job.shell, defaults.shell),
                  defaults.timezone, StableEnvItems(Merge(defaults.env, job.env)), job.overlap),
        job.description)
  }

  predicate DefinitionLe(a: JobDefinition, b: JobDefinition) {
    StrLe(a.id, b.id)
  }

  function NormalizeJobs(projectId: string, defaults: Defaults, jobs: seq<JobDefinition>, resolve: string -> string)
    : (r: seq<Job>)
    ensures |r| == |jobs|
    ensures forall i :: 0 <= i < |jobs| ==> r[i] == NormalizeJob(projectId, defaults, jobs[i], resolve)
  {
    seq(|jobs|, i requires 0 <= i < |jobs| => NormalizeJob(projectId, defaults, jobs[i], resolve))
  }

  function NormalizeManifest(m: ProjectManifest, place: Place): NormalizedManifest {
    NormalizedManifest(m.version, m.projectId, place.root, place.manifestPath,
                       NormalizeJobs(m.projectId, m.defaults, Sort(m.jobs, DefinitionLe), place.resolve))
  }

  function JobIds(jobs: seq<Job>): (ids: seq<string>)
    ensures |ids| == |jobs|
  {
    seq(|jobs|, i requires 0 <= i < |jobs| => jobs[i].qualifiedId)
  }

  /** The qualified ids of a project sort like its job ids, and are as distinct. */
  lemma {:induction false} SortedNormalForm(jobs: seq<JobDefinition>, n: seq<Job>, prefix: string)
    requires DistinctIds(jobs) && |n| == |jobs|
    requires forall i :: 0 <= i < |n| ==> n[i].qualifiedId == prefix + Sort(jobs, DefinitionLe)[i].id
    ensures SortedIds(JobIds(n)) && DistinctJobs(n)
  {
    var sorted := Sort(jobs, DefinitionLe);
    StrLeTotalPreorder();
    SortSorted(jobs, DefinitionLe);
    DistinctPermutation(jobs, sorted, (j: JobDefinition) => j.id);
    forall i, j | 0 <= i < j < |n|
      ensures n[i].qualifiedId != n[j].qualifiedId && StrLe(n[i].qualifiedId, n[j].qualifiedId)
    {
      assert DefinitionLe(sorted[i], sorted[j]);
      StrLePrefix(prefix, sorted[i].id, sorted[j].id);
      SamePrefix(prefix, sorted[i].id, sorted[j].id);
    }
  }

  /** `x` is the image of a member of `s`. */
  ghost predicate Image<A(!new), B>(s: seq<A>, f: A -> B, x: B) {
    exists j :: j in s && f(j) == x
  }

  lemma {:induction false} ImageOfSort(jobs: seq<JobDefinition>, n: seq<Job>, f: JobDefinition -> Job)
    requires |n| == |jobs|
    requires forall i :: 0 <= i < |n| ==> n[i] == f(Sort(jobs, DefinitionLe)[i])
    ensures forall x :: x in n <==> Image(jobs, f, x)
  {
    var sorted := Sort(jobs, DefinitionLe);
    MultisetMembers(jobs, sorted);
    forall x ensures x in n <==> Image(jobs, f, x) {
      if x in n {
        var i :| 0 <= i < |n| && n[i] == x;
        assert sorted[i] in jobs && f(sorted[i]) == x;
      }
      if Image(jobs, f, x) {
        var j :| j in jobs && f(j) == x;
        var i :| 0 <= i < |sorted| && sorted[i] == j;
        assert n[i] == x;
      }
    }
  }

  ghost function Normalizer(m: ProjectManifest, place: Place): (f: JobDefinition -> Job)
    ensures forall j {:trigger f(j)} :: f(j) == NormalizeJob(m.projectId, m.defaults, j, place.resolve)
  {
    (j: JobDefinition) => NormalizeJob(m.projectId, m.defaults, j, place.resolve)
  }

  /** The normal form lists the image of every job once, by qualified id, and nothing else. */
  lemma {:induction false} NormalizedContents(m: ProjectManifest, place: Place)
    requires DistinctIds(m.jobs)
    ensures SortedIds(JobIds(NormalizeManifest(m, place).jobs)) && DistinctJobs(NormalizeManifest(m, place).jobs)
    ensures forall x :: x in NormalizeManifest(m, place).jobs <==> Image(m.jobs, Normalizer(m, place), x)
  {
    var n := NormalizeManifest(m, place).jobs;
    forall i | 0 <= i < |n| ensures n[i].qualifiedId == m.projectId + "." + Sort(m.jobs, DefinitionLe)[i].id {
    }
    SortedNormalForm(m.jobs, n, m.projectId + ".");
    ImageOfSort(m.jobs, n, Normalizer(m, place));
  }

  /** Where a normalized job comes from. */
  lemma {:induction false} Source(p: ProjectManifest, place: Place, j: nat) returns (i: nat)
    requires DistinctIds(p.jobs) && j < |NormalizeManifest(p, place).jobs|
    ensures i < |p.jobs| && NormalizeManifest(p, place).jobs[j] == Normalizer(p, place)(p.jobs[i])
  {
    var x := NormalizeManifest(p, place).jobs[j];
    NormalizedContents(p, place);
    assert x in NormalizeManifest(p, place).jobs;
    assert Image(p.jobs, Normalizer(p, place), x);
    var d :| d in p.jobs && Normalizer(p, place)(d) == x;
    i :| 0 <= i < |p.jobs| && p.jobs[i] == d;
  }

  /** The job as it will run: its own settings where it has any, the defaults' otherwise. */
  ghost predicate RunsAs(x: Job, m: ProjectManifest, job: JobDefinition, place: Place) {
    && x.projectId == m.projectId && x.jobId == job.id && x.qualifiedId == m.projectId + "." + job.id
    && x.artifactId == ArtifactId(x.qualifiedId)
    && x.enabled == job.enabled && x.schedule == job.schedule && x.description == job.description
    && x.execution.command == job.command && x.execution.overlap == job.overlap
    && x.execution.timezone == m.defaults.timezone
    && (forall s :: job.shell == Some(s) && s != "" ==> x.execution.shell == s)
    && (job.shell == None || job.shell == Some("") ==> x.execution.shell == m.defaults.shell)
    && (forall d :: job.workingDir == Some(d) && d != "" ==> x.execution.workingDir == place.resolve(d))
    && (job.workingDir == None || job.workingDir == Some("") ==>
          x.execution.workingDir == place.resolve(m.defaults.workingDir))
    && (forall name, value :: (name, value) in x.execution.env <==> Sees(job.env, m.defaults.env, name, value))
  }

  /** The name has this value: from the job if it sets the name, and else from the defaults. */
  predicate Sees(own: Dict, defaults: Dict, name: string, value: string) {
    if name in AsMap(own) then AsMap(own)[name] == value else name in AsMap(defaults) && AsMap(defaults)[name] == value
  }

  lemma {:induction false} NormalizedRuns(m: ProjectManifest, place: Place, job: JobDefinition)
    ensures RunsAs(Normalizer(m, place)(job), m, job, place)
  {
    var x := Normalizer(m, place)(job);
    assert m.projectId + "." + job.id == BuildQualifiedJobId(m.projectId, job.id);
    forall name, value
      ensures (name, value) in x.execution.env <==> Sees(job.env, m.defaults.env, name, value)
    {
      EnvironmentMeaning(m.projectId, m.defaults, job, place.resolve, name, value);
    }
  }

  /** Field by field, the normal form runs each job of the manifest, and nothing else. */
  lemma {:induction false} NormalizedExactly(m: ProjectManifest, place: Place)
    requires DistinctIds(m.jobs)
    ensures var n := NormalizeManifest(m, place);
      && n.version == m.version && n.projectId == m.projectId && n.projectRoot == place.root
      && n.manifestPath == place.manifestPath && |n.jobs| == |m.jobs|
      && (forall job :: job in m.jobs ==> exists x :: x in n.jobs && RunsAs(x, m, job, place))
      && (forall x :: x in n.jobs ==> exists job :: job in m.jobs && RunsAs(x, m, job, place))
  {
    var n, f := NormalizeManifest(m, place), Normalizer(m, place);
    NormalizedContents(m, place);
    forall job | job in m.jobs ensures f(job) in n.jobs && RunsAs(f(job), m, job, place) {
      NormalizedRuns(m, place, job);
      assert Image(m.jobs, f, f(job));
    }
    forall x | x in n.jobs ensures exists job :: job in m.jobs && RunsAs(x, m, job, place) {
      assert Image(m.jobs, f, x);
      var job :| job in m.jobs && f(job) == x;
      assert RunsAs(f(job), m, job, place);
    }
  }

  lemma {:induction false} SamePrefix(p: string, a: string, b: string)
    ensures p + a == p + b <==> a == b
  {
    assert (p + a)[|p|..] == a && (p + b)[|p|..] == b;
  }

  // ---- the normal form forgets order

  predicate SameDefaults(a: Defaults, b: Defaults) {
    AsMap(a.env) == AsMap(b.env) && a.(env := b.env) == b
  }

  predicate SameDefinition(a: JobDefinition, b: JobDefinition) {
    AsMap(a.env) == AsMap(b.env) && a.(env := b.env) == b
  }

  ghost predicate DefinedIn(x: JobDefinition, jobs: seq<JobDefinition>) {
    exists y :: y in jobs && SameDefinition(x, y)
  }

  /** The same manifest up to the order of its jobs and of the entries of its environments. */
  ghost predicate Reordered(a: ProjectManifest, b: ProjectManifest) {
    && a.version == b.version && a.projectId == b.projectId && SameDefaults(a.defaults, b.defaults)
    && (forall x :: x in a.jobs ==> DefinedIn(x, b.jobs)) && (forall y :: y in b.jobs ==> DefinedIn(y, a.jobs))
  }

  lemma {:induction false} SameNormalJob(projectId: string, a: Defaults, b: Defaults, x: JobDefinition,
          y: JobDefinition, resolve: string -> string)
    requires SameDefaults(a, b) && SameDefinition(x, y)
    ensures NormalizeJob(projectId, a, x, resolve) == NormalizeJob(projectId, b, y, resolve)
  {
    MergeMeaning(a.env, x.env);
    MergeMeaning(b.env, y.env);
    StableItemsExactly(Merge(a.env, x.env), Merge(b.env, y.env));
  }

  /** A list sorted by distinct ids is determined by its members. */
  lemma {:induction false} SortedJobsUnique(a: seq<Job>, b: seq<Job>)
    requires SortedIds(JobIds(a)) && SortedIds(JobIds(b))
    requires forall x :: x in a <==> x in b
    ensures a == b
  {
    forall k ensures k in JobIds(a) <==> k in JobIds(b) {
      if k in JobIds(a) {
        var i :| 0 <= i < |a| && JobIds(a)[i] == k;
        assert a[i] in b;
        var j :| 0 <= j < |b| && b[j] == a[i];
        assert JobIds(b)[j] == k;
      }
      if k in JobIds(b) {
        var i :| 0 <= i < |b| && JobIds(b)[i] == k;
        assert b[i] in a;
        var j :| 0 <= j < |a| && a[j] == b[i];
        assert JobIds(a)[j] == k;
      }
    }
    SortedIdsUnique(JobIds(a), JobIds(b));
    forall i | 0 <= i < |a| ensures a[i] == b[i] {
      assert a[i] in b;
      var j :| 0 <= j < |b| && b[j] == a[i];
      assert JobIds(b)[j] == JobIds(a)[i] == JobIds(b)[i];
    }
  }

  lemma {:induction false} SameImages<A(!new), B(!new)>(a: seq<A>, b: seq<A>, f: A -> B, g: A -> B)
    requires forall x :: x in a ==> Image(b, g, f(x))
    requires forall y :: y in b ==> Image(a, f, g(y))
    ensures forall x :: Image(a, f, x) <==> Image(b, g, x)
  {
  }

  lemma {:induction false} ReorderedImage(a: ProjectManifest, b: ProjectManifest, place: Place, x: JobDefinition)
    requires SameDefaults(a.defaults, b.defaults) && a.projectId == b.projectId && DefinedIn(x, b.jobs)
    ensures Image(b.jobs, Normalizer(b, place), Normalizer(a, place)(x))
  {
    var y :| y in b.jobs && SameDefinition(x, y);
    SameNormalJob(a.projectId, a.defaults, b.defaults, x, y, place.resolve);
    assert Normalizer(b, place)(y) == Normalizer(a, place)(x);
  }

  lemma {:induction false} ReorderedImages(a: ProjectManifest, b: ProjectManifest, place: Place)
    requires Reordered(a, b)
    ensures forall x :: Image(a.jobs, Normalizer(a, place), x) <==> Image(b.jobs, Normalizer(b, place), x)
  {
    var f, g := Normalizer(a, place), Normalizer(b, place);
    forall x | x in a.jobs ensures Image(b.jobs, g, f(x)) {
      ReorderedImage(a, b, place, x);
    }
    forall y | y in b.jobs ensures Image(a.jobs, f, g(y)) {
      ReorderedImage(b, a, place, y);
    }
    SameImages(a.jobs, b.jobs, f, g);
  }

  /** Reordering jobs or environment entries leaves the normal form, and with it every hash, as it was. */
  lemma {:induction false} OrderIndependent(a: ProjectManifest, b: ProjectManifest, place: Place)
    requires DistinctIds(a.jobs) && DistinctIds(b.jobs) && Reordered(a, b)
    ensures NormalizeManifest(a, place) == NormalizeManifest(b, place)
  {
    NormalizedContents(a, place);
    NormalizedContents(b, place);
    ReorderedImages(a, b, place);
    SortedJobsUnique(NormalizeManifest(a, place).jobs, NormalizeManifest(b, place).jobs);
  }

  lemma {:induction false} MergedEntry(base: Dict, extra: Dict, name: string, value: string)
    ensures (name, value) in Merge(base, extra) <==>
      if name in AsMap(extra) then AsMap(extra)[name] == value else name in AsMap(base) && AsMap(base)[name] == value
  {
    MergeMeaning(base, extra);
    EntryOfMap(Merge(base, extra), name, value);
  }

  lemma {:induction false} EntryOfMap(d: Dict, name: string, value: string)
    ensures (name, value) in d <==> name in AsMap(d) && AsMap(d)[name] == value
  {
  }

  /** The environment of a normalized job: the job's entries over the defaults, sorted, each name once. */
  lemma {:induction false} EnvironmentMeaning(projectId: string, defaults: Defaults, job: JobDefinition,
          resolve: string -> string, name: string, value: string)
    ensures (name, value) in NormalizeJob(projectId, defaults, job, resolve).execution.env <==>
      if name in AsMap(job.env) then AsMap(job.env)[name] == value
      else name in AsMap(defaults.env) && AsMap(defaults.env)[name] == value
  {
    var merged := Merge(defaults.env, job.env);
    MultisetMembers(merged, StableEnvItems(merged));
    MergedEntry(defaults.env, job.env, name, value);
  }

  // ---- hashes

  const WRAPPER_RENDERER_VERSION: nat := 2

  /** What gets serialized and digested; the three dictionaries have different keys. */
  datatype Payload =
    | DefinitionPayload(projectId: string, jobId: string, qualifiedId: string, artifactId: string, schedule: Schedule,
                        execution: Execution, wrapperRendererVersion: nat, description: Option<string>)
    | JobPayload(definitionHash: string, enabled: bool)
    | ManifestPayload(version: int, manifestProjectId: string, projectRoot: string, manifestPath: string,
                      jobHashes: map<string, string>)

  type Digest = Payload -> string

  /** The digest tells payloads apart: no collisions. */
  ghost predicate Injective(h: Digest) {
    forall p, q :: h(p) == h(q) ==> p == q
  }

  function HashDefinition(job: Job, h: Digest): string {
    h(DefinitionPayload(job.projectId, job.jobId, job.qualifiedId, job.artifactId, job.schedule, job.execution,
                        WRAPPER_RENDERER_VERSION, job.description))
  }

  function HashJob(job: Job, h: Digest): string {
    h(JobPayload(HashDefinition(job, h), job.enabled))
  }

  function JobHashes(jobs: seq<Job>, h: Digest): map<string, string> {
    if jobs == [] then map[]
    else JobHashes(jobs[..|jobs| - 1], h)[jobs[|jobs| - 1].qualifiedId := HashJob(jobs[|jobs| - 1], h)]
  }

  function DefinitionHashes(jobs: seq<Job>, h: Digest): map<string, string> {
    if jobs == [] then map[]
    else DefinitionHashes(jobs[..|jobs| - 1], h)[jobs[|jobs| - 1].qualifiedId := HashDefinition(jobs[|jobs| - 1], h)]
  }

  /** `build_manifest_hashes`. */
  function BuildHashes(m: NormalizedManifest, h: Digest): Hashes {
    var jobHashes := JobHashes(m.jobs, h);
    Hashes(h(ManifestPayload(m.version, m.projectId, m.projectRoot, m.manifestPath, jobHashes)), jobHashes,
           DefinitionHashes(m.jobs, h))
  }

  lemma {:induction false} HashesAt(jobs: seq<Job>, h: Digest)
    requires DistinctJobs(jobs)
    ensures forall i :: 0 <= i < |jobs| ==>
      && jobs[i].qualifiedId in JobHashes(jobs, h) && JobHashes(jobs, h)[jobs[i].qualifiedId] == HashJob(jobs[i], h)
      && jobs[i].qualifiedId in DefinitionHashes(jobs, h)
      && DefinitionHashes(jobs, h)[jobs[i].qualifiedId] == HashDefinition(jobs[i], h)
    ensures forall k :: k in JobHashes(jobs, h) ==> k in JobIds(jobs)
  {
    if jobs != [] {
      var init, last := jobs[..|jobs| - 1], jobs[|jobs| - 1];
      HashesAt(init, h);
      assert forall i :: 0 <= i < |init| ==> init[i] == jobs[i];
      assert JobIds(jobs) == JobIds(init) + [last.qualifiedId];
    }
  }

  /** The definition hash sees everything about a job but `enabled`, and the job hash sees that too. */
  lemma {:induction false} JobHashExactly(a: Job, b: Job, h: Digest)
    requires Injective(h)
    ensures HashDefinition(a, h) == HashDefinition(b, h) <==> a.(enabled := b.enabled) == b
    ensures HashJob(a, h) == HashJob(b, h) <==> a == b
  {
  }

  lemma {:induction false} SameHashesSameJob(a: seq<Job>, b: seq<Job>, h: Digest, x: Job)
    requires Injective(h) && DistinctJobs(a) && DistinctJobs(b)
    requires JobHashes(a, h) == JobHashes(b, h)
    requires x in a
    ensures x in b
  {
    HashesAt(a, h);
    HashesAt(b, h);
    var k := x.qualifiedId;
    assert k in JobHashes(b, h);
    var j :| 0 <= j < |b| && JobIds(b)[j] == k;
    JobHashExactly(x, b[j], h);
  }

  /** Two normal forms have the same manifest hash exactly when they are the same manifest. */
  lemma {:induction false} ManifestHashExactly(a: NormalizedManifest, b: NormalizedManifest, h: Digest)
    requires Injective(h)
    requires SortedIds(JobIds(a.jobs)) && SortedIds(JobIds(b.jobs))
    ensures BuildHashes(a, h).manifest == BuildHashes(b, h).manifest <==> a == b
  {
    SortedDistinct(a.jobs);
    SortedDistinct(b.jobs);
    if BuildHashes(a, h).manifest == BuildHashes(b, h).manifest {
      assert JobHashes(a.jobs, h) == JobHashes(b.jobs, h);
      forall x ensures x in a.jobs <==> x in b.jobs {
        if x in a.jobs {
          SameHashesSameJob(a.jobs, b.jobs, h, x);
        }
        if x in b.jobs {
          SameHashesSameJob(b.jobs, a.jobs, h, x);
        }
      }
      SortedJobsUnique(a.jobs, b.jobs);
    }
  }

  lemma {:induction false} SortedDistinct(jobs: seq<Job>)
    requires SortedIds(JobIds(jobs))
    ensures DistinctJobs(jobs)
  {
    forall i, j | 0 <= i < j < |jobs| ensures jobs[i].qualifiedId != jobs[j].qualifiedId {
      assert JobIds(jobs)[i] != JobIds(jobs)[j];
    }
  }

  /** The hashes of a normal form are complete: the planner finds both for every job. */
  lemma {:induction false} HashesComplete(m: NormalizedManifest, h: Digest)
    requires DistinctJobs(m.jobs)
    ensures Hashed(m.jobs, BuildHashes(m, h))
  {
    HashesAt(m.jobs, h);
  }
}
