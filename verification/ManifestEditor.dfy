/** Job-level edits of a stored manifest: load, mutate, validate, and write back only what changed. */
module ManifestEditor {
  import opened Contracts
  import opened Manifest
  import opened ManifestSchema

  datatype Edit =
    | AddJob(job: RawJob)
    | RemoveJob(identifier: string)
    | UpdateJob(identifier: string, clear: seq<Field>, updates: seq<(Field, Value)>)

  /** `set_manifest_job_enabled`. */
  function SetEnabled(identifier: string, enabled: bool): Edit {
    UpdateJob(identifier, [], [(Enabled, Flag(enabled))])
  }

  datatype EditError = JobsNotAList | JobIdRequired | AlreadyExists(id: string) | NotFound(identifier: string) | Invalid

  // ---- looking a job up

  /** `str(value)`; the rendering of a mapping is not spelled out. */
  function Str(v: Value): string {
    match v
    case Text(text) => text
    case Flag(flag) => if flag then "True" else "False"
    case Table(_) => "{}"
    case Other(shown) => shown
  }

  /** `str(job.get("id", ""))`. */
  function JobIdText(job: RawJob): string {
    if Id in job then Str(job[Id]) else ""
  }

  /** `str(job.get("id"))`, as the test for an existing id writes it. */
  function ExistingIdText(job: RawJob): string {
    if Id in job then Str(job[Id]) else "None"
  }

  function QualifiedIdentifier(projectId: string, identifier: string): string {
    if projectId != "" && '.' !in identifier then BuildQualifiedJobId(projectId, identifier) else identifier
  }

  /** The identifier names the job by its local or by its qualified id. */
  predicate Names(projectId: string, jobId: string, identifier: string) {
    jobId == identifier || BuildQualifiedJobId(projectId, jobId) == QualifiedIdentifier(projectId, identifier)
  }

  /** Which identifiers name a job: its local id, and its qualified id. An identifier with a dot can be both the local
      id of one job and the qualified id of another. */
  lemma {:induction false} NamesExactly(projectId: string, jobId: string, identifier: string)
    ensures Names(projectId, jobId, identifier)
      <==> jobId == identifier || BuildQualifiedJobId(projectId, jobId) == identifier
  {
    var qualified := BuildQualifiedJobId(projectId, jobId);
    assert qualified[|projectId|] == '.';
    if projectId != "" && '.' !in identifier {
      SamePrefix(projectId + ".", jobId, identifier);
    }
  }

  /** The position of the first job that the identifier names, or the number of jobs. */
  function Find(jobs: seq<RawJob>, projectId: string, identifier: string): (k: nat)
    ensures k <= |jobs|
    ensures k < |jobs| ==> Names(projectId, JobIdText(jobs[k]), identifier)
    ensures forall i :: 0 <= i < k ==> !Names(projectId, JobIdText(jobs[i]), identifier)
  {
    if jobs == [] || Names(projectId, JobIdText(jobs[0]), identifier) then 0
    else 1 + Find(jobs[1..], projectId, identifier)
  }

  /** `_find_job`. */
  method FindJob(jobs: seq<RawJob>, projectId: string, identifier: string) returns (r: Result<nat, EditError>)
    ensures var k := Find(jobs, projectId, identifier);
      r == if k < |jobs| then Ok(k) else Err(NotFound(identifier))
  {
    for i := 0 to |jobs|
      invariant forall j :: 0 <= j < i ==> !Names(projectId, JobIdText(jobs[j]), identifier)
    {
      if Names(projectId, JobIdText(jobs[i]), identifier) {
        FindIs(jobs, projectId, identifier, i);
        return Ok(i);
      }
    }
    FindIs(jobs, projectId, identifier, |jobs|);
    return Err(NotFound(identifier));
  }

  lemma {:induction false} FindIs(jobs: seq<RawJob>, projectId: string, identifier: string, k: nat)
    requires k <= |jobs| && (k < |jobs| ==> Names(projectId, JobIdText(jobs[k]), identifier))
    requires forall i :: 0 <= i < k ==> !Names(projectId, JobIdText(jobs[i]), identifier)
    ensures Find(jobs, projectId, identifier) == k
  {
  }

  // ---- the edits on raw data

  predicate IdTaken(jobs: seq<RawJob>, id: string) {
    exists i :: 0 <= i < |jobs| && ExistingIdText(jobs[i]) == id
  }

  function Cleared(job: RawJob, clear: seq<Field>): RawJob {
    if clear == [] then job else Cleared(job, clear[..|clear| - 1]) - {clear[|clear| - 1]}
  }

  function Filled(job: RawJob, updates: seq<(Field, Value)>): RawJob {
    if updates == [] then job
    else Filled(job, updates[..|updates| - 1])[updates[|updates| - 1].0 := updates[|updates| - 1].1]
  }

  /** First the cleared fields go, then the updates come in. */
  function Updated(job: RawJob, clear: seq<Field>, updates: seq<(Field, Value)>): RawJob {
    Filled(Cleared(job, clear), updates)
  }

  /** No update from position `i` on concerns the field. */
  predicate NoneFrom(updates: seq<(Field, Value)>, i: nat, key: Field) {
    forall j :: i <= j < |updates| ==> updates[j].0 != key
  }

  lemma {:induction false} ClearedExactly(job: RawJob, clear: seq<Field>, key: Field)
    ensures key in Cleared(job, clear) <==> key in job && key !in clear
    ensures key in Cleared(job, clear) ==> Cleared(job, clear)[key] == job[key]
  {
    if clear != [] {
      ClearedExactly(job, clear[..|clear| - 1], key);
      assert clear == clear[..|clear| - 1] + [clear[|clear| - 1]];
    }
  }

  lemma {:induction false} FilledLast(job: RawJob, updates: seq<(Field, Value)>, i: nat, key: Field)
    requires i < |updates| && updates[i].0 == key && NoneFrom(updates, i + 1, key)
    ensures key in Filled(job, updates) && Filled(job, updates)[key] == updates[i].1
  {
    if i < |updates| - 1 {
      FilledLast(job, updates[..|updates| - 1], i, key);
    }
  }

  lemma {:induction false} FilledNone(job: RawJob, updates: seq<(Field, Value)>, key: Field)
    requires NoneFrom(updates, 0, key)
    ensures key in Filled(job, updates) <==> key in job
    ensures key in job ==> Filled(job, updates)[key] == job[key]
  {
    if updates != [] {
      FilledNone(job, updates[..|updates| - 1], key);
    }
  }

  /** An update field by field: the last value given for a field wins, a cleared field without one is gone, and every
      other field is as it was. */
  lemma {:induction false} UpdatedExactly(job: RawJob, clear: seq<Field>, updates: seq<(Field, Value)>, key: Field)
    ensures forall i :: 0 <= i < |updates| && updates[i].0 == key && NoneFrom(updates, i + 1, key) ==>
      key in Updated(job, clear, updates) && Updated(job, clear, updates)[key] == updates[i].1
    ensures NoneFrom(updates, 0, key) ==>
      && (key in Updated(job, clear, updates) <==> key in job && key !in clear)
      && (key in Updated(job, clear, updates) ==> Updated(job, clear, updates)[key] == job[key])
  {
    var cleared := Cleared(job, clear);
    forall i | 0 <= i < |updates| && updates[i].0 == key && NoneFrom(updates, i + 1, key)
      ensures key in Filled(cleared, updates) && Filled(cleared, updates)[key] == updates[i].1
    {
      FilledLast(cleared, updates, i, key);
    }
    if NoneFrom(updates, 0, key) {
      FilledNone(cleared, updates, key);
      ClearedExactly(job, clear, key);
    }
  }

  function WithoutAt(jobs: seq<RawJob>, k: nat): seq<RawJob>
    requires k < |jobs|
  {
    jobs[..k] + jobs[k + 1..]
  }

  /** What an edit makes of the loaded data, before it is validated. */
  function Edited(raw: RawManifest, edit: Edit): Result<RawManifest, EditError> {
    if raw.jobs.NotAList? then Err(JobsNotAList)
    else
      var jobs := JobsOf(raw);
      match edit
      case AddJob(job) =>
        if JobIdText(job) == "" then Err(JobIdRequired)
        else if IdTaken(jobs, JobIdText(job)) then Err(AlreadyExists(JobIdText(job)))
        else Ok(raw.(jobs := Listed(jobs + [job])))
      case RemoveJob(identifier) =>
        var k := Find(jobs, raw.projectId, identifier);
        if k == |jobs| then Err(NotFound(identifier)) else Ok(raw.(jobs := Listed(WithoutAt(jobs, k))))
      case UpdateJob(identifier, clear, updates) =>
        var k := Find(jobs, raw.projectId, identifier);
        if k == |jobs| then Err(NotFound(identifier))
        else Ok(raw.(jobs := Listed(jobs[k := Updated(jobs[k], clear, updates)])))
  }

  /** Equality of raw data: Python's dictionaries compare without order. */
  predicate SameValue(a: Value, b: Value) {
    if a.Table? && b.Table? then AsMap(a.items) == AsMap(b.items) else a == b
  }

  predicate SameJob(a: RawJob, b: RawJob) {
    a.Keys == b.Keys && forall k :: k in a && k in b ==> SameValue(a[k], b[k])
  }

  predicate SameRaw(a: RawManifest, b: RawManifest) {
    && a.version == b.version && a.projectId == b.projectId && SameDefaults(a.defaults, b.defaults)
    && (a.jobs == b.jobs
        || (a.jobs.Listed? && b.jobs.Listed? && |a.jobs.jobs| == |b.jobs.jobs|
            && forall i :: 0 <= i < |a.jobs.jobs| ==> SameJob(a.jobs.jobs[i], b.jobs.jobs[i])))
  }

  /** The outcome of an edit: whether the stored manifest was rewritten, and the manifest that is stored then. */
  function AfterEdit(raw: RawManifest, edit: Edit, machine: Machine): (Result<bool, EditError>, RawManifest) {
    match Edited(raw, edit)
    case Err(e) => (Err(e), raw)
    case Ok(edited) =>
      if !Valid(edited, machine) then (Err(Invalid), raw)
      else if SameRaw(edited, raw) then (Ok(false), raw)
      else (Ok(true), edited)
  }

  /** An edit writes exactly when the stored data then differ from what they were. */
  lemma {:induction false} WritesExactly(raw: RawManifest, edit: Edit, machine: Machine)
    ensures var (r, after) := AfterEdit(raw, edit, machine);
      && (r == Ok(true) <==> !SameRaw(after, raw)) && (r != Ok(true) ==> after == raw)
      && (r.Ok? ==> Edited(raw, edit).Ok? && Valid(Edited(raw, edit).value, machine))
  {
    assert SameRaw(raw, raw);
  }

  method UpdateFields(job: RawJob, clear: seq<Field>, updates: seq<(Field, Value)>) returns (r: RawJob)
    ensures r == Updated(job, clear, updates)
  {
    r := job;
    for i := 0 to |clear|
      invariant r == Cleared(job, clear[..i])
    {
      assert clear[..i + 1][..i] == clear[..i];
      r := r - {clear[i]};
    }
    assert clear[..|clear|] == clear;
    for i := 0 to |updates|
      invariant r == Filled(Cleared(job, clear), updates[..i])
    {
      assert updates[..i + 1][..i] == updates[..i];
      r := r[updates[i].0 := updates[i].1];
    }
    assert updates[..|updates|] == updates;
  }

  /** The stored manifest of one project. */
  class Editor {
    var stored: RawManifest
    var writes: nat
    const machine: Machine

    constructor (stored: RawManifest, machine: Machine)
      ensures this.stored == stored && this.machine == machine && writes == 0
    {
      this.stored, this.machine, this.writes := stored, machine, 0;
    }

    /** One mutation of the loaded copy. */
    method MutateCopy(edit: Edit) returns (r: Result<RawManifest, EditError>)
      ensures r == Edited(stored, edit)
    {
      if stored.jobs.NotAList? {
        return Err(JobsNotAList);
      }
      var jobs := JobsOf(stored);
      match edit {
        case AddJob(job) =>
          var id := JobIdText(job);
          if id == "" {
            return Err(JobIdRequired);
          }
          for i := 0 to |jobs|
            invariant forall j :: 0 <= j < i ==> ExistingIdText(jobs[j]) != id
          {
            if ExistingIdText(jobs[i]) == id {
              return Err(AlreadyExists(id));
            }
          }
          return Ok(stored.(jobs := Listed(jobs + [job])));
        case RemoveJob(identifier) =>
          var k := FindJob(jobs, stored.projectId, identifier);
          if k.Err? {
            return Err(k.error);
          }
          return Ok(stored.(jobs := Listed(WithoutAt(jobs, k.value))));
        case UpdateJob(identifier, clear, updates) =>
          var k := FindJob(jobs, stored.projectId, identifier);
          if k.Err? {
            return Err(k.error);
          }
          var job := UpdateFields(jobs[k.value], clear, updates);
          return Ok(stored.(jobs := Listed(jobs[k.value := job])));
      }
    }

    /** `mutate_manifest`: a failure leaves the file alone, and it is written exactly when its data changed. */
    method Mutate(edit: Edit) returns (r: Result<bool, EditError>)
      modifies this
      ensures (r, stored) == AfterEdit(old(stored), edit, machine)
      ensures writes == old(writes) + if r == Ok(true) then 1 else 0
      ensures r == Ok(true) <==> !SameRaw(stored, old(stored))
      ensures r != Ok(true) ==> stored == old(stored)
    {
      WritesExactly(stored, edit, machine);
      var edited := MutateCopy(edit);
      if edited.Err? {
        return Err(edited.error);
      }
      if !SchemaOk(edited.value) {
        return Err(Invalid);
      }
      var messages := ValidateSemantics(Parse(edited.value), machine);
      if messages != [] {
        return Err(Invalid);
      }
      var changed := !SameRaw(edited.value, stored);
      if changed {
        stored := edited.value;
        writes := writes + 1;
      }
      return Ok(changed);
    }
  }

  // ---- runs of edits

  function RunEdits(raw: RawManifest, edits: seq<Edit>, machine: Machine): RawManifest {
    if edits == [] then raw
    else AfterEdit(RunEdits(raw, edits[..|edits| - 1], machine), edits[|edits| - 1], machine).1
  }

  /** The ids that an edit takes away or brings in: none when it is refused or changes nothing. */
  ghost function Hits(raw: RawManifest, edit: Edit, machine: Machine): set<string> {
    if AfterEdit(raw, edit, machine).0 != Ok(true) then {} else Targets(JobsOf(raw), raw.projectId, edit)
  }

  ghost function Targets(jobs: seq<RawJob>, projectId: string, edit: Edit): set<string> {
    match edit
    case AddJob(job) => {JobIdText(job)}
    case RemoveJob(identifier) =>
      var k := Find(jobs, projectId, identifier);
      if k < |jobs| then {JobIdText(jobs[k])} else {}
    case UpdateJob(identifier, clear, updates) =>
      var k := Find(jobs, projectId, identifier);
      if k < |jobs| then {JobIdText(jobs[k]), JobIdText(Updated(jobs[k], clear, updates))} else {}
  }

  ghost function RunHits(raw: RawManifest, edits: seq<Edit>, machine: Machine): set<string> {
    if edits == [] then {}
    else
      var init := edits[..|edits| - 1];
      RunHits(raw, init, machine) + Hits(RunEdits(raw, init, machine), edits[|edits| - 1], machine)
  }

  /** The jobs with other ids than these, in order. */
  ghost function Rest(jobs: seq<RawJob>, ids: set<string>): seq<RawJob> {
    if jobs == [] then []
    else
      var init, last := jobs[..|jobs| - 1], jobs[|jobs| - 1];
      Rest(init, ids) + if JobIdText(last) in ids then [] else [last]
  }

  lemma {:induction false} RestConcat(a: seq<RawJob>, b: seq<RawJob>, ids: set<string>)
    ensures Rest(a + b, ids) == Rest(a, ids) + Rest(b, ids)
  {
    if b == [] {
      assert a + b == a;
    } else {
      assert (a + b)[..|a + b| - 1] == a + b[..|b| - 1];
      RestConcat(a, b[..|b| - 1], ids);
    }
  }

  lemma {:induction false} RestOne(job: RawJob, ids: set<string>)
    requires JobIdText(job) in ids
    ensures Rest([job], ids) == []
  {
    assert [job][..0] == [];
  }

  lemma {:induction false} RestAround(jobs: seq<RawJob>, k: nat, middle: seq<RawJob>, ids: set<string>)
    requires k < |jobs| && JobIdText(jobs[k]) in ids
    requires Rest(middle, ids) == []
    ensures Rest(jobs[..k] + middle + jobs[k + 1..], ids) == Rest(jobs, ids)
  {
    assert jobs == jobs[..k] + [jobs[k]] + jobs[k + 1..];
    RestConcat(jobs[..k] + [jobs[k]], jobs[k + 1..], ids);
    RestConcat(jobs[..k], [jobs[k]], ids);
    RestConcat(jobs[..k] + middle, jobs[k + 1..], ids);
    RestConcat(jobs[..k], middle, ids);
    RestOne(jobs[k], ids);
  }

  lemma {:induction false} SwapKeepsRest(jobs: seq<RawJob>, k: nat, job: RawJob, ids: set<string>)
    requires k < |jobs| && JobIdText(jobs[k]) in ids && JobIdText(job) in ids
    ensures Rest(jobs[k := job], ids) == Rest(jobs, ids)
  {
    RestOne(job, ids);
    RestAround(jobs, k, [job], ids);
    SwapParts(jobs, k, job);
  }

  lemma {:induction false} SwapParts<T>(s: seq<T>, k: nat, x: T)
    requires k < |s|
    ensures s[k := x] == s[..k] + [x] + s[k + 1..]
  {
  }

  lemma {:induction false} EditedKeepsRest(raw: RawManifest, edit: Edit, ids: set<string>)
    requires Edited(raw, edit).Ok? && Targets(JobsOf(raw), raw.projectId, edit) <= ids
    ensures Edited(raw, edit).value.projectId == raw.projectId
    ensures Rest(JobsOf(Edited(raw, edit).value), ids) == Rest(JobsOf(raw), ids)
  {
    var jobs := JobsOf(raw);
    match edit {
      case AddJob(job) =>
        RestConcat(jobs, [job], ids);
        RestOne(job, ids);
      case RemoveJob(identifier) =>
        var k := Find(jobs, raw.projectId, identifier);
        RestAround(jobs, k, [], ids);
        assert jobs[..k] + [] == jobs[..k];
      case UpdateJob(identifier, clear, updates) =>
        var k := Find(jobs, raw.projectId, identifier);
        SwapKeepsRest(jobs, k, Updated(jobs[k], clear, updates), ids);
    }
  }

  /** An edit stores a valid rewrite or nothing. */
  lemma {:induction false} StoredOrKept(raw: RawManifest, edit: Edit, machine: Machine)
    ensures var (r, after) := AfterEdit(raw, edit, machine);
      if r == Ok(true) then Edited(raw, edit) == Ok(after) && Valid(after, machine) else after == raw
  {
  }

  /** What a single edit does to the list: an update changes the position that `Find` gives and no other, a removal
      takes that position out, an addition appends, and an edit that is refused or changes no data leaves everything
      alone. */
  lemma {:induction false} EditAtFound(raw: RawManifest, edit: Edit, machine: Machine)
    ensures var (r, after) := AfterEdit(raw, edit, machine);
      var jobs, now := JobsOf(raw), JobsOf(after);
      && (r != Ok(true) ==> after == raw)
      && (r == Ok(true) ==> after.(jobs := raw.jobs) == raw && after.jobs.Listed?)
      && (r == Ok(true) && edit.AddJob? ==> now == jobs + [edit.job] && !IdTaken(jobs, JobIdText(edit.job)))
      && (r == Ok(true) && !edit.AddJob? ==>
          var k := Find(jobs, raw.projectId, edit.identifier);
          && k < |jobs|
          && (edit.RemoveJob? ==> now == WithoutAt(jobs, k))
          && (edit.UpdateJob? ==> |now| == |jobs| && forall i :: 0 <= i < |jobs| && i != k ==> now[i] == jobs[i]))
  {
    StoredOrKept(raw, edit, machine);
  }

  /** Seen through the ids: whatever an edit does not hit stays as it was and in order. */
  lemma {:induction false} EditKeepsRest(raw: RawManifest, edit: Edit, machine: Machine, ids: set<string>)
    requires Hits(raw, edit, machine) <= ids
    ensures var (r, after) := AfterEdit(raw, edit, machine);
      && after.projectId == raw.projectId && (r != Ok(true) ==> after == raw)
      && Rest(JobsOf(after), ids) == Rest(JobsOf(raw), ids)
  {
    StoredOrKept(raw, edit, machine);
    if AfterEdit(raw, edit, machine).0 == Ok(true) {
      EditedKeepsRest(raw, edit, ids);
    }
  }

  /** Any run of edits keeps a valid manifest valid, its ids unique with it, and leaves every job whose id no edit of
      the run took away or brought in as it was and in order: edits that are refused, or that found another job, do not
      count. */
  lemma {:induction false} RunKeeps(raw: RawManifest, edits: seq<Edit>, machine: Machine, ids: set<string>)
    requires Valid(raw, machine) && RunHits(raw, edits, machine) <= ids
    ensures Valid(RunEdits(raw, edits, machine), machine)
    ensures RunEdits(raw, edits, machine).projectId == raw.projectId
    ensures Rest(JobsOf(RunEdits(raw, edits, machine)), ids) == Rest(JobsOf(raw), ids)
  {
    if edits != [] {
      var init, last := edits[..|edits| - 1], edits[|edits| - 1];
      RunKeeps(raw, init, machine, ids);
      StoredOrKept(RunEdits(raw, init, machine), last, machine);
      EditKeepsRest(RunEdits(raw, init, machine), last, machine, ids);
    }
  }

  // ---- add, then remove

  lemma {:induction false} PartsValid(raw: RawManifest, jobs: seq<RawJob>, machine: Machine)
    requires Valid(raw, machine)
    requires forall i :: 0 <= i < |jobs| ==> jobs[i] in raw.jobs.jobs
    requires forall i, j :: 0 <= i < j < |jobs| ==> JobIdText(jobs[i]) != JobIdText(jobs[j])
    ensures Valid(raw.(jobs := Listed(jobs)), machine)
  {
    var before := Parse(raw).jobs;
    forall i | 0 <= i < |jobs| ensures JobSchemaOk(jobs[i]) && JobSound(ParseJob(jobs[i]), raw.defaults, machine) {
      var k :| 0 <= k < |raw.jobs.jobs| && raw.jobs.jobs[k] == jobs[i];
      assert before[k] == ParseJob(jobs[i]);
    }
    forall i | 0 <= i < |jobs| ensures ParseJob(jobs[i]).id == JobIdText(jobs[i]) {
      ParsedId(jobs[i]);
    }
  }

  lemma {:induction false} ParsedId(job: RawJob)
    requires JobSchemaOk(job)
    ensures ParseJob(job).id == JobIdText(job) == ExistingIdText(job)
  {
    assert FieldOk(Id, job[Id]);
  }

  lemma {:induction false} RawIdsDistinct(raw: RawManifest, machine: Machine)
    requires Valid(raw, machine)
    ensures forall i, j :: 0 <= i < j < |raw.jobs.jobs| ==> JobIdText(raw.jobs.jobs[i]) != JobIdText(raw.jobs.jobs[j])
  {
    var jobs := raw.jobs.jobs;
    forall i, j | 0 <= i < j < |jobs| ensures JobIdText(jobs[i]) != JobIdText(jobs[j]) {
      ParsedId(jobs[i]);
      ParsedId(jobs[j]);
      assert Parse(raw).jobs[i].id != Parse(raw).jobs[j].id;
    }
  }

  lemma {:induction false} RemovedValid(raw: RawManifest, k: nat, machine: Machine)
    requires Valid(raw, machine) && k < |raw.jobs.jobs|
    ensures Valid(raw.(jobs := Listed(WithoutAt(raw.jobs.jobs, k))), machine)
  {
    var jobs, left := raw.jobs.jobs, WithoutAt(raw.jobs.jobs, k);
    RawIdsDistinct(raw, machine);
    forall i | 0 <= i < |left| ensures left[i] in jobs {
      assert left[i] == jobs[if i < k then i else i + 1];
    }
    PartsValid(raw, left, machine);
  }

  lemma {:induction false} Rewrites(raw: RawManifest, edit: Edit, edited: RawManifest, machine: Machine)
    requires Edited(raw, edit) == Ok(edited) && Valid(edited, machine) && |JobsOf(edited)| != |JobsOf(raw)|
    ensures AfterEdit(raw, edit, machine) == (Ok(true), edited)
  {
  }

  lemma {:induction false} RemovedIsBack(jobs: seq<RawJob>, job: RawJob, k: nat)
    requires k <= |jobs|
    requires forall i :: 0 <= i < |jobs| ==> jobs[i] != job
    ensures WithoutAt(jobs + [job], k) == jobs <==> k == |jobs|
  {
    var left := WithoutAt(jobs + [job], k);
    if k < |jobs| {
      assert left[|jobs| - 1] == job != jobs[|jobs| - 1];
    } else {
      assert left == jobs;
    }
  }

  /** Adding a job and removing it again by its id gives back the manifest exactly when the new id is not the qualified
      id of a job that was there before: otherwise that job is the one removed, and the new one stays. */
  lemma {:induction false} AddThenRemoveExactly(raw: RawManifest, job: RawJob, machine: Machine)
    requires raw.jobs.Listed? && AfterEdit(raw, AddJob(job), machine).0.Ok?
    ensures var added := AfterEdit(raw, AddJob(job), machine).1;
      var (outcome, removed) := AfterEdit(added, RemoveJob(JobIdText(job)), machine);
      && added.jobs == Listed(raw.jobs.jobs + [job]) && outcome == Ok(true)
      && (removed == raw <==> !QualifiedIdTaken(raw.jobs.jobs, raw.projectId, JobIdText(job)))
  {
    var jobs, id := raw.jobs.jobs, JobIdText(job);
    var added := raw.(jobs := Listed(jobs + [job]));
    assert Edited(raw, AddJob(job)) == Ok(added) && Valid(added, machine);
    Rewrites(raw, AddJob(job), added, machine);
    var k := Find(jobs + [job], raw.projectId, id);
    NewJob(raw, job, machine);
    RemovalFinds(jobs, job, raw.projectId, k);
    RemovedValid(added, k, machine);
    var removed := added.(jobs := Listed(WithoutAt(jobs + [job], k)));
    Rewrites(added, RemoveJob(id), removed, machine);
    RemovedIsBack(jobs, job, k);
    assert removed == raw.(jobs := Listed(WithoutAt(jobs + [job], k)));
  }

  lemma {:induction false} NewJob(raw: RawManifest, job: RawJob, machine: Machine)
    requires raw.jobs.Listed? && Valid(raw.(jobs := Listed(raw.jobs.jobs + [job])), machine)
    ensures forall i :: 0 <= i < |raw.jobs.jobs| ==> JobIdText(raw.jobs.jobs[i]) != JobIdText(job)
  {
    var all := raw.jobs.jobs + [job];
    RawIdsDistinct(raw.(jobs := Listed(all)), machine);
    forall i | 0 <= i < |raw.jobs.jobs| ensures JobIdText(raw.jobs.jobs[i]) != JobIdText(job) {
      assert JobIdText(all[i]) != JobIdText(all[|raw.jobs.jobs|]);
    }
  }

  /** The id is the qualified id of one of the jobs. */
  predicate QualifiedIdTaken(jobs: seq<RawJob>, projectId: string, id: string) {
    exists i :: 0 <= i < |jobs| && BuildQualifiedJobId(projectId, JobIdText(jobs[i])) == id
  }

  lemma {:induction false} RemovalFinds(jobs: seq<RawJob>, job: RawJob, projectId: string, k: nat)
    requires forall i :: 0 <= i < |jobs| ==> JobIdText(jobs[i]) != JobIdText(job)
    requires k == Find(jobs + [job], projectId, JobIdText(job))
    ensures k <= |jobs| && (k == |jobs| <==> !QualifiedIdTaken(jobs, projectId, JobIdText(job)))
  {
    var id, all := JobIdText(job), jobs + [job];
    NamesExactly(projectId, id, id);
    assert all[|jobs|] == job;
    assert forall i :: 0 <= i < |jobs| ==> all[i] == jobs[i];
    forall i | 0 <= i < |jobs|
      ensures Names(projectId, JobIdText(jobs[i]), id) <==> BuildQualifiedJobId(projectId, JobIdText(jobs[i])) == id
    {
      NamesExactly(projectId, JobIdText(jobs[i]), id);
    }
    NamedFirst(jobs, all, projectId, id, k);
  }

  lemma {:induction false} NamedFirst(jobs: seq<RawJob>, all: seq<RawJob>, projectId: string, id: string, k: nat)
    requires |jobs| < |all| && jobs == all[..|jobs|] && k == Find(all, projectId, id) <= |jobs|
    requires forall i :: 0 <= i < |jobs| ==>
      (Names(projectId, JobIdText(jobs[i]), id) <==> BuildQualifiedJobId(projectId, JobIdText(jobs[i])) == id)
    ensures k == |jobs| <==> !QualifiedIdTaken(jobs, projectId, id)
  {
    if k < |jobs| {
      assert jobs[k] == all[k];
    } else {
      forall i | 0 <= i < |jobs| ensures BuildQualifiedJobId(projectId, JobIdText(jobs[i])) != id {
        assert jobs[i] == all[i];
      }
    }
  }

  /** Without a dot in the new id, the round trip always gives back the manifest. */
  lemma {:induction false} DotFreeRoundTrip(raw: RawManifest, job: RawJob, machine: Machine)
    requires raw.jobs.Listed? && AfterEdit(raw, AddJob(job), machine).0.Ok?
    requires '.' !in JobIdText(job)
    ensures AfterEdit(AfterEdit(raw, AddJob(job), machine).1, RemoveJob(JobIdText(job)), machine).1 == raw
  {
    AddThenRemoveExactly(raw, job, machine);
    forall i | 0 <= i < |raw.jobs.jobs|
      ensures BuildQualifiedJobId(raw.projectId, JobIdText(raw.jobs.jobs[i])) != JobIdText(job)
    {
      assert BuildQualifiedJobId(raw.projectId, JobIdText(raw.jobs.jobs[i]))[|raw.projectId|] == '.';
    }
  }
}
