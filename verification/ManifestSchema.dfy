/** Raw manifests as they are loaded and edited: the schema, the parser into the typed manifest, and the
    semantic checks above the schema. */
module ManifestSchema {
  import opened Contracts
  import opened Text
  import opened CronSchedule
  import opened Manifest

  // ---- raw data

  /** The keys of a raw job mapping. */
  datatype Field =
    | Id | Command | ScheduleOf | Description | Enabled | WorkingDir | ShellOf | EnvOf | Overlap
    | Unknown(name: string)

  /** A raw value; `Other` stands for any value that no field accepts, with what `str` makes of it. */
  datatype Value = Text(text: string) | Flag(flag: bool) | Table(items: Dict) | Other(shown: string)

  type RawJob = map<Field, Value>

  /** The value under `jobs`. */
  datatype JobList = Missing | NotAList | Listed(jobs: seq<RawJob>)

  datatype RawManifest = RawManifest(version: int, projectId: string, defaults: Defaults, jobs: JobList)

  function JobsOf(raw: RawManifest): seq<RawJob> {
    if raw.jobs.Listed? then raw.jobs.jobs else []
  }

  // ---- the schema

  predicate IsIdStart(c: char) { 'a' <= c <= 'z' || '0' <= c <= '9' }
  predicate IsIdChar(c: char) { IsIdStart(c) || c == '.' || c == '_' || c == '-' }

  predicate PlainId(s: string) {
    s != "" && IsIdStart(s[0]) && forall i :: 0 <= i < |s| ==> IsIdChar(s[i])
  }

  /** What `$` lets pass: one newline at the end. */
  function WithoutNewline(s: string): string {
    if s != "" && s[|s| - 1] == '\n' then s[..|s| - 1] else s
  }

  /** The pattern of project and job ids. */
  predicate IdPattern(s: string) {
    PlainId(WithoutNewline(s))
  }

  /** The pattern accepts plain ids, and plain ids with one newline behind them. */
  lemma {:induction false} IdPatternExactly(s: string)
    ensures IdPattern(s) <==> exists p :: PlainId(p) && (s == p || s == p + "\n")
  {
    if s != "" && s[|s| - 1] == '\n' {
      assert s == s[..|s| - 1] + "\n";
    }
    forall p | PlainId(p) && (s == p || s == p + "\n") ensures WithoutNewline(s) == p {
      assert IsIdChar(p[|p| - 1]);
    }
  }

  /** An id that the schema accepts is a token, as the crontab markers need, exactly when it has no final newline. */
  lemma {:induction false} SchemaIdToken(s: string)
    requires IdPattern(s)
    ensures IsToken(s) <==> s[|s| - 1] != '\n'
  {
    if s[|s| - 1] == '\n' {
      assert IsSpace(s[|s| - 1]);
    }
  }

  predicate ScheduleTable(v: Value) {
    v.Table? && |v.items| == 1 &&
    (v.items[0].0 == "cron" || (v.items[0].0 == "every" && EveryValue(WithoutNewline(v.items[0].1))))
  }

  predicate FieldOk(key: Field, v: Value) {
    match key
    case Id => v.Text? && IdPattern(v.text)
    case Command => v.Text?
    case ScheduleOf => ScheduleTable(v)
    case Description => v.Text?
    case Enabled => v.Flag?
    case WorkingDir => v.Text?
    case ShellOf => v.Text?
    case EnvOf => v.Table?
    case Overlap => v.Text? && (v.text == "allow" || v.text == "forbid")
    case Unknown(_) => false
  }

  predicate JobSchemaOk(job: RawJob) {
    && Id in job && ScheduleOf in job && Command in job
    && forall k :: k in job ==> FieldOk(k, job[k])
  }

  predicate SchemaOk(raw: RawManifest) {
    && raw.version == 1 && IdPattern(raw.projectId) && raw.jobs.Listed?
    && forall i :: 0 <= i < |raw.jobs.jobs| ==> JobSchemaOk(raw.jobs.jobs[i])
  }

  // ---- the parser

  function OptionalText(job: RawJob, key: Field): Option<string> {
    if key in job && job[key].Text? then Some(job[key].text) else None
  }

  /** `parse_job_definition`. */
  function ParseJob(job: RawJob): JobDefinition
    requires JobSchemaOk(job)
  {
    assert FieldOk(Id, job[Id]) && FieldOk(Command, job[Command]) && FieldOk(ScheduleOf, job[ScheduleOf]);
    assert Enabled in job ==> FieldOk(Enabled, job[Enabled]);
    assert EnvOf in job ==> FieldOk(EnvOf, job[EnvOf]);
    var entry := job[ScheduleOf].items[0];
    JobDefinition(
      job[Id].text,
      job[Command].text,
      Schedule(if entry.0 == "cron" then ScheduleKind.CronSchedule else EverySchedule, entry.1),
      OptionalText(job, Description),
      if Enabled in job then job[Enabled].flag else true,
      OptionalText(job, WorkingDir),
      OptionalText(job, ShellOf),
      if EnvOf in job then job[EnvOf].items else [],
      if OptionalText(job, Overlap) == Some("forbid") then Forbid else Allow)
  }

  function ParseJobs(jobs: seq<RawJob>): (r: seq<JobDefinition>)
    requires forall i :: 0 <= i < |jobs| ==> JobSchemaOk(jobs[i])
    ensures |r| == |jobs| && forall i :: 0 <= i < |jobs| ==> r[i] == ParseJob(jobs[i])
  {
    seq(|jobs|, i requires 0 <= i < |jobs| => ParseJob(jobs[i]))
  }

  /** `parse_project_manifest`. */
  function Parse(raw: RawManifest): ProjectManifest
    requires SchemaOk(raw)
  {
    ProjectManifest(raw.version, raw.projectId, ParseJobs(raw.jobs.jobs), raw.defaults)
  }

  // ---- the semantic checks

  /** What the checks ask of the machine. */
  datatype Machine = Machine(resolve: string -> string, isDirectory: string -> bool, knownTimezone: string -> bool)

  datatype Complaint =
    | BlankDefaultShell | UnknownTimezone
    | DuplicateId(job: nat) | BlankCommand(job: nat) | BlankShell(job: nat)
    | BadSchedule(job: nat) | NoDirectory(job: nat)

  /** `not s.strip()`. */
  predicate Blank(s: string) {
    forall i :: 0 <= i < |s| ==> IsSpace(s[i])
  }

  /** Blank text is what `rstrip` leaves nothing of. */
  lemma {:induction false} BlankExactly(s: string)
    ensures Blank(s) <==> RStrip(s) == ""
  {
    if s != "" {
      BlankExactly(s[..|s| - 1]);
    }
  }

  /** `validate_schedule`. */
  predicate ScheduleSound(s: Schedule) {
    match s.kind
    case CronSchedule => CronExpression(s.value)
    case EverySchedule => s.value != "" && s.value[|s.value| - 1] in {'s', 'm', 'h', 'd', 'w'}
  }

  predicate JobSound(job: JobDefinition, defaults: Defaults, machine: Machine) {
    && !Blank(job.command) && (job.shell.Some? ==> !Blank(job.shell.value))
    && ScheduleSound(job.schedule)
    && machine.isDirectory(machine.resolve(Or(job.workingDir, defaults.workingDir)))
  }

  predicate DefaultsSound(defaults: Defaults, machine: Machine) {
    !Blank(defaults.shell) && (defaults.timezone.Some? ==> machine.knownTimezone(defaults.timezone.value))
  }

  predicate Sound(m: ProjectManifest, machine: Machine) {
    && DefaultsSound(m.defaults, machine) && DistinctIds(m.jobs)
    && forall i :: 0 <= i < |m.jobs| ==> JobSound(m.jobs[i], m.defaults, machine)
  }

  /** The complaints about one job, in the order they are appended. */
  function JobComplaints(job: JobDefinition, defaults: Defaults, machine: Machine, i: nat, seen: bool): seq<Complaint> {
    (if seen then [DuplicateId(i)] else [])
    + (if Blank(job.command) then [BlankCommand(i)] else [])
    + (if job.shell.Some? && Blank(job.shell.value) then [BlankShell(i)] else [])
    + (if ScheduleSound(job.schedule) then [] else [BadSchedule(i)])
    + (if machine.isDirectory(machine.resolve(Or(job.workingDir, defaults.workingDir))) then [] else [NoDirectory(i)])
  }

  /** What each complaint says about the manifest, if it is about the first `n` jobs. */
  predicate Justified(c: Complaint, m: ProjectManifest, machine: Machine, n: nat)
    requires n <= |m.jobs|
  {
    match c
    case BlankDefaultShell => Blank(m.defaults.shell)
    case UnknownTimezone => m.defaults.timezone.Some? && !machine.knownTimezone(m.defaults.timezone.value)
    case DuplicateId(i) => i < n && Repeats(m.jobs, i)
    case BlankCommand(i) => i < n && Blank(m.jobs[i].command)
    case BlankShell(i) => i < n && m.jobs[i].shell.Some? && Blank(m.jobs[i].shell.value)
    case BadSchedule(i) => i < n && !ScheduleSound(m.jobs[i].schedule)
    case NoDirectory(i) =>
      i < n && !machine.isDirectory(machine.resolve(Or(m.jobs[i].workingDir, m.defaults.workingDir)))
  }

  /** `validate_semantics`: one pass with a set of the ids seen so far. Exactly the justified complaints are made, and
      there are none exactly for sound manifests. */
  method ValidateSemantics(m: ProjectManifest, machine: Machine) returns (messages: seq<Complaint>)
    ensures messages == [] <==> Sound(m, machine)
    ensures forall c :: c in messages <==> Justified(c, m, machine, |m.jobs|)
  {
    messages := [];
    var seen: set<string> := {};
    if Blank(m.defaults.shell) {
      messages := messages + [BlankDefaultShell];
    }
    if m.defaults.timezone.Some? && !machine.knownTimezone(m.defaults.timezone.value) {
      messages := messages + [UnknownTimezone];
    }
    for i := 0 to |m.jobs|
      invariant seen == SeenIds(m.jobs[..i])
      invariant Told(m, machine, messages, i)
    {
      var job := m.jobs[i];
      TellNext(m, machine, messages, i);
      assert m.jobs[..i + 1] == m.jobs[..i] + [job];
      messages := messages + JobComplaints(job, m.defaults, machine, i, job.id in seen);
      seen := seen + {job.id};
    }
    NoRepeats(m.jobs);
    SilentExactly(m, machine, messages);
  }

  /** The report on the defaults and the first `n` jobs. */
  ghost predicate Told(m: ProjectManifest, machine: Machine, messages: seq<Complaint>, n: nat)
    requires n <= |m.jobs|
  {
    forall c :: c in messages <==> Justified(c, m, machine, n)
  }

  /** Nothing to say is the same as sound. */
  lemma {:induction false} SilentExactly(m: ProjectManifest, machine: Machine, messages: seq<Complaint>)
    requires Told(m, machine, messages, |m.jobs|)
    requires DistinctIds(m.jobs) <==> forall i :: 0 <= i < |m.jobs| ==> !Repeats(m.jobs, i)
    ensures messages == [] <==> Sound(m, machine)
  {
    if messages == [] {
      assert !Justified(BlankDefaultShell, m, machine, |m.jobs|);
      assert !Justified(UnknownTimezone, m, machine, |m.jobs|);
      forall i | 0 <= i < |m.jobs| ensures JobSound(m.jobs[i], m.defaults, machine) && !Repeats(m.jobs, i) {
        assert DuplicateId(i) !in messages && BlankCommand(i) !in messages && BlankShell(i) !in messages;
        assert BadSchedule(i) !in messages && NoDirectory(i) !in messages;
      }
    } else {
      assert Justified(messages[0], m, machine, |m.jobs|);
    }
  }

  lemma {:induction false} TellNext(m: ProjectManifest, machine: Machine, messages: seq<Complaint>, i: nat)
    requires i < |m.jobs| && Told(m, machine, messages, i)
    ensures var found := JobComplaints(m.jobs[i], m.defaults, machine, i, m.jobs[i].id in SeenIds(m.jobs[..i]));
      Told(m, machine, messages + found, i + 1)
  {
    var seen := m.jobs[i].id in SeenIds(m.jobs[..i]);
    var found := JobComplaints(m.jobs[i], m.defaults, machine, i, seen);
    SeenExactly(m.jobs, i);
    forall c ensures c in messages + found <==> Justified(c, m, machine, i + 1) {
      ComplaintsExactly(m.jobs[i], m.defaults, machine, i, seen, c);
      assert c in messages <==> Justified(c, m, machine, i);
    }
  }

  /** An earlier job has the same id. */
  predicate Repeats(jobs: seq<JobDefinition>, i: nat) {
    i < |jobs| && exists j :: 0 <= j < i && jobs[j].id == jobs[i].id
  }

  function SeenIds(jobs: seq<JobDefinition>): set<string> {
    set j | j in jobs :: j.id
  }

  lemma {:induction false} SeenExactly(jobs: seq<JobDefinition>, i: nat)
    requires i < |jobs|
    ensures jobs[i].id in SeenIds(jobs[..i]) <==> Repeats(jobs, i)
  {
    if jobs[i].id in SeenIds(jobs[..i]) {
      var x :| x in jobs[..i] && x.id == jobs[i].id;
      var j :| 0 <= j < i && jobs[..i][j] == x;
      assert jobs[j].id == jobs[i].id;
    }
    if Repeats(jobs, i) {
      var j :| 0 <= j < i && jobs[j].id == jobs[i].id;
      assert jobs[j] == jobs[..i][j];
    }
  }

  lemma {:induction false} ComplaintsExactly(job: JobDefinition, defaults: Defaults, machine: Machine, i: nat,
          seen: bool, c: Complaint)
    ensures c in JobComplaints(job, defaults, machine, i, seen) <==>
      || (c == DuplicateId(i) && seen)
      || (c == BlankCommand(i) && Blank(job.command))
      || (c == BlankShell(i) && job.shell.Some? && Blank(job.shell.value))
      || (c == BadSchedule(i) && !ScheduleSound(job.schedule))
      || (c == NoDirectory(i) && !machine.isDirectory(machine.resolve(Or(job.workingDir, defaults.workingDir))))
  {
  }

  lemma {:induction false} NoRepeats(jobs: seq<JobDefinition>)
    ensures DistinctIds(jobs) <==> forall i :: 0 <= i < |jobs| ==> !Repeats(jobs, i)
  {
    if forall i :: 0 <= i < |jobs| ==> !Repeats(jobs, i) {
      forall i, j | 0 <= i < j < |jobs| ensures jobs[i].id != jobs[j].id {
        assert !Repeats(jobs, j);
      }
    }
  }

  /** A manifest that passed both validations. */
  predicate Valid(raw: RawManifest, machine: Machine) {
    SchemaOk(raw) && Sound(Parse(raw), machine)
  }

  /** The job has what it takes to run on this machine. */
  predicate Runnable(x: Job, machine: Machine) {
    && !Blank(x.execution.command) && !Blank(x.execution.shell) && machine.isDirectory(x.execution.workingDir)
    && (x.execution.timezone.Some? ==> machine.knownTimezone(x.execution.timezone.value))
  }

  lemma {:induction false} SoundRuns(x: Job, m: ProjectManifest, job: JobDefinition, machine: Machine, place: Place)
    requires RunsAs(x, m, job, place) && place.resolve == machine.resolve
    requires DefaultsSound(m.defaults, machine) && JobSound(job, m.defaults, machine)
    ensures Runnable(x, machine)
  {
    assert job.shell.Some? ==> job.shell == Some(job.shell.value);
    assert job.workingDir.Some? ==> job.workingDir == Some(job.workingDir.value);
  }

  /** What is validated is what runs: every job of a valid manifest has a command and a shell to run it with, and the
      directory that it runs in is the one that was found on the machine. */
  lemma {:induction false} CheckedIsRun(raw: RawManifest, machine: Machine, place: Place)
    requires Valid(raw, machine) && place.resolve == machine.resolve
    ensures forall x :: x in NormalizeManifest(Parse(raw), place).jobs ==> Runnable(x, machine)
  {
    var m := Parse(raw);
    NormalizedExactly(m, place);
    forall x | x in NormalizeManifest(m, place).jobs ensures Runnable(x, machine) {
      var job :| job in m.jobs && RunsAs(x, m, job, place);
      var i :| 0 <= i < |m.jobs| && m.jobs[i] == job;
      SoundRuns(x, m, m.jobs[i], machine, place);
    }
  }

  /** A job that is not sent to an existing directory is one that validation complains about, and no other. */
  lemma {:induction false} DirectoryComplaint(m: ProjectManifest, machine: Machine, place: Place, i: nat)
    requires i < |m.jobs| && place.resolve == machine.resolve
    ensures Justified(NoDirectory(i), m, machine, |m.jobs|) <==>
      !machine.isDirectory(Normalizer(m, place)(m.jobs[i]).execution.workingDir)
  {
    NormalizedRuns(m, place, m.jobs[i]);
  }

  /** The typed job read off the raw one, key by key. */
  lemma {:induction false} ParsedFields(job: RawJob)
    requires JobSchemaOk(job)
    ensures var p := ParseJob(job);
      && job[Id] == Text(p.id) && job[Command] == Text(p.command)
      && (p.enabled <==> Enabled !in job || job[Enabled] == Flag(true))
      && (p.overlap == Forbid <==> Overlap in job && job[Overlap] == Text("forbid"))
      && (forall s :: p.description == Some(s) <==> Description in job && job[Description] == Text(s))
      && (forall s :: p.shell == Some(s) <==> ShellOf in job && job[ShellOf] == Text(s))
      && (forall s :: p.workingDir == Some(s) <==> WorkingDir in job && job[WorkingDir] == Text(s))
      && (if EnvOf in job then job[EnvOf] == Table(p.env) else p.env == [])
      && (p.schedule.kind == ScheduleKind.CronSchedule ==> job[ScheduleOf] == Table([("cron", p.schedule.value)]))
      && (p.schedule.kind == EverySchedule ==> job[ScheduleOf] == Table([("every", p.schedule.value)]))
  {
    assert FieldOk(Id, job[Id]) && FieldOk(Command, job[Command]) && FieldOk(ScheduleOf, job[ScheduleOf]);
    assert forall k :: k in job ==> FieldOk(k, job[k]);
    var items := job[ScheduleOf].items;
    assert items == [items[0]];
  }

  /** The two validations together leave only schedules that the renderers know how to read. */
  lemma {:induction false} ValidatedSchedule(job: RawJob)
    requires JobSchemaOk(job) && ScheduleSound(ParseJob(job).schedule)
    ensures ValidSchedule(ParseJob(job).schedule)
  {
    assert FieldOk(ScheduleOf, job[ScheduleOf]);
  }
}
