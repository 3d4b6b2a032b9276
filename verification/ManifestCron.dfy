/** From a validated manifest to the premises of the cron results: what validation leaves open. */
module ManifestCron {
  import opened Contracts
  import opened Order
  import opened Text
  import opened CronSchedule
  import opened CronText
  import opened Manifest
  import opened ManifestSchema
  import opened CronDocument
  import opened CronHost
  import opened CronConvergence
  import opened CronOneLine

  /** A digest prints without white space and is never empty. */
  ghost predicate TokenDigest(h: Digest) {
    forall p :: IsToken(h(p))
  }

  predicate FinalNewline(s: string) {
    s != "" && s[|s| - 1] == '\n'
  }

  /** The manifest keeps its ids and schedules on one line. */
  predicate OneLineManifest(m: ProjectManifest) {
    && !FinalNewline(m.projectId)
    && forall i :: 0 <= i < |m.jobs| ==> OneLineJob(m.jobs[i])
  }

  lemma {:induction false} JoinedToken(a: string, b: string)
    requires IdPattern(a) && IdPattern(b)
    ensures IsToken(BuildQualifiedJobId(a, b)) <==> !FinalNewline(a) && !FinalNewline(b)
  {
    var q := BuildQualifiedJobId(a, b);
    SchemaIdToken(a);
    SchemaIdToken(b);
    assert q[|a|] == '.' && !IsSpace('.');
    assert a == q[..|a|] && b == q[|a| + 1..];
    assert forall i :: 0 <= i < |a| ==> q[i] == a[i];
    assert forall i :: 0 <= i < |b| ==> q[|a| + 1 + i] == b[i];
  }

  lemma {:induction false} ReadyJob(projectId: string, defaults: Defaults, job: JobDefinition,
          resolve: string -> string, h: Digest, hashes: Hashes, layout: Layout)
    requires TokenDigest(h) && IdPattern(projectId) && IdPattern(job.id) && ValidSchedule(job.schedule)
    requires !FinalNewline(projectId)
    requires var x := NormalizeJob(projectId, defaults, job, resolve);
      && x.qualifiedId in hashes.jobs && hashes.jobs[x.qualifiedId] == HashJob(x, h)
      && x.qualifiedId in hashes.definitions && hashes.definitions[x.qualifiedId] == HashDefinition(x, h)
      && PathText(layout(x))
    ensures ValidJob(NormalizeJob(projectId, defaults, job, resolve), projectId, hashes, layout)
      <==> !FinalNewline(job.id) && OneLine(job.schedule.value)
  {
    JoinedToken(projectId, job.id);
    SchemaIdToken(job.id);
  }

  /** A property of every normalized job is a property of every job that was normalized. */
  lemma {:induction false} AllImages(jobs: seq<JobDefinition>, n: seq<Job>, f: JobDefinition -> Job,
          good: JobDefinition -> bool, ok: Job -> bool)
    requires forall x :: x in n <==> Image(jobs, f, x)
    requires forall i :: 0 <= i < |jobs| ==> (ok(f(jobs[i])) <==> good(jobs[i]))
    ensures (forall j :: 0 <= j < |n| ==> ok(n[j])) <==> forall i :: 0 <= i < |jobs| ==> good(jobs[i])
  {
    if forall j :: 0 <= j < |n| ==> ok(n[j]) {
      forall i | 0 <= i < |jobs| ensures good(jobs[i]) {
        assert Image(jobs, f, f(jobs[i]));
        var j :| 0 <= j < |n| && n[j] == f(jobs[i]);
      }
    }
    if forall i :: 0 <= i < |jobs| ==> good(jobs[i]) {
      forall j | 0 <= j < |n| ensures ok(n[j]) {
        assert n[j] in n;
        var x :| x in jobs && f(x) == n[j];
        var i :| 0 <= i < |jobs| && jobs[i] == x;
      }
    }
  }

  ghost function Ready(projectId: string, hashes: Hashes, layout: Layout): (ok: Job -> bool)
    ensures forall x {:trigger ok(x)} :: ok(x) == ValidJob(x, projectId, hashes, layout)
  {
    (x: Job) => ValidJob(x, projectId, hashes, layout)
  }

  predicate OneLineJob(job: JobDefinition) {
    !FinalNewline(job.id) && OneLine(job.schedule.value)
  }

  lemma {:induction false} ReadyImage(raw: RawManifest, i: nat, machine: Machine, place: Place, h: Digest,
          layout: Layout)
    requires Valid(raw, machine) && TokenDigest(h) && i < |raw.jobs.jobs| && !FinalNewline(raw.projectId)
    requires forall x: Job :: PathText(layout(x))
    ensures var m := NormalizeManifest(Parse(raw), place);
      var x := Normalizer(Parse(raw), place)(Parse(raw).jobs[i]);
      Ready(raw.projectId, BuildHashes(m, h), layout)(x) <==> OneLineJob(Parse(raw).jobs[i])
  {
    var p, m := Parse(raw), NormalizeManifest(Parse(raw), place);
    var x := Normalizer(p, place)(p.jobs[i]);
    NormalizedContents(p, place);
    assert Image(p.jobs, Normalizer(p, place), x);
    HashesAt(m.jobs, h);
    var j :| 0 <= j < |m.jobs| && m.jobs[j] == x;
    ReadySchedule(raw, i, machine);
    ReadyJob(p.projectId, p.defaults, p.jobs[i], place.resolve, h, BuildHashes(m, h), layout);
  }

  lemma {:induction false} ReadySchedule(raw: RawManifest, i: nat, machine: Machine)
    requires Valid(raw, machine) && i < |raw.jobs.jobs|
    ensures ValidSchedule(Parse(raw).jobs[i].schedule) && IdPattern(Parse(raw).jobs[i].id)
  {
    var job := raw.jobs.jobs[i];
    assert FieldOk(Id, job[Id]);
    ValidatedSchedule(job);
  }

  /** Whatever passes validation has schedules that the backends can be asked about. */
  lemma {:induction false} NormalizedSchedulable(raw: RawManifest, machine: Machine, place: Place)
    requires Valid(raw, machine)
    ensures Schedulable(NormalizeManifest(Parse(raw), place).jobs)
  {
    var jobs := NormalizeManifest(Parse(raw), place).jobs;
    forall j | 0 <= j < |jobs| ensures ValidSchedule(jobs[j].schedule) {
      var i := Source(Parse(raw), place, j);
      ReadySchedule(raw, i, machine);
    }
  }

  /** Validation guarantees the premises of the cron results except for two things: an id may still end in a newline,
      which the pattern's `$` lets pass, and a cron expression may be spread over several lines. */
  lemma {:induction false} CronReadyExactly(raw: RawManifest, machine: Machine, place: Place, h: Digest, layout: Layout)
    requires Valid(raw, machine) && TokenDigest(h)
    requires forall x: Job :: PathText(layout(x))
    ensures var m := NormalizeManifest(Parse(raw), place);
      ValidManifest(m, BuildHashes(m, h), layout) <==> OneLineManifest(Parse(raw))
  {
    var p, m := Parse(raw), NormalizeManifest(Parse(raw), place);
    var ok := Ready(raw.projectId, BuildHashes(m, h), layout);
    NormalizedContents(p, place);
    HashesComplete(m, h);
    SchemaIdToken(raw.projectId);
    if !FinalNewline(raw.projectId) {
      forall i | 0 <= i < |p.jobs| ensures ok(Normalizer(p, place)(p.jobs[i])) <==> OneLineJob(p.jobs[i]) {
        ReadyImage(raw, i, machine, place, h, layout);
      }
      AllImages(p.jobs, m.jobs, Normalizer(p, place), OneLineJob, ok);
      ReadyEach(m, BuildHashes(m, h), layout);
    }
  }

  lemma {:induction false} ReadyEach(m: NormalizedManifest, hashes: Hashes, layout: Layout)
    requires IsToken(m.projectId) && DistinctJobs(m.jobs) && Hashed(m.jobs, hashes)
    ensures ValidManifest(m, hashes, layout)
      <==> forall j :: 0 <= j < |m.jobs| ==> Ready(m.projectId, hashes, layout)(m.jobs[j])
  {
    assert ValidManifest(m, hashes, layout) ==>
        forall j :: 0 <= j < |m.jobs| ==> ValidJob(m.jobs[j], m.projectId, hashes, layout);
  }

  lemma {:induction false} LooseImage(raw: RawManifest, i: nat, machine: Machine, place: Place, h: Digest,
          layout: Layout)
    requires Valid(raw, machine) && TokenDigest(h) && i < |raw.jobs.jobs|
    requires forall x: Job :: PathText(layout(x))
    ensures var m := NormalizeManifest(Parse(raw), place);
      LooseJob(Normalizer(Parse(raw), place)(Parse(raw).jobs[i]), raw.projectId, BuildHashes(m, h), layout)
  {
    var p, m := Parse(raw), NormalizeManifest(Parse(raw), place);
    var x := Normalizer(p, place)(p.jobs[i]);
    NormalizedContents(p, place);
    assert Image(p.jobs, Normalizer(p, place), x);
    HashesAt(m.jobs, h);
    var j :| 0 <= j < |m.jobs| && m.jobs[j] == x;
    ReadySchedule(raw, i, machine);
    assert IsToken(HashJob(x, h)) && IsToken(HashDefinition(x, h));
  }

  lemma {:induction false} LooseReady(raw: RawManifest, machine: Machine, place: Place, h: Digest, layout: Layout)
    requires Valid(raw, machine) && TokenDigest(h)
    requires forall x: Job :: PathText(layout(x))
    ensures var m := NormalizeManifest(Parse(raw), place);
      LooseManifest(m, BuildHashes(m, h), layout)
  {
    var m := NormalizeManifest(Parse(raw), place);
    NormalizedContents(Parse(raw), place);
    HashesComplete(m, h);
    forall j | 0 <= j < |m.jobs| ensures LooseJob(m.jobs[j], m.projectId, BuildHashes(m, h), layout) {
      var i := Source(Parse(raw), place, j);
      LooseImage(raw, i, machine, place, h, layout);
    }
  }

  /** Cron can express every schedule of the validated manifest. */
  ghost predicate CronTakes(raw: RawManifest, machine: Machine, place: Place)
    requires Valid(raw, machine)
  {
    NormalizedSchedulable(raw, machine, place);
    CronExpressible(NormalizeManifest(Parse(raw), place).jobs)
  }

  /** From the stored manifest to a settled crontab: a validated manifest with jobs that cron can express, once applied
      to any crontab made of plain lines and blocks, plans as one NOOP for each of its jobs if and only if its ids and
      schedules are on single lines. */
  lemma {:induction false} ValidatedInPlaceExactly(raw: RawManifest, machine: Machine, place: Place, h: Digest,
          layout: Layout, st: HostState, doc: seq<Segment>, crontabPath: Option<string>, artifactPath: string)
    requires Valid(raw, machine) && raw.jobs.jobs != [] && CronTakes(raw, machine, place)
    requires TokenDigest(h) && forall x: Job :: PathText(layout(x))
    requires ValidDoc(doc) && SplitLines(st.crontab) == Render(doc)
    ensures var m := NormalizeManifest(Parse(raw), place);
      && Hashed(m.jobs, BuildHashes(m, h)) && Schedulable(m.jobs)
      && (InPlace(AppliedState(st, m, BuildHashes(m, h), layout, crontabPath, true).crontab, m, BuildHashes(m, h),
                  artifactPath)
          <==> OneLineManifest(Parse(raw)))
  {
    var m := NormalizeManifest(Parse(raw), place);
    NormalizedSchedulable(raw, machine, place);
    LooseReady(raw, machine, place, h, layout);
    CronReadyExactly(raw, machine, place, h, layout);
    ValidExactly(m, BuildHashes(m, h), layout);
    InPlaceExactly(st, doc, m, BuildHashes(m, h), layout, crontabPath, artifactPath);
  }

  // ---- an input that validation lets through

  /** `0 9 * * *` as YAML's literal block style gives it: with a final newline. */
  function BlockValue(): string {
    JoinBlanks(["0", "9", "*", "*", "*"]) + "\n"
  }

  lemma {:induction false} FieldsBeforeBreak(s: string)
    ensures Fields(s + "\n") == Fields(s)
    decreases |s|
  {
    var t := SkipSpaces(s);
    SkipSpacesConcat(s, "\n");
    if t == "" {
      assert SkipSpaces("\n") == "" by { assert "\n"[1..] == ""; }
    } else {
      var w := Word(t);
      var rest := t[|w|..];
      assert t == w + rest && t + "\n" == w + (rest + "\n");
      TakeWord(s, w, rest, 0);
      TakeWord(s + "\n", w, rest + "\n", 0);
      FieldsBeforeBreak(rest);
    }
  }

  lemma {:induction false} BlockValueBreaks()
    ensures CronExpression(BlockValue()) && !OneLine(BlockValue())
  {
    var s := JoinBlanks(["0", "9", "*", "*", "*"]);
    JoinedExpression(["0", "9", "*", "*", "*"]);
    FieldsBeforeBreak(s);
    assert BlockValue()[|s|] == '\n';
  }

  /** Both validations accept it. */
  lemma {:induction false} BlockValueAccepted(job: RawJob)
    requires ScheduleOf in job && job[ScheduleOf].Table? && job[ScheduleOf].items == [("cron", BlockValue())]
    ensures FieldOk(ScheduleOf, job[ScheduleOf])
    ensures JobSchemaOk(job) ==> ScheduleSound(ParseJob(job).schedule) && ParseJob(job).schedule.value == BlockValue()
  {
    BlockValueBreaks();
  }

  /** A project with one enabled job on this schedule is stuck after its first managed apply: its block cannot be read,
      and every later apply or prune is refused. */
  lemma {:induction false} BlockValueStuck(raw: RawManifest, machine: Machine, place: Place, h: Digest, layout: Layout,
          st: HostState, doc: seq<Segment>, crontabPath: Option<string>)
    requires Valid(raw, machine) && |raw.jobs.jobs| == 1 && CronTakes(raw, machine, place)
    requires !FinalNewline(raw.projectId) && !FinalNewline(Parse(raw).jobs[0].id)
    requires Parse(raw).jobs[0].enabled && Parse(raw).jobs[0].schedule.value == BlockValue()
    requires TokenDigest(h) && forall x: Job :: PathText(layout(x))
    requires ValidDoc(doc) && SplitLines(st.crontab) == Render(doc)
    ensures var m := NormalizeManifest(Parse(raw), place);
      && Hashed(m.jobs, BuildHashes(m, h)) && Schedulable(m.jobs)
      && Stuck(AppliedState(st, m, BuildHashes(m, h), layout, crontabPath, true), m.projectId, layout, crontabPath)
  {
    var p, m := Parse(raw), NormalizeManifest(Parse(raw), place);
    NormalizedSchedulable(raw, machine, place);
    LooseReady(raw, machine, place, h, layout);
    BlockValueBreaks();
    OnlyImage(p, place);
    ReadySchedule(raw, 0, machine);
    assert FieldOk(Id, raw.jobs.jobs[0][Id]);
    JoinedToken(p.projectId, p.jobs[0].id);
    BrokenScheduleStuck(st, doc, m, BuildHashes(m, h), layout, crontabPath, 0);
  }

  lemma {:induction false} OnlyImage(p: ProjectManifest, place: Place)
    requires |p.jobs| == 1
    ensures NormalizeManifest(p, place).jobs == [Normalizer(p, place)(p.jobs[0])]
  {
    assert p.jobs == [p.jobs[0]];
    assert Sort(p.jobs[1..], DefinitionLe) == [];
    assert Sort(p.jobs, DefinitionLe) == [p.jobs[0]];
  }
}
