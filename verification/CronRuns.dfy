/** Reconciliation over whole runs of the cron backend: every project's apply converges and stays converged while the
    other projects come and go, and the saved record always plans like the real crontab. */
module CronRuns {
  import opened Contracts
  import opened Order
  import opened Text
  import opened CronSchedule
  import opened CronText
  import opened CronReadBack
  import opened CronEdits
  import opened CronDocument
  import opened CronHost
  import opened Plan

  // ---- one manifest: what is printed, read back and recorded

  predicate DistinctEntries(entries: seq<Entry>) {
    forall i, j :: 0 <= i < j < |entries| ==> entries[i].meta.qualifiedId != entries[j].meta.qualifiedId
  }

  lemma {:induction false} ManifestEntries(manifest: NormalizedManifest, hashes: Hashes, layout: Layout)
    requires ValidManifest(manifest, hashes, layout) && Schedulable(manifest.jobs) && CronExpressible(manifest.jobs)
    ensures ValidEntries(Entries(manifest.jobs, hashes, layout))
    ensures DistinctEntries(Entries(manifest.jobs, hashes, layout))
  {
    var entries := Entries(manifest.jobs, hashes, layout);
    forall i | 0 <= i < |entries|
      ensures ValidEntry(entries[i]) && entries[i].meta.qualifiedId == manifest.jobs[i].qualifiedId
    {
      var job := manifest.jobs[i];
      EntriesAt(manifest.jobs, hashes, layout, i);
      assert ValidJob(job, manifest.projectId, hashes, layout);
      RenderedExpression(job.schedule);
      RenderedOneLine(job.schedule);
    }
  }

  lemma {:induction false} RenderedOneLine(schedule: Schedule)
    requires ValidSchedule(schedule) && !CronIncompatible(schedule) && OneLine(schedule.value)
    ensures RenderCronSchedule(schedule).Ok? && OneLine(RenderCronSchedule(schedule).value)
  {
    RenderFailsExactly(schedule);
    if schedule.kind == EverySchedule {
      var n := "*/" + NatText(Amount(schedule.value));
      StepField(Amount(schedule.value));
      CronFieldsOneLine([n, "*", "*", "*", "*"]);
      CronFieldsOneLine(["0", n, "*", "*", "*"]);
      CronFieldsOneLine(["0", "0", n, "*", "*"]);
      CronFieldsOneLine(["0", "0", "*", "*", "0"]);
    }
  }

  lemma {:induction false} CronFieldsOneLine(fields: seq<string>)
    requires forall i :: 0 <= i < |fields| ==> CronField(fields[i])
    ensures OneLine(JoinBlanks(fields))
  {
    if fields != [] {
      assert OneLine(fields[0]);
      if |fields| > 1 {
        CronFieldsOneLine(fields[1..]);
        JoinBlanksOneLine(" ", JoinBlanks(fields[1..]));
        JoinBlanksOneLine(fields[0], " " + JoinBlanks(fields[1..]));
        assert JoinBlanks(fields) == fields[0] + (" " + JoinBlanks(fields[1..]));
      }
    }
  }

  /** The deployed job that reading back one entry gives. */
  function ReadJob(e: Entry, artifactPath: string): DeployedJob {
    CollectedJob(ReadBack(e), artifactPath)
  }

  lemma {:induction false} ReadBackAt(entries: seq<Entry>, i: nat)
    requires i < |entries|
    ensures ReadBacks(entries)[i] == ReadBack(entries[i])
  {
    if i < |entries| - 1 {
      ReadBackAt(entries[..|entries| - 1], i);
    }
  }

  lemma {:induction false} CollectedAt(entries: seq<Entry>, artifactPath: string)
    ensures |CollectedJobs(ReadBacks(entries), artifactPath)| == |entries|
    ensures forall i :: 0 <= i < |entries| ==>
      CollectedJobs(ReadBacks(entries), artifactPath)[i] == ReadJob(entries[i], artifactPath)
  {
    forall i | 0 <= i < |entries| ensures ReadBacks(entries)[i] == ReadBack(entries[i]) {
      ReadBackAt(entries, i);
    }
  }

  /** A list of deployed jobs that the planner cannot tell from the printed entries. */
  ghost predicate Mirrors(jobs: seq<DeployedJob>, entries: seq<Entry>) {
    && DistinctDeployed(jobs)
    && (forall id :: id in DeployedIndex(jobs) <==> exists i :: 0 <= i < |entries| && entries[i].meta.qualifiedId == id)
    && forall i :: 0 <= i < |entries| ==>
         && entries[i].meta.qualifiedId in DeployedIndex(jobs)
         && FootprintOf(DeployedIndex(jobs)[entries[i].meta.qualifiedId]) == EntryFootprint(entries[i])
  }

  function EntryFootprint(e: Entry): Footprint {
    Footprint(BACKEND, e.enabled, e.meta.desiredHash, e.meta.definitionHash, Some(e.meta.desiredHash))
  }

  lemma {:induction false} MirrorsBySame(jobs: seq<DeployedJob>, entries: seq<Entry>)
    requires DistinctEntries(entries) && |jobs| == |entries|
    requires forall i :: 0 <= i < |entries| ==>
      jobs[i].qualifiedId == entries[i].meta.qualifiedId && FootprintOf(jobs[i]) == EntryFootprint(entries[i])
    ensures Mirrors(jobs, entries)
  {
    DeployedIndexContents(jobs);
  }

  /** Reading the block back mirrors what was printed. */
  lemma {:induction false} CollectedMirrors(entries: seq<Entry>, artifactPath: string)
    requires ValidEntries(entries) && DistinctEntries(entries)
    ensures Mirrors(CollectedJobs(ReadBacks(entries), artifactPath), entries)
  {
    var jobs := CollectedJobs(ReadBacks(entries), artifactPath);
    CollectedAt(entries, artifactPath);
    forall i | 0 <= i < |entries|
      ensures jobs[i].qualifiedId == entries[i].meta.qualifiedId && FootprintOf(jobs[i]) == EntryFootprint(entries[i])
    {
      assert ValidEntry(entries[i]);
      assert jobs[i] == ReadJob(entries[i], artifactPath);
    }
    MirrorsBySame(jobs, entries);
  }

  lemma {:induction false} IndexOfPermutation(a: seq<DeployedJob>, b: seq<DeployedJob>)
    requires DistinctDeployed(a) && multiset(a) == multiset(b)
    ensures DistinctDeployed(b) && DeployedIndex(a) == DeployedIndex(b)
  {
    DistinctPermutation(a, b, (d: DeployedJob) => d.qualifiedId);
    MultisetMembers(a, b);
    DeployedIndexContents(a);
    DeployedIndexContents(b);
    forall id ensures id in DeployedIndex(a) <==> id in DeployedIndex(b) {
      if id in DeployedIndex(a) {
        assert DeployedIndex(a)[id] in b;
      }
      if id in DeployedIndex(b) {
        assert DeployedIndex(b)[id] in a;
      }
    }
  }

  lemma {:induction false} RecordedSame(manifest: NormalizedManifest, hashes: Hashes, layout: Layout,
          crontabPath: Option<string>)
    requires ValidManifest(manifest, hashes, layout) && Schedulable(manifest.jobs) && CronExpressible(manifest.jobs)
    ensures DistinctEntries(Entries(manifest.jobs, hashes, layout))
    ensures forall i :: 0 <= i < |manifest.jobs| ==>
      var d := RecordedJobs(manifest.jobs, hashes, layout, crontabPath)[i];
      var e := Entries(manifest.jobs, hashes, layout)[i];
      d.qualifiedId == e.meta.qualifiedId && FootprintOf(d) == EntryFootprint(e)
  {
    var entries := Entries(manifest.jobs, hashes, layout);
    var jobs := RecordedJobs(manifest.jobs, hashes, layout, crontabPath);
    ManifestEntries(manifest, hashes, layout);
    forall i | 0 <= i < |entries|
      ensures jobs[i].qualifiedId == entries[i].meta.qualifiedId && FootprintOf(jobs[i]) == EntryFootprint(entries[i])
    {
      EntriesAt(manifest.jobs, hashes, layout, i);
      assert ValidEntry(entries[i]);
    }
  }

  /** Saving and loading the record mirrors it too. */
  lemma {:induction false} RecordMirrors(manifest: NormalizedManifest, hashes: Hashes, layout: Layout,
          crontabPath: Option<string>, records: map<string, ProjectState>)
    requires ValidManifest(manifest, hashes, layout) && Schedulable(manifest.jobs) && CronExpressible(manifest.jobs)
    requires manifest.projectId in records
    requires records[manifest.projectId] == AppliedRecord(manifest, hashes, layout, crontabPath)
    ensures Mirrors(LoadProjectState(records, manifest.projectId, BACKEND).jobs, Entries(manifest.jobs, hashes, layout))
  {
    var jobs := RecordedJobs(manifest.jobs, hashes, layout, crontabPath);
    RecordedSame(manifest, hashes, layout, crontabPath);
    MirrorsBySame(jobs, Entries(manifest.jobs, hashes, layout));
    SortedTwice(jobs);
    var loaded := LoadProjectState(records, manifest.projectId, BACKEND).jobs;
    assert loaded == Sort(Sort(jobs, DeployedLe), DeployedLe);
    MirrorsByIndex(jobs, loaded, Entries(manifest.jobs, hashes, layout));
  }

  lemma {:induction false} MirrorsByIndex(a: seq<DeployedJob>, b: seq<DeployedJob>, entries: seq<Entry>)
    requires Mirrors(a, entries) && DistinctDeployed(b) && DeployedIndex(b) == DeployedIndex(a)
    ensures Mirrors(b, entries)
  {
  }

  lemma {:induction false} SortedTwice(jobs: seq<DeployedJob>)
    requires DistinctDeployed(jobs)
    ensures DistinctDeployed(Sort(Sort(jobs, DeployedLe), DeployedLe))
    ensures DeployedIndex(Sort(Sort(jobs, DeployedLe), DeployedLe)) == DeployedIndex(jobs)
  {
    IndexOfPermutation(jobs, Sort(jobs, DeployedLe));
    IndexOfPermutation(Sort(jobs, DeployedLe), Sort(Sort(jobs, DeployedLe), DeployedLe));
  }

  /** For every later manifest, the two states get the same ids, kinds and reasons. */
  ghost predicate PlanAlike(a: ProjectState, b: ProjectState) {
    forall manifest: NormalizedManifest, backend, hashes ::
      Hashed(manifest.jobs, hashes) && DistinctJobs(manifest.jobs) ==>
      Outcomes(Changes(manifest, backend, hashes, a)) == Outcomes(Changes(manifest, backend, hashes, b))
  }

  /** Two mirrors of the same entries plan alike. */
  lemma {:induction false} MirrorsPlanAlike(a: ProjectState, b: ProjectState, entries: seq<Entry>)
    requires Mirrors(a.jobs, entries) && Mirrors(b.jobs, entries)
    ensures PlanAlike(a, b)
  {
    var da, db := DeployedIndex(a.jobs), DeployedIndex(b.jobs);
    assert forall id :: id in da <==> id in db;
    forall id | id in da ensures FootprintOf(da[id]) == FootprintOf(db[id]) {
      var i :| 0 <= i < |entries| && entries[i].meta.qualifiedId == id;
    }
    forall manifest: NormalizedManifest, backend, hashes | Hashed(manifest.jobs, hashes) && DistinctJobs(manifest.jobs)
      ensures Outcomes(Changes(manifest, backend, hashes, a)) == Outcomes(Changes(manifest, backend, hashes, b))
    {
      PlanByFootprint(manifest, backend, hashes, a, b);
    }
  }

  lemma {:induction false} MirrorSettled(manifest: NormalizedManifest, hashes: Hashes, layout: Layout,
          deployed: map<string, DeployedJob>, jobs: seq<DeployedJob>, i: nat)
    requires Hashed(manifest.jobs, hashes) && Schedulable(manifest.jobs) && CronExpressible(manifest.jobs)
    requires deployed == DeployedIndex(jobs) && Mirrors(jobs, Entries(manifest.jobs, hashes, layout))
    requires i < |manifest.jobs|
    ensures var id := manifest.jobs[i].qualifiedId;
      id == Entries(manifest.jobs, hashes, layout)[i].meta.qualifiedId && id in deployed
      && Settled(manifest.jobs[i], BACKEND, hashes.definitions[id], deployed[id])
  {
    var e := Entries(manifest.jobs, hashes, layout)[i];
    EntriesAt(manifest.jobs, hashes, layout, i);
    var d := deployed[e.meta.qualifiedId];
    assert FootprintOf(d) == EntryFootprint(e);
    assert d.backend == FootprintOf(d).backend && d.enabled == FootprintOf(d).enabled;
    assert d.desiredHash == FootprintOf(d).desiredHash;
    assert d.observedHash == FootprintOf(d).observedHash && EffectiveDefinitionHash(d) == FootprintOf(d).definitionHash;
  }

  /** A mirror of a manifest's own entries has nothing to change: one NOOP for each job and no other change. */
  lemma {:induction false} MirrorConverged(manifest: NormalizedManifest, hashes: Hashes, layout: Layout,
          state: ProjectState)
    requires ValidManifest(manifest, hashes, layout) && Schedulable(manifest.jobs) && CronExpressible(manifest.jobs)
    requires Mirrors(state.jobs, Entries(manifest.jobs, hashes, layout))
    ensures AllNoop(Changes(manifest, BACKEND, hashes, state))
    ensures |Changes(manifest, BACKEND, hashes, state)| == |manifest.jobs|
  {
    var entries := Entries(manifest.jobs, hashes, layout);
    var desired, deployed := DesiredIndex(manifest.jobs), DeployedIndex(state.jobs);
    DesiredIndexContents(manifest.jobs);
    forall i | 0 <= i < |entries|
      ensures entries[i].meta.qualifiedId == manifest.jobs[i].qualifiedId && manifest.jobs[i].qualifiedId in deployed
      ensures Settled(manifest.jobs[i], BACKEND, hashes.definitions[manifest.jobs[i].qualifiedId],
                      deployed[manifest.jobs[i].qualifiedId])
    {
      MirrorSettled(manifest, hashes, layout, deployed, state.jobs, i);
    }
    forall id | id in desired
      ensures id in deployed && Settled(desired[id], BACKEND, hashes.definitions[id], deployed[id])
    {
      var i :| 0 <= i < |manifest.jobs| && manifest.jobs[i] == desired[id];
    }
    forall id | id in deployed ensures id in desired {
      var i :| 0 <= i < |entries| && entries[i].meta.qualifiedId == id;
      assert manifest.jobs[i].qualifiedId == id;
    }
    ConvergedPlan(manifest, hashes, state);
  }

  lemma {:induction false} ConvergedPlan(manifest: NormalizedManifest, hashes: Hashes, state: ProjectState)
    requires Hashed(manifest.jobs, hashes) && DistinctJobs(manifest.jobs) && DistinctDeployed(state.jobs)
    requires forall id :: id in DesiredIndex(manifest.jobs) <==> id in DeployedIndex(state.jobs)
    requires forall id ::
      id in DesiredIndex(manifest.jobs) && id in DeployedIndex(state.jobs) && id in hashes.definitions ==>
      Settled(DesiredIndex(manifest.jobs)[id], BACKEND, hashes.definitions[id], DeployedIndex(state.jobs)[id])
    ensures AllNoop(Changes(manifest, BACKEND, hashes, state))
    ensures |Changes(manifest, BACKEND, hashes, state)| == |manifest.jobs|
  {
    PlanPartition(manifest, BACKEND, hashes, state);
    ConvergedNoop(Changes(manifest, BACKEND, hashes, state), DesiredIndex(manifest.jobs), DeployedIndex(state.jobs),
                  BACKEND, hashes);
    PlanSize(manifest, hashes, state, Removals(Sort(state.jobs, DeployedLe), DesiredIndex(manifest.jobs)));
  }

  lemma {:induction false} PlanSize(manifest: NormalizedManifest, hashes: Hashes, state: ProjectState,
          removals: seq<Change>)
    requires Hashed(manifest.jobs, hashes) && DistinctJobs(manifest.jobs) && DistinctDeployed(state.jobs)
    requires forall id :: id in DeployedIndex(state.jobs) ==> id in DesiredIndex(manifest.jobs)
    requires removals == Removals(Sort(state.jobs, DeployedLe), DesiredIndex(manifest.jobs))
    ensures |Changes(manifest, BACKEND, hashes, state)| == |manifest.jobs|
  {
    assert removals != [] ==> removals[0] in removals;
    RemovedContents(state.jobs, DesiredIndex(manifest.jobs), removals);
  }

  // ---- many projects, many steps

  /** One operation of the service; `manage` is false when the crontab is to be left alone. */
  datatype Step =
    | ApplyStep(manifest: NormalizedManifest, hashes: Hashes, manage: bool)
    | PruneStep(project: string, manage: bool)

  function Actor(s: Step): string {
    match s
    case ApplyStep(manifest, _, _) => manifest.projectId
    case PruneStep(project, _) => project
  }

  /** What the step needs to know about its manifest. */
  ghost predicate Printable(s: Step) {
    s.ApplyStep? ==> Hashed(s.manifest.jobs, s.hashes) && Schedulable(s.manifest.jobs)
  }

  ghost predicate ValidStep(s: Step, projects: set<string>, layout: Layout) {
    && Actor(s) in projects && Printable(s)
    && (s.ApplyStep? ==> ValidManifest(s.manifest, s.hashes, layout))
  }

  /** One operation, including the ones that refuse and change nothing. */
  ghost function StepHost(st: HostState, s: Step, layout: Layout, crontabPath: Option<string>): HostState
    requires Printable(s)
  {
    match s
    case ApplyStep(manifest, hashes, manage) => AfterApply(st, manifest, hashes, layout, crontabPath, manage)
    case PruneStep(project, manage) => AfterPrune(st, project, manage)
  }

  /** The step is not refused: the project's block can be read, and cron can express the schedules. */
  ghost predicate TakesEffect(st: HostState, s: Step)
    requires Printable(s)
  {
    && InspectLines(SplitLines(st.crontab), Actor(s), START).Ok?
    && (s.ApplyStep? ==> CronExpressible(s.manifest.jobs))
  }

  /** The entries that a step writes. */
  function StepEntries(s: Step, layout: Layout): seq<Entry>
    requires Printable(s) && (s.ApplyStep? ==> CronExpressible(s.manifest.jobs))
  {
    match s
    case ApplyStep(manifest, hashes, _) => Entries(manifest.jobs, hashes, layout)
    case PruneStep(_, _) => []
  }

  /** The projects whose record and block agree after a step, each with its entries: a managed step brings its project
      in, whatever was recorded before, and a step that changes the record alone takes it out. */
  ghost function StepBlocks(st: HostState, blocks: map<string, seq<Entry>>, s: Step, layout: Layout)
    : map<string, seq<Entry>>
    requires Printable(s)
  {
    if !TakesEffect(st, s) then blocks
    else if s.manage then blocks[Actor(s) := StepEntries(s, layout)]
    else blocks - {Actor(s)}
  }

  /** One project's share of the invariant: its block holds these entries and its record mirrors them. */
  ghost predicate ProjectInv(doc: seq<Segment>, records: map<string, ProjectState>, p: string, entries: seq<Entry>) {
    && ValidEntries(entries) && DistinctEntries(entries)
    && Bodies(doc, p) == AsBodies(EntriesBody(entries))
    && Mirrors(LoadProjectState(records, p, BACKEND).jobs, entries)
  }

  /** The share of every project in agreement. */
  ghost predicate Shares(doc: seq<Segment>, records: map<string, ProjectState>, blocks: map<string, seq<Entry>>) {
    forall p :: p in blocks ==> ProjectInv(doc, records, p, blocks[p])
  }

  /** The crontab is a list of plain lines and separate blocks of these projects. Only the projects of `blocks` need to
      agree with their records: with an empty map the invariant says nothing at all about records. */
  ghost predicate HostInv(st: HostState, doc: seq<Segment>, blocks: map<string, seq<Entry>>, projects: set<string>) {
    && ValidDoc(doc) && SplitLines(st.crontab) == Render(doc)
    && OwnedBy(doc, projects) && OneBlockEach(doc)
    && blocks.Keys <= projects && Shares(doc, st.records, blocks)
  }

  lemma {:induction false} OwnBlock(doc: seq<Segment>, projects: set<string>, p: string, k: nat)
    requires Incomparable(projects) && OwnedBy(doc, projects) && OneBlockEach(doc) && p in projects
    requires k == FirstMatch(doc, p)
    ensures Bodies(doc, p) == if k < |doc| then [doc[k].body] else []
  {
    if k < |doc| {
      assert doc[k].owner == p;
      BodiesAround(doc, k, p);
      BodiesOne(doc[k], p);
      assert |Bodies(doc, p)| <= 1;
    } else {
      NoOwnerNoBodies(doc, p);
    }
  }

  /** Reading the crontab for a project in agreement gives back exactly its own entries. */
  lemma {:induction false} InspectOwn(st: HostState, doc: seq<Segment>, blocks: map<string, seq<Entry>>,
          projects: set<string>, p: string)
    requires Incomparable(projects) && HostInv(st, doc, blocks, projects) && p in blocks
    ensures InspectLines(SplitLines(st.crontab), p, START) == Ok(ReadBacks(blocks[p]))
  {
    var k := FirstMatch(doc, p);
    assert ProjectInv(doc, st.records, p, blocks[p]);
    OwnBlock(doc, projects, p, k);
    if k < |doc| {
      InspectDocument(doc, p, k, blocks[p]);
    } else {
      InspectNothing(doc, p);
    }
  }

  /** So a project in agreement is refused nothing but schedules that cron cannot express. */
  lemma {:induction false} AgreedTakesEffect(st: HostState, doc: seq<Segment>, blocks: map<string, seq<Entry>>,
          projects: set<string>, s: Step)
    requires Incomparable(projects) && HostInv(st, doc, blocks, projects) && Actor(s) in blocks && Printable(s)
    ensures TakesEffect(st, s) <==> s.ApplyStep? ==> CronExpressible(s.manifest.jobs)
  {
    InspectOwn(st, doc, blocks, projects, Actor(s));
  }

  lemma {:induction false} EmptyMirrors(records: map<string, ProjectState>, p: string)
    requires p !in records
    ensures Mirrors(LoadProjectState(records, p, BACKEND).jobs, [])
  {
  }

  /** Writing entries into one project's block, and its record with them, keeps the invariant for everybody. */
  lemma {:induction false} WriteKeeps(st: HostState, doc: seq<Segment>, blocks: map<string, seq<Entry>>,
          projects: set<string>, p: string, entries: seq<Entry>, records: map<string, ProjectState>)
    requires Incomparable(projects) && HostInv(st, doc, blocks, projects) && p in projects
    requires ValidEntries(entries) && DistinctEntries(entries)
    requires Mirrors(LoadProjectState(records, p, BACKEND).jobs, entries)
    requires forall q :: q != p ==> LoadProjectState(records, q, BACKEND) == LoadProjectState(st.records, q, BACKEND)
    ensures HostInv(HostState(EditedText(st.crontab, p, BodyText(p, EntriesBody(entries))), records),
                    EditDoc(doc, p, EntriesBody(entries)), blocks[p := entries], projects)
    ensures Unmanaged(EditDoc(doc, p, EntriesBody(entries))) == Unmanaged(doc)
  {
    var edited := EditDoc(doc, p, EntriesBody(entries));
    WriteDocument(st.crontab, doc, projects, p, entries, edited);
    Assembled(st, doc, blocks, projects, p, entries,
              HostState(EditedText(st.crontab, p, BodyText(p, EntriesBody(entries))), records), edited);
  }

  lemma {:induction false} Assembled(st: HostState, doc: seq<Segment>, blocks: map<string, seq<Entry>>,
          projects: set<string>, p: string, entries: seq<Entry>, after: HostState, edited: seq<Segment>)
    requires HostInv(st, doc, blocks, projects) && p in projects
    requires ValidDoc(edited) && SplitLines(after.crontab) == Render(edited) && OwnedBy(edited, projects)
    requires OneBlockEach(edited)
    requires ProjectInv(edited, after.records, p, entries)
    requires forall q :: q != p ==>
      LoadProjectState(after.records, q, BACKEND) == LoadProjectState(st.records, q, BACKEND)
    requires forall q :: q != p ==> Bodies(edited, q) == Bodies(doc, q)
    ensures HostInv(after, edited, blocks[p := entries], projects)
  {
    SharesKept(doc, st.records, edited, after.records, blocks, p, entries);
  }

  lemma {:induction false} WriteDocument(content: string, doc: seq<Segment>, projects: set<string>, p: string,
          entries: seq<Entry>, edited: seq<Segment>)
    requires ValidDoc(doc) && SplitLines(content) == Render(doc)
    requires Incomparable(projects) && OwnedBy(doc, projects) && OneBlockEach(doc) && p in projects
    requires ValidEntries(entries)
    requires edited == EditDoc(doc, p, EntriesBody(entries))
    ensures ValidDoc(edited) && SplitLines(EditedText(content, p, BodyText(p, EntriesBody(entries)))) == Render(edited)
    ensures OwnedBy(edited, projects) && OneBlockEach(edited)
    ensures Bodies(edited, p) == AsBodies(EntriesBody(entries))
    ensures forall q :: q != p ==> Bodies(edited, q) == Bodies(doc, q)
    ensures Unmanaged(edited) == Unmanaged(doc)
  {
    var body := EntriesBody(entries);
    BodyPlain(entries);
    EditRefines(content, doc, p, body);
    EditKeepsOwnership(doc, projects, Edit(p, body));
    EditKeepsUnmanaged(doc, p, body);
  }

  lemma {:induction false} SharesKept(doc: seq<Segment>, records: map<string, ProjectState>, edited: seq<Segment>,
          after: map<string, ProjectState>, blocks: map<string, seq<Entry>>, p: string, entries: seq<Entry>)
    requires Shares(doc, records, blocks)
    requires ProjectInv(edited, after, p, entries)
    requires forall q :: q != p ==> LoadProjectState(after, q, BACKEND) == LoadProjectState(records, q, BACKEND)
    requires forall q :: q != p ==> Bodies(edited, q) == Bodies(doc, q)
    ensures Shares(edited, after, blocks[p := entries])
  {
    var now := blocks[p := entries];
    forall q | q in now ensures ProjectInv(edited, after, q, now[q]) {
      if q != p {
        ShareKept(doc, records, edited, after, q, blocks[q]);
      }
    }
  }

  lemma {:induction false} ShareKept(doc: seq<Segment>, records: map<string, ProjectState>, edited: seq<Segment>,
          after: map<string, ProjectState>, q: string, entries: seq<Entry>)
    requires ProjectInv(doc, records, q, entries)
    requires LoadProjectState(after, q, BACKEND) == LoadProjectState(records, q, BACKEND)
    requires Bodies(edited, q) == Bodies(doc, q)
    ensures ProjectInv(edited, after, q, entries)
  {
  }

  /** A step that leaves the crontab alone keeps every project but its own in agreement. */
  lemma {:induction false} RecordOnlyKeeps(st: HostState, doc: seq<Segment>, blocks: map<string, seq<Entry>>,
          projects: set<string>, p: string, records: map<string, ProjectState>)
    requires HostInv(st, doc, blocks, projects)
    requires forall q :: q != p ==> LoadProjectState(records, q, BACKEND) == LoadProjectState(st.records, q, BACKEND)
    ensures HostInv(HostState(st.crontab, records), doc, blocks - {p}, projects)
  {
    forall q | q in blocks - {p} ensures ProjectInv(doc, records, q, (blocks - {p})[q]) {
      ShareKept(doc, st.records, doc, records, q, blocks[q]);
    }
  }

  lemma {:induction false} ManagedKeeps(st: HostState, doc: seq<Segment>, blocks: map<string, seq<Entry>>,
          projects: set<string>, s: Step, layout: Layout, crontabPath: Option<string>)
    returns (after: seq<Segment>)
    requires Incomparable(projects) && HostInv(st, doc, blocks, projects)
    requires ValidStep(s, projects, layout) && TakesEffect(st, s) && s.manage
    ensures HostInv(StepHost(st, s, layout, crontabPath), after, StepBlocks(st, blocks, s, layout), projects)
    ensures Unmanaged(after) == Unmanaged(doc)
  {
    after := EditDoc(doc, Actor(s), EntriesBody(StepEntries(s, layout)));
    match s {
      case ApplyStep(manifest, hashes, _) =>
        ApplyKeeps(st, doc, blocks, projects, manifest, hashes, layout, crontabPath);
      case PruneStep(project, _) =>
        PruneKeeps(st, doc, blocks, projects, project);
    }
  }

  lemma {:induction false} UnmanagedKeeps(st: HostState, doc: seq<Segment>, blocks: map<string, seq<Entry>>,
          projects: set<string>, s: Step, layout: Layout, crontabPath: Option<string>)
    requires HostInv(st, doc, blocks, projects)
    requires ValidStep(s, projects, layout) && TakesEffect(st, s) && !s.manage
    ensures HostInv(StepHost(st, s, layout, crontabPath), doc, StepBlocks(st, blocks, s, layout), projects)
  {
    var now := StepHost(st, s, layout, crontabPath);
    assert now == HostState(st.crontab, now.records);
    RecordOnlyKeeps(st, doc, blocks, projects, Actor(s), now.records);
  }

  /** Every operation of every project keeps the invariant, and the unmanaged lines. */
  lemma {:induction false} StepKeeps(st: HostState, doc: seq<Segment>, blocks: map<string, seq<Entry>>,
          projects: set<string>, s: Step, layout: Layout, crontabPath: Option<string>)
    returns (after: seq<Segment>)
    requires Incomparable(projects) && HostInv(st, doc, blocks, projects)
    requires ValidStep(s, projects, layout)
    ensures HostInv(StepHost(st, s, layout, crontabPath), after, StepBlocks(st, blocks, s, layout), projects)
    ensures Unmanaged(after) == Unmanaged(doc)
  {
    if !TakesEffect(st, s) {
      after := doc;
      assert StepHost(st, s, layout, crontabPath) == st;
    } else if s.manage {
      after := ManagedKeeps(st, doc, blocks, projects, s, layout, crontabPath);
    } else {
      after := doc;
      UnmanagedKeeps(st, doc, blocks, projects, s, layout, crontabPath);
    }
  }

  lemma {:induction false} PruneKeeps(st: HostState, doc: seq<Segment>, blocks: map<string, seq<Entry>>,
          projects: set<string>, p: string)
    requires Incomparable(projects) && HostInv(st, doc, blocks, projects) && p in projects
    ensures HostInv(PrunedState(st, p, true), EditDoc(doc, p, EntriesBody([])), blocks[p := []], projects)
    ensures Unmanaged(EditDoc(doc, p, EntriesBody([]))) == Unmanaged(doc)
  {
    PrunedStateWrites(st, p);
    EmptyMirrors(st.records - {p}, p);
    WriteKeeps(st, doc, blocks, projects, p, [], (st.records - {p}));
  }

  /** A prune is the writing of no entries. */
  lemma {:induction false} PrunedStateWrites(st: HostState, p: string)
    ensures PrunedState(st, p, true)
      == HostState(EditedText(st.crontab, p, BodyText(p, EntriesBody([]))), st.records - {p})
  {
  }

  lemma {:induction false} ApplyKeeps(st: HostState, doc: seq<Segment>, blocks: map<string, seq<Entry>>,
          projects: set<string>, manifest: NormalizedManifest, hashes: Hashes, layout: Layout,
          crontabPath: Option<string>)
    requires Incomparable(projects) && HostInv(st, doc, blocks, projects) && manifest.projectId in projects
    requires ValidManifest(manifest, hashes, layout) && Schedulable(manifest.jobs) && CronExpressible(manifest.jobs)
    ensures var entries := Entries(manifest.jobs, hashes, layout);
      var edited := EditDoc(doc, manifest.projectId, EntriesBody(entries));
      && HostInv(AppliedState(st, manifest, hashes, layout, crontabPath, true), edited,
                 blocks[manifest.projectId := entries], projects)
      && Unmanaged(edited) == Unmanaged(doc)
  {
    var p := manifest.projectId;
    var records := st.records[p := AppliedRecord(manifest, hashes, layout, crontabPath)];
    ManifestEntries(manifest, hashes, layout);
    RecordMirrors(manifest, hashes, layout, crontabPath, records);
    WriteKeeps(st, doc, blocks, projects, p, Entries(manifest.jobs, hashes, layout), records);
  }

  ghost predicate ValidSteps(steps: seq<Step>, projects: set<string>, layout: Layout) {
    forall i :: 0 <= i < |steps| ==> ValidStep(steps[i], projects, layout)
  }

  ghost function RunHost(st: HostState, steps: seq<Step>, projects: set<string>, layout: Layout,
          crontabPath: Option<string>): HostState
    requires ValidSteps(steps, projects, layout)
  {
    if steps == [] then st
    else
      assert ValidStep(steps[|steps| - 1], projects, layout);
      StepHost(RunHost(st, steps[..|steps| - 1], projects, layout, crontabPath), steps[|steps| - 1], layout,
               crontabPath)
  }

  ghost function RunBlocks(st: HostState, blocks: map<string, seq<Entry>>, steps: seq<Step>, projects: set<string>,
          layout: Layout, crontabPath: Option<string>): map<string, seq<Entry>>
    requires ValidSteps(steps, projects, layout)
  {
    if steps == [] then blocks
    else
      assert ValidStep(steps[|steps| - 1], projects, layout);
      StepBlocks(RunHost(st, steps[..|steps| - 1], projects, layout, crontabPath),
                 RunBlocks(st, blocks, steps[..|steps| - 1], projects, layout, crontabPath), steps[|steps| - 1], layout)
  }

  lemma {:induction false} RunKeeps(st: HostState, doc: seq<Segment>, blocks: map<string, seq<Entry>>,
          projects: set<string>, steps: seq<Step>, layout: Layout, crontabPath: Option<string>)
    returns (after: seq<Segment>)
    requires Incomparable(projects) && HostInv(st, doc, blocks, projects)
    requires ValidSteps(steps, projects, layout)
    ensures HostInv(RunHost(st, steps, projects, layout, crontabPath), after,
                    RunBlocks(st, blocks, steps, projects, layout, crontabPath), projects)
    ensures Unmanaged(after) == Unmanaged(doc)
  {
    if steps == [] {
      after := doc;
    } else {
      var init, last := steps[..|steps| - 1], steps[|steps| - 1];
      assert ValidStep(last, projects, layout);
      var before := RunKeeps(st, doc, blocks, projects, init, layout, crontabPath);
      after := StepKeeps(RunHost(st, init, projects, layout, crontabPath), before,
                         RunBlocks(st, blocks, init, projects, layout, crontabPath),
                         projects, last, layout, crontabPath);
    }
  }

  /** Planning any later manifest from the saved record and planning it from the crontab come out alike. */
  ghost predicate Agrees(st: HostState, projectId: string, artifactPath: string) {
    var collected := CollectCronProjectState(st.crontab, projectId, artifactPath);
    collected.Ok? && PlanAlike(LoadProjectState(st.records, projectId, BACKEND), collected.value)
  }

  /** The saved record agrees with the real crontab: after any run, for every project whose last effective step managed
      the crontab, or that agreed before and did not act, planning any later manifest from the record and planning it
      from the crontab give the same ids, kinds and reasons. What was recorded before the run is arbitrary. */
  lemma {:induction false} RecordAgreesWithCrontab(st: HostState, doc: seq<Segment>, blocks: map<string, seq<Entry>>,
          projects: set<string>, steps: seq<Step>, layout: Layout, crontabPath: Option<string>, artifactPath: string,
          p: string)
    requires Incomparable(projects) && HostInv(st, doc, blocks, projects)
    requires ValidSteps(steps, projects, layout)
    requires p in RunBlocks(st, blocks, steps, projects, layout, crontabPath)
    ensures Agrees(RunHost(st, steps, projects, layout, crontabPath), p, artifactPath)
  {
    var final := RunHost(st, steps, projects, layout, crontabPath);
    EndState(st, doc, blocks, projects, steps, layout, crontabPath, artifactPath, p);
    MirrorsPlanAlike(LoadProjectState(final.records, p, BACKEND),
                     CollectCronProjectState(final.crontab, p, artifactPath).value,
                     RunBlocks(st, blocks, steps, projects, layout, crontabPath)[p]);
  }

  /** At the end of a run both views of a project in agreement mirror the same entries. */
  lemma {:induction false} EndState(st: HostState, doc: seq<Segment>, blocks: map<string, seq<Entry>>,
          projects: set<string>, steps: seq<Step>, layout: Layout, crontabPath: Option<string>, artifactPath: string,
          p: string)
    requires Incomparable(projects) && HostInv(st, doc, blocks, projects)
    requires ValidSteps(steps, projects, layout)
    requires p in RunBlocks(st, blocks, steps, projects, layout, crontabPath)
    ensures var final := RunHost(st, steps, projects, layout, crontabPath);
      var collected := CollectCronProjectState(final.crontab, p, artifactPath);
      var entries := RunBlocks(st, blocks, steps, projects, layout, crontabPath)[p];
      && collected.Ok? && Mirrors(collected.value.jobs, entries)
      && Mirrors(LoadProjectState(final.records, p, BACKEND).jobs, entries)
  {
    var after := RunKeeps(st, doc, blocks, projects, steps, layout, crontabPath);
    var final := RunHost(st, steps, projects, layout, crontabPath);
    var ends := RunBlocks(st, blocks, steps, projects, layout, crontabPath);
    InspectOwn(final, after, ends, projects, p);
    assert ProjectInv(after, final.records, p, ends[p]);
    CollectedMirrors(ends[p], artifactPath);
  }

  lemma {:induction false} RunSnoc(st: HostState, blocks: map<string, seq<Entry>>, steps: seq<Step>, s: Step,
          projects: set<string>, layout: Layout, crontabPath: Option<string>)
    requires ValidSteps(steps, projects, layout) && ValidSteps(steps + [s], projects, layout)
    requires ValidStep(s, projects, layout)
    ensures RunBlocks(st, blocks, steps + [s], projects, layout, crontabPath)
      == StepBlocks(RunHost(st, steps, projects, layout, crontabPath),
                    RunBlocks(st, blocks, steps, projects, layout, crontabPath), s, layout)
  {
    assert (steps + [s])[..|steps|] == steps;
  }

  /** What a project agrees on, if it does. */
  function Agreed(blocks: map<string, seq<Entry>>, p: string): Option<seq<Entry>> {
    if p in blocks then Some(blocks[p]) else None
  }

  lemma {:induction false} OtherLeavesBlock(st: HostState, blocks: map<string, seq<Entry>>, s: Step, layout: Layout,
          p: string)
    requires Printable(s) && Actor(s) != p
    ensures Agreed(StepBlocks(st, blocks, s, layout), p) == Agreed(blocks, p)
  {
  }

  lemma {:induction false} OthersLeaveBlock(st: HostState, blocks: map<string, seq<Entry>>, first: seq<Step>,
          last: seq<Step>, projects: set<string>, layout: Layout, crontabPath: Option<string>, p: string)
    requires ValidSteps(first, projects, layout) && ValidSteps(first + last, projects, layout)
    requires forall i :: 0 <= i < |last| ==> Actor(last[i]) != p
    ensures Agreed(RunBlocks(st, blocks, first + last, projects, layout, crontabPath), p)
      == Agreed(RunBlocks(st, blocks, first, projects, layout, crontabPath), p)
    decreases |last|
  {
    if last == [] {
      assert first + last == first;
    } else {
      var init, s, steps := last[..|last| - 1], last[|last| - 1], first + last;
      assert steps == first + init + [s] && steps[|steps| - 1] == s;
      assert ValidStep(steps[|steps| - 1], projects, layout);
      assert ValidSteps(first + init, projects, layout) by {
        assert forall i :: 0 <= i < |first + init| ==> steps[i] == (first + init)[i];
      }
      OthersLeaveBlock(st, blocks, first, init, projects, layout, crontabPath, p);
      RunSnoc(st, blocks, first + init, s, projects, layout, crontabPath);
      OtherLeavesBlock(RunHost(st, first + init, projects, layout, crontabPath),
                       RunBlocks(st, blocks, first + init, projects, layout, crontabPath), s, layout, p);
    }
  }

  /** Convergence over whole runs: once a project's manifest has been applied to a managed crontab and was not refused,
      whatever the other projects do afterwards, both the crontab and the saved record plan exactly one NOOP for each of
      its jobs. Nothing is asked of the records that the run starts from. */
  lemma {:induction false} StaysConverged(st: HostState, doc: seq<Segment>, projects: set<string>, before: seq<Step>,
          manifest: NormalizedManifest, hashes: Hashes, after: seq<Step>, layout: Layout, crontabPath: Option<string>,
          artifactPath: string)
    requires Incomparable(projects) && HostInv(st, doc, map[], projects)
    requires ValidSteps(before, projects, layout) && ValidStep(ApplyStep(manifest, hashes, true), projects, layout)
    requires ValidSteps(before + [ApplyStep(manifest, hashes, true)] + after, projects, layout)
    requires TakesEffect(RunHost(st, before, projects, layout, crontabPath), ApplyStep(manifest, hashes, true))
    requires forall i :: 0 <= i < |after| ==> Actor(after[i]) != manifest.projectId
    ensures var final := RunHost(st, before + [ApplyStep(manifest, hashes, true)] + after, projects, layout,
                                 crontabPath);
      var collected := CollectCronProjectState(final.crontab, manifest.projectId, artifactPath);
      var recorded := LoadProjectState(final.records, manifest.projectId, BACKEND);
      && collected.Ok?
      && AllNoop(Changes(manifest, BACKEND, hashes, collected.value))
      && |Changes(manifest, BACKEND, hashes, collected.value)| == |manifest.jobs|
      && AllNoop(Changes(manifest, BACKEND, hashes, recorded))
      && |Changes(manifest, BACKEND, hashes, recorded)| == |manifest.jobs|
  {
    var p := manifest.projectId;
    var apply := ApplyStep(manifest, hashes, true);
    var steps := before + [apply] + after;
    RunSnoc(st, map[], before, apply, projects, layout, crontabPath);
    OthersLeaveBlock(st, map[], before + [apply], after, projects, layout, crontabPath, p);
    EndState(st, doc, map[], projects, steps, layout, crontabPath, artifactPath, p);
    var final := RunHost(st, steps, projects, layout, crontabPath);
    MirrorConverged(manifest, hashes, layout, CollectCronProjectState(final.crontab, p, artifactPath).value);
    MirrorConverged(manifest, hashes, layout, LoadProjectState(final.records, p, BACKEND));
  }

  /** A host without managed blocks and without records has every project in agreement. */
  lemma {:induction false} FreshHost(crontab: string, doc: seq<Segment>, projects: set<string>,
          blocks: map<string, seq<Entry>>)
    requires ValidDoc(doc) && SplitLines(crontab) == Render(doc)
    requires forall i :: 0 <= i < |doc| ==> doc[i].Free?
    requires blocks.Keys <= projects && forall p :: p in blocks ==> blocks[p] == []
    ensures HostInv(HostState(crontab, map[]), doc, blocks, projects)
  {
    forall q ensures Bodies(doc, q) == [] { NoOwnerNoBodies(doc, q); }
    forall p | p in blocks ensures ProjectInv(doc, map[], p, blocks[p]) {
      EmptyMirrors(map[], p);
    }
  }
}
