/** Which portable schedules cron refuses, and how plan and apply tell the user. */
module CronPolicy {
  import opened Contracts
  import opened CronSchedule
  import opened CronHost
  import opened Plan

  /** `cron_incompatible_reason`. */
  function CronIncompatibleReason(schedule: Schedule): Option<Reason>
    requires ValidSchedule(schedule)
  {
    if schedule.kind != EverySchedule then None
    else if Unit(schedule.value) == 's' then Some(SubMinute(schedule.value))
    else if Unit(schedule.value) == 'w' && Amount(schedule.value) > 1 then Some(MultiWeek(schedule.value))
    else None
  }

  /** The report on one job: nothing, or one error. */
  function Refusal(job: Job): seq<Change>
    requires ValidSchedule(job.schedule)
  {
    match CronIncompatibleReason(job.schedule)
    case None => []
    case Some(reason) => [Change(Error, job.qualifiedId, reason, Some(job), None, None, None)]
  }

  function Refusals(jobs: seq<Job>): seq<Change>
    requires Schedulable(jobs)
  {
    if jobs == [] then [] else Refusals(jobs[..|jobs| - 1]) + Refusal(jobs[|jobs| - 1])
  }

  /** `cron_schedule_errors`. */
  method CronScheduleErrors(jobs: seq<Job>) returns (errors: seq<Change>)
    requires Schedulable(jobs)
    ensures errors == Refusals(jobs)
  {
    errors := [];
    for n := 0 to |jobs|
      invariant Schedulable(jobs[..n]) && errors == Refusals(jobs[..n])
    {
      assert jobs[..n + 1][..n] == jobs[..n];
      var reason := CronIncompatibleReason(jobs[n].schedule);
      if reason.Some? {
        errors := errors + [Change(Error, jobs[n].qualifiedId, reason.value, Some(jobs[n]), None, None, None)];
      }
    }
    assert jobs[..|jobs|] == jobs;
  }

  /** The change tells the user that this job runs too often or too seldom for cron. */
  predicate Refuses(c: Change, job: Job) {
    var value := job.schedule.value;
    && c.kind == Error && c.qualifiedId == job.qualifiedId && c.desiredJob == Some(job)
    && c.deployedJob == None && c.desiredHash == None && c.deployedHash == None
    && job.schedule.kind == EverySchedule && EveryValue(value)
    && match value[|value| - 1]
       case 's' => c.reason == SubMinute(value)
       case 'w' => value != "1w" && c.reason == MultiWeek(value)
       case _ => false
  }

  lemma {:induction false} RefusalShape(job: Job, c: Change)
    requires ValidSchedule(job.schedule)
    ensures Refusal(job) == [] <==> !CronIncompatible(job.schedule)
    ensures c in Refusal(job) <==> Refuses(c, job)
  {
    var value := job.schedule.value;
    if job.schedule.kind == EverySchedule && Unit(value) == 'w' {
      OnlyOne(value[..|value| - 1]);
      assert value == value[..|value| - 1] + "w";
    }
    var reason := CronIncompatibleReason(job.schedule);
    if reason.Some? {
      var x := Change(Error, job.qualifiedId, reason.value, Some(job), None, None, None);
      assert Refuses(c, job) ==> c == x;
    }
  }

  /** The report holds the error of every job that cannot be printed and no other change: intervals in seconds, and
      intervals in weeks other than one week. */
  lemma {:induction false} RefusalsExactly(jobs: seq<Job>, c: Change)
    requires Schedulable(jobs)
    ensures c in Refusals(jobs) <==> exists i :: 0 <= i < |jobs| && Refuses(c, jobs[i])
  {
    if jobs != [] {
      var init, last := jobs[..|jobs| - 1], jobs[|jobs| - 1];
      RefusalsExactly(init, c);
      RefusalShape(last, c);
      assert forall i :: 0 <= i < |init| ==> init[i] == jobs[i];
    }
  }

  /** No report means that an apply accepts the manifest. */
  lemma {:induction false} RefusesExactly(jobs: seq<Job>)
    requires Schedulable(jobs)
    ensures Refusals(jobs) == [] <==> CronExpressible(jobs)
  {
    if jobs != [] {
      var init, last := jobs[..|jobs| - 1], jobs[|jobs| - 1];
      RefusesExactly(init);
      assert Refusal(last) == [] <==> !CronIncompatible(last.schedule);
      assert forall i :: 0 <= i < |init| ==> init[i] == jobs[i];
    }
  }

  /** The plan a user sees holds an ERROR exactly when an apply would refuse the manifest. */
  lemma {:induction false} ErrorsExactly(changes: seq<Change>, manifest: NormalizedManifest, hashes: Hashes,
          state: ProjectState)
    requires Hashed(manifest.jobs, hashes) && DistinctJobs(manifest.jobs) && DistinctDeployed(state.jobs)
    requires Schedulable(manifest.jobs)
    requires changes == Changes(manifest, BACKEND, hashes, state)
    ensures (exists c :: c in changes + Refusals(manifest.jobs) && c.kind == Error) <==> !CronExpressible(manifest.jobs)
  {
    var errors := Refusals(manifest.jobs);
    RefusesExactly(manifest.jobs);
    PlanPartition(manifest, BACKEND, hashes, state);
    forall c | c in changes ensures c.kind != Error {
      CreateAndRemoveExactly(changes, DesiredIndex(manifest.jobs), DeployedIndex(state.jobs), BACKEND, hashes, c);
    }
    forall c | c in errors ensures c.kind == Error {
      RefusalsExactly(manifest.jobs, c);
    }
    if errors != [] {
      assert errors[0] in errors;
    }
  }
}
