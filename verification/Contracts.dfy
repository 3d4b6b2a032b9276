/** The value types that the manifest, the planner and the scheduler backends share. */
module Contracts {

  datatype Option<+T> = None | Some(value: T)

  datatype Result<+T, +E> = Ok(value: T) | Err(error: E) {
    predicate IsFailure() { Err? }
    function PropagateFailure<U>(): Result<U, E> requires Err? { Err(error) }
    function Extract(): T requires Ok? { value }
  }

  datatype ScheduleKind = CronSchedule | EverySchedule
  datatype OverlapPolicy = Allow | Forbid

  datatype Schedule = Schedule(kind: ScheduleKind, value: string)

  datatype Execution = Execution(
    command: string,
    workingDir: string,
    shell: string,
    timezone: Option<string>,
    env: seq<(string, string)>,
    overlap: OverlapPolicy)

  datatype Job = Job(
    projectId: string,
    jobId: string,
    qualifiedId: string,
    artifactId: string,
    enabled: bool,
    schedule: Schedule,
    execution: Execution,
    description: Option<string>)

  datatype NormalizedManifest = NormalizedManifest(
    version: int,
    projectId: string,
    projectRoot: string,
    manifestPath: string,
    jobs: seq<Job>)

  /** One deployed job; time stamps and log paths are left out. */
  datatype DeployedJob = DeployedJob(
    qualifiedId: string,
    jobId: string,
    artifactId: string,
    backend: string,
    enabled: bool,
    desiredHash: string,
    definitionHash: Option<string>,
    observedHash: Option<string>,
    serviceLabel: Option<string>,
    artifactPath: Option<string>,
    wrapperPath: Option<string>)

  datatype ProjectState = ProjectState(
    projectId: string,
    backend: string,
    manifestHash: Option<string>,
    jobs: seq<DeployedJob>)

  /** The hashes of one manifest, keyed by qualified job id. */
  datatype Hashes = Hashes(manifest: string, jobs: map<string, string>, definitions: map<string, string>)

  predicate DistinctJobs(jobs: seq<Job>) {
    forall i, j :: 0 <= i < j < |jobs| ==> jobs[i].qualifiedId != jobs[j].qualifiedId
  }

  predicate DistinctDeployed(jobs: seq<DeployedJob>) {
    forall i, j :: 0 <= i < j < |jobs| ==> jobs[i].qualifiedId != jobs[j].qualifiedId
  }

  /** Every job of the manifest has both of its hashes, as the planner's lookups need. */
  predicate Hashed(jobs: seq<Job>, hashes: Hashes) {
    forall i :: 0 <= i < |jobs| ==> jobs[i].qualifiedId in hashes.jobs && jobs[i].qualifiedId in hashes.definitions
  }

  function BuildQualifiedJobId(projectId: string, jobId: string): string {
    projectId + "." + jobId
  }

  /** Characters an artifact id keeps. */
  predicate IsArtifactChar(c: char) {
    'a' <= c <= 'z' || 'A' <= c <= 'Z' || '0' <= c <= '9' || c == '-' || c == '_' || c == '.'
  }

  /** `build_artifact_id`, applied to the qualified id. */
  function ArtifactId(qualifiedId: string): string {
    seq(|qualifiedId|,
        i requires 0 <= i < |qualifiedId| => if IsArtifactChar(qualifiedId[i]) then qualifiedId[i] else '-')
  }
}
