# xcron reconciliation, verified

A Dafny 4.11 model of how xcron reconciles a declared set of jobs with a native scheduler, and of the capability kernel
that hosts the parts. It follows the whole loop: a stored manifest is edited, validated, normalized and hashed; the
planner compares it with what is deployed; a backend applies the plan to a crontab or to launchd; what is deployed is
read back and planned again. Run `dafny verify dfyconfig.toml` to check it.

The model takes the form of the code. What the code does with loops and fields is a method with invariants or a class
with state, proved against a specification function; what it does with expressions is a function. The results are then
lemmas about the specification functions. Every lemma switches automatic induction off, so that each proof by induction
is written out.

## Layout

| files | content |
|---|---|
| `Order`, `Text`, `Contracts` | Python string order and stable sorting; line and field splitting, stripping; the shared value types |
| `Manifest`, `ManifestSchema`, `ManifestEditor` | normal form and hashes; raw data, schema, parser, semantic checks; the editor |
| `EditPlans`, `ManifestCron`, `ManifestLaunchd` | what one edit does to the plan; from a validated manifest to the results on each backend |
| `Plan` | the desired-versus-deployed diff and the status report |
| `CronSchedule`, `CronPolicy` | schedule strings, and which of them cron refuses |
| `CronText`, `CronReadBack`, `CronEdits`, `CronDocument` | printer, parser and in-place editor of the shared crontab, as text and as a document of lines and blocks |
| `CronHost`, `CronCommands`, `CronConvergence`, `CronRuns` | apply and prune with the saved records; what cron runs then; convergence after one apply and over whole runs |
| `CronLineBreaks`, `CronOneLine` | what a line break in a schedule or an id does to the block, and when an apply converges at all |
| `Calendar`, `LaunchdSchedule`, `CalendarText`, `Intervals` | the compiler from cron fields to launchd calendars, what the text of a field means, and interval arithmetic |
| `Launchd`, `LaunchdSettling` | property lists and launchctl as state; the world after one apply, refused or not |
| `LaunchdOutcomes`, `LaunchdStarts`, `LaunchdRecord` | when applies settle, what stays loaded, what happens to foreign files; when installed jobs start; the saved record |
| `WrapperLock`, `WrapperSignals` | the generated wrapper as interleaved runs that share one lock directory; what a signal does to one of them |
| `Dependencies`, `Registry`, `CapabilityHost` | dependency order, snapshots, and re-entrant construction |

## What the code does differently from what one might expect

These came out of the proofs; each is stated as an exact condition.

- The documented meaning of `overlap: forbid` is that a second run does not start while one is running. The wrapper
  assigns `LOCK_DIR` before `mkdir`, and its exit trap removes the directory whenever the variable is set
  (wrapper.py:169-171, 186-191), so a skipped run removes the lock of the run that holds it. Two runs exclude each other;
  three can overlap (`ExclusionExactly`, `SkipLetsAnotherIn`).
- A run that was marked started reports its finish once, whatever single signal strikes it, except between setting
  `FINISH_REPORTED` and making the report (wrapper.py:151-163): there the report is lost (`SignalledRunLeaves`,
  `ReportLost`).
- Crontab markers are matched by prefix (cron.py:144-152, 174-187), so a project can overwrite the block of a project
  whose id extends its own (`IsolationExactly`, `PrefixCollision`); the launchd glob has the same effect across a dot
  (`ForeignRemovedExactly`, `SelectedExactly`, `PruneExactly`).
- Validation admits cron schedules that the launchd compiler cannot read, such as one that names a weekday. The apply then
  stops in the middle of its first loop (launchd.py:250-263): the files of earlier jobs are written and never loaded, and
  the next status calls those jobs settled (`NamedWeekday`, `SettlesExactly`, `RefusedHides`).
- A disabled launchd job is switched on by the apply that creates it (launchd.py:266-270) and takes a second apply to
  settle, while the saved record already claims that it is off (`SettlesExactly`, `RecordAgreesExactly`).
- A settled launchd plan says nothing about what is loaded: applying it changes nothing (`NoopChangesNothing`), and jobs
  that were all loaded stay so (`LoadedKept`).
- An identifier with a dot can be one job's local id and another job's qualified id; the editor takes the first
  (`AddThenRemoveExactly`).
- The id pattern ends in `$`, which lets one final newline pass, and a cron expression may be spread over lines or end in
  a newline. The cron apply of such a manifest never converges, and can leave a block that no later command of the
  project gets past (`SchemaIdToken`, `InPlaceExactly`, `BlockValueStuck`); on launchd a newline in the project id has the
  same effect (`NewlineNeverSettles`).
- Replacing a block that starts the file also drops blank lines after it, so a prune after an apply can leave an empty
  file where a prune alone leaves one newline (`PruneAfterReplaceExactly`).
- A minute step that does not divide 60 is compiled to an interval that cron itself would not keep (`MinuteStepExactly`),
  and a calendar with an empty day field loses the "either day" reading (`CalendarMeans`).
- A status report of OK and DISABLED entries may hide a disabled job that was never installed (`CalmStatusExactly`).

## Premises shared by the results

- The digest of `stable_hash` is a parameter. Results that need it assume that it has no collisions, or that it prints
  nonempty text without white space; they say which.
- Crontab text is well formed when it is a list of unmanaged lines without markers and of blocks whose bodies carry no
  markers. The idempotence and round-trip results on text do not need this.
- The results on launchd need a project id that artifact-id sanitizing leaves alone, a label of its own for every job
  (`ArtifactIdKept` and `FreshCourse` say which validated ids give that; `SharedLabelNeverSettles` is the converse), and
  files whose label and name agree with the id inside, which applies preserve.
- The results on cron take wrapper paths to be nonempty, on one line and without a leading blank.

## Model

| member | source | states |
|---|---|---|
| `Plan.BuildProjectPlan` | capabilities/xcron-capability-scheduler-native/src/xcron/capabilities/scheduler_native/domain.py:31-75 | The two appending loops and the sort compute the specified plan: one change per desired job, one removal per deployed-only id, and the new plan state. |
| `Plan.PlanPartition` | capabilities/xcron-capability-scheduler-native/src/xcron/capabilities/scheduler_native/domain.py:40-75 | With distinct ids on both sides the plan is strictly sorted by id and holds exactly one change for each id of either side, each of them the verdict on its own id. |
| `Plan.CreateAndRemoveExactly` | capabilities/xcron-capability-scheduler-native/src/xcron/capabilities/scheduler_native/domain.py:48-50 | A change is a CREATE exactly for a desired-only id and a REMOVE exactly for a deployed-only id; the diff itself never reports an error. |
| `Plan.VerdictExactly` | capabilities/xcron-capability-scheduler-native/src/xcron/capabilities/scheduler_native/domain.py:44-71 | An id on both sides has exactly one change. Its kind and reason are fixed by the first of these that differs: the observed hash from the recorded one, the backend, the definition hash, the enabled flag; and it carries both jobs and both hashes. |
| `Plan.PlanByFootprint` | capabilities/xcron-capability-scheduler-native/src/xcron/capabilities/scheduler_native/domain.py:40-75 | Two deployed states whose records agree on backend, enabled flag, hashes and observed hash get the same ids, kinds and reasons, whatever the order of the records. |
| `Plan.ConvergedExactly` | capabilities/xcron-capability-scheduler-native/src/xcron/capabilities/scheduler_native/domain.py:44-71 | A plan is all NOOP if and only if both sides have the same ids and every deployed record agrees with its job on backend, definition hash, enabled flag and observed hash. |
| `Plan.CalmStatusExactly` | capabilities/xcron-capability-scheduler-native/src/xcron/capabilities/scheduler_native/domain.py:78-93 | A status report holds only OK and DISABLED entries if and only if every change is a NOOP or the creation of a disabled job: a calm report does not mean that the plan is empty. |
| `Plan.StatusExactly` | capabilities/xcron-capability-scheduler-native/src/xcron/capabilities/scheduler_native/domain.py:78-93 | An entry says EXTRA exactly for a deployed-only id, MISSING exactly for an enabled desired-only id, DRIFTED exactly for an id on both sides whose record is not settled, DISABLED exactly for a disabled desired job that is not deployed or settled, and OK exactly for an enabled settled one. No id has two of them. |
| `CronSchedule.RenderedExpression` | capabilities/xcron-capability-scheduler-native/src/xcron/capabilities/scheduler_native/adapters/cron.py:86-101 | Every validated schedule that the policy lets through is printed as a five-field cron expression of permitted characters. |
| `CronSchedule.RenderFailsExactly` | capabilities/xcron-capability-scheduler-native/src/xcron/capabilities/scheduler_native/cron_policy.py:26-43 | The policy refuses exactly the validated schedules that the printer cannot express. |
| `CronCommands.RenderedTimes` | capabilities/xcron-capability-scheduler-native/src/xcron/capabilities/scheduler_native/adapters/cron.py:86-101 | The printed expression has the five fields of the job itself for a cron schedule, and `*/N * * * *`, `0 */N * * *`, `0 0 */N * *` or `0 0 * * 0` for N minutes, N hours, N days and one week. |
| `CronPolicy.CronScheduleErrors` | capabilities/xcron-capability-scheduler-native/src/xcron/capabilities/scheduler_native/cron_policy.py:9-23 | The appending loop reports the refusals job by job, in manifest order. |
| `CronPolicy.RefusalsExactly` | capabilities/xcron-capability-scheduler-native/src/xcron/capabilities/scheduler_native/cron_policy.py:9-43 | A change is in the report if and only if it is the error of a job on an interval in seconds, or in weeks other than `1w`, with that job, its id and the reason for the one or the other. |
| `CronPolicy.ErrorsExactly` | capabilities/xcron-capability-scheduler-native/src/xcron/capabilities/scheduler_native/service.py:102-104 | The plan shown to the user holds an ERROR if and only if the schedule check of an apply would refuse the manifest. |
| `CronText.FindBlock` | capabilities/xcron-capability-scheduler-native/src/xcron/capabilities/scheduler_native/adapters/cron.py:141-152 | The line scan finds the block that the edit works on: the last begin marker before the first end marker that follows a begin marker. |
| `CronText.ReplaceProjectBlock` | capabilities/xcron-capability-scheduler-native/src/xcron/capabilities/scheduler_native/adapters/cron.py:141-166 | The text the editor returns is the edited lines, trailing white space stripped, with the replacement in the block's place or appended after a separating blank line. |
| `CronEdits.FirstApply` | capabilities/xcron-capability-scheduler-native/src/xcron/capabilities/scheduler_native/adapters/cron.py:153-161 | In a text without a block of the project the block goes to the end, behind an empty line unless the text is empty or ends in one; canonical text before it stays as it is, character for character. |
| `CronText.InspectCronProject` | capabilities/xcron-capability-scheduler-native/src/xcron/capabilities/scheduler_native/adapters/cron.py:169-228 | The loop with its inside, pending-metadata and disabled flags computes the parser specification on the crontab's lines, errors included. |
| `CronReadBack.ParseMetaExactly` | capabilities/xcron-capability-scheduler-native/src/xcron/capabilities/scheduler_native/adapters/cron.py:24-29 | The metadata pattern matches a line if and only if it is the printed line of four white-space-free values, and it yields those values. |
| `Text.SplitFieldsThenTail` | capabilities/xcron-capability-scheduler-native/src/xcron/capabilities/scheduler_native/adapters/cron.py:231-238 | Splitting a printed entry at the schedule's own number of fields returns those fields and the command unchanged. |
| `CronReadBack.ReadBackInContext` | capabilities/xcron-capability-scheduler-native/src/xcron/capabilities/scheduler_native/adapters/cron.py:104-138 | Printer and parser undo each other in any context: reading a crontab that holds a printed block among other lines returns the printed entries in order, with ids, hashes, flags and paths intact and the schedule equal up to runs of blanks. |
| `CronEdits.ApplyIdempotent` | capabilities/xcron-capability-scheduler-native/src/xcron/capabilities/scheduler_native/adapters/cron.py:141-166 | For every crontab text, splicing the same block in twice equals splicing it in once. |
| `CronEdits.PruneAfterApply` | capabilities/xcron-capability-scheduler-native/src/xcron/capabilities/scheduler_native/adapters/cron.py:141-166 | For every text without a block of the project, removing a block just spliced in gives what removing nothing would have given. |
| `CronEdits.PruneAfterReplaceExactly` | capabilities/xcron-capability-scheduler-native/src/xcron/capabilities/scheduler_native/adapters/cron.py:141-166 | For every text with a block of the project, replacing the block and then removing it gives what removing it at once would have given, if and only if the block does not start the text with only blank lines, at least one, after it. |
| `CronEdits.FinishFixedExactly` | capabilities/xcron-capability-scheduler-native/src/xcron/capabilities/scheduler_native/adapters/cron.py:153-166 | An edit that removes nothing returns the text unchanged exactly when the text is canonical: newline breaks only, no trailing white space but one final newline, or empty. |
| `CronEdits.ApplyThenPruneExactly` | capabilities/xcron-capability-scheduler-native/src/xcron/capabilities/scheduler_native/adapters/cron.py:141-166 | For a text without a block of the project, apply followed by prune gives back the same text character for character if and only if the text is canonical. |
| `CronDocument.EditRefines` | capabilities/xcron-capability-scheduler-native/src/xcron/capabilities/scheduler_native/adapters/cron.py:141-166 | The text editor refines an editor on a list of unmanaged lines and owned blocks, for every crontab of that shape, including ids that are prefixes of each other. |
| `CronDocument.EditKeepsUnmanaged` | capabilities/xcron-capability-scheduler-native/src/xcron/capabilities/scheduler_native/adapters/cron.py:153-166 | Every edit keeps the non-blank unmanaged lines, in order, up to trailing white space. |
| `CronDocument.IsolationExactly` | capabilities/xcron-capability-scheduler-native/src/xcron/capabilities/scheduler_native/adapters/cron.py:144-152 | An edit leaves every other project's blocks alone if and only if the first block that its marker prefix selects, if there is one, is its own. |
| `CronDocument.PrefixCollision` | capabilities/xcron-capability-scheduler-native/src/xcron/capabilities/scheduler_native/adapters/cron.py:144-152 | Where one project id properly extends another, whichever the ids and bodies are, an apply of the shorter one overwrites the longer one's block. |
| `CronDocument.RunOwnership` | capabilities/xcron-capability-scheduler-native/src/xcron/capabilities/scheduler_native/adapters/cron.py:284-299 | After any finite run of applies and prunes by projects with pairwise prefix-incomparable ids the crontab still splits into unmanaged lines and separate blocks, at most one block per project, each block its owner's last write, and the unmanaged lines are those it started with. |
| `CronHost.Host.RenderCronBlock` | capabilities/xcron-capability-scheduler-native/src/xcron/capabilities/scheduler_native/adapters/cron.py:104-138 | The block is printed exactly when there is a job and every schedule can be expressed. Otherwise the error names the schedule of the first job that cannot be printed, and the wrappers written are those of the jobs up to and including it. |
| `CronHost.Host.ApplyCronPlan` | capabilities/xcron-capability-scheduler-native/src/xcron/capabilities/scheduler_native/adapters/cron.py:267-338 | An apply succeeds exactly for the cron backend and expressible schedules; it then rewrites the project's block and saves its record (`AppliedCommands` and `SavedRecord` say what these hold). A failure leaves crontab and records as they were; it names the wrong backend, or the first schedule that cron cannot express, and then the wrappers up to that job have been written. |
| `CronHost.Host.Apply` | capabilities/xcron-capability-scheduler-native/src/xcron/capabilities/scheduler_native/service.py:143-180 | Status comes first, so an unreadable block refuses the apply; then the schedule check; then the backend. State, success and the error follow exactly, and a refusal writes no wrapper. |
| `CronHost.Host.Prune` | capabilities/xcron-capability-scheduler-native/src/xcron/capabilities/scheduler_native/adapters/cron.py:341-351 | A prune takes the block out, removes the wrappers of the entries it read and deletes the record; an unreadable block changes nothing. |
| `CronCommands.AppliedCommands` | capabilities/xcron-capability-scheduler-native/src/xcron/capabilities/scheduler_native/adapters/cron.py:104-138 | From any crontab made of plain lines and blocks, a managed apply with jobs leaves one entry per job, in order: a line of the crontab that runs that job's wrapper at the five fields of its schedule, commented out exactly if the job is disabled, with its ids and hashes. |
| `CronCommands.AppliedCollects` | capabilities/xcron-capability-scheduler-native/src/xcron/capabilities/scheduler_native/adapters/cron.py:241-264 | What is collected after such an apply is those jobs in order, with their ids, flags, hashes and wrapper paths; the qualified id stands in for the artifact id, which the crontab does not tell. |
| `CronCommands.PruneTakesWrappers` | capabilities/xcron-capability-scheduler-native/src/xcron/capabilities/scheduler_native/adapters/cron.py:341-351 | A prune after such an apply removes the wrapper files of exactly the applied jobs. |
| `CronCommands.SavedRecord` | capabilities/xcron-capability-scheduler-native/src/xcron/capabilities/scheduler_native/adapters/cron.py:301-338 | The record saved by an apply holds one entry for each job, sorted by id and nothing else, each with the ids, flag, hashes, crontab path and wrapper path of its job. |
| `CronCommands.RecordsReload` | capabilities/xcron-capability-scheduler-native/src/xcron/capabilities/scheduler_native/state_store.py:32-71 | A record is loaded as it was saved, and as an empty baseline after a prune; no other project's record changes. |
| `CronConvergence.ApplyConverges` | capabilities/xcron-capability-scheduler-native/src/xcron/capabilities/scheduler_native/adapters/cron.py:241-299 | From any crontab made of plain lines and blocks, whoever owns them, applying a manifest with jobs and reading the crontab back gives a plan of exactly one NOOP per job. |
| `CronConvergence.EmptyApplyExactly` | capabilities/xcron-capability-scheduler-native/src/xcron/capabilities/scheduler_native/adapters/cron.py:284-299 | Applying a manifest without jobs leaves nothing to do if and only if the project's markers select no second block. |
| `CronConvergence.ApplyAgreesExactly` | capabilities/xcron-capability-scheduler-native/src/xcron/capabilities/scheduler_native/adapters/cron.py:267-338 | From any crontab made of plain lines and blocks and any records, a managed apply makes record and crontab plan alike for every later manifest, if and only if it printed a block or the project's markers selected no second one. |
| `CronConvergence.PruneAgreesExactly` | capabilities/xcron-capability-scheduler-native/src/xcron/capabilities/scheduler_native/service.py:182-191 | From any such crontab and any records, a managed prune with the deletion of the record makes the two plan alike if and only if the project's markers selected no second block. |
| `CronRuns.CollectedMirrors` | capabilities/xcron-capability-scheduler-native/src/xcron/capabilities/scheduler_native/adapters/cron.py:241-264 | The state collected from a printed block carries the printed ids, flags and hashes. |
| `CronRuns.RecordMirrors` | capabilities/xcron-capability-scheduler-native/src/xcron/capabilities/scheduler_native/state_store.py:32-71 | Saving the record of an apply and loading it again carries the same ids, flags and hashes as the printed block. |
| `CronRuns.StepKeeps` | capabilities/xcron-capability-scheduler-native/src/xcron/capabilities/scheduler_native/service.py:143-191 | Every apply or prune of any project, managed or not and refusals included, keeps the crontab a list of plain lines and one block per project with the same unmanaged lines, and keeps block and record in agreement for the projects that agreed; a managed step that takes effect brings its own project into agreement whatever was recorded before, and one that leaves the crontab alone may take it out. |
| `CronRuns.AgreedTakesEffect` | capabilities/xcron-capability-scheduler-native/src/xcron/capabilities/scheduler_native/service.py:143-180 | A project whose block and record agree is refused nothing but schedules that cron cannot express. |
| `CronRuns.RecordAgreesWithCrontab` | capabilities/xcron-capability-scheduler-native/src/xcron/capabilities/scheduler_native/service.py:88-101 | After any run that starts from any records, for every project whose last effective step managed the crontab, or that agreed at the start and did not act, and for every later manifest, the plan drawn from the saved record and the plan drawn from the crontab have the same ids, kinds and reasons. |
| `CronRuns.StaysConverged` | capabilities/xcron-capability-scheduler-native/src/xcron/capabilities/scheduler_native/service.py:121-132 | Once a project's manifest is applied to a managed crontab and not refused, from any records and after any earlier steps, both plans are one NOOP per job, and stay so after any later operations of other projects. |
| `CronRuns.FreshHost` | capabilities/xcron-capability-scheduler-native/src/xcron/capabilities/scheduler_native/state_store.py:40-52 | In a crontab without managed blocks beside an empty record store every project agrees. |
| `Launchd.Host.ApplyLaunchdPlan` | capabilities/xcron-capability-scheduler-native/src/xcron/capabilities/scheduler_native/adapters/launchd.py:228-312 | An apply goes through exactly for the launchd backend and when the schedule of every changed job compiles; it then writes the specified files, services, disabled labels and record. Otherwise the error names the first schedule that does not compile, the files of the changed jobs before it are written, and launchctl and the record are left alone. |
| `LaunchdStarts.ChangedJobStarts` | capabilities/xcron-capability-scheduler-native/src/xcron/capabilities/scheduler_native/adapters/launchd.py:79-118 | After an apply that goes through, every desired job whose change is not a NOOP has its own file, with its ids and hashes and a start key that is the interval of its `every` value or the answer to its cron fields. |
| `LaunchdStarts.AllStartRight` | capabilities/xcron-capability-scheduler-native/src/xcron/capabilities/scheduler_native/adapters/launchd.py:244-312 | After such an apply every desired job starts as its schedule says, if those left alone did before. |
| `LaunchdStarts.VouchedKept` | capabilities/xcron-capability-scheduler-native/src/xcron/capabilities/scheduler_native/adapters/launchd.py:244-312 | Every apply, refused or not, keeps this: each file of the project starts by the schedule of some job with the definition hash in the file. |
| `LaunchdStarts.EveryJobStartsRight` | capabilities/xcron-capability-scheduler-native/src/xcron/capabilities/scheduler_native/adapters/launchd.py:244-312 | So with a collision-free digest every desired job starts as its schedule says after every apply that goes through, those with a NOOP included. |
| `Launchd.Host.CollectProjectState` | capabilities/xcron-capability-scheduler-native/src/xcron/capabilities/scheduler_native/adapters/launchd.py:359-459 | The collected state holds one deployed job for each file that the project's glob selects, and nothing else. |
| `Launchd.Host.Prune` | capabilities/xcron-capability-scheduler-native/src/xcron/capabilities/scheduler_native/adapters/launchd.py:462-489 | A prune removes exactly the selected files and stops their services. |
| `LaunchdSettling.AfterOneApply` | capabilities/xcron-capability-scheduler-native/src/xcron/capabilities/scheduler_native/adapters/launchd.py:244-312 | After a managed apply that goes through the project's files are exactly its desired jobs, each one settled but for being on, a label is on exactly when its job is enabled or was just created, updated or repaired, and a job is loaded exactly when it was changed or had been loaded. |
| `LaunchdOutcomes.SettlesExactly` | capabilities/xcron-capability-scheduler-native/src/xcron/capabilities/scheduler_native/adapters/launchd.py:244-312 | The third plan is all NOOP if and only if the schedule of every job that the first plan changes compiles. Then the second plan holds only NOOP and DISABLE, and is all NOOP if and only if the first created, updated or repaired no job that is disabled in the manifest. Otherwise the second apply is refused like the first. |
| `LaunchdOutcomes.RefusedLeaves` | capabilities/xcron-capability-scheduler-native/src/xcron/capabilities/scheduler_native/adapters/launchd.py:248-263 | The plan after a refused apply: the changed jobs before the blocked one have their files and are only to be switched on or off or left, though launchctl was never told of them; every other id keeps its change; loaded and disabled labels are as before. |
| `LaunchdOutcomes.RefusedHides` | capabilities/xcron-capability-scheduler-native/src/xcron/capabilities/scheduler_native/adapters/launchd.py:248-263 | In particular a new, enabled job before the blocked one, whose label is neither disabled nor loaded, is planned as NOOP after the refused apply and is still not loaded. |
| `LaunchdOutcomes.LoadedKept` | capabilities/xcron-capability-scheduler-native/src/xcron/capabilities/scheduler_native/adapters/launchd.py:265-312 | If every installed job of the project is loaded, an apply that goes through leaves every installed job loaded. |
| `LaunchdOutcomes.NoopChangesNothing` | capabilities/xcron-capability-scheduler-native/src/xcron/capabilities/scheduler_native/adapters/launchd.py:248-312 | Applying a plan of only NOOP changes nothing, so a settled job that is not loaded stays so. |
| `LaunchdSettling.NextPlanExists` | capabilities/xcron-capability-scheduler-native/src/xcron/capabilities/scheduler_native/adapters/launchd.py:359-459 | An apply, refused or not, keeps the files well formed and the labels apart, so the state collected next has such a plan whatever the listing order. |
| `LaunchdOutcomes.OtherLabelsUntouched` | capabilities/xcron-capability-scheduler-native/src/xcron/capabilities/scheduler_native/adapters/launchd.py:228-312 | An apply, refused or not, changes no file, no disabled label and no loaded service that the project's glob does not select. |
| `LaunchdOutcomes.ForeignRemovedExactly` | capabilities/xcron-capability-scheduler-native/src/xcron/capabilities/scheduler_native/adapters/launchd.py:372-373 | A file whose label no desired job has is removed by an apply if and only if the apply goes through and the project's glob selects the label, whoever owns it. |
| `LaunchdOutcomes.SelectedExactly` | capabilities/xcron-capability-scheduler-native/src/xcron/capabilities/scheduler_native/adapters/launchd.py:372-373 | The glob selects the label of a job if and only if its sanitized id continues the project id with a dot. |
| `LaunchdOutcomes.SameLabelExactly` | packages/xcron-contracts/src/xcron/contracts/domain.py:290-293 | Two ids share a launchd label if and only if they have the same length and differ only where both have a dash or a character other than a letter, a digit, `_` or `.`. |
| `LaunchdOutcomes.SharedLabelNeverSettles` | capabilities/xcron-capability-scheduler-native/src/xcron/capabilities/scheduler_native/adapters/launchd.py:74-76 | Two desired jobs whose ids look alike in this sense never settle: every plan has something to change. |
| `LaunchdRecord.RecordAgreesExactly` | capabilities/xcron-capability-scheduler-native/src/xcron/capabilities/scheduler_native/adapters/launchd.py:314-356 | After an apply that goes through, the plan drawn from the saved record is all NOOP in every case, the plan drawn from the installed jobs exactly when no disabled job was created, updated or repaired. |
| `LaunchdRecord.SavedRecord` | capabilities/xcron-capability-scheduler-native/src/xcron/capabilities/scheduler_native/adapters/launchd.py:314-356 | The record saved by an apply holds one entry for each job, sorted by id and nothing else, each with the ids, flag, hashes and label of its job. |
| `LaunchdRecord.PruneExactly` | capabilities/xcron-capability-scheduler-native/src/xcron/capabilities/scheduler_native/adapters/launchd.py:462-489 | A prune removes exactly the files whose labels the project's glob selects and, with launchctl managed, stops exactly their services; other files stay as they are, and nothing is collected afterwards. |
| `Calendar.ParseCalendarField` | capabilities/xcron-capability-scheduler-native/src/xcron/capabilities/scheduler_native/adapters/launchd.py:180-208 | A field other than `*` yields the values of its elements in ascending order without repeats, or the error of the first element that `int` or `range` rejects; `CalendarText` says what the elements are. |
| `CalendarText.PartExactly` | capabilities/xcron-capability-scheduler-native/src/xcron/capabilities/scheduler_native/adapters/launchd.py:191-207 | A part reads as a start, an end and a step if and only if its text is `a` with the step 1, `a-b` with the step 1, or `*/n`, `a/n` or `a-b/n` with a step other than 0, with digits for a, b and n but for a minus sign that the second number of a pair and a step may have. |
| `CalendarText.FieldReadsText` | capabilities/xcron-capability-scheduler-native/src/xcron/capabilities/scheduler_native/adapters/launchd.py:188-207 | A field reads if and only if it is `*` or every part between its commas has one of these forms. |
| `CalendarText.PartFailsExactly` | capabilities/xcron-capability-scheduler-native/src/xcron/capabilities/scheduler_native/adapters/launchd.py:191-207 | The error for a part that does not read: a zero step exactly for one of the stepped forms with the step 0, and otherwise a piece of the part that is no number. |
| `CalendarText.FieldDenotesText` | capabilities/xcron-capability-scheduler-native/src/xcron/capabilities/scheduler_native/adapters/launchd.py:188-208 | What a field that reads denotes is the numbers that some part counts through. |
| `CalendarText.NumberField` | capabilities/xcron-capability-scheduler-native/src/xcron/capabilities/scheduler_native/adapters/launchd.py:206-207 | The field `a` denotes the number a and no other. |
| `CalendarText.RangeField` | capabilities/xcron-capability-scheduler-native/src/xcron/capabilities/scheduler_native/adapters/launchd.py:203-205 | The field `a-b` denotes the numbers from a to b, both included. |
| `CalendarText.StepField` | capabilities/xcron-capability-scheduler-native/src/xcron/capabilities/scheduler_native/adapters/launchd.py:172-178 | The field `*/n` denotes every n-th number from the lower bound: 0-59, 0-23, 1-31, 1-12 and 0-7 for the five keys. |
| `CalendarText.OpenStepField` | capabilities/xcron-capability-scheduler-native/src/xcron/capabilities/scheduler_native/adapters/launchd.py:200-202 | The field `a/n` denotes every n-th number from a up to the same upper bounds. |
| `CalendarText.RangeStepField` | capabilities/xcron-capability-scheduler-native/src/xcron/capabilities/scheduler_native/adapters/launchd.py:197-199 | The field `a-b/n` denotes every n-th number from a up to b. |
| `CalendarText.ListField` | capabilities/xcron-capability-scheduler-native/src/xcron/capabilities/scheduler_native/adapters/launchd.py:191-191 | The field `x,y` reads if x and y do, and denotes what either denotes. |
| `CalendarText.EverySeconds` | capabilities/xcron-capability-scheduler-native/src/xcron/capabilities/scheduler_native/adapters/launchd.py:157-168 | An `every` value of n seconds, minutes, hours, days or weeks is compiled to n times 1, 60, 3600, 86400 or 604800 seconds. |
| `Calendar.RowsDistinct` | capabilities/xcron-capability-scheduler-native/src/xcron/capabilities/scheduler_native/adapters/launchd.py:139-154 | The cross product repeats no dictionary and has as many as the product of the list sizes. |
| `LaunchdSchedule.CalendarMeans` | capabilities/xcron-capability-scheduler-native/src/xcron/capabilities/scheduler_native/adapters/launchd.py:131-154 | A time matches some emitted dictionary exactly when every field denotes its component; under the "either day matches" reading the same holds exactly when both restricted day fields have a value. |
| `LaunchdSchedule.RenderLaunchdSchedule` | capabilities/xcron-capability-scheduler-native/src/xcron/capabilities/scheduler_native/adapters/launchd.py:120-154 | The compiler succeeds if and only if the schedule is an `every` value, or has five fields of which the first is a bare minute step beside four `*` or all read. The result is the interval form exactly for `every` values, bare minute steps and five `*`, and otherwise a calendar with the meaning of the fields, without repeats and with as many dictionaries as the product of the fields' sizes. A failure is the field count, or the error of the first field that does not read. |
| `LaunchdSchedule.CompileExactly` | capabilities/xcron-capability-scheduler-native/src/xcron/capabilities/scheduler_native/adapters/launchd.py:120-208 | The specification that the compiler and the launchd apply share: success exactly for expressible schedules, with the same meaning and the same errors. |
| `LaunchdSchedule.NamedWeekday` | capabilities/xcron-capability-scheduler-native/src/xcron/capabilities/scheduler_native/adapters/launchd.py:206-207 | The schedule `0 9 * * MON` passes validation and does not compile for launchd. |
| `Intervals.EvenExactly` | capabilities/xcron-capability-scheduler-native/src/xcron/capabilities/scheduler_native/adapters/launchd.py:123-129 | A pattern that restarts with each cycle is evenly spaced by its step exactly when the step divides the cycle. |
| `Intervals.MinuteStepExactly` | capabilities/xcron-capability-scheduler-native/src/xcron/capabilities/scheduler_native/adapters/launchd.py:131-137 | The times denoted by a bare minute step `*/N` are N minutes apart, as the compiled interval assumes, if and only if N divides 60. |
| `Intervals.EveryMinutesExactly` | capabilities/xcron-capability-scheduler-native/src/xcron/capabilities/scheduler_native/adapters/cron.py:86-101 | For `every: Nm` the printed cron line fires at the spacing that the other backend is given if and only if N divides 60. |
| `Intervals.EveryHoursExactly` | capabilities/xcron-capability-scheduler-native/src/xcron/capabilities/scheduler_native/adapters/cron.py:86-101 | For `every: Nh` the same holds if and only if N divides 24. |
| `WrapperLock.LockInvAlways` | capabilities/xcron-capability-scheduler-native/src/xcron/capabilities/scheduler_native/wrapper.py:166-192 | In every interleaving of any number of runs, with signals and kills at any step, holders of the lock number at most one if the directory exists, plus the runs that removed it without having made it. |
| `WrapperLock.OverlapBound` | capabilities/xcron-capability-scheduler-native/src/xcron/capabilities/scheduler_native/wrapper.py:166-192 | The runs between making and removing the directory obey the same bound, so mutual exclusion holds whenever no run removed a directory it had not made. |
| `WrapperLock.SkipLetsAnotherIn` | capabilities/xcron-capability-scheduler-native/src/xcron/capabilities/scheduler_native/wrapper.py:186-192 | From any state with one run inside, one about to try and one waiting, six ordinary steps without signal or failure put two runs inside: a skipped run's exit trap removes the lock. |
| `WrapperLock.ExclusionExactly` | capabilities/xcron-capability-scheduler-native/src/xcron/capabilities/scheduler_native/wrapper.py:166-192 | Every interleaving of n runs excludes overlap if and only if n is at most two. |
| `WrapperLock.FinishAtMostOnce` | capabilities/xcron-capability-scheduler-native/src/xcron/capabilities/scheduler_native/wrapper.py:151-180 | In every interleaving each run reports its finish at most once, only after it was marked started, and a skipped run never. |
| `WrapperLock.FinishReportsStatus` | capabilities/xcron-capability-scheduler-native/src/xcron/capabilities/scheduler_native/wrapper.py:186-215 | A run that nothing disturbs leaves within eleven of its own steps, and its trap removes the directory. If it got the lock, it has reported its command's status, exactly once, and exits with it; otherwise it ran nothing, reported nothing and exits with 0. |
| `WrapperSignals.SignalledRunLeaves` | capabilities/xcron-capability-scheduler-native/src/xcron/capabilities/scheduler_native/wrapper.py:151-180 | A run that one signal strikes between its traps being set and its exit trap leaves within four of its own steps, with the signal's status. It removes the directory exactly if it had named it. It reports its command's status if that was done, the signal's status if it was marked started, and otherwise nothing; exactly one report is made if and only if it was marked started and not struck between setting `FINISH_REPORTED` and reporting. |
| `WrapperSignals.ReportLost` | capabilities/xcron-capability-scheduler-native/src/xcron/capabilities/scheduler_native/wrapper.py:151-163 | A command returns 0, `FINISH_REPORTED` is set, TERM arrives: the run was started and is never reported as finished. |
| `WrapperSignals.CutShortForGood` | capabilities/xcron-capability-scheduler-native/src/xcron/capabilities/scheduler_native/wrapper.py:166-180 | A kill, a signal before the traps are set, or a second signal inside the exit trap ends the run: it reports nothing further, and a directory that it made and had not removed stays. |
| `Registry.TakeSnapshot` | packages/xcron-kernel/src/xcron/kernel/registry.py:121-134 | A snapshot succeeds exactly when every capability can be selected, requirements are met, claims are disjoint and no capability depends on itself; it then lists every capability once, after everything it requires, and a cycle error is reported exactly when the rest is in order and the graph has a cycle. Any error comes from the first of the four checks that fails and names what fails it. |
| `Registry.BuildIndex` | packages/xcron-kernel/src/xcron/kernel/registry.py:46-62 | The constructor indexes every provider by capability and implementation, and fails exactly on a repeated pair, which the error names. |
| `Registry.SelectExactly` | packages/xcron-kernel/src/xcron/kernel/registry.py:96-119 | A selection yields a provider exactly when it is the only one that suits: for the capability, and of the implementation asked for if one is. It is unavailable exactly when none suits and ambiguous exactly when several do. |
| `Registry.ValidateRequirements` | packages/xcron-kernel/src/xcron/kernel/registry.py:140-157 | The check passes exactly when every requirement of every selected provider is met; otherwise the error names one that is not. |
| `Registry.ValidateClaims` | packages/xcron-kernel/src/xcron/kernel/registry.py:159-170 | The check passes exactly when no two selected providers share a claim; otherwise the error names one of two that do. |
| `Dependencies.ComputeDependencyOrder` | packages/xcron-kernel/src/xcron/kernel/registry.py:172-195 | The sorted depth-first walk terminates and returns a dependency order exactly for the graphs without a cycle; otherwise it returns a cycle of the graph. |
| `Dependencies.OrderedMeansAcyclic` | packages/xcron-kernel/src/xcron/kernel/registry.py:172-195 | A graph that has a dependency order has no cycle. |
| `Dependencies.ReportCycles` | ops/control/bin/catalogue.py:130-150 | The reporting walk of the operations catalogue finds nothing exactly for the graphs without a cycle, and everything it reports closes a cycle. |
| `CapabilityHost.Host.Registration` | packages/xcron-kernel/src/xcron/kernel/host.py:86-128 | Each provider completes its build at most once; a call succeeds exactly when the provider is registered afterwards, reports the stack as a cycle on re-entry, restores the stack it started with in every case, and always succeeds on well-behaved providers. |
| `CapabilityHost.Host.Require` | packages/xcron-kernel/src/xcron/kernel/host.py:67-84 | A closed host refuses; a success means that the provider is registered and the port fits; the stack is restored. |
| `CapabilityHost.Host.Freeze` | packages/xcron-kernel/src/xcron/kernel/host.py:60-65 | On well-behaved providers freezing never fails and registers every selected capability. |
| `CapabilityHost.Host.Close` | packages/xcron-kernel/src/xcron/kernel/host.py:49-58 | What was built is closed once, in reverse dependency order, and a second close does nothing. |
| `CapabilityHost.SnapshotHostsBehave` | packages/xcron-kernel/src/xcron/kernel/host.py:60-65 | The order that a snapshot yields makes every host well behaved whose builds ask only for declared requirements. |
| `CapabilityHost.UsersCloseFirst` | packages/xcron-kernel/src/xcron/kernel/host.py:49-58 | A provider is closed before whatever it may have used. |
| `Manifest.StableItemsExactly` | packages/xcron-contracts/src/xcron/contracts/domain.py:280-282 | Two environments have the same stable items if and only if they map the same names to the same values. |
| `Manifest.EnvironmentMeaning` | capabilities/xcron-capability-manifest-yaml/src/xcron/capabilities/manifest_yaml/_normalization.py:24-37 | A pair is in a normalized environment if and only if the job maps the name to the value, or only the defaults do. |
| `Manifest.NormalizedContents` | capabilities/xcron-capability-manifest-yaml/src/xcron/capabilities/manifest_yaml/_normalization.py:50-62 | With distinct ids the normal form is strictly sorted by qualified id and holds the image of each job under the normalizer, and nothing else; `NormalizedExactly` says what the image is. |
| `Manifest.NormalizedExactly` | capabilities/xcron-capability-manifest-yaml/src/xcron/capabilities/manifest_yaml/_normalization.py:21-62 | Field by field, the normal form runs every job of the manifest and nothing else: a nonempty shell or working directory of the job wins and otherwise the defaults' is taken, the timezone is the defaults', a name has the job's value and otherwise the defaults', and id, enabled flag, schedule, command, overlap and description are the job's. |
| `Manifest.OrderIndependent` | capabilities/xcron-capability-manifest-yaml/src/xcron/capabilities/manifest_yaml/_normalization.py:21-62 | Manifests that differ only in the order of jobs and of environment entries have the same normal form, and so the same hashes. |
| `Manifest.JobHashExactly` | capabilities/xcron-capability-manifest-yaml/src/xcron/capabilities/manifest_yaml/_hashes.py:13-44 | With a collision-free digest, definition hashes agree if and only if the jobs agree up to `enabled`, and job hashes if and only if the jobs are equal. |
| `Manifest.ManifestHashExactly` | capabilities/xcron-capability-manifest-yaml/src/xcron/capabilities/manifest_yaml/_hashes.py:65-86 | With a collision-free digest, two normal forms have the same manifest hash if and only if they are equal. |
| `ManifestSchema.SchemaIdToken` | capabilities/xcron-capability-manifest-yaml/src/xcron/capabilities/manifest_yaml/resources/schemas/schedules.schema.yaml:47-49 | An id that the schema pattern accepts is free of white space if and only if it has no final newline. |
| `ManifestSchema.IdPatternExactly` | capabilities/xcron-capability-manifest-yaml/src/xcron/capabilities/manifest_yaml/resources/schemas/schedules.schema.yaml:47-49 | The pattern accepts a plain id, and a plain id with one newline behind it, and nothing else. |
| `ManifestSchema.ValidateSemantics` | capabilities/xcron-capability-manifest-yaml/src/xcron/capabilities/manifest_yaml/_schema.py:58-101 | The pass with its set of seen ids makes exactly the justified complaints, on the defaults and on each job by position, a duplicate being one whose id occurred before; it makes none exactly for sound manifests. |
| `ManifestSchema.CheckedIsRun` | capabilities/xcron-capability-manifest-yaml/src/xcron/capabilities/manifest_yaml/_schema.py:82-99 | What is validated is what runs: every normalized job of a valid manifest has a command, a shell, a known timezone if any, and a working directory that is the one found on the machine. |
| `ManifestSchema.DirectoryComplaint` | capabilities/xcron-capability-manifest-yaml/src/xcron/capabilities/manifest_yaml/_schema.py:82-99 | The validation complains about a job's directory if and only if the normalized job would run in a path that is no directory. |
| `ManifestSchema.ParsedFields` | capabilities/xcron-capability-manifest-yaml/src/xcron/capabilities/manifest_yaml/_loader.py:125-144 | The parsed job key by key: `enabled` is on unless the mapping says otherwise, overlap is forbidden exactly for the text `forbid`, and every other field is there exactly if its key is, with its value. |
| `ManifestSchema.ValidatedSchedule` | capabilities/xcron-capability-manifest-yaml/src/xcron/capabilities/manifest_yaml/_schema.py:104-136 | Schema and semantic checks together leave only schedules of the two forms that the backends read. |
| `ManifestEditor.NamesExactly` | capabilities/xcron-capability-manifest-yaml/src/xcron/capabilities/manifest_yaml/_editor.py:234-242 | An identifier names a job if and only if it is the job's local id or its qualified id. |
| `ManifestEditor.FindJob` | capabilities/xcron-capability-manifest-yaml/src/xcron/capabilities/manifest_yaml/_editor.py:234-242 | The lookup returns the first named job, or fails exactly when there is none. |
| `ManifestEditor.UpdateFields` | capabilities/xcron-capability-manifest-yaml/src/xcron/capabilities/manifest_yaml/_editor.py:139-145 | The two loops compute the specified update: cleared fields go first, then the updates come in. |
| `ManifestEditor.UpdatedExactly` | capabilities/xcron-capability-manifest-yaml/src/xcron/capabilities/manifest_yaml/_editor.py:139-145 | An update field by field: the last value given for a field wins, a cleared field without one is gone, and every other field is as it was. |
| `ManifestEditor.Editor.Mutate` | capabilities/xcron-capability-manifest-yaml/src/xcron/capabilities/manifest_yaml/_editor.py:173-218 | An edit stores the validated rewrite or nothing: a failure leaves the file alone, and it is written exactly when its data changed. |
| `ManifestEditor.WritesExactly` | capabilities/xcron-capability-manifest-yaml/src/xcron/capabilities/manifest_yaml/_editor.py:173-218 | An edit writes if and only if the stored data then differ from what they were, dictionaries compared without order; anything else leaves them as they were. |
| `ManifestEditor.EditAtFound` | capabilities/xcron-capability-manifest-yaml/src/xcron/capabilities/manifest_yaml/_editor.py:91-170 | A successful update changes only the position that the lookup finds, a removal takes that position out, an addition appends, and an edit that is refused or changes no data leaves everything as it was. |
| `ManifestEditor.RunKeeps` | capabilities/xcron-capability-manifest-yaml/src/xcron/capabilities/manifest_yaml/_editor.py:91-271 | Any run of edits keeps a valid manifest valid, with unique ids, and keeps every job whose id no successful edit of the run took away or brought in, unchanged and in order. |
| `ManifestEditor.AddThenRemoveExactly` | capabilities/xcron-capability-manifest-yaml/src/xcron/capabilities/manifest_yaml/_editor.py:91-126 | Adding a job and removing it by its id gives back the manifest if and only if the new id was not the qualified id of an existing job; otherwise that job is the one removed. |
| `ManifestEditor.DotFreeRoundTrip` | capabilities/xcron-capability-manifest-yaml/src/xcron/capabilities/manifest_yaml/_editor.py:91-126 | For an id without a dot the round trip always gives back the manifest. |
| `EditPlans.DiffOfManifests` | capabilities/xcron-capability-scheduler-native/src/xcron/capabilities/scheduler_native/domain.py:44-71 | Against a state that is in place for one manifest, the plan for any other manifest is the difference of the two, id by id. |
| `EditPlans.OneEditOneChange` | capabilities/xcron-capability-manifest-yaml/src/xcron/capabilities/manifest_yaml/_editor.py:91-170 | From a project in place, a successful edit that renames no job yields one CREATE for an added job, one REMOVE for a removed one, the difference of the two versions for an updated one, and NOOP for every other job. |
| `EditPlans.RenameTwoChanges` | capabilities/xcron-capability-manifest-yaml/src/xcron/capabilities/manifest_yaml/_editor.py:129-152 | An update that renames the job yields one REMOVE of the old id, one CREATE of the new one, and NOOP for every other job. |
| `EditPlans.EnableKind` | capabilities/xcron-capability-manifest-yaml/src/xcron/capabilities/manifest_yaml/_editor.py:155-170 | For an update of `enabled` that one change is ENABLE or DISABLE, or nothing where the value was set already. |
| `EditPlans.CommandKind` | capabilities/xcron-capability-manifest-yaml/src/xcron/capabilities/manifest_yaml/_hashes.py:13-35 | For an update of the command it is UPDATE, or nothing where the command was the same. |
| `EditPlans.ShellKind` | capabilities/xcron-capability-manifest-yaml/src/xcron/capabilities/manifest_yaml/_normalization.py:25-25 | For an update of the shell it is UPDATE exactly if the shell that the job runs under changes, an empty text standing for the defaults' shell. |
| `EditPlans.WorkingDirKind` | capabilities/xcron-capability-manifest-yaml/src/xcron/capabilities/manifest_yaml/_normalization.py:24-24 | For an update of the working directory it is UPDATE exactly if the resolved directory changes. |
| `EditPlans.OverlapKind` | capabilities/xcron-capability-manifest-yaml/src/xcron/capabilities/manifest_yaml/_loader.py:133-133 | For an update of the overlap policy it is UPDATE exactly if the policy changes. |
| `ManifestCron.CronReadyExactly` | capabilities/xcron-capability-manifest-yaml/src/xcron/capabilities/manifest_yaml/_schema.py:58-136 | A validated manifest meets the premises of the cron results if and only if no id ends in a newline and every schedule is on one line. |
| `CronOneLine.InPlaceExactly` | capabilities/xcron-capability-scheduler-native/src/xcron/capabilities/scheduler_native/adapters/cron.py:104-264 | One managed apply of a manifest with jobs, on any crontab made of plain lines and blocks, plans as one NOOP per job afterwards if and only if its ids are free of white space and its schedules are on one line. |
| `CronOneLine.BrokenScheduleStuck` | capabilities/xcron-capability-scheduler-native/src/xcron/capabilities/scheduler_native/adapters/cron.py:213-238 | When the first job with a line break in its schedule is enabled, the block cannot be read after the apply, and every later apply and prune of the project is refused and changes nothing. |
| `CronLineBreaks.SpoiledAt` | capabilities/xcron-capability-scheduler-native/src/xcron/capabilities/scheduler_native/adapters/cron.py:169-238 | Reading back a block with a schedule that was printed over several lines either fails, or gives the first such job, if it is disabled, exactly once and as enabled. |
| `ManifestLaunchd.ArtifactIdKept` | packages/xcron-contracts/src/xcron/contracts/domain.py:290-293 | Sanitizing keeps the qualified id of schema-valid ids if and only if neither id ends in a newline. |
| `ManifestLaunchd.LaunchdReadyExactly` | capabilities/xcron-capability-manifest-yaml/src/xcron/capabilities/manifest_yaml/_schema.py:58-101 | A validated manifest meets the premises that the launchd results put on the manifest alone if and only if its project id has no final newline. |
| `ManifestLaunchd.ValidatedSettlesExactly` | capabilities/xcron-capability-scheduler-native/src/xcron/capabilities/scheduler_native/service.py:143-180 | A validated project without a newline at the end of its id that has nothing installed settles in two rounds of collecting, planning and applying if and only if every one of its schedules compiles, in whatever order the files are listed. |
| `ManifestLaunchd.ValidatedStartsRight` | capabilities/xcron-capability-scheduler-native/src/xcron/capabilities/scheduler_native/service.py:143-180 | From the stored manifest to launchd's files: whenever an apply of a validated project goes through, every job of the manifest starts as its schedule says, and every apply keeps what the next one needs for this. |
| `ManifestLaunchd.FreshCourse` | capabilities/xcron-capability-scheduler-native/src/xcron/capabilities/scheduler_native/service.py:121-132 | For such a project without final newlines in its job ids, collecting is all that those rounds need: labels are apart and every collected state has its plan. |
| `ManifestLaunchd.NewlineNeverSettles` | capabilities/xcron-capability-scheduler-native/src/xcron/capabilities/scheduler_native/adapters/launchd.py:372-373 | A project with jobs whose id ends in a newline never settles, whatever was applied before: the glob selects none of its files. |
| `ManifestCron.ValidatedInPlaceExactly` | capabilities/xcron-capability-scheduler-native/src/xcron/capabilities/scheduler_native/service.py:143-180 | A validated manifest with jobs that cron can express, once applied to any crontab made of plain lines and blocks, plans as one NOOP per job if and only if no id ends in a newline and every schedule is on one line. |
| `ManifestCron.BlockValueAccepted` | capabilities/xcron-capability-manifest-yaml/src/xcron/capabilities/manifest_yaml/_schema.py:104-136 | Both validations accept `0 9 * * *` with a final newline, as a literal block value gives it. |
| `ManifestCron.BlockValueStuck` | capabilities/xcron-capability-scheduler-native/src/xcron/capabilities/scheduler_native/adapters/cron.py:213-238 | A validated project with one enabled job on that schedule is stuck after its first managed apply: its block cannot be read and every later apply and prune is refused. |

## Left out

- CronHost.Host.ApplyCronPlan: reading and writing the crontab, running `crontab`, and writing wrapper files are assumed to succeed; time stamps, log paths and log events of the records are not carried.
- Launchd.Host.ApplyLaunchdPlan: launchctl calls are assumed to succeed, and the wrapper files beside the property lists are not carried; files are addressed by label rather than by path. The `Disabled` key is stored but, as in the code that reads it back, plays no part. A schedule number too large for the property list format is taken to be writable.
- Launchd.Host.CollectProjectState: files that fail to parse or lack the identity variables of a rendered job are not modelled.
- WrapperLock.LockInvAlways: the traps are installed in one step, and an inherited `LOCK_DIR` or `RUN_STARTED` environment variable is not modelled; output replay, events and metrics are steps without effect on the lock.
- Calendar.ParseCalendarField: `int()` is modelled on the characters that validation admits into a field, so signs and digits of other scripts do not arise, nor does Python's limit on the length of decimal text.
- LaunchdSchedule.RenderLaunchdSchedule: a calendar of one dictionary is a list of one, where the code drops the list.
- Intervals.EveryHoursExactly: the day and week forms of `every` are printed and read back, but their spacing is not compared; months and week days have no fixed cycle.
- CapabilityHost.Host.Registration: a provider's build is a finite list of require calls followed by success, malformed registration or failure; claims and port types are one flag each.
- ManifestSchema.ValidateSemantics: the two working-directory messages are one, and the three schedule messages are one.
- ManifestEditor.Editor.Mutate: YAML reading and writing and the order of keys within a job are not modelled; the head of the manifest is taken with its declared types, job entries are mappings, and Python's equality of 1 and True between raw values is not reproduced. A mapping used as an id is shown by a fixed text.
- Manifest.NormalizedContents: path resolution is a parameter; artifact ids keep only ASCII letters and digits where the code keeps those of every script, which no id that passes the schema contains.
- Manifest.ManifestHashExactly: JSON serialization is taken to be one-to-one on the payloads; the second manifest hash, `hash_normalized_manifest`, covers the same data and has no caller here.
- Workspace resolution, markers and the initializer: filesystem probing with shallow claims.
- The command line, SDK facades, settings, logs and metrics providers: thin wrappers and presentation.
- Agent hooks, version rewriting and the rest of the operations catalogue: text and I/O work beside the core.
