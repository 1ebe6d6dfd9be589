# HubCR verification

A Dafny model of the state machines, parsers and printers of HubCR, a control plane for a container
registry, and proofs of what they promise. Run `dafny verify dfyconfig.toml` to check it.

PostgreSQL tables are maps or sequences of rows. A transaction is one atomic step: it commits its
new tables or reports an error and leaves the old ones, and concurrent callers are arbitrary
interleavings of such steps, each with its own clock. What the source updates in place is a class
whose methods are proved against specification functions and predicates; what holds over whole runs
is proved about those. Cryptography, policies, clocks, random identifiers and other services are
parameters.

| files | what they model |
|---|---|
| `JobQueue`, `JobQueueRuns`, `JobQueueClaims`, `JobQueueLeases`, `JobStore` | the leased job queue: transactions, runs, claim order, leases, fencing, termination measure, the store |
| `ArtifactFacts`, `TagRegister`, `ArtifactStore`, `Notifications` | push events merged into artifact facts, frozen lists and tags; the tables; the replay of envelopes |
| `LoginLimiter` | fixed windows with lazy eviction against an eager limiter, and bounds over runs |
| `Security`, `SecurityTables`, `TrustTables`, `SecurityStore`, `WorkflowRepair` | security workflows and their jobs, trust policies, idempotent creation, repair |
| `SecurityProtocol` | workers, queue and results together: save before success, and reads at different moments |
| `Worker` | the claim loop, its counter and channel, shutdown, retry waits |
| `Organizations` | memberships, the last owner, and policy checks on stale reads |
| `Scopes`, `Tokens` | registry scopes, and the claims of tokens from issuer to verifier |
| `PasswordHash`, `Cosign` | Argon2id hash strings; DSSE encoding and candidate keys |
| `Base64`, `Decimal`, `Text`, `Wrappers` | encodings and strings shared by the others |

Five properties one might expect do not hold. Each has an input that shows it and the exact condition:

- Exhausted leases die at the next claim: a claim that finds no job undoes its sweep
  (`SweepMayBeUndone`, `DeadAfterClaimIff`).
- A report is fenced by its attempt: it is fenced by its worker alone
  (`EarlierAttemptIsNotFenced`, `FencedByWorkerAlone`).
- The newest push keeps the tag in every delivery order (`NewestMayLose`, `NewestWinsIff`).
- An attachment's verdict does not depend on the order of the candidate keys
  (`TwoOrdersDiffer`, `OrderMattersIff`).
- An accepted password hash is the text that is printed for it (`LeadingZeroIsRead`, `ReprintedIff`).

Rows of the table that begin with "(supporting)" are facts the results around them rest on.

Base64 follows sections 3.2, 3.5 and 4 of RFC 4648, token times sections 4.1.4 to 4.1.6 of RFC 7519,
the first byte of a JSON text sections 2 and 3 of RFC 8259, text lengths section 3 of
RFC 3629, and the pre-authentication encoding the PAE definition of the DSSE protocol document.

## Model

| member | source | states |
|---|---|---|
| `JobQueueRuns.StepKeepsTable` | backend/internal/platform/postgres/jobstore/store.go:39-229 | Enqueue, claim, Complete and Fail each keep every table constraint, one row per intent key and QUEUED below its attempt limit; a row changes only by a lifecycle move, never its identity or its first start time |
| `JobQueueRuns.ReachableTableOk` | backend/migrations/jobs.go:37-46 | in every interleaving, on any clocks, all rows meet the constraints and decode through `Job.Validate` |
| `JobQueueRuns.RunEvolves` | backend/internal/platform/postgres/jobstore/store.go:112-229 | over any run rows are kept, terminal rows keep every field, and start times stay |
| `JobQueueRuns.StepChangesRow` | backend/internal/platform/postgres/jobstore/store.go:112-229 | who may change a row in one step: the claim that leases it, a sweep, or the lease holder's report |
| `JobQueueRuns.ClaimHistory` | backend/internal/platform/postgres/jobstore/store.go:143-149 | a row's attempts are the number of its claims, and a running row is leased to its latest claimant |
| `JobQueueRuns.OnlyClaimantFinishes` | backend/internal/platform/postgres/jobstore/store.go:179-229 | Complete and Fail change a row only for the worker of its latest claim |
| `JobQueueRuns.LifetimeBound` | backend/internal/platform/postgres/jobstore/store.go:112-229 | a job is claimed at most max_attempts times and changes at most twice as often after it was enqueued |
| `JobQueueClaims.ClaimSelectsFirst` | backend/internal/platform/postgres/jobstore/store.go:112-177 | a claim leases the first eligible row in claim order, turns exactly the other exhausted leases to DEAD, or changes nothing |
| `JobQueueLeases.ClaimTakesDueRow` | backend/internal/platform/postgres/jobstore/store.go:131-149 | a claimed row was queued and due, or running with its lease at an end on the claim's clock; its attempts were below the maximum, its kind was asked for, and no other transaction held it |
| `JobQueueLeases.NoJobIff` | backend/internal/platform/postgres/jobstore/store.go:131-166 | a valid claim reports no job exactly when no row of that description is left unlocked |
| `JobQueueLeases.ClaimOrder` | backend/internal/platform/postgres/jobstore/store.go:138-141 | of two rows it may take, a claim takes the expired lease before the queued job, then the earlier lease end or due time, creation and identifier |
| `JobQueueLeases.SweepTakesExhausted` | backend/internal/platform/postgres/jobstore/store.go:119-125 | a successful claim turns to DEAD exactly the other rows whose lease ran out on the last attempt, with every column as the statement sets it |
| `JobQueueLeases.LeaseIsKept` | backend/internal/platform/postgres/jobstore/store.go:112-229 | over runs: while no claim's clock has reached a lease's end and its holder has not reported in time, the row stays as it is |
| `JobQueueLeases.LeaseLasts` | backend/internal/platform/postgres/jobstore/store.go:130 | a lease ends at the microsecond nearest to clock and duration |
| `JobQueueClaims.ClaimGuard` | backend/migrations/jobs.go:42-45 | (supporting) the constraints refuse to lease a candidate exactly for a clock behind the row or a lease that rounds to nothing |
| `JobQueueClaims.DeadAfterClaimIff` | backend/internal/platform/postgres/jobstore/store.go:118-168 | whether a claim turns an exhausted lease to DEAD, from what is known before it: exactly when the claim is valid, its lease does not round to nothing and its first candidate is no younger than its clock; otherwise the sweep is rolled back |
| `JobQueueClaims.SweepMayBeUndone` | backend/internal/platform/postgres/jobstore/store.go:164-166 | a lease that ended at 5 on its last attempt is still RUNNING after a claim at 10 that finds no job |
| `JobQueueClaims.ClaimSucceedsIff` | backend/internal/platform/postgres/jobstore/store.go:112-177 | a claim succeeds exactly under that condition on the table and the claim |
| `JobQueueClaims.ReportAccepted` | backend/internal/platform/postgres/jobstore/store.go:179-229 | (supporting) Complete and Fail take effect exactly for a valid report of the lease holder, and otherwise change nothing |
| `JobQueueClaims.FailRequeues` | backend/internal/platform/postgres/jobstore/store.go:210-221 | (supporting) a failed job is queued until its retry time while attempts remain, and dead otherwise |
| `JobQueueClaims.FencedByWorkerAlone` | backend/internal/platform/postgres/jobstore/store.go:179-229 | after a claim, a report is accepted exactly when it comes from the claim's worker on a clock before the lease's end and not behind the row, whichever attempt it is of |
| `JobQueueClaims.EarlierAttemptIsNotFenced` | backend/internal/platform/postgres/jobstore/store.go:184-188 | the completion of attempt 1, whose lease had ended at 5, is accepted on attempt 2 at 10 |
| `JobQueueClaims.StepUsesWork` | backend/internal/platform/postgres/jobstore/store.go:112-229 | every step that changes the table, except creating a row, strictly decreases the sum of twice the attempts left plus one for a running row |
| `JobQueueClaims.RunUsesWork` | backend/internal/platform/postgres/jobstore/store.go:39-229 | a run has no more effective steps than the work it began with and took on |
| `JobQueueClaims.EnqueueIsIdempotent` | backend/internal/platform/postgres/jobstore/store.go:60-81 | once an intent has its job, enqueueing it again at any later point of any run gives that job and changes nothing |
| `JobQueueClaims.EnqueueInTwoStatements` | backend/internal/platform/postgres/jobstore/store.go:60-81 | whatever happens between the insert and the read, the outcome is that of one step: the same error, or the same job as it has become by then |
| `JobQueueLeases.EnqueueMeets` | backend/internal/platform/postgres/jobstore/store.go:69-81 | an intent whose key is taken gives that job if kind, payload and maximum agree, and a conflict if not |
| `JobQueueLeases.EnqueueAdds` | backend/internal/platform/postgres/jobstore/store.go:54-67 | an intent whose key is new becomes one queued job with the intent's columns, and no other row changes |
| `JobQueueLeases.ReachableRow` | backend/migrations/jobs.go:37-46 | (supporting) the constraints that every row of every run meets, one by one |
| `JobQueueLeases.InputsAre` | backend/internal/modules/jobs/domain.go:75-217 | (supporting) which intents, claims, completions and failures are valid |
| `JobQueueLeases.RefusedWith` | backend/internal/platform/postgres/jobstore/store.go:39-229 | (supporting) which error invalid input gives, and that a report is answered with a lost lease exactly when its worker holds none in time |
| `JobQueueLeases.IdentifierIs` | backend/internal/modules/jobs/domain.go:33-65 | (supporting) kinds and error codes: an upper-case letter and up to 63 letters, digits and underscores |
| `JobQueueLeases.KeysAre` | backend/internal/modules/jobs/domain.go:219-241 | (supporting) intent keys and worker identifiers: up to 255 and 128 printable characters without a space |
| `JobStore.JobStore.Insert` | backend/internal/platform/postgres/jobstore/store.go:60-67 | the insert that yields to an existing intent key |
| `JobStore.JobStore.Read` | backend/internal/platform/postgres/jobstore/store.go:69-80 | the row of the key, compared with the intent |
| `JobStore.JobStore.Enqueue` | backend/internal/platform/postgres/jobstore/store.go:39-82 | validation and the two statements, in a transaction or undisturbed, as one step |
| `JobStore.JobStore.ClaimKinds` | backend/internal/platform/postgres/jobstore/store.go:88-110 | no kinds is no job, malformed or repeated kinds are refused, otherwise the claim step |
| `JobStore.JobStore.ClaimFrom` | backend/internal/platform/postgres/jobstore/store.go:112-177 | sweep, selection and lease in one transaction that rolls back on any error |
| `JobStore.JobStore.Complete` | backend/internal/platform/postgres/jobstore/store.go:179-200 | the fenced update to SUCCEEDED |
| `JobStore.JobStore.Fail` | backend/internal/platform/postgres/jobstore/store.go:202-229 | the fenced update to QUEUED or DEAD |
| `ArtifactFacts.ReconciledIsUpperBound` | backend/internal/platform/postgres/artifactstore/store.go:245-377 | a reconciled observation is contained in the facts, and nothing known before is lost |
| `ArtifactFacts.ReconciledIsLeast` | backend/internal/platform/postgres/artifactstore/store.go:245-377 | reconciling adds no more than the observation says: the result is the least view above both |
| `ArtifactFacts.PushedIsKnown` | backend/internal/platform/postgres/artifactstore/store.go:245-313 | the pushed artifact has the observed kind and whatever the observation gives of media type, size and source time |
| `ArtifactFacts.ListedIsKnown` | backend/internal/platform/postgres/artifactstore/store.go:329-339 | every listed descriptor is a manifest of the repository with the media type and size it gives |
| `ArtifactFacts.ListIsStored` | backend/internal/platform/postgres/artifactstore/store.go:340-352 | the stored list has the descriptors' digests in order, with OS, architecture and variant, an empty variant being none |
| `ArtifactFacts.NothingFromNowhere` | backend/internal/platform/postgres/artifactstore/store.go:534-575 | what is newly known of an artifact was given by its own push or by a listing of it |
| `ArtifactFacts.DigestIs` | backend/internal/modules/artifacts/domain.go:24-35 | (supporting) digests are sha256: and 64 lower-case hexadecimal digits |
| `ArtifactFacts.ReconcilesIff` | backend/internal/platform/postgres/artifactstore/store.go:39-80 | a list of observations succeeds if and only if one consistent view contains them all |
| `ArtifactFacts.Confluence` | backend/internal/platform/postgres/artifactstore/store.go:39-80 | if a list succeeds in one order, the same observations succeed in every order and number and leave the same facts, lists and completeness |
| `ArtifactFacts.RedeliveryIsNeutral` | backend/internal/platform/postgres/artifactstore/store.go:245-377 | delivering again what was reconciled changes no fact |
| `ArtifactFacts.DiscoveredAtEarliestMention` | backend/internal/platform/postgres/artifactstore/store.go:276-313 | the known artifacts are those mentioned, and discovered_at is the minimum of their observation times |
| `ArtifactStore.SameRowsIffSameChildren` | backend/internal/platform/postgres/artifactstore/store.go:518-532 | comparing child IDs in the tables agrees with comparing digests |
| `ArtifactStore.ArtifactStore.SameDescriptorRecords` | backend/internal/platform/postgres/artifactstore/store.go:518-532 | the loop answers equality of two row lists |
| `ArtifactStore.MergeRow` | backend/internal/platform/postgres/artifactstore/store.go:534-575 | merges kind-independent metadata and the times into a row, or reports a conflict |
| `ArtifactStore.ArtifactStore.ReconcileArtifact` | backend/internal/platform/postgres/artifactstore/store.go:245-313 | the row afterwards is the merge of the old facts with the observation; other rows are as they were |
| `ArtifactStore.ArtifactStore.ReconcileDescriptors` | backend/internal/platform/postgres/artifactstore/store.go:315-377 | freezes an index's list at the first observation, and later succeeds only for the same list |
| `ArtifactStore.ArtifactStore.ReconcileTag` | backend/internal/platform/postgres/artifactstore/store.go:379-433 | the tag after one observation: it moves to another artifact only on a strictly later time |
| `ArtifactStore.ArtifactStore.ListedDescriptors` | backend/internal/platform/postgres/artifactstore/store.go:435-476 | the children read back through their IDs are the list in the facts |
| `ArtifactStore.ArtifactStore.Commit` | backend/internal/platform/postgres/artifactstore/store.go:22-85 | one observation as one transaction: facts and tags move together, and an error leaves every table as it was |
| `ArtifactStore.ArtifactStore.Reconcile` | backend/internal/platform/postgres/artifactstore/store.go:22-85 | and what it leaves in the rows: kind and metadata of the pushed artifact, a manifest for every descriptor with the media type and size it gives, and the list entry by entry |
| `TagRegister.TagMovesForward` | backend/internal/platform/postgres/artifactstore/store.go:403-428 | a tag's time never decreases, and it points elsewhere only at a strictly later one |
| `TagRegister.DeliveryIs` | backend/internal/platform/postgres/artifactstore/store.go:386-432 | (supporting) the first delivery creates a tag at its time; only a strictly later one of another artifact changes it |
| `TagRegister.RedeliveryIsNoopIff` | backend/internal/platform/postgres/artifactstore/store.go:403-428 | redelivery in any order is a no-op if and only if every delivery is of the tagged artifact or no newer than the tag |
| `TagRegister.RedeliveryAfterIncreasing` | backend/internal/platform/postgres/artifactstore/store.go:379-433 | after first deliveries at increasing times the tag is the last one and any redelivery changes nothing |
| `TagRegister.NewestWinsWithOneTimeEach` | backend/internal/platform/postgres/artifactstore/store.go:379-433 | with one time per artifact every order, with repetitions, ends at the newest |
| `TagRegister.NewestMayLose` | backend/internal/platform/postgres/artifactstore/store.go:403-428 | A at 1, A at 10, B at 5 ends at B: the newest observation does not always win |
| `TagRegister.NewestWinsIff` | backend/internal/platform/postgres/artifactstore/store.go:379-433 | the newest observation wins in every order, with any repetitions, exactly when all observations of other artifacts lie before it and at or before every one of its own artifact |
| `TagRegister.NewestLosesIff` | backend/internal/platform/postgres/artifactstore/store.go:403-428 | (supporting) the same for one more delivery to a tag that is on the newest observation |
| `TagRegister.RepeatedPartIff` | backend/internal/platform/postgres/artifactstore/store.go:403-428 | delivering a list again after a part of it leaves the tag as one delivery does, however the list goes on, exactly when the tag was settled for that part |
| `Notifications.NotificationService.Process` | backend/internal/modules/registry/notification.go:96-141 | replays an envelope of 1 to 100 events; success means every event passed, and a failure is the error of one event, with all before it passed and kept; an envelope of another size is invalid and changes nothing |
| `Notifications.SplitRepositoryIff` | backend/internal/modules/registry/notification.go:203-209 | a path is split exactly when one slash stands between two parts that are not empty |
| `Notifications.RetriedEnvelopeConverges` | backend/internal/modules/registry/notification.go:96-141 | an envelope that failed part-way any number of times and is delivered again leaves the facts of one clean delivery |
| `Notifications.RetriedEnvelopeTag` | backend/internal/modules/registry/notification.go:96-141 | and leaves a tag as one clean delivery does, if the tag was settled for the part that failed |
| `Notifications.TagsFollowDeliveries` | backend/internal/modules/registry/notification.go:96-141 | each tag follows its own deliveries through an envelope |
| `Notifications.PushDelivers` | backend/internal/modules/registry/notification.go:162-165 | a push with a tag delivers its digest at its time to that tag of its repository, and to no other |
| `Notifications.KindIff` | backend/internal/modules/registry/notification.go:189-201 | a push stands for a manifest or an index exactly by its media type, and nothing else does |
| `Notifications.ObservationIs` | backend/internal/modules/registry/notification.go:143-187 | the observation carries the event's digest, time, kind, metadata and tag, for the repository its path resolves to |
| `Notifications.ReferenceIs` | backend/internal/modules/registry/notification.go:166-185 | each reference is observed with its digest, size and platform, and its media type unless that is empty |
| `Notifications.ObservedIff` | backend/internal/modules/registry/notification.go:105-122 | (supporting) which events are ignored, invalid, or of a repository that cannot be resolved |
| `Notifications.NormalIff` | backend/internal/modules/artifacts/domain.go:175-250 | (supporting) what an observation and each descriptor of its list must meet |
| `Notifications.TextIs` | backend/internal/modules/artifacts/domain.go:276-290 | (supporting) texts: not empty or too long, no white space at the ends, no control characters |
| `Notifications.TagIs` | backend/internal/modules/artifacts/domain.go:41-46 | (supporting) tags: a letter, digit or underscore and up to 127 of these, dots and hyphens |
| `Notifications.TargetedIff` | backend/internal/modules/registry/notification.go:127-132 | (supporting) a security target wants two names of at most 128 characters |
| `Notifications.ErrorIs` | backend/internal/modules/registry/notification.go:219-229 | (supporting) only a conflict of facts is reported as a conflict |
| `LoginLimiter.MemoryLoginLimiter.Allow` | backend/internal/modules/auth/limiter.go:58-101 | decides on unexpired entries alone; a refusal leaves every live count as it was, and only expired entries are ever evicted |
| `LoginLimiter.MemoryLoginLimiter.RemoveExpired` | backend/internal/modules/auth/limiter.go:111-117 | removes exactly the expired entries |
| `LoginLimiter.MemoryLoginLimiter.Succeeded` | backend/internal/modules/auth/limiter.go:105-109 | clears the account's entry and no other |
| `LoginLimiter.NewMemoryLoginLimiter` | backend/internal/modules/auth/limiter.go:43-56 | options that are not configured give no limiter |
| `LoginLimiter.LazyRefinesEager` | backend/internal/modules/auth/limiter.go:58-117 | over any run on a forward clock the lazy map admits what an eagerly evicted one admits, and shows the same live entries |
| `LoginLimiter.AllowedIff` | backend/internal/modules/auth/limiter.go:71-91 | an attempt gets in exactly when neither its account nor its client has used up its limit in an open window and there is room for the windows it opens |
| `LoginLimiter.AllowedCounts` | backend/internal/modules/auth/limiter.go:92-99 | an attempt that gets in adds one to both counts, in the open window or a new one; a refused one changes no open window |
| `LoginLimiter.NextIsAdmittedIff` | backend/internal/modules/auth/limiter.go:58-101 | over runs: the next attempt gets in exactly when fewer admissions than the limit lie in the open window of its account, since its last success, and of its client, and there is room |
| `LoginLimiter.FifthOfFive` | backend/internal/modules/auth/limiter.go:82-84 | with a limit of five the fifth attempt gets in and the sixth does not |
| `LoginLimiter.KeysAre` | backend/internal/modules/auth/limiter.go:64-65 | (supporting) usernames share a budget without regard to white space around them and ASCII case |
| `LoginLimiter.AtMostLimitPerWindow` | backend/internal/modules/auth/limiter.go:82-99 | a key is admitted at most its limit of times in one window |
| `LoginLimiter.AtMostTwiceInAnyWindow` | backend/internal/modules/auth/limiter.go:72-99 | a half-open interval of a window's length holds at most twice the limit less one admissions, for an account between its successes |
| `Security.KeysDiffer` | backend/internal/modules/security/domain.go:116-130 | intent keys of scans, bills of materials and verifications are equal only for the same kind, image and policy |
| `Security.PayloadFixesPurpose` | backend/internal/modules/security/domain.go:83-114 | a stored payload can be read back as one purpose and target only |
| `Security.IntentIsValid` | backend/internal/platform/postgres/securitystore/store.go:424-441 | every intent the stores build passes the queue's validation |
| `Security.TargetIff` | backend/internal/modules/security/domain.go:49-60 | (supporting) what a target must be: a digest, the text of a UUID, and two names of at most 128 characters |
| `SecurityTables.EnsureOutcome` | backend/internal/platform/postgres/securitystore/store.go:26-94 | EnsureWorkflow on a known target: the first call adds one workflow with its two jobs, a later one changes nothing, and no conflict is reported unless a drawn identifier is taken |
| `SecurityTables.CreatedJobs` | backend/internal/platform/postgres/securitystore/store.go:47-71 | a created workflow has its own scan job and its own job for the bill of materials: kinds, keys, payload, three attempts, queued and due at once |
| `SecurityTables.PayloadReads` | backend/internal/modules/security/domain.go:83-97 | (supporting) the members of a payload, in the column's order |
| `SecurityTables.EnsureErrorIs` | backend/internal/platform/postgres/securitystore/store.go:31-46 | (supporting) which targets are invalid, not found or under other names |
| `SecurityTables.EnsureKeepsInv` | backend/internal/platform/postgres/securitystore/store.go:39-89 | every outcome keeps each workflow bound to jobs of its own and each security job bound to a workflow |
| `SecurityTables.QueueKeepsInv` | backend/internal/platform/postgres/securitystore/store.go:26-94 | whatever workers do to the queue keeps those bindings |
| `TrustTables.CurrentIff` | backend/internal/platform/postgres/securitystore/truststore.go:381-387 | a namespace has exactly one current policy once it has any |
| `TrustTables.CreatePolicyKeepsInv` | backend/internal/platform/postgres/securitystore/truststore.go:39-92 | versions are numbered from one without gaps or repetition, and a new policy becomes the current one |
| `TrustTables.CreatePolicyIs` | backend/internal/platform/postgres/securitystore/truststore.go:23-61 | (supporting) which policies are created, each with a version one above the highest, and which error the others give |
| `TrustTables.EnsureVerificationOutcome` | backend/internal/platform/postgres/securitystore/truststore.go:99-172 | EnsureCurrentVerification: nothing without a policy, one workflow and job per image and current policy, no conflict unless a drawn identifier is taken |
| `TrustTables.CreatedVerification` | backend/internal/platform/postgres/securitystore/truststore.go:118-155 | a created verification has its job under the current policy's key, queued and due at once |
| `TrustTables.EnsureVerificationKeepsInv` | backend/internal/platform/postgres/securitystore/truststore.go:110-167 | every outcome keeps the bindings |
| `SecurityStore.SecurityStore.EnsureWorkflow` | backend/internal/platform/postgres/securitystore/store.go:26-94 | the transaction, with its rollback, is the step above |
| `SecurityStore.SecurityStore.CreateTrustPolicy` | backend/internal/platform/postgres/securitystore/truststore.go:16-97 | the transaction is the policy step above |
| `SecurityStore.SecurityStore.CurrentPolicy` | backend/internal/platform/postgres/securitystore/truststore.go:381-387 | the row of the highest version |
| `SecurityStore.SecurityStore.EnsureCurrentVerification` | backend/internal/platform/postgres/securitystore/truststore.go:99-172 | the transaction, with its rollback, is the step above |
| `SecurityStore.SecurityStore.FirstPage` | backend/internal/platform/postgres/securitystore/store.go:104-116 | the oldest rows first, up to the limit, in one strict order |
| `SecurityStore.SecurityStore.Repair` | backend/internal/platform/postgres/securitystore/store.go:96-136 | an undisturbed pass repairs exactly the oldest missing workflows up to its limit and counts them |
| `WorkflowRepair.StepRepairs` | backend/internal/platform/postgres/securitystore/store.go:120-134 | repairing a missing image succeeds, creates its workflow, and leaves the other missing ones missing |
| `WorkflowRepair.AfterPasses` | backend/internal/platform/postgres/securitystore/store.go:96-136 | after k passes max(0, n - k * limit) of n missing workflows are missing |
| `WorkflowRepair.OldestFirst` | backend/internal/platform/postgres/securitystore/store.go:113-114 | no image discovered earlier is left missing by a pass that repairs one discovered later |
| `WorkflowRepair.RepairConverges` | backend/internal/platform/postgres/securitystore/truststore.go:174-277 | enough passes leave every artifact with its workflow, per current policy for verifications, each with jobs no other workflow has |
| `SecurityProtocol.NextKeeps` | backend/internal/modules/security/handler.go:59-111 | claim, resolve, save, complete, fail, crash and every registry step keep result rows ahead of success |
| `SecurityProtocol.ReachableSystemOk` | backend/internal/app/worker/app.go:284-337 | in every run, with crashes, reclaimed leases and stale handlers, a workflow's job has succeeded only if its result row exists |
| `SecurityProtocol.ResolvesIffBound` | backend/internal/platform/postgres/securitystore/store.go:138-166 | a claimed job resolves if and only if a workflow is bound to it, and to that one alone |
| `SecurityProtocol.HandlerSucceeds` | backend/internal/modules/security/handler.go:59-84 | in every run a handler that has claimed a bound job can resolve, save and, while it holds the lease, complete it |
| `SecurityProtocol.RunIsLater` | backend/internal/platform/postgres/securitystore/store.go:168-253 | over any run workflows stay, jobs only evolve, and result rows are never removed |
| `SecurityProtocol.JobFirstNeverMisses` | backend/internal/platform/postgres/securitystore/store.go:255-346 | reading the job and later the result, at any points of a run, never shows a succeeded job as failed: RESULT_MISSING does not occur |
| `SecurityProtocol.DetailOfScan` | backend/internal/platform/postgres/securitystore/store.go:259-301 | the scan's part of the page, from the workflow's scan job and later its report: queued, running, failed, stale or completed by the job's state alone |
| `SecurityProtocol.DetailOfSbom` | backend/internal/platform/postgres/securitystore/store.go:272-305 | the same for the bill of materials, from its own job and row |
| `SecurityProtocol.DetailOfVerification` | backend/internal/platform/postgres/securitystore/store.go:348-386 | the same for a verification under a policy |
| `SecurityProtocol.StatusIs` | backend/internal/modules/security/domain.go:273-301 | what a status shows of a job in each state, with attempts, time and a dead job's code |
| `SecurityProtocol.SaveAdds` | backend/internal/platform/postgres/securitystore/store.go:168-253 | saving adds the row of that workflow and kind of result, and no other |
| `SecurityProtocol.FinishNeedsSave` | backend/internal/modules/security/handler.go:80-84 | a handler of a security job that has saved nothing does not complete it |
| `SecurityProtocol.ResultFirstMayMiss` | backend/internal/modules/security/domain.go:273-301 | with the reads the other way round it would occur, whenever a save and a completion fall in between |
| `Worker.StepKeeps` | backend/internal/app/worker/app.go:218-272 | (supporting) every step keeps `active` equal to running handlers plus waiting signals, within the limit, and every handler accounted for once |
| `Worker.SendNeverBlocks` | backend/internal/app/worker/app.go:222-255 | in every run the limit bounds the handlers and a handler that returns can signal at once |
| `Worker.StoppedMeansSignalled` | backend/internal/app/worker/app.go:339-357 | zero active jobs are reported only when every handler has signalled, and always unless shutdown timed out |
| `Worker.DrainingGoesOn` | backend/internal/app/worker/app.go:346-354 | shutdown is never stuck: a signal waits or a handler can send one |
| `Worker.DrainingEnds` | backend/internal/app/worker/app.go:346-354 | each signal or receive uses up one unit of the work left, and shutdown ends exactly when none is left |
| `Worker.DrainingStops` | backend/internal/app/worker/app.go:344-356 | (supporting) draining ends by the timer with the handlers still active, or by the last signal |
| `Worker.NoLaunchAfterCancel` | backend/internal/app/worker/app.go:242-265 | once cancelled, the worker starts no further handler |
| `Worker.RoomIsUsed` | backend/internal/app/worker/app.go:242-271 | (supporting) signals and the poll timer lead back to claiming, which goes on until no room or no job is left |
| `Worker.CancelledShutsDown` | backend/internal/app/worker/app.go:258-265 | (supporting) a cancelled worker leaves its loop by shutting down, at once if nothing is active |
| `Worker.RetryBackoff` | backend/internal/app/worker/app.go:359-371 | on 64-bit durations the loop gives min(base * 2^(attempt-1), limit) for every attempt, without overflow |
| `Worker.BackoffGrows` | backend/internal/app/worker/app.go:359-371 | the wait stays within base and limit and doubles until the limit |
| `Worker.BackoffIsMonotone` | backend/internal/app/worker/app.go:359-371 | a later attempt never waits less |
| `Organizations.ReachableTablesOk` | backend/internal/platform/postgres/organizationstore/store.go:20-209 | in every interleaving of requests, with any policy on stale reads, every organisation has an owner and a namespace of its own, and no user two memberships |
| `Organizations.LastOwnerIff` | backend/internal/platform/postgres/organizationstore/store.go:151-153 | demotion or removal is refused for the last owner exactly when the user is the sole owner |
| `Organizations.CreateMakesOwner` | backend/internal/platform/postgres/organizationstore/store.go:29-47 | a new organisation has its namespace and its creator as its one member, an owner; no other membership changes |
| `Organizations.OnlyTheMemberChanges` | backend/internal/platform/postgres/organizationstore/store.go:115-190 | a committed member transaction sets one user's role in one organisation and touches no other |
| `Organizations.AddSucceedsIff` | backend/internal/platform/postgres/organizationstore/store.go:115-130 | adding succeeds exactly for a known role, organisation, user and adder, and a user who is no member yet |
| `Organizations.AddFailsWith` | backend/internal/platform/postgres/organizationstore/store.go:115-130 | (supporting) which error each failing addition gives |
| `Organizations.ChangeSucceedsIff` | backend/internal/platform/postgres/organizationstore/store.go:132-190 | a change or removal succeeds exactly for a member who is not the sole owner about to be lost |
| `Organizations.ChangeFailsWith` | backend/internal/platform/postgres/organizationstore/store.go:132-190 | (supporting) a change or removal is not found exactly without the organisation or the member |
| `Organizations.CreateSucceedsIff` | backend/internal/platform/postgres/organizationstore/store.go:20-52 | an organisation is created exactly by a known user as its owner, under a namespace and a name that are free |
| `Organizations.ParseRoleIff` | backend/internal/modules/organizations/domain.go:26-34 | (supporting) the four role texts |
| `Organizations.CommitWasPermitted` | backend/internal/modules/organizations/service.go:104-163 | whenever a commit changes the tables, the policy had allowed that request - to assign the role, to change the target, to remove it - on roles the actor and then the target held earlier, and the commit sets that target's role and no other |
| `Organizations.CommittedWasPermitted` | backend/internal/modules/organizations/service.go:104-163 | (supporting) every pending request has such reads behind it |
| `Organizations.OrganizationStore.CreateWithOwner` | backend/internal/platform/postgres/organizationstore/store.go:20-52 | the transaction, its checks and its conflicts |
| `Organizations.OrganizationStore.AddMember` | backend/internal/platform/postgres/organizationstore/store.go:115-130 | the transaction, its checks and its conflicts |
| `Organizations.OrganizationStore.ChangeMemberRole` | backend/internal/platform/postgres/organizationstore/store.go:132-164 | the transaction, with the count of owners that guards a demotion |
| `Organizations.OrganizationStore.RemoveMember` | backend/internal/platform/postgres/organizationstore/store.go:166-190 | the transaction, with the count of owners that guards a removal |
| `Scopes.ParsesIff` | backend/internal/modules/registry/scope.go:54-96 | a value is accepted as a scope if and only if it is at most 512 bytes and one of that scope's texts, its actions in any order and number |
| `Scopes.ParseScope` | backend/internal/modules/registry/scope.go:54-96 | the loop over the actions computes that parse |
| `Scopes.OrderedActions` | backend/internal/modules/registry/scope.go:98-107 | the members of the set, in pull, push, delete order |
| `Scopes.OrderIs` | backend/internal/modules/registry/scope.go:13-13 | ordered actions never repeat and come as pull, push, delete |
| `Scopes.ReadsParts` | backend/internal/modules/registry/scope.go:54-96 | a value that asks for push, pull and push again is read as its parts and the two actions |
| `Scopes.ActionWords` | backend/internal/modules/registry/domain.go:17-21 | (supporting) the three action words |
| `Text.NameGrammar` | backend/internal/modules/namespaces/name.go:13-25 | (supporting) names are what the pattern matches: words with single separators between them |
| `Text.LessAtDifference` | backend/internal/modules/registry/scope.go:43 | (supporting) names are ordered by their first difference |
| `Text.LessThanLonger` | backend/internal/modules/registry/scope.go:43 | (supporting) a name comes after those it starts with |
| `Scopes.OrderedMembers` | backend/internal/modules/registry/scope.go:98-107 | ordering keeps exactly the members |
| `Scopes.SortedNames` | backend/internal/modules/registry/scope.go:39-43 | the names of a map, each once, strictly increasing |
| `Scopes.ParseScopes` | backend/internal/modules/registry/scope.go:15-52 | succeeds exactly for at most 16 well-formed values; names strictly increase and the name and action pairs are those asked for |
| `Scopes.OnlyRequestsMatter` | backend/internal/modules/registry/scope.go:15-52 | two lists of values give the same result if and only if they ask for the same pairs |
| `Scopes.SameValuesSameScopes` | backend/internal/modules/registry/scope.go:15-52 | (supporting) order and repetition of values matter neither to acceptance nor to the result |
| `Scopes.ActionsAreUnion` | backend/internal/modules/registry/scope.go:21-37 | each scope's actions are the union of what the values of its name ask for |
| `Scopes.ParsedSurvivesPrinting` | backend/internal/modules/registry/scope.go:15-107 | printing a result and parsing it again is the identity, within both limits |
| `Tokens.ValidateShape` | backend/internal/modules/registry/jwt.go:317-345 | the loops accept exactly distinct names whose entries parse back to themselves |
| `Tokens.AccessOkIff` | backend/internal/modules/registry/jwt.go:324-343 | an access entry is accepted if and only if it names a valid repository with no actions or ordered ones |
| `Tokens.Authorize` | backend/internal/modules/registry/service.go:228-291 | the granted actions of one scope, none for an unknown repository, or the policy cannot be resolved |
| `Tokens.Issue` | backend/internal/modules/registry/service.go:88-122 | the claims of a request, which always have the right shape, and which error each failing step gives |
| `Tokens.IssuedShape` | backend/internal/modules/registry/service.go:173-197 | whatever Issue signs passes `validateClaimsShape`: its scopes, narrowed and printed, parse back to themselves |
| `Tokens.PushGrantedIff` | backend/internal/modules/registry/service.go:244-271 | push is in a token exactly when a value asks for it, the subject is named, and the policy says that the owner of the personal namespace, or the member by role, may push |
| `Tokens.PullGrantedIff` | backend/internal/modules/registry/service.go:239-271 | pull is in a token exactly when a value asks for it and the policy allows public pulls of what is public, or lets the named subject pull private repositories |
| `Tokens.NothingElseGranted` | backend/internal/modules/registry/service.go:281-290 | no token grants anything but pull and push |
| `Tokens.GrantedIffRequestedAndAllowed` | backend/internal/modules/registry/service.go:228-291 | (supporting) the same through the function that decides a scope; delete is never granted |
| `Tokens.UndecidedIff` | backend/internal/modules/registry/service.go:229-273 | (supporting) a scope cannot be decided exactly when its policy is unreachable or its namespace has no known owner for a named subject |
| `Tokens.SubjectIff` | backend/internal/modules/registry/service.go:199-226 | (supporting) only a request without credentials is anonymous; another subject is who the authenticator says |
| `Tokens.RequestOkIff` | backend/internal/modules/registry/service.go:88-95 | (supporting) requests are for the service, of a short printable client, with at most 16 well-formed values |
| `Tokens.ShapeIff` | backend/internal/modules/registry/jwt.go:317-345 | (supporting) the shape that is signed and verified, clause by clause |
| `Tokens.AcceptsIff` | backend/internal/modules/registry/jwt.go:292-305 | (supporting) what a verifier wants of any claims at a clock |
| `Tokens.TimesOf` | backend/internal/modules/registry/service.go:182-191 | (supporting) the times in issued claims, from the clock, the life and the skew |
| `Tokens.OptionsIff` | backend/internal/modules/registry/service.go:66-72 | (supporting) tokens live 60 to 900 whole seconds, and clocks may differ by up to a minute |
| `Tokens.AcceptedExactlyWithin` | backend/internal/modules/registry/jwt.go:292-305 | a verifier accepts issued claims exactly for its issuer and audience and clocks in [iat - skew, iat + TTL) |
| `Tokens.AcceptedWhenIssued` | backend/internal/modules/registry/jwt.go:292-305 | a token is accepted from its issue on for its life less a second |
| `Tokens.IssuePull` | backend/internal/modules/registry/service.go:159-171 | accepts exactly valid repository paths, and signs claims for pulling that path only |
| `Tokens.PullAcceptedExactlyWithin` | backend/internal/modules/registry/jwt.go:292-305 | the same window for pull tokens |
| `PasswordHash.ParseOfFormat` | backend/internal/modules/auth/password.go:49-151 | parsing a printed hash gives back parameters, salt and key if the parameters are in range, and an error if not |
| `PasswordHash.DefaultText` | backend/internal/modules/auth/password.go:31-71 | the text of a hash with the default parameters |
| `PasswordHash.VerifyOfHash` | backend/internal/modules/auth/password.go:74-88 | Verify accepts what Hash produced, and another password exactly when it derives the same key |
| `PasswordHash.NeedsRehashIff` | backend/internal/modules/auth/password.go:90-93 | a hash is due for renewal if and only if the parameters have changed |
| `PasswordHash.UnreadableNeedsRehash` | backend/internal/modules/auth/password.go:90-93 | (supporting) a text that is no hash is an error to verify and always due for renewal |
| `PasswordHash.ParsedIsInRange` | backend/internal/modules/auth/password.go:95-151 | (supporting) no accepted text hands Argon2id parameters out of range |
| `PasswordHash.ReprintedIff` | backend/internal/modules/auth/password.go:95-151 | an accepted text is the printed form exactly when it has no leading zeros and no line breaks |
| `PasswordHash.LeadingZeroIsRead` | backend/internal/modules/auth/password.go:142-151 | every printed hash is also read, to the same parts, with a zero put before its memory cost |
| `Base64.RoundTrip` | backend/internal/modules/auth/password.go:69-70 | unpadded base64 decodes to the bytes that were encoded |
| `Base64.Canonical` | backend/internal/modules/auth/password.go:105-112 | the strict decoder accepts only what is printed, but for line breaks |
| `Base64.Vectors` | backend/internal/modules/auth/password.go:69-70 | (supporting) the test vectors of section 10 of RFC 4648 |
| `Base64.BreaksArePassedOver` | backend/internal/modules/auth/password.go:105-112 | (supporting) the decoder passes over carriage returns and line feeds and nothing else |
| `Base64.AlphabetIs` | backend/internal/modules/auth/password.go:69-70 | (supporting) the alphabet of section 4 of RFC 4648 |
| `Decimal.ValueOfPrint` | backend/internal/modules/auth/password.go:142-151 | a printed numeral has the value that was printed |
| `Text.SplitOfJoin` | backend/internal/modules/auth/password.go:95-117 | parts without the separator survive joining and splitting |
| `Cosign.EncodingIsInjective` | backend/internal/platform/scanner/cosign/cosign.go:443-445 | equal pre-authentication encodings have equal types and payloads, for all bytes |
| `Cosign.EncodingOfTwelve` | backend/internal/platform/scanner/cosign/cosign.go:443-445 | (supporting) the encoding of twelve bytes of a type of one letter, byte by byte |
| `Cosign.SignedPayloadFixesRecord` | backend/internal/platform/scanner/cosign/cosign.go:346-349 | a bare JSON payload and an envelope never sign the same bytes |
| `Cosign.VerificationFixesRecord` | backend/internal/platform/scanner/cosign/cosign.go:417-433 | where a signature is good for one message only, verification fixes type and payload |
| `Cosign.VerifyKeys` | backend/internal/platform/scanner/cosign/cosign.go:120-128 | marks every attachment in place, key by key |
| `Cosign.VerdictIs` | backend/internal/platform/scanner/cosign/cosign.go:175-190 | the first candidate whose check accepts an attachment, or whose hint it names, settles it: valid by that key if its check accepts the payload and signature, neither empty, and invalid if not |
| `Cosign.NoVerdict` | backend/internal/platform/scanner/cosign/cosign.go:175-190 | an attachment that no check accepts and that names no candidate stays undecided |
| `Cosign.VerifiedIff` | backend/internal/platform/scanner/cosign/cosign.go:175-192 | (supporting) the same through the first deciding candidate |
| `Cosign.OrderMattersIff` | backend/internal/platform/scanner/cosign/cosign.go:168-192 | some orders of the candidates verify an attachment and others do not, exactly when one candidate verifies it and another is named by it without verifying it |
| `Cosign.TwoOrdersDiffer` | backend/internal/platform/scanner/cosign/cosign.go:175-190 | an attachment that is valid with two keys in one order and invalid in the other |
| `Cosign.VerifiedInEveryOrderIff` | backend/internal/platform/scanner/cosign/cosign.go:168-192 | every order verifies an attachment exactly when some candidate verifies it and none is named by it without verifying it |
| `Cosign.VerifiedInSomeOrderIff` | backend/internal/platform/scanner/cosign/cosign.go:168-192 | some order verifies an attachment exactly when some candidate does |

## Left out

- The frontend, the HTTP handlers, configuration, observability and the check scripts: plumbing and user interface.
- RSA, ECDSA, Ed25519, SHA-256, Argon2id, X.509, PEM and JWT encoding: uninterpreted functions or parameters; the JSON text of claims and headers is not modelled.
- Trivy and Cosign runs, the parsing of their output, and keyless identities, which are matched through a foreign process.
- Lock waits, deadlocks, isolation levels and lost connections: a transaction is one step, and a claim may skip any set of locked rows.
- Collisions of random identifiers are a conflict that rolls back; that they are improbable is not stated.
- Sizes of payloads, documents and findings, and the fields of findings and tool versions: a result is a row that is there or not, so staleness is a parameter of `StatusFromJob`.
- Payloads are compared by the text that a jsonb column keeps for what the stores write; other spellings of the same object are not parsed.
- Repository and namespace names never change once created; the source has no operation that renames them.
- The keys and identities of a trust policy count only by their number, and the candidate keys of a namespace are a parameter.
- Listing, paging, RemoveTag and the read-only queries beside those named above: single statements.
- `UpdatedAt` of artifacts is kept in the tables but not in the facts, because it depends on the order of delivery.
- EnsureWorkflow, as Process calls it, is one flag per event: any error it reports becomes the same one there.
- LoginLimiter.MemoryLoginLimiter.Allow: usernames are lowered as ASCII text.
- LoginLimiter.AtMostTwiceInAnyWindow: assumes, as LazyRefinesEager and AtMostLimitPerWindow do, a clock that does not go back between calls; the source reads its clock before it takes the mutex, so concurrent calls can enter slightly out of order.
- The worker's loop is a set of steps on its variables rather than a method, because handlers, timers and cancellation come in between at any point.
- The worker's logging, repair tick and poll interval have no effect on the counter, so they are left out of its steps.
- Tokens.Issue: the token identifier is a parameter that is not empty, and the signed text of the claims is not built.
- A member request that the policy refuses is dropped; which error the service returns then is not modelled.
