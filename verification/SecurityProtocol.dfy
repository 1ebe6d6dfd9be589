/**
 The protocol between workers, the job queue and the security tables: a handler claims a job,
 resolves its workflow, saves a result, and only then completes the job. Handlers on any number
 of workers interleave, crash, outlive their leases, and repeat what others already did.
 */
module SecurityProtocol {
  import opened Wrappers
  import opened Security
  import opened SecurityTables
  import opened TrustTables
  import opened JobQueue
  import JobQueueRuns

  /** How far a handler has come with its job. */
  datatype Stage = Started | Resolved(p: Purpose) | Saved(p: Purpose)

  /** A running handler, with the row its claim returned. */
  datatype Handler = Handler(job: Job, worker: WorkerId, stage: Stage)

  /** The database, the workflows that have result rows, and the running handlers. */
  datatype System = System(
    db: Database,
    reports: set<Id>,
    sboms: set<Id>,
    verifications: set<Id>,
    handlers: map<nat, Handler>)

  datatype Event =
    | AddNamespace(namespaceId: string)
    | AddRepository(repositoryId: string, repository: Repository)
    | AddArtifact(subject: Subject, at: Time)
    | CreatePolicy(namespaceId: string, subjects: nat, policyId: Uuid)
    | EnsureWorkflow(target: Target, now: Time, ids: NewIds)
    | EnsureVerification(target: Target, now: Time, ids: NewIds)
    | EnqueueOther(intent: Intent, now: Time, newId: RowId)
    | ClaimJob(h: nat, claim: Claim, kinds: seq<string>, locked: set<RowId>)
    | Resolve(h: nat)
    | Save(h: nat)
    | Finish(h: nat, now: Time)
    | GiveUp(h: nat, now: Time, code: string, retryAt: Time, terminal: bool)
    | Crash(h: nat)

  /** ResolveJob and ResolveVerificationJob: the payload's target has a workflow bound to this job. */
  ghost predicate Resolves(db: Database, job: Job, p: Purpose) {
    Validates(job) && Bound(db, p) == Some(job.id) && p.of.repositoryId in db.repositories
    && Reads(job.kind, job.payload, p, TargetOf(db, p.of))
  }

  /** The result row of the workflow for a purpose. */
  predicate HasResult(sys: System, p: Purpose) {
    match p
    case Scan(s) => s in sys.db.workflows && sys.db.workflows[s].id in sys.reports
    case Sbom(s) => s in sys.db.workflows && sys.db.workflows[s].id in sys.sboms
    case Verify(s, policy, _) =>
      (s, policy) in sys.db.signatures && sys.db.signatures[(s, policy)].id in sys.verifications
  }

  /** The upsert of a result row, under a lock on a workflow row that still matches. */
  function WithResult(sys: System, p: Purpose): System
    requires Bound(sys.db, p).Some?
  {
    match p
    case Scan(s) => sys.(reports := sys.reports + {sys.db.workflows[s].id})
    case Sbom(s) => sys.(sboms := sys.sboms + {sys.db.workflows[s].id})
    case Verify(s, policy, _) =>
      sys.(verifications := sys.verifications + {sys.db.signatures[(s, policy)].id})
  }

  predicate IsSecurityKind(kind: string) {
    kind == ScanKind || kind == SbomKind || kind == VerificationKind
  }

  /** A handler returns without error: a security handler only after its result is saved. */
  predicate Succeeds(handler: Handler) {
    handler.stage.Saved? || !IsSecurityKind(handler.job.kind)
  }

  function Without(sys: System, h: nat): System {
    sys.(handlers := sys.handlers - {h})
  }

  function AtStage(sys: System, h: nat, stage: Stage): System
    requires h in sys.handlers
  {
    sys.(handlers := sys.handlers[h := sys.handlers[h].(stage := stage)])
  }

  function WithJobs(sys: System, jobs: Table): System {
    sys.(db := sys.db.(jobs := jobs))
  }

  /** Steps of the rest of the registry: namespaces, repositories and artifacts appear. */
  function EnvironmentStep(db: Database, e: Event): Database {
    match e
    case AddNamespace(id) => db.(namespaces := db.namespaces + {id})
    case AddRepository(id, r) =>
      if id in db.repositories || !RepositoryOk(db.namespaces, id, r) then db
      else db.(repositories := db.repositories[id := r])
    case AddArtifact(s, at) =>
      if s in db.artifacts || !ValidSubject(s) || s.repositoryId !in db.repositories then db
      else db.(artifacts := db.artifacts[s := at])
    case _ => db
  }

  ghost function ClaimFor(sys: System, h: nat, claim: Claim, kinds: seq<string>, locked: set<RowId>): System {
    var claimed := ClaimStep(sys.db.jobs, claim, kinds, locked);
    if h in sys.handlers || claimed.1.Failure? then sys
    else
      WithJobs(sys, claimed.0).(handlers := sys.handlers[h := Handler(claimed.1.value, claim.worker, Started)])
  }

  ghost function ResolveFor(sys: System, h: nat): System {
    if h in sys.handlers && sys.handlers[h].stage.Started?
       && exists p :: Resolves(sys.db, sys.handlers[h].job, p) then
      var p :| Resolves(sys.db, sys.handlers[h].job, p);
      AtStage(sys, h, Resolved(p))
    else sys
  }

  function SaveFor(sys: System, h: nat): System {
    if h in sys.handlers && sys.handlers[h].stage.Resolved?
       && Bound(sys.db, sys.handlers[h].stage.p) == Some(sys.handlers[h].job.id) then
      var p := sys.handlers[h].stage.p;
      AtStage(WithResult(sys, p), h, Saved(p))
    else sys
  }

  function FinishFor(sys: System, h: nat, now: Time): System {
    if h in sys.handlers && Succeeds(sys.handlers[h]) then
      var handler := sys.handlers[h];
      Without(WithJobs(sys, CompleteStep(sys.db.jobs, Completion(handler.job.id, handler.worker, now)).0), h)
    else sys
  }

  function GiveUpFor(sys: System, h: nat, now: Time, code: string, retryAt: Time, terminal: bool): System {
    if h in sys.handlers then
      var handler := sys.handlers[h];
      var failure := JobFailure(Completion(handler.job.id, handler.worker, now), code, retryAt, terminal);
      Without(WithJobs(sys, FailStep(sys.db.jobs, failure).0), h)
    else sys
  }

  ghost function Next(sys: System, e: Event): System {
    match e
    case AddNamespace(_) => sys.(db := EnvironmentStep(sys.db, e))
    case AddRepository(_, _) => sys.(db := EnvironmentStep(sys.db, e))
    case AddArtifact(_, _) => sys.(db := EnvironmentStep(sys.db, e))
    case CreatePolicy(namespaceId, subjects, id) =>
      sys.(db := CreatePolicyStep(sys.db, namespaceId, subjects, id).0)
    case EnsureWorkflow(target, now, ids) => sys.(db := EnsureStep(sys.db, target, now, ids).0)
    case EnsureVerification(target, now, ids) => sys.(db := EnsureVerificationStep(sys.db, target, now, ids).0)
    case EnqueueOther(intent, now, newId) =>
      if ForNoPurpose(intent.key) then WithJobs(sys, EnqueueStep(sys.db.jobs, intent, now, newId).0) else sys
    case ClaimJob(h, claim, kinds, locked) => ClaimFor(sys, h, claim, kinds, locked)
    case Resolve(h) => ResolveFor(sys, h)
    case Save(h) => SaveFor(sys, h)
    case Finish(h, now) => FinishFor(sys, h, now)
    case GiveUp(h, now, code, retryAt, terminal) => GiveUpFor(sys, h, now, code, retryAt, terminal)
    case Crash(h) => Without(sys, h)
  }

  const EmptyDatabase := Database({}, map[], map[], map[], map[], map[], map[])

  const Start := System(EmptyDatabase, {}, {}, {}, map[])

  ghost function Run(events: seq<Event>): System {
    if events == [] then Start else Next(Run(events[..|events| - 1]), events[|events| - 1])
  }

  // The invariant

  /** A handler's row still exists, and what it resolved or saved is that row's workflow. */
  ghost predicate HandlerOk(sys: System, handler: Handler) {
    var id := handler.job.id;
    id != NoId && id in sys.db.jobs && Validates(handler.job)
    && sys.db.jobs[id].kind == handler.job.kind && sys.db.jobs[id].payload == handler.job.payload
    && (!handler.stage.Started? ==> Bound(sys.db, handler.stage.p) == Some(id))
    && (handler.stage.Saved? ==> HasResult(sys, handler.stage.p))
  }

  /** A workflow's job has succeeded only if the workflow's result row exists. */
  ghost predicate ResultBeforeSuccess(sys: System) {
    forall p | Bound(sys.db, p).Some? && Bound(sys.db, p).value in sys.db.jobs
               && sys.db.jobs[Bound(sys.db, p).value].state == Succeeded ::
      HasResult(sys, p)
  }

  ghost predicate SystemOk(sys: System) {
    Inv(sys.db) && ResultBeforeSuccess(sys)
    && forall h | h in sys.handlers :: HandlerOk(sys, sys.handlers[h])
  }

  /** What time brings: workflows stay as they are, jobs evolve, and result rows are never removed. */
  ghost predicate Later(sys: System, sys': System) {
    (forall s | s in sys.db.workflows :: s in sys'.db.workflows && sys'.db.workflows[s] == sys.db.workflows[s])
    && (forall k | k in sys.db.signatures ::
          k in sys'.db.signatures && sys'.db.signatures[k] == sys.db.signatures[k])
    && JobQueueRuns.TableEvolves(sys.db.jobs, sys'.db.jobs)
    && sys.reports <= sys'.reports && sys.sboms <= sys'.sboms && sys.verifications <= sys'.verifications
  }

  /** A job bound to a workflow has newly succeeded. */
  ghost predicate NewSuccess(sys: System, sys': System, p: Purpose) {
    var bound := Bound(sys'.db, p);
    bound.Some? && bound.value in sys'.db.jobs && sys'.db.jobs[bound.value].state == Succeeded
    && !(Bound(sys.db, p) == bound && bound.value in sys.db.jobs
         && sys.db.jobs[bound.value].state == Succeeded)
  }

  lemma LaterKeepsBound(sys: System, sys': System, p: Purpose)
    requires Later(sys, sys')
    ensures Bound(sys.db, p).Some? ==> Bound(sys'.db, p) == Bound(sys.db, p)
    ensures HasResult(sys, p) ==> HasResult(sys', p)
  {
  }

  lemma LaterKeepsHandler(sys: System, sys': System, handler: Handler)
    requires Later(sys, sys') && HandlerOk(sys, handler)
    ensures HandlerOk(sys', handler)
  {
    if !handler.stage.Started? {
      LaterKeepsBound(sys, sys', handler.stage.p);
    }
    hide Bound, HasResult, Validates, JobQueueRuns.RowMeasure;
  }

  /** The invariant after a step, from what the step did. */
  lemma StepKeeps(sys: System, sys': System)
    requires SystemOk(sys) && Later(sys, sys') && Inv(sys'.db)
    requires forall p | NewSuccess(sys, sys', p) :: HasResult(sys', p)
    requires forall h | h in sys'.handlers ::
               (h in sys.handlers && sys'.handlers[h] == sys.handlers[h]) || HandlerOk(sys', sys'.handlers[h])
    ensures SystemOk(sys')
  {
    hide Later, HandlerOk, Inv, Bound, HasResult;
    forall h | h in sys'.handlers ensures HandlerOk(sys', sys'.handlers[h]) {
      if h in sys.handlers && sys'.handlers[h] == sys.handlers[h] {
        LaterKeepsHandler(sys, sys', sys.handlers[h]);
      }
    }
    forall p | Bound(sys'.db, p).Some? && Bound(sys'.db, p).value in sys'.db.jobs
               && sys'.db.jobs[Bound(sys'.db, p).value].state == Succeeded
      ensures HasResult(sys', p)
    {
      if !NewSuccess(sys, sys', p) {
        LaterKeepsBound(sys, sys', p);
      }
    }
  }

  lemma LaterIsTransitive(a: System, b: System, c: System)
    requires Later(a, b) && Later(b, c)
    ensures Later(a, c)
  {
    hide JobQueueRuns.RowMeasure;
  }

  // Steps of the queue

  lemma OnlyCompleteSucceeds(table: Table, e: JobQueueRuns.Event, id: RowId)
    requires JobQueueRuns.TableOk(table) && id in JobQueueRuns.Next(table, e)
    requires JobQueueRuns.Next(table, e)[id].state == Succeeded
    ensures id in table && (table[id].state == Succeeded || (e.Complete? && e.completion.job == id))
  {
    hide RowChecks, JobQueueRuns.RowOk, JobQueueRuns.Evolves, JobQueueRuns.TableOk, Eligible;
    JobQueueRuns.StepKeepsTable(table, e);
    JobQueueRuns.StepChangesRow(table, e, id);
    if e.ClaimJob? {
      if ClaimStep(table, e.claim, e.kinds, e.locked).1.Success? {
        var won := JobQueueRuns.ClaimWins(table, e.claim, e.kinds, e.locked);
      } else {
        JobQueueRuns.ClaimLoses(table, e.claim, e.kinds, e.locked);
      }
    }
  }

  /** Any queue transaction but Complete keeps the system; new jobs are for no purpose. */
  lemma QueueStepKeeps(sys: System, e: JobQueueRuns.Event)
    requires SystemOk(sys)
    requires forall id | id in JobQueueRuns.Next(sys.db.jobs, e) && id !in sys.db.jobs ::
               ForNoPurpose(JobQueueRuns.Next(sys.db.jobs, e)[id].intentKey)
    ensures var sys' := WithJobs(sys, JobQueueRuns.Next(sys.db.jobs, e));
            Later(sys, sys') && Inv(sys'.db)
            && forall p | NewSuccess(sys, sys', p) :: e.Complete? && Bound(sys.db, p) == Some(e.completion.job)
  {
    hide SystemOk, Inv, JobQueueRuns.TableOk, JobQueueRuns.Next, ForNoPurpose, JobQueueRuns.TableEvolves, Later, Bound,
         RepositoriesOk, PoliciesOk, WorkflowsOk;
    InvOfSystem(sys);
    TableOfInv(sys.db);
    JobQueueRuns.StepKeepsTable(sys.db.jobs, e);
    var jobs := JobQueueRuns.Next(sys.db.jobs, e);
    QueueKeepsInv(sys.db, jobs);
    JobsEvolve(sys, jobs);
    forall p | NewSuccess(sys, WithJobs(sys, jobs), p)
      ensures e.Complete? && Bound(sys.db, p) == Some(e.completion.job)
    {
      OnlyCompleteSucceeds(sys.db.jobs, e, Bound(sys.db, p).value);
    }
  }

  lemma JobsEvolve(sys: System, jobs: Table)
    requires JobQueueRuns.TableEvolves(sys.db.jobs, jobs)
    ensures Later(sys, WithJobs(sys, jobs))
    ensures forall p :: Bound(WithJobs(sys, jobs).db, p) == Bound(sys.db, p)
  {
    hide JobQueueRuns.TableEvolves;
  }

  lemma NewJobIsIntended(jobs: Table, intent: Intent, now: Time, newId: RowId)
    ensures forall id | id in EnqueueStep(jobs, intent, now, newId).0 && id !in jobs ::
              EnqueueStep(jobs, intent, now, newId).0[id].intentKey == intent.key
  {
  }

  lemma ClaimKeepsIds(jobs: Table, claim: Claim, kinds: seq<string>, locked: set<RowId>)
    ensures ClaimStep(jobs, claim, kinds, locked).0.Keys == jobs.Keys
    ensures ClaimStep(jobs, claim, kinds, locked).1.Success? ==>
              var row := ClaimStep(jobs, claim, kinds, locked).1.value;
              row.id != NoId && row.id in jobs && ClaimStep(jobs, claim, kinds, locked).0[row.id] == row
  {
    hide RowChecks, Eligible;
    if ClaimStep(jobs, claim, kinds, locked).1.Success? {
      var won := JobQueueRuns.ClaimWins(jobs, claim, kinds, locked);
    } else {
      JobQueueRuns.ClaimLoses(jobs, claim, kinds, locked);
    }
  }

  lemma EnqueueOtherKeeps(sys: System, intent: Intent, now: Time, newId: RowId)
    requires SystemOk(sys)
    ensures SystemOk(Next(sys, EnqueueOther(intent, now, newId)))
    ensures Later(sys, Next(sys, EnqueueOther(intent, now, newId)))
  {
    hide SystemOk, Inv, EnqueueStep, ForNoPurpose, HasResult, HandlerOk, Bound;
    if ForNoPurpose(intent.key) {
      NewJobIsIntended(sys.db.jobs, intent, now, newId);
      QueueStepKeeps(sys, JobQueueRuns.Enqueue(intent, now, newId));
      StepKeeps(sys, WithJobs(sys, EnqueueStep(sys.db.jobs, intent, now, newId).0));
    } else {
      NothingChanges(sys);
    }
  }

  lemma NothingChanges(sys: System)
    ensures Later(sys, sys)
  {
  }

  lemma ClaimKeeps(sys: System, h: nat, claim: Claim, kinds: seq<string>, locked: set<RowId>)
    requires SystemOk(sys)
    ensures SystemOk(ClaimFor(sys, h, claim, kinds, locked)) && Later(sys, ClaimFor(sys, h, claim, kinds, locked))
  {
    hide SystemOk, Inv, ClaimStep, ForNoPurpose, HasResult, Bound, Validates;
    NothingChanges(sys);
    if h !in sys.handlers && ClaimStep(sys.db.jobs, claim, kinds, locked).1.Success? {
      var e := JobQueueRuns.ClaimJob(claim, kinds, locked);
      ClaimKeepsIds(sys.db.jobs, claim, kinds, locked);
      QueueStepKeeps(sys, e);
      var sys' := ClaimFor(sys, h, claim, kinds, locked);
      JobReads(sys'.db, sys'.handlers[h].job.id);
      StepKeeps(sys, sys');
    }
  }

  lemma ResolveKeeps(sys: System, h: nat)
    requires SystemOk(sys)
    ensures SystemOk(ResolveFor(sys, h)) && Later(sys, ResolveFor(sys, h))
  {
    hide Inv, HasResult, Reads, Validates, Later, Bound;
    NothingChanges(sys);
    if ResolveFor(sys, h) != sys {
      assert HandlerOk(sys, sys.handlers[h]);
      SameRows(ResolveFor(sys, h), sys.db);
      LaterIgnoresHandlers(sys, sys, ResolveFor(sys, h));
      StepKeeps(sys, ResolveFor(sys, h));
    }
  }

  lemma SavedIsLater(sys: System, p: Purpose)
    requires Bound(sys.db, p).Some?
    ensures Later(sys, WithResult(sys, p)) && HasResult(WithResult(sys, p), p)
    ensures WithResult(sys, p).db == sys.db && WithResult(sys, p).handlers == sys.handlers
  {
  }

  lemma SaveKeeps(sys: System, h: nat)
    requires SystemOk(sys)
    ensures SystemOk(SaveFor(sys, h)) && Later(sys, SaveFor(sys, h))
  {
    hide Inv, HasResult, WithResult, Bound;
    NothingChanges(sys);
    if SaveFor(sys, h) != sys {
      var p := sys.handlers[h].stage.p;
      SavedIsLater(sys, p);
      assert HandlerOk(sys, sys.handlers[h]);
      ResultsOf(WithResult(sys, p), SaveFor(sys, h), p);
      StepKeeps(sys, SaveFor(sys, h));
    }
  }

  lemma ResultsOf(sys: System, sys': System, p: Purpose)
    requires sys'.db == sys.db && sys'.reports == sys.reports && sys'.sboms == sys.sboms
    requires sys'.verifications == sys.verifications
    ensures HasResult(sys', p) == HasResult(sys, p)
  {
  }

  /** A bound job is for a valid purpose of an artifact. */
  lemma BoundShows(db: Database, p: Purpose)
    requires Inv(db) && Bound(db, p).Some?
    ensures ValidPurpose(p) && p.of in db.artifacts && JobFor(db, p, Bound(db, p).value)
  {
    hide JobQueueRuns.TableOk, JobsAreClaimed, IsUuid, ValidSubject, KeyOf, PayloadText, KindOf, JobFor;
  }

  /** Two purposes bound to one job are the same. */
  lemma BoundOnce(db: Database, p: Purpose, q: Purpose)
    requires Inv(db) && Bound(db, p).Some? && Bound(db, p) == Bound(db, q)
    ensures p == q && KindOf(p) == db.jobs[Bound(db, p).value].kind
  {
    BoundShows(db, p);
    BoundShows(db, q);
    hide Inv, ValidPurpose, KeyOf, KindOf, Bound, SameJob, PayloadText;
    KeysDiffer(p, q);
    VersionIsBound(db, p, q);
  }

  lemma VersionIsBound(db: Database, p: Purpose, q: Purpose)
    requires SameJob(p, q) && Bound(db, p).Some? && Bound(db, q).Some?
    ensures p == q
  {
  }

  lemma FinishKeeps(sys: System, h: nat, now: Time)
    requires SystemOk(sys)
    ensures SystemOk(FinishFor(sys, h, now)) && Later(sys, FinishFor(sys, h, now))
  {
    NothingChanges(sys);
    hide Inv, HasResult, CompleteStep, KindOf, Later, Bound;
    if h in sys.handlers && Succeeds(sys.handlers[h]) {
      var handler := sys.handlers[h];
      var e := JobQueueRuns.Complete(Completion(handler.job.id, handler.worker, now));
      assert HandlerOk(sys, handler);
      CompleteKeepsIds(sys.db.jobs, e.completion);
      QueueStepKeeps(sys, e);
      var sys' := FinishFor(sys, h, now);
      LaterIgnoresHandlers(sys, WithJobs(sys, CompleteStep(sys.db.jobs, e.completion).0), sys');
      forall p | NewSuccess(sys, sys', p) ensures HasResult(sys', p) {
        FinishedHasResult(sys, sys', handler, p);
      }
      hide HandlerOk;
      StepKeeps(sys, sys');
    }
  }

  lemma LaterIgnoresHandlers(sys: System, a: System, b: System)
    requires Later(sys, a) && b == a.(handlers := b.handlers)
    ensures Later(sys, b)
  {
  }

  lemma CompleteKeepsIds(jobs: Table, c: Completion)
    ensures CompleteStep(jobs, c).0.Keys == jobs.Keys
  {
  }

  lemma FailKeepsIds(jobs: Table, f: JobFailure)
    ensures FailStep(jobs, f).0.Keys == jobs.Keys
  {
  }

  /** The workflow of a job that a returning handler completes has its result. */
  lemma FinishedHasResult(sys: System, sys': System, handler: Handler, p: Purpose)
    requires SystemOk(sys) && HandlerOk(sys, handler) && Succeeds(handler) && Later(sys, sys')
    requires Bound(sys.db, p) == Some(handler.job.id)
    ensures HasResult(sys', p)
  {
    hide SystemOk, Inv, HasResult, Bound, Later;
    assert SystemOk(sys) ==> Inv(sys.db) by {
      InvOfSystem(sys);
    }
    BoundOnce(sys.db, p, if handler.stage.Started? then p else handler.stage.p);
    LaterKeepsBound(sys, sys', p);
  }

  lemma InvOfSystem(sys: System)
    ensures SystemOk(sys) ==> Inv(sys.db)
  {
    hide Inv, HandlerOk, ResultBeforeSuccess;
  }

  lemma GiveUpKeeps(sys: System, h: nat, now: Time, code: string, retryAt: Time, terminal: bool)
    requires SystemOk(sys)
    ensures SystemOk(GiveUpFor(sys, h, now, code, retryAt, terminal))
    ensures Later(sys, GiveUpFor(sys, h, now, code, retryAt, terminal))
  {
    NothingChanges(sys);
    hide SystemOk, Inv, HasResult, FailStep, Later, HandlerOk, Bound;
    if h in sys.handlers {
      var handler := sys.handlers[h];
      var failure := JobFailure(Completion(handler.job.id, handler.worker, now), code, retryAt, terminal);
      FailKeepsIds(sys.db.jobs, failure);
      QueueStepKeeps(sys, JobQueueRuns.Fail(failure));
      var sys' := GiveUpFor(sys, h, now, code, retryAt, terminal);
      LaterIgnoresHandlers(sys, WithJobs(sys, FailStep(sys.db.jobs, failure).0), sys');
      StepKeeps(sys, sys');
    }
  }

  lemma CrashKeeps(sys: System, h: nat)
    requires SystemOk(sys)
    ensures SystemOk(Without(sys, h)) && Later(sys, Without(sys, h))
  {
    hide SystemOk, Inv, HasResult, Bound, Later, HandlerOk;
    InvOfSystem(sys);
    NothingChanges(sys);
    LaterIgnoresHandlers(sys, sys, Without(sys, h));
    StepKeeps(sys, Without(sys, h));
  }

  // Steps of the security tables and of the registry

  lemma DatabaseStepKeeps(sys: System, db: Database)
    requires SystemOk(sys) && Inv(db) && Later(sys, sys.(db := db))
    requires forall p :: !NewSuccess(sys, sys.(db := db), p)
    ensures SystemOk(sys.(db := db))
  {
    hide SystemOk, Inv, Later, NewSuccess;
    StepKeeps(sys, sys.(db := db));
  }

  lemma WithWorkflowIsLater(sys: System, target: Target, now: Time, ids: NewIds)
    requires target.subject !in sys.db.workflows && Fresh(sys.db, ids)
    ensures var sys' := sys.(db := WithWorkflow(sys.db, target, now, ids));
            Later(sys, sys') && forall p :: !NewSuccess(sys, sys', p)
  {
    hide WorkflowIdTaken, IntentOf;
  }

  lemma WithVerificationIsLater(sys: System, target: Target, policyId: string, now: Time, ids: NewIds)
    requires policyId in sys.db.policies && (target.subject, policyId) !in sys.db.signatures
    requires FreshJob(sys.db, ids)
    ensures var sys' := sys.(db := WithVerification(sys.db, target, policyId, now, ids));
            Later(sys, sys') && forall p :: !NewSuccess(sys, sys', p)
  {
    hide WorkflowIdTaken, IntentOf;
  }

  lemma EnsureWorkflowKeeps(sys: System, target: Target, now: Time, ids: NewIds)
    requires SystemOk(sys)
    ensures var db := EnsureStep(sys.db, target, now, ids).0;
            SystemOk(sys.(db := db)) && Later(sys, sys.(db := db))
  {
    hide SystemOk, Inv, Later, NewSuccess, EnsureKnown, Known, ValidTarget, WorkflowIdTaken, WithWorkflow;
    InvOfSystem(sys);
    EnsureKeepsInv(sys.db, target, now, ids);
    SameRows(sys, sys.db);
    if now != ZeroTime {
      EnsureOutcome(sys.db, target, now, ids);
      hide EnsureStep;
      if Known(sys.db, target) && target.subject !in sys.db.workflows && Fresh(sys.db, ids) {
        WithWorkflowIsLater(sys, target, now, ids);
      }
      DatabaseStepKeeps(sys, EnsureStep(sys.db, target, now, ids).0);
    }
  }

  lemma EnsureVerificationKeeps(sys: System, target: Target, now: Time, ids: NewIds)
    requires SystemOk(sys)
    ensures var db := EnsureVerificationStep(sys.db, target, now, ids).0;
            SystemOk(sys.(db := db)) && Later(sys, sys.(db := db))
  {
    hide SystemOk, Inv, Later, NewSuccess, EnsureUnderCurrentPolicy, ValidTarget, WorkflowIdTaken, WithVerification;
    InvOfSystem(sys);
    EnsureVerificationKeepsInv(sys.db, target, now, ids);
    SameRows(sys, sys.db);
    if now != ZeroTime {
      EnsureVerificationOutcome(sys.db, target, now, ids);
      hide EnsureVerificationStep;
      if Known(sys.db, target) && Current(sys.db.policies, NamespaceOf(sys.db, target.subject)).Some? {
        var policyId := Current(sys.db.policies, NamespaceOf(sys.db, target.subject)).value;
        if (target.subject, policyId) !in sys.db.signatures && FreshJob(sys.db, ids) {
          WithVerificationIsLater(sys, target, policyId, now, ids);
        }
      }
      DatabaseStepKeeps(sys, EnsureVerificationStep(sys.db, target, now, ids).0);
    }
  }

  lemma CreatePolicyKeeps(sys: System, namespaceId: string, subjects: nat, policyId: Uuid)
    requires SystemOk(sys)
    ensures var db := CreatePolicyStep(sys.db, namespaceId, subjects, policyId).0;
            SystemOk(sys.(db := db)) && Later(sys, sys.(db := db))
  {
    hide Inv, HasResult, HandlerOk, MaxVersion;
    CreatePolicyKeepsInv(sys.db, namespaceId, subjects, policyId);
    var db := CreatePolicyStep(sys.db, namespaceId, subjects, policyId).0;
    SameRows(sys, db);
    hide CreatePolicyStep;
    DatabaseStepKeeps(sys, db);
  }

  lemma SameRows(sys: System, db: Database)
    requires db.workflows == sys.db.workflows && db.signatures == sys.db.signatures && db.jobs == sys.db.jobs
    ensures Later(sys, sys.(db := db)) && forall p :: !NewSuccess(sys, sys.(db := db), p)
  {
  }

  lemma EnvironmentGrows(db: Database, e: Event)
    requires RepositoriesOk(db)
    ensures var db' := EnvironmentStep(db, e);
            RepositoriesOk(db') && db.artifacts.Keys <= db'.artifacts.Keys
            && db' == db.(namespaces := db'.namespaces, repositories := db'.repositories, artifacts := db'.artifacts)
            && forall r | r in db.repositories :: r in db'.repositories && db'.repositories[r] == db.repositories[r]
  {
    hide ValidSubject, RepositoryOk, RepositoriesOk;
    match e
    case AddNamespace(namespaceId) => NamespaceAdded(db, namespaceId);
    case AddRepository(id, r) =>
      if RepositoryOk(db.namespaces, id, r) {
        RepositoryAdded(db, id, r);
      }
    case AddArtifact(s, at) =>
      if ValidSubject(s) && s.repositoryId in db.repositories {
        ArtifactAdded(db, s, at);
      }
    case _ =>
  }

  lemma NamespaceAdded(db: Database, namespaceId: string)
    requires RepositoriesOk(db)
    ensures RepositoriesOk(db.(namespaces := db.namespaces + {namespaceId}))
  {
    hide ValidSubject, RepositoryOk;
    forall id | id in db.repositories
      ensures RepositoryOk(db.namespaces + {namespaceId}, id, db.repositories[id])
    {
      MoreNamespaces(db.namespaces, namespaceId, id, db.repositories[id]);
    }
  }

  lemma RepositoryAdded(db: Database, id: string, r: Repository)
    requires RepositoriesOk(db) && RepositoryOk(db.namespaces, id, r)
    ensures RepositoriesOk(db.(repositories := db.repositories[id := r]))
  {
    hide ValidSubject, RepositoryOk;
  }

  lemma ArtifactAdded(db: Database, s: Subject, at: Time)
    requires RepositoriesOk(db) && ValidSubject(s) && s.repositoryId in db.repositories
    ensures RepositoriesOk(db.(artifacts := db.artifacts[s := at]))
  {
    hide ValidSubject, RepositoryOk;
  }

  lemma MoreNamespaces(namespaces: set<string>, namespaceId: string, id: string, r: Repository)
    requires RepositoryOk(namespaces, id, r)
    ensures RepositoryOk(namespaces + {namespaceId}, id, r)
  {
  }

  lemma RegistryGrows(db: Database, db': Database)
    requires Inv(db) && RepositoriesOk(db') && db.artifacts.Keys <= db'.artifacts.Keys
    requires db' == db.(namespaces := db'.namespaces, repositories := db'.repositories, artifacts := db'.artifacts)
    requires forall r | r in db.repositories :: r in db'.repositories && db'.repositories[r] == db.repositories[r]
    ensures Inv(db')
  {
    hide JobQueueRuns.TableOk, PoliciesOk, ValidPurpose, SameJob, KeyOf, PayloadText, RepositoriesOk;
    assert WorkflowsOk(db') by {
      hide BindingsOk, JobsAreClaimed;
    }
    assert forall p :: Bound(db', p) == Bound(db, p);
    hide WorkflowsOk, Bound;
    forall p | Bound(db', p).Some? ensures JobFor(db', p, Bound(db', p).value) {
      assert JobFor(db, p, Bound(db, p).value);
    }
    forall id | id in db'.jobs ensures Claimed(db', id) {
      assert Claimed(db, id);
      StillClaimed(db, db', id);
    }
  }

  lemma EnvironmentKeeps(sys: System, e: Event)
    requires SystemOk(sys)
    ensures var db := EnvironmentStep(sys.db, e);
            SystemOk(sys.(db := db)) && Later(sys, sys.(db := db))
  {
    hide SystemOk, Inv, RepositoriesOk, EnvironmentStep, Later;
    InvOfSystem(sys);
    TableOfInv(sys.db);
    EnvironmentGrows(sys.db, e);
    RegistryGrows(sys.db, EnvironmentStep(sys.db, e));
    SameRows(sys, EnvironmentStep(sys.db, e));
    DatabaseStepKeeps(sys, EnvironmentStep(sys.db, e));
  }

  /** Every step keeps the invariant, and only ever adds. */
  lemma NextKeeps(sys: System, e: Event)
    requires SystemOk(sys)
    ensures SystemOk(Next(sys, e)) && Later(sys, Next(sys, e))
  {
    hide SystemOk, Later, EnvironmentStep, CreatePolicyStep, EnsureStep, EnsureVerificationStep, ClaimFor, ResolveFor,
         SaveFor, FinishFor, GiveUpFor, Without;
    match e
    case AddNamespace(_) => EnvironmentKeeps(sys, e);
    case AddRepository(_, _) => EnvironmentKeeps(sys, e);
    case AddArtifact(_, _) => EnvironmentKeeps(sys, e);
    case CreatePolicy(namespaceId, subjects, id) => CreatePolicyKeeps(sys, namespaceId, subjects, id);
    case EnsureWorkflow(target, now, ids) => EnsureWorkflowKeeps(sys, target, now, ids);
    case EnsureVerification(target, now, ids) => EnsureVerificationKeeps(sys, target, now, ids);
    case EnqueueOther(intent, now, newId) => EnqueueOtherKeeps(sys, intent, now, newId);
    case ClaimJob(h, claim, kinds, locked) => ClaimKeeps(sys, h, claim, kinds, locked);
    case Resolve(h) => ResolveKeeps(sys, h);
    case Save(h) => SaveKeeps(sys, h);
    case Finish(h, now) => FinishKeeps(sys, h, now);
    case GiveUp(h, now, code, retryAt, terminal) => GiveUpKeeps(sys, h, now, code, retryAt, terminal);
    case Crash(h) => CrashKeeps(sys, h);
  }

  /** In every run, whatever crashes or repeats, a workflow's job succeeds only after its result is saved. */
  lemma {:induction false} ReachableSystemOk(events: seq<Event>)
    ensures SystemOk(Run(events))
    decreases |events|
  {
    if events != [] {
      hide SystemOk, Next;
      ReachableSystemOk(events[..|events| - 1]);
      NextKeeps(Run(events[..|events| - 1]), events[|events| - 1]);
    }
  }

  lemma {:induction false} RunIsLater(events: seq<Event>, i: nat)
    requires i <= |events|
    ensures Later(Run(events[..i]), Run(events))
    decreases |events|
  {
    hide SystemOk, Next, Later;
    if i == |events| {
      assert events[..i] == events;
      NothingChanges(Run(events));
    } else {
      var before := events[..|events| - 1];
      RunIsLater(before, i);
      assert before[..i] == events[..i];
      ReachableSystemOk(before);
      NextKeeps(Run(before), events[|events| - 1]);
      LaterIsTransitive(Run(events[..i]), Run(before), Run(events));
    }
  }

  /**
   A handler's job resolves exactly when a workflow is bound to it, and then to that workflow
   alone: no payload of a bound job is refused, and none leads to another image or policy.
   */
  lemma ResolvesIffBound(events: seq<Event>, h: nat, p: Purpose)
    requires h in Run(events).handlers
    ensures var db, job := Run(events).db, Run(events).handlers[h].job;
            (Resolves(db, job, p) <==> Bound(db, p) == Some(job.id))
            && forall q | Resolves(db, job, p) && Resolves(db, job, q) :: q == p
  {
    hide SystemOk, Inv, Run, Validates, KindOf, PayloadText, Bound, HasResult;
    ReachableSystemOk(events);
    var sys := Run(events);
    InvOfSystem(sys);
    HandlerOf(sys, h);
    if Bound(sys.db, p) == Some(sys.handlers[h].job.id) {
      BoundReads(sys.db, p);
      forall q | Bound(sys.db, q) == Bound(sys.db, p) ensures q == p {
        BoundOnce(sys.db, p, q);
      }
    }
  }

  /** The row of a bound job says what it is for. */
  lemma BoundReads(db: Database, p: Purpose)
    requires Inv(db) && Bound(db, p).Some?
    ensures Bound(db, p).value in db.jobs && p.of.repositoryId in db.repositories
    ensures var row := db.jobs[Bound(db, p).value];
            Reads(row.kind, row.payload, p, TargetOf(db, p.of))
  {
    hide Inv, ValidPurpose, ValidTarget, KeyOf, KindOf, PayloadText, RepositoriesOk, Bound;
    BoundShows(db, p);
    TableOfInv(db);
    hide JobQueueRuns.TableOk, WorkflowsOk, PoliciesOk;
    TargetIsValid(db, p.of);
  }

  lemma TargetIsValid(db: Database, s: Subject)
    requires RepositoriesOk(db) && s in db.artifacts
    ensures s.repositoryId in db.repositories && ValidTarget(TargetOf(db, s))
  {
    hide ValidSubject;
    assert RepositoryOk(db.namespaces, s.repositoryId, db.repositories[s.repositoryId]);
  }

  // Reading the state of a result

  datatype ResultState = InQueue | InProgress | Completed | Failed | Stale

  datatype ResultStatus = ResultStatus(state: ResultState, errorCode: string, attempts: int, updatedAt: Time)

  const ResultMissing := "RESULT_MISSING"

  /** ResultStatusFromJob; None is ErrInvalid. */
  function StatusFromJob(job: Job, resultPresent: bool, stale: bool): Option<ResultStatus> {
    if !Validates(job) then None
    else
      var (state, code) :=
        match job.state
        case Queued => (InQueue, "")
        case Running => (InProgress, "")
        case Dead => (Failed, job.lastErrorCode.GetOr(""))
        case Succeeded =>
          if !resultPresent then (Failed, ResultMissing) else (if stale then Stale else Completed, "");
      Some(ResultStatus(state, code, job.attempts, job.updatedAt))
  }

  /**
   A detail page reads the job first, at any point of a run, and the result row later. It can
   always be shown, and a succeeded job is shown as completed or stale, never as failed.
   */
  lemma JobFirstNeverMisses(events: seq<Event>, i: nat, j: nat, p: Purpose, stale: bool)
    requires i <= j <= |events| && Bound(Run(events[..i]).db, p).Some?
    ensures var id := Bound(Run(events[..i]).db, p).value;
            id in Run(events[..i]).db.jobs
            && var job, present := Run(events[..i]).db.jobs[id], HasResult(Run(events[..j]), p);
               StatusFromJob(job, present, stale).Some?
               && (StatusFromJob(job, present, stale).value.state == Failed <==> job.state == Dead)
  {
    hide SystemOk, Inv, Validates, Run, Bound, HasResult, Later;
    var sys, sys' := Run(events[..i]), Run(events[..j]);
    ReachableSystemOk(events[..i]);
    RunIsLater(events[..j], i);
    assert events[..j][..i] == events[..i];
    InvOfSystem(sys);
    LaterKeepsBound(sys, sys', p);
    BoundShows(sys.db, p);
    JobReads(sys.db, Bound(sys.db, p).value);
    if sys.db.jobs[Bound(sys.db, p).value].state == Succeeded {
      SucceededHasResult(sys, p);
    }
  }

  lemma SucceededHasResult(sys: System, p: Purpose)
    requires SystemOk(sys) && Bound(sys.db, p).Some? && Bound(sys.db, p).value in sys.db.jobs
    requires sys.db.jobs[Bound(sys.db, p).value].state == Succeeded
    ensures HasResult(sys, p)
  {
    hide Inv, HandlerOk, HasResult, Bound;
  }

  /** What a status shows of a job: each state in its own way, with attempts, time and a dead job's code. */
  lemma StatusIs(job: Job, resultPresent: bool, stale: bool)
    requires Validates(job)
    ensures var status := StatusFromJob(job, resultPresent, stale);
            && status.Some?
            && (status.value.state == InQueue <==> job.state == Queued)
            && (status.value.state == InProgress <==> job.state == Running)
            && (status.value.state == Stale <==> job.state == Succeeded && resultPresent && stale)
            && (status.value.state == Completed <==> job.state == Succeeded && resultPresent && !stale)
            && (job.state == Succeeded && !resultPresent ==> status.value.errorCode == "RESULT_MISSING")
            && (job.state == Dead ==>
                  status.value.errorCode == if job.lastErrorCode.Some? then job.lastErrorCode.value else "")
            && (status.value.state != Failed ==> status.value.errorCode == "")
            && status.value.attempts == job.attempts && status.value.updatedAt == job.updatedAt
  {
    hide Validates;
  }

  /** The status of a job read at one point of a run, and its result later, by the state of the job alone. */
  lemma DetailIs(events: seq<Event>, i: nat, j: nat, p: Purpose, stale: bool)
    requires i <= j <= |events| && Bound(Run(events[..i]).db, p).Some?
    ensures var id := Bound(Run(events[..i]).db, p).value;
            id in Run(events[..i]).db.jobs
            && var job := Run(events[..i]).db.jobs[id];
               var status := StatusFromJob(job, HasResult(Run(events[..j]), p), stale);
               status.Some? && status.value.state
                  == match job.state
                     case Queued => InQueue
                     case Running => InProgress
                     case Dead => Failed
                     case Succeeded => if stale then Stale else Completed
  {
    hide SystemOk, Inv, Validates, Run, Bound, HasResult, Later, StatusFromJob;
    var sys, sys' := Run(events[..i]), Run(events[..j]);
    ReachableSystemOk(events[..i]);
    RunIsLater(events[..j], i);
    assert events[..j][..i] == events[..i];
    InvOfSystem(sys);
    LaterKeepsBound(sys, sys', p);
    BoundShows(sys.db, p);
    var job := sys.db.jobs[Bound(sys.db, p).value];
    JobReads(sys.db, Bound(sys.db, p).value);
    JobFirstNeverMisses(events, i, j, p, stale);
    StatusIs(job, HasResult(sys', p), stale);
    if job.state == Succeeded {
      SucceededHasResult(sys, p);
    }
  }

  /** The scan's part of the page: the workflow's scan job, and later whether it has a report. */
  lemma DetailOfScan(events: seq<Event>, i: nat, j: nat, s: Subject, stale: bool)
    requires i <= j <= |events| && s in Run(events[..i]).db.workflows
    ensures var (db, later) := (Run(events[..i]).db, Run(events[..j]));
            var workflow := db.workflows[s];
            workflow.scanJob in db.jobs
            && var job := db.jobs[workflow.scanJob];
               var status := StatusFromJob(job, workflow.id in later.reports, stale);
               status.Some? && status.value.state
                  == match job.state
                     case Queued => InQueue
                     case Running => InProgress
                     case Dead => Failed
                     case Succeeded => if stale then Stale else Completed
  {
    hide SystemOk, Inv, Run, StatusFromJob;
    DetailIs(events, i, j, Scan(s), stale);
    RunIsLater(events[..j], i);
    assert events[..j][..i] == events[..i];
  }

  /** The part of the bill of materials: its own job, and later its own row. */
  lemma DetailOfSbom(events: seq<Event>, i: nat, j: nat, s: Subject, stale: bool)
    requires i <= j <= |events| && s in Run(events[..i]).db.workflows
    ensures var (db, later) := (Run(events[..i]).db, Run(events[..j]));
            var workflow := db.workflows[s];
            workflow.sbomJob in db.jobs
            && var job := db.jobs[workflow.sbomJob];
               var status := StatusFromJob(job, workflow.id in later.sboms, stale);
               status.Some? && status.value.state
                  == match job.state
                     case Queued => InQueue
                     case Running => InProgress
                     case Dead => Failed
                     case Succeeded => if stale then Stale else Completed
  {
    hide SystemOk, Inv, Run, StatusFromJob;
    DetailIs(events, i, j, Sbom(s), stale);
    RunIsLater(events[..j], i);
    assert events[..j][..i] == events[..i];
  }

  /** The part of the signatures under a policy: the verification's job, and later its row. */
  lemma DetailOfVerification(events: seq<Event>, i: nat, j: nat, s: Subject, policyId: string, stale: bool)
    requires i <= j <= |events| && (s, policyId) in Run(events[..i]).db.signatures
    ensures var (db, later) := (Run(events[..i]).db, Run(events[..j]));
            var workflow := db.signatures[(s, policyId)];
            workflow.job in db.jobs
            && var job := db.jobs[workflow.job];
               var status := StatusFromJob(job, workflow.id in later.verifications, stale);
               status.Some? && status.value.state
                  == match job.state
                     case Queued => InQueue
                     case Running => InProgress
                     case Dead => Failed
                     case Succeeded => if stale then Stale else Completed
  {
    hide SystemOk, Inv, Run, StatusFromJob;
    var version := Run(events[..i]).db.signatures[(s, policyId)].policyVersion;
    DetailIs(events, i, j, Verify(s, policyId, version), stale);
    RunIsLater(events[..j], i);
    assert events[..j][..i] == events[..i];
  }

  // What saving and returning do

  /** Saving a scan adds a report of its workflow, a bill of materials its own row, a verification its own. */
  lemma SaveAdds(sys: System, h: nat)
    requires SystemOk(sys) && h in sys.handlers && sys.handlers[h].stage.Resolved?
    ensures var (next, p) := (Next(sys, Save(h)), sys.handlers[h].stage.p);
            && next.db == sys.db
            && match p
               case Scan(s) =>
                 s in sys.db.workflows && next.reports == sys.reports + {sys.db.workflows[s].id}
                 && next.sboms == sys.sboms && next.verifications == sys.verifications
               case Sbom(s) =>
                 s in sys.db.workflows && next.sboms == sys.sboms + {sys.db.workflows[s].id}
                 && next.reports == sys.reports && next.verifications == sys.verifications
               case Verify(s, policy, _) =>
                 (s, policy) in sys.db.signatures
                 && next.verifications == sys.verifications + {sys.db.signatures[(s, policy)].id}
                 && next.reports == sys.reports && next.sboms == sys.sboms
  {
    hide *;
    ResolvedIsBound(sys, h);
    SaveIs(sys, h);
    SavedRow(sys, sys.handlers[h].stage.p);
  }

  lemma ResolvedIsBound(sys: System, h: nat)
    requires SystemOk(sys) && h in sys.handlers && sys.handlers[h].stage.Resolved?
    ensures Bound(sys.db, sys.handlers[h].stage.p) == Some(sys.handlers[h].job.id)
  {
    HandlerOf(sys, h);
    hide SystemOk, Bound, Validates;
  }

  lemma SaveIs(sys: System, h: nat)
    requires h in sys.handlers && sys.handlers[h].stage.Resolved?
    requires Bound(sys.db, sys.handlers[h].stage.p) == Some(sys.handlers[h].job.id)
    ensures var (next, result) := (Next(sys, Save(h)), WithResult(sys, sys.handlers[h].stage.p));
            && next.db == result.db && next.reports == result.reports && next.sboms == result.sboms
            && next.verifications == result.verifications
  {
    hide Bound, WithResult;
    assert WithResult(sys, sys.handlers[h].stage.p).handlers == sys.handlers by {
      SavedIsLater(sys, sys.handlers[h].stage.p);
    }
  }

  lemma SavedRow(sys: System, p: Purpose)
    requires Bound(sys.db, p).Some?
    ensures var next := WithResult(sys, p);
            && next.db == sys.db
            && match p
               case Scan(s) =>
                 s in sys.db.workflows && next.reports == sys.reports + {sys.db.workflows[s].id}
                 && next.sboms == sys.sboms && next.verifications == sys.verifications
               case Sbom(s) =>
                 s in sys.db.workflows && next.sboms == sys.sboms + {sys.db.workflows[s].id}
                 && next.reports == sys.reports && next.verifications == sys.verifications
               case Verify(s, policy, _) =>
                 (s, policy) in sys.db.signatures
                 && next.verifications == sys.verifications + {sys.db.signatures[(s, policy)].id}
                 && next.reports == sys.reports && next.sboms == sys.sboms
  {
  }

  /** A handler of a security job that has saved nothing does not complete it. */
  lemma FinishNeedsSave(sys: System, h: nat, now: Time)
    requires h in sys.handlers && sys.handlers[h].job.kind in {"TRIVY_SCAN", "TRIVY_SBOM", "COSIGN_VERIFY"}
    requires !sys.handlers[h].stage.Saved?
    ensures Next(sys, Finish(h, now)) == sys
  {
  }

  lemma JobReads(db: Database, id: RowId)
    requires Inv(db) && id in db.jobs
    ensures Validates(db.jobs[id])
  {
    hide Validates, RowChecks;
    assert JobQueueRuns.RowOk(db.jobs[id]);
  }

  /**
   The order of the reads matters. Read the result first and the job later, and whenever a handler
   that has resolved a workflow without a result saves and completes in between, under a lease that
   it holds, the page would report the result as missing.
   */
  lemma ResultFirstMayMiss(sys: System, h: nat, now: Time, stale: bool)
    requires SystemOk(sys) && h in sys.handlers && sys.handlers[h].stage.Resolved?
    requires !HasResult(sys, sys.handlers[h].stage.p)
    requires var c := Completion(sys.handlers[h].job.id, sys.handlers[h].worker, now);
             CompleteStep(sys.db.jobs, c).1.Success?
    ensures var id, later := sys.handlers[h].job.id, Next(Next(sys, Save(h)), Finish(h, now));
            id in later.db.jobs
            && StatusFromJob(later.db.jobs[id], HasResult(sys, sys.handlers[h].stage.p), stale)
               == Some(ResultStatus(Failed, ResultMissing, later.db.jobs[id].attempts, now))
            && HasResult(later, sys.handlers[h].stage.p)
  {
    hide *;
    var handler := sys.handlers[h];
    var p, c := handler.stage.p, Completion(handler.job.id, handler.worker, now);
    var saved := Next(sys, Save(h));
    var later := Next(saved, Finish(h, now));
    HandlerOf(sys, h);
    NextKeeps(sys, Save(h));
    NextKeeps(saved, Finish(h, now));
    SavesAndFinishes(sys, h, now);
    CompletedRow(sys.db.jobs, c);
    InvOfSystem(later);
    JobReads(later.db, handler.job.id);
    MissingStatus(later.db.jobs[handler.job.id], stale);
    LaterKeepsBound(saved, later, p);
  }

  lemma SavesAndFinishes(sys: System, h: nat, now: Time)
    requires h in sys.handlers && sys.handlers[h].stage.Resolved? && HandlerOk(sys, sys.handlers[h])
    ensures var handler := sys.handlers[h];
            var saved := Next(sys, Save(h));
            HasResult(saved, handler.stage.p)
            && Next(saved, Finish(h, now)).db.jobs
               == CompleteStep(sys.db.jobs, Completion(handler.job.id, handler.worker, now)).0
  {
    hide Inv, Validates, RowChecks, HasResult, WithResult, Bound, CompleteStep;
    var p := sys.handlers[h].stage.p;
    assert Next(sys, Save(h)) == SaveFor(sys, h);
    SavedIsLater(sys, p);
    ResultsOf(WithResult(sys, p), SaveFor(sys, h), p);
    assert Next(SaveFor(sys, h), Finish(h, now)) == FinishFor(SaveFor(sys, h), h, now);
  }

  lemma CompletedRow(jobs: Table, c: Completion)
    requires CompleteStep(jobs, c).1.Success?
    ensures var jobs' := CompleteStep(jobs, c).0;
            c.job in jobs' && jobs'[c.job].state == Succeeded && jobs'[c.job].updatedAt == c.now
  {
    hide RowChecks;
  }

  lemma MissingStatus(job: Job, stale: bool)
    requires Validates(job) && job.state == Succeeded
    ensures StatusFromJob(job, false, stale)
         == Some(ResultStatus(Failed, ResultMissing, job.attempts, job.updatedAt))
  {
    hide Validates;
  }

  lemma HandlerOf(sys: System, h: nat)
    requires SystemOk(sys) && h in sys.handlers
    ensures HandlerOk(sys, sys.handlers[h])
  {
    hide Inv, ResultBeforeSuccess, HandlerOk;
  }

  /**
   Nothing in the protocol stands in a handler's way: in every run a handler that has just claimed a
   bound job resolves it, saves its result, and completes the job while it still holds the lease.
   */
  lemma HandlerSucceeds(events: seq<Event>, h: nat, p: Purpose, now: Time)
    requires h in Run(events).handlers && Run(events).handlers[h].stage.Started?
    requires Bound(Run(events).db, p) == Some(Run(events).handlers[h].job.id)
    requires var handler := Run(events).handlers[h];
             CompleteStep(Run(events).db.jobs, Completion(handler.job.id, handler.worker, now)).1.Success?
    ensures var id, last := Run(events).handlers[h].job.id,
                            Next(Next(Next(Run(events), Resolve(h)), Save(h)), Finish(h, now));
            id in last.db.jobs && last.db.jobs[id].state == Succeeded && HasResult(last, p)
  {
    hide *;
    var sys := Run(events);
    var handler := sys.handlers[h];
    var resolved := Next(sys, Resolve(h));
    var saved := Next(resolved, Save(h));
    ReachableSystemOk(events);
    ResolvesIffBound(events, h, p);
    ResolvesTo(sys, h, p);
    NextKeeps(sys, Resolve(h));
    NextKeeps(resolved, Save(h));
    NextKeeps(saved, Finish(h, now));
    HandlerOf(resolved, h);
    SavesAndFinishes(resolved, h, now);
    CompletedRow(sys.db.jobs, Completion(handler.job.id, handler.worker, now));
    LaterKeepsBound(saved, Next(saved, Finish(h, now)), p);
  }

  lemma ResolvesTo(sys: System, h: nat, p: Purpose)
    requires h in sys.handlers && sys.handlers[h].stage.Started? && Resolves(sys.db, sys.handlers[h].job, p)
    requires forall q | Resolves(sys.db, sys.handlers[h].job, q) :: q == p
    ensures Next(sys, Resolve(h)) == AtStage(sys, h, Resolved(p))
    ensures var resolved := Next(sys, Resolve(h));
            h in resolved.handlers && resolved.handlers[h] == sys.handlers[h].(stage := Resolved(p))
            && resolved.db == sys.db
  {
    hide Resolves;
  }
}
