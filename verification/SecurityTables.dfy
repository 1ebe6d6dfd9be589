/**
 The tables of the security workflows, and the transactions that create rows in them. Each
 transaction is one atomic step that commits or reports an error and leaves the tables alone.
 */
module SecurityTables {
  import opened Wrappers
  import opened Text
  import opened Security
  import opened JobQueue
  import opened JobQueueRuns

  type Id = nat

  /** Names are fixed when a namespace or repository is created; nothing renames them. */
  datatype Repository = Repository(namespaceId: string, namespace: string, name: string)

  datatype Workflow = Workflow(id: Id, scanJob: RowId, sbomJob: RowId, createdAt: Time)

  datatype Policy = Policy(namespaceId: string, version: nat)

  datatype SignatureWorkflow = SignatureWorkflow(id: Id, policyVersion: nat, job: RowId, createdAt: Time)

  datatype Database = Database(
    namespaces: set<string>,
    repositories: map<string, Repository>,
    artifacts: map<Subject, Time>,
    jobs: Table,
    workflows: map<Subject, Workflow>,
    policies: map<string, Policy>,
    signatures: map<(Subject, string), SignatureWorkflow>)

  datatype SecurityError = Invalid | NotFound | InConflict

  /** The identifiers drawn for one transaction. */
  datatype NewIds = NewIds(job: RowId, other: RowId, workflow: Id)

  function TargetOf(db: Database, s: Subject): Target
    requires s.repositoryId in db.repositories
  {
    var r := db.repositories[s.repositoryId];
    Target(s, r.namespace, r.name)
  }

  function NamespaceOf(db: Database, s: Subject): string
    requires s.repositoryId in db.repositories
  {
    db.repositories[s.repositoryId].namespaceId
  }

  /** The job that the workflow for a purpose is bound to. */
  function Bound(db: Database, p: Purpose): Option<RowId> {
    match p
    case Scan(s) => if s in db.workflows then Some(db.workflows[s].scanJob) else None
    case Sbom(s) => if s in db.workflows then Some(db.workflows[s].sbomJob) else None
    case Verify(s, policy, version) =>
      if (s, policy) in db.signatures && db.signatures[(s, policy)].policyVersion == version
      then Some(db.signatures[(s, policy)].job) else None
  }

  // What every reachable database keeps

  predicate RepositoryOk(namespaces: set<string>, id: string, r: Repository) {
    IsUuid(id) && r.namespaceId in namespaces
    && |r.namespace| <= 128 && IsName(r.namespace) && |r.name| <= 128 && IsName(r.name)
  }

  predicate RepositoriesOk(db: Database) {
    (forall id | id in db.repositories :: RepositoryOk(db.namespaces, id, db.repositories[id]))
    && (forall s | s in db.artifacts :: ValidSubject(s) && s.repositoryId in db.repositories)
  }

  ghost predicate HasVersion(policies: map<string, Policy>, namespaceId: string, version: nat) {
    exists id :: id in policies && policies[id] == Policy(namespaceId, version)
  }

  /** The policies of a namespace are numbered from one without gaps. */
  ghost predicate PoliciesOk(policies: map<string, Policy>) {
    (forall id | id in policies :: IsUuid(id) && policies[id].version >= 1)
    && (forall a, b | a in policies && b in policies && policies[a] == policies[b] :: a == b)
    && (forall id, v: nat | id in policies && 1 <= v < policies[id].version ::
          HasVersion(policies, policies[id].namespaceId, v))
  }

  ghost predicate WorkflowsOk(db: Database) {
    db.workflows.Keys <= db.artifacts.Keys
    && forall k | k in db.signatures ::
         k.0 in db.artifacts && k.1 in db.policies
         && db.signatures[k].policyVersion == db.policies[k.1].version
  }

  /** The row of a job made for the purpose. */
  ghost predicate JobFor(db: Database, p: Purpose, id: RowId) {
    p.of.repositoryId in db.repositories && id in db.jobs
    && db.jobs[id].kind == KindOf(p) && db.jobs[id].intentKey == KeyOf(p)
    && db.jobs[id].payload == Object(PayloadText(p, TargetOf(db, p.of)))
    && db.jobs[id].maxAttempts == DefaultAttempts
  }

  /** A workflow is bound to a job of its own. */
  ghost predicate BindingsOk(db: Database) {
    forall p | Bound(db, p).Some? :: JobFor(db, p, Bound(db, p).value)
  }

  ghost predicate BoundTo(db: Database, p: Purpose, id: RowId) {
    ValidPurpose(p) && Bound(db, p) == Some(id)
  }

  /** A job whose key is that of a purpose is bound to a workflow. */
  ghost predicate Claimed(db: Database, id: RowId)
    requires id in db.jobs
  {
    forall p | ValidPurpose(p) && db.jobs[id].intentKey == KeyOf(p) ::
      exists q :: BoundTo(db, q, id) && SameJob(p, q)
  }

  ghost predicate JobsAreClaimed(db: Database) {
    forall id | id in db.jobs :: Claimed(db, id)
  }

  ghost predicate Inv(db: Database) {
    TableOk(db.jobs) && RepositoriesOk(db) && PoliciesOk(db.policies) && WorkflowsOk(db)
    && BindingsOk(db) && JobsAreClaimed(db)
  }

  // Enqueueing for a purpose

  ghost function EnqueueFor(jobs: Table, p: Purpose, t: Target, now: Time, newId: RowId)
    : (Table, Result<RowId, SecurityError>)
  {
    var r := EnqueueStep(jobs, IntentOf(p, t, now), now, newId);
    (r.0, if r.1.Success? then Success(r.1.value.0.id) else Failure(InConflict))
  }

  lemma EnqueueKnown(jobs: Table, p: Purpose, t: Target, now: Time, newId: RowId, id: RowId)
    requires TableOk(jobs) && id in jobs && ValidPurpose(p) && now != ZeroTime
    requires jobs[id].intentKey == KeyOf(p) && SameIntent(jobs[id], IntentOf(p, t, now))
    ensures EnqueueFor(jobs, p, t, now, newId) == (jobs, Success(id))
  {
    IntentIsValid(p, t, now);
    hide KeyOf, PayloadText, RowOk, ValidIntent, ValidPurpose;
    assert HasIntent(jobs, KeyOf(p));
  }

  lemma EnqueueNew(jobs: Table, p: Purpose, t: Target, now: Time, newId: RowId)
    requires ValidPurpose(p) && now != ZeroTime && !HasIntent(jobs, KeyOf(p))
    ensures EnqueueFor(jobs, p, t, now, newId)
         == if newId in jobs then (jobs, Failure(InConflict))
            else (jobs[newId := NewRow(newId, IntentOf(p, t, now), now)], Success(newId))
  {
    IntentIsValid(p, t, now);
    hide KeyOf, PayloadText, ValidIntent, ValidPurpose;
  }

  // EnsureWorkflow

  ghost predicate WorkflowIdTaken(db: Database, id: Id) {
    (exists s :: s in db.workflows && db.workflows[s].id == id)
    || (exists k :: k in db.signatures && db.signatures[k].id == id)
  }

  /** The scan job and then the job for the bill of materials, in one transaction. */
  ghost function EnqueueBoth(jobs: Table, target: Target, now: Time, ids: NewIds)
    : Result<(Table, RowId, RowId), SecurityError>
  {
    var scan := EnqueueFor(jobs, Scan(target.subject), target, now, ids.job);
    if scan.1.Failure? then Failure(scan.1.error)
    else
      var sbom := EnqueueFor(scan.0, Sbom(target.subject), target, now, ids.other);
      if sbom.1.Failure? then Failure(sbom.1.error) else Success((sbom.0, scan.1.value, sbom.1.value))
  }

  /** INSERT ... ON CONFLICT (repository_id, digest) DO NOTHING, then compare with the row there is. */
  ghost function BindStep(db: Database, s: Subject, enqueued: (Table, RowId, RowId), now: Time, id: Id)
    : (Database, Result<(Workflow, bool), SecurityError>)
  {
    var (jobs, scanJob, sbomJob) := enqueued;
    if s in db.workflows then
      if db.workflows[s].scanJob != scanJob || db.workflows[s].sbomJob != sbomJob
      then (db, Failure(InConflict))
      else (db.(jobs := jobs), Success((db.workflows[s], false)))
    else if WorkflowIdTaken(db, id) then (db, Failure(InConflict))
    else
      var row := Workflow(id, scanJob, sbomJob, now);
      (db.(jobs := jobs, workflows := db.workflows[s := row]), Success((row, true)))
  }

  ghost function EnsureKnown(db: Database, target: Target, now: Time, ids: NewIds)
    : (Database, Result<(Workflow, bool), SecurityError>)
  {
    match EnqueueBoth(db.jobs, target, now, ids)
    case Failure(e) => (db, Failure(e))
    case Success(enqueued) => BindStep(db, target.subject, enqueued, now, ids.workflow)
  }

  ghost function EnsureStep(db: Database, target: Target, now: Time, ids: NewIds)
    : (Database, Result<(Workflow, bool), SecurityError>)
  {
    var s := target.subject;
    if !ValidTarget(target) || now == ZeroTime then (db, Failure(Invalid))
    else if s !in db.artifacts || s.repositoryId !in db.repositories then (db, Failure(NotFound))
    else if TargetOf(db, s) != target then (db, Failure(InConflict))
    else
      EnsureKnown(db, target, now, ids)
  }

  /** What a caller must meet: a valid target that exists under its names. */
  predicate Known(db: Database, target: Target) {
    ValidTarget(target) && target.subject in db.artifacts
    && target.subject.repositoryId in db.repositories && TargetOf(db, target.subject) == target
  }

  function TargetError(db: Database, target: Target): SecurityError {
    if !ValidTarget(target) then Invalid
    else if target.subject !in db.artifacts || target.subject.repositoryId !in db.repositories then NotFound
    else InConflict
  }

  /** EnsureWorkflow by the checks on its target. */
  lemma EnsureStepByTarget(db: Database, target: Target, now: Time, ids: NewIds)
    ensures now == ZeroTime ==> EnsureStep(db, target, now, ids) == (db, Failure(Invalid))
    ensures now != ZeroTime && !Known(db, target) ==>
              EnsureStep(db, target, now, ids) == (db, Failure(TargetError(db, target)))
    ensures now != ZeroTime && Known(db, target) ==>
              EnsureStep(db, target, now, ids) == EnsureKnown(db, target, now, ids)
  {
    hide ValidTarget, EnsureKnown;
  }

  ghost predicate Fresh(db: Database, ids: NewIds) {
    ids.job !in db.jobs && ids.other !in db.jobs && ids.job != ids.other
    && !WorkflowIdTaken(db, ids.workflow)
  }

  /** The rows that a first EnsureWorkflow adds. */
  function WithWorkflow(db: Database, target: Target, now: Time, ids: NewIds): Database
    requires ids.job !in db.jobs && ids.other !in db.jobs && ids.job != ids.other
  {
    var s := target.subject;
    db.(jobs := db.jobs[ids.job := NewRow(ids.job, IntentOf(Scan(s), target, now), now)]
                       [ids.other := NewRow(ids.other, IntentOf(Sbom(s), target, now), now)],
        workflows := db.workflows[s := Workflow(ids.workflow, ids.job, ids.other, now)])
  }

  ghost predicate BoundAs(db: Database, p: Purpose) {
    exists q :: SameJob(p, q) && Bound(db, q).Some?
  }

  lemma IntentIsBound(db: Database, p: Purpose)
    requires Inv(db) && ValidPurpose(p)
    ensures HasIntent(db.jobs, KeyOf(p)) ==> BoundAs(db, p)
  {
    hide KeyOf, ValidPurpose, SameJob, TableOk, RepositoriesOk, PoliciesOk, WorkflowsOk, BindingsOk, Bound;
    if id :| id in db.jobs && db.jobs[id].intentKey == KeyOf(p) {
      assert Claimed(db, id);
      var q :| BoundTo(db, q, id) && SameJob(p, q);
      assert Bound(db, q).Some?;
    }
  }

  lemma BoundJobIsKnown(db: Database, p: Purpose, now: Time)
    requires Inv(db) && Bound(db, p).Some? && p.of.repositoryId in db.repositories
    ensures var id := Bound(db, p).value;
            id in db.jobs && db.jobs[id].intentKey == KeyOf(p)
            && SameIntent(db.jobs[id], IntentOf(p, TargetOf(db, p.of), now))
  {
    hide KeyOf, PayloadText, TableOk, RepositoriesOk, PoliciesOk, WorkflowsOk, JobsAreClaimed;
    assert JobFor(db, p, Bound(db, p).value);
  }

  lemma EnqueueBothAgain(db: Database, target: Target, now: Time, ids: NewIds)
    requires Inv(db) && now != ZeroTime && Known(db, target) && target.subject in db.workflows
    ensures var row := db.workflows[target.subject];
            EnqueueBoth(db.jobs, target, now, ids) == Success((db.jobs, row.scanJob, row.sbomJob))
  {
    hide KeyOf, PayloadText, Inv, EnqueueFor, IntentOf, SameIntent, IsName;
    var s := target.subject;
    assert ValidPurpose(Scan(s)) && ValidPurpose(Sbom(s));
    hide ValidPurpose;
    BoundJobIsKnown(db, Scan(s), now);
    BoundJobIsKnown(db, Sbom(s), now);
    TableOfInv(db);
    EnqueueKnown(db.jobs, Scan(s), target, now, ids.job, db.workflows[s].scanJob);
    EnqueueKnown(db.jobs, Sbom(s), target, now, ids.other, db.workflows[s].sbomJob);
  }

  lemma EnqueueBothFirst(db: Database, target: Target, now: Time, ids: NewIds)
    requires Inv(db) && now != ZeroTime && Known(db, target) && target.subject !in db.workflows
    ensures EnqueueBoth(db.jobs, target, now, ids)
         == if ids.job !in db.jobs && ids.other !in db.jobs && ids.job != ids.other then
              Success((WithWorkflow(db, target, now, ids).jobs, ids.job, ids.other))
            else Failure(InConflict)
  {
    hide KeyOf, PayloadText, Inv, EnqueueFor, IntentOf, NewRow, HasIntent, IsName;
    var s := target.subject;
    assert ValidPurpose(Scan(s)) && ValidPurpose(Sbom(s));
    IntentIsBound(db, Scan(s));
    IntentIsBound(db, Sbom(s));
    assert !BoundAs(db, Scan(s)) && !BoundAs(db, Sbom(s));
    EnqueueNew(db.jobs, Scan(s), target, now, ids.job);
    SecondIntent(db.jobs, s, target, now, ids.job);
    EnqueueNew(EnqueueFor(db.jobs, Scan(s), target, now, ids.job).0, Sbom(s), target, now, ids.other);
  }

  /**
   EnsureWorkflow never reports a conflict on a known target, but for identifiers that are taken.
   It is idempotent: the first call adds one workflow and its two jobs, a later one changes nothing.
   */
  lemma EnsureOutcome(db: Database, target: Target, now: Time, ids: NewIds)
    requires Inv(db) && now != ZeroTime
    ensures EnsureStep(db, target, now, ids)
         == if !Known(db, target) then (db, Failure(TargetError(db, target)))
            else if target.subject in db.workflows then (db, Success((db.workflows[target.subject], false)))
            else if Fresh(db, ids) then
              (WithWorkflow(db, target, now, ids),
               Success((Workflow(ids.workflow, ids.job, ids.other, now), true)))
            else (db, Failure(InConflict))
  {
    EnsureStepByTarget(db, target, now, ids);
    hide Inv, EnsureStep, EnqueueBoth, NewRow, ValidTarget, WorkflowIdTaken;
    if Known(db, target) {
      if target.subject in db.workflows {
        EnqueueBothAgain(db, target, now, ids);
      } else {
        EnqueueBothFirst(db, target, now, ids);
      }
    }
  }

  lemma TableOfInv(db: Database)
    requires Inv(db)
    ensures TableOk(db.jobs) && RepositoriesOk(db) && WorkflowsOk(db) && PoliciesOk(db.policies)
  {
    hide TableOk, RepositoriesOk, WorkflowsOk, PoliciesOk, BindingsOk, JobsAreClaimed;
  }

  lemma SecondIntent(jobs: Table, s: Subject, target: Target, now: Time, newId: RowId)
    requires ValidSubject(s) && now != ZeroTime
    requires !HasIntent(jobs, KeyOf(Scan(s))) && !HasIntent(jobs, KeyOf(Sbom(s)))
    ensures !HasIntent(EnqueueFor(jobs, Scan(s), target, now, newId).0, KeyOf(Sbom(s)))
  {
    EnqueueNew(jobs, Scan(s), target, now, newId);
    KeysDiffer(Scan(s), Sbom(s));
    hide KeyOf, PayloadText, EnqueueFor, ValidSubject;
  }

  // Keeping the invariant

  /** A database with more bindings, each to a new job of its own, and no other new job. */
  ghost predicate Binds(db: Database, db': Database) {
    db'.repositories == db.repositories
    && (forall id | id in db.jobs :: id in db'.jobs && db'.jobs[id] == db.jobs[id])
    && (forall p | Bound(db, p).Some? :: Bound(db', p) == Bound(db, p))
    && (forall p | Bound(db, p).None? && Bound(db', p).Some? ::
          ValidPurpose(p) && JobFor(db', p, Bound(db', p).value))
    && (forall id | id in db'.jobs && id !in db.jobs ::
          exists p :: BoundTo(db', p, id) && db'.jobs[id].intentKey == KeyOf(p))
  }

  lemma BindsKeeps(db: Database, db': Database)
    requires Inv(db) && Binds(db, db')
    ensures BindingsOk(db') && JobsAreClaimed(db')
  {
    hide KeyOf, PayloadText, TableOk, RepositoriesOk, PoliciesOk, WorkflowsOk, Bound, ValidPurpose, SameJob;
    forall p | Bound(db', p).Some? ensures JobFor(db', p, Bound(db', p).value) {
      if Bound(db, p).Some? {
        assert JobFor(db, p, Bound(db, p).value);
      }
    }
    forall id | id in db'.jobs ensures Claimed(db', id) {
      if id in db.jobs {
        assert Claimed(db, id);
        StillClaimed(db, db', id);
      } else {
        NewlyClaimed(db', id);
      }
    }
  }

  lemma StillClaimed(db: Database, db': Database, id: RowId)
    requires id in db.jobs && Claimed(db, id) && id in db'.jobs
    requires db'.jobs[id].intentKey == db.jobs[id].intentKey
    requires forall p | Bound(db, p).Some? :: Bound(db', p) == Bound(db, p)
    ensures Claimed(db', id)
  {
    hide KeyOf, Bound, ValidPurpose, SameJob;
    forall p | ValidPurpose(p) && db'.jobs[id].intentKey == KeyOf(p)
      ensures exists q :: BoundTo(db', q, id) && SameJob(p, q)
    {
      var q :| BoundTo(db, q, id) && SameJob(p, q);
      assert BoundTo(db', q, id);
    }
  }

  lemma NewlyClaimed(db: Database, id: RowId)
    requires id in db.jobs && exists p :: BoundTo(db, p, id) && db.jobs[id].intentKey == KeyOf(p)
    ensures Claimed(db, id)
  {
    var p :| BoundTo(db, p, id) && db.jobs[id].intentKey == KeyOf(p);
    forall q | ValidPurpose(q) && db.jobs[id].intentKey == KeyOf(q)
      ensures exists r :: BoundTo(db, r, id) && SameJob(q, r)
    {
      KeysDiffer(q, p);
    }
  }

  /** No security job has this intent key. */
  ghost predicate ForNoPurpose(key: string) {
    forall p | ValidPurpose(p) :: KeyOf(p) != key
  }

  /** The invariant survives whatever the queue does to rows, and jobs for other ends. */
  lemma QueueKeepsInv(db: Database, jobs: Table)
    requires Inv(db) && TableOk(jobs) && TableEvolves(db.jobs, jobs)
    requires forall id | id in jobs && id !in db.jobs :: ForNoPurpose(jobs[id].intentKey)
    ensures Inv(db.(jobs := jobs))
  {
    hide KeyOf, PayloadText, TableOk, RowMeasure, ValidPurpose, IsName, IsUuid, ValidSubject;
    var db' := db.(jobs := jobs);
    assert forall p :: Bound(db', p) == Bound(db, p);
    assert RepositoriesOk(db') && WorkflowsOk(db') by {
      hide Claimed, JobFor, PoliciesOk;
    }
    hide Bound, RepositoriesOk, PoliciesOk, WorkflowsOk;
    forall p | Bound(db', p).Some? ensures JobFor(db', p, Bound(db', p).value) {
      assert JobFor(db, p, Bound(db, p).value);
    }
    forall id | id in jobs ensures Claimed(db', id) {
      if id in db.jobs {
        assert Claimed(db, id);
        StillClaimed(db, db', id);
      }
    }
  }

  lemma EnsureKeepsInv(db: Database, target: Target, now: Time, ids: NewIds)
    requires Inv(db)
    ensures Inv(EnsureStep(db, target, now, ids).0)
  {
    hide Inv, EnqueueBoth, ValidTarget, WithWorkflow, WorkflowIdTaken, Known;
    if now != ZeroTime {
      EnsureOutcome(db, target, now, ids);
      hide EnsureStep;
      if Known(db, target) && target.subject !in db.workflows && Fresh(db, ids) {
        WithWorkflowKeepsInv(db, target, now, ids);
      }
    }
  }

  lemma WithWorkflowTable(db: Database, target: Target, now: Time, ids: NewIds)
    requires Inv(db) && now != ZeroTime && Known(db, target) && target.subject !in db.workflows
    requires Fresh(db, ids)
    ensures TableOk(WithWorkflow(db, target, now, ids).jobs)
  {
    var s := target.subject;
    hide KeyOf, PayloadText, IsName, Evolves, RowOk, NewRow;
    assert ValidPurpose(Scan(s)) && ValidPurpose(Sbom(s));
    IntentIsBound(db, Scan(s));
    IntentIsBound(db, Sbom(s));
    assert !BoundAs(db, Scan(s)) && !BoundAs(db, Sbom(s));
    TableOfInv(db);
    hide Inv, HasIntent, TableOk, ValidSubject;
    EnqueueNew(db.jobs, Scan(s), target, now, ids.job);
    SecondIntent(db.jobs, s, target, now, ids.job);
    var first := EnqueueFor(db.jobs, Scan(s), target, now, ids.job).0;
    EnqueueNew(first, Sbom(s), target, now, ids.other);
    hide EnqueueStep;
    EnqueueKeepsTable(db.jobs, IntentOf(Scan(s), target, now), now, ids.job);
    EnqueueKeepsTable(first, IntentOf(Sbom(s), target, now), now, ids.other);
  }

  lemma WithWorkflowKeepsInv(db: Database, target: Target, now: Time, ids: NewIds)
    requires Inv(db) && now != ZeroTime && Known(db, target) && target.subject !in db.workflows
    requires Fresh(db, ids)
    ensures Inv(WithWorkflow(db, target, now, ids))
  {
    var db' := WithWorkflow(db, target, now, ids);
    hide WithWorkflow, TableOk, RepositoriesOk, PoliciesOk, WorkflowsOk, BindingsOk, JobsAreClaimed, Fresh, Known;
    WithWorkflowTable(db, target, now, ids);
    WithWorkflowRows(db, target, now, ids);
    WithWorkflowBinds(db, target, now, ids);
    BindsKeeps(db, db');
  }

  lemma WithWorkflowRows(db: Database, target: Target, now: Time, ids: NewIds)
    requires RepositoriesOk(db) && WorkflowsOk(db) && Known(db, target) && Fresh(db, ids)
    ensures var db' := WithWorkflow(db, target, now, ids);
            RepositoriesOk(db') && WorkflowsOk(db') && db'.policies == db.policies
  {
    hide ValidTarget, IsName, IsUuid, ValidSubject, NewRow, IntentOf;
  }

  lemma WithWorkflowBinds(db: Database, target: Target, now: Time, ids: NewIds)
    requires Known(db, target) && target.subject !in db.workflows && Fresh(db, ids)
    ensures Binds(db, WithWorkflow(db, target, now, ids))
  {
    hide KeyOf, PayloadText, IsName, IsUuid, IsDigest, KindOf;
    var s := target.subject;
    var db' := WithWorkflow(db, target, now, ids);
    assert ValidPurpose(Scan(s)) && ValidPurpose(Sbom(s));
    assert JobFor(db', Scan(s), ids.job) && JobFor(db', Sbom(s), ids.other);
    assert BoundTo(db', Scan(s), ids.job) && db'.jobs[ids.job].intentKey == KeyOf(Scan(s));
    assert BoundTo(db', Sbom(s), ids.other) && db'.jobs[ids.other].intentKey == KeyOf(Sbom(s));
    hide JobFor, ValidPurpose, NewRow, IntentOf, WorkflowIdTaken;
  }

  // The rows that EnsureWorkflow writes

  /** The parts of a payload between its quotes: the members of the object in the column's own order. */
  lemma PayloadReads(p: Purpose, t: Target)
    requires ValidPurpose(p) && ValidTarget(t) && t.subject == p.of && !p.Verify?
    ensures Split(PayloadText(p, t), '"')
         == ["{", "digest", ": ", t.subject.digest, ", ", "namespace", ": ", t.namespace, ", ",
             "repository", ": ", t.repository, ", ", "repository_id", ": ", t.subject.repositoryId, ", ",
             "workflow_version", ": ", "v1", "}"]
  {
    NoQuotes(p, t);
    hide ValidPurpose, ValidTarget;
    SplitOfJoin(PartsFor(p, t), '"');
  }

  /** A workflow that is created has a scan job and a job for the bill of materials, queued and due at once. */
  lemma CreatedJobs(db: Database, target: Target, now: Time, ids: NewIds)
    requires Inv(db) && EnsureStep(db, target, now, ids).1.Success? && EnsureStep(db, target, now, ids).1.value.1
    ensures var (after, s) := (EnsureStep(db, target, now, ids).0, target.subject);
            && s in after.workflows && after.workflows[s] == EnsureStep(db, target, now, ids).1.value.0
            && after.workflows[s].id == ids.workflow && after.workflows[s].createdAt == now
            && s !in db.workflows && (forall x | x in db.workflows :: db.workflows[x].id != ids.workflow)
            && (forall k | k in db.signatures :: db.signatures[k].id != ids.workflow)
            && after.workflows[s].scanJob in after.jobs && after.workflows[s].sbomJob in after.jobs
            && var (scan, sbom) := (after.jobs[after.workflows[s].scanJob], after.jobs[after.workflows[s].sbomJob]);
               && scan.kind == "TRIVY_SCAN" && sbom.kind == "TRIVY_SBOM"
               && scan.intentKey == "security-scan:" + s.repositoryId + ":" + s.digest
               && sbom.intentKey == "security-sbom:" + s.repositoryId + ":" + s.digest
               && scan.payload == Object(PayloadText(Scan(s), target)) == sbom.payload
               && scan.state == Queued && sbom.state == Queued && scan.attempts == 0 && sbom.attempts == 0
               && scan.maxAttempts == 3 && sbom.maxAttempts == 3
               && scan.availableAt == now && sbom.availableAt == now
  {
    hide Inv, EnqueueBoth, ValidTarget, Join;
    EnsureStepByTarget(db, target, now, ids);
    if now != ZeroTime {
      EnsureOutcome(db, target, now, ids);
    }
    hide EnsureStep, EnsureKnown;
  }

  /** Which error a target meets: an invalid one, one that is no artifact, or one under other names. */
  lemma EnsureErrorIs(db: Database, target: Target, now: Time, ids: NewIds)
    requires Inv(db)
    ensures var outcome := EnsureStep(db, target, now, ids).1;
            && (outcome == Failure(Invalid) <==> !ValidTarget(target) || now == 0)
            && (outcome == Failure(NotFound) <==> ValidTarget(target) && now != 0 && target.subject !in db.artifacts)
            && (ValidTarget(target) && now != 0 && target.subject in db.artifacts
                && target.subject.repositoryId in db.repositories
                && (db.repositories[target.subject.repositoryId].namespace != target.namespace
                    || db.repositories[target.subject.repositoryId].name != target.repository)
                ==> outcome == Failure(InConflict))
    ensures EnsureStep(db, target, now, ids).1.Failure? ==> EnsureStep(db, target, now, ids).0 == db
  {
    TableOfInv(db);
    EnsureStepByTarget(db, target, now, ids);
    assert target.subject in db.artifacts ==> target.subject.repositoryId in db.repositories;
    hide RepositoriesOk, PoliciesOk, WorkflowsOk, TableOk;
    if now != ZeroTime {
      EnsureOutcome(db, target, now, ids);
    }
    hide EnsureStep, ValidTarget, Inv, WithWorkflow, Fresh;
  }
}
