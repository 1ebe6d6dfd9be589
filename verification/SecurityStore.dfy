/** The store of security workflows: each method is one transaction, and repair is many. */
module SecurityStore {
  import opened Wrappers
  import opened Security
  import opened SecurityTables
  import opened TrustTables
  import opened WorkflowRepair
  import opened JobQueue
  import JobQueueRuns
  import JobStore

  /** Namespaces, repositories and artifacts are rows that other stores write. */
  class SecurityStore {
    const queue: JobStore.JobStore
    var namespaces: set<string>
    var repositories: map<string, Repository>
    var artifacts: map<Subject, Time>
    var workflows: map<Subject, Workflow>
    var policies: map<string, Policy>
    var signatures: map<(Subject, string), SignatureWorkflow>
    var nextId: nat

    ghost function Db(): Database
      reads this, queue
    {
      Database(namespaces, repositories, artifacts, queue.rows, workflows, policies, signatures)
    }

    ghost predicate Valid()
      reads this, queue
    {
      Inv(Db()) && IdsBelow(Db(), nextId)
    }

    constructor ()
      ensures Valid() && Db() == Database({}, map[], map[], map[], map[], map[], map[]) && fresh(queue)
    {
      queue := new JobStore.JobStore();
      namespaces, repositories, artifacts := {}, map[], map[];
      workflows, policies, signatures := map[], map[], map[];
      nextId := 1;
    }

    method DrawIds() returns (ids: NewIds)
      requires nextId > 0
      modifies this`nextId
      ensures ids == Drawn(old(nextId)) && nextId == old(nextId) + 3
    {
      ids := Drawn(nextId);
      nextId := nextId + 3;
    }

    /** Enqueues the job for a purpose, and gives its identifier. */
    method EnqueueJob(p: Purpose, target: Target, now: Time, newId: RowId)
      returns (r: Result<RowId, SecurityError>)
      requires JobQueueRuns.TableOk(queue.rows)
      modifies queue
      ensures JobQueueRuns.TableOk(queue.rows)
      ensures (queue.rows, r) == EnqueueFor(old(queue.rows), p, target, now, newId)
    {
      hide JobQueueRuns.TableOk, EnqueueStep, IntentOf;
      EnqueuedId(queue.rows, IntentOf(p, target, now), now, newId);
      var enqueued := queue.Enqueue(IntentOf(p, target, now), now, newId);
      match enqueued
      case Success(row) => r := Success(row.0.id);
      case Failure(_) => r := Failure(InConflict);
    }

    /** What must hold of a target before anything is written for it. */
    method CheckTarget(target: Target, now: Time) returns (error: Option<SecurityError>)
      ensures error.None? <==> now != ZeroTime && Known(Db(), target)
      ensures error.Some? ==> error.value == if now == ZeroTime then Invalid else TargetError(Db(), target)
    {
      hide ValidTarget;
      if !ValidTarget(target) || now == ZeroTime {
        return Some(Invalid);
      }
      var s := target.subject;
      if s !in artifacts || s.repositoryId !in repositories {
        return Some(NotFound);
      }
      var persisted := repositories[s.repositoryId];
      if persisted.namespace != target.namespace || persisted.name != target.repository {
        return Some(InConflict);
      }
      error := None;
    }

    /** The two jobs of a workflow, or neither. */
    method EnqueueJobs(target: Target, now: Time, ids: NewIds) returns (r: Result<(RowId, RowId), SecurityError>)
      requires JobQueueRuns.TableOk(queue.rows)
      modifies queue
      ensures JobQueueRuns.TableOk(queue.rows)
      ensures r.Success? ==>
                EnqueueBoth(old(queue.rows), target, now, ids) == Success((queue.rows, r.value.0, r.value.1))
      ensures r.Failure? ==>
                EnqueueBoth(old(queue.rows), target, now, ids) == Failure(r.error) && queue.rows == old(queue.rows)
    {
      hide JobQueueRuns.TableOk, EnqueueFor;
      var before := queue.rows;
      var scan := EnqueueJob(Scan(target.subject), target, now, ids.job);
      if scan.Failure? {
        queue.rows := before;
        return Failure(scan.error);
      }
      var sbom := EnqueueJob(Sbom(target.subject), target, now, ids.other);
      if sbom.Failure? {
        queue.rows := before;
        return Failure(sbom.error);
      }
      r := Success((scan.value, sbom.value));
    }

    method EnsureWorkflow(target: Target, now: Time) returns (r: Result<(Workflow, bool), SecurityError>)
      requires Valid()
      modifies this`workflows, this`nextId, queue
      ensures (Db(), r) == EnsureStep(old(Db()), target, now, Drawn(old(nextId)))
      ensures Inv(Db()) && nextId == old(nextId) + 3
    {
      EnsureKeepsInv(Db(), target, now, Drawn(nextId));
      EnsureStepByTarget(Db(), target, now, Drawn(nextId));
      TableOfInv(Db());
      hide Inv, IdsBelow, EnsureStep, EnsureKnown, Known, TargetError, JobQueueRuns.TableOk;
      var ids := DrawIds();
      var error := CheckTarget(target, now);
      if error.Some? {
        return Failure(error.value);
      }
      r := EnsureForKnown(target, now, ids);
    }

    method EnsureForKnown(target: Target, now: Time, ids: NewIds) returns (r: Result<(Workflow, bool), SecurityError>)
      requires JobQueueRuns.TableOk(queue.rows)
      modifies this`workflows, queue
      ensures (Db(), r) == EnsureKnown(old(Db()), target, now, ids)
    {
      hide JobQueueRuns.TableOk, EnqueueBoth, BindStep;
      ghost var db := Db();
      var before := queue.rows;
      var jobs := EnqueueJobs(target, now, ids);
      if jobs.Failure? {
        return Failure(jobs.error);
      }
      assert Db().(jobs := before) == db;
      r := BindWorkflow(target.subject, before, jobs.value.0, jobs.value.1, now, ids.workflow);
    }

    /** Binds the image to its two jobs, or takes them back. */
    method BindWorkflow(s: Subject, before: Table, scanJob: RowId, sbomJob: RowId, now: Time, id: Id)
      returns (r: Result<(Workflow, bool), SecurityError>)
      modifies this`workflows, queue
      ensures (Db(), r) == BindStep(old(Db()).(jobs := before), s, (old(queue.rows), scanJob, sbomJob), now, id)
    {
      var created := false;
      if s !in workflows {
        var taken := IsIdTaken(id);
        assert taken <==> WorkflowIdTaken(old(Db()).(jobs := before), id);
        hide WorkflowIdTaken;
        if taken {
          queue.rows := before;
          return Failure(InConflict);
        }
        workflows := workflows[s := Workflow(id, scanJob, sbomJob, now)];
        created := true;
      }
      var current := workflows[s];
      if current.scanJob != scanJob || current.sbomJob != sbomJob {
        queue.rows := before;
        return Failure(InConflict);
      }
      r := Success((current, created));
    }

    method IsIdTaken(id: Id) returns (taken: bool)
      ensures taken <==> WorkflowIdTaken(Db(), id)
    {
      var ids := (set s | s in workflows :: workflows[s].id) + (set k | k in signatures :: signatures[k].id);
      taken := id in ids;
    }

    /** ORDER BY version DESC LIMIT 1. */
    method CurrentPolicy(namespaceId: string) returns (current: Option<string>)
      requires PoliciesOk(policies)
      ensures current == Current(policies, namespaceId)
    {
      hide PoliciesOk;
      CurrentIff(policies, namespaceId);
      var rest := policies.Keys;
      current := None;
      while rest != {}
        invariant rest <= policies.Keys
        invariant current.Some? ==> current.value in policies && policies[current.value].namespaceId == namespaceId
        invariant forall id | id in policies && id !in rest && policies[id].namespaceId == namespaceId ::
                    current.Some? && policies[id].version <= policies[current.value].version
      {
        var id :| id in rest;
        if policies[id].namespaceId == namespaceId
           && (current.None? || policies[current.value].version < policies[id].version) {
          current := Some(id);
        }
        rest := rest - {id};
      }
      if current.Some? {
        assert IsCurrent(policies, namespaceId, current.value);
      }
    }

    method CreateTrustPolicy(namespaceId: string, subjects: nat, newId: Uuid)
      returns (r: Result<Policy, SecurityError>)
      requires Valid()
      modifies this`policies
      ensures Valid() && (Db(), r) == CreatePolicyStep(old(Db()), namespaceId, subjects, newId)
    {
      hide Inv, IdsBelow, CreatePolicyStep;
      ghost var db := Db();
      CreatePolicyKeepsInv(db, namespaceId, subjects, newId);
      PolicyRow(db, namespaceId, subjects, newId);
      SameIds(db, CreatePolicyStep(db, namespaceId, subjects, newId).0, nextId);
      r := NewPolicy(namespaceId, subjects, newId);
      if r.Success? {
        policies := policies[newId := r.value];
      }
    }

    /** The policy row to insert, under the lock on its namespace. */
    method NewPolicy(namespaceId: string, subjects: nat, newId: Uuid) returns (r: Result<Policy, SecurityError>)
      requires Inv(Db())
      ensures r == CreatePolicyStep(Db(), namespaceId, subjects, newId).1
    {
      TableOfInv(Db());
      hide Inv, PoliciesOk, MaxVersion, JobQueueRuns.TableOk, RepositoriesOk, WorkflowsOk;
      if namespaceId == "" || subjects < 1 || subjects > MaxTrustPolicySubjects {
        return Failure(Invalid);
      }
      if namespaceId !in namespaces {
        return Failure(NotFound);
      }
      if newId in policies {
        return Failure(InConflict);
      }
      var max := LatestVersion(namespaceId);
      r := Success(Policy(namespaceId, max + 1));
    }

    method LatestVersion(namespaceId: string) returns (version: nat)
      requires PoliciesOk(policies)
      ensures version == MaxVersion(policies, namespaceId)
    {
      hide PoliciesOk;
      var current := CurrentPolicy(namespaceId);
      if current.None? {
        return 0;
      }
      version := policies[current.value].version;
    }

    method EnsureCurrentVerification(target: Target, now: Time)
      returns (r: Result<(SignatureWorkflow, bool), SecurityError>)
      requires Valid()
      modifies this`signatures, this`nextId, queue
      ensures (Db(), r) == EnsureVerificationStep(old(Db()), target, now, Drawn(old(nextId)))
      ensures Inv(Db()) && nextId == old(nextId) + 3
    {
      EnsureVerificationKeepsInv(Db(), target, now, Drawn(nextId));
      VerificationStepByTarget(Db(), target, now, Drawn(nextId));
      TableOfInv(Db());
      hide Inv, IdsBelow, EnsureVerificationStep, EnsureUnderCurrentPolicy, ValidTarget, TargetError,
           JobQueueRuns.TableOk, PoliciesOk, WorkflowsOk, RepositoriesOk;
      var ids := DrawIds();
      var error := CheckTarget(target, now);
      if error.Some? {
        return Failure(error.value);
      }
      r := EnsureVerificationForKnown(target, now, ids);
    }

    method EnsureVerificationForKnown(target: Target, now: Time, ids: NewIds)
      returns (r: Result<(SignatureWorkflow, bool), SecurityError>)
      requires JobQueueRuns.TableOk(queue.rows) && PoliciesOk(policies)
      requires target.subject.repositoryId in repositories
      modifies this`signatures, queue
      ensures (Db(), r) == EnsureUnderCurrentPolicy(old(Db()), target, now, ids)
    {
      hide JobQueueRuns.TableOk, PoliciesOk, EnqueueFor, BindVerificationStep;
      ghost var db := Db();
      var before := queue.rows;
      var current := CurrentPolicy(repositories[target.subject.repositoryId].namespaceId);
      if current.None? {
        return Failure(NotFound);
      }
      assert current.value in policies;
      hide IsCurrent;
      var p := Verify(target.subject, current.value, policies[current.value].version);
      var job := EnqueueJob(p, target, now, ids.job);
      if job.Failure? {
        queue.rows := before;
        return Failure(job.error);
      }
      assert Db().(jobs := before) == db;
      r := BindVerification(p, before, job.value, now, ids.workflow);
    }

    /** Binds the image and policy to its job, or takes it back. */
    method BindVerification(p: Purpose, before: Table, job: RowId, now: Time, id: Id)
      returns (r: Result<(SignatureWorkflow, bool), SecurityError>)
      requires p.Verify?
      modifies this`signatures, queue
      ensures (Db(), r) == BindVerificationStep(old(Db()).(jobs := before), p, (old(queue.rows), job), now, id)
    {
      var k := (p.of, p.policyId);
      var created := false;
      if k !in signatures {
        var taken := IsIdTaken(id);
        assert taken <==> WorkflowIdTaken(old(Db()).(jobs := before), id);
        hide WorkflowIdTaken;
        if taken {
          queue.rows := before;
          return Failure(InConflict);
        }
        signatures := signatures[k := SignatureWorkflow(id, p.policyVersion, job, now)];
        created := true;
      }
      var row := signatures[k];
      if row.job != job || row.policyVersion != p.policyVersion {
        queue.rows := before;
        return Failure(InConflict);
      }
      r := Success((row, created));
    }

    // Repair

    method IsMissing(goal: Goal, s: Subject) returns (missing: bool)
      requires PoliciesOk(policies)
      requires s in artifacts && s.repositoryId in repositories
      ensures missing <==> Lacks(Db(), goal, s)
    {
      if goal.Workflows? {
        return s !in workflows;
      }
      var namespaceId := repositories[s.repositoryId].namespaceId;
      if goal.VerificationsIn? && namespaceId != goal.namespaceId {
        return false;
      }
      var current := CurrentPolicy(namespaceId);
      missing := current.Some? && (s, current.value) !in signatures;
    }

    method AllMissing(goal: Goal) returns (missing: set<Subject>)
      requires PoliciesOk(policies)
      ensures missing == Missing(Db(), goal)
    {
      hide Lacks, PoliciesOk;
      missing := {};
      var rest := artifacts.Keys;
      while rest != {}
        invariant rest <= artifacts.Keys
        invariant missing == Missing(Db(), goal) - rest
      {
        var s :| s in rest;
        if s.repositoryId in repositories {
          var lacks := IsMissing(goal, s);
          if lacks {
            missing := missing + {s};
          }
        }
        rest := rest - {s};
      }
    }

    method Least(subjects: set<Subject>) returns (least: Subject)
      requires subjects != {} && subjects <= artifacts.Keys
      ensures least in subjects
      ensures forall s | s in subjects && s != least :: Before(artifacts, least, s)
    {
      hide Before;
      least :| least in subjects;
      var rest := subjects - {least};
      while rest != {}
        invariant rest <= subjects && least in subjects && least !in rest
        invariant forall s | s in subjects && s !in rest && s != least :: Before(artifacts, least, s)
      {
        var s :| s in rest;
        BeforeIsStrictOrder(artifacts, least, s, s);
        forall x | x in subjects ensures Before(artifacts, s, least) && Before(artifacts, least, x)
                                         ==> Before(artifacts, s, x) {
          BeforeIsStrictOrder(artifacts, s, least, x);
        }
        if Before(artifacts, s, least) {
          least := s;
        }
        rest := rest - {s};
      }
    }

    method ListMissing(goal: Goal, limit: nat) returns (page: seq<Subject>)
      requires PoliciesOk(policies)
      ensures Missing(Db(), goal) <= artifacts.Keys
      ensures IsPage(artifacts, Missing(Db(), goal), limit, page)
    {
      hide PoliciesOk, Lacks, IsPage;
      var missing := AllMissing(goal);
      page := FirstPage(missing, limit);
    }

    /** ORDER BY discovered_at, repository_id, digest LIMIT. */
    method FirstPage(missing: set<Subject>, limit: nat) returns (page: seq<Subject>)
      requires missing <= artifacts.Keys
      ensures IsPage(artifacts, missing, limit, page)
    {
      hide Before;
      page := [];
      var rest := missing;
      while |page| < limit && rest != {}
        invariant rest <= missing && Members(page) == missing - rest
        invariant |page| <= limit && |page| + |rest| == |missing|
        invariant Ordered(artifacts, page)
        invariant forall s, later | s in page && later in rest :: Before(artifacts, s, later)
      {
        var s := Least(rest);
        MembersWith(page, s);
        rest := rest - {s};
        page := page + [s];
      }
      PageFound(artifacts, missing, rest, limit, page);
    }

    /** RepairMissingWorkflows, and its counterparts for verifications. */
    method Repair(goal: Goal, limit: int, now: Time) returns (repaired: nat, error: Option<SecurityError>)
      requires Valid()
      modifies this`workflows, this`signatures, this`nextId, queue
      ensures Valid()
      ensures limit < 1 || limit > MaxRepairBatch || now == ZeroTime || goal == VerificationsIn("") ==>
                error == Some(Invalid) && repaired == 0 && Db() == old(Db())
      ensures !(limit < 1 || limit > MaxRepairBatch || now == ZeroTime || goal == VerificationsIn("")) ==>
                error == None && Pass(old(Db()), goal, limit, Db())
                && repaired == |Missing(old(Db()), goal)| - |Missing(Db(), goal)|
    {
      if limit < 1 || limit > MaxRepairBatch || now == ZeroTime || goal == VerificationsIn("") {
        return 0, Some(Invalid);
      }
      TableOfInv(Db());
      hide Inv, IdsBelow, Missing, SameRegistry, Before, JobQueueRuns.TableOk, RepositoriesOk, WorkflowsOk, PoliciesOk;
      ghost var db := Db();
      var targets := ListMissing(goal, limit);
      PageIsDistinct(artifacts, targets);
      repaired := RepairPage(goal, targets, now);
      error := None;
      PassDone(db, goal, limit, Db(), targets);
    }

    /** Repairs the listed targets, one transaction each; in an undisturbed pass none of them fails. */
    method RepairPage(goal: Goal, page: seq<Subject>, now: Time) returns (repaired: nat)
      requires Valid() && now != ZeroTime
      requires Ordered(artifacts, page) && Members(page) <= Missing(Db(), goal)
      modifies this`workflows, this`signatures, this`nextId, queue
      ensures Valid() && repaired == |page| && SameRegistry(old(Db()), Db())
      ensures Missing(Db(), goal) == Missing(old(Db()), goal) - Members(page)
    {
      hide Inv, IdsBelow, Missing, RepairStep, SameRegistry, Before;
      ghost var db := Db();
      repaired := 0;
      SameAsBefore(db);
      for i := 0 to |page|
        invariant Inv(Db()) && IdsBelow(Db(), nextId) && SameRegistry(db, Db()) && repaired == i
        invariant Missing(Db(), goal) == Missing(db, goal) - Members(page[..i])
      {
        var s := page[i];
        NotYetRepaired(db.artifacts, page, i);
        InMissing(Db(), goal, s);
        SameRegistryAgain(db, Db());
        StepRepairs(Db(), goal, s, now, nextId);
        var repository := repositories[s.repositoryId];
        var outcome := RepairOne(goal, Target(s, repository.namespace, repository.name), now);
        if outcome.value {
          repaired := repaired + 1;
        }
        SameRegistryAgain(db, Db());
      }
      assert page[..|page|] == page;
    }

    /** One target of a repair. */
    method RepairOne(goal: Goal, target: Target, now: Time) returns (r: Result<bool, SecurityError>)
      requires Valid()
      modifies this`workflows, this`signatures, this`nextId, queue
      ensures (Db(), r) == RepairStep(old(Db()), goal, target, now, Drawn(old(nextId)))
      ensures nextId == old(nextId) + 3
    {
      hide Inv, IdsBelow, EnsureStep, EnsureVerificationStep;
      if goal.Workflows? {
        var ensured := EnsureWorkflow(target, now);
        match ensured
        case Success(workflow) => r := Success(workflow.1);
        case Failure(e) => r := Failure(e);
      } else {
        var ensured := EnsureCurrentVerification(target, now);
        match ensured
        case Success(workflow) => r := Success(workflow.1);
        case Failure(e) => r := Failure(e);
      }
    }
  }

  lemma EnqueuedId(jobs: Table, intent: Intent, now: Time, newId: RowId)
    ensures EnqueueStep(jobs, intent, now, newId).1.Success? ==>
              EnqueueStep(jobs, intent, now, newId).1.value.0.id != NoId
  {
  }

  lemma SameIds(db: Database, db': Database, n: nat)
    requires db'.jobs == db.jobs && db'.workflows == db.workflows && db'.signatures == db.signatures
    ensures IdsBelow(db', n) == IdsBelow(db, n)
  {
  }

  lemma PolicyRow(db: Database, namespaceId: string, subjects: nat, newId: Uuid)
    ensures var r := CreatePolicyStep(db, namespaceId, subjects, newId);
            r.0 == if r.1.Success? then db.(policies := db.policies[newId := r.1.value]) else db
  {
    hide MaxVersion;
  }

  lemma MembersWith(page: seq<Subject>, s: Subject)
    ensures Members(page + [s]) == Members(page) + {s}
  {
  }

  lemma PageFound(
      artifacts: map<Subject, Time>, missing: set<Subject>, rest: set<Subject>, limit: nat, page: seq<Subject>)
    requires rest <= missing <= artifacts.Keys && Members(page) == missing - rest && Ordered(artifacts, page)
    requires |page| <= limit && |page| + |rest| == |missing| && (|page| == limit || rest == {})
    requires forall s, later | s in page && later in rest :: Before(artifacts, s, later)
    ensures IsPage(artifacts, missing, limit, page)
  {
    hide Before;
    forall s, later | s in page && later in missing && later !in page ensures Before(artifacts, s, later) {
      assert later !in Members(page);
    }
  }

  lemma SameAsBefore(db: Database)
    ensures SameRegistry(db, db)
  {
  }

  lemma SameRegistryAgain(db: Database, db': Database)
    requires SameRegistry(db, db')
    ensures db'.artifacts == db.artifacts && db'.repositories == db.repositories
    ensures forall next | SameRegistry(db', next) :: SameRegistry(db, next)
  {
  }

  lemma InMissing(db: Database, goal: Goal, s: Subject)
    requires s in Missing(db, goal)
    ensures s in db.artifacts && s.repositoryId in db.repositories
  {
  }

  lemma NotYetRepaired(artifacts: map<Subject, Time>, page: seq<Subject>, i: nat)
    requires Ordered(artifacts, page) && i < |page|
    ensures page[i] in Members(page) && page[i] !in Members(page[..i])
    ensures Members(page[..i + 1]) == Members(page[..i]) + {page[i]}
  {
    assert page[..i + 1] == page[..i] + [page[i]];
    BeforeIsStrictOrder(artifacts, page[i], page[i], page[i]);
    hide Before;
  }

  lemma PassDone(db: Database, goal: Goal, limit: nat, db': Database, page: seq<Subject>)
    requires Inv(db') && SameRegistry(db, db') && Missing(db, goal) <= db.artifacts.Keys
    requires IsPage(db.artifacts, Missing(db, goal), limit, page) && |Members(page)| == |page|
    requires Missing(db', goal) == Missing(db, goal) - Members(page)
    ensures Pass(db, goal, limit, db')
    ensures |page| == |Missing(db, goal)| - |Missing(db', goal)|
  {
    hide Inv, Missing, SameRegistry, Before;
  }
}
