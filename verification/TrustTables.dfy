/** Trust policies of namespaces, and the verification workflow of an image under the current one. */
module TrustTables {
  import opened Wrappers
  import opened Security
  import opened SecurityTables
  import opened JobQueue
  import opened JobQueueRuns

  const MaxTrustPolicySubjects := 128

  // Policies

  /** The policy of the highest version in a namespace. */
  predicate IsCurrent(policies: map<string, Policy>, namespaceId: string, id: string) {
    id in policies && policies[id].namespaceId == namespaceId
    && forall other | other in policies && policies[other].namespaceId == namespaceId ::
         policies[other].version <= policies[id].version
  }

  ghost function Current(policies: map<string, Policy>, namespaceId: string): (current: Option<string>)
    ensures current.Some? ==> IsCurrent(policies, namespaceId, current.value)
  {
    if id :| IsCurrent(policies, namespaceId, id) then Some(id) else None
  }

  /** COALESCE(MAX(version), 0). */
  ghost function MaxVersion(policies: map<string, Policy>, namespaceId: string): nat {
    match Current(policies, namespaceId)
    case None => 0
    case Some(id) => policies[id].version
  }

  lemma {:induction false} CurrentAmong(policies: map<string, Policy>, namespaceId: string, ids: set<string>)
    requires ids != {} && forall id | id in ids :: id in policies && policies[id].namespaceId == namespaceId
    ensures exists id :: id in ids && forall other | other in ids :: policies[other].version <= policies[id].version
    decreases |ids|
  {
    var x :| x in ids;
    if ids == {x} {
      assert forall other | other in ids :: policies[other].version <= policies[x].version;
    } else {
      CurrentAmong(policies, namespaceId, ids - {x});
      var y :| y in ids - {x}
               && forall other | other in ids - {x} :: policies[other].version <= policies[y].version;
      var best := if policies[x].version <= policies[y].version then y else x;
      assert forall other | other in ids :: policies[other].version <= policies[best].version;
    }
  }

  /** A namespace has a current policy as soon as it has a policy, and only one. */
  lemma CurrentIff(policies: map<string, Policy>, namespaceId: string)
    ensures Current(policies, namespaceId).None?
       <==> forall id | id in policies :: policies[id].namespaceId != namespaceId
    ensures PoliciesOk(policies) ==>
              forall id | IsCurrent(policies, namespaceId, id) :: Current(policies, namespaceId) == Some(id)
  {
    var ids := set id | id in policies && policies[id].namespaceId == namespaceId;
    assert forall id | id in policies && policies[id].namespaceId == namespaceId :: id in ids;
    if ids != {} {
      CurrentAmong(policies, namespaceId, ids);
      var id :| id in ids && forall other | other in ids :: policies[other].version <= policies[id].version;
      assert IsCurrent(policies, namespaceId, id);
    }
  }

  /** The tables CreateTrustPolicy touches; keys and identities count only by number here. */
  ghost function CreatePolicyStep(db: Database, namespaceId: string, subjects: nat, newId: Uuid)
    : (Database, Result<Policy, SecurityError>)
  {
    if namespaceId == "" || subjects < 1 || subjects > MaxTrustPolicySubjects then (db, Failure(Invalid))
    else if namespaceId !in db.namespaces then (db, Failure(NotFound))
    else if newId in db.policies then (db, Failure(InConflict))
    else
      var policy := Policy(namespaceId, MaxVersion(db.policies, namespaceId) + 1);
      (db.(policies := db.policies[newId := policy]), Success(policy))
  }

  lemma NumberedPolicies(policies: map<string, Policy>, namespaceId: string, newId: Uuid)
    requires PoliciesOk(policies) && newId !in policies
    ensures var policy := Policy(namespaceId, MaxVersion(policies, namespaceId) + 1);
            PoliciesOk(policies[newId := policy]) && IsCurrent(policies[newId := policy], namespaceId, newId)
  {
    CurrentIff(policies, namespaceId);
    var max := MaxVersion(policies, namespaceId);
    var more := policies[newId := Policy(namespaceId, max + 1)];
    assert forall id | id in policies && policies[id].namespaceId == namespaceId :: policies[id].version <= max;
    forall id, v: nat | id in more && 1 <= v < more[id].version
      ensures HasVersion(more, more[id].namespaceId, v)
    {
      assert HasVersion(policies, more[id].namespaceId, v) by {
        if id == newId {
          var current := Current(policies, namespaceId).value;
          assert v < policies[current].version ==> HasVersion(policies, namespaceId, v);
          assert v == policies[current].version ==> policies[current] == Policy(namespaceId, v);
        } else {
          assert HasVersion(policies, policies[id].namespaceId, v);
        }
      }
      var holder :| holder in policies && policies[holder] == Policy(more[id].namespaceId, v);
      assert more[holder] == Policy(more[id].namespaceId, v);
    }
  }

  /** A new policy gets the next version, becomes the current one, and keeps the numbering. */
  lemma CreatePolicyKeepsInv(db: Database, namespaceId: string, subjects: nat, newId: Uuid)
    requires Inv(db)
    ensures Inv(CreatePolicyStep(db, namespaceId, subjects, newId).0)
    ensures CreatePolicyStep(db, namespaceId, subjects, newId).1.Success? ==>
              IsCurrent(CreatePolicyStep(db, namespaceId, subjects, newId).0.policies, namespaceId, newId)
  {
    hide PoliciesOk, TableOk, IsCurrent, BindingsOk, JobsAreClaimed, RepositoriesOk, MaxVersion;
    var db' := CreatePolicyStep(db, namespaceId, subjects, newId).0;
    if db' != db {
      NumberedPolicies(db.policies, namespaceId, newId);
      OnlyPoliciesChange(db, db'.policies);
    }
  }

  /** Only the version of a signature workflow's own policy matters to the other tables. */
  lemma OnlyPoliciesChange(db: Database, policies: map<string, Policy>)
    requires Inv(db) && PoliciesOk(policies)
    requires forall id | id in db.policies :: id in policies && policies[id] == db.policies[id]
    ensures Inv(db.(policies := policies))
  {
    hide PoliciesOk, TableOk, ValidPurpose, SameJob, KeyOf, PayloadText, ValidSubject, IsUuid;
    var db' := db.(policies := policies);
    assert WorkflowsOk(db');
    assert RepositoriesOk(db') by {
      hide WorkflowsOk, BindingsOk, JobsAreClaimed;
    }
    hide WorkflowsOk, RepositoriesOk;
    assert forall p :: Bound(db', p) == Bound(db, p);
    hide Bound;
    forall p | Bound(db', p).Some? ensures JobFor(db', p, Bound(db', p).value) {
      assert JobFor(db, p, Bound(db, p).value);
    }
    forall id | id in db'.jobs ensures Claimed(db', id) {
      assert Claimed(db, id);
      StillClaimed(db, db', id);
    }
  }

  /** A policy of 1 to 128 subjects is created in any namespace there is, with a number one above the highest. */
  lemma CreatePolicyIs(db: Database, namespaceId: string, subjects: nat, newId: Uuid)
    ensures var (after, outcome) := CreatePolicyStep(db, namespaceId, subjects, newId);
            && (outcome == Failure(Invalid) <==> namespaceId == "" || subjects == 0 || subjects > 128)
            && (outcome == Failure(NotFound)
                <==> namespaceId != "" && 0 < subjects < 129 && namespaceId !in db.namespaces)
            && (outcome == Failure(InConflict)
                <==> namespaceId != "" && 0 < subjects < 129 && namespaceId in db.namespaces && newId in db.policies)
            && (outcome.Failure? ==> after == db)
            && (outcome.Success? ==>
                  && newId !in db.policies && newId in after.policies
                  && after.policies[newId] == outcome.value && outcome.value.namespaceId == namespaceId
                  && (forall id | id in db.policies && db.policies[id].namespaceId == namespaceId ::
                        db.policies[id].version < outcome.value.version)
                  && (outcome.value.version == 1
                      || exists id :: id in db.policies && db.policies[id].namespaceId == namespaceId
                                      && db.policies[id].version == outcome.value.version - 1))
  {
    CurrentIff(db.policies, namespaceId);
    hide IsUuid, PoliciesOk;
  }

  // EnsureCurrentVerification

  ghost function EnsureVerificationStep(db: Database, target: Target, now: Time, ids: NewIds)
    : (Database, Result<(SignatureWorkflow, bool), SecurityError>)
  {
    var s := target.subject;
    if !ValidTarget(target) || now == ZeroTime then (db, Failure(Invalid))
    else if s !in db.artifacts || s.repositoryId !in db.repositories then (db, Failure(NotFound))
    else if TargetOf(db, s) != target then (db, Failure(InConflict))
    else
      EnsureUnderCurrentPolicy(db, target, now, ids)
  }

  /** The purpose of verifying an image under a policy. */
  function VerificationOf(db: Database, s: Subject, policyId: string): Purpose
    requires policyId in db.policies
  {
    Verify(s, policyId, db.policies[policyId].version)
  }

  ghost function EnsureUnderCurrentPolicy(db: Database, target: Target, now: Time, ids: NewIds)
    : (Database, Result<(SignatureWorkflow, bool), SecurityError>)
    requires target.subject.repositoryId in db.repositories
  {
    match Current(db.policies, NamespaceOf(db, target.subject))
    case None => (db, Failure(NotFound))
    case Some(policyId) =>
      var p := VerificationOf(db, target.subject, policyId);
      var enqueued := EnqueueFor(db.jobs, p, target, now, ids.job);
      if enqueued.1.Failure? then (db, Failure(enqueued.1.error))
      else BindVerificationStep(db, p, (enqueued.0, enqueued.1.value), now, ids.workflow)
  }

  /** INSERT ... ON CONFLICT (repository_id, digest, policy_id) DO NOTHING, then compare. */
  ghost function BindVerificationStep(db: Database, p: Purpose, enqueued: (Table, RowId), now: Time, id: Id)
    : (Database, Result<(SignatureWorkflow, bool), SecurityError>)
    requires p.Verify?
  {
    var (jobs, job) := enqueued;
    var k := (p.of, p.policyId);
    if k in db.signatures then
      if db.signatures[k].job != job || db.signatures[k].policyVersion != p.policyVersion
      then (db, Failure(InConflict))
      else (db.(jobs := jobs), Success((db.signatures[k], false)))
    else if WorkflowIdTaken(db, id) then (db, Failure(InConflict))
    else
      var row := SignatureWorkflow(id, p.policyVersion, job, now);
      (db.(jobs := jobs, signatures := db.signatures[k := row]), Success((row, true)))
  }

  /** EnsureCurrentVerification by the checks on its target and the current policy. */
  lemma VerificationStepByTarget(db: Database, target: Target, now: Time, ids: NewIds)
    ensures now == ZeroTime ==> EnsureVerificationStep(db, target, now, ids) == (db, Failure(Invalid))
    ensures now != ZeroTime && !Known(db, target) ==>
              EnsureVerificationStep(db, target, now, ids) == (db, Failure(TargetError(db, target)))
    ensures now != ZeroTime && Known(db, target) ==>
              EnsureVerificationStep(db, target, now, ids) == EnsureUnderCurrentPolicy(db, target, now, ids)
  {
    hide ValidTarget, EnsureUnderCurrentPolicy;
  }

  ghost predicate FreshJob(db: Database, ids: NewIds) {
    ids.job !in db.jobs && !WorkflowIdTaken(db, ids.workflow)
  }

  /** The rows that a first EnsureCurrentVerification adds. */
  function WithVerification(db: Database, target: Target, policyId: string, now: Time, ids: NewIds): Database
    requires ids.job !in db.jobs && policyId in db.policies
  {
    var s, version := target.subject, db.policies[policyId].version;
    db.(jobs := db.jobs[ids.job := NewRow(ids.job, IntentOf(Verify(s, policyId, version), target, now), now)],
        signatures := db.signatures[(s, policyId) := SignatureWorkflow(ids.workflow, version, ids.job, now)])
  }

  /**
   For a known target the current policy decides: without one there is nothing to verify, and
   otherwise the first call adds the workflow and its job and a later one changes nothing.
   */
  lemma EnsureVerificationOutcome(db: Database, target: Target, now: Time, ids: NewIds)
    requires Inv(db) && now != ZeroTime
    ensures EnsureVerificationStep(db, target, now, ids)
         == if !Known(db, target) then (db, Failure(TargetError(db, target)))
            else
              match Current(db.policies, NamespaceOf(db, target.subject))
              case None => (db, Failure(NotFound))
              case Some(policyId) =>
                var k := (target.subject, policyId);
                if k in db.signatures then (db, Success((db.signatures[k], false)))
                else if FreshJob(db, ids) then
                  (WithVerification(db, target, policyId, now, ids),
                   Success((SignatureWorkflow(ids.workflow, db.policies[policyId].version, ids.job, now), true)))
                else (db, Failure(InConflict))
  {
    VerificationStepByTarget(db, target, now, ids);
    hide Inv, EnsureVerificationStep, ValidTarget, WorkflowIdTaken, EnqueueFor, NewRow, IntentOf;
    if Known(db, target) && Current(db.policies, NamespaceOf(db, target.subject)).Some? {
      var policyId := Current(db.policies, NamespaceOf(db, target.subject)).value;
      if (target.subject, policyId) in db.signatures {
        VerificationAgain(db, target, policyId, now, ids);
      } else {
        VerificationFirst(db, target, policyId, now, ids);
      }
    }
  }

  lemma VerificationAgain(db: Database, target: Target, policyId: string, now: Time, ids: NewIds)
    requires Inv(db) && now != ZeroTime && Known(db, target) && (target.subject, policyId) in db.signatures
    ensures policyId in db.policies
    ensures var row, version := db.signatures[(target.subject, policyId)], db.policies[policyId].version;
            EnqueueFor(db.jobs, Verify(target.subject, policyId, version), target, now, ids.job)
            == (db.jobs, Success(row.job)) && row.policyVersion == version
  {
    TableOfInv(db);
    var p := Verify(target.subject, policyId, db.policies[policyId].version);
    assert ValidPurpose(p) && Bound(db, p) == Some(db.signatures[(target.subject, policyId)].job);
    hide KeyOf, PayloadText, Inv, EnqueueFor, IntentOf, SameIntent, IsUuid, PoliciesOk, RepositoriesOk,
         ValidPurpose, TableOk;
    BoundJobIsKnown(db, p, now);
    EnqueueKnown(db.jobs, p, target, now, ids.job, db.signatures[(target.subject, policyId)].job);
  }

  lemma VerificationIsValid(db: Database, s: Subject, policyId: string)
    requires Inv(db) && s in db.artifacts && policyId in db.policies
    ensures ValidPurpose(VerificationOf(db, s, policyId))
  {
    hide TableOk, WorkflowsOk, BindingsOk, JobsAreClaimed, IsUuid, ValidSubject;
    assert ValidSubject(s) && IsUuid(policyId);
  }

  lemma NotYetBound(db: Database, s: Subject, policyId: string)
    requires Inv(db) && s in db.artifacts && policyId in db.policies && (s, policyId) !in db.signatures
    ensures !HasIntent(db.jobs, KeyOf(VerificationOf(db, s, policyId)))
  {
    hide Inv, KeyOf, ValidPurpose, HasIntent;
    VerificationIsValid(db, s, policyId);
    IntentIsBound(db, VerificationOf(db, s, policyId));
    assert !BoundAs(db, VerificationOf(db, s, policyId));
  }

  lemma VerificationFirst(db: Database, target: Target, policyId: string, now: Time, ids: NewIds)
    requires Inv(db) && now != ZeroTime && Known(db, target)
    requires policyId in db.policies && (target.subject, policyId) !in db.signatures
    ensures EnqueueFor(db.jobs, VerificationOf(db, target.subject, policyId), target, now, ids.job)
         == if ids.job !in db.jobs then
              (WithVerification(db, target, policyId, now, ids).jobs, Success(ids.job))
            else (db.jobs, Failure(InConflict))
  {
    hide Inv, KeyOf, ValidPurpose, HasIntent, ValidTarget, EnqueueFor, IntentOf, NewRow;
    VerificationIsValid(db, target.subject, policyId);
    NotYetBound(db, target.subject, policyId);
    EnqueueNew(db.jobs, VerificationOf(db, target.subject, policyId), target, now, ids.job);
  }

  lemma WithVerificationBinds(db: Database, target: Target, policyId: string, now: Time, ids: NewIds)
    requires Inv(db) && Known(db, target) && policyId in db.policies
    requires (target.subject, policyId) !in db.signatures && ids.job !in db.jobs
    ensures Binds(db, WithVerification(db, target, policyId, now, ids))
  {
    hide KeyOf, PayloadText, KindOf, Inv, ValidTarget, ValidPurpose;
    var p := VerificationOf(db, target.subject, policyId);
    var db' := WithVerification(db, target, policyId, now, ids);
    VerificationIsValid(db, target.subject, policyId);
    assert JobFor(db', p, ids.job);
    assert BoundTo(db', p, ids.job) && db'.jobs[ids.job].intentKey == KeyOf(p);
    hide JobFor, NewRow, IntentOf;
  }

  lemma WithVerificationKeepsInv(db: Database, target: Target, policyId: string, now: Time, ids: NewIds)
    requires Inv(db) && now != ZeroTime && Known(db, target) && policyId in db.policies
    requires (target.subject, policyId) !in db.signatures && FreshJob(db, ids)
    ensures Inv(WithVerification(db, target, policyId, now, ids))
  {
    var db' := WithVerification(db, target, policyId, now, ids);
    WithVerificationTables(db, target, policyId, now, ids);
    WithVerificationBinds(db, target, policyId, now, ids);
    hide WithVerification, TableOk, RepositoriesOk, PoliciesOk, WorkflowsOk, BindingsOk, JobsAreClaimed, Known;
    BindsKeeps(db, db');
  }

  lemma WithVerificationTables(db: Database, target: Target, policyId: string, now: Time, ids: NewIds)
    requires Inv(db) && now != ZeroTime && Known(db, target) && policyId in db.policies
    requires (target.subject, policyId) !in db.signatures && ids.job !in db.jobs
    ensures var db' := WithVerification(db, target, policyId, now, ids);
            TableOk(db'.jobs) && RepositoriesOk(db') && WorkflowsOk(db') && db'.policies == db.policies
  {
    hide Inv, TableOk, ValidTarget, IsUuid, ValidSubject, ValidPurpose, NewRow, PoliciesOk,
         HasIntent, EnqueueStep, KeyOf, PayloadText, Evolves;
    TableOfInv(db);
    VerificationFirst(db, target, policyId, now, ids);
    EnqueueKeepsTable(db.jobs, IntentOf(VerificationOf(db, target.subject, policyId), target, now), now, ids.job);
    hide IntentOf;
  }

  lemma EnsureVerificationKeepsInv(db: Database, target: Target, now: Time, ids: NewIds)
    requires Inv(db)
    ensures Inv(EnsureVerificationStep(db, target, now, ids).0)
  {
    hide Inv, EnqueueFor, ValidTarget, WithVerification, WorkflowIdTaken;
    if now != ZeroTime {
      EnsureVerificationOutcome(db, target, now, ids);
      hide EnsureVerificationStep;
      if Known(db, target) && Current(db.policies, NamespaceOf(db, target.subject)).Some? {
        var policyId := Current(db.policies, NamespaceOf(db, target.subject)).value;
        if (target.subject, policyId) !in db.signatures && FreshJob(db, ids) {
          WithVerificationKeepsInv(db, target, policyId, now, ids);
        }
      }
    }
  }

  /** A verification that is created has its job, queued and due at once, under the policy's own key. */
  lemma CreatedVerification(db: Database, target: Target, now: Time, ids: NewIds)
    requires Inv(db) && EnsureVerificationStep(db, target, now, ids).1.Success?
    requires EnsureVerificationStep(db, target, now, ids).1.value.1
    ensures var (after, s) := (EnsureVerificationStep(db, target, now, ids).0, target.subject);
            && s.repositoryId in db.repositories
            && var current := Current(db.policies, db.repositories[s.repositoryId].namespaceId);
               && current.Some? && (s, current.value) in after.signatures
               && var row := after.signatures[(s, current.value)];
                  && row == EnsureVerificationStep(db, target, now, ids).1.value.0
                  && row.policyVersion == db.policies[current.value].version && row.job in after.jobs
                  && var job := after.jobs[row.job];
                     && job.kind == "COSIGN_VERIFY"
                     && job.intentKey
                        == "security-signature:" + s.repositoryId + ":" + s.digest + ":policy:" + current.value
                     && job.state == Queued && job.attempts == 0 && job.maxAttempts == 3 && job.availableAt == now
  {
    hide Inv, EnqueueFor, ValidTarget, WorkflowIdTaken, PayloadText;
    VerificationStepByTarget(db, target, now, ids);
    if now != ZeroTime {
      EnsureVerificationOutcome(db, target, now, ids);
    }
    hide EnsureVerificationStep, EnsureUnderCurrentPolicy;
  }
}
