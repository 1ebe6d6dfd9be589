/** Repair of workflows that a crash left out: what is missing, and what a pass does about it. */
module WorkflowRepair {
  import opened Wrappers
  import opened Text
  import opened Security
  import opened SecurityTables
  import opened TrustTables
  import opened JobQueue
  import JobQueueRuns
  import SecurityProtocol

  /** The scans, the verifications under current policies, or those of one namespace. */
  datatype Goal = Workflows | Verifications | VerificationsIn(namespaceId: string)

  ghost predicate LacksVerification(db: Database, s: Subject)
    requires s.repositoryId in db.repositories
  {
    var current := Current(db.policies, NamespaceOf(db, s));
    current.Some? && (s, current.value) !in db.signatures
  }

  ghost predicate Lacks(db: Database, goal: Goal, s: Subject)
    requires s.repositoryId in db.repositories
  {
    match goal
    case Workflows => s !in db.workflows
    case Verifications => LacksVerification(db, s)
    case VerificationsIn(namespaceId) => NamespaceOf(db, s) == namespaceId && LacksVerification(db, s)
  }

  /** The rows of the repair query, without its order and limit. */
  ghost function Missing(db: Database, goal: Goal): set<Subject> {
    set s | s in db.artifacts && s.repositoryId in db.repositories && Lacks(db, goal, s)
  }

  /** One target of a pass; the flag says whether a workflow was created. */
  ghost function RepairStep(db: Database, goal: Goal, target: Target, now: Time, ids: NewIds)
    : (Database, Result<bool, SecurityError>)
  {
    if goal.Workflows? then
      var r := EnsureStep(db, target, now, ids);
      (r.0, if r.1.Success? then Success(r.1.value.1) else Failure(r.1.error))
    else
      var r := EnsureVerificationStep(db, target, now, ids);
      (r.0, if r.1.Success? then Success(r.1.value.1) else Failure(r.1.error))
  }

  /** Identifiers are drawn in turn, so those from n on are in no row yet. */
  ghost predicate IdsBelow(db: Database, n: nat) {
    n > 0
    && (forall id | id in db.jobs :: id < n)
    && (forall s | s in db.workflows :: db.workflows[s].id < n)
    && (forall k | k in db.signatures :: db.signatures[k].id < n)
  }

  function Drawn(n: nat): NewIds
    requires n > 0
  {
    NewIds(n, n + 1, n + 2)
  }

  ghost predicate SameRegistry(db: Database, db': Database) {
    db' == db.(jobs := db'.jobs, workflows := db'.workflows, signatures := db'.signatures)
  }

  lemma DrawnIsFresh(db: Database, n: nat)
    requires IdsBelow(db, n)
    ensures Fresh(db, Drawn(n)) && FreshJob(db, Drawn(n))
  {
  }

  lemma TargetIsKnown(db: Database, s: Subject)
    requires Inv(db) && s in db.artifacts
    ensures s.repositoryId in db.repositories && Known(db, TargetOf(db, s))
  {
    TableOfInv(db);
    hide Inv, JobQueueRuns.TableOk, WorkflowsOk, PoliciesOk, ValidSubject;
  }

  /** A missing workflow is created, and nothing else changes its state. */
  lemma StepRepairs(db: Database, goal: Goal, s: Subject, now: Time, n: nat)
    requires Inv(db) && IdsBelow(db, n) && s in Missing(db, goal) && now != ZeroTime
    ensures var r := RepairStep(db, goal, TargetOf(db, s), now, Drawn(n));
            r.1 == Success(true) && Inv(r.0) && IdsBelow(r.0, n + 3) && SameRegistry(db, r.0)
            && Missing(r.0, goal) == Missing(db, goal) - {s}
  {
    TargetIsKnown(db, s);
    DrawnIsFresh(db, n);
    if goal.Workflows? {
      WorkflowStepRepairs(db, s, now, n);
    } else {
      VerificationStepRepairs(db, goal, s, now, n);
    }
    hide Inv, IdsBelow, Missing, EnsureStep, EnsureVerificationStep, SameRegistry, Known;
  }

  lemma WorkflowStepRepairs(db: Database, s: Subject, now: Time, n: nat)
    requires Inv(db) && IdsBelow(db, n) && s in Missing(db, Workflows) && now != ZeroTime
    requires Known(db, TargetOf(db, s)) && Fresh(db, Drawn(n))
    ensures var r := EnsureStep(db, TargetOf(db, s), now, Drawn(n));
            r.1.Success? && r.1.value.1 && Inv(r.0) && IdsBelow(r.0, n + 3) && SameRegistry(db, r.0)
            && Missing(r.0, Workflows) == Missing(db, Workflows) - {s}
  {
    var target := TargetOf(db, s);
    EnsureOutcome(db, target, now, Drawn(n));
    EnsureKeepsInv(db, target, now, Drawn(n));
    WorkflowFills(db, s, now, n);
    hide Inv, EnsureStep, Known, Fresh, WithWorkflow, IdsBelow, Lacks;
  }

  lemma WorkflowFills(db: Database, s: Subject, now: Time, n: nat)
    requires IdsBelow(db, n) && s in Missing(db, Workflows) && Fresh(db, Drawn(n))
    ensures var db' := WithWorkflow(db, TargetOf(db, s), now, Drawn(n));
            IdsBelow(db', n + 3) && SameRegistry(db, db') && Missing(db', Workflows) == Missing(db, Workflows) - {s}
  {
    hide NewRow, IntentOf, WorkflowIdTaken;
    var db' := WithWorkflow(db, TargetOf(db, s), now, Drawn(n));
    assert forall x :: x in Missing(db', Workflows) <==> x in Missing(db, Workflows) && x != s;
  }

  lemma VerificationStepRepairs(db: Database, goal: Goal, s: Subject, now: Time, n: nat)
    requires Inv(db) && IdsBelow(db, n) && s in Missing(db, goal) && !goal.Workflows? && now != ZeroTime
    requires Known(db, TargetOf(db, s)) && FreshJob(db, Drawn(n))
    ensures var r := EnsureVerificationStep(db, TargetOf(db, s), now, Drawn(n));
            r.1.Success? && r.1.value.1 && Inv(r.0) && IdsBelow(r.0, n + 3) && SameRegistry(db, r.0)
            && Missing(r.0, goal) == Missing(db, goal) - {s}
  {
    var target := TargetOf(db, s);
    EnsureVerificationOutcome(db, target, now, Drawn(n));
    EnsureVerificationKeepsInv(db, target, now, Drawn(n));
    VerificationFills(db, goal, s, now, n);
    hide Inv, EnsureVerificationStep, Known, FreshJob, WithVerification, IdsBelow;
  }

  lemma VerificationFills(db: Database, goal: Goal, s: Subject, now: Time, n: nat)
    requires IdsBelow(db, n) && s in Missing(db, goal) && !goal.Workflows? && FreshJob(db, Drawn(n))
    ensures var policyId := Current(db.policies, NamespaceOf(db, s)).value;
            var db' := WithVerification(db, TargetOf(db, s), policyId, now, Drawn(n));
            IdsBelow(db', n + 3) && SameRegistry(db, db') && Missing(db', goal) == Missing(db, goal) - {s}
  {
    hide NewRow, IntentOf, WorkflowIdTaken;
    var policyId := Current(db.policies, NamespaceOf(db, s)).value;
    var db' := WithVerification(db, TargetOf(db, s), policyId, now, Drawn(n));
    assert forall x :: x in Missing(db', goal) <==> x in Missing(db, goal) && x != s;
  }

  // The order of the query

  /** discovered_at, repository_id, digest. */
  predicate Before(artifacts: map<Subject, Time>, a: Subject, b: Subject)
    requires a in artifacts && b in artifacts
  {
    artifacts[a] < artifacts[b]
    || (artifacts[a] == artifacts[b]
        && (Less(a.repositoryId, b.repositoryId)
            || (a.repositoryId == b.repositoryId && Less(a.digest, b.digest))))
  }

  lemma BeforeIsStrictOrder(artifacts: map<Subject, Time>, a: Subject, b: Subject, c: Subject)
    requires a in artifacts && b in artifacts && c in artifacts
    ensures !Before(artifacts, a, a)
    ensures a != b ==> Before(artifacts, a, b) || Before(artifacts, b, a)
    ensures Before(artifacts, a, b) && Before(artifacts, b, c) ==> Before(artifacts, a, c)
  {
    LessIsTotal(a.repositoryId, a.repositoryId);
    LessIsTotal(a.digest, a.digest);
    LessIsTotal(a.repositoryId, b.repositoryId);
    LessIsTotal(a.digest, b.digest);
    if Less(a.repositoryId, b.repositoryId) && Less(b.repositoryId, c.repositoryId) {
      LessIsTransitive(a.repositoryId, b.repositoryId, c.repositoryId);
    }
    if Less(a.digest, b.digest) && Less(b.digest, c.digest) {
      LessIsTransitive(a.digest, b.digest, c.digest);
    }
    hide Less;
  }

  predicate Ordered(artifacts: map<Subject, Time>, page: seq<Subject>) {
    (forall s | s in page :: s in artifacts)
    && forall i, j | 0 <= i < j < |page| :: Before(artifacts, page[i], page[j])
  }

  function Members(page: seq<Subject>): set<Subject> {
    set s | s in page
  }

  /** The first rows of the missing ones, oldest first. */
  predicate IsPage(artifacts: map<Subject, Time>, missing: set<Subject>, limit: nat, page: seq<Subject>)
    requires missing <= artifacts.Keys
  {
    Ordered(artifacts, page) && Members(page) <= missing
    && |page| == (if |missing| <= limit then |missing| else limit)
    && forall s, later | s in page && later in missing && later !in page :: Before(artifacts, s, later)
  }

  lemma {:induction false} PageIsDistinct(artifacts: map<Subject, Time>, page: seq<Subject>)
    requires Ordered(artifacts, page)
    ensures |Members(page)| == |page|
  {
    if page != [] {
      var last := |page| - 1;
      var before := page[..last];
      PageIsDistinct(artifacts, before);
      assert page == before + [page[last]];
      assert Members(page) == Members(before) + {page[last]};
      BeforeIsStrictOrder(artifacts, page[last], page[last], page[last]);
      assert page[last] !in before;
    }
  }

  // Passes

  /** What one undisturbed pass does: the oldest missing subjects get their workflows. */
  ghost predicate Pass(db: Database, goal: Goal, limit: nat, db': Database) {
    Inv(db') && SameRegistry(db, db') && Missing(db', goal) <= Missing(db, goal) <= db.artifacts.Keys
    && |Missing(db', goal)| == (if |Missing(db, goal)| <= limit then 0 else |Missing(db, goal)| - limit)
    && forall s, later | s in Missing(db, goal) && s !in Missing(db', goal) && later in Missing(db', goal) ::
         Before(db.artifacts, s, later)
  }

  ghost predicate PassAt(dbs: seq<Database>, goal: Goal, limit: nat, i: nat)
    requires i < |dbs| - 1
  {
    Pass(dbs[i], goal, limit, dbs[i + 1])
  }

  ghost predicate Passes(dbs: seq<Database>, goal: Goal, limit: nat) {
    forall i | 0 <= i < |dbs| - 1 :: PassAt(dbs, goal, limit, i)
  }

  /** After k passes, k * limit of the missing workflows are there, or all of them. */
  lemma {:induction false} AfterPasses(dbs: seq<Database>, goal: Goal, limit: nat)
    requires dbs != [] && Passes(dbs, goal, limit) && Inv(dbs[0])
    ensures var n, k := |Missing(dbs[0], goal)|, |dbs| - 1;
            |Missing(dbs[k], goal)| == if n <= k * limit then 0 else n - k * limit
    ensures Inv(dbs[|dbs| - 1])
  {
    hide Inv, Missing, Pass;
    var k := |dbs| - 1;
    if k > 0 {
      forall i | 0 <= i < k - 1 ensures PassAt(dbs[..k], goal, limit, i) {
        assert PassAt(dbs, goal, limit, i);
      }
      AfterPasses(dbs[..k], goal, limit);
      assert PassAt(dbs, goal, limit, k - 1);
      PassCounts(dbs[k - 1], goal, limit, dbs[k]);
      assert k * limit == (k - 1) * limit + limit;
    } else {
      assert k * limit == 0;
    }
  }

  lemma PassCounts(db: Database, goal: Goal, limit: nat, db': Database)
    requires Pass(db, goal, limit, db')
    ensures var n := |Missing(db, goal)|;
            Inv(db') && |Missing(db', goal)| == if n <= limit then 0 else n - limit
  {
    hide Inv, Missing;
  }

  ghost predicate HasOwnJob(db: Database, p: Purpose) {
    Bound(db, p).Some? && JobFor(db, p, Bound(db, p).value)
    && forall q | Bound(db, q) == Bound(db, p) :: q == p
  }

  ghost predicate UnderCurrentPolicy(db: Database, s: Subject, p: Purpose)
    requires s.repositoryId in db.repositories
  {
    p.Verify? && Current(db.policies, NamespaceOf(db, s)) == Some(p.policyId)
    && p.policyId in db.policies && db.policies[p.policyId].version == p.policyVersion
  }

  /** The purposes that a goal is about, for one image. */
  ghost predicate Wanted(db: Database, goal: Goal, s: Subject, p: Purpose)
    requires s.repositoryId in db.repositories
  {
    p.of == s
    && match goal
       case Workflows => !p.Verify?
       case Verifications => UnderCurrentPolicy(db, s, p)
       case VerificationsIn(namespaceId) => NamespaceOf(db, s) == namespaceId && UnderCurrentPolicy(db, s, p)
  }

  /**
   Repair converges: enough passes for the number of missing workflows leave every artifact with
   its workflow, each bound to jobs that are its own, and none is missing.
   */
  lemma RepairConverges(dbs: seq<Database>, goal: Goal, limit: nat, s: Subject, p: Purpose)
    requires dbs != [] && Passes(dbs, goal, limit) && Inv(dbs[0])
    requires |Missing(dbs[0], goal)| <= (|dbs| - 1) * limit
    requires var db := dbs[|dbs| - 1];
             s in db.artifacts && s.repositoryId in db.repositories && Wanted(db, goal, s, p)
    ensures Missing(dbs[|dbs| - 1], goal) == {} && HasOwnJob(dbs[|dbs| - 1], p)
  {
    var db := dbs[|dbs| - 1];
    AfterPasses(dbs, goal, limit);
    assert s !in Missing(db, goal);
    hide Passes;
    BoundWhenNotMissing(db, goal, s, p);
  }

  lemma BoundWhenNotMissing(db: Database, goal: Goal, s: Subject, p: Purpose)
    requires Inv(db) && s in db.artifacts && s.repositoryId in db.repositories && Wanted(db, goal, s, p)
    requires s !in Missing(db, goal)
    ensures HasOwnJob(db, p)
  {
    assert Bound(db, p).Some? by {
      assert p.Verify? && (s, p.policyId) in db.signatures ==>
          db.signatures[(s, p.policyId)].policyVersion == p.policyVersion;
    }
    assert JobFor(db, p, Bound(db, p).value);
    hide Missing, Bound, JobFor, Inv, Wanted;
    forall q | Bound(db, q) == Bound(db, p) ensures q == p {
      SecurityProtocol.BoundOnce(db, p, q);
    }
  }

  /** No image discovered earlier is left missing by a pass that repairs one discovered later. */
  lemma OldestFirst(db: Database, goal: Goal, limit: nat, db': Database, repaired: Subject, left: Subject)
    requires Pass(db, goal, limit, db')
    requires repaired in Missing(db, goal) && repaired !in Missing(db', goal) && left in Missing(db', goal)
    ensures repaired in db.artifacts && left in db.artifacts && db.artifacts[repaired] <= db.artifacts[left]
    ensures db.artifacts[repaired] == db.artifacts[left] ==>
              !Less(left.repositoryId, repaired.repositoryId)
              && (left.repositoryId == repaired.repositoryId ==> !Less(left.digest, repaired.digest))
  {
    hide Missing, Inv, SameRegistry, Less;
    LessIsTotal(left.repositoryId, repaired.repositoryId);
    LessIsTotal(left.digest, repaired.digest);
  }
}
