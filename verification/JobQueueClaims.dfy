/**
 What one queue transaction decides, for every table: which job a claim leases, when the
 lease holder's report is accepted, and why the queue runs out of work.
 */
module JobQueueClaims {
  import opened Wrappers
  import opened JobQueue
  import opened JobQueueRuns

  // Claim selection

  /**
   A claim leases the first candidate and buries the exhausted leases, or changes nothing.
   */
  lemma ClaimSelectsFirst(table: Table, claim: Claim, kinds: seq<string>, locked: set<RowId>)
    requires TableOk(table) && ValidClaim(claim)
    ensures var (after, outcome) := ClaimStep(table, claim, kinds, locked);
            && (outcome == Failure(NoJob) <==> Candidates(table, claim.now, kinds, locked) == {})
            && (outcome.Failure? ==> after == table)
            && (outcome.Success? ==>
                  var job := outcome.value;
                  && job.id in Candidates(table, claim.now, kinds, locked)
                  && (forall other | other in Candidates(table, claim.now, kinds, locked) && other != job.id ::
                        Precedes(table[job.id], table[other]))
                  && after.Keys == table.Keys && after[job.id] == job
                  && job.state == Running && job.leaseOwner == Some(claim.worker)
                  && job.attempts == table[job.id].attempts + 1 && job.updatedAt == claim.now
                  && job.lastErrorCode == (if table[job.id].state == Running then Some(LeaseExpired)
                                           else table[job.id].lastErrorCode)
                  && job.startedAt == (if table[job.id].startedAt.Some? then table[job.id].startedAt
                                       else Some(claim.now))
                  && job.leaseExpiresAt == Some(LeaseEnd(claim)) && job.leaseExpiresAt.value > claim.now
                  && (forall other | other in table && other != job.id ::
                        after[other] == if ExhaustedLease(table[other], claim.now)
                                        then DeadRow(table[other], claim.now) else table[other]))
  {
    hide RowOk, Evolves, Precedes, DeadRow, Eligible, ExhaustedLease;
    if ClaimStep(table, claim, kinds, locked).1.Success? {
      var id := ClaimWins(table, claim, kinds, locked);
    } else {
      ClaimLoses(table, claim, kinds, locked);
    }
  }

  /** With a candidate at hand a claim fails only on a clock behind the row's or a lease that rounds to nothing. */
  lemma ClaimGuard(j: Job, claim: Claim, kinds: seq<string>)
    requires RowOk(j) && ValidClaim(claim) && Eligible(j, claim.now, kinds)
    ensures RowChecks(ClaimedRow(j, claim)) <==> j.createdAt <= claim.now && claim.leaseNanos >= 500
  {
    LeaseExpiredIsCode();
  }

  /**
   The sweep shares the claim's transaction: a job whose last lease ran out is dead after a
   claim exactly when that claim leased some other job.
   */
  lemma SweepNeedsClaim(table: Table, claim: Claim, kinds: seq<string>, locked: set<RowId>, id: RowId)
    requires TableOk(table) && id in table && ExhaustedLease(table[id], claim.now)
    ensures var (after, outcome) := ClaimStep(table, claim, kinds, locked);
            id in after && (after[id].state == Dead <==> outcome.Success?)
  {
    hide RowOk, Evolves, RowChecks, Precedes;
    if ClaimStep(table, claim, kinds, locked).1.Success? {
      var won := ClaimWins(table, claim, kinds, locked);
    } else {
      ClaimLoses(table, claim, kinds, locked);
    }
  }

  /**
   Whether a claim buries an exhausted lease, from what is known before the call: the claim must be
   valid, its lease must not round to nothing, and there must be a first candidate, no younger than
   the claim's clock. With none of these the sweep is undone, however long the lease has run out.
   */
  lemma DeadAfterClaimIff(table: Table, claim: Claim, kinds: seq<string>, locked: set<RowId>, id: RowId)
    requires TableOk(table) && id in table && ExhaustedLease(table[id], claim.now)
    ensures id in ClaimStep(table, claim, kinds, locked).0
    ensures ClaimStep(table, claim, kinds, locked).0[id].state == Dead
       <==> ValidClaim(claim) && claim.leaseNanos >= 500
            && exists first :: IsFirst(table, Candidates(table, claim.now, kinds, locked), first)
                               && table[first].createdAt <= claim.now
  {
    SweepNeedsClaim(table, claim, kinds, locked, id);
    ClaimSucceedsIff(table, claim, kinds, locked);
    hide ClaimStep, Candidates, IsFirst, ExhaustedLease, RowOk;
  }

  lemma ClaimSucceedsIff(table: Table, claim: Claim, kinds: seq<string>, locked: set<RowId>)
    requires TableOk(table)
    ensures ClaimStep(table, claim, kinds, locked).1.Success?
       <==> ValidClaim(claim) && claim.leaseNanos >= 500
            && exists first :: IsFirst(table, Candidates(table, claim.now, kinds, locked), first)
                               && table[first].createdAt <= claim.now
  {
    hide RowOk, RowChecks, Eligible, Precedes, Swept, ClaimedRow, Evolves;
    var candidates := Candidates(table, claim.now, kinds, locked);
    if ValidClaim(claim) && candidates != {} {
      FirstExists(table, candidates);
      var first :| IsFirst(table, candidates, first);
      FirstIsUnique(table, candidates, first);
      ClaimGuard(table[first], claim, kinds);
    }
  }

  lemma FirstIsUnique(table: Table, ids: set<RowId>, a: RowId)
    requires ids <= table.Keys && IsFirst(table, ids, a)
    ensures forall b | IsFirst(table, ids, b) :: a == b
  {
  }

  /** A job whose lease ran out on attempt 1 of 1, or of more. */
  function LeftRunning(maxAttempts: int): Job {
    Job(1, "SCAN", "key", Object("{}"), Running, 1, maxAttempts, 1, Some("worker"), Some(5), None,
        1, 2, Some(2), None)
  }

  lemma LeftRunningOk(maxAttempts: int)
    requires 1 <= maxAttempts <= MaxAttempts
    ensures TableOk(map[1 := LeftRunning(maxAttempts)])
  {
  }

  /** The sweep undone: the lease ended at 5 on the last attempt, a claim at 10 finds no job, and the row runs on. */
  lemma SweepMayBeUndone()
    ensures var table: Table, claim := map[1 := LeftRunning(1)], Claim("worker", 10, 1_000_000);
            && TableOk(table) && ExhaustedLease(table[1], claim.now)
            && ClaimStep(table, claim, [], {}) == (table, Failure(NoJob)) && table[1].state == Running
  {
    LeftRunningOk(1);
    var table: Table := map[1 := LeftRunning(1)];
    assert Candidates(table, 10, [], {}) == {};
  }

  // Enqueueing

  lemma IntentStays(a: Job, b: Job, intent: Intent)
    requires Evolves(a, b) && SameIntent(a, intent) && a.intentKey == intent.key
    ensures SameIntent(b, intent) && b.intentKey == intent.key && b.id == a.id
  {
  }

  /**
   Enqueueing is idempotent for good: once an intent has its job, whatever happens to the queue,
   enqueueing the intent again gives that job and changes nothing.
   */
  lemma EnqueueIsIdempotent(
      table: Table, intent: Intent, at: Time, newId: RowId, events: seq<Event>, later: Time, otherId: RowId)
    requires TableOk(table) && EnqueueStep(table, intent, at, newId).1.Success? && later != ZeroTime
    ensures var (after, first) := EnqueueStep(table, intent, at, newId);
            var (again, second) := EnqueueStep(Run(after, events), intent, later, otherId);
            && again == Run(after, events) && second.Success? && !second.value.1
            && second.value.0.id == first.value.0.id && second.value.0 == again[first.value.0.id]
  {
    hide RowOk, RowChecks, Evolves, Validates, ValidIntent, RowMeasure, SameIntent;
    EnqueueKeepsTable(table, intent, at, newId);
    var (after, first) := EnqueueStep(table, intent, at, newId);
    EnqueuedRow(table, intent, at, newId);
    ReachableTableOk(after, events);
    RunEvolves(after, events);
    hide EnqueueStep;
    var id := first.value.0.id;
    IntentStays(after[id], Run(after, events)[id], intent);
    EnqueueFinds(Run(after, events), intent, later, otherId, id);
  }

  lemma EnqueuedRow(table: Table, intent: Intent, at: Time, newId: RowId)
    requires EnqueueStep(table, intent, at, newId).1.Success?
    ensures var (after, r) := EnqueueStep(table, intent, at, newId);
            var row := r.value.0;
            && ValidIntent(intent) && row.id in after && after[row.id] == row
            && SameIntent(row, intent) && row.intentKey == intent.key
            && (r.value.1 ==> row.state == Queued && row.availableAt == intent.availableAt
                              && row.createdAt == at && row.attempts == 0)
  {
    hide ValidIntent;
  }

  lemma EnqueueFinds(table: Table, intent: Intent, at: Time, newId: RowId, id: RowId)
    requires TableOk(table) && id in table && table[id].intentKey == intent.key && SameIntent(table[id], intent)
    requires ValidIntent(intent) && at != ZeroTime
    ensures EnqueueStep(table, intent, at, newId) == (table, Success((table[id], false)))
  {
    hide RowOk, ValidIntent;
    assert HasIntent(table, intent.key);
  }

  /** The first statement of Enqueue: the insert, unless the intent key is taken. */
  ghost function InsertStep(table: Table, intent: Intent, at: Time, newId: RowId): Result<(Table, bool), Error> {
    if HasIntent(table, intent.key) then Success((table, false))
    else if newId in table then Failure(Conflict)
    else Success((table[newId := NewRow(newId, intent, at)], true))
  }

  /** Its second statement: the row of the key, compared with the intent. */
  ghost function ReadBack(table: Table, intent: Intent): Result<Job, Error> {
    if HasIntent(table, intent.key) then
      var id :| id in table && table[id].intentKey == intent.key;
      if SameIntent(table[id], intent) then Success(table[id]) else Failure(Conflict)
    else Failure(NoJob)
  }

  lemma ReadsBack(table: Table, intent: Intent, id: RowId)
    requires TableOk(table) && id in table && table[id].intentKey == intent.key
    ensures ReadBack(table, intent) == if SameIntent(table[id], intent) then Success(table[id]) else Failure(Conflict)
  {
    hide RowOk;
    assert HasIntent(table, intent.key);
  }

  /**
   Outside a transaction the two statements are apart, and anything may happen in between. The
   outcome is still that of one step: the same error, or the same job as it has become by then.
   */
  lemma EnqueueInTwoStatements(table: Table, intent: Intent, at: Time, newId: RowId, events: seq<Event>)
    requires TableOk(table) && ValidIntent(intent) && at != ZeroTime
    ensures var inserted, (after, outcome) := InsertStep(table, intent, at, newId), EnqueueStep(table, intent, at, newId);
            && (inserted.Failure? ==> after == table && outcome == Failure(inserted.error))
            && (inserted.Success? ==>
                  var (stored, later) := (inserted.value.0, Run(inserted.value.0, events));
                  && stored == after
                  && (outcome.Failure? ==> ReadBack(later, intent) == Failure(outcome.error))
                  && (outcome.Success? ==>
                        var id := outcome.value.0.id;
                        && outcome.value.1 == inserted.value.1
                        && id in stored && id in later && outcome.value.0 == stored[id] && Evolves(stored[id], later[id])
                        && ReadBack(later, intent) == Success(later[id])))
  {
    hide RowOk, RowChecks, Evolves, Validates, ValidIntent, RowMeasure, SameIntent;
    EnqueueKeepsTable(table, intent, at, newId);
    if InsertStep(table, intent, at, newId).Success? {
      var stored := InsertStep(table, intent, at, newId).value.0;
      var id := KeyHolder(table, intent, at, newId);
      RunEvolves(stored, events);
      ReachableTableOk(stored, events);
      SameIntentStays(stored[id], Run(stored, events)[id], intent);
      ReadsBack(Run(stored, events), intent, id);
      hide EnqueueStep, InsertStep, ReadBack, TableOk;
    }
  }

  lemma SameIntentStays(a: Job, b: Job, intent: Intent)
    requires Evolves(a, b)
    ensures SameIntent(b, intent) == SameIntent(a, intent) && b.intentKey == a.intentKey
  {
  }

  /** The row that holds the key after the insert, and what Enqueue makes of it. */
  lemma KeyHolder(table: Table, intent: Intent, at: Time, newId: RowId) returns (id: RowId)
    requires TableOk(table) && ValidIntent(intent) && at != ZeroTime
    requires InsertStep(table, intent, at, newId).Success?
    ensures var (stored, created) := InsertStep(table, intent, at, newId).value;
            && TableOk(stored) && id in stored && stored[id].intentKey == intent.key
            && EnqueueStep(table, intent, at, newId)
               == (stored, if SameIntent(stored[id], intent) then Success((stored[id], created)) else Failure(Conflict))
  {
    hide RowOk, ValidIntent;
    EnqueueKeepsTable(table, intent, at, newId);
    if HasIntent(table, intent.key) {
      id :| id in table && table[id].intentKey == intent.key;
    } else {
      id := newId;
    }
  }

  // The lease holder's reports

  /** Complete and Fail take effect exactly for a valid report of the lease holder on a clock not behind the row's. */
  lemma ReportAccepted(table: Table, c: Completion, f: JobFailure)
    requires TableOk(table) && f.completion == c
    ensures CompleteStep(table, c).1.Success? <==>
              ValidCompletion(c) && HoldsLease(table, c) && table[c.job].createdAt <= c.now
    ensures FailStep(table, f).1.Success? <==>
              ValidFailure(f) && HoldsLease(table, c) && table[c.job].createdAt <= c.now
    ensures CompleteStep(table, c).1.Success? ==>
              var row := CompleteStep(table, c).0[c.job];
              row.state == Succeeded && row.completedAt == Some(c.now) && row.attempts == table[c.job].attempts
    ensures CompleteStep(table, c).1.Failure? ==> CompleteStep(table, c).0 == table
    ensures FailStep(table, f).1.Failure? ==> FailStep(table, f).0 == table
  {
    if HoldsLease(table, c) {
      assert RowOk(table[c.job]);
    }
  }

  /** A failed job is queued again at its retry time while attempts remain, unless the failure is terminal. */
  lemma FailRequeues(table: Table, f: JobFailure)
    requires TableOk(table) && FailStep(table, f).1.Success?
    ensures var (before, after) := (table[f.completion.job], FailStep(table, f).0[f.completion.job]);
            && (after.state == Queued <==> !f.terminal && before.attempts < before.maxAttempts)
            && (after.state == Dead <==> f.terminal || before.attempts == before.maxAttempts)
            && after.availableAt == f.retryAt && after.lastErrorCode == Some(f.code)
            && (after.state == Queued ==> forall now: Time | now < f.retryAt :: !Eligible(after, now, []))
            && (after.state == Queued ==> Eligible(after, f.retryAt, []))
  {
    assert RowOk(table[f.completion.job]);
  }

  /**
   Fencing is by worker, not by attempt. After a claim, a report is accepted exactly when it comes
   from the claim's worker on a clock before the lease's end and not behind the row: nothing in it,
   and nothing in the row, tells the report of an earlier attempt from that of the present one.
   */
  lemma FencedByWorkerAlone(
      table: Table, id: RowId, claim: Claim, kinds: seq<string>, locked: set<RowId>, report: JobFailure)
    requires TableOk(table) && Leased(table, ClaimJob(claim, kinds, locked)) == Some(id)
    requires report.completion.job == id
    ensures id in table
    ensures var reclaimed, c := ClaimStep(table, claim, kinds, locked).0, report.completion;
            && (CompleteStep(reclaimed, c).1.Success?
                <==> c.worker == claim.worker && c.now != ZeroTime
                     && table[id].createdAt <= c.now < LeaseEnd(claim))
            && (FailStep(reclaimed, report).1.Success?
                <==> c.worker == claim.worker && ValidFailure(report)
                     && table[id].createdAt <= c.now < LeaseEnd(claim))
  {
    hide Evolves, Precedes, RowOk;
    var won := ClaimWins(table, claim, kinds, locked);
    ClaimKeepsTable(table, claim, kinds, locked);
    ReportAccepted(ClaimStep(table, claim, kinds, locked).0, report.completion, report);
  }

  /**
   The report of a first attempt finishing the second: the lease of attempt 1 ended at 5, the same
   worker claims the job again at 10, and a completion at 10 is accepted on attempt 2.
   */
  lemma EarlierAttemptIsNotFenced()
    ensures var table: Table, claim := map[1 := LeftRunning(3)], Claim("worker", 10, 1_000_000);
            var reclaimed := ClaimStep(table, claim, [], {}).0;
            && TableOk(table) && table[1].attempts == 1
            && !HoldsLease(table, Completion(1, "worker", 10))
            && 1 in reclaimed && reclaimed[1].attempts == 2
            && CompleteStep(reclaimed, Completion(1, "worker", 10)).1.Success?
  {
    LeftRunningOk(3);
    var table: Table, claim := map[1 := LeftRunning(3)], Claim("worker", 10, 1_000_000);
    assert Candidates(table, 10, [], {}) == {1};
    assert IsFirst(table, {1}, 1);
    ClaimSucceedsIff(table, claim, [], {});
    var id := ClaimWins(table, claim, [], {});
    FencedByWorkerAlone(table, 1, claim, [], {}, JobFailure(Completion(1, "worker", 10), "", 0, false));
  }

  // The queue runs out of work

  /** The steps left in the rows of a set. */
  ghost function WorkOf(table: Table, ids: set<RowId>): int
    requires ids <= table.Keys
  {
    if ids == {} then 0 else var id :| id in ids; RowMeasure(table[id]) + WorkOf(table, ids - {id})
  }

  ghost function Work(table: Table): int {
    WorkOf(table, table.Keys)
  }

  lemma {:induction false} WorkSplits(table: Table, ids: set<RowId>, id: RowId)
    requires id in ids && ids <= table.Keys
    ensures WorkOf(table, ids) == RowMeasure(table[id]) + WorkOf(table, ids - {id})
    decreases |ids|
  {
    var first :| first in ids && WorkOf(table, ids) == RowMeasure(table[first]) + WorkOf(table, ids - {first});
    if first != id {
      WorkSplits(table, ids - {first}, id);
      WorkSplits(table, ids - {id}, first);
      assert ids - {first} - {id} == ids - {id} - {first};
    }
  }

  /** Rows that evolve never gain work, and a row that changes loses some. */
  lemma {:induction false} WorkShrinks(a: Table, b: Table, ids: set<RowId>)
    requires ids <= a.Keys && ids <= b.Keys && forall id | id in ids :: Evolves(a[id], b[id])
    ensures WorkOf(b, ids) <= WorkOf(a, ids)
    ensures (exists id :: id in ids && a[id] != b[id]) ==> WorkOf(b, ids) < WorkOf(a, ids)
    decreases |ids|
  {
    if ids != {} {
      var id :| id in ids;
      WorkSplits(a, ids, id);
      WorkSplits(b, ids, id);
      WorkShrinks(a, b, ids - {id});
    }
  }

  /** Work a step brings in: two steps for each attempt of a row it creates. */
  ghost function WorkAdded(table: Table, e: Event): int {
    if e.Enqueue? && Next(table, e) != table then 2 * e.intent.maxAttempts else 0
  }

  /** The termination measure: every step that changes the table, but for creating a row, uses up work. */
  lemma StepUsesWork(table: Table, e: Event)
    requires TableOk(table)
    ensures Next(table, e) != table && WorkAdded(table, e) == 0 ==> Work(Next(table, e)) < Work(table)
    ensures WorkAdded(table, e) > 0 ==> Work(Next(table, e)) == Work(table) + WorkAdded(table, e)
  {
    hide RowOk, RowChecks, Evolves, Validates, Next;
    var after := Next(table, e);
    StepKeepsTable(table, e);
    if after != table {
      NewKeys(table, e);
      if e.Enqueue? {
        WorkSplits(after, after.Keys, e.newId);
        assert after.Keys - {e.newId} == table.Keys;
        SameWork(table, after, table.Keys);
      } else {
        assert exists id :: id in table && table[id] != after[id];
        WorkShrinks(table, after, table.Keys);
      }
    }
  }

  lemma NewKeys(table: Table, e: Event)
    requires TableOk(table) && Next(table, e) != table
    ensures e.Enqueue? ==> ValidIntent(e.intent) && e.newId !in table &&
                           Next(table, e) == table[e.newId := NewRow(e.newId, e.intent, e.createdAt)]
    ensures !e.Enqueue? ==> Next(table, e).Keys == table.Keys
  {
    hide RowOk, RowChecks, Evolves, Validates;
    if e.ClaimJob? && ClaimStep(table, e.claim, e.kinds, e.locked).1.Failure? {
      ClaimLoses(table, e.claim, e.kinds, e.locked);
    } else if e.ClaimJob? {
      var won := ClaimWins(table, e.claim, e.kinds, e.locked);
    }
  }

  /** Steps of a run that changed the table without creating a row. */
  ghost function Effective(table: Table, events: seq<Event>): nat {
    if events == [] then 0
    else
      var before, e := events[..|events| - 1], events[|events| - 1];
      var at := Run(table, before);
      Effective(table, before) + if Next(at, e) != at && WorkAdded(at, e) == 0 then 1 else 0
  }

  ghost function WorkAddedBy(table: Table, events: seq<Event>): int {
    if events == [] then 0
    else
      var before, e := events[..|events| - 1], events[|events| - 1];
      WorkAddedBy(table, before) + WorkAdded(Run(table, before), e)
  }

  /** A whole run makes no more effective steps than the work it began with and took on. */
  lemma {:induction false} RunUsesWork(table: Table, events: seq<Event>)
    requires TableOk(table)
    ensures 0 <= Work(Run(table, events))
    ensures Effective(table, events) + Work(Run(table, events)) <= Work(table) + WorkAddedBy(table, events)
    decreases |events|
  {
    hide RowOk, RowChecks, Evolves, Validates, Next;
    ReachableTableOk(table, events);
    WorkIsNat(Run(table, events), Run(table, events).Keys);
    if events != [] {
      var before, e := events[..|events| - 1], events[|events| - 1];
      RunUsesWork(table, before);
      ReachableTableOk(table, before);
      StepUsesWork(Run(table, before), e);
      NoNegativeWork(Run(table, before), e);
    }
  }

  lemma NoNegativeWork(table: Table, e: Event)
    ensures WorkAdded(table, e) >= 0
  {
  }

  lemma {:induction false} WorkIsNat(table: Table, ids: set<RowId>)
    requires TableOk(table) && ids <= table.Keys
    ensures 0 <= WorkOf(table, ids)
    decreases |ids|
  {
    if ids != {} {
      var id :| id in ids;
      WorkSplits(table, ids, id);
      WorkIsNat(table, ids - {id});
      assert RowOk(table[id]);
    }
  }

  lemma {:induction false} SameWork(a: Table, b: Table, ids: set<RowId>)
    requires ids <= a.Keys && ids <= b.Keys && forall id | id in ids :: a[id] == b[id]
    ensures WorkOf(a, ids) == WorkOf(b, ids)
    decreases |ids|
  {
    if ids != {} {
      var id :| id in ids;
      WorkSplits(a, ids, id);
      WorkSplits(b, ids, id);
      SameWork(a, b, ids - {id});
    }
  }
}
