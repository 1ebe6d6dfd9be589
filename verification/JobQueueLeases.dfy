/**
 What claims and enqueues mean for the columns of a row: which rows a claim may take and in what
 order, whose lease it respects and for how long, and when an intent meets a job that is there.
 */
module JobQueueLeases {
  import opened Wrappers
  import opened JobQueue
  import opened JobQueueRuns
  import opened JobQueueClaims

  // What a claim may take

  /**
   A claim takes a row that is queued and due, or running with its lease at an end on the claim's
   clock, has attempts left, is of a kind asked for, and is not locked by another transaction.
   */
  lemma ClaimTakesDueRow(table: Table, claim: Claim, kinds: seq<string>, locked: set<RowId>)
    requires ClaimStep(table, claim, kinds, locked).1.Success?
    ensures var job := ClaimStep(table, claim, kinds, locked).1.value;
            && job.id in table && job.id !in locked
            && var row := table[job.id];
               && ((row.state == Queued && row.availableAt <= claim.now)
                   || (row.state == Running && row.leaseExpiresAt.Some? && row.leaseExpiresAt.value <= claim.now))
               && row.attempts < row.maxAttempts
               && (kinds == [] || row.kind in kinds)
  {
    var id := ClaimWins(table, claim, kinds, locked);
  }

  /** A valid claim finds no job exactly when no unlocked row is of that description. */
  lemma NoJobIff(table: Table, claim: Claim, kinds: seq<string>, locked: set<RowId>)
    ensures ClaimStep(table, claim, kinds, locked).1 == Failure(NoJob)
       <==> ValidClaim(claim)
            && forall id | id in table && id !in locked ::
                 !(&& ((table[id].state == Queued && table[id].availableAt <= claim.now)
                       || (table[id].state == Running && table[id].leaseExpiresAt.Some?
                           && table[id].leaseExpiresAt.value <= claim.now))
                   && table[id].attempts < table[id].maxAttempts
                   && (kinds == [] || table[id].kind in kinds))
  {
    hide RowChecks, ClaimedRow, Swept, Precedes;
    var candidates := Candidates(table, claim.now, kinds, locked);
    forall id | id in table && id !in locked
      ensures id in candidates
         <==> && ((table[id].state == Queued && table[id].availableAt <= claim.now)
                  || (table[id].state == Running && table[id].leaseExpiresAt.Some?
                      && table[id].leaseExpiresAt.value <= claim.now))
              && table[id].attempts < table[id].maxAttempts
              && (kinds == [] || table[id].kind in kinds)
    {
    }
    hide Eligible;
  }

  /**
   Among the rows it may take, a claim prefers expired leases to queued jobs; then the earlier lease
   end or due time, the earlier creation, and the smaller identifier.
   */
  lemma ClaimOrder(table: Table, claim: Claim, kinds: seq<string>, locked: set<RowId>, other: RowId)
    requires TableOk(table) && ClaimStep(table, claim, kinds, locked).1.Success?
    requires other in table && other !in locked && other != ClaimStep(table, claim, kinds, locked).1.value.id
    requires table[other].attempts < table[other].maxAttempts && (kinds == [] || table[other].kind in kinds)
    requires (table[other].state == Queued && table[other].availableAt <= claim.now)
             || (table[other].state == Running && table[other].leaseExpiresAt.Some?
                 && table[other].leaseExpiresAt.value <= claim.now)
    ensures var id := ClaimStep(table, claim, kinds, locked).1.value.id;
            && id in table
            && var a, b := table[id], table[other];
               && (b.state == Running ==>
                     && a.state == Running && a.leaseExpiresAt.Some? && b.leaseExpiresAt.Some?
                     && var x, y := a.leaseExpiresAt.value, b.leaseExpiresAt.value;
                        x < y || (x == y && (a.createdAt < b.createdAt || (a.createdAt == b.createdAt && id < other))))
               && (a.state == Queued ==>
                     && b.state == Queued
                     && var x, y := a.availableAt, b.availableAt;
                        x < y || (x == y && (a.createdAt < b.createdAt || (a.createdAt == b.createdAt && id < other))))
  {
    hide RowOk, RowChecks, Precedes, ClaimedRow, Swept;
    var id := ClaimWins(table, claim, kinds, locked);
    assert other in Candidates(table, claim.now, kinds, locked);
    assert Eligible(table[id], claim.now, kinds);
    hide ClaimStep, Candidates;
    OrderOfRows(table[id], table[other]);
  }

  lemma OrderOfRows(a: Job, b: Job)
    requires RowOk(a) && RowOk(b) && a.state in {Queued, Running} && b.state in {Queued, Running} && Precedes(a, b)
    ensures b.state == Running ==>
              && a.state == Running && a.leaseExpiresAt.Some? && b.leaseExpiresAt.Some?
              && var x, y := a.leaseExpiresAt.value, b.leaseExpiresAt.value;
                 x < y || (x == y && (a.createdAt < b.createdAt || (a.createdAt == b.createdAt && a.id < b.id)))
    ensures a.state == Queued ==>
              && b.state == Queued
              && var x, y := a.availableAt, b.availableAt;
                 x < y || (x == y && (a.createdAt < b.createdAt || (a.createdAt == b.createdAt && a.id < b.id)))
  {
    hide Validates;
  }

  /** A successful claim also buries the leases that ran out on a last attempt, and touches no other row. */
  lemma SweepTakesExhausted(table: Table, claim: Claim, kinds: seq<string>, locked: set<RowId>, other: RowId)
    requires ClaimStep(table, claim, kinds, locked).1.Success?
    requires other in table && other != ClaimStep(table, claim, kinds, locked).1.value.id
    ensures var (after, row) := (ClaimStep(table, claim, kinds, locked).0, table[other]);
            && other in after
            && after[other]
               == if row.state == Running && row.leaseExpiresAt.Some? && row.leaseExpiresAt.value <= claim.now
                     && row.attempts >= row.maxAttempts
                  then row.(state := Dead, leaseOwner := None, leaseExpiresAt := None,
                            lastErrorCode := Some("LEASE_EXPIRED"), completedAt := Some(claim.now),
                            updatedAt := claim.now)
                  else row
  {
    hide RowChecks, Eligible, Precedes;
    var id := ClaimWins(table, claim, kinds, locked);
  }

  /** A lease ends at the microsecond nearest to the claim's clock and duration, half a one counting up. */
  lemma LeaseLasts(claim: Claim)
    requires claim.leaseNanos > 0
    ensures 1000 * LeaseEnd(claim) - 500 <= 1000 * claim.now + claim.leaseNanos < 1000 * LeaseEnd(claim) + 500
  {
  }

  /**
   A lease is kept until a clock reaches its end: in any run where no claim's clock is that late, and
   the holder itself does not report in time, the row stays as it is.
   */
  lemma {:induction false} LeaseIsKept(table: Table, events: seq<Event>, id: RowId, holder: WorkerId, ends: Time)
    requires TableOk(table) && id in table && table[id].state == Running
    requires table[id].leaseOwner == Some(holder) && table[id].leaseExpiresAt == Some(ends)
    requires forall i | 0 <= i < |events| && events[i].ClaimJob? :: events[i].claim.now < ends
    requires forall i | 0 <= i < |events| && events[i].Complete? ::
               var c := events[i].completion; c.job != id || c.worker != holder || c.now >= ends
    requires forall i | 0 <= i < |events| && events[i].Fail? ::
               var c := events[i].failure.completion; c.job != id || c.worker != holder || c.now >= ends
    ensures id in Run(table, events) && Run(table, events)[id] == table[id]
    decreases |events|
  {
    if events != [] {
      hide TableOk, Next;
      var before, e := events[..|events| - 1], events[|events| - 1];
      LeaseIsKept(table, before, id, holder, ends);
      ReachableTableOk(table, before);
      LeaseSurvivesStep(Run(table, before), e, id, holder, ends);
    }
  }

  lemma LeaseSurvivesStep(table: Table, e: Event, id: RowId, holder: WorkerId, ends: Time)
    requires TableOk(table) && id in table && table[id].state == Running
    requires table[id].leaseOwner == Some(holder) && table[id].leaseExpiresAt == Some(ends)
    requires e.ClaimJob? ==> e.claim.now < ends
    requires e.Complete? ==> e.completion.job != id || e.completion.worker != holder || e.completion.now >= ends
    requires e.Fail? ==>
               var c := e.failure.completion; c.job != id || c.worker != holder || c.now >= ends
    ensures id in Next(table, e) && Next(table, e)[id] == table[id]
  {
    hide RowOk, RowChecks, TableOk, Eligible, Precedes, Evolves, ExhaustedLease;
    StepKeepsTable(table, e);
    if e.ClaimJob? {
      if ClaimStep(table, e.claim, e.kinds, e.locked).1.Success? {
        ClaimTakesDueRow(table, e.claim, e.kinds, e.locked);
        SweepTakesExhausted(table, e.claim, e.kinds, e.locked, id);
      } else {
        ClaimLoses(table, e.claim, e.kinds, e.locked);
      }
      hide ClaimStep;
    }
  }

  // When an intent meets a job

  /** An intent whose key is taken gives the job of that key if kind, payload and attempts agree, and a conflict if not. */
  lemma EnqueueMeets(table: Table, intent: Intent, at: Time, newId: RowId, id: RowId)
    requires TableOk(table) && ValidIntent(intent) && at != ZeroTime
    requires id in table && table[id].intentKey == intent.key
    ensures EnqueueStep(table, intent, at, newId)
         == (table,
             if table[id].kind == intent.kind && table[id].payload == intent.payload
                && table[id].maxAttempts == intent.maxAttempts
             then Success((table[id], false)) else Failure(Conflict))
  {
    hide RowOk, ValidIntent;
    assert HasIntent(table, intent.key);
  }

  /** An intent whose key is new becomes one queued job, due at the intent's time, and changes no other row. */
  lemma EnqueueAdds(table: Table, intent: Intent, at: Time, newId: RowId)
    requires ValidIntent(intent) && at != ZeroTime && newId !in table
    requires forall id | id in table :: table[id].intentKey != intent.key
    ensures var (after, outcome) := EnqueueStep(table, intent, at, newId);
            && outcome.Success? && outcome.value.1 && after == table[newId := outcome.value.0]
            && var row := outcome.value.0;
               && row.id == newId && row.kind == intent.kind && row.intentKey == intent.key
               && row.payload == intent.payload && row.maxAttempts == intent.maxAttempts
               && row.state == Queued && row.attempts == 0 && row.availableAt == intent.availableAt
               && row.createdAt == at && row.updatedAt == at
               && row.leaseOwner == None && row.leaseExpiresAt == None && row.lastErrorCode == None
               && row.startedAt == None && row.completedAt == None
  {
    hide ValidIntent;
  }

  // What is well formed

  /** A kind or error code is an upper-case letter and up to 63 letters, digits and underscores. */
  lemma IdentifierIs(first: char, rest: string)
    ensures ValidIdentifier([first] + rest)
       <==> 'A' <= first <= 'Z' && |rest| <= 63
            && forall c | c in rest :: 'A' <= c <= 'Z' || '0' <= c <= '9' || c == '_'
    ensures !ValidIdentifier("")
  {
    var s := [first] + rest;
    assert forall i | 0 <= i < |rest| :: s[i + 1] == rest[i];
    if ValidIdentifier(s) {
      forall c | c in rest ensures 'A' <= c <= 'Z' || '0' <= c <= '9' || c == '_' {
        var i :| 0 <= i < |rest| && rest[i] == c;
        assert s[i + 1] == c;
      }
    } else {
      assert forall i | 1 <= i < |s| :: s[i] == rest[i - 1] && rest[i - 1] in rest;
    }
  }

  /** Intent keys are up to 255, worker identifiers up to 128 printable characters without a space. */
  lemma KeysAre(s: string)
    ensures ValidIntentKey(s) <==> s != "" && |s| <= 255 && forall c | c in s :: ' ' < c < '\U{7f}'
    ensures ValidWorkerId(s) <==> s != "" && |s| <= 128 && forall c | c in s :: ' ' < c < '\U{7f}'
  {
    assert forall i | 0 <= i < |s| :: s[i] in s;
    if Printable(s) {
      forall c | c in s ensures ' ' < c < '\U{7f}' {
        var i :| 0 <= i < |s| && s[i] == c;
      }
    }
  }

  /** What NewIntent, NewClaim, NewCompletion and NewFailure let through. */
  lemma InputsAre(intent: Intent, claim: Claim, f: JobFailure)
    ensures ValidIntent(intent)
       <==> ValidIdentifier(intent.kind) && ValidIntentKey(intent.key)
            && intent.maxAttempts > 0 && intent.maxAttempts < 101
            && intent.availableAt > 0 && intent.payload.Object?
    ensures ValidClaim(claim) <==> ValidWorkerId(claim.worker) && claim.now > 0 && claim.leaseNanos >= 1
    ensures ValidCompletion(f.completion)
       <==> f.completion.job > 0 && ValidWorkerId(f.completion.worker) && f.completion.now > 0
    ensures ValidFailure(f)
       <==> f.completion.job > 0 && ValidWorkerId(f.completion.worker) && f.completion.now > 0
            && ValidIdentifier(f.code) && f.retryAt >= f.completion.now
  {
    hide ValidIdentifier, ValidIntentKey, ValidWorkerId;
  }

  /** The constraints that every row of every run meets, one by one. */
  lemma ReachableRow(events: seq<Event>, id: RowId)
    requires id in Run(map[], events)
    ensures var j := Run(map[], events)[id];
            && j.id == id && id > 0
            && ValidIdentifier(j.kind) && ValidIntentKey(j.intentKey) && j.payload.Object?
            && 0 <= j.attempts && j.attempts <= j.maxAttempts && 1 <= j.maxAttempts && j.maxAttempts < 101
            && (j.lastErrorCode.Some? ==> ValidIdentifier(j.lastErrorCode.value))
            && 0 < j.createdAt && j.createdAt <= j.updatedAt && 0 < j.availableAt
            && (j.startedAt.Some? ==> j.createdAt <= j.startedAt.value)
            && (j.completedAt.Some? ==> j.createdAt <= j.completedAt.value)
    ensures var j := Run(map[], events)[id];
            && (j.completedAt.Some? <==> j.state == Succeeded || j.state == Dead)
            && (j.leaseOwner.Some? <==> j.state == Running) && (j.leaseExpiresAt.Some? <==> j.state == Running)
            && (j.state == Running ==>
                  ValidWorkerId(j.leaseOwner.value) && j.leaseExpiresAt.value > j.updatedAt
                  && j.startedAt.Some? && 1 <= j.attempts)
            && (j.state == Queued ==> j.attempts < j.maxAttempts)
  {
    hide Run;
    ReachableTableOk(map[], events);
    assert RowOk(Run(map[], events)[id]);
  }

  /** Invalid input is refused as such; a valid report of anyone but a holder in time finds its lease lost. */
  lemma RefusedWith(
      table: Table, intent: Intent, at: Time, newId: RowId, claim: Claim, kinds: seq<string>, locked: set<RowId>,
      report: JobFailure)
    ensures !ValidIntent(intent) || at == 0 ==>
              EnqueueStep(table, intent, at, newId) == (table, Failure(InvalidJob))
    ensures !ValidClaim(claim) ==> ClaimStep(table, claim, kinds, locked) == (table, Failure(InvalidJob))
    ensures !ValidCompletion(report.completion) ==>
              CompleteStep(table, report.completion) == (table, Failure(InvalidJob))
    ensures !ValidFailure(report) ==> FailStep(table, report) == (table, Failure(InvalidJob))
    ensures var c := report.completion;
            var held := c.job in table && table[c.job].state == Running && table[c.job].leaseOwner == Some(c.worker)
                        && table[c.job].leaseExpiresAt.Some? && table[c.job].leaseExpiresAt.value > c.now;
            && (ValidCompletion(c) ==> (CompleteStep(table, c).1 == Failure(LeaseLost) <==> !held))
            && (ValidFailure(report) ==> (FailStep(table, report).1 == Failure(LeaseLost) <==> !held))
    ensures var enqueued := EnqueueStep(table, intent, at, newId).1;
            enqueued.Failure? ==> enqueued.error == InvalidJob || enqueued.error == Conflict
    ensures var claimed := ClaimStep(table, claim, kinds, locked).1;
            claimed.Failure? ==> claimed.error == InvalidJob || claimed.error == NoJob
    ensures var (completed, failed) := (CompleteStep(table, report.completion).1, FailStep(table, report).1);
            && (completed.Failure? ==> completed.error == InvalidJob || completed.error == LeaseLost)
            && (failed.Failure? ==> failed.error == InvalidJob || failed.error == LeaseLost)
  {
    hide ValidIntent, ValidClaim, ValidCompletion, ValidFailure, RowChecks;
  }
}
