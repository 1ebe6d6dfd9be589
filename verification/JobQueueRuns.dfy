/**
 Runs of the job queue: any interleaving of its transactions, each with its own clock,
 identity and row ID. What every step keeps, and what holds over whole runs.
 */
module JobQueueRuns {
  import opened Wrappers
  import opened JobQueue

  datatype Event =
    | Enqueue(intent: Intent, createdAt: Time, newId: RowId)
    | ClaimJob(claim: Claim, kinds: seq<string>, locked: set<RowId>)
    | Complete(completion: Completion)
    | Fail(failure: JobFailure)

  ghost function Next(table: Table, e: Event): Table {
    match e
    case Enqueue(intent, createdAt, newId) => EnqueueStep(table, intent, createdAt, newId).0
    case ClaimJob(claim, kinds, locked) => ClaimStep(table, claim, kinds, locked).0
    case Complete(completion) => CompleteStep(table, completion).0
    case Fail(failure) => FailStep(table, failure).0
  }

  ghost function Run(table: Table, events: seq<Event>): Table {
    if events == [] then table else Next(Run(table, events[..|events| - 1]), events[|events| - 1])
  }

  // The table invariant

  ghost predicate RowOk(j: Job) {
    RowChecks(j) && Validates(j) && (j.state == Queued ==> j.attempts < j.maxAttempts)
  }

  ghost predicate UniqueIntents(table: Table) {
    forall a, b | a in table && b in table && table[a].intentKey == table[b].intentKey :: a == b
  }

  ghost predicate TableOk(table: Table) {
    UniqueIntents(table) && forall id | id in table :: RowOk(table[id])
  }

  /** What a committed step may do to a row: nothing, or one lifecycle move that only Claim, Complete and Fail make. */
  ghost predicate Evolves(a: Job, b: Job) {
    && a.id == b.id && a.kind == b.kind && a.intentKey == b.intentKey && a.payload == b.payload
    && a.maxAttempts == b.maxAttempts && a.createdAt == b.createdAt
    && a.attempts <= b.attempts
    && (a.startedAt.Some? ==> b.startedAt == a.startedAt)
    && (a != b ==> a.state in {Queued, Running} && RowMeasure(b) < RowMeasure(a))
  }

  /** Steps a row can still make. */
  function RowMeasure(j: Job): int {
    match j.state
    case Queued => 2 * (j.maxAttempts - j.attempts)
    case Running => 2 * (j.maxAttempts - j.attempts) + 1
    case _ => 0
  }

  ghost predicate TableEvolves(a: Table, b: Table) {
    a.Keys <= b.Keys && forall id | id in a :: Evolves(a[id], b[id])
  }

  lemma LeaseExpiredIsCode()
    ensures ValidIdentifier(LeaseExpired)
  {
  }

  lemma DeadRowOk(j: Job, now: Time)
    requires RowOk(j) && ExhaustedLease(j, now) && now != ZeroTime
    ensures RowOk(DeadRow(j, now)) && Evolves(j, DeadRow(j, now))
  {
    LeaseExpiredIsCode();
  }

  lemma ClaimedRowOk(j: Job, claim: Claim, kinds: seq<string>)
    requires RowOk(j) && ValidClaim(claim) && Eligible(j, claim.now, kinds) && RowChecks(ClaimedRow(j, claim))
    ensures RowOk(ClaimedRow(j, claim)) && Evolves(j, ClaimedRow(j, claim))
  {
  }

  lemma SucceededRowOk(j: Job, now: Time)
    requires RowOk(j) && j.state == Running && now != ZeroTime && RowChecks(SucceededRow(j, now))
    ensures RowOk(SucceededRow(j, now)) && Evolves(j, SucceededRow(j, now))
  {
  }

  lemma FailedRowOk(j: Job, f: JobFailure)
    requires RowOk(j) && j.state == Running && ValidFailure(f) && RowChecks(FailedRow(j, f))
    ensures RowOk(FailedRow(j, f)) && Evolves(j, FailedRow(j, f))
  {
  }

  // Every step keeps the table

  /** Replacing rows by rows that evolved from them keeps the table. */
  lemma EvolvedTableOk(a: Table, b: Table)
    requires TableOk(a) && a.Keys == b.Keys
    requires forall id | id in a :: RowOk(b[id]) && Evolves(a[id], b[id])
    ensures TableOk(b) && TableEvolves(a, b)
  {
    hide RowOk;
  }

  lemma EvolvesReflexively(table: Table)
    ensures TableEvolves(table, table)
  {
  }

  /** Replacing one row by one that evolved from it keeps the table. */
  lemma EvolvedRowOk(table: Table, id: RowId, row: Job)
    requires TableOk(table) && id in table && RowOk(row) && Evolves(table[id], row)
    ensures TableOk(table[id := row]) && TableEvolves(table, table[id := row])
  {
    hide RowOk;
    EvolvedTableOk(table, table[id := row]);
  }

  lemma SweepKeepsTable(table: Table, now: Time)
    requires TableOk(table) && now != ZeroTime
    ensures TableOk(Swept(table, now)) && TableEvolves(table, Swept(table, now))
  {
    var swept := Swept(table, now);
    forall id | id in table ensures RowOk(swept[id]) && Evolves(table[id], swept[id]) {
      if ExhaustedLease(table[id], now) {
        DeadRowOk(table[id], now);
      }
    }
    EvolvedTableOk(table, swept);
  }


  lemma NewRowOk(id: RowId, intent: Intent, createdAt: Time)
    requires ValidIntent(intent) && createdAt != ZeroTime
    ensures RowOk(NewRow(id, intent, createdAt))
  {
  }

  lemma EnqueueKeepsTable(table: Table, intent: Intent, createdAt: Time, newId: RowId)
    requires TableOk(table)
    ensures TableOk(EnqueueStep(table, intent, createdAt, newId).0)
    ensures TableEvolves(table, EnqueueStep(table, intent, createdAt, newId).0)
  {
    hide RowOk, RowChecks, Evolves;
    EvolvesReflexively(table);
    if EnqueueStep(table, intent, createdAt, newId).0 != table {
      NewRowOk(newId, intent, createdAt);
    }
  }

  /** What a successful claim did: swept the table and leased the first candidate. */
  lemma ClaimWins(table: Table, claim: Claim, kinds: seq<string>, locked: set<RowId>) returns (id: RowId)
    requires ClaimStep(table, claim, kinds, locked).1.Success?
    ensures ValidClaim(claim) && id in Candidates(table, claim.now, kinds, locked)
    ensures IsFirst(table, Candidates(table, claim.now, kinds, locked), id)
    ensures RowChecks(ClaimedRow(table[id], claim))
    ensures ClaimStep(table, claim, kinds, locked) ==
            (Swept(table, claim.now)[id := ClaimedRow(table[id], claim)], Success(ClaimedRow(table[id], claim)))
  {
    hide RowChecks, Eligible;
    id := ClaimStep(table, claim, kinds, locked).1.value.id;
  }

  lemma ClaimKeepsTable(table: Table, claim: Claim, kinds: seq<string>, locked: set<RowId>)
    requires TableOk(table)
    ensures TableOk(ClaimStep(table, claim, kinds, locked).0)
    ensures TableEvolves(table, ClaimStep(table, claim, kinds, locked).0)
  {
    hide RowOk, RowChecks, Evolves, ClaimStep, Swept, ClaimedRow;
    EvolvesReflexively(table);
    if ClaimStep(table, claim, kinds, locked).1.Success? {
      var id := ClaimWins(table, claim, kinds, locked);
      SweepKeepsTable(table, claim.now);
      ClaimedRowOk(table[id], claim, kinds);
      EvolvedTableOk(table, ClaimStep(table, claim, kinds, locked).0);
    } else {
      ClaimLoses(table, claim, kinds, locked);
    }
  }

  /** A claim that reports an error rolls back, and its sweep with it. */
  lemma ClaimLoses(table: Table, claim: Claim, kinds: seq<string>, locked: set<RowId>)
    requires ClaimStep(table, claim, kinds, locked).1.Failure?
    ensures ClaimStep(table, claim, kinds, locked).0 == table
  {
    hide RowChecks, Eligible, Swept, ClaimedRow;
  }

  lemma CompleteKeepsTable(table: Table, c: Completion)
    requires TableOk(table)
    ensures TableOk(CompleteStep(table, c).0) && TableEvolves(table, CompleteStep(table, c).0)
  {
    hide RowOk, RowChecks, Evolves;
    if CompleteStep(table, c).1.Success? {
      SucceededRowOk(table[c.job], c.now);
      EvolvedRowOk(table, c.job, SucceededRow(table[c.job], c.now));
    } else {
      EvolvesReflexively(table);
    }
  }

  lemma FailKeepsTable(table: Table, f: JobFailure)
    requires TableOk(table)
    ensures TableOk(FailStep(table, f).0) && TableEvolves(table, FailStep(table, f).0)
  {
    hide RowOk, RowChecks, Evolves;
    if FailStep(table, f).1.Success? {
      FailedRowOk(table[f.completion.job], f);
      EvolvedRowOk(table, f.completion.job, FailedRow(table[f.completion.job], f));
    } else {
      EvolvesReflexively(table);
    }
  }

  lemma StepKeepsTable(table: Table, e: Event)
    requires TableOk(table)
    ensures TableOk(Next(table, e))
    ensures TableEvolves(table, Next(table, e))
  {
    match e
    case Enqueue(intent, createdAt, newId) => EnqueueKeepsTable(table, intent, createdAt, newId);
    case ClaimJob(claim, kinds, locked) => ClaimKeepsTable(table, claim, kinds, locked);
    case Complete(completion) => CompleteKeepsTable(table, completion);
    case Fail(failure) => FailKeepsTable(table, failure);
  }

  // Whole runs

  /** Every reachable table meets its constraints, and every row of it decodes. */
  lemma {:induction false} ReachableTableOk(table: Table, events: seq<Event>)
    requires TableOk(table)
    ensures TableOk(Run(table, events))
    decreases |events|
  {
    if events != [] {
      var before := events[..|events| - 1];
      ReachableTableOk(table, before);
      StepKeepsTable(Run(table, before), events[|events| - 1]);
    }
  }

  /** Over any run rows are kept with their identity, start time and, once terminal, every field. */
  lemma {:induction false} RunEvolves(table: Table, events: seq<Event>)
    requires TableOk(table)
    ensures TableEvolves(table, Run(table, events))
    decreases |events|
  {
    hide RowOk, TableOk;
    if events != [] {
      var before := events[..|events| - 1];
      RunEvolves(table, before);
      ReachableTableOk(table, before);
      StepKeepsTable(Run(table, before), events[|events| - 1]);
    }
  }

  // Claims and fencing

  /** The job a claim event leased, if it leased one. */
  ghost function Leased(table: Table, e: Event): Option<RowId> {
    if e.ClaimJob? && ClaimStep(table, e.claim, e.kinds, e.locked).1.Success? then
      Some(ClaimStep(table, e.claim, e.kinds, e.locked).1.value.id)
    else None
  }

  /** The worker of the latest claim that leased the job. */
  ghost function Claimant(events: seq<Event>, id: RowId): Option<WorkerId> {
    if events == [] then None
    else
      var before, e := events[..|events| - 1], events[|events| - 1];
      if Leased(Run(map[], before), e) == Some(id) then Some(e.claim.worker) else Claimant(before, id)
  }

  /** How often the job was leased. */
  ghost function Claims(events: seq<Event>, id: RowId): nat {
    if events == [] then 0
    else
      var before, e := events[..|events| - 1], events[|events| - 1];
      Claims(before, id) + if Leased(Run(map[], before), e) == Some(id) then 1 else 0
  }

  /** How often a step changed the row after it was created. */
  ghost function Changes(events: seq<Event>, id: RowId): nat {
    if events == [] then 0
    else
      var before, e := events[..|events| - 1], events[|events| - 1];
      var table := Run(map[], before);
      Changes(before, id) + if id in table && id in Next(table, e) && Next(table, e)[id] != table[id] then 1 else 0
  }

  /** A row is changed by the claim that leases it, a sweep, or the lease holder's Complete or Fail. */
  lemma StepChangesRow(table: Table, e: Event, id: RowId)
    requires TableOk(table)
    ensures Leased(table, e) == Some(id) ==>
              id in table && id in Next(table, e) && Next(table, e)[id] == ClaimedRow(table[id], e.claim)
    ensures id in Next(table, e) && id !in table ==> Next(table, e)[id].state == Queued && Next(table, e)[id].attempts == 0
    ensures id in table && id in Next(table, e) && Next(table, e)[id] != table[id] && Leased(table, e) != Some(id) ==>
              && Next(table, e)[id].attempts == table[id].attempts && Next(table, e)[id].state != Running
              && (e.Complete? ==> e.completion.job == id && table[id].leaseOwner == Some(e.completion.worker))
              && (e.Fail? ==> e.failure.completion.job == id && table[id].leaseOwner == Some(e.failure.completion.worker))
  {
    hide RowOk, RowChecks, Evolves, TableOk;
    if e.ClaimJob? {
      if ClaimStep(table, e.claim, e.kinds, e.locked).1.Success? {
        var won := ClaimWins(table, e.claim, e.kinds, e.locked);
      } else {
        ClaimLoses(table, e.claim, e.kinds, e.locked);
      }
    }
  }

  lemma RowsStay(a: Table, b: Table, id: RowId)
    ensures TableEvolves(a, b) && id in a ==> id in b
  {
  }

  /** In a reachable table a running row is leased to its latest claimant, and attempts count its claims. */
  lemma {:induction false} ClaimHistory(events: seq<Event>, id: RowId)
    ensures id !in Run(map[], events) ==> Claims(events, id) == 0 && Claimant(events, id) == None
    ensures id in Run(map[], events) ==>
              && Run(map[], events)[id].attempts == Claims(events, id)
              && (Run(map[], events)[id].state == Running ==> Run(map[], events)[id].leaseOwner == Claimant(events, id))
    decreases |events|
  {
    hide RowOk, RowChecks, TableOk, Next, Leased, RowMeasure, TableEvolves;
    if events != [] {
      var before, e := events[..|events| - 1], events[|events| - 1];
      var table := Run(map[], before);
      ClaimHistory(before, id);
      ReachableTableOk(map[], before);
      StepKeepsTable(table, e);
      RowsStay(table, Next(table, e), id);
      StepChangesRow(table, e, id);
    }
  }

  /** Fencing: Complete and Fail change a row only for the worker of its latest claim. */
  lemma OnlyClaimantFinishes(events: seq<Event>, e: Event, id: RowId)
    requires e.Complete? || e.Fail?
    requires id in Run(map[], events) && Next(Run(map[], events), e)[id] != Run(map[], events)[id]
    ensures var c := if e.Complete? then e.completion else e.failure.completion;
            c.job == id && Claimant(events, id) == Some(c.worker)
  {
    hide RowOk, RowChecks, TableOk, TableEvolves;
    ReachableTableOk(map[], events);
    StepChangesRow(Run(map[], events), e, id);
    ClaimHistory(events, id);
  }

  lemma AttemptsInRange(j: Job)
    requires RowOk(j)
    ensures 0 <= j.attempts <= j.maxAttempts
  {
  }

  /** A job is claimed at most max_attempts times and changes at most 2 * max_attempts times. */
  lemma {:induction false} LifetimeBound(events: seq<Event>, id: RowId)
    requires id in Run(map[], events)
    ensures Claims(events, id) <= Run(map[], events)[id].maxAttempts
    ensures Changes(events, id) + RowMeasure(Run(map[], events)[id]) <= 2 * Run(map[], events)[id].maxAttempts
    decreases |events|
  {
    hide RowChecks, Validates, Next;
    ReachableTableOk(map[], events);
    ClaimHistory(events, id);
    assert RowOk(Run(map[], events)[id]);
    AttemptsInRange(Run(map[], events)[id]);
    hide RowOk, TableOk;
    var before, e := events[..|events| - 1], events[|events| - 1];
    ReachableTableOk(map[], before);
    StepKeepsTable(Run(map[], before), e);
    if id in Run(map[], before) {
      LifetimeBound(before, id);
      assert Evolves(Run(map[], before)[id], Run(map[], events)[id]);
    } else {
      StepChangesRow(Run(map[], before), e, id);
      NoChangesBefore(before, id);
    }
  }

  lemma {:induction false} NoChangesBefore(events: seq<Event>, id: RowId)
    requires id !in Run(map[], events)
    ensures Changes(events, id) == 0
    decreases |events|
  {
    hide RowOk, TableOk, Next;
    if events != [] {
      var before := events[..|events| - 1];
      ReachableTableOk(map[], before);
      StepKeepsTable(Run(map[], before), events[|events| - 1]);
      NoChangesBefore(before, id);
    }
  }
}
