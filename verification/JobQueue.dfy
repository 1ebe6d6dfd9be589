/**
 The jobs table and the four transactions on it. A transaction is one atomic step:
 it commits its new table or reports an error and leaves the table as it was.

 Times are microseconds since the zero time of Go's `time` package, so `IsZero` is `== 0`.
 A job ID is a UUID read as a number, and 0 stands for the empty ID.
 */
module JobQueue {
  import opened Wrappers

  type Time = nat
  type JobId = nat
  type WorkerId = string

  const NoId: JobId := 0
  const ZeroTime: Time := 0
  const MaxAttempts := 100
  const LeaseExpired := "LEASE_EXPIRED"

  datatype State = Queued | Running | Succeeded | Dead

  /** A JSON payload, by the text PostgreSQL keeps for it; anything but an object is rejected. */
  datatype Payload = Object(text: string) | NotAnObject

  datatype Job = Job(
    id: JobId, kind: string, intentKey: string, payload: Payload, state: State,
    attempts: int, maxAttempts: int, availableAt: Time,
    leaseOwner: Option<WorkerId>, leaseExpiresAt: Option<Time>, lastErrorCode: Option<string>,
    createdAt: Time, updatedAt: Time, startedAt: Option<Time>, completedAt: Option<Time>)

  /** The primary key of a stored row, as `newID` draws it. */
  type RowId = id: JobId | id != NoId witness 1

  /** Rows by primary key. */
  type Table = t: map<RowId, Job> | forall id | id in t :: t[id].id == id

  datatype Error = InvalidJob | NoJob | LeaseLost | Conflict

  datatype Intent = Intent(kind: string, key: string, payload: Payload, maxAttempts: int, availableAt: Time)
  datatype Claim = Claim(worker: WorkerId, now: Time, leaseNanos: int)
  datatype Completion = Completion(job: JobId, worker: WorkerId, now: Time)
  datatype JobFailure = JobFailure(completion: Completion, code: string, retryAt: Time, terminal: bool)

  // Validation

  /** Kinds and error codes: an upper-case letter, then letters, digits and underscores. */
  predicate ValidIdentifier(value: string) {
    && 1 <= |value| <= 64
    && 'A' <= value[0] <= 'Z'
    && forall i | 0 <= i < |value| :: 'A' <= value[i] <= 'Z' || '0' <= value[i] <= '9' || value[i] == '_'
  }

  predicate Printable(value: string) {
    forall i | 0 <= i < |value| :: '!' <= value[i] <= '~'
  }

  predicate ValidIntentKey(value: string) {
    1 <= |value| <= 255 && Printable(value)
  }

  predicate ValidWorkerId(value: string) {
    1 <= |value| <= 128 && Printable(value)
  }

  predicate ValidIntent(intent: Intent) {
    && ValidIdentifier(intent.kind)
    && ValidIntentKey(intent.key)
    && 1 <= intent.maxAttempts <= MaxAttempts
    && intent.availableAt != ZeroTime
    && intent.payload.Object?
  }

  predicate ValidClaim(claim: Claim) {
    ValidWorkerId(claim.worker) && claim.now != ZeroTime && claim.leaseNanos > 0
  }

  predicate ValidCompletion(c: Completion) {
    c.job != NoId && ValidWorkerId(c.worker) && c.now != ZeroTime
  }

  predicate ValidFailure(f: JobFailure) {
    && ValidCompletion(f.completion)
    && ValidIdentifier(f.code)
    && f.retryAt != ZeroTime
    && f.completion.now <= f.retryAt
  }

  /** The table's CHECK constraints. A statement that would break one fails and rolls back. */
  predicate RowChecks(j: Job) {
    && ValidIdentifier(j.kind)
    && ValidIntentKey(j.intentKey)
    && j.payload.Object?
    && 0 <= j.attempts <= j.maxAttempts
    && 1 <= j.maxAttempts <= MaxAttempts
    && (j.lastErrorCode.Some? ==> ValidIdentifier(j.lastErrorCode.value))
    && j.createdAt <= j.updatedAt
    && (j.startedAt.Some? ==> j.createdAt <= j.startedAt.value)
    && (j.completedAt.Some? ==> j.createdAt <= j.completedAt.value)
    && match j.state {
         case Queued => j.leaseOwner.None? && j.leaseExpiresAt.None? && j.completedAt.None?
         case Running =>
           && j.leaseOwner.Some? && 1 <= |j.leaseOwner.value| <= 128
           && j.leaseExpiresAt.Some? && j.leaseExpiresAt.value > j.updatedAt
           && j.startedAt.Some? && j.completedAt.None? && j.attempts > 0
         case _ => j.leaseOwner.None? && j.leaseExpiresAt.None? && j.completedAt.Some?
       }
  }

  /** `Job.Validate`, which every row read back from the table must pass. */
  predicate Validates(j: Job) {
    && j.id != NoId && ValidIntentKey(j.intentKey) && ValidIdentifier(j.kind) && j.payload.Object?
    && 0 <= j.attempts <= j.maxAttempts && 1 <= j.maxAttempts <= MaxAttempts
    && j.availableAt != ZeroTime && j.createdAt != ZeroTime && j.updatedAt != ZeroTime
    && j.createdAt <= j.updatedAt
    && (j.lastErrorCode.Some? ==> ValidIdentifier(j.lastErrorCode.value))
    && j.startedAt != Some(ZeroTime) && j.completedAt != Some(ZeroTime) && j.leaseExpiresAt != Some(ZeroTime)
    && match j.state {
         case Queued => j.leaseOwner.None? && j.leaseExpiresAt.None? && j.completedAt.None?
         case Running =>
           && j.leaseOwner.Some? && ValidWorkerId(j.leaseOwner.value) && j.leaseExpiresAt.Some?
           && j.startedAt.Some? && j.completedAt.None? && j.attempts >= 1
         case _ => j.leaseOwner.None? && j.leaseExpiresAt.None? && j.completedAt.Some?
       }
  }

  // Enqueue

  ghost predicate HasIntent(table: Table, key: string) {
    exists id :: id in table && table[id].intentKey == key
  }

  function NewRow(id: RowId, intent: Intent, createdAt: Time): Job {
    Job(id, intent.kind, intent.key, intent.payload, Queued, 0, intent.maxAttempts, intent.availableAt,
        None, None, None, createdAt, createdAt, None, None)
  }

  predicate SameIntent(j: Job, intent: Intent) {
    j.kind == intent.kind && j.maxAttempts == intent.maxAttempts && j.payload == intent.payload
  }

  /** Inserts unless the intent key is taken, then reads the row of that key back. */
  ghost function EnqueueStep(table: Table, intent: Intent, createdAt: Time, newId: RowId)
    : (r: (Table, Result<(Job, bool), Error>))
  {
    if !ValidIntent(intent) || createdAt == ZeroTime then
      (table, Failure(InvalidJob))
    else if HasIntent(table, intent.key) then
      var id :| id in table && table[id].intentKey == intent.key;
      (table, if SameIntent(table[id], intent) then Success((table[id], false)) else Failure(Conflict))
    else if newId in table then
      (table, Failure(Conflict))
    else
      var row := NewRow(newId, intent, createdAt);
      (table[newId := row], Success((row, true)))
  }

  // Claim

  /** A lease that ran out on the job's last attempt. */
  predicate ExhaustedLease(j: Job, now: Time) {
    j.state == Running && j.leaseExpiresAt.Some? && j.leaseExpiresAt.value <= now && j.attempts >= j.maxAttempts
  }

  function DeadRow(j: Job, now: Time): Job {
    j.(state := Dead, leaseOwner := None, leaseExpiresAt := None, lastErrorCode := Some(LeaseExpired),
       completedAt := Some(now), updatedAt := now)
  }

  function Swept(table: Table, now: Time): (swept: Table)
    ensures swept.Keys == table.Keys
  {
    map id | id in table :: if ExhaustedLease(table[id], now) then DeadRow(table[id], now) else table[id]
  }

  /** No kinds stands for every kind. */
  predicate Eligible(j: Job, now: Time, kinds: seq<string>) {
    && ((j.state == Queued && j.availableAt <= now)
        || (j.state == Running && j.leaseExpiresAt.Some? && j.leaseExpiresAt.value <= now))
    && j.attempts < j.maxAttempts
    && (kinds == [] || j.kind in kinds)
  }

  function DueTime(j: Job): Time {
    j.leaseExpiresAt.GetOr(j.availableAt)
  }

  /** The claim order: expired leases, then due time, creation time and ID. */
  predicate Precedes(a: Job, b: Job) {
    var rankA := if a.state == Running then 0 else 1;
    var rankB := if b.state == Running then 0 else 1;
    || rankA < rankB
    || (rankA == rankB && DueTime(a) < DueTime(b))
    || (rankA == rankB && DueTime(a) == DueTime(b) && a.createdAt < b.createdAt)
    || (rankA == rankB && DueTime(a) == DueTime(b) && a.createdAt == b.createdAt && a.id < b.id)
  }

  /** The rows the claim query can lock; those another transaction holds are skipped. */
  function Candidates(table: Table, now: Time, kinds: seq<string>, locked: set<RowId>): set<RowId> {
    set id | id in table && id !in locked && Eligible(table[id], now, kinds)
  }

  predicate IsFirst(table: Table, ids: set<RowId>, id: RowId)
    requires ids <= table.Keys
  {
    id in ids && forall other | other in ids :: other == id || Precedes(table[id], table[other])
  }

  /** The lease end: nanoseconds are rounded to the nearest microsecond. */
  function LeaseEnd(claim: Claim): Time
    requires claim.leaseNanos > 0
  {
    claim.now + (claim.leaseNanos + 500) / 1000
  }

  function ClaimedRow(j: Job, claim: Claim): Job
    requires claim.leaseNanos > 0
  {
    j.(state := Running, attempts := j.attempts + 1, leaseOwner := Some(claim.worker),
       leaseExpiresAt := Some(LeaseEnd(claim)),
       lastErrorCode := if j.state == Running then Some(LeaseExpired) else j.lastErrorCode,
       startedAt := Some(j.startedAt.GetOr(claim.now)), completedAt := None, updatedAt := claim.now)
  }

  /** One transaction: sweep exhausted leases, then lease the first candidate or roll back. */
  ghost function ClaimStep(table: Table, claim: Claim, kinds: seq<string>, locked: set<RowId>)
    : (r: (Table, Result<Job, Error>))
  {
    if !ValidClaim(claim) then
      (table, Failure(InvalidJob))
    else if Candidates(table, claim.now, kinds, locked) == {} then
      (table, Failure(NoJob))
    else
      var candidates := Candidates(table, claim.now, kinds, locked);
      FirstExists(table, candidates);
      var id :| IsFirst(table, candidates, id);
      var row := ClaimedRow(table[id], claim);
      if RowChecks(row) then (Swept(table, claim.now)[id := row], Success(row)) else (table, Failure(InvalidJob))
  }

  /** Every non-empty set of rows has a first one, so the query's LIMIT 1 finds a row. */
  lemma {:induction false} FirstExists(table: Table, ids: set<RowId>)
    requires ids <= table.Keys && ids != {}
    ensures exists id :: IsFirst(table, ids, id)
    decreases |ids|
  {
    var x :| x in ids;
    if ids == {x} {
      assert IsFirst(table, ids, x);
    } else {
      FirstExists(table, ids - {x});
      var y :| IsFirst(table, ids - {x}, y);
      assert IsFirst(table, ids, if Precedes(table[x], table[y]) then x else y);
    }
  }

  // Complete and fail

  /** The WHERE clause that fences Complete and Fail. */
  predicate HoldsLease(table: Table, c: Completion) {
    && c.job in table
    && table[c.job].state == Running
    && table[c.job].leaseOwner == Some(c.worker)
    && table[c.job].leaseExpiresAt.Some? && table[c.job].leaseExpiresAt.value > c.now
  }

  function SucceededRow(j: Job, now: Time): Job {
    j.(state := Succeeded, leaseOwner := None, leaseExpiresAt := None, completedAt := Some(now), updatedAt := now)
  }

  function CompleteStep(table: Table, c: Completion): (r: (Table, Result<(), Error>)) {
    if !ValidCompletion(c) then (table, Failure(InvalidJob))
    else if !HoldsLease(table, c) then (table, Failure(LeaseLost))
    else
      var row := SucceededRow(table[c.job], c.now);
      if RowChecks(row) then (table[c.job := row], Success(())) else (table, Failure(InvalidJob))
  }

  function FailedRow(j: Job, f: JobFailure): Job {
    var dead := f.terminal || j.attempts >= j.maxAttempts;
    j.(state := if dead then Dead else Queued, availableAt := f.retryAt, leaseOwner := None,
       leaseExpiresAt := None, lastErrorCode := Some(f.code),
       completedAt := if dead then Some(f.completion.now) else None, updatedAt := f.completion.now)
  }

  function FailStep(table: Table, f: JobFailure): (r: (Table, Result<(), Error>)) {
    if !ValidFailure(f) then (table, Failure(InvalidJob))
    else if !HoldsLease(table, f.completion) then (table, Failure(LeaseLost))
    else
      var row := FailedRow(table[f.completion.job], f);
      if RowChecks(row) then (table[f.completion.job := row], Success(())) else (table, Failure(InvalidJob))
  }
}
