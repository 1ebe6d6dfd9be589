/** The job store: each method is one transaction on the jobs table. */
module JobStore {
  import opened Wrappers
  import opened JobQueue
  import opened JobQueueRuns
  import opened JobQueueClaims

  /** The sweep neither makes nor takes candidates, and leaves those there are as they were. */
  lemma SweepKeepsCandidates(table: Table, now: Time, kinds: seq<string>, locked: set<RowId>)
    ensures Candidates(Swept(table, now), now, kinds, locked) == Candidates(table, now, kinds, locked)
    ensures forall id | id in Candidates(table, now, kinds, locked) :: Swept(table, now)[id] == table[id]
  {
  }

  class JobStore {
    var rows: Table

    constructor ()
      ensures rows == map[] && TableOk(rows)
    {
      rows := map[];
    }

    /** INSERT ... ON CONFLICT (intent_key) DO NOTHING. */
    method Insert(intent: Intent, createdAt: Time, newId: RowId) returns (r: Result<bool, Error>)
      requires TableOk(rows) && ValidIntent(intent) && createdAt != ZeroTime
      modifies this
      ensures TableOk(rows)
      ensures InsertStep(old(rows), intent, createdAt, newId)
           == if r.Success? then Success((rows, r.value)) else Failure(r.error)
      ensures r.Failure? ==> rows == old(rows)
    {
      hide RowOk, RowChecks, Evolves, ValidIntent;
      EnqueueKeepsTable(rows, intent, createdAt, newId);
      if id :| id in rows && rows[id].intentKey == intent.key {
        return Success(false);
      }
      if newId in rows {
        return Failure(Conflict);
      }
      rows := rows[newId := NewRow(newId, intent, createdAt)];
      r := Success(true);
    }

    /** SELECT by the intent key, and the comparison with the intent. */
    method Read(intent: Intent) returns (r: Result<Job, Error>)
      requires TableOk(rows)
      ensures r == ReadBack(rows, intent)
    {
      hide RowOk;
      if id :| id in rows && rows[id].intentKey == intent.key {
        ReadsBack(rows, intent, id);
        if !SameIntent(rows[id], intent) {
          return Failure(Conflict);
        }
        return Success(rows[id]);
      }
      r := Failure(NoJob);
    }

    /** Both statements, in a transaction or with nothing in between: one step. */
    method Enqueue(intent: Intent, createdAt: Time, newId: RowId) returns (r: Result<(Job, bool), Error>)
      requires TableOk(rows)
      modifies this
      ensures (rows, r) == EnqueueStep(old(rows), intent, createdAt, newId)
      ensures TableOk(rows)
    {
      hide RowOk, RowChecks, Evolves, ValidIntent, InsertStep, ReadBack;
      if !ValidIntent(intent) || createdAt == ZeroTime {
        return Failure(InvalidJob);
      }
      EnqueueInTwoStatements(rows, intent, createdAt, newId, []);
      var created := Insert(intent, createdAt, newId);
      if created.Failure? {
        return Failure(created.error);
      }
      var current := Read(intent);
      if current.Failure? {
        return Failure(current.error);
      }
      r := Success((current.value, created.value));
    }

    /** Claims one job of the given kinds; duplicate or malformed kinds are refused. */
    method ClaimKinds(claim: Claim, kinds: seq<string>, locked: set<RowId>) returns (r: Result<Job, Error>)
      requires TableOk(rows)
      modifies this
      ensures var valid := (forall i | 0 <= i < |kinds| :: ValidIdentifier(kinds[i]))
                           && (forall i, j | 0 <= i < j < |kinds| :: kinds[i] != kinds[j]);
              (rows, r) == if kinds == [] then (old(rows), Failure(NoJob))
                           else if !valid then (old(rows), Failure(InvalidJob))
                           else ClaimStep(old(rows), claim, kinds, locked)
      ensures TableOk(rows)
    {
      hide RowOk, RowChecks, Evolves, ClaimStep;
      if |kinds| == 0 {
        return Failure(NoJob);
      }
      var seen: set<string> := {};
      for index := 0 to |kinds|
        invariant rows == old(rows)
        invariant forall kind :: kind in seen <==> kind in kinds[..index]
        invariant forall i | 0 <= i < index :: ValidIdentifier(kinds[i])
        invariant forall i, j | 0 <= i < j < index :: kinds[i] != kinds[j]
      {
        if !ValidIdentifier(kinds[index]) {
          return Failure(InvalidJob);
        }
        if kinds[index] in seen {
          return Failure(InvalidJob);
        }
        seen := seen + {kinds[index]};
      }
      r := ClaimFrom(claim, kinds, locked);
    }

    /** The claim transaction. The rows other transactions hold locked are skipped. */
    method ClaimFrom(claim: Claim, kinds: seq<string>, locked: set<RowId>) returns (r: Result<Job, Error>)
      requires TableOk(rows)
      modifies this
      ensures (rows, r) == ClaimStep(old(rows), claim, kinds, locked)
      ensures TableOk(rows)
    {
      hide RowOk, RowChecks, Evolves, Validates, Precedes;
      ClaimKeepsTable(rows, claim, kinds, locked);
      if !ValidClaim(claim) {
        return Failure(InvalidJob);
      }
      var before := rows;
      rows := Swept(rows, claim.now);
      var candidates := Candidates(rows, claim.now, kinds, locked);
      SweepKeepsCandidates(before, claim.now, kinds, locked);
      if candidates == {} {
        rows := before;
        return Failure(NoJob);
      }
      FirstExists(rows, candidates);
      var id :| IsFirst(rows, candidates, id);
      FirstIsUnique(before, candidates, id);
      var row := ClaimedRow(rows[id], claim);
      if !RowChecks(row) {
        rows := before;
        return Failure(InvalidJob);
      }
      rows := rows[id := row];
      r := Success(row);
    }

    method Fail(f: JobFailure) returns (r: Result<(), Error>)
      requires TableOk(rows)
      modifies this
      ensures (rows, r) == FailStep(old(rows), f)
      ensures TableOk(rows)
    {
      hide RowOk, Evolves;
      FailKeepsTable(rows, f);
      if !ValidFailure(f) {
        return Failure(InvalidJob);
      }
      if !HoldsLease(rows, f.completion) {
        return Failure(LeaseLost);
      }
      var row := FailedRow(rows[f.completion.job], f);
      if !RowChecks(row) {
        return Failure(InvalidJob);
      }
      rows := rows[f.completion.job := row];
      r := Success(());
    }

    method Complete(c: Completion) returns (r: Result<(), Error>)
      requires TableOk(rows)
      modifies this
      ensures (rows, r) == CompleteStep(old(rows), c)
      ensures TableOk(rows)
    {
      hide RowOk, Evolves;
      CompleteKeepsTable(rows, c);
      if !ValidCompletion(c) {
        return Failure(InvalidJob);
      }
      if !HoldsLease(rows, c) {
        return Failure(LeaseLost);
      }
      var row := SucceededRow(rows[c.job], c.now);
      if !RowChecks(row) {
        return Failure(InvalidJob);
      }
      rows := rows[c.job := row];
      r := Success(());
    }
  }
}
