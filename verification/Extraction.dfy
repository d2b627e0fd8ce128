/** The lease operations as they write: statement by statement on the run and attempt rows
    (adapters/postgres/extraction.go), inside transactions that roll back on error
    (adapters/postgres/database.go). */
module Extraction {
  import opened Results
  import opened Observations
  import opened Leases

  class ExtractionStore {
    var runs: map<string, StoredRun>
    var attempts: map<string, seq<Attempt>>

    constructor ()
      ensures Snapshot() == EMPTY_STORE
    {
      runs, attempts := map[], map[];
    }

    function Snapshot(): Store
      reads this
    {
      Store(runs, attempts)
    }

    method InsertRun(run: RunInput) returns (inserted: bool)
      modifies this`runs
      ensures inserted == Insertable(old(Snapshot()), run)
      ensures Snapshot() == if inserted then WithRun(old(Snapshot()), run.id, NewRun(run)) else old(Snapshot())
    {
      inserted := Insertable(Snapshot(), run);
      if inserted {
        runs := runs[run.id := NewRun(run)];
      }
    }

    method ExpireAttempt(runId: string, attemptId: string)
      modifies this`attempts
      ensures Snapshot() == WithRows(old(Snapshot()), runId,
        UpdateActive(RowsOf(old(Snapshot()), runId), attemptId, Expired, None, None))
    {
      attempts := attempts[runId := UpdateActive(RowsOf(Snapshot(), runId), attemptId, Expired, None, None)];
    }

    /** The end of PrepareExtraction, from the recorded-time check on. */
    method InsertAttempt(run: RunInput, lease: LeaseRequest, number: int) returns (r: Result<ExtractionState, LeaseError>)
      requires run.id in runs
      modifies this
      ensures match Claim(old(Snapshot()), run, lease, number)
        case Ok(claimed) => r == Ok(claimed.1) && Snapshot() == claimed.0
        case Err(e) => r == Err(e)
    {
      if lease.claimedAt < runs[run.id].input.recordedAt {
        return Err(Conflict);
      }
      var attempt := NewAttempt(lease, number);
      if !AttemptInsertable(Snapshot(), run.id, attempt) {
        return Err(Conflict);
      }
      attempts := attempts[run.id := RowsOf(Snapshot(), run.id) + [attempt]];
      if !runs[run.id].state.RunActive? {
        var rowsAffected := 0;
        if runs[run.id].state.RunFailed? {
          runs := runs[run.id := runs[run.id].(state := RunActive)];
          rowsAffected := 1;
        }
        if rowsAffected != 1 {
          return Err(Corrupt);
        }
      }
      r := Ok(ExtractionState(run.id, lease.attemptId, number, Claimed, Expiry(lease), None));
    }

    method PrepareExtraction(run: RunInput, lease: LeaseRequest) returns (r: Result<ExtractionState, LeaseError>)
      modifies this
      ensures match Prepare(old(Snapshot()), run, lease)
        case Ok(prepared) => r == Ok(prepared.1) && Snapshot() == prepared.0
        case Err(e) => r == Err(e)
    {
      if !ValidPreparation(run, lease) {
        return Err(InvalidInput);
      }
      var inserted := InsertRun(run);
      if run.id !in runs {
        return Err(Conflict);
      }
      var stored := runs[run.id];
      if !LoadableRun(stored) {
        return Err(Corrupt);
      }
      var latest := LoadLatest(Snapshot(), run.id);
      if stored.state.RunCompleted? {
        if !SameCompletedInput(stored.input, run) {
          return Err(Conflict);
        }
        if latest.Err? {
          return Err(Corrupt);
        }
        r := CompletedResult(stored, latest.value);
        return;
      }
      if stored.input != run {
        return Err(Conflict);
      }
      if inserted && latest.Ok? {
        return Err(Corrupt);
      }
      if latest.Err? && latest.error != NotFound {
        return Err(Corrupt);
      }
      if !inserted && latest.Err? {
        return Err(Corrupt);
      }
      var nextAttemptNumber := 1;
      if latest.Ok? {
        var attempt := latest.value;
        nextAttemptNumber := attempt.number + 1;
        match attempt.state {
          case Active =>
            if SameLease(attempt, lease) {
              return Ok(AttemptResult(run.id, attempt, Claimed));
            }
            if lease.claimedAt < attempt.leaseExpiresAt {
              return Ok(AttemptResult(run.id, attempt, Busy));
            }
            ExpireAttempt(run.id, attempt.id);
          case Failed | Canceled | Expired =>
            if lease.claimedAt < attempt.terminalAt.value {
              return Err(Conflict);
            }
          case Completed =>
            return Err(Corrupt);
        }
      }
      r := InsertAttempt(run, lease, nextAttemptNumber);
    }

    method RecordExtractionFailure(input: FailureInput) returns (r: Result<(), LeaseError>)
      modifies this
      ensures match Fail(old(Snapshot()), input)
        case Ok(s) => r == Ok(()) && Snapshot() == s
        case Err(e) => r == Err(e)
    {
      if !ValidFailure(input) {
        return Err(InvalidInput);
      }
      var loaded := LoadRun(Snapshot(), input.runId);
      if loaded.Err? {
        return Err(loaded.error);
      }
      var latest := LoadLatest(Snapshot(), input.runId);
      if latest.Err? {
        return Err(latest.error);
      }
      var run, attempt := loaded.value, latest.value;
      if run.state.RunFailed? && attempt.state.Failed?
        && attempt.id == input.attemptId && attempt.owner == input.owner
        && attempt.terminalAt == Some(input.failedAt) && attempt.failureCode == Some(input.failureCode)
      {
        return Ok(());
      }
      if !ActivelyOwned(run, attempt, input.attemptId, input.owner, input.failedAt) {
        return Err(Conflict);
      }
      var rows := RowsOf(Snapshot(), input.runId);
      var rowsAffected := ActiveRows(rows, input.attemptId);
      attempts := attempts[input.runId :=
        UpdateActive(rows, input.attemptId, Failed, Some(input.failedAt), Some(input.failureCode))];
      if rowsAffected != 1 {
        return Err(Corrupt);
      }
      var runsAffected := ActiveRuns(Snapshot(), input.runId);
      if runsAffected == 1 {
        runs := runs[input.runId := run.(state := RunFailed)];
      }
      if runsAffected != 1 {
        return Err(Corrupt);
      }
      r := Ok(());
    }

    method CheckExtractionCompletion(documentVersionId: string, input: CompletionInput)
      returns (r: Result<Status, LeaseError>)
      ensures r == CheckCompletion(Snapshot(), documentVersionId, input)
    {
      if Blank(documentVersionId) || !ValidCompletion(input) {
        return Err(InvalidInput);
      }
      var loaded := LoadRun(Snapshot(), input.runId);
      if loaded.Err? {
        return Err(loaded.error);
      }
      var latest := LoadLatest(Snapshot(), input.runId);
      if latest.Err? {
        return Err(latest.error);
      }
      var run, attempt := loaded.value, latest.value;
      if run.input.documentVersionId != documentVersionId {
        return Err(Conflict);
      }
      if run.state.RunCompleted? {
        if ExactCompletion(run, attempt, input) {
          return Ok(AlreadyCompleted);
        }
        return Err(Conflict);
      }
      if !ActivelyOwned(run, attempt, input.attemptId, input.owner, input.completedAt) {
        return Err(Conflict);
      }
      r := Ok(Claimed);
    }

    method CompleteExtraction(input: CompletionInput) returns (r: Result<(), LeaseError>)
      modifies this
      ensures match Complete(old(Snapshot()), input)
        case Ok(s) => r == Ok(()) && Snapshot() == s
        case Err(e) => r == Err(e)
    {
      if !ValidCompletion(input) {
        return Err(InvalidInput);
      }
      var loaded := LoadRun(Snapshot(), input.runId);
      if loaded.Err? {
        return Err(loaded.error);
      }
      var latest := LoadLatest(Snapshot(), input.runId);
      if latest.Err? {
        return Err(latest.error);
      }
      var run, attempt := loaded.value, latest.value;
      if run.state.RunCompleted? {
        if ExactCompletion(run, attempt, input) {
          return Ok(());
        }
        return Err(Conflict);
      }
      if !ActivelyOwned(run, attempt, input.attemptId, input.owner, input.completedAt) {
        return Err(Conflict);
      }
      var rows := RowsOf(Snapshot(), input.runId);
      var rowsAffected := ActiveRows(rows, input.attemptId);
      attempts := attempts[input.runId := UpdateActive(rows, input.attemptId, Completed, Some(input.completedAt), None)];
      if rowsAffected != 1 {
        return Err(Corrupt);
      }
      var runsAffected := ActiveRuns(Snapshot(), input.runId);
      if runsAffected == 1 {
        runs := runs[input.runId := run.(
          state := RunCompleted, completedAt := Some(input.completedAt),
          writeSetVersion := Some(input.digestVersion), writeSetDigest := Some(input.digest))];
      }
      if runsAffected != 1 {
        return Err(Corrupt);
      }
      r := Ok(());
    }

    method Execute(op: Op) returns (error: Option<LeaseError>)
      modifies this
      ensures match Apply(old(Snapshot()), op)
        case Ok(s) => error == None && Snapshot() == s
        case Err(e) => error == Some(e)
    {
      error := None;
      match op {
        case PrepareOp(run, lease) =>
          var r := PrepareExtraction(run, lease);
          if r.Err? { error := Some(r.error); }
        case FailOp(input) =>
          var r := RecordExtractionFailure(input);
          if r.Err? { error := Some(r.error); }
        case CheckOp(documentVersionId, input) =>
          var r := CheckExtractionCompletion(documentVersionId, input);
          if r.Err? { error := Some(r.error); }
        case CompleteOp(input) =>
          var r := CompleteExtraction(input);
          if r.Err? { error := Some(r.error); }
      }
    }

    /** InTransaction with a callback that stops at its first error. Partial writes of a failed
        operation are visible inside the transaction only: the rollback restores every row. */
    method InTransaction(ops: seq<Op>) returns (error: Option<LeaseError>)
      modifies this
      ensures Snapshot() == Commit(old(Snapshot()), ops)
      ensures error.None? <==> ApplyAll(old(Snapshot()), ops).Ok?
      ensures error.Some? ==> ApplyAll(old(Snapshot()), ops) == Err(error.value)
    {
      var savedRuns, savedAttempts := runs, attempts;
      for i := 0 to |ops|
        invariant ApplyAll(old(Snapshot()), ops[..i]) == Ok(Snapshot())
      {
        assert ops[..i + 1][..i] == ops[..i];
        error := Execute(ops[i]);
        if error.Some? {
          FirstErrorEndsTransaction(old(Snapshot()), ops, i + 1);
          runs, attempts := savedRuns, savedAttempts;
          return;
        }
      }
      assert ops[..|ops|] == ops;
      error := None;
    }
  }

  lemma {:induction false} FirstErrorEndsTransaction(s: Store, ops: seq<Op>, i: nat)
    requires i <= |ops| && ApplyAll(s, ops[..i]).Err?
    ensures ApplyAll(s, ops) == ApplyAll(s, ops[..i])
  {
    if i < |ops| {
      assert ops[..|ops| - 1][..i] == ops[..i];
      FirstErrorEndsTransaction(s, ops[..|ops| - 1], i);
    } else {
      assert ops[..i] == ops;
    }
  }
}
