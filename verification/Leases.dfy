/** The extraction lease protocol (adapters/postgres/extraction.go): what each operation does to the
    stored runs and attempts. Every function is total on stored states, reachable or not. */
module Leases {
  import opened Results
  import opened Observations

  /** A content digest; 0 is the zero digest. */
  type Digest = int

  const ZERO_DIGEST: Digest := 0

  datatype RunInput = RunInput(
    id: string,
    documentVersionId: string,
    digestVersion: string,
    derivationDigest: Digest,
    methodName: string,
    version: string,
    provider: string,
    dataMode: string,
    model: string,
    promptVersion: string,
    schemaDigest: Digest,
    maxOutputTokens: int,
    recordedAt: Time)

  datatype LeaseRequest = LeaseRequest(attemptId: string, owner: string, claimedAt: Time, duration: int)

  datatype FailureInput = FailureInput(runId: string, attemptId: string, owner: string, failedAt: Time, failureCode: string)

  datatype CompletionInput = CompletionInput(
    runId: string, attemptId: string, owner: string, completedAt: Time, digestVersion: string, digest: Digest)

  datatype RunState = RunActive | RunFailed | RunCompleted

  datatype StoredRun = StoredRun(
    input: RunInput, state: RunState,
    completedAt: Option<Time>, writeSetVersion: Option<string>, writeSetDigest: Option<Digest>)

  datatype AttemptState = Active | Completed | Failed | Canceled | Expired

  datatype Attempt = Attempt(
    id: string, number: int, owner: string, claimedAt: Time, leaseExpiresAt: Time,
    state: AttemptState, terminalAt: Option<Time>, failureCode: Option<string>)

  /** The rows of extraction_runs by ID, and of extraction_attempts by run in insertion order. */
  datatype Store = Store(runs: map<string, StoredRun>, attempts: map<string, seq<Attempt>>)

  datatype Status = Claimed | Busy | AlreadyCompleted

  datatype WriteSet = WriteSet(version: string, digest: Digest)

  datatype ExtractionState = ExtractionState(
    runId: string, attemptId: string, attemptNumber: int, status: Status, leaseExpiresAt: Time,
    writeSet: Option<WriteSet>)

  /** `Corrupt` marks the defensive guards: a stored history or a row count no operation should leave. */
  datatype LeaseError = InvalidInput | NotFound | Conflict | Corrupt

  // ---- input validation ----

  predicate ValidPreparation(run: RunInput, lease: LeaseRequest) {
    && !Blank(run.id) && !Blank(run.documentVersionId) && !Blank(run.digestVersion)
    && run.derivationDigest != ZERO_DIGEST
    && !Blank(run.methodName) && !Blank(run.version) && !Blank(run.provider) && !Blank(run.dataMode)
    && !Blank(run.model) && !Blank(run.promptVersion)
    && run.schemaDigest != ZERO_DIGEST && run.maxOutputTokens > 0
    && !Blank(lease.attemptId) && !Blank(lease.owner) && lease.duration > 0
  }

  predicate ValidFailure(input: FailureInput) {
    !Blank(input.runId) && !Blank(input.attemptId) && !Blank(input.owner) && !Blank(input.failureCode)
  }

  predicate ValidCompletion(input: CompletionInput) {
    && !Blank(input.runId) && !Blank(input.attemptId) && !Blank(input.owner) && !Blank(input.digestVersion)
    && input.digest != ZERO_DIGEST
  }

  function Expiry(lease: LeaseRequest): Time { lease.claimedAt + lease.duration }

  // ---- stored rows ----

  predicate SameDerivation(a: RunInput, b: RunInput) {
    a.documentVersionId == b.documentVersionId && a.digestVersion == b.digestVersion && a.derivationDigest == b.derivationDigest
  }

  /** INSERT ... ON CONFLICT DO NOTHING adds a row. */
  predicate Insertable(s: Store, run: RunInput) {
    run.id !in s.runs && forall id | id in s.runs :: !SameDerivation(s.runs[id].input, run)
  }

  function NewRun(run: RunInput): StoredRun { StoredRun(run, RunActive, None, None, None) }

  function RowsOf(s: Store, runId: string): seq<Attempt> {
    if runId in s.attempts then s.attempts[runId] else []
  }

  /** ORDER BY attempt_number DESC LIMIT 1 */
  function Latest(rows: seq<Attempt>): Option<Attempt> {
    if rows == [] then None
    else
      var earlier := Latest(rows[..|rows| - 1]);
      var last := rows[|rows| - 1];
      if earlier.Some? && earlier.value.number > last.number then earlier else Some(last)
  }

  /** The checks of loadExtractionRunQuery. */
  predicate LoadableRun(run: StoredRun) {
    if run.state.RunCompleted? then
      run.completedAt.Some? && run.writeSetVersion.Some? && !Blank(run.writeSetVersion.value) && run.writeSetDigest.Some?
    else
      run.completedAt.None? && run.writeSetVersion.None? && run.writeSetDigest.None?
  }

  /** The checks of loadLatestExtractionAttemptForUpdate. */
  predicate LoadableAttempt(a: Attempt) {
    && a.number > 0 && !Blank(a.id) && !Blank(a.owner) && a.leaseExpiresAt > a.claimedAt
    && match a.state
       case Active => a.terminalAt.None? && a.failureCode.None?
       case Failed => a.terminalAt.Some? && a.failureCode.Some? && !Blank(a.failureCode.value)
       case _ => a.terminalAt.Some? && a.failureCode.None?
  }

  function LoadRun(s: Store, runId: string): Result<StoredRun, LeaseError> {
    if runId !in s.runs then Err(NotFound)
    else if !LoadableRun(s.runs[runId]) then Err(Corrupt)
    else Ok(s.runs[runId])
  }

  function LoadLatest(s: Store, runId: string): Result<Attempt, LeaseError> {
    var latest := Latest(RowsOf(s, runId));
    if latest.None? then Err(NotFound)
    else if !LoadableAttempt(latest.value) then Err(Corrupt)
    else Ok(latest.value)
  }

  predicate AttemptIdUsed(s: Store, id: string) {
    exists r | r in s.attempts :: exists a | a in s.attempts[r] :: a.id == id
  }

  /** UPDATE ... WHERE id = $1 AND run_id = $2 [AND owner = $3] AND state = 'active' */
  function UpdateActive(rows: seq<Attempt>, id: string, state: AttemptState, at: Option<Time>, code: Option<string>): seq<Attempt> {
    if rows == [] then []
    else
      var last := rows[|rows| - 1];
      UpdateActive(rows[..|rows| - 1], id, state, at, code) +
      [if last.id == id && last.state.Active?
       then last.(state := state, terminalAt := if at.Some? then at else Some(last.leaseExpiresAt), failureCode := code)
       else last]
  }

  function ActiveRows(rows: seq<Attempt>, id: string): int {
    if rows == [] then 0
    else
      var last := rows[|rows| - 1];
      ActiveRows(rows[..|rows| - 1], id) + if last.id == id && last.state.Active? then 1 else 0
  }

  /** The rows of UPDATE ... WHERE id = $1 AND state = 'active' on the runs. */
  function ActiveRuns(s: Store, runId: string): int {
    if runId in s.runs && s.runs[runId].state.RunActive? then 1 else 0
  }

  function WithRow(s: Store, runId: string, a: Attempt): Store {
    s.(attempts := s.attempts[runId := RowsOf(s, runId) + [a]])
  }

  function WithRows(s: Store, runId: string, rows: seq<Attempt>): Store {
    s.(attempts := s.attempts[runId := rows])
  }

  function WithRun(s: Store, runId: string, run: StoredRun): Store {
    s.(runs := s.runs[runId := run])
  }

  /** Primary key, UNIQUE (run_id, attempt_number) and the one-active index. */
  predicate AttemptInsertable(s: Store, runId: string, a: Attempt) {
    && !AttemptIdUsed(s, a.id)
    && (forall b | b in RowsOf(s, runId) :: b.number != a.number && !b.state.Active?)
  }

  // ---- results ----

  function AttemptResult(runId: string, a: Attempt, status: Status): ExtractionState {
    ExtractionState(runId, a.id, a.number, status, a.leaseExpiresAt, None)
  }

  /** completedExtractionState */
  function CompletedResult(run: StoredRun, a: Attempt): Result<ExtractionState, LeaseError> {
    if a.state.Completed? && run.completedAt.Some? && run.completedAt == a.terminalAt
      && run.writeSetVersion.Some? && run.writeSetDigest.Some?
    then Ok(AttemptResult(run.input.id, a, AlreadyCompleted).(
              writeSet := Some(WriteSet(run.writeSetVersion.value, run.writeSetDigest.value))))
    else Err(Corrupt)
  }

  predicate SameLease(a: Attempt, lease: LeaseRequest) {
    a.id == lease.attemptId && a.owner == lease.owner && a.claimedAt == lease.claimedAt && a.leaseExpiresAt == Expiry(lease)
  }

  predicate SameCompletedInput(stored: RunInput, run: RunInput) {
    stored == run.(dataMode := stored.dataMode)
  }

  /** exactExtractionCompletion */
  predicate ExactCompletion(run: StoredRun, a: Attempt, input: CompletionInput) {
    && a.state.Completed? && a.id == input.attemptId && a.owner == input.owner
    && a.terminalAt == Some(input.completedAt) && run.completedAt == Some(input.completedAt)
    && run.writeSetVersion == Some(input.digestVersion) && run.writeSetDigest == Some(input.digest)
  }

  predicate ActivelyOwned(run: StoredRun, a: Attempt, attemptId: string, owner: string, at: Time) {
    && run.state.RunActive? && a.state.Active? && a.id == attemptId && a.owner == owner
    && a.claimedAt <= at < a.leaseExpiresAt
  }

  // ---- operations ----

  function NewAttempt(lease: LeaseRequest, number: int): Attempt {
    Attempt(lease.attemptId, number, lease.owner, lease.claimedAt, Expiry(lease), Active, None, None)
  }

  /** Claims attempt `number` once the previous attempt is out of the way. */
  function Claim(s: Store, run: RunInput, lease: LeaseRequest, number: int): Result<(Store, ExtractionState), LeaseError>
    requires run.id in s.runs
  {
    var stored := s.runs[run.id];
    var attempt := NewAttempt(lease, number);
    if lease.claimedAt < stored.input.recordedAt then Err(Conflict)
    else if !AttemptInsertable(s, run.id, attempt) then Err(Conflict)
    else
      var claimed := WithRow(s, run.id, attempt);
      var state := AttemptResult(run.id, attempt, Claimed);
      if stored.state.RunActive? then Ok((claimed, state))
      else if !stored.state.RunFailed? then Err(Corrupt)
      else Ok((WithRun(claimed, run.id, stored.(state := RunActive)), state))
  }

  /** PrepareExtraction after the run row is known to exist. */
  function PrepareStored(s: Store, run: RunInput, lease: LeaseRequest, inserted: bool): Result<(Store, ExtractionState), LeaseError>
    requires run.id in s.runs
  {
    var stored := s.runs[run.id];
    var latest := LoadLatest(s, run.id);
    if !LoadableRun(stored) then Err(Corrupt)
    else if stored.state.RunCompleted? then
      if !SameCompletedInput(stored.input, run) then Err(Conflict)
      else if latest.Err? then Err(Corrupt)
      else
        var result := CompletedResult(stored, latest.value);
        if result.Err? then Err(result.error) else Ok((s, result.value))
    else if stored.input != run then Err(Conflict)
    else if inserted && latest.Ok? then Err(Corrupt)
    else if latest == Err(Corrupt) then Err(Corrupt)
    else if !inserted && latest.Err? then Err(Corrupt)
    else if latest.Err? then Claim(s, run, lease, 1)
    else
      var a := latest.value;
      match a.state
      case Active =>
        if SameLease(a, lease) then Ok((s, AttemptResult(run.id, a, Claimed)))
        else if lease.claimedAt < a.leaseExpiresAt then Ok((s, AttemptResult(run.id, a, Busy)))
        else Claim(WithRows(s, run.id, UpdateActive(RowsOf(s, run.id), a.id, Expired, None, None)), run, lease, a.number + 1)
      case Completed => Err(Corrupt)
      case _ =>
        if lease.claimedAt < a.terminalAt.value then Err(Conflict) else Claim(s, run, lease, a.number + 1)
  }

  function Prepare(s: Store, run: RunInput, lease: LeaseRequest): Result<(Store, ExtractionState), LeaseError> {
    if !ValidPreparation(run, lease) then Err(InvalidInput)
    else if Insertable(s, run) then PrepareStored(WithRun(s, run.id, NewRun(run)), run, lease, true)
    else if run.id !in s.runs then Err(Conflict)
    else PrepareStored(s, run, lease, false)
  }

  function Fail(s: Store, input: FailureInput): Result<Store, LeaseError> {
    var run := LoadRun(s, input.runId);
    var latest := LoadLatest(s, input.runId);
    if !ValidFailure(input) then Err(InvalidInput)
    else if run.Err? then Err(run.error)
    else if latest.Err? then Err(latest.error)
    else if run.value.state.RunFailed? && latest.value.state.Failed?
      && latest.value.id == input.attemptId && latest.value.owner == input.owner
      && latest.value.terminalAt == Some(input.failedAt) && latest.value.failureCode == Some(input.failureCode)
    then Ok(s)
    else if !ActivelyOwned(run.value, latest.value, input.attemptId, input.owner, input.failedAt) then Err(Conflict)
    else if ActiveRows(RowsOf(s, input.runId), input.attemptId) != 1 then Err(Corrupt)
    else if ActiveRuns(s, input.runId) != 1 then Err(Corrupt)
    else
      var rows := UpdateActive(RowsOf(s, input.runId), input.attemptId, Failed, Some(input.failedAt), Some(input.failureCode));
      Ok(WithRun(WithRows(s, input.runId, rows), input.runId, run.value.(state := RunFailed)))
  }

  function CheckCompletion(s: Store, documentVersionId: string, input: CompletionInput): Result<Status, LeaseError> {
    var run := LoadRun(s, input.runId);
    var latest := LoadLatest(s, input.runId);
    if Blank(documentVersionId) || !ValidCompletion(input) then Err(InvalidInput)
    else if run.Err? then Err(run.error)
    else if latest.Err? then Err(latest.error)
    else if run.value.input.documentVersionId != documentVersionId then Err(Conflict)
    else if run.value.state.RunCompleted? then
      if ExactCompletion(run.value, latest.value, input) then Ok(AlreadyCompleted) else Err(Conflict)
    else if !ActivelyOwned(run.value, latest.value, input.attemptId, input.owner, input.completedAt) then Err(Conflict)
    else Ok(Claimed)
  }

  function Complete(s: Store, input: CompletionInput): Result<Store, LeaseError> {
    var run := LoadRun(s, input.runId);
    var latest := LoadLatest(s, input.runId);
    if !ValidCompletion(input) then Err(InvalidInput)
    else if run.Err? then Err(run.error)
    else if latest.Err? then Err(latest.error)
    else if run.value.state.RunCompleted? then
      if ExactCompletion(run.value, latest.value, input) then Ok(s) else Err(Conflict)
    else if !ActivelyOwned(run.value, latest.value, input.attemptId, input.owner, input.completedAt) then Err(Conflict)
    else if ActiveRows(RowsOf(s, input.runId), input.attemptId) != 1 then Err(Corrupt)
    else if ActiveRuns(s, input.runId) != 1 then Err(Corrupt)
    else
      var rows := UpdateActive(RowsOf(s, input.runId), input.attemptId, Completed, Some(input.completedAt), None);
      Ok(WithRun(WithRows(s, input.runId, rows), input.runId,
                 run.value.(state := RunCompleted, completedAt := Some(input.completedAt),
                            writeSetVersion := Some(input.digestVersion), writeSetDigest := Some(input.digest))))
  }

  // ---- transactions ----

  datatype Op =
    | PrepareOp(run: RunInput, lease: LeaseRequest)
    | FailOp(failure: FailureInput)
    | CheckOp(documentVersionId: string, completion: CompletionInput)
    | CompleteOp(completion: CompletionInput)

  function Apply(s: Store, op: Op): Result<Store, LeaseError> {
    match op
    case PrepareOp(run, lease) =>
      var r := Prepare(s, run, lease);
      if r.Ok? then Ok(r.value.0) else Err(r.error)
    case FailOp(input) => Fail(s, input)
    case CheckOp(documentVersionId, input) =>
      var r := CheckCompletion(s, documentVersionId, input);
      if r.Ok? then Ok(s) else Err(r.error)
    case CompleteOp(input) => Complete(s, input)
  }

  /** The operations of one callback; the first error ends it. */
  function ApplyAll(s: Store, ops: seq<Op>): Result<Store, LeaseError> {
    if ops == [] then Ok(s)
    else
      var earlier := ApplyAll(s, ops[..|ops| - 1]);
      if earlier.Err? then earlier else Apply(earlier.value, ops[|ops| - 1])
  }

  /** InTransaction: all of the callback's writes, or none if it returns an error. */
  function Commit(s: Store, ops: seq<Op>): Store {
    var r := ApplyAll(s, ops);
    if r.Ok? then r.value else s
  }

  /** Any number of workers' transactions, in the order in which the row locks let them through. */
  function Run(s: Store, transactions: seq<seq<Op>>): Store {
    if transactions == [] then s
    else Commit(Run(s, transactions[..|transactions| - 1]), transactions[|transactions| - 1])
  }

  const EMPTY_STORE := Store(map[], map[])
}
