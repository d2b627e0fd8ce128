/** What holds of the lease protocol over every run of transactions. */
module LeaseProperties {
  import opened Results
  import opened Observations
  import opened Leases

  // ---- the invariant ----

  /** An attempt row as some operation leaves it; no operation cancels. */
  ghost predicate ValidAttempt(a: Attempt) {
    && !Blank(a.id) && !Blank(a.owner) && a.claimedAt < a.leaseExpiresAt
    && match a.state
       case Active => a.terminalAt.None? && a.failureCode.None?
       case Failed => a.terminalAt.Some? && a.claimedAt <= a.terminalAt.value < a.leaseExpiresAt
                   && a.failureCode.Some? && !Blank(a.failureCode.value)
       case Completed => a.terminalAt.Some? && a.claimedAt <= a.terminalAt.value < a.leaseExpiresAt && a.failureCode.None?
       case Expired => a.terminalAt == Some(a.leaseExpiresAt) && a.failureCode.None?
       case Canceled => false
  }

  /** When an attempt's ownership ends: at its terminal time, or at its lease expiry while active. */
  function EndOf(a: Attempt): Time {
    if a.terminalAt.Some? then a.terminalAt.value else a.leaseExpiresAt
  }

  /** Attempt numbers are 1..n; only the last attempt may be active or completed; each attempt starts
      no earlier than the previous one ended. */
  ghost predicate ValidHistory(rows: seq<Attempt>) {
    && |rows| > 0
    && (forall i | 0 <= i < |rows| :: rows[i].number == i + 1 && ValidAttempt(rows[i]))
    && (forall i | 0 <= i < |rows| - 1 ::
          && (rows[i].state.Failed? || rows[i].state.Expired?)
          && EndOf(rows[i]) <= rows[i + 1].claimedAt)
    && !rows[|rows| - 1].state.Expired?
  }

  /** The run mirrors its last attempt. */
  ghost predicate Mirrors(run: StoredRun, last: Attempt) {
    match run.state
    case RunActive =>
      last.state.Active? && run.completedAt.None? && run.writeSetVersion.None? && run.writeSetDigest.None?
    case RunFailed =>
      last.state.Failed? && run.completedAt.None? && run.writeSetVersion.None? && run.writeSetDigest.None?
    case RunCompleted =>
      && last.state.Completed? && run.completedAt.Some? && run.completedAt == last.terminalAt
      && run.writeSetVersion.Some? && !Blank(run.writeSetVersion.value) && run.writeSetDigest.Some?
  }

  ghost predicate ValidRun(run: StoredRun, rows: seq<Attempt>) {
    ValidHistory(rows) && Mirrors(run, rows[|rows| - 1]) && run.input.recordedAt <= rows[0].claimedAt
  }

  ghost predicate HasAttempt(s: Store, r: string, i: int, id: string) {
    r in s.attempts && 0 <= i < |s.attempts[r]| && s.attempts[r][i].id == id
  }

  /** Attempt IDs are unique over all runs, derivations are unique over runs. */
  ghost predicate UniqueAttemptIds(s: Store) {
    forall r, i, q, j, id :: HasAttempt(s, r, i, id) && HasAttempt(s, q, j, id) ==> r == q && i == j
  }

  ghost predicate UniqueDerivations(s: Store) {
    forall r, q | r in s.runs && q in s.runs && SameDerivation(s.runs[r].input, s.runs[q].input) :: r == q
  }

  /** A run row is stored under its own ID, together with its attempts. */
  ghost predicate ValidAt(s: Store, r: string) {
    && (r in s.runs <==> r in s.attempts)
    && (r in s.runs ==> s.runs[r].input.id == r && ValidRun(s.runs[r], s.attempts[r]))
  }

  ghost predicate ValidStore(s: Store) {
    (forall r :: ValidAt(s, r)) && UniqueAttemptIds(s) && UniqueDerivations(s)
  }

  // ---- valid histories ----

  lemma {:induction false} LatestIsLast(rows: seq<Attempt>)
    requires rows != [] && forall i | 0 <= i < |rows| :: rows[i].number == i + 1
    ensures Latest(rows) == Some(rows[|rows| - 1])
  {
    if |rows| > 1 {
      LatestIsLast(rows[..|rows| - 1]);
    }
  }

  /** The row with the last attempt ended as given. */
  ghost function WithLast(rows: seq<Attempt>, last: Attempt): seq<Attempt>
    requires rows != []
  {
    rows[..|rows| - 1] + [last]
  }

  lemma {:induction false} NoActiveRows(rows: seq<Attempt>, id: string, state: AttemptState, at: Option<Time>, code: Option<string>)
    requires forall a | a in rows :: !a.state.Active?
    ensures UpdateActive(rows, id, state, at, code) == rows && ActiveRows(rows, id) == 0
  {
    if rows != [] {
      NoActiveRows(rows[..|rows| - 1], id, state, at, code);
      assert rows == rows[..|rows| - 1] + [rows[|rows| - 1]];
    }
  }

  lemma UpdateLast(rows: seq<Attempt>, state: AttemptState, at: Option<Time>, code: Option<string>)
    requires ValidHistory(rows) && rows[|rows| - 1].state.Active?
    ensures var last := rows[|rows| - 1];
      && ActiveRows(rows, last.id) == 1
      && UpdateActive(rows, last.id, state, at, code)
         == WithLast(rows, last.(state := state, terminalAt := if at.Some? then at else Some(last.leaseExpiresAt), failureCode := code))
  {
    NoActiveRows(rows[..|rows| - 1], rows[|rows| - 1].id, state, at, code);
  }

  /** The stored run and its last attempt pass the checks every operation makes while loading them. */
  lemma LoadedHistory(run: StoredRun, rows: seq<Attempt>)
    requires ValidRun(run, rows)
    ensures LoadableRun(run)
    ensures rows != [] && Latest(rows) == Some(rows[|rows| - 1]) && LoadableAttempt(rows[|rows| - 1])
    ensures EndOf(rows[|rows| - 1]) >= run.input.recordedAt
  {
    LatestIsLast(rows);
    HistoryIsInOrder(rows, 0, |rows| - 1);
    assert ValidAttempt(rows[|rows| - 1]);
  }

  lemma HistoryIsInOrder(rows: seq<Attempt>, i: nat, j: nat)
    requires ValidHistory(rows) && i <= j < |rows|
    ensures rows[i].claimedAt <= rows[j].claimedAt
    ensures i < j ==> EndOf(rows[i]) <= rows[j].claimedAt
    decreases j - i
  {
    if i < j {
      HistoryIsInOrder(rows, i, j - 1);
      assert ValidAttempt(rows[j - 1]);
    }
  }

  // ---- what the operations do to a valid store ----

  ghost function Last(s: Store, r: string): Attempt
    requires ValidAt(s, r) && r in s.runs
  {
    s.attempts[r][|s.attempts[r]| - 1]
  }

  /** The attempt once its owner has no claim any more; an active one ends by expiry. */
  ghost function Expire(a: Attempt): Attempt {
    if a.state.Active? then a.(state := Expired, terminalAt := Some(a.leaseExpiresAt)) else a
  }

  /** The row of a granted claim: active from the time of the claim for the duration asked for. */
  ghost function Leased(lease: LeaseRequest, number: int): Attempt {
    Attempt(lease.attemptId, number, lease.owner, lease.claimedAt, lease.claimedAt + lease.duration, Active, None, None)
  }

  ghost function Answer(runId: string, a: Attempt, status: Status, writeSet: Option<WriteSet>): ExtractionState {
    ExtractionState(runId, a.id, a.number, status, a.leaseExpiresAt, writeSet)
  }

  /** The active attempt is the one that exactly this request was granted. */
  ghost predicate GrantedTo(a: Attempt, lease: LeaseRequest) {
    a == Leased(lease, a.number)
  }

  /** Neither the run's ID nor its document version, digest version and digest together are stored. */
  ghost predicate NewDerivation(s: Store, run: RunInput) {
    && run.id !in s.runs
    && forall q | q in s.runs ::
         || s.runs[q].input.documentVersionId != run.documentVersionId
         || s.runs[q].input.digestVersion != run.digestVersion
         || s.runs[q].input.derivationDigest != run.derivationDigest
  }

  ghost function FirstClaim(s: Store, run: RunInput, lease: LeaseRequest): Store {
    WithRows(WithRun(s, run.id, StoredRun(run, RunActive, None, None, None)), run.id, [Leased(lease, 1)])
  }

  /** The next attempt of a run, after its last one ended. */
  ghost function Reclaimed(s: Store, r: string, lease: LeaseRequest): Store
    requires ValidAt(s, r) && r in s.runs
  {
    var last := Last(s, r);
    WithRun(WithRows(s, r, WithLast(s.attempts[r], Expire(last)) + [Leased(lease, last.number + 1)]), r,
            s.runs[r].(state := RunActive))
  }

  /** Preparation decided by the history alone. */
  ghost function PrepareByHistory(s: Store, run: RunInput, lease: LeaseRequest): Result<(Store, ExtractionState), LeaseError>
    requires ValidAt(s, run.id)
  {
    if !ValidPreparation(run, lease) then Err(InvalidInput)
    else if NewDerivation(s, run) then
      if lease.claimedAt < run.recordedAt || AttemptIdUsed(s, lease.attemptId) then Err(Conflict)
      else Ok((FirstClaim(s, run, lease), Answer(run.id, Leased(lease, 1), Claimed, None)))
    else if run.id !in s.runs then Err(Conflict)
    else PrepareKnown(s, run, lease)
  }

  ghost function PrepareKnown(s: Store, run: RunInput, lease: LeaseRequest): Result<(Store, ExtractionState), LeaseError>
    requires ValidAt(s, run.id) && run.id in s.runs
  {
    var stored, last := s.runs[run.id], Last(s, run.id);
    if last.state.Completed? then
      if stored.input.(dataMode := run.dataMode) != run then Err(Conflict)
      else Ok((s, Answer(run.id, last, AlreadyCompleted,
                         Some(WriteSet(stored.writeSetVersion.value, stored.writeSetDigest.value)))))
    else if stored.input != run then Err(Conflict)
    else if GrantedTo(last, lease) then Ok((s, Answer(run.id, last, Claimed, None)))
    else if last.state.Active? && lease.claimedAt < last.leaseExpiresAt then Ok((s, Answer(run.id, last, Busy, None)))
    else if lease.claimedAt < EndOf(last) || AttemptIdUsed(s, lease.attemptId) then Err(Conflict)
    else Ok((Reclaimed(s, run.id, lease), Answer(run.id, Leased(lease, last.number + 1), Claimed, None)))
  }

  lemma SameIdsUsed(s: Store, t: Store, id: string)
    requires SameIds(s, t)
    ensures AttemptIdUsed(t, id) ==> AttemptIdUsed(s, id)
  {
    if AttemptIdUsed(t, id) {
      var r :| r in t.attempts && exists a | a in t.attempts[r] :: a.id == id;
      var i :| 0 <= i < |t.attempts[r]| && t.attempts[r][i].id == id;
      assert s.attempts[r][i] in s.attempts[r];
    }
  }

  /** Every attempt of t has the ID of the attempt of s in the same place. */
  ghost predicate SameIds(s: Store, t: Store) {
    forall r | r in t.attempts ::
      && r in s.attempts && |s.attempts[r]| == |t.attempts[r]|
      && forall i | 0 <= i < |t.attempts[r]| :: t.attempts[r][i].id == s.attempts[r][i].id
  }

  lemma FirstClaimOutcome(s: Store, run: RunInput, lease: LeaseRequest)
    requires ValidAt(s, run.id) && ValidPreparation(run, lease) && Insertable(s, run)
    ensures Prepare(s, run, lease) == PrepareByHistory(s, run, lease)
  {
    var inserted := WithRun(s, run.id, NewRun(run));
    assert run.id !in s.attempts;
    SameIdsUsed(s, inserted, lease.attemptId);
    SameIdsUsed(inserted, s, lease.attemptId);
    assert RowsOf(inserted, run.id) == [];
    assert [] + [Leased(lease, 1)] == [Leased(lease, 1)];
  }

  /** A claim on top of ended attempts. */
  lemma ClaimAfterEnd(s: Store, t: Store, run: RunInput, lease: LeaseRequest)
    requires run.id in t.runs && run.id in t.attempts && SameIds(s, t) && SameIds(t, s)
    requires forall a | a in t.attempts[run.id] :: a.number <= |t.attempts[run.id]| && !a.state.Active?
    requires !t.runs[run.id].state.RunCompleted?
    ensures
      var rows := t.attempts[run.id];
      var claimed := Leased(lease, |rows| + 1);
      Claim(t, run, lease, |rows| + 1) ==
      if lease.claimedAt < t.runs[run.id].input.recordedAt || AttemptIdUsed(s, lease.attemptId) then Err(Conflict)
      else Ok((WithRun(WithRows(t, run.id, rows + [claimed]), run.id, t.runs[run.id].(state := RunActive)),
               Answer(run.id, claimed, Claimed, None)))
  {
    SameIdsUsed(s, t, lease.attemptId);
    SameIdsUsed(t, s, lease.attemptId);
    assert t.runs[run.id := t.runs[run.id]] == t.runs;
  }

  lemma EndedHistory(rows: seq<Attempt>)
    requires ValidHistory(rows) && !rows[|rows| - 1].state.Completed?
    ensures var ended := WithLast(rows, Expire(rows[|rows| - 1]));
      forall a | a in ended :: a.number <= |ended| && !a.state.Active?
    ensures rows[|rows| - 1].number == |rows|
  {
  }

  lemma ReplacedRows(s: Store, r: string, rows: seq<Attempt>, next: seq<Attempt>)
    requires r in s.attempts && |rows| == |s.attempts[r]| && forall i | 0 <= i < |rows| :: rows[i].id == s.attempts[r][i].id
    ensures SameIds(s, WithRows(s, r, rows)) && SameIds(WithRows(s, r, rows), s)
    ensures WithRows(WithRows(s, r, rows), r, next) == WithRows(s, r, next)
  {
  }

  /** The claim that follows the end of the last attempt. */
  lemma ReclaimOutcome(s: Store, run: RunInput, lease: LeaseRequest)
    requires ValidAt(s, run.id) && run.id in s.runs && s.runs[run.id].input == run
    requires !Last(s, run.id).state.Completed? && EndOf(Last(s, run.id)) <= lease.claimedAt
    ensures
      var last := Last(s, run.id);
      Claim(WithRows(s, run.id, WithLast(s.attempts[run.id], Expire(last))), run, lease, last.number + 1)
         == if AttemptIdUsed(s, lease.attemptId) then Err(Conflict)
            else Ok((Reclaimed(s, run.id, lease), Answer(run.id, Leased(lease, last.number + 1), Claimed, None)))
  {
    var rows := s.attempts[run.id];
    EndedHistory(rows);
    LoadedHistory(s.runs[run.id], rows);
    ClaimOverEnded(s, WithLast(rows, Expire(rows[|rows| - 1])), run, lease);
  }

  lemma ClaimOverEnded(s: Store, ended: seq<Attempt>, run: RunInput, lease: LeaseRequest)
    requires run.id in s.runs && run.id in s.attempts && s.runs[run.id].input == run && run.recordedAt <= lease.claimedAt
    requires !s.runs[run.id].state.RunCompleted?
    requires |ended| == |s.attempts[run.id]| && forall i | 0 <= i < |ended| :: ended[i].id == s.attempts[run.id][i].id
    requires forall a | a in ended :: a.number <= |ended| && !a.state.Active?
    ensures
      var claimed := Leased(lease, |ended| + 1);
      Claim(WithRows(s, run.id, ended), run, lease, |ended| + 1)
         == if AttemptIdUsed(s, lease.attemptId) then Err(Conflict)
            else Ok((WithRun(WithRows(s, run.id, ended + [claimed]), run.id, s.runs[run.id].(state := RunActive)),
                     Answer(run.id, claimed, Claimed, None)))
  {
    ReplacedRows(s, run.id, ended, ended + [Leased(lease, |ended| + 1)]);
    ClaimAfterEnd(s, WithRows(s, run.id, ended), run, lease);
  }

  lemma SameGrant(a: Attempt, lease: LeaseRequest)
    requires ValidAttempt(a)
    ensures a.state.Active? && SameLease(a, lease) <==> GrantedTo(a, lease)
  {
  }

  lemma CompletedOutcome(s: Store, run: RunInput, lease: LeaseRequest)
    requires ValidAt(s, run.id) && run.id in s.runs && Last(s, run.id).state.Completed?
    ensures PrepareStored(s, run, lease, false) == PrepareKnown(s, run, lease)
  {
    LoadedHistory(s.runs[run.id], s.attempts[run.id]);
    SameButDataMode(s.runs[run.id].input, run);
  }

  lemma SameButDataMode(stored: RunInput, run: RunInput)
    ensures SameCompletedInput(stored, run) <==> stored.(dataMode := run.dataMode) == run
  {
  }

  lemma KnownOutcome(s: Store, run: RunInput, lease: LeaseRequest)
    requires ValidAt(s, run.id) && run.id in s.runs
    ensures PrepareStored(s, run, lease, false) == PrepareKnown(s, run, lease)
  {
    var rows, last := s.attempts[run.id], Last(s, run.id);
    if last.state.Completed? {
      CompletedOutcome(s, run, lease);
    } else {
      LoadedHistory(s.runs[run.id], rows);
      SameGrant(last, lease);
      if s.runs[run.id].input == run && EndOf(last) <= lease.claimedAt {
        ReclaimOutcome(s, run, lease);
        EndedRows(s, run.id);
      }
    }
  }

  lemma EndedRows(s: Store, r: string)
    requires ValidAt(s, r) && r in s.runs && !Last(s, r).state.Completed?
    ensures
      var rows, last := s.attempts[r], Last(s, r);
      if last.state.Active? then UpdateActive(rows, last.id, Expired, None, None) == WithLast(rows, Expire(last))
      else WithRows(s, r, WithLast(rows, Expire(last))) == s
  {
    var rows, last := s.attempts[r], Last(s, r);
    if last.state.Active? {
      UpdateLast(rows, Expired, None, None);
    } else {
      assert WithLast(rows, last) == rows;
      assert WithRows(s, r, rows) == s;
    }
  }

  /** In a valid store preparation is decided by the history: none of its defensive guards fires, and a
      claim fails on the run's recorded time only for a new run. */
  lemma PrepareIsDecidedByHistory(s: Store, run: RunInput, lease: LeaseRequest)
    requires ValidAt(s, run.id)
    ensures Prepare(s, run, lease) == PrepareByHistory(s, run, lease)
  {
    if ValidPreparation(run, lease) {
      if Insertable(s, run) {
        FirstClaimOutcome(s, run, lease);
      } else if run.id in s.runs {
        KnownOutcome(s, run, lease);
      }
    }
  }

  ghost function Ended(s: Store, r: string, ended: Attempt, run: StoredRun): Store
    requires ValidAt(s, r) && r in s.runs
  {
    WithRun(WithRows(s, r, WithLast(s.attempts[r], ended)), r, run)
  }

  ghost predicate ExactFailure(a: Attempt, input: FailureInput) {
    && a.state.Failed? && a.id == input.attemptId && a.owner == input.owner
    && a.terminalAt == Some(input.failedAt) && a.failureCode == Some(input.failureCode)
  }

  /** The caller holds the lease of the attempt at the given time. */
  ghost predicate Holds(a: Attempt, attemptId: string, owner: string, at: Time) {
    a.state.Active? && a.id == attemptId && a.owner == owner && a.claimedAt <= at < a.leaseExpiresAt
  }

  ghost function FailByHistory(s: Store, input: FailureInput): Result<Store, LeaseError>
    requires ValidAt(s, input.runId)
  {
    if !ValidFailure(input) then Err(InvalidInput)
    else if input.runId !in s.runs then Err(NotFound)
    else
      var last := Last(s, input.runId);
      if ExactFailure(last, input) then Ok(s)
      else if !Holds(last, input.attemptId, input.owner, input.failedAt) then Err(Conflict)
      else Ok(Ended(s, input.runId,
                    last.(state := Failed, terminalAt := Some(input.failedAt), failureCode := Some(input.failureCode)),
                    s.runs[input.runId].(state := RunFailed)))
  }

  lemma FailIsDecidedByHistory(s: Store, input: FailureInput)
    requires ValidAt(s, input.runId)
    ensures Fail(s, input) == FailByHistory(s, input)
  {
    if input.runId in s.runs {
      var rows := s.attempts[input.runId];
      LoadedHistory(s.runs[input.runId], rows);
      if Last(s, input.runId).state.Active? {
        UpdateLast(rows, Failed, Some(input.failedAt), Some(input.failureCode));
      }
    }
  }

  ghost function CompleteByHistory(s: Store, input: CompletionInput): Result<Store, LeaseError>
    requires ValidAt(s, input.runId)
  {
    if !ValidCompletion(input) then Err(InvalidInput)
    else if input.runId !in s.runs then Err(NotFound)
    else
      var run, last := s.runs[input.runId], Last(s, input.runId);
      if ExactCompletion(run, last, input) then Ok(s)
      else if !Holds(last, input.attemptId, input.owner, input.completedAt) then Err(Conflict)
      else Ok(Ended(s, input.runId,
                    last.(state := Completed, terminalAt := Some(input.completedAt)),
                    run.(state := RunCompleted, completedAt := Some(input.completedAt),
                         writeSetVersion := Some(input.digestVersion), writeSetDigest := Some(input.digest))))
  }

  lemma CompleteIsDecidedByHistory(s: Store, input: CompletionInput)
    requires ValidAt(s, input.runId)
    ensures Complete(s, input) == CompleteByHistory(s, input)
  {
    if input.runId in s.runs {
      var rows := s.attempts[input.runId];
      LoadedHistory(s.runs[input.runId], rows);
      if Last(s, input.runId).state.Active? {
        UpdateLast(rows, Completed, Some(input.completedAt), None);
      }
    }
  }
}
