/** Safety of the lease protocol over whole runs: any number of workers, any callbacks, any times. */
module LeaseRuns {
  import opened Results
  import opened Observations
  import opened Leases
  import opened LeaseProperties

  // ---- what one step may change ----

  /** An attempt keeps its identity and its claim; only an active one changes at all, and its ownership
      can only end earlier. */
  ghost predicate Continues(a: Attempt, b: Attempt) {
    && b == a.(state := b.state, terminalAt := b.terminalAt, failureCode := b.failureCode)
    && (a.state.Active? || a == b)
    && EndOf(b) <= EndOf(a)
  }

  ghost predicate RowsEvolve(before: seq<Attempt>, after: seq<Attempt>) {
    |before| <= |after| && forall i | 0 <= i < |before| :: Continues(before[i], after[i])
  }

  ghost predicate RunEvolves(before: StoredRun, rows: seq<Attempt>, after: StoredRun, nextRows: seq<Attempt>) {
    && after.input == before.input
    && RowsEvolve(rows, nextRows)
    && (before.state.RunCompleted? ==> after == before && nextRows == rows)
  }

  ghost predicate EvolvesAt(s: Store, t: Store, r: string) {
    r in s.runs && r in s.attempts ==>
      r in t.runs && r in t.attempts && RunEvolves(s.runs[r], s.attempts[r], t.runs[r], t.attempts[r])
  }

  ghost predicate Evolves(s: Store, t: Store) {
    forall r :: EvolvesAt(s, t, r)
  }

  lemma EvolutionIsTransitive(s: Store, t: Store, u: Store)
    requires Evolves(s, t) && Evolves(t, u)
    ensures Evolves(s, u)
  {
    forall r ensures EvolvesAt(s, u, r) {
      assert EvolvesAt(s, t, r) && EvolvesAt(t, u, r);
      if r in s.runs && r in s.attempts {
        RowsEvolveTransitively(s.attempts[r], t.attempts[r], u.attempts[r]);
      }
    }
  }

  lemma RowsEvolveTransitively(a: seq<Attempt>, b: seq<Attempt>, c: seq<Attempt>)
    requires RowsEvolve(a, b) && RowsEvolve(b, c)
    ensures RowsEvolve(a, c)
  {
    forall i | 0 <= i < |a| ensures Continues(a[i], c[i]) {
      assert Continues(a[i], b[i]) && Continues(b[i], c[i]);
    }
  }

  // ---- one run's rows ----

  lemma EndingKeepsRunValid(run: StoredRun, rows: seq<Attempt>, next: StoredRun, ended: Attempt)
    requires ValidRun(run, rows) && rows[|rows| - 1].state.Active?
    requires ValidAttempt(ended) && !ended.state.Active? && !ended.state.Expired? && Continues(rows[|rows| - 1], ended)
    requires next.input == run.input && Mirrors(next, ended)
    ensures ValidRun(next, WithLast(rows, ended)) && RunEvolves(run, rows, next, WithLast(rows, ended))
  {
  }

  lemma ExpiredStaysValid(a: Attempt)
    requires ValidAttempt(a)
    ensures ValidAttempt(Expire(a)) && !Expire(a).state.Active? && Continues(a, Expire(a)) && EndOf(Expire(a)) == EndOf(a)
  {
  }

  lemma ReclaimingKeepsRunValid(run: StoredRun, rows: seq<Attempt>, claimed: Attempt)
    requires ValidRun(run, rows) && !rows[|rows| - 1].state.Completed?
    requires ValidAttempt(claimed) && claimed.state.Active? && claimed.number == |rows| + 1
    requires EndOf(rows[|rows| - 1]) <= claimed.claimedAt
    ensures
      var after := WithLast(rows, Expire(rows[|rows| - 1])) + [claimed];
      ValidRun(run.(state := RunActive), after) && RunEvolves(run, rows, run.(state := RunActive), after)
  {
    ExpiredStaysValid(rows[|rows| - 1]);
    ExtendingKeepsHistory(rows, Expire(rows[|rows| - 1]), claimed);
  }

  lemma ExtendingKeepsHistory(rows: seq<Attempt>, ended: Attempt, claimed: Attempt)
    requires ValidHistory(rows) && Continues(rows[|rows| - 1], ended)
    requires ValidAttempt(ended) && (ended.state.Failed? || ended.state.Expired?) && EndOf(ended) <= claimed.claimedAt
    requires ValidAttempt(claimed) && claimed.state.Active? && claimed.number == |rows| + 1
    ensures ValidHistory(WithLast(rows, ended) + [claimed]) && RowsEvolve(rows, WithLast(rows, ended) + [claimed])
  {
    var after := WithLast(rows, ended) + [claimed];
    forall i | 0 <= i < |after| ensures after[i].number == i + 1 && ValidAttempt(after[i]) {
      if i < |rows| - 1 {
        assert after[i] == rows[i] && ValidAttempt(rows[i]);
      }
    }
    forall i | 0 <= i < |rows| - 1 ensures after[i] == rows[i] {
    }
  }

  // ---- the whole store ----

  ghost predicate FreshlyExtended(s: Store, r: string, rows: seq<Attempt>) {
    var before := RowsOf(s, r);
    && |before| <= |rows| <= |before| + 1
    && (forall i | 0 <= i < |before| :: rows[i].id == before[i].id)
    && (|rows| > |before| ==> !AttemptIdUsed(s, rows[|before|].id))
  }

  lemma IdsStayUnique(s: Store, t: Store, r: string, rows: seq<Attempt>)
    requires UniqueAttemptIds(s) && FreshlyExtended(s, r, rows) && t.attempts == s.attempts[r := rows]
    ensures UniqueAttemptIds(t)
  {
    forall q, i, p, j, id | HasAttempt(t, q, i, id) && HasAttempt(t, p, j, id) ensures q == p && i == j {
      OldOrFresh(s, t, r, rows, q, i, id);
      OldOrFresh(s, t, r, rows, p, j, id);
    }
  }

  lemma OldOrFresh(s: Store, t: Store, r: string, rows: seq<Attempt>, q: string, i: int, id: string)
    requires FreshlyExtended(s, r, rows) && t.attempts == s.attempts[r := rows] && HasAttempt(t, q, i, id)
    ensures if HasAttempt(s, q, i, id) then AttemptIdUsed(s, id) else q == r && i == |RowsOf(s, r)| && !AttemptIdUsed(s, id)
  {
    if q != r || i < |RowsOf(s, r)| {
      assert s.attempts[q][i] in s.attempts[q];
    }
  }

  lemma RunStaysValid(s: Store, r: string, run: StoredRun, rows: seq<Attempt>)
    requires ValidStore(s) && run.input.id == r && ValidRun(run, rows) && FreshlyExtended(s, r, rows)
    requires if r in s.runs then r in s.attempts && RunEvolves(s.runs[r], s.attempts[r], run, rows) else Insertable(s, run.input)
    ensures
      var t := WithRun(WithRows(s, r, rows), r, run);
      ValidStore(t) && Evolves(s, t)
  {
    var t := WithRun(WithRows(s, r, rows), r, run);
    forall q ensures ValidAt(t, q) && EvolvesAt(s, t, q) {
      assert ValidAt(s, q);
      assert q != r ==> q in s.runs ==> t.runs[q] == s.runs[q];
    }
    IdsStayUnique(s, t, r, rows);
    assert UniqueDerivations(t) by {
      forall p, q | p in t.runs && q in t.runs && SameDerivation(t.runs[p].input, t.runs[q].input) ensures p == q {
        assert SameDerivation(t.runs[q].input, t.runs[p].input);
      }
    }
  }

  // ---- every operation ----

  lemma PrepareKeepsValid(s: Store, run: RunInput, lease: LeaseRequest)
    requires ValidStore(s)
    ensures
      var r := Prepare(s, run, lease);
      if r.Ok? then ValidStore(r.value.0) && Evolves(s, r.value.0) else r.error != Corrupt
  {
    assert ValidAt(s, run.id);
    PrepareIsDecidedByHistory(s, run, lease);
    var r := PrepareByHistory(s, run, lease);
    if r.Ok? && r.value.0 != s {
      if run.id in s.runs {
        ReclaimedStaysValid(s, run, lease);
      } else {
        FirstClaimStaysValid(s, run, lease);
      }
    }
  }

  lemma FirstClaimStaysValid(s: Store, run: RunInput, lease: LeaseRequest)
    requires ValidStore(s) && Insertable(s, run) && !AttemptIdUsed(s, lease.attemptId)
    requires ValidPreparation(run, lease) && run.recordedAt <= lease.claimedAt
    ensures ValidStore(FirstClaim(s, run, lease)) && Evolves(s, FirstClaim(s, run, lease))
  {
    assert ValidAt(s, run.id);
    var rows := [Leased(lease, 1)];
    assert ValidRun(NewRun(run), rows);
    RunStaysValid(s, run.id, NewRun(run), rows);
  }

  lemma ReclaimedStaysValid(s: Store, run: RunInput, lease: LeaseRequest)
    requires ValidStore(s) && run.id in s.runs && !AttemptIdUsed(s, lease.attemptId) && ValidPreparation(run, lease)
    requires ValidAt(s, run.id) && !Last(s, run.id).state.Completed? && EndOf(Last(s, run.id)) <= lease.claimedAt
    ensures ValidStore(Reclaimed(s, run.id, lease)) && Evolves(s, Reclaimed(s, run.id, lease))
  {
    var rows, last := s.attempts[run.id], Last(s, run.id);
    var claimed := Leased(lease, last.number + 1);
    var stored := s.runs[run.id].(state := RunActive);
    var after := WithLast(rows, Expire(last)) + [claimed];
    ReclaimingKeepsRunValid(s.runs[run.id], rows, claimed);
    assert after[|rows|] == claimed;
    RunStaysValid(s, run.id, stored, after);
  }

  lemma EndedStaysValid(s: Store, r: string, ended: Attempt, run: StoredRun)
    requires ValidStore(s) && ValidAt(s, r) && r in s.runs && Last(s, r).state.Active? && Continues(Last(s, r), ended)
    requires ValidAttempt(ended) && !ended.state.Active? && !ended.state.Expired?
    requires run.input == s.runs[r].input && Mirrors(run, ended)
    ensures ValidStore(Ended(s, r, ended, run)) && Evolves(s, Ended(s, r, ended, run))
  {
    EndingKeepsRunValid(s.runs[r], s.attempts[r], run, ended);
    RunStaysValid(s, r, run, WithLast(s.attempts[r], ended));
  }

  lemma LastIsValid(s: Store, r: string)
    requires ValidAt(s, r) && r in s.runs
    ensures ValidAttempt(Last(s, r)) && Mirrors(s.runs[r], Last(s, r))
  {
  }

  lemma FailKeepsValid(s: Store, input: FailureInput)
    requires ValidStore(s)
    ensures
      var r := Fail(s, input);
      if r.Ok? then ValidStore(r.value) && Evolves(s, r.value) else r.error != Corrupt
  {
    assert ValidAt(s, input.runId);
    FailIsDecidedByHistory(s, input);
    var r := FailByHistory(s, input);
    if r.Ok? && r.value != s {
      LastIsValid(s, input.runId);
      EndedStaysValid(s, input.runId,
        Last(s, input.runId).(state := Failed, terminalAt := Some(input.failedAt), failureCode := Some(input.failureCode)),
        s.runs[input.runId].(state := RunFailed));
    }
  }

  lemma CompleteKeepsValid(s: Store, input: CompletionInput)
    requires ValidStore(s)
    ensures
      var r := Complete(s, input);
      if r.Ok? then ValidStore(r.value) && Evolves(s, r.value) else r.error != Corrupt
  {
    assert ValidAt(s, input.runId);
    CompleteIsDecidedByHistory(s, input);
    var r := CompleteByHistory(s, input);
    if r.Ok? && r.value != s {
      LastIsValid(s, input.runId);
      EndedStaysValid(s, input.runId,
        Last(s, input.runId).(state := Completed, terminalAt := Some(input.completedAt)),
        s.runs[input.runId].(state := RunCompleted, completedAt := Some(input.completedAt),
          writeSetVersion := Some(input.digestVersion), writeSetDigest := Some(input.digest)));
    }
  }

  lemma CheckFindsNoCorruption(s: Store, documentVersionId: string, input: CompletionInput)
    requires ValidStore(s)
    ensures CheckCompletion(s, documentVersionId, input) != Err(Corrupt)
  {
    assert ValidAt(s, input.runId);
    if input.runId in s.runs {
      LoadedHistory(s.runs[input.runId], s.attempts[input.runId]);
    }
  }

  /** Every operation keeps the invariant, only extends the history, and never trips a defensive guard. */
  lemma StepKeepsValid(s: Store, op: Op)
    requires ValidStore(s)
    ensures
      var r := Apply(s, op);
      if r.Ok? then ValidStore(r.value) && Evolves(s, r.value) else r.error != Corrupt
  {
    match op
    case PrepareOp(run, lease) => PrepareKeepsValid(s, run, lease);
    case FailOp(input) => FailKeepsValid(s, input);
    case CheckOp(documentVersionId, input) => CheckFindsNoCorruption(s, documentVersionId, input);
    case CompleteOp(input) => CompleteKeepsValid(s, input);
  }

  lemma {:induction false} CallbackKeepsValid(s: Store, ops: seq<Op>)
    requires ValidStore(s)
    ensures
      var r := ApplyAll(s, ops);
      if r.Ok? then ValidStore(r.value) && Evolves(s, r.value) else r.error != Corrupt
  {
    if ops != [] {
      CallbackKeepsValid(s, ops[..|ops| - 1]);
      var earlier := ApplyAll(s, ops[..|ops| - 1]);
      if earlier.Ok? {
        StepKeepsValid(earlier.value, ops[|ops| - 1]);
        if Apply(earlier.value, ops[|ops| - 1]).Ok? {
          EvolutionIsTransitive(s, earlier.value, Apply(earlier.value, ops[|ops| - 1]).value);
        }
      }
    }
  }

  lemma {:induction false} RunKeepsValid(s: Store, transactions: seq<seq<Op>>)
    requires ValidStore(s)
    ensures ValidStore(Run(s, transactions)) && Evolves(s, Run(s, transactions))
  {
    if transactions != [] {
      var earlier := Run(s, transactions[..|transactions| - 1]);
      RunKeepsValid(s, transactions[..|transactions| - 1]);
      CallbackKeepsValid(earlier, transactions[|transactions| - 1]);
      EvolutionIsTransitive(s, earlier, Run(s, transactions));
    }
  }

  /** Every store reachable from the empty one satisfies the invariant. */
  lemma ReachableStoresAreValid(transactions: seq<seq<Op>>)
    ensures ValidStore(Run(EMPTY_STORE, transactions))
  {
    RunKeepsValid(EMPTY_STORE, transactions);
  }

  /** Whatever runs later, the history known so far stays and is only extended. */
  lemma {:induction false} HistoryIsAppendOnly(s: Store, earlier: seq<seq<Op>>, later: seq<seq<Op>>)
    requires ValidStore(s)
    ensures Evolves(Run(s, earlier), Run(s, earlier + later))
  {
    RunKeepsValid(s, earlier);
    RunKeepsValid(Run(s, earlier), later);
    TransactionsCompose(s, earlier, later);
  }

  lemma {:induction false} TransactionsCompose(s: Store, earlier: seq<seq<Op>>, later: seq<seq<Op>>)
    ensures Run(s, earlier + later) == Run(Run(s, earlier), later)
  {
    if later == [] {
      assert earlier + later == earlier;
    } else {
      TransactionsCompose(s, earlier, later[..|later| - 1]);
      assert (earlier + later)[..|earlier + later| - 1] == earlier + later[..|later| - 1];
    }
  }

  /** No transaction of a run ever ends at a defensive guard. */
  lemma GuardsNeverFire(transactions: seq<seq<Op>>, ops: seq<Op>)
    ensures ApplyAll(Run(EMPTY_STORE, transactions), ops) != Err(Corrupt)
  {
    ReachableStoresAreValid(transactions);
    CallbackKeepsValid(Run(EMPTY_STORE, transactions), ops);
  }

  // ---- mutual exclusion ----

  ghost predicate Owns(a: Attempt, at: Time) {
    a.claimedAt <= at < EndOf(a)
  }

  /** At any instant at most one attempt of a run owns it, over the whole recorded history. */
  lemma OwnershipIsExclusive(transactions: seq<seq<Op>>, r: string, i: nat, j: nat, at: Time)
    requires
      var rows := RowsOf(Run(EMPTY_STORE, transactions), r);
      i < |rows| && j < |rows| && Owns(rows[i], at) && Owns(rows[j], at)
    ensures i == j
  {
    var s := Run(EMPTY_STORE, transactions);
    ReachableStoresAreValid(transactions);
    assert ValidAt(s, r);
    if i < j {
      HistoryIsInOrder(s.attempts[r], i, j);
    } else if j < i {
      HistoryIsInOrder(s.attempts[r], j, i);
    }
  }

  /** Fencing: an attempt that is not the last of its run can neither fail nor complete it, whatever
      time its owner reports. */
  lemma SupersededAttemptsAreFenced(s: Store, r: string, i: nat, failure: FailureInput, completion: CompletionInput)
    requires ValidStore(s) && i < |RowsOf(s, r)| - 1
    requires failure.runId == completion.runId == r
    requires failure.attemptId == completion.attemptId == s.attempts[r][i].id
    ensures ValidFailure(failure) ==> Fail(s, failure) == Err(Conflict)
    ensures ValidCompletion(completion) ==> Complete(s, completion) == Err(Conflict)
  {
    assert ValidAt(s, r);
    var id := s.attempts[r][i].id;
    assert HasAttempt(s, r, i, id);
    assert HasAttempt(s, r, |s.attempts[r]| - 1, Last(s, r).id);
    FailIsDecidedByHistory(s, failure);
    CompleteIsDecidedByHistory(s, completion);
  }

  // ---- completion ----

  /** Once completed, a run and its attempts never change again. */
  lemma CompletionIsAbsorbing(s: Store, transactions: seq<seq<Op>>, r: string)
    requires ValidStore(s) && r in s.runs && s.runs[r].state.RunCompleted?
    ensures
      var t := Run(s, transactions);
      && r in s.attempts && r in t.runs && r in t.attempts
      && t.runs[r] == s.runs[r] && t.attempts[r] == s.attempts[r]
  {
    RunKeepsValid(s, transactions);
    assert ValidAt(s, r) && EvolvesAt(s, Run(s, transactions), r);
  }

  lemma CompletedBy(s: Store, input: CompletionInput)
    requires ValidStore(s) && Complete(s, input).Ok?
    ensures
      var t := Complete(s, input).value;
      && ValidStore(t) && ValidAt(t, input.runId) && input.runId in t.runs && t.runs[input.runId].state.RunCompleted?
      && ExactCompletion(t.runs[input.runId], Last(t, input.runId), input)
  {
    assert ValidAt(s, input.runId);
    CompleteKeepsValid(s, input);
    CompleteIsDecidedByHistory(s, input);
    var t := Complete(s, input).value;
    assert ValidAt(t, input.runId);
  }

  /** Two completions of one run succeed, with anything in between, exactly when they agree on attempt,
      owner, time, digest version and digest; the later one then changes nothing. */
  lemma CompletionIsUnique(s: Store, first: CompletionInput, between: seq<seq<Op>>, second: CompletionInput)
    requires ValidStore(s) && Complete(s, first).Ok? && second.runId == first.runId
    ensures
      var t := Run(Complete(s, first).value, between);
      && (Complete(t, second).Ok? <==> second == first)
      && (second == first ==> Complete(t, second) == Ok(t))
  {
    CompletedBy(s, first);
    var done := Complete(s, first).value;
    var t := Run(done, between);
    CompletionIsAbsorbing(done, between, first.runId);
    RunKeepsValid(done, between);
    assert ValidAt(t, first.runId);
    CompleteIsDecidedByHistory(t, second);
    CompleteIsDecidedByHistory(s, first);
    assert ValidAt(s, first.runId);
  }

  // ---- check and complete ----

  /** For a matching document version the check foretells completion exactly. */
  lemma CheckRefinesComplete(s: Store, documentVersionId: string, input: CompletionInput)
    requires ValidStore(s) && !Blank(documentVersionId)
    requires input.runId in s.runs ==> s.runs[input.runId].input.documentVersionId == documentVersionId
    ensures
      match CheckCompletion(s, documentVersionId, input)
      case Ok(Claimed) => Complete(s, input).Ok? && Complete(s, input).value != s
      case Ok(AlreadyCompleted) => Complete(s, input) == Ok(s)
      case Ok(Busy) => false
      case Err(e) => Complete(s, input) == Err(e)
  {
    assert ValidAt(s, input.runId);
    CompleteIsDecidedByHistory(s, input);
    if input.runId in s.runs {
      LoadedHistory(s.runs[input.runId], s.attempts[input.runId]);
      if Complete(s, input).Ok? && !s.runs[input.runId].state.RunCompleted? {
        CompletedBy(s, input);
      }
    }
  }

  // ---- retries ----

  lemma PrepareRetry(s: Store, run: RunInput, lease: LeaseRequest)
    requires ValidStore(s) && Prepare(s, run, lease).Ok?
    ensures
      var r := Prepare(s, run, lease).value;
      Prepare(r.0, run, lease) == Ok(r)
  {
    assert ValidAt(s, run.id);
    PrepareIsDecidedByHistory(s, run, lease);
    PrepareKeepsValid(s, run, lease);
    var r := Prepare(s, run, lease).value;
    if r.0 != s {
      assert ValidAt(r.0, run.id);
      PrepareIsDecidedByHistory(r.0, run, lease);
      assert Last(r.0, run.id) == Leased(lease, r.1.attemptNumber);
      assert SameDerivation(r.0.runs[run.id].input, run);
    }
  }

  lemma FailRetry(s: Store, input: FailureInput)
    requires ValidStore(s) && Fail(s, input).Ok?
    ensures Fail(Fail(s, input).value, input) == Fail(s, input)
  {
    assert ValidAt(s, input.runId);
    FailIsDecidedByHistory(s, input);
    FailKeepsValid(s, input);
    var t := Fail(s, input).value;
    assert ValidAt(t, input.runId);
    FailIsDecidedByHistory(t, input);
  }

  /** An exact retry of any successful operation succeeds again and changes nothing. */
  lemma RetriesChangeNothing(s: Store, op: Op)
    requires ValidStore(s) && Apply(s, op).Ok?
    ensures Apply(Apply(s, op).value, op) == Apply(s, op)
  {
    match op
    case PrepareOp(run, lease) => PrepareRetry(s, run, lease);
    case FailOp(input) => FailRetry(s, input);
    case CheckOp(_, _) =>
    case CompleteOp(input) => CompletionIsUnique(s, input, [], input);
  }

  // ---- progress ----

  lemma LastIdIsUsed(s: Store, r: string)
    requires ValidAt(s, r) && r in s.runs
    ensures AttemptIdUsed(s, Last(s, r).id)
  {
    assert Last(s, r) in s.attempts[r];
  }

  /** No run gets stuck: unless it is completed, any fresh claim from the end of its last attempt on is granted. */
  lemma UnfinishedRunsCanBeClaimed(s: Store, r: string, lease: LeaseRequest)
    requires ValidStore(s) && ValidAt(s, r) && r in s.runs && !s.runs[r].state.RunCompleted?
    requires ValidPreparation(s.runs[r].input, lease) && !AttemptIdUsed(s, lease.attemptId)
    requires EndOf(Last(s, r)) <= lease.claimedAt
    ensures
      var granted := Prepare(s, s.runs[r].input, lease);
      && granted.Ok? && granted.value.1.status.Claimed?
      && granted.value.1.attemptNumber == |s.attempts[r]| + 1
  {
    PrepareIsDecidedByHistory(s, s.runs[r].input, lease);
    LastIdIsUsed(s, r);
  }

  // ---- the lease itself ----

  /** The claim is stored as the active last attempt of its run until its time plus its duration, the
      answer says so, and no other run is touched. */
  ghost predicate LeasedUntil(s: Store, run: RunInput, lease: LeaseRequest, t: Store, answer: ExtractionState) {
    var (rows, end) := (RowsOf(t, run.id), lease.claimedAt + lease.duration);
    && answer == ExtractionState(run.id, lease.attemptId, |rows|, Claimed, end, None)
    && t.runs == s.runs[run.id := StoredRun(run, RunActive, None, None, None)]
    && t.attempts == s.attempts[run.id := rows]
    && |rows| > 0
    && rows[|rows| - 1] == Attempt(lease.attemptId, |rows|, lease.owner, lease.claimedAt, end, Active, None, None)
  }

  lemma ReclaimedUntil(s: Store, run: RunInput, lease: LeaseRequest)
    requires ValidAt(s, run.id) && run.id in s.runs && s.runs[run.id].input == run && !Last(s, run.id).state.Completed?
    ensures LeasedUntil(s, run, lease, Reclaimed(s, run.id, lease), Answer(run.id, Leased(lease, Last(s, run.id).number + 1), Claimed, None))
  {
    LastIsValid(s, run.id);
  }

  lemma ResumedUntil(s: Store, run: RunInput, lease: LeaseRequest)
    requires ValidAt(s, run.id) && run.id in s.runs && s.runs[run.id].input == run && GrantedTo(Last(s, run.id), lease)
    ensures LeasedUntil(s, run, lease, s, Answer(run.id, Last(s, run.id), Claimed, None))
  {
    LastIsValid(s, run.id);
    assert s.attempts[run.id := s.attempts[run.id]] == s.attempts;
    assert s.runs[run.id := s.runs[run.id]] == s.runs;
  }

  /** This holds of every granted claim, whether new, reclaimed or resumed. */
  lemma ClaimsLastForTheirDuration(s: Store, run: RunInput, lease: LeaseRequest)
    requires ValidStore(s)
    ensures
      var r := Prepare(s, run, lease);
      r.Ok? && r.value.1.status.Claimed? ==> LeasedUntil(s, run, lease, r.value.0, r.value.1)
  {
    assert ValidAt(s, run.id);
    PrepareIsDecidedByHistory(s, run, lease);
    var r := Prepare(s, run, lease);
    if r.Ok? && r.value.1.status.Claimed? && run.id in s.runs {
      if GrantedTo(Last(s, run.id), lease) {
        ResumedUntil(s, run, lease);
      } else {
        ReclaimedUntil(s, run, lease);
      }
    }
  }

  /** While nothing else happens to the run, another request for it is turned away exactly before the
      claim's time plus its duration, and granted exactly from then on. */
  lemma LeaseExcludesOthers(s: Store, run: RunInput, lease: LeaseRequest, other: LeaseRequest)
    requires ValidStore(s) && Prepare(s, run, lease).Ok? && Prepare(s, run, lease).value.1.status.Claimed?
    requires !Blank(other.attemptId) && !Blank(other.owner) && other.duration > 0
    requires !AttemptIdUsed(Prepare(s, run, lease).value.0, other.attemptId)
    ensures
      var t := Prepare(s, run, lease).value.0;
      var r := Prepare(t, run, other);
      && r.Ok?
      && (r.value.1.status.Busy? <==> other.claimedAt < lease.claimedAt + lease.duration)
      && (r.value.1.status.Claimed? <==> other.claimedAt >= lease.claimedAt + lease.duration)
      && (r.value.1.status.Busy? ==>
            r.value.0 == t && r.value.1.attemptId == lease.attemptId
            && r.value.1.leaseExpiresAt == lease.claimedAt + lease.duration)
  {
    var t := Prepare(s, run, lease).value.0;
    PrepareKeepsValid(s, run, lease);
    ClaimsLastForTheirDuration(s, run, lease);
    assert ValidAt(s, run.id) && ValidAt(t, run.id);
    PrepareIsDecidedByHistory(s, run, lease);
    PrepareIsDecidedByHistory(t, run, other);
    LastIdIsUsed(t, run.id);
    assert !NewDerivation(t, run);
  }

  // ---- inputs ----

  /** Only these inputs are refused as invalid; whatever else an operation refuses, it refuses for what is stored. */
  lemma PreparationsAreChecked(s: Store, run: RunInput, lease: LeaseRequest)
    requires ValidStore(s)
    ensures Prepare(s, run, lease) == Err(InvalidInput) <==>
      || Blank(run.id) || Blank(run.documentVersionId) || Blank(run.digestVersion) || run.derivationDigest == ZERO_DIGEST
      || Blank(run.methodName) || Blank(run.version) || Blank(run.provider) || Blank(run.dataMode)
      || Blank(run.model) || Blank(run.promptVersion) || run.schemaDigest == ZERO_DIGEST || run.maxOutputTokens <= 0
      || Blank(lease.attemptId) || Blank(lease.owner) || lease.duration <= 0
  {
    assert ValidAt(s, run.id);
    PrepareIsDecidedByHistory(s, run, lease);
  }

  lemma FailuresAreChecked(s: Store, failure: FailureInput)
    requires ValidStore(s)
    ensures Fail(s, failure) == Err(InvalidInput) <==>
      Blank(failure.runId) || Blank(failure.attemptId) || Blank(failure.owner) || Blank(failure.failureCode)
  {
    assert ValidAt(s, failure.runId);
    FailIsDecidedByHistory(s, failure);
  }

  lemma CompletionsAreChecked(s: Store, document: string, completion: CompletionInput)
    requires ValidStore(s)
    ensures Complete(s, completion) == Err(InvalidInput) <==>
      || Blank(completion.runId) || Blank(completion.attemptId) || Blank(completion.owner)
      || Blank(completion.digestVersion) || completion.digest == ZERO_DIGEST
    ensures CheckCompletion(s, document, completion) == Err(InvalidInput) <==>
      Blank(document) || Complete(s, completion) == Err(InvalidInput)
  {
    assert ValidAt(s, completion.runId);
    CompleteIsDecidedByHistory(s, completion);
  }
}
