/** What every run of appending transactions guarantees about the committed authority chains. */
module ChainSafety {
  import opened Results
  import opened Observations
  import opened Decisions
  import opened Appends
  import opened AppendProperties

  lemma SafeLog(key: Subject -> int, sys: System, w: int)
    requires Safe(key, sys)
    ensures Linear(sys.decisions) && AllAuthorized(sys.decisions)
    ensures WorkerOk(key, sys.decisions, WorkerOf(sys, w)) && Linear(Visible(sys, w)) && AllAuthorized(Visible(sys, w))
  {
    assert WorkerOk(key, sys.decisions, WorkerOf(sys, w));
    LogIsLinear(key, sys.decisions, WorkerOf(sys, w));
  }

  /** One root, every later decision a reviewer's correction of the one before, and exactly the last
      decision effective. */
  ghost predicate ProperChain(log: seq<Decision>, s: Subject, c: seq<Decision>) {
    && (forall d :: d in c <==> d in log && d.subject == s)
    && (c != [] ==> c[0].supersedes.None?)
    && (forall i | 1 <= i < |c| :: c[i].supersedes == Some(c[i - 1].id) && c[i].authority.Reviewer?)
    && (forall d :: EffectiveFor(log, s, d) <==> c != [] && d == c[|c| - 1])
  }

  lemma LinearChainIsProper(log: seq<Decision>, s: Subject)
    requires Linear(log)
    ensures ProperChain(log, s, Chain(log, s))
  {
    var c := Chain(log, s);
    ChainMembers(log, s);
    assert LinkAt(c, 0);
    forall i | 1 <= i < |c| ensures c[i].supersedes == Some(c[i - 1].id) && c[i].authority.Reviewer? {
      assert LinkAt(c, i);
    }
    forall d: Decision {
      EffectiveIsLast(log, s, d);
    }
  }

  /** Every subject has a proper chain of committed decisions, whatever the interleaving. */
  lemma CommittedChainsAreLinear(key: Subject -> int, actions: seq<Action>, s: Subject)
    ensures
      var log := Run(key, EMPTY_SYSTEM, actions).decisions;
      ProperChain(log, s, Chain(log, s))
  {
    ReachableIsSafe(key, actions);
    SafeLog(key, Run(key, EMPTY_SYSTEM, actions), 0);
    LinearChainIsProper(Run(key, EMPTY_SYSTEM, actions).decisions, s);
  }

  /** Of all the transactions that ever raced to decide a subject first, or to correct the same decision,
      at most one committed; and a correction is about the subject it corrects. */
  lemma AtMostOneSucceeds(key: Subject -> int, actions: seq<Action>, d: Decision, e: Decision)
    requires
      var log := Run(key, EMPTY_SYSTEM, actions).decisions;
      && d in log && e in log && d.supersedes == e.supersedes
      && (d.supersedes.None? ==> d.subject == e.subject)
    ensures d == e
    ensures d.supersedes.Some? ==>
      exists p :: p in Run(key, EMPTY_SYSTEM, actions).decisions && p.id == d.supersedes.value && p.subject == d.subject
  {
    ReachableIsSafe(key, actions);
    var log := Run(key, EMPTY_SYSTEM, actions).decisions;
    SafeLog(key, Run(key, EMPTY_SYSTEM, actions), 0);
    OneSuccessor(log, d, e);
    var p := Predecessor(log, d);
  }

  lemma OneSuccessor(log: seq<Decision>, d: Decision, e: Decision)
    requires Linear(log) && d in log && e in log && d.supersedes == e.supersedes
    requires d.supersedes.None? ==> d.subject == e.subject
    ensures d == e
  {
    var p := Predecessor(log, d);
    var q := Predecessor(log, e);
    if d.supersedes.Some? {
      SameIdSameDecision(log, p, q);
      var i := SuccessorFollows(log, d, p);
      var j := SuccessorFollows(log, e, p);
      ChainIdsAreUnique(log, p.subject);
    } else {
      assert Chain(log, d.subject)[0] == d && Chain(log, e.subject)[0] == e;
    }
  }

  /** The decision before d in its chain, or d itself at the root. */
  lemma Predecessor(log: seq<Decision>, d: Decision) returns (p: Decision)
    requires Linear(log) && d in log
    ensures p in log && p.subject == d.subject
    ensures d.supersedes.Some? ==> d.supersedes == Some(p.id)
    ensures d.supersedes.None? ==> p == d && [d] <= Chain(log, d.subject)
  {
    var i := PositionInChain(log, d);
    var c := Chain(log, d.subject);
    assert LinkAt(c, i);
    ChainMembers(log, d.subject);
    p := if i == 0 then d else c[i - 1];
    assert p in c;
  }

  // ---- what the lock buys ----

  lemma LockKeepsChain(key: Subject -> int, sys: System, w: int, s: Subject, a: Action)
    requires Safe(key, sys) && key(s) in WorkerOf(sys, w).locks && a.w != w
    ensures
      var next := Step(key, sys, a);
      WorkerOf(next, w) == WorkerOf(sys, w) && Chain(Visible(next, w), s) == Chain(Visible(sys, w), s)
  {
    if a.Commit? {
      var done, mine := WorkerOf(sys, a.w), WorkerOf(sys, w);
      assert WorkerOk(key, sys.decisions, done) && WorkerOk(key, sys.decisions, mine) && Apart(done, mine);
      DistinctSubjects(key, done, mine);
      ChainOfMerge(sys.decisions, done.decisions, mine.decisions, s);
      ChainIsEmpty(done.decisions, s);
    }
  }

  /** From taking the lock of a subject until its transaction ends, a transaction sees the chain of that
      subject, and so its effective decision, change by its own statements only, whatever others do. */
  lemma {:induction false} LockFreezesChain(key: Subject -> int, actions: seq<Action>, w: int, s: Subject, others: seq<Action>)
    requires key(s) in WorkerOf(Run(key, EMPTY_SYSTEM, actions), w).locks
    requires forall a | a in others :: a.w != w
    ensures
      var before := Run(key, EMPTY_SYSTEM, actions);
      var after := Run(key, before, others);
      && WorkerOf(after, w) == WorkerOf(before, w)
      && Chain(Visible(after, w), s) == Chain(Visible(before, w), s)
      && EffectiveRow(Visible(after, w), s, |Visible(after, w)|) == EffectiveRow(Visible(before, w), s, |Visible(before, w)|)
    decreases |others|
  {
    var before := Run(key, EMPTY_SYSTEM, actions);
    if others != [] {
      var earlier := others[..|others| - 1];
      LockFreezesChain(key, actions, w, s, earlier);
      ActionsCompose(key, EMPTY_SYSTEM, actions, earlier);
      ReachableIsSafe(key, actions + earlier);
      LockKeepsChain(key, Run(key, before, earlier), w, s, others[|others| - 1]);
    }
    SameEffectiveRow(key, actions, w, s, others);
  }

  lemma SameEffectiveRow(key: Subject -> int, actions: seq<Action>, w: int, s: Subject, others: seq<Action>)
    ensures
      var before := Run(key, EMPTY_SYSTEM, actions);
      var after := Run(key, before, others);
      && EffectiveRow(Visible(before, w), s, |Visible(before, w)|) == LastOf(Chain(Visible(before, w), s))
      && EffectiveRow(Visible(after, w), s, |Visible(after, w)|) == LastOf(Chain(Visible(after, w), s))
  {
    var before := Run(key, EMPTY_SYSTEM, actions);
    ActionsCompose(key, EMPTY_SYSTEM, actions, others);
    ReachableIsSafe(key, actions);
    ReachableIsSafe(key, actions + others);
    SafeLog(key, before, w);
    SafeLog(key, Run(key, before, others), w);
    EffectiveRowIsLast(Visible(before, w), s);
    EffectiveRowIsLast(Visible(Run(key, before, others), w), s);
  }

  // ---- the outcome of an append ----

  /** At its insert an append is accepted by the check exactly when its subject is undecided, or it is a
      reviewer's correction of a decision about that subject which nobody has corrected: so a loser of a
      race always has a winner among the rows it sees. */
  lemma AppendIsDecidedByChain(key: Subject -> int, sys: System, w: int)
    requires Safe(key, sys) && WorkerOf(sys, w).stage.Inserting?
    ensures
      var d := WorkerOf(sys, w).stage.d;
      var log := Visible(sys, w);
      Follows(d, WorkerOf(sys, w).stage.effective) <==>
      match d.supersedes
      case None => !exists e :: e in log && e.subject == d.subject
      case Some(p) =>
        && d.authority.Reviewer? && !Superseded(log, p)
        && exists e :: e in log && e.id == p && e.subject == d.subject
  {
    SafeLog(key, sys, w);
    var d, log := WorkerOf(sys, w).stage.d, Visible(sys, w);
    var c := Chain(log, d.subject);
    ChainIsEmpty(log, d.subject);
    if c != [] {
      EffectiveIsLast(log, d.subject, c[|c| - 1]);
    }
    if e :| d.supersedes.Some? && e in log && e.id == d.supersedes.value && e.subject == d.subject {
      EffectiveIsLast(log, d.subject, e);
    }
  }

  /** What the statement then meets: only an ID or an alias that is already taken can keep the row out.
      The indexes one_initial and one_successor and the foreign key never fire. */
  lemma OnlyTakenIdsAreRejected(key: Subject -> int, sys: System, w: int)
    requires Safe(key, sys) && WorkerOf(sys, w).stage.Inserting?
    requires Follows(WorkerOf(sys, w).stage.d, WorkerOf(sys, w).stage.effective)
    ensures
      var d := WorkerOf(sys, w).stage.d;
      var log := Visible(sys, w);
      Insertable(log, d) <==>
      DistinctAliases(d) && forall e | e in log :: e.id != d.id && !AliasesClash(d, e)
  {
    SafeLog(key, sys, w);
    var d, log := WorkerOf(sys, w).stage.d, Visible(sys, w);
    AppendIsDecidedByChain(key, sys, w);
    forall e | e in log ensures RowsClash(d, e) <==> e.id == d.id {
    }
  }

  /** Nor do they make it wait: an uncommitted row of another transaction blocks an insert only by its ID or an alias. */
  lemma OnlyTakenIdsBlock(key: Subject -> int, sys: System, w: int, v: int, e: Decision)
    requires Safe(key, sys) && WorkerOf(sys, w).stage.Inserting? && v != w && e in WorkerOf(sys, v).decisions
    requires RowsClash(WorkerOf(sys, w).stage.d, e)
    requires Follows(WorkerOf(sys, w).stage.d, WorkerOf(sys, w).stage.effective)
    ensures e.id == WorkerOf(sys, w).stage.d.id
  {
    var d := WorkerOf(sys, w).stage.d;
    var mine, theirs := WorkerOf(sys, w), WorkerOf(sys, v);
    assert WorkerOk(key, sys.decisions, mine) && WorkerOk(key, sys.decisions, theirs);
    assert Apart(mine, theirs);
    assert key(d.subject) in mine.locks && key(e.subject) in theirs.locks;
    SafeLog(key, sys, v);
    if d.supersedes.Some? && d.supersedes == e.supersedes {
      AppendIsDecidedByChain(key, sys, w);
      var p :| p in Visible(sys, w) && p.id == d.supersedes.value && p.subject == d.subject;
      var q := Predecessor(Visible(sys, v), e);
      SharedPredecessor(key, sys, v, w, p, q);
    }
  }

  ghost predicate SharesAlias(d: Decision, e: Decision) {
    exists a, b :: a in d.aliases && b in e.aliases && a.id == b.id
  }

  /** What a statement waits for: another open transaction that has written the same target row, holds the
      lock of the subject, or has taken the ID or an alias ID of a decision about to be inserted. */
  lemma OnlyRivalsBlock(key: Subject -> int, sys: System, w: int)
    requires Safe(key, sys)
    ensures Blocked(key, sys, w) <==>
      exists v :: v in sys.workers && v != w && Rivals(key, WorkerOf(sys, w).stage, sys.workers[v])
  {
    var stage := WorkerOf(sys, w).stage;
    if stage.Inserting? && Follows(stage.d, stage.effective) {
      forall v, e | v in sys.workers && v != w && e in sys.workers[v].decisions
        ensures RowsClash(stage.d, e) <==> e.id == stage.d.id
      {
        if RowsClash(stage.d, e) { OnlyTakenIdsBlock(key, sys, w, v, e); }
      }
    }
  }

  ghost predicate Rivals(key: Subject -> int, stage: Stage, rival: Worker) {
    match stage
    case Targeting(d) => d.subject in rival.targets
    case Locking(d) => key(d.subject) in rival.locks
    case Inserting(d, effective) =>
      Follows(d, effective) && exists e :: e in rival.decisions && (e.id == d.id || SharesAlias(d, e))
    case _ => false
  }

  /** Rows with one ID that two transactions see are the same committed row. */
  lemma SharedPredecessor(key: Subject -> int, sys: System, v: int, w: int, p: Decision, q: Decision)
    requires Safe(key, sys) && v != w && p in Visible(sys, w) && q in Visible(sys, v) && p.id == q.id
    ensures p == q
  {
    SafeLog(key, sys, v);
    SafeLog(key, sys, w);
    assert Apart(WorkerOf(sys, w), WorkerOf(sys, v));
    UniqueIdsOfAppend(sys.decisions, WorkerOf(sys, w).decisions);
    UniqueIdsOfAppend(sys.decisions, WorkerOf(sys, v).decisions);
  }

  // ---- automatic authority ----

  /** One candidate row of the proposal is marked as the unique exact work e-mail, it names the entity of
      the decision, and the decision accepts it first of all with one alias: the grounded, valid e-mail. */
  ghost predicate GroundsAutomatic(evidence: Evidence, d: Decision) {
    && d.subject.Proposal? && d.outcome == Accepted && d.supersedes == None
    && (var marked := set c | c in evidence.candidates && c.proposalId == d.subject.proposalId && c.uniqueExactWorkEmail;
        |marked| == 1 && forall c | c in marked :: c.entityId == d.entityId)
    && d.subject.proposalId in evidence.emails
    && (var email := evidence.emails[d.subject.proposalId];
        email.grounded && email.valid && |d.aliases| == 1 && forall a | a in d.aliases :: a.value == email.normalized)
  }

  lemma OneMarked(candidates: set<Candidate>, entityId: string)
    ensures (exists c | c in candidates :: candidates == {c} && c.entityId == entityId) <==>
            |candidates| == 1 && forall c | c in candidates :: c.entityId == entityId
  {
    if |candidates| == 1 {
      var c :| c in candidates;
      assert |candidates - {c}| == 0;
      assert candidates == {c};
    }
  }

  lemma GroundsAreAllowed(evidence: Evidence, d: Decision)
    ensures d.subject.Proposal? && AutomaticAllowed(evidence, d) <==> GroundsAutomatic(evidence, d)
  {
    if d.subject.Proposal? {
      var exact := ExactCandidates(evidence, d.subject.proposalId);
      OneMarked(exact, d.entityId);
      OneAlias(d.aliases);
      assert (exists c | c in evidence.candidates :: exact == {c} && c.entityId == d.entityId) <==>
             (exists c | c in exact :: exact == {c} && c.entityId == d.entityId);
    }
  }

  /** Some statement of the run saw the evidence that an automatic resolution decision needs. */
  ghost predicate Grounded(actions: seq<Action>, d: Decision) {
    d.id.table.Resolutions? && d.authority.Automatic? ==>
      exists a :: a in actions && a.Execution? && GroundsAutomatic(a.evidence, d)
  }

  ghost predicate GroundedWorker(actions: seq<Action>, worker: Worker) {
    && (forall d | d in worker.decisions :: Grounded(actions, d))
    && (worker.stage.Loading? || worker.stage.Inserting? ==> Grounded(actions, worker.stage.d))
  }

  ghost predicate GroundedSystem(actions: seq<Action>, sys: System) {
    (forall d | d in sys.decisions :: Grounded(actions, d)) && forall w :: GroundedWorker(actions, WorkerOf(sys, w))
  }

  lemma GroundedLater(actions: seq<Action>, next: Action, d: Decision)
    requires Grounded(actions, d)
    ensures Grounded(actions + [next], d)
  {
    if d.id.table.Resolutions? && d.authority.Automatic? {
      var a :| a in actions && a.Execution? && GroundsAutomatic(a.evidence, d);
      assert a in actions + [next];
    }
  }

  lemma StatementStaysGrounded(key: Subject -> int, sys: System, w: int, evidence: Evidence, actions: seq<Action>)
    requires GroundedWorker(actions, WorkerOf(sys, w)) && Execution(w, evidence) in actions
    ensures GroundedWorker(actions, Execute(key, sys, w, evidence))
  {
    var worker := WorkerOf(sys, w);
    if worker.stage.Validating? {
      GroundsAreAllowed(evidence, worker.stage.d);
    }
  }

  lemma StepStaysGrounded(key: Subject -> int, sys: System, a: Action, actions: seq<Action>)
    requires GroundedSystem(actions, sys) && a in actions
    ensures GroundedSystem(actions, Step(key, sys, a))
  {
    var next := Step(key, sys, a);
    assert GroundedWorker(actions, WorkerOf(sys, a.w));
    if a.Execution? {
      StatementStaysGrounded(key, sys, a.w, a.evidence, actions);
    }
    forall w ensures GroundedWorker(actions, WorkerOf(next, w)) {
      assert GroundedWorker(actions, WorkerOf(sys, w));
      assert w != a.w ==> WorkerOf(next, w) == WorkerOf(sys, w);
    }
  }

  lemma {:induction false} ReachableIsGrounded(key: Subject -> int, actions: seq<Action>)
    ensures GroundedSystem(actions, Run(key, EMPTY_SYSTEM, actions))
  {
    if actions != [] {
      var earlier, a := actions[..|actions| - 1], actions[|actions| - 1];
      var sys := Run(key, EMPTY_SYSTEM, earlier);
      assert actions == earlier + [a];
      ReachableIsGrounded(key, earlier);
      forall d | Grounded(earlier, d) ensures Grounded(actions, d) { GroundedLater(earlier, a, d); }
      forall w ensures GroundedWorker(actions, WorkerOf(sys, w)) {
        assert GroundedWorker(earlier, WorkerOf(sys, w));
      }
      StepStaysGrounded(key, sys, a, actions);
    }
  }

  /** Every committed automatic resolution decision was grounded by what a statement of the run saw. */
  lemma AutomaticDecisionsAreGrounded(key: Subject -> int, actions: seq<Action>, d: Decision)
    requires d in Run(key, EMPTY_SYSTEM, actions).decisions && d.id.table.Resolutions? && d.authority.Automatic?
    ensures exists a :: a in actions && a.Execution? && GroundsAutomatic(a.evidence, d)
  {
    ReachableIsGrounded(key, actions);
    assert Grounded(actions, d);
  }

  // ---- what is committed ----

  /** What every stored decision has: its own ID, a reason and a time, and at most a predecessor of its table. */
  ghost predicate Recorded(d: Decision) {
    && d.id.id != "" && d.reasonCode != "" && d.recordedAt != ZERO_TIME
    && (d.supersedes.Some? ==> exists id | id != "" && id != d.id.id :: d.supersedes == Some(DecisionId(d.id.table, id)))
  }

  /** A decision about a proposal: a rejection, or an acceptance of one entity with aliases of its own; an
      automatic one is initial and accepts with one e-mail. */
  ghost predicate SoundResolution(d: Decision) {
    && d.subject.Proposal? && d.subject.proposalId != ""
    && ((d.outcome == Accepted && d.entityId != "") || (d.outcome == RejectedProposal && d.entityId == "" && d.aliases == {}))
    && (forall a | a in d.aliases :: a.id != "" && a.decisionId == d.id.id && a.entityId == d.entityId)
    && (forall a, b | a in d.aliases && b in d.aliases && a != b :: a.id != b.id)
    && (d.authority == Reviewer
        || (d.authority == Automatic && d.supersedes == None && d.outcome == Accepted
            && exists a :: d.aliases == {a} && a.aliasType == EmailAlias))
  }

  /** A decision about an admission target, without entity and aliases. */
  ghost predicate SoundAdmission(d: Decision) {
    && d.subject.Target? && d.subject.targetId != "" && d.outcome in {Admitted, Quarantined, Retired}
    && d.entityId == "" && d.aliases == {}
  }

  lemma AuthorizedIsSound(d: Decision)
    ensures Authorized(d) <==> Recorded(d) && if d.id.table == Resolutions then SoundResolution(d) else SoundAdmission(d)
  {
    OneAlias(d.aliases);
    if d.supersedes.Some? {
      assert d.supersedes == Some(DecisionId(d.supersedes.value.table, d.supersedes.value.id));
    }
  }

  /** Whatever is committed by any run is sound. */
  lemma CommittedDecisionsAreSound(key: Subject -> int, actions: seq<Action>, d: Decision)
    requires d in Run(key, EMPTY_SYSTEM, actions).decisions
    ensures Recorded(d) && if d.id.table == Resolutions then SoundResolution(d) else SoundAdmission(d)
  {
    ReachableIsSafe(key, actions);
    SafeLog(key, Run(key, EMPTY_SYSTEM, actions), 0);
    AuthorizedIsSound(d);
  }

  // ---- the log is immutable ----

  lemma {:induction false} LogOnlyGrows(key: Subject -> int, sys: System, actions: seq<Action>)
    ensures sys.decisions <= Run(key, sys, actions).decisions
  {
    if actions != [] {
      LogOnlyGrows(key, sys, actions[..|actions| - 1]);
    }
  }

  /** Appending a committed decision again succeeds at the first statement and writes nothing, after
      whatever else has happened; another decision under its ID is refused there. */
  lemma RetryOfCommittedDecision(key: Subject -> int, actions: seq<Action>, later: seq<Action>, w: int, d: Decision, e: Decision, evidence: Evidence)
    requires d in Run(key, EMPTY_SYSTEM, actions).decisions && e.id == d.id && ValidDecision(e)
    requires WorkerOf(Run(key, Run(key, EMPTY_SYSTEM, actions), later), w).stage.Idle?
    ensures
      var sys := Run(key, Run(key, EMPTY_SYSTEM, actions), later);
      var worker := WorkerOf(sys, w);
      Run(key, sys, [Begin(w, e), Execution(w, evidence)])
        == WithWorker(sys, w, worker.(stage := if e == d then Idle else Failed))
  {
    var first := Run(key, EMPTY_SYSTEM, actions);
    var sys := Run(key, first, later);
    LogOnlyGrows(key, first, later);
    ActionsCompose(key, EMPTY_SYSTEM, actions, later);
    ReachableIsSafe(key, actions + later);
    SafeLog(key, sys, w);
    assert d in Visible(sys, w);
    RetryOfVisibleDecision(key, sys, w, d, e, evidence);
  }

  lemma RetryOfVisibleDecision(key: Subject -> int, sys: System, w: int, d: Decision, e: Decision, evidence: Evidence)
    requires UniqueIds(Visible(sys, w)) && d in Visible(sys, w) && e.id == d.id && ValidDecision(e)
    requires WorkerOf(sys, w).stage.Idle?
    ensures Run(key, sys, [Begin(w, e), Execution(w, evidence)])
      == WithWorker(sys, w, WorkerOf(sys, w).(stage := if e == d then Idle else Failed))
  {
    var begun := Step(key, sys, Begin(w, e));
    assert begun == WithWorker(sys, w, WorkerOf(sys, w).(stage := Checking(e)));
    RetryStatement(key, begun, w, d, e, evidence);
    TwoSteps(key, sys, Begin(w, e), Execution(w, evidence));
  }

  lemma RetryStatement(key: Subject -> int, begun: System, w: int, d: Decision, e: Decision, evidence: Evidence)
    requires UniqueIds(Visible(begun, w)) && d in Visible(begun, w) && e.id == d.id
    requires WorkerOf(begun, w).stage == Checking(e)
    ensures Step(key, begun, Execution(w, evidence))
      == WithWorker(begun, w, WorkerOf(begun, w).(stage := if e == d then Idle else Failed))
  {
    assert e in Visible(begun, w) ==> e == d;
  }

  lemma TwoSteps(key: Subject -> int, sys: System, a: Action, b: Action)
    ensures Run(key, sys, [a, b]) == Step(key, Step(key, sys, a), b)
  {
    assert [a, b][..1] == [a];
    assert Run(key, sys, [a]) == Step(key, sys, a) by {
      assert [a][..0] == [];
    }
  }

  lemma {:induction false} ActionsCompose(key: Subject -> int, sys: System, earlier: seq<Action>, later: seq<Action>)
    ensures Run(key, sys, earlier + later) == Run(key, Run(key, sys, earlier), later)
  {
    if later == [] {
      assert earlier + later == earlier;
    } else {
      var init, last := later[..|later| - 1], later[|later| - 1];
      ActionsCompose(key, sys, earlier, init);
      assert later == init + [last] && earlier + later == earlier + init + [last];
      OneMoreAction(key, sys, earlier + init, last);
      OneMoreAction(key, Run(key, sys, earlier), init, last);
    }
  }

  lemma OneMoreAction(key: Subject -> int, sys: System, actions: seq<Action>, next: Action)
    ensures Run(key, sys, actions + [next]) == Step(key, Run(key, sys, actions), next)
  {
    assert (actions + [next])[..|actions|] == actions;
  }
}
