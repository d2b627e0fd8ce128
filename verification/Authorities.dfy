/** The authority tables and the open transactions on them. Each method is one statement of
    AppendAdmissionDecision or AppendResolutionDecision (adapters/postgres/admission.go,
    adapters/postgres/identity.go); other transactions may run between any two of them. */
module Authorities {
  import opened Results
  import opened Observations
  import opened Decisions
  import opened Appends
  import opened AppendProperties
  import opened ChainSafety

  class AuthorityTables {
    var decisions: seq<Decision>
    var targets: map<Subject, Time>
    var workers: map<int, Worker>
    /** The pair of 32-bit hashes that pg_advisory_xact_lock takes; subjects may collide. */
    const key: Subject -> int

    constructor (key: Subject -> int)
      ensures State() == EMPTY_SYSTEM && this.key == key
    {
      decisions, targets, workers := [], map[], map[];
      this.key := key;
    }

    function State(): System
      reads this
    {
      System(decisions, targets, workers)
    }

    method BeginAppend(w: int, d: Decision)
      requires WorkerOf(State(), w).stage.Idle?
      modifies this`workers
      ensures State() == Step(key, old(State()), Begin(w, d))
    {
      var worker := WorkerOf(State(), w);
      workers := workers[w := worker.(stage := if ValidDecision(d) then Checking(d) else Failed)];
    }

    /** exactAdmissionDecisionRetry and exactResolutionDecisionRetry, before and after taking the lock:
        the row with the decision's ID is loaded and compared. */
    method CheckExactRetry(w: int, evidence: Evidence)
      requires WorkerOf(State(), w).stage.Checking? || WorkerOf(State(), w).stage.Rechecking?
      requires UniqueIds(Visible(State(), w))
      modifies this`workers
      ensures State() == Step(key, old(State()), Execution(w, evidence))
    {
      var worker := WorkerOf(State(), w);
      var d := worker.stage.d;
      var log := decisions + worker.decisions;
      var i := 0;
      while i < |log| && log[i].id != d.id
        invariant 0 <= i <= |log| && forall j | 0 <= j < i :: log[j].id != d.id
      {
        i := i + 1;
      }
      if i < |log| {
        workers := workers[w := worker.(stage := if log[i] == d then Idle else Failed)];
      } else if worker.stage.Checking? {
        workers := workers[w := worker.(stage := if d.id.table.Admissions? then Targeting(d) else Locking(d))];
      } else if d.id.table.Resolutions? && d.authority.Automatic? {
        workers := workers[w := worker.(stage := Validating(d))];
      } else {
        workers := workers[w := worker.(stage := Loading(d))];
      }
    }

    /** INSERT ... ON CONFLICT (target_kind, target_id) DO NOTHING */
    method InsertTarget(w: int, evidence: Evidence)
      requires WorkerOf(State(), w).stage.Targeting? && !Blocked(key, State(), w)
      modifies this`workers
      ensures State() == Step(key, old(State()), Execution(w, evidence))
    {
      var worker := WorkerOf(State(), w);
      var d := worker.stage.d;
      var written := worker.targets;
      if d.subject !in targets && d.subject !in written {
        written := written[d.subject := d.recordedAt];
      }
      assert worker.targets + map[] == worker.targets;
      assert worker.targets + map[d.subject := d.recordedAt] == worker.targets[d.subject := d.recordedAt];
      workers := workers[w := worker.(stage := Locking(d), targets := written)];
    }

    /** pg_advisory_xact_lock */
    method LockSubject(w: int, evidence: Evidence)
      requires WorkerOf(State(), w).stage.Locking? && !Blocked(key, State(), w)
      modifies this`workers
      ensures State() == Step(key, old(State()), Execution(w, evidence))
    {
      var worker := WorkerOf(State(), w);
      var d := worker.stage.d;
      workers := workers[w := worker.(stage := Locating(d), locks := worker.locks + {key(d.subject)})];
    }

    /** The row of the locked target or proposal. */
    method LocateSubject(w: int, evidence: Evidence)
      requires WorkerOf(State(), w).stage.Locating?
      modifies this`workers
      ensures State() == Step(key, old(State()), Execution(w, evidence))
    {
      var worker := WorkerOf(State(), w);
      var d := worker.stage.d;
      var found := match d.subject
        case Target(_, _) => d.subject in targets || d.subject in worker.targets
        case Proposal(proposalId) => proposalId in evidence.proposals;
      workers := workers[w := worker.(stage := if found then Rechecking(d) else Failed)];
    }

    /** validateAutomaticResolutionAuthority: the candidate rows are only counted, once in all and once
        for the entity of the decision. */
    method ValidateAutomaticAuthority(w: int, evidence: Evidence)
      requires WorkerOf(State(), w).stage.Validating?
      modifies this`workers
      ensures State() == Step(key, old(State()), Execution(w, evidence))
      ensures
        var d := old(WorkerOf(State(), w)).stage.d;
        w in workers && workers[w].stage == if GroundsAutomatic(evidence, d) then Loading(d) else Failed
    {
      GroundsAreAllowed(evidence, WorkerOf(State(), w).stage.d);
      var worker := WorkerOf(State(), w);
      var d := worker.stage.d;
      var failed := workers[w := worker.(stage := Failed)];
      if d.subject.Target? || !d.outcome.Accepted? || d.supersedes.Some? {
        workers := failed;
        return;
      }
      if |d.aliases| != 1 {
        OneAlias(d.aliases);
        workers := failed;
        return;
      }
      var proposalId := d.subject.proposalId;
      if proposalId !in evidence.emails {
        workers := failed;
        return;
      }
      var exactCandidates := CountCandidates(evidence, proposalId, None);
      var matchingEntityCandidates := CountCandidates(evidence, proposalId, Some(d.entityId));
      OneCandidate(evidence, proposalId, d.entityId);
      if exactCandidates != 1 || matchingEntityCandidates != 1 {
        workers := failed;
        return;
      }
      OneAlias(d.aliases);
      var alias :| alias in d.aliases;
      var proposed := evidence.emails[proposalId];
      if !proposed.grounded || !proposed.valid || alias.value != proposed.normalized {
        workers := failed;
        return;
      }
      workers := workers[w := worker.(stage := Loading(d))];
    }

    /** loadEffectiveAdmissionDecisionValue, loadEffectiveResolutionDecisionValue */
    method LoadEffective(w: int, evidence: Evidence)
      requires WorkerOf(State(), w).stage.Loading?
      modifies this`workers
      ensures State() == Step(key, old(State()), Execution(w, evidence))
    {
      var worker := WorkerOf(State(), w);
      var d := worker.stage.d;
      var log := decisions + worker.decisions;
      var effective := None;
      for i := 0 to |log|
        invariant effective == EffectiveRow(log, d.subject, i)
      {
        if effective.None? && EffectiveFor(log, d.subject, log[i]) {
          effective := Some(log[i]);
        }
      }
      workers := workers[w := worker.(stage := Inserting(d, effective))];
    }

    /** The checks on the effective decision, and the INSERT of the decision and its aliases. */
    method InsertDecision(w: int, evidence: Evidence)
      requires WorkerOf(State(), w).stage.Inserting? && !Blocked(key, State(), w)
      modifies this`workers
      ensures State() == Step(key, old(State()), Execution(w, evidence))
    {
      var worker := WorkerOf(State(), w);
      var d, effective := worker.stage.d, worker.stage.effective;
      if d.supersedes.None? && effective.Some? {
        workers := workers[w := worker.(stage := Failed)];
      } else if d.supersedes.Some? && effective.None? {
        workers := workers[w := worker.(stage := Failed)];
      } else if d.supersedes.Some? && effective.value.id != d.supersedes.value {
        workers := workers[w := worker.(stage := Failed)];
      } else if d.supersedes.Some? && !d.authority.Reviewer? {
        workers := workers[w := worker.(stage := Failed)];
      } else if !Insertable(decisions + worker.decisions, d) {
        workers := workers[w := worker.(stage := Failed)];
      } else {
        workers := workers[w := worker.(stage := Idle, decisions := worker.decisions + [d])];
      }
    }

    method CommitTransaction(w: int)
      requires WorkerOf(State(), w).stage.Idle?
      modifies this
      ensures State() == Step(key, old(State()), Commit(w))
    {
      var worker := WorkerOf(State(), w);
      decisions, targets := decisions + worker.decisions, targets + worker.targets;
      workers := workers[w := NEW_WORKER];
    }

    method Rollback(w: int)
      modifies this`workers
      ensures State() == Step(key, old(State()), Abort(w))
    {
      workers := workers[w := NEW_WORKER];
    }

    /** From the unlocked retry check until the locked subject is found. */
    method LockForAppend(w: int, d: Decision, evidence: Evidence)
      requires WorkerOf(State(), w).stage == Checking(d) && ValidDecision(d)
      requires UniqueIds(Visible(State(), w)) && Alone(State(), w)
      modifies this`workers
      ensures Alone(State(), w) && w in workers && workers[w].decisions == old(WorkerOf(State(), w)).decisions
      ensures
        var log := old(Visible(State(), w));
        workers[w].stage ==
          if d in log then Idle
          else if ExactRetry(log, d).DifferentDecision? then Failed
          else if d.subject.Proposal? && d.subject.proposalId !in evidence.proposals then Failed
          else Rechecking(d)
    {
      CheckExactRetry(w, evidence);
      if workers[w].stage.Idle? || workers[w].stage.Failed? {
        return;
      }
      if workers[w].stage.Targeting? {
        InsertTarget(w, evidence);
      }
      LockSubject(w, evidence);
      LocateSubject(w, evidence);
    }

    /** From the locked retry check until the effective decision is to be loaded. */
    method RecheckForAppend(w: int, d: Decision, evidence: Evidence)
      requires WorkerOf(State(), w).stage == Rechecking(d) && ValidDecision(d)
      requires UniqueIds(Visible(State(), w)) && Alone(State(), w) && ExactRetry(Visible(State(), w), d).NoSuchDecision?
      modifies this`workers
      ensures Alone(State(), w) && w in workers && workers[w].decisions == old(WorkerOf(State(), w)).decisions
      ensures workers[w].stage ==
        if d.subject.Proposal? && d.authority.Automatic? && !GroundsAutomatic(evidence, d) then Failed else Loading(d)
    {
      CheckExactRetry(w, evidence);
      if workers[w].stage.Validating? {
        ValidateAutomaticAuthority(w, evidence);
      }
    }

    /** From loading the effective decision on. */
    method DecideAppend(w: int, d: Decision, evidence: Evidence)
      requires WorkerOf(State(), w).stage == Loading(d)
      requires Linear(Visible(State(), w)) && Alone(State(), w) && ExactRetry(Visible(State(), w), d).NoSuchDecision?
      modifies this`workers
      ensures Alone(State(), w) && w in workers
      ensures
        var log := old(Visible(State(), w));
        var granted := Unclaimed(log, d) && Next(Chain(log, d.subject), d);
        && workers[w].stage == (if granted then Idle else Failed)
        && workers[w].decisions == old(WorkerOf(State(), w)).decisions + if granted then [d] else []
    {
      ghost var log := Visible(State(), w);
      FollowsChain(log, d);
      EffectiveRowIsLast(log, d.subject);
      LoadEffective(w, evidence);
      InsertDecision(w, evidence);
    }

    /** One whole append while no other transaction is open. It succeeds exactly for a retry of a decision
        already in sight and for a decision the chain of its subject grants, and then adds that decision
        alone. */
    method AppendDecision(w: int, d: Decision, evidence: Evidence) returns (ok: bool)
      requires Linear(Visible(State(), w)) && WorkerOf(State(), w).stage.Idle? && Alone(State(), w)
      modifies this`workers
      ensures Alone(State(), w) && w in workers
      ensures
        var log := old(Visible(State(), w));
        && (ok <==> ValidDecision(d) && (d in log || Granted(log, d, evidence)))
        && workers[w].decisions == old(WorkerOf(State(), w)).decisions + (if ok && d !in log then [d] else [])
        && workers[w].stage == if ok then Idle else Failed
    {
      BeginAppend(w, d);
      if workers[w].stage.Failed? {
        return false;
      }
      LockForAppend(w, d, evidence);
      if workers[w].stage.Idle? || workers[w].stage.Failed? {
        return workers[w].stage.Idle?;
      }
      RecheckForAppend(w, d, evidence);
      if workers[w].stage.Failed? {
        return false;
      }
      DecideAppend(w, d, evidence);
      ok := workers[w].stage.Idle?;
    }
  }

  /** SELECT count(*) over the unique-exact-work-email candidates of a proposal, of one entity if given. */
  method CountCandidates(evidence: Evidence, proposalId: string, entityId: Option<string>) returns (count: nat)
    ensures count == |Counted(ExactCandidates(evidence, proposalId), entityId)|
  {
    count := 0;
    var rest := evidence.candidates;
    ghost var counted: set<Candidate> := {};
    while rest != {}
      invariant rest <= evidence.candidates && count == |counted|
      invariant counted == Counted(ExactCandidates(evidence, proposalId), entityId) - rest
    {
      var c :| c in rest;
      if c.proposalId == proposalId && c.uniqueExactWorkEmail && (entityId.None? || entityId == Some(c.entityId)) {
        count := count + 1;
        counted := counted + {c};
      }
      rest := rest - {c};
    }
    assert counted == Counted(ExactCandidates(evidence, proposalId), entityId);
  }

  ghost function Counted(candidates: set<Candidate>, entityId: Option<string>): set<Candidate> {
    set c | c in candidates && (entityId.None? || entityId == Some(c.entityId))
  }

  /** Both counts are one exactly when the only exact candidate names the entity. */
  lemma OneCandidate(evidence: Evidence, proposalId: string, entityId: string)
    ensures
      var exact := ExactCandidates(evidence, proposalId);
      |Counted(exact, None)| == 1 && |Counted(exact, Some(entityId))| == 1 <==>
      exists c :: c in evidence.candidates && exact == {c} && c.entityId == entityId
  {
    var exact := ExactCandidates(evidence, proposalId);
    assert Counted(exact, None) == exact;
    if |exact| == 1 {
      var c :| c in exact;
      assert |exact - {c}| == 0;
      assert exact == {c} && c in evidence.candidates;
      assert Counted(exact, Some(entityId)) == if c.entityId == entityId then {c} else {};
    }
    if c :| c in evidence.candidates && exact == {c} && c.entityId == entityId {
      assert Counted(exact, Some(entityId)) == {c};
    }
  }

  /** No other transaction is open. */
  predicate Alone(sys: System, w: int) {
    forall v | v in sys.workers && v != w :: sys.workers[v] == NEW_WORKER
  }

  /** No stored row has the decision's ID or one of its aliases. */
  ghost predicate Unclaimed(log: seq<Decision>, d: Decision) {
    DistinctAliases(d) && forall e | e in log :: e.id != d.id && !AliasesClash(d, e)
  }

  /** The chain of its subject grants a decision that is not stored yet. */
  ghost predicate Granted(log: seq<Decision>, d: Decision, evidence: Evidence) {
    && (d.subject.Proposal? ==> d.subject.proposalId in evidence.proposals)
    && (d.subject.Proposal? && d.authority.Automatic? ==> GroundsAutomatic(evidence, d))
    && Unclaimed(log, d)
    && Next(Chain(log, d.subject), d)
  }

  /** d may stand at the end of a chain: as its root, or as a reviewer's correction of its last decision. */
  ghost predicate Next(c: seq<Decision>, d: Decision) {
    match d.supersedes
    case None => c == []
    case Some(p) => c != [] && c[|c| - 1].id == p && d.authority.Reviewer?
  }

  /** For a decision with a new ID the constraints ask nothing beyond the chain's own check. */
  lemma FollowsChain(log: seq<Decision>, d: Decision)
    requires Linear(log)
    ensures Follows(d, LastOf(Chain(log, d.subject))) <==> Next(Chain(log, d.subject), d)
    ensures Follows(d, LastOf(Chain(log, d.subject))) && (forall e | e in log :: e.id != d.id) ==>
      forall e | e in log :: !RowsClash(d, e)
    ensures Follows(d, LastOf(Chain(log, d.subject))) && d.supersedes.Some? ==> exists e :: e in log && e.id == d.supersedes.value
  {
    var c := Chain(log, d.subject);
    ChainMembers(log, d.subject);
    ChainIsEmpty(log, d.subject);
    if c != [] {
      assert c[|c| - 1] in c;
      EffectiveIsLast(log, d.subject, c[|c| - 1]);
    }
  }
}
