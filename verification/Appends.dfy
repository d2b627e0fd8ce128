/** Appending authority decisions, statement by statement (AppendAdmissionDecision in
    adapters/postgres/admission.go, AppendResolutionDecision in adapters/postgres/identity.go).

    Any number of workers run transactions under READ COMMITTED: a statement sees the committed rows and
    the rows of its own transaction. The advisory lock of a subject is held until the transaction ends. */
module Appends {
  import opened Results
  import opened Observations
  import opened Decisions

  /** A transaction between two statements. `Failed` has returned an error to its callback, which passes
      it on, so all it can still do is roll back. */
  datatype Stage =
    | Idle
    | Checking(d: Decision)
    | Targeting(d: Decision)
    | Locking(d: Decision)
    | Locating(d: Decision)
    | Rechecking(d: Decision)
    | Validating(d: Decision)
    | Loading(d: Decision)
    | Inserting(d: Decision, effective: Option<Decision>)
    | Failed

  /** The rows and locks of one uncommitted transaction. */
  datatype Worker = Worker(stage: Stage, decisions: seq<Decision>, targets: map<Subject, Time>, locks: set<int>)

  const NEW_WORKER := Worker(Idle, [], map[], {})

  datatype System = System(decisions: seq<Decision>, targets: map<Subject, Time>, workers: map<int, Worker>)

  const EMPTY_SYSTEM := System([], map[], map[])

  datatype Candidate = Candidate(id: string, proposalId: string, entityId: string, uniqueExactWorkEmail: bool)

  /** The proposed e-mail of a proposal's mention, after normalization. */
  datatype MentionEmail = MentionEmail(normalized: string, valid: bool, grounded: bool)

  /** What a statement sees of the rows that appends only read. */
  datatype Evidence = Evidence(proposals: set<string>, candidates: set<Candidate>, emails: map<string, MentionEmail>)

  function WorkerOf(sys: System, w: int): Worker {
    if w in sys.workers then sys.workers[w] else NEW_WORKER
  }

  function Visible(sys: System, w: int): seq<Decision> {
    sys.decisions + WorkerOf(sys, w).decisions
  }

  function VisibleTargets(sys: System, w: int): map<Subject, Time> {
    sys.targets + WorkerOf(sys, w).targets
  }

  // ---- statements ----

  datatype Retry = NoSuchDecision | SameDecision | DifferentDecision

  /** exactAdmissionDecisionRetry, exactResolutionDecisionRetry */
  function ExactRetry(log: seq<Decision>, d: Decision): Retry {
    if d in log then SameDecision
    else if exists e | e in log :: e.id == d.id then DifferentDecision
    else NoSuchDecision
  }

  function ExactCandidates(evidence: Evidence, proposalId: string): set<Candidate> {
    set c | c in evidence.candidates && c.proposalId == proposalId && c.uniqueExactWorkEmail
  }

  /** What validateAutomaticResolutionAuthority grants: an initial acceptance of the entity that the one
      unique-exact-work-email candidate of the proposal names, asserting the one alias that is the
      grounded, valid e-mail of its mention. */
  predicate AutomaticAllowed(evidence: Evidence, d: Decision)
    requires d.subject.Proposal?
  {
    var p := d.subject.proposalId;
    && d.outcome.Accepted? && d.supersedes.None?
    && (exists c | c in evidence.candidates :: ExactCandidates(evidence, p) == {c} && c.entityId == d.entityId)
    && p in evidence.emails && evidence.emails[p].grounded && evidence.emails[p].valid
    && (exists a | a in d.aliases :: d.aliases == {a} && a.value == evidence.emails[p].normalized)
  }

  lemma OneAlias(aliases: set<AliasAssertion>)
    ensures |aliases| == 1 <==> exists a | a in aliases :: aliases == {a}
  {
    if |aliases| == 1 {
      var a :| a in aliases;
      assert |aliases - {a}| == 0;
      assert aliases == {a};
    }
  }

  /** The switch on the effective decision. */
  predicate Follows(d: Decision, effective: Option<Decision>) {
    match d.supersedes
    case None => effective.None?
    case Some(p) => effective.Some? && effective.value.id == p && d.authority.Reviewer?
  }

  /** Two decision rows that the primary key, one_initial or one_successor keeps apart. */
  predicate RowsClash(d: Decision, e: Decision) {
    || d.id == e.id
    || (d.supersedes.None? && e.supersedes.None? && d.subject == e.subject)
    || (d.supersedes.Some? && d.supersedes == e.supersedes)
  }

  /** The primary key of the alias rows. */
  predicate AliasesClash(d: Decision, e: Decision) {
    exists a, b | a in d.aliases && b in e.aliases :: a.id == b.id
  }

  /** UNIQUE (decision_id, alias_type, alias_value) */
  predicate DistinctAliases(d: Decision) {
    forall a, b | a in d.aliases && b in d.aliases && a.aliasType == b.aliasType && a.value == b.value :: a == b
  }

  /** The constraints let the decision and its aliases in. */
  predicate Insertable(log: seq<Decision>, d: Decision) {
    && DistinctAliases(d)
    && (forall e | e in log :: !RowsClash(d, e) && !AliasesClash(d, e))
    && (d.supersedes.Some? ==> exists e | e in log :: e.id == d.supersedes.value)
  }

  /** The worker after its next statement; a statement writes nothing outside its transaction. */
  function Execute(key: Subject -> int, sys: System, w: int, evidence: Evidence): Worker {
    var worker := WorkerOf(sys, w);
    var log := Visible(sys, w);
    match worker.stage
    case Checking(d) =>
      worker.(stage := match ExactRetry(log, d)
                       case SameDecision => Idle
                       case DifferentDecision => Failed
                       case NoSuchDecision => if d.id.table.Admissions? then Targeting(d) else Locking(d))
    case Targeting(d) =>
      var inserted := if d.subject in VisibleTargets(sys, w) then map[] else map[d.subject := d.recordedAt];
      worker.(stage := Locking(d), targets := worker.targets + inserted)
    case Locking(d) => worker.(stage := Locating(d), locks := worker.locks + {key(d.subject)})
    case Locating(d) =>
      var found := if d.subject.Target? then d.subject in VisibleTargets(sys, w) else d.subject.proposalId in evidence.proposals;
      worker.(stage := if found then Rechecking(d) else Failed)
    case Rechecking(d) =>
      worker.(stage := match ExactRetry(log, d)
                       case SameDecision => Idle
                       case DifferentDecision => Failed
                       case NoSuchDecision =>
                         if d.id.table.Resolutions? && d.authority.Automatic? then Validating(d) else Loading(d))
    case Validating(d) =>
      worker.(stage := if d.subject.Proposal? && AutomaticAllowed(evidence, d) then Loading(d) else Failed)
    case Loading(d) => worker.(stage := Inserting(d, EffectiveRow(log, d.subject, |log|)))
    case Inserting(d, effective) =>
      if Follows(d, effective) && Insertable(log, d) then worker.(stage := Idle, decisions := worker.decisions + [d])
      else worker.(stage := Failed)
    case _ => worker
  }

  /** The next statement waits for another transaction to end. */
  predicate Blocked(key: Subject -> int, sys: System, w: int) {
    match WorkerOf(sys, w).stage
    case Targeting(d) => exists v | v in sys.workers :: v != w && d.subject in sys.workers[v].targets
    case Locking(d) => exists v | v in sys.workers :: v != w && key(d.subject) in sys.workers[v].locks
    case Inserting(d, effective) =>
      Follows(d, effective) &&
      exists v | v in sys.workers :: v != w &&
        exists e | e in sys.workers[v].decisions :: RowsClash(d, e) || AliasesClash(d, e)
    case _ => false
  }

  // ---- runs ----

  datatype Action =
    | Begin(w: int, d: Decision)
    | Execution(w: int, evidence: Evidence)
    | Commit(w: int)
    | Abort(w: int)

  function WithWorker(sys: System, w: int, worker: Worker): System {
    sys.(workers := sys.workers[w := worker])
  }

  /** One step of one worker; an action that is not enabled changes nothing. */
  function Step(key: Subject -> int, sys: System, a: Action): System {
    match a
    case Begin(w, d) =>
      if WorkerOf(sys, w).stage.Idle? then
        WithWorker(sys, w, WorkerOf(sys, w).(stage := if ValidDecision(d) then Checking(d) else Failed))
      else sys
    case Execution(w, evidence) =>
      if Blocked(key, sys, w) then sys else WithWorker(sys, w, Execute(key, sys, w, evidence))
    case Commit(w) =>
      if WorkerOf(sys, w).stage.Idle? then
        System(Visible(sys, w), VisibleTargets(sys, w), sys.workers[w := NEW_WORKER])
      else sys
    case Abort(w) => WithWorker(sys, w, NEW_WORKER)
  }

  /** Any interleaving of any number of transactions. */
  function Run(key: Subject -> int, sys: System, actions: seq<Action>): System {
    if actions == [] then sys
    else Step(key, Run(key, sys, actions[..|actions| - 1]), actions[|actions| - 1])
  }
}
