/** The rows of admission_targets: written before the lock is taken, yet always in step with the chains. */
module AdmissionTargets {
  import opened Observations
  import opened Decisions
  import opened Appends
  import opened AppendProperties

  /** The worker is between writing the target row of s and inserting a decision about s. */
  predicate InFlight(worker: Worker, s: Subject) {
    (worker.stage.Locking? || worker.stage.Locating? || worker.stage.Rechecking? || worker.stage.Validating?
     || worker.stage.Loading? || worker.stage.Inserting?)
    && worker.stage.d.subject == s
  }

  ghost predicate CommittedTarget(log: seq<Decision>, targets: map<Subject, Time>, s: Subject) {
    var c := Chain(log, s);
    s.Target? ==> if c == [] then s !in targets else s in targets && targets[s] == c[0].recordedAt
  }

  /** A worker that can still commit has written a target row only together with its first decision. */
  ghost predicate WorkerTarget(log: seq<Decision>, targets: map<Subject, Time>, worker: Worker, s: Subject) {
    var c := Chain(log + worker.decisions, s);
    var seen := targets + worker.targets;
    s.Target? && !worker.stage.Failed? ==>
      && (c != [] ==> s in seen && seen[s] == c[0].recordedAt)
      && (c == [] && s in seen ==> InFlight(worker, s) && seen[s] == worker.stage.d.recordedAt)
      && (InFlight(worker, s) ==> s in seen)
  }

  ghost predicate SeparateTargets(sys: System) {
    && (forall w, s :: s in WorkerOf(sys, w).targets ==> s !in sys.targets)
    && (forall v, w, s :: s in WorkerOf(sys, v).targets && s in WorkerOf(sys, w).targets ==> v == w)
  }

  ghost predicate TargetsInStep(sys: System) {
    && (forall s :: CommittedTarget(sys.decisions, sys.targets, s))
    && (forall w, s :: WorkerTarget(sys.decisions, sys.targets, WorkerOf(sys, w), s))
    && SeparateTargets(sys)
  }

  lemma RetryKeepsTarget(log: seq<Decision>, targets: map<Subject, Time>, worker: Worker, d: Decision, s: Subject)
    requires WorkerTarget(log, targets, worker, s) && !worker.stage.Failed? && d in log + worker.decisions
    requires InFlight(worker, s) ==> d.subject == s
    ensures WorkerTarget(log, targets, worker.(stage := Idle), s)
  {
    ChainIsEmpty(log + worker.decisions, s);
  }

  lemma InsertKeepsTarget(log: seq<Decision>, targets: map<Subject, Time>, worker: Worker, s: Subject)
    requires WorkerTarget(log, targets, worker, s) && worker.stage.Inserting?
    ensures WorkerTarget(log, targets, worker.(stage := Idle, decisions := worker.decisions + [worker.stage.d]), s)
  {
    var seen, d := log + worker.decisions, worker.stage.d;
    assert log + (worker.decisions + [d]) == seen + [d];
    ChainOfAppend(seen, [d], s);
    assert Chain([d], s) == if d.subject == s then [d] else [];
  }

  lemma StatementKeepsTarget(key: Subject -> int, sys: System, w: int, evidence: Evidence, s: Subject)
    requires WorkerOf(sys, w).stage.Checking? ==> ConstructedDecision(WorkerOf(sys, w).stage.d)
    requires WorkerTarget(sys.decisions, sys.targets, WorkerOf(sys, w), s)
    ensures WorkerTarget(sys.decisions, sys.targets, Execute(key, sys, w, evidence), s)
  {
    var worker, next := WorkerOf(sys, w), Execute(key, sys, w, evidence);
    match worker.stage
    case Checking(d) =>
      if d in Visible(sys, w) {
        RetryKeepsTarget(sys.decisions, sys.targets, worker, d, s);
      } else {
        AdvanceKeepsTarget(sys.decisions, sys.targets, worker, next, s);
      }
    case Targeting(d) => TargetingKeepsTarget(sys.decisions, sys.targets, worker, next, s);
    case Rechecking(d) =>
      if d in Visible(sys, w) {
        RetryKeepsTarget(sys.decisions, sys.targets, worker, d, s);
      } else {
        AdvanceKeepsTarget(sys.decisions, sys.targets, worker, next, s);
      }
    case Inserting(_, _) => InsertKeepsTarget(sys.decisions, sys.targets, worker, s);
    case _ => AdvanceKeepsTarget(sys.decisions, sys.targets, worker, next, s);
  }

  /** A statement that writes nothing and goes on with the same decision. */
  lemma AdvanceKeepsTarget(log: seq<Decision>, targets: map<Subject, Time>, worker: Worker, next: Worker, s: Subject)
    requires WorkerTarget(log, targets, worker, s) && next.decisions == worker.decisions && next.targets == worker.targets
    requires worker.stage.Failed? ==> next.stage.Failed?
    requires !next.stage.Failed? && s.Target? ==> (InFlight(next, s) <==> InFlight(worker, s))
    requires !next.stage.Failed? && s.Target? && InFlight(worker, s) ==> next.stage.d == worker.stage.d
    ensures WorkerTarget(log, targets, next, s)
  {
  }

  lemma TargetingKeepsTarget(log: seq<Decision>, targets: map<Subject, Time>, worker: Worker, next: Worker, s: Subject)
    requires WorkerTarget(log, targets, worker, s) && worker.stage.Targeting? && next.decisions == worker.decisions
    requires next.stage == Locking(worker.stage.d)
    requires var d := worker.stage.d;
      next.targets == worker.targets + if d.subject in targets + worker.targets then map[] else map[d.subject := d.recordedAt]
    ensures WorkerTarget(log, targets, next, s)
  {
  }

  lemma CommitKeepsTarget(key: Subject -> int, log: seq<Decision>, targets: map<Subject, Time>, done: Worker, other: Worker, s: Subject)
    requires WorkerOk(key, log, done) && WorkerOk(key, log, other) && Apart(done, other) && done.stage.Idle?
    requires CommittedTarget(log, targets, s) && WorkerTarget(log, targets, done, s) && WorkerTarget(log, targets, other, s)
    requires done.targets.Keys !! targets.Keys && other.targets.Keys !! targets.Keys && done.targets.Keys !! other.targets.Keys
    ensures CommittedTarget(log + done.decisions, targets + done.targets, s)
    ensures WorkerTarget(log + done.decisions, targets + done.targets, other, s)
  {
    DistinctSubjects(key, done, other);
    ChainOfMerge(log, done.decisions, other.decisions, s);
    ChainOfAppend(log, done.decisions, s);
    ChainOfAppend(log, other.decisions, s);
  }

  lemma StepKeepsTargets(key: Subject -> int, sys: System, a: Action)
    requires Safe(key, sys) && TargetsInStep(sys)
    ensures TargetsInStep(Step(key, sys, a))
  {
    var next := Step(key, sys, a);
    forall s ensures CommittedTarget(next.decisions, next.targets, s) {
      CommittedStays(key, sys, a, s);
    }
    forall w, s ensures WorkerTarget(next.decisions, next.targets, WorkerOf(next, w), s) {
      WorkerStays(key, sys, a, w, s);
    }
    TargetsStaySeparate(key, sys, a);
  }

  lemma CommittedStays(key: Subject -> int, sys: System, a: Action, s: Subject)
    requires Safe(key, sys) && TargetsInStep(sys)
    ensures var next := Step(key, sys, a); CommittedTarget(next.decisions, next.targets, s)
  {
    assert CommittedTarget(sys.decisions, sys.targets, s);
    if a.Commit? {
      assert WorkerTarget(sys.decisions, sys.targets, WorkerOf(sys, a.w), s);
    }
  }

  lemma WorkerStays(key: Subject -> int, sys: System, a: Action, w: int, s: Subject)
    requires Safe(key, sys) && TargetsInStep(sys)
    ensures var next := Step(key, sys, a); WorkerTarget(next.decisions, next.targets, WorkerOf(next, w), s)
  {
    assert WorkerTarget(sys.decisions, sys.targets, WorkerOf(sys, w), s);
    if a.Execution? {
      ExecutionKeepsTarget(key, sys, a, w, s);
    } else if a.Commit? {
      CommitStepKeepsTarget(key, sys, a, w, s);
    } else if a.Abort? {
      OwnEndKeepsTarget(key, sys, a, s);
    }
  }

  lemma CommitStepKeepsTarget(key: Subject -> int, sys: System, a: Action, w: int, s: Subject)
    requires Safe(key, sys) && TargetsInStep(sys) && a.Commit?
    ensures var next := Step(key, sys, a); WorkerTarget(next.decisions, next.targets, WorkerOf(next, w), s)
  {
    if !WorkerOf(sys, a.w).stage.Idle? {
      assert WorkerTarget(sys.decisions, sys.targets, WorkerOf(sys, w), s);
    } else if a.w == w {
      OwnEndKeepsTarget(key, sys, a, s);
    } else {
      OtherCommit(key, sys, a.w, w, s);
    }
  }

  /** A worker starts its next transaction on the committed rows. */
  lemma OwnEndKeepsTarget(key: Subject -> int, sys: System, a: Action, s: Subject)
    requires Safe(key, sys) && TargetsInStep(sys)
    ensures var next := Step(key, sys, a); WorkerTarget(next.decisions, next.targets, NEW_WORKER, s)
  {
    var next := Step(key, sys, a);
    CommittedStays(key, sys, a, s);
    NewWorkerTarget(next.decisions, next.targets, s);
  }

  lemma ExecutionKeepsTarget(key: Subject -> int, sys: System, a: Action, w: int, s: Subject)
    requires Safe(key, sys) && a.Execution? && WorkerTarget(sys.decisions, sys.targets, WorkerOf(sys, w), s)
    ensures var next := Step(key, sys, a); WorkerTarget(next.decisions, next.targets, WorkerOf(next, w), s)
  {
    if a.w == w {
      assert WorkerOk(key, sys.decisions, WorkerOf(sys, w));
      StatementKeepsTarget(key, sys, w, a.evidence, s);
    }
  }

  lemma OtherCommit(key: Subject -> int, sys: System, v: int, w: int, s: Subject)
    requires Safe(key, sys) && TargetsInStep(sys) && v != w && WorkerOf(sys, v).stage.Idle?
    ensures WorkerTarget(Visible(sys, v), VisibleTargets(sys, v), WorkerOf(sys, w), s)
  {
    var done, other := WorkerOf(sys, v), WorkerOf(sys, w);
    assert WorkerOk(key, sys.decisions, done) && WorkerTarget(sys.decisions, sys.targets, done, s);
    assert WorkerOk(key, sys.decisions, other) && WorkerTarget(sys.decisions, sys.targets, other, s);
    assert CommittedTarget(sys.decisions, sys.targets, s) && Apart(done, other);
    CommitKeepsTarget(key, sys.decisions, sys.targets, done, other, s);
  }

  lemma NewWorkerTarget(log: seq<Decision>, targets: map<Subject, Time>, s: Subject)
    requires CommittedTarget(log, targets, s)
    ensures WorkerTarget(log, targets, NEW_WORKER, s)
  {
    assert log + [] == log;
    assert targets + map[] == targets;
  }

  lemma StatementTargets(key: Subject -> int, sys: System, w: int, evidence: Evidence, s: Subject)
    requires !Blocked(key, sys, w) && s in Execute(key, sys, w, evidence).targets && s !in WorkerOf(sys, w).targets
    ensures s !in sys.targets && forall v | v != w :: s !in WorkerOf(sys, v).targets
  {
  }

  /** A target row of a transaction is in no other transaction and not committed yet. */
  ghost predicate OwnTarget(sys: System, w: int, s: Subject) {
    s in WorkerOf(sys, w).targets ==>
      s !in sys.targets && forall v | v != w :: s !in WorkerOf(sys, v).targets
  }

  lemma TargetsStaySeparate(key: Subject -> int, sys: System, a: Action)
    requires SeparateTargets(sys)
    ensures SeparateTargets(Step(key, sys, a))
  {
    var next := Step(key, sys, a);
    forall w, s ensures OwnTarget(next, w, s) {
      TargetStaysOwn(key, sys, a, w, s);
    }
    forall w, s | s in WorkerOf(next, w).targets ensures s !in next.targets {
      assert OwnTarget(next, w, s);
    }
    forall v, w, s | s in WorkerOf(next, v).targets && s in WorkerOf(next, w).targets ensures v == w {
      assert OwnTarget(next, w, s);
    }
  }

  lemma TargetStaysOwn(key: Subject -> int, sys: System, a: Action, w: int, s: Subject)
    requires SeparateTargets(sys)
    ensures OwnTarget(Step(key, sys, a), w, s)
  {
    var next := Step(key, sys, a);
    if s in WorkerOf(next, w).targets {
      assert s in WorkerOf(sys, w).targets ==> s !in sys.targets;
      if a.Execution? && !Blocked(key, sys, a.w) && s in WorkerOf(next, a.w).targets && s !in WorkerOf(sys, a.w).targets {
        StatementTargets(key, sys, a.w, a.evidence, s);
      }
      forall v | v != w ensures s !in WorkerOf(next, v).targets {
        assert s in WorkerOf(sys, v).targets && s in WorkerOf(sys, w).targets ==> v == w;
      }
      assert a.Commit? ==> s in WorkerOf(sys, a.w).targets && s in WorkerOf(sys, w).targets ==> a.w == w;
    }
  }

  lemma {:induction false} ReachableTargetsAreInStep(key: Subject -> int, actions: seq<Action>)
    ensures TargetsInStep(Run(key, EMPTY_SYSTEM, actions))
  {
    if actions == [] {
      forall w, s ensures WorkerTarget([], map[], WorkerOf(EMPTY_SYSTEM, w), s) {
        NewWorkerTarget([], map[], s);
      }
    } else {
      ReachableIsSafe(key, actions[..|actions| - 1]);
      ReachableTargetsAreInStep(key, actions[..|actions| - 1]);
      StepKeepsTargets(key, Run(key, EMPTY_SYSTEM, actions[..|actions| - 1]), actions[|actions| - 1]);
    }
  }

  /** A target row exists exactly for the targets that have been decided, and carries the recorded time
      of their first decision, although transactions write it before they know they will decide. */
  lemma TargetTimeIsRootTime(key: Subject -> int, actions: seq<Action>, s: Subject)
    requires s.Target?
    ensures
      var sys := Run(key, EMPTY_SYSTEM, actions);
      var c := Chain(sys.decisions, s);
      if c == [] then s !in sys.targets else s in sys.targets && sys.targets[s] == c[0].recordedAt
  {
    ReachableTargetsAreInStep(key, actions);
    assert CommittedTarget(Run(key, EMPTY_SYSTEM, actions).decisions, Run(key, EMPTY_SYSTEM, actions).targets, s);
  }
}
