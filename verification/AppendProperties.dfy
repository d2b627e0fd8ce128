/** Supersession chains stay linear under every interleaving of appending transactions. */
module AppendProperties {
  import opened Results
  import opened Decisions
  import opened Appends

  // ---- the invariant ----

  /** What authority a stored decision may have: automatic identity authority is initial, accepting and
      asserts the one source-grounded e-mail. */
  predicate Authorized(d: Decision) {
    && ValidDecision(d)
    && (d.id.table.Resolutions? && d.authority.Automatic? ==>
          d.supersedes.None? && d.outcome.Accepted? && |d.aliases| == 1)
  }

  ghost predicate StageOk(key: Subject -> int, log: seq<Decision>, worker: Worker) {
    match worker.stage
    case Idle | Failed => true
    case Checking(d) => ValidDecision(d)
    case Targeting(d) => ValidDecision(d) && d.id.table.Admissions?
    case Locking(d) => ValidDecision(d)
    case Locating(d) => ValidDecision(d) && key(d.subject) in worker.locks
    case Rechecking(d) => ValidDecision(d) && key(d.subject) in worker.locks
    case Validating(d) => ValidDecision(d) && key(d.subject) in worker.locks
    case Loading(d) => Authorized(d) && key(d.subject) in worker.locks
    case Inserting(d, effective) =>
      Authorized(d) && key(d.subject) in worker.locks && effective == LastOf(Chain(log + worker.decisions, d.subject))
  }

  ghost predicate AllAuthorized(log: seq<Decision>) {
    forall d | d in log :: Authorized(d)
  }

  ghost predicate Guarded(key: Subject -> int, worker: Worker) {
    forall d | d in worker.decisions :: key(d.subject) in worker.locks
  }

  ghost predicate WorkerOk(key: Subject -> int, log: seq<Decision>, worker: Worker) {
    && Linear(log + worker.decisions) && AllAuthorized(log + worker.decisions)
    && Guarded(key, worker) && StageOk(key, log, worker)
  }

  ghost predicate NewIds(log: seq<Decision>, more: seq<Decision>) {
    forall d, e | d in log && e in more :: d.id != e.id
  }

  /** Two transactions share no lock and no decision ID. */
  ghost predicate Apart(a: Worker, b: Worker) {
    a.locks !! b.locks && NewIds(a.decisions, b.decisions)
  }

  ghost predicate Safe(key: Subject -> int, sys: System) {
    && (forall w :: WorkerOk(key, sys.decisions, WorkerOf(sys, w)))
    && (forall v, w | v != w :: Apart(WorkerOf(sys, v), WorkerOf(sys, w)))
  }

  // ---- growing a linear log ----

  lemma UniqueIdsOfAppend(a: seq<Decision>, b: seq<Decision>)
    ensures UniqueIds(a + b) <==> UniqueIds(a) && UniqueIds(b) && NewIds(a, b)
  {
    var c := a + b;
    if UniqueIds(c) {
      forall i, j | 0 <= i < j < |b| ensures b[i].id != b[j].id {
        assert c[|a| + i].id != c[|a| + j].id;
      }
      forall i, j | 0 <= i < j < |a| ensures a[i].id != a[j].id {
        assert c[i].id != c[j].id;
      }
      forall d, e | d in a && e in b ensures d.id != e.id {
        var i :| 0 <= i < |a| && a[i] == d;
        var j :| 0 <= j < |b| && b[j] == e;
        assert c[i].id != c[|a| + j].id;
      }
    }
  }

  lemma LinearWithNext(log: seq<Decision>, d: Decision)
    requires Linear(log) && NewIds(log, [d]) && Follows(d, LastOf(Chain(log, d.subject)))
    ensures Linear(log + [d])
  {
    UniqueIdsOfAppend(log, [d]);
    forall s ensures Linked(Chain(log + [d], s)) {
      assert (log + [d])[..|log + [d]| - 1] == log;
      var c := Chain(log, s);
      if s == d.subject {
        forall i ensures LinkAt(c + [d], i) {
          assert LinkAt(c, i);
        }
      } else {
        assert c + [] == c;
      }
    }
  }

  lemma ChainIsEmpty(log: seq<Decision>, s: Subject)
    ensures Chain(log, s) == [] <==> forall d | d in log :: d.subject != s
  {
    ChainMembers(log, s);
    assert Chain(log, s) != [] ==> Chain(log, s)[0] in Chain(log, s);
  }

  /** The chains of two extensions of one log that touch different subjects. */
  lemma ChainOfMerge(log: seq<Decision>, a: seq<Decision>, b: seq<Decision>, s: Subject)
    requires forall d, e | d in a && e in b :: d.subject != e.subject
    ensures Chain(log + a + b, s) == if Chain(a, s) == [] then Chain(log + b, s) else Chain(log + a, s)
    ensures Chain(a, s) == [] || Chain(b, s) == []
  {
    ChainOfAppend(log + a, b, s);
    ChainOfAppend(log, a, s);
    ChainOfAppend(log, b, s);
    ChainIsEmpty(a, s);
    ChainIsEmpty(b, s);
  }

  lemma LinearMerge(log: seq<Decision>, a: seq<Decision>, b: seq<Decision>)
    requires Linear(log + a) && Linear(log + b) && NewIds(a, b)
    requires forall d, e | d in a && e in b :: d.subject != e.subject
    ensures Linear(log + a + b)
  {
    UniqueIdsOfAppend(log, a);
    UniqueIdsOfAppend(log, b);
    assert NewIds(log + a, b);
    UniqueIdsOfAppend(log + a, b);
    forall s ensures Linked(Chain(log + a + b, s)) {
      ChainOfMerge(log, a, b, s);
      assert Linked(Chain(log + a, s)) && Linked(Chain(log + b, s));
    }
  }

  // ---- statements keep the invariant ----

  lemma LoadingKeepsOk(key: Subject -> int, log: seq<Decision>, worker: Worker, d: Decision)
    requires WorkerOk(key, log, worker) && worker.stage == Loading(d)
    ensures
      var seen := log + worker.decisions;
      WorkerOk(key, log, worker.(stage := Inserting(d, EffectiveRow(seen, d.subject, |seen|))))
  {
    EffectiveRowIsLast(log + worker.decisions, d.subject);
  }

  lemma InsertingKeepsOk(key: Subject -> int, log: seq<Decision>, worker: Worker, d: Decision, effective: Option<Decision>)
    requires WorkerOk(key, log, worker) && worker.stage == Inserting(d, effective)
    requires Follows(d, effective) && Insertable(log + worker.decisions, d)
    ensures WorkerOk(key, log, worker.(stage := Idle, decisions := worker.decisions + [d]))
  {
    var seen := log + worker.decisions;
    assert NewIds(seen, [d]) by {
      forall e | e in seen ensures e.id != d.id {
        assert !RowsClash(d, e);
      }
    }
    LinearWithNext(seen, d);
    assert seen + [d] == log + (worker.decisions + [d]);
  }

  lemma StatementKeepsOk(key: Subject -> int, sys: System, w: int, evidence: Evidence)
    requires WorkerOk(key, sys.decisions, WorkerOf(sys, w))
    ensures WorkerOk(key, sys.decisions, Execute(key, sys, w, evidence))
  {
    var worker := WorkerOf(sys, w);
    match worker.stage
    case Loading(d) => LoadingKeepsOk(key, sys.decisions, worker, d);
    case Inserting(d, effective) =>
      if Follows(d, effective) && Insertable(Visible(sys, w), d) {
        InsertingKeepsOk(key, sys.decisions, worker, d, effective);
      }
    case _ =>
  }

  lemma StatementKeepsApart(key: Subject -> int, sys: System, w: int, evidence: Evidence, v: int)
    requires !Blocked(key, sys, w) && v != w && Apart(WorkerOf(sys, v), WorkerOf(sys, w))
    ensures Apart(WorkerOf(sys, v), Execute(key, sys, w, evidence))
    ensures Apart(Execute(key, sys, w, evidence), WorkerOf(sys, v))
  {
    var other, worker := WorkerOf(sys, v), WorkerOf(sys, w);
    match worker.stage
    case Inserting(d, effective) =>
      if Follows(d, effective) {
        forall e | e in other.decisions ensures e.id != d.id {
          assert !RowsClash(d, e);
        }
      }
    case _ =>
  }

  // ---- commit keeps the invariant ----

  lemma DistinctSubjects(key: Subject -> int, a: Worker, b: Worker)
    requires Guarded(key, a) && Guarded(key, b) && a.locks !! b.locks
    ensures forall d, e | d in a.decisions && e in b.decisions :: d.subject != e.subject
  {
    forall d, e | d in a.decisions && e in b.decisions ensures d.subject != e.subject {
      assert key(d.subject) in a.locks && key(e.subject) in b.locks;
    }
  }

  lemma CommitKeepsOk(key: Subject -> int, log: seq<Decision>, done: Worker, other: Worker)
    requires WorkerOk(key, log, done) && WorkerOk(key, log, other) && Apart(done, other)
    ensures WorkerOk(key, log + done.decisions, other)
  {
    DistinctSubjects(key, done, other);
    LinearMerge(log, done.decisions, other.decisions);
    if other.stage.Inserting? {
      var s := other.stage.d.subject;
      ChainOfMerge(log, done.decisions, other.decisions, s);
      ChainIsEmpty(done.decisions, s);
    }
  }

  lemma {:induction false} StepKeepsSafe(key: Subject -> int, sys: System, a: Action)
    requires Safe(key, sys)
    ensures Safe(key, Step(key, sys, a))
  {
    var next := Step(key, sys, a);
    forall w ensures WorkerOk(key, next.decisions, WorkerOf(next, w)) {
      WorkerStaysOk(key, sys, a, w);
    }
    forall v, w | v != w ensures Apart(WorkerOf(next, v), WorkerOf(next, w)) {
      WorkersStayApart(key, sys, a, v, w);
    }
  }

  lemma NewWorkerOk(key: Subject -> int, log: seq<Decision>)
    requires Linear(log) && AllAuthorized(log)
    ensures WorkerOk(key, log, NEW_WORKER)
  {
    assert log + [] == log;
  }

  lemma PrefixIsLinear(log: seq<Decision>, more: seq<Decision>)
    requires Linear(log + more)
    ensures Linear(log)
  {
    UniqueIdsOfAppend(log, more);
    forall s ensures Linked(Chain(log, s)) {
      ChainOfAppend(log, more, s);
      var c := Chain(log + more, s);
      forall i ensures LinkAt(Chain(log, s), i) {
        assert LinkAt(c, i);
      }
    }
  }

  lemma LogIsLinear(key: Subject -> int, log: seq<Decision>, worker: Worker)
    requires WorkerOk(key, log, worker)
    ensures Linear(log) && AllAuthorized(log)
  {
    PrefixIsLinear(log, worker.decisions);
  }

  lemma WorkerStaysOk(key: Subject -> int, sys: System, a: Action, w: int)
    requires Safe(key, sys)
    ensures var next := Step(key, sys, a); WorkerOk(key, next.decisions, WorkerOf(next, w))
  {
    assert WorkerOk(key, sys.decisions, WorkerOf(sys, w));
    LogIsLinear(key, sys.decisions, WorkerOf(sys, w));
    NewWorkerOk(key, sys.decisions);
    match a
    case Begin(_, _) =>
    case Execution(v, evidence) =>
      if v == w {
        StatementKeepsOk(key, sys, w, evidence);
      }
    case Commit(v) =>
      var done := WorkerOf(sys, v);
      assert WorkerOk(key, sys.decisions, done);
      if v == w {
        NewWorkerOk(key, sys.decisions + done.decisions);
      } else {
        assert Apart(done, WorkerOf(sys, w));
        CommitKeepsOk(key, sys.decisions, done, WorkerOf(sys, w));
      }
    case Abort(_) =>
  }

  lemma WorkersStayApart(key: Subject -> int, sys: System, a: Action, v: int, w: int)
    requires Safe(key, sys) && v != w
    ensures var next := Step(key, sys, a); Apart(WorkerOf(next, v), WorkerOf(next, w))
  {
    assert Apart(WorkerOf(sys, v), WorkerOf(sys, w)) && Apart(WorkerOf(sys, w), WorkerOf(sys, v));
    match a
    case Execution(u, evidence) =>
      if u == w && !Blocked(key, sys, w) {
        StatementKeepsApart(key, sys, w, evidence, v);
      } else if u == v && !Blocked(key, sys, v) {
        StatementKeepsApart(key, sys, v, evidence, w);
      }
    case _ =>
  }

  /** The invariant holds in every state any interleaving reaches, whatever subjects share a lock key. */
  lemma {:induction false} ReachableIsSafe(key: Subject -> int, actions: seq<Action>)
    ensures Safe(key, Run(key, EMPTY_SYSTEM, actions))
  {
    if actions == [] {
      NewWorkerOk(key, []);
    } else {
      ReachableIsSafe(key, actions[..|actions| - 1]);
      StepKeepsSafe(key, Run(key, EMPTY_SYSTEM, actions[..|actions| - 1]), actions[|actions| - 1]);
    }
  }
}
