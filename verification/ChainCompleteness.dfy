/** Exactly which logs appending transactions can commit: chain safety and its converse. */
module ChainCompleteness {
  import opened Observations
  import opened Decisions
  import opened Appends
  import opened AppendProperties
  import opened ChainSafety

  /** No two stored decisions share an alias ID, and none repeats an alias. */
  ghost predicate AliasesApart(log: seq<Decision>) {
    && (forall d | d in log :: DistinctAliases(d))
    && (forall i, j | 0 <= i < |log| && 0 <= j < |log| && i != j :: !AliasesClash(log[i], log[j]))
  }

  ghost predicate NoClash(a: seq<Decision>, b: seq<Decision>) {
    forall d, e | d in a && e in b :: !AliasesClash(d, e) && !AliasesClash(e, d)
  }

  /** Alias IDs are unique over the committed rows and those of each transaction, and over transactions. */
  ghost predicate AliasesSeparate(sys: System) {
    && (forall w :: AliasesApart(Visible(sys, w)))
    && (forall v, w | v != w :: NoClash(WorkerOf(sys, v).decisions, WorkerOf(sys, w).decisions))
  }

  lemma ClashIsSymmetric(d: Decision, e: Decision)
    ensures AliasesClash(d, e) <==> AliasesClash(e, d)
  {
    if a, b :| a in d.aliases && b in e.aliases && a.id == b.id {
      assert b in e.aliases && a in d.aliases && b.id == a.id;
    }
    if a, b :| a in e.aliases && b in d.aliases && a.id == b.id {
      assert b in d.aliases && a in e.aliases && b.id == a.id;
    }
  }

  lemma AliasesOfAppend(a: seq<Decision>, b: seq<Decision>)
    ensures AliasesApart(a + b) <==> AliasesApart(a) && AliasesApart(b) && NoClash(a, b)
  {
    var c := a + b;
    assert forall i | 0 <= i < |a| :: c[i] == a[i];
    assert forall i | 0 <= i < |b| :: c[|a| + i] == b[i];
    if AliasesApart(c) {
      assert forall d | d in a || d in b :: d in c;
      forall i, j | 0 <= i < |b| && 0 <= j < |b| && i != j ensures !AliasesClash(b[i], b[j]) {
        assert !AliasesClash(c[|a| + i], c[|a| + j]);
      }
      forall i, j | 0 <= i < |a| && 0 <= j < |a| && i != j ensures !AliasesClash(a[i], a[j]) {
        assert !AliasesClash(c[i], c[j]);
      }
      forall d, e | d in a && e in b ensures !AliasesClash(d, e) && !AliasesClash(e, d) {
        var i :| 0 <= i < |a| && a[i] == d;
        var j :| 0 <= j < |b| && b[j] == e;
        assert !AliasesClash(c[i], c[|a| + j]) && !AliasesClash(c[|a| + j], c[i]);
      }
    }
  }

  lemma UnclaimedAliases(log: seq<Decision>, d: Decision)
    requires AliasesApart(log) && DistinctAliases(d) && forall e | e in log :: !AliasesClash(d, e)
    ensures AliasesApart(log + [d])
  {
    forall e | e in log {
      ClashIsSymmetric(d, e);
    }
    AliasesOfAppend(log, [d]);
  }

  lemma WorkerAliasesStayApart(key: Subject -> int, sys: System, a: Action, w: int)
    requires AliasesSeparate(sys)
    ensures AliasesApart(Visible(Step(key, sys, a), w))
  {
    var mine := WorkerOf(sys, w).decisions;
    assert AliasesApart(Visible(sys, w));
    AliasesOfAppend(sys.decisions, mine);
    assert sys.decisions + [] == sys.decisions;
    match a
    case Execution(v, evidence) =>
      if v == w {
        ExecutedAliasesStayApart(key, sys, w, evidence);
      }
    case Commit(v) =>
      var theirs := WorkerOf(sys, v).decisions;
      assert AliasesApart(Visible(sys, v));
      assert sys.decisions + theirs + [] == sys.decisions + theirs;
      if v != w {
        assert NoClash(theirs, mine);
        MergedAliases(sys.decisions, theirs, mine);
      }
    case _ =>
  }

  lemma ExecutedAliasesStayApart(key: Subject -> int, sys: System, w: int, evidence: Evidence)
    requires AliasesApart(Visible(sys, w))
    ensures AliasesApart(sys.decisions + Execute(key, sys, w, evidence).decisions)
  {
    var mine := WorkerOf(sys, w).decisions;
    if Execute(key, sys, w, evidence).decisions != mine {
      var d := WorkerOf(sys, w).stage.d;
      assert sys.decisions + (mine + [d]) == Visible(sys, w) + [d];
      UnclaimedAliases(Visible(sys, w), d);
    }
  }

  lemma MergedAliases(log: seq<Decision>, a: seq<Decision>, b: seq<Decision>)
    requires AliasesApart(log + a) && AliasesApart(log + b) && NoClash(a, b)
    ensures AliasesApart(log + a + b)
  {
    AliasesOfAppend(log, a);
    AliasesOfAppend(log, b);
    AliasesOfAppend(log + a, b);
  }

  lemma InsertedAliasesAreUnclaimed(key: Subject -> int, sys: System, w: int, evidence: Evidence, v: int)
    requires !Blocked(key, sys, w) && v != w && NoClash(WorkerOf(sys, v).decisions, WorkerOf(sys, w).decisions)
    ensures NoClash(WorkerOf(sys, v).decisions, Execute(key, sys, w, evidence).decisions)
    ensures NoClash(Execute(key, sys, w, evidence).decisions, WorkerOf(sys, v).decisions)
  {
    var theirs, after := WorkerOf(sys, v).decisions, Execute(key, sys, w, evidence).decisions;
    if after != WorkerOf(sys, w).decisions {
      var d := WorkerOf(sys, w).stage.d;
      forall e | e in theirs ensures !AliasesClash(d, e) && !AliasesClash(e, d) {
        ClashIsSymmetric(d, e);
      }
    }
  }

  lemma StepKeepsAliases(key: Subject -> int, sys: System, a: Action)
    requires AliasesSeparate(sys)
    ensures AliasesSeparate(Step(key, sys, a))
  {
    var next := Step(key, sys, a);
    forall w ensures AliasesApart(Visible(next, w)) {
      WorkerAliasesStayApart(key, sys, a, w);
    }
    forall v, w | v != w ensures NoClash(WorkerOf(next, v).decisions, WorkerOf(next, w).decisions) {
      assert NoClash(WorkerOf(sys, v).decisions, WorkerOf(sys, w).decisions);
      assert NoClash(WorkerOf(sys, w).decisions, WorkerOf(sys, v).decisions);
      if a.Execution? && !Blocked(key, sys, a.w) {
        if a.w == w {
          InsertedAliasesAreUnclaimed(key, sys, w, a.evidence, v);
        } else if a.w == v {
          InsertedAliasesAreUnclaimed(key, sys, v, a.evidence, w);
        }
      }
    }
  }

  lemma {:induction false} ReachableAliasesAreSeparate(key: Subject -> int, actions: seq<Action>)
    ensures AliasesSeparate(Run(key, EMPTY_SYSTEM, actions))
  {
    if actions != [] {
      ReachableAliasesAreSeparate(key, actions[..|actions| - 1]);
      StepKeepsAliases(key, Run(key, EMPTY_SYSTEM, actions[..|actions| - 1]), actions[|actions| - 1]);
    }
  }

  // ---- the converse ----

  /** A system with worker 0 alone. */
  function Solo(log: seq<Decision>, targets: map<Subject, Time>, worker: Worker): System {
    System(log, targets, map[0 := worker])
  }

  function Open(stage: Stage): Worker {
    NEW_WORKER.(stage := stage)
  }

  /** Evidence that the proposal exists and grounds the e-mail of an automatic decision. */
  function Supporting(d: Decision, email: string): Evidence {
    var p := if d.subject.Proposal? then d.subject.proposalId else "";
    Evidence({p}, {Candidate("", p, d.entityId, true)}, map[p := MentionEmail(email, true, true)])
  }

  lemma SupportingAllows(d: Decision, email: string)
    requires d.subject.Proposal? && d.outcome.Accepted? && d.supersedes.None? && |d.aliases| == 1
    requires forall a | a in d.aliases :: a.value == email
    ensures AutomaticAllowed(Supporting(d, email), d)
  {
    var evidence, p := Supporting(d, email), d.subject.proposalId;
    var only := Candidate("", p, d.entityId, true);
    assert only in evidence.candidates && ExactCandidates(evidence, p) == {only};
    OneAlias(d.aliases);
  }

  lemma SingleAlias(d: Decision) returns (email: string)
    requires |d.aliases| == 1
    ensures forall a | a in d.aliases :: a.value == email
  {
    OneAlias(d.aliases);
    var a :| a in d.aliases && d.aliases == {a};
    email := a.value;
  }

  /** Alone, a worker is never blocked: its next statement takes it from `worker` to `next`. */
  lemma SoloStep(key: Subject -> int, start: System, actions: seq<Action>, log: seq<Decision>, targets: map<Subject, Time>,
                 worker: Worker, evidence: Evidence, next: Worker)
    returns (longer: seq<Action>)
    requires Run(key, start, actions) == Solo(log, targets, worker)
    requires next == Execute(key, Solo(log, targets, worker), 0, evidence)
    ensures Run(key, start, longer) == Solo(log, targets, next)
  {
    longer := actions + [Execution(0, evidence)];
    assert longer[..|longer| - 1] == actions;
  }

  lemma SoloTargets(key: Subject -> int, log: seq<Decision>, targets: map<Subject, Time>, start: System, actions: seq<Action>,
                    d: Decision, evidence: Evidence)
    returns (longer: seq<Action>, worker: Worker)
    requires Run(key, start, actions) == Solo(log, targets, Open(Targeting(d)))
    ensures worker == Open(Locking(d)).(targets := if d.subject in targets then map[] else map[d.subject := d.recordedAt])
    ensures Run(key, start, longer) == Solo(log, targets, worker)
  {
    var inserted := if d.subject in targets then map[] else map[d.subject := d.recordedAt];
    assert map[] + inserted == inserted && targets + map[] == targets;
    worker := Open(Locking(d)).(targets := inserted);
    longer := SoloStep(key, start, actions, log, targets, Open(Targeting(d)), evidence, worker);
  }

  /** The statements up to the locked subject. */
  lemma SoloLocks(key: Subject -> int, log: seq<Decision>, targets: map<Subject, Time>, d: Decision, evidence: Evidence)
    returns (actions: seq<Action>, worker: Worker)
    requires ValidDecision(d) && ExactRetry(log, d).NoSuchDecision?
    requires d.subject.Proposal? ==> d.subject.proposalId in evidence.proposals
    ensures worker.stage == Rechecking(d) && worker.decisions == []
    ensures worker.targets == if d.subject.Target? && d.subject !in targets then map[d.subject := d.recordedAt] else map[]
    ensures Run(key, Solo(log, targets, NEW_WORKER), actions) == Solo(log, targets, worker)
  {
    assert log + [] == log && targets + map[] == targets;
    var start := Solo(log, targets, NEW_WORKER);
    actions := [Begin(0, d)];
    assert actions[..0] == [];
    worker := Open(if d.subject.Target? then Targeting(d) else Locking(d));
    actions := SoloStep(key, start, actions, log, targets, Open(Checking(d)), evidence, worker);
    if d.subject.Target? {
      actions, worker := SoloTargets(key, log, targets, start, actions, d, evidence);
    }
    assert {} + {key(d.subject)} == {key(d.subject)};
    var locked := worker.(stage := Locating(d), locks := {key(d.subject)});
    actions := SoloStep(key, start, actions, log, targets, worker, evidence, locked);
    worker := locked.(stage := Rechecking(d));
    actions := SoloStep(key, start, actions, log, targets, locked, evidence, worker);
  }

  lemma SoloRechecks(key: Subject -> int, log: seq<Decision>, targets: map<Subject, Time>, worker: Worker, d: Decision, evidence: Evidence)
    returns (actions: seq<Action>)
    requires worker.stage == Rechecking(d) && worker.decisions == [] && ExactRetry(log, d).NoSuchDecision?
    requires d.id.table.Resolutions? && d.authority.Automatic? ==> d.subject.Proposal? && AutomaticAllowed(evidence, d)
    ensures Run(key, Solo(log, targets, worker), actions) == Solo(log, targets, worker.(stage := Loading(d)))
  {
    assert log + [] == log;
    var start := Solo(log, targets, worker);
    var loading := worker.(stage := Loading(d));
    if d.id.table.Resolutions? && d.authority.Automatic? {
      var validating := worker.(stage := Validating(d));
      actions := SoloStep(key, start, [], log, targets, worker, evidence, validating);
      actions := SoloStep(key, start, actions, log, targets, validating, evidence, loading);
    } else {
      actions := SoloStep(key, start, [], log, targets, worker, evidence, loading);
    }
  }

  lemma SoloInserts(key: Subject -> int, log: seq<Decision>, targets: map<Subject, Time>, worker: Worker, d: Decision, evidence: Evidence)
    returns (actions: seq<Action>)
    requires worker.stage == Loading(d) && worker.decisions == []
    requires Insertable(log, d) && Follows(d, EffectiveRow(log, d.subject, |log|))
    ensures Run(key, Solo(log, targets, worker), actions) == Solo(log + [d], targets + worker.targets, NEW_WORKER)
  {
    assert log + [] == log && [] + [d] == [d];
    var start := Solo(log, targets, worker);
    var inserting := worker.(stage := Inserting(d, EffectiveRow(log, d.subject, |log|)));
    actions := SoloStep(key, start, [], log, targets, worker, evidence, inserting);
    var done := worker.(stage := Idle, decisions := [d]);
    actions := SoloStep(key, start, actions, log, targets, inserting, evidence, done);
    actions := SoloCommit(key, start, actions, log, targets, done);
  }

  lemma SoloCommit(key: Subject -> int, start: System, actions: seq<Action>, log: seq<Decision>, targets: map<Subject, Time>, done: Worker)
    returns (longer: seq<Action>)
    requires Run(key, start, actions) == Solo(log, targets, done) && done.stage.Idle?
    ensures Run(key, start, longer) == Solo(log + done.decisions, targets + done.targets, NEW_WORKER)
  {
    longer := actions + [Commit(0)];
    assert longer[..|longer| - 1] == actions;
  }

  lemma LastIsGranted(log: seq<Decision>, d: Decision)
    requires Linear(log + [d]) && AliasesApart(log + [d])
    ensures ExactRetry(log, d).NoSuchDecision? && Insertable(log, d) && Follows(d, LastOf(Chain(log, d.subject)))
  {
    var longer := log + [d];
    assert longer[..|log|] == log && longer[|log|] == d && d in longer;
    UniqueIdsOfAppend(log, [d]);
    PrefixIsLinear(log, [d]);
    var c := Chain(log, d.subject);
    assert Chain(longer, d.subject) == c + [d];
    assert LinkAt(c + [d], |c|);
    AliasesOfAppend(log, [d]);
    NothingElseClashes(log, d);
  }

  lemma NothingElseClashes(log: seq<Decision>, d: Decision)
    requires Linear(log) && Follows(d, LastOf(Chain(log, d.subject))) && forall e | e in log :: e.id != d.id
    ensures forall e | e in log :: !RowsClash(d, e)
    ensures d.supersedes.Some? ==> exists e :: e in log && e.id == d.supersedes.value
  {
    var c := Chain(log, d.subject);
    ChainMembers(log, d.subject);
    ChainIsEmpty(log, d.subject);
    if c != [] {
      assert c[|c| - 1] in c;
      EffectiveIsLast(log, d.subject, c[|c| - 1]);
    }
  }

  /** Every linear log of authorized decisions with unclaimed aliases is committed by some run: the
      invariant behind chain safety leaves nothing out. */
  lemma {:induction false} LinearLogsAreReachable(key: Subject -> int, log: seq<Decision>)
    returns (actions: seq<Action>, targets: map<Subject, Time>)
    requires Linear(log) && AllAuthorized(log) && AliasesApart(log)
    ensures Run(key, Solo([], map[], NEW_WORKER), actions) == Solo(log, targets, NEW_WORKER)
  {
    if log == [] {
      actions, targets := [], map[];
    } else {
      var front, d := log[..|log| - 1], log[|log| - 1];
      assert log == front + [d];
      PrefixIsLinear(front, [d]);
      AliasesOfAppend(front, [d]);
      LastIsGranted(front, d);
      var earlier, before := LinearLogsAreReachable(key, front);
      assert Authorized(d);
      var email := "";
      if d.id.table.Resolutions? && d.authority.Automatic? {
        email := SingleAlias(d);
        SupportingAllows(d, email);
      }
      var locking, worker := SoloLocks(key, front, before, d, Supporting(d, email));
      EffectiveRowIsLast(front, d.subject);
      var checking := SoloRechecks(key, front, before, worker, d, Supporting(d, email));
      var inserting := SoloInserts(key, front, before, worker.(stage := Loading(d)), d, Supporting(d, email));
      var start := Solo([], map[], NEW_WORKER);
      ActionsCompose(key, start, earlier, locking);
      ActionsCompose(key, start, earlier + locking, checking);
      ActionsCompose(key, start, earlier + locking + checking, inserting);
      actions, targets := earlier + locking + checking + inserting, before + worker.targets;
    }
  }

  /** An alias ID is used once in the whole log, and a decision asserts no alias of one type and value twice. */
  ghost predicate UniqueAliases(log: seq<Decision>) {
    forall i, j, a, b | 0 <= i < |log| && 0 <= j < |log| && a in log[i].aliases && b in log[j].aliases ::
      && (i != j ==> a.id != b.id)
      && (i == j && a.aliasType == b.aliasType && a.value == b.value ==> a == b)
  }

  lemma ApartIsUnique(log: seq<Decision>)
    ensures AliasesApart(log) <==> UniqueAliases(log)
  {
    if AliasesApart(log) {
      forall i, j, a, b | 0 <= i < |log| && 0 <= j < |log| && a in log[i].aliases && b in log[j].aliases
        ensures (i != j ==> a.id != b.id) && (i == j && a.aliasType == b.aliasType && a.value == b.value ==> a == b)
      {
        assert i != j ==> !AliasesClash(log[i], log[j]);
        assert DistinctAliases(log[i]) by { assert log[i] in log; }
      }
    }
    if UniqueAliases(log) {
      forall d | d in log ensures DistinctAliases(d) {
        var i :| 0 <= i < |log| && log[i] == d;
      }
    }
  }

  /** A log can be committed by some interleaving exactly when it is linear, every decision in it is
      authorized, and its aliases are unique. */
  lemma ReachableLogsAreTheLinearOnes(key: Subject -> int, log: seq<Decision>)
    ensures (exists actions :: Run(key, EMPTY_SYSTEM, actions).decisions == log) <==>
            Linear(log) && AllAuthorized(log) && UniqueAliases(log)
  {
    ApartIsUnique(log);
    if actions :| Run(key, EMPTY_SYSTEM, actions).decisions == log {
      var sys := Run(key, EMPTY_SYSTEM, actions);
      ReachableIsSafe(key, actions);
      SafeLog(key, sys, 0);
      ReachableAliasesAreSeparate(key, actions);
      assert AliasesApart(Visible(sys, 0));
      AliasesOfAppend(log, WorkerOf(sys, 0).decisions);
    }
    if Linear(log) && AllAuthorized(log) && AliasesApart(log) {
      var actions, targets := LinearLogsAreReachable(key, log);
      assert [Abort(0)][..0] == [];
      assert Run(key, EMPTY_SYSTEM, [Abort(0)]) == Solo([], map[], NEW_WORKER);
      ActionsCompose(key, EMPTY_SYSTEM, [Abort(0)], actions);
      assert Run(key, EMPTY_SYSTEM, [Abort(0)] + actions).decisions == log;
    }
  }
}
