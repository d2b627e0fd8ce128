/** Reading authority as of a knowledge cutoff (adapters/postgres/temporal_query.go): the recursive
    queries rebuild each supersession chain, and the deepest visible decision counts. */
module TimeTravel {
  import opened Results
  import opened Observations
  import opened Decisions
  import opened AdmissionTargets
  import opened AppendProperties
  import Appends
  import opened ChainCompleteness
  import opened ChainSafety

  // ---- the queries ----

  predicate VisibleAt(cutoff: Option<Time>, d: Decision) {
    cutoff.None? || d.recordedAt <= cutoff.value
  }

  /** A row of visible_resolution_decisions or visible_admission_decisions: the latter also need their
      target to be visible. */
  predicate Shown(targets: map<Subject, Time>, cutoff: Option<Time>, d: Decision) {
    && VisibleAt(cutoff, d)
    && (d.subject.Target? ==> d.subject in targets && (cutoff.None? || targets[d.subject] <= cutoff.value))
  }

  /** The recursive query produces d with this chain_root_id and chain_depth: a path of successors from a root. */
  ghost predicate Reaches(log: seq<Decision>, d: Decision, root: DecisionId, depth: nat)
    decreases depth
  {
    d in log &&
    if depth == 0 then d.supersedes.None? && d.id == root
    else exists p | p in log :: d.supersedes == Some(p.id) && Reaches(log, p, root, depth - 1)
  }

  ghost predicate DeeperShown(log: seq<Decision>, targets: map<Subject, Time>, cutoff: Option<Time>, root: DecisionId, depth: nat) {
    exists e, deeper: nat :: Reaches(log, e, root, deeper) && deeper > depth && Shown(targets, cutoff, e)
  }

  /** Effective in the temporal queries: no visible decision lies deeper in the same chain. */
  ghost predicate EffectiveByDepth(log: seq<Decision>, targets: map<Subject, Time>, cutoff: Option<Time>, d: Decision) {
    exists root, depth: nat ::
      Reaches(log, d, root, depth) && Shown(targets, cutoff, d) && !DeeperShown(log, targets, cutoff, root, depth)
  }

  /** Effective in the sense of the current read, over the visible rows: no visible decision supersedes it. */
  ghost predicate EffectiveBySuccessor(log: seq<Decision>, cutoff: Option<Time>, d: Decision) {
    d in log && VisibleAt(cutoff, d) && forall e | e in log && VisibleAt(cutoff, e) :: e.supersedes != Some(d.id)
  }

  // ---- the recursive query finds positions ----

  lemma {:induction false} ReachedPosition(log: seq<Decision>, d: Decision, root: DecisionId, depth: nat)
    requires Linear(log) && Reaches(log, d, root, depth)
    ensures depth < |Chain(log, d.subject)| && Chain(log, d.subject)[depth] == d && Chain(log, d.subject)[0].id == root
    decreases depth
  {
    var c := Chain(log, d.subject);
    ChainIdsAreUnique(log, d.subject);
    if depth == 0 {
      var i := PositionInChain(log, d);
      assert LinkAt(c, i);
    } else {
      var p :| p in log && d.supersedes == Some(p.id) && Reaches(log, p, root, depth - 1);
      ReachedPosition(log, p, root, depth - 1);
      var i := SuccessorFollows(log, d, p);
    }
  }

  lemma {:induction false} PositionReached(log: seq<Decision>, s: Subject, depth: nat)
    requires Linear(log) && depth < |Chain(log, s)|
    ensures Reaches(log, Chain(log, s)[depth], Chain(log, s)[0].id, depth)
  {
    var c := Chain(log, s);
    ChainMembers(log, s);
    assert LinkAt(c, depth) && c[depth] in c;
    if depth > 0 {
      PositionReached(log, s, depth - 1);
      assert c[depth - 1] in c;
    }
  }

  lemma {:induction false} ChainIsNoLonger(log: seq<Decision>, s: Subject)
    ensures |Chain(log, s)| <= |log|
  {
    if log != [] {
      ChainIsNoLonger(log[..|log| - 1], s);
    }
  }

  /** The recursive query terminates and numbers every decision once: with its position in the chain of
      its subject, under the ID of that chain's root. */
  lemma RecursionNumbersTheChain(log: seq<Decision>, d: Decision, root: DecisionId, depth: nat)
    requires Linear(log)
    ensures Reaches(log, d, root, depth) <==>
      var c := Chain(log, d.subject);
      depth < |c| && c[depth] == d && c[0].id == root
    ensures Reaches(log, d, root, depth) ==> depth < |log|
  {
    if Reaches(log, d, root, depth) {
      ReachedPosition(log, d, root, depth);
      ChainIsNoLonger(log, d.subject);
    }
    if depth < |Chain(log, d.subject)| && Chain(log, d.subject)[depth] == d {
      PositionReached(log, d.subject, depth);
    }
  }

  // ---- the two notions of effective, by position ----

  ghost predicate ShownAt(c: seq<Decision>, targets: map<Subject, Time>, cutoff: Option<Time>, i: int) {
    0 <= i < |c| && Shown(targets, cutoff, c[i])
  }

  ghost predicate SeenAt(c: seq<Decision>, cutoff: Option<Time>, i: int) {
    0 <= i < |c| && VisibleAt(cutoff, c[i])
  }

  lemma DepthIsLastShown(log: seq<Decision>, targets: map<Subject, Time>, cutoff: Option<Time>, s: Subject, i: nat)
    requires Linear(log) && i < |Chain(log, s)|
    ensures
      var c := Chain(log, s);
      EffectiveByDepth(log, targets, cutoff, c[i]) <==>
        ShownAt(c, targets, cutoff, i) && forall j | i < j < |c| :: !ShownAt(c, targets, cutoff, j)
  {
    var c := Chain(log, s);
    var d := c[i];
    ChainMembers(log, s);
    ChainIdsAreUnique(log, s);
    assert d in c;
    PositionReached(log, s, i);
    DeeperIsLater(log, targets, cutoff, s, i);
    if EffectiveByDepth(log, targets, cutoff, d) {
      var root, depth: nat :| Reaches(log, d, root, depth) && !DeeperShown(log, targets, cutoff, root, depth);
      ReachedPosition(log, d, root, depth);
    }
  }

  lemma DeeperIsLater(log: seq<Decision>, targets: map<Subject, Time>, cutoff: Option<Time>, s: Subject, i: nat)
    requires Linear(log) && i < |Chain(log, s)|
    ensures
      var c := Chain(log, s);
      DeeperShown(log, targets, cutoff, c[0].id, i) <==> exists j :: i < j < |c| && ShownAt(c, targets, cutoff, j)
  {
    var c := Chain(log, s);
    ChainMembers(log, s);
    if e, deeper: nat :| Reaches(log, e, c[0].id, deeper) && deeper > i && Shown(targets, cutoff, e) {
      ReachedPosition(log, e, c[0].id, deeper);
      ChainMembers(log, e.subject);
      assert c[0] in c && Chain(log, e.subject)[0] in Chain(log, e.subject);
      SameIdSameDecision(log, c[0], Chain(log, e.subject)[0]);
      assert ShownAt(c, targets, cutoff, deeper);
    }
    if j :| i < j < |c| && ShownAt(c, targets, cutoff, j) {
      PositionReached(log, s, j);
    }
  }

  lemma SuccessorIsNextSeen(log: seq<Decision>, cutoff: Option<Time>, s: Subject, i: nat)
    requires Linear(log) && i < |Chain(log, s)|
    ensures EffectiveBySuccessor(log, cutoff, Chain(log, s)[i]) <==>
      SeenAt(Chain(log, s), cutoff, i) && !SeenAt(Chain(log, s), cutoff, i + 1)
  {
    var c := Chain(log, s);
    ChainMembers(log, s);
    ChainIdsAreUnique(log, s);
    assert c[i] in c;
    if SeenAt(c, cutoff, i + 1) {
      assert LinkAt(c, i + 1) && c[i + 1] in c;
    }
    if e :| e in log && VisibleAt(cutoff, e) && e.supersedes == Some(c[i].id) {
      var j := SuccessorFollows(log, e, c[i]);
      assert c[j] == c[i];
    }
  }

  // ---- validation ----

  /** A row of the canonical authority query. */
  datatype RawDecision = RawDecision(decision: Decision, visible: bool)

  function PredecessorKey(d: Decision): DecisionId
    requires d.supersedes.Some?
  {
    DecisionId(d.id.table, d.supersedes.value.id)
  }

  /** What a visible correction asks of the row it corrects. */
  predicate Connected(successor: Decision, predecessor: RawDecision) {
    predecessor.visible && predecessor.decision.recordedAt <= successor.recordedAt && predecessor.decision.subject == successor.subject
  }

  ghost predicate ChainsAccepted(values: seq<RawDecision>) {
    forall v | v in values && v.visible && v.decision.supersedes.Some? ::
      exists p :: p in values && p.decision.id == PredecessorKey(v.decision) && Connected(v.decision, p)
  }

  ghost predicate DistinctKeys(values: seq<RawDecision>) {
    forall i, j | 0 <= i < j < |values| :: values[i].decision.id != values[j].decision.id
  }

  /** readTemporalCanonicalAuthority on the scanned rows. */
  method ReadCanonicalAuthority(rows: seq<RawDecision>) returns (r: Result<(), ()>)
    ensures r.Ok? <==>
      && DistinctKeys(rows) && ChainsAccepted(rows)
      && forall v | v in rows && v.visible :: ConstructedDecision(v.decision)
  {
    var seen: set<DecisionId> := {};
    for i := 0 to |rows|
      invariant seen == set v | v in rows[..i] :: v.decision.id
      invariant DistinctKeys(rows[..i]) && forall v | v in rows[..i] && v.visible :: ConstructedDecision(v.decision)
    {
      assert rows[..i + 1] == rows[..i] + [rows[i]];
      if rows[i].decision.id in seen {
        return Err(());
      }
      seen := seen + {rows[i].decision.id};
      if rows[i].visible && !ConstructedDecision(rows[i].decision) {
        return Err(());
      }
    }
    assert rows[..|rows|] == rows;
    var accepted := ValidateAuthorityChains(rows);
    r := if accepted then Ok(()) else Err(());
  }

  /** validateTemporalRawAuthorityChains */
  method ValidateAuthorityChains(values: seq<RawDecision>) returns (ok: bool)
    requires DistinctKeys(values)
    ensures ok <==> ChainsAccepted(values)
  {
    var byId: map<DecisionId, RawDecision> := map[];
    for i := 0 to |values|
      invariant forall k | k in byId :: byId[k] in values[..i] && byId[k].decision.id == k
      invariant forall v | v in values[..i] :: v.decision.id in byId && byId[v.decision.id] == v
    {
      assert values[..i + 1] == values[..i] + [values[i]];
      byId := byId[values[i].decision.id := values[i]];
    }
    assert values[..|values|] == values;
    for i := 0 to |values|
      invariant forall v | v in values[..i] && v.visible && v.decision.supersedes.Some? ::
        PredecessorKey(v.decision) in byId && Connected(v.decision, byId[PredecessorKey(v.decision)])
    {
      assert values[..i + 1] == values[..i] + [values[i]];
      var successor := values[i];
      if successor.visible && successor.decision.supersedes.Some? {
        var key := PredecessorKey(successor.decision);
        if key !in byId || !byId[key].visible || successor.decision.recordedAt < byId[key].decision.recordedAt {
          return false;
        }
        if successor.decision.subject != byId[key].decision.subject {
          return false;
        }
      }
    }
    ok := true;
  }

  // ---- what validation accepts ----

  /** On any rows, whole chains or not, validation refuses exactly a visible correction whose predecessor is
      missing, invisible, recorded later, or about another subject. */
  lemma RefusedCorrections(values: seq<RawDecision>)
    requires DistinctKeys(values)
    ensures !ChainsAccepted(values) <==>
      exists v :: v in values && v.visible && v.decision.supersedes.Some? && forall p | p in values ::
        || p.decision.id.table != v.decision.id.table || p.decision.id.id != v.decision.supersedes.value.id
        || !p.visible || p.decision.recordedAt > v.decision.recordedAt || p.decision.subject != v.decision.subject
  {
  }

  /** The rows the query returns: whole chains, each row marked with its visibility at the cutoff. */
  ghost predicate RowsOfChains(values: seq<RawDecision>, log: seq<Decision>, cutoff: Option<Time>) {
    forall v | v in values ::
      && v.decision in log && v.visible == VisibleAt(cutoff, v.decision)
      && forall d | d in Chain(log, v.decision.subject) :: RawDecision(d, VisibleAt(cutoff, d)) in values
  }

  /** The visible decisions are the first ones of the chain, in the order in which they were recorded. */
  ghost predicate PrefixInOrder(c: seq<Decision>, cutoff: Option<Time>) {
    forall i | 0 < i < |c| && SeenAt(c, cutoff, i) :: SeenAt(c, cutoff, i - 1) && c[i - 1].recordedAt <= c[i].recordedAt
  }

  /** Validation accepts exactly when in every returned chain the visible decisions form a prefix with
      recorded times that never decrease. */
  lemma ValidationAcceptsPrefixes(values: seq<RawDecision>, log: seq<Decision>, cutoff: Option<Time>)
    requires Linear(log) && AllAuthorized(log) && RowsOfChains(values, log, cutoff)
    ensures ChainsAccepted(values) <==> forall v | v in values :: PrefixInOrder(Chain(log, v.decision.subject), cutoff)
  {
    if ChainsAccepted(values) {
      forall v, i | v in values && 0 < i < |Chain(log, v.decision.subject)| && SeenAt(Chain(log, v.decision.subject), cutoff, i)
        ensures var c := Chain(log, v.decision.subject); SeenAt(c, cutoff, i - 1) && c[i - 1].recordedAt <= c[i].recordedAt
      {
        AcceptedLink(values, log, cutoff, v.decision.subject, i);
      }
    }
    if forall v | v in values :: PrefixInOrder(Chain(log, v.decision.subject), cutoff) {
      forall v | v in values && v.visible && v.decision.supersedes.Some?
        ensures exists p :: p in values && p.decision.id == PredecessorKey(v.decision) && Connected(v.decision, p)
      {
        var i := PositionInChain(log, v.decision);
        var c := Chain(log, v.decision.subject);
        LinkedPredecessor(log, v.decision.subject, i);
        assert SeenAt(c, cutoff, i);
        var p := RawDecision(c[i - 1], VisibleAt(cutoff, c[i - 1]));
        assert p in values && p.decision.id == PredecessorKey(v.decision) && Connected(v.decision, p);
      }
    }
  }

  lemma LinkedPredecessor(log: seq<Decision>, s: Subject, i: nat)
    requires Linear(log) && AllAuthorized(log) && i < |Chain(log, s)|
    ensures forall j | 0 <= j < |Chain(log, s)| :: Chain(log, s)[j] in log && Chain(log, s)[j].subject == s && Chain(log, s)[j] in Chain(log, s)
    ensures i == 0 <==> Chain(log, s)[i].supersedes.None?
    ensures i > 0 ==> Chain(log, s)[i].supersedes == Some(Chain(log, s)[i - 1].id)
    ensures i > 0 ==> PredecessorKey(Chain(log, s)[i]) == Chain(log, s)[i - 1].id
  {
    ChainMembers(log, s);
    assert LinkAt(Chain(log, s), i);
    assert Authorized(Chain(log, s)[i]);
  }

  lemma AcceptedLink(values: seq<RawDecision>, log: seq<Decision>, cutoff: Option<Time>, s: Subject, i: nat)
    requires Linear(log) && AllAuthorized(log) && RowsOfChains(values, log, cutoff) && ChainsAccepted(values)
    requires exists v :: v in values && v.decision.subject == s
    requires 0 < i < |Chain(log, s)| && SeenAt(Chain(log, s), cutoff, i)
    ensures SeenAt(Chain(log, s), cutoff, i - 1) && Chain(log, s)[i - 1].recordedAt <= Chain(log, s)[i].recordedAt
  {
    var c := Chain(log, s);
    LinkedPredecessor(log, s, i);
    var row := RawDecision(c[i], true);
    assert row in values;
    var p :| p in values && p.decision.id == PredecessorKey(row.decision) && Connected(row.decision, p);
    SameIdSameDecision(log, p.decision, c[i - 1]);
  }

  // ---- time travel ----

  /** How many decisions of a chain that validation accepts are visible. */
  lemma VisiblePrefix(c: seq<Decision>, cutoff: Option<Time>) returns (n: nat)
    requires PrefixInOrder(c, cutoff)
    ensures n <= |c| && forall i | 0 <= i < |c| :: SeenAt(c, cutoff, i) <==> i < n
  {
    n := 0;
    while n < |c| && SeenAt(c, cutoff, n)
      invariant n <= |c| && forall i | 0 <= i < n :: SeenAt(c, cutoff, i)
    {
      n := n + 1;
    }
    for k := n to |c|
      invariant forall i | n <= i < k :: !SeenAt(c, cutoff, i)
    {
      assert k > n ==> !SeenAt(c, cutoff, k - 1);
    }
  }

  /** The moment at which the first n decisions of a subject had been appended. */
  lemma {:induction false} MomentOf(log: seq<Decision>, s: Subject, n: nat) returns (m: nat)
    requires n <= |Chain(log, s)|
    ensures m <= |log| && Chain(log[..m], s) == Chain(log, s)[..n] && Chain(log[m..], s) == Chain(log, s)[n..]
  {
    if n == |Chain(log, s)| {
      m := |log|;
      assert log[..m] == log && log[m..] == [];
    } else {
      var front, last := log[..|log| - 1], log[|log| - 1];
      assert log == front + [last];
      m := MomentOf(front, s, n);
      MomentStays(front, last, s, n, m);
    }
  }

  lemma MomentStays(front: seq<Decision>, last: Decision, s: Subject, n: nat, m: nat)
    requires n <= |Chain(front, s)| && m <= |front|
    requires Chain(front[..m], s) == Chain(front, s)[..n] && Chain(front[m..], s) == Chain(front, s)[n..]
    ensures
      var log := front + [last];
      && n <= |Chain(log, s)|
      && Chain(log[..m], s) == Chain(log, s)[..n] && Chain(log[m..], s) == Chain(log, s)[n..]
  {
    var log := front + [last];
    assert log[..m] == front[..m];
    assert log[m..] == front[m..] + [last];
    ChainOfAppend(front[m..], [last], s);
    ChainOfAppend(front, [last], s);
  }

  lemma ShownIsSeen(log: seq<Decision>, targets: map<Subject, Time>, cutoff: Option<Time>, s: Subject, i: nat)
    requires CommittedTarget(log, targets, s) && i < |Chain(log, s)|
    ensures
      var c := Chain(log, s);
      ShownAt(c, targets, cutoff, i) <==> SeenAt(c, cutoff, i) && (s.Target? ==> SeenAt(c, cutoff, 0))
  {
    ChainMembers(log, s);
    assert Chain(log, s)[i] in Chain(log, s);
  }

  /** Where validation accepts, a cutoff stands for a moment of the log: the decisions of the subject
      appended before it are the visible ones, and the deepest visible decision, the visible decision
      without a visible successor, and the decision that was effective at that moment are the same. */
  lemma TimeTravelAgreesWithHistory(log: seq<Decision>, targets: map<Subject, Time>, cutoff: Option<Time>, s: Subject)
    returns (m: nat)
    requires Linear(log) && CommittedTarget(log, targets, s) && PrefixInOrder(Chain(log, s), cutoff)
    ensures m <= |log|
    ensures forall d | d in log[..m] && d.subject == s :: cutoff.None? || d.recordedAt <= cutoff.value
    ensures forall d | d in log[m..] && d.subject == s :: cutoff.Some? && d.recordedAt > cutoff.value
    ensures forall d: Decision | d.subject == s ::
      && (EffectiveByDepth(log, targets, cutoff, d) <==> EffectiveFor(log[..m], s, d))
      && (EffectiveBySuccessor(log, cutoff, d) <==> EffectiveFor(log[..m], s, d))
  {
    var c := Chain(log, s);
    var n := VisiblePrefix(c, cutoff);
    m := MomentOf(log, s, n);
    MomentSplitsVisibility(log[..m], log[m..], c, cutoff, s, n);
    assert log[..m] + log[m..] == log;
    PrefixIsLinear(log[..m], log[m..]);
    forall d: Decision | d.subject == s
      ensures EffectiveByDepth(log, targets, cutoff, d) <==> EffectiveFor(log[..m], s, d)
      ensures EffectiveBySuccessor(log, cutoff, d) <==> EffectiveFor(log[..m], s, d)
    {
      EffectiveIsLast(log[..m], s, d);
      EffectiveIsNth(log, targets, cutoff, n, d);
    }
  }

  lemma EffectiveIsNth(log: seq<Decision>, targets: map<Subject, Time>, cutoff: Option<Time>, n: nat, d: Decision)
    requires Linear(log) && CommittedTarget(log, targets, d.subject) && n <= |Chain(log, d.subject)|
    requires forall j | 0 <= j < |Chain(log, d.subject)| :: SeenAt(Chain(log, d.subject), cutoff, j) <==> j < n
    ensures EffectiveByDepth(log, targets, cutoff, d) <==> LastOf(Chain(log, d.subject)[..n]) == Some(d)
    ensures EffectiveBySuccessor(log, cutoff, d) <==> LastOf(Chain(log, d.subject)[..n]) == Some(d)
  {
    var c := Chain(log, d.subject);
    if d in log {
      var i := PositionInChain(log, d);
      EffectiveAtPosition(log, targets, cutoff, d.subject, n, i);
      ChainIdsAreUnique(log, d.subject);
    } else {
      NotStoredNotEffective(log, targets, cutoff, d);
      ChainMembers(log, d.subject);
      assert forall i | 0 <= i < |c| :: c[i] in c;
    }
  }

  /** The same for every run: once the canonical authority rows at a cutoff are accepted, the temporal
      queries answer for each subject in them what the current read answered at one moment of the run. */
  lemma AcceptedReadsAreHistory(key: Subject -> int, actions: seq<Appends.Action>, values: seq<RawDecision>,
                                cutoff: Option<Time>, v: RawDecision)
    returns (m: nat)
    requires RowsOfChains(values, Appends.Run(key, Appends.EMPTY_SYSTEM, actions).decisions, cutoff)
    requires ChainsAccepted(values) && v in values
    ensures
      var sys := Appends.Run(key, Appends.EMPTY_SYSTEM, actions);
      var s := v.decision.subject;
      && m <= |sys.decisions|
      && (forall d | d in sys.decisions[..m] && d.subject == s :: cutoff.None? || d.recordedAt <= cutoff.value)
      && (forall d | d in sys.decisions[m..] && d.subject == s :: cutoff.Some? && d.recordedAt > cutoff.value)
      && forall d: Decision | d.subject == s ::
           EffectiveByDepth(sys.decisions, sys.targets, cutoff, d) <==> EffectiveFor(sys.decisions[..m], s, d)
  {
    var sys := Appends.Run(key, Appends.EMPTY_SYSTEM, actions);
    ReachableIsSafe(key, actions);
    SafeLog(key, sys, 0);
    ReachableTargetsAreInStep(key, actions);
    assert CommittedTarget(sys.decisions, sys.targets, v.decision.subject);
    ValidationAcceptsPrefixes(values, sys.decisions, cutoff);
    m := TimeTravelAgreesWithHistory(sys.decisions, sys.targets, cutoff, v.decision.subject);
  }

  lemma NotStoredNotEffective(log: seq<Decision>, targets: map<Subject, Time>, cutoff: Option<Time>, d: Decision)
    requires d !in log
    ensures !EffectiveByDepth(log, targets, cutoff, d) && !EffectiveBySuccessor(log, cutoff, d)
  {
  }

  lemma MomentSplitsVisibility(before: seq<Decision>, after: seq<Decision>, c: seq<Decision>, cutoff: Option<Time>, s: Subject, n: nat)
    requires n <= |c| && forall i | 0 <= i < |c| :: SeenAt(c, cutoff, i) <==> i < n
    requires Chain(before, s) == c[..n] && Chain(after, s) == c[n..]
    ensures forall d | d in before && d.subject == s :: VisibleAt(cutoff, d)
    ensures forall d | d in after && d.subject == s :: !VisibleAt(cutoff, d)
  {
    forall i | 0 <= i < |c| ensures VisibleAt(cutoff, c[i]) <==> i < n {
      assert SeenAt(c, cutoff, i) <==> i < n;
    }
    ChainMembers(before, s);
    ChainMembers(after, s);
    SplitVisibility(c, cutoff, n);
  }

  lemma SplitVisibility(c: seq<Decision>, cutoff: Option<Time>, n: nat)
    requires n <= |c| && forall i | 0 <= i < |c| :: VisibleAt(cutoff, c[i]) <==> i < n
    ensures forall d | d in c[..n] :: VisibleAt(cutoff, d)
    ensures forall d | d in c[n..] :: !VisibleAt(cutoff, d)
  {
  }

  lemma EffectiveAtPosition(log: seq<Decision>, targets: map<Subject, Time>, cutoff: Option<Time>, s: Subject, n: nat, i: nat)
    requires Linear(log) && CommittedTarget(log, targets, s)
    requires n <= |Chain(log, s)| && forall j | 0 <= j < |Chain(log, s)| :: SeenAt(Chain(log, s), cutoff, j) <==> j < n
    requires i < |Chain(log, s)|
    ensures EffectiveByDepth(log, targets, cutoff, Chain(log, s)[i]) <==> i + 1 == n
    ensures EffectiveBySuccessor(log, cutoff, Chain(log, s)[i]) <==> i + 1 == n
  {
    var c := Chain(log, s);
    forall j | 0 <= j < |c| ensures ShownAt(c, targets, cutoff, j) <==> j < n {
      ShownIsSeen(log, targets, cutoff, s, j);
    }
    DepthIsLastShown(log, targets, cutoff, s, i);
    SuccessorIsNextSeen(log, cutoff, s, i);
    assert i + 1 < |c| ==> (ShownAt(c, targets, cutoff, i + 1) <==> i + 1 < n);
  }

  // ---- without validation ----

  /** No invisible decision stands between two visible ones, and a visible admission has a visible root. */
  ghost predicate Gapless(c: seq<Decision>, cutoff: Option<Time>, s: Subject) {
    && (forall i, j | 0 <= i < j && SeenAt(c, cutoff, i) && SeenAt(c, cutoff, j) :: SeenAt(c, cutoff, i + 1))
    && (s.Target? ==> forall i | SeenAt(c, cutoff, i) :: SeenAt(c, cutoff, 0))
  }

  /** The deepest shown decision. */
  ghost predicate LastShownAt(c: seq<Decision>, targets: map<Subject, Time>, cutoff: Option<Time>, i: int) {
    ShownAt(c, targets, cutoff, i) && forall j | i < j < |c| :: !ShownAt(c, targets, cutoff, j)
  }

  /** A visible decision without a visible successor. */
  ghost predicate RunEndsAt(c: seq<Decision>, cutoff: Option<Time>, i: int) {
    SeenAt(c, cutoff, i) && !SeenAt(c, cutoff, i + 1)
  }

  lemma SomeRunEnds(c: seq<Decision>, cutoff: Option<Time>, i: nat) returns (j: nat)
    requires SeenAt(c, cutoff, i)
    ensures i <= j && RunEndsAt(c, cutoff, j)
  {
    j := i;
    while SeenAt(c, cutoff, j + 1)
      invariant i <= j && SeenAt(c, cutoff, j)
      decreases |c| - j
    {
      j := j + 1;
    }
  }

  lemma GaplessPositions(c: seq<Decision>, targets: map<Subject, Time>, cutoff: Option<Time>, s: Subject)
    requires forall i :: ShownAt(c, targets, cutoff, i) <==> SeenAt(c, cutoff, i) && (s.Target? ==> SeenAt(c, cutoff, 0))
    ensures Gapless(c, cutoff, s) <==> forall i :: LastShownAt(c, targets, cutoff, i) <==> RunEndsAt(c, cutoff, i)
  {
    if Gapless(c, cutoff, s) {
      forall i ensures LastShownAt(c, targets, cutoff, i) <==> RunEndsAt(c, cutoff, i) {
        assert SeenAt(c, cutoff, i + 1) ==> ShownAt(c, targets, cutoff, i + 1) || !ShownAt(c, targets, cutoff, i);
      }
    }
    if forall i :: LastShownAt(c, targets, cutoff, i) <==> RunEndsAt(c, cutoff, i) {
      forall i, j | 0 <= i < j && SeenAt(c, cutoff, i) && SeenAt(c, cutoff, j) ensures SeenAt(c, cutoff, i + 1) {
        assert ShownAt(c, targets, cutoff, i) ==> ShownAt(c, targets, cutoff, j);
        assert LastShownAt(c, targets, cutoff, i) <==> RunEndsAt(c, cutoff, i);
      }
      if s.Target? {
        forall i | SeenAt(c, cutoff, i) ensures SeenAt(c, cutoff, 0) {
          var j := SomeRunEnds(c, cutoff, i);
          assert LastShownAt(c, targets, cutoff, j) <==> RunEndsAt(c, cutoff, j);
        }
      }
    }
  }

  /** Without validation the two notions agree exactly on the chains whose visible part has no gap. */
  lemma NotionsAgreeExactlyWithoutGaps(log: seq<Decision>, targets: map<Subject, Time>, cutoff: Option<Time>, s: Subject)
    requires Linear(log) && CommittedTarget(log, targets, s)
    ensures
      Gapless(Chain(log, s), cutoff, s) <==>
      forall d: Decision | d.subject == s :: EffectiveByDepth(log, targets, cutoff, d) <==> EffectiveBySuccessor(log, cutoff, d)
  {
    var c := Chain(log, s);
    forall i ensures ShownAt(c, targets, cutoff, i) <==> SeenAt(c, cutoff, i) && (s.Target? ==> SeenAt(c, cutoff, 0)) {
      if 0 <= i < |c| {
        ShownIsSeen(log, targets, cutoff, s, i);
      }
    }
    GaplessPositions(c, targets, cutoff, s);
    if forall i :: LastShownAt(c, targets, cutoff, i) <==> RunEndsAt(c, cutoff, i) {
      forall d: Decision | d.subject == s
        ensures EffectiveByDepth(log, targets, cutoff, d) <==> EffectiveBySuccessor(log, cutoff, d)
      {
        NotionsAtDecision(log, targets, cutoff, d);
      }
    }
    if forall d: Decision | d.subject == s :: EffectiveByDepth(log, targets, cutoff, d) <==> EffectiveBySuccessor(log, cutoff, d) {
      forall i ensures LastShownAt(c, targets, cutoff, i) <==> RunEndsAt(c, cutoff, i) {
        if 0 <= i < |c| {
          NotionsAtPosition(log, targets, cutoff, s, i);
        }
      }
    }
  }

  lemma NotionsAtPosition(log: seq<Decision>, targets: map<Subject, Time>, cutoff: Option<Time>, s: Subject, i: nat)
    requires Linear(log) && i < |Chain(log, s)|
    ensures
      var c := Chain(log, s);
      && c[i].subject == s
      && (EffectiveByDepth(log, targets, cutoff, c[i]) <==> LastShownAt(c, targets, cutoff, i))
      && (EffectiveBySuccessor(log, cutoff, c[i]) <==> RunEndsAt(c, cutoff, i))
  {
    ChainMembers(log, s);
    assert Chain(log, s)[i] in Chain(log, s);
    DepthIsLastShown(log, targets, cutoff, s, i);
    SuccessorIsNextSeen(log, cutoff, s, i);
  }

  lemma NotionsAtDecision(log: seq<Decision>, targets: map<Subject, Time>, cutoff: Option<Time>, d: Decision)
    requires Linear(log)
    requires forall i :: LastShownAt(Chain(log, d.subject), targets, cutoff, i) <==> RunEndsAt(Chain(log, d.subject), cutoff, i)
    ensures EffectiveByDepth(log, targets, cutoff, d) <==> EffectiveBySuccessor(log, cutoff, d)
  {
    if d in log {
      var i := PositionInChain(log, d);
      NotionsAtPosition(log, targets, cutoff, d.subject, i);
    } else {
      NotStoredNotEffective(log, targets, cutoff, d);
    }
  }

  // ---- a chain that does have a gap ----

  function Sample(id: string, at: Time, supersedes: Option<DecisionId>): Decision {
    Decision(DecisionId(Resolutions, id), Proposal("p"), RejectedProposal, "", Reviewer, "r", at, supersedes, {})
  }

  lemma ThreeLinks(d0: Decision, d1: Decision, d2: Decision)
    requires Authorized(d0) && Authorized(d1) && Authorized(d2) && d0.subject == d1.subject == d2.subject
    requires d0.id != d1.id && d0.id != d2.id && d1.id != d2.id && d1.authority.Reviewer? && d2.authority.Reviewer?
    requires d0.supersedes.None? && d1.supersedes == Some(d0.id) && d2.supersedes == Some(d1.id)
    ensures Linear([d0, d1, d2]) && AllAuthorized([d0, d1, d2]) && Chain([d0, d1, d2], d0.subject) == [d0, d1, d2]
  {
    assert Chain([], d0.subject) == [];
    GrowSample([], d0, []);
    assert [] + [d0] == [d0] && [d0] + [d1] == [d0, d1] && [d0, d1] + [d2] == [d0, d1, d2];
    GrowSample([d0], d1, [d0]);
    GrowSample([d0, d1], d2, [d0, d1]);
  }

  lemma SampleIsAuthorized(id: string, at: Time, supersedes: Option<DecisionId>)
    requires id != "" && at != ZERO_TIME
    requires supersedes.Some? ==> supersedes.value.table.Resolutions? && supersedes.value.id != "" && supersedes.value.id != id
    ensures Authorized(Sample(id, at, supersedes))
  {
  }

  lemma SampleLog() returns (log: seq<Decision>)
    ensures Linear(log) && AllAuthorized(log) && Chain(log, Proposal("p")) == log
    ensures |log| == 3 && log[0].recordedAt == 10 && log[1].recordedAt == 20 && log[2].recordedAt == 5
    ensures forall d | d in log :: d.aliases == {}
  {
    var d0, d1, d2 := Sample("a", 10, None), Sample("b", 20, Some(DecisionId(Resolutions, "a"))), Sample("c", 5, Some(DecisionId(Resolutions, "b")));
    assert "a"[0] != "b"[0] && "a"[0] != "c"[0] && "b"[0] != "c"[0];
    SampleIsAuthorized("a", 10, None);
    SampleIsAuthorized("b", 20, Some(DecisionId(Resolutions, "a")));
    SampleIsAuthorized("c", 5, Some(DecisionId(Resolutions, "b")));
    ThreeLinks(d0, d1, d2);
    log := [d0, d1, d2];
  }

  /** Nothing in an append compares recorded times, so some run commits a chain recorded at 10, 20 and 5.
      At cutoff 12 its first and third decision are visible: each is effective in the sense that no visible
      decision supersedes it, the deepest one is the third, and validation refuses the chain. */
  lemma GapsBreakAgreement(key: Subject -> int)
    returns (actions: seq<Appends.Action>, s: Subject, rows: seq<RawDecision>)
    ensures
      var log := Appends.Run(key, Appends.EMPTY_SYSTEM, actions).decisions;
      && |log| == 3 && Chain(log, s) == log && !PrefixInOrder(Chain(log, s), Some(12))
      && |rows| == 3 && RowsOfChains(rows, log, Some(12)) && DistinctKeys(rows) && !ChainsAccepted(rows)
      && EffectiveBySuccessor(log, Some(12), log[0]) && EffectiveBySuccessor(log, Some(12), log[2])
      && !EffectiveByDepth(log, map[], Some(12), log[0]) && EffectiveByDepth(log, map[], Some(12), log[2])
  {
    var log := SampleLog();
    s := Proposal("p");
    ChainMembers(log, s);
    SamplePositions(log, s);
    NotionsAtPosition(log, map[], Some(12), s, 0);
    NotionsAtPosition(log, map[], Some(12), s, 2);
    rows := RowsOf(log, Some(12));
    RowsOfOneChain(log, Some(12), s);
    assert rows[0] in rows;
    ValidationAcceptsPrefixes(rows, log, Some(12));
    actions := Committing(key, log);
  }

  /** The rows of the canonical authority query for a log that is one chain. */
  function RowsOf(log: seq<Decision>, cutoff: Option<Time>): seq<RawDecision> {
    seq(|log|, i requires 0 <= i < |log| => RawDecision(log[i], VisibleAt(cutoff, log[i])))
  }

  lemma RowsOfOneChain(log: seq<Decision>, cutoff: Option<Time>, s: Subject)
    requires UniqueIds(log) && Chain(log, s) == log
    ensures RowsOfChains(RowsOf(log, cutoff), log, cutoff) && DistinctKeys(RowsOf(log, cutoff))
    ensures forall v | v in RowsOf(log, cutoff) :: v.decision.subject == s
  {
    var rows := RowsOf(log, cutoff);
    ChainMembers(log, s);
    forall d | d in log ensures RawDecision(d, VisibleAt(cutoff, d)) in rows {
      var i :| 0 <= i < |log| && log[i] == d;
      assert rows[i] == RawDecision(d, VisibleAt(cutoff, d));
    }
  }

  lemma Committing(key: Subject -> int, log: seq<Decision>) returns (actions: seq<Appends.Action>)
    requires Linear(log) && AllAuthorized(log) && forall d | d in log :: d.aliases == {}
    ensures Appends.Run(key, Appends.EMPTY_SYSTEM, actions).decisions == log
  {
    ReachableLogsAreTheLinearOnes(key, log);
    actions :| Appends.Run(key, Appends.EMPTY_SYSTEM, actions).decisions == log;
  }

  lemma SamplePositions(c: seq<Decision>, s: Subject)
    requires |c| == 3 && c[0].recordedAt == 10 && c[1].recordedAt == 20 && c[2].recordedAt == 5
    requires s.Proposal? && forall i | 0 <= i < |c| :: c[i].subject == s
    ensures RunEndsAt(c, Some(12), 0) && RunEndsAt(c, Some(12), 2)
    ensures !LastShownAt(c, map[], Some(12), 0) && LastShownAt(c, map[], Some(12), 2)
    ensures !PrefixInOrder(c, Some(12))
  {
    assert SeenAt(c, Some(12), 0) && !SeenAt(c, Some(12), 1) && SeenAt(c, Some(12), 2) && !SeenAt(c, Some(12), 3);
    assert ShownAt(c, map[], Some(12), 2);
  }

  lemma GrowSample(log: seq<Decision>, d: Decision, c: seq<Decision>)
    requires Linear(log) && AllAuthorized(log) && Authorized(d) && NewIds(log, [d]) && Chain(log, d.subject) == c
    requires Appends.Follows(d, LastOf(c))
    ensures Linear(log + [d]) && AllAuthorized(log + [d]) && Chain(log + [d], d.subject) == c + [d]
  {
    LinearWithNext(log, d);
    assert (log + [d])[..|log|] == log;
  }
}
