/** Authority decisions and the supersession chains they form (core/admission, core/identity). */
module Decisions {
  import opened Results
  import opened Observations

  /** Resolution and admission decisions are stored in tables of their own. */
  datatype Table = Resolutions | Admissions

  datatype DecisionId = DecisionId(table: Table, id: string)

  datatype TargetKind = ExtractionRunTarget | MentionTarget | ObservationTarget | IdentityDecisionTarget

  /** What a decision is about: a resolution proposal or an admission target. */
  datatype Subject = Proposal(proposalId: string) | Target(kind: TargetKind, targetId: string)

  datatype Outcome = Accepted | RejectedProposal | Admitted | Quarantined | Retired

  datatype Authority = Automatic | Reviewer | Policy

  datatype AliasType = NameAlias | EmailAlias

  datatype AliasAssertion = AliasAssertion(
    id: string, decisionId: string, entityId: string, aliasType: AliasType, value: string, recordedAt: Time)

  /** A decision together with the aliases asserted with it. */
  datatype Decision = Decision(
    id: DecisionId, subject: Subject, outcome: Outcome, entityId: string, authority: Authority,
    reasonCode: string, recordedAt: Time, supersedes: Option<DecisionId>, aliases: set<AliasAssertion>)

  /** The checks of NewDecision and NewResolutionDecision. */
  predicate ConstructedDecision(d: Decision) {
    && d.id.id != "" && d.reasonCode != "" && d.recordedAt != ZERO_TIME
    && d.supersedes != Some(d.id)
    && (d.supersedes.Some? ==> d.supersedes.value.table == d.id.table && d.supersedes.value.id != "")
    && match d.id.table
       case Resolutions =>
         && d.subject.Proposal? && d.subject.proposalId != ""
         && (d.outcome.Accepted? || d.outcome.RejectedProposal?)
         && (d.outcome.Accepted? <==> d.entityId != "")
         && !d.authority.Policy?
       case Admissions =>
         && d.subject.Target? && d.subject.targetId != ""
         && !d.outcome.Accepted? && !d.outcome.RejectedProposal?
         && d.entityId == "" && d.aliases == {}
  }

  /** validateDecisionAliases */
  predicate ValidAliases(d: Decision) {
    && (d.outcome.RejectedProposal? ==> d.aliases == {})
    && (d.authority.Automatic? ==> |d.aliases| <= 1 && forall a | a in d.aliases :: a.aliasType.EmailAlias?)
    && (forall a | a in d.aliases :: a.id != "" && a.decisionId == d.id.id && a.entityId == d.entityId)
    && (forall a, b | a in d.aliases && b in d.aliases && a.id == b.id :: a == b)
  }

  predicate ValidDecision(d: Decision) {
    ConstructedDecision(d) && ValidAliases(d)
  }

  // ---- chains ----

  /** The decisions about one subject, in log order. */
  function Chain(log: seq<Decision>, s: Subject): seq<Decision> {
    if log == [] then []
    else
      var last := log[|log| - 1];
      Chain(log[..|log| - 1], s) + if last.subject == s then [last] else []
  }

  /** A chain starts with a decision that supersedes nothing; every later one is a reviewer's correction
      of the one before it. */
  ghost predicate LinkAt(c: seq<Decision>, i: int) {
    0 <= i < |c| ==>
      if i == 0 then c[i].supersedes.None? else c[i].supersedes == Some(c[i - 1].id) && c[i].authority.Reviewer?
  }

  ghost predicate Linked(c: seq<Decision>) {
    forall i :: LinkAt(c, i)
  }

  ghost predicate UniqueIds(log: seq<Decision>) {
    forall i, j | 0 <= i < j < |log| :: log[i].id != log[j].id
  }

  ghost predicate Linear(log: seq<Decision>) {
    UniqueIds(log) && forall s :: Linked(Chain(log, s))
  }

  function LastOf(c: seq<Decision>): Option<Decision> {
    if c == [] then None else Some(c[|c| - 1])
  }

  lemma {:induction false} ChainOfAppend(a: seq<Decision>, b: seq<Decision>, s: Subject)
    ensures Chain(a + b, s) == Chain(a, s) + Chain(b, s)
  {
    if b == [] {
      assert a + b == a;
    } else {
      assert (a + b)[..|a + b| - 1] == a + b[..|b| - 1];
      ChainOfAppend(a, b[..|b| - 1], s);
    }
  }

  lemma {:induction false} ChainMembers(log: seq<Decision>, s: Subject)
    ensures forall d :: d in Chain(log, s) <==> d in log && d.subject == s
  {
    if log != [] {
      ChainMembers(log[..|log| - 1], s);
      assert log == log[..|log| - 1] + [log[|log| - 1]];
    }
  }

  lemma {:induction false} ChainIdsAreUnique(log: seq<Decision>, s: Subject)
    requires UniqueIds(log)
    ensures UniqueIds(Chain(log, s))
  {
    if log != [] {
      var front := log[..|log| - 1];
      ChainIdsAreUnique(front, s);
      ChainMembers(front, s);
      var c := Chain(front, s);
      forall i | 0 <= i < |c| ensures c[i].id != log[|log| - 1].id {
        assert c[i] in front;
      }
    }
  }

  lemma SameIdSameDecision(log: seq<Decision>, d: Decision, e: Decision)
    requires UniqueIds(log) && d in log && e in log && d.id == e.id
    ensures d == e
  {
  }

  /** The position of a decision in its chain. */
  lemma PositionInChain(log: seq<Decision>, d: Decision) returns (i: nat)
    requires d in log
    ensures i < |Chain(log, d.subject)| && Chain(log, d.subject)[i] == d
  {
    ChainMembers(log, d.subject);
    i :| 0 <= i < |Chain(log, d.subject)| && Chain(log, d.subject)[i] == d;
  }

  /** In a linear log a successor stands right after its predecessor, in the same chain. */
  lemma SuccessorFollows(log: seq<Decision>, e: Decision, p: Decision) returns (i: nat)
    requires Linear(log) && e in log && p in log && e.supersedes == Some(p.id)
    ensures e.subject == p.subject && e.authority.Reviewer?
    ensures i + 1 < |Chain(log, p.subject)| && Chain(log, p.subject)[i] == p && Chain(log, p.subject)[i + 1] == e
  {
    var c := Chain(log, e.subject);
    var j := PositionInChain(log, e);
    assert LinkAt(c, j);
    ChainMembers(log, e.subject);
    assert c[j - 1] in c;
    SameIdSameDecision(log, c[j - 1], p);
    i := j - 1;
  }

  // ---- the effective decision ----

  predicate Superseded(log: seq<Decision>, id: DecisionId) {
    exists e | e in log :: e.supersedes == Some(id)
  }

  /** WHERE subject = s AND NOT EXISTS (a successor) */
  predicate EffectiveFor(log: seq<Decision>, s: Subject, d: Decision) {
    d in log && d.subject == s && !Superseded(log, d.id)
  }

  /** The first row of the scan that the query for the effective decision returns. */
  function EffectiveRow(log: seq<Decision>, s: Subject, scanned: nat): Option<Decision>
    requires scanned <= |log|
  {
    if scanned == 0 then None
    else
      var earlier := EffectiveRow(log, s, scanned - 1);
      if earlier.Some? then earlier
      else if EffectiveFor(log, s, log[scanned - 1]) then Some(log[scanned - 1])
      else None
  }

  lemma EarlierIsSuperseded(log: seq<Decision>, s: Subject, i: nat)
    requires Linear(log) && i + 1 < |Chain(log, s)|
    ensures Superseded(log, Chain(log, s)[i].id)
  {
    var c := Chain(log, s);
    ChainMembers(log, s);
    assert LinkAt(c, i + 1) && c[i + 1] in c;
  }

  /** In a linear log exactly the last decision of a chain is effective: one if there is any, else none. */
  lemma EffectiveIsLast(log: seq<Decision>, s: Subject, d: Decision)
    requires Linear(log)
    ensures EffectiveFor(log, s, d) <==> LastOf(Chain(log, s)) == Some(d)
  {
    var c := Chain(log, s);
    ChainMembers(log, s);
    ChainIdsAreUnique(log, s);
    if EffectiveFor(log, s, d) {
      var i := PositionInChain(log, d);
      if i + 1 < |c| {
        EarlierIsSuperseded(log, s, i);
      }
    }
    if LastOf(c) == Some(d) {
      assert c[|c| - 1] in c;
      if Superseded(log, d.id) {
        var e :| e in log && e.supersedes == Some(d.id);
        var i := SuccessorFollows(log, e, d);
      }
    }
  }

  lemma {:induction false} ScanFindsEffective(log: seq<Decision>, s: Subject, scanned: nat)
    requires scanned <= |log|
    ensures
      var row := EffectiveRow(log, s, scanned);
      if row.Some? then EffectiveFor(log, s, row.value) else forall i | 0 <= i < scanned :: !EffectiveFor(log, s, log[i])
  {
    if scanned > 0 {
      ScanFindsEffective(log, s, scanned - 1);
    }
  }

  /** The row loaded as effective is the last of the chain, whatever the order of the scan. */
  lemma EffectiveRowIsLast(log: seq<Decision>, s: Subject)
    requires Linear(log)
    ensures EffectiveRow(log, s, |log|) == LastOf(Chain(log, s))
  {
    ScanFindsEffective(log, s, |log|);
    var row := EffectiveRow(log, s, |log|);
    if row.Some? {
      EffectiveIsLast(log, s, row.value);
    } else if Chain(log, s) != [] {
      var last := LastOf(Chain(log, s)).value;
      EffectiveIsLast(log, s, last);
    }
  }
}
