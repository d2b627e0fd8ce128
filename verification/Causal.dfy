/** Chains of explicit causal links (core/temporal/causal.go). */
module Causal {
  import opened Results
  import opened Observations
  import opened Ordering
  import opened States
  import opened Eligibility
  import opened Claims
  import opened Aggregation

  const CAUSAL_PREDICATE := "stacks.causal.v1/causes"

  datatype CausalLink = CausalLink(
    cause: Term,
    effect: Term,
    observationIds: seq<string>,
    supportingEvidenceIds: seq<string>,
    contradictingEvidenceIds: seq<string>)

  datatype LinkKey = LinkKey(cause: Term, effect: Term)

  datatype LinkAccumulator = LinkAccumulator(
    link: LinkKey,
    observations: map<string, Observation>,
    supporting: set<string>,
    contradicting: set<string>)

  /** A link with the chronology its place in the chain depends on. */
  datatype DatedLink = DatedLink(earliestValid: Time, earliestRecorded: Time, firstId: string, link: CausalLink)

  // ---- selection ----

  ghost function CausalPart(claims: set<Claim>): set<Claim> {
    set c | c in claims && c.key.predicateName == CAUSAL_PREDICATE
  }

  ghost predicate CausallyAccepted(cs: seq<StateCandidate>) {
    (forall c | c in cs :: CandidateMatches(c)) && Coherent(CausalPart(ClaimsOf(cs)))
  }

  /** The error of one candidate after the causal claims before it. */
  ghost function CausalScanError(seen: set<Claim>, c: StateCandidate): Option<AggregationError> {
    if !CandidateMatches(c) then Some(InvalidCandidate)
    else if && c.key.predicateName == CAUSAL_PREDICATE
            && exists p | p in seen :: p.observation.id == c.observation.id && p != ClaimOf(c)
    then Some(ConflictingPayload)
    else None
  }

  ghost function CausalError(cs: seq<StateCandidate>): Option<AggregationError> {
    if cs == [] then None
    else
      var n := |cs| - 1;
      var earlier := CausalError(cs[..n]);
      if earlier.Some? then earlier else CausalScanError(CausalPart(ClaimsOf(cs[..n])), cs[n])
  }

  lemma CausalPartOneMore(claims: set<Claim>, c: Claim)
    ensures CausalPart(claims + {c}) ==
      if c.key.predicateName == CAUSAL_PREDICATE then CausalPart(claims) + {c} else CausalPart(claims)
  {
  }

  lemma {:induction false} CausallyAcceptedIsErrorFree(cs: seq<StateCandidate>)
    ensures CausalError(cs).None? <==> CausallyAccepted(cs)
  {
    if cs != [] {
      var n := |cs| - 1;
      CausallyAcceptedIsErrorFree(cs[..n]);
      ClaimsOfLast(cs);
      CausalPartOneMore(ClaimsOf(cs[..n]), ClaimOf(cs[n]));
      CoherentOneMore(CausalPart(ClaimsOf(cs[..n])), ClaimOf(cs[n]));
    }
  }

  /** Causal selection asks for definite valid time and does not look at the status. */
  predicate Links(scope: KnowledgeScope, start: Time, end: Time, o: Observation) {
    RecordedTimeEligible(scope, o) && WindowEligibility(start, end, o.validTime) == Definite
  }

  ghost function Linking(causal: set<Claim>, scope: KnowledgeScope, start: Time, end: Time): set<Claim> {
    set c | c in causal && Links(scope, start, end, c.observation)
  }

  ghost function LinkClaims(claims: set<Claim>, scope: KnowledgeScope, start: Time, end: Time): set<Claim> {
    Linking(CausalPart(claims), scope, start, end)
  }

  lemma LinkingOneMore(causal: set<Claim>, c: Claim, scope: KnowledgeScope, start: Time, end: Time)
    ensures Linking(causal + {c}, scope, start, end) ==
      if Links(scope, start, end, c.observation) then Linking(causal, scope, start, end) + {c}
      else Linking(causal, scope, start, end)
    ensures Coherent(causal + {c}) ==> Coherent(causal) && Coherent(Linking(causal + {c}, scope, start, end))
  {
    if Coherent(causal + {c}) {
      assert causal <= causal + {c};
    }
  }

  // ---- accumulation ----

  function LinkOf(c: Claim): LinkKey { LinkKey(c.key.subject, c.value) }

  ghost function ClaimsOfLink(claims: set<Claim>, l: LinkKey): set<Claim> {
    set c | c in claims && LinkOf(c) == l
  }

  ghost function AccumulatedLink(claims: set<Claim>, l: LinkKey): LinkAccumulator
    requires Coherent(claims)
  {
    LinkAccumulator(l, ObservationIndex(claims), EvidenceOf(claims, Supporting), EvidenceOf(claims, Contradicting))
  }

  ghost function LinkGroups(claims: set<Claim>): map<LinkKey, LinkAccumulator>
    requires Coherent(claims)
  {
    map l | l in (set c | c in claims :: LinkOf(c)) :: AccumulatedLink(ClaimsOfLink(claims, l), l)
  }

  ghost function AddedToLink(acc: LinkAccumulator, o: Observation): LinkAccumulator {
    acc.(observations := acc.observations[o.id := o],
         supporting := acc.supporting + EvidenceIds(o, Supporting),
         contradicting := acc.contradicting + EvidenceIds(o, Contradicting))
  }

  method AddToLink(acc: LinkAccumulator, o: Observation) returns (updated: LinkAccumulator)
    ensures updated == AddedToLink(acc, o)
  {
    updated := acc.(observations := acc.observations[o.id := o]);
    ghost var start := updated;
    for i := 0 to |o.evidence|
      invariant updated == start.(
        supporting := start.supporting + (set l | l in o.evidence[..i] && l.role == Supporting :: l.evidenceId),
        contradicting := start.contradicting + (set l | l in o.evidence[..i] && l.role == Contradicting :: l.evidenceId))
    {
      var link := o.evidence[i];
      assert o.evidence[..i + 1] == o.evidence[..i] + [link];
      match link.role {
        case Supporting => updated := updated.(supporting := updated.supporting + {link.evidenceId});
        case Contradicting => updated := updated.(contradicting := updated.contradicting + {link.evidenceId});
      }
    }
    assert o.evidence[..|o.evidence|] == o.evidence;
  }

  lemma LinkOneMore(claims: set<Claim>, c: Claim, l: LinkKey)
    requires Coherent(claims + {c}) && Coherent(claims)
    ensures AccumulatedLink(claims + {c}, l) == AddedToLink(AccumulatedLink(claims, l), c.observation)
  {
    forall role ensures EvidenceOf(claims + {c}, role) == EvidenceOf(claims, role) + EvidenceIds(c.observation, role) {
    }
    assert ObservationIndex(claims + {c}) == ObservationIndex(claims)[c.observation.id := c.observation];
  }

  lemma ClaimsOfLinkOneMore(claims: set<Claim>, c: Claim, l: LinkKey)
    ensures ClaimsOfLink(claims + {c}, l) == if l == LinkOf(c) then ClaimsOfLink(claims, l) + {c} else ClaimsOfLink(claims, l)
  {
  }

  function EmptyLink(l: LinkKey): LinkAccumulator { LinkAccumulator(l, map[], {}, {}) }

  ghost function FoundLink(groups: map<LinkKey, LinkAccumulator>, l: LinkKey): LinkAccumulator {
    if l in groups then groups[l] else EmptyLink(l)
  }

  lemma FoundLinkOf(claims: set<Claim>, l: LinkKey)
    requires Coherent(claims)
    ensures FoundLink(LinkGroups(claims), l) == AccumulatedLink(ClaimsOfLink(claims, l), l)
  {
    if forall c | c in claims :: LinkOf(c) != l {
      assert ClaimsOfLink(claims, l) == {};
    }
  }

  lemma LinkGroupsGrow(claims: set<Claim>, c: Claim)
    requires Coherent(claims + {c}) && Coherent(claims)
    ensures LinkGroups(claims + {c})
         == LinkGroups(claims)[LinkOf(c) := AccumulatedLink(ClaimsOfLink(claims, LinkOf(c)) + {c}, LinkOf(c))]
  {
    forall j { ClaimsOfLinkOneMore(claims, c, j); }
    assert (set d | d in claims + {c} :: LinkOf(d)) == (set d | d in claims :: LinkOf(d)) + {LinkOf(c)};
  }

  lemma LinkGroupsOneMore(claims: set<Claim>, c: Claim)
    requires Coherent(claims + {c}) && Coherent(claims)
    ensures var (l, groups) := (LinkOf(c), LinkGroups(claims));
      LinkGroups(claims + {c}) == groups[l := AddedToLink(FoundLink(groups, l), c.observation)]
  {
    LinkGroupsGrow(claims, c);
    FoundLinkOf(claims, LinkOf(c));
    LinkOneMore(ClaimsOfLink(claims, LinkOf(c)), c, LinkOf(c));
  }

  method CheckCausal(c: StateCandidate, seen: map<string, Claim>, ghost causal: set<Claim>)
    returns (error: Option<AggregationError>)
    requires SeenMatches(seen, causal) && CanonicalClaims(causal)
    ensures error == CausalScanError(causal, c)
  {
    if !CandidateMatches(c) {
      return Some(InvalidCandidate);
    }
    if c.key.predicateName == CAUSAL_PREDICATE && c.observation.id in seen {
      var prior := seen[c.observation.id];
      CanonicalIdentities(c, prior);
      if KeyIdentity(prior.key) != KeyIdentity(c.key) || TermIdentity(prior.value) != TermIdentity(c.value)
        || prior.observation != c.observation
      {
        return Some(ConflictingPayload);
      }
    }
    error := None;
  }

  lemma CausalErrorOfPrefix(cs: seq<StateCandidate>, i: nat)
    requires i < |cs| && CausalError(cs[..i]).None?
    ensures CausalError(cs[..i + 1]) == CausalScanError(CausalPart(ClaimsOf(cs[..i])), cs[i])
  {
    assert cs[..i + 1][..i] == cs[..i];
  }

  lemma {:induction false} CausalErrorPersists(cs: seq<StateCandidate>, i: nat)
    requires i <= |cs| && CausalError(cs[..i]).Some?
    ensures CausalError(cs) == CausalError(cs[..i])
  {
    if i < |cs| {
      assert cs[..|cs| - 1][..i] == cs[..i];
      CausalErrorPersists(cs[..|cs| - 1], i);
    } else {
      assert cs[..i] == cs;
    }
  }

  lemma CausalSeenGrows(seen: map<string, Claim>, causal: set<Claim>, c: StateCandidate)
    requires SeenMatches(seen, causal) && CanonicalClaims(causal) && CausalScanError(causal, c).None?
    requires c.key.predicateName == CAUSAL_PREDICATE && Coherent(causal)
    ensures c.observation.id in seen ==> causal + {ClaimOf(c)} == causal
    ensures SeenMatches(seen[c.observation.id := ClaimOf(c)], causal + {ClaimOf(c)})
    ensures CanonicalClaims(causal + {ClaimOf(c)}) && Coherent(causal + {ClaimOf(c)})
  {
  }

  /** The end of the loop body of BuildCausalChain. */
  method AddToLinks(groups: map<LinkKey, LinkAccumulator>, c: Claim, ghost linking: set<Claim>)
    returns (updated: map<LinkKey, LinkAccumulator>)
    requires Coherent(linking) && Coherent(linking + {c}) && groups == LinkGroups(linking)
    ensures updated == LinkGroups(linking + {c})
  {
    LinkGroupsOneMore(linking, c);
    var l := LinkOf(c);
    var group := AddToLink(if l in groups then groups[l] else EmptyLink(l), c.observation);
    updated := groups[l := group];
  }

  /** The first loop of BuildCausalChain. */
  method CollectLinks(scope: KnowledgeScope, cs: seq<StateCandidate>, start: Time, end: Time)
    returns (r: Result<map<LinkKey, LinkAccumulator>, AggregationError>)
    ensures r.Err? <==> CausalError(cs).Some?
    ensures r.Err? ==> CausalError(cs) == Some(r.error)
    ensures r.Ok? ==> Coherent(LinkClaims(ClaimsOf(cs), scope, start, end))
    ensures r.Ok? ==> r.value == LinkGroups(LinkClaims(ClaimsOf(cs), scope, start, end))
  {
    var groups: map<LinkKey, LinkAccumulator> := map[];
    var seen: map<string, Claim> := map[];
    ghost var causal: set<Claim> := {};
    ghost var linking: set<Claim> := {};
    for i := 0 to |cs|
      invariant CausalError(cs[..i]).None? && causal == CausalPart(ClaimsOf(cs[..i]))
      invariant SeenMatches(seen, causal) && CanonicalClaims(causal) && Coherent(causal)
      invariant linking == Linking(causal, scope, start, end) && Coherent(linking)
      invariant groups == LinkGroups(linking)
    {
      var c := cs[i];
      CausalErrorOfPrefix(cs, i);
      var error := CheckCausal(c, seen, causal);
      if error.Some? {
        CausalErrorPersists(cs, i + 1);
        return Err(error.value);
      }
      ClaimsGrow(cs, i);
      CausalPartOneMore(ClaimsOf(cs[..i]), ClaimOf(c));
      if c.key.predicateName != CAUSAL_PREDICATE {
        continue;
      }
      CausalSeenGrows(seen, causal, c);
      if c.observation.id in seen {
        continue;
      }
      LinkingOneMore(causal, ClaimOf(c), scope, start, end);
      seen := seen[c.observation.id := ClaimOf(c)];
      causal := causal + {ClaimOf(c)};
      if !Links(scope, start, end, c.observation) {
        continue;
      }
      groups := AddToLinks(groups, ClaimOf(c), linking);
      linking := linking + {ClaimOf(c)};
    }
    assert cs[..|cs|] == cs;
    r := Ok(groups);
  }

  // ---- chronology ----

  function CausalExtentBound(e: TemporalExtent): Time {
    if e.AtInstant? then e.instant
    else
      var (since, until) := Bounds(e);
      if since.Some? then since.value else if until.Some? then until.value else ZERO_TIME
  }

  /** The zero time comes last. */
  function CompareCausalTime(left: Time, right: Time): int {
    if (left == ZERO_TIME) != (right == ZERO_TIME) then if left == ZERO_TIME then 1 else -1
    else if left < right then -1
    else if left > right then 1
    else 0
  }

  predicate CausalBefore(left: DatedLink, right: DatedLink) {
    var valid := CompareCausalTime(left.earliestValid, right.earliestValid);
    var recorded := CompareCausalTime(left.earliestRecorded, right.earliestRecorded);
    var causes := CompareTerms(left.link.cause, right.link.cause);
    if valid != 0 then valid < 0
    else if recorded != 0 then recorded < 0
    else if left.firstId != right.firstId then StringLess(left.firstId, right.firstId)
    else if causes != 0 then causes < 0
    else CompareTerms(left.link.effect, right.link.effect) < 0
  }

  ghost predicate IsLeastTime(s: set<Time>, x: Time) {
    x in s && forall y | y in s :: x <= y
  }

  ghost predicate IsLeastId(s: set<string>, x: string) {
    x in s && forall y | y in s :: y == x || StringLess(x, y)
  }

  ghost function LeastTime(s: set<Time>): Time {
    if x :| IsLeastTime(s, x) then x else ZERO_TIME
  }

  ghost function LeastId(s: set<string>): string {
    if x :| IsLeastId(s, x) then x else ""
  }

  lemma LeastTimeIsUnique(s: set<Time>, x: Time)
    requires IsLeastTime(s, x)
    ensures LeastTime(s) == x
  {
    var y := LeastTime(s);
    assert IsLeastTime(s, y);
  }

  lemma LeastIdIsUnique(s: set<string>, x: string)
    requires IsLeastId(s, x)
    ensures LeastId(s) == x
  {
    var y := LeastId(s);
    assert IsLeastId(s, y);
    CompareStringsIsAntisymmetric(x, y);
  }

  lemma LeastIdOneMore(s: set<string>, x: string, id: string)
    requires IsLeastId(s, x)
    ensures IsLeastId(s + {id}, if StringLess(id, x) then id else x)
  {
    CompareStringsIsAntisymmetric(x, id);
    forall y | y in s && y != x && StringLess(id, x) ensures StringLess(id, y) {
      CompareStringsIsTransitive(id, x, y);
    }
  }

  ghost function ValidBounds(observations: map<string, Observation>): set<Time> {
    set id | id in observations :: CausalExtentBound(observations[id].validTime)
  }

  ghost function RecordedTimes(observations: map<string, Observation>): set<Time> {
    set id | id in observations :: observations[id].recordedAt
  }

  /** What the constructors and causal selection guarantee of accumulated observations. */
  ghost predicate Datable(observations: map<string, Observation>) {
    forall id | id in observations ::
      id != "" && observations[id].recordedAt != ZERO_TIME && CausalExtentBound(observations[id].validTime) != ZERO_TIME
  }

  /** The running minima over the observations seen so far; zero values stand for "none yet". */
  ghost predicate ChronologyOf(done: map<string, Observation>, valid: Time, recorded: Time, id: string) {
    if done == map[] then valid == ZERO_TIME && recorded == ZERO_TIME && id == ""
    else
      && valid != ZERO_TIME && IsLeastTime(ValidBounds(done), valid)
      && recorded != ZERO_TIME && IsLeastTime(RecordedTimes(done), recorded)
      && id != "" && IsLeastId(done.Keys, id)
  }

  function EarlierValid(earliest: Time, valid: Time): Time {
    if earliest == ZERO_TIME || (valid != ZERO_TIME && valid < earliest) then valid else earliest
  }

  function EarlierRecorded(earliest: Time, recorded: Time): Time {
    if earliest == ZERO_TIME || recorded < earliest then recorded else earliest
  }

  function EarlierId(earliest: string, id: string): string {
    if earliest == "" || StringLess(id, earliest) then id else earliest
  }

  lemma ChronologyOneMore(
    done: map<string, Observation>, valid: Time, recorded: Time, first: string, id: string, o: Observation)
    requires ChronologyOf(done, valid, recorded, first) && id !in done
    requires id != "" && o.recordedAt != ZERO_TIME && CausalExtentBound(o.validTime) != ZERO_TIME
    ensures ChronologyOf(done[id := o], EarlierValid(valid, CausalExtentBound(o.validTime)),
                         EarlierRecorded(recorded, o.recordedAt), EarlierId(first, id))
  {
    DatedOneMore(done, id, o);
    assert done[id := o].Keys == done.Keys + {id};
    if done == map[] {
      assert ValidBounds(done) == {} && RecordedTimes(done) == {};
    } else {
      LeastIdOneMore(done.Keys, first, id);
    }
  }

  lemma DatedOneMore(done: map<string, Observation>, id: string, o: Observation)
    requires id !in done
    ensures ValidBounds(done[id := o]) == ValidBounds(done) + {CausalExtentBound(o.validTime)}
    ensures RecordedTimes(done[id := o]) == RecordedTimes(done) + {o.recordedAt}
  {
    var after := done[id := o];
    forall x | x in ValidBounds(done) + {CausalExtentBound(o.validTime)} ensures x in ValidBounds(after) {
      if x in ValidBounds(done) {
        var j :| j in done && CausalExtentBound(done[j].validTime) == x;
        assert j in after && after[j] == done[j];
      } else {
        assert after[id] == o;
      }
    }
    forall x | x in RecordedTimes(done) + {o.recordedAt} ensures x in RecordedTimes(after) {
      if x in RecordedTimes(done) {
        var j :| j in done && done[j].recordedAt == x;
        assert j in after && after[j] == done[j];
      } else {
        assert after[id] == o;
      }
    }
  }

  method CausalAccumulatorChronology(observations: map<string, Observation>)
    returns (earliestValid: Time, earliestRecorded: Time, earliestId: string)
    requires Datable(observations) && observations != map[]
    ensures earliestValid == LeastTime(ValidBounds(observations))
    ensures earliestRecorded == LeastTime(RecordedTimes(observations))
    ensures earliestId == LeastId(observations.Keys)
  {
    earliestValid, earliestRecorded, earliestId := ZERO_TIME, ZERO_TIME, "";
    var rest := observations.Keys;
    ghost var done: map<string, Observation> := map[];
    while rest != {}
      invariant rest <= observations.Keys && done == observations - rest
      invariant ChronologyOf(done, earliestValid, earliestRecorded, earliestId)
    {
      var id :| id in rest;
      var o := observations[id];
      ChronologyOneMore(done, earliestValid, earliestRecorded, earliestId, id, o);
      earliestValid := EarlierValid(earliestValid, CausalExtentBound(o.validTime));
      earliestRecorded := EarlierRecorded(earliestRecorded, o.recordedAt);
      earliestId := EarlierId(earliestId, id);
      done := done[id := o];
      rest := rest - {id};
    }
    assert done == observations;
    LeastTimeIsUnique(ValidBounds(observations), earliestValid);
    LeastTimeIsUnique(RecordedTimes(observations), earliestRecorded);
    LeastIdIsUnique(observations.Keys, earliestId);
  }

  // ---- the chain ----

  ghost function DatedLinkFrom(acc: LinkAccumulator): DatedLink {
    DatedLink(
      LeastTime(ValidBounds(acc.observations)), LeastTime(RecordedTimes(acc.observations)),
      LeastId(acc.observations.Keys),
      CausalLink(acc.link.cause, acc.link.effect, Sorted(StringLess, acc.observations.Keys),
                 Sorted(StringLess, acc.supporting), Sorted(StringLess, acc.contradicting)))
  }

  method DateLink(acc: LinkAccumulator) returns (d: DatedLink)
    requires Datable(acc.observations) && acc.observations != map[]
    ensures d == DatedLinkFrom(acc)
  {
    var earliestValid, earliestRecorded, firstId := CausalAccumulatorChronology(acc.observations);
    var ids := SortStrings(acc.observations.Keys);
    var supporting := SortStrings(acc.supporting);
    var contradicting := SortStrings(acc.contradicting);
    d := DatedLink(earliestValid, earliestRecorded, firstId,
                   CausalLink(acc.link.cause, acc.link.effect, ids, supporting, contradicting));
  }

  ghost function DatedLinks(groups: map<LinkKey, LinkAccumulator>): set<DatedLink> {
    set l | l in groups :: DatedLinkFrom(groups[l])
  }

  ghost predicate WellKeyed(groups: map<LinkKey, LinkAccumulator>) {
    forall l | l in groups ::
      && groups[l].link == l && CanonicalTerm(l.cause) && CanonicalTerm(l.effect)
      && Datable(groups[l].observations) && groups[l].observations != map[]
  }

  lemma CausalTimesAreOrdered(x: Time, y: Time, z: Time)
    ensures CompareCausalTime(x, y) == 0 <==> x == y
    ensures CompareCausalTime(y, x) == -CompareCausalTime(x, y)
    ensures CompareCausalTime(x, y) < 0 && CompareCausalTime(y, z) < 0 ==> CompareCausalTime(x, z) < 0
  {
  }

  lemma CausalBeforeIsTransitive(a: DatedLink, b: DatedLink, c: DatedLink)
    requires CausalBefore(a, b) && CausalBefore(b, c)
    ensures CausalBefore(a, c)
  {
    CausalTimesAreOrdered(a.earliestValid, b.earliestValid, c.earliestValid);
    CausalTimesAreOrdered(b.earliestValid, c.earliestValid, a.earliestValid);
    CausalTimesAreOrdered(a.earliestRecorded, b.earliestRecorded, c.earliestRecorded);
    CausalTimesAreOrdered(b.earliestRecorded, c.earliestRecorded, a.earliestRecorded);
    CompareStringsIsAntisymmetric(a.firstId, b.firstId);
    CompareStringsIsAntisymmetric(b.firstId, c.firstId);
    CompareStringsIsAntisymmetric(a.firstId, c.firstId);
    if StringLess(a.firstId, b.firstId) && StringLess(b.firstId, c.firstId) {
      CompareStringsIsTransitive(a.firstId, b.firstId, c.firstId);
    }
    LinkTermsAreOrdered(a.link.cause, b.link.cause, c.link.cause);
    LinkTermsAreOrdered(a.link.effect, b.link.effect, c.link.effect);
  }

  lemma LinkTermsAreOrdered(a: Term, b: Term, c: Term)
    ensures CompareTerms(a, b) == 0 && CompareTerms(b, c) <= 0 ==> CompareTerms(a, c) == CompareTerms(b, c)
    ensures CompareTerms(b, c) == 0 ==> CompareTerms(a, c) == CompareTerms(a, b)
    ensures CompareTerms(a, b) < 0 && CompareTerms(b, c) < 0 ==> CompareTerms(a, c) < 0
  {
    CompareTermsIsOrder(a, b, c);
    CompareTermsIsOrder(b, c, a);
    IdentityDecides(a, b, c);
    IdentityDecides(c, b, a);
    CompareTermsIsOrder(c, a, b);
    CompareTermsIsOrder(c, b, a);
  }

  lemma IdentityDecides(a: Term, b: Term, c: Term)
    ensures TermIdentity(a) == TermIdentity(b) ==> CompareTerms(a, c) == CompareTerms(b, c)
  {
  }

  lemma CausalBeforeIsTotal(d: DatedLink, e: DatedLink)
    requires CanonicalTerm(d.link.cause) && CanonicalTerm(d.link.effect)
    requires CanonicalTerm(e.link.cause) && CanonicalTerm(e.link.effect)
    requires d.link.cause != e.link.cause || d.link.effect != e.link.effect
    ensures CausalBefore(d, e) || CausalBefore(e, d)
  {
    CausalTimesAreOrdered(d.earliestValid, e.earliestValid, d.earliestValid);
    CausalTimesAreOrdered(d.earliestRecorded, e.earliestRecorded, d.earliestRecorded);
    CompareStringsIsAntisymmetric(d.firstId, e.firstId);
    CompareTermsIsOrder(d.link.cause, e.link.cause, d.link.cause);
    CompareTermsIsOrder(d.link.effect, e.link.effect, d.link.effect);
  }

  lemma CausalBeforeIsIrreflexive(d: DatedLink)
    ensures !CausalBefore(d, d)
  {
    CompareTermsIsOrder(d.link.cause, d.link.cause, d.link.cause);
    CompareTermsIsOrder(d.link.effect, d.link.effect, d.link.effect);
  }

  lemma LinksHaveDifferentEnds(groups: map<LinkKey, LinkAccumulator>, d: DatedLink, e: DatedLink)
    requires WellKeyed(groups) && d in DatedLinks(groups) && e in DatedLinks(groups)
    ensures CanonicalTerm(d.link.cause) && CanonicalTerm(d.link.effect)
    ensures d != e ==> d.link.cause != e.link.cause || d.link.effect != e.link.effect
  {
    var l :| l in groups && d == DatedLinkFrom(groups[l]);
    var m :| m in groups && e == DatedLinkFrom(groups[m]);
  }

  /** compareCausalAccumulators is a strict total order on links with different ends. */
  lemma CausalOrder(groups: map<LinkKey, LinkAccumulator>)
    requires WellKeyed(groups)
    ensures StrictOrderOn(CausalBefore, DatedLinks(groups))
  {
    var s := DatedLinks(groups);
    forall d | d in s ensures !CausalBefore(d, d) { CausalBeforeIsIrreflexive(d); }
    forall d, e | d in s && e in s && d != e ensures CausalBefore(d, e) || CausalBefore(e, d) {
      LinksHaveDifferentEnds(groups, d, e);
      LinksHaveDifferentEnds(groups, e, d);
      CausalBeforeIsTotal(d, e);
    }
    forall d, e, f | d in s && e in s && f in s && CausalBefore(d, e) && CausalBefore(e, f) ensures CausalBefore(d, f) {
      CausalBeforeIsTransitive(d, e, f);
    }
  }

  function LinksOf(ds: seq<DatedLink>): seq<CausalLink> {
    seq(|ds|, i requires 0 <= i < |ds| => ds[i].link)
  }

  method DateLinks(groups: map<LinkKey, LinkAccumulator>) returns (dated: set<DatedLink>)
    requires WellKeyed(groups)
    ensures dated == DatedLinks(groups)
  {
    dated := {};
    var rest := groups.Keys;
    ghost var done: map<LinkKey, LinkAccumulator> := map[];
    while rest != {}
      invariant rest <= groups.Keys && done == groups - rest
      invariant dated == DatedLinks(done)
    {
      var l :| l in rest;
      var d := DateLink(groups[l]);
      DatedLinksOneMore(done, l, groups[l]);
      dated := dated + {d};
      done := done[l := groups[l]];
      rest := rest - {l};
    }
    assert done == groups;
  }

  method ExtractLinks(ordered: seq<DatedLink>) returns (chain: seq<CausalLink>)
    ensures chain == LinksOf(ordered)
  {
    chain := [];
    for i := 0 to |ordered|
      invariant chain == LinksOf(ordered[..i])
    {
      chain := chain + [ordered[i].link];
    }
    assert ordered[..|ordered|] == ordered;
  }

  method OrderLinks(groups: map<LinkKey, LinkAccumulator>) returns (chain: seq<CausalLink>)
    requires WellKeyed(groups)
    ensures chain == LinksOf(Sorted(CausalBefore, DatedLinks(groups)))
  {
    var dated := DateLinks(groups);
    CausalOrder(groups);
    var ordered := SortedElements(dated, CausalBefore);
    chain := ExtractLinks(ordered);
  }

  lemma DatedLinksOneMore(done: map<LinkKey, LinkAccumulator>, l: LinkKey, acc: LinkAccumulator)
    requires l !in done
    ensures DatedLinks(done[l := acc]) == DatedLinks(done) + {DatedLinkFrom(acc)}
  {
    forall d ensures d in DatedLinks(done[l := acc]) <==> d in DatedLinks(done) + {DatedLinkFrom(acc)} {
      if d in DatedLinks(done) {
        var k :| k in done && d == DatedLinkFrom(done[k]);
        assert done[l := acc][k] == done[k];
      }
      if d == DatedLinkFrom(acc) { assert done[l := acc][l] == acc; }
    }
  }

  ghost function ChainOf(claims: set<Claim>, scope: KnowledgeScope, start: Time, end: Time): seq<CausalLink>
    requires Coherent(LinkClaims(claims, scope, start, end))
  {
    LinksOf(Sorted(CausalBefore, DatedLinks(LinkGroups(LinkClaims(claims, scope, start, end)))))
  }

  ghost function ChainState(selection: TemporalSelection, scope: KnowledgeScope, cs: seq<StateCandidate>)
    : Result<seq<CausalLink>, StateError>
  {
    CausallyAcceptedIsErrorFree(cs);
    if !selection.WindowSelection? then Err(WrongSelection)
    else if CausalError(cs).Some? then Err(RejectedCandidates(CausalError(cs).value))
    else Ok(ChainOf(ClaimsOf(cs), scope, selection.start, selection.end))
  }

  lemma GroupsAreWellKeyed(claims: set<Claim>, scope: KnowledgeScope, start: Time, end: Time)
    requires Coherent(LinkClaims(claims, scope, start, end))
    requires forall c | c in CausalPart(claims) :: CanonicalTerm(c.key.subject) && CanonicalTerm(c.value) && Canonical(c.observation)
    ensures WellKeyed(LinkGroups(LinkClaims(claims, scope, start, end)))
  {
    var linking := LinkClaims(claims, scope, start, end);
    forall l | l in LinkGroups(linking)
      ensures LinkGroups(linking)[l].link == l && CanonicalTerm(l.cause) && CanonicalTerm(l.effect)
      ensures Datable(LinkGroups(linking)[l].observations) && LinkGroups(linking)[l].observations != map[]
    {
      var c :| c in linking && LinkOf(c) == l;
      assert c in ClaimsOfLink(linking, l);
      IndexIsDatable(ClaimsOfLink(linking, l), c);
    }
  }

  lemma IndexIsDatable(part: set<Claim>, c: Claim)
    requires Coherent(part) && c in part
    requires forall d | d in part :: Canonical(d.observation) && CausalExtentBound(d.observation.validTime) != ZERO_TIME
    ensures Datable(ObservationIndex(part)) && ObservationIndex(part) != map[]
  {
    assert c.observation.id in ObservationIndex(part);
  }

  /** Recorded times are those of constructed observations, so never the zero time. */
  method BuildCausalChain(selection: TemporalSelection, scope: KnowledgeScope, cs: seq<StateCandidate>)
    returns (r: Result<seq<CausalLink>, StateError>)
    requires forall c | c in cs :: Canonical(c.observation)
    ensures r == ChainState(selection, scope, cs)
  {
    CausallyAcceptedIsErrorFree(cs);
    if !selection.WindowSelection? {
      return Err(WrongSelection);
    }
    var groups := CollectLinks(scope, cs, selection.start, selection.end);
    if groups.Err? {
      return Err(RejectedCandidates(groups.error));
    }
    GroupsAreWellKeyed(ClaimsOf(cs), scope, selection.start, selection.end);
    var chain := OrderLinks(groups.value);
    r := Ok(chain);
  }
}
