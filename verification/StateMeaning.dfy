/** What an aggregated state says, in terms of the observations alone: which of them make a fact, and
    why a key has none. Groups, entries and roles do not occur in the statements. */
module StateMeaning {
  import opened Observations
  import opened Ordering
  import opened States
  import opened Eligibility
  import opened Claims
  import opened Materials
  import opened Aggregation
  import opened StateProperties
  import opened Comparisons
  import opened ComparisonProperties

  // ---- what a claim contributes ----

  /** Known by the cutoff, possibly valid there, and not rejected. */
  ghost predicate BearsOn(c: Claim, scope: KnowledgeScope, sel: ValidTimeSelector) {
    && (scope.KnownAsOf? ==> c.observation.recordedAt <= scope.cutoff)
    && Select(sel, c.observation.validTime) != Excluded
    && c.observation.status != Rejected
  }

  ghost predicate Backed(c: Claim) {
    EvidenceIds(c.observation, Supporting) != {}
  }

  /** Backed, certainly valid there, and no mere hypothesis. */
  ghost predicate Attests(c: Claim, sel: ValidTimeSelector) {
    Backed(c) && Select(sel, c.observation.validTime) == Definite && c.observation.status != Hypothesized
  }

  ghost function Bearing(claims: set<Claim>, scope: KnowledgeScope, sel: ValidTimeSelector, k: StateKey): set<Claim> {
    set c | c in claims && c.key == k && BearsOn(c, scope, sel)
  }

  ghost function Attesting(claims: set<Claim>, scope: KnowledgeScope, sel: ValidTimeSelector, k: StateKey): set<Claim> {
    set c | c in Bearing(claims, scope, sel, k) && Attests(c, sel)
  }

  /** Some claim attests `v` for the key, and every claim that bears on the key names `v` and is backed. */
  ghost predicate Holds(claims: set<Claim>, scope: KnowledgeScope, sel: ValidTimeSelector, k: StateKey, v: Term) {
    && (exists c | c in Attesting(claims, scope, sel, k) :: c.value == v)
    && (forall c | c in Bearing(claims, scope, sel, k) :: c.value == v && Backed(c))
  }

  lemma BearingEntries(claims: set<Claim>, scope: KnowledgeScope, sel: ValidTimeSelector, k: StateKey, c: Claim)
    ensures c in Bearing(claims, scope, sel, k) <==> Entry(c, RoleOf(sel, c.observation)) in GroupAt(claims, scope, sel, k)
    ensures RoleOf(sel, c.observation).CounterOnly? <==> !Backed(c)
    ensures c in Bearing(claims, scope, sel, k) ==> (RoleOf(sel, c.observation).Supported? <==> Attests(c, sel))
    ensures RoleOf(sel, c.observation).TentativeInTime? <==> Backed(c) && Select(sel, c.observation.validTime) == Uncertain
  {
    if l :| l in c.observation.evidence && l.role == Supporting {
      assert l.evidenceId in EvidenceIds(c.observation, Supporting);
    }
  }

  lemma GroupEntries(claims: set<Claim>, scope: KnowledgeScope, sel: ValidTimeSelector, k: StateKey)
    ensures forall e | e in GroupAt(claims, scope, sel, k) ::
      e.claim in Bearing(claims, scope, sel, k) && e.role == RoleOf(sel, e.claim.observation)
  {
    forall e | e in GroupAt(claims, scope, sel, k)
      ensures e.claim in Bearing(claims, scope, sel, k) && e.role == RoleOf(sel, e.claim.observation)
    {
      BearingEntries(claims, scope, sel, k, e.claim);
    }
  }

  /** A key resolves to a value exactly when the value holds. */
  lemma ResolutionIsHolding(claims: set<Claim>, scope: KnowledgeScope, sel: ValidTimeSelector, k: StateKey, v: Term)
    ensures ResolvesTo(GroupAt(claims, scope, sel, k), v) <==> Holds(claims, scope, sel, k, v)
  {
    var group := GroupAt(claims, scope, sel, k);
    GroupEntries(claims, scope, sel, k);
    forall c { BearingEntries(claims, scope, sel, k, c); }
    if ResolvesTo(group, v) {
      var e :| e in group && e.role.Supported?;
      assert e.claim in Attesting(claims, scope, sel, k) && e.claim.value == v;
      forall c | c in Bearing(claims, scope, sel, k) ensures c.value == v && Backed(c) {
        assert Entry(c, RoleOf(sel, c.observation)) in group;
      }
    }
    if Holds(claims, scope, sel, k, v) {
      var c :| c in Attesting(claims, scope, sel, k) && c.value == v;
      assert Entry(c, RoleOf(sel, c.observation)) in group;
    }
  }

  // ---- facts ----

  /** The fact, or candidate, that a set of claims makes. */
  ghost function FactOfClaims(k: StateKey, v: Term, part: set<Claim>): Fact {
    Fact(k, v, Sorted(StringLess, ClaimIds(part)),
         Sorted(StringLess, EvidenceOf(part, Supporting)), Sorted(StringLess, EvidenceOf(part, Contradicting)))
  }

  lemma AttestingAreSupported(claims: set<Claim>, scope: KnowledgeScope, sel: ValidTimeSelector, k: StateKey)
    ensures ClaimsIn(WithRole(GroupAt(claims, scope, sel, k), Supported)) == Attesting(claims, scope, sel, k)
  {
    var group := GroupAt(claims, scope, sel, k);
    GroupEntries(claims, scope, sel, k);
    forall c { BearingEntries(claims, scope, sel, k, c); }
    forall c | c in Attesting(claims, scope, sel, k) ensures c in ClaimsIn(WithRole(group, Supported)) {
      assert Entry(c, RoleOf(sel, c.observation)) in WithRole(group, Supported);
    }
  }

  /** The facts are exactly the values that hold, each made of the claims that attest it. */
  lemma FactsAreWhatHolds(claims: set<Claim>, scope: KnowledgeScope, sel: ValidTimeSelector, f: Fact)
    requires CanonicalClaims(claims)
    ensures f in MaterialUnder(claims, scope, sel).facts <==>
      && Holds(claims, scope, sel, f.key, f.value)
      && f == FactOfClaims(f.key, f.value, Attesting(claims, scope, sel, f.key))
  {
    var entries := Entries(claims, scope, sel);
    var group := GroupAt(claims, scope, sel, f.key);
    FactsOfMaterial(entries, f);
    ResolutionIsHolding(claims, scope, sel, f.key, f.value);
    AttestingAreSupported(claims, scope, sel, f.key);
    if ResolvesTo(group, f.value) {
      var e :| e in group && e.role.Supported?;
      assert f.key in Keys(entries) && f.value in Values(group);
    }
  }

  // ---- unresolved items ----

  ghost predicate Attested(claims: set<Claim>, scope: KnowledgeScope, sel: ValidTimeSelector, k: StateKey, v: Term) {
    exists c | c in Attesting(claims, scope, sel, k) :: c.value == v
  }

  /** A backed claim that may or may not be valid there names a value that no claim attests. */
  ghost predicate OpenInTime(claims: set<Claim>, scope: KnowledgeScope, sel: ValidTimeSelector, k: StateKey) {
    exists c | c in Bearing(claims, scope, sel, k) ::
      Backed(c) && Select(sel, c.observation.validTime) == Uncertain && !Attested(claims, scope, sel, k, c.value)
  }

  /** A backed hypothesis that is certainly valid there names a value that no claim attests. */
  ghost predicate OpenByHypothesis(claims: set<Claim>, scope: KnowledgeScope, sel: ValidTimeSelector, k: StateKey) {
    exists c | c in Bearing(claims, scope, sel, k) ::
      && Backed(c) && Select(sel, c.observation.validTime) == Definite && c.observation.status == Hypothesized
      && !Attested(claims, scope, sel, k, c.value)
  }

  ghost predicate AttestsTwo(claims: set<Claim>, scope: KnowledgeScope, sel: ValidTimeSelector, k: StateKey) {
    exists c, d | c in Attesting(claims, scope, sel, k) && d in Attesting(claims, scope, sel, k) :: c.value != d.value
  }

  /** Two claims attest different values over extents that overlap. */
  ghost predicate Clashes(claims: set<Claim>, scope: KnowledgeScope, sel: ValidTimeSelector, k: StateKey) {
    exists c, d | c in Attesting(claims, scope, sel, k) && d in Attesting(claims, scope, sel, k) ::
      c.value != d.value && ExtentsOverlap(c.observation.validTime, d.observation.validTime)
  }

  /** Why a key on which claims bear has no fact. */
  ghost predicate Explains(
    reason: UnresolvedReason, claims: set<Claim>, scope: KnowledgeScope, sel: ValidTimeSelector, k: StateKey)
  {
    var timeIsOpen := OpenInTime(claims, scope, sel, k);
    var settled := !timeIsOpen && !OpenByHypothesis(claims, scope, sel, k);
    match reason
    case TemporalUncertainty => timeIsOpen
    case HypothesizedOnly => !timeIsOpen && OpenByHypothesis(claims, scope, sel, k)
    case ConflictingValues => settled && Clashes(claims, scope, sel, k)
    case MultipleStatesInWindow => settled && AttestsTwo(claims, scope, sel, k) && !Clashes(claims, scope, sel, k)
    case CounterevidenceOnly =>
      settled && !AttestsTwo(claims, scope, sel, k) && exists c | c in Bearing(claims, scope, sel, k) :: !Backed(c)
  }

  lemma AttestedValues(claims: set<Claim>, scope: KnowledgeScope, sel: ValidTimeSelector, k: StateKey, v: Term)
    ensures v in Values(WithRole(GroupAt(claims, scope, sel, k), Supported)) <==> Attested(claims, scope, sel, k, v)
  {
    var supported := WithRole(GroupAt(claims, scope, sel, k), Supported);
    AttestingAreSupported(claims, scope, sel, k);
    if e :| e in supported && e.claim.value == v {
      assert e.claim in ClaimsIn(supported);
    }
    if c :| c in ClaimsIn(supported) && c.value == v {
      var e :| e in supported && e.claim == c;
    }
  }

  lemma OpenGroups(claims: set<Claim>, scope: KnowledgeScope, sel: ValidTimeSelector, k: StateKey)
    ensures HasAlternative(GroupAt(claims, scope, sel, k), TentativeInTime) <==> OpenInTime(claims, scope, sel, k)
    ensures HasAlternative(GroupAt(claims, scope, sel, k), TentativeByHypothesis) <==> OpenByHypothesis(claims, scope, sel, k)
  {
    var group := GroupAt(claims, scope, sel, k);
    GroupEntries(claims, scope, sel, k);
    forall c
      ensures c in Bearing(claims, scope, sel, k) <==> Entry(c, RoleOf(sel, c.observation)) in group
      ensures c.value in Values(WithRole(group, Supported)) <==> Attested(claims, scope, sel, k, c.value)
    {
      BearingEntries(claims, scope, sel, k, c);
      AttestedValues(claims, scope, sel, k, c.value);
    }
    forall c | c in Bearing(claims, scope, sel, k) {
      RolesOfBearing(claims, scope, sel, k, c);
    }
  }

  lemma RolesOfBearing(claims: set<Claim>, scope: KnowledgeScope, sel: ValidTimeSelector, k: StateKey, c: Claim)
    requires c in Bearing(claims, scope, sel, k)
    ensures RoleOf(sel, c.observation).TentativeInTime? <==> Backed(c) && Select(sel, c.observation.validTime) == Uncertain
    ensures RoleOf(sel, c.observation).TentativeByHypothesis? <==>
      Backed(c) && Select(sel, c.observation.validTime) == Definite && c.observation.status == Hypothesized
  {
    BearingEntries(claims, scope, sel, k, c);
  }

  lemma ClashingGroups(claims: set<Claim>, scope: KnowledgeScope, sel: ValidTimeSelector, k: StateKey)
    ensures SupportsTwoValues(GroupAt(claims, scope, sel, k)) <==> AttestsTwo(claims, scope, sel, k)
    ensures SupportedValuesOverlap(GroupAt(claims, scope, sel, k)) <==> Clashes(claims, scope, sel, k)
  {
    AttestingAreSupported(claims, scope, sel, k);
    ClashesOfGroup(GroupAt(claims, scope, sel, k), Attesting(claims, scope, sel, k));
  }

  lemma ClashesOfGroup(group: set<Entry>, attesting: set<Claim>)
    requires ClaimsIn(WithRole(group, Supported)) == attesting
    ensures SupportsTwoValues(group) <==> exists c, d | c in attesting && d in attesting :: c.value != d.value
    ensures SupportedValuesOverlap(group) <==> exists c, d | c in attesting && d in attesting ::
      c.value != d.value && ExtentsOverlap(c.observation.validTime, d.observation.validTime)
  {
    forall c ensures c in attesting <==> Entry(c, Supported) in group {
      if e :| e in WithRole(group, Supported) && e.claim == c {
        assert e == Entry(c, Supported);
      }
      if Entry(c, Supported) in group { assert Entry(c, Supported) in WithRole(group, Supported); }
    }
    forall e | e in group && e.role.Supported? ensures e.claim in attesting {
      assert e == Entry(e.claim, Supported);
    }
    if c, d :| c in attesting && d in attesting && c.value != d.value
             && ExtentsOverlap(c.observation.validTime, d.observation.validTime)
    {
      assert Conflicting(group, Entry(c, Supported), Entry(d, Supported));
    }
    if e, f :| Conflicting(group, e, f) {
      assert e.claim in attesting && f.claim in attesting;
    }
  }

  lemma ReasonIsExplained(claims: set<Claim>, scope: KnowledgeScope, sel: ValidTimeSelector, k: StateKey, reason: UnresolvedReason)
    requires GroupAt(claims, scope, sel, k) != {} && !Resolved(GroupAt(claims, scope, sel, k))
    ensures ReasonFor(GroupAt(claims, scope, sel, k)) == reason <==> Explains(reason, claims, scope, sel, k)
  {
    var group := GroupAt(claims, scope, sel, k);
    ReasonIsExactClassification(group);
    OpenGroups(claims, scope, sel, k);
    ClashingGroups(claims, scope, sel, k);
    CounterGroups(claims, scope, sel, k);
  }

  lemma CounterGroups(claims: set<Claim>, scope: KnowledgeScope, sel: ValidTimeSelector, k: StateKey)
    ensures (exists e :: e in GroupAt(claims, scope, sel, k) && e.role.CounterOnly?) <==>
            exists c | c in Bearing(claims, scope, sel, k) :: !Backed(c)
  {
    var group := GroupAt(claims, scope, sel, k);
    GroupEntries(claims, scope, sel, k);
    forall c { BearingEntries(claims, scope, sel, k, c); }
    if c :| c in Bearing(claims, scope, sel, k) && !Backed(c) {
      assert Entry(c, RoleOf(sel, c.observation)) in group;
    }
  }

  ghost function ClaimsOfValue(part: set<Claim>, v: Term): set<Claim> { set c | c in part && c.value == v }

  ghost function ValuesOfClaims(part: set<Claim>): set<Term> { set c | c in part :: c.value }

  /** One candidate per value that a claim bearing on the key names, in value order, each made of all
      those claims that name it. */
  ghost predicate CandidatesOf(part: set<Claim>, k: StateKey, candidates: seq<Fact>) {
    var vs := Sorted(TermLess, ValuesOfClaims(part));
    |candidates| == |vs| && forall i | 0 <= i < |vs| :: candidates[i] == FactOfClaims(k, vs[i], ClaimsOfValue(part, vs[i]))
  }

  lemma BearingIsGroup(claims: set<Claim>, scope: KnowledgeScope, sel: ValidTimeSelector, k: StateKey)
    ensures ClaimsIn(GroupAt(claims, scope, sel, k)) == Bearing(claims, scope, sel, k)
    ensures Values(GroupAt(claims, scope, sel, k)) == ValuesOfClaims(Bearing(claims, scope, sel, k))
    ensures forall v :: ClaimsIn(WithValue(GroupAt(claims, scope, sel, k), v)) == ClaimsOfValue(Bearing(claims, scope, sel, k), v)
  {
    var group := GroupAt(claims, scope, sel, k);
    GroupEntries(claims, scope, sel, k);
    forall c | c in Bearing(claims, scope, sel, k) ensures Entry(c, RoleOf(sel, c.observation)) in group {
      BearingEntries(claims, scope, sel, k, c);
    }
    forall v, c | c in ClaimsOfValue(Bearing(claims, scope, sel, k), v) ensures c in ClaimsIn(WithValue(group, v)) {
      assert Entry(c, RoleOf(sel, c.observation)) in WithValue(group, v);
    }
    forall v | v in ValuesOfClaims(Bearing(claims, scope, sel, k)) ensures v in Values(group) {
      var c :| c in Bearing(claims, scope, sel, k) && c.value == v;
      assert Entry(c, RoleOf(sel, c.observation)) in group;
    }
  }

  lemma CandidatesAreExact(claims: set<Claim>, scope: KnowledgeScope, sel: ValidTimeSelector, k: StateKey, candidates: seq<Fact>)
    ensures candidates == UnresolvedItem(k, GroupAt(claims, scope, sel, k)).candidates <==>
      CandidatesOf(Bearing(claims, scope, sel, k), k, candidates)
  {
    BearingIsGroup(claims, scope, sel, k);
    CandidatesOfGroup(k, GroupAt(claims, scope, sel, k), Bearing(claims, scope, sel, k), candidates);
  }

  lemma CandidatesOfGroup(k: StateKey, group: set<Entry>, part: set<Claim>, candidates: seq<Fact>)
    requires Values(group) == ValuesOfClaims(part)
    requires forall v :: ClaimsIn(WithValue(group, v)) == ClaimsOfValue(part, v)
    ensures candidates == UnresolvedItem(k, group).candidates <==> CandidatesOf(part, k, candidates)
  {
    var vs := Sorted(TermLess, Values(group));
    forall v ensures FactOf(k, v, WithValue(group, v)) == FactOfClaims(k, v, ClaimsOfValue(part, v)) {
    }
    assert UnresolvedItem(k, group).candidates == CandidateFacts(k, vs, group);
  }

  /** The unresolved items are exactly the keys on which claims bear although no value holds, with the
      reason and all that was claimed. */
  lemma UnresolvedIsWhatDoesNotHold(claims: set<Claim>, scope: KnowledgeScope, sel: ValidTimeSelector, u: UnresolvedFact)
    requires CanonicalClaims(claims)
    ensures u in MaterialUnder(claims, scope, sel).unresolved <==>
      && Bearing(claims, scope, sel, u.key) != {} && (forall v :: !Holds(claims, scope, sel, u.key, v))
      && Explains(u.reason, claims, scope, sel, u.key)
      && CandidatesOf(Bearing(claims, scope, sel, u.key), u.key, u.candidates)
  {
    var entries := Entries(claims, scope, sel);
    var group := GroupAt(claims, scope, sel, u.key);
    UnresolvedOfMaterial(entries, u);
    GroupIsListed(claims, scope, sel, u.key);
    CandidatesAreExact(claims, scope, sel, u.key, u.candidates);
    if group != {} && !Resolved(group) {
      ReasonIsExplained(claims, scope, sel, u.key, u.reason);
    }
  }

  lemma GroupIsListed(claims: set<Claim>, scope: KnowledgeScope, sel: ValidTimeSelector, k: StateKey)
    ensures k in Keys(Entries(claims, scope, sel)) <==> Bearing(claims, scope, sel, k) != {}
    ensures GroupAt(claims, scope, sel, k) != {} <==> Bearing(claims, scope, sel, k) != {}
    ensures Resolved(GroupAt(claims, scope, sel, k)) <==> exists v :: Holds(claims, scope, sel, k, v)
  {
    var group := GroupAt(claims, scope, sel, k);
    BearingIsGroup(claims, scope, sel, k);
    if e :| e in group {
      assert e.claim in ClaimsIn(group) && e in Entries(claims, scope, sel) && e.claim.key == k;
    }
    if k in Keys(Entries(claims, scope, sel)) {
      GroupOfListedKey(Entries(claims, scope, sel), k);
    }
    if c :| c in Bearing(claims, scope, sel, k) {
      assert c in ClaimsIn(group);
    }
    forall v ensures ResolvesTo(group, v) <==> Holds(claims, scope, sel, k, v) {
      ResolutionIsHolding(claims, scope, sel, k, v);
    }
    if v :| ResolvesTo(group, v) {
      var e :| e in group && e.role.Supported?;
      assert v in Values(group);
    }
  }

  // ---- summaries ----

  /** The facts are exactly the values that hold and the unresolved items exactly the keys for which none
      does, with all that is listed of them, each in key order. */
  ghost predicate Tells(s: Summary, claims: set<Claim>, scope: KnowledgeScope, sel: ValidTimeSelector) {
    && StrictlySorted(FactBefore, s.facts) && StrictlySorted(ItemBefore, s.unresolved)
    && (forall f: Fact :: f in s.facts <==>
          && Holds(claims, scope, sel, f.key, f.value)
          && f == FactOfClaims(f.key, f.value, Attesting(claims, scope, sel, f.key)))
    && (forall u: UnresolvedFact :: u in s.unresolved <==>
          && Bearing(claims, scope, sel, u.key) != {} && (forall v :: !Holds(claims, scope, sel, u.key, v))
          && Explains(u.reason, claims, scope, sel, u.key)
          && CandidatesOf(Bearing(claims, scope, sel, u.key), u.key, u.candidates))
  }

  lemma MaterialTells(selection: TemporalSelection, claims: set<Claim>, scope: KnowledgeScope, sel: ValidTimeSelector)
    requires CanonicalClaims(claims)
    ensures Tells(SummaryOf(selection, MaterialUnder(claims, scope, sel)), claims, scope, sel)
  {
    MaterialInOrder(Entries(claims, scope, sel));
    forall f: Fact { FactsAreWhatHolds(claims, scope, sel, f); }
    forall u: UnresolvedFact { UnresolvedIsWhatDoesNotHold(claims, scope, sel, u); }
  }

  /** The window state of accepted candidates says what holds in the window, and why the rest does not. */
  lemma WindowTellsWhatHolds(selection: TemporalSelection, scope: KnowledgeScope, cs: seq<StateCandidate>)
    requires selection.WindowSelection? && Accepted(cs)
    ensures
      var r := WindowState(selection, scope, cs);
      && r.Ok? && r.value.selection == selection
      && Tells(r.value, ClaimsOf(cs), scope, InWindow(selection.start, selection.end))
  {
    AcceptedIsErrorFree(cs);
    AcceptedClaimsAreCanonical(cs);
    MaterialTells(selection, ClaimsOf(cs), scope, InWindow(selection.start, selection.end));
  }

  /** The point state of accepted candidates says what holds at the point, and why the rest does not. */
  lemma PointTellsWhatHolds(selection: TemporalSelection, scope: KnowledgeScope, cs: seq<StateCandidate>)
    requires selection.PointSelection? && Accepted(cs)
    ensures
      var r := PointState(selection, scope, cs);
      && r.Ok? && r.value.selection == selection
      && Tells(r.value, ClaimsOf(cs), scope, AtPoint(selection.instant))
  {
    AcceptedIsErrorFree(cs);
    AcceptedClaimsAreCanonical(cs);
    MaterialTells(selection, ClaimsOf(cs), scope, AtPoint(selection.instant));
  }
}
