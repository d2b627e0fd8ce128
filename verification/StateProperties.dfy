/** What holds of every aggregated window and every reconstructed point. */
module StateProperties {
  import opened Results
  import opened Observations
  import opened Ordering
  import opened States
  import opened Eligibility
  import opened Claims
  import opened Materials
  import opened Aggregation

  ghost function GroupAt(claims: set<Claim>, scope: KnowledgeScope, sel: ValidTimeSelector, k: StateKey): set<Entry> {
    WithKey(Entries(claims, scope, sel), k)
  }

  // ---- order of candidates ----

  ghost predicate SameCandidates(cs: seq<StateCandidate>, ds: seq<StateCandidate>) {
    forall c :: c in cs <==> c in ds
  }

  /** Both fail, or both succeed with equal results. */
  ghost predicate SameOutcome<T>(r: Result<T, StateError>, s: Result<T, StateError>) {
    (r.Ok? <==> s.Ok?) && (r.Ok? ==> r == s)
  }

  lemma SameCandidatesSameClaims(cs: seq<StateCandidate>, ds: seq<StateCandidate>)
    requires SameCandidates(cs, ds)
    ensures ClaimsOf(cs) == ClaimsOf(ds)
    ensures FirstError(cs).None? <==> FirstError(ds).None?
  {
    AcceptedIsErrorFree(cs);
    AcceptedIsErrorFree(ds);
  }

  /** Permuting or repeating candidates changes nothing in the outcome. */
  lemma OrderIndependence(
    selection: TemporalSelection, scope: KnowledgeScope, cs: seq<StateCandidate>, ds: seq<StateCandidate>)
    requires SameCandidates(cs, ds)
    ensures SameOutcome(WindowState(selection, scope, cs), WindowState(selection, scope, ds))
    ensures SameOutcome(PointState(selection, scope, cs), PointState(selection, scope, ds))
  {
    SameCandidatesSameClaims(cs, ds);
  }

  // ---- recorded time ----

  function RecordedBy(cs: seq<StateCandidate>, cutoff: Time): seq<StateCandidate> {
    if cs == [] then []
    else
      RecordedBy(cs[..|cs| - 1], cutoff) +
      if cs[|cs| - 1].observation.recordedAt <= cutoff then [cs[|cs| - 1]] else []
  }

  lemma {:induction false} RecordedByMembers(cs: seq<StateCandidate>, cutoff: Time, c: StateCandidate)
    ensures c in RecordedBy(cs, cutoff) <==> c in cs && c.observation.recordedAt <= cutoff
  {
    if cs != [] {
      RecordedByMembers(cs[..|cs| - 1], cutoff, c);
      assert cs == cs[..|cs| - 1] + [cs[|cs| - 1]];
    }
  }

  lemma RecordedByClaims(cs: seq<StateCandidate>, cutoff: Time)
    ensures ClaimsOf(RecordedBy(cs, cutoff)) == set c | c in ClaimsOf(cs) && c.observation.recordedAt <= cutoff
    ensures Accepted(cs) ==> Accepted(RecordedBy(cs, cutoff))
  {
    var known := RecordedBy(cs, cutoff);
    forall c ensures c in known <==> c in cs && c.observation.recordedAt <= cutoff {
      RecordedByMembers(cs, cutoff, c);
    }
    forall c | c in ClaimsOf(cs) && c.observation.recordedAt <= cutoff ensures c in ClaimsOf(known) {
      var d :| d in cs && ClaimOf(d) == c;
      assert d in known;
    }
  }

  /** An as-of answer is the current answer over what was recorded by the cutoff, so observations
      recorded later never change it. */
  lemma AsOfAnswersAreStable(selection: TemporalSelection, cs: seq<StateCandidate>, cutoff: Time)
    requires Accepted(cs)
    ensures WindowState(selection, KnownAsOf(cutoff), cs)
         == WindowState(selection, CurrentKnowledge, RecordedBy(cs, cutoff))
    ensures PointState(selection, KnownAsOf(cutoff), cs)
         == PointState(selection, CurrentKnowledge, RecordedBy(cs, cutoff))
  {
    RecordedByClaims(cs, cutoff);
    AcceptedIsErrorFree(cs);
    AcceptedIsErrorFree(RecordedBy(cs, cutoff));
    forall sel {
      AsOfEntriesAreCurrentEntriesOfKnown(ClaimsOf(cs), cutoff, ClaimsOf(RecordedBy(cs, cutoff)), sel);
    }
  }

  // ---- windows and their instants ----

  lemma GroupIsUnionOfPointGroups(
    claims: set<Claim>, scope: KnowledgeScope, start: Time, end: Time, k: StateKey, e: Entry)
    requires start < end
    ensures e in GroupAt(claims, scope, InWindow(start, end), k)
       <==> exists t :: start <= t < end && e in GroupAt(claims, scope, AtPoint(t), k)
  {
    WindowEntriesAreUnionOfPointEntries(claims, scope, start, end, e);
    if e in GroupAt(claims, scope, InWindow(start, end), k) {
      var t :| start <= t < end && e in Entries(claims, scope, AtPoint(t));
      assert e in GroupAt(claims, scope, AtPoint(t), k);
    }
    if t :| start <= t < end && e in GroupAt(claims, scope, AtPoint(t), k) {
      assert e in Entries(claims, scope, AtPoint(t));
    }
  }

  /** No entry of the group at `t` names another value or is counterevidence only. */
  ghost predicate Undisputed(claims: set<Claim>, scope: KnowledgeScope, t: Time, k: StateKey, v: Term) {
    forall e | e in GroupAt(claims, scope, AtPoint(t), k) :: e.claim.value == v && !e.role.CounterOnly?
  }

  /** A key resolves to `v` over a window exactly when it does so at some instant of the window
      and no instant of the window disputes it. */
  lemma WindowResolution(
    claims: set<Claim>, scope: KnowledgeScope, start: Time, end: Time, k: StateKey, v: Term)
    requires start < end
    ensures ResolvesTo(GroupAt(claims, scope, InWindow(start, end), k), v) <==>
      && (exists t :: start <= t < end && ResolvesTo(GroupAt(claims, scope, AtPoint(t), k), v))
      && (forall t | start <= t < end :: Undisputed(claims, scope, t, k, v))
  {
    if ResolvesTo(GroupAt(claims, scope, InWindow(start, end), k), v) {
      var t := ResolvingInstant(claims, scope, start, end, k, v);
      forall t | start <= t < end ensures Undisputed(claims, scope, t, k, v) {
        WindowDisputesNothing(claims, scope, start, end, k, v, t);
      }
    }
    if && (exists t :: start <= t < end && ResolvesTo(GroupAt(claims, scope, AtPoint(t), k), v))
       && (forall t | start <= t < end :: Undisputed(claims, scope, t, k, v))
    {
      var t :| start <= t < end && ResolvesTo(GroupAt(claims, scope, AtPoint(t), k), v);
      UndisputedInstantsResolve(claims, scope, start, end, k, v, t);
    }
  }

  lemma ResolvingInstant(claims: set<Claim>, scope: KnowledgeScope, start: Time, end: Time, k: StateKey, v: Term)
    returns (t: Time)
    requires start < end && ResolvesTo(GroupAt(claims, scope, InWindow(start, end), k), v)
    ensures start <= t < end && ResolvesTo(GroupAt(claims, scope, AtPoint(t), k), v)
  {
    var e :| e in GroupAt(claims, scope, InWindow(start, end), k) && e.role.Supported?;
    GroupIsUnionOfPointGroups(claims, scope, start, end, k, e);
    t :| start <= t < end && e in GroupAt(claims, scope, AtPoint(t), k);
    WindowDisputesNothing(claims, scope, start, end, k, v, t);
  }

  lemma WindowDisputesNothing(
    claims: set<Claim>, scope: KnowledgeScope, start: Time, end: Time, k: StateKey, v: Term, t: Time)
    requires start <= t < end && ResolvesTo(GroupAt(claims, scope, InWindow(start, end), k), v)
    ensures Undisputed(claims, scope, t, k, v)
  {
    forall e | e in GroupAt(claims, scope, AtPoint(t), k) ensures e.claim.value == v && !e.role.CounterOnly? {
      GroupIsUnionOfPointGroups(claims, scope, start, end, k, e);
    }
  }

  lemma UndisputedInstantsResolve(
    claims: set<Claim>, scope: KnowledgeScope, start: Time, end: Time, k: StateKey, v: Term, t: Time)
    requires start <= t < end && ResolvesTo(GroupAt(claims, scope, AtPoint(t), k), v)
    requires forall u | start <= u < end :: Undisputed(claims, scope, u, k, v)
    ensures ResolvesTo(GroupAt(claims, scope, InWindow(start, end), k), v)
  {
    var window := GroupAt(claims, scope, InWindow(start, end), k);
    forall d | d in window ensures d.claim.value == v && !d.role.CounterOnly? {
      GroupIsUnionOfPointGroups(claims, scope, start, end, k, d);
      var u :| start <= u < end && d in GroupAt(claims, scope, AtPoint(u), k);
      assert Undisputed(claims, scope, u, k, v);
    }
    var e :| e in GroupAt(claims, scope, AtPoint(t), k) && e.role.Supported?;
    GroupIsUnionOfPointGroups(claims, scope, start, end, k, e);
    assert e in window;
  }

  lemma SupportedEntriesAreDefinite(claims: set<Claim>, scope: KnowledgeScope, sel: ValidTimeSelector, e: Entry)
    requires e in Entries(claims, scope, sel) && e.role.Supported?
    ensures Select(sel, e.claim.observation.validTime) == Definite
  {
  }

  lemma DefiniteEntryAtPoint(
    claims: set<Claim>, scope: KnowledgeScope, sel: ValidTimeSelector, e: Entry, t: Time)
    requires e in Entries(claims, scope, sel) && e.role.Supported?
    requires PointEligibility(t, e.claim.observation.validTime) == Definite
    ensures e in Entries(claims, scope, AtPoint(t))
  {
  }

  lemma ConflictHasAnInstant(
    claims: set<Claim>, scope: KnowledgeScope, start: Time, end: Time, k: StateKey, e: Entry, f: Entry)
    returns (t: Time)
    requires start < end && Conflicting(GroupAt(claims, scope, InWindow(start, end), k), e, f)
    ensures start <= t < end && SupportsTwoValues(GroupAt(claims, scope, AtPoint(t), k))
  {
    OverlapInsideWindow(start, end, e.claim.observation.validTime, f.claim.observation.validTime);
    t :| && start <= t < end
         && PointEligibility(t, e.claim.observation.validTime) == Definite
         && PointEligibility(t, f.claim.observation.validTime) == Definite;
    DefiniteEntryAtPoint(claims, scope, InWindow(start, end), e, t);
    DefiniteEntryAtPoint(claims, scope, InWindow(start, end), f, t);
    assert e in GroupAt(claims, scope, AtPoint(t), k) && f in GroupAt(claims, scope, AtPoint(t), k);
  }

  lemma InstantMakesConflict(
    claims: set<Claim>, scope: KnowledgeScope, start: Time, end: Time, k: StateKey, t: Time)
    returns (e: Entry, f: Entry)
    requires start <= t < end && SupportsTwoValues(GroupAt(claims, scope, AtPoint(t), k))
    ensures Conflicting(GroupAt(claims, scope, InWindow(start, end), k), e, f)
  {
    var point := GroupAt(claims, scope, AtPoint(t), k);
    e, f :| e in point && f in point && e.role.Supported? && f.role.Supported? && e.claim.value != f.claim.value;
    GroupIsUnionOfPointGroups(claims, scope, start, end, k, e);
    GroupIsUnionOfPointGroups(claims, scope, start, end, k, f);
    SupportedEntriesAreDefinite(claims, scope, AtPoint(t), e);
    SupportedEntriesAreDefinite(claims, scope, AtPoint(t), f);
    assert ExtentsOverlap(e.claim.observation.validTime, f.claim.observation.validTime);
  }

  /** The pairwise overlap test never looks at the window, yet finds a conflict exactly when some
      instant inside the window supports two values of the key outright. */
  lemma OverlapIsConflictAtAnInstant(
    claims: set<Claim>, scope: KnowledgeScope, start: Time, end: Time, k: StateKey)
    requires start < end
    ensures SupportedValuesOverlap(GroupAt(claims, scope, InWindow(start, end), k)) <==>
      exists t :: start <= t < end && SupportsTwoValues(GroupAt(claims, scope, AtPoint(t), k))
  {
    var window := GroupAt(claims, scope, InWindow(start, end), k);
    if e, f :| Conflicting(window, e, f) {
      var t := ConflictHasAnInstant(claims, scope, start, end, k, e, f);
    }
    if t :| start <= t < end && SupportsTwoValues(GroupAt(claims, scope, AtPoint(t), k)) {
      var e, f := InstantMakesConflict(claims, scope, start, end, k, t);
    }
  }

  /** Values supported at one instant, or at one left limit, always overlap. */
  lemma SupportedTogetherOverlap(claims: set<Claim>, scope: KnowledgeScope, sel: ValidTimeSelector, group: set<Entry>)
    requires !sel.InWindow? && group <= Entries(claims, scope, sel)
    ensures SupportsTwoValues(group) ==> SupportedValuesOverlap(group)
  {
    if e, f :| e in group && f in group && e.role.Supported? && f.role.Supported? && e.claim.value != f.claim.value {
      SupportedEntriesAreDefinite(claims, scope, sel, e);
      SupportedEntriesAreDefinite(claims, scope, sel, f);
      assert Conflicting(group, e, f);
    }
  }

  /** So neither a point reconstruction nor the state before a trajectory reports several states. */
  lemma PointsNeverReportSeveralStates(claims: set<Claim>, scope: KnowledgeScope, sel: ValidTimeSelector)
    requires CanonicalClaims(claims) && !sel.InWindow?
    ensures forall u | u in MaterialUnder(claims, scope, sel).unresolved :: u.reason != MultipleStatesInWindow
  {
    forall u | u in MaterialUnder(claims, scope, sel).unresolved ensures u.reason != MultipleStatesInWindow {
      PointItemReportsOneState(claims, scope, sel, u);
    }
  }

  lemma PointItemReportsOneState(claims: set<Claim>, scope: KnowledgeScope, sel: ValidTimeSelector, u: UnresolvedFact)
    requires CanonicalClaims(claims) && !sel.InWindow?
    ensures u in MaterialUnder(claims, scope, sel).unresolved ==> u.reason != MultipleStatesInWindow
  {
    if u in MaterialUnder(claims, scope, sel).unresolved {
      var entries := Entries(claims, scope, sel);
      UnresolvedOfMaterial(entries, u);
      GroupOfListedKey(entries, u.key);
      ReasonIsExactClassification(WithKey(entries, u.key));
      SupportedTogetherOverlap(claims, scope, sel, WithKey(entries, u.key));
    }
  }

  lemma GroupOfListedKey(entries: set<Entry>, k: StateKey)
    requires k in Keys(entries)
    ensures WithKey(entries, k) != {}
  {
    var e :| e in entries && e.claim.key == k;
    assert e in WithKey(entries, k);
  }

  // ---- provenance ----

  /** The facts of the material and the candidates of its unresolved items. */
  ghost predicate Lists(m: Material, f: Fact) {
    f in m.facts || exists u | u in m.unresolved :: f in u.candidates
  }

  /** The entries behind one listed fact. */
  ghost function Sources(entries: set<Entry>, k: StateKey, v: Term): set<Entry> {
    var group := WithKey(entries, k);
    if Resolved(group) then WithRole(group, Supported) else WithValue(group, v)
  }

  lemma CandidateOfItem(k: StateKey, group: set<Entry>, f: Fact)
    requires CanonicalEntries(group)
    ensures f in UnresolvedItem(k, group).candidates <==>
      f.value in Values(group) && f == FactOf(k, f.value, WithValue(group, f.value))
  {
    var vs := Sorted(TermLess, Values(group));
    SortedTermsElements(Values(group));
    if f.value in Values(group) && f == FactOf(k, f.value, WithValue(group, f.value)) {
      assert f.value in Elements(vs);
      var i :| 0 <= i < |vs| && vs[i] == f.value;
      assert UnresolvedItem(k, group).candidates[i] == f;
    }
    if f in UnresolvedItem(k, group).candidates {
      var i :| 0 <= i < |vs| && UnresolvedItem(k, group).candidates[i] == f;
      assert vs[i] in Elements(vs);
    }
  }

  /** Every listed fact is the union of its sources, for a key and a value that occur together. */
  lemma ListedFacts(entries: set<Entry>, f: Fact)
    requires CanonicalEntries(entries)
    ensures Lists(MaterialOf(entries), f) <==>
      && f.key in Keys(entries)
      && (if Resolved(WithKey(entries, f.key)) then f.value == ResolvedValue(WithKey(entries, f.key))
          else f.value in Values(WithKey(entries, f.key)))
      && f == FactOf(f.key, f.value, Sources(entries, f.key, f.value))
  {
    var m := MaterialOf(entries);
    var group := WithKey(entries, f.key);
    FactsOfMaterial(entries, f);
    CandidateOfItem(f.key, group, f);
    if u :| u in m.unresolved && f in u.candidates {
      UnresolvedOfMaterial(entries, u);
      CandidateOfItem(u.key, WithKey(entries, u.key), f);
    }
    if f.key in Keys(entries) && !Resolved(group) {
      UnresolvedOfMaterial(entries, UnresolvedItem(f.key, group));
    }
  }

  /** A selected observation is dropped only when it is tentative and its key resolved without it. */
  ghost predicate Dropped(entries: set<Entry>, e: Entry) {
    Tentative(e.role) && Resolved(WithKey(entries, e.claim.key))
  }

  lemma IdsOfFact(k: StateKey, v: Term, sources: set<Entry>, id: string)
    ensures id in FactOf(k, v, sources).observationIds <==> exists e :: e in sources && e.claim.observation.id == id
  {
    SortedStringsElements(Ids(sources));
    assert id in Sorted(StringLess, Ids(sources)) <==> id in Elements(Sorted(StringLess, Ids(sources)));
  }

  /** Each selected observation, unless dropped, is listed under its own key and value, and only
      there; nothing else is listed. */
  lemma ProvenanceIsConserved(claims: set<Claim>, scope: KnowledgeScope, sel: ValidTimeSelector)
    requires CanonicalClaims(claims) && Coherent(claims)
    ensures forall f, id | Lists(MaterialUnder(claims, scope, sel), f) ::
      id in f.observationIds <==> ListedFor(Entries(claims, scope, sel), f, id)
  {
    forall f, id | Lists(MaterialUnder(claims, scope, sel), f) {
      ListedIds(claims, scope, sel, f, id);
    }
  }

  /** A selected observation that is not dropped has this ID and states the key and value of the fact. */
  ghost predicate ListedFor(entries: set<Entry>, f: Fact, id: string) {
    exists e :: e in entries && e.claim.observation.id == id && !Dropped(entries, e)
             && e.claim.key == f.key && e.claim.value == f.value
  }

  /** Behind a listed fact stand exactly the entries of its key and value that are not dropped. */
  lemma SourcesAreUndropped(entries: set<Entry>, k: StateKey, v: Term)
    requires Resolved(WithKey(entries, k)) ==> v == ResolvedValue(WithKey(entries, k))
    ensures forall e :: e in Sources(entries, k, v) <==>
      e in entries && e.claim.key == k && e.claim.value == v && !Dropped(entries, e)
  {
    var group := WithKey(entries, k);
    if Resolved(group) {
      assert ResolvesTo(group, v);
    }
  }

  lemma ListedIds(claims: set<Claim>, scope: KnowledgeScope, sel: ValidTimeSelector, f: Fact, id: string)
    requires CanonicalClaims(claims) && Coherent(claims)
    ensures Lists(MaterialUnder(claims, scope, sel), f) ==>
      (id in f.observationIds <==> ListedFor(Entries(claims, scope, sel), f, id))
  {
    if Lists(MaterialUnder(claims, scope, sel), f) {
      var entries := Entries(claims, scope, sel);
      ListedFacts(entries, f);
      var sources := Sources(entries, f.key, f.value);
      IdsOfFact(f.key, f.value, sources, id);
      SourcesAreUndropped(entries, f.key, f.value);
    }
  }

  /** The listing of a selected, undropped observation, and its uniqueness. */
  lemma EveryObservationIsListedOnce(claims: set<Claim>, scope: KnowledgeScope, sel: ValidTimeSelector, e: Entry)
    returns (f: Fact)
    requires CanonicalClaims(claims) && Coherent(claims)
    requires e in Entries(claims, scope, sel) && !Dropped(Entries(claims, scope, sel), e)
    ensures Lists(MaterialUnder(claims, scope, sel), f)
    ensures e.claim.observation.id in f.observationIds && f.key == e.claim.key && f.value == e.claim.value
    ensures forall g | Lists(MaterialUnder(claims, scope, sel), g) && e.claim.observation.id in g.observationIds :: g == f
  {
    var entries := Entries(claims, scope, sel);
    var (k, v, id) := (e.claim.key, e.claim.value, e.claim.observation.id);
    var group := WithKey(entries, k);
    assert e in group && k in Keys(entries) && v in Values(group);
    f := FactOf(k, v, Sources(entries, k, v));
    if Resolved(group) { assert ResolvesTo(group, ResolvedValue(group)); }
    ListedFacts(entries, f);
    ListedIds(claims, scope, sel, f, id);
    forall g | Lists(MaterialUnder(claims, scope, sel), g) && id in g.observationIds ensures g == f {
      ListedFacts(entries, g);
      ListedIds(claims, scope, sel, g, id);
    }
  }

  /** The evidence, in one role, of the observations with the given IDs. */
  ghost function EvidenceOfIds(claims: set<Claim>, ids: seq<string>, role: EvidenceRole): set<string> {
    set c, id | c in claims && c.observation.id in ids && id in EvidenceIds(c.observation, role) :: id
  }

  lemma EvidenceOfSources(claims: set<Claim>, sources: set<Entry>, ids: seq<string>, role: EvidenceRole)
    requires Coherent(claims) && forall e | e in sources :: e.claim in claims
    requires Elements(ids) == Ids(sources)
    ensures Evidence(sources, role) == EvidenceOfIds(claims, ids, role)
  {
    forall id ensures id in Evidence(sources, role) <==> id in EvidenceOfIds(claims, ids, role) {
      if id in Evidence(sources, role) {
        var e :| e in sources && id in EvidenceIds(e.claim.observation, role);
        assert e.claim.observation.id in Elements(ids);
      }
      if id in EvidenceOfIds(claims, ids, role) {
        var c :| c in claims && c.observation.id in ids && id in EvidenceIds(c.observation, role);
        assert c.observation.id in Elements(ids);
        var e :| e in sources && e.claim.observation.id == c.observation.id;
        assert e.claim == c;
      }
    }
  }

  /** The evidence of a listed fact is the union, role by role, of the evidence of the very
      observations it lists. */
  lemma EvidenceIsExact(claims: set<Claim>, scope: KnowledgeScope, sel: ValidTimeSelector)
    requires CanonicalClaims(claims) && Coherent(claims)
    ensures forall f | Lists(MaterialUnder(claims, scope, sel), f) ::
      && f.observationIds != []
      && f.supportingEvidenceIds == Sorted(StringLess, EvidenceOfIds(claims, f.observationIds, Supporting))
      && f.contradictingEvidenceIds == Sorted(StringLess, EvidenceOfIds(claims, f.observationIds, Contradicting))
  {
    forall f | Lists(MaterialUnder(claims, scope, sel), f) {
      ListedEvidence(claims, scope, sel, f);
    }
  }

  lemma ListedEvidence(claims: set<Claim>, scope: KnowledgeScope, sel: ValidTimeSelector, f: Fact)
    requires CanonicalClaims(claims) && Coherent(claims)
    ensures Lists(MaterialUnder(claims, scope, sel), f) ==>
      && f.observationIds != []
      && f.supportingEvidenceIds == Sorted(StringLess, EvidenceOfIds(claims, f.observationIds, Supporting))
      && f.contradictingEvidenceIds == Sorted(StringLess, EvidenceOfIds(claims, f.observationIds, Contradicting))
  {
    if Lists(MaterialUnder(claims, scope, sel), f) {
      var entries := Entries(claims, scope, sel);
      ListedFacts(entries, f);
      var sources := Sources(entries, f.key, f.value);
      SortedStringsElements(Ids(sources));
      SourcesAreNonempty(entries, f.key, f.value);
      var e :| e in sources;
      assert e.claim.observation.id in Elements(f.observationIds);
      EvidenceOfSources(claims, sources, f.observationIds, Supporting);
      EvidenceOfSources(claims, sources, f.observationIds, Contradicting);
    }
  }

  lemma SourcesAreNonempty(entries: set<Entry>, k: StateKey, v: Term)
    requires k in Keys(entries)
    requires !Resolved(WithKey(entries, k)) ==> v in Values(WithKey(entries, k))
    ensures Sources(entries, k, v) != {}
  {
    var group := WithKey(entries, k);
    if Resolved(group) {
      assert ResolvesTo(group, ResolvedValue(group));
      var e :| e in group && e.role.Supported?;
      assert e in Sources(entries, k, v);
    } else {
      var e :| e in group && e.claim.value == v;
      assert e in Sources(entries, k, v);
    }
  }
}
