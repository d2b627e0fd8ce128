/** Aggregation of candidates into state (core/temporal/aggregation.go, core/temporal/point.go). */
module Aggregation {
  import opened Results
  import opened Observations
  import opened Ordering
  import opened States
  import opened Eligibility
  import opened Claims
  import opened Materials
  import opened Accumulators

  datatype StateError = WrongSelection | RejectedCandidates(error: AggregationError)

  datatype Summary = Summary(selection: TemporalSelection, facts: seq<Fact>, unresolved: seq<UnresolvedFact>)

  function SummaryOf(selection: TemporalSelection, m: Material): Summary {
    Summary(selection, m.facts, m.unresolved)
  }

  /** The groups of the selected entries, or the error of the first candidate that does not fit. */
  ghost function AggregateSpec(
    scope: KnowledgeScope, cs: seq<StateCandidate>, sel: ValidTimeSelector): Result<set<Entry>, AggregationError>
  {
    if FirstError(cs).Some? then Err(FirstError(cs).value) else Ok(Entries(ClaimsOf(cs), scope, sel))
  }

  ghost predicate SeenMatches(seen: map<string, Claim>, claims: set<Claim>) {
    && (forall id | id in seen :: seen[id] in claims && seen[id].observation.id == id)
    && (forall c | c in claims :: c.observation.id in seen && seen[c.observation.id] == c)
  }

  lemma ScanErrorOfSeen(seen: map<string, Claim>, claims: set<Claim>, c: StateCandidate)
    requires SeenMatches(seen, claims) && CandidateMatches(c) && !Blank(c.observation.id)
    ensures ScanError(claims, c) ==
      if c.observation.id !in seen then None
      else if seen[c.observation.id].key != c.key || seen[c.observation.id].value != c.value then Some(ConflictingState)
      else if seen[c.observation.id].observation != c.observation then Some(ConflictingPayload)
      else None
  {
  }

  lemma FirstErrorOfPrefix(cs: seq<StateCandidate>, i: nat)
    requires i < |cs| && FirstError(cs[..i]).None?
    ensures FirstError(cs[..i + 1]) == ScanError(ClaimsOf(cs[..i]), cs[i])
  {
    assert cs[..i + 1][..i] == cs[..i];
  }

  lemma EntriesOneMore(claims: set<Claim>, c: Claim, scope: KnowledgeScope, sel: ValidTimeSelector)
    ensures Entries(claims + {c}, scope, sel)
         == if Selected(scope, sel, c.observation)
            then Entries(claims, scope, sel) + {Entry(c, RoleOf(sel, c.observation))}
            else Entries(claims, scope, sel)
  {
  }

  /** The identities of canonical keys and terms are those keys and terms. */
  lemma CanonicalIdentities(a: StateCandidate, b: Claim)
    requires CanonicalKey(a.key) && CanonicalTerm(a.value) && CanonicalKey(b.key) && CanonicalTerm(b.value)
    ensures KeyIdentity(a.key) == KeyIdentity(b.key) <==> a.key == b.key
    ensures TermIdentity(a.value) == TermIdentity(b.value) <==> a.value == b.value
  {
  }

  /** The switch of aggregateCandidates. */
  method AddToGroup(group: KeyAccumulator, c: Claim, sel: ValidTimeSelector) returns (updated: KeyAccumulator)
    ensures updated == AddedToGroup(group, Entry(c, RoleOf(sel, c.observation)))
  {
    var temporallyUncertain := Select(sel, c.observation.validTime) == Uncertain;
    if !HasSupportingEvidence(c.observation) {
      var counterOnly := MergeCandidate(group.counterOnly, c.key, c.value, c.observation);
      updated := group.(counterOnly := counterOnly);
    } else if temporallyUncertain || c.observation.status.Hypothesized? {
      var tentative := MergeCandidate(group.tentative, c.key, c.value, c.observation);
      updated := group.(tentative := tentative);
      if temporallyUncertain {
        updated := updated.(temporalValues := updated.temporalValues + {c.value});
      } else {
        updated := updated.(hypothesisValues := updated.hypothesisValues + {c.value});
      }
    } else {
      var supported := MergeCandidate(group.supported, c.key, c.value, c.observation);
      updated := group.(supported := supported);
    }
  }

  /** The checks that open the loop of aggregateCandidates. */
  method CheckCandidate(c: StateCandidate, seen: map<string, Claim>, ghost claims: set<Claim>)
    returns (error: Option<AggregationError>)
    requires SeenMatches(seen, claims) && CanonicalClaims(claims)
    ensures error == ScanError(claims, c)
  {
    if !CandidateMatches(c) {
      return Some(InvalidCandidate);
    }
    var id := c.observation.id;
    if Blank(id) {
      return Some(InvalidObservation);
    }
    ScanErrorOfSeen(seen, claims, c);
    if id in seen {
      var prior := seen[id];
      CanonicalIdentities(c, prior);
      if KeyIdentity(prior.key) != KeyIdentity(c.key) || TermIdentity(prior.value) != TermIdentity(c.value) {
        return Some(ConflictingState);
      }
      if prior.observation != c.observation {
        return Some(ConflictingPayload);
      }
    }
    error := None;
  }

  lemma ClaimsGrow(cs: seq<StateCandidate>, i: nat)
    requires i < |cs|
    ensures ClaimsOf(cs[..i + 1]) == ClaimsOf(cs[..i]) + {ClaimOf(cs[i])}
  {
    assert cs[..i + 1] == cs[..i] + [cs[i]];
  }

  lemma SeenGrows(seen: map<string, Claim>, claims: set<Claim>, c: StateCandidate)
    requires SeenMatches(seen, claims) && CanonicalClaims(claims) && ScanError(claims, c).None?
    ensures c.observation.id in seen ==> ClaimOf(c) in claims
    ensures SeenMatches(seen[c.observation.id := ClaimOf(c)], claims + {ClaimOf(c)})
    ensures CanonicalClaims(claims + {ClaimOf(c)})
  {
    ScanErrorOfSeen(seen, claims, c);
  }

  lemma KnownClaim(claims: set<Claim>, c: Claim)
    requires c in claims
    ensures claims + {c} == claims
  {
  }

  method AggregateCandidates(scope: KnowledgeScope, cs: seq<StateCandidate>, sel: ValidTimeSelector)
    returns (r: Result<map<StateKey, KeyAccumulator>, AggregationError>)
    ensures match AggregateSpec(scope, cs, sel)
      case Err(e) => r == Err(e)
      case Ok(entries) => r == Ok(GroupsOf(entries))
  {
    var groups: map<StateKey, KeyAccumulator> := map[];
    var seen: map<string, Claim> := map[];
    ghost var claims: set<Claim> := {};
    ghost var entries: set<Entry> := {};
    for i := 0 to |cs|
      invariant FirstError(cs[..i]).None? && claims == ClaimsOf(cs[..i])
      invariant SeenMatches(seen, claims) && CanonicalClaims(claims)
      invariant entries == Entries(claims, scope, sel)
      invariant groups == GroupsOf(entries)
    {
      var c := cs[i];
      FirstErrorOfPrefix(cs, i);
      var error := CheckCandidate(c, seen, claims);
      if error.Some? {
        ErrorPersists(cs, i + 1);
        return Err(error.value);
      }
      ClaimsGrow(cs, i);
      SeenGrows(seen, claims, c);
      EntriesOneMore(claims, ClaimOf(c), scope, sel);
      if c.observation.id in seen {
        KnownClaim(claims, ClaimOf(c));
        continue;
      }
      seen := seen[c.observation.id := ClaimOf(c)];
      claims := claims + {ClaimOf(c)};

      if !RecordedTimeEligible(scope, c.observation) {
        continue;
      }
      if Select(sel, c.observation.validTime) == Excluded {
        continue;
      }
      if c.observation.status.Rejected? {
        continue;
      }
      ghost var entry := Entry(ClaimOf(c), RoleOf(sel, c.observation));
      GroupsOneMore(entries, entry);
      var group := if c.key in groups then groups[c.key] else NewKeyAccumulator(c.key);
      group := AddToGroup(group, ClaimOf(c), sel);
      groups := groups[c.key := group];
      entries := entries + {entry};
    }
    assert cs[..|cs|] == cs;
    r := Ok(groups);
  }

  // ---- summarizeGroups ----

  ghost function FactFrom(acc: FactAccumulator): Fact {
    Fact(acc.key, acc.value, Sorted(StringLess, acc.observations),
         Sorted(StringLess, acc.supporting), Sorted(StringLess, acc.contradicting))
  }

  method AccumulatorFact(acc: FactAccumulator) returns (f: Fact)
    ensures f == FactFrom(acc)
  {
    var observationIds := SortStrings(acc.observations);
    var supporting := SortStrings(acc.supporting);
    var contradicting := SortStrings(acc.contradicting);
    f := Fact(acc.key, acc.value, observationIds, supporting, contradicting);
  }

  predicate NoAlternativeValues(supported: Term, tentative: seq<Term>) {
    forall v | v in tentative :: v == supported
  }

  predicate HasAlternativeValue(tentative: set<Term>, supported: set<Term>) {
    tentative != {} && (supported == {} || exists v | v in tentative :: v !in supported)
  }

  predicate ExtentsOfValuesOverlap(left: FactAccumulator, right: FactAccumulator) {
    exists x | x in left.extents :: exists y | y in right.extents :: ExtentsOverlap(x, y)
  }

  /** Only pairs with the left value sorted before the right one are tried. */
  predicate AccumulatedValuesOverlap(values: ValueMap) {
    exists v | v in values :: exists w | w in values :: TermLess(v, w) && ExtentsOfValuesOverlap(values[v], values[w])
  }

  function UnresolvedReasonOf(group: KeyAccumulator): UnresolvedReason {
    if HasAlternativeValue(group.temporalValues, group.supported.Keys) then TemporalUncertainty
    else if HasAlternativeValue(group.hypothesisValues, group.supported.Keys) then HypothesizedOnly
    else if |group.supported.Keys + group.tentative.Keys| > 1 then
      if AccumulatedValuesOverlap(group.supported) then ConflictingValues else MultipleStatesInWindow
    else if |group.counterOnly| > 0 then CounterevidenceOnly
    else HypothesizedOnly
  }

  lemma ExtentsOverlapIsSymmetric(x: TemporalExtent, y: TemporalExtent)
    ensures ExtentsOverlap(x, y) == ExtentsOverlap(y, x)
  {
  }

  lemma ExtentsOfValue(k: StateKey, entries: set<Entry>, v: Term, x: TemporalExtent)
    requires v in Values(entries)
    ensures x in ByValue(k, entries)[v].extents
       <==> exists e :: e in entries && e.claim.value == v && e.claim.observation.validTime == x
  {
    if e :| e in entries && e.claim.value == v && e.claim.observation.validTime == x {
      assert e in WithValue(entries, v);
    }
  }

  lemma OverlapIsAccumulated(k: StateKey, supported: set<Entry>, e: Entry, f: Entry)
    requires CanonicalEntries(supported) && e in supported && f in supported && e.claim.value != f.claim.value
    requires ExtentsOverlap(e.claim.observation.validTime, f.claim.observation.validTime)
    ensures AccumulatedValuesOverlap(ByValue(k, supported))
  {
    var values := ByValue(k, supported);
    var (v, w) := (e.claim.value, f.claim.value);
    var (x, y) := (e.claim.observation.validTime, f.claim.observation.validTime);
    ExtentsOfValue(k, supported, v, x);
    ExtentsOfValue(k, supported, w, y);
    ExtentsOverlapIsSymmetric(x, y);
    assert ExtentsOfValuesOverlap(values[v], values[w]) && ExtentsOfValuesOverlap(values[w], values[v]);
    CompareTermsIsOrder(v, w, v);
  }

  lemma AccumulatedOverlapIsOverlap(k: StateKey, supported: set<Entry>) returns (e: Entry, f: Entry)
    requires CanonicalEntries(supported) && AccumulatedValuesOverlap(ByValue(k, supported))
    ensures e in supported && f in supported && e.claim.value != f.claim.value
    ensures ExtentsOverlap(e.claim.observation.validTime, f.claim.observation.validTime)
  {
    var values := ByValue(k, supported);
    var v :| v in values && exists w | w in values :: TermLess(v, w) && ExtentsOfValuesOverlap(values[v], values[w]);
    var w :| w in values && TermLess(v, w) && ExtentsOfValuesOverlap(values[v], values[w]);
    var x :| x in values[v].extents && exists y | y in values[w].extents :: ExtentsOverlap(x, y);
    var y :| y in values[w].extents && ExtentsOverlap(x, y);
    CompareTermsIsOrder(v, w, v);
    ExtentsOfValue(k, supported, v, x);
    ExtentsOfValue(k, supported, w, y);
    e :| e in supported && e.claim.value == v && e.claim.observation.validTime == x;
    f :| f in supported && f.claim.value == w && f.claim.observation.validTime == y;
  }

  lemma AccumulatedOverlap(k: StateKey, group: set<Entry>)
    requires CanonicalEntries(group)
    ensures AccumulatedValuesOverlap(ByValue(k, WithRole(group, Supported))) == SupportedValuesOverlap(group)
  {
    var supported := WithRole(group, Supported);
    if e, f :| Conflicting(group, e, f) {
      OverlapIsAccumulated(k, supported, e, f);
    }
    if AccumulatedValuesOverlap(ByValue(k, supported)) {
      var e, f := AccumulatedOverlapIsOverlap(k, supported);
      assert Conflicting(group, e, f);
    }
  }

  lemma AlternativeOfGroup(group: set<Entry>, r: Role)
    ensures HasAlternative(group, r)
       <==> HasAlternativeValue(Values(WithRole(group, r)), Values(WithRole(group, Supported)))
  {
    if HasAlternative(group, r) {
      var e :| e in group && e.role == r && e.claim.value !in Values(WithRole(group, Supported));
      assert e in WithRole(group, r);
      assert e.claim.value in Values(WithRole(group, r));
    }
    if HasAlternativeValue(Values(WithRole(group, r)), Values(WithRole(group, Supported))) {
      var v :| v in Values(WithRole(group, r)) && v !in Values(WithRole(group, Supported));
      var e :| e in WithRole(group, r) && e.claim.value == v;
      assert e in group && e.role == r;
    }
  }

  lemma GroupKeys(k: StateKey, group: set<Entry>)
    ensures GroupOf(k, group).supported.Keys == Values(WithRole(group, Supported))
    ensures GroupOf(k, group).tentative.Keys == Values(TentativePart(group))
    ensures |GroupOf(k, group).counterOnly| > 0 <==> WithRole(group, CounterOnly) != {}
  {
    EmptyByValue(k, WithRole(group, CounterOnly));
  }

  lemma ReasonOfParts(group: set<Entry>, g: KeyAccumulator)
    requires AccumulatedValuesOverlap(g.supported) == SupportedValuesOverlap(group)
    requires g.supported.Keys == Values(WithRole(group, Supported))
    requires g.tentative.Keys == Values(TentativePart(group))
    requires |g.counterOnly| > 0 <==> WithRole(group, CounterOnly) != {}
    requires g.temporalValues == Values(WithRole(group, TentativeInTime))
    requires g.hypothesisValues == Values(WithRole(group, TentativeByHypothesis))
    ensures UnresolvedReasonOf(g) == ReasonFor(group)
  {
    AlternativeOfGroup(group, TentativeInTime);
    AlternativeOfGroup(group, TentativeByHypothesis);
  }

  lemma ReasonOfGroup(k: StateKey, group: set<Entry>)
    requires CanonicalEntries(group)
    ensures UnresolvedReasonOf(GroupOf(k, group)) == ReasonFor(group)
  {
    AccumulatedOverlap(k, group);
    GroupKeys(k, group);
    ReasonOfParts(group, GroupOf(k, group));
  }

  lemma EmptyByValue(k: StateKey, entries: set<Entry>)
    ensures |ByValue(k, entries)| == 0 <==> entries == {}
  {
    if e :| e in entries {
      assert e.claim.value in ByValue(k, entries);
    }
  }

  /** The test that opens the loop body of summarizeGroups. */
  predicate IsResolved(group: KeyAccumulator, supportedValues: seq<Term>, tentativeValues: seq<Term>) {
    |group.counterOnly| == 0 && |supportedValues| == 1 && NoAlternativeValues(supportedValues[0], tentativeValues)
  }

  lemma ResolvedValues(group: set<Entry>, supportedValues: seq<Term>, tentativeValues: seq<Term>)
    requires CanonicalEntries(group)
    requires supportedValues == Sorted(TermLess, Values(WithRole(group, Supported)))
    requires tentativeValues == Sorted(TermLess, Values(TentativePart(group)))
    ensures Resolved(group) <==>
      && WithRole(group, CounterOnly) == {}
      && |supportedValues| == 1
      && NoAlternativeValues(supportedValues[0], tentativeValues)
    ensures Resolved(group) ==> ResolvedValue(group) == supportedValues[0]
  {
    var (s, t, c) := (WithRole(group, Supported), TentativePart(group), WithRole(group, CounterOnly));
    SortedTermsElements(Values(s));
    SortedTermsElements(Values(t));
    assert forall v :: v in supportedValues <==> v in Elements(supportedValues);
    assert forall v :: v in tentativeValues <==> v in Elements(tentativeValues);
    if Resolved(group) {
      var v := ResolvedValue(group);
      var e :| e in group && e.role.Supported?;
      assert e in s && v in Values(s);
      assert Values(s) == {v};
      assert Sorted(TermLess, {v}) == [v];
      assert c == {};
    }
    if c == {} && |supportedValues| == 1 && NoAlternativeValues(supportedValues[0], tentativeValues) {
      var v := supportedValues[0];
      forall e | e in group ensures e.claim.value == v && !e.role.CounterOnly? {
        assert e in s || e in t || e in c;
        assert e in s ==> e.claim.value in Values(s);
        assert e in t ==> e.claim.value in Values(t);
      }
      assert v in supportedValues;
      var e :| e in s && e.claim.value == v;
      assert ResolvesTo(group, v) && v in Values(group);
    }
  }

  lemma FactOfResolved(k: StateKey, group: set<Entry>)
    requires Resolved(group)
    ensures var v := ResolvedValue(group);
      && v in ByValue(k, WithRole(group, Supported))
      && ResolvedFact(k, group) == FactFrom(ByValue(k, WithRole(group, Supported))[v])
  {
    var v := ResolvedValue(group);
    var e :| e in group && e.role.Supported?;
    assert e in WithRole(group, Supported);
    assert WithValue(WithRole(group, Supported), v) == WithRole(group, Supported);
  }

  ghost function FactsFrom(vs: seq<Term>, values: ValueMap): seq<Fact>
    requires forall v | v in vs :: v in values
  {
    seq(|vs|, i requires 0 <= i < |vs| => FactFrom(values[vs[i]]))
  }

  method OrderedAccumulatorFacts(values: ValueMap) returns (facts: seq<Fact>)
    requires forall v | v in values :: CanonicalTerm(v)
    ensures forall v | v in Sorted(TermLess, values.Keys) :: v in values
    ensures facts == FactsFrom(Sorted(TermLess, values.Keys), values)
  {
    var ordered := SortTerms(values.Keys);
    assert forall v | v in ordered :: v in Elements(ordered);
    facts := AccumulatorFacts(ordered, values);
  }

  method AccumulatorFacts(ordered: seq<Term>, values: ValueMap) returns (facts: seq<Fact>)
    requires forall v | v in ordered :: v in values
    ensures facts == FactsFrom(ordered, values)
  {
    facts := [];
    for i := 0 to |ordered|
      invariant |facts| == i
      invariant forall j | 0 <= j < i :: facts[j] == FactFrom(values[ordered[j]])
    {
      var fact := AccumulatorFact(values[ordered[i]]);
      facts := facts + [fact];
    }
  }

  /** The body of the loop of summarizeGroups. */
  method SummarizeGroup(k: StateKey, group: KeyAccumulator, ghost g: set<Entry>) returns (m: Material)
    requires CanonicalEntries(g) && g != {} && group == GroupOf(k, g)
    ensures m == KeyMaterial(k, g)
  {
    GroupKeys(k, g);
    var supportedValues := SortTerms(group.supported.Keys);
    var tentativeValues := SortTerms(group.tentative.Keys);
    ResolvedValues(g, supportedValues, tentativeValues);
    if IsResolved(group, supportedValues, tentativeValues) {
      FactOfResolved(k, g);
      var fact := AccumulatorFact(group.supported[supportedValues[0]]);
      return Material([fact], []);
    }
    var item := UnresolvedGroup(k, group, g);
    m := Material([], [item]);
  }

  method UnresolvedGroup(k: StateKey, group: KeyAccumulator, ghost g: set<Entry>) returns (item: UnresolvedFact)
    requires CanonicalEntries(g) && group == GroupOf(k, g)
    ensures item == UnresolvedItem(k, g)
  {
    var allCandidates := MergeAccumulators(group.supported, group.tentative, group.counterOnly);
    MergedCandidates(k, g, group, allCandidates);
    ReasonOfGroup(k, g);
    var candidates := OrderedAccumulatorFacts(allCandidates);
    CandidatesFromMerged(k, Sorted(TermLess, Values(g)), g, allCandidates);
    item := UnresolvedFact(group.key, UnresolvedReasonOf(group), candidates);
  }

  lemma CandidatesFromMerged(k: StateKey, vs: seq<Term>, g: set<Entry>, merged: ValueMap)
    requires forall v | v in vs :: v in merged
    requires forall v | v in merged :: FactFrom(merged[v]) == FactOf(k, v, WithValue(g, v))
    ensures FactsFrom(vs, merged) == CandidateFacts(k, vs, g)
  {
    forall i | 0 <= i < |vs| ensures FactsFrom(vs, merged)[i] == CandidateFacts(k, vs, g)[i] {
      assert vs[i] in vs;
    }
  }

  /** In particular no group is left without candidates: the `len(allCandidates) == 0` exit of the
      source would need a group without entries. */
  lemma MergedCandidates(k: StateKey, g: set<Entry>, group: KeyAccumulator, merged: ValueMap)
    requires group == GroupOf(k, g) && merged == MergedMaps(group.supported, group.tentative, group.counterOnly)
    ensures merged.Keys == Values(g)
    ensures forall v | v in merged :: FactFrom(merged[v]) == FactOf(k, v, WithValue(g, v))
  {
    MergedGroupKeys(k, g);
    forall v | v in merged ensures FactFrom(merged[v]) == FactOf(k, v, WithValue(g, v)) {
      MergedGroup(k, g, v);
      FactOfAccumulator(k, v, WithValue(g, v), merged[v]);
    }
  }

  lemma FactOfAccumulator(k: StateKey, v: Term, entries: set<Entry>, acc: FactAccumulator)
    requires acc == AccumulatorOf(k, v, entries).(extents := {})
    ensures FactFrom(acc) == FactOf(k, v, entries)
  {
  }

  method SummarizeKey(groups: map<StateKey, KeyAccumulator>, k: StateKey, ghost entries: set<Entry>)
    returns (m: Material)
    requires CanonicalEntries(entries) && groups == GroupsOf(entries) && k in groups
    ensures m == KeyMaterial(k, WithKey(entries, k))
  {
    GroupOfKey(entries, groups, k);
    m := SummarizeGroup(k, groups[k], WithKey(entries, k));
  }

  method SummarizeGroups(groups: map<StateKey, KeyAccumulator>, ghost entries: set<Entry>) returns (m: Material)
    requires CanonicalEntries(entries) && groups == GroupsOf(entries)
    ensures m == MaterialOf(entries)
  {
    assert groups.Keys == Keys(entries);
    var ordered := SortKeys(groups.Keys);
    m := Material([], []);
    for i := 0 to |ordered|
      invariant m == MaterialOver(ordered[..i], entries)
    {
      assert ordered[i] in Elements(ordered);
      var one := SummarizeKey(groups, ordered[i], entries);
      MaterialOverOneMore(ordered, i, entries);
      m := Material(m.facts + one.facts, m.unresolved + one.unresolved);
    }
    assert ordered[..|ordered|] == ordered;
  }

  ghost function MaterialOver(ks: seq<StateKey>, entries: set<Entry>): Material {
    Material(FactsOver(ks, entries), UnresolvedOver(ks, entries))
  }

  ghost function KeyMaterial(k: StateKey, group: set<Entry>): Material {
    if Resolved(group) then Material([ResolvedFact(k, group)], []) else Material([], [UnresolvedItem(k, group)])
  }

  lemma GroupOfKey(entries: set<Entry>, groups: map<StateKey, KeyAccumulator>, k: StateKey)
    requires groups == GroupsOf(entries) && k in groups
    ensures groups[k] == GroupOf(k, WithKey(entries, k)) && WithKey(entries, k) != {}
  {
    var e :| e in entries && e.claim.key == k;
    assert e in WithKey(entries, k);
  }

  lemma MaterialOverOneMore(ks: seq<StateKey>, i: nat, entries: set<Entry>)
    requires i < |ks|
    ensures var (before, one) := (MaterialOver(ks[..i], entries), KeyMaterial(ks[i], WithKey(entries, ks[i])));
      MaterialOver(ks[..i + 1], entries) == Material(before.facts + one.facts, before.unresolved + one.unresolved)
  {
    assert ks[..i + 1][..i] == ks[..i];
  }

  method AggregateWindow(selection: TemporalSelection, scope: KnowledgeScope, cs: seq<StateCandidate>)
    returns (r: Result<Summary, StateError>)
    ensures r == WindowState(selection, scope, cs)
  {
    if !selection.WindowSelection? {
      return Err(WrongSelection);
    }
    r := SelectedState(selection, scope, cs, InWindow(selection.start, selection.end));
  }

  method ReconstructState(selection: TemporalSelection, scope: KnowledgeScope, cs: seq<StateCandidate>)
    returns (r: Result<Summary, StateError>)
    ensures r == PointState(selection, scope, cs)
  {
    if !selection.PointSelection? {
      return Err(WrongSelection);
    }
    r := SelectedState(selection, scope, cs, AtPoint(selection.instant));
  }

  method SelectedState(
    selection: TemporalSelection, scope: KnowledgeScope, cs: seq<StateCandidate>, sel: ValidTimeSelector)
    returns (r: Result<Summary, StateError>)
    ensures r == StateUnder(selection, scope, cs, sel)
  {
    AcceptedIsErrorFree(cs);
    var groups := AggregateCandidates(scope, cs, sel);
    match groups {
      case Err(e) => return Err(RejectedCandidates(e));
      case Ok(value) =>
        var m := SummarizeGroups(value, Entries(ClaimsOf(cs), scope, sel));
        r := Ok(SummaryOf(selection, m));
    }
  }

  // ---- what the two entry points compute ----

  ghost function MaterialUnder(claims: set<Claim>, scope: KnowledgeScope, sel: ValidTimeSelector): Material {
    MaterialOf(Entries(claims, scope, sel))
  }

  ghost function StateUnder(
    selection: TemporalSelection, scope: KnowledgeScope, cs: seq<StateCandidate>, sel: ValidTimeSelector)
    : Result<Summary, StateError>
  {
    AcceptedIsErrorFree(cs);
    if FirstError(cs).Some? then Err(RejectedCandidates(FirstError(cs).value))
    else Ok(SummaryOf(selection, MaterialUnder(ClaimsOf(cs), scope, sel)))
  }

  ghost function WindowState(selection: TemporalSelection, scope: KnowledgeScope, cs: seq<StateCandidate>)
    : Result<Summary, StateError>
  {
    if !selection.WindowSelection? then Err(WrongSelection)
    else StateUnder(selection, scope, cs, InWindow(selection.start, selection.end))
  }

  ghost function PointState(selection: TemporalSelection, scope: KnowledgeScope, cs: seq<StateCandidate>)
    : Result<Summary, StateError>
  {
    if !selection.PointSelection? then Err(WrongSelection)
    else StateUnder(selection, scope, cs, AtPoint(selection.instant))
  }
}
