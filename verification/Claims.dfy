/** What aggregateCandidates selects and how it weighs each selected observation, as sets.
    A bag of candidates counts only through its set of claims, so nothing stated about claims
    or entries can depend on the order or the repetition of candidates. */
module Claims {
  import opened Results
  import opened Observations
  import opened States
  import opened Eligibility

  /** A candidate without its grounding mentions. */
  datatype Claim = Claim(key: StateKey, value: Term, observation: Observation)

  function ClaimOf(c: StateCandidate): Claim {
    Claim(c.key, c.value, c.observation)
  }

  ghost function ClaimsOf(cs: seq<StateCandidate>): set<Claim> {
    set c | c in cs :: ClaimOf(c)
  }

  ghost function ClaimIds(claims: set<Claim>): set<string> { set c | c in claims :: c.observation.id }

  ghost function EvidenceOf(claims: set<Claim>, role: EvidenceRole): set<string> {
    set c, id | c in claims && id in EvidenceIds(c.observation, role) :: id
  }

  datatype AggregationError = InvalidCandidate | InvalidObservation | ConflictingState | ConflictingPayload

  /** One observation ID carries one key, one value and one payload. */
  ghost predicate Coherent(claims: set<Claim>) {
    forall c, d | c in claims && d in claims && c.observation.id == d.observation.id :: c == d
  }

  ghost predicate Accepted(cs: seq<StateCandidate>) {
    && (forall c | c in cs :: CandidateMatches(c) && !Blank(c.observation.id))
    && Coherent(ClaimsOf(cs))
  }

  /** The error, if any, of scanning `c` after the claims of an accepted prefix. */
  ghost function ScanError(seen: set<Claim>, c: StateCandidate): Option<AggregationError> {
    if !CandidateMatches(c) then Some(InvalidCandidate)
    else if Blank(c.observation.id) then Some(InvalidObservation)
    else if exists p | p in seen :: p.observation.id == c.observation.id && (p.key != c.key || p.value != c.value)
    then Some(ConflictingState)
    else if exists p | p in seen :: p.observation.id == c.observation.id && p.observation != c.observation
    then Some(ConflictingPayload)
    else None
  }

  /** The error of the first candidate that does not fit the ones before it. */
  ghost function FirstError(cs: seq<StateCandidate>): Option<AggregationError> {
    if cs == [] then None
    else
      var n := |cs| - 1;
      var earlier := FirstError(cs[..n]);
      if earlier.Some? then earlier else ScanError(ClaimsOf(cs[..n]), cs[n])
  }

  lemma CoherentOneMore(claims: set<Claim>, c: Claim)
    ensures Coherent(claims + {c}) <==>
      Coherent(claims) && forall p | p in claims && p.observation.id == c.observation.id :: p == c
  {
    if Coherent(claims + {c}) {
      assert forall p | p in claims :: p in claims + {c};
      assert c in claims + {c};
    }
  }

  lemma ScanErrorFree(seen: set<Claim>, c: StateCandidate)
    ensures ScanError(seen, c).None? <==>
      && CandidateMatches(c) && !Blank(c.observation.id)
      && forall p | p in seen && p.observation.id == c.observation.id :: p == ClaimOf(c)
  {
  }

  lemma ClaimsOfLast(cs: seq<StateCandidate>)
    requires cs != []
    ensures ClaimsOf(cs) == ClaimsOf(cs[..|cs| - 1]) + {ClaimOf(cs[|cs| - 1])}
    ensures forall c :: c in cs <==> c in cs[..|cs| - 1] || c == cs[|cs| - 1]
  {
    assert cs == cs[..|cs| - 1] + [cs[|cs| - 1]];
  }

  lemma {:induction false} AcceptedIsErrorFree(cs: seq<StateCandidate>)
    ensures FirstError(cs).None? <==> Accepted(cs)
  {
    if cs != [] {
      var n := |cs| - 1;
      AcceptedIsErrorFree(cs[..n]);
      ClaimsOfLast(cs);
      CoherentOneMore(ClaimsOf(cs[..n]), ClaimOf(cs[n]));
      ScanErrorFree(ClaimsOf(cs[..n]), cs[n]);
    }
  }

  /** The error is that of the first candidate that does not fit the ones before it, by what is wrong with it. */
  lemma FirstErrorNamesCulprit(cs: seq<StateCandidate>, i: nat)
    requires i < |cs| && Accepted(cs[..i]) && !Accepted(cs[..i + 1])
    ensures FirstError(cs) ==
      if !CandidateMatches(cs[i]) then Some(InvalidCandidate)
      else if Blank(cs[i].observation.id) then Some(InvalidObservation)
      else if exists j :: 0 <= j < i && cs[j].observation.id == cs[i].observation.id && (cs[j].key != cs[i].key || cs[j].value != cs[i].value)
      then Some(ConflictingState)
      else Some(ConflictingPayload)
  {
    AcceptedIsErrorFree(cs[..i]);
    AcceptedIsErrorFree(cs[..i + 1]);
    assert cs[..i + 1][..i] == cs[..i];
    ErrorPersists(cs, i + 1);
    assert FirstError(cs) == ScanError(ClaimsOf(cs[..i]), cs[i]);
    forall p | p in ClaimsOf(cs[..i]) ensures exists j :: 0 <= j < i && ClaimOf(cs[j]) == p {
      var c :| c in cs[..i] && ClaimOf(c) == p;
    }
    forall j | 0 <= j < i ensures ClaimOf(cs[j]) in ClaimsOf(cs[..i]) {
      assert cs[j] in cs[..i];
    }
  }

  lemma {:induction false} ErrorPersists(cs: seq<StateCandidate>, i: nat)
    requires i <= |cs| && FirstError(cs[..i]).Some?
    ensures FirstError(cs) == FirstError(cs[..i])
  {
    if i < |cs| {
      assert cs[..|cs| - 1][..i] == cs[..i];
      ErrorPersists(cs[..|cs| - 1], i);
    } else {
      assert cs[..i] == cs;
    }
  }

  datatype Role = Supported | TentativeInTime | TentativeByHypothesis | CounterOnly

  predicate Tentative(r: Role) { r.TentativeInTime? || r.TentativeByHypothesis? }

  predicate Selected(scope: KnowledgeScope, sel: ValidTimeSelector, o: Observation) {
    && RecordedTimeEligible(scope, o)
    && Select(sel, o.validTime) != Excluded
    && !o.status.Rejected?
  }

  predicate HasSupportingEvidence(o: Observation) {
    exists l | l in o.evidence :: l.role == Supporting
  }

  function RoleOf(sel: ValidTimeSelector, o: Observation): Role {
    if !HasSupportingEvidence(o) then CounterOnly
    else if Select(sel, o.validTime) == Uncertain then TentativeInTime
    else if o.status.Hypothesized? then TentativeByHypothesis
    else Supported
  }

  /** A selected claim and its weight. */
  datatype Entry = Entry(claim: Claim, role: Role)

  ghost function Entries(claims: set<Claim>, scope: KnowledgeScope, sel: ValidTimeSelector): set<Entry> {
    set c | c in claims && Selected(scope, sel, c.observation) :: Entry(c, RoleOf(sel, c.observation))
  }

  /** The observations of coherent claims by their IDs. */
  ghost function ObservationIndex(claims: set<Claim>): map<string, Observation>
    requires Coherent(claims)
  {
    map c | c in claims :: c.observation.id := c.observation
  }

  ghost predicate CanonicalEntries(entries: set<Entry>) {
    forall e | e in entries :: CanonicalKey(e.claim.key) && CanonicalTerm(e.claim.value)
  }

  ghost predicate CanonicalClaims(claims: set<Claim>) {
    forall c | c in claims :: CanonicalKey(c.key) && CanonicalTerm(c.value)
  }

  lemma AcceptedClaimsAreCanonical(cs: seq<StateCandidate>)
    requires Accepted(cs)
    ensures CanonicalClaims(ClaimsOf(cs)) && Coherent(ClaimsOf(cs))
  {
  }

  // ---- selections that agree ----

  /** A window selects and weighs exactly the union of what its instants do. */
  lemma WindowEntriesAreUnionOfPointEntries(
    claims: set<Claim>, scope: KnowledgeScope, start: Time, end: Time, e: Entry)
    requires start < end
    ensures e in Entries(claims, scope, InWindow(start, end))
       <==> exists t :: start <= t < end && e in Entries(claims, scope, AtPoint(t))
  {
    var extent := e.claim.observation.validTime;
    WindowIsUnionOfPoints(start, end, extent, Definite);
    WindowIsUnionOfPoints(start, end, extent, Uncertain);
    if e in Entries(claims, scope, InWindow(start, end)) {
      var kind := WindowEligibility(start, end, extent);
      var t :| start <= t < end && PointEligibility(t, extent) == kind;
      assert e in Entries(claims, scope, AtPoint(t));
    }
  }

  /** Restricting to a recorded-time cutoff is dropping the later observations. */
  lemma AsOfEntriesAreCurrentEntriesOfKnown(
    claims: set<Claim>, cutoff: Time, known: set<Claim>, sel: ValidTimeSelector)
    requires known == set c | c in claims && c.observation.recordedAt <= cutoff
    ensures Entries(claims, KnownAsOf(cutoff), sel) == Entries(known, CurrentKnowledge, sel)
  {
  }
}
