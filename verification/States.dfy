/** State keys, candidates, and the orders on terms and keys (core/temporal/state.go). */
module States {
  import opened Observations
  import opened Ordering

  datatype StateKey = StateKey(subject: Term, predicateName: string)

  /** An entity-resolved projection of an observation. */
  datatype StateCandidate = StateCandidate(
    key: StateKey,
    value: Term,
    observation: Observation,
    subjectGroundingMentionId: string,
    objectGroundingMentionId: string)

  /** An aggregated state value with role-separated, sorted provenance. */
  datatype Fact = Fact(
    key: StateKey,
    value: Term,
    observationIds: seq<string>,
    supportingEvidenceIds: seq<string>,
    contradictingEvidenceIds: seq<string>)

  function TermKindRank(t: Term): int {
    match t
    case Absent => 0
    case Text(_) => 1
    case Mention(_) => 2
    case Entity(_, _) => 3
  }

  function TermPayload(t: Term): string {
    match t
    case Absent => ""
    case Text(text) => text
    case Mention(id) => id
    case Entity(id, _) => id
  }

  /** The term without its grounding mention: the (kind, payload) pair used as a map key. */
  function TermIdentity(t: Term): Term {
    if t.Entity? then Entity(t.entityId, "") else t
  }

  function KeyIdentity(k: StateKey): StateKey {
    k.(subject := TermIdentity(k.subject))
  }

  function CompareTerms(left: Term, right: Term): int {
    if TermKindRank(left) < TermKindRank(right) then -1
    else if TermKindRank(right) < TermKindRank(left) then 1
    else CompareStrings(TermPayload(left), TermPayload(right))
  }

  function CompareStateKeys(left: StateKey, right: StateKey): int {
    var subjects := CompareTerms(left.subject, right.subject);
    if subjects != 0 then subjects else CompareStrings(left.predicateName, right.predicateName)
  }

  predicate TermLess(left: Term, right: Term) { CompareTerms(left, right) < 0 }

  predicate KeyLess(left: StateKey, right: StateKey) { CompareStateKeys(left, right) < 0 }

  predicate CanonicalTerm(t: Term) {
    match t
    case Absent => true
    case Text(text) => !Blank(text)
    case Mention(_) => false
    case Entity(id, grounding) => !Blank(id) && grounding == ""
  }

  predicate CanonicalKey(k: StateKey) {
    CanonicalTerm(k.subject) && !Blank(k.predicateName)
  }

  predicate TermMapsToState(stateTerm: Term, sourceTerm: Term, groundingMentionId: string) {
    match sourceTerm
    case Entity(id, grounding) => stateTerm.Entity? && stateTerm.entityId == id && groundingMentionId == grounding
    case Mention(id) => stateTerm.Entity? && groundingMentionId == id
    case _ => CompareTerms(stateTerm, sourceTerm) == 0
  }

  predicate CandidateMatches(c: StateCandidate) {
    && CanonicalKey(c.key)
    && CanonicalTerm(c.value)
    && c.key.predicateName == c.observation.statement.predicateName
    && TermMapsToState(c.key.subject, c.observation.statement.subject, c.subjectGroundingMentionId)
    && TermMapsToState(c.value, c.observation.statement.objectTerm, c.objectGroundingMentionId)
  }

  /** CompareTerms is a strict total order on term identities; grounding mentions never count. */
  lemma CompareTermsIsOrder(a: Term, b: Term, c: Term)
    ensures CompareTerms(a, b) == 0 <==> TermIdentity(a) == TermIdentity(b)
    ensures CompareTerms(b, a) == -CompareTerms(a, b)
    ensures CompareTerms(a, b) < 0 && CompareTerms(b, c) < 0 ==> CompareTerms(a, c) < 0
  {
    CompareStringsIsAntisymmetric(TermPayload(a), TermPayload(b));
    if CompareStrings(TermPayload(a), TermPayload(b)) < 0 && CompareStrings(TermPayload(b), TermPayload(c)) < 0 {
      CompareStringsIsTransitive(TermPayload(a), TermPayload(b), TermPayload(c));
    }
  }

  lemma CompareStateKeysIsOrder(a: StateKey, b: StateKey, c: StateKey)
    ensures CompareStateKeys(a, b) == 0 <==> KeyIdentity(a) == KeyIdentity(b)
    ensures CompareStateKeys(b, a) == -CompareStateKeys(a, b)
    ensures CompareStateKeys(a, b) < 0 && CompareStateKeys(b, c) < 0 ==> CompareStateKeys(a, c) < 0
  {
    CompareTermsIsOrder(a.subject, b.subject, c.subject);
    CompareTermsIsOrder(b.subject, c.subject, a.subject);
    CompareTermsIsOrder(c.subject, a.subject, b.subject);
    CompareStringsIsAntisymmetric(a.predicateName, b.predicateName);
    if CompareStrings(a.predicateName, b.predicateName) < 0 && CompareStrings(b.predicateName, c.predicateName) < 0 {
      CompareStringsIsTransitive(a.predicateName, b.predicateName, c.predicateName);
    }
  }

  /** No term comes first, then texts, mentions and entities, each kind in string order. */
  lemma TermLessByKind(left: Term, right: Term)
    ensures TermLess(left, right) <==>
      match (left, right)
      case (_, Absent) => false
      case (Absent, _) => true
      case (Text(s), Text(t)) => StringLess(s, t)
      case (_, Text(_)) => false
      case (Text(_), _) => true
      case (Mention(s), Mention(t)) => StringLess(s, t)
      case (_, Mention(_)) => false
      case (Mention(_), _) => true
      case (Entity(s, _), Entity(t, _)) => StringLess(s, t)
  {
  }

  /** Keys come by subject, then by predicate. */
  lemma KeyLessBySubject(left: StateKey, right: StateKey)
    ensures KeyLess(left, right) <==>
      || TermLess(left.subject, right.subject)
      || (TermIdentity(left.subject) == TermIdentity(right.subject) && StringLess(left.predicateName, right.predicateName))
  {
    CompareTermsIsOrder(left.subject, right.subject, left.subject);
  }

  /** A matching candidate has a canonical key and value over the predicate of its observation; each
      grounded term of the observation keeps its grounding beside the entity, any other stays as it is. */
  lemma MatchingCandidates(c: StateCandidate)
    ensures CandidateMatches(c) <==>
      && CanonicalKey(c.key) && CanonicalTerm(c.value)
      && c.key.predicateName == c.observation.statement.predicateName
      && Grounds(c.key.subject, c.observation.statement.subject, c.subjectGroundingMentionId)
      && Grounds(c.value, c.observation.statement.objectTerm, c.objectGroundingMentionId)
  {
    CompareTermsIsOrder(c.key.subject, c.observation.statement.subject, c.key.subject);
    CompareTermsIsOrder(c.value, c.observation.statement.objectTerm, c.value);
  }

  /** The canonical term stands for the source term. */
  ghost predicate Grounds(t: Term, source: Term, mentionId: string) {
    match source
    case Mention(id) => (exists entityId :: t == Entity(entityId, "")) && mentionId == id
    case Entity(id, grounding) => t == Entity(id, "") && mentionId == grounding
    case _ => t == source
  }

  lemma TermOrder(s: set<Term>)
    requires forall t | t in s :: CanonicalTerm(t)
    ensures StrictOrderOn(TermLess, s)
  {
    forall x, y | x in s && y in s
      ensures CompareTerms(x, y) == 0 <==> x == y
      ensures CompareTerms(y, x) == -CompareTerms(x, y)
    {
      CompareTermsIsOrder(x, y, x);
    }
    forall x, y, z | x in s && y in s && z in s && TermLess(x, y) && TermLess(y, z) ensures TermLess(x, z) {
      CompareTermsIsOrder(x, y, z);
    }
  }

  lemma KeyOrder(s: set<StateKey>)
    requires forall k | k in s :: CanonicalKey(k)
    ensures StrictOrderOn(KeyLess, s)
  {
    forall x, y | x in s && y in s
      ensures CompareStateKeys(x, y) == 0 <==> x == y
      ensures CompareStateKeys(y, x) == -CompareStateKeys(x, y)
    {
      CompareStateKeysIsOrder(x, y, x);
    }
    forall x, y, z | x in s && y in s && z in s && KeyLess(x, y) && KeyLess(y, z) ensures KeyLess(x, z) {
      CompareStateKeysIsOrder(x, y, z);
    }
  }

  // ---- sorting keys, terms, IDs and times ----

  predicate TimeLess(left: Time, right: Time) { left < right }

  lemma TimeOrder(s: set<Time>)
    ensures StrictOrderOn(TimeLess, s)
  {
  }

  lemma SortedTermsElements(s: set<Term>)
    requires forall t | t in s :: CanonicalTerm(t)
    ensures Elements(Sorted(TermLess, s)) == s
  {
    TermOrder(s);
    SortedIsSorted(TermLess, s);
  }

  lemma SortedKeysElements(s: set<StateKey>)
    requires forall k | k in s :: CanonicalKey(k)
    ensures Elements(Sorted(KeyLess, s)) == s
  {
    KeyOrder(s);
    SortedIsSorted(KeyLess, s);
  }

  lemma SortedStringsElements(s: set<string>)
    ensures Elements(Sorted(StringLess, s)) == s
  {
    StringOrder(s);
    SortedIsSorted(StringLess, s);
  }

  method SortTerms(s: set<Term>) returns (ordered: seq<Term>)
    requires forall t | t in s :: CanonicalTerm(t)
    ensures ordered == Sorted(TermLess, s) && Elements(ordered) == s
  {
    TermOrder(s);
    SortedTermsElements(s);
    ordered := SortedElements(s, TermLess);
  }

  method SortKeys(s: set<StateKey>) returns (ordered: seq<StateKey>)
    requires forall k | k in s :: CanonicalKey(k)
    ensures ordered == Sorted(KeyLess, s) && Elements(ordered) == s
  {
    KeyOrder(s);
    SortedKeysElements(s);
    ordered := SortedElements(s, KeyLess);
  }

  method SortStrings(s: set<string>) returns (ordered: seq<string>)
    ensures ordered == Sorted(StringLess, s) && Elements(ordered) == s
  {
    StringOrder(s);
    SortedStringsElements(s);
    ordered := SortedElements(s, StringLess);
  }
}
