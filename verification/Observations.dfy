/** Immutable temporal propositions with provenance (core/observation). */
module Observations {
  import opened Results

  /** Microseconds since Go's zero time, so 0 is the time for which IsZero holds. */
  type Time = int

  const ZERO_TIME: Time := 0

  /** unicode.IsSpace */
  predicate IsSpace(c: char) {
    || '\U{0009}' <= c <= '\U{000D}'
    || c in {' ', '\U{0085}', '\U{00A0}', '\U{1680}', '\U{2028}', '\U{2029}', '\U{202F}', '\U{205F}', '\U{3000}'}
    || '\U{2000}' <= c <= '\U{200A}'
  }

  /** strings.TrimSpace */
  function TrimSpace(s: string): string {
    if s != "" && IsSpace(s[0]) then TrimSpace(s[1..])
    else if s != "" && IsSpace(s[|s| - 1]) then TrimSpace(s[..|s| - 1])
    else s
  }

  predicate Blank(s: string) {
    TrimSpace(s) == ""
  }

  datatype Term =
    | Absent
    | Text(text: string)
    | Mention(mentionId: string)
    | Entity(entityId: string, groundingMentionId: string)

  /** When a proposition was valid in the source world. Bounds are half-open. */
  datatype ExtentShape =
    | UnknownTime
    | AtInstant(instant: Time)
    | OverInterval(since: Option<Time>, until: Option<Time>)
    | WithinWindow(earliest: Time, latest: Time)

  /** What the constructors AtTime, During, Since, Until and Within let through. */
  predicate ConstructedExtent(e: ExtentShape) {
    match e
    case UnknownTime => true
    case AtInstant(t) => t != ZERO_TIME
    case OverInterval(since, until) =>
      && (since.Some? || until.Some?)
      && (since.Some? ==> since.value != ZERO_TIME)
      && (until.Some? ==> until.value != ZERO_TIME)
      && (since.Some? && until.Some? ==> since.value < until.value)
    case WithinWindow(earliest, latest) =>
      earliest != ZERO_TIME && latest != ZERO_TIME && earliest < latest
  }

  type TemporalExtent = e: ExtentShape | ConstructedExtent(e) witness UnknownTime

  /** Bounds of an interval or an uncertainty window; no bounds for the other kinds. */
  function Bounds(e: TemporalExtent): (Option<Time>, Option<Time>) {
    match e
    case OverInterval(since, until) => (since, until)
    case WithinWindow(earliest, latest) => (Some(earliest), Some(latest))
    case _ => (None, None)
  }

  datatype EpistemicStatus =
    | Observed | Inferred | Hypothesized | ValidatedStructurally | ValidatedEmpirically | Rejected

  datatype EvidenceRole = Supporting | Contradicting

  datatype EvidenceLink = EvidenceLink(evidenceId: string, role: EvidenceRole)

  datatype Statement = Statement(subject: Term, predicateName: string, objectTerm: Term)

  datatype Derivation = Derivation(
    methodName: string, version: string, runId: string, model: string, promptVersion: string)

  /** Model metadata on the unit interval; only ever compared for equality. */
  datatype Confidence = Confidence(score: real)

  /** Two observations are equal here exactly when observationsEqual finds their payloads equal. */
  datatype Observation = Observation(
    id: string,
    statement: Statement,
    validTime: TemporalExtent,
    recordedAt: Time,
    evidence: seq<EvidenceLink>,
    derivation: Derivation,
    status: EpistemicStatus,
    confidence: Option<Confidence>)

  /** The part of what NewObservation guarantees that later stages rely on. */
  predicate Canonical(o: Observation) {
    && o.id != "" && TrimSpace(o.id) == o.id
    && o.recordedAt != ZERO_TIME
    && o.evidence != []
    && (forall l | l in o.evidence :: l.evidenceId != "" && TrimSpace(l.evidenceId) == l.evidenceId)
  }

  function EvidenceIds(o: Observation, role: EvidenceRole): set<string> {
    set l | l in o.evidence && l.role == role :: l.evidenceId
  }
}
