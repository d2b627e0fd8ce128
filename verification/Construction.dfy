/** What the constructors of core/observation and core/temporal/plan.go let through: the guarantees
    that the rest of the model takes for granted. */
module Construction {
  import opened Results
  import opened Observations
  import opened Ordering
  import opened States
  import opened Eligibility
  import opened Claims
  import opened Aggregation
  import opened Comparisons
  import opened ComparisonProperties

  // ---- temporal extents ----

  function AtTime(instant: Time): Option<TemporalExtent> {
    if instant == ZERO_TIME then None else Some(AtInstant(instant))
  }

  function During(start: Time, end: Time): Option<TemporalExtent> {
    if start == ZERO_TIME || end == ZERO_TIME || end <= start then None else Some(OverInterval(Some(start), Some(end)))
  }

  function Since(start: Time): Option<TemporalExtent> {
    if start == ZERO_TIME then None else Some(OverInterval(Some(start), None))
  }

  function Until(end: Time): Option<TemporalExtent> {
    if end == ZERO_TIME then None else Some(OverInterval(None, Some(end)))
  }

  function Within(start: Time, end: Time): Option<TemporalExtent> {
    if start == ZERO_TIME || end == ZERO_TIME || end <= start then None else Some(WithinWindow(start, end))
  }

  /** Extents of the model are the unknown time and exactly the outputs of the constructors. */
  lemma ExtentsAreConstructed(e: ExtentShape)
    ensures ConstructedExtent(e) <==>
      || e == UnknownTime
      || (exists t :: AtTime(t) == Some(e))
      || (exists t, u :: During(t, u) == Some(e))
      || (exists t :: Since(t) == Some(e))
      || (exists t :: Until(t) == Some(e))
      || (exists t, u :: Within(t, u) == Some(e))
  {
    if ConstructedExtent(e) {
      match e
      case UnknownTime =>
      case AtInstant(t) => assert AtTime(t) == Some(e);
      case OverInterval(Some(t), Some(u)) => assert During(t, u) == Some(e);
      case OverInterval(Some(t), None) => assert Since(t) == Some(e);
      case OverInterval(None, Some(u)) => assert Until(u) == Some(e);
      case WithinWindow(t, u) => assert Within(t, u) == Some(e);
    }
  }

  // ---- evidence links ----

  /** Roles compare as the strings "contradicting" and "supporting". */
  predicate LinkLess(a: EvidenceLink, b: EvidenceLink) {
    if a.evidenceId != b.evidenceId then StringLess(a.evidenceId, b.evidenceId)
    else a.role.Contradicting? && b.role.Supporting?
  }

  lemma LinkOrder(s: set<EvidenceLink>)
    ensures StrictOrderOn(LinkLess, s)
  {
    StringOrder(set l | l in s :: l.evidenceId);
  }

  lemma {:induction false} TrimIsIdempotent(s: string)
    ensures TrimSpace(TrimSpace(s)) == TrimSpace(s)
  {
    if s != "" && IsSpace(s[0]) {
      TrimIsIdempotent(s[1..]);
    } else if s != "" && IsSpace(s[|s| - 1]) {
      TrimIsIdempotent(s[..|s| - 1]);
    }
  }

  /** Trimming cuts off white space at both ends, and all of it. */
  lemma {:induction false} TrimSpaceIsExact(s: string) returns (i: nat, j: nat)
    ensures i <= j <= |s| && TrimSpace(s) == s[i..j]
    ensures forall k | 0 <= k < i || j <= k < |s| :: IsSpace(s[k])
    ensures i < j ==> !IsSpace(s[i]) && !IsSpace(s[j - 1])
  {
    if s != "" && IsSpace(s[0]) {
      i, j := TrimSpaceIsExact(s[1..]);
      assert s[1..][i..j] == s[i + 1..j + 1];
      assert forall k | 0 < k < |s| :: s[1..][k - 1] == s[k];
      i, j := i + 1, j + 1;
    } else if s != "" && IsSpace(s[|s| - 1]) {
      i, j := TrimSpaceIsExact(s[..|s| - 1]);
      assert s[..|s| - 1][i..j] == s[i..j];
    } else {
      i, j := 0, |s|;
    }
  }

  function Trimmed(l: EvidenceLink): EvidenceLink {
    l.(evidenceId := TrimSpace(l.evidenceId))
  }

  ghost function TrimmedLinks(input: seq<EvidenceLink>): set<EvidenceLink> {
    set l | l in input :: Trimmed(l)
  }

  /** Some evidence, none without an ID, no ID twice in one role. */
  ghost predicate ValidLinks(input: seq<EvidenceLink>) {
    && input != []
    && (forall l | l in input :: TrimSpace(l.evidenceId) != "")
    && (forall i, j | 0 <= i < j < |input| :: Trimmed(input[i]) != Trimmed(input[j]))
  }

  method NormalizeEvidenceLinks(input: seq<EvidenceLink>) returns (r: Option<seq<EvidenceLink>>)
    ensures r == if ValidLinks(input) then Some(Sorted(LinkLess, TrimmedLinks(input))) else None
  {
    if |input| == 0 {
      return None;
    }
    var result: seq<EvidenceLink> := [];
    var seen: set<EvidenceLink> := {};
    for index := 0 to |input|
      invariant |result| == index && forall i | 0 <= i < index :: result[i] == Trimmed(input[i]) && result[i].evidenceId != ""
      invariant Distinct(result) && seen == Elements(result)
    {
      var link := Trimmed(input[index]);
      if link.evidenceId == "" {
        assert input[index] in input;
        return None;
      }
      if link in seen {
        var i :| 0 <= i < |result| && result[i] == link;
        return None;
      }
      seen := seen + {link};
      result := result + [link];
    }
    assert Elements(result) == TrimmedLinks(input) by {
      forall l | l in TrimmedLinks(input) ensures l in Elements(result) {
        var i :| 0 <= i < |input| && Trimmed(input[i]) == l;
        assert result[i] == l;
      }
    }
    LinkOrder(Elements(result));
    result := SortSlice(result, LinkLess);
    r := Some(result);
  }

  lemma NormalLinks(input: seq<EvidenceLink>)
    ensures StrictlySorted(LinkLess, Sorted(LinkLess, TrimmedLinks(input)))
    ensures Elements(Sorted(LinkLess, TrimmedLinks(input))) == TrimmedLinks(input)
    ensures forall l | l in Sorted(LinkLess, TrimmedLinks(input)) :: Trimmed(l) == l
  {
    LinkOrder(TrimmedLinks(input));
    SortedIsSorted(LinkLess, TrimmedLinks(input));
    forall l | l in Sorted(LinkLess, TrimmedLinks(input)) ensures Trimmed(l) == l {
      assert l in Elements(Sorted(LinkLess, TrimmedLinks(input)));
      var m :| m in input && l == Trimmed(m);
      TrimIsIdempotent(m.evidenceId);
    }
  }

  /** Normalized links do not depend on the order given, and normalizing them again changes nothing. They
      come by ID, and of two links with one ID the contradicting one comes first. */
  lemma NormalizationIsCanonical(input: seq<EvidenceLink>, other: seq<EvidenceLink>)
    requires ValidLinks(input)
    ensures TrimmedLinks(other) == TrimmedLinks(input) ==> Sorted(LinkLess, TrimmedLinks(other)) == Sorted(LinkLess, TrimmedLinks(input))
    ensures
      var normal := Sorted(LinkLess, TrimmedLinks(input));
      && ValidLinks(normal) && Sorted(LinkLess, TrimmedLinks(normal)) == normal
      && forall i, j | 0 <= i < j < |normal| ::
           if normal[i].evidenceId == normal[j].evidenceId then normal[i].role.Contradicting? && normal[j].role.Supporting?
           else StringLess(normal[i].evidenceId, normal[j].evidenceId)
  {
    var normal := Sorted(LinkLess, TrimmedLinks(input));
    NormalLinks(input);
    LinkOrder(TrimmedLinks(input));
    forall i, j | 0 <= i < j < |normal|
      ensures if normal[i].evidenceId == normal[j].evidenceId then normal[i].role.Contradicting? && normal[j].role.Supporting?
              else StringLess(normal[i].evidenceId, normal[j].evidenceId)
    {
      assert LinkLess(normal[i], normal[j]);
    }
    assert Trimmed(input[0]) in Elements(normal);
    forall i, j | 0 <= i < j < |normal| ensures normal[i] != normal[j] {
      assert LinkLess(normal[i], normal[j]) && normal[i] in TrimmedLinks(input);
    }
    forall l | l in normal ensures TrimSpace(l.evidenceId) != "" {
      assert Trimmed(l) == l && l in Elements(normal);
    }
    assert TrimmedLinks(normal) == Elements(normal) by {
      forall l | l in normal ensures Trimmed(l) == l {
      }
    }
  }

  // ---- observations ----

  /** normalizeDerivation */
  predicate ValidDerivation(d: Derivation) {
    && !Blank(d.methodName) && !Blank(d.version)
    && (d.runId != "" ==> !Blank(d.runId))
    && (d.model != "" ==> !Blank(d.model)) && (d.promptVersion != "" ==> !Blank(d.promptVersion))
    && (d.model == "" <==> d.promptVersion == "")
  }

  ghost predicate ValidInput(o: Observation) {
    && TrimSpace(o.id) != "" && !Blank(o.statement.predicateName) && o.recordedAt != ZERO_TIME
    && ValidLinks(o.evidence) && ValidDerivation(o.derivation)
    && (o.confidence.Some? ==> 0.0 <= o.confidence.value.score <= 1.0)
  }

  /** NewObservation; its input has the shape of an observation. Every observation it builds is canonical. */
  method NewObservation(input: Observation) returns (r: Option<Observation>)
    ensures r.Some? <==> ValidInput(input)
    ensures r.Some? ==> Canonical(r.value)
    ensures r.Some? ==> r.value == input.(id := TrimSpace(input.id), evidence := Sorted(LinkLess, TrimmedLinks(input.evidence)))
  {
    var id := TrimSpace(input.id);
    if id == "" || Blank(input.statement.predicateName) || input.recordedAt == ZERO_TIME {
      return None;
    }
    var links := NormalizeEvidenceLinks(input.evidence);
    if links.None? {
      return None;
    }
    if !ValidDerivation(input.derivation) {
      return None;
    }
    if input.confidence.Some? && !(0.0 <= input.confidence.value.score <= 1.0) {
      return None;
    }
    TrimIsIdempotent(input.id);
    LinksAreCanonical(input.evidence);
    r := Some(input.(id := id, evidence := links.value));
  }

  /** Everything that keeps NewObservation from building an observation. */
  lemma InputsAreRejected(o: Observation)
    ensures !ValidInput(o) <==>
      || Blank(o.id) || Blank(o.statement.predicateName) || o.recordedAt == ZERO_TIME
      || o.evidence == [] || (exists l :: l in o.evidence && Blank(l.evidenceId))
      || (exists i, j :: 0 <= i < j < |o.evidence| && o.evidence[i].role == o.evidence[j].role
            && TrimSpace(o.evidence[i].evidenceId) == TrimSpace(o.evidence[j].evidenceId))
      || Blank(o.derivation.methodName) || Blank(o.derivation.version)
      || (o.derivation.runId != "" && Blank(o.derivation.runId))
      || (o.derivation.model == "") != (o.derivation.promptVersion == "")
      || (o.derivation.model != "" && (Blank(o.derivation.model) || Blank(o.derivation.promptVersion)))
      || (o.confidence.Some? && (o.confidence.value.score < 0.0 || o.confidence.value.score > 1.0))
  {
    LinksAreRejected(o.evidence);
  }

  lemma LinksAreRejected(input: seq<EvidenceLink>)
    ensures !ValidLinks(input) <==>
      || input == [] || (exists l :: l in input && Blank(l.evidenceId))
      || exists i, j :: 0 <= i < j < |input| && input[i].role == input[j].role
           && TrimSpace(input[i].evidenceId) == TrimSpace(input[j].evidenceId)
  {
    forall i, j | 0 <= i < j < |input|
      ensures Trimmed(input[i]) == Trimmed(input[j]) <==>
        input[i].role == input[j].role && TrimSpace(input[i].evidenceId) == TrimSpace(input[j].evidenceId)
    {
    }
  }

  lemma LinksAreCanonical(input: seq<EvidenceLink>)
    requires ValidLinks(input)
    ensures
      var normal := Sorted(LinkLess, TrimmedLinks(input));
      normal != [] && forall l | l in normal :: l.evidenceId != "" && TrimSpace(l.evidenceId) == l.evidenceId
  {
    NormalizationIsCanonical(input, input);
    NormalLinks(input);
    forall l | l in Sorted(LinkLess, TrimmedLinks(input)) ensures l.evidenceId != "" && TrimSpace(l.evidenceId) == l.evidenceId {
      assert Trimmed(l) == l;
    }
  }

  // ---- selections and plans ----

  function At(name: string, instant: Time): Option<TemporalSelection> {
    if Blank(name) || instant == ZERO_TIME then None else Some(PointSelection(TrimSpace(name), instant))
  }

  function Between(name: string, start: Time, end: Time): Option<TemporalSelection> {
    if Blank(name) || start == ZERO_TIME || end == ZERO_TIME || end <= start then None
    else Some(WindowSelection(TrimSpace(name), start, end))
  }

  datatype Intent = PointInTime | TrendComparison | TrajectoryIntent | CausalChain

  function StartOf(s: TemporalSelection): Time {
    match s
    case NoSelection => ZERO_TIME
    case PointSelection(_, instant) => instant
    case WindowSelection(_, start, _) => start
  }

  function NameOf(s: TemporalSelection): string {
    match s
    case NoSelection => ""
    case PointSelection(name, _) => name
    case WindowSelection(name, _, _) => name
  }

  predicate OfKind(intent: Intent, s: TemporalSelection) {
    if intent.PointInTime? then s.PointSelection? else s.WindowSelection?
  }

  /** The selections each intent asks for: trend windows in order and apart by name. */
  predicate ValidSelections(intent: Intent, selections: seq<TemporalSelection>) {
    && |selections| == (if intent.TrendComparison? then 2 else 1)
    && (forall i | 0 <= i < |selections| :: OfKind(intent, selections[i]))
    && (intent.TrendComparison? ==>
          StartOf(selections[0]) < StartOf(selections[1]) && NameOf(selections[0]) != NameOf(selections[1]))
  }

  /** One point, one window, or for a trend two windows that start one after the other under different names. */
  lemma SelectionsByIntent(intent: Intent, selections: seq<TemporalSelection>)
    ensures ValidSelections(intent, selections) <==>
      match intent
      case PointInTime => |selections| == 1 && selections[0].PointSelection?
      case TrendComparison =>
        && |selections| == 2 && selections[0].WindowSelection? && selections[1].WindowSelection?
        && selections[0].start < selections[1].start && selections[0].name != selections[1].name
      case _ => |selections| == 1 && selections[0].WindowSelection?
  {
    if intent.TrendComparison? && ValidSelections(intent, selections) {
      assert OfKind(intent, selections[0]) && OfKind(intent, selections[1]);
    }
  }

  /** validateSelections */
  method ValidateSelections(intent: Intent, selections: seq<TemporalSelection>) returns (ok: bool)
    ensures ok <==> ValidSelections(intent, selections)
  {
    var wantCount := if intent.TrendComparison? then 2 else 1;
    if |selections| != wantCount {
      return false;
    }
    if intent.TrendComparison? && StartOf(selections[1]) <= StartOf(selections[0]) {
      return false;
    }
    var seenLabels: set<string> := {};
    for i := 0 to |selections|
      invariant forall j | 0 <= j < i :: OfKind(intent, selections[j]) && NameOf(selections[j]) in seenLabels
      invariant forall l | l in seenLabels :: exists j :: 0 <= j < i && NameOf(selections[j]) == l
      invariant i == 2 ==> NameOf(selections[0]) != NameOf(selections[1])
    {
      if !OfKind(intent, selections[i]) {
        return false;
      }
      if NameOf(selections[i]) in seenLabels {
        return false;
      }
      seenLabels := seenLabels + {NameOf(selections[i])};
    }
    ok := true;
  }

  /** Whatever a validated trend plan aggregates from accepted candidates, the comparison accepts. */
  lemma TrendPlansCompare(selections: seq<TemporalSelection>, scope: KnowledgeScope, cs: seq<StateCandidate>, ds: seq<StateCandidate>)
    requires ValidSelections(TrendComparison, selections)
    requires Accepted(cs) && Accepted(ds) && CanonicalObservations(ClaimsOf(cs)) && CanonicalObservations(ClaimsOf(ds))
    ensures
      var (s, t) := (WindowState(selections[0], scope, cs), WindowState(selections[1], scope, ds));
      s.Ok? && t.Ok? && CompareSpec(s.value, t.value).Ok?
  {
    assert OfKind(TrendComparison, selections[0]) && OfKind(TrendComparison, selections[1]);
    var c := AggregatesCompare(selections[0], selections[1], scope, scope, cs, ds, StateKey(Absent, ""));
  }
}
