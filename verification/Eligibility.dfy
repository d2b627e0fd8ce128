/** Valid-time and recorded-time selection (core/temporal/plan.go and the eligibility tests of
    aggregation.go, point.go and trajectory.go), with the interval geometry behind them. */
module Eligibility {
  import opened Results
  import opened Observations

  datatype SelectionShape =
    | NoSelection
    | PointSelection(name: string, instant: Time)
    | WindowSelection(name: string, start: Time, end: Time)

  predicate ConstructedSelection(s: SelectionShape) {
    match s
    case NoSelection => true
    case PointSelection(_, instant) => instant != ZERO_TIME
    case WindowSelection(_, start, end) => start != ZERO_TIME && end != ZERO_TIME && start < end
  }

  /** A zero value, or what At and Between let through. */
  type TemporalSelection = s: SelectionShape | ConstructedSelection(s) witness NoSelection

  datatype KnowledgeScope = CurrentKnowledge | KnownAsOf(cutoff: Time)

  datatype Eligibility = Excluded | Definite | Uncertain

  /** The three valid-time tests that are passed to aggregateCandidates as closures. */
  datatype ValidTimeSelector =
    | AtPoint(point: Time)
    | InWindow(start: Time, end: Time)
    | JustBefore(boundary: Time)

  predicate RecordedTimeEligible(scope: KnowledgeScope, o: Observation) {
    scope.KnownAsOf? ==> o.recordedAt <= scope.cutoff
  }

  predicate IntervalContains(e: TemporalExtent, t: Time) {
    var (since, until) := Bounds(e);
    (since.Some? ==> since.value <= t) && (until.Some? ==> t < until.value)
  }

  function DefiniteIf(b: bool): Eligibility { if b then Definite else Excluded }

  function UncertainIf(b: bool): Eligibility { if b then Uncertain else Excluded }

  function WindowEligibility(start: Time, end: Time, e: TemporalExtent): Eligibility {
    match e
    case UnknownTime => Uncertain
    case AtInstant(t) => DefiniteIf(start <= t < end)
    case OverInterval(since, until) =>
      DefiniteIf((since.Some? ==> since.value < end) && (until.Some? ==> until.value > start))
    case WithinWindow(earliest, latest) => UncertainIf(earliest < end && latest > start)
  }

  function PointEligibility(point: Time, e: TemporalExtent): Eligibility {
    match e
    case UnknownTime => Uncertain
    case AtInstant(t) => DefiniteIf(t == point)
    case OverInterval(_, _) => DefiniteIf(IntervalContains(e, point))
    case WithinWindow(_, _) => UncertainIf(IntervalContains(e, point))
  }

  /** validImmediatelyBefore: the left limit at a boundary. */
  function LeftLimitEligibility(boundary: Time, e: TemporalExtent): Eligibility {
    var (since, until) := Bounds(e);
    var overlapsLeft := (since.Some? ==> since.value < boundary) && (until.Some? ==> until.value >= boundary);
    match e
    case UnknownTime => Uncertain
    case AtInstant(_) => Excluded
    case OverInterval(_, _) => DefiniteIf(overlapsLeft)
    case WithinWindow(_, _) => UncertainIf(overlapsLeft)
  }

  function Select(sel: ValidTimeSelector, e: TemporalExtent): Eligibility {
    match sel
    case AtPoint(point) => PointEligibility(point, e)
    case InWindow(start, end) => WindowEligibility(start, end, e)
    case JustBefore(boundary) => LeftLimitEligibility(boundary, e)
  }

  /** temporalExtentsOverlap */
  predicate ExtentsOverlap(left: TemporalExtent, right: TemporalExtent) {
    if left.AtInstant? && right.AtInstant? then left.instant == right.instant
    else if left.AtInstant? then IntervalContains(right, left.instant)
    else if right.AtInstant? then IntervalContains(left, right.instant)
    else
      var (leftSince, leftUntil) := Bounds(left);
      var (rightSince, rightUntil) := Bounds(right);
      && (leftSince.Some? && rightUntil.Some? ==> leftSince.value < rightUntil.value)
      && (rightSince.Some? && leftUntil.Some? ==> rightSince.value < leftUntil.value)
  }

  /** The boundaries addTrajectoryBoundaries adds for one extent. */
  function ExtentBoundaries(windowStart: Time, windowEnd: Time, e: TemporalExtent): set<Time> {
    if e.AtInstant? then
      if windowStart <= e.instant < windowEnd then {e.instant} else {}
    else
      var (since, until) := Bounds(e);
      (if since.Some? && windowStart <= since.value < windowEnd then {since.value} else {}) +
      (if until.Some? && windowStart < until.value < windowEnd then {until.value} else {})
  }

  /** An extent is definite (uncertain) in a window exactly when it is so at some instant of it. */
  lemma WindowIsUnionOfPoints(start: Time, end: Time, e: TemporalExtent, kind: Eligibility)
    requires start < end && kind != Excluded
    ensures WindowEligibility(start, end, e) == kind
       <==> exists t :: start <= t < end && PointEligibility(t, e) == kind
  {
    var (since, until) := Bounds(e);
    var first := if since.Some? && since.value > start then since.value else start;
    var witnessPoint := if e.AtInstant? then e.instant else first;
    if WindowEligibility(start, end, e) == kind {
      assert start <= witnessPoint < end && PointEligibility(witnessPoint, e) == kind;
    }
  }

  /** Helly's theorem on the line: two extents that each meet the window and overlap each other,
      possibly outside it, share an instant inside it. */
  lemma OverlapInsideWindow(start: Time, end: Time, left: TemporalExtent, right: TemporalExtent)
    requires start < end
    requires WindowEligibility(start, end, left) == Definite && WindowEligibility(start, end, right) == Definite
    ensures ExtentsOverlap(left, right) <==> exists t ::
        start <= t < end && PointEligibility(t, left) == Definite && PointEligibility(t, right) == Definite
  {
    var leftSince := if left.AtInstant? then Some(left.instant) else Bounds(left).0;
    var rightSince := if right.AtInstant? then Some(right.instant) else Bounds(right).0;
    var lo := if leftSince.Some? && leftSince.value > start then leftSince.value else start;
    var common := if rightSince.Some? && rightSince.value > lo then rightSince.value else lo;
    if ExtentsOverlap(left, right) {
      assert start <= common < end
          && PointEligibility(common, left) == Definite && PointEligibility(common, right) == Definite;
    }
  }

  /** A cell none of whose interior instants is a boundary of the extent sees the extent exactly
      as its first instant does, and, unless the extent is an instant, as every instant of it does. */
  lemma CellRefinesPoint(
    windowStart: Time, windowEnd: Time, start: Time, end: Time, t: Time, e: TemporalExtent)
    requires windowStart <= start <= t < end <= windowEnd
    requires forall x | x in ExtentBoundaries(windowStart, windowEnd, e) :: !(start < x < end)
    ensures WindowEligibility(start, end, e) == PointEligibility(start, e)
    ensures !e.AtInstant? ==> PointEligibility(t, e) == PointEligibility(start, e)
  {
    var (since, until) := Bounds(e);
    if e.AtInstant? {
      assert windowStart <= e.instant < windowEnd ==> e.instant in ExtentBoundaries(windowStart, windowEnd, e);
    } else {
      assert since.Some? && windowStart <= since.value < windowEnd ==>
          since.value in ExtentBoundaries(windowStart, windowEnd, e);
      assert until.Some? && windowStart < until.value < windowEnd ==>
          until.value in ExtentBoundaries(windowStart, windowEnd, e);
    }
  }

  /** The left limit is the state one microsecond earlier, instants aside. */
  lemma LeftLimitIsPreviousInstant(boundary: Time, e: TemporalExtent)
    ensures LeftLimitEligibility(boundary, e)
         == if e.AtInstant? then Excluded else PointEligibility(boundary - 1, e)
  {
  }
}
