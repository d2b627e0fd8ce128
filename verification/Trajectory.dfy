/** The trajectory of a window (core/temporal/trajectory.go). */
module Trajectory {
  import opened Results
  import opened Observations
  import opened Ordering
  import opened States
  import opened Eligibility
  import opened Claims
  import opened Materials
  import opened Aggregation
  import opened Transitions
  import opened Timelines

  /** What trajectory boundaries are drawn from. */
  predicate Drawn(scope: KnowledgeScope, o: Observation) {
    RecordedTimeEligible(scope, o) && !o.status.Rejected?
  }

  ghost function Boundaries(claims: set<Claim>, scope: KnowledgeScope, start: Time, end: Time): set<Time> {
    {start, end} +
    set c, x | c in claims && Drawn(scope, c.observation) && x in ExtentBoundaries(start, end, c.observation.validTime) :: x
  }

  ghost function OrderedBoundaries(claims: set<Claim>, scope: KnowledgeScope, start: Time, end: Time): seq<Time> {
    Sorted(TimeLess, Boundaries(claims, scope, start, end))
  }

  lemma SortedTimesIncrease(s: set<Time>)
    ensures Increasing(Sorted(TimeLess, s)) && Elements(Sorted(TimeLess, s)) == s
  {
    TimeOrder(s);
    SortedIsSorted(TimeLess, s);
    var bs := Sorted(TimeLess, s);
    forall i, j | 0 <= i < j < |bs| ensures bs[i] < bs[j] { assert TimeLess(bs[i], bs[j]); }
  }

  lemma EndsOfIncreasing(bs: seq<Time>, start: Time, end: Time)
    requires Increasing(bs) && start < end
    requires start in bs && end in bs && forall x | x in bs :: start <= x <= end
    ensures |bs| >= 2 && bs[0] == start && bs[|bs| - 1] == end
  {
    var i :| 0 <= i < |bs| && bs[i] == start;
    var j :| 0 <= j < |bs| && bs[j] == end;
    assert bs[0] in bs && bs[|bs| - 1] in bs;
  }

  lemma BoundariesInWindow(claims: set<Claim>, scope: KnowledgeScope, start: Time, end: Time)
    requires start < end
    ensures forall x | x in Boundaries(claims, scope, start, end) :: start <= x <= end
  {
  }

  lemma OrderedBoundariesIncrease(claims: set<Claim>, scope: KnowledgeScope, start: Time, end: Time)
    requires start < end
    ensures var bs := OrderedBoundaries(claims, scope, start, end);
      && Elements(bs) == Boundaries(claims, scope, start, end)
      && Increasing(bs) && |bs| >= 2 && bs[0] == start && bs[|bs| - 1] == end
  {
    var all := Boundaries(claims, scope, start, end);
    var bs := Sorted(TimeLess, all);
    SortedTimesIncrease(all);
    BoundariesInWindow(claims, scope, start, end);
    forall x ensures x in bs <==> x in all { assert x in bs <==> x in Elements(bs); }
    EndsOfIncreasing(bs, start, end);
  }

  /** The selector of the i-th cell: the left limit first, then the windows between boundaries. */
  function CellSelector(bs: seq<Time>, i: nat): ValidTimeSelector
    requires i < |bs|
  {
    if i == 0 then JustBefore(bs[0]) else InWindow(bs[i - 1], bs[i])
  }

  ghost function Cells(claims: set<Claim>, scope: KnowledgeScope, bs: seq<Time>): seq<Material> {
    seq(|bs|, i requires 0 <= i < |bs| => MaterialUnder(claims, scope, CellSelector(bs, i)))
  }

  ghost function TrajectoryOf(claims: set<Claim>, scope: KnowledgeScope, start: Time, end: Time): seq<Transition>
    requires Coherent(claims) && start < end
  {
    OrderedBoundariesIncrease(claims, scope, start, end);
    var bs := OrderedBoundaries(claims, scope, start, end);
    Flatten(SortEach(TransitionOrder(ObservationIndex(claims)), Diffs(bs, Cells(claims, scope, bs))))
  }

  ghost function PayloadErrorOf(earlier: seq<StateCandidate>, c: StateCandidate): Option<AggregationError> {
    if !CandidateMatches(c) then Some(InvalidCandidate)
    else if exists d | d in earlier :: d.observation.id == c.observation.id && d.observation != c.observation
    then Some(ConflictingPayload)
    else None
  }

  /** The first loop of BuildTrajectory checks matching and payloads only. */
  ghost function PayloadError(cs: seq<StateCandidate>): Option<AggregationError> {
    if cs == [] then None
    else
      var n := |cs| - 1;
      var earlier := PayloadError(cs[..n]);
      if earlier.Some? then earlier else PayloadErrorOf(cs[..n], cs[n])
  }

  ghost function TrajectoryState(selection: TemporalSelection, scope: KnowledgeScope, cs: seq<StateCandidate>)
    : Result<seq<Transition>, StateError>
  {
    AcceptedIsErrorFree(cs);
    if !selection.WindowSelection? then Err(WrongSelection)
    else if PayloadError(cs).Some? then Err(RejectedCandidates(PayloadError(cs).value))
    else if FirstError(cs).Some? then Err(RejectedCandidates(FirstError(cs).value))
    else Ok(TrajectoryOf(ClaimsOf(cs), scope, selection.start, selection.end))
  }

  // ---- diffTrajectoryState ----

  ghost predicate FactsMapped(facts: map<StateKey, Fact>, fs: seq<Fact>) {
    forall k :: (k in facts <==> FactFor(fs, k).Some?) && (k in facts ==> facts[k] == FactFor(fs, k).value)
  }

  ghost predicate UnresolvedMapped(items: map<StateKey, UnresolvedFact>, us: seq<UnresolvedFact>) {
    forall k :: (k in items <==> UnresolvedFor(us, k).Some?) && (k in items ==> items[k] == UnresolvedFor(us, k).value)
  }

  method FactsByIdentity(fs: seq<Fact>) returns (facts: map<StateKey, Fact>)
    ensures FactsMapped(facts, fs)
  {
    facts := map[];
    for i := 0 to |fs|
      invariant FactsMapped(facts, fs[..i])
    {
      assert fs[..i + 1][..i] == fs[..i];
      facts := facts[fs[i].key := fs[i]];
    }
    assert fs[..|fs|] == fs;
  }

  method UnresolvedByIdentity(us: seq<UnresolvedFact>) returns (items: map<StateKey, UnresolvedFact>)
    ensures UnresolvedMapped(items, us)
  {
    items := map[];
    for i := 0 to |us|
      invariant UnresolvedMapped(items, us[..i])
    {
      assert us[..i + 1][..i] == us[..i];
      items := items[us[i].key := us[i]];
    }
    assert us[..|us|] == us;
  }

  method DiffTrajectoryState(before: Material, after: Material, at: Time) returns (transitions: seq<Transition>)
    requires CanonicalMaterial(before) && CanonicalMaterial(after)
    ensures transitions == Diff(before, after, at)
  {
    var beforeFacts := FactsByIdentity(before.facts);
    var afterFacts := FactsByIdentity(after.facts);
    var beforeUnresolved := UnresolvedByIdentity(before.unresolved);
    var afterUnresolved := UnresolvedByIdentity(after.unresolved);
    MappedKeys(beforeFacts, before);
    MappedKeys(afterFacts, after);
    var orderedKeys := SortKeys(beforeFacts.Keys + afterFacts.Keys);
    transitions := DiffKeys(orderedKeys, before, after, at, beforeFacts, afterFacts, beforeUnresolved, afterUnresolved);
  }

  /** The loop of diffTrajectoryState. */
  method DiffKeys(
    orderedKeys: seq<StateKey>, ghost before: Material, ghost after: Material, at: Time,
    beforeFacts: map<StateKey, Fact>, afterFacts: map<StateKey, Fact>,
    beforeUnresolved: map<StateKey, UnresolvedFact>, afterUnresolved: map<StateKey, UnresolvedFact>)
    returns (transitions: seq<Transition>)
    requires FactsMapped(beforeFacts, before.facts) && FactsMapped(afterFacts, after.facts)
    requires UnresolvedMapped(beforeUnresolved, before.unresolved) && UnresolvedMapped(afterUnresolved, after.unresolved)
    ensures transitions == DiffOver(orderedKeys, before, after, at)
  {
    transitions := [];
    for i := 0 to |orderedKeys|
      invariant transitions == DiffOver(orderedKeys[..i], before, after, at)
    {
      assert orderedKeys[..i + 1][..i] == orderedKeys[..i];
      var one := DiffKey(
        orderedKeys[i], before, after, at, beforeFacts, afterFacts, beforeUnresolved, afterUnresolved);
      transitions := transitions + one;
    }
    assert orderedKeys[..|orderedKeys|] == orderedKeys;
  }

  /** The body of that loop. */
  method DiffKey(
    k: StateKey, ghost before: Material, ghost after: Material, at: Time,
    beforeFacts: map<StateKey, Fact>, afterFacts: map<StateKey, Fact>,
    beforeUnresolved: map<StateKey, UnresolvedFact>, afterUnresolved: map<StateKey, UnresolvedFact>)
    returns (ts: seq<Transition>)
    requires FactsMapped(beforeFacts, before.facts) && FactsMapped(afterFacts, after.facts)
    requires UnresolvedMapped(beforeUnresolved, before.unresolved) && UnresolvedMapped(afterUnresolved, after.unresolved)
    ensures ts == KeyTransition(before, after, at, k)
  {
    var unresolved := TrajectoryUnresolved(Lookup(beforeUnresolved, k), Lookup(afterUnresolved, k));
    ts := TransitionFor(k, at, Lookup(beforeFacts, k), Lookup(afterFacts, k), unresolved);
  }

  lemma MappedKeys(facts: map<StateKey, Fact>, m: Material)
    requires FactsMapped(facts, m.facts)
    ensures facts.Keys == FactKeys(m)
  {
    forall k { FactForMember(m.facts, k); }
  }

  // ---- BuildTrajectory ----

  method AddTrajectoryBoundaries(boundaries: set<Time>, start: Time, end: Time, e: TemporalExtent)
    returns (updated: set<Time>)
    ensures updated == boundaries + ExtentBoundaries(start, end, e)
  {
    updated := boundaries;
    if e.AtInstant? {
      if start <= e.instant < end {
        updated := updated + {e.instant};
      }
      return;
    }
    var (since, until) := Bounds(e);
    if since.Some? && start <= since.value < end {
      updated := updated + {since.value};
    }
    if until.Some? && until.value > start && until.value < end {
      updated := updated + {until.value};
    }
  }

  ghost predicate Indexed(observations: map<string, Observation>, cs: seq<StateCandidate>) {
    && (forall id | id in observations :: exists c :: c in cs && c.observation.id == id && observations[id] == c.observation)
    && (forall c | c in cs :: c.observation.id in observations && observations[c.observation.id] == c.observation)
  }

  lemma BoundariesOneMore(claims: set<Claim>, c: Claim, scope: KnowledgeScope, start: Time, end: Time)
    ensures Boundaries(claims + {c}, scope, start, end) == Boundaries(claims, scope, start, end) +
      if Drawn(scope, c.observation) then ExtentBoundaries(start, end, c.observation.validTime) else {}
  {
  }

  lemma {:induction false} PayloadErrorPersists(cs: seq<StateCandidate>, i: nat)
    requires i <= |cs| && PayloadError(cs[..i]).Some?
    ensures PayloadError(cs) == PayloadError(cs[..i])
  {
    if i < |cs| {
      assert cs[..|cs| - 1][..i] == cs[..i];
      PayloadErrorPersists(cs[..|cs| - 1], i);
    } else {
      assert cs[..i] == cs;
    }
  }

  method DrawBoundaries(boundaries: set<Time>, scope: KnowledgeScope, start: Time, end: Time, o: Observation)
    returns (updated: set<Time>)
    ensures updated == boundaries + if Drawn(scope, o) then ExtentBoundaries(start, end, o.validTime) else {}
  {
    if !RecordedTimeEligible(scope, o) || o.status.Rejected? {
      return boundaries;
    }
    updated := AddTrajectoryBoundaries(boundaries, start, end, o.validTime);
  }

  method CheckPayload(c: StateCandidate, observations: map<string, Observation>, ghost earlier: seq<StateCandidate>)
    returns (error: Option<AggregationError>)
    requires Indexed(observations, earlier)
    ensures error == PayloadErrorOf(earlier, c)
  {
    if !CandidateMatches(c) {
      return Some(InvalidCandidate);
    }
    if c.observation.id in observations && observations[c.observation.id] != c.observation {
      return Some(ConflictingPayload);
    }
    error := None;
  }

  lemma IndexGrows(observations: map<string, Observation>, earlier: seq<StateCandidate>, c: StateCandidate)
    requires Indexed(observations, earlier) && PayloadErrorOf(earlier, c).None?
    ensures Indexed(observations[c.observation.id := c.observation], earlier + [c])
  {
  }

  /** The first loop of BuildTrajectory. */
  method ScanTrajectory(scope: KnowledgeScope, cs: seq<StateCandidate>, start: Time, end: Time)
    returns (error: Option<AggregationError>, boundaries: set<Time>, observations: map<string, Observation>)
    ensures error == PayloadError(cs)
    ensures error.None? ==> boundaries == Boundaries(ClaimsOf(cs), scope, start, end) && Indexed(observations, cs)
  {
    boundaries := {start, end};
    observations := map[];
    ghost var claims: set<Claim> := {};
    ghost var earlier: seq<StateCandidate> := [];
    for i := 0 to |cs|
      invariant earlier == cs[..i] && PayloadError(earlier).None?
      invariant claims == ClaimsOf(cs[..i])
      invariant boundaries == Boundaries(claims, scope, start, end)
      invariant Indexed(observations, earlier)
    {
      var c := cs[i];
      PayloadErrorOfPrefix(cs, i);
      error := CheckPayload(c, observations, earlier);
      if error.Some? {
        PayloadErrorPersists(cs, i + 1);
        return;
      }
      IndexGrows(observations, earlier, c);
      ClaimsGrow(cs, i);
      BoundariesOneMore(claims, ClaimOf(c), scope, start, end);
      observations := observations[c.observation.id := c.observation];
      earlier := earlier + [c];
      claims := claims + {ClaimOf(c)};
      boundaries := DrawBoundaries(boundaries, scope, start, end, c.observation);
    }
    assert cs[..|cs|] == cs;
    error := None;
  }

  lemma PayloadErrorOfPrefix(cs: seq<StateCandidate>, i: nat)
    requires i < |cs| && PayloadError(cs[..i]).None?
    ensures cs[..i + 1] == cs[..i] + [cs[i]]
    ensures PayloadError(cs[..i + 1]) == PayloadErrorOf(cs[..i], cs[i])
  {
    assert cs[..i + 1][..i] == cs[..i];
  }

  // ---- canonical states ----

  lemma MaterialIsCanonical(claims: set<Claim>, scope: KnowledgeScope, sel: ValidTimeSelector)
    requires CanonicalClaims(claims)
    ensures CanonicalMaterial(MaterialUnder(claims, scope, sel))
  {
    var entries := Entries(claims, scope, sel);
    forall f | f in MaterialOf(entries).facts ensures CanonicalKey(f.key) && CanonicalTerm(f.value) {
      FactsOfMaterial(entries, f);
      var group := WithKey(entries, f.key);
      var e :| e in group && e.role.Supported?;
      assert e.claim.value == ResolvedValue(group);
    }
  }

  lemma CellsMakeTimeline(claims: set<Claim>, scope: KnowledgeScope, bs: seq<Time>)
    requires CanonicalClaims(claims) && Increasing(bs)
    ensures Timeline(bs, Cells(claims, scope, bs))
  {
    forall i | 0 <= i < |bs| ensures CanonicalMaterial(Cells(claims, scope, bs)[i]) {
      MaterialIsCanonical(claims, scope, CellSelector(bs, i));
    }
  }

  // ---- the whole ----

  lemma IndexedObservations(observations: map<string, Observation>, cs: seq<StateCandidate>)
    requires Indexed(observations, cs) && Coherent(ClaimsOf(cs))
    ensures observations == ObservationIndex(ClaimsOf(cs))
  {
    var claims := ClaimsOf(cs);
    forall id | id in observations
      ensures id in ObservationIndex(claims) && observations[id] == ObservationIndex(claims)[id]
    {
      var c :| c in cs && c.observation.id == id && observations[id] == c.observation;
      assert ClaimOf(c) in claims;
    }
  }

  method SortTimes(s: set<Time>) returns (ordered: seq<Time>)
    ensures ordered == Sorted(TimeLess, s)
  {
    TimeOrder(s);
    ordered := SortedElements(s, TimeLess);
  }

  lemma BoundariesAreNonzero(claims: set<Claim>, scope: KnowledgeScope, start: Time, end: Time)
    requires start != ZERO_TIME && end != ZERO_TIME
    ensures ZERO_TIME !in Boundaries(claims, scope, start, end)
  {
  }

  /** The state of one cell; aggregation cannot fail on candidates it has accepted before, and a
      boundary is never the zero time, so AtTime cannot fail either. */
  method AggregateCell(
    name: string, scope: KnowledgeScope, cs: seq<StateCandidate>, start: Time, end: Time)
    returns (m: Material)
    requires Accepted(cs) && start < end && start != ZERO_TIME && end != ZERO_TIME
    ensures m == MaterialUnder(ClaimsOf(cs), scope, InWindow(start, end))
  {
    AcceptedIsErrorFree(cs);
    var current := AggregateWindow(WindowSelection(name, start, end), scope, cs);
    m := Material(current.value.facts, current.value.unresolved);
  }

  method BuildTrajectory(selection: TemporalSelection, scope: KnowledgeScope, cs: seq<StateCandidate>)
    returns (r: Result<seq<Transition>, StateError>)
    ensures r == TrajectoryState(selection, scope, cs)
  {
    AcceptedIsErrorFree(cs);
    if !selection.WindowSelection? {
      return Err(WrongSelection);
    }
    var error, boundaries, observations := ScanTrajectory(scope, cs, selection.start, selection.end);
    if error.Some? {
      return Err(RejectedCandidates(error.value));
    }
    var orderedBoundaries := SortTimes(boundaries);
    var groupsBeforeStart := AggregateCandidates(scope, cs, JustBefore(selection.start));
    if groupsBeforeStart.Err? {
      return Err(RejectedCandidates(groupsBeforeStart.error));
    }
    AcceptedClaimsAreCanonical(cs);
    OrderedBoundariesIncrease(ClaimsOf(cs), scope, selection.start, selection.end);
    BoundariesAreNonzero(ClaimsOf(cs), scope, selection.start, selection.end);
    assert forall x | x in orderedBoundaries :: x in Elements(orderedBoundaries);
    var previous := SummarizeGroups(groupsBeforeStart.value, Entries(ClaimsOf(cs), scope, JustBefore(selection.start)));
    var transitions := AppendCells(selection, scope, cs, orderedBoundaries, previous);
    IndexedObservations(observations, cs);
    ghost var cells := Cells(ClaimsOf(cs), scope, orderedBoundaries);
    CellsMakeTimeline(ClaimsOf(cs), scope, orderedBoundaries);
    DiffsAreKeyed(orderedBoundaries, cells);
    transitions := OrderCoreTransitions(
      transitions, observations, orderedBoundaries, Diffs(orderedBoundaries, cells));
    r := Ok(transitions);
  }

  /** The loop of BuildTrajectory over the cells. */
  method AppendCells(
    selection: TemporalSelection, scope: KnowledgeScope, cs: seq<StateCandidate>, bs: seq<Time>, beforeStart: Material)
    returns (transitions: seq<Transition>)
    requires selection.WindowSelection? && Accepted(cs)
    requires |bs| > 0 && Increasing(bs) && ZERO_TIME !in bs
    requires beforeStart == MaterialUnder(ClaimsOf(cs), scope, JustBefore(bs[0]))
    ensures transitions == Flatten(Diffs(bs, Cells(ClaimsOf(cs), scope, bs)))
  {
    AcceptedClaimsAreCanonical(cs);
    ghost var claims := ClaimsOf(cs);
    ghost var cells := Cells(claims, scope, bs);
    ghost var blocks := Diffs(bs, cells);
    var previous := beforeStart;
    transitions := [];
    for index := 0 to |bs| - 1
      invariant previous == cells[index]
      invariant transitions == Flatten(blocks[..index])
    {
      var current := AggregateCell(selection.name, scope, cs, bs[index], bs[index + 1]);
      CellAt(claims, scope, bs, index + 1);
      CanonicalCell(claims, scope, bs, index);
      CanonicalCell(claims, scope, bs, index + 1);
      var changes := DiffTrajectoryState(previous, current, bs[index]);
      BlockAt(bs, cells, index);
      FlattenOneMore(blocks, index);
      transitions := transitions + changes;
      previous := current;
    }
    assert blocks[..|blocks|] == blocks;
  }

  lemma CanonicalCell(claims: set<Claim>, scope: KnowledgeScope, bs: seq<Time>, i: nat)
    requires CanonicalClaims(claims) && i < |bs|
    ensures CanonicalMaterial(Cells(claims, scope, bs)[i])
  {
    MaterialIsCanonical(claims, scope, CellSelector(bs, i));
  }

  lemma CellAt(claims: set<Claim>, scope: KnowledgeScope, bs: seq<Time>, i: nat)
    requires i < |bs|
    ensures Cells(claims, scope, bs)[i] == MaterialUnder(claims, scope, CellSelector(bs, i))
  {
  }
}
