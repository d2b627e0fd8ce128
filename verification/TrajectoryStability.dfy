/** A trajectory depends neither on the order of candidates nor on what was recorded after its cutoff. */
module TrajectoryStability {
  import opened Observations
  import opened Ordering
  import opened States
  import opened Eligibility
  import opened Claims
  import opened Materials
  import opened Aggregation
  import opened StateProperties
  import opened Transitions
  import opened Timelines
  import opened Trajectory

  lemma {:induction false} PayloadErrorsAreRejections(cs: seq<StateCandidate>)
    ensures PayloadError(cs).Some? ==> !Accepted(cs)
  {
    if cs != [] {
      var n := |cs| - 1;
      PayloadErrorsAreRejections(cs[..n]);
      assert cs == cs[..n] + [cs[n]];
      assert ClaimsOf(cs[..n]) <= ClaimsOf(cs);
      if d :| d in cs[..n] && d.observation.id == cs[n].observation.id && d.observation != cs[n].observation {
        assert ClaimOf(d) in ClaimsOf(cs) && ClaimOf(cs[n]) in ClaimsOf(cs);
      }
    }
  }

  /** A trajectory is built exactly when the candidates would be accepted for aggregation. */
  lemma TrajectoryIsBuiltWhenAccepted(selection: TemporalSelection, scope: KnowledgeScope, cs: seq<StateCandidate>)
    ensures TrajectoryState(selection, scope, cs).Ok? <==> selection.WindowSelection? && Accepted(cs)
  {
    PayloadErrorsAreRejections(cs);
    AcceptedIsErrorFree(cs);
  }

  lemma TrajectoryOrderIndependence(
    selection: TemporalSelection, scope: KnowledgeScope, cs: seq<StateCandidate>, ds: seq<StateCandidate>)
    requires SameCandidates(cs, ds)
    ensures SameOutcome(TrajectoryState(selection, scope, cs), TrajectoryState(selection, scope, ds))
  {
    SameCandidatesSameClaims(cs, ds);
    TrajectoryIsBuiltWhenAccepted(selection, scope, cs);
    TrajectoryIsBuiltWhenAccepted(selection, scope, ds);
    AcceptedIsErrorFree(cs);
    AcceptedIsErrorFree(ds);
  }

  // ---- observations behind a transition ----

  lemma {:induction false} CandidateIdsMembers(fs: seq<Fact>, id: string)
    ensures id in CandidateIds(fs) ==> exists f :: f in fs && id in f.observationIds
  {
    if fs != [] {
      CandidateIdsMembers(fs[1..], id);
      if id in fs[0].observationIds { assert fs[0] in fs; }
    }
  }

  lemma {:induction false} UnresolvedIdsMembers(us: seq<UnresolvedFact>, id: string)
    ensures id in UnresolvedIds(us) ==> exists u, f :: u in us && f in u.candidates && id in f.observationIds
  {
    if us != [] {
      UnresolvedIdsMembers(us[1..], id);
      CandidateIdsMembers(us[0].candidates, id);
      if id in CandidateIds(us[0].candidates) { assert us[0] in us; }
    }
  }

  ghost predicate ListsOnly(m: Material, ids: set<string>) {
    forall f, id | Lists(m, f) && id in f.observationIds :: id in ids
  }

  lemma MaterialListsSelected(claims: set<Claim>, scope: KnowledgeScope, sel: ValidTimeSelector)
    requires CanonicalClaims(claims) && Coherent(claims)
    ensures ListsOnly(MaterialUnder(claims, scope, sel), ClaimIds(claims))
  {
    forall f, id | Lists(MaterialUnder(claims, scope, sel), f) && id in f.observationIds ensures id in ClaimIds(claims) {
      ListedIds(claims, scope, sel, f, id);
    }
  }

  lemma IdsOfTransition(before: Material, after: Material, at: Time, t: Transition, ids: set<string>)
    requires CanonicalMaterial(before) && CanonicalMaterial(after) && t in Diff(before, after, at)
    requires ListsOnly(before, ids) && ListsOnly(after, ids)
    ensures forall id | id in TransitionObservationIds(t) :: id in ids
  {
    InDiff(before, after, at, t);
    FactForMember(before.facts, t.key);
    FactForMember(after.facts, t.key);
    UnresolvedForMember(before.unresolved, t.key);
    UnresolvedForMember(after.unresolved, t.key);
    assert forall u | u in t.unresolved :: u in before.unresolved || u in after.unresolved;
    forall id | id in TransitionObservationIds(t) ensures id in ids {
      UnresolvedIdsMembers(t.unresolved, id);
      if t.before.Some? { assert Lists(before, t.before.value); }
      if t.after.Some? { assert Lists(after, t.after.value); }
      if id in UnresolvedIds(t.unresolved) {
        var u, f :| u in t.unresolved && f in u.candidates && id in f.observationIds;
        assert Lists(before, f) || Lists(after, f);
      }
    }
  }

  // ---- orders that agree ----

  lemma {:induction false} EarliestRecordedAgrees(
    ids: seq<string>, p: map<string, Observation>, q: map<string, Observation>)
    requires forall id | id in ids :: RecordedAt(p, id) == RecordedAt(q, id)
    ensures EarliestRecorded(ids, p) == EarliestRecorded(ids, q)
  {
    if ids != [] {
      EarliestRecordedAgrees(ids[..|ids| - 1], p, q);
    }
  }

  lemma SortedAgrees<T>(p: (T, T) -> bool, q: (T, T) -> bool, s: set<T>)
    requires StrictOrderOn(p, s) && forall x, y | x in s && y in s :: p(x, y) == q(x, y)
    ensures Sorted(p, s) == Sorted(q, s)
  {
    SortedIsSorted(p, s);
    SortedIsSorted(q, s);
    var r := Sorted(q, s);
    forall i, j | 0 <= i < j < |r| ensures p(r[i], r[j]) {
      assert r[i] in Elements(r) && r[j] in Elements(r);
    }
    SortedIsUnique(p, Sorted(p, s), r);
  }

  lemma SortedDiffAgrees(
    before: Material, after: Material, at: Time, ids: set<string>,
    p: map<string, Observation>, q: map<string, Observation>)
    requires CanonicalMaterial(before) && CanonicalMaterial(after)
    requires ListsOnly(before, ids) && ListsOnly(after, ids)
    requires forall id | id in ids :: RecordedAt(p, id) == RecordedAt(q, id)
    ensures Sorted(TransitionOrder(p), Elements(Diff(before, after, at)))
         == Sorted(TransitionOrder(q), Elements(Diff(before, after, at)))
  {
    var block := Diff(before, after, at);
    forall t | t in Elements(block)
      ensures EarliestRecorded(TransitionObservationIds(t), p) == EarliestRecorded(TransitionObservationIds(t), q)
    {
      IdsOfTransition(before, after, at, t, ids);
      EarliestRecordedAgrees(TransitionObservationIds(t), p, q);
    }
    DiffIsKeyed(before, after, at);
    KeyedBlockOrder(at, block, p);
    SortedAgrees(TransitionOrder(p), TransitionOrder(q), Elements(block));
  }

  lemma KeyedBlockOrder(at: Time, block: seq<Transition>, p: map<string, Observation>)
    requires KeyedBlock(at, block)
    ensures StrictOrderOn(TransitionOrder(p), Elements(block))
  {
    TransitionOrderIsStrict(p, Elements(block));
  }

  /** Dropping everything recorded after the cutoff leaves an as-of trajectory as it is. */
  lemma AsOfTrajectory(claims: set<Claim>, cutoff: Time, known: set<Claim>, start: Time, end: Time)
    requires Coherent(claims) && CanonicalClaims(claims) && start < end
    requires known == set c | c in claims && c.observation.recordedAt <= cutoff
    ensures Coherent(known)
    ensures TrajectoryOf(claims, KnownAsOf(cutoff), start, end) == TrajectoryOf(known, CurrentKnowledge, start, end)
  {
    assert Boundaries(claims, KnownAsOf(cutoff), start, end) == Boundaries(known, CurrentKnowledge, start, end);
    var bs := OrderedBoundaries(known, CurrentKnowledge, start, end);
    OrderedBoundariesIncrease(known, CurrentKnowledge, start, end);
    var cells := Cells(known, CurrentKnowledge, bs);
    CellsMakeTimeline(known, CurrentKnowledge, bs);
    forall sel { AsOfEntriesAreCurrentEntriesOfKnown(claims, cutoff, known, sel); }
    assert Cells(claims, KnownAsOf(cutoff), bs) == cells;
    forall i | 0 <= i < |bs| ensures ListsOnly(cells[i], ClaimIds(known)) {
      MaterialListsSelected(known, CurrentKnowledge, CellSelector(bs, i));
    }
    SortedDiffsAgree(bs, cells, ClaimIds(known), ObservationIndex(claims), ObservationIndex(known));
  }

  lemma SortEachAgrees<T>(p: (T, T) -> bool, q: (T, T) -> bool, blocks: seq<seq<T>>)
    requires forall i | 0 <= i < |blocks| :: Sorted(p, Elements(blocks[i])) == Sorted(q, Elements(blocks[i]))
    ensures SortEach(p, blocks) == SortEach(q, blocks)
  {
  }

  lemma SortedDiffsAgree(
    bs: seq<Time>, cells: seq<Material>, ids: set<string>, p: map<string, Observation>, q: map<string, Observation>)
    requires Timeline(bs, cells) && |bs| > 0
    requires forall i | 0 <= i < |bs| :: ListsOnly(cells[i], ids)
    requires forall id | id in ids :: RecordedAt(p, id) == RecordedAt(q, id)
    ensures SortEach(TransitionOrder(p), Diffs(bs, cells)) == SortEach(TransitionOrder(q), Diffs(bs, cells))
  {
    forall i | 0 <= i < |bs| - 1 {
      SortedDiffAgrees(cells[i], cells[i + 1], bs[i], ids, p, q);
    }
    SortEachAgrees(TransitionOrder(p), TransitionOrder(q), Diffs(bs, cells));
  }

  lemma AsOfTrajectoriesAreStable(selection: TemporalSelection, cs: seq<StateCandidate>, cutoff: Time)
    requires Accepted(cs)
    ensures TrajectoryState(selection, KnownAsOf(cutoff), cs)
         == TrajectoryState(selection, CurrentKnowledge, RecordedBy(cs, cutoff))
  {
    RecordedByClaims(cs, cutoff);
    TrajectoryIsBuiltWhenAccepted(selection, KnownAsOf(cutoff), cs);
    TrajectoryIsBuiltWhenAccepted(selection, CurrentKnowledge, RecordedBy(cs, cutoff));
    AcceptedClaimsAreCanonical(cs);
    if selection.WindowSelection? {
      AsOfTrajectory(ClaimsOf(cs), cutoff, ClaimsOf(RecordedBy(cs, cutoff)), selection.start, selection.end);
    }
  }
}
