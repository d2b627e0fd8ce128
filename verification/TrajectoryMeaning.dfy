/** What a trajectory lists: exactly the changes between the states at adjacent boundaries, each with the
    facts and the unresolved items of its key on both sides, in chronological order. */
module TrajectoryMeaning {
  import opened Results
  import opened Observations
  import opened Ordering
  import opened States
  import opened Eligibility
  import opened Claims
  import opened Materials
  import opened Aggregation
  import opened StateProperties
  import opened Transitions
  import opened Timelines
  import opened Trajectory
  import opened TrajectoryProperties
  import opened TrajectoryStability
  import opened ComparisonProperties
  import opened Causal
  import opened CausalProperties

  // ---- boundaries ----

  /** The ends of the window, and the instants and bounds inside it of what is known and not rejected. */
  ghost predicate IsBoundary(claims: set<Claim>, scope: KnowledgeScope, start: Time, end: Time, x: Time) {
    || x == start || x == end
    || exists c | c in claims ::
         && (scope.KnownAsOf? ==> c.observation.recordedAt <= scope.cutoff) && c.observation.status != Rejected
         && Marks(c.observation.validTime, start, end, x)
  }

  /** An instant or a first instant in the window, or an end in it that is not its start. */
  ghost predicate Marks(e: TemporalExtent, start: Time, end: Time, x: Time) {
    match e
    case UnknownTime => false
    case AtInstant(t) => x == t && start <= x < end
    case OverInterval(since, until) => (since == Some(x) && start <= x < end) || (until == Some(x) && start < x < end)
    case WithinWindow(earliest, latest) => (earliest == x && start <= x < end) || (latest == x && start < x < end)
  }

  lemma BoundariesAreMarked(claims: set<Claim>, scope: KnowledgeScope, start: Time, end: Time, x: Time)
    ensures x in Boundaries(claims, scope, start, end) <==> IsBoundary(claims, scope, start, end, x)
  {
    forall c: Claim
      ensures x in ExtentBoundaries(start, end, c.observation.validTime) <==> Marks(c.observation.validTime, start, end, x)
    {
    }
  }

  // ---- one change ----

  /** The transition tells how its key's fact changes from the one state to the other: which facts, and
      which unresolved items, the two states have for the key. */
  ghost predicate TellsChange(t: Transition, before: Material, after: Material) {
    && Turns(t.kind, t.before, t.after)
    && IsSide(before.facts, t.key, t.before) && IsSide(after.facts, t.key, t.after)
    && |t.unresolved| <= 1
    && forall u :: u in t.unresolved <==> u.key == t.key && (u in before.unresolved || u in after.unresolved)
  }

  /** At most one fact or item of the key, and every item with candidates. */
  ghost predicate OneEntry(m: Material, k: StateKey) {
    && (forall f, g | f in m.facts && g in m.facts && f.key == k && g.key == k :: f == g)
    && (forall u, v | u in m.unresolved && v in m.unresolved && u.key == k && v.key == k :: u == v)
    && (forall f, u | f in m.facts && u in m.unresolved :: f.key != k || u.key != k)
    && (forall u | u in m.unresolved && u.key == k :: u.candidates != [])
  }

  lemma MaterialHasOneEntry(claims: set<Claim>, scope: KnowledgeScope, sel: ValidTimeSelector, k: StateKey)
    requires CanonicalClaims(claims)
    ensures OneEntry(MaterialUnder(claims, scope, sel), k)
  {
    EntriesHaveOneEntry(Entries(claims, scope, sel), k);
  }

  lemma EntriesHaveOneEntry(entries: set<Entry>, k: StateKey)
    requires CanonicalEntries(entries)
    ensures OneEntry(MaterialOf(entries), k)
  {
    var m := MaterialOf(entries);
    forall f { FactsOfMaterial(entries, f); }
    forall u { UnresolvedOfMaterial(entries, u); }
    forall u | u in m.unresolved && u.key == k ensures u.candidates != [] {
      GroupOfListedKey(entries, k);
      CandidatesInOrder(k, WithKey(entries, k));
      GroupHasValue(WithKey(entries, k));
      SortedTermsLength(Values(WithKey(entries, k)));
    }
  }

  lemma GroupHasValue(group: set<Entry>)
    requires group != {}
    ensures Values(group) != {}
  {
    var e :| e in group;
    assert e.claim.value in Values(group);
  }

  lemma SidesOfKey(m: Material, k: StateKey, side: Option<Fact>)
    requires OneEntry(m, k)
    ensures IsSide(m.facts, k, side) <==> FactFor(m.facts, k) == side
  {
    FactForMember(m.facts, k);
  }

  lemma ItemsOfKey(m: Material, k: StateKey, u: UnresolvedFact)
    requires OneEntry(m, k)
    ensures u in WithCandidates(UnresolvedFor(m.unresolved, k)) <==> u in m.unresolved && u.key == k
    ensures |WithCandidates(UnresolvedFor(m.unresolved, k))| <= 1
    ensures (exists f :: f in m.facts && f.key == k) ==> WithCandidates(UnresolvedFor(m.unresolved, k)) == []
  {
    UnresolvedForMember(m.unresolved, k);
  }

  /** Of a key that gains, changes or loses its fact at most one side has an unresolved item. */
  lemma CarriedItems(before: Material, after: Material, k: StateKey, kind: ChangeKind, us: seq<UnresolvedFact>)
    requires OneEntry(before, k) && OneEntry(after, k)
    requires Turns(kind, FactFor(before.facts, k), FactFor(after.facts, k))
    ensures us == TrajectoryUnresolved(UnresolvedFor(before.unresolved, k), UnresolvedFor(after.unresolved, k)) <==>
      |us| <= 1 && forall u :: u in us <==> u.key == k && (u in before.unresolved || u in after.unresolved)
  {
    var p := WithCandidates(UnresolvedFor(before.unresolved, k));
    var q := WithCandidates(UnresolvedFor(after.unresolved, k));
    FactForMember(before.facts, k);
    FactForMember(after.facts, k);
    forall u
      ensures u in p <==> u in before.unresolved && u.key == k
      ensures u in q <==> u in after.unresolved && u.key == k
    {
      ItemsOfKey(before, k, u);
      ItemsOfKey(after, k, u);
    }
    SidesOfItems(before, after, k);
    assert p == [] || q == [];
    SameShortList(p + q, us);
  }

  lemma SidesOfItems(before: Material, after: Material, k: StateKey)
    requires OneEntry(before, k) && OneEntry(after, k)
    ensures |WithCandidates(UnresolvedFor(before.unresolved, k))| <= 1 && |WithCandidates(UnresolvedFor(after.unresolved, k))| <= 1
    ensures FactFor(before.facts, k).Some? ==> WithCandidates(UnresolvedFor(before.unresolved, k)) == []
    ensures FactFor(after.facts, k).Some? ==> WithCandidates(UnresolvedFor(after.unresolved, k)) == []
  {
    FactForMember(before.facts, k);
    FactForMember(after.facts, k);
    UnresolvedForMember(before.unresolved, k);
    UnresolvedForMember(after.unresolved, k);
  }

  /** A list of at most one item is known by its members. */
  lemma SameShortList<T>(p: seq<T>, q: seq<T>)
    requires |p| <= 1
    ensures p == q <==> |q| <= 1 && forall x :: x in q <==> x in p
  {
    if |q| <= 1 && forall x :: x in q <==> x in p {
      assert p != [] ==> p[0] in p;
      assert q != [] ==> q[0] in q;
    }
  }

  lemma DiffTellsChanges(before: Material, after: Material, at: Time, t: Transition)
    requires CanonicalMaterial(before) && CanonicalMaterial(after) && OneEntry(before, t.key) && OneEntry(after, t.key)
    ensures t in Diff(before, after, at) <==> t.at == at && TellsChange(t, before, after)
  {
    var (p, q) := (FactFor(before.facts, t.key), FactFor(after.facts, t.key));
    InDiff(before, after, at, t);
    SidesOfKey(before, t.key, t.before);
    SidesOfKey(after, t.key, t.after);
    FactForMember(before.facts, t.key);
    FactForMember(after.facts, t.key);
    forall kind { KindIsTurn(p, q, kind); }
    if Turns(t.kind, p, q) {
      CarriedItems(before, after, t.key, t.kind, t.unresolved);
    }
    OneTransition(before, after, at, t);
  }

  lemma OneTransition(before: Material, after: Material, at: Time, t: Transition)
    ensures KeyTransition(before, after, at, t.key) == [t] <==>
      && KindOfChange(FactFor(before.facts, t.key), FactFor(after.facts, t.key)) == Some(t.kind) && t.at == at
      && t.before == FactFor(before.facts, t.key) && t.after == FactFor(after.facts, t.key)
      && t.unresolved == TrajectoryUnresolved(UnresolvedFor(before.unresolved, t.key), UnresolvedFor(after.unresolved, t.key))
  {
  }

  // ---- the whole ----

  /** The state just before the i-th boundary, in the sense of the trajectory: the left limit of the
      window, then the state reconstructed at the boundary before. */
  ghost function StateUntil(claims: set<Claim>, scope: KnowledgeScope, bs: seq<Time>, i: nat): Material
    requires i < |bs|
  {
    MaterialUnder(claims, scope, if i == 0 then JustBefore(bs[0]) else AtPoint(bs[i - 1]))
  }

  lemma CellIsStateUntil(claims: set<Claim>, scope: KnowledgeScope, start: Time, end: Time, i: nat)
    requires start < end && i < |OrderedBoundaries(claims, scope, start, end)|
    ensures var bs := OrderedBoundaries(claims, scope, start, end);
      Cells(claims, scope, bs)[i] == StateUntil(claims, scope, bs, i)
  {
    var bs := OrderedBoundaries(claims, scope, start, end);
    CellAt(claims, scope, bs, i);
    if i > 0 {
      NeighboursAreAdjacent(claims, scope, start, end, i);
      CellIsPoint(claims, scope, start, end, bs[i - 1], bs[i], bs[i - 1]);
    }
  }

  ghost predicate ChangesAt(claims: set<Claim>, scope: KnowledgeScope, bs: seq<Time>, i: int, t: Transition) {
    && 0 <= i < |bs| - 1 && t.at == bs[i]
    && TellsChange(t, StateUntil(claims, scope, bs, i), MaterialUnder(claims, scope, AtPoint(bs[i])))
  }

  /** The trajectory lists exactly the changes at the boundaries before the end of the window, each from
      the state until that boundary to the state at it. */
  lemma TrajectoryListsChanges(claims: set<Claim>, scope: KnowledgeScope, start: Time, end: Time, t: Transition)
    requires Coherent(claims) && CanonicalClaims(claims) && start < end
    ensures t in TrajectoryOf(claims, scope, start, end) <==>
      exists i :: ChangesAt(claims, scope, OrderedBoundaries(claims, scope, start, end), i, t)
  {
    var bs := OrderedBoundaries(claims, scope, start, end);
    OrderedBoundariesIncrease(claims, scope, start, end);
    CellsMakeTimeline(claims, scope, bs);
    InBlocks(bs, Cells(claims, scope, bs), ObservationIndex(claims), t);
    forall i: nat | i < |bs| - 1
      ensures t in Diffs(bs, Cells(claims, scope, bs))[i] <==> ChangesAt(claims, scope, bs, i, t)
    {
      ChangesOfCell(claims, scope, start, end, i, t);
    }
  }

  lemma ChangesOfCell(claims: set<Claim>, scope: KnowledgeScope, start: Time, end: Time, i: nat, t: Transition)
    requires CanonicalClaims(claims) && start < end && i < |OrderedBoundaries(claims, scope, start, end)| - 1
    ensures var bs := OrderedBoundaries(claims, scope, start, end);
      t in Diffs(bs, Cells(claims, scope, bs))[i] <==> ChangesAt(claims, scope, bs, i, t)
  {
    var bs := OrderedBoundaries(claims, scope, start, end);
    CellIsStateUntil(claims, scope, start, end, i);
    CellIsStateUntil(claims, scope, start, end, i + 1);
    BlockAt(bs, Cells(claims, scope, bs), i);
    ChangesOfStates(claims, scope, bs, i, t);
  }

  lemma ChangesOfStates(claims: set<Claim>, scope: KnowledgeScope, bs: seq<Time>, i: nat, t: Transition)
    requires CanonicalClaims(claims) && i < |bs| - 1
    ensures t in Diff(StateUntil(claims, scope, bs, i), StateUntil(claims, scope, bs, i + 1), bs[i]) <==>
      ChangesAt(claims, scope, bs, i, t)
  {
    var sel := if i == 0 then JustBefore(bs[0]) else AtPoint(bs[i - 1]);
    ChangesBetween(claims, scope, sel, AtPoint(bs[i]), bs[i], t);
  }

  lemma ChangesBetween(
    claims: set<Claim>, scope: KnowledgeScope, p: ValidTimeSelector, q: ValidTimeSelector, at: Time, t: Transition)
    requires CanonicalClaims(claims)
    ensures t in Diff(MaterialUnder(claims, scope, p), MaterialUnder(claims, scope, q), at) <==>
      t.at == at && TellsChange(t, MaterialUnder(claims, scope, p), MaterialUnder(claims, scope, q))
  {
    MaterialIsCanonical(claims, scope, p);
    MaterialIsCanonical(claims, scope, q);
    MaterialHasOneEntry(claims, scope, p, t.key);
    MaterialHasOneEntry(claims, scope, q, t.key);
    DiffTellsChanges(MaterialUnder(claims, scope, p), MaterialUnder(claims, scope, q), at, t);
  }

  lemma InBlocks(bs: seq<Time>, cells: seq<Material>, observations: map<string, Observation>, t: Transition)
    requires Timeline(bs, cells) && |bs| > 0
    ensures t in Flatten(SortEach(TransitionOrder(observations), Diffs(bs, cells))) <==>
      exists i: nat :: i < |bs| - 1 && t in Diffs(bs, cells)[i]
  {
    var blocks := Diffs(bs, cells);
    DiffsAreKeyed(bs, cells);
    BlocksAreSorted(bs, blocks, observations);
    SameElementsSameMembers(Flatten(SortEach(TransitionOrder(observations), blocks)), Flatten(blocks), t);
    InFlatten(blocks, t);
  }

  // ---- order ----

  /** The transition lists the observation in one of its facts or in a candidate of an item it carries. */
  ghost predicate ListsObservation(t: Transition, id: string) {
    || (t.before.Some? && id in t.before.value.observationIds)
    || (t.after.Some? && id in t.after.value.observationIds)
    || exists u, f | u in t.unresolved && f in u.candidates :: id in f.observationIds
  }

  ghost function ClaimsListed(claims: set<Claim>, t: Transition): set<Claim> {
    set c | c in claims && ListsObservation(t, c.observation.id)
  }

  /** By time, then by the earliest recorded time and by the first ID of the observations listed, then by key. */
  ghost predicate PrecedesIn(claims: set<Claim>, s: Transition, t: Transition) {
    var (p, q) := (ClaimsListed(claims, s), ClaimsListed(claims, t));
    var (r, x) := (LeastTime(Recordings(p)), LeastTime(Recordings(q)));
    var (i, j) := (LeastId(ClaimIds(p)), LeastId(ClaimIds(q)));
    && p != {} && q != {}
    && (s.at < t.at || (s.at == t.at &&
         (r < x || (r == x &&
           (StringLess(i, j) || (i == j && KeyLess(s.key, t.key)))))))
  }

  lemma {:induction false} IdsOfCandidates(fs: seq<Fact>, id: string)
    ensures id in CandidateIds(fs) <==> exists f :: f in fs && id in f.observationIds
  {
    if fs != [] {
      IdsOfCandidates(fs[1..], id);
      assert fs == [fs[0]] + fs[1..];
    }
  }

  lemma {:induction false} IdsOfItems(us: seq<UnresolvedFact>, id: string)
    ensures id in UnresolvedIds(us) <==> exists u, f | u in us && f in u.candidates :: id in f.observationIds
  {
    if us != [] {
      IdsOfItems(us[1..], id);
      IdsOfCandidates(us[0].candidates, id);
      assert us == [us[0]] + us[1..];
    }
  }

  lemma IdsListed(t: Transition, id: string)
    ensures id in TransitionObservationIds(t) <==> ListsObservation(t, id)
  {
    IdsOfItems(t.unresolved, id);
  }

  /** The first loop of the tie finds the least recorded time of the listed observations. */
  lemma {:induction false} EarliestIsLeast(ids: seq<string>, observations: map<string, Observation>)
    requires ids != [] && forall id | id in ids :: RecordedAt(observations, id) != ZERO_TIME
    ensures var r := EarliestRecorded(ids, observations);
      && r != ZERO_TIME && (exists id | id in ids :: RecordedAt(observations, id) == r)
      && forall id | id in ids :: r <= RecordedAt(observations, id)
  {
    var n := |ids| - 1;
    assert ids == ids[..n] + [ids[n]];
    if n > 0 {
      EarliestIsLeast(ids[..n], observations);
    } else {
      assert ids[..n] == [];
    }
  }

  /** The second loop finds their first ID. */
  lemma {:induction false} FirstIsLeast(ids: seq<string>)
    requires ids != [] && "" !in ids
    ensures FirstId(ids) in ids && forall id | id in ids :: id == FirstId(ids) || StringLess(FirstId(ids), id)
  {
    var n := |ids| - 1;
    var last := ids[n];
    assert ids == ids[..n] + [last];
    if n > 0 {
      FirstIsLeast(ids[..n]);
      var first := FirstId(ids[..n]);
      CompareStringsIsAntisymmetric(first, last);
      forall id | id in ids[..n] && id != first && StringLess(last, first) ensures StringLess(last, id) {
        CompareStringsIsTransitive(last, first, id);
      }
    } else {
      assert ids[..n] == [];
    }
  }

  lemma TieOfListed(claims: set<Claim>, t: Transition)
    requires Coherent(claims) && CanonicalObservations(claims)
    requires TransitionObservationIds(t) != [] && forall id | id in TransitionObservationIds(t) :: id in ClaimIds(claims)
    ensures ClaimsListed(claims, t) != {}
    ensures EarliestRecorded(TransitionObservationIds(t), ObservationIndex(claims)) == LeastTime(Recordings(ClaimsListed(claims, t)))
    ensures FirstId(TransitionObservationIds(t)) == LeastId(ClaimIds(ClaimsListed(claims, t)))
  {
    var ids, index, part := TransitionObservationIds(t), ObservationIndex(claims), ClaimsListed(claims, t);
    forall id ensures id in ids <==> ListsObservation(t, id) { IdsListed(t, id); }
    forall c | c in claims ensures RecordedAt(index, c.observation.id) == c.observation.recordedAt {
    }
    ListedTies(claims, part, ids, index);
  }

  lemma ListedTies(claims: set<Claim>, part: set<Claim>, ids: seq<string>, index: map<string, Observation>)
    requires part == set c | c in claims && c.observation.id in ids
    requires ids != [] && forall id | id in ids :: id in ClaimIds(claims)
    requires forall c | c in claims :: Canonical(c.observation) && RecordedAt(index, c.observation.id) == c.observation.recordedAt
    ensures part != {}
    ensures EarliestRecorded(ids, index) == LeastTime(Recordings(part))
    ensures FirstId(ids) == LeastId(ClaimIds(part))
  {
    forall id | id in ids ensures exists c | c in part :: c.observation.id == id && id != "" {
      var c :| c in claims && c.observation.id == id;
      assert c in part;
    }
    EarliestIsLeast(ids, index);
    FirstIsLeast(ids);
    var r := EarliestRecorded(ids, index);
    var id :| id in ids && RecordedAt(index, id) == r;
    var c :| c in part && c.observation.id == id;
    assert r in Recordings(part);
    LeastTimeIsUnique(Recordings(part), r);
    var d :| d in part && d.observation.id == FirstId(ids);
    assert FirstId(ids) in ClaimIds(part);
    LeastIdIsUnique(ClaimIds(part), FirstId(ids));
    assert ids[0] in ids;
  }

  lemma ChangeListsClaims(claims: set<Claim>, scope: KnowledgeScope, bs: seq<Time>, i: int, t: Transition)
    requires Coherent(claims) && CanonicalClaims(claims)
    ensures ChangesAt(claims, scope, bs, i, t) ==>
      TransitionObservationIds(t) != [] && forall id | id in TransitionObservationIds(t) :: id in ClaimIds(claims)
  {
    if ChangesAt(claims, scope, bs, i, t) {
      var sel := if i == 0 then JustBefore(bs[0]) else AtPoint(bs[i - 1]);
      SidesListClaims(claims, scope, sel, AtPoint(bs[i]), t);
    }
  }

  lemma SidesListClaims(claims: set<Claim>, scope: KnowledgeScope, p: ValidTimeSelector, q: ValidTimeSelector, t: Transition)
    requires Coherent(claims) && CanonicalClaims(claims)
    ensures TellsChange(t, MaterialUnder(claims, scope, p), MaterialUnder(claims, scope, q)) ==>
      TransitionObservationIds(t) != [] && forall id | id in TransitionObservationIds(t) :: id in ClaimIds(claims)
  {
    MaterialListsSelected(claims, scope, p);
    MaterialListsSelected(claims, scope, q);
    EvidenceIsExact(claims, scope, p);
    EvidenceIsExact(claims, scope, q);
    TransitionListsClaims(t, MaterialUnder(claims, scope, p), MaterialUnder(claims, scope, q), ClaimIds(claims));
  }

  lemma TransitionListsClaims(t: Transition, before: Material, after: Material, ids: set<string>)
    requires ListsOnly(before, ids) && ListsOnly(after, ids)
    requires forall f | Lists(before, f) || Lists(after, f) :: f.observationIds != []
    ensures TellsChange(t, before, after) ==>
      TransitionObservationIds(t) != [] && forall id | id in TransitionObservationIds(t) :: id in ids
  {
    if TellsChange(t, before, after) {
      if t.before.Some? {
        assert Lists(before, t.before.value);
      } else {
        assert Lists(after, t.after.value);
      }
      forall id | id in TransitionObservationIds(t) ensures id in ids {
        IdsListed(t, id);
        if t.before.Some? { assert Lists(before, t.before.value); }
        if t.after.Some? { assert Lists(after, t.after.value); }
        if u, f :| u in t.unresolved && f in u.candidates && id in f.observationIds {
          assert Lists(before, f) || Lists(after, f);
        }
      }
    }
  }

  lemma TrajectoryIsSorted(claims: set<Claim>, scope: KnowledgeScope, start: Time, end: Time)
    requires Coherent(claims) && CanonicalClaims(claims) && start < end
    ensures var ts := TrajectoryOf(claims, scope, start, end);
      && StrictlySorted(TransitionOrder(ObservationIndex(claims)), ts)
      && StrictOrderOn(TransitionOrder(ObservationIndex(claims)), Elements(ts)) && KeyedTransitions(Elements(ts))
  {
    var bs := OrderedBoundaries(claims, scope, start, end);
    OrderedBoundariesIncrease(claims, scope, start, end);
    CellsMakeTimeline(claims, scope, bs);
    BlocksSort(bs, Cells(claims, scope, bs), ObservationIndex(claims));
  }

  lemma BlocksSort(bs: seq<Time>, cells: seq<Material>, observations: map<string, Observation>)
    requires Timeline(bs, cells) && |bs| > 0
    ensures var ts := Flatten(SortEach(TransitionOrder(observations), Diffs(bs, cells)));
      && StrictlySorted(TransitionOrder(observations), ts)
      && StrictOrderOn(TransitionOrder(observations), Elements(ts)) && KeyedTransitions(Elements(ts))
  {
    DiffsAreKeyed(bs, cells);
    BlocksAreSorted(bs, Diffs(bs, cells), observations);
    SortedFlatten(bs, Diffs(bs, cells), observations);
    FlattenIsKeyed(bs, Diffs(bs, cells));
  }

  lemma TiesDecide(s: Transition, t: Transition, r: Time, x: Time, i: string, j: string)
    requires CanonicalKey(s.key) && CanonicalKey(t.key) && (s.at == t.at && s.key == t.key ==> s == t)
    ensures TiedBefore(s, t, r, x, i, j) ==>
      s.at < t.at || (s.at == t.at && (r < x || (r == x && (StringLess(i, j) || (i == j && KeyLess(s.key, t.key))))))
  {
    CompareStateKeysIsOrder(s.key, t.key, s.key);
  }

  /** Of two changes that the trajectory lists, the earlier one comes first; at one boundary the one whose
      listed observations were recorded first, then the one with the first ID among them, then by key. */
  lemma TrajectoryIsChronological(claims: set<Claim>, scope: KnowledgeScope, start: Time, end: Time)
    requires Coherent(claims) && CanonicalClaims(claims) && CanonicalObservations(claims) && start < end
    ensures var ts := TrajectoryOf(claims, scope, start, end);
      forall i, j | 0 <= i < j < |ts| :: PrecedesIn(claims, ts[i], ts[j])
  {
    var ts := TrajectoryOf(claims, scope, start, end);
    TrajectoryIsSorted(claims, scope, start, end);
    forall t | t in ts
      ensures t in Elements(ts)
      ensures TransitionObservationIds(t) != [] && forall id | id in TransitionObservationIds(t) :: id in ClaimIds(claims)
    {
      TrajectoryListsChanges(claims, scope, start, end, t);
      var i :| ChangesAt(claims, scope, OrderedBoundaries(claims, scope, start, end), i, t);
      ChangeListsClaims(claims, scope, OrderedBoundaries(claims, scope, start, end), i, t);
    }
    SortedIsChronological(claims, ts);
  }

  lemma SortedIsChronological(claims: set<Claim>, ts: seq<Transition>)
    requires Coherent(claims) && CanonicalObservations(claims)
    requires StrictlySorted(TransitionOrder(ObservationIndex(claims)), ts) && KeyedTransitions(Elements(ts))
    requires forall t | t in ts ::
      t in Elements(ts) && TransitionObservationIds(t) != [] && forall id | id in TransitionObservationIds(t) :: id in ClaimIds(claims)
    ensures forall i, j | 0 <= i < j < |ts| :: PrecedesIn(claims, ts[i], ts[j])
  {
    var index := ObservationIndex(claims);
    forall i, j | 0 <= i < j < |ts| ensures PrecedesIn(claims, ts[i], ts[j]) {
      var s, t := ts[i], ts[j];
      assert TransitionOrder(index)(s, t);
      assert s in ts && t in ts;
      TieOfListed(claims, s);
      TieOfListed(claims, t);
      TiesDecide(s, t, EarliestRecorded(TransitionObservationIds(s), index), EarliestRecorded(TransitionObservationIds(t), index),
                 FirstId(TransitionObservationIds(s)), FirstId(TransitionObservationIds(t)));
    }
  }

  // ---- trajectories that are built ----

  lemma BoundariesInOrder(claims: set<Claim>, scope: KnowledgeScope, start: Time, end: Time)
    requires start < end
    ensures var bs := OrderedBoundaries(claims, scope, start, end);
      Increasing(bs) && forall x :: x in bs <==> IsBoundary(claims, scope, start, end, x)
  {
    var bs := OrderedBoundaries(claims, scope, start, end);
    OrderedBoundariesIncrease(claims, scope, start, end);
    forall x ensures x in bs <==> IsBoundary(claims, scope, start, end, x) {
      assert x in bs <==> x in Elements(bs);
      BoundariesAreMarked(claims, scope, start, end, x);
    }
  }

  /** The boundaries of a window and the changes at them, all of them and nothing else. */
  ghost predicate ListsAllChanges(ts: seq<Transition>, claims: set<Claim>, scope: KnowledgeScope, start: Time, end: Time) {
    var bs := OrderedBoundaries(claims, scope, start, end);
    && Increasing(bs) && (forall x :: x in bs <==> IsBoundary(claims, scope, start, end, x))
    && forall t: Transition :: t in ts <==> exists i :: ChangesAt(claims, scope, bs, i, t)
  }

  lemma TrajectoryListsAllChanges(claims: set<Claim>, scope: KnowledgeScope, start: Time, end: Time)
    requires Coherent(claims) && CanonicalClaims(claims) && start < end
    ensures ListsAllChanges(TrajectoryOf(claims, scope, start, end), claims, scope, start, end)
  {
    BoundariesInOrder(claims, scope, start, end);
    forall t: Transition { TrajectoryListsChanges(claims, scope, start, end, t); }
  }

  lemma TrajectoryOfAccepted(selection: TemporalSelection, scope: KnowledgeScope, cs: seq<StateCandidate>)
    requires selection.WindowSelection? && Accepted(cs)
    ensures Coherent(ClaimsOf(cs)) && CanonicalClaims(ClaimsOf(cs))
    ensures TrajectoryState(selection, scope, cs) == Ok(TrajectoryOf(ClaimsOf(cs), scope, selection.start, selection.end))
  {
    TrajectoryIsBuiltWhenAccepted(selection, scope, cs);
    AcceptedIsErrorFree(cs);
    AcceptedClaimsAreCanonical(cs);
  }

  /** The trajectory of accepted candidates lists exactly the changes at the boundaries of its window. */
  lemma BuiltTrajectoryListsChanges(selection: TemporalSelection, scope: KnowledgeScope, cs: seq<StateCandidate>)
    requires selection.WindowSelection? && Accepted(cs)
    ensures TrajectoryState(selection, scope, cs).Ok?
    ensures ListsAllChanges(TrajectoryState(selection, scope, cs).value, ClaimsOf(cs), scope, selection.start, selection.end)
  {
    TrajectoryOfAccepted(selection, scope, cs);
    TrajectoryListsAllChanges(ClaimsOf(cs), scope, selection.start, selection.end);
  }

  /** Over constructed observations it lists them in chronological order. */
  lemma BuiltTrajectoryIsChronological(selection: TemporalSelection, scope: KnowledgeScope, cs: seq<StateCandidate>)
    requires selection.WindowSelection? && Accepted(cs) && CanonicalObservations(ClaimsOf(cs))
    ensures TrajectoryState(selection, scope, cs).Ok?
    ensures var ts := TrajectoryState(selection, scope, cs).value;
      forall i, j | 0 <= i < j < |ts| :: PrecedesIn(ClaimsOf(cs), ts[i], ts[j])
  {
    TrajectoryOfAccepted(selection, scope, cs);
    TrajectoryIsChronological(ClaimsOf(cs), scope, selection.start, selection.end);
  }

  // ---- candidates that are rejected ----

  /** Every candidate fits its observation, and each ID stands for one observation. */
  ghost predicate PayloadsAgree(cs: seq<StateCandidate>) {
    && (forall c | c in cs :: CandidateMatches(c))
    && (forall c, d | c in cs && d in cs && c.observation.id == d.observation.id :: c.observation == d.observation)
  }

  lemma {:induction false} PayloadErrorIsExact(cs: seq<StateCandidate>)
    ensures PayloadError(cs).None? <==> PayloadsAgree(cs)
  {
    if cs != [] {
      PayloadErrorIsExact(cs[..|cs| - 1]);
      assert cs == cs[..|cs| - 1] + [cs[|cs| - 1]];
    }
  }

  /** A trajectory reports the first candidate whose match or payload is wrong before anything else that
      aggregation would reject. */
  lemma TrajectoryErrorNamesCulprit(selection: TemporalSelection, scope: KnowledgeScope, cs: seq<StateCandidate>, i: nat)
    requires selection.WindowSelection? && i < |cs| && PayloadsAgree(cs[..i]) && !PayloadsAgree(cs[..i + 1])
    ensures TrajectoryState(selection, scope, cs) ==
      Err(RejectedCandidates(if CandidateMatches(cs[i]) then ConflictingPayload else InvalidCandidate))
  {
    PayloadErrorIsExact(cs[..i]);
    PayloadErrorIsExact(cs[..i + 1]);
    PayloadErrorOfPrefix(cs, i);
    PayloadErrorPersists(cs, i + 1);
  }

  /** Where payloads agree it reports what aggregation reports. */
  lemma TrajectoryErrorIsAggregationError(selection: TemporalSelection, scope: KnowledgeScope, cs: seq<StateCandidate>)
    requires selection.WindowSelection? && PayloadsAgree(cs) && !Accepted(cs)
    ensures TrajectoryState(selection, scope, cs).Err? && WindowState(selection, scope, cs).Err?
    ensures TrajectoryState(selection, scope, cs).error == WindowState(selection, scope, cs).error
  {
    PayloadErrorIsExact(cs);
    AcceptedIsErrorFree(cs);
  }
}
