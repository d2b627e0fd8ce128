/** What a trajectory says: replaying it reconstructs the state at every boundary, and between
    boundaries exactly where the instants on the last boundary are harmless. */
module TrajectoryProperties {
  import opened Results
  import opened Observations
  import opened Ordering
  import opened States
  import opened Eligibility
  import opened Claims
  import opened Materials
  import opened Aggregation
  import opened StateProperties
  import opened Transitions
  import opened Timelines
  import opened Replay
  import opened Trajectory

  // ---- cells and points ----

  /** Some drawn observation is an instant at `b`. */
  ghost predicate InstantAt(claims: set<Claim>, scope: KnowledgeScope, b: Time) {
    exists c | c in claims :: Drawn(scope, c.observation) && c.observation.validTime == AtInstant(b)
  }

  /** `b` is a boundary and the next boundary is `next`. */
  ghost predicate AdjacentBoundaries(
    claims: set<Claim>, scope: KnowledgeScope, start: Time, end: Time, b: Time, next: Time)
  {
    var all := Boundaries(claims, scope, start, end);
    b in all && next in all && b < next && forall x | x in all :: !(b < x < next)
  }

  lemma CellOfClaim(
    claims: set<Claim>, scope: KnowledgeScope, start: Time, end: Time, b: Time, next: Time, t: Time, c: Claim)
    requires start < end && AdjacentBoundaries(claims, scope, start, end, b, next) && b <= t < next
    requires c in claims && Drawn(scope, c.observation)
    ensures WindowEligibility(b, next, c.observation.validTime) == PointEligibility(b, c.observation.validTime)
    ensures t == b || c.observation.validTime != AtInstant(b) ==>
      PointEligibility(t, c.observation.validTime) == PointEligibility(b, c.observation.validTime)
  {
    BoundariesInWindow(claims, scope, start, end);
    var e := c.observation.validTime;
    forall x | x in ExtentBoundaries(start, end, e) ensures !(b < x < next) {
      assert x in Boundaries(claims, scope, start, end);
    }
    CellRefinesPoint(start, end, b, next, t, e);
    if e.AtInstant? && e.instant == t {
      assert e.instant in ExtentBoundaries(start, end, e);
    }
  }

  /** Aggregating a cell of the partition is reconstructing the state at its first instant, facts
      and unresolved items alike; and at each of its instants unless an instant observation sits on
      its first one. */
  lemma CellIsPoint(
    claims: set<Claim>, scope: KnowledgeScope, start: Time, end: Time, b: Time, next: Time, t: Time)
    requires start < end && AdjacentBoundaries(claims, scope, start, end, b, next) && b <= t < next
    ensures MaterialUnder(claims, scope, InWindow(b, next)) == MaterialUnder(claims, scope, AtPoint(b))
    ensures (t == b || !InstantAt(claims, scope, b)) ==>
      MaterialUnder(claims, scope, AtPoint(t)) == MaterialUnder(claims, scope, AtPoint(b))
  {
    forall c | c in claims && Drawn(scope, c.observation)
      ensures WindowEligibility(b, next, c.observation.validTime) == PointEligibility(b, c.observation.validTime)
      ensures (t == b || !InstantAt(claims, scope, b)) ==>
        PointEligibility(t, c.observation.validTime) == PointEligibility(b, c.observation.validTime)
    {
      CellOfClaim(claims, scope, start, end, b, next, t, c);
    }
    SameEligibilitySameEntries(claims, scope, InWindow(b, next), AtPoint(b));
    if t == b || !InstantAt(claims, scope, b) {
      SameEligibilitySameEntries(claims, scope, AtPoint(t), AtPoint(b));
    }
  }

  lemma SameEligibilitySameEntries(claims: set<Claim>, scope: KnowledgeScope, p: ValidTimeSelector, q: ValidTimeSelector)
    requires forall c | c in claims && Drawn(scope, c.observation) ::
      Select(p, c.observation.validTime) == Select(q, c.observation.validTime)
    ensures Entries(claims, scope, p) == Entries(claims, scope, q)
  {
  }

  ghost function NonInstants(claims: set<Claim>): set<Claim> {
    set c | c in claims && !c.observation.validTime.AtInstant?
  }

  /** The state before a trajectory is the state one microsecond before its window, instant
      observations left aside. */
  lemma LeftLimitState(claims: set<Claim>, scope: KnowledgeScope, boundary: Time)
    ensures MaterialUnder(claims, scope, JustBefore(boundary))
         == MaterialUnder(NonInstants(claims), scope, AtPoint(boundary - 1))
  {
    forall c | c in claims {
      LeftLimitIsPreviousInstant(boundary, c.observation.validTime);
    }
    EntriesOfPart(claims, NonInstants(claims), scope, JustBefore(boundary), AtPoint(boundary - 1));
  }

  lemma EntriesOfPart(
    claims: set<Claim>, part: set<Claim>, scope: KnowledgeScope, p: ValidTimeSelector, q: ValidTimeSelector)
    requires part <= claims
    requires forall c | c in claims ::
      Select(p, c.observation.validTime) == (if c in part then Select(q, c.observation.validTime) else Excluded)
    ensures Entries(claims, scope, p) == Entries(part, scope, q)
  {
  }

  // ---- instants on a boundary ----

  /** The entries of a key that an instant on the boundary contributes there. */
  ghost function InstantsAt(claims: set<Claim>, scope: KnowledgeScope, b: Time, k: StateKey): set<Entry> {
    set e | e in GroupAt(claims, scope, AtPoint(b), k) && e.claim.observation.validTime == AtInstant(b)
  }

  /** Everything selected at the first instant of a cell is selected, with the same weight, at each of
      its instants, except the instants on the boundary. */
  lemma CellForgetsItsInstants(
    claims: set<Claim>, scope: KnowledgeScope, start: Time, end: Time, b: Time, next: Time, t: Time, k: StateKey)
    requires start < end && AdjacentBoundaries(claims, scope, start, end, b, next) && b <= t < next
    ensures GroupAt(claims, scope, AtPoint(b), k) == GroupAt(claims, scope, AtPoint(t), k) + InstantsAt(claims, scope, b, k)
  {
    forall c | c in claims && Drawn(scope, c.observation)
      ensures t == b || c.observation.validTime != AtInstant(b) ==>
        PointEligibility(t, c.observation.validTime) == PointEligibility(b, c.observation.validTime)
    {
      CellOfClaim(claims, scope, start, end, b, next, t, c);
    }
  }

  /** Leaving the instants out changes nothing about what the group resolves to: where it resolves
      without them they all name its value and none is counterevidence only, and where it does not, no
      supporting instant has all the rest on its side. */
  ghost predicate Harmless(group: set<Entry>, instants: set<Entry>) {
    if Resolved(group) then
      forall i | i in instants :: i.claim.value == ResolvedValue(group) && !i.role.CounterOnly?
    else
      forall i | i in instants && i.role.Supported? ::
        exists e | e in group + instants :: e.claim.value != i.claim.value || e.role.CounterOnly?
  }

  ghost predicate SameResolution(p: set<Entry>, q: set<Entry>) {
    forall v :: ResolvesTo(p, v) <==> ResolvesTo(q, v)
  }

  lemma HarmlessIsExact(group: set<Entry>, instants: set<Entry>)
    ensures Harmless(group, instants) <==> SameResolution(group + instants, group)
  {
    var all := group + instants;
    if Resolved(group) {
      var v := ResolvedValue(group);
      assert forall u | ResolvesTo(group, u) :: u == v;
      assert Harmless(group, instants) <==> ResolvesTo(all, v);
    } else {
      forall v ensures !ResolvesTo(group, v) {
        assert ResolvesTo(group, v) ==> v in Values(group);
      }
      if v :| ResolvesTo(all, v) {
        var i :| i in all && i.role.Supported?;
        assert i in group ==> ResolvesTo(group, v);
      }
      forall i | i in instants && i.role.Supported? && forall e | e in all :: e.claim.value == i.claim.value && !e.role.CounterOnly?
        ensures ResolvesTo(all, i.claim.value)
      {
        assert i in all;
      }
    }
  }

  /** A key has a value in a state exactly when its group resolves to it. */
  lemma StateOfEntries(entries: set<Entry>, k: StateKey, v: Term)
    requires CanonicalEntries(entries)
    ensures Lookup(StateOf(MaterialOf(entries)), k) == Some(v) <==> ResolvesTo(WithKey(entries, k), v)
  {
    var m, group := MaterialOf(entries), WithKey(entries, k);
    StateOfFacts(m, k);
    FactForMember(m.facts, k);
    if FactFor(m.facts, k).Some? {
      FactsOfMaterial(entries, FactFor(m.facts, k).value);
    }
    if ResolvesTo(group, v) {
      var e :| e in group && e.role.Supported?;
      assert e in entries && v in Values(group) && k in Keys(entries);
      FactsOfMaterial(entries, ResolvedFact(k, group));
    }
  }

  lemma SameStates(p: set<Entry>, q: set<Entry>)
    requires CanonicalEntries(p) && CanonicalEntries(q)
    ensures StateOf(MaterialOf(p)) == StateOf(MaterialOf(q)) <==> forall k :: SameResolution(WithKey(p, k), WithKey(q, k))
  {
    var s, t := StateOf(MaterialOf(p)), StateOf(MaterialOf(q));
    if s == t {
      forall k, v ensures ResolvesTo(WithKey(p, k), v) <==> ResolvesTo(WithKey(q, k), v) {
        StateOfEntries(p, k, v);
        StateOfEntries(q, k, v);
      }
    }
    if forall k :: SameResolution(WithKey(p, k), WithKey(q, k)) {
      forall k, v ensures Lookup(s, k) == Some(v) <==> Lookup(t, k) == Some(v) {
        assert SameResolution(WithKey(p, k), WithKey(q, k));
        StateOfEntries(p, k, v);
        StateOfEntries(q, k, v);
      }
      SameMaps(s, t);
    }
  }

  lemma SameMaps(s: StateMap, t: StateMap)
    requires forall k, v :: Lookup(s, k) == Some(v) <==> Lookup(t, k) == Some(v)
    ensures s == t
  {
    forall k ensures k in s <==> k in t {
      assert k in s ==> Lookup(s, k) == Some(s[k]);
      assert k in t ==> Lookup(t, k) == Some(t[k]);
    }
    forall k | k in s ensures s[k] == t[k] {
      assert Lookup(s, k) == Some(s[k]);
    }
  }

  /** The state at an instant of a cell is the state at its boundary exactly when the instants on the
      boundary are harmless for every key. */
  lemma CellStateIsExact(
    claims: set<Claim>, scope: KnowledgeScope, start: Time, end: Time, b: Time, next: Time, t: Time)
    requires CanonicalClaims(claims)
    requires start < end && AdjacentBoundaries(claims, scope, start, end, b, next) && b <= t < next
    ensures StateOf(MaterialUnder(claims, scope, AtPoint(b))) == StateOf(MaterialUnder(claims, scope, AtPoint(t))) <==>
      forall k :: Harmless(GroupAt(claims, scope, AtPoint(t), k), InstantsAt(claims, scope, b, k))
  {
    var p, q := Entries(claims, scope, AtPoint(b)), Entries(claims, scope, AtPoint(t));
    SameStates(p, q);
    forall k
      ensures Harmless(GroupAt(claims, scope, AtPoint(t), k), InstantsAt(claims, scope, b, k)) <==>
        SameResolution(WithKey(p, k), WithKey(q, k))
    {
      CellForgetsItsInstants(claims, scope, start, end, b, next, t, k);
      HarmlessIsExact(GroupAt(claims, scope, AtPoint(t), k), InstantsAt(claims, scope, b, k));
    }
  }

  // ---- replay over a timeline ----

  ghost function SortedBlocks(bs: seq<Time>, cells: seq<Material>, observations: map<string, Observation>)
    : seq<seq<Transition>>
    requires |cells| == |bs| > 0
  {
    SortEach(TransitionOrder(observations), Diffs(bs, cells))
  }

  lemma SortedBlockFacts(bs: seq<Time>, blocks: seq<seq<Transition>>, observations: map<string, Observation>, i: nat)
    requires KeyedBlocks(bs, blocks) && i < |blocks|
    ensures var sorted := SortEach(TransitionOrder(observations), blocks)[i];
      && Distinct(sorted) && Elements(sorted) == Elements(blocks[i]) && forall t | t in sorted :: t.at == bs[i]
  {
    SortedKeyedBlock(bs[i], blocks[i], observations);
  }

  lemma SortedKeyedBlock(at: Time, block: seq<Transition>, observations: map<string, Observation>)
    requires KeyedBlock(at, block)
    ensures var sorted := Sorted(TransitionOrder(observations), Elements(block));
      Distinct(sorted) && Elements(sorted) == Elements(block) && forall t | t in sorted :: t.at == at
  {
    SortedBlock(at, block, observations);
    forall t { SameElementsSameMembers(Sorted(TransitionOrder(observations), Elements(block)), block, t); }
  }

  lemma {:induction false} FoldBlocks(bs: seq<Time>, cells: seq<Material>, observations: map<string, Observation>, n: nat)
    requires Timeline(bs, cells) && n < |bs|
    ensures var ts := Flatten(SortedBlocks(bs, cells, observations)[..n]);
      Chained(StateOf(cells[0]), ts) && Fold(StateOf(cells[0]), ts) == StateOf(cells[n])
  {
    var each := SortedBlocks(bs, cells, observations);
    if n > 0 {
      FoldBlocks(bs, cells, observations, n - 1);
      assert each[..n][..n - 1] == each[..n - 1];
      DiffsAreKeyed(bs, cells);
      SortedBlockFacts(bs, Diffs(bs, cells), observations, n - 1);
      ReplayBlock(each[n - 1], cells[n - 1], cells[n], bs[n - 1]);
      FoldConcat(StateOf(cells[0]), Flatten(each[..n - 1]), each[n - 1]);
    }
  }

  ghost predicate HappensAt(block: seq<Transition>, at: Time) {
    forall u | u in block :: u.at == at
  }

  lemma ThroughBlock(earlier: seq<Transition>, block: seq<Transition>, at: Time, t: Time)
    requires HappensAt(block, at)
    ensures Through(earlier + block, t) == Through(earlier, t) + if at <= t then block else []
  {
    ThroughConcat(earlier, block, t);
    ThroughAll(block, t);
  }

  lemma {:induction false} ThroughBlocks(bs: seq<Time>, blocks: seq<seq<Transition>>, n: nat, j: nat, t: Time)
    requires j <= n <= |blocks| <= |bs|
    requires forall i | 0 <= i < n :: HappensAt(blocks[i], bs[i])
    requires forall i | 0 <= i < n :: bs[i] <= t <==> i < j
    ensures Through(Flatten(blocks[..n]), t) == Flatten(blocks[..j])
  {
    if n > 0 {
      var earlier := Flatten(blocks[..n - 1]);
      FlattenOneMore(blocks, n - 1);
      ThroughBlock(earlier, blocks[n - 1], bs[n - 1], t);
      ThroughBlocks(bs, blocks, n - 1, if j < n then j else n - 1, t);
    }
  }

  lemma SortedBlocksHappenInTurn(bs: seq<Time>, blocks: seq<seq<Transition>>, observations: map<string, Observation>, i: nat)
    requires KeyedBlocks(bs, blocks) && i < |blocks|
    ensures HappensAt(SortEach(TransitionOrder(observations), blocks)[i], bs[i])
  {
    SortedBlockFacts(bs, blocks, observations, i);
  }

  lemma ThroughSortedBlocks(
    bs: seq<Time>, blocks: seq<seq<Transition>>, observations: map<string, Observation>, j: nat, t: Time)
    requires KeyedBlocks(bs, blocks) && |blocks| + 1 == |bs| && 0 < j < |bs| && bs[j - 1] <= t < bs[j]
    ensures var each := SortEach(TransitionOrder(observations), blocks);
      Through(Flatten(each), t) == Flatten(each[..j])
  {
    var each := SortEach(TransitionOrder(observations), blocks);
    forall i | 0 <= i < |each| {
      SortedBlocksHappenInTurn(bs, blocks, observations, i);
    }
    ThroughAllBlocks(bs, each, j, t);
  }

  lemma ThroughAllBlocks(bs: seq<Time>, blocks: seq<seq<Transition>>, j: nat, t: Time)
    requires Increasing(bs) && |blocks| + 1 == |bs| && 0 < j < |bs| && bs[j - 1] <= t < bs[j]
    requires forall i | 0 <= i < |blocks| :: HappensAt(blocks[i], bs[i])
    ensures Through(Flatten(blocks), t) == Flatten(blocks[..j])
  {
    assert blocks[..|blocks|] == blocks;
    ThroughBlocks(bs, blocks, |blocks|, j, t);
  }

  lemma WholeFold(bs: seq<Time>, cells: seq<Material>, observations: map<string, Observation>)
    requires Timeline(bs, cells) && |bs| > 0
    ensures Chained(StateOf(cells[0]), Flatten(SortedBlocks(bs, cells, observations)))
  {
    var each := SortedBlocks(bs, cells, observations);
    assert each[..|bs| - 1] == each;
    FoldBlocks(bs, cells, observations, |bs| - 1);
  }

  /** Replaying the transitions up to `t` gives the cell that `t` falls into. */
  lemma TimelineReplays(
    bs: seq<Time>, cells: seq<Material>, observations: map<string, Observation>, j: nat, t: Time)
    requires Timeline(bs, cells) && 0 < j < |bs| && bs[j - 1] <= t < bs[j]
    ensures var ts := Flatten(SortedBlocks(bs, cells, observations));
      Chained(StateOf(cells[0]), ts) && Fold(StateOf(cells[0]), Through(ts, t)) == StateOf(cells[j])
  {
    DiffsAreKeyed(bs, cells);
    ThroughSortedBlocks(bs, Diffs(bs, cells), observations, j, t);
    WholeFold(bs, cells, observations);
    FoldBlocks(bs, cells, observations, j);
  }

  lemma LastBoundary(bs: seq<Time>, t: Time) returns (j: nat)
    requires Increasing(bs) && |bs| >= 2 && bs[0] <= t < bs[|bs| - 1]
    ensures 0 < j < |bs| && bs[j - 1] <= t < bs[j]
  {
    j := 1;
    while bs[j] <= t
      invariant 0 < j < |bs| && bs[j - 1] <= t
      decreases |bs| - j
    {
      j := j + 1;
    }
  }

  lemma NeighboursAreAdjacent(claims: set<Claim>, scope: KnowledgeScope, start: Time, end: Time, j: nat)
    requires start < end && 0 < j < |OrderedBoundaries(claims, scope, start, end)|
    ensures var bs := OrderedBoundaries(claims, scope, start, end);
      AdjacentBoundaries(claims, scope, start, end, bs[j - 1], bs[j])
  {
    var bs := OrderedBoundaries(claims, scope, start, end);
    OrderedBoundariesIncrease(claims, scope, start, end);
    assert bs[j - 1] in Elements(bs) && bs[j] in Elements(bs);
    forall x | x in Boundaries(claims, scope, start, end) ensures !(bs[j - 1] < x < bs[j]) {
      assert x in Elements(bs);
      var i :| 0 <= i < |bs| && bs[i] == x;
      assert i < j - 1 || i == j - 1 || i == j || i > j;
    }
  }

  /** Folding the transitions up to `t`, in the returned order, over the state before the window gives
      the aggregated state of the cell that `t` falls into. */
  lemma CellReplays(claims: set<Claim>, scope: KnowledgeScope, start: Time, end: Time, t: Time)
    returns (b: Time, next: Time)
    requires Coherent(claims) && CanonicalClaims(claims) && start <= t < end
    ensures b <= t < next && AdjacentBoundaries(claims, scope, start, end, b, next)
    ensures var ts := TrajectoryOf(claims, scope, start, end);
      var before := StateOf(MaterialUnder(claims, scope, JustBefore(start)));
      Chained(before, ts) && Fold(before, Through(ts, t)) == StateOf(MaterialUnder(claims, scope, InWindow(b, next)))
  {
    var bs := OrderedBoundaries(claims, scope, start, end);
    OrderedBoundariesIncrease(claims, scope, start, end);
    var j := LastBoundary(bs, t);
    b, next := bs[j - 1], bs[j];
    NeighboursAreAdjacent(claims, scope, start, end, j);
    var cells := Cells(claims, scope, bs);
    CellsMakeTimeline(claims, scope, bs);
    TimelineReplays(bs, cells, ObservationIndex(claims), j, t);
    assert cells[j] == MaterialUnder(claims, scope, InWindow(b, next));
  }

  /** Folding the transitions up to `t`, in the returned order, over the state before the window
      gives exactly the state reconstructed at the last boundary `b` at or before `t`. It gives the state
      reconstructed at `t` itself exactly when the instants on `b` are harmless at `t` for every key; in
      particular if `t` is `b` or no instant observation sits on `b`. Each Before along the way is what
      the previous transitions left. */
  lemma TrajectoryReplays(claims: set<Claim>, scope: KnowledgeScope, start: Time, end: Time, t: Time)
    returns (b: Time)
    requires Coherent(claims) && CanonicalClaims(claims) && start <= t < end
    ensures b in Boundaries(claims, scope, start, end) && b <= t
    ensures forall x | x in Boundaries(claims, scope, start, end) :: !(b < x <= t)
    ensures var ts := TrajectoryOf(claims, scope, start, end);
      var before := StateOf(MaterialUnder(claims, scope, JustBefore(start)));
      && Chained(before, ts)
      && Fold(before, Through(ts, t)) == StateOf(MaterialUnder(claims, scope, AtPoint(b)))
      && (Fold(before, Through(ts, t)) == StateOf(MaterialUnder(claims, scope, AtPoint(t))) <==>
            forall k :: Harmless(GroupAt(claims, scope, AtPoint(t), k), InstantsAt(claims, scope, b, k)))
      && (t == b || !InstantAt(claims, scope, b) ==>
            Fold(before, Through(ts, t)) == StateOf(MaterialUnder(claims, scope, AtPoint(t))))
  {
    var first, next := CellReplays(claims, scope, start, end, t);
    b := first;
    CellIsPoint(claims, scope, start, end, b, next, t);
    CellStateIsExact(claims, scope, start, end, b, next, t);
  }

  // ---- an instant colours its cell ----

  /** One supported instant observation: its fact holds over the whole cell in the trajectory, yet a
      reconstruction later in that cell no longer finds it. */
  lemma InstantColoursItsCell(c: Claim, scope: KnowledgeScope, start: Time, end: Time, t: Time)
    requires CanonicalKey(c.key) && CanonicalTerm(c.value) && start < t < end
    requires c.observation.validTime == AtInstant(start) && Drawn(scope, c.observation)
    requires HasSupportingEvidence(c.observation) && !c.observation.status.Hypothesized?
    ensures var before := StateOf(MaterialUnder({c}, scope, JustBefore(start)));
      Fold(before, Through(TrajectoryOf({c}, scope, start, end), t)) == map[c.key := c.value]
    ensures StateOf(MaterialUnder({c}, scope, AtPoint(t))) == map[]
  {
    InstantAlone(c, scope, start, end, t);
    var b := TrajectoryReplays({c}, scope, start, end, t);
    SingleEntryState(Entry(c, Supported));
    NoEntriesNoState();
  }

  lemma InstantAlone(c: Claim, scope: KnowledgeScope, start: Time, end: Time, t: Time)
    requires start < t < end && c.observation.validTime == AtInstant(start) && Drawn(scope, c.observation)
    requires HasSupportingEvidence(c.observation) && !c.observation.status.Hypothesized?
    ensures Boundaries({c}, scope, start, end) == {start, end}
    ensures Entries({c}, scope, AtPoint(start)) == {Entry(c, Supported)}
    ensures Entries({c}, scope, AtPoint(t)) == {}
  {
  }

  lemma SingleEntryState(e: Entry)
    requires CanonicalEntries({e}) && e.role.Supported?
    ensures StateOf(MaterialOf({e})) == map[e.claim.key := e.claim.value]
  {
    var group := WithKey({e}, e.claim.key);
    var m := MaterialOf({e});
    assert group == {e} && ResolvesTo(group, e.claim.value) && e.claim.value in Values(group);
    forall k ensures FactFor(m.facts, k).Some? <==> k == e.claim.key
      ensures k == e.claim.key ==> FactFor(m.facts, k).value.value == e.claim.value
    {
      FactForMember(m.facts, k);
      forall f | f in m.facts ensures f.key == e.claim.key && f.value == e.claim.value {
        FactsOfMaterial({e}, f);
      }
      FactsOfMaterial({e}, ResolvedFact(e.claim.key, group));
    }
    forall k { FactForMember(m.facts, k); }
  }

  lemma NoEntriesNoState()
    ensures StateOf(MaterialOf({})) == map[]
  {
    assert Keys({}) == {};
    assert Sorted(KeyLess, Keys({})) == [];
  }

  // ---- what a transition carries ----

  /** A key that has a fact on one side is not unresolved on that side, and cells of a trajectory are
      points, so a transition carries at most one unresolved item, from the side without a fact, and
      never one that reports several states. */
  lemma TransitionsCarryOneSide(claims: set<Claim>, scope: KnowledgeScope, start: Time, end: Time)
    requires Coherent(claims) && CanonicalClaims(claims) && start < end
    ensures forall t | t in TrajectoryOf(claims, scope, start, end) ::
      && |t.unresolved| <= 1
      && (forall u | u in t.unresolved ::
            u.key == t.key && u.reason != MultipleStatesInWindow && (t.before.None? || t.after.None?))
  {
    forall t | t in TrajectoryOf(claims, scope, start, end)
      ensures |t.unresolved| <= 1
      ensures forall u | u in t.unresolved ::
        u.key == t.key && u.reason != MultipleStatesInWindow && (t.before.None? || t.after.None?)
    {
      TransitionCarriesOneSide(claims, scope, start, end, t);
    }
  }

  lemma TransitionCarriesOneSide(claims: set<Claim>, scope: KnowledgeScope, start: Time, end: Time, t: Transition)
    requires Coherent(claims) && CanonicalClaims(claims) && start < end
    ensures t in TrajectoryOf(claims, scope, start, end) ==>
      && |t.unresolved| <= 1
      && forall u | u in t.unresolved ::
           u.key == t.key && u.reason != MultipleStatesInWindow && (t.before.None? || t.after.None?)
  {
    var bs := OrderedBoundaries(claims, scope, start, end);
    var cells := Cells(claims, scope, bs);
    OrderedBoundariesIncrease(claims, scope, start, end);
    CellsMakeTimeline(claims, scope, bs);
    forall i | 0 <= i < |cells| ensures SidesApart(cells[i], t.key) {
      CellIsOneSided(claims, scope, start, end, i, t.key);
    }
    TimelineCarriesOneSide(bs, cells, ObservationIndex(claims), t);
  }

  lemma TimelineCarriesOneSide(bs: seq<Time>, cells: seq<Material>, observations: map<string, Observation>, t: Transition)
    requires Timeline(bs, cells) && |bs| > 0 && forall i | 0 <= i < |cells| :: SidesApart(cells[i], t.key)
    ensures t in Flatten(SortEach(TransitionOrder(observations), Diffs(bs, cells))) ==>
      && |t.unresolved| <= 1
      && forall u | u in t.unresolved ::
           u.key == t.key && u.reason != MultipleStatesInWindow && (t.before.None? || t.after.None?)
  {
    var blocks := Diffs(bs, cells);
    DiffsAreKeyed(bs, cells);
    if t in Flatten(SortEach(TransitionOrder(observations), blocks)) {
      var i := BlockOf(bs, blocks, observations, t);
      BlockAt(bs, cells, i);
      DiffCarriesOneSide(cells[i], cells[i + 1], bs[i], t);
    }
  }

  /** A state in which the key has a fact or an unresolved item but not both, and no item reports several states. */
  ghost predicate SidesApart(m: Material, k: StateKey) {
    && (FactFor(m.facts, k).None? || UnresolvedFor(m.unresolved, k).None?)
    && (forall u | u in m.unresolved :: u.reason != MultipleStatesInWindow)
  }

  lemma CellIsOneSided(claims: set<Claim>, scope: KnowledgeScope, start: Time, end: Time, i: nat, k: StateKey)
    requires CanonicalClaims(claims) && start < end && i < |OrderedBoundaries(claims, scope, start, end)|
    ensures SidesApart(Cells(claims, scope, OrderedBoundaries(claims, scope, start, end))[i], k)
  {
    CellNeverReportsSeveralStates(claims, scope, start, end, i);
    OneSided(claims, scope, CellSelector(OrderedBoundaries(claims, scope, start, end), i), k);
  }

  lemma BlockOf(bs: seq<Time>, blocks: seq<seq<Transition>>, observations: map<string, Observation>, t: Transition)
    returns (i: nat)
    requires KeyedBlocks(bs, blocks) && t in Flatten(SortEach(TransitionOrder(observations), blocks))
    ensures i < |blocks| && t in blocks[i]
  {
    var each := SortEach(TransitionOrder(observations), blocks);
    InFlatten(each, t);
    i :| 0 <= i < |each| && t in each[i];
    SortedBlockFacts(bs, blocks, observations, i);
    SameElementsSameMembers(each[i], blocks[i], t);
  }

  lemma DiffCarriesOneSide(before: Material, after: Material, at: Time, t: Transition)
    requires CanonicalMaterial(before) && CanonicalMaterial(after) && t in Diff(before, after, at)
    requires SidesApart(before, t.key) && SidesApart(after, t.key)
    ensures |t.unresolved| <= 1
    ensures forall u | u in t.unresolved ::
      u.key == t.key && u.reason != MultipleStatesInWindow && (t.before.None? || t.after.None?)
  {
    InDiff(before, after, at, t);
    UnresolvedForMember(before.unresolved, t.key);
    UnresolvedForMember(after.unresolved, t.key);
    assert KeyTransition(before, after, at, t.key)[0] == t;
  }

  lemma OneSided(claims: set<Claim>, scope: KnowledgeScope, sel: ValidTimeSelector, k: StateKey)
    requires CanonicalClaims(claims)
    ensures var m := MaterialUnder(claims, scope, sel);
      FactFor(m.facts, k).None? || UnresolvedFor(m.unresolved, k).None?
  {
    var m := MaterialUnder(claims, scope, sel);
    FactForMember(m.facts, k);
    UnresolvedForMember(m.unresolved, k);
    if FactFor(m.facts, k).Some? && UnresolvedFor(m.unresolved, k).Some? {
      FactsOfMaterial(Entries(claims, scope, sel), FactFor(m.facts, k).value);
      UnresolvedOfMaterial(Entries(claims, scope, sel), UnresolvedFor(m.unresolved, k).value);
    }
  }

  lemma CellNeverReportsSeveralStates(claims: set<Claim>, scope: KnowledgeScope, start: Time, end: Time, i: nat)
    requires CanonicalClaims(claims) && start < end && i < |OrderedBoundaries(claims, scope, start, end)|
    ensures var bs := OrderedBoundaries(claims, scope, start, end);
      forall u | u in Cells(claims, scope, bs)[i].unresolved :: u.reason != MultipleStatesInWindow
  {
    var sel := CellAsPoint(claims, scope, start, end, i);
    PointsNeverReportSeveralStates(claims, scope, sel);
  }

  /** Every state of a trajectory is that of a point or of a left limit. */
  lemma CellAsPoint(claims: set<Claim>, scope: KnowledgeScope, start: Time, end: Time, i: nat)
    returns (sel: ValidTimeSelector)
    requires start < end && i < |OrderedBoundaries(claims, scope, start, end)|
    ensures !sel.InWindow?
    ensures Cells(claims, scope, OrderedBoundaries(claims, scope, start, end))[i] == MaterialUnder(claims, scope, sel)
  {
    var bs := OrderedBoundaries(claims, scope, start, end);
    if i == 0 {
      sel := JustBefore(bs[0]);
    } else {
      sel := AtPoint(bs[i - 1]);
      NeighboursAreAdjacent(claims, scope, start, end, i);
      CellIsPoint(claims, scope, start, end, bs[i - 1], bs[i], bs[i - 1]);
    }
  }
}
