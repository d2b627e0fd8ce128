/** Transitions between two states, and their total order (core/temporal/trajectory.go). */
module Transitions {
  import opened Results
  import opened Observations
  import opened Ordering
  import opened States
  import opened Materials

  datatype ChangeKind = Added | Changed | Removed

  /** `at` is the boundary whose AtInstant extent is the transition's valid time. */
  datatype Transition = Transition(
    kind: ChangeKind,
    key: StateKey,
    at: Time,
    before: Option<Fact>,
    after: Option<Fact>,
    unresolved: seq<UnresolvedFact>)

  // ---- the difference of two states ----

  /** The entry a map filled from the list in order ends up with. */
  ghost function FactFor(fs: seq<Fact>, k: StateKey): Option<Fact> {
    if fs == [] then None
    else if fs[|fs| - 1].key == k then Some(fs[|fs| - 1])
    else FactFor(fs[..|fs| - 1], k)
  }

  ghost function UnresolvedFor(us: seq<UnresolvedFact>, k: StateKey): Option<UnresolvedFact> {
    if us == [] then None
    else if us[|us| - 1].key == k then Some(us[|us| - 1])
    else UnresolvedFor(us[..|us| - 1], k)
  }

  ghost function FactKeys(m: Material): set<StateKey> { set f | f in m.facts :: f.key }

  /** Position of the reason's name in string order. */
  function ReasonRank(r: UnresolvedReason): int {
    match r
    case ConflictingValues => 0
    case CounterevidenceOnly => 1
    case HypothesizedOnly => 2
    case MultipleStatesInWindow => 3
    case TemporalUncertainty => 4
  }

  function ChangeKindRank(k: ChangeKind): int {
    match k
    case Added => 0
    case Changed => 1
    case Removed => 2
  }

  predicate UnresolvedBefore(left: UnresolvedFact, right: UnresolvedFact) {
    var keys := CompareStateKeys(left.key, right.key);
    if keys != 0 then keys < 0 else ReasonRank(left.reason) < ReasonRank(right.reason)
  }

  function WithCandidates(u: Option<UnresolvedFact>): seq<UnresolvedFact> {
    if u.Some? && u.value.candidates != [] then [u.value] else []
  }

  function TrajectoryUnresolved(before: Option<UnresolvedFact>, after: Option<UnresolvedFact>): seq<UnresolvedFact> {
    var kept := WithCandidates(before) + WithCandidates(after);
    if |kept| == 2 && UnresolvedBefore(kept[1], kept[0]) then [kept[1], kept[0]] else kept
  }

  /** The switch that diffTrajectoryState and CompareWindowSummaries share. */
  function KindOfChange(before: Option<Fact>, after: Option<Fact>): Option<ChangeKind> {
    if before.None? && after.Some? then Some(Added)
    else if before.Some? && after.None? then Some(Removed)
    else if before.Some? && after.Some? && CompareTerms(before.value.value, after.value.value) != 0 then Some(Changed)
    else None
  }

  function TransitionFor(
    k: StateKey, at: Time, before: Option<Fact>, after: Option<Fact>, unresolved: seq<UnresolvedFact>)
    : seq<Transition>
  {
    var kind := KindOfChange(before, after);
    if kind.None? then [] else [Transition(kind.value, k, at, before, after, unresolved)]
  }

  ghost function KeyTransition(before: Material, after: Material, at: Time, k: StateKey): seq<Transition> {
    TransitionFor(k, at, FactFor(before.facts, k), FactFor(after.facts, k),
                  TrajectoryUnresolved(UnresolvedFor(before.unresolved, k), UnresolvedFor(after.unresolved, k)))
  }

  ghost function DiffOver(ks: seq<StateKey>, before: Material, after: Material, at: Time): seq<Transition> {
    if ks == [] then []
    else DiffOver(ks[..|ks| - 1], before, after, at) + KeyTransition(before, after, at, ks[|ks| - 1])
  }

  /** diffTrajectoryState */
  ghost function Diff(before: Material, after: Material, at: Time): seq<Transition> {
    DiffOver(Sorted(KeyLess, FactKeys(before) + FactKeys(after)), before, after, at)
  }

  ghost predicate CanonicalMaterial(m: Material) {
    forall f | f in m.facts :: CanonicalKey(f.key) && CanonicalTerm(f.value)
  }

  lemma {:induction false} FactForMember(fs: seq<Fact>, k: StateKey)
    ensures FactFor(fs, k).Some? <==> exists f :: f in fs && f.key == k
    ensures FactFor(fs, k).Some? ==> FactFor(fs, k).value in fs && FactFor(fs, k).value.key == k
  {
    if fs != [] {
      FactForMember(fs[..|fs| - 1], k);
      assert fs == fs[..|fs| - 1] + [fs[|fs| - 1]];
    }
  }

  lemma {:induction false} UnresolvedForMember(us: seq<UnresolvedFact>, k: StateKey)
    ensures UnresolvedFor(us, k).Some? <==> exists u :: u in us && u.key == k
    ensures UnresolvedFor(us, k).Some? ==> UnresolvedFor(us, k).value in us && UnresolvedFor(us, k).value.key == k
  {
    if us != [] {
      UnresolvedForMember(us[..|us| - 1], k);
      assert us == us[..|us| - 1] + [us[|us| - 1]];
    }
  }

  lemma {:induction false} InDiffOver(ks: seq<StateKey>, before: Material, after: Material, at: Time, t: Transition)
    ensures t in DiffOver(ks, before, after, at) <==> t.key in ks && KeyTransition(before, after, at, t.key) == [t]
  {
    if ks != [] {
      InDiffOver(ks[..|ks| - 1], before, after, at, t);
      assert ks == ks[..|ks| - 1] + [ks[|ks| - 1]];
    }
  }

  /** A transition is in the difference exactly when it is the transition of its own key. */
  lemma InDiff(before: Material, after: Material, at: Time, t: Transition)
    requires CanonicalMaterial(before) && CanonicalMaterial(after)
    ensures t in Diff(before, after, at) <==> KeyTransition(before, after, at, t.key) == [t]
  {
    var keys := FactKeys(before) + FactKeys(after);
    var ks := Sorted(KeyLess, keys);
    SortedKeysElements(keys);
    InDiffOver(ks, before, after, at, t);
    FactForMember(before.facts, t.key);
    FactForMember(after.facts, t.key);
    assert t.key in ks <==> t.key in Elements(ks);
  }

  lemma {:induction false} DiffOverIsDistinct(ks: seq<StateKey>, before: Material, after: Material, at: Time)
    requires Distinct(ks)
    ensures Distinct(DiffOver(ks, before, after, at))
  {
    if ks != [] {
      var init := ks[..|ks| - 1];
      DiffOverIsDistinct(init, before, after, at);
      forall t | t in DiffOver(init, before, after, at) ensures t.key != ks[|ks| - 1] {
        InDiffOver(init, before, after, at, t);
      }
    }
  }

  // ---- what a change says ----

  /** `side` is a fact of the list about the key, or None when there is none. */
  ghost predicate IsSide(fs: seq<Fact>, k: StateKey, side: Option<Fact>) {
    match side
    case Some(f) => f in fs && f.key == k
    case None => forall f | f in fs :: f.key != k
  }

  /** The kind of a change between the two sides. */
  ghost predicate Turns(kind: ChangeKind, before: Option<Fact>, after: Option<Fact>) {
    match kind
    case Added => before.None? && after.Some?
    case Changed => before.Some? && after.Some? && before.value.value != after.value.value
    case Removed => before.Some? && after.None?
  }

  lemma KindIsTurn(before: Option<Fact>, after: Option<Fact>, kind: ChangeKind)
    requires before.Some? ==> CanonicalTerm(before.value.value)
    requires after.Some? ==> CanonicalTerm(after.value.value)
    ensures KindOfChange(before, after) == Some(kind) <==> Turns(kind, before, after)
  {
    if before.Some? && after.Some? {
      CompareTermsIsOrder(before.value.value, after.value.value, before.value.value);
    }
  }

  // ---- the order of transitions ----

  function FactIds(f: Option<Fact>): seq<string> {
    if f.Some? then f.value.observationIds else []
  }

  function CandidateIds(fs: seq<Fact>): seq<string> {
    if fs == [] then [] else fs[0].observationIds + CandidateIds(fs[1..])
  }

  function UnresolvedIds(us: seq<UnresolvedFact>): seq<string> {
    if us == [] then [] else CandidateIds(us[0].candidates) + UnresolvedIds(us[1..])
  }

  function TransitionObservationIds(t: Transition): seq<string> {
    FactIds(t.before) + FactIds(t.after) + UnresolvedIds(t.unresolved)
  }

  /** The recorded time of a looked-up observation; a missing one has the zero time. */
  function RecordedAt(observations: map<string, Observation>, id: string): Time {
    if id in observations then observations[id].recordedAt else ZERO_TIME
  }

  /** The first loop of coreTransitionTie; the zero time stands for "none yet". */
  function EarliestRecorded(ids: seq<string>, observations: map<string, Observation>): Time {
    if ids == [] then ZERO_TIME
    else
      var earliest := EarliestRecorded(ids[..|ids| - 1], observations);
      var recordedAt := RecordedAt(observations, ids[|ids| - 1]);
      if earliest == ZERO_TIME || recordedAt < earliest then recordedAt else earliest
  }

  /** The second loop of coreTransitionTie. */
  function FirstId(ids: seq<string>): string {
    if ids == [] then ""
    else
      var first := FirstId(ids[..|ids| - 1]);
      if first == "" || StringLess(ids[|ids| - 1], first) then ids[|ids| - 1] else first
  }

  predicate TransitionBefore(observations: map<string, Observation>, left: Transition, right: Transition) {
    var (leftIds, rightIds) := (TransitionObservationIds(left), TransitionObservationIds(right));
    var (leftRecorded, rightRecorded) := (EarliestRecorded(leftIds, observations), EarliestRecorded(rightIds, observations));
    TiedBefore(left, right, leftRecorded, rightRecorded, FirstId(leftIds), FirstId(rightIds))
  }

  predicate TiedBefore(
    left: Transition, right: Transition, leftRecorded: Time, rightRecorded: Time, leftId: string, rightId: string)
  {
    if left.at != right.at then left.at < right.at
    else if leftRecorded != rightRecorded then leftRecorded < rightRecorded
    else if leftId != rightId then StringLess(leftId, rightId)
    else
      var keys := CompareStateKeys(left.key, right.key);
      if keys != 0 then keys < 0 else ChangeKindRank(left.kind) < ChangeKindRank(right.kind)
  }

  function TransitionOrder(observations: map<string, Observation>): (Transition, Transition) -> bool {
    (left, right) => TransitionBefore(observations, left, right)
  }

  /** One transition per boundary and canonical key. */
  ghost predicate KeyedTransitions(s: set<Transition>) {
    && (forall t | t in s :: CanonicalKey(t.key))
    && (forall t, u | t in s && u in s && t.at == u.at && t.key == u.key :: t == u)
  }

  lemma TiedBeforeIsTransitive(
    a: Transition, b: Transition, c: Transition, ra: Time, rb: Time, rc: Time, ia: string, ib: string, ic: string)
    requires TiedBefore(a, b, ra, rb, ia, ib) && TiedBefore(b, c, rb, rc, ib, ic)
    ensures TiedBefore(a, c, ra, rc, ia, ic)
  {
    CompareStringsIsAntisymmetric(ia, ib);
    CompareStringsIsAntisymmetric(ib, ic);
    CompareStringsIsAntisymmetric(ia, ic);
    if StringLess(ia, ib) && StringLess(ib, ic) { CompareStringsIsTransitive(ia, ib, ic); }
    CompareStateKeysIsOrder(a.key, b.key, c.key);
    CompareStateKeysIsOrder(b.key, c.key, a.key);
    CompareStateKeysIsOrder(c.key, a.key, b.key);
  }

  lemma TiedBeforeIsTotal(a: Transition, b: Transition, ra: Time, rb: Time, ia: string, ib: string)
    requires CanonicalKey(a.key) && CanonicalKey(b.key)
    requires a.at != b.at || a.key != b.key
    ensures TiedBefore(a, b, ra, rb, ia, ib) || TiedBefore(b, a, rb, ra, ib, ia)
  {
    CompareStringsIsAntisymmetric(ia, ib);
    CompareStateKeysIsOrder(a.key, b.key, a.key);
  }

  lemma TiedBeforeIsIrreflexive(a: Transition, ra: Time, ia: string)
    ensures !TiedBefore(a, a, ra, ra, ia, ia)
  {
    CompareStateKeysIsOrder(a.key, a.key, a.key);
  }

  /** The comparator of orderCoreTransitions is a strict total order on keyed transitions. */
  lemma TransitionOrderIsStrict(observations: map<string, Observation>, s: set<Transition>)
    requires KeyedTransitions(s)
    ensures StrictOrderOn(TransitionOrder(observations), s)
  {
    var recorded := (t: Transition) => EarliestRecorded(TransitionObservationIds(t), observations);
    var first := (t: Transition) => FirstId(TransitionObservationIds(t));
    forall t, u | t in s && u in s
      ensures TransitionOrder(observations)(t, u) == TiedBefore(t, u, recorded(t), recorded(u), first(t), first(u))
    {
    }
    forall t | t in s ensures !TransitionOrder(observations)(t, t) {
      TiedBeforeIsIrreflexive(t, recorded(t), first(t));
    }
    forall t, u | t in s && u in s && t != u
      ensures TransitionOrder(observations)(t, u) || TransitionOrder(observations)(u, t)
    {
      TiedBeforeIsTotal(t, u, recorded(t), recorded(u), first(t), first(u));
    }
    forall t, u, v | t in s && u in s && v in s
                 && TransitionOrder(observations)(t, u) && TransitionOrder(observations)(u, v)
      ensures TransitionOrder(observations)(t, v)
    {
      TiedBeforeIsTransitive(t, u, v, recorded(t), recorded(u), recorded(v), first(t), first(u), first(v));
    }
  }
}
