/** The accumulators that aggregateCandidates fills and summarizeGroups reads. */
module Accumulators {
  import opened Observations
  import opened States
  import opened Claims
  import opened Materials

  /** `extents` is a slice in the source; it is only searched for an overlapping pair, so a set
      keeps all that is ever read of it. */
  datatype FactAccumulator = FactAccumulator(
    key: StateKey,
    value: Term,
    observations: set<string>,
    supporting: set<string>,
    contradicting: set<string>,
    extents: set<TemporalExtent>)

  type ValueMap = map<Term, FactAccumulator>

  datatype KeyAccumulator = KeyAccumulator(
    key: StateKey,
    supported: ValueMap,
    tentative: ValueMap,
    counterOnly: ValueMap,
    temporalValues: set<Term>,
    hypothesisValues: set<Term>)

  function NewFactAccumulator(k: StateKey, v: Term): FactAccumulator {
    FactAccumulator(k, v, {}, {}, {}, {})
  }

  function NewKeyAccumulator(k: StateKey): KeyAccumulator {
    KeyAccumulator(k, map[], map[], map[], {}, {})
  }

  // ---- what the accumulators hold for a set of entries ----

  ghost function Extents(entries: set<Entry>): set<TemporalExtent> {
    set e | e in entries :: e.claim.observation.validTime
  }

  ghost function AccumulatorOf(k: StateKey, v: Term, entries: set<Entry>): FactAccumulator {
    FactAccumulator(k, v, Ids(entries), Evidence(entries, Supporting), Evidence(entries, Contradicting),
                    Extents(entries))
  }

  ghost function ByValue(k: StateKey, entries: set<Entry>): ValueMap {
    map v | v in Values(entries) :: AccumulatorOf(k, v, WithValue(entries, v))
  }

  ghost function GroupOf(k: StateKey, group: set<Entry>): KeyAccumulator {
    KeyAccumulator(
      k,
      ByValue(k, WithRole(group, Supported)),
      ByValue(k, TentativePart(group)),
      ByValue(k, WithRole(group, CounterOnly)),
      Values(WithRole(group, TentativeInTime)),
      Values(WithRole(group, TentativeByHypothesis)))
  }

  ghost function GroupsOf(entries: set<Entry>): map<StateKey, KeyAccumulator> {
    map k | k in Keys(entries) :: GroupOf(k, WithKey(entries, k))
  }

  // ---- merging one observation ----

  ghost function AddObservation(acc: FactAccumulator, o: Observation): FactAccumulator {
    acc.(observations := acc.observations + {o.id},
         supporting := acc.supporting + EvidenceIds(o, Supporting),
         contradicting := acc.contradicting + EvidenceIds(o, Contradicting),
         extents := acc.extents + {o.validTime})
  }

  ghost function Merged(target: ValueMap, k: StateKey, v: Term, o: Observation): ValueMap {
    target[v := AddObservation(if v in target then target[v] else NewFactAccumulator(k, v), o)]
  }

  method MergeCandidate(target: ValueMap, k: StateKey, v: Term, o: Observation) returns (updated: ValueMap)
    ensures updated == Merged(target, k, v, o)
  {
    var acc := if v in target then target[v] else NewFactAccumulator(k, v);
    ghost var start := acc;
    acc := acc.(observations := acc.observations + {o.id}, extents := acc.extents + {o.validTime});
    for i := 0 to |o.evidence|
      invariant acc == start.(observations := start.observations + {o.id},
        extents := start.extents + {o.validTime},
        supporting := start.supporting + (set l | l in o.evidence[..i] && l.role == Supporting :: l.evidenceId),
        contradicting := start.contradicting + (set l | l in o.evidence[..i] && l.role == Contradicting :: l.evidenceId))
    {
      var link := o.evidence[i];
      assert o.evidence[..i + 1] == o.evidence[..i] + [link];
      match link.role {
        case Supporting => acc := acc.(supporting := acc.supporting + {link.evidenceId});
        case Contradicting => acc := acc.(contradicting := acc.contradicting + {link.evidenceId});
      }
    }
    assert o.evidence[..|o.evidence|] == o.evidence;
    updated := target[v := acc];
  }

  lemma AccumulatorOfOneMore(k: StateKey, v: Term, entries: set<Entry>, e: Entry)
    ensures AccumulatorOf(k, v, entries + {e}) == AddObservation(AccumulatorOf(k, v, entries), e.claim.observation)
  {
    assert Ids(entries + {e}) == Ids(entries) + {e.claim.observation.id};
    assert Extents(entries + {e}) == Extents(entries) + {e.claim.observation.validTime};
    assert Evidence(entries + {e}, Supporting) == Evidence(entries, Supporting) + EvidenceIds(e.claim.observation, Supporting);
    assert Evidence(entries + {e}, Contradicting)
        == Evidence(entries, Contradicting) + EvidenceIds(e.claim.observation, Contradicting);
  }

  lemma ByValueOneMore(k: StateKey, entries: set<Entry>, e: Entry)
    ensures ByValue(k, entries + {e}) == Merged(ByValue(k, entries), k, e.claim.value, e.claim.observation)
  {
    var v := e.claim.value;
    var before, after := ByValue(k, entries), ByValue(k, entries + {e});
    assert Values(entries + {e}) == Values(entries) + {v};
    assert WithValue(entries + {e}, v) == WithValue(entries, v) + {e};
    AccumulatorOfOneMore(k, v, WithValue(entries, v), e);
    if v !in Values(entries) {
      assert WithValue(entries, v) == {};
      assert AccumulatorOf(k, v, {}) == NewFactAccumulator(k, v);
    }
    forall w | w in Values(entries) && w != v ensures after[w] == before[w] {
      assert WithValue(entries + {e}, w) == WithValue(entries, w);
    }
  }

  /** What the switch of aggregateCandidates does with one entry of a group. */
  ghost function AddedToGroup(group: KeyAccumulator, e: Entry): KeyAccumulator {
    var (v, o) := (e.claim.value, e.claim.observation);
    match e.role
    case CounterOnly => group.(counterOnly := Merged(group.counterOnly, e.claim.key, v, o))
    case TentativeInTime =>
      group.(tentative := Merged(group.tentative, e.claim.key, v, o),
             temporalValues := group.temporalValues + {v})
    case TentativeByHypothesis =>
      group.(tentative := Merged(group.tentative, e.claim.key, v, o),
             hypothesisValues := group.hypothesisValues + {v})
    case Supported => group.(supported := Merged(group.supported, e.claim.key, v, o))
  }

  lemma RoleOneMore(group: set<Entry>, e: Entry, r: Role)
    ensures WithRole(group + {e}, r) == if e.role == r then WithRole(group, r) + {e} else WithRole(group, r)
  {
  }

  lemma TentativeOneMore(group: set<Entry>, e: Entry)
    ensures TentativePart(group + {e}) == if Tentative(e.role) then TentativePart(group) + {e} else TentativePart(group)
  {
  }

  lemma ValuesOneMore(entries: set<Entry>, e: Entry)
    ensures Values(entries + {e}) == Values(entries) + {e.claim.value}
  {
  }

  lemma GroupOneMore(k: StateKey, group: set<Entry>, e: Entry)
    requires e.claim.key == k
    ensures GroupOf(k, group + {e}) == AddedToGroup(GroupOf(k, group), e)
  {
    forall r { RoleOneMore(group, e, r); }
    TentativeOneMore(group, e);
    ValuesOneMore(WithRole(group, e.role), e);
    ByValueOneMore(k, WithRole(group, e.role), e);
    ByValueOneMore(k, TentativePart(group), e);
  }

  /** The accumulator found for a key, or the new one made when there is none. */
  ghost function FoundGroup(groups: map<StateKey, KeyAccumulator>, k: StateKey): KeyAccumulator {
    if k in groups then groups[k] else NewKeyAccumulator(k)
  }

  lemma FoundGroupOf(entries: set<Entry>, k: StateKey)
    ensures FoundGroup(GroupsOf(entries), k) == GroupOf(k, WithKey(entries, k))
  {
    if k !in Keys(entries) {
      assert WithKey(entries, k) == {};
    }
  }

  lemma GroupsGrow(entries: set<Entry>, e: Entry)
    ensures GroupsOf(entries + {e})
         == GroupsOf(entries)[e.claim.key := GroupOf(e.claim.key, WithKey(entries, e.claim.key) + {e})]
  {
    var k := e.claim.key;
    assert Keys(entries + {e}) == Keys(entries) + {k};
    forall j ensures WithKey(entries + {e}, j) == if j == k then WithKey(entries, k) + {e} else WithKey(entries, j) {
    }
  }

  lemma GroupsOneMore(entries: set<Entry>, e: Entry)
    ensures var (k, groups) := (e.claim.key, GroupsOf(entries));
      GroupsOf(entries + {e}) == groups[k := AddedToGroup(FoundGroup(groups, k), e)]
  {
    var k := e.claim.key;
    GroupsGrow(entries, e);
    FoundGroupOf(entries, k);
    GroupOneMore(k, WithKey(entries, k), e);
  }

  // ---- merging accumulators ----

  function Union(a: FactAccumulator, b: FactAccumulator): FactAccumulator {
    a.(observations := a.observations + b.observations,
       supporting := a.supporting + b.supporting,
       contradicting := a.contradicting + b.contradicting)
  }

  ghost function UnionOfMaps(a: ValueMap, b: ValueMap): ValueMap {
    map v | v in a.Keys + b.Keys ::
      var base := if v in a then a[v] else NewFactAccumulator(b[v].key, b[v].value);
      if v in b then Union(base, b[v]) else base
  }

  lemma UnionOneMore(a: ValueMap, b: ValueMap, v: Term, acc: FactAccumulator)
    requires v !in b
    ensures var union := UnionOfMaps(a, b);
      UnionOfMaps(a, b[v := acc])
      == union[v := Union(if v in union then union[v] else NewFactAccumulator(acc.key, acc.value), acc)]
  {
  }

  /** The inner loop of mergeAccumulators. */
  method MergeInto(merged: ValueMap, source: ValueMap) returns (updated: ValueMap)
    ensures updated == UnionOfMaps(merged, source)
  {
    updated := merged;
    var rest := source.Keys;
    ghost var done: ValueMap := map[];
    while rest != {}
      invariant rest <= source.Keys && done == source - rest
      invariant updated == UnionOfMaps(merged, done)
    {
      var v :| v in rest;
      UnionOneMore(merged, done, v, source[v]);
      var target := if v in updated then updated[v] else NewFactAccumulator(source[v].key, source[v].value);
      updated := updated[v := Union(target, source[v])];
      done := done[v := source[v]];
      rest := rest - {v};
    }
    assert done == source;
  }

  method MergeAccumulators(a: ValueMap, b: ValueMap, c: ValueMap) returns (merged: ValueMap)
    ensures merged == MergedMaps(a, b, c)
  {
    merged := MergeInto(map[], a);
    merged := MergeInto(merged, b);
    merged := MergeInto(merged, c);
  }

  /** The accumulator a map holds for a value, or an empty one. */
  ghost function AccumulatorAt(m: ValueMap, k: StateKey, v: Term): FactAccumulator {
    if v in m then m[v] else NewFactAccumulator(k, v)
  }

  lemma AccumulatorAtUnion(a: ValueMap, b: ValueMap, k: StateKey, v: Term)
    requires v in b ==> b[v].key == k && b[v].value == v
    ensures AccumulatorAt(UnionOfMaps(a, b), k, v) == Union(AccumulatorAt(a, k, v), AccumulatorAt(b, k, v))
  {
  }

  lemma AccumulatorAtByValue(k: StateKey, entries: set<Entry>, v: Term)
    ensures AccumulatorAt(ByValue(k, entries), k, v) == AccumulatorOf(k, v, WithValue(entries, v))
  {
    if v !in Values(entries) {
      assert WithValue(entries, v) == {};
    }
  }

  ghost function MergedMaps(a: ValueMap, b: ValueMap, c: ValueMap): ValueMap {
    UnionOfMaps(UnionOfMaps(UnionOfMaps(map[], a), b), c)
  }

  ghost predicate Keyed(m: ValueMap, k: StateKey) {
    forall v | v in m :: m[v].key == k && m[v].value == v
  }

  lemma MergedMapsAt(a: ValueMap, b: ValueMap, c: ValueMap, k: StateKey, v: Term)
    requires Keyed(a, k) && Keyed(b, k) && Keyed(c, k)
    ensures AccumulatorAt(MergedMaps(a, b, c), k, v)
         == Union(Union(Union(NewFactAccumulator(k, v), AccumulatorAt(a, k, v)), AccumulatorAt(b, k, v)),
                  AccumulatorAt(c, k, v))
  {
    var first := UnionOfMaps(map[], a);
    var second := UnionOfMaps(first, b);
    AccumulatorAtUnion(map[], a, k, v);
    AccumulatorAtUnion(first, b, k, v);
    AccumulatorAtUnion(second, c, k, v);
  }

  lemma MergedKeys(a: ValueMap, b: ValueMap, c: ValueMap)
    ensures MergedMaps(a, b, c).Keys == a.Keys + b.Keys + c.Keys
  {
  }

  lemma PartsOfUnion(x: set<Entry>, y: set<Entry>)
    ensures Ids(x + y) == Ids(x) + Ids(y)
    ensures forall r :: Evidence(x + y, r) == Evidence(x, r) + Evidence(y, r)
  {
  }

  lemma UnionOfParts(k: StateKey, v: Term, x: set<Entry>, y: set<Entry>, z: set<Entry>)
    ensures Union(Union(Union(NewFactAccumulator(k, v), AccumulatorOf(k, v, x)), AccumulatorOf(k, v, y)),
                  AccumulatorOf(k, v, z))
         == AccumulatorOf(k, v, x + y + z).(extents := {})
  {
    PartsOfUnion(x, y);
    PartsOfUnion(x + y, z);
  }

  lemma GroupParts(group: set<Entry>, v: Term)
    ensures var (s, t, c) := (WithRole(group, Supported), TentativePart(group), WithRole(group, CounterOnly));
      && WithValue(group, v) == WithValue(s, v) + WithValue(t, v) + WithValue(c, v)
      && Values(group) == Values(s) + Values(t) + Values(c)
  {
    var (s, t, c) := (WithRole(group, Supported), TentativePart(group), WithRole(group, CounterOnly));
    assert group == s + t + c;
  }

  lemma MergedEntries(k: StateKey, s: set<Entry>, t: set<Entry>, c: set<Entry>, v: Term)
    ensures AccumulatorAt(MergedMaps(ByValue(k, s), ByValue(k, t), ByValue(k, c)), k, v)
         == AccumulatorOf(k, v, WithValue(s, v) + WithValue(t, v) + WithValue(c, v)).(extents := {})
  {
    AccumulatorAtByValue(k, s, v);
    AccumulatorAtByValue(k, t, v);
    AccumulatorAtByValue(k, c, v);
    MergedMapsAt(ByValue(k, s), ByValue(k, t), ByValue(k, c), k, v);
    UnionOfParts(k, v, WithValue(s, v), WithValue(t, v), WithValue(c, v));
  }

  /** Merging the three maps of a group forgets the roles and nothing else. */
  lemma MergedGroup(k: StateKey, group: set<Entry>, v: Term)
    ensures var g := GroupOf(k, group);
      AccumulatorAt(MergedMaps(g.supported, g.tentative, g.counterOnly), k, v)
      == AccumulatorOf(k, v, WithValue(group, v)).(extents := {})
  {
    GroupParts(group, v);
    MergedEntries(k, WithRole(group, Supported), TentativePart(group), WithRole(group, CounterOnly), v);
  }

  lemma MergedGroupKeys(k: StateKey, group: set<Entry>)
    ensures var g := GroupOf(k, group); MergedMaps(g.supported, g.tentative, g.counterOnly).Keys == Values(group)
  {
    GroupParts(group, Absent);
    MergedKeys(ByValue(k, WithRole(group, Supported)), ByValue(k, TentativePart(group)), ByValue(k, WithRole(group, CounterOnly)));
  }
}
