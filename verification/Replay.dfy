/** Transitions as a delta encoding of state: folding them over an earlier state gives the later one. */
module Replay {
  import opened Results
  import opened Observations
  import opened Ordering
  import opened States
  import opened Materials
  import opened Transitions

  type StateMap = map<StateKey, Term>

  /** The resolved key-to-value map of a state. */
  ghost function StateOf(m: Material): StateMap {
    map k | k in FactKeys(m) && FactFor(m.facts, k).Some? :: FactFor(m.facts, k).value.value
  }

  /** The state with the key's value set, or removed. */
  function Assigned(m: StateMap, k: StateKey, after: Option<Fact>): StateMap {
    if after.Some? then m[k := after.value.value] else m - {k}
  }

  function Step(m: StateMap, t: Transition): StateMap {
    Assigned(m, t.key, t.after)
  }

  /** The transition says what it finds in the state and truly changes it. */
  predicate Fits(m: StateMap, t: Transition) {
    && t.kind == (if t.before.None? then Added else if t.after.None? then Removed else Changed)
    && (t.before.None? ==> t.key !in m)
    && (t.before.Some? ==> t.key in m && m[t.key] == t.before.value.value)
    && (t.before.Some? || t.after.Some?)
    && (t.before.Some? && t.after.Some? ==> t.before.value.value != t.after.value.value)
  }

  function Fold(m: StateMap, ts: seq<Transition>): StateMap {
    if ts == [] then m else Step(Fold(m, ts[..|ts| - 1]), ts[|ts| - 1])
  }

  /** Every transition fits the state its predecessors leave: each Before is the previous After. */
  predicate Chained(m: StateMap, ts: seq<Transition>) {
    ts == [] || (Chained(m, ts[..|ts| - 1]) && Fits(Fold(m, ts[..|ts| - 1]), ts[|ts| - 1]))
  }

  lemma {:induction false} FoldConcat(m: StateMap, p: seq<Transition>, q: seq<Transition>)
    ensures Fold(m, p + q) == Fold(Fold(m, p), q)
    ensures Chained(m, p + q) <==> Chained(m, p) && Chained(Fold(m, p), q)
  {
    if q == [] {
      assert p + q == p;
    } else {
      var n := |q| - 1;
      assert (p + q)[..|p + q| - 1] == p + q[..n];
      FoldConcat(m, p, q[..n]);
    }
  }

  ghost function TransitionKeys(ts: seq<Transition>): set<StateKey> { set t | t in ts :: t.key }

  /** The later state on the given keys, the earlier one elsewhere. */
  ghost function Mixed(before: StateMap, after: StateMap, ks: set<StateKey>): StateMap {
    map k | k in before.Keys + after.Keys && (if k in ks then k in after else k in before) ::
      if k in ks then after[k] else before[k]
  }

  /** Transitions of one boundary are about different keys, so any of them may come first. */
  ghost predicate OrdersDiff(block: seq<Transition>, before: Material, after: Material, at: Time) {
    Distinct(block) && Elements(block) == Elements(Diff(before, after, at))
  }

  lemma StateOfFacts(m: Material, k: StateKey)
    ensures k in StateOf(m) <==> FactFor(m.facts, k).Some?
    ensures k in StateOf(m) ==> StateOf(m)[k] == FactFor(m.facts, k).value.value
  {
    FactForMember(m.facts, k);
  }

  /** The transition leads from its key's entry in one state to the entry in the other. */
  ghost predicate Bridges(before: StateMap, after: StateMap, t: Transition) {
    && t.kind == (if t.before.None? then Added else if t.after.None? then Removed else Changed)
    && (t.before.Some? || t.after.Some?)
    && (t.before.Some? <==> t.key in before)
    && (t.before.Some? ==> before[t.key] == t.before.value.value)
    && (t.after.Some? <==> t.key in after)
    && (t.after.Some? ==> after[t.key] == t.after.value.value)
    && (t.before.Some? && t.after.Some? ==> t.before.value.value != t.after.value.value)
  }

  lemma DiffBridges(before: Material, after: Material, at: Time, t: Transition)
    requires CanonicalMaterial(before) && CanonicalMaterial(after) && t in Diff(before, after, at)
    ensures Bridges(StateOf(before), StateOf(after), t) && t.at == at
  {
    InDiff(before, after, at, t);
    StateOfFacts(before, t.key);
    StateOfFacts(after, t.key);
    FactForMember(before.facts, t.key);
    FactForMember(after.facts, t.key);
    if t.before.Some? && t.after.Some? {
      CompareTermsIsOrder(t.before.value.value, t.after.value.value, t.before.value.value);
    }
  }

  lemma BlockKeysAreDistinct(block: seq<Transition>, before: Material, after: Material, at: Time, i: nat, j: nat)
    requires CanonicalMaterial(before) && CanonicalMaterial(after) && OrdersDiff(block, before, after, at)
    requires i < j < |block|
    ensures block[i].key != block[j].key
  {
    assert block[i] in Elements(block) && block[j] in Elements(block);
    InDiff(before, after, at, block[i]);
    InDiff(before, after, at, block[j]);
  }

  lemma StepMixed(before: StateMap, after: StateMap, ks: set<StateKey>, t: Transition)
    requires t.key !in ks && Bridges(before, after, t)
    ensures Fits(Mixed(before, after, ks), t)
    ensures Step(Mixed(before, after, ks), t) == Mixed(before, after, ks + {t.key})
  {
  }

  lemma KeysOneMore(block: seq<Transition>, n: nat)
    requires 0 < n <= |block|
    ensures block[..n][..n - 1] == block[..n - 1]
    ensures TransitionKeys(block[..n]) == TransitionKeys(block[..n - 1]) + {block[n - 1].key}
  {
    assert block[..n] == block[..n - 1] + [block[n - 1]];
  }

  lemma {:induction false} FoldPrefix(block: seq<Transition>, n: nat, before: StateMap, after: StateMap)
    requires n <= |block|
    requires forall t | t in block :: Bridges(before, after, t)
    requires forall i, j | 0 <= i < j < |block| :: block[i].key != block[j].key
    ensures Chained(before, block[..n])
    ensures Fold(before, block[..n]) == Mixed(before, after, TransitionKeys(block[..n]))
  {
    if n > 0 {
      FoldPrefix(block, n - 1, before, after);
      KeysOneMore(block, n);
      assert block[n - 1] in block;
      StepMixed(before, after, TransitionKeys(block[..n - 1]), block[n - 1]);
    }
  }

  /** Folding one boundary's transitions, in any order, leads from one state to the next. */
  lemma ReplayBlock(block: seq<Transition>, before: Material, after: Material, at: Time)
    requires CanonicalMaterial(before) && CanonicalMaterial(after)
    requires OrdersDiff(block, before, after, at)
    ensures Chained(StateOf(before), block) && Fold(StateOf(before), block) == StateOf(after)
  {
    forall t | t in block ensures Bridges(StateOf(before), StateOf(after), t) {
      assert t in Elements(block);
      DiffBridges(before, after, at, t);
    }
    forall i, j | 0 <= i < j < |block| ensures block[i].key != block[j].key {
      BlockKeysAreDistinct(block, before, after, at, i, j);
    }
    FoldPrefix(block, |block|, StateOf(before), StateOf(after));
    assert block[..|block|] == block;
    MixedIsAfter(block, before, after, at);
  }

  lemma MixedIsAfter(block: seq<Transition>, before: Material, after: Material, at: Time)
    requires CanonicalMaterial(before) && CanonicalMaterial(after)
    requires OrdersDiff(block, before, after, at)
    ensures Mixed(StateOf(before), StateOf(after), TransitionKeys(block)) == StateOf(after)
  {
    forall k { UnchangedKey(block, before, after, at, k); }
  }

  lemma UnchangedKey(block: seq<Transition>, before: Material, after: Material, at: Time, k: StateKey)
    requires CanonicalMaterial(before) && CanonicalMaterial(after)
    requires OrdersDiff(block, before, after, at)
    ensures k !in TransitionKeys(block) ==> (k in StateOf(before) <==> k in StateOf(after))
    ensures k !in TransitionKeys(block) && k in StateOf(before) ==> StateOf(before)[k] == StateOf(after)[k]
  {
    StateOfFacts(before, k);
    StateOfFacts(after, k);
    FactForMember(before.facts, k);
    FactForMember(after.facts, k);
    var ts := KeyTransition(before, after, at, k);
    if ts != [] {
      InDiff(before, after, at, ts[0]);
      assert ts[0] in Elements(block);
    } else if k in StateOf(before) && k in StateOf(after) {
      CompareTermsIsOrder(StateOf(before)[k], StateOf(after)[k], StateOf(before)[k]);
    }
  }

  // ---- transitions up to a time ----

  function Through(ts: seq<Transition>, t: Time): seq<Transition> {
    if ts == [] then []
    else Through(ts[..|ts| - 1], t) + if ts[|ts| - 1].at <= t then [ts[|ts| - 1]] else []
  }

  lemma {:induction false} ThroughConcat(p: seq<Transition>, q: seq<Transition>, t: Time)
    ensures Through(p + q, t) == Through(p, t) + Through(q, t)
  {
    if q == [] {
      assert p + q == p;
    } else {
      var n := |q| - 1;
      assert (p + q)[..|p + q| - 1] == p + q[..n];
      ThroughConcat(p, q[..n], t);
    }
  }

  lemma {:induction false} ThroughAll(ts: seq<Transition>, t: Time)
    ensures (forall u | u in ts :: u.at <= t) ==> Through(ts, t) == ts
    ensures (forall u | u in ts :: u.at > t) ==> Through(ts, t) == []
  {
    if ts != [] {
      ThroughAll(ts[..|ts| - 1], t);
      assert ts == ts[..|ts| - 1] + [ts[|ts| - 1]];
    }
  }
}
