/** What a set of entries means: for each key one resolved fact or one unresolved item. */
module Materials {
  import opened Observations
  import opened Ordering
  import opened States
  import opened Eligibility
  import opened Claims

  datatype UnresolvedReason =
    | ConflictingValues
    | MultipleStatesInWindow
    | TemporalUncertainty
    | HypothesizedOnly
    | CounterevidenceOnly

  datatype UnresolvedFact = UnresolvedFact(key: StateKey, reason: UnresolvedReason, candidates: seq<Fact>)

  datatype Material = Material(facts: seq<Fact>, unresolved: seq<UnresolvedFact>)

  // ---- parts of a set of entries ----

  ghost function Keys(entries: set<Entry>): set<StateKey> { set e | e in entries :: e.claim.key }

  ghost function WithKey(entries: set<Entry>, k: StateKey): set<Entry> { set e | e in entries && e.claim.key == k }

  ghost function Values(entries: set<Entry>): set<Term> { set e | e in entries :: e.claim.value }

  ghost function WithValue(entries: set<Entry>, v: Term): set<Entry> {
    set e | e in entries && e.claim.value == v
  }

  ghost function WithRole(entries: set<Entry>, r: Role): set<Entry> { set e | e in entries && e.role == r }

  ghost function TentativePart(entries: set<Entry>): set<Entry> { set e | e in entries && Tentative(e.role) }

  ghost function ClaimsIn(entries: set<Entry>): set<Claim> { set e | e in entries :: e.claim }

  ghost function Ids(entries: set<Entry>): set<string> { ClaimIds(ClaimsIn(entries)) }

  ghost function Evidence(entries: set<Entry>, role: EvidenceRole): set<string> { EvidenceOf(ClaimsIn(entries), role) }

  // ---- outcome of one key ----

  /** Every entry of the group, tentative ones included, names `v`; none is counterevidence only;
      at least one supports `v` outright. */
  ghost predicate ResolvesTo(group: set<Entry>, v: Term) {
    && (forall e | e in group :: e.claim.value == v && !e.role.CounterOnly?)
    && (exists e | e in group :: e.role.Supported?)
  }

  ghost predicate Resolved(group: set<Entry>) {
    exists v | v in Values(group) :: ResolvesTo(group, v)
  }

  ghost function ResolvedValue(group: set<Entry>): (v: Term)
    requires Resolved(group)
    ensures ResolvesTo(group, v)
  {
    var v :| v in Values(group) && ResolvesTo(group, v);
    v
  }

  /** Some tentative entry of the given role names a value nothing supports outright. */
  ghost predicate HasAlternative(group: set<Entry>, r: Role) {
    exists e | e in group :: e.role == r && e.claim.value !in Values(WithRole(group, Supported))
  }

  /** Two entries support different values outright and their extents overlap. */
  ghost predicate Conflicting(group: set<Entry>, e: Entry, f: Entry) {
    && e in group && f in group && e.role.Supported? && f.role.Supported? && e.claim.value != f.claim.value
    && ExtentsOverlap(e.claim.observation.validTime, f.claim.observation.validTime)
  }

  ghost predicate SupportedValuesOverlap(group: set<Entry>) {
    exists e, f :: Conflicting(group, e, f)
  }

  /** unresolvedReason, fallback included. */
  ghost function ReasonFor(group: set<Entry>): UnresolvedReason {
    if HasAlternative(group, TentativeInTime) then TemporalUncertainty
    else if HasAlternative(group, TentativeByHypothesis) then HypothesizedOnly
    else if |Values(WithRole(group, Supported)) + Values(TentativePart(group))| > 1 then
      if SupportedValuesOverlap(group) then ConflictingValues else MultipleStatesInWindow
    else if WithRole(group, CounterOnly) != {} then CounterevidenceOnly
    else HypothesizedOnly
  }

  ghost function FactOf(k: StateKey, v: Term, entries: set<Entry>): Fact {
    Fact(k, v, Sorted(StringLess, Ids(entries)),
         Sorted(StringLess, Evidence(entries, Supporting)), Sorted(StringLess, Evidence(entries, Contradicting)))
  }

  ghost function ResolvedFact(k: StateKey, group: set<Entry>): Fact
    requires Resolved(group)
  {
    FactOf(k, ResolvedValue(group), WithRole(group, Supported))
  }

  /** One candidate per value, carrying every entry of that value whatever its role. */
  ghost function CandidateFacts(k: StateKey, vs: seq<Term>, group: set<Entry>): seq<Fact> {
    seq(|vs|, i requires 0 <= i < |vs| => FactOf(k, vs[i], WithValue(group, vs[i])))
  }

  ghost function UnresolvedItem(k: StateKey, group: set<Entry>): UnresolvedFact {
    UnresolvedFact(k, ReasonFor(group), CandidateFacts(k, Sorted(TermLess, Values(group)), group))
  }

  // ---- outcome of all keys ----

  ghost function FactsOver(ks: seq<StateKey>, entries: set<Entry>): seq<Fact> {
    if ks == [] then []
    else
      var n := |ks| - 1;
      var group := WithKey(entries, ks[n]);
      FactsOver(ks[..n], entries) + if Resolved(group) then [ResolvedFact(ks[n], group)] else []
  }

  ghost function UnresolvedOver(ks: seq<StateKey>, entries: set<Entry>): seq<UnresolvedFact> {
    if ks == [] then []
    else
      var n := |ks| - 1;
      var group := WithKey(entries, ks[n]);
      UnresolvedOver(ks[..n], entries) + if Resolved(group) then [] else [UnresolvedItem(ks[n], group)]
  }

  ghost function MaterialOf(entries: set<Entry>): Material {
    var ks := Sorted(KeyLess, Keys(entries));
    Material(FactsOver(ks, entries), UnresolvedOver(ks, entries))
  }

  // ---- membership in the outcome ----

  lemma {:induction false} InFactsOver(ks: seq<StateKey>, entries: set<Entry>, f: Fact)
    ensures f in FactsOver(ks, entries) <==>
      exists k | k in ks :: Resolved(WithKey(entries, k)) && f == ResolvedFact(k, WithKey(entries, k))
  {
    if ks != [] {
      var n := |ks| - 1;
      InFactsOver(ks[..n], entries, f);
      assert ks == ks[..n] + [ks[n]];
    }
  }

  lemma {:induction false} InUnresolvedOver(ks: seq<StateKey>, entries: set<Entry>, u: UnresolvedFact)
    ensures u in UnresolvedOver(ks, entries) <==>
      exists k | k in ks :: !Resolved(WithKey(entries, k)) && u == UnresolvedItem(k, WithKey(entries, k))
  {
    if ks != [] {
      var n := |ks| - 1;
      InUnresolvedOver(ks[..n], entries, u);
      assert ks == ks[..n] + [ks[n]];
    }
  }

  lemma FactsOfMaterial(entries: set<Entry>, f: Fact)
    requires CanonicalEntries(entries)
    ensures f in MaterialOf(entries).facts <==>
      && f.key in Keys(entries) && Resolved(WithKey(entries, f.key))
      && f == ResolvedFact(f.key, WithKey(entries, f.key))
  {
    var ks := Sorted(KeyLess, Keys(entries));
    SortedKeysElements(Keys(entries));
    InFactsOver(ks, entries, f);
    assert forall k :: k in ks <==> k in Elements(ks);
  }

  lemma UnresolvedOfMaterial(entries: set<Entry>, u: UnresolvedFact)
    requires CanonicalEntries(entries)
    ensures u in MaterialOf(entries).unresolved <==>
      && u.key in Keys(entries) && !Resolved(WithKey(entries, u.key))
      && u == UnresolvedItem(u.key, WithKey(entries, u.key))
  {
    var ks := Sorted(KeyLess, Keys(entries));
    SortedKeysElements(Keys(entries));
    InUnresolvedOver(ks, entries, u);
    assert forall k :: k in ks <==> k in Elements(ks);
  }

  // ---- the reasons are an exact classification ----

  lemma TwoValues(s: set<Term>)
    ensures |s| > 1 <==> exists v, w | v in s && w in s :: v != w
  {
    if v, w :| v in s && w in s && v != w {
      assert |s - {v, w}| == |s| - |{v, w}|;
    }
    if |s| > 1 {
      var v :| v in s;
      assert |s - {v}| == |s| - 1;
      var w :| w in s - {v};
      assert v != w;
    }
  }

  /** Two entries of the group support different values outright. */
  ghost predicate SupportsTwoValues(group: set<Entry>) {
    exists e, f | e in group && f in group :: e.role.Supported? && f.role.Supported? && e.claim.value != f.claim.value
  }

  lemma SupportedValueWitnesses(group: set<Entry>)
    ensures SupportsTwoValues(group) <==> |Values(WithRole(group, Supported))| > 1
  {
    var supported := Values(WithRole(group, Supported));
    TwoValues(supported);
    if v, w :| v in supported && w in supported && v != w {
      var e :| e in WithRole(group, Supported) && e.claim.value == v;
      var f :| f in WithRole(group, Supported) && f.claim.value == w;
      assert e in group && f in group && e.role.Supported? && f.role.Supported?;
    }
    if e, f :| e in group && f in group && e.role.Supported? && f.role.Supported? && e.claim.value != f.claim.value {
      assert e in WithRole(group, Supported) && f in WithRole(group, Supported);
      assert e.claim.value in supported && f.claim.value in supported;
    }
  }

  /** Each reason is given exactly when its own condition holds and no earlier one does, and the
      five conditions cover every group that is not resolved: the last fallback is never needed. */
  lemma ReasonIsExactClassification(group: set<Entry>)
    requires group != {} && !Resolved(group)
    ensures ReasonFor(group) == TemporalUncertainty <==> HasAlternative(group, TentativeInTime)
    ensures ReasonFor(group) == HypothesizedOnly <==>
      !HasAlternative(group, TentativeInTime) && HasAlternative(group, TentativeByHypothesis)
    ensures ReasonFor(group) == ConflictingValues <==>
      && !HasAlternative(group, TentativeInTime) && !HasAlternative(group, TentativeByHypothesis)
      && SupportedValuesOverlap(group)
    ensures ReasonFor(group) == MultipleStatesInWindow <==>
      && !HasAlternative(group, TentativeInTime) && !HasAlternative(group, TentativeByHypothesis)
      && SupportsTwoValues(group) && !SupportedValuesOverlap(group)
    ensures ReasonFor(group) == CounterevidenceOnly <==>
      && !HasAlternative(group, TentativeInTime) && !HasAlternative(group, TentativeByHypothesis)
      && !SupportsTwoValues(group) && exists e :: e in group && e.role.CounterOnly?
  {
    var supported := Values(WithRole(group, Supported));
    var substantive := supported + Values(TentativePart(group));
    if !HasAlternative(group, TentativeInTime) && !HasAlternative(group, TentativeByHypothesis) {
      assert substantive == supported;
      TwoValues(supported);
      SupportedValueWitnesses(group);
      if WithRole(group, CounterOnly) == {} && !SupportsTwoValues(group) {
        var e :| e in group;
        assert e.role.Supported? || Tentative(e.role) by { assert e !in WithRole(group, CounterOnly); }
        assert e.claim.value in supported;
        forall d | d in group ensures d.claim.value == e.claim.value && !d.role.CounterOnly? {
          assert d !in WithRole(group, CounterOnly);
          assert d.claim.value in supported;
        }
        assert ResolvesTo(group, e.claim.value);
      }
    }
  }
}
