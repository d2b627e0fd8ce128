/** Comparison of two window summaries (core/temporal/comparison.go). */
module Comparisons {
  import opened Results
  import opened Observations
  import opened Ordering
  import opened States
  import opened Eligibility
  import opened Materials
  import opened Aggregation
  import opened Transitions

  datatype Change = Change(kind: ChangeKind, key: StateKey, before: Option<Fact>, after: Option<Fact>)

  datatype Comparison = Comparison(
    before: TemporalSelection,
    after: TemporalSelection,
    beforeFacts: seq<Fact>,
    afterFacts: seq<Fact>,
    changes: seq<Change>,
    unresolvedKeys: seq<StateKey>,
    beforeUnresolved: seq<UnresolvedFact>,
    afterUnresolved: seq<UnresolvedFact>)

  datatype ComparisonError = InvalidBefore | InvalidAfter | UnorderedWindows

  type FactMap = map<StateKey, Fact>
  type UnresolvedMap = map<StateKey, UnresolvedFact>

  // ---- validation and normalization ----

  function TrimAll(ids: seq<string>): seq<string> {
    seq(|ids|, i requires 0 <= i < |ids| => TrimSpace(ids[i]))
  }

  /** normalizeObservationIDs and normalizeEvidenceIDs succeed. */
  ghost predicate ValidIds(ids: seq<string>) {
    "" !in TrimAll(ids) && Distinct(TrimAll(ids))
  }

  ghost function NormalIds(ids: seq<string>): seq<string> { Sorted(StringLess, Elements(TrimAll(ids))) }

  ghost predicate ValidFact(f: Fact) {
    && CanonicalKey(f.key) && CanonicalTerm(f.value)
    && f.observationIds != []
    && |f.supportingEvidenceIds| + |f.contradictingEvidenceIds| != 0
    && ValidIds(f.observationIds) && ValidIds(f.supportingEvidenceIds) && ValidIds(f.contradictingEvidenceIds)
  }

  ghost function NormalFact(f: Fact): Fact {
    f.(observationIds := NormalIds(f.observationIds),
       supportingEvidenceIds := NormalIds(f.supportingEvidenceIds),
       contradictingEvidenceIds := NormalIds(f.contradictingEvidenceIds))
  }

  ghost predicate ValidFacts(fs: seq<Fact>) {
    && (forall f | f in fs :: ValidFact(f))
    && (forall i, j | 0 <= i < j < |fs| :: fs[i].key != fs[j].key)
  }

  ghost predicate ValidCandidates(key: StateKey, fs: seq<Fact>) {
    && (forall f | f in fs :: CompareStateKeys(f.key, key) == 0 && ValidFact(f))
    && (forall i, j | 0 <= i < j < |fs| :: fs[i].value != fs[j].value)
  }

  ghost predicate ValidItem(u: UnresolvedFact) {
    && CanonicalKey(u.key)
    && u.candidates != []
    && (u.reason == ConflictingValues ==> |u.candidates| >= 2)
    && ValidCandidates(u.key, u.candidates)
  }

  ghost predicate ValidUnresolved(us: seq<UnresolvedFact>, fs: seq<Fact>) {
    && (forall u | u in us :: ValidItem(u) && forall f | f in fs :: f.key != u.key)
    && (forall i, j | 0 <= i < j < |us| :: us[i].key != us[j].key)
  }

  ghost predicate ValidSummary(s: Summary) {
    s.selection.WindowSelection? && ValidFacts(s.facts) && ValidUnresolved(s.unresolved, s.facts)
  }

  predicate ValueBefore(left: Fact, right: Fact) { TermLess(left.value, right.value) }

  predicate FactBefore(left: Fact, right: Fact) { KeyLess(left.key, right.key) }

  predicate ItemBefore(left: UnresolvedFact, right: UnresolvedFact) { KeyLess(left.key, right.key) }

  ghost function NormalFacts(fs: seq<Fact>): seq<Fact> { seq(|fs|, i requires 0 <= i < |fs| => NormalFact(fs[i])) }

  ghost function NormalItem(u: UnresolvedFact): UnresolvedFact {
    u.(candidates := Sorted(ValueBefore, Elements(NormalFacts(u.candidates))))
  }

  /** The map validateSummary builds from the facts of a valid summary. */
  ghost predicate HoldsFacts(facts: FactMap, fs: seq<Fact>) {
    && (forall k | k in facts :: exists f :: f in fs && f.key == k)
    && (forall f | f in fs :: f.key in facts && facts[f.key] == NormalFact(f))
  }

  ghost predicate HoldsItems(items: UnresolvedMap, us: seq<UnresolvedFact>) {
    && (forall k | k in items :: exists u :: u in us && u.key == k)
    && (forall u | u in us :: u.key in items && items[u.key] == NormalItem(u))
  }

  method NormalizeIds(ids: seq<string>) returns (r: Option<seq<string>>)
    ensures r == if ValidIds(ids) then Some(NormalIds(ids)) else None
  {
    var seen: set<string> := {};
    for i := 0 to |ids|
      invariant seen == Elements(TrimAll(ids)[..i])
      invariant "" !in TrimAll(ids)[..i] && Distinct(TrimAll(ids)[..i])
    {
      var id := TrimSpace(ids[i]);
      ghost var trimmed := TrimAll(ids);
      assert trimmed[..i + 1] == trimmed[..i] + [id];
      if id == "" {
        assert trimmed[i] == "";
        return None;
      }
      if id in seen {
        ghost var j :| 0 <= j < i && trimmed[j] == id;
        assert trimmed[i] == id;
        return None;
      }
      seen := seen + {id};
    }
    assert TrimAll(ids)[..|ids|] == TrimAll(ids);
    var sorted := SortStrings(seen);
    r := Some(sorted);
  }

  method ValidateFact(f: Fact) returns (r: Option<Fact>)
    ensures r == if ValidFact(f) then Some(NormalFact(f)) else None
  {
    if !CanonicalKey(f.key) || !CanonicalTerm(f.value) {
      return None;
    }
    if |f.observationIds| == 0 || |f.supportingEvidenceIds| + |f.contradictingEvidenceIds| == 0 {
      return None;
    }
    var observationIds := NormalizeIds(f.observationIds);
    if observationIds.None? {
      return None;
    }
    var supporting := NormalizeIds(f.supportingEvidenceIds);
    if supporting.None? {
      return None;
    }
    var contradicting := NormalizeIds(f.contradictingEvidenceIds);
    if contradicting.None? {
      return None;
    }
    r := Some(f.(observationIds := observationIds.value,
                 supportingEvidenceIds := supporting.value,
                 contradictingEvidenceIds := contradicting.value));
  }

  method ValidateFacts(fs: seq<Fact>) returns (r: Option<FactMap>)
    ensures r.Some? <==> ValidFacts(fs)
    ensures r.Some? ==> HoldsFacts(r.value, fs)
  {
    var facts: FactMap := map[];
    for i := 0 to |fs|
      invariant ValidFacts(fs[..i]) && HoldsFacts(facts, fs[..i])
    {
      assert fs[i] in fs && fs[..i + 1] == fs[..i] + [fs[i]];
      var normalized := ValidateFact(fs[i]);
      if normalized.None? {
        return None;
      }
      if fs[i].key in facts {
        var f :| f in fs[..i] && f.key == fs[i].key;
        return None;
      }
      facts := facts[fs[i].key := normalized.value];
    }
    assert fs[..|fs|] == fs;
    r := Some(facts);
  }

  method ValidateCandidates(key: StateKey, fs: seq<Fact>) returns (r: Option<seq<Fact>>)
    ensures r == if ValidCandidates(key, fs) then Some(NormalFacts(fs)) else None
  {
    var candidates: seq<Fact> := [];
    var seenValues: set<Term> := {};
    for i := 0 to |fs|
      invariant ValidCandidates(key, fs[..i]) && candidates == NormalFacts(fs[..i])
      invariant seenValues == set f | f in fs[..i] :: f.value
    {
      assert fs[i] in fs && fs[..i + 1] == fs[..i] + [fs[i]];
      if CompareStateKeys(fs[i].key, key) != 0 {
        return None;
      }
      var normalized := ValidateFact(fs[i]);
      if normalized.None? {
        return None;
      }
      if fs[i].value in seenValues {
        var f :| f in fs[..i] && f.value == fs[i].value;
        return None;
      }
      seenValues := seenValues + {fs[i].value};
      candidates := candidates + [normalized.value];
    }
    assert fs[..|fs|] == fs;
    r := Some(candidates);
  }

  lemma CandidateOrder(key: StateKey, fs: seq<Fact>)
    requires ValidCandidates(key, fs)
    ensures Distinct(NormalFacts(fs)) && StrictOrderOn(ValueBefore, Elements(NormalFacts(fs)))
  {
    NormalValues(key, fs);
    ValueOrder(Elements(NormalFacts(fs)));
  }

  lemma NormalValues(key: StateKey, fs: seq<Fact>)
    requires ValidCandidates(key, fs)
    ensures var normal := NormalFacts(fs);
      && Distinct(normal)
      && (forall f | f in Elements(normal) :: CanonicalTerm(f.value))
      && (forall f, g | f in Elements(normal) && g in Elements(normal) && f != g :: f.value != g.value)
  {
    var normal := NormalFacts(fs);
    forall i | 0 <= i < |normal| ensures normal[i].value == fs[i].value && CanonicalTerm(fs[i].value) {
      assert fs[i] in fs;
    }
  }

  lemma ValueOrder(s: set<Fact>)
    requires forall f | f in s :: CanonicalTerm(f.value)
    requires forall f, g | f in s && g in s && f != g :: f.value != g.value
    ensures StrictOrderOn(ValueBefore, s)
  {
    TermOrder(set f | f in s :: f.value);
  }

  method ValidateItem(u: UnresolvedFact) returns (r: Option<UnresolvedFact>)
    ensures r == if ValidItem(u) then Some(NormalItem(u)) else None
  {
    if !CanonicalKey(u.key) || |u.candidates| == 0 {
      return None;
    }
    if u.reason == ConflictingValues && |u.candidates| < 2 {
      return None;
    }
    var candidates := ValidateCandidates(u.key, u.candidates);
    if candidates.None? {
      return None;
    }
    CandidateOrder(u.key, u.candidates);
    var sorted := SortSlice(candidates.value, ValueBefore);
    r := Some(u.(candidates := sorted));
  }

  lemma OneMoreUnresolved(us: seq<UnresolvedFact>, fs: seq<Fact>, i: nat)
    requires i < |us| && ValidUnresolved(us[..i], fs)
    ensures ValidUnresolved(us[..i + 1], fs) <==>
      && ValidItem(us[i]) && (forall f | f in fs :: f.key != us[i].key) && (forall u | u in us[..i] :: u.key != us[i].key)
    ensures ValidUnresolved(us, fs) ==> ValidUnresolved(us[..i + 1], fs)
  {
    assert us[..i + 1] == us[..i] + [us[i]];
    assert forall u | u in us[..i + 1] :: u in us;
  }

  method ValidateUnresolved(us: seq<UnresolvedFact>, fs: seq<Fact>, facts: FactMap) returns (r: Option<UnresolvedMap>)
    requires HoldsFacts(facts, fs)
    ensures r.Some? <==> ValidUnresolved(us, fs)
    ensures r.Some? ==> HoldsItems(r.value, us)
  {
    var items: UnresolvedMap := map[];
    for i := 0 to |us|
      invariant ValidUnresolved(us[..i], fs) && HoldsItems(items, us[..i])
    {
      assert us[..i + 1] == us[..i] + [us[i]];
      OneMoreUnresolved(us, fs, i);
      var normalized := ValidateItem(us[i]);
      if normalized.None? || us[i].key in items || us[i].key in facts {
        return None;
      }
      items := items[us[i].key := normalized.value];
    }
    assert us[..|us|] == us;
    r := Some(items);
  }

  /** validateSummary. Its errors differ only in wording, which the model does not keep. */
  method ValidateSummary(s: Summary) returns (r: Option<(FactMap, UnresolvedMap)>)
    ensures r.Some? <==> ValidSummary(s)
    ensures r.Some? ==> HoldsFacts(r.value.0, s.facts) && HoldsItems(r.value.1, s.unresolved)
  {
    if !s.selection.WindowSelection? {
      return None;
    }
    var facts := ValidateFacts(s.facts);
    if facts.None? {
      return None;
    }
    var items := ValidateUnresolved(s.unresolved, s.facts, facts.value);
    if items.None? {
      return None;
    }
    r := Some((facts.value, items.value));
  }

  // ---- the comparison ----

  function KeyChange(k: StateKey, before: Option<Fact>, after: Option<Fact>): seq<Change> {
    var kind := KindOfChange(before, after);
    if kind.None? then [] else [Change(kind.value, k, before, after)]
  }

  /** Keys unresolved on either side are kept apart, in order. */
  ghost function UnresolvedAmong(ks: seq<StateKey>, before: UnresolvedMap, after: UnresolvedMap): seq<StateKey> {
    if ks == [] then []
    else
      var k := ks[|ks| - 1];
      UnresolvedAmong(ks[..|ks| - 1], before, after) + if k in before || k in after then [k] else []
  }

  ghost function ChangesAmong(
    ks: seq<StateKey>, before: FactMap, after: FactMap, beforeItems: UnresolvedMap, afterItems: UnresolvedMap)
    : seq<Change>
  {
    if ks == [] then []
    else
      var k := ks[|ks| - 1];
      ChangesAmong(ks[..|ks| - 1], before, after, beforeItems, afterItems) +
      if k in beforeItems || k in afterItems then [] else KeyChange(k, Lookup(before, k), Lookup(after, k))
  }

  ghost predicate CanonicalMaps(facts: FactMap, items: UnresolvedMap) {
    && (forall k | k in facts :: CanonicalKey(k) && facts[k].key == k)
    && (forall k | k in items :: CanonicalKey(k) && items[k].key == k)
  }

  ghost function ComparisonOf(
    before: TemporalSelection, after: TemporalSelection,
    beforeFacts: FactMap, afterFacts: FactMap, beforeItems: UnresolvedMap, afterItems: UnresolvedMap): Comparison
  {
    var ks := Sorted(KeyLess, beforeFacts.Keys + afterFacts.Keys + beforeItems.Keys + afterItems.Keys);
    Comparison(
      before, after,
      Sorted(FactBefore, beforeFacts.Values), Sorted(FactBefore, afterFacts.Values),
      ChangesAmong(ks, beforeFacts, afterFacts, beforeItems, afterItems),
      UnresolvedAmong(ks, beforeItems, afterItems),
      Sorted(ItemBefore, beforeItems.Values), Sorted(ItemBefore, afterItems.Values))
  }

  lemma HeldMapsAreCanonical(s: Summary, facts: FactMap, items: UnresolvedMap)
    requires ValidSummary(s) && HoldsFacts(facts, s.facts) && HoldsItems(items, s.unresolved)
    ensures CanonicalMaps(facts, items)
  {
    forall k | k in facts ensures CanonicalKey(k) && facts[k].key == k {
      var f :| f in s.facts && f.key == k;
    }
    forall k | k in items ensures CanonicalKey(k) && items[k].key == k {
      var u :| u in s.unresolved && u.key == k;
    }
  }

  lemma FactOrder(facts: FactMap)
    requires forall k | k in facts :: CanonicalKey(k) && facts[k].key == k
    ensures StrictOrderOn(FactBefore, facts.Values)
  {
    KeyOrder(facts.Keys);
    assert forall f | f in facts.Values :: f.key in facts.Keys && facts[f.key] == f;
  }

  lemma ItemOrder(items: UnresolvedMap)
    requires forall k | k in items :: CanonicalKey(k) && items[k].key == k
    ensures StrictOrderOn(ItemBefore, items.Values)
  {
    KeyOrder(items.Keys);
    assert forall u | u in items.Values :: u.key in items.Keys && items[u.key] == u;
  }

  method OrderedFacts(facts: FactMap) returns (ordered: seq<Fact>)
    requires forall k | k in facts :: CanonicalKey(k) && facts[k].key == k
    ensures ordered == Sorted(FactBefore, facts.Values)
  {
    FactOrder(facts);
    ordered := SortedElements(facts.Values, FactBefore);
  }

  method OrderedUnresolved(items: UnresolvedMap) returns (ordered: seq<UnresolvedFact>)
    requires forall k | k in items :: CanonicalKey(k) && items[k].key == k
    ensures ordered == Sorted(ItemBefore, items.Values)
  {
    ItemOrder(items);
    ordered := SortedElements(items.Values, ItemBefore);
  }

  method CompareMaps(
    before: TemporalSelection, after: TemporalSelection,
    beforeFacts: FactMap, afterFacts: FactMap, beforeItems: UnresolvedMap, afterItems: UnresolvedMap)
    returns (c: Comparison)
    requires CanonicalMaps(beforeFacts, beforeItems) && CanonicalMaps(afterFacts, afterItems)
    ensures c == ComparisonOf(before, after, beforeFacts, afterFacts, beforeItems, afterItems)
  {
    var orderedKeys := SortKeys(beforeFacts.Keys + afterFacts.Keys + beforeItems.Keys + afterItems.Keys);
    var orderedBefore := OrderedFacts(beforeFacts);
    var orderedAfter := OrderedFacts(afterFacts);
    var itemsBefore := OrderedUnresolved(beforeItems);
    var itemsAfter := OrderedUnresolved(afterItems);
    var changes, unresolvedKeys := ChangedKeys(orderedKeys, beforeFacts, afterFacts, beforeItems, afterItems);
    c := Comparison(before, after, orderedBefore, orderedAfter, changes, unresolvedKeys, itemsBefore, itemsAfter);
  }

  /** The loop of CompareWindowSummaries. */
  method ChangedKeys(
    ks: seq<StateKey>,
    beforeFacts: FactMap, afterFacts: FactMap, beforeItems: UnresolvedMap, afterItems: UnresolvedMap)
    returns (changes: seq<Change>, unresolvedKeys: seq<StateKey>)
    ensures changes == ChangesAmong(ks, beforeFacts, afterFacts, beforeItems, afterItems)
    ensures unresolvedKeys == UnresolvedAmong(ks, beforeItems, afterItems)
  {
    changes := [];
    unresolvedKeys := [];
    for i := 0 to |ks|
      invariant changes == ChangesAmong(ks[..i], beforeFacts, afterFacts, beforeItems, afterItems)
      invariant unresolvedKeys == UnresolvedAmong(ks[..i], beforeItems, afterItems)
    {
      var k := ks[i];
      assert ks[..i + 1][..i] == ks[..i];
      if k in beforeItems {
        unresolvedKeys := unresolvedKeys + [k];
        continue;
      }
      if k in afterItems {
        unresolvedKeys := unresolvedKeys + [k];
        continue;
      }
      changes := changes + KeyChange(k, Lookup(beforeFacts, k), Lookup(afterFacts, k));
    }
    assert ks[..|ks|] == ks;
  }

  method CompareWindowSummaries(before: Summary, after: Summary) returns (r: Result<Comparison, ComparisonError>)
    ensures r == CompareSpec(before, after)
  {
    var validBefore := ValidateSummary(before);
    if validBefore.None? {
      return Err(InvalidBefore);
    }
    var validAfter := ValidateSummary(after);
    if validAfter.None? {
      return Err(InvalidAfter);
    }
    if after.selection.start <= before.selection.start {
      return Err(UnorderedWindows);
    }
    HeldMapsAreCanonical(before, validBefore.value.0, validBefore.value.1);
    HeldMapsAreCanonical(after, validAfter.value.0, validAfter.value.1);
    var c := CompareMaps(before.selection, after.selection, validBefore.value.0, validAfter.value.0,
                         validBefore.value.1, validAfter.value.1);
    HeldFactsAreUnique(validBefore.value.0, before.facts);
    HeldFactsAreUnique(validAfter.value.0, after.facts);
    HeldItemsAreUnique(validBefore.value.1, before.unresolved);
    HeldItemsAreUnique(validAfter.value.1, after.unresolved);
    r := Ok(c);
  }

  ghost function FactsHeld(fs: seq<Fact>): FactMap {
    map k | k in (set f | f in fs :: f.key) && FactFor(fs, k).Some? :: NormalFact(FactFor(fs, k).value)
  }

  ghost function ItemsHeld(us: seq<UnresolvedFact>): UnresolvedMap {
    map k | k in (set u | u in us :: u.key) && UnresolvedFor(us, k).Some? :: NormalItem(UnresolvedFor(us, k).value)
  }

  lemma HeldFactsAreUnique(facts: FactMap, fs: seq<Fact>)
    requires HoldsFacts(facts, fs)
    ensures facts == FactsHeld(fs)
  {
    forall k { FactForMember(fs, k); }
  }

  lemma HeldItemsAreUnique(items: UnresolvedMap, us: seq<UnresolvedFact>)
    requires HoldsItems(items, us)
    ensures items == ItemsHeld(us)
  {
    forall k { UnresolvedForMember(us, k); }
  }

  ghost function CompareSpec(before: Summary, after: Summary): Result<Comparison, ComparisonError> {
    if !ValidSummary(before) then Err(InvalidBefore)
    else if !ValidSummary(after) then Err(InvalidAfter)
    else if after.selection.start <= before.selection.start then Err(UnorderedWindows)
    else Ok(ComparisonOf(before.selection, after.selection, FactsHeld(before.facts), FactsHeld(after.facts),
                         ItemsHeld(before.unresolved), ItemsHeld(after.unresolved)))
  }
}
