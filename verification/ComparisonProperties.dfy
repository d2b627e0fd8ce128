/** Aggregation composes with comparison: aggregated windows are always accepted, nothing is lost in
    normalizing them, and the changes patch one state into the other. */
module ComparisonProperties {
  import opened Results
  import opened Observations
  import opened Ordering
  import opened States
  import opened Eligibility
  import opened Claims
  import opened Materials
  import opened Aggregation
  import opened StateProperties
  import opened Transitions
  import opened Replay
  import opened Comparisons

  // ---- patching ----

  ghost function ValuesOf(facts: FactMap): StateMap { map k | k in facts :: facts[k].value }

  function Patch(m: StateMap, changes: seq<Change>): StateMap {
    if changes == [] then m
    else
      var last := changes[|changes| - 1];
      Assigned(Patch(m, changes[..|changes| - 1]), last.key, last.after)
  }

  lemma {:induction false} PatchConcat(m: StateMap, p: seq<Change>, q: seq<Change>)
    ensures Patch(m, p + q) == Patch(Patch(m, p), q)
  {
    if q == [] {
      assert p + q == p;
    } else {
      assert (p + q)[..|p + q| - 1] == p + q[..|q| - 1];
      PatchConcat(m, p, q[..|q| - 1]);
    }
  }

  ghost predicate CanonicalValues(facts: FactMap) {
    forall k | k in facts :: CanonicalTerm(facts[k].value)
  }

  lemma PatchOneKey(m: StateMap, before: FactMap, after: FactMap, k: StateKey)
    requires CanonicalValues(before) && CanonicalValues(after)
    requires Lookup(m, k) == Lookup(ValuesOf(before), k)
    ensures var patched := Patch(m, KeyChange(k, Lookup(before, k), Lookup(after, k)));
      Lookup(patched, k) == Lookup(ValuesOf(after), k) && forall j | j != k :: Lookup(patched, j) == Lookup(m, j)
  {
    var cs := KeyChange(k, Lookup(before, k), Lookup(after, k));
    if |cs| == 1 {
      assert cs[..0] == [];
    } else if k in before && k in after {
      CompareTermsIsOrder(before[k].value, after[k].value, before[k].value);
    }
  }

  lemma {:induction false} PatchAmong(
    ks: seq<StateKey>, before: FactMap, after: FactMap, beforeItems: UnresolvedMap, afterItems: UnresolvedMap, j: StateKey)
    requires Distinct(ks) && CanonicalValues(before) && CanonicalValues(after)
    ensures Lookup(Patch(ValuesOf(before), ChangesAmong(ks, before, after, beforeItems, afterItems)), j)
         == if j in ks && j !in beforeItems && j !in afterItems then Lookup(ValuesOf(after), j)
            else Lookup(ValuesOf(before), j)
  {
    if ks != [] {
      var (init, k) := (ks[..|ks| - 1], ks[|ks| - 1]);
      PatchAmong(init, before, after, beforeItems, afterItems, j);
      PatchAmong(init, before, after, beforeItems, afterItems, k);
      if k !in beforeItems && k !in afterItems {
        var m := Patch(ValuesOf(before), ChangesAmong(init, before, after, beforeItems, afterItems));
        PatchConcat(ValuesOf(before), ChangesAmong(init, before, after, beforeItems, afterItems),
                    KeyChange(k, Lookup(before, k), Lookup(after, k)));
        PatchOneKey(m, before, after, k);
      } else {
        assert ChangesAmong(ks, before, after, beforeItems, afterItems)
            == ChangesAmong(init, before, after, beforeItems, afterItems);
      }
    }
  }

  /** Patching the earlier values with the changes gives the later values on every key that is not
      unresolved on a side; those keys are left as they were. */
  lemma ChangesPatchBeforeIntoAfter(
    selections: (TemporalSelection, TemporalSelection),
    before: FactMap, after: FactMap, beforeItems: UnresolvedMap, afterItems: UnresolvedMap, k: StateKey)
    requires CanonicalMaps(before, beforeItems) && CanonicalMaps(after, afterItems)
    requires CanonicalValues(before) && CanonicalValues(after)
    ensures var c := ComparisonOf(selections.0, selections.1, before, after, beforeItems, afterItems);
      Lookup(Patch(ValuesOf(before), c.changes), k)
      == if k in beforeItems || k in afterItems then Lookup(ValuesOf(before), k) else Lookup(ValuesOf(after), k)
  {
    var keys := before.Keys + after.Keys + beforeItems.Keys + afterItems.Keys;
    var ks := Sorted(KeyLess, keys);
    KeyOrder(keys);
    SortedIsSorted(KeyLess, keys);
    KeysAreDistinct(ks);
    PatchAmong(ks, before, after, beforeItems, afterItems, k);
    assert k in ks <==> k in Elements(ks);
  }

  lemma KeysAreDistinct(ks: seq<StateKey>)
    requires StrictlySorted(KeyLess, ks) && StrictOrderOn(KeyLess, Elements(ks))
    ensures Distinct(ks)
  {
    forall i, j | 0 <= i < j < |ks| ensures ks[i] != ks[j] {
      assert KeyLess(ks[i], ks[j]) && ks[i] in Elements(ks);
    }
  }

  // ---- every key has one place ----

  lemma {:induction false} InChangesAmong(
    ks: seq<StateKey>, before: FactMap, after: FactMap, beforeItems: UnresolvedMap, afterItems: UnresolvedMap, c: Change)
    ensures c in ChangesAmong(ks, before, after, beforeItems, afterItems) <==>
      && c.key in ks && c.key !in beforeItems && c.key !in afterItems
      && KeyChange(c.key, Lookup(before, c.key), Lookup(after, c.key)) == [c]
  {
    if ks != [] {
      var (init, k) := (ks[..|ks| - 1], ks[|ks| - 1]);
      InChangesAmong(init, before, after, beforeItems, afterItems, c);
      assert ks == init + [k];
      InKeyChange(k, Lookup(before, k), Lookup(after, k), c);
    }
  }

  lemma InKeyChange(k: StateKey, before: Option<Fact>, after: Option<Fact>, c: Change)
    ensures c in KeyChange(k, before, after) <==> c.key == k && KeyChange(k, before, after) == [c]
  {
  }

  lemma {:induction false} InUnresolvedAmong(ks: seq<StateKey>, before: UnresolvedMap, after: UnresolvedMap, k: StateKey)
    ensures k in UnresolvedAmong(ks, before, after) <==> k in ks && (k in before || k in after)
  {
    if ks != [] {
      InUnresolvedAmong(ks[..|ks| - 1], before, after, k);
      assert ks == ks[..|ks| - 1] + [ks[|ks| - 1]];
    }
  }

  ghost predicate ChangedAs(c: Comparison, k: StateKey, kind: ChangeKind) {
    exists d | d in c.changes :: d.key == k && d.kind == kind
  }

  /** Unresolved keys are those unresolved on a side; the others are added, removed, changed or
      unchanged exactly by their two entries. */
  lemma EveryKeyHasOnePlace(
    selections: (TemporalSelection, TemporalSelection),
    before: FactMap, after: FactMap, beforeItems: UnresolvedMap, afterItems: UnresolvedMap, k: StateKey)
    requires CanonicalMaps(before, beforeItems) && CanonicalMaps(after, afterItems)
    requires CanonicalValues(before) && CanonicalValues(after)
    ensures var c := ComparisonOf(selections.0, selections.1, before, after, beforeItems, afterItems);
      && (k in c.unresolvedKeys <==> k in beforeItems || k in afterItems)
      && (ChangedAs(c, k, Added) <==> k !in c.unresolvedKeys && k !in before && k in after)
      && (ChangedAs(c, k, Removed) <==> k !in c.unresolvedKeys && k in before && k !in after)
      && (ChangedAs(c, k, Changed) <==>
            k !in c.unresolvedKeys && k in before && k in after && before[k].value != after[k].value)
  {
    var keys := before.Keys + after.Keys + beforeItems.Keys + afterItems.Keys;
    var ks := Sorted(KeyLess, keys);
    var changes := ChangesAmong(ks, before, after, beforeItems, afterItems);
    SortedKeysElements(keys);
    assert k in ks <==> k in Elements(ks);
    InUnresolvedAmong(ks, beforeItems, afterItems, k);
    forall c { InChangesAmong(ks, before, after, beforeItems, afterItems, c); }
    OwnChange(before, after, k);
  }

  /** The change of one resolved key. */
  lemma OwnChange(before: FactMap, after: FactMap, k: StateKey)
    requires CanonicalValues(before) && CanonicalValues(after)
    ensures var own := KeyChange(k, Lookup(before, k), Lookup(after, k));
      && |own| <= 1 && (forall c | c in own :: c.key == k)
      && ((exists c | c in own :: c.kind == Added) <==> k !in before && k in after)
      && ((exists c | c in own :: c.kind == Removed) <==> k in before && k !in after)
      && ((exists c | c in own :: c.kind == Changed) <==> k in before && k in after && before[k].value != after[k].value)
  {
    if k in before && k in after {
      CompareTermsIsOrder(before[k].value, after[k].value, before[k].value);
    }
    var own := KeyChange(k, Lookup(before, k), Lookup(after, k));
    if |own| == 1 {
      assert own == [own[0]] && own[0].key == k;
    }
  }

  // ---- the changes, whole facts included ----

  ghost predicate ChangeBefore(c: Change, d: Change) { KeyLess(c.key, d.key) }

  /** The change tells how the key goes from the one list of facts to the other. */
  ghost predicate TellsSides(d: Change, before: seq<Fact>, after: seq<Fact>) {
    Turns(d.kind, d.before, d.after) && IsSide(before, d.key, d.before) && IsSide(after, d.key, d.after)
  }

  /** Changed keys and unresolved keys come in key order, and never the same key twice. A key is unresolved
      exactly when a side has an unresolved item for it; the changes are exactly those of the other keys. */
  ghost predicate ListsChanges(c: Comparison) {
    && StrictlySorted(ChangeBefore, c.changes) && StrictlySorted(KeyLess, c.unresolvedKeys)
    && (forall k :: k in c.unresolvedKeys <==>
          (exists u :: u in c.beforeUnresolved && u.key == k) || (exists u :: u in c.afterUnresolved && u.key == k))
    && (forall d: Change :: d in c.changes <==> d.key !in c.unresolvedKeys && TellsSides(d, c.beforeFacts, c.afterFacts))
  }

  lemma {:induction false} ChangesInOrder(
    ks: seq<StateKey>, before: FactMap, after: FactMap, beforeItems: UnresolvedMap, afterItems: UnresolvedMap)
    requires StrictlySorted(KeyLess, ks)
    ensures StrictlySorted(ChangeBefore, ChangesAmong(ks, before, after, beforeItems, afterItems))
    ensures StrictlySorted(KeyLess, UnresolvedAmong(ks, beforeItems, afterItems))
  {
    if ks != [] {
      var (init, k) := (ks[..|ks| - 1], ks[|ks| - 1]);
      ChangesInOrder(init, before, after, beforeItems, afterItems);
      var changes, keys := ChangesAmong(init, before, after, beforeItems, afterItems), UnresolvedAmong(init, beforeItems, afterItems);
      forall i | 0 <= i < |changes| ensures KeyLess(changes[i].key, k) {
        InChangesAmong(init, before, after, beforeItems, afterItems, changes[i]);
      }
      forall i | 0 <= i < |keys| ensures KeyLess(keys[i], k) {
        InUnresolvedAmong(init, beforeItems, afterItems, keys[i]);
      }
    }
  }

  /** `fs` lists the facts of the map. */
  ghost predicate ListsFacts(fs: seq<Fact>, facts: FactMap) {
    (forall f | f in fs :: f.key in facts && facts[f.key] == f) && (forall k | k in facts :: facts[k] in fs && facts[k].key == k)
  }

  ghost predicate ListsItems(us: seq<UnresolvedFact>, items: UnresolvedMap) {
    (forall u | u in us :: u.key in items && items[u.key] == u) && (forall k | k in items :: items[k] in us && items[k].key == k)
  }

  lemma SideOfMap(fs: seq<Fact>, facts: FactMap, k: StateKey, side: Option<Fact>)
    requires ListsFacts(fs, facts)
    ensures IsSide(fs, k, side) <==> side == Lookup(facts, k)
  {
  }

  lemma ItemsOfMap(us: seq<UnresolvedFact>, items: UnresolvedMap, k: StateKey)
    requires ListsItems(us, items)
    ensures k in items <==> exists u :: u in us && u.key == k
  {
    if k in items { assert items[k] in us && items[k].key == k; }
  }

  lemma ChangeOfKey(before: FactMap, after: FactMap, d: Change)
    requires CanonicalValues(before) && CanonicalValues(after)
    ensures KeyChange(d.key, Lookup(before, d.key), Lookup(after, d.key)) == [d] <==>
      d.before == Lookup(before, d.key) && d.after == Lookup(after, d.key) && Turns(d.kind, d.before, d.after)
  {
    forall kind { KindIsTurn(Lookup(before, d.key), Lookup(after, d.key), kind); }
  }

  lemma TurnsSomewhere(before: FactMap, after: FactMap, d: Change)
    requires d.before == Lookup(before, d.key) && d.after == Lookup(after, d.key) && Turns(d.kind, d.before, d.after)
    ensures d.key in before || d.key in after
  {
  }

  lemma ComparisonListsChanges(
    selections: (TemporalSelection, TemporalSelection),
    before: FactMap, after: FactMap, beforeItems: UnresolvedMap, afterItems: UnresolvedMap)
    requires CanonicalMaps(before, beforeItems) && CanonicalMaps(after, afterItems)
    requires CanonicalValues(before) && CanonicalValues(after)
    ensures ListsChanges(ComparisonOf(selections.0, selections.1, before, after, beforeItems, afterItems))
  {
    var c := ComparisonOf(selections.0, selections.1, before, after, beforeItems, afterItems);
    var keys := before.Keys + after.Keys + beforeItems.Keys + afterItems.Keys;
    var ks := Sorted(KeyLess, keys);
    KeysInOrder(keys);
    ChangesInOrder(ks, before, after, beforeItems, afterItems);
    MapsAreListed(before, beforeItems);
    MapsAreListed(after, afterItems);
    UnresolvedKeysListed(ks, beforeItems, afterItems, c.beforeUnresolved, c.afterUnresolved);
    ChangesListed(ks, before, after, beforeItems, afterItems, c.beforeFacts, c.afterFacts);
  }

  lemma KeysInOrder(keys: set<StateKey>)
    requires forall k | k in keys :: CanonicalKey(k)
    ensures StrictlySorted(KeyLess, Sorted(KeyLess, keys)) && forall k :: k in Sorted(KeyLess, keys) <==> k in keys
  {
    KeyOrder(keys);
    SortedIsSorted(KeyLess, keys);
    forall k ensures k in Sorted(KeyLess, keys) <==> k in keys {
      assert k in Sorted(KeyLess, keys) <==> k in Elements(Sorted(KeyLess, keys));
    }
  }

  lemma UnresolvedKeysListed(
    ks: seq<StateKey>, beforeItems: UnresolvedMap, afterItems: UnresolvedMap, us: seq<UnresolvedFact>, vs: seq<UnresolvedFact>)
    requires ListsItems(us, beforeItems) && ListsItems(vs, afterItems)
    requires forall k | k in beforeItems || k in afterItems :: k in ks
    ensures forall k :: k in UnresolvedAmong(ks, beforeItems, afterItems) <==>
      (exists u :: u in us && u.key == k) || (exists u :: u in vs && u.key == k)
  {
    forall k
      ensures k in UnresolvedAmong(ks, beforeItems, afterItems) <==>
        (exists u :: u in us && u.key == k) || (exists u :: u in vs && u.key == k)
    {
      InUnresolvedAmong(ks, beforeItems, afterItems, k);
      ItemsOfMap(us, beforeItems, k);
      ItemsOfMap(vs, afterItems, k);
    }
  }

  lemma ChangesListed(
    ks: seq<StateKey>, before: FactMap, after: FactMap, beforeItems: UnresolvedMap, afterItems: UnresolvedMap,
    fs: seq<Fact>, gs: seq<Fact>)
    requires ListsFacts(fs, before) && ListsFacts(gs, after) && CanonicalValues(before) && CanonicalValues(after)
    requires forall k | k in before || k in after || k in beforeItems || k in afterItems :: k in ks
    ensures forall d: Change :: d in ChangesAmong(ks, before, after, beforeItems, afterItems) <==>
      d.key !in UnresolvedAmong(ks, beforeItems, afterItems) && TellsSides(d, fs, gs)
  {
    forall d: Change
      ensures d in ChangesAmong(ks, before, after, beforeItems, afterItems) <==>
        d.key !in UnresolvedAmong(ks, beforeItems, afterItems) && TellsSides(d, fs, gs)
    {
      InChangesAmong(ks, before, after, beforeItems, afterItems, d);
      InUnresolvedAmong(ks, beforeItems, afterItems, d.key);
      ChangeOfKey(before, after, d);
      SideOfMap(fs, before, d.key, d.before);
      SideOfMap(gs, after, d.key, d.after);
      if TellsSides(d, fs, gs) { TurnsSomewhere(before, after, d); }
    }
  }

  lemma MapsAreListed(facts: FactMap, items: UnresolvedMap)
    requires CanonicalMaps(facts, items)
    ensures ListsFacts(Sorted(FactBefore, facts.Values), facts) && StrictlySorted(FactBefore, Sorted(FactBefore, facts.Values))
    ensures ListsItems(Sorted(ItemBefore, items.Values), items) && StrictlySorted(ItemBefore, Sorted(ItemBefore, items.Values))
  {
    FactOrder(facts);
    ItemOrder(items);
    SortedIsSorted(FactBefore, facts.Values);
    SortedIsSorted(ItemBefore, items.Values);
    FactsOfElements(Sorted(FactBefore, facts.Values), facts);
    ItemsOfElements(Sorted(ItemBefore, items.Values), items);
  }

  lemma FactsOfElements(fs: seq<Fact>, facts: FactMap)
    requires Elements(fs) == facts.Values && forall k | k in facts :: facts[k].key == k
    ensures ListsFacts(fs, facts)
  {
    forall f ensures f in fs <==> f in facts.Values { assert f in fs <==> f in Elements(fs); }
    forall k | k in facts ensures facts[k] in fs { assert facts[k] in facts.Values; }
  }

  lemma ItemsOfElements(us: seq<UnresolvedFact>, items: UnresolvedMap)
    requires Elements(us) == items.Values && forall k | k in items :: items[k].key == k
    ensures ListsItems(us, items)
  {
    forall u ensures u in us <==> u in items.Values { assert u in us <==> u in Elements(us); }
    forall k | k in items ensures items[k] in us { assert items[k] in items.Values; }
  }

  // ---- aggregated summaries are valid and already normal ----

  ghost predicate CanonicalObservations(claims: set<Claim>) {
    forall c | c in claims :: Canonical(c.observation)
  }

  lemma SortedIdsAreNormal(ids: set<string>)
    requires forall id | id in ids :: id != "" && TrimSpace(id) == id
    ensures ValidIds(Sorted(StringLess, ids)) && NormalIds(Sorted(StringLess, ids)) == Sorted(StringLess, ids)
  {
    var sorted := Sorted(StringLess, ids);
    StringOrder(ids);
    SortedIsSorted(StringLess, ids);
    forall i | 0 <= i < |sorted| ensures TrimSpace(sorted[i]) == sorted[i] && sorted[i] != "" {
      assert sorted[i] in Elements(sorted);
    }
    assert TrimAll(sorted) == sorted;
    forall i, j | 0 <= i < j < |sorted| ensures sorted[i] != sorted[j] {
      assert StringLess(sorted[i], sorted[j]);
      CompareStringsIsAntisymmetric(sorted[i], sorted[j]);
    }
  }

  lemma SortedIsEmpty(ids: set<string>)
    ensures |Sorted(StringLess, ids)| == 0 <==> ids == {}
  {
    SortedStringsElements(ids);
    NoElements(Sorted(StringLess, ids));
  }

  lemma FactOfSources(k: StateKey, v: Term, sources: set<Entry>)
    requires CanonicalKey(k) && CanonicalTerm(v) && sources != {}
    requires forall e | e in sources :: Canonical(e.claim.observation)
    ensures ValidFact(FactOf(k, v, sources)) && NormalFact(FactOf(k, v, sources)) == FactOf(k, v, sources)
  {
    SortedIdsAreNormal(Ids(sources));
    SortedIdsAreNormal(Evidence(sources, Supporting));
    SortedIdsAreNormal(Evidence(sources, Contradicting));
    SortedIsEmpty(Ids(sources));
    SortedIsEmpty(Evidence(sources, Supporting));
    SortedIsEmpty(Evidence(sources, Contradicting));
    SourcesHaveEvidence(sources);
  }

  lemma SourcesHaveEvidence(sources: set<Entry>)
    requires sources != {} && forall e | e in sources :: Canonical(e.claim.observation)
    ensures Ids(sources) != {}
    ensures Evidence(sources, Supporting) + Evidence(sources, Contradicting) != {}
  {
    var e :| e in sources;
    assert e.claim.observation.id in Ids(sources);
    var l := e.claim.observation.evidence[0];
    assert l.evidenceId in EvidenceIds(e.claim.observation, l.role);
    assert l.evidenceId in Evidence(sources, l.role);
  }

  lemma ListedFactIsNormal(entries: set<Entry>, f: Fact)
    requires CanonicalEntries(entries)
    requires forall e | e in entries :: Canonical(e.claim.observation)
    ensures Lists(MaterialOf(entries), f) ==> ValidFact(f) && NormalFact(f) == f
  {
    if Lists(MaterialOf(entries), f) {
      ListedFacts(entries, f);
      var group := WithKey(entries, f.key);
      SourcesAreNonempty(entries, f.key, f.value);
      var e :| e in entries && e.claim.key == f.key;
      var d :| d in Sources(entries, f.key, f.value);
      if Resolved(group) { assert ResolvesTo(group, ResolvedValue(group)); }
      assert d in entries && d.claim.value == f.value;
      FactOfSources(f.key, f.value, Sources(entries, f.key, f.value));
    }
  }

  // ---- lists in key order ----

  lemma {:induction false} FactsInOrder(ks: seq<StateKey>, entries: set<Entry>)
    requires StrictlySorted(KeyLess, ks)
    ensures StrictlySorted(FactBefore, FactsOver(ks, entries))
  {
    if ks != [] {
      var (init, k) := (ks[..|ks| - 1], ks[|ks| - 1]);
      FactsInOrder(init, entries);
      var facts := FactsOver(init, entries);
      forall i | 0 <= i < |facts| ensures KeyLess(facts[i].key, k) {
        InFactsOver(init, entries, facts[i]);
      }
    }
  }

  lemma {:induction false} UnresolvedInOrder(ks: seq<StateKey>, entries: set<Entry>)
    requires StrictlySorted(KeyLess, ks)
    ensures StrictlySorted(ItemBefore, UnresolvedOver(ks, entries))
  {
    if ks != [] {
      var (init, k) := (ks[..|ks| - 1], ks[|ks| - 1]);
      UnresolvedInOrder(init, entries);
      var items := UnresolvedOver(init, entries);
      forall i | 0 <= i < |items| ensures KeyLess(items[i].key, k) {
        InUnresolvedOver(init, entries, items[i]);
      }
    }
  }

  lemma MaterialInOrder(entries: set<Entry>)
    requires CanonicalEntries(entries)
    ensures StrictlySorted(FactBefore, MaterialOf(entries).facts)
    ensures StrictlySorted(ItemBefore, MaterialOf(entries).unresolved)
  {
    KeyOrder(Keys(entries));
    SortedIsSorted(KeyLess, Keys(entries));
    FactsInOrder(Sorted(KeyLess, Keys(entries)), entries);
    UnresolvedInOrder(Sorted(KeyLess, Keys(entries)), entries);
  }

  lemma SortedByKeyIsDistinct(fs: seq<Fact>)
    requires StrictlySorted(FactBefore, fs)
    ensures forall i, j | 0 <= i < j < |fs| :: fs[i].key != fs[j].key
  {
    forall i, j | 0 <= i < j < |fs| ensures fs[i].key != fs[j].key {
      assert FactBefore(fs[i], fs[j]);
      CompareStateKeysIsOrder(fs[i].key, fs[j].key, fs[i].key);
    }
  }

  lemma ItemsByKeyAreDistinct(us: seq<UnresolvedFact>)
    requires StrictlySorted(ItemBefore, us)
    ensures forall i, j | 0 <= i < j < |us| :: us[i].key != us[j].key
  {
    forall i, j | 0 <= i < j < |us| ensures us[i].key != us[j].key {
      assert ItemBefore(us[i], us[j]);
      CompareStateKeysIsOrder(us[i].key, us[j].key, us[i].key);
    }
  }

  // ---- unresolved items ----

  lemma CandidatesInOrder(k: StateKey, group: set<Entry>)
    requires CanonicalEntries(group)
    ensures var fs := UnresolvedItem(k, group).candidates;
      && |fs| == |Sorted(TermLess, Values(group))|
      && StrictlySorted(ValueBefore, fs)
      && forall i, j | 0 <= i < j < |fs| :: fs[i].value != fs[j].value
  {
    var vs := Sorted(TermLess, Values(group));
    var fs := UnresolvedItem(k, group).candidates;
    TermOrder(Values(group));
    SortedIsSorted(TermLess, Values(group));
    forall i, j | 0 <= i < j < |fs| ensures ValueBefore(fs[i], fs[j]) && fs[i].value != fs[j].value {
      assert TermLess(vs[i], vs[j]);
      CompareTermsIsOrder(vs[i], vs[j], vs[i]);
    }
  }

  lemma SortedTermsLength(s: set<Term>)
    requires forall t | t in s :: CanonicalTerm(t)
    ensures s != {} ==> |Sorted(TermLess, s)| > 0
    ensures |s| > 1 ==> |Sorted(TermLess, s)| > 1
  {
    var r := Sorted(TermLess, s);
    SortedTermsElements(s);
    NoElements(r);
    if |r| == 1 {
      assert r == [r[0]];
      assert s == {r[0]};
    }
  }

  lemma ConflictHasTwoValues(group: set<Entry>)
    requires ReasonFor(group) == ConflictingValues
    ensures |Values(group)| > 1
  {
    var part := Values(WithRole(group, Supported)) + Values(TentativePart(group));
    assert part <= Values(group);
    TwoValues(part);
    TwoValues(Values(group));
  }

  lemma NormalCandidates(fs: seq<Fact>)
    requires forall f | f in fs :: NormalFact(f) == f
    requires StrictlySorted(ValueBefore, fs) && StrictOrderOn(ValueBefore, Elements(fs))
    ensures NormalFacts(fs) == fs && Sorted(ValueBefore, Elements(fs)) == fs
  {
    SortedIsSorted(ValueBefore, Elements(fs));
    SortedIsUnique(ValueBefore, Sorted(ValueBefore, Elements(fs)), fs);
    forall i | 0 <= i < |fs| ensures NormalFacts(fs)[i] == fs[i] { assert fs[i] in fs; }
  }

  lemma ItemIsValid(k: StateKey, group: set<Entry>)
    requires CanonicalEntries(group) && CanonicalKey(k) && group != {}
    requires forall f | f in UnresolvedItem(k, group).candidates :: f.key == k && ValidFact(f) && NormalFact(f) == f
    ensures ValidItem(UnresolvedItem(k, group))
  {
    CandidatesInOrder(k, group);
    var e :| e in group;
    assert e.claim.value in Values(group);
    SortedTermsLength(Values(group));
    CompareStateKeysIsOrder(k, k, k);
    if ReasonFor(group) == ConflictingValues { ConflictHasTwoValues(group); }
  }

  lemma ItemIsNormal(k: StateKey, group: set<Entry>)
    requires CanonicalEntries(group)
    ensures ValidItem(UnresolvedItem(k, group)) && (forall f | f in UnresolvedItem(k, group).candidates :: NormalFact(f) == f) ==>
      NormalItem(UnresolvedItem(k, group)) == UnresolvedItem(k, group)
  {
    if ValidItem(UnresolvedItem(k, group)) && forall f | f in UnresolvedItem(k, group).candidates :: NormalFact(f) == f {
      var u := UnresolvedItem(k, group);
      CandidatesInOrder(k, group);
      forall i | 0 <= i < |u.candidates| ensures NormalFacts(u.candidates)[i] == u.candidates[i] {
        assert u.candidates[i] in u.candidates;
      }
      assert NormalFacts(u.candidates) == u.candidates;
      CandidateOrder(u.key, u.candidates);
      NormalCandidates(u.candidates);
    }
  }

  lemma ListedItemIsNormal(entries: set<Entry>, u: UnresolvedFact)
    requires CanonicalEntries(entries)
    requires forall e | e in entries :: Canonical(e.claim.observation)
    ensures u in MaterialOf(entries).unresolved ==> ValidItem(u) && NormalItem(u) == u
  {
    if u in MaterialOf(entries).unresolved {
      UnresolvedOfMaterial(entries, u);
      var group := WithKey(entries, u.key);
      GroupOfListedKey(entries, u.key);
      forall f | f in u.candidates ensures f.key == u.key && ValidFact(f) && NormalFact(f) == f {
        CandidateOfItem(u.key, group, f);
        assert Lists(MaterialOf(entries), f);
        ListedFactIsNormal(entries, f);
      }
      var e :| e in group;
      ItemIsValid(u.key, group);
      ItemIsNormal(u.key, group);
    }
  }

  // ---- the composition ----

  lemma MaterialIsValidSummary(selection: TemporalSelection, entries: set<Entry>)
    requires selection.WindowSelection? && CanonicalEntries(entries)
    requires forall e | e in entries :: Canonical(e.claim.observation)
    ensures ValidSummary(SummaryOf(selection, MaterialOf(entries)))
  {
    var m := MaterialOf(entries);
    MaterialInOrder(entries);
    SortedByKeyIsDistinct(m.facts);
    ItemsByKeyAreDistinct(m.unresolved);
    forall f | f in m.facts ensures ValidFact(f) {
      assert Lists(m, f);
      ListedFactIsNormal(entries, f);
    }
    forall u | u in m.unresolved ensures ValidItem(u) && forall f | f in m.facts :: f.key != u.key {
      ListedItemIsNormal(entries, u);
      UnresolvedOfMaterial(entries, u);
      forall f | f in m.facts { FactsOfMaterial(entries, f); }
    }
  }

  lemma HeldFactsOfSorted(fs: seq<Fact>)
    requires ValidFacts(fs) && forall f | f in fs :: NormalFact(f) == f
    ensures HoldsFacts(FactsHeld(fs), fs) && FactsHeld(fs).Values == Elements(fs)
  {
    forall k { FactForMember(fs, k); }
    forall f | f in fs ensures FactFor(fs, f.key) == Some(f) {
      var g := FactFor(fs, f.key).value;
      var i :| 0 <= i < |fs| && fs[i] == f;
      var j :| 0 <= j < |fs| && fs[j] == g;
      assert i == j;
    }
    forall f | f in Elements(fs) ensures f in FactsHeld(fs).Values {
      assert f.key in FactsHeld(fs) && FactsHeld(fs)[f.key] == f;
    }
  }

  lemma HeldItemsOfSorted(us: seq<UnresolvedFact>, fs: seq<Fact>)
    requires ValidUnresolved(us, fs) && forall u | u in us :: NormalItem(u) == u
    ensures HoldsItems(ItemsHeld(us), us) && ItemsHeld(us).Values == Elements(us)
  {
    forall k { UnresolvedForMember(us, k); }
    forall u | u in us ensures UnresolvedFor(us, u.key) == Some(u) {
      var g := UnresolvedFor(us, u.key).value;
      var i :| 0 <= i < |us| && us[i] == u;
      var j :| 0 <= j < |us| && us[j] == g;
      assert i == j;
    }
    forall u | u in Elements(us) ensures u in ItemsHeld(us).Values {
      assert u.key in ItemsHeld(us) && ItemsHeld(us)[u.key] == u;
    }
  }

  /** The maps a comparison works on are those of the material, and listing them in key order gives
      the material back. */
  lemma MaterialSurvivesNormalization(selection: TemporalSelection, entries: set<Entry>)
    requires selection.WindowSelection? && CanonicalEntries(entries)
    requires forall e | e in entries :: Canonical(e.claim.observation)
    ensures var m := MaterialOf(entries);
      && Sorted(FactBefore, FactsHeld(m.facts).Values) == m.facts
      && Sorted(ItemBefore, ItemsHeld(m.unresolved).Values) == m.unresolved
      && HoldsFacts(FactsHeld(m.facts), m.facts) && HoldsItems(ItemsHeld(m.unresolved), m.unresolved)
      && forall f | f in m.facts :: FactsHeld(m.facts)[f.key] == f
  {
    var m := MaterialOf(entries);
    MaterialIsValidSummary(selection, entries);
    MaterialInOrder(entries);
    forall f | f in m.facts ensures NormalFact(f) == f {
      assert Lists(m, f);
      ListedFactIsNormal(entries, f);
    }
    forall u | u in m.unresolved ensures NormalItem(u) == u { ListedItemIsNormal(entries, u); }
    HeldFactsOfSorted(m.facts);
    HeldItemsOfSorted(m.unresolved, m.facts);
    HeldMapsAreCanonical(SummaryOf(selection, m), FactsHeld(m.facts), ItemsHeld(m.unresolved));
    FactOrder(FactsHeld(m.facts));
    ItemOrder(ItemsHeld(m.unresolved));
    SortedIsSorted(FactBefore, Elements(m.facts));
    SortedIsSorted(ItemBefore, Elements(m.unresolved));
    SortedIsUnique(FactBefore, Sorted(FactBefore, Elements(m.facts)), m.facts);
    SortedIsUnique(ItemBefore, Sorted(ItemBefore, Elements(m.unresolved)), m.unresolved);
  }

  ghost predicate ResolvedIn(entries: set<Entry>, k: StateKey) {
    Resolved(WithKey(entries, k))
  }

  ghost predicate UnresolvedIn(entries: set<Entry>, k: StateKey) {
    WithKey(entries, k) != {} && !Resolved(WithKey(entries, k))
  }

  /** The values a comparison works on are the resolved map of the state. */
  lemma HeldValuesAreState(m: Material, facts: FactMap)
    requires HoldsFacts(facts, m.facts) && forall f | f in m.facts :: facts[f.key] == f
    ensures ValuesOf(facts) == StateOf(m)
  {
    forall k
      ensures k in facts <==> k in StateOf(m)
      ensures k in StateOf(m) ==> facts[k].value == StateOf(m)[k]
    {
      StateOfFacts(m, k);
      FactForMember(m.facts, k);
    }
  }

  /** The changes patch the resolved map of the one state into that of the other. */
  lemma ChangesPatchStates(
    before: TemporalSelection, after: TemporalSelection, earlier: set<Entry>, later: set<Entry>, k: StateKey)
    requires before.WindowSelection? && after.WindowSelection? && CanonicalEntries(earlier) && CanonicalEntries(later)
    requires forall e | e in earlier || e in later :: Canonical(e.claim.observation)
    ensures
      var (m, n) := (MaterialOf(earlier), MaterialOf(later));
      var c := ComparisonOf(before, after, FactsHeld(m.facts), FactsHeld(n.facts), ItemsHeld(m.unresolved), ItemsHeld(n.unresolved));
      Lookup(Patch(StateOf(m), c.changes), k) ==
        if UnresolvedIn(earlier, k) || UnresolvedIn(later, k) then Lookup(StateOf(m), k) else Lookup(StateOf(n), k)
  {
    var m, n := MaterialOf(earlier), MaterialOf(later);
    HeldByMaterial(before, earlier, k);
    HeldByMaterial(after, later, k);
    MaterialSurvivesNormalization(before, earlier);
    MaterialSurvivesNormalization(after, later);
    HeldValuesAreState(m, FactsHeld(m.facts));
    HeldValuesAreState(n, FactsHeld(n.facts));
    ChangesPatchBeforeIntoAfter((before, after), FactsHeld(m.facts), FactsHeld(n.facts),
                                ItemsHeld(m.unresolved), ItemsHeld(n.unresolved), k);
  }

  lemma HeldByMaterial(selection: TemporalSelection, entries: set<Entry>, k: StateKey)
    requires selection.WindowSelection? && CanonicalEntries(entries)
    requires forall e | e in entries :: Canonical(e.claim.observation)
    ensures var (facts, items) := (FactsHeld(MaterialOf(entries).facts), ItemsHeld(MaterialOf(entries).unresolved));
      && CanonicalMaps(facts, items) && CanonicalValues(facts)
      && (k in facts <==> ResolvedIn(entries, k))
      && (k in facts ==> facts[k].value == ResolvedValue(WithKey(entries, k)))
      && (k in items <==> UnresolvedIn(entries, k))
  {
    var m := MaterialOf(entries);
    var (facts, items) := (FactsHeld(m.facts), ItemsHeld(m.unresolved));
    MaterialSurvivesNormalization(selection, entries);
    MaterialIsValidSummary(selection, entries);
    HeldMapsAreCanonical(SummaryOf(selection, m), facts, items);
    forall j | j in facts ensures CanonicalTerm(facts[j].value) {
      var f :| f in m.facts && f.key == j;
    }
    var group := WithKey(entries, k);
    if group != {} {
      var e :| e in group;
      assert e.claim.key == k && k in Keys(entries);
      UnresolvedOfMaterial(entries, UnresolvedItem(k, group));
      if Resolved(group) { FactsOfMaterial(entries, ResolvedFact(k, group)); }
    }
    if k in facts {
      var f :| f in m.facts && f.key == k;
      FactsOfMaterial(entries, f);
    }
    if k in items {
      var u :| u in m.unresolved && u.key == k;
      UnresolvedOfMaterial(entries, u);
      GroupOfListedKey(entries, k);
    }
  }

  /** The place of a key, by how it resolved in the two windows. */
  ghost predicate Places(c: Comparison, earlier: set<Entry>, later: set<Entry>, k: StateKey) {
    && (k in c.unresolvedKeys <==> UnresolvedIn(earlier, k) || UnresolvedIn(later, k))
    && (ChangedAs(c, k, Added) <==> k !in c.unresolvedKeys && !ResolvedIn(earlier, k) && ResolvedIn(later, k))
    && (ChangedAs(c, k, Removed) <==> k !in c.unresolvedKeys && ResolvedIn(earlier, k) && !ResolvedIn(later, k))
    && (ChangedAs(c, k, Changed) <==>
          && k !in c.unresolvedKeys && ResolvedIn(earlier, k) && ResolvedIn(later, k)
          && ResolvedValue(WithKey(earlier, k)) != ResolvedValue(WithKey(later, k)))
  }

  /** The changes take the first resolved map to the second, except on keys unresolved on a side. */
  ghost predicate Patches(c: Comparison, m: Material, n: Material, k: StateKey) {
    Lookup(Patch(StateOf(m), c.changes), k) == if k in c.unresolvedKeys then Lookup(StateOf(m), k) else Lookup(StateOf(n), k)
  }

  /** The comparison of two aggregated materials. */
  ghost function Compared(before: TemporalSelection, after: TemporalSelection, m: Material, n: Material): Comparison {
    ComparisonOf(before, after, FactsHeld(m.facts), FactsHeld(n.facts), ItemsHeld(m.unresolved), ItemsHeld(n.unresolved))
  }

  lemma MaterialsAreAccepted(before: TemporalSelection, after: TemporalSelection, earlier: set<Entry>, later: set<Entry>)
    requires before.WindowSelection? && after.WindowSelection? && before.start < after.start
    requires CanonicalEntries(earlier) && CanonicalEntries(later)
    requires forall e | e in earlier || e in later :: Canonical(e.claim.observation)
    ensures var (m, n) := (MaterialOf(earlier), MaterialOf(later));
      var c := Compared(before, after, m, n);
      && CompareSpec(SummaryOf(before, m), SummaryOf(after, n)) == Ok(c)
      && c.beforeFacts == m.facts && c.afterFacts == n.facts
      && c.beforeUnresolved == m.unresolved && c.afterUnresolved == n.unresolved
  {
    MaterialIsValidSummary(before, earlier);
    MaterialIsValidSummary(after, later);
    MaterialSurvivesNormalization(before, earlier);
    MaterialSurvivesNormalization(after, later);
  }

  lemma MaterialsArePlaced(
    before: TemporalSelection, after: TemporalSelection, earlier: set<Entry>, later: set<Entry>, k: StateKey)
    requires before.WindowSelection? && after.WindowSelection? && CanonicalEntries(earlier) && CanonicalEntries(later)
    requires forall e | e in earlier || e in later :: Canonical(e.claim.observation)
    ensures Places(Compared(before, after, MaterialOf(earlier), MaterialOf(later)), earlier, later, k)
  {
    var m, n := MaterialOf(earlier), MaterialOf(later);
    HeldByMaterial(before, earlier, k);
    HeldByMaterial(after, later, k);
    EveryKeyHasOnePlace((before, after), FactsHeld(m.facts), FactsHeld(n.facts),
                        ItemsHeld(m.unresolved), ItemsHeld(n.unresolved), k);
  }

  lemma MaterialsPatch(
    before: TemporalSelection, after: TemporalSelection, earlier: set<Entry>, later: set<Entry>, k: StateKey)
    requires before.WindowSelection? && after.WindowSelection? && CanonicalEntries(earlier) && CanonicalEntries(later)
    requires forall e | e in earlier || e in later :: Canonical(e.claim.observation)
    ensures Patches(Compared(before, after, MaterialOf(earlier), MaterialOf(later)), MaterialOf(earlier), MaterialOf(later), k)
  {
    ChangesPatchStates(before, after, earlier, later, k);
    MaterialsArePlaced(before, after, earlier, later, k);
  }

  lemma MaterialsListChanges(before: TemporalSelection, after: TemporalSelection, earlier: set<Entry>, later: set<Entry>)
    requires before.WindowSelection? && after.WindowSelection? && CanonicalEntries(earlier) && CanonicalEntries(later)
    requires forall e | e in earlier || e in later :: Canonical(e.claim.observation)
    ensures ListsChanges(Compared(before, after, MaterialOf(earlier), MaterialOf(later)))
  {
    var m, n := MaterialOf(earlier), MaterialOf(later);
    HeldByMaterial(before, earlier, StateKey(Absent, ""));
    HeldByMaterial(after, later, StateKey(Absent, ""));
    ComparisonListsChanges((before, after), FactsHeld(m.facts), FactsHeld(n.facts), ItemsHeld(m.unresolved), ItemsHeld(n.unresolved));
  }

  lemma WindowOfAccepted(selection: TemporalSelection, scope: KnowledgeScope, cs: seq<StateCandidate>)
    requires selection.WindowSelection? && Accepted(cs) && CanonicalObservations(ClaimsOf(cs))
    ensures var entries := Entries(ClaimsOf(cs), scope, InWindow(selection.start, selection.end));
      && WindowState(selection, scope, cs) == Ok(SummaryOf(selection, MaterialOf(entries)))
      && CanonicalEntries(entries) && forall e | e in entries :: Canonical(e.claim.observation)
  {
    AcceptedIsErrorFree(cs);
    AcceptedClaimsAreCanonical(cs);
  }

  /** Two aggregated windows with increasing starts are always accepted for comparison, and come out
      of it with their facts and unresolved items as they were. Each key then has exactly one place,
      decided by how it resolved in each window; each change carries the facts that the two windows have
      for its key; and the changes patch the one state into the other. */
  lemma AggregatesCompare(
    before: TemporalSelection, after: TemporalSelection, beforeScope: KnowledgeScope, afterScope: KnowledgeScope,
    cs: seq<StateCandidate>, ds: seq<StateCandidate>, k: StateKey)
    returns (c: Comparison)
    requires before.WindowSelection? && after.WindowSelection? && before.start < after.start
    requires Accepted(cs) && Accepted(ds)
    requires CanonicalObservations(ClaimsOf(cs)) && CanonicalObservations(ClaimsOf(ds))
    ensures var (s, t) := (WindowState(before, beforeScope, cs), WindowState(after, afterScope, ds));
      && s.Ok? && t.Ok? && CompareSpec(s.value, t.value) == Ok(c)
      && c.beforeFacts == s.value.facts && c.afterFacts == t.value.facts
      && c.beforeUnresolved == s.value.unresolved && c.afterUnresolved == t.value.unresolved
    ensures c.before == before && c.after == after && ListsChanges(c)
    ensures Places(c, Entries(ClaimsOf(cs), beforeScope, InWindow(before.start, before.end)),
                   Entries(ClaimsOf(ds), afterScope, InWindow(after.start, after.end)), k)
    ensures Patches(c, MaterialUnder(ClaimsOf(cs), beforeScope, InWindow(before.start, before.end)),
                    MaterialUnder(ClaimsOf(ds), afterScope, InWindow(after.start, after.end)), k)
  {
    var earlier := Entries(ClaimsOf(cs), beforeScope, InWindow(before.start, before.end));
    var later := Entries(ClaimsOf(ds), afterScope, InWindow(after.start, after.end));
    WindowOfAccepted(before, beforeScope, cs);
    WindowOfAccepted(after, afterScope, ds);
    c := Compared(before, after, MaterialOf(earlier), MaterialOf(later));
    MaterialsAreAccepted(before, after, earlier, later);
    MaterialsListChanges(before, after, earlier, later);
    MaterialsArePlaced(before, after, earlier, later, k);
    MaterialsPatch(before, after, earlier, later, k);
  }
}
