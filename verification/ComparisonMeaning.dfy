/** What a comparison of any two summaries lists: both in normal form, and how each key changes. */
module ComparisonMeaning {
  import opened Results
  import opened Observations
  import opened Ordering
  import opened States
  import opened Eligibility
  import opened Materials
  import opened Aggregation
  import opened Transitions
  import opened Comparisons
  import opened ComparisonProperties

  // ---- normal forms ----

  /** The trimmed IDs, each once, in order. */
  ghost predicate NormalizesIds(normal: seq<string>, ids: seq<string>) {
    StrictlySorted(StringLess, normal) && forall x :: x in normal <==> exists id :: id in ids && x == TrimSpace(id)
  }

  /** The same fact with its three lists of IDs normalized. */
  ghost predicate NormalizesFact(f: Fact, g: Fact) {
    && f.key == g.key && f.value == g.value
    && NormalizesIds(f.observationIds, g.observationIds)
    && NormalizesIds(f.supportingEvidenceIds, g.supportingEvidenceIds)
    && NormalizesIds(f.contradictingEvidenceIds, g.contradictingEvidenceIds)
  }

  /** The same item with its candidates normalized and in value order. */
  ghost predicate NormalizesItem(v: UnresolvedFact, u: UnresolvedFact) {
    && v.key == u.key && v.reason == u.reason && StrictlySorted(ValueBefore, v.candidates)
    && forall f :: f in v.candidates <==> exists g :: g in u.candidates && NormalizesFact(f, g)
  }

  ghost predicate NormalizesFacts(fs: seq<Fact>, gs: seq<Fact>) {
    StrictlySorted(FactBefore, fs) && forall f :: f in fs <==> exists g :: g in gs && NormalizesFact(f, g)
  }

  ghost predicate NormalizesItems(vs: seq<UnresolvedFact>, us: seq<UnresolvedFact>) {
    StrictlySorted(ItemBefore, vs) && forall v :: v in vs <==> exists u :: u in us && NormalizesItem(v, u)
  }

  lemma TrimmedIds(ids: seq<string>, x: string)
    ensures x in Elements(TrimAll(ids)) <==> exists id :: id in ids && x == TrimSpace(id)
  {
    if id :| id in ids && x == TrimSpace(id) {
      var i :| 0 <= i < |ids| && ids[i] == id;
      assert TrimAll(ids)[i] == x;
    }
    if x in TrimAll(ids) {
      var i :| 0 <= i < |ids| && TrimAll(ids)[i] == x;
      assert ids[i] in ids;
    }
  }

  lemma NormalIdsAreUnique(normal: seq<string>, ids: seq<string>)
    ensures NormalizesIds(normal, ids) <==> normal == NormalIds(ids)
  {
    var trimmed := Elements(TrimAll(ids));
    StringOrder(trimmed);
    SortedIsSorted(StringLess, trimmed);
    forall x
      ensures x in NormalIds(ids) <==> exists id :: id in ids && x == TrimSpace(id)
    {
      TrimmedIds(ids, x);
      assert x in NormalIds(ids) <==> x in Elements(NormalIds(ids));
    }
    if NormalizesIds(normal, ids) {
      forall x { TrimmedIds(ids, x); }
      assert Elements(normal) == trimmed;
      SortedIsUnique(StringLess, normal, NormalIds(ids));
    }
  }

  lemma NormalFactIsUnique(f: Fact, g: Fact)
    ensures NormalizesFact(f, g) <==> f == NormalFact(g)
  {
    NormalIdsAreUnique(f.observationIds, g.observationIds);
    NormalIdsAreUnique(f.supportingEvidenceIds, g.supportingEvidenceIds);
    NormalIdsAreUnique(f.contradictingEvidenceIds, g.contradictingEvidenceIds);
  }

  lemma NormalCandidatesOf(us: seq<Fact>, f: Fact)
    ensures f in Elements(NormalFacts(us)) <==> exists g :: g in us && NormalizesFact(f, g)
  {
    forall g { NormalFactIsUnique(f, g); }
    if g :| g in us && f == NormalFact(g) {
      var i :| 0 <= i < |us| && us[i] == g;
      assert NormalFacts(us)[i] == f;
    }
    if f in NormalFacts(us) {
      var i :| 0 <= i < |us| && NormalFacts(us)[i] == f;
      assert us[i] in us;
    }
  }

  lemma NormalItemIsUnique(v: UnresolvedFact, u: UnresolvedFact)
    requires ValidItem(u)
    ensures NormalizesItem(v, u) <==> v == NormalItem(u)
  {
    var normal := Elements(NormalFacts(u.candidates));
    CandidateOrder(u.key, u.candidates);
    SortedIsSorted(ValueBefore, normal);
    forall f
      ensures f in normal <==> exists g :: g in u.candidates && NormalizesFact(f, g)
      ensures f in NormalItem(u).candidates <==> f in normal
    {
      NormalCandidatesOf(u.candidates, f);
      assert f in NormalItem(u).candidates <==> f in Elements(NormalItem(u).candidates);
    }
    if NormalizesItem(v, u) {
      assert Elements(v.candidates) == normal;
      SortedIsUnique(ValueBefore, v.candidates, NormalItem(u).candidates);
    }
  }

  lemma HeldFactsAreNormal(fs: seq<Fact>)
    requires ValidFacts(fs)
    ensures HoldsFacts(FactsHeld(fs), fs) && CanonicalValues(FactsHeld(fs))
    ensures forall f :: f in FactsHeld(fs).Values <==> exists g :: g in fs && NormalizesFact(f, g)
  {
    forall k { FactForMember(fs, k); }
    forall g | g in fs ensures FactFor(fs, g.key) == Some(g) {
      OneFactPerKey(fs, g);
    }
    forall f, g { NormalFactIsUnique(f, g); }
    forall g | g in fs ensures NormalFact(g) in FactsHeld(fs).Values {
      assert g.key in FactsHeld(fs) && FactsHeld(fs)[g.key] == NormalFact(g);
    }
  }

  lemma OneFactPerKey(fs: seq<Fact>, g: Fact)
    requires ValidFacts(fs) && g in fs
    ensures FactFor(fs, g.key) == Some(g)
  {
    FactForMember(fs, g.key);
    var f := FactFor(fs, g.key).value;
    var i :| 0 <= i < |fs| && fs[i] == f;
    var j :| 0 <= j < |fs| && fs[j] == g;
    assert i == j;
  }

  lemma HeldItemsAreNormal(us: seq<UnresolvedFact>, fs: seq<Fact>)
    requires ValidUnresolved(us, fs)
    ensures HoldsItems(ItemsHeld(us), us)
    ensures forall v :: v in ItemsHeld(us).Values <==> exists u :: u in us && NormalizesItem(v, u)
  {
    forall k { UnresolvedForMember(us, k); }
    forall u | u in us ensures UnresolvedFor(us, u.key) == Some(u) {
      OneItemPerKey(us, fs, u);
    }
    forall v, u | u in us { NormalItemIsUnique(v, u); }
    forall u | u in us ensures NormalItem(u) in ItemsHeld(us).Values {
      assert u.key in ItemsHeld(us) && ItemsHeld(us)[u.key] == NormalItem(u);
    }
  }

  lemma OneItemPerKey(us: seq<UnresolvedFact>, fs: seq<Fact>, u: UnresolvedFact)
    requires ValidUnresolved(us, fs) && u in us
    ensures UnresolvedFor(us, u.key) == Some(u)
  {
    UnresolvedForMember(us, u.key);
    var v := UnresolvedFor(us, u.key).value;
    var i :| 0 <= i < |us| && us[i] == v;
    var j :| 0 <= j < |us| && us[j] == u;
    assert i == j;
  }

  // ---- the whole ----

  /** The comparison keeps both summaries, normalized and in key order, and lists their changes. */
  ghost predicate TellsComparison(c: Comparison, before: Summary, after: Summary) {
    && c.before == before.selection && c.after == after.selection
    && NormalizesFacts(c.beforeFacts, before.facts) && NormalizesFacts(c.afterFacts, after.facts)
    && NormalizesItems(c.beforeUnresolved, before.unresolved) && NormalizesItems(c.afterUnresolved, after.unresolved)
    && ListsChanges(c)
  }

  lemma ListsOfSummary(s: Summary)
    requires ValidSummary(s)
    ensures NormalizesFacts(Sorted(FactBefore, FactsHeld(s.facts).Values), s.facts)
    ensures NormalizesItems(Sorted(ItemBefore, ItemsHeld(s.unresolved).Values), s.unresolved)
    ensures CanonicalMaps(FactsHeld(s.facts), ItemsHeld(s.unresolved)) && CanonicalValues(FactsHeld(s.facts))
  {
    var (facts, items) := (FactsHeld(s.facts), ItemsHeld(s.unresolved));
    HeldFactsAreNormal(s.facts);
    HeldItemsAreNormal(s.unresolved, s.facts);
    HeldMapsAreCanonical(s, facts, items);
    MapsAreListed(facts, items);
    NormalizedFacts(Sorted(FactBefore, facts.Values), facts, s.facts);
    NormalizedItems(Sorted(ItemBefore, items.Values), items, s.unresolved);
  }

  lemma NormalizedFacts(fs: seq<Fact>, facts: FactMap, gs: seq<Fact>)
    requires StrictlySorted(FactBefore, fs) && ListsFacts(fs, facts)
    requires forall f :: f in facts.Values <==> exists g :: g in gs && NormalizesFact(f, g)
    ensures NormalizesFacts(fs, gs)
  {
    forall f ensures f in fs <==> f in facts.Values {
    }
  }

  lemma NormalizedItems(vs: seq<UnresolvedFact>, items: UnresolvedMap, us: seq<UnresolvedFact>)
    requires StrictlySorted(ItemBefore, vs) && ListsItems(vs, items)
    requires forall v :: v in items.Values <==> exists u :: u in us && NormalizesItem(v, u)
    ensures NormalizesItems(vs, us)
  {
    forall v ensures v in vs <==> v in items.Values {
    }
  }

  /** Whatever two summaries are compared, the result says what each has and what changes between them. */
  lemma ComparisonTellsChanges(before: Summary, after: Summary)
    ensures CompareSpec(before, after).Ok? ==> TellsComparison(CompareSpec(before, after).value, before, after)
  {
    if CompareSpec(before, after).Ok? {
      ListsOfSummary(before);
      ListsOfSummary(after);
      ComparisonListsChanges((before.selection, after.selection), FactsHeld(before.facts), FactsHeld(after.facts),
                             ItemsHeld(before.unresolved), ItemsHeld(after.unresolved));
    }
  }

  // ---- refused summaries ----

  /** A blank ID, or the same ID twice. */
  ghost predicate DefectiveIds(ids: seq<string>) {
    || (exists id :: id in ids && Blank(id))
    || exists i, j :: 0 <= i < j < |ids| && TrimSpace(ids[i]) == TrimSpace(ids[j])
  }

  ghost predicate DefectiveFact(f: Fact) {
    || !CanonicalKey(f.key) || !CanonicalTerm(f.value)
    || f.observationIds == [] || (f.supportingEvidenceIds == [] && f.contradictingEvidenceIds == [])
    || DefectiveIds(f.observationIds) || DefectiveIds(f.supportingEvidenceIds) || DefectiveIds(f.contradictingEvidenceIds)
  }

  /** No candidates, one candidate for a conflict, a defective one, one about another key, or a value twice. */
  ghost predicate DefectiveItem(u: UnresolvedFact) {
    || !CanonicalKey(u.key) || u.candidates == [] || (u.reason == ConflictingValues && |u.candidates| == 1)
    || (exists f :: f in u.candidates && (f.key != u.key || DefectiveFact(f)))
    || exists i, j :: 0 <= i < j < |u.candidates| && u.candidates[i].value == u.candidates[j].value
  }

  /** Anything defective in it, or a key in two places. */
  ghost predicate DefectiveSummary(s: Summary) {
    || !s.selection.WindowSelection?
    || (exists f :: f in s.facts && DefectiveFact(f))
    || (exists u :: u in s.unresolved && DefectiveItem(u))
    || (exists i, j :: 0 <= i < j < |s.facts| && s.facts[i].key == s.facts[j].key)
    || (exists i, j :: 0 <= i < j < |s.unresolved| && s.unresolved[i].key == s.unresolved[j].key)
    || exists f, u :: f in s.facts && u in s.unresolved && f.key == u.key
  }

  lemma IdsAreDefective(ids: seq<string>)
    ensures ValidIds(ids) <==> !DefectiveIds(ids)
  {
    if id :| id in ids && Blank(id) {
      var i :| 0 <= i < |ids| && ids[i] == id;
      assert TrimAll(ids)[i] == "";
    }
    if "" in TrimAll(ids) {
      var i :| 0 <= i < |ids| && TrimAll(ids)[i] == "";
      assert ids[i] in ids;
    }
    forall i, j | 0 <= i < j < |ids|
      ensures TrimAll(ids)[i] == TrimAll(ids)[j] <==> TrimSpace(ids[i]) == TrimSpace(ids[j])
    {
    }
  }

  lemma FactIsDefective(f: Fact)
    ensures ValidFact(f) <==> !DefectiveFact(f)
  {
    IdsAreDefective(f.observationIds);
    IdsAreDefective(f.supportingEvidenceIds);
    IdsAreDefective(f.contradictingEvidenceIds);
  }

  lemma ItemIsDefective(u: UnresolvedFact)
    ensures ValidItem(u) <==> !DefectiveItem(u)
  {
    forall f
      ensures ValidFact(f) <==> !DefectiveFact(f)
      ensures CanonicalKey(u.key) && CanonicalKey(f.key) ==> (CompareStateKeys(f.key, u.key) == 0 <==> f.key == u.key)
    {
      FactIsDefective(f);
      CompareStateKeysIsOrder(f.key, u.key, f.key);
    }
  }

  lemma SummaryIsDefective(s: Summary)
    ensures ValidSummary(s) <==> !DefectiveSummary(s)
  {
    forall f { FactIsDefective(f); }
    forall u { ItemIsDefective(u); }
  }

  /** The comparison refuses the earlier summary, the later one, or their order, and nothing else. */
  lemma RefusedComparisons(before: Summary, after: Summary)
    ensures CompareSpec(before, after) == Err(InvalidBefore) <==> DefectiveSummary(before)
    ensures CompareSpec(before, after) == Err(InvalidAfter) <==> !DefectiveSummary(before) && DefectiveSummary(after)
    ensures CompareSpec(before, after) == Err(UnorderedWindows) <==>
      !DefectiveSummary(before) && !DefectiveSummary(after) && after.selection.start <= before.selection.start
  {
    SummaryIsDefective(before);
    SummaryIsDefective(after);
  }
}
