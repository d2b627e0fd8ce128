/** A causal chain lists exactly the explicit links, in chronological order. */
module CausalProperties {
  import opened Results
  import opened Observations
  import opened Ordering
  import opened States
  import opened Eligibility
  import opened Claims
  import opened Aggregation
  import opened StateProperties
  import opened Causal

  ghost predicate CanonicalCausal(claims: set<Claim>) {
    forall c | c in CausalPart(claims) ::
      CanonicalTerm(c.key.subject) && CanonicalTerm(c.value) && Canonical(c.observation)
  }

  // ---- order and recorded time ----

  lemma ChainOrderIndependence(
    selection: TemporalSelection, scope: KnowledgeScope, cs: seq<StateCandidate>, ds: seq<StateCandidate>)
    requires SameCandidates(cs, ds)
    ensures SameOutcome(ChainState(selection, scope, cs), ChainState(selection, scope, ds))
  {
    CausallyAcceptedIsErrorFree(cs);
    CausallyAcceptedIsErrorFree(ds);
    assert ClaimsOf(cs) == ClaimsOf(ds);
  }

  lemma AsOfChainsAreStable(selection: TemporalSelection, cs: seq<StateCandidate>, cutoff: Time)
    requires CausallyAccepted(cs)
    ensures ChainState(selection, KnownAsOf(cutoff), cs) == ChainState(selection, CurrentKnowledge, RecordedBy(cs, cutoff))
  {
    var known := RecordedBy(cs, cutoff);
    RecordedByClaims(cs, cutoff);
    forall c { RecordedByMembers(cs, cutoff, c); }
    CausallyAcceptedIsErrorFree(cs);
    CausallyAcceptedIsErrorFree(known);
    if selection.WindowSelection? {
      assert LinkClaims(ClaimsOf(cs), KnownAsOf(cutoff), selection.start, selection.end)
          == LinkClaims(ClaimsOf(known), CurrentKnowledge, selection.start, selection.end);
    }
  }

  // ---- contents ----

  /** The link that a set of claims with the same ends makes. */
  ghost function MergedLink(claims: set<Claim>, l: LinkKey): CausalLink {
    CausalLink(l.cause, l.effect, Sorted(StringLess, ClaimIds(claims)),
               Sorted(StringLess, EvidenceOf(claims, Supporting)), Sorted(StringLess, EvidenceOf(claims, Contradicting)))
  }

  ghost function Starts(claims: set<Claim>): set<Time> { set c | c in claims :: CausalExtentBound(c.observation.validTime) }

  ghost function Recordings(claims: set<Claim>): set<Time> { set c | c in claims :: c.observation.recordedAt }

  lemma DatedLinkOfClaims(claims: set<Claim>, l: LinkKey)
    requires Coherent(claims)
    ensures DatedLinkFrom(AccumulatedLink(claims, l))
         == DatedLink(LeastTime(Starts(claims)), LeastTime(Recordings(claims)), LeastId(ClaimIds(claims)), MergedLink(claims, l))
  {
    var index := ObservationIndex(claims);
    assert index.Keys == ClaimIds(claims);
    forall t ensures t in ValidBounds(index) <==> t in Starts(claims) {
      if t in Starts(claims) {
        var c :| c in claims && CausalExtentBound(c.observation.validTime) == t;
        assert c.observation.id in index && index[c.observation.id] == c.observation;
      }
    }
    forall t ensures t in RecordedTimes(index) <==> t in Recordings(claims) {
      if t in Recordings(claims) {
        var c :| c in claims && c.observation.recordedAt == t;
        assert c.observation.id in index && index[c.observation.id] == c.observation;
      }
    }
    assert ValidBounds(index) == Starts(claims) && RecordedTimes(index) == Recordings(claims);
  }

  ghost function DatedLinkOf(linking: set<Claim>, l: LinkKey): DatedLink {
    var part := ClaimsOfLink(linking, l);
    DatedLink(LeastTime(Starts(part)), LeastTime(Recordings(part)), LeastId(ClaimIds(part)), MergedLink(part, l))
  }

  lemma InDatedLinks(linking: set<Claim>, d: DatedLink)
    requires Coherent(linking)
    ensures d in DatedLinks(LinkGroups(linking)) <==> exists c | c in linking :: d == DatedLinkOf(linking, LinkOf(c))
  {
    var groups := LinkGroups(linking);
    forall l | l in groups ensures DatedLinkFrom(groups[l]) == DatedLinkOf(linking, l) {
      DatedLinkOfClaims(ClaimsOfLink(linking, l), l);
    }
    if c :| c in linking && d == DatedLinkOf(linking, LinkOf(c)) {
      assert LinkOf(c) in groups;
    }
    if d in DatedLinks(groups) {
      var l :| l in groups && d == DatedLinkFrom(groups[l]);
      var c :| c in linking && LinkOf(c) == l;
    }
  }

  ghost function OrderedLinks(linking: set<Claim>): seq<DatedLink>
    requires Coherent(linking)
  {
    Sorted(CausalBefore, DatedLinks(LinkGroups(linking)))
  }

  lemma OrderedLinksElements(claims: set<Claim>, scope: KnowledgeScope, start: Time, end: Time)
    requires CanonicalCausal(claims) && Coherent(LinkClaims(claims, scope, start, end))
    ensures var linking := LinkClaims(claims, scope, start, end);
      && StrictlySorted(CausalBefore, OrderedLinks(linking))
      && Elements(OrderedLinks(linking)) == DatedLinks(LinkGroups(linking))
  {
    GroupsAreWellKeyed(claims, scope, start, end);
    CausalOrder(LinkGroups(LinkClaims(claims, scope, start, end)));
    SortedIsSorted(CausalBefore, DatedLinks(LinkGroups(LinkClaims(claims, scope, start, end))));
  }

  /** A link is in the chain exactly when some selected claim states it, and it then merges exactly
      the claims that state it: no edge is inferred, none is lost. */
  lemma ChainIsExplicit(claims: set<Claim>, scope: KnowledgeScope, start: Time, end: Time, link: CausalLink)
    requires CanonicalCausal(claims) && Coherent(LinkClaims(claims, scope, start, end))
    ensures var (linking, l) := (LinkClaims(claims, scope, start, end), LinkKey(link.cause, link.effect));
      link in ChainOf(claims, scope, start, end) <==>
        (exists c | c in linking :: LinkOf(c) == l) && link == MergedLink(ClaimsOfLink(linking, l), l)
  {
    var linking := LinkClaims(claims, scope, start, end);
    var l := LinkKey(link.cause, link.effect);
    OrderedLinksElements(claims, scope, start, end);
    InLinks(OrderedLinks(linking), link);
    if link in ChainOf(claims, scope, start, end) {
      var d :| d in Elements(OrderedLinks(linking)) && d.link == link;
      InDatedLinks(linking, d);
      var c :| c in linking && d == DatedLinkOf(linking, LinkOf(c));
      MergedLinkEnds(ClaimsOfLink(linking, LinkOf(c)), LinkOf(c));
    }
    if (exists c | c in linking :: LinkOf(c) == l) && link == MergedLink(ClaimsOfLink(linking, l), l) {
      InDatedLinks(linking, DatedLinkOf(linking, l));
      assert DatedLinkOf(linking, l).link == link;
    }
  }

  lemma InLinks(ordered: seq<DatedLink>, link: CausalLink)
    ensures link in LinksOf(ordered) <==> exists d :: d in Elements(ordered) && d.link == link
  {
    if link in LinksOf(ordered) {
      var i :| 0 <= i < |ordered| && LinksOf(ordered)[i] == link;
      assert ordered[i] in Elements(ordered);
    }
    if d :| d in Elements(ordered) && d.link == link {
      var i :| 0 <= i < |ordered| && ordered[i] == d;
      assert LinksOf(ordered)[i] == link;
    }
  }

  lemma MergedLinkEnds(part: set<Claim>, l: LinkKey)
    ensures LinkKey(MergedLink(part, l).cause, MergedLink(part, l).effect) == l
  {
  }

  lemma DatedAt(claims: set<Claim>, scope: KnowledgeScope, start: Time, end: Time, i: nat) returns (c: Claim)
    requires CanonicalCausal(claims) && Coherent(LinkClaims(claims, scope, start, end))
    requires i < |OrderedLinks(LinkClaims(claims, scope, start, end))|
    ensures var linking := LinkClaims(claims, scope, start, end);
      c in linking && OrderedLinks(linking)[i] == DatedLinkOf(linking, LinkOf(c))
  {
    var linking := LinkClaims(claims, scope, start, end);
    OrderedLinksElements(claims, scope, start, end);
    assert OrderedLinks(linking)[i] in Elements(OrderedLinks(linking));
    InDatedLinks(linking, OrderedLinks(linking)[i]);
    c :| c in linking && OrderedLinks(linking)[i] == DatedLinkOf(linking, LinkOf(c));
  }

  lemma BeforeByTime(d: DatedLink, e: DatedLink)
    requires CausalBefore(d, e)
    requires d.earliestValid != ZERO_TIME && e.earliestValid != ZERO_TIME
    requires d.earliestRecorded != ZERO_TIME && e.earliestRecorded != ZERO_TIME
    ensures d.earliestValid <= e.earliestValid
    ensures d.earliestValid == e.earliestValid ==> d.earliestRecorded <= e.earliestRecorded
    ensures d.earliestValid == e.earliestValid && d.earliestRecorded == e.earliestRecorded && d.firstId != e.firstId ==>
      StringLess(d.firstId, e.firstId)
    ensures d != e
  {
    CausalBeforeIsIrreflexive(d);
  }

  /** The link that the one set of claims states comes before the one that the other states: by earliest
      valid time, then earliest recorded time, then first observation ID, and these never agree. */
  ghost predicate StatedBefore(p: set<Claim>, q: set<Claim>) {
    && p != {} && q != {}
    && LeastTime(Starts(p)) <= LeastTime(Starts(q))
    && (LeastTime(Starts(p)) == LeastTime(Starts(q)) ==> LeastTime(Recordings(p)) <= LeastTime(Recordings(q)))
    && (LeastTime(Starts(p)) == LeastTime(Starts(q)) && LeastTime(Recordings(p)) == LeastTime(Recordings(q)) ==>
          StringLess(LeastId(ClaimIds(p)), LeastId(ClaimIds(q))))
    && LeastId(ClaimIds(p)) != LeastId(ClaimIds(q))
  }

  /** Different links, the one before the other by the claims that state them. */
  ghost predicate ComesBefore(linking: set<Claim>, l: LinkKey, m: LinkKey) {
    l != m && StatedBefore(ClaimsOfLink(linking, l), ClaimsOfLink(linking, m))
  }

  /** Links come in chronological order. An observation states one link, so two links never share their
      first ID: the comparator's last two ties, by cause and by effect, are never reached. */
  lemma ChainIsChronological(claims: set<Claim>, scope: KnowledgeScope, start: Time, end: Time, i: nat, j: nat)
    requires CanonicalCausal(claims) && Coherent(LinkClaims(claims, scope, start, end))
    requires i < j < |ChainOf(claims, scope, start, end)|
    ensures var chain := ChainOf(claims, scope, start, end);
      ComesBefore(LinkClaims(claims, scope, start, end),
                  LinkKey(chain[i].cause, chain[i].effect), LinkKey(chain[j].cause, chain[j].effect))
  {
    var linking := LinkClaims(claims, scope, start, end);
    OrderedLinksElements(claims, scope, start, end);
    assert CausalBefore(OrderedLinks(linking)[i], OrderedLinks(linking)[j]);
    var c := DatedAt(claims, scope, start, end, i);
    var f := DatedAt(claims, scope, start, end, j);
    LinkHasLeastTimes(claims, scope, start, end, c);
    LinkHasLeastTimes(claims, scope, start, end, f);
    BeforeByTime(DatedLinkOf(linking, LinkOf(c)), DatedLinkOf(linking, LinkOf(f)));
    assert c in ClaimsOfLink(linking, LinkOf(c)) && f in ClaimsOfLink(linking, LinkOf(f));
    LinksShareNoId(linking, c, f);
  }

  /** Different links are stated by different observations. */
  lemma LinksShareNoId(linking: set<Claim>, c: Claim, f: Claim)
    requires Coherent(linking) && c in linking && f in linking && LinkOf(c) != LinkOf(f)
    ensures LeastId(ClaimIds(ClaimsOfLink(linking, LinkOf(c)))) != LeastId(ClaimIds(ClaimsOfLink(linking, LinkOf(f))))
  {
    var p, q := ClaimIds(ClaimsOfLink(linking, LinkOf(c))), ClaimIds(ClaimsOfLink(linking, LinkOf(f)));
    assert c in ClaimsOfLink(linking, LinkOf(c)) && f in ClaimsOfLink(linking, LinkOf(f));
    assert c.observation.id in p && f.observation.id in q;
    var x := SomeLeastId(p);
    var y := SomeLeastId(q);
    LeastIdIsUnique(p, x);
    LeastIdIsUnique(q, y);
  }

  lemma SomeLeastId(s: set<string>) returns (x: string)
    requires s != {}
    ensures IsLeastId(s, x)
  {
    StringOrder(s);
    SortedIsSorted(StringLess, s);
    var r := Sorted(StringLess, s);
    NoElements(r);
    x := r[0];
    forall y | y in s ensures y == x || StringLess(x, y) {
      LeastElement(StringLess, r, y);
    }
  }

  lemma LinkHasLeastTimes(claims: set<Claim>, scope: KnowledgeScope, start: Time, end: Time, c: Claim)
    requires CanonicalCausal(claims) && c in LinkClaims(claims, scope, start, end)
    ensures var part := ClaimsOfLink(LinkClaims(claims, scope, start, end), LinkOf(c));
      && IsLeastTime(Starts(part), LeastTime(Starts(part))) && LeastTime(Starts(part)) != ZERO_TIME
      && IsLeastTime(Recordings(part), LeastTime(Recordings(part))) && LeastTime(Recordings(part)) != ZERO_TIME
  {
    var part := ClaimsOfLink(LinkClaims(claims, scope, start, end), LinkOf(c));
    assert c in part;
    assert CausalExtentBound(c.observation.validTime) in Starts(part) && c.observation.recordedAt in Recordings(part);
    var a := SomeLeastTime(Starts(part));
    var b := SomeLeastTime(Recordings(part));
    LeastTimeIsUnique(Starts(part), a);
    LeastTimeIsUnique(Recordings(part), b);
  }

  lemma SomeLeastTime(s: set<Time>) returns (x: Time)
    requires s != {}
    ensures IsLeastTime(s, x)
  {
    TimeOrder(s);
    SortedIsSorted(TimeLess, s);
    var r := Sorted(TimeLess, s);
    NoElements(r);
    x := r[0];
    forall y | y in s ensures x <= y {
      LeastElement(TimeLess, r, y);
    }
  }

  /** A rejected causal claim stays in the chain, whereas aggregation never selects it. */
  lemma RejectedClaimsStayExplicit(
    claims: set<Claim>, scope: KnowledgeScope, start: Time, end: Time, c: Claim, sel: ValidTimeSelector, e: Entry)
    requires CanonicalCausal(claims) && Coherent(LinkClaims(claims, scope, start, end))
    requires c in LinkClaims(claims, scope, start, end) && c.observation.status.Rejected?
    ensures exists link | link in ChainOf(claims, scope, start, end) ::
      link.cause == c.key.subject && link.effect == c.value && c.observation.id in link.observationIds
    ensures e in Entries(claims, scope, sel) ==> e.claim != c
  {
    var linking := LinkClaims(claims, scope, start, end);
    var part := ClaimsOfLink(linking, LinkOf(c));
    var link := MergedLink(part, LinkOf(c));
    ChainIsExplicit(claims, scope, start, end, link);
    SortedStringsElements(ClaimIds(part));
    assert c in part;
    assert c.observation.id in Elements(Sorted(StringLess, ClaimIds(part)));
  }

  // ---- chains that are built ----

  /** Candidates that pass the checks of the chain, over constructed observations. */
  ghost predicate Chainable(selection: TemporalSelection, cs: seq<StateCandidate>) {
    selection.WindowSelection? && CausallyAccepted(cs) && forall c | c in cs :: Canonical(c.observation)
  }

  /** On them a chain is built, and all that holds of chains over canonical causal claims holds of it. */
  lemma ChainIsBuilt(selection: TemporalSelection, scope: KnowledgeScope, cs: seq<StateCandidate>)
    requires Chainable(selection, cs)
    ensures CanonicalCausal(ClaimsOf(cs)) && Coherent(LinkClaims(ClaimsOf(cs), scope, selection.start, selection.end))
    ensures ChainState(selection, scope, cs) == Ok(ChainOf(ClaimsOf(cs), scope, selection.start, selection.end))
  {
    CausallyAcceptedIsErrorFree(cs);
  }

  /** An explicit causal claim, known by the cutoff and certainly valid at some instant of the window,
      whatever its status. */
  ghost predicate StatesLink(c: Claim, scope: KnowledgeScope, start: Time, end: Time) {
    && c.key.predicateName == CAUSAL_PREDICATE
    && (scope.KnownAsOf? ==> c.observation.recordedAt <= scope.cutoff)
    && exists t :: start <= t < end && PointEligibility(t, c.observation.validTime) == Definite
  }

  /** The claims that state the link from one end to the other. */
  ghost function Stating(claims: set<Claim>, scope: KnowledgeScope, start: Time, end: Time, cause: Term, effect: Term): set<Claim> {
    set c | c in claims && StatesLink(c, scope, start, end) && c.key.subject == cause && c.value == effect
  }

  /** Selecting claims for links by the window is selecting those that state one. */
  lemma LinksAreStated(claims: set<Claim>, scope: KnowledgeScope, start: Time, end: Time, c: Claim)
    requires start < end
    ensures c in LinkClaims(claims, scope, start, end) <==> c in claims && StatesLink(c, scope, start, end)
  {
    WindowIsUnionOfPoints(start, end, c.observation.validTime, Definite);
  }

  lemma StatingAreLinkClaims(claims: set<Claim>, scope: KnowledgeScope, start: Time, end: Time, cause: Term, effect: Term)
    requires start < end
    ensures ClaimsOfLink(LinkClaims(claims, scope, start, end), LinkKey(cause, effect)) == Stating(claims, scope, start, end, cause, effect)
  {
    forall c { LinksAreStated(claims, scope, start, end, c); }
  }

  /** Where a definite extent starts, its bound is the first instant at which it is valid; where it has no
      start it was valid all the time until its bound. */
  lemma BoundIsFirstInstant(e: TemporalExtent, t: Time)
    requires PointEligibility(t, e) == Definite
    ensures
      var bound := CausalExtentBound(e);
      if PointEligibility(bound, e) == Definite
      then forall u :: PointEligibility(u, e) == Definite ==> bound <= u
      else forall u :: PointEligibility(u, e) == Definite <==> u < bound
  {
  }

  /** The chain lists exactly the links that causal candidates state, each merging exactly the claims that
      state it: those known by the cutoff and valid at some instant of the window. */
  lemma BuiltChainIsExplicit(selection: TemporalSelection, scope: KnowledgeScope, cs: seq<StateCandidate>)
    requires Chainable(selection, cs)
    ensures ChainState(selection, scope, cs).Ok?
    ensures forall link: CausalLink ::
      var stating := Stating(ClaimsOf(cs), scope, selection.start, selection.end, link.cause, link.effect);
      link in ChainState(selection, scope, cs).value <==>
        stating != {} && link == MergedLink(stating, LinkKey(link.cause, link.effect))
  {
    ChainIsBuilt(selection, scope, cs);
    forall link: CausalLink
      ensures var stating := Stating(ClaimsOf(cs), scope, selection.start, selection.end, link.cause, link.effect);
        link in ChainOf(ClaimsOf(cs), scope, selection.start, selection.end) <==>
          stating != {} && link == MergedLink(stating, LinkKey(link.cause, link.effect))
    {
      ChainIsStated(ClaimsOf(cs), scope, selection.start, selection.end, link);
    }
  }

  lemma ChainIsStated(claims: set<Claim>, scope: KnowledgeScope, start: Time, end: Time, link: CausalLink)
    requires start < end && CanonicalCausal(claims) && Coherent(LinkClaims(claims, scope, start, end))
    ensures var stating := Stating(claims, scope, start, end, link.cause, link.effect);
      link in ChainOf(claims, scope, start, end) <==>
        stating != {} && link == MergedLink(stating, LinkKey(link.cause, link.effect))
  {
    var linking, l := LinkClaims(claims, scope, start, end), LinkKey(link.cause, link.effect);
    ChainIsExplicit(claims, scope, start, end, link);
    StatingAreLinkClaims(claims, scope, start, end, link.cause, link.effect);
    LinkIsStated(linking, l);
  }

  lemma LinkIsStated(linking: set<Claim>, l: LinkKey)
    ensures (exists c | c in linking :: LinkOf(c) == l) <==> ClaimsOfLink(linking, l) != {}
  {
    if c :| c in linking && LinkOf(c) == l {
      assert c in ClaimsOfLink(linking, l);
    }
  }

  /** Its links come in chronological order. */
  lemma BuiltChainIsChronological(selection: TemporalSelection, scope: KnowledgeScope, cs: seq<StateCandidate>)
    requires Chainable(selection, cs)
    ensures ChainState(selection, scope, cs).Ok?
    ensures var chain := ChainState(selection, scope, cs).value;
      forall i, j | 0 <= i < j < |chain| ::
        StatedBefore(Stating(ClaimsOf(cs), scope, selection.start, selection.end, chain[i].cause, chain[i].effect),
                     Stating(ClaimsOf(cs), scope, selection.start, selection.end, chain[j].cause, chain[j].effect))
  {
    ChainIsBuilt(selection, scope, cs);
    var chain := ChainOf(ClaimsOf(cs), scope, selection.start, selection.end);
    forall i, j | 0 <= i < j < |chain|
      ensures
        StatedBefore(Stating(ClaimsOf(cs), scope, selection.start, selection.end, chain[i].cause, chain[i].effect),
                     Stating(ClaimsOf(cs), scope, selection.start, selection.end, chain[j].cause, chain[j].effect))
    {
      ChainIsChronological(ClaimsOf(cs), scope, selection.start, selection.end, i, j);
      StatingAreLinkClaims(ClaimsOf(cs), scope, selection.start, selection.end, chain[i].cause, chain[i].effect);
      StatingAreLinkClaims(ClaimsOf(cs), scope, selection.start, selection.end, chain[j].cause, chain[j].effect);
    }
  }

  /** A rejected causal candidate is in it, although no aggregation of the same candidates selects it. */
  lemma BuiltChainKeepsRejected(
    selection: TemporalSelection, scope: KnowledgeScope, cs: seq<StateCandidate>, c: Claim, sel: ValidTimeSelector, e: Entry)
    requires Chainable(selection, cs)
    requires c in ClaimsOf(cs) && StatesLink(c, scope, selection.start, selection.end) && c.observation.status.Rejected?
    ensures ChainState(selection, scope, cs).Ok?
    ensures exists link | link in ChainState(selection, scope, cs).value ::
      link.cause == c.key.subject && link.effect == c.value && c.observation.id in link.observationIds
    ensures e in Entries(ClaimsOf(cs), scope, sel) ==> e.claim != c
  {
    ChainIsBuilt(selection, scope, cs);
    LinksAreStated(ClaimsOf(cs), scope, selection.start, selection.end, c);
    RejectedClaimsStayExplicit(ClaimsOf(cs), scope, selection.start, selection.end, c, sel, e);
  }

  /** A chain reports the first candidate that does not fit its observation, or that gives the observation
      ID of an earlier causal candidate another key, value or payload. */
  lemma ChainErrorNamesCulprit(selection: TemporalSelection, scope: KnowledgeScope, cs: seq<StateCandidate>, i: nat)
    requires selection.WindowSelection? && i < |cs| && CausallyAccepted(cs[..i]) && !CausallyAccepted(cs[..i + 1])
    ensures ChainState(selection, scope, cs) ==
      Err(RejectedCandidates(if CandidateMatches(cs[i]) then ConflictingPayload else InvalidCandidate))
  {
    CausallyAcceptedIsErrorFree(cs[..i]);
    CausallyAcceptedIsErrorFree(cs[..i + 1]);
    CausalErrorOfPrefix(cs, i);
    CausalErrorPersists(cs, i + 1);
  }
}
