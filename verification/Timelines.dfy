/** A timeline: increasing boundaries, and the states left of and between them. `cells[i]` holds
    just before boundary i, `cells[i + 1]` from there to the next one. */
module Timelines {
  import opened Observations
  import opened Ordering
  import opened States
  import opened Materials
  import opened Transitions

  ghost predicate Increasing(bs: seq<Time>) {
    forall i, j | 0 <= i < j < |bs| :: bs[i] < bs[j]
  }

  ghost predicate Timeline(bs: seq<Time>, cells: seq<Material>) {
    && |cells| == |bs|
    && Increasing(bs)
    && forall i | 0 <= i < |cells| :: CanonicalMaterial(cells[i])
  }

  /** The transitions of each boundary, each block in key order. */
  ghost function Diffs(bs: seq<Time>, cells: seq<Material>): (blocks: seq<seq<Transition>>)
    requires |cells| == |bs| > 0
    ensures |blocks| == |bs| - 1
    ensures forall i | 0 <= i < |blocks| :: blocks[i] == Diff(cells[i], cells[i + 1], bs[i])
  {
    seq(|bs| - 1, i requires 0 <= i < |bs| - 1 => Diff(cells[i], cells[i + 1], bs[i]))
  }

  lemma BlockAt(bs: seq<Time>, cells: seq<Material>, i: nat)
    requires |cells| == |bs| && i + 1 < |bs|
    ensures Diffs(bs, cells)[i] == Diff(cells[i], cells[i + 1], bs[i])
  {
  }

  function Flatten<T>(blocks: seq<seq<T>>): seq<T> {
    if blocks == [] then [] else Flatten(blocks[..|blocks| - 1]) + blocks[|blocks| - 1]
  }

  lemma FlattenOneMore<T>(blocks: seq<seq<T>>, i: nat)
    requires i < |blocks|
    ensures Flatten(blocks[..i + 1]) == Flatten(blocks[..i]) + blocks[i]
  {
    assert blocks[..i + 1][..i] == blocks[..i];
  }

  ghost function SortEach<T>(less: (T, T) -> bool, blocks: seq<seq<T>>): seq<seq<T>> {
    seq(|blocks|, i requires 0 <= i < |blocks| => Sorted(less, Elements(blocks[i])))
  }

  /** The transitions of a block: one per canonical key, all at the block's boundary. */
  ghost predicate KeyedBlock(at: Time, block: seq<Transition>) {
    && Distinct(block)
    && (forall t | t in block :: t.at == at && CanonicalKey(t.key))
    && (forall t, u | t in block && u in block && t.key == u.key :: t == u)
  }

  ghost predicate KeyedBlocks(bs: seq<Time>, blocks: seq<seq<Transition>>) {
    && |blocks| <= |bs| && Increasing(bs)
    && forall i | 0 <= i < |blocks| :: KeyedBlock(bs[i], blocks[i])
  }

  lemma SortedKeysAreDistinct(keys: set<StateKey>)
    requires forall k | k in keys :: CanonicalKey(k)
    ensures Distinct(Sorted(KeyLess, keys))
  {
    KeyOrder(keys);
    SortedIsSorted(KeyLess, keys);
    SortedIsDistinct(KeyLess, Sorted(KeyLess, keys));
  }

  lemma DiffIsKeyed(before: Material, after: Material, at: Time)
    requires CanonicalMaterial(before) && CanonicalMaterial(after)
    ensures KeyedBlock(at, Diff(before, after, at))
  {
    var keys := FactKeys(before) + FactKeys(after);
    SortedKeysAreDistinct(keys);
    DiffOverIsDistinct(Sorted(KeyLess, keys), before, after, at);
    forall t | t in Diff(before, after, at)
      ensures t.at == at && CanonicalKey(t.key) && KeyTransition(before, after, at, t.key) == [t]
    {
      InDiff(before, after, at, t);
      FactForMember(before.facts, t.key);
      FactForMember(after.facts, t.key);
    }
  }

  lemma DiffsAreKeyed(bs: seq<Time>, cells: seq<Material>)
    requires Timeline(bs, cells) && |bs| > 0
    ensures KeyedBlocks(bs, Diffs(bs, cells))
  {
    var blocks := Diffs(bs, cells);
    forall i | 0 <= i < |blocks| ensures KeyedBlock(bs[i], blocks[i]) {
      BlockAt(bs, cells, i);
      DiffIsKeyed(cells[i], cells[i + 1], bs[i]);
    }
  }

  lemma {:induction false} InFlatten<T>(blocks: seq<seq<T>>, t: T)
    ensures t in Flatten(blocks) <==> exists i :: 0 <= i < |blocks| && t in blocks[i]
  {
    if blocks != [] {
      InFlatten(blocks[..|blocks| - 1], t);
    }
  }

  lemma FlattenIsKeyed(bs: seq<Time>, blocks: seq<seq<Transition>>)
    requires KeyedBlocks(bs, blocks)
    ensures KeyedTransitions(Elements(Flatten(blocks)))
  {
    var all := Elements(Flatten(blocks));
    forall t | t in all ensures exists i :: 0 <= i < |blocks| && t in blocks[i] {
      InFlatten(blocks, t);
    }
    forall t, u | t in all && u in all && t.at == u.at && t.key == u.key ensures t == u {
      var i :| 0 <= i < |blocks| && t in blocks[i];
      var j :| 0 <= j < |blocks| && u in blocks[j];
      assert KeyedBlock(bs[i], blocks[i]) && KeyedBlock(bs[j], blocks[j]);
      assert i == j;
    }
  }

  lemma PrefixIsKeyed(bs: seq<Time>, blocks: seq<seq<Transition>>)
    requires KeyedBlocks(bs, blocks) && blocks != []
    ensures KeyedBlocks(bs, blocks[..|blocks| - 1])
    ensures forall t | t in Flatten(blocks[..|blocks| - 1]) :: t.at < bs[|blocks| - 1]
    ensures KeyedBlock(bs[|blocks| - 1], blocks[|blocks| - 1])
  {
    forall t | t in Flatten(blocks[..|blocks| - 1]) ensures t.at < bs[|blocks| - 1] {
      InFlatten(blocks[..|blocks| - 1], t);
      var i :| 0 <= i < |blocks| - 1 && t in blocks[i];
      assert KeyedBlock(bs[i], blocks[i]);
    }
  }

  lemma {:induction false} FlattenIsDistinct(bs: seq<Time>, blocks: seq<seq<Transition>>)
    requires KeyedBlocks(bs, blocks)
    ensures Distinct(Flatten(blocks))
  {
    if blocks != [] {
      PrefixIsKeyed(bs, blocks);
      FlattenIsDistinct(bs, blocks[..|blocks| - 1]);
      var (p, q) := (Flatten(blocks[..|blocks| - 1]), blocks[|blocks| - 1]);
      forall i, j | 0 <= i < |p| && 0 <= j < |q| ensures p[i] != q[j] {
        assert p[i] in p && q[j] in q;
      }
    }
  }

  lemma ConcatIsSorted<T>(less: (T, T) -> bool, p: seq<T>, q: seq<T>)
    requires StrictlySorted(less, p) && StrictlySorted(less, q)
    requires forall i, j | 0 <= i < |p| && 0 <= j < |q| :: less(p[i], q[j])
    ensures StrictlySorted(less, p + q)
  {
  }

  lemma ElementsOfConcat<T>(p: seq<T>, q: seq<T>)
    ensures Elements(p + q) == Elements(p) + Elements(q)
  {
  }

  lemma SortedIsDistinct<T>(less: (T, T) -> bool, r: seq<T>)
    requires StrictlySorted(less, r) && StrictOrderOn(less, Elements(r))
    ensures Distinct(r)
  {
    forall i, j | 0 <= i < j < |r| ensures r[i] != r[j] {
      assert less(r[i], r[j]) && r[i] in Elements(r);
    }
  }

  lemma SortedBlock(at: Time, block: seq<Transition>, observations: map<string, Observation>)
    requires KeyedBlock(at, block)
    ensures var sorted := Sorted(TransitionOrder(observations), Elements(block));
      && StrictlySorted(TransitionOrder(observations), sorted)
      && Elements(sorted) == Elements(block) && Distinct(sorted)
  {
    assert KeyedTransitions(Elements(block));
    TransitionOrderIsStrict(observations, Elements(block));
    SortedIsSorted(TransitionOrder(observations), Elements(block));
    SortedIsDistinct(TransitionOrder(observations), Sorted(TransitionOrder(observations), Elements(block)));
  }

  lemma EarlierComesFirst(p: seq<Transition>, q: seq<Transition>, at: Time, observations: map<string, Observation>)
    requires forall t | t in p :: t.at < at
    requires forall t | t in q :: t.at == at
    ensures forall i, j | 0 <= i < |p| && 0 <= j < |q| :: TransitionOrder(observations)(p[i], q[j])
  {
    forall i, j | 0 <= i < |p| && 0 <= j < |q| ensures TransitionOrder(observations)(p[i], q[j]) {
      assert p[i] in p && q[j] in q;
    }
  }

  lemma SameElementsSameMembers<T>(p: seq<T>, q: seq<T>, t: T)
    requires Elements(p) == Elements(q)
    ensures t in p <==> t in q
  {
    assert t in Elements(p) <==> t in Elements(q);
  }

  /** The blocks, each sorted on its own, are the sorted whole: time comes first in the order. */
  lemma {:induction false} BlocksAreSorted(
    bs: seq<Time>, blocks: seq<seq<Transition>>, observations: map<string, Observation>)
    requires KeyedBlocks(bs, blocks)
    ensures StrictlySorted(TransitionOrder(observations), Flatten(SortEach(TransitionOrder(observations), blocks)))
    ensures Elements(Flatten(SortEach(TransitionOrder(observations), blocks))) == Elements(Flatten(blocks))
  {
    if blocks != [] {
      var n := |blocks| - 1;
      var each := SortEach(TransitionOrder(observations), blocks);
      assert each[..n] == SortEach(TransitionOrder(observations), blocks[..n]);
      var (p, q) := (Flatten(each[..n]), each[n]);
      PrefixIsKeyed(bs, blocks);
      BlocksAreSorted(bs, blocks[..n], observations);
      SortedBlock(bs[n], blocks[n], observations);
      forall t { SameElementsSameMembers(p, Flatten(blocks[..n]), t); }
      forall t { SameElementsSameMembers(q, blocks[n], t); }
      EarlierComesFirst(p, q, bs[n], observations);
      ConcatIsSorted(TransitionOrder(observations), p, q);
      ElementsOfConcat(p, q);
      ElementsOfConcat(Flatten(blocks[..n]), blocks[n]);
    }
  }

  /** So sorting everything that was appended gives the sorted blocks. */
  lemma SortedFlatten(bs: seq<Time>, blocks: seq<seq<Transition>>, observations: map<string, Observation>)
    requires KeyedBlocks(bs, blocks)
    ensures StrictOrderOn(TransitionOrder(observations), Elements(Flatten(blocks)))
    ensures Sorted(TransitionOrder(observations), Elements(Flatten(blocks)))
         == Flatten(SortEach(TransitionOrder(observations), blocks))
  {
    var all := Elements(Flatten(blocks));
    FlattenIsKeyed(bs, blocks);
    TransitionOrderIsStrict(observations, all);
    SortedIsSorted(TransitionOrder(observations), all);
    BlocksAreSorted(bs, blocks, observations);
    SortedIsUnique(TransitionOrder(observations), Sorted(TransitionOrder(observations), all),
                   Flatten(SortEach(TransitionOrder(observations), blocks)));
  }

  /** orderCoreTransitions */
  method OrderCoreTransitions(
    transitions: seq<Transition>, observations: map<string, Observation>,
    ghost bs: seq<Time>, ghost blocks: seq<seq<Transition>>)
    returns (ordered: seq<Transition>)
    requires KeyedBlocks(bs, blocks) && transitions == Flatten(blocks)
    ensures ordered == Flatten(SortEach(TransitionOrder(observations), blocks))
  {
    SortedFlatten(bs, blocks, observations);
    FlattenIsDistinct(bs, blocks);
    ordered := SortSlice(transitions, TransitionOrder(observations));
  }
}
