/** String comparison, and sorting by a strict total order.

    Every slice the engine sorts is first collected from a map, so its items are distinct.
    `Sorted` is the only strictly increasing arrangement of such a set, whatever order the
    map was walked in and whatever algorithm sorted it. */
module Ordering {

  /** strings.Compare: -1, 0 or 1 in lexicographic order. */
  function CompareStrings(left: string, right: string): int {
    if left == "" && right == "" then 0
    else if left == "" then -1
    else if right == "" then 1
    else if left[0] < right[0] then -1
    else if right[0] < left[0] then 1
    else CompareStrings(left[1..], right[1..])
  }

  predicate StringLess(left: string, right: string) {
    CompareStrings(left, right) < 0
  }

  lemma {:induction false} CompareStringsIsAntisymmetric(a: string, b: string)
    ensures CompareStrings(a, b) == 0 <==> a == b
    ensures CompareStrings(b, a) == -CompareStrings(a, b)
  {
    if a != "" && b != "" {
      CompareStringsIsAntisymmetric(a[1..], b[1..]);
      assert a == [a[0]] + a[1..] && b == [b[0]] + b[1..];
    }
  }

  lemma {:induction false} CompareStringsIsTransitive(a: string, b: string, c: string)
    requires CompareStrings(a, b) < 0 && CompareStrings(b, c) < 0
    ensures CompareStrings(a, c) < 0
  {
    if a != "" && c != "" {
      if a[0] == b[0] && b[0] == c[0] {
        CompareStringsIsTransitive(a[1..], b[1..], c[1..]);
      }
    }
  }

  /** They agree up to some position, where the left one ends or has the smaller character. */
  ghost predicate SmallerAt(left: string, right: string, i: nat) {
    i <= |left| && i < |right| && left[..i] == right[..i] && (i == |left| || left[i] < right[i])
  }

  /** The order is lexicographic. */
  lemma {:induction false} StringLessIsLexicographic(left: string, right: string)
    ensures StringLess(left, right) <==> exists i: nat :: SmallerAt(left, right, i)
  {
    forall i: nat | SmallerAt(left, right, i) && i > 0 ensures left[0] == right[0] {
      assert left[..i][0] == right[..i][0];
    }
    if left != "" && right != "" && left[0] == right[0] {
      StringLessIsLexicographic(left[1..], right[1..]);
      assert left == [left[0]] + left[1..] && right == [right[0]] + right[1..];
      if i: nat :| SmallerAt(left[1..], right[1..], i) {
        assert left[..i + 1] == [left[0]] + left[1..][..i] && right[..i + 1] == [right[0]] + right[1..][..i];
        assert SmallerAt(left, right, i + 1);
      }
      if i: nat :| SmallerAt(left, right, i) {
        assert left[1..][..i - 1] == left[..i][1..] && right[1..][..i - 1] == right[..i][1..];
        assert SmallerAt(left[1..], right[1..], i - 1);
      }
    } else {
      assert SmallerAt(left, right, 0) <==> right != "" && (left == "" || left[0] < right[0]);
    }
  }

  lemma StringOrder(s: set<string>)
    ensures StrictOrderOn(StringLess, s)
  {
    forall x, y | x in s && y in s
      ensures CompareStrings(x, y) == 0 <==> x == y
      ensures CompareStrings(y, x) == -CompareStrings(x, y)
    {
      CompareStringsIsAntisymmetric(x, y);
    }
    forall x, y, z | x in s && y in s && z in s && StringLess(x, y) && StringLess(y, z)
      ensures StringLess(x, z)
    {
      CompareStringsIsTransitive(x, y, z);
    }
  }

  ghost predicate StrictOrderOn<T>(less: (T, T) -> bool, s: set<T>) {
    && (forall x | x in s :: !less(x, x))
    && (forall x, y | x in s && y in s && x != y :: less(x, y) || less(y, x))
    && (forall x, y, z | x in s && y in s && z in s && less(x, y) && less(y, z) :: less(x, z))
  }

  ghost predicate StrictlySorted<T>(less: (T, T) -> bool, r: seq<T>) {
    forall i, j | 0 <= i < j < |r| :: less(r[i], r[j])
  }

  ghost predicate Distinct<T>(r: seq<T>) {
    forall i, j | 0 <= i < j < |r| :: r[i] != r[j]
  }

  ghost function Elements<T>(r: seq<T>): set<T> {
    set x | x in r
  }

  function Insert<T>(less: (T, T) -> bool, x: T, r: seq<T>): seq<T> {
    if r == [] || less(x, r[0]) then [x] + r else [r[0]] + Insert(less, x, r[1..])
  }

  lemma {:induction false} InsertKeepsSorted<T>(less: (T, T) -> bool, x: T, r: seq<T>)
    requires x !in r && StrictlySorted(less, r) && StrictOrderOn(less, Elements(r) + {x})
    ensures StrictlySorted(less, Insert(less, x, r))
    ensures Elements(Insert(less, x, r)) == Elements(r) + {x}
  {
    if r == [] || less(x, r[0]) {
      assert forall y | y in r :: y in Elements(r);
    } else {
      assert Elements(r) == Elements(r[1..]) + {r[0]} by {
        assert r == [r[0]] + r[1..];
      }
      assert less(r[0], x) by { assert r[0] in Elements(r) + {x} && x in Elements(r) + {x}; }
      InsertKeepsSorted(less, x, r[1..]);
      var t := Insert(less, x, r[1..]);
      forall y | y in t ensures less(r[0], y) {
        assert y in Elements(r[1..]) + {x};
      }
    }
  }

  /** The elements of `s` in increasing order, when `less` is a strict total order on them. */
  ghost function Sorted<T>(less: (T, T) -> bool, s: set<T>): seq<T> {
    if s == {} then [] else var x :| x in s; Insert(less, x, Sorted(less, s - {x}))
  }

  lemma {:induction false} SortedIsSorted<T>(less: (T, T) -> bool, s: set<T>)
    requires StrictOrderOn(less, s)
    ensures StrictlySorted(less, Sorted(less, s)) && Elements(Sorted(less, s)) == s
    decreases s
  {
    if s != {} {
      var x :| x in s && Sorted(less, s) == Insert(less, x, Sorted(less, s - {x}));
      var rest := Sorted(less, s - {x});
      SortedIsSorted(less, s - {x});
      assert x !in rest by { assert x !in Elements(rest); }
      assert Elements(rest) + {x} == s;
      InsertKeepsSorted(less, x, rest);
    }
  }

  lemma {:induction false} SortedIsUnique<T>(less: (T, T) -> bool, p: seq<T>, q: seq<T>)
    requires Elements(p) == Elements(q) && StrictOrderOn(less, Elements(p))
    requires StrictlySorted(less, p) && StrictlySorted(less, q)
    ensures p == q
  {
    NoElements(p);
    NoElements(q);
    if p != [] {
      SameHead(less, p, q);
      TailElements(less, p);
      TailElements(less, q);
      SortedIsUnique(less, p[1..], q[1..]);
      assert p == [p[0]] + p[1..] && q == [q[0]] + q[1..];
    }
  }

  lemma SameHead<T>(less: (T, T) -> bool, p: seq<T>, q: seq<T>)
    requires Elements(p) == Elements(q) && StrictOrderOn(less, Elements(p)) && p != [] && q != []
    requires StrictlySorted(less, p) && StrictlySorted(less, q)
    ensures p[0] == q[0]
  {
    NoElements(p);
    NoElements(q);
    LeastElement(less, p, q[0]);
    LeastElement(less, q, p[0]);
  }

  lemma LeastElement<T>(less: (T, T) -> bool, p: seq<T>, x: T)
    requires p != [] && StrictlySorted(less, p) && x in Elements(p)
    ensures p[0] in Elements(p) && (x == p[0] || less(p[0], x))
  {
    var i :| 0 <= i < |p| && p[i] == x;
  }

  lemma NoElements<T>(r: seq<T>)
    ensures Elements(r) == {} <==> r == []
    ensures r != [] ==> r[0] in Elements(r)
  {
    if r != [] { assert r[0] in Elements(r); }
  }

  lemma TailElements<T>(less: (T, T) -> bool, p: seq<T>)
    requires p != [] && StrictlySorted(less, p) && StrictOrderOn(less, Elements(p))
    ensures Elements(p[1..]) == Elements(p) - {p[0]}
  {
    forall x | x in Elements(p[1..]) ensures x in Elements(p) && x != p[0] {
      assert less(p[0], x);
    }
    assert p == [p[0]] + p[1..];
  }

  /** sort.Slice on a slice of distinct items. */
  method SortSlice<T>(items: seq<T>, less: (T, T) -> bool) returns (r: seq<T>)
    requires Distinct(items) && StrictOrderOn(less, Elements(items))
    ensures r == Sorted(less, Elements(items))
  {
    r := [];
    for i := 0 to |items|
      invariant StrictlySorted(less, r) && Elements(r) == Elements(items[..i])
    {
      assert Elements(items[..i]) + {items[i]} == Elements(items[..i + 1]) <= Elements(items);
      assert items[i] !in r by { assert items[i] !in Elements(r); }
      InsertKeepsSorted(less, items[i], r);
      r := Insert(less, items[i], r);
    }
    assert items[..|items|] == items;
    SortedIsSorted(less, Elements(items));
    SortedIsUnique(less, r, Sorted(less, Elements(items)));
  }

  /** Collects the keys of a map in whatever order it is walked, then sorts them. */
  method SortedElements<T(==)>(s: set<T>, less: (T, T) -> bool) returns (r: seq<T>)
    requires StrictOrderOn(less, s)
    ensures r == Sorted(less, s)
  {
    var items := CollectElements(s);
    r := SortSlice(items, less);
  }

  method CollectElements<T(==)>(s: set<T>) returns (items: seq<T>)
    ensures Distinct(items) && Elements(items) == s
  {
    items := [];
    var rest := s;
    while rest != {}
      invariant Distinct(items) && rest <= s && Elements(items) == s - rest
    {
      var x :| x in rest;
      assert x !in items by { assert x !in Elements(items); }
      assert Elements(items + [x]) == Elements(items) + {x};
      items := items + [x];
      rest := rest - {x};
    }
  }
}
