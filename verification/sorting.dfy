/** The stable sort both runtimes provide (`Array.prototype.sort`, `list.sort`), as a
    function on sequences: its result is ordered, a permutation, and keeps the relative
    order of elements that compare equal. */
module Sorting {

  /** `leq` is a total preorder on the elements of `s`. */
  ghost predicate OrderOn<T>(leq: (T, T) -> bool, s: seq<T>) {
    && (forall x, y | x in s && y in s :: leq(x, y) || leq(y, x))
    && (forall x, y, z {:trigger Between(leq, x, y, z)} |
          x in s && y in s && z in s && Between(leq, x, y, z) :: leq(x, z))
  }

  ghost predicate Between<T>(leq: (T, T) -> bool, x: T, y: T, z: T) {
    leq(x, y) && leq(y, z)
  }

  ghost predicate Sorted<T>(leq: (T, T) -> bool, s: seq<T>) {
    forall i, j {:trigger leq(s[i], s[j])} | 0 <= i < j < |s| :: leq(s[i], s[j])
  }

  function Filter<T>(p: T -> bool, s: seq<T>): seq<T> {
    if s == [] then [] else Filter(p, s[..|s|-1]) + if p(s[|s|-1]) then [s[|s|-1]] else []
  }

  /** Put `x` behind the last element that does not exceed it. */
  function Insert<T>(leq: (T, T) -> bool, s: seq<T>, x: T): seq<T> {
    if s == [] || leq(s[|s|-1], x) then s + [x]
    else Insert(leq, s[..|s|-1], x) + [s[|s|-1]]
  }

  function StableSort<T>(leq: (T, T) -> bool, s: seq<T>): seq<T> {
    if s == [] then [] else Insert(leq, StableSort(leq, s[..|s|-1]), s[|s|-1])
  }

  lemma {:induction false} InsertElements<T>(leq: (T, T) -> bool, s: seq<T>, x: T)
    ensures multiset(Insert(leq, s, x)) == multiset(s) + multiset{x}
  {
    if s != [] && !leq(s[|s|-1], x) {
      InsertElements(leq, s[..|s|-1], x);
      assert s == s[..|s|-1] + [s[|s|-1]];
    }
  }

  lemma SameElements<T>(a: seq<T>, b: seq<T>)
    requires multiset(a) == multiset(b)
    ensures |a| == |b|
    ensures forall x :: x in a <==> x in b
  {
    assert |a| == |multiset(a)| == |b|;
    forall x ensures x in a <==> x in b {
      assert x in multiset(a) <==> x in multiset(b);
    }
  }

  lemma {:induction false} InsertSorted<T>(leq: (T, T) -> bool, s: seq<T>, x: T)
    requires OrderOn(leq, s + [x]) && Sorted(leq, s)
    ensures Sorted(leq, Insert(leq, s, x))
  {
    if s == [] || leq(s[|s|-1], x) {
      AppendSorted(leq, s, x);
    } else {
      var t, last := s[..|s|-1], s[|s|-1];
      OrderOnPart(leq, s + [x], t + [x]);
      InsertSorted(leq, t, x);
      InsertElements(leq, t, x);
      var r := Insert(leq, t, x);
      assert leq(x, last) by {
        assert x in s + [x] && last in s + [x];
      }
      forall y | y in r ensures leq(y, last) {
        if y != x {
          assert y in multiset(t + [x]);
          var k :| 0 <= k < |t| && t[k] == y;
          assert leq(s[k], s[|s|-1]);
        }
      }
      ConcatSorted(leq, r, last);
    }
  }

  lemma AppendSorted<T>(leq: (T, T) -> bool, s: seq<T>, x: T)
    requires OrderOn(leq, s + [x]) && Sorted(leq, s)
    requires s == [] || leq(s[|s|-1], x)
    ensures Sorted(leq, s + [x])
  {
    forall i | 0 <= i < |s| ensures leq(s[i], x) {
      var e := s + [x];
      assert e[i] in e && e[|s|-1] in e && e[|s|] in e;
      if i < |s| - 1 { assert Between(leq, s[i], s[|s|-1], x); }
    }
  }

  lemma ConcatSorted<T>(leq: (T, T) -> bool, s: seq<T>, x: T)
    requires Sorted(leq, s) && forall y | y in s :: leq(y, x)
    ensures Sorted(leq, s + [x])
  {
  }

  /** An order on a list is an order on any list of its elements. */
  lemma OrderOnPart<T>(leq: (T, T) -> bool, s: seq<T>, part: seq<T>)
    requires OrderOn(leq, s) && forall x | x in part :: x in s
    ensures OrderOn(leq, part)
  {
  }

  /** The sorted list is ordered and holds exactly the given elements. */
  lemma {:induction false} StableSortSorts<T>(leq: (T, T) -> bool, s: seq<T>)
    requires OrderOn(leq, s)
    ensures Sorted(leq, StableSort(leq, s))
    ensures multiset(StableSort(leq, s)) == multiset(s)
    ensures |StableSort(leq, s)| == |s|
    ensures forall x :: x in StableSort(leq, s) <==> x in s
  {
    if s != [] {
      var t, x := s[..|s|-1], s[|s|-1];
      assert s == t + [x];
      OrderOnPart(leq, s, t);
      StableSortSorts(leq, t);
      var r := StableSort(leq, t);
      forall y | y in r + [x] ensures y in s {
        assert y in multiset(r) || y == x;
      }
      OrderOnPart(leq, s, r + [x]);
      InsertSorted(leq, r, x);
      InsertElements(leq, r, x);
    }
    SameElements(StableSort(leq, s), s);
  }

  lemma {:induction false} FilterConcat<T>(p: T -> bool, a: seq<T>, b: seq<T>)
    ensures Filter(p, a + b) == Filter(p, a) + Filter(p, b)
  {
    if b == [] {
      assert a + b == a;
    } else {
      assert (a + b)[..|a + b|-1] == a + b[..|b|-1];
      FilterConcat(p, a, b[..|b|-1]);
    }
  }

  /** What a filter keeps, where it came from, and that it keeps the order. */
  lemma {:induction false} FilterElements<T>(p: T -> bool, s: seq<T>)
    ensures forall x :: x in Filter(p, s) <==> x in s && p(x)
    ensures |Filter(p, s)| <= |s|
  {
    if s != [] {
      FilterElements(p, s[..|s|-1]);
      assert s == s[..|s|-1] + [s[|s|-1]];
    }
  }

  /** Sorting a sorted list changes nothing. */
  lemma {:induction false} SortedIsFixed<T>(leq: (T, T) -> bool, s: seq<T>)
    requires Sorted(leq, s)
    ensures StableSort(leq, s) == s
  {
    if s != [] {
      SortedIsFixed(leq, s[..|s|-1]);
      if |s| > 1 { assert leq(s[|s|-2], s[|s|-1]); }
      assert s == s[..|s|-1] + [s[|s|-1]];
    }
  }

  /** Where an insertion puts its element: behind position `j`, the last that does not
      exceed it. */
  lemma {:induction false} InsertAt<T>(leq: (T, T) -> bool, s: seq<T>, x: T, j: nat)
    requires j <= |s| && (j == 0 || leq(s[j-1], x))
    requires forall m | j <= m < |s| :: !leq(s[m], x)
    ensures Insert(leq, s, x) == s[..j] + [x] + s[j..]
  {
    if j < |s| {
      var t := s[..|s|-1];
      InsertAt(leq, t, x, j);
      assert t[..j] == s[..j] && t[j..] + [s[|s|-1]] == s[j..];
    } else {
      assert s[..j] == s && s[j..] == [];
    }
  }

  /** Filtering commutes with filtering. */
  lemma {:induction false} FilterTwice<T>(p: T -> bool, q: T -> bool, s: seq<T>)
    ensures Filter(p, Filter(q, s)) == Filter(q, Filter(p, s))
  {
    if s != [] {
      var t, x := s[..|s|-1], s[|s|-1];
      FilterTwice(p, q, t);
      FilterConcat(p, Filter(q, t), if q(x) then [x] else []);
      FilterConcat(q, Filter(p, t), if p(x) then [x] else []);
    }
  }

  lemma {:induction false} FilterAll<T>(p: T -> bool, s: seq<T>)
    requires forall x | x in s :: p(x)
    ensures Filter(p, s) == s
  {
    if s != [] {
      assert s == s[..|s|-1] + [s[|s|-1]];
      FilterAll(p, s[..|s|-1]);
    }
  }

  lemma {:induction false} FilterNone<T>(p: T -> bool, s: seq<T>)
    requires forall x | x in s :: !p(x)
    ensures Filter(p, s) == []
  {
    if s != [] {
      assert s == s[..|s|-1] + [s[|s|-1]];
      FilterNone(p, s[..|s|-1]);
    }
  }

  lemma {:induction false} InsertFilterLength<T>(leq: (T, T) -> bool, p: T -> bool, s: seq<T>, x: T)
    ensures |Filter(p, Insert(leq, s, x))| == |Filter(p, s)| + if p(x) then 1 else 0
  {
    if s != [] && !leq(s[|s|-1], x) {
      InsertFilterLength(leq, p, s[..|s|-1], x);
    }
  }

  /** Sorting keeps the number of elements with a property. */
  lemma {:induction false} SortFilterLength<T>(leq: (T, T) -> bool, p: T -> bool, s: seq<T>)
    ensures |Filter(p, StableSort(leq, s))| == |Filter(p, s)|
  {
    if s != [] {
      SortFilterLength(leq, p, s[..|s|-1]);
      InsertFilterLength(leq, p, StableSort(leq, s[..|s|-1]), s[|s|-1]);
    }
  }

  lemma {:induction false} FilterMember<T>(p: T -> bool, s: seq<T>, x: T)
    ensures x in Filter(p, s) <==> x in s && p(x)
  {
    if s != [] {
      FilterMember(p, s[..|s|-1], x);
      assert s == s[..|s|-1] + [s[|s|-1]];
    }
  }

  lemma FilterLastBefore<T>(leq: (T, T) -> bool, p: T -> bool, s: seq<T>, x: T)
    requires OrderOn(leq, s + [x]) && Sorted(leq, s)
    requires s != [] && leq(s[|s|-1], x) && Filter(p, s) != []
    ensures leq(Filter(p, s)[|Filter(p, s)|-1], x)
  {
    var f := Filter(p, s);
    var y := f[|f|-1];
    FilterMember(p, s, y);
    var k :| 0 <= k < |s| && s[k] == y;
    if k < |s| - 1 {
      var e := s + [x];
      assert e[k] in e && e[|s|-1] in e && e[|s|] in e;
      assert leq(s[k], s[|s|-1]);
      assert Between(leq, y, s[|s|-1], x);
    }
  }

  lemma InsertBehind<T>(leq: (T, T) -> bool, t: seq<T>, last: T, x: T)
    requires !leq(last, x)
    ensures Insert(leq, t + [last], x) == Insert(leq, t, x) + [last]
  {
    assert (t + [last])[..|t|] == t;
  }

  lemma OrderOnInit<T>(leq: (T, T) -> bool, t: seq<T>, last: T, x: T)
    requires OrderOn(leq, t + [last] + [x])
    ensures OrderOn(leq, t + [x])
  {
    forall y | y in t + [x] ensures y in t + [last] + [x] {
      assert y in t || y == x;
    }
    OrderOnPart(leq, t + [last] + [x], t + [x]);
  }

  lemma AppendFilter<T>(leq: (T, T) -> bool, p: T -> bool, s: seq<T>, x: T)
    requires OrderOn(leq, s + [x]) && Sorted(leq, s)
    requires s == [] || leq(s[|s|-1], x)
    ensures Filter(p, Insert(leq, s, x)) == if p(x) then Insert(leq, Filter(p, s), x) else Filter(p, s)
  {
    hide OrderOn, Sorted;
    FilterAppend(p, s, x);
    if s != [] && Filter(p, s) != [] { FilterLastBefore(leq, p, s, x); }
  }

  lemma {:induction false} InsertSortedFilter<T>(leq: (T, T) -> bool, p: T -> bool, s: seq<T>, x: T)
    requires OrderOn(leq, s + [x]) && Sorted(leq, s)
    ensures Filter(p, Insert(leq, s, x)) == if p(x) then Insert(leq, Filter(p, s), x) else Filter(p, s)
  {
    hide OrderOn, Filter, Insert;
    if s == [] || leq(s[|s|-1], x) {
      AppendFilter(leq, p, s, x);
    } else {
      var t, last := s[..|s|-1], s[|s|-1];
      assert s == t + [last];
      OrderOnInit(leq, t, last, x);
      InsertSortedFilter(leq, p, t, x);
      InsertFilterStep(leq, p, t, last, x);
    }
  }

  lemma InsertFilterStep<T>(leq: (T, T) -> bool, p: T -> bool, t: seq<T>, last: T, x: T)
    requires !leq(last, x)
    requires Filter(p, Insert(leq, t, x)) == if p(x) then Insert(leq, Filter(p, t), x) else Filter(p, t)
    ensures Filter(p, Insert(leq, t + [last], x)) ==
            if p(x) then Insert(leq, Filter(p, t + [last]), x) else Filter(p, t + [last])
  {
    hide Insert;
    InsertBehind(leq, t, last, x);
    InsertBehind(leq, Filter(p, t), last, x);
    FilterAppend(p, t, last);
    FilterAppend(p, Insert(leq, t, x), last);
  }

  lemma FilterAppend<T>(p: T -> bool, s: seq<T>, x: T)
    ensures Filter(p, s + [x]) == if p(x) then Filter(p, s) + [x] else Filter(p, s)
  {
    assert (s + [x])[..|s|] == s;
  }

  lemma SortAppend<T>(leq: (T, T) -> bool, t: seq<T>, x: T)
    ensures StableSort(leq, t + [x]) == Insert(leq, StableSort(leq, t), x)
  {
    assert (t + [x])[..|t|] == t;
  }

  lemma SortFilterStep<T>(leq: (T, T) -> bool, p: T -> bool, t: seq<T>, x: T)
    requires Filter(p, StableSort(leq, t)) == StableSort(leq, Filter(p, t))
    requires Filter(p, Insert(leq, StableSort(leq, t), x)) ==
             if p(x) then Insert(leq, Filter(p, StableSort(leq, t)), x) else Filter(p, StableSort(leq, t))
    ensures Filter(p, StableSort(leq, t + [x])) == StableSort(leq, Filter(p, t + [x]))
  {
    SortAppend(leq, t, x);
    SortAppend(leq, Filter(p, t), x);
    FilterAppend(p, t, x);
  }

  lemma OrderOnSorted<T>(leq: (T, T) -> bool, t: seq<T>, x: T)
    requires OrderOn(leq, t + [x])
    ensures OrderOn(leq, t) && OrderOn(leq, StableSort(leq, t) + [x]) && Sorted(leq, StableSort(leq, t))
  {
    OrderOnPart(leq, t + [x], t);
    StableSortSorts(leq, t);
    var r := StableSort(leq, t);
    forall y | y in r + [x] ensures y in t + [x] {
      assert y in multiset(r) || y == x;
    }
    OrderOnPart(leq, t + [x], r + [x]);
  }

  /** Filtering commutes with stable sorting. */
  lemma {:induction false} SortFilter<T>(leq: (T, T) -> bool, p: T -> bool, s: seq<T>)
    requires OrderOn(leq, s)
    ensures Filter(p, StableSort(leq, s)) == StableSort(leq, Filter(p, s))
  {
    hide OrderOn, Sorted, Insert;
    if s != [] {
      var t, x := s[..|s|-1], s[|s|-1];
      assert s == t + [x];
      OrderOnSorted(leq, t, x);
      SortFilter(leq, p, t);
      InsertSortedFilter(leq, p, StableSort(leq, t), x);
      SortFilterStep(leq, p, t, x);
    }
  }

  /** Stability: elements that all compare equal stay in their original order. */
  lemma StableSortIsStable<T>(leq: (T, T) -> bool, p: T -> bool, s: seq<T>)
    requires OrderOn(leq, s)
    requires forall x, y | x in s && y in s && p(x) && p(y) :: leq(x, y)
    ensures Filter(p, StableSort(leq, s)) == Filter(p, s)
  {
    hide OrderOn;
    SortFilter(leq, p, s);
    forall i, j | 0 <= i < j < |Filter(p, s)| ensures leq(Filter(p, s)[i], Filter(p, s)[j]) {
      FilterMember(p, s, Filter(p, s)[i]);
      FilterMember(p, s, Filter(p, s)[j]);
    }
    SortedIsFixed(leq, Filter(p, s));
  }
}
