/** Shared by the other modules: a value that may be absent (`undefined`, `null`, `None`), facts
    about finite sets, and sequences without repeats. */
module Common {
  datatype Option<+T> = None | Some(value: T)

  ghost function Image<A, B>(s: set<A>, f: map<A, B>): set<B>
    requires s <= f.Keys
  {
    set x | x in s :: f[x]
  }

  /** An injective image has as many elements as its source. */
  lemma {:induction false} InjectiveImage<A, B>(s: set<A>, f: map<A, B>)
    requires s <= f.Keys
    requires forall x, y | x in s && y in s && f[x] == f[y] :: x == y
    ensures |Image(s, f)| == |s|
  {
    if s == {} {
      assert Image(s, f) == {};
    } else {
      var x :| x in s;
      InjectiveImage(s - {x}, f);
      assert Image(s, f) == Image(s - {x}, f) + {f[x]};
    }
  }

  lemma SubsetSize<A>(a: set<A>, b: set<A>)
    requires a <= b
    ensures |a| <= |b|
    ensures |a| == |b| ==> a == b
  {
    assert b == a + (b - a);
  }

  ghost function Below(n: nat): (s: set<int>)
    ensures |s| == n
    ensures forall k :: k in s <==> 0 <= k < n
  {
    if n == 0 then {} else Below(n - 1) + {n - 1}
  }

  ghost predicate Distinct<T>(s: seq<T>) {
    forall i, j | 0 <= i < j < |s| :: s[i] != s[j]
  }

  lemma {:induction false} DistinctCounts<T>(s: seq<T>)
    requires Distinct(s)
    ensures forall x | x in multiset(s) :: multiset(s)[x] == 1
  {
    if s != [] {
      var t := s[..|s|-1];
      DistinctCounts(t);
      assert s == t + [s[|s|-1]];
    }
  }

  /** A permutation of distinct elements has distinct elements. */
  lemma DistinctPermutation<T>(a: seq<T>, b: seq<T>)
    requires Distinct(a) && multiset(a) == multiset(b)
    ensures Distinct(b)
  {
    DistinctCounts(a);
    forall i, j | 0 <= i < j < |b| ensures b[i] != b[j] {
      var x := b[i];
      assert b == b[..i] + [b[i]] + b[i+1..j] + [b[j]] + b[j+1..];
      assert b[j] == x ==> multiset(b)[x] >= 2;
      assert x in multiset(a);
    }
  }
}
