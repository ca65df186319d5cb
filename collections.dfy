/**
 * The array operations the core uses on copies: `Array.prototype.filter` and the stable
 * `Array.prototype.sort` with a comparator (modelled by insertion sort, which is stable).
 */
module Collections {

  /** `a` is `b` with some elements left out, the rest in the same order. */
  ghost predicate IsSubsequence<T>(a: seq<T>, b: seq<T>)
    decreases |b|
  {
    if a == [] then true
    else if b == [] then false
    else if a[0] == b[0] then IsSubsequence(a[1..], b[1..])
    else IsSubsequence(a, b[1..])
  }

  /** `xs.filter(p)`. */
  function Filter<T(!new)>(xs: seq<T>, p: T -> bool): (r: seq<T>)
    ensures |r| <= |xs|
    ensures forall x :: x in r <==> x in xs && p(x)
    ensures IsSubsequence(r, xs)
  {
    if xs == [] then []
    else if p(xs[0]) then [xs[0]] + Filter(xs[1..], p)
    else Filter(xs[1..], p)
  }

  /** The filter keeps every copy of an element that passes and no copy of one that fails. */
  lemma {:induction false} FilterMultiplicity<T(!new)>(xs: seq<T>, p: T -> bool, x: T)
    ensures multiset(Filter(xs, p))[x] == if p(x) then multiset(xs)[x] else 0
  {
    if xs != [] {
      FilterMultiplicity(xs[1..], p, x);
      assert xs == [xs[0]] + xs[1..];
    }
  }

  /** A subsequence of a list's tail is a subsequence of the list. */
  lemma {:induction false} SubsequenceOfTail<T>(a: seq<T>, c: seq<T>)
    requires c != [] && IsSubsequence(a, c[1..])
    ensures IsSubsequence(a, c)
    decreases |c|, 0
  {
    if a != [] && a[0] == c[0] {
      SubsequenceDropHead(a, c[1..]);
    }
  }

  /** Leaving out the first element of a subsequence keeps it a subsequence. */
  lemma {:induction false} SubsequenceDropHead<T>(a: seq<T>, d: seq<T>)
    requires a != [] && IsSubsequence(a, d)
    ensures IsSubsequence(a[1..], d)
    decreases |d|, 1
  {
    if a[0] != d[0] {
      SubsequenceDropHead(a, d[1..]);
    }
    SubsequenceOfTail(a[1..], d);
  }

  /** A subsequence of a subsequence is a subsequence. */
  lemma {:induction false} SubsequenceTransitive<T>(a: seq<T>, b: seq<T>, c: seq<T>)
    requires IsSubsequence(a, b) && IsSubsequence(b, c)
    ensures IsSubsequence(a, c)
    decreases |c|
  {
    if a != [] {
      if b[0] == c[0] {
        if a[0] == b[0] {
          SubsequenceTransitive(a[1..], b[1..], c[1..]);
        } else {
          SubsequenceTransitive(a, b[1..], c[1..]);
        }
      } else {
        SubsequenceTransitive(a, b, c[1..]);
        SubsequenceOfTail(a, c);
      }
    }
  }

  /** Filtering two reorderings of one list gives reorderings of one another. */
  lemma FilterOfPermutation<T(!new)>(xs: seq<T>, ys: seq<T>, p: T -> bool)
    requires multiset(xs) == multiset(ys)
    ensures multiset(Filter(xs, p)) == multiset(Filter(ys, p))
    ensures |Filter(xs, p)| == |Filter(ys, p)|
  {
    forall x ensures multiset(Filter(xs, p))[x] == multiset(Filter(ys, p))[x] {
      FilterMultiplicity(xs, p, x);
      FilterMultiplicity(ys, p, x);
    }
    assert multiset(Filter(xs, p)) == multiset(Filter(ys, p));
    assert |multiset(Filter(xs, p))| == |multiset(Filter(ys, p))|;
  }

  /** A filter every element passes keeps the whole list. */
  lemma {:induction false} FilterAll<T(!new)>(xs: seq<T>, p: T -> bool)
    requires forall k :: 0 <= k < |xs| ==> p(xs[k])
    ensures Filter(xs, p) == xs
  {
    if xs != [] {
      FilterAll(xs[1..], p);
    }
  }

  /** A filter no element passes keeps nothing. */
  lemma FilterNone<T(!new)>(xs: seq<T>, p: T -> bool)
    requires forall k :: 0 <= k < |xs| ==> !p(xs[k])
    ensures Filter(xs, p) == []
  {
    assert forall x :: x !in Filter(xs, p);
  }

  /** Filtering distributes over concatenation. */
  lemma {:induction false} FilterAppend<T(!new)>(xs: seq<T>, ys: seq<T>, p: T -> bool)
    ensures Filter(xs + ys, p) == Filter(xs, p) + Filter(ys, p)
  {
    if xs == [] {
      assert xs + ys == ys;
    } else {
      var zs := xs + ys;
      assert zs[0] == xs[0] && zs[1..] == xs[1..] + ys;
      FilterAppend(xs[1..], ys, p);
    }
  }

  /** Two complementary filters split a list: each element goes to exactly one side. */
  lemma {:induction false} FilterPartition<T(!new)>(xs: seq<T>, p: T -> bool, q: T -> bool)
    requires forall x :: q(x) == !p(x)
    ensures multiset(Filter(xs, p)) + multiset(Filter(xs, q)) == multiset(xs)
    ensures |Filter(xs, p)| + |Filter(xs, q)| == |xs|
  {
    if xs != [] {
      FilterPartition(xs[1..], p, q);
      assert xs == [xs[0]] + xs[1..];
    }
  }

  /** Filtering a filtered list again by the same test changes nothing. */
  lemma {:induction false} FilterIdempotent<T(!new)>(xs: seq<T>, p: T -> bool)
    ensures Filter(Filter(xs, p), p) == Filter(xs, p)
  {
    if xs != [] {
      FilterIdempotent(xs[1..], p);
    }
  }

  /**
   * What `Array.prototype.sort` asks of a comparator: "a before or equal to b" (a result
   * at most zero) is total and transitive.
   */
  ghost predicate IsConsistentComparator<T(!new)>(cmp: (T, T) -> int)
  {
    && (forall a, b :: cmp(a, b) <= 0 || cmp(b, a) <= 0)
    && (forall a, b, c :: cmp(a, b) <= 0 && cmp(b, c) <= 0 ==> cmp(a, c) <= 0)
  }

  ghost predicate SortedBy<T>(s: seq<T>, cmp: (T, T) -> int)
  {
    forall i, j :: 0 <= i < j < |s| ==> cmp(s[i], s[j]) <= 0
  }

  /** Puts `x` before the first element it does not come after. */
  function InsertBy<T>(x: T, s: seq<T>, cmp: (T, T) -> int): seq<T>
  {
    if s == [] then [x]
    else if cmp(x, s[0]) <= 0 then [x] + s
    else [s[0]] + InsertBy(x, s[1..], cmp)
  }

  lemma {:induction false} InsertByPermutes<T>(x: T, s: seq<T>, cmp: (T, T) -> int)
    ensures multiset(InsertBy(x, s, cmp)) == multiset(s) + multiset{x}
    ensures |InsertBy(x, s, cmp)| == |s| + 1
  {
    if s != [] && cmp(x, s[0]) > 0 {
      assert s == [s[0]] + s[1..];
      InsertByPermutes(x, s[1..], cmp);
    }
  }

  /** Every element of `InsertBy(x, s, cmp)` is `x` or an element of `s`. */
  lemma InsertByElements<T>(x: T, s: seq<T>, cmp: (T, T) -> int, k: nat)
    requires k < |s| + 1
    ensures |InsertBy(x, s, cmp)| == |s| + 1
    ensures InsertBy(x, s, cmp)[k] == x || InsertBy(x, s, cmp)[k] in s
  {
    InsertByPermutes(x, s, cmp);
    var r := InsertBy(x, s, cmp);
    assert r[k] in multiset(r);
  }

  /** A consistent comparator puts `b` no later than `a` when it does not put `a` first. */
  lemma ComparatorTotal<T(!new)>(cmp: (T, T) -> int, a: T, b: T)
    requires IsConsistentComparator(cmp)
    ensures cmp(a, b) <= 0 || cmp(b, a) <= 0
  {
  }

  lemma ComparatorTransitive<T(!new)>(cmp: (T, T) -> int, a: T, b: T, c: T)
    requires IsConsistentComparator(cmp)
    requires cmp(a, b) <= 0 && cmp(b, c) <= 0
    ensures cmp(a, c) <= 0
  {
  }

  /** Prepending an element that comes before the head of a sorted list keeps it sorted. */
  lemma PrependSorted<T(!new)>(x: T, s: seq<T>, cmp: (T, T) -> int)
    requires IsConsistentComparator(cmp) && SortedBy(s, cmp)
    requires forall k :: 0 <= k < |s| ==> cmp(x, s[k]) <= 0
    ensures SortedBy([x] + s, cmp)
  {
    var r := [x] + s;
    forall i, j | 0 <= i < j < |r| ensures cmp(r[i], r[j]) <= 0 {
      if i == 0 {
        assert r[j] == s[j - 1];
      } else {
        assert r[i] == s[i - 1] && r[j] == s[j - 1];
      }
    }
  }

  lemma {:induction false} InsertBySorted<T(!new)>(x: T, s: seq<T>, cmp: (T, T) -> int)
    requires IsConsistentComparator(cmp) && SortedBy(s, cmp)
    ensures SortedBy(InsertBy(x, s, cmp), cmp)
  {
    if s == [] {
    } else if cmp(x, s[0]) <= 0 {
      forall k | 0 <= k < |s| ensures cmp(x, s[k]) <= 0 {
        if k > 0 {
          ComparatorTransitive(cmp, x, s[0], s[k]);
        }
      }
      PrependSorted(x, s, cmp);
    } else {
      var tail := InsertBy(x, s[1..], cmp);
      InsertBySorted(x, s[1..], cmp);
      InsertByPermutes(x, s[1..], cmp);
      ComparatorTotal(cmp, x, s[0]);
      forall k | 0 <= k < |tail| ensures cmp(s[0], tail[k]) <= 0 {
        InsertByElements(x, s[1..], cmp, k);
      }
      PrependSorted(s[0], tail, cmp);
    }
  }

  /** `[...s].sort(cmp)`: insertion sort, which keeps equal elements in input order. */
  function SortBy<T>(s: seq<T>, cmp: (T, T) -> int): seq<T>
  {
    if s == [] then [] else InsertBy(s[0], SortBy(s[1..], cmp), cmp)
  }

  /** With a consistent comparator the copy is sorted and is a permutation of the input. */
  lemma {:induction false} SortBySortsAndPermutes<T(!new)>(s: seq<T>, cmp: (T, T) -> int)
    requires IsConsistentComparator(cmp)
    ensures multiset(SortBy(s, cmp)) == multiset(s) && |SortBy(s, cmp)| == |s|
    ensures SortedBy(SortBy(s, cmp), cmp)
  {
    if s != [] {
      var rest := SortBy(s[1..], cmp);
      assert SortBy(s, cmp) == InsertBy(s[0], rest, cmp);
      SortBySortsAndPermutes(s[1..], cmp);
      InsertByPermutes(s[0], rest, cmp);
      InsertBySorted(s[0], rest, cmp);
      assert s == [s[0]] + s[1..];
      assert multiset(s) == multiset(s[1..]) + multiset{s[0]};
    }
  }

  /**
   * The head of the sorted copy is the first element of the input, in input order, that
   * comes before or with every element: every earlier element comes strictly after it.
   */
  lemma {:induction false} SortByHeadIsFirstLeast<T(!new)>(s: seq<T>, cmp: (T, T) -> int) returns (i: nat)
    requires IsConsistentComparator(cmp) && s != []
    ensures i < |s| && |SortBy(s, cmp)| == |s| && SortBy(s, cmp)[0] == s[i]
    ensures forall x :: x in s ==> cmp(s[i], x) <= 0
    ensures forall j :: 0 <= j < i ==> cmp(s[j], s[i]) > 0
  {
    var rest := SortBy(s[1..], cmp);
    assert SortBy(s, cmp) == InsertBy(s[0], rest, cmp);
    InsertByPermutes(s[0], rest, cmp);
    if |s| == 1 {
      i := 0;
      ComparatorTotal(cmp, s[0], s[0]);
    } else {
      var i' := SortByHeadIsFirstLeast(s[1..], cmp);
      var m := s[1..][i'];
      InsertByHead(s[0], rest, cmp);
      if cmp(s[0], m) <= 0 {
        i := 0;
        LeastOfCons(s, cmp, m);
      } else {
        i := 1 + i';
        LeastOfTail(s, cmp, m);
        EarlierComeAfter(s, cmp, i');
      }
    }
  }

  /** The head of `InsertBy(x, s, cmp)` is `x` when `x` comes before or with the head of `s`. */
  lemma InsertByHead<T>(x: T, s: seq<T>, cmp: (T, T) -> int)
    requires s != []
    ensures InsertBy(x, s, cmp)[0] == if cmp(x, s[0]) <= 0 then x else s[0]
  {
  }

  /** An element of the tail that every earlier tail element and the head come after. */
  lemma EarlierComeAfter<T>(s: seq<T>, cmp: (T, T) -> int, i': nat)
    requires i' < |s| - 1 && cmp(s[0], s[1 + i']) > 0
    requires forall j :: 0 <= j < i' ==> cmp(s[1..][j], s[1..][i']) > 0
    ensures forall j :: 0 <= j < 1 + i' ==> cmp(s[j], s[1 + i']) > 0
  {
    forall j | 0 <= j < 1 + i' ensures cmp(s[j], s[1 + i']) > 0 {
      if j > 0 {
        assert s[j] == s[1..][j - 1];
      }
    }
  }

  /** A head that comes before or with the least element of the tail comes before or with all. */
  lemma LeastOfCons<T(!new)>(s: seq<T>, cmp: (T, T) -> int, m: T)
    requires IsConsistentComparator(cmp) && s != []
    requires cmp(s[0], m) <= 0 && forall x :: x in s[1..] ==> cmp(m, x) <= 0
    ensures forall x :: x in s ==> cmp(s[0], x) <= 0
  {
    forall x | x in s ensures cmp(s[0], x) <= 0 {
      if x in s[1..] {
        ComparatorTransitive(cmp, s[0], m, x);
      } else {
        assert x == s[0];
        ComparatorTotal(cmp, x, x);
      }
    }
  }

  /** A least element of the tail that the head does not precede comes before or with all. */
  lemma LeastOfTail<T(!new)>(s: seq<T>, cmp: (T, T) -> int, m: T)
    requires IsConsistentComparator(cmp) && s != []
    requires cmp(s[0], m) > 0 && forall x :: x in s[1..] ==> cmp(m, x) <= 0
    ensures forall x :: x in s ==> cmp(m, x) <= 0
  {
    ComparatorTotal(cmp, s[0], m);
    forall x | x in s ensures cmp(m, x) <= 0 {
      if x !in s[1..] {
        assert x == s[0];
      }
    }
  }

  /** The head of a list sorted by a consistent comparator comes before or with every element. */
  lemma SortedHeadFirst<T(!new)>(s: seq<T>, cmp: (T, T) -> int)
    requires IsConsistentComparator(cmp) && SortedBy(s, cmp) && s != []
    ensures forall x :: x in s ==> cmp(s[0], x) <= 0
  {
    forall x | x in s ensures cmp(s[0], x) <= 0 {
      var i :| 0 <= i < |s| && s[i] == x;
      if i == 0 {
        ComparatorTotal(cmp, x, x);
      }
    }
  }
}
