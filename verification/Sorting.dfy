/** Python's stable `sorted`, as insertion sort over a total preorder. */
module Sorting {

  ghost predicate TotalPreorder<T(!new)>(leq: (T, T) -> bool) {
    && (forall a, b :: leq(a, b) || leq(b, a))
    && (forall a, b, c :: leq(a, b) && leq(b, c) ==> leq(a, c))
  }

  ghost predicate Sorted<T>(leq: (T, T) -> bool, s: seq<T>) {
    forall i, j | 0 <= i < j < |s| :: leq(s[i], s[j])
  }

  function Insert<T>(leq: (T, T) -> bool, x: T, s: seq<T>): seq<T> {
    if s == [] || leq(x, s[0]) then [x] + s else [s[0]] + Insert(leq, x, s[1..])
  }

  function Sort<T>(leq: (T, T) -> bool, s: seq<T>): seq<T> {
    if s == [] then [] else Insert(leq, s[0], Sort(leq, s[1..]))
  }

  function Filter<T>(p: T -> bool, s: seq<T>): seq<T> {
    if s == [] then [] else (if p(s[0]) then [s[0]] else []) + Filter(p, s[1..])
  }

  lemma {:induction false} InsertPermutes<T>(leq: (T, T) -> bool, x: T, s: seq<T>)
    ensures multiset(Insert(leq, x, s)) == multiset{x} + multiset(s)
  {
    if s != [] && !leq(x, s[0]) {
      InsertPermutes(leq, x, s[1..]);
      assert s == [s[0]] + s[1..];
    }
  }

  lemma {:induction false} SortPermutes<T>(leq: (T, T) -> bool, s: seq<T>)
    ensures multiset(Sort(leq, s)) == multiset(s)
    ensures |Sort(leq, s)| == |s|
  {
    if s != [] {
      SortPermutes(leq, s[1..]);
      InsertPermutes(leq, s[0], Sort(leq, s[1..]));
      assert s == [s[0]] + s[1..];
    }
    assert |Sort(leq, s)| == |multiset(Sort(leq, s))|;
  }

  lemma {:induction false} InsertKeepsSorted<T(!new)>(leq: (T, T) -> bool, x: T, s: seq<T>)
    requires TotalPreorder(leq) && Sorted(leq, s)
    ensures Sorted(leq, Insert(leq, x, s))
  {
    if s != [] && !leq(x, s[0]) {
      InsertKeepsSorted(leq, x, s[1..]);
      InsertPermutes(leq, x, s[1..]);
      var t := Insert(leq, x, s[1..]);
      forall i | 0 <= i < |t|
        ensures leq(s[0], t[i])
      {
        assert t[i] in multiset(t);
      }
    }
  }

  lemma {:induction false} SortSorts<T(!new)>(leq: (T, T) -> bool, s: seq<T>)
    requires TotalPreorder(leq)
    ensures Sorted(leq, Sort(leq, s))
  {
    if s != [] {
      SortSorts(leq, s[1..]);
      InsertKeepsSorted(leq, s[0], Sort(leq, s[1..]));
    }
  }

  /** A sorted list is left as it is, ties included. */
  lemma {:induction false} SortKeepsSorted<T(!new)>(leq: (T, T) -> bool, s: seq<T>)
    requires Sorted(leq, s)
    ensures Sort(leq, s) == s
  {
    if s != [] {
      SortKeepsSorted(leq, s[1..]);
      assert s == [s[0]] + s[1..];
    }
  }

  /** Index of the first of the least elements. */
  ghost predicate Leads<T>(leq: (T, T) -> bool, s: seq<T>, i: int) {
    && 0 <= i < |s|
    && (forall j | 0 <= j < |s| :: leq(s[i], s[j]))
    && (forall j | 0 <= j < i :: !leq(s[j], s[i]))
  }

  /** Sorting is stable: the first of the least elements comes first. */
  lemma {:induction false} SortHead<T(!new)>(leq: (T, T) -> bool, s: seq<T>) returns (i: nat)
    requires TotalPreorder(leq) && s != []
    ensures Leads(leq, s, i) && Sort(leq, s) != [] && Sort(leq, s)[0] == s[i]
  {
    SortPermutes(leq, s);
    if |s| == 1 {
      assert Sort(leq, s[1..]) == [];
      return 0;
    }
    var k := SortHead(leq, s[1..]);
    i := if leq(s[0], s[1..][k]) then 0 else k + 1;
    assert forall j | 0 < j < |s| :: s[j] == s[1..][j - 1];
  }

  lemma {:induction false} FilterInsert<T(!new)>(leq: (T, T) -> bool, p: T -> bool, x: T, s: seq<T>)
    requires TotalPreorder(leq) && Sorted(leq, s)
    ensures Filter(p, Insert(leq, x, s)) == if p(x) then Insert(leq, x, Filter(p, s)) else Filter(p, s)
  {
    if s == [] {
    } else if leq(x, s[0]) {
      assert ([x] + s)[1..] == s;
      if p(x) && Filter(p, s) != [] {
        FilterSubset(p, s);
        assert Filter(p, s)[0] in s;
        assert leq(x, Filter(p, s)[0]);
      }
    } else {
      FilterInsert(leq, p, x, s[1..]);
      assert ([s[0]] + Insert(leq, x, s[1..]))[1..] == Insert(leq, x, s[1..]);
      if p(s[0]) {
        assert Filter(p, s)[1..] == Filter(p, s[1..]);
      } else {
        assert Filter(p, s) == Filter(p, s[1..]);
      }
    }
  }

  lemma {:induction false} FilterSubset<T>(p: T -> bool, s: seq<T>)
    ensures forall x :: x in Filter(p, s) <==> x in s && p(x)
  {
    if s != [] {
      FilterSubset(p, s[1..]);
      assert s == [s[0]] + s[1..];
    }
  }

  lemma {:induction false} FilterConcat<T>(p: T -> bool, a: seq<T>, b: seq<T>)
    ensures Filter(p, a + b) == Filter(p, a) + Filter(p, b)
  {
    if a == [] {
      assert a + b == b;
    } else {
      var head := if p(a[0]) then [a[0]] else [];
      FilterConcat(p, a[1..], b);
      assert (a + b)[1..] == a[1..] + b;
      assert Filter(p, a + b) == head + Filter(p, a[1..] + b);
      assert head + (Filter(p, a[1..]) + Filter(p, b)) == (head + Filter(p, a[1..])) + Filter(p, b);
    }
  }

  lemma {:induction false} FilterAppend<T>(p: T -> bool, s: seq<T>, x: T)
    ensures Filter(p, s + [x]) == Filter(p, s) + (if p(x) then [x] else [])
  {
    if s != [] {
      assert (s + [x])[1..] == s[1..] + [x];
      FilterAppend(p, s[1..], x);
    }
  }

  lemma {:induction false} FilterKeepsAll<T>(p: T -> bool, s: seq<T>)
    ensures (forall x | x in s :: p(x)) ==> Filter(p, s) == s
    ensures (forall x | x in s :: !p(x)) ==> Filter(p, s) == []
  {
    if s != [] {
      FilterKeepsAll(p, s[1..]);
      assert s == [s[0]] + s[1..];
    }
  }

  /** Filtering a sorted list is sorting the filtered list. */
  lemma {:induction false} FilterSort<T(!new)>(leq: (T, T) -> bool, p: T -> bool, s: seq<T>)
    requires TotalPreorder(leq)
    ensures Filter(p, Sort(leq, s)) == Sort(leq, Filter(p, s))
  {
    if s != [] {
      FilterSort(leq, p, s[1..]);
      SortSorts(leq, s[1..]);
      FilterInsert(leq, p, s[0], Sort(leq, s[1..]));
      if p(s[0]) {
        assert Filter(p, s)[1..] == Filter(p, s[1..]);
      } else {
        assert Filter(p, s) == Filter(p, s[1..]);
      }
    }
  }

  /** Filtering twice is filtering by the conjunction. */
  lemma {:induction false} FilterWithin<T>(q: T -> bool, p: T -> bool, both: T -> bool, s: seq<T>)
    requires forall x | x in s :: both(x) == (p(x) && q(x))
    ensures Filter(q, Filter(p, s)) == Filter(both, s)
  {
    if s != [] {
      FilterWithin(q, p, both, s[1..]);
      assert s[0] in s;
      if p(s[0]) {
        assert Filter(p, s)[1..] == Filter(p, s[1..]);
      } else {
        assert Filter(p, s) == Filter(p, s[1..]);
      }
    }
  }

  lemma {:induction false} FilterCongruence<T>(p: T -> bool, p': T -> bool, s: seq<T>)
    requires forall x | x in s :: p(x) == p'(x)
    ensures Filter(p, s) == Filter(p', s)
  {
    if s != [] {
      FilterCongruence(p, p', s[1..]);
    }
  }

  /** One round of a loop that collects the elements passing `p`. */
  lemma FilterRound<T>(p: T -> bool, s: seq<T>, i: nat, done: seq<T>)
    requires i < |s|
    ensures done + Filter(p, s[i..]) == (if p(s[i]) then done + [s[i]] else done) + Filter(p, s[i + 1..])
  {
    assert s[i..][1..] == s[i + 1..];
  }

  lemma {:induction false} FilterCount<T>(p: T -> bool, s: seq<T>, x: T)
    ensures multiset(Filter(p, s))[x] == if p(x) then multiset(s)[x] else 0
  {
    if s != [] {
      FilterCount(p, s[1..], x);
      assert s == [s[0]] + s[1..];
    }
  }

  /** A filter and its complement split a list, as multisets. */
  lemma FilterSplits<T(!new)>(p: T -> bool, q: T -> bool, s: seq<T>)
    requires forall x | x in s :: p(x) != q(x)
    ensures multiset(Filter(p, s)) + multiset(Filter(q, s)) == multiset(s)
  {
    var a, b, whole := multiset(Filter(p, s)), multiset(Filter(q, s)), multiset(s);
    var total := a + b;
    forall x
      ensures total[x] == whole[x]
    {
      FilterCount(p, s, x);
      FilterCount(q, s, x);
      assert total[x] == a[x] + b[x];
      assert x in whole <==> x in s;
    }
    assert total == whole;
  }

  /** Four filters of which exactly one passes each element split it likewise. */
  lemma FourFiltersSplit<T(!new)>(p: T -> bool, q: T -> bool, r: T -> bool, t: T -> bool, s: seq<T>)
    requires forall x | x in s :: (p(x) || q(x)) != (r(x) || t(x)) && !(p(x) && q(x)) && !(r(x) && t(x))
    ensures multiset(Filter(p, s)) + multiset(Filter(q, s)) + multiset(Filter(r, s)) + multiset(Filter(t, s)) ==
        multiset(s)
  {
    var a, b, whole := multiset(Filter(p, s)), multiset(Filter(q, s)), multiset(s);
    var c, d := multiset(Filter(r, s)), multiset(Filter(t, s));
    var total := a + b + c + d;
    forall x
      ensures total[x] == whole[x]
    {
      FilterCount(p, s, x);
      FilterCount(q, s, x);
      FilterCount(r, s, x);
      FilterCount(t, s, x);
      assert total[x] == a[x] + b[x] + c[x] + d[x];
      assert x in whole <==> x in s;
    }
    assert total == whole;
  }
}
