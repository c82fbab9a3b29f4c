/** Sequence helpers shared by the ledger model: order-preserving selection,
    sums, duplicate-freedom and first-occurrence order. Every recursive
    definition peels the LAST element, the way a left-to-right
    `Array.prototype.reduce` or `filter` sees its input grow. */
module Seqs {

  function Last<T>(s: seq<T>): T
    requires s != []
  {
    s[|s| - 1]
  }

  function DropLast<T>(s: seq<T>): seq<T>
    requires s != []
  {
    s[..|s| - 1]
  }

  lemma SplitLast<T>(s: seq<T>)
    requires s != []
    ensures s == DropLast(s) + [Last(s)]
  {
  }

  lemma DropLastSnoc<T>(s: seq<T>, x: T)
    ensures DropLast(s + [x]) == s && Last(s + [x]) == x
  {
    assert (s + [x])[..|s|] == s;
  }

  /** `a` can be obtained from `b` by deleting elements, keeping the order of the rest. */
  predicate IsSubsequence<T(==)>(a: seq<T>, b: seq<T>)
    decreases |b|
  {
    || a == []
    || (&& b != []
        && (|| (Last(a) == Last(b) && IsSubsequence(DropLast(a), DropLast(b)))
            || IsSubsequence(a, DropLast(b))))
  }

  /** `f` applied to every element, in order. */
  function Map<A, B>(s: seq<A>, f: A -> B): (r: seq<B>)
    ensures |r| == |s|
    ensures forall i :: 0 <= i < |s| ==> r[i] == f(s[i])
  {
    if s == [] then [] else Map(DropLast(s), f) + [f(Last(s))]
  }

  /** The elements of `s` that satisfy `p`, in their order in `s` (`Array.prototype.filter`). */
  function Filter<T>(s: seq<T>, p: T -> bool): seq<T>
  {
    if s == [] then []
    else Filter(DropLast(s), p) + (if p(Last(s)) then [Last(s)] else [])
  }

  lemma FilterSnoc<T>(s: seq<T>, x: T, p: T -> bool)
    ensures Filter(s + [x], p) == Filter(s, p) + (if p(x) then [x] else [])
  {
    DropLastSnoc(s, x);
  }

  /** An element survives the filter exactly when it was there and passes `p`. */
  lemma {:induction false} FilterMembers<T>(s: seq<T>, p: T -> bool)
    ensures forall x {:trigger x in Filter(s, p)} :: x in Filter(s, p) <==> x in s && p(x)
    decreases |s|
  {
    if s != [] {
      FilterMembers(DropLast(s), p);
      SplitLast(s);
    }
  }

  /** The filter keeps every passing element with its multiplicity and drops the rest. */
  lemma {:induction false} FilterMultiset<T>(s: seq<T>, p: T -> bool)
    ensures forall x {:trigger multiset(Filter(s, p))[x]} ::
      multiset(Filter(s, p))[x] == if p(x) then multiset(s)[x] else 0
    decreases |s|
  {
    if s != [] {
      FilterMultiset(DropLast(s), p);
      SplitLast(s);
    }
  }

  lemma {:induction false} FilterSubsequence<T>(s: seq<T>, p: T -> bool)
    ensures IsSubsequence(Filter(s, p), s)
    decreases |s|
  {
    if s != [] {
      var rest := Filter(DropLast(s), p);
      FilterSubsequence(DropLast(s), p);
      if p(Last(s)) {
        assert Filter(s, p) == rest + [Last(s)];
        DropLastSnoc(rest, Last(s));
      } else {
        assert Filter(s, p) == rest;
        assert rest == [] || IsSubsequence(rest, DropLast(s));
      }
    }
  }

  /** A filter that every element passes is the identity. */
  lemma {:induction false} FilterAll<T>(s: seq<T>, p: T -> bool)
    requires forall x :: x in s ==> p(x)
    ensures Filter(s, p) == s
    decreases |s|
  {
    if s != [] {
      SplitLast(s);
      FilterAll(DropLast(s), p);
    }
  }

  /** A filter that no element passes is empty. */
  lemma {:induction false} FilterNone<T>(s: seq<T>, p: T -> bool)
    requires forall x :: x in s ==> !p(x)
    ensures Filter(s, p) == []
    decreases |s|
  {
    if s != [] {
      SplitLast(s);
      FilterNone(DropLast(s), p);
    }
  }

  /** The sum of `f` over `s`, accumulated from the left starting at 0. */
  function Sum<T>(s: seq<T>, f: T -> int): int
  {
    if s == [] then 0 else Sum(DropLast(s), f) + f(Last(s))
  }

  lemma {:induction false} SumConcat<T>(a: seq<T>, b: seq<T>, f: T -> int)
    ensures Sum(a + b, f) == Sum(a, f) + Sum(b, f)
    decreases |b|
  {
    if b == [] {
      assert a + b == a;
    } else {
      assert DropLast(a + b) == a + DropLast(b);
      SumConcat(a, DropLast(b), f);
    }
  }

  /** Filtering by a stronger condition after a weaker one is filtering by the stronger one. */
  lemma {:induction false} FilterOfFilter<T>(s: seq<T>, p: T -> bool, q: T -> bool)
    requires forall x :: q(x) ==> p(x)
    ensures Filter(Filter(s, p), q) == Filter(s, q)
    decreases |s|
  {
    if s != [] {
      var rest := Filter(DropLast(s), p);
      FilterOfFilter(DropLast(s), p, q);
      assert Filter(s, q) == Filter(DropLast(s), q) + (if q(Last(s)) then [Last(s)] else []);
      if p(Last(s)) {
        assert Filter(s, p) == rest + [Last(s)];
        FilterSnoc(rest, Last(s), q);
      } else {
        assert Filter(s, p) == rest;
        assert !q(Last(s));
      }
    }
  }

  lemma {:induction false} FilterConcat<T>(a: seq<T>, b: seq<T>, p: T -> bool)
    ensures Filter(a + b, p) == Filter(a, p) + Filter(b, p)
    decreases |b|
  {
    if b == [] {
      assert a + b == a;
    } else {
      assert a + b == (a + DropLast(b)) + [Last(b)];
      SplitLast(b);
      FilterSnoc(a + DropLast(b), Last(b), p);
      FilterSnoc(DropLast(b), Last(b), p);
      FilterConcat(a, DropLast(b), p);
    }
  }

  /** Updating one position changes the sum by the difference at that position. */
  lemma {:induction false} SumUpdate<T>(s: seq<T>, i: nat, v: T, f: T -> int)
    requires i < |s|
    ensures Sum(s[i := v], f) == Sum(s, f) - f(s[i]) + f(v)
    decreases |s|
  {
    if i == |s| - 1 {
      assert DropLast(s[i := v]) == DropLast(s);
    } else {
      assert DropLast(s[i := v]) == DropLast(s)[i := v];
      SumUpdate(DropLast(s), i, v, f);
    }
  }

  predicate NoDuplicates<T(==)>(s: seq<T>)
  {
    forall i, j :: 0 <= i < j < |s| ==> s[i] != s[j]
  }

  /** The elements of `s` in the order of their first occurrence. */
  function Distinct<T(==,!new)>(s: seq<T>): (r: seq<T>)
    ensures NoDuplicates(r)
    ensures forall x :: x in r <==> x in s
    ensures |r| <= |s|
  {
    if s == [] then []
    else
      var d := Distinct(DropLast(s));
      SplitLast(s);
      if Last(s) in d then d else d + [Last(s)]
  }

  /** The position of the first occurrence of `x` in `s`. */
  function IndexOf<T(==)>(s: seq<T>, x: T): (i: nat)
    requires x in s
    ensures i < |s| && s[i] == x && x !in s[..i]
  {
    if s[0] == x then 0 else 1 + IndexOf(s[1..], x)
  }

  lemma IndexOfUnique<T>(s: seq<T>, i: nat)
    requires NoDuplicates(s) && i < |s|
    ensures IndexOf(s, s[i]) == i
  {
  }

  lemma {:induction false} IndexOfConcat<T>(a: seq<T>, b: seq<T>, x: T)
    requires x in a
    ensures IndexOf(a + b, x) == IndexOf(a, x)
    decreases |a|
  {
    if a[0] != x {
      assert (a + b)[1..] == a[1..] + b;
      IndexOfConcat(a[1..], b, x);
    }
  }

  lemma {:induction false} IndexOfAfter<T>(a: seq<T>, b: seq<T>, x: T)
    requires x !in a && x in b
    ensures IndexOf(a + b, x) == |a| + IndexOf(b, x)
    decreases |a|
  {
    if a != [] {
      assert (a + b)[1..] == a[1..] + b;
      IndexOfAfter(a[1..], b, x);
    } else {
      assert a + b == b;
    }
  }

  /** Filtering a sequence without repeated elements keeps the relative order
      of any two passing elements. */
  lemma {:induction false} FilterOrder<T>(s: seq<T>, p: T -> bool, i: nat, j: nat)
    requires NoDuplicates(s) && i < j < |s| && p(s[i]) && p(s[j])
    ensures s[i] in Filter(s, p) && s[j] in Filter(s, p)
    ensures IndexOf(Filter(s, p), s[i]) < IndexOf(Filter(s, p), s[j])
    decreases |s|
  {
    var pre := DropLast(s);
    var f := Filter(pre, p);
    FilterMembers(pre, p);
    FilterMembers(s, p);
    SplitLast(s);
    assert s[i] == pre[i];
    if j < |s| - 1 {
      assert s[j] == pre[j];
      FilterOrder(pre, p, i, j);
      assert Filter(s, p) == f + (if p(Last(s)) then [Last(s)] else []);
      IndexOfConcat(f, if p(Last(s)) then [Last(s)] else [], s[i]);
      IndexOfConcat(f, if p(Last(s)) then [Last(s)] else [], s[j]);
    } else {
      assert Filter(s, p) == f + [Last(s)];
      assert Last(s) !in pre;
      IndexOfConcat(f, [Last(s)], s[i]);
      IndexOfAfter(f, [Last(s)], Last(s));
    }
  }

  function Min(a: int, b: int): int
  {
    if a <= b then a else b
  }

  /** The last `n` elements of `s`, or all of `s` when it is shorter (`Array.prototype.slice(-n)`). */
  function TakeLast<T>(s: seq<T>, n: nat): (r: seq<T>)
    ensures |r| == Min(n, |s|)
    ensures forall i :: 0 <= i < |r| ==> r[i] == s[|s| - |r| + i]
  {
    if |s| > n then s[|s| - n..] else s
  }
}
