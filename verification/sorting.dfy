/** A stable sort on sequences, ordered by an integer key. It stands for
    `Array.prototype.sort` with a numeric comparator, which the ECMAScript
    standard (since the 2019 edition) requires to be stable. */
module Sorting {
  import opened Seqs

  predicate SortedBy<T>(s: seq<T>, key: T -> int)
  {
    forall i, j :: 0 <= i < j < |s| ==> key(s[i]) <= key(s[j])
  }

  /** Holds of the elements whose key is `k`. */
  function KeyIs<T>(key: T -> int, k: int): T -> bool
  {
    (x: T) => key(x) == k
  }

  /** Inserts `x` after every element whose key is not greater than its own. */
  function Insert<T>(x: T, s: seq<T>, key: T -> int): seq<T>
  {
    if s == [] || key(Last(s)) <= key(x) then s + [x]
    else Insert(x, DropLast(s), key) + [Last(s)]
  }

  lemma {:induction false} InsertMultiset<T>(x: T, s: seq<T>, key: T -> int)
    ensures multiset(Insert(x, s, key)) == multiset(s) + multiset{x}
    decreases |s|
  {
    if s == [] || key(Last(s)) <= key(x) {
    } else {
      InsertMultiset(x, DropLast(s), key);
      SplitLast(s);
    }
  }

  lemma {:induction false} InsertSorted<T>(x: T, s: seq<T>, key: T -> int)
    requires SortedBy(s, key)
    ensures SortedBy(Insert(x, s, key), key)
    decreases |s|
  {
    if s == [] || key(Last(s)) <= key(x) {
    } else {
      var front := Insert(x, DropLast(s), key);
      InsertSorted(x, DropLast(s), key);
      InsertMultiset(x, DropLast(s), key);
      forall i | 0 <= i < |front|
        ensures key(front[i]) <= key(Last(s))
      {
        assert front[i] in multiset(front);
        assert front[i] == x || front[i] in DropLast(s);
      }
    }
  }

  lemma {:induction false} InsertFilter<T>(x: T, s: seq<T>, key: T -> int, k: int)
    requires SortedBy(s, key)
    ensures Filter(Insert(x, s, key), KeyIs(key, k))
         == Filter(s, KeyIs(key, k)) + (if key(x) == k then [x] else [])
    decreases |s|
  {
    var p := KeyIs(key, k);
    assert p(x) == (key(x) == k);
    if s == [] || key(Last(s)) <= key(x) {
      FilterSnoc(s, x, p);
    } else {
      var l := Last(s);
      var front := Insert(x, DropLast(s), key);
      assert Insert(x, s, key) == front + [l];
      InsertFilter(x, DropLast(s), key, k);
      FilterSnoc(front, l, p);
      SplitLast(s);
      FilterSnoc(DropLast(s), l, p);
      if key(x) == k {
        assert !p(l);
      } else if p(l) {
        assert Filter(front, p) == Filter(DropLast(s), p);
      }
    }
  }

  lemma {:induction false} InsertSum<T>(x: T, s: seq<T>, key: T -> int, f: T -> int)
    ensures Sum(Insert(x, s, key), f) == Sum(s, f) + f(x)
    decreases |s|
  {
    if s == [] || key(Last(s)) <= key(x) {
      DropLastSnoc(s, x);
    } else {
      var front := Insert(x, DropLast(s), key);
      InsertSum(x, DropLast(s), key, f);
      DropLastSnoc(front, Last(s));
    }
  }

  lemma NoDuplicatesSnoc<T>(s: seq<T>, x: T)
    requires NoDuplicates(s) && x !in s
    ensures NoDuplicates(s + [x])
  {
  }

  lemma {:induction false} InsertNoDuplicates<T>(x: T, s: seq<T>, key: T -> int)
    requires NoDuplicates(s) && x !in s
    ensures NoDuplicates(Insert(x, s, key))
    decreases |s|
  {
    if s == [] || key(Last(s)) <= key(x) {
      NoDuplicatesSnoc(s, x);
    } else {
      var front := Insert(x, DropLast(s), key);
      SplitLast(s);
      InsertNoDuplicates(x, DropLast(s), key);
      InsertMultiset(x, DropLast(s), key);
      assert Last(s) !in multiset(front);
      NoDuplicatesSnoc(front, Last(s));
    }
  }

  /** Stable insertion sort, ascending by `key`: a permutation of `s`,
      sorted, and for every key value the elements with that key keep their
      relative order. */
  function SortBy<T(==)>(s: seq<T>, key: T -> int): (r: seq<T>)
    ensures |r| == |s|
    ensures multiset(r) == multiset(s)
    ensures SortedBy(r, key)
    ensures forall k :: Filter(r, KeyIs(key, k)) == Filter(s, KeyIs(key, k))
    ensures NoDuplicates(s) ==> NoDuplicates(r)
  {
    if s == [] then []
    else
      var rest := SortBy(DropLast(s), key);
      SplitLast(s);
      InsertMultiset(Last(s), rest, key);
      assert |multiset(Insert(Last(s), rest, key))| == |multiset(rest)| + 1;
      InsertSorted(Last(s), rest, key);
      assert forall k :: Filter(Insert(Last(s), rest, key), KeyIs(key, k))
                      == Filter(s, KeyIs(key, k)) by {
        forall k
          ensures Filter(Insert(Last(s), rest, key), KeyIs(key, k)) == Filter(s, KeyIs(key, k))
        {
          InsertFilter(Last(s), rest, key, k);
        }
      }
      assert NoDuplicates(s) ==> NoDuplicates(Insert(Last(s), rest, key)) by {
        if NoDuplicates(s) {
          assert Last(s) !in multiset(rest);
          InsertNoDuplicates(Last(s), rest, key);
        }
      }
      Insert(Last(s), rest, key)
  }

  lemma {:induction false} SortSum<T>(s: seq<T>, key: T -> int, f: T -> int)
    ensures Sum(SortBy(s, key), f) == Sum(s, f)
    decreases |s|
  {
    if s != [] {
      SortSum(DropLast(s), key, f);
      InsertSum(Last(s), SortBy(DropLast(s), key), key, f);
    }
  }

  /** A permutation without repeated elements keeps any projection that was
      injective on the original injective on the result. */
  lemma PermutationKeepsDistinct<T, K>(s: seq<T>, r: seq<T>, f: T -> K)
    requires multiset(r) == multiset(s) && NoDuplicates(r)
    requires forall i, j :: 0 <= i < j < |s| ==> f(s[i]) != f(s[j])
    ensures forall i, j :: 0 <= i < j < |r| ==> f(r[i]) != f(r[j])
  {
    forall i, j | 0 <= i < j < |r|
      ensures f(r[i]) != f(r[j])
    {
      assert r[i] in multiset(s) && r[j] in multiset(s);
      var a :| 0 <= a < |s| && s[a] == r[i];
      var b :| 0 <= b < |s| && s[b] == r[j];
      assert a != b;
    }
  }

  lemma StablePair<T>(s: seq<T>, r: seq<T>, p: T -> bool, i: nat, j: nat)
    requires NoDuplicates(s) && NoDuplicates(r) && multiset(r) == multiset(s)
    requires Filter(r, p) == Filter(s, p)
    requires i < j < |r| && p(r[i]) && p(r[j])
    ensures r[i] in s && r[j] in s && IndexOf(s, r[i]) < IndexOf(s, r[j])
  {
    assert r[i] in multiset(s) && r[j] in multiset(s);
    var a, b := IndexOf(s, r[i]), IndexOf(s, r[j]);
    assert r[i] != r[j];
    FilterOrder(r, p, i, j);
    if b < a {
      FilterOrder(s, p, b, a);
    }
  }

  /** Stability by position: two elements with equal keys come out in the
      order in which they stood in the input. */
  lemma SortStable<T>(s: seq<T>, key: T -> int)
    requires NoDuplicates(s)
    ensures var r := SortBy(s, key);
      forall i, j :: 0 <= i < j < |r| && key(r[i]) == key(r[j]) ==>
        r[i] in s && r[j] in s && IndexOf(s, r[i]) < IndexOf(s, r[j])
  {
    var r := SortBy(s, key);
    forall i, j | 0 <= i < j < |r| && key(r[i]) == key(r[j])
      ensures r[i] in s && r[j] in s && IndexOf(s, r[i]) < IndexOf(s, r[j])
    {
      var p := KeyIs(key, key(r[i]));
      assert Filter(r, p) == Filter(s, p);
      StablePair(s, r, p, i, j);
    }
  }
}
