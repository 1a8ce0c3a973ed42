/** The `.sort(field, 1)` of a document-store query, read as a stable
    insertion sort on an integer key (descending order uses the negated key).
    The store does not promise stability; the model fixes one total order so
    that two queries over the same collection list ties the same way. */
module Sorting {
  import opened Common

  /** Non-decreasing by `key`, stated on neighbours. */
  predicate SortedBy<T>(xs: seq<T>, key: T -> int)
  {
    |xs| <= 1 || (key(xs[0]) <= key(xs[1]) && SortedBy(xs[1..], key))
  }

  lemma SortedCons<T>(a: T, ys: seq<T>, key: T -> int)
    requires SortedBy(ys, key) && (|ys| == 0 || key(a) <= key(ys[0]))
    ensures SortedBy([a] + ys, key)
  {
    assert ([a] + ys)[1..] == ys;
  }

  /** In a sorted list the head has the smallest key. */
  lemma {:induction false} SortedHeadMin<T>(xs: seq<T>, key: T -> int, k: int)
    requires SortedBy(xs, key) && 0 <= k < |xs|
    ensures key(xs[0]) <= key(xs[k])
  {
    if k > 0 {
      SortedHeadMin(xs[1..], key, k - 1);
    }
  }

  /** The neighbour definition gives the usual all-pairs one. */
  lemma {:induction false} SortedPairs<T>(xs: seq<T>, key: T -> int, i: int, j: int)
    requires SortedBy(xs, key) && 0 <= i <= j < |xs|
    ensures key(xs[i]) <= key(xs[j])
  {
    if i == 0 {
      SortedHeadMin(xs, key, j);
    } else {
      SortedPairs(xs[1..], key, i - 1, j - 1);
    }
  }

  /** Put `x` in front of the first element whose key is not smaller. */
  function Insert<T>(x: T, xs: seq<T>, key: T -> int): (r: seq<T>)
    ensures |r| == |xs| + 1
  {
    if |xs| == 0 then [x]
    else if key(x) <= key(xs[0]) then [x] + xs
    else [xs[0]] + Insert(x, xs[1..], key)
  }

  lemma {:induction false} InsertSorted<T>(x: T, xs: seq<T>, key: T -> int)
    requires SortedBy(xs, key)
    ensures SortedBy(Insert(x, xs, key), key)
    ensures Insert(x, xs, key)[0] == x || Insert(x, xs, key)[0] == xs[0]
  {
    if |xs| > 0 {
      if key(x) <= key(xs[0]) {
        SortedCons(x, xs, key);
      } else {
        InsertSorted(x, xs[1..], key);
        SortedCons(xs[0], Insert(x, xs[1..], key), key);
      }
    }
  }

  lemma {:induction false} InsertPerm<T>(x: T, xs: seq<T>, key: T -> int)
    ensures multiset(Insert(x, xs, key)) == multiset(xs) + multiset{x}
  {
    if |xs| > 0 && key(x) > key(xs[0]) {
      InsertPerm(x, xs[1..], key);
      assert xs == [xs[0]] + xs[1..];
    }
  }

  /** The query result order. */
  function SortBy<T>(xs: seq<T>, key: T -> int): (r: seq<T>)
    ensures |r| == |xs|
  {
    if |xs| == 0 then [] else Insert(xs[0], SortBy(xs[1..], key), key)
  }

  /** The sorted list is ordered by the key ... */
  lemma {:induction false} SortBySorted<T>(xs: seq<T>, key: T -> int)
    ensures SortedBy(SortBy(xs, key), key)
  {
    if |xs| > 0 {
      SortBySorted(xs[1..], key);
      InsertSorted(xs[0], SortBy(xs[1..], key), key);
    }
  }

  /** ... and holds exactly the documents of the collection. */
  lemma {:induction false} SortByPerm<T>(xs: seq<T>, key: T -> int)
    ensures multiset(SortBy(xs, key)) == multiset(xs)
  {
    if |xs| > 0 {
      SortByPerm(xs[1..], key);
      InsertPerm(xs[0], SortBy(xs[1..], key), key);
      assert xs == [xs[0]] + xs[1..];
    }
  }

  /** A prefix of a sorted list is sorted. */
  lemma {:induction false} SortedTake<T>(xs: seq<T>, key: T -> int, m: nat)
    requires SortedBy(xs, key) && m <= |xs|
    ensures SortedBy(xs[..m], key)
  {
    if m > 1 {
      SortedTake(xs[1..], key, m - 1);
      assert xs[..m][1..] == xs[1..][..m - 1];
    }
  }

  /** A sorted list cut after `n` items stays sorted, keeps only items of
      the list, and nothing cut off has a smaller key than anything kept. */
  lemma CutSorted<T>(xs: seq<T>, key: T -> int, n: nat)
    requires SortedBy(xs, key)
    ensures SortedBy(ToList(xs, n), key)
    ensures multiset(ToList(xs, n)) <= multiset(xs)
    ensures forall i, x :: 0 <= i < |ToList(xs, n)| && x in multiset(xs) - multiset(ToList(xs, n))
                           ==> key(ToList(xs, n)[i]) <= key(x)
  {
    var r := ToList(xs, n);
    var rest := xs[|r|..];
    SortedTake(xs, key, |r|);
    assert xs == r + rest;
    assert multiset(xs) == multiset(r) + multiset(rest);
    forall i, x | 0 <= i < |r| && x in multiset(xs) - multiset(r)
      ensures key(r[i]) <= key(x)
    {
      assert x in rest;
      var j :| 0 <= j < |rest| && rest[j] == x;
      SortedPairs(xs, key, i, |r| + j);
    }
  }

  /** The first `n` items of a sorted query: in key order, drawn from the
      collection (all of it when it has at most `n`), and no item left out
      has a smaller key than an item listed. */
  lemma TopBy<T>(xs: seq<T>, key: T -> int, n: nat)
    ensures SortedBy(ToList(SortBy(xs, key), n), key)
    ensures multiset(ToList(SortBy(xs, key), n)) <= multiset(xs)
    ensures |xs| <= n ==> multiset(ToList(SortBy(xs, key), n)) == multiset(xs)
    ensures forall i, x :: 0 <= i < |ToList(SortBy(xs, key), n)|
                           && x in multiset(xs) - multiset(ToList(SortBy(xs, key), n))
                           ==> key(ToList(SortBy(xs, key), n)[i]) <= key(x)
  {
    SortBySorted(xs, key);
    SortByPerm(xs, key);
    CutSorted(SortBy(xs, key), key, n);
  }

  /** Filtering a sorted list keeps it sorted. */
  lemma {:induction false} FilterSorted<T>(xs: seq<T>, key: T -> int, p: T -> bool)
    requires SortedBy(xs, key)
    ensures SortedBy(Filter(xs, p), key)
  {
    if |xs| > 0 {
      var rest := Filter(xs[1..], p);
      FilterSorted(xs[1..], key, p);
      assert Filter(xs, p) == (if p(xs[0]) then [xs[0]] else []) + rest;
      if p(xs[0]) {
        if |rest| > 0 {
          FilterMembers(xs[1..], p, rest[0]);
          var k :| 0 <= k < |xs[1..]| && xs[1..][k] == rest[0];
          SortedHeadMin(xs, key, k + 1);
        }
        SortedCons(xs[0], rest, key);
      } else {
        assert Filter(xs, p) == rest;
      }
    }
  }

  /** Filtering commutes with one insertion step. */
  lemma {:induction false} FilterInsert<T>(x: T, xs: seq<T>, key: T -> int, p: T -> bool)
    requires SortedBy(xs, key)
    ensures Filter(Insert(x, xs, key), p)
         == if p(x) then Insert(x, Filter(xs, p), key) else Filter(xs, p)
    decreases |xs|, 1
  {
    if |xs| == 0 {
      assert [x][1..] == [];
    } else if key(x) <= key(xs[0]) {
      var f := Filter(xs, p);
      FilterCons(x, xs, p);
      if p(x) && |f| > 0 {
        FilterMembers(xs, p, f[0]);
        var k :| 0 <= k < |xs| && xs[k] == f[0];
        SortedHeadMin(xs, key, k);
      }
    } else {
      FilterInsertPast(x, xs, key, p);
    }
  }

  /** The insertion case where `x` travels past the head. */
  lemma FilterInsertPast<T>(x: T, xs: seq<T>, key: T -> int, p: T -> bool)
    requires SortedBy(xs, key) && |xs| > 0 && key(x) > key(xs[0])
    ensures Filter(Insert(x, xs, key), p)
         == if p(x) then Insert(x, Filter(xs, p), key) else Filter(xs, p)
    decreases |xs|, 0
  {
    var a, tl := xs[0], xs[1..];
    var ins, ft := Insert(x, tl, key), Filter(tl, p);
    var head: seq<T> := if p(a) then [a] else [];
    FilterInsert(x, tl, key, p);
    FilterCons(a, ins, p);
    PastHead(x, a, head, ft, Filter(ins, p), Filter([a] + ins, p), Filter(xs, p), key, p);
  }

  /** Putting the head back: inserting `x` past `a` and keeping `a` when it
      passes commute. */
  lemma PastHead<T>(x: T, a: T, head: seq<T>, ft: seq<T>, fins: seq<T>, lhs: seq<T>, fxs: seq<T>, key: T -> int, p: T -> bool)
    requires key(x) > key(a) && head == if p(a) then [a] else []
    requires fins == if p(x) then Insert(x, ft, key) else ft
    requires lhs == head + fins && fxs == head + ft
    ensures lhs == if p(x) then Insert(x, fxs, key) else fxs
  {
    if p(a) && p(x) {
      assert fxs[0] == a && fxs[1..] == ft;
    } else if !p(a) {
      assert fxs == ft && lhs == fins;
    }
  }

  /** Sorting then filtering equals filtering then sorting: a filtered
      query lists its documents in the same relative order as the full one. */
  lemma {:induction false} FilterSortCommute<T>(xs: seq<T>, key: T -> int, p: T -> bool)
    ensures Filter(SortBy(xs, key), p) == SortBy(Filter(xs, p), key)
  {
    if |xs| > 0 {
      var x, tl := xs[0], xs[1..];
      FilterSortCommute(tl, key, p);
      SortBySorted(tl, key);
      var st := SortBy(tl, key);
      FilterInsert(x, st, key, p);
      SortHeadBack(x, key, p, Filter(tl, p), Filter(st, p), Filter(SortBy(xs, key), p), Filter(xs, p));
    }
  }

  /** The step of the commutation: with the tail done, filtering and
      sorting the head back in agree. */
  lemma SortHeadBack<T>(x: T, key: T -> int, p: T -> bool, fl: seq<T>, fst: seq<T>, lhs: seq<T>, fxs: seq<T>)
    requires fst == SortBy(fl, key)
    requires lhs == if p(x) then Insert(x, fst, key) else fst
    requires fxs == (if p(x) then [x] else []) + fl
    ensures lhs == SortBy(fxs, key)
  {
    if p(x) {
      SortByCons(x, fl, key);
    } else {
      assert fxs == fl;
    }
  }

  /** Sorting a list written as head and tail inserts the head. */
  lemma SortByCons<T>(x: T, ys: seq<T>, key: T -> int)
    ensures SortBy([x] + ys, key) == Insert(x, SortBy(ys, key), key)
  {
    assert ([x] + ys)[1..] == ys;
  }
}
