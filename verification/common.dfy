/** Shared vocabulary: optional values, HTTP-style results and the list
    helpers that the JavaScript and Python code use everywhere
    (`filter`, `filter((_, i) => i !== index)`). */
module Common {

  /** A value that may be missing (Python `None`, JavaScript `undefined`). */
  datatype Option<T> = None | Some(value: T) {
    function GetOr(default: T): T {
      if Some? then value else default
    }
  }

  /** The outcome of an endpoint: a value, or an HTTP status with its `detail`. */
  datatype Result<T> = Ok(value: T) | Err(status: int, detail: string)

  const BadRequest: int := 400
  const Unauthorized: int := 401
  const NotFound: int := 404
  const Unprocessable: int := 422
  const TooManyRequests: int := 429
  const ServerError: int := 500

  /** Microseconds per unit: instants are integers counting microseconds. */
  const MicrosPerSecond: int := 1000000
  const MicrosPerMinute: int := 60 * MicrosPerSecond
  const MicrosPerHour: int := 60 * MicrosPerMinute
  const MicrosPerDay: int := 24 * MicrosPerHour

  /** `xs.filter(p)`: the elements satisfying `p`, in their original order. */
  function Filter<T>(xs: seq<T>, p: T -> bool): (r: seq<T>)
    ensures |r| <= |xs|
    ensures forall i :: 0 <= i < |r| ==> p(r[i])
  {
    if |xs| == 0 then []
    else (if p(xs[0]) then [xs[0]] else []) + Filter(xs[1..], p)
  }

  /** The `to_list` length of the promotion and brand list queries. */
  const ListLimit: nat := 100

  /** A cursor's `to_list(n)`: its first `n` documents, or all of them
      when there are fewer. */
  function ToList<T>(xs: seq<T>, n: nat): (r: seq<T>)
    ensures |r| <= n && |r| <= |xs| && r == xs[..|r|]
    ensures |r| == n || r == xs
  {
    if |xs| <= n then xs else xs[..n]
  }

  /** Appending a list that ends in `last`, regrouped. */
  lemma AppendSnoc<T>(a: seq<T>, init: seq<T>, last: T)
    ensures a + (init + [last]) == (a + init) + [last]
  {
  }

  /** Concatenation regrouped. */
  lemma AppendAssoc<T>(a: seq<T>, b: seq<T>, c: seq<T>)
    ensures a + b + c == a + (b + c)
  {
  }

  /** Unfolding `Filter` on a list written as head and tail. */
  lemma FilterCons<T>(a: T, ys: seq<T>, p: T -> bool)
    ensures Filter([a] + ys, p) == (if p(a) then [a] else []) + Filter(ys, p)
  {
    assert ([a] + ys)[1..] == ys;
  }

  /** An element survives the filter exactly when it was there and passes. */
  lemma {:induction false} FilterMembers<T>(xs: seq<T>, p: T -> bool, x: T)
    ensures x in Filter(xs, p) <==> x in xs && p(x)
  {
    if |xs| > 0 {
      FilterMembers(xs[1..], p, x);
      assert xs == [xs[0]] + xs[1..];
    }
  }

  /** Filtering a list with one more element at the end. */
  lemma {:induction false} FilterSnoc<T>(xs: seq<T>, x: T, p: T -> bool)
    ensures Filter(xs + [x], p) == Filter(xs, p) + (if p(x) then [x] else [])
  {
    if |xs| == 0 {
      assert xs + [x] == [x];
      assert [x][1..] == [];
    } else {
      assert (xs + [x])[1..] == xs[1..] + [x];
      FilterSnoc(xs[1..], x, p);
    }
  }

  /** Filtering twice by the same predicate is filtering once. */
  lemma {:induction false} FilterTwice<T>(xs: seq<T>, p: T -> bool)
    ensures Filter(Filter(xs, p), p) == Filter(xs, p)
  {
    if |xs| > 0 {
      FilterTwice(xs[1..], p);
      var rest := Filter(xs[1..], p);
      if p(xs[0]) {
        assert Filter(xs, p) == [xs[0]] + rest;
        FilterCons(xs[0], rest, p);
      } else {
        assert Filter(xs, p) == rest;
      }
    }
  }

  /** Two filters that agree position by position keep as many elements. */
  lemma {:induction false} FilterLengthPointwise<T, U>(a: seq<T>, b: seq<U>, p: T -> bool, q: U -> bool)
    requires |a| == |b|
    requires forall i :: 0 <= i < |a| ==> (p(a[i]) <==> q(b[i]))
    ensures |Filter(a, p)| == |Filter(b, q)|
  {
    if |a| > 0 {
      FilterLengthPointwise(a[1..], b[1..], p, q);
    }
  }

  /** `xs.filter((_, i) => i !== index)`: the list without position `index`;
      an index outside the list removes nothing. */
  function RemoveAt<T>(xs: seq<T>, index: int): (r: seq<T>)
    ensures 0 <= index < |xs| ==> |r| == |xs| - 1
    ensures 0 <= index < |xs| ==> forall j :: 0 <= j < index ==> r[j] == xs[j]
    ensures 0 <= index < |xs| ==> forall j :: index <= j < |r| ==> r[j] == xs[j + 1]
    ensures !(0 <= index < |xs|) ==> r == xs
    decreases |xs|
  {
    if |xs| == 0 then []
    else (if index == 0 then [] else [xs[0]]) + RemoveAt(xs[1..], index - 1)
  }

  /** `xs[index] = v` on an index already in the list. */
  function SetAt<T>(xs: seq<T>, index: nat, v: T): (r: seq<T>)
    requires index < |xs|
    ensures |r| == |xs| && r[index] == v
    ensures forall j :: 0 <= j < |xs| && j != index ==> r[j] == xs[j]
  {
    xs[index := v]
  }

  /** Sum of a list of naturals (Python `sum`). */
  function Sum(xs: seq<nat>): nat
  {
    if |xs| == 0 then 0 else xs[0] + Sum(xs[1..])
  }

  lemma {:induction false} SumAppend(xs: seq<nat>, ys: seq<nat>)
    ensures Sum(xs + ys) == Sum(xs) + Sum(ys)
  {
    if |xs| == 0 {
      assert xs + ys == ys;
    } else {
      assert (xs + ys)[1..] == xs[1..] + ys;
      SumAppend(xs[1..], ys);
    }
  }

  /** The position of the first element satisfying `p` (a `find_one`). */
  function FirstIndex<T>(xs: seq<T>, p: T -> bool): (r: Option<nat>)
    ensures r.Some? ==> r.value < |xs| && p(xs[r.value])
    ensures r.Some? ==> forall j :: 0 <= j < r.value ==> !p(xs[j])
    ensures r.None? ==> forall j :: 0 <= j < |xs| ==> !p(xs[j])
  {
    if |xs| == 0 then None
    else if p(xs[0]) then Some(0)
    else match FirstIndex(xs[1..], p)
      case None => None
      case Some(k) => Some(k + 1)
  }

  /** Every element of `xs` appears at a distinct position. */
  predicate Distinct<T(==)>(xs: seq<T>)
  {
    forall i, j :: 0 <= i < j < |xs| ==> xs[i] != xs[j]
  }

  /** ASCII lower-casing; every other character is kept. */
  function Lower(s: string): (r: string)
    ensures |r| == |s|
    ensures forall i :: 0 <= i < |s| ==> r[i] == LowerChar(s[i])
  {
    if |s| == 0 then "" else [LowerChar(s[0])] + Lower(s[1..])
  }

  function LowerChar(c: char): char
  {
    if 'A' <= c <= 'Z' then (c as int + 32) as char else c
  }

  /** `s` ends with `suffix`. */
  predicate EndsWith(s: string, suffix: string)
  {
    |suffix| <= |s| && s[|s| - |suffix|..] == suffix
  }
}
