/** Sequence vocabulary shared by the whole model. */
module Lists {
  datatype Option<+T> = None | Some(value: T)

  datatype Result<+T, +E> = Ok(value: T) | Err(error: E)

  function Min(a: int, b: int): int { if a < b then a else b }

  function Max(a: int, b: int): int { if a < b then b else a }

  /** The elements of `s` that satisfy `p`, in their order. */
  function Filter<T(!new)>(s: seq<T>, p: T -> bool): (r: seq<T>)
    ensures |r| <= |s|
    ensures forall x :: x in r <==> x in s && p(x)
  {
    if s == [] then [] else (if p(s[0]) then [s[0]] else []) + Filter(s[1..], p)
  }

  function Take<T>(s: seq<T>, n: nat): seq<T> {
    if n <= |s| then s[..n] else s
  }

  /** The last `n` elements. */
  function Suffix<T>(s: seq<T>, n: nat): seq<T> {
    if n <= |s| then s[|s| - n..] else s
  }

  function Reverse<T>(s: seq<T>): (r: seq<T>)
    ensures |r| == |s|
    ensures forall i :: 0 <= i < |s| ==> r[i] == s[|s| - 1 - i]
  {
    if s == [] then [] else Reverse(s[1..]) + [s[0]]
  }

  lemma FilterAll<T(!new)>(s: seq<T>, p: T -> bool)
    requires forall x :: x in s ==> p(x)
    ensures Filter(s, p) == s
  {
    if s != [] {
      assert s == [s[0]] + s[1..];
    }
  }

  lemma {:induction false} FilterConcat<T(!new)>(a: seq<T>, b: seq<T>, p: T -> bool)
    ensures Filter(a + b, p) == Filter(a, p) + Filter(b, p)
  {
    if a == [] {
      assert a + b == b;
    } else {
      assert (a + b)[1..] == a[1..] + b;
      FilterConcat(a[1..], b, p);
    }
  }

  ghost predicate Pairwise<T>(s: seq<T>, before: (T, T) -> bool) {
    forall i, j {:trigger before(s[i], s[j])} :: 0 <= i < j < |s| ==> before(s[i], s[j])
  }

  lemma PairwiseAt<T>(s: seq<T>, before: (T, T) -> bool, i: nat, j: nat)
    requires Pairwise(s, before) && i < j < |s|
    ensures before(s[i], s[j])
  {
  }

  lemma PairwiseTail<T>(s: seq<T>, before: (T, T) -> bool)
    requires Pairwise(s, before) && s != []
    ensures Pairwise(s[1..], before)
    ensures forall y :: y in s[1..] ==> before(s[0], y)
  {
    forall i, j | 0 <= i < j < |s[1..]| ensures before(s[1..][i], s[1..][j]) {
      PairwiseAt(s, before, i + 1, j + 1);
    }
    forall y | y in s[1..] ensures before(s[0], y) {
      var k :| 0 <= k < |s[1..]| && s[1..][k] == y;
      PairwiseAt(s, before, 0, k + 1);
    }
  }

  lemma PairwiseCons<T>(x: T, s: seq<T>, before: (T, T) -> bool)
    requires Pairwise(s, before) && forall y :: y in s ==> before(x, y)
    ensures Pairwise([x] + s, before)
  {
    var r := [x] + s;
    forall i, j | 0 <= i < j < |r| ensures before(r[i], r[j]) {
      if i == 0 {
        assert r[j] in s;
      } else {
        PairwiseAt(s, before, i - 1, j - 1);
      }
    }
  }

  /** Filtering keeps every pairwise relation that holds along the sequence. */
  lemma {:induction false} FilterPairwise<T(!new)>(s: seq<T>, p: T -> bool, before: (T, T) -> bool)
    requires Pairwise(s, before)
    ensures Pairwise(Filter(s, p), before)
  {
    if s != [] {
      PairwiseTail(s, before);
      FilterPairwise(s[1..], p, before);
      var t := Filter(s[1..], p);
      if p(s[0]) {
        PairwiseCons(s[0], t, before);
      } else {
        assert Filter(s, p) == t;
      }
    }
  }
}
