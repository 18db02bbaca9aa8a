/** Redis sorted sets: members with scores, each member once, ascending by score. */
module ZSets {
  import opened Lists

  datatype Scored<+T> = Scored(score: int, member: T)

  type ZSet<T> = seq<Scored<T>>

  ghost predicate Valid<T(!new)>(z: ZSet<T>) {
    Pairwise(z, ByScore<T>()) && Pairwise(z, ByMember<T>())
  }

  /** No two members share a score, so every read has one possible order. */
  ghost predicate StrictScores<T>(z: ZSet<T>) {
    Pairwise(z, ByStrictScore<T>())
  }

  function ZRem<T(==, !new)>(z: ZSet<T>, m: T): (r: ZSet<T>)
    ensures forall e :: e in r <==> e in z && e.member != m
  {
    Filter(z, (e: Scored<T>) => e.member != m)
  }

  function Insert<T(!new)>(z: ZSet<T>, e: Scored<T>): (r: ZSet<T>)
    ensures |r| == |z| + 1
    ensures forall x :: x in r <==> x in z || x == e
  {
    if z == [] || e.score < z[0].score then [e] + z else [z[0]] + Insert(z[1..], e)
  }

  function ZAdd<T(==, !new)>(z: ZSet<T>, score: int, m: T): (r: ZSet<T>)
    ensures forall e :: e in r <==> e == Scored(score, m) || (e in z && e.member != m)
  {
    Insert(ZRem(z, m), Scored(score, m))
  }

  /** ZRANGEBYSCORE (lo +inf, ascending. */
  function ZRangeAbove<T(!new)>(z: ZSet<T>, lo: int): (r: seq<Scored<T>>)
    ensures forall e :: e in r <==> e in z && e.score > lo
  {
    Filter(z, (e: Scored<T>) => e.score > lo)
  }

  /** ZREMRANGEBYSCORE lo hi. */
  function ZRemRange<T(!new)>(z: ZSet<T>, lo: int, hi: int): (r: ZSet<T>)
    ensures forall e :: e in r <==> e in z && !(lo <= e.score <= hi)
  {
    Filter(z, (e: Scored<T>) => !(lo <= e.score <= hi))
  }

  /** ZREMRANGEBYSCORE -inf hi. */
  function ZRemUpTo<T(!new)>(z: ZSet<T>, hi: int): (r: ZSet<T>)
    ensures forall e :: e in r <==> e in z && e.score > hi
  {
    Filter(z, (e: Scored<T>) => e.score > hi)
  }

  /** ZCOUNT lo +inf. */
  function ZCount<T(!new)>(z: ZSet<T>, lo: int): nat {
    |Filter(z, (e: Scored<T>) => lo <= e.score)|
  }

  function Members<T(!new)>(z: ZSet<T>): set<T> {
    set e | e in z :: e.member
  }

  function ByScore<T>(): (Scored<T>, Scored<T>) -> bool { (a: Scored<T>, b: Scored<T>) => a.score <= b.score }

  ghost function ByMember<T(!new)>(): (Scored<T>, Scored<T>) -> bool {
    (a: Scored<T>, b: Scored<T>) => a.member != b.member
  }

  function ByStrictScore<T>(): (Scored<T>, Scored<T>) -> bool { (a: Scored<T>, b: Scored<T>) => a.score < b.score }

  lemma FilterValid<T(!new)>(z: ZSet<T>, p: Scored<T> -> bool)
    requires Valid(z)
    ensures Valid(Filter(z, p))
    ensures StrictScores(z) ==> StrictScores(Filter(z, p))
  {
    FilterPairwise(z, p, ByScore<T>());
    FilterPairwise(z, p, ByMember<T>());
    if StrictScores(z) {
      FilterPairwise(z, p, ByStrictScore<T>());
    }
  }

  /** Removals keep the set sorted with each member once. */
  lemma RemovalsValid<T(!new)>(z: ZSet<T>, m: T, hi: int)
    requires Valid(z)
    ensures Valid(ZRem(z, m)) && Valid(ZRemUpTo(z, hi))
  {
    FilterValid(z, (e: Scored<T>) => e.member != m);
    FilterValid(z, (e: Scored<T>) => e.score > hi);
  }

  /** Everything at or above the bound is counted. */
  lemma CountAll<T(!new)>(z: ZSet<T>, lo: int)
    requires forall e :: e in z ==> e.score >= lo
    ensures ZCount(z, lo) == |z|
  {
    FilterAll(z, (e: Scored<T>) => lo <= e.score);
  }

  /** Counting from a bound is counting what is left above the number before it. */
  lemma {:induction false} CountFrom<T(!new)>(z: ZSet<T>, lo: int)
    ensures ZCount(z, lo) == |ZRemUpTo(z, lo - 1)|
  {
    if z != [] {
      CountFrom(z[1..], lo);
    }
  }

  lemma {:induction false} InsertPairwise<T(!new)>(
    z: ZSet<T>, e: Scored<T>, before: (Scored<T>, Scored<T>) -> bool)
    requires Pairwise(z, before)
    requires forall x :: x in z && x.score <= e.score ==> before(x, e)
    requires forall x :: x in z && e.score < x.score ==> before(e, x)
    requires Valid(z)
    ensures Pairwise(Insert(z, e), before)
  {
    if z == [] {
      PairwiseCons(e, z, before);
    } else {
      PairwiseTail(z, ByScore<T>());
      PairwiseTail(z, ByMember<T>());
      PairwiseTail(z, before);
      if e.score < z[0].score {
        forall y | y in z ensures before(e, y) {
          assert y == z[0] || (y in z[1..] && ByScore<T>()(z[0], y));
        }
        PairwiseCons(e, z, before);
      } else {
        InsertPairwise(z[1..], e, before);
        PairwiseCons(z[0], Insert(z[1..], e), before);
      }
    }
  }

  /** ZADD keeps the set sorted with each member once. */
  lemma ZAddValid<T(!new)>(z: ZSet<T>, score: int, m: T)
    requires Valid(z)
    ensures Valid(ZAdd(z, score, m))
    ensures StrictScores(z) && (forall x :: x in z ==> x.score != score) ==> StrictScores(ZAdd(z, score, m))
  {
    FilterValid(z, (e: Scored<T>) => e.member != m);
    var kept, e := ZRem(z, m), Scored(score, m);
    InsertPairwise(kept, e, ByScore<T>());
    InsertPairwise(kept, e, ByMember<T>());
    if StrictScores(z) && forall x :: x in z ==> x.score != score {
      InsertPairwise(kept, e, ByStrictScore<T>());
    }
  }

  /** The number of entries is the number of distinct members. */
  lemma {:induction false} CountMembers<T(!new)>(z: ZSet<T>)
    requires Valid(z)
    ensures |z| == |Members(z)|
  {
    if z != [] {
      PairwiseTail(z, ByScore<T>());
      PairwiseTail(z, ByMember<T>());
      CountMembers(z[1..]);
      assert Members(z) == {z[0].member} + Members(z[1..]) by {
        assert z == [z[0]] + z[1..];
      }
      assert z[0].member !in Members(z[1..]);
    }
  }
}
