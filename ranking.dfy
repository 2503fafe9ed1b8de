/**
 * The LINQ ranking both vector stores apply to their scored records:
 * OrderByDescending(score), a stable sort, followed by Take(topK).
 */
module Ranking {
  import opened Seqs

  datatype Scored<T> = Scored(item: T, score: real)

  predicate SortedDesc<T>(xs: seq<Scored<T>>)
  {
    forall i, j :: 0 <= i < j < |xs| ==> xs[i].score >= xs[j].score
  }

  /** The elements of xs that have score s, in their order in xs. */
  function WithScore<T>(xs: seq<Scored<T>>, s: real): seq<Scored<T>>
    decreases |xs|
  {
    if |xs| == 0 then []
    else WithScore(xs[..|xs| - 1], s) + (if xs[|xs| - 1].score == s then [xs[|xs| - 1]] else [])
  }

  /** Puts x after every element of ys that scores at least as much: the place a stable sort gives it. */
  function InsertDesc<T(==)>(x: Scored<T>, ys: seq<Scored<T>>): (r: seq<Scored<T>>)
    ensures |r| == |ys| + 1
    ensures r[0] == if |ys| > 0 && ys[0].score >= x.score then ys[0] else x
    ensures multiset(r) == multiset(ys) + multiset{x}
    decreases |ys|
  {
    if |ys| == 0 then [x]
    else if ys[0].score >= x.score then
      ConsSplit(ys);
      [ys[0]] + InsertDesc(x, ys[1..])
    else [x] + ys
  }

  /** Inserting into a sorted list keeps it sorted. */
  lemma {:induction false} InsertDescSorted<T>(x: Scored<T>, ys: seq<Scored<T>>)
    requires SortedDesc(ys)
    ensures SortedDesc(InsertDesc(x, ys))
    decreases |ys|
  {
    if |ys| == 0 {
    } else if ys[0].score >= x.score {
      var rest := ys[1..];
      SortedTail(ys);
      InsertDescSorted(x, rest);
      var t := InsertDesc(x, rest);
      assert ys[0].score >= t[0].score by {
        if |ys| > 1 {
          assert rest[0] == ys[1];
        }
      }
      SortedCons(ys[0], t);
    } else {
      SortedCons(x, ys);
    }
  }

  lemma SortedTail<T>(ys: seq<Scored<T>>)
    requires SortedDesc(ys) && |ys| > 0
    ensures SortedDesc(ys[1..])
  {
    assert forall i :: 0 <= i < |ys| - 1 ==> ys[1..][i] == ys[i + 1];
  }

  lemma SortedCons<T>(x: Scored<T>, ys: seq<Scored<T>>)
    requires SortedDesc(ys) && (|ys| > 0 ==> x.score >= ys[0].score)
    ensures SortedDesc([x] + ys)
  {
    var r := [x] + ys;
    forall i, j | 0 <= i < j < |r|
      ensures r[i].score >= r[j].score
    {
      if i > 0 {
        assert r[i] == ys[i - 1] && r[j] == ys[j - 1];
      } else {
        assert r[j] == ys[j - 1];
        assert ys[0].score >= ys[j - 1].score || j == 1;
      }
    }
  }

  /** The stable sort by descending score: sorted by non-increasing score, a permutation of its input. */
  function OrderByDescending<T(==)>(xs: seq<Scored<T>>): (r: seq<Scored<T>>)
    ensures |r| == |xs|
    ensures SortedDesc(r)
    ensures multiset(r) == multiset(xs)
    decreases |xs|
  {
    if |xs| == 0 then []
    else
      var init := xs[..|xs| - 1];
      DropLastSnoc(xs);
      InsertDescSorted(xs[|xs| - 1], OrderByDescending(init));
      InsertDesc(xs[|xs| - 1], OrderByDescending(init))
  }

  /** The first k elements: none when k is not positive, all when there are fewer. */
  function Take<T>(xs: seq<T>, k: int): (r: seq<T>)
    ensures |r| == if k <= 0 then 0 else if k < |xs| then k else |xs|
    ensures r == xs[..|r|]
  {
    if k <= 0 then [] else if k < |xs| then xs[..k] else xs
  }

  /** The k best-scoring elements: the stable descending sort, cut after k elements. */
  function TopK<T(==)>(xs: seq<Scored<T>>, k: int): seq<Scored<T>>
  {
    Take(OrderByDescending(xs), k)
  }

  // ----- Stability: records of equal score keep their order -----

  lemma WithScoreConcat<T>(a: seq<Scored<T>>, b: seq<Scored<T>>, s: real)
    ensures WithScore(a + b, s) == WithScore(a, s) + WithScore(b, s)
    decreases |b|
  {
    if |b| == 0 {
      assert a + b == a;
    } else {
      var b0 := b[..|b| - 1];
      ConcatDropLast(a, b);
      WithScoreConcat(a, b0, s);
    }
  }

  lemma WithScoreSingle<T>(x: Scored<T>, s: real)
    ensures WithScore([x], s) == if x.score == s then [x] else []
  {
    assert [x][..0] == [];
  }

  /** In a sorted list, inserting x keeps the order of each score class and puts x last in its own class. */
  lemma {:induction false} InsertDescStable<T>(x: Scored<T>, ys: seq<Scored<T>>, s: real)
    requires SortedDesc(ys)
    ensures WithScore(InsertDesc(x, ys), s) == WithScore(ys, s) + WithScore([x], s)
    decreases |ys|, 1
  {
    if |ys| == 0 {
      assert InsertDesc(x, ys) == [x];
      assert [] + WithScore([x], s) == WithScore([x], s);
    } else if ys[0].score >= x.score {
      InsertDescStablePast(x, ys, s);
    } else {
      InsertDescStableFront(x, ys, s);
    }
  }

  lemma {:induction false} InsertDescStablePast<T>(x: Scored<T>, ys: seq<Scored<T>>, s: real)
    requires SortedDesc(ys) && |ys| > 0 && ys[0].score >= x.score
    ensures WithScore(InsertDesc(x, ys), s) == WithScore(ys, s) + WithScore([x], s)
    decreases |ys|, 0
  {
    var y, rest := ys[0], ys[1..];
    ConsSplit(ys);
    SortedTail(ys);
    assert InsertDesc(x, ys) == [y] + InsertDesc(x, rest);
    InsertDescStable(x, rest, s);
    WithScoreConcat([y], InsertDesc(x, rest), s);
    WithScoreConcat([y], rest, s);
  }

  lemma InsertDescStableFront<T>(x: Scored<T>, ys: seq<Scored<T>>, s: real)
    requires SortedDesc(ys) && |ys| > 0 && ys[0].score < x.score
    ensures WithScore(InsertDesc(x, ys), s) == WithScore(ys, s) + WithScore([x], s)
  {
    assert InsertDesc(x, ys) == [x] + ys;
    WithScoreConcat([x], ys, s);
    WithScoreSingle(x, s);
    if x.score == s {
      forall i | 0 <= i < |ys|
        ensures ys[i].score != s
      {
        assert ys[i].score <= ys[0].score || i == 0;
      }
      WithScoreNone(ys, s);
    }
  }

  lemma {:induction false} WithScoreNone<T>(ys: seq<Scored<T>>, s: real)
    requires forall i :: 0 <= i < |ys| ==> ys[i].score != s
    ensures WithScore(ys, s) == []
    decreases |ys|
  {
    if |ys| > 0 {
      WithScoreNone(ys[..|ys| - 1], s);
    }
  }

  /** OrderByDescending is stable: the records of each score come out in their input order. */
  lemma {:induction false} OrderByDescendingStable<T>(xs: seq<Scored<T>>, s: real)
    ensures WithScore(OrderByDescending(xs), s) == WithScore(xs, s)
    decreases |xs|
  {
    if |xs| > 0 {
      var init, x := xs[..|xs| - 1], xs[|xs| - 1];
      OrderByDescendingStable(init, s);
      InsertDescStable(x, OrderByDescending(init), s);
      DropLastSnoc(xs);
      WithScoreConcat(init, [x], s);
    }
  }

  // ----- What the top-K search promises -----

  /**
   * The top k: min(k, |xs|) records (none for k <= 0), sorted by non-increasing score, taken
   * from xs, and no record left out scores above a record that was returned.
   */
  lemma TopKProperties<T>(xs: seq<Scored<T>>, k: int)
    ensures var r := TopK(xs, k);
      && |r| == (if k <= 0 then 0 else if k < |xs| then k else |xs|)
      && SortedDesc(r)
      && multiset(r) <= multiset(xs)
      && forall y: Scored<T>, z: Scored<T> :: y in multiset(xs) - multiset(r) && z in r ==> y.score <= z.score
  {
    TopKSplit(xs, k);
    TopKSorted(xs, k);
    TopKOutranks(xs, k);
  }

  /** The top k and the records after them make up the sorted input. */
  lemma TopKSplit<T>(xs: seq<Scored<T>>, k: int)
    ensures var sorted := OrderByDescending(xs);
      var r := TopK(xs, k);
      r == sorted[..|r|] && multiset(xs) == multiset(r) + multiset(sorted[|r|..])
  {
    var sorted := OrderByDescending(xs);
    var r := TopK(xs, k);
    SplitAt(sorted, |r|);
    calc {
      multiset(xs);
      multiset(sorted);
      multiset(sorted[..|r|] + sorted[|r|..]);
      multiset(r) + multiset(sorted[|r|..]);
    }
  }

  lemma TopKSorted<T>(xs: seq<Scored<T>>, k: int)
    ensures SortedDesc(TopK(xs, k))
  {
    var sorted := OrderByDescending(xs);
    var r := TopK(xs, k);
    assert forall i :: 0 <= i < |r| ==> r[i] == sorted[i];
  }

  lemma TopKOutranks<T>(xs: seq<Scored<T>>, k: int)
    ensures var r := TopK(xs, k);
      forall y: Scored<T>, z: Scored<T> :: y in multiset(xs) - multiset(r) && z in r ==> y.score <= z.score
  {
    var sorted := OrderByDescending(xs);
    var r := TopK(xs, k);
    TopKSplit(xs, k);
    assert multiset(xs) - multiset(r) == multiset(sorted[|r|..]);
    PrefixDominates(sorted, |r|);
  }

  /** Every returned record is one of the input records. */
  lemma TopKMembers<T>(xs: seq<Scored<T>>, k: int)
    ensures forall i :: 0 <= i < |TopK(xs, k)| ==> TopK(xs, k)[i] in xs
  {
    var r := TopK(xs, k);
    TopKProperties(xs, k);
    forall i | 0 <= i < |r|
      ensures r[i] in xs
    {
      assert r[i] in multiset(r);
    }
  }

  /** An input record that is not returned scores no higher than any returned one. */
  lemma TopKDominates<T>(xs: seq<Scored<T>>, k: int)
    ensures forall y, i :: y in xs && y !in TopK(xs, k) && 0 <= i < |TopK(xs, k)| ==> y.score <= TopK(xs, k)[i].score
  {
    var r := TopK(xs, k);
    TopKProperties(xs, k);
    forall y, i | y in xs && y !in r && 0 <= i < |r|
      ensures y.score <= r[i].score
    {
      assert y in multiset(xs) - multiset(r) by {
        assert y in multiset(xs);
        assert multiset(r)[y] == 0;
      }
      assert r[i] in r;
    }
  }

  /** In a sorted list, everything after position n scores at most what comes before it. */
  lemma PrefixDominates<T>(sorted: seq<Scored<T>>, n: nat)
    requires SortedDesc(sorted) && n <= |sorted|
    ensures forall y: Scored<T>, z: Scored<T> :: y in multiset(sorted[n..]) && z in sorted[..n] ==> y.score <= z.score
  {
    forall y: Scored<T>, z: Scored<T> | y in multiset(sorted[n..]) && z in sorted[..n]
      ensures y.score <= z.score
    {
      var rest := sorted[n..];
      assert y in rest;
      var j :| 0 <= j < |rest| && rest[j] == y;
      var i :| 0 <= i < n && sorted[..n][i] == z;
      assert sorted[i] == z && sorted[n + j] == y;
    }
  }

  /** Records of equal score come out of the top k in their input order: a prefix of their class. */
  lemma TopKStable<T>(xs: seq<Scored<T>>, k: int, s: real)
    ensures var r := TopK(xs, k);
      && |WithScore(r, s)| <= |WithScore(xs, s)|
      && WithScore(r, s) == WithScore(xs, s)[..|WithScore(r, s)|]
  {
    var sorted := OrderByDescending(xs);
    var r := TopK(xs, k);
    OrderByDescendingStable(xs, s);
    SplitAt(sorted, |r|);
    WithScoreConcat(r, sorted[|r|..], s);
  }
}
