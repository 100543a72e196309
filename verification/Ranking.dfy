/** Ranking by score: highest first, ties in their original order, optionally once each. */
module Ranking {
  import opened Collections
  import opened StableSort

  function ByScore<T>(score: T -> real): (T, T) -> bool {
    (x, y) => score(x) >= score(y)
  }

  /** `sorted(xs, key=score, reverse=True)`. */
  function Ranked<T>(xs: seq<T>, score: T -> real): (r: seq<T>)
    ensures |r| == |xs|
  {
    Sort(xs, ByScore(score))
  }

  ghost predicate Descending<T>(xs: seq<T>, score: T -> real) {
    forall i, j :: 0 <= i < j < |xs| ==> score(xs[i]) >= score(xs[j])
  }

  lemma ByScoreIsPreorder<T(!new)>(score: T -> real)
    ensures TotalPreorder(ByScore(score))
  {
  }

  lemma RankedFacts<T(!new)>(xs: seq<T>, score: T -> real)
    ensures Descending(Ranked(xs, score), score)
    ensures multiset(Ranked(xs, score)) == multiset(xs)
    ensures forall x :: x in Ranked(xs, score) <==> x in xs
    ensures Distinct(xs) ==> Distinct(Ranked(xs, score))
  {
    ByScoreIsPreorder(score);
    SortIsStable(xs, ByScore(score));
    SortPermutes(xs, ByScore(score));
    var r := Ranked(xs, score);
    forall i, j | 0 <= i < j < |r| ensures score(r[i]) >= score(r[j]) {
      assert ByScore(score)(r[i], r[j]);
    }
    if Distinct(xs) {
      PermutationDistinct(xs, r);
    }
  }

  // ---------------------------------------------------------- first occurrences

  /** The elements of `xs` without repetition, each where it first occurs. */
  function Dedup<T(==)>(xs: seq<T>): seq<T> {
    if xs == [] then []
    else
      var d := Dedup(xs[..|xs| - 1]);
      if xs[|xs| - 1] in d then d else d + [xs[|xs| - 1]]
  }

  lemma {:induction false} DedupFacts<T(!new)>(xs: seq<T>, score: T -> real)
    ensures Distinct(Dedup(xs))
    ensures forall x :: x in Dedup(xs) <==> x in xs
    ensures Descending(xs, score) ==> Descending(Dedup(xs), score)
  {
    if xs != [] {
      var init, last := xs[..|xs| - 1], xs[|xs| - 1];
      DedupFacts(init, score);
      assert xs == init + [last];
      var d := Dedup(init);
      assert forall i :: 0 <= i < |d| ==> d[i] in d;
      if Descending(xs, score) {
        forall x | x in init ensures score(x) >= score(last) {
          var i :| 0 <= i < |init| && init[i] == x;
          assert xs[i] == x;
        }
      }
    }
  }

  // --------------------------------------------------------- score sequences

  function Scores<T>(xs: seq<T>, score: T -> real): (r: seq<real>)
    ensures |r| == |xs| && forall i :: 0 <= i < |xs| ==> r[i] == score(xs[i])
  {
    Map(xs, score)
  }

  ghost predicate DescendingReals(xs: seq<real>) {
    forall i, j :: 0 <= i < j < |xs| ==> xs[i] >= xs[j]
  }

  lemma TailDescends(xs: seq<real>)
    requires DescendingReals(xs) && xs != []
    ensures DescendingReals(xs[1..])
  {
  }

  lemma HeadIsHighest(xs: seq<real>, j: nat)
    requires DescendingReals(xs) && j < |xs|
    ensures xs[0] >= xs[j]
  {
  }

  lemma HeadsEqual(xs: seq<real>, ys: seq<real>)
    requires DescendingReals(xs) && DescendingReals(ys)
    requires multiset(xs) == multiset(ys) && xs != [] && ys != []
    ensures xs[0] == ys[0]
  {
    var i := ElementOfPermutation(xs, ys);
    var j := ElementOfPermutation(ys, xs);
    HeadIsHighest(xs, j);
    HeadIsHighest(ys, i);
  }

  lemma HeadAndTail(xs: seq<real>, ys: seq<real>)
    requires xs != [] && ys != [] && xs[0] == ys[0] && xs[1..] == ys[1..]
    ensures xs == ys
  {
    assert xs == [xs[0]] + xs[1..] && ys == [ys[0]] + ys[1..];
  }

  /** A descending sequence is determined by what it contains. */
  lemma {:induction false} DescendingUnique(xs: seq<real>, ys: seq<real>)
    requires DescendingReals(xs) && DescendingReals(ys)
    requires multiset(xs) == multiset(ys)
    ensures xs == ys
  {
    assert |multiset(xs)| == |xs| && |multiset(ys)| == |ys|;
    if xs != [] {
      HeadsEqual(xs, ys);
      PermuteRest(xs, ys, 0);
      assert ys[..0] + ys[1..] == ys[1..];
      TailDescends(xs);
      TailDescends(ys);
      DescendingUnique(xs[1..], ys[1..]);
      HeadAndTail(xs, ys);
    }
  }

  lemma MultisetAround<T(!new)>(ys: seq<T>, i: nat)
    requires i < |ys|
    ensures multiset(ys) == multiset(ys[..i] + ys[i + 1..]) + multiset{ys[i]}
  {
    assert ys == ys[..i] + [ys[i]] + ys[i + 1..];
  }

  /** Taking the same element out of two permutations leaves permutations. */
  lemma PermuteRest<T(!new)>(xs: seq<T>, ys: seq<T>, i: nat)
    requires multiset(xs) == multiset(ys) && xs != [] && i < |ys| && ys[i] == xs[0]
    ensures multiset(xs[1..]) == multiset(ys[..i] + ys[i + 1..])
  {
    MultisetAround(xs, 0);
    assert xs[..0] + xs[1..] == xs[1..];
    MultisetAround(ys, i);
    assert multiset(xs[1..]) == multiset(xs) - multiset{xs[0]};
    assert multiset(ys[..i] + ys[i + 1..]) == multiset(ys) - multiset{ys[i]};
  }

  lemma ElementOfPermutation<T(!new)>(xs: seq<T>, ys: seq<T>) returns (i: nat)
    requires multiset(xs) == multiset(ys) && xs != []
    ensures i < |ys| && ys[i] == xs[0]
  {
    assert xs[0] in multiset(ys);
    i :| 0 <= i < |ys| && ys[i] == xs[0];
  }

  /** Scoring respects permutation. */
  lemma {:induction false} ScoresPermute<T(!new)>(xs: seq<T>, ys: seq<T>, score: T -> real)
    requires multiset(xs) == multiset(ys)
    ensures multiset(Scores(xs, score)) == multiset(Scores(ys, score))
  {
    assert |multiset(xs)| == |xs| && |multiset(ys)| == |ys|;
    if xs != [] {
      var i := ElementOfPermutation(xs, ys);
      PermuteRest(xs, ys, i);
      ScoresPermute(xs[1..], ys[..i] + ys[i + 1..], score);
      ScoresAround(ys, i, score);
      ScoresAround(xs, 0, score);
      assert xs[..0] + xs[1..] == xs[1..];
    }
  }

  lemma ScoresAround<T(!new)>(ys: seq<T>, i: nat, score: T -> real)
    requires i < |ys|
    ensures multiset(Scores(ys, score))
         == multiset(Scores(ys[..i] + ys[i + 1..], score)) + multiset{score(ys[i])}
  {
    var a, b := ys[..i], ys[i + 1..];
    assert ys == a + ([ys[i]] + b);
    MapConcat(a, b, score);
    MapConcat(a, [ys[i]] + b, score);
    assert Scores([ys[i]] + b, score) == [score(ys[i])] + Scores(b, score);
  }

  /** Two rankings of the same distinct things have the same scores, whatever the tie order. */
  lemma SameSetSameScores<T(!new)>(xs: seq<T>, ys: seq<T>, score: T -> real)
    requires Distinct(xs) && Distinct(ys) && Descending(xs, score) && Descending(ys, score)
    requires forall x :: x in xs <==> x in ys
    ensures Scores(xs, score) == Scores(ys, score)
  {
    DistinctSameSetMultiset(xs, ys);
    ScoresPermute(xs, ys, score);
    DescendingUnique(Scores(xs, score), Scores(ys, score));
  }
}
