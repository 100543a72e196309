/** Python's `sort`: a stable sort by a total preorder. `StableSorted` says what the result is
    without saying how it is found, and determines it uniquely. */
module StableSort {
  import opened Collections

  ghost predicate TotalPreorder<T(!new)>(leq: (T, T) -> bool) {
    && (forall x, y :: leq(x, y) || leq(y, x))
    && (forall x, y, z :: leq(x, y) && leq(y, z) ==> leq(x, z))
  }

  ghost predicate Sorted<T>(xs: seq<T>, leq: (T, T) -> bool) {
    forall i, j :: 0 <= i < j < |xs| ==> leq(xs[i], xs[j])
  }

  predicate Tied<T>(leq: (T, T) -> bool, x: T, y: T) {
    leq(x, y) && leq(y, x)
  }

  /** The elements of `xs` that tie with `p`, in their order. */
  function Class<T>(xs: seq<T>, leq: (T, T) -> bool, p: T): seq<T> {
    if xs == [] then []
    else if Tied(leq, p, xs[0]) then [xs[0]] + Class(xs[1..], leq, p)
    else Class(xs[1..], leq, p)
  }

  /** `ys` is `xs` in order, with ties left as they were. */
  ghost predicate StableSorted<T(!new)>(xs: seq<T>, ys: seq<T>, leq: (T, T) -> bool) {
    && Sorted(ys, leq)
    && (forall p :: Class(ys, leq, p) == Class(xs, leq, p))
  }

  function Insert<T>(x: T, ys: seq<T>, leq: (T, T) -> bool): (r: seq<T>)
    ensures |r| == |ys| + 1
  {
    if ys == [] then [x]
    else if leq(x, ys[0]) then [x] + ys
    else [ys[0]] + Insert(x, ys[1..], leq)
  }

  function Sort<T>(xs: seq<T>, leq: (T, T) -> bool): (r: seq<T>)
    ensures |r| == |xs|
  {
    if xs == [] then [] else Insert(xs[0], Sort(xs[1..], leq), leq)
  }

  lemma {:induction false} ClassMembers<T(!new)>(xs: seq<T>, leq: (T, T) -> bool, p: T)
    ensures forall x :: x in Class(xs, leq, p) <==> x in xs && Tied(leq, p, x)
  {
    if xs != [] {
      ClassMembers(xs[1..], leq, p);
      assert forall x :: x in xs <==> x == xs[0] || x in xs[1..];
    }
  }

  lemma {:induction false} InsertSorted<T(!new)>(x: T, ys: seq<T>, leq: (T, T) -> bool)
    requires TotalPreorder(leq) && Sorted(ys, leq)
    ensures Sorted(Insert(x, ys, leq), leq)
    ensures forall y :: y in Insert(x, ys, leq) <==> y == x || y in ys
  {
    if ys != [] {
      assert forall y :: y in ys <==> y == ys[0] || y in ys[1..];
      if leq(x, ys[0]) {
      } else {
        InsertSorted(x, ys[1..], leq);
        var rest := Insert(x, ys[1..], leq);
        assert forall y :: y in rest ==> leq(ys[0], y);
      }
    }
  }

  lemma {:induction false} InsertClass<T(!new)>(x: T, ys: seq<T>, leq: (T, T) -> bool, p: T)
    requires TotalPreorder(leq) && Sorted(ys, leq)
    ensures Class(Insert(x, ys, leq), leq, p) == Class([x] + ys, leq, p)
  {
    assert ([x] + ys)[1..] == ys;
    if ys != [] && !leq(x, ys[0]) {
      InsertClass(x, ys[1..], leq, p);
      var rest := Insert(x, ys[1..], leq);
      assert ([ys[0]] + rest)[1..] == rest;
      assert ([x] + ys[1..])[1..] == ys[1..];
    }
  }

  lemma {:induction false} SortIsStable<T(!new)>(xs: seq<T>, leq: (T, T) -> bool)
    requires TotalPreorder(leq)
    ensures StableSorted(xs, Sort(xs, leq), leq)
  {
    if xs != [] {
      SortIsStable(xs[1..], leq);
      var rest := Sort(xs[1..], leq);
      InsertSorted(xs[0], rest, leq);
      forall p ensures Class(Sort(xs, leq), leq, p) == Class(xs, leq, p) {
        InsertClass(xs[0], rest, leq, p);
        assert ([xs[0]] + rest)[1..] == rest;
      }
    }
  }

  lemma SameClassSameMember<T(!new)>(ys: seq<T>, zs: seq<T>, leq: (T, T) -> bool, x: T)
    requires Tied(leq, x, x) && Class(ys, leq, x) == Class(zs, leq, x)
    ensures x in ys <==> x in zs
  {
    ClassMembers(ys, leq, x);
    ClassMembers(zs, leq, x);
  }

  lemma HeadIsLeast<T(!new)>(ys: seq<T>, leq: (T, T) -> bool, x: T)
    requires Sorted(ys, leq) && x in ys && leq(x, x)
    ensures leq(ys[0], x)
  {
    var j :| 0 <= j < |ys| && ys[j] == x;
  }

  lemma SameClassesSameHead<T(!new)>(ys: seq<T>, zs: seq<T>, leq: (T, T) -> bool)
    requires forall x :: leq(x, x)
    requires Sorted(ys, leq) && Sorted(zs, leq)
    requires forall p :: Class(ys, leq, p) == Class(zs, leq, p)
    requires ys != []
    ensures zs != [] && zs[0] == ys[0]
  {
    var y := ys[0];
    SameClassSameMember(ys, zs, leq, y);
    var z := zs[0];
    SameClassSameMember(ys, zs, leq, z);
    HeadIsLeast(ys, leq, z);
    HeadIsLeast(zs, leq, y);
    assert Class(ys, leq, y)[0] == y;
    assert Class(zs, leq, y)[0] == z;
  }

  /** A stable sort has exactly one result. */
  lemma {:induction false} StableSortUnique<T(!new)>(xs: seq<T>, ys: seq<T>, leq: (T, T) -> bool)
    requires TotalPreorder(leq) && StableSorted(xs, ys, leq)
    ensures ys == Sort(xs, leq)
  {
    SortIsStable(xs, leq);
    SameClassesSame(ys, Sort(xs, leq), leq);
  }

  lemma {:induction false} SameClassesSame<T(!new)>(ys: seq<T>, zs: seq<T>, leq: (T, T) -> bool)
    requires TotalPreorder(leq) && Sorted(ys, leq) && Sorted(zs, leq)
    requires forall p :: Class(ys, leq, p) == Class(zs, leq, p)
    ensures ys == zs
  {
    if ys == [] {
      if zs != [] {
        SameClassesSameHead(zs, ys, leq);
      }
    } else {
      SameClassesSameHead(ys, zs, leq);
      forall p ensures Class(ys[1..], leq, p) == Class(zs[1..], leq, p) {
        assert Class(ys, leq, p) == Class(zs, leq, p);
        if Tied(leq, p, ys[0]) {
          assert Class(ys[1..], leq, p) == Class(ys, leq, p)[1..];
          assert Class(zs[1..], leq, p) == Class(zs, leq, p)[1..];
        }
      }
      SameClassesSame(ys[1..], zs[1..], leq);
    }
  }

  lemma {:induction false} ClassMultiset<T(!new)>(xs: seq<T>, leq: (T, T) -> bool, x: T)
    requires TotalPreorder(leq)
    ensures multiset(Class(xs, leq, x))[x] == multiset(xs)[x]
  {
    if xs != [] {
      ClassMultiset(xs[1..], leq, x);
      assert xs == [xs[0]] + xs[1..];
    }
  }

  /** Sorting permutes. */
  lemma SortPermutes<T(!new)>(xs: seq<T>, leq: (T, T) -> bool)
    requires TotalPreorder(leq)
    ensures multiset(Sort(xs, leq)) == multiset(xs)
    ensures forall x :: x in Sort(xs, leq) <==> x in xs
  {
    SortIsStable(xs, leq);
    var ys := Sort(xs, leq);
    forall x ensures multiset(ys)[x] == multiset(xs)[x] {
      ClassMultiset(xs, leq, x);
      ClassMultiset(ys, leq, x);
    }
    forall x ensures x in ys <==> x in xs {
      assert x in ys <==> multiset(ys)[x] > 0;
      assert x in xs <==> multiset(xs)[x] > 0;
    }
  }

  lemma {:induction false} ClassKeepsOrder<T(!new)>(xs: seq<T>, leq: (T, T) -> bool, p: T, i: nat, j: nat)
    returns (a: nat, b: nat)
    requires i < j < |xs| && Tied(leq, p, xs[i]) && Tied(leq, p, xs[j])
    ensures a < b < |Class(xs, leq, p)|
    ensures Class(xs, leq, p)[a] == xs[i] && Class(xs, leq, p)[b] == xs[j]
  {
    if i > 0 {
      a, b := ClassKeepsOrder(xs[1..], leq, p, i - 1, j - 1);
      if Tied(leq, p, xs[0]) {
        a, b := a + 1, b + 1;
      }
    } else {
      ClassMembers(xs[1..], leq, p);
      assert xs[j] == xs[1..][j - 1];
      var rest := Class(xs[1..], leq, p);
      assert xs[j] in rest;
      var c :| 0 <= c < |rest| && rest[c] == xs[j];
      a, b := 0, c + 1;
    }
  }

  lemma {:induction false} ClassReflectsOrder<T(!new)>(xs: seq<T>, leq: (T, T) -> bool, p: T, a: nat, b: nat)
    returns (i: nat, j: nat)
    requires a < b < |Class(xs, leq, p)|
    ensures i < j < |xs|
    ensures xs[i] == Class(xs, leq, p)[a] && xs[j] == Class(xs, leq, p)[b]
  {
    var rest := Class(xs[1..], leq, p);
    if !Tied(leq, p, xs[0]) {
      i, j := ClassReflectsOrder(xs[1..], leq, p, a, b);
      i, j := i + 1, j + 1;
    } else if a > 0 {
      i, j := ClassReflectsOrder(xs[1..], leq, p, a - 1, b - 1);
      i, j := i + 1, j + 1;
    } else {
      ClassMembers(xs[1..], leq, p);
      assert rest[b - 1] in rest;
      var c :| 0 <= c < |xs[1..]| && xs[1..][c] == rest[b - 1];
      i, j := 0, c + 1;
    }
  }

  /** Elements that tie come out in the order in which they went in. */
  lemma TiesKeepOrder<T(!new)>(xs: seq<T>, leq: (T, T) -> bool, i: nat, j: nat) returns (a: nat, b: nat)
    requires TotalPreorder(leq)
    requires i < j < |xs| && Tied(leq, Sort(xs, leq)[i], Sort(xs, leq)[j])
    ensures a < b < |xs| && xs[a] == Sort(xs, leq)[i] && xs[b] == Sort(xs, leq)[j]
  {
    var ys := Sort(xs, leq);
    SortIsStable(xs, leq);
    var c, d := ClassKeepsOrder(ys, leq, ys[i], i, j);
    assert Class(ys, leq, ys[i]) == Class(xs, leq, ys[i]);
    a, b := ClassReflectsOrder(xs, leq, ys[i], c, d);
  }
}
