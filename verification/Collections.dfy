/** Containers shared by the other modules: optional values, Python's insertion-ordered
    dictionary, and the few facts about sequences that several proofs need. */
module Collections {

  datatype Option<+T> = None | Some(value: T)

  function Max(a: int, b: int): int {
    if a < b then b else a
  }

  function Min(a: int, b: int): int {
    if a < b then a else b
  }

  // ---------------------------------------------------------------- sequences

  ghost predicate Distinct<T>(xs: seq<T>) {
    forall i, j :: 0 <= i < j < |xs| ==> xs[i] != xs[j]
  }

  function Filter<T>(xs: seq<T>, p: T -> bool): seq<T> {
    if xs == [] then []
    else if p(xs[0]) then [xs[0]] + Filter(xs[1..], p)
    else Filter(xs[1..], p)
  }

  function Map<S, T>(xs: seq<S>, f: S -> T): (ys: seq<T>)
    ensures |ys| == |xs|
    ensures forall i :: 0 <= i < |xs| ==> ys[i] == f(xs[i])
  {
    if xs == [] then [] else [f(xs[0])] + Map(xs[1..], f)
  }

  /** The last `n` elements: what a `deque(maxlen=n)` retains. */
  function LastN<T>(xs: seq<T>, n: nat): seq<T> {
    if |xs| <= n then xs else xs[|xs| - n..]
  }

  /** Python's `xs[-limit:]`, for every sign of `limit`. */
  function SliceFromEnd<T>(xs: seq<T>, limit: int): seq<T> {
    if limit > 0 then LastN(xs, limit)
    else if -limit <= |xs| then xs[-limit..]
    else []
  }

  /** A slice from the end is a suffix: of the length asked for, if that is positive and there are as
      many; otherwise all but the first `-limit`. */
  lemma SliceFacts<T>(xs: seq<T>, limit: int)
    ensures var r, n := SliceFromEnd(xs, limit), |xs|;
      && |r| == (if limit > 0 then Min(limit, n) else Max(0, n + limit))
      && r == xs[n - |r|..]
  {
  }

  lemma Assoc<T>(a: seq<T>, b: seq<T>, c: seq<T>)
    ensures a + (b + c) == (a + b) + c
  {
  }

  /** A sequence is all but its last element, and then its last element. */
  lemma InitLast<T>(xs: seq<T>)
    requires xs != []
    ensures xs == xs[..|xs| - 1] + [xs[|xs| - 1]]
  {
  }

  lemma {:induction false} FilterConcat<T(!new)>(a: seq<T>, b: seq<T>, p: T -> bool)
    ensures Filter(a + b, p) == Filter(a, p) + Filter(b, p)
  {
    if a == [] {
      assert a + b == b;
    } else {
      FilterConcat(a[1..], b, p);
      assert (a + b)[1..] == a[1..] + b;
    }
  }

  /** One more step of a comprehension. */
  lemma FilterStep<T(!new)>(xs: seq<T>, i: nat, p: T -> bool)
    requires i < |xs|
    ensures Filter(xs[..i + 1], p) == Filter(xs[..i], p) + if p(xs[i]) then [xs[i]] else []
  {
    assert xs[..i + 1] == xs[..i] + [xs[i]];
    FilterConcat(xs[..i], [xs[i]], p);
  }

  lemma {:induction false} FilterMembers<T(!new)>(xs: seq<T>, p: T -> bool)
    ensures forall x :: x in Filter(xs, p) <==> x in xs && p(x)
    ensures |Filter(xs, p)| <= |xs|
  {
    if xs != [] {
      FilterMembers(xs[1..], p);
      assert forall x :: x in xs <==> x == xs[0] || x in xs[1..];
    }
  }

  lemma {:induction false} FilterDistinct<T(!new)>(xs: seq<T>, p: T -> bool)
    requires Distinct(xs)
    ensures Distinct(Filter(xs, p))
  {
    if xs != [] {
      FilterDistinct(xs[1..], p);
      FilterMembers(xs[1..], p);
      assert forall x :: x in xs[1..] ==> x != xs[0];
    }
  }

  /** Filtering with predicates that agree on the elements gives the same list. */
  lemma {:induction false} FilterAgree<T(!new)>(xs: seq<T>, p: T -> bool, q: T -> bool)
    requires forall x :: x in xs ==> p(x) == q(x)
    ensures Filter(xs, p) == Filter(xs, q)
  {
    if xs != [] {
      assert forall x :: x in xs[1..] ==> x in xs;
      FilterAgree(xs[1..], p, q);
    }
  }

  function Both<T>(p: T -> bool, q: T -> bool): T -> bool {
    x => p(x) && q(x)
  }

  lemma {:induction false} FilterFilter<T(!new)>(xs: seq<T>, p: T -> bool, q: T -> bool)
    ensures Filter(Filter(xs, p), q) == Filter(xs, Both(p, q))
  {
    if xs != [] {
      FilterFilter(xs[1..], p, q);
      var rest := Filter(xs[1..], p);
      if p(xs[0]) {
        assert Filter(xs, p) == [xs[0]] + rest;
        assert ([xs[0]] + rest)[1..] == rest;
      }
    }
  }

  lemma {:induction false} MapConcat<S, T>(a: seq<S>, b: seq<S>, f: S -> T)
    ensures Map(a + b, f) == Map(a, f) + Map(b, f)
  {
  }

  /** Appending to a bounded deque keeps the last `n` elements of the whole history. */
  lemma BoundedAppend<T(!new)>(xs: seq<T>, x: T, n: nat)
    requires n > 0
    ensures LastN(LastN(xs, n) + [x], n) == LastN(xs + [x], n)
  {
    if |xs| > n {
      assert LastN(xs, n) == xs[|xs| - n..];
      assert LastN(xs + [x], n) == xs[|xs| - n + 1..] + [x];
    }
  }

  lemma {:induction false} DistinctSameSetMultiset<T(!new)>(a: seq<T>, b: seq<T>)
    requires Distinct(a) && Distinct(b)
    requires forall x :: x in a <==> x in b
    ensures multiset(a) == multiset(b)
  {
    forall x ensures multiset(a)[x] == multiset(b)[x] {
      DistinctMultiplicity(a, x);
      DistinctMultiplicity(b, x);
    }
  }

  lemma {:induction false} DistinctMultiplicity<T(!new)>(a: seq<T>, x: T)
    requires Distinct(a)
    ensures multiset(a)[x] == if x in a then 1 else 0
  {
    if a != [] {
      DistinctMultiplicity(a[1..], x);
      assert a == [a[0]] + a[1..];
      assert a[0] !in a[1..];
    }
  }

  lemma TwiceCountsTwo<T(!new)>(ys: seq<T>, i: nat, j: nat)
    requires i < j < |ys| && ys[i] == ys[j]
    ensures multiset(ys)[ys[i]] >= 2
  {
    assert ys == ys[..i] + [ys[i]] + ys[i + 1..j] + [ys[j]] + ys[j + 1..];
  }

  lemma PermutationDistinct<T(!new)>(xs: seq<T>, ys: seq<T>)
    requires Distinct(xs) && multiset(xs) == multiset(ys)
    ensures Distinct(ys)
  {
    forall i, j | 0 <= i < j < |ys| ensures ys[i] != ys[j] {
      if ys[i] == ys[j] {
        TwiceCountsTwo(ys, i, j);
        DistinctMultiplicity(xs, ys[i]);
      }
    }
  }

  /** A sequence without repetition drawn from a finite set is no longer than the set. */
  lemma {:induction false} DistinctWithin<T(!new)>(xs: seq<T>, s: set<T>)
    requires Distinct(xs)
    requires forall x :: x in xs ==> x in s
    ensures |xs| <= |s|
  {
    if xs != [] {
      var rest := xs[1..];
      assert forall x :: x in rest ==> x in xs && x != xs[0];
      DistinctWithin(rest, s - {xs[0]});
    }
  }

  // ------------------------------------------------------------ dictionaries

  /** A Python `dict`: a finite map together with the insertion order of its keys. */
  datatype Dict<K, V> = Dict(keys: seq<K>, data: map<K, V>) {

    ghost predicate Valid() {
      && Distinct(keys)
      && (forall k | k in keys :: k in data)
      && (forall k | k in data :: k in keys)
    }
  }

  function EmptyDict<K, V>(): Dict<K, V> {
    Dict([], map[])
  }

  /** `d[k] = v`: a known key keeps its place, a new one goes last. */
  function Put<K(==), V>(d: Dict<K, V>, k: K, v: V): (r: Dict<K, V>)
    ensures d.Valid() ==> r.Valid()
  {
    Dict(if k in d.data then d.keys else d.keys + [k], d.data[k := v])
  }

  /** The dictionary restricted to the keys that satisfy `p`. */
  function Keep<K(==), V>(d: Dict<K, V>, p: K -> bool): Dict<K, V> {
    Dict(Filter(d.keys, p), map k | k in d.data && p(k) :: d.data[k])
  }

  /** `d.pop(k, None)`. */
  function Remove<K(==), V>(d: Dict<K, V>, k: K): Dict<K, V> {
    Keep(d, x => x != k)
  }

  lemma KeepValid<K(!new), V>(d: Dict<K, V>, p: K -> bool)
    requires d.Valid()
    ensures Keep(d, p).Valid()
  {
    FilterMembers(d.keys, p);
    FilterDistinct(d.keys, p);
    var r := Keep(d, p);
    forall k | k in r.keys ensures k in r.data {
    }
    forall k | k in r.data ensures k in r.keys {
      assert k in d.keys && p(k);
    }
  }

  lemma RemoveValid<K(!new), V>(d: Dict<K, V>, k: K)
    requires d.Valid()
    ensures Remove(d, k).Valid()
    ensures Remove(d, k).data == d.data - {k}
  {
    KeepValid(d, x => x != k);
  }

  /** Storing a value and then deleting the key leaves the dictionary without the key. */
  lemma PutThenRemove<K(!new), V>(d: Dict<K, V>, k: K, v: V)
    ensures Remove(Put(d, k, v), k) == Remove(d, k)
  {
    if k !in d.data {
      FilterConcat(d.keys, [k], x => x != k);
      FilterNone([k], x => x != k);
    }
  }

  /** Popping one more key narrows what is kept. */
  lemma KeepThenRemove<K(!new), V>(d: Dict<K, V>, p: K -> bool, k: K, q: K -> bool)
    requires forall x :: q(x) <==> p(x) && x != k
    ensures Remove(Keep(d, p), k) == Keep(d, q)
  {
    FilterFilter(d.keys, p, x => x != k);
    FilterAgree(d.keys, Both(p, x => x != k), q);
    assert Remove(Keep(d, p), k).keys == Filter(Filter(d.keys, p), x => x != k);
    assert Remove(Keep(d, p), k).data == Keep(d, q).data;
  }

  lemma KeepAll<K(!new), V>(d: Dict<K, V>, p: K -> bool)
    requires d.Valid() && forall k | k in d.keys :: p(k)
    ensures Keep(d, p) == d
  {
    FilterAll(d.keys, p);
  }

  lemma {:induction false} FilterAll<T(!new)>(xs: seq<T>, p: T -> bool)
    requires forall x | x in xs :: p(x)
    ensures Filter(xs, p) == xs
  {
    if xs != [] {
      assert forall x | x in xs[1..] :: x in xs;
      FilterAll(xs[1..], p);
    }
  }

  lemma {:induction false} FilterNone<T(!new)>(xs: seq<T>, p: T -> bool)
    requires forall x | x in xs :: !p(x)
    ensures Filter(xs, p) == []
  {
    if xs != [] {
      assert forall x | x in xs[1..] :: x in xs;
      FilterNone(xs[1..], p);
    }
  }

  /** A weaker test keeps at least as much. */
  lemma {:induction false} FilterWeaker<T(!new)>(xs: seq<T>, p: T -> bool, q: T -> bool)
    requires forall x | x in xs && p(x) :: q(x)
    ensures |Filter(xs, p)| <= |Filter(xs, q)|
  {
    if xs != [] {
      assert forall x | x in xs[1..] :: x in xs;
      FilterWeaker(xs[1..], p, q);
    }
  }

  /** Two tests that cover a third count at least as much together. */
  lemma {:induction false} FilterCover<T(!new)>(xs: seq<T>, p: T -> bool, q: T -> bool, r: T -> bool)
    requires forall x | x in xs && r(x) :: p(x) || q(x)
    ensures |Filter(xs, r)| <= |Filter(xs, p)| + |Filter(xs, q)|
  {
    if xs != [] {
      assert forall x | x in xs[1..] :: x in xs;
      FilterCover(xs[1..], p, q, r);
    }
  }
}
