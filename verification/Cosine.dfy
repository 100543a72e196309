/** Cosine similarity over real vectors of any length. */
module Cosine {

  type Vector = seq<real>

  /** The sum of products, over the shorter of the two lengths. */
  function Dot(a: Vector, b: Vector): real {
    if a == [] || b == [] then 0.0 else a[0] * b[0] + Dot(a[1..], b[1..])
  }

  function SumSq(a: Vector): (r: real)
    ensures r >= 0.0
  {
    if a == [] then 0.0 else a[0] * a[0] + SumSq(a[1..])
  }

  /** What the proofs use of a square root. */
  ghost predicate IsRoot(sqrt: real -> real) {
    forall x: real :: x >= 0.0 ==> sqrt(x) >= 0.0 && sqrt(x) * sqrt(x) == x
  }

  function Ratio(d: real, m: real): real {
    if m == 0.0 then 0.0 else d / m
  }

  /** `_cosine_similarity` of the retriever. */
  function CosineSimilarity(sqrt: real -> real, a: Vector, b: Vector): real {
    Ratio(Dot(a, b), NormProduct(sqrt, a, b))
  }

  function NormProduct(sqrt: real -> real, a: Vector, b: Vector): real {
    sqrt(SumSq(a)) * sqrt(SumSq(b))
  }

  /** `similarity` of the memory graph's provider, which also accepts unequal lengths. */
  function Similarity(sqrt: real -> real, a: Vector, b: Vector): real {
    if a == [] || b == [] || |a| != |b| then 0.0
    else if sqrt(SumSq(a)) == 0.0 || sqrt(SumSq(b)) == 0.0 then 0.0
    else Dot(a, b) / NormProduct(sqrt, a, b)
  }

  lemma {:induction false} DotSelf(a: Vector)
    ensures Dot(a, a) == SumSq(a)
  {
    if a != [] {
      DotSelf(a[1..]);
    }
  }

  lemma {:induction false} DotCommutes(a: Vector, b: Vector)
    ensures Dot(a, b) == Dot(b, a)
  {
    if a != [] && b != [] {
      DotCommutes(a[1..], b[1..]);
    }
  }

  // ------------------------------------------------- the product is bilinear

  function Sum(a: Vector, b: Vector): (c: Vector)
    requires |a| == |b|
    ensures |c| == |a| && forall i :: 0 <= i < |a| ==> c[i] == a[i] + b[i]
  {
    seq(|a|, i requires 0 <= i < |a| => a[i] + b[i])
  }

  function Times(k: real, a: Vector): (c: Vector)
    ensures |c| == |a| && forall i :: 0 <= i < |a| ==> c[i] == k * a[i]
  {
    seq(|a|, i requires 0 <= i < |a| => k * a[i])
  }

  /** One at place `i`, zero elsewhere. */
  function Unit(n: nat, i: nat): (c: Vector)
    ensures |c| == n && forall j :: 0 <= j < n ==> c[j] == if j == i then 1.0 else 0.0
  {
    seq(n, j => if j == i then 1.0 else 0.0)
  }

  /** The product is additive in its first argument. */
  lemma {:induction false} DotAdds(a: Vector, b: Vector, c: Vector)
    requires |a| == |b| == |c|
    ensures Dot(Sum(a, b), c) == Dot(a, c) + Dot(b, c)
  {
    if a != [] {
      DotAdds(a[1..], b[1..], c[1..]);
      assert Sum(a, b)[1..] == Sum(a[1..], b[1..]);
    }
  }

  lemma Distribute(k: real, x: real, y: real, r: real, d: real)
    requires d == x * y + r
    ensures (k * x) * y + k * r == k * d
  {
  }

  lemma TimesTail(k: real, a: Vector)
    requires a != []
    ensures Times(k, a)[0] == k * a[0] && Times(k, a)[1..] == Times(k, a[1..])
  {
    forall i | 0 <= i < |a| - 1 ensures Times(k, a)[1..][i] == Times(k, a[1..])[i] {
      assert a[1..][i] == a[i + 1];
    }
  }

  /** The product is homogeneous in its first argument, for factors of either sign. */
  lemma {:induction false} DotScales(k: real, a: Vector, b: Vector, d: real)
    requires |a| == |b| && d == Dot(a, b)
    ensures Dot(Times(k, a), b) == k * d
  {
    if a != [] {
      var rest := Dot(a[1..], b[1..]);
      DotScales(k, a[1..], b[1..], rest);
      TimesTail(k, a);
      Distribute(k, a[0], b[0], rest, d);
    }
  }

  lemma {:induction false} DotZero(a: Vector, b: Vector)
    requires forall i :: 0 <= i < |a| ==> a[i] == 0.0
    ensures Dot(a, b) == 0.0
  {
    if a != [] && b != [] {
      DotZero(a[1..], b[1..]);
    }
  }

  /** The product with a unit vector is the component. */
  lemma {:induction false} DotUnit(a: Vector, i: nat)
    requires i < |a|
    ensures Dot(Unit(|a|, i), a) == a[i]
  {
    var u := Unit(|a|, i);
    if i == 0 {
      DotZero(u[1..], a[1..]);
    } else {
      DotUnit(a[1..], i - 1);
      assert u[1..] == Unit(|a| - 1, i - 1);
    }
  }

  lemma DotAddsRight(c: Vector, a: Vector, b: Vector)
    requires |a| == |b| == |c|
    ensures Dot(c, Sum(a, b)) == Dot(c, a) + Dot(c, b)
  {
    DotAdds(a, b, c);
    DotCommutes(c, Sum(a, b));
    DotCommutes(c, a);
    DotCommutes(c, b);
  }

  lemma DotScalesRight(k: real, a: Vector, b: Vector, d: real)
    requires |a| == |b| && d == Dot(a, b)
    ensures Dot(a, Times(k, b)) == k * d
  {
    DotCommutes(a, b);
    DotCommutes(a, Times(k, b));
    DotScales(k, b, a, d);
  }

  /** What these laws say of a product. */
  ghost predicate IsProduct(g: (Vector, Vector) -> real, n: nat) {
    Additive(g, n) && Homogeneous(g, n) && PicksComponents(g, n)
  }

  ghost predicate Additive(g: (Vector, Vector) -> real, n: nat) {
    forall a, b, c | |a| == |b| == |c| == n :: g(Sum(a, b), c) == g(a, c) + g(b, c)
  }

  ghost predicate Homogeneous(g: (Vector, Vector) -> real, n: nat) {
    forall k, a, c | |a| == |c| == n :: g(Times(k, a), c) == k * g(a, c)
  }

  ghost predicate PicksComponents(g: (Vector, Vector) -> real, n: nat) {
    forall i, c | 0 <= i < n && |c| == n :: g(Unit(n, i), c) == c[i]
  }

  /** The first `k` components, then zeros. */
  function Front(a: Vector, k: nat): (c: Vector)
    ensures |c| == |a| && forall i :: 0 <= i < |a| ==> c[i] == if i < k then a[i] else 0.0
  {
    seq(|a|, i requires 0 <= i < |a| => if i < k then a[i] else 0.0)
  }

  lemma NextFront(a: Vector, k: nat)
    requires k < |a|
    ensures Front(a, k + 1) == Sum(Front(a, k), Times(a[k], Unit(|a|, k)))
  {
  }

  lemma ProductOfMultiple(g: (Vector, Vector) -> real, k: real, a: Vector, c: Vector, d: real)
    requires |a| == |c| && Homogeneous(g, |a|) && d == g(a, c)
    ensures g(Times(k, a), c) == k * d
  {
  }

  lemma ProductOfNothing(g: (Vector, Vector) -> real, z: Vector, b: Vector)
    requires |z| == |b| && Homogeneous(g, |z|) && forall i :: 0 <= i < |z| ==> z[i] == 0.0
    ensures g(z, b) == 0.0
  {
    assert Times(0.0, z) == z;
    ProductOfMultiple(g, 0.0, z, b, g(z, b));
  }

  lemma ProductOfUnit(g: (Vector, Vector) -> real, n: nat, i: nat, b: Vector)
    requires i < n == |b| && PicksComponents(g, n)
    ensures g(Unit(n, i), b) == b[i]
  {
  }

  lemma ProductOfComponent(g: (Vector, Vector) -> real, x: real, n: nat, i: nat, b: Vector, t: Vector)
    requires i < n == |b| && IsProduct(g, n) && t == Times(x, Unit(n, i))
    ensures g(t, b) == Dot(t, b)
  {
    var u, y := Unit(n, i), b[i];
    ProductOfUnit(g, n, i, b);
    ProductOfMultiple(g, x, u, b, y);
    DotUnit(b, i);
    DotScales(x, u, b, y);
  }

  lemma ProductOfSum(g: (Vector, Vector) -> real, a: Vector, b: Vector, c: Vector)
    requires |a| == |b| == |c| && Additive(g, |a|) && g(a, c) == Dot(a, c) && g(b, c) == Dot(b, c)
    ensures g(Sum(a, b), c) == Dot(Sum(a, b), c)
  {
    DotAdds(a, b, c);
  }

  lemma {:induction false} ProductOfFront(g: (Vector, Vector) -> real, a: Vector, b: Vector, k: nat)
    requires |a| == |b| && k <= |a| && IsProduct(g, |a|)
    ensures g(Front(a, k), b) == Dot(Front(a, k), b)
  {
    if k == 0 {
      ProductOfNothing(g, Front(a, 0), b);
      DotZero(Front(a, 0), b);
    } else {
      var t := Times(a[k - 1], Unit(|a|, k - 1));
      ProductOfFront(g, a, b, k - 1);
      ProductOfComponent(g, a[k - 1], |a|, k - 1, b, t);
      NextFront(a, k - 1);
      ProductOfSum(g, Front(a, k - 1), t, b);
    }
  }

  lemma DotIsAdditive(n: nat)
    ensures Additive((a, b) => Dot(a, b), n)
  {
    forall a, b, c | |a| == |b| == |c| == n ensures Dot(Sum(a, b), c) == Dot(a, c) + Dot(b, c) {
      DotAdds(a, b, c);
    }
  }

  lemma DotIsHomogeneous(n: nat)
    ensures Homogeneous((a, b) => Dot(a, b), n)
  {
    forall k, a, c | |a| == |c| == n ensures Dot(Times(k, a), c) == k * Dot(a, c) {
      DotScales(k, a, c, Dot(a, c));
    }
  }

  lemma DotPicksComponents(n: nat)
    ensures PicksComponents((a, b) => Dot(a, b), n)
  {
    forall i, c | 0 <= i < n && |c| == n ensures Dot(Unit(n, i), c) == c[i] {
      DotUnit(c, i);
    }
  }

  /** No other function obeys them. */
  lemma DotIsTheOnlyProduct(g: (Vector, Vector) -> real, a: Vector, b: Vector)
    requires |a| == |b| && IsProduct(g, |a|)
    ensures g(a, b) == Dot(a, b)
  {
    assert Front(a, |a|) == a;
    ProductOfFront(g, a, b, |a|);
  }

  /** The square of s*a - t*b, summed. */
  lemma {:induction false} CombinationIsNonNegative(a: Vector, b: Vector, s: real, t: real)
    requires |a| == |b|
    ensures s * s * SumSq(a) - 2.0 * s * t * Dot(a, b) + t * t * SumSq(b) >= 0.0
  {
    if a != [] {
      CombinationIsNonNegative(a[1..], b[1..], s, t);
      var x, y := a[0], b[0];
      var p, q, d := SumSq(a[1..]), SumSq(b[1..]), Dot(a[1..], b[1..]);
      ExpandCombination(x, y, p, q, d, s, t);
    }
  }

  lemma ExpandCombination(x: real, y: real, p: real, q: real, d: real, s: real, t: real)
    requires s * s * p - 2.0 * s * t * d + t * t * q >= 0.0
    ensures s * s * (x * x + p) - 2.0 * s * t * (x * y + d) + t * t * (y * y + q) >= 0.0
  {
    var z := s * x - t * y;
    assert z * z >= 0.0;
    assert z * z == s * s * (x * x) - 2.0 * s * t * (x * y) + t * t * (y * y);
    assert s * s * (x * x + p) == s * s * (x * x) + s * s * p;
    assert 2.0 * s * t * (x * y + d) == 2.0 * s * t * (x * y) + 2.0 * s * t * d;
    assert t * t * (y * y + q) == t * t * (y * y) + t * t * q;
  }

  lemma CombinationFor(a: Vector, b: Vector, s: real, t: real, p: real, q: real, d: real)
    requires |a| == |b| && p == SumSq(a) && q == SumSq(b) && d == Dot(a, b)
    ensures s * s * p - 2.0 * s * t * d + t * t * q >= 0.0
  {
    CombinationIsNonNegative(a, b, s, t);
  }

  /** The Cauchy-Schwarz inequality, for vectors of any length. */
  lemma {:induction false} CauchySchwarz(a: Vector, b: Vector, x: real, y: real, d: real)
    requires |a| == |b| && x == SumSq(a) && y == SumSq(b) && d == Dot(a, b)
    ensures d * d <= x * y
  {
    if a != [] {
      var p, q, r := SumSq(a[1..]), SumSq(b[1..]), Dot(a[1..], b[1..]);
      CauchySchwarz(a[1..], b[1..], p, q, r);
      CombinationFor(a[1..], b[1..], b[0], a[0], p, q, r);
      ExpandProduct(a[0], b[0], p, q, r, x, y, d);
    }
  }

  lemma ExpandProduct(x: real, y: real, p: real, q: real, d: real, p1: real, q1: real, d1: real)
    requires d * d <= p * q
    requires y * y * p - 2.0 * y * x * d + x * x * q >= 0.0
    requires p1 == x * x + p && q1 == y * y + q && d1 == x * y + d
    ensures d1 * d1 <= p1 * q1
  {
    assert d1 * d1 == x * x * y * y + 2.0 * y * x * d + d * d;
    assert p1 * q1 == x * x * y * y + x * x * q + y * y * p + p * q;
  }

  lemma PositiveProduct(x: real, y: real)
    requires x > 0.0 && y > 0.0
    ensures x * y > 0.0
  {
  }

  lemma SquaresOrder(d: real, m: real)
    requires 0.0 <= m && d * d <= m * m
    ensures -m <= d <= m
  {
    assert (d - m) * (d + m) == d * d - m * m;
    assert (-d - m) * (m - d) == d * d - m * m;
    if d > m {
      PositiveProduct(d - m, d + m);
    }
    if d < -m {
      PositiveProduct(-d - m, m - d);
    }
  }

  lemma RatioBounded(d: real, m: real)
    requires 0.0 <= m && d * d <= m * m
    ensures -1.0 <= Ratio(d, m) <= 1.0
  {
    SquaresOrder(d, m);
  }

  lemma ProductOfRoots(x: real, y: real, m: real, n: real, p: real)
    requires m >= 0.0 && n >= 0.0 && m * m == x && n * n == y && p == m * n
    ensures p >= 0.0 && p * p == x * y
  {
    assert (m * n) * (m * n) == (m * m) * (n * n);
  }

  lemma RootOf(sqrt: real -> real, x: real, m: real)
    requires IsRoot(sqrt) && x >= 0.0 && m == sqrt(x)
    ensures m >= 0.0 && m * m == x
  {
    assert sqrt(x) * sqrt(x) == x;
  }

  lemma NormProductIs(sqrt: real -> real, a: Vector, b: Vector, m: real, n: real)
    requires m == sqrt(SumSq(a)) && n == sqrt(SumSq(b))
    ensures NormProduct(sqrt, a, b) == m * n
  {
  }

  lemma NormProductSquared(sqrt: real -> real, a: Vector, b: Vector, x: real, y: real, p: real)
    requires IsRoot(sqrt) && x == SumSq(a) && y == SumSq(b) && p == NormProduct(sqrt, a, b)
    ensures p >= 0.0 && p * p == x * y
  {
    var m, n := sqrt(x), sqrt(y);
    RootOf(sqrt, x, m);
    RootOf(sqrt, y, n);
    NormProductIs(sqrt, a, b, m, n);
    ProductOfRoots(x, y, m, n, p);
  }

  /** Every score lies between -1 and 1. */
  lemma CosineBounded(sqrt: real -> real, a: Vector, b: Vector)
    requires IsRoot(sqrt) && |a| == |b|
    ensures -1.0 <= CosineSimilarity(sqrt, a, b) <= 1.0
  {
    var x, y, d, p := SumSq(a), SumSq(b), Dot(a, b), NormProduct(sqrt, a, b);
    CauchySchwarz(a, b, x, y, d);
    NormProductSquared(sqrt, a, b, x, y, p);
    RatioBounded(d, p);
  }

  /** The two implementations agree wherever both are defined, so the bound carries over, and
      unequal lengths score zero. */
  lemma SimilarityBounded(sqrt: real -> real, a: Vector, b: Vector)
    requires IsRoot(sqrt)
    ensures -1.0 <= Similarity(sqrt, a, b) <= 1.0
    ensures |a| == |b| ==> Similarity(sqrt, a, b) == CosineSimilarity(sqrt, a, b)
  {
    if |a| == |b| {
      CosineBounded(sqrt, a, b);
      ZeroProduct(sqrt(SumSq(a)), sqrt(SumSq(b)));
    }
  }

  lemma ZeroProduct(x: real, y: real)
    ensures x * y == 0.0 <==> x == 0.0 || y == 0.0
  {
  }

  lemma {:induction false} SumSqZero(a: Vector)
    ensures SumSq(a) == 0.0 <==> forall i :: 0 <= i < |a| ==> a[i] == 0.0
  {
    if a != [] {
      SumSqZero(a[1..]);
      assert forall i :: 1 <= i < |a| ==> a[i] == a[1..][i - 1];
      assert forall i :: 0 <= i < |a[1..]| ==> a[1..][i] == a[i + 1];
      ZeroProduct(a[0], a[0]);
      assert a[0] * a[0] >= 0.0;
    }
  }

  predicate NonZero(a: Vector) {
    exists i :: 0 <= i < |a| && a[i] != 0.0
  }

  lemma RatioOfItself(d: real, m: real)
    requires 0.0 <= d && 0.0 <= m && m * m == d * d
    ensures Ratio(d, m) == if d == 0.0 then 0.0 else 1.0
  {
    RootUnique(d, m);
    if m != 0.0 {
      var r := d / m;
      assert (r - 1.0) * m == 0.0;
      ZeroProduct(r - 1.0, m);
    }
  }

  /** A vector scores 1 with itself exactly if it is not zero, and 0 otherwise. */
  lemma CosineSelf(sqrt: real -> real, a: Vector)
    requires IsRoot(sqrt)
    ensures CosineSimilarity(sqrt, a, a) == if NonZero(a) then 1.0 else 0.0
  {
    var d, p := Dot(a, a), NormProduct(sqrt, a, a);
    DotSelf(a);
    SumSqZero(a);
    NormProductSquared(sqrt, a, a, d, d, p);
    RatioOfItself(d, p);
  }

  lemma RootUnique(x: real, y: real)
    requires x >= 0.0 && y >= 0.0 && x * x == y * y
    ensures x == y
  {
    assert (x - y) * (x + y) == x * x - y * y;
    ZeroProduct(x - y, x + y);
  }

  // -------------------------------------------------------- what a score means

  lemma ScoreIsRatio(sqrt: real -> real, a: Vector, b: Vector, m: real, n: real, p: real)
    requires IsRoot(sqrt) && m >= 0.0 && n >= 0.0 && m * m == Dot(a, a) && n * n == Dot(b, b) && p == m * n
    ensures CosineSimilarity(sqrt, a, b) == Ratio(Dot(a, b), p)
  {
    LengthIs(sqrt, a, m);
    LengthIs(sqrt, b, n);
    NormProductIs(sqrt, a, b, m, n);
  }

  /** The score, times both lengths, gives the product; and it is zero if a length is zero. */
  lemma CosineIs(sqrt: real -> real, a: Vector, b: Vector, m: real, n: real, p: real)
    requires IsRoot(sqrt) && m >= 0.0 && n >= 0.0 && m * m == Dot(a, a) && n * n == Dot(b, b) && p == m * n
    ensures p != 0.0 ==> CosineSimilarity(sqrt, a, b) * p == Dot(a, b)
    ensures p == 0.0 ==> CosineSimilarity(sqrt, a, b) == 0.0
  {
    ScoreIsRatio(sqrt, a, b, m, n, p);
    QuotientTimes(CosineSimilarity(sqrt, a, b), Dot(a, b), p);
  }

  lemma LengthIs(sqrt: real -> real, a: Vector, m: real)
    requires IsRoot(sqrt) && m >= 0.0 && m * m == Dot(a, a)
    ensures sqrt(SumSq(a)) == m
  {
    DotSelf(a);
    RootOf(sqrt, SumSq(a), sqrt(SumSq(a)));
    RootUnique(m, sqrt(SumSq(a)));
  }

  lemma QuotientTimes(r: real, d: real, p: real)
    requires r == Ratio(d, p)
    ensures p != 0.0 ==> r * p == d
    ensures p == 0.0 ==> r == 0.0
  {
  }

  /** Orthogonal vectors score zero. */
  lemma OrthogonalScoresZero(sqrt: real -> real, a: Vector, b: Vector)
    requires Dot(a, b) == 0.0
    ensures CosineSimilarity(sqrt, a, b) == 0.0
  {
    ZeroOver(NormProduct(sqrt, a, b));
  }

  lemma ZeroOver(p: real)
    ensures Ratio(0.0, p) == 0.0
  {
  }

  lemma SquareOfProduct(k: real, d: real, q: real)
    requires q == k * (k * d)
    ensures d * q == (k * d) * (k * d)
  {
  }

  lemma SignedRatio(k: real, d: real, q: real, e: real, p: real)
    requires d > 0.0 && k != 0.0 && p >= 0.0
    requires q == k * (k * d) && p * p == d * q && e == k * d
    ensures Ratio(e, p) == if k > 0.0 then 1.0 else -1.0
  {
    SquareOfProduct(k, d, q);
    if k > 0.0 {
      PositiveProduct(k, d);
      RatioOfItself(e, p);
    } else {
      PositiveProduct(-k, d);
      assert (-k) * d == -e;
      SquareOfOpposite(e);
      RootUnique(-e, p);
      OppositeRatio(p);
    }
  }

  lemma SquareOfOpposite(e: real)
    ensures (-e) * (-e) == e * e
  {
  }

  lemma OppositeRatio(p: real)
    requires p > 0.0
    ensures Ratio(-p, p) == -1.0
  {
    assert (-1.0) * p == -p;
    var r := -p / p;
    assert (r + 1.0) * p == 0.0;
    ZeroProduct(r + 1.0, p);
  }

  lemma MultipleDot(a: Vector, k: real, d: real, e: real)
    requires d == SumSq(a) && e == Dot(a, Times(k, a))
    ensures e == k * d
  {
    DotSelf(a);
    DotScalesRight(k, a, a, d);
  }

  lemma MultipleSquared(a: Vector, k: real, d: real, e: real, q: real)
    requires d == SumSq(a) && e == Dot(a, Times(k, a)) && q == SumSq(Times(k, a))
    ensures q == k * (k * d)
  {
    DotSelf(Times(k, a));
    DotScales(k, a, Times(k, a), e);
    MultipleDot(a, k, d, e);
  }

  /** A nonzero vector scores 1 with every positive multiple of itself, -1 with every negative one. */
  lemma MultiplesScoreOne(sqrt: real -> real, a: Vector, k: real)
    requires IsRoot(sqrt) && NonZero(a) && k != 0.0
    ensures CosineSimilarity(sqrt, a, Times(k, a)) == if k > 0.0 then 1.0 else -1.0
  {
    var b, d := Times(k, a), SumSq(a);
    var q, e, p := SumSq(b), Dot(a, b), NormProduct(sqrt, a, b);
    SumSqZero(a);
    DotSelf(a);
    MultipleDot(a, k, d, e);
    MultipleSquared(a, k, d, e, q);
    NormProductSquared(sqrt, a, b, d, q, p);
    SignedRatio(k, d, q, e, p);
  }
}
