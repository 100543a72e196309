/** The in-memory vector store: validated additions and exact top-k search. */
module Retriever {
  import opened Collections
  import opened StableSort
  import opened Ranking
  import opened Cosine

  type Metadata = map<string, string>

  datatype Outcome<+T> = Ok(value: T) | ValueError(message: string)

  datatype Hit = Hit(score: real, metadata: Metadata)

  /** The stored vectors, their metadata, and the dimension (0 while nothing is stored). */
  datatype Index = Index(vectors: seq<Vector>, metadata: seq<Metadata>, dimension: nat) {
    /** Parallel lists of one dimension. */
    predicate Valid() {
      && |vectors| == |metadata|
      && (forall i :: 0 <= i < |vectors| ==> |vectors[i]| == dimension)
      && (dimension == 0 <==> vectors == [])
    }
  }

  const EMPTY: Index := Index([], [], 0)

  predicate SameLength(vectors: seq<Vector>) {
    forall i :: 0 <= i < |vectors| ==> |vectors[i]| == |vectors[0]|
  }

  /** What an addition must satisfy. */
  predicate Acceptable(x: Index, vectors: seq<Vector>, metadata: Option<seq<Metadata>>, texts: Option<seq<string>>) {
    || vectors == []
    || (&& |vectors[0]| > 0 && SameLength(vectors)
        && (metadata.Some? ==> |metadata.value| == |vectors|)
        && (texts.Some? ==> |texts.value| == |vectors|)
        && (x.dimension == 0 || x.dimension == |vectors[0]|))
  }

  function Added(x: Index, vectors: seq<Vector>, metadata: Option<seq<Metadata>>): Index
    requires vectors != []
  {
    Index(x.vectors + vectors,
          x.metadata + (if metadata.Some? then metadata.value else seq(|vectors|, _ => map[])),
          |vectors[0]|)
  }

  /** Additions keep the lists parallel and of one dimension. */
  lemma AddedValid(x: Index, vectors: seq<Vector>, metadata: Option<seq<Metadata>>, texts: Option<seq<string>>)
    requires x.Valid() && vectors != [] && Acceptable(x, vectors, metadata, texts)
    ensures Added(x, vectors, metadata).Valid()
  {
  }

  // -------------------------------------------------------------------- search

  /** The score of the `i`-th vector. */
  function ScoreAt(scores: seq<real>): nat -> real {
    (i: nat) => if i < |scores| then scores[i] else 0.0
  }

  function Upto(n: nat): (r: seq<nat>)
    ensures |r| == n && forall i :: 0 <= i < n ==> r[i] == i
  {
    seq(n, i => i)
  }

  /** Indexes by score, highest first, ties by position. */
  function RankedIndexes(scores: seq<real>): (r: seq<nat>)
    ensures |r| == |scores|
  {
    Ranked(Upto(|scores|), ScoreAt(scores))
  }

  function CosineScores(sqrt: real -> real, query: Vector, vectors: seq<Vector>): (r: seq<real>)
    ensures |r| == |vectors|
    ensures forall i :: 0 <= i < |r| ==> r[i] == CosineSimilarity(sqrt, query, vectors[i])
  {
    Map(vectors, v => CosineSimilarity(sqrt, query, v))
  }

  /** `best` are the indexes of the `k` highest scores, in order, ties by position. */
  ghost predicate IsTopK(scores: seq<real>, k: nat, best: seq<nat>) {
    && |best| == Min(k, |scores|)
    && Distinct(best)
    && (forall i | i in best :: i < |scores|)
    && (forall a, b :: 0 <= a < b < |best| && best[b] < |scores| && best[a] < |scores| ==>
          scores[best[a]] > scores[best[b]] || (scores[best[a]] == scores[best[b]] && best[a] < best[b]))
    && (forall i, a :: 0 <= i < |scores| && i !in best && 0 <= a < |best| && best[a] < |scores| ==>
          scores[best[a]] > scores[i] || (scores[best[a]] == scores[i] && best[a] < i))
  }

  lemma RankedIndexesOrder(scores: seq<real>, a: nat, b: nat)
    requires a < b < |scores|
    ensures var r := RankedIndexes(scores);
      && r[a] < |scores| && r[b] < |scores|
      && (scores[r[a]] > scores[r[b]] || (scores[r[a]] == scores[r[b]] && r[a] < r[b]))
  {
    var all, score, r := Upto(|scores|), ScoreAt(scores), RankedIndexes(scores);
    RankedFacts(all, score);
    assert r[a] in r && r[b] in r;
    if score(r[a]) == score(r[b]) {
      ByScoreIsPreorder(score);
      var i, j := TiesKeepOrder(all, ByScore(score), a, b);
    }
  }

  /** Cutting the ranking after `k` leaves exactly the best `k`. */
  lemma TopKIsExact(scores: seq<real>, k: nat)
    ensures IsTopK(scores, k, BestIndexes(scores, k))
  {
    var r := RankedIndexes(scores);
    var all := Upto(|scores|);
    var n := Min(k, |scores|);
    var best := r[..n];
    RankedFacts(all, ScoreAt(scores));
    assert Distinct(r);
    forall i | i in best ensures i < |scores| {
      assert i in r;
    }
    forall a, b | 0 <= a < b < |best| && best[b] < |scores| && best[a] < |scores|
      ensures scores[best[a]] > scores[best[b]] || (scores[best[a]] == scores[best[b]] && best[a] < best[b])
    {
      RankedIndexesOrder(scores, a, b);
    }
    forall i, a | 0 <= i < |scores| && i !in best && 0 <= a < |best| && best[a] < |scores|
      ensures scores[best[a]] > scores[i] || (scores[best[a]] == scores[i] && best[a] < i)
    {
      assert all[i] == i && i in all;
      var b :| 0 <= b < |r| && r[b] == i;
      assert forall c :: 0 <= c < n ==> r[c] == best[c] && best[c] in best;
      RankedIndexesOrder(scores, a, b);
    }
  }

  function BestIndexes(scores: seq<real>, topK: nat): seq<nat> {
    RankedIndexes(scores)[..Min(topK, |scores|)]
  }

  function SearchMemory(sqrt: real -> real, x: Index, query: Vector, topK: int): Outcome<seq<Hit>>
    requires x.Valid()
  {
    if topK <= 0 || x.vectors == [] then Ok([])
    else if |query| != x.dimension then ValueError("Dimension mismatch")
    else
      var scores := CosineScores(sqrt, query, x.vectors);
      Ok(Hits(x, scores, BestIndexes(scores, topK)))
  }

  function Hits(x: Index, scores: seq<real>, best: seq<nat>): (r: seq<Hit>)
    ensures |r| == |best|
  {
    Map(best, (i: nat) => if i < |scores| && i < |x.metadata| then Hit(scores[i], x.metadata[i]) else Hit(0.0, map[]))
  }

  lemma HitsBounded(sqrt: real -> real, x: Index, query: Vector, best: seq<nat>, j: nat)
    requires x.Valid() && IsRoot(sqrt) && |query| == x.dimension
    requires j < |best| && best[j] < |x.vectors|
    ensures var hit := Hits(x, CosineScores(sqrt, query, x.vectors), best)[j];
      && hit == Hit(CosineSimilarity(sqrt, query, x.vectors[best[j]]), x.metadata[best[j]])
      && -1.0 <= hit.score <= 1.0
  {
    CosineBounded(sqrt, query, x.vectors[best[j]]);
  }

  lemma SearchIs(sqrt: real -> real, x: Index, query: Vector, topK: int)
    requires x.Valid() && topK > 0 && |query| == x.dimension
    ensures SearchMemory(sqrt, x, query, topK)
         == Ok(Hits(x, CosineScores(sqrt, query, x.vectors), BestIndexes(CosineScores(sqrt, query, x.vectors), topK)))
  {
  }

  /** A search returns the top `k` entries with their own metadata, every score within [-1, 1]. */
  lemma SearchIsTopK(sqrt: real -> real, x: Index, query: Vector, topK: int)
    requires x.Valid() && IsRoot(sqrt) && topK > 0 && |query| == x.dimension
    ensures var scores := CosineScores(sqrt, query, x.vectors);
      var best, r := BestIndexes(scores, topK), SearchMemory(sqrt, x, query, topK);
      && IsTopK(scores, topK, best)
      && r.Ok? && |r.value| == |best|
      && forall j :: 0 <= j < |best| ==>
           && best[j] < |x.vectors|
           && r.value[j] == Hit(CosineSimilarity(sqrt, query, x.vectors[best[j]]), x.metadata[best[j]])
           && -1.0 <= r.value[j].score <= 1.0
  {
    var scores := CosineScores(sqrt, query, x.vectors);
    var best, r := BestIndexes(scores, topK), SearchMemory(sqrt, x, query, topK);
    TopKIsExact(scores, topK);
    SearchIs(sqrt, x, query, topK);
    forall j | 0 <= j < |best|
      ensures best[j] < |x.vectors|
      ensures r.value[j] == Hit(CosineSimilarity(sqrt, query, x.vectors[best[j]]), x.metadata[best[j]])
      ensures -1.0 <= r.value[j].score <= 1.0
    {
      assert best[j] in best;
      HitsBounded(sqrt, x, query, best, j);
    }
  }

  /** Asking for a stored vector finds a perfect match first. */
  lemma StoredVectorScoresOne(sqrt: real -> real, x: Index, i: nat, topK: int)
    requires x.Valid() && IsRoot(sqrt) && topK > 0
    requires i < |x.vectors| && NonZero(x.vectors[i])
    ensures var r := SearchMemory(sqrt, x, x.vectors[i], topK);
      r.Ok? && r.value != [] && r.value[0].score == 1.0
  {
    var query := x.vectors[i];
    var scores := CosineScores(sqrt, query, x.vectors);
    var best := BestIndexes(scores, topK);
    SearchIsTopK(sqrt, x, query, topK);
    CosineSelf(sqrt, query);
    assert scores[i] == 1.0;
    var hits := SearchMemory(sqrt, x, query, topK).value;
    assert scores[best[0]] <= 1.0;
    if i in best {
      var a :| 0 <= a < |best| && best[a] == i;
      if a > 0 {
        assert scores[best[0]] >= scores[best[a]];
      }
    }
  }

  /** The place of an entry among the hits, when all entries are asked for. */
  lemma RankOf(scores: seq<real>, k: nat, i: nat) returns (a: nat)
    requires |scores| <= k && i < |scores|
    ensures a < |BestIndexes(scores, k)| && BestIndexes(scores, k)[a] == i
  {
    var all, r := Upto(|scores|), RankedIndexes(scores);
    RankedFacts(all, ScoreAt(scores));
    assert all[i] == i && i in all;
    a :| 0 <= a < |r| && r[a] == i;
  }

  /** A search for everything finds an entry that points the same way as the query with score 1, and
      one that points the opposite way with score -1. */
  lemma MultiplesAreFound(sqrt: real -> real, x: Index, query: Vector, k: real, i: nat, topK: int) returns (a: nat)
    requires x.Valid() && IsRoot(sqrt) && |x.vectors| <= topK
    requires i < |x.vectors| && |query| == x.dimension && NonZero(query)
    requires k != 0.0 && x.vectors[i] == Times(k, query)
    ensures var r := SearchMemory(sqrt, x, query, topK);
      r.Ok? && a < |r.value| && r.value[a] == Hit(if k > 0.0 then 1.0 else -1.0, x.metadata[i])
  {
    SearchIsTopK(sqrt, x, query, topK);
    a := RankOf(CosineScores(sqrt, query, x.vectors), topK, i);
    MultiplesScoreOne(sqrt, query, k);
  }

  /** An entry that points the same way as the query is not preceded by one that does not: the first
      hit has score 1. */
  lemma SameDirectionComesFirst(sqrt: real -> real, x: Index, query: Vector, k: real, i: nat, topK: int)
    requires x.Valid() && IsRoot(sqrt) && topK > 0
    requires i < |x.vectors| && |query| == x.dimension && NonZero(query)
    requires k > 0.0 && x.vectors[i] == Times(k, query)
    ensures var r := SearchMemory(sqrt, x, query, topK);
      r.Ok? && r.value != [] && r.value[0].score == 1.0
  {
    var scores := CosineScores(sqrt, query, x.vectors);
    var best := BestIndexes(scores, topK);
    SearchIsTopK(sqrt, x, query, topK);
    MultiplesScoreOne(sqrt, query, k);
    assert scores[i] == 1.0;
    if i in best {
      var a :| 0 <= a < |best| && best[a] == i;
      if a > 0 {
        assert scores[best[0]] >= scores[best[a]];
      }
    }
  }

  /** When a search fails. */
  lemma SearchFails(sqrt: real -> real, x: Index, query: Vector, topK: int)
    requires x.Valid()
    ensures SearchMemory(sqrt, x, query, topK).ValueError? <==> topK > 0 && x.vectors != [] && |query| != |x.vectors[0]|
    ensures topK <= 0 || x.vectors == [] ==> SearchMemory(sqrt, x, query, topK) == Ok([])
  {
  }

  /** An addition is accepted exactly if it leaves the lists parallel and of one dimension, and brings
      as many texts as vectors if it brings any. */
  lemma AcceptedExactly(x: Index, vectors: seq<Vector>, metadata: Option<seq<Metadata>>, texts: Option<seq<string>>)
    requires x.Valid() && vectors != []
    ensures Acceptable(x, vectors, metadata, texts)
       <==> Added(x, vectors, metadata).Valid() && (texts.Some? ==> |texts.value| == |vectors|)
  {
    var r := Added(x, vectors, metadata);
    if r.Valid() {
      forall i | 0 <= i < |vectors| ensures |vectors[i]| == |vectors[0]| {
        assert r.vectors[|x.vectors| + i] == vectors[i];
      }
      if x.dimension != 0 {
        assert r.vectors[0] == x.vectors[0];
      }
    }
  }

  /** What is added goes behind what is there, each vector with its own metadata. */
  lemma AddedBehind(x: Index, vectors: seq<Vector>, metadata: Option<seq<Metadata>>, i: nat)
    requires x.Valid() && vectors != [] && (metadata.Some? ==> |metadata.value| == |vectors|)
    requires i < |x.vectors| + |vectors|
    ensures var r, j := Added(x, vectors, metadata), i - |x.vectors|;
      && |r.vectors| == |r.metadata| == |x.vectors| + |vectors|
      && (j < 0 ==> r.vectors[i] == x.vectors[i] && r.metadata[i] == x.metadata[i])
      && (j >= 0 ==> r.vectors[i] == vectors[j]
                     && r.metadata[i] == if metadata.Some? then metadata.value[j] else map[])
  {
  }

  class Retriever {
    const sqrt: real -> real
    var vectors: seq<Vector>
    var metadata: seq<Metadata>
    var dimension: nat

    function View(): Index
      reads this
    {
      Index(vectors, metadata, dimension)
    }

    constructor (sqrt: real -> real)
      ensures View() == EMPTY && View().Valid()
    {
      this.sqrt := sqrt;
      vectors, metadata, dimension := [], [], 0;
    }

    /** The checks that come before anything is stored. */
    method Validate(newVectors: seq<Vector>, newMetadata: Option<seq<Metadata>>, texts: Option<seq<string>>)
      returns (r: Outcome<()>)
      requires newVectors != []
      ensures r.Ok? <==> Acceptable(View(), newVectors, newMetadata, texts)
    {
      var dim := |newVectors[0]|;
      if dim == 0 {
        return ValueError("Vectors must have at least one dimension");
      }
      for i := 0 to |newVectors|
        invariant forall j :: 0 <= j < i ==> |newVectors[j]| == dim
      {
        if |newVectors[i]| != dim {
          return ValueError("All vectors must have the same dimensionality");
        }
      }
      if newMetadata.Some? && |newMetadata.value| != |newVectors| {
        return ValueError("metadata length must match vectors length");
      }
      if texts.Some? && |texts.value| != |newVectors| {
        return ValueError("texts length must match vectors length");
      }
      if dimension != 0 && dim != dimension {
        return ValueError("Dimension mismatch");
      }
      return Ok(());
    }

    /** An addition is all or nothing. */
    method Add(newVectors: seq<Vector>, newMetadata: Option<seq<Metadata>>, texts: Option<seq<string>>)
      returns (r: Outcome<()>)
      requires View().Valid()
      modifies this
      ensures View().Valid()
      ensures r.Ok? <==> Acceptable(old(View()), newVectors, newMetadata, texts)
      ensures r.Ok? && newVectors != [] ==> View() == Added(old(View()), newVectors, newMetadata)
      ensures r.ValueError? || newVectors == [] ==> View() == old(View())
    {
      if newVectors == [] {
        return Ok(());
      }
      r := Validate(newVectors, newMetadata, texts);
      if r.ValueError? {
        return;
      }
      var meta := if newMetadata.Some? then newMetadata.value else seq(|newVectors|, _ => map[]);
      if dimension == 0 {
        dimension := |newVectors[0]|;
      }
      AddToMemory(newVectors, meta);
      AddedValid(old(View()), newVectors, newMetadata, texts);
    }

    method AddToMemory(newVectors: seq<Vector>, newMetadata: seq<Metadata>)
      modifies this`vectors, this`metadata
      ensures vectors == old(vectors) + newVectors && metadata == old(metadata) + newMetadata
    {
      vectors := vectors + newVectors;
      metadata := metadata + newMetadata;
    }

    method Search(query: Vector, topK: int) returns (r: Outcome<seq<Hit>>)
      requires View().Valid()
      ensures r == SearchMemory(sqrt, View(), query, topK)
    {
      if topK <= 0 {
        return Ok([]);
      }
      if vectors == [] {
        return Ok([]);
      }
      if |query| != dimension {
        return ValueError("Dimension mismatch");
      }
      var scores := CosineScores(sqrt, query, vectors);
      return Ok(Hits(View(), scores, BestIndexes(scores, topK)));
    }

    method Clear()
      modifies this
      ensures View() == EMPTY && View().Valid()
    {
      vectors, metadata, dimension := [], [], 0;
    }
  }
}
