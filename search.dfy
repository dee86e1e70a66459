/** Similarity search over the vector store and the formatting of its results into
    the context passed to the language model. */
module Search {
  import opened Common
  import opened Text
  import opened Embed
  import opened Ingest

  /** Message of the error thrown when two vectors of different lengths are compared. */
  const MismatchMessage: string := "Vectors must have the same length"

  /** What the context builder returns when there are no results. */
  const NoContextMessage: string := "No relevant context found in the documents."

  /** A search result as handed to callers. */
  datatype SearchResult = SearchResult(text: string, source: string, chunkIndex: nat, similarity: real)

  /** A stored chunk with its score against the query and its store position. */
  datatype Scored = Scored(chunk: Chunk, similarity: real, index: nat)

  // ---------------------------------------------------------------- cosine similarity

  /** The sum of a[j] * b[j] over all positions j. */
  function Dot(a: seq<real>, b: seq<real>): real
    requires |a| == |b|
    decreases |a|
  {
    if |a| == 0 then 0.0
    else Dot(a[..|a| - 1], b[..|b| - 1]) + a[|a| - 1] * b[|b| - 1]
  }

  /** The final step of the score, `dotProduct / (normA * normB)`. */
  function Quotient(dot: real, normA: real, normB: real): real
    requires normA != 0.0 && normB != 0.0
  {
    dot / (normA * normB)
  }

  /** Cosine similarity with `Math.sqrt` as the parameter sqrt: the dot product over
      the product of the two norms, 0 when either norm is 0, and an error when the
      lengths differ. */
  function Cosine(sqrt: real -> real, a: seq<real>, b: seq<real>): Result<real>
  {
    if |a| != |b| then Err(Error(MismatchMessage))
    else
      var normA := sqrt(Dot(a, a));
      var normB := sqrt(Dot(b, b));
      if normA == 0.0 || normB == 0.0 then Ok(0.0)
      else Ok(Quotient(Dot(a, b), normA, normB))
  }

  /** `cosineSimilarity`: accumulates the dot product and both squared norms in one
      pass, then takes square roots and divides. */
  method CosineSimilarity(sqrt: real -> real, vecA: seq<real>, vecB: seq<real>) returns (r: Result<real>)
    ensures r == Cosine(sqrt, vecA, vecB)
  {
    if |vecA| != |vecB| {
      return Err(Error(MismatchMessage));
    }
    var dotProduct, normA, normB := 0.0, 0.0, 0.0;
    for i := 0 to |vecA|
      invariant dotProduct == Dot(vecA[..i], vecB[..i])
      invariant normA == Dot(vecA[..i], vecA[..i])
      invariant normB == Dot(vecB[..i], vecB[..i])
    {
      assert vecA[..i + 1][..i] == vecA[..i] && vecB[..i + 1][..i] == vecB[..i];
      dotProduct := dotProduct + vecA[i] * vecB[i];
      normA := normA + vecA[i] * vecA[i];
      normB := normB + vecB[i] * vecB[i];
    }
    assert vecA[..|vecA|] == vecA && vecB[..|vecB|] == vecB;
    assert dotProduct == Dot(vecA, vecB) && normA == Dot(vecA, vecA) && normB == Dot(vecB, vecB);
    normA := sqrt(normA);
    normB := sqrt(normB);
    if normA == 0.0 || normB == 0.0 {
      return Ok(0.0);
    }
    r := Ok(Quotient(dotProduct, normA, normB));
  }

  lemma {:induction false} DotSymmetric(a: seq<real>, b: seq<real>)
    requires |a| == |b|
    ensures Dot(a, b) == Dot(b, a)
    decreases |a|
  {
    if |a| > 0 {
      DotSymmetric(a[..|a| - 1], b[..|b| - 1]);
    }
  }

  /** A squared norm is never negative, so the square root is always taken of a
      non-negative number. */
  lemma {:induction false} SquaredNormNonNegative(a: seq<real>)
    ensures Dot(a, a) >= 0.0
    decreases |a|
  {
    if |a| > 0 {
      var x := a[|a| - 1];
      SquaredNormNonNegative(a[..|a| - 1]);
      assert x * x >= 0.0;
    }
  }

  /** A zero vector has dot product 0 with every vector of its length. */
  lemma {:induction false} DotZero(a: seq<real>, b: seq<real>)
    requires |a| == |b|
    requires forall i :: 0 <= i < |a| ==> a[i] == 0.0
    ensures Dot(a, b) == 0.0
    decreases |a|
  {
    if |a| > 0 {
      DotZero(a[..|a| - 1], b[..|b| - 1]);
    }
  }

  /** The score does not depend on the order of its arguments. */
  lemma CosineSymmetric(sqrt: real -> real, a: seq<real>, b: seq<real>)
    ensures Cosine(sqrt, a, b) == Cosine(sqrt, b, a)
  {
    if |a| == |b| {
      DotSymmetric(a, b);
      var normA, normB := sqrt(Dot(a, a)), sqrt(Dot(b, b));
      if normA != 0.0 && normB != 0.0 {
        assert normA * normB == normB * normA;
        assert Quotient(Dot(a, b), normA, normB) == Quotient(Dot(b, a), normB, normA);
      }
    }
  }

  /** Comparing a zero vector with any vector of its length scores 0, given that the
      square root of 0 is 0. */
  lemma CosineZeroVector(sqrt: real -> real, a: seq<real>, b: seq<real>)
    requires sqrt(0.0) == 0.0 && |a| == |b|
    requires (forall i :: 0 <= i < |a| ==> a[i] == 0.0) || (forall i :: 0 <= i < |b| ==> b[i] == 0.0)
    ensures Cosine(sqrt, a, b) == Ok(0.0)
  {
    if forall i :: 0 <= i < |a| ==> a[i] == 0.0 {
      DotZero(a, a);
    } else {
      DotZero(b, b);
    }
  }

  /** Vectors of different lengths are never compared: the score is the mismatch
      error, and only then is it an error. */
  lemma CosineFails(sqrt: real -> real, a: seq<real>, b: seq<real>)
    ensures Cosine(sqrt, a, b).Err? <==> |a| != |b|
    ensures Cosine(sqrt, a, b).Err? ==> Cosine(sqrt, a, b).error == Error(MismatchMessage)
  {
  }

  // ---------------------------------------------------------------- ranking

  /** x ranks before y: a higher score, or an equal score and an earlier store position. */
  predicate Before(x: Scored, y: Scored) {
    x.similarity > y.similarity || (x.similarity == y.similarity && x.index < y.index)
  }

  predicate Ranked(s: seq<Scored>) {
    forall p, q :: 0 <= p < q < |s| ==> Before(s[p], s[q])
  }

  /** Positions 0..i are ranked, leaving out the element at j. */
  ghost predicate RankedExcept(s: seq<Scored>, i: nat, j: nat)
    requires j <= i < |s|
  {
    forall p, q :: 0 <= p < q <= i && p != j && q != j ==> Before(s[p], s[q])
  }

  /** The element at j, which is being moved left, scores strictly higher than
      everything it has passed, and comes later in the store than everything in 0..i. */
  ghost predicate Moving(s: seq<Scored>, i: nat, j: nat)
    requires j <= i < |s|
  {
    && (forall q :: j < q <= i ==> s[j].similarity > s[q].similarity)
    && (forall p :: 0 <= p <= i && p != j ==> s[p].index < s[j].index)
  }

  /** Every element in 0..i comes earlier in the store than every element after i. */
  ghost predicate IndexSplit(s: seq<Scored>, i: nat)
    requires i < |s|
  {
    forall p, k :: 0 <= p <= i < k < |s| ==> s[p].index < s[k].index
  }

  /** Swapping the moving element with a lower-scoring left neighbour keeps it moving
      and the rest ranked. */
  lemma SwapStep(s: seq<Scored>, i: nat, j: nat)
    requires 0 < j <= i < |s|
    requires RankedExcept(s, i, j) && Moving(s, i, j)
    requires s[j - 1].similarity < s[j].similarity
    ensures RankedExcept(s[j - 1 := s[j]][j := s[j - 1]], i, j - 1)
    ensures Moving(s[j - 1 := s[j]][j := s[j - 1]], i, j - 1)
  {
  }

  /** A swap inside 0..i keeps the elements, what follows i, and the split of store
      positions at i. */
  lemma SwapFrame(s: seq<Scored>, i: nat, j: nat)
    requires 0 < j <= i < |s|
    requires IndexSplit(s, i)
    ensures var t := s[j - 1 := s[j]][j := s[j - 1]];
      IndexSplit(t, i) && t[i + 1..] == s[i + 1..] && multiset(t) == multiset(s)
  {
    var t := s[j - 1 := s[j]][j := s[j - 1]];
    assert t == s[..j - 1] + [s[j], s[j - 1]] + s[j + 1..];
    assert s == s[..j - 1] + [s[j - 1], s[j]] + s[j + 1..];
  }

  /** Once the moving element has stopped, the whole of 0..i is ranked. */
  lemma Settle(s: seq<Scored>, i: nat, j: nat)
    requires j <= i < |s|
    requires RankedExcept(s, i, j) && Moving(s, i, j)
    requires j == 0 || s[j - 1].similarity >= s[j].similarity
    ensures forall p, q :: 0 <= p < q <= i ==> Before(s[p], s[q])
  {
    forall p | 0 <= p < j
      ensures Before(s[p], s[j])
    {
      if p < j - 1 {
        assert Before(s[p], s[j - 1]);
      }
    }
  }

  /** One step of the insertion sort: a[i] moves left past every element that
      scores strictly lower, so that a[..i + 1] is ranked. */
  method InsertAt(a: array<Scored>, i: nat)
    requires i < a.Length
    requires forall p, q :: 0 <= p < q < i ==> Before(a[p], a[q])
    requires forall p, k :: 0 <= p < i <= k < a.Length ==> a[p].index < a[k].index
    requires forall k :: i < k < a.Length ==> a[i].index < a[k].index
    modifies a
    ensures forall p, q :: 0 <= p < q <= i ==> Before(a[p], a[q])
    ensures multiset(a[..]) == multiset(old(a[..]))
    ensures a[i + 1..] == old(a[i + 1..])
    ensures forall p, k :: 0 <= p <= i < k < a.Length ==> a[p].index < a[k].index
  {
    var j := i;
    assert IndexSplit(a[..], i);
    while j > 0 && a[j - 1].similarity < a[j].similarity
      invariant 0 <= j <= i
      invariant multiset(a[..]) == multiset(old(a[..]))
      invariant a[i + 1..] == old(a[i + 1..])
      invariant RankedExcept(a[..], i, j) && Moving(a[..], i, j) && IndexSplit(a[..], i)
      decreases j
    {
      ghost var s := a[..];
      SwapStep(s, i, j);
      SwapFrame(s, i, j);
      a[j - 1], a[j] := a[j], a[j - 1];
      assert a[..] == s[j - 1 := s[j]][j := s[j - 1]];
      j := j - 1;
    }
    Settle(a[..], i, j);
    assert IndexSplit(a[..], i);
  }

  /** `similarities.sort((a, b) => b.similarity - a.similarity)`: a stable sort by
      descending score, here an insertion sort by adjacent swaps. Stability is stated
      through the store positions, which the input holds in increasing order. */
  method SortBySimilarity(a: array<Scored>)
    requires forall p, q :: 0 <= p < q < a.Length ==> a[p].index < a[q].index
    modifies a
    ensures Ranked(a[..])
    ensures multiset(a[..]) == multiset(old(a[..]))
  {
    for i := 0 to a.Length
      invariant forall p, q :: 0 <= p < q < i ==> Before(a[p], a[q])
      invariant multiset(a[..]) == multiset(old(a[..]))
      invariant a[i..] == old(a[i..])
      invariant forall p, k :: 0 <= p < i <= k < a.Length ==> a[p].index < a[k].index
    {
      assert forall k :: i < k < a.Length ==> a[k] == a[i..][k - i];
      InsertAt(a, i);
      assert a[i + 1..] == old(a[i + 1..]);
    }
  }

  // ---------------------------------------------------------------- search

  /** The scores of the stored vectors against the query, in store order, each with
      its chunk and its store position; a mismatched stored vector stops the scoring
      with the mismatch error. */
  function ScoreAll(sqrt: real -> real, query: Embedding, chunks: seq<Chunk>, embeddings: seq<Embedding>)
    : (r: Result<seq<Scored>>)
    requires |chunks| == |embeddings|
    ensures r.Err? ==> r.error == Error(MismatchMessage)
    ensures r.Ok? ==> |r.value| == |embeddings| && forall k :: 0 <= k < |r.value| ==> r.value[k].index == k
    decreases |embeddings|
  {
    if |embeddings| == 0 then Ok([])
    else
      var n := |embeddings| - 1;
      match ScoreAll(sqrt, query, chunks[..n], embeddings[..n])
      case Err(e) => Err(e)
      case Ok(init) =>
        match Cosine(sqrt, query, embeddings[n])
        case Err(e) => Err(e)
        case Ok(v) => Ok(init + [Scored(chunks[n], v, n)])
  }

  /** Scoring succeeds exactly when every stored vector has the query's length; it
      then holds, at each position k, chunk k with its cosine score and position k. */
  lemma {:induction false} ScoreAllSpec(sqrt: real -> real, query: Embedding, chunks: seq<Chunk>, embeddings: seq<Embedding>)
    requires |chunks| == |embeddings|
    ensures ScoreAll(sqrt, query, chunks, embeddings).Ok? <==>
      forall k :: 0 <= k < |embeddings| ==> |embeddings[k]| == |query|
    ensures ScoreAll(sqrt, query, chunks, embeddings).Err? ==>
      ScoreAll(sqrt, query, chunks, embeddings).error == Error(MismatchMessage)
    ensures ScoreAll(sqrt, query, chunks, embeddings).Ok? ==>
      var scored := ScoreAll(sqrt, query, chunks, embeddings).value;
      && |scored| == |embeddings|
      && forall k :: 0 <= k < |scored| ==>
        scored[k].chunk == chunks[k] && scored[k].index == k &&
        Cosine(sqrt, query, embeddings[k]) == Ok(scored[k].similarity)
    decreases |embeddings|
  {
    if |embeddings| > 0 {
      var n := |embeddings| - 1;
      ScoreAllSpec(sqrt, query, chunks[..n], embeddings[..n]);
      assert forall k :: 0 <= k < n ==> embeddings[..n][k] == embeddings[k] && chunks[..n][k] == chunks[k];
      CosineFails(sqrt, query, embeddings[n]);
    }
  }

  /** How many results `slice(0, topK)` keeps out of n: a negative topK counts back
      from the end. */
  function TopCount(topK: int, n: nat): (m: nat)
    ensures m <= n
    ensures topK >= 0 ==> m == Min(topK, n)
  {
    if topK < 0 then Max(n + topK, 0) else Min(topK, n)
  }

  /** The fields of a scored chunk handed back to the caller. */
  function Project(x: Scored): SearchResult
  {
    SearchResult(x.chunk.text, x.chunk.source, x.chunk.chunkIndex, x.similarity)
  }

  function Results(s: seq<Scored>): (rs: seq<SearchResult>)
    ensures |rs| == |s| && forall p :: 0 <= p < |s| ==> rs[p] == Project(s[p])
  {
    seq(|s|, p requires 0 <= p < |s| => Project(s[p]))
  }

  /** `searchSimilarChunks`: nothing to search gives no results and no call to the
      embedding service; otherwise the query is embedded once, every stored vector is
      scored against it, and the topK best scored chunks are returned, ranked. The
      ranking is returned as `ranked`. */
  method SearchSimilarChunks(sqrt: real -> real, service: Service, store: VectorStore, query: string, topK: int)
    returns (r: Result<seq<SearchResult>>, calls: seq<string>, ghost ranked: seq<Scored>)
    requires store.Valid()
    ensures store.chunks == [] ==> r == Ok([]) && calls == []
    ensures store.chunks != [] ==> calls == [query]
    ensures store.chunks != [] && service(query).Err? ==> r == Err(service(query).error)
    ensures store.chunks != [] && service(query).Ok? ==>
      match ScoreAll(sqrt, service(query).value, store.chunks, store.embeddings)
      case Err(e) => r == Err(e)
      case Ok(scored) =>
        && multiset(ranked) == multiset(scored) && Ranked(ranked)
        && r == Ok(Results(ranked[..TopCount(topK, |ranked|)]))
  {
    ranked := [];
    var n := |store.chunks|;
    if n == 0 {
      return Ok([]), [], ranked;
    }
    calls := [query];
    var queryEmbedding := GenerateEmbedding(service, query);
    if queryEmbedding.Err? {
      return Err(queryEmbedding.error), calls, ranked;
    }
    var scoring := ScoreAll(sqrt, queryEmbedding.value, store.chunks, store.embeddings);
    if scoring.Err? {
      return Err(scoring.error), calls, ranked;
    }
    var scored := scoring.value;
    ScoreAllSpec(sqrt, queryEmbedding.value, store.chunks, store.embeddings);
    var similarities := new Scored[|scored|](k requires 0 <= k < |scored| => scored[k]);
    assert similarities[..] == scored;
    SortBySimilarity(similarities);
    ranked := similarities[..];
    var top := similarities[..TopCount(topK, similarities.Length)];
    r := Ok(Results(top));
  }

  /** The ranking is determined by the scored chunks: two ranked orders of the same
      elements are the same order, whatever sort produced them. */
  lemma {:induction false} RankedUnique(s: seq<Scored>, t: seq<Scored>)
    requires Ranked(s) && Ranked(t) && multiset(s) == multiset(t)
    ensures s == t
    decreases |s|
  {
    if |s| > 0 {
      RankedHead(s, t);
      SameTail(s, t);
      RankedUnique(s[1..], t[1..]);
      assert s == [s[0]] + s[1..] && t == [t[0]] + t[1..];
    } else {
      assert |t| == |multiset(t)| == 0;
    }
  }

  /** Two ranked orders of the same elements start with the same element. */
  lemma RankedHead(s: seq<Scored>, t: seq<Scored>)
    requires Ranked(s) && Ranked(t) && multiset(s) == multiset(t) && |s| > 0
    ensures |t| > 0 && t[0] == s[0]
  {
    assert s[0] in multiset(t);
    assert t[0] in multiset(s);
    var q :| 0 <= q < |t| && t[q] == s[0];
    var p :| 0 <= p < |s| && s[p] == t[0];
  }

  lemma SameTail(s: seq<Scored>, t: seq<Scored>)
    requires |s| > 0 && |t| > 0 && s[0] == t[0] && multiset(s) == multiset(t)
    ensures multiset(s[1..]) == multiset(t[1..])
  {
    assert s == [s[0]] + s[1..] && t == [t[0]] + t[1..];
    assert multiset(s[1..]) == multiset(s) - multiset{s[0]};
    assert multiset(t[1..]) == multiset(t) - multiset{s[0]};
  }

  /** Scored chunks that carry their store positions. */
  ghost predicate Positioned(scored: seq<Scored>) {
    forall k :: 0 <= k < |scored| ==> scored[k].index == k
  }

  /** Every ranked element is the scored chunk at its own store position, and no
      position occurs twice. */
  lemma RankedFromStore(scored: seq<Scored>, ranked: seq<Scored>)
    requires Positioned(scored) && multiset(ranked) == multiset(scored) && Ranked(ranked)
    ensures |ranked| == |scored|
    ensures forall p :: 0 <= p < |ranked| ==>
      ranked[p].index < |scored| && ranked[p] == scored[ranked[p].index]
    ensures forall p, q :: 0 <= p < q < |ranked| ==> ranked[p].index != ranked[q].index
  {
    assert |ranked| == |multiset(ranked)| == |scored|;
    forall p | 0 <= p < |ranked|
      ensures ranked[p].index < |scored| && ranked[p] == scored[ranked[p].index]
    {
      assert ranked[p] in multiset(scored);
      var k :| 0 <= k < |scored| && scored[k] == ranked[p];
    }
  }

  /** A stored chunk left out of the first m ranked results ranks after each of them:
      it scores no higher, and on a tie it sits later in the store. */
  lemma TopDominates(scored: seq<Scored>, ranked: seq<Scored>, m: nat, k: nat)
    requires multiset(ranked) == multiset(scored) && Ranked(ranked)
    requires m <= |ranked| && k < |scored| && scored[k] !in ranked[..m]
    ensures forall p :: 0 <= p < m ==> Before(ranked[p], scored[k])
  {
    assert scored[k] in multiset(ranked);
    var q :| 0 <= q < |ranked| && ranked[q] == scored[k];
  }

  /** What a successful search returns, in terms of the store: the p-th result is
      the chunk at a store position i, with the cosine score of the query against
      embedding i; no position is returned twice; and every stored chunk that is not
      returned ranks after every returned one. */
  lemma SearchResultsMeaning(sqrt: real -> real, query: Embedding, chunks: seq<Chunk>, embeddings: seq<Embedding>,
                             ranked: seq<Scored>, m: nat)
    requires |chunks| == |embeddings| && ScoreAll(sqrt, query, chunks, embeddings).Ok?
    requires multiset(ranked) == multiset(ScoreAll(sqrt, query, chunks, embeddings).value) && Ranked(ranked)
    requires m <= |ranked|
    ensures |ScoreAll(sqrt, query, chunks, embeddings).value| == |chunks|
    ensures forall p :: 0 <= p < m ==>
      var i := ranked[p].index;
      && i < |chunks|
      && Results(ranked[..m])[p] == SearchResult(chunks[i].text, chunks[i].source, chunks[i].chunkIndex, ranked[p].similarity)
      && Cosine(sqrt, query, embeddings[i]) == Ok(ranked[p].similarity)
    ensures forall p, q :: 0 <= p < q < m ==> ranked[p].index != ranked[q].index
    ensures forall p, k :: 0 <= p < m && 0 <= k < |chunks| && (forall q :: 0 <= q < m ==> ranked[q].index != k) ==>
      Before(ranked[p], ScoreAll(sqrt, query, chunks, embeddings).value[k])
  {
    var scored := ScoreAll(sqrt, query, chunks, embeddings).value;
    ScoreAllSpec(sqrt, query, chunks, embeddings);
    RankedFromStore(scored, ranked);
    forall p, k | 0 <= p < m && 0 <= k < |chunks| && (forall q :: 0 <= q < m ==> ranked[q].index != k)
      ensures Before(ranked[p], scored[k])
    {
      assert scored[k] !in ranked[..m];
      TopDominates(scored, ranked, m, k);
    }
  }

  // ---------------------------------------------------------------- context

  /** The block for the result at (0-based) position k. */
  function Block(k: nat, result: SearchResult): string
  {
    "[Context " + NatToString(k + 1) + " from " + result.source + "]:\n" + result.text
  }

  function Blocks(results: seq<SearchResult>): (bs: seq<string>)
    ensures |bs| == |results| && forall k :: 0 <= k < |results| ==> bs[k] == Block(k, results[k])
  {
    seq(|results|, k requires 0 <= k < |results| => Block(k, results[k]))
  }

  /** `buildContext`: the fixed message when there are no results, otherwise the
      numbered block of each result, separated by blank lines. */
  function BuildContext(results: seq<SearchResult>): (c: string)
    ensures |results| == 0 ==> c == NoContextMessage
  {
    if |results| == 0 then NoContextMessage else JoinWith(Blocks(results), "\n\n")
  }

  /** One result gives just its block. */
  lemma BuildContextSingle(x: SearchResult)
    ensures BuildContext([x]) == Block(0, x)
  {
    assert Blocks([x]) == [Block(0, x)];
  }

  /** One more result appends a blank line and its block, numbered one past the last. */
  lemma BuildContextSnoc(results: seq<SearchResult>, x: SearchResult)
    requires |results| > 0
    ensures BuildContext(results + [x]) == BuildContext(results) + "\n\n" + Block(|results|, x)
  {
    assert Blocks(results + [x]) == Blocks(results) + [Block(|results|, x)];
    JoinWithSnoc(Blocks(results), Block(|results|, x), "\n\n");
  }

  /** The context begins with the first result's header. */
  lemma BuildContextHeader(results: seq<SearchResult>)
    requires |results| > 0
    ensures var h := "[Context " + NatToString(1) + " from " + results[0].source + "]:\n";
      |h| <= |BuildContext(results)| && BuildContext(results)[..|h|] == h
  {
    var h := "[Context " + NatToString(1) + " from " + results[0].source + "]:\n";
    assert Block(0, results[0]) == h + results[0].text;
    assert Block(0, results[0])[..|h|] == h;
  }

  /** Block k is the header of result k, numbered k + 1, followed by its text; the
      numeral in the header reads back as k + 1, so blocks are numbered from 1 in
      input order. */
  lemma BlockNumbering(results: seq<SearchResult>, k: nat)
    requires k < |results|
    ensures var numeral := NatToString(k + 1);
      && Blocks(results)[k] == "[Context " + numeral + " from " + results[k].source + "]:\n" + results[k].text
      && AllDigits(numeral) && ParseDecimal(numeral) == k + 1
  {
    ParseNatToString(k + 1);
  }
}
