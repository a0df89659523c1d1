/** Citation-pooled score fusion. A query without citations is answered by
    BM25 alone. A query with citations gets a candidate pool; when the
    pool-scoped BM25 breaker fires the pool is ranked by BM25, otherwise both
    pool scores are min-max normalised and mixed with weights `wb` and `ws`
    (0.4 and 0.6 by default). */
module CitationScoreFusion {
  import opened Ranking
  import opened Tokenizer
  import opened CitationParser
  import opened CitationIndex
  import opened ScoreFusion
  import opened CitationPool

  /** The constructor defaults `cb_threshold`, `w_bm25` and `w_sem`. */
  const DefaultThreshold: real := 1.3
  const DefaultBmWeight: real := 0.4
  const DefaultSemWeight: real := 0.6

  /** The fused scores of the candidates: both pools normalised, then mixed. */
  function PoolFusion(bmPool: Pool, semPool: Pool, wb: real, ws: real, cands: set<Id>): (m: map<Id, real>)
    requires Valid(bmPool) && Valid(semPool)
    ensures m.Keys == cands
  {
    Fused(Normalize(bmPool).score, Normalize(semPool).score, wb, ws, cands)
  }

  /** With non-negative weights summing to at most one (the defaults sum to
      one) every fused score lies in [0, 1], and the result does not depend on
      the order in which the pool dicts were filled. */
  lemma PoolFusionInUnit(bmPool: Pool, semPool: Pool, wb: real, ws: real, cands: set<Id>)
    requires Valid(bmPool) && Valid(semPool) && wb >= 0.0 && ws >= 0.0 && wb + ws <= 1.0
    ensures InUnit(PoolFusion(bmPool, semPool, wb, ws, cands))
  {
    NormalizeInUnit(bmPool);
    NormalizeInUnit(semPool);
    FusedInUnit(Normalize(bmPool).score, Normalize(semPool).score, wb, ws, cands);
  }

  /** Two fillings of the same score dicts fuse to the same scores. */
  lemma PoolFusionOrderFree(b: Pool, b': Pool, s: Pool, s': Pool, wb: real, ws: real, cands: set<Id>)
    requires Valid(b) && Valid(b') && Valid(s) && Valid(s') && b.score == b'.score && s.score == s'.score
    ensures PoolFusion(b, s, wb, ws, cands) == PoolFusion(b', s', wb, ws, cands)
  {
    NormalizeOrderFree(b, b');
    NormalizeOrderFree(s, s');
  }

  /** The defaults keep every fused score in [0, 1]. */
  lemma DefaultWeightsInUnit(bmPool: Pool, semPool: Pool, cands: set<Id>)
    requires Valid(bmPool) && Valid(semPool)
    ensures InUnit(PoolFusion(bmPool, semPool, DefaultBmWeight, DefaultSemWeight, cands))
  {
    PoolFusionInUnit(bmPool, semPool, DefaultBmWeight, DefaultSemWeight, cands);
  }

  /** Under the default threshold the breaker fires exactly when the BM25
      top score is at least 1.3 times a positive second score. */
  lemma DefaultBreaker(sorted: seq<real>)
    ensures Fires(BreakerRatio(sorted), DefaultThreshold) <==>
      |sorted| <= 1 || sorted[1] <= 0.0 || sorted[0] >= 1.3 * sorted[1]
  {
    FiresAtThreshold(sorted, DefaultThreshold);
  }

  /** Steps 2 and 3: the BM25 pool, its sorted scores and the breaker.
      `bmOrder` is the full BM25 ranking of the pool; `done` says the
      breaker fired and `r` is the answer. */
  method BreakerStage(cands: set<Id>, ids: seq<Id>, bm25: seq<real>, threshold: real, topK: nat)
    returns (r: seq<Id>, bmPool: Pool, bmOrder: seq<Id>, done: bool)
    requires Distinct(ids) && |ids| == |bm25|
    ensures Valid(bmPool) && bmPool.score == CandScores(cands, ids, bm25)
    ensures IsTopK(bmOrder, cands, bmPool.score, |cands|)
    ensures done <==> Fires(BreakerRatio(Along(bmOrder, bmPool.score)), threshold)
    ensures done ==> IsTopK(r, cands, bmPool.score, topK)
  {
    bmPool := FillCandPool(cands, ids, bm25);
    bmOrder := RankTop(cands, bmPool.score, |cands|);
    var sortedScores := Along(bmOrder, bmPool.score);
    done := Fires(BreakerRatio(sortedScores), threshold);
    r := [];
    if done {
      r := RankTop(cands, bmPool.score, topK);
    }
  }

  /** Steps 4 to 7: the semantic pool, normalisation, the weighted mix over
      the candidates and its top `k`. */
  method FuseStage(cands: set<Id>, bmPool: Pool, semIds: seq<Id>, cos: seq<real>, wb: real, ws: real, topK: nat)
    returns (r: seq<Id>, semPool: Pool)
    requires Valid(bmPool) && Distinct(semIds) && |semIds| == |cos|
    ensures Valid(semPool) && semPool.score == CandScores(cands, semIds, cos)
    ensures IsTopK(r, cands, PoolFusion(bmPool, semPool, wb, ws, cands), topK)
  {
    semPool := FillCandPool(cands, semIds, cos);
    var normBm := Normalize(bmPool);
    var normSem := Normalize(semPool);
    var combined := Combine(normBm.score, normSem.score, wb, ws, cands);
    r := RankTop(cands, combined, topK);
  }

  /** `CitationScoreFusion.search`. `cos[i]` is the similarity of the query
      to `semIds[i]`, which the source obtains from the embedding service
      only when `embedded` is set. `top100`, `bmOrder`, `bmPool` and
      `semPool` are the intermediate results the sorts and set iterations
      chose. */
  method Search(query: string, ids: seq<Id>, bm25: seq<real>, semIds: seq<Id>, cos: seq<real>, ix: CiteIndex,
                threshold: real, wb: real, ws: real, topK: nat)
    returns (r: seq<Id>, top100: seq<Id>, cands: set<Id>, bmPool: Pool, bmOrder: seq<Id>, semPool: Pool, embedded: bool)
    requires Distinct(ids) && |ids| == |bm25| && Distinct(semIds) && |semIds| == |cos|
    ensures embedded ==> Tokenize(query) != [] && Cites(query) && cands != {}
    ensures Tokenize(query) == [] ==> r == []
    ensures Tokenize(query) != [] && !Cites(query) ==> IsPositiveTopK(r, Elems(ids), ScoreMap(ids, bm25), topK)
    ensures Tokenize(query) != [] && Cites(query) ==>
      && IsPositiveTopK(top100, Elems(ids), ScoreMap(ids, bm25), Bm25PoolSize)
      && cands == GovPool(ix, GovCodeOf(query)) + RegPool(ix, RegulationsOf(query)) + Elems(top100)
    ensures Tokenize(query) != [] && Cites(query) && cands == {} ==> r == []
    ensures Tokenize(query) != [] && Cites(query) && cands != {} ==>
      && Valid(bmPool) && bmPool.score == CandScores(cands, ids, bm25)
      && IsTopK(bmOrder, cands, bmPool.score, |cands|)
      && (embedded <==> !Fires(BreakerRatio(Along(bmOrder, bmPool.score)), threshold))
    ensures Tokenize(query) != [] && Cites(query) && cands != {} && !embedded ==> IsTopK(r, cands, bmPool.score, topK)
    ensures embedded ==> Valid(semPool) && semPool.score == CandScores(cands, semIds, cos)
    ensures embedded ==> IsTopK(r, cands, PoolFusion(bmPool, semPool, wb, ws, cands), topK)
  {
    var done;
    r, top100, cands, done := PoolStage(query, ids, bm25, ix, topK);
    bmPool, bmOrder, semPool, embedded := EmptyPool, [], EmptyPool, false;
    if done {
      return;
    }
    var fired;
    r, bmPool, bmOrder, fired := BreakerStage(cands, ids, bm25, threshold, topK);
    if !fired {
      embedded := true;
      r, semPool := FuseStage(cands, bmPool, semIds, cos, wb, ws, topK);
    }
  }
}
