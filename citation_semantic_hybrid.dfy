/** Citation-pooled reciprocal rank fusion. The candidate pool is built as
    for citation score fusion; each arm then ranks every candidate from 1 by
    its own score, and a candidate's fused score is
    `0.4 / (60 + bm25 rank) + 0.6 / (60 + semantic rank)`. */
module CitationSemanticHybrid {
  import opened Ranking
  import opened Tokenizer
  import opened CitationParser
  import opened CitationIndex
  import opened CitationPool
  import HybridRrf

  /** `_W_BM25` and `_W_SEM`; `_K` is the 60 of `HybridRrf.Reciprocal`. */
  const BmWeight: real := 0.4
  const SemWeight: real := 0.6

  /** The fused score of one candidate. */
  function RrfScore(bmRanks: map<Id, nat>, semRanks: map<Id, nat>, x: Id): real
    requires x in bmRanks && x in semRanks
  {
    HybridRrf.Reciprocal(BmWeight, bmRanks[x]) + HybridRrf.Reciprocal(SemWeight, semRanks[x])
  }

  /** `rrf`, over the candidates. */
  function Rrf(bmRanks: map<Id, nat>, semRanks: map<Id, nat>, cands: set<Id>): (m: map<Id, real>)
    requires cands <= bmRanks.Keys && cands <= semRanks.Keys
    ensures m.Keys == cands
  {
    map x | x in cands :: RrfScore(bmRanks, semRanks, x)
  }

  /** Ranking every candidate gives each one a rank in 1..|pool|, and
      distinct candidates distinct ranks. */
  lemma PoolRanks(order: seq<Id>, cands: set<Id>, score: map<Id, real>)
    requires IsTopK(order, cands, score, |cands|)
    ensures HybridRrf.RankMap(order).Keys == cands
    ensures forall x :: x in cands ==> 1 <= HybridRrf.RankMap(order)[x] <= |cands|
    ensures forall x, y :: x in cands && y in cands && x != y ==> HybridRrf.RankMap(order)[x] != HybridRrf.RankMap(order)[y]
  {
    FullRankingCovers(order, cands, score);
    HybridRrf.RankMapAt(order);
    HybridRrf.RankMapKeys(order);
  }

  /** A strictly higher score earns a strictly better rank. */
  lemma RanksFollowScores(order: seq<Id>, cands: set<Id>, score: map<Id, real>, x: Id, y: Id)
    requires IsTopK(order, cands, score, |cands|) && cands <= score.Keys
    requires x in cands && y in cands && score[x] > score[y]
    ensures x in HybridRrf.RankMap(order) && y in HybridRrf.RankMap(order)
    ensures HybridRrf.RankMap(order)[x] < HybridRrf.RankMap(order)[y]
  {
    PoolRanks(order, cands, score);
    HybridRrf.RankMapAt(order);
    var m := HybridRrf.RankMap(order);
    var i, j := m[x] - 1, m[y] - 1;
    assert order[i] == x && order[j] == y;
  }

  /** Every fused score lies in (0, 1/61]. */
  lemma RrfBounds(bmRanks: map<Id, nat>, semRanks: map<Id, nat>, cands: set<Id>)
    requires cands <= bmRanks.Keys && cands <= semRanks.Keys
    requires forall x :: x in cands ==> bmRanks[x] >= 1 && semRanks[x] >= 1
    ensures forall x :: x in cands ==> 0.0 < Rrf(bmRanks, semRanks, cands)[x] <= 1.0 / 61.0
  {
    forall x | x in cands ensures 0.0 < RrfScore(bmRanks, semRanks, x) <= 1.0 / 61.0 {
      HybridRrf.ReciprocalBounds(BmWeight, bmRanks[x]);
      HybridRrf.ReciprocalBounds(SemWeight, semRanks[x]);
    }
  }

  /** A candidate no worse in both ranks and strictly better in one scores
      strictly higher. */
  lemma RrfDominance(bmRanks: map<Id, nat>, semRanks: map<Id, nat>, x: Id, y: Id)
    requires x in bmRanks && x in semRanks && y in bmRanks && y in semRanks
    requires bmRanks[x] <= bmRanks[y] && semRanks[x] <= semRanks[y]
    requires bmRanks[x] < bmRanks[y] || semRanks[x] < semRanks[y]
    ensures RrfScore(bmRanks, semRanks, x) > RrfScore(bmRanks, semRanks, y)
  {
    if bmRanks[x] < bmRanks[y] {
      HybridRrf.ReciprocalMonotone(BmWeight, bmRanks[x], bmRanks[y]);
    }
    if semRanks[x] < semRanks[y] {
      HybridRrf.ReciprocalMonotone(SemWeight, semRanks[x], semRanks[y]);
    }
  }

  /** The fusion loop over `candidate_pool`. */
  method FuseRanks(bmRanks: map<Id, nat>, semRanks: map<Id, nat>, cands: set<Id>) returns (rrf: map<Id, real>)
    requires cands <= bmRanks.Keys && cands <= semRanks.Keys
    ensures rrf == Rrf(bmRanks, semRanks, cands)
  {
    rrf := map[];
    var rest := cands;
    while rest != {}
      invariant rest <= cands
      invariant rrf.Keys == cands - rest
      invariant forall x :: x in rrf ==> rrf[x] == RrfScore(bmRanks, semRanks, x)
      decreases rest
    {
      var oid :| oid in rest;
      rrf := rrf[oid := HybridRrf.Reciprocal(BmWeight, bmRanks[oid]) + HybridRrf.Reciprocal(SemWeight, semRanks[oid])];
      rest := rest - {oid};
    }
  }

  /** One arm: the pool scores from one index, the full ranking of the pool
      by them, and the rank map of that ranking. */
  method Arm(cands: set<Id>, ids: seq<Id>, vals: seq<real>) returns (order: seq<Id>, ranks: map<Id, nat>)
    requires Distinct(ids) && |ids| == |vals|
    ensures IsTopK(order, cands, CandScores(cands, ids, vals), |cands|)
    ensures ranks == HybridRrf.RankMap(order)
  {
    var pool := FillCandPool(cands, ids, vals);
    order := RankTop(cands, pool.score, |cands|);
    ranks := HybridRrf.RankMap(order);
  }

  /** `CitationSemanticHybrid.search`. `cos[i]` is the similarity of the
      query to `semIds[i]`, obtained from the embedding service only when
      `embedded` is set. `top100`, `bmOrder` and `semOrder` are the rankings
      the sorts chose. */
  method Search(query: string, ids: seq<Id>, bm25: seq<real>, semIds: seq<Id>, cos: seq<real>, ix: CiteIndex, topK: nat)
    returns (r: seq<Id>, top100: seq<Id>, cands: set<Id>, bmOrder: seq<Id>, semOrder: seq<Id>, embedded: bool)
    requires Distinct(ids) && |ids| == |bm25| && Distinct(semIds) && |semIds| == |cos|
    ensures Tokenize(query) == [] ==> r == [] && !embedded
    ensures Tokenize(query) != [] && !Cites(query) ==> IsPositiveTopK(r, Elems(ids), ScoreMap(ids, bm25), topK) && !embedded
    ensures Tokenize(query) != [] && Cites(query) ==>
      && IsPositiveTopK(top100, Elems(ids), ScoreMap(ids, bm25), Bm25PoolSize)
      && cands == GovPool(ix, GovCodeOf(query)) + RegPool(ix, RegulationsOf(query)) + Elems(top100)
      && (embedded <==> cands != {})
    ensures Tokenize(query) != [] && Cites(query) && cands == {} ==> r == []
    ensures embedded ==>
      && IsTopK(bmOrder, cands, CandScores(cands, ids, bm25), |cands|)
      && IsTopK(semOrder, cands, CandScores(cands, semIds, cos), |cands|)
      && HybridRrf.RankMap(bmOrder).Keys == cands && HybridRrf.RankMap(semOrder).Keys == cands
      && IsTopK(r, cands, Rrf(HybridRrf.RankMap(bmOrder), HybridRrf.RankMap(semOrder), cands), topK)
  {
    var done;
    r, top100, cands, done := PoolStage(query, ids, bm25, ix, topK);
    bmOrder, semOrder, embedded := [], [], false;
    if done {
      return;
    }
    var bmRanks, semRanks;
    bmOrder, bmRanks := Arm(cands, ids, bm25);
    embedded := true;
    semOrder, semRanks := Arm(cands, semIds, cos);
    PoolRanks(bmOrder, cands, CandScores(cands, ids, bm25));
    PoolRanks(semOrder, cands, CandScores(cands, semIds, cos));
    var rrf := FuseRanks(bmRanks, semRanks, cands);
    r := RankTop(cands, rrf, topK);
  }
}
