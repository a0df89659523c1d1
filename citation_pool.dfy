/** The candidate pool shared by the two citation-pooled engines. A query
    with citations gathers the opinions the citation index files under each
    cited statute and regulation, adds the positive-score BM25 top 100, and
    scores every candidate from each index, 0.0 for an id the index does not
    hold. */
module CitationPool {
  import opened Ranking
  import opened Tokenizer
  import opened CitationParser
  import opened CitationIndex
  import CitationBoost
  import opened ScoreFusion

  /** `_BM25_POOL`. */
  const Bm25PoolSize: nat := 100

  /** `has_citations`: the parser found a statute or a regulation. */
  predicate Cites(query: string)
  {
    GovCodeOf(query) != [] || RegulationsOf(query) != []
  }

  /** The statute loop: `gc_exact[raw]` and `gc_base[base]` of every cited
      statute. */
  function GovPool(ix: CiteIndex, cs: seq<Citation>): (s: set<Id>)
  {
    if cs == [] then {}
    else
      var c := cs[|cs| - 1];
      GovPool(ix, cs[..|cs| - 1]) + CitationBoost.Lookup(ix.gcExact, c.raw) + CitationBoost.Lookup(ix.gcBase, c.base)
  }

  /** What one regulation adds: `reg_exact[raw]`, and `reg_exact[base]`
      only when the citation has a subsection. */
  function RegHits(ix: CiteIndex, c: Citation): set<Id>
  {
    CitationBoost.Lookup(ix.regExact, c.raw)
    + if c.subsection != "" then CitationBoost.Lookup(ix.regExact, c.base) else {}
  }

  /** The regulation loop. */
  function RegPool(ix: CiteIndex, cs: seq<Citation>): (s: set<Id>)
  {
    if cs == [] then {} else RegPool(ix, cs[..|cs| - 1]) + RegHits(ix, cs[|cs| - 1])
  }

  /** An opinion is in the statute pool exactly when some cited statute files
      it, by its exact string or by its base number. */
  lemma {:induction false} GovPoolMembers(ix: CiteIndex, cs: seq<Citation>)
    ensures forall x :: x in GovPool(ix, cs) <==>
      exists i :: 0 <= i < |cs| && (x in CitationBoost.Lookup(ix.gcExact, cs[i].raw) || x in CitationBoost.Lookup(ix.gcBase, cs[i].base))
  {
    if cs != [] {
      var p := cs[..|cs| - 1];
      GovPoolMembers(ix, p);
      forall x | x in GovPool(ix, p)
        ensures exists i :: 0 <= i < |cs| && (x in CitationBoost.Lookup(ix.gcExact, cs[i].raw) || x in CitationBoost.Lookup(ix.gcBase, cs[i].base))
      {
        var i :| 0 <= i < |p| && (x in CitationBoost.Lookup(ix.gcExact, p[i].raw) || x in CitationBoost.Lookup(ix.gcBase, p[i].base));
        assert cs[i] == p[i];
      }
      forall x, i | 0 <= i < |cs| && (x in CitationBoost.Lookup(ix.gcExact, cs[i].raw) || x in CitationBoost.Lookup(ix.gcBase, cs[i].base))
        ensures x in GovPool(ix, cs)
      {
        if i < |p| {
          assert p[i] == cs[i];
        }
      }
    }
  }

  /** An opinion is in the regulation pool exactly when some cited
      regulation files it by its exact string, or by its base number when
      that citation has a subsection. */
  lemma {:induction false} RegPoolMembers(ix: CiteIndex, cs: seq<Citation>)
    ensures forall x :: x in RegPool(ix, cs) <==>
      exists i :: 0 <= i < |cs| && (x in CitationBoost.Lookup(ix.regExact, cs[i].raw)
                                   || (cs[i].subsection != "" && x in CitationBoost.Lookup(ix.regExact, cs[i].base)))
  {
    if cs != [] {
      var p := cs[..|cs| - 1];
      RegPoolMembers(ix, p);
      forall x | x in RegPool(ix, p)
        ensures exists i :: 0 <= i < |cs| && (x in CitationBoost.Lookup(ix.regExact, cs[i].raw)
                                             || (cs[i].subsection != "" && x in CitationBoost.Lookup(ix.regExact, cs[i].base)))
      {
        var i :| 0 <= i < |p| && (x in CitationBoost.Lookup(ix.regExact, p[i].raw)
                                 || (p[i].subsection != "" && x in CitationBoost.Lookup(ix.regExact, p[i].base)));
        assert cs[i] == p[i];
      }
      forall x, i | 0 <= i < |cs| && (x in CitationBoost.Lookup(ix.regExact, cs[i].raw)
                                     || (cs[i].subsection != "" && x in CitationBoost.Lookup(ix.regExact, cs[i].base)))
        ensures x in RegPool(ix, cs)
      {
        if i < |p| {
          assert p[i] == cs[i];
        }
      }
    }
  }

  lemma GovPoolSnoc(ix: CiteIndex, cs: seq<Citation>, i: nat)
    requires i < |cs|
    ensures GovPool(ix, cs[..i + 1]) == GovPool(ix, cs[..i]) + CitationBoost.Lookup(ix.gcExact, cs[i].raw) + CitationBoost.Lookup(ix.gcBase, cs[i].base)
  {
    assert cs[..i + 1][..i] == cs[..i];
  }

  lemma RegPoolSnoc(ix: CiteIndex, cs: seq<Citation>, i: nat)
    requires i < |cs|
    ensures RegPool(ix, cs[..i + 1]) == RegPool(ix, cs[..i]) + RegHits(ix, cs[i])
  {
    assert cs[..i + 1][..i] == cs[..i];
  }

  /** The `pool |= ...` loops over the statutes and then the regulations. */
  method BuildCitePool(ix: CiteIndex, gov: seq<Citation>, regs: seq<Citation>) returns (pool: set<Id>)
    ensures pool == GovPool(ix, gov) + RegPool(ix, regs)
  {
    pool := {};
    for i := 0 to |gov|
      invariant pool == GovPool(ix, gov[..i])
    {
      GovPoolSnoc(ix, gov, i);
      pool := pool + CitationBoost.Lookup(ix.gcExact, gov[i].raw);
      pool := pool + CitationBoost.Lookup(ix.gcBase, gov[i].base);
    }
    assert gov[..|gov|] == gov;
    var g := pool;
    for i := 0 to |regs|
      invariant pool == g + RegPool(ix, regs[..i])
    {
      RegPoolSnoc(ix, regs, i);
      pool := pool + CitationBoost.Lookup(ix.regExact, regs[i].raw);
      if regs[i].subsection != "" {
        pool := pool + CitationBoost.Lookup(ix.regExact, regs[i].base);
      }
    }
    assert regs[..|regs|] == regs;
  }

  /** The scores of the candidates from one index: an indexed id gets its
      score, any other candidate 0.0. */
  function CandScores(cands: set<Id>, ids: seq<Id>, vals: seq<real>): (m: map<Id, real>)
    requires Distinct(ids) && |ids| == |vals|
    ensures m.Keys == cands
    ensures forall i :: 0 <= i < |ids| && ids[i] in cands ==> m[ids[i]] == vals[i]
    ensures forall x :: x in cands && x !in Elems(ids) ==> m[x] == 0.0
  {
    map x | x in cands :: Get(ScoreMap(ids, vals), x)
  }

  /** The loop filling `bm25_pool` (or `sem_pool`) over the candidate set,
      with `id_to_idx.get(oid)` deciding between the score and 0.0. */
  method FillCandPool(cands: set<Id>, ids: seq<Id>, vals: seq<real>) returns (p: Pool)
    requires Distinct(ids) && |ids| == |vals|
    ensures Valid(p) && p.score == CandScores(cands, ids, vals)
  {
    var pos := Positions(ids);
    p := EmptyPool;
    var rest := cands;
    while rest != {}
      invariant rest <= cands && Valid(p)
      invariant p.score.Keys == cands - rest
      invariant forall x :: x in p.score ==> p.score[x] == Get(ScoreMap(ids, vals), x)
      decreases rest
    {
      var oid :| oid in rest;
      if oid in pos {
        p := Put(p, oid, vals[pos[oid]]);
      } else {
        p := Put(p, oid, 0.0);
      }
      rest := rest - {oid};
    }
  }

  /** The scores along a ranking. */
  function Along(order: seq<Id>, m: map<Id, real>): (vs: seq<real>)
    requires forall i :: 0 <= i < |order| ==> order[i] in m
    ensures |vs| == |order| && forall i :: 0 <= i < |order| ==> vs[i] == m[order[i]]
  {
    seq(|order|, i requires 0 <= i < |order| => m[order[i]])
  }

  /** A ranking of every candidate lists each candidate exactly once. */
  lemma FullRankingCovers(order: seq<Id>, cands: set<Id>, score: map<Id, real>)
    requires IsTopK(order, cands, score, |cands|)
    ensures Elems(order) == cands
  {
    DistinctCard(order);
    var others := cands - Elems(order);
    assert cands == Elems(order) + others;
    assert |cands| == |Elems(order)| + |others|;
  }

  /** `sorted(pool.values(), reverse=True)`, read along a full ranking of the
      pool: non-increasing, one entry per candidate, and it holds the score
      of every candidate. */
  lemma SortedScores(order: seq<Id>, cands: set<Id>, score: map<Id, real>)
    requires cands <= score.Keys && IsTopK(order, cands, score, |cands|)
    ensures Descending(Along(order, score)) && |Along(order, score)| == |cands|
    ensures forall x :: x in cands ==> exists i :: 0 <= i < |cands| && Along(order, score)[i] == score[x]
  {
    FullRankingCovers(order, cands, score);
    forall x | x in cands ensures exists i :: 0 <= i < |cands| && Along(order, score)[i] == score[x] {
      var i :| 0 <= i < |order| && order[i] == x;
      assert i < |cands| && Along(order, score)[i] == score[x];
    }
  }

  /** A single-candidate pool, or one whose second-best score is 0 (as in a
      pool of citation-only opinions), trips the breaker at any
      threshold. */
  lemma PoolBreakerFires(order: seq<Id>, cands: set<Id>, score: map<Id, real>, threshold: real)
    requires cands <= score.Keys && IsTopK(order, cands, score, |cands|)
    requires |cands| <= 1 || forall x :: x in cands ==> score[x] == 0.0
    ensures Fires(BreakerRatio(Along(order, score)), threshold)
  {
    if |cands| > 1 {
      FullRankingCovers(order, cands, score);
      assert order[1] in cands;
    }
  }

  /** The steps every citation-pooled search shares: the token check, the
      no-citation fallback to BM25, and the candidate pool. `done` says the
      search ends here with `r`; `top100` is the BM25 top 100 the sort
      chose. */
  method PoolStage(query: string, ids: seq<Id>, bm25: seq<real>, ix: CiteIndex, topK: nat)
    returns (r: seq<Id>, top100: seq<Id>, cands: set<Id>, done: bool)
    requires Distinct(ids) && |ids| == |bm25|
    ensures Tokenize(query) == [] ==> done && r == []
    ensures Tokenize(query) != [] && !Cites(query) ==> done && IsPositiveTopK(r, Elems(ids), ScoreMap(ids, bm25), topK)
    ensures Tokenize(query) != [] && Cites(query) ==>
      && IsPositiveTopK(top100, Elems(ids), ScoreMap(ids, bm25), Bm25PoolSize)
      && cands == GovPool(ix, GovCodeOf(query)) + RegPool(ix, RegulationsOf(query)) + Elems(top100)
      && (done <==> cands == {})
      && (done ==> r == [])
  {
    r, top100, cands := [], [], {};
    if Tokenize(query) == [] {
      return r, top100, cands, true;
    }
    var score := ScoreMap(ids, bm25);
    var gov, regs := ParseQueryCitations(query);
    if gov == [] && regs == [] {
      r := PositiveTopK(Elems(ids), score, topK);
      return r, top100, cands, true;
    }
    var pool := BuildCitePool(ix, gov, regs);
    top100 := PositiveTopK(Elems(ids), score, Bm25PoolSize);
    cands := pool + Elems(top100);
    done := cands == {};
  }
}
