/** Weighted reciprocal rank fusion of a BM25 arm and a semantic arm. Each
    arm ranks its own top 100 from 1; a document's fused score is the sum,
    over the arms that ranked it, of `w / (60 + rank)`. The per-document
    BM25 and cosine scores are inputs. */
module HybridRrf {
  import opened Ranking
  import opened Tokenizer

  /** `_K`, `_W_BM25`, `_W_SEM` and `_POOL`. */
  const K: nat := 60
  const BmWeight: real := 0.7
  const SemWeight: real := 0.3
  const PoolSize: nat := 100

  /** One arm's contribution, `w / (_K + rank)`. */
  function Reciprocal(w: real, rank: nat): real
  {
    w / ((K + rank) as real)
  }

  /** For ranks from 1, a contribution is positive and at most `w / 61`. */
  lemma ReciprocalBounds(w: real, rank: nat)
    requires w > 0.0 && rank >= 1
    ensures 0.0 < Reciprocal(w, rank) <= w / 61.0
  {
    var d := (K + rank) as real;
    assert d >= 61.0;
    assert Reciprocal(w, rank) * d == w;
    assert w / 61.0 * 61.0 == w;
  }

  /** A better (smaller) rank gives a strictly larger contribution. */
  lemma ReciprocalMonotone(w: real, rank: nat, rank': nat)
    requires w > 0.0 && rank < rank'
    ensures Reciprocal(w, rank) > Reciprocal(w, rank')
  {
    var d, d' := (K + rank) as real, (K + rank') as real;
    var a, b := Reciprocal(w, rank), Reciprocal(w, rank');
    assert a * d == w && b * d' == w;
    assert b > 0.0;
    assert b * d < b * d';
    assert (a - b) * d > 0.0;
  }

  /** `{oid: rank for rank, oid in enumerate(ranked, start=1)}`, as the
      loop that fills it: the last id gets rank `|ranked|`. */
  function RankMap(ranked: seq<Id>): (m: map<Id, nat>)
  {
    if ranked == [] then map[]
    else RankMap(ranked[..|ranked| - 1])[ranked[|ranked| - 1] := |ranked|]
  }

  /** Exactly the ids of the list are ranked. */
  lemma {:induction false} RankMapKeys(ranked: seq<Id>)
    ensures forall x :: x in RankMap(ranked) <==> x in ranked
  {
    if ranked != [] {
      var p := ranked[..|ranked| - 1];
      RankMapKeys(p);
      assert ranked == p + [ranked[|ranked| - 1]];
    }
  }

  /** Each id of the list is ranked by its position from 1, so distinct
      ids get distinct ranks. */
  lemma {:induction false} RankMapAt(ranked: seq<Id>)
    requires Distinct(ranked)
    ensures forall i :: 0 <= i < |ranked| ==> ranked[i] in RankMap(ranked) && RankMap(ranked)[ranked[i]] == i + 1
    ensures forall x :: x in RankMap(ranked) ==> 1 <= RankMap(ranked)[x] <= |ranked| && ranked[RankMap(ranked)[x] - 1] == x
  {
    RankMapKeys(ranked);
    if ranked != [] {
      var p, y := ranked[..|ranked| - 1], ranked[|ranked| - 1];
      RankMapAt(p);
      var m, mp := RankMap(ranked), RankMap(p);
      assert m == mp[y := |ranked|];
      assert y !in p;
      forall i | 0 <= i < |ranked| ensures m[ranked[i]] == i + 1 {
        if i < |p| {
          assert ranked[i] == p[i];
        }
      }
    }
  }

  /** The BM25 arm's ranks: each positive-score id of the top 100 keeps its
      position in that list, counting from 1. */
  function PositiveRanks(ranked: seq<Id>, score: map<Id, real>): (m: map<Id, nat>)
    requires forall i :: 0 <= i < |ranked| ==> ranked[i] in score
  {
    if ranked == [] then map[]
    else
      var p := PositiveRanks(ranked[..|ranked| - 1], score);
      if score[ranked[|ranked| - 1]] > 0.0 then p[ranked[|ranked| - 1] := |ranked|] else p
  }

  /** Exactly the positive ids are ranked, each by its position from 1. */
  lemma PositiveRanksAt(ranked: seq<Id>, score: map<Id, real>)
    requires Distinct(ranked) && forall i :: 0 <= i < |ranked| ==> ranked[i] in score
    ensures forall x :: x in PositiveRanks(ranked, score) <==> x in ranked && score[x] > 0.0
    ensures forall i :: 0 <= i < |ranked| && score[ranked[i]] > 0.0 ==> PositiveRanks(ranked, score)[ranked[i]] == i + 1
    ensures forall x :: x in PositiveRanks(ranked, score) ==>
      1 <= PositiveRanks(ranked, score)[x] <= |ranked| && ranked[PositiveRanks(ranked, score)[x] - 1] == x
  {
    PositiveRanksKeys(ranked, score);
    PositiveRanksIndex(ranked, score);
    PositiveRanksBack(ranked, score);
  }

  lemma PositiveRanksBack(ranked: seq<Id>, score: map<Id, real>)
    requires Distinct(ranked) && forall i :: 0 <= i < |ranked| ==> ranked[i] in score
    ensures forall x :: x in PositiveRanks(ranked, score) ==>
      1 <= PositiveRanks(ranked, score)[x] <= |ranked| && ranked[PositiveRanks(ranked, score)[x] - 1] == x
  {
    var m := PositiveRanks(ranked, score);
    forall x | x in m ensures 1 <= m[x] <= |ranked| && ranked[m[x] - 1] == x {
      PositiveRanksKeys(ranked, score);
      var i :| 0 <= i < |ranked| && ranked[i] == x;
      PositiveRanksIndex(ranked, score);
      assert m[x] == i + 1;
    }
  }

  lemma {:induction false} PositiveRanksKeys(ranked: seq<Id>, score: map<Id, real>)
    requires forall i :: 0 <= i < |ranked| ==> ranked[i] in score
    ensures forall x :: x in PositiveRanks(ranked, score) <==> x in ranked && score[x] > 0.0
  {
    if ranked != [] {
      var p, y := ranked[..|ranked| - 1], ranked[|ranked| - 1];
      PositiveRanksKeys(p, score);
      assert ranked == p + [y];
    }
  }

  lemma {:induction false} PositiveRanksIndex(ranked: seq<Id>, score: map<Id, real>)
    requires Distinct(ranked) && forall i :: 0 <= i < |ranked| ==> ranked[i] in score
    ensures forall i :: 0 <= i < |ranked| && score[ranked[i]] > 0.0 ==>
      ranked[i] in PositiveRanks(ranked, score) && PositiveRanks(ranked, score)[ranked[i]] == i + 1
  {
    PositiveRanksKeys(ranked, score);
    if ranked != [] {
      var p, y := ranked[..|ranked| - 1], ranked[|ranked| - 1];
      assert forall i :: 0 <= i < |p| ==> p[i] == ranked[i];
      PositiveRanksIndex(p, score);
      PositiveRanksKeys(p, score);
      var m, mp := PositiveRanks(ranked, score), PositiveRanks(p, score);
      assert m == if score[y] > 0.0 then mp[y := |ranked|] else mp;
      forall i | 0 <= i < |ranked| && score[ranked[i]] > 0.0 ensures m[ranked[i]] == i + 1 {
        if i < |p| {
          assert ranked[i] == p[i] && ranked[i] != y;
        }
      }
    }
  }

  /** On a list sorted by score the positive ids come first, so the BM25
      ranks form an unbroken run from 1: whoever holds rank `r`, every
      better rank is held too. */
  lemma PositiveRanksContiguous(ranked: seq<Id>, score: map<Id, real>)
    requires Distinct(ranked) && Sorted(ranked, score)
    ensures forall x, j :: x in PositiveRanks(ranked, score) && 0 <= j < |ranked| && j < PositiveRanks(ranked, score)[x] ==>
      ranked[j] in PositiveRanks(ranked, score)
  {
    PositiveRanksAt(ranked, score);
    var m := PositiveRanks(ranked, score);
    forall x, j | x in m && 0 <= j < |ranked| && j < m[x] ensures ranked[j] in m {
      assert score[ranked[j]] >= score[ranked[m[x] - 1]];
    }
  }

  /** The fused score of one id: each arm that ranked it adds its share. */
  function FusedScore(bm: map<Id, nat>, sem: map<Id, nat>, x: Id): real
  {
    (if x in bm then Reciprocal(BmWeight, bm[x]) else 0.0)
    + (if x in sem then Reciprocal(SemWeight, sem[x]) else 0.0)
  }

  /** `rrf`, over the union of the ids the two arms ranked. */
  function Fused(bm: map<Id, nat>, sem: map<Id, nat>): (m: map<Id, real>)
    ensures m.Keys == bm.Keys + sem.Keys
  {
    map x | x in bm.Keys + sem.Keys :: FusedScore(bm, sem, x)
  }

  /** Ranks counted from 1. */
  predicate RanksFromOne(m: map<Id, nat>)
  {
    forall x :: x in m ==> m[x] >= 1
  }

  /** Every fused score lies in (0, 1/61]: an id was ranked by at least one
      arm, and the two weights sum to one. */
  lemma FusedBounds(bm: map<Id, nat>, sem: map<Id, nat>)
    requires RanksFromOne(bm) && RanksFromOne(sem)
    ensures forall x :: x in Fused(bm, sem) ==> 0.0 < Fused(bm, sem)[x] <= 1.0 / 61.0
  {
    forall x | x in Fused(bm, sem) ensures 0.0 < FusedScore(bm, sem, x) <= 1.0 / 61.0 {
      if x in bm {
        ReciprocalBounds(BmWeight, bm[x]);
      }
      if x in sem {
        ReciprocalBounds(SemWeight, sem[x]);
      }
    }
  }

  /** With the BM25 arm empty, as for a token-free query, the fused order is
      the semantic order: a better semantic rank scores strictly higher. */
  lemma SemanticOnlyOrder(sem: map<Id, nat>, x: Id, y: Id)
    requires x in sem && y in sem && sem[x] < sem[y]
    ensures Fused(map[], sem)[x] > Fused(map[], sem)[y]
  {
    ReciprocalMonotone(SemWeight, sem[x], sem[y]);
  }

  // ---------------------------------------------------------------------
  // The loops of HybridRRFv1.search

  lemma RankMapSnoc(ranked: seq<Id>, i: nat)
    requires i < |ranked|
    ensures RankMap(ranked[..i + 1]) == RankMap(ranked[..i])[ranked[i] := i + 1]
  {
    assert ranked[..i + 1][..i] == ranked[..i];
  }

  lemma PositiveRanksSnoc(ranked: seq<Id>, score: map<Id, real>, i: nat)
    requires i < |ranked| && forall j :: 0 <= j < |ranked| ==> ranked[j] in score
    ensures score[ranked[i]] > 0.0 ==> PositiveRanks(ranked[..i + 1], score) == PositiveRanks(ranked[..i], score)[ranked[i] := i + 1]
    ensures score[ranked[i]] <= 0.0 ==> PositiveRanks(ranked[..i + 1], score) == PositiveRanks(ranked[..i], score)
  {
    assert ranked[..i + 1][..i] == ranked[..i];
  }

  /** The BM25 arm's loop over the top 100, skipping non-positive scores. */
  method BmRanks(ranked: seq<Id>, score: map<Id, real>) returns (m: map<Id, nat>)
    requires forall i :: 0 <= i < |ranked| ==> ranked[i] in score
    ensures m == PositiveRanks(ranked, score)
  {
    m := map[];
    for i := 0 to |ranked|
      invariant m == PositiveRanks(ranked[..i], score)
    {
      PositiveRanksSnoc(ranked, score, i);
      if score[ranked[i]] > 0.0 {
        m := m[ranked[i] := i + 1];
      }
    }
    assert ranked[..|ranked|] == ranked;
  }

  /** The semantic arm's loop: every id of its top 100, by position. */
  method SemRanks(ranked: seq<Id>) returns (m: map<Id, nat>)
    ensures m == RankMap(ranked)
  {
    m := map[];
    for i := 0 to |ranked|
      invariant m == RankMap(ranked[..i])
    {
      RankMapSnoc(ranked, i);
      m := m[ranked[i] := i + 1];
    }
    assert ranked[..|ranked|] == ranked;
  }

  /** The fusion loop over `all_ids`, in whatever order the set yields. */
  method FuseRanks(bm: map<Id, nat>, sem: map<Id, nat>) returns (rrf: map<Id, real>)
    ensures rrf == Fused(bm, sem)
  {
    rrf := map[];
    var rest := bm.Keys + sem.Keys;
    while rest != {}
      invariant rest <= bm.Keys + sem.Keys
      invariant rrf.Keys == bm.Keys + sem.Keys - rest
      invariant forall x :: x in rrf ==> rrf[x] == FusedScore(bm, sem, x)
      decreases rest
    {
      var oid :| oid in rest;
      var s := 0.0;
      if oid in bm {
        s := s + Reciprocal(BmWeight, bm[oid]);
      }
      if oid in sem {
        s := s + Reciprocal(SemWeight, sem[oid]);
      }
      rrf := rrf[oid := s];
      rest := rest - {oid};
    }
  }

  /** The BM25 arm: nothing for a token-free query, else the positive ids
      of the top 100, ranked by their position in it. */
  method BmArm(query: string, ids: seq<Id>, bm25: seq<real>) returns (bmTop: seq<Id>, ranks: map<Id, nat>)
    requires Distinct(ids) && |ids| == |bm25|
    ensures Tokenize(query) == [] ==> bmTop == []
    ensures Tokenize(query) != [] ==> IsTopK(bmTop, Elems(ids), ScoreMap(ids, bm25), PoolSize)
    ensures forall i :: 0 <= i < |bmTop| ==> bmTop[i] in ScoreMap(ids, bm25)
    ensures ranks == PositiveRanks(bmTop, ScoreMap(ids, bm25))
  {
    bmTop, ranks := [], map[];
    if Tokenize(query) != [] {
      var score := ScoreMap(ids, bm25);
      bmTop := RankTop(Elems(ids), score, PoolSize);
      ranks := BmRanks(bmTop, score);
    }
  }

  /** The semantic arm: the top 100 by cosine score, ranked by position,
      with no filter on the score. */
  method SemArm(semIds: seq<Id>, cos: seq<real>) returns (semTop: seq<Id>, ranks: map<Id, nat>)
    requires Distinct(semIds) && |semIds| == |cos|
    ensures IsTopK(semTop, Elems(semIds), ScoreMap(semIds, cos), PoolSize)
    ensures ranks == RankMap(semTop)
  {
    semTop := RankTop(Elems(semIds), ScoreMap(semIds, cos), PoolSize);
    ranks := SemRanks(semTop);
  }

  /** The search. The BM25 arm is empty for a token-free query, but the
      semantic arm always runs, so a token-free query still returns the
      semantic top ids. `bmTop` and `semTop` are the two top-100 lists the
      sort chose. */
  method Search(query: string, ids: seq<Id>, bm25: seq<real>, semIds: seq<Id>, cos: seq<real>, topK: nat)
    returns (r: seq<Id>, bmTop: seq<Id>, semTop: seq<Id>)
    requires Distinct(ids) && |ids| == |bm25| && Distinct(semIds) && |semIds| == |cos|
    ensures Tokenize(query) == [] ==> bmTop == []
    ensures Tokenize(query) != [] ==> IsTopK(bmTop, Elems(ids), ScoreMap(ids, bm25), PoolSize)
    ensures IsTopK(semTop, Elems(semIds), ScoreMap(semIds, cos), PoolSize)
    ensures forall i :: 0 <= i < |bmTop| ==> bmTop[i] in ScoreMap(ids, bm25)
    ensures IsTopK(r, PositiveRanks(bmTop, ScoreMap(ids, bm25)).Keys + RankMap(semTop).Keys,
                   Fused(PositiveRanks(bmTop, ScoreMap(ids, bm25)), RankMap(semTop)), topK)
    ensures topK > 0 && |semIds| > 0 ==> |r| > 0
  {
    var bmRanks, semRanks;
    bmTop, bmRanks := BmArm(query, ids, bm25);
    semTop, semRanks := SemArm(semIds, cos);
    var rrf := FuseRanks(bmRanks, semRanks);
    r := RankTop(bmRanks.Keys + semRanks.Keys, rrf, topK);
    if topK > 0 && |semIds| > 0 {
      NonEmptyArm(semIds, cos, semTop);
    }
  }

  /** A non-empty semantic index puts at least one id into the fusion. */
  lemma NonEmptyArm(semIds: seq<Id>, cos: seq<real>, semTop: seq<Id>)
    requires Distinct(semIds) && |semIds| == |cos| && |semIds| > 0
    requires IsTopK(semTop, Elems(semIds), ScoreMap(semIds, cos), PoolSize)
    ensures |RankMap(semTop).Keys| > 0
  {
    assert semIds[0] in Elems(semIds);
    RankMapKeys(semTop);
    assert semTop[0] in RankMap(semTop).Keys;
  }
}
