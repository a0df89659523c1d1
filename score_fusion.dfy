/** Score fusion behind a BM25 circuit breaker, in its single-vector form
    and its multi-vector form. A query's BM25 top 100 with positive scores
    forms the BM25 pool; when its best score beats the second by the
    threshold ratio the BM25 pool alone is returned and the semantic arm is
    never consulted. Otherwise the semantic top 100 forms a second pool, both
    pools are min-max normalised, and every id of their union gets the mean
    of its two normalised scores, a missing side counting 0. */
module ScoreFusion {
  import opened Ranking
  import opened Tokenizer
  import MultiVector

  /** `_POOL`, the default `cb_threshold`, and the fusion weight. */
  const PoolSize: nat := 100
  const DefaultThreshold: real := 1.3
  const Half: real := 0.5

  /** A score dict in insertion order: `keys` lists its keys as Python
      iterates them and `score` holds the values. */
  datatype Pool = Pool(keys: seq<Id>, score: map<Id, real>)

  const EmptyPool := Pool([], map[])

  ghost predicate Valid(p: Pool)
  {
    Distinct(p.keys) && forall x :: x in p.score <==> x in p.keys
  }

  /** `d[k] = v`: a new key goes to the end, an old one keeps its place. */
  function Put(p: Pool, k: Id, v: real): (q: Pool)
    requires Valid(p)
    ensures Valid(q) && q.score == p.score[k := v]
    ensures q.keys == if k in p.score then p.keys else p.keys + [k]
  {
    if k in p.score then Pool(p.keys, p.score[k := v]) else Pool(p.keys + [k], p.score[k := v])
  }

  /** `d.get(k, 0.0)`. */
  function Get(m: map<Id, real>, k: Id): real
  {
    if k in m then m[k] else 0.0
  }

  /** `list(d.values())`. */
  function Vals(p: Pool): (vs: seq<real>)
    requires Valid(p)
    ensures |vs| == |p.keys|
    ensures forall i :: 0 <= i < |p.keys| ==> vs[i] == p.score[p.keys[i]]
  {
    seq(|p.keys|, i requires 0 <= i < |p.keys| => p.score[p.keys[i]])
  }

  /** `min(vals)`. */
  function MinOf(s: seq<real>): (m: real)
    requires s != []
    ensures m in s && forall i :: 0 <= i < |s| ==> m <= s[i]
  {
    if |s| == 1 then s[0]
    else
      var t := MinOf(s[..|s| - 1]);
      assert s == s[..|s| - 1] + [s[|s| - 1]];
      if s[|s| - 1] < t then s[|s| - 1] else t
  }

  /** `max(vals)`. */
  function MaxOf(s: seq<real>): (m: real)
    requires s != []
    ensures m in s && forall i :: 0 <= i < |s| ==> s[i] <= m
  {
    if |s| == 1 then s[0]
    else
      var t := MaxOf(s[..|s| - 1]);
      assert s == s[..|s| - 1] + [s[|s| - 1]];
      if s[|s| - 1] > t then s[|s| - 1] else t
  }

  /** The least and greatest values are values of keys, and bound every
      value. */
  lemma {:induction false} ValsBounds(p: Pool)
    requires Valid(p) && p.keys != []
    ensures forall k :: k in p.score ==> MinOf(Vals(p)) <= p.score[k] <= MaxOf(Vals(p))
    ensures exists k :: k in p.score && p.score[k] == MinOf(Vals(p))
    ensures exists k :: k in p.score && p.score[k] == MaxOf(Vals(p))
  {
    var vs := Vals(p);
    forall k | k in p.score ensures MinOf(vs) <= p.score[k] <= MaxOf(vs) {
      var i :| 0 <= i < |p.keys| && p.keys[i] == k;
      assert vs[i] == p.score[k];
    }
    var i :| 0 <= i < |vs| && vs[i] == MinOf(vs);
    var j :| 0 <= j < |vs| && vs[j] == MaxOf(vs);
    assert p.keys[i] in p.score && p.keys[j] in p.score;
  }

  /** A key holding the least value. */
  ghost function LoKey(p: Pool): (k: Id)
    requires Valid(p) && p.keys != []
    ensures k in p.score && p.score[k] == MinOf(Vals(p))
    ensures forall j :: j in p.score ==> p.score[k] <= p.score[j]
  {
    ValsBounds(p);
    var k :| k in p.score && p.score[k] == MinOf(Vals(p));
    k
  }

  /** A key holding the greatest value. */
  ghost function HiKey(p: Pool): (k: Id)
    requires Valid(p) && p.keys != []
    ensures k in p.score && p.score[k] == MaxOf(Vals(p))
    ensures forall j :: j in p.score ==> p.score[j] <= p.score[k]
  {
    ValsBounds(p);
    var k :| k in p.score && p.score[k] == MaxOf(Vals(p));
    k
  }

  /** `min(vals)` of a non-empty pool. */
  function Lo(p: Pool): (lo: real)
    requires Valid(p) && p.keys != []
    ensures lo == p.score[LoKey(p)]
  {
    MinOf(Vals(p))
  }

  /** `max(vals)` of a non-empty pool. */
  function Hi(p: Pool): (hi: real)
    requires Valid(p) && p.keys != []
    ensures hi == p.score[HiKey(p)]
  {
    MaxOf(Vals(p))
  }

  // ---------------------------------------------------------------------
  // min_max_normalize

  /** One value of `min_max_normalize` for the bounds `lo` and `hi`: 1.0 when
      the bounds coincide, `(v - lo) / (hi - lo)` otherwise. */
  function Scaled(v: real, lo: real, hi: real): real
  {
    if hi - lo == 0.0 then 1.0 else (v - lo) / (hi - lo)
  }

  /** A value between the bounds is scaled into [0, 1]. */
  lemma ScaledInUnit(v: real, lo: real, hi: real)
    requires lo <= v <= hi
    ensures 0.0 <= Scaled(v, lo, hi) <= 1.0
  {
    if hi - lo != 0.0 {
      var x, y := v - lo, hi - lo;
      assert x / y * y == x;
    }
  }

  /** Scaling keeps the order of values. */
  lemma ScaledMonotone(v: real, w: real, lo: real, hi: real)
    requires v <= w && lo <= hi
    ensures Scaled(v, lo, hi) <= Scaled(w, lo, hi)
  {
    if hi - lo != 0.0 {
      var x, x', y := v - lo, w - lo, hi - lo;
      assert x / y * y == x && x' / y * y == x';
      assert (x' / y - x / y) * y >= 0.0;
    }
  }

  /** Distinct bounds are scaled to 0 and 1. */
  lemma ScaledEnds(lo: real, hi: real)
    requires lo != hi
    ensures Scaled(lo, lo, hi) == 0.0 && Scaled(hi, lo, hi) == 1.0
  {
    var y := hi - lo;
    assert 0.0 / y == 0.0;
    assert y / y == 1.0;
  }

  /** `min_max_normalize`: an empty pool is returned as it is, any other pool
      maps each value to its `Scaled` value between the least and the
      greatest value. Keys and their order are kept. */
  function Normalize(p: Pool): (r: Pool)
    requires Valid(p)
    ensures Valid(r) && r.keys == p.keys
  {
    if p.keys == [] then p
    else Pool(p.keys, map k | k in p.score :: Scaled(p.score[k], Lo(p), Hi(p)))
  }

  /** The normalised value of one key. */
  lemma NormalizeAt(p: Pool, k: Id)
    requires Valid(p) && k in p.score
    ensures p.keys != [] && Normalize(p).score[k] == Scaled(p.score[k], Lo(p), Hi(p))
  {
  }

  /** The empty pool is returned unchanged. */
  lemma NormalizeEmpty()
    ensures Normalize(EmptyPool) == EmptyPool
  {
  }

  /** Every normalised value lies in [0, 1], and a pool of equal values
      becomes all 1.0. */
  lemma NormalizeInUnit(p: Pool)
    requires Valid(p)
    ensures forall k :: k in Normalize(p).score ==> 0.0 <= Normalize(p).score[k] <= 1.0
    ensures (forall a, b :: a in p.score && b in p.score ==> p.score[a] == p.score[b]) ==>
      forall k :: k in p.score ==> Normalize(p).score[k] == 1.0
  {
    forall k | k in p.score ensures 0.0 <= Normalize(p).score[k] <= 1.0 {
      NormalizeAt(p, k);
      ScaledInUnit(p.score[k], Lo(p), Hi(p));
    }
    if p.keys != [] && forall a, b :: a in p.score && b in p.score ==> p.score[a] == p.score[b] {
      var a := LoKey(p);
      var b := HiKey(p);
      assert Lo(p) == Hi(p);
      forall k | k in p.score ensures Normalize(p).score[k] == 1.0 {
        NormalizeAt(p, k);
      }
    }
  }

  /** A least value becomes 0 when the values are not all equal. */
  lemma NormalizeLeast(p: Pool, k: Id, b: Id)
    requires Valid(p) && k in p.score && b in p.score && p.score[k] < p.score[b]
    requires forall j :: j in p.score ==> p.score[k] <= p.score[j]
    ensures Normalize(p).score[k] == 0.0
  {
    NormalizeAt(p, k);
    assert p.score[k] <= p.score[LoKey(p)];
    assert p.score[b] <= Hi(p);
    ScaledEnds(Lo(p), Hi(p));
  }

  /** A greatest value becomes 1 when the values are not all equal. */
  lemma NormalizeGreatest(p: Pool, k: Id, a: Id)
    requires Valid(p) && k in p.score && a in p.score && p.score[a] < p.score[k]
    requires forall j :: j in p.score ==> p.score[j] <= p.score[k]
    ensures Normalize(p).score[k] == 1.0
  {
    NormalizeAt(p, k);
    assert p.score[HiKey(p)] <= p.score[k];
    assert Lo(p) <= p.score[a];
    ScaledEnds(Lo(p), Hi(p));
  }

  /** Otherwise the least value becomes 0 and the greatest becomes 1. */
  lemma NormalizeEnds(p: Pool, a: Id, b: Id)
    requires Valid(p) && a in p.score && b in p.score && p.score[a] != p.score[b]
    ensures forall k :: k in p.score && (forall j :: j in p.score ==> p.score[k] <= p.score[j]) ==> Normalize(p).score[k] == 0.0
    ensures forall k :: k in p.score && (forall j :: j in p.score ==> p.score[j] <= p.score[k]) ==> Normalize(p).score[k] == 1.0
  {
    var lo, hi := if p.score[a] < p.score[b] then a else b, if p.score[a] < p.score[b] then b else a;
    NormalizeLeastAll(p, hi);
    NormalizeGreatestAll(p, lo);
  }

  lemma NormalizeLeastAll(p: Pool, hi: Id)
    requires Valid(p) && hi in p.score
    ensures forall k :: k in p.score && p.score[k] < p.score[hi] && (forall j :: j in p.score ==> p.score[k] <= p.score[j]) ==> Normalize(p).score[k] == 0.0
  {
    forall k | k in p.score && p.score[k] < p.score[hi] && (forall j :: j in p.score ==> p.score[k] <= p.score[j])
      ensures Normalize(p).score[k] == 0.0
    {
      NormalizeLeast(p, k, hi);
    }
  }

  lemma NormalizeGreatestAll(p: Pool, lo: Id)
    requires Valid(p) && lo in p.score
    ensures forall k :: k in p.score && p.score[lo] < p.score[k] && (forall j :: j in p.score ==> p.score[j] <= p.score[k]) ==> Normalize(p).score[k] == 1.0
  {
    forall k | k in p.score && p.score[lo] < p.score[k] && (forall j :: j in p.score ==> p.score[j] <= p.score[k])
      ensures Normalize(p).score[k] == 1.0
    {
      NormalizeGreatest(p, k, lo);
    }
  }

  /** Normalisation keeps the order of the values. */
  lemma NormalizeMonotone(p: Pool)
    requires Valid(p)
    ensures forall a, b :: a in p.score && b in p.score && p.score[a] <= p.score[b] ==>
      Normalize(p).score[a] <= Normalize(p).score[b]
  {
    forall a, b | a in p.score && b in p.score && p.score[a] <= p.score[b]
      ensures Normalize(p).score[a] <= Normalize(p).score[b]
    {
      NormalizeAt(p, a);
      NormalizeAt(p, b);
      ScaledMonotone(p.score[a], p.score[b], Lo(p), Hi(p));
    }
  }

  /** Two pools with the same scores have the same bounds. */
  lemma SameBounds(p: Pool, q: Pool)
    requires Valid(p) && Valid(q) && p.score == q.score && p.keys != []
    ensures q.keys != [] && Lo(p) == Lo(q) && Hi(p) == Hi(q)
  {
    assert p.keys[0] in q.keys;
    assert p.score[LoKey(p)] <= p.score[LoKey(q)] && q.score[LoKey(q)] <= q.score[LoKey(p)];
    assert p.score[HiKey(q)] <= p.score[HiKey(p)] && q.score[HiKey(p)] <= q.score[HiKey(q)];
  }

  /** The normalised scores depend on the scores only, not on the order in
      which the dict was filled. */
  lemma NormalizeOrderFree(p: Pool, q: Pool)
    requires Valid(p) && Valid(q) && p.score == q.score
    ensures Normalize(p).score == Normalize(q).score
  {
    if p.keys != [] {
      SameBounds(p, q);
      forall k | k in p.score ensures Normalize(p).score[k] == Normalize(q).score[k] {
        NormalizeAt(p, k);
        NormalizeAt(q, k);
      }
    }
  }

  // ---------------------------------------------------------------------
  // The fusion

  /** `wb * nb.get(oid, 0.0) + ws * ns.get(oid, 0.0)`. */
  function Mix(nb: map<Id, real>, ns: map<Id, real>, wb: real, ws: real, x: Id): real
  {
    wb * Get(nb, x) + ws * Get(ns, x)
  }

  /** `combined`: the mix for every id of `ids`. */
  function Fused(nb: map<Id, real>, ns: map<Id, real>, wb: real, ws: real, ids: set<Id>): (m: map<Id, real>)
    ensures m.Keys == ids
  {
    map x | x in ids :: Mix(nb, ns, wb, ws, x)
  }

  predicate InUnit(m: map<Id, real>)
  {
    forall x :: x in m ==> 0.0 <= m[x] <= 1.0
  }

  lemma ScaleInUnit(w: real, v: real)
    requires w >= 0.0 && 0.0 <= v <= 1.0
    ensures 0.0 <= w * v <= w
  {
  }

  lemma AddBounds(x: real, y: real, a: real, b: real)
    requires x <= a && y <= b
    ensures x + y <= a + b
  {
  }

  /** A weighted sum of two values in [0, 1], with weights summing to at
      most one, lies in [0, 1]; with one value zero it is at most the other's
      weight. */
  lemma WeightedInUnit(wb: real, ws: real, b: real, s: real)
    requires wb >= 0.0 && ws >= 0.0 && wb + ws <= 1.0 && 0.0 <= b <= 1.0 && 0.0 <= s <= 1.0
    ensures 0.0 <= wb * b + ws * s <= 1.0
    ensures s == 0.0 ==> wb * b + ws * s <= wb
    ensures b == 0.0 ==> wb * b + ws * s <= ws
  {
    ScaleInUnit(wb, b);
    ScaleInUnit(ws, s);
    AddBounds(wb * b, ws * s, wb, ws);
  }

  /** The mix of one id, for sides in [0, 1]. */
  lemma MixInUnit(nb: map<Id, real>, ns: map<Id, real>, wb: real, ws: real, x: Id)
    requires InUnit(nb) && InUnit(ns) && wb >= 0.0 && ws >= 0.0 && wb + ws <= 1.0
    ensures 0.0 <= Mix(nb, ns, wb, ws, x) <= 1.0
    ensures x !in ns ==> Mix(nb, ns, wb, ws, x) <= wb
    ensures x !in nb ==> Mix(nb, ns, wb, ws, x) <= ws
  {
    var b, s := Get(nb, x), Get(ns, x);
    assert 0.0 <= b <= 1.0 && 0.0 <= s <= 1.0;
    assert x !in ns ==> s == 0.0;
    assert x !in nb ==> b == 0.0;
    WeightedInUnit(wb, ws, b, s);
    assert Mix(nb, ns, wb, ws, x) == wb * b + ws * s;
  }

  /** With non-negative weights summing to at most one and both sides in [0, 1],
      every fused score lies in [0, 1], and an id that one side lacks gets
      at most the other side's weight. */
  lemma FusedInUnit(nb: map<Id, real>, ns: map<Id, real>, wb: real, ws: real, ids: set<Id>)
    requires InUnit(nb) && InUnit(ns) && wb >= 0.0 && ws >= 0.0 && wb + ws <= 1.0
    ensures InUnit(Fused(nb, ns, wb, ws, ids))
    ensures forall x :: x in ids && x !in ns ==> Fused(nb, ns, wb, ws, ids)[x] <= wb
    ensures forall x :: x in ids && x !in nb ==> Fused(nb, ns, wb, ws, ids)[x] <= ws
  {
    forall x | x in ids
      ensures 0.0 <= Mix(nb, ns, wb, ws, x) <= 1.0
      ensures x !in ns ==> Mix(nb, ns, wb, ws, x) <= wb
      ensures x !in nb ==> Mix(nb, ns, wb, ws, x) <= ws
    {
      MixInUnit(nb, ns, wb, ws, x);
    }
  }

  /** The fused scores of two pools: both normalised, 0.5 each, over the
      union of their keys. */
  function FusionOf(b: Pool, s: Pool): (m: map<Id, real>)
    requires Valid(b) && Valid(s)
    ensures m.Keys == b.score.Keys + s.score.Keys
  {
    Fused(Normalize(b).score, Normalize(s).score, Half, Half, b.score.Keys + s.score.Keys)
  }

  /** Every fused score of two pools lies in [0, 1]. */
  lemma FusionInUnit(b: Pool, s: Pool)
    requires Valid(b) && Valid(s)
    ensures InUnit(FusionOf(b, s))
  {
    NormalizeInUnit(b);
    NormalizeInUnit(s);
    FusedInUnit(Normalize(b).score, Normalize(s).score, Half, Half, b.score.Keys + s.score.Keys);
  }

  /** The combining loop over the union, in whatever order the set yields. */
  method Combine(nb: map<Id, real>, ns: map<Id, real>, wb: real, ws: real, ids: set<Id>)
    returns (combined: map<Id, real>)
    ensures combined == Fused(nb, ns, wb, ws, ids)
  {
    combined := map[];
    var rest := ids;
    while rest != {}
      invariant rest <= ids
      invariant combined.Keys == ids - rest
      invariant forall x :: x in combined ==> combined[x] == Mix(nb, ns, wb, ws, x)
      decreases rest
    {
      var oid :| oid in rest;
      var b := Get(nb, oid);
      var s := Get(ns, oid);
      combined := combined[oid := wb * b + ws * s];
      assert combined[oid] == Mix(nb, ns, wb, ws, oid);
      rest := rest - {oid};
    }
  }

  // ---------------------------------------------------------------------
  // The circuit breaker

  /** The top/second ratio, `inf` when there is no usable second score. */
  datatype Ratio = Infinite | Finite(value: real)

  /** The ratio of a list of scores sorted from high to low. */
  function BreakerRatio(sorted: seq<real>): Ratio
  {
    if |sorted| <= 1 then Infinite
    else if sorted[1] > 0.0 then Finite(sorted[0] / sorted[1])
    else Infinite
  }

  /** `ratio >= self._cb_threshold`; `inf` passes any threshold. */
  predicate Fires(r: Ratio, threshold: real)
  {
    r.Infinite? || r.value >= threshold
  }

  /** A non-increasing list of scores. */
  predicate Descending(s: seq<real>)
  {
    forall i, j :: 0 <= i < j < |s| ==> s[i] >= s[j]
  }

  /** On sorted scores the ratio is infinite exactly when there is one
      score or the second one is not positive; otherwise it is at least 1,
      so a threshold of at most 1 always fires. */
  lemma RatioAtLeastOne(sorted: seq<real>)
    requires Descending(sorted) && sorted != []
    ensures BreakerRatio(sorted).Infinite? <==> |sorted| == 1 || sorted[1] <= 0.0
    ensures BreakerRatio(sorted).Finite? ==> BreakerRatio(sorted).value >= 1.0
    ensures forall t :: t <= 1.0 ==> Fires(BreakerRatio(sorted), t)
  {
    if |sorted| > 1 && sorted[1] > 0.0 {
      var q := sorted[0] / sorted[1];
      assert q * sorted[1] == sorted[0];
      assert (q - 1.0) * sorted[1] == sorted[0] - sorted[1];
    }
  }

  /** With a positive second score the breaker fires exactly when the top
      score is at least `threshold` times the second. */
  lemma FiresAtThreshold(sorted: seq<real>, threshold: real)
    ensures Fires(BreakerRatio(sorted), threshold) <==>
      |sorted| <= 1 || sorted[1] <= 0.0 || sorted[0] >= threshold * sorted[1]
  {
    if |sorted| > 1 && sorted[1] > 0.0 {
      var q := sorted[0] / sorted[1];
      assert q * sorted[1] == sorted[0];
      assert (q - threshold) * sorted[1] == sorted[0] - threshold * sorted[1];
    }
  }

  /** Under the default threshold a top score of 13 over a second of 10
      fires the breaker, and 12 over 10 does not. */
  lemma DefaultThresholdBand()
    ensures Fires(BreakerRatio([13.0, 10.0]), DefaultThreshold)
    ensures !Fires(BreakerRatio([12.0, 10.0]), DefaultThreshold)
  {
    FiresAtThreshold([13.0, 10.0], DefaultThreshold);
    FiresAtThreshold([12.0, 10.0], DefaultThreshold);
  }

  /** When the second score is 0 (for instance, a pool of only zero
      scores) the ratio is infinite and the breaker fires for any
      threshold. */
  lemma ZeroSecondFires(sorted: seq<real>, threshold: real)
    requires |sorted| >= 2 && sorted[1] == 0.0
    ensures Fires(BreakerRatio(sorted), threshold)
  {
  }

  // ---------------------------------------------------------------------
  // The pools

  /** The loop filling a pool dict from a ranked list of ids. */
  method FillPool(ranked: seq<Id>, score: map<Id, real>) returns (p: Pool)
    requires Distinct(ranked) && forall i :: 0 <= i < |ranked| ==> ranked[i] in score
    ensures Valid(p) && p.keys == ranked
    ensures forall k :: k in p.score ==> k in score && p.score[k] == score[k]
  {
    p := EmptyPool;
    for i := 0 to |ranked|
      invariant Valid(p) && p.keys == ranked[..i]
      invariant forall k :: k in p.score ==> k in score && p.score[k] == score[k]
    {
      assert ranked[..i + 1] == ranked[..i] + [ranked[i]];
      p := Put(p, ranked[i], score[ranked[i]]);
    }
    assert ranked[..|ranked|] == ranked;
  }

  /** The BM25 pool: the positive-score ids of a BM25 top 100, in rank
      order, with their scores. */
  ghost predicate IsBm25Pool(p: Pool, ids: seq<Id>, bm25: seq<real>)
    requires Distinct(ids) && |ids| == |bm25|
  {
    && Valid(p)
    && IsPositiveTopK(p.keys, Elems(ids), ScoreMap(ids, bm25), PoolSize)
    && forall k :: k in p.score ==> k in Elems(ids) && p.score[k] == ScoreMap(ids, bm25)[k]
  }

  /** The semantic pool: a top 100 by similarity, with no score filter. */
  ghost predicate IsSemPool(p: Pool, ids: seq<Id>, cos: seq<real>)
    requires Distinct(ids) && |ids| == |cos|
  {
    && Valid(p)
    && IsTopK(p.keys, Elems(ids), ScoreMap(ids, cos), PoolSize)
    && forall k :: k in p.score ==> k in Elems(ids) && p.score[k] == ScoreMap(ids, cos)[k]
  }

  /** The BM25 pool holds at most 100 ids, all with positive scores, and
      its values are already in descending order, so they are what
      `sorted(bm25_pool.values(), reverse=True)` gives. */
  lemma Bm25PoolFacts(p: Pool, ids: seq<Id>, bm25: seq<real>)
    requires Distinct(ids) && |ids| == |bm25| && IsBm25Pool(p, ids, bm25)
    ensures |p.keys| <= PoolSize
    ensures forall k :: k in p.score ==> p.score[k] > 0.0
    ensures Descending(Vals(p))
    ensures p.keys != [] ==> (BreakerRatio(Vals(p)).Infinite? <==> |p.keys| == 1)
  {
    forall k | k in p.score ensures p.score[k] > 0.0 {
      var i :| 0 <= i < |p.keys| && p.keys[i] == k;
    }
    if |p.keys| > 1 {
      assert p.keys[1] in p.score;
    }
  }

  /** Steps 1-3: the token check, the BM25 pool and the breaker. `done`
      says the search ends here with `r`. */
  method Bm25Stage(query: string, ids: seq<Id>, bm25: seq<real>, threshold: real, topK: nat)
    returns (r: seq<Id>, pool: Pool, done: bool)
    requires Distinct(ids) && |ids| == |bm25|
    ensures Tokenize(query) == [] ==> done && r == [] && pool == EmptyPool
    ensures Tokenize(query) != [] ==> IsBm25Pool(pool, ids, bm25)
    ensures Tokenize(query) != [] ==> (done <==> pool.keys == [] || Fires(BreakerRatio(Vals(pool)), threshold))
    ensures Tokenize(query) != [] && pool.keys == [] ==> r == []
    ensures Tokenize(query) != [] && pool.keys != [] && done ==> IsTopK(r, pool.score.Keys, pool.score, topK)
  {
    if Tokenize(query) == [] {
      return [], EmptyPool, true;
    }
    var score := ScoreMap(ids, bm25);
    var ranked := PositiveTopK(Elems(ids), score, PoolSize);
    pool := FillPool(ranked, score);
    if pool.keys == [] {
      return [], pool, true;
    }
    var sorted := Vals(pool);
    var ratio := BreakerRatio(sorted);
    done := Fires(ratio, threshold);
    r := [];
    if done {
      r := RankTop(pool.score.Keys, pool.score, topK);
    }
  }

  /** Steps 5-9: the semantic pool, normalisation of both pools, the
      0.5/0.5 fusion over their union, and the top `k` of it. */
  method FuseStage(bmPool: Pool, semIds: seq<Id>, cos: seq<real>, topK: nat) returns (r: seq<Id>, semPool: Pool)
    requires Valid(bmPool) && Distinct(semIds) && |semIds| == |cos|
    ensures IsSemPool(semPool, semIds, cos)
    ensures IsTopK(r, bmPool.score.Keys + semPool.score.Keys, FusionOf(bmPool, semPool), topK)
  {
    var score := ScoreMap(semIds, cos);
    var ranked := RankTop(Elems(semIds), score, PoolSize);
    semPool := FillPool(ranked, score);
    var allIds := bmPool.score.Keys + semPool.score.Keys;
    var normBm := Normalize(bmPool);
    var normSem := Normalize(semPool);
    var combined := Combine(normBm.score, normSem.score, Half, Half, allIds);
    r := RankTop(allIds, combined, topK);
  }

  /** `ScoreFusionV1.search`. `cos[i]` is the similarity of the query to
      `semIds[i]`, which the source obtains from the embedding service only
      when `embedded` is set. */
  method SearchV1(query: string, ids: seq<Id>, bm25: seq<real>, semIds: seq<Id>, cos: seq<real>,
                  threshold: real, topK: nat)
    returns (r: seq<Id>, bmPool: Pool, semPool: Pool, embedded: bool)
    requires Distinct(ids) && |ids| == |bm25| && Distinct(semIds) && |semIds| == |cos|
    ensures embedded ==> Tokenize(query) != [] && bmPool.keys != []
    ensures Tokenize(query) == [] ==> r == []
    ensures Tokenize(query) != [] ==> IsBm25Pool(bmPool, ids, bm25)
    ensures Tokenize(query) != [] && bmPool.keys == [] ==> r == []
    ensures Tokenize(query) != [] && bmPool.keys != [] ==> (embedded <==> !Fires(BreakerRatio(Vals(bmPool)), threshold))
    ensures Tokenize(query) != [] && bmPool.keys != [] && !embedded ==> IsTopK(r, bmPool.score.Keys, bmPool.score, topK)
    ensures embedded ==> IsSemPool(semPool, semIds, cos)
    ensures embedded ==> IsTopK(r, bmPool.score.Keys + semPool.score.Keys, FusionOf(bmPool, semPool), topK)
  {
    var done;
    r, bmPool, done := Bm25Stage(query, ids, bm25, threshold, topK);
    semPool := EmptyPool;
    embedded := !done;
    if !done {
      r, semPool := FuseStage(bmPool, semIds, cos, topK);
    }
  }

  /** `ScoreFusionMultiVec.search`: the same pipeline, with the semantic
      scores of the master index merged from the qa, facts and analysis
      similarities. */
  method SearchMultiVec(query: string, ids: seq<Id>, bm25: seq<real>, master: seq<Id>,
                        qa: seq<real>, facts: seq<real>, fmap: seq<nat>, analysis: seq<real>, amap: seq<nat>,
                        threshold: real, topK: nat)
    returns (r: seq<Id>, bmPool: Pool, semPool: Pool, embedded: bool)
    requires Distinct(ids) && |ids| == |bm25| && Distinct(master) && |master| == |qa|
    requires MultiVector.Fits(fmap, facts, |qa|) && MultiVector.Fits(amap, analysis, |qa|)
    ensures embedded ==> Tokenize(query) != [] && bmPool.keys != []
    ensures Tokenize(query) == [] ==> r == []
    ensures Tokenize(query) != [] ==> IsBm25Pool(bmPool, ids, bm25)
    ensures Tokenize(query) != [] && bmPool.keys == [] ==> r == []
    ensures Tokenize(query) != [] && bmPool.keys != [] ==> (embedded <==> !Fires(BreakerRatio(Vals(bmPool)), threshold))
    ensures Tokenize(query) != [] && bmPool.keys != [] && !embedded ==> IsTopK(r, bmPool.score.Keys, bmPool.score, topK)
    ensures embedded ==> IsSemPool(semPool, master, MultiVector.MultiScores(qa, facts, fmap, analysis, amap))
    ensures embedded ==> IsTopK(r, bmPool.score.Keys + semPool.score.Keys, FusionOf(bmPool, semPool), topK)
  {
    var done;
    r, bmPool, done := Bm25Stage(query, ids, bm25, threshold, topK);
    semPool := EmptyPool;
    embedded := !done;
    if !done {
      var scores := MultiVector.ScatterMaxScores(qa, facts, fmap, analysis, amap);
      r, semPool := FuseStage(bmPool, master, scores[..], topK);
    }
  }
}
