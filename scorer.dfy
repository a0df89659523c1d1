/** The evaluation harness: MRR, nDCG@k, Precision@k and Recall@k of one
    ranked result list against graded relevance judgments, the first-occurrence
    dedup applied to an engine's results, the mean over queries, and the
    filter that drops queries without judgments. */
module Scorer {
  import opened Ranking

  /** One relevance judgment: a document and its grade (0, 1 or 2). */
  datatype Judged = Judged(doc: Id, grade: int)

  /** A judgments dictionary, as its entries in insertion order. */
  type Judgments = seq<Judged>

  /** A dictionary has each document at most once. */
  predicate IsDict(j: Judgments)
  {
    forall a, b :: 0 <= a < b < |j| ==> j[a].doc != j[b].doc
  }

  /** `judgments.get(doc, 0)`: unjudged documents have grade 0. */
  function Grade(j: Judgments, d: Id): (g: int)
    ensures (forall e :: e in j ==> e.doc != d) ==> g == 0
    ensures g != 0 ==> Judged(d, g) in j
  {
    if j == [] then 0 else if j[0].doc == d then j[0].grade else Grade(j[1..], d)
  }

  /** `results[:k]`. */
  function Top(results: seq<Id>, k: nat): (t: seq<Id>)
    ensures |t| <= k && t <= results
  {
    results[..Min(k, |results|)]
  }

  // ---------------------------------------------------------------------
  // compute_mrr

  /** The position of the first result of grade 2, or `|results|`. */
  function FirstHit(results: seq<Id>, j: Judgments): (i: nat)
    ensures i <= |results|
    ensures forall t :: 0 <= t < i ==> Grade(j, results[t]) != 2
    ensures i < |results| ==> Grade(j, results[i]) == 2
  {
    if results == [] then 0
    else if Grade(j, results[0]) == 2 then 0
    else 1 + FirstHit(results[1..], j)
  }

  /** The reciprocal rank: `1 / r` for the first result of grade 2 at rank
      `r`, else 0. It is 0 exactly when no result has grade 2; grade-1
      results never count. */
  function Mrr(results: seq<Id>, j: Judgments): (m: real)
    ensures 0.0 <= m <= 1.0
    ensures m == 0.0 <==> forall t :: 0 <= t < |results| ==> Grade(j, results[t]) != 2
  {
    var i := FirstHit(results, j);
    if i < |results| then 1.0 / ((i + 1) as real) else 0.0
  }

  method ComputeMrr(results: seq<Id>, j: Judgments) returns (m: real)
    ensures m == Mrr(results, j)
  {
    for rank := 1 to |results| + 1
      invariant forall t :: 0 <= t < rank - 1 ==> Grade(j, results[t]) != 2
    {
      if Grade(j, results[rank - 1]) == 2 {
        return 1.0 / (rank as real);
      }
    }
    return 0.0;
  }

  // ---------------------------------------------------------------------
  // compute_precision and compute_recall

  /** The number of entries of `s` of grade at least 1, repeats included. */
  function CountRelevant(s: seq<Id>, j: Judgments): (n: nat)
    ensures n <= |s|
  {
    if s == [] then 0
    else CountRelevant(s[..|s| - 1], j) + (if Grade(j, s[|s| - 1]) >= 1 then 1 else 0)
  }

  lemma RatioInUnit(a: nat, b: nat)
    requires a <= b && b > 0
    ensures 0.0 <= (a as real) / (b as real) <= 1.0
  {
    assert (a as real) / (b as real) * (b as real) == a as real;
  }

  /** Relevant results among the first `k`, divided by `k` even when fewer
      results were returned. */
  function Precision(results: seq<Id>, j: Judgments, k: nat): (p: real)
    requires k > 0
    ensures 0.0 <= p <= 1.0
  {
    var n := CountRelevant(Top(results, k), j);
    RatioInUnit(n, k);
    (n as real) / (k as real)
  }

  lemma CountRelevantSnoc(s: seq<Id>, j: Judgments, i: nat)
    requires i < |s|
    ensures Grade(j, s[i]) >= 1 ==> CountRelevant(s[..i + 1], j) == CountRelevant(s[..i], j) + 1
    ensures Grade(j, s[i]) < 1 ==> CountRelevant(s[..i + 1], j) == CountRelevant(s[..i], j)
  {
    assert s[..i + 1][..i] == s[..i];
  }

  /** The loop over `results[:k]` counting grade-1-or-better results. */
  method CountTop(results: seq<Id>, j: Judgments, k: nat) returns (n: nat)
    ensures n == CountRelevant(Top(results, k), j)
  {
    var top := Top(results, k);
    n := 0;
    for i := 0 to |top|
      invariant n == CountRelevant(top[..i], j)
    {
      CountRelevantSnoc(top, j, i);
      if Grade(j, top[i]) >= 1 {
        n := n + 1;
      }
    }
    assert top[..|top|] == top;
  }

  /** Division by zero for `k = 0` is the caller's to avoid. */
  method ComputePrecision(results: seq<Id>, j: Judgments, k: nat) returns (p: real)
    requires k > 0
    ensures p == Precision(results, j, k)
  {
    var relevantCount := CountTop(results, j, k);
    p := (relevantCount as real) / (k as real);
  }

  /** The number of judged documents of grade at least 1. */
  function TotalRelevant(j: Judgments): (n: nat)
    ensures n <= |j|
  {
    if j == [] then 0 else TotalRelevant(j[..|j| - 1]) + (if j[|j| - 1].grade >= 1 then 1 else 0)
  }

  /** Relevant results found among the first `k` over all relevant judged
      documents; 0 when nothing is relevant. */
  function Recall(results: seq<Id>, j: Judgments, k: nat): (r: real)
    ensures TotalRelevant(j) == 0 ==> r == 0.0
  {
    var total := TotalRelevant(j);
    if total == 0 then 0.0 else (CountRelevant(Top(results, k), j) as real) / (total as real)
  }

  method ComputeRecall(results: seq<Id>, j: Judgments, k: nat) returns (r: real)
    ensures r == Recall(results, j, k)
  {
    var totalRelevant := TotalRelevant(j);
    if totalRelevant == 0 {
      return 0.0;
    }
    var found := CountTop(results, j, k);
    r := (found as real) / (totalRelevant as real);
  }

  /** The relevant documents among `s`, and among the judgments. */
  function RelevantIn(s: seq<Id>, j: Judgments): set<Id>
  {
    set d | d in s && Grade(j, d) >= 1
  }

  function RelevantDocs(j: Judgments): set<Id>
  {
    set e | e in j && e.grade >= 1 :: e.doc
  }

  lemma {:induction false} CountRelevantDistinct(s: seq<Id>, j: Judgments)
    requires Distinct(s)
    ensures CountRelevant(s, j) == |RelevantIn(s, j)|
  {
    if s != [] {
      var p, x := s[..|s| - 1], s[|s| - 1];
      LastFresh(s);
      CountRelevantDistinct(p, j);
      RelevantInSnoc(p, x, j);
      assert s == p + [x];
    }
  }

  /** Without repeats, the prefix keeps that property and the last entry is
      not in it. */
  lemma LastFresh(s: seq<Id>)
    requires Distinct(s) && s != []
    ensures Distinct(s[..|s| - 1]) && s[|s| - 1] !in s[..|s| - 1]
  {
  }

  lemma RelevantInSnoc(p: seq<Id>, x: Id, j: Judgments)
    ensures Grade(j, x) >= 1 ==> RelevantIn(p + [x], j) == RelevantIn(p, j) + {x}
    ensures Grade(j, x) < 1 ==> RelevantIn(p + [x], j) == RelevantIn(p, j)
  {
    assert forall d :: d in p + [x] <==> d in p || d == x;
  }

  lemma {:induction false} TotalRelevantDocs(j: Judgments)
    requires IsDict(j)
    ensures TotalRelevant(j) == |RelevantDocs(j)|
  {
    if j != [] {
      DictPrefix(j);
      TotalRelevantDocs(j[..|j| - 1]);
      RelevantDocsLast(j);
    }
  }

  /** Each dict entry adds its document to the relevant set at most once. */
  lemma RelevantDocsLast(j: Judgments)
    requires IsDict(j) && j != []
    ensures |RelevantDocs(j)| == |RelevantDocs(j[..|j| - 1])| + (if j[|j| - 1].grade >= 1 then 1 else 0)
  {
    var p, e := j[..|j| - 1], j[|j| - 1];
    LastDocFresh(j);
    RelevantDocsSnoc(p, e);
    assert j == p + [e];
  }

  lemma DictPrefix(j: Judgments)
    requires IsDict(j) && j != []
    ensures IsDict(j[..|j| - 1])
  {
  }

  /** In a dict-like list the last document is judged nowhere before. */
  lemma LastDocFresh(j: Judgments)
    requires IsDict(j) && j != []
    ensures j[|j| - 1].doc !in RelevantDocs(j[..|j| - 1])
  {
    var p := j[..|j| - 1];
    forall f | f in p ensures f.doc != j[|j| - 1].doc {
      var a :| 0 <= a < |p| && p[a] == f;
      assert j[a] == f;
    }
  }

  lemma RelevantDocsSnoc(p: Judgments, e: Judged)
    ensures e.grade >= 1 ==> RelevantDocs(p + [e]) == RelevantDocs(p) + {e.doc}
    ensures e.grade < 1 ==> RelevantDocs(p + [e]) == RelevantDocs(p)
  {
    assert forall f :: f in p + [e] <==> f in p || f == e;
  }

  lemma SubsetCard<T>(a: set<T>, b: set<T>)
    requires a <= b
    ensures |a| <= |b|
  {
    assert b == a + (b - a);
  }

  /** For results without repeats, recall never exceeds 1. */
  lemma RecallInUnit(results: seq<Id>, j: Judgments, k: nat)
    requires Distinct(results) && IsDict(j)
    ensures 0.0 <= Recall(results, j, k) <= 1.0
  {
    var top := Top(results, k);
    if TotalRelevant(j) > 0 {
      CountRelevantDistinct(top, j);
      TotalRelevantDocs(j);
      forall d | d in RelevantIn(top, j) ensures d in RelevantDocs(j) {
        assert Judged(d, Grade(j, d)) in j;
      }
      SubsetCard(RelevantIn(top, j), RelevantDocs(j));
      RatioInUnit(CountRelevant(top, j), TotalRelevant(j));
    }
  }

  // ---------------------------------------------------------------------
  // compute_ndcg

  /** The discount `log2(i + 2)` is positive at every rank. */
  ghost predicate PositiveDiscounts(log2: real -> real)
  {
    forall x: real :: x >= 2.0 ==> log2(x) > 0.0
  }

  /** `sum(scores[i] / log2(i + 2))` over all positions of `s`. */
  function DcgSum(s: seq<int>, log2: real -> real): real
    requires PositiveDiscounts(log2)
  {
    if s == [] then 0.0
    else DcgSum(s[..|s| - 1], log2) + (s[|s| - 1] as real) / log2((|s| + 1) as real)
  }

  /** The inner `dcg(scores, n)`. */
  function Dcg(scores: seq<int>, n: nat, log2: real -> real): real
    requires PositiveDiscounts(log2)
  {
    DcgSum(scores[..Min(n, |scores|)], log2)
  }

  /** `[judgments.get(doc_id, 0) for doc_id in rs]`. */
  function Grades(rs: seq<Id>, j: Judgments): (g: seq<int>)
    ensures |g| == |rs| && forall i :: 0 <= i < |rs| ==> g[i] == Grade(j, rs[i])
  {
    seq(|rs|, i requires 0 <= i < |rs| => Grade(j, rs[i]))
  }

  /** `judgments.values()`. */
  function Values(j: Judgments): (v: seq<int>)
    ensures |v| == |j| && forall i :: 0 <= i < |j| ==> v[i] == j[i].grade
  {
    seq(|j|, i requires 0 <= i < |j| => j[i].grade)
  }

  predicate SortedDesc(s: seq<int>)
  {
    forall a, b :: 0 <= a < b < |s| ==> s[a] >= s[b]
  }

  function InsertInt(s: seq<int>, x: int): (r: seq<int>)
  {
    if s == [] || s[0] <= x then [x] + s else [s[0]] + InsertInt(s[1..], x)
  }

  lemma {:induction false} InsertIntBag(s: seq<int>, x: int)
    ensures multiset(InsertInt(s, x)) == multiset(s) + multiset{x}
  {
    if s != [] && s[0] > x {
      InsertIntBag(s[1..], x);
      assert s == [s[0]] + s[1..];
    }
  }

  lemma {:induction false} InsertIntSorted(s: seq<int>, x: int)
    requires SortedDesc(s)
    ensures SortedDesc(InsertInt(s, x)) && multiset(InsertInt(s, x)) == multiset(s) + multiset{x}
    decreases |s|, 1
  {
    InsertIntBag(s, x);
    if s == [] || s[0] <= x {
      var r := [x] + s;
      forall a, b | 0 <= a < b < |r| ensures r[a] >= r[b] {
        if a == 0 && b > 1 {
          assert s[0] >= s[b - 1];
        }
      }
    } else {
      InsertIntTail(s, x);
    }
  }

  lemma {:induction false} InsertIntTail(s: seq<int>, x: int)
    requires SortedDesc(s) && s != [] && s[0] > x
    ensures SortedDesc(InsertInt(s, x))
    decreases |s|, 0
  {
    var t := InsertInt(s[1..], x);
    InsertIntSorted(s[1..], x);
    var r := [s[0]] + t;
    forall y | y in t ensures y <= s[0] {
      assert y in multiset(t);
      if y != x {
        assert y in multiset(s[1..]);
        var i :| 0 <= i < |s[1..]| && s[1..][i] == y;
        assert s[i + 1] == y;
      }
    }
    forall a, b | 0 <= a < b < |r| ensures r[a] >= r[b] {
      if a == 0 {
        assert r[b] == t[b - 1] && t[b - 1] in t;
      } else {
        assert r[a] == t[a - 1] && r[b] == t[b - 1];
      }
    }
  }

  /** `sorted(values, reverse=True)`: the same numbers, in non-increasing order. */
  function SortDesc(s: seq<int>): (r: seq<int>)
    ensures SortedDesc(r) && multiset(r) == multiset(s)
  {
    if s == [] then []
    else
      assert s == s[..|s| - 1] + [s[|s| - 1]];
      InsertIntSorted(SortDesc(s[..|s| - 1]), s[|s| - 1]);
      InsertInt(SortDesc(s[..|s| - 1]), s[|s| - 1])
  }

  /** DCG of the first `k` results over the DCG of the ideal grades: all
      judged grades sorted non-increasing, whatever was returned; 0 when the
      ideal DCG is 0. */
  function Ndcg(results: seq<Id>, j: Judgments, k: nat, log2: real -> real): real
    requires PositiveDiscounts(log2)
  {
    var dcg := Dcg(Grades(Top(results, k), j), k, log2);
    var idcg := Dcg(SortDesc(Values(j)), k, log2);
    if idcg == 0.0 then 0.0 else dcg / idcg
  }

  lemma DcgSumSnoc(s: seq<int>, i: nat, log2: real -> real)
    requires PositiveDiscounts(log2) && i < |s|
    ensures DcgSum(s[..i + 1], log2) == DcgSum(s[..i], log2) + (s[i] as real) / log2((i + 2) as real)
  {
    assert s[..i + 1][..i] == s[..i];
  }

  /** The loop `total += scores[i] / log2(i + 2)`. */
  method DcgLoop(scores: seq<int>, n: nat, log2: real -> real) returns (total: real)
    requires PositiveDiscounts(log2)
    ensures total == Dcg(scores, n, log2)
  {
    total := 0.0;
    var m := Min(n, |scores|);
    for i := 0 to m
      invariant total == DcgSum(scores[..i], log2)
    {
      DcgSumSnoc(scores, i, log2);
      total := total + (scores[i] as real) / log2((i + 2) as real);
    }
  }

  method ComputeNdcg(results: seq<Id>, j: Judgments, k: nat, log2: real -> real) returns (r: real)
    requires PositiveDiscounts(log2)
    ensures r == Ndcg(results, j, k, log2)
  {
    var actualScores := Grades(Top(results, k), j);
    var dcgVal := DcgLoop(actualScores, k, log2);
    var idealScores := SortDesc(Values(j));
    var idcgVal := DcgLoop(idealScores, k, log2);
    if idcgVal == 0.0 {
      return 0.0;
    }
    r := dcgVal / idcgVal;
  }

  /** A ranking whose first `k` grades are the ideal ones scores 1, as long
      as something is relevant. */
  lemma NdcgIdealIsOne(results: seq<Id>, j: Judgments, k: nat, log2: real -> real)
    requires PositiveDiscounts(log2)
    requires Grades(Top(results, k), j) == HeadOf(SortDesc(Values(j)), k)
    requires Dcg(SortDesc(Values(j)), k, log2) != 0.0
    ensures Ndcg(results, j, k, log2) == 1.0
  {
    var g := Grades(Top(results, k), j);
    var ideal := SortDesc(Values(j));
    assert g[..Min(k, |g|)] == g;
    var x := DcgSum(g, log2);
    assert Dcg(g, k, log2) == x;
    assert Dcg(ideal, k, log2) == x;
    assert x / x == 1.0;
  }

  /** `s[:k]` for a grade list. */
  function HeadOf(s: seq<int>, k: nat): seq<int>
  {
    s[..Min(k, |s|)]
  }

  lemma {:induction false} DcgSumZero(s: seq<int>, log2: real -> real)
    requires PositiveDiscounts(log2) && forall i :: 0 <= i < |s| ==> s[i] == 0
    ensures DcgSum(s, log2) == 0.0
  {
    if s != [] {
      DcgSumZero(s[..|s| - 1], log2);
    }
  }

  lemma {:induction false} DcgSumNonNegative(s: seq<int>, log2: real -> real)
    requires PositiveDiscounts(log2) && forall i :: 0 <= i < |s| ==> s[i] >= 0
    ensures DcgSum(s, log2) >= 0.0
  {
    if s != [] {
      DcgSumNonNegative(s[..|s| - 1], log2);
      var d := log2((|s| + 1) as real);
      assert (s[|s| - 1] as real) / d >= 0.0;
    }
  }

  /** With every judged grade 0, nDCG is 0 whatever the ranking. */
  lemma NdcgNoRelevant(results: seq<Id>, j: Judgments, k: nat, log2: real -> real)
    requires PositiveDiscounts(log2)
    requires forall e :: e in j ==> e.grade == 0
    ensures Ndcg(results, j, k, log2) == 0.0
  {
    var ideal := SortDesc(Values(j));
    forall i | 0 <= i < |ideal| ensures ideal[i] == 0 {
      assert ideal[i] in multiset(Values(j));
    }
    DcgSumZero(ideal[..Min(k, |ideal|)], log2);
  }

  /** With non-negative grades, nDCG is non-negative. */
  lemma NdcgNonNegative(results: seq<Id>, j: Judgments, k: nat, log2: real -> real)
    requires PositiveDiscounts(log2)
    requires forall e :: e in j ==> e.grade >= 0
    ensures Ndcg(results, j, k, log2) >= 0.0
  {
    var g := Grades(Top(results, k), j);
    var ideal := SortDesc(Values(j));
    GradesNonNegative(Top(results, k), j);
    IdealNonNegative(j);
    DcgSumNonNegative(g[..Min(k, |g|)], log2);
    DcgSumNonNegative(ideal[..Min(k, |ideal|)], log2);
    var dcg, idcg := Dcg(g, k, log2), Dcg(ideal, k, log2);
    if idcg != 0.0 {
      assert dcg / idcg >= 0.0;
    }
  }

  lemma GradesNonNegative(rs: seq<Id>, j: Judgments)
    requires forall e :: e in j ==> e.grade >= 0
    ensures forall i :: 0 <= i < |rs| ==> Grades(rs, j)[i] >= 0
  {
    forall i | 0 <= i < |rs| ensures Grade(j, rs[i]) >= 0 {
      if Grade(j, rs[i]) != 0 {
        assert Judged(rs[i], Grade(j, rs[i])) in j;
      }
    }
  }

  lemma IdealNonNegative(j: Judgments)
    requires forall e :: e in j ==> e.grade >= 0
    ensures forall i :: 0 <= i < |SortDesc(Values(j))| ==> SortDesc(Values(j))[i] >= 0
  {
    var ideal := SortDesc(Values(j));
    forall i | 0 <= i < |ideal| ensures ideal[i] >= 0 {
      assert ideal[i] in multiset(Values(j));
      var t :| 0 <= t < |j| && Values(j)[t] == ideal[i];
      assert j[t] in j;
    }
  }

  // ---------------------------------------------------------------------
  // evaluate_query: the dedup of the engine's results.

  /** Keep the first occurrence of each id, in order. */
  method DedupResults(results: seq<Id>) returns (deduped: seq<Id>)
    ensures deduped == Dedup(results)
  {
    var seen: set<Id> := {};
    deduped := [];
    for i := 0 to |results|
      invariant deduped == Dedup(results[..i]) && seen == Elems(results[..i])
    {
      assert results[..i + 1][..i] == results[..i];
      var docId := results[i];
      if docId !in seen {
        seen := seen + {docId};
        deduped := deduped + [docId];
      }
    }
    assert results[..|results|] == results;
  }

  /** The deduplicated results have no repeats, the same ids, and list each
      id once, in the order of its first occurrence in the engine's results.
      These clauses fix the result: a repeat-free list of the same ids has
      one order by first occurrence. */
  lemma DedupPromises(results: seq<Id>)
    ensures Distinct(Dedup(results))
    ensures Elems(Dedup(results)) == Elems(results)
    ensures IsSubseq(Dedup(results), results)
    ensures forall i, j :: 0 <= i < j < |Dedup(results)| ==>
      FirstIndex(results, Dedup(results)[i]) < FirstIndex(results, Dedup(results)[j])
  {
    DedupDistinct(results);
    DedupElems(results);
    DedupSubseq(results);
    DedupFirstOrder(results);
  }

  // ---------------------------------------------------------------------
  // aggregate_metrics

  /** The metrics of one query, by name. */
  type MetricRow = map<string, real>

  function Sum(vs: seq<real>): real
  {
    if vs == [] then 0.0 else Sum(vs[..|vs| - 1]) + vs[|vs| - 1]
  }

  function Mean(vs: seq<real>): real
    requires |vs| > 0
  {
    Sum(vs) / (|vs| as real)
  }

  /** `[qr["metrics"][key] for qr in rows]`. */
  function Column(rows: seq<MetricRow>, key: string): (vs: seq<real>)
    requires forall i :: 0 <= i < |rows| ==> key in rows[i]
    ensures |vs| == |rows|
  {
    seq(|rows|, i requires 0 <= i < |rows| => rows[i][key])
  }

  /** Nothing for no queries; otherwise every metric of the first query,
      mapped to its mean over all queries, each of which must have it. */
  method AggregateMetrics(rows: seq<MetricRow>) returns (agg: map<string, real>)
    requires forall i :: 0 <= i < |rows| ==> rows[0].Keys <= rows[i].Keys
    ensures rows == [] ==> agg == map[]
    ensures rows != [] ==> agg.Keys == rows[0].Keys
    ensures rows != [] ==> forall key :: key in agg ==> agg[key] == Mean(Column(rows, key))
  {
    if rows == [] {
      return map[];
    }
    agg := map[];
    var keys := rows[0].Keys;
    while keys != {}
      invariant keys <= rows[0].Keys
      invariant agg.Keys == rows[0].Keys - keys
      invariant forall key :: key in agg ==> agg[key] == Mean(Column(rows, key))
      decreases keys
    {
      var key :| key in keys;
      var values := Column(rows, key);
      agg := agg[key := Sum(values) / (|values| as real)];
      keys := keys - {key};
    }
  }

  lemma {:induction false} SumBounds(vs: seq<real>, lo: real, hi: real)
    requires forall i :: 0 <= i < |vs| ==> lo <= vs[i] <= hi
    ensures (|vs| as real) * lo <= Sum(vs) <= (|vs| as real) * hi
  {
    if vs != [] {
      SumBounds(vs[..|vs| - 1], lo, hi);
    }
  }

  /** A mean lies between the smallest and the largest value. */
  lemma MeanBounds(vs: seq<real>, lo: real, hi: real)
    requires |vs| > 0 && forall i :: 0 <= i < |vs| ==> lo <= vs[i] <= hi
    ensures lo <= Mean(vs) <= hi
  {
    SumBounds(vs, lo, hi);
    var n := |vs| as real;
    assert Mean(vs) * n == Sum(vs);
  }

  // ---------------------------------------------------------------------
  // load_dataset

  /** A query of the dataset; a missing `relevance_judgments` is an empty one. */
  datatype Query = Query(id: string, text: string, judgments: seq<Judged>)

  function WithJudgments(qs: seq<Query>): (kept: seq<Query>)
    ensures |kept| <= |qs|
  {
    if qs == [] then []
    else if qs[|qs| - 1].judgments == [] then WithJudgments(qs[..|qs| - 1])
    else WithJudgments(qs[..|qs| - 1]) + [qs[|qs| - 1]]
  }

  method LoadFilter(qs: seq<Query>) returns (kept: seq<Query>)
    ensures kept == WithJudgments(qs)
  {
    kept := [];
    for i := 0 to |qs|
      invariant kept == WithJudgments(qs[..i])
    {
      assert qs[..i + 1][..i] == qs[..i];
      if qs[i].judgments != [] {
        kept := kept + [qs[i]];
      }
    }
    assert qs[..|qs|] == qs;
  }

  /** Exactly the queries with judgments are kept, in dataset order. */
  lemma {:induction false} WithJudgmentsKeeps(qs: seq<Query>)
    ensures forall q :: q in WithJudgments(qs) <==> q in qs && q.judgments != []
    ensures IsSubseq(WithJudgments(qs), qs)
  {
    if qs != [] {
      var p, q := qs[..|qs| - 1], qs[|qs| - 1];
      WithJudgmentsKeeps(p);
      assert qs == p + [q];
      assert forall x :: x in qs <==> x in p || x == q;
      if q.judgments == [] {
        SubseqExtend(WithJudgments(p), p, q);
      } else {
        SubseqBoth(WithJudgments(p), p, q);
      }
    }
  }

  // ---------------------------------------------------------------------
  // Worked examples.

  /** Grade 2 at rank 2 gives 0.5. */
  lemma MrrRankTwo(results: seq<Id>, j: Judgments)
    requires results == ["a", "b", "c"] && j == [Judged("a", 1), Judged("b", 2), Judged("c", 0)]
    ensures Mrr(results, j) == 0.5
  {
    assert j[1..] == [Judged("b", 2), Judged("c", 0)];
    assert Grade(j, "a") == 1 && Grade(j, "b") == 2;
    assert results[1..] == ["b", "c"];
    assert FirstHit(results[1..], j) == 0;
  }

  /** Three relevant results at k = 5: still divided by 5. */
  lemma PrecisionShortList(results: seq<Id>, j: Judgments)
    requires results == ["a", "b", "c"] && j == [Judged("a", 2), Judged("b", 1), Judged("c", 1)]
    ensures Precision(results, j, 5) == 0.6
  {
    assert Top(results, 5) == results;
    var j1 := j[1..];
    var j2 := j1[1..];
    assert j1 == [Judged("b", 1), Judged("c", 1)] && j2 == [Judged("c", 1)];
    assert Grade(j2, "c") == 1;
    assert Grade(j1, "c") == 1 && Grade(j1, "b") == 1;
    assert Grade(j, "a") == 2 && Grade(j, "b") == 1 && Grade(j, "c") == 1;
    forall i | 0 <= i < |results| ensures Grade(j, results[i]) >= 1 {
      assert results[i] == "a" || results[i] == "b" || results[i] == "c";
    }
    CountAllRelevant(results, j);
  }

  /** Every entry relevant: all of them count. */
  lemma {:induction false} CountAllRelevant(s: seq<Id>, j: Judgments)
    requires forall i :: 0 <= i < |s| ==> Grade(j, s[i]) >= 1
    ensures CountRelevant(s, j) == |s|
  {
    if s != [] {
      CountAllRelevant(s[..|s| - 1], j);
    }
  }

  /** A repeated id is counted at each place it appears. */
  lemma RepeatsCounted(results: seq<Id>, j: Judgments)
    requires results == ["a", "a", "b"] && j == [Judged("a", 2), Judged("b", 1)]
    ensures Mrr(results, j) == 1.0 && Precision(results, j, 3) == 1.0
  {
    assert Top(results, 3) == results;
    assert j[1..] == [Judged("b", 1)];
    assert Grade(j, "a") == 2 && Grade(j, "b") == 1;
    CountAllRelevant(results, j);
  }

  /** The ideal DCG uses every judged grade, not only the returned ones. */
  lemma IdealUsesAllJudged(results: seq<Id>, j: Judgments, log2: real -> real)
    requires PositiveDiscounts(log2)
    requires results == ["a"] && j == [Judged("a", 1), Judged("b", 2), Judged("c", 2)]
    ensures Ndcg(results, j, 3, log2)
      == (1.0 / log2(2.0)) / (2.0 / log2(2.0) + 2.0 / log2(3.0) + 1.0 / log2(4.0))
  {
    IdealExample(j);
    IdealDcgExample(log2);
    var g := Grades(Top(results, 3), j);
    assert Top(results, 3) == ["a"];
    assert g == [1];
    assert g[..1] == g && [1][..0] == [];
    assert Dcg(g, 3, log2) == 1.0 / log2(2.0);
  }

  lemma IdealExample(j: Judgments)
    requires j == [Judged("a", 1), Judged("b", 2), Judged("c", 2)]
    ensures SortDesc(Values(j)) == [2, 2, 1]
  {
    var v := Values(j);
    assert v == [1, 2, 2];
    assert v[..2] == [1, 2] && v[..2][..1] == [1] && v[..2][..1][..0] == [];
    assert SortDesc([1]) == [1];
    assert SortDesc([1, 2]) == InsertInt([1], 2) == [2, 1];
    assert InsertInt([2, 1], 2) == [2, 2, 1];
  }

  lemma IdealDcgExample(log2: real -> real)
    requires PositiveDiscounts(log2)
    ensures Dcg([2, 2, 1], 3, log2) == 2.0 / log2(2.0) + 2.0 / log2(3.0) + 1.0 / log2(4.0)
  {
    var s := [2, 2, 1];
    assert s[..3] == s && s[..2] == [2, 2] && [2, 2][..1] == [2] && [2][..0] == [];
    assert DcgSum([2], log2) == 2.0 / log2(2.0);
    assert DcgSum([2, 2], log2) == 2.0 / log2(2.0) + 2.0 / log2(3.0);
    assert DcgSum(s, log2) == DcgSum([2, 2], log2) + 1.0 / log2(4.0);
  }

  /** The mean of 1.0, 0.5 and 0.0 is 0.5. */
  lemma MeanExample(vs: seq<real>)
    requires vs == [1.0, 0.5, 0.0]
    ensures Mean(vs) == 0.5
  {
    assert vs[..2] == [1.0, 0.5] && [1.0, 0.5][..1] == [1.0] && [1.0][..0] == [];
    assert Sum([1.0]) == 1.0;
    assert Sum([1.0, 0.5]) == 1.5;
    assert Sum(vs) == 1.5;
  }
}
