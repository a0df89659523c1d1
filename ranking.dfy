/** Ranking by score, shared by every engine. The source sorts with numpy's
    `argsort()[::-1]` or Python's `sorted(d, key=d.get, reverse=True)` and cuts
    the result with `[:top_k]`; the order among equal scores is not specified
    here. `RankTop` picks candidates with `:|`, so a proof about it holds for
    every tie order. */
module Ranking {

  type Id = string

  predicate Distinct<T(==)>(s: seq<T>)
  {
    forall i, j :: 0 <= i < j < |s| ==> s[i] != s[j]
  }

  function Min(a: int, b: int): int { if a <= b then a else b }

  /** The ids of a sequence of document ids, as a set. */
  function Elems<T(==)>(s: seq<T>): set<T>
  {
    set x | x in s
  }

  /** `a` is `b` with some elements left out: matched from the back. */
  predicate IsSubseq<T(==)>(a: seq<T>, b: seq<T>)
    decreases |b|
  {
    if a == [] then true
    else if b == [] then false
    else if a[|a| - 1] == b[|b| - 1] then IsSubseq(a[..|a| - 1], b[..|b| - 1])
    else IsSubseq(a, b[..|b| - 1])
  }

  /** A subsequence stays one when `b` grows at the end. */
  lemma {:induction false} SubseqExtend<T>(a: seq<T>, b: seq<T>, y: T)
    requires IsSubseq(a, b)
    ensures IsSubseq(a, b + [y])
    decreases |b|, 1
  {
    var b' := b + [y];
    assert b'[..|b'| - 1] == b;
    if a != [] && a[|a| - 1] == y {
      SubseqDropLast(a, b);
    }
  }

  /** Dropping the last element of a subsequence keeps it one. */
  lemma {:induction false} SubseqDropLast<T>(a: seq<T>, b: seq<T>)
    requires a != [] && IsSubseq(a, b)
    ensures IsSubseq(a[..|a| - 1], b)
    decreases |b|, 0
  {
    var b0 := b[..|b| - 1];
    assert b0 + [b[|b| - 1]] == b;
    if a[|a| - 1] == b[|b| - 1] {
      SubseqExtend(a[..|a| - 1], b0, b[|b| - 1]);
    } else {
      SubseqDropLast(a, b0);
      SubseqExtend(a[..|a| - 1], b0, b[|b| - 1]);
    }
  }

  /** Appending the same element to both keeps a subsequence. */
  lemma SubseqBoth<T>(a: seq<T>, b: seq<T>, y: T)
    requires IsSubseq(a, b)
    ensures IsSubseq(a + [y], b + [y])
  {
    assert (a + [y])[..|a|] == a;
    assert (b + [y])[..|b|] == b;
  }

  /** Keep the first occurrence of every element, in order. */
  function Dedup<T(==)>(s: seq<T>): (r: seq<T>)
    ensures |r| <= |s| && (|s| > 0 ==> |r| > 0)
    ensures forall x :: x in r ==> x in s
  {
    if s == [] then []
    else if s[|s| - 1] in s[..|s| - 1] then Dedup(s[..|s| - 1])
    else Dedup(s[..|s| - 1]) + [s[|s| - 1]]
  }

  lemma {:induction false} DedupElems<T>(s: seq<T>)
    ensures forall x :: x in Dedup(s) <==> x in s
  {
    if s != [] {
      DedupElems(s[..|s| - 1]);
      assert s == s[..|s| - 1] + [s[|s| - 1]];
    }
  }

  lemma {:induction false} DedupDistinct<T>(s: seq<T>)
    ensures Distinct(Dedup(s))
  {
    if s != [] {
      DedupDistinct(s[..|s| - 1]);
      DedupElems(s[..|s| - 1]);
    }
  }

  lemma {:induction false} DedupSubseq<T>(s: seq<T>)
    ensures IsSubseq(Dedup(s), s)
  {
    if s != [] {
      var p := s[..|s| - 1];
      DedupSubseq(p);
      assert p + [s[|s| - 1]] == s;
      if s[|s| - 1] in p {
        SubseqExtend(Dedup(p), p, s[|s| - 1]);
      } else {
        SubseqBoth(Dedup(p), p, s[|s| - 1]);
      }
    }
  }

  /** The position of the first occurrence of `x` in `s`. */
  function FirstIndex<T(==)>(s: seq<T>, x: T): (i: nat)
    requires x in s
    ensures i < |s| && s[i] == x
    ensures forall j :: 0 <= j < i ==> s[j] != x
  {
    if s[0] == x then 0 else 1 + FirstIndex(s[1..], x)
  }

  /** Appending keeps the first occurrence of anything already present. */
  lemma FirstIndexSnoc<T>(p: seq<T>, y: T, x: T)
    requires x in p
    ensures x in p + [y] && FirstIndex(p + [y], x) == FirstIndex(p, x)
  {
    assert (p + [y])[FirstIndex(p, x)] == x;
  }

  /** Dedup lists the elements in the order of their first occurrences, so
      it keeps the first occurrence of each element and not a later one. */
  lemma {:induction false} DedupFirstOrder<T>(s: seq<T>)
    ensures forall i, j :: 0 <= i < j < |Dedup(s)| ==> FirstIndex(s, Dedup(s)[i]) < FirstIndex(s, Dedup(s)[j])
  {
    if s != [] {
      var p, y := s[..|s| - 1], s[|s| - 1];
      DedupFirstOrder(p);
      assert s == p + [y];
      var d, dp := Dedup(s), Dedup(p);
      forall x | x in dp ensures x in p && FirstIndex(s, x) == FirstIndex(p, x) {
        FirstIndexSnoc(p, y, x);
      }
      forall i, j | 0 <= i < j < |d| ensures FirstIndex(s, d[i]) < FirstIndex(s, d[j]) {
        if j < |dp| {
          assert d[i] == dp[i] && d[j] == dp[j];
        } else {
          assert y !in p && d[j] == y && d[i] == dp[i];
          assert FirstIndex(s, y) == |p|;
        }
      }
    }
  }

  /** A sequence without repeats is its own deduplication. */
  lemma {:induction false} DedupOfDistinct<T>(s: seq<T>)
    requires Distinct(s)
    ensures Dedup(s) == s
  {
    if s != [] {
      DedupOfDistinct(s[..|s| - 1]);
      assert s == s[..|s| - 1] + [s[|s| - 1]];
    }
  }

  /** Every element of `s` has a score, and scores do not increase along `s`. */
  predicate Sorted(s: seq<Id>, score: map<Id, real>)
  {
    (forall i :: 0 <= i < |s| ==> s[i] in score)
    && forall i, j :: 0 <= i < j < |s| ==> score[s[i]] >= score[s[j]]
  }

  /** `r` is a top-`k` ranking of `cands`: as many as `k` allows, no repeats,
      in non-increasing score order, and no candidate left out scores higher
      than any candidate kept. */
  predicate IsTopK(r: seq<Id>, cands: set<Id>, score: map<Id, real>, k: nat)
  {
    && |r| == Min(k, |cands|)
    && Distinct(r)
    && (forall i :: 0 <= i < |r| ==> r[i] in cands)
    && Sorted(r, score)
    && forall x, i :: x in cands && x in score && x !in r && 0 <= i < |r| ==> score[r[i]] >= score[x]
  }

  /** A top-`k` ranking cut down to the candidates with a positive score, as
      the loops `if scores[idx] > 0: results.append(...)` do. */
  predicate IsPositiveTopK(r: seq<Id>, cands: set<Id>, score: map<Id, real>, k: nat)
  {
    && |r| <= k
    && Distinct(r)
    && Sorted(r, score)
    && (forall i :: 0 <= i < |r| ==> r[i] in cands && score[r[i]] > 0.0)
    && forall x :: x in cands && x in score && score[x] > 0.0 && x !in r ==>
         |r| == k && forall i :: 0 <= i < |r| ==> score[r[i]] >= score[x]
  }

  /** Map document positions to ids: `{ids[i]: vals[i]}`. */
  function ScoreMap(ids: seq<Id>, vals: seq<real>): (m: map<Id, real>)
    requires Distinct(ids) && |ids| == |vals|
    ensures m.Keys == Elems(ids)
    ensures forall i :: 0 <= i < |ids| ==> m[ids[i]] == vals[i]
  {
    map i | 0 <= i < |ids| :: ids[i] := vals[i]
  }

  /** `{oid: i for i, oid in enumerate(ids)}`. */
  function Positions(ids: seq<Id>): (m: map<Id, nat>)
    requires Distinct(ids)
    ensures m.Keys == Elems(ids)
    ensures forall i :: 0 <= i < |ids| ==> m[ids[i]] == i
    ensures forall x :: x in m ==> m[x] < |ids| && ids[m[x]] == x
  {
    map i | 0 <= i < |ids| :: ids[i] := i
  }

  lemma DistinctCard<T>(s: seq<T>)
    requires Distinct(s)
    ensures |Elems(s)| == |s|
  {
    if s != [] {
      var t := s[..|s| - 1];
      assert Elems(s) == Elems(t) + {s[|s| - 1]};
      assert s[|s| - 1] !in Elems(t);
      DistinctCard(t);
    }
  }

  /** Insert `x` before the first element that does not score higher. */
  function InsertDesc(s: seq<Id>, x: Id, score: map<Id, real>): (r: seq<Id>)
    requires x in score && forall y :: y in s ==> y in score
    ensures |r| == |s| + 1
    ensures forall y :: y in r <==> y in s || y == x
  {
    if s == [] || score[s[0]] <= score[x] then [x] + s
    else [s[0]] + InsertDesc(s[1..], x, score)
  }

  /** Insertion keeps a ranking sorted, and free of repeats when `x` is new. */
  lemma {:induction false} InsertDescSorted(s: seq<Id>, x: Id, score: map<Id, real>)
    requires x in score && Sorted(s, score)
    ensures Sorted(InsertDesc(s, x, score), score)
    ensures Distinct(s) && x !in s ==> Distinct(InsertDesc(s, x, score))
  {
    if s != [] && score[s[0]] > score[x] {
      var t := InsertDesc(s[1..], x, score);
      InsertDescSorted(s[1..], x, score);
      forall y | y in t ensures score[y] <= score[s[0]] && (Distinct(s) && x !in s ==> y != s[0]) {
        if y != x {
          var j :| 0 <= j < |s[1..]| && s[1..][j] == y;
          assert s[j + 1] == y;
        }
      }
      assert InsertDesc(s, x, score) == [s[0]] + t;
    }
  }

  /** Rank `cands` by descending score and keep the first `k`. */
  method RankTop(cands: set<Id>, score: map<Id, real>, k: nat) returns (r: seq<Id>)
    requires cands <= score.Keys
    ensures IsTopK(r, cands, score, k)
  {
    var sorted: seq<Id> := [];
    var rest := cands;
    while rest != {}
      invariant rest <= cands
      invariant forall y :: y in sorted <==> y in cands && y !in rest
      invariant |sorted| + |rest| == |cands|
      invariant Distinct(sorted) && Sorted(sorted, score)
      decreases rest
    {
      var x :| x in rest;
      InsertDescSorted(sorted, x, score);
      sorted := InsertDesc(sorted, x, score);
      rest := rest - {x};
    }
    r := sorted[..Min(k, |sorted|)];
    forall x, i | x in cands && x in score && x !in r && 0 <= i < |r|
      ensures score[r[i]] >= score[x]
    {
      var j :| 0 <= j < |sorted| && sorted[j] == x;
      assert j >= |r|;
    }
  }

  /** Keep the positively scored prefix of a ranking. */
  method KeepPositive(r: seq<Id>, score: map<Id, real>) returns (out: seq<Id>)
    requires Sorted(r, score)
    ensures |out| <= |r| && out == r[..|out|]
    ensures forall x :: x in out <==> x in r && score[x] > 0.0
  {
    out := [];
    var i := 0;
    while i < |r|
      invariant 0 <= i <= |r|
      invariant |out| <= i && out == r[..|out|]
      invariant forall x :: x in out <==> x in r[..i] && score[x] > 0.0
      invariant |out| < i ==> score[r[|out|]] <= 0.0
    {
      if score[r[i]] > 0.0 {
        out := out + [r[i]];
      }
      i := i + 1;
    }
  }

  /** `argsort()[::-1][:k]` followed by the filter `score > 0`. */
  method PositiveTopK(cands: set<Id>, score: map<Id, real>, k: nat) returns (out: seq<Id>)
    requires cands <= score.Keys
    ensures IsPositiveTopK(out, cands, score, k)
  {
    var top := RankTop(cands, score, k);
    out := KeepPositive(top, score);
    assert forall i :: 0 <= i < |out| ==> out[i] == top[i];
    forall x | x in cands && x in score && score[x] > 0.0 && x !in out
      ensures |out| == k && forall i :: 0 <= i < |out| ==> score[out[i]] >= score[x]
    {
      assert x !in top;
      assert |top| == k by {
        DistinctCard(top);
        assert Elems(top) <= cands;
        var others := cands - Elems(top);
        assert x in others;
        assert cands == Elems(top) + others;
        assert |cands| == |Elems(top)| + |others|;
      }
      forall i | 0 <= i < |top| ensures top[i] in out && i < |out| {
        assert score[top[i]] >= score[x];
        assert top[i] in out;
        var j :| 0 <= j < |out| && out[j] == top[i];
        assert top[j] == top[i];
      }
      if |top| > 0 {
        assert top[|top| - 1] in out && |top| - 1 < |out|;
      }
    }
  }
}
