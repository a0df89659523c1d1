/** The multi-vector semantic engine: which text each of its three indexes
    embeds, how the two sparse indexes (facts, analysis) are aligned with the
    master index (qa_text, one entry per opinion), and how the three
    similarity vectors are merged by an element-wise maximum. The similarity
    of the query to each indexed text is an input: the embedding service is
    not part of this model. */
module MultiVector {
  import opened Text
  import opened Ranking

  /** `_MIN_TEXT_LEN`: shorter section texts are not indexed. */
  const MinTextLen := 20

  /** The section fields an opinion record may carry; `None` is a field that
      is missing or null. */
  datatype Sections = Sections(facts: Option<string>, analysis: Option<string>, conclusion: Option<string>)

  /** One opinion record as the index builders read it. */
  datatype Record = Record(id: Id, sections: Sections, qaText: Option<string>, fullText: Option<string>)

  /** `d.get(key, "") or ""`: a missing or null field reads as "". */
  function OrEmpty(f: Option<string>): string
  {
    if f.Some? then f.value else ""
  }

  // ---------------------------------------------------------------------
  // `_get_facts_text`, `_get_analysis_text` and the qa_text fallback.

  /** The facts text when it is long enough, else "". */
  function FactsText(r: Record): (t: string)
    ensures t == "" || |t| >= MinTextLen
    ensures t != "" <==> |OrEmpty(r.sections.facts)| >= MinTextLen
    ensures t != "" ==> t == OrEmpty(r.sections.facts)
  {
    var text := OrEmpty(r.sections.facts);
    if |text| >= MinTextLen then text else ""
  }

  /** Analysis and conclusion joined by a blank line when both are long
      enough, whichever one is long enough otherwise, else "". */
  function AnalysisText(r: Record): (t: string)
    ensures t == "" || |t| >= MinTextLen
    ensures t == "" <==> |OrEmpty(r.sections.analysis)| < MinTextLen && |OrEmpty(r.sections.conclusion)| < MinTextLen
  {
    var analysis := OrEmpty(r.sections.analysis);
    var conclusion := OrEmpty(r.sections.conclusion);
    if |analysis| >= MinTextLen && |conclusion| >= MinTextLen then analysis + "\n\n" + conclusion
    else if |analysis| >= MinTextLen then analysis
    else if |conclusion| >= MinTextLen then conclusion
    else ""
  }

  /** The analysis text starts with the analysis whenever that qualifies,
      ends with the conclusion whenever that qualifies, and holds nothing
      else but the two-character separator when both do. */
  lemma AnalysisTextParts(r: Record)
    ensures var a, c, t := OrEmpty(r.sections.analysis), OrEmpty(r.sections.conclusion), AnalysisText(r);
      && (|a| >= MinTextLen ==> a <= t)
      && (|c| >= MinTextLen ==> |c| <= |t| && t[|t| - |c|..] == c)
      && |t| == (if |a| >= MinTextLen then |a| else 0) + (if |c| >= MinTextLen then |c| else 0)
                + (if |a| >= MinTextLen && |c| >= MinTextLen then 2 else 0)
      && (|a| >= MinTextLen && |c| >= MinTextLen ==> t[|a|..|a| + 2] == "\n\n")
  {
    var a, c, t := OrEmpty(r.sections.analysis), OrEmpty(r.sections.conclusion), AnalysisText(r);
    if |a| >= MinTextLen && |c| >= MinTextLen {
      assert t == a + "\n\n" + c;
      assert t[|t| - |c|..] == c;
    }
  }

  /** The text embedded for the qa_text index: `qa_text`, or `full_text`
      when `qa_text` is shorter than the minimum. */
  function QaText(r: Record): (t: string)
    ensures t == OrEmpty(r.qaText) || t == OrEmpty(r.fullText)
    ensures |t| < MinTextLen ==> t == OrEmpty(r.fullText)
    ensures |OrEmpty(r.qaText)| >= MinTextLen ==> t == OrEmpty(r.qaText)
    ensures |OrEmpty(r.qaText)| < MinTextLen ==> t == OrEmpty(r.fullText)
  {
    var text := OrEmpty(r.qaText);
    if |text| < MinTextLen then OrEmpty(r.fullText) else text
  }

  // ---------------------------------------------------------------------
  // Building the indexes: which opinions each one covers.

  /** The records for which `extract` yields text, in corpus order. */
  function Selected(ops: seq<Record>, extract: Record -> string): seq<Record>
  {
    if ops == [] then []
    else
      var p := Selected(ops[..|ops| - 1], extract);
      if extract(ops[|ops| - 1]) != "" then p + [ops[|ops| - 1]] else p
  }

  /** A sparse index keeps exactly the records with text, in their order. */
  lemma {:induction false} SelectedExactly(ops: seq<Record>, extract: Record -> string)
    ensures IsSubseq(Selected(ops, extract), ops)
    ensures forall o :: o in Selected(ops, extract) <==> o in ops && extract(o) != ""
  {
    if ops != [] {
      var p, o := ops[..|ops| - 1], ops[|ops| - 1];
      SelectedExactly(p, extract);
      assert ops == p + [o];
      if extract(o) != "" {
        SubseqBoth(Selected(p, extract), p, o);
      } else {
        SubseqExtend(Selected(p, extract), p, o);
      }
    }
  }

  lemma SelectedSnoc(ops: seq<Record>, extract: Record -> string, i: nat)
    requires i < |ops|
    ensures extract(ops[i]) != "" ==> Selected(ops[..i + 1], extract) == Selected(ops[..i], extract) + [ops[i]]
    ensures extract(ops[i]) == "" ==> Selected(ops[..i + 1], extract) == Selected(ops[..i], extract)
  {
    assert ops[..i + 1][..i] == ops[..i];
  }

  /** The loop of `_build_sparse_index`: ids and texts of the selected
      records, position by position. */
  method BuildSparseIndex(ops: seq<Record>, extract: Record -> string) returns (ids: seq<Id>, texts: seq<string>)
    ensures |ids| == |texts| == |Selected(ops, extract)|
    ensures forall j :: 0 <= j < |ids| ==>
      ids[j] == Selected(ops, extract)[j].id && texts[j] == extract(Selected(ops, extract)[j])
  {
    ids, texts := [], [];
    for i := 0 to |ops|
      invariant |ids| == |texts| == |Selected(ops[..i], extract)|
      invariant forall j :: 0 <= j < |ids| ==>
        ids[j] == Selected(ops[..i], extract)[j].id && texts[j] == extract(Selected(ops[..i], extract)[j])
    {
      SelectedSnoc(ops, extract, i);
      var text := extract(ops[i]);
      if text != "" {
        ids := ids + [ops[i].id];
        texts := texts + [text];
      }
    }
    assert ops[..|ops|] == ops;
  }

  /** The qa_text index covers every record, in order. */
  method BuildQaIndex(ops: seq<Record>) returns (ids: seq<Id>, texts: seq<string>)
    ensures |ids| == |texts| == |ops|
    ensures forall i :: 0 <= i < |ops| ==> ids[i] == ops[i].id && texts[i] == QaText(ops[i])
  {
    ids, texts := [], [];
    for i := 0 to |ops|
      invariant |ids| == |texts| == i
      invariant forall j :: 0 <= j < i ==> ids[j] == ops[j].id && texts[j] == QaText(ops[j])
    {
      var text := OrEmpty(ops[i].qaText);
      if |text| < MinTextLen {
        text := OrEmpty(ops[i].fullText);
      }
      ids := ids + [ops[i].id];
      texts := texts + [text];
    }
  }

  // ---------------------------------------------------------------------
  // Alignment of a sparse index with the master index.

  /** `[master_id_to_idx[oid] for oid in sparse]`; `None` is the `KeyError`
      raised for an id the master index does not hold. */
  function Alignment(master: seq<Id>, sparse: seq<Id>): (r: Option<seq<nat>>)
    requires Distinct(master)
    ensures r.None? <==> exists j :: 0 <= j < |sparse| && sparse[j] !in master
    ensures r.Some? ==> |r.value| == |sparse|
    ensures r.Some? ==> forall j :: 0 <= j < |sparse| ==> r.value[j] < |master| && master[r.value[j]] == sparse[j]
  {
    var pos := Positions(master);
    if forall j :: 0 <= j < |sparse| ==> sparse[j] in pos then
      Some(seq(|sparse|, j requires 0 <= j < |sparse| => pos[sparse[j]]))
    else None
  }

  /** Distinct sparse ids are sent to distinct master positions. */
  lemma AlignmentInjective(master: seq<Id>, sparse: seq<Id>)
    requires Distinct(master) && Distinct(sparse) && Alignment(master, sparse).Some?
    ensures Distinct(Alignment(master, sparse).value)
  {
    var m := Alignment(master, sparse).value;
    forall i, j | 0 <= i < j < |m| ensures m[i] != m[j] {
      assert master[m[i]] == sparse[i] && master[m[j]] == sparse[j];
    }
  }

  // ---------------------------------------------------------------------
  // Scatter into zeros, then element-wise maximum.

  /** Every alignment position is inside the master index. */
  predicate InRange(mapping: seq<nat>, n: nat)
  {
    forall j :: 0 <= j < |mapping| ==> mapping[j] < n
  }

  /** `full = np.zeros(n); full[mapping] = vals`: the writes in order, so a
      repeated position keeps its last value. */
  function Scattered(n: nat, mapping: seq<nat>, vals: seq<real>): (s: seq<real>)
    requires |mapping| == |vals| && InRange(mapping, n)
    ensures |s| == n
  {
    if mapping == [] then seq(n, _ => 0.0)
    else
      var s := Scattered(n, mapping[..|mapping| - 1], vals[..|vals| - 1]);
      s[mapping[|mapping| - 1] := vals[|vals| - 1]]
  }

  /** `j` is the last write to its position. */
  predicate LastWrite(mapping: seq<nat>, j: nat)
    requires j < |mapping|
  {
    forall j' :: j < j' < |mapping| ==> mapping[j'] != mapping[j]
  }

  /** A position no write names stays 0; a named one holds its last write. */
  lemma {:induction false} ScatteredAt(n: nat, mapping: seq<nat>, vals: seq<real>, i: nat)
    requires |mapping| == |vals| && InRange(mapping, n) && i < n
    ensures (forall j :: 0 <= j < |mapping| ==> mapping[j] != i) ==> Scattered(n, mapping, vals)[i] == 0.0
    ensures forall j :: 0 <= j < |mapping| && mapping[j] == i && LastWrite(mapping, j) ==>
      Scattered(n, mapping, vals)[i] == vals[j]
  {
    if mapping != [] {
      var m, v := mapping[..|mapping| - 1], vals[..|vals| - 1];
      ScatteredAt(n, m, v, i);
      forall j | 0 <= j < |mapping| && mapping[j] == i && LastWrite(mapping, j)
        ensures Scattered(n, mapping, vals)[i] == vals[j]
      {
        if j < |m| {
          assert LastWrite(m, j);
        }
      }
    }
  }

  lemma ScatteredSnoc(n: nat, mapping: seq<nat>, vals: seq<real>, j: nat)
    requires |mapping| == |vals| && InRange(mapping, n) && j < |mapping|
    ensures Scattered(n, mapping[..j + 1], vals[..j + 1]) == Scattered(n, mapping[..j], vals[..j])[mapping[j] := vals[j]]
  {
    assert mapping[..j + 1][..j] == mapping[..j];
    assert vals[..j + 1][..j] == vals[..j];
  }

  /** `np.zeros(n)` followed by the fancy-index assignment. */
  method Scatter(n: nat, mapping: seq<nat>, vals: seq<real>) returns (full: array<real>)
    requires |mapping| == |vals| && InRange(mapping, n)
    ensures fresh(full) && full[..] == Scattered(n, mapping, vals)
  {
    full := new real[n](_ => 0.0);
    assert full[..] == Scattered(n, mapping[..0], vals[..0]);
    for j := 0 to |mapping|
      invariant full[..] == Scattered(n, mapping[..j], vals[..j])
    {
      ScatteredSnoc(n, mapping, vals, j);
      full[mapping[j]] := vals[j];
    }
    assert mapping[..|mapping|] == mapping && vals[..|vals|] == vals;
  }

  function Max(a: real, b: real): real
  {
    if a >= b then a else b
  }

  /** The element-wise maximum of two vectors. */
  function Maximum(a: seq<real>, b: seq<real>): (m: seq<real>)
    requires |a| == |b|
    ensures |m| == |a|
    ensures forall i :: 0 <= i < |a| ==> m[i] >= a[i] && m[i] >= b[i] && (m[i] == a[i] || m[i] == b[i])
  {
    seq(|a|, i requires 0 <= i < |a| => Max(a[i], b[i]))
  }

  /** `np.maximum(scores, other, out=scores)`. */
  method MaximumInto(scores: array<real>, other: seq<real>)
    requires scores.Length == |other|
    modifies scores
    ensures scores[..] == Maximum(old(scores[..]), other)
  {
    for i := 0 to scores.Length
      invariant forall j :: 0 <= j < i ==> scores[j] == Max(old(scores[j]), other[j])
      invariant forall j :: i <= j < scores.Length ==> scores[j] == old(scores[j])
    {
      scores[i] := Max(scores[i], other[i]);
    }
  }

  /** Both sparse fields fit the master index of `n` entries. */
  predicate Fits(mapping: seq<nat>, vals: seq<real>, n: nat)
  {
    |mapping| == |vals| && InRange(mapping, n)
  }

  /** The merged similarity of every master entry: the maximum of its qa
      score and the scattered facts and analysis scores. */
  function MultiScores(qa: seq<real>, facts: seq<real>, fmap: seq<nat>, analysis: seq<real>, amap: seq<nat>): (s: seq<real>)
    requires Fits(fmap, facts, |qa|) && Fits(amap, analysis, |qa|)
    ensures |s| == |qa|
  {
    Maximum(Maximum(qa, Scattered(|qa|, fmap, facts)), Scattered(|qa|, amap, analysis))
  }

  /** The scatter-max block of `search`, on the arrays it updates. */
  method ScatterMaxScores(qa: seq<real>, facts: seq<real>, fmap: seq<nat>, analysis: seq<real>, amap: seq<nat>)
    returns (scores: array<real>)
    requires Fits(fmap, facts, |qa|) && Fits(amap, analysis, |qa|)
    ensures fresh(scores) && scores[..] == MultiScores(qa, facts, fmap, analysis, amap)
  {
    scores := new real[|qa|](i requires 0 <= i < |qa| => qa[i]);
    assert scores[..] == qa;
    var factsFull := Scatter(|qa|, fmap, facts);
    MaximumInto(scores, factsFull[..]);
    var analysisFull := Scatter(|qa|, amap, analysis);
    MaximumInto(scores, analysisFull[..]);
  }

  /** What the merged score of one entry is: at least its qa score, at
      least the last facts and analysis scores written to it, never below 0
      when a sparse field does not cover it, and always one of these values
      or 0. */
  lemma MultiScoreAt(qa: seq<real>, facts: seq<real>, fmap: seq<nat>, analysis: seq<real>, amap: seq<nat>, i: nat)
    requires Fits(fmap, facts, |qa|) && Fits(amap, analysis, |qa|) && i < |qa|
    ensures MultiScores(qa, facts, fmap, analysis, amap)[i] >= qa[i]
    ensures (forall j :: 0 <= j < |fmap| ==> fmap[j] != i) ==> MultiScores(qa, facts, fmap, analysis, amap)[i] >= 0.0
    ensures (forall j :: 0 <= j < |amap| ==> amap[j] != i) ==> MultiScores(qa, facts, fmap, analysis, amap)[i] >= 0.0
    ensures forall j :: 0 <= j < |fmap| && fmap[j] == i && LastWrite(fmap, j) ==>
      MultiScores(qa, facts, fmap, analysis, amap)[i] >= facts[j]
    ensures forall j :: 0 <= j < |amap| && amap[j] == i && LastWrite(amap, j) ==>
      MultiScores(qa, facts, fmap, analysis, amap)[i] >= analysis[j]
    ensures var s := MultiScores(qa, facts, fmap, analysis, amap)[i];
      s == qa[i] || s == 0.0 || (exists j :: 0 <= j < |fmap| && s == facts[j]) || (exists j :: 0 <= j < |amap| && s == analysis[j])
  {
    ScatteredAt(|qa|, fmap, facts, i);
    ScatteredAt(|qa|, amap, analysis, i);
    ScatteredValue(|qa|, fmap, facts, i);
    ScatteredValue(|qa|, amap, analysis, i);
  }

  /** Every scattered entry is 0 or one of the written values. */
  lemma {:induction false} ScatteredValue(n: nat, mapping: seq<nat>, vals: seq<real>, i: nat)
    requires |mapping| == |vals| && InRange(mapping, n) && i < n
    ensures Scattered(n, mapping, vals)[i] == 0.0 || exists j :: 0 <= j < |vals| && Scattered(n, mapping, vals)[i] == vals[j]
  {
    if mapping != [] {
      var m, v := mapping[..|mapping| - 1], vals[..|vals| - 1];
      ScatteredValue(n, m, v, i);
      if mapping[|mapping| - 1] != i && Scattered(n, m, v)[i] != 0.0 {
        var j :| 0 <= j < |v| && Scattered(n, m, v)[i] == v[j];
        assert vals[j] == v[j];
      }
    }
  }

  // ---------------------------------------------------------------------
  // SemanticMultiVec.search

  /** `scores.argsort()[::-1][:top_k]` over the merged scores: as many ids
      as `top_k` and the corpus allow, with no filter on the score. */
  method MultiVecSearch(master: seq<Id>, qa: seq<real>, facts: seq<real>, fmap: seq<nat>,
                        analysis: seq<real>, amap: seq<nat>, topK: nat) returns (r: seq<Id>)
    requires Distinct(master) && |qa| == |master|
    requires Fits(fmap, facts, |qa|) && Fits(amap, analysis, |qa|)
    ensures |r| == Min(topK, |master|)
    ensures IsTopK(r, Elems(master), ScoreMap(master, MultiScores(qa, facts, fmap, analysis, amap)), topK)
  {
    var scores := ScatterMaxScores(qa, facts, fmap, analysis, amap);
    r := RankTop(Elems(master), ScoreMap(master, scores[..]), topK);
    DistinctCard(master);
  }
}
