/** `BM25CitationBoost.search`: BM25 scores plus an IDF-weighted boost for
    the opinions whose structured citations match the statutes and
    regulations named in the query, plus a small boost for the opinions of
    the inferred topic. The boosts are accumulated into per-document arrays
    in place, then combined with BM25 and ranked. */
module CitationBoost {
  import opened Text
  import opened Ranking
  import opened Tokenizer
  import opened CitationParser
  import opened TopicTables
  import opened TopicInference
  import opened CitationIndex

  /** `_CITE_BOOST`, `_TOPIC_BOOST` and `_N_TOTAL`. */
  const CiteWeight: real := 0.30
  const TopicWeight: real := 0.03
  const TotalOpinions: real := 14096.0

  /** `m.get(k, set())`. */
  function Lookup(m: Inverted, k: string): (s: set<Id>)
  {
    if k in m then m[k] else {}
  }

  /** `math.log(_N_TOTAL / len(df))`, with the logarithm a parameter. */
  function Idf(ln: real -> real, df: set<Id>): real
    requires |df| > 0
  {
    ln(TotalOpinions / (|df| as real))
  }

  /** One tier of one citation for document `x`: `weight * idf(s)` when `x`
      is in `s` and not in `exclude`. */
  function Tier(s: set<Id>, exclude: set<Id>, weight: real, ln: real -> real, x: Id): real
  {
    if x in s && x !in exclude then weight * Idf(ln, s) else 0.0
  }

  /** The credit one government-code citation gives document `x`: the exact
      tier, the base tier for documents not exactly matched, and the
      bare-base tier guarded by `not has_subsection and base not in (raw,)`. */
  function GovCredit(ix: CiteIndex, ln: real -> real, c: Citation, x: Id): real
  {
    var exact := Lookup(ix.gcExact, c.raw);
    Tier(exact, {}, 1.0, ln, x)
    + Tier(Lookup(ix.gcBase, c.base), exact, 0.2, ln, x)
    + (if c.subsection == "" && c.base != c.raw then Tier(Lookup(ix.gcExact, c.base), exact, 1.0, ln, x) else 0.0)
  }

  /** The credit one regulation citation gives document `x`: the exact tier,
      and for a citation with a subsection the base tier looked up in the
      exact regulation map. */
  function RegCredit(ix: CiteIndex, ln: real -> real, c: Citation, x: Id): real
  {
    var exact := Lookup(ix.regExact, c.raw);
    Tier(exact, {}, 1.0, ln, x)
    + (if c.subsection != "" then Tier(Lookup(ix.regExact, c.base), exact, 0.2, ln, x) else 0.0)
  }

  function GovBoost(ix: CiteIndex, ln: real -> real, cs: seq<Citation>, x: Id): real
  {
    if cs == [] then 0.0 else GovBoost(ix, ln, cs[..|cs| - 1], x) + GovCredit(ix, ln, cs[|cs| - 1], x)
  }

  function RegBoost(ix: CiteIndex, ln: real -> real, cs: seq<Citation>, x: Id): real
  {
    if cs == [] then 0.0 else RegBoost(ix, ln, cs[..|cs| - 1], x) + RegCredit(ix, ln, cs[|cs| - 1], x)
  }

  /** The topic flag of document `x`: 1 when a topic was inferred and `x`
      is filed under its name. */
  function TopicFlag(ix: CiteIndex, topic: Option<Topic>, x: Id): real
  {
    if topic.Some? && x in Lookup(ix.topic, TopicName(topic.value)) then 1.0 else 0.0
  }

  /** `bm25_scores.max()`. */
  function MaxScore(s: seq<real>): (m: real)
    requires |s| > 0
    ensures exists i :: 0 <= i < |s| && s[i] == m
    ensures forall i :: 0 <= i < |s| ==> s[i] <= m
  {
    if |s| == 1 then s[0]
    else
      var m := MaxScore(s[..|s| - 1]);
      if s[|s| - 1] > m then s[|s| - 1] else m
  }

  /** The citation boost of every document. */
  function CiteScores(ix: CiteIndex, ln: real -> real, gov: seq<Citation>, regs: seq<Citation>, ids: seq<Id>): (s: seq<real>)
    ensures |s| == |ids|
  {
    seq(|ids|, i requires 0 <= i < |ids| => GovBoost(ix, ln, gov, ids[i]) + RegBoost(ix, ln, regs, ids[i]))
  }

  /** The topic flag of every document. */
  function TopicFlags(ix: CiteIndex, topic: Option<Topic>, ids: seq<Id>): (s: seq<real>)
    ensures |s| == |ids|
  {
    seq(|ids|, i requires 0 <= i < |ids| => TopicFlag(ix, topic, ids[i]))
  }

  /** `bm25 + m * _CITE_BOOST * cite + m * _TOPIC_BOOST * flags`, element-wise. */
  function Mix(bm25: seq<real>, m: real, cite: seq<real>, flags: seq<real>): (sc: seq<real>)
    requires |cite| == |bm25| && |flags| == |bm25|
    ensures |sc| == |bm25|
  {
    seq(|bm25|, i requires 0 <= i < |bm25| => bm25[i] + m * CiteWeight * cite[i] + m * TopicWeight * flags[i])
  }

  /** The combined score of every document for `query`. */
  function Combined(query: string, ids: seq<Id>, bm25: seq<real>, ix: CiteIndex, ln: real -> real): (sc: seq<real>)
    requires |ids| == |bm25| > 0
    ensures |sc| == |ids|
  {
    var gov := GovCodeOf(query);
    var regs := RegulationsOf(query);
    Mix(bm25, MaxScore(bm25), CiteScores(ix, ln, gov, regs, ids), TopicFlags(ix, InferredTopic(query, gov, regs), ids))
  }

  // ---------------------------------------------------------------------
  // The loops that fill the boost arrays.

  /** `for oid in s: if oid not in exclude: idx = id_to_idx.get(oid);
      if idx is not None: boost[idx] += w`. Ids the BM25 index does not know
      are skipped. */
  method AddCredit(boost: array<real>, ids: seq<Id>, pos: map<Id, nat>, s: set<Id>, exclude: set<Id>, w: real)
    requires Distinct(ids) && pos == Positions(ids) && boost.Length == |ids|
    modifies boost
    ensures forall j :: 0 <= j < boost.Length ==>
      boost[j] == old(boost[j]) + (if ids[j] in s && ids[j] !in exclude then w else 0.0)
  {
    var rest := s;
    while rest != {}
      invariant rest <= s
      invariant forall j :: 0 <= j < boost.Length ==>
        boost[j] == old(boost[j]) + (if ids[j] in s - rest && ids[j] !in exclude then w else 0.0)
      decreases rest
    {
      var oid :| oid in rest;
      if oid !in exclude && oid in pos {
        var idx := pos[oid];
        boost[idx] := boost[idx] + w;
      }
      rest := rest - {oid};
    }
  }

  /** The three tiers of one government-code citation. */
  method AddGovCredit(boost: array<real>, ids: seq<Id>, pos: map<Id, nat>, ix: CiteIndex, ln: real -> real, c: Citation)
    requires Distinct(ids) && pos == Positions(ids) && boost.Length == |ids|
    modifies boost
    ensures forall j :: 0 <= j < boost.Length ==> boost[j] == old(boost[j]) + GovCredit(ix, ln, c, ids[j])
  {
    var raw, base := c.raw, c.base;
    var hasSubsection := c.subsection != "";
    var exactIds := Lookup(ix.gcExact, raw);
    if exactIds != {} {
      AddCredit(boost, ids, pos, exactIds, {}, 1.0 * Idf(ln, exactIds));
    }
    var baseIds := Lookup(ix.gcBase, base);
    if baseIds != {} {
      AddCredit(boost, ids, pos, baseIds, exactIds, 0.2 * Idf(ln, baseIds));
    }
    if !hasSubsection && base != raw {
      var baseExactIds := Lookup(ix.gcExact, base);
      if baseExactIds != {} {
        AddCredit(boost, ids, pos, baseExactIds, exactIds, 1.0 * Idf(ln, baseExactIds));
      }
    }
  }

  /** The exact tier and the subsection fallback of one regulation citation. */
  method AddRegCredit(boost: array<real>, ids: seq<Id>, pos: map<Id, nat>, ix: CiteIndex, ln: real -> real, c: Citation)
    requires Distinct(ids) && pos == Positions(ids) && boost.Length == |ids|
    modifies boost
    ensures forall j :: 0 <= j < boost.Length ==> boost[j] == old(boost[j]) + RegCredit(ix, ln, c, ids[j])
  {
    var exactIds := Lookup(ix.regExact, c.raw);
    if exactIds != {} {
      AddCredit(boost, ids, pos, exactIds, {}, 1.0 * Idf(ln, exactIds));
    }
    if c.subsection != "" {
      var baseIds := Lookup(ix.regExact, c.base);
      if baseIds != {} {
        AddCredit(boost, ids, pos, baseIds, exactIds, 0.2 * Idf(ln, baseIds));
      }
    }
  }

  /** `cite_boost`: zeros, then the credit of every parsed citation. */
  method CiteBoostArray(ids: seq<Id>, pos: map<Id, nat>, ix: CiteIndex, ln: real -> real,
                        gov: seq<Citation>, regs: seq<Citation>) returns (boost: array<real>)
    requires Distinct(ids) && pos == Positions(ids)
    ensures fresh(boost) && boost.Length == |ids|
    ensures boost[..] == CiteScores(ix, ln, gov, regs, ids)
  {
    boost := new real[|ids|](_ => 0.0);
    if gov != [] || regs != [] {
      for i := 0 to |gov|
        invariant forall j :: 0 <= j < |ids| ==> boost[j] == GovBoost(ix, ln, gov[..i], ids[j])
      {
        assert gov[..i + 1][..i] == gov[..i];
        AddGovCredit(boost, ids, pos, ix, ln, gov[i]);
      }
      assert gov[..|gov|] == gov;
      for i := 0 to |regs|
        invariant forall j :: 0 <= j < |ids| ==>
          boost[j] == GovBoost(ix, ln, gov, ids[j]) + RegBoost(ix, ln, regs[..i], ids[j])
      {
        assert regs[..i + 1][..i] == regs[..i];
        AddRegCredit(boost, ids, pos, ix, ln, regs[i]);
      }
      assert regs[..|regs|] == regs;
    }
    assert forall j :: 0 <= j < |ids| ==> boost[..][j] == CiteScores(ix, ln, gov, regs, ids)[j];
  }

  /** `topic_boost`: zeros, then 1.0 for every known id filed under the
      inferred topic. */
  method TopicBoostArray(ids: seq<Id>, pos: map<Id, nat>, ix: CiteIndex, topic: Option<Topic>)
    returns (flags: array<real>)
    requires Distinct(ids) && pos == Positions(ids)
    ensures fresh(flags) && flags.Length == |ids|
    ensures flags[..] == TopicFlags(ix, topic, ids)
  {
    flags := new real[|ids|](_ => 0.0);
    if topic.Some? {
      var topicIds := Lookup(ix.topic, TopicName(topic.value));
      var rest := topicIds;
      while rest != {}
        invariant rest <= topicIds
        invariant forall j :: 0 <= j < |ids| ==> flags[j] == (if ids[j] in topicIds - rest then 1.0 else 0.0)
        decreases rest
      {
        var oid :| oid in rest;
        if oid in pos {
          flags[pos[oid]] := 1.0;
        }
        rest := rest - {oid};
      }
    }
    assert forall j :: 0 <= j < |ids| ==> flags[..][j] == TopicFlags(ix, topic, ids)[j];
  }

  /** The search: nothing for a token-free query or when no document has a
      positive BM25 score; otherwise the top `k` documents by combined score,
      with non-positive scores removed. `bm25[i]` is the library's score of
      `ids[i]` and `ln` the natural logarithm. */
  method Search(query: string, ids: seq<Id>, bm25: seq<real>, ix: CiteIndex, ln: real -> real, topK: nat)
    returns (r: seq<Id>)
    requires Distinct(ids) && |ids| == |bm25| > 0
    ensures Tokenize(query) == [] ==> r == []
    ensures Tokenize(query) != [] && MaxScore(bm25) <= 0.0 ==> r == []
    ensures Tokenize(query) != [] && MaxScore(bm25) > 0.0 ==>
      IsPositiveTopK(r, Elems(ids), ScoreMap(ids, Combined(query, ids, bm25, ix, ln)), topK)
  {
    var tokens := Tokenize(query);
    if tokens == [] {
      return [];
    }
    var maxBm25 := MaxScore(bm25);
    if maxBm25 <= 0.0 {
      return [];
    }
    var gov, regs := ParseQueryCitations(query);
    var pos := Positions(ids);
    var cite := CiteBoostArray(ids, pos, ix, ln, gov, regs);
    var topic := InferTopic(query, gov, regs);
    var flags := TopicBoostArray(ids, pos, ix, topic);
    r := RankCombined(ids, bm25, maxBm25, cite[..], flags[..], topK);
  }

  /** `combined = bm25 + max * _CITE_BOOST * cite + max * _TOPIC_BOOST * topic`,
      then `argsort()[::-1][:top_k]` and the filter `combined > 0`. */
  method RankCombined(ids: seq<Id>, bm25: seq<real>, maxBm25: real, cite: seq<real>, flags: seq<real>, topK: nat)
    returns (r: seq<Id>)
    requires Distinct(ids) && |ids| == |bm25| && |cite| == |bm25| && |flags| == |bm25|
    ensures IsPositiveTopK(r, Elems(ids), ScoreMap(ids, Mix(bm25, maxBm25, cite, flags)), topK)
  {
    var combined := seq(|ids|, i requires 0 <= i < |ids| =>
      bm25[i] + maxBm25 * CiteWeight * cite[i] + maxBm25 * TopicWeight * flags[i]);
    assert combined == Mix(bm25, maxBm25, cite, flags);
    r := PositiveTopK(Elems(ids), ScoreMap(ids, combined), topK);
  }

  // ---------------------------------------------------------------------
  // What the boost promises.

  /** The bare-base tier never runs: it needs an empty subsection, and then
      the raw citation is its base. */
  lemma BareBaseTierDead(query: string)
    ensures forall c :: c in GovCodeOf(query) ==> !(c.subsection == "" && c.base != c.raw)
  {
    ParsedShapes(query);
  }

  /** For a parsed government-code citation, a document gets exactly one of
      the exact credit, the 0.2 base credit (only when not exactly matched)
      or nothing. */
  lemma GovCreditTiers(query: string, ix: CiteIndex, ln: real -> real, c: Citation, x: Id)
    requires c in GovCodeOf(query)
    ensures var exact := Lookup(ix.gcExact, c.raw);
      x in exact ==> GovCredit(ix, ln, c, x) == Idf(ln, exact)
    ensures var exact, base := Lookup(ix.gcExact, c.raw), Lookup(ix.gcBase, c.base);
      x !in exact && x in base ==> GovCredit(ix, ln, c, x) == 0.2 * Idf(ln, base)
    ensures var exact, base := Lookup(ix.gcExact, c.raw), Lookup(ix.gcBase, c.base);
      x !in exact && x !in base ==> GovCredit(ix, ln, c, x) == 0.0
  {
    BareBaseTierDead(query);
  }

  /** For a regulation, the base credit is looked up in the exact
      regulation map, and only for a citation with a subsection and a
      document not exactly matched. */
  lemma RegCreditTiers(ix: CiteIndex, ln: real -> real, c: Citation, x: Id)
    ensures var exact := Lookup(ix.regExact, c.raw);
      x in exact ==> RegCredit(ix, ln, c, x) == Idf(ln, exact)
    ensures var exact, base := Lookup(ix.regExact, c.raw), Lookup(ix.regExact, c.base);
      x !in exact && (c.subsection == "" || x !in base) ==> RegCredit(ix, ln, c, x) == 0.0
    ensures var exact, base := Lookup(ix.regExact, c.raw), Lookup(ix.regExact, c.base);
      x !in exact && c.subsection != "" && x in base ==> RegCredit(ix, ln, c, x) == 0.2 * Idf(ln, base)
  {
  }

  /** Without citations and without an inferred topic the combined score is
      the BM25 score. */
  lemma NoSignalIsBm25(query: string, ids: seq<Id>, bm25: seq<real>, ix: CiteIndex, ln: real -> real)
    requires |ids| == |bm25| > 0
    requires GovCodeOf(query) == [] && RegulationsOf(query) == []
    requires InferredTopic(query, [], []) == None
    ensures Combined(query, ids, bm25, ix, ln) == bm25
  {
    MixNoSignal(bm25, MaxScore(bm25), ix, ln, ids);
  }

  lemma MixNoSignal(bm25: seq<real>, m: real, ix: CiteIndex, ln: real -> real, ids: seq<Id>)
    requires |ids| == |bm25|
    ensures Mix(bm25, m, CiteScores(ix, ln, [], [], ids), TopicFlags(ix, None, ids)) == bm25
  {
    var c := CiteScores(ix, ln, [], [], ids);
    var f := TopicFlags(ix, None, ids);
    assert forall i :: 0 <= i < |ids| ==> c[i] == 0.0 && f[i] == 0.0;
    assert forall i :: 0 <= i < |ids| ==> Mix(bm25, m, c, f)[i] == bm25[i];
  }

  /** When the logarithm is non-negative from 1 on and no citation is
      carried by more than `_N_TOTAL` opinions, the boosts never lower a
      score: the combined score is at least the BM25 score. */
  lemma BoostsNeverLower(query: string, ids: seq<Id>, bm25: seq<real>, ix: CiteIndex, ln: real -> real)
    requires |ids| == |bm25| > 0 && MaxScore(bm25) > 0.0
    requires forall y :: y >= 1.0 ==> ln(y) >= 0.0
    requires forall k :: k in ix.gcExact ==> |ix.gcExact[k]| <= 14096
    requires forall k :: k in ix.gcBase ==> |ix.gcBase[k]| <= 14096
    requires forall k :: k in ix.regExact ==> |ix.regExact[k]| <= 14096
    ensures forall i :: 0 <= i < |ids| ==> Combined(query, ids, bm25, ix, ln)[i] >= bm25[i]
  {
    var gov, regs := GovCodeOf(query), RegulationsOf(query);
    var c := CiteScores(ix, ln, gov, regs, ids);
    var f := TopicFlags(ix, InferredTopic(query, gov, regs), ids);
    forall i | 0 <= i < |ids| ensures c[i] >= 0.0 && f[i] >= 0.0 {
      GovBoostNonNegative(ix, ln, gov, ids[i]);
      RegBoostNonNegative(ix, ln, regs, ids[i]);
    }
    MixNeverLower(bm25, MaxScore(bm25), c, f);
  }

  lemma MixNeverLower(bm25: seq<real>, m: real, cite: seq<real>, flags: seq<real>)
    requires |cite| == |bm25| && |flags| == |bm25| && m >= 0.0
    requires forall i :: 0 <= i < |bm25| ==> cite[i] >= 0.0 && flags[i] >= 0.0
    ensures forall i :: 0 <= i < |bm25| ==> Mix(bm25, m, cite, flags)[i] >= bm25[i]
  {
    forall i | 0 <= i < |bm25| ensures Mix(bm25, m, cite, flags)[i] >= bm25[i] {
      assert m * CiteWeight * cite[i] >= 0.0;
      assert m * TopicWeight * flags[i] >= 0.0;
    }
  }

  /** Every IDF of a set of at most `_N_TOTAL` opinions is non-negative. */
  lemma IdfNonNegative(ln: real -> real, s: set<Id>)
    requires 0 < |s| <= 14096
    requires forall y :: y >= 1.0 ==> ln(y) >= 0.0
    ensures Idf(ln, s) >= 0.0
  {
    var n := |s| as real;
    assert TotalOpinions / n >= 1.0 by {
      assert n <= TotalOpinions;
      assert (TotalOpinions / n) * n == TotalOpinions;
    }
  }

  lemma TierNonNegative(m: Inverted, k: string, exclude: set<Id>, weight: real, ln: real -> real, x: Id)
    requires weight >= 0.0
    requires forall y :: y >= 1.0 ==> ln(y) >= 0.0
    requires forall k :: k in m ==> |m[k]| <= 14096
    ensures Tier(Lookup(m, k), exclude, weight, ln, x) >= 0.0
  {
    if x in Lookup(m, k) && x !in exclude {
      IdfNonNegative(ln, Lookup(m, k));
    }
  }

  lemma {:induction false} GovBoostNonNegative(ix: CiteIndex, ln: real -> real, cs: seq<Citation>, x: Id)
    requires forall y :: y >= 1.0 ==> ln(y) >= 0.0
    requires forall k :: k in ix.gcExact ==> |ix.gcExact[k]| <= 14096
    requires forall k :: k in ix.gcBase ==> |ix.gcBase[k]| <= 14096
    ensures GovBoost(ix, ln, cs, x) >= 0.0
  {
    if cs != [] {
      var c := cs[|cs| - 1];
      GovBoostNonNegative(ix, ln, cs[..|cs| - 1], x);
      TierNonNegative(ix.gcExact, c.raw, {}, 1.0, ln, x);
      TierNonNegative(ix.gcBase, c.base, Lookup(ix.gcExact, c.raw), 0.2, ln, x);
      TierNonNegative(ix.gcExact, c.base, Lookup(ix.gcExact, c.raw), 1.0, ln, x);
    }
  }

  lemma {:induction false} RegBoostNonNegative(ix: CiteIndex, ln: real -> real, cs: seq<Citation>, x: Id)
    requires forall y :: y >= 1.0 ==> ln(y) >= 0.0
    requires forall k :: k in ix.regExact ==> |ix.regExact[k]| <= 14096
    ensures RegBoost(ix, ln, cs, x) >= 0.0
  {
    if cs != [] {
      var c := cs[|cs| - 1];
      RegBoostNonNegative(ix, ln, cs[..|cs| - 1], x);
      TierNonNegative(ix.regExact, c.raw, {}, 1.0, ln, x);
      TierNonNegative(ix.regExact, c.base, Lookup(ix.regExact, c.raw), 0.2, ln, x);
    }
  }
}
