# FPPC opinions search lab: fusion and evaluation core in Dafny

This project models the deterministic core of a search lab over California
Fair Political Practices Commission (FPPC) advice opinions, and proves
properties of that model. The core sits between the foreign scorers (a BM25
library and an embedding service) and the ranked list of opinion ids each
engine returns. It covers:

- **Query side.**
  - The BM25 tokenizer (lower-casing, statute-subsection merge, stripping
    non-alphanumerics, stopwords).
  - The citation parser. Its four match rules are hand-written recognizers
    over `seq<char>`.
  - The topic vote.
- **Per-opinion data.**
  - The citation index (four inverted maps).
  - The section-text selection rules of the multi-vector index.
- **The engines.**
  - BM25 full text: positive-only top-k.
  - BM25 with IDF citation boost.
  - Score fusion with a top/second circuit breaker, in three forms: single
    vector, multi-vector, and citation-pooled with weights 0.4/0.6.
  - Weighted reciprocal rank fusion (RRF): the 0.7/0.3 two-arm engine and the
    0.4/0.6 citation-pooled engine.
- **The evaluation harness:** MRR, Precision@k, Recall@k, nDCG@k,
  first-occurrence dedup, mean aggregation, and the empty-judgment filter.

Each module follows one source file:

- `text.dfy`: character classes.
- `ranking.dfy`: top-k ordering, shared by every engine.
- `tokenizer.dfy`: `bm25_full_text.py`.
- `citation_parser.dfy`, `topic_inference.dfy`, `citation_index.dfy` and
  `citation_boost.dfy`: `bm25_citation_boost.py`.
- `scorer.dfy`: `scorer.py`.
- `score_fusion.dfy`: `score_fusion_v1.py` and `score_fusion_multivec.py`.
- `multi_vector.dfy`: `semantic_multivec.py`, plus the scatter-max of the
  multi-vector fusion.
- `hybrid_rrf.dfy`: `hybrid_rrf_v1.py`.
- `citation_pool.dfy`: the candidate pool shared by `citation_score_fusion.py`
  and `citation_semantic_hybrid.py`.
- `citation_score_fusion.dfy` and `citation_semantic_hybrid.dfy`: those two
  files.

## Modelling conventions

- **Scores are `real`.** `ln` and `log2` are function parameters,
  constrained only where a lemma needs it: `ln` non-negative from 1 up, and
  `log2` positive on the discount arguments.
- **Scores are inputs.** The BM25 scores of the corpus (`bm25`, aligned with
  `ids`) come in as an input sequence, and so do the query similarities of
  each embedding index (`cos`, aligned with `semIds`).
- **Embedding calls.** An engine that would call the embedding service
  returns an `embedded` flag. Its contract says exactly when that call
  happens.
- **Sorting.** Every sort and `argsort()[::-1][:k]` is `Ranking.RankTop` or
  `Ranking.PositiveTopK`. The result is proved to satisfy `IsTopK`: it has
  `min(k, n)` distinct members of the candidate set, in non-increasing score
  order, and no candidate left out scores above one kept. Tie order is left
  open.
- **Tie-dependent intermediates.** Intermediate results whose content depends
  on the tie order are returned as extra out-parameters, so the contracts can
  name them: the BM25 top 100, the per-arm orderings and the pools.
- **Dict loops.** Loops over Python dicts and sets become `while rest != {}`
  loops that pick an arbitrary element. Their contracts are independent of
  the order of iteration.
- **Shared tokenizer.** The copy of `tokenize` in `score_fusion_v1.py` and
  `score_fusion_multivec.py` is the same function as the one in
  `bm25_full_text.py`, so all engines use `Tokenizer.Tokenize`.
- **Parser follows the code.** Where the code and the engine's description
  differ, the model follows the code. The example "Section 87103(a)" is
  described as giving one statute citation. The code gives two:
  - `87103(a)` from the prefixed rule;
  - a bare `87103`, because the bare rule's trailing word boundary matches
    between `3` and `(`.

  `CitationParser.SectionWithSubsection` proves the two-entry result.

## Model

| member | source | states |
|---|---|---|
| Tokenizer.TokenizeWellFormed | src/engines/bm25_full_text.py:51-57 | every token is non-empty, made only of a-z, 0-9 and '-', and is not a stopword |
| Tokenizer.TokenizeIgnoresCase | src/engines/bm25_full_text.py:53-57 | tokenizing the lower-cased text gives the same tokens as tokenizing the text |
| Tokenizer.TokenizeJoinIdempotent | src/engines/bm25_full_text.py:51-57 | re-tokenizing the space-joined tokens gives the same token list |
| Tokenizer.SplitJoin | src/engines/bm25_full_text.py:56 | splitting the space-join of non-empty space-free words returns those words |
| Tokenizer.SplitWords | src/engines/bm25_full_text.py:56 | every piece of a whitespace split is non-empty, free of whitespace, and made of characters of the input |
| Tokenizer.DropStopwordsKeeps | src/engines/bm25_full_text.py:57 | the stopword filter keeps exactly the non-stopwords of its input: every kept token is an input token and not a stopword, every non-stopword input token is kept, and the output is a subsequence of the input |
| Tokenizer.DropStopwordsAppend | src/engines/bm25_full_text.py:57 | filtering a concatenation gives the filtered first part followed by the filtered second part |
| Tokenizer.DropStopwordsSubseq | src/engines/bm25_full_text.py:57 | the kept tokens appear in their input order |
| Tokenizer.TokenizeAppend | src/engines/bm25_full_text.py:51-57 | tokens come in text order: the tokens of `a + " " + b` are the tokens of `a` followed by those of `b` |
| Tokenizer.ParenMergeAppend | src/engines/bm25_full_text.py:54 | the subsection merge never reaches across a space: merging `x + " " + y` gives the merged `x`, a space, then the merged `y` |
| Tokenizer.SplitSubstAppend | src/engines/bm25_full_text.py:55-56 | stripping and splitting `a + " " + b` gives the words of `a` followed by the words of `b` |
| Tokenizer.SplitAppend | src/engines/bm25_full_text.py:56 | `str.split()` of `u + w`, where `w` starts with whitespace, is the split of `u` followed by the split of `w` |
| Tokenizer.NegationsKept | src/engines/bm25_full_text.py:25-43 | "not" and "no" are not stopwords |
| Tokenizer.SubsectionMerged | src/engines/bm25_full_text.py:46-54 | "87103(a)" and "87103(A)" both tokenize to the single token "87103a" |
| Tokenizer.FullTextSearch | src/engines/bm25_full_text.py:110-121 | a token-free query gives []; otherwise the result is the positive-score part of a BM25 top-k, in non-increasing score order |
| Text.LowerIdempotent | src/engines/bm25_full_text.py:53 | lower-casing twice equals lower-casing once |
| Ranking.RankTop | src/engines/score_fusion_v1.py:181 | the result has min(k, n) distinct candidates in non-increasing score order, and every candidate left out scores no higher than every one kept |
| Ranking.InsertDescSorted | src/engines/score_fusion_v1.py:181 | inserting into a non-increasing list keeps it non-increasing and duplicate-free |
| Ranking.KeepPositive | src/engines/bm25_full_text.py:118-120 | filtering a sorted list to positive scores keeps a prefix, which holds exactly its positive-score members |
| Ranking.PositiveTopK | src/engines/bm25_full_text.py:116-120 | the result is a top-k cut followed by the positive filter: at most k ids, all positive, non-increasing, none missing that beats a kept one |
| Ranking.ScoreMap | src/engines/bm25_full_text.py:114-120 | the score map has exactly the corpus ids as keys, each with its own score |
| Ranking.Positions | src/engines/score_fusion_v1.py:107 | the id-to-index map inverts the id list |
| Ranking.DedupElems | src/scorer.py:110-119 | dedup keeps exactly the ids of its input |
| Ranking.DedupDistinct | src/scorer.py:110-119 | dedup output has no repeats |
| Ranking.DedupSubseq | src/scorer.py:110-119 | dedup output is a subsequence of its input |
| Ranking.DedupFirstOrder | src/scorer.py:110-119 | dedup lists ids in the order of their first occurrences in the input, so the first occurrence of each id is the one kept |
| Ranking.FirstIndex | src/scorer.py:113-118 | the position of the first occurrence of an element: it holds the element, and no earlier position does |
| Ranking.DedupOfDistinct | src/scorer.py:110-119 | dedup leaves a repeat-free list unchanged |
| CitationParser.ParseQueryCitations | src/engines/bm25_citation_boost.py:68-119 | the four finditer loops with their seen-sets compute the statute list and the regulation list the rules define |
| CitationParser.CollectUnseen | src/engines/bm25_citation_boost.py:83-89 | one match loop appends exactly the citations whose raw string is unseen, and the seen set stays the set of raws collected |
| CitationParser.PrefixedStatuteAt | src/engines/bm25_citation_boost.py:47-51 | a prefixed-statute match has a 3-5 digit number and an optional one-character parenthesised subsection |
| CitationParser.PrefixedRegAt | src/engines/bm25_citation_boost.py:54-58 | a prefixed-regulation match is 4-5 digits with an optional dot and digits |
| CitationParser.BareStatuteAt | src/engines/bm25_citation_boost.py:62 | a bare-statute match is a 4-5 digit number in the known ranges with an optional one alphanumeric subsection |
| CitationParser.BareRegAt | src/engines/bm25_citation_boost.py:65 | a bare-regulation match is an 18xxx number with an optional dot and digits |
| CitationParser.RegCitationShape | src/engines/bm25_citation_boost.py:93-95 | splitting a regulation number at its first dot gives raw == base + subsection, with subsection "" or "." plus digits |
| CitationParser.ParsedShapes | src/engines/bm25_citation_boost.py:83-117 | every statute has raw == base + subsection with subsection "" or "(c)"; every regulation has raw == base + subsection with subsection "" or "." plus digits |
| CitationParser.ParsedOrderAndUniqueness | src/engines/bm25_citation_boost.py:77-119 | raws are unique in each list; prefixed-rule entries come first, then bare-rule entries, each in match order; the raws are exactly those of all matches |
| CitationParser.AddUnseenDistinct | src/engines/bm25_citation_boost.py:87-89 | appending only unseen raws keeps the raws unique |
| CitationParser.AddUnseenRaws | src/engines/bm25_citation_boost.py:87-89 | after the loop the seen set is the old one plus every matched raw |
| CitationParser.EmptyExactlyWithoutMatches | src/engines/bm25_citation_boost.py:83-119 | the statute (regulation) list is empty exactly when neither statute (regulation) rule matches anywhere |
| CitationParser.SectionWithSubsection | src/engines/bm25_citation_boost.py:83-108 | "Section 87103(a)" gives statutes [87103(a), bare 87103] and no regulations |
| CitationParser.BareStatuteAndRegulation | src/engines/bm25_citation_boost.py:101-117 | "87103 and 18702.2" gives statute 87103 and regulation 18702.2 with base 18702 and subsection ".2" |
| TopicTables.TopicNameInjective | src/engines/bm25_citation_boost.py:127-150 | the four topic keys are distinct strings |
| TopicInference.InferTopic | src/engines/bm25_citation_boost.py:171-211 | the accumulator loops and the final choice compute the inferred topic of the query and its citations |
| TopicInference.CastStatuteVotes | src/engines/bm25_citation_boost.py:180-184 | the statute loop adds one vote per statute per topic table containing its base |
| TopicInference.CastRegVotes | src/engines/bm25_citation_boost.py:187-197 | the regulation loop adds at most one vote per regulation, by the elif range chain |
| TopicInference.CastKeywordVotes | src/engines/bm25_citation_boost.py:200-203 | the keyword loops add one vote per stem found in the lower-cased query |
| TopicInference.TallyCounts | src/engines/bm25_citation_boost.py:176-203 | the scores dict holds, in first-insertion order, each voted topic with its number of votes |
| TopicInference.ChooseFromTally | src/engines/bm25_citation_boost.py:205-211 | the choice over the scores dict is the specified choice over the votes |
| TopicInference.BestIndex | src/engines/bm25_citation_boost.py:208 | max picks a topic with the highest count, the first-inserted among equals |
| TopicInference.MaxCount | src/engines/bm25_citation_boost.py:208 | no topic has more votes than the one max picks |
| TopicInference.ChooseVotes | src/engines/bm25_citation_boost.py:205-211 | None exactly when every topic has fewer than 2 votes; otherwise a topic with the most votes (at least 2), and no earlier-inserted topic ties it |
| TopicInference.VoteBounds | src/engines/bm25_citation_boost.py:187-203 | regulations give at most one vote each, and a topic gets at most one keyword vote per stem |
| TopicInference.KeywordEventsCount | src/engines/bm25_citation_boost.py:200-203 | a topic's keyword votes are exactly its stems found in the query |
| TopicInference.Only1090 | src/engines/bm25_citation_boost.py:133-155 | the query "1090" gets two conflicts-of-interest votes (statute table and keyword stem) and infers that topic |
| TopicInference.Only1090Tables | src/engines/bm25_citation_boost.py:127-150 | only the conflicts-of-interest table lists 1090 |
| CitationIndex.LeadingNumber | src/engines/bm25_citation_boost.py:243-245 | the base of a statute string is its non-empty leading digit run, absent exactly when it does not start with a digit |
| CitationIndex.Add | src/engines/bm25_citation_boost.py:241 | setdefault(k, set()).add(id) adds id under k and changes no other key |
| CitationIndex.AddAllContents | src/engines/bm25_citation_boost.py:239-241 | filing an opinion under a list of keys adds its id under exactly those keys |
| CitationIndex.FileGovCode | src/engines/bm25_citation_boost.py:239-245 | the statute loop files the id under every statute string in gc_exact and every leading number in gc_base |
| CitationIndex.FileKeys | src/engines/bm25_citation_boost.py:248-250 | the regulation loop files the id under every regulation string |
| CitationIndex.BaseKeysAreNumbers | src/engines/bm25_citation_boost.py:243-245 | every gc_base key is a non-empty digit string that leads one of the cited statutes |
| CitationIndex.TopicKeys | src/engines/bm25_citation_boost.py:253-255 | an opinion is filed under at most one topic, and none when the topic is missing, "None" or "other" |
| CitationIndex.BuildCitationIndex | src/engines/bm25_citation_boost.py:239-255 | the fold over opinions builds the four inverted maps the index specification defines |
| CitationIndex.IndexInverted | src/engines/bm25_citation_boost.py:239-255 | a key is in a map exactly when some opinion yields it, and an id is filed under a key exactly when that opinion yields the key |
| CitationBoost.MaxScore | src/engines/bm25_citation_boost.py:310 | the maximum is one of the scores and no score exceeds it |
| CitationBoost.IdfNonNegative | src/engines/bm25_citation_boost.py:338 | log(N / df) is non-negative for 0 < df <= N |
| CitationBoost.TierNonNegative | src/engines/bm25_citation_boost.py:344-352 | one credit tier never subtracts |
| CitationBoost.AddCredit | src/engines/bm25_citation_boost.py:339-342 | one tier loop adds the weight exactly at the indexed positions of ids in the set and not excluded, and nowhere else |
| CitationBoost.AddGovCredit | src/engines/bm25_citation_boost.py:330-364 | one statute's three tiers add its credit to every position |
| CitationBoost.AddRegCredit | src/engines/bm25_citation_boost.py:366-386 | one regulation's tiers add its credit to every position |
| CitationBoost.CiteBoostArray | src/engines/bm25_citation_boost.py:323-386 | the in-place accumulation yields the summed statute and regulation credit of every document |
| CitationBoost.TopicBoostArray | src/engines/bm25_citation_boost.py:389-396 | the topic array is a 0/1 flag: 1.0 exactly for indexed ids filed under the inferred topic |
| CitationBoost.GovCreditTiers | src/engines/bm25_citation_boost.py:335-352 | for a parsed statute, an exact-set document gets 1.0*idf and never the base credit; a base-only document gets 0.2*idf(base); any other document gets 0 |
| CitationBoost.RegCreditTiers | src/engines/bm25_citation_boost.py:366-386 | a regulation gives exact credit, plus 0.2*idf of reg_exact[base] to non-exact documents only when it has a subsection |
| CitationBoost.BareBaseTierDead | src/engines/bm25_citation_boost.py:354-364 | no parsed statute has an empty subsection with base != raw, so the bare-base tier never runs |
| CitationBoost.GovBoostNonNegative | src/engines/bm25_citation_boost.py:330-364 | the summed statute credit is non-negative |
| CitationBoost.RegBoostNonNegative | src/engines/bm25_citation_boost.py:366-386 | the summed regulation credit is non-negative |
| CitationBoost.MixNeverLower | src/engines/bm25_citation_boost.py:399-403 | with non-negative boosts, the combined score is never below the BM25 score |
| CitationBoost.BoostsNeverLower | src/engines/bm25_citation_boost.py:398-403 | the boosts never lower a document's score below its BM25 score |
| CitationBoost.NoSignalIsBm25 | src/engines/bm25_citation_boost.py:398-403 | with no citation and no topic the combined scores equal the BM25 scores |
| CitationBoost.RankCombined | src/engines/bm25_citation_boost.py:405-411 | the result is the positive-score top-k of the combined scores |
| CitationBoost.Search | src/engines/bm25_citation_boost.py:304-411 | [] on no tokens or max BM25 <= 0; otherwise the positive top-k of bm25 + max*0.30*cite + max*0.03*topic |
| Scorer.Grade | src/scorer.py:32 | an unjudged document has grade 0, and a non-zero grade is one the judgments give that document |
| Scorer.FirstHit | src/scorer.py:31-33 | the index of the first grade-2 result, with none before it |
| Scorer.Mrr | src/scorer.py:25-34 | MRR is in [0, 1] and is 0 exactly when no result has grade 2 |
| Scorer.ComputeMrr | src/scorer.py:25-34 | the early-return loop computes 1/rank of the first grade-2 result, else 0 |
| Scorer.Precision | src/scorer.py:65-75 | Precision@k lies in [0, 1] |
| Scorer.CountTop | src/scorer.py:71-74 | the counter loop counts grade >= 1 results among the first k |
| Scorer.ComputePrecision | src/scorer.py:65-75 | the loop computes the count of grade >= 1 results in the top k, divided by k |
| Scorer.Recall | src/scorer.py:78-91 | Recall is 0 when no judgment has grade >= 1 |
| Scorer.ComputeRecall | src/scorer.py:78-91 | the loop computes found / total relevant, or 0 |
| Scorer.TotalRelevantDocs | src/scorer.py:84 | the relevant total is the number of judged documents with grade >= 1 |
| Scorer.CountRelevantDistinct | src/scorer.py:87-90 | for repeat-free results the found count is the number of distinct relevant results |
| Scorer.RecallInUnit | src/scorer.py:78-91 | for repeat-free results Recall@k lies in [0, 1] |
| Scorer.SortDesc | src/scorer.py:57 | the ideal grades are the judged grades, as a multiset, sorted non-increasing |
| Scorer.InsertIntSorted | src/scorer.py:57 | one insertion step keeps the list sorted and the multiset of grades |
| Scorer.DcgLoop | src/scorer.py:46-50 | the dcg accumulator computes the discounted sum over the first min(n, len) grades |
| Scorer.ComputeNdcg | src/scorer.py:37-62 | the method computes DCG of the top k over IDCG of all judged grades sorted, or 0 when IDCG is 0 |
| Scorer.NdcgIdealIsOne | src/scorer.py:53-62 | a ranking whose top-k grades are the ideal order scores exactly 1.0 (when IDCG != 0) |
| Scorer.NdcgNoRelevant | src/scorer.py:57-61 | with no positive grade, nDCG is 0 |
| Scorer.NdcgNonNegative | src/scorer.py:53-62 | with non-negative grades, nDCG is non-negative for any positive discount |
| Scorer.IdealUsesAllJudged | tests/test_scorer.py:102-112 | IDCG uses all judged documents, not only those returned |
| Scorer.MrrRankTwo | tests/test_scorer.py:23-26 | the first grade-2 result at rank 2 gives MRR 0.5, a grade-1 result before it not counting |
| Scorer.PrecisionShortList | tests/test_scorer.py:133-137 | three relevant results at k = 5 give 0.6 |
| Scorer.RepeatsCounted | tests/test_scorer.py:217-226 | on [a, a, b] with a graded 2 and b graded 1, the metric functions count the repeat: MRR 1.0 and Precision@3 1.0 |
| Scorer.DedupResults | src/scorer.py:110-119 | the seen/deduped loop computes the first-occurrence dedup |
| Scorer.DedupPromises | src/scorer.py:110-119 | the dedup output has no repeats, the same ids as its input, is a subsequence of the input, and is ordered by first occurrence, so the first occurrence of each id is kept |
| Scorer.AggregateMetrics | src/scorer.py:145-154 | [] gives {}; otherwise each key of the first row maps to the mean of that column |
| Scorer.MeanBounds | src/scorer.py:153 | a mean lies between the lower and upper bounds of its values |
| Scorer.MeanExample | tests/test_scorer.py:187-199 | the mean of 1.0, 0.5 and 0.0 is 0.5 |
| Scorer.LoadFilter | src/scorer.py:165-172 | the filter loop computes the kept queries |
| Scorer.WithJudgmentsKeeps | src/scorer.py:165-172 | exactly the queries with non-empty judgments are kept, in order |
| MultiVector.FactsText | src/engines/semantic_multivec.py:58-61 | the facts text when it has at least 20 characters, "" otherwise (including a missing field) |
| MultiVector.AnalysisText | src/engines/semantic_multivec.py:64-76 | "" exactly when neither analysis nor conclusion has 20 characters; otherwise at least 20 characters |
| MultiVector.AnalysisTextParts | src/engines/semantic_multivec.py:64-76 | a qualifying analysis is a prefix, a qualifying conclusion a suffix, a field under 20 characters contributes nothing, and when both qualify they are separated by exactly "\n\n" |
| MultiVector.QaText | src/engines/semantic_multivec.py:184-191 | qa_text when qa_text has at least 20 characters, and full_text when it is shorter |
| MultiVector.SelectedExactly | src/engines/semantic_multivec.py:129-135 | the sparse selection keeps exactly the opinions with non-empty text, in corpus order |
| MultiVector.BuildSparseIndex | src/engines/semantic_multivec.py:129-135 | ids and texts are aligned position by position with the selected opinions |
| MultiVector.BuildQaIndex | src/engines/semantic_multivec.py:184-191 | the QA index covers every opinion, with its QaText |
| MultiVector.Alignment | src/engines/semantic_multivec.py:233-247 | fails exactly when some sparse id is not a master id; otherwise position j holds the master position of the j-th sparse id |
| MultiVector.AlignmentInjective | src/engines/semantic_multivec.py:233-247 | distinct sparse ids map to distinct master positions |
| MultiVector.Scatter | src/engines/semantic_multivec.py:271-272 | the zero array with the sparse scores written at the mapped positions |
| MultiVector.ScatteredAt | src/engines/semantic_multivec.py:271-272 | an unmapped position stays 0; a mapped position holds its last write |
| MultiVector.ScatteredValue | src/engines/semantic_multivec.py:271-272 | every scattered entry is 0 or one of the sparse scores |
| MultiVector.Maximum | src/engines/semantic_multivec.py:273 | the element-wise max is at least both sides and equal to one of them |
| MultiVector.MaximumInto | src/engines/semantic_multivec.py:273 | np.maximum(..., out=) overwrites the array with the element-wise max |
| MultiVector.ScatterMaxScores | src/engines/semantic_multivec.py:267-279 | the in-place scatter-max computes the multi-vector scores |
| MultiVector.MultiScoreAt | src/engines/semantic_multivec.py:267-279 | each score is at least qa, at least the mapped facts and analysis scores, at least 0 when a field is absent, and is one of those values |
| MultiVector.MultiVecSearch | src/engines/semantic_multivec.py:256-282 | min(top_k, n) ids, a top-k by multi-vector score, with no positivity filter |
| ScoreFusion.Put | src/engines/score_fusion_v1.py:122 | a dict store keeps the insertion-ordered keys and sets the value |
| ScoreFusion.MinOf | src/engines/score_fusion_v1.py:164 | min is one of the values and no value is below it |
| ScoreFusion.MaxOf | src/engines/score_fusion_v1.py:164 | max is one of the values and no value is above it |
| ScoreFusion.ValsBounds | src/engines/score_fusion_v1.py:163-164 | every pool score lies between min and max of the values, both attained |
| ScoreFusion.Lo | src/engines/score_fusion_v1.py:164 | lo is the score of one of the pool's keys (the least, by ValsBounds) |
| ScoreFusion.Hi | src/engines/score_fusion_v1.py:164 | hi is the score of one of the pool's keys (the greatest, by ValsBounds) |
| ScoreFusion.ScaledInUnit | src/engines/score_fusion_v1.py:165-168 | a value between lo and hi scales into [0, 1] |
| ScoreFusion.ScaledMonotone | src/engines/score_fusion_v1.py:165-168 | scaling preserves order |
| ScoreFusion.ScaledEnds | src/engines/score_fusion_v1.py:168 | with lo != hi, lo scales to 0 and hi to 1 |
| ScoreFusion.Normalize | src/engines/score_fusion_v1.py:160-168 | normalising keeps the keys |
| ScoreFusion.NormalizeAt | src/engines/score_fusion_v1.py:163-168 | each key maps to its score scaled by the pool's min and max |
| ScoreFusion.NormalizeEmpty | src/engines/score_fusion_v1.py:161-162 | the empty pool is returned unchanged |
| ScoreFusion.NormalizeInUnit | src/engines/score_fusion_v1.py:160-168 | every normalised value lies in [0, 1], and an all-equal pool maps to 1.0 everywhere |
| ScoreFusion.NormalizeLeast | src/engines/score_fusion_v1.py:168 | in a non-constant pool a key with the least score maps to 0 |
| ScoreFusion.NormalizeGreatest | src/engines/score_fusion_v1.py:168 | in a non-constant pool a key with the greatest score maps to 1 |
| ScoreFusion.NormalizeEnds | src/engines/score_fusion_v1.py:160-168 | in a non-constant pool the minimum maps to 0 and the maximum to 1 |
| ScoreFusion.NormalizeMonotone | src/engines/score_fusion_v1.py:168 | normalising preserves the order of scores |
| ScoreFusion.NormalizeOrderFree | src/engines/score_fusion_v1.py:163-168 | two pools with the same scores normalise alike, whatever their insertion order |
| ScoreFusion.WeightedInUnit | src/engines/score_fusion_v1.py:178 | wb*b + ws*s lies in [0, 1] for unit inputs and weights summing to at most 1 |
| ScoreFusion.MixInUnit | src/engines/score_fusion_v1.py:176-178 | one fused score lies in [0, 1], and is at most the weight of the only side present |
| ScoreFusion.Fused | src/engines/score_fusion_v1.py:174-178 | the fused dict has exactly the candidate ids as keys |
| ScoreFusion.FusedInUnit | src/engines/score_fusion_v1.py:174-178 | every fused score lies in [0, 1], bounded by wb (ws) when the other side is missing |
| ScoreFusion.FusionOf | src/engines/score_fusion_v1.py:157-178 | 0.5/0.5 fusion is over the union of the two pools |
| ScoreFusion.FusionInUnit | src/engines/score_fusion_v1.py:157-178 | every 0.5/0.5 fused score lies in [0, 1] |
| ScoreFusion.Combine | src/engines/score_fusion_v1.py:174-178 | the combining loop fills the fused dict |
| ScoreFusion.RatioAtLeastOne | src/engines/score_fusion_v1.py:128-134 | on sorted scores the ratio is infinite exactly with one score or a non-positive second; otherwise it is >= 1, so thresholds <= 1 always fire |
| ScoreFusion.FiresAtThreshold | src/engines/score_fusion_v1.py:128-134 | the breaker fires exactly when there is one score, the second is not positive, or the top is at least threshold times the second |
| ScoreFusion.DefaultThresholdBand | src/engines/score_fusion_v1.py:78 | under the default threshold 1.3, scores 13 over 10 fire the breaker and 12 over 10 do not |
| ScoreFusion.ZeroSecondFires | src/engines/score_fusion_v1.py:132 | a second score of 0 fires the breaker at any threshold |
| ScoreFusion.FillPool | src/engines/score_fusion_v1.py:119-122 | the pool loop stores each ranked id with its score, in rank order |
| ScoreFusion.Bm25PoolFacts | src/engines/score_fusion_v1.py:117-132 | the BM25 pool has at most 100 ids, all positive, its values already descending; its ratio is infinite exactly for a single id |
| ScoreFusion.Bm25Stage | src/engines/score_fusion_v1.py:110-140 | [] on no tokens or an empty pool; the stage stops exactly when the pool is empty or the ratio test fires, and a fired breaker returns the BM25 top-k of the pool |
| ScoreFusion.FuseStage | src/engines/score_fusion_v1.py:142-181 | a semantic top 100 without filter, then the top-k of the 0.5/0.5 fusion over the union |
| ScoreFusion.SearchV1 | src/engines/score_fusion_v1.py:109-181 | the whole engine: the early exits, the breaker, and the embedding call exactly when the breaker does not fire, with fused top-k |
| ScoreFusion.SearchMultiVec | src/engines/score_fusion_multivec.py:136-224 | the same pipeline as SearchV1 with multi-vector scatter-max scores for the semantic pool |
| HybridRrf.ReciprocalBounds | src/engines/hybrid_rrf_v1.py:96-98 | w/(60+rank) lies in (0, w/61] for ranks >= 1 |
| HybridRrf.ReciprocalMonotone | src/engines/hybrid_rrf_v1.py:96-98 | a better rank gives a strictly larger term |
| HybridRrf.RankMapKeys | src/engines/hybrid_rrf_v1.py:86-88 | the rank map's keys are the ranked ids |
| HybridRrf.RankMapAt | src/engines/hybrid_rrf_v1.py:86-88 | for a repeat-free ranking, position i has rank i + 1, and every rank points back to its id |
| HybridRrf.PositiveRanksAt | src/engines/hybrid_rrf_v1.py:73-76 | BM25 ranks are given exactly to the positive-score ids, by position in the top 100 |
| HybridRrf.PositiveRanksContiguous | src/engines/hybrid_rrf_v1.py:73-76 | on a sorted top 100 the ranked ids form a prefix |
| HybridRrf.BmRanks | src/engines/hybrid_rrf_v1.py:73-76 | the BM25 rank loop fills the positive-rank map |
| HybridRrf.SemRanks | src/engines/hybrid_rrf_v1.py:86-88 | the semantic rank loop ranks every id of the top 100 |
| HybridRrf.Fused | src/engines/hybrid_rrf_v1.py:91-99 | RRF covers the union of the two arms |
| HybridRrf.FuseRanks | src/engines/hybrid_rrf_v1.py:91-99 | the accumulator loop computes, per id, the sum over the arms containing it of w/(60+rank) |
| HybridRrf.FusedBounds | src/engines/hybrid_rrf_v1.py:91-99 | every fused score lies in (0, 1/61] |
| HybridRrf.SemanticOnlyOrder | src/engines/hybrid_rrf_v1.py:91-101 | with an empty BM25 arm the fused order is the semantic rank order |
| HybridRrf.BmArm | src/engines/hybrid_rrf_v1.py:69-76 | no tokens give no BM25 ranks; otherwise the ranks of the positive ids of a BM25 top 100 |
| HybridRrf.SemArm | src/engines/hybrid_rrf_v1.py:84-88 | the semantic arm is a similarity top 100 of the whole index, unfiltered, ranked from 1 |
| HybridRrf.NonEmptyArm | src/engines/hybrid_rrf_v1.py:85-88 | a non-empty semantic index gives a non-empty semantic arm |
| HybridRrf.Search | src/engines/hybrid_rrf_v1.py:67-101 | the top-k of the RRF over both arms; a token-free query still returns semantic results |
| CitationPool.GovPoolMembers | src/engines/citation_score_fusion.py:140-142 | an opinion is in the statute pool exactly when gc_exact[raw] or gc_base[base] of some cited statute holds it |
| CitationPool.RegPoolMembers | src/engines/citation_score_fusion.py:144-147 | an opinion is in the regulation pool exactly when reg_exact[raw], or reg_exact[base] for a cited regulation with a subsection, holds it |
| CitationPool.BuildCitePool | src/engines/citation_score_fusion.py:135-147 | the two pool loops compute the statute pool joined with the regulation pool |
| CitationPool.CandScores | src/engines/citation_score_fusion.py:161-167 | the score dict has the candidates as keys, each indexed one with its score and every other 0.0 |
| CitationPool.FillCandPool | src/engines/citation_score_fusion.py:161-167 | the pool loop fills exactly that dict |
| CitationPool.FullRankingCovers | src/engines/citation_semantic_hybrid.py:143 | sorting the whole pool lists every candidate exactly once |
| CitationPool.SortedScores | src/engines/citation_score_fusion.py:170 | the scores along a full BM25 ordering are non-increasing, one per candidate, and include every candidate's score |
| CitationPool.PoolBreakerFires | src/engines/citation_score_fusion.py:170-175 | a pool of at most one candidate, or with all scores 0, fires the breaker at any threshold |
| CitationPool.PoolStage | src/engines/citation_score_fusion.py:118-158 | [] on no tokens; a citation-free query returns the positive BM25 top-k; otherwise the pool is the citation hits plus the positive BM25 top 100, and an empty pool gives [] |
| CitationScoreFusion.PoolFusion | src/engines/citation_score_fusion.py:203-211 | the fused dict has exactly the candidates as keys |
| CitationScoreFusion.PoolFusionInUnit | src/engines/citation_score_fusion.py:203-211 | with non-negative weights summing to at most 1, every fused score lies in [0, 1] |
| CitationScoreFusion.DefaultBreaker | src/engines/citation_score_fusion.py:72 | under the default threshold 1.3 the breaker fires exactly when there is one score, the second is not positive, or the top is at least 1.3 times the second |
| CitationScoreFusion.DefaultWeightsInUnit | src/engines/citation_score_fusion.py:72-73 | the default weights 0.4/0.6 keep every fused score in [0, 1] |
| CitationScoreFusion.PoolFusionOrderFree | src/engines/citation_score_fusion.py:54-63 | the fused scores depend only on the pool scores, not on the order the dicts were filled |
| CitationScoreFusion.BreakerStage | src/engines/citation_score_fusion.py:161-183 | the pool-scoped breaker fires by the ratio of the sorted pool scores; if so the result is the pool's BM25 top-k |
| CitationScoreFusion.FuseStage | src/engines/citation_score_fusion.py:194-214 | the semantic pool dict, then the top-k of the weighted min-max fusion over the pool |
| CitationScoreFusion.Search | src/engines/citation_score_fusion.py:116-214 | the whole engine: the exits, the pool, the breaker, and the embedding call exactly when the breaker does not fire on a non-empty pool |
| CitationSemanticHybrid.Rrf | src/engines/citation_semantic_hybrid.py:168-173 | RRF covers exactly the candidate pool |
| CitationSemanticHybrid.PoolRanks | src/engines/citation_semantic_hybrid.py:143-144 | within an arm every candidate gets a distinct rank in 1..pool size |
| CitationSemanticHybrid.RanksFollowScores | src/engines/citation_semantic_hybrid.py:143-144 | a strictly higher arm score gives a strictly better rank |
| CitationSemanticHybrid.RrfBounds | src/engines/citation_semantic_hybrid.py:168-173 | every fused score lies in (0, 1/61] |
| CitationSemanticHybrid.RrfDominance | src/engines/citation_semantic_hybrid.py:170-173 | no worse in both ranks and strictly better in one gives a strictly higher fused score |
| CitationSemanticHybrid.FuseRanks | src/engines/citation_semantic_hybrid.py:168-173 | the loop computes 0.4/(60+r_bm25) + 0.6/(60+r_sem) for every candidate |
| CitationSemanticHybrid.Arm | src/engines/citation_semantic_hybrid.py:135-144 | one arm's pool dict, its full ranking, and its rank map |
| CitationSemanticHybrid.Search | src/engines/citation_semantic_hybrid.py:92-175 | the exits and pool as in citation score fusion; the embedding call exactly for a non-empty pool; then the top-k of the RRF of the two full pool rankings |

## Left out

- **Embedding calls.** The embedding service calls, `_embed_texts`,
  `_truncate` (tiktoken), and the L2 normalisation of query and index
  vectors are not modelled. Query similarities are given sequences, and calls
  are marked by the `embedded` out-parameter.
- **BM25 scoring.** `BM25Okapi` and `get_scores` belong to a library that is
  not part of this model. The per-document BM25 scores are an input.
- **I/O.** These are outside the deterministic core:
  - directory walks and `json.load`;
  - pickle loads and saves, dotenv and credential checks;
  - logging with `print`;
  - `load_engine`, `print_scorecard`, `write_results` and `main`;
  - engine constructors and `name()`.
- **`evaluate_query`.** It is modelled only through its dedup loop and the
  metric calls.
- **Floating point.** float32 rounding and exact `math.log`/`math.log2`
  values are not modelled. Reals and parameter functions stand in, so the
  hand-computed 0.9147 nDCG figure is not reproduced.
- **Tie order.** Tie order among equal scores (numpy `argsort` and
  hash-seeded dict/set iteration) is left open. Intermediate rankings and
  pools are out-parameters, so contracts can speak of the ones actually
  chosen.
- **Distinct ids.** Document ids are assumed distinct within each index: an
  id names one opinion.
- **Two source files.** `src/engines/semantic_baseline.py` and
  `src/interface.py` are not part of this model. The first is an API call
  plus an argsort; the second is an abstract base class.
- **Scorer.ComputePrecision** requires k > 0. The source divides by k, so
  k = 0 raises.
- **CitationBoost.Search** requires a non-empty corpus, because
  `bm25_scores.max()` raises on an empty array.
- **Scorer.AggregateMetrics** requires every row to carry the first row's
  metric keys. Otherwise the source raises `KeyError`.
- **Scorer.RecallInUnit** is stated for repeat-free results and dict-like
  judgments, which is what `evaluate_query` passes. With repeats the source
  can exceed 1.
- **Scorer.NdcgNonNegative** does not prove nDCG <= 1. The model bounds
  nDCG from below. It reaches 1.0 for the ideal ordering
  (Scorer.NdcgIdealIsOne); the converse is not proved, and it does not hold
  for every discount function.
- **ScoreFusion.FusedInUnit** and **CitationScoreFusion.PoolFusionInUnit**
  are stated for weights that sum to at most 1. The defaults (0.5/0.5 and
  0.4/0.6) meet that.
- **MultiVector.Alignment** is `None` where the source raises `KeyError` for
  a sparse id missing from the master ids.
- **Text.LowerChar and Text.Lower** fold case for ASCII letters only, and
  **Text.IsDigit** and **Text.IsWordChar** accept only ASCII digits and
  word characters. Python's `str.lower`, `\d` and `\b` work on all of
  Unicode: the Kelvin sign U+212A lowers to "k", and an Arabic-Indic digit
  matches `\d`. So Tokenizer.Tokenize, Tokenizer.FullTextSearch, the four
  CitationParser recognizers and the TopicInference keyword votes are
  faithful on ASCII text only.
- **CitationIndex** defaults are not modelled. `opinion.get("id", filename)`
  and `str(...)` conversions are replaced by records that carry an id and
  string citations.
