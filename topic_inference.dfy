/** The data tables of the topic vote in `bm25_citation_boost.py`, kept apart
    from the vote itself. */
module TopicTables {

  datatype Topic = ConflictsOfInterest | CampaignFinance | GiftsHonoraria | Lobbying

  /** The topic string stored in the opinions' classification field. */
  function TopicName(t: Topic): (name: string)
    ensures |name| > 0
  {
    match t
    case ConflictsOfInterest => "conflicts_of_interest"
    case CampaignFinance => "campaign_finance"
    case GiftsHonoraria => "gifts_honoraria"
    case Lobbying => "lobbying"
  }

  lemma TopicNameInjective(t: Topic, u: Topic)
    ensures TopicName(t) == TopicName(u) ==> t == u
  {
    if t != u {
      assert TopicName(t)[0] != TopicName(u)[0] || TopicName(t)[1] != TopicName(u)[1];
    }
  }

  /** The statute table `_STATUTE_TOPIC`. */
  function StatuteTable(t: Topic): (bases: seq<string>)
  {
    match t
    case ConflictsOfInterest =>
      ["87100", "87101", "87102", "87103", "87104", "87105",
       "87200", "87201", "87202", "87203", "87206", "87207",
       "87300", "87301", "87302", "87302.3", "87302.6",
       "87400", "87450",
       "1090", "1091", "1092", "1093", "1094", "1095", "1096", "1097"]
    case CampaignFinance =>
      ["82015", "84200", "84201", "84202", "84203", "84204",
       "84211", "84300", "84301", "84302",
       "85100", "85101", "85200", "85201", "85300", "85301",
       "85302", "85303", "85304", "85305", "85306",
       "85500", "85601", "85700", "85800"]
    case GiftsHonoraria =>
      ["89501", "89502", "89503", "89506",
       "86201", "86202", "86203", "86204", "86205"]
    case Lobbying =>
      ["86100", "86101", "86102", "86103", "86104", "86105",
       "86110", "86112", "86113", "86114", "86115", "86116"]
  }

  /** `base in _STATUTE_TOPIC[t]`. */
  predicate InStatuteTable(t: Topic, base: string)
  {
    base in StatuteTable(t)
  }

  /** The keyword table `_KEYWORD_TOPIC`, in its order. */
  function Keywords(t: Topic): (kws: seq<string>)
    ensures |kws| > 0
  {
    match t
    case ConflictsOfInterest =>
      ["disqualif", "recus", "conflict", "1090", "self-deal", "financial interest", "abstain"]
    case CampaignFinance =>
      ["contribution", "campaign", "expenditure", "donor", "committee", "election"]
    case GiftsHonoraria =>
      ["gift", "honorari", "travel payment", "behest"]
    case Lobbying =>
      ["lobbying", "lobbyist", "lobbied"]
  }

}
/** The topic vote of `bm25_citation_boost.py`: statute tables, regulation
    ranges and keyword stems each cast votes; the tally is an insertion-ordered
    dictionary, and `max` picks the first topic with the highest count. */
module TopicInference {
  import opened Text
  import opened Ranking
  import opened CitationParser
  import opened TopicTables

  /** The iteration order of both topic tables. */
  const AllTopics: seq<Topic> := [ConflictsOfInterest, CampaignFinance, GiftsHonoraria, Lobbying]

  /** `int(base) if base.isdigit() else 0`. */
  function RegNumberValue(base: string): (n: nat)
  {
    if |base| > 0 && AllDigits(base) then DigitsValue(base) else 0
  }

  /** The `elif` chain over regulation ranges: at most one topic. */
  function RegTopic(base: string): (t: Option<Topic>)
  {
    var n := RegNumberValue(base);
    if 18700 <= n <= 18707 then Some(ConflictsOfInterest)
    else if 18215 <= n <= 18225 then Some(CampaignFinance)
    else if 18730 <= n <= 18735 then Some(GiftsHonoraria)
    else if 18610 <= n <= 18618 then Some(Lobbying)
    else None
  }

  /** The topics among `ts` whose statute table holds `base`, in order. */
  function TableHits(base: string, ts: seq<Topic>): (hits: seq<Topic>)
    ensures |hits| <= |ts|
    ensures forall t :: t in hits ==> t in ts && InStatuteTable(t, base)
  {
    if ts == [] then []
    else if InStatuteTable(ts[|ts| - 1], base) then TableHits(base, ts[..|ts| - 1]) + [ts[|ts| - 1]]
    else TableHits(base, ts[..|ts| - 1])
  }

  /** The votes of the statute loop, one per (citation, matching table). */
  function StatuteEvents(gov: seq<Citation>): (ev: seq<Topic>)
  {
    if gov == [] then []
    else StatuteEvents(gov[..|gov| - 1]) + TableHits(gov[|gov| - 1].base, AllTopics)
  }

  /** The votes of the regulation loop: at most one per regulation. */
  function RegEvents(regs: seq<Citation>): (ev: seq<Topic>)
    ensures |ev| <= |regs|
  {
    if regs == [] then []
    else if RegTopic(regs[|regs| - 1].base).Some? then
      RegEvents(regs[..|regs| - 1]) + [RegTopic(regs[|regs| - 1].base).value]
    else RegEvents(regs[..|regs| - 1])
  }

  /** Number of occurrences of `t` in `ts`. */
  function CountIn(ts: seq<Topic>, t: Topic): (n: nat)
    ensures n <= |ts|
    ensures n > 0 <==> t in ts
  {
    if ts == [] then 0 else CountIn(ts[..|ts| - 1], t) + (if ts[|ts| - 1] == t then 1 else 0)
  }

  lemma {:induction false} CountAppend(a: seq<Topic>, b: seq<Topic>, t: Topic)
    ensures CountIn(a + b, t) == CountIn(a, t) + CountIn(b, t)
  {
    if b != [] {
      CountAppend(a, b[..|b| - 1], t);
      assert (a + b)[..|a + b| - 1] == a + b[..|b| - 1];
    } else {
      assert a + b == a;
    }
  }

  /** One vote for `t` per keyword of `kws` found in the lower-cased query. */
  function KeywordHits(ql: string, kws: seq<string>, t: Topic): (ev: seq<Topic>)
    ensures |ev| <= |kws| && forall u :: u in ev ==> u == t
    ensures CountIn(ev, t) == |ev|
  {
    if kws == [] then []
    else if IsSubstring(kws[|kws| - 1], ql) then KeywordHits(ql, kws[..|kws| - 1], t) + [t]
    else KeywordHits(ql, kws[..|kws| - 1], t)
  }

  function KeywordEvents(ql: string, ts: seq<Topic>): (ev: seq<Topic>)
  {
    if ts == [] then []
    else KeywordEvents(ql, ts[..|ts| - 1]) + KeywordHits(ql, Keywords(ts[|ts| - 1]), ts[|ts| - 1])
  }

  /** All votes cast for a query, in the order the source casts them. */
  function Events(query: string, gov: seq<Citation>, regs: seq<Citation>): (ev: seq<Topic>)
  {
    StatuteEvents(gov) + RegEvents(regs) + KeywordEvents(Lower(query), AllTopics)
  }

  /** An insertion-ordered dictionary from topics to counts. */
  datatype Tally = Tally(order: seq<Topic>, count: map<Topic, nat>)

  /** `scores[t] = scores.get(t, 0) + 1`. */
  function Bump(d: Tally, t: Topic): (r: Tally)
  {
    if t in d.count then Tally(d.order, d.count[t := d.count[t] + 1])
    else Tally(d.order + [t], d.count[t := 1])
  }

  /** The dictionary left by casting the votes `ev` one after another. */
  function TallyOf(ev: seq<Topic>): (d: Tally)
  {
    if ev == [] then Tally([], map[]) else Bump(TallyOf(ev[..|ev| - 1]), ev[|ev| - 1])
  }

  /** One more vote at the end of the votes `b` cast after `a`. */
  lemma TallyAppendSnoc(a: seq<Topic>, b: seq<Topic>, t: Topic)
    ensures TallyOf(a + (b + [t])) == Bump(TallyOf(a + b), t)
  {
    assert a + (b + [t]) == (a + b) + [t];
    assert ((a + b) + [t])[..|a + b|] == a + b;
  }

  lemma TallyAssoc(a: seq<Topic>, b: seq<Topic>, c: seq<Topic>)
    ensures TallyOf((a + b) + c) == TallyOf(a + (b + c))
  {
    assert (a + b) + c == a + (b + c);
  }

  /** Each voted topic with its number of votes. */
  function CountMap(ev: seq<Topic>): (m: map<Topic, nat>)
    ensures m.Keys == Elems(ev)
    ensures forall t :: t in m ==> m[t] == CountIn(ev, t)
  {
    map t | t in Elems(ev) :: CountIn(ev, t)
  }

  /** The dictionary holds exactly the voted topics, each with its number of
      votes, in order of first vote. */
  lemma {:induction false} TallyCounts(ev: seq<Topic>)
    ensures TallyOf(ev) == Tally(Dedup(ev), CountMap(ev))
  {
    if ev != [] {
      var p := ev[..|ev| - 1];
      var t := ev[|ev| - 1];
      TallyCounts(p);
      DedupElems(p);
      CountMapSnoc(p, t);
      assert ev == p + [t];
    }
  }

  /** One more vote for `t` adds one to its count, or enters it with 1. */
  lemma CountMapSnoc(p: seq<Topic>, t: Topic)
    ensures t in CountMap(p) ==> CountMap(p + [t]) == CountMap(p)[t := CountMap(p)[t] + 1]
    ensures t !in CountMap(p) ==> CountMap(p + [t]) == CountMap(p)[t := 1]
  {
    var ev := p + [t];
    assert ev[..|ev| - 1] == p;
    var m0 := CountMap(p);
    var m := CountMap(ev);
    assert Elems(ev) == Elems(p) + {t};
    if t in m0 {
      assert m == m0[t := m0[t] + 1];
    } else {
      assert m == m0[t := 1];
    }
  }

  /** `max(scores, key=scores.get)`: the position of the first topic whose
      count no other count exceeds. */
  function BestIndex(order: seq<Topic>, count: map<Topic, nat>): (i: nat)
    requires order != [] && forall t :: t in order ==> t in count
    ensures i < |order|
    ensures forall j :: 0 <= j < |order| ==> count[order[j]] <= count[order[i]]
    ensures forall j :: 0 <= j < i ==> count[order[j]] < count[order[i]]
  {
    if |order| == 1 then 0
    else
      var b := BestIndex(order[..|order| - 1], count);
      if count[order[|order| - 1]] > count[order[b]] then |order| - 1 else b
  }

  /** The result of the vote `ev`: the first topic of highest count, when
      that count reaches 2. */
  function Choose(ev: seq<Topic>): (r: Option<Topic>)
  {
    if ev == [] then None
    else
      var o := Dedup(ev);
      var i := BestIndex(o, CountMap(ev));
      if CountIn(ev, o[i]) >= 2 then Some(o[i]) else None
  }

  /** What `infer_topic` returns. */
  function InferredTopic(query: string, gov: seq<Citation>, regs: seq<Citation>): (r: Option<Topic>)
  {
    Choose(Events(query, gov, regs))
  }

  lemma StatuteEventsSnoc(gov: seq<Citation>, i: nat)
    requires i < |gov|
    ensures StatuteEvents(gov[..i + 1]) == StatuteEvents(gov[..i]) + TableHits(gov[i].base, AllTopics)
  {
    assert gov[..i + 1][..i] == gov[..i];
  }

  lemma TableHitsSnoc(base: string, ts: seq<Topic>, k: nat)
    requires k < |ts|
    ensures InStatuteTable(ts[k], base) ==> TableHits(base, ts[..k + 1]) == TableHits(base, ts[..k]) + [ts[k]]
    ensures !InStatuteTable(ts[k], base) ==> TableHits(base, ts[..k + 1]) == TableHits(base, ts[..k])
  {
    assert ts[..k + 1][..k] == ts[..k];
  }

  /** The inner statute loop: one vote per table of `ts` holding `base`. */
  method CastTableVotes(d0: Tally, ghost ev0: seq<Topic>, base: string, ts: seq<Topic>) returns (d: Tally)
    requires d0 == TallyOf(ev0)
    ensures d == TallyOf(ev0 + TableHits(base, ts))
  {
    d := d0;
    assert ev0 + [] == ev0;
    for k := 0 to |ts|
      invariant d == TallyOf(ev0 + TableHits(base, ts[..k]))
    {
      TableHitsSnoc(base, ts, k);
      if InStatuteTable(ts[k], base) {
        TallyAppendSnoc(ev0, TableHits(base, ts[..k]), ts[k]);
        d := Bump(d, ts[k]);
      }
    }
    assert ts[..|ts|] == ts;
  }

  /** The statute loop: one vote per citation and matching table. */
  method CastStatuteVotes(d0: Tally, ghost ev0: seq<Topic>, gov: seq<Citation>) returns (d: Tally)
    requires d0 == TallyOf(ev0)
    ensures d == TallyOf(ev0 + StatuteEvents(gov))
  {
    d := d0;
    assert ev0 + [] == ev0;
    for i := 0 to |gov|
      invariant d == TallyOf(ev0 + StatuteEvents(gov[..i]))
    {
      d := CastTableVotes(d, ev0 + StatuteEvents(gov[..i]), gov[i].base, AllTopics);
      StatuteEventsSnoc(gov, i);
      TallyAssoc(ev0, StatuteEvents(gov[..i]), TableHits(gov[i].base, AllTopics));
    }
    assert gov[..|gov|] == gov;
  }

  lemma RegEventsSnoc(regs: seq<Citation>, i: nat)
    requires i < |regs|
    ensures RegTopic(regs[i].base).Some? ==> RegEvents(regs[..i + 1]) == RegEvents(regs[..i]) + [RegTopic(regs[i].base).value]
    ensures RegTopic(regs[i].base).None? ==> RegEvents(regs[..i + 1]) == RegEvents(regs[..i])
  {
    assert regs[..i + 1][..i] == regs[..i];
  }

  /** The regulation loop: the `elif` chain casts at most one vote. */
  method CastRegVotes(d0: Tally, ghost ev0: seq<Topic>, regs: seq<Citation>) returns (d: Tally)
    requires d0 == TallyOf(ev0)
    ensures d == TallyOf(ev0 + RegEvents(regs))
  {
    d := d0;
    assert ev0 + [] == ev0;
    for i := 0 to |regs|
      invariant d == TallyOf(ev0 + RegEvents(regs[..i]))
    {
      var t := RegTopic(regs[i].base);
      RegEventsSnoc(regs, i);
      if t.Some? {
        TallyAppendSnoc(ev0, RegEvents(regs[..i]), t.value);
        d := Bump(d, t.value);
      }
    }
    assert regs[..|regs|] == regs;
  }

  lemma KeywordEventsSnoc(ql: string, ts: seq<Topic>, k: nat)
    requires k < |ts|
    ensures KeywordEvents(ql, ts[..k + 1]) == KeywordEvents(ql, ts[..k]) + KeywordHits(ql, Keywords(ts[k]), ts[k])
  {
    assert ts[..k + 1][..k] == ts[..k];
  }

  lemma KeywordHitsSnoc(ql: string, kws: seq<string>, t: Topic, j: nat)
    requires j < |kws|
    ensures IsSubstring(kws[j], ql) ==> KeywordHits(ql, kws[..j + 1], t) == KeywordHits(ql, kws[..j], t) + [t]
    ensures !IsSubstring(kws[j], ql) ==> KeywordHits(ql, kws[..j + 1], t) == KeywordHits(ql, kws[..j], t)
  {
    assert kws[..j + 1][..j] == kws[..j];
  }

  /** The inner keyword loop: one vote for `t` per stem of `kws` in `ql`. */
  method CastStemVotes(d0: Tally, ghost ev0: seq<Topic>, ql: string, kws: seq<string>, t: Topic) returns (d: Tally)
    requires d0 == TallyOf(ev0)
    ensures d == TallyOf(ev0 + KeywordHits(ql, kws, t))
  {
    d := d0;
    assert ev0 + [] == ev0;
    for j := 0 to |kws|
      invariant d == TallyOf(ev0 + KeywordHits(ql, kws[..j], t))
    {
      KeywordHitsSnoc(ql, kws, t, j);
      if IsSubstring(kws[j], ql) {
        TallyAppendSnoc(ev0, KeywordHits(ql, kws[..j], t), t);
        d := Bump(d, t);
      }
    }
    assert kws[..|kws|] == kws;
  }

  /** The keyword loops: one vote per stem of each topic of `ts` found in `ql`. */
  method CastKeywordVotes(d0: Tally, ghost ev0: seq<Topic>, ql: string, ts: seq<Topic>) returns (d: Tally)
    requires d0 == TallyOf(ev0)
    ensures d == TallyOf(ev0 + KeywordEvents(ql, ts))
  {
    d := d0;
    assert ev0 + [] == ev0;
    for k := 0 to |ts|
      invariant d == TallyOf(ev0 + KeywordEvents(ql, ts[..k]))
    {
      d := CastStemVotes(d, ev0 + KeywordEvents(ql, ts[..k]), ql, Keywords(ts[k]), ts[k]);
      KeywordEventsSnoc(ql, ts, k);
      TallyAssoc(ev0, KeywordEvents(ql, ts[..k]), KeywordHits(ql, Keywords(ts[k]), ts[k]));
    }
    assert ts[..|ts|] == ts;
  }

  /** `infer_topic`: cast the votes into an ordered dictionary, then take the
      first topic of highest count when that count reaches 2. */
  method InferTopic(query: string, gov: seq<Citation>, regs: seq<Citation>) returns (r: Option<Topic>)
    ensures r == InferredTopic(query, gov, regs)
  {
    var d := Tally([], map[]);
    var ql := Lower(query);
    d := CastStatuteVotes(d, [], gov);
    ghost var se := StatuteEvents(gov);
    assert [] + se == se;
    d := CastRegVotes(d, se, regs);
    d := CastKeywordVotes(d, se + RegEvents(regs), ql, AllTopics);
    ghost var ev := Events(query, gov, regs);
    TallyCounts(ev);
    r := ChooseFromTally(d, ev);
  }

  /** The `if not scores` test and the `max` over the finished dictionary. */
  method ChooseFromTally(d: Tally, ghost ev: seq<Topic>) returns (r: Option<Topic>)
    requires d == Tally(Dedup(ev), CountMap(ev))
    ensures r == Choose(ev)
  {
    DedupElems(ev);
    if d.order == [] {
      return None;
    }
    var best := BestIndex(d.order, d.count);
    if d.count[d.order[best]] >= 2 {
      return Some(d.order[best]);
    }
    return None;
  }

  /** The chosen topic in terms of vote counts: none exactly when no topic
      has two votes; otherwise a topic no other topic outvotes, and ahead of
      every topic first voted for before it. */
  lemma ChooseVotes(ev: seq<Topic>)
    ensures Choose(ev).None? <==> forall t :: CountIn(ev, t) < 2
    ensures Choose(ev).Some? ==>
      CountIn(ev, Choose(ev).value) >= 2 && forall t :: CountIn(ev, t) <= CountIn(ev, Choose(ev).value)
    ensures Choose(ev).Some? ==> forall i, j :: 0 <= i < j < |Dedup(ev)| && Dedup(ev)[j] == Choose(ev).value ==>
      CountIn(ev, Dedup(ev)[i]) < CountIn(ev, Choose(ev).value)
  {
    if ev != [] {
      MaxCount(ev);
      DedupDistinct(ev);
      var o := Dedup(ev);
      var b := BestIndex(o, CountMap(ev));
      forall i, j | 0 <= i < j < |o| && o[j] == o[b] ensures CountIn(ev, o[i]) < CountIn(ev, o[b]) {
        assert j == b;
        assert o[i] in CountMap(ev);
      }
    }
  }

  /** No topic has more votes than the one `max` picks. */
  lemma MaxCount(ev: seq<Topic>)
    requires ev != []
    ensures forall t :: CountIn(ev, t) <= CountIn(ev, Dedup(ev)[BestIndex(Dedup(ev), CountMap(ev))])
  {
    DedupElems(ev);
    var o := Dedup(ev);
    var b := BestIndex(o, CountMap(ev));
    forall t ensures CountIn(ev, t) <= CountIn(ev, o[b]) {
      if t in ev {
        var j :| 0 <= j < |o| && o[j] == t;
      }
    }
  }

  /** In a list of distinct topics, the keyword votes for `t` are those of its
      own stems: at most one per stem. */
  lemma {:induction false} KeywordEventsCount(ql: string, ts: seq<Topic>, t: Topic)
    requires Distinct(ts)
    ensures CountIn(KeywordEvents(ql, ts), t) == if t in ts then |KeywordHits(ql, Keywords(t), t)| else 0
  {
    if ts != [] {
      var u := ts[|ts| - 1];
      var p := ts[..|ts| - 1];
      KeywordEventsCount(ql, p, t);
      var h := KeywordHits(ql, Keywords(u), u);
      CountAppend(KeywordEvents(ql, p), h, t);
      assert ts == p + [u];
      if u != t {
        assert t !in h;
      } else {
        assert t !in p;
      }
    }
  }

  /** Each regulation votes at most once, and each topic receives at most
      one keyword vote per stem. */
  lemma VoteBounds(query: string, regs: seq<Citation>, t: Topic)
    ensures |RegEvents(regs)| <= |regs|
    ensures CountIn(KeywordEvents(Lower(query), AllTopics), t) <= |Keywords(t)|
  {
    KeywordEventsCount(Lower(query), AllTopics, t);
  }

  /** A query holding only "1090" with that statute parsed from it: the
      statute table and the keyword "1090" give conflicts of interest two
      votes and the topic. */
  lemma Only1090(q: string, gov: seq<Citation>)
    requires q == "1090" && gov == [Citation("1090", "1090", "")]
    ensures Events(q, gov, []) == [ConflictsOfInterest, ConflictsOfInterest]
    ensures InferredTopic(q, gov, []) == Some(ConflictsOfInterest)
  {
    Only1090Statutes(gov);
    Only1090Keywords(q);
    var ev := [ConflictsOfInterest, ConflictsOfInterest];
    assert Events(q, gov, []) == ev;
    ChooseTwice(ev);
  }

  lemma ChooseTwice(ev: seq<Topic>)
    requires ev == [ConflictsOfInterest, ConflictsOfInterest]
    ensures Choose(ev) == Some(ConflictsOfInterest)
  {
    assert ev[..1] == [ConflictsOfInterest] && ev[..1][..0] == [];
    assert Dedup(ev) == [ConflictsOfInterest];
    assert CountIn(ev, ConflictsOfInterest) == 2;
  }

  lemma Only1090Statutes(gov: seq<Citation>)
    requires gov == [Citation("1090", "1090", "")]
    ensures StatuteEvents(gov) == [ConflictsOfInterest]
  {
    assert gov[..0] == [];
    Only1090Tables(gov[0].base);
  }

  lemma Only1090Tables(base: string)
    requires base == "1090"
    ensures TableHits(base, AllTopics) == [ConflictsOfInterest]
  {
    ConflictsTableHas1090();
    OtherTablesLack1090();
    FirstTableOnly(base, AllTopics);
  }

  /** Of four tables, only the first holds `base`. */
  lemma FirstTableOnly(base: string, ts: seq<Topic>)
    requires |ts| == 4 && InStatuteTable(ts[0], base)
    requires !InStatuteTable(ts[1], base) && !InStatuteTable(ts[2], base) && !InStatuteTable(ts[3], base)
    ensures TableHits(base, ts) == [ts[0]]
  {
    TableHitsSnoc(base, ts, 0);
    TableHitsSnoc(base, ts, 1);
    TableHitsSnoc(base, ts, 2);
    TableHitsSnoc(base, ts, 3);
    assert ts[..0] == [] && ts[..4] == ts;
  }

  lemma ConflictsTableHas1090()
    ensures InStatuteTable(ConflictsOfInterest, "1090")
  {
    assert StatuteTable(ConflictsOfInterest)[19] == "1090";
  }

  /** The other tables hold five-digit numbers only. */
  lemma OtherTablesLack1090()
    ensures !InStatuteTable(CampaignFinance, "1090")
    ensures !InStatuteTable(GiftsHonoraria, "1090")
    ensures !InStatuteTable(Lobbying, "1090")
  {
    forall t | t != ConflictsOfInterest
      ensures forall i :: 0 <= i < |StatuteTable(t)| ==> |StatuteTable(t)[i]| == 5
    {
    }
  }

  lemma Only1090Keywords(q: string)
    requires q == "1090"
    ensures KeywordEvents(Lower(q), AllTopics) == [ConflictsOfInterest]
  {
    var ql := Lower(q);
    assert ql == "1090";
    Only1090FirstTwo(ql);
    Only1090LastTwo(ql);
  }

  lemma Only1090FirstTwo(ql: string)
    requires ql == "1090"
    ensures KeywordEvents(ql, AllTopics[..2]) == [ConflictsOfInterest]
  {
    Only1090Conflicts(ql);
    LongerStemsMiss(ql, CampaignFinance);
    assert AllTopics[..0] == [];
    KeywordEventsStep(ql, AllTopics, 0, [], [ConflictsOfInterest]);
    KeywordEventsStep(ql, AllTopics, 1, [ConflictsOfInterest], []);
  }

  lemma Only1090LastTwo(ql: string)
    requires ql == "1090" && KeywordEvents(ql, AllTopics[..2]) == [ConflictsOfInterest]
    ensures KeywordEvents(ql, AllTopics) == [ConflictsOfInterest]
  {
    LongerStemsMiss(ql, Lobbying);
    Only1090Gifts(ql);
    KeywordEventsStep(ql, AllTopics, 2, [ConflictsOfInterest], []);
    KeywordEventsStep(ql, AllTopics, 3, [ConflictsOfInterest], []);
    assert AllTopics[..4] == AllTopics;
  }

  /** One more topic's keyword votes, with both parts already known. */
  lemma KeywordEventsStep(ql: string, ts: seq<Topic>, k: nat, prior: seq<Topic>, hits: seq<Topic>)
    requires k < |ts| && KeywordEvents(ql, ts[..k]) == prior
    requires KeywordHits(ql, Keywords(ts[k]), ts[k]) == hits
    ensures KeywordEvents(ql, ts[..k + 1]) == prior + hits
  {
    KeywordEventsSnoc(ql, ts, k);
  }

  /** A stem longer than the query is not in it. */
  lemma LongerMisses(kw: string, ql: string)
    requires |kw| > |ql|
    ensures !IsSubstring(kw, ql)
  {
  }

  lemma Only1090Conflicts(ql: string)
    requires ql == "1090"
    ensures KeywordHits(ql, Keywords(ConflictsOfInterest), ConflictsOfInterest) == [ConflictsOfInterest]
  {
    var kws := Keywords(ConflictsOfInterest);
    assert IsSubstring(kws[3], ql) by {
      assert ql[..4] == "1090";
    }
    forall j | 0 <= j < |kws| && j != 3 ensures !IsSubstring(kws[j], ql) {
      LongerMisses(kws[j], ql);
    }
    SingleHit(ql, kws, ConflictsOfInterest, 3, |kws|);
    assert kws[..|kws|] == kws;
  }

  /** When only the stem at `h` is found, the first `n` stems vote once if
      they include it. */
  lemma {:induction false} SingleHit(ql: string, kws: seq<string>, t: Topic, h: nat, n: nat)
    requires h < |kws| && n <= |kws| && IsSubstring(kws[h], ql)
    requires forall j :: 0 <= j < |kws| && j != h ==> !IsSubstring(kws[j], ql)
    ensures KeywordHits(ql, kws[..n], t) == if n > h then [t] else []
  {
    if n > 0 {
      SingleHit(ql, kws, t, h, n - 1);
      KeywordHitsSnoc(ql, kws, t, n - 1);
    }
  }

  lemma Only1090Gifts(ql: string)
    requires ql == "1090"
    ensures KeywordHits(ql, Keywords(GiftsHonoraria), GiftsHonoraria) == []
  {
    var kws := Keywords(GiftsHonoraria);
    assert !IsSubstring(kws[0], ql) by {
      assert ql[..4][0] == '1' && kws[0][0] == 'g';
      LongerMisses(kws[0], ql[1..]);
    }
    forall j | 1 <= j < |kws| ensures !IsSubstring(kws[j], ql) {
      LongerMisses(kws[j], ql);
    }
    NoHitsPrefix(ql, kws, GiftsHonoraria, |kws|);
    assert kws[..|kws|] == kws;
  }

  /** A topic whose stems are all longer than the query gets no keyword vote. */
  lemma LongerStemsMiss(ql: string, t: Topic)
    requires forall j :: 0 <= j < |Keywords(t)| ==> |Keywords(t)[j]| > |ql|
    ensures KeywordHits(ql, Keywords(t), t) == []
  {
    forall j | 0 <= j < |Keywords(t)| ensures !IsSubstring(Keywords(t)[j], ql) {
      LongerMisses(Keywords(t)[j], ql);
    }
    NoHitsPrefix(ql, Keywords(t), t, |Keywords(t)|);
    assert Keywords(t)[..|Keywords(t)|] == Keywords(t);
  }

  lemma {:induction false} NoHitsPrefix(ql: string, kws: seq<string>, t: Topic, n: nat)
    requires n <= |kws| && forall j :: 0 <= j < |kws| ==> !IsSubstring(kws[j], ql)
    ensures KeywordHits(ql, kws[..n], t) == []
  {
    if n > 0 {
      NoHitsPrefix(ql, kws, t, n - 1);
      KeywordHitsSnoc(ql, kws, t, n - 1);
    }
  }
}
