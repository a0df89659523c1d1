/** The four inverted maps of the citation-boost engine, built by one pass
    over the opinion records: exact government-code citation, its leading
    number, exact regulation, and primary topic, each to the set of opinion
    ids that carry it. */
module CitationIndex {
  import opened Text
  import opened Ranking

  /** The fields of one opinion record the index reads. `topic` is
      `classification.topic_primary`, `None` when missing or null. */
  datatype Opinion = Opinion(id: Id, gov: seq<string>, regs: seq<string>, topic: Option<string>)

  datatype Kind = GcExact | GcBase | RegExact | TopicKey

  type Inverted = map<string, set<Id>>

  datatype CiteIndex = CiteIndex(gcExact: Inverted, gcBase: Inverted, regExact: Inverted, topic: Inverted)

  /** `re.match(r"(\d+)", gc)`: the leading run of digits, if there is one. */
  function LeadingNumber(gc: string): (r: Option<string>)
    ensures r.Some? ==> |r.value| > 0 && AllDigits(r.value) && r.value <= gc
    ensures r.None? <==> (gc == [] || !IsDigit(gc[0]))
  {
    var e := DigitRunEnd(gc, 0);
    if e > 0 then Some(gc[..e]) else None
  }

  /** The leading numbers of the government-code citations, in order. */
  function BaseKeys(gov: seq<string>): (ks: seq<string>)
    ensures |ks| <= |gov|
  {
    if gov == [] then []
    else
      var n := LeadingNumber(gov[|gov| - 1]);
      if n.Some? then BaseKeys(gov[..|gov| - 1]) + [n.value] else BaseKeys(gov[..|gov| - 1])
  }

  /** `if topic and topic not in ("None", "other")`. */
  predicate TopicCounts(topic: Option<string>)
  {
    topic.Some? && topic.value != "" && topic.value != "None" && topic.value != "other"
  }

  /** The keys under which one opinion is filed in the map of `kind`. */
  function Keys(kind: Kind, o: Opinion): (ks: seq<string>)
  {
    match kind
    case GcExact => o.gov
    case GcBase => BaseKeys(o.gov)
    case RegExact => o.regs
    case TopicKey => if TopicCounts(o.topic) then [o.topic.value] else []
  }

  /** `m.setdefault(k, set()).add(id)`. */
  function Add(m: Inverted, k: string, id: Id): (r: Inverted)
    ensures r.Keys == m.Keys + {k}
    ensures r[k] == (if k in m then m[k] else {}) + {id}
    ensures forall k' :: k' in m && k' != k ==> r[k'] == m[k']
  {
    m[k := (if k in m then m[k] else {}) + {id}]
  }

  /** Filing one id under each key of `ks` in turn. */
  function AddAll(m: Inverted, ks: seq<string>, id: Id): (r: Inverted)
  {
    if ks == [] then m else Add(AddAll(m, ks[..|ks| - 1], id), ks[|ks| - 1], id)
  }

  /** The map of `kind` after the records `ops`, one after another. */
  function Index(kind: Kind, ops: seq<Opinion>): (m: Inverted)
  {
    if ops == [] then map[]
    else
      var o := ops[|ops| - 1];
      AddAll(Index(kind, ops[..|ops| - 1]), Keys(kind, o), o.id)
  }

  function IndexOf(ops: seq<Opinion>): (ix: CiteIndex)
  {
    CiteIndex(Index(GcExact, ops), Index(GcBase, ops), Index(RegExact, ops), Index(TopicKey, ops))
  }

  // ---------------------------------------------------------------------
  // What the maps hold.

  /** Filing under `ks` adds `id` under exactly the keys of `ks`. */
  lemma {:induction false} AddAllContents(m: Inverted, ks: seq<string>, id: Id)
    ensures forall k :: k in AddAll(m, ks, id) <==> k in m || k in ks
    ensures forall k :: k in AddAll(m, ks, id) ==>
      AddAll(m, ks, id)[k] == (if k in m then m[k] else {}) + (if k in ks then {id} else {})
  {
    if ks != [] {
      var p := ks[..|ks| - 1];
      AddAllContents(m, p, id);
      assert ks == p + [ks[|ks| - 1]];
    }
  }

  /** The maps are inverted indexes of the records: a key is present exactly
      when some record carries it, and its set holds exactly the ids of the
      records that carry it. */
  lemma IndexInverted(kind: Kind, ops: seq<Opinion>)
    ensures forall k :: k in Index(kind, ops) <==> exists o :: o in ops && k in Keys(kind, o)
    ensures forall k, id :: k in Index(kind, ops) ==>
      (id in Index(kind, ops)[k] <==> exists o :: o in ops && o.id == id && k in Keys(kind, o))
  {
    IndexKeys(kind, ops);
    IndexIds(kind, ops);
  }

  lemma {:induction false} IndexKeys(kind: Kind, ops: seq<Opinion>)
    ensures forall k :: k in Index(kind, ops) <==> exists o :: o in ops && k in Keys(kind, o)
  {
    if ops != [] {
      var p := ops[..|ops| - 1];
      var o := ops[|ops| - 1];
      IndexKeys(kind, p);
      AddAllContents(Index(kind, p), Keys(kind, o), o.id);
      LastRecord(ops);
      forall k ensures k in Index(kind, ops) <==> exists o' :: o' in ops && k in Keys(kind, o') {
        if k in Keys(kind, o) {
          assert o in ops;
        }
      }
    }
  }

  lemma {:induction false} IndexIds(kind: Kind, ops: seq<Opinion>)
    ensures forall k, id :: k in Index(kind, ops) ==>
      (id in Index(kind, ops)[k] <==> exists o :: o in ops && o.id == id && k in Keys(kind, o))
  {
    if ops != [] {
      var p := ops[..|ops| - 1];
      var o := ops[|ops| - 1];
      IndexIds(kind, p);
      IndexKeys(kind, p);
      AddAllContents(Index(kind, p), Keys(kind, o), o.id);
      LastRecord(ops);
      forall k, id | k in Index(kind, ops)
        ensures id in Index(kind, ops)[k] <==> exists o' :: o' in ops && o'.id == id && k in Keys(kind, o')
      {
        if k in Keys(kind, o) && o.id == id {
          assert o in ops;
        }
      }
    }
  }

  /** A non-empty list is its prefix and its last record. */
  lemma LastRecord(ops: seq<Opinion>)
    requires ops != []
    ensures forall o :: o in ops <==> o in ops[..|ops| - 1] || o == ops[|ops| - 1]
  {
    assert ops == ops[..|ops| - 1] + [ops[|ops| - 1]];
  }

  /** Every key of the base map is the leading number of some citation of
      some record, so it is a non-empty run of digits. */
  lemma {:induction false} BaseKeysAreNumbers(gov: seq<string>)
    ensures forall k :: k in BaseKeys(gov) ==>
      |k| > 0 && AllDigits(k) && exists g :: g in gov && LeadingNumber(g) == Some(k)
  {
    if gov != [] {
      BaseKeysAreNumbers(gov[..|gov| - 1]);
    }
  }

  /** A record whose topic is missing, empty, "None" or "other" is filed
      under no topic. */
  lemma TopicKeys(o: Opinion)
    ensures |Keys(TopicKey, o)| <= 1
    ensures Keys(TopicKey, o) == [] <==> !TopicCounts(o.topic)
  {
  }

  // ---------------------------------------------------------------------
  // `_build_citation_index`: the loops over the records.

  lemma IndexSnoc(kind: Kind, ops: seq<Opinion>, i: nat)
    requires i < |ops|
    ensures Index(kind, ops[..i + 1]) == AddAll(Index(kind, ops[..i]), Keys(kind, ops[i]), ops[i].id)
  {
    assert ops[..i + 1][..i] == ops[..i];
  }

  lemma AddAllSnoc(m: Inverted, ks: seq<string>, id: Id, j: nat)
    requires j < |ks|
    ensures AddAll(m, ks[..j + 1], id) == Add(AddAll(m, ks[..j], id), ks[j], id)
  {
    assert ks[..j + 1][..j] == ks[..j];
  }

  lemma BaseKeysSnoc(gov: seq<string>, j: nat)
    requires j < |gov|
    ensures LeadingNumber(gov[j]).Some? ==> BaseKeys(gov[..j + 1]) == BaseKeys(gov[..j]) + [LeadingNumber(gov[j]).value]
    ensures LeadingNumber(gov[j]).None? ==> BaseKeys(gov[..j + 1]) == BaseKeys(gov[..j])
  {
    assert gov[..j + 1][..j] == gov[..j];
  }

  /** `AddAll` over `a + [k]` is one more `Add` after `a`. */
  lemma AddAllAppend(m: Inverted, a: seq<string>, k: string, id: Id)
    ensures AddAll(m, a + [k], id) == Add(AddAll(m, a, id), k, id)
  {
    assert (a + [k])[..|a|] == a;
  }

  /** The loop over `government_code`: each citation is filed under itself
      and, when it starts with digits, under its leading number. */
  method FileGovCode(exact0: Inverted, base0: Inverted, gov: seq<string>, id: Id)
    returns (exact: Inverted, base: Inverted)
    ensures exact == AddAll(exact0, gov, id)
    ensures base == AddAll(base0, BaseKeys(gov), id)
  {
    exact, base := exact0, base0;
    for j := 0 to |gov|
      invariant exact == AddAll(exact0, gov[..j], id)
      invariant base == AddAll(base0, BaseKeys(gov[..j]), id)
    {
      var gc := gov[j];
      AddAllSnoc(exact0, gov, id, j);
      exact := Add(exact, gc, id);
      var n := LeadingNumber(gc);
      BaseKeysSnoc(gov, j);
      if n.Some? {
        AddAllAppend(base0, BaseKeys(gov[..j]), n.value, id);
        base := Add(base, n.value, id);
      }
    }
    assert gov[..|gov|] == gov;
  }

  /** The loop over `regulations`. */
  method FileKeys(m0: Inverted, ks: seq<string>, id: Id) returns (m: Inverted)
    ensures m == AddAll(m0, ks, id)
  {
    m := m0;
    for j := 0 to |ks|
      invariant m == AddAll(m0, ks[..j], id)
    {
      AddAllSnoc(m0, ks, id, j);
      m := Add(m, ks[j], id);
    }
    assert ks[..|ks|] == ks;
  }

  /** The body of the walk over the records, in the order they are read. */
  method BuildCitationIndex(ops: seq<Opinion>) returns (ix: CiteIndex)
    ensures ix == IndexOf(ops)
  {
    var gcExact: Inverted := map[];
    var gcBase: Inverted := map[];
    var regExact: Inverted := map[];
    var topicMap: Inverted := map[];
    for i := 0 to |ops|
      invariant gcExact == Index(GcExact, ops[..i]) && gcBase == Index(GcBase, ops[..i])
      invariant regExact == Index(RegExact, ops[..i]) && topicMap == Index(TopicKey, ops[..i])
    {
      var o := ops[i];
      IndexSnoc(GcExact, ops, i);
      IndexSnoc(GcBase, ops, i);
      IndexSnoc(RegExact, ops, i);
      IndexSnoc(TopicKey, ops, i);
      gcExact, gcBase := FileGovCode(gcExact, gcBase, o.gov, o.id);
      regExact := FileKeys(regExact, o.regs, o.id);
      if TopicCounts(o.topic) {
        assert AddAll(topicMap, [o.topic.value], o.id) == Add(AddAll(topicMap, [], o.id), o.topic.value, o.id);
        topicMap := Add(topicMap, o.topic.value, o.id);
      }
    }
    assert ops[..|ops|] == ops;
    ix := CiteIndex(gcExact, gcBase, regExact, topicMap);
  }
}
