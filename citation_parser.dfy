/** `parse_query_citations` of src/engines/bm25_citation_boost.py: four
    regular expressions, run in priority order (prefixed statutes, prefixed
    regulations, bare statutes, bare regulations), each found citation
    appended unless its raw text was already seen in that list. Each
    expression is a hand-written recognizer; `FindAll` is `re.finditer`. */
module CitationParser {
  import opened Text
  import opened Ranking

  /** `{"raw": ..., "base": ..., "subsection": ...}`. */
  datatype Citation = Citation(raw: string, base: string, subsection: string)

  /** One match object: group 1, the optional group 2 and the end offset. */
  datatype Found = Found(group1: string, group2: Option<string>, end: nat)

  datatype Rule = PrefixedStatute | PrefixedReg | BareStatute | BareReg

  /** `\b` at offset `i`: a word character on exactly one side. */
  predicate IsBoundary(s: string, i: nat)
    requires i <= |s|
  {
    (i > 0 && IsWordChar(s[i - 1])) != (i < |s| && IsWordChar(s[i]))
  }

  /** `\([a-zA-Z0-9]\)`. */
  predicate IsParenSub(t: string)
  {
    |t| == 3 && t[0] == '(' && IsAsciiAlnum(t[1]) && t[2] == ')'
  }

  predicate ParenSubAt(s: string, e: nat)
  {
    e + 3 <= |s| && IsParenSub(s[e..e + 3])
  }

  /** Group 1 of a regulation pattern with a base of `i` digits: the
      digits, then optionally a dot and at least one digit. */
  predicate RegNumber(full: string, i: nat)
  {
    i <= |full| && (forall j :: 0 <= j < i ==> IsDigit(full[j]))
    && (i == |full| || (full[i] == '.' && i + 1 < |full| && forall j :: i < j < |full| ==> IsDigit(full[j])))
  }

  // ---------------------------------------------------------------------
  // The four recognizers. The prefixed ones have no `\b` and ignore case.

  /** `Section|Gov(?:ernment)?\.?\s*Code`, returning the offset after it. No
      choice point can be revisited to any effect: after `gov` the letters
      that follow decide every optional part. */
  function StatuteKeywordEnd(s: string, p: nat): (k: Option<nat>)
    ensures k.Some? ==> p < k.value <= |s|
  {
    if LowerAt(s, p, "section") then Some(p + 7)
    else if LowerAt(s, p, "gov") then
      var q := if LowerAt(s, p + 3, "ernment") then p + 10 else p + 3;
      var q2 := if q < |s| && s[q] == '.' then q + 1 else q;
      var q3 := SpaceRunEnd(s, q2);
      if LowerAt(s, q3, "code") then Some(q3 + 4) else None
    else None
  }

  /** `(?:Section|Gov(?:ernment)?\.?\s*Code)\s+(\d{3,5})(\([a-zA-Z0-9]\))?`. */
  function PrefixedStatuteAt(s: string, p: nat): (m: Option<Found>)
    ensures m.Some? ==> p < m.value.end <= |s|
    ensures m.Some? ==> 3 <= |m.value.group1| <= 5 && AllDigits(m.value.group1)
    ensures m.Some? && m.value.group2.Some? ==> IsParenSub(m.value.group2.value)
  {
    match StatuteKeywordEnd(s, p)
    case None => None
    case Some(k) =>
      var w := SpaceRunEnd(s, k);
      var d := DigitRunEnd(s, w);
      if w == k || d - w < 3 then None
      else
        var e := Min(d, w + 5);
        if ParenSubAt(s, e) then Some(Found(s[w..e], Some(s[e..e + 3]), e + 3))
        else Some(Found(s[w..e], None, e))
  }

  /** `\d{4,5}(?:\.\d+)?` at `w`, with nothing required after it. */
  function RegDigitsAt(s: string, w: nat): (m: Option<Found>)
    requires w <= |s|
    ensures m.Some? ==> w < m.value.end <= |s| && m.value.group2.None?
    ensures m.Some? ==> RegNumber(m.value.group1, 4) || RegNumber(m.value.group1, 5)
  {
    var d := DigitRunEnd(s, w);
    if d - w < 4 then None
    else
      var e := Min(d, w + 5);
      if e + 1 < |s| && s[e] == '.' && IsDigit(s[e + 1]) then
        var f := DigitRunEnd(s, e + 1);
        RegSliceDot(s, w, e, f);
        Some(Found(s[w..f], None, f))
      else
        RegSliceBare(s, w, e);
        Some(Found(s[w..e], None, e))
  }

  lemma RegSliceDot(s: string, w: nat, e: nat, f: nat)
    requires w <= e && e + 1 < f <= |s| && s[e] == '.'
    requires forall t :: w <= t < e ==> IsDigit(s[t])
    requires forall t :: e < t < f ==> IsDigit(s[t])
    ensures RegNumber(s[w..f], e - w)
  {
    var full := s[w..f];
    assert forall j :: 0 <= j < |full| ==> full[j] == s[w + j];
  }

  lemma RegSliceBare(s: string, w: nat, e: nat)
    requires w <= e <= |s| && forall t :: w <= t < e ==> IsDigit(s[t])
    ensures RegNumber(s[w..e], e - w)
  {
    var full := s[w..e];
    assert forall j :: 0 <= j < |full| ==> full[j] == s[w + j];
  }

  /** `Reg(?:ulation)?\.?`, returning the offset after it. */
  function RegKeywordEnd(s: string, p: nat): (k: Option<nat>)
    ensures k.Some? ==> p < k.value <= |s|
  {
    if !LowerAt(s, p, "reg") then None
    else
      var q := if LowerAt(s, p + 3, "ulation") then p + 10 else p + 3;
      Some(if q < |s| && s[q] == '.' then q + 1 else q)
  }

  /** `(?:Reg(?:ulation)?\.?)\s+(\d{4,5}(?:\.\d+)?)`. */
  function PrefixedRegAt(s: string, p: nat): (m: Option<Found>)
    ensures m.Some? ==> p < m.value.end <= |s| && m.value.group2.None?
    ensures m.Some? ==> RegNumber(m.value.group1, 4) || RegNumber(m.value.group1, 5)
  {
    match RegKeywordEnd(s, p)
    case None => None
    case Some(k) =>
      var w := SpaceRunEnd(s, k);
      if w == k then None else RegDigitsAt(s, w)
  }

  /** The end of `8[1-9]\d{3}|90\d{3}|91014|109[0-7]` at `p`. The first
      characters of the alternatives tell them apart, so at most one applies. */
  function BareStatuteNumberEnd(s: string, p: nat): (e: Option<nat>)
    ensures e.Some? ==> p + 4 <= e.value <= p + 5 && e.value <= |s| && AllDigits(s[p..e.value])
  {
    if p + 5 <= |s| && s[p] == '8' && '1' <= s[p + 1] <= '9' && IsDigit(s[p + 2]) && IsDigit(s[p + 3]) && IsDigit(s[p + 4])
    then Some(p + 5)
    else if p + 5 <= |s| && s[p] == '9' && s[p + 1] == '0' && IsDigit(s[p + 2]) && IsDigit(s[p + 3]) && IsDigit(s[p + 4])
    then Some(p + 5)
    else if p + 5 <= |s| && s[p..p + 5] == "91014" then Some(p + 5)
    else if p + 4 <= |s| && s[p] == '1' && s[p + 1] == '0' && s[p + 2] == '9' && '0' <= s[p + 3] <= '7'
    then Some(p + 4)
    else None
  }

  /** `\b(8[1-9]\d{3}|90\d{3}|91014|109[0-7])(?:\(([a-zA-Z0-9])\))?\b`. When
      the subsection is followed by a non-word character or the end, the
      trailing `\b` fails there and the match falls back to the number alone. */
  function BareStatuteAt(s: string, p: nat): (m: Option<Found>)
    ensures m.Some? ==> p < m.value.end <= |s|
    ensures m.Some? ==> 4 <= |m.value.group1| <= 5 && AllDigits(m.value.group1)
    ensures m.Some? && m.value.group2.Some? ==> |m.value.group2.value| == 1 && IsAsciiAlnum(m.value.group2.value[0])
  {
    if p > |s| || !IsBoundary(s, p) then None
    else
      match BareStatuteNumberEnd(s, p)
      case None => None
      case Some(e) =>
        if ParenSubAt(s, e) && IsBoundary(s, e + 3) then Some(Found(s[p..e], Some([s[e + 1]]), e + 3))
        else if IsBoundary(s, e) then Some(Found(s[p..e], None, e))
        else None
  }

  /** `\b(18\d{3}(?:\.\d+)?)\b`. A dotted suffix followed by a letter falls
      back to the five digits, since `\b` always holds before the dot. */
  function BareRegAt(s: string, p: nat): (m: Option<Found>)
    ensures m.Some? ==> p < m.value.end <= |s| && m.value.group2.None?
    ensures m.Some? ==> RegNumber(m.value.group1, 5)
  {
    if p + 5 > |s| || !IsBoundary(s, p) then None
    else if !(s[p] == '1' && s[p + 1] == '8' && IsDigit(s[p + 2]) && IsDigit(s[p + 3]) && IsDigit(s[p + 4])) then None
    else
      var e := p + 5;
      if e + 1 < |s| && s[e] == '.' && IsDigit(s[e + 1]) && IsBoundary(s, DigitRunEnd(s, e + 1)) then
        var f := DigitRunEnd(s, e + 1);
        Some(Found(s[p..f], None, f))
      else if IsBoundary(s, e) then Some(Found(s[p..e], None, e))
      else None
  }

  function MatchAt(rule: Rule, s: string, p: nat): (m: Option<Found>)
    ensures m.Some? ==> p < m.value.end <= |s|
  {
    match rule
    case PrefixedStatute => PrefixedStatuteAt(s, p)
    case PrefixedReg => PrefixedRegAt(s, p)
    case BareStatute => BareStatuteAt(s, p)
    case BareReg => BareRegAt(s, p)
  }

  /** `re.finditer`: try every offset from left to right and resume after
      each match. */
  function FindAll(rule: Rule, s: string, p: nat): (ms: seq<Found>)
    requires p <= |s|
    decreases |s| - p
  {
    if p == |s| then []
    else
      match MatchAt(rule, s, p)
      case Some(m) => [m] + FindAll(rule, s, m.end)
      case None => FindAll(rule, s, p + 1)
  }

  // ---------------------------------------------------------------------
  // From match objects to citation records.

  /** Prefixed: `sub = m.group(2) or ""`; bare: `sub = f"({letter})"` when a
      letter was captured. `raw = base + sub`. */
  function StatuteCitation(rule: Rule, m: Found): (c: Citation)
  {
    var sub :=
      match m.group2
      case None => ""
      case Some(g) => if g == "" then "" else if rule == BareStatute then "(" + g + ")" else g;
    Citation(m.group1 + sub, m.group1, sub)
  }

  /** The offset of the first `.` in `t`. */
  function FirstDot(t: string): (i: nat)
    requires '.' in t
    ensures i < |t| && t[i] == '.' && forall j :: 0 <= j < i ==> t[j] != '.'
  {
    if t[0] == '.' then 0 else FirstDot(t[1..]) + 1
  }

  /** `base = full.split(".")[0]`, and `sub = "." + full.split(".", 1)[1]`
      when `full` holds a dot. */
  function RegCitation(full: string): (c: Citation)
  {
    if '.' in full then
      var i := FirstDot(full);
      Citation(full, full[..i], "." + full[i + 1..])
    else Citation(full, full, "")
  }

  function CitationsOf(rule: Rule, ms: seq<Found>): (cs: seq<Citation>)
    ensures |cs| == |ms|
  {
    seq(|ms|, i requires 0 <= i < |ms| =>
      if rule == PrefixedReg || rule == BareReg then RegCitation(ms[i].group1) else StatuteCitation(rule, ms[i]))
  }

  function Cited(rule: Rule, s: string): (cs: seq<Citation>)
  {
    CitationsOf(rule, FindAll(rule, s, 0))
  }

  function Raws(cs: seq<Citation>): (r: set<string>)
  {
    set c | c in cs :: c.raw
  }

  /** Append each citation of `cs` whose raw text is not yet in the list,
      as the `if raw not in seen` loops do. */
  function AddUnseen(acc: seq<Citation>, cs: seq<Citation>): (r: seq<Citation>)
  {
    if cs == [] then acc
    else
      var a := AddUnseen(acc, cs[..|cs| - 1]);
      if cs[|cs| - 1].raw in Raws(a) then a else a + [cs[|cs| - 1]]
  }

  function GovCodeOf(query: string): (cs: seq<Citation>)
  {
    AddUnseen(AddUnseen([], Cited(PrefixedStatute, query)), Cited(BareStatute, query))
  }

  function RegulationsOf(query: string): (cs: seq<Citation>)
  {
    AddUnseen(AddUnseen([], Cited(PrefixedReg, query)), Cited(BareReg, query))
  }

  // ---------------------------------------------------------------------
  // The parser as the source writes it: four loops over the matches.

  /** One `for m in ...finditer(query)` loop: append the unseen citations
      and grow the `seen` set along. */
  method CollectUnseen(acc: seq<Citation>, seen: set<string>, cs: seq<Citation>)
    returns (out: seq<Citation>, seenOut: set<string>)
    requires seen == Raws(acc)
    ensures out == AddUnseen(acc, cs) && seenOut == Raws(out)
  {
    out, seenOut := acc, seen;
    for i := 0 to |cs|
      invariant out == AddUnseen(acc, cs[..i]) && seenOut == Raws(out)
    {
      assert cs[..i + 1][..i] == cs[..i];
      if cs[i].raw !in seenOut {
        seenOut := seenOut + {cs[i].raw};
        out := out + [cs[i]];
      }
    }
    assert cs[..|cs|] == cs;
  }

  method ParseQueryCitations(query: string) returns (govCode: seq<Citation>, regulations: seq<Citation>)
    ensures govCode == GovCodeOf(query) && regulations == RegulationsOf(query)
  {
    var seenGc: set<string> := {};
    var seenReg: set<string> := {};
    govCode, seenGc := CollectUnseen([], seenGc, Cited(PrefixedStatute, query));
    regulations, seenReg := CollectUnseen([], seenReg, Cited(PrefixedReg, query));
    govCode, seenGc := CollectUnseen(govCode, seenGc, Cited(BareStatute, query));
    regulations, seenReg := CollectUnseen(regulations, seenReg, Cited(BareReg, query));
  }

  // ---------------------------------------------------------------------
  // What the parser promises.

  /** A statute citation: `raw == base + subsection`, three to five digits,
      and a subsection that is empty or `(x)`. */
  predicate StatuteShape(c: Citation)
  {
    c.raw == c.base + c.subsection && 3 <= |c.base| <= 5 && AllDigits(c.base)
    && (c.subsection == "" || IsParenSub(c.subsection))
  }

  /** A regulation citation: `raw == base + subsection`, four or five digits,
      and a subsection that is empty or a dot followed by digits. */
  predicate RegShape(c: Citation)
  {
    c.raw == c.base + c.subsection && 4 <= |c.base| <= 5 && AllDigits(c.base)
    && (c.subsection == "" || (|c.subsection| >= 2 && c.subsection[0] == '.' && AllDigits(c.subsection[1..])))
  }

  lemma {:induction false} FindAllShapes(rule: Rule, s: string, p: nat)
    requires p <= |s|
    ensures forall m :: m in FindAll(rule, s, p) ==> FoundShape(rule, m)
    decreases |s| - p
  {
    if p < |s| {
      MatchAtShape(rule, s, p);
      match MatchAt(rule, s, p)
      case Some(m) => FindAllShapes(rule, s, m.end);
      case None => FindAllShapes(rule, s, p + 1);
    }
  }

  /** What each recognizer guarantees of the groups it captures. */
  predicate FoundShape(rule: Rule, m: Found)
  {
    match rule
    case PrefixedStatute =>
      3 <= |m.group1| <= 5 && AllDigits(m.group1) && (m.group2.Some? ==> IsParenSub(m.group2.value))
    case BareStatute =>
      4 <= |m.group1| <= 5 && AllDigits(m.group1)
      && (m.group2.Some? ==> |m.group2.value| == 1 && IsAsciiAlnum(m.group2.value[0]))
    case _ => RegNumber(m.group1, 4) || RegNumber(m.group1, 5)
  }

  lemma MatchAtShape(rule: Rule, s: string, p: nat)
    ensures MatchAt(rule, s, p).Some? ==> FoundShape(rule, MatchAt(rule, s, p).value)
  {
  }

  /** Splitting at the first dot finds the base of `i` digits. */
  lemma RegCitationShape(full: string, i: nat)
    requires 4 <= i <= 5 && RegNumber(full, i)
    ensures RegShape(RegCitation(full))
  {
    if i < |full| {
      assert '.' in full;
      var j := FirstDot(full);
      assert !IsDigit('.');
      assert j == i;
      assert "." + full[i + 1..] == full[i..];
      assert full == full[..i] + full[i..];
      assert full[i..][1..] == full[i + 1..];
    } else {
      assert forall j :: 0 <= j < |full| ==> full[j] != '.';
      assert full[..i] == full;
    }
  }

  /** `AddUnseen` extends `acc` with elements of `cs` only. */
  lemma {:induction false} AddUnseenPrefix(acc: seq<Citation>, cs: seq<Citation>)
    ensures |acc| <= |AddUnseen(acc, cs)| && AddUnseen(acc, cs)[..|acc|] == acc
    ensures forall c :: c in AddUnseen(acc, cs) ==> c in acc || c in cs
  {
    if cs != [] {
      var init := cs[..|cs| - 1];
      AddUnseenPrefix(acc, init);
      assert forall c :: c in init ==> c in cs;
      var a := AddUnseen(acc, init);
      assert (a + [cs[|cs| - 1]])[..|acc|] == a[..|acc|];
    }
  }

  /** Every raw text of `cs` ends up in the list, and no other. */
  lemma {:induction false} AddUnseenRaws(acc: seq<Citation>, cs: seq<Citation>)
    ensures Raws(AddUnseen(acc, cs)) == Raws(acc) + Raws(cs)
  {
    if cs != [] {
      var init := cs[..|cs| - 1];
      var last := cs[|cs| - 1];
      AddUnseenRaws(acc, init);
      assert cs == init + [last];
      assert Raws(cs) == Raws(init) + {last.raw};
      var a := AddUnseen(acc, init);
      assert Raws(a + [last]) == Raws(a) + {last.raw};
    }
  }

  /** The appended citations keep their order in `cs`. */
  lemma {:induction false} AddUnseenSubseq(acc: seq<Citation>, cs: seq<Citation>)
    ensures |acc| <= |AddUnseen(acc, cs)|
    ensures IsSubseq(AddUnseen(acc, cs)[|acc|..], cs)
  {
    AddUnseenPrefix(acc, cs);
    if cs != [] {
      var init := cs[..|cs| - 1];
      var last := cs[|cs| - 1];
      var a := AddUnseen(acc, init);
      AddUnseenSubseq(acc, init);
      assert init + [last] == cs;
      if last.raw in Raws(a) {
        SubseqExtend(a[|acc|..], init, last);
      } else {
        assert (a + [last])[|acc|..] == a[|acc|..] + [last];
        SubseqBoth(a[|acc|..], init, last);
      }
    }
  }

  /** Raw texts stay unique. */
  lemma {:induction false} AddUnseenDistinct(acc: seq<Citation>, cs: seq<Citation>)
    requires DistinctRaws(acc)
    ensures DistinctRaws(AddUnseen(acc, cs))
  {
    if cs != [] {
      var init := cs[..|cs| - 1];
      var last := cs[|cs| - 1];
      var a := AddUnseen(acc, init);
      AddUnseenDistinct(acc, init);
      if last.raw !in Raws(a) {
        var r := a + [last];
        forall i, j | 0 <= i < j < |r| ensures r[i].raw != r[j].raw {
          if j == |r| - 1 {
            assert r[i] in a;
          }
        }
      }
    }
  }

  predicate DistinctRaws(cs: seq<Citation>)
  {
    forall i, j :: 0 <= i < j < |cs| ==> cs[i].raw != cs[j].raw
  }

  lemma CitedStatuteShapes(rule: Rule, s: string)
    requires rule == PrefixedStatute || rule == BareStatute
    ensures forall c :: c in Cited(rule, s) ==> StatuteShape(c)
  {
    var ms := FindAll(rule, s, 0);
    FindAllShapes(rule, s, 0);
    forall c | c in Cited(rule, s) ensures StatuteShape(c) {
      var i :| 0 <= i < |ms| && Cited(rule, s)[i] == c;
      assert ms[i] in ms;
    }
  }

  lemma CitedRegShapes(rule: Rule, s: string)
    requires rule == PrefixedReg || rule == BareReg
    ensures forall c :: c in Cited(rule, s) ==> RegShape(c)
  {
    var ms := FindAll(rule, s, 0);
    FindAllShapes(rule, s, 0);
    forall c | c in Cited(rule, s) ensures RegShape(c) {
      var i :| 0 <= i < |ms| && Cited(rule, s)[i] == c;
      assert ms[i] in ms;
      if RegNumber(ms[i].group1, 4) {
        RegCitationShape(ms[i].group1, 4);
      } else {
        RegCitationShape(ms[i].group1, 5);
      }
    }
  }

  /** Every citation the parser returns has the shape its rule allows. */
  lemma ParsedShapes(query: string)
    ensures forall c :: c in GovCodeOf(query) ==> StatuteShape(c)
    ensures forall c :: c in RegulationsOf(query) ==> RegShape(c)
  {
    CitedStatuteShapes(PrefixedStatute, query);
    CitedStatuteShapes(BareStatute, query);
    CitedRegShapes(PrefixedReg, query);
    CitedRegShapes(BareReg, query);
    AddUnseenPrefix([], Cited(PrefixedStatute, query));
    AddUnseenPrefix(AddUnseen([], Cited(PrefixedStatute, query)), Cited(BareStatute, query));
    AddUnseenPrefix([], Cited(PrefixedReg, query));
    AddUnseenPrefix(AddUnseen([], Cited(PrefixedReg, query)), Cited(BareReg, query));
  }

  /** Within each list raw strings are unique; the prefixed rule's entries
      come first and each pass keeps its matches in left-to-right order; every
      raw string found by either rule is in the list. */
  lemma ParsedOrderAndUniqueness(query: string)
    ensures DistinctRaws(GovCodeOf(query)) && DistinctRaws(RegulationsOf(query))
    ensures var p := AddUnseen([], Cited(PrefixedStatute, query));
      |p| <= |GovCodeOf(query)| && GovCodeOf(query)[..|p|] == p
      && IsSubseq(p, Cited(PrefixedStatute, query))
      && IsSubseq(GovCodeOf(query)[|p|..], Cited(BareStatute, query))
    ensures var p := AddUnseen([], Cited(PrefixedReg, query));
      |p| <= |RegulationsOf(query)| && RegulationsOf(query)[..|p|] == p
      && IsSubseq(p, Cited(PrefixedReg, query))
      && IsSubseq(RegulationsOf(query)[|p|..], Cited(BareReg, query))
    ensures Raws(GovCodeOf(query)) == Raws(Cited(PrefixedStatute, query)) + Raws(Cited(BareStatute, query))
    ensures Raws(RegulationsOf(query)) == Raws(Cited(PrefixedReg, query)) + Raws(Cited(BareReg, query))
  {
    var ps := Cited(PrefixedStatute, query);
    var pr := Cited(PrefixedReg, query);
    var bs := Cited(BareStatute, query);
    var br := Cited(BareReg, query);
    AddUnseenPrefix(AddUnseen([], ps), bs);
    AddUnseenPrefix(AddUnseen([], pr), br);
    AddUnseenRaws([], ps);
    AddUnseenRaws(AddUnseen([], ps), bs);
    AddUnseenRaws([], pr);
    AddUnseenRaws(AddUnseen([], pr), br);
    AddUnseenSubseq([], ps);
    AddUnseenSubseq(AddUnseen([], ps), bs);
    AddUnseenSubseq([], pr);
    AddUnseenSubseq(AddUnseen([], pr), br);
    AddUnseenDistinct([], ps);
    AddUnseenDistinct(AddUnseen([], ps), bs);
    AddUnseenDistinct([], pr);
    AddUnseenDistinct(AddUnseen([], pr), br);
    assert AddUnseen([], ps)[0..] == AddUnseen([], ps);
    assert AddUnseen([], pr)[0..] == AddUnseen([], pr);
  }

  /** A list is empty exactly when neither of its rules matched anywhere. */
  lemma EmptyExactlyWithoutMatches(query: string)
    ensures GovCodeOf(query) == [] <==> FindAll(PrefixedStatute, query, 0) == [] && FindAll(BareStatute, query, 0) == []
    ensures RegulationsOf(query) == [] <==> FindAll(PrefixedReg, query, 0) == [] && FindAll(BareReg, query, 0) == []
  {
    ParsedOrderAndUniqueness(query);
    RawsEmpty(GovCodeOf(query));
    RawsEmpty(RegulationsOf(query));
    RawsEmpty(Cited(PrefixedStatute, query));
    RawsEmpty(Cited(BareStatute, query));
    RawsEmpty(Cited(PrefixedReg, query));
    RawsEmpty(Cited(BareReg, query));
  }

  lemma RawsEmpty(cs: seq<Citation>)
    ensures Raws(cs) == {} <==> cs == []
  {
    if cs != [] {
      assert cs[0].raw in Raws(cs);
    }
  }

  // ---------------------------------------------------------------------
  // Worked examples.

  /** Offsets where a rule cannot match are passed over. */
  lemma {:induction false} FindAllSkip(rule: Rule, s: string, p: nat, q: nat)
    requires p <= q <= |s|
    requires forall i :: p <= i < q ==> MatchAt(rule, s, i).None?
    ensures FindAll(rule, s, p) == FindAll(rule, s, q)
    decreases q - p
  {
    if p < q {
      FindAllNone(rule, s, p);
      FindAllSkip(rule, s, p + 1, q);
    }
  }

  lemma FindAllNone(rule: Rule, s: string, p: nat)
    requires p < |s| && MatchAt(rule, s, p).None?
    ensures FindAll(rule, s, p) == FindAll(rule, s, p + 1)
  {
  }

  /** "Section 87103(a)": the prefixed rule finds `87103(a)`; the bare rule
      cannot end its match after `)` at the end of the text, falls back to
      `87103`, and that differs from the raw already seen. */
  lemma SectionWithSubsection(q: string)
    requires q == "Section 87103(a)"
    ensures GovCodeOf(q) == [Citation("87103(a)", "87103", "(a)"), Citation("87103", "87103", "")]
    ensures RegulationsOf(q) == []
  {
    SectionPrefixed(q);
    SectionBare(q);
    SectionNoRegs(q);
    var c1 := Citation("87103(a)", "87103", "(a)");
    var c2 := Citation("87103", "87103", "");
    CitedOne(PrefixedStatute, q, Found("87103", Some("(a)"), 16));
    CitedOne(BareStatute, q, Found("87103", None, 13));
    SectionCitations(c1, c2);
    AddUnseenOne([], c1);
  }

  lemma SectionCitations(c1: Citation, c2: Citation)
    requires c1 == Citation("87103(a)", "87103", "(a)") && c2 == Citation("87103", "87103", "")
    ensures StatuteCitation(PrefixedStatute, Found("87103", Some("(a)"), 16)) == c1
    ensures StatuteCitation(BareStatute, Found("87103", None, 13)) == c2
    ensures AddUnseen([c1], [c2]) == [c1, c2]
  {
    assert "87103" + "(a)" == "87103(a)" && "87103" + "" == "87103";
    AddUnseenOne([c1], c2);
    assert Raws([c1]) == {"87103(a)"};
  }

  /** The citation list of a rule that matched exactly once. */
  lemma CitedOne(rule: Rule, q: string, m: Found)
    requires FindAll(rule, q, 0) == [m]
    ensures Cited(rule, q) == [if rule == PrefixedReg || rule == BareReg then RegCitation(m.group1) else StatuteCitation(rule, m)]
  {
  }

  lemma AddUnseenOne(acc: seq<Citation>, c: Citation)
    ensures AddUnseen(acc, [c]) == if c.raw in Raws(acc) then acc else acc + [c]
    ensures AddUnseen([], [c]) == [c]
  {
    assert [c][..0] == [];
    assert c.raw !in Raws([]);
    assert [] + [c] == [c];
  }

  lemma SectionPrefixed(q: string)
    requires q == "Section 87103(a)"
    ensures FindAll(PrefixedStatute, q, 0) == [Found("87103", Some("(a)"), 16)]
  {
    SectionPrefixedMatch();
    assert FindAll(PrefixedStatute, q, 16) == [];
  }

  lemma SectionPrefixedMatch()
    ensures MatchAt(PrefixedStatute, "Section 87103(a)", 0) == Some(Found("87103", Some("(a)"), 16))
  {
    SectionKeyword();
    SectionNumber();
  }

  lemma SectionKeyword()
    ensures StatuteKeywordEnd("Section 87103(a)", 0) == Some(7)
  {
  }

  lemma SectionNumber()
    ensures SpaceRunEnd("Section 87103(a)", 7) == 8 && DigitRunEnd("Section 87103(a)", 8) == 13
    ensures ParenSubAt("Section 87103(a)", 13)
    ensures "Section 87103(a)"[13..16] == "(a)" && "Section 87103(a)"[8..13] == "87103"
  {
    SectionDigits();
    SectionParen();
  }

  lemma SectionDigits()
    ensures SpaceRunEnd("Section 87103(a)", 7) == 8 && DigitRunEnd("Section 87103(a)", 8) == 13
  {
  }

  lemma SectionParen()
    ensures ParenSubAt("Section 87103(a)", 13)
  {
  }

  lemma SectionBare(q: string)
    requires q == "Section 87103(a)"
    ensures FindAll(BareStatute, q, 0) == [Found("87103", None, 13)]
  {
    SectionBareHead(q);
    SectionBareMatch();
    SectionBareTail(q);
  }

  lemma SectionBareHead(q: string)
    requires q == "Section 87103(a)"
    ensures FindAll(BareStatute, q, 0) == FindAll(BareStatute, q, 8)
  {
    forall i | 0 <= i < 8 ensures MatchAt(BareStatute, q, i).None? {
      assert !IsDigit(q[i]);
    }
    FindAllSkip(BareStatute, q, 0, 8);
  }

  lemma SectionBareMatch()
    ensures MatchAt(BareStatute, "Section 87103(a)", 8) == Some(Found("87103", None, 13))
  {
    assert "Section 87103(a)"[8..13] == "87103";
  }

  lemma SectionBareTail(q: string)
    requires q == "Section 87103(a)"
    ensures FindAll(BareStatute, q, 13) == []
  {
    forall i | 13 <= i < 16 ensures MatchAt(BareStatute, q, i).None? {
      assert !IsDigit(q[i]);
    }
    FindAllSkip(BareStatute, q, 13, 16);
  }

  lemma SectionNoRegs(q: string)
    requires q == "Section 87103(a)"
    ensures FindAll(PrefixedReg, q, 0) == [] && FindAll(BareReg, q, 0) == []
  {
    NoPrefixedReg(q);
    forall i | 0 <= i < |q| ensures MatchAt(BareReg, q, i).None? {
      assert !(q[i] == '1' && i + 1 < |q| && q[i + 1] == '8');
    }
    FindAllSkip(BareReg, q, 0, |q|);
  }

  /** Without the letter r, no prefixed regulation can match. */
  lemma NoPrefixedReg(q: string)
    requires forall i :: 0 <= i < |q| ==> LowerChar(q[i]) != 'r'
    ensures FindAll(PrefixedReg, q, 0) == []
  {
    forall i | 0 <= i < |q| ensures MatchAt(PrefixedReg, q, i).None? {
    }
    FindAllSkip(PrefixedReg, q, 0, |q|);
  }

  /** A bare statute number and a dotted bare regulation. */
  lemma BareStatuteAndRegulation(q: string)
    requires q == "87103 and 18702.2"
    ensures GovCodeOf(q) == [Citation("87103", "87103", "")]
    ensures RegulationsOf(q) == [Citation("18702.2", "18702", ".2")]
  {
    BareExampleStatutes(q);
    BareExampleRegs(q);
    CitedOne(BareStatute, q, Found("87103", None, 5));
    CitedOne(BareReg, q, Found("18702.2", None, 17));
    BareExampleCitations();
    AddUnseenOne([], Citation("87103", "87103", ""));
    AddUnseenOne([], Citation("18702.2", "18702", ".2"));
  }

  lemma BareExampleCitations()
    ensures StatuteCitation(BareStatute, Found("87103", None, 5)) == Citation("87103", "87103", "")
    ensures RegCitation("18702.2") == Citation("18702.2", "18702", ".2")
  {
    assert "87103" + "" == "87103";
    BareExampleDot("18702.2");
  }

  lemma BareExampleDot(g: string)
    requires g == "18702.2"
    ensures RegCitation(g) == Citation("18702.2", "18702", ".2")
  {
    assert g[5] == '.';
    assert forall j :: 0 <= j < 5 ==> g[j] != '.';
    assert FirstDot(g) == 5;
    assert g[..5] == "18702" && g[6..] == "2";
  }

  lemma BareExampleStatutes(q: string)
    requires q == "87103 and 18702.2"
    ensures FindAll(PrefixedStatute, q, 0) == []
    ensures FindAll(BareStatute, q, 0) == [Found("87103", None, 5)]
  {
    BareExampleNoPrefixed(q);
    BareExampleStatuteMatch();
    BareExampleStatuteTail(q);
  }

  lemma BareExampleNoPrefixed(q: string)
    requires q == "87103 and 18702.2"
    ensures FindAll(PrefixedStatute, q, 0) == []
  {
    forall i | 0 <= i < |q| ensures MatchAt(PrefixedStatute, q, i).None? {
      assert LowerChar(q[i]) != 's' && LowerChar(q[i]) != 'g';
    }
    FindAllSkip(PrefixedStatute, q, 0, |q|);
  }

  lemma BareExampleStatuteMatch()
    ensures MatchAt(BareStatute, "87103 and 18702.2", 0) == Some(Found("87103", None, 5))
  {
    assert "87103 and 18702.2"[0..5] == "87103";
  }

  lemma BareExampleStatuteTail(q: string)
    requires q == "87103 and 18702.2"
    ensures FindAll(BareStatute, q, 5) == []
  {
    forall i | 5 <= i < |q| ensures MatchAt(BareStatute, q, i).None? {
      if i == 10 {
        assert q[10] == '1' && q[11] == '8';
      } else if 11 <= i <= 14 {
        assert !IsBoundary(q, i);
      } else if i == 15 {
        assert !IsDigit(q[i]);
      } else if i == 16 {
        assert i + 4 > |q|;
      } else {
        assert !IsDigit(q[i]);
      }
    }
    FindAllSkip(BareStatute, q, 5, |q|);
  }

  lemma BareExampleRegs(q: string)
    requires q == "87103 and 18702.2"
    ensures FindAll(PrefixedReg, q, 0) == []
    ensures FindAll(BareReg, q, 0) == [Found("18702.2", None, 17)]
  {
    NoPrefixedReg(q);
    forall i | 0 <= i < 10 ensures MatchAt(BareReg, q, i).None? {
      assert !(q[i] == '1' && q[i + 1] == '8');
    }
    FindAllSkip(BareReg, q, 0, 10);
    BareExampleRegMatch();
    assert FindAll(BareReg, q, 17) == [];
  }

  lemma BareExampleRegMatch()
    ensures MatchAt(BareReg, "87103 and 18702.2", 10) == Some(Found("18702.2", None, 17))
  {
    assert DigitRunEnd("87103 and 18702.2", 16) == 17;
    assert "87103 and 18702.2"[10..17] == "18702.2";
  }
}
