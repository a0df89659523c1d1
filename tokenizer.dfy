/** The BM25 tokenizer of src/engines/bm25_full_text.py (copied verbatim into
    the two score-fusion engines): lower-case, merge `87103(a)` into
    `87103a`, turn every run of characters outside `[a-z0-9-]` into one
    space, split on whitespace and drop the stopwords. The BM25 scores
    themselves come from a library and are an input here. */
module Tokenizer {
  import opened Text
  import opened Ranking

  /** The stopword list: a standard English set without "not" and "no". */
  predicate IsStopword(t: string)
  {
    t in {
    "a", "an", "and", "are", "as", "at", "be", "been", "being", "but", "by",
    "can", "could", "did", "do", "does", "doing", "done", "down", "during",
    "each", "few", "for", "from", "further", "get", "got", "had", "has",
    "have", "having", "he", "her", "here", "hers", "herself", "him",
    "himself", "his", "how", "i", "if", "in", "into", "is", "it", "its",
    "itself", "just", "let", "may", "me", "might", "more", "most", "much",
    "must", "my", "myself", "nor", "of", "off", "on", "once", "only", "or",
    "other", "ought", "our", "ours", "ourselves", "out", "over", "own",
    "same", "shall", "she", "should", "so", "some", "such", "than", "that",
    "the", "their", "theirs", "them", "themselves", "then", "there", "these",
    "they", "this", "those", "through", "to", "too", "under", "until", "up",
    "upon", "us", "very", "was", "we", "were", "what", "when", "where",
    "which", "while", "who", "whom", "why", "will", "with", "would", "yet",
    "you", "your", "yours", "yourself", "yourselves",
    "about", "above", "after", "again", "against", "all", "am", "any",
    "because", "before", "below", "between", "both", "also"
    }
  }

  /** The characters `[a-z0-9-]` that survive the stripping step. */
  predicate IsTokenChar(c: char) { 'a' <= c <= 'z' || IsDigit(c) || c == '-' }

  predicate IsTokenWord(t: string) { forall i :: 0 <= i < |t| ==> IsTokenChar(t[i]) }

  /** `re.sub(r"(\d+)\(([a-zA-Z0-9])\)", r"\1\2", s)`. The digit run is
      greedy and a `(` cannot follow a shorter prefix of it, so the match at
      the start of a run is the only one to try. */
  function ParenMerge(s: string): (r: string)
    decreases |s|
  {
    if s == [] then []
    else if IsDigit(s[0]) then
      var e := DigitRunEnd(s, 0);
      if e + 3 <= |s| && s[e] == '(' && IsAsciiAlnum(s[e + 1]) && s[e + 2] == ')'
      then s[..e] + [s[e + 1]] + ParenMerge(s[e + 3..])
      else s[..e] + ParenMerge(s[e..])
    else [s[0]] + ParenMerge(s[1..])
  }

  /** Drop the leading run of characters outside `[a-z0-9-]`. */
  function DropNonToken(s: string): (r: string)
    ensures |r| <= |s| && r == s[|s| - |r|..]
    ensures r == [] || IsTokenChar(r[0])
  {
    if s != [] && !IsTokenChar(s[0]) then DropNonToken(s[1..]) else s
  }

  /** `re.sub(r"[^a-z0-9\-]+", " ", s)`: each maximal run becomes one space. */
  function Subst(s: string): (r: string)
    decreases |s|
  {
    if s == [] then []
    else if IsTokenChar(s[0]) then [s[0]] + Subst(s[1..])
    else " " + Subst(DropNonToken(s[1..]))
  }

  /** The longest prefix of `s` without whitespace. */
  function Word(s: string): (w: string)
    ensures |w| <= |s| && w == s[..|w|]
    ensures forall i :: 0 <= i < |w| ==> !IsSpace(w[i])
    ensures |w| == |s| || IsSpace(s[|w|])
  {
    if s == [] || IsSpace(s[0]) then [] else [s[0]] + Word(s[1..])
  }

  /** `str.split()` with no separator: whitespace runs separate words, and
      no empty word is produced. */
  function Split(s: string): (ws: seq<string>)
    decreases |s|
  {
    if s == [] then []
    else if IsSpace(s[0]) then Split(s[1..])
    else
      var w := Word(s);
      [w] + Split(s[|w|..])
  }

  /** `[t for t in tokens if t not in STOPWORDS]`. */
  function DropStopwords(ts: seq<string>): (r: seq<string>)
  {
    if ts == [] then []
    else if IsStopword(ts[0]) then DropStopwords(ts[1..])
    else [ts[0]] + DropStopwords(ts[1..])
  }

  function Tokenize(s: string): (ts: seq<string>)
  {
    DropStopwords(Split(Subst(ParenMerge(Lower(s)))))
  }

  /** `" ".join(ts)`. */
  function Join(ts: seq<string>): (s: string)
  {
    if ts == [] then [] else if |ts| == 1 then ts[0] else ts[0] + " " + Join(ts[1..])
  }

  // ---------------------------------------------------------------------
  // Every token is non-empty, made of `[a-z0-9-]` and not a stopword.

  lemma {:induction false} SubstChars(s: string)
    ensures forall i :: 0 <= i < |Subst(s)| ==> IsTokenChar(Subst(s)[i]) || Subst(s)[i] == ' '
    decreases |s|
  {
    if s != [] {
      if IsTokenChar(s[0]) {
        SubstChars(s[1..]);
      } else {
        SubstChars(DropNonToken(s[1..]));
      }
    }
  }

  lemma {:induction false} SplitWords(s: string)
    ensures forall k :: 0 <= k < |Split(s)| ==>
      Split(s)[k] != [] && forall i :: 0 <= i < |Split(s)[k]| ==> !IsSpace(Split(s)[k][i]) && Split(s)[k][i] in s
    decreases |s|
  {
    if s != [] {
      if IsSpace(s[0]) {
        SplitWords(s[1..]);
      } else {
        var w := Word(s);
        SplitWords(s[|w|..]);
        forall k | 0 <= k < |Split(s)|
          ensures Split(s)[k] != [] && forall i :: 0 <= i < |Split(s)[k]| ==> !IsSpace(Split(s)[k][i]) && Split(s)[k][i] in s
        {
          if k > 0 {
            var t := Split(s)[k];
            assert t == Split(s[|w|..])[k - 1];
            forall i | 0 <= i < |t| ensures t[i] in s {
              assert t[i] in s[|w|..];
            }
          }
        }
      }
    }
  }

  /** The filter keeps exactly the tokens that are not stopwords, each
      where it stood. */
  lemma {:induction false} DropStopwordsKeeps(ts: seq<string>)
    ensures forall k :: 0 <= k < |DropStopwords(ts)| ==> DropStopwords(ts)[k] in ts && !IsStopword(DropStopwords(ts)[k])
    ensures forall k :: 0 <= k < |ts| && !IsStopword(ts[k]) ==> ts[k] in DropStopwords(ts)
    ensures IsSubseq(DropStopwords(ts), ts)
  {
    if ts != [] {
      DropStopwordsKeeps(ts[1..]);
      forall k | 0 <= k < |ts| && !IsStopword(ts[k]) ensures ts[k] in DropStopwords(ts) {
        if k > 0 {
          assert ts[k] == ts[1..][k - 1];
        }
      }
      DropStopwordsSubseq(ts);
    }
  }

  /** Filtering distributes over concatenation. */
  lemma {:induction false} DropStopwordsAppend(a: seq<string>, b: seq<string>)
    ensures DropStopwords(a + b) == DropStopwords(a) + DropStopwords(b)
  {
    if a != [] {
      assert (a + b)[0] == a[0] && (a + b)[1..] == a[1..] + b;
      DropStopwordsAppend(a[1..], b);
      if IsStopword(a[0]) {
        assert DropStopwords(a + b) == DropStopwords(a[1..] + b);
      } else {
        assert DropStopwords(a + b) == [a[0]] + DropStopwords(a[1..] + b);
        ConsAssoc(a[0], DropStopwords(a[1..]), DropStopwords(b));
      }
    } else {
      assert a + b == b;
    }
  }

  lemma {:induction false} DropStopwordsSubseq(ts: seq<string>)
    ensures IsSubseq(DropStopwords(ts), ts)
  {
    if ts != [] {
      var p, t := ts[..|ts| - 1], ts[|ts| - 1];
      assert ts == p + [t];
      DropStopwordsSubseq(p);
      DropStopwordsAppend(p, [t]);
      assert [t][1..] == [];
      if IsStopword(t) {
        assert DropStopwords(ts) == DropStopwords(p);
        SubseqExtend(DropStopwords(p), p, t);
      } else {
        assert DropStopwords(ts) == DropStopwords(p) + [t];
        SubseqBoth(DropStopwords(p), p, t);
      }
    }
  }

  /** The tokens are non-empty words over `[a-z0-9-]` outside the stopwords. */
  lemma TokenizeWellFormed(s: string)
    ensures forall k :: 0 <= k < |Tokenize(s)| ==>
      Tokenize(s)[k] != [] && IsTokenWord(Tokenize(s)[k]) && !IsStopword(Tokenize(s)[k])
  {
    var m := Subst(ParenMerge(Lower(s)));
    SubstChars(ParenMerge(Lower(s)));
    SplitWords(m);
    DropStopwordsKeeps(Split(m));
    forall k | 0 <= k < |Tokenize(s)| ensures Tokenize(s)[k] != [] && IsTokenWord(Tokenize(s)[k]) {
      var t := Tokenize(s)[k];
      assert t in Split(m);
      forall i | 0 <= i < |t| ensures IsTokenChar(t[i]) {
        assert t[i] in m && !IsSpace(t[i]);
      }
    }
  }

  /** Lower-casing comes first, so case never matters. */
  lemma TokenizeIgnoresCase(s: string)
    ensures Tokenize(Lower(s)) == Tokenize(s)
  {
    LowerIdempotent(s);
  }

  lemma NegationsKept()
    ensures !IsStopword("not") && !IsStopword("no")
  {
  }

  // ---------------------------------------------------------------------
  // Tokens come in the order of the text: tokenizing two texts joined by a
  // space gives the tokens of the first followed by those of the second.

  lemma LowerAppend(a: string, b: string)
    ensures Lower(a + " " + b) == Lower(a) + " " + Lower(b)
  {
    var l, r := Lower(a + " " + b), Lower(a) + " " + Lower(b);
    assert |l| == |r|;
    forall i | 0 <= i < |l| ensures l[i] == r[i] {
      if i < |a| {
        assert (a + " " + b)[i] == a[i];
      } else if i > |a| {
        assert (a + " " + b)[i] == b[i - |a| - 1];
      }
    }
  }

  /** A digit run ends where it did when a non-digit is appended. */
  lemma {:induction false} DigitRunEndAppend(x: string, z: string, i: nat)
    requires i <= |x| && (z == [] || !IsDigit(z[0]))
    ensures DigitRunEnd(x + z, i) == DigitRunEnd(x, i)
    decreases |x| - i
  {
    if i < |x| {
      assert (x + z)[i] == x[i];
      if IsDigit(x[i]) {
        DigitRunEndAppend(x, z, i + 1);
      }
    } else if z != [] {
      assert (x + z)[i] == z[0];
    }
  }

  /** The subsection merge never reaches across a space. */
  lemma {:induction false} ParenMergeAppend(x: string, y: string)
    ensures ParenMerge(x + " " + y) == ParenMerge(x) + " " + ParenMerge(y)
    decreases |x|
  {
    if x == [] {
      assert x + " " + y == " " + y;
      ParenMergeSpace(y);
    } else if IsDigit(x[0]) {
      var e := DigitRunEnd(x, 0);
      if e + 3 <= |x| && x[e] == '(' && IsAsciiAlnum(x[e + 1]) && x[e + 2] == ')' {
        ParenMergeAppend(x[e + 3..], y);
        ParenMergeMatchStep(x, y, e);
      } else if e < |x| {
        ParenMergeAppend(x[e..], y);
        ParenMergeRunStep(x, y, e);
      } else {
        ParenMergeDigitsStep(x, y);
      }
    } else {
      ParenMergeAppend(x[1..], y);
      ParenMergeOtherStep(x, y);
    }
  }

  /** One merge step of `x + " " + y` when `x` starts with a non-digit. */
  lemma ParenMergeOtherStep(x: string, y: string)
    requires x != [] && !IsDigit(x[0])
    requires ParenMerge(x[1..] + " " + y) == ParenMerge(x[1..]) + " " + ParenMerge(y)
    ensures ParenMerge(x + " " + y) == ParenMerge(x) + " " + ParenMerge(y)
  {
    var s := x + " " + y;
    assert s[0] == x[0] && s[1..] == x[1..] + " " + y;
    ConcatSpaceAssoc([x[0]], ParenMerge(x[1..]), ParenMerge(y));
  }

  /** One merge step of `x + " " + y` when the run is followed by `(c)`. */
  lemma ParenMergeMatchStep(x: string, y: string, e: nat)
    requires x != [] && IsDigit(x[0]) && e == DigitRunEnd(x, 0)
    requires e + 3 <= |x| && x[e] == '(' && IsAsciiAlnum(x[e + 1]) && x[e + 2] == ')'
    requires ParenMerge(x[e + 3..] + " " + y) == ParenMerge(x[e + 3..]) + " " + ParenMerge(y)
    ensures ParenMerge(x + " " + y) == ParenMerge(x) + " " + ParenMerge(y)
  {
    var s := x + " " + y;
    RunAcrossSpace(x, y);
    MatchAcrossSpace(x, y, e);
    ParenMergeMatchUnfold(s, e);
    ParenMergeMatchUnfold(x, e);
    ConcatSpaceAssoc(x[..e] + [x[e + 1]], ParenMerge(x[e + 3..]), ParenMerge(y));
  }

  /** One merge step of `x + " " + y` when the run is not followed by `(c)`
      and does not reach the end of `x`. */
  lemma ParenMergeRunStep(x: string, y: string, e: nat)
    requires x != [] && IsDigit(x[0]) && e == DigitRunEnd(x, 0)
    requires e < |x| && !(e + 3 <= |x| && x[e] == '(' && IsAsciiAlnum(x[e + 1]) && x[e + 2] == ')')
    requires ParenMerge(x[e..] + " " + y) == ParenMerge(x[e..]) + " " + ParenMerge(y)
    ensures ParenMerge(x + " " + y) == ParenMerge(x) + " " + ParenMerge(y)
  {
    var s := x + " " + y;
    RunAcrossSpace(x, y);
    ParenMergeNoMatch(x, y, e);
    ParenMergeRunUnfold(s, e);
    ParenMergeRunUnfold(x, e);
    assert s[..e] == x[..e] && s[e..] == x[e..] + " " + y;
    ConcatSpaceAssoc(x[..e], ParenMerge(x[e..]), ParenMerge(y));
  }

  /** One merge step of `x + " " + y` when `x` is one digit run. */
  lemma ParenMergeDigitsStep(x: string, y: string)
    requires x != [] && IsDigit(x[0]) && DigitRunEnd(x, 0) == |x|
    ensures ParenMerge(x + " " + y) == ParenMerge(x) + " " + ParenMerge(y)
  {
    var s, e := x + " " + y, |x|;
    RunAcrossSpace(x, y);
    ParenMergeNoMatch(x, y, e);
    ParenMergeRunUnfold(s, e);
    ParenMergeRunUnfold(x, e);
    assert s[..e] == x && s[e..] == " " + y && x[e..] == [] && x[..e] == x;
    ParenMergeSpace(y);
    SpaceAssoc(x, ParenMerge(y));
  }

  /** The digit run at the start of `x` is the one at the start of
      `x + " " + y`. */
  lemma RunAcrossSpace(x: string, y: string)
    requires x != [] && IsDigit(x[0])
    ensures var s := x + " " + y; IsDigit(s[0]) && DigitRunEnd(s, 0) == DigitRunEnd(x, 0)
  {
    DigitRunEndAppend(x, " " + y, 0);
    assert x + " " + y == x + (" " + y);
  }

  /** A `(c)` after the run of `x` is there in `x + " " + y` too. */
  lemma MatchAcrossSpace(x: string, y: string, e: nat)
    requires e + 3 <= |x| && x[e] == '(' && IsAsciiAlnum(x[e + 1]) && x[e + 2] == ')'
    ensures var s := x + " " + y;
      && e + 3 <= |s| && s[e] == '(' && s[e + 1] == x[e + 1] && s[e + 2] == ')'
      && s[..e] == x[..e] && s[e + 3..] == x[e + 3..] + " " + y
  {
  }

  lemma ParenMergeMatchUnfold(s: string, e: nat)
    requires s != [] && IsDigit(s[0]) && e == DigitRunEnd(s, 0)
    requires e + 3 <= |s| && s[e] == '(' && IsAsciiAlnum(s[e + 1]) && s[e + 2] == ')'
    ensures ParenMerge(s) == s[..e] + [s[e + 1]] + ParenMerge(s[e + 3..])
  {
  }

  lemma ConcatSpaceAssoc(p: string, a: string, b: string)
    ensures p + (a + " " + b) == (p + a) + " " + b
  {
  }

  lemma ParenMergeRunUnfold(s: string, e: nat)
    requires s != [] && IsDigit(s[0]) && e == DigitRunEnd(s, 0)
    requires !(e + 3 <= |s| && s[e] == '(' && IsAsciiAlnum(s[e + 1]) && s[e + 2] == ')')
    ensures ParenMerge(s) == s[..e] + ParenMerge(s[e..])
  {
  }

  lemma ParenMergeSpace(y: string)
    ensures ParenMerge(" " + y) == " " + ParenMerge(y)
  {
    assert (" " + y)[1..] == y;
  }

  /** A `(c)` that does not follow the digit run of `x` does not follow it
      in `x + " " + y` either. */
  lemma ParenMergeNoMatch(x: string, y: string, e: nat)
    requires e <= |x|
    requires !(e + 3 <= |x| && x[e] == '(' && IsAsciiAlnum(x[e + 1]) && x[e + 2] == ')')
    ensures var s := x + " " + y;
      !(e + 3 <= |s| && s[e] == '(' && IsAsciiAlnum(s[e + 1]) && s[e + 2] == ')')
  {
    assert (x + " " + y)[|x|] == ' ';
  }

  /** Every character outside `[a-z0-9-]` replaced by its own space. */
  function Blank(s: string): (r: string)
    ensures |r| == |s|
  {
    if s == [] then [] else [if IsTokenChar(s[0]) then s[0] else ' '] + Blank(s[1..])
  }

  lemma {:induction false} BlankConcat(a: string, b: string)
    ensures Blank(a + b) == Blank(a) + Blank(b)
  {
    if a == [] {
      assert a + b == b;
    } else {
      assert (a + b)[0] == a[0] && (a + b)[1..] == a[1..] + b;
      BlankConcat(a[1..], b);
    }
  }

  lemma BlankAppend(a: string, b: string)
    ensures Blank(a + " " + b) == Blank(a) + " " + Blank(b)
  {
    BlankConcat(a + " ", b);
    BlankConcat(a, " ");
  }

  /** Splitting a word character followed by `u`: it starts a word of its
      own or joins the first word of `u`. */
  lemma SplitCons(c: char, u: string)
    requires !IsSpace(c)
    ensures u == [] || IsSpace(u[0]) ==> Split([c] + u) == [[c]] + Split(u)
    ensures u != [] && !IsSpace(u[0]) ==>
      Split(u) != [] && Split([c] + u) == [[c] + Split(u)[0]] + Split(u)[1..]
  {
    var s := [c] + u;
    assert s[0] == c && s[1..] == u;
    var w := Word(u);
    assert Word(s) == [c] + w;
    assert s[|Word(s)|..] == u[|w|..];
    if u == [] || IsSpace(u[0]) {
      assert u[|w|..] == u;
    }
  }

  /** Blanked stripped characters in front change no word. */
  lemma {:induction false} SplitBlankDrop(t: string)
    ensures Split(Blank(t)) == Split(Blank(DropNonToken(t)))
    decreases |t|
  {
    if t != [] && !IsTokenChar(t[0]) {
      assert Blank(t) == " " + Blank(t[1..]);
      SplitSpace(Blank(t[1..]));
      SplitBlankDrop(t[1..]);
    }
  }

  /** Collapsing each run of stripped characters into one space splits the
      same as blanking each of them. */
  lemma {:induction false} SplitSubst(s: string)
    ensures Split(Subst(s)) == Split(Blank(s))
    ensures Subst(s) == [] <==> s == []
    ensures s != [] ==> Subst(s)[0] == Blank(s)[0]
    decreases |s|
  {
    if s != [] {
      if IsTokenChar(s[0]) {
        SplitSubst(s[1..]);
        SplitSubstToken(s);
      } else {
        var n := DropNonToken(s[1..]);
        SplitSubst(n);
        SplitSubstRun(s);
      }
    }
  }

  /** The step of `SplitSubst` for a kept character. */
  lemma SplitSubstToken(s: string)
    requires s != [] && IsTokenChar(s[0])
    requires Split(Subst(s[1..])) == Split(Blank(s[1..]))
    requires Subst(s[1..]) == [] <==> s[1..] == []
    requires s[1..] != [] ==> Subst(s[1..])[0] == Blank(s[1..])[0]
    ensures Split(Subst(s)) == Split(Blank(s))
  {
    var t := s[1..];
    assert Subst(s) == [s[0]] + Subst(t);
    assert Blank(s) == [s[0]] + Blank(t);
    SplitCons(s[0], Subst(t));
    SplitCons(s[0], Blank(t));
  }

  /** The step of `SplitSubst` for a run of stripped characters. */
  lemma SplitSubstRun(s: string)
    requires s != [] && !IsTokenChar(s[0])
    requires Split(Subst(DropNonToken(s[1..]))) == Split(Blank(DropNonToken(s[1..])))
    ensures Split(Subst(s)) == Split(Blank(s))
  {
    var n := DropNonToken(s[1..]);
    assert Split(Subst(s)) == Split(Subst(n)) by {
      assert Subst(s) == " " + Subst(n);
      SplitSpace(Subst(n));
    }
    SplitBlankRun(s);
  }

  /** A run of stripped characters blanks to spaces that change no word. */
  lemma SplitBlankRun(s: string)
    requires s != [] && !IsTokenChar(s[0])
    ensures Split(Blank(s)) == Split(Blank(DropNonToken(s[1..])))
  {
    assert Blank(s) == " " + Blank(s[1..]);
    SplitSpace(Blank(s[1..]));
    SplitBlankDrop(s[1..]);
  }

  /** Splitting stops at a space. */
  lemma {:induction false} SplitAppend(u: string, w: string)
    requires w == [] || IsSpace(w[0])
    ensures Split(u + w) == Split(u) + Split(w)
    decreases |u|
  {
    if u == [] {
      assert u + w == w;
    } else if IsSpace(u[0]) {
      assert Split(u + w) == Split(u[1..] + w) by {
        assert (u + w)[0] == u[0] && (u + w)[1..] == u[1..] + w;
      }
      SplitAppend(u[1..], w);
    } else {
      var t := Word(u);
      var v := u[|t|..];
      assert Split(u + w) == [t] + Split(v + w) by {
        WordAppend(u, w);
        assert (u + w)[0] == u[0] && (u + w)[|t|..] == v + w;
      }
      SplitAppend(v, w);
      ConsAssoc(t, Split(v), Split(w));
    }
  }

  lemma ConsAssoc<T>(x: T, a: seq<T>, b: seq<T>)
    ensures [x] + (a + b) == ([x] + a) + b
  {
  }

  /** The first word of `u` is also the first word of `u + w` when `w`
      starts with a space. */
  lemma {:induction false} WordAppend(u: string, w: string)
    requires w == [] || IsSpace(w[0])
    ensures Word(u + w) == Word(u)
    decreases |u|
  {
    if u == [] {
      assert u + w == w;
    } else {
      assert (u + w)[0] == u[0] && (u + w)[1..] == u[1..] + w;
      if !IsSpace(u[0]) {
        WordAppend(u[1..], w);
      }
    }
  }

  lemma SpaceAssoc(a: string, b: string)
    ensures a + " " + b == a + (" " + b)
  {
  }

  /** Stripping and splitting two texts joined by a space gives the words
      of the first followed by those of the second. */
  lemma SplitSubstAppend(a: string, b: string)
    ensures Split(Subst(a + " " + b)) == Split(Subst(a)) + Split(Subst(b))
  {
    SplitSubst(a + " " + b);
    SplitSubst(a);
    SplitSubst(b);
    BlankAppend(a, b);
    SpaceAssoc(Blank(a), Blank(b));
    SplitAppend(Blank(a), " " + Blank(b));
    SplitSpace(Blank(b));
  }

  /** Tokens come in the order of the text. */
  lemma TokenizeAppend(a: string, b: string)
    ensures Tokenize(a + " " + b) == Tokenize(a) + Tokenize(b)
  {
    LowerAppend(a, b);
    ParenMergeAppend(Lower(a), Lower(b));
    SplitSubstAppend(ParenMerge(Lower(a)), ParenMerge(Lower(b)));
    DropStopwordsAppend(Split(Subst(ParenMerge(Lower(a)))), Split(Subst(ParenMerge(Lower(b)))));
  }

  // ---------------------------------------------------------------------
  // Re-tokenizing the space-joined tokens gives the same tokens.

  predicate TokenWords(ts: seq<string>)
  {
    forall k :: 0 <= k < |ts| ==> ts[k] != [] && IsTokenWord(ts[k])
  }

  lemma {:induction false} JoinChars(ts: seq<string>)
    requires TokenWords(ts)
    ensures forall i :: 0 <= i < |Join(ts)| ==> IsTokenChar(Join(ts)[i]) || Join(ts)[i] == ' '
    ensures forall i :: 0 <= i < |Join(ts)| && Join(ts)[i] == ' ' ==> i + 1 < |Join(ts)| && IsTokenChar(Join(ts)[i + 1])
    ensures ts != [] ==> Join(ts) != [] && IsTokenChar(Join(ts)[0])
  {
    if |ts| > 1 {
      JoinChars(ts[1..]);
      var rest := Join(ts[1..]);
      var j := Join(ts);
      assert j == ts[0] + (" " + rest);
      forall i | 0 <= i < |j|
        ensures (IsTokenChar(j[i]) || j[i] == ' ') && (j[i] == ' ' ==> i + 1 < |j| && IsTokenChar(j[i + 1]))
      {
        if i > |ts[0]| {
          assert j[i] == rest[i - |ts[0]| - 1];
          if j[i] == ' ' {
            assert j[i + 1] == rest[i - |ts[0]|];
          }
        } else if i == |ts[0]| {
          assert j[i + 1] == rest[0];
        }
      }
    }
  }

  lemma {:induction false} LowerOfLower(s: string)
    requires forall i :: 0 <= i < |s| ==> IsTokenChar(s[i]) || s[i] == ' '
    ensures Lower(s) == s
  {
  }

  lemma {:induction false} ParenMergeNoParen(s: string)
    requires forall i :: 0 <= i < |s| ==> s[i] != '('
    ensures ParenMerge(s) == s
    decreases |s|
  {
    if s != [] {
      if IsDigit(s[0]) {
        var e := DigitRunEnd(s, 0);
        assert e < |s| ==> s[e] != '(';
        ParenMergeNoParen(s[e..]);
        assert s[..e] + s[e..] == s;
      } else {
        ParenMergeNoParen(s[1..]);
        assert [s[0]] + s[1..] == s;
      }
    }
  }

  /** Text made of token characters and single spaces, each space followed
      by a token character, is left alone by the stripping step. */
  lemma {:induction false} SubstIdentity(s: string)
    requires forall i :: 0 <= i < |s| ==> IsTokenChar(s[i]) || s[i] == ' '
    requires forall i :: 0 <= i < |s| && s[i] == ' ' ==> i + 1 < |s| && IsTokenChar(s[i + 1])
    ensures Subst(s) == s
    decreases |s|
  {
    if s != [] {
      var t := s[1..];
      assert forall i :: 0 <= i < |t| ==> t[i] == s[i + 1];
      SubstIdentity(t);
      if !IsTokenChar(s[0]) {
        assert DropNonToken(t) == t;
      }
      assert [s[0]] + t == s;
    }
  }

  lemma {:induction false} WordPrefix(t: string, x: string)
    requires forall i :: 0 <= i < |t| ==> !IsSpace(t[i])
    requires x == [] || IsSpace(x[0])
    ensures Word(t + x) == t
    decreases |t|
  {
    if t != [] {
      assert (t + x)[1..] == t[1..] + x;
      WordPrefix(t[1..], x);
      assert [t[0]] + t[1..] == t;
    } else {
      assert t + x == x;
    }
  }

  /** A non-empty space-free word followed by a space or nothing splits off
      as the first word. */
  lemma SplitWordThen(t: string, x: string)
    requires t != [] && forall i :: 0 <= i < |t| ==> !IsSpace(t[i])
    requires x == [] || IsSpace(x[0])
    ensures Split(t + x) == [t] + Split(x)
  {
    WordPrefix(t, x);
    assert (t + x)[0] == t[0];
    assert (t + x)[|t|..] == x;
  }

  lemma SplitSpace(rest: string)
    ensures Split(" " + rest) == Split(rest)
  {
    assert (" " + rest)[1..] == rest;
  }

  lemma {:induction false} SplitJoin(ts: seq<string>)
    requires TokenWords(ts)
    ensures Split(Join(ts)) == ts
  {
    if ts != [] {
      var t := ts[0];
      assert t != [] && IsTokenWord(t);
      if |ts| == 1 {
        SplitWordThen(t, []);
        assert t + [] == t;
      } else {
        var rest := Join(ts[1..]);
        assert Join(ts) == t + (" " + rest);
        SplitWordThen(t, " " + rest);
        SplitSpace(rest);
        SplitJoin(ts[1..]);
        assert [t] + ts[1..] == ts;
      }
    }
  }

  lemma {:induction false} DropStopwordsNone(ts: seq<string>)
    requires forall k :: 0 <= k < |ts| ==> !IsStopword(ts[k])
    ensures DropStopwords(ts) == ts
  {
    if ts != [] {
      DropStopwordsNone(ts[1..]);
      assert [ts[0]] + ts[1..] == ts;
    }
  }

  lemma TokenizeJoinIdempotent(s: string)
    ensures Tokenize(Join(Tokenize(s))) == Tokenize(s)
  {
    var ts := Tokenize(s);
    TokenizeWellFormed(s);
    var j := Join(ts);
    JoinChars(ts);
    LowerOfLower(j);
    ParenMergeNoParen(j);
    SubstIdentity(j);
    SplitJoin(ts);
    DropStopwordsNone(ts);
  }

  // ---------------------------------------------------------------------
  // The subsection merge, on the example the comments give.

  lemma SubsectionMerged()
    ensures Tokenize("87103(a)") == ["87103a"]
    ensures Tokenize("87103(A)") == ["87103a"]
  {
    LowerExample();
    MergeExample();
    SplitExample();
    KeepExample();
  }

  lemma LowerExample()
    ensures Lower("87103(a)") == "87103(a)" && Lower("87103(A)") == "87103(a)"
  {
    assert Lower("87103(A)")[6] == 'a';
  }

  lemma MergeExample()
    ensures ParenMerge("87103(a)") == "87103a"
  {
    var s := "87103(a)";
    assert DigitRunEnd(s, 5) == 5;
    assert DigitRunEnd(s, 0) == 5;
    assert s[..5] == "87103" && s[5] == '(' && s[6] == 'a' && s[7] == ')';
    assert ParenMerge(s[8..]) == [];
  }

  lemma SplitExample()
    ensures Split(Subst("87103a")) == ["87103a"]
  {
    var t := "87103a";
    SubstIdentity(t);
    WordPrefix(t, []);
    assert t + [] == t;
    assert t[|t|..] == [];
  }

  lemma KeepExample()
    ensures DropStopwords(["87103a"]) == ["87103a"]
  {
    assert !IsStopword("87103a");
    assert ["87103a"][1..] == [];
  }

  // ---------------------------------------------------------------------
  // BM25FullText.search

  /** BM25 top-k: nothing for a token-free query, else the top `k` by BM25
      score with zero-score documents removed. `bm25[i]` is the library's
      score of document `ids[i]` for this query's tokens. */
  method FullTextSearch(query: string, ids: seq<Id>, bm25: seq<real>, topK: nat) returns (r: seq<Id>)
    requires Distinct(ids) && |ids| == |bm25|
    ensures Tokenize(query) == [] ==> r == []
    ensures Tokenize(query) != [] ==> IsPositiveTopK(r, Elems(ids), ScoreMap(ids, bm25), topK)
  {
    if Tokenize(query) == [] {
      return [];
    }
    r := PositiveTopK(Elems(ids), ScoreMap(ids, bm25), topK);
  }
}
