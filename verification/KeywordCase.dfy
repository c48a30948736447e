/** Letter case never matters to the keyword search, and skipping more brackets never finds more. */
module KeywordCase {
  import opened Bytes
  import opened KeywordScan
  import opened Wrappers

  function Uppered(s: seq<byte>): (r: seq<byte>)
    ensures |r| == |s| && forall i | 0 <= i < |s| :: r[i] == Upper(s[i])
  {
    seq(|s|, i requires 0 <= i < |s| => Upper(s[i]))
  }

  /** Upper case changes letters into letters and nothing else. */
  lemma UpperFacts(b: byte)
    ensures Upper(Upper(b)) == Upper(b) && IsSpace(Upper(b)) == IsSpace(b) && IsIdent(Upper(b)) == IsIdent(b)
    ensures Upper(b) != b ==> 97 <= b <= 122 && 65 <= Upper(b) <= 90
  {
  }

  // ---------- Lexing ----------

  lemma {:induction false} LineEndCase(s: seq<byte>, i: nat)
    requires i <= |s|
    ensures LineEnd(Uppered(s), i) == LineEnd(s, i)
    decreases |s| - i
  {
    hide Upper;
    if i < |s| {
      UpperFacts(s[i]);
      LineEndCase(s, i + 1);
    }
  }

  lemma {:induction false} BlockEndCase(s: seq<byte>, i: nat)
    requires i <= |s|
    ensures BlockEnd(Uppered(s), i) == BlockEnd(s, i)
    decreases |s| - i
  {
    hide Upper;
    if i < |s| {
      UpperFacts(s[i]);
      if i + 1 < |s| {
        UpperFacts(s[i + 1]);
      }
      BlockEndCase(s, i + 1);
    }
  }

  lemma {:induction false} QuoteEndCase(s: seq<byte>, i: nat, quote: byte, escapes: bool)
    requires i <= |s| && quote in [SINGLE_QUOTE, DOUBLE_QUOTE, BACKTICK]
    ensures QuoteEnd(Uppered(s), i, quote, escapes) == QuoteEnd(s, i, quote, escapes)
    decreases |s| - i
  {
    hide Upper;
    if i < |s| {
      UpperFacts(s[i]);
      QuoteEndCase(s, i + 1, quote, escapes);
      if i + 1 < |s| {
        UpperFacts(s[i + 1]);
        QuoteEndCase(s, i + 2, quote, escapes);
      }
    }
  }

  lemma ResumeCase(s: seq<byte>, mode: Mode, i: nat)
    requires i <= |s|
    ensures Resume(Uppered(s), mode, i) == Resume(s, mode, i)
  {
    hide LineEnd, BlockEnd, QuoteEnd, Uppered;
    LineEndCase(s, i);
    BlockEndCase(s, i);
    QuoteEndCase(s, i, SINGLE_QUOTE, true);
    QuoteEndCase(s, i, DOUBLE_QUOTE, true);
    QuoteEndCase(s, i, BACKTICK, false);
  }

  lemma OpensCase(s: seq<byte>, opts: ScanOpts, i: nat)
    requires i < |s|
    ensures Opens(Uppered(s), opts, i) == Opens(s, opts, i)
  {
    hide Upper;
    UpperFacts(s[i]);
    if i + 1 < |s| {
      UpperFacts(s[i + 1]);
    }
  }

  lemma {:induction false} CodesCase(s: seq<byte>, opts: ScanOpts, i: nat)
    requires i <= |s|
    ensures Codes(Uppered(s), opts, i) == Codes(s, opts, i)
    decreases |s| - i
  {
    hide Resume, Opens, Uppered;
    if i < |s| {
      OpensCase(s, opts, i);
      var mode := Opens(s, opts, i);
      if mode == Code {
        CodesCase(s, opts, i + 1);
      } else if i + OpenLength(mode) <= |s| {
        ResumeCase(s, mode, i + OpenLength(mode));
        CodesCase(s, opts, Resume(s, mode, i + OpenLength(mode)));
      } else {
        OpenFits(s, opts, i);
      }
    }
  }

  lemma OpenFits(s: seq<byte>, opts: ScanOpts, i: nat)
    requires i < |s| && Opens(s, opts, i) != Code
    ensures i + OpenLength(Opens(s, opts, i)) <= |s|
  {
  }

  lemma {:induction false} DepthCase(s: seq<byte>, ps: seq<nat>, open: byte, close: byte)
    requires Within(ps, |s|)
    requires !(65 <= open <= 90) && !(97 <= open <= 122) && !(65 <= close <= 90) && !(97 <= close <= 122)
    ensures Depth(Uppered(s), ps, open, close) == Depth(s, ps, open, close)
    decreases |ps|
  {
    hide Upper;
    if ps != [] {
      UpperFacts(s[ps[|ps| - 1]]);
      DepthCase(s, ps[..|ps| - 1], open, close);
    }
  }

  // ---------- Matching ----------

  lemma {:induction false} SpaceEndCase(t: seq<byte>, i: nat)
    requires i <= |t|
    ensures SpaceEnd(Uppered(t), i) == SpaceEnd(t, i)
    decreases |t| - i
  {
    hide Upper, IsSpace;
    if i < |t| {
      UpperFacts(t[i]);
      SpaceEndCase(t, i + 1);
    }
  }

  lemma UpperedSlice(t: seq<byte>, a: nat, b: nat)
    requires a <= b <= |t|
    ensures Uppered(t)[a..b] == Uppered(t[a..b])
  {
    hide Upper;
  }

  lemma {:induction false} FoldCase(t: seq<byte>)
    ensures Fold(Uppered(t)) == Fold(t)
    decreases |t|
  {
    hide Upper, IsSpace, SpaceEnd;
    if t != [] {
      var rest := t[1..];
      UpperFacts(t[0]);
      UpperedSlice(t, 1, |t|);
      assert Uppered(t)[1..] == Uppered(rest);
      SpaceEndCase(rest, 0);
      UpperedSlice(rest, SpaceEnd(rest, 0), |rest|);
      assert DropSpaces(Uppered(rest)) == Uppered(DropSpaces(rest));
      FoldCase(rest);
      FoldCase(DropSpaces(rest));
    }
  }

  lemma {:induction false} DropSpacesEndCase(t: seq<byte>)
    ensures DropSpacesEnd(Uppered(t)) == Uppered(DropSpacesEnd(t))
    decreases |t|
  {
    hide Upper, IsSpace;
    if t != [] {
      UpperFacts(t[|t| - 1]);
      UpperedSlice(t, 0, |t| - 1);
      assert Uppered(t)[..|t| - 1] == Uppered(t[..|t| - 1]);
      DropSpacesEndCase(t[..|t| - 1]);
    }
  }

  lemma TrimmedCase(keyword: seq<byte>)
    ensures Trimmed(Uppered(keyword)) == Uppered(Trimmed(keyword))
  {
    hide Upper, IsSpace, SpaceEnd, DropSpacesEnd;
    SpaceEndCase(keyword, 0);
    UpperedSlice(keyword, SpaceEnd(keyword, 0), |keyword|);
    assert DropSpaces(Uppered(keyword)) == Uppered(DropSpaces(keyword));
    DropSpacesEndCase(DropSpaces(keyword));
  }

  lemma MatchesToCase(s: seq<byte>, keyword: seq<byte>, mode: BoundaryMode, p: nat, e: nat)
    ensures MatchesTo(Uppered(s), Uppered(keyword), mode, p, e) <==> MatchesTo(s, keyword, mode, p, e)
  {
    hide Upper, IsSpace, IsIdent, Trimmed, Fold;
    TrimmedCase(keyword);
    FoldCase(Trimmed(keyword));
    if p <= e <= |s| {
      UpperedSlice(s, p, e);
      FoldCase(s[p..e]);
      if p > 0 {
        UpperFacts(s[p - 1]);
      }
      if e < |s| {
        UpperFacts(s[e]);
      }
    }
  }

  lemma MatchesCase(s: seq<byte>, keyword: seq<byte>, mode: BoundaryMode, p: nat)
    ensures Matches(Uppered(s), Uppered(keyword), mode, p) <==> Matches(s, keyword, mode, p)
  {
    hide MatchesTo, Upper;
    forall e ensures e >= 0 ==> (MatchesTo(Uppered(s), Uppered(keyword), mode, p, e) <==> MatchesTo(s, keyword, mode, p, e)) {
      if e >= 0 {
        MatchesToCase(s, keyword, mode, p, e);
      }
    }
  }

  lemma HitCase(s: seq<byte>, keyword: seq<byte>, from: nat, opts: ScanOpts, p: nat)
    ensures Hit(Uppered(s), Uppered(keyword), from, opts, p) <==> Hit(s, keyword, from, opts, p)
  {
    hide Trimmed, Upper, Codes, Matches, Depth;
    TrimmedCase(keyword);
    if from <= |s| {
      CodesCase(s, opts, from);
      var ps := Codes(s, opts, from);
      forall n: nat | n < |ps|
        ensures HitAt(Uppered(s), Uppered(keyword), opts, ps, n) <==> HitAt(s, keyword, opts, ps, n)
      {
        DepthCase(s, ps[..n + 1], 40, 41);
        DepthCase(s, ps[..n + 1], 91, 93);
        DepthCase(s, ps[..n + 1], 123, 125);
        MatchesCase(s, keyword, opts.boundary, ps[n]);
      }
    }
  }

  /** The search answers the same for the upper-cased query and keyword. */
  lemma CaseDoesNotMatter(s: seq<byte>, keyword: seq<byte>, from: nat, opts: ScanOpts, r: Option<nat>)
    ensures LeastHit(Uppered(s), Uppered(keyword), from, opts, r) <==> LeastHit(s, keyword, from, opts, r)
  {
    hide Hit, Uppered;
    forall p: nat ensures Hit(Uppered(s), Uppered(keyword), from, opts, p) <==> Hit(s, keyword, from, opts, p) {
      HitCase(s, keyword, from, opts, p);
    }
  }

  /** The answer is determined by the specification. */
  lemma LeastHitUnique(s: seq<byte>, keyword: seq<byte>, from: nat, opts: ScanOpts, r: Option<nat>, r': Option<nat>)
    requires LeastHit(s, keyword, from, opts, r) && LeastHit(s, keyword, from, opts, r')
    ensures r == r'
  {
    hide Hit;
  }

  // ---------- Options ----------

  /** `more` differs from `opts` only in skipping the inside of more kinds of brackets. */
  predicate SkipsMore(opts: ScanOpts, more: ScanOpts) {
    && (opts.skipParens ==> more.skipParens) && (opts.skipBrackets ==> more.skipBrackets)
    && (opts.skipBraces ==> more.skipBraces)
    && more == opts.(skipParens := more.skipParens, skipBrackets := more.skipBrackets, skipBraces := more.skipBraces)
  }

  lemma {:induction false} CodesSkipMore(s: seq<byte>, opts: ScanOpts, more: ScanOpts, i: nat)
    requires i <= |s| && SkipsMore(opts, more)
    ensures Codes(s, more, i) == Codes(s, opts, i)
    decreases |s| - i
  {
    hide Resume;
    if i < |s| {
      var mode := Opens(s, opts, i);
      if mode == Code {
        CodesSkipMore(s, opts, more, i + 1);
      } else {
        CodesSkipMore(s, opts, more, Resume(s, mode, i + OpenLength(mode)));
      }
    }
  }

  /** Skipping more brackets finds no hit that was not there, and none earlier. */
  lemma SkippingMoreFindsLater(s: seq<byte>, keyword: seq<byte>, from: nat, opts: ScanOpts, more: ScanOpts,
                               r: Option<nat>, r': Option<nat>)
    requires SkipsMore(opts, more) && LeastHit(s, keyword, from, opts, r) && LeastHit(s, keyword, from, more, r')
    ensures r'.Some? ==> r.Some? && r.value <= r'.value
  {
    hide Codes, Depth, Trimmed, Matches;
    if r'.Some? {
      CodesSkipMore(s, opts, more, from);
      assert Hit(s, keyword, from, opts, r'.value);
    }
  }
}
