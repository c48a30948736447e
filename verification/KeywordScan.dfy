/**
 Keyword search in query text, outside strings, quoted names, comments and nested brackets.
 The specification lexes first (`Codes`) and searches afterwards (`Hit`); `KeywordIndexFrom` does both in
 one pass over the bytes.
 */
module KeywordScan {
  import opened Bytes
  import opened Wrappers

  datatype BoundaryMode = Word | Whitespace

  datatype ScanOpts = ScanOpts(
    skipParens: bool,
    skipBrackets: bool,
    skipBraces: bool,
    skipStrings: bool,
    skipBackticks: bool,
    skipComments: bool,
    boundary: BoundaryMode)

  const DEFAULT_OPTS := ScanOpts(true, true, false, true, true, true, Word)

  const NEWLINE: byte := 10
  const DOUBLE_QUOTE: byte := 34
  const SINGLE_QUOTE: byte := 39
  const STAR: byte := 42
  const SLASH: byte := 47
  const COLON: byte := 58
  const BACKSLASH: byte := 92
  const BACKTICK: byte := 96

  // ---------- Bytes ----------

  predicate IsSpace(b: byte) {
    b == 32 || b == 9 || b == 10 || b == 13
  }

  function Upper(b: byte): byte {
    if 97 <= b <= 122 then b - 32 else b
  }

  predicate IsIdent(b: byte) {
    48 <= b <= 57 || 65 <= b <= 90 || 97 <= b <= 122 || b == 95 || b >= 128
  }

  // ---------- Lexing ----------

  function LineEnd(s: seq<byte>, i: nat): (e: nat)
    requires i <= |s|
    ensures i <= e <= |s|
    decreases |s| - i
  {
    if i == |s| then i else if s[i] == NEWLINE then i + 1 else LineEnd(s, i + 1)
  }

  function BlockEnd(s: seq<byte>, i: nat): (e: nat)
    requires i <= |s|
    ensures i <= e <= |s|
    decreases |s| - i
  {
    if i == |s| then i
    else if s[i] == STAR && i + 1 < |s| && s[i + 1] == SLASH then i + 2
    else BlockEnd(s, i + 1)
  }

  /** The end of the quoted text whose inside starts at `i`; a doubled quote stands for itself, and so does
      any byte after a backslash where `escapes`. */
  function QuoteEnd(s: seq<byte>, i: nat, quote: byte, escapes: bool): (e: nat)
    requires i <= |s|
    ensures i <= e <= |s|
    decreases |s| - i
  {
    if i == |s| then i
    else if escapes && s[i] == BACKSLASH && i + 1 < |s| then QuoteEnd(s, i + 2, quote, escapes)
    else if s[i] != quote then QuoteEnd(s, i + 1, quote, escapes)
    else if i + 1 < |s| && s[i + 1] == quote then QuoteEnd(s, i + 2, quote, escapes)
    else i + 1
  }

  datatype Mode = Code | Line | Block | Single | Double | Tick

  /** What the byte at `i` of code opens. */
  function Opens(s: seq<byte>, opts: ScanOpts, i: nat): Mode
    requires i < |s|
  {
    if opts.skipComments && s[i] == SLASH && i + 1 < |s| && s[i + 1] == SLASH then Line
    else if opts.skipComments && s[i] == SLASH && i + 1 < |s| && s[i + 1] == STAR then Block
    else if opts.skipStrings && s[i] == SINGLE_QUOTE then Single
    else if opts.skipStrings && s[i] == DOUBLE_QUOTE then Double
    else if opts.skipBackticks && s[i] == BACKTICK then Tick
    else Code
  }

  /** Where code resumes, from `i` inside a region of the mode. */
  function Resume(s: seq<byte>, mode: Mode, i: nat): (e: nat)
    requires i <= |s|
    ensures i <= e <= |s|
  {
    match mode
    case Code => i
    case Line => LineEnd(s, i)
    case Block => BlockEnd(s, i)
    case Single => QuoteEnd(s, i, SINGLE_QUOTE, true)
    case Double => QuoteEnd(s, i, DOUBLE_QUOTE, true)
    case Tick => QuoteEnd(s, i, BACKTICK, false)
  }

  /** The length of what opens a region. */
  function OpenLength(mode: Mode): nat {
    if mode.Line? || mode.Block? then 2 else 1
  }

  /** The positions of the bytes of `s`, from `i` on, that are code. */
  function Codes(s: seq<byte>, opts: ScanOpts, i: nat): (ps: seq<nat>)
    requires i <= |s|
    ensures forall k | 0 <= k < |ps| :: i <= ps[k] < |s|
    ensures forall j, k | 0 <= j < k < |ps| :: ps[j] < ps[k]
    decreases |s| - i
  {
    if i == |s| then []
    else
      var mode := Opens(s, opts, i);
      if mode == Code then [i] + Codes(s, opts, i + 1)
      else Codes(s, opts, Resume(s, mode, i + OpenLength(mode)))
  }

  // ---------- Nesting ----------

  predicate Within(ps: seq<nat>, n: nat) {
    forall k | 0 <= k < |ps| :: ps[k] < n
  }

  /** How many `open` are still unclosed after the bytes at `ps`; a `close` with none open is ignored. */
  function Depth(s: seq<byte>, ps: seq<nat>, open: byte, close: byte): nat
    requires Within(ps, |s|)
  {
    if ps == [] then 0
    else
      var before := Depth(s, ps[..|ps| - 1], open, close);
      var b := s[ps[|ps| - 1]];
      if b == open then before + 1 else if b == close && before > 0 then before - 1 else before
  }

  /** Nothing that is to be skipped is open after the bytes at `ps`. */
  predicate Outside(s: seq<byte>, opts: ScanOpts, ps: seq<nat>)
    requires Within(ps, |s|)
  {
    && (opts.skipParens ==> Depth(s, ps, 40, 41) == 0)
    && (opts.skipBrackets ==> Depth(s, ps, 91, 93) == 0)
    && (opts.skipBraces ==> Depth(s, ps, 123, 125) == 0)
  }

  // ---------- Matching ----------

  /** The end of the white space at `i`. */
  function SpaceEnd(t: seq<byte>, i: nat): (e: nat)
    requires i <= |t|
    ensures i <= e <= |t| && (forall j | i <= j < e :: IsSpace(t[j])) && (e < |t| ==> !IsSpace(t[e]))
    decreases |t| - i
  {
    if i < |t| && IsSpace(t[i]) then SpaceEnd(t, i + 1) else i
  }

  function DropSpaces(t: seq<byte>): seq<byte> {
    t[SpaceEnd(t, 0)..]
  }

  /** Upper case, every run of white space one blank. */
  function Fold(t: seq<byte>): (r: seq<byte>)
    decreases |t|
  {
    if t == [] then []
    else if IsSpace(t[0]) then [32] + Fold(DropSpaces(t[1..]))
    else [Upper(t[0])] + Fold(t[1..])
  }

  /** The keyword without white space around it. */
  function Trimmed(keyword: seq<byte>): (r: seq<byte>)
    ensures r != [] ==> !IsSpace(r[0]) && !IsSpace(r[|r| - 1])
  {
    DropSpacesEnd(DropSpaces(keyword))
  }

  function DropSpacesEnd(t: seq<byte>): (r: seq<byte>)
    ensures r <= t && (r != [] ==> !IsSpace(r[|r| - 1])) && forall i | |r| <= i < |t| :: IsSpace(t[i])
  {
    if t != [] && IsSpace(t[|t| - 1]) then DropSpacesEnd(t[..|t| - 1]) else t
  }

  predicate LeftBoundary(s: seq<byte>, p: nat, mode: BoundaryMode)
    requires p <= |s|
  {
    p == 0 || (if mode == Whitespace then IsSpace(s[p - 1]) else s[p - 1] != COLON && !IsIdent(s[p - 1]))
  }

  predicate RightBoundary(s: seq<byte>, e: nat, mode: BoundaryMode) {
    e >= |s| || (if mode == Whitespace then IsSpace(s[e]) else s[e] != COLON && !IsIdent(s[e]))
  }

  /** `s[p..e]` is the keyword, between boundaries. */
  predicate MatchesTo(s: seq<byte>, keyword: seq<byte>, mode: BoundaryMode, p: nat, e: nat) {
    && p <= e <= |s| && Fold(s[p..e]) == Fold(Trimmed(keyword))
    && LeftBoundary(s, p, mode) && RightBoundary(s, e, mode)
  }

  predicate Matches(s: seq<byte>, keyword: seq<byte>, mode: BoundaryMode, p: nat) {
    exists e | p <= e <= |s| :: MatchesTo(s, keyword, mode, p, e)
  }

  /** The keyword stands at the `n`th code byte, outside everything that is to be skipped. */
  predicate HitAt(s: seq<byte>, keyword: seq<byte>, opts: ScanOpts, ps: seq<nat>, n: nat)
    requires Within(ps, |s|) && n < |ps|
  {
    Outside(s, opts, ps[..n + 1]) && Matches(s, keyword, opts.boundary, ps[n])
  }

  ghost predicate Hit(s: seq<byte>, keyword: seq<byte>, from: nat, opts: ScanOpts, p: nat) {
    && Trimmed(keyword) != [] && from <= |s|
    && exists n: nat | n < |Codes(s, opts, from)| ::
         HitAt(s, keyword, opts, Codes(s, opts, from), n) && Codes(s, opts, from)[n] == p
  }

  /** `r` is the least position of a hit, if there is one. */
  ghost predicate LeastHit(s: seq<byte>, keyword: seq<byte>, from: nat, opts: ScanOpts, r: Option<nat>) {
    match r
    case None => forall p :: !Hit(s, keyword, from, opts, p)
    case Some(p) => Hit(s, keyword, from, opts, p) && forall q | Hit(s, keyword, from, opts, q) :: p <= q
  }

  // ---------- The scanner ----------

  /** How a byte folds, and what is left to fold after it. */
  function FoldByte(b: byte): byte {
    if IsSpace(b) then 32 else Upper(b)
  }

  function AfterHead(t: seq<byte>): (r: seq<byte>)
    requires t != []
    ensures |r| < |t|
  {
    if IsSpace(t[0]) then DropSpaces(t) else t[1..]
  }

  function MatchEnd(s: seq<byte>, keyword: seq<byte>): Option<nat>
    decreases |keyword|
  {
    if keyword == [] then Some(0)
    else if s == [] || FoldByte(s[0]) != FoldByte(keyword[0]) then None
    else
      match MatchEnd(AfterHead(s), AfterHead(keyword))
      case None => None
      case Some(e) => Some(|s| - |AfterHead(s)| + e)
  }

  lemma FoldIsEmpty(t: seq<byte>)
    ensures Fold(t) == [] <==> t == []
  {
  }

  lemma ConsEqual(x: byte, a: seq<byte>, y: byte, b: seq<byte>)
    ensures [x] + a == [y] + b <==> x == y && a == b
  {
    if [x] + a == [y] + b {
      assert x == ([x] + a)[0] == ([y] + b)[0] == y;
      assert a == ([x] + a)[1..] == ([y] + b)[1..] == b;
    }
  }

  /** The matcher finds the end of the text that folds to the keyword. */
  lemma {:induction false} MatchEndIsFold(s: seq<byte>, keyword: seq<byte>, e: nat)
    requires keyword != [] ==> !IsSpace(keyword[|keyword| - 1])
    requires e <= |s|
    ensures MatchEnd(s, keyword) == Some(e) <==> Fold(s[..e]) == Fold(keyword)
    decreases |keyword|
  {
    hide FoldByte, IsSpace, AfterHead, Fold;
    FoldIsEmpty(s[..e]);
    FoldIsEmpty(keyword);
    if keyword != [] && s != [] {
      AfterKeepsEnd(keyword);
      var drop := |s| - |AfterHead(s)|;
      if e > 0 {
        FoldHead(s[..e]);
        FoldHead(keyword);
        AfterPrefix(s, e);
        ConsEqual(FoldByte(s[0]), Fold(AfterHead(s[..e])), FoldByte(keyword[0]), Fold(AfterHead(keyword)));
        if drop <= e {
          MatchEndIsFold(AfterHead(s), AfterHead(keyword), e - drop);
        } else {
          FoldIsEmpty(AfterHead(keyword));
          FoldIsEmpty([]);
          SpaceOnly(s[0], keyword[0]);
        }
      }
    }
  }

  lemma FoldHead(t: seq<byte>)
    requires t != []
    ensures Fold(t) == [FoldByte(t[0])] + Fold(AfterHead(t))
  {
    if IsSpace(t[0]) {
      var n := SpaceEnd(t[1..], 0);
      assert forall j | 1 <= j < n + 1 :: t[j] == t[1..][j - 1];
      assert n + 1 == SpaceEnd(t, 0);
      assert DropSpaces(t[1..]) == DropSpaces(t);
    }
  }

  lemma AfterKeepsEnd(t: seq<byte>)
    requires t != [] && !IsSpace(t[|t| - 1])
    ensures AfterHead(t) != [] ==> !IsSpace(AfterHead(t)[|AfterHead(t)| - 1])
    ensures IsSpace(t[0]) ==> AfterHead(t) != []
  {
    hide IsSpace;
  }

  lemma SpaceOnly(a: byte, b: byte)
    ensures FoldByte(a) == FoldByte(b) ==> IsSpace(a) == IsSpace(b)
  {
  }

  lemma AfterPrefix(s: seq<byte>, e: nat)
    requires 0 < e <= |s|
    ensures var drop := |s| - |AfterHead(s)|;
      && AfterHead(s[..e]) == (if drop <= e then AfterHead(s)[..e - drop] else [])
      && (drop > e ==> IsSpace(s[0]))
  {
    hide IsSpace;
    if IsSpace(s[0]) {
      var t, n := s[..e], SpaceEnd(s, 0);
      assert forall j | 0 <= j < e :: t[j] == s[j];
      if n <= e {
        assert SpaceEnd(t, 0) == n;
        assert t[n..] == s[n..][..e - n];
      } else {
        assert SpaceEnd(t, 0) == e;
      }
    }
  }
}
