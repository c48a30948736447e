/** The one-pass keyword scanner finds the least hit of the lex-then-search specification. */
module KeywordIndex {
  import opened Bytes
  import opened KeywordScan
  import opened Wrappers

  // ---------- The matcher ----------

  function Shift(end: Option<nat>, n: nat): Option<nat> {
    match end case None => None case Some(e) => Some(n + e)
  }

  lemma AfterHeadAt(t: seq<byte>, k: nat)
    requires k < |t|
    ensures AfterHead(t[k..]) == if IsSpace(t[k]) then t[SpaceEnd(t, k)..] else t[k + 1..]
  {
    hide IsSpace;
    if IsSpace(t[k]) {
      var n := SpaceEnd(t, k);
      assert forall j | k <= j < |t| :: t[j] == t[k..][j - k];
      assert SpaceEnd(t[k..], 0) == n - k;
    }
  }

  /** One turn of the matcher: both sides move past what folds to one byte. */
  lemma MatchStep(s: seq<byte>, j: nat, pattern: seq<byte>, k: nat)
    requires j < |s| && k < |pattern| && FoldByte(s[j]) == FoldByte(pattern[k])
    ensures var j' := if IsSpace(s[j]) then SpaceEnd(s, j) else j + 1;
      var k' := if IsSpace(pattern[k]) then SpaceEnd(pattern, k) else k + 1;
      MatchEnd(s[j..], pattern[k..]) == Shift(MatchEnd(s[j'..], pattern[k'..]), j' - j)
  {
    hide FoldByte, IsSpace, AfterHead;
    AfterHeadAt(s, j);
    AfterHeadAt(pattern, k);
  }

  method KeywordMatchAt(s: seq<byte>, pos: nat, keyword: seq<byte>, ks: nat, ke: nat) returns (r: Option<nat>)
    requires pos <= |s| && ks < ke <= |keyword| && !IsSpace(keyword[ke - 1])
    ensures r == None ==> forall e | pos <= e <= |s| :: Fold(s[pos..e]) != Fold(keyword[ks..ke])
    ensures r.Some? ==> forall e | pos <= e <= |s| :: Fold(s[pos..e]) == Fold(keyword[ks..ke]) <==> e == r.value
    ensures r.Some? ==> pos <= r.value <= |s|
  {
    hide Fold, MatchEnd, IsSpace, Upper, FoldByte;
    ghost var pattern := keyword[..ke];
    ghost var found := MatchEnd(s[pos..], pattern[ks..]);
    MatchEndInside(s[pos..], pattern[ks..]);
    forall e | pos <= e <= |s| ensures Fold(s[pos..e]) == Fold(keyword[ks..ke]) <==> found == Some(e - pos) {
      MatchMeansFold(s, pos, keyword, ks, ke, e);
    }
    var j, k := pos, ks;
    while k < ke
      invariant pos <= j <= |s| && ks <= k <= ke
      invariant found == Shift(MatchEnd(s[j..], pattern[k..]), j - pos)
    {
      var ck := keyword[k];
      ghost var j0, k0 := j, k;
      if IsSpace(ck) {
        while k < ke && IsSpace(keyword[k])
          invariant k0 <= k <= ke && SpaceEnd(pattern, k) == SpaceEnd(pattern, k0)
          invariant k == k0 ==> IsSpace(keyword[k])
        {
          k := k + 1;
        }
        if j >= |s| || !IsSpace(s[j]) {
          NoMatch(s, j0, pattern, k0);
          return None;
        }
        while j < |s| && IsSpace(s[j])
          invariant j0 <= j <= |s| && SpaceEnd(s, j) == SpaceEnd(s, j0)
        {
          j := j + 1;
        }
        SameFold(s[j0], ck);
        MatchStep(s, j0, pattern, k0);
        continue;
      }
      if j >= |s| || Upper(s[j]) != Upper(ck) {
        NoMatch(s, j0, pattern, k0);
        return None;
      }
      SameFold(s[j], ck);
      MatchStep(s, j, pattern, k);
      j := j + 1;
      k := k + 1;
    }
    assert pattern[k..] == [];
    NothingLeft(s[j..]);
    return Some(j);
  }

  lemma NothingLeft(s: seq<byte>)
    ensures MatchEnd(s, []) == Some(0)
  {
  }

  lemma SameFold(a: byte, b: byte)
    ensures FoldByte(a) == FoldByte(b) <==> (if IsSpace(b) then IsSpace(a) else Upper(a) == Upper(b))
    ensures FoldByte(a) == FoldByte(b) ==> IsSpace(a) == IsSpace(b)
  {
  }

  lemma NoMatch(s: seq<byte>, j: nat, pattern: seq<byte>, k: nat)
    requires j <= |s| && k < |pattern|
    requires j == |s| || (if IsSpace(pattern[k]) then !IsSpace(s[j]) else Upper(s[j]) != Upper(pattern[k]))
    ensures MatchEnd(s[j..], pattern[k..]) == None
  {
    if j < |s| {
      SameFold(s[j], pattern[k]);
    }
  }

  lemma MatchMeansFold(s: seq<byte>, pos: nat, keyword: seq<byte>, ks: nat, ke: nat, e: nat)
    requires pos <= e <= |s| && ks < ke <= |keyword| && !IsSpace(keyword[ke - 1])
    ensures Fold(s[pos..e]) == Fold(keyword[ks..ke]) <==> MatchEnd(s[pos..], keyword[..ke][ks..]) == Some(e - pos)
  {
    hide Fold, IsSpace, MatchEnd;
    assert keyword[..ke][ks..] == keyword[ks..ke];
    assert s[pos..][..e - pos] == s[pos..e];
    MatchEndIsFold(s[pos..], keyword[ks..ke], e - pos);
  }

  lemma {:induction false} MatchEndInside(s: seq<byte>, keyword: seq<byte>)
    ensures var end := MatchEnd(s, keyword); end.Some? ==> end.value <= |s|
    decreases |keyword|
  {
    hide FoldByte, IsSpace, AfterHead;
    if keyword != [] && s != [] {
      MatchEndInside(AfterHead(s), AfterHead(keyword));
    }
  }

  // ---------- Trimming ----------

  method TrimWsStart(s: seq<byte>) returns (i: nat)
    ensures i == SpaceEnd(s, 0)
  {
    i := 0;
    while i < |s| && IsSpace(s[i])
      invariant i <= |s| && SpaceEnd(s, i) == SpaceEnd(s, 0)
    {
      i := i + 1;
    }
  }

  predicate SpacesFrom(s: seq<byte>, n: nat) {
    forall j | n <= j < |s| :: IsSpace(s[j])
  }

  method TrimWsEnd(s: seq<byte>) returns (i: nat)
    ensures i <= |s| && SpacesFrom(s, i) && (i > 0 ==> !IsSpace(s[i - 1]))
  {
    i := |s|;
    while i > 0 && IsSpace(s[i - 1])
      invariant i <= |s| && forall j | i <= j < |s| :: IsSpace(s[j])
    {
      i := i - 1;
    }
  }

  lemma TrimmedSlice(keyword: seq<byte>, ks: nat, ke: nat)
    requires ks == SpaceEnd(keyword, 0) && ke <= |keyword|
    requires SpacesFrom(keyword, ke) && (ke > 0 ==> !IsSpace(keyword[ke - 1]))
    ensures Trimmed(keyword) == if ks < ke then keyword[ks..ke] else []
  {
    hide IsSpace, SpaceEnd, DropSpacesEnd, Trimmed, SpacesFrom;
    TrimmedIs(keyword);
    if ks < ke {
      SpacesAfter(keyword, ks, ke);
      SpacesDropped(keyword[ks..], ke - ks);
    } else {
      AllSpaces(keyword, ks, ke);
    }
  }

  lemma TrimmedIs(keyword: seq<byte>)
    ensures Trimmed(keyword) == DropSpacesEnd(keyword[SpaceEnd(keyword, 0)..])
  {
    hide IsSpace, SpaceEnd, DropSpacesEnd;
  }

  lemma AllSpaces(keyword: seq<byte>, ks: nat, ke: nat)
    requires ks == SpaceEnd(keyword, 0) && ke <= ks && ke <= |keyword| && SpacesFrom(keyword, ke)
    ensures DropSpacesEnd(keyword[ks..]) == []
  {
    hide IsSpace, SpaceEnd, DropSpacesEnd;
    assert ks == |keyword|;
    assert |DropSpacesEnd(keyword[ks..])| <= 0;
  }

  lemma SpacesAfter(keyword: seq<byte>, ks: nat, ke: nat)
    requires ks < ke <= |keyword| && SpacesFrom(keyword, ke) && !IsSpace(keyword[ke - 1])
    ensures var t, n := keyword[ks..], ke - ks;
      SpacesFrom(t, n) && !IsSpace(t[n - 1]) && t[..n] == keyword[ks..ke]
  {
    hide IsSpace;
  }

  lemma {:induction false} SpacesDropped(t: seq<byte>, n: nat)
    requires n <= |t| && SpacesFrom(t, n) && (n > 0 ==> !IsSpace(t[n - 1]))
    ensures DropSpacesEnd(t) == t[..n]
  {
    hide IsSpace;
    if n < |t| {
      SpacesDropped(t[..|t| - 1], n);
      assert t[..|t| - 1][..n] == t[..n];
    } else {
      assert t[..n] == t;
    }
  }

  // ---------- The scanner ----------

  lemma HitPrefix(s: seq<byte>, keyword: seq<byte>, opts: ScanOpts, ps: seq<nat>, qs: seq<nat>, n: nat)
    requires Within(ps + qs, |s|) && Within(ps, |s|) && n < |ps|
    ensures HitAt(s, keyword, opts, ps + qs, n) == HitAt(s, keyword, opts, ps, n)
  {
    hide Outside, Matches;
    assert (ps + qs)[..n + 1] == ps[..n + 1];
  }

  ghost predicate NoHits(s: seq<byte>, keyword: seq<byte>, opts: ScanOpts, ps: seq<nat>)
    requires Within(ps, |s|)
  {
    forall n: nat | n < |ps| :: !HitAt(s, keyword, opts, ps, n)
  }

  lemma DepthStep(s: seq<byte>, ps: seq<nat>, i: nat, open: byte, close: byte)
    requires Within(ps, |s|) && i < |s|
    ensures Within(ps + [i], |s|)
    ensures var before := Depth(s, ps, open, close);
      Depth(s, ps + [i], open, close)
      == if s[i] == open then before + 1 else if s[i] == close && before > 0 then before - 1 else before
  {
    assert (ps + [i])[..|ps|] == ps;
  }

  /** The mode the scanner's flags stand for, when at most one of them is set. */
  ghost function ModeOf(single: bool, double: bool, tick: bool, line: bool, block: bool): Mode {
    if line then Line else if block then Block else if single then Single else if double then Double
    else if tick then Tick else Code
  }

  /** What the loop keeps: `done` are the code positions before `i`, none of them a hit. */
  ghost predicate Scanned(s: seq<byte>, keyword: seq<byte>, from: nat, opts: ScanOpts, i: nat, mode: Mode, done: seq<nat>) {
    && from <= i <= |s| && Within(done, |s|)
    && Codes(s, opts, from) == done + Codes(s, opts, Resume(s, mode, i))
    && NoHits(s, keyword, opts, done)
  }

  lemma CodeStep(s: seq<byte>, keyword: seq<byte>, from: nat, opts: ScanOpts, i: nat, done: seq<nat>)
    requires Scanned(s, keyword, from, opts, i, Code, done) && i < |s| && Opens(s, opts, i) == Code
    ensures Within(done + [i], |s|)
    ensures Codes(s, opts, from) == (done + [i]) + Codes(s, opts, i + 1)
    ensures !HitAt(s, keyword, opts, done + [i], |done|) ==> Scanned(s, keyword, from, opts, i + 1, Code, done + [i])
  {
    hide Opens, HitAt;
    assert done + ([i] + Codes(s, opts, i + 1)) == (done + [i]) + Codes(s, opts, i + 1);
    forall n: nat | n < |done| ensures HitAt(s, keyword, opts, done + [i], n) == HitAt(s, keyword, opts, done, n) {
      HitPrefix(s, keyword, opts, done, [i], n);
    }
  }

  lemma Found(s: seq<byte>, keyword: seq<byte>, from: nat, opts: ScanOpts, i: nat, done: seq<nat>)
    requires Scanned(s, keyword, from, opts, i, Code, done) && i < |s| && Opens(s, opts, i) == Code
    requires Trimmed(keyword) != [] && Within(done + [i], |s|) && HitAt(s, keyword, opts, done + [i], |done|)
    ensures LeastHit(s, keyword, from, opts, Some(i))
  {
    hide Opens, HitAt;
    CodeStep(s, keyword, from, opts, i, done);
    var rest := Codes(s, opts, i + 1);
    var all := Codes(s, opts, from);
    HitPrefix(s, keyword, opts, done + [i], rest, |done|);
    assert HitAt(s, keyword, opts, all, |done|) && all[|done|] == i;
    assert all == done + ([i] + rest);
    forall q | Hit(s, keyword, from, opts, q) ensures i <= q {
      var n: nat :| n < |all| && HitAt(s, keyword, opts, all, n) && all[n] == q;
      if n < |done| {
        HitPrefix(s, keyword, opts, done, [i] + rest, n);
        assert false;
      }
      assert n == |done| || all[|done|] < all[n];
    }
  }

  lemma NotFound(s: seq<byte>, keyword: seq<byte>, from: nat, opts: ScanOpts, mode: Mode, done: seq<nat>)
    requires Scanned(s, keyword, from, opts, |s|, mode, done)
    ensures LeastHit(s, keyword, from, opts, None)
  {
    hide Opens, HitAt;
    assert Codes(s, opts, from) == done;
  }

  /** Whether the code byte at `i` is a hit; `done` are the code positions before it. */
  method CandidateMatch(s: seq<byte>, keyword: seq<byte>, opts: ScanOpts, ghost done: seq<nat>, i: nat, ks: nat, ke: nat,
                        first: byte, parens: nat, brackets: nat, braces: nat)
    returns (hit: bool)
    requires Within(done + [i], |s|) && i < |s| && ks < ke <= |keyword| && Trimmed(keyword) == keyword[ks..ke]
    requires !IsSpace(keyword[ks]) && !IsSpace(keyword[ke - 1]) && first == Upper(keyword[ks])
    requires parens == Depth(s, done + [i], 40, 41) && brackets == Depth(s, done + [i], 91, 93)
    requires braces == Depth(s, done + [i], 123, 125)
    ensures hit <==> HitAt(s, keyword, opts, done + [i], |done|)
  {
    hide HitAt, Depth, Trimmed, IsSpace, Upper, Fold, LeftBoundary, RightBoundary, Within;
    if (opts.skipParens && parens > 0) || (opts.skipBrackets && brackets > 0) || (opts.skipBraces && braces > 0) {
      NestedMiss(s, keyword, opts, done, i);
      return false;
    }
    if Upper(s[i]) != first {
      FirstMiss(s, keyword, opts, done, i, ks, ke);
      return false;
    }
    if !LeftBoundary(s, i, opts.boundary) {
      BoundaryMiss(s, keyword, opts, done, i);
      return false;
    }
    var end := KeywordMatchAt(s, i, keyword, ks, ke);
    HitHere(s, keyword, opts, done, i, ks, ke, end);
    return end.Some? && RightBoundary(s, end.value, opts.boundary);
  }

  method KeywordIndexFrom(s: seq<byte>, keyword: seq<byte>, from: nat, opts: ScanOpts) returns (r: Option<nat>)
    ensures LeastHit(s, keyword, from, opts, r)
  {
    hide Hit, LeastHit, Scanned, Opens, Resume, HitAt, Outside, Matches, Trimmed, Codes, Depth, Fold, SpaceEnd, IsSpace,
      LeftBoundary, RightBoundary, Upper;
    var ks := TrimWsStart(keyword);
    var ke := TrimWsEnd(keyword);
    TrimmedSlice(keyword, ks, ke);
    if ks >= ke || from >= |s| {
      NothingToFind(s, keyword, from, opts);
      return None;
    }
    var first := Upper(keyword[ks]);
    var parens, brackets, braces := 0, 0, 0;
    var inSingle, inDouble, inTick, inLine, inBlock := false, false, false, false, false;
    ghost var done: seq<nat> := [];
    Begin(s, keyword, from, opts);
    var i := from;
    while i < |s|
      invariant from <= i <= |s| && Within(done, |s|)
      invariant Flags(opts, inSingle, inDouble, inTick, inLine, inBlock)
      invariant Scanned(s, keyword, from, opts, i, ModeOf(inSingle, inDouble, inTick, inLine, inBlock), done)
      invariant parens == Depth(s, done, 40, 41) && brackets == Depth(s, done, 91, 93) && braces == Depth(s, done, 123, 125)
    {
      var c := s[i];
      ghost var mode := ModeOf(inSingle, inDouble, inTick, inLine, inBlock);
      if opts.skipComments {
        if inLine {
          LineStep(s, keyword, from, opts, i, done);
          if c == NEWLINE {
            inLine := false;
          }
          i := i + 1;
          continue;
        }
        if inBlock {
          BlockStep(s, keyword, from, opts, i, done);
          if c == STAR && i + 1 < |s| && s[i + 1] == SLASH {
            inBlock := false;
            i := i + 2;
          } else {
            i := i + 1;
          }
          continue;
        }
      }
      if opts.skipStrings {
        if inSingle {
          QuoteStep(s, keyword, from, opts, i, mode, done);
          if c == BACKSLASH && i + 1 < |s| {
            i := i + 2;
            continue;
          }
          if c == SINGLE_QUOTE {
            if i + 1 < |s| && s[i + 1] == SINGLE_QUOTE {
              i := i + 2;
              continue;
            }
            inSingle := false;
          }
          i := i + 1;
          continue;
        }
        if inDouble {
          QuoteStep(s, keyword, from, opts, i, mode, done);
          if c == BACKSLASH && i + 1 < |s| {
            i := i + 2;
            continue;
          }
          if c == DOUBLE_QUOTE {
            if i + 1 < |s| && s[i + 1] == DOUBLE_QUOTE {
              i := i + 2;
              continue;
            }
            inDouble := false;
          }
          i := i + 1;
          continue;
        }
      }
      if opts.skipBackticks && inTick {
        QuoteStep(s, keyword, from, opts, i, mode, done);
        if c == BACKTICK {
          if i + 1 < |s| && s[i + 1] == BACKTICK {
            i := i + 2;
            continue;
          }
          inTick := false;
        }
        i := i + 1;
        continue;
      }
      OpenStep(s, keyword, from, opts, i, done);
      if opts.skipComments && c == SLASH && i + 1 < |s| {
        if s[i + 1] == SLASH {
          inLine := true;
          i := i + 2;
          continue;
        }
        if s[i + 1] == STAR {
          inBlock := true;
          i := i + 2;
          continue;
        }
      }
      if opts.skipStrings {
        if c == SINGLE_QUOTE {
          inSingle := true;
          i := i + 1;
          continue;
        }
        if c == DOUBLE_QUOTE {
          inDouble := true;
          i := i + 1;
          continue;
        }
      }
      if opts.skipBackticks && c == BACKTICK {
        inTick := true;
        i := i + 1;
        continue;
      }
      CodeStep(s, keyword, from, opts, i, done);
      DepthStep(s, done, i, 40, 41);
      DepthStep(s, done, i, 91, 93);
      DepthStep(s, done, i, 123, 125);
      ghost var before := done;
      done := done + [i];
      if c == 40 {
        parens := parens + 1;
      } else if c == 41 && parens > 0 {
        parens := parens - 1;
      } else if c == 91 {
        brackets := brackets + 1;
      } else if c == 93 && brackets > 0 {
        brackets := brackets - 1;
      } else if c == 123 {
        braces := braces + 1;
      } else if c == 125 && braces > 0 {
        braces := braces - 1;
      }
      var hit := CandidateMatch(s, keyword, opts, before, i, ks, ke, first, parens, brackets, braces);
      if hit {
        Found(s, keyword, from, opts, i, before);
        return Some(i);
      }
      i := i + 1;
    }
    NotFound(s, keyword, from, opts, ModeOf(inSingle, inDouble, inTick, inLine, inBlock), done);
    return None;
  }

  /** At most one flag is set, and only one whose region is to be skipped. */
  ghost predicate Flags(opts: ScanOpts, single: bool, double: bool, tick: bool, line: bool, block: bool) {
    && (line ==> opts.skipComments && !block && !single && !double && !tick)
    && (block ==> opts.skipComments && !single && !double && !tick)
    && (single ==> opts.skipStrings && !double && !tick)
    && (double ==> opts.skipStrings && !tick)
    && (tick ==> opts.skipBackticks)
  }

  /** Strings, quoted names, comments, parentheses and brackets are skipped; braces are not. */
  method KeywordIndex(s: seq<byte>, keyword: seq<byte>) returns (r: Option<nat>)
    ensures LeastHit(s, keyword, 0, ScanOpts(true, true, false, true, true, true, Word), r)
  {
    r := KeywordIndexFrom(s, keyword, 0, DEFAULT_OPTS);
  }

  /** Braces are skipped too. */
  method TopLevelKeywordIndex(s: seq<byte>, keyword: seq<byte>) returns (r: Option<nat>)
    ensures LeastHit(s, keyword, 0, ScanOpts(true, true, true, true, true, true, Word), r)
  {
    r := KeywordIndexFrom(s, keyword, 0, DEFAULT_OPTS.(skipBraces := true));
  }

  lemma NothingToFind(s: seq<byte>, keyword: seq<byte>, from: nat, opts: ScanOpts)
    requires Trimmed(keyword) == [] || from >= |s|
    ensures LeastHit(s, keyword, from, opts, None)
  {
  }

  lemma Begin(s: seq<byte>, keyword: seq<byte>, from: nat, opts: ScanOpts)
    requires from <= |s|
    ensures Scanned(s, keyword, from, opts, from, Code, [])
    ensures Depth(s, [], 40, 41) == 0 && Depth(s, [], 91, 93) == 0 && Depth(s, [], 123, 125) == 0
  {
    assert [] + Codes(s, opts, from) == Codes(s, opts, from);
  }

  lemma LineStep(s: seq<byte>, keyword: seq<byte>, from: nat, opts: ScanOpts, i: nat, done: seq<nat>)
    requires Scanned(s, keyword, from, opts, i, Line, done) && i < |s|
    ensures Scanned(s, keyword, from, opts, i + 1, if s[i] == NEWLINE then Code else Line, done)
  {
    hide NoHits, Codes;
  }

  lemma BlockStep(s: seq<byte>, keyword: seq<byte>, from: nat, opts: ScanOpts, i: nat, done: seq<nat>)
    requires Scanned(s, keyword, from, opts, i, Block, done) && i < |s|
    ensures if s[i] == STAR && i + 1 < |s| && s[i + 1] == SLASH then Scanned(s, keyword, from, opts, i + 2, Code, done)
            else Scanned(s, keyword, from, opts, i + 1, Block, done)
  {
    hide NoHits, Codes;
  }

  lemma QuoteStep(s: seq<byte>, keyword: seq<byte>, from: nat, opts: ScanOpts, i: nat, mode: Mode, done: seq<nat>)
    requires Scanned(s, keyword, from, opts, i, mode, done) && i < |s| && (mode.Single? || mode.Double? || mode.Tick?)
    ensures var quote := if mode.Single? then SINGLE_QUOTE else if mode.Double? then DOUBLE_QUOTE else BACKTICK;
      if !mode.Tick? && s[i] == BACKSLASH && i + 1 < |s| then Scanned(s, keyword, from, opts, i + 2, mode, done)
      else if s[i] != quote then Scanned(s, keyword, from, opts, i + 1, mode, done)
      else if i + 1 < |s| && s[i + 1] == quote then Scanned(s, keyword, from, opts, i + 2, mode, done)
      else Scanned(s, keyword, from, opts, i + 1, Code, done)
  {
    hide NoHits, Codes;
  }

  lemma OpenStep(s: seq<byte>, keyword: seq<byte>, from: nat, opts: ScanOpts, i: nat, done: seq<nat>)
    requires Scanned(s, keyword, from, opts, i, Code, done) && i < |s|
    ensures var mode := Opens(s, opts, i);
      mode != Code ==> i + OpenLength(mode) <= |s| && Scanned(s, keyword, from, opts, i + OpenLength(mode), mode, done)
    ensures Opens(s, opts, i) ==
            (if opts.skipComments && s[i] == SLASH && i + 1 < |s| && s[i + 1] == SLASH then Line
             else if opts.skipComments && s[i] == SLASH && i + 1 < |s| && s[i + 1] == STAR then Block
             else if opts.skipStrings && s[i] == SINGLE_QUOTE then Single
             else if opts.skipStrings && s[i] == DOUBLE_QUOTE then Double
             else if opts.skipBackticks && s[i] == BACKTICK then Tick
             else Code)
  {
    hide NoHits, LineEnd, BlockEnd, QuoteEnd;
  }

  lemma NestedMiss(s: seq<byte>, keyword: seq<byte>, opts: ScanOpts, done: seq<nat>, i: nat)
    requires Within(done + [i], |s|)
    requires (opts.skipParens && Depth(s, done + [i], 40, 41) > 0) || (opts.skipBrackets && Depth(s, done + [i], 91, 93) > 0)
          || (opts.skipBraces && Depth(s, done + [i], 123, 125) > 0)
    ensures !HitAt(s, keyword, opts, done + [i], |done|)
  {
    hide Depth, Matches, Within;
    var ps := done + [i];
    assert ps[..|done| + 1] == ps;
    assert !Outside(s, opts, ps);
  }

  lemma FirstMiss(s: seq<byte>, keyword: seq<byte>, opts: ScanOpts, done: seq<nat>, i: nat, ks: nat, ke: nat)
    requires Within(done + [i], |s|) && i < |s| && ks < ke <= |keyword| && Trimmed(keyword) == keyword[ks..ke]
    requires !IsSpace(keyword[ks]) && Upper(s[i]) != Upper(keyword[ks])
    ensures !HitAt(s, keyword, opts, done + [i], |done|)
  {
    hide Outside, Trimmed, IsSpace, Fold;
    assert keyword[ks..ke][0] == keyword[ks];
    forall e | i <= e <= |s| ensures Fold(s[i..e]) != Fold(keyword[ks..ke]) {
      FoldIsEmpty(s[i..e]);
      FoldIsEmpty(keyword[ks..ke]);
      if i < e {
        assert s[i..e][0] == s[i];
        FoldFirst(s[i..e]);
        FoldFirst(keyword[ks..ke]);
        SameFold(s[i], keyword[ks]);
      }
    }
  }

  lemma FoldFirst(t: seq<byte>)
    requires t != []
    ensures Fold(t) != [] && Fold(t)[0] == FoldByte(t[0])
  {
  }

  lemma BoundaryMiss(s: seq<byte>, keyword: seq<byte>, opts: ScanOpts, done: seq<nat>, i: nat)
    requires Within(done + [i], |s|) && i < |s| && !LeftBoundary(s, i, opts.boundary)
    ensures !HitAt(s, keyword, opts, done + [i], |done|)
  {
    hide Outside, Trimmed, Fold, LeftBoundary, RightBoundary;
    assert (done + [i])[|done|] == i;
  }

  lemma HitHere(s: seq<byte>, keyword: seq<byte>, opts: ScanOpts, done: seq<nat>, i: nat, ks: nat, ke: nat, end: Option<nat>)
    requires Within(done + [i], |s|) && i < |s| && ks < ke <= |keyword| && Trimmed(keyword) == keyword[ks..ke]
    requires LeftBoundary(s, i, opts.boundary)
    requires opts.skipParens ==> Depth(s, done + [i], 40, 41) == 0
    requires opts.skipBrackets ==> Depth(s, done + [i], 91, 93) == 0
    requires opts.skipBraces ==> Depth(s, done + [i], 123, 125) == 0
    requires end == None ==> forall e | i <= e <= |s| :: Fold(s[i..e]) != Fold(keyword[ks..ke])
    requires end.Some? ==> i <= end.value <= |s|
    requires end.Some? ==> forall e | i <= e <= |s| :: Fold(s[i..e]) == Fold(keyword[ks..ke]) <==> e == end.value
    ensures HitAt(s, keyword, opts, done + [i], |done|) <==> end.Some? && RightBoundary(s, end.value, opts.boundary)
  {
    hide Trimmed, Fold, LeftBoundary, RightBoundary, Depth;
    assert (done + [i])[..|done| + 1] == done + [i] && (done + [i])[|done|] == i;
    if end.Some? && RightBoundary(s, end.value, opts.boundary) {
      assert MatchesTo(s, keyword, opts.boundary, i, end.value);
    }
  }
}
