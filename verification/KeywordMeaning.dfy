/** What the keyword search finds, by the characters of the text. */
module KeywordMeaning {
  import opened Bytes
  import opened KeywordScan
  import opened Wrappers

  // ---------- Characters ----------

  predicate Blank(b: byte) {
    b == ' ' as int || b == '\t' as int || b == '\n' as int || b == '\r' as int
  }

  /** A byte of a name; bytes of characters beyond ASCII are part of names. */
  predicate WordByte(b: byte) {
    '0' as int <= b <= '9' as int || 'A' as int <= b <= 'Z' as int || 'a' as int <= b <= 'z' as int || b == '_' as int || b >= 0x80
  }

  predicate SameLetter(a: byte, b: byte) {
    || a == b
    || ('a' as int <= a <= 'z' as int && a == b + 32)
    || ('a' as int <= b <= 'z' as int && b == a + 32)
  }

  function Unblank(t: seq<byte>): (r: seq<byte>)
    ensures |r| <= |t| && (t != [] && Blank(t[0]) ==> |r| < |t|)
  {
    if t != [] && Blank(t[0]) then Unblank(t[1..]) else t
  }

  /** The same text, up to letter case and the length of runs of white space. */
  predicate Alike(t: seq<byte>, u: seq<byte>)
    decreases |t|
  {
    if t == [] || u == [] then t == u
    else if Blank(t[0]) then Blank(u[0]) && Alike(Unblank(t), Unblank(u))
    else !Blank(u[0]) && SameLetter(t[0], u[0]) && Alike(t[1..], u[1..])
  }

  /** The keyword is `core` with blanks around it. */
  ghost predicate Bare(keyword: seq<byte>, core: seq<byte>) {
    core != [] && !Blank(core[0]) && !Blank(core[|core| - 1])
    && exists front, back :: keyword == front + (core + back) && AllBlank(front) && AllBlank(back)
  }

  predicate AllBlank(t: seq<byte>) {
    forall i | 0 <= i < |t| :: Blank(t[i])
  }

  /** A byte that may stand beside a keyword. */
  predicate Apart(b: byte, mode: BoundaryMode) {
    if mode == Whitespace then Blank(b) else !WordByte(b) && b != ':' as int
  }

  // ---------- Regions ----------

  /** From `//` to the end of the line. */
  ghost predicate LineComment(s: seq<byte>, i: nat, e: nat) {
    && i + 2 <= e <= |s| && s[i] == '/' as int && s[i + 1] == '/' as int
    && (forall k | i + 2 <= k < e - 1 :: s[k] != '\n' as int)
    && (e < |s| ==> e > i + 2 && s[e - 1] == '\n' as int)
  }

  predicate ClosesBlock(s: seq<byte>, k: nat) {
    k + 2 <= |s| && s[k] == '*' as int && s[k + 1] == '/' as int
  }

  /** From the two bytes that open a block comment to the first two that close one, or to the end. */
  ghost predicate BlockComment(s: seq<byte>, i: nat, e: nat) {
    && i + 2 <= e <= |s| && s[i] == '/' as int && s[i + 1] == '*' as int
    && (forall k | i + 2 <= k < e - 2 :: !ClosesBlock(s, k))
    && (e < |s| ==> e >= i + 4 && ClosesBlock(s, e - 2))
  }

  /** From `j` inside a quoted text it ends before `e`: a doubled quote is part of it, and where a backslash escapes,
      so is any byte behind one. */
  ghost predicate Quoted(s: seq<byte>, j: nat, e: nat, quote: char, escapes: bool)
    decreases |s| - j
  {
    if j >= |s| then e == |s| && j == |s|
    else if escapes && s[j] == '\\' as int && j + 1 < |s| then Quoted(s, j + 2, e, quote, escapes)
    else if s[j] != quote as int then Quoted(s, j + 1, e, quote, escapes)
    else if j + 1 < |s| && s[j + 1] == quote as int then Quoted(s, j + 2, e, quote, escapes)
    else e == j + 1
  }

  /** A comment, string or quoted name that is to be skipped reaches from `i` to `e`. */
  ghost predicate Region(s: seq<byte>, opts: ScanOpts, i: nat, e: nat)
    requires i < |s|
  {
    || (opts.skipComments && (LineComment(s, i, e) || BlockComment(s, i, e)))
    || (opts.skipStrings && s[i] == '\'' as int && Quoted(s, i + 1, e, '\'', true))
    || (opts.skipStrings && s[i] == '"' as int && Quoted(s, i + 1, e, '"', true))
    || (opts.skipBackticks && s[i] == '`' as int && Quoted(s, i + 1, e, '`', false))
  }

  /** From `i` on the positions of `s` outside regions are `ps`. */
  ghost predicate Plain(s: seq<byte>, opts: ScanOpts, i: nat, ps: seq<nat>)
    decreases |s| - i
  {
    if i >= |s| then ps == []
    else if exists e :: Region(s, opts, i, e) then exists e :: i < e && Region(s, opts, i, e) && Plain(s, opts, e, ps)
    else ps != [] && ps[0] == i && Plain(s, opts, i + 1, ps[1..])
  }

  /** How many brackets are open behind these bytes; a closing one with none open is ignored. */
  function Unclosed(bs: seq<byte>, open: char, close: char): nat {
    if bs == [] then 0
    else
      var before, b := Unclosed(bs[..|bs| - 1], open, close), bs[|bs| - 1];
      if b == open as int then before + 1 else if b == close as int && before > 0 then before - 1 else before
  }

  function BytesAt(s: seq<byte>, ps: seq<nat>): seq<byte>
    requires Within(ps, |s|)
  {
    seq(|ps|, i requires 0 <= i < |ps| => s[ps[i]])
  }

  predicate NothingOpen(bs: seq<byte>, opts: ScanOpts) {
    && (opts.skipParens ==> Unclosed(bs, '(', ')') == 0)
    && (opts.skipBrackets ==> Unclosed(bs, '[', ']') == 0)
    && (opts.skipBraces ==> Unclosed(bs, '{', '}') == 0)
  }

  // ---------- Finding ----------

  /** The keyword's core stands at `p`, with nothing beside it that would make it part of a longer word. */
  ghost predicate Reads(s: seq<byte>, p: nat, core: seq<byte>, mode: BoundaryMode) {
    exists e :: p <= e <= |s| && Alike(s[p..e], core) && (p == 0 || Apart(s[p - 1], mode)) && (e == |s| || Apart(s[e], mode))
  }

  /** The `n`th plain position is `p`, and nothing that is to be skipped is open there. */
  ghost predicate Reachable(s: seq<byte>, opts: ScanOpts, ps: seq<nat>, n: nat, p: nat) {
    n < |ps| && ps[n] == p && Within(ps, |s|) && NothingOpen(BytesAt(s, ps[..n + 1]), opts)
  }

  /** The keyword stands at `p`, outside everything that is to be skipped. */
  ghost predicate Stands(s: seq<byte>, keyword: seq<byte>, from: nat, opts: ScanOpts, p: nat) {
    && from <= |s|
    && (exists core :: Bare(keyword, core) && Reads(s, p, core, opts.boundary))
    && exists ps, n: nat :: Plain(s, opts, from, ps) && Reachable(s, opts, ps, n, p)
  }

  // ---------- Characters agree ----------

  lemma Letters(a: byte, b: byte)
    ensures IsSpace(a) <==> Blank(a)
    ensures IsIdent(a) <==> WordByte(a)
    ensures SameLetter(a, b) <==> Upper(a) == Upper(b)
  {
  }

  lemma {:induction false} UnblankIs(t: seq<byte>)
    ensures DropSpaces(t) == Unblank(t)
    decreases |t|
  {
    if t != [] {
      Letters(t[0], 0);
      if Blank(t[0]) {
        UnblankIs(t[1..]);
        DropOne(t);
      }
    }
  }

  lemma DropOne(t: seq<byte>)
    requires t != [] && IsSpace(t[0])
    ensures DropSpaces(t) == DropSpaces(t[1..])
  {
    hide IsSpace;
    var n := SpaceEnd(t[1..], 0);
    assert forall j | 1 <= j < n + 1 :: t[j] == t[1..][j - 1];
    assert n + 1 == SpaceEnd(t, 0);
  }

  lemma {:induction false} FoldIsAlike(t: seq<byte>, u: seq<byte>)
    ensures Fold(t) == Fold(u) <==> Alike(t, u)
    decreases |t|
  {
    hide IsSpace, Blank, SameLetter, DropSpaces, Unblank, Upper;
    FoldIsEmpty(t);
    FoldIsEmpty(u);
    if t != [] && u != [] {
      Letters(t[0], u[0]);
      Letters(u[0], t[0]);
      UnblankIs(t);
      UnblankIs(u);
      NoUpperBlank(t[0]);
      NoUpperBlank(u[0]);
      if IsSpace(t[0]) && IsSpace(u[0]) {
        DropOne(t);
        DropOne(u);
        FoldIsAlike(Unblank(t), Unblank(u));
        ConsEqual(32, Fold(Unblank(t)), 32, Fold(Unblank(u)));
      } else if !IsSpace(t[0]) && !IsSpace(u[0]) {
        FoldIsAlike(t[1..], u[1..]);
        ConsEqual(Upper(t[0]), Fold(t[1..]), Upper(u[0]), Fold(u[1..]));
      } else {
        assert Fold(t)[0] != Fold(u)[0];
      }
    }
  }

  lemma NoUpperBlank(b: byte)
    ensures !IsSpace(b) ==> Upper(b) != 32
  {
  }

  lemma TrimmedIsBare(keyword: seq<byte>)
    requires Trimmed(keyword) != []
    ensures Bare(keyword, Trimmed(keyword))
  {
    var rest := DropSpaces(keyword);
    var core := Trimmed(keyword);
    var front, back := keyword[..|keyword| - |rest|], rest[|core|..];
    Letters(core[0], 0);
    Letters(core[|core| - 1], 0);
    forall i | 0 <= i < |front| ensures Blank(front[i]) {
      Letters(front[i], 0);
    }
    forall i | 0 <= i < |back| ensures Blank(back[i]) {
      Letters(back[i], 0);
      assert back[i] == rest[|core| + i];
    }
    assert AllBlank(front) && AllBlank(back);
    assert rest == core + back;
    assert keyword == front + (core + back);
  }

  lemma {:induction false} DropAllFront(front: seq<byte>, rest: seq<byte>)
    requires AllBlank(front) && (rest != [] ==> !Blank(rest[0]))
    ensures DropSpaces(front + rest) == rest
    decreases |front|
  {
    UnblankIs(front + rest);
    if front == [] {
      assert front + rest == rest;
    } else {
      assert (front + rest)[1..] == front[1..] + rest;
      DropAllFront(front[1..], rest);
      UnblankIs(front[1..] + rest);
    }
  }

  lemma {:induction false} DropAllBack(core: seq<byte>, back: seq<byte>)
    requires AllBlank(back) && core != [] && !Blank(core[|core| - 1])
    ensures DropSpacesEnd(core + back) == core
    decreases |back|
  {
    var t := core + back;
    Letters(t[|t| - 1], 0);
    if back == [] {
      assert t == core;
    } else {
      assert t[..|t| - 1] == core + back[..|back| - 1];
      DropAllBack(core, back[..|back| - 1]);
    }
  }

  lemma BareIsTrimmed(keyword: seq<byte>, core: seq<byte>)
    requires Bare(keyword, core)
    ensures Trimmed(keyword) == core
  {
    var front, back :| keyword == front + (core + back) && AllBlank(front) && AllBlank(back);
    DropAllFront(front, core + back);
    DropAllBack(core, back);
  }

  lemma ReadsIsMatches(s: seq<byte>, keyword: seq<byte>, mode: BoundaryMode, p: nat)
    requires p < |s|
    ensures Matches(s, keyword, mode, p) <==> Reads(s, p, Trimmed(keyword), mode)
  {
    hide Trimmed, Fold, Alike, LeftBoundary, RightBoundary, Apart;
    forall e | p <= e <= |s|
      ensures MatchesTo(s, keyword, mode, p, e) <==>
        Alike(s[p..e], Trimmed(keyword)) && (p == 0 || Apart(s[p - 1], mode)) && (e == |s| || Apart(s[e], mode))
    {
      FoldIsAlike(s[p..e], Trimmed(keyword));
      Beside(s, p, e, mode);
    }
  }

  lemma Beside(s: seq<byte>, p: nat, e: nat, mode: BoundaryMode)
    requires p <= |s| && e <= |s|
    ensures LeftBoundary(s, p, mode) <==> p == 0 || Apart(s[p - 1], mode)
    ensures RightBoundary(s, e, mode) <==> e == |s| || Apart(s[e], mode)
  {
    hide IsSpace, IsIdent, Blank, WordByte;
    if p > 0 {
      Letters(s[p - 1], 0);
    }
    if e < |s| {
      Letters(s[e], 0);
    }
  }

  // ---------- Regions agree ----------

  lemma {:induction false} LineRuns(s: seq<byte>, i: nat, e: nat)
    requires i <= |s|
    ensures LineEnd(s, i) == e <==>
      i <= e <= |s| && (forall k | i <= k < e - 1 :: s[k] != '\n' as int) && (e < |s| ==> e > i && s[e - 1] == '\n' as int)
    decreases |s| - i
  {
    if i < |s| {
      LineRuns(s, i + 1, e);
    }
  }

  lemma LineIs(s: seq<byte>, i: nat, e: nat)
    requires i + 2 <= |s| && s[i] == '/' as int && s[i + 1] == '/' as int
    ensures LineComment(s, i, e) <==> LineEnd(s, i + 2) == e
  {
    hide LineEnd;
    LineRuns(s, i + 2, e);
  }

  lemma {:induction false} BlockRuns(s: seq<byte>, i: nat, e: nat)
    requires i <= |s|
    ensures BlockEnd(s, i) == e <==>
      && i <= e <= |s| && (forall k | i <= k < e - 2 :: !ClosesBlock(s, k))
      && (e < |s| ==> e >= i + 2 && ClosesBlock(s, e - 2))
    decreases |s| - i
  {
    if ClosesBlock(s, i) {
    } else if i < |s| {
      BlockRuns(s, i + 1, e);
    }
  }

  lemma BlockIs(s: seq<byte>, i: nat, e: nat)
    requires i + 2 <= |s| && s[i] == '/' as int && s[i + 1] == '*' as int
    ensures BlockComment(s, i, e) <==> BlockEnd(s, i + 2) == e
  {
    hide BlockEnd, ClosesBlock;
    BlockRuns(s, i + 2, e);
  }

  lemma {:induction false} QuotedIs(s: seq<byte>, j: nat, e: nat, quote: char, escapes: bool)
    requires j <= |s| && 0 <= quote as int < 0x100
    ensures Quoted(s, j, e, quote, escapes) <==> QuoteEnd(s, j, quote as int, escapes) == e
    decreases |s| - j
  {
    if j < |s| {
      if escapes && s[j] == BACKSLASH && j + 1 < |s| {
        QuotedIs(s, j + 2, e, quote, escapes);
      } else if s[j] != quote as int {
        QuotedIs(s, j + 1, e, quote, escapes);
      } else if j + 1 < |s| && s[j + 1] == quote as int {
        QuotedIs(s, j + 2, e, quote, escapes);
      }
    }
  }

  lemma RegionIs(s: seq<byte>, opts: ScanOpts, i: nat, e: nat)
    requires i < |s|
    ensures var mode := Opens(s, opts, i);
      Region(s, opts, i, e) <==> mode != Code && e == Resume(s, mode, i + OpenLength(mode))
  {
    hide LineEnd, BlockEnd, QuoteEnd, Quoted, LineComment, BlockComment;
    CommentsStart(s, i, e);
    if i + 1 < |s| && s[i] == SLASH && s[i + 1] == SLASH {
      LineIs(s, i, e);
    }
    if i + 1 < |s| && s[i] == SLASH && s[i + 1] == STAR {
      BlockIs(s, i, e);
    }
    QuotedIs(s, i + 1, e, '\'', true);
    QuotedIs(s, i + 1, e, '"', true);
    QuotedIs(s, i + 1, e, '`', false);
  }

  lemma CommentsStart(s: seq<byte>, i: nat, e: nat)
    requires i < |s|
    ensures LineComment(s, i, e) ==> i + 1 < |s| && s[i] == SLASH && s[i + 1] == SLASH
    ensures BlockComment(s, i, e) ==> i + 1 < |s| && s[i] == SLASH && s[i + 1] == STAR
  {
  }

  lemma OpenFits(s: seq<byte>, opts: ScanOpts, i: nat)
    requires i < |s|
    ensures i + OpenLength(Opens(s, opts, i)) <= |s|
  {
  }

  lemma {:induction false} PlainIs(s: seq<byte>, opts: ScanOpts, i: nat, ps: seq<nat>)
    requires i <= |s|
    ensures Plain(s, opts, i, ps) <==> ps == Codes(s, opts, i)
    decreases |s| - i
  {
    hide Opens, Resume, Region;
    if i < |s| {
      var mode := Opens(s, opts, i);
      OpenFits(s, opts, i);
      forall e: nat ensures Region(s, opts, i, e) <==> mode != Code && e == Resume(s, mode, i + OpenLength(mode)) {
        RegionIs(s, opts, i, e);
      }
      if mode == Code {
        if ps != [] {
          PlainIs(s, opts, i + 1, ps[1..]);
          assert ps == [ps[0]] + ps[1..];
        }
      } else {
        var e := Resume(s, mode, i + OpenLength(mode));
        assert Region(s, opts, i, e);
        PlainIs(s, opts, e, ps);
      }
    }
  }

  lemma {:induction false} UnclosedIs(s: seq<byte>, ps: seq<nat>, open: char, close: char)
    requires Within(ps, |s|) && open as int < 0x100 && close as int < 0x100
    ensures Unclosed(BytesAt(s, ps), open, close) == Depth(s, ps, open as int, close as int)
    decreases |ps|
  {
    if ps != [] {
      var shorter := ps[..|ps| - 1];
      assert BytesAt(s, ps)[..|ps| - 1] == BytesAt(s, shorter);
      UnclosedIs(s, shorter, open, close);
    }
  }

  lemma NothingOpenIs(s: seq<byte>, opts: ScanOpts, ps: seq<nat>)
    requires Within(ps, |s|)
    ensures NothingOpen(BytesAt(s, ps), opts) <==> Outside(s, opts, ps)
  {
    hide Unclosed, Depth;
    UnclosedIs(s, ps, '(', ')');
    UnclosedIs(s, ps, '[', ']');
    UnclosedIs(s, ps, '{', '}');
  }

  lemma ReachableIs(s: seq<byte>, opts: ScanOpts, ps: seq<nat>, n: nat, p: nat)
    requires Within(ps, |s|)
    ensures Reachable(s, opts, ps, n, p) <==> n < |ps| && ps[n] == p && Outside(s, opts, ps[..n + 1])
  {
    hide NothingOpen, Outside, BytesAt;
    if n < |ps| {
      NothingOpenIs(s, opts, ps[..n + 1]);
    }
  }

  lemma BareIsSome(keyword: seq<byte>, core: seq<byte>)
    requires Bare(keyword, core)
    ensures core != []
  {
  }

  /** Where the keyword stands, by its trimmed form. */
  lemma CoreStands(s: seq<byte>, keyword: seq<byte>, mode: BoundaryMode, p: nat)
    requires p < |s|
    ensures (exists core :: Bare(keyword, core) && Reads(s, p, core, mode))
       <==> Trimmed(keyword) != [] && Matches(s, keyword, mode, p)
  {
    hide Trimmed, Matches, Reads, Bare;
    forall core | Bare(keyword, core) ensures Trimmed(keyword) == core && core != [] {
      BareIsTrimmed(keyword, core);
      BareIsSome(keyword, core);
    }
    if Trimmed(keyword) != [] {
      TrimmedIsBare(keyword);
    }
    ReadsIsMatches(s, keyword, mode, p);
  }

  lemma HitStands(s: seq<byte>, keyword: seq<byte>, from: nat, opts: ScanOpts, p: nat)
    requires Hit(s, keyword, from, opts, p)
    ensures Stands(s, keyword, from, opts, p)
  {
    hide Trimmed, Matches, Reads, Outside, Plain, Bare, Reachable, Codes;
    var ps := Codes(s, opts, from);
    var n: nat :| n < |ps| && HitAt(s, keyword, opts, ps, n) && ps[n] == p;
    PlainIs(s, opts, from, ps);
    ReachableIs(s, opts, ps, n, p);
    CoreStands(s, keyword, opts.boundary, p);
  }

  lemma StandsIsHit(s: seq<byte>, keyword: seq<byte>, from: nat, opts: ScanOpts, p: nat)
    requires Stands(s, keyword, from, opts, p)
    ensures Hit(s, keyword, from, opts, p)
  {
    hide Trimmed, Matches, Reads, Outside, Plain, Bare, Reachable, Codes;
    var ps, n: nat :| Plain(s, opts, from, ps) && Reachable(s, opts, ps, n, p);
    PlainIs(s, opts, from, ps);
    ReachableIs(s, opts, ps, n, p);
    CoreStands(s, keyword, opts.boundary, p);
    assert HitAt(s, keyword, opts, Codes(s, opts, from), n);
  }

  /** The specification's hits are where the keyword stands. */
  lemma HitsStand(s: seq<byte>, keyword: seq<byte>, from: nat, opts: ScanOpts, p: nat)
    ensures Hit(s, keyword, from, opts, p) <==> Stands(s, keyword, from, opts, p)
  {
    hide Hit, Stands;
    if Hit(s, keyword, from, opts, p) {
      HitStands(s, keyword, from, opts, p);
    } else if Stands(s, keyword, from, opts, p) {
      StandsIsHit(s, keyword, from, opts, p);
    }
  }

  /** The search answers with the first position at which the keyword stands, and with none if it stands nowhere. */
  lemma LeastHitStandsFirst(s: seq<byte>, keyword: seq<byte>, from: nat, opts: ScanOpts, r: Option<nat>)
    ensures LeastHit(s, keyword, from, opts, r) <==>
      match r
      case None => forall p :: !Stands(s, keyword, from, opts, p)
      case Some(p) => Stands(s, keyword, from, opts, p) && forall q | Stands(s, keyword, from, opts, q) :: p <= q
  {
    hide Hit, Stands;
    forall p ensures Hit(s, keyword, from, opts, p) <==> Stands(s, keyword, from, opts, p) {
      HitsStand(s, keyword, from, opts, p);
    }
  }
}
