/** Splitting, joining and numbers in text, as the CSV code uses them. */
module Text {
  import opened Wrappers

  // ---------- Searching ----------

  function Find(s: string, c: char): (r: Option<nat>)
    ensures r == None ==> c !in s
    ensures r.Some? ==> r.value < |s| && s[r.value] == c && c !in s[..r.value]
  {
    if s == [] then None
    else if s[0] == c then Some(0)
    else
      match Find(s[1..], c)
      case None => None
      case Some(i) => assert s[..1 + i] == [s[0]] + s[1..][..i]; Some(1 + i)
  }

  function RFind(s: string, c: char): (r: Option<nat>)
    ensures r == None ==> c !in s
    ensures r.Some? ==> r.value < |s| && s[r.value] == c && c !in s[r.value + 1..]
  {
    if s == [] then None
    else if s[|s| - 1] == c then Some(|s| - 1)
    else
      match RFind(s[..|s| - 1], c)
      case None => None
      case Some(i) => assert s[i + 1..] == s[..|s| - 1][i + 1..] + [s[|s| - 1]]; Some(i)
  }

  lemma FindHere(a: string, c: char, b: string)
    requires c !in a
    ensures Find(a + [c] + b, c) == Some(|a|)
  {
    var s := a + [c] + b;
    assert forall j | 0 <= j < |a| :: s[j] == a[j];
    assert forall j | |a| < j <= |s| :: s[..j][|a|] == c;
    assert s[|a|] == c;
  }

  lemma RFindLast(a: string, c: char)
    ensures RFind(a + [c], c) == Some(|a|)
  {
  }

  // ---------- Splitting and joining ----------

  /** No part holds the delimiter. */
  predicate Free(parts: seq<string>, c: char) {
    forall p | p in parts :: c !in p
  }

  function Split(s: string, c: char): (parts: seq<string>)
    ensures parts != [] && Free(parts, c)
    decreases |s|
  {
    match Find(s, c)
    case None => [s]
    case Some(i) => [s[..i]] + Split(s[i + 1..], c)
  }

  function Join(parts: seq<string>, c: char): string
    decreases |parts|
  {
    if parts == [] then [] else if |parts| == 1 then parts[0] else parts[0] + [c] + Join(parts[1..], c)
  }

  /** Splitting undoes joining exactly when there is something to join and no part holds the delimiter. */
  lemma SplitJoin(parts: seq<string>, c: char)
    ensures Split(Join(parts, c), c) == parts <==> parts != [] && Free(parts, c)
  {
    hide Split, Join, Free;
    if parts != [] && Free(parts, c) {
      SplitOfJoin(parts, c);
    }
  }

  lemma NotFound(s: string, c: char)
    requires c !in s
    ensures Find(s, c) == None
  {
    hide Find;
  }

  lemma {:induction false} SplitOfJoin(parts: seq<string>, c: char)
    requires parts != [] && Free(parts, c)
    ensures Split(Join(parts, c), c) == parts
    decreases |parts|
  {
    hide Find;
    assert parts[0] in parts;
    if |parts| == 1 {
      NotFound(parts[0], c);
    } else {
      var rest := Join(parts[1..], c);
      var s := parts[0] + [c] + rest;
      FindHere(parts[0], c, rest);
      assert s[..|parts[0]|] == parts[0] && s[|parts[0]| + 1..] == rest;
      SplitOfJoin(parts[1..], c);
    }
  }

  function Count(s: string, c: char): nat {
    if s == [] then 0 else (if s[0] == c then 1 else 0) + Count(s[1..], c)
  }

  lemma {:induction false} CountAppend(a: string, b: string, c: char)
    ensures Count(a + b, c) == Count(a, c) + Count(b, c)
    decreases |a|
  {
    if a == [] {
      assert a + b == b;
    } else {
      assert (a + b)[1..] == a[1..] + b;
      CountAppend(a[1..], b, c);
    }
  }

  lemma {:induction false} CountNone(s: string, c: char)
    ensures Count(s, c) == 0 <==> c !in s
  {
    if s != [] {
      CountNone(s[1..], c);
      assert c in s <==> s[0] == c || c in s[1..];
    }
  }

  lemma {:induction false} SplitLength(s: string, c: char)
    ensures |Split(s, c)| == Count(s, c) + 1
    decreases |s|
  {
    var i := Find(s, c);
    if i == None {
      CountNone(s, c);
    } else {
      SplitLength(s[i.value + 1..], c);
      assert s == s[..i.value] + ([c] + s[i.value + 1..]);
      CountAppend(s[..i.value], [c] + s[i.value + 1..], c);
      CountNone(s[..i.value], c);
    }
  }

  /** A delimiter inside a part makes more parts. */
  lemma {:induction false} MoreParts(parts: seq<string>, c: char)
    requires parts != []
    ensures Count(Join(parts, c), c) + 1 >= |parts|
    ensures Count(Join(parts, c), c) + 1 == |parts| ==> forall p | p in parts :: c !in p
    decreases |parts|
  {
    CountNone(parts[0], c);
    if |parts| > 1 {
      var rest := Join(parts[1..], c);
      MoreParts(parts[1..], c);
      assert parts[0] + [c] + rest == parts[0] + ([c] + rest);
      CountAppend(parts[0], [c] + rest, c);
      assert ([c] + rest)[1..] == rest;
      assert forall p | p in parts :: p == parts[0] || p in parts[1..];
    }
  }

  // ---------- Letter case and white space ----------

  function LowerChar(c: char): char {
    if 'A' <= c <= 'Z' then c - 'A' + 'a' else c
  }

  function UpperChar(c: char): char {
    if 'a' <= c <= 'z' then c - 'a' + 'A' else c
  }

  function Lower(s: string): (r: string)
    ensures |r| == |s| && forall i | 0 <= i < |s| :: r[i] == LowerChar(s[i])
  {
    seq(|s|, i requires 0 <= i < |s| => LowerChar(s[i]))
  }

  function Upper(s: string): (r: string)
    ensures |r| == |s| && forall i | 0 <= i < |s| :: r[i] == UpperChar(s[i])
  {
    seq(|s|, i requires 0 <= i < |s| => UpperChar(s[i]))
  }

  predicate IsWhite(c: char) {
    c in " \t\n\r"
  }

  function Trim(s: string): string
    decreases |s|
  {
    if s == [] then s
    else if IsWhite(s[0]) then Trim(s[1..])
    else if IsWhite(s[|s| - 1]) then Trim(s[..|s| - 1])
    else s
  }

  lemma {:induction false} TrimKeeps(s: string)
    requires forall c | c in s :: !IsWhite(c)
    ensures Trim(s) == s
  {
  }

  // ---------- Numbers ----------

  predicate IsDigit(c: char) {
    '0' <= c <= '9'
  }

  predicate AllDigits(s: string) {
    forall i | 0 <= i < |s| :: IsDigit(s[i])
  }

  function Digit(d: nat): char
    requires d < 10
  {
    '0' + d as char
  }

  function DigitValue(c: char): nat
    requires IsDigit(c)
  {
    (c - '0') as nat
  }

  function Decimal(n: nat): (s: string)
    ensures |s| >= 1 && AllDigits(s)
  {
    if n < 10 then [Digit(n)] else Decimal(n / 10) + [Digit(n % 10)]
  }

  function DecimalValue(s: string): nat
    requires AllDigits(s)
  {
    if s == "" then 0 else 10 * DecimalValue(s[..|s| - 1]) + DigitValue(s[|s| - 1])
  }

  lemma {:induction false} DecimalInverse(n: nat)
    ensures DecimalValue(Decimal(n)) == n
  {
    if n >= 10 {
      DecimalInverse(n / 10);
      assert Decimal(n)[..|Decimal(n)| - 1] == Decimal(n / 10);
    } else {
      assert Decimal(n)[..0] == "";
    }
  }

  /** A signed decimal number within the bounds; a sign needs digits behind it. */
  function ParseInt(s: string, low: int, high: int): Option<int> {
    if s == [] then None
    else
      var negative := s[0] == '-';
      var digits := if negative || s[0] == '+' then s[1..] else s;
      if digits == [] || !AllDigits(digits) then None
      else
        var n: int := if negative then 0 - DecimalValue(digits) else DecimalValue(digits);
        if low <= n <= high then Some(n) else None
  }

  /** An unsigned number; only a plus sign is understood. */
  function ParseNat(s: string, high: int): Option<nat> {
    if s == [] then None
    else
      var digits := if s[0] == '+' then s[1..] else s;
      if digits != [] && AllDigits(digits) && DecimalValue(digits) <= high then Some(DecimalValue(digits)) else None
  }

  lemma ParseNatDecimal(n: nat, high: int)
    requires n <= high
    ensures ParseNat(Decimal(n), high) == Some(n)
  {
    DecimalInverse(n);
    assert IsDigit(Decimal(n)[0]);
  }

  function IntText(i: int): string {
    if i < 0 then ['-'] + Decimal(-i) else Decimal(i)
  }

  lemma ParseIntText(i: int, low: int, high: int)
    requires low <= i <= high
    ensures ParseInt(IntText(i), low, high) == Some(i)
  {
    hide Decimal, DecimalValue;
    DecimalInverse(if i < 0 then -i else i);
    if i < 0 {
      assert IntText(i)[1..] == Decimal(-i);
    } else {
      assert IsDigit(Decimal(i)[0]);
    }
  }
}
