/** Valid UTF-8 is what Unicode scalar values are written as. */
module Utf8Format {
  import opened Bytes
  import opened PackStream

  predicate Scalar(c: nat) {
    c < 0xD800 || 0xE000 <= c < 0x11_0000
  }

  /** The one to four bytes of a scalar value: six bits in each byte but the first. */
  function Spelled(c: nat): (s: seq<byte>)
    requires c < 0x11_0000
    ensures |s| >= 1
  {
    if c < 0x80 then [c]
    else if c < 0x800 then [0xC0 + c / 0x40, 0x80 + c % 0x40]
    else if c < 0x1_0000 then [0xE0 + c / 0x1000, 0x80 + c / 0x40 % 0x40, 0x80 + c % 0x40]
    else [0xF0 + c / 0x4_0000, 0x80 + c / 0x1000 % 0x40, 0x80 + c / 0x40 % 0x40, 0x80 + c % 0x40]
  }

  predicate AllScalars(cs: seq<nat>) {
    forall i | 0 <= i < |cs| :: Scalar(cs[i])
  }

  function SpelledAll(cs: seq<nat>): seq<byte>
    requires AllScalars(cs)
  {
    if cs == [] then [] else Spelled(cs[0]) + SpelledAll(cs[1..])
  }

  lemma StepTakesScalar(c: nat, rest: seq<byte>)
    requires Scalar(c)
    ensures Utf8Step(Spelled(c) + rest) == |Spelled(c)|
  {
    var s := Spelled(c) + rest;
    if c >= 0x1_0000 {
      LeadsFour(c);
    } else if c >= 0x800 {
      LeadsThree(c);
    }
  }

  lemma LeadsThree(c: nat)
    requires Scalar(c) && 0x800 <= c < 0x1_0000
    ensures var a, b := 0xE0 + c / 0x1000, 0x80 + c / 0x40 % 0x40;
      0xE0 <= a < 0xF0 && (a == 0xE0 ==> b >= 0xA0) && (a == 0xED ==> b < 0xA0)
  {
  }

  lemma LeadsFour(c: nat)
    requires Scalar(c) && 0x1_0000 <= c
    ensures var a, b := 0xF0 + c / 0x4_0000, 0x80 + c / 0x1000 % 0x40;
      0xF0 <= a < 0xF5 && (a == 0xF0 ==> b >= 0x90) && (a == 0xF4 ==> b < 0x90)
  {
  }

  lemma Digits(a: nat, b: nat, c: nat)
    requires b < 0x40 && c < 0x40
    ensures var x := 0x1000 * a + 0x40 * b + c; x / 0x1000 == a && x / 0x40 == 0x40 * a + b && x / 0x40 % 0x40 == b && x % 0x40 == c
  {
  }

  lemma TwoByteScalar(s: seq<byte>) returns (c: nat)
    requires |s| == 2 && 0xC2 <= s[0] < 0xE0 && Continuation(s[1])
    ensures Scalar(c) && Spelled(c) == s
  {
    c := 0x40 * (s[0] as int - 0xC0) + (s[1] as int - 0x80);
  }

  lemma ThreeByteScalar(s: seq<byte>) returns (c: nat)
    requires |s| == 3 && 0xE0 <= s[0] < 0xF0 && Continuation(s[1]) && Continuation(s[2])
    requires (s[0] == 0xE0 ==> s[1] >= 0xA0) && (s[0] == 0xED ==> s[1] < 0xA0)
    ensures Scalar(c) && Spelled(c) == s
  {
    var x, y, z := s[0] as int - 0xE0, s[1] as int - 0x80, s[2] as int - 0x80;
    c := 0x1000 * x + 0x40 * y + z;
    Digits(x, y, z);
  }

  lemma FourByteScalar(s: seq<byte>) returns (c: nat)
    requires |s| == 4 && 0xF0 <= s[0] < 0xF5 && Continuation(s[1]) && Continuation(s[2]) && Continuation(s[3])
    requires (s[0] == 0xF0 ==> s[1] >= 0x90) && (s[0] == 0xF4 ==> s[1] < 0x90)
    ensures Scalar(c) && Spelled(c) == s
  {
    var w, x, y, z := s[0] as int - 0xF0, s[1] as int - 0x80, s[2] as int - 0x80, s[3] as int - 0x80;
    c := 0x4_0000 * w + 0x1000 * x + 0x40 * y + z;
    FourDigits(w, x, y, z);
  }

  lemma FourDigits(w: nat, x: nat, y: nat, z: nat)
    requires x < 0x40 && y < 0x40 && z < 0x40
    ensures var c := 0x4_0000 * w + 0x1000 * x + 0x40 * y + z;
      c / 0x4_0000 == w && c / 0x1000 % 0x40 == x && c / 0x40 % 0x40 == y && c % 0x40 == z
  {
    Digits(0x40 * w + x, y, z);
  }

  lemma StepIsScalar(s: seq<byte>) returns (c: nat)
    requires Utf8Step(s) > 0
    ensures Scalar(c) && Spelled(c) == s[..Utf8Step(s)]
  {
    hide Spelled;
    var t := s[..Utf8Step(s)];
    if |t| == 1 {
      c := s[0];
      OneByteScalar(c);
      assert t == [s[0]];
    } else if |t| == 2 {
      c := TwoByteScalar(t);
    } else if |t| == 3 {
      c := ThreeByteScalar(t);
    } else {
      c := FourByteScalar(t);
    }
  }

  lemma OneByteScalar(c: nat)
    requires c < 0x80
    ensures Spelled(c) == [c]
  {
  }

  lemma {:induction false} SpelledIsValid(cs: seq<nat>)
    requires AllScalars(cs)
    ensures ValidUtf8(SpelledAll(cs))
  {
    hide Spelled, Utf8Step;
    if cs != [] {
      var s := SpelledAll(cs);
      StepTakesScalar(cs[0], SpelledAll(cs[1..]));
      assert s[Utf8Step(s)..] == SpelledAll(cs[1..]);
      SpelledIsValid(cs[1..]);
    }
  }

  lemma {:induction false} ValidIsSpelled(s: seq<byte>) returns (cs: seq<nat>)
    requires ValidUtf8(s)
    ensures AllScalars(cs) && SpelledAll(cs) == s
    decreases |s|
  {
    hide Spelled, Utf8Step;
    if s == [] {
      cs := [];
    } else {
      var n := Utf8Step(s);
      var c := StepIsScalar(s);
      var more := ValidIsSpelled(s[n..]);
      cs := [c] + more;
      assert cs[1..] == more;
    }
  }

  /** A text is valid exactly if it spells a sequence of scalar values. */
  lemma ValidIffSpelled(s: seq<byte>)
    ensures ValidUtf8(s) <==> exists cs :: AllScalars(cs) && SpelledAll(cs) == s
  {
    hide ValidUtf8, SpelledAll;
    if ValidUtf8(s) {
      var cs := ValidIsSpelled(s);
    }
    if exists cs :: AllScalars(cs) && SpelledAll(cs) == s {
      var cs :| AllScalars(cs) && SpelledAll(cs) == s;
      SpelledIsValid(cs);
    }
  }
}
