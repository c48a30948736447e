/** Printed durations by their characters: which text stands for how many nanoseconds. */
module DurationForm {
  import opened Duration
  import opened Numerals
  import opened Text

  /** `n` units of which 10^`places` make one, as short as it can be written. */
  predicate Fixed(whole: string, fraction: string, n: nat, places: nat) {
    && whole != "" && (|whole| > 1 ==> whole[0] != '0')
    && |fraction| <= places && (fraction != "" ==> fraction[|fraction| - 1] != '0')
    && Means(whole + fraction + seq(places - |fraction|, _ => '0'), n)
  }

  function Pointed(whole: string, fraction: string): string {
    if fraction == "" then whole else whole + "." + fraction
  }

  ghost predicate Amounts(text: string, n: nat, places: nat, unit: string) {
    exists whole, fraction :: Fixed(whole, fraction, n, places) && text == Pointed(whole, fraction) + unit
  }

  /** The first part that is not zero is the first that is written; seconds always are. */
  predicate InFront(hours: string, minutes: string, h: nat, m: nat) {
    && (if h == 0 then hours == "" else |hours| > 0 && hours[|hours| - 1] == 'h' && Numeral(hours[..|hours| - 1], h))
    && (if h == 0 && m == 0 then minutes == ""
        else |minutes| > 0 && minutes[|minutes| - 1] == 'm' && Numeral(minutes[..|minutes| - 1], m))
  }

  ghost predicate Clock(text: string, n: nat) {
    exists h: nat, m: nat, hours, minutes, seconds ::
      && InFront(hours, minutes, h, m) && m < 60 && text == hours + minutes + seconds
      && 0 <= n - 3_600_000_000_000 * h - 60_000_000_000 * m < 60_000_000_000
      && Amounts(seconds, n - 3_600_000_000_000 * h - 60_000_000_000 * m, 9, "s")
  }

  /** Nothing under a nanosecond is written, and nothing with two units below a second. */
  ghost predicate Stands(text: string, n: int) {
    if n < 0 then |text| > 3 && text[0] == '-' && text[|text| - 2..] == "ns" && Numeral(text[1..|text| - 2], -n)
    else if n == 0 then text == "0s"
    else if n < 1_000 then Amounts(text, n, 0, "ns")
    else if n < 1_000_000 then Amounts(text, n, 3, "us")
    else if n < 1_000_000_000 then Amounts(text, n, 6, "ms")
    else Clock(text, n)
  }

  // ---------- Figures ----------

  lemma {:induction false} ValueAppend(a: string, b: string)
    requires AllDigits(a) && AllDigits(b)
    ensures AllDigits(a + b) && DecimalValue(a + b) == DecimalValue(a) * Pow10(|b|) + DecimalValue(b)
    decreases |b|
  {
    hide Pow10, IsDigit, DigitValue;
    var s := a + b;
    if b == "" {
      assert s == a;
      PowZero();
    } else {
      var c := b[..|b| - 1];
      assert s[..|s| - 1] == a + c;
      ValueAppend(a, c);
      PowStep(|c|);
      assert DecimalValue(a) * (10 * Pow10(|c|)) == 10 * (DecimalValue(a) * Pow10(|c|));
    }
  }

  lemma {:induction false} ValueBound(s: string)
    requires AllDigits(s)
    ensures DecimalValue(s) < Pow10(|s|)
  {
    if s != "" {
      ValueBound(s[..|s| - 1]);
    }
  }

  lemma {:induction false} SameFigures(a: string, b: string)
    requires AllDigits(a) && AllDigits(b) && |a| == |b| && DecimalValue(a) == DecimalValue(b)
    ensures a == b
    decreases |a|
  {
    if a != "" {
      LastFigure(a);
      LastFigure(b);
      SameFigures(a[..|a| - 1], b[..|b| - 1]);
      assert a == a[..|a| - 1] + [a[|a| - 1]] && b == b[..|b| - 1] + [b[|b| - 1]];
    }
  }

  lemma {:induction false} TrimmedBack(f: string, n: nat)
    requires f != "" ==> f[|f| - 1] != '0'
    ensures TrimZeros(f + Zeros(n)) == f
  {
    var s := f + Zeros(n);
    if n == 0 {
      assert s == f;
    } else {
      assert s[..|s| - 1] == f + Zeros(n - 1);
      TrimmedBack(f, n - 1);
    }
  }

  lemma {:induction false} TrimmedEnd(s: string)
    ensures var f := TrimZeros(s); (f != "" ==> f[|f| - 1] != '0') && s == f + Zeros(|s| - |f|)
  {
    if s != "" && s[|s| - 1] == '0' {
      TrimmedEnd(s[..|s| - 1]);
    }
  }

  /** The digits in front of the point and behind it, by the number they make together. */
  lemma WholeAndFraction(whole: string, p: string, n: nat)
    ensures Means(whole + p, n)
       <==> AllDigits(whole) && AllDigits(p) && DecimalValue(whole) == n / Pow10(|p|) && DecimalValue(p) == n % Pow10(|p|)
  {
    hide DecimalValue, IsDigit, Pow10;
    MeansIs(whole + p, n);
    assert AllDigits(whole + p) <==> AllDigits(whole) && AllDigits(p) by { DigitsApart(whole, p); }
    if AllDigits(whole) && AllDigits(p) {
      ValueAppend(whole, p);
      ValueBound(p);
      Apart(DecimalValue(whole), Pow10(|p|), DecimalValue(p), n);
    }
  }

  lemma DigitsApart(a: string, b: string)
    ensures AllDigits(a + b) <==> AllDigits(a) && AllDigits(b)
  {
    hide IsDigit;
    assert forall i | 0 <= i < |a| :: (a + b)[i] == a[i];
    assert forall i | 0 <= i < |b| :: (a + b)[|a| + i] == b[i];
  }

  lemma SmallMultiple(d: int, a: nat)
    requires -(a as int) < d * a < a
    ensures d == 0
  {
  }

  lemma Apart(q: nat, a: nat, r: nat, n: nat)
    requires r < a
    ensures q * a + r == n <==> q == n / a && r == n % a
  {
    Divide(n, a);
    if q * a + r == n {
      assert (q - n / a) * a == n % a - r;
      SmallMultiple(q - n / a, a);
    }
  }

  function DividedBy(n: nat, d: nat): nat
    requires d > 0
  {
    n / d
  }

  function Modulo(n: nat, d: nat): nat
    requires d > 0
  {
    n % d
  }

  function Whole(n: nat, places: nat): nat {
    DividedBy(n, Pow10(places))
  }

  function Rest(n: nat, places: nat): nat {
    Modulo(n, Pow10(places))
  }

  /** The digits behind the point before zeros are dropped. */
  function Behind(n: nat, places: nat): string {
    if Rest(n, places) == 0 then Zeros(places) else Padded(Rest(n, places), places)
  }

  /** A component is written as short as it can be, and there is one such text. */
  lemma ComponentIs(n: nat, places: nat, unit: nat, suffix: string, text: string)
    requires unit == Pow10(places)
    ensures Component(n, unit, places, suffix) == text <==> Amounts(text, n, places, suffix)
  {
    hide Fixed, Component, Decimal, Pow10, Behind, TrimZeros;
    ComponentText(n, places, suffix);
    ComponentFixed(n, places);
    forall whole, fraction | Fixed(whole, fraction, n, places)
      ensures whole == Decimal(Whole(n, places)) && fraction == TrimZeros(Behind(n, places))
    {
      FixedIsUnique(whole, fraction, n, places);
    }
  }

  lemma ComponentText(n: nat, places: nat, suffix: string)
    ensures Component(n, Pow10(places), places, suffix)
         == Pointed(Decimal(Whole(n, places)), TrimZeros(Behind(n, places))) + suffix
  {
    hide Decimal, Padded, TrimZeros, Pow10;
    var remainder := Rest(n, places);
    if remainder == 0 {
      assert [] + Zeros(places) == Zeros(places);
      TrimmedBack([], places);
    } else {
      FractionValue(remainder, places);
    }
  }

  lemma BehindValue(n: nat, places: nat)
    ensures var p := Behind(n, places); |p| == places && AllDigits(p) && DecimalValue(p) == Rest(n, places)
  {
    hide Decimal, DecimalValue, Pow10;
    var r := Rest(n, places);
    if r == 0 {
      assert Zeros(places) + [] == Zeros(places);
      ValueOfZeros(places, []);
      NothingIsZero();
    } else {
      PositiveWidth(places);
      DigitsFit(r, places);
      ValueOfZeros(places - |Decimal(r)|, Decimal(r));
      DecimalInverse(r);
    }
  }

  lemma ComponentFixed(n: nat, places: nat)
    ensures Fixed(Decimal(Whole(n, places)), TrimZeros(Behind(n, places)), n, places)
  {
    hide Decimal, DecimalValue, Pow10, Behind, Means, TrimZeros;
    var w, p := Decimal(Whole(n, places)), Behind(n, places);
    var f := TrimZeros(p);
    BehindValue(n, places);
    TrimmedEnd(p);
    NumeralIs(w, Whole(n, places));
    DecimalInverse(Whole(n, places));
    WholeAndFraction(w, p, n);
    assert w + f + seq(places - |f|, _ => '0') == w + p;
  }

  lemma FixedIsUnique(whole: string, fraction: string, n: nat, places: nat)
    requires Fixed(whole, fraction, n, places)
    ensures whole == Decimal(Whole(n, places)) && fraction == TrimZeros(Behind(n, places))
  {
    hide Decimal, DecimalValue, Pow10, Behind, Means, TrimZeros;
    var q := fraction + Zeros(places - |fraction|);
    assert whole + fraction + seq(places - |fraction|, _ => '0') == whole + q;
    WholeAndFraction(whole, q, n);
    MeansIs(whole, Whole(n, places));
    NumeralIs(whole, Whole(n, places));
    BehindValue(n, places);
    SameFigures(Behind(n, places), q);
    TrimmedBack(fraction, places - |fraction|);
  }

  // ---------- Durations ----------

  lemma FrontIs(hours: string, minutes: string, h: nat, m: nat)
    ensures InFront(hours, minutes, h, m)
       <==> && hours == (if h > 0 then Decimal(h) + "h" else "")
            && minutes == (if h > 0 || m > 0 then Decimal(m) + "m" else "")
  {
    hide Decimal, Numeral;
    if hours != "" {
      NumeralIs(hours[..|hours| - 1], h);
      assert hours == hours[..|hours| - 1] + [hours[|hours| - 1]];
    }
    if minutes != "" {
      NumeralIs(minutes[..|minutes| - 1], m);
      assert minutes == minutes[..|minutes| - 1] + [minutes[|minutes| - 1]];
    }
  }

  lemma ClockTimes(n: nat, h: nat, m: nat)
    requires m < 60
    ensures 0 <= n - 3_600_000_000_000 * h - 60_000_000_000 * m < 60_000_000_000
       <==> h == n / 3_600_000_000_000 && m == n % 3_600_000_000_000 / 60_000_000_000
    ensures h == n / 3_600_000_000_000 && m == n % 3_600_000_000_000 / 60_000_000_000 ==>
      n - 3_600_000_000_000 * h - 60_000_000_000 * m == n % 3_600_000_000_000 % 60_000_000_000
  {
  }

  lemma ClockIs(text: string, n: nat)
    requires n >= 1_000_000_000
    ensures Format(n) == text <==> Clock(text, n)
  {
    hide Component, Decimal, Amounts, InFront;
    var h, m := n / 3_600_000_000_000, n % 3_600_000_000_000 / 60_000_000_000;
    var rest := n % 3_600_000_000_000 % 60_000_000_000;
    var seconds := Component(rest, 1_000_000_000, 9, "s");
    var hours, minutes := if h > 0 then Decimal(h) + "h" else "", if h > 0 || m > 0 then Decimal(m) + "m" else "";
    Powers();
    ClockTimes(n, h, m);
    FrontIs(hours, minutes, h, m);
    ComponentIs(rest, 9, 1_000_000_000, "s", seconds);
    assert Format(n) == hours + minutes + seconds;
    if Clock(text, n) {
      var h': nat, m': nat, hours', minutes', seconds' :|
        && InFront(hours', minutes', h', m') && m' < 60 && text == hours' + minutes' + seconds'
        && 0 <= n - 3_600_000_000_000 * h' - 60_000_000_000 * m' < 60_000_000_000
        && Amounts(seconds', n - 3_600_000_000_000 * h' - 60_000_000_000 * m', 9, "s");
      ClockTimes(n, h', m');
      FrontIs(hours', minutes', h', m');
      ComponentIs(rest, 9, 1_000_000_000, "s", seconds');
    }
  }

  lemma NegativeIs(text: string, n: int)
    requires n < 0
    ensures Format(n) == text <==> Stands(text, n)
  {
    hide Decimal, Numeral;
    var digits := Decimal(-n);
    assert Format(n) == ['-'] + digits + "ns";
    if Stands(text, n) {
      NumeralIs(text[1..|text| - 2], -n);
      assert text == ['-'] + text[1..|text| - 2] + text[|text| - 2..];
    }
    if Format(n) == text {
      assert text[1..|text| - 2] == digits && text[|text| - 2..] == "ns";
      NumeralIs(digits, -n);
    }
  }

  /** The printer writes the one text that stands for the duration. */
  lemma FormatIsWhatStands(n: int, text: string)
    ensures Format(n) == text <==> Stands(text, n)
  {
    hide Component, Amounts, Clock;
    Powers();
    if n < 0 {
      NegativeIs(text, n);
    } else if n == 0 {
    } else if n < 1_000 {
      ComponentIs(n, 0, 1, "ns", text);
    } else if n < 1_000_000 {
      ComponentIs(n, 3, 1_000, "us", text);
    } else if n < 1_000_000_000 {
      ComponentIs(n, 6, 1_000_000, "ms", text);
    } else {
      ClockIs(text, n);
    }
  }
}
