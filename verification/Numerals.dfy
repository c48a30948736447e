/** Decimal numbers by their figures, and that `Text` writes and reads them. */
module Numerals {
  import opened Text
  import opened Wrappers

  const FIGURES := "0123456789"

  /** The figures stand for `n`; there may be zeros in front. */
  predicate Means(s: string, n: nat)
    decreases |s|
  {
    if s == "" then n == 0 else s[|s| - 1] == FIGURES[n % 10] && Means(s[..|s| - 1], n / 10)
  }

  /** The number as it is written: no zero in front of another figure. */
  predicate Numeral(s: string, n: nat) {
    s != "" && Means(s, n) && (|s| > 1 ==> s[0] != '0')
  }

  /** A number with an optional sign. */
  predicate Signed(s: string, i: int) {
    || (s != "" && i >= 0 && Means(s, i))
    || (|s| > 1 && s[0] == '+' && i >= 0 && Means(s[1..], i))
    || (|s| > 1 && s[0] == '-' && i <= 0 && Means(s[1..], -i))
  }

  lemma FigureIs(c: char, d: nat)
    requires d < 10
    ensures c == FIGURES[d] <==> IsDigit(c) && DigitValue(c) == d
    ensures FIGURES[d] == Digit(d)
  {
  }

  lemma {:induction false} MeansIs(s: string, n: nat)
    ensures Means(s, n) <==> AllDigits(s) && DecimalValue(s) == n
    decreases |s|
  {
    hide IsDigit, DigitValue;
    if s != "" {
      FigureIs(s[|s| - 1], n % 10);
      MeansIs(s[..|s| - 1], n / 10);
      if AllDigits(s) {
        FigureIs(s[|s| - 1], DecimalValue(s) % 10);
        LastFigure(s);
      }
    }
  }

  lemma LastFigure(s: string)
    requires s != "" && AllDigits(s)
    ensures DecimalValue(s) / 10 == DecimalValue(s[..|s| - 1]) && DecimalValue(s) % 10 == DigitValue(s[|s| - 1])
  {
  }

  lemma {:induction false} DecimalStart(n: nat)
    ensures n > 0 ==> Decimal(n)[0] != '0'
  {
    if n >= 10 {
      DecimalStart(n / 10);
    }
  }

  lemma {:induction false} OnlyZeros(s: string)
    requires Means(s, 0) && s != ""
    ensures s[0] == '0'
    decreases |s|
  {
    if |s| > 1 {
      OnlyZeros(s[..|s| - 1]);
    }
  }

  lemma {:induction false} NumeralIsDecimal(s: string, n: nat)
    requires Numeral(s, n)
    ensures s == Decimal(n)
    decreases |s|
  {
    var before := s[..|s| - 1];
    FigureIs(s[|s| - 1], n % 10);
    assert Means(before, n / 10);
    if n < 10 {
      if before != "" {
        OnlyZeros(before);
      }
    } else {
      assert |before| > 0;
      NumeralIsDecimal(before, n / 10);
    }
    assert s == before + [s[|s| - 1]];
  }

  /** `Decimal` writes the numeral. */
  lemma NumeralIs(s: string, n: nat)
    ensures Numeral(s, n) <==> s == Decimal(n)
  {
    hide Means, Decimal, DecimalValue, AllDigits;
    if s == Decimal(n) {
      DecimalInverse(n);
      MeansIs(s, n);
      DecimalStart(n);
      if n == 0 {
        ZeroDecimal();
      }
    } else if Numeral(s, n) {
      NumeralIsDecimal(s, n);
    }
  }

  lemma ZeroDecimal()
    ensures Decimal(0) == "0"
  {
  }

  lemma SignIsNoFigure(s: string)
    ensures s != "" && AllDigits(s) ==> s[0] != '+' && s[0] != '-'
  {
  }

  /** `ParseInt` reads what is in range. */
  lemma ParseIntIs(s: string, low: int, high: int, i: int)
    ensures ParseInt(s, low, high) == Some(i) <==> Signed(s, i) && low <= i <= high
  {
    hide Means, DecimalValue, AllDigits;
    if s != "" {
      SignIsNoFigure(s);
      if i >= 0 {
        MeansIs(s, i);
        MeansIs(s[1..], i);
      }
      if i <= 0 {
        MeansIs(s[1..], -i);
      }
    }
  }

  lemma ParseNatIs(s: string, high: int, n: nat)
    ensures ParseNat(s, high) == Some(n) <==> ((s != "" && Means(s, n)) || (|s| > 1 && s[0] == '+' && Means(s[1..], n))) && n <= high
  {
    hide Means, DecimalValue, AllDigits;
    if s != "" {
      SignIsNoFigure(s);
      MeansIs(s, n);
      MeansIs(s[1..], n);
    }
  }
}
