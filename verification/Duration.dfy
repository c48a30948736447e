/** Printing durations in Go's notation, and reading that notation back. */
module Duration {
  import opened Bytes
  import opened Text
  import opened Wrappers

  const SECOND: nat := 1_000_000_000
  const MINUTE: nat := 60_000_000_000
  const HOUR: nat := 3_600_000_000_000

  function Pow10(n: nat): (p: nat)
    ensures p >= 1
  {
    if n == 0 then 1 else 10 * Pow10(n - 1)
  }

  // ---------- Reading: the grammar of Go's time.ParseDuration ----------

  /** The length of the digits in front. */
  function DigitRun(s: string): (n: nat)
    ensures n <= |s| && (forall i | 0 <= i < n :: IsDigit(s[i])) && (n < |s| ==> !IsDigit(s[n]))
  {
    if s != [] && IsDigit(s[0]) then 1 + DigitRun(s[1..]) else 0
  }

  /** The length of the unit in front: everything up to a digit or a point. */
  function UnitRun(s: string): (n: nat)
    ensures n <= |s| && (forall i | 0 <= i < n :: !IsDigit(s[i]) && s[i] != '.')
    ensures n < |s| ==> IsDigit(s[n]) || s[n] == '.'
  {
    if s != [] && !IsDigit(s[0]) && s[0] != '.' then 1 + UnitRun(s[1..]) else 0
  }

  function UnitOf(name: string): Option<nat> {
    if name == "ns" then Some(1)
    else if name == "us" || name == "µs" || name == "μs" then Some(1_000)
    else if name == "ms" then Some(1_000_000)
    else if name == "s" then Some(SECOND)
    else if name == "m" then Some(MINUTE)
    else if name == "h" then Some(HOUR)
    else None
  }

  /** The length of a point and the digits behind it, if there is one. */
  function FractionRun(s: string): (n: nat)
    ensures n <= |s|
  {
    if s != [] && s[0] == '.' then 1 + DigitRun(s[1..]) else 0
  }

  function Scaled(n: nat, unit: nat, scale: nat): nat
    requires scale > 0
  {
    n * unit / scale
  }

  /** One number with its unit, whole part and fraction; the fraction is cut to whole nanoseconds. */
  function Amount(whole: string, fraction: string, unit: nat): nat
    requires AllDigits(whole) && AllDigits(fraction)
  {
    Scaled(DecimalValue(whole), unit, 1) + Scaled(DecimalValue(fraction), unit, Pow10(|fraction|))
  }

  /** The first number of a text: digits, a point with digits, a unit; and what follows it. */
  datatype Piece = Piece(whole: string, point: string, unit: string, rest: string)

  function FirstPiece(s: string): (p: Piece)
    ensures |p.unit| + |p.rest| <= |s| && AllDigits(p.whole)
    ensures p.point != [] ==> AllDigits(p.point[1..])
  {
    var w := DigitRun(s);
    var afterWhole := s[w..];
    var f := FractionRun(afterWhole);
    var afterPoint := afterWhole[f..];
    var u := UnitRun(afterPoint);
    Piece(s[..w], afterWhole[..f], afterPoint[..u], afterPoint[u..])
  }

  /** The sum of all the numbers. */
  function ReadParts(s: string): Option<nat>
    decreases |s|
  {
    if s == [] then Some(0)
    else
      var p := FirstPiece(s);
      var unit := UnitOf(p.unit);
      if unit == None || (p.whole == [] && |p.point| <= 1) then None
      else
        match ReadParts(p.rest)
        case None => None
        case Some(rest) => Some(Amount(p.whole, if p.point == [] then [] else p.point[1..], unit.value) + rest)
  }

  function ReadDuration(s: string): Option<int> {
    var negative := s != [] && s[0] == '-';
    var body := if negative || (s != [] && s[0] == '+') then s[1..] else s;
    if body == "0" then Some(0)
    else if body == [] then None
    else
      match ReadParts(body)
      case None => None
      case Some(n) =>
        if negative && n <= 0x8000_0000_0000_0000 then Some(0 - n as int)
        else if !negative && n <= 0x7FFF_FFFF_FFFF_FFFF then Some(n)
        else None
  }

  // ---------- Printing ----------

  function Zeros(n: nat): (s: string)
    ensures |s| == n && forall i | 0 <= i < n :: s[i] == '0'
  {
    seq(n, _ => '0')
  }

  /** At least `width` digits. */
  function Padded(n: nat, width: nat): string {
    Zeros(if |Decimal(n)| < width then width - |Decimal(n)| else 0) + Decimal(n)
  }

  function TrimZeros(s: string): (r: string)
    ensures r <= s && forall i | |r| <= i < |s| :: s[i] == '0'
  {
    if s != [] && s[|s| - 1] == '0' then TrimZeros(s[..|s| - 1]) else s
  }

  /** `width` is the decimal logarithm of the unit; negative numbers come with unit 1 only. */
  function Component(value: int, unit: nat, width: nat, suffix: string): string
    requires unit > 0 && (value < 0 ==> unit == 1)
  {
    var whole, remainder := value / unit, value % unit;
    if remainder == 0 then IntText(whole) + suffix
    else IntText(whole) + "." + TrimZeros(Padded(remainder, width)) + suffix
  }

  /** A negative duration is under 1000 and so printed in nanoseconds. */
  function Format(nanoseconds: int): string {
    if nanoseconds == 0 then "0s"
    else if nanoseconds < 1_000 then Component(nanoseconds, 1, 0, "ns")
    else if nanoseconds < 1_000_000 then Component(nanoseconds, 1_000, 3, "us")
    else if nanoseconds < SECOND then Component(nanoseconds, 1_000_000, 6, "ms")
    else
      var hours, minutes := nanoseconds / HOUR, nanoseconds % HOUR / MINUTE;
      (if hours > 0 then Decimal(hours) + "h" else "")
      + (if hours > 0 || minutes > 0 then Decimal(minutes) + "m" else "")
      + Component(nanoseconds % HOUR % MINUTE, SECOND, 9, "s")
  }

  method FormatGoDuration(nanoseconds: i64) returns (formatted: string)
    ensures formatted == Format(nanoseconds)
  {
    hide Component, Decimal;
    if nanoseconds == 0 {
      return "0s";
    }
    if nanoseconds < SECOND {
      if nanoseconds < 1_000 {
        return Component(nanoseconds, 1, 0, "ns");
      } else if nanoseconds < 1_000_000 {
        return Component(nanoseconds, 1_000, 3, "us");
      } else {
        return Component(nanoseconds, 1_000_000, 6, "ms");
      }
    }
    var hours := nanoseconds / HOUR;
    var afterHours := nanoseconds % HOUR;
    var minutes := afterHours / MINUTE;
    var afterMinutes := afterHours % MINUTE;
    formatted := "";
    if hours > 0 {
      formatted := formatted + Decimal(hours) + "h";
    }
    if hours > 0 || minutes > 0 {
      formatted := formatted + Decimal(minutes) + "m";
    }
    formatted := formatted + Component(afterMinutes, SECOND, 9, "s");
  }

  // ---------- Nothing is lost ----------

  lemma RunOfDigits(digits: string, rest: string)
    requires AllDigits(digits) && (rest != [] ==> !IsDigit(rest[0]))
    ensures DigitRun(digits + rest) == |digits| && (digits + rest)[|digits|..] == rest && (digits + rest)[..|digits|] == digits
  {
    hide IsDigit, DigitRun;
    var s := digits + rest;
    assert forall i | 0 <= i < |digits| :: IsDigit(s[i]);
    if rest != [] {
      assert s[|digits|] == rest[0];
    }
  }

  lemma RunOfUnit(unit: string, rest: string)
    requires (forall i | 0 <= i < |unit| :: !IsDigit(unit[i]) && unit[i] != '.') && (rest != [] ==> IsDigit(rest[0]))
    ensures UnitRun(unit + rest) == |unit| && (unit + rest)[|unit|..] == rest && (unit + rest)[..|unit|] == unit
  {
    hide IsDigit, UnitRun;
    var s := unit + rest;
    assert forall i | 0 <= i < |unit| :: s[i] == unit[i];
    if rest != [] {
      assert s[|unit|] == rest[0];
    }
  }

  /** The units that are printed. */
  predicate PrintedUnit(suffix: string) {
    suffix == "ns" || suffix == "us" || suffix == "ms" || suffix == "s" || suffix == "m" || suffix == "h"
  }

  lemma UnitsAreUnits(suffix: string)
    requires PrintedUnit(suffix)
    ensures UnitOf(suffix).Some? && suffix != [] && !IsDigit(suffix[0]) && suffix[0] != '.'
    ensures forall i | 0 <= i < |suffix| :: !IsDigit(suffix[i]) && suffix[i] != '.'
  {
  }

  /** The parts that a number with its unit, in front of more, is cut into. */
  lemma ReadStep(whole: string, point: string, suffix: string, rest: string)
    requires whole != [] && AllDigits(whole) && PrintedUnit(suffix) && (rest != [] ==> IsDigit(rest[0]))
    requires point == [] || (point[0] == '.' && |point| > 1 && AllDigits(point[1..]))
    ensures FirstPiece(whole + (point + (suffix + rest))) == Piece(whole, point, suffix, rest)
  {
    hide DigitRun, FractionRun, UnitRun, UnitOf, IsDigit;
    var tail := suffix + rest;
    UnitsAreUnits(suffix);
    PointIsNoDigit();
    RunOfUnit(suffix, rest);
    assert tail[0] == suffix[0];
    RunOfPoint(point, tail);
    assert point + tail != [] && (point + tail)[0] == if point == [] then tail[0] else '.';
    RunOfDigits(whole, point + tail);
  }

  lemma RunOfPoint(point: string, rest: string)
    requires point == [] || (point[0] == '.' && AllDigits(point[1..]))
    requires rest != [] && !IsDigit(rest[0]) && rest[0] != '.'
    ensures FractionRun(point + rest) == |point| && (point + rest)[|point|..] == rest && (point + rest)[..|point|] == point
  {
    hide DigitRun, IsDigit;
    if point == [] {
      assert point + rest == rest;
    } else {
      RunOfDigits(point[1..], rest);
      assert (point + rest)[1..] == point[1..] + rest;
    }
  }

  lemma PointIsNoDigit()
    ensures !IsDigit('.')
  {
  }

  /** A number with its unit, in front of more. */
  lemma ReadNumber(whole: string, point: string, suffix: string, rest: string)
    requires whole != [] && AllDigits(whole) && PrintedUnit(suffix) && (rest != [] ==> IsDigit(rest[0]))
    requires point == [] || (point[0] == '.' && |point| > 1 && AllDigits(point[1..]))
    ensures UnitOf(suffix).Some?
    ensures ReadParts(whole + (point + (suffix + rest))) ==
      (match ReadParts(rest)
       case None => None
       case Some(n) => Some(Amount(whole, if point == [] then [] else point[1..], UnitOf(suffix).value) + n))
  {
    hide FirstPiece, UnitOf, IsDigit, Amount, PrintedUnit;
    UnitsAreUnits(suffix);
    ReadStep(whole, point, suffix, rest);
  }

  // ---------- Fractions ----------

  lemma {:induction false} ValueOfZeros(n: nat, s: string)
    requires AllDigits(s)
    ensures AllDigits(Zeros(n) + s)
    ensures DecimalValue(Zeros(n) + s) == DecimalValue(s)
    decreases |s|, n
  {
    var t := Zeros(n) + s;
    if s == [] {
      if n > 0 {
        assert t[..|t| - 1] == Zeros(n - 1) + [];
        ValueOfZeros(n - 1, []);
      }
    } else {
      assert t[..|t| - 1] == Zeros(n) + s[..|s| - 1];
      ValueOfZeros(n, s[..|s| - 1]);
    }
  }

  lemma TimesTen(a: nat, b: nat, k: nat)
    requires a == b * Pow10(k)
    ensures 10 * a == b * Pow10(k + 1)
  {
    hide Pow10;
    assert Pow10(k + 1) == 10 * Pow10(k) by { PowStep(k); }
    assert b * (10 * Pow10(k)) == 10 * (b * Pow10(k));
  }

  lemma PowStep(k: nat)
    ensures Pow10(k + 1) == 10 * Pow10(k)
  {
  }

  lemma {:induction false} ValueOfTrimmed(s: string)
    requires AllDigits(s)
    ensures DecimalValue(s) == DecimalValue(TrimZeros(s)) * Pow10(|s| - |TrimZeros(s)|)
    decreases |s|
  {
    hide Pow10;
    PowZero();
    if s != [] && s[|s| - 1] == '0' {
      var t := s[..|s| - 1];
      ValueOfTrimmed(t);
      TimesTen(DecimalValue(t), DecimalValue(TrimZeros(s)), |t| - |TrimZeros(s)|);
    }
  }

  lemma PowZero()
    ensures Pow10(0) == 1 && forall n: nat :: n * Pow10(0) == n
  {
  }

  lemma {:induction false} PowersAdd(a: nat, b: nat)
    ensures Pow10(a + b) == Pow10(a) * Pow10(b)
  {
    if a > 0 {
      PowersAdd(a - 1, b);
    }
  }

  lemma {:induction false} DigitsFit(n: nat, width: nat)
    requires n < Pow10(width) && width > 0
    ensures |Decimal(n)| <= width
    decreases width
  {
    if n >= 10 {
      assert Pow10(width) == 10 * Pow10(width - 1);
      DigitsFit(n / 10, width - 1);
    }
  }

  lemma Between(a: nat, k: int)
    requires 0 <= a * k < a
    ensures k == 0
  {
  }

  lemma Divide(x: nat, a: nat)
    requires a > 0
    ensures x == a * (x / a) + x % a
  {
  }

  lemma Quotient(a: nat, q: nat)
    requires a > 0
    ensures a * q / a == q
  {
    var x: nat := a * q;
    var d := x / a;
    Divide(x, a);
    Distribute(a, q, d);
    Between(a, q - d);
  }

  lemma Distribute(a: nat, q: int, d: int)
    ensures a * (q - d) == a * q - a * d
  {
  }

  lemma ScaleBack(n: nat, a: nat, b: nat, r: nat)
    requires a > 0 && n * b == r
    ensures Scaled(n, a * b, a) == r
  {
    assert n * (a * b) == a * (n * b) == a * r;
    Quotient(a, r);
  }

  lemma ScaleWhole(n: nat, unit: nat)
    ensures Scaled(n, unit, 1) == n * unit && Scaled(0, unit, Pow10(0)) == 0
  {
  }

  /** The printed fraction stands for exactly the remainder. */
  lemma FractionValue(remainder: nat, width: nat)
    requires 0 < remainder < Pow10(width)
    ensures var f := TrimZeros(Padded(remainder, width));
      && f != [] && AllDigits(f) && Scaled(DecimalValue(f), Pow10(width), Pow10(|f|)) == remainder
      && |f| <= width && Pow10(width) == Pow10(|f|) * Pow10(width - |f|) && DecimalValue(f) * Pow10(width - |f|) == remainder
  {
    hide Decimal, DecimalValue, Scaled, IsDigit, Pow10, TrimZeros;
    var p := Padded(remainder, width);
    PositiveWidth(width);
    DigitsFit(remainder, width);
    ValueOfZeros(width - |Decimal(remainder)|, Decimal(remainder));
    DecimalInverse(remainder);
    assert |p| == width && DecimalValue(p) == remainder;
    var f := TrimZeros(p);
    ValueOfTrimmed(p);
    assert forall c | c in f :: c in p;
    NothingIsZero();
    PowersAdd(|f|, width - |f|);
    ScaleBack(DecimalValue(f), Pow10(|f|), Pow10(width - |f|), remainder);
  }

  /** Reading a printed fraction through doubles is exact: the unit is a multiple of the fraction's scale, and
      every number on the way is a whole one under 2^53. */
  lemma FractionFitsDoubles(remainder: nat, width: nat)
    requires 0 < remainder < Pow10(width) && width <= 9
    ensures var f := TrimZeros(Padded(remainder, width));
      && AllDigits(f) && Pow10(width) % Pow10(|f|) == 0
      && DecimalValue(f) * (Pow10(width) / Pow10(|f|)) == remainder
      && DecimalValue(f) <= remainder < Pow10(width) < 0x20_0000_0000_0000
  {
    hide Pow10, DecimalValue, TrimZeros, Padded, Scaled;
    FractionValue(remainder, width);
    var f := TrimZeros(Padded(remainder, width));
    var a, q := Pow10(|f|), Pow10(width - |f|);
    Quotient(a, q);
    Divide(a * q, a);
    Grows(DecimalValue(f), q);
    PowersAdd(width, 9 - width);
    Grows(Pow10(width), Pow10(9 - width));
    Powers();
  }

  lemma Grows(n: nat, factor: nat)
    requires factor >= 1
    ensures n <= n * factor
  {
  }

  lemma NothingIsZero()
    ensures DecimalValue([]) == 0 && forall n: nat :: 0 * n == 0
  {
  }

  lemma PositiveWidth(width: nat)
    requires Pow10(width) > 1
    ensures width > 0
  {
  }

  /** A printed component, in front of more, is read as its value. */
  lemma ReadComponent(value: nat, unit: nat, width: nat, suffix: string, rest: string)
    requires PrintedUnit(suffix) && UnitOf(suffix) == Some(unit) && unit == Pow10(width) && (rest != [] ==> IsDigit(rest[0]))
    ensures ReadParts(Component(value, unit, width, suffix) + rest)
         == match ReadParts(rest) case None => None case Some(n) => Some(value + n)
  {
    hide PrintedUnit, UnitOf, Pow10, IsDigit, ReadParts, Decimal, Padded, TrimZeros, Scaled, DecimalValue;
    var whole, remainder := value / unit, value % unit;
    DecimalInverse(whole);
    ScaleWhole(whole, unit);
    ScaleWhole(0, unit);
    NothingIsZero();
    assert value == whole * unit + remainder;
    if remainder == 0 {
      assert Component(value, unit, width, suffix) + rest == Decimal(whole) + ([] + (suffix + rest));
      ReadNumber(Decimal(whole), [], suffix, rest);
    } else {
      FractionValue(remainder, width);
      var f := TrimZeros(Padded(remainder, width));
      assert Component(value, unit, width, suffix) + rest == Decimal(whole) + (("." + f) + (suffix + rest));
      assert ("." + f)[1..] == f;
      ReadNumber(Decimal(whole), "." + f, suffix, rest);
    }
  }

  /** A whole number of hours or minutes, in front of more. */
  lemma ReadWhole(n: nat, suffix: string, rest: string)
    requires PrintedUnit(suffix) && UnitOf(suffix).Some? && (rest != [] ==> IsDigit(rest[0]))
    ensures ReadParts(Decimal(n) + suffix + rest)
         == match ReadParts(rest) case None => None case Some(m) => Some(n * UnitOf(suffix).value + m)
  {
    hide PrintedUnit, UnitOf, Pow10, IsDigit, ReadParts, Decimal, Scaled, DecimalValue;
    DecimalInverse(n);
    ScaleWhole(n, UnitOf(suffix).value);
    NothingIsZero();
    assert Decimal(n) + suffix + rest == Decimal(n) + ([] + (suffix + rest));
    ReadNumber(Decimal(n), [], suffix, rest);
  }

  lemma Powers()
    ensures Pow10(0) == 1 && Pow10(3) == 1_000 && Pow10(6) == 1_000_000 && Pow10(9) == SECOND
  {
    assert Pow10(5) == 100_000;
    assert Pow10(8) == 100_000_000;
  }

  lemma StartsWithDigit(value: nat, unit: nat, width: nat, suffix: string)
    requires unit > 0
    ensures Component(value, unit, width, suffix) != [] && IsDigit(Component(value, unit, width, suffix)[0])
  {
    hide Decimal, IsDigit, TrimZeros, Padded;
  }

  /** What is printed in front of the seconds is read as the hours and minutes. */
  lemma ReadClock(hours: nat, minutes: nat, seconds: string, value: nat)
    requires seconds != [] && IsDigit(seconds[0]) && ReadParts(seconds) == Some(value)
    ensures ReadParts((if hours > 0 then Decimal(hours) + "h" else "")
                      + (if hours > 0 || minutes > 0 then Decimal(minutes) + "m" else "") + seconds)
         == Some(hours * HOUR + minutes * MINUTE + value)
  {
    hide ReadParts, Decimal, IsDigit, UnitOf, PrintedUnit;
    SmallUnits();
    DigitsStart();
    var fromMinutes := if hours > 0 || minutes > 0 then Decimal(minutes) + "m" + seconds else seconds;
    var whole := (if hours > 0 then Decimal(hours) + "h" else "")
                 + (if hours > 0 || minutes > 0 then Decimal(minutes) + "m" else "") + seconds;
    if hours > 0 || minutes > 0 {
      ReadWhole(minutes, "m", seconds);
      assert fromMinutes == Decimal(minutes) + ("m" + seconds);
    }
    if hours > 0 {
      ReadWhole(hours, "h", fromMinutes);
      assert whole == Decimal(hours) + "h" + fromMinutes;
    } else {
      assert whole == fromMinutes;
    }
  }

  lemma DigitsStart()
    ensures forall n: nat, s: string :: Decimal(n) + s != [] && IsDigit((Decimal(n) + s)[0])
  {
    hide Decimal, IsDigit;
    forall n: nat, s: string ensures Decimal(n) + s != [] && IsDigit((Decimal(n) + s)[0]) {
      assert (Decimal(n) + s)[0] == Decimal(n)[0];
    }
  }

  lemma FormatIsRead(n: nat)
    requires n > 0
    ensures ReadParts(Format(n)) == Some(n)
  {
    hide ReadParts, Component, Decimal, IsDigit, Pow10, UnitOf, PrintedUnit;
    Powers();
    NothingToRead();
    SmallUnits();
    if n < 1_000 {
      ReadComponent(n, 1, 0, "ns", []);
      assert Format(n) == Component(n, 1, 0, "ns") + [];
    } else if n < 1_000_000 {
      ReadComponent(n, 1_000, 3, "us", []);
      assert Format(n) == Component(n, 1_000, 3, "us") + [];
    } else if n < SECOND {
      ReadComponent(n, 1_000_000, 6, "ms", []);
      assert Format(n) == Component(n, 1_000_000, 6, "ms") + [];
    } else {
      var rest := n % HOUR % MINUTE;
      var seconds := Component(rest, SECOND, 9, "s");
      assert seconds + [] == seconds;
      ReadComponent(rest, SECOND, 9, "s", []);
      StartsWithDigit(rest, SECOND, 9, "s");
      ReadClock(n / HOUR, n % HOUR / MINUTE, seconds, rest);
    }
  }

  lemma NothingToRead()
    ensures ReadParts([]) == Some(0)
  {
  }

  lemma SmallUnits()
    ensures UnitOf("ns") == Some(1) && UnitOf("us") == Some(1_000) && UnitOf("ms") == Some(1_000_000)
    ensures UnitOf("s") == Some(SECOND) && UnitOf("m") == Some(MINUTE) && UnitOf("h") == Some(HOUR)
    ensures PrintedUnit("ns") && PrintedUnit("us") && PrintedUnit("ms") && PrintedUnit("s") && PrintedUnit("m") && PrintedUnit("h")
  {
  }

  lemma NegativeIsRead(n: nat)
    requires n > 0
    ensures ReadParts(Decimal(n) + "ns") == Some(n)
  {
    hide ReadParts, Decimal;
    SmallUnits();
    NothingToRead();
    ReadWhole(n, "ns", []);
    assert Decimal(n) + "ns" + [] == Decimal(n) + "ns";
  }

  /** Printing loses nothing: Go's reader gets every duration back, so distinct durations print differently. */
  lemma DurationIsLossless(nanoseconds: i64)
    ensures ReadDuration(Format(nanoseconds)) == Some(nanoseconds)
  {
    hide ReadParts, Decimal;
    if nanoseconds == 0 {
      ZeroIsRead();
    } else if nanoseconds > 0 {
      FormatIsRead(nanoseconds);
      FormatStarts(nanoseconds);
    } else {
      var n: int := nanoseconds;
      NegativeIsRead(-n);
      assert Component(n, 1, 0, "ns") == IntText(n) + "ns";
      assert Format(n)[1..] == Decimal(-n) + "ns";
    }
  }

  lemma ZeroIsRead()
    ensures ReadDuration(Format(0)) == Some(0)
  {
    SmallUnits();
    Powers();
    NothingToRead();
    assert Decimal(0) + "s" == "0s" && Decimal(0) + "s" + [] == "0s";
    ReadWhole(0, "s", []);
  }

  /** A printed duration has no sign, and is not a bare zero. */
  lemma FormatStarts(n: nat)
    requires n > 0
    ensures Format(n) != [] && IsDigit(Format(n)[0]) && Format(n) != "0"
  {
    hide Component, Decimal, IsDigit, ReadParts;
    FormatIsRead(n);
    ZeroAlone();
    DigitsStart();
    StartsWithDigit(n, 1, 0, "ns");
    StartsWithDigit(n, 1_000, 3, "us");
    StartsWithDigit(n, 1_000_000, 6, "ms");
    var rest := n % HOUR % MINUTE;
    StartsWithDigit(rest, SECOND, 9, "s");
    ClockStarts(n / HOUR, n % HOUR / MINUTE, Component(rest, SECOND, 9, "s"));
  }

  lemma ClockStarts(hours: nat, minutes: nat, seconds: string)
    requires seconds != [] && IsDigit(seconds[0])
    ensures var s := (if hours > 0 then Decimal(hours) + "h" else "")
                     + (if hours > 0 || minutes > 0 then Decimal(minutes) + "m" else "") + seconds;
      s != [] && IsDigit(s[0])
  {
    hide Decimal, IsDigit;
    var s := (if hours > 0 then Decimal(hours) + "h" else "")
             + (if hours > 0 || minutes > 0 then Decimal(minutes) + "m" else "") + seconds;
    if hours > 0 {
      assert s[0] == Decimal(hours)[0];
    } else if minutes > 0 {
      assert s[0] == Decimal(minutes)[0];
    } else {
      assert s == seconds;
    }
  }

  lemma ZeroAlone()
    ensures ReadParts("0") == None
  {
    assert DigitRun("0") == 1 && "0"[1..] == [];
    assert UnitOf([]) == None;
  }
}
