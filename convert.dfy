/** The two conversions the parsers take from Go's standard library:
    strconv.Atoi on 64-bit platforms, and time.Parse with the layout "02.01.2006"
    (DD.MM.YYYY). Both are modelled exactly for the inputs they accept and reject. */
module Convert {
  import opened Text

  datatype Option<T> = None | Some(value: T)

  const MinInt64: int := -0x8000_0000_0000_0000
  const MaxInt64: int := 0x7FFF_FFFF_FFFF_FFFF

  predicate IsDigit(c: char) {
    '0' <= c <= '9'
  }

  predicate AllDigits(s: String) {
    forall i :: 0 <= i < |s| ==> IsDigit(s[i])
  }

  function DigitValue(c: char): (d: nat)
    requires IsDigit(c)
    ensures d < 10
  {
    c as int - '0' as int
  }

  function DigitChar(d: nat): (c: char)
    requires d < 10
    ensures IsDigit(c) && DigitValue(c) == d
  {
    ('0' as int + d) as char
  }

  /** The value of a run of decimal digits, most significant first. */
  function DecimalValue(s: String): nat
    requires AllDigits(s)
  {
    if s == [] then 0 else 10 * DecimalValue(s[..|s| - 1]) + DigitValue(s[|s| - 1])
  }

  /** The shortest decimal spelling of `n` (strconv.Itoa for n >= 0). */
  function Decimal(n: nat): (s: String)
    ensures |s| >= 1 && AllDigits(s)
  {
    if n < 10 then [DigitChar(n)] else Decimal(n / 10) + [DigitChar(n % 10)]
  }

  lemma {:induction false} DecimalValueOfDecimal(n: nat)
    ensures DecimalValue(Decimal(n)) == n
  {
    if n >= 10 {
      var s := Decimal(n);
      assert s[..|s| - 1] == Decimal(n / 10);
      DecimalValueOfDecimal(n / 10);
    }
  }

  /** strconv.Atoi: an optional sign and at least one decimal digit, nothing else,
      with the value inside the 64-bit range; anything else is an error (None). */
  function Atoi(s: String): (r: Option<int>)
    ensures r.Some? ==> MinInt64 <= r.value <= MaxInt64
    ensures r.Some? ==> (|s| >= 1 && AllDigits(s))
                        || (|s| >= 2 && (s[0] == '+' || s[0] == '-') && AllDigits(s[1..]))
    ensures |s| >= 1 && AllDigits(s)
            ==> r == if DecimalValue(s) <= MaxInt64 then Some(DecimalValue(s)) else None
    ensures |s| >= 2 && s[0] == '+' && AllDigits(s[1..])
            ==> r == if DecimalValue(s[1..]) <= MaxInt64 then Some(DecimalValue(s[1..])) else None
    ensures |s| >= 2 && s[0] == '-' && AllDigits(s[1..])
            ==> r == if DecimalValue(s[1..]) <= -MinInt64 then Some(0 - DecimalValue(s[1..])) else None
  {
    if |s| == 0 then None
    else
      var signed := s[0] == '-' || s[0] == '+';
      var digits := if signed then s[1..] else s;
      if |digits| == 0 || !AllDigits(digits) then None
      else
        var v: int := if s[0] == '-' then 0 - DecimalValue(digits) else DecimalValue(digits);
        if MinInt64 <= v <= MaxInt64 then Some(v) else None
  }

  /** Atoi reads back the decimal spelling of every non-negative 64-bit value. */
  lemma AtoiDecimal(n: nat)
    requires n <= MaxInt64
    ensures Atoi(Decimal(n)) == Some(n)
  {
    DecimalValueOfDecimal(n);
  }

  /** A calendar date, as time.Parse yields it for a date-only layout. */
  datatype Date = Date(year: int, month: int, day: int)

  predicate IsLeap(year: int) {
    year % 4 == 0 && (year % 100 != 0 || year % 400 == 0)
  }

  function DaysIn(month: int, year: int): int
    requires 1 <= month <= 12
  {
    if month == 2 then (if IsLeap(year) then 29 else 28)
    else if month == 4 || month == 6 || month == 9 || month == 11 then 30
    else 31
  }

  /** A date that exists in the proleptic Gregorian calendar. */
  predicate ValidDate(d: Date) {
    1 <= d.month <= 12 && 1 <= d.day <= DaysIn(d.month, d.year)
  }

  /** time.Parse("02.01.2006", s): exactly two day digits, '.', two month digits, '.',
      four year digits, no other text, and a day that exists in that month. */
  function ParseDotDate(s: String): (r: Option<Date>)
    ensures r.Some? ==> ValidDate(r.value) && 0 <= r.value.year <= 9999
    ensures r.Some? ==> |s| == 10 && s[2] == '.' && s[5] == '.'
  {
    if |s| == 10 && s[2] == '.' && s[5] == '.'
       && AllDigits(s[0..2]) && AllDigits(s[3..5]) && AllDigits(s[6..10]) then
      var d := Date(DecimalValue(s[6..10]), DecimalValue(s[3..5]), DecimalValue(s[0..2]));
      DecimalValueBound(s[6..10]);
      assert Power10(4) == 10000;
      if ValidDate(d) then Some(d) else None
    else None
  }

  /** A digit string of exactly `width` characters for `n` (zero-padded). */
  function Padded(n: nat, width: nat): (s: String)
    ensures |s| == width && AllDigits(s)
  {
    if width == 0 then [] else Padded(n / 10, width - 1) + [DigitChar(n % 10)]
  }

  function Power10(k: nat): (p: nat)
    ensures p >= 1
  {
    if k == 0 then 1 else 10 * Power10(k - 1)
  }

  /** A run of `k` digits is worth less than 10^k. */
  lemma {:induction false} DecimalValueBound(s: String)
    requires AllDigits(s)
    ensures DecimalValue(s) < Power10(|s|)
  {
    if s != [] {
      DecimalValueBound(s[..|s| - 1]);
    }
  }

  lemma {:induction false} PaddedValue(n: nat, width: nat)
    requires n < Power10(width)
    ensures DecimalValue(Padded(n, width)) == n
  {
    if width > 0 {
      var s := Padded(n, width);
      assert s[..|s| - 1] == Padded(n / 10, width - 1);
      assert n / 10 < Power10(width - 1);
      PaddedValue(n / 10, width - 1);
    }
  }

  /** The DD.MM.YYYY spelling of a date. */
  function FormatDotDate(d: Date): String
    requires 0 <= d.year && 0 <= d.month && 0 <= d.day
  {
    Padded(d.day, 2) + ['.'] + Padded(d.month, 2) + ['.'] + Padded(d.year, 4)
  }

  /** Round trip: every valid date with a four-digit year parses back from its spelling. */
  lemma ParseFormatDotDate(d: Date)
    requires ValidDate(d) && 0 <= d.year <= 9999
    ensures ParseDotDate(FormatDotDate(d)) == Some(d)
  {
    var s := FormatDotDate(d);
    assert s[0..2] == Padded(d.day, 2);
    assert s[3..5] == Padded(d.month, 2);
    assert s[6..10] == Padded(d.year, 4);
    assert Power10(2) == 100 && Power10(4) == 10000;
    PaddedValue(d.day, 2);
    PaddedValue(d.month, 2);
    PaddedValue(d.year, 4);
  }

  lemma {:induction false} PaddedOfDecimalValue(s: String)
    requires AllDigits(s)
    ensures Padded(DecimalValue(s), |s|) == s
  {
    if s != [] {
      var init := s[..|s| - 1];
      PaddedOfDecimalValue(init);
      var v := DecimalValue(s);
      assert v / 10 == DecimalValue(init) && v % 10 == DigitValue(s[|s| - 1]);
      assert s == init + [s[|s| - 1]];
    }
  }

  /** The other direction: a string that parses is the spelling of the date it yields. */
  lemma FormatParseDotDate(s: String)
    requires ParseDotDate(s).Some?
    ensures FormatDotDate(ParseDotDate(s).value) == s
  {
    PaddedOfDecimalValue(s[0..2]);
    PaddedOfDecimalValue(s[3..5]);
    PaddedOfDecimalValue(s[6..10]);
    assert s == s[0..2] + ['.'] + s[3..5] + ['.'] + s[6..10];
  }
}
