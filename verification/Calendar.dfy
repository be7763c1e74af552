/** Byte order on strings, zero-padded decimal fields, and the proleptic
    Gregorian calendar: what a stored timestamp is made of. */
module Calendar {
  import opened Options

  // ---------------------------------------------------------------------
  // Byte order and decimal fields
  // ---------------------------------------------------------------------

  /** Byte-for-byte string order, which is how the database compares strings. */
  predicate Before(a: string, b: string)
    decreases |a|
  {
    b != "" && (a == "" || a[0] < b[0] || (a[0] == b[0] && Before(a[1..], b[1..])))
  }

  lemma {:induction false} CommonPrefixCancels(p: string, a: string, b: string)
    ensures Before(p + a, p + b) <==> Before(a, b)
    decreases |p|
  {
    if p == "" {
      assert p + a == a && p + b == b;
    } else {
      CommonPrefixCancels(p[1..], a, b);
      assert (p + a)[1..] == p[1..] + a && (p + b)[1..] == p[1..] + b;
    }
  }

  function Pow10(n: nat): (p: nat)
    ensures p > 0
  {
    if n == 0 then 1 else 10 * Pow10(n - 1)
  }

  predicate IsDigit(c: char) { '0' <= c <= '9' }

  function DigitChar(d: nat): (c: char)
    requires d < 10
    ensures IsDigit(c) && c as int - '0' as int == d
  {
    '0' + d as char
  }

  /** n in decimal, zero-padded to exactly `width` digits. */
  function Digits(n: nat, width: nat): (s: string)
    requires n < Pow10(width)
    ensures |s| == width && forall i :: 0 <= i < |s| ==> IsDigit(s[i])
    decreases width
  {
    if width == 0 then "" else Digits(n / 10, width - 1) + [DigitChar(n % 10)]
  }

  function DecimalValue(s: string): (n: nat)
    requires forall i :: 0 <= i < |s| ==> IsDigit(s[i])
    ensures n < Pow10(|s|)
    decreases |s|
  {
    if s == "" then 0
    else
      assert IsDigit(s[|s| - 1]);
      10 * DecimalValue(s[..|s| - 1]) + (s[|s| - 1] as int - '0' as int)
  }

  lemma {:induction false} DigitsRoundTrip(n: nat, width: nat)
    requires n < Pow10(width)
    ensures DecimalValue(Digits(n, width)) == n
    decreases width
  {
    if width > 0 {
      DigitsRoundTrip(n / 10, width - 1);
      assert Digits(n, width)[..width - 1] == Digits(n / 10, width - 1);
    }
  }

  lemma {:induction false} ValueRoundTrip(s: string)
    requires forall i :: 0 <= i < |s| ==> IsDigit(s[i])
    ensures Digits(DecimalValue(s), |s|) == s
    decreases |s|
  {
    if s != "" {
      ValueRoundTrip(s[..|s| - 1]);
      assert s == s[..|s| - 1] + [s[|s| - 1]];
    }
  }

  /** Padded numbers of one width compare as the numbers do; what follows them
      decides only between equal numbers. */
  lemma {:induction false} DigitsOrder(m: nat, n: nat, width: nat, s: string, t: string)
    requires m < Pow10(width) && n < Pow10(width)
    ensures Before(Digits(m, width) + s, Digits(n, width) + t) <==> m < n || (m == n && Before(s, t))
    decreases width
  {
    if width == 0 {
      assert Digits(m, 0) + s == s && Digits(n, 0) + t == t;
    } else {
      var c, d := DigitChar(m % 10), DigitChar(n % 10);
      DigitsOrder(m / 10, n / 10, width - 1, [c] + s, [d] + t);
      assert Digits(m, width) + s == Digits(m / 10, width - 1) + ([c] + s);
      assert Digits(n, width) + t == Digits(n / 10, width - 1) + ([d] + t);
      assert ([c] + s)[1..] == s && ([d] + t)[1..] == t;
      assert Before([c] + s, [d] + t) <==> m % 10 < n % 10 || (m % 10 == n % 10 && Before(s, t));
    }
  }

  /** One fixed-width field and the separator that closes it. */
  function Field(n: nat, width: nat, separator: char, rest: string): string
    requires n < Pow10(width)
  {
    Digits(n, width) + ([separator] + rest)
  }

  lemma FieldOrder(m: nat, n: nat, width: nat, separator: char, s: string, t: string)
    requires m < Pow10(width) && n < Pow10(width)
    ensures Before(Field(m, width, separator, s), Field(n, width, separator, t)) <==>
              m < n || (m == n && Before(s, t))
  {
    DigitsOrder(m, n, width, [separator] + s, [separator] + t);
    CommonPrefixCancels([separator], s, t);
  }

  /** Reads back one field; fails on a missing digit or another separator. */
  function TakeField(s: string, width: nat, separator: char): (r: Option<(nat, string)>)
    ensures r.Some? ==> r.value.0 < Pow10(width) && s == Field(r.value.0, width, separator, r.value.1)
  {
    if |s| > width && (forall i :: 0 <= i < width ==> IsDigit(s[i])) && s[width] == separator then
      ValueRoundTrip(s[..width]);
      assert s == s[..width] + ([s[width]] + s[width + 1..]);
      Some((DecimalValue(s[..width]), s[width + 1..]))
    else None
  }

  lemma TakeFieldReads(n: nat, width: nat, separator: char, rest: string)
    requires n < Pow10(width)
    ensures TakeField(Field(n, width, separator, rest), width, separator) == Some((n, rest))
  {
    var s := Field(n, width, separator, rest);
    assert s[..width] == Digits(n, width);
    assert s[width] == separator && s[width + 1..] == rest;
    DigitsRoundTrip(n, width);
  }

  // ---------------------------------------------------------------------
  // Dates
  // ---------------------------------------------------------------------

  datatype Date = Date(year: nat, month: nat, day: nat)

  predicate IsLeap(year: nat) {
    year % 4 == 0 && (year % 100 != 0 || year % 400 == 0)
  }

  function YearLength(year: nat): nat {
    if IsLeap(year) then 366 else 365
  }

  function DaysInMonth(year: nat, month: nat): nat {
    if month == 2 then (if IsLeap(year) then 29 else 28)
    else if month == 4 || month == 6 || month == 9 || month == 11 then 30
    else 31
  }

  predicate ValidDate(d: Date) {
    d.year <= 9999 && 1 <= d.month <= 12 && 1 <= d.day <= DaysInMonth(d.year, d.month)
  }

  /** Days from 0000-01-01 to the first of January. */
  function DaysBeforeYear(year: nat): nat {
    if year == 0 then 0 else DaysBeforeYear(year - 1) + YearLength(year - 1)
  }

  function DaysBeforeMonth(year: nat, month: nat): nat
    requires month >= 1
  {
    if month == 1 then 0 else DaysBeforeMonth(year, month - 1) + DaysInMonth(year, month - 1)
  }

  /** Days since 0000-01-01. */
  function DayNumber(d: Date): nat
    requires ValidDate(d)
  {
    DaysBeforeYear(d.year) + DaysBeforeMonth(d.year, d.month) + (d.day - 1)
  }

  // How many multiples of m lie below a year.
  function MultiplesBelow(year: nat, m: nat): nat
    requires m > 0
  {
    if year % m == 0 then year / m else year / m + 1
  }

  lemma DivisionStep(year: nat, m: nat)
    requires m > 1
    ensures MultiplesBelow(year + 1, m) == MultiplesBelow(year, m) + if year % m == 0 then 1 else 0
  {
    var q, r := year / m, year % m;
    assert year == q * m + r && 0 <= r < m;
    if r + 1 < m {
      DivisionIs(year + 1, m, q, r + 1);
    } else {
      assert (q + 1) * m == q * m + m;
      DivisionIs(year + 1, m, q + 1, 0);
    }
  }

  lemma DivisionIs(n: nat, m: nat, q: nat, r: nat)
    requires m > 0 && n == q * m + r && r < m
    ensures n / m == q && n % m == r
  {
    assert n == (n / m) * m + n % m;
    MultiplesAreApart(n / m, q, m);
    MultiplesAreApart(q, n / m, m);
  }

  lemma {:induction false} MultiplesAreApart(a: nat, b: nat, m: nat)
    ensures a < b ==> a * m + m <= b * m
    decreases b
  {
    if a < b {
      MultiplesAreApart(a, b - 1, m);
      assert b * m == (b - 1) * m + m;
    }
  }

  lemma CenturiesAreFours(year: nat)
    ensures (year % 400 == 0 ==> year % 100 == 0) && (year % 100 == 0 ==> year % 4 == 0)
  {
    if year % 400 == 0 {
      assert year == year / 400 * 400;
      DivisionIs(year, 100, year / 400 * 4, 0);
    }
    if year % 100 == 0 {
      assert year == year / 100 * 100;
      DivisionIs(year, 4, year / 100 * 25, 0);
    }
  }

  /** The Gregorian count: 365 days a year and one more for every leap year, which
      is every fourth but for three in four hundreds. */
  lemma {:induction false} GregorianCount(year: nat)
    ensures DaysBeforeYear(year) ==
      365 * year + MultiplesBelow(year, 4) - MultiplesBelow(year, 100) + MultiplesBelow(year, 400)
    decreases year
  {
    if year > 0 {
      hide MultiplesBelow;
      GregorianCount(year - 1);
      DivisionStep(year - 1, 4);
      DivisionStep(year - 1, 100);
      DivisionStep(year - 1, 400);
      CenturiesAreFours(year - 1);
    } else {
      assert DaysBeforeYear(0) == 0;
    }
  }

  lemma {:induction false} YearsGrow(a: nat, b: nat)
    requires a < b
    ensures DaysBeforeYear(a) + YearLength(a) <= DaysBeforeYear(b)
    decreases b
  {
    if a < b - 1 {
      YearsGrow(a, b - 1);
    }
  }

  lemma {:induction false} MonthsGrow(year: nat, a: nat, b: nat)
    requires 1 <= a < b
    ensures DaysBeforeMonth(year, a) + DaysInMonth(year, a) <= DaysBeforeMonth(year, b)
    decreases b
  {
    if a < b - 1 {
      MonthsGrow(year, a, b - 1);
    }
  }

  lemma MonthsFillTheYear(year: nat)
    ensures DaysBeforeMonth(year, 13) == YearLength(year)
  {
    assert DaysBeforeMonth(year, 1) == 0 && DaysBeforeMonth(year, 2) == 31;
    assert DaysBeforeMonth(year, 3) == 31 + DaysInMonth(year, 2);
    assert DaysBeforeMonth(year, 5) == DaysBeforeMonth(year, 3) + 61;
    assert DaysBeforeMonth(year, 7) == DaysBeforeMonth(year, 5) + 61;
    assert DaysBeforeMonth(year, 9) == DaysBeforeMonth(year, 7) + 62;
    assert DaysBeforeMonth(year, 11) == DaysBeforeMonth(year, 9) + 61;
    assert DaysBeforeMonth(year, 13) == DaysBeforeMonth(year, 11) + 61;
  }

  predicate DateBefore(a: Date, b: Date) {
    a.year < b.year ||
    (a.year == b.year && (a.month < b.month || (a.month == b.month && a.day < b.day)))
  }

  /** Field-by-field order on dates is day order. */
  lemma DateOrder(a: Date, b: Date)
    requires ValidDate(a) && ValidDate(b)
    ensures DateBefore(a, b) <==> DayNumber(a) < DayNumber(b)
  {
    if DateBefore(a, b) {
      EarlierDate(a, b);
    } else if a != b {
      EarlierDate(b, a);
    }
  }

  lemma EarlierDate(a: Date, b: Date)
    requires ValidDate(a) && ValidDate(b) && DateBefore(a, b)
    ensures DayNumber(a) < DayNumber(b)
  {
    if a.year < b.year {
      YearsGrow(a.year, b.year);
      MonthsFillTheYear(a.year);
      MonthsGrow(a.year, a.month, 13);
    } else if a.month < b.month {
      MonthsGrow(a.year, a.month, b.month);
    }
  }

  // The calendar walk that turns a day number back into a date.
  function YearOf(days: nat, year: nat): (y: nat)
    requires DaysBeforeYear(year) <= days
    ensures DaysBeforeYear(y) <= days < DaysBeforeYear(y + 1)
    decreases days - DaysBeforeYear(year)
  {
    if days < DaysBeforeYear(year + 1) then year else YearOf(days, year + 1)
  }

  function MonthOf(year: nat, days: nat, month: nat): (m: nat)
    requires 1 <= month <= 12 && DaysBeforeMonth(year, month) <= days < DaysBeforeMonth(year, 13)
    ensures month <= m <= 12
    ensures DaysBeforeMonth(year, m) <= days < DaysBeforeMonth(year, m) + DaysInMonth(year, m)
    decreases 12 - month
  {
    if days < DaysBeforeMonth(year, month) + DaysInMonth(year, month) then month
    else MonthOf(year, days, month + 1)
  }

  /** The calendar date of a day number in years 0000 to 9999. */
  function DateOf(days: nat): (d: Date)
    requires days < DaysBeforeYear(10000)
    ensures ValidDate(d) && DayNumber(d) == days
  {
    var y := YearOf(days, 0);
    YearInRange(y, days);
    MonthsFillTheYear(y);
    var m := MonthOf(y, days - DaysBeforeYear(y), 1);
    Date(y, m, days - DaysBeforeYear(y) - DaysBeforeMonth(y, m) + 1)
  }

  lemma YearInRange(y: nat, days: nat)
    requires DaysBeforeYear(y) <= days < DaysBeforeYear(10000)
    ensures y <= 9999
  {
  }
}
