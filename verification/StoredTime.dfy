/** The fixed-width timestamp the stale sweep compares as a string. */
module StoredTime {
  import opened Options
  import opened Calendar

  const NANOS_PER_SECOND: nat := 1_000_000_000
  const NANOS_PER_DAY: nat := 86_400_000_000_000

  // A UTC wall-clock reading, as time.Time reports it.
  datatype Civil = Civil(date: Date, hour: nat, minute: nat, second: nat, nano: nat)

  predicate ValidCivil(c: Civil) {
    ValidDate(c.date) && c.hour < 24 && c.minute < 60 && c.second < 60 && c.nano < NANOS_PER_SECOND
  }

  /** Instants are nanoseconds since 0000-01-01T00:00:00Z; these are the ones in
      years 0000 to 9999. */
  predicate InRange(instant: nat) {
    instant < Join(DaysBeforeYear(10000), 0)
  }

  function NanosOfDay(c: Civil): nat {
    c.hour * 3_600_000_000_000 + c.minute * 60_000_000_000 + c.second * 1_000_000_000 + c.nano
  }

  // A day number and the nanoseconds into that day.
  function Join(day: nat, ofDay: nat): nat {
    day * NANOS_PER_DAY + ofDay
  }

  function InstantOf(c: Civil): nat
    requires ValidCivil(c)
  {
    Join(DayNumber(c.date), NanosOfDay(c))
  }

  function ClockOf(date: Date, ofDay: nat): (c: Civil)
    requires ValidDate(date) && ofDay < NANOS_PER_DAY
    ensures ValidCivil(c) && c.date == date && NanosOfDay(c) == ofDay
  {
    var hour := ofDay / 3_600_000_000_000;
    var ofHour := ofDay - hour * 3_600_000_000_000;
    var minute := ofHour / 60_000_000_000;
    var ofMinute := ofHour - minute * 60_000_000_000;
    var second := ofMinute / 1_000_000_000;
    Civil(date, hour, minute, second, ofMinute - second * 1_000_000_000)
  }

  /** The wall-clock reading of an instant. */
  function CivilOf(instant: nat): (c: Civil)
    requires InRange(instant)
    ensures ValidCivil(c) && InstantOf(c) == instant
  {
    var day := instant / NANOS_PER_DAY;
    ClockOf(DateOf(day), instant - day * NANOS_PER_DAY)
  }

  predicate CivilBefore(a: Civil, b: Civil) {
    || DateBefore(a.date, b.date)
    || (a.date == b.date &&
        (a.hour < b.hour || (a.hour == b.hour &&
        (a.minute < b.minute || (a.minute == b.minute &&
        (a.second < b.second || (a.second == b.second && a.nano < b.nano)))))))
  }

  lemma CivilOrder(a: Civil, b: Civil)
    requires ValidCivil(a) && ValidCivil(b)
    ensures CivilBefore(a, b) <==> InstantOf(a) < InstantOf(b)
  {
    DateOrder(a.date, b.date);
    DateOrder(b.date, a.date);
  }

  // ---------------------------------------------------------------------
  // The stored form
  // ---------------------------------------------------------------------

  /** Everything up to the seconds, then whatever the layout puts after them. */
  function Head(c: Civil, tail: string): string
    requires ValidCivil(c)
  {
    Powers();
    Field(c.date.year, 4, '-', Field(c.date.month, 2, '-', Field(c.date.day, 2, 'T',
      Field(c.hour, 2, ':', Field(c.minute, 2, ':', Digits(c.second, 2) + tail)))))
  }

  lemma Powers()
    ensures Pow10(2) == 100 && Pow10(4) == 10000 && Pow10(9) == NANOS_PER_SECOND
  {
    assert Pow10(2) == 100;
    assert Pow10(4) == 100 * Pow10(2);
    assert Pow10(6) == 100 * Pow10(4);
    assert Pow10(8) == 100 * Pow10(6);
  }

  /** FormatStoredTime: always nine fractional digits and a Z. */
  function FormatStoredTime(instant: nat): string
    requires InRange(instant)
  {
    Powers();
    var c := CivilOf(instant);
    Head(c, "." + Field(c.nano, 9, 'Z', ""))
  }

  lemma HeadOrder(a: Civil, b: Civil, s: string, t: string)
    requires ValidCivil(a) && ValidCivil(b)
    ensures Before(Head(a, s), Head(b, t)) <==>
              CivilBefore(a.(nano := 0), b.(nano := 0)) ||
              (a.(nano := 0) == b.(nano := 0) && Before(s, t))
  {
    Powers();
    DigitsOrder(a.second, b.second, 2, s, t);
    var s1, t1 := Digits(a.second, 2) + s, Digits(b.second, 2) + t;
    FieldOrder(a.minute, b.minute, 2, ':', s1, t1);
    var s2, t2 := Field(a.minute, 2, ':', s1), Field(b.minute, 2, ':', t1);
    FieldOrder(a.hour, b.hour, 2, ':', s2, t2);
    var s3, t3 := Field(a.hour, 2, ':', s2), Field(b.hour, 2, ':', t2);
    FieldOrder(a.date.day, b.date.day, 2, 'T', s3, t3);
    var s4, t4 := Field(a.date.day, 2, 'T', s3), Field(b.date.day, 2, 'T', t3);
    FieldOrder(a.date.month, b.date.month, 2, '-', s4, t4);
    var s5, t5 := Field(a.date.month, 2, '-', s4), Field(b.date.month, 2, '-', t4);
    FieldOrder(a.date.year, b.date.year, 4, '-', s5, t5);
  }

  /** The stored form compares, byte for byte, exactly as the instants do. */
  lemma StoredOrderIsTimeOrder(t: nat, u: nat)
    requires InRange(t) && InRange(u)
    ensures Before(FormatStoredTime(t), FormatStoredTime(u)) <==> t < u
    ensures FormatStoredTime(t) == FormatStoredTime(u) <==> t == u
  {
    StoredOrder(t, u);
    StoredOrder(u, t);
    BeforeIsIrreflexive(FormatStoredTime(t));
  }

  lemma StoredOrder(t: nat, u: nat)
    requires InRange(t) && InRange(u)
    ensures Before(FormatStoredTime(t), FormatStoredTime(u)) <==> t < u
  {
    Powers();
    var a, b := CivilOf(t), CivilOf(u);
    FieldOrder(a.nano, b.nano, 9, 'Z', "", "");
    CommonPrefixCancels(".", Field(a.nano, 9, 'Z', ""), Field(b.nano, 9, 'Z', ""));
    HeadOrder(a, b, "." + Field(a.nano, 9, 'Z', ""), "." + Field(b.nano, 9, 'Z', ""));
    CivilOrder(a, b);
  }

  lemma {:induction false} BeforeIsIrreflexive(s: string)
    ensures !Before(s, s)
    decreases |s|
  {
    if s != "" {
      BeforeIsIrreflexive(s[1..]);
    }
  }

  // ---------------------------------------------------------------------
  // Reading timestamps back
  // ---------------------------------------------------------------------

  /** The fraction time.Parse accepts after the seconds, and what is left. Digits
      beyond the ninth are read and ignored. */
  function TakeFraction(s: string): (nat, string) {
    if |s| >= 2 && s[0] == '.' && IsDigit(s[1]) then
      var n := DigitRun(s[1..]);
      (FractionNanos(s[1..n + 1]), s[n + 1..])
    else (0, s)
  }

  function DigitRun(s: string): (n: nat)
    ensures n <= |s| && (forall i :: 0 <= i < n ==> IsDigit(s[i])) && (n < |s| ==> !IsDigit(s[n]))
  {
    if s != "" && IsDigit(s[0]) then
      var rest := DigitRun(s[1..]);
      assert forall i :: 1 <= i <= rest ==> s[i] == s[1..][i - 1];
      rest + 1
    else 0
  }

  function FractionNanos(digits: string): nat
    requires forall i :: 0 <= i < |digits| ==> IsDigit(digits[i])
  {
    if |digits| > 9 then DecimalValue(digits[..9])
    else DecimalValue(digits) * Pow10(9 - |digits|)
  }

  /** The date and clock fields, and the text after the seconds. */
  function TakeHead(s: string): Option<(Civil, string)> {
    var year := TakeField(s, 4, '-');
    if year.None? then None else
    var month := TakeField(year.value.1, 2, '-');
    if month.None? then None else
    var day := TakeField(month.value.1, 2, 'T');
    if day.None? then None else
    var hour := TakeField(day.value.1, 2, ':');
    if hour.None? then None else
    var minute := TakeField(hour.value.1, 2, ':');
    if minute.None? then None else
    var rest := minute.value.1;
    if |rest| < 2 || !IsDigit(rest[0]) || !IsDigit(rest[1]) then None else
    var date := Date(year.value.0, month.value.0, day.value.0);
    Some((Civil(date, hour.value.0, minute.value.0, DecimalValue(rest[..2]), 0), rest[2..]))
  }

  /** time.Parse on an RFC 3339 timestamp in UTC ("Z"), section 5.6 of RFC 3339:
      the instant, or nothing for any malformed or out-of-range text. */
  function ParseRFC3339(s: string): (r: Option<nat>)
    ensures r.Some? ==> InRange(r.value)
  {
    var head := TakeHead(s);
    if head.None? then None else
    var fraction := TakeFraction(head.value.1);
    var c := head.value.0.(nano := fraction.0);
    if fraction.1 != "Z" || !ValidCivil(c) then None else
    CivilInRange(c);
    Some(InstantOf(c))
  }

  lemma CivilInRange(c: Civil)
    requires ValidCivil(c)
    ensures InRange(InstantOf(c))
  {
    MonthsFillTheYear(c.date.year);
    MonthsGrow(c.date.year, c.date.month, 13);
    YearsGrow(c.date.year, 10000);
  }

  /** A value that does not parse is stored unchanged. */
  function NormalizeStoredTime(s: string): string {
    match ParseRFC3339(s)
    case None => s
    case Some(instant) => FormatStoredTime(instant)
  }

  /** protojson's own form: as many fractional digits as asked for, and no point
      at all for none. */
  function ProtoForm(instant: nat, digits: nat): string
    requires InRange(instant) && digits <= 9
  {
    var c := CivilOf(instant);
    Head(c, ProtoTail(c.nano, digits))
  }

  function ProtoTail(nano: nat, digits: nat): string
    requires nano < NANOS_PER_SECOND && digits <= 9
  {
    if digits == 0 then "Z"
    else
      LeadingDigits(nano, digits);
      "." + Field(nano / Pow10(9 - digits), digits, 'Z', "")
  }

  predicate Representable(instant: nat, digits: nat)
    requires InRange(instant) && digits <= 9
  {
    CivilOf(instant).nano % Pow10(9 - digits) == 0
  }

  lemma {:induction false} PowersMultiply(m: nat, n: nat)
    ensures Pow10(m + n) == Pow10(m) * Pow10(n)
    decreases m
  {
    if m > 0 {
      PowersMultiply(m - 1, n);
    }
  }

  lemma LeadingDigits(nano: nat, digits: nat)
    requires nano < NANOS_PER_SECOND && digits <= 9
    ensures nano / Pow10(9 - digits) < Pow10(digits)
  {
    Powers();
    PowersMultiply(digits, 9 - digits);
  }

  lemma HeadReads(c: Civil, tail: string)
    requires ValidCivil(c)
    ensures TakeHead(Head(c, tail)) == Some((c.(nano := 0), tail))
  {
    Powers();
    var s1 := Digits(c.second, 2) + tail;
    var s2 := Field(c.minute, 2, ':', s1);
    var s3 := Field(c.hour, 2, ':', s2);
    var s4 := Field(c.date.day, 2, 'T', s3);
    var s5 := Field(c.date.month, 2, '-', s4);
    TakeFieldReads(c.date.year, 4, '-', s5);
    TakeFieldReads(c.date.month, 2, '-', s4);
    TakeFieldReads(c.date.day, 2, 'T', s3);
    TakeFieldReads(c.hour, 2, ':', s2);
    TakeFieldReads(c.minute, 2, ':', s1);
    assert s1[..2] == Digits(c.second, 2) && s1[2..] == tail;
    DigitsRoundTrip(c.second, 2);
  }

  lemma HeadParses(c: Civil, tail: string)
    requires ValidCivil(c) && TakeFraction(tail) == (c.nano, "Z")
    ensures ParseRFC3339(Head(c, tail)) == Some(InstantOf(c))
  {
    HeadReads(c, tail);
  }

  lemma FractionReads(value: nat, digits: nat)
    requires 1 <= digits <= 9 && value < Pow10(digits)
    ensures TakeFraction("." + Field(value, digits, 'Z', "")) == (value * Pow10(9 - digits), "Z")
  {
    var ds := Digits(value, digits);
    var s := "." + Field(value, digits, 'Z', "");
    assert s[1..] == ds + "Z";
    RunStopsAtZ(ds);
    assert s[1] == ds[0];
    assert s[1..digits + 1] == ds && s[digits + 1..] == "Z";
    DigitsRoundTrip(value, digits);
  }

  lemma RunStopsAtZ(ds: string)
    requires forall i :: 0 <= i < |ds| ==> IsDigit(ds[i])
    ensures DigitRun(ds + "Z") == |ds|
  {
    var s := ds + "Z";
    assert s[|ds|] == 'Z';
    assert forall i :: 0 <= i < |ds| ==> s[i] == ds[i];
  }

  lemma ProtoTailReads(nano: nat, digits: nat)
    requires nano < NANOS_PER_SECOND && digits <= 9 && nano % Pow10(9 - digits) == 0
    ensures TakeFraction(ProtoTail(nano, digits)) == (nano, "Z")
  {
    Powers();
    if digits > 0 {
      LeadingDigits(nano, digits);
      FractionReads(nano / Pow10(9 - digits), digits);
      ExactQuotient(nano, Pow10(9 - digits));
    }
  }

  lemma ExactQuotient(n: nat, unit: nat)
    requires unit > 0 && n % unit == 0
    ensures n / unit * unit == n
  {
  }

  /** Reading a protojson timestamp recovers the instant, however many fractional
      digits it was written with. */
  lemma ProtoFormParses(instant: nat, digits: nat)
    requires InRange(instant) && digits <= 9 && Representable(instant, digits)
    ensures ParseRFC3339(ProtoForm(instant, digits)) == Some(instant)
  {
    var c := CivilOf(instant);
    ProtoTailReads(c.nano, digits);
    HeadParses(c, ProtoTail(c.nano, digits));
  }

  /** Normalising keeps the instant and leaves a normalised value alone. */
  lemma NormalizeKeepsTheInstant(instant: nat, digits: nat)
    requires InRange(instant) && digits <= 9 && Representable(instant, digits)
    ensures NormalizeStoredTime(ProtoForm(instant, digits)) == FormatStoredTime(instant)
    ensures NormalizeStoredTime(FormatStoredTime(instant)) == FormatStoredTime(instant)
  {
    ProtoFormParses(instant, digits);
    assert Pow10(0) == 1;
    assert CivilOf(instant).nano / 1 == CivilOf(instant).nano;
    ProtoFormParses(instant, 9);
  }

  /** So the string filter of the sweep means "older than". */
  lemma SweepFilterMeansOlder(scanned: nat, digits: nat, started: nat)
    requires InRange(scanned) && InRange(started) && digits <= 9 && Representable(scanned, digits)
    ensures Before(NormalizeStoredTime(ProtoForm(scanned, digits)), FormatStoredTime(started)) <==> scanned < started
  {
    NormalizeKeepsTheInstant(scanned, digits);
    StoredOrderIsTimeOrder(scanned, started);
  }

  /** Without normalising it would not: a later instant within the same second,
      written with a fraction, sorts before the whole second. */
  lemma RawFormsMisorder(instant: nat, later: nat, digits: nat)
    requires InRange(instant) && InRange(later) && 1 <= digits <= 9
    requires CivilOf(instant).nano == 0 && instant < later
    requires CivilOf(later).(nano := 0) == CivilOf(instant)
    ensures Before(ProtoForm(later, digits), ProtoForm(instant, 0))
  {
    Powers();
    var c := CivilOf(later);
    HeadOrder(c, CivilOf(instant), ProtoTail(c.nano, digits), "Z");
  }
}
