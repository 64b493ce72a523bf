/** Instants and their rendering with the format "%Y-%m-%dT%H:%M:%SZ" that the
    user serializers use for account_created and account_updated. The service
    runs with USE_TZ and TIME_ZONE = 'UTC', so the rendering is in UTC. */
module Timestamps {
  import opened Wrappers
  import opened Text

  /** Seconds since 1970-01-01T00:00:00Z; timezone.now() becomes a value of this type. */
  type Instant = nat

  const SECONDS_PER_DAY: nat := 86400

  datatype DateTime = DateTime(year: nat, month: nat, day: nat, hour: nat, minute: nat, second: nat)

  predicate IsLeapYear(y: nat)
  {
    y % 4 == 0 && (y % 100 != 0 || y % 400 == 0)
  }

  function DaysInYear(y: nat): nat
  {
    if IsLeapYear(y) then 366 else 365
  }

  function DaysInMonth(y: nat, m: nat): nat
    requires 1 <= m <= 12
  {
    if m == 2 then (if IsLeapYear(y) then 29 else 28)
    else if m == 4 || m == 6 || m == 9 || m == 11 then 30
    else 31
  }

  /** Days of year y that lie before the first day of month m (m == 13: the whole year). */
  function DaysBeforeMonth(y: nat, m: nat): (r: nat)
    requires 1 <= m <= 13
    ensures m == 1 ==> r == 0
    ensures m == 13 ==> r == DaysInYear(y)
  {
    var table := [0, 31, 59, 90, 120, 151, 181, 212, 243, 273, 304, 334, 365];
    table[m - 1] + (if IsLeapYear(y) && m > 2 then 1 else 0)
  }

  /** Each month starts where the previous one ends. */
  lemma DaysBeforeNextMonth(y: nat, m: nat)
    requires 1 <= m <= 12
    ensures DaysBeforeMonth(y, m + 1) == DaysBeforeMonth(y, m) + DaysInMonth(y, m)
  {
  }

  predicate ValidDateTime(dt: DateTime)
  {
    && 1 <= dt.month <= 12
    && 1 <= dt.day <= DaysInMonth(dt.year, dt.month)
    && dt.hour < 24 && dt.minute < 60 && dt.second < 60
  }

  /** Days in the years from..to-1. */
  function DaysFrom(from: nat, to: nat): nat
    requires from <= to
    decreases (to as int) - (from as int)
  {
    if from == to then 0 else DaysInYear(from) + DaysFrom(from + 1, to)
  }

  /** The year that day number `days` (counted from 1 January of year y) falls
      in, and the day's index within that year. */
  function YearOf(days: nat, y: nat): (r: (nat, nat))
    ensures r.0 >= y && r.1 < DaysInYear(r.0)
    ensures DaysFrom(y, r.0) + r.1 == days
    decreases days
  {
    if days < DaysInYear(y) then (y, days) else YearOf(days - DaysInYear(y), y + 1)
  }

  /** The month, at most m, that day index doy of year y falls in. */
  function MonthOf(y: nat, doy: nat, m: nat): (r: nat)
    requires 1 <= m <= 12 && doy < DaysBeforeMonth(y, m + 1)
    ensures 1 <= r <= m && DaysBeforeMonth(y, r) <= doy < DaysBeforeMonth(y, r + 1)
    decreases m
  {
    if DaysBeforeMonth(y, m) <= doy then m else DaysBeforeNextMonth(y, m - 1); MonthOf(y, doy, m - 1)
  }

  /** The UTC calendar date and time of an instant. */
  function ToDateTime(t: Instant): (dt: DateTime)
    ensures ValidDateTime(dt) && dt.year >= 1970
  {
    var (y, doy) := YearOf(t / SECONDS_PER_DAY, 1970);
    var m := MonthOf(y, doy, 12);
    var s := t % SECONDS_PER_DAY;
    DaysBeforeNextMonth(y, m);
    ClockBounds(s);
    DateTime(y, m, doy - DaysBeforeMonth(y, m) + 1, s / 3600, s % 3600 / 60, s % 60)
  }

  lemma ClockBounds(s: nat)
    requires s < SECONDS_PER_DAY
    ensures s / 3600 < 24 && s % 3600 / 60 < 60 && s % 60 < 60
  {
  }

  /** The instant of a calendar date and time from 1970 on. */
  function ToInstant(dt: DateTime): Instant
    requires ValidDateTime(dt) && dt.year >= 1970
  {
    (DaysFrom(1970, dt.year) + DaysBeforeMonth(dt.year, dt.month) + dt.day - 1) * SECONDS_PER_DAY
      + dt.hour * 3600 + dt.minute * 60 + dt.second
  }

  /** The calendar conversion loses nothing: every instant is recovered from its date and time. */
  lemma ToDateTimeLossless(t: Instant)
    ensures ToInstant(ToDateTime(t)) == t
  {
    var days := t / SECONDS_PER_DAY;
    var s := t % SECONDS_PER_DAY;
    var (y, doy) := YearOf(days, 1970);
    var m := MonthOf(y, doy, 12);
    assert DaysFrom(1970, y) + DaysBeforeMonth(y, m) + (doy - DaysBeforeMonth(y, m) + 1) - 1 == days;
    assert s / 3600 * 3600 + s % 3600 / 60 * 60 + s % 60 == s;
    assert days * SECONDS_PER_DAY + s == t;
  }

  function Pow10(w: nat): (r: nat)
    ensures r >= 1
  {
    if w == 0 then 1 else 10 * Pow10(w - 1)
  }

  predicate AllDigits(s: string)
  {
    forall i :: 0 <= i < |s| ==> IsDigit(s[i])
  }

  /** The last `width` decimal digits of n, zero-padded (strftime's %Y, %m, %d, %H, %M, %S). */
  function Digits(n: nat, width: nat): (r: string)
    ensures |r| == width && AllDigits(r)
  {
    if width == 0 then "" else Digits(n / 10, width - 1) + [DigitChar(n % 10)]
  }

  /** The number a string of decimal digits spells. */
  function DigitsValue(s: string): nat
    requires AllDigits(s)
  {
    if s == [] then 0 else DigitsValue(s[..|s| - 1]) * 10 + (s[|s| - 1] as int - '0' as int)
  }

  lemma {:induction false} DigitsValueOfDigits(n: nat, width: nat)
    requires n < Pow10(width)
    ensures DigitsValue(Digits(n, width)) == n
  {
    if width > 0 {
      var d := Digits(n, width);
      assert d[..|d| - 1] == Digits(n / 10, width - 1);
      DigitsValueOfDigits(n / 10, width - 1);
    }
  }

  lemma {:induction false} DigitsOfDigitsValue(s: string)
    requires AllDigits(s)
    ensures DigitsValue(s) < Pow10(|s|) && Digits(DigitsValue(s), |s|) == s
  {
    if s != [] {
      var init := s[..|s| - 1];
      DigitsOfDigitsValue(init);
      var v := DigitsValue(s);
      var last := s[|s| - 1] as int - '0' as int;
      assert v / 10 == DigitsValue(init) && v % 10 == last;
      assert s == init + [s[|s| - 1]];
    }
  }

  /** Rendering with "%Y-%m-%dT%H:%M:%SZ". */
  function Format(dt: DateTime): string
  {
    Digits(dt.year, 4) + "-" + Digits(dt.month, 2) + "-" + Digits(dt.day, 2) + "T"
      + Digits(dt.hour, 2) + ":" + Digits(dt.minute, 2) + ":" + Digits(dt.second, 2) + "Z"
  }

  /** The positions of the fixed characters in a rendered timestamp. */
  predicate Separators(s: string)
    requires |s| == 20
  {
    s[4] == '-' && s[7] == '-' && s[10] == 'T' && s[13] == ':' && s[16] == ':' && s[19] == 'Z'
  }

  /** A string laid out as "YYYY-MM-DDTHH:MM:SSZ". */
  predicate WellFormed(s: string)
  {
    && |s| == 20 && Separators(s)
    && AllDigits(s[0..4]) && AllDigits(s[5..7]) && AllDigits(s[8..10])
    && AllDigits(s[11..13]) && AllDigits(s[14..16]) && AllDigits(s[17..19])
  }

  /** Reads back a rendered timestamp. */
  function Parse(s: string): Option<DateTime>
  {
    if WellFormed(s) then
      Some(DateTime(DigitsValue(s[0..4]), DigitsValue(s[5..7]), DigitsValue(s[8..10]),
                    DigitsValue(s[11..13]), DigitsValue(s[14..16]), DigitsValue(s[17..19])))
    else None
  }

  /** Where each field and separator of a rendering sits. */
  lemma FormatFields(dt: DateTime)
    ensures var s := Format(dt);
      && |s| == 20 && Separators(s)
      && s[0..4] == Digits(dt.year, 4) && s[5..7] == Digits(dt.month, 2)
      && s[8..10] == Digits(dt.day, 2) && s[11..13] == Digits(dt.hour, 2)
      && s[14..16] == Digits(dt.minute, 2) && s[17..19] == Digits(dt.second, 2)
  {
    var s := Format(dt);
    assert s[0..4] == Digits(dt.year, 4);
    assert s[5..7] == Digits(dt.month, 2);
    assert s[8..10] == Digits(dt.day, 2);
    assert s[11..13] == Digits(dt.hour, 2);
    assert s[14..16] == Digits(dt.minute, 2);
    assert s[17..19] == Digits(dt.second, 2);
  }

  /** Every rendering has the fixed layout. */
  lemma FormatWellFormed(dt: DateTime)
    ensures WellFormed(Format(dt))
  {
    FormatFields(dt);
  }

  /** Rendering is lossless for dates of four-digit years with valid fields. */
  lemma ParseFormat(dt: DateTime)
    requires ValidDateTime(dt) && dt.year < 10000
    ensures Parse(Format(dt)) == Some(dt)
  {
    var s := Format(dt);
    FormatFields(dt);
    assert Pow10(2) == 100 && Pow10(4) == 10000;
    DigitsValueOfDigits(dt.year, 4);
    DigitsValueOfDigits(dt.month, 2);
    DigitsValueOfDigits(dt.day, 2);
    DigitsValueOfDigits(dt.hour, 2);
    DigitsValueOfDigits(dt.minute, 2);
    DigitsValueOfDigits(dt.second, 2);
    assert WellFormed(s);
  }

  /** Every well-formed string is the rendering of what it parses to. */
  lemma FormatParse(s: string)
    requires Parse(s).Some?
    ensures Format(Parse(s).value) == s
  {
    var p := Parse(s).value;
    DigitsOfDigitsValue(s[0..4]);
    DigitsOfDigitsValue(s[5..7]);
    DigitsOfDigitsValue(s[8..10]);
    DigitsOfDigitsValue(s[11..13]);
    DigitsOfDigitsValue(s[14..16]);
    DigitsOfDigitsValue(s[17..19]);
    FormatFields(p);
    SameLayout(Format(p), s);
  }

  /** Two 20-character strings with the same separators and the same fields are equal. */
  lemma SameLayout(a: string, b: string)
    requires |a| == 20 && |b| == 20 && Separators(a) && Separators(b)
    requires a[0..4] == b[0..4] && a[5..7] == b[5..7] && a[8..10] == b[8..10]
    requires a[11..13] == b[11..13] && a[14..16] == b[14..16] && a[17..19] == b[17..19]
    ensures a == b
  {
    forall k | 0 <= k < 20 ensures a[k] == b[k] {
      if k < 4 { assert a[k] == a[0..4][k] && b[k] == b[0..4][k]; }
      else if 4 < k < 7 { assert a[k] == a[5..7][k - 5] && b[k] == b[5..7][k - 5]; }
      else if 7 < k < 10 { assert a[k] == a[8..10][k - 8] && b[k] == b[8..10][k - 8]; }
      else if 10 < k < 13 { assert a[k] == a[11..13][k - 11] && b[k] == b[11..13][k - 11]; }
      else if 13 < k < 16 { assert a[k] == a[14..16][k - 14] && b[k] == b[14..16][k - 14]; }
      else if 16 < k < 19 { assert a[k] == a[17..19][k - 17] && b[k] == b[17..19][k - 17]; }
    }
  }

  /** The rendering of an instant, as account_created / account_updated appear in responses. */
  function FormatInstant(t: Instant): (r: string)
    ensures WellFormed(r)
  {
    FormatWellFormed(ToDateTime(t));
    Format(ToDateTime(t))
  }

  /** The rendering of any instant before the year 10000 reads back to that same instant. */
  lemma FormatInstantRoundTrip(t: Instant)
    requires ToDateTime(t).year < 10000
    ensures Parse(FormatInstant(t)) == Some(ToDateTime(t))
    ensures ToInstant(Parse(FormatInstant(t)).value) == t
  {
    ParseFormat(ToDateTime(t));
    ToDateTimeLossless(t);
  }
}
