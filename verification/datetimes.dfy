/** Calendar values and the one date format the datastore reads and writes,
    `%Y-%m-%dT%H:%M:%S`.

    `Strptime` models what Python's `time.strptime` does with that format,
    followed by the `datetime.datetime(...)` construction both callers
    perform: the format becomes the regular expression

      (\d\d\d\d)-(1[0-2]|0[1-9]|[1-9])-(3[01]|[12]\d|0[1-9]|[1-9]| [1-9])
      T(2[0-3]|[0-1]\d|\d):([0-5]\d|\d):(6[0-1]|[0-5]\d|\d)

    compiled case-insensitively and matched at the start of the text. Every
    field but the last is followed by a separator that is not a digit, so at
    most one alternative of such a field can be followed by its separator and
    backtracking never changes the outcome; the last field takes the first
    alternative that matches. Text left after the match is reported as
    "unconverted data"; a match that names no real date (February 30th, year
    0, second 60 or 61) is rejected by the date constructors.
 */
module DateTimes {
  import opened Outcomes
  import opened PyStrings

  datatype DateTime = DateTime(year: int, month: int, day: int,
                               hour: int, minute: int, second: int, microsecond: int)

  predicate IsLeap(y: int)
  {
    y % 4 == 0 && (y % 100 != 0 || y % 400 == 0)
  }

  function DaysInMonth(y: int, m: int): int
  {
    if m == 2 then (if IsLeap(y) then 29 else 28)
    else if m == 4 || m == 6 || m == 9 || m == 11 then 30
    else 31
  }

  /** The values `datetime.datetime` accepts. */
  predicate Valid(dt: DateTime)
  {
    && 1 <= dt.year <= 9999
    && 1 <= dt.month <= 12
    && 1 <= dt.day <= DaysInMonth(dt.year, dt.month)
    && 0 <= dt.hour < 24
    && 0 <= dt.minute < 60
    && 0 <= dt.second < 60
    && 0 <= dt.microsecond < 1000000
  }

  /** `dt.replace(microsecond=0)` */
  function Truncated(dt: DateTime): DateTime
  {
    dt.(microsecond := 0)
  }

  function Digit2(n: int): (s: string)
    requires 0 <= n < 100
    ensures |s| == 2 && IsDigit(s[0]) && IsDigit(s[1])
  {
    [DigitChar(n / 10), DigitChar(n % 10)]
  }

  /** `dt.isoformat(sep)`: `YYYY-MM-DD<sep>HH:MM:SS`, followed by
      `.ffffff` only when the microsecond is not zero. */
  function IsoFormat(dt: DateTime, sep: char): (s: string)
    requires Valid(dt)
    ensures |s| == (if dt.microsecond == 0 then 19 else 26)
  {
    var y := dt.year;
    Digit2(y / 100) + Digit2(y % 100) + ['-']
    + Digit2(dt.month) + ['-'] + Digit2(dt.day) + [sep]
    + Digit2(dt.hour) + [':'] + Digit2(dt.minute) + [':'] + Digit2(dt.second)
    + (if dt.microsecond != 0 then "." + PadDigits(dt.microsecond, 6) else "")
  }

  // ---- the strptime regular expression ----

  datatype Field = Month | Day | Hour | Minute | Second

  /** The two-character alternatives of each field's group. */
  predicate TwoCharAlt(f: Field, a: char, b: char)
  {
    match f
    case Month => (a == '1' && '0' <= b <= '2') || (a == '0' && '1' <= b <= '9')
    case Day => (a == '3' && (b == '0' || b == '1')) || ((a == '1' || a == '2') && IsDigit(b))
                || (a == '0' && '1' <= b <= '9') || (a == ' ' && '1' <= b <= '9')
    case Hour => (a == '2' && '0' <= b <= '3') || ((a == '0' || a == '1') && IsDigit(b))
    case Minute => '0' <= a <= '5' && IsDigit(b)
    case Second => (a == '6' && (b == '0' || b == '1')) || ('0' <= a <= '5' && IsDigit(b))
  }

  /** The one-character alternative of each field's group. */
  predicate OneCharAlt(f: Field, a: char)
  {
    match f
    case Month => '1' <= a <= '9'
    case Day => '1' <= a <= '9'
    case _ => IsDigit(a)
  }

  /** `int()` of a two-character match; the day group admits a leading space. */
  function TwoCharValue(a: char, b: char): int
    requires a == ' ' || IsDigit(a)
    requires IsDigit(b)
  {
    (if a == ' ' then 0 else DigitValue(a)) * 10 + DigitValue(b)
  }

  /** The literal that follows a field in the format; `T` also matches `t`
      because the expression ignores case. */
  predicate IsSeparator(f: Field, c: char)
  {
    match f
    case Month => c == '-'
    case Day => c == 'T' || c == 't'
    case Hour => c == ':'
    case Minute => c == ':'
    case Second => false
  }

  /** A field at position `i` together with the separator after it: its
      value and the position after the separator. */
  function FieldThen(f: Field, s: string, i: nat): (r: Option<(int, nat)>)
    ensures r.Some? ==> i + 2 <= r.value.1 <= |s|
  {
    if i + 2 < |s| && TwoCharAlt(f, s[i], s[i + 1]) && IsSeparator(f, s[i + 2]) then
      Some((TwoCharValue(s[i], s[i + 1]), i + 3))
    else if i + 1 < |s| && OneCharAlt(f, s[i]) && IsSeparator(f, s[i + 1]) then
      Some((DigitValue(s[i]), i + 2))
    else None
  }

  /** The seconds group, last in the expression: the first alternative that
      matches wins. */
  function LastField(s: string, i: nat): (r: Option<(int, nat)>)
    ensures r.Some? ==> i + 1 <= r.value.1 <= |s|
  {
    if i + 1 < |s| && TwoCharAlt(Second, s[i], s[i + 1]) then
      Some((TwoCharValue(s[i], s[i + 1]), i + 2))
    else if i < |s| && IsDigit(s[i]) then
      Some((DigitValue(s[i]), i + 1))
    else None
  }

  /** The four digits of the year group, read as two pairs. */
  function YearValue(s: string): int
    requires |s| >= 4 && IsDigit(s[0]) && IsDigit(s[1]) && IsDigit(s[2]) && IsDigit(s[3])
  {
    TwoCharValue(s[0], s[1]) * 100 + TwoCharValue(s[2], s[3])
  }

  /** The match of the format's expression at the start of `s`: the fields
      read (microsecond 0) and where the match ends. */
  function MatchFormat(s: string): (r: Option<(DateTime, nat)>)
    ensures r.Some? ==> r.value.1 <= |s| && r.value.0.microsecond == 0
  {
    if |s| < 5 || !(IsDigit(s[0]) && IsDigit(s[1]) && IsDigit(s[2]) && IsDigit(s[3]) && s[4] == '-') then None
    else
      match FieldThen(Month, s, 5)
      case None => None
      case Some((mo, i1)) =>
        match FieldThen(Day, s, i1)
        case None => None
        case Some((d, i2)) =>
          match FieldThen(Hour, s, i2)
          case None => None
          case Some((h, i3)) =>
            match FieldThen(Minute, s, i3)
            case None => None
            case Some((mi, i4)) =>
              match LastField(s, i4)
              case None => None
              case Some((sec, i5)) => Some((DateTime(YearValue(s), mo, d, h, mi, sec, 0), i5))
  }

  datatype Parse =
    | Parsed(dt: DateTime)        // the whole text matched and names a real date
    | Unconverted(rest: string)   // ValueError "unconverted data remains: <rest>"
    | Mismatch                    // any other ValueError

  /** `datetime.datetime(*time.strptime(s, "%Y-%m-%dT%H:%M:%S")[0:6])` */
  function Strptime(s: string): (r: Parse)
    ensures r.Parsed? ==> Valid(r.dt) && r.dt.microsecond == 0
    ensures r.Unconverted? ==> 0 < |r.rest| <= |s| && r.rest == s[|s| - |r.rest|..]
  {
    match MatchFormat(s)
    case None => Mismatch
    case Some((dt, end)) =>
      if end < |s| then Unconverted(s[end..])
      else if Valid(dt) then Parsed(dt)
      else Mismatch
  }

  // ---- reading back what isoformat wrote ----

  lemma Digit2Value(n: int)
    requires 0 <= n < 100
    ensures TwoCharValue(Digit2(n)[0], Digit2(n)[1]) == n
  {
  }

  lemma Digit2Fields(n: int, f: Field)
    requires 0 <= n < 100
    requires f == Month ==> 1 <= n <= 12
    requires f == Day ==> 1 <= n <= 31
    requires f == Hour ==> n < 24
    requires f == Minute || f == Second ==> n < 60
    ensures TwoCharAlt(f, Digit2(n)[0], Digit2(n)[1])
    ensures TwoCharValue(Digit2(n)[0], Digit2(n)[1]) == n
  {
  }

  /** Where each field of a whole-second isoformat sits. */
  lemma IsoFormatLayout(dt: DateTime, rest: string)
    requires Valid(dt) && dt.microsecond == 0
    ensures var s := IsoFormat(dt, 'T') + rest;
            && |s| >= 19
            && s[..2] == Digit2(dt.year / 100) && s[2..4] == Digit2(dt.year % 100) && s[4] == '-'
            && s[5..7] == Digit2(dt.month) && s[7] == '-'
            && s[8..10] == Digit2(dt.day) && s[10] == 'T'
            && s[11..13] == Digit2(dt.hour) && s[13] == ':'
            && s[14..16] == Digit2(dt.minute) && s[16] == ':'
            && s[17..19] == Digit2(dt.second)
  {
    var p := IsoFormat(dt, 'T');
    var yh, yl, mo, d := Digit2(dt.year / 100), Digit2(dt.year % 100), Digit2(dt.month), Digit2(dt.day);
    var h, mi, se := Digit2(dt.hour), Digit2(dt.minute), Digit2(dt.second);
    assert p == yh + yl + ['-'] + mo + ['-'] + d + ['T'] + h + [':'] + mi + [':'] + se;
    var s := p + rest;
    assert s[..19] == p;
    assert p[..2] == yh && p[2..4] == yl && p[5..7] == mo && p[8..10] == d;
    assert p[11..13] == h && p[14..16] == mi && p[17..19] == se;
  }

  /** A field written by `Digit2` and followed by its separator is read
      back with the two-character alternative. */
  lemma FieldThenDigit2(f: Field, s: string, i: nat, n: int)
    requires 0 <= n < 100
    requires f == Month ==> 1 <= n <= 12
    requires f == Day ==> 1 <= n <= 31
    requires f == Hour ==> n < 24
    requires f == Minute ==> n < 60
    requires f != Second
    requires i + 2 < |s| && s[i..i + 2] == Digit2(n) && IsSeparator(f, s[i + 2])
    ensures FieldThen(f, s, i) == Some((n, i + 3))
  {
    Digit2Fields(n, f);
    assert s[i] == Digit2(n)[0] && s[i + 1] == Digit2(n)[1];
  }

  lemma LastFieldDigit2(s: string, i: nat, n: int)
    requires 0 <= n < 60
    requires i + 2 <= |s| && s[i..i + 2] == Digit2(n)
    ensures LastField(s, i) == Some((n, i + 2))
  {
    Digit2Fields(n, Second);
    assert s[i] == Digit2(n)[0] && s[i + 1] == Digit2(n)[1];
  }

  lemma YearValueDigits(s: string, y: int)
    requires 0 <= y < 10000
    requires |s| >= 4 && s[..2] == Digit2(y / 100) && s[2..4] == Digit2(y % 100)
    ensures YearValue(s) == y
  {
    Digit2Value(y / 100);
    Digit2Value(y % 100);
    assert s[0] == Digit2(y / 100)[0] && s[1] == Digit2(y / 100)[1];
    assert s[2] == Digit2(y % 100)[0] && s[3] == Digit2(y % 100)[1];
  }

  /** The expression matches exactly the 19 characters an isoformat without
      microseconds writes, whatever follows them, and reads back its fields. */
  lemma MatchIsoFormat(dt: DateTime, rest: string)
    requires Valid(dt) && dt.microsecond == 0
    ensures MatchFormat(IsoFormat(dt, 'T') + rest) == Some((dt, 19))
  {
    var s := IsoFormat(dt, 'T') + rest;
    IsoFormatLayout(dt, rest);
    YearValueDigits(s, dt.year);
    FieldThenDigit2(Month, s, 5, dt.month);
    FieldThenDigit2(Day, s, 8, dt.day);
    FieldThenDigit2(Hour, s, 11, dt.hour);
    FieldThenDigit2(Minute, s, 14, dt.minute);
    LastFieldDigit2(s, 17, dt.second);
  }

  /** strptime reads back what isoformat wrote: the same instant, whole seconds. */
  lemma StrptimeIsoFormat(dt: DateTime)
    requires Valid(dt)
    ensures Strptime(IsoFormat(Truncated(dt), 'T')) == Parsed(Truncated(dt))
  {
    var t := Truncated(dt);
    MatchIsoFormat(t, "");
    assert IsoFormat(t, 'T') + "" == IsoFormat(t, 'T');
  }

  /** Anything after an isoformat's whole seconds is unconverted data. */
  lemma StrptimeIsoFormatRest(dt: DateTime, rest: string)
    requires Valid(dt) && dt.microsecond == 0
    requires |rest| > 0
    ensures Strptime(IsoFormat(dt, 'T') + rest) == Unconverted(rest)
  {
    MatchIsoFormat(dt, rest);
    var s := IsoFormat(dt, 'T') + rest;
    assert s[19..] == rest;
  }
}
