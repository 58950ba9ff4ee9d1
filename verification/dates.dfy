/** Calendar dates as Python's `datetime.date` holds them, the subset of
    `datetime.strptime` the application calls (numeric day, month and year
    fields joined by one separator), and the `strftime` renderings it prints. */
module Dates {
  import opened Wrappers
  import opened Text

  datatype Date = Date(year: int, month: int, day: int)

  /** A date with a time of day, minute precision being all the source prints. */
  datatype DateTime = DateTime(date: Date, hour: int, minute: int)

  predicate IsLeap(y: int) {
    y % 4 == 0 && (y % 100 != 0 || y % 400 == 0)
  }

  function DaysInMonth(y: int, m: int): (n: int)
    requires 1 <= m <= 12
    ensures 28 <= n <= 31
  {
    if m == 2 then (if IsLeap(y) then 29 else 28)
    else if m == 4 || m == 6 || m == 9 || m == 11 then 30
    else 31
  }

  /** What `datetime.date(year, month, day)` accepts. */
  predicate Valid(d: Date) {
    1 <= d.year <= 9999 && 1 <= d.month <= 12 && 1 <= d.day <= DaysInMonth(d.year, d.month)
  }

  predicate ValidDateTime(t: DateTime) {
    Valid(t.date) && 0 <= t.hour < 24 && 0 <= t.minute < 60
  }

  /** A `datetime.date` value: Python cannot build an invalid one. */
  type CalendarDate = d: Date | Valid(d) witness Date(1, 1, 1)

  /** A `datetime.datetime` value. */
  type Timestamp = t: DateTime | ValidDateTime(t) witness DateTime(Date(1, 1, 1), 0, 0)

  /** Python's `<` on dates: by year, then month, then day. */
  predicate Before(a: Date, b: Date) {
    a.year < b.year || (a.year == b.year && (a.month < b.month || (a.month == b.month && a.day < b.day)))
  }

  // ---------------------------------------------------------------- ordinals

  function DaysBeforeYear(y: int): int
    requires y >= 1
  {
    (y - 1) * 365 + (y - 1) / 4 - (y - 1) / 100 + (y - 1) / 400
  }

  function DaysBeforeMonth(y: int, m: int): (n: int)
    requires 1 <= m <= 12
    ensures n >= 0
  {
    if m == 1 then 0 else DaysBeforeMonth(y, m - 1) + DaysInMonth(y, m - 1)
  }

  /** `date.toordinal()`: day 1 is 0001-01-01, so `(a - b).days` is
      `Ordinal(a) - Ordinal(b)`. */
  function Ordinal(d: Date): int
    requires Valid(d)
  {
    DaysBeforeYear(d.year) + DaysBeforeMonth(d.year, d.month) + d.day
  }

  lemma {:induction false} DaysBeforeMonthGrows(y: int, m1: int, m2: int)
    requires 1 <= m1 < m2 <= 12
    ensures DaysBeforeMonth(y, m1) + DaysInMonth(y, m1) <= DaysBeforeMonth(y, m2)
    decreases m2 - m1
  {
    if m1 + 1 < m2 {
      DaysBeforeMonthGrows(y, m1 + 1, m2);
    }
  }

  lemma DaysInYear(y: int)
    ensures DaysBeforeMonth(y, 12) + 31 == if IsLeap(y) then 366 else 365
  {
    var feb := if IsLeap(y) then 29 else 28;
    assert DaysBeforeMonth(y, 2) == 31;
    assert DaysBeforeMonth(y, 3) == 31 + feb;
    assert DaysBeforeMonth(y, 4) == 62 + feb;
    assert DaysBeforeMonth(y, 5) == 92 + feb;
    assert DaysBeforeMonth(y, 6) == 123 + feb;
    assert DaysBeforeMonth(y, 7) == 153 + feb;
    assert DaysBeforeMonth(y, 8) == 184 + feb;
    assert DaysBeforeMonth(y, 9) == 215 + feb;
    assert DaysBeforeMonth(y, 10) == 245 + feb;
    assert DaysBeforeMonth(y, 11) == 276 + feb;
    assert DaysBeforeMonth(y, 12) == 306 + feb;
  }

  lemma NextYear(y: int)
    requires y >= 1
    ensures DaysBeforeYear(y + 1) == DaysBeforeYear(y) + (if IsLeap(y) then 366 else 365)
  {
    assert y / 4 == (y - 1) / 4 + (if y % 4 == 0 then 1 else 0);
    assert y / 100 == (y - 1) / 100 + (if y % 100 == 0 then 1 else 0);
    assert y / 400 == (y - 1) / 400 + (if y % 400 == 0 then 1 else 0);
  }

  lemma {:induction false} DaysBeforeYearGrows(y1: int, y2: int)
    requires 1 <= y1 < y2
    ensures DaysBeforeYear(y1) + (if IsLeap(y1) then 366 else 365) <= DaysBeforeYear(y2)
    decreases y2 - y1
  {
    NextYear(y1);
    if y1 + 1 < y2 {
      DaysBeforeYearGrows(y1 + 1, y2);
      NextYear(y1 + 1);
    }
  }

  /** The calendar order and the day-number order agree: an earlier date has a
      smaller ordinal, so day differences are positive exactly when dates are
      ordered. */
  lemma OrdinalMonotone(a: Date, b: Date)
    requires Valid(a) && Valid(b) && Before(a, b)
    ensures Ordinal(a) < Ordinal(b)
  {
    if a.year < b.year {
      DaysInYear(a.year);
      if a.month < 12 {
        DaysBeforeMonthGrows(a.year, a.month, 12);
      }
      assert DaysBeforeMonth(a.year, a.month) + a.day <= DaysBeforeMonth(a.year, 12) + 31;
      DaysBeforeYearGrows(a.year, b.year);
    } else if a.month < b.month {
      DaysBeforeMonthGrows(a.year, a.month, b.month);
    }
  }

  // ---------------------------------------------------------------- parsing

  /** The formats the source passes to `strptime`: `%Y<sep>%m<sep>%d`,
      `%d<sep>%m<sep>%Y` and `%m<sep>%d<sep>%Y`. */
  datatype Format = Ymd(sep: char) | Dmy(sep: char) | Mdy(sep: char)

  const Iso := Ymd('-')

  /** Position of the first `c` in `s`. */
  function IndexOf(s: string, c: char): (r: Option<nat>)
    ensures r.Some? ==> r.value < |s| && s[r.value] == c && c !in s[..r.value]
    ensures r.None? ==> c !in s
  {
    if |s| == 0 then None
    else if s[0] == c then Some(0)
    else match IndexOf(s[1..], c)
      case None => None
      case Some(i) =>
        assert s[..i + 1] == [s[0]] + s[1..][..i];
        Some(i + 1)
  }

  lemma IndexOfAt(s: string, c: char, i: nat)
    requires i < |s| && s[i] == c
    requires forall k :: 0 <= k < i ==> s[k] != c
    ensures IndexOf(s, c) == Some(i)
  {
    var r := IndexOf(s, c);
    assert s[i] in s;
  }

  /** The three pieces of `s` around its first two occurrences of `sep`. */
  function Fields(s: string, sep: char): (r: Option<(string, string, string)>)
    ensures r.Some? ==> r.value.0 + [sep] + r.value.1 + [sep] + r.value.2 == s
  {
    match IndexOf(s, sep)
    case None => None
    case Some(i) =>
      var rest := s[i + 1..];
      match IndexOf(rest, sep)
      case None => None
      case Some(j) =>
        assert s == s[..i] + [sep] + rest;
        assert rest == rest[..j] + [sep] + rest[j + 1..];
        Some((s[..i], rest[..j], rest[j + 1..]))
  }

  /** `%Y`: exactly four digits. */
  predicate YearField(f: string) {
    |f| == 4 && AllDigits(f)
  }

  /** `%m` and `%d`: one or two digits. */
  predicate ShortField(f: string) {
    1 <= |f| <= 2 && AllDigits(f)
  }

  /** The date written by year, month and day fields, if the fields have the
      right shape and name a real calendar day. */
  function FromFields(y: string, m: string, d: string): (r: Option<CalendarDate>)
    ensures r.Some? ==> YearField(y) && ShortField(m) && ShortField(d)
    ensures r.Some? ==> r.value == Date(DigitsValue(y), DigitsValue(m), DigitsValue(d))
  {
    if YearField(y) && ShortField(m) && ShortField(d) then
      var date := Date(DigitsValue(y), DigitsValue(m), DigitsValue(d));
      if Valid(date) then Some(date) else None
    else None
  }

  /** `datetime.strptime(s, fmt).date()`, `None` standing for `ValueError`. */
  function Parse(s: string, f: Format): (r: Option<CalendarDate>)
    ensures r.Some? ==> Fields(s, f.sep).Some?
  {
    match Fields(s, f.sep)
    case None => None
    case Some((a, b, c)) =>
      match f
      case Ymd(_) => FromFields(a, b, c)
      case Dmy(_) => FromFields(c, b, a)
      case Mdy(_) => FromFields(c, a, b)
  }

  /** A text any format accepts is made of digits and that format's separator
      only. */
  lemma ParseShape(s: string, f: Format)
    requires Parse(s, f).Some?
    requires !IsDigit(f.sep)
    ensures forall i :: 0 <= i < |s| ==> IsDigit(s[i]) || s[i] == f.sep
  {
    var (a, b, c) := Fields(s, f.sep).value;
    assert AllDigits(a) && AllDigits(b) && AllDigits(c);
    assert s == a + [f.sep] + b + [f.sep] + c;
    forall i | 0 <= i < |s|
      ensures IsDigit(s[i]) || s[i] == f.sep
    {
      if i < |a| {
        assert s[i] == a[i];
      } else if i == |a| {
      } else if i < |a| + 1 + |b| {
        assert s[i] == b[i - |a| - 1];
      } else if i == |a| + 1 + |b| {
      } else {
        assert s[i] == c[i - |a| - 2 - |b|];
      }
    }
  }

  /** A day-first text has no `-`, so the ISO reading refuses it. */
  lemma DayFirstIsNotIso(s: string)
    requires Parse(s, Dmy('/')).Some?
    ensures Parse(s, Iso).None?
  {
    ParseShape(s, Dmy('/'));
    assert '-' !in s;
  }

  /** Index of the first format that accepts `s`, or `|formats|` if none does. */
  function FirstAccepting(s: string, formats: seq<Format>): (k: nat)
    ensures k <= |formats|
    ensures forall j :: 0 <= j < k ==> Parse(s, formats[j]).None?
    ensures k < |formats| ==> Parse(s, formats[k]).Some?
  {
    if |formats| == 0 || Parse(s, formats[0]).Some? then 0
    else
      var k := FirstAccepting(s, formats[1..]);
      assert forall j :: 1 <= j <= k ==> formats[j] == formats[1..][j - 1];
      1 + k
  }

  /** The loop `for fmt in formats: try: return strptime(s, fmt) except
      ValueError: continue` followed by `return None`: the first format that
      accepts `s` decides, and `None` means every format refused it. */
  function ParseFirst(s: string, formats: seq<Format>): (r: Option<CalendarDate>)
    ensures r.None? <==> forall k :: 0 <= k < |formats| ==> Parse(s, formats[k]).None?
    ensures r.Some? ==> exists k :: (0 <= k < |formats| && Parse(s, formats[k]) == r
      && forall j :: 0 <= j < k ==> Parse(s, formats[j]).None?)
  {
    var k := FirstAccepting(s, formats);
    if k < |formats| then
      assert Parse(s, formats[k]) == Parse(s, formats[k]);
      Parse(s, formats[k])
    else None
  }

  /** With two formats, the second is tried only when the first refuses. */
  lemma ParseFirstPair(s: string, f: Format, g: Format)
    ensures ParseFirst(s, [f, g]) == if Parse(s, f).Some? then Parse(s, f) else Parse(s, g)
  {
    var fs := [f, g];
    if Parse(s, f).None? {
      assert fs[1..] == [g];
      assert FirstAccepting(s, fs) == 1 + FirstAccepting(s, [g]);
    }
  }

  // ---------------------------------------------------------------- rendering

  /** `strftime('%d/%m/%Y')`; the year is printed without padding, as the C
      library does for `%Y`. */
  function FormatDmy(d: CalendarDate): string {
    Pad2(d.day) + "/" + Pad2(d.month) + "/" + NatToString(d.year)
  }

  /** `strftime('%d/%m/%Y %H:%M')`. */
  function FormatDateTime(t: Timestamp): string {
    FormatDmy(t.date) + " " + Pad2(t.hour) + ":" + Pad2(t.minute)
  }

  /** A four-digit-year date printed by `FormatDmy` is read back unchanged by
      the day-first parser: the printed form and the form the application
      accepts agree. */
  lemma FormatDmyRoundTrip(d: CalendarDate)
    requires d.year >= 1000
    ensures Parse(FormatDmy(d), Dmy('/')) == Some(d)
  {
    var dd, mm, yy := Pad2(d.day), Pad2(d.month), NatToString(d.year);
    NatToStringLength(d.year, 4);
    NatToStringValue(d.year);
    var s := FormatDmy(d);
    assert s == dd + ['/'] + (mm + ['/'] + yy);
    SplitAtSeparator(dd, '/', mm + ['/'] + yy);
    SplitAtSeparator(mm, '/', yy);
    assert Fields(s, '/') == Some((dd, mm, yy));
  }

  /** In a digits-only piece followed by a separator, the first separator is
      the one after the piece, and the text splits there. */
  lemma SplitAtSeparator(a: string, sep: char, b: string)
    requires AllDigits(a) && !IsDigit(sep)
    ensures IndexOf(a + [sep] + b, sep) == Some(|a|)
    ensures (a + [sep] + b)[..|a|] == a && (a + [sep] + b)[|a| + 1..] == b
  {
    var s := a + [sep] + b;
    assert s[|a|] == sep;
    forall k | 0 <= k < |a|
      ensures s[k] != sep
    {
      assert s[k] == a[k];
    }
    IndexOfAt(s, sep, |a|);
    assert s[..|a|] == a;
    assert s[|a| + 1..] == b;
  }

  /** `date.isoformat()`: `YYYY-MM-DD`, the year padded to four digits. */
  function FormatIso(d: CalendarDate): string {
    Pad4(d.year) + "-" + Pad2(d.month) + "-" + Pad2(d.day)
  }

  /** Zero-padded four-digit rendering. */
  function Pad4(n: nat): (r: string)
    requires n < 10000
    ensures |r| == 4 && AllDigits(r) && DigitsValue(r) == n
  {
    DigitsValueSnoc([], n / 1000);
    var a := [DigitChar(n / 1000)];
    DigitsValueSnoc(a, n / 100 % 10);
    var b := a + [DigitChar(n / 100 % 10)];
    DigitsValueSnoc(b, n / 10 % 10);
    var c := b + [DigitChar(n / 10 % 10)];
    DigitsValueSnoc(c, n % 10);
    assert n / 1000 * 10 + n / 100 % 10 == n / 100;
    assert n / 100 * 10 + n / 10 % 10 == n / 10;
    c + [DigitChar(n % 10)]
  }

  /** Every date printed in ISO form is read back unchanged by the ISO parser,
      whatever its year. */
  lemma FormatIsoRoundTrip(d: CalendarDate)
    ensures Parse(FormatIso(d), Iso) == Some(d)
  {
    var yy, mm, dd := Pad4(d.year), Pad2(d.month), Pad2(d.day);
    var s := FormatIso(d);
    assert s == yy + ['-'] + (mm + ['-'] + dd);
    SplitAtSeparator(yy, '-', mm + ['-'] + dd);
    SplitAtSeparator(mm, '-', dd);
    assert Fields(s, '-') == Some((yy, mm, dd));
  }
}
