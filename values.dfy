/**
  The synthetic values of `get_data` and the text the csv writer turns them into.
  The three random draws `get_data` may make (a day offset, five letters, an
  integer) arrive as a `Draws` value, whose type states the ranges the random
  module guarantees.
 */
module Values {
  import opened Text

  datatype Option<T> = None | Some(value: T)

  const DaysInWindow: nat := 365
  const MinInteger: int := 1000
  const MaxInteger: int := 2000
  const TextLength: nat := 5

  /** A whole-day offset from 2014-01-01 00:00:00 inside the one-year window. */
  type DayOffset = d: nat | d < DaysInWindow

  /** A cell value: an integer, a string (generated text or the row id `str(i)`), or a date. */
  datatype Value = Int(n: int) | Str(s: string) | Date(day: DayOffset)

  /** What `randrange(0, 365)`, `choices(letters, k=5)` and `randint(1000, 2000)` returned. */
  datatype RawDraws = RawDraws(dayOffset: int, letters: string, number: int)

  predicate WithinDrawRanges(d: RawDraws) {
    && 0 <= d.dayOffset < DaysInWindow
    && |d.letters| == TextLength
    && (forall k :: 0 <= k < |d.letters| ==> IsAsciiLetter(d.letters[k]))
    && MinInteger <= d.number <= MaxInteger
  }

  type Draws = d: RawDraws | WithinDrawRanges(d) witness RawDraws(0, "aaaaa", 1000)

  /** The declared column type a value belongs to. */
  function TypeName(v: Value): string {
    match v
    case Int(_) => "INTEGER"
    case Str(_) => "TEXT"
    case Date(_) => "DATE"
  }

  /** The bounds a generated value keeps. */
  predicate Generated(v: Value) {
    match v
    case Int(n) => MinInteger <= n <= MaxInteger
    case Str(s) => |s| == TextLength && forall k :: 0 <= k < |s| ==> IsAsciiLetter(s[k])
    case Date(d) => true
  }

  /**
    `get_data(column_data_type, is_null)`: a DATE whatever `isNull` says, TEXT or
    INTEGER only when `isNull` is false, and nothing for any other type name.
   */
  function GetData(columnType: string, isNull: bool, draws: Draws): (r: Option<Value>)
    ensures r.None? <==> columnType != "DATE" && (isNull || (columnType != "TEXT" && columnType != "INTEGER"))
    ensures r.Some? ==> TypeName(r.value) == columnType && Generated(r.value)
  {
    if columnType == "DATE" then Some(Date(draws.dayOffset))
    else if columnType == "TEXT" && !isNull then Some(Str(draws.letters))
    else if columnType == "INTEGER" && !isNull then Some(Int(draws.number))
    else None
  }

  // ---------------------------------------------------------------------------
  // Calendar of 2014 (not a leap year), for "%Y-%m-%d %H:%M:%S" of a day offset.

  const MonthLengths: seq<nat> := [31, 28, 31, 30, 31, 30, 31, 31, 30, 31, 30, 31]

  /** Days of 2014 before the first day of the month with 0-based index `m`. */
  function DaysBefore(m: nat): nat
    requires m <= 12
  {
    if m == 0 then 0 else DaysBefore(m - 1) + MonthLengths[m - 1]
  }

  lemma DaysBeforeYear()
    ensures DaysBefore(12) == DaysInWindow
  {
    assert DaysBefore(3) == 90;
    assert DaysBefore(6) == 181;
    assert DaysBefore(9) == 273;
  }

  /** Later months start strictly later. */
  lemma {:induction false} DaysBeforeGrows(m: nat, m': nat)
    requires m < m' <= 12
    ensures DaysBefore(m) + MonthLengths[m] <= DaysBefore(m')
    decreases m' - m
  {
    if m + 1 < m' {
      DaysBeforeGrows(m + 1, m');
    }
  }

  /** The 0-based month holding day offset `day`, searching from month index `m`. */
  function MonthIndex(day: nat, m: nat): (r: nat)
    requires m < 12 && DaysBefore(m) <= day < DaysInWindow
    ensures m <= r < 12 && DaysBefore(r) <= day < DaysBefore(r + 1)
    decreases 12 - m
  {
    if day < DaysBefore(m + 1) then m
    else
      DaysBeforeYear();
      MonthIndex(day, m + 1)
  }

  /** Calendar month (1-12) of the day `day` days after 2014-01-01. */
  function MonthOf(day: DayOffset): (m: nat)
    ensures 1 <= m <= 12
  {
    MonthIndex(day, 0) + 1
  }

  /** Day of the month (1-31) of the day `day` days after 2014-01-01. */
  function DayOfMonth(day: DayOffset): (d: nat)
    ensures 1 <= d <= 31
  {
    var m := MonthIndex(day, 0);
    assert DaysBefore(m + 1) == DaysBefore(m) + MonthLengths[m];
    MonthLengthsBound(m);
    day - DaysBefore(m) + 1
  }

  lemma MonthLengthsBound(m: nat)
    requires m < 12
    ensures MonthLengths[m] <= 31
  {
  }

  /** The day offset from 2014-01-01 of a calendar date of 2014. */
  function DayOfYear(month: nat, dayOfMonth: nat): int
    requires 1 <= month <= 12
  {
    DaysBefore(month - 1) + dayOfMonth - 1
  }

  predicate ValidDate(month: nat, dayOfMonth: nat) {
    1 <= month <= 12 && 1 <= dayOfMonth <= MonthLengths[month - 1]
  }

  /** Every day offset is a valid date of 2014, and converting back gives the offset. */
  lemma CalendarRoundTrip(day: DayOffset)
    ensures ValidDate(MonthOf(day), DayOfMonth(day))
    ensures DayOfYear(MonthOf(day), DayOfMonth(day)) == day
  {
  }

  /** Every valid date of 2014 is some day of the window, and converting forth gives the date. */
  lemma CalendarRoundTripBack(month: nat, dayOfMonth: nat)
    requires ValidDate(month, dayOfMonth)
    ensures 0 <= DayOfYear(month, dayOfMonth) < DaysInWindow
    ensures MonthOf(DayOfYear(month, dayOfMonth)) == month
    ensures DayOfMonth(DayOfYear(month, dayOfMonth)) == dayOfMonth
  {
    var day := DayOfYear(month, dayOfMonth);
    var m := month - 1;
    assert day < DaysBefore(m + 1);
    DaysBeforeYear();
    if month < 12 {
      DaysBeforeGrows(m + 1, 12);
    }
    MonthUnique(day, MonthIndex(day, 0), m);
  }

  /** A day lies in only one month. */
  lemma MonthUnique(day: nat, r: nat, m: nat)
    requires r < 12 && m < 12
    requires DaysBefore(r) <= day < DaysBefore(r + 1)
    requires DaysBefore(m) <= day < DaysBefore(m + 1)
    ensures r == m
  {
    if r < m {
      DaysBeforeGrows(r, m);
    } else if m < r {
      DaysBeforeGrows(m, r);
    }
  }

  /** `strftime(date, "%Y-%m-%d %H:%M:%S")` of 2014-01-01 00:00:00 plus `day` days. */
  function DateString(day: DayOffset): (s: string)
    ensures |s| == 19
  {
    "2014-" + Pad2(MonthOf(day)) + "-" + Pad2(DayOfMonth(day)) + " 00:00:00"
  }

  /** Reading month and day back out of the formatted date gives the offset. */
  lemma DateStringRoundTrip(day: DayOffset)
    ensures var s := DateString(day);
      && s[..5] == "2014-" && s[7] == '-' && s[10..] == " 00:00:00"
      && (forall k :: 5 <= k < 10 && k != 7 ==> IsDigit(s[k]))
      && ValidDate(ParseNat(s[5..7]), ParseNat(s[8..10]))
      && DayOfYear(ParseNat(s[5..7]), ParseNat(s[8..10])) == day
  {
    var m, dd := Pad2(MonthOf(day)), Pad2(DayOfMonth(day));
    DateLayout(m, dd);
    CalendarRoundTrip(day);
  }

  /** Where the month and the day sit in `2014-mm-dd 00:00:00`. */
  lemma DateLayout(m: string, dd: string)
    requires |m| == 2 && |dd| == 2
    ensures var s := "2014-" + m + "-" + dd + " 00:00:00";
      && s[..5] == "2014-" && s[5..7] == m && s[7] == '-' && s[8..10] == dd && s[10..] == " 00:00:00"
  {
  }

  // ---------------------------------------------------------------------------
  // What the csv writer writes for one cell.

  /** The text of a cell in the file: `None` is an empty field, anything else is `str(value)`. */
  function Render(cell: Option<Value>): string {
    match cell
    case None => ""
    case Some(Int(n)) => IntToString(n)
    case Some(Str(s)) => s
    case Some(Date(d)) => DateString(d)
  }

  /** A field the csv writer emits verbatim (no delimiter, quote character or line break in it). */
  predicate CsvSafe(s: string) {
    ',' !in s && '"' !in s && '\r' !in s && '\n' !in s
  }

  /**
    What a generated value looks like in the file: a field the writer leaves
    unquoted, which is all digits exactly when the value is an INTEGER.
   */
  lemma RenderGenerated(v: Value)
    requires Generated(v)
    ensures CsvSafe(Render(Some(v)))
    ensures IsDigits(Render(Some(v))) <==> v.Int?
  {
    match v
    case Int(n) =>
      var s := NatToString(n);
      assert forall c :: c in s ==> IsDigit(c);
    case Str(s) =>
      assert forall c :: c in s ==> IsAsciiLetter(c);
      assert !IsDigit(s[0]);
    case Date(d) =>
      DateStringCsvSafe(d);
  }

  /** A formatted date is a safe field and, holding a dash, never all digits. */
  lemma DateStringCsvSafe(day: DayOffset)
    ensures CsvSafe(DateString(day)) && !IsDigits(DateString(day))
  {
    var m, dd := Pad2(MonthOf(day)), Pad2(DayOfMonth(day));
    DigitsCsvSafe(m);
    DigitsCsvSafe(dd);
    CsvSafeAppend("2014-", m);
    CsvSafeAppend("2014-" + m, "-");
    CsvSafeAppend("2014-" + m + "-", dd);
    CsvSafeAppend("2014-" + m + "-" + dd, " 00:00:00");
    DashAt4(m, dd);
  }

  lemma DigitsCsvSafe(s: string)
    requires forall k :: 0 <= k < |s| ==> IsDigit(s[k])
    ensures CsvSafe(s)
  {
    assert forall c :: c in s ==> IsDigit(c);
  }

  lemma CsvSafeAppend(a: string, b: string)
    requires CsvSafe(a) && CsvSafe(b)
    ensures CsvSafe(a + b)
  {
  }

  lemma DashAt4(m: string, dd: string)
    ensures !IsDigits("2014-" + m + "-" + dd + " 00:00:00")
  {
    assert ("2014-" + m + "-" + dd + " 00:00:00")[4] == '-';
  }

  /** The row id `str(i)` is an unquoted, all-digit field. */
  lemma RenderRowId(i: nat)
    ensures CsvSafe(Render(Some(Str(NatToString(i)))))
    ensures IsDigits(Render(Some(Str(NatToString(i)))))
  {
    var s := NatToString(i);
    assert forall c :: c in s ==> IsDigit(c);
  }
}
