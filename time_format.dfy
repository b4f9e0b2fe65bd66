/**
 * Attendance time arithmetic of the dashboard (web_dashboard/script.js):
 * turning the stored check-in/check-out values into dates, the `H:MM`
 * rendering of a minute count, the choice of what the "total hours" cell
 * shows, and the newest-first ordering of attendance rows.
 */
module TimeFormat {
  import opened Wrappers
  import opened JsStrings

  // ---------------------------------------------------------------------
  // JavaScript integer division and remainder
  // ---------------------------------------------------------------------

  /** JavaScript `m % 60`: the remainder takes the sign of the dividend. */
  function Rem60(m: int): (r: int)
    ensures m >= 0 ==> 0 <= r < 60
    ensures m < 0 ==> -60 < r <= 0
    ensures (m - r) % 60 == 0
  {
    if m >= 0 then m % 60 else -((-m) % 60)
  }

  /**
   * A nanosecond count as whole milliseconds, rounded toward zero, as
   * `new Date(x)` truncates a fractional millisecond count.
   */
  function NanosToMillis(a: int): (q: int)
    ensures a >= 0 ==> q * 1_000_000 <= a < q * 1_000_000 + 1_000_000
    ensures a < 0 ==> q * 1_000_000 - 1_000_000 < a <= q * 1_000_000
  {
    if a >= 0 then a / 1_000_000 else -((-a) / 1_000_000)
  }

  // ---------------------------------------------------------------------
  // H:MM rendering and its inverse
  // ---------------------------------------------------------------------

  /**
   * The `H:MM` rendering shared by `calculateTotalHours` and
   * `convertDecimalToTime`: hours by `Math.floor(m / 60)` (Dafny's `/` by a
   * positive divisor already rounds down), minutes by JavaScript's
   * truncating `m % 60`, padded to two characters. Negative counts are not
   * clamped.
   */
  function FormatHoursMinutes(totalMinutes: int): string {
    IntToString(totalMinutes / 60) + ":" + PadStart(IntToString(Rem60(totalMinutes)), 2, '0')
  }

  /** Reads an `H:MM` string: digits, a colon, and two digits making a number below 60. */
  function ParseHoursMinutes(s: string): Option<int> {
    if |s| >= 4 && s[|s| - 3] == ':' && (forall i :: 0 <= i < |s| - 3 ==> IsDigit(s[i]))
       && IsDigit(s[|s| - 2]) && IsDigit(s[|s| - 1]) && TwoDigitValue(s[|s| - 2], s[|s| - 1]) < 60
    then Some(DigitsValue(s, |s| - 3) * 60 + TwoDigitValue(s[|s| - 2], s[|s| - 1]))
    else None
  }

  /** The value of a tens digit and a units digit. */
  function TwoDigitValue(tens: char, units: char): int {
    (tens as int - '0' as int) * 10 + (units as int - '0' as int)
  }

  /**
   * The rendering is exact for non-negative counts: hours * 60 + minutes
   * reads back as the count, with the minutes in 0..59. A negative count is
   * rendered with minus signs, so it never reads as a valid `H:MM`.
   */
  lemma FormatParseRoundTrip(m: int)
    ensures ParseHoursMinutes(FormatHoursMinutes(m)) == if m >= 0 then Some(m) else None
  {
    if m >= 0 {
      FormatParseNonNegative(m);
    } else {
      FormatParseNegative(m);
    }
  }

  /** Minutes below 60, padded to two characters, are their tens digit and their units digit. */
  lemma PaddedMinutes(mm: nat)
    requires mm < 60
    ensures PadStart(NatToString(mm), 2, '0') == [DigitChar(mm / 10), DigitChar(mm % 10)]
  {
    if mm < 10 {
      assert Repeat('0', 1) == ['0'];
    } else {
      assert NatToString(mm) == NatToString(mm / 10) + [DigitChar(mm % 10)];
    }
  }

  /** For a non-negative count the rendering is the digits of the hours, a colon and the two digits of the minutes. */
  lemma FormatShape(m: int)
    requires m >= 0
    ensures ColonShape(FormatHoursMinutes(m), NatToString(m / 60), m % 60 / 10, m % 60 % 10)
  {
    var hs := NatToString(m / 60);
    var p := PadStart(IntToString(Rem60(m)), 2, '0');
    assert p == [DigitChar(m % 60 / 10), DigitChar(m % 60 % 10)] by {
      assert Rem60(m) == m % 60;
      PaddedMinutes(m % 60);
    }
    ColonJoin(hs, p);
  }

  /** Where the pieces of `hs + ":" + p` land. */
  lemma ColonJoin(hs: string, p: string)
    requires |p| == 2
    ensures var s := hs + ":" + p;
      && |s| == |hs| + 3 && (forall i :: 0 <= i < |hs| ==> s[i] == hs[i])
      && s[|hs|] == ':' && s[|hs| + 1] == p[0] && s[|hs| + 2] == p[1]
  {
  }

  /** `s` is `hs`, a colon, and the digits `a` and `b`. */
  predicate ColonShape(s: string, hs: string, a: nat, b: nat)
    requires a < 10 && b < 10
  {
    && |s| == |hs| + 3 && (forall i :: 0 <= i < |hs| ==> s[i] == hs[i])
    && s[|hs|] == ':' && s[|hs| + 1] == DigitChar(a) && s[|hs| + 2] == DigitChar(b)
  }

  /** Digits, a colon and two digits below 60 read as hours and minutes. */
  lemma ParseJoined(s: string, hs: string, a: nat, b: nat)
    requires |hs| >= 1 && IsDigits(hs) && a < 6 && b < 10 && ColonShape(s, hs, a, b)
    ensures ParseHoursMinutes(s) == Some(ParseNat(hs) * 60 + a * 10 + b)
  {
    DigitsValueOfSamePrefix(hs, s, |hs|);
    DigitCharValue(a);
    DigitCharValue(b);
  }

  /** A string laid out as the rendering of a non-negative count reads back as that count. */
  lemma ParseRendering(s: string, m: int)
    requires m >= 0 && ColonShape(s, NatToString(m / 60), m % 60 / 10, m % 60 % 10)
    ensures ParseHoursMinutes(s) == Some(m)
  {
    ParseJoined(s, NatToString(m / 60), m % 60 / 10, m % 60 % 10);
    SplitMinutes(m);
  }

  lemma FormatParseNonNegative(m: int)
    requires m >= 0
    ensures ParseHoursMinutes(FormatHoursMinutes(m)) == Some(m)
  {
    FormatShape(m);
    ParseRendering(FormatHoursMinutes(m), m);
  }

  lemma SplitMinutes(m: int)
    requires m >= 0
    ensures m / 60 * 60 + m % 60 / 10 * 10 + m % 60 % 10 == m
  {
  }

  lemma FormatParseNegative(m: int)
    requires m < 0
    ensures ParseHoursMinutes(FormatHoursMinutes(m)) == None
  {
    var s := FormatHoursMinutes(m);
    var hs := IntToString(m / 60);
    var p := PadStart(IntToString(Rem60(m)), 2, '0');
    assert s == hs + ":" + p;
    assert hs[0] == '-';
    assert |s| >= 5;
    assert s[0] == '-';
  }

  /** 510 minutes render as "8:30". */
  lemma FormatEightThirty()
    ensures FormatHoursMinutes(510) == "8:30"
  {
    assert IntToString(510 / 60) == "8";
    assert PadStart(IntToString(Rem60(510)), 2, '0') == "30" by {
      assert NatToString(30) == NatToString(3) + [DigitChar(0)];
    }
  }

  /** No time at all renders as "0:00". */
  lemma FormatZero()
    ensures FormatHoursMinutes(0) == "0:00"
  {
  }

  /** A quarter of an hour early renders as "-1:-15": floor for the hours, a signed remainder for the minutes. */
  lemma FormatQuarterEarly()
    ensures FormatHoursMinutes(-15) == "-1:-15"
  {
    assert -15 / 60 == -1 && Rem60(-15) == -15;
    assert IntToString(-1) == "-1";
    assert IntToString(-15) == "-15" by {
      assert NatToString(15) == NatToString(1) + [DigitChar(5)];
    }
    assert PadStart("-15", 2, '0') == "-15";
  }

  // ---------------------------------------------------------------------
  // Timestamps
  // ---------------------------------------------------------------------

  /** The largest distance from the epoch, in milliseconds, that a JavaScript Date can hold. */
  const MaxTimeMs: int := 8_640_000_000_000_000

  /** A JavaScript Date: a millisecond instant, or the Invalid Date (`NaN`). */
  datatype JsDate = ValidDate(ms: int) | InvalidDate

  /** The time-value range check every `new Date(x)` applies. */
  function TimeClip(t: int): JsDate {
    if -MaxTimeMs <= t <= MaxTimeMs then ValidDate(t) else InvalidDate
  }

  /** The encodings in which a check-in or check-out value reaches the dashboard. */
  datatype RawTime =
    | Missing                                       // undefined or null
    | FirestoreTimestamp(millis: int)               // an object with `toDate()`
    | EpochFields(seconds: int, nanoseconds: int)   // a plain `{seconds, nanoseconds}`; absent nanoseconds are 0
    | Text(text: string)                            // a date-time string
    | OtherValue(truthy: bool)                      // a number, a boolean, any other object

  /** JavaScript truthiness of a raw value. */
  predicate IsTruthy(t: RawTime) {
    match t
    case Missing => false
    case Text(s) => s != ""
    case OtherValue(b) => b
    case _ => true
  }

  /**
   * The Date `calculateTotalHours` derives from one argument, or `None`
   * when no branch applies and it falls back to "0:00". An epoch object with
   * `seconds == 0` falls through because that branch tests truthiness.
   * String parsing is the host's and is a parameter.
   */
  function ToDate(t: RawTime, parseDate: string -> JsDate): (d: Option<JsDate>)
    ensures d.None? <==> (t.Missing? || t.OtherValue? || (t.EpochFields? && t.seconds == 0))
  {
    match t
    case FirestoreTimestamp(ms) => Some(ValidDate(ms))
    case EpochFields(s, ns) =>
      if s != 0 then Some(TimeClip(NanosToMillis(s * 1_000_000_000 + ns))) else None
    case Text(s) => Some(parseDate(s))
    case _ => None
  }

  /**
   * An epoch object in the Date range is converted without loss to the
   * millisecond: `seconds * 1000 + floor(nanoseconds / 10^6)`.
   */
  lemma EpochToMilliseconds(seconds: int, nanoseconds: int, parseDate: string -> JsDate)
    requires 0 < seconds < MaxTimeMs / 1000
    requires 0 <= nanoseconds < 1_000_000_000
    ensures ToDate(EpochFields(seconds, nanoseconds), parseDate)
            == Some(ValidDate(seconds * 1000 + nanoseconds / 1_000_000))
  {
    var a := seconds * 1_000_000_000 + nanoseconds;
    var q := seconds * 1000 + nanoseconds / 1_000_000;
    assert a == q * 1_000_000 + nanoseconds % 1_000_000;
    MillisUnique(a, q);
  }

  /** Only one whole number of milliseconds brackets a non-negative nanosecond count. */
  lemma MillisUnique(a: int, q: int)
    requires 0 <= a && q * 1_000_000 <= a < q * 1_000_000 + 1_000_000
    ensures NanosToMillis(a) == q
  {
  }

  /** `Math.round(diffMs / 60000)`: the nearest whole minute, halves rounded up. */
  function RoundToMinutes(diffMs: int): (m: int)
    ensures m * 60000 - 30000 <= diffMs < m * 60000 + 30000
  {
    (diffMs + 30000) / 60000
  }

  /**
   * A difference of two instants in `H:MM`, rounded to the nearest minute;
   * it reads back as that minute count exactly when the count is not negative.
   */
  function FormatDifference(diffMs: int): (r: string)
    ensures ParseHoursMinutes(r) == if diffMs >= -30000 then Some(RoundToMinutes(diffMs)) else None
  {
    FormatParseRoundTrip(RoundToMinutes(diffMs));
    FormatHoursMinutes(RoundToMinutes(diffMs))
  }

  /**
   * `calculateTotalHours`: "0:00" when either value has no usable encoding,
   * "NaN:NaN" when either is an Invalid Date, and otherwise the difference
   * rounded to minutes in `H:MM`, negative differences included.
   */
  function CalculateTotalHours(checkIn: RawTime, checkOut: RawTime, parseDate: string -> JsDate): (r: string)
    ensures ToDate(checkIn, parseDate).None? || ToDate(checkOut, parseDate).None? ==> r == "0:00"
    ensures (ToDate(checkIn, parseDate) == Some(InvalidDate) && ToDate(checkOut, parseDate).Some?)
            || (ToDate(checkOut, parseDate) == Some(InvalidDate) && ToDate(checkIn, parseDate).Some?)
            ==> r == "NaN:NaN"
  {
    var inDate := ToDate(checkIn, parseDate);
    var outDate := ToDate(checkOut, parseDate);
    if inDate.None? || outDate.None? then "0:00"
    else if inDate.value.InvalidDate? || outDate.value.InvalidDate? then "NaN:NaN"
    else FormatDifference(outDate.value.ms - inDate.value.ms)
  }

  /**
   * With two valid instants the cell reads back as the difference rounded
   * to minutes when that is not negative, and does not read back otherwise.
   */
  lemma CalculateTotalHoursReadsBack(checkIn: RawTime, checkOut: RawTime, parseDate: string -> JsDate)
    requires ToDate(checkIn, parseDate).Some? && ToDate(checkIn, parseDate).value.ValidDate?
    requires ToDate(checkOut, parseDate).Some? && ToDate(checkOut, parseDate).value.ValidDate?
    ensures var diff := ToDate(checkOut, parseDate).value.ms - ToDate(checkIn, parseDate).value.ms;
            ParseHoursMinutes(CalculateTotalHours(checkIn, checkOut, parseDate))
            == if diff >= -30000 then Some(RoundToMinutes(diff)) else None
  {
  }

  /** A same-day shift from 09:00 to 17:30 shows as 8:30. */
  lemma TotalHoursOfFullShift(parseDate: string -> JsDate)
    ensures CalculateTotalHours(FirestoreTimestamp(32_400_000), FirestoreTimestamp(63_000_000), parseDate) == "8:30"
  {
    assert RoundToMinutes(63_000_000 - 32_400_000) == 510;
    FormatEightThirty();
  }

  /** A check-out at 08:45 after a 09:00 check-in shows as -1:-15. */
  lemma TotalHoursOfEarlyCheckOut(parseDate: string -> JsDate)
    ensures CalculateTotalHours(FirestoreTimestamp(32_400_000), FirestoreTimestamp(31_500_000), parseDate) == "-1:-15"
  {
    assert RoundToMinutes(31_500_000 - 32_400_000) == -15;
    FormatQuarterEarly();
  }

  /** An epoch object with zero seconds is falsy in the epoch branch, so the pair shows as 0:00. */
  lemma TotalHoursOfZeroSeconds(parseDate: string -> JsDate)
    ensures CalculateTotalHours(EpochFields(0, 500), FirestoreTimestamp(0), parseDate) == "0:00"
  {
  }

  // ---------------------------------------------------------------------
  // The attendance table
  // ---------------------------------------------------------------------

  /**
   * One attendance row as the table sees it. `totalMinutes` is the stored
   * decimal `totalHours` already turned into `Math.round(totalHours * 60)`
   * minutes; `None` stands for an absent or zero value.
   */
  datatype AttendanceRow = AttendanceRow(
    employeeName: string,
    date: Option<string>,
    checkIn: RawTime,
    checkOut: RawTime,
    totalMinutes: Option<int>)

  /**
   * The "total hours" cell: the paired timestamps when both are truthy,
   * otherwise the stored aggregate, otherwise "0:00".
   */
  function TotalHoursCell(row: AttendanceRow, parseDate: string -> JsDate): (r: string)
    ensures IsTruthy(row.checkIn) && IsTruthy(row.checkOut)
            ==> r == CalculateTotalHours(row.checkIn, row.checkOut, parseDate)
    ensures !(IsTruthy(row.checkIn) && IsTruthy(row.checkOut)) && row.totalMinutes.None? ==> r == "0:00"
    ensures !(IsTruthy(row.checkIn) && IsTruthy(row.checkOut)) && row.totalMinutes.Some?
            ==> ParseHoursMinutes(r) == if row.totalMinutes.value >= 0 then row.totalMinutes else None
  {
    if IsTruthy(row.checkIn) && IsTruthy(row.checkOut) then
      CalculateTotalHours(row.checkIn, row.checkOut, parseDate)
    else if row.totalMinutes.Some? then
      FormatParseRoundTrip(row.totalMinutes.value);
      FormatHoursMinutes(row.totalMinutes.value)
    else
      "0:00"
  }

  /**
   * Code-unit order of strings, standing for `localeCompare` on the
   * `YYYY-MM-DD` date keys (where the two agree).
   */
  predicate LexLess(a: string, b: string)
    decreases |a|
  {
    if a == [] then b != []
    else if b == [] then false
    else if a[0] != b[0] then a[0] < b[0]
    else LexLess(a[1..], b[1..])
  }

  /** `LexLess` is asymmetric. */
  lemma {:induction false} LexLessAsymmetric(a: string, b: string)
    requires LexLess(a, b)
    ensures !LexLess(b, a)
    decreases |a|
  {
    if a != [] && b != [] && a[0] == b[0] {
      LexLessAsymmetric(a[1..], b[1..]);
    }
  }

  /** "Not less than" is transitive. */
  lemma {:induction false} LexNotLessTransitive(a: string, b: string, c: string)
    requires !LexLess(a, b) && !LexLess(b, c)
    ensures !LexLess(a, c)
    decreases |a|
  {
    if a != [] && b != [] && c != [] && a[0] == b[0] && b[0] == c[0] {
      LexNotLessTransitive(a[1..], b[1..], c[1..]);
    }
  }

  function DateKey(r: AttendanceRow): string {
    r.date.GetOr("")
  }

  /**
   * The comparator `(a, b) => b.date.localeCompare(a.date)` is positive:
   * both rows have a date and `a`'s is the earlier, so `a` goes after `b`.
   * Rows without a date compare equal to every row.
   */
  predicate GoesAfter(a: AttendanceRow, b: AttendanceRow) {
    Truthy(a.date) && Truthy(b.date) && LexLess(DateKey(a), DateKey(b))
  }

  /** Newest date first. */
  predicate NewestFirst(rows: seq<AttendanceRow>) {
    forall i, j :: 0 <= i < j < |rows| ==> !LexLess(DateKey(rows[i]), DateKey(rows[j]))
  }

  predicate AllDated(rows: seq<AttendanceRow>) {
    forall i :: 0 <= i < |rows| ==> Truthy(rows[i].date)
  }

  /** Stable insertion of `x` after every row that does not go after it. */
  function InsertByDate(sorted: seq<AttendanceRow>, x: AttendanceRow): (r: seq<AttendanceRow>)
    ensures multiset(r) == multiset(sorted) + multiset{x}
    decreases |sorted|
  {
    if sorted == [] then [x]
    else if GoesAfter(sorted[|sorted| - 1], x) then
      var last := sorted[|sorted| - 1];
      assert sorted == sorted[..|sorted| - 1] + [last];
      InsertByDate(sorted[..|sorted| - 1], x) + [last]
    else sorted + [x]
  }

  /**
   * `allAttendanceData.sort(...)` as a stable sort with the source's
   * comparator: a permutation of the rows.
   */
  function SortByDateDesc(rows: seq<AttendanceRow>): (r: seq<AttendanceRow>)
    ensures multiset(r) == multiset(rows)
    decreases |rows|
  {
    if rows == [] then []
    else
      assert rows == rows[..|rows| - 1] + [rows[|rows| - 1]];
      InsertByDate(SortByDateDesc(rows[..|rows| - 1]), rows[|rows| - 1])
  }

  /** Appending a row no newer than every row keeps the order newest first. */
  lemma AppendNewestFirst(a: seq<AttendanceRow>, y: AttendanceRow)
    requires NewestFirst(a)
    requires forall k :: 0 <= k < |a| ==> !LexLess(DateKey(a[k]), DateKey(y))
    ensures NewestFirst(a + [y])
  {
  }

  /** Inserting a dated row into dated rows that are newest first keeps them dated and newest first. */
  lemma {:induction false} InsertByDateNewestFirst(sorted: seq<AttendanceRow>, x: AttendanceRow)
    requires NewestFirst(sorted) && AllDated(sorted) && Truthy(x.date)
    ensures NewestFirst(InsertByDate(sorted, x)) && AllDated(InsertByDate(sorted, x))
    decreases |sorted|
  {
    if sorted != [] {
      var last := sorted[|sorted| - 1];
      if GoesAfter(last, x) {
        InsertByDateNewestFirst(sorted[..|sorted| - 1], x);
        InsertBeforeLast(sorted, x);
      } else {
        InsertAfterLast(sorted, x);
      }
    }
  }

  /** The step where `x` is newer than the last row: `x` goes into the prefix, the last row stays last. */
  lemma InsertBeforeLast(sorted: seq<AttendanceRow>, x: AttendanceRow)
    requires sorted != [] && NewestFirst(sorted) && AllDated(sorted)
    requires GoesAfter(sorted[|sorted| - 1], x)
    requires NewestFirst(InsertByDate(sorted[..|sorted| - 1], x)) && AllDated(InsertByDate(sorted[..|sorted| - 1], x))
    ensures NewestFirst(InsertByDate(sorted, x)) && AllDated(InsertByDate(sorted, x))
  {
    var last := sorted[|sorted| - 1];
    var prefix := sorted[..|sorted| - 1];
    var a := InsertByDate(prefix, x);
    forall k | 0 <= k < |a|
      ensures !LexLess(DateKey(a[k]), DateKey(last))
    {
      assert a[k] in multiset(a);
      if a[k] == x {
        LexLessAsymmetric(DateKey(last), DateKey(x));
      } else {
        assert a[k] in prefix;
      }
    }
    AppendNewestFirst(a, last);
    assert InsertByDate(sorted, x) == a + [last];
  }

  /** The step where `x` is not newer than the last row: `x` is appended. */
  lemma InsertAfterLast(sorted: seq<AttendanceRow>, x: AttendanceRow)
    requires sorted != [] && NewestFirst(sorted) && AllDated(sorted) && Truthy(x.date)
    requires !GoesAfter(sorted[|sorted| - 1], x)
    ensures NewestFirst(InsertByDate(sorted, x)) && AllDated(InsertByDate(sorted, x))
  {
    var n := |sorted|;
    var last := sorted[n - 1];
    forall i | 0 <= i < n
      ensures !LexLess(DateKey(sorted[i]), DateKey(x))
    {
      if i < n - 1 {
        LexNotLessTransitive(DateKey(sorted[i]), DateKey(last), DateKey(x));
      }
    }
    AppendNewestFirst(sorted, x);
    assert InsertByDate(sorted, x) == sorted + [x];
  }

  /** When every row has a date, the sorted rows are newest first. */
  lemma {:induction false} SortByDateDescNewestFirst(rows: seq<AttendanceRow>)
    requires AllDated(rows)
    ensures NewestFirst(SortByDateDesc(rows))
    decreases |rows|
  {
    if rows != [] {
      var front := rows[..|rows| - 1];
      SortByDateDescNewestFirst(front);
      SortKeepsDated(front);
      InsertByDateNewestFirst(SortByDateDesc(front), rows[|rows| - 1]);
    }
  }

  lemma SortKeepsDated(rows: seq<AttendanceRow>)
    requires AllDated(rows)
    ensures AllDated(SortByDateDesc(rows))
  {
    var r := SortByDateDesc(rows);
    forall k | 0 <= k < |r| ensures Truthy(r[k].date) {
      assert r[k] in multiset(rows);
    }
  }
}
