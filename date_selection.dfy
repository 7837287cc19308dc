/** Step 2 of the reservation wizard, the date picker: the Gregorian calendar
    arithmetic behind the month grid, the `YYYY-MM-DD` keys of the days, the
    month's full-day table built from one occupancy answer per day, and the
    click and submit guards. */
module DateSelection {
  import opened Wrappers
  import opened Text
  import opened Arith
  import opened ReservationWizard

  datatype Date = Date(year: int, month: int, day: int)

  /** A month of a year; `month` is 1-based. */
  datatype YearMonth = YearMonth(year: int, month: int)

  // ---------------------------------------------------------------- calendar

  predicate IsLeapYear(y: int) {
    y % 4 == 0 && (y % 100 != 0 || y % 400 == 0)
  }

  function YearLength(y: int): int {
    if IsLeapYear(y) then 366 else 365
  }

  /** The length of month `m` of year `y` in the proleptic Gregorian calendar,
      which is what `new Date(y, m, 0).getDate()` yields for years from 100 on
      (JavaScript reads the years 0 to 99 as 1900 to 1999). */
  function DaysInMonth(y: int, m: int): (n: int)
    requires 1 <= m <= 12
    ensures 28 <= n <= 31
    ensures m == 2 ==> (n == 29 <==> IsLeapYear(y))
    ensures m != 2 ==> (n == 30 <==> m == 4 || m == 6 || m == 9 || m == 11)
    ensures m == 2 && !IsLeapYear(y) ==> n == 28
    ensures m != 2 && !(m == 4 || m == 6 || m == 9 || m == 11) ==> n == 31
  {
    if m == 2 then (if IsLeapYear(y) then 29 else 28)
    else if m == 4 || m == 6 || m == 9 || m == 11 then 30
    else 31
  }

  predicate ValidDate(d: Date) {
    1 <= d.month <= 12 && 1 <= d.day <= DaysInMonth(d.year, d.month)
  }

  /** Days from 1 January of year 1 to 1 January of year `y`. */
  function DaysBeforeYear(y: int): int {
    var p := y - 1;
    365 * p + p / 4 - p / 100 + p / 400
  }

  /** Days from 1 January of year `y` to the first of month `m` (13 is the next
      year's January), from the cumulative table of a common year. */
  function DaysBeforeMonth(y: int, m: int): int
    requires 1 <= m <= 13
  {
    [0, 31, 59, 90, 120, 151, 181, 212, 243, 273, 304, 334, 365][m - 1]
    + (if m > 2 && IsLeapYear(y) then 1 else 0)
  }

  /** The day count since 1 January of year 1 (which is day 0). */
  function DayNumber(d: Date): int
    requires 1 <= d.month <= 12
  {
    DaysBeforeYear(d.year) + DaysBeforeMonth(d.year, d.month) + d.day - 1
  }

  /** `getDay()`: 0 for Sunday up to 6 for Saturday. 1 January of year 1 was a Monday. */
  function Weekday(d: Date): (w: int)
    requires 1 <= d.month <= 12
    ensures 0 <= w < 7
  {
    (DayNumber(d) + 1) % 7
  }

  /** The cumulative table agrees with the month lengths. */
  lemma DaysBeforeMonthStep(y: int, m: int)
    requires 1 <= m <= 12
    ensures DaysBeforeMonth(y, m + 1) == DaysBeforeMonth(y, m) + DaysInMonth(y, m)
  {
  }

  /** Twelve months make a year. */
  lemma MonthsFillYear(y: int)
    ensures DaysBeforeMonth(y, 13) == YearLength(y)
  {
  }

  /** The closed form counts 366 days for a leap year and 365 otherwise. */
  lemma {:induction false} YearStep(y: int)
    ensures DaysBeforeYear(y + 1) == DaysBeforeYear(y) + YearLength(y)
  {
    FloorStep(y, 4);
    FloorStep(y, 100);
    FloorStep(y, 400);
    if y % 400 == 0 { DivModUnique(y, 100, (y / 400) * 4, 0); }
    if y % 100 == 0 { DivModUnique(y, 4, (y / 100) * 25, 0); }
  }

  lemma {:induction false} DaysBeforeYearGrows(y: int, y': int)
    requires y < y'
    ensures DaysBeforeYear(y) + YearLength(y) <= DaysBeforeYear(y')
    decreases y' - y
  {
    YearStep(y);
    if y + 1 < y' {
      DaysBeforeYearGrows(y + 1, y');
    }
  }

  /** The month after `ym` in the calendar. */
  function NextMonth(ym: YearMonth): (r: YearMonth)
    requires 1 <= ym.month <= 12
    ensures 1 <= r.month <= 12
    ensures MonthIndex(r) == MonthIndex(ym) + 1
  {
    if ym.month == 12 then YearMonth(ym.year + 1, 1) else YearMonth(ym.year, ym.month + 1)
  }

  /** The month before `ym` in the calendar. */
  function PrevMonth(ym: YearMonth): (r: YearMonth)
    requires 1 <= ym.month <= 12
    ensures 1 <= r.month <= 12
    ensures MonthIndex(r) == MonthIndex(ym) - 1
  {
    if ym.month == 1 then YearMonth(ym.year - 1, 12) else YearMonth(ym.year, ym.month - 1)
  }

  /** Months counted from January of year 0. */
  function MonthIndex(ym: YearMonth): int {
    12 * ym.year + ym.month - 1
  }

  lemma MonthIndexInjective(a: YearMonth, b: YearMonth)
    requires 1 <= a.month <= 12 && 1 <= b.month <= 12
    requires MonthIndex(a) == MonthIndex(b)
    ensures a == b
  {
    DivModUnique(MonthIndex(a), 12, a.year, a.month - 1);
    DivModUnique(MonthIndex(b), 12, b.year, b.month - 1);
  }

  lemma NextPrevInverse(ym: YearMonth)
    requires 1 <= ym.month <= 12
    ensures PrevMonth(NextMonth(ym)) == ym
    ensures NextMonth(PrevMonth(ym)) == ym
  {
    MonthIndexInjective(PrevMonth(NextMonth(ym)), ym);
    MonthIndexInjective(NextMonth(PrevMonth(ym)), ym);
  }

  /** The first of the next month comes `DaysInMonth` days after the first of this one. */
  lemma {:induction false} FirstOfNextMonth(ym: YearMonth)
    requires 1 <= ym.month <= 12
    ensures var n := NextMonth(ym);
      DayNumber(Date(n.year, n.month, 1)) == DayNumber(Date(ym.year, ym.month, 1)) + DaysInMonth(ym.year, ym.month)
  {
    if ym.month == 12 {
      YearStep(ym.year);
      MonthsFillYear(ym.year);
    } else {
      DaysBeforeMonthStep(ym.year, ym.month);
    }
  }

  /** So the next month's grid starts `DaysInMonth` columns (mod 7) further right. */
  lemma NextMonthOffset(ym: YearMonth)
    requires 1 <= ym.month <= 12
    ensures var n := NextMonth(ym);
      Weekday(Date(n.year, n.month, 1)) == (Weekday(Date(ym.year, ym.month, 1)) + DaysInMonth(ym.year, ym.month)) % 7
  {
    FirstOfNextMonth(ym);
    ModAddLeft(DayNumber(Date(ym.year, ym.month, 1)) + 1, DaysInMonth(ym.year, ym.month), 7);
  }

  /** Two fixed points of the weekday numbering. */
  lemma WeekdayAnchors()
    ensures Weekday(Date(1970, 1, 1)) == 4  // a Thursday
    ensures Weekday(Date(2025, 6, 10)) == 2  // a Tuesday
  {
  }

  // --------------------------------------------------------------- past days

  /** `isDatePast`: the day lies strictly before today, compared as (year, month, day). */
  predicate IsDatePast(d: Date, today: Date) {
    d.year < today.year
    || (d.year == today.year && d.month < today.month)
    || (d.year == today.year && d.month == today.month && d.day < today.day)
  }

  /** For real dates, the comparison by fields is the comparison of the days' positions in time. */
  lemma PastMeansEarlierDay(d: Date, today: Date)
    requires ValidDate(d) && ValidDate(today)
    ensures IsDatePast(d, today) <==> DayNumber(d) < DayNumber(today)
  {
    if d.year < today.year {
      DaysBeforeYearGrows(d.year, today.year);
      MonthsFillYear(d.year);
      DaysBeforeMonthGrows(d.year, d.month + 1, 13);
      DaysBeforeMonthStep(d.year, d.month);
    } else if today.year < d.year {
      DaysBeforeYearGrows(today.year, d.year);
      MonthsFillYear(today.year);
      DaysBeforeMonthGrows(today.year, today.month + 1, 13);
      DaysBeforeMonthStep(today.year, today.month);
    } else if d.month < today.month {
      DaysBeforeMonthStep(d.year, d.month);
      DaysBeforeMonthGrows(d.year, d.month + 1, today.month);
    } else if today.month < d.month {
      DaysBeforeMonthStep(d.year, today.month);
      DaysBeforeMonthGrows(d.year, today.month + 1, d.month);
    }
  }

  lemma DaysBeforeMonthGrows(y: int, m: int, m': int)
    requires 1 <= m <= m' <= 13
    ensures DaysBeforeMonth(y, m) <= DaysBeforeMonth(y, m')
  {
  }

  // ---------------------------------------------------------------- day keys

  /** The key of a day, `${y}-${mm}-${dd}` with month and day padded to two digits. */
  function DateKey(d: Date): string
    requires 1 <= d.month <= 12 && 1 <= d.day <= 31
  {
    IntToString(d.year) + "-" + PadStart2(NatToString(d.month)) + "-" + PadStart2(NatToString(d.day))
  }

  /** Reads a key back: the year before the last six characters, then `-MM-DD`. */
  function ParseKey(key: string): Option<Date> {
    var n := |key|;
    if n < 7 then None
    else
      var mm, dd := key[n - 5..n - 3], key[n - 2..];
      if key[n - 6] == '-' && key[n - 3] == '-' && AllDigits(mm) && AllDigits(dd)
         && ParseInt(key[..n - 6]).Some?
      then Some(Date(ParseInt(key[..n - 6]).value, ParseNat(mm), ParseNat(dd)))
      else None
  }

  /** A number below 100, padded, is two digits that read back as the number. */
  lemma TwoDigits(n: nat)
    requires n < 100
    ensures var p := PadStart2(NatToString(n)); |p| == 2 && AllDigits(p) && ParseNat(p) == n
  {
    var s := NatToString(n);
    var p := PadStart2(s);
    if n < 10 {
      assert p == ['0', DigitChar(n)];
      assert p[..1] == ['0'] && ['0'][..0] == [];
    } else {
      assert s == NatToString(n / 10) + [DigitChar(n % 10)];
      NatToStringRoundTrip(n);
    }
  }

  lemma {:induction false} DateKeyRoundTrip(d: Date)
    requires 1 <= d.month <= 12 && 1 <= d.day <= 31
    ensures ParseKey(DateKey(d)) == Some(d)
  {
    var y, mm, dd := IntToString(d.year), PadStart2(NatToString(d.month)), PadStart2(NatToString(d.day));
    TwoDigits(d.month);
    TwoDigits(d.day);
    IntToStringRoundTrip(d.year);
    KeyLayout(y, mm, dd);
  }

  /** Where the parts of a key sit. */
  lemma KeyLayout(y: string, mm: string, dd: string)
    requires |mm| == 2 && |dd| == 2
    ensures var key := y + "-" + mm + "-" + dd; var n := |key|;
      && n == |y| + 6 && key[..n - 6] == y && key[n - 6] == '-'
      && key[n - 5..n - 3] == mm && key[n - 3] == '-' && key[n - 2..] == dd
  {
    var rest := "-" + mm + "-" + dd;
    var key := y + rest;
    assert y + "-" + mm + "-" + dd == key;
    assert key[..|y|] == y && key[|y|..] == rest;
    assert rest[1..3] == mm && rest[4..] == dd;
  }

  /** Distinct days have distinct keys. */
  lemma DateKeyInjective(a: Date, b: Date)
    requires 1 <= a.month <= 12 && 1 <= a.day <= 31
    requires 1 <= b.month <= 12 && 1 <= b.day <= 31
    requires DateKey(a) == DateKey(b)
    ensures a == b
  {
    DateKeyRoundTrip(a);
    DateKeyRoundTrip(b);
  }

  // --------------------------------------------------------------- full days

  /** One call of the day-occupancy endpoint: it threw, or it answered with a
      success flag and, per time slot, whether the slot is full (`dolu`). */
  datatype Fetch = Threw | Answered(success: bool, saatler: map<string, bool>)

  /** `Object.values(saatler).every(saat => saat.dolu)`: true for no slots at all. */
  predicate DayFull(saatler: map<string, bool>) {
    forall k :: k in saatler ==> saatler[k]
  }

  /** The day's answer was a success, so the loop records it. */
  predicate Recorded(responses: map<string, Fetch>, key: string) {
    key in responses && responses[key].Answered? && responses[key].success
  }

  /** The keys of days 1 to `n` of a month. */
  function KeysUpTo(y: int, m: int, n: int): set<string>
    requires 1 <= m <= 12 && n <= 31
  {
    set d | 1 <= d <= n :: DateKey(Date(y, m, d))
  }

  /** What the loop has recorded after days 1 to `n`. */
  function FullDaysUpTo(y: int, m: int, n: int, responses: map<string, Fetch>): map<string, bool>
    requires 1 <= m <= 12 && n <= 31
  {
    map k | k in KeysUpTo(y, m, n) && Recorded(responses, k) :: DayFull(responses[k].saatler)
  }

  /** `doluGunler` for a month: every day of the month whose answer was a success,
      mapped to whether all of its slots are full. */
  function MonthFullDays(ym: YearMonth, responses: map<string, Fetch>): map<string, bool>
    requires 1 <= ym.month <= 12
  {
    FullDaysUpTo(ym.year, ym.month, DaysInMonth(ym.year, ym.month), responses)
  }

  lemma FullDaysStep(y: int, m: int, n: int, responses: map<string, Fetch>)
    requires 1 <= m <= 12 && 1 <= n <= 31
    ensures var key := DateKey(Date(y, m, n));
      FullDaysUpTo(y, m, n, responses) ==
        if Recorded(responses, key)
        then FullDaysUpTo(y, m, n - 1, responses)[key := DayFull(responses[key].saatler)]
        else FullDaysUpTo(y, m, n - 1, responses)
  {
    assert KeysUpTo(y, m, n) == KeysUpTo(y, m, n - 1) + {DateKey(Date(y, m, n))};
  }

  /** `loadDoluGunler`: one occupancy request per day of the month, in order;
      a day whose request failed is left out. */
  method LoadFullDays(ym: YearMonth, responses: map<string, Fetch>) returns (full: map<string, bool>)
    requires 1 <= ym.month <= 12
    ensures full == MonthFullDays(ym, responses)
  {
    var gunSayisi := DaysInMonth(ym.year, ym.month);
    full := map[];
    var gun := 1;
    while gun <= gunSayisi
      invariant 1 <= gun <= gunSayisi + 1
      invariant full == FullDaysUpTo(ym.year, ym.month, gun - 1, responses)
    {
      var tarih := DateKey(Date(ym.year, ym.month, gun));
      FullDaysStep(ym.year, ym.month, gun, responses);
      if tarih in responses && responses[tarih].Answered? {
        if responses[tarih].success {
          full := full[tarih := DayFull(responses[tarih].saatler)];
        }
      }
      gun := gun + 1;
    }
  }

  /** `isDateFull`: `doluGunler[tarih] === true`. */
  predicate IsDateFull(full: map<string, bool>, key: string) {
    key in full && full[key]
  }

  /** A day of the month counts as full exactly when its answer was a success and
      every slot in it is full; a day whose request failed never counts as full. */
  lemma {:induction false} MonthFullDaysMeaning(ym: YearMonth, responses: map<string, Fetch>, d: int)
    requires 1 <= ym.month <= 12 && 1 <= d <= DaysInMonth(ym.year, ym.month)
    ensures var key := DateKey(Date(ym.year, ym.month, d));
      && (key in MonthFullDays(ym, responses) <==> Recorded(responses, key))
      && (IsDateFull(MonthFullDays(ym, responses), key) <==>
            Recorded(responses, key) && DayFull(responses[key].saatler))
  {
    var key := DateKey(Date(ym.year, ym.month, d));
    assert key in KeysUpTo(ym.year, ym.month, DaysInMonth(ym.year, ym.month));
  }

  /** Only the days of the displayed month are ever recorded. */
  lemma {:induction false} MonthFullDaysOnlyThisMonth(ym: YearMonth, responses: map<string, Fetch>, key: string)
    requires 1 <= ym.month <= 12
    requires key in MonthFullDays(ym, responses)
    ensures ParseKey(key).Some?
    ensures var d := ParseKey(key).value;
      d.year == ym.year && d.month == ym.month && 1 <= d.day <= DaysInMonth(ym.year, ym.month)
  {
    var day :| 1 <= day <= DaysInMonth(ym.year, ym.month) && key == DateKey(Date(ym.year, ym.month, day));
    DateKeyRoundTrip(Date(ym.year, ym.month, day));
  }

  // -------------------------------------------------------------- the grid

  /** A cell of the month grid: a leading blank, or a day with its state. */
  datatype Cell = Blank | DayCell(day: int, key: string, past: bool, full: bool, selected: bool)

  /** The cell `renderCalendar` draws for day `d`. */
  function DayCellFor(ym: YearMonth, d: int, today: Date, full: map<string, bool>, selected: string): Cell
    requires 1 <= ym.month <= 12 && 1 <= d <= 31
  {
    var key := DateKey(Date(ym.year, ym.month, d));
    DayCell(d, key, IsDatePast(Date(ym.year, ym.month, d), today), IsDateFull(full, key), selected == key)
  }

  /** `renderCalendar`: as many blanks as the weekday of the first, then the
      days of the month in order. */
  method RenderCells(ym: YearMonth, today: Date, full: map<string, bool>, selected: string)
    returns (cells: seq<Cell>)
    requires 1 <= ym.month <= 12
    ensures var offset := Weekday(Date(ym.year, ym.month, 1));
      && |cells| == offset + DaysInMonth(ym.year, ym.month)
      && (forall i :: 0 <= i < offset ==> cells[i] == Blank)
      && (forall i :: offset <= i < |cells| ==> cells[i] == DayCellFor(ym, i - offset + 1, today, full, selected))
  {
    var daysInMonth, startingDayOfWeek := DaysInMonth(ym.year, ym.month), Weekday(Date(ym.year, ym.month, 1));
    var cellOf := d => if 1 <= d <= 31 then DayCellFor(ym, d, today, full, selected) else Blank;
    cells := FillGrid(daysInMonth, startingDayOfWeek, cellOf);
  }

  /** The two loops of `renderCalendar`, for a month of `daysInMonth` days
      whose first day falls in column `startingDayOfWeek`; `cellOf` draws a day. */
  method FillGrid(daysInMonth: int, startingDayOfWeek: int, cellOf: int -> Cell) returns (cells: seq<Cell>)
    requires 0 <= daysInMonth && 0 <= startingDayOfWeek
    ensures |cells| == startingDayOfWeek + daysInMonth
    ensures forall i :: 0 <= i < startingDayOfWeek ==> cells[i] == Blank
    ensures forall i :: startingDayOfWeek <= i < |cells| ==> cells[i] == cellOf(i - startingDayOfWeek + 1)
  {
    cells := [];
    var i := 0;
    while i < startingDayOfWeek
      invariant 0 <= i <= startingDayOfWeek
      invariant |cells| == i
      invariant forall j :: 0 <= j < i ==> cells[j] == Blank
    {
      cells := cells + [Blank];
      i := i + 1;
    }
    var day := 1;
    while day <= daysInMonth
      invariant 1 <= day <= daysInMonth + 1
      invariant |cells| == startingDayOfWeek + day - 1
      invariant forall j :: 0 <= j < startingDayOfWeek ==> cells[j] == Blank
      invariant forall j :: startingDayOfWeek <= j < |cells| ==> cells[j] == cellOf(j - startingDayOfWeek + 1)
    {
      cells := cells + [cellOf(day)];
      day := day + 1;
    }
  }

  /** In a grid of seven columns that starts with `Weekday` of the first many
      blanks, the cell of day `d` sits in the column of that day's weekday,
      Sunday first. */
  lemma ColumnOfDay(ym: YearMonth, d: int)
    requires 1 <= ym.month <= 12 && 1 <= d
    ensures var cell := Weekday(Date(ym.year, ym.month, 1)) + d - 1;
      cell % 7 == Weekday(Date(ym.year, ym.month, d))
  {
    ModAddLeft(DayNumber(Date(ym.year, ym.month, 1)) + 1, d - 1, 7);
  }

  /** How a day cell is drawn: the past look wins over the full look, which
      wins over the selected look. */
  datatype Look = PastLook | FullLook | SelectedLook | OpenLook

  function CellLook(c: Cell): (l: Look)
    requires c.DayCell?
    ensures l == PastLook <==> c.past
    ensures l == FullLook <==> !c.past && c.full
    ensures !c.past && !c.full ==> (l == SelectedLook <==> c.selected)
  {
    if c.past then PastLook else if c.full then FullLook else if c.selected then SelectedLook else OpenLook
  }

  /** A cell reacts to a click exactly when it is drawn selected or open. */
  lemma ClickableLooks(c: Cell)
    requires c.DayCell?
    ensures (!c.past && !c.full) <==> CellLook(c) in {SelectedLook, OpenLook}
  {
  }

  // ------------------------------------------------------- month navigation

  /** JavaScript's `date.setMonth(month0)` on a date whose day of month is
      `cur.day`: the month index carries into the year, and a day beyond the
      target month's length runs on into the following month. */
  function SetMonthAsWritten(cur: Date, month0: int): (r: Date)
    requires 1 <= cur.day <= 31
    ensures ValidDate(r)
    ensures var t := SetMonthTarget(cur.year, month0);
      DayNumber(r) == DayNumber(Date(t.year, t.month, 1)) + cur.day - 1
    ensures cur.day <= 28 ==> r == Date(SetMonthTarget(cur.year, month0).year, SetMonthTarget(cur.year, month0).month, cur.day)
  {
    var target := SetMonthTarget(cur.year, month0);
    var len := DaysInMonth(target.year, target.month);
    if cur.day <= len then Date(target.year, target.month, cur.day)
    else
      var after := NextMonth(target);
      FirstOfNextMonth(target);
      Date(after.year, after.month, cur.day - len)
  }

  /** The month `month0` (0-based, any integer) names from year `year`
      on: the month index carries into the year. */
  function SetMonthTarget(year: int, month0: int): (t: YearMonth)
    ensures 1 <= t.month <= 12
    ensures MonthIndex(t) == year * 12 + month0
  {
    YearMonth(year + month0 / 12, month0 % 12 + 1)
  }

  /** The month the grid shows after the next-month button, as written. */
  function ShownAfterNextAsWritten(cur: Date): YearMonth
    requires 1 <= cur.month <= 12 && 1 <= cur.day <= 31
  {
    var d := SetMonthAsWritten(cur, cur.month - 1 + 1);
    YearMonth(d.year, d.month)
  }

  /** The month the grid shows after the previous-month button, as written. */
  function ShownAfterPrevAsWritten(cur: Date): YearMonth
    requires 1 <= cur.month <= 12 && 1 <= cur.day <= 31
  {
    var d := SetMonthAsWritten(cur, cur.month - 1 - 1);
    YearMonth(d.year, d.month)
  }

  /** Up to the 28th, the buttons as written move by exactly one month. */
  lemma {:induction false} NavigationAsWrittenEarlyInMonth(cur: Date)
    requires 1 <= cur.month <= 12 && 1 <= cur.day <= 28
    ensures ShownAfterNextAsWritten(cur) == NextMonth(YearMonth(cur.year, cur.month))
    ensures ShownAfterPrevAsWritten(cur) == PrevMonth(YearMonth(cur.year, cur.month))
  {
    var ym := YearMonth(cur.year, cur.month);
    var m0 := cur.month - 1;
    if m0 + 1 == 12 {
      DivModUnique(m0 + 1, 12, 1, 0);
    } else {
      DivModUnique(m0 + 1, 12, 0, m0 + 1);
    }
    if m0 == 0 {
      DivModUnique(m0 - 1, 12, -1, 11);
    } else {
      DivModUnique(m0 - 1, 12, 0, m0 - 1);
    }
  }

  /** On 31 January the next-month button, as written, skips February. */
  lemma NextSkipsFebruaryAsWritten()
    ensures ShownAfterNextAsWritten(Date(2026, 1, 31)) == YearMonth(2026, 3)
    ensures NextMonth(YearMonth(2026, 1)) == YearMonth(2026, 2)
  {
  }

  /** On 31 March the previous-month button, as written, stays on March. */
  lemma PrevStaysAsWritten()
    ensures ShownAfterPrevAsWritten(Date(2026, 3, 31)) == YearMonth(2026, 3)
    ensures PrevMonth(YearMonth(2026, 3)) == YearMonth(2026, 2)
  {
  }

  // ---------------------------------------------------------- component state

  /** The state of the date step: the month on display, the selected key and
      the month's full-day table. The month on display is kept as a month,
      which is how the corrected navigation needs it. */
  class DatePicker {
    var view: YearMonth
    var selectedDate: string
    var doluGunler: map<string, bool>

    ghost predicate Valid()
      reads this
    {
      1 <= view.month <= 12
    }

    /** Opens on today's month with the form's date, or nothing, selected. */
    constructor (today: Date, tarih: string)
      requires 1 <= today.month <= 12
      ensures Valid()
      ensures view == YearMonth(today.year, today.month) && selectedDate == tarih && doluGunler == map[]
    {
      view := YearMonth(today.year, today.month);
      selectedDate := tarih;
      doluGunler := map[];
    }

    /** The effect that reloads the table whenever the month changes. */
    method Load(responses: map<string, Fetch>)
      requires Valid()
      modifies this`doluGunler
      ensures doluGunler == MonthFullDays(view, responses)
    {
      doluGunler := LoadFullDays(view, responses);
    }

    method ShowNextMonth()
      requires Valid()
      modifies this`view
      ensures Valid() && view == NextMonth(old(view))
    {
      view := NextMonth(view);
    }

    method ShowPrevMonth()
      requires Valid()
      modifies this`view
      ensures Valid() && view == PrevMonth(old(view))
    {
      view := PrevMonth(view);
    }

    /** A click on day `d` of the grid selects it only when it is neither past nor full. */
    method ClickDay(d: int, today: Date)
      requires Valid() && 1 <= d <= DaysInMonth(view.year, view.month)
      modifies this`selectedDate
      ensures var key := DateKey(Date(view.year, view.month, d));
        selectedDate == if !IsDatePast(Date(view.year, view.month, d), today) && !IsDateFull(doluGunler, key)
                        then key else old(selectedDate)
    {
      var tarih := DateKey(Date(view.year, view.month, d));
      if !IsDatePast(Date(view.year, view.month, d), today) && !IsDateFull(doluGunler, tarih) {
        selectedDate := tarih;
      }
    }

    /** The effect that follows the form: a non-empty `tarih` becomes the selection. */
    method SyncFromForm(tarih: string)
      modifies this`selectedDate
      ensures selectedDate == if tarih != "" then tarih else old(selectedDate)
    {
      if tarih != "" {
        selectedDate := tarih;
      }
    }

    /** `handleSubmit`: without a selected date nothing happens; otherwise the
        date goes into the form and the wizard moves on. */
    method Submit(w: Wizard)
      requires w.Valid()
      modifies w
      ensures w.Valid()
      ensures selectedDate == "" ==> w.form == old(w.form) && w.step == old(w.step)
      ensures selectedDate != "" ==>
        w.form == old(w.form)["tarih" := Str(selectedDate)] && w.step == StepAfter(old(w.step), Next)
    {
      if selectedDate == "" {
        return;
      }
      w.UpdateFormData("tarih", Str(selectedDate));
      w.NextStep();
    }
  }
}
