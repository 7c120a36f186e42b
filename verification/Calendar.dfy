/** The civil calendar of the solver worker: dates are RFC 3339 `full-date` strings, turned into
    epoch day numbers and back by integer arithmetic alone. */
module Calendar {

  // ---------------------------------------------------------------- the reference calendar

  datatype Date = Date(year: int, month: int, day: int)

  /** RFC 3339, Appendix C. */
  predicate Leap(year: int) {
    year % 4 == 0 && (year % 100 != 0 || year % 400 == 0)
  }

  /** RFC 3339, section 5.7. */
  function DaysInMonth(year: int, month: int): int {
    if month == 2 then (if Leap(year) then 29 else 28)
    else if month == 4 || month == 6 || month == 9 || month == 11 then 30
    else 31
  }

  predicate IsDate(d: Date) {
    1 <= d.year <= 9999 && 1 <= d.month <= 12 && 1 <= d.day <= DaysInMonth(d.year, d.month)
  }

  const FIRST_DATE := Date(1, 1, 1)
  const LAST_DATE := Date(9999, 12, 31)

  /** The day after, by the calendar's own rules. */
  function Next(d: Date): Date {
    if d.day < DaysInMonth(d.year, d.month) then Date(d.year, d.month, d.day + 1)
    else if d.month < 12 then Date(d.year, d.month + 1, 1)
    else Date(d.year + 1, 1, 1)
  }

  /** `n` days after 0001-01-01, counted one day at a time. */
  function Later(n: nat): Date {
    if n == 0 then FIRST_DATE else Next(Later(n - 1))
  }

  predicate Before(a: Date, b: Date) {
    a.year < b.year
    || (a.year == b.year && (a.month < b.month || (a.month == b.month && a.day < b.day)))
  }

  // ---------------------------------------------------------------- the code's arithmetic

  /** Python's `//` by a positive divisor is Dafny's `/`: both round towards minus infinity. */
  function DayNumber(d: Date): int {
    var y := d.year - (if d.month <= 2 then 1 else 0);
    var era := (if y >= 0 then y else y - 399) / 400;
    var yoe := y - era * 400;
    var doy := (153 * (d.month + (if d.month > 2 then -3 else 9)) + 2) / 5 + d.day - 1;
    var doe := yoe * 365 + yoe / 4 - yoe / 100 + doy;
    era * 146097 + doe - 719468
  }

  function DateOfDayNumber(number: int): Date {
    var z := number + 719468;
    var era := (if z >= 0 then z else z - 146096) / 146097;
    var doe := z - era * 146097;
    var yoe := (doe - doe / 1460 + doe / 36524 - doe / 146096) / 365;
    var y := yoe + era * 400;
    var doy := doe - (365 * yoe + yoe / 4 - yoe / 100);
    var mp := (5 * doy + 2) / 153;
    var d := doy - (153 * mp + 2) / 5 + 1;
    var m := mp + (if mp < 10 then 3 else -9);
    Date(y + (if m <= 2 then 1 else 0), m, d)
  }

  datatype Weekday = Sunday | Monday | Tuesday | Wednesday | Thursday | Friday | Saturday

  const WEEKDAY_OF_EPOCH_DAY: seq<Weekday> := [Thursday, Friday, Saturday, Sunday, Monday, Tuesday, Wednesday]

  function WeekdayOfDay(number: int): Weekday {
    WEEKDAY_OF_EPOCH_DAY[number % 7]
  }

  const FIRST_DAY := -719162
  const LAST_DAY := 2932896

  predicate InCalendar(number: int) {
    FIRST_DAY <= number <= LAST_DAY
  }

  // ---------------------------------------------------------------- the day number is a day count

  /** Days before 1 March of the March-based year `y`, offset so that the epoch is day 0. */
  function MarchYear(y: int): int {
    365 * y + y / 4 - y / 100 + y / 400 - 719468
  }

  function DayOfMarchYear(month: int, day: int): int {
    (153 * (month + (if month > 2 then -3 else 9)) + 2) / 5 + day - 1
  }

  lemma EraSplit(y: int, e: int, r: int)
    requires 0 <= r < 400 && y == 400 * e + r
    ensures y / 4 == 100 * e + r / 4
    ensures y / 100 == 4 * e + r / 100
    ensures y / 400 == e
    ensures y % 4 == r % 4 && y % 100 == r % 100 && y % 400 == r
  {
  }

  lemma DayNumberClosedForm(d: Date)
    requires d.year >= 1
    ensures DayNumber(d)
         == MarchYear(d.year - (if d.month <= 2 then 1 else 0)) + DayOfMarchYear(d.month, d.day)
  {
    var y := d.year - (if d.month <= 2 then 1 else 0);
    EraSplit(y, y / 400, y % 400);
  }

  lemma Multiples(y: int)
    ensures y % 400 == 0 ==> y % 100 == 0
    ensures y % 100 == 0 ==> y % 4 == 0
  {
    if y % 400 == 0 { MultipleOf100(4 * (y / 400)); }
    if y % 100 == 0 { MultipleOf4(25 * (y / 100)); }
  }

  lemma MultipleOf100(k: int)
    ensures (100 * k) % 100 == 0
  {
  }

  lemma MultipleOf4(k: int)
    ensures (4 * k) % 4 == 0
  {
  }

  lemma QuotientStep(y: int)
    ensures (y + 1) / 4 == y / 4 + (if (y + 1) % 4 == 0 then 1 else 0)
    ensures (y + 1) / 100 == y / 100 + (if (y + 1) % 100 == 0 then 1 else 0)
    ensures (y + 1) / 400 == y / 400 + (if (y + 1) % 400 == 0 then 1 else 0)
  {
  }

  lemma MarchYearStep(y: int)
    requires y >= 0
    ensures MarchYear(y + 1) == MarchYear(y) + (if Leap(y + 1) then 366 else 365)
  {
    Multiples(y + 1);
    QuotientStep(y);
  }

  lemma DayOfMarchYearStep(month: int)
    requires 1 <= month < 12
    ensures month != 2 ==> DayOfMarchYear(month + 1, 1) == DayOfMarchYear(month, DaysInMonth(1, month)) + 1
    ensures DayOfMarchYear(2, 28) == 364 && DayOfMarchYear(2, 29) == 365 && DayOfMarchYear(3, 1) == 0
  {
  }

  lemma MonthStep(year: int, month: int)
    requires year >= 1 && 1 <= month < 12
    ensures DayNumber(Date(year, month + 1, 1)) == DayNumber(Date(year, month, DaysInMonth(year, month))) + 1
  {
    DayNumberClosedForm(Date(year, month + 1, 1));
    DayNumberClosedForm(Date(year, month, DaysInMonth(year, month)));
    DayOfMarchYearStep(month);
    if month == 2 { MarchYearStep(year - 1); }
  }

  lemma YearStep(year: int)
    requires year >= 1
    ensures DayNumber(Date(year + 1, 1, 1)) == DayNumber(Date(year, 12, 31)) + 1
  {
    DayNumberClosedForm(Date(year + 1, 1, 1));
    DayNumberClosedForm(Date(year, 12, 31));
  }

  lemma SameMonthStep(d: Date)
    requires d.year >= 1
    ensures DayNumber(Date(d.year, d.month, d.day + 1)) == DayNumber(d) + 1
  {
  }

  lemma DayNumberOfNext(d: Date)
    requires IsDate(d)
    ensures DayNumber(Next(d)) == DayNumber(d) + 1
  {
    hide DayNumber;
    if d.day < DaysInMonth(d.year, d.month) {
      SameMonthStep(d);
    } else if d.month < 12 {
      MonthStep(d.year, d.month);
    } else {
      YearStep(d.year);
    }
  }

  lemma NextIsDate(d: Date)
    requires IsDate(d) && d != LAST_DATE
    ensures IsDate(Next(d))
  {
  }

  lemma EpochIsDayZero()
    ensures DayNumber(Date(1970, 1, 1)) == 0
  {
  }

  lemma CalendarEnds()
    ensures DayNumber(FIRST_DATE) == FIRST_DAY && DayNumber(LAST_DATE) == LAST_DAY
  {
  }

  /** The code's day number counts days: `n` days after 0001-01-01 it is `FIRST_DAY + n`. */
  lemma {:induction false} DayNumberCounts(n: nat)
    requires n <= LAST_DAY - FIRST_DAY
    ensures IsDate(Later(n)) && DayNumber(Later(n)) == FIRST_DAY + n
  {
    hide DayNumber;
    CalendarEnds();
    if n == 0 {
    } else {
      DayNumberCounts(n - 1);
      DayNumberOfNext(Later(n - 1));
      NextIsDate(Later(n - 1));
    }
  }

  lemma DayNumberInCalendar(d: Date)
    requires IsDate(d)
    ensures InCalendar(DayNumber(d))
  {
  }

  /** Outside the calendar the negative-era branch is written for a division that truncates, and
      Python's floors: the day number is exact if and only if the March-based year is not negative
      or is the last of its era; on every other year it is one day short. */
  lemma DayNumberExactIff(d: Date)
    requires 1 <= d.month <= 12
    ensures var y := d.year - (if d.month <= 2 then 1 else 0);
            var exact := MarchYear(y) + DayOfMarchYear(d.month, d.day);
            && (DayNumber(d) == exact <==> y >= 0 || y % 400 == 399)
            && (DayNumber(d) != exact ==> DayNumber(d) == exact - 1)
  {
    var y := d.year - (if d.month <= 2 then 1 else 0);
    var e, r := y / 400, y % 400;
    EraSplit(y, e, r);
    if y < 0 && r != 399 {
      assert (y - 399) / 400 == e - 1;
      assert y - (e - 1) * 400 == r + 400;
      assert (r + 400) / 4 == r / 4 + 100 && (r + 400) / 100 == r / 100 + 4;
    }
  }

  // ---------------------------------------------------------------- the inverse

  /** The year-of-era quotient, for a day written as century `c`, four-year cycle `q`, year `k`. */
  lemma YearOfEra(c: int, q: int, k: int, doy: int)
    requires 0 <= c <= 3 && 0 <= q <= 24 && 0 <= k <= 3 && 0 <= doy <= 365
    requires doy == 365 ==> k == 3 && (q == 24 ==> c == 3)
    ensures var doe := 36524 * c + 1461 * q + 365 * k + doy;
            0 <= doe <= 146096
            && (doe - doe / 1460 + doe / 36524 - doe / 146096) / 365 == 100 * c + 4 * q + k
  {
    var t := 1461 * q + 365 * k + doy;
    var doe := 36524 * c + t;
    assert doe / 36524 - doe / 146096 == c by {
      if t < 36524 { assert doe / 36524 == c; } else { assert doe == 146096; }
    }
    var rest := 24 * c + q + 365 * k + doy;
    assert 0 <= rest <= 1556;
    assert doe == 1460 * (25 * c + q) + rest;
    assert doe / 1460 == 25 * c + q + rest / 1460;
    assert doe - doe / 1460 + c == 365 * (100 * c + 4 * q + k) + (doy - rest / 1460);
    assert 0 <= doy - rest / 1460 < 365;
  }

  lemma MonthOfDay(month: int, day: int)
    requires 1 <= month <= 12 && 1 <= day <= 31
    requires day <= DaysInMonth(4, month)
    ensures var doy := DayOfMarchYear(month, day);
            var mp := (5 * doy + 2) / 153;
            && 0 <= doy <= 365
            && mp == month + (if month > 2 then -3 else 9)
            && doy - (153 * mp + 2) / 5 + 1 == day
  {
  }

  lemma DayNumberByEra(d: Date)
    requires IsDate(d)
    ensures var y := d.year - (if d.month <= 2 then 1 else 0);
            var r := y % 400;
            DayNumber(d) == (y / 400) * 146097 + (365 * r + r / 4 - r / 100 + DayOfMarchYear(d.month, d.day)) - 719468
  {
  }

  /** `y` is year `k` of four-year cycle `q` of century `c` of an era. */
  predicate SplitsYear(y: int, era: int, c: int, q: int, k: int) {
    era >= 0 && 0 <= c <= 3 && 0 <= q <= 24 && 0 <= k <= 3 && y == 400 * era + 100 * c + 4 * q + k
  }

  lemma YearSplits(y: int) returns (era: int, c: int, q: int, k: int)
    requires y >= 0
    ensures SplitsYear(y, era, c, q, k)
  {
    var r := y % 400;
    era, c := y / 400, r / 100;
    var s := r % 100;
    q, k := s / 4, s % 4;
  }

  lemma CycleOf(c: int, q: int, k: int)
    requires 0 <= q <= 24 && 0 <= k <= 3
    ensures (100 * c + 4 * q + k) / 4 == 25 * c + q && (100 * c + 4 * q + k) / 100 == c
  {
    assert 100 * c + 4 * q + k == 4 * (25 * c + q) + k;
    assert 0 <= 4 * q + k < 100;
  }

  /** Only the fourth years of the cycles end in a leap day, and of the last cycles that of the last century. */
  lemma LeapYearSplit(y: int, era: int, c: int, q: int, k: int)
    requires SplitsYear(y, era, c, q, k) && Leap(y + 1)
    ensures k == 3 && (q == 24 ==> c == 3)
  {
    hide Leap;
    LeapRemainders(y + 1);
    FourthYear(100 * era + 25 * c + q, k);
    if q == 24 {
      LastCentury(era, c);
    }
  }

  lemma LeapRemainders(y: int)
    requires Leap(y)
    ensures y % 4 == 0 && (y % 100 != 0 || y % 400 == 0)
  {
  }

  lemma FourthYear(a: int, k: int)
    requires 0 <= k <= 3 && (4 * a + k + 1) % 4 == 0
    ensures k == 3
  {
  }

  lemma LastCentury(era: int, c: int)
    requires 0 <= c <= 3
    ensures (400 * era + 100 * c + 100) % 100 == 0
    ensures (400 * era + 100 * c + 100) % 400 == 0 ==> c == 3
  {
    assert 400 * era + 100 * c + 100 == 100 * (4 * era + c + 1);
  }

  lemma LeapDay(d: Date, doy: int)
    requires IsDate(d) && doy == DayOfMarchYear(d.month, d.day) >= 365
    ensures d.month == 2 && Leap(d.year)
  {
  }

  lemma DayNumberOfSplit(d: Date, y: int, era: int, c: int, q: int, k: int)
    requires IsDate(d) && y == d.year - (if d.month <= 2 then 1 else 0) && SplitsYear(y, era, c, q, k)
    ensures DayNumber(d)
         == era * 146097 + (36524 * c + 1461 * q + 365 * k + DayOfMarchYear(d.month, d.day)) - 719468
  {
    hide DayNumber, DayOfMarchYear, IsDate;
    DayNumberByEra(d);
    CycleOf(c, q, k);
    var r := 100 * c + 4 * q + k;
    assert 0 <= r < 400 && y / 400 == era && y % 400 == r;
  }

  /** `date_of_day_number` undoes `day_number` on every calendar date. */
  lemma DateOfDayNumberOf(d: Date)
    requires IsDate(d)
    ensures DateOfDayNumber(DayNumber(d)) == d
  {
    hide DayNumber, DateOfDayNumber, DayOfMarchYear, DaysInMonth, Leap;
    var y := d.year - (if d.month <= 2 then 1 else 0);
    var era, c, q, k := YearSplits(y);
    DayNumberOfSplit(d, y, era, c, q, k);
    var doy := DayOfMarchYear(d.month, d.day);
    DateFitsMonth(d);
    MonthOfDay(d.month, d.day);
    if doy == 365 {
      LeapDay(d, doy);
      LeapYearSplit(y, era, c, q, k);
    }
    DateOfSplit(DayNumber(d), era, c, q, k, doy, d);
  }

  lemma DateOfSplit(number: int, era: int, c: int, q: int, k: int, doy: int, d: Date)
    requires SplitsYear(400 * era + 100 * c + 4 * q + k, era, c, q, k) && 0 <= doy <= 365
    requires doy == 365 ==> k == 3 && (q == 24 ==> c == 3)
    requires number == era * 146097 + (36524 * c + 1461 * q + 365 * k + doy) - 719468
    requires (5 * doy + 2) / 153 == d.month + (if d.month > 2 then -3 else 9)
    requires doy - (153 * ((5 * doy + 2) / 153) + 2) / 5 + 1 == d.day
    requires 1 <= d.month <= 12 && d.year == 400 * era + 100 * c + 4 * q + k + (if d.month <= 2 then 1 else 0)
    ensures DateOfDayNumber(number) == d
  {
    hide DateOfDayNumber;
    YearOfEra(c, q, k, doy);
    CycleOf(c, q, k);
    DateFromParts(number, era, 36524 * c + 1461 * q + 365 * k + doy, 100 * c + 4 * q + k, doy, d);
  }

  lemma DateFitsMonth(d: Date)
    requires IsDate(d)
    ensures 1 <= d.day <= DaysInMonth(4, d.month) <= 31
  {
  }

  lemma EraOf(number: int, era: int, doe: int)
    requires 0 <= doe < 146097 && number == era * 146097 + doe - 719468
    ensures (number + 719468) / 146097 == era
  {
  }

  lemma DateFromParts(number: int, era: int, doe: int, yoe: int, doy: int, d: Date)
    requires 0 <= era && 0 <= doe < 146097 && number == era * 146097 + doe - 719468
    requires yoe == (doe - doe / 1460 + doe / 36524 - doe / 146096) / 365
    requires doy == doe - (365 * yoe + yoe / 4 - yoe / 100)
    requires (5 * doy + 2) / 153 == d.month + (if d.month > 2 then -3 else 9)
    requires doy - (153 * ((5 * doy + 2) / 153) + 2) / 5 + 1 == d.day
    requires 1 <= d.month <= 12 && d.year == yoe + era * 400 + (if d.month <= 2 then 1 else 0)
    ensures DateOfDayNumber(number) == d
  {
    EraOf(number, era, doe);
  }

  /** `day_number` undoes `date_of_day_number` on every day number of the calendar. */
  lemma DayNumberOfDate(number: int)
    requires InCalendar(number)
    ensures IsDate(DateOfDayNumber(number)) && DayNumber(DateOfDayNumber(number)) == number
  {
    hide DayNumber, DateOfDayNumber, IsDate;
    var n: nat := number - FIRST_DAY;
    DayNumberCounts(n);
    DateOfDayNumberOf(Later(n));
  }

  lemma EveryDateIsCounted(d: Date)
    requires IsDate(d)
    ensures InCalendar(DayNumber(d)) && Later(DayNumber(d) - FIRST_DAY) == d
  {
    hide DayNumber, DateOfDayNumber, IsDate, Later;
    DayNumberInCalendar(d);
    var n: nat := DayNumber(d) - FIRST_DAY;
    DayNumberCounts(n);
    DateOfDayNumberOf(Later(n));
    DateOfDayNumberOf(d);
  }

  // ---------------------------------------------------------------- order

  lemma {:induction false} LaterIncreases(i: nat, j: nat)
    requires i < j <= LAST_DAY - FIRST_DAY
    ensures Before(Later(i), Later(j))
  {
    hide DayNumber;
    DayNumberCounts(j - 1);
    assert Before(Later(j - 1), Later(j));
    if i < j - 1 { LaterIncreases(i, j - 1); }
  }

  lemma DayNumberIncreases(a: Date, b: Date)
    requires IsDate(a) && IsDate(b)
    ensures DayNumber(a) < DayNumber(b) <==> Before(a, b)
  {
    hide DayNumber, IsDate, Later;
    EveryDateIsCounted(a);
    EveryDateIsCounted(b);
    if DayNumber(a) < DayNumber(b) {
      LaterIncreases(DayNumber(a) - FIRST_DAY, DayNumber(b) - FIRST_DAY);
    } else if DayNumber(b) < DayNumber(a) {
      LaterIncreases(DayNumber(b) - FIRST_DAY, DayNumber(a) - FIRST_DAY);
    }
  }

  // ---------------------------------------------------------------- the strings

  function Pow10(w: nat): nat {
    if w == 0 then 1 else 10 * Pow10(w - 1)
  }

  /** `%0wd` of a number that fits. */
  function Digits(n: nat, w: nat): (s: string)
    ensures |s| == w
  {
    if w == 0 then "" else Digits(n / 10, w - 1) + ['0' + (n % 10) as char]
  }

  predicate AllDigits(s: string) {
    forall i :: 0 <= i < |s| ==> '0' <= s[i] <= '9'
  }

  /** Python's `int` of a digit string. */
  function Value(s: string): nat
    requires AllDigits(s)
  {
    if s == "" then 0 else 10 * Value(s[..|s| - 1]) + (s[|s| - 1] as int - '0' as int)
  }

  lemma {:induction false} ValueOfDigits(n: nat, w: nat)
    requires n < Pow10(w)
    ensures AllDigits(Digits(n, w)) && Value(Digits(n, w)) == n
  {
    if w == 0 {
    } else {
      ValueOfDigits(n / 10, w - 1);
      assert Digits(n, w)[..w - 1] == Digits(n / 10, w - 1);
    }
  }

  /** Python's `<` on strings. */
  predicate LexLess(s: string, t: string) {
    if t == "" then false
    else if s == "" then true
    else s[0] < t[0] || (s[0] == t[0] && LexLess(s[1..], t[1..]))
  }

  lemma {:induction false} LexLessConcat(p: string, q: string, s: string, t: string)
    requires |p| == |q|
    ensures LexLess(p + s, q + t) <==> LexLess(p, q) || (p == q && LexLess(s, t))
  {
    if p == "" {
      assert p + s == s && q + t == t;
    } else {
      assert (p + s)[1..] == p[1..] + s && (q + t)[1..] == q[1..] + t;
      LexLessConcat(p[1..], q[1..], s, t);
      assert p == q <==> p[0] == q[0] && p[1..] == q[1..] by {
        assert p == [p[0]] + p[1..] && q == [q[0]] + q[1..];
      }
    }
  }

  lemma {:induction false} LexLessDigits(a: nat, b: nat, w: nat)
    requires a < Pow10(w) && b < Pow10(w)
    ensures LexLess(Digits(a, w), Digits(b, w)) <==> a < b
    ensures Digits(a, w) == Digits(b, w) <==> a == b
  {
    ValueOfDigits(a, w);
    ValueOfDigits(b, w);
    if w > 0 {
      LexLessDigits(a / 10, b / 10, w - 1);
      LexLessConcat(Digits(a / 10, w - 1), Digits(b / 10, w - 1), ['0' + (a % 10) as char], ['0' + (b % 10) as char]);
    }
  }

  function Render(d: Date): string
    requires IsDate(d)
  {
    Digits(d.year, 4) + ("-" + (Digits(d.month, 2) + ("-" + Digits(d.day, 2))))
  }

  predicate WellFormed(s: string) {
    |s| == 10 && AllDigits(s[0..4]) && AllDigits(s[5..7]) && AllDigits(s[8..10])
  }

  /** The three slices `day_number` reads. */
  function Parse(s: string): Date
    requires WellFormed(s)
  {
    Date(Value(s[0..4]), Value(s[5..7]), Value(s[8..10]))
  }

  lemma PartsFit(d: Date)
    requires IsDate(d)
    ensures 0 <= d.year < Pow10(4) && 0 <= d.month < Pow10(2) && 0 <= d.day < Pow10(2)
  {
  }

  lemma ParseOfRender(d: Date)
    requires IsDate(d)
    ensures WellFormed(Render(d)) && Parse(Render(d)) == d
  {
    hide Pow10, Digits, Value, DaysInMonth;
    PartsFit(d);
    ValueOfDigits(d.year, 4);
    ValueOfDigits(d.month, 2);
    ValueOfDigits(d.day, 2);
    var s := Render(d);
    assert s[0..4] == Digits(d.year, 4);
    assert s[5..7] == Digits(d.month, 2);
    assert s[8..10] == Digits(d.day, 2);
  }

  /** Comparing two date strings is comparing their day numbers: every `<=` the worker writes on
      date strings is a comparison of day numbers, and so is every window it takes. */
  lemma DateStringOrder(a: Date, b: Date)
    requires IsDate(a) && IsDate(b)
    ensures LexLess(Render(a), Render(b)) <==> DayNumber(a) < DayNumber(b)
    ensures Render(a) == Render(b) <==> DayNumber(a) == DayNumber(b)
  {
    assert Pow10(4) == 10000 && Pow10(2) == 100;
    LexLessDigits(a.year, b.year, 4);
    LexLessDigits(a.month, b.month, 2);
    LexLessDigits(a.day, b.day, 2);
    var ma, mb := "-" + Digits(a.day, 2), "-" + Digits(b.day, 2);
    var ya, yb := Digits(a.month, 2) + ma, Digits(b.month, 2) + mb;
    LexLessConcat(Digits(a.year, 4), Digits(b.year, 4), "-" + ya, "-" + yb);
    LexLessConcat("-", "-", ya, yb);
    LexLessConcat(Digits(a.month, 2), Digits(b.month, 2), ma, mb);
    LexLessConcat("-", "-", Digits(a.day, 2), Digits(b.day, 2));
    assert !LexLess("-", "-");
    DayNumberIncreases(a, b);
    ParseOfRender(a);
    ParseOfRender(b);
    DateOfDayNumberOf(a);
    DateOfDayNumberOf(b);
  }

  /** Both round trips at the level the worker uses: strings to numbers and back. */
  lemma StringRoundTrip(d: Date, number: int)
    requires IsDate(d) && InCalendar(number)
    ensures WellFormed(Render(d)) && DateOfDayNumber(DayNumber(Parse(Render(d)))) == d
    ensures IsDate(DateOfDayNumber(number)) && WellFormed(Render(DateOfDayNumber(number)))
    ensures DayNumber(Parse(Render(DateOfDayNumber(number)))) == number
  {
    ParseOfRender(d);
    DateOfDayNumberOf(d);
    DayNumberOfDate(number);
    ParseOfRender(DateOfDayNumber(number));
  }

  // ---------------------------------------------------------------- weekdays

  function WeekdayAfter(w: Weekday): Weekday {
    match w
    case Sunday => Monday
    case Monday => Tuesday
    case Tuesday => Wednesday
    case Wednesday => Thursday
    case Thursday => Friday
    case Friday => Saturday
    case Saturday => Sunday
  }

  lemma WeekdayAdvances(d: Date)
    requires IsDate(d)
    ensures WeekdayOfDay(DayNumber(Next(d))) == WeekdayAfter(WeekdayOfDay(DayNumber(d)))
  {
    DayNumberOfNext(d);
    WeekdayStep(DayNumber(d), DayNumber(Next(d)));
  }

  lemma WeekdayStep(number: int, next: int)
    requires next == number + 1
    ensures WeekdayOfDay(next) == WeekdayAfter(WeekdayOfDay(number))
  {
  }

  /** The day-of-week algorithm of RFC 3339, Appendix B; its table starts on Sunday. */
  function AppendixB(d: Date): Weekday
    requires IsDate(d)
  {
    var month := if d.month <= 2 then d.month + 10 else d.month - 2;
    var year := if d.month <= 2 then d.year - 1 else d.year;
    var cent := year / 100;
    var yy := year % 100;
    var days := [Sunday, Monday, Tuesday, Wednesday, Thursday, Friday, Saturday];
    days[((26 * month - 2) / 10 + d.day + yy + yy / 4 + cent / 4 + 5 * cent) % 7]
  }

  lemma MonthOffset(month: int)
    requires 1 <= month <= 12
    ensures var m := if month <= 2 then month + 10 else month - 2;
            (DayOfMarchYear(month, 0) + 3 - (26 * m - 2) / 10) % 7 == 0
  {
    match month
    case 1 =>
    case 2 =>
    case 3 =>
    case 4 =>
    case 5 =>
    case 6 =>
    case 7 =>
    case 8 =>
    case 9 =>
    case 10 =>
    case 11 =>
    case 12 =>
  }

  lemma MonthTerm(month: int, day: int)
    requires 1 <= month <= 12
    ensures var m := if month <= 2 then month + 10 else month - 2;
            (DayOfMarchYear(month, day) + 3 - (26 * m - 2) / 10 - day) % 7 == 0
  {
    MonthOffset(month);
    var m := if month <= 2 then month + 10 else month - 2;
    assert DayOfMarchYear(month, day) + 3 - (26 * m - 2) / 10 - day == DayOfMarchYear(month, 0) + 3 - (26 * m - 2) / 10;
  }

  /** The worker's weekday table agrees with RFC 3339, Appendix B, on every date. */
  lemma WeekdayAgreesWithAppendixB(d: Date)
    requires IsDate(d)
    ensures WeekdayOfDay(DayNumber(d)) == AppendixB(d)
  {
    var m := if d.month <= 2 then d.month + 10 else d.month - 2;
    var year := if d.month <= 2 then d.year - 1 else d.year;
    var cent, yy := year / 100, year % 100;
    DayNumberClosedForm(d);
    MonthTerm(d.month, d.day);
    var j := (DayOfMarchYear(d.month, d.day) + 3 - (26 * m - 2) / 10 - d.day) / 7;
    YearTerm(year, cent, yy);
    var b := (26 * m - 2) / 10 + d.day + yy + yy / 4 + cent / 4 + 5 * cent;
    TableShift(DayNumber(d), b, 5217 * cent + 52 * yy + j);
  }

  lemma YearTerm(year: int, cent: int, yy: int)
    requires 0 <= year && cent == year / 100 && yy == year % 100
    ensures MarchYear(year) == yy + yy / 4 + cent / 4 + 5 * cent + 7 * (5217 * cent + 52 * yy) - 719468
  {
    assert year / 4 == 25 * cent + yy / 4;
    assert year / 400 == cent / 4;
  }

  lemma TableShift(number: int, b: int, j: int)
    requires number == b + 7 * j - 719471
    ensures WeekdayOfDay(number) == [Sunday, Monday, Tuesday, Wednesday, Thursday, Friday, Saturday][b % 7]
  {
    assert number == 7 * (j - 102782 + b / 7) + b % 7 + 3;
  }
}
