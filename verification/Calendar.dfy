/** Day numbers and civil dates of the proleptic Gregorian calendar, as the
    PostgreSQL wire server computes them, against the calendar rule itself.

    The functions below keep the source's 32- and 64-bit arithmetic: division
    truncates toward zero, and where an i32 expression could leave its range the
    range is stated and proved. */
module Calendar {

  const I32_MIN: int := -0x8000_0000
  const I32_MAX: int := 0x7fff_ffff

  predicate InI32(n: int) { I32_MIN <= n <= I32_MAX }

  /** Integer division as Rust has it: toward zero. */
  function TruncDiv(a: int, b: int): int
    requires b > 0
  {
    if a >= 0 then a / b else -((-a) / b)
  }

  // ---------- The calendar rule ----------

  datatype Date = Date(year: int, month: int, day: int)

  predicate IsLeap(year: int) {
    year % 4 == 0 && (year % 100 != 0 || year % 400 == 0)
  }

  function DaysInMonth(year: int, month: int): int {
    if month == 2 then (if IsLeap(year) then 29 else 28)
    else if month in {4, 6, 9, 11} then 30
    else 31
  }

  predicate ValidDate(date: Date) {
    1 <= date.month <= 12 && 1 <= date.day <= DaysInMonth(date.year, date.month)
  }

  function NextDay(date: Date): Date {
    if date.day < DaysInMonth(date.year, date.month) then Date(date.year, date.month, date.day + 1)
    else if date.month < 12 then Date(date.year, date.month + 1, 1)
    else Date(date.year + 1, 1, 1)
  }

  predicate Before(a: Date, b: Date) {
    a.year < b.year || (a.year == b.year && (a.month < b.month || (a.month == b.month && a.day < b.day)))
  }

  // ---------- The source's two formulas ----------

  /** The intermediate values of the i32 computation, in order of evaluation. */
  datatype FromCivilSteps = FromCivilSteps(y: int, shifted: int, era: int, eraYears: int, yoe: int, doy: int,
                                           doe: int, eraDays: int, sum: int, days: int)

  function FromCivil(year: int, month: int, day: int): FromCivilSteps {
    var y := year - (if month <= 2 then 1 else 0);
    var shifted := if y >= 0 then y else y - 399;
    var era := TruncDiv(shifted, 400);
    var eraYears := era * 400;
    var yoe := y - eraYears;
    var monthAdj := if month > 2 then month - 3 else month + 9;
    var doy := TruncDiv(153 * monthAdj + 2, 5) + day - 1;
    var doe := yoe * 365 + TruncDiv(yoe, 4) - TruncDiv(yoe, 100) + doy;
    var eraDays := era * 146097;
    FromCivilSteps(y, shifted, era, eraYears, yoe, doy, doe, eraDays, eraDays + doe, eraDays + doe - 719468)
  }

  function DaysFromCivil(date: Date): int {
    FromCivil(date.year, date.month, date.day).days
  }

  predicate NoOverflow(date: Date) {
    var s := FromCivil(date.year, date.month, date.day);
    && InI32(s.y) && InI32(s.shifted) && InI32(s.eraYears) && InI32(s.yoe) && InI32(s.doy)
    && InI32(s.yoe * 365) && InI32(s.doe) && InI32(s.eraDays) && InI32(s.sum) && InI32(s.days)
  }

  function YearOfEra(doe: int): int {
    TruncDiv(doe - TruncDiv(doe, 1460) + TruncDiv(doe, 36524) - TruncDiv(doe, 146096), 365)
  }

  /** Day doy of the year that begins on the first of March of year y. */
  function FromMarch(y: int, doy: int): Date {
    var mp := TruncDiv(5 * doy + 2, 153);
    var d := doy - TruncDiv(153 * mp + 2, 5) + 1;
    var m := mp + (if mp < 10 then 3 else -9);
    Date(y + (if m <= 2 then 1 else 0), m, d)
  }

  function EraOf(shifted: int): int {
    TruncDiv(if shifted >= 0 then shifted else shifted - 146096, 146097)
  }

  function FromEra(era: int, doe: int): Date {
    var yoe := YearOfEra(doe);
    var y := yoe + era * 400;
    var doy := doe - (365 * yoe + TruncDiv(yoe, 4) - TruncDiv(yoe, 100));
    FromMarch(y, doy)
  }

  /** The date before its conversion to (i32, u32, u32). */
  function WideCivil(z: int): Date {
    var shifted := z + 719468;
    var era := EraOf(shifted);
    FromEra(era, shifted - era * 146097)
  }

  /** `try_from(..).unwrap_or(..)` on each component. */
  function CivilFromDays(z: int): Date {
    var w := WideCivil(z);
    Date(if InI32(w.year) then w.year else I32_MAX,
         if 0 <= w.month <= 0xffff_ffff then w.month else 1,
         if 0 <= w.day <= 0xffff_ffff then w.day else 1)
  }

  // ---------- Years that begin in March ----------

  /** Days before the March-based year y, counted from year 0. */
  function YearStart(y: int): int {
    365 * y + y / 4 - y / 100 + y / 400
  }

  function YearLength(y: int): int {
    if IsLeap(y + 1) then 366 else 365
  }

  function MonthStart(mp: int): int {
    (153 * mp + 2) / 5
  }

  function MarchYear(date: Date): int { if date.month <= 2 then date.year - 1 else date.year }

  function MarchMonth(date: Date): int { if date.month <= 2 then date.month + 9 else date.month - 3 }

  lemma YearStartStep(y: int)
    ensures YearStart(y + 1) == YearStart(y) + YearLength(y)
  {
    DivStep(y, 4);
    DivStep(y, 100);
    DivStep(y, 400);
  }

  lemma DivStep(y: int, k: int)
    requires k in {4, 100, 400}
    ensures (y + 1) / k == y / k + (if (y + 1) % k == 0 then 1 else 0)
  {
  }

  lemma FloorDiv(y: int, k: int)
    requires k in {400, 146097}
    ensures TruncDiv(if y >= 0 then y else y - (k - 1), k) == y / k
  {
  }

  /** Division by k and its remainder, moved by e blocks of k * m. */
  lemma DivShift(e: int, r: int, k: int, m: int)
    requires k > 0
    ensures (e * m * k + r) / k == e * m + r / k
    ensures (e * m * k + r) % k == r % k
  {
    var n, q := e * m, r / k;
    assert e * m * k + r == (n + q) * k + r % k;
    DivUnique(n * k + r, k, n + q, r % k);
  }

  lemma DivUnique(x: int, k: int, q: int, r: int)
    requires 0 <= r < k && x == q * k + r
    ensures x / k == q && x % k == r
  {
    var d := x / k - q;
    assert d * k == r - x % k;
    assert -k < d * k < k;
    assert d >= 1 ==> d * k >= k;
    assert d <= -1 ==> d * k <= -k;
  }

  lemma EraShift(era: int, yoe: int)
    ensures YearLength(era * 400 + yoe) == YearLength(yoe)
    ensures YearStart(era * 400 + yoe) == era * 146097 + YearStart(yoe)
  {
    DivShift(era, yoe, 4, 100);
    DivShift(era, yoe, 100, 4);
    DivShift(era, yoe, 400, 1);
    DivShift(era, yoe + 1, 4, 100);
    DivShift(era, yoe + 1, 100, 4);
    DivShift(era, yoe + 1, 400, 1);
  }

  function DayNumber(date: Date): int {
    YearStart(MarchYear(date)) + MonthStart(MarchMonth(date)) + date.day - 1 - 719468
  }

  /** The source's formula is the March-year count, whatever the date. */
  lemma DaysFromCivilClosed(date: Date)
    requires 1 <= date.month <= 12
    ensures DaysFromCivil(date) == DayNumber(date)
  {
    var y := MarchYear(date);
    FloorDiv(y, 400);
    EraShift(y / 400, y % 400);
    YearStartInEra(y % 400);
  }

  lemma MonthTable()
    ensures MonthStart(0) == 0 && MonthStart(1) == 31 && MonthStart(2) == 61 && MonthStart(3) == 92
    ensures MonthStart(4) == 122 && MonthStart(5) == 153 && MonthStart(6) == 184 && MonthStart(7) == 214
    ensures MonthStart(8) == 245 && MonthStart(9) == 275 && MonthStart(10) == 306 && MonthStart(11) == 337
  {
  }

  lemma MonthLength(date: Date)
    requires 1 <= date.month <= 12
    ensures var mp := MarchMonth(date);
            DaysInMonth(date.year, date.month) ==
              if mp == 11 then YearLength(MarchYear(date)) - MonthStart(11) else MonthStart(mp + 1) - MonthStart(mp)
  {
    MonthTable();
  }

  lemma DayNumberNext(date: Date)
    requires ValidDate(date)
    ensures ValidDate(NextDay(date))
    ensures DayNumber(NextDay(date)) == DayNumber(date) + 1
  {
    MonthLength(date);
    MonthTable();
    YearStartStep(MarchYear(date));
  }

  // ---------- Recovering the year within an era ----------

  /** Centuries, four-year blocks and years of a year of era. */
  lemma YearDigits(yoe: int, c: int, q: int, r: int)
    requires 0 <= c <= 3 && 0 <= q <= 24 && 0 <= r <= 3 && yoe == 100 * c + 4 * q + r
    ensures yoe / 100 == c && yoe / 4 == 25 * c + q && yoe / 400 == 0
    ensures YearStart(yoe) == 36524 * c + 1461 * q + 365 * r
    ensures IsLeap(yoe + 1) <==> r == 3 && (q < 24 || c == 3)
  {
  }

  function YoeNumerator(doe: int): int {
    doe - doe / 1460 + doe / 36524 - doe / 146096
  }

  lemma NumeratorYear(yoe: int, doy: int)
    requires 0 <= yoe < 400 && 0 <= doy < YearLength(yoe)
    ensures 0 <= YearStart(yoe) + doy < 146097
    ensures YoeNumerator(YearStart(yoe) + doy) / 365 == yoe
  {
    var c, q, r := yoe / 100, (yoe % 100) / 4, yoe % 4;
    YearDigits(yoe, c, q, r);
    var doe := YearStart(yoe) + doy;
    var early := 24 * c + q + 365 * r + doy;
    var extra := if early >= 1460 then 1 else 0;
    DivUnique(doe, 1460, 25 * c + q + extra, early - 1460 * extra);
    CenturyTerms(doe, c);
    DivUnique(YoeNumerator(doe), 365, yoe, doy - extra);
  }

  lemma CenturyTerms(doe: int, c: int)
    requires 0 <= c <= 3 && 36524 * c <= doe && (doe < 36524 * (c + 1) || (c == 3 && doe == 146096))
    ensures doe / 36524 - doe / 146096 == c
  {
  }

  lemma FindYear(doe: int) returns (yoe: int, doy: int)
    requires 0 <= doe < 146097
    ensures 0 <= yoe < 400 && 0 <= doy < YearLength(yoe)
    ensures doe == YearStart(yoe) + doy
  {
    var c := if doe / 36524 <= 3 then doe / 36524 else 3;
    var d := doe - 36524 * c;
    var q := d / 1461;
    var e := d - 1461 * q;
    var r := if e / 365 <= 3 then e / 365 else 3;
    yoe, doy := 100 * c + 4 * q + r, e - 365 * r;
    YearDigits(yoe, c, q, r);
  }

  lemma FindMonth(doy: int)
    requires 0 <= doy < 366
    ensures var mp := (5 * doy + 2) / 153;
            0 <= mp <= 11 && MonthStart(mp) <= doy && (mp < 11 ==> doy < MonthStart(mp + 1))
  {
    MonthTable();
  }

  lemma MonthOfDay(mp: int, doy: int)
    requires 0 <= mp <= 11 && MonthStart(mp) <= doy < 366 && (mp < 11 ==> doy < MonthStart(mp + 1))
    ensures (5 * doy + 2) / 153 == mp
  {
    MonthTable();
  }

  lemma YearOfEraInverts(yoe: int, doy: int)
    requires 0 <= yoe < 400 && 0 <= doy < YearLength(yoe)
    ensures 0 <= YearStart(yoe) + doy < 146097
    ensures YearOfEra(YearStart(yoe) + doy) == yoe
  {
    NumeratorYear(yoe, doy);
    NumeratorFits(YearStart(yoe) + doy);
  }

  lemma NumeratorFits(doe: int)
    requires 0 <= doe < 146097
    ensures YearOfEra(doe) == YoeNumerator(doe) / 365
  {
    assert 0 <= YoeNumerator(doe);
  }

  lemma EraOfDay(era: int, doe: int)
    requires 0 <= doe < 146097
    ensures EraOf(era * 146097 + doe) == era
  {
    var shifted := era * 146097 + doe;
    FloorDiv(shifted, 146097);
    assert shifted / 146097 == era;
  }

  lemma FromEraMarch(era: int, yoe: int, doy: int)
    requires 0 <= yoe < 400 && 0 <= doy < YearLength(yoe)
    ensures FromEra(era, YearStart(yoe) + doy) == FromMarch(era * 400 + yoe, doy)
  {
    YearOfEraInverts(yoe, doy);
    YearStartInEra(yoe);
  }

  lemma YearStartInEra(yoe: int)
    requires 0 <= yoe < 400
    ensures 365 * yoe + TruncDiv(yoe, 4) - TruncDiv(yoe, 100) == YearStart(yoe)
  {
  }

  lemma FromMarchValid(y: int, doy: int)
    requires 0 <= doy < YearLength(y)
    ensures ValidDate(FromMarch(y, doy))
    ensures DayNumber(FromMarch(y, doy)) == YearStart(y) + doy - 719468
  {
    FindMonth(doy);
    MonthTable();
    var date := FromMarch(y, doy);
    assert MarchYear(date) == y && MonthStart(MarchMonth(date)) + date.day - 1 == doy;
    MonthLength(date);
  }

  lemma MarchOfDate(date: Date) returns (doy: int)
    requires ValidDate(date)
    ensures 0 <= doy < YearLength(MarchYear(date))
    ensures DayNumber(date) == YearStart(MarchYear(date)) + doy - 719468
    ensures FromMarch(MarchYear(date), doy) == date
  {
    doy := MonthStart(MarchMonth(date)) + date.day - 1;
    MonthLength(date);
    MonthTable();
    MonthOfDay(MarchMonth(date), doy);
  }

  lemma WideCivilEra(era: int, doe: int)
    requires 0 <= doe < 146097
    ensures WideCivil(era * 146097 + doe - 719468) == FromEra(era, doe)
  {
    EraOfDay(era, doe);
  }

  lemma DayOfEraRange(yoe: int, doy: int)
    requires 0 <= yoe < 400 && 0 <= doy < YearLength(yoe)
    ensures 0 <= YearStart(yoe) + doy < 146097
  {
    NumeratorYear(yoe, doy);
  }

  lemma WideCivilInEra(era: int, yoe: int, doy: int, doe: int)
    requires 0 <= yoe < 400 && 0 <= doy < YearLength(yoe) && doe == YearStart(yoe) + doy
    ensures WideCivil(era * 146097 + doe - 719468) == FromMarch(era * 400 + yoe, doy)
  {
    hide FromMarch, FromEra;
    DayOfEraRange(yoe, doy);
    calc {
      WideCivil(era * 146097 + doe - 719468);
      { WideCivilEra(era, doe); }
      FromEra(era, doe);
      { FromEraMarch(era, yoe, doy); }
      FromMarch(era * 400 + yoe, doy);
    }
  }

  lemma WideCivilMarch(y: int, doy: int, z: int)
    requires 0 <= doy < YearLength(y) && z == YearStart(y) + doy - 719468
    ensures WideCivil(z) == FromMarch(y, doy)
  {
    hide WideCivil, FromMarch;
    var era, yoe := y / 400, y % 400;
    EraShift(era, yoe);
    WideCivilInEra(era, yoe, doy, YearStart(yoe) + doy);
  }

  lemma MarchOfDay(z: int) returns (y: int, doy: int)
    ensures 0 <= doy < YearLength(y)
    ensures z == YearStart(y) + doy - 719468
  {
    var era := (z + 719468) / 146097;
    var yoe, d := FindYear((z + 719468) % 146097);
    EraShift(era, yoe);
    y, doy := era * 400 + yoe, d;
  }

  lemma WideCivilInverts(date: Date, z: int)
    requires ValidDate(date) && z == DayNumber(date)
    ensures WideCivil(z) == date
  {
    hide WideCivil;
    var doy := MarchOfDate(date);
    WideCivilMarch(MarchYear(date), doy, z);
  }

  lemma WideCivilValid(z: int)
    ensures ValidDate(WideCivil(z)) && DayNumber(WideCivil(z)) == z
  {
    hide WideCivil;
    var y, doy := MarchOfDay(z);
    WideCivilMarch(y, doy, z);
    FromMarchValid(y, doy);
  }

  // ---------- The order of dates ----------

  lemma {:induction false} YearStartGrows(y: int, later: int)
    requires y < later
    ensures YearStart(y) + YearLength(y) <= YearStart(later)
    decreases later - y
  {
    YearStartStep(y);
    if y + 1 < later {
      YearStartGrows(y + 1, later);
    }
  }

  lemma {:induction false} MonthStartGrows(mp: int, later: int)
    requires 0 <= mp < later <= 11
    ensures MonthStart(mp + 1) <= MonthStart(later)
  {
    MonthTable();
  }

  lemma DayNumberGrows(a: Date, b: Date)
    requires ValidDate(a) && ValidDate(b) && Before(a, b)
    ensures DayNumber(a) < DayNumber(b)
  {
    var doyA := MarchOfDate(a);
    var doyB := MarchOfDate(b);
    if MarchYear(a) < MarchYear(b) {
      YearStartGrows(MarchYear(a), MarchYear(b));
    } else if MarchMonth(a) < MarchMonth(b) {
      MonthLength(a);
      MonthStartGrows(MarchMonth(a), MarchMonth(b));
    }
  }

  /** Day numbers order dates as the calendar does. */
  lemma DayNumberOrders(a: Date, b: Date)
    requires ValidDate(a) && ValidDate(b)
    ensures Before(a, b) <==> DayNumber(a) < DayNumber(b)
  {
    if Before(a, b) {
      DayNumberGrows(a, b);
    } else if a != b {
      DayNumberGrows(b, a);
    }
  }

  // ---------- What the 32-bit functions guarantee ----------

  const FIRST_DATE := Date(-5877641, 6, 23)
  const LAST_DATE := Date(5879610, 9, 9)

  lemma Extremes()
    ensures ValidDate(FIRST_DATE) && DayNumber(FIRST_DATE) == I32_MIN
    ensures ValidDate(LAST_DATE) && DayNumber(LAST_DATE) == I32_MAX - 719468
  {
  }

  lemma StepsClosed(date: Date)
    requires 1 <= date.month <= 12
    ensures var s := FromCivil(date.year, date.month, date.day);
            s.y == MarchYear(date) && s.era == s.y / 400 && s.yoe == s.y % 400 && s.sum == s.days + 719468
  {
    FloorDiv(MarchYear(date), 400);
  }

  lemma OverflowRange(date: Date)
    requires ValidDate(date)
    ensures NoOverflow(date) <==> I32_MIN <= DayNumber(date) <= I32_MAX - 719468
  {
    DaysFromCivilClosed(date);
    StepsClosed(date);
    var s := FromCivil(date.year, date.month, date.day);
    assert 0 <= s.doy < 366 by {
      var doy := MarchOfDate(date);
    }
    assert 0 <= s.doe < 146097 + 366;
  }

  /** The i32 arithmetic of `days_from_civil` stays in range on a valid date
      exactly from -5877641-06-23 to 5879610-09-09. */
  lemma NoOverflowExactly(date: Date)
    requires ValidDate(date)
    ensures NoOverflow(date) <==> !Before(date, FIRST_DATE) && !Before(LAST_DATE, date)
  {
    Extremes();
    OverflowRange(date);
    DayNumberOrders(date, FIRST_DATE);
    DayNumberOrders(LAST_DATE, date);
  }

  lemma WideYearSmall(z: int)
    requires InI32(z)
    ensures InI32(WideCivil(z).year)
  {
    WideCivilValid(z);
    var date := WideCivil(z);
    var doy := MarchOfDate(date);
    var y := MarchYear(date);
    assert 365 * y + y / 4 - y / 100 + y / 400 <= z + 719468;
  }

  /** Every 32-bit day number names a valid date, no fallback value is ever
      used, and the date's number is that day again. */
  lemma CivilRoundTrip(z: int)
    requires InI32(z)
    ensures CivilFromDays(z) == WideCivil(z)
    ensures ValidDate(CivilFromDays(z))
    ensures DaysFromCivil(CivilFromDays(z)) == z
    ensures NoOverflow(CivilFromDays(z)) <==> z <= I32_MAX - 719468
  {
    hide WideCivil, FromCivil;
    WideCivilValid(z);
    WideYearSmall(z);
    DaysFromCivilClosed(WideCivil(z));
    OverflowRange(WideCivil(z));
  }

  /** Every valid date whose number is computed without overflow is recovered
      from that number. */
  lemma DaysRoundTrip(date: Date)
    requires ValidDate(date) && NoOverflow(date)
    ensures InI32(DaysFromCivil(date)) && CivilFromDays(DaysFromCivil(date)) == date
  {
    DaysFromCivilClosed(date);
    WideCivilInverts(date, DayNumber(date));
    CivilRoundTrip(DaysFromCivil(date));
  }

  lemma SuccessorOf(date: Date, z: int)
    requires ValidDate(date) && DayNumber(date) == z
    ensures WideCivil(z + 1) == NextDay(date)
  {
    hide WideCivil;
    DayNumberNext(date);
    WideCivilInverts(NextDay(date), z + 1);
  }

  /** Day z + 1 is the calendar day after day z. */
  lemma CivilSuccessor(z: int)
    requires InI32(z) && InI32(z + 1)
    ensures CivilFromDays(z + 1) == NextDay(CivilFromDays(z))
  {
    CivilRoundTrip(z);
    hide WideCivil, FromCivil;
    CivilRoundTrip(z + 1);
    WideCivilValid(z);
    SuccessorOf(WideCivil(z), z);
  }

  /** Day 0 is 1970-01-01; with the successor law this fixes every other day. */
  lemma Epoch()
    ensures CivilFromDays(0) == Date(1970, 1, 1)
  {
    hide WideCivil, FromCivil;
    assert DayNumber(Date(1970, 1, 1)) == 0;
    WideCivilInverts(Date(1970, 1, 1), 0);
    CivilRoundTrip(0);
  }
}
