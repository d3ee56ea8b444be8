/** The text of dates, times and timestamps sent to PostgreSQL clients, and the
    build script's own UTC formatter for the same calendar. */
module Timestamp {
  import opened Calendar
  import opened Common
  import opened Decimal

  const MICROS_PER_DAY: int := 86_400_000_000

  predicate InI64(n: int) { -0x8000_0000_0000_0000 <= n <= 0x7fff_ffff_ffff_ffff }

  /** `n as i32` and `n as u32`: the low 32 bits. */
  function AsI32(n: int): int { (n + 0x8000_0000) % 0x1_0000_0000 - 0x8000_0000 }

  function AsU32(n: int): nat { n % 0x1_0000_0000 }

  function DateText(date: Date): string {
    Format(date.year, 4) + "-" + Format(date.month, 2) + "-" + Format(date.day, 2)
  }

  /** The i32 sum in `format_pg_date`, which overflows above I32_MAX. */
  function PgDay(daysSince2000: int): int { DaysFromCivil(Date(2000, 1, 1)) + daysSince2000 }

  function FormatPgDate(daysSince2000: int): string
    requires InI32(PgDay(daysSince2000))
  {
    DateText(CivilFromDays(PgDay(daysSince2000)))
  }

  function TrimEndZeros(s: string): string {
    if s != [] && s[|s| - 1] == '0' then TrimEndZeros(s[..|s| - 1]) else s
  }

  function ClockText(secs: int): string {
    Format(secs / 3600, 2) + ":" + Format((secs % 3600) / 60, 2) + ":" + Format(secs % 60, 2)
  }

  function FractionText(frac: int): string {
    if frac == 0 then "" else "." + TrimEndZeros(Format(frac, 6))
  }

  function FormatPgTime(micros: int): string {
    var m := micros % MICROS_PER_DAY;
    ClockText(m / 1_000_000) + FractionText(m % 1_000_000)
  }

  function FormatPgTimestamp(micros: int): string
    requires InI64(micros)
  {
    var days := micros / MICROS_PER_DAY;
    TimestampDayFits(micros);
    FormatPgDate(AsI32(days)) + " " + FormatPgTime(micros % MICROS_PER_DAY)
  }

  lemma PgEpoch()
    ensures DaysFromCivil(Date(2000, 1, 1)) == 10957
  {
    DaysFromCivilClosed(Date(2000, 1, 1));
  }

  /** On every 64-bit timestamp the cast to i32 loses nothing and the sum with
      the epoch of 2000-01-01 stays in range. */
  lemma TimestampDayFits(micros: int)
    requires InI64(micros)
    ensures AsI32(micros / MICROS_PER_DAY) == micros / MICROS_PER_DAY
    ensures PgDay(AsI32(micros / MICROS_PER_DAY)) == micros / MICROS_PER_DAY + 10957
    ensures InI32(PgDay(AsI32(micros / MICROS_PER_DAY)))
  {
    var days := micros / MICROS_PER_DAY;
    assert -106751992 <= days <= 106751992;
    assert AsI32(days) == days;
    PgEpoch();
  }

  /** `format_pg_date` overflows exactly for the last 10957 day counts. */
  lemma PgDateOverflow(days: int)
    requires InI32(days)
    ensures InI32(PgDay(days)) <==> days <= 2147472690
  {
    PgEpoch();
  }

  // ---------- Readers of ISO 8601 dates and times ----------

  /** Year, month and day: the last two have two digits each, the year what is in front. */
  function ReadDate(t: string): Option<Date> {
    var n := |t|;
    if n < 10 || t[n - 6] != '-' || t[n - 3] != '-' then None
    else
      var year, month, day := t[..n - 6], t[n - 5..n - 3], t[n - 2..];
      if ReadInteger(year).None? || !AllDigits(month) || !AllDigits(day) then None
      else Some(Date(ReadInteger(year).value, ReadDigits(month), ReadDigits(day)))
  }

  /** Hours, minutes and seconds, as the second of the day. */
  function ReadClock(t: string): Option<int> {
    if |t| != 8 || t[2] != ':' || t[5] != ':' then None
    else if !AllDigits(t[..2]) || !AllDigits(t[3..5]) || !AllDigits(t[6..]) then None
    else Some(3600 * ReadDigits(t[..2]) + 60 * ReadDigits(t[3..5]) + ReadDigits(t[6..]))
  }

  /** A point and up to six digits, as microseconds: digits that are missing are zeros. */
  function ReadFraction(t: string): Option<int> {
    if t == [] then Some(0)
    else if t[0] != '.' || !(2 <= |t| <= 7) || !AllDigits(t[1..]) then None
    else Some(ReadDigits(t[1..] + Zeros(7 - |t|)))
  }

  function ReadTime(t: string): Option<int> {
    if |t| < 8 || ReadClock(t[..8]).None? || ReadFraction(t[8..]).None? then None
    else Some(1_000_000 * ReadClock(t[..8]).value + ReadFraction(t[8..]).value)
  }

  /** The microseconds since 2000-01-01, by the calendar's own count of days. */
  function ReadTimestamp(t: string): Option<int> {
    var p := Find(t, ' ');
    if p == |t| || ReadDate(t[..p]).None? || ReadTime(t[p + 1..]).None? then None
    else
      var days := DayNumber(ReadDate(t[..p]).value) - DayNumber(Date(2000, 1, 1));
      Some(days * MICROS_PER_DAY + ReadTime(t[p + 1..]).value)
  }

  // ---------- What is printed is read back ----------

  lemma ReadDateParts(year: string, month: string, day: string)
    requires |year| >= 4 && |month| == 2 && |day| == 2
    requires ReadInteger(year).Some? && AllDigits(month) && AllDigits(day)
    ensures ReadDate(year + "-" + month + "-" + day)
         == Some(Date(ReadInteger(year).value, ReadDigits(month), ReadDigits(day)))
  {
    hide ReadDigits, ReadInteger, AllDigits;
    var t := year + "-" + month + "-" + day;
    var n := |t|;
    assert t[..n - 6] == year && t[n - 5..n - 3] == month && t[n - 2..] == day;
  }

  /** Every valid date is read back; a year of 0 to 9999 takes the first four characters. */
  lemma DateReadBack(date: Date)
    requires ValidDate(date)
    ensures ReadDate(DateText(date)) == Some(date)
    ensures 0 <= date.year <= 9999 ==> |DateText(date)| == 10
  {
    hide Format, ReadDigits, ReadInteger, ReadDate;
    TwoDigits(date.month);
    TwoDigits(date.day);
    FormatReadBack(date.year, 4);
    if 0 <= date.year <= 9999 { FourDigits(date.year); }
    ReadDateParts(Format(date.year, 4), Format(date.month, 2), Format(date.day, 2));
  }

  lemma DateTextInjective(a: Date, b: Date)
    requires ValidDate(a) && ValidDate(b) && DateText(a) == DateText(b)
    ensures a == b
  {
    DateReadBack(a);
    DateReadBack(b);
  }

  lemma DateTextHasNoSpace(date: Date)
    ensures ' ' !in DateText(date)
  {
    FormatCharacters(date.year, 4);
    FormatCharacters(date.month, 2);
    FormatCharacters(date.day, 2);
  }

  lemma ClockValue(a: int)
    requires 0 <= a < 86400
    ensures a == 3600 * (a / 3600) + 60 * ((a % 3600) / 60) + a % 60
  {
  }

  lemma ClockReadBack(secs: int)
    requires 0 <= secs < 86400
    ensures |ClockText(secs)| == 8 && ReadClock(ClockText(secs)) == Some(secs)
  {
    var h, m, s := secs / 3600, (secs % 3600) / 60, secs % 60;
    ClockValue(secs);
    TwoDigits(h);
    TwoDigits(m);
    TwoDigits(s);
    hide Format, ReadDigits;
    var t := ClockText(secs);
    assert t == Format(h, 2) + ":" + Format(m, 2) + ":" + Format(s, 2);
    assert t[..2] == Format(h, 2) && t[3..5] == Format(m, 2) && t[6..] == Format(s, 2);
  }

  lemma {:induction false} TrimmedZeros(s: string)
    ensures |TrimEndZeros(s)| <= |s|
    ensures s == TrimEndZeros(s) + Zeros(|s| - |TrimEndZeros(s)|)
    ensures TrimEndZeros(s) != [] ==> TrimEndZeros(s)[|TrimEndZeros(s)| - 1] != '0'
  {
    if s != [] && s[|s| - 1] == '0' {
      TrimmedZeros(s[..|s| - 1]);
      assert s == s[..|s| - 1] + ['0'];
    }
  }

  lemma ZerosAreZero(n: nat)
    ensures AllDigits(Zeros(n)) && ReadDigits(Zeros(n)) == 0
  {
    ZerosValue(n, []);
    assert Zeros(n) + [] == Zeros(n);
  }

  /** The fraction is read back, and is as short as can be. */
  lemma FractionReadBack(frac: int)
    requires 0 <= frac < 1_000_000
    ensures ReadFraction(FractionText(frac)) == Some(frac)
    ensures if frac == 0 then FractionText(frac) == "" else FractionText(frac)[|FractionText(frac)| - 1] != '0'
  {
    if frac != 0 {
      var s := Format(frac, 6);
      SixDigits(frac);
      TrimmedZeros(s);
      var trimmed := TrimEndZeros(s);
      if trimmed == [] {
        assert s == Zeros(6);
        ZerosAreZero(6);
        assert false;
      } else {
        hide Format, ReadDigits, TrimEndZeros;
        var t := FractionText(frac);
        assert t[1..] == trimmed;
        assert forall k :: 0 <= k < |trimmed| ==> trimmed[k] == s[k];
      }
    }
  }

  /** Clock and fraction of every microsecond count are read back as the microsecond of the day. */
  lemma TimeReadBack(micros: int)
    ensures ReadTime(FormatPgTime(micros)) == Some(micros % MICROS_PER_DAY)
  {
    hide ClockText, FractionText, ReadClock, ReadFraction, ReadTime;
    var m := micros % MICROS_PER_DAY;
    ClockReadBack(m / 1_000_000);
    FractionReadBack(m % 1_000_000);
    ReadTimeParts(ClockText(m / 1_000_000), FractionText(m % 1_000_000));
  }

  lemma ReadTimeParts(clock: string, fraction: string)
    requires |clock| == 8 && ReadClock(clock).Some? && ReadFraction(fraction).Some?
    ensures ReadTime(clock + fraction) == Some(1_000_000 * ReadClock(clock).value + ReadFraction(fraction).value)
  {
    hide ReadClock, ReadFraction;
    var t := clock + fraction;
    assert t[..8] == clock && t[8..] == fraction;
  }

  lemma TimeTextInjective(a: int, b: int)
    requires 0 <= a < MICROS_PER_DAY && 0 <= b < MICROS_PER_DAY && FormatPgTime(a) == FormatPgTime(b)
    ensures a == b
  {
    hide FormatPgTime, ReadTime;
    TimeReadBack(a);
    TimeReadBack(b);
  }

  /** A date and a time, with a space between them. */
  lemma JoinedReadBack(date: Date, time: string)
    requires ValidDate(date) && ReadTime(time).Some?
    ensures ReadTimestamp(DateText(date) + " " + time)
         == Some((DayNumber(date) - DayNumber(Date(2000, 1, 1))) * MICROS_PER_DAY + ReadTime(time).value)
  {
    hide DateText, ReadDate, ReadTime, DayNumber;
    DateReadBack(date);
    DateTextHasNoSpace(date);
    FindFirst(DateText(date), ' ', time);
    var t := DateText(date) + " " + time;
    assert t[..|DateText(date)|] == DateText(date) && t[|DateText(date)| + 1..] == time;
  }

  lemma EpochDay()
    ensures DayNumber(Date(2000, 1, 1)) == 10957
  {
    PgEpoch();
    DaysFromCivilClosed(Date(2000, 1, 1));
  }

  lemma CivilDay(day: int)
    requires InI32(day)
    ensures ValidDate(CivilFromDays(day)) && DayNumber(CivilFromDays(day)) == day
  {
    hide CivilFromDays, DaysFromCivil, NoOverflow, DayNumber;
    CivilRoundTrip(day);
    DaysFromCivilClosed(CivilFromDays(day));
  }

  /** Every day count since 2000 for which the sum does not overflow is printed as its date. */
  lemma PgDateReadBack(days: int)
    requires InI32(PgDay(days))
    ensures var r := ReadDate(FormatPgDate(days));
            r.Some? && ValidDate(r.value) && DayNumber(r.value) - DayNumber(Date(2000, 1, 1)) == days
  {
    hide CivilFromDays, DateText, DaysFromCivil, NoOverflow, DayNumber, ReadDate;
    CivilDay(PgDay(days));
    DateReadBack(CivilFromDays(PgDay(days)));
    DaysFromCivilClosed(Date(2000, 1, 1));
  }

  lemma TimestampParts(micros: int)
    requires InI64(micros)
    ensures var day := micros / MICROS_PER_DAY + 10957;
            InI32(day)
            && FormatPgTimestamp(micros) == DateText(CivilFromDays(day)) + " " + FormatPgTime(micros % MICROS_PER_DAY)
  {
    hide CivilFromDays, DateText, FormatPgTime, DaysFromCivil, AsI32;
    TimestampDayFits(micros);
  }

  /** Every 64-bit timestamp is read back from its text: date, clock and trimmed fraction lose nothing. */
  lemma TimestampReadBack(micros: int)
    requires InI64(micros)
    ensures ReadTimestamp(FormatPgTimestamp(micros)) == Some(micros)
  {
    hide CivilFromDays, DateText, FormatPgTime, FormatPgTimestamp, ReadTime, ReadTimestamp, DayNumber, ValidDate;
    TimestampParts(micros);
    var day, time := micros / MICROS_PER_DAY + 10957, micros % MICROS_PER_DAY;
    CivilDay(day);
    EpochDay();
    TimeReadBack(time);
    assert time % MICROS_PER_DAY == time;
    JoinedReadBack(CivilFromDays(day), FormatPgTime(time));
  }

  lemma TimestampTextInjective(a: int, b: int)
    requires InI64(a) && InI64(b) && FormatPgTimestamp(a) == FormatPgTimestamp(b)
    ensures a == b
  {
    hide FormatPgTimestamp, ReadTimestamp;
    TimestampReadBack(a);
    TimestampReadBack(b);
  }

  // ---------- The build script's formatter ----------

  /** The u32 part of `format_utc`: year of era, month and day, none of whose
      subtractions goes below zero. */
  function UtcInEra(doe: nat): (nat, nat, nat)
    requires doe < 146097
  {
    YearOfEraRange(doe);
    var yoe := (doe - doe / 1460 + doe / 36524 - doe / 146096) / 365;
    var doy := doe - (365 * yoe + yoe / 4 - yoe / 100);
    FindMonth(doy);
    var mp := (5 * doy + 2) / 153;
    var d := doy - (153 * mp + 2) / 5 + 1;
    var mo := if mp < 10 then mp + 3 else mp - 9;
    (yoe, mo, d)
  }

  lemma YearOfEraRange(doe: nat)
    requires doe < 146097
    ensures var yoe := (doe - doe / 1460 + doe / 36524 - doe / 146096) / 365;
            0 <= yoe < 400 && 0 <= doe - (365 * yoe + yoe / 4 - yoe / 100) < 366
            && YearOfEra(doe) == yoe
  {
    var yoe, doy := FindYear(doe);
    YearOfEraInverts(yoe, doy);
    NumeratorFits(doe);
  }

  function UtcDate(unixDay: int): Date {
    var days := unixDay + 719_468;
    var era := TruncDiv(if days >= 0 then days else days - 146_096, 146_097);
    FloorDiv(days, 146097);
    var (yoe, mo, d) := UtcInEra(AsU32(days - era * 146_097));
    var y := yoe + era * 400;
    Date(if mo <= 2 then y + 1 else y, mo, d)
  }

  function FormatUtc(epoch: int): string {
    var days := epoch / 86400;
    var daySecs := epoch % 86400;
    DateText(UtcDate(days)) + " " +
    Format(daySecs / 3600, 2) + ":" + Format((daySecs % 3600) / 60, 2) + ":" + Format(daySecs % 60, 2)
  }

  lemma UtcInEraAgrees(era: int, doe: nat)
    requires doe < 146097
    ensures var (yoe, mo, d) := UtcInEra(doe);
            var y := yoe + era * 400;
            Date(if mo <= 2 then y + 1 else y, mo, d) == FromEra(era, doe)
  {
    YearOfEraRange(doe);
  }

  /** Both implementations name the same date for every day number. */
  lemma UtcDateAgrees(day: int)
    ensures UtcDate(day) == WideCivil(day)
  {
    hide UtcInEra, FromEra;
    var days := day + 719468;
    FloorDiv(days, 146097);
    UtcInEraAgrees(EraOf(days), days - EraOf(days) * 146097);
  }

  /** The build script's text of every second is read back as that second. */
  lemma UtcReadBack(epoch: int)
    ensures ReadTimestamp(FormatUtc(epoch)) == Some(1_000_000 * (epoch - 946_684_800))
  {
    hide WideCivil, UtcDate, DateText, ReadTimestamp, DayNumber, ClockText, ReadClock, Format, ReadTime, ValidDate;
    var day, secs := epoch / 86400, epoch % 86400;
    UtcDateAgrees(day);
    WideCivilValid(day);
    EpochDay();
    ClockReadBack(secs);
    assert ClockText(secs) == Format(secs / 3600, 2) + ":" + Format((secs % 3600) / 60, 2) + ":" + Format(secs % 60, 2)
      by { ClockIs(secs); }
    WholeSecond(secs);
    JoinedReadBack(WideCivil(day), ClockText(secs));
    assert FormatUtc(epoch) == DateText(WideCivil(day)) + " " + ClockText(secs);
  }

  lemma ClockIs(secs: int)
    ensures ClockText(secs) == Format(secs / 3600, 2) + ":" + Format((secs % 3600) / 60, 2) + ":" + Format(secs % 60, 2)
  {
  }

  lemma WholeSecond(secs: int)
    requires 0 <= secs < 86400
    ensures ReadTime(ClockText(secs)) == Some(1_000_000 * secs)
  {
    hide ClockText, ReadClock, ReadTime;
    ClockReadBack(secs);
    ReadTimeParts(ClockText(secs), "");
    assert ClockText(secs) + "" == ClockText(secs);
  }

  /** The build script and the wire server print the same text for the same
      second, wherever the wire format has a timestamp for it. */
  lemma UtcTextAgrees(epoch: int)
    requires InI64(1_000_000 * (epoch - 946_684_800))
    ensures FormatUtc(epoch) == FormatPgTimestamp(1_000_000 * (epoch - 946_684_800))
  {
    var micros := 1_000_000 * (epoch - 946_684_800);
    hide CivilFromDays, WideCivil, UtcDate, DateText, DaysFromCivil, NoOverflow, ValidDate, AsI32, Format;
    MicrosOfEpoch(epoch);
    TimestampDayFits(micros);
    CivilRoundTrip(epoch / 86400);
    UtcDateAgrees(epoch / 86400);
  }

  lemma MicrosOfEpoch(epoch: int)
    ensures var micros := 1_000_000 * (epoch - 946_684_800);
            && micros / MICROS_PER_DAY + 10957 == epoch / 86400
            && micros % MICROS_PER_DAY == 1_000_000 * (epoch % 86400)
            && micros % MICROS_PER_DAY / 1_000_000 == epoch % 86400
            && micros % MICROS_PER_DAY % 1_000_000 == 0
  {
    var micros := 1_000_000 * (epoch - 946_684_800);
    var d, r := epoch / 86400, epoch % 86400;
    assert 946_684_800 == 10957 * 86400;
    DivUnique(micros, MICROS_PER_DAY, d - 10957, 1_000_000 * r);
  }
}
