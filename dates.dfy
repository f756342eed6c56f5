/**
 * Calendar dates as the forms hold them ("YYYY-MM-DD" strings) and the
 * clock. `new Date("YYYY-MM-DD")` is midnight UTC of that day; a date is
 * modelled by its day number (days since 1970-01-01) and instants by
 * milliseconds since the epoch. The clock's reading and the time zone are
 * inputs.
 */
module Dates {
  import opened JsValues

  const DayMs: int := 86_400_000

  predicate IsLeapYear(y: int) {
    (y % 4 == 0 && y % 100 != 0) || y % 400 == 0
  }

  function DaysInMonth(y: int, m: int): int
    requires 1 <= m <= 12
  {
    if m == 2 then (if IsLeapYear(y) then 29 else 28)
    else if m == 4 || m == 6 || m == 9 || m == 11 then 30
    else 31
  }

  /** Number of days from 1970-01-01 to the proleptic Gregorian date y-m-d. */
  function DaysFromCivil(y: int, m: int, d: int): int
    requires 1 <= m <= 12
  {
    var y' := if m <= 2 then y - 1 else y;
    var era := y' / 400;
    var yoe := y' - era * 400;
    var mp := if m > 2 then m - 3 else m + 9;
    var doy := (153 * mp + 2) / 5 + d - 1;
    var doe := yoe * 365 + yoe / 4 - yoe / 100 + doy;
    era * 146097 + doe - 719468
  }

  predicate IsoShaped(s: string) {
    && |s| == 10
    && AllDigits(s[0..4]) && s[4] == '-' && AllDigits(s[5..7]) && s[7] == '-' && AllDigits(s[8..10])
  }

  /** `new Date(s)` for a date-only string: the day number of a real
      calendar date written "YYYY-MM-DD", otherwise `None` (Invalid Date). */
  function ParseIsoDate(s: string): (r: Option<int>)
    ensures r.Some? ==> IsoShaped(s)
    ensures r.Some? ==> 1 <= DigitsValue(s[5..7]) <= 12
    ensures r.Some? <==>
      && IsoShaped(s)
      && 1 <= DigitsValue(s[5..7]) <= 12
      && 1 <= DigitsValue(s[8..10]) <= DaysInMonth(DigitsValue(s[0..4]), DigitsValue(s[5..7]))
  {
    if !IsoShaped(s) then None
    else
      var y := DigitsValue(s[0..4]);
      var m := DigitsValue(s[5..7]);
      var d := DigitsValue(s[8..10]);
      if 1 <= m <= 12 && 1 <= d <= DaysInMonth(y, m) then Some(DaysFromCivil(y, m, d)) else None
  }

  /** `new Date(s).getTime()` as milliseconds, or `None` for Invalid Date. */
  function DateMs(s: string): (r: Option<int>)
    ensures r.Some? <==> ParseIsoDate(s).Some?
    ensures r.Some? ==> r.value % DayMs == 0 && r.value / DayMs == ParseIsoDate(s).value
  {
    match ParseIsoDate(s)
    case Some(day) => Some(day * DayMs)
    case None => None
  }

  /** The clock: milliseconds since the epoch (`Date.now()`) and the offset
      of the local time zone from UTC in milliseconds (UTC+2 is 7200000). */
  datatype Clock = Clock(nowMs: int, tzOffsetMs: int)

  /** The day number of the local calendar day the clock is in. */
  function LocalDay(c: Clock): int {
    (c.nowMs + c.tzOffsetMs) / DayMs
  }

  /** `new Date().setHours(0, 0, 0, 0)`: the instant the local day began. */
  function LocalMidnightMs(c: Clock): (r: int)
    ensures r <= c.nowMs < r + DayMs
  {
    LocalDay(c) * DayMs - c.tzOffsetMs
  }

  /** The numbering is the Unix day count. */
  lemma EpochIsDayZero()
    ensures ParseIsoDate("1970-01-01") == Some(0)
  {
    var s := "1970-01-01";
    assert s[0..4] == "1970";
    assert s[5..7] == "01";
    assert s[8..10] == "01";
    assert AllDigits("1970") && AllDigits("01");
    assert IsoShaped(s);
    Digits4("1970");
    Digits2("01");
  }

  lemma March10th2024()
    ensures ParseIsoDate("2024-03-10") == Some(19792)
  {
    var s := "2024-03-10";
    assert s[0..4] == "2024";
    assert s[5..7] == "03";
    assert s[8..10] == "10";
    assert AllDigits("2024") && AllDigits("03") && AllDigits("10");
    assert IsoShaped(s);
    Digits4("2024");
    Digits2("03");
    Digits2("10");
  }

  lemma Digits2(s: string)
    requires |s| == 2 && AllDigits(s)
    ensures DigitsValue(s) == DigitValue(s[0]) * 10 + DigitValue(s[1])
  {
    var p := s[..1];
    assert p[..0] == [];
    assert DigitsValue(p) == DigitsValue(p[..0]) * 10 + DigitValue(p[0]);
    assert DigitsValue(s) == DigitsValue(s[..1]) * 10 + DigitValue(s[1]);
  }

  lemma Digits4(s: string)
    requires |s| == 4 && AllDigits(s)
    ensures DigitsValue(s) == DigitValue(s[0]) * 1000 + DigitValue(s[1]) * 100 + DigitValue(s[2]) * 10 + DigitValue(s[3])
  {
    Digits2(s[..2]);
    assert s[..3][..2] == s[..2];
  }
}
