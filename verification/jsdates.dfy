/** The slice of JavaScript `Date` that the exporter uses: the local-time constructor
    `new Date(year, month, date)`, the local getters, `setHours`, `getTime`,
    `getTimezoneOffset` and the `getUTC…` getters (section 21.4 of ECMA-262).

    A date is held by its local wall-clock time in milliseconds since the epoch. The host's
    time zone is a parameter: `getTimezoneOffset()` in minutes (UTC minus local) as a
    function of that wall-clock time, so the time value `getTime()` returns is the wall
    clock plus the offset. */
module JsDates {
  import opened JsText
  import opened Calendar

  datatype JsDate = Valid(wall: int) | Invalid

  type Zone = int -> int

  // ------------------------------------------------------------ number arithmetic

  /** `x + k`: NaN stays NaN. */
  function Plus(x: Num, k: int): Num {
    match x
    case NaN => NaN
    case Int(v) => Int(v + k)
  }

  /** `x - y`. */
  function Minus(x: Num, y: Num): Num {
    if x.NaN? || y.NaN? then NaN else Int(x.v - y.v)
  }

  /** `x * k`. */
  function Times(x: Num, k: int): Num {
    match x
    case NaN => NaN
    case Int(v) => Int(v * k)
  }

  // ------------------------------------------------------------ construction

  /** The year the constructor uses: 0 to 99 stand for 1900 to 1999. */
  function FullYearOf(year: int): (y: int)
    ensures 0 <= year <= 99 ==> y == 1900 + year
    ensures (year < 0 || year > 99) ==> y == year
  {
    if 0 <= year <= 99 then 1900 + year else year
  }

  /** `new Date(year, month, date)`: local midnight of that day, month and date carrying
      over into the year and the month; any NaN argument gives an invalid date. */
  function NewLocalDate(year: Num, month: Num, date: Num): (d: JsDate)
    ensures d.Valid? <==> year.Int? && month.Int? && date.Int?
    ensures d.Valid? ==> d.wall % MsPerDay == 0
  {
    if year.NaN? || month.NaN? || date.NaN? then Invalid
    else Valid(MakeDay(FullYearOf(year.v), month.v, date.v) * MsPerDay)
  }

  // ------------------------------------------------------------ local getters

  /** `getFullYear()`. */
  function GetFullYear(d: JsDate): Num {
    if d.Invalid? then NaN else Int(CivilOf(d.wall / MsPerDay).year)
  }

  /** `getMonth()`, 0-based. */
  function GetMonth(d: JsDate): Num {
    if d.Invalid? then NaN else Int(CivilOf(d.wall / MsPerDay).month)
  }

  /** `getDate()`. */
  function GetDate(d: JsDate): Num {
    if d.Invalid? then NaN else Int(CivilOf(d.wall / MsPerDay).day)
  }

  /** The constructor gives back the calendar date it was handed, once that is a real
      date of the (two-digit-adjusted) year. */
  lemma NewLocalDateFields(year: int, month: nat, date: nat)
    requires month < 12 && 1 <= date <= DaysInMonth(FullYearOf(year), month)
    ensures var d := NewLocalDate(Int(year), Int(month), Int(date));
            GetFullYear(d) == Int(FullYearOf(year)) && GetMonth(d) == Int(month) && GetDate(d) == Int(date)
  {
    var n := MakeDay(FullYearOf(year), month, date);
    assert n * MsPerDay / MsPerDay == n;
    CivilOfMakeDay(FullYearOf(year), month, date);
  }

  /** `setHours(h, m, s, ms)`: same local day, the given time of day. */
  function SetHours(d: JsDate, h: int, m: int, s: int, ms: int): (r: JsDate)
    ensures r.Valid? <==> d.Valid?
    ensures d.Valid? && 0 <= h * MsPerHour + m * MsPerMinute + s * MsPerSecond + ms < MsPerDay ==>
              r.wall / MsPerDay == d.wall / MsPerDay &&
              r.wall % MsPerDay == h * MsPerHour + m * MsPerMinute + s * MsPerSecond + ms
  {
    if d.Invalid? then Invalid
    else Valid(d.wall / MsPerDay * MsPerDay + h * MsPerHour + m * MsPerMinute + s * MsPerSecond + ms)
  }

  /** `getTime()`: the time value, wall clock plus the zone's offset. */
  function GetTime(d: JsDate, zone: Zone): Num {
    if d.Invalid? then NaN else Int(d.wall + zone(d.wall) * MsPerMinute)
  }

  /** `getTimezoneOffset()`. */
  function GetTimezoneOffset(d: JsDate, zone: Zone): Num {
    if d.Invalid? then NaN else Int(zone(d.wall))
  }

  // ------------------------------------------------------------ UTC getters of a time value

  function GetUtcFullYear(t: Num): Num {
    if t.NaN? then NaN else Int(CivilOf(t.v / MsPerDay).year)
  }

  function GetUtcMonth(t: Num): Num {
    if t.NaN? then NaN else Int(CivilOf(t.v / MsPerDay).month)
  }

  function GetUtcDate(t: Num): Num {
    if t.NaN? then NaN else Int(CivilOf(t.v / MsPerDay).day)
  }

  function GetUtcHours(t: Num): Num {
    if t.NaN? then NaN else Int(t.v / MsPerHour % 24)
  }

  function GetUtcMinutes(t: Num): Num {
    if t.NaN? then NaN else Int(t.v / MsPerMinute % 60)
  }

  function GetUtcSeconds(t: Num): Num {
    if t.NaN? then NaN else Int(t.v / MsPerSecond % 60)
  }

  /** `x.toString().padStart(2, '0')`. */
  function Pad(x: Num): string {
    PadStart2(NumToString(x))
  }

  // ------------------------------------------------------------ formatDateForUntil

  /** Two digits of a number below one hundred. */
  function Digits2(n: nat): (s: string)
    requires n < 100
    ensures |s| == 2 && AllDigits(s)
  {
    [DigitChar(n / 10), DigitChar(n % 10)]
  }

  /** The calendar date of a day number as year, month and day digits. */
  function DateDigits(day: int): (s: string)
  {
    var c := CivilOf(day);
    NumToString(Int(c.year)) + Digits2(c.month + 1) + Digits2(c.day)
  }

  /** The wall-clock time of day in milliseconds as hour, minute and second digits. */
  function TimeDigits(ms: nat): (s: string)
    requires ms < MsPerDay
    ensures |s| == 6 && AllDigits(s)
  {
    Digits2(ms / MsPerHour) + Digits2(ms % MsPerHour / MsPerMinute) + Digits2(ms % MsPerMinute / MsPerSecond)
  }

  /** `formatDateForUntil(date)`: subtract the offset from the time value and print the UTC
      fields of the result as `YYYYMMDDTHHMMSSZ`. The subtraction undoes the zone, so what
      is printed is the local wall clock, whatever the zone; an invalid date prints NaN in
      every field. */
  function FormatDateForUntil(date: JsDate, zone: Zone): (s: string)
    ensures date.Invalid? ==> s == "NaNNaNNaNTNaNNaNNaNZ"
    ensures date.Valid? ==> s == DateDigits(date.wall / MsPerDay) + "T" + TimeDigits(date.wall % MsPerDay) + "Z"
  {
    var utc := Minus(GetTime(date, zone), Times(GetTimezoneOffset(date, zone), MsPerMinute));
    if date.Valid? then
      assert utc == Int(date.wall);
      UtcStampOfWall(date.wall);
      UtcStamp(utc)
    else
      UtcStamp(utc)
  }

  /** `YYYYMMDDTHHMMSSZ` from the UTC getters of time value `t`. */
  function UtcStamp(t: Num): (s: string)
    ensures t.NaN? ==> s == "NaNNaNNaNTNaNNaNNaNZ"
  {
    var date := NumToString(GetUtcFullYear(t)) + Pad(Plus(GetUtcMonth(t), 1)) + Pad(GetUtcDate(t));
    var time := Pad(GetUtcHours(t)) + Pad(GetUtcMinutes(t)) + Pad(GetUtcSeconds(t));
    date + "T" + time + "Z"
  }

  lemma UtcStampOfWall(w: int)
    ensures UtcStamp(Int(w)) == DateDigits(w / MsPerDay) + "T" + TimeDigits(w % MsPerDay) + "Z"
  {
    UtcFieldsOfWall(w);
  }

  lemma PadIsDigits2(n: nat)
    requires n < 100
    ensures Pad(Int(n)) == Digits2(n)
  {
    if n < 10 {
      assert NatToString(n) == [DigitChar(n)];
    } else {
      assert NatToString(n / 10) == [DigitChar(n / 10)];
    }
  }

  /** The UTC fields of a time value equal to the wall clock are the wall-clock fields. */
  lemma UtcFieldsOfWall(w: int)
    ensures NumToString(GetUtcFullYear(Int(w))) + Pad(Plus(GetUtcMonth(Int(w)), 1)) + Pad(GetUtcDate(Int(w)))
            == DateDigits(w / MsPerDay)
    ensures Pad(GetUtcHours(Int(w))) + Pad(GetUtcMinutes(Int(w))) + Pad(GetUtcSeconds(Int(w)))
            == TimeDigits(w % MsPerDay)
  {
    var c := CivilOf(w / MsPerDay);
    PadIsDigits2(c.month + 1);
    PadIsDigits2(c.day);
    var ms := w % MsPerDay;
    TimeOfDayFields(w);
    PadIsDigits2(ms / MsPerHour);
    PadIsDigits2(ms % MsPerHour / MsPerMinute);
    PadIsDigits2(ms % MsPerMinute / MsPerSecond);
  }

  /** Hours, minutes and seconds read from the time value agree with those read from the
      milliseconds since local midnight. */
  lemma TimeOfDayFields(w: int)
    ensures w / MsPerHour % 24 == w % MsPerDay / MsPerHour
    ensures w / MsPerMinute % 60 == w % MsPerDay % MsPerHour / MsPerMinute
    ensures w / MsPerSecond % 60 == w % MsPerDay % MsPerMinute / MsPerSecond
  {
    var day, h, mi, s, rs := ClockOf(w);
    var rm := s * 1000 + rs;
    var rh := mi * 60000 + rm;
    var ms := h * 3600000 + rh;
    DayRemainder(w, day, ms);
    HourQuotient(w, day * 24 + h, rh);
    HourQuotient(ms, h, rh);
    HourRemainder(ms, h, rh);
    MinuteQuotient(w, (day * 24 + h) * 60 + mi, rm);
    MinuteQuotient(rh, mi, rm);
    MinuteRemainder(ms, h * 60 + mi, rm);
    SecondQuotient(w, ((day * 24 + h) * 60 + mi) * 60 + s, rs);
    SecondQuotient(rm, s, rs);
    CarryOut(day, h, 24);
    CarryOut(day * 24 + h, mi, 60);
    CarryOut((day * 24 + h) * 60 + mi, s, 60);
  }

  /** A time value as days, hours, minutes, seconds and milliseconds. */
  lemma ClockOf(w: int) returns (day: int, h: int, mi: int, s: int, rs: int)
    ensures w == day * 86400000 + h * 3600000 + mi * 60000 + s * 1000 + rs
    ensures 0 <= h < 24 && 0 <= mi < 60 && 0 <= s < 60 && 0 <= rs < 1000
  {
    day := w / 86400000;
    var ms := w % 86400000;
    h := ms / 3600000;
    var rh := ms % 3600000;
    mi := rh / 60000;
    var rm := rh % 60000;
    s := rm / 1000;
    rs := rm % 1000;
  }

  /** Quotients and remainders by the day, the hour, the minute and the second: those of
      any `x == q * unit + r` with `0 <= r < unit`. */
  lemma DayRemainder(x: int, q: int, r: int)
    requires x == q * 86400000 + r && 0 <= r < 86400000
    ensures x % 86400000 == r
  {
  }

  lemma HourQuotient(x: int, q: int, r: int)
    requires x == q * 3600000 + r && 0 <= r < 3600000
    ensures x / 3600000 == q
  {
  }

  lemma HourRemainder(x: int, q: int, r: int)
    requires x == q * 3600000 + r && 0 <= r < 3600000
    ensures x % 3600000 == r
  {
  }

  lemma MinuteQuotient(x: int, q: int, r: int)
    requires x == q * 60000 + r && 0 <= r < 60000
    ensures x / 60000 == q
  {
  }

  lemma MinuteRemainder(x: int, q: int, r: int)
    requires x == q * 60000 + r && 0 <= r < 60000
    ensures x % 60000 == r
  {
  }

  lemma SecondQuotient(x: int, q: int, r: int)
    requires x == q * 1000 + r && 0 <= r < 1000
    ensures x / 1000 == q
  {
  }

  /** The remainder of `q * base + r` by `base` is `r`, for a digit `r` below `base`. */
  lemma CarryOut(q: int, r: int, base: int)
    requires base == 24 || base == 60
    requires 0 <= r < base
    ensures (q * base + r) % base == r
  {
  }

  /** The end of a local day prints as that day's date and `235959`. */
  lemma UntilOfEndOfDay(d: JsDate, zone: Zone)
    requires d.Valid?
    ensures FormatDateForUntil(SetHours(d, 23, 59, 59, 999), zone) == DateDigits(d.wall / MsPerDay) + "T235959Z"
  {
    var r := SetHours(d, 23, 59, 59, 999);
    assert 23 * MsPerHour + 59 * MsPerMinute + 59 * MsPerSecond + 999 == 86399999;
    assert r.wall / MsPerDay == d.wall / MsPerDay && r.wall % MsPerDay == 86399999;
    assert FormatDateForUntil(r, zone) == DateDigits(d.wall / MsPerDay) + "T" + TimeDigits(86399999) + "Z";
    LastMillisecondStamp(DateDigits(d.wall / MsPerDay));
  }

  lemma LastMillisecondStamp(date: string)
    ensures date + "T" + TimeDigits(86399999) + "Z" == date + "T235959Z"
  {
    assert Digits2(23) == "23" && Digits2(59) == "59";
    assert TimeDigits(86399999) == "235959";
  }

  /** For a four-digit year the text is eight digits, `T`, six digits, `Z`. */
  lemma UntilShape(date: JsDate, zone: Zone)
    requires date.Valid? && 1000 <= CivilOf(date.wall / MsPerDay).year < 10000
    ensures var s := FormatDateForUntil(date, zone);
            |s| == 16 && AllDigits(s[..8]) && s[8] == 'T' && AllDigits(s[9..15]) && s[15] == 'Z'
  {
    var c := CivilOf(date.wall / MsPerDay);
    var dd := DateDigits(date.wall / MsPerDay);
    DigitsConcat(NumToString(Int(c.year)), Digits2(c.month + 1));
    DigitsConcat(NumToString(Int(c.year)) + Digits2(c.month + 1), Digits2(c.day));
    StampShape(dd, TimeDigits(date.wall % MsPerDay));
  }

  lemma DigitsConcat(a: string, b: string)
    requires AllDigits(a) && AllDigits(b)
    ensures AllDigits(a + b)
  {
    assert forall k :: |a| <= k < |a + b| ==> (a + b)[k] == b[k - |a|];
  }

  lemma StampShape(date: string, time: string)
    requires |date| == 8 && AllDigits(date) && |time| == 6 && AllDigits(time)
    ensures var s := date + "T" + time + "Z";
            |s| == 16 && AllDigits(s[..8]) && s[8] == 'T' && AllDigits(s[9..15]) && s[15] == 'Z'
  {
    var s := date + "T" + time + "Z";
    assert s[..8] == date;
    assert s[9..15] == time;
  }

  /** The text does not depend on the host's time zone. */
  lemma UntilZoneIndependent(date: JsDate, zone1: Zone, zone2: Zone)
    ensures FormatDateForUntil(date, zone1) == FormatDateForUntil(date, zone2)
  {
  }
}
