/** The pure half of the exporter (src/background.ts): turning one `CourseMeeting` into the
    event record handed to the `ics` library, parsing the meeting's dates, the download's
    file name, the default reminder, and the failure logic of an export.

    The host is a parameter: its local time zone and its `new Date(text)` parser, which
    `parseDate` falls back to for text that is not three dash-separated parts. */
module Serializer {
  import opened Types
  import opened JsText
  import opened Calendar
  import opened JsDates
  import opened Normalize
  import opened Semester

  datatype Host = Host(zone: Zone, parseDate: string -> JsDate)

  // ------------------------------------------------------------ parseDate

  /** `parseDate(dateStr)`: three dash-separated parts are read with `parseInt` as year,
      1-based month and day of a local date; anything else goes to the host's parser. */
  function ParseDate(dateStr: string, host: Host): (d: JsDate)
    ensures |Split(dateStr, '-')| != 3 ==> d == host.parseDate(dateStr)
    ensures var parts := Split(dateStr, '-');
            |parts| == 3 ==> (d.Valid? <==> ParseInt(parts[0]).Int? && ParseInt(parts[1]).Int? && ParseInt(parts[2]).Int?)
  {
    var parts := Split(dateStr, '-');
    if |parts| == 3 then
      NewLocalDate(ParseInt(parts[0]), Plus(ParseInt(parts[1]), -1), ParseInt(parts[2]))
    else
      host.parseDate(dateStr)
  }

  /** `YYYY-MM-DD` text splits at its two dashes. */
  lemma SplitDateText(year: nat, month: nat, day: nat)
    requires month < 100 && day < 100
    ensures Split(DateText(year, (month, day)), '-') == [NatToString(year), TwoDigits(month), TwoDigits(day)]
  {
    var y, m, d := NatToString(year), TwoDigits(month), TwoDigits(day);
    assert DateText(year, (month, day)) == y + ['-'] + (m + ['-'] + d);
    DigitsHaveNo(y, '-');
    DigitsHaveNo(m, '-');
    DigitsHaveNo(d, '-');
    SplitAfterPiece(y, '-', m + ['-'] + d);
    SplitAfterPiece(m, '-', d);
    SplitNoSeparator(d, '-');
  }

  lemma DigitsHaveNo(s: string, c: char)
    requires AllDigits(s) && !IsDigit(c)
    ensures c !in s
  {
  }

  /** A date the scraper writes, `YYYY-MM-DD`, parses to that local calendar date (a year
      below 100 read as 19xx, as the `Date` constructor does). */
  lemma ParseDateText(year: nat, month: nat, day: nat, host: Host)
    requires 1 <= month <= 12 && 1 <= day <= DaysInMonth(FullYearOf(year), month - 1)
    ensures var d := ParseDate(DateText(year, (month, day)), host);
            GetFullYear(d) == Int(FullYearOf(year)) && GetMonth(d) == Int(month - 1) && GetDate(d) == Int(day)
  {
    var parts := Split(DateText(year, (month, day)), '-');
    SplitDateText(year, month, day);
    NumberOfNatToString(year);
    assert ParseInt(parts[0]) == Int(year);
    assert ParseInt(parts[1]) == Int(month) by { TwoDigitsParse(month); }
    assert ParseInt(parts[2]) == Int(day) by { TwoDigitsParse(day); }
    assert ParseDate(DateText(year, (month, day)), host) == NewLocalDate(Int(year), Int(month - 1), Int(day));
    NewLocalDateFields(year, month - 1, day);
  }

  lemma TwoDigitsParse(n: nat)
    requires n < 100
    ensures ParseInt(TwoDigits(n)) == Int(n)
  {
  }

  /** The parse the source's test expects: `2025-08-28` is 28 August 2025, month 7. */
  lemma ParseDateExample(host: Host)
    ensures var d := ParseDate("2025-08-28", host);
            GetFullYear(d) == Int(2025) && GetMonth(d) == Int(7) && GetDate(d) == Int(28)
  {
    assert DateText(2025, (8, 28)) == "2025-08-28" by {
      FallDates(2025);
      assert NatToString(2025) == "2025";
    }
    ParseDateText(2025, 8, 28, host);
  }

  // ------------------------------------------------------------ clock fields

  /** `time.split(':').map(Number)` destructured into hour and minute; the minute is
      `undefined` (here `None`) when there is no colon. */
  datatype ClockFields = ClockFields(hour: Num, minute: Option<Num>)

  function SplitClock(time: string): ClockFields {
    var parts := Split(time, ':');
    ClockFields(NumberOf(parts[0]), if |parts| >= 2 then Some(NumberOf(parts[1])) else None)
  }

  /** An `HH:MM` time, as `parseTime` prints it, reads back as its hour and minute. */
  lemma SplitClockRoundTrip(hour: nat, minute: nat)
    requires hour < 100 && minute < 100
    ensures SplitClock(TwoDigits(hour) + ":" + TwoDigits(minute)) == ClockFields(Int(hour), Some(Int(minute)))
  {
    var h, m := TwoDigits(hour), TwoDigits(minute);
    DigitsHaveNo(h, ':');
    DigitsHaveNo(m, ':');
    assert h + ":" + m == h + [':'] + m;
    SplitAfterPiece(h, ':', m);
    SplitNoSeparator(m, ':');
  }

  // ------------------------------------------------------------ the event

  /** A `[year, month, day, hour, minute]` tuple; an `undefined` minute is `None`. */
  datatype DateTime = DateTime(year: Num, month: Num, day: Num, hour: Num, minute: Option<Num>)

  /** `{ minutes, before }`: how long before the start the alarm fires. */
  datatype Trigger = Trigger(minutes: int, before: bool)

  datatype Alarm = Alarm(action: string, description: string, trigger: Trigger)

  /** The event attributes handed to `ics.createEvents`; `alarms` is `undefined` (`None`)
      when there is no reminder. */
  datatype Event = Event(
    uid: string,
    title: string,
    description: string,
    location: string,
    start: DateTime,
    end: DateTime,
    startInputType: string,
    endInputType: string,
    recurrenceRule: string,
    alarms: Option<seq<Alarm>>)

  /** The event's identifier: course id, start time and the day codes run together. */
  function Uid(m: CourseMeeting): string {
    m.courseId + "-" + m.startTime + "-" + Concat(m.days)
  }

  /** `FREQ=WEEKLY;BYDAY=<codes joined by commas>;UNTIL=<until>` (the RECUR value of
      section 3.3.10 of RFC 5545). */
  function RecurrenceRule(days: seq<string>, until: string): string {
    "FREQ=WEEKLY;BYDAY=" + Join(days, ",") + ";UNTIL=" + until
  }

  /** The text shown by the reminder: "Upcoming class", an em dash, the course title. */
  function AlarmDescription(title: string): (s: string)
    ensures |s| == |title| + 17
    ensures s[..15] == "Upcoming class " && s[15] == '\U{2014}' && s[16..] == " " + title
  {
    "Upcoming class \U{2014} " + title
  }

  /** The reminder text as the source spells it: the dash came out as the three characters
      `â€”`, the UTF-8 bytes of an em dash read back as Windows-1252. */
  function AlarmDescriptionAsWritten(title: string): (s: string)
    ensures |s| == |title| + 19
    ensures s[..15] == "Upcoming class " && s[15..18] == MisreadDash && s[18..] == " " + title
  {
    "Upcoming class " + MisreadDash + " " + title
  }

  const MisreadDash: string := "\U{00E2}\U{20AC}\U{201D}"

  /** The alarm list: one display alarm `reminderMinutes` before the start when that is
      positive, none otherwise. */
  function Alarms(title: string, settings: ExportSettings): (a: Option<seq<Alarm>>)
    ensures a.Some? <==> settings.reminderMinutes > 0
    ensures a.Some? ==> |a.value| == 1 && a.value[0].trigger == Trigger(settings.reminderMinutes, true)
                        && a.value[0].action == "display" && a.value[0].description == AlarmDescription(title)
  {
    if settings.reminderMinutes > 0 then
      Some([Alarm("display", AlarmDescription(title), Trigger(settings.reminderMinutes, true))])
    else
      None
  }

  /** `createEventFromMeeting(meeting, settings)`. Both tuples take their date from
      `startDate`; the end tuple differs only in hour and minute. The rule ends on the last
      millisecond of `endDate`. Nothing in the body can throw for a meeting of strings, so
      the `catch` that returns null is never taken and the event is always built. */
  function CreateEvent(meeting: CourseMeeting, settings: ExportSettings, host: Host): (e: Event)
    ensures e.start.year == e.end.year && e.start.month == e.end.month && e.start.day == e.end.day
    ensures e.start.hour == SplitClock(meeting.startTime).hour && e.start.minute == SplitClock(meeting.startTime).minute
    ensures e.end.hour == SplitClock(meeting.endTime).hour && e.end.minute == SplitClock(meeting.endTime).minute
    ensures e.startInputType == "local" && e.endInputType == "local"
    ensures e.alarms == Alarms(meeting.title, settings)
    ensures e.uid == Uid(meeting) && e.title == meeting.title + " (" + meeting.courseId + ")"
    ensures e.description == "Instructor: " + meeting.instructor && e.location == meeting.location
    ensures e.recurrenceRule
         == RecurrenceRule(meeting.days, FormatDateForUntil(SetHours(ParseDate(meeting.endDate, host), 23, 59, 59, 999), host.zone))
    ensures var d := ParseDate(meeting.startDate, host);
            e.start.year == GetFullYear(d) && e.start.month == Plus(GetMonth(d), 1) && e.start.day == GetDate(d)
  {
    var startDate := ParseDate(meeting.startDate, host);
    var endDate := ParseDate(meeting.endDate, host);
    var startClock := SplitClock(meeting.startTime);
    var endClock := SplitClock(meeting.endTime);
    var year, month, day := GetFullYear(startDate), Plus(GetMonth(startDate), 1), GetDate(startDate);
    var until := FormatDateForUntil(SetHours(endDate, 23, 59, 59, 999), host.zone);
    Event(
      Uid(meeting),
      meeting.title + " (" + meeting.courseId + ")",
      "Instructor: " + meeting.instructor,
      meeting.location,
      DateTime(year, month, day, startClock.hour, startClock.minute),
      DateTime(year, month, day, endClock.hour, endClock.minute),
      "local",
      "local",
      RecurrenceRule(meeting.days, until),
      Alarms(meeting.title, settings))
  }

  /** The start and end tuples of a meeting whose start date is `YYYY-MM-DD` and whose
      times are `HH:MM`: that 1-based date, with the start's and the end's clock. */
  lemma EventTuples(meeting: CourseMeeting, settings: ExportSettings, host: Host,
                    year: nat, month: nat, day: nat, sh: nat, sm: nat, eh: nat, em: nat)
    requires 1 <= month <= 12 && 1 <= day <= DaysInMonth(FullYearOf(year), month - 1)
    requires sh < 100 && sm < 100 && eh < 100 && em < 100
    requires meeting.startDate == DateText(year, (month, day))
    requires meeting.startTime == TwoDigits(sh) + ":" + TwoDigits(sm)
    requires meeting.endTime == TwoDigits(eh) + ":" + TwoDigits(em)
    ensures var e := CreateEvent(meeting, settings, host);
            e.start == DateTime(Int(FullYearOf(year)), Int(month), Int(day), Int(sh), Some(Int(sm))) &&
            e.end == DateTime(Int(FullYearOf(year)), Int(month), Int(day), Int(eh), Some(Int(em)))
  {
    EventStartDate(meeting, settings, host, year, month, day);
    SplitClockRoundTrip(sh, sm);
    SplitClockRoundTrip(eh, em);
  }

  /** The date both tuples carry is the 1-based calendar date of `startDate`. */
  lemma EventStartDate(meeting: CourseMeeting, settings: ExportSettings, host: Host, year: nat, month: nat, day: nat)
    requires 1 <= month <= 12 && 1 <= day <= DaysInMonth(FullYearOf(year), month - 1)
    requires meeting.startDate == DateText(year, (month, day))
    ensures var e := CreateEvent(meeting, settings, host);
            e.start.year == Int(FullYearOf(year)) && e.start.month == Int(month) && e.start.day == Int(day)
  {
    var d := ParseDate(meeting.startDate, host);
    ParseDateText(year, month, day, host);
    assert GetMonth(d) == Int(month - 1);
    assert Plus(GetMonth(d), 1) == Int(month);
  }

  /** For a meeting dated the way the scraper dates it, from today's semester band, the
      event starts on the band's first class day and repeats until the end of its last. */
  lemma SemesterEventDates(meeting: CourseMeeting, settings: ExportSettings, host: Host, today: Today)
    requires 100 <= today.year
    requires meeting.startDate == SemesterStart(today) && meeting.endDate == SemesterEnd(today)
    ensures var e := CreateEvent(meeting, settings, host);
            var first, last := StartMonthDay(Band(today.month)), EndMonthDay(Band(today.month));
            && e.start.year == Int(today.year) && e.start.month == Int(first.0) && e.start.day == Int(first.1)
            && e.recurrenceRule
               == RecurrenceRule(meeting.days, NatToString(today.year) + TwoDigits(last.0) + TwoDigits(last.1) + "T235959Z")
  {
    var first, last := StartMonthDay(Band(today.month)), EndMonthDay(Band(today.month));
    assert DaysInMonth(FullYearOf(today.year), first.0 - 1) >= 28;
    assert DaysInMonth(today.year, last.0 - 1) >= 28;
    EventStartDate(meeting, settings, host, today.year, first.0, first.1);
    EventUntil(meeting, settings, host, today.year, last.0, last.1);
  }

  /** The rule's UNTIL of a meeting whose end date is `YYYY-MM-DD`: that date's digits and
      `235959`, the local end of the last class day, labelled `Z`. */
  lemma EventUntil(meeting: CourseMeeting, settings: ExportSettings, host: Host,
                   year: nat, month: nat, day: nat)
    requires 100 <= year && 1 <= month <= 12 && 1 <= day <= DaysInMonth(year, month - 1)
    requires meeting.endDate == DateText(year, (month, day))
    ensures CreateEvent(meeting, settings, host).recurrenceRule
         == RecurrenceRule(meeting.days, NatToString(year) + TwoDigits(month) + TwoDigits(day) + "T235959Z")
  {
    var d := ParseDate(meeting.endDate, host);
    ParseDateText(year, month, day, host);
    assert d.Valid? && CivilOf(d.wall / MsPerDay) == Civil(year, month - 1, day);
    UntilOfEndOfDay(d, host.zone);
    DateDigitsOf(d.wall / MsPerDay, year, month, day);
  }

  lemma DateDigitsOf(dayNumber: int, year: nat, month: nat, day: nat)
    requires 1 <= month <= 12 && day < 100 && CivilOf(dayNumber) == Civil(year, month - 1, day)
    ensures DateDigits(dayNumber) == NatToString(year) + TwoDigits(month) + TwoDigits(day)
  {
    PadIsDigits2(month);
    PadIsDigits2(day);
  }

  /** The start, end and rule of the event the source's test builds from its first sample
      meeting: 28 August 2025 from 14:00 to 15:15, weekly until the end of 15 December 2025. */
  lemma EventExampleTimes(meeting: CourseMeeting, settings: ExportSettings, host: Host)
    requires meeting.startDate == "2025-08-28" && meeting.endDate == "2025-12-15"
    requires meeting.startTime == "14:00" && meeting.endTime == "15:15"
    ensures var e := CreateEvent(meeting, settings, host);
            && e.start == DateTime(Int(2025), Int(8), Int(28), Int(14), Some(Int(0)))
            && e.end == DateTime(Int(2025), Int(8), Int(28), Int(15), Some(Int(15)))
            && e.recurrenceRule == RecurrenceRule(meeting.days, "20251215T235959Z")
  {
    SampleDates();
    SampleTimes();
    EventTuples(meeting, settings, host, 2025, 8, 28, 14, 0, 15, 15);
    EventUntil(meeting, settings, host, 2025, 12, 15);
  }

  lemma SampleDates()
    ensures NatToString(2025) == "2025"
    ensures DateText(2025, (8, 28)) == "2025-08-28" && DateText(2025, (12, 15)) == "2025-12-15"
  {
    assert NatToString(2025) == "2025";
    FallDates(2025);
  }

  lemma SampleTimes()
    ensures TwoDigits(14) + ":" + TwoDigits(0) == "14:00" && TwoDigits(15) + ":" + TwoDigits(15) == "15:15"
    ensures NatToString(2025) + TwoDigits(12) + TwoDigits(15) + "T235959Z" == "20251215T235959Z"
  {
    assert NatToString(2025) == "2025";
    TwoDigitsOfDigit(0);
    TwoDigitsOfTwoDigits(12);
    TwoDigitsOfTwoDigits(14);
    TwoDigitsOfTwoDigits(15);
  }

  /** The BYDAY list reads back, split at its commas, as the meeting's day codes. */
  lemma ByDayRoundTrip(days: seq<string>)
    requires |days| >= 1 && forall k :: 0 <= k < |days| ==> IsDayCode(days[k])
    ensures Split(Join(days, ","), ',') == days
  {
    SplitJoin(days, ',');
  }

  lemma {:induction false} JoinWithout(parts: seq<string>, sep: string, c: char)
    requires c !in sep && forall k :: 0 <= k < |parts| ==> c !in parts[k]
    ensures c !in Join(parts, sep)
    decreases |parts|
  {
    if |parts| > 1 {
      JoinWithout(parts[1..], sep, c);
    }
  }

  lemma RuleLiterals()
    ensures "FREQ=WEEKLY;BYDAY=" == "FREQ=WEEKLY" + ";" + "BYDAY="
    ensures ";UNTIL=" == ";" + "UNTIL="
  {
  }

  lemma Regroup(f: string, sep: string, b: string, j: string, u: string, v: string)
    ensures f + sep + b + j + (sep + u) + v == f + sep + (b + j + sep + (u + v))
  {
  }

  /** A day code holds no `;`. */
  lemma DayCodeLetters(c: string)
    requires IsDayCode(c)
    ensures ';' !in c && '-' !in c
  {
    if c == "MO" {} else if c == "TU" {} else if c == "WE" {} else if c == "TH" {}
    else if c == "FR" {} else if c == "SA" {} else { assert c == "SU"; }
  }

  /** No day code holds a `;`, so neither does their comma-joined list. */
  lemma NoSemicolonInDayList(days: seq<string>)
    requires forall k :: 0 <= k < |days| ==> IsDayCode(days[k])
    ensures ';' !in Join(days, ",")
  {
    forall k | 0 <= k < |days| ensures ';' !in days[k] {
      DayCodeLetters(days[k]);
    }
    JoinWithout(days, ",", ';');
  }

  /** The three `;`-separated fields of the rule, when neither the day list nor the end
      holds a `;`. */
  lemma RuleFields(days: seq<string>, until: string)
    requires ';' !in Join(days, ",") && ';' !in until
    ensures Split(RecurrenceRule(days, until), ';') == ["FREQ=WEEKLY", "BYDAY=" + Join(days, ","), "UNTIL=" + until]
  {
    var byDay := Join(days, ",");
    var freq, list, end := "FREQ=WEEKLY", "BYDAY=" + byDay, "UNTIL=" + until;
    assert ';' !in freq;
    assert ';' !in list by { assert list[6..] == byDay; }
    assert ';' !in end by { assert end[6..] == until; }
    RuleLiterals();
    Regroup(freq, ";", "BYDAY=", byDay, "UNTIL=", until);
    assert ";" == [';'];
    SplitAfterPiece(freq, ';', list + [';'] + end);
    SplitAfterPiece(list, ';', end);
    SplitNoSeparator(end, ';');
  }

  /** The rule reads back field by field: split at `;` it is the frequency, the day list
      and the end, and the day list past `BYDAY=` splits back into the meeting's days. */
  lemma RecurrenceRuleFields(days: seq<string>, until: string)
    requires |days| >= 1 && forall k :: 0 <= k < |days| ==> IsDayCode(days[k])
    requires ';' !in until
    ensures Split(RecurrenceRule(days, until), ';') == ["FREQ=WEEKLY", "BYDAY=" + Join(days, ","), "UNTIL=" + until]
    ensures Split(Split(RecurrenceRule(days, until), ';')[1][6..], ',') == days
  {
    var byDay := Join(days, ",");
    NoSemicolonInDayList(days);
    RuleFields(days, until);
    var list := Split(RecurrenceRule(days, until), ';')[1];
    assert list == "BYDAY=" + byDay;
    assert list[6..] == byDay;
    ByDayRoundTrip(days);
  }

  /** Day codes are two letters each, so running them together loses nothing. */
  lemma {:induction false} ConcatCodesInjective(a: seq<string>, b: seq<string>)
    requires forall k :: 0 <= k < |a| ==> IsDayCode(a[k])
    requires forall k :: 0 <= k < |b| ==> IsDayCode(b[k])
    requires Concat(a) == Concat(b)
    ensures a == b
    decreases |a|
  {
    if a == [] || b == [] {
      assert a != [] ==> |Concat(a)| >= 2;
      assert b != [] ==> |Concat(b)| >= 2;
    } else {
      assert |a[0]| == 2 && |b[0]| == 2;
      assert a[0] == Concat(a)[..2] && b[0] == Concat(b)[..2];
      assert Concat(a[1..]) == Concat(a)[2..] && Concat(b[1..]) == Concat(b)[2..];
      ConcatCodesInjective(a[1..], b[1..]);
      assert a == [a[0]] + a[1..] && b == [b[0]] + b[1..];
    }
  }

  /** Day codes run together hold no `-`. */
  lemma {:induction false} ConcatNoDash(days: seq<string>)
    requires forall k :: 0 <= k < |days| ==> IsDayCode(days[k])
    ensures '-' !in Concat(days)
    decreases |days|
  {
    if days != [] {
      DayCodeLetters(days[0]);
      ConcatNoDash(days[1..]);
      assert Concat(days) == days[0] + Concat(days[1..]);
    }
  }

  /** In a UID with an `HH:MM` start time and day codes, the `-` before the days is the
      last one. */
  lemma LastDashOfUid(m: CourseMeeting)
    requires |m.startTime| == 5
    requires forall k :: 0 <= k < |m.days| ==> IsDayCode(m.days[k])
    ensures |m.courseId| + 6 < |Uid(m)| && Uid(m)[|m.courseId| + 6] == '-'
    ensures forall k :: |m.courseId| + 6 < k < |Uid(m)| ==> Uid(m)[k] != '-'
  {
    var n := |m.courseId| + 6;
    ConcatNoDash(m.days);
    assert Uid(m)[n + 1..] == Concat(m.days);
    forall k | n < k < |Uid(m)| ensures Uid(m)[k] != '-' {
      assert Uid(m)[k] == Concat(m.days)[k - n - 1];
    }
  }

  /** Two sessions with `HH:MM` start times and day codes share a UID only when they
      belong to the same course and start at the same time on the same days. */
  lemma UidSeparatesSessions(m1: CourseMeeting, m2: CourseMeeting)
    requires |m1.startTime| == 5 && |m2.startTime| == 5
    requires forall k :: 0 <= k < |m1.days| ==> IsDayCode(m1.days[k])
    requires forall k :: 0 <= k < |m2.days| ==> IsDayCode(m2.days[k])
    requires Uid(m1) == Uid(m2)
    ensures m1.courseId == m2.courseId
    ensures m1.startTime == m2.startTime && m1.days == m2.days
  {
    LastDashOfUid(m1);
    LastDashOfUid(m2);
    assert |m1.courseId| == |m2.courseId|;
    assert m1.courseId == Uid(m1)[..|m1.courseId|];
    assert m2.courseId == Uid(m2)[..|m2.courseId|];
    var n := |m1.courseId| + 1;
    assert m1.startTime == Uid(m1)[n..n + 5];
    assert m2.startTime == Uid(m2)[n..n + 5];
    assert Concat(m1.days) == Uid(m1)[n + 6..];
    assert Concat(m2.days) == Uid(m2)[n + 6..];
    ConcatCodesInjective(m1.days, m2.days);
  }

  /** The same, for the events the exporter builds: two events with the same UID come
      from one course, start at the same time and meet on the same days, whatever the
      settings and host. */
  lemma EventUidSeparatesSessions(m1: CourseMeeting, m2: CourseMeeting,
                                  s1: ExportSettings, s2: ExportSettings, h1: Host, h2: Host)
    requires |m1.startTime| == 5 && |m2.startTime| == 5
    requires forall k :: 0 <= k < |m1.days| ==> IsDayCode(m1.days[k])
    requires forall k :: 0 <= k < |m2.days| ==> IsDayCode(m2.days[k])
    requires CreateEvent(m1, s1, h1).uid == CreateEvent(m2, s2, h2).uid
    ensures m1.courseId == m2.courseId
    ensures m1.startTime == m2.startTime && m1.days == m2.days
  {
    UidSeparatesSessions(m1, m2);
  }

  /** The identifiers in the source's tests: `CSCI-316-14:00-MOWE`, and three distinct ones
      for two courses that share a start time and a course that meets twice. */
  lemma UidExamples(a: CourseMeeting, b: CourseMeeting, c: CourseMeeting, d: CourseMeeting)
    requires a.courseId == "CSCI-316" && a.startTime == "14:00" && a.days == ["MO", "WE"]
    requires b.courseId == "MATH-101" && b.startTime == "09:00" && b.days == ["MO", "WE"]
    requires c.courseId == "MATH-101" && c.startTime == "10:00" && c.days == ["TU", "TH"]
    requires d.courseId == "PHYS-201" && d.startTime == "09:00" && d.days == ["MO", "WE"]
    ensures Uid(a) == "CSCI-316-14:00-MOWE"
    ensures Uid(b) == "MATH-101-09:00-MOWE" && Uid(c) == "MATH-101-10:00-TUTH" && Uid(d) == "PHYS-201-09:00-MOWE"
    ensures Uid(b) != Uid(c) && Uid(b) != Uid(d) && Uid(c) != Uid(d)
  {
    assert Concat(["MO", "WE"]) == "MOWE";
    assert Concat(["TU", "TH"]) == "TUTH";
    assert Uid(b)[9] != Uid(c)[9];
    assert Uid(b)[0] != Uid(d)[0];
    assert Uid(c)[0] != Uid(d)[0];
  }

  // ------------------------------------------------------------ the encoding slip

  /** The UTF-8 encoding of a code point in the three-byte range. */
  function Utf8ThreeBytes(cp: nat): (bytes: seq<nat>)
    requires 0x800 <= cp < 0x10000
    ensures |bytes| == 3 && bytes[0] / 16 == 0xE && bytes[1] / 64 == 2 && bytes[2] / 64 == 2
  {
    [0xE0 + cp / 0x1000, 0x80 + cp / 0x40 % 0x40, 0x80 + cp % 0x40]
  }

  /** The character Windows-1252 gives a byte: the 0x80-0x9F block has its own table (the
      five unassigned bytes keep their Latin-1 value), every other byte is its Latin-1 value. */
  function Windows1252(b: nat): (c: char)
    requires b < 0x100
  {
    if 0x80 <= b < 0xA0 then Windows1252High[b - 0x80] else b as char
  }

  const Windows1252High: seq<char> := [
    '\U{20AC}', '\U{0081}', '\U{201A}', '\U{0192}', '\U{201E}', '\U{2026}', '\U{2020}', '\U{2021}',
    '\U{02C6}', '\U{2030}', '\U{0160}', '\U{2039}', '\U{0152}', '\U{008D}', '\U{017D}', '\U{008F}',
    '\U{0090}', '\U{2018}', '\U{2019}', '\U{201C}', '\U{201D}', '\U{2022}', '\U{2013}', '\U{2014}',
    '\U{02DC}', '\U{2122}', '\U{0161}', '\U{203A}', '\U{0153}', '\U{009D}', '\U{017E}', '\U{0178}']

  /** The three characters in the source are exactly the em dash's UTF-8 bytes decoded as
      Windows-1252, and they are not the em dash the reminder is meant to show. */
  lemma MisreadDashIsMojibake(title: string)
    ensures var bytes := Utf8ThreeBytes(0x2014);
            bytes == [0xE2, 0x80, 0x94] &&
            MisreadDash == [Windows1252(bytes[0]), Windows1252(bytes[1]), Windows1252(bytes[2])]
    ensures AlarmDescriptionAsWritten(title) != AlarmDescription(title)
    ensures |AlarmDescriptionAsWritten(title)| == |AlarmDescription(title)| + 2
  {
    assert AlarmDescriptionAsWritten(title)[15] != AlarmDescription(title)[15];
  }

  // ------------------------------------------------------------ settings

  /** What reading `reminderMinutes` from synchronised storage gave. A stored `null` is
      `Absent`, since `??` treats it like a missing key. */
  datatype StoredReminder = ReadFailed | Absent | Stored(minutes: int)

  /** `getExportSettings()`: the stored value, 0 included, else 10. */
  function SettingsOf(stored: StoredReminder): (s: ExportSettings)
    ensures stored.Stored? ==> s.reminderMinutes == stored.minutes
    ensures !stored.Stored? ==> s.reminderMinutes == 10
  {
    match stored
    case ReadFailed => ExportSettings(10)
    case Absent => ExportSettings(10)
    case Stored(minutes) => ExportSettings(minutes)
  }

  /** Without a stored value every event gets a reminder ten minutes before; a stored 0
      turns reminders off. */
  lemma DefaultReminder(stored: StoredReminder, meeting: CourseMeeting, host: Host)
    ensures !stored.Stored? ==>
              CreateEvent(meeting, SettingsOf(stored), host).alarms
              == Some([Alarm("display", AlarmDescription(meeting.title), Trigger(10, true))])
    ensures stored == Stored(0) ==> CreateEvent(meeting, SettingsOf(stored), host).alarms.None?
    ensures !stored.Stored? ==> DocumentedReminder(SettingsOf(stored))
  {
  }

  // ------------------------------------------------------------ the export

  /** `${semester.replace(/\s+/g, '-')}`: the download's file name. */
  function Filename(semester: string): (f: string)
    ensures |f| == |HyphenateWhitespace(semester)| + 13
    ensures f[..9] == "Schedule-" && f[|f| - 4..] == ".ics"
    ensures f[9..|f| - 4] == HyphenateWhitespace(semester)
  {
    "Schedule-" + HyphenateWhitespace(semester) + ".ics"
  }

  /** Two words with any run of white space between them become one hyphenated name. */
  lemma FilenameOfTwoWords(a: string, ws: string, b: string)
    requires NoWhitespace(a) && NoWhitespace(b) && ws != []
    requires forall i :: 0 <= i < |ws| ==> IsWhitespace(ws[i])
    ensures Filename(a + ws + b) == "Schedule-" + a + "-" + b + ".ics"
  {
    HyphenateJoinsWords(a, ws, b);
  }

  /** The file name the source's test expects for a semester typed with a doubled space. */
  lemma FilenameExample(semester: string)
    requires semester == "Summer  2025"
    ensures Filename(semester) == "Schedule-Summer-2025.ics"
  {
    var a, ws, b := "Summer", "  ", "2025";
    assert semester == a + ws + b;
    assert NoWhitespace(a) && NoWhitespace(b) by {
      assert forall i :: 0 <= i < |a| ==> 'A' <= a[i] <= 'z';
      assert forall i :: 0 <= i < |b| ==> IsDigit(b[i]);
    }
    FilenameOfTwoWords(a, ws, b);
  }

  /** What `ics.createEvents` returned: an error with its message, and the calendar text. */
  datatype EncodeResult = EncodeResult(error: Option<string>, value: Option<string>)

  /** How an export ends: a thrown error, or the text handed to the download. */
  datatype Outcome = Failed(message: string) | Download(content: string, filename: string)

  /** `createEventFromMeeting` with the settings and the host fixed, as the export loop
      applies it to each meeting. */
  function EventBuilder(settings: ExportSettings, host: Host): CourseMeeting -> Event {
    meeting => CreateEvent(meeting, settings, host)
  }

  /** The events of a meeting list, one per meeting, in order. */
  function Events(meetings: seq<CourseMeeting>, build: CourseMeeting -> Event): (events: seq<Event>)
    ensures |events| == |meetings|
  {
    if meetings == [] then []
    else Events(meetings[..|meetings| - 1], build) + [build(meetings[|meetings| - 1])]
  }

  /** Events keep the meetings' order: the k-th event is built from the k-th meeting, and
      none is dropped. */
  lemma {:induction false} EventsInOrder(meetings: seq<CourseMeeting>, build: CourseMeeting -> Event, k: nat)
    requires k < |meetings|
    ensures Events(meetings, build)[k] == build(meetings[k])
  {
    var n := |meetings| - 1;
    if k < n {
      EventsInOrder(meetings[..n], build, k);
    }
  }

  /** With the extension's builder, the k-th event is `createEventFromMeeting` of the k-th
      meeting under the export's settings. */
  lemma ExtensionEvents(meetings: seq<CourseMeeting>, settings: ExportSettings, host: Host, k: nat)
    requires k < |meetings|
    ensures Events(meetings, EventBuilder(settings, host))[k] == CreateEvent(meetings[k], settings, host)
  {
    EventsInOrder(meetings, EventBuilder(settings, host), k);
  }

  /** The error message when the encoder fails: its message, or "Unknown error" when it
      has none. */
  function EncodeFailure(error: Option<string>): (message: string)
  {
    "Failed to generate calendar file: " + (if error.Some? && error.value != "" then error.value else "Unknown error")
  }

  /** What `generateAndDownloadICS` does. `build` turns one meeting into its event; the
      extension passes `EventBuilder(settings, host)`. The encoder is a parameter. */
  function ExportOutcome(data: ScheduleData, build: CourseMeeting -> Event,
                         encode: seq<Event> -> EncodeResult): (o: Outcome)
  {
    if |data.meetings| == 0 then Failed("No schedule data found on this page")
    else
      var events := Events(data.meetings, build);
      if |events| == 0 then Failed("No valid events could be created from schedule data")
      else
        var result := encode(events);
        if result.error.Some? || result.value.None? || result.value.value == "" then
          Failed(EncodeFailure(result.error))
        else
          Download(result.value.value, Filename(data.semester))
  }

  /** An export fails exactly when there are no meetings or the encoder reports an error or
      no text; otherwise the encoder's text is downloaded under the semester's file name. */
  lemma ExportFailure(data: ScheduleData, build: CourseMeeting -> Event, encode: seq<Event> -> EncodeResult)
    ensures var o := ExportOutcome(data, build, encode);
            var result := encode(Events(data.meetings, build));
            o.Failed? <==> |data.meetings| == 0 || result.error.Some? || result.value.None? || result.value.value == ""
    ensures |data.meetings| == 0 ==> ExportOutcome(data, build, encode) == Failed("No schedule data found on this page")
    ensures var o := ExportOutcome(data, build, encode);
            |data.meetings| > 0 && o.Failed? ==> o.message == EncodeFailure(encode(Events(data.meetings, build)).error)
    ensures var o := ExportOutcome(data, build, encode);
            o.Download? ==> o.content == encode(Events(data.meetings, build)).value.value
                            && o.filename == Filename(data.semester)
  {
  }

  /** `generateAndDownloadICS(scheduleData, settings)` up to the download: build one event
      per meeting in order, then fail or hand the encoder's text and the file name on.
      `build` is `EventBuilder(settings, host)` in the extension. */
  method GenerateAndDownloadICS(data: ScheduleData, build: CourseMeeting -> Event,
                                encode: seq<Event> -> EncodeResult)
    returns (o: Outcome)
    ensures o == ExportOutcome(data, build, encode)
  {
    if |data.meetings| == 0 {
      return Failed("No schedule data found on this page");
    }
    var events: seq<Event> := [];
    for i := 0 to |data.meetings|
      invariant events == Events(data.meetings[..i], build)
    {
      assert data.meetings[..i + 1][..i] == data.meetings[..i];
      var event := build(data.meetings[i]);
      events := events + [event];
    }
    assert data.meetings[..|data.meetings|] == data.meetings;
    if |events| == 0 {
      return Failed("No valid events could be created from schedule data");
    }
    var result := encode(events);
    if result.error.Some? || result.value.None? || result.value.value == "" {
      return Failed(EncodeFailure(result.error));
    }
    o := Download(result.value.value, Filename(data.semester));
  }
}
