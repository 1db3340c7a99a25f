/** The per-layout parsers of the scraper (src/contentScript.ts): the tabular
    Student Center row, the Schedule Builder legend box, the Schedule Builder course
    block (and text element, which is parsed the same way), and the placeholder
    meetings read from the page address. The DOM is abstracted: a row is the list of
    its cells' text, a block its text, and a legend course box the optional texts of
    the elements the parser looks up. Today's date is a parameter. */
module Parsers {
  import opened Types
  import opened JsText
  import opened Patterns
  import opened Normalize
  import opened Semester

  /** `text || 'TBA'`. */
  function OrTba(text: string): (r: string)
    ensures r != []
    ensures text != [] ==> r == text
  {
    if text == [] then "TBA" else text
  }

  lemma {:induction false} SplitFirstNonEmpty(s: string, sep: char)
    ensures s != [] && s[0] != sep ==> Split(s, sep)[0] != []
  {
  }

  /** A text with a character that is not white space does not trim to nothing. */
  lemma TrimKeeps(s: string, i: nat)
    requires i < |s| && !IsWhitespace(s[i])
    ensures Trim(s) != []
  {
    var t := TrimStart(s);
    assert |s| - |t| <= i;
    assert t[i - (|s| - |t|)] == s[i];
    var r := TrimEnd(t);
    assert i - (|s| - |t|) < |r|;
  }

  // ------------------------------------------------------------ buildCourseMeeting

  /** The course id `buildCourseMeeting` takes from its course text: the leftmost
      `[A-Z]{2,4}[-\s]?\d{2,4}`, or else everything before the first space. */
  function CourseIdOf(courseText: string): (id: string)
    ensures courseText != [] && courseText[0] != ' ' ==> id != []
  {
    match Match(courseText, CourseIdAt)
    case Some(code) => code
    case None =>
      SplitFirstNonEmpty(courseText, ' ');
      Split(courseText, ' ')[0]
  }

  /** `buildCourseMeeting`: null for an empty course or time text, a time text without
      `h:mm [AM|PM] - h:mm [AM|PM]`, or days text that names no weekday. The AM/PM that
      follows the end time is the period of both times. */
  function BuildCourseMeeting(courseText: string, timeText: string, daysText: string,
                              locationText: string, instructorText: string, today: Today): (r: Option<CourseMeeting>)
    ensures r.None? <==> courseText == [] || timeText == [] || Match(timeText, DashRangeAt).None? || DaysOf(daysText) == []
    ensures r.Some? ==> && r.value.title == courseText
                        && r.value.courseId == CourseIdOf(courseText)
                        && r.value.days == DaysOf(daysText) && r.value.days != []
                        && r.value.location == locationText && r.value.instructor == instructorText
                        && r.value.startDate == SemesterStart(today) && r.value.endDate == SemesterEnd(today)
    ensures r.Some? ==> var range := Match(timeText, DashRangeAt).value;
                        && r.value.startTime == ParseTime(range.start, range.marker)
                        && r.value.endTime == ParseTime(range.end, range.marker)
  {
    if courseText == [] || timeText == [] then None
    else
      match Match(timeText, DashRangeAt)
      case None => None
      case Some(range) =>
        var days := DaysOf(daysText);
        if days == [] then None
        else Some(CourseMeeting(CourseIdOf(courseText), courseText, instructorText, locationText,
                                SemesterStart(today), SemesterEnd(today), days,
                                ParseTime(range.start, range.marker), ParseTime(range.end, range.marker)))
  }

  /** `start AM1 - end AM2` with both markers present: the range carries only the second. */
  lemma DashRangeOfMarkedTimes(c1: string, m1: string, c2: string, m2: string)
    requires IsClockText(c1) && IsClockText(c2) && IsMarker(m1) && IsMarker(m2)
    ensures DashRangeAt(c1 + m1 + " - " + c2 + m2, 0) == Some(DashRange(c1, c2, Some(m2)))
  {
    DashRangeLayout(c1, m1, c2, m2);
  }

  /** Where each piece of `c1 m1 - c2 m2` sits. */
  lemma DashRangeLayout(c1: string, m1: string, c2: string, m2: string)
    requires IsClockText(c1) && IsClockText(c2) && IsMarker(m1) && IsMarker(m2)
    ensures var s := c1 + m1 + " - " + c2 + m2;
            var p := |c1|;
            var r := p + 5;
            var e := r + |c2|;
            && ClockEnd(s, 0) == Some(p) && DashAfter(s, p) == Some(r)
            && ClockEnd(s, r) == Some(e) && TrailingMarker(s, e) == Some(m2)
            && s[0..p] == c1 && s[r..e] == c2
  {
    var s := c1 + m1 + " - " + c2 + m2;
    var p := |c1|;
    var r := p + 5;
    var e := r + |c2|;
    MarkerFacts(m1);
    MarkerFacts(m2);
    assert s == c1 + (m1 + " - " + c2 + m2);
    ClockEndOfClockText(c1, m1 + " - " + c2 + m2);
    assert s[p..r] == m1 + " - ";
    assert s[r..] == c2 + m2;
    DashAfterOfMarker(s, p, m1);
    ClockEndOfClockText(c2, m2);
    ClockEndShift(s, r, c2 + m2);
    assert s[e..] == m2;
    TrailingMarkerOf(s, e, m2);
  }

  lemma DashAfterOfMarker(s: string, p: nat, m1: string)
    requires IsMarker(m1) && p + 5 < |s| && s[p..p + 5] == m1 + " - " && !IsWhitespace(s[p + 5])
    ensures DashAfter(s, p) == Some(p + 5)
  {
    MarkerFacts(m1);
    assert s[p] == m1[0] && s[p + 1] == m1[1];
    assert SkipWs(s, p) == p;
    assert s[p..p + 2] == m1;
    assert s[p + 2] == ' ' && s[p + 3] == '-' && s[p + 4] == ' ';
    assert SkipWs(s, p + 2) == p + 3 by { assert WsRun(s, p + 3) == 0; }
    assert SkipWs(s, p + 4) == p + 5 by { assert WsRun(s, p + 5) == 0; }
  }

  lemma TrailingMarkerOf(s: string, e: nat, m2: string)
    requires IsMarker(m2) && e <= |s| && s[e..] == m2
    ensures TrailingMarker(s, e) == Some(m2)
  {
    MarkerFacts(m2);
    assert s[e] == m2[0] && s[e + 1] == m2[1];
    assert SkipWs(s, e) == e;
    assert s[e..e + 2] == m2;
  }

  /** `ClockEnd` looks only at the text from where it starts. */
  lemma ClockEndShift(s: string, r: nat, rest: string)
    requires r <= |s| && s[r..] == rest
    ensures ClockEnd(s, r) == (match ClockEnd(rest, 0) case None => None case Some(e) => Some(r + e))
  {
    if r + 1 < |s| { assert s[r] == rest[0] && s[r + 1] == rest[1]; }
    if r + 4 < |s| { assert s[r + 2] == rest[2] && s[r + 3] == rest[3] && s[r + 4] == rest[4]; }
    else if r + 3 < |s| { assert s[r + 2] == rest[2] && s[r + 3] == rest[3]; }
  }

  /** The marker after the end time decides the period of the start time as well:
      `11:00AM - 12:15PM` starts at 23:00. */
  lemma TrailingMarkerRulesBoth(c1: string, m1: string, c2: string, m2: string)
    requires IsClockText(c1) && IsClockText(c2) && IsMarker(m1) && IsMarker(m2)
    ensures Match(c1 + m1 + " - " + c2 + m2, DashRangeAt) == Some(DashRange(c1, c2, Some(m2)))
  {
    DashRangeOfMarkedTimes(c1, m1, c2, m2);
  }

  /** Both times of a range are read under the range's closing marker: a start written
      with a marker of its own keeps its clock digits but loses its marker. */
  lemma StartTakesClosingMarker(courseText: string, c1: string, m1: string, c2: string, m2: string,
                                daysText: string, locationText: string, instructorText: string, today: Today)
    requires courseText != [] && DaysOf(daysText) != []
    requires IsClockText(c1) && 1 <= ClockHour(c1) <= 12 && IsMarker(m1)
    requires IsClockText(c2) && 1 <= ClockHour(c2) <= 12 && IsMarker(m2)
    ensures var r := BuildCourseMeeting(courseText, c1 + m1 + " - " + c2 + m2, daysText, locationText, instructorText, today);
            && r.Some?
            && r.value.startTime == TwoDigits(TwentyFourHour(ClockHour(c1), EqualsIgnoreCase(m2, "PM"))) + ":" + TwoDigits(ClockMinute(c1))
            && r.value.endTime == TwoDigits(TwentyFourHour(ClockHour(c2), EqualsIgnoreCase(m2, "PM"))) + ":" + TwoDigits(ClockMinute(c2))
  {
    var t := c1 + m1 + " - " + c2 + m2;
    TrailingMarkerRulesBoth(c1, m1, c2, m2);
    var r := BuildCourseMeeting(courseText, t, daysText, locationText, instructorText, today);
    assert r.Some? && r.value.startTime == ParseTime(c1, Some(m2)) && r.value.endTime == ParseTime(c2, Some(m2));
    ParseTimeSeparateMarker(c1, m2);
    ParseTimeSeparateMarker(c2, m2);
  }

  lemma LateMorningLayout()
    ensures "11:00AM - 12:15PM" == "11:00" + "AM" + " - " + "12:15" + "PM"
    ensures IsClockText("12:15") && ClockHour("12:15") == 12 && ClockMinute("12:15") == 15
  {
    assert "12:15"[..2] == "12";
    assert "12:15"[3..] == "15";
  }

  lemma LateMorningClocks()
    ensures ExampleClock("11:00", "PM", "23:00")
    ensures ExampleClock("12:15", "PM", "12:15")
  {
    MarkerLiterals();
    LateMorningLayout();
    assert NatToString(23) == "23";
    assert NatToString(12) == "12";
    assert NatToString(15) == "15";
  }

  /** A class from 11:00 in the morning to 12:15 is read as starting at 23:00. */
  lemma LateMorningClassStartsAtNight(courseText: string, daysText: string, locationText: string,
                                      instructorText: string, today: Today)
    requires courseText != [] && DaysOf(daysText) != []
    ensures var r := BuildCourseMeeting(courseText, "11:00AM - 12:15PM", daysText, locationText, instructorText, today);
            r.Some? && r.value.startTime == "23:00" && r.value.endTime == "12:15"
  {
    LateMorningLayout();
    LateMorningClocks();
    MarkerLiterals();
    StartTakesClosingMarker(courseText, "11:00", "AM", "12:15", "PM", daysText, locationText, instructorText, today);
  }

  // ------------------------------------------------------------ parseStudentCenterRow

  /** `getTextContent(cells[k])`: the trimmed text of a cell, or empty past the last. */
  function CellText(cells: seq<string>, k: nat): (t: string)
    ensures t == [] || (!IsWhitespace(t[0]) && !IsWhitespace(t[|t| - 1]))
  {
    if k < |cells| then Trim(cells[k]) else []
  }

  /** `parseStudentCenterRow`: course, component, days-and-time, room and instructor
      cells; the third cell is both the time and the days text. */
  function ParseStudentCenterRow(cells: seq<string>, today: Today): (r: Option<CourseMeeting>)
    ensures |cells| < 3 ==> r.None?
    ensures |cells| >= 3 && (CellText(cells, 0) == [] || CellText(cells, 2) == []) ==> r.None?
    ensures r.Some? ==> && r.value.title == Trim(CellText(cells, 0) + " " + CellText(cells, 1))
                        && r.value.days == DaysOf(CellText(cells, 2)) && r.value.days != []
                        && r.value.location == OrTba(CellText(cells, 3))
                        && r.value.instructor == OrTba(CellText(cells, 4))
    ensures |cells| >= 3 && CellText(cells, 0) != [] && CellText(cells, 2) != [] ==>
              r == BuildCourseMeeting(Trim(CellText(cells, 0) + " " + CellText(cells, 1)), CellText(cells, 2),
                                      CellText(cells, 2), OrTba(CellText(cells, 3)), OrTba(CellText(cells, 4)), today)
    ensures r.Some? ==> WellFormedMeeting(r.value)
  {
    if |cells| < 3 || CellText(cells, 0) == [] || CellText(cells, 2) == [] then None
    else
      var daysTimeText := CellText(cells, 2);
      RowTitleStartsWithCourse(CellText(cells, 0), CellText(cells, 1));
      BuildCourseMeeting(Trim(CellText(cells, 0) + " " + CellText(cells, 1)), daysTimeText, daysTimeText,
                         OrTba(CellText(cells, 3)), OrTba(CellText(cells, 4)), today)
  }

  /** The row title `course component`, trimmed, starts where the course cell does. */
  lemma RowTitleStartsWithCourse(courseText: string, componentText: string)
    requires courseText != [] && !IsWhitespace(courseText[0])
    ensures Trim(courseText + " " + componentText) != [] && Trim(courseText + " " + componentText)[0] != ' '
  {
    TrimKeeps(courseText + " " + componentText, 0);
    assert IsWhitespace(' ');
  }

  lemma GluedRowWords()
    ensures IsWord("MoWe") && IsWord("2:00PM") && IsWord("-") && IsWord("3:15PM")
    ensures DayCode("MoWe").None? && DayCode("2:00PM").None? && DayCode("-").None? && DayCode("3:15PM").None?
  {
  }

  lemma GluedRowLayout()
    ensures "MoWe 2:00PM - 3:15PM" == "MoWe" + [' '] + ("2:00PM" + [' '] + ("-" + [' '] + "3:15PM"))
  {
  }

  lemma TokensOfFour(a: string, b: string, c: string, d: string, sep: char)
    requires IsWord(a) && IsWord(b) && IsWord(c) && IsWord(d) && IsDaySeparator(sep)
    ensures Tokens(a + [sep] + (b + [sep] + (c + [sep] + d))) == [a, b, c, d]
  {
    TokensOfWord(a, sep, b + [sep] + (c + [sep] + d));
    TokensOfWord(b, sep, c + [sep] + d);
    TokensOfWord(c, sep, d);
    TokensOfLastWord(d);
  }

  /** A Student Center days-and-times cell written the way the campus pages write it,
      with the weekdays glued together (`MoWe`), names no weekday: none of its tokens is
      a key of the day table, so the row yields no meeting. */
  lemma StudentCenterGluedDays(cells: seq<string>, today: Today)
    requires |cells| >= 3 && CellText(cells, 2) == "MoWe 2:00PM - 3:15PM"
    ensures DaysOf(CellText(cells, 2)) == []
    ensures ParseStudentCenterRow(cells, today).None?
  {
    GluedRowLayout();
    GluedRowWords();
    TokensOfFour("MoWe", "2:00PM", "-", "3:15PM", ' ');
    NoDayFromUnknownTokens(["MoWe", "2:00PM", "-", "3:15PM"]);
  }

  // ------------------------------------------------------------ parseCourseBox

  /** The texts a legend course box offers: `.course_title`, the header span, the
      `#hoursInLegend` element, the instructor and the location; `None` where the
      element is missing. */
  datatype CourseBox = CourseBox(
    title: Option<string>,
    span: Option<string>,
    hours: Option<string>,
    instructor: Option<string>,
    location: Option<string>)

  /** An optional element's trimmed text, `TBA` when it is missing or empty. */
  function ElementOrTba(e: Option<string>): (t: string)
    ensures t != []
  {
    if e.Some? then OrTba(Trim(e.value)) else "TBA"
  }

  /** `parseCourseBox`: null without a non-empty title, without the hours element,
      without `days : h:mm AM to h:mm PM` in it, or with no weekday in the days. */
  function ParseCourseBox(box: CourseBox, today: Today): (r: Option<CourseMeeting>)
    ensures r.None? <==> || box.title.None? || Trim(box.title.value) == []
                         || box.hours.None? || Match(box.hours.value, ScheduleAt).None?
                         || DaysOf(Trim(Match(box.hours.value, ScheduleAt).value.days)) == []
    ensures r.Some? ==> var code := Trim(box.title.value);
                        && r.value.courseId == HyphenateWhitespace(code)
                        && r.value.title == (if box.span.Some? then code + " - " + Trim(box.span.value) else code)
                        && r.value.instructor == ElementOrTba(box.instructor)
                        && r.value.location == ElementOrTba(box.location)
    ensures r.Some? ==> var schedule := Match(box.hours.value, ScheduleAt).value;
                        && r.value.days == DaysOf(Trim(schedule.days))
                        && r.value.startTime == ParseTime(RemoveWhitespace(schedule.start), None)
                        && r.value.endTime == ParseTime(RemoveWhitespace(schedule.end), None)
                        && r.value.startDate == SemesterStart(today) && r.value.endDate == SemesterEnd(today)
    ensures r.Some? ==> WellFormedMeeting(r.value) && NoWhitespace(r.value.courseId)
  {
    if box.title.None? then None
    else
      var courseCode := Trim(box.title.value);
      if courseCode == [] then None
      else
        var fullTitle := if box.span.Some? then courseCode + " - " + Trim(box.span.value) else courseCode;
        if box.hours.None? then None
        else
          match Match(box.hours.value, ScheduleAt)
          case None => None
          case Some(schedule) =>
            var daysStr := Trim(schedule.days);
            var startTime := ParseTime(RemoveWhitespace(schedule.start), None);
            var endTime := ParseTime(RemoveWhitespace(schedule.end), None);
            var days := DaysOf(daysStr);
            if days == [] then None
            else Some(CourseMeeting(HyphenateWhitespace(courseCode), fullTitle,
                                    ElementOrTba(box.instructor), ElementOrTba(box.location),
                                    SemesterStart(today), SemesterEnd(today), days, startTime, endTime))
  }

  // ------------------------------------------------------------ parseScheduleBuilderBlock / Text

  /** The days text the block parser hands to `parseDays`: the whole leftmost
      `Day(, Day)?` match, or nothing. */
  function BlockDaysText(text: string): (d: string)
  {
    match Match(text, DayListAt)
    case Some(list) => list
    case None => ""
  }

  /** `parseScheduleBuilderBlock` and `parseScheduleBuilderText`, which read a text the
      same way: the leftmost `SUBJ NNN` gives the id `SUBJ-NNN`, the text after it up to a
      bullet or line break the title, `h:mm AM to h:mm PM` the times, and a one- or
      two-day list the days. */
  function ParseBlockText(text: string, today: Today): (r: Option<CourseMeeting>)
    ensures r.None? <==> || Match(text, SubjectNumberAt).None? || Match(text, ToRangeAt).None?
                         || DaysOf(BlockDaysText(text)) == []
    ensures r.Some? ==> var code := Match(text, SubjectNumberAt).value;
                        && r.value.courseId == code.subject + "-" + code.number
                        && 6 <= |r.value.courseId| <= 8
                        && r.value.instructor == "TBA" && r.value.location == "TBA"
                        && r.value.days == DaysOf(BlockDaysText(text))
    ensures r.Some? ==> var range := Match(text, ToRangeAt).value;
                        && r.value.startTime == ParseTime(RemoveWhitespace(range.0), None)
                        && r.value.endTime == ParseTime(RemoveWhitespace(range.1), None)
                        && r.value.startDate == SemesterStart(today) && r.value.endDate == SemesterEnd(today)
    ensures r.Some? && Match(text, TitleAt).None? ==> r.value.title == r.value.courseId
    ensures r.Some? && Match(text, TitleAt).Some? ==> r.value.title == Trim(Match(text, TitleAt).value)
    ensures r.Some? ==> WellFormedMeeting(r.value)
  {
    match Match(text, SubjectNumberAt)
    case None => None
    case Some(code) =>
      var courseId := code.subject + "-" + code.number;
      var title := match Match(text, TitleAt) case Some(t) => Trim(t) case None => courseId;
      match Match(text, ToRangeAt)
      case None => None
      case Some(range) =>
        var startTime := ParseTime(RemoveWhitespace(range.0), None);
        var endTime := ParseTime(RemoveWhitespace(range.1), None);
        var days := DaysOf(BlockDaysText(text));
        if days == [] then None
        else
          var m := CourseMeeting(courseId, title, "TBA", "TBA", SemesterStart(today), SemesterEnd(today),
                                 days, startTime, endTime);
          assert m.courseId != [] && m.days != [];
          assert WellFormedMeeting(m);
          Some(m)
  }

  /** A clock text with a glued marker, wherever it starts, ends right after the marker. */
  lemma MarkedClockEndOf(s: string, i: nat, c: string, m: string, rest: string)
    requires IsClockText(c) && IsMarker(m) && i <= |s| && s[i..] == c + m + rest
    ensures MarkedClockEnd(s, i) == Some(i + |c| + 2)
  {
    MarkerFacts(m);
    assert c + m + rest == c + (m + rest);
    ClockEndOfClockText(c, m + rest);
    ClockEndShift(s, i, c + m + rest);
    var p := i + |c|;
    assert s[p] == (c + m + rest)[|c|] == m[0];
    assert WsRun(s, p) == 0;
    assert s[p..p + 2] == m;
  }

  /** ` to ` followed by a non-blank: one blank, the word, one blank. */
  lemma ToWordAt(s: string, a: nat)
    requires a + 4 < |s| && s[a..a + 4] == " to " && !IsWhitespace(s[a + 4])
    ensures WsRun(s, a) == 1 && WsRun(s, a + 3) == 1
    ensures EqualsIgnoreCase(s[a + 1..a + 3], "TO")
  {
    assert s[a] == ' ' && s[a + 1] == 't' && s[a + 2] == 'o' && s[a + 3] == ' ';
    assert WsRun(s, a + 1) == 0;
    assert WsRun(s, a + 4) == 0;
    assert s[a + 1..a + 3] == "to";
    assert EqualsIgnoreCase("to", "TO");
  }

  /** The to-range at `i` from where its pieces end. */
  lemma ToRangeAtOf(s: string, i: nat, a: nat, b: nat)
    requires MarkedClockEnd(s, i) == Some(a) && a + 4 < |s| && s[a..a + 4] == " to " && !IsWhitespace(s[a + 4])
    requires MarkedClockEnd(s, a + 4) == Some(b)
    ensures ToRangeAt(s, i) == Some((s[i..a], s[a + 4..b]))
  {
    ToWordAt(s, a);
  }

  lemma ToRangeSlices(c1: string, m1: string, c2: string, m2: string)
    requires IsClockText(c1) && IsClockText(c2) && |m1| == 2
    ensures var s := c1 + m1 + " to " + c2 + m2;
            var a := |c1| + 2;
            && a + 4 < |s| && s[a..a + 4] == " to " && !IsWhitespace(s[a + 4])
            && s[0..] == c1 + m1 + (" to " + c2 + m2) && s[a + 4..] == c2 + m2 + []
            && s[0..a] == c1 + m1 && s[a + 4..|s|] == c2 + m2
  {
    var s := c1 + m1 + " to " + c2 + m2;
    var a := |c1| + 2;
    assert s[a + 4] == c2[0];
  }

  /** Where each piece of `c1m1 to c2m2` sits: the whole text is one range whose
      captures are the two times with their glued markers. */
  lemma ToRangeLayout(c1: string, m1: string, c2: string, m2: string)
    requires IsClockText(c1) && IsClockText(c2) && IsMarker(m1) && IsMarker(m2)
    ensures ToRangeAt(c1 + m1 + " to " + c2 + m2, 0) == Some((c1 + m1, c2 + m2))
  {
    var s := c1 + m1 + " to " + c2 + m2;
    var a := |c1| + 2;
    MarkerFacts(m1);
    ToRangeSlices(c1, m1, c2, m2);
    MarkedClockEndOf(s, 0, c1, m1, " to " + c2 + m2);
    MarkedClockEndOf(s, a + 4, c2, m2, []);
    ToRangeAtOf(s, 0, a, |s|);
  }

  /** `h:mmAM to h:mmPM` gives each time through the marker glued to it, converted from
      the 12-hour clock. */
  lemma ToRangeTimes(c1: string, m1: string, c2: string, m2: string)
    requires IsClockText(c1) && 1 <= ClockHour(c1) <= 12 && IsMarker(m1)
    requires IsClockText(c2) && 1 <= ClockHour(c2) <= 12 && IsMarker(m2)
    ensures Match(c1 + m1 + " to " + c2 + m2, ToRangeAt) == Some((c1 + m1, c2 + m2))
    ensures ParseTime(RemoveWhitespace(c1 + m1), None)
         == TwoDigits(TwentyFourHour(ClockHour(c1), EqualsIgnoreCase(m1, "PM"))) + ":" + TwoDigits(ClockMinute(c1))
    ensures ParseTime(RemoveWhitespace(c2 + m2), None)
         == TwoDigits(TwentyFourHour(ClockHour(c2), EqualsIgnoreCase(m2, "PM"))) + ":" + TwoDigits(ClockMinute(c2))
  {
    ToRangeLayout(c1, m1, c2, m2);
    GluedClockSplit(c1, m1);
    GluedClockSplit(c2, m2);
    ParseTimeGluedMarker(c1, m1, None);
    ParseTimeGluedMarker(c2, m2, None);
  }

  /** Unlike the dash range, each time of a block's range keeps its own marker. */
  lemma BlockTimesKeepTheirMarkers(text: string, today: Today, c1: string, m1: string, c2: string, m2: string)
    requires IsClockText(c1) && 1 <= ClockHour(c1) <= 12 && IsMarker(m1)
    requires IsClockText(c2) && 1 <= ClockHour(c2) <= 12 && IsMarker(m2)
    requires Match(text, ToRangeAt) == Some((c1 + m1, c2 + m2)) && ParseBlockText(text, today).Some?
    ensures ParseBlockText(text, today).value.startTime
         == TwoDigits(TwentyFourHour(ClockHour(c1), EqualsIgnoreCase(m1, "PM"))) + ":" + TwoDigits(ClockMinute(c1))
    ensures ParseBlockText(text, today).value.endTime
         == TwoDigits(TwentyFourHour(ClockHour(c2), EqualsIgnoreCase(m2, "PM"))) + ":" + TwoDigits(ClockMinute(c2))
  {
    ToRangeTimes(c1, m1, c2, m2);
  }

  // ------------------------------------------------------------ parseCoursesFromURL

  /** The query key `course_<i>_0`. */
  function CourseKey(i: nat): (k: string)
    ensures |k| == |NatToString(i)| + 9
  {
    "course_" + NatToString(i) + "_0"
  }

  lemma CourseKeyInjective(a: nat, b: nat)
    requires CourseKey(a) == CourseKey(b)
    ensures a == b
  {
    var ka, kb := CourseKey(a), CourseKey(b);
    assert ka[7..|ka| - 2] == NatToString(a);
    assert kb[7..|kb| - 2] == NatToString(b);
    NatToStringInjective(a, b);
  }

  /** The keys the scan has read before index `i`. */
  function KeysBelow(i: nat): (keys: set<string>)
  {
    set j | 0 <= j < i :: CourseKey(j)
  }

  /** Each index read removes one present key from those not read yet. */
  lemma ScanMeasureDecreases(params: map<string, string>, i: nat)
    requires CourseKey(i) in params
    ensures |params.Keys - KeysBelow(i + 1)| < |params.Keys - KeysBelow(i)|
  {
    var key := CourseKey(i);
    assert KeysBelow(i + 1) == KeysBelow(i) + {key};
    assert key !in KeysBelow(i) by {
      if key in KeysBelow(i) {
        var j :| 0 <= j < i && CourseKey(j) == key;
        CourseKeyInjective(j, i);
      }
    }
    assert params.Keys - KeysBelow(i + 1) == (params.Keys - KeysBelow(i)) - {key};
  }

  /** `params.get(key)`. */
  function Lookup(params: map<string, string>, key: string): (v: Option<string>)
    ensures v.Some? <==> key in params
  {
    if key in params then Some(params[key]) else None
  }

  /** The placeholder meeting for one `course_i_0` value matching `SUBJ-NNN`: the value
      is the id, `SUBJ NNN` the title, Monday and Wednesday 09:00 to 10:15. */
  function Placeholder(value: string, today: Today): (r: Option<CourseMeeting>)
    ensures r.Some? <==> Match(value, DashCodeAt).Some?
    ensures r.Some? ==> && r.value.courseId == value
                        && r.value.title == Match(value, DashCodeAt).value.0 + " " + Match(value, DashCodeAt).value.1
    ensures r.Some? ==> PlaceholderShape(r.value)
  {
    match Match(value, DashCodeAt)
    case None => None
    case Some(code) =>
      var m := CourseMeeting(value, code.0 + " " + code.1, "TBA", "TBA", SemesterStart(today), SemesterEnd(today),
                             ["MO", "WE"], "09:00", "10:15");
      assert value != [];
      MondayWednesday();
      assert PlaceholderShape(m);
      Some(m)
  }

  lemma MondayWednesday()
    ensures var days := ["MO", "WE"];
            |days| > 0 && (forall k :: 0 <= k < |days| ==> IsDayCode(days[k])) && NoDuplicates(days)
  {
    var days := ["MO", "WE"];
    assert days[0] != days[1] by { assert days[0][0] != days[1][0]; }
    assert IsDayCode(days[0]) && IsDayCode(days[1]);
  }

  /** What every address placeholder shares. */
  predicate PlaceholderShape(m: CourseMeeting) {
    && WellFormedMeeting(m)
    && m.days == ["MO", "WE"] && m.startTime == "09:00" && m.endTime == "10:15"
    && m.instructor == "TBA" && m.location == "TBA"
  }

  /** The placeholders the scan produces from index `i` on: it reads `course_i_0`,
      `course_{i+1}_0`, … and stops at the first absent or empty value; values that do
      not match are skipped. */
  function UrlPlaceholdersFrom(params: map<string, string>, i: nat, today: Today): (r: seq<CourseMeeting>)
    ensures |r| <= |params.Keys - KeysBelow(i)|
    decreases |params.Keys - KeysBelow(i)|
  {
    var value := Lookup(params, CourseKey(i));
    if value.Some? && value.value != [] then
      ScanMeasureDecreases(params, i);
      var rest := UrlPlaceholdersFrom(params, i + 1, today);
      match Placeholder(value.value, today)
      case Some(m) => [m] + rest
      case None => rest
    else []
  }

  /** One step of the scan: a present, non-empty value contributes its placeholder, if
      any, ahead of the rest. */
  lemma UrlPlaceholdersStep(params: map<string, string>, i: nat, today: Today)
    requires CourseKey(i) in params && params[CourseKey(i)] != []
    ensures |params.Keys - KeysBelow(i + 1)| < |params.Keys - KeysBelow(i)|
    ensures var p := Placeholder(params[CourseKey(i)], today);
            UrlPlaceholdersFrom(params, i, today)
            == (if p.Some? then [p.value] else []) + UrlPlaceholdersFrom(params, i + 1, today)
  {
    ScanMeasureDecreases(params, i);
  }

  lemma ShapedConcat(a: seq<CourseMeeting>, b: seq<CourseMeeting>)
    requires forall k :: 0 <= k < |a| ==> PlaceholderShape(a[k])
    requires forall k :: 0 <= k < |b| ==> PlaceholderShape(b[k])
    ensures forall k :: 0 <= k < |a + b| ==> PlaceholderShape((a + b)[k])
  {
  }

  /** Every placeholder has the fixed placeholder shape. */
  lemma {:induction false} UrlPlaceholdersShape(params: map<string, string>, i: nat, today: Today)
    ensures forall k :: 0 <= k < |UrlPlaceholdersFrom(params, i, today)| ==> PlaceholderShape(UrlPlaceholdersFrom(params, i, today)[k])
    decreases |params.Keys - KeysBelow(i)|
  {
    if CourseKey(i) in params && params[CourseKey(i)] != [] {
      UrlPlaceholdersStep(params, i, today);
      UrlPlaceholdersShape(params, i + 1, today);
      var p := Placeholder(params[CourseKey(i)], today);
      var head := if p.Some? then [p.value] else [];
      var rest := UrlPlaceholdersFrom(params, i + 1, today);
      assert forall k :: 0 <= k < |head| ==> PlaceholderShape(head[k]);
      ShapedConcat(head, rest);
    }
  }

  lemma ConcatAssociative<T>(a: seq<T>, b: seq<T>, c: seq<T>)
    ensures a + (b + c) == (a + b) + c
  {
  }

  /** `parseCoursesFromURL`. */
  method ParseCoursesFromURL(params: map<string, string>, today: Today) returns (meetings: seq<CourseMeeting>)
    ensures meetings == UrlPlaceholdersFrom(params, 0, today)
  {
    meetings := [];
    var courseIndex := 0;
    var courseParam := Lookup(params, CourseKey(courseIndex));
    while courseParam.Some? && courseParam.value != []
      invariant courseParam == Lookup(params, CourseKey(courseIndex))
      invariant meetings + UrlPlaceholdersFrom(params, courseIndex, today) == UrlPlaceholdersFrom(params, 0, today)
      decreases |params.Keys - KeysBelow(courseIndex)|
    {
      UrlPlaceholdersStep(params, courseIndex, today);
      var placeholder := Placeholder(courseParam.value, today);
      if placeholder.Some? {
        ConcatAssociative(meetings, [placeholder.value], UrlPlaceholdersFrom(params, courseIndex + 1, today));
        meetings := meetings + [placeholder.value];
      }
      courseIndex := courseIndex + 1;
      courseParam := Lookup(params, CourseKey(courseIndex));
    }
  }

  /** The scan never reads past the first gap: two parameter maps that agree on
      `course_i_0` … `course_g_0`, where `course_g_0` is absent or empty, give the same
      placeholders. */
  lemma {:induction false} ScanStopsAtGap(p1: map<string, string>, p2: map<string, string>, i: nat, g: nat, today: Today)
    requires i <= g
    requires forall j :: i <= j <= g ==> Lookup(p1, CourseKey(j)) == Lookup(p2, CourseKey(j))
    requires Lookup(p1, CourseKey(g)).None? || Lookup(p1, CourseKey(g)).value == []
    ensures UrlPlaceholdersFrom(p1, i, today) == UrlPlaceholdersFrom(p2, i, today)
    decreases g - i
  {
    if i < g {
      var v := Lookup(p1, CourseKey(i));
      if v.Some? && v.value != [] {
        ScanStopsAtGap(p1, p2, i + 1, g, today);
      }
    }
  }

  /** A present value that is not a `SUBJ-NNN` code is skipped and the scan goes on. */
  lemma SkipsNonMatching(params: map<string, string>, i: nat, today: Today)
    requires CourseKey(i) in params && params[CourseKey(i)] != []
    requires Match(params[CourseKey(i)], DashCodeAt).None?
    ensures UrlPlaceholdersFrom(params, i, today) == UrlPlaceholdersFrom(params, i + 1, today)
  {
  }
}
