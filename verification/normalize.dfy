/** The two token normalisers of the scraper (src/contentScript.ts):
    `parseTime`, 12-hour clock text to 24-hour `HH:MM`, and `parseDays`, weekday names
    to iCalendar codes. */
module Normalize {
  import opened Types
  import opened JsText
  import opened Patterns

  // ============================================================ parseTime

  /** The captures of `(\d+)(AM|PM)` (flag `i`) at `i`: the minute digits and the marker
      glued to them. */
  function GluedMarkerAt(s: string, i: nat): (r: Option<(string, string)>)
    ensures r.Some? ==> r.value.0 != [] && AllDigits(r.value.0) && IsMarker(r.value.1)
  {
    var n := DigitRun(s, i);
    if n >= 1 && MarkerAt(s, i + n) then Some((s[i..i + n], s[i + n..i + n + 2])) else None
  }

  /** The hour adjustment of `parseTime`: a non-empty `period` that reads `PM` moves every
      hour but 12 on by twelve, one that reads `AM` turns 12 into 0. */
  function AdjustHour(hours: Num, period: Option<string>): (h: Num)
    ensures period.None? || period.value == [] ==> h == hours
    ensures hours.NaN? ==> h.NaN?
  {
    if period.Some? && period.value != [] then
      if EqualsIgnoreCase(period.value, "PM") && hours != Int(12) then
        (match hours case Int(v) => Int(v + 12) case NaN => NaN)
      else if EqualsIgnoreCase(period.value, "AM") && hours == Int(12) then Int(0)
      else hours
    else hours
  }

  /** `parseTime(timeStr, period)`: drop white space, split at ':', let an AM/PM glued to
      the minutes override `period`, adjust the hour and print both fields padded to two. */
  function ParseTime(timeStr: string, period: Option<string>): (r: string)
  {
    var clean := RemoveWhitespace(timeStr);
    var parts := Split(clean, ':');
    var hours := NumberOf(parts[0]);
    var minutesStr: Option<string> := if |parts| >= 2 then Some(parts[1]) else None;
    var glued := if minutesStr.Some? then Match(minutesStr.value, GluedMarkerAt) else None;
    var minutes := if glued.Some? then NumberOf(glued.value.0)
                   else if minutesStr.Some? then NumberOf(minutesStr.value) else NaN;
    var period' := if glued.Some? then Some(glued.value.1) else period;
    PadStart2(NumToString(AdjustHour(hours, period'))) + ":" + PadStart2(NumToString(minutes))
  }

  /** The 24-hour hour for a 12-hour clock hour, written independently of `AdjustHour`:
      the hour modulo twelve, plus twelve in the afternoon. */
  function TwentyFourHour(h: nat, afternoon: bool): (r: nat)
    requires 1 <= h <= 12
    ensures r < 24
  {
    h % 12 + (if afternoon then 12 else 0)
  }

  /** The two-digit rendering of a number below one hundred. */
  function TwoDigits(n: nat): (t: string)
    requires n < 100
    ensures |t| == 2 && AllDigits(t) && NumberOf(t) == Int(n)
  {
    PaddedRoundTrip(n);
    PadStart2(NatToString(n))
  }

  /** The hour and minute digits of a `\d{1,2}:\d{2}` text. */
  function ClockHour(t: string): (h: nat)
    requires IsClockText(t)
    ensures h < 100
  {
    if |t| == 4 then DigitValue(t[0]) else DigitValue(t[0]) * 10 + DigitValue(t[1])
  }

  function ClockMinute(t: string): (m: nat)
    requires IsClockText(t)
    ensures m < 100
  {
    DigitValue(t[|t| - 2]) * 10 + DigitValue(t[|t| - 1])
  }

  lemma DigitsValueOfTwo(s: string)
    requires |s| == 2 && AllDigits(s)
    ensures DigitsValue(s) == DigitValue(s[0]) * 10 + DigitValue(s[1])
  {
    var p := s[..1];
    assert p[..0] == [];
    assert DigitsValue(p) == DigitValue(s[0]);
    assert DigitsValue(s) == DigitsValue(p) * 10 + DigitValue(s[1]);
  }

  lemma DigitsValueOfOne(s: string)
    requires |s| == 1 && AllDigits(s)
    ensures DigitsValue(s) == DigitValue(s[0])
  {
    assert s[..0] == [];
  }

  lemma ClockTextSplit(t: string)
    requires IsClockText(t)
    ensures Split(t, ':') == [t[..|t| - 3], t[|t| - 2..]]
  {
    var h, m := t[..|t| - 3], t[|t| - 2..];
    assert ':' !in h by {
      if |h| == 2 { assert h[0] == t[0] && h[1] == t[1]; } else { assert h[0] == t[0]; }
    }
    assert ':' !in m by { assert m[0] == t[|t| - 2] && m[1] == t[|t| - 1]; }
    assert t == h + [':'] + m;
    SplitAfterPiece(h, ':', m);
    SplitNoSeparator(m, ':');
  }

  lemma ClockHourValue(t: string)
    requires IsClockText(t)
    ensures NumberOf(t[..|t| - 3]) == Int(ClockHour(t))
  {
    var h := t[..|t| - 3];
    if |t| == 5 {
      assert h[0] == t[0] && h[1] == t[1];
      DigitsValueOfTwo(h);
    } else {
      assert h[0] == t[0];
      DigitsValueOfOne(h);
    }
  }

  lemma ClockMinuteValue(t: string)
    requires IsClockText(t)
    ensures NumberOf(t[|t| - 2..]) == Int(ClockMinute(t))
  {
    var m := t[|t| - 2..];
    assert m[0] == t[|t| - 2] && m[1] == t[|t| - 1];
    DigitsValueOfTwo(m);
  }

  lemma ClockTextNoWhitespace(t: string)
    requires IsClockText(t)
    ensures NoWhitespace(t)
  {
  }

  lemma MarkerFacts(marker: string)
    requires IsMarker(marker)
    ensures |marker| == 2 && NoWhitespace(marker) && ':' !in marker && !IsDigit(marker[0])
    ensures !EqualsIgnoreCase(marker, "PM") ==> EqualsIgnoreCase(marker, "AM")
  {
    assert UpperAscii(marker[0]) in "AP" && UpperAscii(marker[1]) == 'M';
  }

  lemma NoGluedMarkerInDigits(m: string)
    requires AllDigits(m)
    ensures Match(m, GluedMarkerAt).None?
  {
    forall k | 0 <= k <= |m| ensures GluedMarkerAt(m, k).None? {
      var n := DigitRun(m, k);
      assert k + n == |m|;
    }
  }

  lemma GluedMarkerOfDigits(ms: string, marker: string)
    requires |ms| == 2 && AllDigits(ms) && IsMarker(marker)
    ensures Match(ms + marker, GluedMarkerAt) == Some((ms, marker))
  {
    MarkerFacts(marker);
    var g := ms + marker;
    assert DigitRun(g, 0) == 2 by {
      assert g[0] == ms[0] && g[1] == ms[1] && g[2] == marker[0];
    }
    assert g[2..4] == marker;
    assert GluedMarkerAt(g, 0) == Some((ms, marker));
  }

  /** The hour `parseTime` prints for clock hour `h` under a marker. A 12-hour clock hour
      goes through the 12-to-24-hour rule; `\d{1,2}` also lets hour 0 and hours 13 to 99
      through, and for those PM adds twelve and AM changes nothing. */
  function MarkedHour(h: nat, afternoon: bool): nat
  {
    if 1 <= h <= 12 then TwentyFourHour(h, afternoon) else if afternoon then h + 12 else h
  }

  /** Which hour a marker gives, for every hour the clock pattern admits. */
  lemma AdjustHourRule(h: nat, marker: string)
    requires IsMarker(marker)
    ensures AdjustHour(Int(h), Some(marker)) == Int(MarkedHour(h, EqualsIgnoreCase(marker, "PM")))
    ensures 1 <= h <= 12 ==> AdjustHour(Int(h), Some(marker)) == Int(TwentyFourHour(h, EqualsIgnoreCase(marker, "PM")))
  {
    MarkerFacts(marker);
  }

  lemma PaddedNum(n: nat)
    requires n < 100
    ensures PadStart2(NumToString(Int(n))) == TwoDigits(n)
  {
  }

  /** The time with the marker passed as `period`. */
  lemma ParseTimeSeparateMarker(t: string, marker: string)
    requires IsClockText(t) && IsMarker(marker)
    ensures ParseTime(t, Some(marker))
         == PadStart2(NatToString(MarkedHour(ClockHour(t), EqualsIgnoreCase(marker, "PM")))) + ":" + TwoDigits(ClockMinute(t))
    ensures 1 <= ClockHour(t) <= 12 ==>
              ParseTime(t, Some(marker)) == TwoDigits(TwentyFourHour(ClockHour(t), EqualsIgnoreCase(marker, "PM"))) + ":" + TwoDigits(ClockMinute(t))
  {
    ClockTextNoWhitespace(t);
    ClockTextSplit(t);
    ClockHourValue(t);
    ClockMinuteValue(t);
    NoGluedMarkerInDigits(t[|t| - 2..]);
    AdjustHourRule(ClockHour(t), marker);
    PaddedNum(ClockMinute(t));
  }

  /** The time with no marker anywhere: the hour and minute digits, each padded to two. */
  lemma ParseTimeNoMarker(t: string)
    requires IsClockText(t)
    ensures ParseTime(t, None) == TwoDigits(ClockHour(t)) + ":" + TwoDigits(ClockMinute(t))
  {
    ClockTextNoWhitespace(t);
    ClockTextSplit(t);
    ClockHourValue(t);
    ClockMinuteValue(t);
    NoGluedMarkerInDigits(t[|t| - 2..]);
    PaddedNum(ClockHour(t));
    PaddedNum(ClockMinute(t));
  }

  /** A clock text with a marker glued on has no white space and splits at its colon
      into the hour digits and the minutes with the marker. */
  lemma GluedClockSplit(t: string, marker: string)
    requires IsClockText(t) && IsMarker(marker)
    ensures RemoveWhitespace(t + marker) == t + marker
    ensures Split(t + marker, ':') == [t[..|t| - 3], t[|t| - 2..] + marker]
  {
    var hs, ms := t[..|t| - 3], t[|t| - 2..];
    var s := t + marker;
    ClockTextNoWhitespace(t);
    MarkerFacts(marker);
    assert NoWhitespace(s) by {
      forall k | 0 <= k < |s| ensures !IsWhitespace(s[k]) {
        if k >= |t| { assert s[k] == marker[k - |t|]; }
      }
    }
    ClockTextSplit(t);
    assert s == hs + [':'] + (ms + marker);
    assert ':' !in hs by { assert hs == Split(t, ':')[0]; }
    assert ':' !in ms + marker by { assert ms == Split(t, ':')[1]; }
    SplitAfterPiece(hs, ':', ms + marker);
    SplitNoSeparator(ms + marker, ':');
  }

  /** The time with the marker glued to its minutes; whatever `period` says is ignored. */
  lemma ParseTimeGluedMarker(t: string, marker: string, period: Option<string>)
    requires IsClockText(t) && IsMarker(marker)
    ensures ParseTime(t + marker, period)
         == PadStart2(NatToString(MarkedHour(ClockHour(t), EqualsIgnoreCase(marker, "PM")))) + ":" + TwoDigits(ClockMinute(t))
    ensures 1 <= ClockHour(t) <= 12 ==>
              ParseTime(t + marker, period) == TwoDigits(TwentyFourHour(ClockHour(t), EqualsIgnoreCase(marker, "PM"))) + ":" + TwoDigits(ClockMinute(t))
  {
    var ms := t[|t| - 2..];
    GluedClockSplit(t, marker);
    ClockHourValue(t);
    ClockMinuteValue(t);
    ClockTextSplit(t);
    assert AllDigits(ms) by { assert ms == Split(t, ':')[1]; }
    GluedMarkerOfDigits(ms, marker);
    AdjustHourRule(ClockHour(t), marker);
    PaddedNum(ClockMinute(t));
  }

  lemma MarkerLiterals()
    ensures IsMarker("PM") && EqualsIgnoreCase("PM", "PM")
    ensures IsMarker("AM") && !EqualsIgnoreCase("AM", "PM")
  {
    assert UpperAscii("AM"[0]) != UpperAscii("PM"[0]);
  }

  /** `t` is a 12-hour clock text and `out` is what the 12-to-24-hour rule makes of it
      under `marker`. */
  predicate ExampleClock(t: string, marker: string, out: string)
  {
    && IsClockText(t) && 1 <= ClockHour(t) <= 12 && IsMarker(marker)
    && out == TwoDigits(TwentyFourHour(ClockHour(t), EqualsIgnoreCase(marker, "PM"))) + ":" + TwoDigits(ClockMinute(t))
  }

  lemma ExampleAfternoon() ensures ExampleClock("2:00", "PM", "14:00")
  {
    MarkerLiterals();
    assert NatToString(14) == "14";
  }

  lemma ExampleMorning() ensures ExampleClock("10:00", "AM", "10:00")
  {
    MarkerLiterals();
    assert NatToString(10) == "10";
  }

  lemma ExampleNoon() ensures ExampleClock("12:00", "PM", "12:00")
  {
    MarkerLiterals();
    assert NatToString(12) == "12";
  }

  lemma ExampleMidnight() ensures ExampleClock("12:00", "AM", "00:00")
  {
    MarkerLiterals();
  }

  /** The four conversions the time-parsing tests check: afternoon, morning, noon and
      midnight. */
  lemma ParseTimeExamples()
    ensures ParseTime("2:00", Some("PM")) == "14:00"
    ensures ParseTime("10:00", Some("AM")) == "10:00"
    ensures ParseTime("12:00", Some("PM")) == "12:00"
    ensures ParseTime("12:00", Some("AM")) == "00:00"
  {
    ExampleAfternoon();
    ParseTimeSeparateMarker("2:00", "PM");
    ExampleMorning();
    ParseTimeSeparateMarker("10:00", "AM");
    ExampleNoon();
    ParseTimeSeparateMarker("12:00", "PM");
    ExampleMidnight();
    ParseTimeSeparateMarker("12:00", "AM");
  }

  /** The clock texts of the examples below, read digit by digit. */
  lemma OddClockTexts()
    ensures IsClockText("13:00") && ClockHour("13:00") == 13 && ClockMinute("13:00") == 0
    ensures IsClockText("0:30") && ClockHour("0:30") == 0 && ClockMinute("0:30") == 30
    ensures IsClockText("7:05") && ClockHour("7:05") == 7 && ClockMinute("7:05") == 5
  {
  }

  lemma OddClockOutputs()
    ensures PadStart2(NatToString(MarkedHour(13, true))) + ":" + TwoDigits(0) == "25:00"
    ensures PadStart2(NatToString(MarkedHour(0, false))) + ":" + TwoDigits(30) == "00:30"
    ensures TwoDigits(7) + ":" + TwoDigits(5) == "07:05"
  {
    assert NatToString(25) == "25";
    assert NatToString(30) == "30";
  }

  /** Hours outside 1..12 pass the clock pattern and the marker rule treats them as they
      are: PM adds twelve to 13. */
  lemma ParseTimeAfternoonThirteen(s: string)
    requires s == "13:00PM"
    ensures ParseTime(s, None) == "25:00"
  {
    MarkerLiterals();
    OddClockTexts();
    OddClockOutputs();
    var t, marker := "13:00", "PM";
    assert t + marker == s;
    ParseTimeGluedMarker(t, marker, None);
  }

  /** AM leaves hour 0 alone. */
  lemma ParseTimeMorningZero(s: string)
    requires s == "0:30AM"
    ensures ParseTime(s, None) == "00:30"
  {
    MarkerLiterals();
    OddClockTexts();
    OddClockOutputs();
    var t, marker := "0:30", "AM";
    assert t + marker == s;
    ParseTimeGluedMarker(t, marker, None);
  }

  /** With no marker the hour is only padded. */
  lemma ParseTimeUnmarked(s: string)
    requires s == "7:05"
    ensures ParseTime(s, None) == "07:05"
  {
    OddClockTexts();
    OddClockOutputs();
    ParseTimeNoMarker(s);
  }

  // ============================================================ parseDays

  /** The lookup table inside `parseDays`: three-letter abbreviations and full English
      names, case-sensitive. Two-letter forms and the codes themselves are not keys. */
  function DayCode(name: string): (code: Option<string>)
    ensures code.Some? ==> IsDayCode(code.value)
  {
    match name
    case "Mon" => Some("MO")
    case "Tue" => Some("TU")
    case "Wed" => Some("WE")
    case "Thu" => Some("TH")
    case "Fri" => Some("FR")
    case "Sat" => Some("SA")
    case "Sun" => Some("SU")
    case "Monday" => Some("MO")
    case "Tuesday" => Some("TU")
    case "Wednesday" => Some("WE")
    case "Thursday" => Some("TH")
    case "Friday" => Some("FR")
    case "Saturday" => Some("SA")
    case "Sunday" => Some("SU")
    case _ => None
  }

  /** The tokens `parseDays` does not know: canonical codes, the two-letter forms that
      the type module's table does know, and glued pairs. */
  lemma DayCodeRejects()
    ensures DayCode("MO").None? && DayCode("TH").None? && DayCode("Mo").None?
    ensures DayCode("We").None? && DayCode("MoWe").None? && DayCode("mon").None?
    ensures DayMap("Mo") == Some("MO")
  {
  }

  predicate IsDaySeparator(c: char) { c == ',' || IsWhitespace(c) }

  /** Length of the run of non-separator characters that starts at `i`. */
  function TokenRun(s: string, i: nat): (n: nat)
    ensures i + n <= |s| || n == 0
    ensures forall k :: i <= k < i + n ==> !IsDaySeparator(s[k])
    decreases |s| - i
  {
    if i < |s| && !IsDaySeparator(s[i]) then 1 + TokenRun(s, i + 1) else 0
  }

  /** `s.split(/[,\s]+/).filter(d => d.length > 0)`: the maximal runs of characters that
      are neither commas nor white space, in order. */
  function Tokens(s: string): (ts: seq<string>)
    ensures forall k :: 0 <= k < |ts| ==> ts[k] != [] && forall j :: 0 <= j < |ts[k]| ==> !IsDaySeparator(ts[k][j])
    decreases |s|
  {
    if s == [] then []
    else if IsDaySeparator(s[0]) then Tokens(s[1..])
    else
      var n := TokenRun(s, 0);
      [s[..n]] + Tokens(s[n..])
  }

  /** A non-empty run of characters that are neither commas nor white space. */
  predicate IsWord(w: string) {
    w != [] && forall j :: 0 <= j < |w| ==> !IsDaySeparator(w[j])
  }

  lemma {:induction false} TokenRunOfWord(w: string, rest: string, i: nat)
    requires IsWord(w) && i <= |w|
    requires rest == [] || IsDaySeparator(rest[0])
    ensures TokenRun(w + rest, i) == |w| - i
    decreases |w| - i
  {
    var s := w + rest;
    if i < |w| {
      assert s[i] == w[i];
      TokenRunOfWord(w, rest, i + 1);
    } else if rest != [] {
      assert s[i] == rest[0];
    }
  }

  /** A word followed by a separator is one whole token. */
  lemma TokensOfWord(w: string, sep: char, rest: string)
    requires IsWord(w) && IsDaySeparator(sep)
    ensures Tokens(w + [sep] + rest) == [w] + Tokens(rest)
  {
    var s := w + [sep] + rest;
    TokenRunOfWord(w, [sep] + rest, 0);
    assert s == w + ([sep] + rest);
    assert s[0] == w[0];
    assert s[..|w|] == w;
    assert s[|w|..] == [sep] + rest;
    assert Tokens([sep] + rest) == Tokens(rest) by { assert ([sep] + rest)[1..] == rest; }
  }

  /** A word on its own is a single token. */
  lemma TokensOfLastWord(w: string)
    requires IsWord(w)
    ensures Tokens(w) == [w]
  {
    TokenRunOfWord(w, [], 0);
    assert w + [] == w;
    assert w[..|w|] == w;
    assert w[|w|..] == [];
  }

  /** Tokens that no key names contribute no day. */
  lemma NoDayFromUnknownTokens(tokens: seq<string>)
    requires forall j :: 0 <= j < |tokens| ==> DayCode(tokens[j]).None?
    ensures NormalizeDays(tokens) == []
  {
  }

  /** The weekday codes of `tokens`, in order of first mention, each once: what the loop
      of `parseDays` has pushed after reading `tokens`. */
  function NormalizeDays(tokens: seq<string>): (days: seq<string>)
    ensures forall k :: 0 <= k < |days| ==> IsDayCode(days[k])
    ensures NoDuplicates(days)
    ensures forall k :: 0 <= k < |days| ==> exists j :: 0 <= j < |tokens| && DayCode(tokens[j]) == Some(days[k])
    ensures forall j :: 0 <= j < |tokens| && DayCode(tokens[j]).Some? ==> DayCode(tokens[j]).value in days
    decreases |tokens|
  {
    if tokens == [] then []
    else
      var init := tokens[..|tokens| - 1];
      var days := NormalizeDays(init);
      assert forall j :: 0 <= j < |init| ==> init[j] == tokens[j];
      match DayCode(tokens[|tokens| - 1])
      case None => days
      case Some(c) => if c in days then days else days + [c]
  }

  /** The days `parseDays(daysStr)` returns. */
  function DaysOf(daysStr: string): (days: seq<string>)
    ensures forall k :: 0 <= k < |days| ==> IsDayCode(days[k])
    ensures NoDuplicates(days)
  {
    NormalizeDays(Tokens(daysStr))
  }

  /** `parseDays`: split into tokens, look each up, push each new code. */
  method ParseDays(daysStr: string) returns (days: seq<string>)
    ensures days == DaysOf(daysStr)
  {
    var dayNames := Tokens(daysStr);
    days := [];
    for i := 0 to |dayNames|
      invariant days == NormalizeDays(dayNames[..i])
    {
      assert dayNames[..i + 1][..i] == dayNames[..i];
      var icsDay := DayCode(dayNames[i]);
      if icsDay.Some? && icsDay.value !in days {
        days := days + [icsDay.value];
      }
    }
    assert dayNames[..|dayNames|] == dayNames;
  }

  /** The index of the first token that names `c`, or `|tokens|` when none does. */
  function FirstMention(tokens: seq<string>, c: string): (j: nat)
    ensures j <= |tokens|
    ensures j < |tokens| ==> DayCode(tokens[j]) == Some(c)
    ensures forall k :: 0 <= k < j ==> DayCode(tokens[k]) != Some(c)
  {
    if tokens == [] then 0
    else if DayCode(tokens[0]) == Some(c) then 0
    else 1 + FirstMention(tokens[1..], c)
  }

  lemma FirstMentionUnique(tokens: seq<string>, c: string, j: nat)
    requires j < |tokens| && DayCode(tokens[j]) == Some(c)
    requires forall k :: 0 <= k < j ==> DayCode(tokens[k]) != Some(c)
    ensures FirstMention(tokens, c) == j
  {
    var f := FirstMention(tokens, c);
    if f < j {
    } else if f > j {
    }
  }

  /** A token's code is in the result exactly when some token names it: the first
      mention of a listed code lies inside `tokens`, that of an unlisted one past it. */
  lemma MentionedIffListed(tokens: seq<string>, c: string)
    ensures c in NormalizeDays(tokens) <==> FirstMention(tokens, c) < |tokens|
  {
    var days := NormalizeDays(tokens);
    if c in days {
      var k :| 0 <= k < |days| && days[k] == c;
      var j :| 0 <= j < |tokens| && DayCode(tokens[j]) == Some(days[k]);
      assert FirstMention(tokens, c) <= j;
    }
  }

  lemma FirstMentionOfPrefix(tokens: seq<string>, n: nat, c: string)
    requires n <= |tokens| && FirstMention(tokens[..n], c) < n
    ensures FirstMention(tokens, c) == FirstMention(tokens[..n], c)
  {
    var init := tokens[..n];
    var f := FirstMention(init, c);
    assert init[f] == tokens[f];
    forall k | 0 <= k < f ensures DayCode(tokens[k]) != Some(c) {
      assert init[k] == tokens[k];
    }
    FirstMentionUnique(tokens, c, f);
  }

  lemma FirstMentionOfLast(tokens: seq<string>, c: string)
    requires tokens != [] && DayCode(tokens[|tokens| - 1]) == Some(c)
    requires c !in NormalizeDays(tokens[..|tokens| - 1])
    ensures FirstMention(tokens, c) == |tokens| - 1
  {
    var n := |tokens| - 1;
    var init := tokens[..n];
    MentionedIffListed(init, c);
    forall j | 0 <= j < n ensures DayCode(tokens[j]) != Some(c) {
      assert init[j] == tokens[j];
    }
    FirstMentionUnique(tokens, c, n);
  }

  /** Codes come out in the order their first naming tokens come in. */
  lemma {:induction false} DaysInFirstMentionOrder(tokens: seq<string>)
    ensures var days := NormalizeDays(tokens);
            forall i, k :: 0 <= i < k < |days| ==> FirstMention(tokens, days[i]) < FirstMention(tokens, days[k])
    decreases |tokens|
  {
    if tokens != [] {
      var n := |tokens| - 1;
      var init := tokens[..n];
      DaysInFirstMentionOrder(init);
      var before := NormalizeDays(init);
      var days := NormalizeDays(tokens);
      forall c | c in before
        ensures FirstMention(tokens, c) == FirstMention(init, c) < n
      {
        MentionedIffListed(init, c);
        FirstMentionOfPrefix(tokens, n, c);
      }
      if days != before {
        var c := DayCode(tokens[n]).value;
        FirstMentionOfLast(tokens, c);
        assert days == before + [c];
      }
    }
  }

  lemma SubsetCardinality(a: set<string>, b: set<string>)
    requires a <= b
    ensures |a| <= |b|
  {
    if a != {} {
      var x :| x in a;
      SubsetCardinality(a - {x}, b - {x});
    }
  }

  lemma {:induction false} DistinctLength(s: seq<string>)
    requires NoDuplicates(s)
    ensures |set k | 0 <= k < |s| :: s[k]| == |s|
    decreases |s|
  {
    if s != [] {
      var init := s[..|s| - 1];
      DistinctLength(init);
      var a := set k | 0 <= k < |init| :: init[k];
      var b := set k | 0 <= k < |s| :: s[k];
      assert b == a + {s[|s| - 1]};
      assert s[|s| - 1] !in a;
    }
  }

  /** At most seven codes: one per weekday. */
  lemma AtMostSevenDays(tokens: seq<string>)
    ensures |NormalizeDays(tokens)| <= 7
  {
    var days := NormalizeDays(tokens);
    DistinctLength(days);
    var elems := set k | 0 <= k < |days| :: days[k];
    assert elems <= DayCodes;
    DayCodesCount();
    SubsetCardinality(elems, DayCodes);
  }

  // ============================================================ parseDays as written

  /** The names every object literal inherits from `Object.prototype`. */
  const InheritedNames: set<string> := {
    "constructor", "hasOwnProperty", "isPrototypeOf", "propertyIsEnumerable",
    "toLocaleString", "toString", "valueOf", "__proto__",
    "__defineGetter__", "__defineSetter__", "__lookupGetter__", "__lookupSetter__"
  }

  /** A truthy value of `dayMap[dayName]`: one of the table's own codes, or the inherited
      member of that name (a function, or `Object.prototype` itself for `__proto__`).
      Distinct inherited names give distinct values. */
  datatype DayValue = Code(code: string) | Inherited(name: string)

  /** `dayMap[dayName]` as the lookup is written: an own key gives its code, an inherited
      name gives that member, anything else is `undefined`. */
  function DayLookupAsWritten(name: string): (v: Option<DayValue>)
    ensures v.Some? <==> DayCode(name).Some? || name in InheritedNames
    ensures DayCode(name).Some? ==> v == Some(Code(DayCode(name).value))
    ensures name in InheritedNames ==> v == Some(Inherited(name))
  {
    match DayCode(name)
    case Some(c) => Some(Code(c))
    case None => if name in InheritedNames then Some(Inherited(name)) else None
  }

  /** The values the loop of `parseDays` pushes when the lookup is the plain index: every
      truthy lookup result, in order of first mention, each once. */
  function NormalizeDaysAsWritten(tokens: seq<string>): (days: seq<DayValue>)
    ensures NoDuplicates(days)
    ensures forall k :: 0 <= k < |days| ==> exists j :: 0 <= j < |tokens| && DayLookupAsWritten(tokens[j]) == Some(days[k])
    ensures forall j :: 0 <= j < |tokens| && DayLookupAsWritten(tokens[j]).Some? ==> DayLookupAsWritten(tokens[j]).value in days
    decreases |tokens|
  {
    if tokens == [] then []
    else
      var init := tokens[..|tokens| - 1];
      var days := NormalizeDaysAsWritten(init);
      assert forall j :: 0 <= j < |init| ==> init[j] == tokens[j];
      match DayLookupAsWritten(tokens[|tokens| - 1])
      case None => days
      case Some(c) => if c in days then days else days + [c]
  }

  /** What `parseDays(daysStr)` returns as written. */
  function DaysOfAsWritten(daysStr: string): (days: seq<DayValue>)
    ensures NoDuplicates(days)
  {
    NormalizeDaysAsWritten(Tokens(daysStr))
  }

  /** The codes of `days`, each wrapped as a lookup value. */
  function AsCodes(days: seq<string>): (vs: seq<DayValue>)
    ensures |vs| == |days| && forall k :: 0 <= k < |days| ==> vs[k] == Code(days[k])
  {
    seq(|days|, k requires 0 <= k < |days| => Code(days[k]))
  }

  /** With no inherited name among the tokens the lookup as written and the own-key
      lookup push the same codes. */
  lemma {:induction false} AsWrittenAgreesOnOwnKeys(tokens: seq<string>)
    requires forall j :: 0 <= j < |tokens| ==> tokens[j] !in InheritedNames
    ensures NormalizeDaysAsWritten(tokens) == AsCodes(NormalizeDays(tokens))
    decreases |tokens|
  {
    if tokens != [] {
      var init := tokens[..|tokens| - 1];
      AsWrittenAgreesOnOwnKeys(init);
      var days := NormalizeDays(init);
      var last := tokens[|tokens| - 1];
      if DayCode(last).Some? {
        var c := DayCode(last).value;
        assert Code(c) in AsCodes(days) <==> c in days;
        if c !in days {
          assert AsCodes(days + [c]) == AsCodes(days) + [Code(c)];
        }
      }
    }
  }

  lemma AsWrittenOfPair(a: string, b: string)
    requires DayLookupAsWritten(a).Some? && DayLookupAsWritten(b).Some?
    requires DayLookupAsWritten(a) != DayLookupAsWritten(b)
    ensures NormalizeDaysAsWritten([a, b]) == [DayLookupAsWritten(a).value, DayLookupAsWritten(b).value]
  {
    var va, vb := DayLookupAsWritten(a).value, DayLookupAsWritten(b).value;
    assert [a][..0] == [];
    assert NormalizeDaysAsWritten([a]) == [] + [va];
    assert [a, b][..1] == [a];
    assert vb !in [va];
    assert NormalizeDaysAsWritten([a, b]) == [va] + [vb];
  }

  lemma OwnKeysOfPair(a: string, b: string)
    requires DayCode(a).Some? && DayCode(b).None?
    ensures NormalizeDays([a, b]) == [DayCode(a).value]
  {
    assert [a][..0] == [];
    assert NormalizeDays([a]) == [] + [DayCode(a).value];
    assert [a, b][..1] == [a];
  }

  lemma TwoWordTokens(a: string, b: string)
    requires IsWord(a) && IsWord(b)
    ensures Tokens(a + " " + b) == [a, b]
  {
    assert a + " " + b == a + [' '] + b;
    TokensOfWord(a, ' ', b);
    TokensOfLastWord(b);
  }

  lemma ConstructorWords()
    ensures IsWord("Mon") && IsWord("constructor")
    ensures DayCode("Mon") == Some("MO") && DayCode("constructor").None? && "constructor" in InheritedNames
    ensures DayLookupAsWritten("Mon") == Some(Code("MO"))
    ensures DayLookupAsWritten("constructor") == Some(Inherited("constructor"))
  {
    var ctor := "constructor";
    forall j | 0 <= j < |ctor| ensures !IsDaySeparator(ctor[j]) {
      assert ctor[j] in "constructor";
    }
  }

  /** An inherited name in the day text comes back as a day: `Mon constructor` gives the
      Monday code and the inherited `constructor`, where the own-key lookup gives only the
      Monday code. */
  lemma InheritedNameBecomesDay(s: string)
    requires s == "Mon constructor"
    ensures DaysOfAsWritten(s) == [Code("MO"), Inherited("constructor")]
    ensures DaysOf(s) == ["MO"]
  {
    var mon, ctor := "Mon", "constructor";
    ConstructorWords();
    assert s == mon + " " + ctor;
    TwoWordTokens(mon, ctor);
    AsWrittenOfPair(mon, ctor);
    OwnKeysOfPair(mon, ctor);
  }
}
