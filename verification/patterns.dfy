/** Hand-written matchers, one per regular expression literal that the scraper applies
    (src/contentScript.ts). Each `…At(s, i)` function says whether the pattern matches
    starting at index `i` and what its capture groups hold; `Search` turns it into
    `String.prototype.match`, which reports the match at the leftmost index.

    The greedy quantifiers in these patterns are always followed by a character that the
    quantified class excludes (digits then ':', letters then a digit, white space then a
    letter), so giving characters back never opens a new way to match: each matcher is
    deterministic at a given start index. The one lazy group, in the legend-box pattern,
    is tried shortest first, as the regular-expression engine does. */
module Patterns {
  import opened Types
  import opened JsText

  /** The leftmost index at or after `i` where `at` matches, with what it matched. */
  function Search<T>(s: string, i: nat, at: (string, nat) -> Option<T>): (r: Option<(nat, T)>)
    requires i <= |s|
    ensures r.Some? ==> i <= r.value.0 <= |s| && at(s, r.value.0) == Some(r.value.1)
    ensures r.Some? ==> forall k :: i <= k < r.value.0 ==> at(s, k).None?
    ensures r.None? ==> forall k :: i <= k <= |s| ==> at(s, k).None?
    decreases |s| - i
  {
    match at(s, i)
    case Some(v) => Some((i, v))
    case None => if i == |s| then None else Search(s, i + 1, at)
  }

  /** `String.prototype.match` without the `g` flag: the leftmost match of `at` in `s`. */
  function Match<T>(s: string, at: (string, nat) -> Option<T>): (r: Option<T>)
    ensures r.Some? <==> exists k :: 0 <= k <= |s| && at(s, k).Some?
  {
    match Search(s, 0, at)
    case Some((_, v)) => Some(v)
    case None => None
  }

  // ------------------------------------------------------------ clock times

  /** `h:mm` or `hh:mm` with ASCII digits, the text `\d{1,2}:\d{2}` matches. */
  predicate IsClockText(t: string) {
    || (|t| == 4 && IsDigit(t[0]) && t[1] == ':' && IsDigit(t[2]) && IsDigit(t[3]))
    || (|t| == 5 && IsDigit(t[0]) && IsDigit(t[1]) && t[2] == ':' && IsDigit(t[3]) && IsDigit(t[4]))
  }

  /** Where `\d{1,2}:\d{2}` ends when it matches at `i`. */
  function ClockEnd(s: string, i: nat): (e: Option<nat>)
    ensures e.Some? ==> i + 4 <= e.value <= |s| && IsClockText(s[i..e.value])
  {
    if i + 1 < |s| && IsDigit(s[i]) && IsDigit(s[i + 1]) then
      if i + 4 < |s| && s[i + 2] == ':' && IsDigit(s[i + 3]) && IsDigit(s[i + 4]) then Some(i + 5) else None
    else if i + 3 < |s| && IsDigit(s[i]) && s[i + 1] == ':' && IsDigit(s[i + 2]) && IsDigit(s[i + 3]) then Some(i + 4)
    else None
  }

  /** A clock text matches `\d{1,2}:\d{2}` exactly, and ends where it ends. */
  lemma ClockEndOfClockText(t: string, rest: string)
    requires IsClockText(t)
    requires rest == [] || !IsDigit(rest[0])
    ensures ClockEnd(t + rest, 0) == Some(|t|)
  {
    var s := t + rest;
    if |t| == 4 { assert s[1] == ':'; } else { assert s[4] == t[4]; }
  }

  predicate IsMarker(m: string) {
    EqualsIgnoreCase(m, "AM") || EqualsIgnoreCase(m, "PM")
  }

  /** `(?:AM|PM)` under the `i` flag, at index `i`. */
  predicate MarkerAt(s: string, i: nat) {
    i + 2 <= |s| && IsMarker(s[i..i + 2])
  }

  /** The captures of `(\d{1,2}:\d{2})\s*(?:AM|PM)?\s*-\s*(\d{1,2}:\d{2})\s*(AM|PM)?` (flag `i`). */
  datatype DashRange = DashRange(start: string, end: string, marker: Option<string>)

  function DashRangeAt(s: string, i: nat): (r: Option<DashRange>)
    ensures r.Some? ==> IsClockText(r.value.start) && IsClockText(r.value.end)
    ensures r.Some? && r.value.marker.Some? ==> IsMarker(r.value.marker.value)
  {
    match ClockEnd(s, i)
    case None => None
    case Some(p) =>
      match DashAfter(s, p)
      case None => None
      case Some(r) =>
        match ClockEnd(s, r)
        case None => None
        case Some(e) => Some(DashRange(s[i..p], s[r..e], TrailingMarker(s, e)))
  }

  /** The index just past `\s*`. */
  function SkipWs(s: string, i: nat): (j: nat)
    ensures i <= j
  {
    i + WsRun(s, i)
  }

  /** After the first time of a range: `\s*(?:AM|PM)?\s*-\s*`, and where the second time
      starts. */
  function DashAfter(s: string, p: nat): (r: Option<nat>)
  {
    var q := SkipWs(s, p);
    var q2 := if MarkerAt(s, q) then SkipWs(s, q + 2) else q;
    if q2 < |s| && s[q2] == '-' then Some(SkipWs(s, q2 + 1)) else None
  }

  /** The optional `\s*(AM|PM)?` capture after the second time of a range. */
  function TrailingMarker(s: string, e: nat): (m: Option<string>)
    ensures m.Some? ==> IsMarker(m.value)
  {
    var m := SkipWs(s, e);
    if MarkerAt(s, m) then Some(s[m..m + 2]) else None
  }

  /** Where `\d{1,2}:\d{2}\s*(?:AM|PM)` (flag `i`) ends when it matches at `i`. */
  function MarkedClockEnd(s: string, i: nat): (e: Option<nat>)
    ensures e.Some? ==> i + 6 <= e.value <= |s|
  {
    match ClockEnd(s, i)
    case None => None
    case Some(p) =>
      var q := p + WsRun(s, p);
      if MarkerAt(s, q) then Some(q + 2) else None
  }

  /** The captures of `(\d{1,2}:\d{2}\s*(?:AM|PM))\s*to\s*(\d{1,2}:\d{2}\s*(?:AM|PM))` (flag `i`). */
  function ToRangeAt(s: string, i: nat): (r: Option<(string, string)>)
  {
    match MarkedClockEnd(s, i)
    case None => None
    case Some(a) =>
      var t := a + WsRun(s, a);
      if t + 2 <= |s| && EqualsIgnoreCase(s[t..t + 2], "TO") then
        var u := t + 2 + WsRun(s, t + 2);
        match MarkedClockEnd(s, u)
        case None => None
        case Some(b) => Some((s[i..a], s[u..b]))
      else None
  }

  /** The captures of the legend-box pattern
      `(.*?)\s*:\s*(\d{1,2}:\d{2}\s*(?:AM|PM))\s*to\s*(\d{1,2}:\d{2}\s*(?:AM|PM))` (flag `i`)
      for a match that starts at `i`: the lazy first group is `s[i..e]` for the smallest
      `e` that lets the rest match, and `.` never crosses a line terminator. */
  datatype ScheduleText = ScheduleText(days: string, start: string, end: string)

  function ScheduleAt(s: string, i: nat): (r: Option<ScheduleText>)
  {
    if i <= |s| then LazyScheduleFrom(s, i, i) else None
  }

  function LazyScheduleFrom(s: string, i: nat, e: nat): (r: Option<ScheduleText>)
    requires i <= e <= |s|
    ensures r.Some? ==> exists e' :: e <= e' <= |s| && r.value.days == s[i..e']
    decreases |s| - e
  {
    var p := e + WsRun(s, e);
    if p < |s| && s[p] == ':' && ToRangeAt(s, p + 1 + WsRun(s, p + 1)).Some? then
      var t := ToRangeAt(s, p + 1 + WsRun(s, p + 1)).value;
      Some(ScheduleText(s[i..e], t.0, t.1))
    else if e < |s| && !IsLineTerminator(s[e]) then LazyScheduleFrom(s, i, e + 1)
    else None
  }

  // ------------------------------------------------------------ course codes

  predicate IsCourseSeparator(c: char) { c == '-' || IsWhitespace(c) }

  /** Where `[A-Z]{2,4}[-\s]?\d{2,4}` ends when it matches at `i`. */
  function CourseIdEnd(s: string, i: nat): (e: Option<nat>)
    ensures e.Some? ==> i + 4 <= e.value <= |s| && IsUpper(s[i])
  {
    var l := UpperRun(s, i);
    if 2 <= l <= 4 then
      var p := i + l;
      var q := if p < |s| && IsCourseSeparator(s[p]) then p + 1 else p;
      var d := DigitRun(s, q);
      if d >= 2 then Some(q + (if d < 4 then d else 4)) else None
    else None
  }

  /** The text `[A-Z]{2,4}[-\s]?\d{2,4}` captures at `i`. */
  function CourseIdAt(s: string, i: nat): (r: Option<string>)
    ensures r.Some? ==> r.value != [] && IsUpper(r.value[0])
  {
    match CourseIdEnd(s, i)
    case None => None
    case Some(e) => Some(s[i..e])
  }

  /** The captures of `([A-Z]{2,4})\s+(\d{3})` at `i`, and where the match ends. */
  datatype SubjectNumber = SubjectNumber(subject: string, number: string, end: nat)

  function SubjectNumberAt(s: string, i: nat): (r: Option<SubjectNumber>)
    ensures r.Some? ==> 2 <= |r.value.subject| <= 4 && |r.value.number| == 3 && r.value.end <= |s|
    ensures r.Some? ==> (forall k :: 0 <= k < |r.value.subject| ==> IsUpper(r.value.subject[k])) && AllDigits(r.value.number)
  {
    var l := UpperRun(s, i);
    if 2 <= l <= 4 then
      var w := WsRun(s, i + l);
      var q := i + l + w;
      if w >= 1 && DigitRun(s, q) >= 3 then Some(SubjectNumber(s[i..i + l], s[q..q + 3], q + 3)) else None
    else None
  }

  /** `/^[A-Z]{2,4}\s+\d{3}/.test(t)`. */
  predicate StartsWithCourseCode(t: string) {
    SubjectNumberAt(t, 0).Some?
  }

  predicate InTitleClass(c: char) { c != '\U{2022}' && c != '\n' }

  /** Length of the run of characters of `[^•\n]` that starts at `i`. */
  function TitleRun(s: string, i: nat): (n: nat)
    ensures i + n <= |s| || n == 0
    ensures forall k :: i <= k < i + n ==> InTitleClass(s[k])
    decreases |s| - i
  {
    if i < |s| && InTitleClass(s[i]) then 1 + TitleRun(s, i + 1) else 0
  }

  /** `\s+([^•\n]+)` after a course code ending at `r`, with `w` white-space characters
      still available to the greedy `\s+`: gives characters back until the group can start. */
  function TitleGroupFrom(s: string, r: nat, w: nat): (g: Option<string>)
    ensures g.Some? ==> g.value != [] && forall k :: 0 <= k < |g.value| ==> InTitleClass(g.value[k])
    decreases w
  {
    if w == 0 then None
    else if r + w < |s| && InTitleClass(s[r + w]) then Some(s[r + w..r + w + TitleRun(s, r + w)])
    else TitleGroupFrom(s, r, w - 1)
  }

  /** The capture of `[A-Z]{2,4}\s+\d{3}\s+([^•\n]+)` at `i`. */
  function TitleAt(s: string, i: nat): (g: Option<string>)
    ensures g.Some? ==> SubjectNumberAt(s, i).Some?
    ensures g.Some? ==> g.value != [] && forall k :: 0 <= k < |g.value| ==> g.value[k] != '\U{2022}' && g.value[k] != '\n'
  {
    match SubjectNumberAt(s, i)
    case None => None
    case Some(c) => TitleGroupFrom(s, c.end, WsRun(s, c.end))
  }

  /** The captures of `([A-Z]{2,4})-(\d{3})` at `i`. */
  function DashCodeAt(s: string, i: nat): (r: Option<(string, string)>)
    ensures r.Some? ==> 2 <= |r.value.0| <= 4 && |r.value.1| == 3 && AllDigits(r.value.1)
  {
    var l := UpperRun(s, i);
    if 2 <= l <= 4 && i + l < |s| && s[i + l] == '-' && DigitRun(s, i + l + 1) >= 3 then
      Some((s[i..i + l], s[i + l + 1..i + l + 4]))
    else None
  }

  // ------------------------------------------------------------ day names

  /** `Mon|Tue|Wed|Thu|Fri|Sat|Sun` under flag `i`: the three letters, upper-cased,
      spell one of the seven names. */
  predicate IsDayAbbreviation(t: string) {
    |t| == 3 && [UpperAscii(t[0]), UpperAscii(t[1]), UpperAscii(t[2])] in DayAbbreviations
  }

  const DayAbbreviations: set<string> := {"MON", "TUE", "WED", "THU", "FRI", "SAT", "SUN"}

  predicate DayAbbreviationAt(s: string, i: nat) {
    i + 3 <= |s| && IsDayAbbreviation(s[i..i + 3])
  }

  /** The whole text `(Mon|Tue|Wed|Thu|Fri|Sat|Sun)(?:,\s*(Mon|Tue|Wed|Thu|Fri|Sat|Sun))?`
      (flag `i`) matches at `i`. */
  function DayListAt(s: string, i: nat): (r: Option<string>)
    ensures r.Some? <==> DayAbbreviationAt(s, i)
    ensures r.Some? ==> && 3 <= |r.value| && i + |r.value| <= |s| && r.value == s[i..i + |r.value|]
                        && (|r.value| == 3 || (s[i + 3] == ',' && DayAbbreviationAt(s, i + |r.value| - 3)))
  {
    if DayAbbreviationAt(s, i) then
      var last := LastDayAt(s, i);
      var list := s[i..last + 3];
      DayAbbreviationAtSame(s, i + |list| - 3, last);
      Some(list)
    else None
  }

  /** Where the last abbreviation of the day list that starts at `i` begins: the
      second one when `,\s*` and one follow, otherwise the first. */
  function LastDayAt(s: string, i: nat): (last: nat)
    requires DayAbbreviationAt(s, i)
    ensures DayAbbreviationAt(s, last)
    ensures last == i || (i + 3 < last && s[i + 3] == ',')
  {
    match SecondDayAt(s, i + 3)
    case Some(k) => k
    case None => i
  }

  lemma DayAbbreviationAtSame(s: string, x: nat, k: nat)
    requires x == k && DayAbbreviationAt(s, k)
    ensures DayAbbreviationAt(s, x)
  {
  }

  /** `,\s*(Mon|…|Sun)` at `j`: where the second abbreviation starts. */
  function SecondDayAt(s: string, j: nat): (k: Option<nat>)
    ensures k.Some? ==> j < |s| && s[j] == ',' && j < k.value && DayAbbreviationAt(s, k.value)
  {
    var k := j + 1 + WsRun(s, j + 1);
    if j < |s| && s[j] == ',' && DayAbbreviationAt(s, k) then Some(k) else None
  }

  // ------------------------------------------------------------ terms and seasons

  /** How many characters of `Fall|Spring|Summer|Winter` (flag `i`) match at `i`. */
  function SeasonAt(s: string, i: nat): (n: Option<nat>)
    ensures n.Some? ==> i + n.value <= |s| && IsSeasonWord(s[i..i + n.value])
  {
    if i + 4 <= |s| && EqualsIgnoreCase(s[i..i + 4], "Fall") then Some(4)
    else if i + 6 <= |s| && EqualsIgnoreCase(s[i..i + 6], "Spring") then Some(6)
    else if i + 6 <= |s| && EqualsIgnoreCase(s[i..i + 6], "Summer") then Some(6)
    else if i + 6 <= |s| && EqualsIgnoreCase(s[i..i + 6], "Winter") then Some(6)
    else None
  }

  /** `Fall`, `Spring`, `Summer` or `Winter` in any case. */
  predicate IsSeasonWord(w: string) {
    EqualsIgnoreCase(w, "Fall") || EqualsIgnoreCase(w, "Spring") || EqualsIgnoreCase(w, "Summer") || EqualsIgnoreCase(w, "Winter")
  }

  /** The captures (year, season) of `(\d{4})\s+(Fall|Spring|Summer|Winter)` (flag `i`). */
  function YearSeasonAt(s: string, i: nat): (r: Option<(string, string)>)
    ensures r.Some? ==> |r.value.0| == 4 && AllDigits(r.value.0) && IsSeasonWord(r.value.1)
  {
    if DigitRun(s, i) >= 4 then
      var w := WsRun(s, i + 4);
      match SeasonAt(s, i + 4 + w)
      case Some(n) => if w >= 1 then Some((s[i..i + 4], s[i + 4 + w..i + 4 + w + n])) else None
      case None => None
    else None
  }

  /** The captures (season, year) of `(Fall|Spring|Summer|Winter)\s*(\d{4})` (flag `i`). */
  function SeasonYearAt(s: string, i: nat): (r: Option<(string, string)>)
    ensures r.Some? ==> IsSeasonWord(r.value.0) && |r.value.1| == 4 && AllDigits(r.value.1)
  {
    match SeasonAt(s, i)
    case None => None
    case Some(n) =>
      var q := i + n + WsRun(s, i + n);
      if DigitRun(s, q) >= 4 then Some((s[i..i + n], s[q..q + 4])) else None
  }

  /** The last two captures of `(\d{2})(\d{2})(\d{2})`: the year digits and the term code. */
  function TermCodeAt(s: string, i: nat): (r: Option<(string, string)>)
    ensures r.Some? ==> |r.value.0| == 2 && |r.value.1| == 2 && AllDigits(r.value.0) && AllDigits(r.value.1)
  {
    if DigitRun(s, i) >= 6 then Some((s[i + 2..i + 4], s[i + 4..i + 6])) else None
  }
}
