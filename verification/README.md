# CUNY schedule export — a verified model

The browser extension reads a student's class schedule from the CUNYfirst Student
Center or from Schedule Builder. It then writes that schedule out as an iCalendar
file, with one weekly recurring event per class meeting.

This project models the two halves of that pipeline in Dafny:

- **Extractor.** This is `CUNYScheduleScraper` in `src/contentScript.ts`.
  - It picks a page strategy from the address.
  - On Schedule Builder it runs a chain of fallback tiers: the legend box, then the
    `course_<i>_0` query parameters, then course blocks, then free text.
  - On Student Center it parses table rows.
  - It normalises times to `HH:MM` and days to the two-letter codes `MO`…`SU`.
  - It detects the semester label, and derives default semester dates from the
    current month.
- **Serializer.** This is the pure half of `CUNYCalendarExporter` in
  `src/background.ts`.
  - It parses `YYYY-MM-DD` dates into local `Date`s.
  - It builds one event record per meeting: start and end tuples, `BYDAY`, the
    `UNTIL` stamp, the UID and the optional display alarm.
  - It reads the reminder setting with its default, picks the file name, and
    produces the error messages of the export.
- **Shared records.** These come from `src/types.ts`: `CourseMeeting`,
  `ScheduleData`, `ExportSettings` and `DAY_MAP`.

## Modules

- `JsText` models the JavaScript string and number built-ins the code relies on:
  `trim`, the `\s` class, `replace(/\s+/g, '-')`, `split`, `join`, `includes`,
  `padStart`, `Number`, `parseInt` and number-to-string.
- `Types` holds the records, the set of day codes and `DAY_MAP`.
- `Patterns` gives each regular-expression literal of the scraper a deterministic
  matcher.
  - `Search` and `Match` give leftmost-match semantics.
  - Each pattern's backtracking was resolved by hand. Most greedy runs are followed
    by a class that excludes what they consumed, so they never give characters back.
  - The title group `\s+([^•\n]+)` is the exception: `[^•\n]` also takes white
    space, so `Patterns.TitleGroupFrom` gives characters back explicitly.
  - The lazy days group `(.*?)` is searched for its shortest completion by
    `Patterns.LazyScheduleFrom`.
- `Normalize` holds `parseTime` and `parseDays`.
- `Semester` holds `detectSemester` and the semester start and end dates.
- `Parsers` holds the row, box, block and URL parsers and `buildCourseMeeting`.
- `Scraper` holds the tier chain, the address dispatch and `scrapeSchedule`.
- `Calendar` holds the proleptic Gregorian day arithmetic behind `Date`.
- `JsDates` models the local `Date` operations that are used and `formatDateForUntil`.
- `Serializer` models `background.ts`.

How the model stands in for JavaScript:

- A JavaScript number is `Num = Int(v) | NaN`.
- A `Date` is `Valid(wall)` or `Invalid`, where `wall` is local wall-clock time in
  milliseconds.
- The host time zone is an arbitrary function `Zone` from wall-clock time to
  `getTimezoneOffset` minutes.
- The host's own `new Date(string)` parser is a parameter of `Host`.
- The current date is a `Today(year, month)` value.

Where the code and its own comments, tests and `DAY_MAP` disagree, the model
follows the code:

- **`parseDays` ignores `DAY_MAP`.**
  - It recognises only `Mon`…`Sun` and the full day names. The exact-case lookup
    rejects `MO`, `Mo`, `MoWe` and `mon`.
  - As a result, a Student Center row such as `MoWe 2:00PM - 3:15PM` yields no
    meeting (`Parsers.StudentCenterGluedDays`). The test fixture's rows use this
    form (src/__tests__/fixtures/mockScheduleHTML.ts:9 and :16).
- **`buildCourseMeeting` applies the trailing AM/PM to both times.**
  - It keeps only the marker that follows the second time.
  - So `11:00AM - 12:15PM` becomes `23:00`–`12:15`
    (`Parsers.LateMorningClassStartsAtNight`).
  - Nothing checks that the start is before the end.
- **In January the default dates point seven months ahead.**
  - `getCurrentSemesterStart` and `getCurrentSemesterEnd` put January in the fall
    band of the current year (src/contentScript.ts:602 and :616).
  - So in January of year Y the dates are Y-08-28 to Y-12-15, not the fall term
    that is ending nor the spring term about to start (`Semester.SemesterDates`).
- **The URL scan stops at the first absent or empty `course_<i>_0` value**, because
  the loop tests the value's truthiness. Values that do not match `SUBJ-NNN` are
  skipped, but the scan goes on past them.
- **`formatDateForUntil` does not convert to UTC.**
  - It subtracts the zone offset from the time value before it reads the UTC
    fields, so it prints the local wall clock labelled `Z`.
  - The stamp therefore does not depend on the host zone
    (`JsDates.UntilZoneIndependent`), but it is not the UTC instant.
- **`createEventFromMeeting` never reaches its `catch` for a well-typed meeting.**
  - Malformed dates produce an Invalid `Date`, and `NaN` fields print as `NaN`.
    Neither throws.
  - So every meeting contributes an event, and "No valid events could be created"
    cannot occur once the meeting list is non-empty.

## Model

| member | source | states |
|---|---|---|
| JsText.Trim | src/contentScript.ts:486 | the result occurs inside the input and neither begins nor ends with ECMAScript white space |
| JsText.TrimIdempotent | src/contentScript.ts:486 | trimming twice equals trimming once |
| JsText.RemoveWhitespace | src/contentScript.ts:498 | the result holds no white space, is no longer than the input and leaves a space-free input alone |
| JsText.HyphenateWhitespace | src/contentScript.ts:258 | the result holds no white space, is non-empty for non-empty input and leaves a space-free input alone |
| JsText.HyphenateIdempotent | src/background.ts:99 | replacing white-space runs by `-` a second time changes nothing |
| JsText.HyphenateJoinsWords | src/background.ts:99 | two words around any white-space run are joined by exactly one `-` |
| JsText.Includes | src/contentScript.ts:20-22 | true exactly when the needle occurs at some index |
| JsText.Split | src/contentScript.ts:499 | at least one piece, and no piece holds the separator |
| JsText.SplitNoSeparator | src/contentScript.ts:499 | a string without the separator splits into itself alone |
| JsText.SplitAfterPiece | src/contentScript.ts:499 | splitting `x + sep + rest` yields `x` followed by the pieces of `rest` |
| JsText.SplitJoin | src/background.ts:127 | joining separator-free pieces and splitting again gives back the pieces |
| JsText.NatToString | src/contentScript.ts:519 | decimal digits, one digit exactly below 10, two exactly from 10 to 99 |
| JsText.NatToStringRoundTrip | src/contentScript.ts:519 | the digits read back as the number |
| JsText.NatToStringInjective | src/contentScript.ts:519 | different numbers print differently |
| JsText.NumToString | src/contentScript.ts:519 | a non-negative integer prints its decimal digits and NaN prints `NaN` |
| JsText.PadStart2 | src/contentScript.ts:519 | strings of length two or more are kept; shorter ones get leading `0`s up to length two |
| JsText.NumberOf | src/contentScript.ts:508-509 | `Number`: empty gives 0, all digits give their value, anything else gives NaN |
| JsText.ParseInt | src/background.ts:160 | a digit string gives its value and the empty string gives NaN |
| JsText.NumberOfNatToString | src/background.ts:108-109 | `Number` and `parseInt` read a printed number back |
| JsText.PaddedRoundTrip | src/contentScript.ts:519 | zero-padding a number keeps it all digits and `Number` reads it back |
| Types.DayCodesCount | src/types.ts:31-47 | there are exactly seven day codes |
| Types.DayMap | src/types.ts:31-47 | every mapped value is a day code and every key has one or two letters |
| Types.DayMapSingleLetters | src/types.ts:31-47 | single letters map to their days, `TH` and `SU` tell Thursday and Sunday apart from `T` and `S` |
| Types.DayMapTwoLetterForms | src/types.ts:31-47 | each capitalised two-letter form maps to its upper-case code |
| Types.DayMapKeys | src/types.ts:31-47 | exactly the fourteen listed keys are mapped |
| Types.DayMapOnCodes | src/types.ts:31-47 | of the codes themselves only `TH` and `SU` are keys |
| Patterns.Search | src/contentScript.ts:239 | the leftmost index where the matcher succeeds, with no success before it; none means none anywhere |
| Patterns.Match | src/contentScript.ts:239 | a match exists exactly when the matcher succeeds at some index |
| Patterns.ClockEnd | src/contentScript.ts:466 | a match covers `d:dd` or `dd:dd` |
| Patterns.DashRangeAt | src/contentScript.ts:466 | both captured times are clock texts and a captured marker is AM or PM in any case |
| Patterns.ClockEndOfClockText | src/contentScript.ts:466 | a clock text followed by a non-digit is matched whole |
| Patterns.TrailingMarker | src/contentScript.ts:466 | the optional third group is an AM/PM marker in any case |
| Patterns.MarkedClockEnd | src/contentScript.ts:239 | a marked time covers at least six characters |
| Patterns.LazyScheduleFrom | src/contentScript.ts:239 | the lazy days group is a slice of the input |
| Patterns.SubjectNumberAt | src/contentScript.ts:328 | two to four capital letters and three digits |
| Patterns.TitleAt | src/contentScript.ts:333 | a title is captured only after a course code, and is a non-empty run without `•` or line break |
| Patterns.DayListAt | src/contentScript.ts:342 | a match exactly where an abbreviation starts; the match is that slice, either one abbreviation or a comma and a second abbreviation |
| Patterns.YearSeasonAt | src/contentScript.ts:557 | the year group is four digits and the season group a season word |
| Patterns.SeasonYearAt | src/contentScript.ts:579 | the season group is a season word and the year group four digits |
| Patterns.CourseIdEnd | src/contentScript.ts:463 | a course id starts with an upper-case letter and spans at least four characters |
| Patterns.CourseIdAt | src/contentScript.ts:463 | a matched course id is non-empty and starts with an upper-case letter |
| Patterns.DashCodeAt | src/contentScript.ts:279 | subject of two to four letters and a three-digit number |
| Patterns.SeasonAt | src/contentScript.ts:557 | a season word, in any case, lies inside the input |
| Patterns.TermCodeAt | src/contentScript.ts:566 | the year and season groups are two digits each |
| Normalize.GluedMarkerAt | src/contentScript.ts:502 | digits followed by an AM/PM marker |
| Normalize.AdjustHour | src/contentScript.ts:511-516 | no marker leaves the hour unchanged and NaN stays NaN |
| Normalize.TwentyFourHour | src/contentScript.ts:511-516 | a 12-hour clock hour maps into 0..23 |
| Normalize.TwoDigits | src/contentScript.ts:519 | two digits that `Number` reads back as the value |
| Normalize.AdjustHourRule | src/contentScript.ts:511-516 | for every hour, including 0 and 13..99 that `\d{1,2}` lets through, the marker gives `MarkedHour`: the 12-to-24-hour conversion for 1..12, otherwise PM adds twelve and AM keeps the hour |
| Normalize.PaddedNum | src/contentScript.ts:519 | `padStart(2, '0')` of a number below 100 is its two-digit form |
| Normalize.ParseTimeSeparateMarker | src/contentScript.ts:497-520 | `ParseTime` of any clock text with a separate marker is the padded `MarkedHour` and the minutes; for hours 1..12 that is 24-hour `HH:MM` |
| Normalize.ParseTimeGluedMarker | src/contentScript.ts:497-520 | `ParseTime` with a marker glued to the minutes gives the same, whatever separate marker is passed |
| Normalize.ParseTimeNoMarker | src/contentScript.ts:497-520 | `ParseTime` with no marker anywhere is the hour and the minutes, each padded to two digits |
| Normalize.ParseTimeAfternoonThirteen | src/contentScript.ts:497-520 | `13:00PM` gives `25:00` |
| Normalize.ParseTimeMorningZero | src/contentScript.ts:497-520 | `0:30AM` gives `00:30` |
| Normalize.ParseTimeUnmarked | src/contentScript.ts:497-520 | `7:05` gives `07:05` |
| Normalize.ParseTimeExamples | src/contentScript.ts:497-520 | `2:00 PM`→`14:00`, `10:00 AM`→`10:00`, `12:00 PM`→`12:00`, `12:00 AM`→`00:00` |
| Normalize.DayCode | src/contentScript.ts:523-538 | the table's own keys yield only day codes |
| Normalize.DayCodeRejects | src/contentScript.ts:523-538 | `MO`, `TH`, `Mo`, `We`, `MoWe` and `mon` are not in the map, although `DAY_MAP` maps `Mo` |
| Normalize.Tokens | src/contentScript.ts:541 | the tokens are non-empty and hold no comma or white space |
| Normalize.TokensOfWord | src/contentScript.ts:541 | a word followed by a separator is the first token |
| Normalize.TokensOfLastWord | src/contentScript.ts:541 | a lone word is its only token |
| Normalize.NoDayFromUnknownTokens | src/contentScript.ts:543-548 | tokens outside the map give no days |
| Normalize.NormalizeDays | src/contentScript.ts:543-548 | distinct day codes, each the mapping of some token, and every mapped token's code is present |
| Normalize.DaysOf | src/contentScript.ts:522-551 | the result is distinct day codes |
| Normalize.ParseDays | src/contentScript.ts:522-551 | the loop computes the specification of `parseDays` |
| Normalize.FirstMention | src/contentScript.ts:543-548 | the first token index naming a day, or the token count |
| Normalize.FirstMentionUnique | src/contentScript.ts:543-548 | an index with no earlier mention is the first mention |
| Normalize.MentionedIffListed | src/contentScript.ts:545 | a day is listed exactly when some token names it |
| Normalize.DaysInFirstMentionOrder | src/contentScript.ts:543-548 | days appear in the order of their first mention |
| Normalize.AtMostSevenDays | src/contentScript.ts:545 | duplicates are dropped, so at most seven days |
| Normalize.DayLookupAsWritten | src/contentScript.ts:544 | `dayMap[dayName]` is defined exactly for an own key or an inherited `Object.prototype` name; an own key gives its code, an inherited name its member |
| Normalize.NormalizeDaysAsWritten | src/contentScript.ts:543-548 | the loop as written pushes every defined lookup value once, each the lookup of some token |
| Normalize.DaysOfAsWritten | src/contentScript.ts:522-551 | the as-written result has no duplicates |
| Normalize.AsWrittenAgreesOnOwnKeys | src/contentScript.ts:543-548 | with no inherited name among the tokens, the as-written loop pushes exactly the codes of `NormalizeDays` |
| Normalize.InheritedNameBecomesDay | src/contentScript.ts:544 | `Mon constructor` gives the Monday code and the inherited `constructor` as written, only `MO` corrected |
| Semester.Band | src/contentScript.ts:584-594 | Fall exactly for months 8..12 and 1, Spring exactly for 2..5 |
| Semester.SummerBand | src/contentScript.ts:584-594 | for real months, Summer exactly for 6 and 7 |
| Semester.TermName | src/contentScript.ts:570-574 | a season name of at least four letters |
| Semester.DateText | src/contentScript.ts:597-609 | the year followed by six characters `-MM-DD` |
| Semester.FallDates | src/contentScript.ts:597-626 | Fall runs from `Y-08-28` to `Y-12-15` |
| Semester.SpringDates | src/contentScript.ts:597-626 | Spring runs from `Y-01-28` to `Y-05-15` |
| Semester.SummerDates | src/contentScript.ts:597-626 | Summer runs from `Y-06-01` to `Y-08-15` |
| Semester.SemesterDates | src/contentScript.ts:597-626 | `SemesterStart` and `SemesterEnd` for each band of the current month |
| Semester.StartBeforeEnd | src/contentScript.ts:597-626 | each semester's start day precedes its end day within the year |
| Semester.FirstLabelSemester | src/contentScript.ts:554-561 | none exactly when no label matches; otherwise some label's reading |
| Semester.FirstLabelIsFirst | src/contentScript.ts:554-561 | the first matching label decides |
| Semester.TermParamSixDigits | src/contentScript.ts:563-576 | a six-digit term gives season code and `20YY` |
| Semester.TermParamNeedsSixDigits | src/contentScript.ts:563-576 | a term without six consecutive digits is ignored |
| Semester.LabelSemester | src/contentScript.ts:557-560 | a label names a semester exactly when `(\d{4})\s+(Season)` matches, and it reads `<Season> <YYYY>` |
| Semester.TermCodeSeason | src/contentScript.ts:570-573 | code `10` exactly gives spring, `20` exactly summer, every other code fall |
| Semester.TermParamSemester | src/contentScript.ts:563-576 | a term gives a semester exactly when it is non-empty and holds six digits; it reads `<Season> 20YY` |
| Semester.TermNameIsSeason | src/contentScript.ts:570-574 | each season name the term code gives is a season word |
| Semester.PageSemester | src/contentScript.ts:578-582 | the page names a semester exactly when `(Season)\s*(\d{4})` matches, and it reads `<Season> <YYYY>` |
| Semester.SemesterPriority | src/contentScript.ts:553-595 | `SemesterOf`: the first matching label beats the term parameter, which beats the page text, which beats `FallbackSemester` |
| Semester.SemesterIsSeasonYear | src/contentScript.ts:553-595 | for four-digit years, whatever source decides it, the semester reads `<Season> <YYYY>` |
| Semester.SemesterFallsBackToCalendar | src/contentScript.ts:584-594 | with nothing on the page the calendar decides |
| Semester.DetectSemester | src/contentScript.ts:553-595 | the loop computes the four-stage specification |
| Parsers.OrTba | src/contentScript.ts:415-416 | `x \|\| 'TBA'` is never empty and keeps a non-empty text |
| Parsers.SplitFirstNonEmpty | src/contentScript.ts:464 | a string not starting with the separator has a non-empty first piece |
| Parsers.TrimKeeps | src/contentScript.ts:486 | a string with a non-space character trims to something non-empty |
| Parsers.CourseIdOf | src/contentScript.ts:463-464 | a course text not starting with a space gives a non-empty id |
| Parsers.BuildCourseMeeting | src/contentScript.ts:454-483 | null exactly on empty course or time text, no time range, or no days; otherwise every field as built, both times read with the trailing marker |
| Parsers.DashRangeOfMarkedTimes | src/contentScript.ts:466 | `c1m1 - c2m2` matches at 0 with the second marker as group three |
| Parsers.DashRangeLayout | src/contentScript.ts:466 | the positions at which each part of that range is matched |
| Parsers.TrailingMarkerRulesBoth | src/contentScript.ts:466 | the leftmost match of such a text keeps only the closing marker |
| Parsers.StartTakesClosingMarker | src/contentScript.ts:480-481 | the start time is converted with the closing marker, not its own |
| Parsers.LateMorningClassStartsAtNight | src/contentScript.ts:480-481 | `11:00AM - 12:15PM` starts at `23:00` |
| Parsers.CellText | src/contentScript.ts:485-487 | cell text is trimmed |
| Parsers.ParseStudentCenterRow | src/contentScript.ts:408-427 | fewer than three cells, or an empty course or schedule cell, gives null; otherwise exactly `BuildCourseMeeting` of course and component, the third cell as time and days text, room and instructor or TBA; well formed |
| Parsers.StudentCenterGluedDays | src/contentScript.ts:408-427 | a `MoWe 2:00PM - 3:15PM` cell yields no days and so no meeting |
| Parsers.ElementOrTba | src/contentScript.ts:249-253 | never empty |
| Parsers.ParseCourseBox | src/contentScript.ts:225-268 | null exactly when title, schedule or days are missing; id hyphenated, title with span, instructor and location or TBA; days from the trimmed days group, times from the space-free time groups with no separate marker, semester dates; well formed |
| Parsers.ParseBlockText | src/contentScript.ts:325-358 | null exactly on no code, no time range or no days; id `SUBJ-NNN` of 6 to 8 characters, TBA fields, title the trimmed title group or else the id, times from the space-free range groups, semester dates; well formed |
| Parsers.ToRangeLayout | src/contentScript.ts:336 | `c1m1 to c2m2` matches at 0 with the two marked times as its groups |
| Parsers.ToRangeTimes | src/contentScript.ts:336-340 | each time of such a range is converted with its own glued marker to 24-hour `HH:MM` |
| Parsers.BlockTimesKeepTheirMarkers | src/contentScript.ts:336-340 | a block's start and end times keep their own markers, unlike the dash range |
| Parsers.CourseKey | src/contentScript.ts:276 | the key text has the index plus nine characters |
| Parsers.CourseKeyInjective | src/contentScript.ts:276 | different indices give different keys |
| Parsers.ScanMeasureDecreases | src/contentScript.ts:275-301 | each present key shrinks the set of unread keys |
| Parsers.Lookup | src/contentScript.ts:276 | `searchParams.get` finds a value exactly for present keys |
| Parsers.Placeholder | src/contentScript.ts:279-294 | a meeting exactly when `SUBJ-NNN` occurs; id is the whole value, title `SUBJ NNN`, fixed MO/WE 09:00–10:15 TBA |
| Parsers.MondayWednesday | src/contentScript.ts:291 | the fixed day list is distinct day codes |
| Parsers.UrlPlaceholdersFrom | src/contentScript.ts:275-301 | no more meetings than unread keys |
| Parsers.UrlPlaceholdersStep | src/contentScript.ts:275-301 | one scan step: the placeholder of key `i`, then the scan from `i + 1` |
| Parsers.UrlPlaceholdersShape | src/contentScript.ts:284-294 | every URL meeting has the placeholder shape |
| Parsers.ParseCoursesFromURL | src/contentScript.ts:270-304 | the loop computes the scan specification |
| Parsers.ScanStopsAtGap | src/contentScript.ts:276-300 | keys after the first absent or empty value never matter |
| Parsers.SkipsNonMatching | src/contentScript.ts:280 | a value without `SUBJ-NNN` adds nothing but the scan goes on |
| Scraper.Collected | src/contentScript.ts:165-174 | `forEach`/`push` keeps at most one meeting per item |
| Scraper.CollectedEmpty | src/contentScript.ts:165-174 | empty exactly when every item parses to null |
| Scraper.CollectedFrom | src/contentScript.ts:165-174 | every collected meeting is some item's parse |
| Scraper.CollectMeetings | src/contentScript.ts:165-174 | the loop computes the collection specification |
| Scraper.CollectedAppend | src/contentScript.ts:165-174 | collecting a concatenation is concatenating the collections |
| Scraper.CollectedWellFormed | src/contentScript.ts:165-174 | well-formed parses give well-formed collections |
| Scraper.LegendMeetings | src/contentScript.ts:202-223 | no legend box gives nothing; every legend meeting is well formed |
| Scraper.ParseFromLegendBox | src/contentScript.ts:202-223 | the method computes the legend specification |
| Scraper.FirstNonEmpty | src/contentScript.ts:138-196 | empty exactly when all tiers are empty, and otherwise one tier's list |
| Scraper.TierPriority | src/contentScript.ts:138-196 | a non-empty tier wins whatever later tiers would give |
| Scraper.ScrapeScheduleBuilder | src/contentScript.ts:134-200 | the method computes the tier chain `BuilderMeetings` over `BoxParser`, the URL scan, `BlockParser` and `TextElementParser` |
| Scraper.BuilderMeetingsWellFormed | src/contentScript.ts:134-200 | every meeting of `BuilderMeetings` is well formed |
| Scraper.TextTierNeedsLeadingCode | src/contentScript.ts:183 | texts not starting with a course code give nothing |
| Scraper.ScrapeStudentCenter | src/contentScript.ts:306-323 | the rows' collection, all well formed |
| Scraper.RouteOf | src/contentScript.ts:120-124 | Builder exactly on a builder host; Student Center exactly on the portal host otherwise |
| Scraper.ScheduleRouting | src/contentScript.ts:18-24 | every page `IsCUNYSchedulePage` accepts is routed, and builder routes are accepted |
| Scraper.MeetingsOf | src/contentScript.ts:117-124 | unknown addresses give nothing; Student Center gives at most one meeting per row |
| Scraper.ScrapeSchedule | src/contentScript.ts:117-132 | the method computes the page's schedule data `ScheduleOf` |
| Scraper.ScrapedMeetingsWellFormed | src/contentScript.ts:117-132 | every meeting of `ScheduleOf` has an id and distinct day codes |
| Calendar.CivilOf | src/background.ts:111-114 | a day number reads as a real calendar date |
| Calendar.CivilOfMakeDay | src/background.ts:160 | a valid year, month and day survive the `MakeDay`/`CivilOf` round trip |
| JsDates.FullYearOf | src/background.ts:160 | years 0..99 become 1900 + year, others are kept |
| JsDates.NewLocalDate | src/background.ts:160 | valid exactly when all three parts are numbers, at local midnight |
| JsDates.NewLocalDateFields | src/background.ts:160 | a valid date's `GetFullYear`, `GetMonth` and `GetDate` give back its year, month and day |
| JsDates.SetHours | src/background.ts:130 | validity kept; an in-day time keeps the day and sets the time of day |
| JsDates.Digits2 | src/background.ts:170-174 | two digits |
| JsDates.TimeDigits | src/background.ts:172-174 | six digits |
| JsDates.FormatDateForUntil | src/background.ts:166-177 | an invalid date prints NaN fields; a valid one prints its local date and time labelled `Z` |
| JsDates.UtcStamp | src/background.ts:168-176 | a NaN time value prints NaN fields |
| JsDates.UtcStampOfWall | src/background.ts:168-176 | the UTC fields of a time value print its day and time of day |
| JsDates.PadIsDigits2 | src/background.ts:170-174 | `padStart` of a number below 100 is its two digits |
| JsDates.UtcFieldsOfWall | src/background.ts:169-174 | the six `GetUtc*` getters agree with the day and time-of-day digits |
| JsDates.TimeOfDayFields | src/background.ts:172-174 | hour, minute and second getters agree with the time of day |
| JsDates.UntilOfEndOfDay | src/background.ts:129-131 | the end of day prints as `YYYYMMDDT235959Z` |
| JsDates.UntilShape | src/background.ts:166-177 | for four-digit years the stamp matches `\d{8}T\d{6}Z` |
| JsDates.UntilZoneIndependent | src/background.ts:168 | the stamp is the same in every time zone |
| Serializer.ParseDate | src/background.ts:157-164 | three parts give a date valid exactly when all parse; other shapes go to the host parser |
| Serializer.SplitDateText | src/background.ts:158 | a `YYYY-MM-DD` text splits into its three fields |
| Serializer.DigitsHaveNo | src/background.ts:158 | digits contain no `-` |
| Serializer.ParseDateText | src/background.ts:157-164 | a calendar date text gives a local date with that year, month and day |
| Serializer.TwoDigitsParse | src/background.ts:160 | `parseInt` reads a two-digit field back |
| Serializer.ParseDateExample | src/background.ts:157-164 | `2025-08-28` is 28 August 2025 |
| Serializer.SplitClockRoundTrip | src/background.ts:108-109 | `SplitClock` of `HH:MM` gives back hour and minute |
| Serializer.AlarmDescription | src/background.ts:145 | `Upcoming class — ` then the title, with a single em dash |
| Serializer.AlarmDescriptionAsWritten | src/background.ts:145 | the text as written, with three misread characters in place of the dash |
| Serializer.Alarms | src/background.ts:143-147 | an alarm exactly when the reminder is positive: one display alarm that many minutes before |
| Serializer.CreateEvent | src/background.ts:104-155 | start and end share the start date's day; times from the meeting's clocks; local input; UID, `title (courseId)`, `Instructor: …`, location and the weekly rule until the end date at 23:59:59.999; alarms per setting |
| Serializer.EventTuples | src/background.ts:111-125 | for well-formed dates and times the tuples are the numbers written |
| Serializer.EventStartDate | src/background.ts:111-114 | the start tuple is the start date's year, month and day |
| Serializer.SemesterEventDates | src/background.ts:104-155 | a meeting with default semester dates starts on the semester's first day and repeats until its last |
| Serializer.EventUntil | src/background.ts:129-142 | the rule's `UNTIL` is the end date at 23:59:59 |
| Serializer.DateDigitsOf | src/background.ts:169-171 | a day number prints its year, month and day |
| Serializer.EventExampleTimes | src/background.ts:104-155 | 2025-08-28 14:00–15:15 until `20251215T235959Z` |
| Serializer.SampleDates | src/background.ts:160 | the sample date texts |
| Serializer.SampleTimes | src/background.ts:108-109 | the sample clock texts and stamp |
| Serializer.ByDayRoundTrip | src/background.ts:127 | `BYDAY` splits back into the day codes |
| Serializer.RuleFields | src/background.ts:137-142 | `RecurrenceRule` splits at `;` into frequency, day list and end |
| Serializer.RecurrenceRuleFields | src/background.ts:127-142 | the rule's fields read back, and its day list past `BYDAY=` splits back into the meeting's days |
| Serializer.ConcatCodesInjective | src/background.ts:134 | the joined day codes determine the day list |
| Serializer.UidSeparatesSessions | src/background.ts:134 | for `HH:MM` start times and day codes, equal `Uid`s mean the same course id, start time and days: distinct sessions never share a UID |
| Serializer.EventUidSeparatesSessions | src/background.ts:134 | the same for the UIDs of the events `CreateEvent` builds, whatever the settings and host |
| Serializer.UidExamples | src/background.ts:134 | sample UIDs, pairwise different |
| Serializer.Utf8ThreeBytes | src/background.ts:145 | a three-byte UTF-8 encoding has the lead and continuation bit patterns |
| Serializer.MisreadDashIsMojibake | src/background.ts:145 | the written characters are the em dash's UTF-8 bytes read as Windows-1252 |
| Serializer.SettingsOf | src/background.ts:207-217 | a stored value is used; missing or failed reads give 10 |
| Serializer.DefaultReminder | src/background.ts:207-217 | the default gives a 10-minute alarm and a stored 0 gives none |
| Serializer.Filename | src/background.ts:99 | `Schedule-` + hyphenated semester + `.ics` |
| Serializer.FilenameOfTwoWords | src/background.ts:99 | two words make `Schedule-A-B.ics` |
| Serializer.FilenameExample | src/background.ts:99 | `Summer  2025` gives `Schedule-Summer-2025.ics` |
| Serializer.Events | src/background.ts:82-87 | one event per meeting |
| Serializer.EventsInOrder | src/background.ts:82-87 | event k is built from meeting k |
| Serializer.ExtensionEvents | src/background.ts:82-87 | event k is the exporter's event for meeting k |
| Serializer.ExportFailure | src/background.ts:75-102 | `ExportOutcome` fails exactly on no meetings or an encoder error or empty output, with the source's messages (`EncodeFailure`); otherwise downloads the encoder's text under the file name |
| Serializer.GenerateAndDownloadICS | src/background.ts:75-102 | the method computes the export outcome |

## Left out

- Page access is left out: DOM access, `querySelectorAll`, `:has`/`:contains`
  selectors and `textContent`. Each page source becomes a field of `Scraper.Page`:
  - the legend boxes with their optional elements;
  - the texts of the course blocks and of the text elements;
  - the cell texts of each table row;
  - the term labels, the body text and the query parameters.
- Messaging, the popup and the message handlers in both scripts are left out. They
  only forward data.
- The download itself (`Blob`, `chrome.downloads`, object URLs, `setTimeout`) is
  not modelled. `GenerateAndDownloadICS` returns what would be downloaded.
- `chrome.storage.sync.get` is I/O. Its outcome is the `StoredReminder` value
  (read failed, absent, stored). A stored `null` counts as absent, as `??` treats it.
- The `ics.createEvents` library is an abstract `encode` parameter. The model does
  not describe the iCalendar text it produces.
- `Serializer.Events`, `Serializer.ExportFailure` and
  `Serializer.GenerateAndDownloadICS` take the event builder as a parameter, so
  that the export logic does not re-prove per-meeting facts.
  `Serializer.ExtensionEvents` ties that parameter to `CreateEvent`.
- Logging (`console.*`) and the `try`/`catch` blocks around each tier and each
  element are left out. None of the modelled parsers throws.
- The `catch` in `createEventFromMeeting` and the "No valid events" error are not
  reachable for typed meetings, so `CreateEvent` is total.
- `JsText.NumberOf` does not model `Number`'s white-space, sign, decimal, exponent
  or hex forms. `JsText.ParseInt` does not model the `0x` prefix. The source passes
  only the outputs of its own regular expressions and of `padStart`.
- `new Date(string)` for inputs that are not `YYYY-MM-DD` is the host's own parser,
  a parameter of `Serializer.Host`.
- Time-value clipping (±8.64e15 ms) and skipped or repeated local hours at DST
  changes are left out. The zone offset is an arbitrary function of wall-clock time.
- The current date (`new Date()` in `detectSemester` and the semester-date helpers)
  is the `Today` parameter.
- `parseScheduleBuilderRow`, `parseGenericScheduleRow` and `findInRow` are never
  called, so they are not modelled.
- The `getExportSettings` of `contentScript.ts` duplicates the background one, so
  only the background copy is modelled.
- `isCUNYSchedulePage` is modelled as a predicate used by `Scraper.ScheduleRouting`.
- The third Schedule Builder tier's selector (src/contentScript.ts:162) puts the
  non-standard `:contains(...)` inside `:has(...)`. Browsers reject that selector,
  and `querySelectorAll` throws a `SyntaxError` outside any `try`. In a browser the
  error leaves `scrapeScheduleBuilder` and `scrapeSchedule` whenever the first two
  tiers find nothing. The scrape then fails, and the message handler replies
  `success: false` with the error's message (src/contentScript.ts:29-34); the text
  tier never runs. The model runs both tiers as if the selector were accepted.
- `Serializer.Alarms` uses the corrected alarm text (one em dash), not the `â€”` that
  src/background.ts:145 writes; `Serializer.AlarmDescriptionAsWritten` models the
  text as written (see Findings).
- `Serializer.CreateEvent` therefore builds alarms with the corrected text as well;
  every other field is as written.
- `Parsers.CourseIdOf` states only that the id is non-empty. The exact leftmost
  `[A-Z]{2,4}[-\s]?\d{2,4}` match is computed by its body and is not restated in
  its contract.
- `JsDates.UntilShape` is stated only for years 1000..9999. Other years print a
  different number of year digits, as the source does.

## Findings

| source | as written | input that shows it | evidently intended | confidence | as-written member | corrected member |
|---|---|---|---|---|---|---|
| src/contentScript.ts:544 | `dayMap[dayName]` on an object literal also finds the names it inherits from `Object.prototype` (`constructor`, `toString`, `valueOf`, `__proto__`, …); their values are truthy and get pushed as days | `Mon constructor` gives `MO` and the `Object` function | only the fourteen listed names are days: `Mon constructor` gives `MO` | not executed | Normalize.DaysOfAsWritten | Normalize.DaysOf |
| src/background.ts:145 | the alarm text holds `â€”` (U+00E2 U+20AC U+201D), the UTF-8 bytes of an em dash misread as Windows-1252 | any meeting with a positive reminder, e.g. title `Data Structures` gives `Upcoming class â€” Data Structures` | `Upcoming class — Data Structures`, with a single U+2014 | not executed | Serializer.AlarmDescriptionAsWritten | Serializer.AlarmDescription |

`Serializer.MisreadDashIsMojibake` proves three things:

- the three characters are exactly the em dash's encoding `E2 80 94` read through
  Windows-1252;
- the as-written text differs from the corrected one;
- the as-written text is two characters longer.

`CreateEvent` uses the corrected text.

`Normalize.InheritedNameBecomesDay` shows the day-lookup finding on `Mon constructor`.
`Normalize.AsWrittenAgreesOnOwnKeys` proves that the two lookups push the same codes
whenever no token is an inherited name. The scraper uses `Normalize.DaysOf`, which
looks up only the table's own keys.
