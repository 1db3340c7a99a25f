/** The records that join the scraper to the exporter, the export settings, and the
    `DAY_MAP` lookup table (src/types.ts). */
module Types {

  datatype Option<+T> = None | Some(value: T)

  /** One weekly class session. Days are iCalendar weekday codes, times `HH:MM`,
      dates `YYYY-MM-DD`, as the record's field comments document. */
  datatype CourseMeeting = CourseMeeting(
    courseId: string,
    title: string,
    instructor: string,
    location: string,
    startDate: string,
    endDate: string,
    days: seq<string>,
    startTime: string,
    endTime: string)

  datatype ScheduleData = ScheduleData(semester: string, meetings: seq<CourseMeeting>)

  /** `reminderMinutes` is documented as 0 (no reminder), 10 or 30; nothing enforces it. */
  datatype ExportSettings = ExportSettings(reminderMinutes: int)

  predicate DocumentedReminder(s: ExportSettings) {
    s.reminderMinutes in {0, 10, 30}
  }

  /** The seven two-letter weekday codes of iCalendar. */
  const DayCodes: set<string> := {"MO", "TU", "WE", "TH", "FR", "SA", "SU"}

  predicate IsDayCode(c: string) {
    c in DayCodes
  }

  lemma DayCodesCount()
    ensures |DayCodes| == 7
  {
    assert DayCodes == {"MO"} + {"TU"} + {"WE"} + {"TH"} + {"FR"} + {"SA"} + {"SU"};
  }

  predicate NoDuplicates<T(==)>(s: seq<T>) {
    forall i, j :: 0 <= i < j < |s| ==> s[i] != s[j]
  }

  /** The shape the record's comments document for a meeting and the exporter relies on:
      a course id, at least one weekday, all of them distinct iCalendar codes. */
  predicate WellFormedMeeting(m: CourseMeeting) {
    && m.courseId != []
    && |m.days| > 0
    && (forall k :: 0 <= k < |m.days| ==> IsDayCode(m.days[k]))
    && NoDuplicates(m.days)
  }

  /** `DAY_MAP[key]`: single letters, `TH`/`SU` to tell Thursday and Sunday apart from
      Tuesday and Saturday, and the two-letter title-case forms. */
  function DayMap(key: string): (code: Option<string>)
    ensures code.Some? ==> IsDayCode(code.value)
    ensures code.Some? ==> 1 <= |key| <= 2
  {
    match key
    case "M" => Some("MO")
    case "T" => Some("TU")
    case "W" => Some("WE")
    case "TH" => Some("TH")
    case "F" => Some("FR")
    case "S" => Some("SA")
    case "SU" => Some("SU")
    case "Mo" => Some("MO")
    case "Tu" => Some("TU")
    case "We" => Some("WE")
    case "Th" => Some("TH")
    case "Fr" => Some("FR")
    case "Sa" => Some("SA")
    case "Su" => Some("SU")
    case _ => None
  }

  /** The single letters, and the two upper-case keys that keep Thursday and Sunday apart
      from Tuesday and Saturday. */
  lemma DayMapSingleLetters()
    ensures DayMap("M") == Some("MO") && DayMap("T") == Some("TU") && DayMap("W") == Some("WE")
    ensures DayMap("F") == Some("FR") && DayMap("S") == Some("SA")
    ensures DayMap("TH") == Some("TH") && DayMap("SU") == Some("SU")
    ensures DayMap("TH") != DayMap("T") && DayMap("SU") != DayMap("S")
  {
  }

  /** Every two-letter title-case key maps to its own upper-case spelling. */
  lemma DayMapTwoLetterForms(key: string)
    requires key in {"Mo", "Tu", "We", "Th", "Fr", "Sa", "Su"}
    ensures DayMap(key) == Some([key[0], (key[1] as int - 32) as char])
  {
  }

  /** Every code is reached, and only the 14 listed keys are mapped. */
  lemma DayMapKeys(key: string)
    ensures DayMap(key).Some? <==> key in {"M", "T", "W", "TH", "F", "S", "SU", "Mo", "Tu", "We", "Th", "Fr", "Sa", "Su"}
  {
  }

  /** Of the codes themselves, only `TH` and `SU` are keys: looking up an already
      canonical code is not the identity. */
  lemma DayMapOnCodes()
    ensures DayMap("TH") == Some("TH") && DayMap("SU") == Some("SU")
    ensures DayMap("MO").None? && DayMap("TU").None? && DayMap("WE").None?
    ensures DayMap("FR").None? && DayMap("SA").None?
  {
  }
}
