/** Which semester a page belongs to, and the first and last class dates the scraper
    assumes (src/contentScript.ts: `detectSemester`, `getCurrentSemesterStart`,
    `getCurrentSemesterEnd`). The clock is a parameter: today's calendar year and
    1-based month, as `getFullYear()` and `getMonth() + 1` give them. */
module Semester {
  import opened Types
  import opened JsText
  import opened Patterns
  import opened Normalize

  datatype Today = Today(year: nat, month: nat)

  datatype Term = Fall | Spring | Summer

  /** The month bands shared by the fallback of `detectSemester` and the two date
      helpers: August to January is fall, February to May spring, June and July summer. */
  function Band(month: nat): (t: Term)
    ensures t == Fall <==> month >= 8 || month <= 1
    ensures t == Spring <==> 2 <= month <= 5
  {
    if month >= 8 || month <= 1 then Fall
    else if 2 <= month <= 5 then Spring
    else Summer
  }

  /** Every calendar month falls in exactly one band: summer is June and July. */
  lemma SummerBand(month: nat)
    requires 1 <= month <= 12
    ensures Band(month) == Summer <==> month == 6 || month == 7
  {
  }

  function TermName(t: Term): (name: string)
    ensures |name| >= 4
  {
    match t
    case Fall => "Fall"
    case Spring => "Spring"
    case Summer => "Summer"
  }

  /** Month and day of the first and the last class of a band's semester. */
  function StartMonthDay(t: Term): (md: (nat, nat))
  {
    match t
    case Fall => (8, 28)
    case Spring => (1, 28)
    case Summer => (6, 1)
  }

  function EndMonthDay(t: Term): (md: (nat, nat))
  {
    match t
    case Fall => (12, 15)
    case Spring => (5, 15)
    case Summer => (8, 15)
  }

  /** `YYYY-MM-DD` with the year printed as is and month and day padded to two digits. */
  function DateText(year: nat, md: (nat, nat)): (s: string)
    requires md.0 < 100 && md.1 < 100
    ensures |s| == |NatToString(year)| + 6
  {
    NatToString(year) + "-" + TwoDigits(md.0) + "-" + TwoDigits(md.1)
  }

  /** `getCurrentSemesterStart()`. */
  function SemesterStart(today: Today): (s: string)
  {
    DateText(today.year, StartMonthDay(Band(today.month)))
  }

  /** `getCurrentSemesterEnd()`. */
  function SemesterEnd(today: Today): (s: string)
  {
    DateText(today.year, EndMonthDay(Band(today.month)))
  }

  lemma TwoDigitsOfDigit(n: nat)
    requires n < 10
    ensures TwoDigits(n) == ['0', DigitChar(n)]
  {
    assert NatToString(n) == [DigitChar(n)];
  }

  lemma TwoDigitsOfTwoDigits(n: nat)
    requires 10 <= n < 100
    ensures TwoDigits(n) == [DigitChar(n / 10), DigitChar(n % 10)]
  {
    assert NatToString(n / 10) == [DigitChar(n / 10)];
    assert NatToString(n) == [DigitChar(n / 10)] + [DigitChar(n % 10)];
  }

  /** `DateText` is the year followed by a fixed dash-separated month and day tail. */
  lemma DateTextTail(y: nat, md: (nat, nat), tail: string)
    requires md.0 < 100 && md.1 < 100
    requires tail == "-" + TwoDigits(md.0) + "-" + TwoDigits(md.1)
    ensures DateText(y, md) == NatToString(y) + tail
  {
    assert NatToString(y) + "-" + TwoDigits(md.0) + "-" + TwoDigits(md.1)
        == NatToString(y) + ("-" + TwoDigits(md.0) + "-" + TwoDigits(md.1));
  }

  lemma FallDates(y: nat)
    ensures DateText(y, StartMonthDay(Fall)) == NatToString(y) + "-08-28"
    ensures DateText(y, EndMonthDay(Fall)) == NatToString(y) + "-12-15"
  {
    TwoDigitsOfDigit(8);
    TwoDigitsOfTwoDigits(28);
    TwoDigitsOfTwoDigits(12);
    TwoDigitsOfTwoDigits(15);
    DateTextTail(y, (8, 28), "-08-28");
    DateTextTail(y, (12, 15), "-12-15");
  }

  lemma SpringDates(y: nat)
    ensures DateText(y, StartMonthDay(Spring)) == NatToString(y) + "-01-28"
    ensures DateText(y, EndMonthDay(Spring)) == NatToString(y) + "-05-15"
  {
    TwoDigitsOfDigit(1);
    TwoDigitsOfTwoDigits(28);
    TwoDigitsOfDigit(5);
    TwoDigitsOfTwoDigits(15);
    DateTextTail(y, (1, 28), "-01-28");
    DateTextTail(y, (5, 15), "-05-15");
  }

  lemma SummerDates(y: nat)
    ensures DateText(y, StartMonthDay(Summer)) == NatToString(y) + "-06-01"
    ensures DateText(y, EndMonthDay(Summer)) == NatToString(y) + "-08-15"
  {
    TwoDigitsOfDigit(6);
    TwoDigitsOfDigit(1);
    TwoDigitsOfDigit(8);
    TwoDigitsOfTwoDigits(15);
    DateTextTail(y, (6, 1), "-06-01");
    DateTextTail(y, (8, 15), "-08-15");
  }

  /** The three date pairs the source writes out, chosen by the band of today's month. */
  lemma SemesterDates(today: Today)
    ensures var y := NatToString(today.year);
            match Band(today.month)
            case Fall => SemesterStart(today) == y + "-08-28" && SemesterEnd(today) == y + "-12-15"
            case Spring => SemesterStart(today) == y + "-01-28" && SemesterEnd(today) == y + "-05-15"
            case Summer => SemesterStart(today) == y + "-06-01" && SemesterEnd(today) == y + "-08-15"
  {
    match Band(today.month)
    case Fall => FallDates(today.year);
    case Spring => SpringDates(today.year);
    case Summer => SummerDates(today.year);
  }

  /** The first class day comes strictly before the last one. */
  lemma StartBeforeEnd(t: Term)
    ensures StartMonthDay(t).0 < EndMonthDay(t).0
         || (StartMonthDay(t).0 == EndMonthDay(t).0 && StartMonthDay(t).1 < EndMonthDay(t).1)
  {
  }

  // ------------------------------------------------------------ detectSemester

  /** `<Season> <YYYY>`: a season word, one space and four digits, the form every source
      of `detectSemester` but the calendar fallback yields. */
  predicate IsSeasonYear(s: string) {
    |s| >= 9 && s[|s| - 5] == ' ' && AllDigits(s[|s| - 4..]) && IsSeasonWord(s[..|s| - 5])
  }

  lemma SeasonYearOf(season: string, year: string)
    requires IsSeasonWord(season) && |year| == 4 && AllDigits(year)
    ensures IsSeasonYear(season + " " + year)
  {
    var s := season + " " + year;
    assert |season| >= 4;
    assert s[..|s| - 5] == season;
    assert s[|s| - 4..] == year;
  }

  /** A term label's semester: `(\d{4})\s+(Season)` rewritten as season, space, year. */
  function LabelSemester(text: string): (r: Option<string>)
    ensures r.Some? <==> Match(text, YearSeasonAt).Some?
    ensures r.Some? ==> IsSeasonYear(r.value)
  {
    match Match(text, YearSeasonAt)
    case None => None
    case Some(ys) =>
      SeasonYearOf(ys.1, ys.0);
      Some(ys.1 + " " + ys.0)
  }

  /** The semester of the first label that names one. */
  function FirstLabelSemester(labels: seq<string>): (r: Option<string>)
    ensures r.None? <==> forall k :: 0 <= k < |labels| ==> LabelSemester(labels[k]).None?
    ensures r.Some? ==> exists k :: 0 <= k < |labels| && LabelSemester(labels[k]) == r
  {
    if labels == [] then None
    else if LabelSemester(labels[0]).Some? then LabelSemester(labels[0])
    else
      var r := FirstLabelSemester(labels[1..]);
      assert forall k :: 1 <= k < |labels| ==> labels[k] == labels[1..][k - 1];
      r
  }

  /** The season a two-digit term code stands for: 10 spring, 20 summer, anything else fall. */
  function TermCodeSeason(code: string): (t: Term)
    ensures t == Spring <==> code == "10"
    ensures t == Summer <==> code == "20"
  {
    if code == "10" then Spring else if code == "20" then Summer else Fall
  }

  /** The `term` query parameter decoded: the first six consecutive digits `ccyyss` give
      the season of `ss` and the year `20yy`. An absent or empty parameter gives nothing. */
  function TermParamSemester(term: Option<string>): (r: Option<string>)
    ensures r.Some? <==> term.Some? && term.value != [] && Match(term.value, TermCodeAt).Some?
    ensures r.Some? ==> IsSeasonYear(r.value) && r.value[|r.value| - 4..|r.value| - 2] == "20"
  {
    if term.Some? && term.value != [] then
      match Match(term.value, TermCodeAt)
      case None => None
      case Some(yc) =>
        var season := TermName(TermCodeSeason(yc.1));
        TermNameIsSeason(TermCodeSeason(yc.1));
        SeasonYearOf(season, "20" + yc.0);
        assert season + " 20" + yc.0 == season + " " + ("20" + yc.0);
        Some(season + " 20" + yc.0)
    else None
  }

  lemma TermNameIsSeason(t: Term)
    ensures IsSeasonWord(TermName(t))
  {
    match t
    case Fall => assert EqualsIgnoreCase("Fall", "Fall");
    case Spring => assert EqualsIgnoreCase("Spring", "Spring");
    case Summer => assert EqualsIgnoreCase("Summer", "Summer");
  }

  /** A parameter that is six digits decodes to the season of its last two digits and
      the century 2000 year of its middle two. */
  lemma TermParamSixDigits(t: string)
    requires |t| == 6 && AllDigits(t)
    ensures TermParamSemester(Some(t)) == Some(TermName(TermCodeSeason(t[4..6])) + " 20" + t[2..4])
  {
    assert TermCodeAt(t, 0).Some?;
  }

  /** A parameter with no run of six digits decodes to nothing. */
  lemma TermParamNeedsSixDigits(t: string)
    requires forall k :: 0 <= k <= |t| ==> DigitRun(t, k) < 6
    ensures TermParamSemester(Some(t)).None?
  {
  }

  /** The page text's `(Season)\s*(\d{4})`, season first. */
  function PageSemester(pageText: string): (r: Option<string>)
    ensures r.Some? <==> Match(pageText, SeasonYearAt).Some?
    ensures r.Some? ==> IsSeasonYear(r.value)
  {
    match Match(pageText, SeasonYearAt)
    case None => None
    case Some(sy) =>
      SeasonYearOf(sy.0, sy.1);
      Some(sy.0 + " " + sy.1)
  }

  /** The last resort: the band of today's month and today's year. */
  function FallbackSemester(today: Today): (s: string)
  {
    TermName(Band(today.month)) + " " + NatToString(today.year)
  }

  /** What `detectSemester` returns once no term label names a semester: the `term`
      parameter, then the page text, then the calendar. */
  function SemesterWithoutLabels(term: Option<string>, pageText: string, today: Today): (s: string)
  {
    match TermParamSemester(term)
    case Some(fromTerm) => fromTerm
    case None =>
      match PageSemester(pageText)
      case Some(fromPage) => fromPage
      case None => FallbackSemester(today)
  }

  /** What `detectSemester` returns: term labels first, then the other sources. */
  function SemesterOf(labels: seq<string>, term: Option<string>, pageText: string, today: Today): (s: string)
  {
    match FirstLabelSemester(labels)
    case Some(fromLabel) => fromLabel
    case None => SemesterWithoutLabels(term, pageText, today)
  }

  /** A term label that names a semester wins over everything after it; the `term`
      parameter wins over the page text and the calendar. */
  lemma SemesterPriority(labels: seq<string>, term: Option<string>, pageText: string, today: Today)
    ensures forall k :: 0 <= k < |labels| && LabelSemester(labels[k]).Some? &&
                        (forall j :: 0 <= j < k ==> LabelSemester(labels[j]).None?)
                        ==> SemesterOf(labels, term, pageText, today) == LabelSemester(labels[k]).value
    ensures (forall k :: 0 <= k < |labels| ==> LabelSemester(labels[k]).None?) && TermParamSemester(term).Some?
            ==> SemesterOf(labels, term, pageText, today) == TermParamSemester(term).value
    ensures (forall k :: 0 <= k < |labels| ==> LabelSemester(labels[k]).None?) && TermParamSemester(term).None?
            && PageSemester(pageText).Some?
            ==> SemesterOf(labels, term, pageText, today) == PageSemester(pageText).value
    ensures (forall k :: 0 <= k < |labels| ==> LabelSemester(labels[k]).None?) && TermParamSemester(term).None?
            && PageSemester(pageText).None?
            ==> SemesterOf(labels, term, pageText, today) == FallbackSemester(today)
  {
    forall k | 0 <= k < |labels| && LabelSemester(labels[k]).Some? &&
               (forall j :: 0 <= j < k ==> LabelSemester(labels[j]).None?)
      ensures SemesterOf(labels, term, pageText, today) == LabelSemester(labels[k]).value
    {
      FirstLabelIsFirst(labels, k);
    }
  }

  /** With nothing on the page, the semester is the band of the month and the year. */
  lemma SemesterFallsBackToCalendar(today: Today)
    ensures SemesterOf([], None, "", today) == FallbackSemester(today)
  {
    assert Match("", SeasonYearAt).None? by { assert SeasonYearAt("", 0).None?; }
  }

  /** Whatever source decides it, the semester reads `<Season> <YYYY>` as long as the
      calendar year has four digits. */
  lemma SemesterIsSeasonYear(labels: seq<string>, term: Option<string>, pageText: string, today: Today)
    requires 1000 <= today.year < 10000
    ensures IsSeasonYear(SemesterOf(labels, term, pageText, today))
  {
    var fallback := FallbackSemester(today);
    TermNameIsSeason(Band(today.month));
    SeasonYearOf(TermName(Band(today.month)), NatToString(today.year));
    if FirstLabelSemester(labels).Some? {
      var k :| 0 <= k < |labels| && LabelSemester(labels[k]) == FirstLabelSemester(labels);
    }
  }

  /** `detectSemester`: scan the term labels, stop at the first that names a semester. */
  method DetectSemester(labels: seq<string>, term: Option<string>, pageText: string, today: Today)
    returns (semester: string)
    ensures semester == SemesterOf(labels, term, pageText, today)
  {
    var found: Option<string> := None;
    var i := 0;
    while i < |labels| && found.None?
      invariant 0 <= i <= |labels|
      invariant found.None? ==> forall k :: 0 <= k < i ==> LabelSemester(labels[k]).None?
      invariant found.Some? ==> found == FirstLabelSemester(labels)
    {
      var seasonMatch := LabelSemester(labels[i]);
      if seasonMatch.Some? {
        FirstLabelIsFirst(labels, i);
        found := seasonMatch;
      } else {
        assert forall k :: 0 <= k < i + 1 ==> LabelSemester(labels[k]).None?;
      }
      i := i + 1;
    }
    if found.Some? {
      semester := found.value;
    } else {
      semester := SemesterWithoutLabels(term, pageText, today);
    }
  }

  lemma {:induction false} FirstLabelIsFirst(labels: seq<string>, i: nat)
    requires i < |labels| && LabelSemester(labels[i]).Some?
    requires forall k :: 0 <= k < i ==> LabelSemester(labels[k]).None?
    ensures FirstLabelSemester(labels) == LabelSemester(labels[i])
    decreases i
  {
    if i > 0 {
      assert labels[1..][i - 1] == labels[i];
      forall k | 0 <= k < i - 1 ensures LabelSemester(labels[1..][k]).None? {
        assert labels[1..][k] == labels[k + 1];
      }
      FirstLabelIsFirst(labels[1..], i - 1);
      assert LabelSemester(labels[0]).None?;
      assert FirstLabelSemester(labels) == FirstLabelSemester(labels[1..]);
    }
  }
}
