/** How the scraper walks a page (src/contentScript.ts: `scrapeSchedule`,
    `scrapeScheduleBuilder`, `parseFromLegendBox`, `scrapeStudentCenter`,
    `isCUNYSchedulePage`). The document is given as what the selectors find: the legend
    box's course boxes, the class-hinted blocks' texts, the texts of all candidate
    elements, the Student Center rows as cell texts, the term labels and the body text,
    each in document order. */
module Scraper {
  import opened Types
  import opened JsText
  import opened Patterns
  import opened Semester
  import opened Parsers

  datatype Page = Page(
    url: string,
    params: map<string, string>,
    legendBox: Option<seq<CourseBox>>,
    courseBlocks: seq<string>,
    textElements: seq<string>,
    studentRows: seq<seq<string>>,
    termLabels: seq<string>,
    bodyText: string,
    today: Today)

  // ------------------------------------------------------------ forEach and push

  /** What a `forEach` that parses each item and pushes the non-null meetings leaves in
      its array: the parsed meetings in item order. */
  function Collected<T>(items: seq<T>, parse: T -> Option<CourseMeeting>): (r: seq<CourseMeeting>)
    ensures |r| <= |items|
    decreases |items|
  {
    if items == [] then []
    else
      var done := Collected(items[..|items| - 1], parse);
      match parse(items[|items| - 1])
      case Some(m) => done + [m]
      case None => done
  }

  /** Nothing is collected exactly when every item parses to null. */
  lemma {:induction false} CollectedEmpty<T>(items: seq<T>, parse: T -> Option<CourseMeeting>)
    ensures Collected(items, parse) == [] <==> forall j :: 0 <= j < |items| ==> parse(items[j]).None?
    decreases |items|
  {
    if items != [] {
      var init := items[..|items| - 1];
      CollectedEmpty(init, parse);
      assert forall j :: 0 <= j < |init| ==> init[j] == items[j];
    }
  }

  /** Every collected meeting is what some item parsed to. */
  lemma {:induction false} CollectedFrom<T>(items: seq<T>, parse: T -> Option<CourseMeeting>)
    ensures forall k :: 0 <= k < |Collected(items, parse)| ==>
              exists j :: 0 <= j < |items| && parse(items[j]) == Some(Collected(items, parse)[k])
    decreases |items|
  {
    if items != [] {
      var init := items[..|items| - 1];
      var done := Collected(init, parse);
      var r := Collected(items, parse);
      CollectedFrom(init, parse);
      forall k | 0 <= k < |r| ensures exists j :: 0 <= j < |items| && parse(items[j]) == Some(r[k]) {
        if k < |done| {
          var j :| 0 <= j < |init| && parse(init[j]) == Some(done[k]);
          assert init[j] == items[j];
        } else {
          assert parse(items[|items| - 1]) == Some(r[k]);
        }
      }
    } else {
      assert Collected(items, parse) == [];
    }
  }

  method CollectMeetings<T>(items: seq<T>, parse: T -> Option<CourseMeeting>) returns (meetings: seq<CourseMeeting>)
    ensures meetings == Collected(items, parse)
  {
    meetings := [];
    for i := 0 to |items|
      invariant meetings == Collected(items[..i], parse)
    {
      assert items[..i + 1][..i] == items[..i];
      var meeting := parse(items[i]);
      if meeting.Some? {
        meetings := meetings + [meeting.value];
      }
    }
    assert items[..|items|] == items;
  }

  /** Collecting over two runs of items is collecting over each, in order: the meetings
      keep the order in which their items were found. */
  lemma {:induction false} CollectedAppend<T>(a: seq<T>, b: seq<T>, parse: T -> Option<CourseMeeting>)
    ensures Collected(a + b, parse) == Collected(a, parse) + Collected(b, parse)
    decreases |b|
  {
    if b == [] {
      assert a + b == a;
    } else {
      var b' := b[..|b| - 1];
      assert (a + b)[..|a + b| - 1] == a + b';
      assert (a + b)[|a + b| - 1] == b[|b| - 1];
      CollectedAppend(a, b', parse);
    }
  }

  /** When every meeting a parser can return is well formed, so is everything collected. */
  lemma CollectedWellFormed<T>(items: seq<T>, parse: T -> Option<CourseMeeting>)
    requires forall j :: 0 <= j < |items| && parse(items[j]).Some? ==> WellFormedMeeting(parse(items[j]).value)
    ensures forall k :: 0 <= k < |Collected(items, parse)| ==> WellFormedMeeting(Collected(items, parse)[k])
  {
    var r := Collected(items, parse);
    CollectedFrom(items, parse);
    forall k | 0 <= k < |r| ensures WellFormedMeeting(r[k]) {
      var j :| 0 <= j < |items| && parse(items[j]) == Some(r[k]);
    }
  }

  // ------------------------------------------------------------ the per-element parsers

  function BoxParser(today: Today): CourseBox -> Option<CourseMeeting> {
    box => ParseCourseBox(box, today)
  }

  function BlockParser(today: Today): string -> Option<CourseMeeting> {
    text => ParseBlockText(text, today)
  }

  /** The test the fourth tier puts to an element: its trimmed text starts with `SUBJ NNN`. */
  predicate IsCourseText(text: string) {
    StartsWithCourseCode(Trim(text))
  }

  /** The fourth tier only parses elements that pass `IsCourseText`. */
  function TextElementParser(today: Today): string -> Option<CourseMeeting> {
    text => if IsCourseText(text) then ParseBlockText(text, today) else None
  }

  function RowParser(today: Today): seq<string> -> Option<CourseMeeting> {
    cells => ParseStudentCenterRow(cells, today)
  }

  // ------------------------------------------------------------ parseFromLegendBox

  /** The legend tier: nothing without a legend box, else its parsed course boxes. */
  function LegendMeetings(legendBox: Option<seq<CourseBox>>, today: Today): (r: seq<CourseMeeting>)
    ensures legendBox.None? ==> r == []
    ensures forall k :: 0 <= k < |r| ==> WellFormedMeeting(r[k])
  {
    match legendBox
    case None => []
    case Some(boxes) =>
      CollectedWellFormed(boxes, BoxParser(today));
      Collected(boxes, BoxParser(today))
  }

  /** `parseFromLegendBox`. */
  method ParseFromLegendBox(legendBox: Option<seq<CourseBox>>, today: Today) returns (meetings: seq<CourseMeeting>)
    ensures meetings == LegendMeetings(legendBox, today)
  {
    meetings := [];
    if legendBox.Some? {
      meetings := CollectMeetings(legendBox.value, BoxParser(today));
    }
  }

  // ------------------------------------------------------------ scrapeScheduleBuilder

  /** The first non-empty list of the four, or the empty list. */
  function FirstNonEmpty(legend: seq<CourseMeeting>, url: seq<CourseMeeting>,
                         blocks: seq<CourseMeeting>, texts: seq<CourseMeeting>): (r: seq<CourseMeeting>)
    ensures r == [] <==> legend == [] && url == [] && blocks == [] && texts == []
    ensures r == legend || r == url || r == blocks || r == texts
  {
    if legend != [] then legend
    else if url != [] then url
    else if blocks != [] then blocks
    else texts
  }

  /** A tier is the result exactly when it is non-empty and every earlier tier is empty,
      and what a later tier would find does not matter once an earlier one found anything. */
  lemma TierPriority(legend: seq<CourseMeeting>, url: seq<CourseMeeting>,
                     blocks: seq<CourseMeeting>, texts: seq<CourseMeeting>,
                     url': seq<CourseMeeting>, blocks': seq<CourseMeeting>, texts': seq<CourseMeeting>)
    ensures legend != [] ==>
              FirstNonEmpty(legend, url, blocks, texts) == legend && FirstNonEmpty(legend, url', blocks', texts') == legend
    ensures legend == [] && url != [] ==>
              FirstNonEmpty(legend, url, blocks, texts) == url && FirstNonEmpty(legend, url, blocks', texts') == url
    ensures legend == [] && url == [] && blocks != [] ==>
              FirstNonEmpty(legend, url, blocks, texts) == blocks && FirstNonEmpty(legend, url, blocks, texts') == blocks
    ensures legend == [] && url == [] && blocks == [] ==> FirstNonEmpty(legend, url, blocks, texts) == texts
  {
  }

  /** What `scrapeScheduleBuilder` returns for a page. */
  function BuilderMeetings(page: Page): (r: seq<CourseMeeting>)
  {
    FirstNonEmpty(LegendMeetings(page.legendBox, page.today),
                  UrlPlaceholdersFrom(page.params, 0, page.today),
                  Collected(page.courseBlocks, BlockParser(page.today)),
                  Collected(page.textElements, TextElementParser(page.today)))
  }

  /** `scrapeScheduleBuilder`: each tier runs only while nothing has been found. */
  method ScrapeScheduleBuilder(page: Page) returns (meetings: seq<CourseMeeting>)
    ensures meetings == BuilderMeetings(page)
  {
    ghost var url := UrlPlaceholdersFrom(page.params, 0, page.today);
    ghost var blocks := Collected(page.courseBlocks, BlockParser(page.today));
    ghost var texts := Collected(page.textElements, TextElementParser(page.today));
    meetings := [];
    var legendMeetings := ParseFromLegendBox(page.legendBox, page.today);
    if |legendMeetings| > 0 {
      meetings := meetings + legendMeetings;
      assert meetings == legendMeetings;
    }
    if |meetings| == 0 {
      var urlMeetings := ParseCoursesFromURL(page.params, page.today);
      if |urlMeetings| > 0 {
        AppendToNothing(meetings, urlMeetings);
        meetings := meetings + urlMeetings;
        assert meetings == url;
      }
    }
    if |meetings| == 0 {
      var blockMeetings := CollectMeetings(page.courseBlocks, BlockParser(page.today));
      AppendToNothing(meetings, blockMeetings);
      meetings := meetings + blockMeetings;
      assert meetings == blocks;
    }
    if |meetings| == 0 {
      var textMeetings := CollectMeetings(page.textElements, TextElementParser(page.today));
      AppendToNothing(meetings, textMeetings);
      meetings := meetings + textMeetings;
      assert meetings == texts;
    }
    TierPriority(LegendMeetings(page.legendBox, page.today), url, blocks, texts, url, blocks, texts);
  }

  /** A tier appended to an empty result is that tier. */
  lemma AppendToNothing(found: seq<CourseMeeting>, tier: seq<CourseMeeting>)
    requires |found| == 0
    ensures found + tier == tier
  {
    assert found == [];
  }

  /** Every meeting the builder chain returns is well formed. */
  lemma BuilderMeetingsWellFormed(page: Page)
    ensures forall k :: 0 <= k < |BuilderMeetings(page)| ==> WellFormedMeeting(BuilderMeetings(page)[k])
  {
    var url := UrlPlaceholdersFrom(page.params, 0, page.today);
    UrlPlaceholdersShape(page.params, 0, page.today);
    assert forall k :: 0 <= k < |url| ==> WellFormedMeeting(url[k]);
    CollectedWellFormed(page.courseBlocks, BlockParser(page.today));
    CollectedWellFormed(page.textElements, TextElementParser(page.today));
  }

  /** A text element that does not start with a course code contributes nothing, even
      when a course code, a time range and a weekday appear later in it. */
  lemma TextTierNeedsLeadingCode(texts: seq<string>, today: Today)
    requires forall j :: 0 <= j < |texts| ==> !IsCourseText(texts[j])
    ensures Collected(texts, TextElementParser(today)) == []
  {
    CollectedEmpty(texts, TextElementParser(today));
  }

  // ------------------------------------------------------------ scrapeStudentCenter

  /** `scrapeStudentCenter`: the parsed rows, in document order. */
  method ScrapeStudentCenter(rows: seq<seq<string>>, today: Today) returns (meetings: seq<CourseMeeting>)
    ensures meetings == Collected(rows, RowParser(today))
    ensures forall k :: 0 <= k < |meetings| ==> WellFormedMeeting(meetings[k])
  {
    CollectedWellFormed(rows, RowParser(today));
    meetings := CollectMeetings(rows, RowParser(today));
  }

  // ------------------------------------------------------------ scrapeSchedule

  datatype Route = Builder | StudentCenter | Elsewhere

  predicate OnBuilderHost(url: string) {
    Includes(url, "schedulebuilder.cuny.edu") || Includes(url, "sb.cunyfirst.cuny.edu")
  }

  /** Which scraper `scrapeSchedule` runs for an address. */
  function RouteOf(url: string): (r: Route)
    ensures r == Builder <==> OnBuilderHost(url)
    ensures r == StudentCenter <==> !OnBuilderHost(url) && Includes(url, "home.cunyfirst.cuny.edu")
  {
    if OnBuilderHost(url) then Builder
    else if Includes(url, "home.cunyfirst.cuny.edu") then StudentCenter
    else Elsewhere
  }

  /** `isCUNYSchedulePage`: a Student Center class schedule or a Schedule Builder page. */
  predicate IsCUNYSchedulePage(url: string) {
    (Includes(url, "home.cunyfirst.cuny.edu") && Includes(url, "CLASS_SCHEDULE")) || OnBuilderHost(url)
  }

  /** On every page the scraper activates on, some scraper runs; every Schedule Builder
      page is one it activates on. The Student Center route is wider than the activation
      test: it does not ask for `CLASS_SCHEDULE`. */
  lemma ScheduleRouting(url: string)
    ensures IsCUNYSchedulePage(url) ==> RouteOf(url) != Elsewhere
    ensures RouteOf(url) == Builder ==> IsCUNYSchedulePage(url)
    ensures RouteOf(url) == StudentCenter && !Includes(url, "CLASS_SCHEDULE") ==> !IsCUNYSchedulePage(url)
  {
  }

  /** The meetings `scrapeSchedule` collects for a page. */
  function MeetingsOf(page: Page): (r: seq<CourseMeeting>)
    ensures RouteOf(page.url) == Elsewhere ==> r == []
    ensures RouteOf(page.url) == StudentCenter ==> |r| <= |page.studentRows|
  {
    match RouteOf(page.url)
    case Builder => BuilderMeetings(page)
    case StudentCenter => Collected(page.studentRows, RowParser(page.today))
    case Elsewhere => []
  }

  /** What `scrapeSchedule` returns for a page. */
  function ScheduleOf(page: Page): (d: ScheduleData)
  {
    ScheduleData(SemesterOf(page.termLabels, Lookup(page.params, "term"), page.bodyText, page.today),
                 MeetingsOf(page))
  }

  /** `scrapeSchedule`. */
  method ScrapeSchedule(page: Page) returns (data: ScheduleData)
    ensures data == ScheduleOf(page)
  {
    var meetings: seq<CourseMeeting> := [];
    if OnBuilderHost(page.url) {
      var found := ScrapeScheduleBuilder(page);
      meetings := meetings + found;
    } else if Includes(page.url, "home.cunyfirst.cuny.edu") {
      var found := ScrapeStudentCenter(page.studentRows, page.today);
      meetings := meetings + found;
    }
    var semester := DetectSemester(page.termLabels, Lookup(page.params, "term"), page.bodyText, page.today);
    data := ScheduleData(semester, meetings);
  }

  /** Every meeting the scraper hands to the exporter has a course id and at least one
      weekday, all of them distinct iCalendar codes. */
  lemma ScrapedMeetingsWellFormed(page: Page)
    ensures forall k :: 0 <= k < |ScheduleOf(page).meetings| ==> WellFormedMeeting(ScheduleOf(page).meetings[k])
  {
    BuilderMeetingsWellFormed(page);
    CollectedWellFormed(page.studentRows, RowParser(page.today));
  }
}
