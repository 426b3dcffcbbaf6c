/** `run_ecr_extraction`: walk the ECR Upload list page by page, download the
    PDF of every confirmed statement whose wage month falls in the requested
    range, and zip the downloads. */
module EcrTask {
  import opened Wrappers
  import opened Text
  import opened Months
  import opened Dates
  import opened Events
  import opened Portal
  import opened Archive

  const PaymentConfirmed := "Payment Confirmed"
  const DownloadDir := "ecr_downloads"

  // ---------------------------------------------------------------------------
  // The row predicate

  /** Why reading a wage month raises `ValueError`: the unpacking of the split
      finds the wrong number of parts, `int` rejects the year text, or the
      `datetime` constructor rejects the year or the month (-1 included).
      A year beyond the range of a C `int` makes the constructor raise
      `OverflowError` instead; the model counts it as a rejected year. */
  datatype WageMonthError = PartCount(parts: nat) | YearNotInteger | DateRejected(reason: DateError)

  /** `month_str, year_str = wage_month_str.split('-')` followed by
      `datetime(int(year_str), get_month_index(month_str), 1)`. The cell text
      is not stripped. */
  function ParseWageMonth(cell: string): (r: Result<YearMonth, WageMonthError>)
    ensures r.Success? ==> IsValid(r.value)
  {
    var parts := Split(cell, '-');
    if |parts| != 2 then Failure(PartCount(|parts|)) else ReadWageMonth(parts[0], parts[1])
  }

  /** The two parts of the split: the year text through `int`, the month word
      through `get_month_index`, then the `datetime` constructor. */
  function ReadWageMonth(monthText: string, yearText: string): (r: Result<YearMonth, WageMonthError>)
    ensures r.Success? ==> IsValid(r.value)
  {
    match ParseInt(yearText)
    case None => Failure(YearNotInteger)
    case Some(year) =>
      match MakeDate(year, GetMonthIndex(monthText))
      case Failure(reason) => Failure(DateRejected(reason))
      case Success(d) => Success(d)
  }

  /** What the row loop does with one row. */
  datatype Verdict =
    | NotConfirmed                     // status is not "Payment Confirmed": skipped
    | Unparsable(error: WageMonthError) // `ValueError` caught and logged
    | OutOfRange(month: YearMonth)     // wage month outside [start, end]
    | InRange(month: YearMonth)        // a download is attempted

  function Classify(row: EcrRow, s: Date, e: Date): Verdict {
    if Strip(row.statusCell) != PaymentConfirmed then NotConfirmed
    else
      match ParseWageMonth(row.wageMonthCell)
      case Failure(err) => Unparsable(err)
      case Success(d) => if NotAfter(s, d) && NotAfter(d, e) then InRange(d) else OutOfRange(d)
  }

  /** `download_dir / f"{trrn}_{wage_month_str}.pdf"`, with the stripped TRRN
      and the raw wage month text. */
  function PdfPath(row: EcrRow): FilePath {
    FilePath(DownloadDir, Strip(row.trrnCell) + "_" + row.wageMonthCell + ".pdf")
  }

  function DownloadingEvent(trrn: string): Event {
    StatusUpdate("Downloading PDF for " + trrn + "...")
  }

  // ---------------------------------------------------------------------------
  // What the page loop collects

  /** The status updates put on the queue and the files saved, in order. */
  datatype Harvest = Harvest(events: seq<Event>, files: seq<FilePath>)

  function Then(a: Harvest, b: Harvest): Harvest {
    Harvest(a.events + b.events, a.files + b.files)
  }

  /** One row: an in-range confirmed row announces its download, and adds its
      file when the link is there and the save completes. */
  function RowHarvest(row: EcrRow, s: Date, e: Date): Harvest {
    if Classify(row, s, e).InRange? then
      Harvest([DownloadingEvent(Strip(row.trrnCell))], if row.link.PdfSaved? then [PdfPath(row)] else [])
    else Harvest([], [])
  }

  function RowsHarvest(rows: seq<EcrRow>, s: Date, e: Date): Harvest {
    if rows == [] then Harvest([], [])
    else Then(RowsHarvest(rows[..|rows| - 1], s, e), RowHarvest(rows[|rows| - 1], s, e))
  }

  function PagesHarvest(pages: seq<EcrPage>, s: Date, e: Date): Harvest {
    if pages == [] then Harvest([], [])
    else Then(PagesHarvest(pages[..|pages| - 1], s, e), RowsHarvest(pages[|pages| - 1].rows, s, e))
  }

  /** The loop ends on a page whose "Next" is hidden; the listing is taken to
      have one. */
  predicate PaginationEnds(pages: seq<EcrPage>) {
    exists p | 0 <= p < |pages| :: !pages[p].nextVisible
  }

  /** The page the loop stops on: the first one whose "Next" is hidden. */
  function FirstHidden(pages: seq<EcrPage>): (k: nat)
    requires PaginationEnds(pages)
    ensures k < |pages| && !pages[k].nextVisible
    ensures forall j | 0 <= j < k :: pages[j].nextVisible
  {
    if !pages[0].nextVisible then 0
    else
      var p :| 0 <= p < |pages| && !pages[p].nextVisible;
      assert !pages[1..][p - 1].nextVisible;
      1 + FirstHidden(pages[1..])
  }

  /** The pages the loop reads. */
  function Visited(pages: seq<EcrPage>): seq<EcrPage>
    requires PaginationEnds(pages)
  {
    pages[..FirstHidden(pages) + 1]
  }

  // ---------------------------------------------------------------------------
  // The task

  /** `f"ECR_Statements_{start:%Y%m}_to_{end:%Y%m}.zip"`. */
  function ZipName(s: Date, e: Date): string {
    "ECR_Statements_" + FormatYearMonth(s) + "_to_" + FormatYearMonth(e) + ".zip"
  }

  const StartEvent := StatusUpdate("Starting ECR PDF extraction...")
  const NoMatchEvent := Info("No matching ECR statements found.")
  const FinishEvent := StatusUpdate("ECR extraction finished.")

  function NavigationError(message: string): Event {
    Error("Could not navigate to ECR page: " + message)
  }

  function ZippedEvent(s: Date, e: Date): Event {
    Info("ECR PDFs zipped to " + ZipName(s, e))
  }

  /** Everything the task puts on the result queue. */
  function EcrEvents(s: Date, e: Date, listing: EcrListing): seq<Event>
    requires listing.navigation.Done? ==> PaginationEnds(listing.pages)
  {
    match listing.navigation
    case Raised(m) => [StartEvent, NavigationError(m)]
    case Done =>
      var h := PagesHarvest(Visited(listing.pages), s, e);
      [StartEvent] + h.events + [if h.files != [] then ZippedEvent(s, e) else NoMatchEvent] + [FinishEvent]
  }

  /** The row predicate as the loop tests it, one condition after another. */
  lemma ClassifySteps(row: EcrRow, s: Date, e: Date)
    ensures Classify(row, s, e).InRange? <==>
      && Strip(row.statusCell) == PaymentConfirmed
      && ParseWageMonth(row.wageMonthCell).Success?
      && NotAfter(s, ParseWageMonth(row.wageMonthCell).value)
      && NotAfter(ParseWageMonth(row.wageMonthCell).value, e)
  {
  }

  /** The `for row in rows` loop of one page: the status updates it puts on
      the queue and the files it saves. */
  method ProcessRows(rows: seq<EcrRow>, s: Date, e: Date) returns (progress: seq<Event>, files: seq<FilePath>)
    ensures Harvest(progress, files) == RowsHarvest(rows, s, e)
  {
    progress, files := [], [];
    var i := 0;
    while i < |rows|
      invariant 0 <= i <= |rows|
      invariant Harvest(progress, files) == RowsHarvest(rows[..i], s, e)
    {
      var row := rows[i];
      assert rows[..i + 1][..i] == rows[..i];
      assert RowsHarvest(rows[..i + 1], s, e) == Then(RowsHarvest(rows[..i], s, e), RowHarvest(row, s, e));
      ClassifySteps(row, s, e);
      var status := Strip(row.statusCell);
      if status == PaymentConfirmed {
        var wageDate := ParseWageMonth(row.wageMonthCell);
        // a `ValueError` here is caught and logged, and the row skipped
        if wageDate.Success? && NotAfter(s, wageDate.value) && NotAfter(wageDate.value, e) {
          progress := progress + [DownloadingEvent(Strip(row.trrnCell))];
          if row.link.PdfSaved? {
            files := files + [PdfPath(row)];
          }
        }
      }
      i := i + 1;
    }
    assert rows[..i] == rows;
  }

  /** The `while True` page loop: the rows of each page, until the page
      whose "Next" is hidden. */
  method HarvestPages(pages: seq<EcrPage>, s: Date, e: Date) returns (progress: seq<Event>, downloaded: seq<FilePath>)
    requires PaginationEnds(pages)
    ensures Harvest(progress, downloaded) == PagesHarvest(Visited(pages), s, e)
  {
    var last := FirstHidden(pages);
    progress, downloaded := [], [];
    var p := 0;
    while true
      invariant 0 <= p <= last
      invariant Harvest(progress, downloaded) == PagesHarvest(pages[..p], s, e)
      decreases last - p
    {
      var pageEvents, pageFiles := ProcessRows(pages[p].rows, s, e);
      progress, downloaded := progress + pageEvents, downloaded + pageFiles;
      assert pages[..p + 1][..p] == pages[..p];
      if !pages[p].nextVisible {
        break;
      }
      p := p + 1;
    }
    assert pages[..p + 1] == Visited(pages);
  }

  /** The task. `downloaded` is `downloaded_files`; when it is not empty the
      archive `zipFile` is written with `members` and the PDFs are removed. */
  method RunEcrExtraction(s: Date, e: Date, listing: EcrListing)
    returns (events: seq<Event>, downloaded: seq<FilePath>, zipFile: Option<string>, members: seq<string>)
    requires listing.navigation.Done? ==> PaginationEnds(listing.pages)
    ensures events == EcrEvents(s, e, listing)
    ensures downloaded == (if listing.navigation.Done? then PagesHarvest(Visited(listing.pages), s, e).files else [])
    ensures zipFile == (if downloaded != [] then Some(ZipName(s, e)) else None)
    ensures members == Names(Dedup(downloaded))
  {
    events := [StartEvent];
    downloaded := [];
    zipFile := None;
    members := [];
    if listing.navigation.Raised? {
      events := events + [NavigationError(listing.navigation.message)];
      return;
    }
    var progress;
    progress, downloaded := HarvestPages(listing.pages, s, e);
    events := events + progress;
    if downloaded != [] {
      var zipName := ZipName(s, e);
      var remaining;
      members, remaining := ZipAndRemove(downloaded);
      zipFile := Some(zipName);
      events := events + [Info("ECR PDFs zipped to " + zipName)];
    } else {
      events := events + [NoMatchEvent];
    }
    events := events + [FinishEvent];
  }

  // ---------------------------------------------------------------------------
  // Properties

  /** The wage month is read exactly when the cell is a month word, a dash and
      a year text: a cell with no dash or with two dashes is rejected. */
  lemma ParseWageMonthParts(cell: string)
    ensures ParseWageMonth(cell).Failure? && ParseWageMonth(cell).error.PartCount? <==> Count(cell, '-') != 1
  {
  }

  /** A cell of the form month word, dash, year text is read exactly when the
      year text is an integer and the month word is an abbreviation in any
      capitalisation, and the date is one `datetime` accepts. */
  lemma ParseWageMonthOf(a: string, b: string, d: YearMonth)
    requires '-' !in a && '-' !in b
    ensures ParseWageMonth(a + "-" + b) == Success(d) <==>
      && IsValid(d) && ParseInt(b) == Some(d.year) && EqualsIgnoringCase(a, MonthNames[d.month - 1])
  {
    ParseWageMonthSplits(a, b);
    ReadWageMonthOf(a, b, d);
  }

  lemma ParseWageMonthSplits(a: string, b: string)
    requires '-' !in a && '-' !in b
    ensures ParseWageMonth(a + "-" + b) == ReadWageMonth(a, b)
  {
    SplitInTwo(a + "-" + b, '-', a, b);
    assert Split(a + "-" + b, '-') == [a, b];
  }

  lemma ReadWageMonthOf(a: string, b: string, d: YearMonth)
    ensures ReadWageMonth(a, b) == Success(d) <==>
      && IsValid(d) && ParseInt(b) == Some(d.year) && EqualsIgnoringCase(a, MonthNames[d.month - 1])
  {
    if 1 <= d.month <= 12 {
      GetMonthIndexIgnoresCase(a, d.month - 1);
    }
  }

  /** A row whose wage month cell is a month word, a dash and a year text is
      downloaded from exactly when its stripped status reads "Payment
      Confirmed", the year text is an integer, the month word is an
      abbreviation in any capitalisation, and that month lies in the range.
      The `datetime` year bounds never reject such a row: the range ends are
      themselves valid dates. */
  lemma ClassifyInRange(row: EcrRow, s: Date, e: Date, a: string, b: string, d: YearMonth)
    requires row.wageMonthCell == a + "-" + b && '-' !in a && '-' !in b
    ensures Classify(row, s, e) == InRange(d) <==>
      && Strip(row.statusCell) == PaymentConfirmed
      && 1 <= d.month <= 12 && ParseInt(b) == Some(d.year) && EqualsIgnoringCase(a, MonthNames[d.month - 1])
      && NotAfter(s, d) && NotAfter(d, e)
  {
    ParseWageMonthOf(a, b, d);
  }

  /** With the range the wrong way round no row is in range, so nothing is
      downloaded. */
  lemma InvertedRange(row: EcrRow, s: Date, e: Date)
    requires !NotAfter(s, e)
    ensures !Classify(row, s, e).InRange?
  {
    var v := Classify(row, s, e);
    if v.InRange? {
      assert NotAfter(s, v.month) && NotAfter(v.month, e);
      NotAfterTotalOrder(s, v.month, e);
      assert false;
    }
  }

  /** A file is saved exactly for an in-range row with a link whose download
      completes, and it is named after that row. */
  lemma {:induction false} RowsHarvestFiles(rows: seq<EcrRow>, s: Date, e: Date, f: FilePath)
    ensures f in RowsHarvest(rows, s, e).files <==>
      exists row | row in rows :: Classify(row, s, e).InRange? && row.link.PdfSaved? && f == PdfPath(row)
  {
    if rows != [] {
      var init := rows[..|rows| - 1];
      RowsHarvestFiles(init, s, e, f);
      assert forall row :: row in rows <==> row in init || row == rows[|rows| - 1];
    }
  }

  /** One "Downloading PDF" update per in-range row, whether or not it has a
      link, and at most one file per update. */
  lemma {:induction false} RowsHarvestCounts(rows: seq<EcrRow>, s: Date, e: Date)
    ensures |RowsHarvest(rows, s, e).events| == |InRangeRows(rows, s, e)|
    ensures |RowsHarvest(rows, s, e).files| <= |RowsHarvest(rows, s, e).events|
  {
    if rows != [] {
      RowsHarvestCounts(rows[..|rows| - 1], s, e);
    }
  }

  /** The in-range rows of a page, in order. */
  function InRangeRows(rows: seq<EcrRow>, s: Date, e: Date): (r: seq<EcrRow>)
    ensures forall row | row in r :: row in rows && Classify(row, s, e).InRange?
  {
    if rows == [] then []
    else
      var init := InRangeRows(rows[..|rows| - 1], s, e);
      var last := rows[|rows| - 1];
      if Classify(last, s, e).InRange? then init + [last] else init
  }

  /** The loop reads every page up to and including the first whose "Next" is
      hidden, and no page after it. */
  lemma VisitedPages(pages: seq<EcrPage>)
    requires PaginationEnds(pages)
    ensures |Visited(pages)| > 0 && !Visited(pages)[|Visited(pages)| - 1].nextVisible
    ensures forall j | 0 <= j < |Visited(pages)| - 1 :: Visited(pages)[j].nextVisible
    ensures Visited(pages) <= pages
  {
  }

  /** The archive name determines the range it was made for. */
  lemma ZipNameInjective(s: Date, e: Date, s': Date, e': Date)
    requires ZipName(s, e) == ZipName(s', e')
    ensures s == s' && e == e'
  {
    FormatYearMonthRoundTrip(s);
    FormatYearMonthRoundTrip(e);
    FormatYearMonthRoundTrip(s');
    FormatYearMonthRoundTrip(e');
    var z, z' := ZipName(s, e), ZipName(s', e');
    assert z[15..21] == FormatYearMonth(s) && z'[15..21] == FormatYearMonth(s');
    assert z[25..31] == FormatYearMonth(e) && z'[25..31] == FormatYearMonth(e');
  }

  // Worked rows, with the range January to March 2024.

  const Jan2024: Date := YearMonth(2024, 1)
  const Mar2024: Date := YearMonth(2024, 3)

  lemma StripStatuses()
    ensures Strip("Pending") == "Pending"
    ensures Strip("Payment Confirmed") == PaymentConfirmed
    ensures Strip(" Payment Confirmed ") == PaymentConfirmed
  {
    assert !IsSpace('P') && !IsSpace('g') && !IsSpace('d') && IsSpace(' ');
    assert StripStart("Pending") == "Pending";
    assert StripStart("Payment Confirmed") == PaymentConfirmed;
    assert " Payment Confirmed "[1..] == "Payment Confirmed ";
    assert StripStart(" Payment Confirmed ") == "Payment Confirmed ";
    assert "Payment Confirmed "[..17] == PaymentConfirmed;
  }

  lemma ParseIntYear()
    ensures ParseInt("2024") == Some(2024)
  {
    ParseIntNatToString(2024);
    assert NatToString(2024) == "2024";
  }

  lemma FebWageMonth()
    ensures ParseWageMonth("Feb-2024") == Success(YearMonth(2024, 2))
  {
    ParseIntYear();
    assert "Feb-2024" == "Feb" + "-" + "2024";
    assert '-' !in "Feb" && '-' !in "2024";
    assert EqualsIgnoringCase("Feb", MonthNames[1]);
    ParseWageMonthOf("Feb", "2024", YearMonth(2024, 2));
  }

  lemma LowerCaseFebWageMonth()
    ensures ParseWageMonth("feb-2024") == Success(YearMonth(2024, 2))
  {
    ParseIntYear();
    assert "feb-2024" == "feb" + "-" + "2024";
    assert '-' !in "feb" && '-' !in "2024";
    assert EqualsIgnoringCase("feb", MonthNames[1]);
    ParseWageMonthOf("feb", "2024", YearMonth(2024, 2));
  }

  lemma AprWageMonth()
    ensures ParseWageMonth("Apr-2024") == Success(YearMonth(2024, 4))
  {
    ParseIntYear();
    assert "Apr-2024" == "Apr" + "-" + "2024";
    assert '-' !in "Apr" && '-' !in "2024";
    assert EqualsIgnoringCase("Apr", MonthNames[3]);
    ParseWageMonthOf("Apr", "2024", YearMonth(2024, 4));
  }

  /** A confirmed February 2024 row is downloaded. */
  lemma ExampleInRange()
    ensures Classify(EcrRow("T1", "Feb-2024", "Payment Confirmed", PdfSaved), Jan2024, Mar2024) == InRange(YearMonth(2024, 2))
  {
    StripStatuses();
    FebWageMonth();
  }

  /** The month word may be in any capitalisation. */
  lemma ExampleLowerCaseMonth()
    ensures Classify(EcrRow("T4", "feb-2024", "Payment Confirmed", NoPdfLink), Jan2024, Mar2024) == InRange(YearMonth(2024, 2))
  {
    StripStatuses();
    LowerCaseFebWageMonth();
  }

  /** A confirmed February 2024 statement with a PDF link. */
  const ConfirmedRow := EcrRow("T1", "Feb-2024", "Payment Confirmed", PdfSaved)

  /** The same statement shown twice on a one-page listing is saved twice to
      the same path `T1_Feb-2024.pdf`, so the list of PDFs to archive names
      that path twice: the archive loop as written then raises on the second
      `zf.write`, because the first pass removed the file. */
  lemma DuplicateRowListsFileTwice()
    ensures PaginationEnds([EcrPage([ConfirmedRow, ConfirmedRow], false)])
    ensures PagesHarvest(Visited([EcrPage([ConfirmedRow, ConfirmedRow], false)]), Jan2024, Mar2024).files
      == [PdfPath(ConfirmedRow), PdfPath(ConfirmedRow)]
    ensures !Distinct(PagesHarvest(Visited([EcrPage([ConfirmedRow, ConfirmedRow], false)]), Jan2024, Mar2024).files)
  {
    OneLastPage(EcrPage([ConfirmedRow, ConfirmedRow], false), Jan2024, Mar2024);
    TwiceRowsHarvest();
    var files := [PdfPath(ConfirmedRow), PdfPath(ConfirmedRow)];
    assert files[0] == files[1];
  }

  /** A listing of one page whose "Next" is hidden: the loop reads that page
      only. */
  lemma OneLastPage(page: EcrPage, s: Date, e: Date)
    requires !page.nextVisible
    ensures PaginationEnds([page])
    ensures PagesHarvest(Visited([page]), s, e) == RowsHarvest(page.rows, s, e)
  {
    var pages := [page];
    assert !pages[0].nextVisible;
    assert Visited(pages) == pages;
    assert pages[..0] == [];
    var h := RowsHarvest(page.rows, s, e);
    assert Then(Harvest([], []), h) == h;
  }

  lemma TwiceRowsHarvest()
    ensures RowsHarvest([ConfirmedRow, ConfirmedRow], Jan2024, Mar2024).files == [PdfPath(ConfirmedRow), PdfPath(ConfirmedRow)]
  {
    var rows := [ConfirmedRow, ConfirmedRow];
    ConfirmedRowHarvest();
    assert rows[..1] == [ConfirmedRow] && [ConfirmedRow][..0] == [];
    assert RowsHarvest([ConfirmedRow], Jan2024, Mar2024).files == [PdfPath(ConfirmedRow)];
  }

  lemma ConfirmedRowHarvest()
    ensures RowHarvest(ConfirmedRow, Jan2024, Mar2024).files == [PdfPath(ConfirmedRow)]
  {
    ExampleInRange();
  }

  /** A pending row is skipped before its wage month is read. */
  lemma ExampleNotConfirmed()
    ensures Classify(EcrRow("T2", "Feb-2024", "Pending", PdfSaved), Jan2024, Mar2024) == NotConfirmed
  {
    StripStatuses();
  }

  /** An April 2024 row is confirmed (its status is stripped) but out of
      range. */
  lemma ExampleOutOfRange()
    ensures Classify(EcrRow("T3", "Apr-2024", " Payment Confirmed ", PdfSaved), Jan2024, Mar2024) == OutOfRange(YearMonth(2024, 4))
  {
    StripStatuses();
    AprWageMonth();
  }

  /** The wage month cell is not stripped: a leading space makes the month
      word unknown, the `datetime` constructor raises, and the row is
      skipped. */
  lemma ExampleLeadingSpace()
    ensures Classify(EcrRow("T5", " Feb-2024", "Payment Confirmed", PdfSaved), Jan2024, Mar2024) == Unparsable(DateRejected(MonthOutOfRange))
  {
    StripStatuses();
    LeadingSpaceWageMonth();
  }

  /** A year padded with the separator U+001C is not an integer to `int()`,
      although `strip()` would remove it: the row is skipped. */
  lemma ExampleSeparatorYear()
    ensures Classify(EcrRow("T6", "Feb-\U{1C}2024", "Payment Confirmed", PdfSaved), Jan2024, Mar2024) == Unparsable(YearNotInteger)
  {
    StripStatuses();
    SeparatorWageMonth();
  }

  lemma SeparatorWageMonth()
    ensures ParseWageMonth("Feb-\U{1C}2024") == Failure(YearNotInteger)
  {
    ParseIntSeparator();
    assert "Feb-\U{1C}2024" == "Feb" + "-" + "\U{1C}2024";
    assert '-' !in "Feb" && '-' !in "\U{1C}2024";
    ParseWageMonthSplits("Feb", "\U{1C}2024");
  }

  lemma LeadingSpaceWageMonth()
    ensures ParseWageMonth(" Feb-2024") == Failure(DateRejected(MonthOutOfRange))
  {
    ParseIntYear();
    assert " Feb-2024" == " Feb" + "-" + "2024";
    assert '-' !in " Feb" && '-' !in "2024";
    SplitInTwo(" Feb-2024", '-', " Feb", "2024");
    LeadingSpaceMonth();
  }

  lemma LeadingSpaceMonth()
    ensures GetMonthIndex(" Feb") == -1
  {
    assert forall i | 0 <= i < |MonthNames| :: |MonthNames[i]| == 3;
    GetMonthIndexSentinel(" Feb");
  }
}
