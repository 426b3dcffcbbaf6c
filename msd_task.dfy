/** `run_msd_extraction`: search the Member Service Details grid for each UAN,
    collect the rows of every page, save one spreadsheet per UAN that has
    rows, and zip the spreadsheets. */
module MsdTask {
  import opened Wrappers
  import opened Seqs
  import opened Text
  import opened Forms
  import opened Events
  import opened Portal
  import opened Archive

  const ExcelDir := "msd_excel_files"
  const ArchiveName := "Member_Service_Details.zip"

  // ---------------------------------------------------------------------------
  // Headers and rows

  /** The column names: the non-blank stripped header texts (the same
      comprehension as for the UAN fields) without the first of them
      (`[...][1:]`, empty when there is none). The first header cell of the
      grid is the blank row-number column, so what this drops is the first
      header with text. */
  function TrimHeaders(cells: seq<string>): seq<string> {
    var named := KeepNonBlank(cells);
    if named == [] then [] else named[1..]
  }

  /** `cells[1:]`: a row without its row-number cell. The cell texts are not
      stripped. */
  function TrimRow(cells: seq<string>): seq<string> {
    if cells == [] then [] else cells[1..]
  }

  function TrimRows(rows: seq<seq<string>>): (r: seq<seq<string>>)
    ensures |r| == |rows|
  {
    if rows == [] then [] else TrimRows(rows[..|rows| - 1]) + [TrimRow(rows[|rows| - 1])]
  }

  /** The number of columns `pandas` gives a list of rows: the longest row
      (shorter rows are padded). */
  function Width(rows: seq<seq<string>>): nat {
    if rows == [] then 0
    else
      var w := Width(rows[..|rows| - 1]);
      var last := rows[|rows| - 1];
      if |last| > w then |last| else w
  }

  /** The `ValueError` text of `pd.DataFrame(rows, columns=headers)` when the
      header count is not the row width. */
  function FrameError(columns: nat, width: nat): string {
    NatToString(columns) + " columns passed, passed data had " + NatToString(width) + " columns"
  }

  // ---------------------------------------------------------------------------
  // The pagination loop of one UAN

  predicate NextDisabled(page: MsdPage) {
    Contains(if page.nextClass.Some? then page.nextClass.value else "", "ui-state-disabled")
  }

  predicate MemberNotFound(page: MsdPage) {
    Contains(page.pagerText, "Member not found")
  }

  function NextPageEvent(uan: string): Event {
    StatusUpdate("UAN " + uan + ": Found multiple pages, going to next page...")
  }

  /** What the pagination loop produces from some page on: the status updates,
      the rows collected (those already collected first), and whether it
      stopped within the pages given. */
  datatype Walked = Walked(events: seq<Event>, rows: seq<seq<string>>, ended: bool)

  /** The loop from `pages[0]` on, with `collected` gathered before. It stops
      on an empty page before anything is collected when the pager says the
      member is not found, and otherwise after the page whose next button is
      disabled. */
  function Walk(uan: string, pages: seq<MsdPage>, collected: seq<seq<string>>): Walked {
    if pages == [] then Walked([], collected, false)
    else
      var page := pages[0];
      if page.rows == [] && collected == [] && MemberNotFound(page) then Walked([], collected, true)
      else
        var rows := collected + TrimRows(page.rows);
        if NextDisabled(page) then Walked([], rows, true)
        else
          var rest := Walk(uan, pages[1..], rows);
          Walked([NextPageEvent(uan)] + rest.events, rest.rows, rest.ended)
  }

  function After(events: seq<Event>, w: Walked): Walked {
    Walked(events + w.events, w.rows, w.ended)
  }

  /** The `for row in rows` loop of one page: each row without its first
      cell. */
  method TrimPage(rows: seq<seq<string>>) returns (trimmed: seq<seq<string>>)
    ensures trimmed == TrimRows(rows)
  {
    trimmed := [];
    var j := 0;
    while j < |rows|
      invariant 0 <= j <= |rows|
      invariant trimmed == TrimRows(rows[..j])
    {
      assert rows[..j + 1][..j] == rows[..j];
      trimmed := trimmed + [TrimRow(rows[j])];
      j := j + 1;
    }
    assert rows[..j] == rows;
  }

  /** The `while True` pagination loop of one UAN. */
  method CollectRows(uan: string, pages: seq<MsdPage>) returns (events: seq<Event>, rows: seq<seq<string>>)
    requires Walk(uan, pages, []).ended
    ensures Walked(events, rows, true) == Walk(uan, pages, [])
  {
    events, rows := [], [];
    var p := 0;
    while true
      invariant 0 <= p <= |pages|
      invariant Walk(uan, pages, []) == After(events, Walk(uan, pages[p..], rows))
      decreases |pages| - p
    {
      assert p < |pages|;
      var page := pages[p];
      assert pages[p..][0] == page && pages[p..][1..] == pages[p + 1..];
      if page.rows == [] && rows == [] && MemberNotFound(page) {
        break;
      }
      var pageRows := TrimPage(page.rows);
      rows := rows + pageRows;
      if NextDisabled(page) {
        break;
      }
      events := events + [NextPageEvent(uan)];
      p := p + 1;
    }
  }

  // ---------------------------------------------------------------------------
  // One UAN, and the loop over the UANs

  /** How the work on one UAN (or on a run of UANs) ends: it goes on to the
      next, a `PlaywrightError` ends the task through its handler, or another
      exception leaves the task. */
  datatype Stop = Continue | Aborted(message: string) | Escaped(message: string)

  datatype Progress = Progress(events: seq<Event>, files: seq<FilePath>, stop: Stop)

  function ExcelPath(uan: string): FilePath {
    FilePath(ExcelDir, uan + ".xlsx")
  }

  function ProcessingEvent(uan: string): Event {
    StatusUpdate("Processing UAN: " + uan)
  }

  predicate SearchEnds(uan: string, search: MsdSearch) {
    search.Grid? ==> Walk(uan, search.pages, []).ended
  }

  /** The search shows the grid, its pagination loop stops, it collects
      rows, and there are as many column names as the widest row has cells:
      exactly then `to_excel` is reached. */
  predicate SavesRows(uan: string, search: MsdSearch) {
    && search.Grid?
    && Walk(uan, search.pages, []).ended
    && Walk(uan, search.pages, []).rows != []
    && |TrimHeaders(search.headerCells)| == Width(Walk(uan, search.pages, []).rows)
  }

  /** One pass of the `for uan in uans` body. */
  function UanStep(uan: string, search: MsdSearch): (r: Progress)
    requires SearchEnds(uan, search)
    ensures r.files == [] || (r.files == [ExcelPath(uan)] && r.stop.Continue?)
    ensures r.files == [ExcelPath(uan)] <==> SavesRows(uan, search)
    ensures r.stop.Aborted? <==> search.SearchRaised?
  {
    match search
    case SearchRaised(m) => Progress([ProcessingEvent(uan)], [], Aborted(m))
    case Grid(headerCells, pages) => GridStep(uan, headerCells, pages)
  }

  function GridStep(uan: string, headerCells: seq<string>, pages: seq<MsdPage>): (r: Progress)
    requires Walk(uan, pages, []).ended
    ensures r.files == [] || (r.files == [ExcelPath(uan)] && r.stop.Continue?)
    ensures r.files == [ExcelPath(uan)] <==>
      Walk(uan, pages, []).rows != [] && |TrimHeaders(headerCells)| == Width(Walk(uan, pages, []).rows)
    ensures Walk(uan, pages, []).rows == [] ==> r.files == [] && r.stop.Continue?
    ensures r.stop.Escaped? <==>
      Walk(uan, pages, []).rows != [] && |TrimHeaders(headerCells)| != Width(Walk(uan, pages, []).rows)
    ensures !r.stop.Aborted?
  {
      var w := Walk(uan, pages, []);
      var headers := TrimHeaders(headerCells);
      if w.rows == [] then Progress([ProcessingEvent(uan)] + w.events, [], Continue)
      else if |headers| != Width(w.rows) then
        Progress([ProcessingEvent(uan)] + w.events, [], Escaped(FrameError(|headers|, Width(w.rows))))
      else Progress([ProcessingEvent(uan)] + w.events, [ExcelPath(uan)], Continue)
  }

  /** Every pagination loop the task reaches stops within the pages given. */
  predicate RunEnds(uans: seq<string>, search: string -> MsdSearch) {
    uans != [] ==>
      && SearchEnds(uans[0], search(uans[0]))
      && (UanStep(uans[0], search(uans[0])).stop.Continue? ==> RunEnds(uans[1..], search))
  }

  function Glue(a: Progress, b: Progress): Progress {
    Progress(a.events + b.events, a.files + b.files, b.stop)
  }

  /** The UAN loop: the passes up to the first that does not continue. */
  function UansRun(uans: seq<string>, search: string -> MsdSearch): Progress
    requires RunEnds(uans, search)
  {
    if uans == [] then Progress([], [], Continue)
    else
      var head := UanStep(uans[0], search(uans[0]));
      if !head.stop.Continue? then head else Glue(head, UansRun(uans[1..], search))
  }

  // ---------------------------------------------------------------------------
  // The task

  const StartEvent := StatusUpdate("Starting Member Service Detail extraction...")
  const NavigatingEvent := StatusUpdate("Navigating to Member Service Details page...")
  const CompleteEvent := Info("Task complete. All service details saved to " + ArchiveName)
  const NoDataEvent := Info("No data was extracted or saved.")
  const FinishEvent := StatusUpdate("Member Service Detail extraction finished.")

  function ErrorEvent(message: string): Event {
    Error("An error occurred during MSD extraction: " + message)
  }

  function ZippingEvent(count: nat): Event {
    StatusUpdate("Zipping " + NatToString(count) + " Excel files...")
  }

  /** The `OSError` text of `os.rmdir` on a directory that still holds files. */
  const DirNotEmpty := "[Errno 39] Directory not empty: '" + ExcelDir + "'"

  /** What the task leaves: the queue events, the spreadsheets written in
      order, the archive members written, and the message of an exception
      that leaves the task. */
  datatype MsdResult = MsdResult(events: seq<Event>, generated: seq<FilePath>, archived: seq<string>, raised: Option<string>)

  /** The files in the spreadsheet directory other than those the task
      wrote: `stale` names what was there before it started. */
  function Leftover(stale: set<string>, generated: seq<FilePath>): set<string> {
    stale - set f | f in generated :: f.name
  }

  function MsdOutcome(uans: seq<string>, details: ServiceDetails, stale: set<string>): MsdResult
    requires details.navigation.Done? ==> RunEnds(uans, details.search)
  {
    match details.navigation
    case Raised(m) => MsdResult([StartEvent, NavigatingEvent, ErrorEvent(m)], [], [], None)
    case Done =>
      var run := UansRun(uans, details.search);
      var events := [StartEvent, NavigatingEvent] + run.events;
      match run.stop
      case Aborted(m) => MsdResult(events + [ErrorEvent(m)], run.files, [], None)
      case Escaped(m) => MsdResult(events, run.files, [], Some(m))
      case Continue =>
        var last := ArchiveStage(run.files, stale);
        MsdResult(events + last.events, last.generated, last.archived, last.raised)
  }

  /** After a loop that went through every UAN: report that nothing was
      saved, or zip the spreadsheets, remove them and the directory. */
  function ArchiveStage(files: seq<FilePath>, stale: set<string>): MsdResult {
    if files == [] then MsdResult([NoDataEvent, FinishEvent], [], [], None)
    else
      var archived := Names(Dedup(files));
      if Leftover(stale, files) != {} then
        MsdResult([ZippingEvent(|files|)], files, archived, Some(DirNotEmpty))
      else MsdResult([ZippingEvent(|files|), CompleteEvent, FinishEvent], files, archived, None)
  }

  /** One pass of the UAN loop body, up to saving the spreadsheet. */
  method ProcessUan(uan: string, search: MsdSearch) returns (events: seq<Event>, files: seq<FilePath>, stop: Stop)
    requires SearchEnds(uan, search)
    ensures Progress(events, files, stop) == UanStep(uan, search)
  {
    events := [ProcessingEvent(uan)];
    files := [];
    stop := Continue;
    match search {
      case SearchRaised(m) =>
        stop := Aborted(m);
      case Grid(headerCells, pages) =>
        var pageEvents, rows := CollectRows(uan, pages);
        events := events + pageEvents;
        if rows != [] {
          var headers := TrimHeaders(headerCells);
          if |headers| != Width(rows) {
            stop := Escaped(FrameError(|headers|, Width(rows)));
          } else {
            files := [ExcelPath(uan)];
          }
        }
    }
  }

  lemma UansRunUnfold(uans: seq<string>, search: string -> MsdSearch)
    requires uans != [] && RunEnds(uans, search)
    ensures SearchEnds(uans[0], search(uans[0]))
    ensures var head := UanStep(uans[0], search(uans[0]));
      && (head.stop.Continue? ==> RunEnds(uans[1..], search))
      && UansRun(uans, search) == if head.stop.Continue? then Glue(head, UansRun(uans[1..], search)) else head
  {
  }

  /** One more pass of the UAN loop, after `done` for the passes before. */
  lemma UansRunAdvance(todo: seq<string>, search: string -> MsdSearch, done: Progress, total: Progress)
    requires todo != [] && RunEnds(todo, search) && done.stop.Continue?
    requires total == Glue(done, UansRun(todo, search))
    ensures SearchEnds(todo[0], search(todo[0]))
    ensures var head := UanStep(todo[0], search(todo[0]));
      && (head.stop.Continue? ==> RunEnds(todo[1..], search) && total == Glue(Glue(done, head), UansRun(todo[1..], search)))
      && (!head.stop.Continue? ==> total == Glue(done, head))
  {
    UansRunUnfold(todo, search);
    var head := UanStep(todo[0], search(todo[0]));
    if head.stop.Continue? {
      GlueAssoc(done, head, UansRun(todo[1..], search));
    }
  }

  lemma GlueAssoc(a: Progress, b: Progress, c: Progress)
    ensures Glue(a, Glue(b, c)) == Glue(Glue(a, b), c)
  {
    assert a.events + (b.events + c.events) == (a.events + b.events) + c.events;
    assert a.files + (b.files + c.files) == (a.files + b.files) + c.files;
  }

  /** The `for uan in uans` loop, up to the first pass that does not go on. */
  method ProcessUans(uans: seq<string>, search: string -> MsdSearch) returns (events: seq<Event>, files: seq<FilePath>, stop: Stop)
    requires RunEnds(uans, search)
    ensures Progress(events, files, stop) == UansRun(uans, search)
  {
    events, files, stop := [], [], Continue;
    var i := 0;
    while i < |uans|
      invariant 0 <= i <= |uans|
      invariant RunEnds(uans[i..], search)
      invariant UansRun(uans, search) == Glue(Progress(events, files, Continue), UansRun(uans[i..], search))
    {
      UansRunAdvance(uans[i..], search, Progress(events, files, Continue), UansRun(uans, search));
      assert uans[i..][0] == uans[i] && uans[i..][1..] == uans[i + 1..];
      var uanEvents, uanFiles, uanStop := ProcessUan(uans[i], search(uans[i]));
      events, files := events + uanEvents, files + uanFiles;
      if !uanStop.Continue? {
        stop := uanStop;
        return;
      }
      i := i + 1;
    }
    assert uans[i..] == [];
  }

  /** The task. `stale` names the files already in the spreadsheet directory;
      `members` are the archive members written. */
  method RunMsdExtraction(uans: seq<string>, details: ServiceDetails, stale: set<string>)
    returns (events: seq<Event>, generated: seq<FilePath>, members: seq<string>, raised: Option<string>)
    requires details.navigation.Done? ==> RunEnds(uans, details.search)
    ensures MsdResult(events, generated, members, raised) == MsdOutcome(uans, details, stale)
  {
    events := [StartEvent, NavigatingEvent];
    generated := [];
    members := [];
    raised := None;
    if details.navigation.Raised? {
      events := events + [ErrorEvent(details.navigation.message)];
      return;
    }
    var uanEvents, stop;
    uanEvents, generated, stop := ProcessUans(uans, details.search);
    events := events + uanEvents;
    match stop {
      case Aborted(m) =>
        // the `except PlaywrightError` handler reports and returns
        events := events + [ErrorEvent(m)];
        return;
      case Escaped(m) =>
        raised := Some(m);
        return;
      case Continue =>
    }
    var lastEvents;
    lastEvents, members, raised := ArchiveSpreadsheets(generated, stale);
    events := events + lastEvents;
  }

  /** The code after the UAN loop: the "no data" report, or the archive
      written, the spreadsheets removed and the directory removed. */
  method ArchiveSpreadsheets(generated: seq<FilePath>, stale: set<string>)
    returns (events: seq<Event>, members: seq<string>, raised: Option<string>)
    ensures MsdResult(events, generated, members, raised) == ArchiveStage(generated, stale)
  {
    members, raised := [], None;
    if generated == [] {
      events := [NoDataEvent, FinishEvent];
      return;
    }
    events := [ZippingEvent(|generated|)];
    var remaining;
    members, remaining := ZipAndRemove(generated);
    if Leftover(stale, generated) != {} {
      // `os.rmdir` of a directory that still holds files
      raised := Some(DirNotEmpty);
      return;
    }
    events := events + [CompleteEvent, FinishEvent];
  }

  // ---------------------------------------------------------------------------
  // Properties

  /** Each trimmed row is its page row without the row-number cell. */
  lemma {:induction false} TrimRowsAt(rows: seq<seq<string>>, i: nat)
    requires i < |rows|
    ensures TrimRows(rows)[i] == TrimRow(rows[i])
  {
    if i < |rows| - 1 {
      TrimRowsAt(rows[..|rows| - 1], i);
    }
  }

  /** The frame width is the length of the longest row. */
  lemma {:induction false} WidthIsLongest(rows: seq<seq<string>>)
    ensures forall r | r in rows :: |r| <= Width(rows)
    ensures rows != [] ==> exists r | r in rows :: |r| == Width(rows)
  {
    if rows != [] {
      var init := rows[..|rows| - 1];
      WidthIsLongest(init);
      assert forall r | r in rows :: r in init || r == rows[|rows| - 1];
      if init != [] && |rows[|rows| - 1]| <= Width(init) {
        var r :| r in init && |r| == Width(init);
        assert r in rows;
      }
    }
  }

  /** The header quirk: when the grid's first header cell is the blank
      row-number column and every other header has text, the blank one is
      filtered out first and `[1:]` then drops a real header too, so there is
      one column name fewer than the cells a row keeps. */
  lemma {:induction false} HeaderQuirk(cells: seq<string>)
    requires |cells| > 0 && AllSpace(cells[0])
    requires forall k | 1 <= k < |cells| :: !AllSpace(cells[k])
    ensures |KeepNonBlank(cells)| == |cells| - 1
    ensures |TrimHeaders(cells)| == if |cells| > 1 then |cells| - 2 else 0
  {
    if |cells| > 1 {
      var init := cells[..|cells| - 1];
      HeaderQuirk(init);
      StripBlank(cells[|cells| - 1]);
    } else {
      StripBlank(cells[0]);
    }
  }

  /** So every UAN whose grid has such headers and rows with one cell per
      header cell makes `pd.DataFrame` raise, and the task stops there. */
  lemma HeaderQuirkRaises(uan: string, headerCells: seq<string>, pages: seq<MsdPage>)
    requires |headerCells| > 1 && AllSpace(headerCells[0])
    requires forall k | 1 <= k < |headerCells| :: !AllSpace(headerCells[k])
    requires Walk(uan, pages, []).ended && Walk(uan, pages, []).rows != []
    requires forall r | r in Walk(uan, pages, []).rows :: |r| == |headerCells| - 1
    ensures UanStep(uan, Grid(headerCells, pages)).stop.Escaped?
  {
    HeaderQuirk(headerCells);
    var rows := Walk(uan, pages, []).rows;
    WidthIsLongest(rows);
    var r :| r in rows && |r| == Width(rows);
    assert |TrimHeaders(headerCells)| != Width(rows);
  }

  /** The headers the comment at the header line describes keep every named
      header: the filter alone drops the blank row-number header, without
      `[1:]`. For the same grids they are exactly as many as the cells of
      the widest row, so `pd.DataFrame` accepts the rows. */
  lemma IntendedHeadersFit(uan: string, headerCells: seq<string>, pages: seq<MsdPage>)
    requires |headerCells| > 1 && AllSpace(headerCells[0])
    requires forall k | 1 <= k < |headerCells| :: !AllSpace(headerCells[k])
    requires Walk(uan, pages, []).ended && Walk(uan, pages, []).rows != []
    requires forall r | r in Walk(uan, pages, []).rows :: |r| == |headerCells| - 1
    ensures |KeepNonBlank(headerCells)| == Width(Walk(uan, pages, []).rows)
  {
    HeaderQuirk(headerCells);
    var rows := Walk(uan, pages, []).rows;
    WidthIsLongest(rows);
    var r :| r in rows && |r| == Width(rows);
  }

  /** The rows of the first n pages, each without its row-number cell. */
  function Flatten(pages: seq<MsdPage>): seq<seq<string>> {
    if pages == [] then [] else Flatten(pages[..|pages| - 1]) + TrimRows(pages[|pages| - 1].rows)
  }

  lemma {:induction false} FlattenCons(pages: seq<MsdPage>)
    requires pages != []
    ensures Flatten(pages) == TrimRows(pages[0].rows) + Flatten(pages[1..])
  {
    if |pages| > 1 {
      var init := pages[..|pages| - 1];
      FlattenCons(init);
      assert init[1..] == pages[1..][..|pages[1..]| - 1];
    } else {
      assert pages[..0] == [];
    }
  }

  /** The pagination loop reads a prefix of the pages in order, keeps every
      row of every page it reads, and leaves only pages whose next button is
      enabled. */
  lemma {:induction false} WalkReadsPrefix(uan: string, pages: seq<MsdPage>, collected: seq<seq<string>>)
    ensures exists n | 0 <= n <= |pages| ::
      && Walk(uan, pages, collected).rows == collected + Flatten(pages[..n])
      && forall k | 0 <= k < n - 1 :: !NextDisabled(pages[k])
  {
    var w := Walk(uan, pages, collected);
    if pages == [] {
      assert w.rows == collected + Flatten(pages[..0]);
    } else {
      var page := pages[0];
      var rows := collected + TrimRows(page.rows);
      if page.rows == [] && collected == [] && MemberNotFound(page) {
        assert w.rows == collected + Flatten(pages[..0]);
      } else if NextDisabled(page) {
        FlattenOne(pages);
        assert w.rows == collected + Flatten(pages[..1]);
      } else {
        assert w.rows == Walk(uan, pages[1..], rows).rows;
        WalkReadsPrefix(uan, pages[1..], rows);
        var n :| 0 <= n <= |pages[1..]|
          && Walk(uan, pages[1..], rows).rows == rows + Flatten(pages[1..][..n])
          && forall k | 0 <= k < n - 1 :: !NextDisabled(pages[1..][k]);
        FlattenExtend(pages, collected, n);
        assert w.rows == collected + Flatten(pages[..n + 1]);
        EnabledPrefix(pages, n);
      }
    }
  }

  /** The test that ends the pagination loop on `page`, with `before` the
      rows collected from the pages before it: the pager says the member is
      not found while nothing has been collected, or the next button is
      disabled. */
  predicate StopsOn(page: MsdPage, before: seq<seq<string>>) {
    (page.rows == [] && before == [] && MemberNotFound(page)) || NextDisabled(page)
  }

  /** The loop reads pages 0..n-1 and no more: page n - 1 is the first on
      which the stop test holds. */
  predicate ReadsUntil(uan: string, pages: seq<MsdPage>, collected: seq<seq<string>>, n: nat) {
    var w := Walk(uan, pages, collected);
    && 1 <= n <= |pages|
    && (forall k | 0 <= k < n - 1 :: !StopsOn(pages[k], collected + Flatten(pages[..k])))
    && StopsOn(pages[n - 1], collected + Flatten(pages[..n - 1]))
    && w.rows == collected + Flatten(pages[..n])
    && |w.events| == n - 1
  }

  /** Where the pagination loop stops: when it ends within the pages given,
      it ends on the first page whose stop test holds, having collected every
      row of the pages up to that one, and having put one "going to next
      page" update for each page before it. */
  lemma {:induction false} WalkStops(uan: string, pages: seq<MsdPage>, collected: seq<seq<string>>)
    requires Walk(uan, pages, collected).ended
    ensures exists n :: ReadsUntil(uan, pages, collected, n)
  {
    var page := pages[0];
    assert pages[..0] == [];
    if page.rows == [] && collected == [] && MemberNotFound(page) {
      FlattenOne(pages);
      assert ReadsUntil(uan, pages, collected, 1);
    } else if NextDisabled(page) {
      FlattenOne(pages);
      assert ReadsUntil(uan, pages, collected, 1);
    } else {
      var rows := collected + TrimRows(page.rows);
      WalkStops(uan, pages[1..], rows);
      var m :| ReadsUntil(uan, pages[1..], rows, m);
      WalkStopsShift(uan, pages, collected, m);
    }
  }

  /** The step of `WalkStops`: a first page that does not stop the loop in
      front of pages read up to page m. */
  lemma WalkStopsShift(uan: string, pages: seq<MsdPage>, collected: seq<seq<string>>, m: nat)
    requires pages != [] && !StopsOn(pages[0], collected)
    requires ReadsUntil(uan, pages[1..], collected + TrimRows(pages[0].rows), m)
    ensures ReadsUntil(uan, pages, collected, m + 1)
  {
    var rows := collected + TrimRows(pages[0].rows);
    var rest := Walk(uan, pages[1..], rows);
    assert Walk(uan, pages, collected) == Walked([NextPageEvent(uan)] + rest.events, rest.rows, rest.ended);
    assert pages[..0] == [];
    AppendNil(collected);
    forall k | 0 <= k < m ensures !StopsOn(pages[k], collected + Flatten(pages[..k])) {
      if k > 0 {
        FlattenExtend(pages, collected, k - 1);
        assert pages[k] == pages[1..][k - 1];
      }
    }
    FlattenExtend(pages, collected, m - 1);
    assert pages[m] == pages[1..][m - 1];
    FlattenExtend(pages, collected, m);
  }

  /** A first page with "Next" enabled in front of n - 1 more. */
  lemma EnabledPrefix(pages: seq<MsdPage>, n: nat)
    requires n < |pages| && !NextDisabled(pages[0])
    requires forall k | 0 <= k < n - 1 :: !NextDisabled(pages[1..][k])
    ensures forall k | 0 <= k < n :: !NextDisabled(pages[k])
  {
    forall k | 0 <= k < n ensures !NextDisabled(pages[k]) {
      if k > 0 {
        assert pages[k] == pages[1..][k - 1];
      }
    }
  }

  /** The rows of the first page, then those of the next n. */
  lemma FlattenExtend(pages: seq<MsdPage>, collected: seq<seq<string>>, n: nat)
    requires n < |pages|
    ensures (collected + TrimRows(pages[0].rows)) + Flatten(pages[1..][..n]) == collected + Flatten(pages[..n + 1])
  {
    var prefix := pages[..n + 1];
    FlattenCons(prefix);
    assert prefix[1..] == pages[1..][..n];
    ConcatAssoc(collected, TrimRows(pages[0].rows), Flatten(pages[1..][..n]));
  }

  lemma FlattenOne(pages: seq<MsdPage>)
    requires pages != []
    ensures Flatten(pages[..1]) == TrimRows(pages[0].rows)
  {
    assert pages[..1][..0] == [];
  }

  /** The pagination loop puts nothing but "next page" updates on the
      queue. */
  lemma {:induction false} WalkEvents(uan: string, pages: seq<MsdPage>, collected: seq<seq<string>>)
    ensures forall ev | ev in Walk(uan, pages, collected).events :: ev == NextPageEvent(uan)
  {
    if pages != [] {
      WalkEvents(uan, pages[1..], collected + TrimRows(pages[0].rows));
    }
  }

  /** A UAN that is not found reads one page and collects nothing, and so
      writes no spreadsheet. */
  lemma MemberNotFoundWritesNothing(uan: string, headerCells: seq<string>, pages: seq<MsdPage>)
    requires pages != [] && pages[0].rows == [] && MemberNotFound(pages[0])
    ensures Walk(uan, pages, []) == Walked([], [], true)
    ensures UanStep(uan, Grid(headerCells, pages)) == Progress([ProcessingEvent(uan)], [], Continue)
  {
  }

  /** The loop reaches the UAN at position `i`: every pass before it goes
      on to the next UAN. */
  predicate Reaches(uans: seq<string>, search: string -> MsdSearch, i: nat) {
    i == 0 ||
      (&& uans != []
       && SearchEnds(uans[0], search(uans[0]))
       && UanStep(uans[0], search(uans[0])).stop.Continue?
       && Reaches(uans[1..], search, i - 1))
  }

  /** The spreadsheets written are named after the UANs, one per UAN reached
      whose rows were saved. */
  lemma {:induction false} UansRunFiles(uans: seq<string>, search: string -> MsdSearch, f: FilePath)
    requires RunEnds(uans, search)
    ensures f in UansRun(uans, search).files ==> exists u | u in uans :: f == ExcelPath(u)
    ensures f in UansRun(uans, search).files ==> exists i | 0 <= i < |uans| ::
      Reaches(uans, search, i) && SavesRows(uans[i], search(uans[i])) && f == ExcelPath(uans[i])
  {
    if uans != [] {
      UansRunUnfold(uans, search);
      var head := UanStep(uans[0], search(uans[0]));
      if f in head.files {
        assert Reaches(uans, search, 0);
      }
      if head.stop.Continue? {
        UansRunFiles(uans[1..], search, f);
        if f in UansRun(uans[1..], search).files {
          var i :| 0 <= i < |uans| - 1 && Reaches(uans[1..], search, i)
            && SavesRows(uans[1..][i], search(uans[1..][i])) && f == ExcelPath(uans[1..][i]);
          assert uans[1..][i] == uans[i + 1] && uans[i + 1] in uans;
          assert Reaches(uans, search, i + 1);
        }
      }
    }
  }

  /** Conversely, every UAN the loop reaches whose rows are saved has its
      spreadsheet among the files written. */
  lemma {:induction false} UansRunWrites(uans: seq<string>, search: string -> MsdSearch, i: nat)
    requires RunEnds(uans, search) && i < |uans| && Reaches(uans, search, i)
    requires SavesRows(uans[i], search(uans[i]))
    ensures ExcelPath(uans[i]) in UansRun(uans, search).files
    decreases i, 1
  {
    if i == 0 {
      FirstWrites(uans, search);
    } else {
      LaterWrites(uans, search, i);
    }
  }

  lemma {:induction false} LaterWrites(uans: seq<string>, search: string -> MsdSearch, i: nat)
    requires RunEnds(uans, search) && 0 < i < |uans| && Reaches(uans, search, i)
    requires SavesRows(uans[i], search(uans[i]))
    ensures ExcelPath(uans[i]) in UansRun(uans, search).files
    decreases i, 0
  {
    ReachesTail(uans, search, i);
    assert uans[1..][i - 1] == uans[i];
    UansRunWrites(uans[1..], search, i - 1);
  }

  lemma FirstWrites(uans: seq<string>, search: string -> MsdSearch)
    requires RunEnds(uans, search) && uans != [] && SavesRows(uans[0], search(uans[0]))
    ensures ExcelPath(uans[0]) in UansRun(uans, search).files
  {
    UansRunUnfold(uans, search);
    SavedFile(uans[0], search(uans[0]));
  }

  lemma SavedFile(uan: string, search: MsdSearch)
    requires SearchEnds(uan, search) && SavesRows(uan, search)
    ensures ExcelPath(uan) in UanStep(uan, search).files && UanStep(uan, search).stop.Continue?
  {
  }

  /** Past a UAN that goes on, the loop's files are those of the rest. */
  lemma ReachesTail(uans: seq<string>, search: string -> MsdSearch, i: nat)
    requires RunEnds(uans, search) && 0 < i && Reaches(uans, search, i)
    ensures uans != [] && RunEnds(uans[1..], search) && Reaches(uans[1..], search, i - 1)
    ensures forall f | f in UansRun(uans[1..], search).files :: f in UansRun(uans, search).files
  {
    UansRunUnfold(uans, search);
  }

  lemma ExcelPathInjective(u: string, v: string)
    requires ExcelPath(u) == ExcelPath(v)
    ensures u == v
  {
    assert u == ExcelPath(u).name[..|u|];
    assert v == ExcelPath(v).name[..|v|];
  }

  /** Distinct UANs give distinct spreadsheets, so the archive loop as written
      completes and archives every one of them. */
  lemma {:induction false} UansRunDistinct(uans: seq<string>, search: string -> MsdSearch)
    requires RunEnds(uans, search) && Distinct(uans)
    ensures Distinct(UansRun(uans, search).files)
  {
    if uans != [] {
      UansRunUnfold(uans, search);
      var head := UanStep(uans[0], search(uans[0]));
      if head.stop.Continue? {
        assert Distinct(uans[1..]);
        UansRunDistinct(uans[1..], search);
        var tail := UansRun(uans[1..], search).files;
        forall f | f in tail ensures f != ExcelPath(uans[0]) {
          UansRunFiles(uans[1..], search, f);
          var u :| u in uans[1..] && f == ExcelPath(u);
          if f == ExcelPath(uans[0]) {
            ExcelPathInjective(u, uans[0]);
          }
        }
        if head.files != [] {
          DistinctCons(ExcelPath(uans[0]), tail);
        } else {
          assert head.files + tail == tail;
        }
      }
    }
  }

  // ---------------------------------------------------------------------------
  // A UAN listed twice

  /** A grid with one named column and one row on a single page. */
  const OneRowGrid := Grid(["", "#", "Name"], [MsdPage([["1", "A"]], "", Some("ui-state-disabled"))])

  lemma OneRowWalk(uan: string)
    ensures Walk(uan, OneRowGrid.pages, []) == Walked([], [["A"]], true)
  {
    var page := OneRowGrid.pages[0];
    assert "ui-state-disabled"[..|"ui-state-disabled"|] == "ui-state-disabled";
    assert NextDisabled(page);
    assert TrimRows(page.rows) == [["A"]];
  }

  lemma OneRowHeaders()
    ensures TrimHeaders(OneRowGrid.headerCells) == ["Name"]
  {
    assert StripStart("") == "" && StripEnd("") == "";
    assert !IsSpace('#') && !IsSpace('N') && !IsSpace('e');
    assert StripStart("#") == "#" && StripEnd("#") == "#";
    assert StripStart("Name") == "Name" && StripEnd("Name") == "Name";
    assert KeepNonBlank(["", "#"]) == ["#"];
    assert KeepNonBlank(["", "#", "Name"]) == ["#", "Name"];
  }

  lemma OneRowGridSaves(uan: string)
    ensures SearchEnds(uan, OneRowGrid)
    ensures UanStep(uan, OneRowGrid) == Progress([ProcessingEvent(uan)], [ExcelPath(uan)], Continue)
  {
    OneRowWalk(uan);
    OneRowHeaders();
    assert Width([["A"]]) == 1;
  }

  /** A portal where every UAN finds `OneRowGrid`. */
  function OneRowSearch(uan: string): MsdSearch {
    OneRowGrid
  }

  lemma OneRowRun(uan: string)
    ensures RunEnds([uan], OneRowSearch)
    ensures UansRun([uan], OneRowSearch) == Progress([ProcessingEvent(uan)], [ExcelPath(uan)], Continue)
  {
    OneRowGridSaves(uan);
    assert [uan][1..] == [];
  }

  /** The same UAN typed twice ("100,100") whose grid has rows is saved twice
      to the same path, so the list of spreadsheets to archive names that
      path twice: the archive loop as written then raises on the second
      `zf.write`, because the first pass removed the file. */
  lemma DuplicateUanListsFileTwice()
    ensures RunEnds(["100", "100"], OneRowSearch)
    ensures UansRun(["100", "100"], OneRowSearch).files == [ExcelPath("100"), ExcelPath("100")]
    ensures !Distinct(UansRun(["100", "100"], OneRowSearch).files)
  {
    var uans := ["100", "100"];
    OneRowGridSaves("100");
    OneRowRun("100");
    assert uans[1..] == ["100"];
    UansRunUnfold(uans, OneRowSearch);
    var files := UansRun(uans, OneRowSearch).files;
    assert files == [ExcelPath("100"), ExcelPath("100")];
    assert files[0] == files[1];
  }
}
