/** What the browser shows, in place of the Playwright calls. Each protocol
    reads only the facts it tests: whether a navigation or lookup raised
    `PlaywrightError`, the text of the cells it reads, and the flag its
    pagination loop tests. */
module Portal {
  import opened Wrappers

  /** A browser interaction that either completes or raises `PlaywrightError`
      with a message. */
  datatype Outcome = Done | Raised(message: string)

  // --- Member Profile list (UAN extraction) ---------------------------------

  /** What searching the member list for one UAN yields: the raw text of the
      first row's name, joining-date and exit-date cells, or a raised error. */
  datatype Lookup =
    | Found(nameCell: string, joiningCell: string, exitCell: string)
    | LookupRaised(message: string)

  datatype MemberProfile = MemberProfile(navigation: Outcome, lookup: string -> Lookup)

  // --- ECR Upload list --------------------------------------------------------

  /** The PDF link of a statement row: absent, present and saved, or present
      and the download raised. */
  datatype PdfLink = NoPdfLink | PdfSaved | PdfRaised(message: string)

  /** One `tbRecentClaimList` row: the TRRN cell (column 2), the wage month cell
      (column 3), the status cell (column 8), and the PDF link (column 10). */
  datatype EcrRow = EcrRow(trrnCell: string, wageMonthCell: string, statusCell: string, link: PdfLink)

  /** One page of the list, and whether its "Next" control is visible. */
  datatype EcrPage = EcrPage(rows: seq<EcrRow>, nextVisible: bool)

  datatype EcrListing = EcrListing(navigation: Outcome, pages: seq<EcrPage>)

  // --- Member Service Details grid -------------------------------------------

  /** One page of the `profileService` grid: the cell texts of each `jqgrow`
      row, the text of the right-hand pager, and the `class` attribute of the
      next-page button (None when it has none). */
  datatype MsdPage = MsdPage(rows: seq<seq<string>>, pagerText: string, nextClass: Option<string>)

  /** The result of searching one UAN: the header cell texts and the pages
      reached by following "next", or a raised error while filling the field,
      searching or waiting for the grid. */
  datatype MsdSearch =
    | SearchRaised(message: string)
    | Grid(headerCells: seq<string>, pages: seq<MsdPage>)

  datatype ServiceDetails = ServiceDetails(navigation: Outcome, search: string -> MsdSearch)

  /** Everything the worker's browser page does while one command runs. */
  datatype Browser = Browser(
    landing: Outcome,          // `page.goto` of the portal's entry URL
    memberLinkShown: bool,     // whether `a:has-text("Member")` appears within the timeout
    profile: MemberProfile,
    ecr: EcrListing,
    serviceDetails: ServiceDetails)
}
