# EPFO data extractor: a Dafny model of its core

The EPFO data extractor is a desktop tool. It drives a browser through the
employer portal of India's Employees' Provident Fund Organisation and has
three jobs:

- look up UANs (Universal Account Numbers) in the Member Profile list and
  write one spreadsheet for all of them;
- download the ECR (Electronic Challan-cum-Return) statement PDFs whose wage
  month falls in a range, then zip them;
- save the Member Service Details grid of each UAN to its own spreadsheet,
  then zip those.

A window puts commands on a queue. One worker thread takes them one at a
time, runs them against the browser and puts status, info and error events
on a result queue.

This project models that core in Dafny and proves properties about it. The
browser is not modelled as a browser. Each Playwright interaction becomes
data: whether a navigation raised, the cell texts a locator returns, the
"Next" flag a pagination loop tests. These are described in `portal.dfy`.
Each result queue becomes the sequence of events put on it.

Modules:

- `Text`: the parts of Python's `str` that the program uses: `isspace`,
  `strip`, one-character `split`, `join`, `title`, substring `in`, `int()`
  and `str()` of a natural number.
- `Months`: `get_month_index` and the `month_map` of the ECR form.
- `Dates`: first-of-month `datetime` values, their order and their
  `%Y%m` spelling.
- `Forms`: the three buttons that turn text fields into commands, or
  reject them.
- `Archive`: the zip-and-remove loop at the end of the ECR and
  service-detail tasks.
- `UanTask`, `EcrTask`, `MsdTask`: the three tasks.
- `Worker`: the command loop of `playwright_worker`.
- `Seqs`, `Wrappers`: generic sequence lemmas and the `Option`/`Result`
  types.

Every loop of the source is a `method` with a `while` loop. Each method is
proved to produce what a recursive specification function says. The
properties are then proved about those functions.

## Model

| member | source | states |
|---|---|---|
| `Months.IndexOf` | main.py:176 | `list.index`: -1 exactly when the item is absent (the `ValueError` case); otherwise a position holding the item with no earlier occurrence |
| `Months.GetMonthIndex` | main.py:173-178 | the result is -1 or 1..12; it is -1 exactly when the title-cased input is no abbreviation; otherwise the abbreviation at result - 1 is the title-cased input |
| `Months.GetMonthIndexIgnoresCase` | main.py:173-178 | the result is i + 1 exactly when the input equals the i-th abbreviation ignoring case |
| `Months.GetMonthIndexSentinel` | main.py:177-178 | -1 is returned exactly for inputs that match no abbreviation in any capitalisation |
| `Months.MonthNamesDistinct` | main.py:408 | the twelve menu abbreviations are pairwise different |
| `Months.MonthMapKeys` | main.py:409 | `month_map` has exactly the twelve abbreviations as keys |
| `Months.MonthMapAgrees` | main.py:409 | `month_map` and `get_month_index` give every abbreviation the same number, its 1-based position |
| `Dates.MakeDate` | main.py:242 | `datetime(y, m, 1)` succeeds exactly for years 1..9999 and months 1..12; a bad year is reported before a bad month |
| `Dates.NotAfterIsOrdinalOrder` | main.py:243 | comparing two first-of-month datetimes is comparing their month counts |
| `Dates.NotAfterTotalOrder` | main.py:243 | the comparison is reflexive, total, antisymmetric and transitive |
| `Dates.FormatYearMonthRoundTrip` | main.py:260 | `strftime('%Y%m')` gives six digits that read back as the same year and month |
| `Text.StripStartShape` | main.py:375 | `lstrip` keeps a suffix; everything it drops is whitespace; what it keeps does not start with whitespace |
| `Text.StripEndShape` | main.py:375 | `rstrip` keeps a prefix; everything it drops is whitespace; what it keeps does not end with whitespace |
| `Text.StripEnds` | main.py:375 | a stripped string has no whitespace at either end |
| `Text.StripBlank` | main.py:298 | `s.strip()` is empty exactly when `s` is all whitespace |
| `Text.StripIdempotent` | main.py:375 | stripping twice is the same as stripping once |
| `Text.StripKeepsCharacters` | main.py:375 | every character of the stripped text occurs in the input |
| `Text.Split` | main.py:375 | `split` on one character yields one more part than there are separators |
| `Text.SplitParts` | main.py:241 | no part of a split contains the separator |
| `Text.JoinSplit` | main.py:375 | joining the parts of a split with the separator gives back the input |
| `Text.SplitJoin` | main.py:375 | splitting a join of separator-free parts gives back the parts |
| `Text.SplitInTwo` | main.py:241 | the two-name unpacking of a split gets exactly a and b when the text is a, the separator, b, with no separator in a or b |
| `Text.ContainsOccurs` | main.py:319 | the substring test succeeds exactly when the substring occurs at some position |
| `Text.TitleAt` | main.py:176 | `title()` keeps the length; a character after a cased character is lower-cased and any other is upper-cased |
| `Text.TitleMatchesIgnoringCase` | main.py:176 | `s.title()` equals a title-case word exactly when `s` equals that word ignoring case |
| `Text.NatToString` | main.py:341 | `str(n)` of a count is a non-empty run of decimal digits |
| `Text.ParseIntNatToString` | main.py:400 | `int(str(n)) == n` |
| `Text.ParseIntPadded` | main.py:242 | `int()` reads a numeral with whitespace on either side, where its whitespace is the `isspace` set without the separators U+001C..U+001F |
| `Text.ParseIntSeparator` | main.py:242 | U+001C is removed by `strip()` but makes `int()` raise, while the non-ASCII space U+0085 is skipped by both |
| `Forms.KeepNonBlank` | main.py:375 | the comprehension keeps no more items than there are fields |
| `Forms.KeepNonBlankMembers` | main.py:375 | an item is in the list exactly when it is non-empty and some field strips to it |
| `Forms.KeepNonBlankClean` | main.py:298 | every item the comprehension keeps is non-empty and already stripped (the UAN fields and the grid headers alike) |
| `Forms.KeepNonBlankItems` | main.py:375 | every kept item is non-empty, stripped and comma-free when the fields are comma-free |
| `Forms.ParseUanListItems` | main.py:375 | every UAN parsed from the text is non-empty, stripped and comma-free |
| `Forms.KeepNonBlankAppend` | main.py:375 | the comprehension over two runs of fields is the comprehension over the first, then over the second |
| `Forms.SplitAround` | main.py:375 | splitting a, comma, b gives the parts of a followed by the parts of b |
| `Forms.ParseUanListAround` | main.py:375 | the list parsed from a, comma, b is the list from a followed by the list from b (input order is kept) |
| `Forms.KeepNonBlankOfClean` | main.py:375 | fields that are already non-empty and stripped are all kept, unchanged |
| `Forms.ParseUanListOfJoin` | main.py:375 | a list of clean UANs written with commas between them parses back to the same list |
| `Forms.UanButtonCommand` | main.py:374-380 | a `run_uan` command is put exactly when the parsed list and the output path are both non-empty; it carries exactly the parsed list, which holds only clean UANs, and that path |
| `Forms.MsdButtonCommand` | main.py:426-431 | a `run_msd` command is put exactly when the parsed list is non-empty; it carries exactly the parsed list, which holds only clean UANs |
| `Forms.RangeEnd` | main.py:400-401 | an end of the range that is accepted is a valid date |
| `Forms.RangeEndAccepts` | main.py:399-404 | an end is accepted as a date exactly when the year text is an `int` in 1..9999 and the month entry is the menu abbreviation of that month |
| `Forms.EcrButtonCommand` | main.py:398-404 | a `run_ecr` command is put exactly when both ends are accepted; the order of the ends is not checked |
| `Forms.EcrButtonCommandAccepts` | main.py:398-404 | the command carries exactly the two accepted ends |
| `Forms.SeparatorYearRefused` | main.py:398-404 | a start year entered as U+001C followed by 2024 is refused as `int()` refuses it, so no ECR command is put |
| `Archive.Names` | main.py:262 | the member names are the files' names without directories, one per file, in order |
| `Archive.Dedup` | main.py:343-345 | each file once: no repeats, and exactly the files listed |
| `Archive.DedupOfDistinct` | main.py:343-345 | a list without repeats is its own first-mention list |
| `Archive.ZipAndRemoveAsWritten` | main.py:342-345 | the loop as written completes exactly when no path is listed twice. It then archives every name and leaves no file. Otherwise it stops at the first repeated path with `FileNotFoundError`: the files before it are archived and removed, and every other listed file is still on disk |
| `Archive.ZipAndRemove` | main.py:342-345 | the corrected loop archives each listed file once, in order of first mention, and leaves none on disk |
| `Archive.ZipAndRemoveAgrees` | main.py:342-345 | where the loop as written completes, the corrected loop archives the same members |
| `UanTask.Extracted` | main.py:194-207 | the loop appends at most one row per UAN |
| `UanTask.Progress` | main.py:196 | one "Extracting data for UAN" update per UAN, in input order |
| `UanTask.RunUanExtraction` | main.py:180-214 | the events and the table are those the specification gives; a navigation failure ends the task with its error; the spreadsheet is written exactly when the table has rows |
| `UanTask.ExtractedAppend` | main.py:195-207 | the table follows the input order: the rows for a longer list are the rows for its first part, then the rows for the rest |
| `UanTask.ExtractedRows` | main.py:201-206 | a row is in the table exactly when its UAN was requested and looked up, and it then holds that lookup's stripped cells |
| `UanTask.ExtractedCount` | main.py:195-207 | the table has one row per requested UAN exactly when every lookup succeeds |
| `UanTask.ExtractedDistinct` | main.py:195-207 | with a repeat-free request, the table lists each UAN once |
| `UanTask.NoRows` | main.py:209-213 | the table is empty exactly when every lookup raised |
| `UanTask.UanOutcomes` | main.py:184-214 | a navigation failure gives start plus one error. Otherwise there is one update per UAN, in order, then an outcome report that is "no data" exactly when every lookup raised |
| `EcrTask.ParseWageMonth` | main.py:241-242 | a wage month that is read is a valid date |
| `EcrTask.ReadWageMonth` | main.py:242 | `datetime(int(year), get_month_index(month), 1)` that succeeds is a valid date |
| `EcrTask.ParseWageMonthParts` | main.py:241 | the unpacking fails exactly when the cell does not hold exactly one dash |
| `EcrTask.ParseWageMonthOf` | main.py:241-242 | month, dash, year reads as a date exactly when the year text is an `int`, the month word matches an abbreviation in any case, and the date is valid |
| `EcrTask.ClassifySteps` | main.py:239-243 | a row is in range exactly when its stripped status is "Payment Confirmed", its wage month reads, and the month lies between start and end |
| `EcrTask.ClassifyInRange` | main.py:238-243 | the row predicate written out in the cell texts: status, year text, month word in any case, and the range |
| `EcrTask.InvertedRange` | main.py:243 | with start after end no row is in range |
| `EcrTask.FirstHidden` | main.py:255-256 | the loop stops on the first page whose "Next" is hidden |
| `EcrTask.VisitedPages` | main.py:233-257 | the pages read are a prefix of the listing; every one but the last shows "Next" and the last hides it |
| `EcrTask.ProcessRows` | main.py:236-254 | the row loop produces the specified updates and saved files of one page |
| `EcrTask.HarvestPages` | main.py:233-257 | the page loop produces the rows' harvest of every visited page, in order |
| `EcrTask.RunEcrExtraction` | main.py:216-266 | the events, the downloaded files, the archive name (only when some file was saved) and the members are those the specification gives |
| `EcrTask.RowsHarvestFiles` | main.py:244-252 | a file is saved exactly for an in-range row whose link downloads, and it is named after that row |
| `EcrTask.RowsHarvestCounts` | main.py:245-252 | one "Downloading PDF" update per in-range row, and no more files than updates |
| `EcrTask.ZipNameInjective` | main.py:260 | the archive name determines the range it was made for |
| `EcrTask.OneLastPage` | main.py:233-257 | a listing of one page whose "Next" is hidden is read once, that page only |
| `EcrTask.DuplicateRowListsFileTwice` | main.py:244-252 | the same confirmed in-range statement shown twice is saved twice to the same `<trrn>_<wage month>.pdf`, so the list to archive has a repeat |
| `EcrTask.ExampleInRange` | main.py:239-243 | a confirmed Feb-2024 row is in range Jan..Mar 2024 |
| `EcrTask.ExampleLowerCaseMonth` | main.py:242 | "feb-2024" is read as February 2024 |
| `EcrTask.ExampleNotConfirmed` | main.py:240 | a "Pending" row is skipped before its wage month is read |
| `EcrTask.ExampleOutOfRange` | main.py:239-243 | a confirmed Apr-2024 row with a padded status is out of range Jan..Mar 2024 |
| `EcrTask.ExampleLeadingSpace` | main.py:238-242 | a wage month cell with a leading space is not stripped, so its month is rejected and the row is skipped |
| `EcrTask.ExampleSeparatorYear` | main.py:238-254 | a wage month whose year text starts with U+001C is not an integer to `int()`, so the row is skipped |
| `MsdTask.TrimRows` | main.py:311-315 | one trimmed row per grid row |
| `MsdTask.TrimRowsAt` | main.py:314 | each trimmed row is its grid row without the first cell |
| `MsdTask.WidthIsLongest` | main.py:328 | the frame width is the length of the longest row |
| `MsdTask.HeaderQuirk` | main.py:296-298 | with a blank first header and named others, `[1:]` drops a named header too: two fewer names than cells |
| `MsdTask.HeaderQuirkRaises` | main.py:296-328 | with such headers and rows of one cell fewer than the header cells, `pd.DataFrame` raises and the task stops there |
| `MsdTask.IntendedHeadersFit` | main.py:297-298 | for the same grids, the header list without `[1:]` has exactly as many names as the widest row has cells |
| `MsdTask.TrimPage` | main.py:311-315 | the row loop of one page trims every row |
| `MsdTask.CollectRows` | main.py:303-324 | the pagination loop produces the specified updates and rows |
| `MsdTask.WalkReadsPrefix` | main.py:303-324 | the loop reads a prefix of the pages and keeps every row of each, in order; every page before the last read has "Next" enabled |
| `MsdTask.WalkStops` | main.py:303-324 | a loop that ends stops on the first page where the pager says "Member not found" with nothing collected, or "Next" is disabled. It has then collected every row of the pages up to that one, and put one "going to next page" update per page before it |
| `MsdTask.WalkEvents` | main.py:322 | the pagination loop puts nothing but "going to next page" updates |
| `MsdTask.MemberNotFoundWritesNothing` | main.py:306-309 | a UAN that is not found reads one page, collects nothing and saves no spreadsheet |
| `MsdTask.UanStep` | main.py:287-331 | a UAN pass saves its own spreadsheet or none, and only when it goes on. It saves it exactly when the grid shows, rows are collected, and there are as many column names as the widest row has cells. It stops the task through the handler exactly when the search raised |
| `MsdTask.GridStep` | main.py:296-331 | a grid pass saves its own spreadsheet exactly when rows were collected and the column names match their width. With no rows it saves nothing and goes on. With rows and a mismatch `pd.DataFrame` raises. It never ends in the `PlaywrightError` handler |
| `MsdTask.ProcessUan` | main.py:287-331 | one pass of the UAN loop produces the specified events, file and outcome |
| `MsdTask.ProcessUans` | main.py:286-331 | the UAN loop produces the specified passes up to the first that does not go on |
| `MsdTask.UansRunFiles` | main.py:329-331 | every spreadsheet written is that of a UAN the loop reached whose rows were saved |
| `MsdTask.UansRunWrites` | main.py:286-331 | conversely, every UAN the loop reaches whose grid collects rows that match the column names gets its spreadsheet written |
| `MsdTask.ExcelPathInjective` | main.py:329 | different UANs get different spreadsheet paths |
| `MsdTask.UansRunDistinct` | main.py:329-345 | repeat-free UANs give repeat-free spreadsheets, so the archive loop as written completes |
| `MsdTask.ArchiveSpreadsheets` | main.py:338-355 | after the loop: "no data", or the archive of every spreadsheet, with `os.rmdir` raising when other files remain |
| `MsdTask.RunMsdExtraction` | main.py:269-355 | the events, spreadsheets, archive members and escaped error are those the specification gives |
| `MsdTask.DuplicateUanListsFileTwice` | main.py:286-345 | the list "100,100", with a grid whose header row has one cell more than its body rows, saves the same path twice, so the list to archive has a repeat |
| `Worker.Handle` | main.py:50-76 | each command's branch produces the specified events and escaped error |
| `Worker.HandleGuarded` | main.py:43-79 | an exception that escapes a command is reported as an unexpected error after its events |
| `Worker.ServeCommands` | main.py:42-79 | the loop produces the specified events and stops exactly when a shutdown was queued |
| `Worker.PlaywrightWorker` | main.py:24-82 | the worker's events are the specified ones; the browser is closed exactly when it launched and a shutdown arrived |
| `Worker.IgnoresAfterShutdown` | main.py:46-48 | commands queued after a shutdown are never run |
| `Worker.ServeAppend` | main.py:42-79 | before a shutdown, commands are served in queue order, and an escaped exception does not stop the later ones |
| `Worker.ShutdownIsLast` | main.py:46-48 | after a shutdown the last event is "Shutting down..." |
| `Worker.LaunchFailure` | main.py:32-40 | a failed launch reports one error and serves nothing |
| `Worker.LoginCommands` | main.py:50-66 | opening the login page reports the navigation's outcome; verifying reports whether the member menu appeared |

## Left out

- The Tk window is not modelled: `process_result_queue`, `update_ui_state`, `browse_file`, the logout handler that restarts the worker, and message boxes. The button handlers are modelled as functions from field texts to an optional command.
- Threads and the blocking queues are not modelled. The command queue is the finite sequence of commands taken, and the result queue is the sequence of events put.
- Playwright is not modelled. Its calls are replaced by the data they return or the `PlaywrightError` they raise. The data is listed in `portal.dfy`.
- Playwright timeouts and waits are not modelled.
- The log file and the `logging` calls are not modelled.
- The MSD grid's pagination calls (main.py:305-324) are taken not to raise. They are inside the task's `try`, so a `PlaywrightError` there would put "An error occurred during MSD extraction: …" and return before archiving, as a search that raises does in the model.
- The ECR page-level calls (`rows` lookup, "Next" visibility and click, main.py:234-257) are taken not to raise either. No handler surrounds them, so an error there would leave the task through the worker's guard.
- File-system failures are not modelled: `mkdir`, `to_excel`, `save_as`, and `zipfile` on a full disk. The one modelled file-system error is a missing file in the archive loop. The other is `os.rmdir` on a directory that still holds files; the `stale` parameter names what was already in the spreadsheet directory.
- `EcrTask.RunEcrExtraction`: requires that some page of the listing hides "Next". The source loops for as long as the portal shows "Next". The same condition appears in `Worker.Feasible` and `EcrTask.HarvestPages`.
- `MsdTask.CollectRows`: requires that each pagination loop stops within the pages given. The same condition appears in `MsdTask.ProcessUans`, `MsdTask.RunMsdExtraction`, `Worker.Handle` and `Worker.ServeCommands`. The source pages on for as long as the portal lets it.
- `Worker.ServeCommands`: models a finite run of commands. Without a shutdown the source goes on waiting. The model then reports that the loop has not ended and the browser is still open.
- `Text.TitleAt`: `title()` and case-insensitive matching cover ASCII letters only. Other characters are treated as uncased; Python also cases them.
- `Text.ParseIntNatToString`: `int()` reads ASCII digits only. Python also accepts other Unicode decimal digits.
- `Dates.FormatYearMonthRoundTrip`: pads years below 1000 to four digits. What `strftime('%Y')` does for such years depends on the platform.
- `EcrTask.RunEcrExtraction`: archives with the corrected loop. When a PDF path is listed twice, the source's `zf.write` raises `FileNotFoundError` outside the row handler. That error reaches the worker's guard, and neither "zipped" nor "finished" is reported. `Archive.ZipAndRemoveAsWritten` models that loop as written.
- `MsdTask.ArchiveStage`: archives with the corrected loop, so a spreadsheet path listed twice does not raise `FileNotFoundError` (main.py:344). `MsdTask.UansRunDistinct` shows that paths repeat only when a UAN is typed twice.
- `MsdTask.ArchiveSpreadsheets`: same as `MsdTask.ArchiveStage`.
- `MsdTask.RunMsdExtraction`: reports "Task complete" where the source lets `FileNotFoundError` escape to the worker's guard on a repeated spreadsheet path.
- `Worker.Handle`: its `run_ecr` and `run_msd` branches inherit the corrected archive loop, so a repeated path escapes no error.
- `EcrTask.ParseWageMonth`: a year text beyond the range of a C `int` makes `datetime` raise `OverflowError`. The row handler (main.py:253) does not catch it, so the source ends the task at the worker's guard. The model treats such a year like any other rejected year and skips the row; wage-month years are taken to be ordinary years.
- `Forms.RangeEnd`: the same `OverflowError` escapes `ecr_button_command`'s `except (ValueError, KeyError)`. No command is put, as in the model, but no "Input Error" box is shown either.
- `Worker.PlaywrightWorker`: `browserClosed` takes `browser.close()` to succeed. The source calls it after the `with sync_playwright()` block has exited (main.py:81-82), when Playwright has already stopped, so the call probably raises in the worker thread. Nothing is put on the result queue either way.
- Error messages and paths are the POSIX ones: the `[Errno 39] Directory not empty` text of `os.rmdir` and `/` between directory and file name.

## Findings

| source | as written | input that shows it | evidently intended | confidence | as-written member | corrected member |
|---|---|---|---|---|---|---|
| main.py:342-345 | `for f in generated_files: zf.write(f, f.name); os.remove(f)` runs over a list that can name one path twice. The second `zf.write` then finds the file gone and raises `FileNotFoundError`. The ECR loop at line 262 has the same shape. | An ECR listing that shows one confirmed statement twice, with TRRN T1 and wage month Feb-2024, in the range Jan..Mar 2024. Both rows save `ecr_downloads/T1_Feb-2024.pdf`. For the service-detail task: the UAN text "100,100", where the grid's header row has one cell more than its body rows (otherwise the header line below raises first). Both passes save `msd_excel_files/100.xlsx`. | Archive each file once, remove it, and finish the task | not executed | `Archive.ZipAndRemoveAsWritten`, `EcrTask.DuplicateRowListsFileTwice`, `MsdTask.DuplicateUanListsFileTwice` | `Archive.ZipAndRemove` |
| main.py:296-298 | `[h.strip() for h in headers if h.strip()][1:]`. The comment says the first column is a blank row-number column to skip, but the filter has already dropped that blank header, so `[1:]` drops the first named header as well. | A grid whose first header cell is blank and whose other header cells are named, with body rows that have one cell per header cell. After the row-number cell is dropped, each row has one cell more than there are column names, so `pd.DataFrame` raises `ValueError` and the task ends at the worker's guard. | Keep every named header, so the names match the row cells. The task model keeps the header line as written, because the portal's real header layout is not known here. | not executed | `MsdTask.HeaderQuirkRaises` | `MsdTask.IntendedHeadersFit` |
