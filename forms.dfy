/** The window's three task buttons: how each turns the text it reads into a
    command for the worker, or into no command at all when its input is
    rejected (the "Input Error" message box). */
module Forms {
  import opened Wrappers
  import opened Seqs
  import opened Text
  import opened Months
  import opened Dates
  import opened Events

  /** `[f.strip() for f in fields if f.strip()]`. */
  function KeepNonBlank(fields: seq<string>): (r: seq<string>)
    ensures |r| <= |fields|
  {
    if fields == [] then []
    else KeepNonBlank(fields[..|fields| - 1]) + Kept(fields[|fields| - 1])
  }

  /** What the comprehension keeps of one field. */
  function Kept(field: string): (r: seq<string>)
    ensures |r| <= 1
  {
    var t := Strip(field);
    if t != [] then [t] else []
  }

  /** The UAN lists of both forms: split on commas, strip each field, drop the
      blank ones. */
  function ParseUanList(text: string): seq<string> {
    KeepNonBlank(Split(text, ','))
  }

  lemma {:induction false} KeepNonBlankAppend(xs: seq<string>, ys: seq<string>)
    ensures KeepNonBlank(xs + ys) == KeepNonBlank(xs) + KeepNonBlank(ys)
  {
    if ys != [] {
      AppendInit(xs, ys);
      KeepNonBlankAppend(xs, ys[..|ys| - 1]);
      ConcatAssoc(KeepNonBlank(xs), KeepNonBlank(ys[..|ys| - 1]), Kept(ys[|ys| - 1]));
    } else {
      AppendNil(xs);
    }
  }

  lemma {:induction false} SplitAround(a: string, b: string, sep: char)
    ensures Split(a + [sep] + b, sep) == Split(a, sep) + Split(b, sep)
  {
    if a == [] {
      assert a + [sep] + b == [sep] + b;
    } else {
      assert (a + [sep] + b)[1..] == a[1..] + [sep] + b;
      SplitAround(a[1..], b, sep);
    }
  }

  /** Every item the comprehension keeps is non-empty and already stripped. */
  lemma {:induction false} KeepNonBlankClean(fields: seq<string>)
    ensures forall x | x in KeepNonBlank(fields) :: x != [] && Strip(x) == x
  {
    if fields != [] {
      KeepNonBlankClean(fields[..|fields| - 1]);
      StripIdempotent(fields[|fields| - 1]);
    }
  }

  /** Every item of a parsed list is non-empty, has no surrounding whitespace
      and contains no comma. */
  lemma {:induction false} KeepNonBlankItems(fields: seq<string>)
    requires forall f | f in fields :: ',' !in f
    ensures forall x | x in KeepNonBlank(fields) :: x != [] && Strip(x) == x && ',' !in x
  {
    if fields != [] {
      var f := fields[|fields| - 1];
      assert forall g | g in fields[..|fields| - 1] :: g in fields;
      KeepNonBlankItems(fields[..|fields| - 1]);
      StripIdempotent(f);
      if ',' in Strip(f) {
        StripKeepsCharacters(f, ',');
      }
    }
  }

  lemma ParseUanListItems(text: string)
    ensures forall x | x in ParseUanList(text) :: x != [] && Strip(x) == x && ',' !in x
  {
    SplitParts(text, ',');
    KeepNonBlankItems(Split(text, ','));
  }

  /** A UAN is in the list exactly when some comma-separated field strips to it. */
  lemma {:induction false} KeepNonBlankMembers(fields: seq<string>, x: string)
    ensures x in KeepNonBlank(fields) <==> x != [] && exists f | f in fields :: Strip(f) == x
  {
    if fields != [] {
      var init := fields[..|fields| - 1];
      KeepNonBlankMembers(init, x);
      assert forall f :: f in fields <==> f in init || f == fields[|fields| - 1];
    }
  }

  /** Fields before a comma come before fields after it: parsing keeps the
      order of the input. */
  lemma ParseUanListAround(a: string, b: string)
    ensures ParseUanList(a + "," + b) == ParseUanList(a) + ParseUanList(b)
  {
    SplitAround(a, b, ',');
    KeepNonBlankAppend(Split(a, ','), Split(b, ','));
  }

  /** Parsing undoes `", ".join`-style writing: a list of trimmed, non-empty,
      comma-free UANs written with commas between them reads back unchanged. */
  lemma ParseUanListOfJoin(uans: seq<string>)
    requires |uans| > 0
    requires forall u | u in uans :: u != [] && Strip(u) == u && ',' !in u
    ensures ParseUanList(Join(uans, ',')) == uans
  {
    SplitJoin(uans, ',');
    KeepNonBlankOfClean(uans);
  }

  lemma {:induction false} KeepNonBlankOfClean(xs: seq<string>)
    requires forall u | u in xs :: u != [] && Strip(u) == u
    ensures KeepNonBlank(xs) == xs
  {
    if xs != [] {
      var init, last := xs[..|xs| - 1], xs[|xs| - 1];
      assert forall u | u in init :: u in xs;
      KeepNonBlankOfClean(init);
      assert Kept(last) == [last] by {
        assert last in xs;
      }
      InitLast(xs);
    }
  }

  /** `uan_button_command`: a `run_uan` command, unless the parsed list or the
      output path is empty. */
  function UanButtonCommand(text: string, outputFile: string): (r: Option<Command>)
    ensures r.Some? <==> ParseUanList(text) != [] && outputFile != []
    ensures r.Some? ==> r.value.RunUan? && r.value.uans == ParseUanList(text) && r.value.outputFile == outputFile
    ensures r.Some? ==> forall u | u in r.value.uans :: u != [] && Strip(u) == u && ',' !in u
  {
    ParseUanListItems(text);
    var uans := ParseUanList(text);
    if uans == [] || outputFile == [] then None else Some(RunUan(uans, outputFile))
  }

  /** `msd_button_command`: a `run_msd` command, unless the parsed list is empty. */
  function MsdButtonCommand(text: string): (r: Option<Command>)
    ensures r.Some? <==> ParseUanList(text) != []
    ensures r.Some? ==> r.value.RunMsd? && r.value.uans == ParseUanList(text)
    ensures r.Some? ==> forall u | u in r.value.uans :: u != [] && Strip(u) == u && ',' !in u
  {
    ParseUanListItems(text);
    var uans := ParseUanList(text);
    if uans == [] then None else Some(RunMsd(uans))
  }

  /** One end of the ECR range: `datetime(int(year_text), month_map[month_name], 1)`,
      None where that raises `ValueError` or `KeyError`. */
  function RangeEnd(yearText: string, monthName: string): (r: Option<YearMonth>)
    ensures r.Some? ==> IsValid(r.value)
  {
    match ParseInt(yearText)
    case None => None
    case Some(year) =>
      if monthName !in MonthMap then None
      else
        match MakeDate(year, MonthMap[monthName])
        case Failure(_) => None
        case Success(d) => Some(d)
  }

  /** `ecr_button_command`: a `run_ecr` command when both ends parse; the range
      is not checked to be in order. */
  function EcrButtonCommand(startYear: string, startMonth: string, endYear: string, endMonth: string): (r: Option<Command>)
    ensures r.Some? <==> RangeEnd(startYear, startMonth).Some? && RangeEnd(endYear, endMonth).Some?
    ensures r.Some? ==> r.value.RunEcr?
  {
    match (RangeEnd(startYear, startMonth), RangeEnd(endYear, endMonth))
    case (Some(s), Some(e)) => Some(RunEcr(s, e))
    case _ => None
  }

  /** One end of the range is accepted exactly when the year text is an
      integer in 1..9999 and the month is a menu abbreviation; the month number
      is the abbreviation's position in the menu. */
  lemma RangeEndAccepts(yearText: string, monthName: string, d: YearMonth)
    ensures RangeEnd(yearText, monthName) == Some(d) <==>
      && ParseInt(yearText) == Some(d.year)
      && MinYear <= d.year <= MaxYear
      && 1 <= d.month <= 12 && MonthNames[d.month - 1] == monthName
  {
    MonthMapKeys();
    if monthName in MonthNames {
      var i :| 0 <= i < |MonthNames| && MonthNames[i] == monthName;
      MonthMapAt(i);
      MonthNamesDistinct();
    } else {
      assert monthName !in MonthMap;
    }
  }

  /** A year entry padded with the separator U+001C is refused, as `int()`
      refuses it, so the form shows "Input Error" and puts no command. */
  lemma SeparatorYearRefused(endYear: string, endMonth: string)
    ensures RangeEnd("\U{1C}2024", "Feb") == None
    ensures EcrButtonCommand("\U{1C}2024", "Feb", endYear, endMonth) == None
  {
    ParseIntSeparator();
  }

  /** An ECR command is produced exactly when both ends are accepted, and it
      then carries those two months. */
  lemma EcrButtonCommandAccepts(startYear: string, startMonth: string, endYear: string, endMonth: string, s: Date, e: Date)
    ensures EcrButtonCommand(startYear, startMonth, endYear, endMonth) == Some(RunEcr(s, e)) <==>
      RangeEnd(startYear, startMonth) == Some(s) && RangeEnd(endYear, endMonth) == Some(e)
  {
  }
}
