/** `run_uan_extraction`: look every UAN up in the Member Profile list and
    write one spreadsheet row per UAN found. */
module UanTask {
  import opened Wrappers
  import opened Seqs
  import opened Text
  import opened Events
  import opened Portal
  import opened Archive

  /** One spreadsheet row; the columns are, in order, UAN, Name, Joining Date,
      Exit Date (the key order of the row dictionary). */
  datatype UanRecord = UanRecord(uan: string, name: string, joiningDate: string, exitDate: string)

  /** The row a lookup yields: the three cell texts stripped. */
  function RecordFor(uan: string, lookup: Lookup): seq<UanRecord> {
    match lookup
    case Found(name, joining, exit) => [UanRecord(uan, Strip(name), Strip(joining), Strip(exit))]
    case LookupRaised(_) => []
  }

  /** `all_uan_data` after the loop has seen `uans`. */
  function Extracted(uans: seq<string>, lookup: string -> Lookup): (r: seq<UanRecord>)
    ensures |r| <= |uans|
  {
    if uans == [] then []
    else Extracted(uans[..|uans| - 1], lookup) + RecordFor(uans[|uans| - 1], lookup(uans[|uans| - 1]))
  }

  function ProgressEvent(uan: string): Event {
    StatusUpdate("Extracting data for UAN: " + uan + "...")
  }

  /** The status updates the loop puts on the queue, one per UAN. */
  function Progress(uans: seq<string>): (r: seq<Event>)
    ensures |r| == |uans| && forall i | 0 <= i < |uans| :: r[i] == ProgressEvent(uans[i])
  {
    if uans == [] then [] else Progress(uans[..|uans| - 1]) + [ProgressEvent(uans[|uans| - 1])]
  }

  const StartEvent := StatusUpdate("Starting UAN extraction...")
  const FinishEvent := StatusUpdate("UAN extraction finished.")
  const NoDataEvent := Info("No UAN data was extracted.")

  function SavedEvent(outputFile: string): Event {
    Info("UAN data extracted and saved to " + outputFile)
  }

  function NavigationError(message: string): Event {
    Error("Could not navigate to 'Member Profile': " + message)
  }

  /** Everything the task puts on the result queue. */
  function UanEvents(uans: seq<string>, outputFile: string, profile: MemberProfile): seq<Event> {
    match profile.navigation
    case Raised(m) => [StartEvent, NavigationError(m)]
    case Done =>
      [StartEvent] + Progress(uans)
      + [if Extracted(uans, profile.lookup) != [] then SavedEvent(outputFile) else NoDataEvent]
      + [FinishEvent]
  }

  /** The task. `table` is what `to_excel` writes to `outputFile`, and `written`
      says whether it is called at all. */
  method RunUanExtraction(uans: seq<string>, outputFile: string, profile: MemberProfile)
    returns (events: seq<Event>, table: seq<UanRecord>, written: bool)
    ensures events == UanEvents(uans, outputFile, profile)
    ensures table == (if profile.navigation.Done? then Extracted(uans, profile.lookup) else [])
    ensures written <==> table != []
  {
    events := [StartEvent];
    table := [];
    written := false;
    if profile.navigation.Raised? {
      events := events + [NavigationError(profile.navigation.message)];
      return;
    }
    var i := 0;
    while i < |uans|
      invariant 0 <= i <= |uans|
      invariant events == [StartEvent] + Progress(uans[..i])
      invariant table == Extracted(uans[..i], profile.lookup)
    {
      var uan := uans[i];
      events := events + [ProgressEvent(uan)];
      match profile.lookup(uan) {
        case Found(name, joining, exit) =>
          table := table + [UanRecord(uan, Strip(name), Strip(joining), Strip(exit))];
        case LookupRaised(_) =>
          // logged, and the UAN is skipped
      }
      assert uans[..i + 1][..i] == uans[..i];
      i := i + 1;
    }
    assert uans[..i] == uans;
    if table != [] {
      written := true;
      events := events + [SavedEvent(outputFile)];
    } else {
      events := events + [NoDataEvent];
    }
    events := events + [FinishEvent];
  }

  // ---------------------------------------------------------------------------
  // What the table holds

  /** The table follows the input order: the rows for a longer list are the
      rows for its first part followed by the rows for the rest. */
  lemma {:induction false} ExtractedAppend(us: seq<string>, vs: seq<string>, lookup: string -> Lookup)
    ensures Extracted(us + vs, lookup) == Extracted(us, lookup) + Extracted(vs, lookup)
  {
    if vs == [] {
      AppendNil(us);
    } else {
      var init, last := vs[..|vs| - 1], vs[|vs| - 1];
      AppendInit(us, vs);
      ExtractedAppend(us, init, lookup);
      ConcatAssoc(Extracted(us, lookup), Extracted(init, lookup), RecordFor(last, lookup(last)));
    }
  }


  /** A UAN has a row exactly when it was requested and its lookup succeeded,
      and the row holds the stripped cell texts of that lookup. */
  lemma {:induction false} ExtractedRows(uans: seq<string>, lookup: string -> Lookup, r: UanRecord)
    ensures r in Extracted(uans, lookup) <==>
      r.uan in uans && lookup(r.uan).Found? && r == RecordFor(r.uan, lookup(r.uan))[0]
  {
    if uans != [] {
      var init := uans[..|uans| - 1];
      ExtractedRows(init, lookup, r);
      assert forall u :: u in uans <==> u in init || u == uans[|uans| - 1];
    }
  }

  /** Every requested UAN whose lookup succeeds gets a row; there are as many
      rows as requested UANs only when every lookup succeeds. */
  lemma {:induction false} ExtractedCount(uans: seq<string>, lookup: string -> Lookup)
    ensures |Extracted(uans, lookup)| == |uans| <==> forall u | u in uans :: lookup(u).Found?
  {
    if uans != [] {
      var init := uans[..|uans| - 1];
      ExtractedCount(init, lookup);
      assert forall u :: u in uans <==> u in init || u == uans[|uans| - 1];
    }
  }

  function UansOf(table: seq<UanRecord>): (r: seq<string>)
    ensures |r| == |table| && forall i | 0 <= i < |table| :: r[i] == table[i].uan
  {
    if table == [] then [] else UansOf(table[..|table| - 1]) + [table[|table| - 1].uan]
  }

  /** The table lists each UAN at most once when the request does. */
  lemma {:induction false} ExtractedDistinct(uans: seq<string>, lookup: string -> Lookup)
    requires Distinct(uans)
    ensures Distinct(UansOf(Extracted(uans, lookup)))
  {
    if uans != [] {
      var init := uans[..|uans| - 1];
      var u := uans[|uans| - 1];
      assert Distinct(init);
      ExtractedDistinct(init, lookup);
      var t := Extracted(init, lookup);
      forall r | r in t ensures r.uan != u {
        ExtractedRows(init, lookup, r);
      }
      var all := Extracted(uans, lookup);
      if lookup(u).Found? {
        assert all == t + [all[|all| - 1]];
        forall i | 0 <= i < |t| ensures all[i].uan != u {
          assert all[i] == t[i] && t[i] in t;
        }
      }
    }
  }

  /** The table is empty exactly when every lookup failed. */
  lemma NoRows(uans: seq<string>, lookup: string -> Lookup)
    ensures Extracted(uans, lookup) == [] <==> forall u | u in uans :: lookup(u).LookupRaised?
  {
    var t := Extracted(uans, lookup);
    if t != [] {
      ExtractedRows(uans, lookup, t[0]);
    } else {
      forall u | u in uans ensures lookup(u).LookupRaised? {
        if lookup(u).Found? {
          ExtractedRows(uans, lookup, RecordFor(u, lookup(u))[0]);
        }
      }
    }
  }

  /** With no successful lookup the task reports "no data" and writes nothing;
      a navigation failure reports one error and nothing else after the start. */
  lemma UanOutcomes(uans: seq<string>, outputFile: string, profile: MemberProfile)
    ensures profile.navigation.Raised? ==>
      UanEvents(uans, outputFile, profile) == [StartEvent, NavigationError(profile.navigation.message)]
    ensures profile.navigation.Done? ==>
      var events := UanEvents(uans, outputFile, profile);
      && |events| == |uans| + 3
      && (forall i | 0 <= i < |uans| :: events[i + 1] == ProgressEvent(uans[i]))
      && (events[|uans| + 1] == NoDataEvent <==> forall u | u in uans :: profile.lookup(u).LookupRaised?)
  {
    if profile.navigation.Done? {
      var t := Extracted(uans, profile.lookup);
      NoRows(uans, profile.lookup);
      assert SavedEvent(outputFile) != NoDataEvent by {
        assert SavedEvent(outputFile).message[0] != NoDataEvent.message[0];
      }
      EventsLayout(Progress(uans), if t != [] then SavedEvent(outputFile) else NoDataEvent);
    }
  }

  lemma EventsLayout(updates: seq<Event>, outcome: Event)
    ensures var events := [StartEvent] + updates + [outcome] + [FinishEvent];
      && |events| == |updates| + 3
      && (forall i | 0 <= i < |updates| :: events[i + 1] == updates[i])
      && events[|updates| + 1] == outcome
  {
  }
}
