/** `playwright_worker`: launch the browser, then take commands from the
    command queue one at a time, run each, and put its results on the result
    queue, until a shutdown command arrives. */
module Worker {
  import opened Wrappers
  import opened Seqs
  import opened Events
  import opened Portal
  import UanTask
  import EcrTask
  import MsdTask

  /** One command taken from the queue, together with what the browser does
      while it runs and the names of the files already in the spreadsheet
      directory of the service-detail task. */
  datatype Step = Step(command: Command, browser: Browser, staleSpreadsheets: set<string>)

  /** What a command's handler leaves: its events, and the message of an
      exception that escapes it. */
  datatype Handled = Handled(events: seq<Event>, raised: Option<string>)

  const ReadyEvent := StatusUpdate("Ready. Please log in to begin.")
  const ShuttingDownEvent := StatusUpdate("Shutting down...")

  function LaunchError(message: string): Event {
    Error("Could not launch browser: " + message)
  }

  function NavigateError(message: string): Event {
    Error("Could not navigate: " + message)
  }

  function UnexpectedError(message: string): Event {
    Error("An unexpected error occurred in the worker thread: " + message)
  }

  /** The pagination loops a command reaches stop within the pages given. */
  predicate Feasible(step: Step) {
    match step.command
    case RunEcr(_, _) =>
      step.browser.ecr.navigation.Done? ==> EcrTask.PaginationEnds(step.browser.ecr.pages)
    case RunMsd(uans) =>
      step.browser.serviceDetails.navigation.Done? ==> MsdTask.RunEnds(uans, step.browser.serviceDetails.search)
    case _ => true
  }

  /** The branch of the dispatch for one command other than shutdown. */
  function Dispatch(step: Step): Handled
    requires Feasible(step) && !step.command.Shutdown?
  {
    var b := step.browser;
    match step.command
    case OpenLoginPage =>
      Handled(if b.landing.Done? then [BrowserOpened] else [NavigateError(b.landing.message)], None)
    case VerifyLogin => Handled([LoginVerified(b.memberLinkShown)], None)
    case RunUan(uans, outputFile) => Handled(UanTask.UanEvents(uans, outputFile, b.profile), None)
    case RunEcr(s, e) => Handled(EcrTask.EcrEvents(s, e, b.ecr), None)
    case RunMsd(uans) =>
      var r := MsdTask.MsdOutcome(uans, b.serviceDetails, step.staleSpreadsheets);
      Handled(r.events, r.raised)
    case Other(_) => Handled([], None)
  }

  /** The events of one command: its own, then the worker's report of an
      exception that escaped it. */
  function StepEvents(h: Handled): seq<Event> {
    h.events + if h.raised.Some? then [UnexpectedError(h.raised.value)] else []
  }

  /** Every command before the first shutdown is feasible. */
  predicate ServeFeasible(steps: seq<Step>) {
    steps != [] && !steps[0].command.Shutdown? ==> Feasible(steps[0]) && ServeFeasible(steps[1..])
  }

  /** The events of the command loop over the commands taken so far: it stops
      at the first shutdown, and a command's escaped exception does not stop
      it. */
  function Serve(steps: seq<Step>): seq<Event>
    requires ServeFeasible(steps)
  {
    if steps == [] then []
    else if steps[0].command.Shutdown? then [ShuttingDownEvent]
    else StepEvents(Dispatch(steps[0])) + Serve(steps[1..])
  }

  predicate HasShutdown(steps: seq<Step>) {
    exists i | 0 <= i < |steps| :: steps[i].command.Shutdown?
  }

  function WorkerEvents(launch: Outcome, steps: seq<Step>): seq<Event>
    requires ServeFeasible(steps)
  {
    match launch
    case Raised(m) => [LaunchError(m)]
    case Done => [ReadyEvent] + Serve(steps)
  }

  /** One command's branch of the dispatch, running the task it names. */
  method Handle(step: Step) returns (events: seq<Event>, raised: Option<string>)
    requires Feasible(step) && !step.command.Shutdown?
    ensures Handled(events, raised) == Dispatch(step)
  {
    var b := step.browser;
    raised := None;
    match step.command {
      case OpenLoginPage =>
        if b.landing.Done? {
          events := [BrowserOpened];
        } else {
          events := [NavigateError(b.landing.message)];
        }
      case VerifyLogin =>
        events := [LoginVerified(b.memberLinkShown)];
      case RunUan(uans, outputFile) =>
        var table, written;
        events, table, written := UanTask.RunUanExtraction(uans, outputFile, b.profile);
      case RunEcr(s, e) =>
        var downloaded, zipFile, members;
        events, downloaded, zipFile, members := EcrTask.RunEcrExtraction(s, e, b.ecr);
      case RunMsd(uans) =>
        var generated, members;
        events, generated, members, raised := MsdTask.RunMsdExtraction(uans, b.serviceDetails, step.staleSpreadsheets);
      case Other(_) =>
        events := [];
    }
  }

  /** One command under the `except Exception` guard of the loop: an
      exception that escapes the handler is reported and the loop goes on. */
  method HandleGuarded(step: Step) returns (events: seq<Event>)
    requires Feasible(step) && !step.command.Shutdown?
    ensures events == StepEvents(Dispatch(step))
  {
    var raised;
    events, raised := Handle(step);
    if raised.Some? {
      events := events + [UnexpectedError(raised.value)];
    }
  }

  /** The `while True` loop: take a command, stop at a shutdown, otherwise
      dispatch it. `shutdown` says whether the loop ended. */
  method ServeCommands(steps: seq<Step>) returns (events: seq<Event>, shutdown: bool)
    requires ServeFeasible(steps)
    ensures events == Serve(steps)
    ensures shutdown <==> HasShutdown(steps)
  {
    events, shutdown := [], false;
    var queue := steps;
    while queue != []
      invariant ServeFeasible(queue)
      invariant Serve(steps) == events + Serve(queue)
      invariant HasShutdown(steps) <==> HasShutdown(queue)
      decreases |queue|
    {
      var step := queue[0];
      if step.command.Shutdown? {
        ServeShutdown(steps, queue, events);
        events := events + [ShuttingDownEvent];
        shutdown := true;
        return;
      }
      ServeAdvance(steps, queue, events);
      var stepEvents := HandleGuarded(step);
      events := events + stepEvents;
      queue := queue[1..];
    }
  }

  /** The loop invariant after a command that is not a shutdown. */
  lemma ServeAdvance(steps: seq<Step>, queue: seq<Step>, events: seq<Event>)
    requires ServeFeasible(steps) && queue != [] && !queue[0].command.Shutdown? && ServeFeasible(queue)
    requires Serve(steps) == events + Serve(queue)
    requires HasShutdown(steps) <==> HasShutdown(queue)
    ensures Feasible(queue[0]) && ServeFeasible(queue[1..])
    ensures Serve(steps) == (events + StepEvents(Dispatch(queue[0]))) + Serve(queue[1..])
    ensures HasShutdown(steps) <==> HasShutdown(queue[1..])
  {
    ServeStep(queue);
    ConcatAssoc(events, StepEvents(Dispatch(queue[0])), Serve(queue[1..]));
    HasShutdownTail(queue);
  }

  /** The loop's results at a shutdown. */
  lemma ServeShutdown(steps: seq<Step>, queue: seq<Step>, events: seq<Event>)
    requires ServeFeasible(steps) && queue != [] && queue[0].command.Shutdown? && ServeFeasible(queue)
    requires Serve(steps) == events + Serve(queue)
    requires HasShutdown(steps) <==> HasShutdown(queue)
    ensures Serve(steps) == events + [ShuttingDownEvent]
    ensures HasShutdown(steps)
  {
    assert queue[0].command.Shutdown?;
  }

  lemma ServeStep(steps: seq<Step>)
    requires steps != [] && ServeFeasible(steps)
    ensures steps[0].command.Shutdown? ==> Serve(steps) == [ShuttingDownEvent]
    ensures !steps[0].command.Shutdown? ==>
      && Feasible(steps[0]) && ServeFeasible(steps[1..])
      && Serve(steps) == StepEvents(Dispatch(steps[0])) + Serve(steps[1..])
  {
  }

  lemma HasShutdownTail(steps: seq<Step>)
    requires steps != [] && !steps[0].command.Shutdown?
    ensures HasShutdown(steps) <==> HasShutdown(steps[1..])
  {
    if HasShutdown(steps) {
      var i :| 0 <= i < |steps| && steps[i].command.Shutdown?;
      assert steps[1..][i - 1] == steps[i];
    }
    if HasShutdown(steps[1..]) {
      var i :| 0 <= i < |steps[1..]| && steps[1..][i].command.Shutdown?;
      assert steps[i + 1] == steps[1..][i];
    }
  }

  /** The worker. `browserClosed` says whether the loop ended and the
      browser was closed; when the launch fails the worker returns at once,
      and while no shutdown has arrived it goes on waiting for commands. */
  method PlaywrightWorker(launch: Outcome, steps: seq<Step>) returns (events: seq<Event>, browserClosed: bool)
    requires ServeFeasible(steps)
    ensures events == WorkerEvents(launch, steps)
    ensures browserClosed <==> launch.Done? && HasShutdown(steps)
  {
    if launch.Raised? {
      events, browserClosed := [LaunchError(launch.message)], false;
      return;
    }
    var served;
    served, browserClosed := ServeCommands(steps);
    events := [ReadyEvent] + served;
  }

  // ---------------------------------------------------------------------------
  // Properties

  /** Commands queued after a shutdown are never run. */
  lemma {:induction false} IgnoresAfterShutdown(steps: seq<Step>, later: seq<Step>)
    requires ServeFeasible(steps) && HasShutdown(steps)
    ensures ServeFeasible(steps + later)
    ensures Serve(steps + later) == Serve(steps)
  {
    assert (steps + later)[0] == steps[0];
    if !steps[0].command.Shutdown? {
      var i :| 0 <= i < |steps| && steps[i].command.Shutdown?;
      assert steps[1..][i - 1].command.Shutdown?;
      IgnoresAfterShutdown(steps[1..], later);
      assert (steps + later)[1..] == steps[1..] + later;
    }
  }

  /** Commands are served in the order they were queued: before a shutdown,
      the events of a run of commands are those of its first part followed
      by those of the rest, so an exception in one command does not stop the
      commands after it. */
  lemma {:induction false} ServeAppend(steps: seq<Step>, later: seq<Step>)
    requires ServeFeasible(steps) && ServeFeasible(later) && !HasShutdown(steps)
    ensures ServeFeasible(steps + later)
    ensures Serve(steps + later) == Serve(steps) + Serve(later)
  {
    if steps == [] {
      assert steps + later == later;
    } else {
      var all := steps + later;
      assert all[0] == steps[0] && all[1..] == steps[1..] + later;
      assert !steps[0].command.Shutdown?;
      assert !HasShutdown(steps[1..]) by {
        forall i | 0 <= i < |steps[1..]| ensures !steps[1..][i].command.Shutdown? {
          assert steps[1..][i] == steps[i + 1];
        }
      }
      ServeAppend(steps[1..], later);
      ServeStep(steps);
      ServeStep(all);
      ConcatAssoc(StepEvents(Dispatch(steps[0])), Serve(steps[1..]), Serve(later));
    }
  }

  /** Once the browser is up, the last event of a loop that met a shutdown is
      "Shutting down...". */
  lemma {:induction false} ShutdownIsLast(steps: seq<Step>)
    requires ServeFeasible(steps) && HasShutdown(steps)
    ensures Serve(steps) != [] && Serve(steps)[|Serve(steps)| - 1] == ShuttingDownEvent
  {
    if !steps[0].command.Shutdown? {
      var i :| 0 <= i < |steps| && steps[i].command.Shutdown?;
      assert steps[1..][i - 1].command.Shutdown?;
      ShutdownIsLast(steps[1..]);
    }
  }

  /** A failed launch reports one error and serves nothing. */
  lemma LaunchFailure(m: string, steps: seq<Step>)
    requires ServeFeasible(steps)
    ensures WorkerEvents(Raised(m), steps) == [LaunchError(m)]
  {
  }

  /** Opening the login page reports the outcome of the navigation, and a
      login check reports whether the member menu appeared. */
  lemma LoginCommands(browser: Browser, stale: set<string>)
    ensures StepEvents(Dispatch(Step(OpenLoginPage, browser, stale))) ==
      if browser.landing.Done? then [BrowserOpened] else [NavigateError(browser.landing.message)]
    ensures StepEvents(Dispatch(Step(VerifyLogin, browser, stale))) == [LoginVerified(browser.memberLinkShown)]
  {
  }
}
