/**
 One-shot execution of generated tools (code_tools.py): calls are recorded before they run, requests
 move through a persisted status, and a crash at any point leaves evidence instead of a second run.
 Digests and JSON encodings are taken to be injective, so stored arguments are compared directly.
*/
module CodeTools {
  import opened Wrappers
  import opened Json
  import opened OwnerUpdates

  const MAX_RESULT_BYTES := 8192
  const BATCH := 4

  type Id = nat
  type Tool = string

  datatype CallStatus = CallRunning | CallDone | CallFailed
  datatype Call = Call(tool: Tool, args: Utf8, status: CallStatus, result: Option<Utf8>)

  datatype Status = Queued | Running | Ready | Done | Failed
  datatype Request = Request(tool: Tool, args: Utf8, conversation: nat, status: Status, result: Option<Utf8>)

  datatype Key = ToolDone(id: Id) | ToolFailed(id: Id)

  /** How a stored result is shown: the text itself for a JSON string, the encoding otherwise. */
  datatype Config = Config(notify: bool, render: Utf8 -> Utf8)

  const FAILURE_TEXT := "De lokale functie kon geen bevestigd resultaat leveren. De blokkade staat in Werk."
  const UNKNOWN_TEXT :=
    "De functie-uitkomst is nog onbekend; ik herhaal de uitvoering niet automatisch. De opdracht staat in Werk."

  function DoneText(cfg: Config, result: Utf8): Utf8 {
    "Resultaat: " + cfg.render(result)
  }

  /** Decoding a JSON string never makes it longer. */
  ghost predicate Sensible(cfg: Config) {
    forall s :: |cfg.render(s)| <= |s|
  }

  /** Where the holder of the worker lock is with the row it took. */
  datatype Stage =
    | Inspecting
    | Invoking
    | Executing
    | Awaiting
    | Returned(value: Utf8)
    | Raised
    | Failing(notice: Utf8)
    | FailureNotice(notice: Utf8)
    | Saved(saved: Utf8)
    | Notifying(saved: Utf8)
    | Closing

  datatype Work = Work(id: Id, stage: Stage)

  /** What an executor is started with. */
  datatype Invocation = Invocation(tool: Tool, args: Utf8)

  /** An invocation made outside the worker, between its first and its last transaction. */
  datatype Direct = Direct(what: Invocation, started: bool)

  /**
   `runs` is the history of executor starts and `ran` what the last start under an id was given; nothing reads
   them. `direct` holds invocations made outside the worker.
  */
  datatype System = System(
    requests: map<Id, Request>, calls: map<Id, Call>, log: Log<Key>,
    work: Option<Work>, direct: map<Id, Direct>, runs: seq<Id>, ran: map<Id, Invocation>)

  const INITIAL: System := System(map[], map[], Log([], {}), None, map[], [], map[])

  /** `process_pending` around the call; each step is at most one transaction or one outside effect. */
  datatype RowStep =
    | Take(id: Id) | Inspect | FailRequest | MarkReady | Notify(clock: int) | Close | Crash

  /** `invoke`, made by the worker. */
  datatype CallStep =
    | Invoke | Start | Return(value: Utf8) | Raise | SaveCall | FailCall

  /** New requests, and `invoke` called by someone else. */
  datatype OtherStep =
    | Enqueue(id: Id, tool: Tool, args: Utf8, conversation: nat)
    | DirectInvoke(id: Id, tool: Tool, args: Utf8)
    | DirectStart(id: Id)
    | DirectReturn(id: Id, value: Option<Utf8>)
    | DirectCrash(id: Id)

  datatype Step = OnRow(row: RowStep) | OnCall(call: CallStep) | Other(other: OtherStep)

  predicate At(sys: System, stage: Stage) {
    sys.work.Some? && sys.work.value.stage == stage && sys.work.value.id in sys.requests
  }

  function Moved(sys: System, stage: Stage): System
    requires sys.work.Some?
  {
    sys.(work := Some(sys.work.value.(stage := stage)))
  }

  function SetStatus(sys: System, id: Id, status: Status): System
    requires id in sys.requests
  {
    sys.(requests := sys.requests[id := sys.requests[id].(status := status)])
  }

  function TakeStep(sys: System, id: Id): System {
    if sys.work.Some? || id !in sys.requests then sys
    else match sys.requests[id].status
      case Running => sys.(work := Some(Work(id, Inspecting)))
      case Ready => if sys.requests[id].result.Some?
                    then sys.(work := Some(Work(id, Saved(sys.requests[id].result.value)))) else sys
      case Queued => SetStatus(sys, id, Running).(work := Some(Work(id, Invoking)))
      case _ => sys
  }

  /** A row left running by a dead worker: only a saved call result may be reused. */
  function InspectStep(sys: System): System {
    if !At(sys, Inspecting) then sys
    else
      var id := sys.work.value.id;
      if id in sys.calls && sys.calls[id].status == CallDone && sys.calls[id].result.Some?
      then Moved(sys, Saved(sys.calls[id].result.value)) else Moved(sys, Failing(UNKNOWN_TEXT))
  }

  /** The opening transaction of `invoke`, made by the worker. */
  function InvokeStep(sys: System): System {
    if !At(sys, Invoking) then sys
    else
      var id := sys.work.value.id;
      var req := sys.requests[id];
      if id !in sys.calls then
        Moved(sys.(calls := sys.calls[id := Call(req.tool, req.args, CallRunning, None)]), Executing)
      else
        var call := sys.calls[id];
        if call.tool == req.tool && call.args == req.args && call.status == CallDone && call.result.Some?
        then Moved(sys, Saved(call.result.value)) else Moved(sys, Failing(FAILURE_TEXT))
  }

  function ReturnStep(sys: System, value: Utf8): System {
    if !At(sys, Awaiting) then sys
    else if |value| > MAX_RESULT_BYTES then Moved(sys, Raised)
    else Moved(sys, Returned(value))
  }

  function SaveCallStep(sys: System): System {
    if sys.work.Some? && sys.work.value.stage.Returned? && sys.work.value.id in sys.calls then
      var id, value := sys.work.value.id, sys.work.value.stage.value;
      Moved(sys.(calls := sys.calls[id := sys.calls[id].(status := CallDone, result := Some(value))]), Saved(value))
    else sys
  }

  function FailCallStep(sys: System): System {
    if sys.work.Some? && sys.work.value.stage == Raised && sys.work.value.id in sys.calls then
      var id := sys.work.value.id;
      Moved(sys.(calls := sys.calls[id := sys.calls[id].(status := CallFailed)]), Failing(FAILURE_TEXT))
    else sys
  }

  function FailRequestStep(sys: System): System {
    if sys.work.Some? && sys.work.value.stage.Failing? && sys.work.value.id in sys.requests then
      Moved(SetStatus(sys, sys.work.value.id, Failed), FailureNotice(sys.work.value.stage.notice))
    else sys
  }

  function MarkReadyStep(sys: System): System {
    if sys.work.Some? && sys.work.value.stage.Saved? && sys.work.value.id in sys.requests then
      var id, saved := sys.work.value.id, sys.work.value.stage.saved;
      Moved(sys.(requests := sys.requests[id := sys.requests[id].(status := Ready, result := Some(saved))]), Notifying(saved))
    else sys
  }

  /** Telling the owner; a text that cannot be published raises, which ends the worker. */
  function NotifyStep(cfg: Config, sys: System, clock: int): System {
    if sys.work.None? || sys.work.value.id !in sys.requests then sys
    else
      var id, stage := sys.work.value.id, sys.work.value.stage;
      var conversation := sys.requests[id].conversation;
      if stage.Notifying? then
        if !cfg.notify then Moved(sys, Closing)
        else if !Publishable(DoneText(cfg, stage.saved)) then sys.(work := None)
        else Moved(sys.(log := Publish(sys.log, ToolDone(id), conversation, DoneText(cfg, stage.saved), clock)), Closing)
      else if stage.FailureNotice? then
        sys.(log := if cfg.notify then Publish(sys.log, ToolFailed(id), conversation, stage.notice, clock) else sys.log,
             work := None)
      else sys
  }

  function RaiseStep(sys: System): System {
    if At(sys, Awaiting) || At(sys, Executing) then Moved(sys, Raised)
    else if At(sys, Invoking) then Moved(sys, Failing(FAILURE_TEXT)) else sys
  }

  function ExecRow(cfg: Config, sys: System, step: RowStep): System {
    match step
    case Take(id) => TakeStep(sys, id)
    case Inspect => InspectStep(sys)
    case FailRequest => FailRequestStep(sys)
    case MarkReady => MarkReadyStep(sys)
    case Notify(clock) => NotifyStep(cfg, sys, clock)
    case Close => if At(sys, Closing) then SetStatus(sys, sys.work.value.id, Done).(work := None) else sys
    case Crash => sys.(work := None)
  }

  function ExecCall(sys: System, step: CallStep): System {
    match step
    case Invoke => InvokeStep(sys)
    case Start =>
      if At(sys, Executing) then
        var id := sys.work.value.id;
        var req := sys.requests[id];
        Moved(sys, Awaiting).(runs := sys.runs + [id], ran := sys.ran[id := Invocation(req.tool, req.args)])
      else sys
    case Return(value) => ReturnStep(sys, value)
    case Raise => RaiseStep(sys)
    case SaveCall => SaveCallStep(sys)
    case FailCall => FailCallStep(sys)
  }

  function ExecOther(sys: System, step: OtherStep): System {
    match step
    case Enqueue(id, tool, args, conversation) =>
      if id in sys.requests then sys
      else sys.(requests := sys.requests[id := Request(tool, args, conversation, Queued, None)])
    case DirectInvoke(id, tool, args) =>
      if id in sys.calls then sys
      else sys.(calls := sys.calls[id := Call(tool, args, CallRunning, None)], direct := sys.direct[id := Direct(Invocation(tool, args), false)])
    case DirectStart(id) =>
      if id in sys.direct && !sys.direct[id].started then
        sys.(direct := sys.direct[id := sys.direct[id].(started := true)], runs := sys.runs + [id],
             ran := sys.ran[id := sys.direct[id].what])
      else sys
    case DirectReturn(id, value) =>
      if id in sys.direct && id in sys.calls && (value.Some? ==> sys.direct[id].started && |value.value| <= MAX_RESULT_BYTES) then
        sys.(direct := sys.direct - {id},
             calls := sys.calls[id := sys.calls[id].(status := if value.Some? then CallDone else CallFailed, result := value)])
      else sys
    case DirectCrash(id) => sys.(direct := sys.direct - {id})
  }

  function Exec(cfg: Config, sys: System, step: Step): System {
    match step
    case OnRow(row) => ExecRow(cfg, sys, row)
    case OnCall(call) => ExecCall(sys, call)
    case Other(other) => ExecOther(sys, other)
  }

  function Run(cfg: Config, sys: System, steps: seq<Step>): System {
    if steps == [] then sys else Exec(cfg, Run(cfg, sys, steps[..|steps| - 1]), steps[|steps| - 1])
  }

  /** One more step of a run. */
  lemma Extend(cfg: Config, start: System, steps: seq<Step>, step: Step) returns (longer: seq<Step>)
    ensures longer == steps + [step] && Run(cfg, start, longer) == Exec(cfg, Run(cfg, start, steps), step)
  {
    longer := steps + [step];
    assert longer[..|longer| - 1] == steps;
  }

  lemma {:induction false} RunConcat(cfg: Config, start: System, a: seq<Step>, b: seq<Step>)
    ensures Run(cfg, start, a + b) == Run(cfg, Run(cfg, start, a), b)
    decreases |b|
  {
    if b == [] {
      assert a + b == a;
    } else {
      RunConcat(cfg, start, a, b[..|b| - 1]);
      assert (a + b)[..|a + b| - 1] == a + b[..|b| - 1];
    }
  }

  // ----- invariant, one request id at a time -----

  function Runs(runs: seq<Id>, id: Id): nat {
    multiset(runs)[id]
  }

  /** The call under this id was recorded, ran once, and has this result. */
  ghost predicate SavedCall(sys: System, id: Id, result: Option<Utf8>) {
    && id in sys.calls && sys.calls[id].status == CallDone
    && result.Some? && sys.calls[id].result == result && |result.value| <= MAX_RESULT_BYTES && Runs(sys.runs, id) == 1
  }

  /** The worker's own call, recorded and without an outcome. */
  ghost predicate CallOpen(sys: System, id: Id) {
    id in sys.calls && sys.calls[id].status == CallRunning && id !in sys.direct
  }

  /** A call runs at most once, and not before it was recorded; a recorded result came from that run. */
  ghost predicate CallOk(sys: System, id: Id) {
    && Runs(sys.runs, id) <= 1
    && (id in sys.runs ==> id in sys.calls)
    && (id in sys.calls && sys.calls[id].status == CallDone ==> SavedCall(sys, id, sys.calls[id].result))
    && (id in sys.direct ==>
          && id in sys.calls && sys.calls[id].status == CallRunning
          && Runs(sys.runs, id) == (if sys.direct[id].started then 1 else 0))
  }

  /** What the worker's stage says about its row and its call. */
  ghost predicate WorkOk(sys: System) {
    sys.work.Some? ==>
      var id := sys.work.value.id;
      && id in sys.requests
      && var status, result := sys.requests[id].status, sys.requests[id].result;
         match sys.work.value.stage
         case Inspecting => status == Running
         case Invoking => status == Running
         case Executing => status == Running && CallOpen(sys, id) && Runs(sys.runs, id) == 0
         case Awaiting => status == Running && CallOpen(sys, id) && Runs(sys.runs, id) == 1
         case Returned(value) =>
           status == Running && CallOpen(sys, id) && Runs(sys.runs, id) == 1 && |value| <= MAX_RESULT_BYTES
         case Raised => status == Running && CallOpen(sys, id)
         case Failing(_) => status == Running
         case FailureNotice(_) => status == Failed
         case Saved(saved) => (status == Running || status == Ready) && SavedCall(sys, id, Some(saved))
         case Notifying(saved) => status == Ready && result == Some(saved) && SavedCall(sys, id, result)
         case Closing => status == Ready && SavedCall(sys, id, result)
  }

  /** A ready or done request carries the recorded result of the one run made under its id. */
  ghost predicate RequestOk(cfg: Config, sys: System, id: Id) {
    && (id in sys.requests && (sys.requests[id].status == Ready || sys.requests[id].status == Done) ==>
          SavedCall(sys, id, sys.requests[id].result))
    && (cfg.notify && id in sys.requests && (sys.requests[id].status == Done || sys.work == Some(Work(id, Closing))) ==>
          ToolDone(id) in sys.log.published)
  }

  /** The text of every result message derives from a recorded call result. */
  ghost predicate TextsOk(cfg: Config, sys: System) {
    forall message <- sys.log.messages | message.key.Some? && message.key.value.ToolDone? ::
      var id := message.key.value.id;
      && id in sys.calls && sys.calls[id].status == CallDone && sys.calls[id].result.Some?
      && message.content == DoneText(cfg, sys.calls[id].result.value)
  }

  ghost predicate Inv(cfg: Config, sys: System) {
    && WorkOk(sys) && TextsOk(cfg, sys) && LogOk(sys.log)
    && forall id :: CallOk(sys, id) && RequestOk(cfg, sys, id)
  }

  lemma RunAppended(runs: seq<Id>, id: Id)
    ensures forall other :: Runs(runs + [id], other) == Runs(runs, other) + if other == id then 1 else 0
  {
  }

  lemma RowKeepsWork(cfg: Config, sys: System, step: RowStep)
    requires WorkOk(sys) && forall id :: CallOk(sys, id) && RequestOk(cfg, sys, id)
    ensures WorkOk(ExecRow(cfg, sys, step))
  {
    if step.Take? {
      assert RequestOk(cfg, sys, step.id);
    } else if sys.work.Some? {
      assert CallOk(sys, sys.work.value.id);
    }
  }

  /** Around the call nothing touches the calls. */
  lemma RowLeavesCalls(cfg: Config, sys: System, step: RowStep)
    ensures var sys' := ExecRow(cfg, sys, step);
      sys'.calls == sys.calls && sys'.runs == sys.runs && sys'.ran == sys.ran && sys'.direct == sys.direct
  {
  }

  lemma RowKeepsCall(cfg: Config, sys: System, step: RowStep, id: Id)
    requires CallOk(sys, id)
    ensures CallOk(ExecRow(cfg, sys, step), id)
  {
    RowLeavesCalls(cfg, sys, step);
  }

  lemma NotifyKeepsRequest(cfg: Config, sys: System, step: RowStep, id: Id)
    requires step.Notify? && RequestOk(cfg, sys, id)
    ensures RequestOk(cfg, ExecRow(cfg, sys, step), id)
  {
    var sys' := ExecRow(cfg, sys, step);
    assert sys'.requests == sys.requests && sys'.calls == sys.calls && sys'.runs == sys.runs;
    assert sys.log.published <= sys'.log.published;
  }

  lemma RowKeepsRequest(cfg: Config, sys: System, step: RowStep, id: Id)
    requires WorkOk(sys) && RequestOk(cfg, sys, id)
    ensures RequestOk(cfg, ExecRow(cfg, sys, step), id)
  {
    if step.Notify? {
      NotifyKeepsRequest(cfg, sys, step, id);
    } else {
      var sys' := ExecRow(cfg, sys, step);
      assert sys'.calls == sys.calls && sys'.runs == sys.runs && sys'.log == sys.log;
      if id in sys'.requests && sys.work.Some? && sys.work.value.id != id {
        assert sys'.requests[id] == sys.requests[id];
      }
    }
  }

  lemma NotifyKeepsLog(cfg: Config, sys: System, clock: int)
    requires WorkOk(sys) && TextsOk(cfg, sys) && LogOk(sys.log)
    ensures TextsOk(cfg, NotifyStep(cfg, sys, clock)) && LogOk(NotifyStep(cfg, sys, clock).log)
  {
    if sys.work.Some? && sys.work.value.id in sys.requests {
      var id, stage := sys.work.value.id, sys.work.value.stage;
      var conversation := sys.requests[id].conversation;
      if stage.Notifying? {
        PublishKeeps(sys.log, ToolDone(id), conversation, DoneText(cfg, stage.saved), clock);
      } else if stage.FailureNotice? {
        PublishKeeps(sys.log, ToolFailed(id), conversation, stage.notice, clock);
      }
    }
  }

  lemma RowKeepsLog(cfg: Config, sys: System, step: RowStep)
    requires WorkOk(sys) && TextsOk(cfg, sys) && LogOk(sys.log)
    ensures TextsOk(cfg, ExecRow(cfg, sys, step)) && LogOk(ExecRow(cfg, sys, step).log)
  {
    if step.Notify? {
      NotifyKeepsLog(cfg, sys, step.clock);
    } else {
      RowLeavesCalls(cfg, sys, step);
      assert ExecRow(cfg, sys, step).log == sys.log;
    }
  }

  lemma CallKeepsWork(sys: System, step: CallStep)
    requires WorkOk(sys) && forall id :: CallOk(sys, id)
    ensures WorkOk(ExecCall(sys, step))
  {
    if sys.work.Some? {
      assert CallOk(sys, sys.work.value.id);
      if step.Start? && At(sys, Executing) {
        RunAppended(sys.runs, sys.work.value.id);
      }
    }
  }

  lemma CallKeepsRequest(cfg: Config, sys: System, step: CallStep, id: Id)
    requires WorkOk(sys) && RequestOk(cfg, sys, id)
    ensures RequestOk(cfg, ExecCall(sys, step), id)
  {
    if step.Start? && At(sys, Executing) {
      RunAppended(sys.runs, sys.work.value.id);
    }
  }

  lemma StartKeepsCall(sys: System, id: Id)
    requires WorkOk(sys) && CallOk(sys, id)
    ensures CallOk(ExecCall(sys, Start), id)
  {
    if At(sys, Executing) {
      RunAppended(sys.runs, sys.work.value.id);
    }
  }

  lemma CallKeepsCall(sys: System, step: CallStep, id: Id)
    requires WorkOk(sys) && CallOk(sys, id)
    ensures CallOk(ExecCall(sys, step), id)
  {
    if step.Start? {
      StartKeepsCall(sys, id);
    } else {
      assert ExecCall(sys, step).runs == sys.runs && ExecCall(sys, step).direct == sys.direct;
    }
  }

  lemma CallKeepsLog(cfg: Config, sys: System, step: CallStep)
    requires WorkOk(sys) && TextsOk(cfg, sys) && LogOk(sys.log)
    ensures TextsOk(cfg, ExecCall(sys, step)) && LogOk(ExecCall(sys, step).log)
  {
  }

  lemma OtherKeeps(cfg: Config, sys: System, step: OtherStep)
    requires Inv(cfg, sys)
    ensures WorkOk(ExecOther(sys, step)) && TextsOk(cfg, ExecOther(sys, step)) && LogOk(ExecOther(sys, step).log)
  {
    if step.DirectStart? {
      RunAppended(sys.runs, step.id);
      assert CallOk(sys, step.id);
    } else if step.DirectReturn? {
      assert CallOk(sys, step.id);
    }
  }

  lemma OtherKeepsCalls(cfg: Config, sys: System, step: OtherStep, id: Id)
    requires WorkOk(sys) && CallOk(sys, id) && RequestOk(cfg, sys, id)
    ensures CallOk(ExecOther(sys, step), id) && RequestOk(cfg, ExecOther(sys, step), id)
  {
    if step.DirectStart? {
      RunAppended(sys.runs, step.id);
    }
  }

  lemma ExecKeeps(cfg: Config, sys: System, step: Step)
    requires Inv(cfg, sys)
    ensures Inv(cfg, Exec(cfg, sys, step))
  {
    match step
    case OnRow(row) =>
      RowKeepsWork(cfg, sys, row);
      RowKeepsLog(cfg, sys, row);
      forall id ensures CallOk(Exec(cfg, sys, step), id) && RequestOk(cfg, Exec(cfg, sys, step), id) {
        assert CallOk(sys, id) && RequestOk(cfg, sys, id);
        RowKeepsCall(cfg, sys, row, id);
        RowKeepsRequest(cfg, sys, row, id);
      }
    case OnCall(call) =>
      CallKeepsWork(sys, call);
      CallKeepsLog(cfg, sys, call);
      forall id ensures CallOk(Exec(cfg, sys, step), id) && RequestOk(cfg, Exec(cfg, sys, step), id) {
        assert CallOk(sys, id) && RequestOk(cfg, sys, id);
        CallKeepsCall(sys, call, id);
        CallKeepsRequest(cfg, sys, call, id);
      }
    case Other(other) =>
      OtherKeeps(cfg, sys, other);
      forall id ensures CallOk(Exec(cfg, sys, step), id) && RequestOk(cfg, Exec(cfg, sys, step), id) {
        assert CallOk(sys, id) && RequestOk(cfg, sys, id);
        OtherKeepsCalls(cfg, sys, other, id);
      }
  }

  lemma {:induction false} RunKeeps(cfg: Config, sys: System, steps: seq<Step>)
    requires Inv(cfg, sys)
    ensures Inv(cfg, Run(cfg, sys, steps))
  {
    if steps != [] {
      RunKeeps(cfg, sys, steps[..|steps| - 1]);
      ExecKeeps(cfg, Run(cfg, sys, steps[..|steps| - 1]), steps[|steps| - 1]);
    }
  }

  // ----- theorems about every run -----

  ghost predicate Reachable(cfg: Config, sys: System) {
    exists steps :: sys == Run(cfg, INITIAL, steps)
  }

  lemma ReachableInv(cfg: Config, sys: System)
    requires Reachable(cfg, sys)
    ensures Inv(cfg, sys)
  {
    var steps :| sys == Run(cfg, INITIAL, steps);
    assert Inv(cfg, INITIAL);
    RunKeeps(cfg, INITIAL, steps);
  }

  /** The executor runs at most once per request id, over any crashes, restarts and direct invocations. */
  lemma RunsAtMostOnce(cfg: Config, sys: System, id: Id)
    requires Reachable(cfg, sys)
    ensures Runs(sys.runs, id) <= 1
  {
    ReachableInv(cfg, sys);
    assert CallOk(sys, id);
  }

  /** A done request ran exactly once and shows the recorded result; its owner message exists exactly once. */
  lemma DoneMeansRanAndReported(cfg: Config, sys: System, id: Id)
    requires Reachable(cfg, sys) && id in sys.requests && sys.requests[id].status == Done
    ensures Runs(sys.runs, id) == 1
    ensures id in sys.calls && sys.calls[id].status == CallDone
    ensures sys.requests[id].result.Some? && sys.requests[id].result == sys.calls[id].result
    ensures cfg.notify ==> Copies(sys.log.messages, ToolDone(id)) == 1
    ensures forall message <- sys.log.messages | message.key == Some(ToolDone(id)) ::
      message.content == "Resultaat: " + cfg.render(sys.requests[id].result.value)
  {
    ReachableInv(cfg, sys);
    assert CallOk(sys, id) && RequestOk(cfg, sys, id);
  }

  /** Success is never reported for a call that has no recorded result, and never twice. */
  lemma ReportsAreBacked(cfg: Config, sys: System, id: Id)
    requires Reachable(cfg, sys)
    ensures Copies(sys.log.messages, ToolDone(id)) <= 1
    ensures Chronological(sys.log.messages)
    ensures forall message <- sys.log.messages | message.key == Some(ToolDone(id)) ::
      && Runs(sys.runs, id) == 1 && id in sys.calls && sys.calls[id].result.Some?
      && message.content == DoneText(cfg, sys.calls[id].result.value)
  {
    ReachableInv(cfg, sys);
    assert CallOk(sys, id);
  }

  /** What later states keep of a request: its identity, a final status, and a recorded result. */
  ghost predicate Keeps(a: System, b: System, id: Id) {
    && (id in a.requests ==>
          && id in b.requests && b.requests[id].tool == a.requests[id].tool && b.requests[id].args == a.requests[id].args
          && (a.requests[id].status == Done || a.requests[id].status == Failed ==> b.requests[id] == a.requests[id]))
    && (id in a.calls && a.calls[id].status == CallDone ==> id in b.calls && b.calls[id] == a.calls[id])
  }

  lemma RowSettles(cfg: Config, sys: System, step: RowStep, id: Id)
    requires WorkOk(sys)
    ensures Keeps(sys, ExecRow(cfg, sys, step), id)
  {
  }

  lemma CallSettles(sys: System, step: CallStep, id: Id)
    requires WorkOk(sys)
    ensures Keeps(sys, ExecCall(sys, step), id)
  {
  }

  lemma {:induction false} RunSettles(cfg: Config, sys: System, steps: seq<Step>, id: Id)
    requires Inv(cfg, sys)
    ensures Keeps(sys, Run(cfg, sys, steps), id)
  {
    if steps != [] {
      var init := Run(cfg, sys, steps[..|steps| - 1]);
      RunSettles(cfg, sys, steps[..|steps| - 1], id);
      RunKeeps(cfg, sys, steps[..|steps| - 1]);
      assert CallOk(init, id);
      match steps[|steps| - 1]
      case OnRow(row) => RowSettles(cfg, init, row, id);
      case OnCall(call) => CallSettles(init, call, id);
      case Other(other) =>
    }
  }

  /** Done and failed requests never change again, and a recorded call result is permanent. */
  lemma FinalRequestsStay(cfg: Config, sys: System, steps: seq<Step>, id: Id)
    requires Reachable(cfg, sys)
    ensures Keeps(sys, Run(cfg, sys, steps), id)
  {
    ReachableInv(cfg, sys);
    RunSettles(cfg, sys, steps, id);
  }
}
