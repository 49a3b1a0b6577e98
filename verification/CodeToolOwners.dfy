/**
 Whose result a done request shows (code_tools.py). The call under an id may have been recorded by the worker or
 by a direct invocation; a request found running after a crash takes over its result without comparing the two.
*/
module CodeToolOwners {
  import opened Wrappers
  import opened Json
  import opened OwnerUpdates
  import opened CodeTools

  function Asked(req: Request): Invocation {
    Invocation(req.tool, req.args)
  }

  function Recorded(call: Call): Invocation {
    Invocation(call.tool, call.args)
  }

  /** The worker is inside its own call of this id. */
  predicate InCall(work: Option<Work>, id: Id) {
    work.Some? && work.value.id == id
    && (work.value.stage.Executing? || work.value.stage.Awaiting? || work.value.stage.Returned? || work.value.stage.Raised?)
  }

  /** What ran under an id is what its call records. */
  ghost predicate CallTraced(sys: System, id: Id) {
    && (id in sys.ran ==> id in sys.calls && sys.ran[id] == Recorded(sys.calls[id]))
    && (id in sys.runs ==> id in sys.ran)
    && (id in sys.direct ==> id in sys.calls && sys.direct[id].what == Recorded(sys.calls[id]))
  }

  /** The worker's own call records what its row asks for. */
  ghost predicate WorkTraced(sys: System, id: Id) {
    InCall(sys.work, id) ==>
      id in sys.calls && id in sys.requests && Recorded(sys.calls[id]) == Asked(sys.requests[id])
  }

  /** Notices of failure belong to failed requests. */
  ghost predicate NoticeTraced(sys: System, id: Id) {
    ToolFailed(id) in sys.log.published ==> id in sys.requests && sys.requests[id].status == Failed
  }

  ghost predicate Traced(sys: System, id: Id) {
    CallTraced(sys, id) && WorkTraced(sys, id) && NoticeTraced(sys, id)
  }

  /** Around the call the worker never gets into it, and requests ask for what they asked for. */
  lemma RowTracesWork(cfg: Config, sys: System, step: RowStep, id: Id)
    requires WorkTraced(sys, id)
    ensures WorkTraced(ExecRow(cfg, sys, step), id)
  {
    RowLeavesCalls(cfg, sys, step);
    var sys' := ExecRow(cfg, sys, step);
    assert InCall(sys'.work, id) ==> sys' == sys;
  }

  lemma NotifyTraces(cfg: Config, sys: System, clock: int, id: Id)
    requires WorkOk(sys) && NoticeTraced(sys, id)
    ensures NoticeTraced(NotifyStep(cfg, sys, clock), id)
  {
    assert NotifyStep(cfg, sys, clock).requests == sys.requests;
  }

  lemma RowTracesNotice(cfg: Config, sys: System, step: RowStep, id: Id)
    requires WorkOk(sys) && NoticeTraced(sys, id)
    ensures NoticeTraced(ExecRow(cfg, sys, step), id)
  {
    if step.Notify? {
      NotifyTraces(cfg, sys, step.clock, id);
    } else {
      assert ExecRow(cfg, sys, step).log == sys.log;
    }
  }

  lemma RowTraces(cfg: Config, sys: System, step: RowStep, id: Id)
    requires WorkOk(sys) && Traced(sys, id)
    ensures Traced(ExecRow(cfg, sys, step), id)
  {
    RowLeavesCalls(cfg, sys, step);
    RowTracesWork(cfg, sys, step, id);
    RowTracesNotice(cfg, sys, step, id);
  }

  lemma CallLeavesRows(sys: System, step: CallStep)
    ensures var sys' := ExecCall(sys, step);
      sys'.requests == sys.requests && sys'.log == sys.log && sys'.direct == sys.direct
  {
  }

  /** Inside the call nothing is recorded anew but by the opening transaction, and nothing runs but by the start. */
  lemma CallKeepsRecords(sys: System, step: CallStep, id: Id)
    ensures var sys' := ExecCall(sys, step);
      && (id in sys.calls ==> id in sys'.calls && Recorded(sys'.calls[id]) == Recorded(sys.calls[id]))
      && (!step.Start? ==> sys'.runs == sys.runs && sys'.ran == sys.ran)
  {
  }

  lemma StartTraces(sys: System, id: Id)
    requires Traced(sys, id)
    ensures Traced(ExecCall(sys, Start), id)
  {
    if At(sys, Executing) {
      var own := sys.work.value.id;
      assert InCall(sys.work, own);
      RunAppended(sys.runs, own);
    }
  }

  lemma InvokeTraces(sys: System, id: Id)
    requires Traced(sys, id)
    ensures Traced(ExecCall(sys, Invoke), id)
  {
  }

  lemma CallTraces(sys: System, step: CallStep, id: Id)
    requires Traced(sys, id)
    ensures Traced(ExecCall(sys, step), id)
  {
    if step.Start? {
      StartTraces(sys, id);
    } else if step.Invoke? {
      InvokeTraces(sys, id);
    } else {
      CallLeavesRows(sys, step);
      CallKeepsRecords(sys, step, id);
      assert InCall(ExecCall(sys, step).work, id) ==> InCall(sys.work, id);
    }
  }

  lemma OtherTraces(sys: System, step: OtherStep, id: Id)
    requires CallOk(sys, id) && Traced(sys, id)
    ensures Traced(ExecOther(sys, step), id)
  {
    assert ExecOther(sys, step).work == sys.work && ExecOther(sys, step).log == sys.log;
  }

  lemma {:induction false} RunTraces(cfg: Config, sys: System, steps: seq<Step>, id: Id)
    requires Inv(cfg, sys) && Traced(sys, id)
    ensures Traced(Run(cfg, sys, steps), id)
  {
    if steps != [] {
      var before := Run(cfg, sys, steps[..|steps| - 1]);
      RunTraces(cfg, sys, steps[..|steps| - 1], id);
      RunKeeps(cfg, sys, steps[..|steps| - 1]);
      assert CallOk(before, id);
      match steps[|steps| - 1]
      case OnRow(row) => RowTraces(cfg, before, row, id);
      case OnCall(call) => CallTraces(before, call, id);
      case Other(other) => OtherTraces(before, other, id);
    }
  }

  lemma ReachableTraced(cfg: Config, sys: System, id: Id)
    requires Reachable(cfg, sys)
    ensures Inv(cfg, sys) && Traced(sys, id)
  {
    var steps :| sys == Run(cfg, INITIAL, steps);
    ReachableInv(cfg, sys);
    assert Inv(cfg, INITIAL);
    RunTraces(cfg, INITIAL, steps, id);
  }

  /** A failure is told at most once, and only for a request that has failed. */
  lemma NoticesAreBacked(cfg: Config, sys: System, id: Id)
    requires Reachable(cfg, sys)
    ensures Copies(sys.log.messages, ToolFailed(id)) <= 1
    ensures Copies(sys.log.messages, ToolFailed(id)) == 1 ==> id in sys.requests && sys.requests[id].status == Failed
    ensures id in sys.requests && sys.requests[id].status == Done ==> Copies(sys.log.messages, ToolFailed(id)) == 0
  {
    ReachableTraced(cfg, sys, id);
  }

  /** A done request shows the result of its own tool and arguments exactly when the call under its id carries them. */
  lemma OwnResultExactlyWhen(cfg: Config, sys: System, id: Id)
    requires Reachable(cfg, sys) && id in sys.requests && sys.requests[id].status == Done
    ensures id in sys.ran && id in sys.calls && sys.ran[id] == Recorded(sys.calls[id])
    ensures sys.ran[id] == Asked(sys.requests[id]) <==> Recorded(sys.calls[id]) == Asked(sys.requests[id])
  {
    ReachableTraced(cfg, sys, id);
    assert RequestOk(cfg, sys, id) && Runs(sys.runs, id) == 1;
    assert id in multiset(sys.runs);
  }

  /** The k-th step of the run was a direct invocation that recorded a call under this id. */
  predicate RecordsDirectly(cfg: Config, steps: seq<Step>, k: nat, id: Id) {
    && k < |steps| && steps[k].Other? && steps[k].other.DirectInvoke? && steps[k].other.id == id
    && id !in Run(cfg, INITIAL, steps[..k]).calls
  }

  function Given(step: Step): Invocation
    requires step.Other? && step.other.DirectInvoke?
  {
    Invocation(step.other.tool, step.other.args)
  }

  /** No direct invocation recorded the call of this id with anything but what the request asks for. */
  ghost predicate NoForeignRecord(cfg: Config, steps: seq<Step>, id: Id, asked: Invocation) {
    forall k: nat | RecordsDirectly(cfg, steps, k, id) :: Given(steps[k]) == asked
  }

  /** What a step may do to the identity of a call and of a request. */
  ghost predicate KeepsIdentity(sys: System, next: System, step: Step, id: Id) {
    && (id in sys.calls ==> id in next.calls && Recorded(next.calls[id]) == Recorded(sys.calls[id]))
    && (id in sys.requests ==> id in next.requests && Asked(next.requests[id]) == Asked(sys.requests[id]))
    && (id !in sys.calls && id in next.calls ==>
          if step.Other? then step.other.DirectInvoke? && step.other.id == id && Recorded(next.calls[id]) == Given(step)
          else id in sys.requests && Recorded(next.calls[id]) == Asked(sys.requests[id]))
  }

  lemma RowKeepsIdentity(cfg: Config, sys: System, step: RowStep, id: Id)
    ensures KeepsIdentity(sys, ExecRow(cfg, sys, step), OnRow(step), id)
  {
    RowLeavesCalls(cfg, sys, step);
  }

  lemma CallKeepsIdentity(sys: System, step: CallStep, id: Id)
    ensures KeepsIdentity(sys, ExecCall(sys, step), OnCall(step), id)
  {
    CallLeavesRows(sys, step);
    CallKeepsRecords(sys, step, id);
  }

  lemma OtherKeepsIdentity(sys: System, step: OtherStep, id: Id)
    ensures KeepsIdentity(sys, ExecOther(sys, step), Other(step), id)
  {
  }

  lemma StepKeepsIdentity(cfg: Config, sys: System, step: Step, id: Id)
    ensures KeepsIdentity(sys, Exec(cfg, sys, step), step, id)
  {
    match step
    case OnRow(row) => RowKeepsIdentity(cfg, sys, row, id);
    case OnCall(call) => CallKeepsIdentity(sys, call, id);
    case Other(other) => OtherKeepsIdentity(sys, other, id);
  }

  /** Over a run from the start, the call of an id is the request's own unless a direct invocation recorded another. */
  lemma {:induction false} RecordedBy(cfg: Config, steps: seq<Step>, id: Id)
    ensures var sys := Run(cfg, INITIAL, steps);
      && (forall k: nat | RecordsDirectly(cfg, steps, k, id) :: id in sys.calls && Recorded(sys.calls[id]) == Given(steps[k]))
      && (id in sys.calls && (forall k: nat :: !RecordsDirectly(cfg, steps, k, id)) ==>
            id in sys.requests && Recorded(sys.calls[id]) == Asked(sys.requests[id]))
  {
    if steps != [] {
      var n := |steps| - 1;
      RecordedBy(cfg, steps[..n], id);
      StepKeepsIdentity(cfg, Run(cfg, INITIAL, steps[..n]), steps[n], id);
      forall k: nat | k < n ensures RecordsDirectly(cfg, steps, k, id) == RecordsDirectly(cfg, steps[..n], k, id) {
        assert steps[..n][..k] == steps[..k];
      }
      if forall k: nat :: !RecordsDirectly(cfg, steps, k, id) {
        assert !RecordsDirectly(cfg, steps, n, id);
        forall k: nat ensures !RecordsDirectly(cfg, steps[..n], k, id) {
          assert !RecordsDirectly(cfg, steps, k, id);
        }
      }
    }
  }

  /**
   Exactly when a done request shows its own result, over every run: no direct invocation recorded the call under
   its id with another tool or other arguments before the worker could.
  */
  lemma OwnUnlessForeign(cfg: Config, steps: seq<Step>, id: Id)
    requires var sys := Run(cfg, INITIAL, steps); id in sys.requests && sys.requests[id].status == Done
    ensures var sys := Run(cfg, INITIAL, steps);
      && id in sys.ran
      && (sys.ran[id] == Asked(sys.requests[id]) <==> NoForeignRecord(cfg, steps, id, Asked(sys.requests[id])))
  {
    OwnResultExactlyWhen(cfg, Run(cfg, INITIAL, steps), id);
    RecordedBy(cfg, steps, id);
  }

  // ----- and it does happen -----

  /** A request is taken and the worker dies; then the same id is invoked directly with other arguments. */
  const CRASHED: seq<Step> := [
    Other(Enqueue(1, "t", "own", 0)), OnRow(Take(1)), OnRow(Crash),
    Other(DirectInvoke(1, "t", "other")), Other(DirectStart(1)), Other(DirectReturn(1, Some("r")))]

  /** The next worker finds the row running, and the result under its id. */
  const RECOVERED: seq<Step> := [OnRow(Take(1)), OnRow(Inspect), OnRow(MarkReady), OnRow(Notify(0)), OnRow(Close)]

  lemma RunOfThree(cfg: Config, sys: System, a: Step, b: Step, c: Step)
    ensures Run(cfg, sys, [a, b, c]) == Exec(cfg, Exec(cfg, Exec(cfg, sys, a), b), c)
  {
    assert [a, b, c][..2] == [a, b] && [a, b][..1] == [a] && [a][..0] == [];
    assert Run(cfg, sys, [a]) == Exec(cfg, sys, a) && Run(cfg, sys, [a, b]) == Exec(cfg, Exec(cfg, sys, a), b);
  }

  lemma CrashedRun(cfg: Config)
    ensures Run(cfg, INITIAL, CRASHED) == System(
      map[1 := Request("t", "own", 0, Running, None)], map[1 := Call("t", "other", CallDone, Some("r"))],
      Log([], {}), None, map[], [1], map[1 := Invocation("t", "other")])
  {
    var first, rest := CRASHED[..3], CRASHED[3..];
    assert CRASHED == first + rest;
    RunConcat(cfg, INITIAL, first, rest);
    RunOfThree(cfg, INITIAL, CRASHED[0], CRASHED[1], CRASHED[2]);
    assert first == [CRASHED[0], CRASHED[1], CRASHED[2]] && rest == [CRASHED[3], CRASHED[4], CRASHED[5]];
    var taken := Run(cfg, INITIAL, first);
    assert taken == System(map[1 := Request("t", "own", 0, Running, None)], map[], Log([], {}), None, map[], [], map[]);
    RunOfThree(cfg, taken, CRASHED[3], CRASHED[4], CRASHED[5]);
    var invoked := Exec(cfg, taken, CRASHED[3]);
    assert invoked.direct == map[1 := Direct(Invocation("t", "other"), false)];
    var started := Exec(cfg, invoked, CRASHED[4]);
    assert started.direct == map[1 := Direct(Invocation("t", "other"), true)] && started.runs == [1];
    assert started.direct - {1} == map[];
  }

  lemma TakenOver(cfg: Config, sys: System)
    requires sys == Run(cfg, INITIAL, CRASHED)
    ensures Run(cfg, sys, RECOVERED[..3]) ==
      sys.(requests := map[1 := Request("t", "own", 0, Ready, Some("r"))], work := Some(Work(1, Notifying("r"))))
  {
    CrashedRun(cfg);
    assert RECOVERED[..3] == [RECOVERED[0], RECOVERED[1], RECOVERED[2]];
    RunOfThree(cfg, sys, RECOVERED[0], RECOVERED[1], RECOVERED[2]);
    var taken := Exec(cfg, sys, RECOVERED[0]);
    assert taken == sys.(work := Some(Work(1, Inspecting)));
    var saved := Exec(cfg, taken, RECOVERED[1]);
    assert saved == sys.(work := Some(Work(1, Saved("r"))));
  }

  lemma ClosedAfter(cfg: Config, ready: System)
    requires Sensible(cfg) && ready.work == Some(Work(1, Notifying("r")))
    requires ready.requests == map[1 := Request("t", "own", 0, Ready, Some("r"))]
    ensures var end := Run(cfg, ready, RECOVERED[3..]);
      end.requests == map[1 := Request("t", "own", 0, Done, Some("r"))] && end.calls == ready.calls && end.ran == ready.ran
  {
    var a, b := RECOVERED[3], RECOVERED[4];
    assert RECOVERED[3..] == [a, b] && [a, b][..1] == [a] && [a][..0] == [];
    assert Run(cfg, ready, [a]) == Exec(cfg, ready, a);
    assert |DoneText(cfg, "r")| <= 12;
    var told := Exec(cfg, ready, a);
    assert told == ready.(work := Some(Work(1, Closing)), log := told.log);
  }

  /** A reachable state in which a done request shows the result of a call that was made with other arguments. */
  lemma ForeignResultIsReachable(cfg: Config)
    requires Sensible(cfg)
    ensures exists sys ::
      && Reachable(cfg, sys) && 1 in sys.requests && sys.requests[1].status == Done
      && 1 in sys.ran && sys.ran[1] != Asked(sys.requests[1])
  {
    var sys := Run(cfg, INITIAL, CRASHED);
    CrashedRun(cfg);
    TakenOver(cfg, sys);
    ClosedAfter(cfg, Run(cfg, sys, RECOVERED[..3]));
    assert RECOVERED == RECOVERED[..3] + RECOVERED[3..];
    RunConcat(cfg, sys, RECOVERED[..3], RECOVERED[3..]);
    RunConcat(cfg, INITIAL, CRASHED, RECOVERED);
    var end := Run(cfg, INITIAL, CRASHED + RECOVERED);
    assert Reachable(cfg, end);
    assert "own"[1] == 'w' && "other"[1] == 't';
  }
}
