/**
 The writer as the code runs it: tables rewritten in place, requests sent to a remote calendar that the
 owner also edits. Each method performs one step of the interleaving model; `Execute` and `Recover` are
 uninterrupted calls, and therefore runs of that model.
*/
module CalendarService {
  import opened Wrappers
  import opened CalendarWriter
  import opened CalendarRuns

  /** Which requests get an answer, and whether a lost mutation still reached the server. */
  datatype Faults = Faults(precheckLost: bool, reaches: bool, replyLost: bool, readbackLost: bool)

  datatype Outcome = RequestRebound | EventNotKnown | AlreadyDone | NotResent | Waiting | Done | NotConfirmed

  function Shown(calendar: map<EventId, Event>, target: EventId): Option<Event> {
    if target in calendar then Some(calendar[target]) else None
  }

  /** A mutation applied to this calendar would show up as requested. */
  predicate WouldShow(calendar: map<EventId, Event>, id: RequestId, cmd: Command) {
    var got := Shown(calendar, EventOf(id, cmd));
    match cmd.action
    case Create => got.None? || Confirms(cmd, got)
    case Update => got.Some? && !got.value.cancelled
    case Delete => true
  }

  /** What an undisturbed call comes to: the event may be touched, every answer arrives, and the change shows. */
  predicate Succeeds(calendar: map<EventId, Event>, id: RequestId, cmd: Command, faults: Faults) {
    var got := Shown(calendar, EventOf(id, cmd));
    && (cmd.action == Create || (!faults.precheckLost && got.Some? && Personal(got.value)))
    && faults.reaches && !faults.replyLost && !faults.readbackLost && WouldShow(calendar, id, cmd)
  }

  /** Nobody has checked the row, or closed it, since it was selected. */
  predicate StillOpen(ops: map<RequestId, Op>, row: Picked) {
    row.id in ops && ops[row.id].status == Sending && ops[row.id].lastCheck == row.lastCheck
  }

  /** The row is still open, the readback arrives, and it shows the requested state. */
  predicate Recoverable(ops: map<RequestId, Op>, calendar: map<EventId, Event>, row: Picked, lost: bool) {
    StillOpen(ops, row) && !lost && Confirms(ops[row.id].cmd, Shown(calendar, EventOf(row.id, ops[row.id].cmd)))
  }

  class CalendarService {
    var ops: map<RequestId, Op>
    var seen: set<EventId>
    var calendar: map<EventId, Event>
    var nextTag: nat
    /** The model state this service is in; the real fields are its tables and its calendar. */
    ghost var model: System

    ghost predicate Valid()
      reads this
    {
      model.tables == Tables(ops, seen) && model.calendar == calendar && model.nextTag == nextTag
    }

    constructor ()
      ensures Valid() && model == INITIAL
    {
      ops, seen, calendar, nextTag, model := map[], {}, map[], 0, INITIAL;
    }

    method OpenRow(id: RequestId, cmd: Command) returns (r: LoadResult)
      requires Valid() && model.active.None?
      modifies this
      ensures Valid() && model == Exec(old(model), Write(Open(id, cmd)))
      ensures r == LoadTx(old(model).tables, id, cmd).1
    {
      model := Exec(model, Write(Open(id, cmd)));
      if id in ops {
        if ops[id].cmd != cmd {
          return Rebound;
        }
        if ops[id].status == Completed || ops[id].status == Sending {
          return Returned(ops[id].status);
        }
        return Loaded;
      }
      if cmd.action != Create && EventOf(id, cmd) !in seen {
        return NotKnown;
      }
      ops := ops[id := Op(cmd, Ready, None, false, 0, 0)];
      r := Loaded;
    }

    method PassGate(id: RequestId, writable: bool)
      requires Valid() && id in ops && model.active == Some(Work(id, Opened))
      modifies this
      ensures Valid() && model == Exec(old(model), Write(Gate(writable))) && seen == old(seen)
      ensures ops == old(ops)[id := if writable then old(ops)[id].(status := Sending)
                                    else old(ops)[id].(status := WaitingForGoogle, deliver := true)]
    {
      model := Exec(model, Write(Gate(writable)));
      if writable {
        ops := ops[id := ops[id].(status := Sending)];
      } else {
        ops := ops[id := ops[id].(status := WaitingForGoogle, deliver := true)];
      }
    }

    method Get(id: RequestId, cmd: Command) returns (got: Option<Event>)
      requires Valid()
      ensures got == Lookup(model, id, cmd)
    {
      var target := EventOf(id, cmd);
      got := if target in calendar then Some(calendar[target]) else None;
    }

    /** The server's side of the mutation just issued. */
    method Serve(id: RequestId, cmd: Command, found: Option<Event>)
      requires Valid()
      requires |model.network| > 0 && found.Some? == (cmd.action != Create)
      requires model.network[|model.network| - 1] == if cmd.action == Create then Post(id, cmd) else Conditional(id, cmd, found.value)
      requires found.Some? ==> found == Lookup(model, id, cmd)
      modifies this`calendar, this`nextTag, this`model
      ensures Confirms(cmd, Lookup(model, id, cmd)) <==> WouldShow(old(calendar), id, cmd)
      ensures Valid() && model == Exec(old(model), World(Deliver(|old(model).network| - 1)))
      ensures model.active == old(model).active && model.issued == old(model).issued
    {
      model := Exec(model, World(Deliver(|model.network| - 1)));
      var target := EventOf(id, cmd);
      MatchesIffAlreadyApplied(Fields(None, None, None), cmd.payload);
      if found.Some? {
        MatchesIffAlreadyApplied(found.value.fields, cmd.payload);
      }
      if cmd.action == Create {
        if target !in calendar {
          var fields := Applied(Fields(None, None, None), cmd.payload);
          calendar := calendar[target := Event(nextTag, false, fields, false, false, true, Some(cmd))];
          nextTag := nextTag + 1;
        }
      } else if target in calendar && calendar[target].etag == found.value.etag {
        var event := calendar[target];
        event := if cmd.action == Delete then event.(cancelled := true)
                 else event.(fields := Applied(event.fields, cmd.payload));
        calendar := calendar[target := event.(etag := nextTag)];
        nextTag := nextTag + 1;
      }
    }

    method CommitOutcome(id: RequestId, confirmed: bool)
      requires Valid() && id in ops && model.active == Some(Work(id, if confirmed then Confirmed else Unconfirmed))
      modifies this
      ensures Valid() && model == Exec(old(model), Write(Commit))
      ensures ops == old(ops)[id := if confirmed then old(ops)[id].(status := Completed, notice := Some(Direct))
                                    else old(ops)[id].(status := Sending)]
    {
      model := Exec(model, Write(Commit));
      var op := ops[id];
      if confirmed {
        seen := SeenAfter(seen, id, op.cmd);
        ops := ops[id := op.(status := Completed, notice := Some(Direct))];
      } else {
        ops := ops[id := op.(status := Sending)];
      }
    }

    /** The GET that an update or delete starts with. */
    method CheckVersion(id: RequestId, cmd: Command, lost: bool) returns (found: Option<Event>, ghost step: Step)
      requires Valid() && id in ops && ops[id].cmd == cmd && cmd.action != Create && model.active == Some(Work(id, Marked))
      modifies this`model
      ensures Valid() && model == Exec(old(model), step) && model.issued == old(model).issued
      ensures model.active == Some(Work(id, if found.Some? then Prechecked(found.value) else Unconfirmed))
      ensures var got := Shown(calendar, EventOf(id, cmd));
        found == if !lost && got.Some? && Personal(got.value) then got else None
    {
      found := Get(id, cmd);
      if lost || found.None? || !Personal(found.value) {
        found := None;
      }
      step := Write(if lost then Fail else Precheck);
      model := Exec(model, step);
    }

    ghost method Issue(id: RequestId, cmd: Command, found: Option<Event>)
      requires Valid() && id in ops && ops[id].cmd == cmd && found.Some? == (cmd.action != Create)
      requires model.active == Some(Work(id, if found.Some? then Prechecked(found.value) else Marked))
      modifies this`model
      ensures Valid() && model == Exec(old(model), Write(CalendarRuns.Issue))
      ensures model.issued == old(model).issued + [id] && model.active == Some(Work(id, Issued))
      ensures model.network == old(model).network + [if found.None? then Post(id, cmd) else Conditional(id, cmd, found.value)]
    {
      model := Exec(model, Write(CalendarRuns.Issue));
    }

    /** The reply to the mutation: accepted, or anything that raises. */
    ghost method Answer(id: RequestId, accepted: bool) returns (step: Step)
      requires Valid() && id in ops && model.active == Some(Work(id, Issued))
      modifies this`model
      ensures Valid() && model == Exec(old(model), step) && model.issued == old(model).issued
      ensures model.active == Some(Work(id, if accepted then Accepted else Unconfirmed))
    {
      step := Write(if accepted then Accept else Fail);
      model := Exec(model, step);
    }

    /** The one mutation. The server may process it even when no reply comes back. */
    method Send(id: RequestId, cmd: Command, found: Option<Event>, faults: Faults) returns (accepted: bool, ghost steps: seq<Step>)
      requires Valid() && id in ops && ops[id].cmd == cmd && found.Some? == (cmd.action != Create)
      requires model.active == Some(Work(id, if found.Some? then Prechecked(found.value) else Marked))
      requires found.Some? ==> found == Lookup(model, id, cmd)
      modifies this`calendar, this`nextTag, this`model
      ensures Valid() && model == Run(old(model), steps) && model.issued == old(model).issued + [id]
      ensures model.active == Some(Work(id, if accepted then Accepted else Unconfirmed))
      ensures accepted == (faults.reaches && !faults.replyLost)
      ensures faults.reaches ==> (Confirms(cmd, Lookup(model, id, cmd)) <==> WouldShow(old(calendar), id, cmd))
    {
      steps := Extend(model, [], Write(CalendarRuns.Issue));
      Issue(id, cmd, found);
      if faults.reaches {
        steps := Extend(old(model), steps, World(Deliver(|model.network| - 1)));
        Serve(id, cmd, found);
      }
      accepted := faults.reaches && !faults.replyLost;
      ghost var step := Answer(id, accepted);
      steps := Extend(old(model), steps, step);
    }

    /** The GET that decides between completion and an open outcome. */
    method ReadBack(id: RequestId, cmd: Command, lost: bool) returns (confirmed: bool, ghost step: Step)
      requires Valid() && id in ops && ops[id].cmd == cmd && model.active == Some(Work(id, Accepted))
      modifies this`model
      ensures Valid() && model == Exec(old(model), step) && model.issued == old(model).issued
      ensures model.active == Some(Work(id, if confirmed then Confirmed else Unconfirmed))
      ensures confirmed <==> !lost && Confirms(cmd, Lookup(model, id, cmd))
    {
      var actual := Get(id, cmd);
      confirmed := !lost && Confirms(cmd, actual);
      step := Write(if lost then Fail else Readback);
      model := Exec(model, step);
    }

    /** From the mark to the readback: at most one mutation, whatever answers are lost. */
    method Mutate(id: RequestId, cmd: Command, faults: Faults) returns (confirmed: bool, ghost steps: seq<Step>)
      requires Valid() && id in ops && ops[id].cmd == cmd && model.active == Some(Work(id, Marked))
      modifies this`calendar, this`nextTag, this`model
      ensures Valid() && model == Run(old(model), steps)
      ensures model.active == Some(Work(id, if confirmed then Confirmed else Unconfirmed))
      ensures model.issued == old(model).issued || model.issued == old(model).issued + [id]
      ensures confirmed ==> Confirms(cmd, Lookup(model, id, cmd))
      ensures confirmed <==> Succeeds(old(calendar), id, cmd, faults)
    {
      steps := [];
      confirmed := false;
      var found: Option<Event> := None;
      if cmd.action != Create {
        ghost var step;
        found, step := CheckVersion(id, cmd, faults.precheckLost);
        steps := Extend(old(model), steps, step);
        if found.None? {
          return;
        }
      }
      var accepted, sent := Send(id, cmd, found, faults);
      RunConcat(old(model), steps, sent);
      steps := steps + sent;
      if accepted {
        ghost var step;
        confirmed, step := ReadBack(id, cmd, faults.readbackLost);
        steps := Extend(old(model), steps, step);
      }
    }

    /** `execute`: refused, resumed or carried out; completion is reported only when the calendar shows it. */
    method Execute(id: RequestId, cmd: Command, writable: bool, faults: Faults) returns (r: Outcome, ghost steps: seq<Step>)
      requires Valid() && model.active.None?
      modifies this
      ensures Valid() && model == Run(old(model), steps) && model.active.None?
      ensures model.issued == old(model).issued || model.issued == old(model).issued + [id]
      ensures r == match LoadTx(old(model).tables, id, cmd).1
                   case Rebound => RequestRebound
                   case NotKnown => EventNotKnown
                   case Returned(status) => if status == Completed then AlreadyDone else NotResent
                   case Loaded =>
                     if !writable then Waiting else if Succeeds(old(calendar), id, cmd, faults) then Done else NotConfirmed
      ensures r == Done ==> id in ops && ops[id].status == Completed && Confirms(cmd, Lookup(model, id, cmd))
      ensures r in {NotResent, AlreadyDone, RequestRebound, EventNotKnown} ==> model == old(model)
    {
      steps := Extend(model, [], Write(Open(id, cmd)));
      var row := OpenRow(id, cmd);
      match row {
        case Rebound => return RequestRebound, steps;
        case NotKnown => return EventNotKnown, steps;
        case Returned(status) => return if status == Completed then AlreadyDone else NotResent, steps;
        case Loaded =>
      }
      steps := Extend(old(model), steps, Write(Gate(writable)));
      PassGate(id, writable);
      if !writable {
        return Waiting, steps;
      }
      var confirmed, more := Mutate(id, cmd, faults);
      RunConcat(old(model), steps, more);
      steps := Extend(old(model), steps + more, Write(Commit));
      CommitOutcome(id, confirmed);
      r := if confirmed then Done else NotConfirmed;
    }

    /** The compare-and-set of a recovery, on a row selected earlier without the lock. */
    method ClaimRow(ghost w: nat, row: Picked, now: int) returns (claimed: bool)
      requires Valid() && model.active.None? && w in model.picked && model.picked[w] == row
      modifies this
      ensures Valid() && model == Exec(old(model), Check(ClaimCheck(w, now)))
      ensures claimed <==> StillOpen(old(ops), row)
      ensures ops == if !claimed then old(ops)
                     else old(ops)[row.id := old(ops)[row.id].(lastCheck := now, checkCount := old(ops)[row.id].checkCount + 1)]
      ensures claimed ==>
        row.id in ops && ops[row.id].cmd == old(ops)[row.id].cmd && model.active == Some(Work(row.id, Checking))
      ensures model.issued == old(model).issued && calendar == old(calendar)
      ensures !claimed ==> model.active.None?
    {
      model := Exec(model, Check(ClaimCheck(w, now)));
      claimed := row.id in ops && ops[row.id].status == Sending && ops[row.id].lastCheck == row.lastCheck;
      if claimed {
        ops := ops[row.id := ops[row.id].(lastCheck := now, checkCount := ops[row.id].checkCount + 1)];
      }
    }

    method CommitRecovered(id: RequestId)
      requires Valid() && id in ops && model.active == Some(Work(id, CheckConfirmed))
      modifies this`ops, this`seen, this`model
      ensures Valid() && model == Exec(old(model), Check(CheckCommit))
      ensures model.active.None? && model.issued == old(model).issued
      ensures ops == old(ops)[id := old(ops)[id].(status := Completed, notice := Some(Recovered), deliver := true)]
    {
      model := Exec(model, Check(CheckCommit));
      seen := SeenAfter(seen, id, ops[id].cmd);
      ops := ops[id := ops[id].(status := Completed, notice := Some(Recovered), deliver := true)];
    }

    /** The readback of a claimed row. */
    method CheckRow(id: RequestId, lost: bool) returns (confirmed: bool, ghost step: Step)
      requires Valid() && id in ops && model.active == Some(Work(id, Checking))
      modifies this`model
      ensures Valid() && model == Exec(old(model), step)
      ensures model.active == (if confirmed then Some(Work(id, CheckConfirmed)) else None)
      ensures model.issued == old(model).issued
      ensures confirmed <==> !lost && Confirms(ops[id].cmd, Lookup(model, id, ops[id].cmd))
    {
      var actual := Get(id, ops[id].cmd);
      confirmed := !lost && Confirms(ops[id].cmd, actual);
      step := Check(if lost then CheckFail else CheckRead);
      model := Exec(model, step);
    }

    /** The readback of a claimed row, and its completion if it shows the requested state. */
    method RecoverClaimed(id: RequestId, lost: bool) returns (recovered: bool, ghost steps: seq<Step>)
      requires Valid() && id in ops && model.active == Some(Work(id, Checking))
      modifies this`ops, this`seen, this`model
      ensures Valid() && model == Run(old(model), steps) && model.active.None? && model.issued == old(model).issued
      ensures recovered <==> !lost && Confirms(old(ops)[id].cmd, Lookup(old(model), id, old(ops)[id].cmd))
      ensures recovered ==> id in ops && ops[id].status == Completed && ops[id].cmd == old(ops)[id].cmd
    {
      var confirmed, step := CheckRow(id, lost);
      steps := Extend(old(model), [], step);
      if !confirmed {
        return false, steps;
      }
      steps := Extend(old(model), steps, Check(CheckCommit));
      CommitRecovered(id);
      recovered := true;
    }

    /** `_recover`: one readback of an unconfirmed operation; it never sends. */
    method Recover(ghost w: nat, row: Picked, now: int, lost: bool) returns (recovered: bool, ghost steps: seq<Step>)
      requires Valid() && model.active.None? && w in model.picked && model.picked[w] == row
      modifies this
      ensures Valid() && model == Run(old(model), steps) && model.active.None?
      ensures model.issued == old(model).issued && calendar == old(calendar)
      ensures recovered <==> Recoverable(old(ops), calendar, row, lost)
      ensures recovered ==> row.id in ops && ops[row.id].status == Completed
    {
      steps := Extend(model, [], Check(ClaimCheck(w, now)));
      var claimed := ClaimRow(w, row, now);
      if !claimed {
        return false, steps;
      }
      ghost var more;
      recovered, more := RecoverClaimed(row.id, lost);
      RunConcat(old(model), steps, more);
      steps := steps + more;
    }
  }
}
