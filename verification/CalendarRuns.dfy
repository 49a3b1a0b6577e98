/**
 Every interleaving of execute, reconcile and recovery with crashes, lost replies, late delivery and
 concurrent edits of the remote calendar. The file lock admits one active worker, and a crash frees it.
*/
module CalendarRuns {
  import opened Wrappers
  import opened CalendarWriter

  /** Where the lock holder is, between two transactions or requests. */
  datatype Stage =
    | Opened
    | Marked
    | Prechecked(found: Event)
    | Issued
    | Accepted
    | Confirmed
    | Unconfirmed
    | Checking
    | CheckConfirmed

  datatype Work = Work(id: RequestId, stage: Stage)

  /** A mutation on its way to the server; `found` is what an If-Match precondition was taken from. */
  datatype Message = Post(id: RequestId, cmd: Command) | Conditional(id: RequestId, cmd: Command, found: Event)

  /** A row a reconciler selected before it asked for the lock. */
  datatype Picked = Picked(id: RequestId, lastCheck: int, checkCount: nat, at: int)

  datatype Observation = Observation(id: RequestId, got: Option<Event>)

  /** What the GET of a request's own precheck returned. */
  datatype Look = Look(id: RequestId, target: EventId, found: Event)

  datatype Effect = Effect(id: RequestId, target: EventId, before: Event)

  /**
   `issued`, `observed`, `looks`, `effects` and `rereads` are histories nothing reads: mutation requests sent,
   readbacks that confirmed, versions that prechecks returned, versions that updates and deletes took effect on,
   and recovery reads made.
  */
  datatype System = System(
    tables: Tables, active: Option<Work>, picked: map<nat, Picked>,
    calendar: map<EventId, Event>, nextTag: nat, network: seq<Message>, messages: map<RequestId, Notice>,
    issued: seq<RequestId>, observed: seq<Observation>, looks: seq<Look>, effects: seq<Effect>, rereads: seq<RequestId>)

  const INITIAL := System(Tables(map[], {}), None, map[], map[], 0, [], map[], [], [], [], [], [])

  /** `execute`, step by step. */
  datatype WriteStep =
    | Open(id: RequestId, cmd: Command) | Gate(writable: bool) | Precheck | Issue | Accept | Readback | Fail | Commit

  /** `reconcile` and `_recover`, step by step. */
  datatype CheckStep =
    | Pick(w: nat, id: RequestId, at: int) | ClaimCheck(w: nat, now: int) | CheckRead | CheckFail | CheckCommit
    | Publish(id: RequestId)

  /** What the workers do not control. */
  datatype WorldStep =
    | Crash | Deliver(k: nat) | Edit(target: EventId, event: Option<Event>) | See(target: EventId)

  datatype Step = Write(write: WriteStep) | Check(check: CheckStep) | World(world: WorldStep)

  function Lookup(sys: System, id: RequestId, cmd: Command): Option<Event> {
    var target := EventOf(id, cmd);
    if target in sys.calendar then Some(sys.calendar[target]) else None
  }

  /** The lock holder's row. */
  predicate At(sys: System, stage: Stage) {
    sys.active.Some? && sys.active.value.stage == stage && sys.active.value.id in sys.tables.ops
  }

  predicate Executing(stage: Stage) {
    stage.Marked? || stage.Prechecked? || stage.Issued? || stage.Accepted? || stage.Confirmed?
  }

  function Moved(sys: System, stage: Stage): System
    requires sys.active.Some?
  {
    sys.(active := Some(sys.active.value.(stage := stage)))
  }

  function OpenStep(sys: System, id: RequestId, cmd: Command): System {
    if sys.active.Some? then sys
    else
      var (tables, result) := LoadTx(sys.tables, id, cmd);
      if result == Loaded then sys.(tables := tables, active := Some(Work(id, Opened))) else sys
  }

  function GateStep(sys: System, writable: bool): System {
    if !At(sys, Opened) then sys
    else
      var id := sys.active.value.id;
      sys.(tables := GateTx(sys.tables, id, writable), active := if writable then Some(Work(id, Marked)) else None)
  }

  /** The GET before an update or delete: only a personal, owner-organised event goes on. */
  function PrecheckStep(sys: System): System {
    if !At(sys, Marked) || sys.tables.ops[sys.active.value.id].cmd.action == Create then sys
    else
      var id := sys.active.value.id;
      var got := Lookup(sys, id, sys.tables.ops[id].cmd);
      if got.None? then Moved(sys, Unconfirmed)
      else
        Moved(sys, if Personal(got.value) then Prechecked(got.value) else Unconfirmed).(
          looks := sys.looks + [Look(id, EventOf(id, sys.tables.ops[id].cmd), got.value)])
  }

  function IssueStep(sys: System): System {
    if sys.active.None? || sys.active.value.id !in sys.tables.ops then sys
    else
      var id := sys.active.value.id;
      var cmd, stage := sys.tables.ops[id].cmd, sys.active.value.stage;
      if stage == Marked && cmd.action == Create then
        Moved(sys, Issued).(network := sys.network + [Post(id, cmd)], issued := sys.issued + [id])
      else if stage.Prechecked? then
        Moved(sys, Issued).(network := sys.network + [Conditional(id, cmd, stage.found)], issued := sys.issued + [id])
      else sys
  }

  function ReadbackStep(sys: System, from: Stage, to: Stage): System {
    if !At(sys, from) then sys
    else
      var id := sys.active.value.id;
      var got := Lookup(sys, id, sys.tables.ops[id].cmd);
      if Confirms(sys.tables.ops[id].cmd, got) then
        Moved(sys, to).(observed := sys.observed + [Observation(id, got)])
      else if from == Checking then sys.(active := None)
      else Moved(sys, Unconfirmed)
  }

  function FailStep(sys: System): System {
    if sys.active.Some? && Executing(sys.active.value.stage) then Moved(sys, Unconfirmed) else sys
  }

  /** The recovery read, whether or not its answer arrives. */
  function ReadBy(sys: System): seq<RequestId> {
    if sys.active.Some? && sys.active.value.stage == Checking then sys.rereads + [sys.active.value.id] else sys.rereads
  }

  function CheckReadStep(sys: System): System {
    ReadbackStep(sys, Checking, CheckConfirmed).(rereads := ReadBy(sys))
  }

  function CheckFailStep(sys: System): System {
    if sys.active.Some? && sys.active.value.stage in {Checking, CheckConfirmed}
    then sys.(active := None, rereads := ReadBy(sys)) else sys
  }

  function CommitStep(sys: System): System {
    if At(sys, Confirmed) || At(sys, Unconfirmed) then
      sys.(tables := CommitTx(sys.tables, sys.active.value.id, sys.active.value.stage == Confirmed), active := None)
    else sys
  }

  function PickStep(sys: System, w: nat, id: RequestId, at: int): System {
    if id in sys.tables.ops && sys.tables.ops[id].status == Sending
       && sys.tables.ops[id].lastCheck < at - CHECK_SPACING && sys.tables.ops[id].checkCount < MAX_CHECKS then
      sys.(picked := sys.picked[w := Picked(id, sys.tables.ops[id].lastCheck, sys.tables.ops[id].checkCount, at)])
    else sys
  }

  /** The claim compares the recorded check time, not the limit the selection went by. */
  function ClaimCheckStep(sys: System, w: nat, now: int): System {
    if sys.active.Some? || w !in sys.picked then sys
    else
      var picked := sys.picked[w];
      var (tables, claimed) := ClaimCheckTx(sys.tables, picked.id, picked.lastCheck, now);
      sys.(tables := tables, active := if claimed then Some(Work(picked.id, Checking)) else None, picked := sys.picked - {w})
  }

  function CheckCommitStep(sys: System): System {
    if At(sys, CheckConfirmed) then
      sys.(tables := RecoveredTx(sys.tables, sys.active.value.id), active := None)
    else sys
  }

  /** The server processes one message: a POST creates, a conditional write needs the version it names. */
  function DeliverStep(sys: System, k: nat): System {
    if k >= |sys.network| then sys
    else
      var msg := sys.network[k];
      var target := EventOf(msg.id, msg.cmd);
      var rest := sys.(network := sys.network[..k] + sys.network[k + 1..]);
      match msg
      case Post(id, cmd) =>
        if target in sys.calendar then rest
        else
          var event := Event(sys.nextTag, false, Applied(Fields(None, None, None), cmd.payload), false, false, true, Some(cmd));
          rest.(calendar := sys.calendar[target := event], nextTag := sys.nextTag + 1)
      case Conditional(id, cmd, found) =>
        if target !in sys.calendar || sys.calendar[target].etag != found.etag then rest
        else
          var event := sys.calendar[target];
          var event' := if cmd.action == Delete then event.(cancelled := true)
                        else event.(fields := Applied(event.fields, cmd.payload));
          rest.(calendar := sys.calendar[target := event'.(etag := sys.nextTag)], nextTag := sys.nextTag + 1,
                effects := sys.effects + [Effect(id, target, event)])
  }

  /** Anyone may change, create or remove an event; the server gives each version a new tag. */
  function EditStep(sys: System, target: EventId, event: Option<Event>): System {
    match event
    case None => sys.(calendar := sys.calendar - {target})
    case Some(ev) => sys.(calendar := sys.calendar[target := ev.(etag := sys.nextTag)], nextTag := sys.nextTag + 1)
  }

  /** The result message of a completed operation, once per request (owner_updates.py). */
  function PublishStep(sys: System, id: RequestId): System {
    if id in sys.tables.ops && sys.tables.ops[id].status == Completed && sys.tables.ops[id].notice.Some? then
      var op := sys.tables.ops[id];
      sys.(messages := if id in sys.messages then sys.messages else sys.messages[id := op.notice.value],
           tables := sys.tables.(ops := sys.tables.ops[id := op.(deliver := false)]))
    else sys
  }

  function ExecWrite(sys: System, step: WriteStep): System {
    match step
    case Open(id, cmd) => OpenStep(sys, id, cmd)
    case Gate(writable) => GateStep(sys, writable)
    case Precheck => PrecheckStep(sys)
    case Issue => IssueStep(sys)
    case Accept => if At(sys, Issued) then Moved(sys, Accepted) else sys
    case Readback => ReadbackStep(sys, Accepted, Confirmed)
    case Fail => FailStep(sys)
    case Commit => CommitStep(sys)
  }

  function ExecCheck(sys: System, step: CheckStep): System {
    match step
    case Pick(w, id, at) => PickStep(sys, w, id, at)
    case ClaimCheck(w, now) => ClaimCheckStep(sys, w, now)
    case CheckRead => CheckReadStep(sys)
    case CheckFail => CheckFailStep(sys)
    case CheckCommit => CheckCommitStep(sys)
    case Publish(id) => PublishStep(sys, id)
  }

  function ExecWorld(sys: System, step: WorldStep): System {
    match step
    case Crash => sys.(active := None)
    case Deliver(k) => DeliverStep(sys, k)
    case Edit(target, event) => EditStep(sys, target, event)
    case See(target) => sys.(tables := sys.tables.(seen := sys.tables.seen + {target}))
  }

  function Exec(sys: System, step: Step): System {
    match step
    case Write(write) => ExecWrite(sys, write)
    case Check(check) => ExecCheck(sys, check)
    case World(world) => ExecWorld(sys, world)
  }

  function Run(sys: System, steps: seq<Step>): System {
    if steps == [] then sys else Exec(Run(sys, steps[..|steps| - 1]), steps[|steps| - 1])
  }

  /** One more step of a run. */
  lemma Extend(start: System, steps: seq<Step>, step: Step) returns (longer: seq<Step>)
    ensures longer == steps + [step] && Run(start, longer) == Exec(Run(start, steps), step)
  {
    longer := steps + [step];
    assert longer[..|longer| - 1] == steps;
  }

  lemma {:induction false} RunConcat(start: System, a: seq<Step>, b: seq<Step>)
    ensures Run(start, a + b) == Run(Run(start, a), b)
    decreases |b|
  {
    if b == [] {
      assert a + b == a;
    } else {
      RunConcat(start, a, b[..|b| - 1]);
      assert (a + b)[..|a + b| - 1] == a + b[..|b| - 1];
    }
  }

  // ----- invariant -----

  function Mutations(issued: seq<RequestId>, id: RequestId): nat {
    multiset(issued)[id]
  }

  /** A request has been issued at most once, and not before its row is marked. */
  ghost predicate IssuedOk(sys: System, id: RequestId) {
    && Mutations(sys.issued, id) <= 1
    && (id !in sys.tables.ops || !Sent(sys.tables.ops[id].status) ==> Mutations(sys.issued, id) == 0)
    && (AboutToIssue(sys.active, id) ==> Mutations(sys.issued, id) == 0)
  }

  /** The row says a mutation may have been sent. */
  predicate Sent(status: Status) {
    status.Sending? || status.Completed?
  }

  predicate AboutToIssue(active: Option<Work>, id: RequestId) {
    active.Some? && active.value.id == id && (active.value.stage.Marked? || active.value.stage.Prechecked?)
  }

  /** The lock holder's row has the status its stage relies on. */
  ghost predicate ActiveOk(sys: System) {
    sys.active.Some? ==>
      && sys.active.value.id in sys.tables.ops
      && var op, stage := sys.tables.ops[sys.active.value.id], sys.active.value.stage;
         && (stage == Opened ==> !Sent(op.status))
         && (stage != Opened ==> op.status == Sending)
         && (stage.Prechecked? ==> Personal(stage.found))
         && (stage in {Confirmed, CheckConfirmed} ==> WasObserved(sys.observed, sys.active.value.id, op.cmd))
  }

  ghost predicate WasObserved(observed: seq<Observation>, id: RequestId, cmd: Command) {
    exists o <- observed :: o.id == id && Confirms(cmd, o.got)
  }

  ghost predicate CompletedOk(sys: System, id: RequestId) {
    && (id in sys.tables.ops && sys.tables.ops[id].status == Completed ==>
          sys.tables.ops[id].notice.Some? && WasObserved(sys.observed, id, sys.tables.ops[id].cmd))
    && (id in sys.messages ==>
          && id in sys.tables.ops && sys.tables.ops[id].status == Completed
          && sys.tables.ops[id].notice == Some(sys.messages[id]))
  }

  /** A tag names one version: if the target still carries the tag of a checked version, it is that version. */
  ghost predicate Checked(sys: System, target: EventId, found: Event) {
    && Personal(found) && found.etag < sys.nextTag
    && (target in sys.calendar && sys.calendar[target].etag == found.etag ==> sys.calendar[target] == found)
  }

  ghost predicate StageChecked(sys: System) {
    sys.active.Some? && sys.active.value.stage.Prechecked? ==>
      && sys.active.value.id in sys.tables.ops
      && Checked(sys, EventOf(sys.active.value.id, sys.tables.ops[sys.active.value.id].cmd), sys.active.value.stage.found)
  }

  ghost predicate VersionsOk(sys: System) {
    (forall target <- sys.calendar :: sys.calendar[target].etag < sys.nextTag) && StageChecked(sys)
  }

  ghost predicate NetworkOk(sys: System) {
    && (forall msg <- sys.network | msg.Conditional? :: Checked(sys, EventOf(msg.id, msg.cmd), msg.found))
  }

  ghost predicate EffectsOk(sys: System) {
    forall effect <- sys.effects :: Personal(effect.before)
  }

  ghost predicate Inv(sys: System) {
    && ActiveOk(sys) && VersionsOk(sys) && NetworkOk(sys) && EffectsOk(sys)
    && forall id :: IssuedOk(sys, id) && CompletedOk(sys, id)
  }

  lemma ObservedGrows(observed: seq<Observation>, o: Observation, id: RequestId, cmd: Command)
    ensures WasObserved(observed, id, cmd) ==> WasObserved(observed + [o], id, cmd)
    ensures o.id == id && Confirms(cmd, o.got) ==> WasObserved(observed + [o], id, cmd)
  {
    if WasObserved(observed, id, cmd) {
      var earlier :| earlier in observed && earlier.id == id && Confirms(cmd, earlier.got);
      assert earlier in observed + [o];
    }
    assert o in observed + [o];
  }

  lemma IssueKeepsIssued(sys: System, id: RequestId)
    requires IssuedOk(sys, id) && ActiveOk(sys)
    ensures IssuedOk(IssueStep(sys), id)
  {
    var sys' := IssueStep(sys);
    if sys' != sys {
      assert multiset(sys'.issued) == multiset(sys.issued) + multiset{sys.active.value.id};
    }
  }

  /** Only the issuing step adds a request, and only opening, the gate and the commit touch rows. */
  lemma RowsKeepIssued(sys: System, step: WriteStep, id: RequestId)
    requires IssuedOk(sys, id) && ActiveOk(sys) && (step.Open? || step.Gate? || step.Commit?)
    ensures IssuedOk(ExecWrite(sys, step), id)
  {
    assert ExecWrite(sys, step).issued == sys.issued;
  }

  lemma ReadsKeepIssued(sys: System, step: WriteStep, id: RequestId)
    requires IssuedOk(sys, id) && (step.Precheck? || step.Accept? || step.Readback? || step.Fail?)
    ensures IssuedOk(ExecWrite(sys, step), id)
  {
    assert ExecWrite(sys, step).issued == sys.issued && ExecWrite(sys, step).tables == sys.tables;
    assert AboutToIssue(ExecWrite(sys, step).active, id) ==> AboutToIssue(sys.active, id);
  }

  lemma WriteKeepsIssued(sys: System, step: WriteStep, id: RequestId)
    requires IssuedOk(sys, id) && ActiveOk(sys)
    ensures IssuedOk(ExecWrite(sys, step), id)
  {
    if step.Issue? {
      IssueKeepsIssued(sys, id);
    } else if step.Open? || step.Gate? || step.Commit? {
      RowsKeepIssued(sys, step, id);
    } else {
      ReadsKeepIssued(sys, step, id);
    }
  }

  lemma CheckKeepsIssued(sys: System, step: CheckStep, id: RequestId)
    requires IssuedOk(sys, id) && ActiveOk(sys)
    ensures IssuedOk(ExecCheck(sys, step), id)
  {
  }

  lemma WorldKeepsIssued(sys: System, step: WorldStep, id: RequestId)
    requires IssuedOk(sys, id)
    ensures IssuedOk(ExecWorld(sys, step), id)
  {
  }

  lemma ReadbackKeepsRows(sys: System, from: Stage, to: Stage, id: RequestId)
    requires ActiveOk(sys) && CompletedOk(sys, id)
    requires (from, to) in {(Accepted, Confirmed), (Checking, CheckConfirmed)}
    ensures ActiveOk(ReadbackStep(sys, from, to)) && CompletedOk(ReadbackStep(sys, from, to), id)
  {
    var sys' := ReadbackStep(sys, from, to);
    if sys'.observed != sys.observed {
      var id' := sys.active.value.id;
      var o := Observation(id', Lookup(sys, id', sys.tables.ops[id'].cmd));
      ObservedGrows(sys.observed, o, id', sys.tables.ops[id'].cmd);
      if id in sys.tables.ops {
        ObservedGrows(sys.observed, o, id, sys.tables.ops[id].cmd);
      }
    }
  }

  lemma RowStepsKeepRows(sys: System, step: WriteStep, id: RequestId)
    requires ActiveOk(sys) && CompletedOk(sys, id) && (step.Open? || step.Gate? || step.Commit?)
    ensures ActiveOk(ExecWrite(sys, step)) && CompletedOk(ExecWrite(sys, step), id)
  {
  }

  lemma WriteKeepsRows(sys: System, step: WriteStep, id: RequestId)
    requires ActiveOk(sys) && CompletedOk(sys, id)
    ensures ActiveOk(ExecWrite(sys, step)) && CompletedOk(ExecWrite(sys, step), id)
  {
    if step.Readback? {
      ReadbackKeepsRows(sys, Accepted, Confirmed, id);
    } else if step.Open? || step.Gate? || step.Commit? {
      RowStepsKeepRows(sys, step, id);
    }
  }

  lemma CheckKeepsRows(sys: System, step: CheckStep, id: RequestId)
    requires ActiveOk(sys) && CompletedOk(sys, id)
    ensures ActiveOk(ExecCheck(sys, step)) && CompletedOk(ExecCheck(sys, step), id)
  {
    if step.CheckRead? {
      ReadbackKeepsRows(sys, Checking, CheckConfirmed, id);
    }
  }

  lemma WorldKeepsRows(sys: System, step: WorldStep, id: RequestId)
    requires ActiveOk(sys) && CompletedOk(sys, id)
    ensures ActiveOk(ExecWorld(sys, step)) && CompletedOk(ExecWorld(sys, step), id)
  {
  }

  lemma WriteKeepsVersions(sys: System, step: WriteStep)
    requires ActiveOk(sys) && VersionsOk(sys)
    ensures VersionsOk(ExecWrite(sys, step))
  {
  }

  lemma IssueKeepsNetwork(sys: System)
    requires VersionsOk(sys) && NetworkOk(sys)
    ensures NetworkOk(IssueStep(sys))
  {
    var sys' := IssueStep(sys);
    forall msg <- sys'.network | msg.Conditional? ensures Checked(sys', EventOf(msg.id, msg.cmd), msg.found) {
      if msg in sys.network {
        assert Checked(sys, EventOf(msg.id, msg.cmd), msg.found);
      }
    }
  }

  /** Everything the network's messages are judged by stays as it is. */
  lemma SameNetwork(sys: System, sys': System)
    requires NetworkOk(sys) && sys'.network == sys.network
    requires sys'.calendar == sys.calendar && sys'.nextTag == sys.nextTag
    ensures NetworkOk(sys')
  {
    forall msg <- sys'.network | msg.Conditional? ensures Checked(sys', EventOf(msg.id, msg.cmd), msg.found) {
      assert Checked(sys, EventOf(msg.id, msg.cmd), msg.found);
    }
  }

  /** Writing never touches the remote side itself; only issuing adds a message. */
  lemma WriteKeepsWorld(sys: System, step: WriteStep)
    ensures var sys' := ExecWrite(sys, step);
      && sys'.effects == sys.effects && sys'.calendar == sys.calendar && sys'.nextTag == sys.nextTag
      && (!step.Issue? ==> sys'.network == sys.network)
  {
    match step
    case Open(id, cmd) => assert OpenStep(sys, id, cmd).network == sys.network;
    case Gate(writable) => assert GateStep(sys, writable).network == sys.network;
    case _ =>
  }

  lemma WriteKeepsNetwork(sys: System, step: WriteStep)
    requires VersionsOk(sys) && NetworkOk(sys) && EffectsOk(sys)
    ensures NetworkOk(ExecWrite(sys, step)) && EffectsOk(ExecWrite(sys, step))
  {
    WriteKeepsWorld(sys, step);
    if step.Issue? {
      IssueKeepsNetwork(sys);
    } else {
      SameNetwork(sys, ExecWrite(sys, step));
    }
  }

  lemma CheckKeepsVersions(sys: System, step: CheckStep)
    requires VersionsOk(sys) && NetworkOk(sys) && EffectsOk(sys)
    ensures VersionsOk(ExecCheck(sys, step)) && NetworkOk(ExecCheck(sys, step)) && EffectsOk(ExecCheck(sys, step))
  {
  }

  /** A delivered conditional write takes effect only on the very version its If-Match was taken from. */
  lemma DeliverKeepsVersions(sys: System, k: nat)
    requires VersionsOk(sys) && NetworkOk(sys) && EffectsOk(sys)
    ensures VersionsOk(DeliverStep(sys, k)) && NetworkOk(DeliverStep(sys, k)) && EffectsOk(DeliverStep(sys, k))
  {
    var sys' := DeliverStep(sys, k);
    if k < |sys.network| {
      assert sys.network[k] in sys.network;
      forall msg <- sys'.network ensures msg in sys.network {}
      forall target <- sys'.calendar
        ensures sys'.calendar[target].etag == sys.nextTag || (target in sys.calendar && sys'.calendar[target] == sys.calendar[target])
      {}
    }
  }

  lemma WorldKeepsVersions(sys: System, step: WorldStep)
    requires VersionsOk(sys) && NetworkOk(sys) && EffectsOk(sys)
    ensures VersionsOk(ExecWorld(sys, step)) && NetworkOk(ExecWorld(sys, step)) && EffectsOk(ExecWorld(sys, step))
  {
    if step.Deliver? {
      DeliverKeepsVersions(sys, step.k);
    }
  }

  lemma WriteKeeps(sys: System, step: WriteStep)
    requires Inv(sys)
    ensures Inv(ExecWrite(sys, step))
  {
    assert CompletedOk(sys, 0);
    WriteKeepsVersions(sys, step);
    WriteKeepsNetwork(sys, step);
    WriteKeepsRows(sys, step, 0);
    forall id ensures IssuedOk(ExecWrite(sys, step), id) && CompletedOk(ExecWrite(sys, step), id) {
      assert IssuedOk(sys, id) && CompletedOk(sys, id);
      WriteKeepsIssued(sys, step, id);
      WriteKeepsRows(sys, step, id);
    }
  }

  lemma CheckKeeps(sys: System, step: CheckStep)
    requires Inv(sys)
    ensures Inv(ExecCheck(sys, step))
  {
    assert CompletedOk(sys, 0);
    CheckKeepsVersions(sys, step);
    CheckKeepsRows(sys, step, 0);
    forall id ensures IssuedOk(ExecCheck(sys, step), id) && CompletedOk(ExecCheck(sys, step), id) {
      assert IssuedOk(sys, id) && CompletedOk(sys, id);
      CheckKeepsIssued(sys, step, id);
      CheckKeepsRows(sys, step, id);
    }
  }

  lemma WorldKeeps(sys: System, step: WorldStep)
    requires Inv(sys)
    ensures Inv(ExecWorld(sys, step))
  {
    assert CompletedOk(sys, 0);
    WorldKeepsVersions(sys, step);
    WorldKeepsRows(sys, step, 0);
    forall id ensures IssuedOk(ExecWorld(sys, step), id) && CompletedOk(ExecWorld(sys, step), id) {
      assert IssuedOk(sys, id) && CompletedOk(sys, id);
      WorldKeepsIssued(sys, step, id);
      WorldKeepsRows(sys, step, id);
    }
  }

  lemma ExecKeeps(sys: System, step: Step)
    requires Inv(sys)
    ensures Inv(Exec(sys, step))
  {
    match step
    case Write(write) => WriteKeeps(sys, write);
    case Check(check) => CheckKeeps(sys, check);
    case World(world) => WorldKeeps(sys, world);
  }

  lemma {:induction false} RunKeeps(sys: System, steps: seq<Step>)
    requires Inv(sys)
    ensures Inv(Run(sys, steps))
  {
    if steps != [] {
      RunKeeps(sys, steps[..|steps| - 1]);
      ExecKeeps(Run(sys, steps[..|steps| - 1]), steps[|steps| - 1]);
    }
  }

  // ----- theorems about every run -----

  ghost predicate Reachable(sys: System) {
    exists steps :: sys == Run(INITIAL, steps)
  }

  lemma ReachableInv(sys: System)
    requires Reachable(sys)
    ensures Inv(sys)
  {
    var steps :| sys == Run(INITIAL, steps);
    assert Inv(INITIAL);
    RunKeeps(INITIAL, steps);
  }

  /** No request ever sends a second POST, PATCH or DELETE, and none before its row is marked. */
  lemma MutatesAtMostOnce(sys: System, id: RequestId)
    requires Reachable(sys)
    ensures Mutations(sys.issued, id) <= 1
    ensures id in sys.issued ==> id in sys.tables.ops && Sent(sys.tables.ops[id].status)
  {
    ReachableInv(sys);
    assert IssuedOk(sys, id);
    assert id in sys.issued <==> multiset(sys.issued)[id] > 0;
  }

  /** `completed` is reached only after a GET that showed the requested state of that very command. */
  lemma CompletedWasObserved(sys: System, id: RequestId)
    requires Reachable(sys) && id in sys.tables.ops && sys.tables.ops[id].status == Completed
    ensures exists o <- sys.observed :: o.id == id && Confirms(sys.tables.ops[id].cmd, o.got)
  {
    ReachableInv(sys);
    assert CompletedOk(sys, id);
    assert WasObserved(sys.observed, id, sys.tables.ops[id].cmd);
  }

  // ----- opening, selecting and publishing, exactly -----

  /**
   A request is bound to its command. Under another command it is refused; one that is completed or being sent is
   returned as it is; a new update or delete of an event that is not known is refused; all else is loaded, and a new
   request gets a fresh row.
  */
  lemma OpenedExactly(t: Tables, id: RequestId, cmd: Command)
    ensures var (next, result) := LoadTx(t, id, cmd);
      && (result == Rebound <==> id in t.ops && t.ops[id].cmd != cmd)
      && (forall status :: result == Returned(status) <==>
            id in t.ops && t.ops[id].cmd == cmd && t.ops[id].status == status && (status == Completed || status == Sending))
      && (result == NotKnown <==> id !in t.ops && cmd.action != Create && EventOf(id, cmd) !in t.seen)
      && next == (if result == Loaded && id !in t.ops then t.(ops := t.ops[id := Op(cmd, Ready, None, false, 0, 0)]) else t)
  {
  }

  /** A reconciler selects exactly the unconfirmed rows not checked within a minute, and fewer than five times. */
  lemma PickedExactlyWhen(sys: System, w: nat, id: RequestId, at: int)
    ensures var next := Exec(sys, Check(Pick(w, id, at)));
      next == if id in sys.tables.ops && sys.tables.ops[id].status == Sending
                 && sys.tables.ops[id].lastCheck < at - 60 && sys.tables.ops[id].checkCount < 5
              then sys.(picked := sys.picked[w := Picked(id, sys.tables.ops[id].lastCheck, sys.tables.ops[id].checkCount, at)])
              else sys
  {
  }

  /** The owner hears of a completed request once, and in the words of how it was established. */
  lemma MessageExactlyWhen(sys: System, id: RequestId)
    ensures var next := Exec(sys, Check(Publish(id)));
      var told := id in sys.tables.ops && sys.tables.ops[id].status == Completed && sys.tables.ops[id].notice.Some?;
      && next.messages == (if told && id !in sys.messages then sys.messages[id := sys.tables.ops[id].notice.value] else sys.messages)
      && next.tables == (if told then sys.tables.(ops := sys.tables.ops[id := sys.tables.ops[id].(deliver := false)]) else sys.tables)
  {
  }

  // ----- what is known -----

  ghost predicate Completes(before: System, after: System, id: RequestId) {
    && id in before.tables.ops && before.tables.ops[id].status != Completed
    && id in after.tables.ops && after.tables.ops[id].status == Completed
  }

  /** The event is read, or a creation or change of it is confirmed. */
  ghost predicate MakesKnown(before: System, step: Step, target: EventId) {
    || step == World(See(target))
    || exists id :: Completes(before, Exec(before, step), id)
         && before.tables.ops[id].cmd.action != Delete && EventOf(id, before.tables.ops[id].cmd) == target
  }

  /** A deletion of the event is confirmed. */
  ghost predicate Forgets(before: System, step: Step, target: EventId) {
    exists id :: Completes(before, Exec(before, step), id)
      && before.tables.ops[id].cmd.action == Delete && EventOf(id, before.tables.ops[id].cmd) == target
  }

  lemma WriteCompletes(sys: System, step: WriteStep, id: RequestId)
    requires Completes(sys, ExecWrite(sys, step), id)
    ensures sys.active.Some? && sys.active.value.id == id && step == Commit && sys.active.value.stage == Confirmed
    ensures ExecWrite(sys, step).tables.seen == SeenAfter(sys.tables.seen, id, sys.tables.ops[id].cmd)
  {
  }

  lemma CheckCompletes(sys: System, step: CheckStep, id: RequestId)
    requires Completes(sys, ExecCheck(sys, step), id)
    ensures sys.active.Some? && sys.active.value.id == id && step == CheckCommit && sys.active.value.stage == CheckConfirmed
    ensures ExecCheck(sys, step).tables.seen == SeenAfter(sys.tables.seen, id, sys.tables.ops[id].cmd)
  {
  }

  lemma CompletingStep(sys: System, step: Step, id: RequestId)
    requires Inv(sys) && Completes(sys, Exec(sys, step), id)
    ensures sys.active.Some? && sys.active.value.id == id
    ensures (step == Write(Commit) && sys.active.value.stage == Confirmed)
         || (step == Check(CheckCommit) && sys.active.value.stage == CheckConfirmed)
    ensures Exec(sys, step).tables.seen == SeenAfter(sys.tables.seen, id, sys.tables.ops[id].cmd)
  {
    match step
    case Write(write) => WriteCompletes(sys, write, id);
    case Check(check) => CheckCompletes(sys, check, id);
    case World(world) => WorldLeavesOps(sys, world);
  }

  lemma WorldLeavesOps(sys: System, step: WorldStep)
    ensures ExecWorld(sys, step).tables.ops == sys.tables.ops
  {
  }

  lemma WriteLeavesSeen(sys: System, step: WriteStep)
    requires !(step == Commit && At(sys, Confirmed))
    ensures ExecWrite(sys, step).tables.seen == sys.tables.seen
  {
  }

  lemma CheckLeavesSeen(sys: System, step: CheckStep)
    requires !(step == CheckCommit && At(sys, CheckConfirmed))
    ensures ExecCheck(sys, step).tables.seen == sys.tables.seen
  {
  }

  /** A commit of what was confirmed completes its request. */
  lemma ConfirmedCompletes(sys: System)
    requires ActiveOk(sys)
    ensures At(sys, Confirmed) ==> Completes(sys, CommitStep(sys), sys.active.value.id)
    ensures At(sys, CheckConfirmed) ==> Completes(sys, CheckCommitStep(sys), sys.active.value.id)
  {
  }

  lemma OtherwiseSeenStays(sys: System, step: Step)
    requires ActiveOk(sys) && !step.World?
    requires sys.active.Some? ==> !Completes(sys, Exec(sys, step), sys.active.value.id)
    ensures Exec(sys, step).tables.seen == sys.tables.seen
  {
    ConfirmedCompletes(sys);
    if step.Write? {
      WriteLeavesSeen(sys, step.write);
    } else {
      CheckLeavesSeen(sys, step.check);
    }
  }

  lemma SeenStep(sys: System, step: Step, target: EventId)
    requires Inv(sys)
    ensures target in Exec(sys, step).tables.seen <==>
      MakesKnown(sys, step, target) || (target in sys.tables.seen && !Forgets(sys, step, target))
  {
    if id :| Completes(sys, Exec(sys, step), id) {
      CompletingStep(sys, step, id);
      forall other | Completes(sys, Exec(sys, step), other) ensures other == id {
        CompletingStep(sys, step, other);
      }
    } else if !step.World? {
      OtherwiseSeenStays(sys, step);
    }
  }

  /** Something was made at some point, and not lost since. */
  ghost predicate Lasts(made: seq<bool>, lost: seq<bool>)
    requires |made| == |lost|
  {
    exists k | 0 <= k < |made| :: made[k] && forall j | k < j < |lost| :: !lost[j]
  }

  lemma LastsStep(made: seq<bool>, lost: seq<bool>, m: bool, l: bool)
    requires |made| == |lost|
    ensures Lasts(made + [m], lost + [l]) <==> m || (Lasts(made, lost) && !l)
  {
    var longer := made + [m];
    if m {
      assert longer[|made|];
    }
    if Lasts(made, lost) && !l {
      var k :| 0 <= k < |made| && made[k] && forall j | k < j < |lost| :: !lost[j];
      assert longer[k];
    }
    if Lasts(longer, lost + [l]) && !m {
      var k :| 0 <= k < |longer| && longer[k] && forall j | k < j < |lost + [l]| :: !(lost + [l])[j];
      assert made[k] && (lost + [l])[|lost|] == l;
      forall j | k < j < |lost| ensures !lost[j] {
        assert (lost + [l])[j] == lost[j];
      }
    }
  }

  /** Which steps of a run made the event known, */
  ghost function MadeKnown(steps: seq<Step>, target: EventId): (made: seq<bool>)
    ensures |made| == |steps|
  {
    if steps == [] then []
    else
      var init := steps[..|steps| - 1];
      MadeKnown(init, target) + [MakesKnown(Run(INITIAL, init), steps[|steps| - 1], target)]
  }

  /** and which made it forgotten. */
  ghost function MadeForgotten(steps: seq<Step>, target: EventId): (lost: seq<bool>)
    ensures |lost| == |steps|
  {
    if steps == [] then []
    else
      var init := steps[..|steps| - 1];
      MadeForgotten(init, target) + [Forgets(Run(INITIAL, init), steps[|steps| - 1], target)]
  }

  /** Read or confirmed by a write, with no deletion confirmed since. */
  ghost predicate IsKnown(steps: seq<Step>, target: EventId) {
    Lasts(MadeKnown(steps, target), MadeForgotten(steps, target))
  }

  /**
   Over every run: an event is known exactly if it was read, or a write of it confirmed, with no confirmed deletion
   since. So a new update or deletion is refused as not known exactly if that is not so.
  */
  lemma {:induction false} KnownExactlyWhen(steps: seq<Step>, target: EventId)
    ensures target in Run(INITIAL, steps).tables.seen <==> IsKnown(steps, target)
  {
    if steps != [] {
      var n := |steps| - 1;
      KnownExactlyWhen(steps[..n], target);
      assert Inv(INITIAL);
      RunKeeps(INITIAL, steps[..n]);
      var before := Run(INITIAL, steps[..n]);
      SeenStep(before, steps[n], target);
      LastsStep(
        MadeKnown(steps[..n], target), MadeForgotten(steps[..n], target),
        MakesKnown(before, steps[n], target), Forgets(before, steps[n], target));
    }
  }

  lemma RefusedAsUnknownExactlyWhen(steps: seq<Step>, id: RequestId, cmd: Command)
    ensures LoadTx(Run(INITIAL, steps).tables, id, cmd).1 == NotKnown <==>
      id !in Run(INITIAL, steps).tables.ops && cmd.action != Create && !IsKnown(steps, EventOf(id, cmd))
  {
    KnownExactlyWhen(steps, EventOf(id, cmd));
    OpenedExactly(Run(INITIAL, steps).tables, id, cmd);
  }

  // ----- versions a request has looked at -----

  /** What a conditional write names, and what it changed, is what the request's own GET returned. */
  ghost predicate LooksOk(sys: System) {
    && (sys.active.Some? && sys.active.value.stage.Prechecked? && sys.active.value.id in sys.tables.ops ==>
          Look(sys.active.value.id, EventOf(sys.active.value.id, sys.tables.ops[sys.active.value.id].cmd),
               sys.active.value.stage.found) in sys.looks)
    && (forall msg <- sys.network | msg.Conditional? :: Look(msg.id, EventOf(msg.id, msg.cmd), msg.found) in sys.looks)
    && forall effect <- sys.effects :: Look(effect.id, effect.target, effect.before) in sys.looks
  }

  lemma WriteKeepsLooks(sys: System, step: WriteStep)
    requires LooksOk(sys) && ActiveOk(sys)
    ensures LooksOk(ExecWrite(sys, step))
  {
    WriteKeepsWorld(sys, step);
    var sys' := ExecWrite(sys, step);
    if step.Issue? {
      forall msg <- sys'.network | msg.Conditional?
        ensures Look(msg.id, EventOf(msg.id, msg.cmd), msg.found) in sys'.looks
      {
        if msg in sys.network {
          assert Look(msg.id, EventOf(msg.id, msg.cmd), msg.found) in sys.looks;
        }
      }
    } else {
      assert forall look <- sys.looks :: look in sys'.looks;
      forall msg <- sys'.network | msg.Conditional?
        ensures Look(msg.id, EventOf(msg.id, msg.cmd), msg.found) in sys'.looks
      {
        assert Look(msg.id, EventOf(msg.id, msg.cmd), msg.found) in sys.looks;
      }
    }
  }

  lemma CheckKeepsLooks(sys: System, step: CheckStep)
    requires LooksOk(sys) && ActiveOk(sys)
    ensures LooksOk(ExecCheck(sys, step))
  {
    var sys' := ExecCheck(sys, step);
    assert sys'.looks == sys.looks && sys'.network == sys.network && sys'.effects == sys.effects;
  }

  lemma DeliverKeepsLooks(sys: System, k: nat)
    requires LooksOk(sys) && NetworkOk(sys)
    ensures LooksOk(DeliverStep(sys, k))
  {
    var sys' := DeliverStep(sys, k);
    if k < |sys.network| {
      var msg := sys.network[k];
      assert msg in sys.network;
      forall other <- sys'.network ensures other in sys.network {}
      if msg.Conditional? {
        assert Checked(sys, EventOf(msg.id, msg.cmd), msg.found);
        forall effect <- sys'.effects ensures Look(effect.id, effect.target, effect.before) in sys.looks {
          assert effect in sys.effects || effect == Effect(msg.id, EventOf(msg.id, msg.cmd), msg.found);
        }
      }
    }
  }

  lemma ExecKeepsLooks(sys: System, step: Step)
    requires LooksOk(sys) && Inv(sys)
    ensures LooksOk(Exec(sys, step))
  {
    match step
    case Write(write) => WriteKeepsLooks(sys, write);
    case Check(check) => CheckKeepsLooks(sys, check);
    case World(Deliver(k)) => DeliverKeepsLooks(sys, k);
    case World(_) =>
  }

  // ----- recovery reads -----

  function Reads(rereads: seq<RequestId>, id: RequestId): nat {
    multiset(rereads)[id]
  }

  predicate Claimed(active: Option<Work>, id: RequestId) {
    active == Some(Work(id, Checking))
  }

  /** Every read made, and the one a claim entitles to, is counted in the row. */
  ghost predicate ReadsOk(sys: System, id: RequestId) {
    Reads(sys.rereads, id) + (if Claimed(sys.active, id) then 1 else 0) <=
      if id in sys.tables.ops then sys.tables.ops[id].checkCount else 0
  }

  lemma ReadAppended(rereads: seq<RequestId>, reader: RequestId, id: RequestId)
    ensures Reads(rereads + [reader], id) == Reads(rereads, id) + if reader == id then 1 else 0
  {
    assert multiset(rereads + [reader]) == multiset(rereads) + multiset{reader};
  }

  /** Executing a command counts no recovery read, and claims none. */
  lemma WriteCountsNothing(sys: System, step: WriteStep, id: RequestId)
    ensures var sys' := ExecWrite(sys, step);
      id in sys.tables.ops ==> id in sys'.tables.ops && sys'.tables.ops[id].checkCount == sys.tables.ops[id].checkCount
  {
  }

  lemma WriteClaimsNothing(sys: System, step: WriteStep, id: RequestId)
    ensures ExecWrite(sys, step).rereads == sys.rereads
    ensures Claimed(ExecWrite(sys, step).active, id) ==> Claimed(sys.active, id)
  {
  }

  lemma WriteKeepsReads(sys: System, step: WriteStep, id: RequestId)
    requires ReadsOk(sys, id)
    ensures ReadsOk(ExecWrite(sys, step), id)
  {
    WriteCountsNothing(sys, step, id);
    WriteClaimsNothing(sys, step, id);
  }

  lemma ClaimKeepsReads(sys: System, w: nat, now: int, id: RequestId)
    requires ReadsOk(sys, id)
    ensures ReadsOk(ClaimCheckStep(sys, w, now), id)
  {
  }

  lemma RereadKeepsReads(sys: System, step: CheckStep, id: RequestId)
    requires ReadsOk(sys, id) && (step.CheckRead? || step.CheckFail?)
    ensures ReadsOk(ExecCheck(sys, step), id)
  {
    if sys.active.Some? {
      ReadAppended(sys.rereads, sys.active.value.id, id);
    }
    assert ExecCheck(sys, step).tables == sys.tables;
  }

  lemma CommitKeepsReads(sys: System, step: CheckStep, id: RequestId)
    requires ReadsOk(sys, id) && (step.CheckCommit? || step.Publish? || step.Pick?)
    ensures ReadsOk(ExecCheck(sys, step), id)
  {
    assert ExecCheck(sys, step).rereads == sys.rereads;
  }

  lemma CheckKeepsReads(sys: System, step: CheckStep, id: RequestId)
    requires ReadsOk(sys, id)
    ensures ReadsOk(ExecCheck(sys, step), id)
  {
    match step
    case ClaimCheck(w, now) => ClaimKeepsReads(sys, w, now, id);
    case CheckRead => RereadKeepsReads(sys, step, id);
    case CheckFail => RereadKeepsReads(sys, step, id);
    case _ => CommitKeepsReads(sys, step, id);
  }

  lemma WorldKeepsReads(sys: System, step: WorldStep, id: RequestId)
    requires ReadsOk(sys, id)
    ensures ReadsOk(ExecWorld(sys, step), id)
  {
    assert ExecWorld(sys, step).rereads == sys.rereads && ExecWorld(sys, step).tables.ops == sys.tables.ops;
  }

  lemma {:induction false} RunKeepsHistories(steps: seq<Step>, id: RequestId)
    ensures LooksOk(Run(INITIAL, steps)) && ReadsOk(Run(INITIAL, steps), id)
  {
    if steps != [] {
      var before := Run(INITIAL, steps[..|steps| - 1]);
      RunKeepsHistories(steps[..|steps| - 1], id);
      assert Inv(INITIAL);
      RunKeeps(INITIAL, steps[..|steps| - 1]);
      ExecKeepsLooks(before, steps[|steps| - 1]);
      match steps[|steps| - 1]
      case Write(write) => WriteKeepsReads(before, write, id);
      case Check(check) => CheckKeepsReads(before, check, id);
      case World(world) => WorldKeepsReads(before, world, id);
    }
  }

  lemma ReachableHistories(sys: System, id: RequestId)
    requires Reachable(sys)
    ensures Inv(sys) && LooksOk(sys) && ReadsOk(sys, id)
  {
    var steps :| sys == Run(INITIAL, steps);
    ReachableInv(sys);
    RunKeepsHistories(steps, id);
  }

  /**
   Updates and deletes take effect only on the very version of their event that this request's own GET returned,
   and only if that was personal and owner-organised, whatever edits raced.
  */
  lemma OnlyPersonalVersionsChange(sys: System, effect: Effect)
    requires Reachable(sys) && effect in sys.effects
    ensures !effect.before.attendees && !effect.before.recurring && effect.before.organisedBySelf
    ensures Look(effect.id, effect.target, effect.before) in sys.looks
  {
    ReachableHistories(sys, effect.id);
  }

  /** A conditional write that arrives changes the calendar exactly when the event is still the version it names. */
  lemma DeliveryNeedsTheVersion(sys: System, k: nat)
    requires Reachable(sys) && k < |sys.network| && sys.network[k].Conditional?
    ensures var msg := sys.network[k];
      var target := EventOf(msg.id, msg.cmd);
      && (DeliverStep(sys, k).calendar != sys.calendar <==> target in sys.calendar && sys.calendar[target] == msg.found)
      && (forall other <- sys.calendar | other != target ::
            other in DeliverStep(sys, k).calendar && DeliverStep(sys, k).calendar[other] == sys.calendar[other])
  {
    ReachableInv(sys);
    var msg := sys.network[k];
    assert msg in sys.network && Checked(sys, EventOf(msg.id, msg.cmd), msg.found);
    var target := EventOf(msg.id, msg.cmd);
    if target in sys.calendar && sys.calendar[target] == msg.found {
      assert DeliverStep(sys, k).calendar[target].etag == sys.nextTag;
    }
  }

  // ----- the limit on recovery reads -----

  /** A claim that is admitted: nobody has claimed the row since it was selected, going by the recorded time. */
  predicate Admits(sys: System, step: Step) {
    && step.Check? && step.check.ClaimCheck? && sys.active.None? && step.check.w in sys.picked
    && var picked := sys.picked[step.check.w]; ClaimCheckTx(sys.tables, picked.id, picked.lastCheck, step.check.now).1
  }

  /** An admitted claim would pass the limit of the selection once more. */
  predicate ClaimsWithin(sys: System, step: Step) {
    Admits(sys, step) ==> sys.tables.ops[sys.picked[step.check.w].id].checkCount < MAX_CHECKS
  }

  predicate CountsWithin(sys: System) {
    forall id <- sys.tables.ops :: sys.tables.ops[id].checkCount <= MAX_CHECKS
  }

  lemma ClaimCounts(sys: System, w: nat, now: int)
    ensures CountsWithin(ClaimCheckStep(sys, w, now)) <==>
      CountsWithin(sys) && ClaimsWithin(sys, Check(ClaimCheck(w, now)))
  {
    var sys' := ClaimCheckStep(sys, w, now);
    if Admits(sys, Check(ClaimCheck(w, now))) {
      var id := sys.picked[w].id;
      assert sys'.tables.ops[id].checkCount == sys.tables.ops[id].checkCount + 1;
      forall other <- sys.tables.ops ensures other in sys'.tables.ops
        && (other != id ==> sys'.tables.ops[other] == sys.tables.ops[other]) {
      }
    } else {
      assert sys'.tables == sys.tables;
    }
  }

  /** No other step counts. */
  predicate SameCounts(a: System, b: System) {
    && (forall id <- a.tables.ops :: id in b.tables.ops && b.tables.ops[id].checkCount == a.tables.ops[id].checkCount)
    && forall id <- b.tables.ops | id !in a.tables.ops :: b.tables.ops[id].checkCount == 0
  }

  lemma WriteLeavesCounts(sys: System, step: WriteStep)
    ensures SameCounts(sys, ExecWrite(sys, step))
  {
  }

  lemma OthersLeaveCounts(sys: System, step: CheckStep)
    requires !step.ClaimCheck?
    ensures SameCounts(sys, ExecCheck(sys, step))
  {
  }

  lemma StepCounts(sys: System, step: Step)
    ensures CountsWithin(Exec(sys, step)) <==> CountsWithin(sys) && ClaimsWithin(sys, step)
  {
    match step
    case Write(write) => WriteLeavesCounts(sys, write);
    case Check(ClaimCheck(w, now)) => ClaimCounts(sys, w, now);
    case Check(check) => OthersLeaveCounts(sys, check);
    case World(world) => assert ExecWorld(sys, world).tables.ops == sys.tables.ops;
  }

  ghost predicate WithinAt(steps: seq<Step>, k: nat)
    requires k < |steps|
  {
    ClaimsWithin(Run(INITIAL, steps[..k]), steps[k])
  }

  ghost predicate AllWithin(steps: seq<Step>) {
    forall k | 0 <= k < |steps| :: WithinAt(steps, k)
  }

  lemma AllWithinSplits(steps: seq<Step>)
    requires steps != []
    ensures AllWithin(steps) <==> AllWithin(steps[..|steps| - 1]) && WithinAt(steps, |steps| - 1)
  {
    var before := steps[..|steps| - 1];
    forall k | 0 <= k < |before| ensures WithinAt(before, k) == WithinAt(steps, k) {
      assert before[..k] == steps[..k];
    }
  }

  /**
   Over any run, whatever the clocks do: no row counts more than five recovery reads if and only if every admitted
   claim still found fewer than five, which the selection checked but the claim does not.
  */
  lemma {:induction false} CountsWithinExactlyWhen(steps: seq<Step>)
    ensures CountsWithin(Run(INITIAL, steps)) <==> AllWithin(steps)
  {
    if steps != [] {
      CountsWithinExactlyWhen(steps[..|steps| - 1]);
      StepCounts(Run(INITIAL, steps[..|steps| - 1]), steps[|steps| - 1]);
      AllWithinSplits(steps);
    }
  }

  /** The clock was not set back between selecting a row and claiming it. */
  predicate Steady(sys: System, step: Step) {
    step.Check? && step.check.ClaimCheck? && step.check.w in sys.picked ==> sys.picked[step.check.w].at <= step.check.now
  }

  ghost predicate SteadyAt(steps: seq<Step>, k: nat)
    requires k < |steps|
  {
    Steady(Run(INITIAL, steps[..k]), steps[k])
  }

  ghost predicate SteadyRun(steps: seq<Step>) {
    forall k | 0 <= k < |steps| :: SteadyAt(steps, k)
  }

  lemma SteadyRunSplits(steps: seq<Step>)
    requires steps != [] && SteadyRun(steps)
    ensures SteadyRun(steps[..|steps| - 1]) && Steady(Run(INITIAL, steps[..|steps| - 1]), steps[|steps| - 1])
  {
    var before := steps[..|steps| - 1];
    assert SteadyAt(steps, |steps| - 1);
    forall k | 0 <= k < |before| ensures SteadyAt(before, k) {
      assert before[..k] == steps[..k] && SteadyAt(steps, k);
    }
  }

  ghost predicate ChecksOk(sys: System) {
    && (forall id <- sys.tables.ops :: sys.tables.ops[id].checkCount <= MAX_CHECKS)
    && forall w <- sys.picked :: PickOk(sys.tables.ops, sys.picked[w])
  }

  ghost predicate PickOk(ops: map<RequestId, Op>, picked: Picked) {
    && picked.id in ops && picked.checkCount < MAX_CHECKS && picked.lastCheck < picked.at - CHECK_SPACING
    && ops[picked.id].lastCheck >= picked.lastCheck
    && (ops[picked.id].lastCheck == picked.lastCheck ==> ops[picked.id].checkCount == picked.checkCount)
  }

  lemma WriteKeepsChecks(sys: System, step: WriteStep)
    requires ChecksOk(sys) && ActiveOk(sys)
    ensures ChecksOk(ExecWrite(sys, step))
  {
  }

  lemma CheckKeepsChecks(sys: System, step: CheckStep)
    requires ChecksOk(sys) && ActiveOk(sys) && Steady(sys, Check(step))
    ensures ChecksOk(ExecCheck(sys, step))
  {
  }

  lemma StepKeepsChecks(sys: System, step: Step)
    requires ChecksOk(sys) && ActiveOk(sys) && Steady(sys, step)
    ensures ChecksOk(Exec(sys, step))
  {
    match step
    case Write(write) => WriteKeepsChecks(sys, write);
    case Check(check) => CheckKeepsChecks(sys, check);
    case World(world) =>
      assert ExecWorld(sys, world).tables.ops == sys.tables.ops && ExecWorld(sys, world).picked == sys.picked;
  }

  lemma {:induction false} SteadyRunKeeps(steps: seq<Step>)
    requires SteadyRun(steps)
    ensures ChecksOk(Run(INITIAL, steps))
  {
    if steps != [] {
      var init := steps[..|steps| - 1];
      SteadyRunSplits(steps);
      SteadyRunKeeps(init);
      assert Inv(INITIAL);
      RunKeeps(INITIAL, init);
      StepKeepsChecks(Run(INITIAL, init), steps[|steps| - 1]);
    }
  }

  /**
   While no clock is set back between selecting and claiming, a request is read back for recovery at most five
   times, over any number of reconcilers. Each read is counted, whatever the clocks do.
  */
  lemma RecoveryReadsAreBounded(steps: seq<Step>, id: RequestId)
    ensures var sys := Run(INITIAL, steps);
      && Reads(sys.rereads, id) <= (if id in sys.tables.ops then sys.tables.ops[id].checkCount else 0)
      && (SteadyRun(steps) ==> CountsWithin(sys) && Reads(sys.rereads, id) <= MAX_CHECKS)
  {
    RunKeepsHistories(steps, id);
    if SteadyRun(steps) {
      SteadyRunKeeps(steps);
    }
  }

  /** Reconcilers that all selected one row before any of them claimed it, and the reads some have made since. */
  ghost predicate Racing(sys: System, id: RequestId, picks: nat, done: nat) {
    && Reachable(sys) && sys.active.None? && id in sys.tables.ops && sys.tables.ops[id].status == Sending
    && sys.tables.ops[id].lastCheck == 0 && sys.tables.ops[id].checkCount == done && Reads(sys.rereads, id) == done
    && forall w | done <= w < picks :: w in sys.picked && sys.picked[w].id == id && sys.picked[w].lastCheck == 0
  }

  lemma ReachableStep(sys: System, step: Step)
    requires Reachable(sys)
    ensures Reachable(Exec(sys, step))
  {
    var steps :| sys == Run(INITIAL, steps);
    var longer := Extend(INITIAL, steps, step);
  }

  lemma OneMorePick(sys: System, id: RequestId, picks: nat) returns (next: System)
    requires Racing(sys, id, picks, 0)
    ensures Racing(next, id, picks + 1, 0)
  {
    next := Exec(sys, Check(Pick(picks, id, CHECK_SPACING + 1)));
    ReachableStep(sys, Check(Pick(picks, id, CHECK_SPACING + 1)));
  }

  /** A claim stamped with the very time already recorded leaves the row open to the others. */
  lemma OneMoreRead(sys: System, id: RequestId, picks: nat, done: nat) returns (next: System)
    requires Racing(sys, id, picks, done) && done < picks
    ensures Racing(next, id, picks, done + 1)
  {
    var claimed := Exec(sys, Check(ClaimCheck(done, 0)));
    ReachableStep(sys, Check(ClaimCheck(done, 0)));
    next := Exec(claimed, Check(CheckFail));
    ReachableStep(claimed, Check(CheckFail));
    ReadAppended(sys.rereads, id, id);
  }

  /** A command that was marked and then interrupted. */
  lemma Interrupted(id: RequestId, cmd: Command) returns (sys: System)
    requires cmd.action == Create
    ensures Racing(sys, id, 0, 0)
  {
    assert Run(INITIAL, []) == INITIAL;
    ReachableStep(INITIAL, Write(Open(id, cmd)));
    var started := Exec(INITIAL, Write(Open(id, cmd)));
    ReachableStep(started, Write(Gate(true)));
    var marked := Exec(started, Write(Gate(true)));
    ReachableStep(marked, World(Crash));
    sys := Exec(marked, World(Crash));
  }

  /** With clocks set back to the recorded time there is no limit: any number of reads is reachable. */
  lemma SetBackClockAllowsAnyNumber(id: RequestId, cmd: Command, n: nat) returns (sys: System)
    requires cmd.action == Create
    ensures Reachable(sys) && Reads(sys.rereads, id) == n
  {
    sys := Interrupted(id, cmd);
    for k := 0 to n
      invariant Racing(sys, id, k, 0)
    {
      sys := OneMorePick(sys, id, k);
    }
    for k := 0 to n
      invariant Racing(sys, id, n, k)
    {
      sys := OneMoreRead(sys, id, n, k);
    }
  }

  /** What later states keep of an operation: its command always; once completed, its outcome and its message. */
  ghost predicate Keeps(a: System, b: System, id: RequestId) {
    && (id in a.tables.ops ==> id in b.tables.ops && b.tables.ops[id].cmd == a.tables.ops[id].cmd)
    && (id in a.tables.ops && a.tables.ops[id].status == Completed ==>
          b.tables.ops[id].status == Completed && b.tables.ops[id].notice == a.tables.ops[id].notice)
    && (id in a.messages ==> id in b.messages && b.messages[id] == a.messages[id])
  }

  lemma WriteSettles(sys: System, step: WriteStep, id: RequestId)
    requires ActiveOk(sys)
    ensures Keeps(sys, ExecWrite(sys, step), id)
  {
  }

  lemma CheckSettles(sys: System, step: CheckStep, id: RequestId)
    requires ActiveOk(sys)
    ensures Keeps(sys, ExecCheck(sys, step), id)
  {
  }

  lemma {:induction false} RunSettles(sys: System, steps: seq<Step>, id: RequestId)
    requires Inv(sys)
    ensures Keeps(sys, Run(sys, steps), id)
  {
    if steps != [] {
      var init, last := Run(sys, steps[..|steps| - 1]), steps[|steps| - 1];
      RunSettles(sys, steps[..|steps| - 1], id);
      RunKeeps(sys, steps[..|steps| - 1]);
      match last
      case Write(write) => WriteSettles(init, write, id);
      case Check(check) => CheckSettles(init, check, id);
      case World(world) =>
    }
  }

  /** A request id stays bound to its command, completion is absorbing, and its one message never changes. */
  lemma CompletionIsAbsorbing(sys: System, steps: seq<Step>, id: RequestId)
    requires Reachable(sys) && id in sys.tables.ops
    ensures var later := Run(sys, steps);
      && id in later.tables.ops && later.tables.ops[id].cmd == sys.tables.ops[id].cmd
      && (sys.tables.ops[id].status == Completed ==>
            later.tables.ops[id].status == Completed && later.tables.ops[id].notice == sys.tables.ops[id].notice)
      && (id in sys.messages ==>
            && id in later.messages && later.messages[id] == sys.messages[id]
            && later.tables.ops[id].status == Completed && later.tables.ops[id].notice == Some(sys.messages[id]))
  {
    ReachableInv(sys);
    assert CompletedOk(sys, id);
    RunSettles(sys, steps, id);
  }
}
