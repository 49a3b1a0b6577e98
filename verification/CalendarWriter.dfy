/**
 One-shot personal calendar writes with readback (calendar_writer.py): what a command asks for,
 what confirms it, and the protocol that never sends twice. Digests are taken to be collision-free,
 so a command stands for its own fingerprint.
*/
module CalendarWriter {
  import opened Wrappers

  // ----- commands and their payload -----

  datatype Action = Create | Update | Delete

  /** A calendar time: a whole day, or an instant whatever offset it is written with. */
  datatype When = AllDay(date: int) | At(instant: int)

  /** An argument as the chat model supplied it: text, or some other JSON value. */
  datatype Arg = Text(s: string) | Other

  datatype Args = Args(title: Option<Arg>, start: Option<Arg>, end: Option<Arg>, eventId: Option<Arg>, unexpected: bool)

  /** The fields a write sets; an absent field is left as it is. */
  datatype Payload = Payload(summary: Option<string>, window: Option<(When, When)>)

  predicate Before(a: When, b: When) {
    match (a, b)
    case (AllDay(d), AllDay(e)) => d < e
    case (At(s), At(t)) => s < t
    case _ => false
  }

  /** `_time`, given how texts are read as calendar times. */
  function TimeOf(arg: Arg, parse: string -> Option<When>): Option<When> {
    if arg.Text? then parse(arg.s) else None
  }

  function Normalize(action: Action, args: Args, parse: string -> Option<When>, validId: string -> bool): (r: Option<Payload>)
    ensures r.Some? && r.value.window.Some? ==> Before(r.value.window.value.0, r.value.window.value.1)
    ensures r.Some? && action == Create ==> r.value.summary.Some? && r.value.window.Some?
    ensures r.Some? && action == Update ==> r.value != Payload(None, None)
    ensures r.Some? && action == Delete ==> r.value == Payload(None, None)
    ensures r.Some? && action != Create ==> args.eventId.Some? && args.eventId.value.Text?
  {
    if args.unexpected || (action == Create && args.eventId.Some?) then None
    else if action == Create && (args.title.None? || args.start.None? || args.end.None?) then None
    else if args.title.Some? && !(args.title.value.Text? && 1 <= |args.title.value.s| <= 300) then None
    else if args.start.Some? != args.end.Some? then None
    else
      var summary := if args.title.Some? then Some(args.title.value.s) else None;
      var start := if args.start.Some? then TimeOf(args.start.value, parse) else None;
      var end := if args.end.Some? then TimeOf(args.end.value, parse) else None;
      if args.start.Some? && (start.None? || end.None? || !Before(start.value, end.value)) then None
      else
        var payload := Payload(summary, if args.start.Some? then Some((start.value, end.value)) else None);
        if action == Update && payload == Payload(None, None) then None
        else if action == Delete && payload != Payload(None, None) then None
        else if action != Create && !(args.eventId.Some? && args.eventId.value.Text? && validId(args.eventId.value.s)) then None
        else Some(payload)
  }

  predicate GoodTitle(title: Option<Arg>) {
    title.Some? ==> title.value.Text? && 1 <= |title.value.s| <= 300
  }

  /** Two readable times in order, of one kind. */
  predicate GoodWindow(start: Option<Arg>, end: Option<Arg>, parse: string -> Option<When>, window: (When, When)) {
    && start.Some? && start.value.Text? && parse(start.value.s) == Some(window.0)
    && end.Some? && end.value.Text? && parse(end.value.s) == Some(window.1)
    && match (window.0, window.1)
       case (AllDay(d), AllDay(e)) => d < e
       case (At(s), At(t)) => s < t
       case _ => false
  }

  /**
   Exactly what is accepted, and as what: a creation has title and times and no event; an update names an event and has
   a title or times; a deletion names an event and has neither; titles are texts of 1 to 300 bytes, times come in pairs.
  */
  lemma NormalizedExactlyWhen(
    action: Action, args: Args, parse: string -> Option<When>, validId: string -> bool, payload: Payload)
    ensures Normalize(action, args, parse, validId) == Some(payload) <==>
      && !args.unexpected && GoodTitle(args.title)
      && payload.summary == (if args.title.Some? then Some(args.title.value.s) else None)
      && (if payload.window.Some? then GoodWindow(args.start, args.end, parse, payload.window.value)
          else args.start.None? && args.end.None?)
      && (match action
          case Create => args.eventId.None? && payload.summary.Some? && payload.window.Some?
          case Update => payload.summary.Some? || payload.window.Some?
          case Delete => payload.summary.None? && payload.window.None?)
      && (action != Create ==> args.eventId.Some? && args.eventId.value.Text? && validId(args.eventId.value.s))
  {
  }

  // ----- remote events -----

  type RequestId = nat

  /** The id a create derives from its request, or the id of an event that came from elsewhere. */
  datatype EventId = Derived(request: RequestId) | Foreign(id: string)

  datatype Command = Command(action: Action, target: Option<EventId>, payload: Payload)

  datatype Fields = Fields(summary: Option<string>, start: Option<When>, end: Option<When>)

  datatype Event = Event(
    etag: nat, cancelled: bool, fields: Fields, attendees: bool, recurring: bool, organisedBySelf: bool,
    marker: Option<Command>)

  predicate Personal(event: Event) {
    !event.attendees && !event.recurring && event.organisedBySelf
  }

  /** What the server makes of the fields when it applies a payload. */
  function Applied(fields: Fields, payload: Payload): Fields {
    Fields(if payload.summary.Some? then payload.summary else fields.summary,
           if payload.window.Some? then Some(payload.window.value.0) else fields.start,
           if payload.window.Some? then Some(payload.window.value.1) else fields.end)
  }

  /** `_matches`: the observed fields carry every requested value. */
  predicate Matches(fields: Fields, payload: Payload) {
    && (payload.summary.Some? ==> fields.summary == payload.summary)
    && (payload.window.Some? ==>
          fields.start == Some(payload.window.value.0) && fields.end == Some(payload.window.value.1))
  }

  /** Matching is exactly being a fixed point of the write: readback accepts what the write produces, and only that. */
  lemma MatchesIffAlreadyApplied(fields: Fields, payload: Payload)
    ensures Matches(fields, payload) <==> Applied(fields, payload) == fields
    ensures Matches(Applied(fields, payload), payload)
  {
  }

  /** The readback test: the requested state, as seen in one GET. */
  predicate Confirms(cmd: Command, got: Option<Event>) {
    if cmd.action == Delete then got.None? || got.value.cancelled
    else
      && got.Some? && !got.value.cancelled && Matches(got.value.fields, cmd.payload)
      && (cmd.action == Create ==> got.value.marker == Some(cmd))
  }

  /**
   Exactly when a readback confirms: a deletion if the event is gone or cancelled; otherwise if it is there, not
   cancelled, and writing the payload again would change nothing; a creation only with its own mark.
  */
  lemma ConfirmedExactlyWhen(cmd: Command, got: Option<Event>)
    ensures Confirms(cmd, got) <==>
      match cmd.action
      case Delete => got.Some? ==> got.value.cancelled
      case Update => got.Some? && !got.value.cancelled && Applied(got.value.fields, cmd.payload) == got.value.fields
      case Create =>
        && got.Some? && !got.value.cancelled && Applied(got.value.fields, cmd.payload) == got.value.fields
        && got.value.marker == Some(cmd)
  {
  }

  function EventOf(id: RequestId, cmd: Command): EventId {
    if cmd.action == Create || cmd.target.None? then Derived(id) else cmd.target.value
  }

  // ----- durable rows -----

  datatype Status = Ready | WaitingForGoogle | Sending | Completed

  /** How completion was established; it decides the text the owner reads. */
  datatype Notice = Direct | Recovered

  datatype Op = Op(cmd: Command, status: Status, notice: Option<Notice>, deliver: bool, lastCheck: int, checkCount: nat)

  const MAX_CHECKS := 5
  const CHECK_SPACING := 60

  datatype Tables = Tables(ops: map<RequestId, Op>, seen: set<EventId>)

  datatype LoadResult = Rebound | Returned(status: Status) | NotKnown | Loaded

  /** Reading or inserting the row, under the lock. */
  function LoadTx(t: Tables, id: RequestId, cmd: Command): (Tables, LoadResult) {
    if id in t.ops then
      if t.ops[id].cmd != cmd then (t, Rebound)
      else if t.ops[id].status in {Completed, Sending} then (t, Returned(t.ops[id].status))
      else (t, Loaded)
    else if cmd.action != Create && EventOf(id, cmd) !in t.seen then (t, NotKnown)
    else (t.(ops := t.ops[id := Op(cmd, Ready, None, false, 0, 0)]), Loaded)
  }

  function GateTx(t: Tables, id: RequestId, writable: bool): Tables
    requires id in t.ops
  {
    var op := t.ops[id];
    t.(ops := t.ops[id := if writable then op.(status := Sending) else op.(status := WaitingForGoogle, deliver := true)])
  }

  function CommitTx(t: Tables, id: RequestId, confirmed: bool): Tables
    requires id in t.ops
  {
    var op := t.ops[id];
    if !confirmed then t.(ops := t.ops[id := op.(status := Sending)])
    else Tables(t.ops[id := op.(status := Completed, notice := Some(Direct))], SeenAfter(t.seen, id, op.cmd))
  }

  function SeenAfter(seen: set<EventId>, id: RequestId, cmd: Command): set<EventId> {
    if cmd.action == Delete then seen - {EventOf(id, cmd)} else seen + {EventOf(id, cmd)}
  }

  /** The compare-and-set that admits one recovery read per recorded check time. */
  function ClaimCheckTx(t: Tables, id: RequestId, lastCheck: int, now: int): (Tables, bool) {
    if id in t.ops && t.ops[id].status == Sending && t.ops[id].lastCheck == lastCheck then
      (t.(ops := t.ops[id := t.ops[id].(lastCheck := now, checkCount := t.ops[id].checkCount + 1)]), true)
    else (t, false)
  }

  // Of two reconcilers that selected the same row, the second is admitted too exactly if the first claimed at the
  // very instant already recorded: a clock that moved on keeps it out.
  lemma SecondClaimExactlyWhen(t: Tables, id: RequestId, lastCheck: int, now: int, later: int)
    requires ClaimCheckTx(t, id, lastCheck, now).1
    ensures var (next, _) := ClaimCheckTx(t, id, lastCheck, now);
      && next.ops[id].checkCount == t.ops[id].checkCount + 1
      && (ClaimCheckTx(next, id, lastCheck, later).1 <==> now == lastCheck)
  {
  }

  function RecoveredTx(t: Tables, id: RequestId): Tables
    requires id in t.ops
  {
    var op := t.ops[id];
    Tables(t.ops[id := op.(status := Completed, notice := Some(Recovered), deliver := true)], SeenAfter(t.seen, id, op.cmd))
  }
}
