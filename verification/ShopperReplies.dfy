/**
 The life of a reply (shopper_service.py, `follow_up` and `hold`). A conversation as read is identified by its
 digest, taken to be injective: `Key` is the conversation and its rows. Workers read, decide, compare again,
 claim and send; any of them may stop between two transactions, and the owner may put a contact on hold.
*/
module ShopperReplies {
  import opened Wrappers
  import opened ReplySchedule

  const START_HOUR := 8
  const LATEST_HOUR := 23

  type Url = string
  type Worker = nat

  datatype Row = Row(own: bool, text: string)

  /** What the fingerprint digests. */
  datatype Key = Key(conversation: Url, rows: seq<Row>)

  datatype Status = Pending | Superseded | OnHold | Attempted | Reported(outcome: string)

  datatype Reply = Reply(contact: Url, received: int, due: int, status: Status)

  /** A worker after its first transaction: the hour was wrong, or it decided and may compare, claim and answer. */
  datatype Flight =
    | Late(key: Key, now: int)
    | Deciding(key: Key, now: int)
    | Claimed(key: Key, now: int, seen: seq<Row>)
    | Answered(key: Key, outcome: string)

  /** One message clicked: for which reading, when that was decided, what the conversation was before the claim, and when. */
  datatype Sending = Sending(key: Key, decidedAt: int, seen: seq<Row>, clickedAt: int)

  /** When a reading is to be answered, and when answers may go out. */
  datatype Timetable = Timetable(due: (Key, int) -> int, open: int -> bool)

  datatype System = System(
    times: Timetable, replies: map<Key, Reply>, flights: map<Worker, Flight>, sent: seq<Sending>)

  /** Reading, scheduling and holding. */
  datatype ReadStep =
    | Observe(worker: Worker, contact: Url, key: Key, now: int)
    | Reschedule(worker: Worker)
    | Hold(contact: Url)
    | Crash(worker: Worker)

  /** From the second reading to the recorded outcome. */
  datatype SendStep =
    | Claim(worker: Worker, again: seq<Row>)
    | Answer(worker: Worker, ready: bool, outcome: string, clickedAt: int)
    | Record(worker: Worker)

  datatype Step = Reading(read: ReadStep) | Sends(send: SendStep)

  /** The schedule as configured: 08:00 to 23:00, with the delay drawn from the digest. */
  function Schedule(digest: Key -> nat): Timetable {
    Timetable(
      (key, now) => ReplyDue(now, digest(key), START_HOUR, LATEST_HOUR).value,
      now => InHours(now, START_HOUR, LATEST_HOUR))
  }

  function Initial(digest: Key -> nat): System {
    System(Schedule(digest), map[], map[], [])
  }

  /** The seller spoke last, after something the owner had said. */
  predicate Question(rows: seq<Row>) {
    rows != [] && !rows[|rows| - 1].own && exists row <- rows :: row.own
  }

  /** The contact's pending replies, but for one that may be excepted, take the given status. */
  function Closed(replies: map<Key, Reply>, contact: Url, except: Option<Key>, status: Status): map<Key, Reply> {
    map key <- replies ::
      if replies[key].contact == contact && replies[key].status == Pending && except != Some(key)
      then replies[key].(status := status) else replies[key]
  }

  /** The transaction after a reading that asks for an answer. */
  function ObserveTx(times: Timetable, replies: map<Key, Reply>, contact: Url, key: Key, now: int): map<Key, Reply> {
    var rest := Closed(replies, contact, Some(key), Superseded);
    if key in rest then rest else rest[key := Reply(contact, now, times.due(key, now), Pending)]
  }

  function ObserveStep(sys: System, worker: Worker, contact: Url, key: Key, now: int): System {
    if worker in sys.flights then sys
    else if key.rows == [] || key.rows[|key.rows| - 1].own then
      sys.(replies := Closed(sys.replies, contact, None, Superseded))
    else if !Question(key.rows) then sys
    else
      var replies := ObserveTx(sys.times, sys.replies, contact, key, now);
      var row := replies[key];
      var next := sys.(replies := replies);
      if row.status != Pending || row.due > now then next
      else if !sys.times.open(now) then next.(flights := sys.flights[worker := Late(key, now)])
      else next.(flights := sys.flights[worker := Deciding(key, now)])
  }

  function SetReply(sys: System, key: Key, reply: Reply): System {
    sys.(replies := sys.replies[key := reply])
  }

  predicate IsPending(sys: System, key: Key) {
    key in sys.replies && sys.replies[key].status == Pending
  }

  function Done(sys: System, worker: Worker): System {
    sys.(flights := sys.flights - {worker})
  }

  function RescheduleStep(sys: System, worker: Worker): System {
    if worker in sys.flights && sys.flights[worker].Late? then
      var key, now := sys.flights[worker].key, sys.flights[worker].now;
      if IsPending(sys, key)
      then Done(SetReply(sys, key, sys.replies[key].(due := sys.times.due(key, now))), worker)
      else Done(sys, worker)
    else sys
  }

  /** The second reading and the compare-and-set. */
  function ClaimStep(sys: System, worker: Worker, again: seq<Row>): System {
    if worker in sys.flights && sys.flights[worker].Deciding? then
      var key, now := sys.flights[worker].key, sys.flights[worker].now;
      if again != key.rows || !IsPending(sys, key) then Done(sys, worker)
      else
        SetReply(sys, key, sys.replies[key].(status := Attempted)).(flights := sys.flights[worker := Claimed(key, now, again)])
    else sys
  }

  function AnswerStep(sys: System, worker: Worker, ready: bool, outcome: string, clickedAt: int): System {
    if worker in sys.flights && sys.flights[worker].Claimed? then
      var key, now, seen := sys.flights[worker].key, sys.flights[worker].now, sys.flights[worker].seen;
      sys.(
        sent := if ready then sys.sent else sys.sent + [Sending(key, now, seen, clickedAt)],
        flights := sys.flights[worker := Answered(key, outcome)])
    else sys
  }

  function RecordStep(sys: System, worker: Worker): System {
    if worker in sys.flights && sys.flights[worker].Answered? && sys.flights[worker].key in sys.replies then
      var key := sys.flights[worker].key;
      Done(SetReply(sys, key, sys.replies[key].(status := Reported(sys.flights[worker].outcome))), worker)
    else sys
  }

  function ExecRead(sys: System, step: ReadStep): System {
    match step
    case Observe(worker, contact, key, now) => ObserveStep(sys, worker, contact, key, now)
    case Reschedule(worker) => RescheduleStep(sys, worker)
    case Hold(contact) => sys.(replies := Closed(sys.replies, contact, None, OnHold))
    case Crash(worker) => Done(sys, worker)
  }

  function ExecSend(sys: System, step: SendStep): System {
    match step
    case Claim(worker, again) => ClaimStep(sys, worker, again)
    case Answer(worker, ready, outcome, clickedAt) => AnswerStep(sys, worker, ready, outcome, clickedAt)
    case Record(worker) => RecordStep(sys, worker)
  }

  function Exec(sys: System, step: Step): System {
    match step
    case Reading(read) => ExecRead(sys, read)
    case Sends(send) => ExecSend(sys, send)
  }

  function Run(start: System, steps: seq<Step>): System {
    if steps == [] then start else Exec(Run(start, steps[..|steps| - 1]), steps[|steps| - 1])
  }

  /** One more step of a run. */
  lemma Extend(start: System, steps: seq<Step>, step: Step) returns (longer: seq<Step>)
    ensures longer == steps + [step] && Run(start, longer) == Exec(Run(start, steps), step)
  {
    longer := steps + [step];
    assert longer[..|longer| - 1] == steps;
  }

  lemma {:induction false} RunConcat(start: System, a: seq<Step>, b: seq<Step>)
    ensures Run(start, a + b) == Run(Run(start, a), b)
    decreases |b|
  {
    if b == [] {
      assert a + b == a;
    } else {
      RunConcat(start, a, b[..|b| - 1]);
      assert (a + b)[..|a + b| - 1] == a + b[..|b| - 1];
    }
  }

  // ----- the invariant -----

  ghost predicate OnePending(replies: map<Key, Reply>) {
    forall a, b | a in replies && b in replies && replies[a].status == replies[b].status == Pending
        && replies[a].contact == replies[b].contact :: a == b
  }

  /** Late enough after the first reading. */
  predicate Rested(replies: map<Key, Reply>, key: Key, t: int) {
    key in replies && t >= replies[key].received + 15 * MINUTE
  }

  ghost predicate ReplyOk(times: Timetable, replies: map<Key, Reply>, key: Key)
    requires key in replies
  {
    Question(key.rows) && Rested(replies, key, replies[key].due) && times.open(replies[key].due)
  }

  ghost predicate FlightOk(sys: System, flight: Flight) {
    match flight
    case Late(key, now) => Rested(sys.replies, key, now)
    case Deciding(key, now) => Rested(sys.replies, key, now) && sys.times.open(now)
    case Claimed(key, now, seen) =>
      && seen == key.rows && Rested(sys.replies, key, now) && sys.times.open(now)
      && sys.replies[key].status == Attempted && forall s <- sys.sent :: s.key != key
    case Answered(key, _) => key in sys.replies && sys.replies[key].status == Attempted
  }

  predicate Holding(flight: Flight) {
    flight.Claimed? || flight.Answered?
  }

  ghost predicate OneHolder(flights: map<Worker, Flight>) {
    forall v, w | v in flights && w in flights && Holding(flights[v]) && Holding(flights[w])
        && flights[v].key == flights[w].key :: v == w
  }

  /** A message that went out was claimed first, in time and within hours. */
  ghost predicate SentOk(times: Timetable, replies: map<Key, Reply>, s: Sending) {
    && s.seen == s.key.rows && Rested(replies, s.key, s.decidedAt) && times.open(s.decidedAt)
    && (replies[s.key].status == Attempted || replies[s.key].status.Reported?)
  }

  ghost predicate SentOnce(sent: seq<Sending>) {
    forall i, j | 0 <= i < j < |sent| :: sent[i].key != sent[j].key
  }

  ghost predicate Inv(sys: System) {
    && Timely(sys.times) && TableOk(sys.times, sys.replies) && OneHolder(sys.flights) && SentOnce(sys.sent)
    && (forall w <- sys.flights :: FlightOk(sys, sys.flights[w]))
    && forall s <- sys.sent :: SentOk(sys.times, sys.replies, s)
  }

  /** Rows keep their contact and first reading, and one that left pending keeps its status or has it recorded. */
  ghost predicate Onward(before: Reply, after: Reply) {
    && before.contact == after.contact && before.received == after.received
    && match before.status
       case Pending => true
       case Attempted => after.status == Attempted || after.status.Reported?
       case _ => after.status == before.status && after.due == before.due
  }

  ghost predicate AllOnward(before: map<Key, Reply>, after: map<Key, Reply>) {
    forall key <- before :: key in after && Onward(before[key], after[key])
  }

  /** Answers are due within the hours, fifteen minutes on at the earliest. */
  ghost predicate Timely(times: Timetable) {
    forall key, now :: times.due(key, now) >= now + 15 * MINUTE && times.open(times.due(key, now))
  }

  lemma ScheduleIsTimely(digest: Key -> nat)
    ensures Timely(Schedule(digest))
  {
    forall key, now
      ensures Schedule(digest).due(key, now) >= now + 15 * MINUTE && Schedule(digest).open(Schedule(digest).due(key, now))
    {
      ReplyIsTimely(now, digest(key), START_HOUR, LATEST_HOUR);
    }
  }

  ghost predicate TableOk(times: Timetable, replies: map<Key, Reply>) {
    OnePending(replies) && forall key <- replies :: ReplyOk(times, replies, key)
  }

  /** Rows being worked on are left alone. */
  ghost predicate AttemptsKept(before: map<Key, Reply>, after: map<Key, Reply>) {
    forall key <- before | before[key].status == Attempted :: key in after && after[key].status == Attempted
  }

  /** A sound table that only moves on, and keeps the rows being worked on, keeps the rest. */
  lemma TableKeeps(sys: System, replies: map<Key, Reply>)
    requires Inv(sys) && TableOk(sys.times, replies)
    requires AllOnward(sys.replies, replies) && AttemptsKept(sys.replies, replies)
    ensures Inv(sys.(replies := replies))
  {
    forall w <- sys.flights ensures FlightOk(sys.(replies := replies), sys.flights[w]) {
      assert FlightOk(sys, sys.flights[w]);
    }
    forall s <- sys.sent ensures SentOk(sys.times, replies, s) {
      assert SentOk(sys.times, sys.replies, s);
    }
  }

  lemma FlightKeeps(sys: System, worker: Worker, flight: Flight)
    requires Inv(sys) && FlightOk(sys, flight) && !Holding(flight)
    ensures Inv(sys.(flights := sys.flights[worker := flight]))
  {
    var next := sys.(flights := sys.flights[worker := flight]);
    forall w <- next.flights ensures FlightOk(next, next.flights[w]) {
      if w != worker {
        assert FlightOk(sys, sys.flights[w]);
      }
    }
  }

  lemma DoneKeeps(sys: System, worker: Worker)
    requires Inv(sys)
    ensures Inv(Done(sys, worker))
  {
    var next := Done(sys, worker);
    forall w <- next.flights ensures FlightOk(next, next.flights[w]) {
      assert FlightOk(sys, sys.flights[w]);
    }
  }

  lemma ClosedMovesOn(replies: map<Key, Reply>, contact: Url, except: Option<Key>, status: Status)
    requires status != Pending
    ensures var closed := Closed(replies, contact, except, status);
      && closed.Keys == replies.Keys && AllOnward(replies, closed) && AttemptsKept(replies, closed)
      && (forall k <- replies :: closed[k].due == replies[k].due)
      && (forall k <- replies | closed[k].status == Pending :: replies[k].status == Pending)
      && forall k <- closed | closed[k].contact == contact && closed[k].status == Pending :: except == Some(k)
  {
  }

  lemma ClosedKeeps(sys: System, contact: Url, except: Option<Key>, status: Status)
    requires Inv(sys) && status != Pending
    ensures Inv(sys.(replies := Closed(sys.replies, contact, except, status)))
  {
    var replies := Closed(sys.replies, contact, except, status);
    ClosedMovesOn(sys.replies, contact, except, status);
    forall k <- replies ensures ReplyOk(sys.times, replies, k) {
      assert ReplyOk(sys.times, sys.replies, k);
    }
    TableKeeps(sys, replies);
  }

  /** A new row keeps the table sound if no other one of its contact is pending. */
  lemma InsertKeeps(sys: System, key: Key, contact: Url, now: int)
    requires Inv(sys) && Question(key.rows) && key !in sys.replies
    requires forall k <- sys.replies :: sys.replies[k].contact != contact || sys.replies[k].status != Pending
    ensures var replies := sys.replies[key := Reply(contact, now, sys.times.due(key, now), Pending)];
      Inv(sys.(replies := replies)) && AllOnward(sys.replies, replies)
  {
    var replies := sys.replies[key := Reply(contact, now, sys.times.due(key, now), Pending)];
    forall k <- replies ensures ReplyOk(sys.times, replies, k) {
      if k != key {
        assert ReplyOk(sys.times, sys.replies, k);
      }
    }
    TableKeeps(sys, replies);
  }

  lemma OnwardTrans(a: map<Key, Reply>, b: map<Key, Reply>, c: map<Key, Reply>)
    requires AllOnward(a, b) && AllOnward(b, c)
    ensures AllOnward(a, c)
  {
    forall key <- a ensures key in c && Onward(a[key], c[key]) {
      assert Onward(a[key], b[key]) && Onward(b[key], c[key]);
    }
  }

  lemma ObserveTxKeeps(sys: System, contact: Url, key: Key, now: int)
    requires Inv(sys) && Question(key.rows)
    ensures var replies := ObserveTx(sys.times, sys.replies, contact, key, now);
      Inv(sys.(replies := replies)) && AllOnward(sys.replies, replies) && key in replies
  {
    var rest := Closed(sys.replies, contact, Some(key), Superseded);
    ClosedKeeps(sys, contact, Some(key), Superseded);
    ClosedMovesOn(sys.replies, contact, Some(key), Superseded);
    if key !in rest {
      InsertKeeps(sys.(replies := rest), key, contact, now);
      OnwardTrans(sys.replies, rest, ObserveTx(sys.times, sys.replies, contact, key, now));
    }
  }

  lemma ObserveKeeps(sys: System, worker: Worker, contact: Url, key: Key, now: int)
    requires Inv(sys)
    ensures var next := ObserveStep(sys, worker, contact, key, now);
      Inv(next) && AllOnward(sys.replies, next.replies)
  {
    if worker !in sys.flights {
      if key.rows == [] || key.rows[|key.rows| - 1].own {
        ClosedKeeps(sys, contact, None, Superseded);
        ClosedMovesOn(sys.replies, contact, None, Superseded);
      } else if Question(key.rows) {
        var next := sys.(replies := ObserveTx(sys.times, sys.replies, contact, key, now));
        ObserveTxKeeps(sys, contact, key, now);
        assert ReplyOk(sys.times, next.replies, key);
        if next.replies[key].due <= now {
          FlightKeeps(next, worker, Late(key, now));
          if sys.times.open(now) {
            FlightKeeps(next, worker, Deciding(key, now));
          }
        }
      }
    }
  }

  /** One row changed, its contact and first reading kept, and not made pending again. */
  lemma ChangeKeeps(sys: System, key: Key, row: Reply)
    requires Inv(sys) && key in sys.replies
    requires row.contact == sys.replies[key].contact && row.received == sys.replies[key].received
    requires row.status == Pending ==> sys.replies[key].status == Pending
    requires Rested(sys.replies, key, row.due) && sys.times.open(row.due)
    ensures TableOk(sys.times, sys.replies[key := row])
  {
    var replies := sys.replies[key := row];
    assert ReplyOk(sys.times, sys.replies, key);
    forall k <- replies ensures ReplyOk(sys.times, replies, k) {
      if k != key {
        assert ReplyOk(sys.times, sys.replies, k);
      }
    }
  }

  lemma RescheduleKeeps(sys: System, worker: Worker)
    requires Inv(sys)
    ensures var next := RescheduleStep(sys, worker);
      Inv(next) && AllOnward(sys.replies, next.replies)
  {
    if worker in sys.flights && sys.flights[worker].Late? {
      var key, now := sys.flights[worker].key, sys.flights[worker].now;
      assert FlightOk(sys, sys.flights[worker]);
      if IsPending(sys, key) {
        var row := sys.replies[key].(due := sys.times.due(key, now));
        ChangeKeeps(sys, key, row);
        TableKeeps(sys, sys.replies[key := row]);
        DoneKeeps(SetReply(sys, key, row), worker);
      } else {
        DoneKeeps(sys, worker);
      }
    }
  }

  lemma ReadKeeps(sys: System, step: ReadStep)
    requires Inv(sys)
    ensures Inv(ExecRead(sys, step)) && AllOnward(sys.replies, ExecRead(sys, step).replies)
  {
    match step
    case Observe(worker, contact, key, now) => ObserveKeeps(sys, worker, contact, key, now);
    case Reschedule(worker) => RescheduleKeeps(sys, worker);
    case Hold(contact) =>
      ClosedKeeps(sys, contact, None, OnHold);
      ClosedMovesOn(sys.replies, contact, None, OnHold);
    case Crash(worker) => DoneKeeps(sys, worker);
  }

  lemma ClaimKeeps(sys: System, worker: Worker, again: seq<Row>)
    requires Inv(sys)
    ensures var next := ClaimStep(sys, worker, again);
      Inv(next) && AllOnward(sys.replies, next.replies)
  {
    if worker in sys.flights && sys.flights[worker].Deciding? {
      var key := sys.flights[worker].key;
      assert FlightOk(sys, sys.flights[worker]);
      if again != key.rows || !IsPending(sys, key) {
        DoneKeeps(sys, worker);
      } else {
        var row := sys.replies[key].(status := Attempted);
        assert ReplyOk(sys.times, sys.replies, key);
        ChangeKeeps(sys, key, row);
        TableKeeps(sys, sys.replies[key := row]);
        HolderKeeps(SetReply(sys, key, row), worker);
      }
    }
  }

  /** A worker may start holding a row that is being attempted and that nobody holds or has sent. */
  lemma HolderKeeps(sys: System, worker: Worker)
    requires Inv(sys) && worker in sys.flights && sys.flights[worker].Deciding?
    requires var key := sys.flights[worker].key;
      && sys.replies[key].status == Attempted && (forall s <- sys.sent :: s.key != key)
      && forall w <- sys.flights | Holding(sys.flights[w]) :: sys.flights[w].key != key
    ensures Inv(sys.(flights := sys.flights[worker := Claimed(sys.flights[worker].key, sys.flights[worker].now, sys.flights[worker].key.rows)]))
  {
    var next := sys.(flights := sys.flights[worker := Claimed(sys.flights[worker].key, sys.flights[worker].now, sys.flights[worker].key.rows)]);
    assert FlightOk(sys, sys.flights[worker]);
    forall w <- next.flights ensures FlightOk(next, next.flights[w]) {
      if w != worker {
        assert FlightOk(sys, sys.flights[w]);
      }
    }
  }

  lemma AnswerKeeps(sys: System, worker: Worker, ready: bool, outcome: string, clickedAt: int)
    requires Inv(sys)
    ensures Inv(AnswerStep(sys, worker, ready, outcome, clickedAt))
  {
    if worker in sys.flights && sys.flights[worker].Claimed? {
      var key := sys.flights[worker].key;
      var next := AnswerStep(sys, worker, ready, outcome, clickedAt);
      assert FlightOk(sys, sys.flights[worker]);
      forall w <- next.flights ensures FlightOk(next, next.flights[w]) {
        if w != worker {
          assert FlightOk(sys, sys.flights[w]);
          assert Holding(sys.flights[w]) ==> sys.flights[w].key != key;
        }
      }
      forall s <- next.sent ensures SentOk(sys.times, next.replies, s) {
        assert s in sys.sent || s == Sending(key, sys.flights[worker].now, sys.flights[worker].seen, clickedAt);
      }
    }
  }

  lemma RecordKeeps(sys: System, worker: Worker)
    requires Inv(sys)
    ensures var next := RecordStep(sys, worker);
      Inv(next) && AllOnward(sys.replies, next.replies)
  {
    if worker in sys.flights && sys.flights[worker].Answered? {
      var key := sys.flights[worker].key;
      assert FlightOk(sys, sys.flights[worker]) && ReplyOk(sys.times, sys.replies, key);
      ChangeKeeps(sys, key, sys.replies[key].(status := Reported(sys.flights[worker].outcome)));
      RecordKeepsRest(sys, worker);
    }
  }

  lemma RecordKeepsRest(sys: System, worker: Worker)
    requires Inv(sys) && worker in sys.flights && sys.flights[worker].Answered?
    ensures var next := RecordStep(sys, worker);
      && AllOnward(sys.replies, next.replies) && OneHolder(next.flights)
      && (forall w <- next.flights :: FlightOk(next, next.flights[w]))
      && forall s <- next.sent :: SentOk(next.times, next.replies, s)
  {
    var key := sys.flights[worker].key;
    var next := RecordStep(sys, worker);
    assert FlightOk(sys, sys.flights[worker]);
    forall w <- next.flights ensures FlightOk(next, next.flights[w]) {
      assert FlightOk(sys, sys.flights[w]);
      assert Holding(sys.flights[w]) ==> sys.flights[w].key != key;
    }
    forall s <- next.sent ensures SentOk(next.times, next.replies, s) {
      assert SentOk(sys.times, sys.replies, s);
    }
  }

  lemma ExecKeeps(sys: System, step: Step)
    requires Inv(sys)
    ensures Inv(Exec(sys, step)) && AllOnward(sys.replies, Exec(sys, step).replies)
  {
    match step
    case Reading(read) => ReadKeeps(sys, read);
    case Sends(Claim(worker, again)) => ClaimKeeps(sys, worker, again);
    case Sends(Answer(worker, ready, outcome, clickedAt)) => AnswerKeeps(sys, worker, ready, outcome, clickedAt);
    case Sends(Record(worker)) => RecordKeeps(sys, worker);
  }

  lemma {:induction false} RunKeeps(start: System, steps: seq<Step>)
    requires Inv(start)
    ensures Inv(Run(start, steps))
  {
    if steps != [] {
      RunKeeps(start, steps[..|steps| - 1]);
      ExecKeeps(Run(start, steps[..|steps| - 1]), steps[|steps| - 1]);
    }
  }

  lemma {:induction false} RunMovesOn(start: System, steps: seq<Step>)
    requires Inv(start)
    ensures AllOnward(start.replies, Run(start, steps).replies)
  {
    if steps != [] {
      var before := Run(start, steps[..|steps| - 1]);
      RunKeeps(start, steps[..|steps| - 1]);
      RunMovesOn(start, steps[..|steps| - 1]);
      StepMovesOn(start.replies, before, steps[|steps| - 1]);
    }
  }

  lemma StepMovesOn(start: map<Key, Reply>, before: System, step: Step)
    requires Inv(before) && AllOnward(start, before.replies)
    ensures AllOnward(start, Exec(before, step).replies)
  {
    ExecKeeps(before, step);
    OnwardTrans(start, before.replies, Exec(before, step).replies);
  }

  lemma {:induction false} RunKeepsTimes(start: System, steps: seq<Step>)
    ensures Run(start, steps).times == start.times
  {
    if steps != [] {
      RunKeepsTimes(start, steps[..|steps| - 1]);
    }
  }

  ghost predicate Reachable(digest: Key -> nat, sys: System) {
    exists steps :: sys == Run(Initial(digest), steps)
  }

  lemma ReachableInv(digest: Key -> nat, sys: System)
    requires Reachable(digest, sys)
    ensures Inv(sys) && sys.times == Schedule(digest)
  {
    var steps :| sys == Run(Initial(digest), steps);
    ScheduleIsTimely(digest);
    RunKeeps(Initial(digest), steps);
    RunKeepsTimes(Initial(digest), steps);
  }

  // ----- the claims -----

  /** A contact never has two replies waiting, and a waiting one is due in the hours, rested, after a question. */
  lemma OnePendingPerContact(digest: Key -> nat, sys: System)
    requires Reachable(digest, sys)
    ensures forall a, b | IsPending(sys, a) && IsPending(sys, b) && sys.replies[a].contact == sys.replies[b].contact :: a == b
    ensures forall key | IsPending(sys, key) ::
      && Question(key.rows) && InHours(sys.replies[key].due, START_HOUR, LATEST_HOUR)
      && sys.replies[key].due >= sys.replies[key].received + 15 * MINUTE
  {
    ReachableInv(digest, sys);
    forall key | IsPending(sys, key) ensures ReplyOk(sys.times, sys.replies, key) {
    }
  }

  /** A reply that left pending never returns to it; a held or superseded one never changes again and is never sent. */
  lemma LeftPendingIsFinal(digest: Key -> nat, start: System, steps: seq<Step>, key: Key)
    requires Reachable(digest, start) && key in start.replies && start.replies[key].status != Pending
    ensures var end := Run(start, steps);
      && key in end.replies && !IsPending(end, key)
      && (start.replies[key].status in {Superseded, OnHold} ==>
            end.replies[key] == start.replies[key] && forall s <- end.sent :: s.key != key)
  {
    ReachableInv(digest, start);
    RunKeeps(start, steps);
    RunMovesOn(start, steps);
    var end := Run(start, steps);
    assert Onward(start.replies[key], end.replies[key]);
    forall s <- end.sent ensures SentOk(end.times, end.replies, s) {
    }
  }

  /**
   Over any run with restarts each reading is answered at most once, only after its row was claimed, and only if
   the conversation was still the one decided on. The decision is made at least fifteen minutes after the reading
   was first seen, and between 08:00 and 23:00.
  */
  lemma AnsweredAtMostOnce(digest: Key -> nat, sys: System)
    requires Reachable(digest, sys)
    ensures forall i, j | 0 <= i < j < |sys.sent| :: sys.sent[i].key != sys.sent[j].key
    ensures forall s <- sys.sent ::
      && s.key in sys.replies && !IsPending(sys, s.key) && s.seen == s.key.rows && Question(s.key.rows)
      && s.decidedAt >= sys.replies[s.key].received + 15 * MINUTE && InHours(s.decidedAt, START_HOUR, LATEST_HOUR)
  {
    ReachableInv(digest, sys);
    forall s <- sys.sent ensures SentOk(sys.times, sys.replies, s) && ReplyOk(sys.times, sys.replies, s.key) {
    }
  }

  /** The closing time of the day of an instant. */
  function ClosingOf(t: int): int {
    Midnight(t) + LATEST_HOUR * HOUR
  }

  /**
   The click comes after the decision, and no clock is read in between. Unless the clock was set back it is rested,
   too; and up to the next opening it falls within the hours exactly if it is made before the day's closing.
  */
  lemma ClickInHoursExactlyWhen(digest: Key -> nat, sys: System, s: Sending)
    requires Reachable(digest, sys) && s in sys.sent && s.decidedAt <= s.clickedAt
    ensures s.key in sys.replies && s.clickedAt >= sys.replies[s.key].received + 15 * MINUTE
    ensures s.clickedAt < ClosingOf(s.decidedAt) + (24 - LATEST_HOUR + START_HOUR) * HOUR ==>
      (InHours(s.clickedAt, START_HOUR, LATEST_HOUR) <==> s.clickedAt < ClosingOf(s.decidedAt))
  {
    AnsweredAtMostOnce(digest, sys);
    DayOrder(s.decidedAt, s.clickedAt);
  }

  // ----- every step, exactly -----

  /** The seller spoke last, and somewhere before that the owner. */
  predicate Asks(rows: seq<Row>) {
    |rows| > 0 && !rows[|rows| - 1].own && exists k | 0 <= k < |rows| :: rows[k].own
  }

  /** The owner spoke last, or nothing was said. */
  predicate NothingToAnswer(rows: seq<Row>) {
    rows == [] || rows[|rows| - 1].own
  }

  /** The pending replies of a contact get a status, except possibly one; all others stay. */
  ghost predicate PendingGet(
    before: map<Key, Reply>, after: map<Key, Reply>, contact: Url, except: Option<Key>, status: Status)
  {
    && after.Keys == before.Keys
    && forall key <- before :: after[key] ==
         if before[key].contact == contact && before[key].status == Pending && except != Some(key)
         then before[key].(status := status) else before[key]
  }

  /**
   What a reading does to the table. If there is nothing to answer the contact's waiting replies are superseded; if the
   seller asks, those to other readings are, and a new reading is scheduled by its digest; else nothing happens.
  */
  ghost predicate ReadingDone(
    digest: Key -> nat, before: map<Key, Reply>, after: map<Key, Reply>, contact: Url, key: Key, now: int)
  {
    if NothingToAnswer(key.rows) then PendingGet(before, after, contact, None, Superseded)
    else if !Asks(key.rows) then after == before
    else
      && key in after
      && (if key in before then PendingGet(before, after, contact, Some(key), Superseded)
          else
            && after[key] == Reply(contact, now, ReplyDue(now, digest(key), 8, 23).value, Pending)
            && PendingGet(before, after - {key}, contact, None, Superseded))
  }

  /** The reply to this reading waits and is due. */
  predicate Due(replies: map<Key, Reply>, key: Key, now: int) {
    Asks(key.rows) && key in replies && replies[key].status == Pending && replies[key].due <= now
  }

  /** Exactly what observing a reading does: the table, and whether the worker goes on to decide or to put off. */
  lemma ObservedExactly(digest: Key -> nat, sys: System, worker: Worker, contact: Url, key: Key, now: int)
    requires Reachable(digest, sys) && worker !in sys.flights
    ensures var next := Exec(sys, Reading(Observe(worker, contact, key, now)));
      && ReadingDone(digest, sys.replies, next.replies, contact, key, now) && next.sent == sys.sent
      && (worker in next.flights <==> Due(next.replies, key, now))
      && next.flights == (
           if !Due(next.replies, key, now) then sys.flights
           else if InHours(now, 8, 23) then sys.flights[worker := Deciding(key, now)]
           else sys.flights[worker := Late(key, now)])
  {
    ReachableInv(digest, sys);
    assert Asks(key.rows) <==> Question(key.rows) by {
      if row :| row in key.rows && row.own {
        var k :| 0 <= k < |key.rows| && key.rows[k] == row;
      }
    }
    if Question(key.rows) && key !in sys.replies {
      var next := ObserveTx(sys.times, sys.replies, contact, key, now);
      assert next - {key} == Closed(sys.replies, contact, Some(key), Superseded);
    }
  }

  /** A late worker gives a reply that still waits a new due time, and is done either way. */
  lemma RescheduledExactly(digest: Key -> nat, sys: System, worker: Worker)
    requires Reachable(digest, sys) && worker in sys.flights && sys.flights[worker].Late?
    ensures var flight, next := sys.flights[worker], Exec(sys, Reading(Reschedule(worker)));
      && next == sys.(replies := next.replies, flights := sys.flights - {worker})
      && next.replies == (
           if flight.key in sys.replies && sys.replies[flight.key].status == Pending
           then sys.replies[flight.key :=
                  sys.replies[flight.key].(due := ReplyDue(flight.now, digest(flight.key), 8, 23).value)]
           else sys.replies)
  {
    ReachableInv(digest, sys);
  }

  /** Holding a contact stops exactly its waiting replies. */
  lemma HeldExactly(sys: System, contact: Url)
    ensures var next := Exec(sys, Reading(Hold(contact)));
      PendingGet(sys.replies, next.replies, contact, None, OnHold) && next == sys.(replies := next.replies)
  {
  }

  lemma OneMoreStep(digest: Key -> nat, sys: System, step: Step)
    requires Reachable(digest, sys)
    ensures Reachable(digest, Exec(sys, step))
  {
    var steps :| sys == Run(Initial(digest), steps);
    assert (steps + [step])[..|steps|] == steps;
    assert Run(Initial(digest), steps + [step]) == Exec(sys, step);
  }

  /** And it may come too late: a reading of 10:00 is decided on at 22:59 and clicked at 23:00. */
  lemma ClickMayBeLate(digest: Key -> nat)
    ensures exists sys, s :: Reachable(digest, sys) && s in sys.sent && !InHours(s.clickedAt, START_HOUR, LATEST_HOUR)
  {
    var start, key := Initial(digest), Key("c", [Row(true, "a"), Row(false, "b")]);
    assert Run(start, []) == start;
    assert key.rows[0] in key.rows && Question(key.rows);
    ReplyIsTimely(10 * HOUR, digest(key), START_HOUR, LATEST_HOUR);
    var observe := Reading(Observe(0, "u", key, 10 * HOUR));
    OneMoreStep(digest, start, observe);
    var seen := Exec(start, observe);
    var row := seen.replies[key];
    assert row == Reply("u", 10 * HOUR, ReplyDue(10 * HOUR, digest(key), START_HOUR, LATEST_HOUR).value, Pending);
    assert row.due <= 10 * HOUR + 45 * MINUTE;
    var late := 22 * HOUR + 59 * MINUTE;
    DueReplyIsAnswered(digest, seen, 0, key, late, "clicked", 23 * HOUR);
    var a, b := Reading(Observe(0, "u", key, late)), Sends(Claim(0, key.rows));
    var c, d := Sends(Answer(0, false, "clicked", 23 * HOUR)), Sends(Record(0));
    RunOfFour(seen, a, b, c, d);
    OneMoreStep(digest, seen, a);
    OneMoreStep(digest, Exec(seen, a), b);
    OneMoreStep(digest, Exec(Exec(seen, a), b), c);
    OneMoreStep(digest, Exec(Exec(Exec(seen, a), b), c), d);
    var end := Run(seen, [a, b, c, d]);
    var s := Sending(key, late, key.rows, 23 * HOUR);
    assert s in end.sent && Reachable(digest, end) && !InHours(s.clickedAt, START_HOUR, LATEST_HOUR);
  }

  lemma RunOfFour(start: System, a: Step, b: Step, c: Step, d: Step)
    ensures Run(start, [a, b, c, d]) == Exec(Exec(Exec(Exec(start, a), b), c), d)
  {
    assert [a, b, c, d][..3] == [a, b, c] && [a, b, c][..2] == [a, b] && [a, b][..1] == [a] && [a][..0] == [];
    assert Run(start, [a]) == Exec(Run(start, []), a);
    assert Run(start, [a, b]) == Exec(Run(start, [a]), b);
    assert Run(start, [a, b, c]) == Exec(Run(start, [a, b]), c);
  }

  lemma DueReadingIsDecided(sys: System, worker: Worker, key: Key, now: int)
    requires Inv(sys) && worker !in sys.flights && IsPending(sys, key)
    requires sys.replies[key].due <= now && sys.times.open(now)
    ensures ObserveStep(sys, worker, sys.replies[key].contact, key, now) ==
      sys.(flights := sys.flights[worker := Deciding(key, now)])
  {
    var contact := sys.replies[key].contact;
    assert ReplyOk(sys.times, sys.replies, key);
    assert Closed(sys.replies, contact, Some(key), Superseded) == sys.replies;
  }

  lemma DecidedReplyIsSent(sys: System, worker: Worker, key: Key, now: int, outcome: string, clickedAt: int)
    requires worker in sys.flights && sys.flights[worker] == Deciding(key, now) && IsPending(sys, key)
    ensures RecordStep(AnswerStep(ClaimStep(sys, worker, key.rows), worker, false, outcome, clickedAt), worker) ==
      System(sys.times, sys.replies[key := sys.replies[key].(status := Reported(outcome))], sys.flights - {worker},
             sys.sent + [Sending(key, now, key.rows, clickedAt)])
  {
    var claimed := ClaimStep(sys, worker, key.rows);
    assert claimed.flights[worker] == Claimed(key, now, key.rows);
    var answered := AnswerStep(claimed, worker, false, outcome, clickedAt);
    assert answered.flights[worker] == Answered(key, outcome) && answered.replies[key].status == Attempted;
    assert answered.flights - {worker} == sys.flights - {worker};
  }

  /** And it is answered: an idle worker that finds a due reply still standing sends it and records the outcome. */
  lemma DueReplyIsAnswered(
    digest: Key -> nat, sys: System, worker: Worker, key: Key, now: int, outcome: string, clickedAt: int)
    requires Reachable(digest, sys) && worker !in sys.flights && IsPending(sys, key)
    requires sys.replies[key].due <= now && InHours(now, START_HOUR, LATEST_HOUR)
    ensures var row := sys.replies[key];
      var end := Run(sys, [
        Reading(Observe(worker, row.contact, key, now)), Sends(Claim(worker, key.rows)),
        Sends(Answer(worker, false, outcome, clickedAt)), Sends(Record(worker))]);
      && end.sent == sys.sent + [Sending(key, now, key.rows, clickedAt)]
      && end.replies == sys.replies[key := row.(status := Reported(outcome))]
      && end.flights == sys.flights
  {
    ReachableInv(digest, sys);
    var contact := sys.replies[key].contact;
    DueReadingIsDecided(sys, worker, key, now);
    DecidedReplyIsSent(ObserveStep(sys, worker, contact, key, now), worker, key, now, outcome, clickedAt);
    RunOfFour(sys, Reading(Observe(worker, contact, key, now)), Sends(Claim(worker, key.rows)),
              Sends(Answer(worker, false, outcome, clickedAt)), Sends(Record(worker)));
    assert sys.flights[worker := Deciding(key, now)] - {worker} == sys.flights;
  }
}
