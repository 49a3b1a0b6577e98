/**
 Every interleaving of workers, lease takeovers, crashes and reconciliations over the model ledger.
 A run is a list of events; an event that is not enabled leaves the system as it is.
*/
module ModelRuns {
  import opened Wrappers
  import opened Json
  import opened OpenAiText
  import opened ModelLedger

  type Worker = nat

  /** Where a worker inside `execute` is, between two transactions. */
  datatype Stage = InCall | Replied(data: Json) | Recorded(data: Json) | LocalReply(complete: bool, text: Utf8) | Failed

  datatype Flight = Flight(job: JobId, payload: Payload, stage: Stage)

  /** What a worker was told about a job: the provider's response, or what the local model wrote. */
  datatype Heard = Response(job: JobId, data: Json) | Written(job: JobId, complete: bool, text: Utf8)

  /** `sends` and `heard` are the histories of authorised sends and of their replies; nothing reads them. */
  datatype System = System(store: Store, flights: map<Worker, Flight>, sends: seq<JobId>, heard: seq<Heard>)

  datatype Event =
    | Enqueue(details: Details)
    | QueueMoves(job: JobId, entry: Job)
    | Begin(w: Worker, claim: Claim, env: Env)
    | Reply(w: Worker, data: Json)
    | LocalDone(w: Worker, complete: bool, text: Utf8)
    | Record(w: Worker)
    | Break(w: Worker)
    | Finish(w: Worker)
    | Crash(w: Worker)
    | Reconcile(job: JobId, reviewed: Usage)

  const INITIAL := System(Store(map[], [], map[]), map[], [], [])

  /** What a worker reports when it reaches the last transaction. */
  ghost function OutcomeOf(cfg: Config, flight: Flight): Outcome {
    match flight.stage
    case Recorded(data) =>
      var answer := AnswerOf(data, flight.payload, cfg.redact);
      if answer.Ok? && cfg.clean(answer.value.text)
      then Answered(answer.value.complete, answer.value.text, answer.value.usage.accounted) else OutcomeUnknown
    case LocalReply(complete, text) => if cfg.clean(text) then Answered(complete, text, 0) else LocalUnavailable
    case _ => if flight.payload.provider == Ollama then LocalUnavailable else OutcomeUnknown
  }

  predicate ReadyToFinish(stage: Stage) {
    stage.Recorded? || stage.LocalReply? || stage.Failed?
  }

  ghost function BeginStep(cfg: Config, sys: System, w: Worker, claim: Claim, env: Env): System {
    if w in sys.flights then sys
    else
      var (store, result) := BeginTx(cfg, sys.store, claim, env);
      if result.Authorised? then
        sys.(store := store, flights := sys.flights[w := Flight(claim.job, result.payload, InCall)],
             sends := sys.sends + [claim.job])
      else sys.(store := store)
  }

  ghost function RecordStep(sys: System, w: Worker): System {
    if w in sys.flights && sys.flights[w].stage.Replied? then
      var flight := sys.flights[w];
      match RecordTx(sys.store, flight.job, flight.payload, flight.stage.data)
      case Ok(store) => sys.(store := store, flights := sys.flights[w := flight.(stage := Recorded(flight.stage.data))])
      case Err(_) => sys.(flights := sys.flights[w := flight.(stage := Failed)])
    else sys
  }

  ghost function FinishStep(cfg: Config, sys: System, w: Worker): System {
    if w in sys.flights && ReadyToFinish(sys.flights[w].stage) && sys.flights[w].job < |sys.store.rows| then
      sys.(store := FinishTx(sys.store, sys.flights[w].job, OutcomeOf(cfg, sys.flights[w])).0, flights := sys.flights - {w})
    else sys
  }

  ghost function ReconcileStep(sys: System, job: JobId, reviewed: Usage): System {
    match ReconcileTx(sys.store, job, reviewed)
    case Ok(store) => sys.(store := store)
    case Err(_) => sys
  }

  ghost function StageStep(sys: System, w: Worker, stage: Stage): System
    requires w in sys.flights
  {
    sys.(flights := sys.flights[w := sys.flights[w].(stage := stage)])
  }

  ghost function Exec(cfg: Config, sys: System, e: Event): System {
    match e
    case Enqueue(details) =>
      var req := Prepare(details);
      if req.Some? then sys.(store := EnqueueTx(sys.store, req.value)) else sys
    case QueueMoves(job, entry) => sys.(store := sys.store.(jobs := sys.store.jobs[job := entry]))
    case Begin(w, claim, env) => BeginStep(cfg, sys, w, claim, env)
    case Reply(w, data) =>
      if w in sys.flights && sys.flights[w].stage == InCall && sys.flights[w].payload.provider == OpenAi
      then StageStep(sys, w, Replied(data)).(heard := sys.heard + [Response(sys.flights[w].job, data)]) else sys
    case LocalDone(w, complete, text) =>
      if w in sys.flights && sys.flights[w].stage == InCall && sys.flights[w].payload.provider == Ollama
      then StageStep(sys, w, LocalReply(complete, text)).(heard := sys.heard + [Written(sys.flights[w].job, complete, text)])
      else sys
    case Record(w) => RecordStep(sys, w)
    case Break(w) => if w in sys.flights then StageStep(sys, w, Failed) else sys
    case Finish(w) => FinishStep(cfg, sys, w)
    case Crash(w) => sys.(flights := sys.flights - {w})
    case Reconcile(job, reviewed) => ReconcileStep(sys, job, reviewed)
  }

  ghost function Run(cfg: Config, sys: System, events: seq<Event>): System {
    if events == [] then sys else Exec(cfg, Run(cfg, sys, events[..|events| - 1]), events[|events| - 1])
  }

  // ----- the invariant -----

  /** What a row's phase says about its amounts, its result and its receipt. */
  ghost predicate RowOk(row: Row, receipt: Option<Usage>) {
    Hold(row.req.payload) <= row.req.maxCost &&
    if External(row) then
      && (receipt.Some? ==> InEnvelope(receipt.value, row.req.payload) && row.sentAt.Some?)
      && match row.phase
         case Approved => row.held == 0 && row.charged == 0 && row.sentAt.None? && row.result.None?
         case Sending => row.held == Reservation(row.req.payload) && row.charged == 0 && row.sentAt.Some? && row.result.None?
         case Unknown =>
           && row.held == Reservation(row.req.payload) && row.charged == 0 && row.sentAt.Some?
           && (row.result.Some? ==> row.result.value == OutcomeUnknown)
         case Settled =>
           && row.held == 0 && receipt.Some? && row.charged == receipt.value.accounted
           && row.result.Some? && row.result.value.Answered? && row.result.value.accounted == row.charged
         case Reconciled =>
           && row.held == 0 && receipt.Some? && row.charged == receipt.value.accounted
           && row.result == Some(CostOnly(row.charged))
    else
      row.held == 0 && row.charged == 0 && row.phase in {Approved, Sending, Settled} && receipt.None?
  }

  function ReceiptOf(s: Store, job: JobId): Option<Usage> {
    if job in s.receipts then Some(s.receipts[job]) else None
  }

  ghost predicate RowsOk(s: Store) {
    && (forall job | 0 <= job < |s.rows| :: RowOk(s.rows[job], ReceiptOf(s, job)))
    && forall job <- s.receipts :: job < |s.rows|
  }

  /** An external job has at most one worker in flight, and only while its row is open to an outcome. */
  ghost predicate FlightOk(s: Store, flight: Flight) {
    && flight.job < |s.rows|
    && flight.payload == s.rows[flight.job].req.payload
    && (flight.stage.LocalReply? ==> flight.payload.provider == Ollama)
    && (flight.stage.Replied? || flight.stage.Recorded? ==> flight.payload.provider == OpenAi)
    && (flight.payload.provider == OpenAi ==>
          && s.rows[flight.job].phase in {Sending, Unknown, Reconciled}
          && (flight.stage.InCall? || flight.stage.Replied? ==> flight.job !in s.receipts && s.rows[flight.job].phase != Reconciled)
          && (flight.stage.Recorded? ==>
                flight.job in s.receipts && ParseUsage(flight.stage.data, flight.payload) == Ok(s.receipts[flight.job])))
  }

  ghost predicate FlightsOk(sys: System) {
    && (forall w <- sys.flights :: FlightOk(sys.store, sys.flights[w]))
    && forall v, w | v in sys.flights && w in sys.flights && sys.flights[v].job == sys.flights[w].job
         && sys.flights[v].payload.provider == OpenAi :: v == w
  }

  function Sends(sends: seq<JobId>, job: JobId): nat {
    multiset(sends)[job]
  }

  ghost predicate SendsOk(sys: System) {
    && (forall job <- sys.sends :: job < |sys.store.rows|)
    && forall job | 0 <= job < |sys.store.rows| && External(sys.store.rows[job]) ::
         Sends(sys.sends, job) == if sys.store.rows[job].sentAt.Some? then 1 else 0
  }

  ghost predicate CapsOk(cfg: Config, rows: seq<Row>) {
    && Exposure(rows, WholeLedger) <= cfg.total
    && forall day :: Exposure(rows, SentOn(day)) <= cfg.daily
  }

  ghost predicate Inv(cfg: Config, sys: System) {
    RowsOk(sys.store) && FlightsOk(sys) && SendsOk(sys) && CapsOk(cfg, sys.store.rows)
  }

  // ----- each event keeps it -----

  /** Changing one row keeps both caps when it raises no amount on any scope. */
  lemma CapsUpdate(cfg: Config, rows: seq<Row>, k: nat, row: Row)
    requires k < |rows| && CapsOk(cfg, rows)
    requires row.held + row.charged <= rows[k].held + rows[k].charged
    requires row.sentAt == rows[k].sentAt || row.held + row.charged == 0
    ensures CapsOk(cfg, rows[k := row])
  {
    ExposureUpdate(rows, k, row, WholeLedger);
    forall day ensures Exposure(rows[k := row], SentOn(day)) <= cfg.daily {
      ExposureUpdate(rows, k, row, SentOn(day));
    }
  }

  /** The begin transaction's own check of the two sums is what keeps the caps, on whatever day it runs. */
  lemma CapsAuthorise(cfg: Config, rows: seq<Row>, k: nat, row: Row, now: int)
    requires k < |rows| && CapsOk(cfg, rows)
    requires rows[k].held == 0 && rows[k].charged == 0
    requires row.charged == 0 && row.sentAt == Some(now) && BudgetAllows(cfg, rows, row.held, now)
    ensures CapsOk(cfg, rows[k := row])
  {
    ExposureUpdate(rows, k, row, WholeLedger);
    SentTodayIsBudgeted(rows, now);
    forall day ensures Exposure(rows[k := row], SentOn(day)) <= cfg.daily {
      ExposureUpdate(rows, k, row, SentOn(day));
    }
  }

  lemma CapsAppend(cfg: Config, rows: seq<Row>, row: Row)
    requires CapsOk(cfg, rows) && row.held + row.charged == 0
    ensures CapsOk(cfg, rows + [row])
  {
    assert (rows + [row])[..|rows|] == rows;
  }

  lemma EnqueueKeeps(cfg: Config, sys: System, req: Request)
    requires Inv(cfg, sys) && Hold(req.payload) <= req.maxCost
    ensures Inv(cfg, sys.(store := EnqueueTx(sys.store, req)))
  {
    var s' := EnqueueTx(sys.store, req);
    var sys' := sys.(store := s');
    assert s'.rows[..|sys.store.rows|] == sys.store.rows;
    assert |sys.store.rows| !in sys.sends;
    CapsAppend(cfg, sys.store.rows, s'.rows[|sys.store.rows|]);
  }

  /** What the begin transaction can do to the ledger: nothing, mark a takeover, or authorise one send. */
  lemma BeginShapes(cfg: Config, s: Store, claim: Claim, env: Env)
    requires RowsOk(s)
    ensures var (s', result) := BeginTx(cfg, s, claim, env);
      && s'.receipts == s.receipts && |s'.rows| == |s.rows|
      && (s' != s || result.Authorised? ==>
            && claim.job < |s.rows|
            && s'.rows == s.rows[claim.job := s'.rows[claim.job]]
            && s'.rows[claim.job].req == s.rows[claim.job].req
            && RowOk(s'.rows[claim.job], ReceiptOf(s, claim.job)))
      && (result.Authorised? ==>
            && result.payload == s.rows[claim.job].req.payload
            && s'.rows[claim.job].phase == Sending && s'.rows[claim.job].sentAt == Some(env.now)
            && (External(s.rows[claim.job]) ==>
                  && s.rows[claim.job].phase == Approved && claim.job !in s.receipts
                  && BudgetAllows(cfg, s.rows, s'.rows[claim.job].held, env.now)))
      && (s' != s && !result.Authorised? ==>
            && External(s.rows[claim.job]) && s.rows[claim.job].phase in {Sending, Unknown}
            && s'.rows[claim.job] == s.rows[claim.job].(phase := Unknown))
  {
    if claim.job < |s.rows| {
      assert RowOk(s.rows[claim.job], ReceiptOf(s, claim.job));
    }
  }

  lemma BeginKeepsEachFlight(cfg: Config, sys: System, w: Worker, claim: Claim, env: Env)
    requires RowsOk(sys.store) && FlightsOk(sys) && w !in sys.flights
    ensures var sys' := BeginStep(cfg, sys, w, claim, env);
      forall v <- sys'.flights :: FlightOk(sys'.store, sys'.flights[v])
  {
    var sys' := BeginStep(cfg, sys, w, claim, env);
    BeginShapes(cfg, sys.store, claim, env);
    forall v <- sys'.flights ensures FlightOk(sys'.store, sys'.flights[v]) {
      if v in sys.flights {
        assert FlightOk(sys.store, sys.flights[v]);
      }
    }
  }

  /** An external job can only be authorised while no worker is on it. */
  lemma AuthorisedMeansAlone(cfg: Config, sys: System, claim: Claim, env: Env, v: Worker)
    requires RowsOk(sys.store) && FlightsOk(sys) && v in sys.flights && sys.flights[v].payload.provider == OpenAi
    requires BeginTx(cfg, sys.store, claim, env).1.Authorised?
    ensures sys.flights[v].job != claim.job
  {
    assert FlightOk(sys.store, sys.flights[v]);
  }

  lemma BeginKeepsFlights(cfg: Config, sys: System, w: Worker, claim: Claim, env: Env)
    requires RowsOk(sys.store) && FlightsOk(sys) && w !in sys.flights
    ensures FlightsOk(BeginStep(cfg, sys, w, claim, env))
  {
    BeginKeepsEachFlight(cfg, sys, w, claim, env);
    var result := BeginTx(cfg, sys.store, claim, env).1;
    if result.Authorised? {
      BeginShapes(cfg, sys.store, claim, env);
      forall v <- sys.flights | sys.flights[v].payload.provider == OpenAi ensures sys.flights[v].job != claim.job {
        AuthorisedMeansAlone(cfg, sys, claim, env, v);
      }
    }
  }

  lemma BeginKeepsSends(cfg: Config, sys: System, w: Worker, claim: Claim, env: Env)
    requires RowsOk(sys.store) && SendsOk(sys) && w !in sys.flights
    ensures SendsOk(BeginStep(cfg, sys, w, claim, env))
  {
    var sys' := BeginStep(cfg, sys, w, claim, env);
    BeginShapes(cfg, sys.store, claim, env);
    if sys'.sends != sys.sends {
      assert RowOk(sys.store.rows[claim.job], ReceiptOf(sys.store, claim.job));
      assert multiset(sys'.sends) == multiset(sys.sends) + multiset{claim.job};
    }
  }

  lemma BeginKeepsCaps(cfg: Config, s: Store, claim: Claim, env: Env)
    requires RowsOk(s) && CapsOk(cfg, s.rows)
    ensures CapsOk(cfg, BeginTx(cfg, s, claim, env).0.rows)
  {
    var (s', result) := BeginTx(cfg, s, claim, env);
    BeginShapes(cfg, s, claim, env);
    if s' != s || result.Authorised? {
      assert RowOk(s.rows[claim.job], ReceiptOf(s, claim.job));
      if result.Authorised? && External(s.rows[claim.job]) {
        CapsAuthorise(cfg, s.rows, claim.job, s'.rows[claim.job], env.now);
      } else {
        CapsUpdate(cfg, s.rows, claim.job, s'.rows[claim.job]);
      }
    }
  }

  lemma BeginKeeps(cfg: Config, sys: System, w: Worker, claim: Claim, env: Env)
    requires Inv(cfg, sys)
    ensures Inv(cfg, BeginStep(cfg, sys, w, claim, env))
  {
    if w !in sys.flights {
      BeginKeepsFlights(cfg, sys, w, claim, env);
      BeginKeepsSends(cfg, sys, w, claim, env);
      BeginKeepsCaps(cfg, sys.store, claim, env);
      BeginShapes(cfg, sys.store, claim, env);
    }
  }

  lemma RecordKeepsRows(sys: System, w: Worker)
    requires RowsOk(sys.store) && w in sys.flights && sys.flights[w].stage.Replied? && FlightOk(sys.store, sys.flights[w])
    ensures RecordStep(sys, w).store.rows == sys.store.rows && RowsOk(RecordStep(sys, w).store)
  {
    var store := RecordStep(sys, w).store;
    if store != sys.store {
      forall job | 0 <= job < |sys.store.rows| ensures RowOk(store.rows[job], ReceiptOf(store, job)) {
        assert RowOk(sys.store.rows[job], ReceiptOf(sys.store, job));
      }
    }
  }

  lemma RecordKeepsFlights(sys: System, w: Worker)
    requires FlightsOk(sys) && w in sys.flights && sys.flights[w].stage.Replied?
    ensures FlightsOk(RecordStep(sys, w))
  {
    var sys' := RecordStep(sys, w);
    assert FlightOk(sys.store, sys.flights[w]);
    forall v <- sys'.flights ensures FlightOk(sys'.store, sys'.flights[v]) {
      assert FlightOk(sys.store, sys.flights[v]);
    }
  }

  lemma RecordKeeps(cfg: Config, sys: System, w: Worker)
    requires Inv(cfg, sys)
    ensures Inv(cfg, RecordStep(sys, w))
  {
    if w in sys.flights && sys.flights[w].stage.Replied? {
      RecordKeepsFlights(sys, w);
      RecordKeepsRows(sys, w);
    }
  }

  lemma FinishKeepsRow(cfg: Config, sys: System, w: Worker)
    requires RowsOk(sys.store) && CapsOk(cfg, sys.store.rows)
    requires w in sys.flights && ReadyToFinish(sys.flights[w].stage) && FlightOk(sys.store, sys.flights[w])
    ensures var s, job := FinishStep(cfg, sys, w).store, sys.flights[w].job;
      && s == sys.store.(rows := sys.store.rows[job := s.rows[job]]) && RowsOk(s) && CapsOk(cfg, s.rows)
      && s.rows[job].req == sys.store.rows[job].req && s.rows[job].sentAt == sys.store.rows[job].sentAt
  {
    var rows, job, row := sys.store.rows, sys.flights[w].job, FinishStep(cfg, sys, w).store.rows[sys.flights[w].job];
    assert RowOk(rows[job], ReceiptOf(sys.store, job));
    if rows[job].phase != Reconciled {
      assert RowOk(row, ReceiptOf(sys.store, job));
      CapsUpdate(cfg, rows, job, row);
    }
  }

  lemma FinishKeepsFlights(cfg: Config, sys: System, w: Worker)
    requires FlightsOk(sys) && w in sys.flights && ReadyToFinish(sys.flights[w].stage)
    ensures FlightsOk(FinishStep(cfg, sys, w))
  {
    var sys' := FinishStep(cfg, sys, w);
    assert FlightOk(sys.store, sys.flights[w]);
    forall v <- sys'.flights ensures FlightOk(sys'.store, sys'.flights[v]) {
      assert FlightOk(sys.store, sys.flights[v]);
    }
  }

  lemma FinishKeeps(cfg: Config, sys: System, w: Worker)
    requires Inv(cfg, sys)
    ensures Inv(cfg, FinishStep(cfg, sys, w))
  {
    if w in sys.flights && ReadyToFinish(sys.flights[w].stage) {
      assert FlightOk(sys.store, sys.flights[w]);
      FinishKeepsRow(cfg, sys, w);
      FinishKeepsFlights(cfg, sys, w);
    }
  }

  lemma ReconcileKeeps(cfg: Config, sys: System, job: JobId, reviewed: Usage)
    requires Inv(cfg, sys)
    ensures Inv(cfg, ReconcileStep(sys, job, reviewed))
  {
    var sys' := ReconcileStep(sys, job, reviewed);
    if sys' != sys {
      var rows := sys.store.rows;
      assert RowOk(rows[job], ReceiptOf(sys.store, job));
      CapsUpdate(cfg, rows, job, sys'.store.rows[job]);
      assert FlightsOk(sys');
    }
  }

  lemma QueueMovesKeeps(cfg: Config, sys: System, job: JobId, entry: Job)
    requires Inv(cfg, sys)
    ensures Inv(cfg, Exec(cfg, sys, QueueMoves(job, entry)))
  {
    assert FlightsOk(Exec(cfg, sys, QueueMoves(job, entry)));
  }

  /** Nothing else touches the ledger. */
  lemma OtherKeeps(cfg: Config, sys: System, e: Event)
    requires Inv(cfg, sys) && (e.Reply? || e.LocalDone? || e.Break? || e.Crash?)
    ensures Inv(cfg, Exec(cfg, sys, e))
  {
    var next := Exec(cfg, sys, e);
    assert next.store == sys.store && next.sends == sys.sends;
    forall v <- next.flights ensures FlightOk(next.store, next.flights[v]) {
      assert FlightOk(sys.store, sys.flights[v]);
    }
  }

  lemma ExecKeeps(cfg: Config, sys: System, e: Event)
    requires Inv(cfg, sys)
    ensures Inv(cfg, Exec(cfg, sys, e))
  {
    match e
    case Enqueue(details) =>
      var req := Prepare(details);
      if req.Some? { EnqueueKeeps(cfg, sys, req.value); }
    case Begin(w, claim, env) => BeginKeeps(cfg, sys, w, claim, env);
    case Record(w) => RecordKeeps(cfg, sys, w);
    case Finish(w) => FinishKeeps(cfg, sys, w);
    case Reconcile(job, reviewed) => ReconcileKeeps(cfg, sys, job, reviewed);
    case QueueMoves(job, entry) => QueueMovesKeeps(cfg, sys, job, entry);
    case _ => OtherKeeps(cfg, sys, e);
  }

  lemma {:induction false} RunKeeps(cfg: Config, sys: System, events: seq<Event>)
    requires Inv(cfg, sys)
    ensures Inv(cfg, Run(cfg, sys, events))
  {
    if events != [] {
      RunKeeps(cfg, sys, events[..|events| - 1]);
      ExecKeeps(cfg, Run(cfg, sys, events[..|events| - 1]), events[|events| - 1]);
    }
  }

  /** The states some run of the empty ledger passes through. */
  ghost predicate Reachable(cfg: Config, sys: System) {
    exists events :: sys == Run(cfg, INITIAL, events)
  }

  lemma ReachableInv(cfg: Config, sys: System)
    requires Reachable(cfg, sys)
    ensures Inv(cfg, sys)
  {
    var events :| sys == Run(cfg, INITIAL, events);
    assert Inv(cfg, INITIAL);
    RunKeeps(cfg, INITIAL, events);
  }

  // ----- theorems about every run -----

  /** Neither cap is ever exceeded, however leases move, workers crash and the clock jumps. */
  lemma BudgetsNeverExceeded(cfg: Config, sys: System)
    requires Reachable(cfg, sys)
    ensures Exposure(sys.store.rows, WholeLedger) <= cfg.total
    ensures forall day :: Exposure(sys.store.rows, SentOn(day)) <= cfg.daily
  {
    ReachableInv(cfg, sys);
  }

  /** An external job is authorised for sending at most once in its life; its row says whether it was. */
  lemma SentAtMostOnce(cfg: Config, sys: System, job: JobId)
    requires Reachable(cfg, sys) && job < |sys.store.rows| && External(sys.store.rows[job])
    ensures Sends(sys.sends, job) == if sys.store.rows[job].sentAt.Some? then 1 else 0
  {
    ReachableInv(cfg, sys);
  }

  /** What the view tells the owner about calls made is what happened. */
  lemma ViewIsTruthful(cfg: Config, sys: System, job: JobId)
    requires Reachable(cfg, sys) && job < |sys.store.rows| && External(sys.store.rows[job])
    ensures CallsMade(sys.store.rows[job]) == Some(false) <==> job !in sys.sends
    ensures CallsMade(sys.store.rows[job]) == Some(true) ==> Sends(sys.sends, job) == 1 && job in sys.store.receipts
  {
    ReachableInv(cfg, sys);
    assert RowOk(sys.store.rows[job], ReceiptOf(sys.store, job));
    assert job in sys.sends <==> multiset(sys.sends)[job] > 0;
  }

  ghost predicate Final(s: Store, job: JobId) {
    job < |s.rows| && External(s.rows[job]) && s.rows[job].phase in {Settled, Reconciled} && job in s.receipts
  }

  ghost predicate Frozen(before: Store, after: Store, job: JobId) {
    && Final(before, job) && Final(after, job)
    && after.rows[job] == before.rows[job] && after.receipts[job] == before.receipts[job]
  }

  lemma BeginFreezes(cfg: Config, sys: System, w: Worker, claim: Claim, env: Env, job: JobId)
    requires Inv(cfg, sys) && Final(sys.store, job)
    ensures Frozen(sys.store, BeginStep(cfg, sys, w, claim, env).store, job)
  {
    assert RowOk(sys.store.rows[job], ReceiptOf(sys.store, job));
    BeginShapes(cfg, sys.store, claim, env);
  }

  lemma FinishFreezes(cfg: Config, sys: System, w: Worker, job: JobId)
    requires Inv(cfg, sys) && Final(sys.store, job)
    ensures Frozen(sys.store, FinishStep(cfg, sys, w).store, job)
  {
    if w in sys.flights {
      assert FlightOk(sys.store, sys.flights[w]);
    }
  }

  lemma OtherFreezes(cfg: Config, sys: System, e: Event, job: JobId)
    requires Inv(cfg, sys) && Final(sys.store, job) && !e.Begin? && !e.Finish? && !e.Reconcile?
    ensures Frozen(sys.store, Exec(cfg, sys, e).store, job)
  {
    match e
    case Record(w) => assert Frozen(sys.store, RecordStep(sys, w).store, job);
    case _ =>
  }

  lemma ReconcileFreezes(sys: System, other: JobId, reviewed: Usage, job: JobId)
    requires Final(sys.store, job)
    ensures Frozen(sys.store, ReconcileStep(sys, other, reviewed).store, job)
  {
  }

  lemma ExecFreezes(cfg: Config, sys: System, e: Event, job: JobId)
    requires Inv(cfg, sys) && Final(sys.store, job)
    ensures Frozen(sys.store, Exec(cfg, sys, e).store, job)
  {
    match e
    case Begin(w, claim, env) => BeginFreezes(cfg, sys, w, claim, env, job);
    case Finish(w) => FinishFreezes(cfg, sys, w, job);
    case Reconcile(other, reviewed) => ReconcileFreezes(sys, other, reviewed, job);
    case _ => OtherFreezes(cfg, sys, e, job);
  }

  lemma {:induction false} RunFreezes(cfg: Config, sys: System, events: seq<Event>, job: JobId)
    requires Inv(cfg, sys) && Final(sys.store, job)
    ensures Frozen(sys.store, Run(cfg, sys, events).store, job)
  {
    if events != [] {
      var init := events[..|events| - 1];
      RunFreezes(cfg, sys, init, job);
      RunKeeps(cfg, sys, init);
      ExecFreezes(cfg, Run(cfg, sys, init), events[|events| - 1], job);
    }
  }

  /** A settled or reconciled external row has a receipt, and neither ever changes again. */
  lemma FinalRowsAreFrozen(cfg: Config, sys: System, events: seq<Event>, job: JobId)
    requires Reachable(cfg, sys) && job < |sys.store.rows|
    requires External(sys.store.rows[job]) && sys.store.rows[job].phase in {Settled, Reconciled}
    ensures job in sys.store.receipts && Frozen(sys.store, Run(cfg, sys, events).store, job)
  {
    ReachableInv(cfg, sys);
    assert RowOk(sys.store.rows[job], ReceiptOf(sys.store, job));
    RunFreezes(cfg, sys, events, job);
  }

  /**
   Every authorised external call stays covered: while its outcome is open the row holds the full
   reservation, which no usage in the approved envelope can exceed; once closed it charges exactly
   the rounded-up cost of the usage on its receipt and holds nothing.
  */
  lemma AuthorisedCallsStayCovered(cfg: Config, sys: System, job: JobId)
    requires Reachable(cfg, sys) && job in sys.sends
    requires job < |sys.store.rows| && External(sys.store.rows[job])
    ensures var s := sys.store; var row := s.rows[job];
      if row.phase in {Settled, Reconciled} then
        && row.held == 0 && job in s.receipts && InEnvelope(s.receipts[job], row.req.payload)
        && row.charged == CostMicrousd(s.receipts[job].inputTokens, s.receipts[job].outputTokens)
      else
        && row.phase in {Sending, Unknown} && row.charged == 0 && row.held == Reservation(row.req.payload)
        && forall usage | InEnvelope(usage, row.req.payload) :: usage.accounted <= row.held
  {
    ReachableInv(cfg, sys);
    assert multiset(sys.sends)[job] > 0;
    assert RowOk(sys.store.rows[job], ReceiptOf(sys.store, job));
    forall usage | InEnvelope(usage, sys.store.rows[job].req.payload)
      ensures usage.accounted <= Reservation(sys.store.rows[job].req.payload)
    {
      ReservationCovers(usage, sys.store.rows[job].req.payload);
    }
  }

  /** What the receipt of a sent external job makes possible, as a step towards the recovery theorems. */
  lemma ReceiptIsUsable(cfg: Config, sys: System, job: JobId)
    requires Inv(cfg, sys) && job < |sys.store.rows| && External(sys.store.rows[job]) && job in sys.store.receipts
    ensures var usage, row := sys.store.receipts[job], sys.store.rows[job];
      && ParseUsage(ReceiptData(usage), row.req.payload) == Ok(usage)
      && usage.accounted <= Reservation(row.req.payload)
      && usage.accounted == CostMicrousd(usage.inputTokens, usage.outputTokens)
      && (row.phase in {Sending, Unknown} ==> row.held == Reservation(row.req.payload))
  {
    assert RowOk(sys.store.rows[job], ReceiptOf(sys.store, job));
    ReceiptRoundTrip(sys.store.receipts[job], sys.store.rows[job].req.payload);
    ReservationCovers(sys.store.receipts[job], sys.store.rows[job].req.payload);
  }

  /**
   A recovery proposal exists exactly for an open or already reconciled call with a receipt. The guards
   against a charge above the hold and against a receipt that re-reads differently are never reached.
  */
  lemma ProposalExistsExactlyWithReceipt(cfg: Config, sys: System, job: JobId)
    requires Reachable(cfg, sys)
    ensures Proposal(sys.store, job).Ok? <==>
      job < |sys.store.rows| && sys.store.rows[job].phase in {Unknown, Reconciled} && job in sys.store.receipts
    ensures Proposal(sys.store, job).Err? ==> Proposal(sys.store, job).error == NothingToRecover
  {
    ReachableInv(cfg, sys);
    if job < |sys.store.rows| && job in sys.store.receipts {
      assert RowOk(sys.store.rows[job], ReceiptOf(sys.store, job));
      ReceiptIsUsable(cfg, sys, job);
    }
  }

  /** Sending never meets a cap below its hold, because approval checked the same sum. */
  lemma ApprovedCapIsEnough(cfg: Config, sys: System, claim: Claim, env: Env)
    requires Reachable(cfg, sys)
    ensures BeginTx(cfg, sys.store, claim, env).1 != Refused(CapExceeded)
  {
    ReachableInv(cfg, sys);
    if claim.job < |sys.store.rows| {
      assert RowOk(sys.store.rows[claim.job], ReceiptOf(sys.store, claim.job));
    }
  }

  /** The job's row after its charge was settled or recovered. */
  ghost predicate ClosedAt(before: Store, after: Store, job: JobId, charge: nat) {
    && Final(after, job) && after.receipts == before.receipts
    && |after.rows| == |before.rows| && after.rows == before.rows[job := after.rows[job]]
    && after.rows[job].charged == charge && after.rows[job].held == 0 && after.rows[job].sentAt == before.rows[job].sentAt
  }

  lemma SameExposure(before: Store, a: Store, b: Store, job: JobId, charge: nat, scope: Scope)
    requires job < |before.rows| && ClosedAt(before, a, job, charge) && ClosedAt(before, b, job, charge)
    ensures Exposure(a.rows, scope) == Exposure(b.rows, scope)
  {
    ExposureUpdate(before.rows, job, a.rows[job], scope);
    ExposureUpdate(before.rows, job, b.rows[job], scope);
  }

  lemma FinishFirst(cfg: Config, sys: System, w: Worker, job: JobId)
    requires Inv(cfg, sys) && w in sys.flights && sys.flights[w].job == job && ReadyToFinish(sys.flights[w].stage)
    requires job < |sys.store.rows| && External(sys.store.rows[job])
    requires sys.store.rows[job].phase == Unknown && job in sys.store.receipts
    ensures ClosedAt(sys.store, ReconcileStep(FinishStep(cfg, sys, w), job, sys.store.receipts[job]).store, job,
                     sys.store.receipts[job].accounted)
  {
    assert FlightOk(sys.store, sys.flights[w]);
    ReceiptIsUsable(cfg, sys, job);
    FinishKeepsRow(cfg, sys, w);
  }

  lemma ReconcileFirst(cfg: Config, sys: System, w: Worker, job: JobId)
    requires Inv(cfg, sys) && w in sys.flights && sys.flights[w].job == job && ReadyToFinish(sys.flights[w].stage)
    requires job < |sys.store.rows| && External(sys.store.rows[job])
    requires sys.store.rows[job].phase == Unknown && job in sys.store.receipts
    ensures ClosedAt(sys.store, FinishStep(cfg, ReconcileStep(sys, job, sys.store.receipts[job]), w).store, job,
                     sys.store.receipts[job].accounted)
  {
    ReceiptIsUsable(cfg, sys, job);
    assert ReconcileStep(sys, job, sys.store.receipts[job]).store.rows[job].phase == Reconciled;
  }

  /**
   A late worker and an approved recovery of the same call race: in either order the row ends closed,
   with the one charge its receipt proves, and with the same exposure on every scope.
  */
  lemma FinishAndReconcileAgree(cfg: Config, sys: System, w: Worker, job: JobId)
    requires Reachable(cfg, sys)
    requires w in sys.flights && sys.flights[w].job == job && ReadyToFinish(sys.flights[w].stage)
    requires job < |sys.store.rows| && sys.store.rows[job].phase == Unknown && job in sys.store.receipts
    ensures var usage := sys.store.receipts[job];
      var a := ReconcileStep(FinishStep(cfg, sys, w), job, usage).store;
      var b := FinishStep(cfg, ReconcileStep(sys, job, usage), w).store;
      && Final(a, job) && Final(b, job)
      && a.rows[job].charged == b.rows[job].charged == CostMicrousd(usage.inputTokens, usage.outputTokens)
      && a.rows[job].held == b.rows[job].held == 0
      && forall scope :: Exposure(a.rows, scope) == Exposure(b.rows, scope)
  {
    ReachableInv(cfg, sys);
    var usage := sys.store.receipts[job];
    assert RowOk(sys.store.rows[job], ReceiptOf(sys.store, job));
    ReceiptIsUsable(cfg, sys, job);
    FinishFirst(cfg, sys, w, job);
    ReconcileFirst(cfg, sys, w, job);
    var a := ReconcileStep(FinishStep(cfg, sys, w), job, usage).store;
    var b := FinishStep(cfg, ReconcileStep(sys, job, usage), w).store;
    forall scope ensures Exposure(a.rows, scope) == Exposure(b.rows, scope) {
      SameExposure(sys.store, a, b, job, usage.accounted, scope);
    }
  }

  /** A worker that dies right after its receipt: takeover plus review closes the call without a second send. */
  lemma CrashedCallIsRecoverable(cfg: Config, sys: System, w: Worker, claim: Claim, env: Env)
    requires Reachable(cfg, sys)
    requires w !in sys.flights && LeaseHeld(sys.store, claim, env.now) && claim.job < |sys.store.rows|
    requires External(sys.store.rows[claim.job]) && sys.store.rows[claim.job].phase == Sending
    requires claim.job in sys.store.receipts
    ensures var usage := sys.store.receipts[claim.job];
      var sys' := ReconcileStep(BeginStep(cfg, sys, w, claim, env), claim.job, usage);
      && Final(sys'.store, claim.job) && sys'.store.rows[claim.job].charged == usage.accounted
      && sys'.sends == sys.sends && sys'.flights == sys.flights
  {
    ReachableInv(cfg, sys);
    assert RowOk(sys.store.rows[claim.job], ReceiptOf(sys.store, claim.job));
    ReceiptIsUsable(cfg, sys, claim.job);
  }
}
