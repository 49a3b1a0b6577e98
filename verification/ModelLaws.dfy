/**
 What every transaction on the model ledger does and when, without reference to how it decides (model_work.py,
 model_receipts.py): both directions of each outcome, in every state some run reaches.
*/
module ModelLaws {
  import opened Wrappers
  import opened Json
  import opened OpenAiText
  import opened ModelLedger
  import opened ModelRuns

  // ----- sending -----

  /** The claim is the job's current lease: same token and step, still running, not yet expired. */
  predicate Leased(s: Store, claim: Claim, now: int) {
    && claim.job in s.jobs && s.jobs[claim.job].running && now < s.jobs[claim.job].until
    && s.jobs[claim.job].token == claim.token && s.jobs[claim.job].step == claim.step
  }

  /** What the two budgets sum: all that is held or charged, and for a day all that is held and what was sent since. */
  lemma BudgetSums(rows: seq<Row>, row: Row, dayStart: int)
    ensures Exposure([], WholeLedger) == 0 && Exposure([], BudgetDay(dayStart)) == 0
    ensures Exposure(rows + [row], WholeLedger) == Exposure(rows, WholeLedger) + row.held + row.charged
    ensures Exposure(rows + [row], BudgetDay(dayStart)) ==
      Exposure(rows, BudgetDay(dayStart)) + row.held
      + if row.sentAt.Some? && dayStart <= row.sentAt.value then row.charged else 0
  {
    assert (rows + [row])[..|rows|] == rows;
  }

  /** A paid request that was approved and never sent, and everything that must hold to send it now. */
  predicate PaidMayGo(cfg: Config, rows: seq<Row>, row: Row, env: Env) {
    && row.phase == Approved && cfg.enabled && cfg.keyed && 1 <= cfg.daily && 1 <= cfg.total && env.tariffCurrent
    && 1 <= |row.req.payload.input| <= 4096 && 1 <= row.req.payload.maxOutputTokens <= 1024
    && Reservation(row.req.payload) <= row.req.maxCost
    && (forall other <- rows :: other.phase != Unknown)
    && Exposure(rows, WholeLedger) + Reservation(row.req.payload) <= cfg.total
    && Exposure(rows, BudgetDay(env.now / 86_400 * 86_400)) + Reservation(row.req.payload) <= cfg.daily
  }

  predicate MayGo(cfg: Config, s: Store, claim: Claim, env: Env) {
    && Leased(s, claim, env.now) && claim.job < |s.rows| && s.rows[claim.job].result.None?
    && env.taskEligible && env.routeCurrent
    && match s.rows[claim.job].req.payload.provider
       case Ollama => env.localReady
       case OpenAi => PaidMayGo(cfg, s.rows, s.rows[claim.job], env)
  }

  /** The ledger after a send was authorised: the hold is taken; only a local call's lease is extended. */
  function SentStore(s: Store, claim: Claim, env: Env): Store
    requires claim.job in s.jobs && claim.job < |s.rows|
  {
    var row, job := s.rows[claim.job], s.jobs[claim.job];
    match row.req.payload.provider
    case OpenAi =>
      s.(rows := s.rows[claim.job := row.(phase := Sending, held := Reservation(row.req.payload), sentAt := Some(env.now))])
    case Ollama =>
      s.(rows := s.rows[claim.job := row.(phase := Sending, held := 0, sentAt := Some(env.now))],
         jobs := s.jobs[claim.job := job.(until := env.now + env.localWindow)])
  }

  /** The begin transaction authorises a call exactly when it may go, and then sends what was approved. */
  lemma AuthorisedExactlyWhen(cfg: Config, sys: System, claim: Claim, env: Env)
    requires Reachable(cfg, sys)
    ensures var (after, result) := BeginTx(cfg, sys.store, claim, env);
      && (result.Authorised? <==> MayGo(cfg, sys.store, claim, env))
      && (result.Authorised? ==>
            result.payload == sys.store.rows[claim.job].req.payload && after == SentStore(sys.store, claim, env))
  {
    ReachableInv(cfg, sys);
    if claim.job < |sys.store.rows| {
      assert RowOk(sys.store.rows[claim.job], ReceiptOf(sys.store, claim.job));
    }
  }

  /**
   Over every step of every run: a call is sent if and only if a free worker begins it and it may go. It is then the
   one call added, and the worker carries what was approved.
  */
  lemma SendsGrowExactlyWhen(cfg: Config, sys: System, e: Event)
    requires Reachable(cfg, sys)
    ensures var next := Exec(cfg, sys, e);
      && (next.sends != sys.sends <==> e.Begin? && e.w !in sys.flights && MayGo(cfg, sys.store, e.claim, e.env))
      && (next.sends != sys.sends ==>
            && next.sends == sys.sends + [e.claim.job] && next.store == SentStore(sys.store, e.claim, e.env)
            && next.flights == sys.flights[e.w := Flight(e.claim.job, sys.store.rows[e.claim.job].req.payload, InCall)])
  {
    if e.Begin? {
      AuthorisedExactlyWhen(cfg, sys, e.claim, e.env);
    }
  }

  /**
   The other answers of the begin transaction. Stored evidence is returned whenever the lease holds, whatever the
   configuration, and an interrupted paid call is marked unknown; every refusal leaves the ledger alone and names
   something that is the case.
  */
  lemma BegunOtherwise(cfg: Config, sys: System, claim: Claim, env: Env)
    requires Reachable(cfg, sys)
    ensures var s := sys.store;
      var (after, result) := BeginTx(cfg, s, claim, env);
      && (result == Refused(LeaseLost) <==> !Leased(s, claim, env.now))
      && (result == Refused(MissingRequest) <==> Leased(s, claim, env.now) && claim.job >= |s.rows|)
      && (result.Refused? ==> after == s)
      && (claim.job < |s.rows| ==>
            var row := s.rows[claim.job];
            var paid := row.req.payload.provider == OpenAi;
            && (result.Cached? <==>
                  Leased(s, claim, env.now) && (row.result.Some? || (paid && row.phase in {Sending, Unknown})))
            && (result.Cached? && row.result.Some? ==> result.outcome == row.result.value && after == s)
            && (result.Cached? && row.result.None? ==>
                  result.outcome == OutcomeUnknown && after == s.(rows := s.rows[claim.job := row.(phase := Unknown)]))
            && (result == Refused(TaskIneligible) ==> !env.taskEligible)
            && (result == Refused(ReconciliationRequired) ==> paid && exists other <- s.rows :: other.phase == Unknown)
            && (result == Refused(BudgetExhausted) ==>
                  paid && (cfg.total < Exposure(s.rows, WholeLedger) + Reservation(row.req.payload)
                           || cfg.daily < Exposure(s.rows, BudgetDay(env.now / 86_400 * 86_400)) + Reservation(row.req.payload))))
  {
    ReachableInv(cfg, sys);
    if claim.job < |sys.store.rows| {
      assert RowOk(sys.store.rows[claim.job], ReceiptOf(sys.store, claim.job));
    }
  }

  /** An approval is stored exactly when it was given, is acceptable and affordable, and its cap covers its hold. */
  lemma EnqueuedExactlyWhen(cfg: Config, sys: System, details: Details)
    ensures var next, payload := Exec(cfg, sys, Enqueue(details)), details.payload;
      && (next != sys <==>
            && details.approved && details.textAccepted && 1 <= details.maxCost <= 1_000_000
            && (payload.provider == OpenAi ==>
                  && 1 <= |payload.input| <= 4096 && 1 <= payload.maxOutputTokens <= 1024
                  && Reservation(payload) <= details.maxCost))
      && (next != sys ==>
            && next.store.rows == sys.store.rows + [Row(Request(payload, details.maxCost), Approved, 0, 0, None, None)]
            && next.store.jobs == sys.store.jobs[|sys.store.rows| := Job(false, 0, 0, 0)]
            && next == sys.(store := next.store) && next.store.receipts == sys.store.receipts)
  {
    var next := Exec(cfg, sys, Enqueue(details));
    assert |next.store.rows| != |sys.store.rows| <==> Prepare(details).Some?;
  }

  // ----- receipts -----

  /** A receipt is accepted exactly for usage of a sent request that parses, and does not contradict an earlier one. */
  lemma ReceiptStoredExactlyWhen(s: Store, job: JobId, payload: Payload, data: Json)
    ensures var stored, usage := RecordTx(s, job, payload, data), ParseUsage(data, payload);
      && (stored.Ok? <==>
            && usage.Ok? && job < |s.rows| && s.rows[job].sentAt.Some? && s.rows[job].req.payload == payload
            && (job in s.receipts ==> s.receipts[job] == usage.value))
      && (stored.Ok? ==> stored.value == s.(receipts := s.receipts[job := usage.value]))
      && (stored == Err(UsageRejected) <==> usage.Err?)
      && (stored == Err(ConflictingUsage) <==>
            && usage.Ok? && job < |s.rows| && s.rows[job].sentAt.Some? && s.rows[job].req.payload == payload
            && job in s.receipts && s.receipts[job] != usage.value)
  {
  }

  /** In a run a reply leaves a receipt exactly when its usage parses; otherwise the call has failed. */
  lemma RecordedExactlyWhen(cfg: Config, sys: System, w: Worker)
    requires Reachable(cfg, sys) && w in sys.flights && sys.flights[w].stage.Replied?
    ensures var flight, next := sys.flights[w], Exec(cfg, sys, Record(w));
      var usage := ParseUsage(flight.stage.data, flight.payload);
      && flight.job !in sys.store.receipts
      && next.store == (if usage.Ok? then sys.store.(receipts := sys.store.receipts[flight.job := usage.value]) else sys.store)
      && next.flights == sys.flights[w := flight.(stage := if usage.Ok? then Recorded(flight.stage.data) else Failed)]
  {
    ReachableInv(cfg, sys);
    assert FlightOk(sys.store, sys.flights[w]);
    assert RowOk(sys.store.rows[sys.flights[w].job], ReceiptOf(sys.store, sys.flights[w].job));
  }

  // ----- the end of a call -----

  /** What a paid call ends with: the answer, if the reply's usage is recorded and its text parses and is clean. */
  ghost predicate PaidAnswer(cfg: Config, flight: Flight, answer: Answer) {
    && flight.stage.Recorded? && AnswerOf(flight.stage.data, flight.payload, cfg.redact) == Ok(answer)
    && cfg.clean(answer.text)
  }

  /** How a paid row ends up: settled with the answer at the receipt's cost, or unknown with its hold kept. */
  lemma PaidCallEnds(cfg: Config, sys: System, w: Worker)
    requires Reachable(cfg, sys) && w in sys.flights && ReadyToFinish(sys.flights[w].stage)
    requires sys.flights[w].payload.provider == OpenAi
    ensures var flight, next := sys.flights[w], Exec(cfg, sys, Finish(w));
      var job := flight.job;
      && job < |sys.store.rows| && next.flights == sys.flights - {w}
      && var row := sys.store.rows[job];
         if row.phase == Reconciled then next.store == sys.store
         else
           && next.store == sys.store.(rows := sys.store.rows[job := next.store.rows[job]])
           && (forall answer | PaidAnswer(cfg, flight, answer) ::
                 && job in sys.store.receipts
                 && next.store.rows[job] == row.(
                      phase := Settled, held := 0, charged := sys.store.receipts[job].accounted,
                      result := Some(Answered(answer.complete, answer.text, sys.store.receipts[job].accounted))))
           && ((forall answer :: !PaidAnswer(cfg, flight, answer)) ==>
                 next.store.rows[job] == row.(phase := Unknown, result := Some(OutcomeUnknown)))
  {
    ReachableInv(cfg, sys);
    var flight := sys.flights[w];
    assert FlightOk(sys.store, flight);
    if flight.stage.Recorded? && AnswerOf(flight.stage.data, flight.payload, cfg.redact).Ok? {
      var answer := AnswerOf(flight.stage.data, flight.payload, cfg.redact).value;
      assert cfg.clean(answer.text) ==> PaidAnswer(cfg, flight, answer);
    }
  }

  /** A local row ends settled with the clean text it was given, free of charge, or goes back to approved. */
  lemma LocalCallEnds(cfg: Config, sys: System, w: Worker)
    requires Reachable(cfg, sys) && w in sys.flights && ReadyToFinish(sys.flights[w].stage)
    requires sys.flights[w].payload.provider == Ollama
    ensures var flight, next := sys.flights[w], Exec(cfg, sys, Finish(w));
      && flight.job < |sys.store.rows| && next.flights == sys.flights - {w}
      && var row := sys.store.rows[flight.job];
         next.store == sys.store.(rows := sys.store.rows[flight.job :=
           if flight.stage.LocalReply? && cfg.clean(flight.stage.text)
           then row.(phase := Settled, result := Some(Answered(flight.stage.complete, flight.stage.text, 0)))
           else row.(phase := Approved, result := None)])
  {
    ReachableInv(cfg, sys);
    assert FlightOk(sys.store, sys.flights[w]);
    assert RowOk(sys.store.rows[sys.flights[w].job], ReceiptOf(sys.store, sys.flights[w].job));
  }

  // ----- recovery -----

  /** A review closes a call exactly if the call is unknown, has a receipt, and that receipt is what was reviewed. */
  lemma ReconciledExactlyWhen(cfg: Config, sys: System, job: JobId, reviewed: Usage)
    requires Reachable(cfg, sys)
    ensures var next := Exec(cfg, sys, Reconcile(job, reviewed));
      && (next != sys <==>
            && job < |sys.store.rows| && sys.store.rows[job].phase == Unknown
            && job in sys.store.receipts && sys.store.receipts[job] == reviewed)
      && (next != sys ==>
            next == sys.(store := sys.store.(rows := sys.store.rows[job := sys.store.rows[job].(
              phase := Reconciled, held := 0, charged := reviewed.accounted, result := Some(CostOnly(reviewed.accounted)))])))
  {
    ReachableInv(cfg, sys);
    ProposalExistsExactlyWithReceipt(cfg, sys, job);
    if job < |sys.store.rows| && sys.store.rows[job].phase == Unknown && job in sys.store.receipts {
      var next := Exec(cfg, sys, Reconcile(job, reviewed));
      assert reviewed == sys.store.receipts[job] ==> next.store.rows[job].phase == Reconciled;
    }
  }

  /** The owner's view says a call was made exactly if it was sent and is closed; open calls are told as such. */
  lemma ViewSaysMadeExactlyWhen(cfg: Config, sys: System, job: JobId)
    requires Reachable(cfg, sys) && job < |sys.store.rows| && External(sys.store.rows[job])
    ensures var row := sys.store.rows[job];
      && (CallsMade(row) == Some(true) <==> job in sys.sends && row.phase in {Settled, Reconciled})
      && (CallsMade(row) == None <==> job in sys.sends && row.phase !in {Settled, Reconciled})
  {
    ViewIsTruthful(cfg, sys, job);
    ReachableInv(cfg, sys);
    assert RowOk(sys.store.rows[job], ReceiptOf(sys.store, job));
    assert job in sys.sends <==> multiset(sys.sends)[job] > 0;
  }

  // ----- what an answer is -----

  /** The stored answer of a row is what its worker was told. */
  ghost predicate AnswerWasHeard(cfg: Config, sys: System, job: JobId)
    requires job < |sys.store.rows|
  {
    var row := sys.store.rows[job];
    row.result.Some? && row.result.value.Answered? ==>
      var result := row.result.value;
      if External(row) then
        exists heard <- sys.heard :: heard.Response? && heard.job == job && IsAnswer(cfg, heard.data, row.req.payload, result)
      else cfg.clean(result.text) && result.accounted == 0 && Written(job, result.complete, result.text) in sys.heard
  }

  ghost predicate IsAnswer(cfg: Config, data: Json, payload: Payload, result: Outcome)
    requires result.Answered?
  {
    var answer := AnswerOf(data, payload, cfg.redact);
    && answer.Ok? && cfg.clean(answer.value.text) && result.complete == answer.value.complete
    && result.text == answer.value.text && result.accounted == answer.value.usage.accounted
  }

  ghost predicate FlightWasHeard(sys: System, flight: Flight) {
    match flight.stage
    case Replied(data) => Response(flight.job, data) in sys.heard
    case Recorded(data) => Response(flight.job, data) in sys.heard
    case LocalReply(complete, text) => Written(flight.job, complete, text) in sys.heard
    case _ => true
  }

  ghost predicate Told(heard: seq<Heard>, job: JobId) {
    exists h <- heard :: h.Response? && h.job == job
  }

  ghost predicate OneResponseEach(heard: seq<Heard>) {
    forall i, j | 0 <= i < j < |heard| && heard[i].Response? && heard[j].Response? :: heard[i].job != heard[j].job
  }

  /** Responses are heard for paid calls that were sent, and not while the call is still going on. */
  ghost predicate ToldOk(sys: System, job: JobId) {
    Told(sys.heard, job) ==>
      && job < |sys.store.rows| && External(sys.store.rows[job]) && sys.store.rows[job].sentAt.Some?
      && forall w <- sys.flights | sys.flights[w].job == job :: !sys.flights[w].stage.InCall?
  }

  ghost predicate HeardOk(cfg: Config, sys: System) {
    && (forall job | 0 <= job < |sys.store.rows| :: AnswerWasHeard(cfg, sys, job))
    && (forall w <- sys.flights :: FlightWasHeard(sys, sys.flights[w]))
    && OneResponseEach(sys.heard) && forall job: JobId :: ToldOk(sys, job)
  }

  lemma HeardIsKept(cfg: Config, sys: System, next: System, job: JobId)
    requires sys.heard <= next.heard && job < |sys.store.rows| && job < |next.store.rows| && AnswerWasHeard(cfg, sys, job)
    requires next.store.rows[job].req == sys.store.rows[job].req && next.store.rows[job].result == sys.store.rows[job].result
    ensures AnswerWasHeard(cfg, next, job)
  {
    forall heard <- sys.heard ensures heard in next.heard {
    }
  }

  ghost predicate SameAnswer(before: Row, after: Row) {
    && after.req == before.req && (before.sentAt.Some? ==> after.sentAt.Some?)
    && (after.result == before.result || after.result.None? || !after.result.value.Answered?)
  }

  /** A step that hears nothing and writes no answer keeps what was heard. */
  lemma QuietKeepsHeard(cfg: Config, sys: System, next: System)
    requires HeardOk(cfg, sys) && next.heard == sys.heard && |sys.store.rows| <= |next.store.rows|
    requires forall job | 0 <= job < |sys.store.rows| :: SameAnswer(sys.store.rows[job], next.store.rows[job])
    requires forall job | |sys.store.rows| <= job < |next.store.rows| :: next.store.rows[job].result.None?
    requires forall w <- next.flights :: FlightWasHeard(sys, next.flights[w])
    requires forall w <- next.flights | next.flights[w].stage.InCall? :: !Told(sys.heard, next.flights[w].job)
    ensures HeardOk(cfg, next)
  {
    forall job: JobId | job < |next.store.rows| ensures AnswerWasHeard(cfg, next, job) {
      if job < |sys.store.rows| {
        assert SameAnswer(sys.store.rows[job], next.store.rows[job]) && AnswerWasHeard(cfg, sys, job);
      }
    }
    forall w <- next.flights ensures FlightWasHeard(next, next.flights[w]) {
      assert FlightWasHeard(sys, next.flights[w]);
    }
    forall job: JobId ensures ToldOk(next, job) {
      assert ToldOk(sys, job);
      if Told(sys.heard, job) {
        assert SameAnswer(sys.store.rows[job], next.store.rows[job]);
      }
    }
  }

  lemma InCallsAreNotTold(cfg: Config, sys: System)
    requires HeardOk(cfg, sys)
    ensures forall w <- sys.flights | sys.flights[w].stage.InCall? :: !Told(sys.heard, sys.flights[w].job)
  {
    forall w <- sys.flights | sys.flights[w].stage.InCall? ensures !Told(sys.heard, sys.flights[w].job) {
      assert ToldOk(sys, sys.flights[w].job);
    }
  }

  /** A job that may still be sent has not been answered. */
  lemma NotToldBefore(cfg: Config, sys: System, claim: Claim, env: Env)
    requires RowsOk(sys.store) && HeardOk(cfg, sys) && BeginTx(cfg, sys.store, claim, env).1.Authorised?
    ensures !Told(sys.heard, claim.job)
  {
    BeginShapes(cfg, sys.store, claim, env);
    assert ToldOk(sys, claim.job) && RowOk(sys.store.rows[claim.job], ReceiptOf(sys.store, claim.job));
  }

  lemma BeginKeepsHeard(cfg: Config, sys: System, w: Worker, claim: Claim, env: Env)
    requires Inv(cfg, sys) && HeardOk(cfg, sys)
    ensures HeardOk(cfg, BeginStep(cfg, sys, w, claim, env))
  {
    var next := BeginStep(cfg, sys, w, claim, env);
    BeginShapes(cfg, sys.store, claim, env);
    if BeginTx(cfg, sys.store, claim, env).1.Authorised? {
      NotToldBefore(cfg, sys, claim, env);
    }
    InCallsAreNotTold(cfg, sys);
    QuietKeepsHeard(cfg, sys, next);
  }

  lemma OneMoreResponse(heard: seq<Heard>, job: JobId, data: Json, other: JobId)
    requires OneResponseEach(heard) && !Told(heard, job)
    ensures OneResponseEach(heard + [Response(job, data)])
    ensures Told(heard + [Response(job, data)], other) <==> other == job || Told(heard, other)
  {
    var longer := heard + [Response(job, data)];
    forall h <- heard ensures h in longer {
    }
    assert Response(job, data) in longer;
    forall i | 0 <= i < |heard| && heard[i].Response? ensures heard[i].job != job {
      assert heard[i] in heard;
    }
  }

  lemma ReplyKeepsHeard(cfg: Config, sys: System, w: Worker, data: Json)
    requires Inv(cfg, sys) && HeardOk(cfg, sys)
    requires w in sys.flights && sys.flights[w].stage == InCall && sys.flights[w].payload.provider == OpenAi
    ensures HeardOk(cfg, Exec(cfg, sys, Reply(w, data)))
  {
    var next, told := Exec(cfg, sys, Reply(w, data)), sys.flights[w].job;
    assert FlightOk(sys.store, sys.flights[w]) && ToldOk(sys, told);
    assert RowOk(sys.store.rows[told], ReceiptOf(sys.store, told));
    forall job: JobId | job < |next.store.rows| ensures AnswerWasHeard(cfg, next, job) {
      HeardIsKept(cfg, sys, next, job);
    }
    forall v <- next.flights ensures FlightWasHeard(next, next.flights[v]) {
      assert FlightWasHeard(sys, sys.flights[v]);
    }
    forall job: JobId ensures ToldOk(next, job) {
      assert ToldOk(sys, job);
      OneMoreResponse(sys.heard, told, data, job);
    }
    OneMoreResponse(sys.heard, told, data, told);
  }

  lemma LocalDoneKeepsHeard(cfg: Config, sys: System, w: Worker, complete: bool, text: Utf8)
    requires Inv(cfg, sys) && HeardOk(cfg, sys)
    requires w in sys.flights && sys.flights[w].stage == InCall && sys.flights[w].payload.provider == Ollama
    ensures HeardOk(cfg, Exec(cfg, sys, LocalDone(w, complete, text)))
  {
    var next := Exec(cfg, sys, LocalDone(w, complete, text));
    forall job: JobId | job < |next.store.rows| ensures AnswerWasHeard(cfg, next, job) {
      HeardIsKept(cfg, sys, next, job);
    }
    forall v <- next.flights ensures FlightWasHeard(next, next.flights[v]) {
      assert FlightWasHeard(sys, sys.flights[v]);
    }
    forall job: JobId ensures ToldOk(next, job) {
      assert ToldOk(sys, job);
      forall h <- next.heard | h.Response? ensures h in sys.heard {
      }
    }
  }

  lemma FinishKeepsHeard(cfg: Config, sys: System, w: Worker)
    requires Inv(cfg, sys) && HeardOk(cfg, sys) && w in sys.flights && ReadyToFinish(sys.flights[w].stage)
    ensures HeardOk(cfg, FinishStep(cfg, sys, w))
  {
    var flight, next := sys.flights[w], FinishStep(cfg, sys, w);
    assert FlightOk(sys.store, flight) && FlightWasHeard(sys, flight);
    forall job: JobId | job < |next.store.rows| ensures AnswerWasHeard(cfg, next, job) {
      if job != flight.job || next.store.rows[job] == sys.store.rows[job] {
        HeardIsKept(cfg, sys, next, job);
      }
    }
    forall v <- next.flights ensures FlightWasHeard(next, next.flights[v]) {
      assert FlightWasHeard(sys, sys.flights[v]);
    }
    forall job: JobId ensures ToldOk(next, job) {
      assert ToldOk(sys, job);
    }
  }

  /** Nothing else is heard, and no other step writes an answer. */
  lemma OthersKeepHeard(cfg: Config, sys: System, e: Event)
    requires HeardOk(cfg, sys) && (e.Enqueue? || e.QueueMoves? || e.Break? || e.Crash?)
    ensures HeardOk(cfg, Exec(cfg, sys, e))
  {
    InCallsAreNotTold(cfg, sys);
    QuietKeepsHeard(cfg, sys, Exec(cfg, sys, e));
  }

  lemma RecordKeepsHeard(cfg: Config, sys: System, w: Worker)
    requires HeardOk(cfg, sys)
    ensures HeardOk(cfg, Exec(cfg, sys, Record(w)))
  {
    InCallsAreNotTold(cfg, sys);
    var next := Exec(cfg, sys, Record(w));
    assert next.store.rows == sys.store.rows;
    QuietKeepsHeard(cfg, sys, next);
  }

  lemma ReviewKeepsHeard(cfg: Config, sys: System, job: JobId, reviewed: Usage)
    requires HeardOk(cfg, sys)
    ensures HeardOk(cfg, Exec(cfg, sys, Reconcile(job, reviewed)))
  {
    InCallsAreNotTold(cfg, sys);
    QuietKeepsHeard(cfg, sys, Exec(cfg, sys, Reconcile(job, reviewed)));
  }

  lemma ExecKeepsHeard(cfg: Config, sys: System, e: Event)
    requires Inv(cfg, sys) && HeardOk(cfg, sys)
    ensures HeardOk(cfg, Exec(cfg, sys, e))
  {
    match e
    case Begin(w, claim, env) => BeginKeepsHeard(cfg, sys, w, claim, env);
    case Reply(w, data) =>
      if Exec(cfg, sys, e) != sys {
        ReplyKeepsHeard(cfg, sys, w, data);
      }
    case LocalDone(w, complete, text) =>
      if Exec(cfg, sys, e) != sys {
        LocalDoneKeepsHeard(cfg, sys, w, complete, text);
      }
    case Finish(w) =>
      if Exec(cfg, sys, e) != sys {
        FinishKeepsHeard(cfg, sys, w);
      }
    case Record(w) => RecordKeepsHeard(cfg, sys, w);
    case Reconcile(job, reviewed) => ReviewKeepsHeard(cfg, sys, job, reviewed);
    case _ => OthersKeepHeard(cfg, sys, e);
  }

  lemma {:induction false} RunIsHeard(cfg: Config, events: seq<Event>)
    ensures HeardOk(cfg, Run(cfg, INITIAL, events))
  {
    if events != [] {
      RunIsHeard(cfg, events[..|events| - 1]);
      assert Inv(cfg, INITIAL);
      RunKeeps(cfg, INITIAL, events[..|events| - 1]);
      ExecKeepsHeard(cfg, Run(cfg, INITIAL, events[..|events| - 1]), events[|events| - 1]);
    }
  }

  /**
   Over every run: the answer a row holds is the one its worker was told. For a paid job it is what that job's only
   response parses to, clean, with the completeness it was parsed with, at its own cost. A later begin of the job that
   holds the lease returns it as it is and sends nothing.
  */
  lemma StoredAnswerWasHeard(cfg: Config, sys: System, job: JobId, claim: Claim, env: Env)
    requires Reachable(cfg, sys) && job < |sys.store.rows|
    requires sys.store.rows[job].result.Some? && sys.store.rows[job].result.value.Answered?
    ensures AnswerWasHeard(cfg, sys, job) && OneResponseEach(sys.heard)
    ensures claim.job == job && Leased(sys.store, claim, env.now) ==>
      BeginTx(cfg, sys.store, claim, env) == (sys.store, Cached(sys.store.rows[job].result.value))
  {
    var events :| sys == Run(cfg, INITIAL, events);
    RunIsHeard(cfg, events);
    if claim.job == job {
      BegunOtherwise(cfg, sys, claim, env);
    }
  }
}
