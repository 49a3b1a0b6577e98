/**
 The executor as the code runs it: each transaction reads and rewrites the tables in place.
 Its methods are the steps the interleaving model composes; `Execute` is one uninterrupted call.
*/
module ModelExecutor {
  import opened Wrappers
  import opened Json
  import opened OpenAiText
  import opened ModelLedger
  import opened ModelRuns

  /** What the two transports would answer; None stands for any exception. */
  datatype Transports = Transports(openai: Option<Json>, ollama: Option<(bool, Utf8)>)

  datatype ExecuteResult = Done(outcome: Outcome) | Raised(why: Refusal)

  /** One worker's uninterrupted call, as events of the interleaving model. */
  function CallEvents(claim: Claim, env: Env, provider: Provider, transports: Transports): seq<Event> {
    [Begin(0, claim, env)] + (MiddleEvents(provider, transports) + [Finish(0)])
  }

  lemma RunOf2(cfg: Config, sys: System, a: Event, b: Event)
    ensures Run(cfg, sys, [a, b]) == Exec(cfg, Exec(cfg, sys, a), b)
  {
    assert [a, b][..1] == [a] && [a][..0] == [];
    assert Run(cfg, sys, [a]) == Exec(cfg, sys, a);
  }

  lemma RunOf4(cfg: Config, sys: System, a: Event, b: Event, c: Event, d: Event)
    ensures Run(cfg, sys, [a, b, c]) == Exec(cfg, Exec(cfg, Exec(cfg, sys, a), b), c)
    ensures Run(cfg, sys, [a, b, c, d]) == Exec(cfg, Exec(cfg, Exec(cfg, Exec(cfg, sys, a), b), c), d)
  {
    RunOf2(cfg, sys, a, b);
    assert [a, b, c][..2] == [a, b];
    assert Run(cfg, sys, [a, b, c]) == Exec(cfg, Run(cfg, sys, [a, b]), c);
    assert [a, b, c, d][..3] == [a, b, c];
    assert Run(cfg, sys, [a, b, c, d]) == Exec(cfg, Run(cfg, sys, [a, b, c]), d);
  }

  function ProviderOf(s: Store, job: JobId): Provider {
    if job < |s.rows| then s.rows[job].req.payload.provider else OpenAi
  }

  /** What an authorised call comes to, and the ledger with the receipt it may leave behind. */
  ghost function CallResult(cfg: Config, s: Store, job: JobId, payload: Payload, transports: Transports): (Store, Outcome) {
    if payload.provider == Ollama then
      (s, if transports.ollama.None? || !cfg.clean(transports.ollama.value.1) then LocalUnavailable
          else Answered(transports.ollama.value.0, transports.ollama.value.1, 0))
    else if transports.openai.None? then (s, OutcomeUnknown)
    else
      match RecordTx(s, job, payload, transports.openai.value)
      case Err(_) => (s, OutcomeUnknown)
      case Ok(s') => (s', OutcomeOf(cfg, Flight(job, payload, Recorded(transports.openai.value))))
  }

  /** The events between begin and the end of the call. */
  function MiddleEvents(provider: Provider, transports: Transports): seq<Event> {
    if provider == OpenAi && transports.openai.Some? then [Reply(0, transports.openai.value), Record(0)]
    else if provider == Ollama && transports.ollama.Some? then
      [LocalDone(0, transports.ollama.value.0, transports.ollama.value.1)]
    else [Break(0)]
  }

  lemma NothingInFlight(cfg: Config, sys: System, provider: Provider, transports: Transports)
    requires sys.flights == map[]
    ensures Run(cfg, sys, MiddleEvents(provider, transports) + [Finish(0)]) == sys
  {
    var events := MiddleEvents(provider, transports);
    if |events| == 2 {
      assert events + [Finish(0)] == [events[0], events[1], Finish(0)];
      RunOf4(cfg, sys, events[0], events[1], Finish(0), Finish(0));
    } else {
      assert events + [Finish(0)] == [events[0], Finish(0)];
      RunOf2(cfg, sys, events[0], Finish(0));
    }
  }

  lemma LocalInFlight(cfg: Config, sys: System, job: JobId, payload: Payload, transports: Transports)
    requires sys.flights == map[0 := Flight(job, payload, InCall)] && job < |sys.store.rows|
    requires payload.provider == Ollama || transports.openai.None?
    ensures Run(cfg, sys, MiddleEvents(payload.provider, transports) + [Finish(0)]).store ==
      FinishTx(sys.store, job, CallResult(cfg, sys.store, job, payload, transports).1).0
  {
    var events := MiddleEvents(payload.provider, transports);
    assert events + [Finish(0)] == [events[0], Finish(0)];
    RunOf2(cfg, sys, events[0], Finish(0));
  }

  lemma ExternalInFlight(cfg: Config, sys: System, job: JobId, payload: Payload, data: Json)
    requires sys.flights == map[0 := Flight(job, payload, InCall)] && job < |sys.store.rows|
    requires payload.provider == OpenAi
    ensures var replied := Exec(cfg, sys, Reply(0, data));
      && replied == sys.(flights := map[0 := Flight(job, payload, Replied(data))], heard := replied.heard)
      && Exec(cfg, Exec(cfg, replied, Record(0)), Finish(0)).store ==
           match RecordTx(sys.store, job, payload, data)
           case Ok(store) => FinishTx(store, job, OutcomeOf(cfg, Flight(job, payload, Recorded(data)))).0
           case Err(_) => FinishTx(sys.store, job, OutcomeUnknown).0
  {
    var replied := Exec(cfg, sys, Reply(0, data));
    var recorded := Exec(cfg, replied, Record(0));
    assert recorded.flights[0] ==
      Flight(job, payload, if RecordTx(sys.store, job, payload, data).Ok? then Recorded(data) else Failed);
  }

  lemma OneInFlight(cfg: Config, sys: System, job: JobId, payload: Payload, transports: Transports)
    requires sys.flights == map[0 := Flight(job, payload, InCall)] && job < |sys.store.rows|
    ensures var (called, outcome) := CallResult(cfg, sys.store, job, payload, transports);
      && job < |called.rows|
      && Run(cfg, sys, MiddleEvents(payload.provider, transports) + [Finish(0)]).store == FinishTx(called, job, outcome).0
  {
    if payload.provider == OpenAi && transports.openai.Some? {
      var data := transports.openai.value;
      assert MiddleEvents(OpenAi, transports) + [Finish(0)] == [Reply(0, data), Record(0), Finish(0)];
      RunOf4(cfg, sys, Reply(0, data), Record(0), Finish(0), Finish(0));
      ExternalInFlight(cfg, sys, job, payload, data);
    } else {
      LocalInFlight(cfg, sys, job, payload, transports);
    }
  }

  lemma {:induction false} RunFrom(cfg: Config, sys: System, first: Event, rest: seq<Event>)
    ensures Run(cfg, sys, [first] + rest) == Run(cfg, Exec(cfg, sys, first), rest)
  {
    var events := [first] + rest;
    if rest == [] {
      assert events[..0] == [];
      assert events == [first];
    } else {
      RunFrom(cfg, sys, first, rest[..|rest| - 1]);
      assert events[..|events| - 1] == [first] + rest[..|rest| - 1];
    }
  }

  /** The events of an uninterrupted call, composed. */
  lemma CallComposed(cfg: Config, s: Store, claim: Claim, env: Env, transports: Transports)
    ensures var (begun, result) := BeginTx(cfg, s, claim, env);
      result.Authorised? ==>
        var (called, outcome) := CallResult(cfg, begun, claim.job, result.payload, transports);
        claim.job < |called.rows|
    ensures var (begun, result) := BeginTx(cfg, s, claim, env);
      Run(cfg, System(s, map[], [], []), CallEvents(claim, env, ProviderOf(s, claim.job), transports)).store ==
        if result.Authorised? then
          var (called, outcome) := CallResult(cfg, begun, claim.job, result.payload, transports);
          FinishTx(called, claim.job, outcome).0
        else begun
  {
    var sys, provider := System(s, map[], [], []), ProviderOf(s, claim.job);
    var (store, result) := BeginTx(cfg, s, claim, env);
    var begun := BeginStep(cfg, sys, 0, claim, env);
    assert begun == Exec(cfg, sys, Begin(0, claim, env));
    RunFrom(cfg, sys, Begin(0, claim, env), MiddleEvents(provider, transports) + [Finish(0)]);
    if result.Authorised? {
      OneInFlight(cfg, begun, claim.job, result.payload, transports);
    } else {
      NothingInFlight(cfg, begun, provider, transports);
    }
  }

  /** What `execute` returns: stored evidence, a refusal, or what the ledger was told. */
  ghost function Reported(cfg: Config, s: Store, claim: Claim, env: Env, transports: Transports): ExecuteResult {
    var (begun, result) := BeginTx(cfg, s, claim, env);
    match result
    case Refused(why) => Raised(why)
    case Cached(outcome) => Done(outcome)
    case Authorised(payload) =>
      var (called, outcome) := CallResult(cfg, begun, claim.job, payload, transports);
      if claim.job < |called.rows| then Done(FinishTx(called, claim.job, outcome).1) else Done(outcome)
  }

  /**
   What `execute` returns is what the ledger says afterwards: the row's stored result, or that its outcome is unknown,
   or, for a local call that came to nothing, that it may be tried again. A refusal leaves the ledger as it was.
  */
  lemma ReportIsStored(cfg: Config, s: Store, claim: Claim, env: Env, transports: Transports)
    ensures var reported := Reported(cfg, s, claim, env, transports);
      var after := Run(cfg, System(s, map[], [], []), CallEvents(claim, env, ProviderOf(s, claim.job), transports)).store;
      && (reported.Raised? ==> after == s)
      && (reported.Done? ==>
            && claim.job < |after.rows|
            && var row := after.rows[claim.job];
               || row.result == Some(reported.outcome)
               || (reported.outcome == OutcomeUnknown && row.phase == Unknown && External(row))
               || (reported.outcome == LocalUnavailable && row.phase == Approved && row.result.None? && !External(row))
               || (row.phase == Reconciled && row.result.None?))
  {
    CallComposed(cfg, s, claim, env, transports);
  }

  class Executor {
    const cfg: Config
    var jobs: map<JobId, Job>
    var rows: seq<Row>
    var receipts: map<JobId, Usage>

    constructor (cfg: Config)
      ensures this.cfg == cfg && Snapshot() == INITIAL.store
    {
      this.cfg, jobs, rows, receipts := cfg, map[], [], map[];
    }

    function Snapshot(): Store
      reads this
    {
      Store(jobs, rows, receipts)
    }

    method Enqueue(details: Details) returns (job: Option<JobId>)
      modifies this
      ensures job.Some? <==> Prepare(details).Some?
      ensures Snapshot() == (if job.Some? then EnqueueTx(old(Snapshot()), Prepare(details).value) else old(Snapshot()))
      ensures job.Some? ==> job.value == |old(rows)|
    {
      var prepared := Prepare(details);
      if prepared.None? {
        return None;
      }
      job := Some(|rows|);
      jobs := jobs[|rows| := Job(false, 0, 0, 0)];
      rows := rows + [Row(prepared.value, Approved, 0, 0, None, None)];
    }

    method BeginCall(claim: Claim, env: Env) returns (r: BeginResult)
      modifies this
      ensures (Snapshot(), r) == BeginTx(cfg, old(Snapshot()), claim, env)
    {
      if !LeaseHeld(Snapshot(), claim, env.now) {
        return Refused(LeaseLost);
      }
      if claim.job >= |rows| {
        return Refused(MissingRequest);
      }
      var row := rows[claim.job];
      // A stored outcome answers a repeat, whatever the configuration is by now.
      if row.result.Some? {
        return Cached(row.result.value);
      }
      if row.phase in {Sending, Unknown} && External(row) {
        rows := rows[claim.job := row.(phase := Unknown)];
        return Cached(OutcomeUnknown);
      }
      if !ConfigValid(cfg, row, env) {
        return Refused(ConfigInvalid);
      }
      if !env.taskEligible {
        return Refused(TaskIneligible);
      }
      if !env.routeCurrent || (External(row) && !WithinContract(row.req.payload)) {
        return Refused(ContractChanged);
      }
      var hold := Hold(row.req.payload);
      if hold > row.req.maxCost {
        return Refused(CapExceeded);
      }
      if External(row) {
        if AnyUnknown(rows) {
          return Refused(ReconciliationRequired);
        }
        if !BudgetAllows(cfg, rows, hold, env.now) {
          return Refused(BudgetExhausted);
        }
      } else {
        jobs := jobs[claim.job := jobs[claim.job].(until := env.now + env.localWindow)];
      }
      rows := rows[claim.job := row.(phase := Sending, held := hold, sentAt := Some(env.now))];
      r := Authorised(row.req.payload);
    }

    method RecordUsage(job: JobId, payload: Payload, data: Json) returns (error: Option<ReceiptError>)
      modifies this
      ensures match RecordTx(old(Snapshot()), job, payload, data)
              case Ok(s) => error.None? && Snapshot() == s
              case Err(e) => error == Some(e) && Snapshot() == old(Snapshot())
    {
      var usage := ParseUsage(data, payload);
      if usage.Err? {
        return Some(UsageRejected);
      }
      if job >= |rows| || rows[job].sentAt.None? || rows[job].req.payload != payload {
        return Some(NoAuthorizedSend);
      }
      if job in receipts {
        return if receipts[job] == usage.value then None else Some(ConflictingUsage);
      }
      receipts := receipts[job := usage.value];
      error := None;
    }

    method FinishCall(job: JobId, outcome: Outcome) returns (reported: Outcome)
      requires job < |rows|
      modifies this
      ensures (Snapshot(), reported) == FinishTx(old(Snapshot()), job, outcome)
    {
      var row := rows[job];
      reported := outcome;
      if row.phase == Reconciled {
        // Recovery was faster: its result stands.
        if row.result.Some? { reported := row.result.value; }
      } else if outcome.Answered? {
        rows := rows[job := row.(phase := Settled, held := 0, charged := outcome.accounted, result := Some(outcome))];
      } else if !External(row) {
        rows := rows[job := row.(phase := Approved, held := 0, result := None)];
      } else {
        rows := rows[job := row.(phase := Unknown, result := Some(outcome))];
      }
    }

    method ReconcileCost(job: JobId, reviewed: Usage) returns (error: Option<ReceiptError>)
      modifies this
      ensures match ReconcileTx(old(Snapshot()), job, reviewed)
              case Ok(s) => error.None? && Snapshot() == s
              case Err(e) => error == Some(e) && Snapshot() == old(Snapshot())
    {
      var proposal := Proposal(Snapshot(), job);
      if proposal.Err? {
        return Some(proposal.error);
      }
      if reviewed != proposal.value {
        return Some(ReceiptChanged);
      }
      var row := rows[job];
      if row.phase != Reconciled {
        rows := rows[job := row.(phase := Reconciled, held := 0, charged := reviewed.accounted,
                                 result := Some(CostOnly(reviewed.accounted)))];
      }
      error := None;
    }

    /** `execute` without interference is exactly one path of the interleaving model. */
    method Execute(claim: Claim, env: Env, transports: Transports) returns (r: ExecuteResult)
      modifies this
      ensures var sys := System(old(Snapshot()), map[], [], []);
        Snapshot() == Run(cfg, sys, CallEvents(claim, env, ProviderOf(sys.store, claim.job), transports)).store
      ensures r == Reported(cfg, old(Snapshot()), claim, env, transports)
    {
      ghost var sys := System(Snapshot(), map[], [], []);
      CallComposed(cfg, sys.store, claim, env, transports);
      var begun := BeginCall(claim, env);
      match begun {
        case Refused(why) =>
          r := Raised(why);
        case Cached(outcome) =>
          r := Done(outcome);
        case Authorised(payload) =>
          var outcome := if payload.provider == Ollama then LocalUnavailable else OutcomeUnknown;
          if payload.provider == Ollama {
            if transports.ollama.Some? && cfg.clean(transports.ollama.value.1) {
              outcome := Answered(transports.ollama.value.0, transports.ollama.value.1, 0);
            }
          } else if transports.openai.Some? {
            // From here on the receipt proves the cost, whatever becomes of the answer.
            var refused := RecordUsage(claim.job, payload, transports.openai.value);
            if refused.None? {
              var answer := ParseResponse(transports.openai.value, payload, cfg.redact);
              if answer.Ok? && cfg.clean(answer.value.text) {
                outcome := Answered(answer.value.complete, answer.value.text, answer.value.usage.accounted);
              }
            }
          }
          var reported := FinishCall(claim.job, outcome);
          r := Done(reported);
      }
    }
  }
}
