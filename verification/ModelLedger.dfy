/**
 The durable ledger of approved model calls (model_work.py) and their usage receipts
 (model_receipts.py). Each function ending in `Tx` is one committed SQLite transaction.
 A job id is the position of the job's row: rows are only ever appended.
*/
module ModelLedger {
  import opened Wrappers
  import opened Json
  import opened OpenAiText

  const SECONDS_PER_DAY := 86400
  const MAX_CALL_CAP := 1_000_000

  type JobId = nat

  datatype Request = Request(payload: Payload, maxCost: nat)

  datatype Phase = Approved | Sending | Settled | Unknown | Reconciled

  /** The stored result of a job, as later readers see it. */
  datatype Outcome =
    | Answered(complete: bool, text: Utf8, accounted: nat)
    | LocalUnavailable
    | OutcomeUnknown
    | CostOnly(accounted: nat)

  datatype Row = Row(req: Request, phase: Phase, held: nat, charged: nat, sentAt: Option<int>, result: Option<Outcome>)

  /** The queue's record of who may work on a job. */
  datatype Job = Job(running: bool, token: nat, until: int, step: nat)

  datatype Claim = Claim(job: JobId, token: nat, step: nat)

  datatype Store = Store(jobs: map<JobId, Job>, rows: seq<Row>, receipts: map<JobId, Usage>)

  /** `redact` masks secrets in an answer; `clean` is the scan that rejects an answer still holding one. */
  datatype Config = Config(enabled: bool, keyed: bool, daily: nat, total: nat, redact: Utf8 -> Utf8, clean: Utf8 -> bool)

  /** What one transaction reads besides the database. */
  datatype Env = Env(now: int, taskEligible: bool, routeCurrent: bool, tariffCurrent: bool, localReady: bool, localWindow: nat)

  datatype Refusal =
    | LeaseLost | MissingRequest | ConfigInvalid | TaskIneligible | ContractChanged | CapExceeded
    | ReconciliationRequired | BudgetExhausted

  datatype BeginResult = Authorised(payload: Payload) | Cached(outcome: Outcome) | Refused(why: Refusal)

  datatype ReceiptError =
    | UsageRejected | NoAuthorizedSend | ConflictingUsage
    | NothingToRecover | AccountingMismatch | ExceedsReservation | ReceiptChanged

  predicate External(row: Row) {
    row.req.payload.provider == OpenAi
  }

  function Hold(payload: Payload): nat {
    if payload.provider == Ollama then 0 else Reservation(payload)
  }

  // ----- budget sums -----

  function DayOf(t: int): int {
    t / SECONDS_PER_DAY
  }

  /** Which rows, and which of their amounts, a sum ranges over. */
  datatype Scope = WholeLedger | SentOn(day: int) | BudgetDay(dayStart: int)

  function Part(row: Row, scope: Scope): nat {
    match scope
    case WholeLedger => row.held + row.charged
    case SentOn(day) => if row.sentAt.Some? && DayOf(row.sentAt.value) == day then row.held + row.charged else 0
    case BudgetDay(dayStart) =>
      row.held + if row.sentAt.Some? && row.sentAt.value >= dayStart then row.charged else 0
  }

  /** `SUM(...)` over the ledger. */
  function Exposure(rows: seq<Row>, scope: Scope): nat {
    if rows == [] then 0 else Exposure(rows[..|rows| - 1], scope) + Part(rows[|rows| - 1], scope)
  }

  // ----- approval (prepare, insert) -----

  datatype Details = Details(payload: Payload, textAccepted: bool, maxCost: int, approved: bool)

  /** `prepare`: an approval is stored only if its cap covers the hold that sending will take. */
  function Prepare(details: Details): (r: Option<Request>)
    ensures r.Some? ==> 1 <= r.value.maxCost <= MAX_CALL_CAP && Hold(r.value.payload) <= r.value.maxCost
    ensures r.Some? && r.value.payload.provider == OpenAi ==> WithinContract(r.value.payload)
  {
    if !details.approved || !details.textAccepted then None
    else if details.payload.provider == OpenAi && !WithinContract(details.payload) then None
    else if !(1 <= details.maxCost <= MAX_CALL_CAP) || Hold(details.payload) > details.maxCost then None
    else Some(Request(details.payload, details.maxCost))
  }

  function EnqueueTx(s: Store, req: Request): Store {
    s.(jobs := s.jobs[|s.rows| := Job(false, 0, 0, 0)],
       rows := s.rows + [Row(req, Approved, 0, 0, None, None)])
  }

  // ----- begin -----

  predicate LeaseHeld(s: Store, claim: Claim, now: int) {
    && claim.job in s.jobs
    && var job := s.jobs[claim.job];
       job.running && job.token == claim.token && job.until > now && job.step == claim.step
  }

  predicate ConfigValid(cfg: Config, row: Row, env: Env) {
    if External(row) then cfg.enabled && cfg.keyed && cfg.daily >= 1 && cfg.total >= 1 && env.tariffCurrent
    else env.localReady
  }

  predicate AnyUnknown(rows: seq<Row>) {
    exists row <- rows :: row.phase == Unknown
  }

  predicate BudgetAllows(cfg: Config, rows: seq<Row>, hold: nat, now: int) {
    && Exposure(rows, WholeLedger) + hold <= cfg.total
    && Exposure(rows, BudgetDay(DayOf(now) * SECONDS_PER_DAY)) + hold <= cfg.daily
  }

  function BeginTx(cfg: Config, s: Store, claim: Claim, env: Env): (Store, BeginResult) {
    if !LeaseHeld(s, claim, env.now) then (s, Refused(LeaseLost))
    else if claim.job >= |s.rows| then (s, Refused(MissingRequest))
    else
      var row := s.rows[claim.job];
      if row.result.Some? then (s, Cached(row.result.value))
      else if row.phase in {Sending, Unknown} && External(row) then
        (s.(rows := s.rows[claim.job := row.(phase := Unknown)]), Cached(OutcomeUnknown))
      else
        var hold := Hold(row.req.payload);
        if !ConfigValid(cfg, row, env) then (s, Refused(ConfigInvalid))
        else if !env.taskEligible then (s, Refused(TaskIneligible))
        else if !env.routeCurrent || (External(row) && !WithinContract(row.req.payload)) then (s, Refused(ContractChanged))
        else if hold > row.req.maxCost then (s, Refused(CapExceeded))
        else if External(row) && AnyUnknown(s.rows) then (s, Refused(ReconciliationRequired))
        else if External(row) && !BudgetAllows(cfg, s.rows, hold, env.now) then (s, Refused(BudgetExhausted))
        else
          var job := s.jobs[claim.job];
          (s.(jobs := if External(row) then s.jobs else s.jobs[claim.job := job.(until := env.now + env.localWindow)],
              rows := s.rows[claim.job := row.(phase := Sending, held := hold, sentAt := Some(env.now))]),
           Authorised(row.req.payload))
  }

  // ----- usage receipt -----

  function RecordTx(s: Store, job: JobId, payload: Payload, data: Json): Result<Store, ReceiptError> {
    match ParseUsage(data, payload)
    case Err(_) => Err(UsageRejected)
    case Ok(usage) =>
      if job >= |s.rows| || s.rows[job].sentAt.None? || s.rows[job].req.payload != payload then Err(NoAuthorizedSend)
      else if job in s.receipts then (if s.receipts[job] == usage then Ok(s) else Err(ConflictingUsage))
      else Ok(s.(receipts := s.receipts[job := usage]))
  }

  // ----- finish -----

  /** The last transaction of `execute`: record what the call came to, unless recovery was faster. */
  function FinishTx(s: Store, job: JobId, outcome: Outcome): (Store, Outcome)
    requires job < |s.rows|
  {
    var row := s.rows[job];
    if row.phase == Reconciled then (s, if row.result.Some? then row.result.value else outcome)
    else
      var row' :=
        if outcome.Answered? then row.(phase := Settled, held := 0, charged := outcome.accounted, result := Some(outcome))
        else if !External(row) then row.(phase := Approved, held := 0, result := None)
        else row.(phase := Unknown, result := Some(outcome));
      (s.(rows := s.rows[job := row']), outcome)
  }

  // ----- cost-only recovery -----

  /** `_proposal`: the usage the owner may approve for a call whose outcome is unknown. */
  function Proposal(s: Store, job: JobId): (r: Result<Usage, ReceiptError>)
    ensures r.Ok? ==> job < |s.rows| && job in s.receipts && r.value == s.receipts[job]
  {
    if job >= |s.rows| || s.rows[job].phase !in {Unknown, Reconciled} || job !in s.receipts then Err(NothingToRecover)
    else
      var row, observed := s.rows[job], s.receipts[job];
      match ParseUsage(ReceiptData(observed), row.req.payload)
      case Err(_) => Err(UsageRejected)
      case Ok(usage) =>
        if usage != observed then Err(AccountingMismatch)
        else if row.phase == Unknown && usage.accounted > row.held then Err(ExceedsReservation)
        else Ok(usage)
  }

  function ReconcileTx(s: Store, job: JobId, reviewed: Usage): Result<Store, ReceiptError> {
    match Proposal(s, job)
    case Err(e) => Err(e)
    case Ok(usage) =>
      if reviewed != usage then Err(ReceiptChanged)
      else if s.rows[job].phase == Reconciled then Ok(s)
      else
        var row := s.rows[job];
        Ok(s.(rows := s.rows[job := row.(phase := Reconciled, held := 0, charged := usage.accounted,
                                         result := Some(CostOnly(usage.accounted)))]))
  }

  // ----- view -----

  /** `provider_calls_made` of a job: None while the outcome is open. */
  function CallsMade(row: Row): Option<bool> {
    if row.phase in {Sending, Unknown} then None else Some(row.sentAt.Some?)
  }

  // ----- sums under a row update -----

  lemma {:induction false} ExposureUpdate(rows: seq<Row>, k: nat, row: Row, scope: Scope)
    requires k < |rows|
    ensures Exposure(rows[k := row], scope) == Exposure(rows, scope) - Part(rows[k], scope) + Part(row, scope)
  {
    var n := |rows| - 1;
    if k == n {
      assert rows[k := row][..n] == rows[..n];
    } else {
      ExposureUpdate(rows[..n], k, row, scope);
      assert rows[k := row][..n] == rows[..n][k := row];
    }
  }

  lemma {:induction false} ExposureMonotone(rows: seq<Row>, a: Scope, b: Scope)
    requires forall row <- rows :: Part(row, a) <= Part(row, b)
    ensures Exposure(rows, a) <= Exposure(rows, b)
  {
    if rows != [] {
      ExposureMonotone(rows[..|rows| - 1], a, b);
    }
  }

  /** Everything sent on a day counts against that day's budget, whenever the day is looked at. */
  lemma SentTodayIsBudgeted(rows: seq<Row>, now: int)
    ensures Exposure(rows, SentOn(DayOf(now))) <= Exposure(rows, BudgetDay(DayOf(now) * SECONDS_PER_DAY))
  {
    ExposureMonotone(rows, SentOn(DayOf(now)), BudgetDay(DayOf(now) * SECONDS_PER_DAY));
  }
}
