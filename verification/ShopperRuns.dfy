/**
 Starting and finishing searches (shopper_service.py, `start` and the end of `execute`). A run's id is its position
 in the table. One clock reading serves a whole start; between calls the clock may be set to anything.
*/
module ShopperRuns {
  import opened Wrappers

  const WEEK := 604_800
  const RETRY := 3600
  const STALE := 300
  const SPACING := 60

  type Watch = string
  type RunId = nat

  datatype Status = Running | Interrupted | Finished(outcome: string)

  datatype Run = Run(watch: Watch, startedAt: int, status: Status)

  datatype Schedule = Schedule(enabled: bool, nextRun: int)

  datatype Tables = Tables(watches: map<Watch, Schedule>, runs: seq<Run>)

  datatype Error = MissingOrDisabled | TooSoon

  datatype Started = NotDue | StillRunning(run: RunId) | New(run: RunId)

  datatype Step =
    | Create(watch: Watch, now: int)
    | Enable(watch: Watch, enabled: bool)
    | Start(watch: Watch, now: int, dueOnly: bool)
    | Finish(run: RunId, outcome: string, now: int)

  const INITIAL := Tables(map[], [])

  predicate Active(run: Run, watch: Watch) {
    run.watch == watch && run.status == Running
  }

  /** The running run of a watch that started last. */
  function LatestActive(runs: seq<Run>, watch: Watch): (found: Option<RunId>)
    ensures found.Some? ==> found.value < |runs| && Active(runs[found.value], watch)
    ensures found.None? ==> forall run <- runs :: !Active(run, watch)
  {
    if runs == [] then None
    else
      var earlier, last := LatestActive(runs[..|runs| - 1], watch), runs[|runs| - 1];
      if Active(last, watch) && (earlier.None? || last.startedAt >= runs[earlier.value].startedAt)
      then Some(|runs| - 1) else earlier
  }

  /** `MAX(started_at)` of a watch. */
  function LatestStart(runs: seq<Run>, watch: Watch): (latest: Option<int>)
    ensures latest.None? ==> forall run <- runs :: run.watch != watch
    ensures latest.Some? ==> forall run <- runs | run.watch == watch :: run.startedAt <= latest.value
    ensures latest.Some? ==> exists run <- runs :: run.watch == watch && run.startedAt == latest.value
  {
    if runs == [] then None
    else
      var earlier, last := LatestStart(runs[..|runs| - 1], watch), runs[|runs| - 1];
      if last.watch == watch && (earlier.None? || last.startedAt > earlier.value) then Some(last.startedAt) else earlier
  }

  /** An earlier start that counts against a new one; a start at the epoch itself reads as no start. */
  predicate Recent(latest: Option<int>, now: int) {
    latest.Some? && latest.value != 0 && now - latest.value < SPACING
  }

  function WithoutActive(runs: seq<Run>, active: Option<RunId>): seq<Run>
    requires active.Some? ==> active.value < |runs|
  {
    if active.Some? then runs[active.value := runs[active.value].(status := Interrupted)] else runs
  }

  /** The starting transaction; an error rolls back, so an old run is only interrupted when a new one starts. */
  function StartTx(t: Tables, watch: Watch, now: int, dueOnly: bool): Result<(Tables, Started), Error> {
    if watch !in t.watches || !t.watches[watch].enabled then Err(MissingOrDisabled)
    else if dueOnly && t.watches[watch].nextRun > now then Ok((t, NotDue))
    else
      var active := LatestActive(t.runs, watch);
      if active.Some? && now - t.runs[active.value].startedAt < STALE then Ok((t, StillRunning(active.value)))
      else if Recent(LatestStart(t.runs, watch), now) then Err(TooSoon)
      else
        Ok((Tables(t.watches[watch := t.watches[watch].(nextRun := now + WEEK)],
                   WithoutActive(t.runs, active) + [Run(watch, now, Running)]),
            New(|t.runs|)))
  }

  /** The end of `execute`; a run without any working source is retried in an hour. */
  function FinishTx(t: Tables, k: RunId, outcome: string, now: int): Tables {
    if k >= |t.runs| then t
    else
      var watch := t.runs[k].watch;
      Tables(
        if watch in t.watches && outcome !in {"complete", "partial"}
        then t.watches[watch := t.watches[watch].(nextRun := now + RETRY)] else t.watches,
        t.runs[k := t.runs[k].(status := Finished(outcome))])
  }

  function Exec(t: Tables, step: Step): Tables {
    match step
    case Create(watch, now) => if watch in t.watches then t else t.(watches := t.watches[watch := Schedule(true, now)])
    case Enable(watch, enabled) =>
      if watch in t.watches then t.(watches := t.watches[watch := t.watches[watch].(enabled := enabled)]) else t
    case Start(watch, now, dueOnly) => (
      match StartTx(t, watch, now, dueOnly)
      case Ok((next, _)) => next
      case Err(_) => t)
    case Finish(k, outcome, now) => FinishTx(t, k, outcome, now)
  }

  function RunSteps(start: Tables, steps: seq<Step>): Tables {
    if steps == [] then start else Exec(RunSteps(start, steps[..|steps| - 1]), steps[|steps| - 1])
  }

  ghost predicate Reachable(t: Tables) {
    exists steps :: t == RunSteps(INITIAL, steps)
  }

  // ----- the invariant -----

  /** No two running runs of one watch. */
  ghost predicate OneActive(runs: seq<Run>) {
    forall i, j | 0 <= i < j < |runs| && Active(runs[j], runs[i].watch) :: runs[i].status != Running
  }

  /** A later run of the same watch started at least a minute after an earlier one. */
  ghost predicate Spaced(runs: seq<Run>) {
    forall i, j | 0 <= i < j < |runs| && runs[i].watch == runs[j].watch && runs[i].startedAt > 0 ::
      runs[i].startedAt + SPACING <= runs[j].startedAt
  }

  ghost predicate Inv(t: Tables) {
    OneActive(t.runs) && Spaced(t.runs)
  }

  lemma AloneActive(runs: seq<Run>, watch: Watch, k: nat)
    requires OneActive(runs) && k < |runs| && Active(runs[k], watch)
    ensures LatestActive(runs, watch) == Some(k)
  {
    assert runs[k] in runs;
  }

  /** What a new run finds and leaves of an earlier run of its watch. */
  lemma StartSupersedes(t: Tables, watch: Watch, now: int, dueOnly: bool, k: nat)
    requires Inv(t) && StartTx(t, watch, now, dueOnly).Ok? && StartTx(t, watch, now, dueOnly).value.1.New?
    requires k < |t.runs| && t.runs[k].watch == watch
    ensures t.runs[k].startedAt > 0 ==> t.runs[k].startedAt + SPACING <= now
    ensures var next := StartTx(t, watch, now, dueOnly).value.0;
      k < |next.runs| && next.runs[k].status != Running
  {
    assert t.runs[k] in t.runs;
    if Active(t.runs[k], watch) {
      AloneActive(t.runs, watch, k);
    }
  }

  lemma StartKeeps(t: Tables, watch: Watch, now: int, dueOnly: bool)
    requires Inv(t) && StartTx(t, watch, now, dueOnly).Ok?
    ensures Inv(StartTx(t, watch, now, dueOnly).value.0)
  {
    var (next, started) := StartTx(t, watch, now, dueOnly).value;
    if started.New? {
      forall k | 0 <= k < |t.runs| && t.runs[k].watch == watch
        ensures next.runs[k].status != Running && (t.runs[k].startedAt > 0 ==> t.runs[k].startedAt + SPACING <= now)
      {
        StartSupersedes(t, watch, now, dueOnly, k);
      }
      NewRunKeeps(t.runs, WithoutActive(t.runs, LatestActive(t.runs, watch)), Run(watch, now, Running));
    }
  }

  /** Adding a run keeps both properties if the earlier ones of its watch have stopped and are a minute old. */
  lemma NewRunKeeps(before: seq<Run>, runs: seq<Run>, run: Run)
    requires OneActive(before) && Spaced(before) && |runs| == |before|
    requires forall k | 0 <= k < |runs| ::
      && runs[k].watch == before[k].watch && runs[k].startedAt == before[k].startedAt
      && (runs[k].status == Running ==> before[k].status == Running)
    requires forall k | 0 <= k < |runs| && runs[k].watch == run.watch ::
      runs[k].status != Running && (runs[k].startedAt > 0 ==> runs[k].startedAt + SPACING <= run.startedAt)
    ensures OneActive(runs + [run]) && Spaced(runs + [run])
  {
    forall i, j | 0 <= i < j < |runs + [run]| && Active((runs + [run])[j], (runs + [run])[i].watch)
      ensures (runs + [run])[i].status != Running
    {
      if j < |runs| && Active(before[j], before[i].watch) {
        assert before[i].status != Running;
      }
    }
  }

  lemma ExecKeeps(t: Tables, step: Step)
    requires Inv(t)
    ensures Inv(Exec(t, step))
  {
    if step.Start? && StartTx(t, step.watch, step.now, step.dueOnly).Ok? {
      StartKeeps(t, step.watch, step.now, step.dueOnly);
    }
  }

  lemma {:induction false} RunKeeps(start: Tables, steps: seq<Step>)
    requires Inv(start)
    ensures Inv(RunSteps(start, steps))
  {
    if steps != [] {
      RunKeeps(start, steps[..|steps| - 1]);
      ExecKeeps(RunSteps(start, steps[..|steps| - 1]), steps[|steps| - 1]);
    }
  }

  // ----- the claims -----

  /** In every reachable state a watch has at most one running run, and its starts are a minute apart. */
  lemma OneRunAtATime(t: Tables)
    requires Reachable(t)
    ensures forall i, j | 0 <= i < j < |t.runs| && t.runs[i].watch == t.runs[j].watch ::
      && !(t.runs[i].status == t.runs[j].status == Running)
      && (t.runs[i].startedAt > 0 ==> t.runs[j].startedAt - t.runs[i].startedAt >= SPACING)
  {
    var steps :| t == RunSteps(INITIAL, steps);
    RunKeeps(INITIAL, steps);
    forall i, j | 0 <= i < j < |t.runs| && t.runs[i].watch == t.runs[j].watch
      ensures !(t.runs[i].status == t.runs[j].status == Running)
    {
      assert Active(t.runs[j], t.runs[i].watch) ==> t.runs[i].status != Running;
    }
  }

  /** A run of the watch that has been running for under five minutes, and of those the last to start. */
  ghost predicate StillBusy(t: Tables, watch: Watch, now: int, k: nat) {
    && k < |t.runs| && t.runs[k].watch == watch && t.runs[k].status == Running && now - t.runs[k].startedAt < 300
  }

  /** Some start of the watch is less than a minute old, and it is the latest. */
  ghost predicate JustStarted(t: Tables, watch: Watch, now: int) {
    exists run <- t.runs :: run.watch == watch && run.startedAt != 0 && now - run.startedAt < 60
      && forall other <- t.runs | other.watch == watch :: other.startedAt <= run.startedAt
  }

  /**
   Exactly what a start comes to in any reachable state. A new run is the last row, running since now, any earlier one
   of the watch is interrupted, and the next search is due in a week; every other answer leaves the tables alone.
  */
  lemma StartExactly(t: Tables, watch: Watch, now: int, dueOnly: bool)
    requires Reachable(t)
    ensures watch in t.watches ==> StartIs(t, watch, now, dueOnly, StartTx(t, watch, now, dueOnly))
    ensures watch !in t.watches ==> StartTx(t, watch, now, dueOnly) == Err(MissingOrDisabled)
  {
    var steps :| t == RunSteps(INITIAL, steps);
    RunKeeps(INITIAL, steps);
    BusyExactly(t, watch, now);
    RecentExactly(t, watch, now);
    if watch in t.watches {
      NewRunExactly(t, watch, now);
    }
  }

  ghost predicate StartIs(
    t: Tables, watch: Watch, now: int, dueOnly: bool, r: Result<(Tables, Started), Error>)
    requires watch in t.watches
  {
    var schedule := t.watches[watch];
    var due := schedule.enabled && (dueOnly ==> schedule.nextRun <= now);
    var busy := exists k :: StillBusy(t, watch, now, k);
    match r
    case Err(MissingOrDisabled) => !schedule.enabled
    case Err(TooSoon) => due && !busy && JustStarted(t, watch, now)
    case Ok((next, NotDue)) => schedule.enabled && !due && next == t
    case Ok((next, StillRunning(k))) => due && StillBusy(t, watch, now, k) && next == t
    case Ok((next, New(run))) =>
      due && !busy && !JustStarted(t, watch, now) && run == |t.runs| && StartedNew(t, next, watch, now)
  }

  lemma BusyExactly(t: Tables, watch: Watch, now: int)
    requires OneActive(t.runs)
    ensures var active := LatestActive(t.runs, watch);
      forall k: nat :: StillBusy(t, watch, now, k) <==> active == Some(k) && now - t.runs[k].startedAt < 300
  {
    forall k: nat | k < |t.runs| && Active(t.runs[k], watch) ensures LatestActive(t.runs, watch) == Some(k) {
      AloneActive(t.runs, watch, k);
    }
  }

  lemma RecentExactly(t: Tables, watch: Watch, now: int)
    ensures Recent(LatestStart(t.runs, watch), now) <==> JustStarted(t, watch, now)
  {
    var latest := LatestStart(t.runs, watch);
    if latest.Some? {
      var run :| run in t.runs && run.watch == watch && run.startedAt == latest.value;
      assert Recent(latest, now) ==> JustStarted(t, watch, now);
    }
  }

  lemma NewRunExactly(t: Tables, watch: Watch, now: int)
    requires OneActive(t.runs) && watch in t.watches
    ensures StartedNew(t, Tables(t.watches[watch := t.watches[watch].(nextRun := now + WEEK)],
      WithoutActive(t.runs, LatestActive(t.runs, watch)) + [Run(watch, now, Running)]), watch, now)
  {
    forall k: nat | k < |t.runs| && Active(t.runs[k], watch) ensures LatestActive(t.runs, watch) == Some(k) {
      AloneActive(t.runs, watch, k);
    }
  }

  ghost predicate StartedNew(before: Tables, after: Tables, watch: Watch, now: int)
    requires watch in before.watches
  {
    && after.watches == before.watches[watch := before.watches[watch].(nextRun := now + 604_800)]
    && |after.runs| == |before.runs| + 1 && after.runs[|before.runs|] == Run(watch, now, Running)
    && forall k | 0 <= k < |before.runs| ::
         after.runs[k] == if Active(before.runs[k], watch) then before.runs[k].(status := Interrupted) else before.runs[k]
  }

  /** The end of a run: its outcome is recorded, and unless some source worked its watch is due again in an hour. */
  lemma FinishExactly(t: Tables, k: RunId, outcome: string, now: int)
    requires k < |t.runs|
    ensures var next, watch := FinishTx(t, k, outcome, now), t.runs[k].watch;
      && |next.runs| == |t.runs| && next.runs[k] == t.runs[k].(status := Finished(outcome))
      && (forall j | 0 <= j < |t.runs| && j != k :: next.runs[j] == t.runs[j])
      && next.watches.Keys == t.watches.Keys
      && forall w <- t.watches :: next.watches[w] ==
           if w == watch && outcome != "complete" && outcome != "partial"
           then t.watches[w].(nextRun := now + 3600) else t.watches[w]
  {
  }

  /** A new run starts exactly when no run of the watch has been running for under five minutes or started within a minute. */
  lemma StartsWhenFree(t: Tables, watch: Watch, now: int, dueOnly: bool)
    requires Reachable(t) && watch in t.watches && t.watches[watch].enabled && (dueOnly ==> t.watches[watch].nextRun <= now)
    requires forall run <- t.runs :: run.startedAt > 0
    ensures (exists next :: StartTx(t, watch, now, dueOnly) == Ok((next, New(|t.runs|)))) <==>
      forall run <- t.runs | run.watch == watch ::
        now - run.startedAt >= if run.status == Running then STALE else SPACING
  {
    var steps :| t == RunSteps(INITIAL, steps);
    RunKeeps(INITIAL, steps);
    var active, latest := LatestActive(t.runs, watch), LatestStart(t.runs, watch);
    if active.Some? {
      assert t.runs[active.value] in t.runs;
    }
    forall run <- t.runs | run.watch == watch && run.status == Running ensures active.Some? && run == t.runs[active.value] {
      var k :| 0 <= k < |t.runs| && t.runs[k] == run;
      AloneActive(t.runs, watch, k);
    }
    if StartTx(t, watch, now, dueOnly).Ok? && StartTx(t, watch, now, dueOnly).value.1.New? {
      assert StartTx(t, watch, now, dueOnly) == Ok((StartTx(t, watch, now, dueOnly).value.0, New(|t.runs|)));
    }
  }
}
