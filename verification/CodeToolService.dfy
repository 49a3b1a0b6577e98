/**
 The tool worker as the code runs it: one locked pass over the pending rows, rewriting the tables in
 place. Each method performs steps of the interleaving model, so an uninterrupted pass is a run of it.
*/
module CodeToolService {
  import opened Wrappers
  import opened Json
  import opened OwnerUpdates
  import opened CodeTools

  /** The rows with a status, in insertion order. */
  function WithStatus(order: seq<Id>, requests: map<Id, Request>, status: Status): (ids: seq<Id>)
    ensures forall id <- ids :: id in order && id in requests && requests[id].status == status
  {
    if order == [] then []
    else
      var rest, id := WithStatus(order[..|order| - 1], requests, status), order[|order| - 1];
      if id in requests && requests[id].status == status then rest + [id] else rest
  }

  /** `ORDER BY ... LIMIT 4`: interrupted rows first, then saved results, then new requests. */
  function Batch(order: seq<Id>, requests: map<Id, Request>): seq<Id> {
    var pending := Pending(order, requests);
    if |pending| > BATCH then pending[..BATCH] else pending
  }

  ghost predicate Distinct(ids: seq<Id>) {
    forall i, j | 0 <= i < j < |ids| :: ids[i] != ids[j]
  }

  lemma {:induction false} WithStatusDistinct(order: seq<Id>, requests: map<Id, Request>, status: Status)
    requires Distinct(order)
    ensures Distinct(WithStatus(order, requests, status))
  {
    if order != [] {
      WithStatusDistinct(order[..|order| - 1], requests, status);
      assert order[|order| - 1] !in order[..|order| - 1];
    }
  }

  lemma DistinctConcat(a: seq<Id>, b: seq<Id>)
    requires Distinct(a) && Distinct(b) && forall id <- a :: id !in b
    ensures Distinct(a + b)
  {
    forall i, j | 0 <= i < j < |a + b| ensures (a + b)[i] != (a + b)[j] {
      if i < |a| <= j {
        assert a[i] in a && b[j - |a|] in b;
      }
    }
  }

  // ----- which rows are selected -----

  predicate Open(requests: map<Id, Request>, id: Id) {
    id in requests && requests[id].status in {Running, Ready, Queued}
  }

  /** Rows interrupted while running come first, then those with a saved result, then new ones. */
  function Urgency(status: Status): nat {
    match status
    case Running => 0
    case Ready => 1
    case _ => 2
  }

  ghost predicate Earlier(order: seq<Id>, u: Id, v: Id) {
    exists i, j :: 0 <= i < j < |order| && order[i] == u && order[j] == v
  }

  ghost predicate GoesFirst(order: seq<Id>, requests: map<Id, Request>, u: Id, v: Id)
    requires u in requests && v in requests
  {
    var a, b := Urgency(requests[u].status), Urgency(requests[v].status);
    a < b || (a == b && Earlier(order, u, v))
  }

  /** The open rows that go before one. */
  ghost function Ahead(order: seq<Id>, requests: map<Id, Request>, id: Id): set<Id>
    requires id in requests
  {
    set u | u in order && Open(requests, u) && GoesFirst(order, requests, u, id)
  }

  ghost predicate Selected(order: seq<Id>, requests: map<Id, Request>, id: Id) {
    id in order && Open(requests, id) && |Ahead(order, requests, id)| < 4
  }

  ghost function OpenRows(order: seq<Id>, requests: map<Id, Request>): set<Id> {
    set id | id in order && Open(requests, id)
  }

  lemma {:induction false} WithStatusComplete(order: seq<Id>, requests: map<Id, Request>, status: Status)
    ensures forall id <- order | id in requests && requests[id].status == status :: id in WithStatus(order, requests, status)
  {
    if order != [] {
      WithStatusComplete(order[..|order| - 1], requests, status);
    }
  }

  lemma EarlierInLonger(order: seq<Id>, id: Id, u: Id, v: Id)
    requires Earlier(order, u, v)
    ensures Earlier(order + [id], u, v)
  {
    var i, j :| 0 <= i < j < |order| && order[i] == u && order[j] == v;
    assert (order + [id])[i] == u && (order + [id])[j] == v;
  }

  ghost predicate InOrder(order: seq<Id>, ids: seq<Id>) {
    forall p, q | 0 <= p < q < |ids| :: Earlier(order, ids[p], ids[q])
  }

  lemma {:induction false} WithStatusInOrder(order: seq<Id>, requests: map<Id, Request>, status: Status)
    ensures InOrder(order, WithStatus(order, requests, status))
  {
    if order != [] {
      var n := |order| - 1;
      WithStatusInOrder(order[..n], requests, status);
      var rest, ids := WithStatus(order[..n], requests, status), WithStatus(order, requests, status);
      assert order == order[..n] + [order[n]];
      forall p, q | 0 <= p < q < |ids| ensures Earlier(order, ids[p], ids[q]) {
        assert ids[p] == rest[p] && rest[p] in order[..n];
        if q < |rest| {
          assert ids[q] == rest[q] && Earlier(order[..n], rest[p], rest[q]);
          EarlierInLonger(order[..n], order[n], ids[p], ids[q]);
        } else {
          var i :| 0 <= i < n && order[..n][i] == ids[p];
          assert order[i] == ids[p] && order[n] == ids[q];
        }
      }
    }
  }

  /** All open rows, in the order in which they are taken. */
  function Pending(order: seq<Id>, requests: map<Id, Request>): seq<Id> {
    WithStatus(order, requests, Running) + WithStatus(order, requests, Ready) + WithStatus(order, requests, Queued)
  }

  lemma PendingIsSorted(order: seq<Id>, requests: map<Id, Request>)
    ensures var ids := Pending(order, requests);
      && (forall id <- ids :: id in order && Open(requests, id))
      && (forall id <- order | Open(requests, id) :: id in ids)
      && forall p, q | 0 <= p < q < |ids| :: GoesFirst(order, requests, ids[p], ids[q])
  {
    var running, ready, queued :=
      WithStatus(order, requests, Running), WithStatus(order, requests, Ready), WithStatus(order, requests, Queued);
    WithStatusComplete(order, requests, Running);
    WithStatusComplete(order, requests, Ready);
    WithStatusComplete(order, requests, Queued);
    WithStatusInOrder(order, requests, Running);
    WithStatusInOrder(order, requests, Ready);
    WithStatusInOrder(order, requests, Queued);
    var ids := Pending(order, requests);
    ConcatIsSorted(order, requests, running, ready);
    ConcatIsSorted(order, requests, running + ready, queued);
  }

  ghost predicate SortedRows(order: seq<Id>, requests: map<Id, Request>, ids: seq<Id>) {
    && (forall id <- ids :: id in requests)
    && forall p, q | 0 <= p < q < |ids| :: GoesFirst(order, requests, ids[p], ids[q])
  }

  lemma ConcatIsSorted(order: seq<Id>, requests: map<Id, Request>, a: seq<Id>, b: seq<Id>)
    requires SortedRows(order, requests, a) && SortedRows(order, requests, b)
    requires forall u <- a, v <- b :: Urgency(requests[u].status) < Urgency(requests[v].status)
    ensures SortedRows(order, requests, a + b)
  {
    forall p, q | 0 <= p < q < |a + b| ensures GoesFirst(order, requests, (a + b)[p], (a + b)[q]) {
      if p < |a| <= q {
        assert a[p] in a && b[q - |a|] in b;
      }
    }
  }

  lemma GoesFirstIsStrict(order: seq<Id>, requests: map<Id, Request>, u: Id, v: Id)
    requires Distinct(order) && u in requests && v in requests && GoesFirst(order, requests, u, v)
    ensures u != v && !GoesFirst(order, requests, v, u)
  {
    if Earlier(order, u, v) {
      var i, j :| 0 <= i < j < |order| && order[i] == u && order[j] == v;
      assert order[i] != order[j];
    }
  }

  function Members(ids: seq<Id>): set<Id> {
    set id | id in ids
  }

  lemma {:induction false} MembersCount(ids: seq<Id>)
    requires Distinct(ids)
    ensures |Members(ids)| == |ids|
  {
    if ids != [] {
      var n := |ids| - 1;
      MembersCount(ids[..n]);
      assert Members(ids) == Members(ids[..n]) + {ids[n]};
      assert ids[n] !in ids[..n];
    }
  }

  /** The rows ahead of the k-th are the first k. */
  lemma AheadIsPrefix(order: seq<Id>, requests: map<Id, Request>, k: nat)
    requires Distinct(order) && k < |Pending(order, requests)|
    ensures var ids := Pending(order, requests);
      ids[k] in requests && Ahead(order, requests, ids[k]) == Members(ids[..k])
  {
    PendingIsSorted(order, requests);
    var ids := Pending(order, requests);
    assert ids[k] in ids;
    forall u ensures u in Ahead(order, requests, ids[k]) <==> u in Members(ids[..k]) {
      if u in Ahead(order, requests, ids[k]) {
        var j :| 0 <= j < |ids| && ids[j] == u;
        GoesFirstIsStrict(order, requests, u, ids[k]);
        assert ids[..k][j] == u;
      }
    }
  }

  /**
   What is selected: as many rows as are open, up to four, in their order, and a row exactly if it is open and fewer
   than four open rows go before it.
  */
  lemma BatchExactly(order: seq<Id>, requests: map<Id, Request>)
    requires Distinct(order)
    ensures var rows := Batch(order, requests);
      && |rows| == (if |OpenRows(order, requests)| < 4 then |OpenRows(order, requests)| else 4)
      && (forall id :: id in rows <==> Selected(order, requests, id))
      && forall p, q | 0 <= p < q < |rows| ::
           rows[p] in requests && rows[q] in requests && GoesFirst(order, requests, rows[p], rows[q])
  {
    PendingIsSorted(order, requests);
    PendingIsDistinct(order, requests);
    var ids, rows := Pending(order, requests), Batch(order, requests);
    MembersCount(ids);
    assert Members(ids) == OpenRows(order, requests);
    forall id ensures id in rows <==> Selected(order, requests, id) {
      InBatchExactlyWhen(order, requests, id);
    }
  }

  lemma InBatchExactlyWhen(order: seq<Id>, requests: map<Id, Request>, id: Id)
    requires Distinct(order)
    ensures id in Batch(order, requests) <==> Selected(order, requests, id)
  {
    PendingIsSorted(order, requests);
    PendingIsDistinct(order, requests);
    var ids, rows := Pending(order, requests), Batch(order, requests);
    if id in rows || Selected(order, requests, id) {
      var k :| 0 <= k < |ids| && ids[k] == id;
      AheadIsPrefix(order, requests, k);
      DistinctPrefix(ids, k);
      MembersCount(ids[..k]);
      if id in rows {
        var j :| 0 <= j < |rows| && rows[j] == id;
        assert ids[j] == ids[k];
      }
    }
  }

  lemma DistinctPrefix(ids: seq<Id>, k: nat)
    requires Distinct(ids) && k <= |ids|
    ensures Distinct(ids[..k])
  {
  }

  lemma PendingIsDistinct(order: seq<Id>, requests: map<Id, Request>)
    requires Distinct(order)
    ensures Distinct(Pending(order, requests))
  {
    WithStatusDistinct(order, requests, Running);
    WithStatusDistinct(order, requests, Ready);
    WithStatusDistinct(order, requests, Queued);
    var running, ready := WithStatus(order, requests, Running), WithStatus(order, requests, Ready);
    DistinctConcat(running, ready);
    DistinctConcat(running + ready, WithStatus(order, requests, Queued));
  }

  /** A batch holds no row twice and no row that is already closed. */
  lemma BatchIsOpen(order: seq<Id>, requests: map<Id, Request>)
    requires Distinct(order)
    ensures Distinct(Batch(order, requests))
    ensures forall id <- Batch(order, requests) :: id in requests && !Closed(requests, id)
  {
    PendingIsDistinct(order, requests);
    PendingIsSorted(order, requests);
  }

  predicate Closed(requests: map<Id, Request>, id: Id) {
    id in requests && (requests[id].status == Done || requests[id].status == Failed)
  }

  ghost predicate OtherCallsKept(before: map<Id, Call>, after: map<Id, Call>, id: Id) {
    forall other | other != id :: (other in before <==> other in after) && (other in before ==> after[other] == before[other])
  }

  /** The tables a pass works on. */
  datatype Tables = Tables(requests: map<Id, Request>, calls: map<Id, Call>, log: Log<Key>)

  /** What a pass makes of one row. */
  ghost predicate Handled(
    cfg: Config, before: Tables, after: Tables, id: Id, executor: (Tool, Utf8) -> Option<Utf8>)
  {
    && id in before.requests && id in after.requests && Closed(after.requests, id)
    && Concluded(before.requests[id], after.requests[id], before.calls, id, executor)
    && OwnerTold(cfg, after.log, id, after.requests[id])
  }

  ghost predicate SameCall(before: Tables, after: Tables, id: Id) {
    && (id in before.calls <==> id in after.calls)
    && (id in before.calls ==> after.calls[id] == before.calls[id])
  }

  /** The pass so far: the first k rows are closed, the later ones as they were, and so is every other row. */
  ghost predicate PassedOver(
    cfg: Config, before: Tables, after: Tables, rows: seq<Id>, k: nat, executor: (Tool, Utf8) -> Option<Utf8>)
    requires k <= |rows|
  {
    && after.requests.Keys == before.requests.Keys
    && (forall j | 0 <= j < k :: Handled(cfg, before, after, rows[j], executor))
    && (forall id <- before.requests | id !in rows[..k] :: after.requests[id] == before.requests[id])
    && (forall id | id !in rows[..k] :: SameCall(before, after, id))
  }

  lemma PassOne(
    cfg: Config, before: Tables, mid: Tables, after: Tables, rows: seq<Id>, k: nat, executor: (Tool, Utf8) -> Option<Utf8>)
    requires Distinct(rows) && k < |rows| && PassedOver(cfg, before, mid, rows, k, executor)
    requires Handled(cfg, mid, after, rows[k], executor)
    requires after.requests == mid.requests[rows[k] := after.requests[rows[k]]] && mid.log.published <= after.log.published
    requires forall id | id != rows[k] :: SameCall(mid, after, id)
    ensures PassedOver(cfg, before, after, rows, k + 1, executor)
  {
    assert rows[..k + 1] == rows[..k] + [rows[k]];
    assert rows[k] !in rows[..k];
    SameCallSameEnd(before, mid, after, rows[k], executor);
    forall j | 0 <= j < k ensures Handled(cfg, before, after, rows[j], executor) {
      assert Handled(cfg, before, mid, rows[j], executor);
    }
    forall id | id !in rows[..k + 1] ensures SameCall(before, after, id) {
      assert SameCall(before, mid, id) && SameCall(mid, after, id);
    }
  }

  lemma SameCallSameEnd(before: Tables, mid: Tables, after: Tables, id: Id, executor: (Tool, Utf8) -> Option<Utf8>)
    requires id in before.requests && id in mid.requests && before.requests[id] == mid.requests[id] && SameCall(before, mid, id)
    requires id in after.requests && Concluded(mid.requests[id], after.requests[id], mid.calls, id, executor)
    ensures Concluded(before.requests[id], after.requests[id], before.calls, id, executor)
  {
    forall result ensures EndsWith(before.requests[id], before.calls, id, executor, result)
      == EndsWith(mid.requests[id], mid.calls, id, executor, result) {
    }
  }

  /** What `invoke` gives the worker: a stored result of the same call, or that of its one run. */
  function InvokeResult(calls: map<Id, Call>, id: Id, tool: Tool, args: Utf8, executor: (Tool, Utf8) -> Option<Utf8>)
    : Option<Utf8>
  {
    if id in calls then
      if calls[id].tool == tool && calls[id].args == args && calls[id].status == CallDone then calls[id].result else None
    else
      var value := executor(tool, args);
      if value.Some? && |value.value| <= MAX_RESULT_BYTES then value else None
  }

  /** What a row's execution comes to: its saved result, a stored call result, or that of `invoke`. */
  function ResultFor(req: Request, calls: map<Id, Call>, id: Id, executor: (Tool, Utf8) -> Option<Utf8>): Option<Utf8> {
    match req.status
    case Ready => req.result
    case Queued => InvokeResult(calls, id, req.tool, req.args, executor)
    case _ => if id in calls && calls[id].status == CallDone then calls[id].result else None
  }

  /** The text a request's one use of the executor may give: what it returned, unless that is too long. */
  predicate Gives(executor: (Tool, Utf8) -> Option<Utf8>, req: Request, result: Utf8) {
    executor(req.tool, req.args) == Some(result) && |result| <= 8192
  }

  /** Where a selected request gets its result, and that it has one. */
  ghost predicate EndsWith(req: Request, calls: map<Id, Call>, id: Id, executor: (Tool, Utf8) -> Option<Utf8>, result: Utf8) {
    match req.status
    case Ready => req.result == Some(result)
    case Running => id in calls && calls[id].status == CallDone && calls[id].result == Some(result)
    case _ =>
      if id !in calls then Gives(executor, req, result)
      else
        && calls[id].tool == req.tool && calls[id].args == req.args
        && calls[id].status == CallDone && calls[id].result == Some(result)
  }

  /** A selected request is done with its result, or failed because there is none. */
  ghost predicate Concluded(
    before: Request, after: Request, calls: map<Id, Call>, id: Id, executor: (Tool, Utf8) -> Option<Utf8>)
  {
    || (exists result :: EndsWith(before, calls, id, executor, result) && after == before.(status := Done, result := Some(result)))
    || ((forall result :: !EndsWith(before, calls, id, executor, result)) && after == before.(status := Failed))
  }

  lemma ConcludedBy(
    before: Request, after: Request, calls: map<Id, Call>, id: Id, executor: (Tool, Utf8) -> Option<Utf8>)
    requires before.status in {Running, Ready, Queued}
    requires var result := ResultFor(before, calls, id, executor);
      after == if result.Some? then before.(status := Done, result := result) else before.(status := Failed)
    ensures Concluded(before, after, calls, id, executor)
  {
    var result := ResultFor(before, calls, id, executor);
    if result.Some? {
      assert EndsWith(before, calls, id, executor, result.value);
    }
  }

  /** The owner is told how a request that is now closed ended. */
  predicate OwnerTold(cfg: Config, log: Log<Key>, id: Id, req: Request) {
    cfg.notify ==> (if req.status == Done then ToolDone(id) else ToolFailed(id)) in log.published
  }

  lemma NoticesFit()
    ensures Publishable(FAILURE_TEXT) && Publishable(UNKNOWN_TEXT)
  {
  }

  class ToolWorker {
    const cfg: Config
    var order: seq<Id>
    var requests: map<Id, Request>
    var calls: map<Id, Call>
    var log: Log<Key>
    ghost var model: System

    ghost predicate Valid()
      reads this
    {
      && Sensible(cfg) && Distinct(order) && (forall id :: id in order <==> id in requests)
      && model.requests == requests && model.calls == calls && model.log == log && Inv(cfg, model)
    }

    constructor (cfg: Config)
      requires Sensible(cfg)
      ensures Valid() && this.cfg == cfg && model == INITIAL
    {
      this.cfg, order, requests, calls, log, model := cfg, [], map[], map[], Log([], {}), INITIAL;
    }

    method Add(id: Id, tool: Tool, args: Utf8, conversation: nat) returns (bound: bool)
      requires Valid()
      modifies this
      ensures Valid() && model == Exec(cfg, old(model), Other(Enqueue(id, tool, args, conversation)))
      ensures bound <==> (id in old(requests) ==> old(requests)[id].tool == tool && old(requests)[id].args == args)
      ensures id in old(requests) ==> requests == old(requests) && order == old(order)
      ensures id !in old(requests) ==>
        requests == old(requests)[id := Request(tool, args, conversation, Queued, None)] && order == old(order) + [id]
    {
      ExecKeeps(cfg, model, Other(Enqueue(id, tool, args, conversation)));
      model := Exec(cfg, model, Other(Enqueue(id, tool, args, conversation)));
      if id in requests {
        return requests[id].tool == tool && requests[id].args == args;
      }
      assert id !in order;
      order := order + [id];
      requests := requests[id := Request(tool, args, conversation, Queued, None)];
      bound := true;
    }

    /** One step of the model that leaves the tables alone. */
    ghost method Advance(step: Step)
      requires Valid()
      requires Exec(cfg, model, step).requests == requests && Exec(cfg, model, step).calls == calls
      requires Exec(cfg, model, step).log == log
      modifies this`model
      ensures Valid() && model == Exec(cfg, old(model), step)
    {
      ExecKeeps(cfg, model, step);
      model := Exec(cfg, model, step);
    }

    /** `invoke`: record, run once, record the outcome; a recorded call is never run again. */
    method InvokeTool(id: Id, executor: (Tool, Utf8) -> Option<Utf8>) returns (saved: Option<Utf8>, ghost steps: seq<Step>)
      requires Valid() && id in requests && model.work == Some(Work(id, Invoking))
      modifies this`calls, this`model
      ensures Valid() && model == Run(cfg, old(model), steps)
      ensures model.work == Some(Work(id, if saved.Some? then Saved(saved.value) else Failing(FAILURE_TEXT)))
      ensures saved == InvokeResult(old(calls), id, requests[id].tool, requests[id].args, executor)
      ensures id in old(calls) ==> calls == old(calls) && model.runs == old(model).runs
      ensures id !in old(calls) ==> calls == old(calls)[id := Call(
        requests[id].tool, requests[id].args, if saved.Some? then CallDone else CallFailed, saved)]
    {
      var req := requests[id];
      steps := Extend(cfg, model, [], OnCall(Invoke));
      ExecKeeps(cfg, model, OnCall(Invoke));
      model := Exec(cfg, model, OnCall(Invoke));
      if id in calls {
        var call := calls[id];
        saved := if call.tool == req.tool && call.args == req.args && call.status == CallDone then call.result else None;
        return;
      }
      calls := calls[id := Call(req.tool, req.args, CallRunning, None)];
      ghost var more;
      saved, more := RunTool(id, executor);
      RunConcat(cfg, old(model), steps, more);
      steps := steps + more;
    }

    method RunTool(id: Id, executor: (Tool, Utf8) -> Option<Utf8>) returns (saved: Option<Utf8>, ghost steps: seq<Step>)
      requires Valid() && id in requests && model.work == Some(Work(id, Executing))
      requires id in calls && calls[id] == Call(requests[id].tool, requests[id].args, CallRunning, None)
      modifies this`calls, this`model
      ensures calls == old(calls)[id := old(calls)[id].(status := if saved.Some? then CallDone else CallFailed, result := saved)]
      ensures Valid() && model == Run(cfg, old(model), steps)
      ensures model.work == Some(Work(id, if saved.Some? then Saved(saved.value) else Failing(FAILURE_TEXT)))
      ensures var value := executor(requests[id].tool, requests[id].args);
        saved == if value.Some? && |value.value| <= MAX_RESULT_BYTES then value else None
    {
      steps := Extend(cfg, model, [], OnCall(Start));
      Advance(OnCall(Start));
      var value := executor(requests[id].tool, requests[id].args);
      ghost var outcome := OnCall(if value.Some? then Return(value.value) else Raise);
      steps := Extend(cfg, old(model), steps, outcome);
      Advance(outcome);
      saved := if value.Some? && |value.value| <= MAX_RESULT_BYTES then value else None;
      steps := Extend(cfg, old(model), steps, OnCall(if saved.Some? then SaveCall else FailCall));
      StoreOutcome(id, saved);
    }

    /** The closing transaction of `invoke`. */
    method StoreOutcome(id: Id, saved: Option<Utf8>)
      requires Valid() && id in calls
      requires model.work == Some(Work(id, if saved.Some? then Returned(saved.value) else Raised))
      modifies this`calls, this`model
      ensures Valid() && model == Exec(cfg, old(model), OnCall(if saved.Some? then SaveCall else FailCall))
      ensures model.work == Some(Work(id, if saved.Some? then Saved(saved.value) else Failing(FAILURE_TEXT)))
      ensures calls == old(calls)[id := if saved.Some? then old(calls)[id].(status := CallDone, result := saved)
                                        else old(calls)[id].(status := CallFailed)]
    {
      ghost var store := OnCall(if saved.Some? then SaveCall else FailCall);
      ExecKeeps(cfg, model, store);
      model := Exec(cfg, model, store);
      if saved.Some? {
        calls := calls[id := calls[id].(status := CallDone, result := saved)];
      } else {
        calls := calls[id := calls[id].(status := CallFailed)];
      }
    }

    /** The row is blocked for the owner; it is never tried again. */
    method Block(id: Id, notice: Utf8, clock: int) returns (ghost steps: seq<Step>)
      requires Valid() && id in requests && model.work == Some(Work(id, Failing(notice)))
      modifies this`requests, this`log, this`model
      ensures Valid() && model == Run(cfg, old(model), steps) && model.work.None?
      ensures requests == old(requests)[id := old(requests)[id].(status := Failed)]
      ensures steps == [OnRow(FailRequest), OnRow(Notify(clock))]
      ensures log == if cfg.notify
        then Publish(old(log), ToolFailed(id), old(requests)[id].conversation, notice, clock) else old(log)
      ensures old(log).published <= log.published && (cfg.notify && Publishable(notice) ==> ToolFailed(id) in log.published)
    {
      steps := Extend(cfg, model, [], OnRow(FailRequest));
      ExecKeeps(cfg, model, OnRow(FailRequest));
      model := Exec(cfg, model, OnRow(FailRequest));
      requests := requests[id := requests[id].(status := Failed)];
      steps := Extend(cfg, old(model), steps, OnRow(Notify(clock)));
      ExecKeeps(cfg, model, OnRow(Notify(clock)));
      model := Exec(cfg, model, OnRow(Notify(clock)));
      if cfg.notify {
        log := Publish(log, ToolFailed(id), requests[id].conversation, notice, clock);
      }
    }

    method SaveResult(id: Id, saved: Utf8)
      requires Valid() && id in requests && model.work == Some(Work(id, Saved(saved)))
      modifies this`requests, this`model
      ensures Valid() && model == Exec(cfg, old(model), OnRow(MarkReady))
      ensures model.work == Some(Work(id, Notifying(saved))) && |saved| <= MAX_RESULT_BYTES
      ensures requests == old(requests)[id := old(requests)[id].(status := Ready, result := Some(saved))]
    {
      ExecKeeps(cfg, model, OnRow(MarkReady));
      model := Exec(cfg, model, OnRow(MarkReady));
      requests := requests[id := requests[id].(status := Ready, result := Some(saved))];
    }

    method TellOwner(id: Id, saved: Utf8, clock: int)
      requires Valid() && id in requests && model.work == Some(Work(id, Notifying(saved))) && |saved| <= MAX_RESULT_BYTES
      modifies this`log, this`model
      ensures Valid() && model == Exec(cfg, old(model), OnRow(Notify(clock)))
      ensures model.work == Some(Work(id, Closing))
      ensures log == if cfg.notify
        then Publish(old(log), ToolDone(id), requests[id].conversation, DoneText(cfg, saved), clock) else old(log)
      ensures old(log).published <= log.published && (cfg.notify ==> ToolDone(id) in log.published)
    {
      var text := DoneText(cfg, saved);
      assert Publishable(text);
      ExecKeeps(cfg, model, OnRow(Notify(clock)));
      model := Exec(cfg, model, OnRow(Notify(clock)));
      if cfg.notify {
        log := Publish(log, ToolDone(id), requests[id].conversation, text, clock);
      }
    }

    method CloseRow(id: Id)
      requires Valid() && id in requests && model.work == Some(Work(id, Closing))
      modifies this`requests, this`model
      ensures Valid() && model == Exec(cfg, old(model), OnRow(Close)) && model.work.None?
      ensures requests == old(requests)[id := old(requests)[id].(status := Done)]
    {
      ExecKeeps(cfg, model, OnRow(Close));
      model := Exec(cfg, model, OnRow(Close));
      requests := requests[id := requests[id].(status := Done)];
    }

    /** The result is saved, told to the owner once, and the row closed. */
    method Report(id: Id, saved: Utf8, clock: int) returns (ghost steps: seq<Step>)
      requires Valid() && id in requests && model.work == Some(Work(id, Saved(saved)))
      modifies this`requests, this`log, this`model
      ensures Valid() && model == Run(cfg, old(model), steps) && model.work.None?
      ensures requests == old(requests)[id := old(requests)[id].(status := Done, result := Some(saved))]
      ensures steps == [OnRow(MarkReady), OnRow(Notify(clock)), OnRow(Close)]
      ensures log == if cfg.notify
        then Publish(old(log), ToolDone(id), old(requests)[id].conversation, DoneText(cfg, saved), clock) else old(log)
      ensures old(log).published <= log.published && (cfg.notify ==> ToolDone(id) in log.published)
    {
      steps := Extend(cfg, model, [], OnRow(MarkReady));
      SaveResult(id, saved);
      steps := Extend(cfg, old(model), steps, OnRow(Notify(clock)));
      TellOwner(id, saved, clock);
      steps := Extend(cfg, old(model), steps, OnRow(Close));
      CloseRow(id);
    }

    /** The row is taken; a new one is marked before anything runs. */
    method Take(id: Id) returns (status: Status)
      requires Valid() && id in requests && model.work.None?
      requires requests[id].status != Done && requests[id].status != Failed
      modifies this`requests, this`model
      ensures Valid() && model == Exec(cfg, old(model), OnRow(RowStep.Take(id))) && status == old(requests)[id].status
      ensures id in requests && requests[id].tool == old(requests)[id].tool && requests[id].args == old(requests)[id].args
      ensures requests == old(requests)[id := requests[id]] && model.runs == old(model).runs
      ensures requests[id] == old(requests)[id].(status := if status == Queued then Running else status)
      ensures status == Ready ==> requests[id].result.Some? && model.work == Some(Work(id, Saved(requests[id].result.value)))
      ensures status != Ready ==> model.work == Some(Work(id, if status == Queued then Invoking else Inspecting))
    {
      status := requests[id].status;
      assert RequestOk(cfg, model, id);
      ExecKeeps(cfg, model, OnRow(RowStep.Take(id)));
      model := Exec(cfg, model, OnRow(RowStep.Take(id)));
      if status == Queued {
        requests := requests[id := requests[id].(status := Running)];
      }
    }

    /** Up to the point where the row either has a saved result or has failed. */
    method Obtain(id: Id, executor: (Tool, Utf8) -> Option<Utf8>) returns (saved: Option<Utf8>, notice: Utf8, ghost steps: seq<Step>)
      requires Valid() && id in requests && model.work.None?
      requires requests[id].status != Done && requests[id].status != Failed
      modifies this`requests, this`calls, this`model
      ensures Valid() && model == Run(cfg, old(model), steps)
      ensures model.work == Some(Work(id, if saved.Some? then Saved(saved.value) else Failing(notice)))
      ensures id in requests && requests == old(requests)[id := requests[id]]
      ensures saved == ResultFor(old(requests)[id], old(calls), id, executor)
      ensures old(requests)[id].status != Queued || id in old(calls) ==> calls == old(calls) && model.runs == old(model).runs
      ensures OtherCallsKept(old(calls), calls, id)
      ensures requests[id] == old(requests)[id].(status := requests[id].status)
      ensures notice in {FAILURE_TEXT, UNKNOWN_TEXT}
    {
      notice := FAILURE_TEXT;
      steps := Extend(cfg, model, [], OnRow(RowStep.Take(id)));
      var status := Take(id);
      if status == Queued {
        ghost var more;
        saved, more := InvokeTool(id, executor);
        RunConcat(cfg, old(model), steps, more);
        steps := steps + more;
      } else if status == Ready {
        saved := requests[id].result;
      } else {
        // Left behind by a worker that is gone: a recorded result will do, a second run will not.
        steps := Extend(cfg, old(model), steps, OnRow(Inspect));
        Advance(OnRow(Inspect));
        saved := if id in calls && calls[id].status == CallDone then calls[id].result else None;
        notice := UNKNOWN_TEXT;
      }
    }

    /** The row is reported if it has a result, and blocked otherwise. */
    method Conclude(id: Id, saved: Option<Utf8>, notice: Utf8, clock: int) returns (ghost steps: seq<Step>)
      requires Valid() && id in requests && notice in {FAILURE_TEXT, UNKNOWN_TEXT}
      requires model.work == Some(Work(id, if saved.Some? then Saved(saved.value) else Failing(notice)))
      modifies this`requests, this`log, this`model
      ensures Valid() && model == Run(cfg, old(model), steps) && model.work.None?
      ensures requests == old(requests)[id :=
        if saved.Some? then old(requests)[id].(status := Done, result := saved) else old(requests)[id].(status := Failed)]
      ensures old(log).published <= log.published && OwnerTold(cfg, log, id, requests[id])
    {
      if saved.Some? {
        steps := Report(id, saved.value, clock);
      } else {
        NoticesFit();
        steps := Block(id, notice, clock);
      }
    }

    method ProcessRow(id: Id, executor: (Tool, Utf8) -> Option<Utf8>, clock: int) returns (ghost steps: seq<Step>)
      requires Valid() && id in requests && model.work.None?
      requires requests[id].status != Done && requests[id].status != Failed
      modifies this`requests, this`calls, this`log, this`model
      ensures Valid() && model == Run(cfg, old(model), steps) && model.work.None?
      ensures id in requests && requests == old(requests)[id := requests[id]]
      ensures Concluded(old(requests)[id], requests[id], old(calls), id, executor) && OwnerTold(cfg, log, id, requests[id])
      ensures OtherCallsKept(old(calls), calls, id)
      ensures old(log).published <= log.published && Closed(requests, id)
    {
      var saved, notice, obtained := Obtain(id, executor);
      ghost var finished := Conclude(id, saved, notice, clock);
      ConcludedBy(old(requests)[id], requests[id], old(calls), id, executor);
      RunConcat(cfg, old(model), obtained, finished);
      steps := obtained + finished;
    }

    ghost function Now(): Tables
      reads this
    {
      Tables(requests, calls, log)
    }

    method ProcessRows(rows: seq<Id>, executor: (Tool, Utf8) -> Option<Utf8>, clock: int) returns (ghost steps: seq<Step>)
      requires Valid() && model.work.None? && Distinct(rows) && forall id <- rows :: Open(requests, id)
      modifies this`requests, this`calls, this`log, this`model
      ensures Valid() && model == Run(cfg, old(model), steps) && model.work.None?
      ensures PassedOver(cfg, old(Now()), Now(), rows, |rows|, executor)
    {
      steps := [];
      for k := 0 to |rows|
        invariant Valid() && model == Run(cfg, old(model), steps) && model.work.None?
        invariant PassedOver(cfg, old(Now()), Now(), rows, k, executor)
      {
        ghost var mid := Now();
        assert rows[k] in rows && rows[k] !in rows[..k];
        ghost var more := ProcessRow(rows[k], executor, clock);
        forall id | id != rows[k] ensures SameCall(mid, Now(), id) {
          assert OtherCallsKept(mid.calls, calls, rows[k]);
        }
        PassOne(cfg, old(Now()), mid, Now(), rows, k, executor);
        RunConcat(cfg, old(model), steps, more);
        steps := steps + more;
      }
    }

    /**
     `process_pending`: takes as many rows as are open, up to four; a row exactly if it is open and fewer than four
     open rows go before it. Each of these is done with its result or failed because it has none, and the owner is
     told; nothing else is touched.
    */
    method ProcessPending(executor: (Tool, Utf8) -> Option<Utf8>, clock: int) returns (processed: nat, ghost steps: seq<Step>)
      requires Valid() && model.work.None?
      modifies this`requests, this`calls, this`log, this`model
      ensures Valid() && model == Run(cfg, old(model), steps) && model.work.None? && order == old(order)
      ensures var open := |OpenRows(order, old(requests))|; processed == if open < 4 then open else 4
      ensures requests.Keys == old(requests).Keys
      ensures forall id <- old(requests) ::
        if Selected(order, old(requests), id) then Handled(cfg, old(Now()), Now(), id, executor)
        else requests[id] == old(requests)[id]
    {
      var rows := Batch(order, requests);
      BatchIsOpen(order, requests);
      BatchExactly(order, requests);
      steps := ProcessRows(rows, executor, clock);
      processed := |rows|;
      assert rows[..|rows|] == rows;
    }
  }

  /** So nothing is processed exactly if no row is open, and with up to four open rows every one is taken. */
  lemma FewRowsAreAllTaken(order: seq<Id>, requests: map<Id, Request>)
    requires Distinct(order)
    ensures Batch(order, requests) == [] <==> forall id <- order :: !Open(requests, id)
    ensures |OpenRows(order, requests)| <= 4 ==> forall id <- order | Open(requests, id) :: id in Batch(order, requests)
  {
    PendingIsSorted(order, requests);
    PendingIsDistinct(order, requests);
    MembersCount(Pending(order, requests));
    assert Members(Pending(order, requests)) == OpenRows(order, requests);
    if id :| id in order && Open(requests, id) {
      assert id in Pending(order, requests);
    }
  }
}
