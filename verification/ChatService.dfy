/**
 The chat service as one process runs it (chat_api.py): tables rewritten in place, each method performing steps of
 the interleaving model. Whether the queue takes a job (its task, its length) is a parameter.
*/
module ChatService {
  import opened Wrappers
  import opened Json
  import opened ChatPrompt
  import opened ChatRuns
  import Text = OpenAiText
  import Times = OwnerUpdates

  datatype Failure = Refused(error: Error) | QueueRefused

  lemma GrowsItself(sys: System)
    ensures Grows(sys, sys)
  {
  }

  lemma ReachableFacts(hash: Approval -> Digest, sys: System)
    requires Reachable(hash, sys)
    ensures sys.hash == hash && OneRowPerRequest(sys.rows) && forall row <- sys.rows :: RowOk(sys, row)
  {
    ReachableInv(hash, sys);
  }

  /** The row's turn is settled on the queue, or is an action that never goes there. */
  predicate Placed(rows: seq<Row>, jobs: map<RequestId, Job>, k: nat) {
    k < |rows| && rows[k].body.Reply?
    && (!rows[k].body.action ==>
          rows[k].body.attached && rows[k].body.request in jobs
          && jobs[rows[k].body.request] == Job(rows[k].conversation, rows[k].body.approval))
  }

  lemma PlacedStays(before: System, after: System, k: nat)
    requires Grows(before, after) && Placed(before.rows, before.jobs, k)
    ensures Placed(after.rows, after.jobs, k)
  {
    assert SameRow(before.rows[k], after.rows[k]);
  }

  /** The queue will not have the row: it takes no new job, or holds another one under the row's request id. */
  predicate Blocked(rows: seq<Row>, jobs: map<RequestId, Job>, accepted: nat -> bool, k: nat) {
    k < |rows| && rows[k].body.Reply? && !rows[k].body.action && !rows[k].body.attached
    && (if rows[k].body.request in jobs
        then jobs[rows[k].body.request] != Job(rows[k].conversation, rows[k].body.approval) else !accepted(k))
  }

  /** Recovery moved the system on without touching what was said and approved. */
  ghost predicate Recovered(before: System, after: System) {
    Grows(before, after) && SameTurns(before, after)
  }

  lemma RecoveredTrans(a: System, b: System, c: System)
    requires Recovered(a, b) && Recovered(b, c)
    ensures Recovered(a, c)
  {
    GrowsTrans(a, b, c);
    forall k | 0 <= k < |a.rows| ensures Unattached(a.rows[k]) == Unattached(c.rows[k]) {
      assert Unattached(a.rows[k]) == Unattached(b.rows[k]);
    }
  }

  lemma PlacedAllStay(before: System, after: System, conversation: Conversation, k: nat)
    requires Recovered(before, after) && k <= |before.rows|
    requires forall j | 0 <= j < k && before.rows[j].conversation == conversation && before.rows[j].body.Reply? ::
      Placed(before.rows, before.jobs, j)
    ensures forall j | 0 <= j < k && after.rows[j].conversation == conversation && after.rows[j].body.Reply? ::
      Placed(after.rows, after.jobs, j)
  {
    forall j | 0 <= j < k && after.rows[j].conversation == conversation && after.rows[j].body.Reply?
      ensures Placed(after.rows, after.jobs, j)
    {
      assert SameRow(before.rows[j], after.rows[j]);
      PlacedStays(before, after, j);
    }
  }

  class ChatService {
    const hash: Approval -> Digest
    var conversations: map<Conversation, nat>
    var rows: seq<Row>
    var jobs: map<RequestId, Job>
    ghost var model: System

    ghost predicate Valid()
      reads this
    {
      && Reachable(hash, model)
      && model.conversations == conversations && model.rows == rows && model.jobs == jobs
    }

    constructor (hash: Approval -> Digest)
      ensures Valid() && model == Initial(hash)
    {
      this.hash, conversations, rows, jobs, model := hash, map[], [], map[], Initial(hash);
      new;
      assert Run(Initial(hash), []) == Initial(hash);
    }

    /** The approval digest of what would be sent now. */
    method Quoted(question: Question, context: Context, sensitive: bool) returns (r: Result<Shown, Error>)
      requires Valid()
      ensures r == PreviewTx(model, question, sensitive, context)
    {
      ReachableFacts(hash, model);
      if !Acceptable(question.content) {
        return Err(InvalidText);
      }
      if question.conversation !in conversations {
        return Err(UnknownConversation);
      }
      var memory := Memory(context.notes);
      var packed := Included(History(rows, question.conversation), memory, question.content);
      if packed.None? {
        return Err(NoRoom);
      }
      var (included, prompt) := packed.value;
      var provider := if sensitive || Mentions(prompt) then Some(Text.Ollama) else None;
      var quote := Quote(prompt, question, provider, context);
      if quote.None? {
        return Err(Rejected);
      }
      r := Ok(Shown(context.notes, included, quote.value, hash(quote.value)));
    }

    /** `_recover`: enqueue under the row's own request id, then attach what the queue holds under it. */
    method Recover(k: nat, accepted: nat -> bool) returns (ok: bool)
      requires Valid() && k < |rows| && rows[k].body.Reply?
      modifies this`rows, this`jobs, this`model
      ensures Valid() && model == AttachTx(EnqueueTx(old(model), k, accepted(k)), k) && Recovered(old(model), model)
      ensures if ok then Placed(rows, jobs, k) else Blocked(rows, jobs, accepted, k)
    {
      ReachableFacts(hash, model);
      assert RowOk(model, rows[k]);
      Progress(k, accepted(k));
      var row := rows[k];
      if row.body.action || row.body.attached {
        return true;
      }
      var job := JobOf(row, accepted(k));
      RequestIsUnchanged(row, accepted(k));
      RequestIsUnchanged(row, true);
      if job.Some? && row.body.request !in jobs {
        jobs := jobs[row.body.request := job.value];
      }
      ok := row.body.request in jobs && Some(jobs[row.body.request]) == JobOf(row, true);
      if ok {
        rows := rows[k := row.(body := row.body.(attached := true, status := Pending))];
      }
    }

    /** The two transactions of recovery. */
    ghost method Progress(k: nat, accepted: bool)
      requires Reachable(hash, model)
      modifies this`model
      ensures model == AttachTx(EnqueueTx(old(model), k, accepted), k) && Reachable(hash, model)
      ensures Recovered(old(model), model)
    {
      var first, second := Enqueue(k, accepted), Attach(k);
      ReachableInv(hash, model);
      RecoverKeepsTurns(model, k, accepted);
      ReachableStep(hash, model, first);
      ReachableStep(hash, Exec(model, first), second);
      ExecKeeps(model, first);
      ExecKeeps(Exec(model, first), second);
      GrowsTrans(model, Exec(model, first), Exec(Exec(model, first), second));
      model := Exec(Exec(model, first), second);
    }

    /** `_recover_orphans`: every unattached turn of the conversation, until the queue refuses one. */
    method RecoverOrphans(conversation: Conversation, accepted: nat -> bool) returns (ok: bool)
      requires Valid()
      modifies this`rows, this`jobs, this`model
      ensures Valid() && Recovered(old(model), model) && conversations == old(conversations)
      ensures ok ==> forall k | 0 <= k < |rows| && rows[k].conversation == conversation && rows[k].body.Reply? ::
        Placed(rows, jobs, k)
      ensures !ok ==> exists k :: Blocked(rows, jobs, accepted, k)
    {
      ReachableFacts(hash, model);
      for k := 0 to |rows|
        invariant Valid() && Recovered(old(model), model) && conversations == old(conversations)
        invariant forall j | 0 <= j < k && rows[j].conversation == conversation && rows[j].body.Reply? ::
          Placed(rows, jobs, j)
      {
        if rows[k].conversation == conversation && rows[k].body.Reply? {
          ghost var before := model;
          var recovered := Recover(k, accepted);
          RecoveredTrans(old(model), before, model);
          if !recovered {
            return false;
          }
          PlacedAllStay(before, model, conversation, k);
        }
      }
      ok := true;
    }

    /** `preview`, after the conversation's orphans are back on the queue. */
    method Preview(question: Question, sensitive: bool, context: Context, accepted: nat -> bool)
      returns (r: Result<Shown, Failure>)
      requires Valid()
      modifies this`rows, this`jobs, this`model
      ensures Valid() && Grows(old(model), model) && |rows| == |old(rows)|
      ensures r.Ok? ==> PreviewTx(old(model), question, sensitive, context) == Ok(r.value) && r.value in model.shown
      ensures r.Err? && r.error.Refused? ==> PreviewTx(old(model), question, sensitive, context) == Err(r.error.error)
      ensures r == Err(QueueRefused) ==> exists k :: Blocked(rows, jobs, accepted, k)
    {
      ReachableFacts(hash, model);
      if !Acceptable(question.content) {
        GrowsItself(model);
        return Err(Refused(InvalidText));
      }
      var ok := RecoverOrphans(question.conversation, accepted);
      if !ok {
        return Err(QueueRefused);
      }
      RecoveryChangesNoVerdict(old(model), model, question, context);
      var quoted := Quoted(question, context, sensitive);
      if quoted.Err? {
        return Err(Refused(quoted.error));
      }
      Advance(ChatRuns.Preview(question, sensitive, context));
      r := Ok(quoted.value);
    }

    /** One step of the model. */
    ghost method Advance(step: Step)
      requires Reachable(hash, model)
      modifies this`model
      ensures model == Exec(old(model), step) && Reachable(hash, model) && Grows(old(model), model)
    {
      ReachableInv(hash, model);
      ExecKeeps(model, step);
      ReachableStep(hash, model, step);
      model := Exec(model, step);
    }

    /** The approval a submission would be stored under. */
    method Approved(ghost sys: System, submission: Submission, context: Context) returns (r: Result<Approval, Error>)
      requires sys.rows == rows
      ensures r == Effective(sys, submission, context)
    {
      var memory := Memory(context.notes);
      var packed := Included(History(rows, submission.question.conversation), memory, submission.question.content);
      if packed.None? {
        return Err(NoRoom);
      }
      var prompt := packed.value.1;
      if Mentions(prompt) && submission.provider == Some(Text.OpenAi) {
        return Err(MemoryStaysLocal);
      }
      var provider := if Mentions(prompt) then Some(Text.Ollama) else submission.provider;
      var quote := Quote(prompt, submission.question, provider, context);
      r := if quote.None? then Err(Rejected) else Ok(quote.value);
    }

    /** The writing transaction: a bound request is looked up, a new one stored under its digest or refused. */
    method Store(submission: Submission, action: bool, context: Context, clock: int) returns (r: Result<nat, Error>)
      requires Valid() && Acceptable(submission.question.content)
      modifies this`conversations, this`rows, this`model
      ensures Valid() && model == Exec(old(model), ChatRuns.Submit(submission, action, context, clock)) && Grows(old(model), model)
      ensures r.Ok? <==> SubmitTx(old(model), submission, action, context, clock).Ok?
      ensures r.Err? ==> SubmitTx(old(model), submission, action, context, clock) == Err(r.error)
      ensures Find(old(rows), submission.request).Some? ==> rows == old(rows)
      ensures r.Ok? ==> r.value < |rows| && IsReply(rows[r.value], submission.request) && SameTurn(rows[r.value], submission)
    {
      ReachableFacts(hash, model);
      ghost var before := model;
      Advance(ChatRuns.Submit(submission, action, context, clock));
      var existing := Find(rows, submission.request);
      if existing.Some? {
        return if SameTurn(rows[existing.value], submission) then Ok(existing.value) else Err(AlreadyBound);
      }
      var conversation := submission.question.conversation;
      if conversation !in conversations {
        return Err(UnknownConversation);
      }
      var approval := Approved(before, submission, context);
      if approval.Err? {
        return Err(approval.error);
      }
      if submission.digest != hash(approval.value) {
        return Err(Stale);
      }
      Insert(before, submission, approval.value, action, clock);
      r := Ok(|rows| - 1);
    }

    /** The two rows of a turn and the conversation's next revision. */
    method Insert(ghost sys: System, submission: Submission, approval: Approval, action: bool, clock: int)
      requires sys.rows == rows && sys.conversations == conversations && sys.hash == hash
      requires submission.question.conversation in conversations && submission.digest == hash(approval)
      modifies this`conversations, this`rows
      ensures var next := NewTurn(sys, submission, approval, action, clock);
        rows == next.rows && conversations == next.conversations
    {
      var conversation, asked := submission.question.conversation, submission.question.content;
      var now := Times.NextTime(Stamps(rows), conversation, clock);
      var revision := conversations[conversation] + 1;
      rows := rows + [
        Row(conversation, asked, now, FromUser),
        Row(conversation, "", now + 1,
            Reply(submission.request, approval, submission.digest, asked, revision, ChatRuns.Pending, false, action))];
      conversations := conversations[conversation := revision];
    }

    /**
     `submit`: on success the request's own turn is stored under the submitted digest, and the queue holds
     exactly its approval; repeating the call, after a crash or not, stores nothing more. A refusal is the
     transaction's own; otherwise some turn's job was not taken by the queue.
    */
    method Submit(submission: Submission, action: bool, context: Context, clock: int, accepted: nat -> bool)
      returns (r: Result<nat, Failure>)
      requires Valid()
      modifies this`conversations, this`rows, this`jobs, this`model
      ensures Valid() && Grows(old(model), model)
      ensures r.Ok? ==>
        && SubmitTx(old(model), submission, action, context, clock).Ok?
        && Placed(rows, jobs, r.value) && IsReply(rows[r.value], submission.request) && SameTurn(rows[r.value], submission)
      ensures r.Err? && r.error.Refused? ==> SubmitTx(old(model), submission, action, context, clock) == Err(r.error.error)
      ensures r == Err(QueueRefused) ==> exists k :: Blocked(rows, jobs, accepted, k)
      ensures Find(old(rows), submission.request).Some? ==> |rows| == |old(rows)|
    {
      ReachableFacts(hash, model);
      GrowsItself(model);
      if !Acceptable(submission.question.content) {
        return Err(Refused(InvalidText));
      }
      if Find(rows, submission.request).None? {
        var ok := RecoverOrphans(submission.question.conversation, accepted);
        if !ok {
          return Err(QueueRefused);
        }
        SameVerdict(old(model), model, submission, action, context, clock);
      }
      ghost var before := model;
      var stored := Store(submission, action, context, clock);
      GrowsTrans(old(model), before, model);
      if stored.Err? {
        return Err(Refused(stored.error));
      }
      before := model;
      r := Finish(submission, stored.value, accepted);
      GrowsTrans(old(model), before, model);
    }

    /** Recovery of the row just stored or found. */
    method Finish(submission: Submission, k: nat, accepted: nat -> bool) returns (r: Result<nat, Failure>)
      requires Valid() && k < |rows| && IsReply(rows[k], submission.request) && SameTurn(rows[k], submission)
      modifies this`rows, this`jobs, this`model
      ensures Valid() && Grows(old(model), model) && |rows| == |old(rows)|
      ensures r.Ok? ==> Placed(rows, jobs, r.value) && IsReply(rows[r.value], submission.request) && SameTurn(rows[r.value], submission)
      ensures r.Err? ==> r.error == QueueRefused && Blocked(rows, jobs, accepted, k)
    {
      var ok := Recover(k, accepted);
      assert SameRow(old(rows)[k], rows[k]);
      r := if ok then Ok(k) else Err(QueueRefused);
    }
  }
}
