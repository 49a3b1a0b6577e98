/**
 Approval-bound chat turns (chat_api.py): the owner approves the digest of the exact prompt, limits and provider
 shown by a preview; a submission stores a turn only under the digest of what would be sent, and recovery puts
 that, and nothing else, on the work queue. Previews, submissions, recoveries, completions and messages from
 background work interleave; a crash may fall between any two transactions. Times are microseconds.
*/
module ChatRuns {
  import opened Wrappers
  import opened Json
  import opened ChatPrompt
  import Ledger = ModelLedger
  import Text = OpenAiText
  import Times = OwnerUpdates

  type Conversation = nat
  type RequestId = nat
  type Digest = nat

  datatype Status = Pending | Complete | Unknown | Failed

  /** What the owner approves: prompt, output limit and provider in the payload, and the cost cap. */
  type Approval = Ledger.Request

  datatype Body =
    | FromUser
    | Update
    | Reply(
        request: RequestId, approval: Approval, digest: Digest, asked: Utf8, revision: nat,
        status: Status, attached: bool, action: bool)

  datatype Row = Row(conversation: Conversation, content: Utf8, createdAt: int, body: Body)

  datatype Job = Job(conversation: Conversation, approved: Approval)

  /** A preview as the owner saw it. */
  datatype Shown = Shown(notes: seq<Utf8>, included: seq<Turn>, approval: Approval, digest: Digest)

  datatype System = System(
    hash: Approval -> Digest, conversations: map<Conversation, nat>, rows: seq<Row>,
    jobs: map<RequestId, Job>, shown: seq<Shown>)

  /** What a call reads besides the tables: the notes retrieved, the route in force, and whether text is accepted. */
  datatype Context = Context(notes: seq<Utf8>, route: Text.Provider, accepted: bool)

  datatype Question = Question(conversation: Conversation, content: Utf8, maxOutput: nat, maxCost: int)

  datatype Submission = Submission(question: Question, request: RequestId, digest: Digest, provider: Option<Text.Provider>)

  datatype Error = InvalidText | AlreadyBound | UnknownConversation | NoRoom | MemoryStaysLocal | Rejected | Stale

  datatype Step =
    | Create(conversation: Conversation)
    | Preview(question: Question, sensitive: bool, context: Context)
    | Submit(submission: Submission, action: bool, context: Context, clock: int)
    | Enqueue(row: nat, accepted: bool)
    | Attach(row: nat)
    | Refresh(row: nat, status: Status, content: Utf8)
    | Act(row: nat, status: Status, content: Utf8)
    | Publish(conversation: Conversation, content: Utf8, clock: int)
    | OtherJob(request: RequestId, job: Job)

  function Initial(hash: Approval -> Digest): System {
    System(hash, map[], [], map[], [])
  }

  // ----- prompts and quotes -----

  predicate Acceptable(content: Utf8) {
    1 <= |content| <= MAX_MESSAGE_BYTES
  }

  /** `role='user' OR status='complete'`, oldest first. */
  function History(rows: seq<Row>, conversation: Conversation): seq<Turn> {
    if rows == [] then []
    else
      var earlier, row := History(rows[..|rows| - 1], conversation), rows[|rows| - 1];
      if row.conversation != conversation then earlier
      else
        match row.body
        case FromUser => earlier + [Turn(User, row.content)]
        case Update => earlier + [Turn(Assistant, row.content)]
        case Reply(_, _, _, _, _, status, _, _) =>
          if status == Complete then earlier + [Turn(Assistant, row.content)] else earlier
  }

  /** `model_work.preview`: the validated request, if limits and route allow it. */
  function Quote(prompt: Utf8, question: Question, provider: Option<Text.Provider>, context: Context): (r: Option<Approval>)
    ensures r.Some? ==>
      r.value.payload == Text.Payload(if provider.Some? then provider.value else context.route, prompt, question.maxOutput)
    ensures r.Some? ==> r.value.maxCost == question.maxCost && Sendable(r.value)
  {
    var payload := Text.Payload(if provider.Some? then provider.value else context.route, prompt, question.maxOutput);
    Ledger.Prepare(Ledger.Details(payload, context.accepted, question.maxCost, true))
  }

  /** The turns and prompt a message would be sent with now. */
  function PromptFor(sys: System, question: Question, notes: seq<Utf8>): Option<(seq<Turn>, Utf8)> {
    var included := Pack(Memory(notes), History(sys.rows, question.conversation), question.content);
    if included.None? then None else Some((included.value, Prompt(Memory(notes), included.value)))
  }

  function PreviewTx(sys: System, question: Question, sensitive: bool, context: Context): Result<Shown, Error> {
    if !Acceptable(question.content) then Err(InvalidText)
    else if question.conversation !in sys.conversations then Err(UnknownConversation)
    else
      var packed := PromptFor(sys, question, context.notes);
      if packed.None? then Err(NoRoom)
      else
        var prompt := packed.value.1;
        var provider := if sensitive || Mentions(prompt) then Some(Text.Ollama) else None;
        var quote := Quote(prompt, question, provider, context);
        if quote.None? then Err(Rejected)
        else Ok(Shown(context.notes, packed.value.0, quote.value, sys.hash(quote.value)))
  }

  // ----- submission -----

  predicate IsReply(row: Row, request: RequestId) {
    row.body.Reply? && row.body.request == request
  }

  function Find(rows: seq<Row>, request: RequestId): (found: Option<nat>)
    ensures found.Some? ==> found.value < |rows| && IsReply(rows[found.value], request)
    ensures found.None? ==> forall row <- rows :: !IsReply(row, request)
  {
    if rows == [] then None
    else if IsReply(rows[|rows| - 1], request) then Some(|rows| - 1)
    else Find(rows[..|rows| - 1], request)
  }

  /** The comparison that binds a request id to one approved turn. */
  predicate SameTurn(row: Row, submission: Submission)
    requires row.body.Reply?
  {
    && row.conversation == submission.question.conversation && row.body.asked == submission.question.content
    && row.body.digest == submission.digest
    && row.body.approval.payload.maxOutputTokens == submission.question.maxOutput
    && row.body.approval.maxCost == submission.question.maxCost
  }

  /** The stamps alone, as the shared timestamp rule sees them. */
  function Stamps(rows: seq<Row>): (stamps: seq<Times.Message<()>>)
    ensures |stamps| == |rows|
  {
    seq(|rows|, k requires 0 <= k < |rows| => Times.Message(None, rows[k].conversation, "", rows[k].createdAt))
  }

  /** The approval a submission would be stored under. */
  function Effective(sys: System, submission: Submission, context: Context): Result<Approval, Error> {
    var packed := PromptFor(sys, submission.question, context.notes);
    if packed.None? then Err(NoRoom)
    else
      var prompt := packed.value.1;
      if Mentions(prompt) && submission.provider == Some(Text.OpenAi) then Err(MemoryStaysLocal)
      else
        var provider := if Mentions(prompt) then Some(Text.Ollama) else submission.provider;
        var quote := Quote(prompt, submission.question, provider, context);
        if quote.None? then Err(Rejected) else Ok(quote.value)
  }

  function NewTurn(sys: System, submission: Submission, approval: Approval, action: bool, clock: int): System
    requires submission.question.conversation in sys.conversations
  {
    var conversation := submission.question.conversation;
    var now := Times.NextTime(Stamps(sys.rows), conversation, clock);
    var revision := sys.conversations[conversation] + 1;
    var asked := submission.question.content;
    sys.(
      rows := sys.rows + [
        Row(conversation, asked, now, FromUser),
        Row(conversation, "", now + 1,
            Reply(submission.request, approval, sys.hash(approval), asked, revision, Pending, false, action))],
      conversations := sys.conversations[conversation := revision])
  }

  function SubmitTx(sys: System, submission: Submission, action: bool, context: Context, clock: int): Result<System, Error> {
    if !Acceptable(submission.question.content) then Err(InvalidText)
    else
      var existing := Find(sys.rows, submission.request);
      if existing.Some? then
        if SameTurn(sys.rows[existing.value], submission) then Ok(sys) else Err(AlreadyBound)
      else if submission.question.conversation !in sys.conversations then Err(UnknownConversation)
      else
        var approval := Effective(sys, submission, context);
        if approval.Err? then Err(approval.error)
        else if submission.digest != sys.hash(approval.value) then Err(Stale)
        else Ok(NewTurn(sys, submission, approval.value, action, clock))
  }

  // ----- recovery and completion -----

  predicate Orphan(sys: System, k: nat) {
    k < |sys.rows| && sys.rows[k].body.Reply? && !sys.rows[k].body.action && !sys.rows[k].body.attached
  }

  /** What the queue is asked for: the row's prompt, limits and provider, validated afresh. */
  function JobOf(row: Row, accepted: bool): Option<Job>
    requires row.body.Reply?
  {
    var approval := row.body.approval;
    var request := Ledger.Prepare(Ledger.Details(approval.payload, accepted, approval.maxCost, true));
    if request.None? then None else Some(Job(row.conversation, request.value))
  }

  /** `enqueue`: idempotent per request id. */
  function EnqueueTx(sys: System, k: nat, accepted: bool): System {
    if !Orphan(sys, k) then sys
    else
      var job, request := JobOf(sys.rows[k], accepted), sys.rows[k].body.request;
      if job.None? || request in sys.jobs then sys else sys.(jobs := sys.jobs[request := job.value])
  }

  /** The queue handed the row its job back: the one under its id, which must be the one asked for. */
  function AttachTx(sys: System, k: nat): System {
    if Orphan(sys, k) && sys.rows[k].body.request in sys.jobs
       && Some(sys.jobs[sys.rows[k].body.request]) == JobOf(sys.rows[k], true)
    then WithBody(sys, k, sys.rows[k].content, sys.rows[k].body.(attached := true, status := Pending)) else sys
  }

  function WithBody(sys: System, k: nat, content: Utf8, body: Body): System
    requires k < |sys.rows|
  {
    sys.(rows := sys.rows[k := sys.rows[k].(content := content, body := body)])
  }

  function RefreshTx(sys: System, k: nat, status: Status, content: Utf8): System {
    if k < |sys.rows| && sys.rows[k].body.Reply? && sys.rows[k].body.attached
    then WithBody(sys, k, content, sys.rows[k].body.(status := status)) else sys
  }

  /** The action runner answers an action's reply itself, with whatever it has to say. */
  function ActTx(sys: System, k: nat, status: Status, content: Utf8): System {
    if k < |sys.rows| && sys.rows[k].body.Reply? && sys.rows[k].body.action
    then WithBody(sys, k, content, sys.rows[k].body.(status := status)) else sys
  }

  /** A message of background work: an owner update, or the result of a personal task, of any length. */
  function PublishTx(sys: System, conversation: Conversation, content: Utf8, clock: int): System {
    if conversation !in sys.conversations then sys
    else
      sys.(
        rows := sys.rows
          + [Row(conversation, content, Times.NextTime(Stamps(sys.rows), conversation, clock), Update)],
        conversations := sys.conversations[conversation := sys.conversations[conversation] + 1])
  }

  function Exec(sys: System, step: Step): System {
    match step
    case Create(conversation) =>
      if conversation in sys.conversations then sys else sys.(conversations := sys.conversations[conversation := 0])
    case Preview(question, sensitive, context) => (
      match PreviewTx(sys, question, sensitive, context)
      case Ok(shown) => sys.(shown := sys.shown + [shown])
      case Err(_) => sys)
    case Submit(submission, action, context, clock) => (
      match SubmitTx(sys, submission, action, context, clock)
      case Ok(next) => next
      case Err(_) => sys)
    case Enqueue(k, accepted) => EnqueueTx(sys, k, accepted)
    case Attach(k) => AttachTx(sys, k)
    case Refresh(k, status, content) => RefreshTx(sys, k, status, content)
    case Act(k, status, content) => ActTx(sys, k, status, content)
    case Publish(conversation, content, clock) => PublishTx(sys, conversation, content, clock)
    case OtherJob(request, job) => if request in sys.jobs then sys else sys.(jobs := sys.jobs[request := job])
  }

  function Run(start: System, steps: seq<Step>): System {
    if steps == [] then start else Exec(Run(start, steps[..|steps| - 1]), steps[|steps| - 1])
  }

  ghost predicate Reachable(hash: Approval -> Digest, sys: System) {
    exists steps :: sys == Run(Initial(hash), steps)
  }

  // ----- the invariant -----

  /** Stored memory never goes to the external provider. */
  predicate StaysLocal(approval: Approval) {
    Mentions(approval.payload.input) ==> approval.payload.provider == Text.Ollama
  }

  /** The queue's own validation lets it through unchanged. */
  predicate Sendable(approval: Approval) {
    Ledger.Prepare(Ledger.Details(approval.payload, true, approval.maxCost, true)) == Some(approval)
  }

  ghost predicate RowOk(sys: System, row: Row) {
    row.body.Reply? ==>
      && row.body.digest == sys.hash(row.body.approval) && StaysLocal(row.body.approval) && Sendable(row.body.approval)
      && (!row.body.attached && !row.body.action ==> row.body.status == Pending)
      && (row.body.attached ==>
            row.body.request in sys.jobs && sys.jobs[row.body.request] == Job(row.conversation, row.body.approval))
  }

  ghost predicate ShownOk(sys: System, shown: Shown) {
    && shown.digest == sys.hash(shown.approval) && StaysLocal(shown.approval)
    && shown.approval.payload.input == Prompt(Memory(shown.notes), shown.included)
  }

  ghost predicate OneRowPerRequest(rows: seq<Row>) {
    forall i, j | 0 <= i < j < |rows| && rows[i].body.Reply? && rows[j].body.Reply? ::
      rows[i].body.request != rows[j].body.request
  }

  ghost predicate Inv(sys: System) {
    && (forall row <- sys.rows :: RowOk(sys, row)) && (forall shown <- sys.shown :: ShownOk(sys, shown))
    && OneRowPerRequest(sys.rows) && Times.Chronological(Stamps(sys.rows))
  }

  /** What never changes of a row. */
  ghost predicate SameRow(before: Row, after: Row) {
    && before.conversation == after.conversation && before.createdAt == after.createdAt
    && match before.body
       case Reply(request, approval, digest, asked, revision, _, attached, action) =>
         && after.body.Reply?
         && after.body.(status := before.body.status, attached := attached) == before.body
         && (attached ==> after.body.attached)
       case _ => after == before
  }

  /** Rows are only added, jobs too, and neither changes what it is about. */
  ghost predicate Grows(before: System, after: System) {
    && before.hash == after.hash && |before.rows| <= |after.rows|
    && (forall k | 0 <= k < |before.rows| :: SameRow(before.rows[k], after.rows[k]))
    && (forall request <- before.jobs :: request in after.jobs && after.jobs[request] == before.jobs[request])
    && before.shown <= after.shown
  }

  lemma NewTurnIsOrdered(sys: System, submission: Submission, approval: Approval, action: bool, clock: int)
    requires Inv(sys) && submission.question.conversation in sys.conversations
    ensures Times.Chronological(Stamps(NewTurn(sys, submission, approval, action, clock).rows))
  {
    var rows := NewTurn(sys, submission, approval, action, clock).rows;
    var stamps := Stamps(sys.rows);
    var user, reply := Stamps(rows)[|sys.rows|], Stamps(rows)[|sys.rows| + 1];
    Times.AppendKeepsOrder(stamps, user, clock);
    assert (stamps + [user])[..|stamps|] == stamps;
    Times.AppendKeepsOrder(stamps + [user], reply, reply.createdAt);
    assert Stamps(rows) == stamps + [user] + [reply];
  }

  lemma QuoteStaysLocal(sys: System, submission: Submission, context: Context)
    requires Effective(sys, submission, context).Ok?
    ensures StaysLocal(Effective(sys, submission, context).value) && Sendable(Effective(sys, submission, context).value)
  {
  }

  lemma SubmitKeeps(sys: System, submission: Submission, action: bool, context: Context, clock: int)
    requires Inv(sys) && SubmitTx(sys, submission, action, context, clock).Ok?
    ensures Inv(SubmitTx(sys, submission, action, context, clock).value)
    ensures Grows(sys, SubmitTx(sys, submission, action, context, clock).value)
  {
    if Find(sys.rows, submission.request).None? {
      var approval := Effective(sys, submission, context).value;
      QuoteStaysLocal(sys, submission, context);
      NewTurnIsOrdered(sys, submission, approval, action, clock);
      AddedTurnKeeps(sys, submission, approval, action, clock);
    }
  }

  lemma AddedTurnKeeps(sys: System, submission: Submission, approval: Approval, action: bool, clock: int)
    requires Inv(sys) && submission.question.conversation in sys.conversations && StaysLocal(approval) && Sendable(approval)
    requires Find(sys.rows, submission.request).None?
    ensures var next := NewTurn(sys, submission, approval, action, clock);
      && (forall row <- next.rows :: RowOk(next, row)) && (forall shown <- next.shown :: ShownOk(next, shown))
      && OneRowPerRequest(next.rows) && Grows(sys, next)
  {
    var next := NewTurn(sys, submission, approval, action, clock);
    forall row <- next.rows ensures RowOk(next, row) {
      assert row in sys.rows ==> RowOk(sys, row);
    }
    forall shown <- next.shown ensures ShownOk(next, shown) {
      assert ShownOk(sys, shown);
    }
    forall k | 0 <= k < |sys.rows| ensures next.rows[k] == sys.rows[k] && !IsReply(next.rows[k], submission.request) {
      assert sys.rows[k] in sys.rows;
    }
  }

  lemma PublishKeeps(sys: System, conversation: Conversation, content: Utf8, clock: int)
    requires Inv(sys)
    ensures Inv(PublishTx(sys, conversation, content, clock)) && Grows(sys, PublishTx(sys, conversation, content, clock))
  {
    var next := PublishTx(sys, conversation, content, clock);
    if next != sys {
      var stamps, update := Stamps(sys.rows), Stamps(next.rows)[|sys.rows|];
      Times.AppendKeepsOrder(stamps, update, clock);
      assert Stamps(next.rows) == stamps + [update];
      forall row <- next.rows ensures RowOk(next, row) {
        assert row in sys.rows ==> RowOk(sys, row);
      }
      forall shown <- next.shown ensures ShownOk(next, shown) {
        assert ShownOk(sys, shown);
      }
    }
  }

  /** Changing a reply's progress keeps everything, provided what is attached is on the queue. */
  lemma BodyKeeps(sys: System, k: nat, content: Utf8, body: Body)
    requires Inv(sys) && k < |sys.rows| && sys.rows[k].body.Reply?
    requires SameRow(sys.rows[k], sys.rows[k].(content := content, body := body))
    requires RowOk(sys, sys.rows[k].(content := content, body := body))
    ensures Inv(WithBody(sys, k, content, body)) && Grows(sys, WithBody(sys, k, content, body))
  {
    var next := WithBody(sys, k, content, body);
    assert Stamps(next.rows) == Stamps(sys.rows);
    forall row <- next.rows ensures RowOk(next, row) {
      assert row in sys.rows ==> RowOk(sys, row);
    }
    forall shown <- next.shown ensures ShownOk(next, shown) {
      assert ShownOk(sys, shown);
    }
  }

  lemma JobsKeep(sys: System, jobs: map<RequestId, Job>)
    requires Inv(sys) && forall request <- sys.jobs :: request in jobs && jobs[request] == sys.jobs[request]
    ensures Inv(sys.(jobs := jobs)) && Grows(sys, sys.(jobs := jobs))
  {
    var next := sys.(jobs := jobs);
    forall row <- next.rows ensures RowOk(next, row) {
      assert RowOk(sys, row);
    }
    forall shown <- next.shown ensures ShownOk(next, shown) {
      assert ShownOk(sys, shown);
    }
  }

  lemma PreviewKeeps(sys: System, question: Question, sensitive: bool, context: Context)
    requires Inv(sys)
    ensures var next := Exec(sys, Preview(question, sensitive, context));
      Inv(next) && Grows(sys, next)
  {
    var shown := PreviewTx(sys, question, sensitive, context);
    var next := Exec(sys, Preview(question, sensitive, context));
    if shown.Ok? {
      assert ShownOk(sys, shown.value);
      forall s <- next.shown ensures ShownOk(next, s) {
        assert ShownOk(sys, s);
      }
      forall row <- next.rows ensures RowOk(next, row) {
        assert RowOk(sys, row);
      }
    }
  }

  /** A stored approval is still valid when it reaches the queue. */
  lemma RequestIsUnchanged(row: Row, accepted: bool)
    requires row.body.Reply? && Sendable(row.body.approval)
    ensures JobOf(row, accepted) == if accepted then Some(Job(row.conversation, row.body.approval)) else None
  {
  }

  lemma ExecKeeps(sys: System, step: Step)
    requires Inv(sys)
    ensures Inv(Exec(sys, step)) && Grows(sys, Exec(sys, step))
  {
    match step
    case Create(_) => CreateKeeps(sys, step);
    case Preview(question, sensitive, context) => PreviewKeeps(sys, question, sensitive, context);
    case Submit(submission, action, context, clock) =>
      if SubmitTx(sys, submission, action, context, clock).Ok? {
        SubmitKeeps(sys, submission, action, context, clock);
      }
    case Enqueue(k, accepted) => JobsKeep(sys, EnqueueTx(sys, k, accepted).jobs);
    case Attach(k) => AttachKeeps(sys, k);
    case Refresh(k, status, content) => RefreshKeeps(sys, k, status, content);
    case Act(k, status, content) => ActKeeps(sys, k, status, content);
    case Publish(conversation, content, clock) => PublishKeeps(sys, conversation, content, clock);
    case OtherJob(request, job) => JobsKeep(sys, Exec(sys, step).jobs);
  }

  lemma CreateKeeps(sys: System, step: Step)
    requires Inv(sys) && step.Create?
    ensures Inv(Exec(sys, step)) && Grows(sys, Exec(sys, step))
  {
    var next := Exec(sys, step);
    forall row <- next.rows ensures RowOk(next, row) {
      assert RowOk(sys, row);
    }
    forall shown <- next.shown ensures ShownOk(next, shown) {
      assert ShownOk(sys, shown);
    }
  }

  lemma AttachKeeps(sys: System, k: nat)
    requires Inv(sys)
    ensures Inv(AttachTx(sys, k)) && Grows(sys, AttachTx(sys, k))
  {
    if Orphan(sys, k) {
      assert RowOk(sys, sys.rows[k]);
      RequestIsUnchanged(sys.rows[k], true);
      if AttachTx(sys, k) != sys {
        BodyKeeps(sys, k, sys.rows[k].content, sys.rows[k].body.(attached := true, status := Pending));
      }
    }
  }

  lemma RefreshKeeps(sys: System, k: nat, status: Status, content: Utf8)
    requires Inv(sys)
    ensures Inv(RefreshTx(sys, k, status, content)) && Grows(sys, RefreshTx(sys, k, status, content))
  {
    if k < |sys.rows| && sys.rows[k].body.Reply? && sys.rows[k].body.attached {
      assert RowOk(sys, sys.rows[k]);
      BodyKeeps(sys, k, content, sys.rows[k].body.(status := status));
    }
  }

  lemma ActKeeps(sys: System, k: nat, status: Status, content: Utf8)
    requires Inv(sys)
    ensures Inv(ActTx(sys, k, status, content)) && Grows(sys, ActTx(sys, k, status, content))
  {
    if k < |sys.rows| && sys.rows[k].body.Reply? && sys.rows[k].body.action {
      assert RowOk(sys, sys.rows[k]);
      BodyKeeps(sys, k, content, sys.rows[k].body.(status := status));
    }
  }

  lemma GrowsTrans(a: System, b: System, c: System)
    requires Grows(a, b) && Grows(b, c)
    ensures Grows(a, c)
  {
    forall k | 0 <= k < |a.rows| ensures SameRow(a.rows[k], c.rows[k]) {
      assert SameRow(a.rows[k], b.rows[k]) && SameRow(b.rows[k], c.rows[k]);
    }
  }

  lemma {:induction false} RunKeeps(start: System, steps: seq<Step>)
    requires Inv(start)
    ensures Inv(Run(start, steps)) && Grows(start, Run(start, steps))
  {
    if steps != [] {
      var before := Run(start, steps[..|steps| - 1]);
      RunKeeps(start, steps[..|steps| - 1]);
      ExecKeeps(before, steps[|steps| - 1]);
      GrowsTrans(start, before, Run(start, steps));
    }
  }

  lemma ReachableInv(hash: Approval -> Digest, sys: System)
    requires Reachable(hash, sys)
    ensures Inv(sys) && sys.hash == hash
  {
    var steps :| sys == Run(Initial(hash), steps);
    assert Stamps([]) == [];
    RunKeeps(Initial(hash), steps);
  }

  /** A row but for whether it is on the queue yet. */
  function Unattached(row: Row): Row {
    if row.body.Reply? then row.(body := row.body.(attached := false)) else row
  }

  /** The same conversations and turns, whatever recovery has done in between. */
  ghost predicate SameTurns(a: System, b: System) {
    && a.hash == b.hash && a.conversations == b.conversations && |a.rows| == |b.rows|
    && forall k | 0 <= k < |a.rows| :: Unattached(a.rows[k]) == Unattached(b.rows[k])
  }

  lemma {:induction false} SameHistory(a: seq<Row>, b: seq<Row>, conversation: Conversation)
    requires |a| == |b| && forall k | 0 <= k < |a| :: Unattached(a[k]) == Unattached(b[k])
    ensures History(a, conversation) == History(b, conversation)
  {
    if a != [] {
      SameHistory(a[..|a| - 1], b[..|b| - 1], conversation);
      assert Unattached(a[|a| - 1]) == Unattached(b[|b| - 1]);
    }
  }

  lemma {:induction false} SameFind(a: seq<Row>, b: seq<Row>, request: RequestId)
    requires |a| == |b| && forall k | 0 <= k < |a| :: Unattached(a[k]) == Unattached(b[k])
    ensures Find(a, request) == Find(b, request)
  {
    if a != [] {
      SameFind(a[..|a| - 1], b[..|b| - 1], request);
      assert Unattached(a[|a| - 1]) == Unattached(b[|b| - 1]);
    }
  }

  /** Recovery in between changes no verdict on a preview or a submission. */
  lemma RecoveryChangesNoVerdict(a: System, b: System, question: Question, context: Context)
    requires SameTurns(a, b)
    ensures forall sensitive :: PreviewTx(a, question, sensitive, context) == PreviewTx(b, question, sensitive, context)
    ensures forall submission: Submission | submission.question == question ::
      Effective(a, submission, context) == Effective(b, submission, context)
  {
    SameHistory(a.rows, b.rows, question.conversation);
    assert PromptFor(a, question, context.notes) == PromptFor(b, question, context.notes);
  }

  lemma SameVerdict(a: System, b: System, submission: Submission, action: bool, context: Context, clock: int)
    requires SameTurns(a, b)
    ensures var x, y := SubmitTx(a, submission, action, context, clock), SubmitTx(b, submission, action, context, clock);
      (x.Ok? <==> y.Ok?) && (x.Err? && y.Err? ==> x.error == y.error)
  {
    RecoveryChangesNoVerdict(a, b, submission.question, context);
    SameFind(a.rows, b.rows, submission.request);
    var found := Find(a.rows, submission.request);
    if found.Some? {
      assert Unattached(a.rows[found.value]) == Unattached(b.rows[found.value]);
    }
  }

  /** Recovering a row is such a step. */
  lemma RecoverKeepsTurns(sys: System, k: nat, accepted: bool)
    requires Inv(sys)
    ensures SameTurns(sys, AttachTx(EnqueueTx(sys, k, accepted), k))
  {
    if k < |sys.rows| {
      assert RowOk(sys, sys.rows[k]);
    }
  }

  // ----- the claims -----

  /** No two approvals share a digest. */
  ghost predicate CollisionFree(hash: Approval -> Digest) {
    forall a, b :: hash(a) == hash(b) ==> a == b
  }

  /**
   Whatever a chat turn has on the queue is what a preview with its digest showed: the prompt, made of the turns
   displayed, the limits and the provider. This holds however often submission and recovery were repeated.
  */
  lemma EnqueuedIsWhatWasShown(hash: Approval -> Digest, sys: System, k: nat, shown: Shown)
    requires Reachable(hash, sys) && CollisionFree(hash) && shown in sys.shown
    requires k < |sys.rows| && sys.rows[k].body.Reply? && sys.rows[k].body.attached
    requires sys.rows[k].body.digest == shown.digest
    ensures var request := sys.rows[k].body.request;
      && request in sys.jobs && sys.jobs[request] == Job(sys.rows[k].conversation, shown.approval)
      && sys.jobs[request].approved.payload.input == Prompt(Memory(shown.notes), shown.included)
  {
    ReachableInv(hash, sys);
    assert RowOk(sys, sys.rows[k]) && ShownOk(sys, shown);
  }

  /** A prompt that quotes the owner's stored memory is only ever shown for, and put on the queue for, the local model. */
  lemma MemoryStaysOnTheLocalModel(hash: Approval -> Digest, sys: System)
    requires Reachable(hash, sys)
    ensures forall shown <- sys.shown | shown.notes != [] :: shown.approval.payload.provider == Text.Ollama
    ensures forall row <- sys.rows | row.body.Reply? && row.body.attached && Mentions(row.body.approval.payload.input) ::
      row.body.request in sys.jobs && sys.jobs[row.body.request].approved.payload.provider == Text.Ollama
  {
    ReachableInv(hash, sys);
    forall shown <- sys.shown | shown.notes != [] ensures shown.approval.payload.provider == Text.Ollama {
      assert ShownOk(sys, shown);
      MemoryIsMentioned(shown.notes, shown.included);
    }
    forall row <- sys.rows ensures RowOk(sys, row) {
    }
  }

  /** A new turn is stored exactly under the digest of what would be sent now, and then only that is stored. */
  lemma StoredUnderTheCurrentPrompt(
    hash: Approval -> Digest, sys: System, submission: Submission, action: bool, context: Context, clock: int)
    requires Reachable(hash, sys) && CollisionFree(hash) && Find(sys.rows, submission.request).None?
    ensures var tx := SubmitTx(sys, submission, action, context, clock);
      var approval := Effective(sys, submission, context);
      && (tx.Ok? <==>
            && Acceptable(submission.question.content) && submission.question.conversation in sys.conversations
            && approval.Ok? && submission.digest == hash(approval.value))
      && (tx.Ok? ==> forall shown <- sys.shown | shown.digest == submission.digest ::
            && shown.approval == approval.value
            && PromptFor(sys, submission.question, context.notes).value.1 == Prompt(Memory(shown.notes), shown.included))
  {
    ReachableInv(hash, sys);
    forall shown <- sys.shown | shown.digest == submission.digest ensures ShownOk(sys, shown) {
    }
  }

  /** A preview is refused as stale as soon as the prompt it showed is no longer the one that would be sent. */
  lemma StalePreviewIsRefused(
    hash: Approval -> Digest, sys: System, shown: Shown, submission: Submission, action: bool, context: Context, clock: int)
    requires Reachable(hash, sys) && CollisionFree(hash) && shown in sys.shown && submission.digest == shown.digest
    requires Find(sys.rows, submission.request).None?
    requires var packed := PromptFor(sys, submission.question, context.notes);
      packed.None? || packed.value.1 != Prompt(Memory(shown.notes), shown.included)
    ensures SubmitTx(sys, submission, action, context, clock).Err?
  {
    StoredUnderTheCurrentPrompt(hash, sys, submission, action, context, clock);
  }

  lemma FindIsUnique(rows: seq<Row>, request: RequestId, k: nat)
    requires OneRowPerRequest(rows) && k < |rows| && IsReply(rows[k], request)
    ensures Find(rows, request) == Some(k)
  {
    assert rows[k] in rows;
  }

  /** A request id belongs to one turn for good: repeating it changes nothing, and it succeeds only for the same turn. */
  lemma RequestIsBound(
    hash: Approval -> Digest, start: System, steps: seq<Step>, k: nat, submission: Submission,
    action: bool, context: Context, clock: int)
    requires Reachable(hash, start) && k < |start.rows| && IsReply(start.rows[k], submission.request)
    requires Acceptable(submission.question.content)
    ensures var sys := Run(start, steps);
      var tx := SubmitTx(sys, submission, action, context, clock);
      && k < |sys.rows| && (tx == Ok(sys) || tx == Err(AlreadyBound))
      && (tx == Ok(sys) <==>
            var row, question := start.rows[k], submission.question;
            && row.conversation == question.conversation && row.body.asked == question.content
            && row.body.digest == submission.digest
            && row.body.approval.payload.maxOutputTokens == question.maxOutput && row.body.approval.maxCost == question.maxCost)
  {
    ReachableInv(hash, start);
    RunKeeps(start, steps);
    var sys := Run(start, steps);
    assert SameRow(start.rows[k], sys.rows[k]);
    FindIsUnique(sys.rows, submission.request, k);
  }

  /** Over any run rows stay, approvals do not change, attached turns keep their job, and times only go up. */
  lemma TurnsAreForever(hash: Approval -> Digest, start: System, steps: seq<Step>)
    requires Reachable(hash, start)
    ensures Grows(start, Run(start, steps))
    ensures var rows := Run(start, steps).rows;
      forall i, j | 0 <= i < j < |rows| && rows[i].conversation == rows[j].conversation :: rows[i].createdAt < rows[j].createdAt
  {
    ReachableInv(hash, start);
    RunKeeps(start, steps);
    var rows := Run(start, steps).rows;
    forall i, j | 0 <= i < j < |rows| && rows[i].conversation == rows[j].conversation
      ensures rows[i].createdAt < rows[j].createdAt
    {
      assert Stamps(rows)[i].createdAt < Stamps(rows)[j].createdAt;
    }
  }

  /** An accepted message is never turned away for want of room. */
  lemma RoomForEveryMessage(sys: System, question: Question, sensitive: bool, context: Context)
    requires Snippets(context.notes)
    ensures PreviewTx(sys, question, sensitive, context) != Err(NoRoom)
    ensures forall submission: Submission, action, clock ::
      SubmitTx(sys, submission.(question := question), action, context, clock) != Err(NoRoom)
  {
    if Acceptable(question.content) {
      AcceptedMessageFits(context.notes, question.content);
      PackIsLongest(Memory(context.notes), History(sys.rows, question.conversation), question.content);
    }
  }

  /** After a new turn the next prompt draws on its message too, but not on the pending reply. */
  lemma HistoryAfterTurn(sys: System, submission: Submission, approval: Approval, action: bool, clock: int)
    requires submission.question.conversation in sys.conversations
    ensures History(NewTurn(sys, submission, approval, action, clock).rows, submission.question.conversation) ==
      History(sys.rows, submission.question.conversation) + [Turn(User, submission.question.content)]
  {
    var rows := NewTurn(sys, submission, approval, action, clock).rows;
    assert rows[..|rows| - 1][..|rows| - 2] == sys.rows;
  }

  lemma ReachableStep(hash: Approval -> Digest, sys: System, step: Step)
    requires Reachable(hash, sys)
    ensures Reachable(hash, Exec(sys, step))
  {
    var steps :| sys == Run(Initial(hash), steps);
    assert (steps + [step])[..|steps|] == steps;
    assert Run(Initial(hash), steps + [step]) == Exec(sys, step);
  }
}
