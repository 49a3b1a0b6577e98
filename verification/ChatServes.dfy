/**
 How often one preview serves (chat_api.py): the approved digest binds the text of the prompt, the limits and the
 provider, and neither the request, the conversation nor its revision. So a later request is stored under the digest
 of an earlier turn exactly when what it would send is the same again, whatever happened in between.
*/
module ChatServes {
  import opened Wrappers
  import opened Json
  import opened ChatPrompt
  import opened ChatRepeats
  import opened ChatRuns
  import Ledger = ModelLedger
  import Text = OpenAiText
  import Times = OwnerUpdates

  /** The provider a prompt is sent to. */
  function ProviderOf(prompt: Utf8, submission: Submission, context: Context): Text.Provider {
    if Mentions(prompt) then Text.Ollama
    else if submission.provider.Some? then submission.provider.value else context.route
  }

  /** The text is not turned away, and memory is not asked to leave the local model. */
  predicate LetThrough(prompt: Utf8, submission: Submission, context: Context) {
    context.accepted && !(Mentions(prompt) && submission.provider == Some(Text.OpenAi))
  }

  /** The same limits and provider as an earlier submission had for this prompt, and no objection now. */
  predicate SameTerms(prompt: Utf8, first: Submission, context: Context, second: Submission, other: Context) {
    && second.question.maxOutput == first.question.maxOutput && second.question.maxCost == first.question.maxCost
    && ProviderOf(prompt, second, other) == ProviderOf(prompt, first, context) && LetThrough(prompt, second, other)
  }

  lemma EffectiveIs(sys: System, submission: Submission, context: Context)
    ensures var packed, approval := PromptFor(sys, submission.question, context.notes), Effective(sys, submission, context);
      && (approval.Ok? ==> packed.Some? && LetThrough(packed.value.1, submission, context))
      && (packed.Some? && LetThrough(packed.value.1, submission, context) ==>
            var payload := Text.Payload(
              ProviderOf(packed.value.1, submission, context), packed.value.1, submission.question.maxOutput);
            var request := Ledger.Prepare(Ledger.Details(payload, true, submission.question.maxCost, true));
            approval == if request.Some? then Ok(request.value) else Err(Rejected))
  {
  }

  /** Two submissions, in any states and contexts, have one approval exactly when they send one text on one set of terms. */
  lemma SameApprovalExactlyWhen(
    a: System, first: Submission, context: Context, b: System, second: Submission, other: Context)
    requires Effective(a, first, context).Ok?
    ensures PromptFor(a, first.question, context.notes).Some?
    ensures var prompt := PromptFor(a, first.question, context.notes).value.1;
      var now := PromptFor(b, second.question, other.notes);
      Effective(b, second, other) == Effective(a, first, context) <==>
        now.Some? && now.value.1 == prompt && SameTerms(prompt, first, context, second, other)
  {
    EffectiveIs(a, first, context);
    EffectiveIs(b, second, other);
  }

  lemma ExecKeepsPlaces(sys: System, step: Step)
    ensures Exec(sys, step).hash == sys.hash
    ensures forall c <- sys.conversations :: c in Exec(sys, step).conversations
  {
  }

  lemma {:induction false} RunKeepsPlaces(start: System, steps: seq<Step>)
    ensures Run(start, steps).hash == start.hash
    ensures forall c <- start.conversations :: c in Run(start, steps).conversations
  {
    if steps != [] {
      RunKeepsPlaces(start, steps[..|steps| - 1]);
      ExecKeepsPlaces(Run(start, steps[..|steps| - 1]), steps[|steps| - 1]);
    }
  }

  /** A request the queue takes: accepted text and a cap in range, and for a paid model the limits and the hold, too. */
  predicate Payable(approval: Approval, accepted: bool) {
    && accepted && 1 <= approval.maxCost <= 1_000_000
    && (approval.payload.provider == Text.OpenAi ==>
          && 1 <= |approval.payload.input| <= 4096 && 1 <= approval.payload.maxOutputTokens <= 1024
          && Text.Reservation(approval.payload) <= approval.maxCost)
  }

  /** As many of the last turns as fit into 4096 bytes, and at least one. */
  ghost predicate LongestEnd(memory: Utf8, turns: seq<Turn>, included: seq<Turn>) {
    && 0 < |included| <= |turns| && included == turns[|turns| - |included|..] && |Prompt(memory, included)| <= 4096
    && (|included| < |turns| ==> |Prompt(memory, turns[|turns| - |included| - 1..])| > 4096)
  }

  /**
   Exactly what a preview shows: the longest end of the conversation that fits, with the message; that prompt for the
   local model if it is sensitive or mentions stored memory, and else for the route in force; and the digest of it.
  */
  lemma PreviewedExactlyWhen(sys: System, question: Question, sensitive: bool, context: Context, shown: Shown)
    ensures var prompt := Prompt(Memory(context.notes), shown.included);
      PreviewTx(sys, question, sensitive, context) == Ok(shown) <==>
        && 1 <= |question.content| <= 2048 && question.conversation in sys.conversations && shown.notes == context.notes
        && LongestEnd(
             Memory(context.notes), AllTurns(History(sys.rows, question.conversation), question.content), shown.included)
        && shown.approval.payload == Text.Payload(
             if sensitive || Mentions(prompt) then Text.Ollama else context.route, prompt, question.maxOutput)
        && shown.approval.maxCost == question.maxCost && Payable(shown.approval, context.accepted)
        && shown.digest == sys.hash(shown.approval)
  {
    var prompt := Prompt(Memory(context.notes), shown.included);
    PackedExactlyWhen(Memory(context.notes), History(sys.rows, question.conversation), question.content, shown.included);
    QuotedExactlyWhen(
      prompt, question, if sensitive || Mentions(prompt) then Some(Text.Ollama) else None, context, shown.approval);
  }

  lemma QuotedExactlyWhen(
    prompt: Utf8, question: Question, provider: Option<Text.Provider>, context: Context, approval: Approval)
    ensures Quote(prompt, question, provider, context) == Some(approval) <==>
      && approval.payload == Text.Payload(if provider.Some? then provider.value else context.route, prompt, question.maxOutput)
      && approval.maxCost == question.maxCost && Payable(approval, context.accepted)
  {
  }

  /** So what is sensitive, or quotes stored memory, is only ever quoted for the local model. */
  lemma SensitiveStaysLocal(sys: System, question: Question, sensitive: bool, context: Context)
    requires PreviewTx(sys, question, sensitive, context).Ok? && (sensitive || context.notes != [])
    ensures PreviewTx(sys, question, sensitive, context).value.approval.payload.provider == Text.Ollama
  {
    var shown := PreviewTx(sys, question, sensitive, context).value;
    PreviewedExactlyWhen(sys, question, sensitive, context, shown);
    if context.notes != [] {
      MemoryIsMentioned(context.notes, shown.included);
    }
  }

  /**
   What a new turn stores: the message at the least time at or after the clock and after all else in its conversation,
   the pending reply right behind it with everything it was approved with, and the next revision.
  */
  lemma TurnIsStored(sys: System, submission: Submission, action: bool, context: Context, clock: int)
    requires Find(sys.rows, submission.request).None? && SubmitTx(sys, submission, action, context, clock).Ok?
    ensures var next, question := SubmitTx(sys, submission, action, context, clock).value, submission.question;
      && question.conversation in sys.conversations && Effective(sys, submission, context).Ok?
      && next == sys.(rows := next.rows, conversations :=
           sys.conversations[question.conversation := sys.conversations[question.conversation] + 1])
      && |next.rows| == |sys.rows| + 2 && next.rows[..|sys.rows|] == sys.rows
      && var message, reply := next.rows[|sys.rows|], next.rows[|sys.rows| + 1];
         && message == Row(question.conversation, question.content, message.createdAt, FromUser)
         && reply == Row(
              question.conversation, "", message.createdAt + 1,
              Reply(submission.request, Effective(sys, submission, context).value, submission.digest, question.content,
                    sys.conversations[question.conversation] + 1, Pending, false, action))
         && Times.After(Stamps(sys.rows), question.conversation, clock, message.createdAt)
         && forall t | Times.After(Stamps(sys.rows), question.conversation, clock, t) :: message.createdAt <= t
  {
    var conversation := submission.question.conversation;
    Times.NextTimeIsLeast(Stamps(sys.rows), conversation, clock);
    NewTurnExactlyWhen(sys, submission, action, context, clock);
    NewTurnIs(sys, submission, Effective(sys, submission, context).value, action, clock);
  }

  lemma NewTurnIs(sys: System, submission: Submission, approval: Approval, action: bool, clock: int)
    requires submission.question.conversation in sys.conversations
    ensures var next, question := NewTurn(sys, submission, approval, action, clock), submission.question;
      var now, revision :=
        Times.NextTime(Stamps(sys.rows), question.conversation, clock), sys.conversations[question.conversation] + 1;
      && next == sys.(rows := next.rows, conversations := sys.conversations[question.conversation := revision])
      && |next.rows| == |sys.rows| + 2 && next.rows[..|sys.rows|] == sys.rows
      && next.rows[|sys.rows|] == Row(question.conversation, question.content, now, FromUser)
      && next.rows[|sys.rows| + 1] == Row(
           question.conversation, "", now + 1,
           Reply(submission.request, approval, sys.hash(approval), question.content, revision, Pending, false, action))
  {
  }

  /**
   What reaches a conversation besides turns: the action runner's answer to its own reply, what the queue reports of a
   job that was attached, and messages of background work, each the last of its conversation.
  */
  lemma AnswersExactly(sys: System, k: nat, status: Status, content: Utf8, conversation: Conversation, clock: int)
    ensures var answers := k < |sys.rows| && sys.rows[k].body.Reply? && sys.rows[k].body.action;
      Exec(sys, Act(k, status, content)) == if answers then Answered(sys, k, status, content) else sys
    ensures var reports := k < |sys.rows| && sys.rows[k].body.Reply? && sys.rows[k].body.attached;
      Exec(sys, Refresh(k, status, content)) == if reports then Answered(sys, k, status, content) else sys
    ensures var next := Exec(sys, Publish(conversation, content, clock));
      if conversation !in sys.conversations then next == sys
      else
        && next == sys.(rows := next.rows, conversations := sys.conversations[conversation := sys.conversations[conversation] + 1])
        && |next.rows| == |sys.rows| + 1 && next.rows[..|sys.rows|] == sys.rows
        && next.rows[|sys.rows|] == Row(conversation, content, next.rows[|sys.rows|].createdAt, Update)
        && Times.After(Stamps(sys.rows), conversation, clock, next.rows[|sys.rows|].createdAt)
  {
    Times.NextTimeIsLeast(Stamps(sys.rows), conversation, clock);
  }

  function Answered(sys: System, k: nat, status: Status, content: Utf8): System
    requires k < |sys.rows| && sys.rows[k].body.Reply?
  {
    sys.(rows := sys.rows[k := sys.rows[k].(content := content, body := sys.rows[k].body.(status := status))])
  }

  /** A first turn was stored, then came any steps, and now comes a new request under the same digest. */
  ghost predicate Resubmitted(
    hash: Approval -> Digest, sys: System, first: Submission, action: bool, context: Context, clock: int,
    steps: seq<Step>, second: Submission)
  {
    && sys.hash == hash && CollisionFree(hash)
    && SubmitTx(sys, first, action, context, clock).Ok? && Find(sys.rows, first.request).None?
    && Find(Later(sys, first, action, context, clock, steps).rows, second.request).None?
    && second.digest == first.digest
  }

  function Later(
    sys: System, first: Submission, action: bool, context: Context, clock: int, steps: seq<Step>): System
    requires SubmitTx(sys, first, action, context, clock).Ok?
  {
    Run(SubmitTx(sys, first, action, context, clock).value, steps)
  }

  /** What the first turn was approved with. */
  function ApprovedPrompt(sys: System, first: Submission, action: bool, context: Context, clock: int): (seq<Turn>, Utf8)
    requires SubmitTx(sys, first, action, context, clock).Ok? && Find(sys.rows, first.request).None?
  {
    PromptFor(sys, first.question, context.notes).value
  }

  lemma NewTurnExactlyWhen(sys: System, submission: Submission, action: bool, context: Context, clock: int)
    requires Find(sys.rows, submission.request).None?
    ensures SubmitTx(sys, submission, action, context, clock).Ok? <==>
      && Acceptable(submission.question.content) && submission.question.conversation in sys.conversations
      && Effective(sys, submission, context).Ok? && submission.digest == sys.hash(Effective(sys, submission, context).value)
  {
  }

  /**
   Exactly when one preview serves again. After any steps whatever, another request under the digest of a stored
   turn, with any message in any conversation and context, is accepted if and only if it would send the approved
   text on the approved terms.
  */
  lemma ServesAgainExactlyWhen(
    hash: Approval -> Digest, sys: System, first: Submission, action: bool, context: Context, clock: int,
    steps: seq<Step>, second: Submission, again: bool, other: Context, later: int)
    requires Resubmitted(hash, sys, first, action, context, clock, steps, second)
    ensures var prompt := ApprovedPrompt(sys, first, action, context, clock).1;
      var reached := Later(sys, first, action, context, clock, steps);
      var now := PromptFor(reached, second.question, other.notes);
      SubmitTx(reached, second, again, other, later).Ok? <==>
        && Acceptable(second.question.content) && second.question.conversation in reached.conversations
        && now.Some? && now.value.1 == prompt && SameTerms(prompt, first, context, second, other)
  {
    RunKeepsPlaces(SubmitTx(sys, first, action, context, clock).value, steps);
    NewTurnExactlyWhen(sys, first, action, context, clock);
    NewTurnExactlyWhen(Later(sys, first, action, context, clock, steps), second, again, other, later);
    SameApprovalExactlyWhen(sys, first, context, Later(sys, first, action, context, clock, steps), second, other);
  }

  lemma SameTermsAgain(sys: System, first: Submission, second: RequestId, context: Context, notes: seq<Utf8>)
    requires Effective(sys, first, context).Ok?
    ensures PromptFor(sys, first.question, context.notes).Some?
    ensures var prompt := PromptFor(sys, first.question, context.notes).value.1;
      SameTerms(prompt, first, context, first.(request := second), context.(notes := notes))
  {
    EffectiveIs(sys, first, context);
  }

  /** The same message again, in a context that differs at most in the notes retrieved: the prompt alone decides. */
  lemma SameMessageServesAgainExactlyWhen(
    hash: Approval -> Digest, sys: System, first: Submission, action: bool, context: Context, clock: int,
    steps: seq<Step>, second: RequestId, again: bool, notes: seq<Utf8>, later: int)
    requires Resubmitted(hash, sys, first, action, context, clock, steps, first.(request := second))
    ensures var reached := Later(sys, first, action, context, clock, steps);
      var now := PromptFor(reached, first.question, notes);
      SubmitTx(reached, first.(request := second), again, context.(notes := notes), later).Ok? <==>
        now.Some? && now.value.1 == ApprovedPrompt(sys, first, action, context, clock).1
  {
    SameTermsAgain(sys, first, second, context, notes);
    RunKeepsPlaces(SubmitTx(sys, first, action, context, clock).value, steps);
    ServesAgainExactlyWhen(
      hash, sys, first, action, context, clock, steps, first.(request := second), again, context.(notes := notes), later);
  }

  /**
   What a caller can check among single lines. The request is accepted if and only if it quotes the same memory on
   the same terms, and the turns the preview showed are, with the new message last, the longest end of its
   conversation that fits: they are its last turns as it stands now, and one more in front would not fit.
  */
  lemma LinesServeAgainExactlyWhen(
    hash: Approval -> Digest, sys: System, first: Submission, action: bool, context: Context, clock: int,
    steps: seq<Step>, second: Submission, again: bool, other: Context, later: int)
    requires Resubmitted(hash, sys, first, action, context, clock, steps, second)
    requires var reached := Later(sys, first, action, context, clock, steps);
      && SingleLines(History(sys.rows, first.question.conversation)) && '\n' !in first.question.content
      && SingleLines(History(reached.rows, second.question.conversation)) && '\n' !in second.question.content
      && TellableMemory(context.notes, other.notes)
    ensures var (included, prompt) := ApprovedPrompt(sys, first, action, context, clock);
      var reached := Later(sys, first, action, context, clock, steps);
      SubmitTx(reached, second, again, other, later).Ok? <==>
        && Acceptable(second.question.content) && second.question.conversation in reached.conversations
        && Memory(other.notes) == Memory(context.notes) && SameTerms(prompt, first, context, second, other)
        && LongestSuffix(
             Memory(other.notes), AllTurns(History(reached.rows, second.question.conversation), second.question.content), included)
  {
    var reached := Later(sys, first, action, context, clock, steps);
    EffectiveIs(sys, first, context);
    ServesAgainExactlyWhen(hash, sys, first, action, context, clock, steps, second, again, other, later);
    SamePromptOfAnyLines(
      context.notes, History(sys.rows, first.question.conversation), first.question.content,
      other.notes, History(reached.rows, second.question.conversation), second.question.content);
  }

  /** The last turns of a conversation as it stands, with a message. */
  function End(sys: System, question: Question, n: nat): seq<Turn>
    requires n <= |History(sys.rows, question.conversation)| + 1
  {
    EndOf(History(sys.rows, question.conversation), question.content, n)
  }

  lemma LongerEndIsSent(sys: System, question: Question, notes: seq<Utf8>, n: nat)
    requires n <= |History(sys.rows, question.conversation)| + 1 && Fits(Memory(notes), End(sys, question, n))
    requires PromptFor(sys, question, notes).Some?
    ensures |Prompt(Memory(notes), End(sys, question, n))| <= |PromptFor(sys, question, notes).value.1|
  {
    LongerEndIsPacked(Memory(notes), History(sys.rows, question.conversation), question.content, n);
  }

  /**
   Whatever the lines: while some end of the conversation as it stands, with the message, fits and makes a longer
   prompt than the approved one, the request is refused.
  */
  lemma RefusedWhileMoreFits(
    hash: Approval -> Digest, sys: System, first: Submission, action: bool, context: Context, clock: int,
    steps: seq<Step>, second: Submission, again: bool, other: Context, later: int, n: nat)
    requires Resubmitted(hash, sys, first, action, context, clock, steps, second)
    requires var reached := Later(sys, first, action, context, clock, steps);
      && n <= |History(reached.rows, second.question.conversation)| + 1
      && Fits(Memory(other.notes), End(reached, second.question, n))
      && |Prompt(Memory(other.notes), End(reached, second.question, n))|
           > |ApprovedPrompt(sys, first, action, context, clock).1|
    ensures SubmitTx(Later(sys, first, action, context, clock, steps), second, again, other, later).Err?
  {
    var reached := Later(sys, first, action, context, clock, steps);
    ServesAgainExactlyWhen(hash, sys, first, action, context, clock, steps, second, again, other, later);
    if PromptFor(reached, second.question, other.notes).Some? {
      LongerEndIsSent(reached, second.question, other.notes, n);
    }
  }

  // ----- while everything said since fits -----

  /** It is part of the conversation. */
  predicate Said(row: Row) {
    row.body.Reply? ==> row.body.status == Complete
  }

  /** Nothing that was said is taken back or changed; pending replies may have been completed. */
  ghost predicate StillSaid(before: seq<Row>, after: seq<Row>) {
    && |before| <= |after|
    && forall k | 0 <= k < |before| ::
         && SameRow(before[k], after[k]) && (Said(before[k]) ==> Said(after[k]) && after[k].content == before[k].content)
  }

  lemma {:induction false} HistoryConcat(a: seq<Row>, b: seq<Row>, conversation: Conversation)
    ensures History(a + b, conversation) == History(a, conversation) + History(b, conversation)
    decreases |b|
  {
    if b == [] {
      assert a + b == a;
    } else {
      assert (a + b)[..|a + b| - 1] == a + b[..|b| - 1];
      HistoryConcat(a, b[..|b| - 1], conversation);
    }
  }

  /** What a row adds to the conversation it belongs to: what was said in it, by the owner or else by Leon. */
  lemma OneRowExactly(row: Row, conversation: Conversation)
    ensures History([row], conversation) ==
      if row.conversation == conversation && Said(row)
      then [Turn(if row.body.FromUser? then User else Assistant, row.content)] else []
  {
    assert [row][..0] == [] && History([], conversation) == [];
  }

  /** What is still said takes at least as much room, whatever was completed in between. */
  lemma {:induction false} StillSaidIsNoShorter(before: seq<Row>, after: seq<Row>, conversation: Conversation)
    requires |before| == |after| && StillSaid(before, after)
    ensures |Rendered(History(before, conversation))| <= |Rendered(History(after, conversation))|
  {
    if before != [] {
      var n := |before| - 1;
      StillSaidIsNoShorter(before[..n], after[..n], conversation);
      LastAdds(before, conversation);
      LastAdds(after, conversation);
      OneStillSaid(before[n], after[n], conversation);
    }
  }

  lemma LastAdds(rows: seq<Row>, conversation: Conversation)
    requires rows != []
    ensures var earlier, last := rows[..|rows| - 1], [rows[|rows| - 1]];
      |Rendered(History(rows, conversation))| ==
        |Rendered(History(earlier, conversation))| + |Rendered(History(last, conversation))|
  {
    var earlier, last := rows[..|rows| - 1], [rows[|rows| - 1]];
    assert rows == earlier + last;
    HistoryConcat(earlier, last, conversation);
    RenderedConcat(History(earlier, conversation), History(last, conversation));
  }

  lemma OneStillSaid(before: Row, after: Row, conversation: Conversation)
    requires SameRow(before, after) && (Said(before) ==> Said(after) && after.content == before.content)
    ensures |Rendered(History([before], conversation))| <= |Rendered(History([after], conversation))|
  {
    assert [before][..0] == [] && [after][..0] == [];
    assert History([], conversation) == [];
    assert Said(before) && before.conversation == conversation ==>
      History([before], conversation) == History([after], conversation);
    assert !(Said(before) && before.conversation == conversation) ==> History([before], conversation) == [];
  }

  /** The turns a preview shows begin at some row. */
  lemma {:induction false} ShownFrom(rows: seq<Row>, conversation: Conversation, n: nat) returns (from: nat)
    requires n <= |History(rows, conversation)|
    ensures from <= |rows| && var turns := History(rows, conversation); History(rows[from..], conversation) == turns[|turns| - n..]
  {
    if n == 0 {
      from := |rows|;
      assert rows[from..] == [];
    } else {
      var last := |rows| - 1;
      assert rows == rows[..last] + [rows[last]];
      HistoryConcat(rows[..last], [rows[last]], conversation);
      assert [rows[last]][..0] == [];
      var own := History([rows[last]], conversation);
      from := ShownFrom(rows[..last], conversation, n - |own|);
      assert rows[from..] == rows[..last][from..] + [rows[last]];
      HistoryConcat(rows[..last][from..], [rows[last]], conversation);
    }
  }

  /** Where the turns of an approved prompt begin. */
  lemma ApprovedFrom(sys: System, first: Submission, action: bool, context: Context, clock: int) returns (from: nat)
    requires SubmitTx(sys, first, action, context, clock).Ok? && Find(sys.rows, first.request).None?
    ensures from <= |sys.rows|
    ensures ApprovedPrompt(sys, first, action, context, clock).0 ==
      AllTurns(History(sys.rows[from..], first.question.conversation), first.question.content)
  {
    var conversation, content := first.question.conversation, first.question.content;
    PackIsLongest(Memory(context.notes), History(sys.rows, conversation), content);
    from := PackedFrom(sys.rows, conversation, content, ApprovedPrompt(sys, first, action, context, clock).0);
  }

  lemma PackedFrom(rows: seq<Row>, conversation: Conversation, content: Utf8, included: seq<Turn>) returns (from: nat)
    requires var turns := AllTurns(History(rows, conversation), content);
      0 < |included| <= |turns| && included == turns[|turns| - |included|..]
    ensures from <= |rows| && included == AllTurns(History(rows[from..], conversation), content)
  {
    from := ShownFrom(rows, conversation, |included| - 1);
    LastTurns(History(rows, conversation), Turn(User, content), |included| - 1);
  }

  /** From a row on, the turn just stored adds its message. */
  lemma HistoryFrom(
    sys: System, submission: Submission, approval: Approval, action: bool, clock: int, from: nat)
    requires submission.question.conversation in sys.conversations && from <= |sys.rows|
    ensures var next := NewTurn(sys, submission, approval, action, clock);
      History(next.rows[from..], submission.question.conversation) ==
        AllTurns(History(sys.rows[from..], submission.question.conversation), submission.question.content)
  {
    var rows := NewTurn(sys, submission, approval, action, clock).rows;
    assert rows[from..][..|rows[from..]| - 1][..|rows[from..]| - 2] == sys.rows[from..];
  }

  /** All that was said from a row on and is still said, and more, is at least as long. */
  lemma SaidSinceIsNoShorter(before: seq<Row>, after: seq<Row>, conversation: Conversation, from: nat)
    requires StillSaid(before, after) && from <= |before|
    ensures |Rendered(History(before[from..], conversation))| <= |Rendered(History(after[from..], conversation))|
  {
    var kept, added := after[from..|before|], after[|before|..];
    assert after[from..] == kept + added;
    StillSaidIsNoShorter(before[from..], kept, conversation);
    HistoryConcat(kept, added, conversation);
    RenderedConcat(History(kept, conversation), History(added, conversation));
  }

  /** From a row on, the rest of the conversation with the message is one of its ends. */
  lemma EndFrom(sys: System, question: Question, from: nat)
    requires from <= |sys.rows|
    ensures var rest := History(sys.rows[from..], question.conversation);
      && |rest| <= |History(sys.rows, question.conversation)|
      && End(sys, question, |rest| + 1) == AllTurns(rest, question.content)
  {
    assert sys.rows == sys.rows[..from] + sys.rows[from..];
    HistoryConcat(sys.rows[..from], sys.rows[from..], question.conversation);
  }

  lemma OneMoreIsLonger(memory: Utf8, first: seq<Turn>, rest: seq<Turn>, content: Utf8)
    requires |Rendered(first)| <= |Rendered(rest)|
    ensures |Prompt(memory, first)| < |Prompt(memory, AllTurns(rest, content))|
  {
    RenderedConcat(rest, [Turn(User, content)]);
    RenderedOne(Turn(User, content));
  }

  /**
   So the same message is refused while everything fits: the turns the preview showed, all that was completed or
   said since, and the message, provided nothing that was said has been taken back.
  */
  lemma RefusedWhileAllFits(
    hash: Approval -> Digest, sys: System, first: Submission, action: bool, context: Context, clock: int,
    steps: seq<Step>, second: RequestId, again: bool, other: Context, later: int, from: nat)
    requires Resubmitted(hash, sys, first, action, context, clock, steps, first.(request := second))
    requires Memory(other.notes) == Memory(context.notes)
    requires StillSaid(
      SubmitTx(sys, first, action, context, clock).value.rows, Later(sys, first, action, context, clock, steps).rows)
    requires var conversation, content := first.question.conversation, first.question.content;
      && from <= |sys.rows|
      && ApprovedPrompt(sys, first, action, context, clock).0 == AllTurns(History(sys.rows[from..], conversation), content)
      && Fits(Memory(context.notes),
              AllTurns(History(Later(sys, first, action, context, clock, steps).rows[from..], conversation), content))
    ensures SubmitTx(Later(sys, first, action, context, clock, steps), first.(request := second), again, other, later).Err?
  {
    var conversation, content := first.question.conversation, first.question.content;
    var next, reached := SubmitTx(sys, first, action, context, clock).value, Later(sys, first, action, context, clock, steps);
    var approval := Effective(sys, first, context).value;
    HistoryFrom(sys, first, approval, action, clock, from);
    SaidSinceIsNoShorter(next.rows, reached.rows, conversation, from);
    var shown, rest := History(next.rows[from..], conversation), History(reached.rows[from..], conversation);
    OneMoreIsLonger(Memory(context.notes), shown, rest, content);
    EndFrom(reached, first.question, from);
    RefusedWhileMoreFits(
      hash, sys, first, action, context, clock, steps, first.(request := second), again, other, later, |rest| + 1);
  }

  // ----- right after the first turn -----

  /** Would this message, sent again right after its own turn, be sent with the same prompt? All of it is known before. */
  predicate SamePromptAgain(sys: System, question: Question, notes: seq<Utf8>) {
    var history := History(sys.rows, question.conversation);
    var first, again := Pack(Memory(notes), history, question.content), PackAgain(Memory(notes), history, question.content);
    && first.Some? && again.Some? && Prompt(Memory(notes), first.value) == Prompt(Memory(notes), again.value)
  }

  lemma PromptAfterTurn(sys: System, submission: Submission, approval: Approval, action: bool, clock: int, notes: seq<Utf8>)
    requires submission.question.conversation in sys.conversations
    requires PromptFor(sys, submission.question, notes).Some?
    ensures var next := NewTurn(sys, submission, approval, action, clock);
      SamePromptAgain(sys, submission.question, notes) <==>
        && PromptFor(next, submission.question, notes).Some?
        && PromptFor(next, submission.question, notes).value.1 == PromptFor(sys, submission.question, notes).value.1
  {
    HistoryAfterTurn(sys, submission, approval, action, clock);
  }

  /**
   Right after the first turn: a second request with its digest is accepted if and only if the prompt packed after
   the message has become a turn is the prompt packed before.
  */
  lemma ServesTwiceExactlyWhen(
    hash: Approval -> Digest, sys: System, first: Submission, second: RequestId, action: bool, context: Context,
    clock: int, again: bool, later: int)
    requires sys.hash == hash && CollisionFree(hash)
    requires SubmitTx(sys, first, action, context, clock).Ok? && Find(sys.rows, first.request).None?
    requires second != first.request && Find(sys.rows, second).None?
    ensures var next := SubmitTx(sys, first, action, context, clock).value;
      SubmitTx(next, first.(request := second), again, context, later).Ok? <==>
        SamePromptAgain(sys, first.question, context.notes)
  {
    var approval := Effective(sys, first, context).value;
    NotFoundAfter(sys, first, approval, action, clock, second);
    assert Later(sys, first, action, context, clock, []) == NewTurn(sys, first, approval, action, clock);
    SameMessageServesAgainExactlyWhen(
      hash, sys, first, action, context, clock, [], second, again, context.notes, later);
    PromptAfterTurn(sys, first, approval, action, clock, context.notes);
  }

  /** While the turns of the preview and one more copy of the message still fit, it is refused, at that moment. */
  lemma RefusedWhileItFits(
    hash: Approval -> Digest, sys: System, first: Submission, second: RequestId, action: bool, context: Context,
    clock: int, again: bool, later: int)
    requires sys.hash == hash && CollisionFree(hash)
    requires SubmitTx(sys, first, action, context, clock).Ok? && Find(sys.rows, first.request).None?
    requires second != first.request && Find(sys.rows, second).None?
    requires var packed := PromptFor(sys, first.question, context.notes);
      packed.Some? && Fits(Memory(context.notes), packed.value.0 + [Turn(User, first.question.content)])
    ensures SubmitTx(SubmitTx(sys, first, action, context, clock).value, first.(request := second), again, context, later).Err?
  {
    var history := History(sys.rows, first.question.conversation);
    PackIsLongest(Memory(context.notes), history, first.question.content);
    SamePromptExactlyWhen(Memory(context.notes), history, first.question.content);
    ServesTwiceExactlyWhen(hash, sys, first, second, action, context, clock, again, later);
  }

  /**
   In a conversation of single lines the caller can tell at a glance: right after the first turn the second is
   accepted if and only if the preview showed nothing but copies of the message, and one more would not have fitted.
  */
  lemma LinesServeTwiceExactlyWhen(
    hash: Approval -> Digest, sys: System, first: Submission, second: RequestId, action: bool, context: Context,
    clock: int, again: bool, later: int)
    requires sys.hash == hash && CollisionFree(hash)
    requires SubmitTx(sys, first, action, context, clock).Ok? && Find(sys.rows, first.request).None?
    requires second != first.request && Find(sys.rows, second).None?
    requires SingleLines(History(sys.rows, first.question.conversation)) && '\n' !in first.question.content
    ensures var included := PromptFor(sys, first.question, context.notes).value.0;
      var message := Turn(User, first.question.content);
      SubmitTx(SubmitTx(sys, first, action, context, clock).value, first.(request := second), again, context, later).Ok? <==>
        Copies(included, message) && !Fits(Memory(context.notes), included + [message])
  {
    var history := History(sys.rows, first.question.conversation);
    PackIsLongest(Memory(context.notes), history, first.question.content);
    SamePromptOfLines(Memory(context.notes), history, first.question.content);
    ServesTwiceExactlyWhen(hash, sys, first, second, action, context, clock, again, later);
  }

  lemma NotFoundAfter(sys: System, submission: Submission, approval: Approval, action: bool, clock: int, other: RequestId)
    requires submission.question.conversation in sys.conversations
    requires other != submission.request && Find(sys.rows, other).None?
    ensures Find(NewTurn(sys, submission, approval, action, clock).rows, other).None?
  {
    var rows := NewTurn(sys, submission, approval, action, clock).rows;
    assert rows[..|rows| - 1][..|rows| - 2] == sys.rows;
  }

  // ----- and it does happen -----

  const LOCAL := Context([], Text.Ollama, true)

  lemma LocalQuote(prompt: Utf8, question: Question, provider: Option<Text.Provider>)
    requires 1 <= question.maxCost <= Ledger.MAX_CALL_CAP && provider != Some(Text.OpenAi)
    ensures Quote(prompt, question, provider, LOCAL).Some?
  {
  }

  /** On the local route an accepted message can be previewed, */
  lemma LocalPreview(sys: System, question: Question)
    requires question.conversation in sys.conversations && Acceptable(question.content)
    requires 1 <= question.maxCost <= Ledger.MAX_CALL_CAP
    ensures PreviewTx(sys, question, false, LOCAL).Ok?
  {
    RoomForEveryMessage(sys, question, false, LOCAL);
    var packed := PromptFor(sys, question, []);
    if packed.Some? {
      LocalQuote(packed.value.1, question, if Mentions(packed.value.1) then Some(Text.Ollama) else None);
    }
  }

  /** and then submitted under what the preview showed. */
  lemma PreviewedIsAccepted(sys: System, question: Question, request: RequestId, clock: int)
    requires PreviewTx(sys, question, false, LOCAL).Ok? && Find(sys.rows, request).None?
    ensures var shown := PreviewTx(sys, question, false, LOCAL).value;
      SubmitTx(Exec(sys, Preview(question, false, LOCAL)), Submission(question, request, shown.digest, None),
               false, LOCAL, clock).Ok?
  {
    var shown := PreviewTx(sys, question, false, LOCAL).value;
    var next, submission := Exec(sys, Preview(question, false, LOCAL)), Submission(question, request, shown.digest, None);
    assert PromptFor(next, question, []) == PromptFor(sys, question, []);
    assert Effective(next, submission, LOCAL) == Ok(shown.approval);
  }

  /** The state after a preview, with the submission it invites. */
  ghost predicate Invited(hash: Approval -> Digest, sys: System, first: Submission, clock: int) {
    && Reachable(hash, sys) && Find(sys.rows, first.request).None?
    && (exists shown <- sys.shown :: shown.digest == first.digest)
    && SubmitTx(sys, first, false, LOCAL, clock).Ok?
  }

  lemma PreviewInvites(hash: Approval -> Digest, sys: System, question: Question, request: RequestId, clock: int)
    returns (next: System, first: Submission)
    requires Reachable(hash, sys)
    requires question.conversation in sys.conversations && Acceptable(question.content)
    requires 1 <= question.maxCost <= Ledger.MAX_CALL_CAP && Find(sys.rows, request).None?
    ensures Invited(hash, next, first, clock) && next == sys.(shown := next.shown)
    ensures first.question == question && first.request == request
  {
    LocalPreview(sys, question);
    PreviewedIsAccepted(sys, question, request, clock);
    var shown := PreviewTx(sys, question, false, LOCAL).value;
    next, first := Exec(sys, Preview(question, false, LOCAL)), Submission(question, request, shown.digest, None);
    ReachableStep(hash, sys, Preview(question, false, LOCAL));
    assert shown in next.shown;
  }

  lemma SamePromptIsServed(a: System, first: Submission, b: System, second: Submission, clock: int)
    requires SubmitTx(a, first, false, LOCAL, clock).Ok? && Find(a.rows, first.request).None?
    requires a.hash == b.hash && second.digest == first.digest && Find(b.rows, second.request).None?
    requires Acceptable(second.question.content) && second.question.conversation in b.conversations
    requires second == first.(question := second.question, request := second.request)
    requires second.question.(conversation := 0, content := "") == first.question.(conversation := 0, content := "")
    requires PromptFor(b, second.question, []).Some?
      && PromptFor(b, second.question, []).value.1 == PromptFor(a, first.question, []).value.1
    ensures SubmitTx(b, second, false, LOCAL, clock).Ok?
  {
    EffectiveIs(a, first, LOCAL);
    SameApprovalExactlyWhen(a, first, LOCAL, b, second, LOCAL);
  }

  lemma SamePromptServesTwice(sys: System, first: Submission, second: RequestId, clock: int)
    requires SubmitTx(sys, first, false, LOCAL, clock).Ok? && Find(sys.rows, first.request).None?
    requires second != first.request && Find(sys.rows, second).None?
    requires SamePromptAgain(sys, first.question, [])
    ensures SubmitTx(SubmitTx(sys, first, false, LOCAL, clock).value, first.(request := second), false, LOCAL, clock).Ok?
  {
    var approval := Effective(sys, first, LOCAL).value;
    var next := NewTurn(sys, first, approval, false, clock);
    NotFoundAfter(sys, first, approval, false, clock, second);
    PromptAfterTurn(sys, first, approval, false, clock, []);
    SamePromptIsServed(sys, first, next, first.(request := second), clock);
  }

  lemma LongMessageFillsThePrompt(content: Utf8)
    requires |content| == 2000
    ensures var message := Turn(User, content);
      Fits("", [message]) && !Fits("", [message, message]) && Pack("", [], content) == Some([message])
  {
    var message := Turn(User, content);
    RenderedOne(message);
    RenderedConcat([message], [message]);
    assert [message] + [message] == [message, message];
    assert |Line(message)| == 2008 && |PREFIX| <= 400 && 80 < |PREFIX| && |SUFFIX| <= 100;
    PackIsLongest("", [], content);
    assert AllTurns([], content) == [message];
  }

  /**
   A concrete run: in a new conversation a message of 2000 bytes is previewed once, and two requests under that
   one digest are both stored.
  */
  lemma LongMessageServesTwice(hash: Approval -> Digest, content: Utf8) returns (sys: System, first: Submission)
    requires |content| == 2000
    ensures Invited(hash, sys, first, 0) && first.question.content == content && first.request == 1
    ensures SubmitTx(SubmitTx(sys, first, false, LOCAL, 0).value, first.(request := 2), false, LOCAL, 0).Ok?
  {
    var start := Initial(hash);
    assert Run(start, []) == start;
    ReachableStep(hash, start, Create(0));
    sys, first := PreviewInvites(hash, Exec(start, Create(0)), Question(0, content, 100, 1), 1, 0);
    LongMessageFillsThePrompt(content);
    FullOfCopiesPacksAgain("", [], content);
    assert [Turn(User, content)] + [Turn(User, content)] == [Turn(User, content), Turn(User, content)];
    assert History(sys.rows, 0) == [];
    SamePromptServesTwice(sys, first, 2, 0);
  }

  lemma TwoCopiesFillThePrompt(content: Utf8)
    requires |content| == 1500
    ensures var message := Turn(User, content);
      && Fits("", [message, message]) && !Fits("", [message, message, message])
      && Pack("", [message], content) == Some([message, message])
  {
    var message := Turn(User, content);
    RenderedOne(message);
    RenderedConcat([message], [message]);
    assert [message] + [message] == [message, message];
    RenderedConcat([message, message], [message]);
    assert [message, message] + [message] == [message, message, message];
    assert |Line(message)| == 1508 && |PREFIX| <= 400 && |SUFFIX| <= 100;
    assert AllTurns([message], content) == [message, message];
    assert [message, message][1..] == [message];
    PackIsLongest("", [message], content);
    SuffixFits("", [message, message], Pack("", [message], content).value, 2);
  }

  /** A new conversation in which one message has been sent. */
  lemma OnceSent(hash: Approval -> Digest, content: Utf8) returns (sys: System)
    requires Acceptable(content)
    ensures Reachable(hash, sys) && 0 in sys.conversations && History(sys.rows, 0) == [Turn(User, content)]
    ensures Find(sys.rows, 2).None? && Find(sys.rows, 3).None? && forall row <- sys.rows :: row.conversation == 0
  {
    var start := Initial(hash);
    assert Run(start, []) == start;
    ReachableStep(hash, start, Create(0));
    var once, opening := PreviewInvites(hash, Exec(start, Create(0)), Question(0, content, 100, 1), 1, 0);
    ReachableStep(hash, once, Submit(opening, false, LOCAL, 0));
    var approval := Effective(once, opening, LOCAL).value;
    sys := NewTurn(once, opening, approval, false, 0);
    assert sys == Exec(once, Submit(opening, false, LOCAL, 0));
    HistoryAfterTurn(once, opening, approval, false, 0);
    NotFoundAfter(once, opening, approval, false, 0, 2);
    NotFoundAfter(once, opening, approval, false, 0, 3);
    assert History(once.rows, 0) + [Turn(User, content)] == [Turn(User, content)];
  }

  /**
   Another: a message of 1500 bytes is sent, and sent again from a preview that shows both copies; a third request
   under the second preview's digest is stored as well, although one earlier turn did fit.
  */
  lemma RepeatedMessageServesTwice(hash: Approval -> Digest, content: Utf8) returns (sys: System, first: Submission)
    requires |content| == 1500
    ensures Invited(hash, sys, first, 0) && first.question.content == content && first.request == 2
    ensures History(sys.rows, 0) == [Turn(User, content)]
    ensures SubmitTx(SubmitTx(sys, first, false, LOCAL, 0).value, first.(request := 3), false, LOCAL, 0).Ok?
  {
    var sent := OnceSent(hash, content);
    sys, first := PreviewInvites(hash, sent, Question(0, content, 100, 1), 2, 0);
    TwoCopiesFillThePrompt(content);
    var message := Turn(User, content);
    assert [message, message] + [message] == [message, message, message];
    assert Fits("", [message]) by {
      AcceptedMessageFits([], content);
    }
    FullOfCopiesPacksAgain("", [Turn(User, content)], content);
    SamePromptServesTwice(sys, first, 3, 0);
  }

  // ----- later, and elsewhere -----

  /** With a long reply between two short messages only the second of them is packed. */
  lemma ReplyFillsThePrompt(content: Utf8, reply: Utf8)
    requires |content| == 1000 && |reply| == 3000
    ensures var message, answer := Turn(User, content), Turn(Assistant, reply);
      && Fits("", [message, message]) && Pack("", [], content) == Some([message])
      && Pack("", [message, answer], content) == Some([message])
  {
    var message, answer := Turn(User, content), Turn(Assistant, reply);
    AcceptedMessageFits([], content);
    OneTurnIsPacked(content);
    TwoLines(message, message);
    TwoLines(answer, message);
    assert |Line(message)| == 1008 && |Line(answer)| == 3013 && 80 < |PREFIX| <= 400 && |SUFFIX| <= 100;
    OnlyTheLastFits(message, answer, content);
  }

  lemma TwoLines(a: Turn, b: Turn)
    ensures |Rendered([a, b])| == |Line(a)| + |Line(b)|
  {
    RenderedOne(a);
    RenderedOne(b);
    RenderedConcat([a], [b]);
    assert [a] + [b] == [a, b];
  }

  lemma OnlyTheLastFits(earlier: Turn, answer: Turn, content: Utf8)
    requires Fits("", [Turn(User, content)]) && !Fits("", [answer, Turn(User, content)])
    ensures Pack("", [earlier, answer], content) == Some([Turn(User, content)])
  {
    var message := Turn(User, content);
    var turns := [earlier, answer, message];
    assert AllTurns([earlier, answer], content) == turns;
    assert turns[1..] == [answer, message] && turns[2..] == [message];
    PackIsLongest("", [earlier, answer], content);
    SuffixFits("", turns, Pack("", [earlier, answer], content).value, 2);
  }

  /** A turn on the local route is put on the queue and completed. */
  function Completion(row: nat, reply: Utf8): seq<Step> {
    [Enqueue(row, true), Attach(row), Refresh(row, Complete, reply)]
  }

  lemma RunThree(start: System, a: Step, b: Step, c: Step)
    ensures Run(start, [a, b, c]) == Exec(Exec(Exec(start, a), b), c)
  {
    assert [a, b, c][..2] == [a, b] && [a, b][..1] == [a] && [a][..0] == [];
    assert Run(start, [a]) == Exec(start, a);
    assert Run(start, [a, b]) == Exec(Exec(start, a), b);
  }

  /** The reply of a stored turn is completed with a text, and nothing else is said. */
  lemma OrphanCompletes(sys: System, k: nat, reply: Utf8)
    requires Orphan(sys, k) && Sendable(sys.rows[k].body.approval) && sys.rows[k].body.request !in sys.jobs
    ensures var reached := Run(sys, Completion(k, reply));
      && reached.hash == sys.hash && reached.conversations == sys.conversations
      && reached.rows ==
           sys.rows[k := sys.rows[k].(content := reply, body := sys.rows[k].body.(attached := true, status := Complete))]
  {
    RunThree(sys, Enqueue(k, true), Attach(k), Refresh(k, Complete, reply));
    RequestIsUnchanged(sys.rows[k], true);
    var queued := Exec(sys, Enqueue(k, true));
    assert queued.rows == sys.rows && queued.jobs[sys.rows[k].body.request] == Job(sys.rows[k].conversation, sys.rows[k].body.approval);
  }

  lemma TurnCompletes(sys: System, first: Submission, clock: int, reply: Utf8)
    requires sys.rows == [] && sys.jobs == map[]
    requires SubmitTx(sys, first, false, LOCAL, clock).Ok?
    ensures var next := SubmitTx(sys, first, false, LOCAL, clock).value;
      var reached := Run(next, Completion(1, reply));
      && reached.hash == next.hash && reached.conversations == next.conversations
      && |next.rows| == 2 && next.rows[1].body.Reply?
      && reached.rows ==
           [next.rows[0], next.rows[1].(content := reply, body := next.rows[1].body.(attached := true, status := Complete))]
  {
    QuoteStaysLocal(sys, first, LOCAL);
    OrphanCompletes(SubmitTx(sys, first, false, LOCAL, clock).value, 1, reply);
  }

  lemma CompletedHistory(sys: System, first: Submission, clock: int, reply: Utf8)
    requires sys.rows == [] && sys.jobs == map[]
    requires SubmitTx(sys, first, false, LOCAL, clock).Ok?
    ensures var reached := Run(SubmitTx(sys, first, false, LOCAL, clock).value, Completion(1, reply));
      && History(reached.rows, first.question.conversation) ==
           [Turn(User, first.question.content), Turn(Assistant, reply)]
      && forall other | other != first.request :: Find(reached.rows, other).None?
  {
    TurnCompletes(sys, first, clock, reply);
    var rows := Run(SubmitTx(sys, first, false, LOCAL, clock).value, Completion(1, reply)).rows;
    assert rows[..1] == [rows[0]] && [rows[0]][..0] == [];
  }

  /**
   A concrete run: a message of 1000 bytes is previewed and sent in a new conversation. One more copy would fit, so
   right then the preview does not serve again. But once its reply, of 3000 bytes, is complete, only the message
   itself is packed, and the preview serves once more.
  */
  lemma LongReplyServesAgain(hash: Approval -> Digest, content: Utf8, reply: Utf8) returns (sys: System, first: Submission)
    requires |content| == 1000 && |reply| == 3000
    ensures Invited(hash, sys, first, 0) && first.question.content == content && first.request == 1
    ensures var next, second := SubmitTx(sys, first, false, LOCAL, 0).value, first.(request := 2);
      && (CollisionFree(hash) ==> SubmitTx(next, second, false, LOCAL, 0).Err?)
      && SubmitTx(Run(next, Completion(1, reply)), second, false, LOCAL, 0).Ok?
      && Find(Run(next, Completion(1, reply)).rows, 2).None?
  {
    var start := Initial(hash);
    assert Run(start, []) == start;
    ReachableStep(hash, start, Create(0));
    sys, first := PreviewInvites(hash, Exec(start, Create(0)), Question(0, content, 1024, 1), 1, 0);
    var next, second := SubmitTx(sys, first, false, LOCAL, 0).value, first.(request := 2);
    ReplyFillsThePrompt(content, reply);
    TurnCompletes(sys, first, 0, reply);
    CompletedHistory(sys, first, 0, reply);
    SamePromptIsServed(sys, first, Run(next, Completion(1, reply)), second, 0);
    var message := Turn(User, content);
    assert [message] + [message] == [message, message];
    if CollisionFree(hash) {
      RefusedWhileItFits(hash, sys, first, 2, false, LOCAL, 0, false, 0);
    }
  }

  /** Two turns, and one message that quotes them, make the same text, */
  lemma QuotedTurnsAreTheSame(asked: Utf8, content: Utf8)
    ensures Rendered([Turn(User, asked), Turn(User, content)]) == Rendered([Turn(User, asked + "\n[user] " + content)])
  {
    var quoting, earlier, message := asked + "\n[user] " + content, Turn(User, asked), Turn(User, content);
    RenderedOne(earlier);
    RenderedOne(message);
    RenderedOne(Turn(User, quoting));
    RenderedConcat([earlier], [message]);
    assert [earlier] + [message] == [earlier, message];
    Middle(Label(User) + asked + "\n", Label(User), content, "\n");
  }

  /** and short ones are packed whole. */
  lemma ShortTurnsArePacked(asked: Utf8, content: Utf8)
    requires |asked| <= 500 && |content| <= 500
    ensures Pack("", [Turn(User, asked)], content) == Some([Turn(User, asked), Turn(User, content)])
    ensures var quoting := asked + "\n[user] " + content; Pack("", [], quoting) == Some([Turn(User, quoting)])
  {
    var quoting := asked + "\n[user] " + content;
    AcceptedMessageFits([], quoting);
    OneTurnIsPacked(quoting);
    QuotedTurnsAreTheSame(asked, content);
    TwoTurnsArePacked(Turn(User, asked), content);
  }

  lemma OneTurnIsPacked(content: Utf8)
    requires Fits("", [Turn(User, content)])
    ensures Pack("", [], content) == Some([Turn(User, content)])
  {
    PackIsLongest("", [], content);
    assert AllTurns([], content) == [Turn(User, content)];
  }

  lemma TwoTurnsArePacked(earlier: Turn, content: Utf8)
    requires Fits("", [earlier, Turn(User, content)])
    ensures Pack("", [earlier], content) == Some([earlier, Turn(User, content)])
  {
    var turns := [earlier, Turn(User, content)];
    assert AllTurns([earlier], content) == turns && turns[0..] == turns && turns[1..] == [Turn(User, content)];
    PackIsLongest("", [earlier], content);
    RenderedGrows(turns, 1);
    SuffixFits("", turns, Pack("", [earlier], content).value, 2);
  }

  lemma {:induction false} NothingSaid(rows: seq<Row>, conversation: Conversation)
    requires forall row <- rows :: row.conversation != conversation
    ensures History(rows, conversation) == []
  {
    if rows != [] {
      NothingSaid(rows[..|rows| - 1], conversation);
    }
  }

  /**
   Another concrete run: what was previewed as the second message of one conversation also serves, with the same
   digest, for a different message in another conversation, one that quotes both.
  */
  lemma OtherMessageIsServed(hash: Approval -> Digest, asked: Utf8, content: Utf8) returns (sys: System, first: Submission)
    requires 1 <= |asked| <= 500 && 1 <= |content| <= 500
    ensures Invited(hash, sys, first, 0) && first.question.conversation == 0 && first.question.content == content
    ensures var quoting := first.question.(conversation := 1, content := asked + "\n[user] " + content);
      SubmitTx(SubmitTx(sys, first, false, LOCAL, 0).value, first.(question := quoting, request := 3), false, LOCAL, 0).Ok?
  {
    sys, first := SecondMessage(hash, asked, content);
    var next := NewTurn(sys, first, Effective(sys, first, LOCAL).value, false, 0);
    var quoting := Question(1, asked + "\n[user] " + content, 100, 1);
    NotFoundAfter(sys, first, Effective(sys, first, LOCAL).value, false, 0, 3);
    QuotedPrompt(sys, next, asked, first.question, quoting);
    SamePromptIsServed(sys, first, next, first.(question := quoting, request := 3), 0);
  }

  /** One message was sent, a second one is previewed, and there is another conversation with nothing in it. */
  lemma SecondMessage(hash: Approval -> Digest, asked: Utf8, content: Utf8) returns (sys: System, first: Submission)
    requires 1 <= |asked| <= 500 && 1 <= |content| <= 500
    ensures Invited(hash, sys, first, 0) && first.question == Question(0, content, 100, 1) && first.request == 2
    ensures 1 in sys.conversations && Find(sys.rows, 3).None? && History(sys.rows, 0) == [Turn(User, asked)]
    ensures forall row <- sys.rows :: row.conversation == 0
  {
    var sent := OnceSent(hash, asked);
    ReachableStep(hash, sent, Create(1));
    sys, first := PreviewInvites(hash, Exec(sent, Create(1)), Question(0, content, 100, 1), 2, 0);
  }

  lemma QuotedPrompt(a: System, b: System, asked: Utf8, question: Question, quoting: Question)
    requires |asked| <= 500 && |question.content| <= 500 && quoting.content == asked + "\n[user] " + question.content
    requires History(a.rows, question.conversation) == [Turn(User, asked)]
    requires forall row <- b.rows :: row.conversation != quoting.conversation
    ensures PromptFor(a, question, []).Some? && PromptFor(b, quoting, []).Some?
    ensures PromptFor(b, quoting, []).value.1 == PromptFor(a, question, []).value.1
  {
    QuotedTurnsAreTheSame(asked, question.content);
    ShortTurnsArePacked(asked, question.content);
    NothingSaid(b.rows, quoting.conversation);
  }
}
